/** The ELF reader (app/zmux/elfscan.py): the DT_NEEDED names of a 32- or 64-bit
    image of either byte order, found through its section headers (System V gABI,
    chapters 4 and 5). */
module Elf {
  import opened Octets
  import opened Wrappers

  /** Where the source raises ElfError, and where an access out of range raises. */
  datatype ElfError =
    | NotElf | UnsupportedClass | NoSectionTable | BadStringTable | NoDynamic
    | Truncated | Unterminated

  const SHT_STRTAB := 3
  const SHT_DYNAMIC := 6
  const DT_NULL := 0
  const DT_NEEDED := 1
  const MAGIC: Bytes := [0x7F, 0x45, 0x4C, 0x46]
  /** ".dynstr" */
  const DYNSTR: Bytes := [0x2E, 0x64, 0x79, 0x6E, 0x73, 0x74, 0x72]

  /** The class of the image, and what its bytes mean as numbers. */
  datatype Format = Format(wide: bool, decode: Bytes -> nat)

  /** The unsigned number in `width` bytes at `offset`, if the image has them. */
  function Number(data: Bytes, offset: nat, width: nat, decode: Bytes -> nat): Option<nat> {
    if offset + width > |data| then None else Some(decode(data[offset..offset + width]))
  }

  datatype Preamble = Preamble(format: Format, shoff: nat, shentsize: nat, shnum: nat, shstrndx: nat)

  /** The file header: where its four fields end. */
  function HeaderEnd(wide: bool): nat {
    if wide then 0x40 else 0x34
  }

  function ReadPreamble(data: Bytes): Result<Preamble, ElfError> {
    if |data| < 4 || data[..4] != MAGIC then Err(NotElf)
    else if |data| < 6 then Err(Truncated)
    else if data[4] != 1 && data[4] != 2 then Err(UnsupportedClass)
    else
      var f := Format(data[4] == 2, if data[5] == 1 then FromLittleEndian else FromBigEndian);
      if |data| < HeaderEnd(f.wide) then Err(Truncated)
      else
        var at := if f.wide then 0x3A else 0x2E;
        var shoff := if f.wide then Number(data, 0x28, 8, f.decode) else Number(data, 0x20, 4, f.decode);
        var shentsize := Number(data, at, 2, f.decode);
        var shnum := Number(data, at + 2, 2, f.decode);
        var shstrndx := Number(data, at + 4, 2, f.decode);
        if shoff.value == 0 || shnum.value == 0 || shentsize.value == 0 then Err(NoSectionTable)
        else Ok(Preamble(f, shoff.value, shentsize.value, shnum.value, shstrndx.value))
  }

  datatype Section = Section(name: nat, kind: nat, offset: nat, size: nat)

  /** How many bytes of a section header are read. */
  function SectionBytes(wide: bool): nat {
    if wide then 0x28 else 0x18
  }

  function SectionAt(pre: Preamble, index: nat): nat {
    pre.shoff + index * pre.shentsize
  }

  function ReadSectionAt(data: Bytes, f: Format, at: nat): Option<Section> {
    if at + SectionBytes(f.wide) > |data| then None
    else
      var name, kind := Number(data, at, 4, f.decode).value, Number(data, at + 4, 4, f.decode).value;
      if f.wide then
        Some(Section(name, kind, Number(data, at + 0x18, 8, f.decode).value, Number(data, at + 0x20, 8, f.decode).value))
      else
        Some(Section(name, kind, Number(data, at + 0x10, 4, f.decode).value, Number(data, at + 0x14, 4, f.decode).value))
  }

  function ReadSection(data: Bytes, pre: Preamble, index: nat): Option<Section> {
    ReadSectionAt(data, pre.format, SectionAt(pre, index))
  }

  /** First zero byte from `start` on and before `end`. */
  function Terminator(data: Bytes, start: nat, end: nat): (r: Option<nat>)
    ensures r.Some? ==> start <= r.value < end && r.value < |data| && data[r.value] == 0
    ensures r.Some? ==> forall i | start <= i < r.value :: data[i] != 0
    ensures r.None? ==> forall i | start <= i < end && i < |data| :: data[i] != 0
    decreases end - start
  {
    if start >= end || start >= |data| then None
    else if data[start] == 0 then Some(start)
    else Terminator(data, start + 1, end)
  }

  function Text(data: Bytes, start: nat, end: nat): Result<Bytes, ElfError> {
    match Terminator(data, start, end)
    case None => Err(Unterminated)
    case Some(stop) => Ok(data[start..stop])
  }

  datatype Range = Range(offset: nat, size: nat)

  datatype Layout = Layout(dynamic: Option<Range>, dynstr: Option<Range>)

  /** One section is taken in: the first dynamic one, the last `.dynstr`. */
  function TakeSection(layout: Layout, s: Section, name: Bytes): Layout {
    if s.kind == SHT_DYNAMIC && layout.dynamic.None? then
      layout.(dynamic := Some(Range(s.offset, s.size)))
    else if name == DYNSTR && s.kind == SHT_STRTAB then
      layout.(dynstr := Some(Range(s.offset, s.size)))
    else layout
  }

  /** One turn of the section loop. */
  function VisitSection(data: Bytes, pre: Preamble, names: Range, index: nat, layout: Layout)
    : Result<Layout, ElfError>
  {
    match ReadSection(data, pre, index)
    case None => Err(Truncated)
    case Some(s) =>
      if index == pre.shstrndx then Ok(layout)
      else
        match Text(data, names.offset + s.name, names.offset + names.size)
        case Err(e) => Err(e)
        case Ok(name) => Ok(TakeSection(layout, s, name))
  }

  function ScanSections(data: Bytes, pre: Preamble, names: Range, index: nat, layout: Layout)
    : Result<Layout, ElfError>
    decreases pre.shnum - index
  {
    if index >= pre.shnum then Ok(layout)
    else
      match VisitSection(data, pre, names, index, layout)
      case Err(e) => Err(e)
      case Ok(after) => ScanSections(data, pre, names, index + 1, after)
  }

  /** The section-header string table. */
  function NameTable(data: Bytes, pre: Preamble): Result<Range, ElfError> {
    match ReadSection(data, pre, pre.shstrndx)
    case None => Err(Truncated)
    case Some(s) => if s.kind != SHT_STRTAB then Err(BadStringTable) else Ok(Range(s.offset, s.size))
  }

  /** The ranges of .dynamic and .dynstr. */
  function Locate(data: Bytes, pre: Preamble): Result<(Range, Range), ElfError> {
    match NameTable(data, pre)
    case Err(e) => Err(e)
    case Ok(names) =>
      match ScanSections(data, pre, names, 0, Layout(None, None))
      case Err(e) => Err(e)
      case Ok(layout) =>
        if layout.dynamic.None? || layout.dynstr.None? then Err(NoDynamic)
        else Ok((layout.dynamic.value, layout.dynstr.value))
  }

  function EntryBytes(wide: bool): (n: nat)
    ensures n > 0
  {
    if wide then 16 else 8
  }

  /** Tag and value of a dynamic entry. */
  function ReadEntry(data: Bytes, f: Format, at: nat): Option<(nat, nat)> {
    var half := EntryBytes(f.wide) / 2;
    if at + 2 * half > |data| then None
    else Some((Number(data, at, half, f.decode).value, Number(data, at + half, half, f.decode).value))
  }

  /** What a dynamic entry makes the entry loop do. */
  datatype Visit = Stop | Skip | Take(start: nat, name: Bytes) | Fail(error: ElfError)

  function VisitRead(data: Bytes, read: Option<(nat, nat)>, dynstr: Range): Visit {
    match read
    case None => Fail(Truncated)
    case Some((tag, value)) =>
      if tag == DT_NULL then Stop
      else if tag != DT_NEEDED || value >= dynstr.size then Skip
      else
        var start := dynstr.offset + value;
        match Text(data, start, dynstr.offset + dynstr.size)
        case Err(e) => Fail(e)
        case Ok(name) => Take(start, name)
  }

  function VisitEntry(data: Bytes, f: Format, dynamic: Range, dynstr: Range, entry: nat): Visit {
    VisitRead(data, ReadEntry(data, f, dynamic.offset + entry), dynstr)
  }

  /** The whole result, when `needed` was found so far. */
  function Onto(needed: seq<Bytes>, rest: Result<seq<Bytes>, ElfError>): Result<seq<Bytes>, ElfError> {
    if rest.Ok? then Ok(needed + rest.value) else rest
  }

  /** The names from dynamic entry `entry` on, up to the first null entry. */
  function NeededFrom(data: Bytes, f: Format, dynamic: Range, dynstr: Range, entry: nat)
    : Result<seq<Bytes>, ElfError>
    decreases dynamic.size - entry
  {
    if entry >= dynamic.size then Ok([])
    else
      var next := entry + EntryBytes(f.wide);
      match VisitEntry(data, f, dynamic, dynstr, entry)
      case Stop => Ok([])
      case Fail(e) => Err(e)
      case Skip => NeededFrom(data, f, dynamic, dynstr, next)
      case Take(_, name) => Onto([name], NeededFrom(data, f, dynamic, dynstr, next))
  }

  function Needed(data: Bytes): Result<seq<Bytes>, ElfError> {
    match ReadPreamble(data)
    case Err(e) => Err(e)
    case Ok(pre) =>
      match Locate(data, pre)
      case Err(e) => Err(e)
      case Ok((dynamic, dynstr)) => NeededFrom(data, pre.format, dynamic, dynstr, 0)
  }

  predicate IsDynamic(data: Bytes, pre: Preamble, i: nat) {
    i != pre.shstrndx && ReadSection(data, pre, i).Some? && ReadSection(data, pre, i).value.kind == SHT_DYNAMIC
  }

  predicate IsDynstr(data: Bytes, pre: Preamble, names: Range, i: nat) {
    && i != pre.shstrndx && ReadSection(data, pre, i).Some?
    && var s := ReadSection(data, pre, i).value;
       s.kind == SHT_STRTAB && Text(data, names.offset + s.name, names.offset + names.size) == Ok(DYNSTR)
  }

  /** The first index below `n` with a property. */
  function FirstWhere(p: nat -> bool, n: nat): (r: Option<nat>)
    ensures r.Some? ==> r.value < n && p(r.value) && forall j: nat | j < r.value :: !p(j)
    ensures r.None? ==> forall j: nat | j < n :: !p(j)
  {
    if n == 0 then None
    else
      var before := FirstWhere(p, n - 1);
      if before.None? && p(n - 1) then Some(n - 1) else before
  }

  /** The last one. */
  function LastWhere(p: nat -> bool, n: nat): (r: Option<nat>)
    ensures r.Some? ==> r.value < n && p(r.value) && forall j: nat | r.value < j < n :: !p(j)
    ensures r.None? ==> forall j: nat | j < n :: !p(j)
  {
    if n == 0 then None else if p(n - 1) then Some(n - 1) else LastWhere(p, n - 1)
  }

  function DynamicAt(data: Bytes, pre: Preamble): nat -> bool {
    (i: nat) => IsDynamic(data, pre, i)
  }

  function DynstrAt(data: Bytes, pre: Preamble, names: Range): nat -> bool {
    (i: nat) => IsDynstr(data, pre, names, i)
  }

  function RangeOf(data: Bytes, pre: Preamble, i: Option<nat>): Option<Range> {
    if i.None? || ReadSection(data, pre, i.value).None? then None
    else
      var s := ReadSection(data, pre, i.value).value;
      Some(Range(s.offset, s.size))
  }

  /** Of the first `n` sections, the first dynamic one and the last `.dynstr`. */
  function LayoutOf(data: Bytes, pre: Preamble, names: Range, n: nat): Layout {
    Layout(RangeOf(data, pre, FirstWhere(DynamicAt(data, pre), n)),
           RangeOf(data, pre, LastWhere(DynstrAt(data, pre, names), n)))
  }

  /** What one turn makes of the two. */
  lemma VisitMeans(data: Bytes, pre: Preamble, names: Range, n: nat, layout: Layout)
    requires VisitSection(data, pre, names, n, layout).Ok?
    ensures var after, here := VisitSection(data, pre, names, n, layout).value, RangeOf(data, pre, Some(n));
            && after.dynamic == (if IsDynamic(data, pre, n) && layout.dynamic.None? then here else layout.dynamic)
            && after.dynstr == (if IsDynstr(data, pre, names, n) then here else layout.dynstr)
  {
  }

  lemma FirstDynamicStep(data: Bytes, pre: Preamble, n: nat)
    ensures var before := RangeOf(data, pre, FirstWhere(DynamicAt(data, pre), n));
            RangeOf(data, pre, FirstWhere(DynamicAt(data, pre), n + 1)) ==
            if IsDynamic(data, pre, n) && before.None? then RangeOf(data, pre, Some(n)) else before
  {
    var p := DynamicAt(data, pre);
    assert FirstWhere(p, n).Some? ==> p(FirstWhere(p, n).value);
  }

  lemma LastDynstrStep(data: Bytes, pre: Preamble, names: Range, n: nat)
    ensures var p := DynstrAt(data, pre, names);
            RangeOf(data, pre, LastWhere(p, n + 1)) ==
            if IsDynstr(data, pre, names, n) then RangeOf(data, pre, Some(n)) else RangeOf(data, pre, LastWhere(p, n))
  {
  }

  lemma LayoutStep(data: Bytes, pre: Preamble, names: Range, n: nat)
    ensures var r := VisitSection(data, pre, names, n, LayoutOf(data, pre, names, n));
            r.Ok? ==> r == Ok(LayoutOf(data, pre, names, n + 1))
  {
    if VisitSection(data, pre, names, n, LayoutOf(data, pre, names, n)).Ok? {
      VisitMeans(data, pre, names, n, LayoutOf(data, pre, names, n));
      FirstDynamicStep(data, pre, n);
      LastDynstrStep(data, pre, names, n);
    }
  }

  /** The section loop takes the first dynamic section and the last `.dynstr`. */
  lemma {:induction false} LayoutMeans(data: Bytes, pre: Preamble, names: Range, n: nat)
    requires n <= pre.shnum
    ensures var r := ScanSections(data, pre, names, n, LayoutOf(data, pre, names, n));
            r.Ok? ==> r == Ok(LayoutOf(data, pre, names, pre.shnum))
    decreases pre.shnum - n
  {
    if n < pre.shnum {
      LayoutStep(data, pre, names, n);
      LayoutMeans(data, pre, names, n + 1);
    }
  }

  method FindSections(data: Bytes, pre: Preamble, names: Range) returns (r: Result<Layout, ElfError>)
    ensures r == ScanSections(data, pre, names, 0, Layout(None, None))
    ensures r.Ok? ==> r.value == LayoutOf(data, pre, names, pre.shnum)
  {
    var layout := Layout(None, None);
    var index := 0;
    while index < pre.shnum
      invariant index <= pre.shnum
      invariant ScanSections(data, pre, names, 0, Layout(None, None))
             == ScanSections(data, pre, names, index, layout)
    {
      var step := VisitSection(data, pre, names, index, layout);
      if step.Err? {
        return step;
      }
      layout := step.value;
      index := index + 1;
    }
    LayoutMeans(data, pre, names, 0);
    return Ok(layout);
  }

  lemma OntoTake(needed: seq<Bytes>, name: Bytes, rest: Result<seq<Bytes>, ElfError>)
    ensures Onto(needed, Onto([name], rest)) == Onto(needed + [name], rest)
  {
    if rest.Ok? {
      assert needed + ([name] + rest.value) == (needed + [name]) + rest.value;
    }
  }

  lemma OntoEnds(needed: seq<Bytes>, rest: Result<seq<Bytes>, ElfError>)
    ensures Onto([], rest) == rest
    ensures Onto(needed, Ok([])) == Ok(needed)
  {
    assert needed + [] == needed;
    assert rest.Ok? ==> [] + rest.value == rest.value;
  }

  // --------------------------------------------------- the names, by index

  /** Where entry `k` of .dynamic begins. */
  function EntryAt(f: Format, k: nat): nat {
    if f.wide then 16 * k else 8 * k
  }

  /** How many entries there are, the last one perhaps cut short. */
  function EntryCount(f: Format, dynamic: Range): nat {
    if f.wide then (dynamic.size + 15) / 16 else (dynamic.size + 7) / 8
  }

  function EntryRead(data: Bytes, f: Format, dynamic: Range, k: nat): Option<(nat, nat)> {
    ReadEntry(data, f, dynamic.offset + EntryAt(f, k))
  }

  predicate IsNull(data: Bytes, f: Format, dynamic: Range, k: nat) {
    EntryRead(data, f, dynamic, k).Some? && EntryRead(data, f, dynamic, k).value.0 == DT_NULL
  }

  /** The entry names a library: DT_NEEDED, its value within the string table. */
  predicate Contributes(data: Bytes, f: Format, dynamic: Range, dynstr: Range, k: nat) {
    && EntryRead(data, f, dynamic, k).Some?
    && EntryRead(data, f, dynamic, k).value.0 == DT_NEEDED && EntryRead(data, f, dynamic, k).value.1 < dynstr.size
  }

  /** Its name, where it is terminated. */
  function NameRead(data: Bytes, f: Format, dynamic: Range, dynstr: Range, k: nat): Result<Bytes, ElfError> {
    var read := EntryRead(data, f, dynamic, k);
    if read.None? then Err(Truncated)
    else Text(data, dynstr.offset + read.value.1, dynstr.offset + dynstr.size)
  }

  /** The entry raises no error. */
  predicate Readable(data: Bytes, f: Format, dynamic: Range, dynstr: Range, k: nat) {
    && EntryRead(data, f, dynamic, k).Some?
    && (Contributes(data, f, dynamic, dynstr, k) ==> NameRead(data, f, dynamic, dynstr, k).Ok?)
  }

  /** The indices below `n` with a property, in order. */
  function Where(p: nat -> bool, n: nat): (r: seq<nat>)
    ensures forall k: nat :: k in r <==> k < n && p(k)
    ensures forall i, j | 0 <= i < j < |r| :: r[i] < r[j]
  {
    if n == 0 then []
    else
      var last: nat := n - 1;
      var before := Where(p, last);
      assert forall i | 0 <= i < |before| :: before[i] in before;
      if p(last) then before + [last] else before
  }

  function ContributesAt(data: Bytes, f: Format, dynamic: Range, dynstr: Range): nat -> bool {
    (k: nat) => Contributes(data, f, dynamic, dynstr, k)
  }

  function NullAt(data: Bytes, f: Format, dynamic: Range): nat -> bool {
    (k: nat) => IsNull(data, f, dynamic, k)
  }

  /** The index of the first null entry, or the number of entries. */
  function End(data: Bytes, f: Format, dynamic: Range): nat {
    FirstWhere(NullAt(data, f, dynamic), EntryCount(f, dynamic)).GetOr(EntryCount(f, dynamic))
  }

  /** The names at these indices. */
  function NamesAt(data: Bytes, f: Format, dynamic: Range, dynstr: Range, indices: seq<nat>): (r: seq<Bytes>)
    ensures |r| == |indices|
  {
    seq(|indices|, i requires 0 <= i < |indices| =>
      var name := NameRead(data, f, dynamic, dynstr, indices[i]); if name.Ok? then name.value else [])
  }

  /** The names of the first `n` entries. */
  function NamesBelow(data: Bytes, f: Format, dynamic: Range, dynstr: Range, n: nat): seq<Bytes> {
    NamesAt(data, f, dynamic, dynstr, Where(ContributesAt(data, f, dynamic, dynstr), n))
  }

  lemma CountMeans(f: Format, dynamic: Range, k: nat)
    ensures EntryAt(f, k) < dynamic.size <==> k < EntryCount(f, dynamic)
    ensures EntryAt(f, k + 1) == EntryAt(f, k) + EntryBytes(f.wide)
  {
  }

  /** What the loop makes of one entry. */
  lemma VisitByIndex(data: Bytes, f: Format, dynamic: Range, dynstr: Range, k: nat)
    ensures var visit := VisitEntry(data, f, dynamic, dynstr, EntryAt(f, k));
            && (visit.Stop? <==> IsNull(data, f, dynamic, k))
            && (visit.Fail? <==> !Readable(data, f, dynamic, dynstr, k))
            && (visit.Take? <==> Contributes(data, f, dynamic, dynstr, k) && Readable(data, f, dynamic, dynstr, k))
            && (visit.Take? ==> NameRead(data, f, dynamic, dynstr, k) == Ok(visit.name))
  {
  }

  lemma NamesStep(data: Bytes, f: Format, dynamic: Range, dynstr: Range, n: nat)
    requires Readable(data, f, dynamic, dynstr, n)
    ensures NamesBelow(data, f, dynamic, dynstr, n + 1) ==
            NamesBelow(data, f, dynamic, dynstr, n) +
            if Contributes(data, f, dynamic, dynstr, n) then [NameRead(data, f, dynamic, dynstr, n).value] else []
  {
  }

  /** One entry further. */
  lemma NeededStep(data: Bytes, f: Format, dynamic: Range, dynstr: Range, n: nat)
    requires n < EntryCount(f, dynamic) && !IsNull(data, f, dynamic, n)
    ensures var from := NeededFrom(data, f, dynamic, dynstr, EntryAt(f, n));
            if !Readable(data, f, dynamic, dynstr, n) then from.Err?
            else from == Onto(if Contributes(data, f, dynamic, dynstr, n)
                              then [NameRead(data, f, dynamic, dynstr, n).value] else [],
                              NeededFrom(data, f, dynamic, dynstr, EntryAt(f, n + 1)))
  {
    CountMeans(f, dynamic, n);
    VisitByIndex(data, f, dynamic, dynstr, n);
    OntoEnds([], NeededFrom(data, f, dynamic, dynstr, EntryAt(f, n + 1)));
  }

  predicate ReadableBelow(data: Bytes, f: Format, dynamic: Range, dynstr: Range, n: nat) {
    forall k | 0 <= k < n :: Readable(data, f, dynamic, dynstr, k)
  }

  lemma OntoBoth(some: seq<Bytes>, more: seq<Bytes>, rest: Result<seq<Bytes>, ElfError>)
    ensures Onto(some, Onto(more, rest)) == Onto(some + more, rest)
  {
    if rest.Ok? {
      assert some + (more + rest.value) == (some + more) + rest.value;
    }
  }

  lemma BeforeEnd(data: Bytes, f: Format, dynamic: Range, k: nat)
    requires k < End(data, f, dynamic)
    ensures k < EntryCount(f, dynamic) && !IsNull(data, f, dynamic, k)
  {
    var p := NullAt(data, f, dynamic);
    assert !p(k);
  }

  /** The result in terms of the first `n` entries and those after them. */
  predicate SoFar(data: Bytes, f: Format, dynamic: Range, dynstr: Range, n: nat) {
    var all := NeededFrom(data, f, dynamic, dynstr, 0);
    if ReadableBelow(data, f, dynamic, dynstr, n) then
      all == Onto(NamesBelow(data, f, dynamic, dynstr, n), NeededFrom(data, f, dynamic, dynstr, EntryAt(f, n)))
    else all.Err?
  }

  lemma SoFarStep(data: Bytes, f: Format, dynamic: Range, dynstr: Range, n: nat)
    requires SoFar(data, f, dynamic, dynstr, n) && ReadableBelow(data, f, dynamic, dynstr, n)
    requires n < EntryCount(f, dynamic) && !IsNull(data, f, dynamic, n)
    ensures SoFar(data, f, dynamic, dynstr, n + 1)
  {
    NeededStep(data, f, dynamic, dynstr, n);
    if Readable(data, f, dynamic, dynstr, n) {
      NamesStep(data, f, dynamic, dynstr, n);
      OntoNext(data, f, dynamic, dynstr, n);
    } else {
      assert !ReadableBelow(data, f, dynamic, dynstr, n + 1);
    }
  }

  lemma SoFarFailed(data: Bytes, f: Format, dynamic: Range, dynstr: Range, n: nat)
    requires SoFar(data, f, dynamic, dynstr, n) && !ReadableBelow(data, f, dynamic, dynstr, n)
    ensures SoFar(data, f, dynamic, dynstr, n + 1)
  {
    var k :| 0 <= k < n && !Readable(data, f, dynamic, dynstr, k);
    assert 0 <= k < n + 1;
  }

  lemma SoFarAtFirst(data: Bytes, f: Format, dynamic: Range, dynstr: Range)
    ensures SoFar(data, f, dynamic, dynstr, 0)
  {
    assert EntryAt(f, 0) == 0 && NamesBelow(data, f, dynamic, dynstr, 0) == [];
    OntoEnds([], NeededFrom(data, f, dynamic, dynstr, 0));
  }

  lemma SoFarNext(data: Bytes, f: Format, dynamic: Range, dynstr: Range, n: nat)
    requires n < End(data, f, dynamic) && SoFar(data, f, dynamic, dynstr, n)
    ensures SoFar(data, f, dynamic, dynstr, n + 1)
  {
    BeforeEnd(data, f, dynamic, n);
    if ReadableBelow(data, f, dynamic, dynstr, n) {
      SoFarStep(data, f, dynamic, dynstr, n);
    } else {
      SoFarFailed(data, f, dynamic, dynstr, n);
    }
  }

  lemma {:induction false} Climb(p: nat -> bool, n: nat, end: nat)
    requires n <= end && p(n) && forall k: nat | n <= k < end && p(k) :: p(k + 1)
    ensures p(end)
    decreases end - n
  {
    if n < end {
      Climb(p, n + 1, end);
    }
  }

  function SoFarAt(data: Bytes, f: Format, dynamic: Range, dynstr: Range): nat -> bool {
    (n: nat) => SoFar(data, f, dynamic, dynstr, n)
  }

  lemma SoFarNextAt(data: Bytes, f: Format, dynamic: Range, dynstr: Range, n: nat)
    requires n < End(data, f, dynamic) && SoFarAt(data, f, dynamic, dynstr)(n)
    ensures SoFarAt(data, f, dynamic, dynstr)(n + 1)
  {
    SoFarNext(data, f, dynamic, dynstr, n);
  }

  lemma NeededSoFar(data: Bytes, f: Format, dynamic: Range, dynstr: Range)
    requires SoFarAt(data, f, dynamic, dynstr)(0)
    ensures SoFarAt(data, f, dynamic, dynstr)(End(data, f, dynamic))
  {
    var p, end := SoFarAt(data, f, dynamic, dynstr), End(data, f, dynamic);
    forall k: nat | k < end && p(k) ensures p(k + 1) {
      SoFarNextAt(data, f, dynamic, dynstr, k);
    }
    Climb(p, 0, end);
  }

  lemma OntoNext(data: Bytes, f: Format, dynamic: Range, dynstr: Range, n: nat)
    ensures var more := if Contributes(data, f, dynamic, dynstr, n) && NameRead(data, f, dynamic, dynstr, n).Ok?
                        then [NameRead(data, f, dynamic, dynstr, n).value] else [];
            var some, rest := NamesBelow(data, f, dynamic, dynstr, n),
                              NeededFrom(data, f, dynamic, dynstr, EntryAt(f, n + 1));
            Onto(some, Onto(more, rest)) == Onto(some + more, rest)
  {
    var more := if Contributes(data, f, dynamic, dynstr, n) && NameRead(data, f, dynamic, dynstr, n).Ok?
                then [NameRead(data, f, dynamic, dynstr, n).value] else [];
    OntoBoth(NamesBelow(data, f, dynamic, dynstr, n), more, NeededFrom(data, f, dynamic, dynstr, EntryAt(f, n + 1)));
  }

  /** The reader gives, in order, the names of the DT_NEEDED entries before the first
      null one whose value lies within the string table; it raises exactly when an
      entry before that is cut short, or such a name is not terminated. */
  lemma NeededByIndex(data: Bytes, f: Format, dynamic: Range, dynstr: Range)
    ensures var all, end := NeededFrom(data, f, dynamic, dynstr, 0), End(data, f, dynamic);
            && (all.Ok? <==> ReadableBelow(data, f, dynamic, dynstr, end))
            && (all.Ok? ==> all.value == NamesBelow(data, f, dynamic, dynstr, end))
  {
    var end := End(data, f, dynamic);
    SoFarAtFirst(data, f, dynamic, dynstr);
    NeededSoFar(data, f, dynamic, dynstr);
    assert SoFar(data, f, dynamic, dynstr, end);
    CountMeans(f, dynamic, end);
    VisitByIndex(data, f, dynamic, dynstr, end);
    assert NeededFrom(data, f, dynamic, dynstr, EntryAt(f, end)) == Ok([]);
    OntoEnds(NamesBelow(data, f, dynamic, dynstr, end), Ok([]));
  }

  method ReadNeeded(data: Bytes, f: Format, dynamic: Range, dynstr: Range)
    returns (r: Result<seq<Bytes>, ElfError>)
    ensures r == NeededFrom(data, f, dynamic, dynstr, 0)
  {
    var needed: seq<Bytes> := [];
    var entry := 0;
    ghost var rest := NeededFrom(data, f, dynamic, dynstr, 0);
    ghost var all := rest;
    OntoEnds(needed, rest);
    while entry < dynamic.size
      invariant rest == NeededFrom(data, f, dynamic, dynstr, entry)
      invariant all == Onto(needed, rest)
      decreases dynamic.size - entry
    {
      var visit := VisitEntry(data, f, dynamic, dynstr, entry);
      entry := entry + EntryBytes(f.wide);
      match visit {
        case Stop =>
          OntoEnds(needed, rest);
          return Ok(needed);
        case Fail(e) =>
          return Err(e);
        case Skip =>
          rest := NeededFrom(data, f, dynamic, dynstr, entry);
        case Take(_, name) =>
          rest := NeededFrom(data, f, dynamic, dynstr, entry);
          OntoTake(needed, name, rest);
          needed := needed + [name];
      }
    }
    OntoEnds(needed, rest);
    return Ok(needed);
  }

  method ElfDynamicNeeded(data: Bytes) returns (r: Result<seq<Bytes>, ElfError>)
    ensures r == Needed(data)
  {
    var pre := ReadPreamble(data);
    if pre.Err? {
      return Err(pre.error);
    }
    var names := NameTable(data, pre.value);
    if names.Err? {
      return Err(names.error);
    }
    var layout := FindSections(data, pre.value, names.value);
    if layout.Err? {
      return Err(layout.error);
    }
    if layout.value.dynamic.None? || layout.value.dynstr.None? {
      return Err(NoDynamic);
    }
    r := ReadNeeded(data, pre.value.format, layout.value.dynamic.value, layout.value.dynstr.value);
  }
}
