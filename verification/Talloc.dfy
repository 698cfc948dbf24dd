/** The in-place rewrite of `libtalloc.so.2` (scripts/build_proot_android.py), and
    what the ELF reader makes of the rewritten image. */
module TallocPatch {
  import opened Octets
  import opened Sequences
  import opened Wrappers

  /** "libtalloc.so.2" */
  const TALLOC_NEEDED: Bytes := [
    0x6C, 0x69, 0x62, 0x74, 0x61, 0x6C, 0x6C, 0x6F, 0x63, 0x2E, 0x73, 0x6F, 0x2E, 0x32]

  /** "libtalloc.so" and two NULs, the same length. */
  const TALLOC_REPLACEMENT: Bytes := [
    0x6C, 0x69, 0x62, 0x74, 0x61, 0x6C, 0x6C, 0x6F, 0x63, 0x2E, 0x73, 0x6F, 0, 0]

  /** Length of the needle, and of the part of it that stays. */
  const WIDTH := 14
  const KEPT := 12

  function Patch(data: Bytes): Bytes {
    Replace(data, TALLOC_NEEDED, TALLOC_REPLACEMENT)
  }

  predicate Occurs(data: Bytes, p: int) {
    OccursAt(data, TALLOC_NEEDED, p)
  }

  /** Byte `i` is one of the two an occurrence loses. */
  predicate Lost(data: Bytes, i: int) {
    Occurs(data, i - KEPT) || Occurs(data, i - KEPT - 1)
  }

  /** What it takes to know about the bytes of an occurrence. */
  lemma OccurrenceBytes(data: Bytes, p: int)
    requires Occurs(data, p)
    ensures data[p] == 0x6C && data[p + 1] == 0x69 && data[p + KEPT] == 0x2E && data[p + KEPT + 1] == 0x32
    ensures forall i | p <= i < p + WIDTH :: data[i] != 0
    ensures forall i | p < i < p + WIDTH - 1 && data[i] == 0x6C :: data[i + 1] != 0x69
  {
    forall i | p <= i < p + WIDTH
      ensures data[i] == TALLOC_NEEDED[i - p]
    {
      assert data[p..p + WIDTH][i - p] == data[i];
    }
  }

  /** Occurrences cannot overlap. */
  lemma OccurrencesApart(data: Bytes, p: int, q: int)
    requires Occurs(data, p) && Occurs(data, q) && p < q
    ensures p + WIDTH <= q
  {
    OccurrenceBytes(data, p);
    OccurrenceBytes(data, q);
  }

  lemma OccursLater(data: Bytes, n: nat, p: int)
    requires n <= |data| && 0 <= p
    ensures Occurs(data[n..], p) <==> Occurs(data, n + p)
  {
    if n + p + WIDTH <= |data| {
      assert data[n..][p..p + WIDTH] == data[n + p..n + p + WIDTH];
    }
  }

  /** `patched` keeps every offset of `data`, and has zeroes just in the two last
      bytes of each occurrence. */
  predicate Rewrites(data: Bytes, patched: Bytes) {
    && |patched| == |data|
    && forall i | 0 <= i < |data| :: patched[i] == if Lost(data, i) then 0 else data[i]
  }

  /** That is what replacing the leftmost non-overlapping occurrences does. */
  lemma {:induction false} PatchBytes(data: Bytes)
    ensures Rewrites(data, Patch(data))
  {
    if data != [] {
      var n := if Occurs(data, 0) then WIDTH else 1;
      var head := if Occurs(data, 0) then TALLOC_REPLACEMENT else [data[0]];
      PatchStep(data);
      PatchBytes(data[n..]);
      forall i | 0 <= i < |data|
        ensures Patch(data)[i] == if Lost(data, i) then 0 else data[i]
      {
        PatchByte(data, Patch(data), Patch(data[n..]), n, i);
      }
    }
  }

  lemma PatchStep(data: Bytes)
    requires data != []
    ensures Occurs(data, 0) ==> Patch(data) == TALLOC_REPLACEMENT + Patch(data[WIDTH..])
    ensures !Occurs(data, 0) ==> Patch(data) == [data[0]] + Patch(data[1..])
  {
    assert Occurs(data, 0) <==> TALLOC_NEEDED <= data;
  }

  lemma PatchByte(data: Bytes, patched: Bytes, tail: Bytes, n: nat, i: nat)
    requires data != [] && n == (if Occurs(data, 0) then WIDTH else 1) && i < |data|
    requires patched == (if Occurs(data, 0) then TALLOC_REPLACEMENT else [data[0]]) + tail && |tail| == |data| - n
    requires i >= n ==> tail[i - n] == if Lost(data[n..], i - n) then 0 else data[i]
    ensures patched[i] == if Lost(data, i) then 0 else data[i]
  {
    if i < n {
      if Occurs(data, 0) {
        OccurrenceBytes(data, 0);
        HeadByte(data, i);
      }
    } else {
      LostLater(data, n, i);
    }
  }

  lemma HeadByte(data: Bytes, i: nat)
    requires Occurs(data, 0) && i < WIDTH
    ensures TALLOC_REPLACEMENT[i] == if Lost(data, i) then 0 else data[i]
  {
    assert data[0..WIDTH][i] == data[i];
    if Occurs(data, i - KEPT) && i != KEPT {
      OccurrencesApart(data, 0, i - KEPT);
    }
    if Occurs(data, i - KEPT - 1) && i != KEPT + 1 {
      OccurrencesApart(data, 0, i - KEPT - 1);
    }
  }

  lemma LostLater(data: Bytes, n: nat, i: nat)
    requires n == (if Occurs(data, 0) then WIDTH else 1) && n <= i < |data|
    ensures Lost(data, i) <==> Lost(data[n..], i - n)
  {
    forall p | p == i - KEPT || p == i - KEPT - 1
      ensures Occurs(data, p) <==> Occurs(data[n..], p - n)
    {
      if p >= n {
        OccursLater(data, n, p - n);
      } else if Occurs(data, 0) && Occurs(data, p) && p > 0 {
        OccurrencesApart(data, 0, p);
      }
    }
  }

  lemma SurvivorWasThere(data: Bytes, patched: Bytes, p: int)
    requires Rewrites(data, patched) && Occurs(patched, p)
    ensures Occurs(data, p)
  {
    OccurrenceBytes(patched, p);
    assert data[p..p + WIDTH] == patched[p..p + WIDTH];
  }

  lemma NoneSurvives(data: Bytes, patched: Bytes, p: int)
    requires Rewrites(data, patched)
    ensures !Occurs(patched, p)
  {
    if Occurs(patched, p) {
      OccurrenceBytes(patched, p);
      SurvivorWasThere(data, patched, p);
    }
  }

  /** No needle is left, so rewriting again changes nothing; and nothing changes
      in the first place exactly when there is no needle. */
  lemma NoNeedleLeft(data: Bytes, p: int)
    ensures !Occurs(Patch(data), p)
  {
    PatchBytes(data);
    NoneSurvives(data, Patch(data), p);
  }

  lemma {:induction false} PatchUnchanged(data: Bytes)
    ensures Patch(data) == data <==> forall p | 0 <= p <= |data| :: !Occurs(data, p)
    ensures Patch(Patch(data)) == Patch(data)
  {
    PatchBytes(data);
    PatchBytes(Patch(data));
    forall p | Occurs(data, p)
      ensures Patch(data) != data
    {
      OccurrenceBytes(data, p);
      assert Lost(data, p + KEPT);
    }
    forall i | 0 <= i < |data|
      ensures !Lost(Patch(data), i)
    {
      NoNeedleLeft(data, i - KEPT);
      NoNeedleLeft(data, i - KEPT - 1);
    }
    assert Patch(Patch(data)) == Patch(data);
    if forall p | 0 <= p <= |data| :: !Occurs(data, p) {
      assert forall i | 0 <= i < |data| :: !Lost(data, i);
    }
  }
}

module TallocRead {
  import opened Octets
  import opened Sequences
  import opened Wrappers
  import opened Elf
  import opened TallocPatch

  /** No occurrence of the needle overlaps this range. */
  ghost predicate Untouched(data: Bytes, lo: nat, hi: nat) {
    forall p: nat | Occurs(data, p) :: p + WIDTH <= lo || hi <= p
  }

  /** Such a range reads the same after the rewrite. */
  lemma SameRange(data: Bytes, patched: Bytes, lo: nat, hi: nat)
    requires Rewrites(data, patched)
    requires lo <= hi <= |data| && Untouched(data, lo, hi)
    ensures |patched| == |data| && patched[lo..hi] == data[lo..hi]
  {
    forall i | lo <= i < hi
      ensures patched[i] == data[i]
    {
    }
  }

  lemma SameNumber(data: Bytes, patched: Bytes, offset: nat, width: nat, decode: Bytes -> nat, lo: nat, hi: nat)
    requires Rewrites(data, patched)
    requires Untouched(data, lo, hi) && lo <= offset && offset + width <= hi
    ensures Number(patched, offset, width, decode) == Number(data, offset, width, decode)
  {
    if offset + width <= |data| {
      SameRange(data, patched, offset, offset + width);
    }
  }

  /** The file header is untouched. */
  ghost predicate HeaderClear(data: Bytes) {
    Untouched(data, 0, HeaderEnd(|data| > 4 && data[4] == 2))
  }

  lemma SamePreamble(data: Bytes, patched: Bytes)
    requires Rewrites(data, patched)
    requires HeaderClear(data)
    ensures ReadPreamble(patched) == ReadPreamble(data)
  {
    var wide := |data| > 4 && data[4] == 2;
    var end := HeaderEnd(wide);
    SameRange(data, patched, 0, if |data| < end then |data| else end);
    assert |data| >= 4 ==> patched[..4] == data[..4];
    if |data| >= end {
      var decode := if data[5] == 1 then FromLittleEndian else FromBigEndian;
      var at := if wide then 0x3A else 0x2E;
      assert patched[4] == data[4] && patched[5] == data[5];
      SameNumber(data, patched, if wide then 0x28 else 0x20, if wide then 8 else 4, decode, 0, end);
      SameNumber(data, patched, at, 2, decode, 0, end);
      SameNumber(data, patched, at + 2, 2, decode, 0, end);
      SameNumber(data, patched, at + 4, 2, decode, 0, end);
    }
  }

  /** A section header is untouched. */
  ghost predicate SectionClear(data: Bytes, pre: Preamble, index: nat) {
    Untouched(data, SectionAt(pre, index), SectionAt(pre, index) + SectionBytes(pre.format.wide))
  }

  lemma SameSectionAt(data: Bytes, patched: Bytes, f: Format, at: nat)
    requires Rewrites(data, patched)
    requires Untouched(data, at, at + SectionBytes(f.wide))
    ensures ReadSectionAt(patched, f, at) == ReadSectionAt(data, f, at)
  {
    var end := at + SectionBytes(f.wide);
    SameNumber(data, patched, at, 4, f.decode, at, end);
    SameNumber(data, patched, at + 4, 4, f.decode, at, end);
    if f.wide {
      SameNumber(data, patched, at + 0x18, 8, f.decode, at, end);
      SameNumber(data, patched, at + 0x20, 8, f.decode, at, end);
    } else {
      SameNumber(data, patched, at + 0x10, 4, f.decode, at, end);
      SameNumber(data, patched, at + 0x14, 4, f.decode, at, end);
    }
  }

  lemma SameSection(data: Bytes, patched: Bytes, pre: Preamble, index: nat)
    requires Rewrites(data, patched)
    requires SectionClear(data, pre, index)
    ensures ReadSection(patched, pre, index) == ReadSection(data, pre, index)
  {
    SameSectionAt(data, patched, pre.format, SectionAt(pre, index));
  }

  lemma {:induction false} SameTerminator(data: Bytes, patched: Bytes, start: nat, end: nat, lo: nat)
    requires Rewrites(data, patched)
    requires Untouched(data, lo, end) && lo <= start
    ensures Terminator(patched, start, end) == Terminator(data, start, end)
    decreases end - start
  {
    if start < end && start < |data| {
      SameRange(data, patched, start, start + 1);
      assert patched[start..start + 1][0] == data[start..start + 1][0];
      SameTerminator(data, patched, start + 1, end, lo);
    }
  }

  lemma SameText(data: Bytes, patched: Bytes, start: nat, end: nat, lo: nat)
    requires Rewrites(data, patched)
    requires Untouched(data, lo, end) && lo <= start
    ensures Text(patched, start, end) == Text(data, start, end)
  {
    SameTerminator(data, patched, start, end, lo);
    var stop := Terminator(data, start, end);
    if stop.Some? {
      SameRange(data, patched, start, stop.value);
    }
  }

  /** The section headers and the table of their names are untouched. */
  ghost predicate SectionsClear(data: Bytes, pre: Preamble, names: Range) {
    && SectionClear(data, pre, pre.shstrndx)
    && (forall index | 0 <= index < pre.shnum :: SectionClear(data, pre, index))
    && Untouched(data, names.offset, names.offset + names.size)
  }

  predicate NameAlike(a: Bytes, b: Bytes, names: Range, s: Section) {
    Text(a, names.offset + s.name, names.offset + names.size)
      == Text(b, names.offset + s.name, names.offset + names.size)
  }

  /** A turn of the section loop reads the same header and the same name. */
  predicate ReadsAlike(a: Bytes, b: Bytes, pre: Preamble, names: Range, index: nat) {
    var s := ReadSection(a, pre, index);
    ReadSection(b, pre, index) == s && (s.Some? ==> NameAlike(a, b, names, s.value))
  }

  lemma SameNameText(data: Bytes, patched: Bytes, names: Range, s: Section)
    requires Rewrites(data, patched) && Untouched(data, names.offset, names.offset + names.size)
    ensures NameAlike(data, patched, names, s)
  {
    SameText(data, patched, names.offset + s.name, names.offset + names.size, names.offset);
  }

  lemma AlikeOf(a: Bytes, b: Bytes, pre: Preamble, names: Range, index: nat, s: Option<Section>)
    requires ReadSection(a, pre, index) == s == ReadSection(b, pre, index)
    requires s.Some? ==> NameAlike(a, b, names, s.value)
    ensures ReadsAlike(a, b, pre, names, index)
  {
  }

  lemma SameReads(data: Bytes, patched: Bytes, pre: Preamble, names: Range, index: nat)
    requires Rewrites(data, patched)
    requires SectionClear(data, pre, index) && Untouched(data, names.offset, names.offset + names.size)
    ensures ReadsAlike(data, patched, pre, names, index)
  {
    var s := ReadSection(data, pre, index);
    SameSection(data, patched, pre, index);
    if s.Some? {
      SameNameText(data, patched, names, s.value);
    }
    AlikeOf(data, patched, pre, names, index, s);
  }

  /** A turn depends on nothing else. */
  lemma SameVisit(a: Bytes, b: Bytes, pre: Preamble, names: Range, index: nat, layout: Layout)
    requires ReadsAlike(a, b, pre, names, index)
    ensures VisitSection(a, pre, names, index, layout) == VisitSection(b, pre, names, index, layout)
  {
  }

  /** Images that are read alike turn by turn give the same layout. */
  lemma {:induction false} SameTurns(a: Bytes, b: Bytes, pre: Preamble, names: Range, index: nat, layout: Layout)
    requires forall i: nat | i < pre.shnum :: ReadsAlike(a, b, pre, names, i)
    ensures ScanSections(a, pre, names, index, layout) == ScanSections(b, pre, names, index, layout)
    decreases pre.shnum - index
  {
    if index < pre.shnum {
      SameVisit(a, b, pre, names, index, layout);
      var step := VisitSection(a, pre, names, index, layout);
      if step.Ok? {
        SameTurns(a, b, pre, names, index + 1, step.value);
      }
    }
  }

  lemma SameSections(data: Bytes, patched: Bytes, pre: Preamble, names: Range, layout: Layout)
    requires Rewrites(data, patched)
    requires SectionsClear(data, pre, names)
    ensures ScanSections(patched, pre, names, 0, layout) == ScanSections(data, pre, names, 0, layout)
  {
    forall i: nat | i < pre.shnum
      ensures ReadsAlike(data, patched, pre, names, i)
    {
      SameReads(data, patched, pre, names, i);
    }
    SameTurns(data, patched, pre, names, 0, layout);
  }

  lemma SameLayout(data: Bytes, patched: Bytes, pre: Preamble)
    requires Rewrites(data, patched)
    requires NameTable(data, pre).Ok? && SectionsClear(data, pre, NameTable(data, pre).value)
    ensures Locate(patched, pre) == Locate(data, pre)
  {
    SameSection(data, patched, pre, pre.shstrndx);
    SameSections(data, patched, pre, NameTable(data, pre).value, Layout(None, None));
  }

  /** What becomes of a name: cut just after the `libtalloc.so` of its first
      `libtalloc.so.2`, if it contains one. */
  function CutName(name: Bytes): Bytes {
    match Find(name, TALLOC_NEEDED)
    case None => name
    case Some(p) => name[..p + KEPT]
  }

  /** A name does not start inside an occurrence. */
  ghost predicate StartsOutside(data: Bytes, start: nat) {
    forall p: nat | Occurs(data, p) :: start <= p || p + WIDTH <= start
  }

  /** Occurrences near a terminated name lie within it. */
  lemma OccurrenceInName(data: Bytes, start: nat, stop: nat, p: nat)
    requires start <= stop < |data| && data[stop] == 0
    requires StartsOutside(data, start) && Occurs(data, p) && start < p + WIDTH && p < stop
    ensures start <= p && p + WIDTH <= stop
    ensures Occurs(data[start..stop], p - start)
  {
    OccurrenceBytes(data, p);
    SliceOfSlice(data, start, stop, p - start, p - start + WIDTH);
  }

  lemma OccurrenceOfName(data: Bytes, start: nat, stop: nat, p: nat)
    requires start <= stop <= |data| && Occurs(data[start..stop], p)
    ensures Occurs(data, start + p) && start + p + WIDTH <= stop
  {
    SliceOfSlice(data, start, stop, p, p + WIDTH);
  }

  /** A position is the terminator when it is the first zero. */
  lemma {:induction false} TerminatorIs(data: Bytes, start: nat, end: nat, stop: nat)
    requires start <= stop < end && stop < |data| && data[stop] == 0
    requires forall i | start <= i < stop :: data[i] != 0
    ensures Terminator(data, start, end) == Some(stop)
    decreases stop - start
  {
    if start < stop {
      TerminatorIs(data, start + 1, end, stop);
    }
  }

  /** Where the rewritten image ends the name that used to end at `stop`. */
  function CutPoint(data: Bytes, start: nat, stop: nat): nat
    requires start <= stop <= |data|
  {
    match Find(data[start..stop], TALLOC_NEEDED)
    case None => stop
    case Some(p) => start + p + KEPT
  }

  lemma NothingLostBefore(data: Bytes, start: nat, stop: nat, i: nat)
    requires start <= stop < |data| && data[stop] == 0 && StartsOutside(data, start)
    requires start <= i < CutPoint(data, start, stop) && i < stop
    ensures !Lost(data, i)
  {
    forall p: nat | p == i - KEPT || p == i - KEPT - 1
      ensures !Occurs(data, p)
    {
      if Occurs(data, p) {
        OccurrenceInName(data, start, stop, p);
      }
    }
  }

  lemma CutPointWithin(data: Bytes, start: nat, stop: nat)
    requires start <= stop < |data| && data[stop] == 0
    ensures var cut := CutPoint(data, start, stop);
            && start <= cut <= stop && (cut == stop || Lost(data, cut))
            && CutName(data[start..stop]) == data[start..cut]
  {
    var found := Find(data[start..stop], TALLOC_NEEDED);
    if found.Some? {
      OccurrenceOfName(data, start, stop, found.value);
      SliceOfSlice(data, start, stop, 0, found.value + KEPT);
    }
  }

  /** Reading a name of the rewritten image yields the name, cut. */
  lemma NameIsCut(data: Bytes, patched: Bytes, start: nat, end: nat)
    requires Rewrites(data, patched)
    requires StartsOutside(data, start) && Text(data, start, end).Ok?
    ensures Text(patched, start, end) == Ok(CutName(Text(data, start, end).value))
  {
    var stop := Terminator(data, start, end).value;
    var cut := CutPoint(data, start, stop);
    CutPointWithin(data, start, stop);
    forall i | start <= i < cut
      ensures patched[i] == data[i]
    {
      NothingLostBefore(data, start, stop, i);
    }
    TerminatorIs(patched, start, end, cut);
    assert patched[start..cut] == data[start..cut];
  }

  /** The entries of .dynamic that are read, to the end of the last whole one. */
  function EntriesEnd(f: Format, dynamic: Range): nat {
    var step := EntryBytes(f.wide);
    dynamic.offset + (dynamic.size + step - 1) / step * step
  }

  /** No name taken from `entry` on starts inside an occurrence. */
  ghost predicate NamesStartOutside(data: Bytes, f: Format, dynamic: Range, dynstr: Range, entry: nat)
    decreases dynamic.size - entry
  {
    entry < dynamic.size ==>
      match VisitEntry(data, f, dynamic, dynstr, entry)
      case Stop => true
      case Fail(_) => true
      case Skip => NamesStartOutside(data, f, dynamic, dynstr, entry + EntryBytes(f.wide))
      case Take(start, _) =>
        && StartsOutside(data, start)
        && NamesStartOutside(data, f, dynamic, dynstr, entry + EntryBytes(f.wide))
  }

  /** The entry of the rewritten image: the same, with its name cut. */
  function CutVisit(visit: Visit): Visit {
    if visit.Take? then Take(visit.start, CutName(visit.name)) else visit
  }

  lemma SameEntryRead(data: Bytes, patched: Bytes, f: Format, at: nat)
    requires Rewrites(data, patched)
    requires Untouched(data, at, at + EntryBytes(f.wide))
    ensures ReadEntry(patched, f, at) == ReadEntry(data, f, at)
  {
    var half := EntryBytes(f.wide) / 2;
    SameNumber(data, patched, at, half, f.decode, at, at + 2 * half);
    SameNumber(data, patched, at + half, half, f.decode, at, at + 2 * half);
  }

  /** An entry read the same, its name read cut, is visited the same, cut. */
  lemma EntryDepends(a: Bytes, b: Bytes, read: Option<(nat, nat)>, dynstr: Range, visit: Visit)
    requires visit == VisitRead(a, read, dynstr) && !visit.Fail? && NameStands(b, dynstr, CutVisit(visit))
    ensures VisitRead(b, read, dynstr) == CutVisit(visit)
  {
  }

  lemma NameOfText(data: Bytes, patched: Bytes, start: nat, end: nat, name: Bytes)
    requires Rewrites(data, patched) && StartsOutside(data, start) && Text(data, start, end) == Ok(name)
    ensures Text(patched, start, end) == Ok(CutName(name))
  {
    NameIsCut(data, patched, start, end);
  }

  /** The name an entry takes, where it stands. */
  predicate NameStands(data: Bytes, dynstr: Range, visit: Visit) {
    visit.Take? ==> Text(data, visit.start, dynstr.offset + dynstr.size) == Ok(visit.name)
  }

  lemma NameStandsCut(data: Bytes, patched: Bytes, dynstr: Range, visit: Visit)
    requires Rewrites(data, patched) && NameStands(data, dynstr, visit)
    requires visit.Take? ==> StartsOutside(data, visit.start)
    ensures NameStands(patched, dynstr, CutVisit(visit))
  {
    if visit.Take? {
      NameOfText(data, patched, visit.start, dynstr.offset + dynstr.size, visit.name);
    }
  }

  /** Entry by entry, image `b` yields the names of `a`, cut. */
  ghost predicate CutsAlong(a: Bytes, b: Bytes, f: Format, dynamic: Range, dynstr: Range, entry: nat)
    decreases dynamic.size - entry
  {
    entry < dynamic.size ==>
      var visit := VisitEntry(a, f, dynamic, dynstr, entry);
      && VisitEntry(b, f, dynamic, dynstr, entry) == CutVisit(visit)
      && (visit.Skip? || visit.Take? ==> CutsAlong(a, b, f, dynamic, dynstr, entry + EntryBytes(f.wide)))
  }

  function CutNames(names: seq<Bytes>): (r: seq<Bytes>)
    ensures |r| == |names|
  {
    seq(|names|, i requires 0 <= i < |names| => CutName(names[i]))
  }

  lemma {:induction false} NamesAreCut(a: Bytes, b: Bytes, f: Format, dynamic: Range, dynstr: Range, entry: nat)
    requires CutsAlong(a, b, f, dynamic, dynstr, entry)
    requires NeededFrom(a, f, dynamic, dynstr, entry).Ok?
    ensures NeededFrom(b, f, dynamic, dynstr, entry)
         == Ok(CutNames(NeededFrom(a, f, dynamic, dynstr, entry).value))
    decreases dynamic.size - entry
  {
    if entry < dynamic.size {
      var visit, next := VisitEntry(a, f, dynamic, dynstr, entry), entry + EntryBytes(f.wide);
      if visit.Skip? {
        NamesAreCut(a, b, f, dynamic, dynstr, next);
      } else if visit.Take? {
        NamesAreCut(a, b, f, dynamic, dynstr, next);
        CutNamesOnto(visit.name, NeededFrom(a, f, dynamic, dynstr, next).value);
      }
    }
  }

  lemma CutNamesOnto(name: Bytes, rest: seq<Bytes>)
    ensures CutNames([name] + rest) == [CutName(name)] + CutNames(rest)
  {
  }

  /** What holds from an entry on holds from the next one on. */
  lemma NextEntry(data: Bytes, f: Format, dynamic: Range, dynstr: Range, entry: nat, visit: Visit)
    requires entry < dynamic.size && visit == VisitEntry(data, f, dynamic, dynstr, entry)
    requires NamesStartOutside(data, f, dynamic, dynstr, entry)
    requires NeededFrom(data, f, dynamic, dynstr, entry).Ok?
    ensures !visit.Fail? && NameStands(data, dynstr, visit)
    ensures visit.Take? ==> StartsOutside(data, visit.start)
    ensures visit.Skip? || visit.Take? ==>
              var next := entry + EntryBytes(f.wide);
              NamesStartOutside(data, f, dynamic, dynstr, next) && NeededFrom(data, f, dynamic, dynstr, next).Ok?
  {
  }

  predicate Aligned(f: Format, entry: nat) {
    entry % EntryBytes(f.wide) == 0
  }

  lemma EntryUntouched(data: Bytes, f: Format, dynamic: Range, entry: nat)
    requires Aligned(f, entry) && entry < dynamic.size && Untouched(data, dynamic.offset, EntriesEnd(f, dynamic))
    ensures Untouched(data, dynamic.offset + entry, dynamic.offset + entry + EntryBytes(f.wide))
    ensures Aligned(f, entry + EntryBytes(f.wide))
  {
    EntryWithin(f, dynamic, entry);
  }

  /** One entry is visited the same, its name cut. */
  lemma EntryIsCut(data: Bytes, patched: Bytes, f: Format, dynamic: Range, dynstr: Range, entry: nat, visit: Visit)
    requires Rewrites(data, patched) && visit == VisitEntry(data, f, dynamic, dynstr, entry) && !visit.Fail?
    requires Untouched(data, dynamic.offset + entry, dynamic.offset + entry + EntryBytes(f.wide))
    requires NameStands(data, dynstr, visit) && (visit.Take? ==> StartsOutside(data, visit.start))
    ensures VisitEntry(patched, f, dynamic, dynstr, entry) == CutVisit(visit)
  {
    SameEntryRead(data, patched, f, dynamic.offset + entry);
    NameStandsCut(data, patched, dynstr, visit);
    EntryDepends(data, patched, ReadEntry(data, f, dynamic.offset + entry), dynstr, visit);
  }

  lemma CutsOn(a: Bytes, b: Bytes, f: Format, dynamic: Range, dynstr: Range, entry: nat, visit: Visit)
    requires entry < dynamic.size && visit == VisitEntry(a, f, dynamic, dynstr, entry)
    requires VisitEntry(b, f, dynamic, dynstr, entry) == CutVisit(visit)
    requires visit.Skip? || visit.Take? ==> CutsAlong(a, b, f, dynamic, dynstr, entry + EntryBytes(f.wide))
    ensures CutsAlong(a, b, f, dynamic, dynstr, entry)
  {
  }

  lemma {:induction false} EntriesAreCut(data: Bytes, patched: Bytes, f: Format, dynamic: Range, dynstr: Range, entry: nat)
    requires Rewrites(data, patched) && Aligned(f, entry)
    requires Untouched(data, dynamic.offset, EntriesEnd(f, dynamic))
    requires NamesStartOutside(data, f, dynamic, dynstr, entry)
    requires NeededFrom(data, f, dynamic, dynstr, entry).Ok?
    ensures CutsAlong(data, patched, f, dynamic, dynstr, entry)
    decreases dynamic.size - entry
  {
    if entry < dynamic.size {
      var visit := VisitEntry(data, f, dynamic, dynstr, entry);
      NextEntry(data, f, dynamic, dynstr, entry, visit);
      EntryUntouched(data, f, dynamic, entry);
      EntryIsCut(data, patched, f, dynamic, dynstr, entry, visit);
      if visit.Skip? || visit.Take? {
        EntriesAreCut(data, patched, f, dynamic, dynstr, entry + EntryBytes(f.wide));
      }
      CutsOn(data, patched, f, dynamic, dynstr, entry, visit);
    }
  }

  lemma EntryWithin(f: Format, dynamic: Range, entry: nat)
    requires entry % EntryBytes(f.wide) == 0 && entry < dynamic.size
    ensures dynamic.offset + entry + EntryBytes(f.wide) <= EntriesEnd(f, dynamic)
    ensures (entry + EntryBytes(f.wide)) % EntryBytes(f.wide) == 0
  {
  }

  /** What the occurrences must keep clear of for the rewrite to be harmless: the
      file header, the section headers with the table of their names, the dynamic
      entries, and the beginnings of the needed names. */
  ghost predicate Harmless(data: Bytes) {
    && HeaderClear(data)
    && (ReadPreamble(data).Ok? ==>
          var pre := ReadPreamble(data).value;
          NameTable(data, pre).Ok? ==>
            && SectionsClear(data, pre, NameTable(data, pre).value)
            && (Locate(data, pre).Ok? ==>
                  var (dynamic, dynstr) := Locate(data, pre).value;
                  && Untouched(data, dynamic.offset, EntriesEnd(pre.format, dynamic))
                  && NamesStartOutside(data, pre.format, dynamic, dynstr, 0)))
  }

  /** Rewriting commutes with reading: from a readable image the rewritten one
      yields the same names in the same order, each cut just after the
      `libtalloc.so` of its first `libtalloc.so.2`. */
  lemma RewriteCommutesWithReading(data: Bytes)
    ensures Harmless(data) && Needed(data).Ok? ==> Needed(Patch(data)) == Ok(CutNames(Needed(data).value))
    ensures |Patch(data)| == |data|
  {
    PatchBytes(data);
    if Harmless(data) && Needed(data).Ok? {
      var pre := ReadPreamble(data).value;
      var (dynamic, dynstr) := Locate(data, pre).value;
      SamePreamble(data, Patch(data));
      SameLayout(data, Patch(data), pre);
      EntriesAreCut(data, Patch(data), pre.format, dynamic, dynstr, 0);
      NamesAreCut(data, Patch(data), pre.format, dynamic, dynstr, 0);
    }
  }

  /** What cutting does: the versioned name becomes the plain one, a name without
      the needle stays, and no cut name contains the needle. */
  lemma CutNameMeans(name: Bytes, p: nat)
    ensures CutName(TALLOC_NEEDED) == TALLOC_NEEDED[..KEPT]
    ensures CutName(name) <= name
    ensures CutName(name) == name <==> forall q: nat :: !Occurs(name, q)
    ensures !Occurs(CutName(name), p)
  {
    assert TALLOC_NEEDED[0..WIDTH] == TALLOC_NEEDED;
    assert OccursAt(TALLOC_NEEDED, TALLOC_NEEDED, 0);
    var cut := CutName(name);
    if p + WIDTH <= |cut| {
      assert cut[p..p + WIDTH] == name[p..p + WIDTH];
      assert Occurs(cut, p) <==> Occurs(name, p);
    }
    var found := Find(name, TALLOC_NEEDED);
    assert found.Some? ==> |cut| == found.value + KEPT < |name| && Occurs(name, found.value);
  }
}

module TallocBuild {
  import opened Octets
  import opened Wrappers
  import opened TallocPatch

  /** The two shared objects the build packages. */
  datatype Name = LibProot | LibTalloc

  /** The build output directory: the files that exist. */
  class Output {
    var files: map<Name, Bytes>

    constructor (files: map<Name, Bytes>)
      ensures this.files == files
    {
      this.files := files;
    }

    /** Rewrites what exists and contains the needle. False is the build dying on
        a change of size, with the file at hand and those after it unwritten. */
    method PatchTallocNames() returns (ok: bool)
      modifies this
      ensures ok && files.Keys == old(files).Keys
      ensures forall name | name in files :: files[name] == Patch(old(files)[name])
    {
      var names := [LibProot, LibTalloc];
      ok := true;
      var i := 0;
      while i < |names|
        invariant 0 <= i <= |names| && ok && files.Keys == old(files).Keys
        invariant forall name | name in files ::
                    files[name] == if name in names[..i] then Patch(old(files)[name]) else old(files)[name]
      {
        var name := names[i];
        assert names[..i + 1] == names[..i] + [name] && name !in names[..i];
        if name in files {
          var data := files[name];
          PatchUnchanged(data);
          if Patch(data) != data {
            var patched := Patch(data);
            PatchBytes(data);
            if |patched| != |data| {
              return false;
            }
            files := files[name := patched];
          }
        }
        i := i + 1;
      }
      forall name | name in files
        ensures name in names[..i]
      {
        assert name == names[0] || name == names[1];
      }
    }
  }
}
