/** A small image the rewrite applies to: a 32-bit little-endian file with three
    sections, whose one needed library is `libtalloc.so.2`. */
module TallocImage {
  import opened Octets
  import opened Sequences
  import opened Wrappers
  import opened Elf
  import opened TallocPatch
  import opened TallocRead

  const FORMAT := Format(false, FromLittleEndian)
  const PREAMBLE := Preamble(FORMAT, 52, 24, 3, 0)
  const NAMES := Range(124, 9)
  const DYNAMIC := Range(133, 16)
  const STRINGS := Range(149, 15)

  function Zeros(n: nat): Bytes {
    seq(n, i => 0)
  }

  /** Two little numbers of four bytes. */
  function Pair(a: byte, b: byte): Bytes {
    [a, 0, 0, 0, b, 0, 0, 0]
  }

  const START: Bytes := MAGIC + [1, 1]
  const COUNTS: Bytes := [24, 0, 3, 0, 0, 0]

  function Header(): Bytes {
    START + Zeros(26) + [52, 0, 0, 0] + Zeros(10) + COUNTS
  }

  function SectionHeader(name: byte, kind: byte, offset: byte, size: byte): Bytes {
    Pair(name, kind) + Zeros(8) + Pair(offset, size)
  }

  function Front(): Bytes {
    Header() + SectionHeader(0, 3, 124, 9) + SectionHeader(0, 6, 133, 16) + SectionHeader(1, 3, 149, 15)
    + ([0] + (DYNSTR + [0])) + (Pair(1, 0) + Pair(0, 0))
  }

  function Image(): Bytes {
    Front() + (TALLOC_NEEDED + [0])
  }

  // ----------------------------------------------------------------- layout

  /** A part stands at this offset. */
  predicate Has(image: Bytes, lo: nat, part: Bytes) {
    lo + |part| <= |image| && image[lo..lo + |part|] == part
  }

  lemma HasWithin(image: Bytes, lo: nat, part: Bytes, k: nat, inner: Bytes)
    requires Has(image, lo, part) && Has(part, k, inner)
    ensures Has(image, lo + k, inner)
  {
    SliceOfSlice(image, lo, lo + |part|, k, k + |inner|);
  }

  lemma HasByte(image: Bytes, lo: nat, part: Bytes, k: nat)
    requires Has(image, lo, part) && k < |part|
    ensures image[lo + k] == part[k]
  {
    assert image[lo..lo + |part|][k] == part[k];
  }

  lemma ThreeOf(a: Bytes, b: Bytes, c: Bytes)
    ensures var s := a + b + c; Has(s, 0, a) && Has(s, |a|, b) && Has(s, |a| + |b|, c)
  {
  }

  /** The last of two, and all that the first one has. */
  lemma AfterFront(front: Bytes, part: Bytes, lo: nat, inner: Bytes)
    ensures Has(front + part, |front|, part)
    ensures Has(front, lo, inner) ==> Has(front + part, lo, inner)
  {
    if Has(front, lo, inner) {
      assert (front + part)[lo..lo + |inner|] == front[lo..lo + |inner|];
    }
  }

  lemma HeaderParts()
    ensures var h := Header();
            |h| == 52 && Has(h, 0, START) && Has(h, 32, [52, 0, 0, 0]) && Has(h, 46, COUNTS)
  {
    var a := START + Zeros(26);
    var b := a + [52, 0, 0, 0];
    var c := b + Zeros(10);
    AfterFront(START, Zeros(26), 0, START);
    AfterFront(a, [52, 0, 0, 0], 0, START);
    AfterFront(b, Zeros(10), 0, START);
    AfterFront(b, Zeros(10), 32, [52, 0, 0, 0]);
    AfterFront(c, COUNTS, 0, START);
    AfterFront(c, COUNTS, 32, [52, 0, 0, 0]);
  }

  lemma SectionParts(name: byte, kind: byte, offset: byte, size: byte)
    ensures var h := SectionHeader(name, kind, offset, size);
            |h| == 24 && Has(h, 0, Pair(name, kind)) && Has(h, 16, Pair(offset, size))
  {
    ThreeOf(Pair(name, kind), Zeros(8), Pair(offset, size));
  }

  /** Where everything stands. */
  predicate Laid(image: Bytes) {
    && Has(image, 0, Header())
    && Has(image, 52, SectionHeader(0, 3, 124, 9)) && Has(image, 76, SectionHeader(0, 6, 133, 16))
    && Has(image, 100, SectionHeader(1, 3, 149, 15))
    && Has(image, 124, [0]) && Has(image, 125, DYNSTR + [0])
    && Has(image, 133, Pair(1, 0)) && Has(image, 141, Pair(0, 0))
    && Has(image, 149, TALLOC_NEEDED + [0])
  }

  lemma SixOf(a: Bytes, b: Bytes, c: Bytes, d: Bytes, e: Bytes, f: Bytes)
    requires |a| == 52 && |b| == |c| == |d| == 24 && |e| == 9 && |f| == 16
    ensures var s := a + b + c + d + e + f;
            && |s| == 149 && Has(s, 0, a) && Has(s, 52, b) && Has(s, 76, c) && Has(s, 100, d)
            && Has(s, 124, e) && Has(s, 133, f)
  {
  }

  lemma FrontParts()
    ensures var s := Front();
            && |s| == 149 && Has(s, 0, Header())
            && Has(s, 52, SectionHeader(0, 3, 124, 9)) && Has(s, 76, SectionHeader(0, 6, 133, 16))
            && Has(s, 100, SectionHeader(1, 3, 149, 15))
            && Has(s, 124, [0] + (DYNSTR + [0])) && Has(s, 133, Pair(1, 0) + Pair(0, 0))
  {
    HeaderParts();
    SectionParts(0, 3, 124, 9);
    SectionParts(0, 6, 133, 16);
    SectionParts(1, 3, 149, 15);
    var h, b, c, d := Header(), SectionHeader(0, 3, 124, 9), SectionHeader(0, 6, 133, 16), SectionHeader(1, 3, 149, 15);
    SixOf(h, b, c, d, [0] + (DYNSTR + [0]), Pair(1, 0) + Pair(0, 0));
  }

  lemma NamesParts(image: Bytes)
    requires Has(image, 124, [0] + (DYNSTR + [0])) && Has(image, 133, Pair(1, 0) + Pair(0, 0))
    ensures Has(image, 124, [0]) && Has(image, 125, DYNSTR + [0])
    ensures Has(image, 133, Pair(1, 0)) && Has(image, 141, Pair(0, 0))
  {
    AfterFront([0], DYNSTR + [0], 0, [0]);
    HasWithin(image, 124, [0] + (DYNSTR + [0]), 0, [0]);
    HasWithin(image, 124, [0] + (DYNSTR + [0]), 1, DYNSTR + [0]);
    AfterFront(Pair(1, 0), Pair(0, 0), 0, Pair(1, 0));
    HasWithin(image, 133, Pair(1, 0) + Pair(0, 0), 0, Pair(1, 0));
    HasWithin(image, 133, Pair(1, 0) + Pair(0, 0), 8, Pair(0, 0));
  }

  lemma ImageIsLaid()
    ensures Laid(Image())
  {
    var front, last := Front(), TALLOC_NEEDED + [0];
    FrontParts();
    AfterFront(front, last, 0, Header());
    AfterFront(front, last, 52, SectionHeader(0, 3, 124, 9));
    AfterFront(front, last, 76, SectionHeader(0, 6, 133, 16));
    AfterFront(front, last, 100, SectionHeader(1, 3, 149, 15));
    AfterFront(front, last, 124, [0] + (DYNSTR + [0]));
    AfterFront(front, last, 133, Pair(1, 0) + Pair(0, 0));
    NamesParts(Image());
  }

  // ---------------------------------------------------------------- reading

  lemma Little(a: byte, b: byte)
    ensures FromLittleEndian([a, b]) == a as int + 256 * b as int
    ensures FromLittleEndian([a, 0, 0, 0]) == a as int
  {
    assert [a, b][1..] == [b] && [b][1..] == [];
    assert [a, 0, 0, 0][1..] == [0, 0, 0] && [0, 0, 0][1..] == [0, 0] && [0, 0][1..] == [0] && [0][1..] == [];
  }

  lemma ShortNumber(image: Bytes, at: nat, a: byte)
    requires Has(image, at, [a, 0])
    ensures Number(image, at, 2, FromLittleEndian) == Some(a)
  {
    Little(a, 0);
  }

  lemma PairNumbers(image: Bytes, at: nat, a: byte, b: byte)
    requires Has(image, at, Pair(a, b))
    ensures Number(image, at, 4, FromLittleEndian) == Some(a)
    ensures Number(image, at + 4, 4, FromLittleEndian) == Some(b)
  {
    Little(a, 0);
    Little(b, 0);
    var part := image[at..at + 8];
    assert part == Pair(a, b);
    assert image[at..at + 4] == part[..4] == [a, 0, 0, 0];
    assert image[at + 4..at + 8] == part[4..] == [b, 0, 0, 0];
  }

  lemma ReadsStart(image: Bytes)
    requires Has(image, 0, START)
    ensures |image| >= 6 && image[..4] == MAGIC && image[4] == 1 && image[5] == 1
  {
    assert image[..4] == image[0..0 + 6][..4] && START[..4] == MAGIC;
    HasByte(image, 0, START, 4);
    HasByte(image, 0, START, 5);
  }

  lemma ReadsCounts(image: Bytes)
    requires Has(image, 46, COUNTS)
    ensures Number(image, 46, 2, FromLittleEndian) == Some(24) && Number(image, 48, 2, FromLittleEndian) == Some(3)
    ensures Number(image, 50, 2, FromLittleEndian) == Some(0)
  {
    assert Has(COUNTS, 0, [24, 0]) && Has(COUNTS, 2, [3, 0]) && Has(COUNTS, 4, [0, 0]);
    HasWithin(image, 46, COUNTS, 0, [24, 0]);
    HasWithin(image, 46, COUNTS, 2, [3, 0]);
    HasWithin(image, 46, COUNTS, 4, [0, 0]);
    ShortNumber(image, 46, 24);
    ShortNumber(image, 48, 3);
    ShortNumber(image, 50, 0);
  }

  lemma ReadsPreamble(image: Bytes)
    requires Has(image, 0, Header())
    ensures ReadPreamble(image) == Ok(PREAMBLE) && image[4] == 1
  {
    var h := Header();
    HeaderParts();
    HasWithin(image, 0, h, 0, START);
    HasWithin(image, 0, h, 32, [52, 0, 0, 0]);
    HasWithin(image, 0, h, 46, COUNTS);
    ReadsStart(image);
    Little(52, 0);
    ReadsCounts(image);
    PreambleOf(image);
  }

  lemma PreambleOf(image: Bytes)
    requires |image| >= 52 && image[..4] == MAGIC && image[4] == 1 && image[5] == 1
    requires Number(image, 32, 4, FromLittleEndian) == Some(52)
    requires Number(image, 46, 2, FromLittleEndian) == Some(24) && Number(image, 48, 2, FromLittleEndian) == Some(3)
    requires Number(image, 50, 2, FromLittleEndian) == Some(0)
    ensures ReadPreamble(image) == Ok(PREAMBLE)
  {
  }

  lemma SectionNumbers(image: Bytes, at: nat, name: byte, kind: byte, offset: byte, size: byte)
    requires Has(image, at, SectionHeader(name, kind, offset, size))
    ensures at + 24 <= |image|
    ensures Number(image, at, 4, FromLittleEndian) == Some(name)
    ensures Number(image, at + 4, 4, FromLittleEndian) == Some(kind)
    ensures Number(image, at + 16, 4, FromLittleEndian) == Some(offset)
    ensures Number(image, at + 16 + 4, 4, FromLittleEndian) == Some(size)
  {
    var h := SectionHeader(name, kind, offset, size);
    SectionParts(name, kind, offset, size);
    HasWithin(image, at, h, 0, Pair(name, kind));
    HasWithin(image, at, h, 16, Pair(offset, size));
    PairNumbers(image, at, name, kind);
    PairNumbers(image, at + 16, offset, size);
  }

  lemma SectionsAt()
    ensures SectionAt(PREAMBLE, 0) == 52 && SectionAt(PREAMBLE, 1) == 76 && SectionAt(PREAMBLE, 2) == 100
  {
  }

  lemma ReadsSectionAt(image: Bytes, at: nat, name: byte, kind: byte, offset: byte, size: byte)
    requires Has(image, at, SectionHeader(name, kind, offset, size))
    ensures ReadSectionAt(image, FORMAT, at) == Some(Section(name, kind, offset, size))
  {
    SectionNumbers(image, at, name, kind, offset, size);
    SectionOf(image, at, Section(name, kind, offset, size));
  }

  lemma ReadsSections(image: Bytes)
    requires ReadSectionAt(image, FORMAT, 52) == Some(Section(0, 3, 124, 9))
    requires ReadSectionAt(image, FORMAT, 76) == Some(Section(0, 6, 133, 16))
    requires ReadSectionAt(image, FORMAT, 100) == Some(Section(1, 3, 149, 15))
    ensures ReadSection(image, PREAMBLE, 0) == Some(Section(0, 3, 124, 9))
    ensures ReadSection(image, PREAMBLE, 1) == Some(Section(0, 6, 133, 16))
    ensures ReadSection(image, PREAMBLE, 2) == Some(Section(1, 3, 149, 15))
  {
    SectionsAt();
  }

  lemma SectionOf(image: Bytes, at: nat, s: Section)
    requires at + 24 <= |image|
    requires Number(image, at, 4, FromLittleEndian) == Some(s.name)
    requires Number(image, at + 4, 4, FromLittleEndian) == Some(s.kind)
    requires Number(image, at + 16, 4, FromLittleEndian) == Some(s.offset)
    requires Number(image, at + 16 + 4, 4, FromLittleEndian) == Some(s.size)
    ensures ReadSectionAt(image, FORMAT, at) == Some(s)
  {
  }

  /** A string, its end, and what it reads as. */
  lemma ReadsText(image: Bytes, start: nat, text: Bytes, end: nat)
    requires Has(image, start, text + [0]) && start + |text| < end && forall i | 0 <= i < |text| :: text[i] != 0
    ensures Text(image, start, end) == Ok(text)
  {
    var part, stop := text + [0], start + |text|;
    HasByte(image, start, part, |text|);
    forall i | start <= i < stop ensures image[i] != 0 {
      HasByte(image, start, part, i - start);
    }
    TerminatorIs(image, start, end, stop);
    assert image[start..stop] == image[start..start + |part|][..|text|];
  }

  lemma ReadsNames(image: Bytes)
    requires Has(image, 124, [0]) && Has(image, 125, DYNSTR + [0])
    ensures Text(image, 124, 133) == Ok([]) && Text(image, 125, 133) == Ok(DYNSTR)
  {
    assert [] + [0] == [0];
    ReadsText(image, 124, [], 133);
    ReadsText(image, 125, DYNSTR, 133);
  }

  /** What the section loop reads. */
  predicate Sections(image: Bytes) {
    && ReadSection(image, PREAMBLE, 0) == Some(Section(0, 3, 124, 9))
    && ReadSection(image, PREAMBLE, 1) == Some(Section(0, 6, 133, 16))
    && ReadSection(image, PREAMBLE, 2) == Some(Section(1, 3, 149, 15))
    && Text(image, 124, 133) == Ok([]) && Text(image, 125, 133) == Ok(DYNSTR)
  }

  lemma VisitOf(image: Bytes, index: nat, layout: Layout, s: Section, name: Bytes)
    requires ReadSection(image, PREAMBLE, index) == Some(s) && index != 0
    requires Text(image, 124 + s.name, 133) == Ok(name)
    ensures VisitSection(image, PREAMBLE, NAMES, index, layout) == Ok(TakeSection(layout, s, name))
  {
  }

  lemma Visits(image: Bytes)
    requires Sections(image)
    ensures VisitSection(image, PREAMBLE, NAMES, 0, Layout(None, None)) == Ok(Layout(None, None))
    ensures VisitSection(image, PREAMBLE, NAMES, 1, Layout(None, None)) == Ok(Layout(Some(DYNAMIC), None))
    ensures VisitSection(image, PREAMBLE, NAMES, 2, Layout(Some(DYNAMIC), None))
         == Ok(Layout(Some(DYNAMIC), Some(STRINGS)))
  {
    VisitOf(image, 1, Layout(None, None), Section(0, 6, 133, 16), []);
    VisitOf(image, 2, Layout(Some(DYNAMIC), None), Section(1, 3, 149, 15), DYNSTR);
  }

  lemma Locates(image: Bytes)
    requires Sections(image)
    ensures NameTable(image, PREAMBLE) == Ok(NAMES) && Locate(image, PREAMBLE) == Ok((DYNAMIC, STRINGS))
  {
    Visits(image);
    var none, some, both := Layout(None, None), Layout(Some(DYNAMIC), None), Layout(Some(DYNAMIC), Some(STRINGS));
    assert ScanSections(image, PREAMBLE, NAMES, 3, both) == Ok(both);
    assert ScanSections(image, PREAMBLE, NAMES, 2, some) == Ok(both);
    assert ScanSections(image, PREAMBLE, NAMES, 1, none) == Ok(both);
  }

  lemma EntryOf(image: Bytes, at: nat, tag: nat, value: nat)
    requires at + 8 <= |image|
    requires Number(image, at, 4, FromLittleEndian) == Some(tag)
    requires Number(image, at + 4, 4, FromLittleEndian) == Some(value)
    ensures ReadEntry(image, FORMAT, at) == Some((tag, value))
  {
  }

  lemma ReadsEntries(image: Bytes)
    requires Has(image, 133, Pair(1, 0)) && Has(image, 141, Pair(0, 0))
    ensures ReadEntry(image, FORMAT, 133) == Some((1, 0)) && ReadEntry(image, FORMAT, 141) == Some((0, 0))
  {
    PairNumbers(image, 133, 1, 0);
    PairNumbers(image, 141, 0, 0);
    EntryOf(image, 133, 1, 0);
    EntryOf(image, 141, 0, 0);
  }

  lemma ReadsString(image: Bytes)
    requires Has(image, 149, TALLOC_NEEDED + [0])
    ensures Text(image, 149, 164) == Ok(TALLOC_NEEDED)
  {
    ReadsText(image, 149, TALLOC_NEEDED, 164);
  }

  /** What the entry loop reads: the needle, then the end. */
  predicate Entries(image: Bytes) {
    && VisitEntry(image, FORMAT, DYNAMIC, STRINGS, 0) == Take(149, TALLOC_NEEDED)
    && VisitEntry(image, FORMAT, DYNAMIC, STRINGS, 8) == Stop
  }

  lemma VisitsEntries(image: Bytes)
    requires ReadEntry(image, FORMAT, 133) == Some((1, 0)) && ReadEntry(image, FORMAT, 141) == Some((0, 0))
    requires Text(image, 149, 164) == Ok(TALLOC_NEEDED)
    ensures Entries(image)
  {
  }

  lemma NeededOf(image: Bytes)
    requires Entries(image)
    ensures NeededFrom(image, FORMAT, DYNAMIC, STRINGS, 0) == Ok([TALLOC_NEEDED])
  {
    assert NeededFrom(image, FORMAT, DYNAMIC, STRINGS, 8) == Ok([]);
    assert [TALLOC_NEEDED] + [] == [TALLOC_NEEDED];
  }

  // ------------------------------------------------------------- the needle

  /** The needle's first byte does not stand here. */
  predicate NoL(part: Bytes) {
    forall i | 0 <= i < |part| :: part[i] != 0x6C
  }

  lemma NoLTogether(a: Bytes, b: Bytes)
    requires NoL(a) && NoL(b)
    ensures NoL(a + b)
  {
  }

  lemma SectionHasNoL(name: byte, kind: byte, offset: byte, size: byte)
    requires 0x6C !in {name, kind, offset, size}
    ensures NoL(SectionHeader(name, kind, offset, size))
  {
    NoLTogether(Pair(name, kind), Zeros(8));
    NoLTogether(Pair(name, kind) + Zeros(8), Pair(offset, size));
  }

  lemma HeaderHasNoL()
    ensures NoL(Header())
  {
    NoLTogether(START, Zeros(26));
    NoLTogether(START + Zeros(26), [52, 0, 0, 0]);
    NoLTogether(START + Zeros(26) + [52, 0, 0, 0], Zeros(10));
    NoLTogether(START + Zeros(26) + [52, 0, 0, 0] + Zeros(10), COUNTS);
  }

  lemma SixNoL(a: Bytes, b: Bytes, c: Bytes, d: Bytes, e: Bytes, f: Bytes)
    requires NoL(a) && NoL(b) && NoL(c) && NoL(d) && NoL(e) && NoL(f)
    ensures NoL(a + b + c + d + e + f)
  {
    NoLTogether(a, b);
    NoLTogether(a + b, c);
    NoLTogether(a + b + c, d);
    NoLTogether(a + b + c + d, e);
    NoLTogether(a + b + c + d + e, f);
  }

  lemma FrontHasNoL()
    ensures NoL(Front())
  {
    HeaderHasNoL();
    SectionHasNoL(0, 3, 124, 9);
    SectionHasNoL(0, 6, 133, 16);
    SectionHasNoL(1, 3, 149, 15);
    NoLTogether(DYNSTR, [0]);
    NoLTogether([0], DYNSTR + [0]);
    NoLTogether(Pair(1, 0), Pair(0, 0));
    SixNoL(Header(), SectionHeader(0, 3, 124, 9), SectionHeader(0, 6, 133, 16), SectionHeader(1, 3, 149, 15),
           [0] + (DYNSTR + [0]), Pair(1, 0) + Pair(0, 0));
  }

  /** No occurrence of the needle touches what stands before the strings. */
  ghost predicate InStrings(image: Bytes) {
    forall p: nat | Occurs(image, p) :: p >= 149
  }

  lemma NotInFront(front: Bytes, rest: Bytes, p: nat)
    requires NoL(front) && p < |front|
    ensures !Occurs(front + rest, p)
  {
    assert (front + rest)[p] == front[p] != 0x6C;
    if Occurs(front + rest, p) {
      OccurrenceBytes(front + rest, p);
      assert false;
    }
  }

  lemma NeedleAtTheEnd(front: Bytes, rest: Bytes)
    requires NoL(front) && |front| == 149
    ensures InStrings(front + rest)
  {
    forall p: nat | p < 149 ensures !Occurs(front + rest, p) {
      NotInFront(front, rest, p);
    }
  }

  lemma Clear(image: Bytes, lo: nat, hi: nat)
    requires InStrings(image) && hi <= 149
    ensures Untouched(image, lo, hi)
  {
  }

  lemma SectionsAreClear(image: Bytes)
    requires InStrings(image)
    ensures SectionsClear(image, PREAMBLE, NAMES)
  {
    forall index | 0 <= index < 3 ensures SectionClear(image, PREAMBLE, index) {
      Clear(image, 52 + 24 * index, 52 + 24 * index + 24);
    }
    Clear(image, 124, 133);
  }

  lemma EntriesAreClear(image: Bytes)
    requires InStrings(image) && Entries(image)
    ensures Untouched(image, 133, EntriesEnd(FORMAT, DYNAMIC))
    ensures NamesStartOutside(image, FORMAT, DYNAMIC, STRINGS, 0)
  {
    Clear(image, 133, 149);
    assert StartsOutside(image, 149);
    assert NamesStartOutside(image, FORMAT, DYNAMIC, STRINGS, 8);
  }

  /** The image is readable and meets what the rewrite asks of it ... */
  lemma ImageIsHarmless()
    ensures Harmless(Image()) && Needed(Image()) == Ok([TALLOC_NEEDED])
  {
    var image := Image();
    ImageIsLaid();
    ImageReads(image);
    FrontParts();
    FrontHasNoL();
    NeedleAtTheEnd(Front(), TALLOC_NEEDED + [0]);
    Clear(image, 0, 52);
    SectionsAreClear(image);
    EntriesAreClear(image);
  }

  lemma ImageReads(image: Bytes)
    requires Laid(image)
    ensures ReadPreamble(image) == Ok(PREAMBLE) && image[4] == 1
    ensures NameTable(image, PREAMBLE) == Ok(NAMES) && Locate(image, PREAMBLE) == Ok((DYNAMIC, STRINGS))
    ensures Entries(image) && Needed(image) == Ok([TALLOC_NEEDED])
  {
    ReadsPreamble(image);
    ReadsSectionAt(image, 52, 0, 3, 124, 9);
    ReadsSectionAt(image, 76, 0, 6, 133, 16);
    ReadsSectionAt(image, 100, 1, 3, 149, 15);
    ReadsSections(image);
    ReadsNames(image);
    Locates(image);
    ReadsEntries(image);
    ReadsString(image);
    VisitsEntries(image);
    NeededOf(image);
  }

  lemma NeedleIsCut()
    ensures CutNames([TALLOC_NEEDED]) == [TALLOC_NEEDED[..KEPT]]
  {
    CutNameMeans(TALLOC_NEEDED, 0);
  }

  /** ... so the rewritten one needs plain `libtalloc.so`. */
  lemma ImageIsRewritten()
    ensures Needed(Patch(Image())) == Ok([TALLOC_NEEDED[..KEPT]])
  {
    ImageIsHarmless();
    NeedleIsCut();
    RewriteCommutesWithReading(Image());
  }
}
