/** Headers and dynamic entries as chapters 4 and 5 of the System V gABI lay them out,
    for both classes and both byte orders, and what the reader makes of them. */
module ElfEncoding {
  import opened Octets
  import opened Sequences
  import opened Wrappers
  import opened Elf

  /** A number in a field of this width, in the byte order of the image. */
  function Field(little: bool, n: nat, width: nat): (r: Bytes)
    ensures |r| == width
  {
    if little then LittleEndian(n, width) else BigEndian(n, width)
  }

  function FormatOf(wide: bool, little: bool): Format {
    Format(wide, if little then FromLittleEndian else FromBigEndian)
  }

  /** The width of an address or offset. */
  function Word(wide: bool): nat {
    if wide then 8 else 4
  }

  lemma FieldReads(little: bool, n: nat, width: nat)
    requires n < Power256(width)
    ensures FormatOf(false, little).decode(Field(little, n, width)) == n
  {
    if little {
      LittleEndianRoundTrip(n, width);
    } else {
      BigEndianRoundTrip(n, width);
    }
  }

  /** A field stands between what comes before and after it. */
  lemma FieldStands(before: Bytes, little: bool, n: nat, width: nat, after: Bytes)
    requires n < Power256(width)
    ensures Number(before + Field(little, n, width) + after, |before|, width, FormatOf(false, little).decode) == Some(n)
  {
    var s := before + Field(little, n, width) + after;
    FieldReads(little, n, width);
    assert s[|before|..|before| + width] == Field(little, n, width);
  }

  // ------------------------------------------------------------- file header

  datatype FileHeader = FileHeader(kind: nat, machine: nat, version: nat, entry: nat, phoff: nat, shoff: nat,
                                   flags: nat, ehsize: nat, phentsize: nat, phnum: nat,
                                   shentsize: nat, shnum: nat, shstrndx: nat)

  /** The identification: magic, class, byte order, and ten bytes more. */
  function Identification(wide: bool, little: bool, more: Bytes): Bytes {
    MAGIC + [if wide then 2 else 1] + [if little then 1 else 2] + more
  }

  /** The fields before e_shoff, and those between it and e_shentsize. */
  function BeforeShoff(h: FileHeader, wide: bool, little: bool, more: Bytes): Bytes {
    Identification(wide, little, more) + Field(little, h.kind, 2) + Field(little, h.machine, 2)
    + Field(little, h.version, 4) + Field(little, h.entry, Word(wide)) + Field(little, h.phoff, Word(wide))
  }

  function AfterShoff(h: FileHeader, little: bool): Bytes {
    Field(little, h.flags, 4) + Field(little, h.ehsize, 2) + Field(little, h.phentsize, 2) + Field(little, h.phnum, 2)
  }

  function EncodedHeader(h: FileHeader, wide: bool, little: bool, more: Bytes): Bytes {
    BeforeShoff(h, wide, little, more) + Field(little, h.shoff, Word(wide)) + AfterShoff(h, little)
    + Field(little, h.shentsize, 2) + Field(little, h.shnum, 2) + Field(little, h.shstrndx, 2)
  }

  predicate HeaderFits(h: FileHeader, wide: bool) {
    && h.shoff < Power256(Word(wide)) && h.shentsize < Power256(2) && h.shnum < Power256(2) && h.shstrndx < Power256(2)
  }

  lemma HeaderSizes(h: FileHeader, wide: bool, little: bool, more: Bytes)
    requires |more| == 10
    ensures |BeforeShoff(h, wide, little, more)| == (if wide then 0x28 else 0x20) && |AfterShoff(h, little)| == 10
    ensures |EncodedHeader(h, wide, little, more)| == HeaderEnd(wide)
    ensures var s := BeforeShoff(h, wide, little, more);
            s[..4] == MAGIC && s[4] == (if wide then 2 else 1) && s[5] == if little then 1 else 2
  {
    var i := Identification(wide, little, more);
    assert |i| == 16 && i[..4] == MAGIC && i[4] == (if wide then 2 else 1) && i[5] == if little then 1 else 2;
    var s := BeforeShoff(h, wide, little, more);
    assert s[..16] == i;
    assert s[..4] == s[..16][..4] && s[4] == s[..16][4] && s[5] == s[..16][5];
  }

  /** The four fields that are read, by where they stand. */
  lemma HeaderFields(a: Bytes, shoff: nat, word: nat, b: Bytes, shentsize: nat, shnum: nat, shstrndx: nat, little: bool,
                     rest: Bytes)
    requires shoff < Power256(word) && shentsize < Power256(2) && shnum < Power256(2) && shstrndx < Power256(2)
    ensures var s := a + Field(little, shoff, word) + b + Field(little, shentsize, 2) + Field(little, shnum, 2)
                     + Field(little, shstrndx, 2) + rest;
            var decode, at := FormatOf(false, little).decode, |a| + word + |b|;
            && Number(s, |a|, word, decode) == Some(shoff) && Number(s, at, 2, decode) == Some(shentsize)
            && Number(s, at + 2, 2, decode) == Some(shnum) && Number(s, at + 4, 2, decode) == Some(shstrndx)
  {
    var w, x, y, z := Field(little, shoff, word), Field(little, shentsize, 2), Field(little, shnum, 2),
                      Field(little, shstrndx, 2);
    var s := a + w + b + x + y + z + rest;
    FieldStands(a, little, shoff, word, b + x + y + z + rest);
    FieldStands(a + w + b, little, shentsize, 2, y + z + rest);
    FieldStands(a + w + b + x, little, shnum, 2, z + rest);
    FieldStands(a + w + b + x + y, little, shstrndx, 2, rest);
    Regrouped(a, w, b, x, y, z, rest);
  }

  lemma Regrouped(a: Bytes, w: Bytes, b: Bytes, x: Bytes, y: Bytes, z: Bytes, rest: Bytes)
    ensures var s := a + w + b + x + y + z + rest;
            && a + w + (b + x + y + z + rest) == s && (a + w + b) + x + (y + z + rest) == s
            && (a + w + b + x) + y + (z + rest) == s && (a + w + b + x + y) + z + rest == s
  {
  }

  /** The reader gives back the fields of the file header, whatever stands in the
      others and after it; without a section table it raises. */
  lemma HeaderReadsBack(h: FileHeader, wide: bool, little: bool, more: Bytes, rest: Bytes)
    requires HeaderFits(h, wide) && |more| == 10
    ensures ReadPreamble(EncodedHeader(h, wide, little, more) + rest) ==
            if h.shoff == 0 || h.shnum == 0 || h.shentsize == 0 then Err(NoSectionTable)
            else Ok(Preamble(FormatOf(wide, little), h.shoff, h.shentsize, h.shnum, h.shstrndx))
  {
    var a, b := BeforeShoff(h, wide, little, more), AfterShoff(h, little);
    var s := EncodedHeader(h, wide, little, more) + rest;
    HeaderSizes(h, wide, little, more);
    HeaderFields(a, h.shoff, Word(wide), b, h.shentsize, h.shnum, h.shstrndx, little, rest);
    assert s[..|a|] == a;
    assert s[..4] == s[..|a|][..4] && s[4] == s[..|a|][4] && s[5] == s[..|a|][5];
    PreambleFrom(s, wide, little, h);
  }

  lemma PreambleFrom(s: Bytes, wide: bool, little: bool, h: FileHeader)
    requires |s| >= HeaderEnd(wide) && s[..4] == MAGIC
    requires s[4] == (if wide then 2 else 1) && s[5] == if little then 1 else 2
    requires var decode, at := FormatOf(false, little).decode, if wide then 0x3A else 0x2E;
             && Number(s, if wide then 0x28 else 0x20, Word(wide), decode) == Some(h.shoff)
             && Number(s, at, 2, decode) == Some(h.shentsize) && Number(s, at + 2, 2, decode) == Some(h.shnum)
             && Number(s, at + 4, 2, decode) == Some(h.shstrndx)
    ensures ReadPreamble(s) ==
            if h.shoff == 0 || h.shnum == 0 || h.shentsize == 0 then Err(NoSectionTable)
            else Ok(Preamble(FormatOf(wide, little), h.shoff, h.shentsize, h.shnum, h.shstrndx))
  {
  }

  /** What is no image at all, or of neither class, is refused. */
  lemma OthersAreRefused(data: Bytes)
    ensures |data| < 4 || data[..4] != MAGIC ==> ReadPreamble(data) == Err(NotElf)
    ensures |data| >= 6 && data[..4] == MAGIC && data[4] != 1 && data[4] != 2 ==>
              ReadPreamble(data) == Err(UnsupportedClass)
  {
  }

  // ---------------------------------------------------------- section header

  datatype SectionHeader = SectionHeader(name: nat, kind: nat, flags: nat, addr: nat, offset: nat, size: nat,
                                         link: nat, info: nat, addralign: nat, entsize: nat)

  function EncodedSection(h: SectionHeader, wide: bool, little: bool): Bytes {
    var w := Word(wide);
    Field(little, h.name, 4) + Field(little, h.kind, 4) + (Field(little, h.flags, w) + Field(little, h.addr, w))
    + Field(little, h.offset, w) + Field(little, h.size, w)
    + (Field(little, h.link, 4) + Field(little, h.info, 4) + Field(little, h.addralign, w) + Field(little, h.entsize, w))
  }

  predicate SectionFits(h: SectionHeader, wide: bool) {
    && h.name < Power256(4) && h.kind < Power256(4)
    && h.offset < Power256(Word(wide)) && h.size < Power256(Word(wide))
  }

  lemma SectionFields(front: Bytes, name: nat, kind: nat, b: Bytes, offset: nat, size: nat, word: nat, little: bool,
                      rest: Bytes)
    requires name < Power256(4) && kind < Power256(4) && offset < Power256(word) && size < Power256(word)
    ensures var s := front + Field(little, name, 4) + Field(little, kind, 4) + b + Field(little, offset, word)
                     + Field(little, size, word) + rest;
            var decode, at := FormatOf(false, little).decode, |front| + 8 + |b|;
            && Number(s, |front|, 4, decode) == Some(name) && Number(s, |front| + 4, 4, decode) == Some(kind)
            && Number(s, at, word, decode) == Some(offset) && Number(s, at + word, word, decode) == Some(size)
  {
    var w, x, y, z := Field(little, name, 4), Field(little, kind, 4), Field(little, offset, word),
                      Field(little, size, word);
    FieldStands(front, little, name, 4, x + b + y + z + rest);
    FieldStands(front + w, little, kind, 4, b + y + z + rest);
    FieldStands(front + w + x + b, little, offset, word, z + rest);
    FieldStands(front + w + x + b + y, little, size, word, rest);
    RegroupedSection(front, w, x, b, y, z, rest);
  }

  lemma RegroupedSection(a: Bytes, w: Bytes, x: Bytes, b: Bytes, y: Bytes, z: Bytes, rest: Bytes)
    ensures var s := a + w + x + b + y + z + rest;
            && a + w + (x + b + y + z + rest) == s && (a + w) + x + (b + y + z + rest) == s
            && (a + w + x + b) + y + (z + rest) == s && (a + w + x + b + y) + z + rest == s
  {
  }

  /** The reader gives back name, type, offset and size of a section header, whatever
      stands in the others, before it and after it. */
  lemma SectionReadsBack(front: Bytes, h: SectionHeader, wide: bool, little: bool, rest: Bytes)
    requires SectionFits(h, wide)
    ensures ReadSectionAt(front + EncodedSection(h, wide, little) + rest, FormatOf(wide, little), |front|) ==
            Some(Section(h.name, h.kind, h.offset, h.size))
  {
    var w := Word(wide);
    var b := Field(little, h.flags, w) + Field(little, h.addr, w);
    var tail := Field(little, h.link, 4) + Field(little, h.info, 4) + Field(little, h.addralign, w)
                + Field(little, h.entsize, w);
    var s := front + EncodedSection(h, wide, little) + rest;
    SectionFields(front, h.name, h.kind, b, h.offset, h.size, w, little, tail + rest);
    Flattened(front, Field(little, h.name, 4), Field(little, h.kind, 4), b, Field(little, h.offset, w),
              Field(little, h.size, w), tail, rest);
    SectionFrom(s, |front|, wide, little, h);
  }

  lemma Flattened(a: Bytes, w: Bytes, x: Bytes, b: Bytes, y: Bytes, z: Bytes, tail: Bytes, rest: Bytes)
    ensures a + (w + x + b + y + z + tail) + rest == a + w + x + b + y + z + (tail + rest)
  {
  }

  lemma SectionFrom(s: Bytes, at: nat, wide: bool, little: bool, h: SectionHeader)
    requires at + SectionBytes(wide) <= |s|
    requires var decode, w := FormatOf(false, little).decode, Word(wide);
             && Number(s, at, 4, decode) == Some(h.name) && Number(s, at + 4, 4, decode) == Some(h.kind)
             && Number(s, at + 8 + 2 * w, w, decode) == Some(h.offset)
             && Number(s, at + 8 + 2 * w + w, w, decode) == Some(h.size)
    ensures ReadSectionAt(s, FormatOf(wide, little), at) == Some(Section(h.name, h.kind, h.offset, h.size))
  {
  }

  // ------------------------------------------------------------ dynamic entry

  function EncodedEntry(tag: nat, value: nat, wide: bool, little: bool): Bytes {
    Field(little, tag, Word(wide)) + Field(little, value, Word(wide))
  }

  /** The reader gives back tag and value of a dynamic entry. */
  lemma EntryReadsBack(front: Bytes, tag: nat, value: nat, wide: bool, little: bool, rest: Bytes)
    requires tag < Power256(Word(wide)) && value < Power256(Word(wide))
    ensures ReadEntry(front + EncodedEntry(tag, value, wide, little) + rest, FormatOf(wide, little), |front|) ==
            Some((tag, value))
  {
    var w := Word(wide);
    var x, y := Field(little, tag, w), Field(little, value, w);
    FieldStands(front, little, tag, w, y + rest);
    FieldStands(front + x, little, value, w, rest);
    InTwoParts(front, x, y, rest);
    EntryFrom(front + (x + y) + rest, |front|, tag, value, wide, little);
  }

  lemma InTwoParts(a: Bytes, x: Bytes, y: Bytes, rest: Bytes)
    ensures a + (x + y) + rest == a + x + (y + rest) == (a + x) + y + rest
  {
  }

  lemma EntryFrom(s: Bytes, at: nat, tag: nat, value: nat, wide: bool, little: bool)
    requires at + EntryBytes(wide) <= |s|
    requires var decode, w := FormatOf(false, little).decode, Word(wide);
             Number(s, at, w, decode) == Some(tag) && Number(s, at + w, w, decode) == Some(value)
    ensures ReadEntry(s, FormatOf(wide, little), at) == Some((tag, value))
  {
    assert EntryBytes(wide) / 2 == Word(wide) && FormatOf(wide, little).decode == FormatOf(false, little).decode;
  }

  // ------------------------------------------------------------------ tables

  lemma {:induction false} TableSize(parts: seq<Bytes>, size: nat)
    requires forall i | 0 <= i < |parts| :: |parts[i]| == size
    ensures |Concat(parts)| == |parts| * size
  {
    if parts != [] {
      TableSize(parts[1..], size);
      assert (|parts| - 1) * size + size == |parts| * size;
    }
  }

  /** Where row `k` of a table stands whose rows are of one size. */
  lemma TableRow(front: Bytes, parts: seq<Bytes>, size: nat, rest: Bytes, k: nat) returns (before: Bytes, after: Bytes)
    requires k < |parts| && forall i | 0 <= i < |parts| :: |parts[i]| == size
    ensures front + Concat(parts) + rest == before + parts[k] + after && |before| == |front| + k * size
  {
    var first, later := parts[..k], parts[k + 1..];
    TableSize(first, size);
    ConcatAppend(first, [parts[k]] + later);
    assert first + ([parts[k]] + later) == parts;
    assert ([parts[k]] + later)[1..] == later;
    before, after := front + Concat(first), Concat(later) + rest;
    Regroup(front, Concat(first), parts[k], Concat(later), rest);
  }

  lemma Regroup(a: Bytes, b: Bytes, c: Bytes, d: Bytes, e: Bytes)
    ensures a + (b + (c + d)) + e == (a + b) + c + (d + e)
  {
  }

  /** Dynamic entries one after the other. */
  function EncodedEntries(entries: seq<(nat, nat)>, wide: bool, little: bool): (r: seq<Bytes>)
    ensures |r| == |entries| && forall i | 0 <= i < |r| :: |r[i]| == if wide then 16 else 8
  {
    seq(|entries|, i requires 0 <= i < |entries| => EncodedEntry(entries[i].0, entries[i].1, wide, little))
  }

  lemma EntryRow(data: Bytes, before: Bytes, e: (nat, nat), wide: bool, little: bool, after: Bytes, dynamic: Range,
                 k: nat)
    requires e.0 < Power256(Word(wide)) && e.1 < Power256(Word(wide))
    requires data == before + EncodedEntry(e.0, e.1, wide, little) + after
    requires |before| == dynamic.offset + k * EntryBytes(wide)
    ensures EntryRead(data, FormatOf(wide, little), dynamic, k) == Some(e)
  {
    assert k * EntryBytes(wide) == EntryAt(FormatOf(wide, little), k);
    EntryReadsBack(before, e.0, e.1, wide, little, after);
  }

  lemma EntriesCounted(entries: seq<(nat, nat)>, wide: bool, little: bool, offset: nat)
    ensures var size := |Concat(EncodedEntries(entries, wide, little))|;
            size == |entries| * EntryBytes(wide) && EntryCount(FormatOf(wide, little), Range(offset, size)) == |entries|
  {
    TableSize(EncodedEntries(entries, wide, little), EntryBytes(wide));
  }

  /** A dynamic section that holds encoded entries is read entry by entry. */
  lemma EntriesReadBack(data: Bytes, front: Bytes, entries: seq<(nat, nat)>, wide: bool, little: bool, rest: Bytes,
                        size: nat, k: nat)
    requires k < |entries| && entries[k].0 < Power256(Word(wide)) && entries[k].1 < Power256(Word(wide))
    requires data == front + Concat(EncodedEntries(entries, wide, little)) + rest
    requires size == |Concat(EncodedEntries(entries, wide, little))|
    ensures EntryCount(FormatOf(wide, little), Range(|front|, size)) == |entries|
    ensures EntryRead(data, FormatOf(wide, little), Range(|front|, size), k) == Some(entries[k])
  {
    EntriesCounted(entries, wide, little, |front|);
    var before, after := TableRow(front, EncodedEntries(entries, wide, little), EntryBytes(wide), rest, k);
    EntryRow(data, before, entries[k], wide, little, after, Range(|front|, size), k);
  }

  /** The size of a section header. */
  function SectionSize(wide: bool): nat {
    if wide then 0x40 else 0x28
  }

  lemma SectionWidth(h: SectionHeader, wide: bool, little: bool)
    ensures |EncodedSection(h, wide, little)| == SectionSize(wide)
  {
  }

  function EncodedSections(hs: seq<SectionHeader>, wide: bool, little: bool): (r: seq<Bytes>)
    ensures |r| == |hs|
  {
    seq(|hs|, i requires 0 <= i < |hs| => EncodedSection(hs[i], wide, little))
  }

  lemma SectionRow(data: Bytes, before: Bytes, h: SectionHeader, wide: bool, little: bool, after: Bytes, pre: Preamble,
                   k: nat)
    requires SectionFits(h, wide) && pre.format == FormatOf(wide, little)
    requires data == before + EncodedSection(h, wide, little) + after && SectionAt(pre, k) == |before|
    ensures ReadSection(data, pre, k) == Some(Section(h.name, h.kind, h.offset, h.size))
  {
    SectionReadsBack(before, h, wide, little, after);
  }

  /** Section headers one after the other are read one by one. */
  lemma SectionsReadBack(data: Bytes, front: Bytes, hs: seq<SectionHeader>, wide: bool, little: bool, rest: Bytes,
                         pre: Preamble, k: nat)
    requires k < |hs| && SectionFits(hs[k], wide)
    requires data == front + Concat(EncodedSections(hs, wide, little)) + rest
    requires pre.format == FormatOf(wide, little) && pre.shoff == |front| && pre.shentsize == SectionSize(wide)
    ensures ReadSection(data, pre, k) == Some(Section(hs[k].name, hs[k].kind, hs[k].offset, hs[k].size))
  {
    var parts := EncodedSections(hs, wide, little);
    forall i | 0 <= i < |parts| ensures |parts[i]| == SectionSize(wide) {
      SectionWidth(hs[i], wide, little);
    }
    var before, after := TableRow(front, parts, SectionSize(wide), rest, k);
    SectionRow(data, before, hs[k], wide, little, after, pre, k);
  }

  /** Of a file with its header and, where that says, its section headers, each of
      these is read by its index. */
  lemma FileReadsBack(h: FileHeader, wide: bool, little: bool, more: Bytes, middle: Bytes, hs: seq<SectionHeader>,
                      rest: Bytes, data: Bytes, k: nat)
    requires HeaderFits(h, wide) && |more| == 10 && k < |hs| == h.shnum && h.shentsize == SectionSize(wide)
    requires h.shoff == HeaderEnd(wide) + |middle| && SectionFits(hs[k], wide)
    requires data == EncodedHeader(h, wide, little, more) + middle + Concat(EncodedSections(hs, wide, little)) + rest
    ensures ReadPreamble(data).Ok?
    ensures ReadSection(data, ReadPreamble(data).value, k) ==
            Some(Section(hs[k].name, hs[k].kind, hs[k].offset, hs[k].size))
  {
    var header, table := EncodedHeader(h, wide, little, more), Concat(EncodedSections(hs, wide, little));
    var pre := Preamble(FormatOf(wide, little), h.shoff, h.shentsize, h.shnum, h.shstrndx);
    InFourParts(header, middle, table, rest);
    HeaderInFile(h, wide, little, more, middle + table + rest, data);
    assert |header + middle| == h.shoff by {
      HeaderSizes(h, wide, little, more);
    }
    SectionsReadBack(data, header + middle, hs, wide, little, rest, pre, k);
  }

  lemma HeaderInFile(h: FileHeader, wide: bool, little: bool, more: Bytes, rest: Bytes, data: Bytes)
    requires HeaderFits(h, wide) && |more| == 10 && h.shoff > 0 && h.shnum > 0 && h.shentsize > 0
    requires data == EncodedHeader(h, wide, little, more) + rest
    ensures ReadPreamble(data) == Ok(Preamble(FormatOf(wide, little), h.shoff, h.shentsize, h.shnum, h.shstrndx))
  {
    HeaderReadsBack(h, wide, little, more, rest);
  }

  lemma InFourParts(a: Bytes, b: Bytes, c: Bytes, d: Bytes)
    ensures a + (b + c + d) == a + b + c + d
  {
  }
}
