/** Searching and rewriting sequences: the `find`, `replace` and slicing
    operations of byte strings and text that the modelled components share. */

module Wrappers {
  datatype Option<+T> = None | Some(value: T) {
    function GetOr(other: T): T {
      if Some? then value else other
    }
  }

  datatype Result<+T, +E> = Ok(value: T) | Err(error: E)
}

module Octets {
  type byte = x: int | 0 <= x < 256

  type Bytes = seq<byte>

  /** The `width` low bytes of `n`, most significant first. */
  function BigEndian(n: nat, width: nat): (r: Bytes)
    ensures |r| == width
  {
    if width == 0 then [] else BigEndian(n / 256, width - 1) + [n % 256]
  }

  function FromBigEndian(bytes: Bytes): nat {
    if bytes == [] then 0
    else 256 * FromBigEndian(bytes[..|bytes| - 1]) + bytes[|bytes| - 1]
  }

  function Power256(width: nat): nat {
    if width == 0 then 1 else 256 * Power256(width - 1)
  }

  lemma {:induction false} BigEndianRoundTrip(n: nat, width: nat)
    ensures n < Power256(width) <==> FromBigEndian(BigEndian(n, width)) == n
    ensures FromBigEndian(BigEndian(n, width)) < Power256(width)
  {
    if width > 0 {
      BigEndianRoundTrip(n / 256, width - 1);
      assert BigEndian(n, width)[..width - 1] == BigEndian(n / 256, width - 1);
    }
  }

  lemma {:induction false} FromBigEndianBounded(bytes: Bytes)
    ensures FromBigEndian(bytes) < Power256(|bytes|)
  {
    if bytes != [] {
      FromBigEndianBounded(bytes[..|bytes| - 1]);
    }
  }

  function FromLittleEndian(bytes: Bytes): nat {
    if bytes == [] then 0 else bytes[0] + 256 * FromLittleEndian(bytes[1..])
  }

  /** The `width` low bytes of `n`, least significant first. */
  function LittleEndian(n: nat, width: nat): (r: Bytes)
    ensures |r| == width
  {
    if width == 0 then [] else [n % 256] + LittleEndian(n / 256, width - 1)
  }

  lemma {:induction false} LittleEndianRoundTrip(n: nat, width: nat)
    requires n < Power256(width)
    ensures FromLittleEndian(LittleEndian(n, width)) == n
  {
    if width > 0 {
      LittleEndianRoundTrip(n / 256, width - 1);
      assert LittleEndian(n, width)[1..] == LittleEndian(n / 256, width - 1);
    }
  }

  /** The byte of `n` that counts `256` to the power `k`. */
  function ByteOf(n: nat, k: nat): byte {
    if k == 0 then n % 256 else ByteOf(n / 256, k - 1)
  }

  /** In network order the most significant byte comes first, in the other last. */
  lemma {:induction false} EndiansByIndex(n: nat, width: nat, i: nat)
    requires i < width
    ensures BigEndian(n, width)[i] == ByteOf(n, width - 1 - i)
    ensures LittleEndian(n, width)[i] == ByteOf(n, i)
  {
    if i < width - 1 {
      EndiansByIndex(n / 256, width - 1, i);
    }
    if i > 0 {
      EndiansByIndex(n / 256, width - 1, i - 1);
    }
  }
}

module Sequences {
  import opened Wrappers

  /** The needle stands in `s` at position `p`. */
  predicate OccursAt<T(==)>(s: seq<T>, needle: seq<T>, p: int) {
    0 <= p && p + |needle| <= |s| && s[p..p + |needle|] == needle
  }

  /** Leftmost position at or after `from` where the needle stands. */
  function Find<T(==)>(s: seq<T>, needle: seq<T>, from: nat := 0): (r: Option<nat>)
    ensures r.Some? ==> from <= r.value && OccursAt(s, needle, r.value)
    ensures r.Some? ==> forall q | from <= q < r.value :: !OccursAt(s, needle, q)
    ensures r.None? ==> forall q | from <= q :: !OccursAt(s, needle, q)
    decreases |s| - from
  {
    if from + |needle| > |s| then None
    else if OccursAt(s, needle, from) then Some(from)
    else Find(s, needle, from + 1)
  }

  /** Leftmost non-overlapping occurrences of the needle become `patch`. */
  function Replace<T(==)>(s: seq<T>, needle: seq<T>, patch: seq<T>): seq<T>
    requires needle != []
  {
    if s == [] then []
    else if needle <= s then patch + Replace(s[|needle|..], needle, patch)
    else [s[0]] + Replace(s[1..], needle, patch)
  }

  /** The last `n` elements, or all of them. */
  function Last<T>(s: seq<T>, n: nat): (r: seq<T>)
    ensures |r| == if |s| <= n then |s| else n
  {
    if |s| <= n then s else s[|s| - n..]
  }

  /** Cutting to the last `n` after every append loses nothing against cutting once. */
  lemma LastOfAppend<T>(s: seq<T>, t: seq<T>, n: nat)
    ensures Last(Last(s, n) + t, n) == Last(s + t, n)
  {
  }

  lemma SliceOfSlice<T>(s: seq<T>, lo: nat, hi: nat, from: nat, to: nat)
    requires from <= to <= hi - lo && hi <= |s|
    ensures s[lo..hi][from..to] == s[lo + from..lo + to]
  {
    forall i | 0 <= i < to - from
      ensures s[lo..hi][from..to][i] == s[lo + from..lo + to][i]
    {
      assert s[lo..hi][from + i] == s[lo + (from + i)];
    }
  }

  function Concat<T>(parts: seq<seq<T>>): seq<T> {
    if parts == [] then [] else parts[0] + Concat(parts[1..])
  }

  lemma {:induction false} ConcatAppend<T>(a: seq<seq<T>>, b: seq<seq<T>>)
    ensures Concat(a + b) == Concat(a) + Concat(b)
  {
    if a == [] {
      assert a + b == b;
      assert Concat(a) + Concat(b) == Concat(b);
    } else {
      ConcatAppend(a[1..], b);
      assert (a + b)[0] == a[0] && (a + b)[1..] == a[1..] + b;
      ThreeParts(a[0], Concat(a[1..]), Concat(b));
    }
  }

  lemma ThreeParts<T>(a: seq<T>, b: seq<T>, c: seq<T>)
    ensures a + (b + c) == (a + b) + c
  {
  }
}

/** Text as Python's `str` methods see it. */
module Text {
  /** The characters `str.isspace` accepts. */
  predicate IsSpace(c: char) {
    || '\t' <= c <= '\r' || '\U{1C}' <= c <= ' ' || c == '\U{85}' || c == '\U{A0}' || c == '\U{1680}'
    || '\U{2000}' <= c <= '\U{200A}' || c == '\U{2028}' || c == '\U{2029}' || c == '\U{202F}' || c == '\U{205F}'
    || c == '\U{3000}'
  }

  function StripLeft(s: string): string {
    if s != "" && IsSpace(s[0]) then StripLeft(s[1..]) else s
  }

  function StripRight(s: string): string {
    if s != "" && IsSpace(s[|s| - 1]) then StripRight(s[..|s| - 1]) else s
  }

  function Strip(s: string): string {
    StripRight(StripLeft(s))
  }
}
