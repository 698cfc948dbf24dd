/** The streaming filter that takes the private storage-setup control out of a
    terminal's output (app/zmux/pty_session.py), whose state survives from one
    read of the PTY to the next. */
module ControlFilter {
  import opened Octets
  import opened Sequences

  /** ESC ] 777;zmux-setup-storage BEL */
  const STORAGE_SETUP_OSC: Bytes := [
    0x1B, 0x5D, 0x37, 0x37, 0x37, 0x3B,
    0x7A, 0x6D, 0x75, 0x78, 0x2D, 0x73, 0x65, 0x74, 0x75, 0x70, 0x2D,
    0x73, 0x74, 0x6F, 0x72, 0x61, 0x67, 0x65, 0x07
  ]

  /** What one pass over some bytes yields: the bytes let through, the bytes
      held back for the next pass, and how many controls were taken out. */
  datatype Filtered = Filtered(out: Bytes, tail: Bytes, controls: nat)

  /** The reference: read one byte at a time, and hold the rest back once all of
      it could be the beginning of a control. */
  function Scan(s: Bytes, control: Bytes): Filtered
    requires control != []
  {
    if control <= s then
      var rest := Scan(s[|control|..], control);
      rest.(controls := rest.controls + 1)
    else if s <= control then Filtered([], s, 0)
    else
      var rest := Scan(s[1..], control);
      rest.(out := [s[0]] + rest.out)
  }

  /** A control stands, or may yet come to stand, at position `p`. */
  predicate MayStart(s: Bytes, control: Bytes, p: nat)
    requires p <= |s|
  {
    control <= s[p..] || s[p..] <= control
  }

  /** A byte where no control may start is let through. */
  lemma ScanOne(s: Bytes, control: Bytes)
    requires control != [] && s != [] && !MayStart(s, control, 0)
    ensures Scan(s, control) == Scan(s[1..], control).(out := [s[0]] + Scan(s[1..], control).out)
  {
    assert s[0..] == s;
  }

  lemma OneThenMore(s: Bytes, p: nat, end: Bytes)
    requires 0 < p <= |s|
    ensures [s[0]] + (s[1..][..p - 1] + end) == s[..p] + end
    ensures s[1..][p - 1..] == s[p..]
  {
  }

  /** Bytes before the first place a control may start are let through at once. */
  lemma {:induction false} ScanSkips(s: Bytes, control: Bytes, p: nat)
    requires control != [] && p <= |s|
    requires forall q | 0 <= q < p :: !MayStart(s, control, q)
    ensures Scan(s, control) == Scan(s[p..], control).(out := s[..p] + Scan(s[p..], control).out)
  {
    if p == 0 {
      assert s[0..] == s && s[..0] + Scan(s, control).out == Scan(s, control).out;
    } else {
      ScanOne(s, control);
      MayStartLater(s, control, p);
      ScanSkips(s[1..], control, p - 1);
      OneThenMore(s, p, Scan(s[p..], control).out);
    }
  }

  lemma MayStartLater(s: Bytes, control: Bytes, p: nat)
    requires control != [] && 0 < p <= |s|
    requires forall q | 0 <= q < p :: !MayStart(s, control, q)
    ensures forall q | 0 <= q < p - 1 :: !MayStart(s[1..], control, q)
  {
    forall q | 0 <= q < p - 1
      ensures !MayStart(s[1..], control, q)
    {
      assert !MayStart(s, control, q + 1) && s[1..][q..] == s[q + 1..];
    }
  }

  /** Chunk by chunk is all at once: what one pass held back is looked at again
      in front of the next chunk, and nothing else is. */
  lemma {:induction false} ScanAppend(a: Bytes, b: Bytes, control: Bytes)
    requires control != []
    ensures var first := Scan(a, control);
            var second := Scan(first.tail + b, control);
            Scan(a + b, control)
              == Filtered(first.out + second.out, second.tail, first.controls + second.controls)
  {
    if control <= a {
      assert (a + b)[|control|..] == a[|control|..] + b;
      assert control <= a + b;
      ScanAppend(a[|control|..], b, control);
    } else if a <= control {
      assert Scan(a, control) == Filtered([], a, 0);
      assert [] + Scan(a + b, control).out == Scan(a + b, control).out;
    } else {
      NeitherPrefix(a, b, control);
      assert (a + b)[1..] == a[1..] + b && (a + b)[0] == a[0];
      ScanAppend(a[1..], b, control);
      var rest := Scan(a[1..], control);
      var second := Scan(rest.tail + b, control);
      OutAppend(a[0], rest.out, second.out);
    }
  }

  lemma OutAppend(first: byte, some: Bytes, more: Bytes)
    ensures [first] + (some + more) == ([first] + some) + more
  {
  }

  lemma NeitherPrefix(a: Bytes, b: Bytes, control: Bytes)
    requires !(control <= a) && !(a <= control)
    ensures !(control <= a + b) && !(a + b <= control)
  {
    var n := if |a| < |control| then |a| else |control|;
    var i :| 0 <= i < n && a[i] != control[i];
    assert (a + b)[i] != control[i];
  }

  /** A proper beginning of a control, standing at the end of the input. */
  predicate BeginsAtEnd(s: Bytes, control: Bytes, tail: Bytes) {
    |tail| < |control| && tail <= control && |tail| <= |s| && s[|s| - |tail|..] == tail
  }

  lemma EndOfSuffix(s: Bytes, control: Bytes, n: nat, tail: Bytes)
    requires n <= |s| && BeginsAtEnd(s[n..], control, tail)
    ensures BeginsAtEnd(s, control, tail)
  {
    assert s[n..][|s| - n - |tail|..] == s[|s| - |tail|..];
  }

  /** What is held back is such a beginning. */
  lemma {:induction false} ScanHoldsBack(s: Bytes, control: Bytes)
    requires control != []
    ensures BeginsAtEnd(s, control, Scan(s, control).tail)
  {
    if control <= s {
      ScanHoldsBack(s[|control|..], control);
      EndOfSuffix(s, control, |control|, Scan(s, control).tail);
    } else if !(s <= control) {
      ScanHoldsBack(s[1..], control);
      EndOfSuffix(s, control, 1, Scan(s, control).tail);
    }
  }

  /** Every byte is let through, held back or part of a control taken out. */
  lemma {:induction false} ScanConserves(s: Bytes, control: Bytes)
    requires control != []
    ensures var r := Scan(s, control); |s| == |r.out| + |r.tail| + r.controls * |control|
  {
    if control <= s {
      var rest := Scan(s[|control|..], control);
      ScanConserves(s[|control|..], control);
      OneMore(rest.controls, |control|);
      assert Scan(s, control) == rest.(controls := rest.controls + 1);
    } else if !(s <= control) {
      var rest := Scan(s[1..], control);
      ScanConserves(s[1..], control);
      assert Scan(s, control) == rest.(out := [s[0]] + rest.out);
    }
  }

  lemma OneMore(k: nat, n: nat)
    ensures (k + 1) * n == k * n + n
  {
  }

  /** Up to the held-back tail, the output is the input with its leftmost
      non-overlapping controls deleted. */
  lemma {:induction false} ScanDeletes(s: Bytes, control: Bytes)
    requires control != []
    ensures Scan(s, control).out + Scan(s, control).tail == Replace(s, control, [])
  {
    if control <= s {
      ScanDeletes(s[|control|..], control);
    } else if s <= control {
      ShortHasNone(s, control);
    } else {
      ScanDeletes(s[1..], control);
      var r := Scan(s[1..], control);
      assert [s[0]] + r.out + r.tail == [s[0]] + (r.out + r.tail);
    }
  }

  lemma {:induction false} ShortHasNone(s: Bytes, control: Bytes)
    requires |s| < |control|
    ensures Replace(s, control, []) == s
  {
    if s != [] {
      ShortHasNone(s[1..], control);
    }
  }

  lemma OccursIsPrefix(s: Bytes, control: Bytes, q: nat)
    requires q <= |s|
    ensures OccursAt(s, control, q) <==> control <= s[q..]
  {
    if q + |control| <= |s| {
      assert s[q..q + |control|] == s[q..][..|control|];
    }
  }

  /** Looking for the next whole control first is the same scan ... */
  lemma ScanFinds(s: Bytes, control: Bytes, at: nat)
    requires control != [] && OccursAt(s, control, at)
    requires forall q | 0 <= q < at :: !OccursAt(s, control, q)
    ensures var rest := Scan(s[at + |control|..], control);
            Scan(s, control) == Filtered(s[..at] + rest.out, rest.tail, rest.controls + 1)
  {
    forall q | 0 <= q < at
      ensures !MayStart(s, control, q)
    {
      OccursIsPrefix(s, control, q);
    }
    OccursIsPrefix(s, control, at);
    ScanSkips(s, control, at);
    assert s[at..][|control|..] == s[at + |control|..];
  }

  /** `size` is the length of the longest end of `s` that properly begins a control. */
  predicate LongestBeginning(s: Bytes, control: Bytes, size: nat) {
    && size < |control| && size <= |s|
    && s[|s| - size..] == control[..size]
    && forall k | size < k < |control| && k <= |s| :: s[|s| - k..] != control[..k]
  }

  /** ... and when there is none, the longest possible beginning is held back. */
  lemma ScanKeeps(s: Bytes, control: Bytes, keep: nat)
    requires control != [] && LongestBeginning(s, control, keep)
    requires forall q: nat :: !OccursAt(s, control, q)
    ensures Scan(s, control) == Filtered(s[..|s| - keep], s[|s| - keep..], 0)
  {
    forall q | 0 <= q < |s| - keep
      ensures !MayStart(s, control, q)
    {
      OccursIsPrefix(s, control, q);
      var k := |s| - q;
      assert k < |control| ==> s[|s| - k..] != control[..k];
    }
    ScanSkips(s, control, |s| - keep);
    AllHeldBack(s[|s| - keep..], control);
    assert s[..|s| - keep] + [] == s[..|s| - keep];
  }

  lemma AllHeldBack(tail: Bytes, control: Bytes)
    requires tail <= control && |tail| < |control|
    ensures Scan(tail, control) == Filtered([], tail, 0)
  {
  }

  /** The first byte of the control stands nowhere else in it. */
  predicate StartsOnce(control: Bytes) {
    control != [] && forall i | 0 < i < |control| :: control[i] != control[0]
  }

  lemma OthersCannotStart(s: Bytes, control: Bytes, q: nat)
    requires control != [] && q < |s| && s[q] != control[0]
    ensures !MayStart(s, control, q)
  {
    assert s[q..][0] == s[q];
  }

  lemma RestIsLetThrough(rest: Bytes, control: Bytes)
    requires control != [] && forall i | 0 <= i < |rest| :: rest[i] != control[0]
    ensures Scan(rest, control) == Filtered(rest, [], 0)
  {
    forall q | 0 <= q < |rest| ensures !MayStart(rest, control, q) {
      OthersCannotStart(rest, control, q);
    }
    ScanSkips(rest, control, |rest|);
    assert rest[|rest|..] == [] && rest[..|rest|] + [] == rest;
  }

  lemma NoneBeforeTheInner(control: Bytes, k: nat, q: nat)
    requires StartsOnce(control) && q < k < |control|
    ensures !OccursAt(control[..k] + control + control[k..], control, q)
  {
    var s := control[..k] + control + control[k..];
    if q == 0 {
      assert s[0..|control|][k] == control[0];
    } else {
      assert s[q..q + |control|][0] == control[q];
    }
  }

  /** Deletion is not repeated: a control split around another control comes out
      whole, wherever it is split. */
  lemma NestedControlSurvives(control: Bytes, k: nat)
    requires StartsOnce(control) && 0 < k < |control|
    ensures Scan(control[..k] + control + control[k..], control) == Filtered(control, [], 1)
  {
    var s := control[..k] + control + control[k..];
    forall q | 0 <= q < k ensures !OccursAt(s, control, q) {
      NoneBeforeTheInner(control, k, q);
    }
    Nested(control, k);
    ScanFinds(s, control, k);
    RestIsLetThrough(control[k..], control);
  }

  lemma Nested(control: Bytes, k: nat)
    requires k <= |control|
    ensures var s := control[..k] + control + control[k..];
            && OccursAt(s, control, k) && s[k + |control|..] == control[k..] && s[..k] == control[..k]
            && s[..k] + control[k..] == control
  {
  }

  lemma StorageSetupStartsOnce()
    ensures StartsOnce(STORAGE_SETUP_OSC) && |STORAGE_SETUP_OSC| == 25
  {
  }

  // ------------------------------------------------- when a control survives

  /** Control bytes from `j` on follow at the front of `t`, with any number of whole
      controls in between; none may stand where the first byte is to. */
  predicate Interrupted(t: Bytes, control: Bytes, j: nat)
    requires control != [] && j <= |control|
    decreases |t|
  {
    if j == |control| then true
    else if control <= t then j > 0 && Interrupted(t[|control|..], control, j)
    else t != [] && t[0] == control[j] && Interrupted(t[1..], control, j + 1)
  }

  lemma {:induction false} TooShort(t: Bytes, control: Bytes, j: nat)
    requires control != [] && j < |control| && |t| < |control| - j
    ensures !Interrupted(t, control, j)
    decreases |t|
  {
    if t != [] && t[0] == control[j] {
      TooShort(t[1..], control, j + 1);
    }
  }

  /** Between controls, exactly such a front comes out as the rest of a control. */
  lemma {:induction false} InterruptedComesOut(t: Bytes, control: Bytes, j: nat)
    requires StartsOnce(control) && j <= |control| && !(control <= t && j == 0)
    ensures Interrupted(t, control, j) <==> control[j..] <= Scan(t, control).out
    decreases |t|
  {
    if j < |control| {
      if control <= t {
        InterruptedComesOut(t[|control|..], control, j);
      } else if t <= control {
        if t != [] && j > 0 {
          assert t[0] == control[0];
        } else {
          TooShort(t, control, j);
        }
      } else {
        var rest := Scan(t[1..], control).out;
        InterruptedComesOut(t[1..], control, j + 1);
        FrontStep(t[0], rest, control, j);
      }
    }
  }

  lemma FrontStep(b: byte, rest: Bytes, control: Bytes, j: nat)
    requires j < |control|
    ensures control[j..] <= [b] + rest <==> control[j] == b && control[j + 1..] <= rest
  {
    assert control[j..] == [control[j]] + control[j + 1..];
    assert ([b] + rest)[1..] == rest;
    if control[j] == b && control[j + 1..] <= rest {
      assert [b] + rest == control[j..] + rest[|control| - j - 1..];
    }
    if control[j..] <= [b] + rest {
      assert ([b] + rest)[..|control| - j] == control[j..];
      assert rest[..|control| - j - 1] == control[j..][1..];
    }
  }

  /** The control stands somewhere in `o`. */
  predicate Has(o: Bytes, control: Bytes) {
    control <= o || (o != [] && Has(o[1..], control))
  }

  /** Somewhere an interrupted control begins. */
  predicate HasInterrupted(s: Bytes, control: Bytes)
    requires control != []
  {
    Interrupted(s, control, 0) || (s != [] && HasInterrupted(s[1..], control))
  }

  lemma OccursNext(o: Bytes, control: Bytes, q: nat)
    requires o != []
    ensures OccursAt(o, control, q + 1) <==> OccursAt(o[1..], control, q)
  {
    if q + 1 + |control| <= |o| {
      assert o[q + 1..q + 1 + |control|] == o[1..][q..q + |control|];
    }
  }

  /** The control stands first, or from the second byte on. */
  lemma OccursFirstOrLater(o: Bytes, control: Bytes)
    requires o != []
    ensures (exists q :: OccursAt(o, control, q)) <==>
            control <= o || exists q :: OccursAt(o[1..], control, q)
  {
    OccursIsPrefix(o, control, 0);
    assert o[0..] == o;
    if q :| OccursAt(o[1..], control, q) {
      OccursNext(o, control, q);
    }
    if q :| OccursAt(o, control, q) && q > 0 {
      OccursNext(o, control, q - 1);
    }
  }

  lemma {:induction false} HasMeans(o: Bytes, control: Bytes)
    requires control != []
    ensures Has(o, control) <==> exists q :: OccursAt(o, control, q)
  {
    if o != [] {
      HasMeans(o[1..], control);
      OccursFirstOrLater(o, control);
    }
  }

  lemma {:induction false} HasInterruptedMeans(s: Bytes, control: Bytes)
    requires control != []
    ensures HasInterrupted(s, control) <==> exists p :: 0 <= p <= |s| && Interrupted(s[p..], control, 0)
  {
    assert s[0..] == s;
    if s != [] {
      HasInterruptedMeans(s[1..], control);
      if HasInterrupted(s[1..], control) {
        var p :| 0 <= p <= |s[1..]| && Interrupted(s[1..][p..], control, 0);
        assert s[1..][p..] == s[p + 1..];
      }
      if p :| 0 < p <= |s| && Interrupted(s[p..], control, 0) {
        assert s[1..][p - 1..] == s[p..];
      }
    }
  }

  /** Inside a whole control none begins. */
  lemma {:induction false} NoneInside(s: Bytes, control: Bytes, p: nat)
    requires StartsOnce(control) && control <= s && p <= |control|
    ensures HasInterrupted(s[p..], control) <==> HasInterrupted(s[|control|..], control)
    decreases |control| - p
  {
    if p < |control| {
      NoneInside(s, control, p + 1);
      assert s[p..][1..] == s[p + 1..] && s[p..][0] == control[p];
      assert p > 0 ==> !(control <= s[p..]);
    }
  }

  lemma {:induction false} HasStep(s: Bytes, control: Bytes)
    requires StartsOnce(control)
    ensures Has(Scan(s, control).out, control) <==> HasInterrupted(s, control)
    decreases |s|
  {
    if control <= s {
      HasStep(s[|control|..], control);
      NoneInside(s, control, 0);
      assert s[0..] == s;
    } else if s <= control {
      NoneInShort(s, control);
    } else {
      var rest := Scan(s[1..], control).out;
      HasStep(s[1..], control);
      InterruptedComesOut(s, control, 0);
      assert control[0..] == control;
      assert ([s[0]] + rest)[1..] == rest;
    }
  }

  lemma {:induction false} NoneInShort(s: Bytes, control: Bytes)
    requires control != [] && |s| < |control|
    ensures !HasInterrupted(s, control)
  {
    TooShort(s, control, 0);
    if s != [] {
      NoneInShort(s[1..], control);
    }
  }

  /** Exactly when the output contains the control: when the input has one that is
      interrupted, after its first byte, by whole controls only. */
  lemma ControlSurvives(s: Bytes, control: Bytes)
    requires StartsOnce(control)
    ensures (exists q :: OccursAt(Scan(s, control).out, control, q)) <==>
            exists p :: 0 <= p <= |s| && Interrupted(s[p..], control, 0)
  {
    HasStep(s, control);
    HasMeans(Scan(s, control).out, control);
    HasInterruptedMeans(s, control);
  }

  lemma StorageControlSurvives(s: Bytes)
    ensures (exists q :: OccursAt(Scan(s, STORAGE_SETUP_OSC).out, STORAGE_SETUP_OSC, q)) <==>
            exists p :: 0 <= p <= |s| && Interrupted(s[p..], STORAGE_SETUP_OSC, 0)
  {
    StorageSetupStartsOnce();
    ControlSurvives(s, STORAGE_SETUP_OSC);
  }
}
