/** A terminal session's output path (app/zmux/pty_session.py): every chunk goes
    through the control filter, into the capped scrollback, and on to the emit
    callback. */
module TerminalOutput {
  import opened Octets
  import opened Sequences
  import opened Wrappers
  import opened ControlFilter

  /** 1 MiB of scrollback per session. */
  const SCROLLBACK_MAX: nat := 0x10_0000

  const CLEAR_SCREEN: Bytes := [0x1B, 0x5B, 0x32, 0x4A]
  const HOME: Bytes := [0x1B, 0x5B, 0x48]
  const LF: byte := 0x0A
  const CR: byte := 0x0D

  /** `storageCalls` counts the calls made to `_request_storage_setup`, which ignores
      those that come while a request is pending. */
  datatype Output = Output(tail: Bytes, scrollback: Bytes, atLineStart: bool, storageCalls: nat)

  const FRESH := Output([], [], true, 0)

  predicate EndsWith(s: Bytes, suffix: Bytes) {
    |suffix| <= |s| && s[|s| - |suffix|..] == suffix
  }

  predicate Contains(s: Bytes, part: Bytes) {
    exists p | 0 <= p <= |s| :: OccursAt(s, part, p)
  }

  /** Whether the cursor stands at the start of a line once `shown` is out. */
  predicate LineStart(shown: Bytes, before: bool)
    requires shown != []
  {
    || Contains(shown, CLEAR_SCREEN)
    || EndsWith(shown, HOME)
    || EndsWith(shown, [LF])
    || (EndsWith(shown, [CR]) && before)
  }

  /** The cursor is at the start of a line after a cleared screen, a move home, or a
      line feed; a carriage return leaves it as it was; any other output does not. */
  lemma LineStartMeans(shown: Bytes, before: bool)
    requires shown != []
    ensures shown[|shown| - 1] == 0x0A ==> LineStart(shown, before)
    ensures (exists p :: OccursAt(shown, CLEAR_SCREEN, p)) ==> LineStart(shown, before)
    ensures |shown| >= 3 && shown[|shown| - 3..] == [0x1B, 0x5B, 0x48] ==> LineStart(shown, before)
    ensures (forall p :: !OccursAt(shown, CLEAR_SCREEN, p)) && shown[|shown| - 1] != 0x0A
            && (|shown| < 3 || shown[|shown| - 3..] != [0x1B, 0x5B, 0x48]) ==>
              (LineStart(shown, before) <==> shown[|shown| - 1] == 0x0D && before)
  {
    var last := shown[|shown| - 1];
    assert shown[|shown| - 1..] == [last];
    if |shown| >= 3 {
      assert shown[|shown| - 3..][2] == last;
    }
  }

  /** What one emitted chunk shows on the terminal. */
  function Shown(o: Output, data: Bytes): Bytes {
    Scan(o.tail + data, STORAGE_SETUP_OSC).out
  }

  function Emitted(o: Output, data: Bytes): Output {
    var r := Scan(o.tail + data, STORAGE_SETUP_OSC);
    Output(r.tail,
           Last(o.scrollback + r.out, SCROLLBACK_MAX),
           if r.out == [] then o.atLineStart else LineStart(r.out, o.atLineStart),
           o.storageCalls + r.controls)
  }

  function EmittedAll(o: Output, chunks: seq<Bytes>): Output
    decreases |chunks|
  {
    if chunks == [] then o else EmittedAll(Emitted(o, chunks[0]), chunks[1..])
  }

  /** The output is what it should be for a session that emitted `raw` in all. */
  predicate Records(o: Output, raw: Bytes) {
    var r := Scan(raw, STORAGE_SETUP_OSC);
    o.tail == r.tail && o.scrollback == Last(r.out, SCROLLBACK_MAX) && o.storageCalls == r.controls
  }

  lemma EmittedShows(o: Output, raw: Bytes, data: Bytes)
    requires Records(o, raw)
    ensures Scan(raw + data, STORAGE_SETUP_OSC).out == Scan(raw, STORAGE_SETUP_OSC).out + Shown(o, data)
  {
    ScanAppend(raw, data, STORAGE_SETUP_OSC);
  }

  lemma EmittedRecords(o: Output, raw: Bytes, data: Bytes)
    requires Records(o, raw)
    ensures Records(Emitted(o, data), raw + data)
  {
    ScanAppend(raw, data, STORAGE_SETUP_OSC);
    LastOfAppend(Scan(raw, STORAGE_SETUP_OSC).out, Shown(o, data), SCROLLBACK_MAX);
  }

  /** All that a list of chunks shows. */
  function ShownAll(o: Output, chunks: seq<Bytes>): Bytes
    decreases |chunks|
  {
    if chunks == [] then [] else Shown(o, chunks[0]) + ShownAll(Emitted(o, chunks[0]), chunks[1..])
  }

  /** However the output of a PTY is cut into chunks, all of them together show what
      one filter pass over the whole lets through, the scrollback is the last
      mebibyte of it, and the controls counted are those of that pass. */
  lemma {:induction false} ChunkingDoesNotMatter(o: Output, raw: Bytes, chunks: seq<Bytes>)
    requires Records(o, raw)
    ensures Records(EmittedAll(o, chunks), raw + Concat(chunks))
    ensures Scan(raw + Concat(chunks), STORAGE_SETUP_OSC).out == Scan(raw, STORAGE_SETUP_OSC).out + ShownAll(o, chunks)
    decreases |chunks|
  {
    if chunks == [] {
      assert raw + [] == raw;
    } else {
      var next := raw + chunks[0];
      assert next + Concat(chunks[1..]) == raw + Concat(chunks);
      EmittedRecords(o, raw, chunks[0]);
      EmittedShows(o, raw, chunks[0]);
      ChunkingDoesNotMatter(Emitted(o, chunks[0]), next, chunks[1..]);
      ThreeParts(Scan(raw, STORAGE_SETUP_OSC).out, Shown(o, chunks[0]), ShownAll(Emitted(o, chunks[0]), chunks[1..]));
    }
  }

  /** Length of the longest end of `data` that may begin a control. */
  method PossibleControlPrefix(data: Bytes) returns (size: nat)
    ensures LongestBeginning(data, STORAGE_SETUP_OSC, size)
  {
    var control := STORAGE_SETUP_OSC;
    size := if |data| < |control| - 1 then |data| else |control| - 1;
    while size > 0
      invariant size < |control| && size <= |data|
      invariant forall k | size < k < |control| && k <= |data| :: data[|data| - k..] != control[..k]
    {
      if data[|data| - size..] == control[..size] {
        return;
      }
      size := size - 1;
    }
  }

  /** Looks for the next whole control. */
  method NextControl(pending: Bytes) returns (at: Option<nat>)
    ensures at.Some? ==>
              at.value + |STORAGE_SETUP_OSC| <= |pending| &&
              var rest := Scan(pending[at.value + |STORAGE_SETUP_OSC|..], STORAGE_SETUP_OSC);
              Scan(pending, STORAGE_SETUP_OSC)
                == Filtered(pending[..at.value] + rest.out, rest.tail, rest.controls + 1)
    ensures at.None? ==> forall q: nat :: !OccursAt(pending, STORAGE_SETUP_OSC, q)
  {
    at := Find(pending, STORAGE_SETUP_OSC);
    if at.Some? {
      ScanFinds(pending, STORAGE_SETUP_OSC, at.value);
    }
  }

  /** With no whole control left, all but a possible beginning goes through. */
  method HoldBack(pending: Bytes) returns (shown: Bytes, tail: Bytes)
    requires forall q: nat :: !OccursAt(pending, STORAGE_SETUP_OSC, q)
    ensures Scan(pending, STORAGE_SETUP_OSC) == Filtered(shown, tail, 0)
  {
    var keep := PossibleControlPrefix(pending);
    ScanKeeps(pending, STORAGE_SETUP_OSC, keep);
    shown, tail := pending[..|pending| - keep], pending[|pending| - keep..];
  }

  /** A session as a value; `raw` is everything it ever emitted, and nothing reads
      it back. */
  datatype Session = Session(output: Output, raw: Bytes, cols: nat, rows: nat, running: bool)

  class TerminalSession {
    var controlTail: Bytes
    var scrollback: Bytes
    var atLineStart: bool
    var storageCalls: nat
    /** Everything this session ever handed to `Emit`. */
    ghost var raw: Bytes

    ghost function View(): Output
      reads this
    {
      Output(controlTail, scrollback, atLineStart, storageCalls)
    }

    /** The scrollback is the last mebibyte of what was shown so far. */
    ghost predicate Valid()
      reads this
    {
      Records(View(), raw)
    }

    constructor ()
      ensures Valid() && View() == FRESH && raw == []
    {
      controlTail, scrollback, atLineStart, storageCalls := [], [], true, 0;
      raw := [];
    }

    method FilterPtyControls(data: Bytes) returns (out: Bytes, controls: nat)
      modifies this`controlTail
      ensures Filtered(out, controlTail, controls) == Scan(old(controlTail) + data, STORAGE_SETUP_OSC)
    {
      var control := STORAGE_SETUP_OSC;
      var pending := controlTail + data;
      ghost var rest := Scan(pending, control);
      ghost var whole := rest;
      controlTail, out, controls := [], [], 0;
      assert [] + rest.out == rest.out;
      while pending != []
        invariant control == STORAGE_SETUP_OSC && controlTail == [] && rest == Scan(pending, control)
        invariant whole == Filtered(out + rest.out, rest.tail, controls + rest.controls)
        decreases |pending|
      {
        var at := NextControl(pending);
        if at.Some? {
          var before, after := pending[..at.value], pending[at.value + |control|..];
          rest := Scan(after, control);
          assert out + (before + rest.out) == (out + before) + rest.out;
          out, pending := out + before, after;
          controls := controls + 1;
        } else {
          var shown, tail := HoldBack(pending);
          out, controlTail := out + shown, tail;
          return;
        }
      }
      assert out + [] == out;
    }

    /** Returns what goes on to the emit callback; nothing does when it is empty. */
    method Emit(data: Bytes) returns (shown: Bytes)
      requires Valid()
      modifies this
      ensures Valid() && raw == old(raw) + data
      ensures shown == Shown(old(View()), data)
      ensures View() == Emitted(old(View()), data)
    {
      ghost var after := Emitted(View(), data);
      EmittedRecords(View(), raw, data);
      raw := raw + data;
      var controls;
      shown, controls := FilterPtyControls(data);
      storageCalls := storageCalls + controls;
      AppendScrollback(shown);
      if shown != [] {
        TrackLineStart(shown);
      }
      assert View() == after;
    }

    method AppendScrollback(shown: Bytes)
      modifies this`scrollback
      ensures scrollback == Last(old(scrollback) + shown, SCROLLBACK_MAX)
    {
      scrollback := scrollback + shown;
      if |scrollback| > SCROLLBACK_MAX {
        scrollback := scrollback[|scrollback| - SCROLLBACK_MAX..];
      }
    }

    method TrackLineStart(shown: Bytes)
      requires shown != []
      modifies this`atLineStart
      ensures atLineStart == LineStart(shown, old(atLineStart))
    {
      if Find(shown, CLEAR_SCREEN).Some? || EndsWith(shown, HOME) {
        atLineStart := true;
      } else if EndsWith(shown, [LF]) {
        atLineStart := true;
      } else if !EndsWith(shown, [CR]) {
        atLineStart := false;
      }
    }
  }
}
