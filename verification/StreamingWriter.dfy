/** The stdout proxy that streams complete lines as they are written, with line
    ends rewritten to CR LF (app/zmux/streams.py). */
module LineEnds {
  import opened Sequences

  /** As the source has it: CR LF becomes LF, then every LF becomes CR LF. */
  function Crlf(text: string): string {
    Replace(Replace(text, "\r\n", "\n"), "\n", "\r\n")
  }

  predicate StartsCrlf(text: string) {
    |text| >= 2 && text[0] == '\r' && text[1] == '\n'
  }

  /** The same in one pass: a lone LF gains a CR, everything else stays. */
  function OnePass(text: string): string {
    if text == "" then ""
    else if StartsCrlf(text) then "\r\n" + OnePass(text[2..])
    else if text[0] == '\n' then "\r\n" + OnePass(text[1..])
    else [text[0]] + OnePass(text[1..])
  }

  lemma {:induction false} CrlfIsOnePass(text: string)
    ensures Crlf(text) == OnePass(text)
  {
    if StartsCrlf(text) {
      CrlfIsOnePass(text[2..]);
      LfFirst('\n', Replace(text[2..], "\r\n", "\n"));
    } else if text != "" {
      CrlfIsOnePass(text[1..]);
      LfFirst(text[0], Replace(text[1..], "\r\n", "\n"));
    }
  }

  lemma LfFirst(c: char, rest: string)
    ensures Replace([c] + rest, "\n", "\r\n") ==
            (if c == '\n' then "\r\n" else [c]) + Replace(rest, "\n", "\r\n")
  {
    assert ([c] + rest)[1..] == rest;
    assert ([c] + rest)[0] == c;
  }

  /** A boundary between `a` and `b` that stands between a CR and its LF. */
  predicate Cut(a: string, b: string) {
    a != "" && b != "" && a[|a| - 1] == '\r' && b[0] == '\n'
  }

  function CutCount(a: string, b: string): nat {
    if Cut(a, b) then 1 else 0
  }

  /** Rewriting piecewise is rewriting the whole, but for one extra CR at a
      boundary that cuts a CR LF in two. */
  lemma {:induction false} OnePassSplits(a: string, b: string)
    ensures !Cut(a, b) ==> OnePass(a + b) == OnePass(a) + OnePass(b)
    ensures |OnePass(a)| + |OnePass(b)| == |OnePass(a + b)| + CutCount(a, b)
  {
    if a == "" {
      assert a + b == b;
    } else if a == "\r" && b != "" && b[0] == '\n' {
      CutInTwo(b);
    } else {
      var n, head := HeadLength(a), Head(a);
      HeadStays(a, b);
      OnePassSplits(a[n..], b);
      Assemble(head, OnePass(a[n..]), OnePass(b), OnePass(a[n..] + b), CutCount(a, b));
    }
  }

  lemma Assemble(head: string, rest: string, tail: string, whole: string, cut: nat)
    requires cut == 0 ==> whole == rest + tail
    requires |rest| + |tail| == |whole| + cut
    ensures cut == 0 ==> head + whole == (head + rest) + tail
    ensures |head + rest| + |tail| == |head + whole| + cut
  {
  }

  /** How much one step reads, and what it writes. */
  function HeadLength(a: string): (n: nat)
    requires a != ""
    ensures 0 < n <= |a|
  {
    if StartsCrlf(a) then 2 else 1
  }

  function Head(a: string): string
    requires a != ""
  {
    if StartsCrlf(a) || a[0] == '\n' then "\r\n" else [a[0]]
  }

  lemma HeadStays(a: string, b: string)
    requires a != "" && !(a == "\r" && b != "" && b[0] == '\n')
    ensures OnePass(a) == Head(a) + OnePass(a[HeadLength(a)..])
    ensures OnePass(a + b) == Head(a) + OnePass(a[HeadLength(a)..] + b)
    ensures Cut(a[HeadLength(a)..], b) <==> Cut(a, b)
  {
    var n := HeadLength(a);
    assert (a + b)[n..] == a[n..] + b;
    assert (a + b)[0] == a[0];
    assert |a| >= 2 ==> (a + b)[1] == a[1];
    assert |a| == 1 && b != "" ==> (a + b)[1] == b[0];
    assert StartsCrlf(a + b) <==> StartsCrlf(a);
  }

  lemma CutInTwo(b: string)
    requires b != "" && b[0] == '\n'
    ensures |OnePass("\r")| + |OnePass(b)| == |OnePass("\r" + b)| + 1
  {
    assert "\r"[1..] == "" && OnePass("") == "";
    assert ("\r" + b)[2..] == b[1..];
    assert StartsCrlf("\r" + b) && !StartsCrlf(b);
  }

  lemma CrlfSplits(a: string, b: string)
    ensures !Cut(a, b) ==> Crlf(a + b) == Crlf(a) + Crlf(b)
    ensures |Crlf(a)| + |Crlf(b)| == |Crlf(a + b)| + CutCount(a, b)
  {
    CrlfIsOnePass(a);
    CrlfIsOnePass(b);
    CrlfIsOnePass(a + b);
    OnePassSplits(a, b);
  }

  /** Every LF of the result follows a CR, and rewriting again changes nothing. */
  lemma {:induction false} CrlfSettles(text: string)
    ensures forall i | 0 <= i < |Crlf(text)| && Crlf(text)[i] == '\n' :: i > 0 && Crlf(text)[i - 1] == '\r'
    ensures Crlf(Crlf(text)) == Crlf(text)
  {
    CrlfIsOnePass(text);
    CrlfIsOnePass(Crlf(text));
    OnePassSettles(text);
  }

  lemma {:induction false} OnePassSettles(text: string)
    ensures forall i | 0 <= i < |OnePass(text)| && OnePass(text)[i] == '\n' :: i > 0 && OnePass(text)[i - 1] == '\r'
    ensures OnePass(OnePass(text)) == OnePass(text)
  {
    if StartsCrlf(text) {
      OnePassSettles(text[2..]);
      assert OnePass(text)[2..] == OnePass(text[2..]);
    } else if text != "" {
      OnePassSettles(text[1..]);
      var rest := OnePass(text[1..]);
      if text[0] == '\n' {
        assert OnePass(text)[2..] == rest;
      } else {
        assert OnePass(text)[1..] == rest && OnePass(text)[0] == text[0];
        assert rest != "" ==> rest[0] != '\n';
        assert !StartsCrlf(OnePass(text));
      }
    }
  }
}

module StreamingWriters {
  import opened Sequences
  import opened LineEnds

  const PARTIAL_FLUSH_THRESHOLD: nat := 256

  /** `emitted` is all that went to the sink. */
  datatype Writer = Writer(pending: string, buffer: seq<string>, emitted: string)

  const NEW := Writer("", [], "")

  function Value(w: Writer): string {
    Concat(w.buffer)
  }

  function Flushed(w: Writer): Writer {
    w.(pending := "", emitted := w.emitted + Crlf(w.pending))
  }

  /** Length of the text up to and including its last LF; 0 without one. */
  function LinesEnd(text: string): (n: nat)
    ensures n <= |text|
    ensures n > 0 ==> text[n - 1] == '\n'
    ensures '\n' !in text[n..]
  {
    if text == "" then 0
    else if text[|text| - 1] == '\n' then |text|
    else
      var n := LinesEnd(text[..|text| - 1]);
      assert text[n..] == text[..|text| - 1][n..] + [text[|text| - 1]];
      n
  }

  function Written(w: Writer, text: string): Writer {
    if text == "" then w
    else
      var pending := w.pending + text;
      var n := LinesEnd(pending);
      var w := w.(buffer := w.buffer + [text], pending := pending);
      if n > 0 then w.(pending := pending[n..], emitted := w.emitted + Crlf(pending[..n]))
      else if |pending| >= PARTIAL_FLUSH_THRESHOLD then Flushed(w)
      else w
  }

  /** A write is kept; every complete line goes out at once; and so does a line that
      is not complete, once it has grown to the threshold, and not before. */
  lemma WrittenMeans(w: Writer, text: string)
    requires text != ""
    ensures var t, all := Written(w, text), w.pending + text;
            && t.buffer == w.buffer + [text]
            && ('\n' in all ==> exists n :: 0 < n <= |all| && all[n - 1] == '\n' && '\n' !in all[n..]
                                            && t.pending == all[n..] && t.emitted == w.emitted + Crlf(all[..n]))
            && ('\n' !in all && |all| >= 256 ==> t.pending == "" && t.emitted == w.emitted + Crlf(all))
            && ('\n' !in all && |all| < 256 ==> t.pending == all && t.emitted == w.emitted)
    ensures Written(w, "") == w
  {
    var all := w.pending + text;
    var n := LinesEnd(all);
    assert n == 0 ==> all[n..] == all;
    assert n > 0 ==> all[n - 1] in all;
  }

  /** A flush sends what is pending. */
  lemma FlushedMeans(w: Writer)
    ensures Flushed(w).pending == "" && Flushed(w).buffer == w.buffer
    ensures Flushed(w).emitted == w.emitted + Crlf(w.pending)
  {
  }

  datatype Op = Write(text: string) | Flush

  function Step(w: Writer, op: Op): Writer {
    match op
    case Write(text) => Written(w, text)
    case Flush => Flushed(w)
  }

  function Run(w: Writer, ops: seq<Op>): Writer
    decreases |ops|
  {
    if ops == [] then w else Run(Step(w, ops[0]), ops[1..])
  }

  /** What was written and is no longer pending. */
  function Gone(w: Writer): string {
    if |w.pending| <= |Value(w)| then Value(w)[..|Value(w)| - |w.pending|] else ""
  }

  /** How often, over a run, a flush turns out to have parted a CR from its LF:
      all that was written is gone, it ends in CR, and LF comes next. */
  function Cuts(w: Writer, ops: seq<Op>): nat
    decreases |ops|
  {
    if ops == [] then 0
    else
      (if ops[0].Write? then CutCount(Gone(w), w.pending + ops[0].text) else 0)
      + Cuts(Step(w, ops[0]), ops[1..])
  }

  /** Nothing written is lost: it is gone or pending, and no pending text holds an LF. */
  predicate Sound(w: Writer) {
    && |w.pending| <= |Value(w)| && Value(w) == Gone(w) + w.pending
    && '\n' !in w.pending
  }

  /** After `cuts` cuts the sink has that many characters too many, so exactly
      without any it has the rewritten text. */
  predicate Streams(w: Writer, cuts: nat) {
    && Sound(w)
    && |w.emitted| == |Crlf(Gone(w))| + cuts
    && (cuts == 0 ==> w.emitted == Crlf(Gone(w)))
  }

  lemma EmitStreams(w: Writer, cuts: nat, text: string, w': Writer)
    requires Streams(w, cuts)
    requires w'.emitted == w.emitted + Crlf(text)
    requires Sound(w') && Gone(w') == Gone(w) + text
    ensures Streams(w', cuts + CutCount(Gone(w), text))
  {
    CrlfSplits(Gone(w), text);
  }

  lemma FlushStreams(w: Writer, cuts: nat)
    requires Streams(w, cuts)
    ensures Streams(Flushed(w), cuts)
  {
    EmitStreams(w, cuts, w.pending, Flushed(w));
  }

  lemma ValueGrows(w: Writer, text: string)
    ensures Value(w.(buffer := w.buffer + [text])) == Value(w) + text
  {
    ConcatAppend(w.buffer, [text]);
    assert Concat([text]) == text + [];
  }

  /** Writing as far as the pending text, before any of it is emitted. */
  lemma PendingGrows(w: Writer, text: string, n: nat)
    requires Sound(w) && n <= |w.pending + text|
    ensures var all := w.pending + text;
            var w' := w.(buffer := w.buffer + [text], pending := all[n..]);
            && |w'.pending| <= |Value(w')| && Value(w') == Gone(w') + w'.pending
            && Gone(w') == Gone(w) + all[..n]
  {
    ValueGrows(w, text);
    var all := w.pending + text;
    assert Value(w) + text == Gone(w) + all[..n] + all[n..];
  }

  lemma WriteStreams(w: Writer, cuts: nat, text: string)
    requires Streams(w, cuts)
    ensures Streams(Written(w, text), cuts + CutCount(Gone(w), w.pending + text))
  {
    var all, n := w.pending + text, LinesEnd(w.pending + text);
    PendingGrows(w, text, n);
    if text == "" {
      assert all == w.pending;
    } else if n > 0 {
      EmitStreams(w, cuts, all[..n], Written(w, text));
    } else {
      assert all[0..] == all && Gone(w) + all[..0] == Gone(w);
      assert !Cut(Gone(w), all);
      var w' := w.(buffer := w.buffer + [text], pending := all);
      assert Streams(w', cuts);
      if |all| >= PARTIAL_FLUSH_THRESHOLD {
        FlushStreams(w', cuts);
      }
    }
  }

  lemma {:induction false} RunStreams(w: Writer, cuts: nat, ops: seq<Op>)
    requires Streams(w, cuts)
    ensures Streams(Run(w, ops), cuts + Cuts(w, ops))
    decreases |ops|
  {
    if ops != [] {
      match ops[0] {
        case Write(text) =>
          WriteStreams(w, cuts, text);
          RunStreams(Written(w, text), cuts + CutCount(Gone(w), w.pending + text), ops[1..]);
        case Flush =>
          FlushStreams(w, cuts);
          RunStreams(Flushed(w), cuts, ops[1..]);
      }
    }
  }

  function TextOf(ops: seq<Op>): string {
    if ops == [] then ""
    else (if ops[0].Write? then ops[0].text else "") + TextOf(ops[1..])
  }

  lemma {:induction false} ValueIsText(w: Writer, ops: seq<Op>)
    ensures Value(Run(w, ops)) == Value(w) + TextOf(ops)
    decreases |ops|
  {
    if ops == [] {
      assert Value(w) + "" == Value(w);
    } else {
      var text := if ops[0].Write? then ops[0].text else "";
      ValueIsText(Step(w, ops[0]), ops[1..]);
      StepValue(w, ops[0]);
      ThreeParts(Value(w), text, TextOf(ops[1..]));
    }
  }

  lemma StepValue(w: Writer, op: Op)
    ensures Value(Step(w, op)) == Value(w) + if op.Write? then op.text else ""
  {
    if op.Write? {
      ValueGrows(w, op.text);
      assert op.text == "" ==> Value(w) + op.text == Value(w);
    } else {
      assert Value(w) + "" == Value(w);
    }
  }

  /** A writer that was given `text`: it is kept exactly, no pending text holds an LF,
      and what was emitted followed by the rewritten pending text is the rewritten
      text if and only if there was no cut; each cut adds one character. */
  predicate Streamed(w: Writer, text: string, cuts: nat) {
    && Value(w) == text
    && '\n' !in w.pending
    && (w.emitted + Crlf(w.pending) == Crlf(text) <==> cuts == 0)
    && |w.emitted + Crlf(w.pending)| == |Crlf(text)| + cuts
  }

  lemma StreamsMeans(w: Writer, cuts: nat)
    requires Streams(w, cuts)
    ensures Streamed(w, Value(w), cuts)
  {
    CrlfSplits(Gone(w), w.pending);
  }

  /** So it is over any writes and flushes, a cut being a flush that parted a CR from
      its LF. */
  lemma StreamedText(ops: seq<Op>)
    ensures Streamed(Run(NEW, ops), TextOf(ops), Cuts(NEW, ops))
  {
    ValueIsText(NEW, ops);
    assert "" + TextOf(ops) == TextOf(ops);
    assert Streams(NEW, 0);
    RunStreams(NEW, 0, ops);
    StreamsMeans(Run(NEW, ops), Cuts(NEW, ops));
  }

  class StreamingWriter {
    var pending: string
    var buffer: seq<string>
    var emitted: string

    ghost function View(): Writer
      reads this
    {
      Writer(pending, buffer, emitted)
    }

    constructor ()
      ensures View() == NEW
    {
      pending, buffer, emitted := "", [], "";
    }

    method WriteText(text: string) returns (n: nat)
      modifies this
      ensures n == |text| && View() == Written(old(View()), text)
    {
      if text == "" {
        return 0;
      }
      buffer := buffer + [text];
      pending := pending + text;
      var end := LinesEnd(pending);
      if end > 0 {
        emitted := emitted + Crlf(pending[..end]);
        pending := pending[end..];
      } else if |pending| >= PARTIAL_FLUSH_THRESHOLD {
        FlushText();
      }
      return |text|;
    }

    method FlushText()
      modifies this
      ensures View() == Flushed(old(View()))
    {
      if pending != "" {
        emitted := emitted + Crlf(pending);
        pending := "";
      } else {
        assert emitted + Crlf("") == emitted;
      }
    }

    method GetValue() returns (text: string)
      ensures text == Value(View())
    {
      text := "";
      var i := 0;
      while i < |buffer|
        invariant 0 <= i <= |buffer|
        invariant text + Concat(buffer[i..]) == Concat(buffer)
      {
        assert buffer[i..][1..] == buffer[i + 1..];
        text := text + buffer[i];
        i := i + 1;
      }
    }
  }
}
