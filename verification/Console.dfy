/** The host console (app/zmux/pty_session.py): keys, submitted lines, the worker
    that runs commands, type-ahead, and the interrupt latch of app/zmux/python_shell.py.

    Each step is one thread's work between two points where another may come in: a
    character handled under the session lock, one stage of the worker's loop. */
module ConsoleModel {
  import opened Wrappers
  import opened Sequences
  import opened Text
  import opened LineEditing

  datatype Mode = Shell | Repl

  datatype Command = Command(line: string, mode: Mode)

  /** Where the worker is. `snapshot` is the interrupt epoch it noted, `caught`
      that it met the interrupt as an exception. */
  datatype Stage =
    | Waiting
    | Taken(command: Command)
    | Noted(command: Command, snapshot: nat)
    | Marked(command: Command, snapshot: nat)
    | Running(command: Command, snapshot: nat, caught: bool)
    | Gone

  /** What an attempt to enter the Alpine PTY meets. */
  datatype Entry = NotReady | NoFork | Spawned

  /** The session's modes; `coming` is what the next attempts to enter the PTY
      will meet. */
  datatype Host = Host(running: bool, inPty: bool, mode: Mode, block: seq<string>, awaiting: bool, handoff: bool,
                       coming: seq<Entry>)

  /** What the keyboard and the worker share. `commands` ends the worker where it
      holds `None`. */
  datatype Work = Work(busy: bool, flag: bool, epoch: nat, commands: seq<Option<Command>>, stdin: seq<string>,
                       stage: Stage)

  datatype Console = Console(editor: Editor, host: Host, work: Work)

  function Started(awaiting: bool, coming: seq<Entry>): Console {
    Console(EMPTY, Host(true, false, Shell, [], awaiting, false, coming), Work(false, false, 0, [], [], Waiting))
  }

  // ---------------------------------------------------------- submitted lines

  /** What a submitted line, stripped, is to the session itself. */
  datatype Word = Blank | Setup | ReplEnter | AlpineEnter | ReplExit | Other

  function Meaning(stripped: string): Word {
    if stripped == "" then Blank
    else if stripped == "linux-setup" then Setup
    else if stripped in {"python", "python3"} then ReplEnter
    else if stripped in {"linux", "alpine"} then AlpineEnter
    else if stripped in {"exit", "quit", "exit()", "quit()"} then ReplExit
    else Other
  }

  function EnterPty(h: Host, busy: bool): Host {
    if !h.running || h.inPty || busy || h.coming == [] then h
    else
      var g := h.(coming := h.coming[1..]);
      match h.coming[0]
      case NotReady => g
      case NoFork => g.(mode := Shell)
      case Spawned => g.(mode := Shell, inPty := true)
  }

  function LeaveRepl(h: Host): Host {
    h.(mode := Shell, block := [])
  }

  function Queue(w: Work, line: string, mode: Mode): Work {
    w.(commands := w.commands + [Some(Command(line, mode))])
  }

  /** Only the command queue may differ. */
  predicate SameButCommands(w: Work, v: Work) {
    v == w.(commands := v.commands)
  }

  function Dispatch(s: Console, line: string, word: Word): (r: Console)
    ensures r.editor == s.editor && SameButCommands(s.work, r.work)
    ensures r.host.awaiting == s.host.awaiting
  {
    var h := s.host;
    if h.awaiting then
      if word.Setup? then s.(work := Queue(s.work, line, Shell)) else s
    else if h.mode == Shell && word.ReplEnter? then s.(host := h.(mode := Repl))
    else if h.mode == Shell && word.AlpineEnter? then s.(host := EnterPty(h, s.work.busy))
    else if h.mode == Repl && word.ReplExit? then s.(host := LeaveRepl(h))
    else s.(work := Queue(s.work, line, h.mode))
  }

  /** A line that is not typed ahead: a command, or an order to the session. */
  function SubmitNow(s: Console, line: string): (r: Console)
    ensures r.editor == (if Meaning(Strip(line)).Blank? then s.editor else Remember(s.editor, Strip(line)))
    ensures SameButCommands(s.work, r.work)
    ensures r.host.awaiting == s.host.awaiting
  {
    var word := Meaning(Strip(line));
    if word.Blank? then
      if s.host.block != [] then s.(work := Queue(s.work, line, s.host.mode)) else s
    else Dispatch(s.(editor := Remember(s.editor, Strip(line))), line, word)
  }

  function Submit(s: Console, line: string): Console {
    if s.work.busy then s.(work := s.work.(stdin := s.work.stdin + [line])) else SubmitNow(s, line)
  }

  function SubmitAll(s: Console, lines: seq<string>): Console
    decreases |lines|
  {
    if lines == [] then s else SubmitAll(Submit(s, lines[0]), lines[1..])
  }

  // --------------------------------------------------------------------- keys

  /** The epoch counts interrupts; the flag is the latch. */
  function Interrupt(w: Work): Work {
    w.(epoch := w.epoch + 1, flag := true)
  }

  function SetLine(s: Console, line: string): Console {
    s.(editor := s.editor.(line := line))
  }

  function InterruptRunning(s: Console): Console {
    Console(s.editor.(line := ""), s.host.(block := []), if s.work.busy then Interrupt(s.work) else s.work)
  }

  function Press(s: Console, c: char): Console {
    var line := s.editor.line;
    if c == '\U{03}' then InterruptRunning(s)
    else if c == '\U{04}' then
      if s.host.mode == Repl && line == "" && !s.work.busy then s.(host := LeaveRepl(s.host)) else s
    else if c == '\U{7F}' || c == '\U{08}' then
      if line != "" then SetLine(s, line[..|line| - 1]) else s
    else if c == '\r' || c == '\n' then SetLine(Submit(s, line), "")
    else if c >= ' ' then SetLine(s, line + [c])
    else s
  }

  function SetEsc(s: Console, esc: Esc): Console {
    s.(editor := s.editor.(esc := esc))
  }

  function HistoryStep(s: Console, up: bool): Console {
    if s.work.busy then s else s.(editor := Browse(s.editor, up))
  }

  function Arrow(s: Console, c: char): Console {
    if c == 'A' then HistoryStep(s, true) else if c == 'B' then HistoryStep(s, false) else s
  }

  function HandleEscape(s: Console, c: char): Console {
    match s.editor.esc
    case Plain => SetEsc(s, Escape)
    case Escape => SetEsc(s, if c == '[' then Csi else if c == 'O' then Ss3 else Plain)
    case Ss3 => SetEsc(Arrow(s, c), Plain)
    case Csi => if IsFinal(c) then SetEsc(Arrow(s, c), Plain) else s
  }

  function Handle(s: Console, c: char): Console {
    if s.editor.esc != Plain || c == ESC then HandleEscape(s, c) else Press(s, c)
  }

  function Feed(s: Console, text: string): Console
    decreases |text|
  {
    if text == "" then s else Feed(Handle(s, text[0]), text[1..])
  }

  // -------------------------------------------------------------------- steps

  /** What the worker may do next while it runs a command: read a line typed ahead,
      wait for the rest of a block, show the result, meet the interrupt, finish. */
  datatype Op =
    | Type(c: char)
    | Toggle
    | PtyExits(again: bool)
    | Stop
    | Take
    | Note
    | MarkBusy
    | ClearLatch
    | ReadInput
    | AwaitMore
    | Render(python: bool, ready: bool)
    | Catch
    | Finish

  function Stopped(s: Console): Console {
    Console(s.editor.(line := ""), s.host.(running := false, block := [], inPty := false),
            Interrupt(s.work.(commands := s.work.commands + [None])))
  }

  function Toggled(h: Host, busy: bool): Host {
    if !h.running then h else if h.inPty then h.(inPty := false) else EnterPty(h, busy)
  }

  function Exited(h: Host, busy: bool, again: bool): Host {
    if !h.inPty then h else if again then EnterPty(h.(inPty := false), busy) else h.(inPty := false)
  }

  function Took(w: Work, running: bool): Work {
    if !w.stage.Waiting? || w.commands == [] then w
    else
      w.(commands := w.commands[1..],
         stage := if w.commands[0].None? || !running then Gone else Taken(w.commands[0].value))
  }

  function Cleared(w: Work): Work {
    if !w.stage.Marked? then w
    else
      w.(flag := w.flag && w.stage.snapshot != w.epoch, stage := Running(w.stage.command, w.stage.snapshot, false))
  }

  function Read(w: Work, running: bool): Work {
    if !w.stage.Running? || w.flag || !running || w.stdin == [] then w else w.(stdin := w.stdin[1..])
  }

  function Rendered(h: Host, python: bool, ready: bool): Host {
    var g := if h.awaiting && ready then h.(awaiting := false, handoff := true) else h;
    if python then g.(block := []) else g
  }

  function Idle(w: Work): Work {
    w.(busy := false, stage := Waiting)
  }

  function Finished(s: Console): Console {
    if s.work.flag then s.(work := Idle(s.work).(stdin := [], flag := false))
    else if s.host.handoff then
      s.(host := EnterPty(s.host.(handoff := false), false), work := Idle(s.work))
    else SubmitAll(s.(work := Idle(s.work).(stdin := [])), s.work.stdin)
  }

  /** One step; a worker step that is not next changes nothing. */
  function Step(s: Console, op: Op): Console {
    var w := s.work;
    match op
    case Type(c) => Handle(s, c)
    case Toggle => s.(host := Toggled(s.host, w.busy))
    case PtyExits(again) => s.(host := Exited(s.host, w.busy, again))
    case Stop => Stopped(s)
    case Take => s.(work := Took(w, s.host.running))
    case Note => if w.stage.Taken? then s.(work := w.(stage := Noted(w.stage.command, w.epoch))) else s
    case MarkBusy =>
      if w.stage.Noted? then s.(work := w.(busy := true, stage := Marked(w.stage.command, w.stage.snapshot))) else s
    case ClearLatch => s.(work := Cleared(w))
    case ReadInput => s.(work := Read(w, s.host.running))
    case AwaitMore =>
      if !w.stage.Running? then s
      else Console(s.editor, s.host.(block := s.host.block + [w.stage.command.line]), w.(busy := false))
    case Render(python, ready) => if w.stage.Running? then s.(host := Rendered(s.host, python, ready)) else s
    case Catch => if w.stage.Running? then s.(work := w.(flag := true, stage := w.stage.(caught := true))) else s
    case Finish => if w.stage.Running? then Finished(s) else s
  }

  function Run(s: Console, ops: seq<Op>): Console {
    if ops == [] then s else Step(Run(s, ops[..|ops| - 1]), ops[|ops| - 1])
  }

  // ------------------------------------------------------ escape sequences

  function PressKey(s: Console, key: Key): Console {
    match key
    case Pressed(c) => Press(s, c)
    case Up => HistoryStep(s, true)
    case Down => HistoryStep(s, false)
    case Ignored => s
  }

  function PressKeys(s: Console, keys: seq<Key>): Console
    decreases |keys|
  {
    if keys == [] then s else PressKeys(PressKey(s, keys[0]), keys[1..])
  }

  lemma PressKeepsEsc(s: Console, key: Key)
    ensures PressKey(s, key).editor.esc == s.editor.esc
  {
  }

  lemma {:induction false} CsiSwallows(s: Console, text: string)
    requires s.editor.esc == Csi
    ensures var n := FirstFinal(text);
            Feed(s, text) ==
            if n == |text| then s else Feed(SetEsc(Arrow(s, text[n]), Plain), text[n + 1..])
    decreases |text|
  {
    if text != "" && !IsFinal(text[0]) {
      var rest := text[1..];
      CsiSwallows(s, rest);
      var n := FirstFinal(rest);
      if n < |rest| {
        assert text[n + 1] == rest[n] && text[n + 2..] == rest[n + 1..];
      }
    }
  }

  lemma StepAfterSequence(s: Console, esc: Esc, up: bool)
    requires s.editor.esc == Plain
    ensures SetEsc(HistoryStep(SetEsc(s, esc), up), Plain) == HistoryStep(s, up)
  {
    BrowseIgnoresEsc(s.editor, esc, up);
  }

  lemma ArrowAfterSequence(s: Console, esc: Esc, c: char)
    requires s.editor.esc == Plain
    ensures SetEsc(Arrow(SetEsc(s, esc), c), Plain) == PressKey(s, KeyOf(c))
  {
    if c == 'A' {
      StepAfterSequence(s, esc, true);
    } else if c == 'B' {
      StepAfterSequence(s, esc, false);
    }
  }

  predicate ReadsKeys(s: Console, text: string) {
    Feed(s, text) == SetEsc(PressKeys(s, Keys(text).0), Keys(text).1)
  }

  /** Reading characters one by one is reading the keys they stand for: what
      belongs to an escape sequence never reaches the line. */
  lemma {:induction false} FeedReadsKeys(s: Console, text: string)
    requires s.editor.esc == Plain
    ensures Feed(s, text) == SetEsc(PressKeys(s, Keys(text).0), Keys(text).1)
    decreases |text|, 1
  {
    if text == "" {
    } else if text[0] != ESC {
      FeedKey(s, Pressed(text[0]), text[1..]);
    } else if |text| > 1 {
      if text[1] == '[' {
        FeedCsi(s, text);
      } else if text[1] == 'O' {
        FeedSs3(s, text);
      } else {
        FeedSequence(s, text);
        FeedKey(s, Ignored, text[2..]);
      }
    }
  }

  lemma {:induction false} FeedCsi(s: Console, text: string)
    requires s.editor.esc == Plain && |text| > 1 && text[0] == ESC && text[1] == '['
    ensures ReadsKeys(s, text)
    decreases |text|, 0
  {
    var rest := text[2..];
    var n := FirstFinal(rest);
    FeedSequence(s, text);
    CsiSwallows(SetEsc(s, Csi), rest);
    if n < |rest| {
      assert text[n + 2] == rest[n] && rest[n + 1..] == text[n + 3..];
      ArrowAfterSequence(s, Csi, rest[n]);
      FeedKey(s, KeyOf(rest[n]), text[n + 3..]);
      assert Keys(text) == More(KeyOf(rest[n]), Keys(text[n + 3..]));
    }
  }

  lemma {:induction false} FeedSs3(s: Console, text: string)
    requires s.editor.esc == Plain && |text| > 1 && text[0] == ESC && text[1] == 'O'
    ensures ReadsKeys(s, text)
    decreases |text|, 0
  {
    FeedSequence(s, text);
    if |text| > 2 {
      ArrowAfterSequence(s, Ss3, text[2]);
      assert text[2..][1..] == text[3..];
      FeedKey(s, KeyOf(text[2]), text[3..]);
      assert Keys(text) == More(KeyOf(text[2]), Keys(text[3..]));
    }
  }

  lemma FeedSequence(s: Console, text: string)
    requires s.editor.esc == Plain && |text| > 1 && text[0] == ESC
    ensures Feed(s, text) ==
            Feed(SetEsc(s, if text[1] == '[' then Csi else if text[1] == 'O' then Ss3 else Plain), text[2..])
  {
    assert text[1..][1..] == text[2..];
    assert text[1..][0] == text[1];
  }

  lemma {:induction false} FeedKey(s: Console, key: Key, rest: string)
    requires s.editor.esc == Plain
    ensures Feed(PressKey(s, key), rest) ==
            SetEsc(PressKeys(s, More(key, Keys(rest)).0), More(key, Keys(rest)).1)
    decreases |rest|, 2
  {
    PressKeepsEsc(s, key);
    var keys := More(key, Keys(rest)).0;
    assert keys[0] == key && keys[1..] == Keys(rest).0;
    FeedReadsKeys(PressKey(s, key), rest);
  }

  function Times(part: string, k: nat): string {
    if k == 0 then "" else part + Times(part, k - 1)
  }

  function ArrowKey(up: bool): string {
    if up then "\U{1B}[A" else "\U{1B}[B"
  }

  lemma FeedArrow(s: Console, up: bool, rest: string)
    requires s.editor.esc == Plain
    ensures Feed(s, ArrowKey(up) + rest) == Feed(HistoryStep(s, up), rest)
  {
    var text := ArrowKey(up) + rest;
    FeedSequence(s, text);
    CsiSwallows(SetEsc(s, Csi), text[2..]);
    assert text[2..][1..] == rest;
    ArrowAfterSequence(s, Csi, text[2]);
  }

  lemma {:induction false} FeedArrows(s: Console, up: bool, k: nat, rest: string)
    requires s.editor.esc == Plain && !s.work.busy
    ensures Feed(s, Times(ArrowKey(up), k) + rest) == Feed(s.(editor := Browses(s.editor, up, k)), rest)
    decreases k
  {
    if k == 0 {
      assert "" + rest == rest;
    } else {
      var more := Times(ArrowKey(up), k - 1) + rest;
      assert Times(ArrowKey(up), k) + rest == ArrowKey(up) + more;
      FeedArrow(s, up, more);
      FeedArrows(HistoryStep(s, up), up, k - 1, rest);
    }
  }

  lemma FeedUpsDowns(s: Console, k: nat, j: nat)
    requires s.editor.esc == Plain && !s.work.busy
    ensures Feed(s, Times(ArrowKey(true), k) + Times(ArrowKey(false), j)) ==
            s.(editor := Browses(Browses(s.editor, true, k), false, j))
  {
    var downs := Times(ArrowKey(false), j);
    FeedArrows(s, true, k, downs);
    assert downs + "" == downs;
    FeedArrows(s.(editor := Browses(s.editor, true, k)), false, j, "");
  }

  /** On the keys themselves: `k` Up arrows and `j` Down arrows bring back the line
      being typed exactly when `j` is no less than `k` or the length of the history;
      nothing else of the session changes. */
  lemma ArrowsRestoreTheLine(s: Console, k: nat, j: nat)
    requires s.editor.esc == Plain && !s.work.busy && s.editor.index.None?
    ensures var r := Feed(s, Times(ArrowKey(true), k) + Times(ArrowKey(false), j));
            var n := |s.editor.history|;
            && r == s.(editor := r.editor) && r.editor.history == s.editor.history
            && (r.editor.index.None? <==> j >= if k < n then k else n)
            && (r.editor.index.None? ==> r.editor.line == s.editor.line)
            && (r.editor.index.Some? ==>
                r.editor.index.value < n && r.editor.line == s.editor.history[r.editor.index.value])
  {
    FeedUpsDowns(s, k, j);
    UpsThenDowns(s.editor, k, j);
  }

  /** The arrows of application mode, ESC O and a letter, do the same. */
  lemma FeedApplicationArrow(s: Console, up: bool, rest: string)
    requires s.editor.esc == Plain
    ensures Feed(s, (if up then "\U{1B}OA" else "\U{1B}OB") + rest) == Feed(HistoryStep(s, up), rest)
  {
    var text := (if up then "\U{1B}OA" else "\U{1B}OB") + rest;
    FeedSequence(s, text);
    assert text[2..][1..] == rest && text[2..][0] == text[2];
    ArrowAfterSequence(s, Ss3, text[2]);
  }

  /** Any other control sequence, such as that of the Delete key, does nothing. */
  lemma OtherSequencesAreIgnored(s: Console, body: string, final: char, rest: string)
    requires s.editor.esc == Plain && IsFinal(final) && final != 'A' && final != 'B'
    requires forall i | 0 <= i < |body| :: body[i] < '@'
    ensures Feed(s, "\U{1B}[" + body + [final] + rest) == Feed(s, rest)
  {
    var text := "\U{1B}[" + body + [final] + rest;
    FeedSequence(s, text);
    assert text[2..] == body + [final] + rest;
    FirstFinalOf(body, final, rest);
    CsiSwallows(SetEsc(s, Csi), text[2..]);
    assert (body + [final] + rest)[|body| + 1..] == rest;
  }

  lemma {:induction false} FirstFinalOf(body: string, final: char, rest: string)
    requires IsFinal(final) && forall i | 0 <= i < |body| :: body[i] < '@'
    ensures FirstFinal(body + [final] + rest) == |body|
  {
    var all := body + [final] + rest;
    if body != "" {
      FirstFinalOf(body[1..], final, rest);
      assert all[1..] == body[1..] + [final] + rest && all[0] == body[0];
    } else {
      assert all[0] == final;
    }
  }

  lemma DeleteKey(s: Console)
    requires s.editor.esc == Plain
    ensures Feed(s, "\U{1B}[3~") == s
  {
    OtherSequencesAreIgnored(s, "3", '~', "");
    assert "\U{1B}[" + "3" + ['~'] + "" == "\U{1B}[3~";
  }

  /** While a command runs the history is left alone. */
  lemma ArrowsWaitForTheCommand(s: Console, up: bool)
    requires s.editor.esc == Plain && s.work.busy
    ensures Feed(s, ArrowKey(up)) == s
  {
    assert ArrowKey(up) + "" == ArrowKey(up);
    FeedArrow(s, up, "");
  }

  // ------------------------------------------------------------------- typing

  /** Typed text goes to the end of the line, in order, and changes nothing else. */
  lemma {:induction false} TypedText(s: Console, text: string)
    requires s.editor.esc == Plain && Printable(text)
    ensures Feed(s, text) == SetLine(s, s.editor.line + text)
    decreases |text|
  {
    var line := s.editor.line;
    if text == "" {
      assert line + "" == line;
    } else {
      TypedText(SetLine(s, line + [text[0]]), text[1..]);
      assert (line + [text[0]]) + text[1..] == line + text;
    }
  }

  lemma {:induction false} FeedBoth(s: Console, a: string, b: string)
    ensures Feed(s, a + b) == Feed(Feed(s, a), b)
    decreases |a|
  {
    if a == "" {
      assert a + b == b;
    } else {
      assert (a + b)[0] == a[0] && (a + b)[1..] == a[1..] + b;
      FeedBoth(Handle(s, a[0]), a[1..], b);
    }
  }

  lemma FeedOne(s: Console, c: char)
    ensures Feed(s, [c]) == Handle(s, c)
  {
    assert [c][1..] == "";
  }

  /** Enter submits exactly what stood in the line with the text after it, and
      empties the line. */
  lemma EnterSubmitsTheLine(s: Console, text: string, enter: char)
    requires s.editor.esc == Plain && Printable(text) && enter in "\r\n"
    ensures var whole := s.editor.line + text;
            Feed(s, text + [enter]) == SetLine(Submit(SetLine(s, whole), whole), "")
  {
    FeedBoth(s, text, [enter]);
    TypedText(s, text);
    FeedOne(SetLine(s, s.editor.line + text), enter);
  }

  /** So a line that is no order is queued as it was typed, last, in the mode the
      session is in. */
  lemma TypedLineIsQueued(s: Console, text: string)
    requires s.editor.esc == Plain && Printable(text) && !s.work.busy && !s.host.awaiting
    requires Ordinary(s.editor.line + text, s.host.mode)
    ensures var t, whole := Feed(s, text + "\r"), s.editor.line + text;
            && t.host == s.host && t.editor.line == ""
            && t.work == s.work.(commands := s.work.commands + [Some(Command(whole, s.host.mode))])
  {
    EnterSubmitsTheLine(s, text, '\r');
    SubmitOrdinary(SetLine(s, s.editor.line + text), s.editor.line + text);
  }

  /** While a command runs the line waits, last, and nothing else changes. */
  lemma TypedAheadWaits(s: Console, text: string)
    requires s.editor.esc == Plain && Printable(text) && s.work.busy
    ensures Feed(s, text + "\r") ==
            SetLine(s, "").(work := s.work.(stdin := s.work.stdin + [s.editor.line + text]))
  {
    EnterSubmitsTheLine(s, text, '\r');
  }

  /** DEL and BS take back the last character; on an empty line they do nothing. */
  lemma EraseTakesBack(s: Console, c: char, erase: char)
    requires s.editor.esc == Plain && Printable([c]) && erase in "\U{7F}\U{08}"
    ensures Feed(s, [c, erase]) == s
    ensures s.editor.line == "" ==> Feed(s, [erase]) == s
  {
    var line := s.editor.line;
    assert [c][0] == c && [c, erase] == [c] + [erase];
    FeedBoth(s, [c], [erase]);
    TypedText(s, [c]);
    FeedOne(SetLine(s, line + [c]), erase);
    FeedOne(s, erase);
    assert (line + [c])[..|line|] == line;
  }

  /** Ctrl+D leaves the interpreter, and only that, from an empty line of an idle
      session; other controls do nothing. */
  lemma ControlKeys(s: Console, c: char)
    requires s.editor.esc == Plain && c < ' ' && c !in "\r\n\U{03}\U{08}\U{1B}"
    ensures var t := Handle(s, c);
            if c == '\U{04}' && s.host.mode == Repl && s.editor.line == "" && !s.work.busy then
              t == s.(host := t.host) && t.host.mode == Shell && t.host.block == []
            else t == s
  {
  }

  // -------------------------------------------------------- orders of the user

  /** The words that are orders to the session. */
  lemma WordsMean(line: string)
    ensures Meaning(line) == Blank <==> line == ""
    ensures Meaning(line) == Setup <==> line == "linux-setup"
    ensures Meaning(line) == ReplEnter <==> line == "python" || line == "python3"
    ensures Meaning(line) == AlpineEnter <==> line == "linux" || line == "alpine"
    ensures Meaning(line) == ReplExit <==> line in ["exit", "quit", "exit()", "quit()"]
  {
    assert "" != "linux-setup" && "python" != "python3" && |"linux"| != |"linux-setup"|;
  }

  /** What an idle session makes of them: nothing is queued, and the mode or the
      screen changes. */
  lemma OrdersAreObeyed(s: Console, line: string)
    requires !s.work.busy && !s.host.awaiting
    ensures var t, word := Submit(s, line), Meaning(Strip(line));
            && (word == ReplEnter && s.host.mode == Shell ==> t.work == s.work && t.host == s.host.(mode := Repl))
            && (word == ReplExit && s.host.mode == Repl ==>
                t.work == s.work && t.host == s.host.(mode := Shell, block := []))
            && (word == AlpineEnter && s.host.mode == Shell ==> t.work == s.work && t.host == EnterPty(s.host, false))
            && (word == Blank ==>
                t.work.commands == s.work.commands +
                  if s.host.block != [] then [Some(Command(line, s.host.mode))] else [])
  {
    assert s.work.commands + [] == s.work.commands;
  }

  /** Before Alpine is ready only `linux-setup` is taken. */
  lemma SetupIsTaken(s: Console, line: string)
    requires !s.work.busy && s.host.awaiting && Meaning(Strip(line)) != Blank
    ensures var t := Submit(s, line);
            && t.host == s.host
            && t.work.commands == s.work.commands +
                 if Meaning(Strip(line)) == Setup then [Some(Command(line, Shell))] else []
  {
    assert s.work.commands + [] == s.work.commands;
  }

  /** Entering the PTY: exactly when the session runs, has none and is idle, and
      nothing fails. */
  lemma EntersPty(h: Host, busy: bool)
    ensures var t := EnterPty(h, busy);
            && (t.inPty <==> h.inPty || (h.running && !busy && h.coming != [] && h.coming[0] == Spawned))
            && (t.inPty && !h.inPty ==> t.mode == Shell)
            && (h.coming != [] && t.coming == h.coming[1..] && h.coming[0] == NoFork ==> t.mode == Shell)
            && (h.running && !h.inPty && !busy && h.coming != [] ==> t.coming == h.coming[1..])
            && t == h.(inPty := t.inPty, mode := t.mode, coming := t.coming)
  {
  }

  /** The toggle leaves the PTY, or enters it; a PTY that ends gives up the screen, or
      is replaced by a fresh one. Nothing else changes. */
  lemma ToggleMeans(s: Console)
    requires s.host.running
    ensures var ready := !s.work.busy && s.host.coming != [] && s.host.coming[0] == Spawned;
            var t, left, again := Step(s, Toggle), Step(s, PtyExits(false)), Step(s, PtyExits(true));
            && (t.host.inPty <==> !s.host.inPty && ready)
            && !left.host.inPty
            && (again.host.inPty <==> s.host.inPty && ready)
            && (t.editor, t.work) == (left.editor, left.work) == (again.editor, again.work) == (s.editor, s.work)
    ensures Step(s.(host := s.host.(running := false)), Toggle) == s.(host := s.host.(running := false))
  {
  }

  /** Once the setup command finds Alpine ready, its finish enters Alpine. */
  lemma SetupOpensAlpine(s: Console, python: bool)
    requires s.work.stage.Running? && !s.work.flag && s.host.awaiting && s.host.running && !s.host.inPty
    requires s.host.coming != [] && s.host.coming[0] == Spawned
    ensures var t := Step(Step(s, Render(python, true)), Finish);
            t.host.inPty && !t.host.awaiting && !t.host.handoff && t.host.mode == Shell && t.work.stdin == s.work.stdin
  {
    var r := Step(s, Render(python, true));
    assert r.work == s.work && r.host.handoff && !r.host.awaiting;
    FinishDecides(r);
    EntersPty(r.host.(handoff := false), false);
  }

  /** What a result does to an open block, and what waiting for more of it. */
  lemma BlocksGrowAndClose(s: Console, ready: bool)
    requires s.work.stage.Running?
    ensures Step(s, AwaitMore).host.block == s.host.block + [s.work.stage.command.line]
    ensures !Step(s, AwaitMore).work.busy
    ensures Step(s, Render(true, ready)).host.block == [] && Step(s, Render(false, ready)).host.block == s.host.block
  {
  }

  /** Stopping gives up line, block and screen, interrupts the command, and ends the
      worker: none it takes afterwards is run. */
  lemma StopMeans(s: Console)
    ensures var t := Step(s, Stop);
            && !t.host.running && !t.host.inPty && t.host.block == [] && t.editor == s.editor.(line := "")
            && t.work == Interrupt(s.work).(commands := s.work.commands + [None])
    ensures !s.host.running ==> !Step(s, Take).work.stage.Taken? || s.work.stage.Taken?
  {
  }

  // ---------------------------------------------------------- first come first

  /** What a step queues, and what the worker takes from the queue. */
  function Queued(s: Console, op: Op): seq<Option<Command>> {
    var before, after := s.work.commands, Step(s, op).work.commands;
    if !op.Take? && |before| <= |after| then after[|before|..] else []
  }

  function Served(s: Console, op: Op): seq<Option<Command>> {
    if op.Take? && s.work.stage.Waiting? && s.work.commands != [] then [s.work.commands[0]] else []
  }

  lemma SubmitQueues(s: Console, line: string)
    ensures s.work.commands <= Submit(s, line).work.commands
  {
  }

  lemma {:induction false} SubmitAllQueues(s: Console, lines: seq<string>)
    ensures s.work.commands <= SubmitAll(s, lines).work.commands
    decreases |lines|
  {
    if lines != [] {
      SubmitQueues(s, lines[0]);
      SubmitAllQueues(Submit(s, lines[0]), lines[1..]);
    }
  }

  lemma HandleQueues(s: Console, c: char)
    ensures s.work.commands <= Handle(s, c).work.commands
  {
    SubmitQueues(s, s.editor.line);
  }

  /** The worker takes the oldest command, and no other step takes any; it runs what
      it took, or ends at the poison pill or once stopped. */
  lemma TakesTheOldest(s: Console, op: Op)
    ensures var t := Step(s, op);
            && (!op.Take? ==> s.work.commands <= t.work.commands)
            && (op.Take? ==> s.work.commands == Served(s, op) + t.work.commands)
            && (Served(s, op) != [] ==>
                t.work.stage == if Served(s, op)[0].Some? && s.host.running then Taken(Served(s, op)[0].value) else Gone)
  {
    if op.Type? {
      HandleQueues(s, op.c);
    } else if op.Finish? {
      SubmitAllQueues(s.(work := Idle(s.work).(stdin := [])), s.work.stdin);
    }
  }

  function QueuedIn(s: Console, ops: seq<Op>): seq<Option<Command>> {
    if ops == [] then []
    else QueuedIn(s, ops[..|ops| - 1]) + Queued(Run(s, ops[..|ops| - 1]), ops[|ops| - 1])
  }

  function ServedIn(s: Console, ops: seq<Op>): seq<Option<Command>> {
    if ops == [] then []
    else ServedIn(s, ops[..|ops| - 1]) + Served(Run(s, ops[..|ops| - 1]), ops[|ops| - 1])
  }

  lemma ServedStep(before: seq<Option<Command>>, queued: seq<Option<Command>>, served: seq<Option<Command>>,
                   now: seq<Option<Command>>, more: seq<Option<Command>>, taken: seq<Option<Command>>,
                   after: seq<Option<Command>>)
    requires before + queued == served + now && now + more == taken + after
    ensures before + (queued + more) == (served + taken) + after
  {
    ThreeParts(before, queued, more);
    ThreeParts(served, now, more);
    ThreeParts(served, taken, after);
  }

  /** Over every run commands are served in the order they were queued, each once. */
  lemma {:induction false} RunServesInOrder(s: Console, ops: seq<Op>)
    ensures s.work.commands + QueuedIn(s, ops) == ServedIn(s, ops) + Run(s, ops).work.commands
  {
    if ops == [] {
      assert s.work.commands + [] == [] + s.work.commands;
    } else {
      var front, op := ops[..|ops| - 1], ops[|ops| - 1];
      var t := Run(s, front);
      RunServesInOrder(s, front);
      TakesTheOldest(t, op);
      assert t.work.commands + Queued(t, op) == Served(t, op) + Step(t, op).work.commands;
      ServedStep(s.work.commands, QueuedIn(s, front), ServedIn(s, front), t.work.commands, Queued(t, op), Served(t, op),
                 Step(t, op).work.commands);
    }
  }

  // --------------------------------------------------------- the editor, always

  predicate AllPrintable(lines: seq<string>) {
    forall i | 0 <= i < |lines| :: Printable(lines[i])
  }

  predicate Kept(s: Console) {
    Tidy(s.editor) && AllPrintable(s.work.stdin)
  }

  lemma SubmitKeeps(s: Console, line: string)
    requires Kept(s) && Printable(line)
    ensures Kept(Submit(s, line))
  {
    StripSettles(line);
    RememberKeeps(s.editor, Strip(line));
  }

  lemma {:induction false} SubmitAllKeeps(s: Console, lines: seq<string>)
    requires Kept(s) && AllPrintable(lines)
    ensures Kept(SubmitAll(s, lines))
    decreases |lines|
  {
    if lines != [] {
      SubmitKeeps(s, lines[0]);
      SubmitAllKeeps(Submit(s, lines[0]), lines[1..]);
    }
  }

  lemma LineKeeps(s: Console, line: string)
    requires Kept(s) && Printable(line)
    ensures Kept(SetLine(s, line))
  {
  }

  lemma PressKeeps(s: Console, c: char)
    requires Kept(s)
    ensures Kept(Press(s, c))
  {
    var line := s.editor.line;
    if c == '\r' || c == '\n' {
      SubmitKeeps(s, line);
      LineKeeps(Submit(s, line), "");
    } else if c >= ' ' && c != '\U{7F}' {
      LineKeeps(s, line + [c]);
    } else if line != "" {
      LineKeeps(s, line[..|line| - 1]);
    }
  }

  lemma ArrowKeeps(s: Console, c: char)
    requires Kept(s)
    ensures Kept(Arrow(s, c))
  {
    BrowseKeeps(s.editor, true);
    BrowseKeeps(s.editor, false);
  }

  lemma HandleKeeps(s: Console, c: char)
    requires Kept(s)
    ensures Kept(Handle(s, c))
  {
    ArrowKeeps(s, c);
    PressKeeps(s, c);
  }

  lemma FinishedKeeps(s: Console)
    requires Kept(s)
    ensures Kept(Finished(s))
  {
    SubmitAllKeeps(s.(work := Idle(s.work).(stdin := [])), s.work.stdin);
  }

  lemma StepKeepsEditor(s: Console, op: Op)
    requires Kept(s)
    ensures Kept(Step(s, op))
  {
    if op.Type? {
      HandleKeeps(s, op.c);
    } else if op.Finish? {
      FinishedKeeps(s);
    }
  }

  /** In every run the line holds no character of an escape sequence or other
      control, the history is orderly, and the history position in range. */
  lemma {:induction false} RunKeepsEditor(s: Console, ops: seq<Op>)
    requires Kept(s)
    ensures Kept(Run(s, ops))
  {
    if ops != [] {
      RunKeepsEditor(s, ops[..|ops| - 1]);
      StepKeepsEditor(Run(s, ops[..|ops| - 1]), ops[|ops| - 1]);
    }
  }

  // ----------------------------------------------------------- the interrupt

  /** What the latch tells the worker: an interrupt since the snapshot is never
      wiped, one before it never mistaken for a new one. */
  predicate Latched(w: Work) {
    match w.stage
    case Noted(_, snapshot) => !w.busy && snapshot <= w.epoch && (w.epoch > snapshot ==> w.flag)
    case Marked(_, snapshot) => w.busy && snapshot <= w.epoch && (w.epoch > snapshot ==> w.flag)
    case Running(_, snapshot, caught) => snapshot <= w.epoch && (w.flag <==> w.epoch > snapshot || caught)
    case _ => !w.busy
  }

  /** Whether a step is an interrupt. */
  predicate Interrupts(s: Console, op: Op) {
    op.Stop? || (op.Type? && op.c == '\U{03}' && s.editor.esc == Plain && s.work.busy)
  }

  /** What a character may do to the work: interrupt it, type ahead, or queue a
      command. */
  lemma HandleAndWork(s: Console, c: char)
    ensures var w := Handle(s, c).work;
            || (Interrupts(s, Type(c)) && w == Interrupt(s.work))
            || (!Interrupts(s, Type(c)) && SameButCommands(s.work, w))
            || (TypesAhead(s, Type(c)) && w == s.work.(stdin := s.work.stdin + [s.editor.line]))
  {
  }

  predicate TypesAhead(s: Console, op: Op) {
    op.Type? && op.c in "\r\n" && s.editor.esc == Plain && s.work.busy
  }

  lemma {:induction false} SubmitAllQuiet(s: Console, lines: seq<string>)
    requires !s.work.busy
    ensures SameButCommands(s.work, SubmitAll(s, lines).work)
    decreases |lines|
  {
    if lines != [] {
      SubmitAllQuiet(Submit(s, lines[0]), lines[1..]);
    }
  }

  /** An interrupted command discards what was typed ahead; the hand-off to Alpine
      leaves it; otherwise all of it is submitted. */
  lemma FinishedWork(s: Console)
    ensures var w := Finished(s).work;
            SameButCommands(Idle(s.work).(flag := false, stdin := w.stdin), w)
    ensures Finished(s).work.stdin == if !s.work.flag && s.host.handoff then s.work.stdin else []
  {
    SubmitAllQuiet(s.(work := Idle(s.work).(stdin := [])), s.work.stdin);
  }

  lemma StepKeepsLatch(s: Console, op: Op)
    requires Latched(s.work)
    ensures Latched(Step(s, op).work)
    ensures Step(s, op).work.epoch == s.work.epoch + if Interrupts(s, op) then 1 else 0
  {
    if op.Type? {
      HandleAndWork(s, op.c);
    } else if op.Finish? {
      FinishedWork(s);
    }
  }

  function InterruptsIn(s: Console, ops: seq<Op>): nat {
    if ops == [] then 0
    else
      InterruptsIn(s, ops[..|ops| - 1]) + if Interrupts(Run(s, ops[..|ops| - 1]), ops[|ops| - 1]) then 1 else 0
  }

  lemma {:induction false} RunKeepsLatch(s: Console, ops: seq<Op>)
    requires Latched(s.work)
    ensures Latched(Run(s, ops).work) && Run(s, ops).work.epoch == s.work.epoch + InterruptsIn(s, ops)
  {
    if ops != [] {
      RunKeepsLatch(s, ops[..|ops| - 1]);
      StepKeepsLatch(Run(s, ops[..|ops| - 1]), ops[|ops| - 1]);
    }
  }

  /** The snapshot a command was started with. */
  predicate Since(w: Work, snapshot: nat) {
    (w.stage.Noted? || w.stage.Marked? || w.stage.Running?) ==> w.stage.snapshot == snapshot
  }

  lemma {:induction false} SnapshotStays(s: Console, ops: seq<Op>, snapshot: nat)
    requires !s.work.stage.Taken? && !s.work.stage.Waiting? && Since(s.work, snapshot)
    requires forall i | 0 <= i < |ops| :: !ops[i].Finish?
    ensures var w := Run(s, ops).work; !w.stage.Taken? && !w.stage.Waiting? && Since(w, snapshot)
  {
    if ops != [] {
      var front := ops[..|ops| - 1];
      SnapshotStays(s, front, snapshot);
      SnapshotStep(Run(s, front), ops[|ops| - 1], snapshot);
    }
  }

  lemma SnapshotStep(s: Console, op: Op, snapshot: nat)
    requires !s.work.stage.Taken? && !s.work.stage.Waiting? && Since(s.work, snapshot) && !op.Finish?
    ensures var w := Step(s, op).work; !w.stage.Taken? && !w.stage.Waiting? && Since(w, snapshot)
  {
    if op.Type? {
      HandleAndWork(s, op.c);
    }
  }

  /** Whatever happens between a command's snapshot and its finish, the worker sees
      there that it was interrupted exactly when an interrupt came in between, or it
      met one as an exception. */
  lemma FinishSeesInterrupts(s: Console, ops: seq<Op>)
    requires Latched(s.work) && s.work.stage.Noted? && s.work.stage.snapshot == s.work.epoch
    requires forall i | 0 <= i < |ops| :: !ops[i].Finish?
    requires Run(s, ops).work.stage.Running?
    ensures var w := Run(s, ops).work;
            w.flag <==> InterruptsIn(s, ops) > 0 || w.stage.caught
  {
    RunKeepsLatch(s, ops);
    SnapshotStays(s, ops, s.work.epoch);
  }

  /** Ctrl+C is an interrupt only while the session is busy: between a command's
      snapshot and the moment it is marked busy, and once a block waits for more, it
      only clears the line and the block. */
  lemma CtrlCInterruptsTheBusy(s: Console)
    requires Latched(s.work) && s.editor.esc == Plain
    ensures var t := Step(s, Type('\U{03}'));
            && t.editor == s.editor.(line := "") && t.host == s.host.(block := [])
            && t.work == (if s.work.busy then Interrupt(s.work) else s.work)
    ensures s.work.stage.Taken? || s.work.stage.Noted? ==> !s.work.busy
  {
  }

  // ------------------------------------------------ an interrupt that is missed

  const CTRL_C := Type('\U{03}')

  /** A command is submitted and taken; Ctrl+C comes after its snapshot and before it
      is marked; another line is typed while it runs. */
  function MissedRun(): seq<Op> {
    [Type('x'), Type('\r'), Take, Note] + [CTRL_C] + [MarkBusy, ClearLatch, Type('y'), Type('\r')]
  }

  lemma RunJoined(s: Console, ops: seq<Op>, more: seq<Op>)
    ensures Run(s, ops + more) == Run(Run(s, ops), more)
    decreases |more|
  {
    if more == [] {
      assert ops + [] == ops;
    } else {
      var front := more[..|more| - 1];
      RunJoined(s, ops, front);
      assert (ops + more)[..|ops + more| - 1] == ops + front;
    }
  }

  lemma RunThen(s: Console, ops: seq<Op>, op: Op)
    ensures Run(s, ops + [op]) == Step(Run(s, ops), op)
  {
    assert (ops + [op])[..|ops|] == ops;
  }

  lemma RunFour(s: Console, a: Op, b: Op, c: Op, d: Op)
    ensures Run(s, [a, b, c, d]) == Step(Step(Step(Step(s, a), b), c), d)
  {
    assert [a] == [] + [a] && [a, b] == [a] + [b] && [a, b, c] == [a, b] + [c] && [a, b, c, d] == [a, b, c] + [d];
    RunThen(s, [], a);
    RunThen(s, [a], b);
    RunThen(s, [a, b], c);
    RunThen(s, [a, b, c], d);
  }

  lemma PlainLetters()
    ensures Strip("x") == "x" && Meaning("x") == Other && Strip("y") == "y" && Meaning("y") == Other
  {
    StrippedAlready("x");
    StrippedAlready("y");
  }

  /** The state in which the Ctrl+C comes. */
  function NotedX(): Console {
    var e := Editor("", Plain, ["x"], None, "");
    Console(e, Started(false, []).host,
            Work(false, false, 0, [], [], Noted(Command("x", Shell), 0)))
  }

  lemma ReachesNotedX()
    ensures Run(Started(false, []), [Type('x'), Type('\r'), Take, Note]) == NotedX()
  {
    var s := Started(false, []);
    RunFour(s, Type('x'), Type('\r'), Take, Note);
    PlainLetters();
    var typed := Step(s, Type('x'));
    assert typed == SetLine(s, "x");
    var sent := Step(typed, Type('\r'));
    assert sent.work == Queue(s.work, "x", Shell) && sent.host == s.host;
    assert sent.editor == Editor("", Plain, ["x"], None, "");
    assert [Some(Command("x", Shell))][1..] == [];
  }

  lemma UnmarkedCtrlC(s: Console)
    requires Latched(s.work) && !s.work.busy && s.editor.esc == Plain && s.editor.line == "" && s.host.block == []
    ensures Step(s, CTRL_C) == s
  {
    CtrlCInterruptsTheBusy(s);
  }

  lemma RunOne(s: Console, op: Op)
    ensures Run(s, [op]) == Step(s, op)
  {
    assert [op][..0] == [];
  }

  lemma MissedThere()
    ensures Run(NotedX(), [CTRL_C]) == NotedX()
  {
    UnmarkedCtrlC(NotedX());
    RunOne(NotedX(), CTRL_C);
  }

  lemma RunsOn()
    ensures var s := Run(NotedX(), [MarkBusy, ClearLatch, Type('y'), Type('\r')]);
            s == NotedX().(work := Work(true, false, 0, [], ["y"], Running(Command("x", Shell), 0, false)))
  {
    RunFour(NotedX(), MarkBusy, ClearLatch, Type('y'), Type('\r'));
    var busy := Step(Step(NotedX(), MarkBusy), ClearLatch);
    assert busy == NotedX().(work := Work(true, false, 0, [], [], Running(Command("x", Shell), 0, false)));
    assert Step(busy, Type('y')) == SetLine(busy, "y");
    assert [] + ["y"] == ["y"];
  }

  /** In this run the Ctrl+C after the snapshot leaves no trace: the command finishes
      as if there had been none, and what was typed ahead becomes the next command. */
  lemma CtrlCCanBeMissed()
    ensures var s := Run(Started(false, []), MissedRun());
            && s.work.stage == Running(Command("x", Shell), 0, false)
            && !s.work.flag && s.work.epoch == 0 && s.work.stdin == ["y"]
            && Step(s, Finish).work == Work(false, false, 0, [Some(Command("y", Shell))], [], Waiting)
  {
    var start: Console := Started(false, []);
    var first := [Type('x'), Type('\r'), Take, Note];
    var rest := [MarkBusy, ClearLatch, Type('y'), Type('\r')];
    ReachesNotedX();
    RunJoined(start, first, [CTRL_C]);
    MissedThere();
    RunJoined(start, first + [CTRL_C], rest);
    RunsOn();
    var s := Run(start, MissedRun());
    FinishesWith(s);
  }

  lemma FinishesWith(s: Console)
    requires s == NotedX().(work := Work(true, false, 0, [], ["y"], Running(Command("x", Shell), 0, false)))
    ensures Step(s, Finish).work == Work(false, false, 0, [Some(Command("y", Shell))], [], Waiting)
  {
    PlainLetters();
    var idle := s.(work := Idle(s.work).(stdin := []));
    assert ["y"][1..] == [];
    assert SubmitAll(idle, ["y"]) == Submit(idle, "y");
    assert [] + [Some(Command("y", Shell))] == [Some(Command("y", Shell))];
  }

  /** A command that finishes interrupted discards what was typed ahead and resets
      the latch; else the hand-off leaves it waiting; else all of it is submitted, in
      typing order, by a session that is no longer busy. */
  lemma FinishDecides(s: Console)
    requires s.work.stage.Running?
    ensures var t := Step(s, Finish);
            && !t.work.busy && !t.work.flag && t.work.stage == Waiting
            && (s.work.flag ==> t.work.stdin == [] && t.work.commands == s.work.commands && t.host == s.host)
            && (!s.work.flag && s.host.handoff ==>
                t.work.stdin == s.work.stdin && t.host == EnterPty(s.host.(handoff := false), false))
            && (!s.work.flag && !s.host.handoff ==>
                t == SubmitAll(s.(work := Idle(s.work).(stdin := [])), s.work.stdin) && t.work.stdin == [])
  {
    FinishedWork(s);
  }

  // ---------------------------------------------------- lines typed ahead

  /** What becomes of a line typed while a command runs. */
  datatype Fate = Input(line: string) | Submitted(line: string) | Discarded(line: string)

  function Typed(s: Console, op: Op): seq<string> {
    if TypesAhead(s, op) then [s.editor.line] else []
  }

  function AllSubmitted(lines: seq<string>): (r: seq<Fate>)
    ensures |r| == |lines| && forall i | 0 <= i < |r| :: r[i] == Submitted(lines[i])
  {
    seq(|lines|, i requires 0 <= i < |lines| => Submitted(lines[i]))
  }

  function AllDiscarded(lines: seq<string>): (r: seq<Fate>)
    ensures |r| == |lines| && forall i | 0 <= i < |r| :: r[i] == Discarded(lines[i])
  {
    seq(|lines|, i requires 0 <= i < |lines| => Discarded(lines[i]))
  }

  /** The lines a step takes from those typed ahead, and what it does with them. */
  function Fates(s: Console, op: Op): seq<Fate> {
    var w := s.work;
    if !w.stage.Running? then []
    else if op.ReadInput? && !w.flag && s.host.running && w.stdin != [] then [Input(w.stdin[0])]
    else if op.Finish? && w.flag then AllDiscarded(w.stdin)
    else if op.Finish? && !s.host.handoff then AllSubmitted(w.stdin)
    else []
  }

  function TypedIn(s: Console, ops: seq<Op>): seq<string> {
    if ops == [] then []
    else TypedIn(s, ops[..|ops| - 1]) + Typed(Run(s, ops[..|ops| - 1]), ops[|ops| - 1])
  }

  function FatesIn(s: Console, ops: seq<Op>): seq<Fate> {
    if ops == [] then []
    else FatesIn(s, ops[..|ops| - 1]) + Fates(Run(s, ops[..|ops| - 1]), ops[|ops| - 1])
  }

  function Lines(fates: seq<Fate>): (r: seq<string>)
    ensures |r| == |fates| && forall i | 0 <= i < |r| :: r[i] == fates[i].line
  {
    seq(|fates|, i requires 0 <= i < |fates| => fates[i].line)
  }

  lemma StepConserves(s: Console, op: Op)
    ensures s.work.stdin + Typed(s, op) == Lines(Fates(s, op)) + Step(s, op).work.stdin
  {
    if op.Type? {
      HandleAndWork(s, op.c);
    } else if op.Finish? {
      FinishedWork(s);
    }
  }

  lemma Conserved(typed: seq<string>, more: seq<string>, fates: seq<Fate>, further: seq<Fate>,
                  before: seq<string>, after: seq<string>)
    requires typed == Lines(fates) + before && before + more == Lines(further) + after
    ensures typed + more == Lines(fates + further) + after
  {
    assert Lines(fates + further) == Lines(fates) + Lines(further);
    assert typed + more == Lines(fates) + (before + more);
  }

  /** Over every run, in typing order: every line typed while a command ran, or
      waiting before, was read by `input()`, submitted, or discarded, once; the rest
      is still waiting. */
  lemma {:induction false} RunConserves(s: Console, ops: seq<Op>)
    ensures s.work.stdin + TypedIn(s, ops) == Lines(FatesIn(s, ops)) + Run(s, ops).work.stdin
  {
    if ops == [] {
      assert s.work.stdin + [] == [] + s.work.stdin;
    } else {
      var front, op := ops[..|ops| - 1], ops[|ops| - 1];
      RunConserves(s, front);
      var t := Run(s, front);
      StepConserves(t, op);
      Conserved(s.work.stdin + TypedIn(s, front), Typed(t, op), FatesIn(s, front), Fates(t, op), t.work.stdin,
                Run(s, ops).work.stdin);
      ThreeParts(s.work.stdin, TypedIn(s, front), Typed(t, op));
    }
  }

  /** A line is discarded only as an interrupted command finishes, one that was
      interrupted since its snapshot. */
  lemma DiscardedWhenInterrupted(s: Console, op: Op, fate: Fate)
    requires Latched(s.work) && fate in Fates(s, op)
    ensures fate.Discarded? <==>
            op.Finish? && s.work.stage.Running? &&
            (s.work.epoch > s.work.stage.snapshot || s.work.stage.caught)
  {
  }

  /** From a command's snapshot to its finish, whatever comes between: after an
      interrupt in between, or one met as an exception, all that is then typed ahead
      is discarded, and nothing is submitted; otherwise it waits for the hand-off, or
      all of it is submitted. Up to there each line typed ahead was read by `input()`
      or is among these, in typing order. */
  lemma InterruptDecides(s: Console, ops: seq<Op>)
    requires Latched(s.work) && s.work.stage.Noted? && s.work.stage.snapshot == s.work.epoch
    requires forall i | 0 <= i < |ops| :: !ops[i].Finish?
    requires Run(s, ops).work.stage.Running?
    ensures var t, u := Run(s, ops), Run(s, ops + [Finish]);
            && s.work.stdin + TypedIn(s, ops) == Lines(FatesIn(s, ops)) + t.work.stdin
            && (forall f | f in FatesIn(s, ops) :: f.Input?)
            && if InterruptsIn(s, ops) > 0 || t.work.stage.caught then
                 && FatesIn(s, ops + [Finish]) == FatesIn(s, ops) + AllDiscarded(t.work.stdin)
                 && u.work.stdin == [] && u.work.commands == t.work.commands && u.host == t.host
               else if t.host.handoff then
                 FatesIn(s, ops + [Finish]) == FatesIn(s, ops) && u.work.stdin == t.work.stdin
               else
                 && FatesIn(s, ops + [Finish]) == FatesIn(s, ops) + AllSubmitted(t.work.stdin)
                 && u == SubmitAll(t.(work := Idle(t.work).(stdin := [])), t.work.stdin) && u.work.stdin == []
  {
    FinishSeesInterrupts(s, ops);
    RunConserves(s, ops);
    OnlyInputBefore(s, ops);
    FinishDecides(Run(s, ops));
    RunThenFinish(s, ops);
  }

  lemma RunThenFinish(s: Console, ops: seq<Op>)
    ensures Run(s, ops + [Finish]) == Step(Run(s, ops), Finish)
    ensures FatesIn(s, ops + [Finish]) == FatesIn(s, ops) + Fates(Run(s, ops), Finish)
    ensures FatesIn(s, ops) + [] == FatesIn(s, ops)
  {
    assert (ops + [Finish])[..|ops|] == ops;
  }

  lemma {:induction false} OnlyInputBefore(s: Console, ops: seq<Op>)
    requires forall i | 0 <= i < |ops| :: !ops[i].Finish?
    ensures forall f | f in FatesIn(s, ops) :: f.Input?
  {
    if ops != [] {
      OnlyInputBefore(s, ops[..|ops| - 1]);
    }
  }

  // -------------------------------------------- type-ahead becomes commands

  /** A line that is neither blank nor an order to the session in this mode. */
  predicate Ordinary(line: string, mode: Mode) {
    match Meaning(Strip(line))
    case Blank => false
    case ReplEnter => mode == Repl
    case AlpineEnter => mode == Repl
    case ReplExit => mode == Shell
    case _ => true
  }

  function CommandsFrom(lines: seq<string>, mode: Mode): seq<Option<Command>> {
    seq(|lines|, i requires 0 <= i < |lines| => Some(Command(lines[i], mode)))
  }

  lemma SubmitOrdinary(s: Console, line: string)
    requires !s.work.busy && !s.host.awaiting && Ordinary(line, s.host.mode)
    ensures Submit(s, line) == Console(Remember(s.editor, Strip(line)), s.host, Queue(s.work, line, s.host.mode))
  {
  }

  /** Ordinary lines typed ahead become the next commands, in order, in the mode the
      session is in, behind those already queued; nothing else of the session but
      the history changes. */
  lemma {:induction false} OrdinaryLinesAreQueued(s: Console, lines: seq<string>)
    requires !s.work.busy && !s.host.awaiting && forall i | 0 <= i < |lines| :: Ordinary(lines[i], s.host.mode)
    ensures var r := SubmitAll(s, lines);
            && r.host == s.host
            && r.work == s.work.(commands := s.work.commands + CommandsFrom(lines, s.host.mode))
    decreases |lines|
  {
    if lines == [] {
      assert s.work.commands + CommandsFrom(lines, s.host.mode) == s.work.commands;
    } else {
      var next := Submit(s, lines[0]);
      SubmitOrdinary(s, lines[0]);
      CommandsStep(s.work.commands, lines, s.host.mode);
      OrdinaryLinesAreQueued(next, lines[1..]);
    }
  }

  lemma CommandsStep(before: seq<Option<Command>>, lines: seq<string>, mode: Mode)
    requires lines != []
    ensures (before + [Some(Command(lines[0], mode))]) + CommandsFrom(lines[1..], mode) ==
            before + CommandsFrom(lines, mode)
  {
  }

  // ----------------------------------------------------------- the setup gate

  predicate Allowed(command: Command) {
    command.mode == Shell && Meaning(Strip(command.line)) in {Setup, Blank}
  }

  predicate AllAllowed(commands: seq<Option<Command>>) {
    forall i | 0 <= i < |commands| :: commands[i].Some? ==> Allowed(commands[i].value)
  }

  /** Until Alpine is ready no command but `linux-setup` is queued or run, blank
      lines aside, and no other mode is entered. */
  predicate Gated(s: Console) {
    s.host.awaiting ==>
      && s.host.mode == Shell
      && AllAllowed(s.work.commands)
      && (s.work.stage.Waiting? || s.work.stage.Gone? || Allowed(s.work.stage.command))
  }

  lemma SubmitIsGated(s: Console, line: string)
    requires Gated(s)
    ensures Gated(Submit(s, line))
  {
  }

  lemma {:induction false} SubmitAllIsGated(s: Console, lines: seq<string>)
    requires Gated(s)
    ensures Gated(SubmitAll(s, lines))
    decreases |lines|
  {
    if lines != [] {
      SubmitIsGated(s, lines[0]);
      SubmitAllIsGated(Submit(s, lines[0]), lines[1..]);
    }
  }

  lemma HandleIsGated(s: Console, c: char)
    requires Gated(s)
    ensures Gated(Handle(s, c))
  {
    SubmitIsGated(s, s.editor.line);
  }

  lemma FinishedIsGated(s: Console)
    requires Gated(s)
    ensures Gated(Finished(s))
  {
    SubmitAllIsGated(s.(work := Idle(s.work).(stdin := [])), s.work.stdin);
  }

  lemma StepIsGated(s: Console, op: Op)
    requires Gated(s)
    ensures Gated(Step(s, op)) && (Step(s, op).host.awaiting ==> s.host.awaiting)
  {
    if op.Type? {
      HandleIsGated(s, op.c);
      AwaitingStays(s, op.c);
    } else if op.Finish? {
      FinishedIsGated(s);
      AwaitingStaysAll(s.(work := Idle(s.work).(stdin := [])), s.work.stdin);
    }
  }

  lemma AwaitingStays(s: Console, c: char)
    ensures Handle(s, c).host.awaiting == s.host.awaiting
  {
  }

  lemma AwaitingStaysOnce(s: Console, line: string)
    ensures Submit(s, line).host.awaiting == s.host.awaiting
  {
  }

  lemma {:induction false} AwaitingStaysAll(s: Console, lines: seq<string>)
    ensures SubmitAll(s, lines).host.awaiting == s.host.awaiting
    decreases |lines|
  {
    if lines != [] {
      AwaitingStaysOnce(s, lines[0]);
      AwaitingStaysAll(Submit(s, lines[0]), lines[1..]);
    }
  }

  lemma {:induction false} RunIsGated(s: Console, ops: seq<Op>)
    requires Gated(s)
    ensures Gated(Run(s, ops)) && (Run(s, ops).host.awaiting ==> s.host.awaiting)
  {
    if ops != [] {
      RunIsGated(s, ops[..|ops| - 1]);
      StepIsGated(Run(s, ops[..|ops| - 1]), ops[|ops| - 1]);
    }
  }

  // --------------------------------------------------------- from the start

  /** Everything above holds of every run of a session from its start. */
  lemma SessionsKeep(awaiting: bool, coming: seq<Entry>, ops: seq<Op>)
    ensures var s := Started(awaiting, coming);
            && Kept(Run(s, ops)) && Latched(Run(s, ops).work) && Gated(Run(s, ops))
            && Run(s, ops).work.epoch == InterruptsIn(s, ops)
            && TypedIn(s, ops) == Lines(FatesIn(s, ops)) + Run(s, ops).work.stdin
  {
    var s := Started(awaiting, coming);
    RunKeepsEditor(s, ops);
    RunKeepsLatch(s, ops);
    RunConserves(s, ops);
    assert [] + TypedIn(s, ops) == TypedIn(s, ops);
    RunIsGated(s, ops);
  }
}

/** The console as it changes in place. */
module Consoles {
  import opened Wrappers
  import opened Text
  import opened LineEditing
  import opened ConsoleModel

  class ConsoleSession {
    var line: string
    var esc: Esc
    var history: seq<string>
    var index: Option<nat>
    var stash: string

    var running: bool
    var inPty: bool
    var mode: Mode
    var block: seq<string>
    var awaiting: bool
    var handoff: bool
    var coming: seq<Entry>

    var busy: bool
    var flag: bool
    var epoch: nat
    var commands: seq<Option<Command>>
    var stdin: seq<string>
    var stage: Stage

    function EditorView(): Editor
      reads this
    {
      Editor(line, esc, history, index, stash)
    }

    function HostView(): Host
      reads this
    {
      Host(running, inPty, mode, block, awaiting, handoff, coming)
    }

    function WorkView(): Work
      reads this
    {
      Work(busy, flag, epoch, commands, stdin, stage)
    }

    function View(): Console
      reads this
    {
      Console(EditorView(), HostView(), WorkView())
    }

    constructor (awaiting: bool, coming: seq<Entry>)
      ensures View() == Started(awaiting, coming)
    {
      line, esc, history, index, stash := "", Plain, [], None, "";
      running, inPty, mode, block, handoff := true, false, Shell, [], false;
      this.awaiting, this.coming := awaiting, coming;
      busy, flag, epoch, commands, stdin, stage := false, false, 0, [], [], Waiting;
    }

    // -------------------------------------------------------------- history

    method BrowseHistory(up: bool)
      modifies this`line, this`index, this`stash
      ensures View() == HistoryStep(old(View()), up)
    {
      if busy || history == [] {
        return;
      }
      var at: int := index.GetOr(|history|);
      if index.None? {
        if !up {
          return;
        }
        stash := line;
      }
      var next: int := at + if up then -1 else 1;
      if next >= |history| {
        index := None;
        line := stash;
        return;
      }
      var i := if next < 0 then 0 else next;
      index := Some(i);
      line := history[i];
    }

    method RecordHistory(entry: string)
      modifies this`history, this`index
      ensures EditorView() == Remember(old(EditorView()), entry)
    {
      if entry != "" && (history == [] || history[|history| - 1] != entry) {
        history := history + [entry];
        if |history| > HISTORY_LIMIT {
          history := history[|history| - HISTORY_LIMIT..];
        }
      }
      index := None;
    }

    // ------------------------------------------------------------ submission

    method EnterAlpine()
      modifies this`coming, this`mode, this`inPty
      ensures HostView() == EnterPty(old(HostView()), busy)
    {
      if !running || inPty || busy || coming == [] {
        return;
      }
      var entry := coming[0];
      coming := coming[1..];
      if entry.NotReady? {
        return;
      }
      mode := Shell;
      inPty := entry.Spawned?;
    }

    method SubmitLine(text: string)
      modifies this
      ensures View() == Submit(old(View()), text)
    {
      if busy {
        stdin := stdin + [text];
        return;
      }
      var stripped := Strip(text);
      var word := Meaning(stripped);
      if word.Blank? {
        if block != [] {
          commands := commands + [Some(Command(text, mode))];
        }
        return;
      }
      RecordHistory(stripped);
      DispatchLine(text, word);
    }

    method DispatchLine(text: string, word: Word)
      modifies this`commands, this`mode, this`block, this`coming, this`inPty
      ensures View() == Dispatch(old(View()), text, word)
    {
      if awaiting {
        if word.Setup? {
          commands := commands + [Some(Command(text, Shell))];
        }
      } else if mode == Shell && word.ReplEnter? {
        mode := Repl;
      } else if mode == Shell && word.AlpineEnter? {
        EnterAlpine();
      } else if mode == Repl && word.ReplExit? {
        mode, block := Shell, [];
      } else {
        commands := commands + [Some(Command(text, mode))];
      }
    }

    // -------------------------------------------------------------- keyboard

    method HandleChar(c: char)
      modifies this
      ensures View() == Handle(old(View()), c)
    {
      if esc != Plain || c == ESC {
        HandleEscapeChar(c);
      } else if c == '\U{03}' {
        InterruptCommand();
      } else if c == '\U{04}' {
        if mode == Repl && line == "" && !busy {
          mode, block := Shell, [];
        }
      } else if c == '\U{7F}' || c == '\U{08}' {
        if line != "" {
          line := line[..|line| - 1];
        }
      } else if c == '\r' || c == '\n' {
        SubmitLine(line);
        line := "";
      } else if c >= ' ' {
        line := line + [c];
      }
    }

    method InterruptCommand()
      modifies this
      ensures View() == InterruptRunning(old(View()))
    {
      line, block := "", [];
      if busy {
        InterruptShell();
      }
    }

    method InterruptShell()
      modifies this`epoch, this`flag
      ensures WorkView() == Interrupt(old(WorkView()))
    {
      epoch := epoch + 1;
      flag := true;
    }

    method HandleEscapeChar(c: char)
      requires esc != Plain || c == ESC
      modifies this`line, this`index, this`stash, this`esc
      ensures View() == HandleEscape(old(View()), c)
    {
      if esc == Plain {
        esc := Escape;
      } else if esc == Escape {
        esc := if c == '[' then Csi else if c == 'O' then Ss3 else Plain;
      } else if esc == Ss3 || IsFinal(c) {
        if c == 'A' {
          BrowseHistory(true);
        } else if c == 'B' {
          BrowseHistory(false);
        }
        esc := Plain;
      }
    }

    /** Keyboard input while no PTY owns the screen. */
    method WriteInput(text: string)
      modifies this
      ensures View() == if old(running) && !old(inPty) then Feed(old(View()), text) else old(View())
    {
      if !running || inPty {
        return;
      }
      ghost var start := View();
      for i := 0 to |text|
        invariant Feed(start, text) == Feed(View(), text[i..])
      {
        ghost var before := View();
        assert text[i..][1..] == text[i + 1..];
        HandleChar(text[i]);
        assert Feed(before, text[i..]) == Feed(View(), text[i + 1..]);
      }
    }

    // ---------------------------------------------------------------- worker

    method TakeCommand()
      modifies this`commands, this`stage
      ensures View() == Step(old(View()), Take)
    {
      if stage.Waiting? && commands != [] {
        var item := commands[0];
        commands := commands[1..];
        stage := if item.None? || !running then Gone else Taken(item.value);
      }
    }

    method NoteEpoch()
      modifies this`stage
      ensures View() == Step(old(View()), Note)
    {
      if stage.Taken? {
        stage := Noted(stage.command, epoch);
      }
    }

    method BecomeBusy()
      modifies this`busy, this`stage
      ensures View() == Step(old(View()), MarkBusy)
    {
      if stage.Noted? {
        busy := true;
        stage := Marked(stage.command, stage.snapshot);
      }
    }

    /** Only clears the latch when no interrupt came since the snapshot. */
    method ClearInterrupt()
      modifies this`flag, this`stage
      ensures View() == Step(old(View()), ClearLatch)
    {
      if stage.Marked? {
        if stage.snapshot == epoch {
          flag := false;
        }
        stage := Running(stage.command, stage.snapshot, false);
      }
    }

    /** `input()`: no line once interrupted or stopped, none before one is typed. */
    method ReadLine() returns (r: Option<string>)
      modifies this`stdin
      ensures View() == Step(old(View()), ReadInput)
      ensures old(stage).Running? ==> old(stdin) == (if r.Some? then [r.value] else []) + stdin
    {
      if !stage.Running? || flag || !running || stdin == [] {
        return None;
      }
      r := Some(stdin[0]);
      stdin := stdin[1..];
    }

    method AwaitBlock()
      modifies this`block, this`busy
      ensures View() == Step(old(View()), AwaitMore)
    {
      if stage.Running? {
        block := block + [stage.command.line];
        busy := false;
      }
    }

    method RenderResult(python: bool, ready: bool)
      modifies this`awaiting, this`handoff, this`block
      ensures View() == Step(old(View()), Render(python, ready))
    {
      if stage.Running? {
        if awaiting && ready {
          awaiting, handoff := false, true;
        }
        if python {
          block := [];
        }
      }
    }

    method CatchInterrupt()
      modifies this`flag, this`stage
      ensures View() == Step(old(View()), Catch)
    {
      if stage.Running? {
        flag := true;
        stage := stage.(caught := true);
      }
    }

    method FinishCommand()
      requires stage.Running?
      modifies this
      ensures View() == Finished(old(View()))
    {
      var interrupted := flag;
      BecomeIdle();
      if interrupted {
        DiscardTyped();
      } else if handoff {
        handoff := false;
        EnterAlpine();
      } else {
        SubmitLeftover();
      }
    }

    method BecomeIdle()
      modifies this`busy, this`stage
      ensures WorkView() == Idle(old(WorkView()))
    {
      busy, stage := false, Waiting;
    }

    method DiscardTyped()
      modifies this`stdin, this`flag
      ensures WorkView() == old(WorkView()).(stdin := [], flag := false)
    {
      stdin, flag := [], false;
    }

    method SubmitLeftover()
      modifies this
      ensures View() == SubmitAll(old(View()).(work := old(WorkView()).(stdin := [])), old(stdin))
    {
      var leftover := stdin;
      stdin := [];
      ghost var start := View();
      for i := 0 to |leftover|
        invariant SubmitAll(start, leftover) == SubmitAll(View(), leftover[i..])
      {
        ghost var before := View();
        assert leftover[i..][1..] == leftover[i + 1..];
        SubmitLine(leftover[i]);
        assert SubmitAll(before, leftover[i..]) == SubmitAll(View(), leftover[i + 1..]);
      }
    }

    // ------------------------------------------------------------- lifecycle

    method TogglePty()
      modifies this`coming, this`mode, this`inPty
      ensures View() == Step(old(View()), Toggle)
    {
      if !running {
        return;
      }
      if inPty {
        inPty := false;
      } else {
        EnterAlpine();
      }
    }

    method PtyExited(again: bool)
      modifies this`coming, this`mode, this`inPty
      ensures View() == Step(old(View()), PtyExits(again))
    {
      if inPty {
        inPty := false;
        if again {
          EnterAlpine();
        }
      }
    }

    method StopSession()
      modifies this
      ensures View() == Step(old(View()), Stop)
    {
      GiveUpTyping();
      PoisonWorker();
    }

    method GiveUpTyping()
      modifies this`running, this`line, this`block, this`inPty
      ensures EditorView() == old(EditorView()).(line := "")
      ensures HostView() == old(HostView()).(running := false, block := [], inPty := false)
    {
      running, line, block, inPty := false, "", [], false;
    }

    method PoisonWorker()
      modifies this`epoch, this`flag, this`commands
      ensures WorkView() == Interrupt(old(WorkView()).(commands := old(commands) + [None]))
    {
      InterruptShell();
      commands := commands + [None];
    }
  }
}
