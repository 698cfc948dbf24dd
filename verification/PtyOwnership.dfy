/** Who owns the real PTY (app/zmux/pty_session.py, app/zmux/realpty.py): spawning,
    the reader threads and their exit callbacks, toggling and stopping.

    Each step below is what one thread does without being interleaved: a method
    under the session lock, one stage of a reader thread. Spawning is two steps,
    because a reader runs before the session has taken the new PTY. */
module PtyModel {
  import opened Wrappers

  /** Where a reader thread is: in its loop, past it, past the reaping, inside the
      callback after clearing the current PTY, at its end. */
  datatype Phase = Reading | Ended | Reaped | Cleared | Finished

  /** What `waitpid` answers. */
  datatype Wait = NoChild | StillRunning | Status(code: int)

  /** A real PTY process. `lost` marks a callback that found no PTY to report. */
  datatype Pty = Pty(phase: Phase, exited: bool, killed: bool, code: Option<int>, lost: bool)

  const SPAWNED := Pty(Reading, false, false, None, false)

  /** `entering` is the PTY spawned and not yet taken; the session lock is held
      meanwhile. */
  datatype Owner = Owner(running: bool, busy: bool, current: Option<nat>, entering: Option<nat>, ptys: seq<Pty>)

  const STOPPED := Owner(false, false, None, None, [])

  /** Whether the environment is installed, its command line can be built, and the
      fork succeeds. */
  datatype Env = Env(installed: bool, argv: bool, fork: bool)

  datatype Op =
    | Start(auto: bool, env: Env)
    | Enter(env: Env)
    | Adopt
    | Toggle(env: Env)
    | Stop
    | EndReading(p: nat)
    | Reap(p: nat, first: Wait, second: Wait)
    | Fire(p: nat)
    | Resume(p: nat, again: bool, env: Env)
    | SetBusy(busy: bool)

  function Entered(s: Owner, env: Env): Owner {
    if !s.running || s.current.Some? || s.busy || !env.installed || !env.argv || !env.fork then s
    else s.(ptys := s.ptys + [SPAWNED], entering := Some(|s.ptys|))
  }

  /** The current PTY is killed and given up. */
  function Dropped(s: Owner): Owner {
    if s.current.None? then s
    else if s.current.value >= |s.ptys| then s.(current := None)
    else
      var p := s.current.value;
      s.(current := None, ptys := s.ptys[p := s.ptys[p].(killed := true, exited := true)])
  }

  predicate At(s: Owner, p: nat, phase: Phase) {
    p < |s.ptys| && s.ptys[p].phase == phase
  }

  function Moved(s: Owner, p: nat, phase: Phase): Owner
    requires p < |s.ptys|
  {
    s.(ptys := s.ptys[p := s.ptys[p].(phase := phase)])
  }

  /** A child that outlives the end of its output is killed, then waited for. */
  function ExitCode(first: Wait, second: Wait): Option<int> {
    match first
    case NoChild => None
    case Status(code) => Some(code)
    case StillRunning => if second.Status? then Some(second.code) else None
  }

  /** One step. A thread that needs the lock while it is held, or is elsewhere in
      its code, does nothing yet. */
  function Step(s: Owner, op: Op): Owner {
    match op
    case Start(auto, env) =>
      if s.entering.Some? || s.running then s
      else if auto then Entered(s.(running := true), env)
      else s.(running := true)
    case Enter(env) => if s.entering.Some? then s else Entered(s, env)
    case Adopt => if s.entering.Some? then s.(current := s.entering, entering := None) else s
    case Toggle(env) =>
      if s.entering.Some? || !s.running then s
      else if s.current.Some? then Dropped(s)
      else Entered(s, env)
    case Stop => if s.entering.Some? then s else Dropped(s).(running := false)
    case EndReading(p) =>
      if At(s, p, Reading) then s.(ptys := s.ptys[p := s.ptys[p].(phase := Ended, exited := true)]) else s
    case Reap(p, first, second) =>
      if At(s, p, Ended) then s.(ptys := s.ptys[p := s.ptys[p].(phase := Reaped, code := ExitCode(first, second))])
      else s
    case Fire(p) =>
      if !At(s, p, Reaped) then s
      else if s.entering == Some(p) then s.(ptys := s.ptys[p := s.ptys[p].(phase := Finished, lost := true)])
      else if s.entering.Some? then s
      else if s.current == Some(p) then Moved(s, p, Cleared).(current := None)
      else Moved(s, p, Finished)
    case Resume(p, again, env) =>
      if !At(s, p, Cleared) || s.entering.Some? then s
      else if again then Entered(Moved(s, p, Finished), env)
      else Moved(s, p, Finished)
    case SetBusy(busy) => s.(busy := busy)
  }

  function Run(s: Owner, ops: seq<Op>): Owner {
    if ops == [] then s else Step(Run(s, ops[..|ops| - 1]), ops[|ops| - 1])
  }

  // -------------------------------------------------------------- invariant

  predicate Owns(s: Owner, p: nat) {
    s.current == Some(p) || s.entering == Some(p)
  }

  /** The process is killed, or waited for. */
  predicate Over(pty: Pty) {
    pty.killed || !(pty.phase.Reading? || pty.phase.Ended?)
  }

  predicate Sane(s: Owner, p: nat)
    requires p < |s.ptys|
  {
    var pty := s.ptys[p];
    && (Owns(s, p) || Over(pty))
    && (Owns(s, p) ==> !pty.killed && !pty.phase.Cleared?)
    && (pty.killed || !pty.phase.Reading? ==> pty.exited)
    && (pty.lost ==> pty.phase.Finished?)
    && (Owns(s, p) && pty.phase.Finished? ==> pty.lost)
  }

  predicate Safe(s: Owner) {
    && (s.entering.Some? ==> s.running && s.current.None? && s.entering.value < |s.ptys|)
    && (s.current.Some? ==> s.running && s.current.value < |s.ptys|)
    && forall p | 0 <= p < |s.ptys| :: Sane(s, p)
  }

  lemma EnteredKeeps(s: Owner, env: Env)
    requires Safe(s) && s.entering.None?
    ensures Safe(Entered(s, env))
  {
    var t := Entered(s, env);
    forall p | 0 <= p < |t.ptys| ensures Sane(t, p) {
      if p < |s.ptys| {
        assert Sane(s, p);
      }
    }
  }

  lemma DroppedKeeps(s: Owner)
    requires Safe(s) && s.entering.None?
    ensures Safe(Dropped(s)) && Dropped(s).current.None?
    ensures |Dropped(s).ptys| == |s.ptys|
  {
    var t := Dropped(s);
    forall p | 0 <= p < |t.ptys| ensures Sane(t, p) {
      assert Sane(s, p);
    }
  }

  /** A reader that moves on: what it does to its own PTY keeps everything. */
  lemma ReaderKeeps(s: Owner, t: Owner, p: nat)
    requires Safe(s) && p < |s.ptys| == |t.ptys| && t.ptys == s.ptys[p := t.ptys[p]]
    requires t.running == s.running && t.entering == s.entering
    requires t.current == s.current || (t.current == None && s.current == Some(p))
    requires Sane(t, p)
    ensures Safe(t)
  {
    forall q | 0 <= q < |t.ptys| ensures Sane(t, q) {
      assert Sane(s, q);
    }
  }

  lemma ReadingKeeps(s: Owner, op: Op)
    requires Safe(s) && (op.EndReading? || op.Reap? || op.Fire?)
    ensures Safe(Step(s, op))
  {
    var t := Step(s, op);
    if t != s {
      assert Sane(s, op.p);
      ReaderKeeps(s, t, op.p);
    }
  }

  lemma StepKeeps(s: Owner, op: Op)
    requires Safe(s)
    ensures Safe(Step(s, op))
  {
    var t := Step(s, op);
    match op {
      case Start(auto, env) =>
        if t != s {
          StartingKeeps(s);
          if auto { EnteredKeeps(s.(running := true), env); }
        }
      case Enter(env) => if s.entering.None? { EnteredKeeps(s, env); }
      case Toggle(env) => TogglingKeeps(s, env);
      case Stop => if s.entering.None? { StoppingKeeps(s); }
      case Adopt => AdoptingKeeps(s);
      case SetBusy(busy) => SameOwner(s, t);
      case EndReading(_) => ReadingKeeps(s, op);
      case Reap(_, _, _) => ReadingKeeps(s, op);
      case Fire(_) => ReadingKeeps(s, op);
      case Resume(p, again, env) =>
        if At(s, p, Cleared) && s.entering.None? {
          assert Sane(s, p);
          ReaderKeeps(s, Moved(s, p, Finished), p);
          if again { EnteredKeeps(Moved(s, p, Finished), env); }
        }
    }
  }

  lemma SameOwner(s: Owner, t: Owner)
    requires Safe(s) && t.ptys == s.ptys && t.current == s.current && t.entering == s.entering
    requires s.running ==> t.running
    ensures Safe(t)
  {
    forall p | 0 <= p < |t.ptys| ensures Sane(t, p) {
      assert Sane(s, p);
    }
  }

  lemma StartingKeeps(s: Owner)
    requires Safe(s)
    ensures Safe(s.(running := true))
  {
    SameOwner(s, s.(running := true));
  }

  lemma StoppingKeeps(s: Owner)
    requires Safe(s) && s.entering.None?
    ensures Safe(Dropped(s).(running := false))
  {
    DroppedKeeps(s);
    var d := Dropped(s);
    var t := d.(running := false);
    forall p | 0 <= p < |t.ptys| ensures Sane(t, p) {
      assert Sane(d, p);
    }
  }

  lemma TogglingKeeps(s: Owner, env: Env)
    requires Safe(s)
    ensures Safe(Step(s, Toggle(env)))
  {
    if s.entering.None? && s.running {
      if s.current.Some? { DroppedKeeps(s); } else { EnteredKeeps(s, env); }
    }
  }

  lemma AdoptingKeeps(s: Owner)
    requires Safe(s)
    ensures Safe(Step(s, Adopt))
  {
    var t := Step(s, Adopt);
    forall p | 0 <= p < |t.ptys| ensures Sane(t, p) {
      assert Sane(s, p);
    }
  }

  // --------------------------------------------------------------- theorems

  /** In every run, a PTY that is not the session's is killed or waited for. */
  lemma {:induction false} RunKeeps(ops: seq<Op>)
    ensures Safe(Run(STOPPED, ops))
  {
    if ops != [] {
      RunKeeps(ops[..|ops| - 1]);
      StepKeeps(Run(STOPPED, ops[..|ops| - 1]), ops[|ops| - 1]);
    }
  }

  /** No two processes are ever alive together, and none once stopped. */
  lemma AtMostOneAlive(ops: seq<Op>, p: nat, q: nat)
    requires var s := Run(STOPPED, ops); p < |s.ptys| && q < |s.ptys| && !Over(s.ptys[p]) && !Over(s.ptys[q])
    ensures p == q && Run(STOPPED, ops).running
  {
    RunKeeps(ops);
    var s := Run(STOPPED, ops);
    assert Sane(s, p) && Sane(s, q);
  }

  /** The current PTY is given up only by its own callback, a toggle or a stop, and
      only when the lock is free: the callback of another PTY leaves it. */
  lemma CurrentChangesHands(s: Owner, op: Op, p: nat)
    requires Safe(s) && s.current == Some(p)
    ensures Step(s, op).current != Some(p) <==> op.Stop? || op.Toggle? || (op == Fire(p) && At(s, p, Reaped))
    ensures Step(s, op).current in {Some(p), None} && |Step(s, op).ptys| == |s.ptys|
  {
    assert Sane(s, p);
  }

  /** While stopped, nothing is spawned, and nothing owned, until the next start. */
  lemma {:induction false} QuietUntilStart(s: Owner, ops: seq<Op>)
    requires Safe(s) && !s.running && forall i | 0 <= i < |ops| :: !ops[i].Start?
    ensures var t := Run(s, ops);
            Safe(t) && !t.running && |t.ptys| == |s.ptys| && t.current.None? && t.entering.None?
  {
    if ops != [] {
      var front := ops[..|ops| - 1];
      QuietUntilStart(s, front);
      StepKeeps(Run(s, front), ops[|ops| - 1]);
      QuietStep(Run(s, front), ops[|ops| - 1]);
    }
  }

  lemma QuietStep(s: Owner, op: Op)
    requires Safe(s) && !s.running && !op.Start?
    ensures !Step(s, op).running && |Step(s, op).ptys| == |s.ptys|
  {
  }

  /** Stopping leaves no process that is not killed or waited for. */
  lemma StopEndsAll(s: Owner)
    requires Safe(s) && s.entering.None?
    ensures var t := Step(s, Stop);
            !t.running && t.current.None? && forall p | 0 <= p < |t.ptys| :: Over(t.ptys[p])
  {
    var t := Step(s, Stop);
    DroppedKeeps(s);
    StoppingKeeps(s);
    forall p | 0 <= p < |t.ptys| ensures Over(t.ptys[p]) {
      assert Sane(t, p);
    }
  }

  /** A PTY is spawned exactly when the session runs, is idle and has none, and
      nothing fails; taking it makes it the current one. */
  lemma EntersWhen(s: Owner, env: Env)
    requires s.entering.None?
    ensures var t := Step(s, Enter(env));
            if s.running && s.current.None? && !s.busy && env.installed && env.argv && env.fork then
              && t == s.(ptys := t.ptys, entering := Some(|s.ptys|)) && t.ptys == s.ptys + [SPAWNED]
              && Step(t, Adopt) == t.(entering := None, current := Some(|s.ptys|))
            else t == s
    ensures !s.running ==> Step(s, Start(false, env)) == s.(running := true)
    ensures !s.running ==> Step(s, Start(true, env)) == Step(s.(running := true), Enter(env))
    ensures s.running && s.current.None? ==> Step(s, Toggle(env)) == Step(s, Enter(env))
  {
  }

  /** The exit code is the status that was waited for; that of a survivor is the one
      after it was killed. */
  lemma ExitCodeMeans(s: Owner, p: nat, first: Wait, second: Wait)
    requires At(s, p, Ended)
    ensures var code := Step(s, Reap(p, first, second)).ptys[p].code;
            && (first.Status? ==> code == Some(first.code))
            && (first.StillRunning? && second.Status? ==> code == Some(second.code))
            && (first.NoChild? || (first.StillRunning? && !second.Status?) ==> code == None)
  {
  }

  /** A shell that ends while the session runs is replaced by a fresh one, which is
      then the current one. */
  lemma ShellIsReplaced(s: Owner, p: nat, code: int, env: Env)
    requires Safe(s) && s.current == Some(p) && At(s, p, Reading) && !s.busy
    requires env.installed && env.argv && env.fork
    ensures var ended := Step(Step(s, EndReading(p)), Reap(p, Status(code), NoChild));
            var t := Step(Step(Step(ended, Fire(p)), Resume(p, true, env)), Adopt);
            && t.current == Some(|s.ptys|) && |t.ptys| == |s.ptys| + 1 && t.ptys[|s.ptys|] == SPAWNED
            && t.ptys[p] == Pty(Finished, true, s.ptys[p].killed, Some(code), s.ptys[p].lost)
            && !Step(ended, Fire(p)).current.Some?
  {
    assert Sane(s, p);
  }

  // ------------------------------------------------------------ the readers

  datatype Event = Spawns(p: nat) | Ends(p: nat) | Reaps(p: nat) | Fires(p: nat)

  /** What a step adds to the record of what the readers did. */
  function Events(s: Owner, op: Op): seq<Event> {
    var t := Step(s, op);
    match op
    case EndReading(p) => if At(s, p, Reading) then [Ends(p)] else []
    case Reap(p, _, _) => if At(s, p, Ended) then [Reaps(p)] else []
    case Fire(p) => if At(s, p, Reaped) && !At(t, p, Reaped) then [Fires(p)] else []
    case _ => if |t.ptys| > |s.ptys| then [Spawns(|s.ptys|)] else []
  }

  function Trace(s: Owner, ops: seq<Op>): seq<Event> {
    if ops == [] then []
    else Trace(s, ops[..|ops| - 1]) + Events(Run(s, ops[..|ops| - 1]), ops[|ops| - 1])
  }

  function Of(events: seq<Event>, p: nat): seq<Event> {
    if events == [] then []
    else
      var last := events[|events| - 1];
      Of(events[..|events| - 1], p) + if last.p == p then [last] else []
  }

  function PhaseOf(s: Owner, p: nat): Option<Phase> {
    if p < |s.ptys| then Some(s.ptys[p].phase) else None
  }

  /** What the record says of a PTY whose reader has come this far. */
  function Story(phase: Option<Phase>, p: nat): seq<Event> {
    match phase
    case None => []
    case Some(Reading) => [Spawns(p)]
    case Some(Ended) => [Spawns(p), Ends(p)]
    case Some(Reaped) => [Spawns(p), Ends(p), Reaps(p)]
    case Some(_) => [Spawns(p), Ends(p), Reaps(p), Fires(p)]
  }

  function About(events: seq<Event>, p: nat): seq<Event> {
    if events != [] && events[0].p == p then events else []
  }

  lemma OfAppend(events: seq<Event>, more: seq<Event>, p: nat)
    requires |more| <= 1
    ensures Of(events + more, p) == Of(events, p) + About(more, p)
  {
    if more == [] {
      assert events + more == events;
    } else {
      assert (events + more)[..|events|] == events;
    }
  }

  predicate ByReader(op: Op) {
    op.EndReading? || op.Reap? || op.Fire?
  }

  lemma StoryOfReader(s: Owner, op: Op, p: nat)
    requires Safe(s) && ByReader(op)
    ensures Story(PhaseOf(Step(s, op), p), p) == Story(PhaseOf(s, p), p) + About(Events(s, op), p)
  {
    match op {
      case EndReading(q) => assert q != p ==> PhaseOf(Step(s, op), p) == PhaseOf(s, p);
      case Reap(q, _, _) => assert q != p ==> PhaseOf(Step(s, op), p) == PhaseOf(s, p);
      case Fire(q) => assert q != p ==> PhaseOf(Step(s, op), p) == PhaseOf(s, p);
    }
  }

  lemma EnteredPhases(s: Owner, env: Env, p: nat)
    ensures var t := Entered(s, env);
            if |t.ptys| > |s.ptys| && p == |s.ptys| then PhaseOf(t, p) == Some(Reading)
            else PhaseOf(t, p) == PhaseOf(s, p)
    ensures |Entered(s, env).ptys| <= |s.ptys| + 1
  {
  }

  /** The other steps spawn, or keep every reader where it is, or let one leave its
      callback. */
  lemma OtherPhases(s: Owner, op: Op, p: nat)
    requires Safe(s) && !ByReader(op)
    ensures var t := Step(s, op);
            if |t.ptys| > |s.ptys| && p == |s.ptys| then PhaseOf(t, p) == Some(Reading)
            else PhaseOf(t, p) == PhaseOf(s, p) || (PhaseOf(s, p) == Some(Cleared) && PhaseOf(t, p) == Some(Finished))
    ensures |s.ptys| <= |Step(s, op).ptys| <= |s.ptys| + 1
  {
    match op {
      case Start(_, env) => EnteredPhases(s.(running := true), env, p);
      case Enter(env) => EnteredPhases(s, env, p);
      case Toggle(env) => EnteredPhases(s, env, p);
      case Resume(q, _, env) =>
        if q < |s.ptys| {
          EnteredPhases(Moved(s, q, Finished), env, p);
        }
      case _ =>
    }
  }

  lemma StoryOfOthers(s: Owner, op: Op, p: nat)
    requires Safe(s) && !ByReader(op)
    ensures Story(PhaseOf(Step(s, op), p), p) == Story(PhaseOf(s, p), p) + About(Events(s, op), p)
  {
    OtherPhases(s, op, p);
  }

  /** In every run each PTY is spawned, ends, is reaped and fires its callback: in
      that order, each at most once. */
  lemma {:induction false} ReadersInOrder(ops: seq<Op>, p: nat)
    ensures Of(Trace(STOPPED, ops), p) == Story(PhaseOf(Run(STOPPED, ops), p), p)
  {
    if ops != [] {
      var front, op := ops[..|ops| - 1], ops[|ops| - 1];
      ReadersInOrder(front, p);
      RunKeeps(front);
      if ByReader(op) { StoryOfReader(Run(STOPPED, front), op, p); } else { StoryOfOthers(Run(STOPPED, front), op, p); }
      OfAppend(Trace(STOPPED, front), Events(Run(STOPPED, front), op), p);
    }
  }

  /** A callback that came before the PTY was taken is lost: a reader that is done
      leaves its PTY current in that case only, and then no step of a reader or an
      entering thread ever gives it up. */
  lemma FinishedCurrent(ops: seq<Op>, p: nat)
    requires Run(STOPPED, ops).current == Some(p)
    ensures var s := Run(STOPPED, ops);
            && p < |s.ptys|
            && (s.ptys[p].phase.Finished? <==> s.ptys[p].lost)
            && (s.ptys[p].lost ==>
                forall op: Op :: Step(s, op).current == Some(p) <==> !op.Stop? && !op.Toggle?)
  {
    var s := Run(STOPPED, ops);
    RunKeeps(ops);
    assert Sane(s, p);
    forall op: Op | s.ptys[p].lost
      ensures Step(s, op).current == Some(p) <==> !op.Stop? && !op.Toggle?
    {
      CurrentChangesHands(s, op, p);
    }
  }

  /** Such a run exists: the child ends before the session has taken its PTY. */
  lemma CallbackCanBeLost()
    ensures var env := Env(true, true, true);
            var ops := [Start(true, env), EndReading(0), Reap(0, Status(127), NoChild), Fire(0), Adopt];
            var s := Run(STOPPED, ops);
            s.current == Some(0) && s.ptys == [Pty(Finished, true, false, Some(127), true)]
  {
    var env := Env(true, true, true);
    var ops := [Start(true, env), EndReading(0), Reap(0, Status(127), NoChild), Fire(0), Adopt];
    assert ops[..4][..3] == ops[..3] && ops[..3][..2] == ops[..2] && ops[..2][..1] == ops[..1] && ops[..1][..0] == [];
    assert Run(STOPPED, ops[..1]) == Owner(true, false, None, Some(0), [SPAWNED]);
    assert Run(STOPPED, ops[..2]).ptys == [SPAWNED.(phase := Ended, exited := true)];
    assert Run(STOPPED, ops[..3]).ptys == [Pty(Reaped, true, false, Some(127), false)];
    assert Run(STOPPED, ops[..4]).ptys == [Pty(Finished, true, false, Some(127), true)];
  }
}

/** The session and its PTYs as they change in place. */
module PtyOwnership {
  import opened Wrappers
  import opened PtyModel

  class PtySession {
    var running: bool
    var busy: bool
    var current: Option<nat>
    var entering: Option<nat>
    var ptys: seq<Pty>

    function View(): Owner
      reads this
    {
      Owner(running, busy, current, entering, ptys)
    }

    constructor ()
      ensures View() == STOPPED
    {
      running, busy, current, entering, ptys := false, false, None, None, [];
    }

    /** SIGKILL to the process group, then the master is closed. */
    method Kill(p: nat)
      requires p < |ptys|
      modifies this`ptys
      ensures ptys == old(ptys)[p := old(ptys)[p].(killed := true, exited := true)]
    {
      ptys := ptys[p := ptys[p].(killed := true)];
      ptys := ptys[p := ptys[p].(exited := true)];
    }

    method StartSession(auto: bool, env: Env)
      modifies this
      ensures View() == Step(old(View()), Start(auto, env))
    {
      if entering.Some? || running {
        return;
      }
      running := true;
      if auto {
        EnterLinuxPty(env);
      }
    }

    method EnterLinuxPty(env: Env)
      modifies this
      ensures View() == Step(old(View()), Enter(env))
    {
      if entering.Some? {
        return;
      }
      if !running || current.Some? || busy {
        return;
      }
      if !env.installed || !env.argv || !env.fork {
        return;
      }
      entering := Some(|ptys|);
      ptys := ptys + [SPAWNED];
    }

    /** The callback can name the PTY from here on, and the lock is released. */
    method AdoptPty()
      modifies this
      ensures View() == Step(old(View()), Adopt)
    {
      if entering.Some? {
        current, entering := entering, None;
      }
    }

    method LeaveLinuxPty()
      requires current.Some? ==> current.value < |ptys|
      modifies this
      ensures View() == Dropped(old(View()))
    {
      var pty := current;
      current := None;
      if pty.Some? {
        Kill(pty.value);
      }
    }

    method TogglePty(env: Env)
      requires Safe(View())
      modifies this
      ensures View() == Step(old(View()), Toggle(env)) && Safe(View())
    {
      StepKeeps(View(), Toggle(env));
      if entering.Some? || !running {
        return;
      }
      if current.Some? {
        LeaveLinuxPty();
      } else {
        EnterLinuxPty(env);
      }
    }

    method StopSession()
      requires Safe(View())
      modifies this
      ensures View() == Step(old(View()), Stop) && Safe(View())
      ensures entering.None? ==> forall p | 0 <= p < |ptys| :: Over(ptys[p])
    {
      ghost var before := View();
      StepKeeps(before, Stop);
      if entering.Some? {
        return;
      }
      StopEndsAll(before);
      running := false;
      LeaveLinuxPty();
    }

    /** The reader's loop is over: end of file, an error, or a closed master. */
    method ReaderEnds(p: nat)
      modifies this
      ensures View() == Step(old(View()), EndReading(p))
    {
      if p < |ptys| && ptys[p].phase.Reading? {
        ptys := ptys[p := ptys[p].(phase := Ended, exited := true)];
      }
    }

    method ReapChild(p: nat, first: Wait, second: Wait)
      modifies this
      ensures View() == Step(old(View()), Reap(p, first, second))
    {
      if p >= |ptys| || !ptys[p].phase.Ended? {
        return;
      }
      var status := first;
      if first.StillRunning? {
        status := second;
      }
      var code := if status.Status? then Some(status.code) else None;
      ptys := ptys[p := ptys[p].(phase := Reaped, code := code)];
    }

    method PtyExited(p: nat)
      modifies this
      ensures View() == Step(old(View()), Fire(p))
    {
      if p >= |ptys| || !ptys[p].phase.Reaped? {
        return;
      }
      if entering == Some(p) {
        ptys := ptys[p := ptys[p].(phase := Finished, lost := true)];
      } else if entering.None? {
        if current != Some(p) {
          ptys := ptys[p := ptys[p].(phase := Finished)];
        } else {
          current := None;
          ptys := ptys[p := ptys[p].(phase := Cleared)];
        }
      }
    }

    /** The rest of the callback: a fresh shell takes the place of the old one. */
    method ReplacePty(p: nat, again: bool, env: Env)
      modifies this
      ensures View() == Step(old(View()), Resume(p, again, env))
    {
      if p >= |ptys| || !ptys[p].phase.Cleared? || entering.Some? {
        return;
      }
      ptys := ptys[p := ptys[p].(phase := Finished)];
      if again {
        EnterLinuxPty(env);
      }
    }
  }
}
