/** The terminal tabs (app/zmux/sessions.py): which session is on the client's
    screen, and what the client has been sent. */
module SessionModel {
  import opened Octets
  import opened Sequences
  import opened Wrappers
  import opened ControlFilter
  import opened TerminalOutput

  const MAX_SESSIONS: nat := 8

  /** A broadcast to the client: the screen reset, or bytes to display. */
  datatype Broadcast = Reset | Display(data: Bytes)

  datatype Manager = Manager(
    sessions: map<nat, Session>,
    order: seq<nat>,
    active: Option<nat>,
    counter: nat,
    cols: nat,
    rows: nat,
    wire: seq<Broadcast>)

  const EMPTY := Manager(map[], [], None, 0, 80, 24, [])

  /** The bytes the client was sent since it was last told to reset. */
  function Screen(wire: seq<Broadcast>): Bytes {
    if wire == [] then []
    else match wire[|wire| - 1]
      case Reset => []
      case Display(data) => Screen(wire[..|wire| - 1]) + data
  }

  function Resized(s: Session, cols: nat, rows: nat): Session {
    s.(cols := if cols > 0 then cols else s.cols, rows := if rows > 0 then rows else s.rows)
  }

  /** A session emits; only the active one reaches the client. A session that is
      no longer in the map can still emit, into a scrollback nobody can reach. */
  function EmitFrom(m: Manager, id: nat, data: Bytes): Manager {
    if id !in m.sessions then m
    else
      var s := m.sessions[id];
      var shown := Shown(s.output, data);
      m.(sessions := m.sessions[id := s.(output := Emitted(s.output, data), raw := s.raw + data)],
         wire := if shown != [] && m.active == Some(id) then m.wire + [Display(shown)] else m.wire)
  }

  /** What the new session emits while it starts are the emit steps that follow. */
  function Created(m: Manager, activate: bool): Option<Manager> {
    if |m.sessions| >= MAX_SESSIONS then None else Some(Added(m, activate))
  }

  function Added(m: Manager, activate: bool): Manager {
    var id := m.counter + 1;
    m.(counter := id,
       sessions := m.sessions[id := Resized(Session(FRESH, [], 80, 24, true), m.cols, m.rows)],
       order := m.order + [id],
       active := if activate || m.active.None? then Some(id) else m.active,
       wire := if activate && m.active.Some? then m.wire + [Reset] else m.wire)
  }

  function Switched(m: Manager, id: nat): Manager {
    if id !in m.sessions || m.active == Some(id) then m
    else
      var s := Resized(m.sessions[id], m.cols, m.rows);
      m.(active := Some(id),
         sessions := m.sessions[id := s],
         wire := m.wire + [Reset] +
                 if s.output.scrollback != [] then [Display(s.output.scrollback)] else [])
  }

  function IndexOf(order: seq<nat>, id: nat): nat {
    if order == [] || order[0] == id then 0 else 1 + IndexOf(order[1..], id)
  }

  function Without(order: seq<nat>, id: nat): seq<nat> {
    if order == [] then []
    else if order[0] == id then order[1..]
    else [order[0]] + Without(order[1..], id)
  }

  /** The tab that takes over: the right neighbour, or the last one left. */
  function Successor(order: seq<nat>, id: nat): Option<nat> {
    var rest, i := Without(order, id), IndexOf(order, id);
    if rest == [] then None else Some(rest[if i < |rest| then i else |rest| - 1])
  }

  function Removed(m: Manager, id: nat): Manager {
    m.(sessions := m.sessions - {id}, order := Without(m.order, id))
  }

  function Closed(m: Manager, id: nat): Option<Manager> {
    if id !in m.sessions then None
    else
      var rest := Removed(m, id);
      var next := if m.active == Some(id) then Successor(m.order, id) else m.active;
      if next.None? then Created(rest.(active := None), true)
      else if m.active == Some(id) then Some(Switched(rest.(active := None), next.value))
      else Some(rest)
  }

  function ResizedAll(m: Manager, cols: int, rows: int): Manager {
    if cols <= 0 || rows <= 0 then m
    else
      var m := m.(cols := cols, rows := rows);
      match m.active
      case None => m
      case Some(a) =>
        if a !in m.sessions then m
        else m.(sessions := m.sessions[a := Resized(m.sessions[a], cols, rows)])
  }

  datatype Op =
    | Create(activate: bool)
    | Switch(id: nat)
    | Close(id: nat)
    | Resize(cols: int, rows: int)
    | Emit(id: nat, data: Bytes)

  /** A refused operation changes nothing. */
  function Step(m: Manager, op: Op): Manager
    requires Consistent(m)
  {
    match op
    case Create(activate) => Created(m, activate).GetOr(m)
    case Switch(id) => Switched(m, id)
    case Close(id) => Closed(m, id).GetOr(m)
    case Resize(cols, rows) => ResizedAll(m, cols, rows)
    case Emit(id, data) => EmitFrom(m, id, data)
  }

  /** Tab numbers in creation order: ascending, without repeats, after `above`
      and up to `bound`. */
  predicate Ascending(order: seq<nat>, above: nat, bound: nat) {
    order == [] || (above < order[0] <= bound && Ascending(order[1..], order[0], bound))
  }

  function Elements(order: seq<nat>): set<nat> {
    if order == [] then {} else {order[0]} + Elements(order[1..])
  }

  /** The order list enumerates the session map in creation order within the cap,
      and no scrollback exceeds its own. */
  predicate Orderly(m: Manager) {
    && m.sessions.Keys == Elements(m.order)
    && Ascending(m.order, 0, m.counter)
    && |m.order| <= MAX_SESSIONS
    && m.cols > 0 && m.rows > 0
    && (forall id | id in m.sessions :: |m.sessions[id].output.scrollback| <= SCROLLBACK_MAX)
  }

  /** Moreover the active tab exists whenever any does, with the window's geometry. */
  predicate Consistent(m: Manager) {
    && Orderly(m)
    && match m.active
       case None => m.order == []
       case Some(a) => a in m.sessions && m.sessions[a].cols == m.cols && m.sessions[a].rows == m.rows
  }

  /** What the client shows is what the active session would replay. */
  predicate Agrees(m: Manager) {
    match m.active
    case None => Screen(m.wire) == []
    case Some(a) =>
      a in m.sessions && Last(Screen(m.wire), SCROLLBACK_MAX) == m.sessions[a].output.scrollback
  }

  lemma {:induction false} ElementsAreIn(order: seq<nat>)
    ensures forall id :: id in Elements(order) <==> id in order
  {
    if order != [] {
      ElementsAreIn(order[1..]);
    }
  }

  lemma {:induction false} AscendingAbove(order: seq<nat>, above: nat, bound: nat)
    requires Ascending(order, above, bound)
    ensures forall id | id in Elements(order) :: above < id <= bound
    ensures |Elements(order)| == |order|
  {
    if order != [] {
      AscendingAbove(order[1..], order[0], bound);
    }
  }

  /** In plain words: earlier tabs have smaller numbers, so none repeats. */
  lemma {:induction false} AscendingMeans(order: seq<nat>, above: nat, bound: nat, i: nat, j: nat)
    requires Ascending(order, above, bound) && i < j < |order|
    ensures above < order[i] < order[j] <= bound
  {
    if i > 0 {
      AscendingMeans(order[1..], order[0], bound, i - 1, j - 1);
    } else {
      AscendingAbove(order[1..], order[0], bound);
      ElementsAreIn(order[1..]);
      assert order[j] == order[1..][j - 1];
      assert order[1..][j - 1] in order[1..];
    }
  }

  lemma {:induction false} AscendingPush(order: seq<nat>, above: nat, bound: nat, id: nat)
    requires Ascending(order, above, bound) && id > bound >= above
    ensures Ascending(order + [id], above, id)
    ensures Elements(order + [id]) == Elements(order) + {id}
  {
    if order == [] {
      assert order + [id] == [id];
    } else {
      assert (order + [id])[1..] == order[1..] + [id];
      AscendingPush(order[1..], order[0], bound, id);
    }
  }

  lemma {:induction false} AscendingWithout(order: seq<nat>, above: nat, bound: nat, id: nat)
    requires Ascending(order, above, bound) && id in Elements(order)
    ensures Ascending(Without(order, id), above, bound)
    ensures Elements(Without(order, id)) == Elements(order) - {id}
    ensures |Without(order, id)| == |order| - 1
  {
    AscendingAbove(order[1..], order[0], bound);
    if order[0] == id {
      AscendingLower(order[1..], order[0], bound, above);
    } else {
      AscendingWithout(order[1..], order[0], bound, id);
    }
  }

  lemma AscendingLower(order: seq<nat>, above: nat, bound: nat, lower: nat)
    requires Ascending(order, above, bound) && lower <= above
    ensures Ascending(order, lower, bound)
  {
  }

  lemma EmitConsistent(m: Manager, id: nat, data: Bytes)
    requires Consistent(m)
    ensures var m' := EmitFrom(m, id, data);
            Consistent(m') && m' == m.(sessions := m'.sessions, wire := m'.wire)
  {
    if id in m.sessions {
      assert EmitFrom(m, id, data).sessions.Keys == m.sessions.Keys;
    }
  }

  lemma EmitAgrees(m: Manager, id: nat, data: Bytes)
    requires Agrees(m)
    ensures Agrees(EmitFrom(m, id, data))
  {
    if id in m.sessions && m.active == Some(id) {
      var s := m.sessions[id];
      var shown := Shown(s.output, data);
      LastOfAppend(Screen(m.wire), shown, SCROLLBACK_MAX);
      if shown == [] {
        assert Screen(m.wire) + [] == Screen(m.wire);
      } else {
        ScreenAppend(m.wire, shown);
      }
    }
  }

  lemma EmitKeeps(m: Manager, id: nat, data: Bytes)
    requires Consistent(m)
    ensures var m' := EmitFrom(m, id, data);
            && Consistent(m') && (Agrees(m) ==> Agrees(m'))
            && m' == m.(sessions := m'.sessions, wire := m'.wire)
  {
    EmitConsistent(m, id, data);
    if Agrees(m) {
      EmitAgrees(m, id, data);
    }
  }

  lemma FreshRecords()
    ensures Records(FRESH, [])
  {
    assert Scan([], STORAGE_SETUP_OSC) == Filtered([], [], 0);
  }

  lemma AddedOrderly(m: Manager, activate: bool)
    requires Orderly(m) && |m.order| < MAX_SESSIONS
    ensures Orderly(Added(m, activate))
  {
    var added, id := Added(m, activate), m.counter + 1;
    AscendingPush(m.order, 0, m.counter, id);
    assert added.sessions.Keys == m.sessions.Keys + {id};
  }

  lemma AddedKeeps(m: Manager, activate: bool)
    requires Consistent(m) && |m.order| < MAX_SESSIONS
    ensures Consistent(Added(m, activate))
    ensures Agrees(m) ==> Agrees(Added(m, activate))
  {
    AddedOrderly(m, activate);
    AscendingAbove(m.order, 0, m.counter);
    assert activate && m.active.Some? ==> Screen(m.wire + [Reset]) == [];
  }

  /** A new tab is refused exactly at the cap. */
  lemma CreatedUpToTheCap(m: Manager, activate: bool)
    requires Consistent(m)
    ensures Created(m, activate) == if |m.order| == MAX_SESSIONS then None else Some(Added(m, activate))
  {
    AscendingAbove(m.order, 0, m.counter);
    assert |m.sessions| == |m.sessions.Keys|;
  }

  /** Switching repaints the client from the target's scrollback, whatever was
      on its screen before. */
  lemma SwitchedKeeps(m: Manager, id: nat)
    requires Orderly(m) && id in m.sessions && m.active != Some(id)
    ensures var m' := Switched(m, id);
            && Consistent(m') && Agrees(m') && m'.active == Some(id)
            && m'.order == m.order && m'.counter == m.counter
  {
    var m' := Switched(m, id);
    var s := m.sessions[id];
    assert m'.sessions.Keys == m.sessions.Keys;
    var cleared := m.wire + [Reset];
    assert Screen(cleared) == [];
    if s.output.scrollback != [] {
      assert (cleared + [Display(s.output.scrollback)])[..|cleared|] == cleared;
      assert m'.wire == cleared + [Display(s.output.scrollback)];
    } else {
      assert m'.wire == cleared;
    }
  }

  predicate ClosesOnly(m: Manager, op: Op) {
    op.Close? && m.order == [op.id]
  }

  lemma RemovedOrderly(m: Manager, id: nat)
    requires Orderly(m) && id in m.sessions
    ensures Orderly(Removed(m, id))
    ensures Removed(m, id).order == [] <==> m.order == [id]
  {
    AscendingWithout(m.order, 0, m.counter, id);
    assert Removed(m, id).sessions.Keys == m.sessions.Keys - {id};
    assert |m.order| == 1 ==> m.order == [m.order[0]];
  }

  lemma {:induction false} RestByIndex(order: seq<nat>, above: nat, bound: nat, id: nat, i: nat)
    requires Ascending(order, above, bound) && i < |order| && order[i] == id
    ensures IndexOf(order, id) == i && Without(order, id) == order[..i] + order[i + 1..]
  {
    if i == 0 {
      assert [] + order[1..] == order[1..];
    } else {
      AscendingMeans(order, above, bound, 0, i);
      RestByIndex(order[1..], order[0], bound, id, i - 1);
      assert [order[0]] + (order[1..][..i - 1] + order[1..][i..]) == order[..i] + order[i + 1..];
    }
  }

  /** The tab that takes over, by index: the right neighbour, else the left one. */
  lemma SuccessorByIndex(order: seq<nat>, above: nat, bound: nat, i: nat)
    requires Ascending(order, above, bound) && i < |order|
    ensures Successor(order, order[i]) ==
            if i + 1 < |order| then Some(order[i + 1]) else if i > 0 then Some(order[i - 1]) else None
  {
    RestByIndex(order, above, bound, order[i], i);
    var rest := order[..i] + order[i + 1..];
    assert i + 1 < |order| ==> rest[i] == order[i + 1];
    assert i > 0 ==> rest[i - 1] == order[i - 1];
  }

  /** Closing the tab at index `i` takes just it out. If it was on screen, its right
      neighbour comes on screen, or else the left one. */
  lemma ClosedByIndex(m: Manager, i: nat)
    requires Consistent(m) && i < |m.order| && |m.order| > 1
    ensures m.order[i] in m.sessions
    ensures var r := Closed(m, m.order[i]);
            && r.Some? && r.value.order == m.order[..i] + m.order[i + 1..]
            && r.value.active ==
               if m.active != Some(m.order[i]) then m.active
               else if i + 1 < |m.order| then Some(m.order[i + 1])
               else Some(m.order[i - 1])
  {
    ElementsAreIn(m.order);
    RestByIndex(m.order, 0, m.counter, m.order[i], i);
    SuccessorByIndex(m.order, 0, m.counter, i);
    ClosedKeeps(m, m.order[i]);
  }

  /** A new tab is numbered and put last; it comes on screen if it is to, or if none
      was. */
  lemma CreatedMeans(m: Manager, activate: bool)
    requires Consistent(m) && |m.order| < MAX_SESSIONS
    ensures Created(m, activate).Some?
    ensures var t := Created(m, activate).value;
            && t.order == m.order + [m.counter + 1] && t.counter == m.counter + 1 && t.counter in t.sessions
            && t.active == (if activate || m.active == None then Some(t.counter) else m.active)
            && t.sessions[t.counter].output == FRESH
            && (t.sessions[t.counter].cols, t.sessions[t.counter].rows) == (m.cols, m.rows)
  {
    CreatedUpToTheCap(m, activate);
  }

  /** A resize to a real size is the window's from then on, and that of the tab on
      screen; any other changes nothing. */
  lemma ResizedMeans(m: Manager, cols: int, rows: int)
    requires Consistent(m)
    ensures var t := ResizedAll(m, cols, rows);
            if cols <= 0 || rows <= 0 then t == m
            else
              && (t.cols, t.rows) == (cols, rows)
              && (m.active.Some? ==>
                  m.active.value in t.sessions
                  && (t.sessions[m.active.value].cols, t.sessions[m.active.value].rows) == (cols, rows))
  {
  }

  /** What one tab does is nothing to the others: unless it is closed or emits, a
      session keeps what it recorded. */
  lemma SessionsAreApart(m: Manager, op: Op, id: nat)
    requires Consistent(m) && id in m.sessions && op != Close(id) && !(op.Emit? && op.id == id)
    ensures var t := Step(m, op);
            && id in t.sessions
            && t.sessions[id].output == m.sessions[id].output && t.sessions[id].raw == m.sessions[id].raw
  {
    if op.Create? {
      AscendingAbove(m.order, 0, m.counter);
    } else if op.Close? && op.id in m.sessions {
      CloseIsApart(m, op.id, id);
    }
  }

  lemma CloseIsApart(m: Manager, closed: nat, id: nat)
    requires Consistent(m) && id in m.sessions && closed in m.sessions && closed != id
    ensures var r := Closed(m, closed);
            && r.Some? && id in r.value.sessions
            && r.value.sessions[id].output == m.sessions[id].output && r.value.sessions[id].raw == m.sessions[id].raw
  {
    assert m.order != [closed] by {
      ElementsAreIn(m.order);
      assert id in m.order;
    }
    ClosedKeeps(m, closed);
  }

  /** Closing a tab hands over to its right neighbour, or to the last one left ... */
  lemma ClosedKeeps(m: Manager, id: nat)
    requires Consistent(m) && id in m.sessions && m.order != [id]
    ensures var r := Closed(m, id);
            && r.Some?
            && Consistent(r.value) && (Agrees(m) ==> Agrees(r.value))
            && r.value.order == Without(m.order, id) != []
            && r.value.counter == m.counter
            && r.value.active == (if m.active == Some(id) then Successor(m.order, id) else m.active)
  {
    RemovedOrderly(m, id);
    var rest := Removed(m, id);
    if m.active == Some(id) {
      var next := Successor(m.order, id).value;
      ElementsAreIn(rest.order);
      SwitchedKeeps(rest.(active := None), next);
    }
  }

  /** ... and closing the only one opens a fresh one: the user is never left
      without a tab. */
  lemma ClosedOnlyReopens(m: Manager, id: nat)
    requires Consistent(m) && m.order == [id]
    ensures var bare := Emptied(m);
            && Consistent(bare)
            && Closed(m, id) == Some(Added(bare, true))
  {
    RemovedOrderly(m, id);
    assert m.sessions.Keys == {id};
    assert Removed(m, id).(active := None) == Emptied(m);
    CreatedUpToTheCap(Emptied(m), true);
  }

  function Emptied(m: Manager): Manager {
    m.(sessions := map[], order := [], active := None)
  }

  function EmitEach(m: Manager, id: nat, chunks: seq<Bytes>): Manager
    decreases |chunks|
  {
    if chunks == [] then m else EmitEach(EmitFrom(m, id, chunks[0]), id, chunks[1..])
  }

  /** No reset is sent then. Whatever the fresh session goes on to emit, the
      client shows what that session would replay if and only if it showed
      nothing before, or the session has filled its scrollback. */
  lemma ClosedOnlyAgrees(m: Manager, id: nat, chunks: seq<Bytes>)
    requires Consistent(m) && m.order == [id]
    ensures var next := m.counter + 1;
            Closed(m, id).Some? &&
            var m' := EmitEach(Closed(m, id).value, next, chunks);
            && m'.active == Some(next) && next in m'.sessions
            && (Agrees(m') <==>
                || Screen(m.wire) == []
                || |m'.sessions[next].output.scrollback| == SCROLLBACK_MAX)
  {
    var fresh', next := Added(Emptied(m), true), m.counter + 1;
    ClosedOnlyReopens(m, id);
    FreshRecords();
    assert Screen(m.wire) + [] == Screen(m.wire);
    EmitEachShows(fresh', next, chunks, Screen(m.wire));
    var s := EmitEach(fresh', next, chunks).sessions[next];
    OldScreenStays(Screen(m.wire), Scan(s.raw, STORAGE_SETUP_OSC).out);
  }

  lemma OldScreenStays(before: Bytes, shown: Bytes)
    ensures Last(before + shown, SCROLLBACK_MAX) == Last(shown, SCROLLBACK_MAX) <==>
            before == [] || |shown| >= SCROLLBACK_MAX
  {
    if before == [] {
      assert before + shown == shown;
    }
  }

  /** The active session's output so far is all that followed `before` on screen. */
  predicate Shows(m: Manager, id: nat, before: Bytes) {
    && id in m.sessions && Records(m.sessions[id].output, m.sessions[id].raw)
    && Screen(m.wire) == before + Scan(m.sessions[id].raw, STORAGE_SETUP_OSC).out
  }

  lemma EmitShows(m: Manager, id: nat, data: Bytes, before: Bytes)
    requires m.active == Some(id) && Shows(m, id, before)
    ensures Shows(EmitFrom(m, id, data), id, before)
  {
    var s := m.sessions[id];
    var shown := Shown(s.output, data);
    EmittedShows(s.output, s.raw, data);
    EmittedRecords(s.output, s.raw, data);
    EmitScreen(m, id, data);
    ThreeParts(before, Scan(s.raw, STORAGE_SETUP_OSC).out, shown);
  }

  /** The client sees what the active session shows. */
  lemma EmitScreen(m: Manager, id: nat, data: Bytes)
    requires m.active == Some(id) && id in m.sessions
    ensures Screen(EmitFrom(m, id, data).wire) == Screen(m.wire) + Shown(m.sessions[id].output, data)
  {
    ScreenAppend(m.wire, Shown(m.sessions[id].output, data));
  }

  lemma ScreenAppend(wire: seq<Broadcast>, data: Bytes)
    ensures Screen(wire + [Display(data)]) == Screen(wire) + data
  {
    assert (wire + [Display(data)])[..|wire|] == wire;
  }

  lemma {:induction false} EmitEachShows(m: Manager, id: nat, chunks: seq<Bytes>, before: Bytes)
    requires m.active == Some(id) && Shows(m, id, before)
    ensures Shows(EmitEach(m, id, chunks), id, before) && EmitEach(m, id, chunks).active == m.active
    decreases |chunks|
  {
    if chunks != [] {
      EmitShows(m, id, chunks[0], before);
      EmitEachShows(EmitFrom(m, id, chunks[0]), id, chunks[1..], before);
    }
  }

  lemma ResizedKeeps(m: Manager, cols: int, rows: int)
    requires Consistent(m)
    ensures var m' := ResizedAll(m, cols, rows);
            && Consistent(m') && (Agrees(m) ==> Agrees(m'))
            && m' == m.(cols := m'.cols, rows := m'.rows, sessions := m'.sessions)
            && m'.sessions.Keys == m.sessions.Keys
  {
    var m' := ResizedAll(m, cols, rows);
    assert m'.sessions.Keys == m.sessions.Keys;
  }

  /** A later state: some tab stays open, and no number given up comes back. */
  predicate Follows(m: Manager, m': Manager) {
    && (m.order != [] ==> m'.order != [])
    && m.counter <= m'.counter
    && forall id | id <= m.counter && id !in m.sessions :: id !in m'.sessions
  }

  lemma CreateFollows(m: Manager, activate: bool)
    requires Consistent(m) && |m.order| < MAX_SESSIONS
    ensures Follows(m, Added(m, activate))
  {
    AscendingPush(m.order, 0, m.counter, m.counter + 1);
  }

  lemma CloseFollows(m: Manager, id: nat)
    requires Consistent(m) && id in m.sessions
    ensures var r := Closed(m, id);
            && r.Some? && Consistent(r.value) && Follows(m, r.value)
            && (Agrees(m) && m.order != [id] ==> Agrees(r.value))
  {
    if m.order == [id] {
      ClosedOnlyReopens(m, id);
      AddedKeeps(Emptied(m), true);
    } else {
      ClosedKeeps(m, id);
      AscendingWithout(m.order, 0, m.counter, id);
    }
  }

  lemma SwitchFollows(m: Manager, id: nat)
    requires Consistent(m)
    ensures var m' := Switched(m, id);
            Consistent(m') && Follows(m, m') && (Agrees(m) ==> Agrees(m'))
  {
    if id in m.sessions && m.active != Some(id) {
      SwitchedKeeps(m, id);
    }
  }

  /** One operation keeps the tabs in order. Unless it closes the only tab, it
      also keeps the client's screen in agreement with the active session. */
  lemma StepKeeps(m: Manager, op: Op)
    requires Consistent(m)
    ensures Consistent(Step(m, op)) && Follows(m, Step(m, op))
    ensures Agrees(m) && !ClosesOnly(m, op) ==> Agrees(Step(m, op))
  {
    match op
    case Create(activate) =>
      CreatedUpToTheCap(m, activate);
      if |m.order| < MAX_SESSIONS {
        AddedKeeps(m, activate);
        CreateFollows(m, activate);
      }
    case Switch(id) => SwitchFollows(m, id);
    case Close(id) =>
      if id in m.sessions {
        CloseFollows(m, id);
      }
    case Resize(cols, rows) => ResizedKeeps(m, cols, rows);
    case Emit(id, data) => EmitKeeps(m, id, data);
  }

  function Run(m: Manager, ops: seq<Op>): Manager
    requires Consistent(m)
    decreases |ops|
  {
    if ops == [] then m
    else
      StepKeeps(m, ops[0]);
      Run(Step(m, ops[0]), ops[1..])
  }

  /** Some operation of the run closes the only tab there is at that point. */
  predicate EverClosesOnly(m: Manager, ops: seq<Op>)
    requires Consistent(m)
    decreases |ops|
  {
    ops != [] &&
    (ClosesOnly(m, ops[0]) || (StepKeeps(m, ops[0]); EverClosesOnly(Step(m, ops[0]), ops[1..])))
  }

  /** Over every run the tabs stay in order and no number is reused; over every
      run that never closes the only tab, the client's screen, cut to the
      scrollback cap, is the active session's scrollback. */
  lemma {:induction false} RunKeeps(m: Manager, ops: seq<Op>)
    requires Consistent(m)
    ensures Consistent(Run(m, ops))
    ensures Agrees(m) && !EverClosesOnly(m, ops) ==> Agrees(Run(m, ops))
    ensures Follows(m, Run(m, ops))
    decreases |ops|
  {
    if ops != [] {
      StepKeeps(m, ops[0]);
      RunKeeps(Step(m, ops[0]), ops[1..]);
    }
  }

  /** Every session's scrollback is the last mebibyte of all it ever showed. */
  predicate Recorded(m: Manager) {
    forall id | id in m.sessions :: Records(m.sessions[id].output, m.sessions[id].raw)
  }

  lemma EmitRecords(m: Manager, id: nat, data: Bytes)
    requires Recorded(m)
    ensures Recorded(EmitFrom(m, id, data))
  {
    if id in m.sessions {
      EmittedRecords(m.sessions[id].output, m.sessions[id].raw, data);
    }
  }

  lemma AddRecords(m: Manager, activate: bool)
    requires Recorded(m)
    ensures Recorded(Added(m, activate))
  {
    FreshRecords();
  }

  lemma CloseRecords(m: Manager, id: nat)
    requires Recorded(m) && Closed(m, id).Some?
    ensures Recorded(Closed(m, id).value)
  {
    var bare := Removed(m, id).(active := None);
    AddRecords(bare, true);
  }

  lemma StepRecords(m: Manager, op: Op)
    requires Consistent(m) && Recorded(m)
    ensures Recorded(Step(m, op))
  {
    match op
    case Create(activate) => AddRecords(m, activate);
    case Switch(id) =>
    case Close(id) =>
      if Closed(m, id).Some? {
        CloseRecords(m, id);
      }
    case Resize(cols, rows) =>
    case Emit(id, data) => EmitRecords(m, id, data);
  }

  lemma {:induction false} RunRecords(m: Manager, ops: seq<Op>)
    requires Consistent(m) && Recorded(m)
    ensures Recorded(Run(m, ops))
    decreases |ops|
  {
    if ops != [] {
      StepKeeps(m, ops[0]);
      StepRecords(m, ops[0]);
      RunRecords(Step(m, ops[0]), ops[1..]);
    }
  }

  /** The manager the server starts with. */
  lemma EmptyIsConsistent()
    ensures Consistent(EMPTY) && Agrees(EMPTY)
  {
  }

  lemma ShowsByte(o: Output)
    requires o == FRESH
    ensures Shown(o, [65]) == [65] && Emitted(o, [65]).tail == []
  {
    var control := STORAGE_SETUP_OSC;
    assert [] + [65] == [65] && control[0] != 65;
    assert [65][1..] == [] && Scan([], control) == Filtered([], [], 0);
    assert Scan([65], control) == Filtered([65], [], 0);
  }

  lemma RunFirst(m: Manager, a: Op, rest: seq<Op>)
    requires Consistent(m)
    ensures Consistent(Step(m, a)) && Run(m, [a] + rest) == Run(Step(m, a), rest)
  {
    StepKeeps(m, a);
    assert ([a] + rest)[1..] == rest;
  }

  lemma SameOps(a: Op, b: Op, c: Op)
    ensures [a, b, c] == [a] + [b, c] && [b, c] == [b] + [c] && [c] == [c] + []
  {
  }

  /** The tab that is opened first, and what it is when it has shown a byte. */
  const OPENED := Manager(map[1 := Session(FRESH, [], 80, 24, true)], [1], Some(1), 1, 80, 24, [])
  const SHOWING := EmitFrom(OPENED, 1, [65])

  lemma OpensFirst()
    ensures Consistent(EMPTY) && Step(EMPTY, Create(true)) == OPENED && Consistent(OPENED)
  {
    EmptyIsConsistent();
    AddedKeeps(EMPTY, true);
    assert Created(EMPTY, true) == Some(Added(EMPTY, true));
    assert Added(EMPTY, true).sessions == OPENED.sessions && Added(EMPTY, true).order == OPENED.order;
  }

  lemma ShowsOnScreen()
    requires Consistent(OPENED)
    ensures Screen(SHOWING.wire) == [65] && SHOWING.order == [1] && SHOWING.counter == 1
    ensures Step(OPENED, Emit(1, [65])) == SHOWING && Consistent(SHOWING)
  {
    ShowsByte(FRESH);
    EmitScreen(OPENED, 1, [65]);
    EmitKeeps(OPENED, 1, [65]);
    assert Screen([]) == [] && [] + [65] == [65];
  }

  lemma ReopensUnderIt(m: Manager)
    requires Consistent(m) && m.order == [1] && m.counter == 1 && Screen(m.wire) == [65]
    ensures var t := Step(m, Close(1));
            && t.active == Some(2) && 2 in t.sessions && t.sessions[2].output.scrollback == []
            && Screen(t.wire) == [65] && !Agrees(t)
  {
    ClosedOnlyReopens(m, 1);
    assert Last([65], SCROLLBACK_MAX) == [65];
  }

  /** The disagreement in a run from the server's start: one tab that shows a byte is
      closed; the byte stays on the client's screen, and the fresh session has shown
      nothing. */
  lemma ClosedOnlyCanDisagree()
    ensures Consistent(EMPTY) &&
            var m := Run(EMPTY, [Create(true), Emit(1, [65]), Close(1)]);
            && m.active == Some(2) && 2 in m.sessions && m.sessions[2].output.scrollback == []
            && Screen(m.wire) == [65] && !Agrees(m)
  {
    OpensFirst();
    ShowsOnScreen();
    RunFirst(EMPTY, Create(true), [Emit(1, [65]), Close(1)]);
    RunFirst(OPENED, Emit(1, [65]), [Close(1)]);
    RunFirst(SHOWING, Close(1), []);
    SameOps(Create(true), Emit(1, [65]), Close(1));
    ReopensUnderIt(SHOWING);
  }

  /** From the server's start on: what the client was sent since the last reset,
      cut to the cap, is the last mebibyte of everything the active session ever
      emitted, its storage controls taken out. */
  lemma ClientShowsActiveSession(ops: seq<Op>)
    ensures Consistent(EMPTY) &&
            var m := Run(EMPTY, ops);
            EverClosesOnly(EMPTY, ops) ||
            match m.active
            case None => Screen(m.wire) == []
            case Some(a) =>
              && a in m.sessions
              && Last(Screen(m.wire), SCROLLBACK_MAX)
                 == Last(Scan(m.sessions[a].raw, STORAGE_SETUP_OSC).out, SCROLLBACK_MAX)
  {
    EmptyIsConsistent();
    RunKeeps(EMPTY, ops);
    RunRecords(EMPTY, ops);
  }
}

module Sessions {
  import opened Octets
  import opened Sequences
  import opened Wrappers
  import opened ControlFilter
  import opened TerminalOutput
  import opened SessionModel

  /** The manager object. Its sessions are held as values; each is reached through
      the session map alone. */
  class SessionManager {
    var sessions: map<nat, Session>
    var order: seq<nat>
    var active: Option<nat>
    var counter: nat
    var cols: nat
    var rows: nat
    /** What the websocket broadcast so far. */
    var wire: seq<Broadcast>

    ghost function View(): Manager
      reads this
    {
      Manager(sessions, order, active, counter, cols, rows, wire)
    }

    constructor ()
      ensures View() == EMPTY && Consistent(View()) && Agrees(View())
    {
      sessions, order, active, counter := map[], [], None, 0;
      cols, rows, wire := 80, 24, [];
    }

    /** A session hands its output to the manager's callback; that of a closed one
        reaches nobody. */
    method EmitFor(id: nat, data: Bytes)
      modifies this`sessions, this`wire
      ensures View() == EmitFrom(old(View()), id, data)
    {
      if id !in sessions {
        return;
      }
      var s := sessions[id];
      var shown := Shown(s.output, data);
      sessions := sessions[id := s.(output := Emitted(s.output, data), raw := s.raw + data)];
      if shown != [] && active == Some(id) {
        wire := wire + [Display(shown)];
      }
    }

    /** None when the cap is reached. */
    method Create(activate: bool) returns (r: Option<nat>)
      modifies this
      ensures match Created(old(View()), activate)
              case None => r == None && View() == old(View())
              case Some(after) => r == Some(counter) && View() == after
    {
      if |sessions| >= MAX_SESSIONS {
        return None;
      }
      var previous := active;
      counter := counter + 1;
      var id := counter;
      var session := Session(FRESH, [], 80, 24, false);
      order := order + [id];
      if activate || active.None? {
        active := Some(id);
      }
      if activate && previous.Some? {
        wire := wire + [Reset];
      }
      session := Resized(session, cols, rows).(running := true);
      sessions := sessions[id := session];
      return Some(id);
    }

    method Switch(id: nat) returns (known: bool)
      modifies this
      ensures View() == Switched(old(View()), id)
      ensures known <==> id in old(sessions)
    {
      if id !in sessions || active == Some(id) {
        return id in sessions;
      }
      active := Some(id);
      sessions := sessions[id := Resized(sessions[id], cols, rows)];
      wire := wire + [Reset];
      var scrollback := sessions[id].output.scrollback;
      if scrollback != [] {
        wire := wire + [Display(scrollback)];
      }
      return true;
    }

    /** Takes a tab out, and tells which one is to take over. */
    method Remove(id: nat) returns (successor: Option<nat>)
      requires id in order
      modifies this`sessions, this`order
      ensures View() == Removed(old(View()), id)
      ensures successor == Successor(old(order), id)
      ensures Orderly(old(View())) ==>
                forall i | 0 <= i < |old(order)| && old(order)[i] == id ::
                  successor == if i + 1 < |old(order)| then Some(old(order)[i + 1])
                               else if i > 0 then Some(old(order)[i - 1]) else None
    {
      if Orderly(View()) {
        forall i | 0 <= i < |order| && order[i] == id {
          SuccessorByIndex(order, 0, counter, i);
        }
      }
      sessions := sessions - {id};
      var index := IndexOf(order, id);
      order := Without(order, id);
      successor := None;
      if order != [] {
        successor := Some(order[if index < |order| - 1 then index else |order| - 1]);
      }
    }

    /** Closing an unknown session is refused; the last tab is replaced. */
    method Close(id: nat) returns (ok: bool)
      requires Consistent(View())
      modifies this
      ensures ok <==> id in old(sessions)
      ensures match Closed(old(View()), id)
              case None => View() == old(View())
              case Some(after) => View() == after
    {
      if id !in sessions {
        return false;
      }
      assert id in order by {
        ElementsAreIn(order);
      }
      ghost var before := View();
      var wasActive := active == Some(id);
      var successor := Remove(id);
      if wasActive {
        active := successor;
      }
      if active.None? {
        assert View() == Removed(before, id).(active := None);
        RemovedOrderly(before, id);
        ClosedOnlyReopens(before, id);
        var _ := Create(true);
      } else if wasActive {
        var next := active.value;
        active := None;
        assert View() == Removed(before, id).(active := None);
        var _ := Switch(next);
      }
      return true;
    }

    /** Remembers the geometry, and passes it to the session on screen only. */
    method Resize(cols: int, rows: int)
      modifies this
      ensures View() == ResizedAll(old(View()), cols, rows)
    {
      if cols <= 0 || rows <= 0 {
        return;
      }
      this.cols, this.rows := cols, rows;
      if active.Some? && active.value in sessions {
        sessions := sessions[active.value := Resized(sessions[active.value], cols, rows)];
      }
    }
  }
}
