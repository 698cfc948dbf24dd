/** Installing and uninstalling (app/zmux/zpip.py) as a function of the store and of
    what comes from outside: the resolver's answers, the fetches, the faults. */
module InstallModel {
  import opened Wrappers
  import opened Sequences
  import opened Wheels
  import opened PackageState

  /** `name` is the canonical name; None where the source cannot make one out. */
  datatype Requirement = Requirement(name: Option<Name>, specifier: Specifier)

  /** A dependency line: unreadable, for another environment, or a requirement. */
  datatype Dependency = Unreadable | Elsewhere | Applies(requirement: Requirement)

  /** A manifest pins its artifact by digest, so it determines the archive. */
  datatype Manifest = Manifest(version: Version, dependencies: seq<Dependency>, archive: seq<Member>)

  /** The manifests there are for each name. */
  type Universe = map<Name, set<Manifest>>

  /** `accepts` tells whether a version is within a specifier. */
  datatype World = World(universe: Universe, accepts: (Version, Specifier) -> bool)

  /** A commit that was begun: on this tree, with this wheel, these obsolete files
      and this fault. */
  datatype Attempted = Attempted(base: Tree, wheel: seq<Member>, obsolete: set<Path>, fault: Fault)

  /** The store; what the coming resolutions, fetches and commits will meet, each
      taken in turn (none left: no answer, no fetch, no fault); the commits so far. */
  datatype State = State(store: Store, answers: seq<Option<Manifest>>, fetches: seq<bool>, faults: seq<Fault>,
                         log: seq<Attempted>)

  /** What an install reports. */
  datatype Outcome = Done(version: Version, count: nat, dependencies: seq<Name>) | Failed(rolledBack: bool)

  function Requirements(dependencies: seq<Dependency>): seq<Requirement> {
    if dependencies == [] then []
    else
      var front, last := dependencies[..|dependencies| - 1], dependencies[|dependencies| - 1];
      if last.Applies? then Requirements(front) + [last.requirement] else Requirements(front)
  }

  /** Line by line and in order: an applicable line gives its requirement, any other
      none. */
  lemma RequirementOfLine(d: Dependency)
    ensures Requirements([d]) == if d.Applies? then [d.requirement] else []
  {
    assert [d][..0] == [];
  }

  lemma {:induction false} RequirementsOfBoth(a: seq<Dependency>, b: seq<Dependency>)
    ensures Requirements(a + b) == Requirements(a) + Requirements(b)
  {
    if b == [] {
      assert a + b == a && Requirements(a) + [] == Requirements(a);
    } else {
      var front, last := b[..|b| - 1], b[|b| - 1];
      var all := a + b;
      RequirementsOfBoth(a, front);
      assert all[..|all| - 1] == a + front && all[|all| - 1] == last;
      if last.Applies? {
        ThreeParts(Requirements(a), Requirements(front), [last.requirement]);
      }
    }
  }

  /** Every requirement comes from a line. */
  lemma {:induction false} RequirementFromLine(lines: seq<Dependency>, r: Requirement)
    ensures r in Requirements(lines) <==> Applies(r) in lines
  {
    if lines != [] {
      var front, last := lines[..|lines| - 1], lines[|lines| - 1];
      RequirementFromLine(front, r);
      assert lines == front + [last];
    }
  }

  predicate Satisfies(w: World, db: Database, r: Requirement) {
    r.name.Some? && r.name.value in db && w.accepts(db[r.name.value].version, r.specifier)
  }

  function First<T>(s: seq<T>, none: T): T {
    if s == [] then none else s[0]
  }

  function Rest<T>(s: seq<T>): seq<T> {
    if s == [] then [] else s[1..]
  }

  function Listed(names: seq<Name>): set<Name> {
    set n | n in names
  }

  /** How many packages are not being installed further up. */
  function Left(w: World, stack: seq<Name>): nat {
    |w.universe.Keys - Listed(stack)|
  }

  lemma LeftDecreases(w: World, stack: seq<Name>, package: Name)
    requires package in w.universe && package !in stack
    ensures Left(w, stack + [package]) < Left(w, stack)
  {
    assert w.universe.Keys - Listed(stack + [package]) == (w.universe.Keys - Listed(stack)) - {package};
  }

  // ------------------------------------------------------------------- steps

  /** The resolver's next answer, if it is a manifest of the package. */
  function Answer(w: World, s: State, package: Name): Option<Manifest> {
    var answer := First(s.answers, None);
    if answer.Some? && package in w.universe && answer.value in w.universe[package] then answer else None
  }

  function Resolved(s: State): State {
    s.(answers := Rest(s.answers))
  }

  function Committed(s: State, package: Name, version: Version, wheel: seq<Member>, named: bool): (State, bool) {
    var fault, db, files := First(s.faults, Nowhere), s.store.db, s.store.files;
    var t := s.(faults := Rest(s.faults));
    if !Free(db, package, Paths(wheel)) then (t, false)
    else
      var obsolete := Obsolete(db, package, wheel);
      var (ok, tree) := Attempt(files, wheel, obsolete, fault);
      var after := if ok then db[package := Recorded(db, package, version, wheel, named)] else db;
      (t.(store := Store(after, tree), log := s.log + [Attempted(files, wheel, obsolete, fault)]), ok)
  }

  /** Download, extraction and smoke import are one fetch. */
  function Delivering(s: State, package: Name, m: Manifest, named: bool): (State, bool) {
    var t := s.(fetches := Rest(s.fetches));
    if !First(s.fetches, false) || !Acceptable(m.archive) then (t, false)
    else Committed(t, package, m.version, Files(m.archive), named)
  }

  function Uninstalled(s: State, package: Name): State {
    s.(store := Removed(s.store, package))
  }

  /** The last one first. */
  function UninstalledAll(s: State, names: seq<Name>): State
    decreases |names|
  {
    if names == [] then s
    else UninstalledAll(Uninstalled(s, names[|names| - 1]), names[..|names| - 1])
  }

  /** Where the work on the requirements has come, and what it installed. */
  datatype Prepared = Prepared(state: State, ok: bool, installed: seq<Name>)

  /** Installs a package and, before it, what it requires. */
  function Installed(w: World, s: State, package: Name, stack: seq<Name>): (State, Outcome)
    decreases Left(w, stack), 0, 0
  {
    if package in stack then (s, Failed(true))
    else
      match Answer(w, s, package)
      case None => (Resolved(s), Failed(true))
      case Some(m) =>
        LeftDecreases(w, stack, package);
        var t := Resolved(s);
        Concluded(DependenciesInstalled(w, t, stack + [package], Requirements(m.dependencies), 0, t.store.db, []),
                  package, m, stack == [])
  }

  /** The requirements from the `k`-th on, one by one, looked up in the database
      there was before the first of them. */
  function DependenciesInstalled(w: World, s: State, stack: seq<Name>, requirements: seq<Requirement>, k: nat,
                                 before: Database, installed: seq<Name>): Prepared
    requires k <= |requirements|
    decreases Left(w, stack), 1, |requirements| - k
  {
    if k == |requirements| then Prepared(s, true, installed)
    else
      var r := requirements[k];
      if r.name.None? then Prepared(s, false, installed)
      else if Satisfies(w, before, r) then DependenciesInstalled(w, s, stack, requirements, k + 1, before, installed)
      else if r.name.value in before then Prepared(s, false, installed)
      else
        var (t, outcome) := Installed(w, s, r.name.value, stack);
        if outcome.Failed? then Prepared(t, false, installed)
        else if !Satisfies(w, t.store.db, r) then Prepared(t, false, installed + [r.name.value])
        else DependenciesInstalled(w, t, stack, requirements, k + 1, before, installed + [r.name.value])
  }

  /** Once the requirements are in, the artifact; or else they are taken out again. */
  function Concluded(p: Prepared, package: Name, m: Manifest, named: bool): (State, Outcome) {
    var (t, ok) := if p.ok then Delivering(p.state, package, m, named) else (p.state, false);
    if ok then (t, Done(m.version, |Files(m.archive)|, p.installed))
    else (UninstalledAll(t, p.installed), Failed(true))
  }

  // ----------------------------------------------------------- who needs whom

  predicate Asks(requirements: seq<Requirement>, b: Name) {
    exists i :: 0 <= i < |requirements| && requirements[i].name == Some(b)
  }

  /** Some manifest of `a` requires `b`. */
  ghost predicate Needs(u: Universe, a: Name, b: Name) {
    a in u && exists m | m in u[a] :: Asks(Requirements(m.dependencies), b)
  }

  ghost predicate Chain(u: Universe, path: seq<Name>, a: Name, b: Name) {
    && |path| >= 2 && path[0] == a && path[|path| - 1] == b
    && forall i | 0 <= i < |path| - 1 :: Needs(u, path[i], path[i + 1])
  }

  /** `a` requires `b`, directly or through others. */
  ghost predicate Reaches(u: Universe, a: Name, b: Name) {
    exists path :: Chain(u, path, a, b)
  }

  /** `a` requires `b` through others. */
  ghost predicate Deep(u: Universe, a: Name, b: Name) {
    exists c :: Needs(u, a, c) && Reaches(u, c, b)
  }

  lemma NeedsReaches(u: Universe, a: Name, b: Name)
    requires Needs(u, a, b)
    ensures Reaches(u, a, b)
  {
    assert Chain(u, [a, b], a, b);
  }

  lemma DeepReaches(u: Universe, a: Name, b: Name)
    requires Deep(u, a, b)
    ensures Reaches(u, a, b)
  {
    var c :| Needs(u, a, c) && Reaches(u, c, b);
    var path :| Chain(u, path, c, b);
    var longer := [a] + path;
    forall i | 0 <= i < |longer| - 1 ensures Needs(u, longer[i], longer[i + 1]) {
      assert i > 0 ==> longer[i] == path[i - 1] && longer[i + 1] == path[(i - 1) + 1];
    }
    assert Chain(u, longer, a, b);
  }

  // ------------------------------------------------- what an install may touch

  /** Packages that were not there before are not explicit; each is one of those
      installed for `owner`, or was brought in further below. */
  ghost predicate Brought(u: Universe, a: Store, b: Store, installed: seq<Name>, owner: Name) {
    forall n | n in b.db && n !in a.db :: !b.db[n].explicit && (n in installed || Deep(u, owner, n))
  }

  /** Where the requirements of `owner` have been worked on: nothing there before
      is changed, what was installed for `owner` is new, needed and there, and
      nothing being installed further up was brought in. */
  ghost predicate Ready(u: Universe, stack: seq<Name>, owner: Name, a: Store, b: Store, installed: seq<Name>) {
    && Disjoint(b.db) && KeptBut(a, b, {}) && Brought(u, a, b, installed, owner)
    && (forall d | d in installed :: d !in a.db && d !in stack && d in b.db && Needs(u, owner, d))
    && (forall n | n in stack && n !in a.db :: n !in b.db)
  }

  /** What an install does to the packages, whether it succeeds or not. */
  ghost predicate Effect(u: Universe, a: Store, b: Store, package: Name, stack: seq<Name>, done: bool) {
    && Disjoint(b.db) && KeptBut(a, b, {package})
    && (forall n | n in stack && n !in a.db :: n !in b.db)
    && (forall n | n in b.db && n !in a.db && n != package :: !b.db[n].explicit && Reaches(u, package, n))
    && if done then
         && package !in stack && package in b.db
         && (b.db[package].explicit <==> stack == [] || (package in a.db && a.db[package].explicit))
       else
         RolledBack(a, b, package) && forall n | n in b.db && n !in a.db :: Deep(u, package, n)
  }

  /** What an install for `owner` of one of its requirements adds. */
  lemma BroughtMore(u: Universe, a: Store, b: Store, c: Store, installed: seq<Name>, owner: Name,
                    stack: seq<Name>, n: Name, done: bool)
    requires Brought(u, a, b, installed, owner) && Needs(u, owner, n) && n !in a.db && stack != []
    requires Effect(u, b, c, n, stack, done)
    ensures Brought(u, a, c, installed + if done then [n] else [], owner)
  {
    forall m | m in c.db && m !in a.db
      ensures !c.db[m].explicit && (m in installed + (if done then [n] else []) || Deep(u, owner, m))
    {
      if m in b.db {
        assert m in installed || Deep(u, owner, m);
        assert m != n ==> Intact(b, c, m);
      }
    }
  }

  lemma ReadyMore(u: Universe, stack: seq<Name>, owner: Name, a: Store, b: Store, c: Store, installed: seq<Name>,
                  n: Name, done: bool)
    requires Ready(u, stack, owner, a, b, installed) && stack != []
    requires Needs(u, owner, n) && n !in a.db && Effect(u, b, c, n, stack, done)
    ensures Ready(u, stack, owner, a, c, installed + if done then [n] else [])
    ensures forall m | m in b.db :: m in c.db && (m == n || c.db[m] == b.db[m])
  {
    KeptThrough(a, b, c, n);
    BroughtMore(u, a, b, c, installed, owner, stack, n, done);
  }

  /** Where one more requirement was installed. */
  lemma NextReady(w: World, s: State, stack: seq<Name>, owner: Name, requirements: seq<Requirement>, k: nat, a: Store,
                  installed: seq<Name>, n: Name)
    requires k < |requirements| && stack != [] && Ready(w.universe, stack, owner, a, s.store, installed)
    requires requirements[k].name == Some(n) && n !in a.db
    requires Asks(requirements, n) ==> Needs(w.universe, owner, n)
    requires var (t, outcome) := Installed(w, s, n, stack);
             Effect(w.universe, s.store, t.store, n, stack, outcome.Done?)
    ensures var (t, outcome) := Installed(w, s, n, stack);
            && Ready(w.universe, stack, owner, a, t.store, if outcome.Done? then installed + [n] else installed)
            && forall m | m in s.store.db :: m in t.store.db && (m == n || t.store.db[m] == s.store.db[m])
  {
    var (t, outcome) := Installed(w, s, n, stack);
    assert Asks(requirements, n);
    ReadyMore(w.universe, stack, owner, a, s.store, t.store, installed, n, outcome.Done?);
    assert installed + [] == installed;
  }

  lemma {:induction false} DependenciesKeep(w: World, s: State, stack: seq<Name>, owner: Name,
                                            requirements: seq<Requirement>, k: nat, a: Store, installed: seq<Name>)
    requires k <= |requirements| && stack != [] && Ready(w.universe, stack, owner, a, s.store, installed)
    requires forall n | Asks(requirements, n) :: Needs(w.universe, owner, n)
    ensures var p := DependenciesInstalled(w, s, stack, requirements, k, a.db, installed);
            Ready(w.universe, stack, owner, a, p.state.store, p.installed)
    decreases Left(w, stack), 1, |requirements| - k
  {
    if k < |requirements| && requirements[k].name.Some? {
      var r := requirements[k];
      var n := r.name.value;
      if Satisfies(w, a.db, r) {
        DependenciesKeep(w, s, stack, owner, requirements, k + 1, a, installed);
      } else if n !in a.db {
        var (t, outcome) := Installed(w, s, n, stack);
        InstalledKeeps(w, s, n, stack);
        NextReady(w, s, stack, owner, requirements, k, a, installed, n);
        if outcome.Done? && Satisfies(w, t.store.db, r) {
          DependenciesKeep(w, t, stack, owner, requirements, k + 1, a, installed + [n]);
        }
      }
    }
  }

  lemma NothingYet(w: World, s: State, stack: seq<Name>, owner: Name)
    requires Disjoint(s.store.db)
    ensures Ready(w.universe, stack, owner, s.store, s.store, [])
  {
  }

  /** At any depth, and whatever comes from outside: ownership stays exclusive, every
      other package keeps its record and files, what is new is needed and not
      explicit, and a failure leaves the package itself as it was. */
  lemma {:induction false} InstalledKeeps(w: World, s: State, package: Name, stack: seq<Name>)
    requires Disjoint(s.store.db)
    ensures var (t, outcome) := Installed(w, s, package, stack);
            Effect(w.universe, s.store, t.store, package, stack, outcome.Done?)
    decreases Left(w, stack), 0, 0
  {
    if package !in stack && Answer(w, s, package).Some? {
      var m := Answer(w, s, package).value;
      var requirements, inner, t := Requirements(m.dependencies), stack + [package], Resolved(s);
      LeftDecreases(w, stack, package);
      NothingYet(w, t, inner, package);
      DependenciesKeep(w, t, inner, package, requirements, 0, s.store, []);
      var p := DependenciesInstalled(w, t, inner, requirements, 0, s.store.db, []);
      ConcludedKeeps(w.universe, s.store, p, package, m, stack);
    }
  }

  lemma ReadyReaches(u: Universe, stack: seq<Name>, owner: Name, a: Store, b: Store, installed: seq<Name>)
    requires Ready(u, stack, owner, a, b, installed)
    ensures forall n | n in b.db && n !in a.db :: Reaches(u, owner, n)
  {
    forall n | n in b.db && n !in a.db ensures Reaches(u, owner, n) {
      if n in installed {
        NeedsReaches(u, owner, n);
      } else {
        DeepReaches(u, owner, n);
      }
    }
  }

  /** What a commit, stopped or not, does to the packages. */
  lemma DeliveringKeeps(s: State, package: Name, m: Manifest, named: bool)
    requires Disjoint(s.store.db)
    ensures var (t, ok) := Delivering(s, package, m, named);
            && Disjoint(t.store.db) && KeptBut(s.store, t.store, {package}) && NoStray(s.store, t.store)
            && (ok ==> t.store == CommittedStore(s.store, package, m.version, Files(m.archive), named))
            && (!ok ==> t.store.db == s.store.db && RolledBack(s.store, t.store, package))
  {
    var wheel := Files(m.archive);
    if Acceptable(m.archive) && Free(s.store.db, package, Paths(wheel)) {
      var obsolete, fault := Obsolete(s.store.db, package, wheel), First(s.faults, Nowhere);
      FilesDistinct(m.archive);
      AttemptMeans(s.store.files, wheel, obsolete, fault);
      CommitKeeps(s.store, package, m.version, wheel, named);
      CommitLeavesNone(s.store, package, m.version, wheel, named);
      var lost := Deletions(wheel, obsolete, fault);
      LostIsRolledBack(s.store, Store(s.store.db, s.store.files - lost), package, lost);
    }
  }

  lemma {:induction false} UninstalledAllKeeps(s: State, names: seq<Name>)
    requires Disjoint(s.store.db)
    ensures var t := UninstalledAll(s, names);
            && t == s.(store := t.store) && Disjoint(t.store.db)
            && Without(s.store, t.store, Listed(names)) && NoStray(s.store, t.store)
    decreases |names|
  {
    if names != [] {
      var front, last := names[..|names| - 1], names[|names| - 1];
      var t := Uninstalled(s, last);
      var u := UninstalledAll(t, front);
      RemoveKeeps(s.store, last);
      UninstalledAllKeeps(t, front);
      WithoutTransitive(s.store, t.store, u.store, {last}, Listed(front));
      NoStrayTransitive(s.store, t.store, u.store);
      assert Listed(names) == {last} + Listed(front) by {
        assert names == front + [last];
      }
    }
  }

  /** What the conclusion comes to: the artifact, or the packages taken out. */
  lemma ConcludedMeans(p: Prepared, package: Name, m: Manifest, named: bool)
    requires Disjoint(p.state.store.db)
    ensures var (t, outcome) := Concluded(p, package, m, named);
            var c := if p.ok then Delivering(p.state, package, m, named).0.store else p.state.store;
            && Disjoint(t.store.db) && NoStray(p.state.store, t.store)
            && KeptBut(p.state.store, c, {package}) && NoStray(p.state.store, c)
            && if outcome.Done? then
                 p.ok && t.store == c == CommittedStore(p.state.store, package, m.version, Files(m.archive), named)
               else
                 && c.db == p.state.store.db && RolledBack(p.state.store, c, package)
                 && Without(c, t.store, Listed(p.installed))
  {
    var b := p.state.store;
    var (u, ok) := if p.ok then Delivering(p.state, package, m, named) else (p.state, false);
    DeliveringKeeps(p.state, package, m, named);
    if !ok {
      UninstalledAllKeeps(u, p.installed);
      NoStrayTransitive(b, u.store, UninstalledAll(u, p.installed).store);
    }
  }

  lemma DoneKeeps(u: Universe, a: Store, b: Store, c: Store, package: Name, m: Manifest, stack: seq<Name>,
                  installed: seq<Name>)
    requires Ready(u, stack + [package], package, a, b, installed) && package !in stack
    requires c == CommittedStore(b, package, m.version, Files(m.archive), stack == [])
    requires KeptBut(b, c, {package}) && Disjoint(c.db)
    ensures Effect(u, a, c, package, stack, true)
  {
    KeptTransitive(a, b, c, {}, {package});
    KeptNarrow(a, c, {} + {package}, {package});
    ReadyReaches(u, stack + [package], package, a, b, installed);
    assert package in stack + [package];
    assert package in a.db ==> Intact(a, b, package);
  }

  lemma FailureKeeps(u: Universe, a: Store, b: Store, c: Store, d: Store, package: Name, stack: seq<Name>,
                     installed: seq<Name>)
    requires Ready(u, stack + [package], package, a, b, installed) && package !in stack
    requires c.db == b.db && KeptBut(b, c, {package}) && RolledBack(b, c, package)
    requires Without(c, d, Listed(installed)) && Disjoint(d.db)
    ensures Effect(u, a, d, package, stack, false)
    ensures Missing(a, d, package) == Missing(b, c, package)
  {
    assert package in stack + [package];
    RolledBackSince(a, b, c, package);
    RolledBackStill(a, c, d, package, Listed(installed));
    KeptTransitive(a, b, c, {}, {package});
    KeptTransitive(a, c, d, {} + {package}, Listed(installed));
    KeptNarrow(a, d, ({} + {package}) + Listed(installed), {package});
    ReadyReaches(u, stack + [package], package, a, b, installed);
    assert forall n | n in d.db && n != package :: Intact(c, d, n);
  }

  lemma ConcludedKeeps(u: Universe, a: Store, p: Prepared, package: Name, m: Manifest, stack: seq<Name>)
    requires Ready(u, stack + [package], package, a, p.state.store, p.installed) && package !in stack
    ensures var (t, outcome) := Concluded(p, package, m, stack == []);
            Effect(u, a, t.store, package, stack, outcome.Done?)
  {
    var (t, outcome) := Concluded(p, package, m, stack == []);
    ConcludedMeans(p, package, m, stack == []);
    var c := if p.ok then Delivering(p.state, package, m, stack == []).0.store else p.state.store;
    if outcome.Done? {
      DoneKeeps(u, a, p.state.store, t.store, package, m, stack, p.installed);
    } else {
      FailureKeeps(u, a, p.state.store, c, t.store, package, stack, p.installed);
    }
  }

  // ------------------------------------------------------------ no file behind

  /** Whatever fails, no file is left that belongs to no package. */
  lemma {:induction false} InstalledLeavesNone(w: World, s: State, package: Name, stack: seq<Name>)
    requires Disjoint(s.store.db)
    ensures NoStray(s.store, Installed(w, s, package, stack).0.store)
    decreases Left(w, stack), 0, 0
  {
    if package !in stack && Answer(w, s, package).Some? {
      var m := Answer(w, s, package).value;
      var requirements, inner, t := Requirements(m.dependencies), stack + [package], Resolved(s);
      LeftDecreases(w, stack, package);
      DependenciesLeaveNone(w, t, inner, requirements, 0, s.store.db, []);
      var p := DependenciesInstalled(w, t, inner, requirements, 0, s.store.db, []);
      ConcludedMeans(p, package, m, stack == []);
      NoStrayTransitive(s.store, p.state.store, Concluded(p, package, m, stack == []).0.store);
    }
  }

  lemma {:induction false} DependenciesLeaveNone(w: World, s: State, stack: seq<Name>, requirements: seq<Requirement>,
                                                 k: nat, before: Database, installed: seq<Name>)
    requires k <= |requirements| && Disjoint(s.store.db)
    ensures var p := DependenciesInstalled(w, s, stack, requirements, k, before, installed);
            NoStray(s.store, p.state.store) && Disjoint(p.state.store.db)
    decreases Left(w, stack), 1, |requirements| - k
  {
    if k < |requirements| && requirements[k].name.Some? {
      var r := requirements[k];
      var n := r.name.value;
      if Satisfies(w, before, r) {
        DependenciesLeaveNone(w, s, stack, requirements, k + 1, before, installed);
      } else if n !in before {
        var (t, outcome) := Installed(w, s, n, stack);
        InstalledKeeps(w, s, n, stack);
        InstalledLeavesNone(w, s, n, stack);
        if outcome.Done? && Satisfies(w, t.store.db, r) {
          DependenciesLeaveNone(w, t, stack, requirements, k + 1, before, installed + [n]);
          var p := DependenciesInstalled(w, t, stack, requirements, k + 1, before, installed + [n]);
          NoStrayTransitive(s.store, t.store, p.state.store);
        }
      }
    }
  }

  // ---------------------------------------------------------- what can be lost

  /** The files a commit lost: obsolete ones that were there, deleted before it was
      stopped. */
  function Lost(x: Attempted): set<Path> {
    if Stops(x.wheel, x.obsolete, x.fault) then Deletions(x.wheel, x.obsolete, x.fault) * x.base.Keys else {}
  }

  function LostIn(log: seq<Attempted>): set<Path> {
    if log == [] then {} else LostIn(log[..|log| - 1]) + Lost(log[|log| - 1])
  }

  lemma {:induction false} LostInBoth(log: seq<Attempted>, more: seq<Attempted>)
    ensures LostIn(log + more) == LostIn(log) + LostIn(more)
  {
    if more == [] {
      assert log + more == log;
    } else {
      LostInBoth(log, more[..|more| - 1]);
      assert (log + more)[..|log + more| - 1] == log + more[..|more| - 1];
    }
  }

  /** The commits begun between two states. */
  function Begun(s: State, t: State): seq<Attempted> {
    if |s.log| <= |t.log| then t.log[|s.log|..] else []
  }

  /** While no commit loses a file, every recorded file keeps existing. */
  predicate Careful(s: State, t: State) {
    s.log <= t.log && (Present(s.store) && LostIn(Begun(s, t)) == {} ==> Present(t.store))
  }

  lemma BegunBoth(s: State, t: State, u: State)
    requires s.log <= t.log && t.log <= u.log
    ensures LostIn(Begun(s, u)) == LostIn(Begun(s, t)) + LostIn(Begun(t, u))
  {
    assert Begun(s, u) == Begun(s, t) + Begun(t, u);
    LostInBoth(Begun(s, t), Begun(t, u));
  }

  lemma CarefulTransitive(s: State, t: State, u: State)
    requires Careful(s, t) && Careful(t, u)
    ensures Careful(s, u)
  {
    BegunBoth(s, t, u);
  }

  lemma OneBegun(s: State, t: State, x: Attempted)
    requires t.log == s.log + [x]
    ensures LostIn(Begun(s, t)) == Lost(x)
  {
    assert Begun(s, t) == [x] && [x][..0] == [];
  }

  /** What a commit that is begun loses. */
  lemma AttemptLoses(s: Store, package: Name, version: Version, wheel: seq<Member>, named: bool, fault: Fault)
    requires Disjoint(s.db) && DistinctNames(wheel) && Free(s.db, package, Paths(wheel))
    ensures var obsolete := Obsolete(s.db, package, wheel);
            var (ok, tree) := Attempt(s.files, wheel, obsolete, fault);
            var lost := Lost(Attempted(s.files, wheel, obsolete, fault));
            if ok then
              lost == {} && tree == CommittedTree(s, package, wheel)
              && (Present(s) ==> Present(CommittedStore(s, package, version, wheel, named)))
            else
              tree == s.files - lost && Missing(s, Store(s.db, tree), package) == lost
  {
    var obsolete := Obsolete(s.db, package, wheel);
    AttemptMeans(s.files, wheel, obsolete, fault);
    CommitKeeps(s, package, version, wheel, named);
    var gone := Deletions(wheel, obsolete, fault);
    assert s.files - gone == s.files - (gone * s.files.Keys);
  }

  lemma NoneLost(s: Store, lost: set<Path>)
    requires lost == {}
    ensures Store(s.db, s.files - lost) == s
  {
    assert s.files - lost == s.files;
  }

  /** A commit loses the files of the package that are gone after it failed, and
      no others. */
  lemma DeliveringLoses(s: State, package: Name, m: Manifest, named: bool)
    requires Disjoint(s.store.db)
    ensures var (t, ok) := Delivering(s, package, m, named);
            Careful(s, t) && (!ok ==> Missing(s.store, t.store, package) == LostIn(Begun(s, t)))
  {
    var wheel, fault := Files(m.archive), First(s.faults, Nowhere);
    var (t, ok) := Delivering(s, package, m, named);
    if !First(s.fetches, false) || !Acceptable(m.archive) || !Free(s.store.db, package, Paths(wheel)) {
      assert Begun(s, t) == [] && t.store == s.store && !ok;
    } else {
      var x := Attempted(s.store.files, wheel, Obsolete(s.store.db, package, wheel), fault);
      FilesDistinct(m.archive);
      AttemptLoses(s.store, package, m.version, wheel, named, fault);
      OneBegun(s, t, x);
      if !ok && Lost(x) == {} {
        NoneLost(s.store, Lost(x));
      }
    }
  }

  lemma {:induction false} DependenciesCareful(w: World, s: State, stack: seq<Name>, requirements: seq<Requirement>,
                                               k: nat, before: Database, installed: seq<Name>)
    requires k <= |requirements| && Disjoint(s.store.db)
    ensures Careful(s, DependenciesInstalled(w, s, stack, requirements, k, before, installed).state)
    decreases Left(w, stack), 1, |requirements| - k
  {
    assert Careful(s, s);
    if k < |requirements| && requirements[k].name.Some? {
      var r := requirements[k];
      var n := r.name.value;
      if Satisfies(w, before, r) {
        DependenciesCareful(w, s, stack, requirements, k + 1, before, installed);
      } else if n !in before {
        var (t, outcome) := Installed(w, s, n, stack);
        InstalledKeeps(w, s, n, stack);
        InstalledCareful(w, s, n, stack);
        if outcome.Done? && Satisfies(w, t.store.db, r) {
          DependenciesCareful(w, t, stack, requirements, k + 1, before, installed + [n]);
          CarefulTransitive(s, t, DependenciesInstalled(w, t, stack, requirements, k + 1, before, installed + [n]).state);
        }
      }
    }
  }

  /** Recorded files exist while no commit on the way loses one; and on failure the
      files of the package that are gone are ones a commit on the way lost. */
  lemma {:induction false} InstalledCareful(w: World, s: State, package: Name, stack: seq<Name>)
    requires Disjoint(s.store.db)
    ensures var (t, outcome) := Installed(w, s, package, stack);
            Careful(s, t) && (outcome.Failed? ==> Missing(s.store, t.store, package) <= LostIn(Begun(s, t)))
    decreases Left(w, stack), 0, 0
  {
    assert Careful(s, s) && Missing(s.store, s.store, package) == {};
    if package !in stack && Answer(w, s, package).Some? {
      var m := Answer(w, s, package).value;
      var requirements, inner, t := Requirements(m.dependencies), stack + [package], Resolved(s);
      LeftDecreases(w, stack, package);
      NothingYet(w, t, inner, package);
      DependenciesKeep(w, t, inner, package, requirements, 0, s.store, []);
      DependenciesCareful(w, t, inner, requirements, 0, s.store.db, []);
      var p := DependenciesInstalled(w, t, inner, requirements, 0, s.store.db, []);
      ConcludedCareful(w.universe, t, p, package, m, stack);
    }
  }

  lemma ConcludedCareful(u: Universe, s: State, p: Prepared, package: Name, m: Manifest, stack: seq<Name>)
    requires Ready(u, stack + [package], package, s.store, p.state.store, p.installed) && package !in stack
    requires Careful(s, p.state)
    ensures var (t, outcome) := Concluded(p, package, m, stack == []);
            Careful(s, t) && (outcome.Failed? ==> Missing(s.store, t.store, package) <= LostIn(Begun(s, t)))
  {
    var c := if p.ok then Delivering(p.state, package, m, stack == []).0 else p.state;
    var (t, outcome) := Concluded(p, package, m, stack == []);
    ConcludedMeans(p, package, m, stack == []);
    if p.ok {
      DeliveringLoses(p.state, package, m, stack == []);
    } else {
      assert Begun(c, c) == [] && Missing(c.store, c.store, package) == {};
    }
    CarefulTransitive(s, p.state, c);
    BegunBoth(s, p.state, c);
    if outcome.Failed? {
      UninstalledAllKeeps(c, p.installed);
      FailureKeeps(u, s.store, p.state.store, c.store, t.store, package, stack, p.installed);
      assert t.log == c.log;
    }
  }

  // ------------------------------------------------------------ requirements

  /** No later requirement is for the same package. */
  predicate LastForItsName(requirements: seq<Requirement>, i: nat)
    requires i < |requirements|
  {
    forall j | i < j < |requirements| :: requirements[j].name != requirements[i].name
  }

  /** The first `k` requirements hold, but for those a later one of the same
      name took over from. */
  predicate Met(w: World, db: Database, requirements: seq<Requirement>, k: nat)
    requires k <= |requirements|
  {
    forall i | 0 <= i < k && LastForItsName(requirements[..k], i) :: Satisfies(w, db, requirements[i])
  }

  /** Every direct requirement holds, but for those of its own name and those a
      later requirement of the same name took over from. */
  predicate DirectlyMet(w: World, db: Database, package: Name, requirements: seq<Requirement>) {
    forall i | 0 <= i < |requirements| && LastForItsName(requirements, i) && requirements[i].name != Some(package) ::
      Satisfies(w, db, requirements[i])
  }

  lemma MetStep(w: World, db1: Database, db2: Database, requirements: seq<Requirement>, k: nat)
    requires k < |requirements| && Met(w, db1, requirements, k) && Satisfies(w, db2, requirements[k])
    requires forall n | n in db1 :: n in db2 && (Some(n) == requirements[k].name || db2[n] == db1[n])
    ensures Met(w, db2, requirements, k + 1)
  {
    forall i | 0 <= i < k + 1 && LastForItsName(requirements[..k + 1], i)
      ensures Satisfies(w, db2, requirements[i])
    {
      if i < k {
        assert requirements[..k + 1][k].name != requirements[i].name;
        forall j | i < j < k
          ensures requirements[..k][j].name != requirements[..k][i].name
        {
          assert requirements[..k + 1][j].name != requirements[..k + 1][i].name;
        }
        assert Satisfies(w, db1, requirements[i]);
      }
    }
  }

  /** The package required is installed in a version within the specifier. */
  predicate HeldBy(w: World, db: Database, r: Requirement) {
    exists n :: r.name == Some(n) && n in db && w.accepts(db[n].version, r.specifier)
  }

  lemma SatisfiesMeans(w: World, db: Database, r: Requirement)
    ensures Satisfies(w, db, r) <==> HeldBy(w, db, r)
  {
  }

  /** Every applicable line's requirement holds, but for those of the package's own
      name and those a later applicable line of the same name took over from. */
  predicate LinesMet(w: World, db: Database, package: Name, lines: seq<Dependency>) {
    forall i | 0 <= i < |lines| && lines[i].Applies? && lines[i].requirement.name != Some(package)
               && LastLine(lines, i) ::
      HeldBy(w, db, lines[i].requirement)
  }

  predicate LastLine(lines: seq<Dependency>, i: nat)
    requires i < |lines| && lines[i].Applies?
  {
    forall j | i < j < |lines| && lines[j].Applies? :: lines[j].requirement.name != lines[i].requirement.name
  }

  /** A line that is the last of its name is the last requirement of it. */
  lemma LineAsRequirement(lines: seq<Dependency>, i: nat)
    requires i < |lines| && lines[i].Applies? && LastLine(lines, i)
    ensures var j, all := |Requirements(lines[..i])|, Requirements(lines);
            j < |all| && all[j] == lines[i].requirement && LastForItsName(all, j)
  {
    var before, after, r := lines[..i], lines[i + 1..], lines[i].requirement;
    assert lines == before + ([lines[i]] + after);
    RequirementsOfBoth(before, [lines[i]] + after);
    RequirementsOfBoth([lines[i]], after);
    RequirementOfLine(lines[i]);
    forall x | x in Requirements(after) ensures x.name != r.name {
      NotAfter(lines, i, x);
    }
    LastAmong(Requirements(before), r, Requirements(after));
  }

  lemma NotAfter(lines: seq<Dependency>, i: nat, x: Requirement)
    requires i < |lines| && lines[i].Applies? && LastLine(lines, i) && x in Requirements(lines[i + 1..])
    ensures x.name != lines[i].requirement.name
  {
    RequirementFromLine(lines[i + 1..], x);
    var l :| 0 <= l < |lines[i + 1..]| && lines[i + 1..][l] == Applies(x);
    assert lines[i + 1 + l] == Applies(x);
  }

  lemma LastAmong(before: seq<Requirement>, r: Requirement, after: seq<Requirement>)
    requires forall x | x in after :: x.name != r.name
    ensures var all, j := before + ([r] + after), |before|; all[j] == r && LastForItsName(all, j)
  {
    var all, j := before + ([r] + after), |before|;
    forall k | j < k < |all| ensures all[k].name != r.name {
      assert all[k] == after[k - j - 1];
    }
  }

  lemma LinesAreMet(w: World, db: Database, package: Name, lines: seq<Dependency>)
    requires DirectlyMet(w, db, package, Requirements(lines))
    ensures LinesMet(w, db, package, lines)
  {
    forall i | 0 <= i < |lines| && lines[i].Applies? && lines[i].requirement.name != Some(package) && LastLine(lines, i)
      ensures HeldBy(w, db, lines[i].requirement)
    {
      LineAsRequirement(lines, i);
    }
  }

  /** What holds of the direct requirements survives the commit. */
  lemma MetDirectly(w: World, a: Store, b: Store, package: Name, requirements: seq<Requirement>)
    requires Met(w, a.db, requirements, |requirements|) && KeptBut(a, b, {package})
    ensures DirectlyMet(w, b.db, package, requirements)
  {
    assert requirements[..|requirements|] == requirements;
  }

  /** The requirement that is next is met, and those before it still are. */
  lemma NextMet(w: World, s: State, stack: seq<Name>, owner: Name, requirements: seq<Requirement>, k: nat, a: Store,
                installed: seq<Name>, n: Name)
    requires k < |requirements| && stack != [] && Ready(w.universe, stack, owner, a, s.store, installed)
    requires requirements[k].name == Some(n) && n !in a.db
    requires Asks(requirements, n) ==> Needs(w.universe, owner, n)
    requires Met(w, s.store.db, requirements, k)
    requires Satisfies(w, Installed(w, s, n, stack).0.store.db, requirements[k])
    ensures Met(w, Installed(w, s, n, stack).0.store.db, requirements, k + 1)
  {
    InstalledKeeps(w, s, n, stack);
    NextReady(w, s, stack, owner, requirements, k, a, installed, n);
    MetStep(w, s.store.db, Installed(w, s, n, stack).0.store.db, requirements, k);
  }

  lemma StillMet(w: World, a: Store, b: Store, requirements: seq<Requirement>, k: nat)
    requires k < |requirements| && Satisfies(w, a.db, requirements[k]) && KeptBut(a, b, {})
    requires Met(w, b.db, requirements, k)
    ensures Met(w, b.db, requirements, k + 1)
  {
    assert Intact(a, b, requirements[k].name.value);
    MetStep(w, b.db, b.db, requirements, k);
  }

  /** The first `k` requirements of `owner` are worked through. */
  ghost predicate Working(w: World, s: State, stack: seq<Name>, owner: Name, requirements: seq<Requirement>, k: nat,
                          a: Store, installed: seq<Name>) {
    && k <= |requirements| && stack != [] && Ready(w.universe, stack, owner, a, s.store, installed)
    && (forall n | Asks(requirements, n) :: Needs(w.universe, owner, n))
    && Met(w, s.store.db, requirements, k)
  }

  lemma SkipWorking(w: World, s: State, stack: seq<Name>, owner: Name, requirements: seq<Requirement>, k: nat,
                    a: Store, installed: seq<Name>)
    requires Working(w, s, stack, owner, requirements, k, a, installed)
    requires k < |requirements| && Satisfies(w, a.db, requirements[k])
    ensures Working(w, s, stack, owner, requirements, k + 1, a, installed)
    ensures DependenciesInstalled(w, s, stack, requirements, k, a.db, installed) ==
            DependenciesInstalled(w, s, stack, requirements, k + 1, a.db, installed)
  {
    StillMet(w, a, s.store, requirements, k);
  }

  lemma NextWorking(w: World, s: State, stack: seq<Name>, owner: Name, requirements: seq<Requirement>, k: nat,
                    a: Store, installed: seq<Name>, n: Name)
    requires Working(w, s, stack, owner, requirements, k, a, installed)
    requires k < |requirements| && requirements[k].name == Some(n) && n !in a.db
    requires Installed(w, s, n, stack).1.Done?
    requires Satisfies(w, Installed(w, s, n, stack).0.store.db, requirements[k])
    ensures Working(w, Installed(w, s, n, stack).0, stack, owner, requirements, k + 1, a, installed + [n])
  {
    InstalledKeeps(w, s, n, stack);
    NextReady(w, s, stack, owner, requirements, k, a, installed, n);
    NextMet(w, s, stack, owner, requirements, k, a, installed, n);
  }

  /** One step over a requirement that is not in the snapshot. */
  lemma InstallStep(w: World, s: State, stack: seq<Name>, requirements: seq<Requirement>, k: nat, before: Database,
                    installed: seq<Name>, n: Name)
    requires k < |requirements| && requirements[k].name == Some(n) && n !in before
    ensures var (t, outcome) := Installed(w, s, n, stack);
            DependenciesInstalled(w, s, stack, requirements, k, before, installed) ==
            if outcome.Failed? then Prepared(t, false, installed)
            else if !Satisfies(w, t.store.db, requirements[k]) then Prepared(t, false, installed + [n])
            else DependenciesInstalled(w, t, stack, requirements, k + 1, before, installed + [n])
  {
  }

  /** Although the snapshot is never refreshed, the requirements worked through stay
      satisfied while later ones install. */
  lemma {:induction false} DependenciesMeet(w: World, s: State, stack: seq<Name>, owner: Name,
                                            requirements: seq<Requirement>, k: nat, a: Store, installed: seq<Name>)
    requires Working(w, s, stack, owner, requirements, k, a, installed)
    ensures var p := DependenciesInstalled(w, s, stack, requirements, k, a.db, installed);
            p.ok ==> Met(w, p.state.store.db, requirements, |requirements|)
    decreases |requirements| - k
  {
    if k < |requirements| && requirements[k].name.Some? {
      var r := requirements[k];
      var n := r.name.value;
      if Satisfies(w, a.db, r) {
        SkipWorking(w, s, stack, owner, requirements, k, a, installed);
        DependenciesMeet(w, s, stack, owner, requirements, k + 1, a, installed);
      } else if n !in a.db {
        InstallStep(w, s, stack, requirements, k, a.db, installed, n);
        var (t, outcome) := Installed(w, s, n, stack);
        if outcome.Done? && Satisfies(w, t.store.db, r) {
          NextWorking(w, s, stack, owner, requirements, k, a, installed, n);
          DependenciesMeet(w, t, stack, owner, requirements, k + 1, a, installed + [n]);
        }
      }
    }
  }

  // ---------------------------------------------------- what success comes to

  /** The work on the requirements of a package whose manifest is known. */
  function PreparedFor(w: World, s: State, package: Name, m: Manifest, stack: seq<Name>): Prepared {
    DependenciesInstalled(w, Resolved(s), stack + [package], Requirements(m.dependencies), 0, s.store.db, [])
  }

  lemma PreparedIsReady(w: World, s: State, package: Name, m: Manifest, stack: seq<Name>)
    requires Disjoint(s.store.db) && Answer(w, s, package) == Some(m)
    ensures var p := PreparedFor(w, s, package, m, stack);
            && Ready(w.universe, stack + [package], package, s.store, p.state.store, p.installed)
            && (p.ok ==> Met(w, p.state.store.db, Requirements(m.dependencies), |Requirements(m.dependencies)|))
  {
    NothingYet(w, Resolved(s), stack + [package], package);
    DependenciesKeep(w, Resolved(s), stack + [package], package, Requirements(m.dependencies), 0, s.store, []);
    DependenciesMeet(w, Resolved(s), stack + [package], package, Requirements(m.dependencies), 0, s.store, []);
  }

  lemma DeliveredSince(a: Store, b: Store, package: Name, m: Manifest, named: bool)
    requires KeptBut(a, b, {}) && (package !in a.db ==> package !in b.db) && Acceptable(m.archive)
    requires Free(b.db, package, Paths(Files(m.archive)))
    ensures Delivered(a, CommittedStore(b, package, m.version, Files(m.archive), named), package, m.version, m.archive,
                      named)
  {
    assert package in a.db ==> Intact(a, b, package);
  }

  /** A record has the version, the names of the wheel's files, and the flag that is
      never lost. */
  lemma RecordMeans(db: Database, package: Name, version: Version, wheel: seq<Member>, named: bool)
    ensures Recorded(db, package, version, wheel, named) ==
            Record(version, set f | f in wheel :: f.filename, named || (package in db && db[package].explicit))
  {
    var names := set f | f in wheel :: f.filename;
    forall n ensures n in names <==> n in Paths(wheel) {
      PathsAreNames(wheel, n);
      if n in names {
        var f :| f in wheel && f.filename == n;
        var i :| 0 <= i < |wheel| && wheel[i] == f;
        assert wheel[i].filename == n;
      }
    }
  }

  /** On success the answer taken is installed: its record, all its files and no
      obsolete one; every direct requirement is satisfied; what was installed for it
      is new, needed and there. */
  lemma InstalledDelivers(w: World, s: State, package: Name, stack: seq<Name>)
    requires Disjoint(s.store.db) && Installed(w, s, package, stack).1.Done?
    ensures var (t, outcome) := Installed(w, s, package, stack);
            && package !in stack && Answer(w, s, package).Some?
            && var m := Answer(w, s, package).value;
            && outcome == Done(m.version, |Files(m.archive)|, PreparedFor(w, s, package, m, stack).installed)
            && Delivered(s.store, t.store, package, m.version, m.archive, stack == [])
            && DirectlyMet(w, t.store.db, package, Requirements(m.dependencies))
            && LinesMet(w, t.store.db, package, m.dependencies)
            && t.store.db[package] == Record(m.version, set f | f in Files(m.archive) :: f.filename,
                                             stack == [] || (package in s.store.db && s.store.db[package].explicit))
            && forall d | d in outcome.dependencies ::
                 d !in s.store.db && d in t.store.db && Needs(w.universe, package, d)
  {
    var m := Answer(w, s, package).value;
    var p, named := PreparedFor(w, s, package, m, stack), stack == [];
    PreparedIsReady(w, s, package, m, stack);
    DeliveringIff(p.state, package, m, named);
    DeliveringKeeps(p.state, package, m, named);
    var t := Delivering(p.state, package, m, named).0;
    MetDirectly(w, p.state.store, t.store, package, Requirements(m.dependencies));
    assert package in stack + [package];
    DeliveredSince(s.store, p.state.store, package, m, named);
    LinesAreMet(w, t.store.db, package, m.dependencies);
    RecordMeans(s.store.db, package, m.version, Files(m.archive), named);
    assert forall d | d in p.installed :: Intact(p.state.store, t.store, d);
  }

  /** The artifact is committed exactly when it is fetched and sound, none of its
      files is another package's, and the commit is not stopped. */
  lemma DeliveringIff(s: State, package: Name, m: Manifest, named: bool)
    ensures var wheel := Files(m.archive);
            Delivering(s, package, m, named).1 <==>
            && First(s.fetches, false) && Acceptable(m.archive) && Free(s.store.db, package, Paths(wheel))
            && !Stops(wheel, Obsolete(s.store.db, package, wheel), First(s.faults, Nowhere))
  {
  }

  /** A simpler form without any failure handling: each resolution, requirement,
      fetch and commit has to succeed. */
  function Straight(w: World, s: State, package: Name, stack: seq<Name>): Option<(State, seq<Name>)>
    decreases Left(w, stack), 0, 0
  {
    if package in stack then None
    else
      match Answer(w, s, package)
      case None => None
      case Some(m) =>
        LeftDecreases(w, stack, package);
        match StraightDependencies(w, Resolved(s), stack + [package], Requirements(m.dependencies), 0, s.store.db, [])
        case None => None
        case Some((t, installed)) =>
          var (u, ok) := Delivering(t, package, m, stack == []);
          if ok then Some((u, installed)) else None
  }

  function StraightDependencies(w: World, s: State, stack: seq<Name>, requirements: seq<Requirement>, k: nat,
                                before: Database, installed: seq<Name>): Option<(State, seq<Name>)>
    requires k <= |requirements|
    decreases Left(w, stack), 1, |requirements| - k
  {
    if k == |requirements| then Some((s, installed))
    else
      var r := requirements[k];
      if r.name.None? then None
      else if Satisfies(w, before, r) then StraightDependencies(w, s, stack, requirements, k + 1, before, installed)
      else if r.name.value in before then None
      else
        match Straight(w, s, r.name.value, stack)
        case None => None
        case Some((t, _)) =>
          if Satisfies(w, t.store.db, r)
          then StraightDependencies(w, t, stack, requirements, k + 1, before, installed + [r.name.value])
          else None
  }

  /** An install succeeds exactly when the form without failure handling goes
      through, and then does the same. */
  lemma {:induction false} InstalledIsStraight(w: World, s: State, package: Name, stack: seq<Name>)
    ensures var (t, outcome) := Installed(w, s, package, stack);
            var plain := Straight(w, s, package, stack);
            && (outcome.Done? <==> plain.Some?)
            && (outcome.Done? ==> plain == Some((t, outcome.dependencies)))
    decreases Left(w, stack), 0, 0
  {
    if package !in stack && Answer(w, s, package).Some? {
      var m := Answer(w, s, package).value;
      LeftDecreases(w, stack, package);
      DependenciesAreStraight(w, Resolved(s), stack + [package], Requirements(m.dependencies), 0, s.store.db, []);
    }
  }

  lemma {:induction false} DependenciesAreStraight(w: World, s: State, stack: seq<Name>, requirements: seq<Requirement>,
                                                   k: nat, before: Database, installed: seq<Name>)
    requires k <= |requirements|
    ensures var p := DependenciesInstalled(w, s, stack, requirements, k, before, installed);
            StraightDependencies(w, s, stack, requirements, k, before, installed) ==
            if p.ok then Some((p.state, p.installed)) else None
    decreases Left(w, stack), 1, |requirements| - k
  {
    if k < |requirements| && requirements[k].name.Some? {
      var r := requirements[k];
      var n := r.name.value;
      if Satisfies(w, before, r) {
        DependenciesAreStraight(w, s, stack, requirements, k + 1, before, installed);
      } else if n !in before {
        var (t, outcome) := Installed(w, s, n, stack);
        InstalledIsStraight(w, s, n, stack);
        if outcome.Done? && Satisfies(w, t.store.db, r) {
          DependenciesAreStraight(w, t, stack, requirements, k + 1, before, installed + [n]);
        }
      }
    }
  }

  /** Requirements that all hold in the snapshot are passed over. */
  lemma {:induction false} AllHold(w: World, s: State, stack: seq<Name>, requirements: seq<Requirement>, k: nat,
                                   before: Database)
    requires k <= |requirements| && forall r | r in requirements :: HeldBy(w, before, r)
    ensures DependenciesInstalled(w, s, stack, requirements, k, before, []) == Prepared(s, true, [])
    decreases |requirements| - k
  {
    if k < |requirements| {
      assert HeldBy(w, before, requirements[k]);
      AllHold(w, s, stack, requirements, k + 1, before);
    }
  }

  /** A package whose requirements are all installed, if it has any, is installed
      exactly when it is not being installed further up, the resolver answers, the
      artifact is fetched and sound, its files are free, and the commit is not stopped;
      no other package comes in. */
  lemma LeafSucceeds(w: World, s: State, package: Name, stack: seq<Name>, m: Manifest)
    requires First(s.answers, None) == Some(m)
    requires forall d | d in m.dependencies && d.Applies? :: HeldBy(w, s.store.db, d.requirement)
    ensures var wheel := Files(m.archive);
            var (t, outcome) := Installed(w, s, package, stack);
            && (outcome.Done? <==>
                && package !in stack && package in w.universe && m in w.universe[package]
                && First(s.fetches, false) && Acceptable(m.archive) && Free(s.store.db, package, Paths(wheel))
                && !Stops(wheel, Obsolete(s.store.db, package, wheel), First(s.faults, Nowhere)))
            && outcome == (if outcome.Done? then Done(m.version, |wheel|, []) else Failed(true))
  {
    forall r | r in Requirements(m.dependencies) ensures HeldBy(w, s.store.db, r) {
      RequirementFromLine(m.dependencies, r);
      assert Applies(r) in m.dependencies;
    }
    AllHold(w, Resolved(s), stack + [package], Requirements(m.dependencies), 0, s.store.db);
    DeliveringIff(Resolved(s), package, m, stack == []);
  }

  // ------------------------------------------------------- what failure leaves

  /** A failed install leaves, of what came in for the requirements, all but the
      packages installed directly; the database is as before exactly when these were
      all. */
  lemma FailureLeaves(w: World, s: State, package: Name, m: Manifest, stack: seq<Name>)
    requires Disjoint(s.store.db) && package !in stack && Answer(w, s, package) == Some(m)
    requires Installed(w, s, package, stack).1.Failed?
    ensures var t, p := Installed(w, s, package, stack).0, PreparedFor(w, s, package, m, stack);
            var brought := p.state.store.db.Keys - s.store.db.Keys;
            && t.store.db.Keys == s.store.db.Keys + (brought - Listed(p.installed))
            && (forall n | n in t.store.db :: n in p.state.store.db && t.store.db[n] == p.state.store.db[n])
            && (t.store.db == s.store.db <==> brought <= Listed(p.installed))
  {
    var t, p := Installed(w, s, package, stack).0, PreparedFor(w, s, package, m, stack);
    PreparedIsReady(w, s, package, m, stack);
    ConcludedMeans(p, package, m, stack == []);
    var c := if p.ok then Delivering(p.state, package, m, stack == []).0.store else p.state.store;
    assert forall n | n in t.store.db :: Intact(c, t.store, n);
    LeavesKeys(s.store, p.state.store, t.store, p.installed);
  }

  lemma LeavesKeys(a: Store, b: Store, d: Store, installed: seq<Name>)
    requires KeptBut(a, b, {}) && (forall n | n in installed :: n !in a.db)
    requires d.db.Keys == b.db.Keys - Listed(installed)
    requires forall n | n in d.db :: n in b.db && d.db[n] == b.db[n]
    ensures var brought := b.db.Keys - a.db.Keys;
            && d.db.Keys == a.db.Keys + (brought - Listed(installed))
            && (d.db == a.db <==> brought <= Listed(installed))
  {
    forall n | n in a.db ensures n in b.db && b.db[n] == a.db[n] {
      assert Intact(a, b, n);
    }
    if b.db.Keys - a.db.Keys <= Listed(installed) {
      assert d.db.Keys == a.db.Keys;
    }
  }

  /** For the caller: when all that the package requires through others is installed
      already, a failed install leaves the database as it was, and in a tree that only
      packages own every file but those a commit lost. */
  lemma FailureRestores(w: World, s: State, package: Name, stack: seq<Name>)
    requires Disjoint(s.store.db) && Installed(w, s, package, stack).1.Failed?
    requires forall n | Deep(w.universe, package, n) :: n in s.store.db
    ensures var t := Installed(w, s, package, stack).0;
            && t.store.db == s.store.db
            && ((forall f | f in s.store.files :: !Unowned(s.store.db, f)) ==>
                t.store.files == s.store.files - Missing(s.store, t.store, package))
  {
    var t := Installed(w, s, package, stack).0;
    InstalledKeeps(w, s, package, stack);
    InstalledLeavesNone(w, s, package, stack);
    SameDatabase(s.store, t.store, package);
    if forall f | f in s.store.files :: !Unowned(s.store.db, f) {
      TreeRestored(s.store, t.store, package);
    }
  }

  lemma SameDatabase(a: Store, b: Store, package: Name)
    requires KeptBut(a, b, {package}) && RolledBack(a, b, package) && forall n | n in b.db :: n in a.db
    ensures b.db == a.db
  {
    forall n | n in a.db ensures n in b.db && b.db[n] == a.db[n] {
      assert n != package ==> Intact(a, b, n);
    }
  }

  // -------------------------------------------------------------------- runs

  datatype Command = InstallNamed(package: Name) | UninstallNamed(package: Name)

  function Performed(w: World, s: State, c: Command): (State, bool) {
    match c
    case InstallNamed(n) => var (t, outcome) := Installed(w, s, n, []); (t, outcome.Done?)
    case UninstallNamed(n) => (Uninstalled(s, n), n in s.store.db)
  }

  /** A run, and which of its commands succeeded. */
  function RunOf(w: World, s: State, commands: seq<Command>): (r: (State, seq<bool>))
    ensures |r.1| == |commands|
  {
    if commands == [] then (s, [])
    else
      var (t, done) := RunOf(w, s, commands[..|commands| - 1]);
      var (u, ok) := Performed(w, t, commands[|commands| - 1]);
      (u, done + [ok])
  }

  /** No later command uninstalls the package. */
  predicate Stands(commands: seq<Command>, n: Name, i: nat) {
    forall j | i < j < |commands| :: commands[j] != UninstallNamed(n)
  }

  /** A run leaves a package explicit: it was, and was not uninstalled, or an
      install by name succeeded, and it was not uninstalled since. */
  predicate Flagged(db0: Database, commands: seq<Command>, done: seq<bool>, n: Name)
    requires |done| == |commands|
  {
    || (n in db0 && db0[n].explicit && UninstallNamed(n) !in commands)
    || exists i :: 0 <= i < |commands| && commands[i] == InstallNamed(n) && done[i] && Stands(commands, n, i)
  }

  function Mentioned(commands: seq<Command>): set<Name> {
    set c | c in commands :: c.package
  }

  lemma FlaggedStep(db0: Database, commands: seq<Command>, done: seq<bool>, c: Command, ok: bool, n: Name)
    requires |done| == |commands|
    ensures Flagged(db0, commands + [c], done + [ok], n) <==>
            (c == InstallNamed(n) && ok) || (Flagged(db0, commands, done, n) && c != UninstallNamed(n))
  {
    var all, dones := commands + [c], done + [ok];
    assert all[|commands|] == c && dones[|commands|] == ok && Stands(all, n, |commands|);
    assert forall i | 0 <= i < |commands| :: all[i] == commands[i] && dones[i] == done[i];
    forall i | 0 <= i < |commands|
      ensures Stands(all, n, i) <==> Stands(commands, n, i) && c != UninstallNamed(n)
    {
    }
    if i :| 0 <= i < |commands| && commands[i] == InstallNamed(n) && done[i] && Stands(commands, n, i) {
      assert all[i] == InstallNamed(n) && dones[i] && (c != UninstallNamed(n) ==> Stands(all, n, i));
    }
  }

  /** What one command does: other packages stay, new ones are not explicit, the
      package it names is explicit, as before, or gone with its files. */
  predicate Performance(a: Store, b: Store, c: Command, ok: bool) {
    && KeptBut(a, b, {c.package}) && NoStray(a, b)
    && (forall n | n in b.db && n !in a.db && n != c.package :: !b.db[n].explicit)
    && match c
       case InstallNamed(n) =>
         if ok then n in b.db && b.db[n].explicit
         else (n in b.db <==> n in a.db) && (n in a.db ==> b.db[n] == a.db[n])
       case UninstallNamed(n) => n !in b.db && ok == (n in a.db) && Owned(a.db, n) !! b.files.Keys
  }

  lemma PerformedMeans(w: World, s: State, c: Command)
    requires Disjoint(s.store.db)
    ensures var (t, ok) := Performed(w, s, c);
            Disjoint(t.store.db) && Performance(s.store, t.store, c, ok) && Careful(s, t)
  {
    match c {
      case InstallNamed(n) =>
        InstalledKeeps(w, s, n, []);
        InstalledLeavesNone(w, s, n, []);
        InstalledCareful(w, s, n, []);
      case UninstallNamed(n) =>
        RemoveKeeps(s.store, n);
        assert Begun(s, Uninstalled(s, n)) == [];
    }
  }

  /** The flags are those the commands account for. */
  predicate FlagsKept(a: Store, b: Store, commands: seq<Command>, done: seq<bool>)
    requires |done| == |commands|
  {
    forall n | n in b.db.Keys + a.db.Keys + Mentioned(commands) ::
      (n in b.db && b.db[n].explicit) <==> Flagged(a.db, commands, done, n)
  }

  lemma FlaggedKnown(db0: Database, commands: seq<Command>, done: seq<bool>, n: Name)
    requires |done| == |commands| && Flagged(db0, commands, done, n)
    ensures n in db0 || n in Mentioned(commands)
  {
    if n !in db0 {
      var i :| 0 <= i < |commands| && commands[i] == InstallNamed(n) && done[i] && Stands(commands, n, i);
      assert commands[i] in commands;
    }
  }

  lemma FlagsStep(a: Store, b: Store, c: Store, commands: seq<Command>, done: seq<bool>, x: Command, ok: bool, n: Name)
    requires |done| == |commands| && FlagsKept(a, b, commands, done) && Performance(b, c, x, ok)
    ensures (n in c.db && c.db[n].explicit) <==> Flagged(a.db, commands + [x], done + [ok], n)
  {
    FlaggedStep(a.db, commands, done, x, ok, n);
    if n !in b.db.Keys + a.db.Keys + Mentioned(commands) && Flagged(a.db, commands, done, n) {
      FlaggedKnown(a.db, commands, done, n);
    }
    assert n in b.db && n != x.package ==> Intact(b, c, n);
  }

  /** Packages no command names are as they were; one that is not uninstalled stays. */
  predicate PackagesKept(a: Store, b: Store, commands: seq<Command>) {
    KeptBut(a, b, Mentioned(commands)) && forall n | n in a.db && UninstallNamed(n) !in commands :: n in b.db
  }

  lemma PackagesStep(a: Store, b: Store, c: Store, commands: seq<Command>, x: Command, ok: bool)
    requires PackagesKept(a, b, commands) && Performance(b, c, x, ok)
    ensures PackagesKept(a, c, commands + [x])
  {
    var all := commands + [x];
    assert Mentioned(all) == Mentioned(commands) + {x.package};
    KeptTransitive(a, b, c, Mentioned(commands), {x.package});
    forall n | n in a.db && UninstallNamed(n) !in all ensures n in c.db {
      assert UninstallNamed(n) !in commands && all[|commands|] == x;
      assert n in b.db && n != x.package ==> Intact(b, c, n);
    }
  }

  /** What a run keeps, in terms of its commands and which of them succeeded. */
  predicate Account(a: Store, b: Store, commands: seq<Command>, done: seq<bool>)
    requires |done| == |commands|
  {
    FlagsKept(a, b, commands, done) && PackagesKept(a, b, commands) && NoStray(a, b)
  }

  lemma AccountStep(a: Store, b: Store, c: Store, commands: seq<Command>, done: seq<bool>, x: Command, ok: bool)
    requires |done| == |commands| && Account(a, b, commands, done) && Performance(b, c, x, ok)
    ensures Account(a, c, commands + [x], done + [ok])
  {
    forall n | n in c.db.Keys + a.db.Keys + Mentioned(commands + [x])
      ensures (n in c.db && c.db[n].explicit) <==> Flagged(a.db, commands + [x], done + [ok], n)
    {
      FlagsStep(a, b, c, commands, done, x, ok, n);
    }
    PackagesStep(a, b, c, commands, x, ok);
    NoStrayTransitive(a, b, c);
  }

  lemma AccountStarts(s: Store)
    ensures Account(s, s, [], [])
  {
    assert Mentioned([]) == {};
  }

  /** Any run of installs by name and uninstalls, whatever comes from outside: no
      file gets two owners; a package is explicit exactly when it was and was not
      uninstalled, or an install of it by name succeeded and it was not uninstalled
      since; packages no command names are as they were; no file is left that belongs
      to no package; recorded files exist while no commit loses one. */
  lemma {:induction false} RunKeeps(w: World, s: State, commands: seq<Command>)
    requires Disjoint(s.store.db)
    ensures var (t, done) := RunOf(w, s, commands);
            Disjoint(t.store.db) && Account(s.store, t.store, commands, done) && Careful(s, t)
  {
    if commands == [] {
      AccountStarts(s.store);
      assert Begun(s, s) == [];
    } else {
      var front, x := commands[..|commands| - 1], commands[|commands| - 1];
      var (t, done) := RunOf(w, s, front);
      RunKeeps(w, s, front);
      PerformedMeans(w, t, x);
      RunExtends(s, t, Performed(w, t, x).0, front, done, x, Performed(w, t, x).1);
      assert front + [x] == commands;
    }
  }

  lemma RunExtends(s: State, t: State, u: State, front: seq<Command>, done: seq<bool>, x: Command, ok: bool)
    requires |done| == |front| && Account(s.store, t.store, front, done) && Careful(s, t)
    requires Performance(t.store, u.store, x, ok) && Careful(t, u)
    ensures Account(s.store, u.store, front + [x], done + [ok]) && Careful(s, u)
  {
    AccountStep(s.store, t.store, u.store, front, done, x, ok);
    CarefulTransitive(s, t, u);
  }
}
