/** A failed install that leaves a package behind: `a` requires `c`, `c` requires `b`,
    and the commit of `a` is stopped before its first file is in place. */
module LeftBehind {
  import opened Wrappers
  import opened Wheels
  import opened PackageState
  import opened InstallModel

  function WheelFile(n: Name): string {
    n + ".dist-info/WHEEL"
  }

  function RecordFile(n: Name): string {
    n + ".dist-info/RECORD"
  }

  /** The smallest archive that is accepted. */
  function Archive(n: Name): seq<Member> {
    [Member(WheelFile(n), [n], false, 0, ""), Member(RecordFile(n), [n], false, 0, "")]
  }

  function Package(n: Name, needs: seq<Name>): Manifest {
    Manifest("1", seq(|needs|, i requires 0 <= i < |needs| => Applies(Requirement(Some(needs[i]), ""))), Archive(n))
  }

  function A(): Manifest {
    Package("a", ["c"])
  }

  function B(): Manifest {
    Package("b", [])
  }

  function C(): Manifest {
    Package("c", ["b"])
  }

  function Three(): World {
    World(map["a" := {A()}, "b" := {B()}, "c" := {C()}], (v, s) => true)
  }

  /** Nothing is installed, everything resolves and is fetched, and the third commit
      is stopped. */
  function Start(): State {
    State(Store(map[], map[]), [Some(A()), Some(C()), Some(B())], [true, true, true], [Nowhere, Nowhere, Placing(0)], [])
  }

  // ---------------------------------------------------------------- archives

  lemma Suffixes(n: Name)
    ensures EndsWith(WheelFile(n), ".dist-info/WHEEL") && EndsWith(RecordFile(n), ".dist-info/RECORD")
    ensures WheelFile(n) != RecordFile(n)
  {
    var wheel, record := ".dist-info/WHEEL", ".dist-info/RECORD";
    assert (n + wheel)[|n|..] == wheel && (n + record)[|n|..] == record;
    assert |WheelFile(n)| != |RecordFile(n)|;
  }

  lemma ArchiveFiles(n: Name)
    ensures Files(Archive(n)) == Archive(n) && TotalSize(Archive(n)) == 0
  {
    var all := Archive(n);
    var one := [all[0]];
    assert one[..0] == [] && [] + one == one;
    assert Files(one) == one && TotalSize(one) == 0;
    assert all[..1] == one && one + [all[1]] == all;
  }

  lemma ArchiveIsAccepted(n: Name)
    requires n in {"a", "b", "c"}
    ensures Acceptable(Archive(n)) && Files(Archive(n)) == Archive(n)
  {
    Suffixes(n);
    ArchiveFiles(n);
    var all := Archive(n);
    assert EndsWith(all[0].filename, ".dist-info/WHEEL") && EndsWith(all[1].filename, ".dist-info/RECORD");
    assert forall i | 0 <= i < |all| :: all[i].parts == [n] && |n| == 1;
    assert n != ".." && n != "" && n != "/";
  }

  lemma ArchivePaths(n: Name)
    ensures Paths(Archive(n)) == {WheelFile(n), RecordFile(n)}
  {
    var all := Archive(n);
    var one := [all[0]];
    assert one[..0] == [];
    assert ContentsOf(one) == map[WheelFile(n) := ""];
    assert all[..1] == one;
  }

  /** The archives of two packages have no file in common. */
  lemma Apart(n: Name, m: Name)
    requires |n| == |m| == 1 && n != m
    ensures Paths(Archive(n)) !! Paths(Archive(m))
  {
    ArchivePaths(n);
    ArchivePaths(m);
    assert n[0] != m[0];
    assert WheelFile(n)[0] == RecordFile(n)[0] == n[0] && WheelFile(m)[0] == RecordFile(m)[0] == m[0];
  }

  // ------------------------------------------------------------------- steps

  lemma NoRequirements(n: Name)
    ensures Requirements(Package(n, []).dependencies) == []
  {
  }

  lemma OneRequirement(n: Name, d: Name)
    ensures Requirements(Package(n, [d]).dependencies) == [Requirement(Some(d), "")]
  {
    var all := Package(n, [d]).dependencies;
    assert all == [Applies(Requirement(Some(d), ""))] && all[..0] == [];
  }

  /** A commit that is fetched, free and not stopped. */
  lemma Delivers(s: State, n: Name, m: Manifest, named: bool)
    requires n in {"a", "b", "c"} && m.archive == Archive(n) && Disjoint(s.store.db) && n !in s.store.db
    requires First(s.fetches, false) && First(s.faults, Saving) == Nowhere
    requires forall o | o in s.store.db :: |o| == 1 && o != n && s.store.db[o].files == Paths(Archive(o))
    ensures var (t, ok) := Delivering(s, n, m, named);
            && ok && Disjoint(t.store.db)
            && t.store.db == s.store.db[n := Record(m.version, Paths(Archive(n)), named)]
            && t.answers == s.answers && t.fetches == Rest(s.fetches) && t.faults == Rest(s.faults)
  {
    ArchiveIsAccepted(n);
    forall o | o in s.store.db && o != n ensures s.store.db[o].files !! Paths(Archive(n)) {
      Apart(o, n);
    }
    DeliveringIff(s, n, m, named);
    DeliveringKeeps(s, n, m, named);
  }

  lemma Answers(n: Name, m: Manifest, s: State)
    requires (n, m) in {("a", A()), ("b", B()), ("c", C())} && First(s.answers, None) == Some(m)
    ensures Answer(Three(), s, n) == Some(m)
  {
    assert "a" != "b" && "b" != "c" && "a" != "c";
  }

  /** A package without requirements. */
  lemma Leaf(s: State, n: Name, m: Manifest, stack: seq<Name>)
    requires Answer(Three(), s, n) == Some(m) && n !in stack && Requirements(m.dependencies) == []
    ensures Installed(Three(), s, n, stack) == Concluded(Prepared(Resolved(s), true, []), n, m, stack == [])
  {
  }

  /** A package with one requirement, not installed yet, that is installed for it. */
  lemma Branch(s: State, n: Name, m: Manifest, stack: seq<Name>, d: Name)
    requires Answer(Three(), s, n) == Some(m) && n !in stack
    requires Requirements(m.dependencies) == [Requirement(Some(d), "")] && d !in s.store.db
    requires var (t, outcome) := Installed(Three(), Resolved(s), d, stack + [n]); outcome.Done? && d in t.store.db
    ensures var t := Installed(Three(), Resolved(s), d, stack + [n]).0;
            && PreparedFor(Three(), s, n, m, stack) == Prepared(t, true, [d])
            && Installed(Three(), s, n, stack) == Concluded(Prepared(t, true, [d]), n, m, stack == [])
  {
    var w, requirements := Three(), [Requirement(Some(d), "")];
    var t := Installed(w, Resolved(s), d, stack + [n]).0;
    assert Satisfies(w, t.store.db, requirements[0]);
    assert DependenciesInstalled(w, t, stack + [n], requirements, 1, s.store.db, [d]) == Prepared(t, true, [d]);
    InstallStep(w, Resolved(s), stack + [n], requirements, 0, s.store.db, [], d);
    assert [] + [d] == [d];
  }

  function RecordOf(n: Name): Record {
    Record("1", Paths(Archive(n)), false)
  }

  lemma InstallsB(s: State)
    requires s == Resolved(Resolved(Start()))
    ensures var (t, outcome) := Installed(Three(), s, "b", ["a", "c"]);
            && outcome.Done? && t.store.db == map["b" := RecordOf("b")]
            && t.answers == [] && t.fetches == [true, true] && t.faults == [Nowhere, Placing(0)]
  {
    Answers("b", B(), s);
    NoRequirements("b");
    Leaf(s, "b", B(), ["a", "c"]);
    Delivers(Resolved(s), "b", B(), false);
  }

  lemma InstallsC(s: State)
    requires s == Resolved(Start())
    ensures var (t, outcome) := Installed(Three(), s, "c", ["a"]);
            && outcome.Done? && t.store.db == map["b" := RecordOf("b"), "c" := RecordOf("c")]
            && t.fetches == [true] && t.faults == [Placing(0)]
  {
    Answers("c", C(), s);
    OneRequirement("c", "b");
    assert ["a"] + ["c"] == ["a", "c"];
    InstallsB(Resolved(s));
    Branch(s, "c", C(), ["a"], "b");
    var t := Installed(Three(), Resolved(s), "b", ["a", "c"]).0;
    InstalledKeeps(Three(), Resolved(s), "b", ["a", "c"]);
    Delivers(t, "c", C(), false);
  }

  /** The install of `a` reports that it was rolled back, and `b` stays. */
  lemma LeavesB()
    ensures var (t, outcome) := Installed(Three(), Start(), "a", []);
            outcome == Failed(true) && t.store.db == map["b" := RecordOf("b")]
  {
    var w, s := Three(), Start();
    Answers("a", A(), s);
    OneRequirement("a", "c");
    assert [] + ["a"] == ["a"];
    InstallsC(Resolved(s));
    Branch(s, "a", A(), [], "c");
    var t := Installed(w, Resolved(s), "c", ["a"]).0;
    ArchiveFiles("a");
    DeliveringIff(t, "a", A(), true);
    assert Stops(Archive("a"), Obsolete(t.store.db, "a", Archive("a")), Placing(0));
    FailureLeaves(w, s, "a", A(), []);
    OnlyB(t.store.db, Installed(w, s, "a", []).0.store.db);
  }

  lemma OnlyB(before: Database, after: Database)
    requires before == map["b" := RecordOf("b"), "c" := RecordOf("c")]
    requires after.Keys == {} + (before.Keys - {} - Listed(["c"])) && forall n | n in after :: n in before && after[n] == before[n]
    ensures after == map["b" := RecordOf("b")]
  {
    assert "b" != "c" && Listed(["c"]) == {"c"};
    assert after.Keys == {"b"};
  }
}
