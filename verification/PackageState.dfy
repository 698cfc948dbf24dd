/** The package directory and database of app/zmux/zpip.py: what operations keep,
    and a single commit, wherever it is stopped. */
module PackageState {
  import opened Wrappers
  import opened Wheels

  type Name = string
  type Version = string
  type Specifier = string

  /** The package directory: normalised relative paths and what they hold. */
  type Tree = map<Path, Content>

  datatype Record = Record(version: Version, files: set<Path>, explicit: bool)

  type Database = map<Name, Record>

  datatype Store = Store(db: Database, files: Tree)

  // -------------------------------------------------------------- invariants

  /** No file belongs to two packages. */
  predicate Disjoint(db: Database) {
    forall a, b | a in db && b in db && a != b :: db[a].files !! db[b].files
  }

  /** Every recorded file exists. */
  predicate Present(s: Store) {
    forall n | n in s.db :: s.db[n].files <= s.files.Keys
  }

  /** The two trees agree at a path. */
  predicate SameAt(a: Tree, b: Tree, f: Path) {
    (f in a <==> f in b) && (f in a ==> a[f] == b[f])
  }

  predicate SameOn(a: Tree, b: Tree, fs: set<Path>) {
    forall f | f in fs :: SameAt(a, b, f)
  }

  /** A package is as it was: its record, and all the files that are its own. */
  predicate Intact(a: Store, b: Store, n: Name)
    requires n in a.db
  {
    n in b.db && b.db[n] == a.db[n] && SameOn(a.files, b.files, a.db[n].files)
  }

  /** Every package there was before is as it was, but for `except`. */
  predicate KeptBut(a: Store, b: Store, except: set<Name>) {
    forall n | n in a.db && n !in except :: Intact(a, b, n)
  }

  function Owned(db: Database, n: Name): set<Path> {
    if n in db then db[n].files else {}
  }

  /** None of these paths belongs to another package. */
  predicate Free(db: Database, package: Name, paths: set<Path>) {
    forall n | n in db && n != package :: db[n].files !! paths
  }

  predicate Unowned(db: Database, f: Path) {
    forall n | n in db :: f !in db[n].files
  }

  /** A file that belongs to no package was there before, belonged to none, and is
      as it was. */
  predicate NoStray(a: Store, b: Store) {
    forall f | f in b.files && Unowned(b.db, f) :: f in a.files && Unowned(a.db, f) && b.files[f] == a.files[f]
  }

  /** Just these packages are gone. */
  predicate Without(a: Store, b: Store, gone: set<Name>) {
    && KeptBut(a, b, gone)
    && b.db.Keys == a.db.Keys - gone && b.files.Keys <= a.files.Keys
    && (Present(a) ==> Present(b))
  }

  /** The wheel is what is installed: its record, every file with its content, and
      no file of the version before that it does not have. */
  predicate Delivered(a: Store, b: Store, package: Name, version: Version, archive: seq<Member>, named: bool) {
    var wheel := Files(archive);
    && Acceptable(archive)
    && package in b.db && b.db[package] == Recorded(a.db, package, version, wheel, named)
    && Free(b.db, package, Paths(wheel))
    && SameOn(ContentsOf(wheel), b.files, Paths(wheel))
    && Obsolete(a.db, package, wheel) !! b.files.Keys
  }

  /** The package is as it was, but for files of its own that are gone. */
  predicate RolledBack(a: Store, b: Store, package: Name) {
    && (package in b.db <==> package in a.db)
    && (package in a.db ==> b.db[package] == a.db[package])
    && forall f | f in Owned(a.db, package) && f in b.files :: f in a.files && b.files[f] == a.files[f]
  }

  /** The files of the package that are gone. */
  function Missing(a: Store, b: Store, package: Name): set<Path> {
    Owned(a.db, package) * a.files.Keys - b.files.Keys
  }

  lemma KeptTransitive(a: Store, b: Store, c: Store, some: set<Name>, more: set<Name>)
    requires KeptBut(a, b, some) && KeptBut(b, c, more)
    ensures KeptBut(a, c, some + more)
  {
    forall n | n in a.db && n !in some + more
      ensures Intact(a, c, n)
    {
      assert Intact(a, b, n) && Intact(b, c, n);
      forall f | f in a.db[n].files
        ensures SameAt(a.files, c.files, f)
      {
        assert SameAt(a.files, b.files, f) && SameAt(b.files, c.files, f);
      }
    }
  }

  /** Exceptions that name no package there was before except nothing. */
  lemma KeptNarrow(a: Store, b: Store, some: set<Name>, fewer: set<Name>)
    requires KeptBut(a, b, some)
    requires forall n | n in some && n in a.db :: n in fewer
    ensures KeptBut(a, b, fewer)
  {
    forall n | n in a.db && n !in fewer
      ensures Intact(a, b, n)
    {
      assert n !in some;
    }
  }

  /** What changes one package that was not there before changes nothing that was. */
  lemma KeptThrough(a: Store, b: Store, c: Store, n: Name)
    requires KeptBut(a, b, {}) && KeptBut(b, c, {n}) && n !in a.db
    ensures KeptBut(a, c, {})
    ensures forall m | m in b.db && m != n :: m in c.db && c.db[m] == b.db[m]
  {
    KeptTransitive(a, b, c, {}, {n});
    KeptNarrow(a, c, {} + {n}, {});
    assert forall m | m in b.db && m != n :: Intact(b, c, m);
  }

  lemma NoStrayTransitive(a: Store, b: Store, c: Store)
    requires NoStray(a, b) && NoStray(b, c)
    ensures NoStray(a, c)
  {
  }

  /** Nothing stray, nothing new in the database and nothing lost: in a tree that
      only packages own, the files are those there were. */
  lemma TreeRestored(a: Store, b: Store, package: Name)
    requires b.db == a.db && KeptBut(a, b, {package}) && RolledBack(a, b, package) && NoStray(a, b)
    requires forall f | f in a.files :: !Unowned(a.db, f)
    ensures b.files == a.files - Missing(a, b, package)
  {
    forall f | f in b.files ensures f in a.files && b.files[f] == a.files[f] {
      if !Unowned(b.db, f) {
        var n :| n in b.db && f in b.db[n].files;
        assert n != package ==> Intact(a, b, n) && SameAt(a.files, b.files, f);
      }
    }
    forall f | f in a.files && f !in Missing(a, b, package) ensures f in b.files {
      var n :| n in a.db && f in a.db[n].files;
      assert n != package ==> Intact(a, b, n) && SameAt(a.files, b.files, f);
    }
  }

  // ---------------------------------------------------------------- removals

  function Removed(s: Store, package: Name): Store {
    if package in s.db then Store(s.db - {package}, s.files - s.db[package].files) else s
  }

  /** Removing a package with its files keeps ownership exclusive and touches no
      other, and leaves no file behind. */
  lemma RemoveKeeps(s: Store, package: Name)
    requires Disjoint(s.db)
    ensures Disjoint(Removed(s, package).db)
    ensures Without(s, Removed(s, package), {package}) && NoStray(s, Removed(s, package))
  {
    if package in s.db {
      var t := Removed(s, package);
      forall f | f in t.files && Unowned(t.db, f) ensures Unowned(s.db, f) {
        forall n | n in s.db ensures f !in s.db[n].files {
          assert n != package ==> n in t.db;
        }
      }
    }
  }

  lemma WithoutTransitive(a: Store, b: Store, c: Store, gone: set<Name>, more: set<Name>)
    requires Without(a, b, gone) && Without(b, c, more)
    ensures Without(a, c, gone + more)
  {
    KeptTransitive(a, b, c, gone, more);
  }

  /** Seen from before what touched no package that was there. */
  lemma RolledBackSince(a: Store, b: Store, c: Store, package: Name)
    requires KeptBut(a, b, {}) && (package !in a.db ==> package !in b.db) && RolledBack(b, c, package)
    ensures RolledBack(a, c, package) && Missing(a, c, package) == Missing(b, c, package)
  {
    if package in a.db {
      assert Intact(a, b, package);
      assert forall f | f in a.db[package].files :: SameAt(a.files, b.files, f);
    }
  }

  /** After others were removed. */
  lemma RolledBackStill(a: Store, b: Store, c: Store, package: Name, gone: set<Name>)
    requires RolledBack(a, b, package) && Without(b, c, gone) && package !in gone
    ensures RolledBack(a, c, package) && Missing(a, c, package) == Missing(a, b, package)
  {
    if package in b.db {
      assert Intact(b, c, package);
      assert forall f | f in b.db[package].files :: SameAt(b.files, c.files, f);
    }
  }

  // ------------------------------------------------------------------ wheels

  function ContentsOf(wheel: seq<Member>): Tree {
    if wheel == [] then map[]
    else ContentsOf(wheel[..|wheel| - 1])[wheel[|wheel| - 1].filename := wheel[|wheel| - 1].content]
  }

  function Paths(wheel: seq<Member>): set<Path> {
    ContentsOf(wheel).Keys
  }

  lemma {:induction false} PathsAreNames(wheel: seq<Member>, f: Path)
    ensures f in Paths(wheel) <==> Named(wheel, f)
  {
    if wheel != [] {
      var n := |wheel| - 1;
      PathsAreNames(wheel[..n], f);
      NamedStep(wheel[..n], wheel[n], f);
      assert wheel[..n] + [wheel[n]] == wheel;
    }
  }

  lemma ContentsStep(wheel: seq<Member>, n: nat)
    requires n < |wheel| && DistinctNames(wheel)
    ensures ContentsOf(wheel[..n + 1]) == ContentsOf(wheel[..n])[wheel[n].filename := wheel[n].content]
    ensures wheel[n].filename !in ContentsOf(wheel[..n])
  {
    assert wheel[..n + 1][..n] == wheel[..n];
    PathsAreNames(wheel[..n], wheel[n].filename);
  }

  /** By index: each file of a wheel with its content. */
  lemma {:induction false} ContentsByIndex(wheel: seq<Member>, i: nat)
    requires i < |wheel| && DistinctNames(wheel)
    ensures wheel[i].filename in ContentsOf(wheel) && ContentsOf(wheel)[wheel[i].filename] == wheel[i].content
  {
    var n := |wheel| - 1;
    if i < n {
      ContentsByIndex(wheel[..n], i);
      assert wheel[i].filename != wheel[n].filename;
    }
  }

  lemma {:induction false} PathsPrefix(wheel: seq<Member>, n: nat)
    requires n <= |wheel|
    ensures Paths(wheel[..n]) <= Paths(wheel)
  {
    if n == |wheel| {
      assert wheel[..n] == wheel;
    } else {
      assert wheel[..|wheel| - 1][..n] == wheel[..n];
      PathsPrefix(wheel[..|wheel| - 1], n);
    }
  }

  /** Saving what the next file replaces, and replacing it. */
  lemma CommitStep(base: Tree, wheel: seq<Member>, n: nat, backup: Tree)
    requires n < |wheel| && DistinctNames(wheel)
    requires SameOn(backup, base, Paths(wheel[..n])) && backup.Keys <= Paths(wheel[..n])
    ensures var target, now := wheel[n].filename, base + ContentsOf(wheel[..n]);
            var saved := if target in now then backup[target := now[target]] else backup;
            && now[target := wheel[n].content] == base + ContentsOf(wheel[..n + 1])
            && SameOn(saved, base, Paths(wheel[..n]))
            && SameOn(saved, base, Paths(wheel[..n + 1])) && saved.Keys <= Paths(wheel[..n + 1])
  {
    ContentsStep(wheel, n);
    var target, now := wheel[n].filename, base + ContentsOf(wheel[..n]);
    var saved := if target in now then backup[target := now[target]] else backup;
    assert SameAt(saved, base, target);
    forall f | f in Paths(wheel[..n])
      ensures SameAt(saved, base, f)
    {
      assert SameAt(backup, base, f);
    }
  }

  /** Putting back what the last committed file had replaced. */
  lemma RestoreStep(base: Tree, wheel: seq<Member>, n: nat, backup: Tree, lost: set<Path>)
    requires n < |wheel| && DistinctNames(wheel)
    requires SameOn(backup, base, Paths(wheel[..n + 1])) && lost !! Paths(wheel[..n + 1])
    ensures var target, now := wheel[n].filename, (base + ContentsOf(wheel[..n + 1])) - lost;
            && (base + ContentsOf(wheel[..n])) - lost ==
               (if target in backup then now[target := backup[target]] else now - {target})
            && target in now
            && SameOn(backup, base, Paths(wheel[..n])) && lost !! Paths(wheel[..n])
  {
    ContentsStep(wheel, n);
    assert SameAt(backup, base, wheel[n].filename);
  }

  // ----------------------------------------------------------------- commits

  function Recorded(db: Database, package: Name, version: Version, wheel: seq<Member>, named: bool): Record {
    Record(version, Paths(wheel), (package in db && db[package].explicit) || named)
  }

  function Obsolete(db: Database, package: Name, wheel: seq<Member>): set<Path> {
    Owned(db, package) - Paths(wheel)
  }

  /** Where a commit is stopped: before file `i` of the wheel is in place, when of
      the obsolete files just those in `gone` are deleted, or while the database is
      saved. */
  datatype Fault = Nowhere | Placing(i: nat) | Deleting(gone: set<Path>) | Saving

  /** The tree while files are put in place, and what they replaced. */
  datatype Progress = Progress(tree: Tree, backup: Tree)

  function Placed(base: Tree, wheel: seq<Member>, n: nat): Progress
    requires n <= |wheel|
  {
    if n == 0 then Progress(base, map[])
    else
      var p, target := Placed(base, wheel, n - 1), wheel[n - 1].filename;
      Progress(p.tree[target := wheel[n - 1].content],
               if target in p.tree then p.backup[target := p.tree[target]] else p.backup)
  }

  /** The files taken back, the last one first. */
  function PutBack(tree: Tree, wheel: seq<Member>, n: nat, backup: Tree): Tree
    requires n <= |wheel|
    decreases n
  {
    if n == 0 then tree
    else
      var target := wheel[n - 1].filename;
      PutBack(if target in backup then tree[target := backup[target]] else tree - {target}, wheel, n - 1, backup)
  }

  /** Whether the fault lies on the way of this commit. */
  predicate Stops(wheel: seq<Member>, obsolete: set<Path>, fault: Fault) {
    match fault
    case Nowhere => false
    case Placing(i) => i < |wheel|
    case Deleting(gone) => !(obsolete <= gone)
    case Saving => true
  }

  /** How many files are in place by then, and which obsolete ones deleted. */
  function Placings(wheel: seq<Member>, fault: Fault): (n: nat)
    ensures n <= |wheel|
  {
    if fault.Placing? && fault.i < |wheel| then fault.i else |wheel|
  }

  function Deletions(wheel: seq<Member>, obsolete: set<Path>, fault: Fault): (gone: set<Path>)
    ensures gone <= obsolete
  {
    if fault.Placing? && fault.i < |wheel| then {}
    else if fault.Deleting? then fault.gone * obsolete
    else obsolete
  }

  /** A commit of a wheel: whether it succeeds, and the tree it leaves, committed or
      put back. */
  function Attempt(base: Tree, wheel: seq<Member>, obsolete: set<Path>, fault: Fault): (bool, Tree) {
    var n := Placings(wheel, fault);
    var p := Placed(base, wheel, n);
    var tree := p.tree - Deletions(wheel, obsolete, fault);
    if Stops(wheel, obsolete, fault) then (false, PutBack(tree, wheel, n, p.backup)) else (true, tree)
  }

  lemma {:induction false} PlacedMeans(base: Tree, wheel: seq<Member>, n: nat)
    requires n <= |wheel| && DistinctNames(wheel)
    ensures var p := Placed(base, wheel, n);
            && p.tree == base + ContentsOf(wheel[..n])
            && SameOn(p.backup, base, Paths(wheel[..n])) && p.backup.Keys <= Paths(wheel[..n])
  {
    if n == 0 {
      assert base + map[] == base;
    } else {
      PlacedMeans(base, wheel, n - 1);
      CommitStep(base, wheel, n - 1, Placed(base, wheel, n - 1).backup);
    }
  }

  lemma {:induction false} PutBackMeans(base: Tree, wheel: seq<Member>, n: nat, backup: Tree, lost: set<Path>)
    requires n <= |wheel| && DistinctNames(wheel)
    requires SameOn(backup, base, Paths(wheel[..n])) && lost !! Paths(wheel[..n])
    ensures PutBack((base + ContentsOf(wheel[..n])) - lost, wheel, n, backup) == base - lost
  {
    if n == 0 {
      assert base + map[] == base;
    } else {
      RestoreStep(base, wheel, n - 1, backup, lost);
      PutBackMeans(base, wheel, n - 1, backup, lost);
    }
  }

  lemma LessThenMore(base: Tree, more: Tree, gone: set<Path>)
    requires gone !! more.Keys
    ensures (base + more) - gone == (base - gone) + more
  {
  }

  /** A commit that is not stopped has all of the wheel and no obsolete file; one
      that is leaves the tree it found, less the obsolete files deleted by then. */
  lemma AttemptMeans(base: Tree, wheel: seq<Member>, obsolete: set<Path>, fault: Fault)
    requires DistinctNames(wheel) && obsolete !! Paths(wheel)
    ensures Attempt(base, wheel, obsolete, fault) ==
            if Stops(wheel, obsolete, fault) then (false, base - Deletions(wheel, obsolete, fault))
            else (true, (base - obsolete) + ContentsOf(wheel))
  {
    var n, gone := Placings(wheel, fault), Deletions(wheel, obsolete, fault);
    PlacedMeans(base, wheel, n);
    PathsPrefix(wheel, n);
    if Stops(wheel, obsolete, fault) {
      PutBackMeans(base, wheel, n, Placed(base, wheel, n).backup, gone);
    } else {
      assert wheel[..n] == wheel && gone == obsolete;
      LessThenMore(base, ContentsOf(wheel), obsolete);
    }
  }

  /** A stopped commit restores the tree exactly when no obsolete file that was
      there had been deleted before it stopped. */
  lemma FaultRestores(base: Tree, wheel: seq<Member>, obsolete: set<Path>, fault: Fault)
    requires DistinctNames(wheel) && obsolete !! Paths(wheel) && Stops(wheel, obsolete, fault)
    ensures Attempt(base, wheel, obsolete, fault).1 == base <==> Deletions(wheel, obsolete, fault) !! base.Keys
  {
    AttemptMeans(base, wheel, obsolete, fault);
    var gone := Deletions(wheel, obsolete, fault);
    if f :| f in gone && f in base {
      assert f !in base - gone;
    } else {
      assert base - gone == base;
    }
  }

  /** Whatever the fault, the tree is restored: exactly when there is no obsolete
      file to lose. Otherwise failing to save the database loses one. */
  lemma EveryFaultRestores(base: Tree, wheel: seq<Member>, obsolete: set<Path>)
    requires DistinctNames(wheel) && obsolete !! Paths(wheel)
    ensures (forall fault | Stops(wheel, obsolete, fault) :: Attempt(base, wheel, obsolete, fault).1 == base) <==>
            obsolete !! base.Keys
    ensures Attempt(base, wheel, obsolete, Saving) == (false, base - obsolete)
  {
    AttemptMeans(base, wheel, obsolete, Saving);
    if obsolete !! base.Keys {
      forall fault | Stops(wheel, obsolete, fault) ensures Attempt(base, wheel, obsolete, fault).1 == base {
        FaultRestores(base, wheel, obsolete, fault);
      }
    } else {
      FaultRestores(base, wheel, obsolete, Saving);
      assert Stops(wheel, obsolete, Saving);
    }
  }

  /** For the caller: a commit of this wheel is restored whatever the fault exactly
      when the installed version has no file left that the wheel has not. */
  lemma CommitAlwaysRestores(s: Store, package: Name, wheel: seq<Member>)
    requires DistinctNames(wheel)
    ensures var obsolete := Obsolete(s.db, package, wheel);
            (forall fault | Stops(wheel, obsolete, fault) :: Attempt(s.files, wheel, obsolete, fault).1 == s.files) <==>
            obsolete !! s.files.Keys
  {
    EveryFaultRestores(s.files, wheel, Obsolete(s.db, package, wheel));
  }

  /** A stopped commit leaves every recorded file in place exactly when it stopped
      before the first deletion. */
  lemma StoppedKeepsPresent(s: Store, package: Name, wheel: seq<Member>, fault: Fault)
    requires Present(s) && DistinctNames(wheel) && Stops(wheel, Obsolete(s.db, package, wheel), fault)
    ensures var obsolete := Obsolete(s.db, package, wheel);
            Present(Store(s.db, Attempt(s.files, wheel, obsolete, fault).1)) <==>
            Deletions(wheel, obsolete, fault) == {}
  {
    var obsolete := Obsolete(s.db, package, wheel);
    var gone := Deletions(wheel, obsolete, fault);
    AttemptMeans(s.files, wheel, obsolete, fault);
    if f :| f in gone {
      assert f in s.db[package].files && f !in s.files - gone;
    } else {
      assert s.files - gone == s.files;
    }
  }

  /** The tree after a commit. */
  function CommittedTree(s: Store, package: Name, wheel: seq<Member>): Tree {
    (s.files - Obsolete(s.db, package, wheel)) + ContentsOf(wheel)
  }

  function CommittedStore(s: Store, package: Name, version: Version, wheel: seq<Member>, named: bool): Store {
    Store(s.db[package := Recorded(s.db, package, version, wheel, named)], CommittedTree(s, package, wheel))
  }

  /** A commit keeps ownership exclusive and files present, touches no other
      package, and leaves no file behind. */
  lemma CommitKeeps(s: Store, package: Name, version: Version, wheel: seq<Member>, named: bool)
    requires Disjoint(s.db) && Free(s.db, package, Paths(wheel))
    ensures var t := CommittedStore(s, package, version, wheel, named);
            && Disjoint(t.db) && (Present(s) ==> Present(t)) && KeptBut(s, t, {package})
  {
    var t := CommittedStore(s, package, version, wheel, named);
    forall n, f | n in s.db && n != package && f in s.db[n].files
      ensures SameAt(s.files, t.files, f)
    {
      assert f !in Paths(wheel) && f !in Owned(s.db, package);
    }
  }

  lemma CommitLeavesNone(s: Store, package: Name, version: Version, wheel: seq<Member>, named: bool)
    ensures NoStray(s, CommittedStore(s, package, version, wheel, named))
  {
    var t := CommittedStore(s, package, version, wheel, named);
    forall f | f in t.files && Unowned(t.db, f)
      ensures f in s.files && Unowned(s.db, f) && t.files[f] == s.files[f]
    {
      assert f !in t.db[package].files;
      assert f !in Paths(wheel) && f !in Obsolete(s.db, package, wheel);
      forall n | n in s.db ensures f !in s.db[n].files {
        assert n != package ==> n in t.db && t.db[n] == s.db[n];
      }
    }
  }

  /** Losing files of a package that are its own. */
  lemma LostIsRolledBack(s: Store, t: Store, package: Name, lost: set<Path>)
    requires Disjoint(s.db) && lost <= Owned(s.db, package) && t == Store(s.db, s.files - lost)
    ensures KeptBut(s, t, {package}) && RolledBack(s, t, package) && NoStray(s, t)
    ensures Missing(s, t, package) == lost * s.files.Keys
  {
  }
}
