/** The package manager as it changes in place (app/zmux/zpip.py): files one by one,
    the database, and what it takes from outside. */
module Transactions {
  import opened Wrappers
  import opened Wheels
  import opened PackageState
  import opened InstallModel

  method ManifestRequirements(m: Manifest) returns (requirements: seq<Requirement>)
    ensures requirements == Requirements(m.dependencies)
  {
    requirements := [];
    for i := 0 to |m.dependencies|
      invariant requirements == Requirements(m.dependencies[..i])
    {
      assert m.dependencies[..i + 1][..i] == m.dependencies[..i];
      match m.dependencies[i] {
        case Unreadable =>
        case Elsewhere =>
        case Applies(requirement) => requirements := requirements + [requirement];
      }
    }
    assert m.dependencies[..|m.dependencies|] == m.dependencies;
  }

  class Zpip {
    const world: World

    var db: Database
    var files: Tree
    /** What the coming resolutions, fetches and commits will meet. */
    var answers: seq<Option<Manifest>>
    var fetches: seq<bool>
    var faults: seq<Fault>
    /** The commits begun so far. */
    ghost var log: seq<Attempted>

    ghost function View(): State
      reads this
    {
      State(Store(db, files), answers, fetches, faults, log)
    }

    constructor (world: World, files: Tree, answers: seq<Option<Manifest>>, fetches: seq<bool>, faults: seq<Fault>)
      ensures this.world == world
      ensures View() == State(Store(map[], files), answers, fetches, faults, [])
    {
      this.world, this.files := world, files;
      this.answers, this.fetches, this.faults := answers, fetches, faults;
      db, log := map[], [];
    }

    // ---------------------------------------------------------------- outside

    method Resolve(package: Name) returns (m: Option<Manifest>)
      modifies this`answers
      ensures m == Answer(world, old(View()), package) && View() == Resolved(old(View()))
    {
      if answers == [] {
        return None;
      }
      m := answers[0];
      answers := answers[1..];
      if m.Some? && (package !in world.universe || m.value !in world.universe[package]) {
        m := None;
      }
    }

    method Fetch() returns (ok: bool)
      modifies this`fetches
      ensures ok == First(old(fetches), false) && fetches == Rest(old(fetches))
    {
      if fetches == [] {
        return false;
      }
      ok := fetches[0];
      fetches := fetches[1..];
    }

    method NextFault() returns (fault: Fault)
      modifies this`faults
      ensures fault == First(old(faults), Nowhere) && faults == Rest(old(faults))
    {
      if faults == [] {
        return Nowhere;
      }
      fault := faults[0];
      faults := faults[1..];
    }

    // ------------------------------------------------------------------ files

    /** Puts the files of a wheel in place one by one, saving what each replaces. */
    method CommitFiles(wheel: seq<Member>, fault: Fault) returns (done: nat, backup: Tree)
      modifies this`files
      ensures done == Placings(wheel, fault) && Progress(files, backup) == Placed(old(files), wheel, done)
    {
      backup, done := map[], 0;
      while done < |wheel|
        invariant done <= Placings(wheel, fault) && Progress(files, backup) == Placed(old(files), wheel, done)
      {
        if fault == Placing(done) {
          return;
        }
        var target := wheel[done].filename;
        if target in files {
          backup := backup[target := files[target]];
        }
        files := files[target := wheel[done].content];
        done := done + 1;
      }
    }

    /** Takes back the committed files, the last one first. */
    method RestoreFiles(wheel: seq<Member>, done: nat, backup: Tree)
      requires done <= |wheel|
      modifies this`files
      ensures files == PutBack(old(files), wheel, done, backup)
    {
      ghost var result := PutBack(files, wheel, done, backup);
      var i := done;
      while i > 0
        invariant 0 <= i <= done && PutBack(files, wheel, i, backup) == result
      {
        i := i - 1;
        var target := wheel[i].filename;
        if target in backup {
          files := files[target := backup[target]];
        } else {
          files := files - {target};
        }
      }
    }

    /** Deletes the obsolete files. A walk that is stopped is one that came to the
        files of the fault first. */
    method DeleteFiles(obsolete: set<Path>, fault: Fault) returns (ok: bool)
      modifies this`files
      ensures ok == !(fault.Deleting? && !(obsolete <= fault.gone))
      ensures files == old(files) - if fault.Deleting? then fault.gone * obsolete else obsolete
    {
      var todo := obsolete;
      while todo != {}
        invariant todo <= obsolete && files == old(files) - (obsolete - todo)
        invariant fault.Deleting? ==> obsolete - todo <= fault.gone
      {
        if fault.Deleting? && todo !! fault.gone {
          assert obsolete - todo == fault.gone * obsolete;
          return false;
        }
        var f :| f in todo && (fault.Deleting? ==> f in fault.gone);
        if f in files {
          files := files - {f};
        }
        todo := todo - {f};
      }
      assert fault.Deleting? ==> fault.gone * obsolete == obsolete;
      return true;
    }

    /** Puts a wheel's files in place, deletes the obsolete ones and saves the
        database; when a step fails, the committed files are taken back. */
    method ReplaceFiles(wheel: seq<Member>, obsolete: set<Path>, fault: Fault) returns (ok: bool)
      modifies this`files
      ensures (ok, files) == Attempt(old(files), wheel, obsolete, fault)
    {
      var done, backup := CommitFiles(wheel, fault);
      ok := done == |wheel|;
      if ok {
        ok := DeleteFiles(obsolete, fault);
      } else {
        assert files - {} == files;
      }
      if ok && !fault.Saving? {
        return;
      }
      ok := false;
      RestoreFiles(wheel, done, backup);
    }

    /** Everything from the ownership check to the saved database. */
    method Commit(package: Name, version: Version, wheel: seq<Member>, named: bool) returns (ok: bool)
      modifies this
      ensures (View(), ok) == Committed(old(View()), package, version, wheel, named)
    {
      var fault := NextFault();
      if !Free(db, package, Paths(wheel)) {
        return false;
      }
      var obsolete := Obsolete(db, package, wheel);
      log := log + [Attempted(files, wheel, obsolete, fault)];
      ok := ReplaceFiles(wheel, obsolete, fault);
      if ok {
        db := db[package := Recorded(db, package, version, wheel, named)];
      }
    }

    /** Fetches the artifact and commits it. */
    method InstallArtifact(package: Name, m: Manifest, named: bool) returns (ok: bool)
      modifies this
      ensures (View(), ok) == Delivering(old(View()), package, m, named)
    {
      ok := Fetch();
      if !ok {
        return;
      }
      var members := SafeMembers(m.archive);
      if members.Err? {
        return false;
      }
      ok := Commit(package, m.version, members.value, named);
    }

    // --------------------------------------------------------------- packages

    method Uninstall(package: Name) returns (ok: bool)
      modifies this`db, this`files
      ensures View() == Uninstalled(old(View()), package) && ok == (package in old(db))
    {
      if package !in db {
        return false;
      }
      var owned := db[package].files;
      var todo := owned;
      while todo != {}
        invariant db == old(db) && todo <= owned && files == old(files) - (owned - todo)
      {
        var f :| f in todo;
        if f in files {
          files := files - {f};
        }
        todo := todo - {f};
      }
      db := db - {package};
      return true;
    }

    /** Undoes the installs of dependencies, the last one first. */
    method UninstallAll(dependencies: seq<Name>)
      modifies this`db, this`files
      ensures View() == UninstalledAll(old(View()), dependencies)
    {
      ghost var result := UninstalledAll(View(), dependencies);
      var i := |dependencies|;
      assert dependencies[..i] == dependencies;
      while i > 0
        invariant 0 <= i <= |dependencies| && UninstalledAll(View(), dependencies[..i]) == result
      {
        i := i - 1;
        assert dependencies[..i + 1][..i] == dependencies[..i];
        var _ := Uninstall(dependencies[i]);
      }
    }

    /** Works through the direct requirements, installing what is missing. The
        snapshot taken before the first of them serves for all. */
    method InstallDependencies(stack: seq<Name>, requirements: seq<Requirement>) returns (ok: bool, installed: seq<Name>)
      modifies this
      decreases Left(world, stack), 1
      ensures Prepared(View(), ok, installed) ==
              DependenciesInstalled(world, old(View()), stack, requirements, 0, old(db), [])
    {
      ghost var result := DependenciesInstalled(world, View(), stack, requirements, 0, db, []);
      ok, installed := true, [];
      var before := db;
      for k := 0 to |requirements|
        invariant ok && DependenciesInstalled(world, View(), stack, requirements, k, before, installed) == result
      {
        var r := requirements[k];
        if r.name.None? {
          return false, installed;
        }
        var dependency := r.name.value;
        if !Satisfies(world, before, r) {
          if dependency in before {
            return false, installed;
          }
          InstallStep(world, View(), stack, requirements, k, before, installed, dependency);
          var outcome := Install(dependency, stack);
          if outcome.Failed? {
            return false, installed;
          }
          installed := installed + [dependency];
          if !Satisfies(world, db, r) {
            return false, installed;
          }
        }
      }
    }

    /** Installs a package and, before it, what it requires; on any failure the
        dependencies that were installed for it are taken out again. */
    method Install(package: Name, stack: seq<Name>) returns (r: Outcome)
      modifies this
      decreases Left(world, stack), 0
      ensures (View(), r) == Installed(world, old(View()), package, stack)
    {
      if package in stack {
        return Failed(true);
      }
      var resolved := Resolve(package);
      if resolved.None? {
        return Failed(true);
      }
      var manifest := resolved.value;
      var requirements := ManifestRequirements(manifest);
      LeftDecreases(world, stack, package);
      var ok, installed := InstallDependencies(stack + [package], requirements);
      if ok {
        ok := InstallArtifact(package, manifest, stack == []);
      }
      if !ok {
        UninstallAll(installed);
        return Failed(true);
      }
      return Done(manifest.version, |Files(manifest.archive)|, installed);
    }

    method Perform(c: Command) returns (ok: bool)
      modifies this
      ensures (View(), ok) == Performed(world, old(View()), c)
    {
      match c {
        case InstallNamed(package) =>
          var outcome := Install(package, []);
          ok := outcome.Done?;
        case UninstallNamed(package) =>
          ok := Uninstall(package);
      }
    }
  }
}
