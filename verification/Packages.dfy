/** The package manager (app/zmux/zpip.py): wheels, manifests, and the file tree
    and database that installs and uninstalls change. */
module Wheels {
  import opened Wrappers
  import opened Sequences

  type Path = string
  type Content = string

  const MAX_WHEEL_BYTES: nat := 100 * 1024 * 1024

  /** An archive entry; `parts` are those of its name read as a POSIX path. */
  datatype Member = Member(filename: Path, parts: seq<string>, dir: bool, size: nat, content: Content)

  datatype WheelError = UnsafePath | Duplicate | TooLarge | NoMetadata | NoRecord

  predicate Unsafe(m: Member) {
    (m.parts != [] && m.parts[0] == "/") || ".." in m.parts || "" in m.parts
  }

  predicate EndsWith(s: string, suffix: string) {
    |suffix| <= |s| && s[|s| - |suffix|..] == suffix
  }

  /** How deep below its start a relative path leads, None once it leaves it. */
  function DepthOf(parts: seq<string>): Option<nat> {
    if parts == [] then Some(0)
    else
      var before, last := DepthOf(parts[..|parts| - 1]), parts[|parts| - 1];
      if before.None? || last == "/" then None
      else if last == ".." then if before.value == 0 then None else Some(before.value - 1)
      else Some(before.value + 1)
  }

  /** Just what is refused: an absolute path, or one with a part that is empty or
      leads upwards. */
  lemma UnsafeMeans(m: Member)
    ensures Unsafe(m) <==>
            exists i :: 0 <= i < |m.parts| && (m.parts[i] in {"..", ""} || (i == 0 && m.parts[i] == "/"))
  {
  }

  /** What is let through leads nowhere outside, from no directory on its way; of a
      path only the first part can be the root. */
  lemma {:induction false} SafeStaysInside(m: Member, n: nat)
    requires !Unsafe(m) && n <= |m.parts| && forall i | 0 < i < |m.parts| :: m.parts[i] != "/"
    ensures DepthOf(m.parts[..n]) == Some(n)
  {
    if n > 0 {
      SafeStaysInside(m, n - 1);
      assert m.parts[..n][..n - 1] == m.parts[..n - 1];
    }
  }

  /** The files among the entries, directories left out. */
  function Files(archive: seq<Member>): seq<Member> {
    if archive == [] then []
    else
      var front, last := archive[..|archive| - 1], archive[|archive| - 1];
      if last.dir then Files(front) else Files(front) + [last]
  }

  function TotalSize(members: seq<Member>): nat {
    if members == [] then 0
    else TotalSize(members[..|members| - 1]) + members[|members| - 1].size
  }

  /** The files of two lists, in order. */
  lemma {:induction false} FilesOfBoth(a: seq<Member>, b: seq<Member>)
    ensures Files(a + b) == Files(a) + Files(b)
    ensures TotalSize(a + b) == TotalSize(a) + TotalSize(b)
  {
    if b == [] {
      assert a + b == a && Files(a) + [] == Files(a);
    } else {
      var front, last := b[..|b| - 1], b[|b| - 1];
      var all := a + b;
      FilesOfBoth(a, front);
      assert all[..|all| - 1] == a + front && all[|all| - 1] == last;
      ThreeParts(Files(a), Files(front), [last]);
    }
  }

  lemma FileOrDirectory(m: Member)
    ensures Files([m]) == (if m.dir then [] else [m]) && TotalSize([m]) == m.size
  {
    assert [m][..0] == [];
  }

  predicate Mentions(members: seq<Member>, suffix: string) {
    exists i | 0 <= i < |members| :: EndsWith(members[i].filename, suffix)
  }

  /** No entry escapes, repeats a file before it, or is too large. */
  predicate Sound(archive: seq<Member>) {
    && (forall i | 0 <= i < |archive| :: !Unsafe(archive[i]))
    && (forall i, j | 0 <= i < j < |archive| :: archive[i].dir || archive[i].filename != archive[j].filename)
    && (forall i | 0 <= i < |archive| :: archive[i].dir || archive[i].size <= MAX_WHEEL_BYTES)
  }

  /** Moreover the whole content is within the limit, and the two metadata files
      are there. */
  predicate Acceptable(archive: seq<Member>) {
    && Sound(archive)
    && TotalSize(Files(archive)) <= 3 * MAX_WHEEL_BYTES
    && Mentions(Files(archive), ".dist-info/WHEEL")
    && Mentions(Files(archive), ".dist-info/RECORD")
  }

  predicate Holds(archive: seq<Member>, name: Path) {
    exists i | 0 <= i < |archive| :: !archive[i].dir && archive[i].filename == name
  }

  lemma SoundStep(archive: seq<Member>, n: nat)
    requires n < |archive|
    ensures Sound(archive[..n + 1]) <==>
            && Sound(archive[..n]) && !Unsafe(archive[n]) && !Holds(archive[..n], archive[n].filename)
            && (archive[n].dir || archive[n].size <= MAX_WHEEL_BYTES)
    ensures Sound(archive) ==> Sound(archive[..n + 1])
  {
    var front, next := archive[..n], archive[..n + 1];
    assert next == front + [archive[n]];
    assert forall i | 0 <= i < n :: next[i] == front[i];
    if !Holds(front, archive[n].filename) {
      assert forall i | 0 <= i < n :: front[i].dir || front[i].filename != archive[n].filename;
    }
  }

  lemma HoldsStep(archive: seq<Member>, n: nat, name: Path)
    requires n < |archive|
    ensures Holds(archive[..n + 1], name) <==>
            Holds(archive[..n], name) || (!archive[n].dir && archive[n].filename == name)
  {
    var front, next := archive[..n], archive[..n + 1];
    assert forall i | 0 <= i < n :: next[i] == front[i];
    assert next[n] == archive[n];
  }

  ghost predicate SeenAre(seen: set<Path>, archive: seq<Member>) {
    forall name :: name in seen <==> Holds(archive, name)
  }

  lemma SeenStep(seen: set<Path>, archive: seq<Member>, n: nat)
    requires n < |archive| && SeenAre(seen, archive[..n])
    ensures archive[n].filename in seen <==> Holds(archive[..n], archive[n].filename)
    ensures SeenAre(if archive[n].dir then seen else seen + {archive[n].filename}, archive[..n + 1])
  {
    forall name {
      HoldsStep(archive, n, name);
    }
  }

  /** What is known when the first `i` entries were acceptable. */
  ghost predicate Scanned(archive: seq<Member>, i: nat, seen: set<Path>, members: seq<Member>, total: nat) {
    && i <= |archive| && Sound(archive[..i]) && SeenAre(seen, archive[..i])
    && members == Files(archive[..i]) && total == TotalSize(members) <= 3 * MAX_WHEEL_BYTES
  }

  /** The next entry, a file or a directory, that raises no error. */
  predicate Passes(m: Member, seen: set<Path>, total: nat) {
    !Unsafe(m) && m.filename !in seen &&
    (m.dir || (m.size <= MAX_WHEEL_BYTES && total + m.size <= 3 * MAX_WHEEL_BYTES))
  }

  lemma ScanSound(archive: seq<Member>, i: nat, seen: set<Path>, members: seq<Member>, total: nat)
    requires i < |archive| && Scanned(archive, i, seen, members, total) && Passes(archive[i], seen, total)
    ensures Sound(archive[..i + 1])
  {
    SoundStep(archive, i);
    SeenStep(seen, archive, i);
  }

  lemma ScanPasses(archive: seq<Member>, i: nat, seen: set<Path>, members: seq<Member>, total: nat)
    requires i < |archive| && Scanned(archive, i, seen, members, total) && Passes(archive[i], seen, total)
    ensures var m := archive[i];
            if m.dir then Scanned(archive, i + 1, seen, members, total)
            else Scanned(archive, i + 1, seen + {m.filename}, members + [m], total + m.size)
  {
    ScanSound(archive, i, seen, members, total);
    SeenStep(seen, archive, i);
    TakeFile(archive, i);
  }

  lemma ScanRefuses(archive: seq<Member>, i: nat, seen: set<Path>, members: seq<Member>, total: nat)
    requires i < |archive| && Scanned(archive, i, seen, members, total) && !Passes(archive[i], seen, total)
    ensures !Acceptable(archive)
  {
    if Sound(archive) {
      SoundStep(archive, i);
      SeenStep(seen, archive, i);
      TakeFile(archive, i);
      FilesGrow(archive, i + 1);
    }
  }

  method SafeMembers(archive: seq<Member>) returns (r: Result<seq<Member>, WheelError>)
    ensures r.Ok? <==> Acceptable(archive)
    ensures r.Ok? ==> r.value == Files(archive)
  {
    var seen: set<Path> := {};
    var members: seq<Member> := [];
    var total: nat := 0;
    for i := 0 to |archive|
      invariant Scanned(archive, i, seen, members, total)
    {
      var member := archive[i];
      if Passes(member, seen, total) {
        ScanPasses(archive, i, seen, members, total);
      } else {
        ScanRefuses(archive, i, seen, members, total);
      }
      if Unsafe(member) {
        return Err(UnsafePath);
      }
      if member.filename in seen {
        return Err(Duplicate);
      }
      if !member.dir {
        seen := seen + {member.filename};
        total := total + member.size;
        if member.size > MAX_WHEEL_BYTES || total > 3 * MAX_WHEEL_BYTES {
          return Err(TooLarge);
        }
        members := members + [member];
      }
    }
    assert archive[..|archive|] == archive;
    if !Mentions(members, ".dist-info/WHEEL") {
      return Err(NoMetadata);
    }
    if !Mentions(members, ".dist-info/RECORD") {
      return Err(NoRecord);
    }
    return Ok(members);
  }

  lemma TakeFile(archive: seq<Member>, n: nat)
    requires n < |archive|
    ensures var files := Files(archive[..n]);
            && Files(archive[..n + 1]) == (if archive[n].dir then files else files + [archive[n]])
            && TotalSize(files + [archive[n]]) == TotalSize(files) + archive[n].size
  {
    assert archive[..n + 1][..n] == archive[..n];
    var files := Files(archive[..n]);
    assert (files + [archive[n]])[..|files|] == files;
  }

  lemma {:induction false} FilesGrow(archive: seq<Member>, n: nat)
    requires n <= |archive|
    ensures TotalSize(Files(archive[..n])) <= TotalSize(Files(archive))
  {
    if n == |archive| {
      assert archive[..n] == archive;
    } else {
      var front := archive[..|archive| - 1];
      assert front[..n] == archive[..n];
      FilesGrow(front, n);
      var files, last := Files(front), archive[|archive| - 1];
      assert (files + [last])[..|files|] == files;
    }
  }

  predicate DistinctNames(members: seq<Member>) {
    forall i, j | 0 <= i < j < |members| :: members[i].filename != members[j].filename
  }

  predicate Named(members: seq<Member>, name: Path) {
    exists i | 0 <= i < |members| :: members[i].filename == name
  }

  /** The files of a sound archive are the files in it, with distinct names. */
  lemma {:induction false} FilesDistinct(archive: seq<Member>)
    requires Sound(archive)
    ensures DistinctNames(Files(archive))
    ensures forall name :: Named(Files(archive), name) <==> Holds(archive, name)
  {
    if archive != [] {
      var n := |archive| - 1;
      var files, last := Files(archive[..n]), archive[n];
      assert archive[..n + 1] == archive;
      SoundStep(archive, n);
      FilesDistinct(archive[..n]);
      if !last.dir {
        forall i | 0 <= i < |files|
          ensures files[i].filename != last.filename
        {
          assert Named(files, files[i].filename);
        }
      }
      forall name
        ensures Named(Files(archive), name) <==> Holds(archive, name)
      {
        HoldsStep(archive, n, name);
        NamedStep(files, last, name);
      }
    }
  }

  lemma NamedStep(members: seq<Member>, last: Member, name: Path)
    ensures Named(members + [last], name) <==> Named(members, name) || last.filename == name
  {
    var all := members + [last];
    assert forall i | 0 <= i < |members| :: all[i] == members[i];
    assert all[|members|] == last;
  }
}
