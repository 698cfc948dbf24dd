/** The Alpine root file system installation (app/zmux/linuxenv.py): download,
    verification, staged extraction, first-run files and the swap to the live path. */
module RootfsInstall {
  import opened Wrappers
  import opened Octets
  import opened Sequences
  import opened Text

  /** A path by its parts, and the regular files below a directory. */
  type Path = seq<string>
  type Tree = map<Path, string>

  const MAX_ROOTFS_BYTES: nat := 256 * 1024 * 1024

  const BUSYBOX: Path := ["bin", "busybox"]
  const RELEASE: Path := ["etc", "alpine-release"]
  const RESOLV: Path := ["etc", "resolv.conf"]
  const REPOSITORIES: Path := ["etc", "apk", "repositories"]
  const PUBLIC_RESOLVERS := "nameserver 8.8.8.8\nnameserver 1.1.1.1\n"

  datatype Entry = Entry(path: Path, isFile: bool, size: nat, content: string)

  /** The pinned digest of this architecture, the digest algorithm, the archive
      format, and the texts the first run writes. */
  datatype Site = Site(expected: Option<string>, sha: Bytes -> string, open: Bytes -> Option<seq<Entry>>,
                       repositories: string, version: string)

  predicate IsInstalled(root: Option<Tree>) {
    root.Some? && BUSYBOX in root.value && RELEASE in root.value
  }

  // ------------------------------------------------------- what is installed

  predicate Unsafe(e: Entry) {
    (e.path != [] && e.path[0] != "" && e.path[0][0] == '/') || ".." in e.path
  }

  function TotalSize(entries: seq<Entry>): nat {
    if entries == [] then 0
    else
      var last := entries[|entries| - 1];
      TotalSize(entries[..|entries| - 1]) + if last.isFile then last.size else 0
  }

  predicate Extractable(entries: seq<Entry>) {
    (forall i | 0 <= i < |entries| :: !Unsafe(entries[i])) && TotalSize(entries) <= MAX_ROOTFS_BYTES
  }

  function Extract(entries: seq<Entry>): Tree {
    if entries == [] then map[]
    else
      var last := entries[|entries| - 1];
      var tree := Extract(entries[..|entries| - 1]);
      if last.isFile then tree[last.path := last.content] else tree
  }

  function Bootstrapped(site: Site, tree: Tree, host: Option<string>): Tree {
    var listed := tree[REPOSITORIES := site.repositories];
    var resolved := if host.Some? && Strip(host.value) != "" then listed[RESOLV := host.value] else listed;
    var named := if RESOLV in resolved then resolved else resolved[RESOLV := PUBLIC_RESOLVERS];
    if RELEASE in named then named else named[RELEASE := site.version]
  }

  predicate Verified(site: Site, archive: Bytes) {
    site.expected == Some(site.sha(archive)) && |archive| <= MAX_ROOTFS_BYTES
  }

  predicate Good(site: Site, archive: Bytes) {
    Verified(site, archive) && site.open(archive).Some? && Extractable(site.open(archive).value)
  }

  function Fresh(site: Site, archive: Bytes, host: Option<string>): Tree
    requires Good(site, archive)
  {
    Bootstrapped(site, Extract(site.open(archive).value), host)
  }

  ghost predicate Complete(site: Site, tree: Tree) {
    exists archive, host :: Good(site, archive) && tree == Fresh(site, archive, host)
  }

  ghost predicate Sound(site: Site, root: Option<Tree>) {
    IsInstalled(root) ==> Complete(site, root.value)
  }

  /** What a removal that ignores errors, or is stopped, may leave. */
  predicate Remains(before: Option<Tree>, after: Option<Tree>) {
    after.None? || (before.Some? && after.value.Items <= before.value.Items)
  }

  /** What one call may do to the live path, wherever it is stopped. */
  predicate Left(site: Site, before: Option<Tree>, after: Option<Tree>, archive: Bytes, host: Option<string>) {
    if IsInstalled(before) || !Good(site, archive) then after == before
    else Remains(before, after) || after == Some(Fresh(site, archive, host))
  }

  // --------------------------------------------------------------- theorems

  lemma RemainsUninstalled(before: Option<Tree>, after: Option<Tree>)
    requires Remains(before, after) && IsInstalled(after)
    ensures IsInstalled(before) && before.value[BUSYBOX] == after.value[BUSYBOX]
    ensures before.value[RELEASE] == after.value[RELEASE]
  {
    assert (BUSYBOX, after.value[BUSYBOX]) in after.value.Items;
    assert (RELEASE, after.value[RELEASE]) in after.value.Items;
  }

  lemma LeftKeeps(site: Site, before: Option<Tree>, after: Option<Tree>, archive: Bytes, host: Option<string>)
    requires Sound(site, before) && Left(site, before, after, archive, host)
    ensures Sound(site, after)
  {
    if after != before && Remains(before, after) && IsInstalled(after) {
      RemainsUninstalled(before, after);
    }
  }

  /** However many calls, wherever each was stopped, a root that passes for
      installed is the first-run form of a verified archive. */
  lemma {:induction false} CallsKeep(site: Site, roots: seq<Option<Tree>>, archives: seq<Bytes>,
                                     hosts: seq<Option<string>>)
    requires |roots| == |archives| + 1 == |hosts| + 1 && !IsInstalled(roots[0])
    requires forall i | 0 <= i < |archives| :: Left(site, roots[i], roots[i + 1], archives[i], hosts[i])
    ensures Sound(site, roots[|archives|])
    decreases |archives|
  {
    var n := |archives| - 1;
    if n >= 0 {
      CallsKeep(site, roots[..n + 1], archives[..n], hosts[..n]);
      LeftKeeps(site, roots[n], roots[n + 1], archives[n], hosts[n]);
    }
  }

  /** File by file: what the first run decides, and that it touches nothing else. */
  lemma BootstrapMeans(site: Site, tree: Tree, host: Option<string>)
    ensures var r := Bootstrapped(site, tree, host);
            && r.Keys == tree.Keys + {REPOSITORIES, RESOLV, RELEASE}
            && r[REPOSITORIES] == site.repositories
            && (host.Some? && Strip(host.value) != "" ==> r[RESOLV] == host.value)
            && (host.None? || Strip(host.value) == "" ==>
                r[RESOLV] == if RESOLV in tree then tree[RESOLV] else PUBLIC_RESOLVERS)
            && r[RELEASE] == (if RELEASE in tree then tree[RELEASE] else site.version)
            && (forall p | p in tree && p != REPOSITORIES && p != RESOLV :: r[p] == tree[p])
            && (IsInstalled(Some(r)) <==> BUSYBOX in tree)
  {
    Distinct();
  }

  /** Of the entries of one path the last file is what is extracted; only files are. */
  lemma {:induction false} ExtractMeans(entries: seq<Entry>, p: Path)
    ensures p in Extract(entries) <==> exists i :: 0 <= i < |entries| && entries[i].isFile && entries[i].path == p
    ensures forall i | 0 <= i < |entries| && entries[i].isFile && entries[i].path == p
                       && (forall j | i < j < |entries| :: !entries[j].isFile || entries[j].path != p) ::
              p in Extract(entries) && Extract(entries)[p] == entries[i].content
  {
    if entries != [] {
      var front, last := entries[..|entries| - 1], entries[|entries| - 1];
      ExtractMeans(front, p);
      assert forall i | 0 <= i < |front| :: front[i] == entries[i];
      if p in Extract(front) {
        var i :| 0 <= i < |front| && front[i].isFile && front[i].path == p;
        assert entries[i].isFile && entries[i].path == p;
      }
    }
  }

  /** Sizes add up over the files. */
  lemma {:induction false} SizesAddUp(a: seq<Entry>, b: seq<Entry>)
    ensures TotalSize(a + b) == TotalSize(a) + TotalSize(b)
    ensures forall e: Entry :: TotalSize([e]) == if e.isFile then e.size else 0
  {
    forall e: Entry ensures TotalSize([e]) == if e.isFile then e.size else 0 {
      assert [e][..0] == [];
    }
    if b == [] {
      assert a + b == a;
    } else {
      var front := b[..|b| - 1];
      SizesAddUp(a, front);
      assert (a + b)[..|a + b| - 1] == a + front && (a + b)[|a + b| - 1] == b[|b| - 1];
    }
  }

  /** Just what is refused: a path that begins at the root or leads upwards. */
  lemma UnsafeMeans(e: Entry)
    ensures Unsafe(e) <==>
            (e.path != [] && e.path[0] != "" && e.path[0][0] == '/') ||
            exists i :: 0 <= i < |e.path| && e.path[i] == ['.', '.']
  {
  }

  lemma Distinct()
    ensures REPOSITORIES != RESOLV && REPOSITORIES != RELEASE && RESOLV != RELEASE
    ensures BUSYBOX !in {REPOSITORIES, RESOLV, RELEASE}
  {
    assert "alpine-release"[0] != "resolv.conf"[0] && BUSYBOX[0][0] != RESOLV[0][0];
    assert REPOSITORIES[1] != RESOLV[1];
    assert |REPOSITORIES| != |RESOLV|;
  }

  /** A second first run changes nothing. */
  lemma BootstrapSettles(site: Site, tree: Tree, host: Option<string>)
    ensures var once := Bootstrapped(site, tree, host); Bootstrapped(site, once, host) == once
  {
    BootstrapMeans(site, tree, host);
    var once := Bootstrapped(site, tree, host);
    BootstrapMeans(site, once, host);
    assert Bootstrapped(site, once, host) == once;
  }

  /** The guarantee is about installation only: an uninstall that cannot remove
      every file may leave a root that passes for installed and is not whole. */
  lemma UninstallMayLeaveLessThanARoot(site: Site, tree: Tree)
    requires Complete(site, tree) && BUSYBOX in tree
    ensures var left := map p | p in tree && p != REPOSITORIES :: tree[p];
            Remains(Some(tree), Some(left)) && IsInstalled(Some(left)) && !Complete(site, left)
  {
    var left := map p | p in tree && p != REPOSITORIES :: tree[p];
    Distinct();
    CompleteListsRepositories(site, tree);
    if Complete(site, left) {
      CompleteListsRepositories(site, left);
      assert false;
    }
  }

  /** What an uninstall leaves of a whole root, a single archive being verified: it
      passes for installed and is not whole exactly when the two files that are
      looked at are there and some other is missing. */
  lemma LeftoverPassesForInstalled(site: Site, tree: Tree, left: Tree)
    requires Complete(site, tree) && Remains(Some(tree), Some(left))
    requires forall a, b | Good(site, a) && Good(site, b) :: a == b
    ensures IsInstalled(Some(left)) && !Complete(site, left) <==> BUSYBOX in left && RELEASE in left && left != tree
  {
    if Complete(site, left) {
      CompleteHasTheFiles(site, tree, left);
      SameFilesSameTree(tree, left);
    }
  }

  /** Whole roots of one archive have the same files. */
  lemma CompleteHasTheFiles(site: Site, tree: Tree, other: Tree)
    requires Complete(site, tree) && Complete(site, other)
    requires forall a, b | Good(site, a) && Good(site, b) :: a == b
    ensures tree.Keys == other.Keys
  {
    var a, h :| Good(site, a) && tree == Fresh(site, a, h);
    var b, g :| Good(site, b) && other == Fresh(site, b, g);
    BootstrapMeans(site, Extract(site.open(a).value), h);
    BootstrapMeans(site, Extract(site.open(b).value), g);
  }

  lemma SameFilesSameTree(tree: Tree, left: Tree)
    requires left.Items <= tree.Items && left.Keys == tree.Keys
    ensures left == tree
  {
    forall p | p in left ensures left[p] == tree[p] {
      assert (p, left[p]) in left.Items;
    }
  }

  lemma CompleteListsRepositories(site: Site, tree: Tree)
    requires Complete(site, tree)
    ensures REPOSITORIES in tree && RELEASE in tree
  {
    var archive, host :| Good(site, archive) && tree == Fresh(site, archive, host);
    BootstrapMeans(site, Extract(site.open(archive).value), host);
  }

  // ------------------------------------------------------------ the installer

  /** How a step, or the whole call, ends: normally, with an exception, or with
      the process killed, when no clean-up runs. */
  datatype Progress = Done | Raised | Killed

  datatype Outcome = Already | Finished(progress: Progress)

  predicate AllDone(fates: seq<Progress>) {
    forall i | 0 <= i < |fates| :: fates[i].Done?
  }

  class Rootfs {
    const site: Site
    var root: Option<Tree>
    var staging: Option<Tree>
    var tarball: Option<Bytes>
    /** How the coming steps end, each taken in turn; those after them are done. */
    var fates: seq<Progress>

    constructor (site: Site, fates: seq<Progress>)
      ensures this.site == site && this.fates == fates && root.None? && staging.None? && tarball.None?
    {
      this.site, this.fates := site, fates;
      root, staging, tarball := None, None, None;
    }

    method Fate() returns (p: Progress)
      modifies this`fates
      ensures AllDone(old(fates)) ==> p.Done? && AllDone(fates)
      ensures if old(fates) == [] then p.Done? && fates == [] else old(fates) == [p] + fates
    {
      if fates == [] {
        return Done;
      }
      p := fates[0];
      fates := fates[1..];
    }

    /** `shutil.rmtree(..., ignore_errors=True)`: some files may survive it. */
    method RemoveTree(tree: Option<Tree>) returns (left: Option<Tree>, killed: bool)
      modifies this`fates
      ensures Remains(tree, left)
      ensures AllDone(old(fates)) ==> left.None? && !killed && AllDone(fates)
    {
      if tree.None? {
        return None, false;
      }
      var t, todo := tree.value, tree.value.Keys;
      while todo != {}
        invariant t.Items <= tree.value.Items && t.Keys <= tree.value.Keys
        invariant AllDone(old(fates)) ==> AllDone(fates) && t.Keys <= todo
        decreases todo
      {
        var p :| p in todo;
        todo := todo - {p};
        var how := Fate();
        if how.Killed? {
          return Some(t), true;
        }
        if how.Done? {
          t := t - {p};
        }
      }
      if t != map[] {
        return Some(t), false;
      }
      var how := Fate();
      return if how.Done? then None else Some(t), how.Killed?;
    }

    /** The archive arrives in pieces; what is verified is what was written. */
    method Download(announced: nat, chunks: seq<Bytes>) returns (how: Progress)
      modifies this`tarball, this`fates
      ensures AllDone(old(fates)) ==>
                AllDone(fates) && !how.Killed? &&
                (how.Done? <==> announced <= MAX_ROOTFS_BYTES && Verified(site, Concat(chunks)))
      ensures how.Done? ==> Verified(site, Concat(chunks)) && tarball == Some(Concat(chunks))
      ensures how.Raised? ==> tarball.None? || site.expected.None?
    {
      AllShorter(chunks);
      how := Fate();
      if how.Killed? {
        return;
      }
      if site.expected.None? {
        return Raised;
      }
      if how.Raised? || announced > MAX_ROOTFS_BYTES {
        tarball := None;
        return Raised;
      }
      var written: Bytes := [];
      tarball := Some(written);
      for i := 0 to |chunks|
        invariant written == Concat(chunks[..i]) && tarball == Some(written)
        invariant |written| <= MAX_ROOTFS_BYTES
        invariant AllDone(old(fates)) ==> AllDone(fates)
      {
        ConcatStep(chunks, i);
        how := Fate();
        if how.Killed? {
          return;
        }
        if how.Raised? || |written| + |chunks[i]| > MAX_ROOTFS_BYTES {
          tarball := None;
          return Raised;
        }
        written := written + chunks[i];
        tarball := Some(written);
      }
      assert chunks[..|chunks|] == chunks;
      if Some(site.sha(written)) != site.expected {
        tarball := None;
        return Raised;
      }
      return Done;
    }

    /** One file written below the staging directory; stopped, it may be cut short. */
    method WriteStaged(path: Path, content: string) returns (how: Progress)
      requires staging.Some?
      modifies this`staging, this`fates
      ensures staging.Some?
      ensures how.Done? ==> staging == Some(old(staging).value[path := content])
      ensures AllDone(old(fates)) ==> how.Done? && AllDone(fates)
    {
      how := Fate();
      if how.Done? {
        staging := Some(staging.value[path := content]);
      } else if * {
        var k :| 0 <= k <= |content|;
        staging := Some(staging.value[path := content[..k]]);
      }
    }

    /** `_safe_extract`: nothing is written unless the whole list is acceptable. */
    method SafeExtract(entries: seq<Entry>) returns (how: Progress)
      requires staging == Some(map[])
      modifies this`staging, this`fates
      ensures staging.Some?
      ensures AllDone(old(fates)) ==> AllDone(fates) && !how.Killed? && (how.Done? <==> Extractable(entries))
      ensures how.Done? ==> Extractable(entries) && staging == Some(Extract(entries))
      ensures !Extractable(entries) ==> how == Raised && staging == old(staging)
    {
      var acceptable := CheckEntries(entries);
      if !acceptable {
        return Raised;
      }
      how := ExtractAll(entries);
    }

    method CheckEntries(entries: seq<Entry>) returns (acceptable: bool)
      ensures acceptable == Extractable(entries)
    {
      var total: nat := 0;
      for i := 0 to |entries|
        invariant total == TotalSize(entries[..i]) <= MAX_ROOTFS_BYTES
        invariant forall k | 0 <= k < i :: !Unsafe(entries[k])
      {
        TotalSizeStep(entries, i);
        if Unsafe(entries[i]) {
          return false;
        }
        if entries[i].isFile {
          total := total + entries[i].size;
          if total > MAX_ROOTFS_BYTES {
            return false;
          }
        }
      }
      assert entries[..|entries|] == entries;
      return true;
    }

    method ExtractAll(entries: seq<Entry>) returns (how: Progress)
      requires staging == Some(map[])
      modifies this`staging, this`fates
      ensures staging.Some? && (how.Done? ==> staging == Some(Extract(entries)))
      ensures AllDone(old(fates)) ==> how.Done? && AllDone(fates)
    {
      for i := 0 to |entries|
        invariant staging == Some(Extract(entries[..i]))
        invariant AllDone(old(fates)) ==> AllDone(fates)
      {
        assert entries[..i + 1][..i] == entries[..i];
        if entries[i].isFile {
          how := WriteStaged(entries[i].path, entries[i].content);
          if !how.Done? {
            return;
          }
        }
      }
      assert entries[..|entries|] == entries;
      return Done;
    }

    method Bootstrap(host: Option<string>) returns (how: Progress)
      requires staging.Some?
      modifies this`staging, this`fates
      ensures staging.Some?
      ensures AllDone(old(fates)) ==> how.Done? && AllDone(fates)
      ensures how.Done? ==> staging == Some(Bootstrapped(site, old(staging).value, host))
    {
      how := WriteStaged(REPOSITORIES, site.repositories);
      if !how.Done? {
        return;
      }
      if host.Some? && Strip(host.value) != "" {
        how := WriteStaged(RESOLV, host.value);
        if !how.Done? {
          return;
        }
      }
      if RESOLV !in staging.value {
        how := WriteStaged(RESOLV, PUBLIC_RESOLVERS);
        if !how.Done? {
          return;
        }
      }
      if RELEASE !in staging.value {
        how := WriteStaged(RELEASE, site.version);
      }
    }

    /** The steps whose failure is followed by the clean-up. */
    method Stage(archive: Bytes, host: Option<string>) returns (how: Progress)
      requires Verified(site, archive) && staging == Some(map[]) && !IsInstalled(root)
      modifies this`staging, this`root, this`fates
      ensures Left(site, old(root), root, archive, host)
      ensures AllDone(old(fates)) ==> AllDone(fates) && !how.Killed? && (how.Done? <==> Good(site, archive))
      ensures how.Done? ==> Good(site, archive) && root == Some(Fresh(site, archive, host)) && staging.None?
    {
      var entries := site.open(archive);
      if entries.None? {
        return Raised;
      }
      how := SafeExtract(entries.value);
      if !how.Done? {
        return;
      }
      how := Bootstrap(host);
      if !how.Done? {
        return;
      }
      var killed: bool;
      root, killed := RemoveTree(root);
      if killed {
        return Killed;
      }
      how := Fate();
      if how.Done? && root.Some? && root.value != map[] {
        return Raised;
      }
      if how.Done? {
        root, staging := staging, None;
      }
    }

    /** With nothing failing an install succeeds exactly when what is announced and
        downloaded is within the limit, verified, an archive and acceptable. */
    method Install(announced: nat, chunks: seq<Bytes>, host: Option<string>) returns (r: Outcome)
      requires Sound(site, root)
      modifies this
      ensures AllDone(old(fates)) && r != Already ==>
                AllDone(fates) && r != Finished(Killed) &&
                (r == Finished(Done) <==> announced <= MAX_ROOTFS_BYTES && Good(site, Concat(chunks)))
      ensures r == Finished(Raised) ==> tarball.None? || staging.Some? || site.expected.None?
      ensures Left(site, old(root), root, Concat(chunks), host) && Sound(site, root)
      ensures r == Already <==> IsInstalled(old(root))
      ensures r == Already ==> staging == old(staging) && tarball == old(tarball)
      ensures r == Finished(Done) ==>
                && Good(site, Concat(chunks)) && root == Some(Fresh(site, Concat(chunks), host))
                && tarball.None? && staging.None?
    {
      if IsInstalled(root) {
        return Already;
      }
      var how := Download(announced, chunks);
      if !how.Done? {
        return Finished(how);
      }
      var archive := tarball.value;
      var killed: bool;
      staging, killed := RemoveTree(staging);
      if killed || staging.Some? {
        return Finished(if killed then Killed else Raised);
      }
      staging := Some(map[]);
      ghost var before := root;
      how := Stage(archive, host);
      LeftKeeps(site, before, root, archive, host);
      if how.Killed? {
        return Finished(how);
      }
      var end := Fate();
      if end.Killed? {
        return Finished(Killed);
      }
      tarball := None;
      staging, killed := RemoveTree(staging);
      return Finished(if killed then Killed else how);
    }
  }

  /** The whole is no shorter than what came so far. */
  lemma AllShorter(chunks: seq<Bytes>)
    ensures forall i | 0 <= i <= |chunks| :: |Concat(chunks[..i])| <= |Concat(chunks)|
  {
    forall i | 0 <= i <= |chunks| ensures |Concat(chunks[..i])| <= |Concat(chunks)| {
      ConcatAppend(chunks[..i], chunks[i..]);
      assert chunks[..i] + chunks[i..] == chunks;
    }
  }

  lemma ConcatStep(chunks: seq<Bytes>, n: nat)
    requires n < |chunks|
    ensures Concat(chunks[..n + 1]) == Concat(chunks[..n]) + chunks[n]
  {
    assert chunks[..n + 1] == chunks[..n] + [chunks[n]];
    ConcatAppend(chunks[..n], [chunks[n]]);
  }

  lemma {:induction false} TotalSizeStep(entries: seq<Entry>, n: nat)
    requires n < |entries|
    ensures TotalSize(entries[..n + 1]) == TotalSize(entries[..n]) + if entries[n].isFile then entries[n].size else 0
    ensures TotalSize(entries) >= TotalSize(entries[..n + 1])
  {
    assert entries[..n + 1][..n] == entries[..n];
    if n + 1 < |entries| {
      var front := entries[..|entries| - 1];
      TotalSizeStep(front, n);
      assert front[..n + 1] == entries[..n + 1];
    } else {
      assert entries[..n + 1] == entries;
    }
  }
}
