/** The recursive listing (app/zmux/python_shell.py): `ls -R` with an explicit
    stack, against the recursive walk it stands for. */
module DirectoryOrder {
  /** A link may lead to a directory, but is not one here. */
  datatype Node =
    | File(name: string, mtime: nat)
    | Link(name: string, mtime: nat)
    | Dir(name: string, mtime: nat, children: seq<Node>)

  datatype Options = Options(showAll: bool, byTime: bool, reverse: bool)

  /** Lexicographic order by code point. */
  predicate AtMost(a: string, b: string) {
    a == "" || (b != "" && (a[0] < b[0] || (a[0] == b[0] && AtMost(a[1..], b[1..]))))
  }

  lemma {:induction false} AtMostTotal(a: string, b: string)
    ensures AtMost(a, b) || AtMost(b, a)
  {
    if a != "" && b != "" {
      AtMostTotal(a[1..], b[1..]);
    }
  }

  lemma {:induction false} AtMostTransitive(a: string, b: string, c: string)
    requires AtMost(a, b) && AtMost(b, c)
    ensures AtMost(a, c)
  {
    if a != "" && a[0] == b[0] == c[0] {
      AtMostTransitive(a[1..], b[1..], c[1..]);
    }
  }

  /** The first characters that differ decide; a beginning comes before the whole. */
  lemma {:induction false} AtMostMeans(p: string, x: char, y: char, s: string, t: string)
    ensures x != y ==> (AtMost(p + [x] + s, p + [y] + t) <==> x < y)
    ensures AtMost(p, p + s) && (AtMost(p + s, p) <==> s == "")
  {
    var a, b := p + [x] + s, p + [y] + t;
    if p == "" {
      assert a[0] == x && b[0] == y && p + s == s;
    } else {
      AtMostMeans(p[1..], x, y, s, t);
      assert a[1..] == p[1..] + [x] + s && b[1..] == p[1..] + [y] + t && (p + s)[1..] == p[1..] + s;
    }
  }

  predicate KeyAtMost(a: Node, b: Node, byTime: bool) {
    if byTime then a.mtime <= b.mtime else AtMost(a.name, b.name)
  }

  /** Newest first by time, first name first by name; `-r` flips either. */
  predicate Descending(o: Options) {
    if o.byTime then !o.reverse else o.reverse
  }

  /** `a` may stand before `b`. */
  predicate InOrder(o: Options, a: Node, b: Node) {
    if Descending(o) then KeyAtMost(b, a, o.byTime) else KeyAtMost(a, b, o.byTime)
  }

  lemma InOrderTotal(o: Options, a: Node, b: Node)
    ensures InOrder(o, a, b) || InOrder(o, b, a)
  {
    AtMostTotal(a.name, b.name);
  }

  lemma InOrderTransitive(o: Options, a: Node, b: Node, c: Node)
    requires InOrder(o, a, b) && InOrder(o, b, c)
    ensures InOrder(o, a, c)
  {
    if !o.byTime {
      if Descending(o) {
        AtMostTransitive(c.name, b.name, a.name);
      } else {
        AtMostTransitive(a.name, b.name, c.name);
      }
    }
  }

  // ------------------------------------------------------------- stable sort

  function Insert(o: Options, e: Node, sorted: seq<Node>): seq<Node> {
    if sorted == [] || InOrder(o, e, sorted[0]) then [e] + sorted
    else [sorted[0]] + Insert(o, e, sorted[1..])
  }

  function Sorted(o: Options, nodes: seq<Node>): seq<Node> {
    if nodes == [] then [] else Insert(o, nodes[0], Sorted(o, nodes[1..]))
  }

  ghost predicate Ordered(o: Options, nodes: seq<Node>) {
    forall i, j | 0 <= i < j < |nodes| :: InOrder(o, nodes[i], nodes[j])
  }

  /** The nodes with the key of `like`, in the order they stand. */
  function Alike(o: Options, nodes: seq<Node>, like: Node): seq<Node> {
    if nodes == [] then []
    else
      (if InOrder(o, nodes[0], like) && InOrder(o, like, nodes[0]) then [nodes[0]] else [])
      + Alike(o, nodes[1..], like)
  }

  lemma {:induction false} InsertKeeps(o: Options, e: Node, sorted: seq<Node>)
    ensures multiset(Insert(o, e, sorted)) == multiset(sorted) + multiset{e}
  {
    if sorted != [] && !InOrder(o, e, sorted[0]) {
      InsertKeeps(o, e, sorted[1..]);
      assert sorted == [sorted[0]] + sorted[1..];
    }
  }

  lemma {:induction false} InsertSorts(o: Options, e: Node, sorted: seq<Node>)
    requires Ordered(o, sorted)
    ensures Ordered(o, Insert(o, e, sorted))
  {
    if sorted != [] {
      if InOrder(o, e, sorted[0]) {
        forall j | 0 < j < |sorted| {
          InOrderTransitive(o, e, sorted[0], sorted[j]);
        }
        HeadOrdered(o, e, sorted);
      } else {
        var rest := Insert(o, e, sorted[1..]);
        InOrderTotal(o, e, sorted[0]);
        InsertSorts(o, e, sorted[1..]);
        InsertKeeps(o, e, sorted[1..]);
        forall j | 0 <= j < |rest|
          ensures InOrder(o, sorted[0], rest[j])
        {
          assert rest[j] in multiset(rest);
          assert rest[j] == e || rest[j] in sorted[1..];
        }
        HeadOrdered(o, sorted[0], rest);
      }
    }
  }

  lemma HeadOrdered(o: Options, head: Node, rest: seq<Node>)
    requires Ordered(o, rest) && forall j | 0 <= j < |rest| :: InOrder(o, head, rest[j])
    ensures Ordered(o, [head] + rest)
  {
  }

  lemma {:induction false} InsertStable(o: Options, e: Node, sorted: seq<Node>, like: Node)
    requires Ordered(o, sorted)
    ensures Alike(o, Insert(o, e, sorted), like) == Alike(o, [e] + sorted, like)
  {
    assert ([e] + sorted)[1..] == sorted;
    if sorted != [] && !InOrder(o, e, sorted[0]) {
      InsertStable(o, e, sorted[1..], like);
      assert ([e] + sorted[1..])[1..] == sorted[1..];
      var all := Insert(o, e, sorted);
      assert all[1..] == Insert(o, e, sorted[1..]);
      if InOrder(o, e, like) && InOrder(o, like, e) && InOrder(o, like, sorted[0]) {
        InOrderTransitive(o, e, like, sorted[0]);
      }
    }
  }

  /** The sort puts the nodes in order, keeps them all, and leaves nodes with the
      same key in the order they came. */
  lemma {:induction false} SortedMeans(o: Options, nodes: seq<Node>, like: Node)
    ensures Ordered(o, Sorted(o, nodes))
    ensures multiset(Sorted(o, nodes)) == multiset(nodes)
    ensures Alike(o, Sorted(o, nodes), like) == Alike(o, nodes, like)
  {
    if nodes != [] {
      SortedMeans(o, nodes[1..], like);
      InsertSorts(o, nodes[0], Sorted(o, nodes[1..]));
      InsertKeeps(o, nodes[0], Sorted(o, nodes[1..]));
      InsertStable(o, nodes[0], Sorted(o, nodes[1..]), like);
      var rest := Sorted(o, nodes[1..]);
      assert ([nodes[0]] + rest)[1..] == rest;
      assert nodes == [nodes[0]] + nodes[1..];
    }
  }

  // ----------------------------------------------------------------- entries

  predicate Visible(o: Options, n: Node) {
    o.showAll || n.name == "" || n.name[0] != '.'
  }

  function VisibleAmong(o: Options, nodes: seq<Node>): seq<Node> {
    if nodes == [] then []
    else (if Visible(o, nodes[0]) then [nodes[0]] else []) + VisibleAmong(o, nodes[1..])
  }

  /** What a directory lists, in listing order. */
  function Entries(o: Options, children: seq<Node>): seq<Node> {
    Sorted(o, VisibleAmong(o, children))
  }

  lemma {:induction false} VisibleAmongMeans(o: Options, nodes: seq<Node>, e: Node)
    ensures e in VisibleAmong(o, nodes) <==> e in nodes && Visible(o, e)
  {
    if nodes != [] {
      VisibleAmongMeans(o, nodes[1..], e);
      assert nodes == [nodes[0]] + nodes[1..];
    }
  }

  /** Names that begin with a dot are listed only when all are. */
  lemma VisibleMeans(o: Options, n: Node, rest: string)
    ensures n.name == "." + rest ==> (Visible(o, n) <==> o.showAll)
    ensures n.name == "" || n.name[0] != '.' ==> Visible(o, n)
  {
  }

  /** The order of a listing: by name, or newest first; the other way with `-r`. */
  lemma EntriesInOrder(o: Options, children: seq<Node>, i: nat, j: nat)
    requires i < j < |Entries(o, children)|
    ensures var a, b := Entries(o, children)[i], Entries(o, children)[j];
            && (!o.byTime && !o.reverse ==> AtMost(a.name, b.name))
            && (!o.byTime && o.reverse ==> AtMost(b.name, a.name))
            && (o.byTime && !o.reverse ==> a.mtime >= b.mtime)
            && (o.byTime && o.reverse ==> a.mtime <= b.mtime)
  {
    SortedMeans(o, VisibleAmong(o, children), Entries(o, children)[i]);
  }

  /** A directory lists just its visible children. */
  lemma EntriesMeans(o: Options, children: seq<Node>, e: Node)
    ensures e in Entries(o, children) <==> e in children && Visible(o, e)
    ensures multiset(Entries(o, children)) == multiset(VisibleAmong(o, children))
    ensures Ordered(o, Entries(o, children))
  {
    VisibleAmongMeans(o, children, e);
    SortedMeans(o, VisibleAmong(o, children), e);
    assert e in Entries(o, children) <==> e in multiset(Entries(o, children));
  }
}

module Listing {
  import opened DirectoryOrder

  /** One block of output: a plain name, or a directory with its entries. */
  datatype Section = Plain(name: string) | Listed(path: string, entries: seq<Node>)

  function Child(path: string, e: Node): string {
    path + "/" + e.name
  }

  /** The recursive walk: a directory, then the directories among its entries. */
  function Preorder(o: Options, path: string, dir: Node): seq<Section>
    requires dir.Dir?
    decreases dir
  {
    var entries := Entries(o, dir.children);
    forall e {
      EntriesMeans(o, dir.children, e);
    }
    [Listed(path, entries)] + PreorderAll(o, path, dir, entries)
  }

  function PreorderAll(o: Options, path: string, dir: Node, entries: seq<Node>): seq<Section>
    requires dir.Dir? && forall e | e in entries :: e in dir.children
    decreases dir, |entries|
  {
    if entries == [] then []
    else
      assert entries[0] in dir.children;
      (if entries[0].Dir? then Preorder(o, Child(path, entries[0]), entries[0]) else [])
      + PreorderAll(o, path, dir, entries[1..])
  }

  /** A directory comes first, with its entries. */
  lemma DirectoryFirst(o: Options, path: string, dir: Node)
    requires dir.Dir?
    ensures var entries := Entries(o, dir.children);
            && (forall e | e in entries :: e in dir.children)
            && Preorder(o, path, dir) == [Listed(path, entries)] + PreorderAll(o, path, dir, entries)
  {
    var entries := Entries(o, dir.children);
    forall e | e in entries ensures e in dir.children {
      EntriesMeans(o, dir.children, e);
    }
  }

  /** Then the directories below it, in the order of the entries: those among the
      first entries before those among the others. */
  lemma {:induction false} EntriesInTurn(o: Options, path: string, dir: Node, a: seq<Node>, b: seq<Node>)
    requires dir.Dir? && forall e | e in a + b :: e in dir.children
    ensures (forall e | e in a :: e in dir.children) && forall e | e in b :: e in dir.children
    ensures PreorderAll(o, path, dir, a + b) == PreorderAll(o, path, dir, a) + PreorderAll(o, path, dir, b)
    decreases |a|
  {
    assert forall e | e in a :: e in a + b;
    assert forall e | e in b :: e in a + b;
    if a == [] {
      assert a + b == b;
    } else {
      assert (a + b)[1..] == a[1..] + b && (a + b)[0] == a[0];
      assert a[0] in dir.children;
      EntriesInTurn(o, path, dir, a[1..], b);
    }
  }

  lemma OneEntry(o: Options, path: string, dir: Node, e: Node)
    requires dir.Dir? && e in dir.children
    ensures PreorderAll(o, path, dir, [e]) == if e.Dir? then Preorder(o, path + "/" + e.name, e) else []
  {
    assert [e][1..] == [];
  }

  // ------------------------------------------------------- what it walks over

  /** `node` at `path2` is reached from `dir` at `path` through visible real
      directories only: links are not entered. */
  ghost predicate Reaches(o: Options, path: string, dir: Node, path2: string, node: Node)
    requires dir.Dir?
    decreases dir
  {
    || (path2 == path && node == dir)
    || exists e | e in dir.children :: e.Dir? && Visible(o, e) && Reaches(o, Child(path, e), e, path2, node)
  }

  /** A section is listed exactly when it is that of a directory so reached. */
  lemma {:induction false} PreorderReaches(o: Options, path: string, dir: Node, s: Section)
    requires dir.Dir?
    ensures s in Preorder(o, path, dir) <==>
            s.Listed? && exists node: Node :: node.Dir? && s.entries == Entries(o, node.children)
                                              && Reaches(o, path, dir, s.path, node)
    decreases dir
  {
    var entries := Entries(o, dir.children);
    forall e {
      EntriesMeans(o, dir.children, e);
    }
    PreorderAllReaches(o, path, dir, entries, s);
    if s in Preorder(o, path, dir) {
      if s == Listed(path, entries) {
        assert Reaches(o, path, dir, path, dir);
      }
    }
    if s.Listed? {
      forall node: Node | node.Dir? && s.entries == Entries(o, node.children) && Reaches(o, path, dir, s.path, node)
        ensures s in Preorder(o, path, dir)
      {
        if !(s.path == path && node == dir) {
          var e :| e in dir.children && e.Dir? && Visible(o, e) && Reaches(o, Child(path, e), e, s.path, node);
          assert e in entries;
        }
      }
    }
  }

  /** The part of it below some of the entries. */
  lemma {:induction false} PreorderAllReaches(o: Options, path: string, dir: Node, entries: seq<Node>, s: Section)
    requires dir.Dir? && forall e | e in entries :: e in dir.children
    ensures s in PreorderAll(o, path, dir, entries) <==>
            s.Listed? && exists e: Node, node: Node :: e in entries && e.Dir? && node.Dir?
                                                       && s.entries == Entries(o, node.children)
                                                       && Reaches(o, Child(path, e), e, s.path, node)
    decreases dir, |entries|
  {
    if entries != [] {
      var first, rest := entries[0], entries[1..];
      assert first in dir.children;
      if first.Dir? {
        PreorderReaches(o, Child(path, first), first, s);
      }
      PreorderAllReaches(o, path, dir, rest, s);
      assert forall e :: e in entries <==> e == first || e in rest;
    }
  }

  /** How many visible real directories there are, counted in directory order. */
  function CountDirs(o: Options, dir: Node): nat
    requires dir.Dir?
    decreases dir
  {
    1 + CountBelow(o, dir, dir.children)
  }

  function CountBelow(o: Options, dir: Node, nodes: seq<Node>): nat
    requires dir.Dir? && forall e | e in nodes :: e in dir.children
    decreases dir, |nodes|
  {
    if nodes == [] then 0
    else
      assert nodes[0] in dir.children;
      (if nodes[0].Dir? && Visible(o, nodes[0]) then CountDirs(o, nodes[0]) else 0)
      + CountBelow(o, dir, nodes[1..])
  }

  predicate Among(nodes: seq<Node>, dir: Node)
    requires dir.Dir?
  {
    forall e | e in nodes :: e in dir.children
  }

  lemma InsertedAmong(o: Options, dir: Node, e: Node, sorted: seq<Node>)
    requires dir.Dir? && Among([e] + sorted, dir)
    ensures Among(Insert(o, e, sorted), dir)
  {
    InsertKeeps(o, e, sorted);
    forall x | x in Insert(o, e, sorted)
      ensures x in dir.children
    {
      assert x in multiset(Insert(o, e, sorted));
      assert x in [e] + sorted;
    }
  }

  lemma {:induction false} CountInserted(o: Options, dir: Node, e: Node, sorted: seq<Node>)
    requires dir.Dir? && Among([e] + sorted, dir)
    ensures Among(Insert(o, e, sorted), dir)
    ensures CountBelow(o, dir, Insert(o, e, sorted)) == CountBelow(o, dir, [e] + sorted)
  {
    assert ([e] + sorted)[1..] == sorted && ([e] + sorted)[0] == e;
    InsertedAmong(o, dir, e, sorted);
    if sorted != [] && !InOrder(o, e, sorted[0]) {
      var rest := Insert(o, e, sorted[1..]);
      assert forall x | x in [e] + sorted[1..] :: x in [e] + sorted;
      CountInserted(o, dir, e, sorted[1..]);
      assert ([e] + sorted[1..])[1..] == sorted[1..];
      assert Insert(o, e, sorted)[1..] == rest;
    }
  }

  lemma {:induction false} CountSorted(o: Options, dir: Node, nodes: seq<Node>)
    requires dir.Dir? && Among(nodes, dir)
    ensures Among(Sorted(o, nodes), dir)
    ensures CountBelow(o, dir, Sorted(o, nodes)) == CountBelow(o, dir, nodes)
  {
    if nodes != [] {
      var rest := Sorted(o, nodes[1..]);
      CountSorted(o, dir, nodes[1..]);
      assert forall x | x in [nodes[0]] + rest :: x in dir.children;
      CountInserted(o, dir, nodes[0], rest);
      assert ([nodes[0]] + rest)[1..] == rest;
    }
  }

  lemma {:induction false} CountVisible(o: Options, dir: Node, nodes: seq<Node>)
    requires dir.Dir? && Among(nodes, dir)
    ensures Among(VisibleAmong(o, nodes), dir)
    ensures CountBelow(o, dir, VisibleAmong(o, nodes)) == CountBelow(o, dir, nodes)
  {
    forall x | x in VisibleAmong(o, nodes)
      ensures x in dir.children
    {
      VisibleAmongMeans(o, nodes, x);
    }
    if nodes != [] {
      CountVisible(o, dir, nodes[1..]);
      if Visible(o, nodes[0]) {
        assert VisibleAmong(o, nodes)[1..] == VisibleAmong(o, nodes[1..]);
      } else {
        assert VisibleAmong(o, nodes) == VisibleAmong(o, nodes[1..]);
      }
    }
  }

  /** One section per visible real directory: none is listed twice, none left out. */
  lemma {:induction false} OneSectionEach(o: Options, path: string, dir: Node)
    requires dir.Dir?
    ensures |Preorder(o, path, dir)| == CountDirs(o, dir)
    decreases dir
  {
    var entries := Entries(o, dir.children);
    CountVisible(o, dir, dir.children);
    CountSorted(o, dir, VisibleAmong(o, dir.children));
    forall e {
      EntriesMeans(o, dir.children, e);
    }
    OneSectionEachBelow(o, path, dir, entries);
  }

  lemma {:induction false} OneSectionEachBelow(o: Options, path: string, dir: Node, entries: seq<Node>)
    requires dir.Dir? && Among(entries, dir) && forall e | e in entries :: Visible(o, e)
    ensures |PreorderAll(o, path, dir, entries)| == CountBelow(o, dir, entries)
    decreases dir, |entries|
  {
    if entries != [] {
      assert entries[0] in dir.children;
      if entries[0].Dir? {
        OneSectionEach(o, Child(path, entries[0]), entries[0]);
      }
      OneSectionEachBelow(o, path, dir, entries[1..]);
    }
  }

  // ------------------------------------------------------ the explicit stack

  /** A directory still to be listed. */
  datatype Pending = Pending(path: string, dir: Node)

  ghost predicate AllDirs(stack: seq<Pending>) {
    forall i | 0 <= i < |stack| :: stack[i].dir.Dir?
  }

  /** What the stack stands for, its top first. */
  ghost function StackPreorder(o: Options, stack: seq<Pending>): seq<Section>
    requires AllDirs(stack)
  {
    if stack == [] then []
    else
      var top := stack[|stack| - 1];
      Preorder(o, top.path, top.dir) + StackPreorder(o, stack[..|stack| - 1])
  }

  /** What a target yields: a plain name unless it is a real directory. */
  function TargetSections(o: Options, target: (string, Node)): seq<Section> {
    if target.1.Dir? then Preorder(o, target.0, target.1) else [Plain(target.1.name)]
  }

  function AllSections(o: Options, targets: seq<(string, Node)>): seq<Section> {
    if targets == [] then []
    else AllSections(o, targets[..|targets| - 1]) + TargetSections(o, targets[|targets| - 1])
  }

  /** Targets in turn; what is no real directory gives its name. */
  lemma {:induction false} TargetsInTurn(o: Options, a: seq<(string, Node)>, b: seq<(string, Node)>)
    ensures AllSections(o, a + b) == AllSections(o, a) + AllSections(o, b)
  {
    if b == [] {
      assert a + b == a && AllSections(o, a) + [] == AllSections(o, a);
    } else {
      var front, last := b[..|b| - 1], b[|b| - 1];
      TargetsInTurn(o, a, front);
      assert (a + b)[..|a + b| - 1] == a + front && (a + b)[|a + b| - 1] == last;
      assert AllSections(o, a) + (AllSections(o, front) + TargetSections(o, last)) ==
             (AllSections(o, a) + AllSections(o, front)) + TargetSections(o, last);
    }
  }

  lemma OneTarget(o: Options, target: (string, Node))
    ensures AllSections(o, [target]) ==
            if target.1.Dir? then Preorder(o, target.0, target.1) else [Plain(target.1.name)]
  {
    assert [target][..0] == [];
  }

  /** Pushes the directories among the entries, the first of them on top. */
  method PushDirs(o: Options, base: seq<Pending>, path: string, dir: Node, entries: seq<Node>)
    returns (stack: seq<Pending>)
    requires dir.Dir? && AllDirs(base) && forall e | e in entries :: e in dir.children
    ensures AllDirs(stack)
    ensures StackPreorder(o, stack) == PreorderAll(o, path, dir, entries) + StackPreorder(o, base)
  {
    stack := base;
    var i := |entries|;
    assert PreorderAll(o, path, dir, entries[i..]) + StackPreorder(o, base) == StackPreorder(o, base);
    while i > 0
      invariant 0 <= i <= |entries| && AllDirs(stack)
      invariant StackPreorder(o, stack) == PreorderAll(o, path, dir, entries[i..]) + StackPreorder(o, base)
    {
      i := i - 1;
      var e := entries[i];
      PushStep(o, stack, base, path, dir, entries, i);
      if e.Dir? {
        stack := stack + [Pending(Child(path, e), e)];
      }
    }
    assert entries[0..] == entries;
  }

  lemma PushStep(o: Options, stack: seq<Pending>, base: seq<Pending>, path: string, dir: Node,
                 entries: seq<Node>, i: nat)
    requires dir.Dir? && AllDirs(base) && AllDirs(stack) && i < |entries|
    requires forall e | e in entries :: e in dir.children
    requires StackPreorder(o, stack) == PreorderAll(o, path, dir, entries[i + 1..]) + StackPreorder(o, base)
    ensures var e := entries[i];
            var pushed := if e.Dir? then stack + [Pending(Child(path, e), e)] else stack;
            && AllDirs(pushed)
            && StackPreorder(o, pushed) == PreorderAll(o, path, dir, entries[i..]) + StackPreorder(o, base)
  {
    var e, tail := entries[i], entries[i..];
    assert tail[0] == e && tail[1..] == entries[i + 1..];
    if e.Dir? {
      var pushed := stack + [Pending(Child(path, e), e)];
      assert pushed[..|stack|] == stack;
      var first, rest := Preorder(o, Child(path, e), e), PreorderAll(o, path, dir, entries[i + 1..]);
      assert first + (rest + StackPreorder(o, base)) == (first + rest) + StackPreorder(o, base);
    } else {
      var rest := PreorderAll(o, path, dir, entries[i + 1..]);
      assert [] + rest == rest;
    }
  }

  /** The top of the stack gives one section, and leaves the walk below it. */
  lemma PopStep(o: Options, stack: seq<Pending>)
    requires stack != [] && AllDirs(stack)
    ensures var top, rest := stack[|stack| - 1], stack[..|stack| - 1];
            var entries := Entries(o, top.dir.children);
            && AllDirs(rest) && Among(entries, top.dir)
            && StackPreorder(o, stack)
               == [Listed(top.path, entries)]
                  + (PreorderAll(o, top.path, top.dir, entries) + StackPreorder(o, rest))
  {
    var top := stack[|stack| - 1];
    forall e {
      EntriesMeans(o, top.dir.children, e);
    }
  }

  /** The iterative walk of one directory terminates, each turn listing one more
      of the sections of the recursive walk. */
  method WalkDirectory(o: Options, path: string, dir: Node) returns (sections: seq<Section>)
    requires dir.Dir?
    ensures sections == Preorder(o, path, dir)
  {
    sections := [];
    var stack := [Pending(path, dir)];
    ghost var left := StackPreorder(o, stack);
    assert stack[..0] == [] && StackPreorder(o, []) == [];
    assert left == Preorder(o, path, dir) + [] == Preorder(o, path, dir);
    while stack != []
      invariant AllDirs(stack) && left == StackPreorder(o, stack)
      invariant sections + left == Preorder(o, path, dir)
      decreases |left|
    {
      PopStep(o, stack);
      var current := stack[|stack| - 1];
      stack := stack[..|stack| - 1];
      var entries := Entries(o, current.dir.children);
      stack := PushDirs(o, stack, current.path, current.dir, entries);
      ghost var section := Listed(current.path, entries);
      left := StackPreorder(o, stack);
      assert sections + ([section] + left) == (sections + [section]) + left;
      sections := sections + [Listed(current.path, entries)];
    }
  }

  method LsRecursive(o: Options, targets: seq<(string, Node)>) returns (sections: seq<Section>)
    ensures sections == AllSections(o, targets)
  {
    sections := [];
    for i := 0 to |targets|
      invariant sections == AllSections(o, targets[..i])
    {
      assert targets[..i + 1][..i] == targets[..i];
      if targets[i].1.Dir? {
        var walked := WalkDirectory(o, targets[i].0, targets[i].1);
        sections := sections + walked;
      } else {
        sections := sections + [Plain(targets[i].1.name)];
      }
    }
    assert targets[..|targets|] == targets;
  }
}
