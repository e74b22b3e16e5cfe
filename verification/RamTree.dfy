/** The table of nodes behind /tmp as a tree, and what creating, removing and renaming do to the
    paths that resolve in it (kernel/fs/ramfs.c). */
module RamTree {

  const SLOTS := 64
  const LONGEST := 31

  datatype Node = Node(used: bool, isDir: bool, name: string, parent: int)

  /** Node `c` is used and is called `n` in directory `p`. */
  predicate Kid(ns: seq<Node>, p: int, n: string, c: int)
  {
    0 <= c < |ns| && ns[c].used && ns[c].parent == p && ns[c].name == n
  }

  /** The node called `n` in directory `p`, or -1. */
  ghost function Ask(ns: seq<Node>, p: int, n: string): int
  {
    if p >= 0 && exists c :: Kid(ns, p, n, c) then var c :| Kid(ns, p, n, c); c else -1
  }

  /** A used node other than the root is in a used directory that is less deep. */
  ghost predicate Hangs(ns: seq<Node>, root: nat, d: seq<nat>, i: int)
  {
    0 <= i < |ns| && ns[i].used && i != root ==>
      var p := ns[i].parent;
      0 <= p < |ns| && ns[p].used && ns[p].isDir && i < |d| && p < |d| && d[p] < d[i]
  }

  /** No two siblings have one name. */
  ghost predicate OneName(ns: seq<Node>, i: int, j: int)
  {
    0 <= i < |ns| && 0 <= j < |ns| && ns[i].used && ns[j].used && ns[i].parent == ns[j].parent ==>
      (ns[i].name == ns[j].name ==> i == j)
  }

  ghost predicate Ranks(ns: seq<Node>, root: nat, d: seq<nat>)
  {
    forall i: int {:trigger Hangs(ns, root, d, i)} :: Hangs(ns, root, d, i)
  }

  ghost predicate Names(ns: seq<Node>)
  {
    forall i: int, j: int {:trigger OneName(ns, i, j)} :: OneName(ns, i, j)
  }

  /** The nodes form a tree below `root`, a directory; `d` witnesses that there is no cycle. */
  ghost predicate Inv(ns: seq<Node>, root: nat, d: seq<nat>)
  {
    && |ns| == |d| == SLOTS && root < SLOTS && ns[root].used && ns[root].isDir && ns[root].parent == -1
    && Ranks(ns, root, d) && Names(ns)
  }

  ghost predicate IsTree(ns: seq<Node>, root: nat)
  {
    exists d :: Inv(ns, root, d)
  }

  lemma AskIs(ns: seq<Node>, p: int, n: string, c: int)
    requires Names(ns) && p >= 0 && Kid(ns, p, n, c)
    ensures Ask(ns, p, n) == c
  {
    var e := Ask(ns, p, n);
    assert Kid(ns, p, n, e);
    assert OneName(ns, c, e);
  }

  lemma AskNot(ns: seq<Node>, p: int, n: string)
    ensures Ask(ns, p, n) >= 0 ==> p >= 0 && Kid(ns, p, n, Ask(ns, p, n))
    ensures Ask(ns, p, n) < 0 ==> Ask(ns, p, n) == -1
    ensures Ask(ns, p, n) < 0 && p >= 0 ==> forall c :: !Kid(ns, p, n, c)
  {
  }

  // ----- paths -----

  /** The node a path of names leads to from the root, or -1. */
  ghost function Walk(ns: seq<Node>, root: nat, q: seq<string>): int
    decreases |q|
  {
    if q == [] then root else Ask(ns, Walk(ns, root, q[..|q| - 1]), q[|q| - 1])
  }

  lemma WalkNode(ns: seq<Node>, root: nat, d: seq<nat>, q: seq<string>)
    requires Inv(ns, root, d)
    ensures Walk(ns, root, q) == -1 || (0 <= Walk(ns, root, q) < |ns| && ns[Walk(ns, root, q)].used)
    ensures Walk(ns, root, q) == root <==> q == []
  {
    if q != [] {
      AskNot(ns, Walk(ns, root, q[..|q| - 1]), q[|q| - 1]);
    }
  }

  lemma WalkSnoc(ns: seq<Node>, root: nat, q: seq<string>, n: string)
    ensures Walk(ns, root, q + [n]) == Ask(ns, Walk(ns, root, q), n)
  {
    assert (q + [n])[..|q|] == q;
  }

  /** A node has one path. */
  lemma {:induction false} PathUnique(ns: seq<Node>, root: nat, d: seq<nat>, p: seq<string>, q: seq<string>)
    requires Inv(ns, root, d) && Walk(ns, root, p) == Walk(ns, root, q) >= 0
    ensures p == q
    decreases |p|
  {
    WalkNode(ns, root, d, p);
    WalkNode(ns, root, d, q);
    if p != [] && q != [] {
      var p0, q0 := p[..|p| - 1], q[..|q| - 1];
      AskNot(ns, Walk(ns, root, p0), p[|p| - 1]);
      AskNot(ns, Walk(ns, root, q0), q[|q| - 1]);
      PathUnique(ns, root, d, p0, q0);
      assert p == p0 + [p[|p| - 1]] && q == q0 + [q[|q| - 1]];
    }
  }

  // ----- ancestors -----

  /** `c` is `a` or below it. */
  ghost predicate InSub(ns: seq<Node>, root: nat, d: seq<nat>, c: int, a: int)
    decreases if 0 <= c < |d| then d[c] else 0
  {
    c == a || (0 <= c < |ns| && ns[c].used && c != root && Hangs(ns, root, d, c) && InSub(ns, root, d, ns[c].parent, a))
  }

  lemma {:induction false} SubDepth(ns: seq<Node>, root: nat, d: seq<nat>, c: int, a: int)
    requires InSub(ns, root, d, c, a) && c != a
    ensures 0 <= c < |d| && 0 <= a < |d| && d[a] < d[c]
    decreases if 0 <= c < |d| then d[c] else 0
  {
    var p := ns[c].parent;
    if p != a { SubDepth(ns, root, d, p, a); }
  }

  /** A path that goes on from another leads below it. */
  lemma {:induction false} WalkBelow(ns: seq<Node>, root: nat, d: seq<nat>, p: seq<string>, q: seq<string>)
    requires Inv(ns, root, d) && p <= q && Walk(ns, root, q) >= 0
    ensures Walk(ns, root, p) >= 0 && InSub(ns, root, d, Walk(ns, root, q), Walk(ns, root, p))
    decreases |q|
  {
    if p != q {
      var q0 := q[..|q| - 1];
      var k, c := Walk(ns, root, q0), Walk(ns, root, q);
      AskNot(ns, k, q[|q| - 1]);
      WalkNode(ns, root, d, q);
      assert p <= q0;
      WalkBelow(ns, root, d, p, q0);
      assert Hangs(ns, root, d, c);
    }
  }

  /** Every used node reaches the root along its parents: it has a path. */
  lemma {:induction false} HasPath(ns: seq<Node>, root: nat, d: seq<nat>, c: int) returns (q: seq<string>)
    requires Inv(ns, root, d) && 0 <= c < |ns| && ns[c].used
    ensures Walk(ns, root, q) == c
    decreases d[c]
  {
    if c == root { q := []; } else {
      assert Hangs(ns, root, d, c);
      var p := ns[c].parent;
      var q0 := HasPath(ns, root, d, p);
      q := q0 + [ns[c].name];
      AskIs(ns, p, ns[c].name, c);
      WalkSnoc(ns, root, q0, ns[c].name);
    }
  }

  /** A node is below another exactly if the other's path begins its own. */
  lemma {:induction false} SubIsPrefix(ns: seq<Node>, root: nat, d: seq<nat>, p: seq<string>, q: seq<string>)
    requires Inv(ns, root, d) && Walk(ns, root, p) >= 0 && Walk(ns, root, q) >= 0
    ensures InSub(ns, root, d, Walk(ns, root, q), Walk(ns, root, p)) <==> p <= q
    decreases |q|
  {
    var a, c := Walk(ns, root, p), Walk(ns, root, q);
    if p <= q {
      WalkBelow(ns, root, d, p, q);
    } else if a == c {
      PathUnique(ns, root, d, p, q);
    } else if q != [] {
      var q0 := q[..|q| - 1];
      AskNot(ns, Walk(ns, root, q0), q[|q| - 1]);
      SubIsPrefix(ns, root, d, p, q0);
    }
  }

  /** Nothing is in a file. */
  lemma {:induction false} FileAlone(ns: seq<Node>, root: nat, d: seq<nat>, c: int, a: int)
    requires Inv(ns, root, d) && 0 <= a < |ns| && !ns[a].isDir && InSub(ns, root, d, c, a)
    ensures c == a
    decreases if 0 <= c < |d| then d[c] else 0
  {
    if c != a { FileAlone(ns, root, d, ns[c].parent, a); }
  }

  /** A path that goes on from a file or from nothing leads nowhere. */
  lemma PastFile(ns: seq<Node>, root: nat, d: seq<nat>, p: seq<string>, q: seq<string>)
    requires Inv(ns, root, d) && p <= q
    requires Walk(ns, root, p) < 0 || !ns[Walk(ns, root, p)].isDir
    ensures Walk(ns, root, q) == -1 || (p == q && Walk(ns, root, p) >= 0)
  {
    WalkNode(ns, root, d, p);
    WalkNode(ns, root, d, q);
    if Walk(ns, root, q) >= 0 {
      WalkBelow(ns, root, d, p, q);
      FileAlone(ns, root, d, Walk(ns, root, q), Walk(ns, root, p));
      PathUnique(ns, root, d, p, q);
    }
  }

  // ----- a new node -----

  ghost predicate Adds(ns: seq<Node>, k: int, n: string, dir: bool, i: int, ns': seq<Node>)
  {
    && 0 <= k < |ns| && ns[k].used && ns[k].isDir && Ask(ns, k, n) == -1 && 0 <= i < |ns| && !ns[i].used
    && ns' == ns[i := Node(true, dir, n, k)]
  }

  lemma AddKeeps(ns: seq<Node>, root: nat, d: seq<nat>, k: int, n: string, dir: bool, i: int, ns': seq<Node>)
    requires Inv(ns, root, d) && Adds(ns, k, n, dir, i, ns')
    ensures Inv(ns', root, d[i := d[k] + 1])
  {
    var d' := d[i := d[k] + 1];
    AskNot(ns, k, n);
    forall j: int
      ensures Hangs(ns', root, d', j)
    {
      assert Hangs(ns, root, d, j);
    }
    forall a: int, b: int
      ensures OneName(ns', a, b)
    {
      assert OneName(ns, a, b) && !Kid(ns, k, n, a) && !Kid(ns, k, n, b);
    }
  }

  lemma AddAsk(ns: seq<Node>, root: nat, d: seq<nat>, k: int, n: string, dir: bool, i: int, ns': seq<Node>, p: int,
      x: string)
    requires Inv(ns, root, d) && Adds(ns, k, n, dir, i, ns')
    ensures Ask(ns', p, x) == if p == k && x == n then i else Ask(ns, p, x)
  {
    AddKeeps(ns, root, d, k, n, dir, i, ns');
    AskNot(ns, p, x);
    AskNot(ns', p, x);
    if p == k && x == n {
      AskIs(ns', p, x, i);
    } else if Ask(ns, p, x) >= 0 {
      AskIs(ns', p, x, Ask(ns, p, x));
    } else if p >= 0 {
      forall c
        ensures !Kid(ns', p, x, c)
      {
        assert !Kid(ns, p, x, c);
      }
    }
  }

  /** mkdir and create: one path more, to the new node; every path else resolves as it did. */
  lemma {:induction false} AddPaths(ns: seq<Node>, root: nat, d: seq<nat>, at: seq<string>, n: string, dir: bool,
      i: int, ns': seq<Node>, q: seq<string>)
    requires Inv(ns, root, d) && Adds(ns, Walk(ns, root, at), n, dir, i, ns')
    ensures Walk(ns', root, q) == if q == at + [n] then i else Walk(ns, root, q)
    decreases |q|
  {
    hide Adds, Inv;
    var k := Walk(ns, root, at);
    if q != [] {
      var q0, x := q[..|q| - 1], q[|q| - 1];
      assert q == q0 + [x];
      AddPaths(ns, root, d, at, n, dir, i, ns', q0);
      AddAsk(ns, root, d, k, n, dir, i, ns', Walk(ns', root, q0), x);
      AddAsk(ns, root, d, k, n, dir, i, ns', Walk(ns, root, q0), x);
      WalkKid(ns, root, d, k, n, dir, i, ns', at, q0, x);
    }
  }

  /** The new node has nothing in it, and its directory one path. */
  lemma WalkKid(ns: seq<Node>, root: nat, d: seq<nat>, k: int, n: string, dir: bool, i: int, ns': seq<Node>,
      at: seq<string>, q0: seq<string>, x: string)
    requires Inv(ns, root, d) && Adds(ns, k, n, dir, i, ns') && Walk(ns, root, at) == k
    ensures Walk(ns, root, q0) == k ==> q0 == at
    ensures i != k && Ask(ns, i, x) == -1
    ensures Walk(ns, root, at + [n]) == -1
  {
    if Walk(ns, root, q0) == k { PathUnique(ns, root, d, at, q0); }
    AskNot(ns, i, x);
    assert Hangs(ns, root, d, Ask(ns, i, x));
    WalkSnoc(ns, root, at, n);
  }

  // ----- a node that goes -----

  ghost predicate Childless(ns: seq<Node>, c: int)
  {
    forall i :: 0 <= i < |ns| && ns[i].used ==> ns[i].parent != c
  }

  ghost predicate Drops(ns: seq<Node>, root: nat, c: int, ns': seq<Node>)
  {
    0 <= c < |ns| && c != root && ns[c].used && ns' == ns[c := Node(false, false, "", 0)]
  }

  lemma DropKeeps(ns: seq<Node>, root: nat, d: seq<nat>, c: int, ns': seq<Node>)
    requires Inv(ns, root, d) && Drops(ns, root, c, ns') && Childless(ns, c)
    ensures Inv(ns', root, d)
  {
    forall j: int
      ensures Hangs(ns', root, d, j)
    {
      assert Hangs(ns, root, d, j);
    }
    forall a: int, b: int
      ensures OneName(ns', a, b)
    {
      assert OneName(ns, a, b);
    }
  }

  /** Taking a node out leaves a tree exactly if nothing was in it. */
  lemma DropIff(ns: seq<Node>, root: nat, d: seq<nat>, c: int, ns': seq<Node>)
    requires Inv(ns, root, d) && Drops(ns, root, c, ns')
    ensures IsTree(ns', root) <==> Childless(ns, c)
  {
    if Childless(ns, c) {
      DropKeeps(ns, root, d, c, ns');
    }
    if IsTree(ns', root) {
      var e :| Inv(ns', root, e);
      forall i | 0 <= i < |ns| && ns[i].used
        ensures ns[i].parent != c
      {
        assert Hangs(ns', root, e, i) && Hangs(ns, root, d, i);
      }
    }
  }

  lemma DropAsk(ns: seq<Node>, root: nat, d: seq<nat>, c: int, ns': seq<Node>, p: int, x: string)
    requires Inv(ns, root, d) && Drops(ns, root, c, ns') && Childless(ns, c)
    ensures Ask(ns', p, x) == if Ask(ns, p, x) == c then -1 else Ask(ns, p, x)
  {
    DropKeeps(ns, root, d, c, ns');
    AskNot(ns, p, x);
    AskNot(ns', p, x);
    if Ask(ns', p, x) >= 0 { AskIs(ns, p, x, Ask(ns', p, x)); }
    if Ask(ns, p, x) >= 0 && Ask(ns, p, x) != c { AskIs(ns', p, x, Ask(ns, p, x)); }
  }

  /** rmdir and the removal of a file: one path less. */
  lemma {:induction false} DropPaths(ns: seq<Node>, root: nat, d: seq<nat>, c: int, ns': seq<Node>, q: seq<string>)
    requires Inv(ns, root, d) && Drops(ns, root, c, ns') && Childless(ns, c)
    ensures Walk(ns', root, q) == if Walk(ns, root, q) == c then -1 else Walk(ns, root, q)
    decreases |q|
  {
    hide Inv;
    if q != [] {
      var q0, x := q[..|q| - 1], q[|q| - 1];
      DropPaths(ns, root, d, c, ns', q0);
      DropAsk(ns, root, d, c, ns', Walk(ns, root, q0), x);
      AskNot(ns, Walk(ns, root, q0), x);
      AskNot(ns', -1, x);
    }
  }

  // ----- rename -----

  /** Node `c` becomes `n` of directory `k`. */
  function Renamed(ns: seq<Node>, c: int, k: int, n: string): seq<Node>
    requires 0 <= c < |ns|
  {
    ns[c := ns[c].(parent := k, name := n)]
  }

  ghost predicate MayRename(ns: seq<Node>, root: nat, c: int, k: int, n: string)
  {
    0 <= c < |ns| && ns[c].used && c != root && 0 <= k < |ns| && ns[k].used && ns[k].isDir && Ask(ns, k, n) == -1
  }

  ghost function NewDepths(ns: seq<Node>, root: nat, d: seq<nat>, c: int, k: int): seq<nat>
    requires 0 <= k < |d|
  {
    seq(|d|, (i: nat) requires i < |d| => if InSub(ns, root, d, i, c) then d[i] + d[k] + 1 else d[i])
  }

  lemma RenameRanks(ns: seq<Node>, root: nat, d: seq<nat>, c: int, k: int, n: string)
    requires Inv(ns, root, d) && MayRename(ns, root, c, k, n) && !InSub(ns, root, d, k, c)
    ensures Ranks(Renamed(ns, c, k, n), root, NewDepths(ns, root, d, c, k))
  {
    var ns', d' := Renamed(ns, c, k, n), NewDepths(ns, root, d, c, k);
    forall j: int
      ensures Hangs(ns', root, d', j)
    {
      assert Hangs(ns, root, d, j);
      if 0 <= j < |ns| && ns[j].used && j != root && j != c {
        assert InSub(ns, root, d, j, c) <==> InSub(ns, root, d, ns[j].parent, c);
      }
    }
  }

  lemma RenameNames(ns: seq<Node>, root: nat, d: seq<nat>, c: int, k: int, n: string)
    requires Inv(ns, root, d) && MayRename(ns, root, c, k, n)
    ensures Names(Renamed(ns, c, k, n))
  {
    var ns' := Renamed(ns, c, k, n);
    AskNot(ns, k, n);
    forall a: int, b: int
      ensures OneName(ns', a, b)
    {
      assert OneName(ns, a, b) && !Kid(ns, k, n, a) && !Kid(ns, k, n, b);
    }
  }

  lemma RenameKeeps(ns: seq<Node>, root: nat, d: seq<nat>, c: int, k: int, n: string)
    requires Inv(ns, root, d) && MayRename(ns, root, c, k, n) && !InSub(ns, root, d, k, c)
    ensures Inv(Renamed(ns, c, k, n), root, NewDepths(ns, root, d, c, k))
  {
    RenameRanks(ns, root, d, c, k, n);
    RenameNames(ns, root, d, c, k, n);
  }

  /** If `k` is below `c`, hanging `c` below `k` closes a cycle: depths would have to fall along it. */
  lemma {:induction false} CycleFalls(ns: seq<Node>, root: nat, d: seq<nat>, c: int, k: int, n: string, e: seq<nat>,
      b: int)
    requires Inv(ns, root, d) && MayRename(ns, root, c, k, n) && InSub(ns, root, d, b, c) && b != c
    requires Inv(Renamed(ns, c, k, n), root, e) && 0 <= b < |ns|
    ensures 0 <= c < |e| && b < |e| && e[c] < e[b]
    decreases d[b]
  {
    assert Hangs(ns, root, d, b) && Hangs(Renamed(ns, c, k, n), root, e, b);
    if ns[b].parent != c { CycleFalls(ns, root, d, c, k, n, e, ns[b].parent); }
  }

  /** Renaming leaves a tree exactly if the new directory is not the node or below it. */
  lemma RenameIff(ns: seq<Node>, root: nat, d: seq<nat>, c: int, k: int, n: string)
    requires Inv(ns, root, d) && MayRename(ns, root, c, k, n)
    ensures IsTree(Renamed(ns, c, k, n), root) <==> !InSub(ns, root, d, k, c)
  {
    if !InSub(ns, root, d, k, c) {
      RenameKeeps(ns, root, d, c, k, n);
    } else {
      forall e
        ensures !Inv(Renamed(ns, c, k, n), root, e)
      {
        if Inv(Renamed(ns, c, k, n), root, e) {
          assert Hangs(Renamed(ns, c, k, n), root, e, c);
          if k != c { CycleFalls(ns, root, d, c, k, n, e, k); }
        }
      }
    }
  }

  /** The node and its new place, as they are when a rename goes through. */
  ghost predicate Renames(ns: seq<Node>, root: nat, d: seq<nat>, k1: int, n1: string, k2: int, n2: string)
  {
    var c := Ask(ns, k1, n1);
    Inv(ns, root, d) && MayRename(ns, root, c, k2, n2) && !InSub(ns, root, d, k2, c)
  }

  lemma RenameAsk(ns: seq<Node>, root: nat, d: seq<nat>, k1: int, n1: string, k2: int, n2: string, p: int, x: string)
    requires Renames(ns, root, d, k1, n1, k2, n2)
    ensures Ask(Renamed(ns, Ask(ns, k1, n1), k2, n2), p, x) ==
            if p == k2 && x == n2 then Ask(ns, k1, n1) else if p == k1 && x == n1 then -1 else Ask(ns, p, x)
  {
    hide Inv, InSub;
    var c := Ask(ns, k1, n1);
    var ns' := Renamed(ns, c, k2, n2);
    NamesOf(ns, root, d);
    RenameNames(ns, root, d, c, k2, n2);
    AskNot(ns, k1, n1);
    AskNot(ns, p, x);
    AskNot(ns', p, x);
    var a, b := Ask(ns, p, x), Ask(ns', p, x);
    if p == k2 && x == n2 {
      AskIs(ns', p, x, c);
    } else if b >= 0 {
      AskIs(ns, p, x, b);
    } else if a >= 0 && a != c {
      AskIs(ns', p, x, a);
    }
  }

  lemma NamesOf(ns: seq<Node>, root: nat, d: seq<nat>)
    requires Inv(ns, root, d)
    ensures Names(ns) && |ns| == |d|
  {
  }

  /** The directory a node leaves is not below the node. */
  lemma SourceOutside(ns: seq<Node>, root: nat, d: seq<nat>, k1: int, n1: string)
    requires Inv(ns, root, d) && Ask(ns, k1, n1) >= 0 && Ask(ns, k1, n1) != root
    ensures !InSub(ns, root, d, k1, Ask(ns, k1, n1))
  {
    var c := Ask(ns, k1, n1);
    AskNot(ns, k1, n1);
    assert Hangs(ns, root, d, c);
    if InSub(ns, root, d, k1, c) && k1 != c { SubDepth(ns, root, d, k1, c); }
  }

  /** What a path resolves to after the node at `old` became `new`. */
  ghost function Sent(ns: seq<Node>, root: nat, old_: seq<string>, new_: seq<string>, q: seq<string>): int
  {
    if new_ <= q then Walk(ns, root, old_ + q[|new_|..]) else if old_ <= q then -1 else Walk(ns, root, q)
  }

  /** Neither path leads through the other. */
  lemma OldNew(ns: seq<Node>, root: nat, d: seq<nat>, at1: seq<string>, n1: string, at2: seq<string>, n2: string)
    requires Renames(ns, root, d, Walk(ns, root, at1), n1, Walk(ns, root, at2), n2)
    ensures !(at1 + [n1] <= at2) && !(at2 + [n2] <= at1) && at1 + [n1] != at2 + [n2]
    ensures Walk(ns, root, at1 + [n1]) == Ask(ns, Walk(ns, root, at1), n1) && Walk(ns, root, at2 + [n2]) == -1
    ensures Walk(ns, root, at1) >= 0
  {
    hide Inv, InSub;
    WalkSnoc(ns, root, at1, n1);
    WalkSnoc(ns, root, at2, n2);
    AskNot(ns, Walk(ns, root, at1), n1);
    if at1 + [n1] <= at2 { WalkBelow(ns, root, d, at1 + [n1], at2); }
    if at2 + [n2] <= at1 { WalkBelow(ns, root, d, at2 + [n2], at1); }
  }

  /** A path through the old name leads away from both directories. */
  lemma ThroughOld(ns: seq<Node>, root: nat, d: seq<nat>, at1: seq<string>, n1: string, at2: seq<string>, n2: string,
      q: seq<string>)
    requires Renames(ns, root, d, Walk(ns, root, at1), n1, Walk(ns, root, at2), n2) && at1 + [n1] <= q
    ensures Walk(ns, root, q) != Walk(ns, root, at1) && Walk(ns, root, q) != Walk(ns, root, at2)
  {
    hide InSub;
    OldNew(ns, root, d, at1, n1, at2, n2);
    SourceOutside(ns, root, d, Walk(ns, root, at1), n1);
    if Walk(ns, root, q) >= 0 { WalkBelow(ns, root, d, at1 + [n1], q); }
  }

  /** rename: whatever resolved below the old path resolves below the new one, nothing resolves at the
      old one, and every other path, to a node or to none, resolves as it did. */
  lemma {:induction false} RenamePaths(ns: seq<Node>, root: nat, d: seq<nat>, at1: seq<string>, n1: string,
      at2: seq<string>, n2: string, q: seq<string>)
    requires Renames(ns, root, d, Walk(ns, root, at1), n1, Walk(ns, root, at2), n2)
    ensures Walk(Renamed(ns, Ask(ns, Walk(ns, root, at1), n1), Walk(ns, root, at2), n2), root, q) ==
            Sent(ns, root, at1 + [n1], at2 + [n2], q)
    decreases |q|
  {
    hide Inv, InSub;
    var k1, k2 := Walk(ns, root, at1), Walk(ns, root, at2);
    OldNew(ns, root, d, at1, n1, at2, n2);
    if q != [] {
      var q0, x := q[..|q| - 1], q[|q| - 1];
      assert q == q0 + [x];
      RenamePaths(ns, root, d, at1, n1, at2, n2, q0);
      RenameAsk(ns, root, d, k1, n1, k2, n2, Sent(ns, root, at1 + [n1], at2 + [n2], q0), x);
      SentStep(ns, root, d, at1, n1, at2, n2, q0, x);
    }
  }

  lemma PrefixSnoc(p: seq<string>, n: string, q0: seq<string>, x: string)
    ensures p + [n] <= q0 + [x] <==> p + [n] <= q0 || (p == q0 && n == x)
  {
    var a, b := p + [n], q0 + [x];
    if a <= b && !(a <= q0) {
      assert |a| == |b| && a == b;
      assert a[..|p|] == p && b[..|p|] == q0 && a[|p|] == n && b[|p|] == x;
    }
  }

  lemma SentStep(ns: seq<Node>, root: nat, d: seq<nat>, at1: seq<string>, n1: string, at2: seq<string>, n2: string,
      q0: seq<string>, x: string)
    requires Renames(ns, root, d, Walk(ns, root, at1), n1, Walk(ns, root, at2), n2)
    ensures var k := Sent(ns, root, at1 + [n1], at2 + [n2], q0);
            Sent(ns, root, at1 + [n1], at2 + [n2], q0 + [x]) ==
            if k == Walk(ns, root, at2) && x == n2 then Ask(ns, Walk(ns, root, at1), n1)
            else if k == Walk(ns, root, at1) && x == n1 then -1 else Ask(ns, k, x)
  {
    hide Inv, InSub, Walk, Ask;
    var from, to := at1 + [n1], at2 + [n2];
    OldNew(ns, root, d, at1, n1, at2, n2);
    PrefixSnoc(at1, n1, q0, x);
    PrefixSnoc(at2, n2, q0, x);
    WalkSnoc(ns, root, q0, x);
    if to <= q0 {
      var r := from + q0[|to|..];
      assert from + (q0 + [x])[|to|..] == r + [x];
      WalkSnoc(ns, root, r, x);
      ThroughOld(ns, root, d, at1, n1, at2, n2, r);
    } else if to <= q0 + [x] {
      assert from + (q0 + [x])[|to|..] == from;
    } else if from <= q0 {
      AskNot(ns, -1, x);
      AtSome(ns, root, d, at1, n1, at2, n2);
    } else if !(from <= q0 + [x]) {
      if Walk(ns, root, q0) == Walk(ns, root, at1) { PathUnique(ns, root, d, q0, at1); }
      if Walk(ns, root, q0) == Walk(ns, root, at2) { PathUnique(ns, root, d, q0, at2); }
    }
  }

  lemma AtSome(ns: seq<Node>, root: nat, d: seq<nat>, at1: seq<string>, n1: string, at2: seq<string>, n2: string)
    requires Renames(ns, root, d, Walk(ns, root, at1), n1, Walk(ns, root, at2), n2)
    ensures Walk(ns, root, at1) >= 0 && Walk(ns, root, at2) >= 0
  {
  }
}
