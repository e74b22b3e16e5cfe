/** Paths below /tmp and the operations on the node table (kernel/fs/ramfs.c). */
module Ramfs {
  import opened Tiny
  import opened RamTree

  // ----- paths -----

  /** How many characters of a name come first, at most `k`. */
  function Head(s: string, k: nat): (n: nat)
    ensures n <= |s| && n <= k
  {
    if s == "" || k == 0 || s[0] == '/' then 0 else 1 + Head(s[1..], k - 1)
  }

  /** `s` without the slashes it begins with. */
  function Skip(s: string): (r: string)
    ensures |r| <= |s| && !Slash(r) && (Slash(s) ==> |r| < |s|) && (!Slash(s) ==> r == s)
  {
    if Slash(s) then Skip(s[1..]) else s
  }

  predicate Slash(s: string)
  {
    s != "" && s[0] == '/'
  }

  /** The names a path below /tmp is read as: a name ends at a slash or after 31 characters. */
  function Parts(s: string): seq<string>
    decreases |s|
  {
    if s == "" then [] else
    var n := Head(s, LONGEST);
    assert n > 0 || Slash(s);
    [s[..n]] + Parts(Skip(s[n..]))
  }

  /** What follows /tmp in a path, if it is one below /tmp. */
  function Rel(path: string): Option<string>
  {
    var s := Skip(path);
    if |s| >= 3 && s[..3] == "tmp" && (|s| == 3 || s[3] == '/') then Some(Skip(s[3..])) else None
  }

  /** A name that fits a node. */
  predicate Fits(n: string)
  {
    0 < |n| <= LONGEST && forall i :: 0 <= i < |n| ==> n[i] != '/'
  }

  function Joined(q: seq<string>): string
  {
    if |q| == 0 then "" else if |q| == 1 then q[0] else q[0] + "/" + Joined(q[1..])
  }

  lemma {:induction false} HeadOf(n: string, rest: string, k: nat)
    requires (forall i :: 0 <= i < |n| ==> n[i] != '/') && |n| <= k && (rest == "" || Slash(rest))
    ensures Head(n + rest, k) == |n|
    decreases |n|
  {
    if n != "" {
      assert (n + rest)[1..] == n[1..] + rest;
      HeadOf(n[1..], rest, k - 1);
    } else {
      assert n + rest == rest;
    }
  }

  lemma PartsCut(s: string, n: nat)
    requires s != "" && Head(s, LONGEST) == n
    ensures Parts(s) == [s[..n]] + Parts(Skip(s[n..]))
  {
  }

  /** Names that fit are read back from a path as they went in. */
  lemma {:induction false} PartsJoined(q: seq<string>)
    requires forall i :: 0 <= i < |q| ==> Fits(q[i])
    ensures Parts(Joined(q)) == q && !Slash(Joined(q)) && (q != [] ==> Joined(q) != "")
  {
    hide Parts, Head, Skip;
    if |q| == 0 {
      PartsNone();
    } else if |q| == 1 {
      PartsOne(q[0]);
    } else {
      var rest := "/" + Joined(q[1..]);
      assert Fits(q[0]);
      PartsJoined(q[1..]);
      HeadOf(q[0], rest, LONGEST);
      SkipOne(Joined(q[1..]));
      var s := Joined(q);
      assert s == q[0] + rest && s[|q[0]|..] == rest && s[..|q[0]|] == q[0];
      PartsCut(s, |q[0]|);
    }
  }

  lemma PartsNone()
    ensures Parts("") == []
  {
  }

  lemma PartsOne(n: string)
    requires Fits(n)
    ensures Parts(n) == [n] && !Slash(n)
  {
    HeadOf(n, "", LONGEST);
    assert n + "" == n && Skip("") == "";
  }

  lemma SkipOne(t: string)
    ensures Skip("/" + t) == Skip(t)
  {
    assert ("/" + t)[1..] == t;
  }

  /** Every name read from a path fits, so no name is empty and none is cut. */
  lemma {:induction false} PartsFit(s: string)
    requires !Slash(s)
    ensures forall i :: 0 <= i < |Parts(s)| ==> Fits(Parts(s)[i])
    decreases |s|
  {
    if s != "" {
      var n := Head(s, LONGEST);
      HeadPlain(s, LONGEST);
      PartsFit(Skip(s[n..]));
    }
  }

  /** A list of names comes back from its path if and only if none is longer than a node's name. */
  lemma PartsExact(q: seq<string>)
    requires forall i :: 0 <= i < |q| ==> q[i] != "" && '/' !in q[i]
    ensures Parts(Joined(q)) == q <==> forall i :: 0 <= i < |q| ==> |q[i]| <= LONGEST
  {
    if forall i :: 0 <= i < |q| ==> |q[i]| <= LONGEST {
      PartsJoined(q);
    } else if Parts(Joined(q)) == q {
      assert q != [] && Joined(q)[0] == q[0][0];
      PartsFit(Joined(q));
      assert false;
    }
  }

  /** A name of 32 characters is read as two. */
  lemma PartsOfLong(n: string)
    requires |n| == LONGEST + 1 && '/' !in n
    ensures Parts(n) == [n[..LONGEST], n[LONGEST..]]
  {
    HeadFull(n, LONGEST);
    var r := n[LONGEST..];
    HeadOf(r, "", LONGEST);
    assert r + "" == r && r[1..] == "" && Skip("") == "";
    PartsCut(n, LONGEST);
    PartsCut(r, 1);
  }

  lemma {:induction false} HeadFull(s: string, k: nat)
    requires k <= |s| && '/' !in s
    ensures Head(s, k) == k
  {
    if k > 0 { HeadFull(s[1..], k - 1); }
  }

  lemma {:induction false} HeadPlain(s: string, k: nat)
    ensures forall i :: 0 <= i < Head(s, k) ==> s[i] != '/'
  {
    if !(s == "" || k == 0 || s[0] == '/') {
      HeadPlain(s[1..], k - 1);
      assert forall i :: 0 < i < Head(s, k) ==> s[i] == s[1..][i - 1];
    }
  }

  function Up(q: seq<string>): seq<string>
    requires q != []
  {
    q[..|q| - 1]
  }

  function Last(q: seq<string>): string
    requires q != []
  {
    q[|q| - 1]
  }

  // ----- what the operations need -----

  ghost predicate DirAt(ns: seq<Node>, k: int)
  {
    0 <= k < |ns| && ns[k].used && ns[k].isDir
  }

  /** The directory of the last name is there. */
  ghost predicate Placed(ns: seq<Node>, root: nat, q: seq<string>)
  {
    q != [] && DirAt(ns, Walk(ns, root, Up(q)))
  }

  ghost predicate Room(ns: seq<Node>)
  {
    exists i :: 0 <= i < |ns| && !ns[i].used
  }

  ghost predicate MayAdd(ns: seq<Node>, root: nat, q: seq<string>)
  {
    Placed(ns, root, q) && Walk(ns, root, q) == -1 && Room(ns)
  }

  ghost predicate Added(ns: seq<Node>, root: nat, q: seq<string>, dir: bool, i: int, ns': seq<Node>)
  {
    q != [] && Adds(ns, Walk(ns, root, Up(q)), Last(q), dir, i, ns')
  }

  /** The names of a path below /tmp that is not /tmp itself. */
  ghost function Below(path: string): Option<seq<string>>
  {
    if Rel(path).Some? && Rel(path).value != "" then Some(Parts(Rel(path).value)) else None
  }

  lemma RelTmp(j: string)
    requires !Slash(j)
    ensures Rel("/tmp/" + j) == Some(j)
  {
    var t := "tmp/" + j;
    assert "/tmp/" + j == "/" + t;
    assert t[3..] == "/" + j && t[..3] == "tmp";
    hide Skip;
    SkipOne(t);
    SkipOne(j);
  }

  predicate AllSlashes(s: string)
  {
    forall i :: 0 <= i < |s| ==> s[i] == '/'
  }

  lemma {:induction false} SkipSplits(s: string) returns (a: string)
    ensures s == a + Skip(s) && AllSlashes(a) && (Slash(s) <==> a != "")
  {
    a := "";
    if Slash(s) {
      a := SkipSplits(s[1..]);
      a := "/" + a;
    }
  }

  lemma {:induction false} SkipJoins(a: string, r: string)
    requires AllSlashes(a) && !Slash(r)
    ensures Skip(a + r) == r
  {
    if a == "" {
      assert a + r == r;
    } else {
      assert (a + r)[1..] == a[1..] + r;
      SkipJoins(a[1..], r);
    }
  }

  ghost predicate IsBelow(path: string, a: string, b: string, r: string)
  {
    path == a + "tmp" + b + r && AllSlashes(a) && AllSlashes(b) && !Slash(r) && (b == "" ==> r == "")
  }

  /** A path is below /tmp with the rest `r` exactly if it is tmp between slashes, the first of them optional,
      and `r`. */
  lemma RelIs(path: string, r: string)
    ensures Rel(path) == Some(r) <==> exists a, b :: IsBelow(path, a, b, r)
  {
    hide Rel, Skip, IsBelow;
    if Rel(path) == Some(r) {
      var a, b := RelBelow(path, r);
    }
    if a, b :| IsBelow(path, a, b, r) { BelowRel(path, a, b, r); }
  }

  lemma RelBelow(path: string, r: string) returns (a: string, b: string)
    requires Rel(path) == Some(r)
    ensures IsBelow(path, a, b, r)
  {
    hide Skip;
    var s := Skip(path);
    var t := s[3..];
    a := SkipSplits(path);
    b := SkipSplits(t);
    Regroup(a, s, t, b, r);
  }

  lemma Regroup(a: string, s: string, t: string, b: string, r: string)
    requires |s| >= 3 && s[..3] == "tmp" && t == s[3..] && t == b + r
    ensures a + s == a + "tmp" + b + r
  {
    assert s == s[..3] + s[3..];
  }

  lemma BelowRel(path: string, a: string, b: string, r: string)
    requires IsBelow(path, a, b, r)
    ensures Rel(path) == Some(r)
  {
    var s := "tmp" + b + r;
    assert path == a + s && s[0] == 't';
    SkipJoins(a, s);
    assert s[..3] == "tmp" && s[3..] == b + r;
    SkipJoins(b, r);
    hide Skip;
  }

  /** A list of names is read back from its path below /tmp. */
  lemma BelowJoined(q: seq<string>)
    requires q != [] && forall i :: 0 <= i < |q| ==> Fits(q[i])
    ensures Below("/tmp/" + Joined(q)) == Some(q)
  {
    hide Parts, Joined, Rel, Skip;
    PartsJoined(q);
    RelTmp(Joined(q));
  }

  /** The node of `q` is new and is a directory if `dir`; every other path leads where it led, and every node
      that was there is as it was. */
  ghost predicate OnlyNew(ns: seq<Node>, root: nat, q: seq<string>, dir: bool, ns': seq<Node>)
  {
    && |ns'| == |ns| && 0 <= Walk(ns', root, q) < |ns| && !ns[Walk(ns', root, q)].used
    && ns'[Walk(ns', root, q)].used && ns'[Walk(ns', root, q)].isDir == dir
    && (forall x {:trigger Walk(ns', root, x)} :: x != q ==> Walk(ns', root, x) == Walk(ns, root, x))
    && (forall j :: 0 <= j < |ns| && ns[j].used ==> ns'[j] == ns[j])
  }

  lemma AddedPaths(ns: seq<Node>, root: nat, d: seq<nat>, q: seq<string>, dir: bool, i: int, ns': seq<Node>)
    requires Inv(ns, root, d) && Added(ns, root, q, dir, i, ns')
    ensures OnlyNew(ns, root, q, dir, ns') && Walk(ns', root, q) == i
  {
    hide Inv, Walk;
    assert q == Up(q) + [Last(q)];
    AddPaths(ns, root, d, Up(q), Last(q), dir, i, ns', q);
    forall x | x != q
      ensures Walk(ns', root, x) == Walk(ns, root, x)
    {
      AddPaths(ns, root, d, Up(q), Last(q), dir, i, ns', x);
    }
  }

  /** The node `c` is gone, and with it every path to it; nothing else has changed. */
  ghost predicate OnlyGone(ns: seq<Node>, root: nat, c: int, ns': seq<Node>)
  {
    && |ns'| == |ns| && 0 <= c < |ns| && !ns'[c].used && (forall j :: 0 <= j < |ns| && j != c ==> ns'[j] == ns[j])
    && (forall x {:trigger Walk(ns', root, x)} ::
          Walk(ns', root, x) == if Walk(ns, root, x) == c then -1 else Walk(ns, root, x))
  }

  lemma DroppedPaths(ns: seq<Node>, root: nat, d: seq<nat>, c: int, ns': seq<Node>)
    requires Inv(ns, root, d) && Drops(ns, root, c, ns') && Childless(ns, c)
    ensures OnlyGone(ns, root, c, ns')
  {
    forall x
      ensures Walk(ns', root, x) == if Walk(ns, root, x) == c then -1 else Walk(ns, root, x)
    {
      DropPaths(ns, root, d, c, ns', x);
    }
  }

  /** What was at and below `q1` is at and below `q2`, and nothing else has moved; no node has come or gone or
      changed its kind. */
  ghost predicate OnlyMoved(ns: seq<Node>, root: nat, q1: seq<string>, q2: seq<string>, ns': seq<Node>)
  {
    && |ns'| == |ns| && (forall j :: 0 <= j < |ns| ==> ns'[j].used == ns[j].used && ns'[j].isDir == ns[j].isDir)
    && (forall x {:trigger Walk(ns', root, x)} ::
          Walk(ns', root, x) == if q2 <= x then Walk(ns, root, q1 + x[|q2|..]) else if q1 <= x then -1
                                else Walk(ns, root, x))
  }

  lemma MovedOnly(ns: seq<Node>, root: nat, d: seq<nat>, q1: seq<string>, q2: seq<string>, ns': seq<Node>)
    requires Inv(ns, root, d) && Moved(ns, root, q1, q2, ns')
    ensures OnlyMoved(ns, root, q1, q2, ns')
  {
    hide Inv, Walk;
    forall x
      ensures Walk(ns', root, x) == if q2 <= x then Walk(ns, root, q1 + x[|q2|..]) else if q1 <= x then -1
                else Walk(ns, root, x)
    {
      MovedPaths(ns, root, d, q1, q2, ns', x);
    }
  }

  lemma BelowSome(path: string)
    requires Rel(path).Some?
    ensures Below(path).Some? ==> Below(path).value != []
    ensures Below(path).None? ==> Parts(Rel(path).value) == []
    ensures !Slash(Rel(path).value)
  {
  }

  /** A rename goes through if the old path is there, the new one is not, its directory is, and it does
      not lead through the old one. */
  ghost predicate MayMove(ns: seq<Node>, root: nat, q1: seq<string>, q2: seq<string>)
  {
    Walk(ns, root, q1) >= 0 && q1 != [] && Placed(ns, root, q2) && Walk(ns, root, q2) == -1 && !(q1 <= q2)
  }

  ghost predicate Moved(ns: seq<Node>, root: nat, q1: seq<string>, q2: seq<string>, ns': seq<Node>)
  {
    MayMove(ns, root, q1, q2) && 0 <= Walk(ns, root, q1) < |ns| &&
      ns' == Renamed(ns, Walk(ns, root, q1), Walk(ns, root, Up(q2)), Last(q2))
  }

  lemma MoveIs(ns: seq<Node>, root: nat, d: seq<nat>, q1: seq<string>, q2: seq<string>)
    requires Inv(ns, root, d) && MayMove(ns, root, q1, q2)
    ensures Renames(ns, root, d, Walk(ns, root, Up(q1)), Last(q1), Walk(ns, root, Up(q2)), Last(q2))
    ensures Walk(ns, root, q1) == Ask(ns, Walk(ns, root, Up(q1)), Last(q1))
    ensures q1 == Up(q1) + [Last(q1)] && q2 == Up(q2) + [Last(q2)]
  {
    WalkNode(ns, root, d, q1);
    SubIsPrefix(ns, root, d, q1, Up(q2));
  }

  lemma MovedKeeps(ns: seq<Node>, root: nat, d: seq<nat>, q1: seq<string>, q2: seq<string>, ns': seq<Node>)
    requires Inv(ns, root, d) && Moved(ns, root, q1, q2, ns')
    ensures Inv(ns', root, NewDepths(ns, root, d, Walk(ns, root, q1), Walk(ns, root, Up(q2))))
  {
    MoveIs(ns, root, d, q1, q2);
    RenameKeeps(ns, root, d, Walk(ns, root, q1), Walk(ns, root, Up(q2)), Last(q2));
  }

  /** What every path resolves to after a rename. */
  lemma MovedPaths(ns: seq<Node>, root: nat, d: seq<nat>, q1: seq<string>, q2: seq<string>, ns': seq<Node>,
      q: seq<string>)
    requires Inv(ns, root, d) && Moved(ns, root, q1, q2, ns')
    ensures Walk(ns', root, q) == if q2 <= q then Walk(ns, root, q1 + q[|q2|..]) else if q1 <= q then -1
            else Walk(ns, root, q)
  {
    MoveIs(ns, root, d, q1, q2);
    RenamePaths(ns, root, d, Up(q1), Last(q1), Up(q2), Last(q2), q);
  }

  /** A move that is refused although everything else is in place would have closed a cycle. */
  lemma RefusedIsCycle(ns: seq<Node>, root: nat, d: seq<nat>, q1: seq<string>, q2: seq<string>)
    requires Inv(ns, root, d) && Walk(ns, root, q1) >= 0 && q1 != [] && Placed(ns, root, q2) && Walk(ns, root, q2) == -1
    ensures 0 <= Walk(ns, root, q1) < |ns|
    ensures MayMove(ns, root, q1, q2) <==>
            IsTree(Renamed(ns, Walk(ns, root, q1), Walk(ns, root, Up(q2)), Last(q2)), root)
  {
    WalkNode(ns, root, d, q1);
    SubIsPrefix(ns, root, d, q1, Up(q2));
    assert q1 <= q2 && q1 != q2 <==> q1 <= Up(q2);
    RenameIff(ns, root, d, Walk(ns, root, q1), Walk(ns, root, Up(q2)), Last(q2));
  }

  // ----- every run -----

  /** mkdir or create, the removal of a node with nothing in it, or a rename. */
  ghost predicate Step(ns: seq<Node>, root: nat, ns': seq<Node>)
  {
    || (exists q: seq<string>, dir: bool, i: int :: Added(ns, root, q, dir, i, ns'))
    || (exists c: int :: Drops(ns, root, c, ns') && Childless(ns, c))
    || (exists q1: seq<string>, q2: seq<string> :: Moved(ns, root, q1, q2, ns'))
  }

  lemma StepKeeps(ns: seq<Node>, root: nat, ns': seq<Node>)
    requires IsTree(ns, root) && Step(ns, root, ns')
    ensures IsTree(ns', root)
  {
    var d :| Inv(ns, root, d);
    if q: seq<string>, dir: bool, i: int :| Added(ns, root, q, dir, i, ns') {
      AddKeeps(ns, root, d, Walk(ns, root, Up(q)), Last(q), dir, i, ns');
    } else if c: int :| Drops(ns, root, c, ns') && Childless(ns, c) {
      DropKeeps(ns, root, d, c, ns');
    } else {
      var q1: seq<string>, q2: seq<string> :| Moved(ns, root, q1, q2, ns');
      MovedKeeps(ns, root, d, q1, q2, ns');
    }
  }

  ghost predicate IsRun(run: seq<seq<Node>>, root: nat)
  {
    forall i {:trigger run[i]} :: 0 < i < |run| ==> Step(run[i - 1], root, run[i])
  }

  /** What ramfs_init leaves: /tmp alone. */
  function Fresh(): seq<Node>
  {
    [Node(true, true, "tmp", -1)] + seq(SLOTS - 1, _ => Node(false, false, "", 0))
  }

  lemma FreshOk()
    ensures Inv(Fresh(), 0, seq(SLOTS, _ => 0))
  {
    var d: seq<nat> := seq(SLOTS, _ => 0);
    forall i: int
      ensures Hangs(Fresh(), 0, d, i)
    {
    }
    forall i: int, j: int
      ensures OneName(Fresh(), i, j)
    {
    }
  }

  /** /tmp is a tree in every state of every run. */
  lemma {:induction false} RunKeeps(run: seq<seq<Node>>, k: nat)
    requires IsRun(run, 0) && k < |run| && run[0] == Fresh()
    ensures IsTree(run[k], 0)
    decreases k
  {
    if k == 0 { FreshOk(); } else {
      RunKeeps(run, k - 1);
      StepKeeps(run[k - 1], 0, run[k]);
    }
  }

  /** /tmp with a directory "a" in which there is a file "b". */
  function Nested(): seq<Node>
  {
    Fresh()[1 := Node(true, true, "a", 0)][2 := Node(true, false, "b", 1)]
  }

  /** Unlinking a directory that is not empty leaves a node whose directory is gone. */
  lemma UnlinkBreaks()
    ensures IsTree(Nested(), 0) && Walk(Nested(), 0, ["a"]) == 1
    ensures forall ns' :: Drops(Nested(), 0, 1, ns') ==> !IsTree(ns', 0)
  {
    var d: seq<nat> := seq(SLOTS, _ => 0);
    var ns1 := Fresh()[1 := Node(true, true, "a", 0)];
    FreshOk();
    forall c
      ensures !Kid(Fresh(), 0, "a", c) && !Kid(ns1, 1, "b", c)
    {
    }
    AddKeeps(Fresh(), 0, d, 0, "a", true, 1, ns1);
    var d1 := d[1 := d[0] + 1];
    AddKeeps(ns1, 0, d1, 1, "b", false, 2, Nested());
    var d2 := d1[2 := d1[1] + 1];
    AskIs(Nested(), 0, "a", 1);
    WalkSnoc(Nested(), 0, [], "a");
    assert [] + ["a"] == ["a"];
    forall ns' | Drops(Nested(), 0, 1, ns')
      ensures !IsTree(ns', 0)
    {
      DropIff(Nested(), 0, d2, 1, ns');
      assert Nested()[2].parent == 1;
    }
  }

  // ----- the node table -----

  /** The first slot from `i` on past slashes. */
  method SkipSlashes(s: string, i: nat) returns (j: nat)
    requires i <= |s|
    ensures i <= j <= |s| && s[j..] == Skip(s[i..]) && (j < |s| ==> s[j] != '/') && (i < |s| && s[i] == '/' ==> j > i)
  {
    j := i;
    while j < |s| && s[j] == '/'
      invariant i <= j <= |s| && Skip(s[j..]) == Skip(s[i..])
    {
      assert s[j..][1..] == s[j + 1..];
      j := j + 1;
    }
  }

  /** Where the name that starts at `i` ends. */
  method NameEnd(s: string, i: nat) returns (j: nat)
    requires i <= |s|
    ensures i <= j <= |s| && j - i == Head(s[i..], LONGEST)
  {
    j := i;
    while j < |s| && s[j] != '/' && j - i < LONGEST
      invariant i <= j <= |s| && j - i <= LONGEST && Head(s[i..], LONGEST) == j - i + Head(s[j..], LONGEST - (j - i))
    {
      assert s[j..][1..] == s[j + 1..];
      j := j + 1;
    }
  }

  /** strip_tmp_prefix. */
  method Strip(path: string) returns (r: Option<string>)
    ensures r == Rel(path)
  {
    var i := SkipSlashes(path, 0);
    assert path[0..] == path;
    ghost var s := Skip(path);
    assert s == path[i..];
    if i + 3 <= |path| && path[i] == 't' && path[i + 1] == 'm' && path[i + 2] == 'p' &&
      (i + 3 == |path| || path[i + 3] == '/') {
      assert s[..3] == "tmp" && s[3..] == path[i + 3..];
      var j := SkipSlashes(path, i + 3);
      return Some(path[j..]);
    }
    assert |s| >= 3 && s[..3] == "tmp" ==>
      s[..3][0] == s[0] == 't' && s[..3][1] == s[1] == 'm' && s[..3][2] == s[2] == 'p';
    return None;
  }

  class Fs {
    const nodes: array<Node>
    var root: nat
    ghost var depth: seq<nat>

    ghost predicate Valid()
      reads this, nodes
    {
      Inv(nodes[..], root, depth)
    }

    /** ramfs_init. */
    constructor ()
      ensures Valid() && nodes[..] == Fresh() && root == 0 && fresh(nodes)
    {
      nodes := new Node[SLOTS](_ => Node(false, false, "", 0));
      root := 0;
      depth := seq(SLOTS, _ => 0);
      new;
      nodes[0] := Node(true, true, "tmp", -1);
      FreshOk();
      assert nodes[..] == Fresh();
    }

    /** node_alloc: the first slot not in use, or -1. */
    method FindFree() returns (i: int)
      ensures i == -1 || (0 <= i < nodes.Length && !nodes[i].used)
      ensures i == -1 <==> !Room(nodes[..])
    {
      i := 0;
      while i < nodes.Length
        invariant 0 <= i <= nodes.Length && forall j :: 0 <= j < i ==> nodes[j].used
      {
        if !nodes[i].used {
          assert nodes[..][i] == nodes[i];
          return i;
        }
        i := i + 1;
      }
      return -1;
    }

    /** find_child. */
    method FindChild(parent: nat, name: string) returns (c: int)
      requires Valid()
      ensures c == Ask(nodes[..], parent, name) && -1 <= c < nodes.Length && (c >= 0 ==> nodes[c].used)
    {
      var i := 0;
      while i < nodes.Length
        invariant 0 <= i <= nodes.Length && forall j :: 0 <= j < i ==> !Kid(nodes[..], parent, name, j)
      {
        if nodes[i].used && nodes[i].parent == parent && nodes[i].name == name {
          AskIs(nodes[..], parent, name, i);
          return i;
        }
        i := i + 1;
      }
      AskNot(nodes[..], parent, name);
      return -1;
    }

    /** resolve with need_parent set: the directory of the last name, and that name. */
    method ResolveParent(rel: string) returns (parent: int, leaf: string)
      requires Valid() && !Slash(rel)
      ensures parent >= 0 <==> Placed(nodes[..], root, Parts(rel))
      ensures parent >= 0 ==> parent == Walk(nodes[..], root, Up(Parts(rel))) && leaf == Last(Parts(rel))
    {
      if rel == "" { return -1, ""; }
      ghost var ns, q := nodes[..], Parts(rel);
      ghost var done: seq<string> := [];
      parent := root;
      var i := 0;
      assert rel[0..] == rel;
      while true
        invariant 0 <= i < |rel| && q == done + Parts(rel[i..])
        invariant DirAt(ns, parent) && parent == Walk(ns, root, done)
        decreases |rel| - i
      {
        hide Inv, Walk, Skip, Head, Parts, Ask, Room;
        var j := NameEnd(rel, i);
        leaf := rel[i..j];
        var k := SkipSlashes(rel, j);
        Cut(rel, i, j, k);
        WalkSnoc(ns, root, done, leaf);
        if k == |rel| {
          assert q == done + [leaf] && Up(q) == done;
          return;
        }
        var c := FindChild(parent, leaf);
        ghost var next := done + [leaf];
        Onward(done, leaf, Parts(rel[i..]), Parts(rel[k..]));
        if c < 0 || !nodes[c].isDir {
          PastFile(ns, root, depth, next, Up(q));
          return -1, "";
        }
        parent, i, done := c, k, next;
      }
    }

    /** resolve without need_parent. */
    method Resolve(rel: string) returns (c: int)
      requires Valid() && !Slash(rel)
      ensures c == Walk(nodes[..], root, Parts(rel))
    {
      if rel == "" { return root; }
      var parent, leaf := ResolveParent(rel);
      if parent < 0 {
        PastFile(nodes[..], root, depth, Up(Parts(rel)), Parts(rel));
        WalkNode(nodes[..], root, depth, Up(Parts(rel)));
        return -1;
      }
      c := FindChild(parent, leaf);
    }

    /** A new node `leaf` in directory `parent`, if there is room. */
    method AddNode(parent: nat, leaf: string, dir: bool) returns (i: int)
      requires Valid() && DirAt(nodes[..], parent) && Ask(nodes[..], parent, leaf) == -1
      modifies this`depth, nodes
      ensures Valid() && (i >= 0 <==> Room(old(nodes[..])))
      ensures i >= 0 ==> Adds(old(nodes[..]), parent, leaf, dir, i, nodes[..])
      ensures i < 0 ==> nodes[..] == old(nodes[..])
    {
      i := FindFree();
      if i < 0 { return; }
      ghost var ns := nodes[..];
      nodes[i] := Node(true, dir, leaf, parent);
      assert nodes[..] == ns[i := Node(true, dir, leaf, parent)];
      AddKeeps(ns, root, depth, parent, leaf, dir, i, nodes[..]);
      depth := depth[i := depth[parent] + 1];
    }

    /** ramfs_mkdir. */
    method Mkdir(path: string) returns (ok: bool)
      requires Valid()
      modifies this`depth, nodes
      ensures Valid()
      ensures Below(path).None? ==> (ok <==> Rel(path).Some?) && nodes[..] == old(nodes[..])
      ensures Below(path).Some? ==> (ok <==> MayAdd(old(nodes[..]), root, Below(path).value))
      ensures Below(path).Some? && ok ==> exists i :: Added(old(nodes[..]), root, Below(path).value, true, i, nodes[..])
      ensures Below(path).Some? && ok ==> OnlyNew(old(nodes[..]), root, Below(path).value, true, nodes[..])
      ensures !ok ==> nodes[..] == old(nodes[..])
    {
      hide Inv, Rel, Parts;
      var rel := Strip(path);
      if rel == None { return false; }
      BelowSome(path);
      if rel.value == "" { return true; }
      var parent, leaf := ResolveParent(rel.value);
      if parent < 0 { return false; }
      if leaf == "" {
        PartsFit(rel.value);
        return false;
      }
      var c := FindChild(parent, leaf);
      if c >= 0 { return false; }
      var i := AddNode(parent, leaf, true);
      ok := i >= 0;
      if ok { AddedPaths(old(nodes[..]), root, old(depth), Below(path).value, true, i, nodes[..]); }
    }

    /** ramfs_create_file: the node, or -1. */
    method CreateFile(path: string) returns (i: int)
      requires Valid()
      modifies this`depth, nodes
      ensures Valid()
      ensures i >= 0 <==> Below(path).Some? && MayAdd(old(nodes[..]), root, Below(path).value)
      ensures i >= 0 ==> Added(old(nodes[..]), root, Below(path).value, false, i, nodes[..])
      ensures i >= 0 ==>
              OnlyNew(old(nodes[..]), root, Below(path).value, false, nodes[..]) &&
              i == Walk(nodes[..], root, Below(path).value)
      ensures i < 0 ==> nodes[..] == old(nodes[..])
    {
      hide Inv, Rel, Parts;
      var rel := Strip(path);
      if rel == None { return -1; }
      BelowSome(path);
      if rel.value == "" { return -1; }
      var parent, leaf := ResolveParent(rel.value);
      if parent < 0 { return -1; }
      var c := FindChild(parent, leaf);
      if c >= 0 { return -1; }
      i := AddNode(parent, leaf, false);
      if i >= 0 { AddedPaths(old(nodes[..]), root, old(depth), Below(path).value, false, i, nodes[..]); }
    }

    /** What rmdir and unlink look up: the node of a path below /tmp other than ".". */
    method Target(path: string) returns (c: int)
      requires Valid()
      ensures c >= 0 <==> Below(path).Some? && Rel(path).value != "." && Walk(nodes[..], root, Below(path).value) >= 0
      ensures c >= 0 ==>
              c == Walk(nodes[..], root, Below(path).value) && 0 <= c < nodes.Length && nodes[c].used && c != root
    {
      hide Inv, Rel, Parts;
      var rel := Strip(path);
      if rel == None { return -1; }
      BelowSome(path);
      if rel.value == "" || rel.value == "." { return -1; }
      c := Resolve(rel.value);
      WalkNode(nodes[..], root, depth, Parts(rel.value));
    }

    /** node_child_count, as far as it is used: whether there is a child. */
    method HasChild(c: nat) returns (b: bool)
      ensures b <==> !Childless(nodes[..], c)
    {
      var i := 0;
      while i < nodes.Length
        invariant 0 <= i <= nodes.Length && forall j :: 0 <= j < i && nodes[j].used ==> nodes[j].parent != c
      {
        if nodes[i].used && nodes[i].parent == c {
          assert nodes[..][i] == nodes[i];
          return true;
        }
        i := i + 1;
      }
      return false;
    }

    /** ramfs_rmdir_op. */
    method Rmdir(path: string) returns (ok: bool)
      requires Valid()
      modifies nodes
      ensures Valid()
      ensures ok <==> Below(path).Some? && Rel(path).value != "."
                      && DirAt(old(nodes[..]), Walk(old(nodes[..]), root, Below(path).value))
                      && Childless(old(nodes[..]), Walk(old(nodes[..]), root, Below(path).value))
      ensures ok ==> Drops(old(nodes[..]), root, Walk(old(nodes[..]), root, Below(path).value), nodes[..])
      ensures ok ==> OnlyGone(old(nodes[..]), root, Walk(old(nodes[..]), root, Below(path).value), nodes[..])
      ensures !ok ==> nodes[..] == old(nodes[..])
    {
      hide Inv, Rel, Parts, OnlyGone;
      var c := Target(path);
      if c < 0 || !nodes[c].isDir { return false; }
      var some := HasChild(c);
      if some { return false; }
      ghost var ns := nodes[..];
      nodes[c] := Node(false, false, "", 0);
      assert nodes[..] == ns[c := Node(false, false, "", 0)];
      DropKeeps(ns, root, depth, c, nodes[..]);
      DroppedPaths(ns, root, depth, c, nodes[..]);
      return true;
    }

    /** ramfs_unlink_op: it does not look whether anything is in the node. */
    method Unlink(path: string) returns (ok: bool)
      requires Valid()
      modifies nodes
      ensures ok <==> Below(path).Some? && Rel(path).value != "." && Walk(old(nodes[..]), root, Below(path).value) >= 0
      ensures ok ==> Drops(old(nodes[..]), root, Walk(old(nodes[..]), root, Below(path).value), nodes[..])
      ensures !ok ==> nodes[..] == old(nodes[..])
      ensures ok ==> (Valid() <==> Childless(old(nodes[..]), Walk(old(nodes[..]), root, Below(path).value)))
      ensures ok && Valid() ==>
              OnlyGone(old(nodes[..]), root, Walk(old(nodes[..]), root, Below(path).value), nodes[..])
    {
      hide Inv, Rel, Parts, OnlyGone;
      var c := Target(path);
      if c < 0 { return false; }
      ghost var ns := nodes[..];
      nodes[c] := Node(false, false, "", 0);
      assert nodes[..] == ns[c := Node(false, false, "", 0)];
      DropIff(ns, root, depth, c, nodes[..]);
      if Childless(ns, c) {
        DropKeeps(ns, root, depth, c, nodes[..]);
        DroppedPaths(ns, root, depth, c, nodes[..]);
      }
      return true;
    }

    /** The walk up from `k` that rename makes for a directory. */
    method Meets(k: nat, c: nat) returns (b: bool)
      requires Valid() && DirAt(nodes[..], k)
      ensures b <==> InSub(nodes[..], root, depth, k, c)
    {
      var p: int := k;
      while p >= 0
        invariant p >= 0 && DirAt(nodes[..], p) &&
                  (InSub(nodes[..], root, depth, k, c) <==> InSub(nodes[..], root, depth, p, c))
        decreases depth[p]
      {
        if p == c { return true; }
        if p == root { return false; }
        assert Hangs(nodes[..], root, depth, p);
        p := nodes[p].parent;
      }
      return false;
    }

    /** ramfs_rename_op. */
    method Rename(oldPath: string, newPath: string) returns (ok: bool)
      requires Valid()
      modifies this`depth, nodes
      ensures Valid()
      ensures ok <==>
              Below(oldPath).Some? && Below(newPath).Some? &&
              MayMove(old(nodes[..]), root, Below(oldPath).value, Below(newPath).value)
      ensures ok ==> Moved(old(nodes[..]), root, Below(oldPath).value, Below(newPath).value, nodes[..])
      ensures ok ==> OnlyMoved(old(nodes[..]), root, Below(oldPath).value, Below(newPath).value, nodes[..])
      ensures !ok ==> nodes[..] == old(nodes[..])
    {
      hide Inv, Rel, Parts, InSub, Walk, IsTree, Childless, OnlyMoved;
      var r1 := Strip(oldPath);
      if r1 == None { return false; }
      var r2 := Strip(newPath);
      if r2 == None { return false; }
      BelowSome(oldPath);
      BelowSome(newPath);
      if r1.value == "" || r2.value == "" { return false; }
      ghost var ns, q1, q2 := nodes[..], Parts(r1.value), Parts(r2.value);
      var p1, n1 := ResolveParent(r1.value);
      if p1 < 0 {
        Unplaced(ns, root, depth, q1);
        return false;
      }
      var p2, n2 := ResolveParent(r2.value);
      if p2 < 0 { return false; }
      if n1 == "" || n2 == "" {
        PartsFit(r1.value);
        PartsFit(r2.value);
        return false;
      }
      LastStep(ns, root, q1);
      LastStep(ns, root, q2);
      var c := FindChild(p1, n1);
      if c < 0 { return false; }
      var there := FindChild(p2, n2);
      if there >= 0 { return false; }
      Under(ns, root, depth, q1, q2);
      if nodes[c].isDir {
        var meets := Meets(p2, c);
        if meets { return false; }
      }
      nodes[c] := nodes[c].(parent := p2, name := n2);
      assert nodes[..] == Renamed(ns, c, p2, n2);
      MovedKeeps(ns, root, depth, q1, q2, nodes[..]);
      MovedOnly(ns, root, depth, q1, q2, nodes[..]);
      depth := NewDepths(ns, root, depth, c, p2);
      return true;
    }
  }

  /** The names read so far begin the path. */
  lemma Onward(done: seq<string>, n: string, all: seq<string>, rest: seq<string>)
    requires all == [n] + rest && rest != []
    ensures done + all == (done + [n]) + rest && done + [n] <= Up(done + all)
  {
  }

  lemma LastStep(ns: seq<Node>, root: nat, q: seq<string>)
    requires q != []
    ensures Walk(ns, root, q) == Ask(ns, Walk(ns, root, Up(q)), Last(q))
  {
  }

  /** A path whose directory is not there leads nowhere. */
  lemma Unplaced(ns: seq<Node>, root: nat, d: seq<nat>, q: seq<string>)
    requires Inv(ns, root, d) && q != [] && !Placed(ns, root, q)
    ensures Walk(ns, root, q) == -1
  {
    WalkNode(ns, root, d, Up(q));
    PastFile(ns, root, d, Up(q), q);
  }

  /** The walk up decides whether the new path leads through the old one; from a file it cannot. */
  lemma Under(ns: seq<Node>, root: nat, d: seq<nat>, q1: seq<string>, q2: seq<string>)
    requires Inv(ns, root, d) && q1 != [] && Walk(ns, root, q1) >= 0 && Placed(ns, root, q2) && Walk(ns, root, q2) == -1
    ensures 0 <= Walk(ns, root, q1) < |ns|
    ensures InSub(ns, root, d, Walk(ns, root, Up(q2)), Walk(ns, root, q1)) <==> q1 <= q2
    ensures q1 <= q2 ==> ns[Walk(ns, root, q1)].isDir
  {
    WalkNode(ns, root, d, q1);
    SubIsPrefix(ns, root, d, q1, Up(q2));
    assert q1 <= q2 && q1 != q2 <==> q1 <= Up(q2);
    if q1 <= q2 && !ns[Walk(ns, root, q1)].isDir {
      FileAlone(ns, root, d, Walk(ns, root, Up(q2)), Walk(ns, root, q1));
    }
  }

  /** One name cut from a path. */
  lemma Cut(rel: string, i: nat, j: nat, k: nat)
    requires i < |rel| && i <= j <= |rel| && j - i == Head(rel[i..], LONGEST) && j <= k <= |rel| &&
             rel[k..] == Skip(rel[j..])
    ensures Parts(rel[i..]) == [rel[i..j]] + Parts(rel[k..]) && (k == |rel| ==> Parts(rel[k..]) == []) &&
            (k < |rel| ==> Parts(rel[k..]) != [])
    ensures k > i
  {
    var s := rel[i..];
    assert s[..j - i] == rel[i..j] && s[j - i..] == rel[j..];
  }
}
