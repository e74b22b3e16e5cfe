/** File lifetime: descriptor tables, reference counts and pipe ends over open, pipe, dup2, fork,
    close and exit (kernel/fs/vfs.c, kernel/fs/pipe.c, kernel/proc/syscall.c, kernel/proc/task.c). */
module Files {

  const FD_MAX := 16
  const NULL := -1

  datatype Kind = Console | Plain | ReadEnd(p: nat) | WriteEnd(p: nat)

  /** A vfs_file; `open` ends when it is closed and freed. */
  datatype File = File(kind: Kind, refs: int, open: bool)

  /** The two wrappers of a pipe, as file numbers or NULL. */
  datatype Ends = Ends(r: int, w: int)

  /** All files, all pipes, and the descriptor table of every task. */
  datatype Sys = Sys(files: seq<File>, pipes: seq<Ends>, tabs: seq<seq<int>>)
  {
    function SetFile(f: nat, x: File): Sys
      requires f < |files|
    {
      Sys(files[f := x], pipes, tabs)
    }

    function SetSlot(t: nat, fd: nat, f: int): Sys
      requires t < |tabs| && fd < |tabs[t]|
    {
      Sys(files, pipes, tabs[t := tabs[t][fd := f]])
    }
  }

  // ----- counting the slots that name a file -----

  function Slots(tabs: seq<seq<int>>, f: int): nat
  {
    if tabs == [] then 0 else Slots(tabs[..|tabs| - 1], f) + multiset(tabs[|tabs| - 1])[f]
  }

  lemma {:induction false} SlotsRow(tabs: seq<seq<int>>, t: nat, row: seq<int>, f: int)
    requires t < |tabs|
    ensures Slots(tabs[t := row], f) + multiset(tabs[t])[f] == Slots(tabs, f) + multiset(row)[f]
  {
    var n := |tabs| - 1;
    if t < n {
      SlotsRow(tabs[..n], t, row, f);
      assert tabs[t := row][..n] == tabs[..n][t := row];
    } else {
      assert tabs[t := row][..n] == tabs[..n];
    }
  }

  lemma {:induction false} SlotCounts(tabs: seq<seq<int>>, t: nat, fd: nat)
    requires t < |tabs| && fd < |tabs[t]|
    ensures Slots(tabs, tabs[t][fd]) > 0
  {
    var n := |tabs| - 1;
    if t < n {
      SlotCounts(tabs[..n], t, fd);
    } else {
      assert tabs[t][fd] in multiset(tabs[t]);
    }
  }

  lemma RowSet(row: seq<int>, i: nat, x: int, f: int)
    requires i < |row|
    ensures multiset(row[i := x])[f] + (if row[i] == f then 1 else 0) == multiset(row)[f] + (if x == f then 1 else 0)
  {
    assert row == row[..i] + [row[i]] + row[i + 1..];
    assert row[i := x] == row[..i] + [x] + row[i + 1..];
  }

  lemma SlotSet(tabs: seq<seq<int>>, t: nat, i: nat, x: int, f: int)
    requires t < |tabs| && i < |tabs[t]|
    ensures Slots(tabs[t := tabs[t][i := x]], f) + (if tabs[t][i] == f then 1 else 0) == Slots(tabs, f) + (if x == f
            then 1 else 0)
  {
    SlotsRow(tabs, t, tabs[t][i := x], f);
    RowSet(tabs[t], i, x, f);
  }

  // ----- what holds between system calls -----

  /** A file that is no console has at least as many references as slots naming it, and is open while
      there is one; an open pipe end is the one its pipe knows. */
  ghost predicate FileOk(s: Sys, f: nat)
  {
    f < |s.files| ==>
      && (s.files[f].kind != Console ==>
           s.files[f].refs >= Slots(s.tabs, f) && (Slots(s.tabs, f) > 0 ==> s.files[f].open))
      && EndOk(s, f)
  }

  predicate EndOk(s: Sys, f: nat)
    requires f < |s.files|
  {
    match s.files[f].kind
    case WriteEnd(p) => p < |s.pipes| && (s.files[f].open ==> s.pipes[p].w == f)
    case ReadEnd(p) => p < |s.pipes| && (s.files[f].open ==> s.pipes[p].r == f)
    case _ => true
  }

  predicate SlotOk(s: Sys, t: nat, i: nat)
  {
    t < |s.tabs| && i < |s.tabs[t]| ==> NULL <= s.tabs[t][i] < |s.files|
  }

  ghost predicate Inv(s: Sys)
  {
    && (forall t :: 0 <= t < |s.tabs| ==> |s.tabs[t]| == FD_MAX)
    && (forall f: nat {:trigger FileOk(s, f)} :: FileOk(s, f))
    && (forall t: nat, i: nat {:trigger SlotOk(s, t, i)} :: SlotOk(s, t, i))
  }

  // ----- letting go of a reference -----

  /** vfs_close: a console is static; a pipe end is forgotten by its pipe. */
  function Closed(s: Sys, f: nat): Sys
    requires f < |s.files|
  {
    var x := s.files[f];
    if x.kind == Console then s else
    var pipes := match x.kind
      case WriteEnd(p) => if p < |s.pipes| && s.pipes[p].w == f then s.pipes[p := s.pipes[p].(w := NULL)] else s.pipes
      case ReadEnd(p) => if p < |s.pipes| && s.pipes[p].r == f then s.pipes[p := s.pipes[p].(r := NULL)] else s.pipes
      case _ => s.pipes;
    Sys(s.files[f := x.(open := false)], pipes, s.tabs)
  }

  /** One reference less; at none the file is closed. */
  function Unref(s: Sys, f: nat): Sys
    requires f < |s.files|
  {
    var d := s.SetFile(f, s.files[f].(refs := s.files[f].refs - 1));
    if d.files[f].refs <= 0 then Closed(d, f) else d
  }

  predicate Named(s: Sys, t: nat, i: nat)
  {
    t < |s.tabs| && i < |s.tabs[t]| && 0 <= s.tabs[t][i] < |s.files|
  }

  /** A slot is cleared and the reference it held let go of: no other slot names a closed file. */
  lemma DropKeeps(s: Sys, t: nat, i: nat)
    requires Inv(s) && Named(s, t, i) && s.files[s.tabs[t][i]].kind != Console
    ensures Inv(Unref(s.SetSlot(t, i, NULL), s.tabs[t][i]))
  {
    var f: nat := s.tabs[t][i];
    var d := s.SetSlot(t, i, NULL);
    var e := Unref(d, f);
    SlotCounts(s.tabs, t, i);
    forall g: nat
      ensures FileOk(e, g)
    {
      assert FileOk(s, g) && FileOk(s, f);
      SlotSet(s.tabs, t, i, NULL, g);
    }
    forall u: nat, j: nat
      ensures SlotOk(e, u, j)
    {
      assert SlotOk(s, u, j);
    }
  }

  lemma ConsoleKeeps(s: Sys, f: nat)
    requires Inv(s) && f < |s.files| && s.files[f].kind == Console
    ensures Inv(Unref(s, f))
  {
    var e := Unref(s, f);
    forall g: nat
      ensures FileOk(e, g)
    {
      assert FileOk(s, g);
    }
    forall u: nat, j: nat
      ensures SlotOk(e, u, j)
    {
      assert SlotOk(s, u, j);
    }
  }

  /** A slot may name `f` if `f` has a reference to spare. */
  lemma AssignKeeps(s: Sys, t: nat, i: nat, f: nat)
    requires Inv(s) && t < |s.tabs| && i < FD_MAX && f < |s.files|
    requires s.files[f].kind != Console ==> s.files[f].open && s.files[f].refs >= Slots(s.tabs, f) + 1
    ensures Inv(s.SetSlot(t, i, f))
  {
    var e := s.SetSlot(t, i, f);
    forall g: nat
      ensures FileOk(e, g)
    {
      assert FileOk(s, g);
      SlotSet(s.tabs, t, i, f, g);
    }
    forall u: nat, j: nat
      ensures SlotOk(e, u, j)
    {
      assert SlotOk(s, u, j);
    }
  }

  function Hold(s: Sys, f: nat): Sys
    requires f < |s.files|
  {
    s.SetFile(f, s.files[f].(refs := s.files[f].refs + 1))
  }

  lemma HoldKeeps(s: Sys, f: nat)
    requires Inv(s) && f < |s.files|
    ensures Inv(Hold(s, f))
  {
    var e := Hold(s, f);
    forall g: nat
      ensures FileOk(e, g)
    {
      assert FileOk(s, g);
    }
    forall u: nat, j: nat
      ensures SlotOk(e, u, j)
    {
      assert SlotOk(s, u, j);
    }
  }

  // ----- close and exit -----

  /** fd_close of a descriptor in range, and one round of task_exit_current: consoles stay. */
  function DropSlot(s: Sys, t: nat, i: nat): Sys
  {
    if !Named(s, t, i) || s.files[s.tabs[t][i]].kind == Console then s
    else Unref(s.SetSlot(t, i, NULL), s.tabs[t][i])
  }

  lemma DropSlotKeeps(s: Sys, t: nat, i: nat)
    requires Inv(s)
    ensures Inv(DropSlot(s, t, i)) && |DropSlot(s, t, i).tabs| == |s.tabs| && |DropSlot(s, t, i).files| == |s.files|
  {
    if Named(s, t, i) && s.files[s.tabs[t][i]].kind != Console { DropKeeps(s, t, i); }
  }

  /** task_exit_current lets go of the slots from `i` on. */
  function Exited(s: Sys, t: nat, i: nat): Sys
    decreases FD_MAX - i
  {
    if i >= FD_MAX then s else Exited(DropSlot(s, t, i), t, i + 1)
  }

  lemma {:induction false} ExitKeeps(s: Sys, t: nat, i: nat)
    requires Inv(s)
    ensures Inv(Exited(s, t, i))
    decreases FD_MAX - i
  {
    if i < FD_MAX {
      DropSlotKeeps(s, t, i);
      ExitKeeps(DropSlot(s, t, i), t, i + 1);
    }
  }

  /** After the slots below `i`: each of them is empty or names a console, */
  ghost predicate SlotLeft(s: Sys, e: Sys, t: nat, i: nat, j: nat)
  {
    t < |s.tabs| && j < |s.tabs[t]| ==>
      && t < |e.tabs| && j < |e.tabs[t]|
      && e.tabs[t][j] == if j < i && Named(s, t, j) && s.files[s.tabs[t][j]].kind != Console then NULL else s.tabs[t][j]
  }

  /** a file has lost one reference for each of them that named it, and is closed if that left none, */
  ghost predicate FileLeft(s: Sys, e: Sys, m: multiset<int>, f: nat)
  {
    f < |s.files| ==>
      && f < |e.files|
      && e.files[f] == if s.files[f].kind == Console then s.files[f]
           else s.files[f].(refs := s.files[f].refs - m[f], open := s.files[f].open && !Spent(s, m, f))
  }

  predicate Spent(s: Sys, m: multiset<int>, f: int)
  {
    0 <= f < |s.files| && m[f] > 0 && s.files[f].refs <= m[f]
  }

  /** and a pipe has forgotten an end that is closed. */
  ghost predicate EndsLeft(s: Sys, e: Sys, m: multiset<int>, p: nat)
  {
    p < |s.pipes| ==>
      && p < |e.pipes|
      && e.pipes[p].r == (if Spent(s, m, s.pipes[p].r) && s.files[s.pipes[p].r].kind == ReadEnd(p) then NULL
                          else s.pipes[p].r)
      && e.pipes[p].w == (if Spent(s, m, s.pipes[p].w) && s.files[s.pipes[p].w].kind == WriteEnd(p) then NULL
                          else s.pipes[p].w)
  }

  ghost predicate Left(s: Sys, e: Sys, t: nat, i: nat)
    requires t < |s.tabs| && i <= |s.tabs[t]|
  {
    && |e.tabs| == |s.tabs| && |e.files| == |s.files| && |e.pipes| == |s.pipes| && |e.tabs[t]| == |s.tabs[t]|
    && (forall u :: 0 <= u < |s.tabs| && u != t ==> e.tabs[u] == s.tabs[u])
    && (forall j: nat {:trigger SlotLeft(s, e, t, i, j)} :: SlotLeft(s, e, t, i, j))
    && (forall f: nat {:trigger FileLeft(s, e, multiset(s.tabs[t][..i]), f)} ::
          FileLeft(s, e, multiset(s.tabs[t][..i]), f))
    && (forall p: nat {:trigger EndsLeft(s, e, multiset(s.tabs[t][..i]), p)} ::
          EndsLeft(s, e, multiset(s.tabs[t][..i]), p))
  }

  lemma LeftStart(s: Sys, t: nat)
    requires t < |s.tabs|
    ensures Left(s, s, t, 0)
  {
  }

  lemma LeftMore(s: Sys, e: Sys, t: nat, i: nat)
    requires Inv(s) && t < |s.tabs| && i < FD_MAX && Left(s, e, t, i)
    ensures Left(s, DropSlot(e, t, i), t, i + 1)
  {
    var e', m, n := DropSlot(e, t, i), multiset(s.tabs[t][..i]), i + 1;
    var m' := multiset(s.tabs[t][..n]);
    assert s.tabs[t][..n] == s.tabs[t][..i] + [s.tabs[t][i]];
    assert SlotLeft(s, e, t, i, i) && SlotOk(s, t, i);
    forall j: nat
      ensures SlotLeft(s, e', t, n, j)
    {
      assert SlotLeft(s, e, t, i, j);
      if Named(s, t, i) { assert FileLeft(s, e, m, s.tabs[t][i]); }
    }
    forall f: nat
      ensures FileLeft(s, e', m', f)
    {
      assert FileLeft(s, e, m, f);
    }
    forall p: nat
      ensures EndsLeft(s, e', m', p)
    {
      assert EndsLeft(s, e, m, p);
      if Named(s, t, i) { assert FileLeft(s, e, m, s.tabs[t][i]); }
    }
  }

  /** All of task_exit_current: the state it leaves, slot by slot, file by file and pipe by pipe. */
  lemma {:induction false} ExitLeaves(s: Sys, e: Sys, t: nat, i: nat)
    requires Inv(s) && t < |s.tabs| && i <= FD_MAX && Left(s, e, t, i)
    ensures Left(s, Exited(e, t, i), t, FD_MAX)
    decreases FD_MAX - i
  {
    if i < FD_MAX {
      LeftMore(s, e, t, i);
      hide Left, Inv;
      ExitLeaves(s, DropSlot(e, t, i), t, i + 1);
    }
  }

  // ----- dup2 -----

  /** sys_dup2: the file a descriptor above 2 named is let go of; one at 0 to 2 is not. */
  function Dup2(s: Sys, t: nat, o: nat, n: nat): Sys
  {
    if !Named(s, t, o) || n >= FD_MAX || |s.tabs[t]| != FD_MAX || o == n then s else
    var f := s.tabs[t][o];
    var d := if Named(s, t, n) && n > 2 then Unref(s, s.tabs[t][n]) else s;
    Hold(d, f).SetSlot(t, n, f)
  }

  lemma Dup2Keeps(s: Sys, t: nat, o: nat, n: nat)
    requires Inv(s)
    ensures Inv(Dup2(s, t, o, n))
  {
    if Named(s, t, o) && n < FD_MAX && |s.tabs[t]| == FD_MAX && o != n {
      var f: nat := s.tabs[t][o];
      if Named(s, t, n) && n > 2 && s.files[s.tabs[t][n]].kind != Console {
        DropKeeps(s, t, n);
        var d := Unref(s.SetSlot(t, n, NULL), s.tabs[t][n]);
        assert Named(d, t, o);
        Dup2Assign(d, t, o, n);
        assert s.tabs[t][n := NULL][n := f] == s.tabs[t][n := f];
        assert d.tabs[t := d.tabs[t][n := f]] == s.tabs[t := s.tabs[t][n := f]];
        assert Hold(d, f).SetSlot(t, n, f) == Dup2(s, t, o, n);
      } else {
        var d := s;
        if Named(s, t, n) && n > 2 { ConsoleKeeps(s, s.tabs[t][n]); d := Unref(s, s.tabs[t][n]); }
        Dup2Assign(d, t, o, n);
      }
    }
  }

  lemma Dup2Assign(d: Sys, t: nat, o: nat, n: nat)
    requires Inv(d) && Named(d, t, o) && n < FD_MAX
    ensures Inv(Hold(d, d.tabs[t][o]).SetSlot(t, n, d.tabs[t][o]))
  {
    var f: nat := d.tabs[t][o];
    SlotCounts(d.tabs, t, o);
    assert FileOk(d, f);
    HoldKeeps(d, f);
    AssignKeeps(Hold(d, f), t, n, f);
  }

  // ----- fork -----

  /** The child's table is the parent's, and each slot in it holds a reference. */
  function Forked(s: Sys, p: nat, c: nat): Sys
    requires p < |s.tabs| && c < |s.tabs|
  {
    Sys(HeldBy(s.files, s.tabs[p]), s.pipes, s.tabs[c := s.tabs[p]])
  }

  function HeldBy(files: seq<File>, row: seq<int>): (r: seq<File>)
    ensures |r| == |files|
  {
    seq(|files|, f requires 0 <= f < |files| => files[f].(refs := files[f].refs + multiset(row)[f]))
  }

  lemma {:induction false} InRow(tabs: seq<seq<int>>, t: nat, f: int)
    requires t < |tabs|
    ensures Slots(tabs, f) >= multiset(tabs[t])[f]
  {
    var n := |tabs| - 1;
    if t < n { InRow(tabs[..n], t, f); }
  }

  lemma ForkKeeps(s: Sys, p: nat, c: nat)
    requires Inv(s) && p < |s.tabs| && c < |s.tabs|
    ensures Inv(Forked(s, p, c))
  {
    var e := Forked(s, p, c);
    forall g: nat
      ensures FileOk(e, g)
    {
      assert FileOk(s, g);
      SlotsRow(s.tabs, c, s.tabs[p], g);
      InRow(s.tabs, p, g);
    }
    forall u: nat, j: nat
      ensures SlotOk(e, u, j)
    {
      assert SlotOk(s, u, j) && SlotOk(s, p, j);
    }
  }

  // ----- open and pipe -----

  /** The lowest free descriptor from `i` on, or NULL. */
  function FreeFrom(row: seq<int>, i: nat): (r: int)
    ensures r == NULL || (i <= r < |row| && row[r] == NULL)
    decreases |row| - i
  {
    if i >= |row| then NULL else if row[i] == NULL then i else FreeFrom(row, i + 1)
  }

  /** fd_install: the file gets its first reference. */
  function Installed(s: Sys, t: nat, f: nat): Sys
    requires t < |s.tabs| && f < |s.files|
  {
    var i := FreeFrom(s.tabs[t], 0);
    if i == NULL then s else s.SetFile(f, s.files[f].(refs := 1)).SetSlot(t, i, f)
  }

  lemma {:induction false} NoSlots(tabs: seq<seq<int>>, f: int)
    requires forall t, i :: 0 <= t < |tabs| && 0 <= i < |tabs[t]| ==> tabs[t][i] != f
    ensures Slots(tabs, f) == 0
  {
    if tabs != [] { NoSlots(tabs[..|tabs| - 1], f); }
  }

  lemma NewHasNone(s: Sys, f: nat)
    requires Inv(s) && f >= |s.files|
    ensures Slots(s.tabs, f) == 0
  {
    forall t: nat, i: nat | t < |s.tabs| && i < |s.tabs[t]|
      ensures s.tabs[t][i] != f
    {
      assert SlotOk(s, t, i);
    }
    NoSlots(s.tabs, f);
  }

  lemma InstallKeeps(s: Sys, t: nat, f: nat)
    requires Inv(s) && t < |s.tabs| && f < |s.files| && s.files[f].kind != Console && s.files[f].open &&
             Slots(s.tabs, f) == 0
    ensures Inv(Installed(s, t, f))
  {
    var i := FreeFrom(s.tabs[t], 0);
    if i != NULL {
      var d := s.SetFile(f, s.files[f].(refs := 1));
      forall g: nat
        ensures FileOk(d, g)
      {
        assert FileOk(s, g);
      }
      forall u: nat, j: nat
        ensures SlotOk(d, u, j)
      {
        assert SlotOk(s, u, j);
      }
      AssignKeeps(d, t, i, f);
    }
  }

  /** A new file and, for a pipe, its pipe. */
  function Added(s: Sys, files: seq<File>, pipes: seq<Ends>): Sys
  {
    Sys(s.files + files, s.pipes + pipes, s.tabs)
  }

  lemma AddKeeps(s: Sys, files: seq<File>, pipes: seq<Ends>)
    requires Inv(s) && forall k :: 0 <= k < |files| ==> files[k].refs >= 0
    requires forall g: nat :: |s.files| <= g < |s.files| + |files| ==> EndOk(Added(s, files, pipes), g)
    ensures Inv(Added(s, files, pipes))
  {
    var e := Added(s, files, pipes);
    forall g: nat
      ensures FileOk(e, g)
    {
      assert FileOk(s, g);
      if g >= |s.files| { NewHasNone(s, g); }
    }
    forall u: nat, j: nat
      ensures SlotOk(e, u, j)
    {
      assert SlotOk(s, u, j);
    }
  }

  /** sys_open of an ordinary file: it is closed again when no descriptor is free. */
  function Opened(s: Sys, t: nat): Sys
    requires t < |s.tabs|
  {
    var d := Added(s, [File(Plain, 0, true)], []);
    if FreeFrom(s.tabs[t], 0) == NULL then Closed(d, |s.files|) else Installed(d, t, |s.files|)
  }

  lemma OpenKeeps(s: Sys, t: nat)
    requires Inv(s) && t < |s.tabs|
    ensures Inv(Opened(s, t))
  {
    var f := |s.files|;
    NewHasNone(s, f);
    AddKeeps(s, [File(Plain, 0, true)], []);
    InstallKeeps(Added(s, [File(Plain, 0, true)], []), t, f);
    if FreeFrom(s.tabs[t], 0) == NULL {
      AddKeeps(s, [File(Plain, 0, false)], []);
      assert s.files + [File(Plain, 0, false)] == (s.files + [File(Plain, 0, true)])[f := File(Plain, 0, false)];
    }
  }

  function NewPipe(s: Sys): Sys
  {
    var n, p := |s.files|, |s.pipes|;
    Added(s, [File(ReadEnd(p), 0, true), File(WriteEnd(p), 0, true)], [Ends(n, n + 1)])
  }

  /** sys_pipe: both ends get a descriptor, or the one that did is closed again. */
  function Piped(s: Sys, t: nat): Sys
    requires t < |s.tabs|
  {
    var r := |s.files|;
    var d := NewPipe(s);
    var rf := FreeFrom(d.tabs[t], 0);
    var d1 := Installed(d, t, r);
    var wf := FreeFrom(d1.tabs[t], 0);
    var d2 := Installed(d1, t, r + 1);
    if rf != NULL && wf == NULL then DropSlot(d2, t, rf) else d2
  }

  lemma NewPipeKeeps(s: Sys)
    requires Inv(s)
    ensures Inv(NewPipe(s))
  {
    var n, p := |s.files|, |s.pipes|;
    AddKeeps(s, [File(ReadEnd(p), 0, true), File(WriteEnd(p), 0, true)], [Ends(n, n + 1)]);
  }

  lemma InstallOther(s: Sys, t: nat, f: nat, g: nat)
    requires Inv(s) && t < |s.tabs| && f < |s.files| && g != f
    ensures Slots(Installed(s, t, f).tabs, g) == Slots(s.tabs, g) && |Installed(s, t, f).tabs| == |s.tabs|
    ensures g < |s.files| ==> Installed(s, t, f).files[g] == s.files[g]
  {
    var i := FreeFrom(s.tabs[t], 0);
    if i != NULL { SlotSet(s.tabs, t, i, f, g); }
  }

  lemma PipeKeeps(s: Sys, t: nat)
    requires Inv(s) && t < |s.tabs|
    ensures Inv(Piped(s, t))
  {
    var r := |s.files|;
    var d := NewPipe(s);
    NewPipeKeeps(s);
    NewHasNone(s, r);
    NewHasNone(s, r + 1);
    InstallKeeps(d, t, r);
    InstallOther(d, t, r, r + 1);
    var d1 := Installed(d, t, r);
    InstallKeeps(d1, t, r + 1);
    var rf, wf := FreeFrom(d.tabs[t], 0), FreeFrom(d1.tabs[t], 0);
    var d2 := Installed(d1, t, r + 1);
    hide Inv, Installed, DropSlot, NewPipe;
    if rf != NULL { DropSlotKeeps(d2, t, rf); }
  }

  // ----- all interleavings -----

  /** One system call of some task. */
  ghost predicate Step(s: Sys, s': Sys)
  {
    exists t: nat, u: nat, i: nat, j: nat :: t < |s.tabs| && u < |s.tabs| && Call(s, t, u, i, j, s')
  }

  ghost predicate Call(s: Sys, t: nat, u: nat, i: nat, j: nat, s': Sys)
    requires t < |s.tabs| && u < |s.tabs|
  {
    || s' == Opened(s, t) || s' == Piped(s, t) || s' == Dup2(s, t, i, j) || s' == DropSlot(s, t, i)
    || s' == Exited(s, t, 0) || s' == Forked(s, t, u)
  }

  lemma StepKeeps(s: Sys, s': Sys)
    requires Inv(s) && Step(s, s')
    ensures Inv(s')
  {
    hide Inv, Opened, Piped, Dup2, DropSlot, Exited, Forked;
    var t: nat, u: nat, i: nat, j: nat :| t < |s.tabs| && u < |s.tabs| && Call(s, t, u, i, j, s');
    OpenKeeps(s, t);
    PipeKeeps(s, t);
    Dup2Keeps(s, t, i, j);
    DropSlotKeeps(s, t, i);
    ExitKeeps(s, t, 0);
    ForkKeeps(s, t, u);
  }

  /** In every run no descriptor names a closed file. */
  lemma {:induction false} RunKeeps(run: seq<Sys>, k: nat)
    requires |run| > 0 && Inv(run[0]) && k < |run| && forall i :: 0 <= i < |run| - 1 ==> Step(run[i], run[i + 1])
    ensures Inv(run[k])
  {
    hide Inv, Step;
    if k > 0 {
      RunKeeps(run, k - 1);
      StepKeeps(run[k - 1], run[k]);
    }
  }

  lemma NeverClosed(s: Sys, t: nat, i: nat)
    requires Inv(s) && Named(s, t, i) && s.files[s.tabs[t][i]].kind != Console
    ensures s.files[s.tabs[t][i]].open && s.files[s.tabs[t][i]].refs > 0
  {
    SlotCounts(s.tabs, t, i);
    assert FileOk(s, s.tabs[t][i]);
  }

  /** The test pipe_read makes on an empty pipe: end of file. */
  predicate Eof(s: Sys, p: nat)
    requires p < |s.pipes|
  {
    var w := s.pipes[p].w;
    !(0 <= w < |s.files| && s.files[w].refs > 0)
  }

  /** While any descriptor of any task names the write end, a reader sees no end of file. */
  lemma NoEarlyEof(s: Sys, t: nat, i: nat)
    requires Inv(s) && Named(s, t, i) && s.files[s.tabs[t][i]].kind.WriteEnd?
    ensures s.files[s.tabs[t][i]].kind.p < |s.pipes| && !Eof(s, s.files[s.tabs[t][i]].kind.p)
  {
    NeverClosed(s, t, i);
    assert FileOk(s, s.tabs[t][i]);
  }

  // ----- the system calls -----

  /** Descriptor `i` of task `t` names a file that is no console. */
  predicate Names(s: Sys, t: nat, i: int)
  {
    t < |s.tabs| && 0 <= i < |s.tabs[t]| && 0 <= s.tabs[t][i] < |s.files| && s.files[s.tabs[t][i]].kind != Console
  }

  /** Each file has lost the references of `m`, consoles excepted, and is closed if that left none; a pipe
      has forgotten an end that is closed. */
  ghost predicate FilesLess(s: Sys, e: Sys, m: multiset<int>)
  {
    && |e.files| == |s.files| && |e.pipes| == |s.pipes|
    && (forall f: nat {:trigger FileLeft(s, e, m, f)} :: FileLeft(s, e, m, f))
    && (forall p: nat {:trigger EndsLeft(s, e, m, p)} :: EndsLeft(s, e, m, p))
  }

  lemma OneLess(s: Sys, e: Sys, f: nat)
    requires f < |s.files| && s.files[f].kind != Console && e.files == Unref(s, f).files && e.pipes == Unref(s, f).pipes
    ensures FilesLess(s, e, multiset{f as int})
  {
  }

  lemma OneFree(row: seq<int>, i: nat, f: int)
    requires i < |row| && row[i] == NULL && NULL !in row[i := f]
    ensures multiset(row)[NULL] == 1 && row[i := f][i := NULL] == row
  {
    RowSet(row, i, f, NULL);
    assert NULL !in multiset(row[i := f]);
  }

  lemma NextFree(row: seq<int>, i: nat, f: nat, k: nat)
    requires i < |row| && row[i] == NULL && NULL !in row[..i]
    requires k < |row| && row[i := f][k] == NULL && NULL !in row[i := f][..k]
    ensures i < k && row[k] == NULL && NULL !in row[i + 1..k]
  {
    var row' := row[i := f];
    forall j | i < j < k
      ensures row[j] != NULL
    {
      assert row'[..k][j] == row[j];
    }
  }

  lemma LeftAll(s: Sys, e: Sys, t: nat)
    requires Inv(s) && t < |s.tabs| && Left(s, e, t, FD_MAX)
    ensures FilesLess(s, e, multiset(s.tabs[t])) && |e.tabs| == |s.tabs| && |e.tabs[t]| == FD_MAX
    ensures forall u :: 0 <= u < |s.tabs| && u != t ==> e.tabs[u] == s.tabs[u]
    ensures forall i :: 0 <= i < FD_MAX ==> e.tabs[t][i] == if Names(s, t, i) then NULL else s.tabs[t][i]
  {
    assert s.tabs[t][..FD_MAX] == s.tabs[t];
    forall i | 0 <= i < FD_MAX
      ensures e.tabs[t][i] == if Names(s, t, i) then NULL else s.tabs[t][i]
    {
      assert SlotLeft(s, e, t, FD_MAX, i) && SlotOk(s, t, i);
    }
  }

  class Tables {
    var files: seq<File>
    var pipes: seq<Ends>
    var tabs: seq<seq<int>>

    ghost function S(): Sys
      reads this
    {
      Sys(files, pipes, tabs)
    }

    /** fd_install. */
    method Install(t: nat, f: nat) returns (fd: int)
      requires t < |tabs| && f < |files|
      modifies this
      ensures S() == Installed(old(S()), t, f) && fd == FreeFrom(old(tabs)[t], 0)
      ensures fd == NULL ==> NULL !in old(tabs)[t] && S() == old(S())
      ensures fd != NULL ==>
              && 0 <= fd < |old(tabs)[t]| && old(tabs)[t][fd] == NULL && NULL !in old(tabs)[t][..fd]
              && tabs == old(tabs)[t := old(tabs)[t][fd := f]] && pipes == old(pipes)
              && files == old(files)[f := old(files)[f].(refs := 1)]
    {
      fd := 0;
      while fd < |tabs[t]|
        invariant 0 <= fd <= |tabs[t]| && S() == old(S()) && FreeFrom(tabs[t], fd) == FreeFrom(tabs[t], 0)
        invariant NULL !in tabs[t][..fd]
      {
        if tabs[t][fd] == NULL {
          tabs := tabs[t := tabs[t][fd := f]];
          files := files[f := files[f].(refs := 1)];
          return;
        }
        fd := fd + 1;
      }
      fd := NULL;
    }

    /** vfs_close, with pipe_close for a pipe end. */
    method CloseFile(f: nat)
      requires f < |files|
      modifies this
      ensures S() == Closed(old(S()), f)
    {
      if files[f].kind == Console { return; }
      match files[f].kind {
        case WriteEnd(p) => if p < |pipes| && pipes[p].w == f { pipes := pipes[p := pipes[p].(w := NULL)]; }
        case ReadEnd(p) => if p < |pipes| && pipes[p].r == f { pipes := pipes[p := pipes[p].(r := NULL)]; }
        case _ =>
      }
      files := files[f := files[f].(open := false)];
    }

    method LetGo(f: nat)
      requires f < |files|
      modifies this
      ensures S() == Unref(old(S()), f)
    {
      files := files[f := files[f].(refs := files[f].refs - 1)];
      if files[f].refs <= 0 { CloseFile(f); }
    }

    /** fd_close. */
    method Close(t: nat, fd: int) returns (ok: bool)
      requires Inv(S()) && t < |tabs|
      modifies this
      ensures Inv(S()) && S() == if 0 <= fd then DropSlot(old(S()), t, fd) else old(S())
      ensures ok <==> 0 <= fd < FD_MAX && old(tabs)[t][fd] != NULL
      ensures Names(old(S()), t, fd) ==>
              tabs == old(tabs)[t := old(tabs)[t][fd := NULL]] &&
              FilesLess(old(S()), S(), multiset{old(tabs)[t][fd]})
      ensures !Names(old(S()), t, fd) ==> S() == old(S())
    {
      if fd < 0 || fd >= FD_MAX { return false; }
      assert SlotOk(S(), t, fd);
      var f := tabs[t][fd];
      if f == NULL { return false; }
      DropSlotKeeps(S(), t, fd);
      if files[f].kind == Console { return true; }
      tabs := tabs[t := tabs[t][fd := NULL]];
      LetGo(f);
      OneLess(old(S()), S(), f);
      ok := true;
    }

    /** The file loop of task_exit_current. */
    method Exit(t: nat)
      requires Inv(S()) && t < |tabs|
      modifies this
      ensures Inv(S()) && S() == Exited(old(S()), t, 0)
      ensures |tabs| == |old(tabs)| && forall u :: 0 <= u < |tabs| && u != t ==> tabs[u] == old(tabs)[u]
      ensures forall i :: 0 <= i < FD_MAX ==> tabs[t][i] == if Names(old(S()), t, i) then NULL else old(tabs)[t][i]
      ensures FilesLess(old(S()), S(), multiset(old(tabs)[t]))
    {
      var i := 0;
      while i < FD_MAX
        invariant 0 <= i <= FD_MAX && Inv(S()) && |tabs| == |old(tabs)| && Exited(S(), t, i) == Exited(old(S()), t, 0)
      {
        var ok := Close(t, i);
        i := i + 1;
      }
      LeftStart(old(S()), t);
      ExitLeaves(old(S()), old(S()), t, 0);
      LeftAll(old(S()), S(), t);
    }

    /** sys_dup2. */
    method Dup(t: nat, o: nat, n: nat) returns (ok: bool)
      requires Inv(S()) && t < |tabs|
      modifies this
      ensures Inv(S()) && S() == Dup2(old(S()), t, o, n)
      ensures ok <==> o < FD_MAX && old(tabs)[t][o] != NULL && n < FD_MAX
      ensures !ok || o == n ==> S() == old(S())
      ensures ok && o != n ==> tabs == old(tabs)[t := old(tabs)[t][n := old(tabs)[t][o]]] && |files| == |old(files)|
      ensures ok && o != n ==>
              forall f {:trigger files[f]} :: 0 <= f < |files| ==>
                files[f].kind == old(files)[f].kind &&
                files[f].refs == old(files)[f].refs + (if f == old(tabs)[t][o] then 1 else 0) -
                                 (if n > 2 && f == old(tabs)[t][n] then 1 else 0) &&
                files[f].open == (old(files)[f].open &&
                                  !(n > 2 && f == old(tabs)[t][n] && Names(old(S()), t, n) && old(files)[f].refs <= 1))
    {
      if o >= FD_MAX || tabs[t][o] == NULL { return false; }
      assert SlotOk(S(), t, o);
      if n >= FD_MAX { return false; }
      if o == n { return true; }
      Dup2Keeps(S(), t, o, n);
      assert SlotOk(S(), t, n);
      var f := tabs[t][o];
      if tabs[t][n] != NULL && n > 2 { LetGo(tabs[t][n]); }
      files := files[f := files[f].(refs := files[f].refs + 1)];
      tabs := tabs[t := tabs[t][n := f]];
      ok := true;
    }

    /** The file part of task_fork. */
    method Fork(p: nat, c: nat)
      requires Inv(S()) && p < |tabs| && c < |tabs|
      modifies this
      ensures Inv(S()) && S() == Forked(old(S()), p, c)
      ensures tabs == old(tabs)[c := old(tabs)[p]] && pipes == old(pipes) && |files| == |old(files)|
      ensures forall f {:trigger files[f]} :: 0 <= f < |files| ==>
                files[f] == old(files)[f].(refs := old(files)[f].refs + multiset(old(tabs)[p])[f])
    {
      ForkKeeps(S(), p, c);
      ghost var old_ := files;
      var row := tabs[p];
      tabs := tabs[c := row];
      var i := 0;
      while i < FD_MAX
        invariant 0 <= i <= FD_MAX && tabs == old(tabs)[c := row] && pipes == old(pipes) && |files| == |old_|
        invariant forall f :: 0 <= f < |files| ==> files[f] == old_[f].(refs := old_[f].refs + multiset(row[..i])[f])
      {
        assert row[..i + 1] == row[..i] + [row[i]];
        assert SlotOk(old(S()), p, i);
        if row[i] != NULL {
          files := files[row[i] := files[row[i]].(refs := files[row[i]].refs + 1)];
        }
        i := i + 1;
      }
      assert row[..i] == row;
      assert files == HeldBy(old_, row);
    }

    /** sys_open, once the file system has the file. */
    method Open(t: nat) returns (fd: int)
      requires Inv(S()) && t < |tabs|
      modifies this
      ensures Inv(S()) && S() == Opened(old(S()), t) && fd == FreeFrom(old(tabs)[t], 0)
      ensures pipes == old(pipes)
      ensures fd == NULL ==>
              NULL !in old(tabs)[t] && tabs == old(tabs) && files == old(files) + [File(Plain, 0, false)]
      ensures fd != NULL ==>
              && 0 <= fd < FD_MAX && old(tabs)[t][fd] == NULL && NULL !in old(tabs)[t][..fd]
              && tabs == old(tabs)[t := old(tabs)[t][fd := |old(files)|]]
              && files == old(files) + [File(Plain, 1, true)]
    {
      OpenKeeps(S(), t);
      files := files + [File(Plain, 0, true)];
      assert S() == Added(old(S()), [File(Plain, 0, true)], []);
      fd := Install(t, |files| - 1);
      if fd < 0 { CloseFile(|files| - 1); }
    }

    /** pipe_create: both ends can then be installed. */
    method CreatePipe(ghost t: nat) returns (n: nat)
      requires Inv(S()) && t < |tabs|
      modifies this
      ensures S() == NewPipe(old(S())) && tabs == old(tabs) && |tabs[t]| == FD_MAX && n == |old(files)|
      ensures pipes == old(pipes) + [Ends(n, n + 1)]
      ensures files == old(files) + [File(ReadEnd(|old(pipes)|), 0, true), File(WriteEnd(|old(pipes)|), 0, true)]
      ensures |Installed(S(), t, n).tabs| == |tabs| && |Installed(S(), t, n).files| == n + 2 &&
              Inv(Installed(Installed(S(), t, n), t, n + 1))
    {
      ghost var s := S();
      n := |files|;
      var p := |pipes|;
      pipes := pipes + [Ends(n, n + 1)];
      files := files + [File(ReadEnd(p), 0, true), File(WriteEnd(p), 0, true)];
      NewPipeKeeps(s);
      NewHasNone(s, n);
      NewHasNone(s, n + 1);
      InstallKeeps(NewPipe(s), t, n);
      InstallOther(NewPipe(s), t, n, n + 1);
      InstallKeeps(Installed(NewPipe(s), t, n), t, n + 1);
    }

    /** sys_pipe. */
    method Pipe(t: nat) returns (rf: int, wf: int)
      requires Inv(S()) && t < |tabs|
      modifies this
      ensures Inv(S()) && S() == Piped(old(S()), t) && rf == FreeFrom(old(tabs)[t], 0)
      ensures wf == if 0 <= rf < |old(tabs)[t]| then FreeFrom(old(tabs)[t][rf := |old(files)|], 0) else rf
      ensures 0 <= rf && 0 <= wf ==>
              && rf < wf < FD_MAX && old(tabs)[t][rf] == NULL && old(tabs)[t][wf] == NULL
              && NULL !in old(tabs)[t][..rf] && NULL !in old(tabs)[t][rf + 1..wf]
              && tabs == old(tabs)[t := old(tabs)[t][rf := |old(files)|][wf := |old(files)| + 1]]
              && pipes == old(pipes) + [Ends(|old(files)|, |old(files)| + 1)]
              && files == old(files) + [File(ReadEnd(|old(pipes)|), 1, true), File(WriteEnd(|old(pipes)|), 1, true)]
      ensures rf < 0 || wf < 0 ==>
              && tabs == old(tabs) && (rf < 0 ==> NULL !in old(tabs)[t])
              && (rf >= 0 ==> rf < FD_MAX && multiset(old(tabs)[t])[NULL] == 1 && old(tabs)[t][rf] == NULL)
    {
      hide Inv, Installed, DropSlot, FilesLess, FreeFrom, NewPipe;
      PipeKeeps(S(), t);
      ghost var p, row := |pipes|, tabs[t];
      var n := CreatePipe(t);
      rf := Install(t, n);
      wf := Install(t, n + 1);
      if rf >= 0 && wf < 0 {
        OneFree(row, rf, n);
        var ok := Close(t, rf);
        assert tabs == old(tabs);
      } else if rf >= 0 {
        NextFree(row, rf, n, wf);
        assert files == old(files) + [File(ReadEnd(p), 1, true), File(WriteEnd(p), 1, true)];
      }
    }
  }
}
