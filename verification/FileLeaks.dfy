/** When references are exactly the slots that name a file, which calls lose one, and what the ends of a
    pipe know of each other (kernel/proc/syscall.c, kernel/proc/task.c, kernel/fs/pipe.c). */
module FileLeaks {
  import opened Files

  // ----- no reference without a slot -----

  ghost predicate ExactAt(s: Sys, f: nat)
  {
    f < |s.files| && s.files[f].kind != Console ==> s.files[f].refs == Slots(s.tabs, f)
  }

  /** Every file that is no console has as many references as slots naming it: nothing has leaked. */
  ghost predicate Exact(s: Sys)
  {
    forall f: nat {:trigger ExactAt(s, f)} :: ExactAt(s, f)
  }

  lemma DropExact(s: Sys, t: nat, i: nat)
    requires Inv(s) && Exact(s)
    ensures Exact(DropSlot(s, t, i))
  {
    var e := DropSlot(s, t, i);
    if Named(s, t, i) {
      forall f: nat
        ensures ExactAt(e, f)
      {
        assert ExactAt(s, f);
        SlotSet(s.tabs, t, i, NULL, f);
      }
    }
  }

  lemma {:induction false} ExitExact(s: Sys, t: nat, i: nat)
    requires Inv(s) && Exact(s)
    ensures Exact(Exited(s, t, i))
    decreases FD_MAX - i
  {
    if i < FD_MAX {
      DropExact(s, t, i);
      DropSlotKeeps(s, t, i);
      ExitExact(DropSlot(s, t, i), t, i + 1);
    }
  }

  /** The dup2 goes through, onto descriptor 0, 1 or 2, which names a file that is no console. */
  predicate Leaks(s: Sys, t: nat, o: nat, n: nat)
  {
    Named(s, t, o) && o != n && n <= 2 && Named(s, t, n) && s.files[s.tabs[t][n]].kind != Console
  }

  lemma Dup2Counts(s: Sys, t: nat, o: nat, n: nat, f: nat)
    requires Inv(s) && Named(s, t, o) && n < FD_MAX && |s.tabs[t]| == FD_MAX && o != n
    requires f < |s.files| && s.files[f].kind != Console
    ensures var e := Dup2(s, t, o, n);
            var a := if s.tabs[t][o] == f then 1 else 0; var b := if s.tabs[t][n] == f then 1 else 0;
            |e.files| == |s.files| && e.files[f].kind == s.files[f].kind
            && e.files[f].refs == s.files[f].refs + a - (if n > 2 then b else 0)
            && Slots(e.tabs, f) == Slots(s.tabs, f) + a - b
  {
    SlotSet(s.tabs, t, n, s.tabs[t][o], f);
  }

  /** dup2 keeps the counts exact unless it leaks, and if it leaks it does not. */
  lemma Dup2Exact(s: Sys, t: nat, o: nat, n: nat)
    requires Inv(s) && Exact(s)
    ensures Exact(Dup2(s, t, o, n)) <==> !Leaks(s, t, o, n)
  {
    var e := Dup2(s, t, o, n);
    if Named(s, t, o) && n < FD_MAX && |s.tabs[t]| == FD_MAX && o != n {
      hide Inv, Dup2;
      forall f: nat
        ensures |e.files| == |s.files| && (f < |s.files| && s.files[f].kind != Console ==>
                  (ExactAt(e, f) <==> n > 2 || s.tabs[t][n] != f))
      {
        Dup2Size(s, t, o, n);
        assert ExactAt(s, f);
        if f < |s.files| && s.files[f].kind != Console { Dup2Counts(s, t, o, n, f); }
      }
      forall f: nat | f < |s.files| && s.files[f].kind == Console
        ensures ExactAt(e, f)
      {
        Dup2Kind(s, t, o, n, f);
      }
      if Leaks(s, t, o, n) {
        var f: nat := s.tabs[t][n];
        assert !ExactAt(e, f);
      } else {
        forall f: nat
          ensures ExactAt(e, f)
        {
        }
      }
    }
  }

  lemma Dup2Size(s: Sys, t: nat, o: nat, n: nat)
    ensures |Dup2(s, t, o, n).files| == |s.files|
  {
  }

  lemma Dup2Kind(s: Sys, t: nat, o: nat, n: nat, f: nat)
    requires f < |s.files|
    ensures |Dup2(s, t, o, n).files| == |s.files| && Dup2(s, t, o, n).files[f].kind == s.files[f].kind
  {
  }

  /** The child's slots are free, as those of a task that has exited or never ran are. */
  predicate Vacant(s: Sys, c: nat)
  {
    c < |s.tabs| && forall i :: 0 <= i < |s.tabs[c]| ==>
      !(0 <= s.tabs[c][i] < |s.files| && s.files[s.tabs[c][i]].kind != Console)
  }

  /** A task that has exited leaves such a slot. */
  lemma ExitVacant(s: Sys, t: nat)
    requires Inv(s) && t < |s.tabs|
    ensures Vacant(Exited(s, t, 0), t)
  {
    LeftStart(s, t);
    ExitLeaves(s, s, t, 0);
    var e := Exited(s, t, 0);
    forall i: nat | i < |e.tabs[t]|
      ensures !(0 <= e.tabs[t][i] < |e.files| && e.files[e.tabs[t][i]].kind != Console)
    {
      assert SlotLeft(s, e, t, FD_MAX, i) && SlotOk(s, t, i);
      if 0 <= e.tabs[t][i] < |e.files| { assert FileLeft(s, e, multiset(s.tabs[t][..FD_MAX]), e.tabs[t][i]); }
    }
  }

  /** fork keeps the counts exact if and only if the slot it fills named no file but consoles. */
  lemma ForkExact(s: Sys, p: nat, c: nat)
    requires Inv(s) && Exact(s) && p < |s.tabs| && c < |s.tabs|
    ensures Exact(Forked(s, p, c)) <==> Vacant(s, c)
  {
    var e := Forked(s, p, c);
    forall f: nat
      ensures f < |s.files| && s.files[f].kind != Console ==> (ExactAt(e, f) <==> multiset(s.tabs[c])[f] == 0)
    {
      assert ExactAt(s, f);
      SlotsRow(s.tabs, c, s.tabs[p], f);
    }
    if Vacant(s, c) {
      forall f: nat
        ensures ExactAt(e, f)
      {
        if f < |s.files| && s.files[f].kind != Console { assert f !in s.tabs[c]; }
      }
    } else {
      var i :| 0 <= i < |s.tabs[c]| && 0 <= s.tabs[c][i] < |s.files| && s.files[s.tabs[c][i]].kind != Console;
      var f: nat := s.tabs[c][i];
      assert f in multiset(s.tabs[c]);
      assert !ExactAt(e, f);
    }
  }

  lemma InstallExact(s: Sys, t: nat, f: nat)
    requires Inv(s) && Exact(s) && t < |s.tabs| && f < |s.files| && Slots(s.tabs, f) == 0
    ensures Exact(Installed(s, t, f))
  {
    var i := FreeFrom(s.tabs[t], 0);
    if i != NULL {
      var e := Installed(s, t, f);
      forall g: nat
        ensures ExactAt(e, g)
      {
        assert ExactAt(s, g);
        SlotSet(s.tabs, t, i, f, g);
      }
    }
  }

  lemma AddExact(s: Sys, files: seq<File>, pipes: seq<Ends>)
    requires Inv(s) && Exact(s) && forall k :: 0 <= k < |files| ==> files[k].refs == 0
    ensures Exact(Added(s, files, pipes))
  {
    var e := Added(s, files, pipes);
    forall f: nat
      ensures ExactAt(e, f)
    {
      assert ExactAt(s, f);
      if f >= |s.files| { NewHasNone(s, f); }
    }
  }

  lemma CloseExact(s: Sys, f: nat)
    requires Exact(s) && f < |s.files|
    ensures Exact(Closed(s, f))
  {
    var e := Closed(s, f);
    forall g: nat
      ensures ExactAt(e, g)
    {
      assert ExactAt(s, g);
    }
  }

  lemma OpenExact(s: Sys, t: nat)
    requires Inv(s) && Exact(s) && t < |s.tabs|
    ensures Exact(Opened(s, t))
  {
    var d := Added(s, [File(Plain, 0, true)], []);
    AddExact(s, [File(Plain, 0, true)], []);
    AddKeeps(s, [File(Plain, 0, true)], []);
    NewHasNone(s, |s.files|);
    CloseExact(d, |s.files|);
    InstallExact(d, t, |s.files|);
  }

  lemma PipeExact(s: Sys, t: nat)
    requires Inv(s) && Exact(s) && t < |s.tabs|
    ensures Exact(Piped(s, t))
  {
    var r, d := |s.files|, NewPipe(s);
    NewPipeKeeps(s);
    AddExact(s, [File(ReadEnd(|s.pipes|), 0, true), File(WriteEnd(|s.pipes|), 0, true)], [Ends(r, r + 1)]);
    NewHasNone(s, r);
    NewHasNone(s, r + 1);
    InstallKeeps(d, t, r);
    InstallExact(d, t, r);
    InstallOther(d, t, r, r + 1);
    var d1 := Installed(d, t, r);
    InstallKeeps(d1, t, r + 1);
    InstallExact(d1, t, r + 1);
    var d2 := Installed(d1, t, r + 1);
    var rf := FreeFrom(d.tabs[t], 0);
    hide Inv, Exact, Installed, DropSlot, NewPipe;
    if rf != NULL { DropExact(d2, t, rf); }
  }

  /** A call that is no leaking dup2 and no fork into a slot that still names files. */
  ghost predicate CleanCall(s: Sys, s': Sys)
  {
    exists t: nat, u: nat, i: nat, j: nat :: t < |s.tabs| && u < |s.tabs| && Clean(s, t, u, i, j, s')
  }

  ghost predicate Clean(s: Sys, t: nat, u: nat, i: nat, j: nat, s': Sys)
    requires t < |s.tabs| && u < |s.tabs|
  {
    || s' == Opened(s, t) || s' == Piped(s, t) || s' == DropSlot(s, t, i)
    || (s' == Dup2(s, t, i, j) && !Leaks(s, t, i, j))
    || s' == Exited(s, t, 0) || (s' == Forked(s, t, u) && Vacant(s, u))
  }

  /** Over every run of such calls the counts stay exact. */
  lemma {:induction false} RunExact(run: seq<Sys>, k: nat)
    requires |run| > 0 && Inv(run[0]) && Exact(run[0]) && k < |run|
    requires forall i :: 0 <= i < |run| - 1 ==> CleanCall(run[i], run[i + 1])
    ensures Inv(run[k]) && Exact(run[k])
  {
    hide Inv, Exact, Opened, Piped, Dup2, DropSlot, Exited, Forked, Vacant, Leaks;
    if k > 0 {
      RunExact(run, k - 1);
      var s, s' := run[k - 1], run[k];
      var t: nat, u: nat, i: nat, j: nat :| t < |s.tabs| && u < |s.tabs| && Clean(s, t, u, i, j, s');
      assert Call(s, t, u, i, j, s') && Step(s, s');
      StepKeeps(s, s');
      OpenExact(s, t);
      PipeExact(s, t);
      Dup2Exact(s, t, i, j);
      DropExact(s, t, i);
      ExitExact(s, t, 0);
      ForkExact(s, t, u);
    }
  }

  /** Two ordinary files at descriptors 0 and 1. */
  function TwoFiles(): Sys
  {
    Sys([File(Plain, 1, true), File(Plain, 1, true)], [], [[0, 1] + seq(FD_MAX - 2, _ => NULL)])
  }

  lemma RowCount(n: nat, f: int)
    requires f != NULL
    ensures multiset(seq(n, _ => NULL))[f] == 0
  {
    var s: seq<int> := seq(n, _ => NULL);
    assert f !in s;
  }

  /** dup2 of descriptor 1 onto 0 leaves the file that was at 0 with a reference and no slot. */
  lemma Dup2Leak()
    ensures Inv(TwoFiles()) && Exact(TwoFiles()) && Leaks(TwoFiles(), 0, 1, 0)
    ensures var e := Dup2(TwoFiles(), 0, 1, 0); e.files[0].refs == 1 && e.files[0].open && Slots(e.tabs, 0) == 0
  {
    var s := TwoFiles();
    var row := s.tabs[0];
    forall f: nat
      ensures Slots(s.tabs, f) == if f < 2 then 1 else 0
    {
      RowCount(FD_MAX - 2, f);
      assert s.tabs[..0] == [];
      assert multiset(row) == multiset([0, 1]) + multiset(row[2..]);
      assert multiset([0, 1])[f] == if f < 2 then 1 else 0;
    }
    forall f: nat
      ensures FileOk(s, f) && ExactAt(s, f)
    {
    }
    forall t: nat, i: nat
      ensures SlotOk(s, t, i)
    {
    }
    SlotSet(s.tabs, 0, 0, 1, 0);
  }

  // ----- a pipe end left open -----

  /** The file is open, and nothing names it. */
  ghost predicate Stranded(s: Sys, f: nat)
  {
    f < |s.files| && s.files[f].open && Slots(s.tabs, f) == 0
  }

  lemma {:induction false} FreeFromNone(row: seq<int>, i: nat)
    requires i <= |row|
    ensures FreeFrom(row, i) == NULL <==> NULL !in row[i..]
    decreases |row| - i
  {
    if i < |row| {
      FreeFromNone(row, i + 1);
      assert row[i..] == [row[i]] + row[i + 1..];
    }
  }

  lemma FreeFromCount(row: seq<int>)
    ensures FreeFrom(row, 0) == NULL <==> multiset(row)[NULL] == 0
  {
    FreeFromNone(row, 0);
    assert row[0..] == row;
  }

  /** sys_pipe leaves an end open that nothing names if and only if fewer than two descriptors are free. */
  lemma PipeStrands(s: Sys, t: nat)
    requires Inv(s) && t < |s.tabs|
    ensures (Stranded(Piped(s, t), |s.files|) || Stranded(Piped(s, t), |s.files| + 1)) <==>
            multiset(s.tabs[t])[NULL] < 2
  {
    hide Inv, Slots, FreeFrom, FileOk, EndOk;
    var r, d := |s.files|, NewPipe(s);
    NewHasNone(s, r);
    NewHasNone(s, r + 1);
    FreeFromCount(s.tabs[t]);
    var rf := FreeFrom(d.tabs[t], 0);
    var d1 := Installed(d, t, r);
    if rf != NULL {
      RowSet(s.tabs[t], rf, r, NULL);
      SlotSet(s.tabs, t, rf, r, r);
      SlotSet(s.tabs, t, rf, r, r + 1);
      FreeFromCount(d1.tabs[t]);
      var wf := FreeFrom(d1.tabs[t], 0);
      if wf != NULL {
        SlotSet(d1.tabs, t, wf, r + 1, r);
        SlotSet(d1.tabs, t, wf, r + 1, r + 1);
      } else {
        SlotSet(d1.tabs, t, rf, NULL, r + 1);
      }
    }
  }

  // ----- what a pipe knows of its ends -----

  /** Every descriptor is the console. */
  function AllConsole(): Sys
  {
    Sys([File(Console, 0, true)], [], [seq(FD_MAX, _ => 0)])
  }

  /** There a pipe leaves both its ends open and unnamed. */
  lemma PipeStrandsBoth()
    ensures Inv(AllConsole())
    ensures Stranded(Piped(AllConsole(), 0), 1) && Stranded(Piped(AllConsole(), 0), 2)
  {
    var s := AllConsole();
    assert NULL !in s.tabs[0];
    FreeFromCount(s.tabs[0]);
    NoSlots(s.tabs, 1);
    NoSlots(s.tabs, 2);
    forall f: nat
      ensures FileOk(s, f)
    {
    }
  }

  /** A pipe's ends are files of its own, and once the write end has a descriptor the read end has one too,
      or has been closed. */
  ghost predicate PairAt(s: Sys, p: nat)
  {
    p < |s.pipes| ==>
      var r, w := s.pipes[p].r, s.pipes[p].w;
      && (r == NULL || (0 <= r < |s.files| && s.files[r].kind == ReadEnd(p)))
      && (w == NULL || (0 <= w < |s.files| && s.files[w].kind == WriteEnd(p)))
      && (r != NULL && w != NULL && s.files[w].refs > 0 ==> s.files[r].refs > 0)
  }

  ghost predicate Pairs(s: Sys)
  {
    forall p: nat {:trigger PairAt(s, p)} :: PairAt(s, p)
  }

  lemma UnrefPairs(s: Sys, f: nat)
    requires Pairs(s) && f < |s.files|
    ensures Pairs(Unref(s, f))
  {
    var e := Unref(s, f);
    forall p: nat
      ensures PairAt(e, p)
    {
      assert PairAt(s, p);
      if s.files[f].kind.ReadEnd? || s.files[f].kind.WriteEnd? { assert PairAt(s, s.files[f].kind.p); }
    }
  }

  lemma SlotPairs(s: Sys, t: nat, i: nat, f: int)
    requires Pairs(s) && t < |s.tabs| && i < |s.tabs[t]|
    ensures Pairs(s.SetSlot(t, i, f))
  {
    var e := s.SetSlot(t, i, f);
    forall p: nat
      ensures PairAt(e, p)
    {
      assert PairAt(s, p);
    }
  }

  lemma DropPairs(s: Sys, t: nat, i: nat)
    requires Pairs(s)
    ensures Pairs(DropSlot(s, t, i))
  {
    hide Pairs, Unref;
    if Named(s, t, i) {
      SlotPairs(s, t, i, NULL);
      UnrefPairs(s.SetSlot(t, i, NULL), s.tabs[t][i]);
    }
  }

  lemma {:induction false} ExitPairs(s: Sys, t: nat, i: nat)
    requires Pairs(s)
    ensures Pairs(Exited(s, t, i))
    decreases FD_MAX - i
  {
    hide Pairs, DropSlot;
    if i < FD_MAX {
      DropPairs(s, t, i);
      ExitPairs(DropSlot(s, t, i), t, i + 1);
    }
  }

  /** A file that has a reference gets another. */
  lemma HoldPairs(s: Sys, f: nat)
    requires Pairs(s) && f < |s.files| && (s.files[f].kind != Console ==> s.files[f].refs > 0)
    ensures Pairs(Hold(s, f))
  {
    var e := Hold(s, f);
    forall p: nat
      ensures PairAt(e, p)
    {
      assert PairAt(s, p);
    }
  }

  lemma Dup2Pairs(s: Sys, t: nat, o: nat, n: nat)
    requires Inv(s) && Pairs(s)
    ensures Pairs(Dup2(s, t, o, n))
  {
    if Named(s, t, o) && n < FD_MAX && |s.tabs[t]| == FD_MAX && o != n {
      var f: nat := s.tabs[t][o];
      var d := if Named(s, t, n) && n > 2 then Unref(s, s.tabs[t][n]) else s;
      if Named(s, t, n) && n > 2 { UnrefPairs(s, s.tabs[t][n]); }
      if s.files[f].kind != Console { TwoNamed(s, t, o, n); }
      HoldPairs(d, f);
      SlotPairs(Hold(d, f), t, n, f);
    }
  }

  /** Letting go of what descriptor `n` names leaves the file at `o` a reference. */
  lemma TwoNamed(s: Sys, t: nat, o: nat, n: nat)
    requires Inv(s) && Named(s, t, o) && n < FD_MAX && |s.tabs[t]| == FD_MAX && o != n &&
             s.files[s.tabs[t][o]].kind != Console
    ensures s.files[s.tabs[t][o]].refs > 0
    ensures Named(s, t, n) ==> Unref(s, s.tabs[t][n]).files[s.tabs[t][o]].refs > 0
  {
    var f: nat := s.tabs[t][o];
    NeverClosed(s, t, o);
    if Named(s, t, n) && s.tabs[t][n] == f {
      SlotSet(s.tabs, t, n, NULL, f);
      SlotCounts(s.tabs[t := s.tabs[t][n := NULL]], t, o);
      assert FileOk(s, f);
    }
  }

  lemma ForkPairs(s: Sys, p: nat, c: nat)
    requires Inv(s) && Pairs(s) && p < |s.tabs| && c < |s.tabs|
    ensures Pairs(Forked(s, p, c))
  {
    var e := Forked(s, p, c);
    forall q: nat
      ensures PairAt(e, q)
    {
      assert PairAt(s, q);
      if q < |s.pipes| && s.pipes[q].w >= 0 && multiset(s.tabs[p])[s.pipes[q].w] > 0 {
        var w: nat := s.pipes[q].w;
        assert w in s.tabs[p];
        var i :| 0 <= i < |s.tabs[p]| && s.tabs[p][i] == w;
        NeverClosed(s, p, i);
      }
    }
  }

  lemma AddPairs(s: Sys, files: seq<File>)
    requires Pairs(s)
    ensures Pairs(Added(s, files, []))
  {
    var e := Added(s, files, []);
    forall p: nat
      ensures PairAt(e, p)
    {
      assert PairAt(s, p);
    }
  }

  lemma InstallPairs(s: Sys, t: nat, f: nat)
    requires Pairs(s) && t < |s.tabs| && f < |s.files|
    requires s.files[f].kind.WriteEnd? ==> var p := s.files[f].kind.p;
               p < |s.pipes| && s.pipes[p].w == f &&
                 (s.pipes[p].r == NULL || (0 <= s.pipes[p].r < |s.files| && s.files[s.pipes[p].r].refs > 0))
    ensures Pairs(Installed(s, t, f))
  {
    var e := Installed(s, t, f);
    forall p: nat
      ensures PairAt(e, p)
    {
      assert PairAt(s, p);
    }
  }

  lemma ClosePairs(s: Sys, f: nat)
    requires Pairs(s) && f < |s.files|
    ensures Pairs(Closed(s, f))
  {
    var e := Closed(s, f);
    forall p: nat
      ensures PairAt(e, p)
    {
      assert PairAt(s, p);
    }
  }

  lemma OpenPairs(s: Sys, t: nat)
    requires Pairs(s) && t < |s.tabs|
    ensures Pairs(Opened(s, t))
  {
    var d := Added(s, [File(Plain, 0, true)], []);
    AddPairs(s, [File(Plain, 0, true)]);
    ClosePairs(d, |s.files|);
    InstallPairs(d, t, |s.files|);
  }

  lemma NewPipePairs(s: Sys)
    requires Pairs(s)
    ensures Pairs(NewPipe(s))
  {
    var e := NewPipe(s);
    forall p: nat
      ensures PairAt(e, p)
    {
      assert PairAt(s, p);
    }
  }

  lemma PipePairs(s: Sys, t: nat)
    requires Pairs(s) && t < |s.tabs|
    ensures Pairs(Piped(s, t))
  {
    var r, d := |s.files|, NewPipe(s);
    NewPipePairs(s);
    InstallPairs(d, t, r);
    var rf := FreeFrom(d.tabs[t], 0);
    var d1 := Installed(d, t, r);
    if rf != NULL {
      InstallPairs(d1, t, r + 1);
      DropPairs(Installed(d1, t, r + 1), t, rf);
    }
  }

  lemma StepPairs(s: Sys, s': Sys)
    requires Inv(s) && Pairs(s) && Step(s, s')
    ensures Pairs(s')
  {
    hide Inv, Pairs, Opened, Piped, Dup2, DropSlot, Exited, Forked;
    var t: nat, u: nat, i: nat, j: nat :| t < |s.tabs| && u < |s.tabs| && Call(s, t, u, i, j, s');
    OpenPairs(s, t);
    PipePairs(s, t);
    Dup2Pairs(s, t, i, j);
    DropPairs(s, t, i);
    ExitPairs(s, t, 0);
    ForkPairs(s, t, u);
  }

  lemma {:induction false} RunPairs(run: seq<Sys>, k: nat)
    requires |run| > 0 && Inv(run[0]) && Pairs(run[0]) && k < |run| &&
             forall i :: 0 <= i < |run| - 1 ==> Step(run[i], run[i + 1])
    ensures Inv(run[k]) && Pairs(run[k])
  {
    hide Inv, Pairs, Step;
    RunKeeps(run, k);
    if k > 0 {
      RunPairs(run, k - 1);
      StepPairs(run[k - 1], run[k]);
    }
  }
}
