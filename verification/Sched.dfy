/** The scheduler: task states, round-robin choice and the active address space
    (kernel/proc/task.c). */
module Sched {

  const TASK_MAX := 8
  const NONE := -1

  datatype State = Unused | Ready | Running | Zombie

  /** A task slot. `parent` is a slot number, or NONE. */
  datatype Task = Task(state: State, pid: nat, parent: int, pml4: nat, code: int)

  /** The scheduler as a value: the slots, `g_current`, `g_active_pml4`, CR3, the next pid, and the
      address spaces that exist. */
  datatype Cfg = Cfg(tasks: seq<Task>, current: int, active: nat, cr3: nat, pid: nat, spaces: set<nat>, kernel: nat)
  {
    function SetState(i: nat, s: State): Cfg
      requires i < |tasks|
    {
      this.(tasks := tasks[i := tasks[i].(state := s)])
    }
  }

  // ----- what holds between steps -----

  predicate Alive(s: State)
  {
    s == Ready || s == Running
  }

  ghost predicate TaskOk(c: Cfg, i: nat)
  {
    i < |c.tasks| ==>
      && (c.tasks[i].state == Running <==> i == c.current)
      && (Alive(c.tasks[i].state) ==>
           c.tasks[i].pml4 in c.spaces && c.tasks[i].pml4 != 0 && c.tasks[i].pml4 != c.kernel)
      && (c.tasks[i].state == Zombie ==> c.tasks[i].pml4 == 0)
      && (c.tasks[i].state != Unused ==> c.tasks[i].pid > 0)
  }

  ghost predicate OwnSpace(c: Cfg, i: nat, j: nat)
  {
    i < |c.tasks| && j < |c.tasks| && i != j && Alive(c.tasks[i].state) && Alive(c.tasks[j].state) ==>
      c.tasks[i].pml4 != c.tasks[j].pml4
  }

  /** At most one task is running and it is the current one; CR3 holds its PML4, or the kernel's when
      there is none; every live task has an address space of its own. */
  ghost predicate Inv(c: Cfg)
  {
    && |c.tasks| == TASK_MAX && NONE <= c.current < TASK_MAX && c.kernel != 0 && c.kernel in c.spaces && c.pid > 0
    && c.cr3 == c.active && c.active in c.spaces
    && (c.current != NONE ==> c.tasks[c.current].state == Running && c.active == c.tasks[c.current].pml4)
    && (forall i: nat {:trigger TaskOk(c, i)} :: TaskOk(c, i))
    && (forall i: nat, j: nat {:trigger OwnSpace(c, i, j)} :: OwnSpace(c, i, j))
  }

  // ----- the choice -----

  /** How far slot `to` is after `from`, going round: the next is at 1, `from` itself at TASK_MAX. */
  function Dist(from: int, to: int): (d: int)
    requires -1 <= from < TASK_MAX && 0 <= to < TASK_MAX
    ensures 1 <= d <= TASK_MAX
  {
    if to > from then to - from else to - from + TASK_MAX
  }

  predicate IsReady(tasks: seq<Task>, i: int)
  {
    0 <= i < |tasks| && tasks[i].state == Ready
  }

  /** Slot `n` is the ready one closest after `from`. */
  ghost predicate Picks(tasks: seq<Task>, from: int, n: int)
    requires |tasks| == TASK_MAX && -1 <= from < TASK_MAX
  {
    IsReady(tasks, n) && forall i {:trigger IsReady(tasks, i)} :: IsReady(tasks, i) ==> Dist(from, n) <= Dist(from, i)
  }

  ghost predicate NoneReady(tasks: seq<Task>)
  {
    forall i {:trigger IsReady(tasks, i)} :: !IsReady(tasks, i)
  }

  // ----- the steps -----

  /** task_activate: CR3 is loaded if its PML4 is not the active one. */
  function Activated(c: Cfg, n: nat): Cfg
    requires n < |c.tasks|
  {
    var p := c.tasks[n].pml4;
    if p != 0 && p != c.active then c.(active := p, cr3 := p) else c
  }

  /** `n` runs now. */
  function Started(c: Cfg, n: nat): Cfg
    requires n < |c.tasks|
  {
    Activated(c.SetState(n, Running).(current := n), n)
  }

  /** vmm_destroy_address_space: null and the kernel template are left alone. */
  function Destroyed(c: Cfg, p: nat): Cfg
  {
    if p == 0 || p == c.kernel then c else c.(spaces := c.spaces - {p})
  }

  ghost predicate YieldStep(c: Cfg, c': Cfg)
    requires Inv(c)
  {
    if c.current == NONE || NoneReady(c.tasks) then c' == c
    else exists n: nat :: Picks(c.tasks, c.current, n) && c' == Started(c.SetState(c.current, Ready), n)
  }

  /** The current task ended: a zombie without an address space. */
  function Ended(c: Cfg, t: nat, code: int): Cfg
    requires t < |c.tasks|
  {
    c.(tasks := c.tasks[t := c.tasks[t].(state := Zombie, code := code)])
  }

  function Dropped(c: Cfg, t: nat): Cfg
    requires t < |c.tasks|
  {
    var d := Destroyed(c, c.tasks[t].pml4);
    d.(tasks := d.tasks[t := d.tasks[t].(pml4 := 0)])
  }

  ghost predicate ExitStep(c: Cfg, code: int, c': Cfg)
    requires Inv(c)
  {
    if c.current == NONE then c' == c else
    var e := Ended(c, c.current, code);
    if NoneReady(e.tasks) then c' == Dropped(e.(active := c.kernel, cr3 := c.kernel), c.current).(current := NONE)
    else exists n: nat :: Picks(e.tasks, c.current, n) && c' == Dropped(Started(e, n), c.current)
  }

  ghost predicate StartStep(c: Cfg, c': Cfg)
    requires Inv(c)
  {
    exists n: nat :: Picks(c.tasks, NONE, n) && c' == Started(c, n)
  }

  /** A free slot `i` gets a ready task with a fresh address space; or nothing but the pid changes. */
  ghost predicate NewStep(c: Cfg, c': Cfg)
    requires Inv(c)
  {
    exists i: nat, t: Task :: i < TASK_MAX && c.tasks[i].state == Unused &&
      if t.state == Ready then
        t.pid == c.pid && t.pml4 != 0 && t.pml4 !in c.spaces &&
          c' == c.(tasks := c.tasks[i := t], pid := c.pid + 1, spaces := c.spaces + {t.pml4})
      else t.state == Unused && c' == c.(tasks := c.tasks[i := t], pid := c.pid + 1)
  }

  /** task_reap of a zombie. */
  ghost predicate ReapStep(c: Cfg, c': Cfg)
    requires Inv(c)
  {
    exists i: nat :: i < TASK_MAX && c.tasks[i].state == Zombie && c' == c.SetState(i, Unused)
  }

  // ----- what every step keeps -----

  lemma StartedKeeps(c: Cfg, n: nat)
    requires |c.tasks| == TASK_MAX && n < TASK_MAX && c.kernel != 0 && c.kernel in c.spaces && c.cr3 == c.active &&
             c.active in c.spaces
    requires c.pid > 0 && forall i: nat :: i < TASK_MAX && c.tasks[i].state != Unused ==> c.tasks[i].pid > 0
    requires IsReady(c.tasks, n) && c.tasks[n].pml4 in c.spaces && c.tasks[n].pml4 != 0 && c.tasks[n].pml4 != c.kernel
    requires forall i: nat, j: nat {:trigger OwnSpace(c, i, j)} :: OwnSpace(c, i, j)
    requires forall i: nat :: i < TASK_MAX ==> c.tasks[i].state != Running
    requires forall i: nat :: i < TASK_MAX && c.tasks[i].state == Ready ==>
               c.tasks[i].pml4 in c.spaces && c.tasks[i].pml4 != 0 && c.tasks[i].pml4 != c.kernel
    requires forall i: nat :: i < TASK_MAX && c.tasks[i].state == Zombie ==> c.tasks[i].pml4 == 0
    ensures Inv(Started(c, n))
  {
    var d := Started(c, n);
    forall i: nat
      ensures TaskOk(d, i)
    {
    }
    forall i: nat, j: nat
      ensures OwnSpace(d, i, j)
    {
      assert OwnSpace(c, i, j);
    }
  }

  lemma YieldKeeps(c: Cfg, c': Cfg)
    requires Inv(c) && YieldStep(c, c')
    ensures Inv(c')
  {
    if !(c.current == NONE || NoneReady(c.tasks)) {
      var n: nat :| Picks(c.tasks, c.current, n) && c' == Started(c.SetState(c.current, Ready), n);
      var d := c.SetState(c.current, Ready);
      forall i: nat
        ensures i < TASK_MAX ==>
                d.tasks[i].pml4 == c.tasks[i].pml4 && (Alive(d.tasks[i].state) <==> Alive(c.tasks[i].state))
      {
        assert TaskOk(c, i);
      }
      forall i: nat, j: nat
        ensures OwnSpace(d, i, j)
      {
        assert OwnSpace(c, i, j);
      }
      forall i: nat | i < TASK_MAX
        ensures TaskOk(c, i) && d.tasks[i].state != Running
      {
        assert TaskOk(c, i);
      }
      StartedKeeps(d, n);
    }
  }

  lemma StartKeeps(c: Cfg, c': Cfg)
    requires Inv(c) && c.current == NONE && StartStep(c, c')
    ensures Inv(c')
  {
    var n: nat :| Picks(c.tasks, NONE, n) && c' == Started(c, n);
    forall i: nat | i < TASK_MAX
      ensures TaskOk(c, i) && c.tasks[i].state != Running
    {
      assert TaskOk(c, i);
    }
    StartedKeeps(c, n);
  }

  /** When an address space is destroyed, CR3 has left it. */
  lemma ExitSafe(c: Cfg, code: int, n: nat)
    requires Inv(c) && c.current != NONE && IsReady(c.tasks, n)
    ensures n < TASK_MAX && n != c.current
    ensures var p := c.tasks[c.current].pml4; var d := Started(Ended(c, c.current, code), n);
            d.cr3 != p && d.cr3 == d.active == c.tasks[n].pml4 && p != c.kernel && p != 0
  {
    assert TaskOk(c, n) && TaskOk(c, c.current) && OwnSpace(c, n, c.current);
  }

  lemma ExitAlone(c: Cfg, code: int)
    requires Inv(c) && c.current != NONE && NoneReady(c.tasks)
    ensures Inv(Dropped(Ended(c, c.current, code).(active := c.kernel, cr3 := c.kernel), c.current).(current := NONE))
  {
    var t := c.current;
    var c' := Dropped(Ended(c, t, code).(active := c.kernel, cr3 := c.kernel), t).(current := NONE);
    assert TaskOk(c, t);
    forall i: nat
      ensures TaskOk(c', i)
    {
      assert TaskOk(c, i) && !IsReady(c.tasks, i);
    }
    forall i: nat, j: nat
      ensures OwnSpace(c', i, j)
    {
      assert OwnSpace(c, i, j);
    }
  }

  lemma ExitTo(c: Cfg, code: int, n: nat)
    requires Inv(c) && c.current != NONE && IsReady(c.tasks, n)
    ensures Inv(Dropped(Started(Ended(c, c.current, code), n), c.current))
  {
    var t := c.current;
    var c' := Dropped(Started(Ended(c, t, code), n), t);
    ExitSafe(c, code, n);
    assert TaskOk(c, t) && TaskOk(c, n);
    forall i: nat
      ensures TaskOk(c', i)
    {
      assert TaskOk(c, i) && OwnSpace(c, i, t);
    }
    forall i: nat, j: nat
      ensures OwnSpace(c', i, j)
    {
      assert OwnSpace(c, i, j);
    }
  }

  lemma SameReady(c: Cfg, code: int)
    requires Inv(c) && c.current != NONE
    ensures forall i :: IsReady(Ended(c, c.current, code).tasks, i) <==> IsReady(c.tasks, i)
  {
  }

  lemma ExitKeeps(c: Cfg, code: int, c': Cfg)
    requires Inv(c) && ExitStep(c, code, c')
    ensures Inv(c')
  {
    if c.current != NONE {
      SameReady(c, code);
      var e := Ended(c, c.current, code);
      hide Inv, Dropped, Started, Ended;
      if NoneReady(e.tasks) {
        ExitAlone(c, code);
      } else {
        var n: nat :| Picks(e.tasks, c.current, n) && c' == Dropped(Started(e, n), c.current);
        ExitTo(c, code, n);
      }
    }
  }

  lemma NewKeeps(c: Cfg, c': Cfg)
    requires Inv(c) && NewStep(c, c')
    ensures Inv(c')
  {
    forall i: nat
      ensures TaskOk(c', i)
    {
      assert TaskOk(c, i);
    }
    forall i: nat, j: nat
      ensures OwnSpace(c', i, j)
    {
      assert OwnSpace(c, i, j) && TaskOk(c, i) && TaskOk(c, j);
    }
  }

  lemma ReapKeeps(c: Cfg, c': Cfg)
    requires Inv(c) && ReapStep(c, c')
    ensures Inv(c')
  {
    forall i: nat
      ensures TaskOk(c', i)
    {
      assert TaskOk(c, i);
    }
    forall i: nat, j: nat
      ensures OwnSpace(c', i, j)
    {
      assert OwnSpace(c, i, j);
    }
  }

  // ----- runs -----

  ghost predicate Step(c: Cfg, c': Cfg)
    requires Inv(c)
  {
    || YieldStep(c, c') || (exists code :: ExitStep(c, code, c')) || (c.current == NONE && StartStep(c, c'))
    || NewStep(c, c') || ReapStep(c, c')
  }

  lemma StepKeeps(c: Cfg, c': Cfg)
    requires Inv(c) && Step(c, c')
    ensures Inv(c')
  {
    hide Inv, YieldStep, ExitStep, StartStep, NewStep, ReapStep;
    if YieldStep(c, c') {
      YieldKeeps(c, c');
    } else if exists code :: ExitStep(c, code, c') {
      var code :| ExitStep(c, code, c');
      ExitKeeps(c, code, c');
    } else if c.current == NONE && StartStep(c, c') {
      StartKeeps(c, c');
    } else if NewStep(c, c') {
      NewKeeps(c, c');
    } else {
      ReapKeeps(c, c');
    }
  }

  /** Consecutive configurations are steps, from one that is in order. */
  ghost predicate IsRun(run: seq<Cfg>)
  {
    |run| > 0 && Inv(run[0]) && forall i :: 0 <= i < |run| - 1 ==> Inv(run[i]) && Step(run[i], run[i + 1])
  }

  /** In every reachable configuration one task at most is running, it is the current one, and CR3
      holds its PML4, which has not been destroyed. */
  lemma {:induction false} RunInv(run: seq<Cfg>, i: nat)
    requires |run| > 0 && Inv(run[0]) && i < |run|
    requires forall k :: 0 <= k < |run| - 1 ==> Inv(run[k]) ==> Step(run[k], run[k + 1])
    ensures Inv(run[i])
  {
    if i > 0 {
      RunInv(run, i - 1);
      StepKeeps(run[i - 1], run[i]);
    }
  }

  // ----- what a parent learns -----

  /** An exit leaves a zombie with the code it was given, under the pid and the parent it had. */
  lemma ExitCode(c: Cfg, code: int, c': Cfg)
    requires Inv(c) && c.current != NONE && ExitStep(c, code, c')
    ensures |c'.tasks| == TASK_MAX &&
            c'.tasks[c.current] == c.tasks[c.current].(state := Zombie, code := code, pml4 := 0)
  {
    SameReady(c, code);
  }

  lemma StepZombie(c: Cfg, c': Cfg, t: nat)
    requires Inv(c) && Step(c, c') && t < TASK_MAX && c.tasks[t].state == Zombie
    ensures |c'.tasks| == TASK_MAX && (c'.tasks[t].state == Unused || c'.tasks[t] == c.tasks[t])
  {
    assert TaskOk(c, t);
    hide YieldStep, ExitStep;
    if YieldStep(c, c') {
      YieldZombie(c, c', t);
    } else if exists code :: ExitStep(c, code, c') {
      var code :| ExitStep(c, code, c');
      ExitZombie(c, code, c', t);
    }
  }

  lemma YieldZombie(c: Cfg, c': Cfg, t: nat)
    requires Inv(c) && YieldStep(c, c') && t < TASK_MAX && c.tasks[t].state == Zombie
    ensures |c'.tasks| == TASK_MAX && c'.tasks[t] == c.tasks[t]
  {
  }

  lemma ExitZombie(c: Cfg, code: int, c': Cfg, t: nat)
    requires Inv(c) && ExitStep(c, code, c') && t < TASK_MAX && c.tasks[t].state == Zombie
    ensures |c'.tasks| == TASK_MAX && c'.tasks[t] == c.tasks[t]
  {
    if c.current != NONE { SameReady(c, code); }
  }

  /** Whatever runs in between, the code a task exits with is in its slot until a parent has collected it. */
  lemma {:induction false} CodeWaits(run: seq<Cfg>, code: int, k: nat)
    requires IsRun(run) && 0 < k < |run| && run[0].current != NONE && ExitStep(run[0], code, run[1])
    requires forall i :: 0 < i <= k ==> |run[i].tasks| == TASK_MAX && run[i].tasks[run[0].current].state != Unused
    ensures run[k].tasks[run[0].current] == run[0].tasks[run[0].current].(state := Zombie, code := code, pml4 := 0)
  {
    if k == 1 {
      ExitCode(run[0], code, run[1]);
    } else {
      CodeWaits(run, code, k - 1);
      StepZombie(run[k - 1], run[k], run[0].current);
    }
  }

  // ----- fairness -----

  /** A step that makes another task current. */
  predicate Switches(c: Cfg, c': Cfg)
  {
    c'.current != c.current
  }

  /** The switches of a run. */
  function Count(run: seq<Cfg>): nat
  {
    if |run| < 2 then 0 else Count(run[..|run| - 1]) + (if Switches(run[|run| - 2], run[|run| - 1]) then 1 else 0)
  }

  /** How far the waiting task `j` is from its turn. */
  function Rank(c: Cfg, j: nat): int
    requires NONE <= c.current < TASK_MAX && j < TASK_MAX
  {
    Dist(c.current, j)
  }

  lemma Closer(from: int, n: nat, j: nat)
    requires -1 <= from < TASK_MAX && n < TASK_MAX && j < TASK_MAX && n != j && Dist(from, n) <= Dist(from, j)
    ensures Dist(n, j) < Dist(from, j)
  {
  }

  lemma ExitCloser(c: Cfg, code: int, c': Cfg, j: nat)
    requires Inv(c) && ExitStep(c, code, c') && Switches(c, c') && IsReady(c.tasks, j) && IsReady(c'.tasks, j)
    ensures j < TASK_MAX && NONE <= c'.current < TASK_MAX && Rank(c', j) < Rank(c, j)
  {
    SameReady(c, code);
    var e := Ended(c, c.current, code);
    assert IsReady(e.tasks, j);
    var n: nat :| Picks(e.tasks, c.current, n) && c' == Dropped(Started(e, n), c.current);
    assert TaskOk(c, j);
    Closer(c.current, n, j);
  }

  lemma YieldCloser(c: Cfg, c': Cfg, j: nat)
    requires Inv(c) && YieldStep(c, c') && Switches(c, c') && IsReady(c.tasks, j) && IsReady(c'.tasks, j)
    ensures j < TASK_MAX && NONE <= c'.current < TASK_MAX && Rank(c', j) < Rank(c, j)
  {
    assert TaskOk(c, j);
    var n: nat :| Picks(c.tasks, c.current, n) && c' == Started(c.SetState(c.current, Ready), n);
    Closer(c.current, n, j);
  }

  lemma StartCloser(c: Cfg, c': Cfg, j: nat)
    requires Inv(c) && c.current == NONE && StartStep(c, c') && IsReady(c.tasks, j) && IsReady(c'.tasks, j)
    ensures j < TASK_MAX && NONE <= c'.current < TASK_MAX && Rank(c', j) < Rank(c, j)
  {
    var n: nat :| Picks(c.tasks, NONE, n) && c' == Started(c, n);
    Closer(NONE, n, j);
  }

  /** A switch that does not choose the waiting task brings it closer to its turn. */
  lemma SwitchCloser(c: Cfg, c': Cfg, j: nat)
    requires Inv(c) && Step(c, c') && Switches(c, c') && IsReady(c.tasks, j) && IsReady(c'.tasks, j)
    ensures j < TASK_MAX && NONE <= c'.current < TASK_MAX && Rank(c', j) < Rank(c, j)
  {
    hide Inv, YieldStep, ExitStep, StartStep;
    InvFacts(c);
    if YieldStep(c, c') {
      YieldCloser(c, c', j);
    } else if exists code :: ExitStep(c, code, c') {
      var code :| ExitStep(c, code, c');
      ExitCloser(c, code, c', j);
    } else if c.current == NONE && StartStep(c, c') {
      StartCloser(c, c', j);
    }
  }

  /** While a task stays ready there are at most TASK_MAX - 2 switches, all to others, so it is switched to
      at switch TASK_MAX - 1 at the latest; a start with no current task may come before those. */
  lemma {:induction false} Fair(run: seq<Cfg>, j: nat)
    requires IsRun(run) && forall i :: 0 <= i < |run| ==> IsReady(run[i].tasks, j)
    ensures j < TASK_MAX && Inv(run[|run| - 1]) && Count(run) + Rank(run[|run| - 1], j) <= Rank(run[0], j)
    ensures Count(run) < if run[0].current != NONE then TASK_MAX - 1 else TASK_MAX
    decreases |run|
  {
    hide Inv, Step;
    InvFacts(run[0]);
    if |run| > 1 {
      var n := |run| - 1;
      var prev := run[..n];
      Fair(prev, j);
      assert prev[|prev| - 1] == run[n - 1];
      StepKeeps(run[n - 1], run[n]);
      InvFacts(run[n - 1]);
      InvFacts(run[n]);
      if Switches(run[n - 1], run[n]) { SwitchCloser(run[n - 1], run[n], j); }
    }
    RankBound(run[0], j);
    RankBound(run[|run| - 1], j);
  }

  lemma RankBound(c: Cfg, j: nat)
    requires Inv(c) && IsReady(c.tasks, j)
    ensures j < TASK_MAX && NONE <= c.current < TASK_MAX && 0 < Rank(c, j) < if c.current != NONE then TASK_MAX
            else TASK_MAX + 1
  {
    if c.current != NONE { assert TaskOk(c, c.current); }
  }

  lemma InvFacts(c: Cfg)
    requires Inv(c)
    ensures |c.tasks| == TASK_MAX && NONE <= c.current < TASK_MAX
  {
  }

  // ----- the methods -----

  class Scheduler {
    const tasks: array<Task>
    const kernel: nat      // the kernel template's PML4
    var current: int       // g_current
    var active: nat        // g_active_pml4
    var cr3: nat           // the register
    var pid: nat           // g_next_pid
    ghost var spaces: set<nat>

    /** task_init, with the kernel template loaded. */
    constructor (kernel: nat)
      requires kernel != 0
      ensures Valid() && fresh(tasks) && current == NONE && spaces == {kernel}
    {
      tasks := new Task[TASK_MAX](_ => Task(Unused, 0, NONE, 0, 0));
      this.kernel, current, active, cr3, pid := kernel, NONE, kernel, kernel, 1;
      spaces := {kernel};
    }

    ghost function C(): Cfg
      reads this, tasks
    {
      Cfg(tasks[..], current, active, cr3, pid, spaces, kernel)
    }

    ghost predicate Valid()
      reads this, tasks
    {
      Inv(C())
    }

    /** pick_next: the round-robin scan from the slot after `from`, or from 0. */
    method PickNext(from: int) returns (n: int)
      requires tasks.Length == TASK_MAX && -1 <= from < TASK_MAX
      ensures n == NONE ==> NoneReady(tasks[..])
      ensures n != NONE ==> Picks(tasks[..], from, n)
      ensures n > from ==> forall i :: from < i < n ==> tasks[i].state != Ready
      ensures 0 <= n <= from ==> forall i :: 0 <= i < n || from < i < TASK_MAX ==> tasks[i].state != Ready
    {
      var start := from + 1;
      var k := 0;
      while k < TASK_MAX
        invariant 0 <= k <= TASK_MAX && forall i :: 0 <= i < TASK_MAX && Dist(from, i) <= k ==> tasks[i].state != Ready
      {
        n := (start + k) % TASK_MAX;
        assert Dist(from, n) == k + 1;
        if tasks[n].state == Ready { return; }
        k := k + 1;
      }
      n := NONE;
    }

    /** paging_set_pml4. */
    method SetPml4(p: nat)
      modifies `cr3
      ensures cr3 == if p == 0 then old(cr3) else p
    {
      if p == 0 { return; }
      cr3 := p;
    }

    /** task_activate. */
    method Activate(n: nat)
      requires n < tasks.Length
      modifies `active, `cr3
      ensures C() == Activated(old(C()), n)
    {
      var p := tasks[n].pml4;
      if p != 0 && p != active {
        SetPml4(p);
        active := p;
      }
    }

    /** vmm_destroy_address_space, which must not be asked to free the tables CR3 points to. */
    method DestroySpace(p: nat)
      requires p != 0 && p != kernel ==> p != cr3
      modifies `spaces
      ensures C() == Destroyed(old(C()), p)
    {
      if p == 0 || p == kernel { return; }
      spaces := spaces - {p};
    }

    /** Makes the ready task `n` the running one. */
    method Run(n: nat)
      requires n < tasks.Length
      modifies this, tasks
      ensures C() == Started(old(C()), n)
    {
      tasks[n] := tasks[n].(state := Running);
      current := n;
      Activate(n);
    }

    /** task_yield. */
    method Yield()
      requires Valid()
      modifies this, tasks
      ensures Valid() && YieldStep(old(C()), C())
      ensures forall i {:trigger tasks[i]} :: 0 <= i < TASK_MAX ==>
                tasks[i] == if current == old(current) then old(tasks[i])
                  else old(tasks[i]).(state := if i == current then Running else if i == old(current) then Ready
                                               else old(tasks[i]).state)
      ensures current == old(current) <==> old(current) == NONE || NoneReady(old(tasks[..]))
      ensures current > old(current) ==> forall i :: old(current) < i < current ==> old(tasks[i].state) != Ready
      ensures 0 <= current < old(current) ==>
              forall i :: 0 <= i < current || old(current) < i < TASK_MAX ==> old(tasks[i].state) != Ready
    {
      ghost var c := C();
      var t := current;
      if t == NONE { return; }
      assert !IsReady(c.tasks, t);
      var n := PickNext(t);
      if n == NONE || n == t { return; }
      tasks[t] := tasks[t].(state := Ready);
      Run(n);
      assert Picks(c.tasks, t, n) && C() == Started(c.SetState(t, Ready), n);
      YieldKeeps(c, C());
    }

    /** task_start_user; false where the source panics for want of a task. */
    method StartUser() returns (ok: bool)
      requires Valid() && current == NONE
      modifies this, tasks
      ensures Valid() && (ok <==> !NoneReady(old(tasks[..])))
      ensures if ok then StartStep(old(C()), C()) else C() == old(C())
    {
      ghost var c := C();
      var n := PickNext(NONE);
      if n == NONE { return false; }
      Run(n);
      assert Picks(c.tasks, NONE, n) && IsReady(c.tasks, n) && C() == Started(c, n);
      StartKeeps(c, C());
      ok := true;
    }

    /** task_exit_current, less the files: the address space is destroyed only after CR3 has moved. */
    method Exit(code: int) returns (idle: bool)
      requires Valid()
      modifies this, tasks
      ensures Valid() && ExitStep(old(C()), code, C())
      ensures idle <==> old(current) != NONE && current == NONE
      ensures old(current) != NONE ==>
              && tasks[old(current)] == old(tasks[current]).(state := Zombie, code := code, pml4 := 0)
              && spaces == old(spaces) - {old(tasks[current].pml4)}
              && forall i :: 0 <= i < TASK_MAX && i != old(current) && i != current ==> tasks[i] == old(tasks[i])
    {
      ghost var c := C();
      var t := current;
      idle := false;
      if t == NONE { return; }
      assert TaskOk(c, t);
      tasks[t] := tasks[t].(state := Zombie, code := code);
      ghost var e := C();
      assert e == Ended(c, t, code);
      SameReady(c, code);
      var n := PickNext(t);
      if n == NONE {
        if active != kernel {
          SetPml4(kernel);
          active := kernel;
        }
        Drop(t);
        current := NONE;
        idle := true;
      } else {
        Run(n);
        assert IsReady(c.tasks, n);
        ExitSafe(c, code, n);
        Drop(t);
        assert Picks(e.tasks, t, n) && C() == Dropped(Started(e, n), t);
      }
      ExitKeeps(c, code, C());
    }

    /** The address space of the zombie in slot `t` goes. */
    method Drop(t: nat)
      requires t < tasks.Length && tasks[t].pml4 != cr3
      modifies this, tasks
      ensures C() == Dropped(old(C()), t)
    {
      DestroySpace(tasks[t].pml4);
      tasks[t] := tasks[t].(pml4 := 0);
    }

    method AllocSlot() returns (i: int)
      requires tasks.Length == TASK_MAX
      ensures i == NONE ==> forall k :: 0 <= k < TASK_MAX ==> tasks[k].state != Unused
      ensures i != NONE ==> 0 <= i < TASK_MAX && tasks[i].state == Unused
    {
      i := 0;
      while i < TASK_MAX
        invariant 0 <= i <= TASK_MAX && forall k :: 0 <= k < i ==> tasks[k].state != Unused
      {
        if tasks[i].state == Unused { return; }
        i := i + 1;
      }
      i := NONE;
    }

    /** task_fork: `stack` and `space` are what the kernel stack allocation and
        vmm_copy_user_page_tables came back with, 0 for failure. */
    method Fork(parent: nat, stack: nat, space: nat) returns (child: int)
      requires Valid() && parent < TASK_MAX && (space != 0 ==> space !in spaces)
      modifies this, tasks
      ensures Valid()
      ensures child != NONE <==>
              stack != 0 && space != 0 && exists k :: 0 <= k < TASK_MAX && old(tasks[k].state) == Unused
      ensures child == NONE ==> C() == old(C()) || NewStep(old(C()), C())
      ensures child != NONE ==>
              NewStep(old(C()), C()) && 0 <= child < TASK_MAX && tasks[child] == Task(Ready, old(pid), parent, space, 0)
    {
      ghost var c := C();
      child := AllocSlot();
      if child == NONE { return; }
      var t := tasks[parent].(pid := pid, parent := parent, state := Ready, code := 0, pml4 := 0);
      pid := pid + 1;
      if stack == 0 || space == 0 {
        tasks[child] := t.(state := Unused);
        NewKeeps(c, C()) by { assert c.tasks[child].state == Unused &&
          C() == c.(tasks := c.tasks[child := t.(state := Unused)], pid := c.pid + 1); }
        return NONE;
      }
      tasks[child] := t.(pml4 := space);
      spaces := spaces + {space};
      assert C() == c.(tasks := c.tasks[child := t.(pml4 := space)], pid := c.pid + 1, spaces := c.spaces + {space});
      NewKeeps(c, C());
    }

    /** task_wait: the first zombie child is reaped and its pid returned with its status; 0 if there are
        only live children, -1 if there are none or no current task. */
    method Wait(want: int) returns (r: int, status: int)
      requires Valid()
      modifies this, tasks
      ensures Valid()
      ensures var c := old(C());
              if c.current == NONE || forall i: nat :: !IsChild(c, i, want) then r == -1 && C() == c
              else if forall i: nat :: !IsZombieChild(c, i, want) then r == 0 && C() == c
              else exists i: nat ::
                IsZombieChild(c, i, want) && (forall k: nat :: k < i ==> !IsZombieChild(c, k, want)) &&
                     r == c.tasks[i].pid && status == c.tasks[i].code % 256 * 256 && C() == c.SetState(i, Unused)
    {
      ghost var c := C();
      status := 0;
      var parent := current;
      if parent == NONE { return -1, 0; }
      var pid := if want < -1 then -want else if want < 0 then 0 else want;
      var alive := false;
      var i := 0;
      while i < TASK_MAX
        invariant 0 <= i <= TASK_MAX && C() == c
        invariant alive <==> exists k: nat :: k < i && IsChild(c, k, want)
        invariant forall k: nat :: k < i ==> !IsZombieChild(c, k, want)
      {
        if tasks[i].state != Unused && tasks[i].parent == parent && (pid > 0 ==> tasks[i].pid == pid) {
          assert IsChild(c, i, want);
          if tasks[i].state == Zombie {
            r := tasks[i].pid;
            status := tasks[i].code % 256 * 256;
            tasks[i] := tasks[i].(state := Unused);
            assert IsZombieChild(c, i, want) && C() == c.SetState(i, Unused);
            ReapKeeps(c, C());
            return;
          }
          alive := true;
        }
        i := i + 1;
      }
      r := if alive then 0 else -1;
    }
  }

  /** Slot `i` is a child of the current task that `want` means: -1 and 0 any child, a positive number the child
      with that pid, a group number the child with its absolute value. */
  predicate IsChild(c: Cfg, i: nat, want: int)
  {
    && i < |c.tasks| && c.tasks[i].state != Unused && c.tasks[i].parent == c.current
    && (want == -1 || want == 0 || c.tasks[i].pid == want || c.tasks[i].pid == -want)
  }

  predicate IsZombieChild(c: Cfg, i: nat, want: int)
  {
    IsChild(c, i, want) && c.tasks[i].state == Zombie
  }
}
