/**
 What the calls of kernel/proc.c and kernel/sleeplock.c do as a whole, when the CPU that executes
 one goes on without being held up: each is a run of that CPU's own steps to a state that is
 written out in full.
 */
module SchedCalls {
  import opened Sched
  import opened SchedRuns

  /** n steps of CPU c lead from s to s'. */
  ghost predicate Alone(s: State, c: nat, n: nat, s': State)
    decreases n
  {
    if n == 0 then s' == s else Shape(s) && Enabled(s, c, Go) && Alone(Next(s, c, Go), c, n - 1, s')
  }

  lemma {:induction false} AloneOn(s: State, c: nat, m: nat, s1: State, n: nat, s2: State)
    requires Alone(s, c, m, s1) && Alone(s1, c, n, s2)
    ensures Alone(s, c, m + n, s2)
    decreases m
  {
    hide Enabled, Next, Shape;
    if m > 0 {
      AloneOn(Next(s, c, Go), c, m - 1, s1, n, s2);
    }
  }

  /** Such steps are a run. */
  lemma {:induction false} AloneRuns(s: State, c: nat, n: nat, s': State) returns (turns: seq<Turn>)
    requires Alone(s, c, n, s')
    ensures Runs(s, turns, s') && |turns| == n && forall k :: 0 <= k < n ==> turns[k] == Turn(c, Go)
    decreases n
  {
    hide Enabled, Next, Shape;
    if n == 0 {
      turns := [];
    } else {
      var rest := AloneRuns(Next(s, c, Go), c, n - 1, s');
      turns := [Turn(c, Go)] + rest;
      assert turns[1..] == rest;
    }
  }

  lemma {:induction false} AloneInv(s: State, c: nat, n: nat, s': State)
    requires Inv(s) && Alone(s, c, n, s')
    ensures Inv(s')
    decreases n
  {
    hide Inv, Enabled, Next, Shape;
    if n > 0 {
      assert Shape(s) && Enabled(s, c, Go);
      NextInv(s, c, Go);
      AloneInv(Next(s, c, Go), c, n - 1, s');
    }
  }

  lemma AloneNone(s: State, c: nat)
    ensures Alone(s, c, 0, s)
  {
  }

  /** One step, and then the others. */
  lemma Then(s: State, c: nat, s1: State, n: nat, s': State)
    requires Shape(s) && Enabled(s, c, Go) && s1 == Next(s, c, Go) && Alone(s1, c, n, s')
    ensures Alone(s, c, n + 1, s')
  {
    hide Enabled, Next, Shape;
  }

  lemma ShapeNext(s: State, c: nat)
    requires Inv(s) && Enabled(s, c, Go)
    ensures Inv(Next(s, c, Go)) && Shape(Next(s, c, Go))
  {
    hide Enabled, Next, Owners, Dispatched, StatesOk, Forks, LockFacts, Wakeups;
    NextInv(s, c, Go);
  }

  /** CPU c executes process p, which is at pc. */
  ghost predicate Doing(s: State, c: nat, p: nat, pc: Pc) {
    && Inv(s) && c < |s.cpus| && p < |s.procs| == |s.plock| == |s.on| == |s.forker|
    && s.cpus[c].mode == InProc(p) && s.procs[p].pc == pc
  }

  // acquiresleep and sleep.

  function Locked(s: State, p: nat, l: nat): State
    requires p < |s.procs| && l < |s.sl|
  {
    s.(procs := s.procs[p := s.procs[p].(pc := User)], sl := s.sl[l := SleepLock(NONE, true, p)])
  }

  /** acquiresleep of a lock that is free: the process has it. */
  lemma TakesLock(s: State, c: nat, p: nat, l: nat)
    requires Doing(s, c, p, AsAcq(l)) && l < |s.sl| && s.sl[l].spin == NONE && !s.sl[l].locked
    ensures Alone(s, c, 4, Locked(s, p, l))
  {
    hide Owners, Dispatched, StatesOk, Forks, LockFacts, Wakeups, Alone;
    var s1 := Next(s, c, Go);
    ShapeNext(s, c);
    var s2 := Next(s1, c, Go);
    ShapeNext(s1, c);
    var s3 := Next(s2, c, Go);
    ShapeNext(s2, c);
    var s4 := Next(s3, c, Go);
    AloneNone(s4, c);
    Then(s3, c, s4, 0, s4);
    Then(s2, c, s3, 1, s4);
    Then(s1, c, s2, 2, s4);
    Then(s, c, s1, 3, s4);
    assert s4 == Locked(s, p, l);
  }

  function After(s: State, i: nat): nat {
    if i + 1 < |s.procs| then i + 1 else 0
  }

  /** The state once p has left CPU c in state st, to go on at pc: the scheduler goes on with the process after it. */
  function Left(s: State, c: nat, p: nat, pr: Proc): State
    requires c < |s.cpus| && p < |s.procs| == |s.on|
  {
    s.(procs := s.procs[p := pr], cpus := s.cpus[c := Cpu(NONE, InSched(ScAcq(After(s, p))))], on := s.on[p := NONE])
  }

  /** Process p, back on CPU c, goes on at pc with its own lock released. */
  function Resumed(s: State, p: nat, pr: Proc): State
    requires p < |s.procs| == |s.plock|
  {
    s.(procs := s.procs[p := pr], plock := s.plock[p := NONE])
  }

  function At(s: State, p: nat, pc: Pc): State
    requires p < |s.procs|
  {
    s.(procs := s.procs[p := s.procs[p].(pc := pc)])
  }

  /** acquiresleep of a lock that is taken: the process sleeps on it, and its CPU goes on with the next. */
  lemma GoesToSleep(s: State, c: nat, p: nat, l: nat)
    requires Doing(s, c, p, AsAcq(l)) && l < |s.sl| && s.sl[l].spin == NONE && s.sl[l].locked && s.plock[p] == NONE
    ensures Alone(s, c, 8, Left(s, c, p, Proc(Sleeping, l, SlBack(l))))
  {
    hide Owners, Dispatched, StatesOk, Forks, LockFacts, Wakeups, Alone;
    var s1 := Next(s, c, Go);
    ShapeNext(s, c);
    var s2 := Next(s1, c, Go);
    ShapeNext(s1, c);
    var s3 := Next(s2, c, Go);
    ShapeNext(s2, c);
    var s4 := Next(s3, c, Go);
    ShapeNext(s3, c);
    var s5 := Next(s4, c, Go);
    ShapeNext(s4, c);
    var s6 := Next(s5, c, Go);
    ShapeNext(s5, c);
    var s7 := Next(s6, c, Go);
    ShapeNext(s6, c);
    var s8 := Next(s7, c, Go);
    AloneNone(s8, c);
    Then(s7, c, s8, 0, s8);
    Then(s6, c, s7, 1, s8);
    Then(s5, c, s6, 2, s8);
    Then(s4, c, s5, 3, s8);
    Then(s3, c, s4, 4, s8);
    Then(s2, c, s3, 5, s8);
    Then(s1, c, s2, 6, s8);
    Then(s, c, s1, 7, s8);
    assert s8 == Left(s, c, p, Proc(Sleeping, l, SlBack(l)));
  }

  /** Back from sleep, acquiresleep tests again. */
  lemma TriesAgain(s: State, c: nat, p: nat, l: nat)
    requires Doing(s, c, p, SlBack(l))
    ensures Alone(s, c, 2, Resumed(s, p, s.procs[p].(chan := NONE, pc := AsAcq(l))))
  {
    hide Owners, Dispatched, StatesOk, Forks, LockFacts, Wakeups, Alone;
    var s1 := Next(s, c, Go);
    ShapeNext(s, c);
    var s2 := Next(s1, c, Go);
    AloneNone(s2, c);
    Then(s1, c, s2, 0, s2);
    Then(s, c, s1, 1, s2);
    assert s2 == Resumed(s, p, s.procs[p].(chan := NONE, pc := AsAcq(l)));
  }

  // releasesleep and wakeup.

  function Roused(pr: Proc, l: nat): Proc {
    if pr.state == Sleeping && pr.chan == l then pr.(state := Runnable) else pr
  }

  /** wakeup(l) by p, from process i on. */
  function Woken(procs: seq<Proc>, p: nat, l: nat, i: nat): seq<Proc> {
    seq(|procs|, q requires 0 <= q < |procs| => if i <= q && q != p then Roused(procs[q], l) else procs[q])
  }

  function WokenOne(s: State, p: nat, l: nat, i: nat): State
    requires p < |s.procs| && i < |s.procs|
  {
    s.(procs := s.procs[i := Roused(s.procs[i], l)][p := s.procs[p].(pc := WkAcq(l, i + 1))])
  }

  /** One turn of wakeup's loop. */
  lemma WakesOne(s: State, c: nat, p: nat, l: nat, i: nat)
    requires Doing(s, c, p, WkAcq(l, i)) && i < |s.procs| && i != p && s.plock[i] == NONE
    ensures Alone(s, c, 3, WokenOne(s, p, l, i))
  {
    hide Owners, Dispatched, StatesOk, Forks, LockFacts, Wakeups, Alone;
    var s1 := Next(s, c, Go);
    ShapeNext(s, c);
    var s2 := Next(s1, c, Go);
    ShapeNext(s1, c);
    var s3 := Next(s2, c, Go);
    AloneNone(s3, c);
    Then(s2, c, s3, 0, s3);
    Then(s1, c, s2, 1, s3);
    Then(s, c, s1, 2, s3);
    assert s3 == WokenOne(s, p, l, i);
  }

  ghost predicate AllFree(plock: seq<int>) {
    forall q :: 0 <= q < |plock| ==> plock[q] == NONE
  }

  /** wakeup, from process i on. */
  lemma {:induction false} WakesAll(s: State, c: nat, p: nat, l: nat, i: nat) returns (n: nat)
    requires Doing(s, c, p, WkAcq(l, i)) && i <= |s.procs| && AllFree(s.plock)
    ensures Alone(s, c, n, s.(procs := Woken(s.procs, p, l, i)[p := s.procs[p].(pc := RsRel(l))]))
    decreases |s.procs| - i
  {
    hide Owners, Dispatched, StatesOk, Forks, LockFacts, Wakeups, Alone;
    var s1 := Next(s, c, Go);
    if i == |s.procs| {
      n := 1;
      AloneNone(s1, c);
      Then(s, c, s1, 0, s1);
      assert Woken(s.procs, p, l, i) == s.procs;
    } else if i == p {
      ShapeNext(s, c);
      n := WakesAll(s1, c, p, l, i + 1);
      Then(s, c, s1, n, s1.(procs := Woken(s1.procs, p, l, i + 1)[p := s1.procs[p].(pc := RsRel(l))]));
      assert Woken(s1.procs, p, l, i + 1)[p := s1.procs[p].(pc := RsRel(l))]
          == Woken(s.procs, p, l, i)[p := s.procs[p].(pc := RsRel(l))];
      n := n + 1;
    } else {
      WakesOne(s, c, p, l, i);
      var s3 := WokenOne(s, p, l, i);
      AloneInv(s, c, 3, s3);
      n := WakesAll(s3, c, p, l, i + 1);
      var end := s3.(procs := Woken(s3.procs, p, l, i + 1)[p := s3.procs[p].(pc := RsRel(l))]);
      AloneOn(s, c, 3, s3, n, end);
      assert Woken(s3.procs, p, l, i + 1)[p := s3.procs[p].(pc := RsRel(l))]
          == Woken(s.procs, p, l, i)[p := s.procs[p].(pc := RsRel(l))];
      n := 3 + n;
    }
  }

  function Freed(s: State, p: nat, l: nat): State
    requires p < |s.procs| && l < |s.sl|
  {
    s.(procs := Woken(s.procs, p, l, 0)[p := s.procs[p].(pc := User)], sl := s.sl[l := SleepLock(NONE, false, NONE)])
  }

  /** releasesleep: the lock is free, and every process that slept on it can run; nothing else has changed. */
  lemma GivesLockUp(s: State, c: nat, p: nat, l: nat) returns (n: nat)
    requires Doing(s, c, p, RsAcq(l)) && l < |s.sl| && s.sl[l].spin == NONE && AllFree(s.plock)
    ensures Alone(s, c, n, Freed(s, p, l))
  {
    hide Owners, Dispatched, StatesOk, Forks, LockFacts, Wakeups, Alone;
    var s1 := Next(s, c, Go);
    ShapeNext(s, c);
    var s2 := Next(s1, c, Go);
    ShapeNext(s1, c);
    n := WakesAll(s2, c, p, l, 0);
    var s3 := s2.(procs := Woken(s2.procs, p, l, 0)[p := s2.procs[p].(pc := RsRel(l))]);
    AloneInv(s2, c, n, s3);
    var s4 := Next(s3, c, Go);
    AloneNone(s4, c);
    Then(s3, c, s4, 0, s4);
    AloneOn(s2, c, n, s3, 1, s4);
    Then(s1, c, s2, n + 1, s4);
    Then(s, c, s1, n + 2, s4);
    assert s4 == Freed(s, p, l);
    n := n + 3;
  }

  // round_robin.

  /** How many turns of the loop lead from process i to process j, of n. */
  function Ahead(n: nat, i: nat, j: nat): nat
    requires i < n && j < n
  {
    if i <= j then j - i else j + n - i
  }

  /** Of the processes from i on, round to those before it, j is the first that can run. */
  predicate FirstReady(procs: seq<Proc>, i: nat, j: nat)
    requires i < |procs| && j < |procs|
  {
    && procs[j].state == Runnable
    && forall k :: 0 <= k < |procs| && Ahead(|procs|, i, k) < Ahead(|procs|, i, j) ==> procs[k].state != Runnable
  }

  /** CPU c is in its scheduler, about to look at process i. */
  ghost predicate Looking(s: State, c: nat, i: nat) {
    Inv(s) && c < |s.cpus| && i < |s.procs| && s.cpus[c].mode == InSched(ScAcq(i))
  }

  /** Process j has been dispatched on CPU c, which still holds its lock. */
  function Switched(s: State, c: nat, j: nat): State
    requires c < |s.cpus| && j < |s.procs| == |s.plock| == |s.on|
  {
    s.(procs := s.procs[j := s.procs[j].(state := Running)], cpus := s.cpus[c := Cpu(j, InProc(j))],
      plock := s.plock[j := c], on := s.on[j := c])
  }

  lemma TurnsTo(s: State, c: nat, i: nat)
    requires Looking(s, c, i) && s.plock[i] == NONE && s.procs[i].state == Runnable
    ensures Alone(s, c, 2, Switched(s, c, i))
  {
    hide Owners, Dispatched, StatesOk, Forks, LockFacts, Wakeups, Alone;
    var s1 := Next(s, c, Go);
    ShapeNext(s, c);
    var s2 := Next(s1, c, Go);
    AloneNone(s2, c);
    Then(s1, c, s2, 0, s2);
    Then(s, c, s1, 1, s2);
    assert s2 == Switched(s, c, i);
  }

  lemma PassesBy(s: State, c: nat, i: nat)
    requires Looking(s, c, i) && s.plock[i] == NONE && s.procs[i].state != Runnable
    ensures Alone(s, c, 3, SetMode(s, c, InSched(ScAcq(After(s, i)))))
  {
    hide Owners, Dispatched, StatesOk, Forks, LockFacts, Wakeups, Alone;
    var s1 := Next(s, c, Go);
    ShapeNext(s, c);
    var s2 := Next(s1, c, Go);
    ShapeNext(s1, c);
    var s3 := Next(s2, c, Go);
    AloneNone(s3, c);
    Then(s2, c, s3, 0, s3);
    Then(s1, c, s2, 1, s3);
    Then(s, c, s1, 2, s3);
    assert s3 == SetMode(s, c, InSched(ScAcq(After(s, i))));
  }

  /**
   The scheduler loop, with no p->lock in its way, comes to the first process that can run, in at
   most three steps for each it looks at, and dispatches it; it changes no other.
   */
  lemma {:induction false} Schedules(s: State, c: nat, i: nat, j: nat)
    requires Looking(s, c, i) && AllFree(s.plock) && j < |s.procs| && FirstReady(s.procs, i, j)
    ensures Alone(s, c, 3 * Ahead(|s.procs|, i, j) + 2, Switched(s, c, j))
    decreases Ahead(|s.procs|, i, j)
  {
    hide Owners, Dispatched, StatesOk, Forks, LockFacts, Wakeups, Alone;
    if i == j {
      TurnsTo(s, c, i);
    } else {
      assert Ahead(|s.procs|, i, i) == 0;
      PassesBy(s, c, i);
      var s3 := SetMode(s, c, InSched(ScAcq(After(s, i))));
      AloneInv(s, c, 3, s3);
      OneFewer(s.procs, i, After(s, i), j);
      Schedules(s3, c, After(s, i), j);
      AloneOn(s, c, 3, s3, 3 * Ahead(|s.procs|, After(s, i), j) + 2, Switched(s3, c, j));
      assert Switched(s3, c, j) == Switched(s, c, j);
    }
  }

  /** If a process can run there is a first one. */
  lemma {:induction false} SomeFirst(procs: seq<Proc>, i: nat, j: nat) returns (d: nat)
    requires i < |procs| && j < |procs| && procs[j].state == Runnable
    ensures d < |procs| && FirstReady(procs, i, d)
    decreases Ahead(|procs|, i, j)
  {
    d := j;
    if !FirstReady(procs, i, j) {
      var k :| 0 <= k < |procs| && Ahead(|procs|, i, k) < Ahead(|procs|, i, j) && procs[k].state == Runnable;
      d := SomeFirst(procs, i, k);
    }
  }

  /** A CPU in its scheduler holds no p->lock only where it goes to the next process. */
  lemma IsLooking(s: State, c: nat) returns (i: nat)
    requires Inv(s) && c < |s.cpus| && s.cpus[c].mode.InSched? && AllFree(s.plock)
    ensures Looking(s, c, i)
  {
    hide Dispatched, StatesOk, Forks, LockFacts, Wakeups;
    var held := CpuPLock(s, c);
    i := s.cpus[c].mode.at.i;
  }

  /**
   No CPU idles while a process can run: in a reachable state with all p->locks free, its scheduler's
   own steps, at most three to a process, end in a process that could run, and so in j if only j could.
   */
  lemma DispatchesSome(s: State, c: nat, j: nat) returns (i: nat, d: nat, turns: seq<Turn>)
    requires Reachable(s) && c < |s.cpus| && s.cpus[c].mode.InSched? && AllFree(s.plock)
    requires j < |s.procs| == |s.plock| == |s.on| && s.procs[j].state == Runnable
    ensures s.cpus[c].mode == InSched(ScAcq(i)) && i < |s.procs| && d < |s.procs| && FirstReady(s.procs, i, d)
    ensures Runs(s, turns, Switched(s, c, d)) && |turns| <= 3 * |s.procs|
    ensures forall k :: 0 <= k < |turns| ==> turns[k] == Turn(c, Go)
  {
    hide Inv, Alone, Runs;
    ReachableInv(s);
    i := IsLooking(s, c);
    d := SomeFirst(s.procs, i, j);
    Schedules(s, c, i, d);
    turns := AloneRuns(s, c, 3 * Ahead(|s.procs|, i, d) + 2, Switched(s, c, d));
  }

  lemma OneFewer(procs: seq<Proc>, i: nat, i': nat, j: nat)
    requires i < |procs| && j < |procs| && i != j && i' == (if i + 1 < |procs| then i + 1 else 0)
    requires FirstReady(procs, i, j)
    ensures Ahead(|procs|, i', j) + 1 == Ahead(|procs|, i, j) && FirstReady(procs, i', j)
  {
    forall k | 0 <= k < |procs| && Ahead(|procs|, i', k) < Ahead(|procs|, i', j) ensures procs[k].state != Runnable {
      assert k != i ==> Ahead(|procs|, i, k) == Ahead(|procs|, i', k) + 1;
    }
  }

  // yield, and the switch back.

  /** A process that is interrupted can run again later, and its CPU goes on with the next. */
  lemma Yields(s: State, c: nat, p: nat, k: Pc)
    requires Doing(s, c, p, k) && Enabled(s, c, Preempt) && s.plock[p] == NONE
    ensures Alone(Next(s, c, Preempt), c, 5, Left(s, c, p, s.procs[p].(state := Runnable, pc := YieldBack(k))))
  {
    NextInv(s, c, Preempt);
    YieldsOn(Next(s, c, Preempt), c, p, k);
    assert Left(Next(s, c, Preempt), c, p, s.procs[p].(state := Runnable, pc := YieldBack(k)))
        == Left(s, c, p, s.procs[p].(state := Runnable, pc := YieldBack(k)));
  }

  /** yield. */
  lemma YieldsOn(s: State, c: nat, p: nat, k: Pc)
    requires Doing(s, c, p, YieldAcq(k)) && s.plock[p] == NONE
    ensures Alone(s, c, 5, Left(s, c, p, s.procs[p].(state := Runnable, pc := YieldBack(k))))
  {
    hide Owners, Dispatched, StatesOk, Forks, LockFacts, Wakeups, Alone;
    var s1 := Next(s, c, Go);
    ShapeNext(s, c);
    var s2 := Next(s1, c, Go);
    ShapeNext(s1, c);
    var s3 := Next(s2, c, Go);
    ShapeNext(s2, c);
    var s4 := Next(s3, c, Go);
    ShapeNext(s3, c);
    var s5 := Next(s4, c, Go);
    AloneNone(s5, c);
    Then(s4, c, s5, 0, s5);
    Then(s3, c, s4, 1, s5);
    Then(s2, c, s3, 2, s5);
    Then(s1, c, s2, 3, s5);
    Then(s, c, s1, 4, s5);
    assert s5 == Left(s, c, p, s.procs[p].(state := Runnable, pc := YieldBack(k)));
  }

  /** Back on a CPU, it goes on where it was. */
  lemma GoesOnWith(s: State, c: nat, p: nat, k: Pc)
    requires Doing(s, c, p, YieldBack(k))
    ensures Alone(s, c, 1, Resumed(s, p, s.procs[p].(pc := k)))
  {
    hide Owners, Dispatched, StatesOk, Forks, LockFacts, Wakeups, Alone;
    var s1 := Next(s, c, Go);
    AloneNone(s1, c);
    Then(s, c, s1, 0, s1);
    assert s1 == Resumed(s, p, s.procs[p].(pc := k));
  }

  /** A process that has never run begins in user mode. */
  lemma Begins(s: State, c: nat, p: nat)
    requires Doing(s, c, p, ForkRet)
    ensures Alone(s, c, 1, Resumed(s, p, s.procs[p].(pc := User)))
  {
    hide Owners, Dispatched, StatesOk, Forks, LockFacts, Wakeups, Alone;
    var s1 := Next(s, c, Go);
    AloneNone(s1, c);
    Then(s, c, s1, 0, s1);
    assert s1 == Resumed(s, p, s.procs[p].(pc := User));
  }

  // kill, fork, wait and exit.

  /** Process q has become pr, and p goes on at pc. */
  function Changed(s: State, p: nat, q: nat, pr: Proc, pc: Pc): State
    requires p < |s.procs| && q < |s.procs|
  {
    s.(procs := s.procs[q := pr][p := s.procs[p].(pc := pc)])
  }

  /** A step of CPU c leads from s to s1. */
  ghost predicate Goes(s: State, c: nat, s1: State) {
    Inv(s) && Enabled(s, c, Go) && s1 == Next(s, c, Go) && Inv(s1)
  }

  lemma GoesThen(s: State, c: nat, s1: State, n: nat, s': State)
    requires Goes(s, c, s1) && Alone(s1, c, n, s')
    ensures Alone(s, c, n + 1, s')
  {
    hide Enabled, Next, Alone, Owners, Dispatched, StatesOk, Forks, LockFacts, Wakeups;
    Then(s, c, s1, n, s');
  }

  /** Three steps: the lock of q is acquired, something is done under it, and it is released. */
  lemma ThreeSteps(s: State, c: nat, s1: State, s2: State, s3: State)
    requires Goes(s, c, s1) && Goes(s1, c, s2) && Goes(s2, c, s3)
    ensures Alone(s, c, 3, s3)
  {
    hide Goes, Alone;
    AloneNone(s3, c);
    GoesThen(s2, c, s3, 0, s3);
    GoesThen(s1, c, s2, 1, s3);
    GoesThen(s, c, s1, 2, s3);
  }

  function Entered(pc: Pc): Pc {
    match pc
    case KlAcq(q) => KlSet(q)
    case RpAcq(q) => RpTest(q)
    case FkAcq(q) => FkTest(q)
    case FkAcq2(q) => FkSet(q)
    case _ => pc
  }

  lemma AcquiresOf(s: State, c: nat, p: nat, q: nat, pc: Pc)
    requires Doing(s, c, p, pc) && (pc == KlAcq(q) || pc == RpAcq(q) || pc == FkAcq(q) || pc == FkAcq2(q))
    requires q < |s.procs| && s.plock[q] == NONE
    ensures Goes(s, c, SetPc(SetP(s, q, c), p, Entered(pc)))
  {
    hide Owners, Dispatched, StatesOk, Forks, LockFacts, Wakeups;
    ShapeNext(s, c);
  }

  lemma ReleasesOf(s: State, c: nat, p: nat, q: nat, pc: Pc)
    requires Doing(s, c, p, pc) && (pc == QRel(q) || pc == FkRel(q)) && q < |s.procs|
    ensures Goes(s, c, SetPc(SetP(s, q, NONE), p, if pc.QRel? then User else FkAcq2(q)))
  {
    hide Owners, Dispatched, StatesOk, Forks, LockFacts, Wakeups;
    ShapeNext(s, c);
  }

  /** What is done under the lock of q. */
  lemma DoesUnder(s: State, c: nat, p: nat, q: nat, pc: Pc)
    requires Doing(s, c, p, pc) && q < |s.procs| && q != p
    ensures pc == KlSet(q) ==> Goes(s, c, Changed(s, p, q, Killed(s.procs[q]), QRel(q)))
    ensures pc == RpTest(q) ==> Goes(s, c, Changed(s, p, q, Reaped(s.procs[q]), QRel(q)))
    ensures pc == FkSet(q) ==>
              Goes(s, c, Changed(s, p, q, s.procs[q].(state := Runnable), QRel(q)).(forker := s.forker[q := NONE]))
    ensures pc == FkTest(q) && s.procs[q].state == Unused ==>
              Goes(s, c, Changed(s, p, q, Proc(Used, NONE, ForkRet), FkRel(q)).(forker := s.forker[q := p]))
    ensures pc == FkTest(q) && s.procs[q].state != Unused ==> Goes(s, c, Changed(s, p, q, s.procs[q], QRel(q)))
  {
    hide Owners, Dispatched, StatesOk, Forks, LockFacts, Wakeups;
    if pc == KlSet(q) || pc == RpTest(q) || pc == FkSet(q) || pc == FkTest(q) {
      ShapeNext(s, c);
      var same := s.procs[q := s.procs[q]];
      assert same == s.procs;
    }
  }

  function Killed(pr: Proc): Proc {
    if pr.state == Sleeping then pr.(state := Runnable) else pr
  }

  function Reaped(pr: Proc): Proc {
    if pr.state == Zombie then pr.(state := Unused) else pr
  }

  lemma GoesInv(s: State, c: nat, s1: State)
    requires Goes(s, c, s1)
    ensures Inv(s1)
  {
  }

  /** Process p on CPU c has acquired the lock of q and is at pc. */
  function Inside(s: State, c: nat, p: nat, q: nat, pc: Pc): State
    requires p < |s.procs| && q < |s.plock|
  {
    SetPc(SetP(s, q, c), p, pc)
  }

  lemma Enters(s: State, c: nat, p: nat, q: nat, pc: Pc)
    requires Doing(s, c, p, pc) && (pc == KlAcq(q) || pc == RpAcq(q) || pc == FkAcq(q) || pc == FkAcq2(q))
    requires q < |s.procs| && q != p && s.plock[q] == NONE
    ensures var s1 := Inside(s, c, p, q, Entered(pc));
            && Goes(s, c, s1) && Doing(s1, c, p, Entered(pc)) && |s1.procs| == |s.procs|
            && s1.procs[q] == s.procs[q] && s1.forker == s.forker
  {
    hide Inv, Goes, Next, Enabled;
    AcquiresOf(s, c, p, q, pc);
    GoesInv(s, c, Inside(s, c, p, q, Entered(pc)));
  }

  /** What is done while the lock of q is held, and nothing else, is there when it has been released. */
  lemma DoneUnder(s: State, c: nat, p: nat, q: nat, pc: Pc, pr: Proc, pc': Pc, forker: seq<int>)
    requires Doing(s, c, p, pc) && (pc == KlAcq(q) || pc == RpAcq(q) || pc == FkAcq(q) || pc == FkAcq2(q))
    requires q < |s.procs| && q != p && s.plock[q] == NONE && |forker| == |s.forker|
    requires pc' == QRel(q) || pc' == FkRel(q)
    requires Goes(Inside(s, c, p, q, Entered(pc)), c,
               Changed(Inside(s, c, p, q, Entered(pc)), p, q, pr, pc').(forker := forker))
    ensures Alone(s, c, 3, Changed(s, p, q, pr, if pc'.QRel? then User else FkAcq2(q)).(forker := forker))
  {
    hide Inv, Goes, Alone, Next, Enabled;
    Enters(s, c, p, q, pc);
    var s1 := Inside(s, c, p, q, Entered(pc));
    var s2 := Changed(s1, p, q, pr, pc').(forker := forker);
    GoesInv(s1, c, s2);
    ReleasesOf(s2, c, p, q, pc');
    var k := if pc'.QRel? then User else FkAcq2(q);
    assert SetPc(SetP(s2, q, NONE), p, k) == Changed(s, p, q, pr, k).(forker := forker);
    ThreeSteps(s, c, s1, s2, Changed(s, p, q, pr, k).(forker := forker));
  }

  /** kill: a process that sleeps, on whatever, can run; no other process changes. */
  lemma KillsIt(s: State, c: nat, p: nat, q: nat)
    requires Doing(s, c, p, KlAcq(q)) && q < |s.procs| && q != p && s.plock[q] == NONE
    ensures Alone(s, c, 3, Changed(s, p, q, Killed(s.procs[q]), User))
  {
    hide Inv, Goes, Alone, Killed, Next, Enabled, Inside;
    Enters(s, c, p, q, KlAcq(q));
    DoesUnder(Inside(s, c, p, q, KlSet(q)), c, p, q, KlSet(q));
    DoneUnder(s, c, p, q, KlAcq(q), Killed(s.procs[q]), QRel(q), s.forker);
  }

  /** wait: a zombie is done with; no other process changes. */
  lemma ReapsIt(s: State, c: nat, p: nat, q: nat)
    requires Doing(s, c, p, RpAcq(q)) && q < |s.procs| && q != p && s.plock[q] == NONE
    ensures Alone(s, c, 3, Changed(s, p, q, Reaped(s.procs[q]), User))
  {
    hide Inv, Goes, Alone, Reaped, Next, Enabled, Inside;
    Enters(s, c, p, q, RpAcq(q));
    DoesUnder(Inside(s, c, p, q, RpTest(q)), c, p, q, RpTest(q));
    DoneUnder(s, c, p, q, RpAcq(q), Reaped(s.procs[q]), QRel(q), s.forker);
  }

  /** allocproc: an unused process is taken. */
  lemma TakesUnused(s: State, c: nat, p: nat, q: nat)
    requires Doing(s, c, p, FkAcq(q)) && q < |s.procs| && q != p && s.plock[q] == NONE && s.procs[q].state == Unused
    ensures Alone(s, c, 3, Changed(s, p, q, Proc(Used, NONE, ForkRet), FkAcq2(q)).(forker := s.forker[q := p]))
  {
    hide Inv, Goes, Alone, Next, Enabled, Inside;
    Enters(s, c, p, q, FkAcq(q));
    DoesUnder(Inside(s, c, p, q, FkTest(q)), c, p, q, FkTest(q));
    DoneUnder(s, c, p, q, FkAcq(q), Proc(Used, NONE, ForkRet), FkRel(q), s.forker[q := p]);
  }

  /** A process that is in use is not taken, and nothing changes. */
  lemma ForksNone(s: State, c: nat, p: nat, q: nat)
    requires Doing(s, c, p, FkAcq(q)) && q < |s.procs| && q != p && s.plock[q] == NONE && s.procs[q].state != Unused
    ensures Alone(s, c, 3, Changed(s, p, q, s.procs[q], User))
  {
    hide Inv, Goes, Alone, Next, Enabled, Inside;
    Enters(s, c, p, q, FkAcq(q));
    DoesUnder(Inside(s, c, p, q, FkTest(q)), c, p, q, FkTest(q));
    DoneUnder(s, c, p, q, FkAcq(q), s.procs[q], QRel(q), s.forker);
  }

  /** The end of fork: the new process can run. */
  lemma MakesRunnable(s: State, c: nat, p: nat, q: nat)
    requires Doing(s, c, p, FkAcq2(q)) && q < |s.procs| && q != p && s.plock[q] == NONE
    ensures Alone(s, c, 3, Changed(s, p, q, s.procs[q].(state := Runnable), User).(forker := s.forker[q := NONE]))
  {
    hide Inv, Goes, Alone, Next, Enabled, Inside;
    Enters(s, c, p, q, FkAcq2(q));
    DoesUnder(Inside(s, c, p, q, FkSet(q)), c, p, q, FkSet(q));
    DoneUnder(s, c, p, q, FkAcq2(q), s.procs[q].(state := Runnable), QRel(q), s.forker[q := NONE]);
  }

  /** fork: an unused process can run, from its beginning; no other process changes. */
  lemma ForksIt(s: State, c: nat, p: nat, q: nat)
    requires Doing(s, c, p, FkAcq(q)) && q < |s.procs| && q != p && s.plock[q] == NONE && s.procs[q].state == Unused
    ensures Alone(s, c, 6, Changed(s, p, q, Proc(Runnable, NONE, ForkRet), User).(forker := s.forker[q := NONE]))
  {
    hide Owners, Dispatched, StatesOk, Forks, LockFacts, Wakeups, Alone;
    TakesUnused(s, c, p, q);
    var s3 := Changed(s, p, q, Proc(Used, NONE, ForkRet), FkAcq2(q)).(forker := s.forker[q := p]);
    AloneInv(s, c, 3, s3);
    MakesRunnable(s3, c, p, q);
    var s6 := Changed(s3, p, q, s3.procs[q].(state := Runnable), User).(forker := s3.forker[q := NONE]);
    AloneOn(s, c, 3, s3, 3, s6);
    assert s6 == Changed(s, p, q, Proc(Runnable, NONE, ForkRet), User).(forker := s.forker[q := NONE]);
  }

  /** exit: the process is a zombie, and its CPU goes on with the next. */
  lemma Exits(s: State, c: nat, p: nat)
    requires Doing(s, c, p, ExAcq) && s.plock[p] == NONE
    ensures Alone(s, c, 5, Left(s, c, p, s.procs[p].(state := Zombie, pc := ExSched)))
  {
    hide Owners, Dispatched, StatesOk, Forks, LockFacts, Wakeups, Alone;
    var s1 := Next(s, c, Go);
    ShapeNext(s, c);
    var s2 := Next(s1, c, Go);
    ShapeNext(s1, c);
    var s3 := Next(s2, c, Go);
    ShapeNext(s2, c);
    var s4 := Next(s3, c, Go);
    ShapeNext(s3, c);
    var s5 := Next(s4, c, Go);
    AloneNone(s5, c);
    Then(s4, c, s5, 0, s5);
    Then(s3, c, s4, 1, s5);
    Then(s2, c, s3, 2, s5);
    Then(s1, c, s2, 3, s5);
    Then(s, c, s1, 4, s5);
    assert s5 == Left(s, c, p, s.procs[p].(state := Zombie, pc := ExSched));
  }

  // From one process to another.

  /** CPU c's steps, and then CPU d's. */
  ghost predicate InTurn(s: State, c: nat, m: nat, d: nat, n: nat, s': State) {
    exists s1 {:trigger Alone(s, c, m, s1)} :: Alone(s, c, m, s1) && Alone(s1, d, n, s')
  }

  /** The state once CPU d runs q, which has come to have lock l. */
  function Given(s: State, d: nat, q: nat, l: nat): State
    requires d < |s.cpus| && q < |s.procs| == |s.on| && l < |s.sl|
  {
    s.(procs := s.procs[q := Proc(Running, NONE, User)], cpus := s.cpus[d := Cpu(q, InProc(q))], on := s.on[q := d],
      sl := s.sl[l := SleepLock(NONE, true, q)])
  }

  /** A process that has been woken for a lock that is free gets it once CPU d's scheduler comes to it. */
  lemma PicksUp(s: State, d: nat, q: nat, l: nat, i: nat) returns (n: nat)
    requires Looking(s, d, i) && AllFree(s.plock) && q < |s.procs| && FirstReady(s.procs, i, q)
    requires s.procs[q].chan == l && s.procs[q].pc == SlBack(l)
    requires l < |s.sl| && s.sl[l].spin == NONE && !s.sl[l].locked
    ensures Alone(s, d, n, Given(s, d, q, l))
  {
    hide Alone, Next, Enabled, Owners, Dispatched, Forks, LockFacts, Wakeups, Ahead, FirstReady;
    Schedules(s, d, i, q);
    var n1 := 3 * Ahead(|s.procs|, i, q) + 2;
    var s1 := Switched(s, d, q);
    AloneInv(s, d, n1, s1);
    TriesAgain(s1, d, q, l);
    var s2 := Resumed(s1, q, s1.procs[q].(chan := NONE, pc := AsAcq(l)));
    AloneInv(s1, d, 2, s2);
    TakesLock(s2, d, q, l);
    AloneOn(s1, d, 2, s2, 4, Locked(s2, q, l));
    AloneOn(s, d, n1, s1, 6, Locked(s2, q, l));
    n := n1 + 6;
    assert Locked(s2, q, l) == Given(s, d, q, l);
  }

  /**
   A lock is handed over: when p gives it up on CPU c, and q, which sleeps on it, is the first that
   CPU d's scheduler then finds ready, q comes to have the lock.
   */
  lemma HandsOver(s: State, c: nat, d: nat, p: nat, q: nat, l: nat, i: nat) returns (m: nat, n: nat)
    requires Doing(s, c, p, RsAcq(l)) && Looking(s, d, i) && c != d && p != q && q < |s.procs| && l < |s.sl|
    requires AllFree(s.plock) && s.sl[l].spin == NONE && s.procs[q].state == Sleeping && s.procs[q].chan == l
    requires FirstReady(Woken(s.procs, p, l, 0), i, q)
    ensures InTurn(s, c, m, d, n, Given(Freed(s, p, l), d, q, l))
  {
    hide Alone, Next, Enabled, Owners, Dispatched, Forks, LockFacts, Wakeups, Woken, Ahead, Given;
    m := GivesLockUp(s, c, p, l);
    var s1 := Freed(s, p, l);
    AloneInv(s, c, m, s1);
    AsleepAt(s, q);
    Wakened(s, p, q, l, i);
    n := PicksUp(s1, d, q, l, i);
  }

  /** A process that sleeps is in the sleep of an acquiresleep. */
  lemma AsleepAt(s: State, q: nat)
    requires Inv(s) && q < |s.procs| && AllFree(s.plock) && s.procs[q].state == Sleeping
    ensures s.procs[q].pc.SlBack? && s.procs[q].pc.l == s.procs[q].chan
  {
    hide Wakeups, LockFacts, Forks;
    var c := s.on[q];
    var held := if 0 <= c < |s.cpus| then CpuPLock(s, c) else NONE;
    assert IsExecuting(s.cpus, s.on, q) ==> ExecutingOk(s.procs[q]);
  }

  lemma Wakened(s: State, p: nat, q: nat, l: nat, i: nat)
    requires p < |s.procs| && q < |s.procs| && p != q && l < |s.sl| && i < |s.procs|
    requires s.procs[q].state == Sleeping && s.procs[q].chan == l && s.procs[p].state != Runnable
    requires FirstReady(Woken(s.procs, p, l, 0), i, q)
    ensures FirstReady(Freed(s, p, l).procs, i, q) && Freed(s, p, l).procs[q] == s.procs[q].(state := Runnable)
  {
  }
}
