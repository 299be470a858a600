/**
 What holds in every state that sleep, wakeup and round-robin dispatch can reach from boot, by
 any interleaving of any number of CPUs and processes.
 */
module SchedRuns {
  import opened Sched

  /** After boot: one process RUNNABLE, every CPU at the top of its scheduler loop. */
  function Initial(cpus: nat, processes: nat, locks: nat): State
    requires 0 < processes
  {
    State(seq(cpus, c => Cpu(NONE, InSched(ScAcq(0)))),
          seq(processes, p => Proc(if p == 0 then Runnable else Unused, NONE, ForkRet)),
          seq(processes, p => NONE), seq(locks, l => SleepLock(NONE, false, NONE)),
          seq(processes, p => NONE), seq(processes, p => NONE))
  }

  lemma InitialInv(cpus: nat, processes: nat, locks: nat)
    requires 0 < processes
    ensures Inv(Initial(cpus, processes, locks))
  {
  }

  datatype Turn = Turn(cpu: nat, action: Action)

  ghost predicate Runs(s: State, turns: seq<Turn>, s': State)
    decreases |turns|
  {
    if turns == [] then s' == s
    else
      && Shape(s) && Enabled(s, turns[0].cpu, turns[0].action)
      && Runs(Next(s, turns[0].cpu, turns[0].action), turns[1..], s')
  }

  lemma {:induction false} RunInv(s: State, turns: seq<Turn>, s': State)
    requires Inv(s) && Runs(s, turns, s')
    ensures Inv(s')
    decreases |turns|
  {
    if turns != [] {
      NextInv(s, turns[0].cpu, turns[0].action);
      RunInv(Next(s, turns[0].cpu, turns[0].action), turns[1..], s');
    }
  }

  /** Reached from boot by some interleaving of some number of CPUs and processes. */
  ghost predicate Reachable(s: State) {
    exists cpus: nat, processes: nat, locks: nat, turns :: 0 < processes
      && Runs(Initial(cpus, processes, locks), turns, s)
  }

  lemma ReachableInv(s: State)
    requires Reachable(s)
    ensures Inv(s)
  {
    var cpus: nat, processes: nat, locks: nat, turns :| 0 < processes
      && Runs(Initial(cpus, processes, locks), turns, s);
    InitialInv(cpus, processes, locks);
    RunInv(Initial(cpus, processes, locks), turns, s);
  }

  /**
   No wakeup is lost: whenever the spinlock of a sleep-lock is free, a process that sleeps on
   it, or has let go of that spinlock on its way to sleep, sleeps for a lock that is held.
   So the releasesleep that must follow will find it.
   */
  lemma NoLostWakeup(s: State, p: nat, l: nat)
    requires Reachable(s) && p < |s.procs| && l < |s.sl|
    requires SleepOn(s.procs[p]) == l && s.sl[l].spin == NONE
    ensures s.sl[l].locked
  {
    ReachableInv(s);
    assert Awaited(s, p, SleepOn(s.procs[p]));
  }

  /** releasesleep, once past its last process, has left nobody asleep on the lock it gave up. */
  lemma EveryoneWoken(s: State, c: nat, p: nat, q: nat, l: nat)
    requires Reachable(s) && c < |s.cpus| && s.cpus[c].mode == InProc(p) && p < |s.procs| && q < |s.procs|
    requires s.procs[p].pc == RsRel(l)
    ensures l < |s.sl| && !s.sl[l].locked && SleepOn(s.procs[q]) != l
  {
    ReachableInv(s);
    assert PcOk(s, s.procs[p].pc);
    assert CpuSLock(s, c) == l && LockFact(s.sl, p, s.procs[p].pc);
    assert Awaited(s, q, SleepOn(s.procs[q]));
  }

  /** The number of CPUs whose c->proc is p. */
  function CpusOf(cpus: seq<Cpu>, p: nat): nat {
    if cpus == [] then 0 else CpusOf(cpus[..|cpus| - 1], p) + (if cpus[|cpus| - 1].proc == p then 1 else 0)
  }

  lemma {:induction false} OnOneCpu(cpus: seq<Cpu>, p: nat, d: int)
    requires forall c :: 0 <= c < |cpus| ==> (cpus[c].proc == p <==> c == d)
    ensures CpusOf(cpus, p) == if 0 <= d < |cpus| then 1 else 0
  {
    if cpus != [] {
      OnOneCpu(cpus[..|cpus| - 1], p, d);
    }
  }

  /**
   No process is ever on two CPUs, and whenever its lock is free it is RUNNING exactly when it
   is on one.
   */
  lemma ExclusiveDispatch(s: State, p: nat)
    requires Reachable(s) && p < |s.procs|
    ensures |s.plock| == |s.procs| && CpusOf(s.cpus, p) <= 1
    ensures s.plock[p] == NONE ==> (s.procs[p].state == Running <==> CpusOf(s.cpus, p) == 1)
  {
    ReachableInv(s);
    OnOneCpu(s.cpus, p, s.on[p]);
    var d := s.on[p];
    if 0 <= d < |s.cpus| {
      assert s.cpus[d].proc == ProcOf(s.cpus[d].mode);
      var held := CpuPLock(s, d);
    }
  }

  /** A sleep-lock is taken only while nobody has it, and given up only by the process that has it. */
  lemma SleepLockExclusion(s: State, c: nat, p: nat)
    requires Reachable(s) && c < |s.cpus| && s.cpus[c].mode == InProc(p) && p < |s.procs|
    ensures s.procs[p].pc.AsSet? ==> s.procs[p].pc.l < |s.sl| && s.sl[s.procs[p].pc.l].holder == NONE
    ensures s.procs[p].pc.RsSet? ==> s.procs[p].pc.l < |s.sl| && s.sl[s.procs[p].pc.l].holder == p
  {
    ReachableInv(s);
    assert LockFact(s.sl, p, s.procs[p].pc);
  }

  /** The process at pc on CPU c, if the CPU executes one. */
  predicate Executing(s: State, c: nat, p: nat, pc: Pc) {
    c < |s.cpus| && p < |s.procs| && s.cpus[c].mode == InProc(p) && s.procs[p].pc == pc
  }

  /** A sleep-lock changes hands only where acquiresleep sets it, and where releasesleep of its holder clears it. */
  lemma HolderStep(s: State, c: nat, a: Action, l: nat)
    requires Inv(s) && Enabled(s, c, a) && l < |s.sl|
    ensures |Next(s, c, a).sl| == |s.sl|
    ensures Next(s, c, a).sl[l].holder != s.sl[l].holder ==>
              && a.Go? && s.cpus[c].mode.InProc?
              && var p := s.cpus[c].mode.p;
                 || (Executing(s, c, p, AsSet(l)) && s.sl[l].holder == NONE && Next(s, c, a).sl[l].holder == p)
                 || (Executing(s, c, p, RsSet(l)) && s.sl[l].holder == p && Next(s, c, a).sl[l].holder == NONE)
  {
    hide Owners, Dispatched, StatesOk, Forks, Wakeups;
    if s.cpus[c].mode.InProc? {
      assert LockFact(s.sl, s.cpus[c].mode.p, s.procs[s.cpus[c].mode.p].pc);
    }
  }

  /** In no step of the run does p clear lock l in a releasesleep. */
  ghost predicate Keeps(s: State, turns: seq<Turn>, p: nat, l: nat)
    decreases |turns|
  {
    turns == [] ||
    (&& Shape(s) && Enabled(s, turns[0].cpu, turns[0].action)
     && !(Executing(s, turns[0].cpu, p, RsSet(l)) && turns[0].action.Go?)
     && Keeps(Next(s, turns[0].cpu, turns[0].action), turns[1..], p, l))
  }

  /**
   A sleep-lock is a lock: a process that comes out of acquiresleep has it; and as long as that
   process does not give it up, it has it still, and no other process comes out of acquiresleep.
   */
  lemma {:induction false} HeldUntilReleased(s: State, turns: seq<Turn>, s': State, p: nat, l: nat)
    requires Inv(s) && Runs(s, turns, s') && Keeps(s, turns, p, l) && l < |s.sl| && s.sl[l].holder == p
    ensures l < |s'.sl| && s'.sl[l].holder == p && s'.sl[l].locked
    ensures forall q :: 0 <= q < |s'.procs| && s'.procs[q].pc == AsRel(l) ==> q == p
    decreases |turns|
  {
    if turns == [] {
      OnlyHolderLeaves(s, p, l);
    } else {
      hide Next, Enabled;
      NextInv(s, turns[0].cpu, turns[0].action);
      HolderStep(s, turns[0].cpu, turns[0].action, l);
      HeldUntilReleased(Next(s, turns[0].cpu, turns[0].action), turns[1..], s', p, l);
    }
  }

  lemma OnlyHolderLeaves(s: State, p: nat, l: nat)
    requires Inv(s) && l < |s.sl| && s.sl[l].holder == p
    ensures s.sl[l].locked && forall q :: 0 <= q < |s.procs| && s.procs[q].pc == AsRel(l) ==> q == p
  {
    forall q | 0 <= q < |s.procs| && s.procs[q].pc == AsRel(l) ensures q == p {
      assert LockFact(s.sl, q, s.procs[q].pc);
    }
  }

  /** In every reachable state, a process that is about to return from acquiresleep has the lock. */
  lemma ReturnsWithLock(s: State, p: nat, l: nat)
    requires Reachable(s) && p < |s.procs| && s.procs[p].pc == AsRel(l)
    ensures l < |s.sl| && s.sl[l].locked && s.sl[l].holder == p
  {
    ReachableInv(s);
    assert LockFact(s.sl, p, s.procs[p].pc);
  }

  /** A process is about to swtch away. */
  predicate InSchedCall(pc: Pc) {
    pc.YieldSched? || pc.SlSched? || pc.ExSched?
  }

  /**
   The panics of sched, acquire and release do not happen while a CPU is in a process: sched is
   called under p->lock, under no other lock and not RUNNING; the CPU never acquires a lock it
   holds; and it holds each lock it releases.
   */
  lemma NoPanic(s: State, c: nat, p: nat)
    requires Reachable(s) && c < |s.cpus| && s.cpus[c].mode == InProc(p)
    ensures p < |s.procs| == |s.plock|
    ensures InSchedCall(s.procs[p].pc) ==>
              && s.plock[p] == c && s.procs[p].state != Running
              && (forall q :: 0 <= q < |s.plock| && s.plock[q] == c ==> q == p)
              && (forall l :: 0 <= l < |s.sl| ==> s.sl[l].spin != c)
    ensures 0 <= WantsP(s, p) < |s.plock| ==> s.plock[WantsP(s, p)] != c
    ensures 0 <= WantsS(s, p) < |s.sl| ==> s.sl[WantsS(s, p)].spin != c
    ensures PLock(s.procs[p].pc, p) != NONE ==>
              0 <= PLock(s.procs[p].pc, p) < |s.plock| && s.plock[PLock(s.procs[p].pc, p)] == c
    ensures SLock(s.procs[p].pc) != NONE ==> 0 <= SLock(s.procs[p].pc) < |s.sl| && s.sl[SLock(s.procs[p].pc)].spin == c
  {
    ReachableInv(s);
    ExecutesIs(s, c, p);
    assert CpuPLock(s, c) == PLock(s.procs[p].pc, p) && CpuSLock(s, c) == SLock(s.procs[p].pc);
  }

  /**
   Nor do they while a CPU is in the scheduler: it holds nothing when it acquires a p->lock, and
   from then on just that lock, which it releases although the process it comes back from may
   have acquired it.
   */
  lemma NoPanicInScheduler(s: State, c: nat)
    requires Reachable(s) && c < |s.cpus| && s.cpus[c].mode.InSched?
    ensures var at := s.cpus[c].mode.at;
            && at.i < |s.plock|
            && (forall q :: 0 <= q < |s.plock| ==> (s.plock[q] == c <==> !at.ScAcq? && q == at.i))
            && (forall l :: 0 <= l < |s.sl| ==> s.sl[l].spin != c)
  {
    ReachableInv(s);
    var at := s.cpus[c].mode.at;
    assert ModeOk(s, s.cpus[c].mode);
    assert CpuPLock(s, c) == (if at.ScAcq? then NONE else at.i) && CpuSLock(s, c) == NONE;
  }
}
