/**
 sleep, wakeup and round-robin dispatch of kernel/proc.c, with the sleep-locks of
 kernel/sleeplock.c as their client, as interleaved steps of any number of CPUs over any
 number of processes.

 A CPU runs its scheduler loop or one process. A step is one statement of the source that
 touches shared state: an acquire (enabled when the lock is free), a release, a test or an
 assignment made under a lock, or a swtch. A spinlock records the CPU that holds it. The
 process lock is acquired on one side of a swtch and released on the other. A timer
 interrupt may make a process yield wherever it holds no lock. All processes are RR.
 */
module Sched {
  datatype PState = Unused | Used | Sleeping | Runnable | Running | Zombie

  const NONE := -1

  /** Where a process is in the kernel: the statement it executes next. */
  datatype Pc =
    | User
    // yield, then on to `k`
    | YieldAcq(k: Pc) | YieldSet(k: Pc) | YieldSched(k: Pc) | YieldBack(k: Pc)
    | ForkRet
    // acquiresleep(l), and the sleep(l, &l->lk) in it
    | AsAcq(l: nat) | AsTest(l: nat) | AsSet(l: nat) | AsRel(l: nat)
    | SlAcq(l: nat) | SlRel(l: nat) | SlSet(l: nat) | SlSched(l: nat) | SlBack(l: nat) | SlRelOwn(l: nat)
    // releasesleep(l), and the wakeup(l) in it at process i
    | RsAcq(l: nat) | RsSet(l: nat) | RsRel(l: nat)
    | WkAcq(l: nat, i: nat) | WkTest(l: nat, i: nat) | WkRel(l: nat, i: nat)
    // kill, wait reaping a zombie, and fork, of process q
    | KlAcq(q: nat) | KlSet(q: nat)
    | RpAcq(q: nat) | RpTest(q: nat)
    | FkAcq(q: nat) | FkTest(q: nat) | FkRel(q: nat) | FkAcq2(q: nat) | FkSet(q: nat)
    | QRel(q: nat)
    | ExAcq | ExSet | ExSched

  /** Where a CPU's scheduler loop is: at process i. */
  datatype SchedPc = ScAcq(i: nat) | ScTest(i: nat) | ScBack(i: nat) | ScRel(i: nat)

  datatype Mode = InSched(at: SchedPc) | InProc(p: nat)

  datatype Cpu = Cpu(proc: int, mode: Mode)

  datatype Proc = Proc(state: PState, chan: int, pc: Pc)

  /** A sleep-lock: the CPU holding its spinlock, and the process holding the lock itself. */
  datatype SleepLock = SleepLock(spin: int, locked: bool, holder: int)

  datatype State = State(
    cpus: seq<Cpu>, procs: seq<Proc>,
    // The CPU holding each process's lock.
    plock: seq<int>,
    sl: seq<SleepLock>,
    // Auxiliary: the CPU whose c->proc is this process, and the process forking it.
    on: seq<int>, forker: seq<int>)

  /** The process lock that the statement at `pc` of process `me` is executed under. */
  function PLock(pc: Pc, me: nat): int {
    match pc
    case YieldSet(_) => me
    case YieldSched(_) => me
    case YieldBack(_) => me
    case ForkRet => me
    case SlRel(_) => me
    case SlSet(_) => me
    case SlSched(_) => me
    case SlBack(_) => me
    case SlRelOwn(_) => me
    case WkTest(_, i) => i
    case WkRel(_, i) => i
    case KlSet(q) => q
    case RpTest(q) => q
    case FkTest(q) => q
    case FkRel(q) => q
    case FkSet(q) => q
    case QRel(q) => q
    case ExSet => me
    case ExSched => me
    case _ => NONE
  }

  /** The sleep-lock whose spinlock it is executed under. */
  function SLock(pc: Pc): int {
    match pc
    case AsTest(l) => l
    case AsSet(l) => l
    case AsRel(l) => l
    case SlAcq(l) => l
    case SlRel(l) => l
    case RsSet(l) => l
    case RsRel(l) => l
    case WkAcq(l, _) => l
    case WkTest(l, _) => l
    case WkRel(l, _) => l
    case _ => NONE
  }

  predicate NoLocks(pc: Pc) {
    PLock(pc, 0) == NONE && SLock(pc) == NONE
  }

  predicate IsYield(pc: Pc) {
    pc.YieldAcq? || pc.YieldSet? || pc.YieldSched? || pc.YieldBack?
  }

  /** What a process goes on to after a yield. */
  function Core(pc: Pc): Pc {
    if IsYield(pc) then pc.k else pc
  }

  function CpuPLock(s: State, c: nat): int
    requires c < |s.cpus|
  {
    match s.cpus[c].mode
    case InSched(at) => if at.ScAcq? then NONE else at.i
    case InProc(p) => if p < |s.procs| then PLock(s.procs[p].pc, p) else NONE
  }

  function CpuSLock(s: State, c: nat): int
    requires c < |s.cpus|
  {
    match s.cpus[c].mode
    case InSched(_) => NONE
    case InProc(p) => if p < |s.procs| then SLock(s.procs[p].pc) else NONE
  }

  // Steps.

  datatype Action = Go | Preempt | Start(entry: Pc)

  predicate IsEntry(s: State, p: nat, pc: Pc) {
    || (pc.AsAcq? && pc.l < |s.sl|)
    // releasesleep is called by the process that holds the lock
    || (pc.RsAcq? && pc.l < |s.sl| && s.sl[pc.l].holder == p)
    || ((pc.KlAcq? || pc.RpAcq? || pc.FkAcq?) && pc.q < |s.procs|)
    || pc.ExAcq?
  }

  predicate Shape(s: State) {
    && 0 < |s.procs| == |s.plock| == |s.on| == |s.forker|
    && (forall c :: 0 <= c < |s.cpus| ==> ModeOk(s, s.cpus[c].mode))
    && (forall p :: 0 <= p < |s.procs| ==> PcOk(s, s.procs[p].pc))
  }

  predicate ModeOk(s: State, m: Mode) {
    match m
    case InSched(at) => at.i < |s.procs|
    case InProc(p) => p < |s.procs|
  }

  /** The sleep-lock, and the process, that a statement names. */
  function LockArg(pc: Pc): int {
    match pc
    case AsAcq(l) => l
    case AsTest(l) => l
    case AsSet(l) => l
    case AsRel(l) => l
    case SlAcq(l) => l
    case SlRel(l) => l
    case SlSet(l) => l
    case SlSched(l) => l
    case SlBack(l) => l
    case SlRelOwn(l) => l
    case RsAcq(l) => l
    case RsSet(l) => l
    case RsRel(l) => l
    case WkAcq(l, _) => l
    case WkTest(l, _) => l
    case WkRel(l, _) => l
    case _ => NONE
  }

  function ProcArg(pc: Pc): int {
    match pc
    case WkAcq(_, i) => i - 1
    case WkTest(_, i) => i
    case WkRel(_, i) => i
    case KlAcq(q) => q
    case KlSet(q) => q
    case RpAcq(q) => q
    case RpTest(q) => q
    case FkAcq(q) => q
    case FkTest(q) => q
    case FkRel(q) => q
    case FkAcq2(q) => q
    case FkSet(q) => q
    case QRel(q) => q
    case _ => NONE
  }

  predicate PcOk(s: State, pc: Pc) {
    && (IsYield(pc) ==> NoLocks(pc.k) && !IsYield(pc.k))
    && LockArg(Core(pc)) < |s.sl|
    && ProcArg(Core(pc)) < |s.procs|
  }

  function SetPc(s: State, p: nat, pc: Pc): State
    requires p < |s.procs|
  {
    s.(procs := s.procs[p := s.procs[p].(pc := pc)])
  }

  function SetState(s: State, p: nat, st: PState): State
    requires p < |s.procs|
  {
    s.(procs := s.procs[p := s.procs[p].(state := st)])
  }

  function SetP(s: State, i: nat, c: int): State
    requires i < |s.plock|
  {
    s.(plock := s.plock[i := c])
  }

  function SetS(s: State, l: nat, c: int): State
    requires l < |s.sl|
  {
    s.(sl := s.sl[l := s.sl[l].(spin := c)])
  }

  function SetMode(s: State, c: nat, m: Mode): State
    requires c < |s.cpus|
  {
    s.(cpus := s.cpus[c := s.cpus[c].(mode := m)])
  }

  /** The lock the next statement of a process acquires. */
  function WantsP(s: State, p: nat): int
    requires p < |s.procs|
  {
    match s.procs[p].pc
    case YieldAcq(_) => p
    case SlAcq(_) => p
    case ExAcq => p
    case WkAcq(_, i) => if i == p || i >= |s.procs| then NONE else i
    case KlAcq(q) => q
    case RpAcq(q) => q
    case FkAcq(q) => q
    case FkAcq2(q) => q
    case _ => NONE
  }

  function WantsS(s: State, p: nat): int
    requires p < |s.procs|
  {
    match s.procs[p].pc
    case AsAcq(l) => l
    case RsAcq(l) => l
    case _ => NONE
  }

  predicate Enabled(s: State, c: nat, a: Action)
    requires Shape(s)
  {
    && c < |s.cpus|
    && match s.cpus[c].mode
       case InSched(at) => a.Go? && (at.ScAcq? ==> s.plock[at.i] == NONE)
       case InProc(p) =>
         var pc := s.procs[p].pc;
         match a
         case Preempt => NoLocks(pc) && !IsYield(pc)
         case Start(entry) => pc.User? && IsEntry(s, p, entry)
         case Go =>
           && !pc.User?
           && (WantsP(s, p) == NONE || (0 <= WantsP(s, p) < |s.plock| && s.plock[WantsP(s, p)] == NONE))
           && (WantsS(s, p) == NONE || (0 <= WantsS(s, p) < |s.sl| && s.sl[WantsS(s, p)].spin == NONE))
  }

  function Next(s: State, c: nat, a: Action): State
    requires Shape(s) && Enabled(s, c, a)
  {
    match s.cpus[c].mode
    case InSched(at) => SchedNext(s, c, at)
    case InProc(p) =>
      match a
      case Preempt => SetPc(s, p, YieldAcq(s.procs[p].pc))
      case Start(entry) => SetPc(s, p, entry)
      case Go => ProcNext(s, c, p)
  }

  function SchedNext(s: State, c: nat, at: SchedPc): State
    requires Shape(s) && c < |s.cpus| && at.i < |s.procs|
  {
    match at
    case ScAcq(i) => SetMode(SetP(s, i, c), c, InSched(ScTest(i)))
    case ScTest(i) =>
      if s.procs[i].state == Runnable then
        SetState(s, i, Running).(cpus := s.cpus[c := Cpu(i, InProc(i))], on := s.on[i := c])
      else SetMode(s, c, InSched(ScRel(i)))
    case ScBack(i) => s.(cpus := s.cpus[c := Cpu(NONE, InSched(ScRel(i)))], on := s.on[i := NONE])
    case ScRel(i) => SetMode(SetP(s, i, NONE), c, InSched(ScAcq(if i + 1 < |s.procs| then i + 1 else 0)))
  }

  function ProcNext(s: State, c: nat, p: nat): State
    requires Shape(s) && c < |s.cpus| && p < |s.procs| && !s.procs[p].pc.User?
  {
    match s.procs[p].pc
    // yield and forkret
    case YieldAcq(k) => SetPc(SetP(s, p, c), p, YieldSet(k))
    case YieldSet(k) => SetPc(SetState(s, p, Runnable), p, YieldSched(k))
    case YieldSched(k) => SetMode(SetPc(s, p, YieldBack(k)), c, InSched(ScBack(p)))
    case YieldBack(k) => SetPc(SetP(s, p, NONE), p, k)
    case ForkRet => SetPc(SetP(s, p, NONE), p, User)
    // acquiresleep
    case AsAcq(l) => SetPc(SetS(s, l, c), p, AsTest(l))
    case AsTest(l) => SetPc(s, p, if s.sl[l].locked then SlAcq(l) else AsSet(l))
    case AsSet(l) => SetPc(s.(sl := s.sl[l := s.sl[l].(locked := true, holder := p)]), p, AsRel(l))
    case AsRel(l) => SetPc(SetS(s, l, NONE), p, User)
    // sleep; when it returns, acquiresleep tests again
    case SlAcq(l) => SetPc(SetP(s, p, c), p, SlRel(l))
    case SlRel(l) => SetPc(SetS(s, l, NONE), p, SlSet(l))
    case SlSet(l) => s.(procs := s.procs[p := Proc(Sleeping, l, SlSched(l))])
    case SlSched(l) => SetMode(SetPc(s, p, SlBack(l)), c, InSched(ScBack(p)))
    case SlBack(l) => s.(procs := s.procs[p := s.procs[p].(chan := NONE, pc := SlRelOwn(l))])
    case SlRelOwn(l) => SetPc(SetP(s, p, NONE), p, AsAcq(l))
    // releasesleep
    case RsAcq(l) => SetPc(SetS(s, l, c), p, RsSet(l))
    case RsSet(l) => SetPc(s.(sl := s.sl[l := s.sl[l].(locked := false, holder := NONE)]), p, WkAcq(l, 0))
    case WkAcq(l, i) =>
      if i == |s.procs| then SetPc(s, p, RsRel(l))
      else if i == p then SetPc(s, p, WkAcq(l, i + 1))
      else SetPc(SetP(s, i, c), p, WkTest(l, i))
    case WkTest(l, i) =>
      var woken := if s.procs[i].state == Sleeping && s.procs[i].chan == l then SetState(s, i, Runnable) else s;
      SetPc(woken, p, WkRel(l, i))
    case WkRel(l, i) => SetPc(SetP(s, i, NONE), p, WkAcq(l, i + 1))
    case RsRel(l) => SetPc(SetS(s, l, NONE), p, User)
    // kill, wait, fork
    case KlAcq(q) => SetPc(SetP(s, q, c), p, KlSet(q))
    case KlSet(q) => SetPc(if s.procs[q].state == Sleeping then SetState(s, q, Runnable) else s, p, QRel(q))
    case RpAcq(q) => SetPc(SetP(s, q, c), p, RpTest(q))
    case RpTest(q) => SetPc(if s.procs[q].state == Zombie then SetState(s, q, Unused) else s, p, QRel(q))
    case FkAcq(q) => SetPc(SetP(s, q, c), p, FkTest(q))
    case FkTest(q) =>
      if s.procs[q].state == Unused then
        SetPc(s.(procs := s.procs[q := Proc(Used, NONE, ForkRet)], forker := s.forker[q := p]), p, FkRel(q))
      else SetPc(s, p, QRel(q))
    case FkRel(q) => SetPc(SetP(s, q, NONE), p, FkAcq2(q))
    case FkAcq2(q) => SetPc(SetP(s, q, c), p, FkSet(q))
    case FkSet(q) => SetPc(SetState(s, q, Runnable).(forker := s.forker[q := NONE]), p, QRel(q))
    case QRel(q) => SetPc(SetP(s, q, NONE), p, User)
    // exit
    case ExAcq => SetPc(SetP(s, p, c), p, ExSet)
    case ExSet => SetPc(SetState(s, p, Zombie), p, ExSched)
    case ExSched => SetMode(s, c, InSched(ScBack(p)))
  }

  // The invariant.

  /** A lock is held by a CPU exactly when what that CPU executes next is under it. */
  ghost predicate Owners(s: State) {
    && (forall c :: 0 <= c < |s.cpus| && CpuPLock(s, c) != NONE ==>
          0 <= CpuPLock(s, c) < |s.plock| && s.plock[CpuPLock(s, c)] == c)
    && (forall i :: 0 <= i < |s.plock| && s.plock[i] != NONE ==>
          0 <= s.plock[i] < |s.cpus| && CpuPLock(s, s.plock[i]) == i)
    && (forall c :: 0 <= c < |s.cpus| && CpuSLock(s, c) != NONE ==>
          0 <= CpuSLock(s, c) < |s.sl| && s.sl[CpuSLock(s, c)].spin == c)
    && (forall l :: 0 <= l < |s.sl| && s.sl[l].spin != NONE ==>
          0 <= s.sl[l].spin < |s.cpus| && CpuSLock(s, s.sl[l].spin) == l)
  }

  function ProcOf(m: Mode): int {
    match m
    case InProc(p) => p
    case InSched(at) => if at.ScBack? then at.i else NONE
  }

  /** c->proc is the process running on the CPU, or just switched away from; no process is on two. */
  ghost predicate Dispatched(cpus: seq<Cpu>, on: seq<int>) {
    && (forall c :: 0 <= c < |cpus| ==> cpus[c].proc == ProcOf(cpus[c].mode))
    && (forall c :: 0 <= c < |cpus| && cpus[c].proc != NONE ==> 0 <= cpus[c].proc < |on| && on[cpus[c].proc] == c)
    && (forall p :: 0 <= p < |on| && on[p] != NONE ==> 0 <= on[p] < |cpus| && cpus[on[p]].proc == p)
  }

  predicate IsExecuting(cpus: seq<Cpu>, on: seq<int>, p: nat)
    requires p < |on|
  {
    0 <= on[p] < |cpus| && cpus[on[p]].mode == InProc(p)
  }

  /** A process on a CPU is RUNNING until it has changed its state on the way to swtch. */
  predicate ExecutingOk(pr: Proc) {
    match pr.pc
    case YieldSched(_) => pr.state == Runnable
    case SlSched(l) => pr.state == Sleeping && pr.chan == l
    case ExSched => pr.state == Zombie
    case _ => pr.state == Running
  }

  /** A process not on a CPU is where a swtch left it, or has yet to start. */
  predicate SuspendedOk(pr: Proc) {
    && pr.state != Running
    && (pr.state == Sleeping ==> pr.pc.SlBack? && pr.pc.l == pr.chan)
    && (pr.state == Runnable ==> pr.pc.YieldBack? || pr.pc.SlBack? || pr.pc.ForkRet?)
    && (pr.state == Used ==> pr.pc.ForkRet?)
    && (pr.state == Unused || pr.state == Zombie ==> pr.pc.ForkRet? || pr.pc.ExSched?)
  }

  ghost predicate StatesOk(procs: seq<Proc>, cpus: seq<Cpu>, on: seq<int>) {
    |procs| == |on| &&
    forall p :: 0 <= p < |procs| ==> if IsExecuting(cpus, on, p) then ExecutingOk(procs[p]) else SuspendedOk(procs[p])
  }

  function ForkOf(pc: Pc): int {
    match Core(pc)
    case FkRel(q) => q
    case FkAcq2(q) => q
    case FkSet(q) => q
    case _ => NONE
  }

  predicate ForkFact(procs: seq<Proc>, forker: seq<int>, p: nat, q: int) {
    q != NONE ==> 0 <= q < |procs| == |forker| && procs[q].state == Used && forker[q] == p
  }

  /** A process being forked stays USED until its one forker makes it RUNNABLE. */
  ghost predicate Forks(procs: seq<Proc>, forker: seq<int>) {
    forall p :: 0 <= p < |procs| ==> ForkFact(procs, forker, p, ForkOf(procs[p].pc))
  }

  /** What the code has learnt about a sleep-lock and relies on. */
  predicate LockFact(sl: seq<SleepLock>, p: nat, pc: Pc) {
    match Core(pc)
    case SlAcq(l) => l < |sl| && sl[l].locked
    case SlRel(l) => l < |sl| && sl[l].locked
    case AsSet(l) => l < |sl| && !sl[l].locked
    case AsRel(l) => l < |sl| && sl[l].holder == p
    case RsAcq(l) => l < |sl| && sl[l].holder == p
    case RsSet(l) => l < |sl| && sl[l].holder == p
    case WkAcq(l, _) => l < |sl| && !sl[l].locked
    case WkTest(l, _) => l < |sl| && !sl[l].locked
    case WkRel(l, _) => l < |sl| && !sl[l].locked
    case RsRel(l) => l < |sl| && !sl[l].locked
    case _ => true
  }

  ghost predicate LockFacts(procs: seq<Proc>, sl: seq<SleepLock>) {
    && (forall l :: 0 <= l < |sl| ==> (sl[l].locked <==> sl[l].holder != NONE))
    && (forall p :: 0 <= p < |procs| ==> LockFact(sl, p, procs[p].pc))
  }

  /** The sleep-lock a process sleeps on, or is past the point of no return to. */
  function SleepOn(pr: Proc): int {
    if pr.state == Sleeping then pr.chan
    else match pr.pc
         case SlSet(l) => l
         case SlSched(l) => l
         case _ => NONE
  }

  /** The process at which the wakeup of a releasesleep is, if a process is in one. */
  function WakeIndex(pc: Pc): int {
    match pc
    case WkAcq(_, i) => i
    case WkTest(_, i) => i
    case WkRel(_, i) => i + 1
    case _ => NONE
  }

  /** The same, for the releasesleep under way on `l`. */
  function WakeAt(s: State, l: nat): int
    requires l < |s.sl|
  {
    var c := s.sl[l].spin;
    if 0 <= c < |s.cpus| && s.cpus[c].mode.InProc? && s.cpus[c].mode.p < |s.procs|
    then WakeIndex(s.procs[s.cpus[c].mode.p].pc) else NONE
  }

  /** A process that sleeps on a lock, or is about to: the lock is held, or a wakeup will yet come to it. */
  predicate Awaited(s: State, p: nat, l: int) {
    l != NONE ==> 0 <= l < |s.sl| && (s.sl[l].locked || NONE < WakeAt(s, l) <= p)
  }

  ghost predicate Wakeups(s: State) {
    forall p :: 0 <= p < |s.procs| ==> Awaited(s, p, SleepOn(s.procs[p]))
  }

  ghost predicate Inv(s: State) {
    && Shape(s) && Owners(s)
    && Dispatched(s.cpus, s.on)
    && StatesOk(s.procs, s.cpus, s.on)
    && Forks(s.procs, s.forker)
    && LockFacts(s.procs, s.sl)
    && Wakeups(s)
  }

  // Preservation.

  /** A change of locks that moves CPU c from holding `i` to holding `i'`. */
  predicate Moves(locks: seq<int>, locks': seq<int>, c: nat, i: int, i': int) {
    || (i' == i && locks' == locks)
    || (i == NONE && 0 <= i' < |locks| && locks[i'] == NONE && locks' == locks[i' := c])
    || (i' == NONE && 0 <= i < |locks| && locks' == locks[i := NONE])
  }

  function Spins(sl: seq<SleepLock>): (r: seq<int>)
    ensures |r| == |sl|
  {
    seq(|sl|, l requires 0 <= l < |sl| => sl[l].spin)
  }

  /** Locks follow the CPU that takes the step, when the others stay under the locks they were. */
  lemma OwnersStep(s: State, s': State, c: nat)
    requires Owners(s) && c < |s.cpus| == |s'.cpus|
    requires forall d :: 0 <= d < |s.cpus| && d != c ==>
               CpuPLock(s', d) == CpuPLock(s, d) && CpuSLock(s', d) == CpuSLock(s, d)
    requires Moves(s.plock, s'.plock, c, CpuPLock(s, c), CpuPLock(s', c))
    requires Moves(Spins(s.sl), Spins(s'.sl), c, CpuSLock(s, c), CpuSLock(s', c))
    ensures Owners(s')
  {
    forall d | 0 <= d < |s.cpus| && CpuPLock(s', d) != NONE
      ensures 0 <= CpuPLock(s', d) < |s'.plock| && s'.plock[CpuPLock(s', d)] == d
    {
    }
    forall d | 0 <= d < |s.cpus| && CpuSLock(s', d) != NONE
      ensures 0 <= CpuSLock(s', d) < |s'.sl| && s'.sl[CpuSLock(s', d)].spin == d
    {
      assert Spins(s.sl)[CpuSLock(s', d)] == s.sl[CpuSLock(s', d)].spin;
      assert Spins(s'.sl)[CpuSLock(s', d)] == s'.sl[CpuSLock(s', d)].spin;
    }
    forall l | 0 <= l < |s'.sl| && s'.sl[l].spin != NONE
      ensures 0 <= s'.sl[l].spin < |s'.cpus| && CpuSLock(s', s'.sl[l].spin) == l
    {
      assert Spins(s.sl)[l] == s.sl[l].spin && Spins(s'.sl)[l] == s'.sl[l].spin;
    }
  }

  /** CPU c executes process p in s. */
  ghost predicate Executes(s: State, c: nat, p: nat) {
    Inv(s) && c < |s.cpus| && s.cpus[c].mode == InProc(p)
  }

  lemma ExecutesIs(s: State, c: nat, p: nat)
    requires Executes(s, c, p)
    ensures p < |s.procs| && s.on[p] == c && IsExecuting(s.cpus, s.on, p) && ExecutingOk(s.procs[p])
  {
    assert s.cpus[c].proc == ProcOf(s.cpus[c].mode);
  }

  /** Only process p, and processes that are on no CPU, may have moved in a step of p. */
  predicate OnlyMoves(s: State, s': State, p: nat) {
    && |s'.procs| == |s.procs| == |s.on|
    && forall q :: 0 <= q < |s.procs| && q != p && IsExecuting(s.cpus, s.on, q) ==> s'.procs[q].pc == s.procs[q].pc
  }

  /** Another CPU is under the same locks after a step of process p, which it is not executing. */
  lemma OthersSame(s: State, s': State, c: nat, p: nat)
    requires Executes(s, c, p) && |s'.cpus| == |s.cpus| && OnlyMoves(s, s', p)
    requires forall d :: 0 <= d < |s.cpus| && d != c ==> s'.cpus[d] == s.cpus[d]
    ensures forall d :: 0 <= d < |s.cpus| && d != c ==>
              CpuPLock(s', d) == CpuPLock(s, d) && CpuSLock(s', d) == CpuSLock(s, d)
  {
    ExecutesIs(s, c, p);
    forall d | 0 <= d < |s.cpus| && d != c
      ensures CpuPLock(s', d) == CpuPLock(s, d) && CpuSLock(s', d) == CpuSLock(s, d)
    {
      assert s.cpus[d].proc == ProcOf(s.cpus[d].mode);
      if s.cpus[d].mode.InProc? {
        assert IsExecuting(s.cpus, s.on, s.cpus[d].mode.p);
      }
    }
  }

  /** The releasesleep under way on a lock that CPU c is not under stays where it is. */
  lemma WakeAtSame(s: State, s': State, c: nat, p: nat, l: nat)
    requires Executes(s, c, p) && |s'.cpus| == |s.cpus| && OnlyMoves(s, s', p)
    requires forall d :: 0 <= d < |s.cpus| && d != c ==> s'.cpus[d] == s.cpus[d]
    requires l < |s.sl| == |s'.sl| && s.sl[l].spin != c && s'.sl[l].spin == s.sl[l].spin
    ensures WakeAt(s', l) == WakeAt(s, l)
  {
    ExecutesIs(s, c, p);
    var d := s.sl[l].spin;
    if 0 <= d < |s.cpus| && s.cpus[d].mode.InProc? {
      assert s.cpus[d].proc == ProcOf(s.cpus[d].mode);
      assert IsExecuting(s.cpus, s.on, s.cpus[d].mode.p);
    }
  }

  /** What a process relies on, of a lock and of the others' states, when process p has taken a step. */
  predicate OthersAre(s: State, s': State, p: nat, x: nat) {
    && |s'.procs| == |s.procs| && |s'.sl| == |s.sl|
    && forall q :: 0 <= q < |s.procs| && q != p && q != x ==> s'.procs[q] == s.procs[q]
  }

  lemma StatesStep(s: State, s': State, c: nat, p: nat, x: nat)
    requires Executes(s, c, p) && OthersAre(s, s', p, x) && s'.cpus == s.cpus && s'.on == s.on
    requires p < |s.procs| && ExecutingOk(s'.procs[p])
    requires x != p && x < |s.procs| ==> !IsExecuting(s.cpus, s.on, x) && SuspendedOk(s'.procs[x])
    ensures StatesOk(s'.procs, s'.cpus, s'.on)
  {
    ExecutesIs(s, c, p);
  }

  lemma ForksStep(s: State, s': State, p: nat, x: nat)
    requires Shape(s) && Forks(s.procs, s.forker) && OthersAre(s, s', p, x) && |s'.forker| == |s.forker|
    requires forall q :: 0 <= q < |s.procs| && q != x ==> s'.forker[q] == s.forker[q]
    requires p < |s.procs| && s.procs[p].state != Used
    requires x < |s.procs| && (s.procs[x].state != Used || s.forker[x] == p)
    requires ForkFact(s'.procs, s'.forker, p, ForkOf(s'.procs[p].pc))
    requires x != p ==> ForkOf(s'.procs[x].pc) == NONE
    ensures Forks(s'.procs, s'.forker)
  {
    forall q | 0 <= q < |s.procs| ensures ForkFact(s'.procs, s'.forker, q, ForkOf(s'.procs[q].pc)) {
      assert ForkFact(s.procs, s.forker, q, ForkOf(s.procs[q].pc));
    }
  }

  predicate SameLocks(sl: seq<SleepLock>, sl': seq<SleepLock>) {
    && |sl'| == |sl|
    && forall l :: 0 <= l < |sl| ==> sl'[l].locked == sl[l].locked && sl'[l].holder == sl[l].holder
  }

  lemma LockFactsSame(s: State, s': State, p: nat, x: nat)
    requires LockFacts(s.procs, s.sl) && OthersAre(s, s', p, x) && SameLocks(s.sl, s'.sl)
    requires p < |s.procs| && LockFact(s'.sl, p, s'.procs[p].pc)
    requires x < |s.procs| && (s'.procs[x].pc == s.procs[x].pc || LockFact(s'.sl, x, s'.procs[x].pc))
    ensures LockFacts(s'.procs, s'.sl)
  {
    forall q | 0 <= q < |s.procs| ensures LockFact(s'.sl, q, s'.procs[q].pc) {
      assert LockFact(s.sl, q, s.procs[q].pc);
    }
  }

  /** Whoever relies on a sleep-lock's being locked or not has its spinlock. */
  lemma RelierHolds(s: State, q: nat, l: nat)
    requires Inv(s) && q < |s.procs| && SLock(Core(s.procs[q].pc)) == l
    ensures 0 <= s.on[q] < |s.cpus| && s.cpus[s.on[q]].mode == InProc(q) && l < |s.sl| && s.sl[l].spin == s.on[q]
  {
    assert PcOk(s, s.procs[q].pc);
    assert IsExecuting(s.cpus, s.on, q);
    assert CpuSLock(s, s.on[q]) == l;
  }

  /** Taking or giving up a sleep-lock contradicts nothing that another process has learnt. */
  lemma LockFactsChange(s: State, s': State, c: nat, p: nat, l: nat)
    requires Executes(s, c, p) && OthersAre(s, s', p, p) && p < |s.procs| && l < |s.sl| && s.sl[l].spin == c
    requires SLock(s'.procs[p].pc) == l && LockFact(s'.sl, p, s'.procs[p].pc)
    requires forall k :: 0 <= k < |s.sl| && k != l ==> s'.sl[k] == s.sl[k]
    requires s'.sl[l].locked <==> s'.sl[l].holder != NONE
    requires s.sl[l].holder == NONE || s.sl[l].holder == p
    ensures LockFacts(s'.procs, s'.sl)
  {
    forall q | 0 <= q < |s.procs| ensures LockFact(s'.sl, q, s'.procs[q].pc) {
      assert LockFact(s.sl, q, s.procs[q].pc);
      if q != p && SLock(Core(s.procs[q].pc)) == l {
        RelierHolds(s, q, l);
      }
    }
  }

  /** What a step of p may do to the processes that sleep: end a sleep, or begin its own on a held lock. */
  predicate Sleeps(s: State, s': State, p: nat, q: nat)
    requires q < |s.procs| == |s'.procs|
  {
    var l := SleepOn(s'.procs[q]);
    || l == NONE
    || (q == p && 0 <= l < |s'.sl| && s'.sl[l].locked)
    || l == SleepOn(s.procs[q])
  }

  /** A process sleeping on the lock that p is waking, at or beyond p's index, stays ahead of p. */
  predicate KeepsWaking(s: State, s': State, p: nat, q: nat)
    requires p < |s.procs| == |s'.procs| && q < |s.procs|
  {
    var pc, pc' := s.procs[p].pc, s'.procs[p].pc;
    NONE < WakeIndex(pc) <= q && SleepOn(s'.procs[q]) == SLock(pc) ==>
      SLock(pc') == SLock(pc) && NONE < WakeIndex(pc') <= q
  }

  lemma AwaitedStep(s: State, s': State, c: nat, p: nat, q: nat, l: nat)
    requires Executes(s, c, p) && |s'.cpus| == |s.cpus| && OnlyMoves(s, s', p) && |s'.sl| == |s.sl| && Owners(s')
    requires forall d :: 0 <= d < |s.cpus| && d != c ==> s'.cpus[d] == s.cpus[d]
    requires q < |s.procs| && p < |s.procs| && l < |s.sl| && SleepOn(s'.procs[q]) == l == SleepOn(s.procs[q])
    requires s'.sl[l].spin == s.sl[l].spin || s.sl[l].spin == c || s.sl[l].spin == NONE
    requires s'.cpus[c] == s.cpus[c] || WakeIndex(s.procs[p].pc) == NONE
    requires KeepsWaking(s, s', p, q)
    requires s.sl[l].locked && !s'.sl[l].locked ==>
               s'.cpus[c] == s.cpus[c] && SLock(s'.procs[p].pc) == l && WakeIndex(s'.procs[p].pc) == 0
    ensures Awaited(s', q, l)
  {
    ExecutesIs(s, c, p);
    assert Awaited(s, q, SleepOn(s.procs[q]));
    if s.sl[l].locked {
      if !s'.sl[l].locked {
        assert CpuSLock(s', c) == l;
      }
    } else if s.sl[l].spin == c {
      assert CpuSLock(s, c) == l;
      assert CpuSLock(s', c) == l;
    } else if s'.sl[l].spin == s.sl[l].spin {
      WakeAtSame(s, s', c, p, l);
    }
  }

  lemma WakeupsStep(s: State, s': State, c: nat, p: nat)
    requires Executes(s, c, p) && |s'.cpus| == |s.cpus| && OnlyMoves(s, s', p) && |s'.sl| == |s.sl| && Owners(s')
    requires forall d :: 0 <= d < |s.cpus| && d != c ==> s'.cpus[d] == s.cpus[d]
    requires p < |s.procs|
    requires forall l :: 0 <= l < |s.sl| ==> s'.sl[l].spin == s.sl[l].spin || s.sl[l].spin == c || s.sl[l].spin == NONE
    requires forall q :: 0 <= q < |s.procs| ==> Sleeps(s, s', p, q)
    requires forall q :: 0 <= q < |s.procs| ==> KeepsWaking(s, s', p, q)
    requires s'.cpus[c] == s.cpus[c] || WakeIndex(s.procs[p].pc) == NONE
    requires forall l :: 0 <= l < |s.sl| && s.sl[l].locked && !s'.sl[l].locked ==>
               s'.cpus[c] == s.cpus[c] && SLock(s'.procs[p].pc) == l && WakeIndex(s'.procs[p].pc) == 0
    ensures Wakeups(s')
  {
    forall q | 0 <= q < |s'.procs| ensures Awaited(s', q, SleepOn(s'.procs[q])) {
      assert Sleeps(s, s', p, q) && KeepsWaking(s, s', p, q);
      var l := SleepOn(s'.procs[q]);
      if l != NONE && !(q == p && 0 <= l < |s'.sl| && s'.sl[l].locked) {
        assert Awaited(s, q, SleepOn(s.procs[q]));
        AwaitedStep(s, s', c, p, q, l);
      }
    }
  }

  /** A step of process p that leaves it on its CPU keeps the invariant, if each part of it is kept. */
  lemma ProcStep(s: State, s': State, c: nat, p: nat, x: nat)
    requires Executes(s, c, p) && OthersAre(s, s', p, x) && s'.cpus == s.cpus && s'.on == s.on
    requires |s'.plock| == |s.plock| && |s'.forker| == |s.forker| && p < |s.procs| && x < |s.procs|
    requires OnlyMoves(s, s', p) && PcOk(s', s'.procs[p].pc) && PcOk(s', s'.procs[x].pc)
    requires Moves(s.plock, s'.plock, c, PLock(s.procs[p].pc, p), PLock(s'.procs[p].pc, p))
    requires Moves(Spins(s.sl), Spins(s'.sl), c, SLock(s.procs[p].pc), SLock(s'.procs[p].pc))
    requires StatesOk(s'.procs, s'.cpus, s'.on)
    requires Forks(s'.procs, s'.forker)
    requires LockFacts(s'.procs, s'.sl)
    requires forall q :: 0 <= q < |s.procs| ==> Sleeps(s, s', p, q)
    requires forall q :: 0 <= q < |s.procs| ==> KeepsWaking(s, s', p, q)
    requires forall l :: 0 <= l < |s.sl| && s.sl[l].locked && !s'.sl[l].locked ==>
               SLock(s'.procs[p].pc) == l && WakeIndex(s'.procs[p].pc) == 0
    ensures Inv(s')
  {
    ExecutesIs(s, c, p);
    OthersSame(s, s', c, p);
    OwnersStep(s, s', c);
    forall l | 0 <= l < |s.sl| ensures s'.sl[l].spin == s.sl[l].spin || s.sl[l].spin == c || s.sl[l].spin == NONE {
      assert Spins(s.sl)[l] == s.sl[l].spin && Spins(s'.sl)[l] == s'.sl[l].spin;
      assert CpuSLock(s, c) == SLock(s.procs[p].pc);
    }
    WakeupsStep(s, s', c, p);
    assert Shape(s') by {
      forall q | 0 <= q < |s.procs| ensures PcOk(s', s'.procs[q].pc) {
        assert PcOk(s, s.procs[q].pc);
      }
    }
  }

  /** Process p, RUNNING before and after, goes on to `pc` and forgets nothing that others rely on. */
  predicate GoesOn(s: State, p: nat, pc: Pc)
    requires p < |s.procs|
  {
    var was := s.procs[p].pc;
    && PcOk(s, pc) && s.procs[p].state == Running && ExecutingOk(s.procs[p].(pc := pc))
    && ForkOf(pc) == ForkOf(was)
    && LockFact(s.sl, p, pc)
    && (pc.SlSet? ==> pc.l < |s.sl| && s.sl[pc.l].locked && WakeIndex(was) == NONE)
    && forall q :: 0 <= q < |s.procs| && q != p && NONE < WakeIndex(was) <= q && SleepOn(s.procs[q]) == SLock(was) ==>
         SLock(pc) == SLock(was) && NONE < WakeIndex(pc) <= q
  }

  lemma PlainSleeps(s: State, s': State, p: nat, pc: Pc)
    requires p < |s.procs| && GoesOn(s, p, pc) && s'.procs == SetPc(s, p, pc).procs && SameLocks(s.sl, s'.sl)
    ensures forall q :: 0 <= q < |s.procs| ==> Sleeps(s, s', p, q)
    ensures forall q :: 0 <= q < |s.procs| ==> KeepsWaking(s, s', p, q)
  {
  }

  /** Statements that only move p on, under a change of the locks its CPU holds. */
  lemma PlainStep(s: State, s': State, c: nat, p: nat, pc: Pc)
    requires Executes(s, c, p) && p < |s.procs| && GoesOn(s, p, pc)
    requires s' == SetPc(s, p, pc).(plock := s'.plock, sl := s'.sl) && SameLocks(s.sl, s'.sl)
    requires Moves(s.plock, s'.plock, c, PLock(s.procs[p].pc, p), PLock(pc, p))
    requires Moves(Spins(s.sl), Spins(s'.sl), c, SLock(s.procs[p].pc), SLock(pc))
    ensures Inv(s')
  {
    ExecutesIs(s, c, p);
    StatesStep(s, s', c, p, p);
    assert ForkFact(s.procs, s.forker, p, ForkOf(s.procs[p].pc));
    ForksStep(s, s', p, p);
    LockFactsSame(s, s', p, p);
    PlainSleeps(s, s', p, pc);
    ProcStep(s, s', c, p, p);
  }

  lemma SetSpin(s: State, l: nat, c: int)
    requires l < |s.sl|
    ensures Spins(SetS(s, l, c).sl) == Spins(s.sl)[l := c] && SameLocks(s.sl, SetS(s, l, c).sl)
  {
  }

  /** CPU c may execute the next statement of process p. */
  ghost predicate Ready(s: State, c: nat, p: nat) {
    && Executes(s, c, p) && p < |s.procs| && !s.procs[p].pc.User? && Enabled(s, c, Go)
    && PcOk(s, s.procs[p].pc) && LockFact(s.sl, p, s.procs[p].pc)
  }

  lemma AcquireOwn(s: State, c: nat, p: nat)
    requires Ready(s, c, p)
    requires var pc := s.procs[p].pc; pc.YieldAcq? || pc.SlAcq? || pc.ExAcq?
    ensures Inv(ProcNext(s, c, p))
  {
    hide Dispatched, StatesOk, Forks, LockFacts, Wakeups, Owners;
    ExecutesIs(s, c, p);
    var s' := ProcNext(s, c, p);
    PlainStep(s, s', c, p, s'.procs[p].pc);
  }

  lemma AcquireOther(s: State, c: nat, p: nat)
    requires Ready(s, c, p)
    requires s.procs[p].pc.KlAcq? || s.procs[p].pc.RpAcq?
    ensures Inv(ProcNext(s, c, p))
  {
    hide Dispatched, StatesOk, Forks, LockFacts, Wakeups;
    ExecutesIs(s, c, p);
    var s' := ProcNext(s, c, p);
    PlainStep(s, s', c, p, s'.procs[p].pc);
  }

  lemma AcquireChild(s: State, c: nat, p: nat)
    requires Ready(s, c, p)
    requires s.procs[p].pc.FkAcq? || s.procs[p].pc.FkAcq2?
    ensures Inv(ProcNext(s, c, p))
  {
    hide Dispatched, StatesOk, Forks, LockFacts, Wakeups;
    ExecutesIs(s, c, p);
    var s' := ProcNext(s, c, p);
    PlainStep(s, s', c, p, s'.procs[p].pc);
  }

  lemma ReleaseOwn(s: State, c: nat, p: nat)
    requires Ready(s, c, p)
    requires var pc := s.procs[p].pc; pc.YieldBack? || pc.ForkRet? || pc.SlRelOwn?
    ensures Inv(ProcNext(s, c, p))
  {
    hide Dispatched, StatesOk, Forks, LockFacts, Wakeups;
    ExecutesIs(s, c, p);
    var s' := ProcNext(s, c, p);
    PlainStep(s, s', c, p, s'.procs[p].pc);
  }

  lemma ReleaseOther(s: State, c: nat, p: nat)
    requires Ready(s, c, p)
    requires var pc := s.procs[p].pc; pc.WkRel? || pc.FkRel? || pc.QRel?
    ensures Inv(ProcNext(s, c, p))
  {
    hide Dispatched, StatesOk, Forks, LockFacts, Wakeups;
    ExecutesIs(s, c, p);
    var s' := ProcNext(s, c, p);
    PlainStep(s, s', c, p, s'.procs[p].pc);
  }

  lemma AcquireSleepSpin(s: State, c: nat, p: nat)
    requires Ready(s, c, p) && (s.procs[p].pc.AsAcq? || s.procs[p].pc.RsAcq?)
    ensures Inv(ProcNext(s, c, p))
  {
    hide Dispatched, StatesOk, Forks, LockFacts, Wakeups;
    ExecutesIs(s, c, p);
    var s' := ProcNext(s, c, p);
    SetSpin(s, s.procs[p].pc.l, c);
    PlainStep(s, s', c, p, s'.procs[p].pc);
  }

  lemma ReleaseSleepSpin(s: State, c: nat, p: nat)
    requires Ready(s, c, p) && (s.procs[p].pc.AsRel? || s.procs[p].pc.SlRel? || s.procs[p].pc.RsRel?)
    ensures Inv(ProcNext(s, c, p))
  {
    hide Dispatched, StatesOk, Forks, LockFacts, Wakeups;
    ExecutesIs(s, c, p);
    var s' := ProcNext(s, c, p);
    SetSpin(s, s.procs[p].pc.l, NONE);
    PlainStep(s, s', c, p, s'.procs[p].pc);
  }

  /** wakeup goes on to the next process: it acquires its lock, passes over p itself, or is done. */
  lemma WakeNext(s: State, c: nat, p: nat)
    requires Ready(s, c, p) && s.procs[p].pc.WkAcq?
    ensures Inv(ProcNext(s, c, p))
  {
    hide Dispatched, StatesOk, Forks, LockFacts, Wakeups;
    ExecutesIs(s, c, p);
    var s' := ProcNext(s, c, p);
    PlainStep(s, s', c, p, s'.procs[p].pc);
  }

  lemma TestSleepLock(s: State, c: nat, p: nat)
    requires Ready(s, c, p) && s.procs[p].pc.AsTest?
    ensures Inv(ProcNext(s, c, p))
  {
    hide Dispatched, StatesOk, Forks, LockFacts, Wakeups;
    ExecutesIs(s, c, p);
    var s' := ProcNext(s, c, p);
    PlainStep(s, s', c, p, s'.procs[p].pc);
  }

  /** A timer interrupt. */
  lemma Interrupts(s: State, c: nat, p: nat)
    requires Executes(s, c, p) && p < |s.procs| && Enabled(s, c, Preempt)
    ensures Inv(Next(s, c, Preempt))
  {
    hide Dispatched, StatesOk, Forks, Wakeups;
    ExecutesIs(s, c, p);
    assert PcOk(s, s.procs[p].pc) && LockFact(s.sl, p, s.procs[p].pc);
    hide LockFacts, Owners;
    PlainStep(s, Next(s, c, Preempt), c, p, YieldAcq(s.procs[p].pc));
  }

  /** The start of a system call. */
  lemma Enters(s: State, c: nat, p: nat, entry: Pc)
    requires Executes(s, c, p) && p < |s.procs| && Enabled(s, c, Start(entry))
    ensures Inv(Next(s, c, Start(entry)))
  {
    hide Dispatched, StatesOk, Forks, LockFacts, Wakeups, Owners;
    ExecutesIs(s, c, p);
    PlainStep(s, Next(s, c, Start(entry)), c, p, entry);
  }

  /** A process changes its own state on the way to swtch, or its channel on the way back. */
  lemma GivesUp(s: State, c: nat, p: nat)
    requires Ready(s, c, p) && (s.procs[p].pc.YieldSet? || s.procs[p].pc.ExSet?)
    ensures Inv(ProcNext(s, c, p))
  {
    hide Dispatched, LockFacts, StatesOk, Wakeups;
    ExecutesIs(s, c, p);
    var s' := ProcNext(s, c, p);
    StatesStep(s, s', c, p, p);
    assert ForkFact(s.procs, s.forker, p, ForkOf(s.procs[p].pc));
    ForksStep(s, s', p, p);
    LockFactsSame(s, s', p, p);
    ProcStep(s, s', c, p, p);
  }

  lemma SleepsOrWakes(s: State, c: nat, p: nat)
    requires Ready(s, c, p) && (s.procs[p].pc.SlSet? || s.procs[p].pc.SlBack?)
    ensures Inv(ProcNext(s, c, p))
  {
    hide Dispatched, LockFacts, StatesOk, Wakeups;
    ExecutesIs(s, c, p);
    var s' := ProcNext(s, c, p);
    StatesStep(s, s', c, p, p);
    assert ForkFact(s.procs, s.forker, p, ForkOf(s.procs[p].pc));
    ForksStep(s, s', p, p);
    LockFactsSame(s, s', p, p);
    ProcStep(s, s', c, p, p);
  }

  /** acquiresleep takes the lock, and releasesleep gives it up. */
  lemma TakeOrGive(s: State, c: nat, p: nat)
    requires Ready(s, c, p) && (s.procs[p].pc.AsSet? || s.procs[p].pc.RsSet?)
    ensures Inv(ProcNext(s, c, p))
  {
    ExecutesIs(s, c, p);
    var s' := ProcNext(s, c, p);
    var l := s.procs[p].pc.l;
    assert CpuSLock(s, c) == l;
    assert Spins(s'.sl) == Spins(s.sl);
    StatesStep(s, s', c, p, p);
    ForksStep(s, s', p, p);
    LockFactsChange(s, s', c, p, l);
    ProcStep(s, s', c, p, p);
  }

  /** A process whose lock is held elsewhere and that is not RUNNING is on no CPU. */
  lemma NotOnCpu(s: State, c: nat, x: nat)
    requires Inv(s) && c < |s.cpus| && x < |s.procs| && CpuPLock(s, c) == x && s.cpus[c].mode != InProc(x)
    requires s.procs[x].state != Running
    ensures !IsExecuting(s.cpus, s.on, x)
  {
    var held := if 0 <= s.on[x] < |s.cpus| then CpuPLock(s, s.on[x]) else NONE;
  }

  /** A statement made under the lock of another process x, which is on no CPU, sets x to `pr`. */
  lemma OtherState(s: State, s': State, c: nat, p: nat, x: nat, pr: Proc, pc: Pc)
    requires Executes(s, c, p) && p < |s.procs| && x < |s.procs| && PLock(s.procs[p].pc, p) == x == PLock(pc, p)
    requires x != p
    requires s.procs[p].state == Running && s.procs[x].state != Running && s.procs[x].state != Runnable
    requires s' == s.(procs := s.procs[x := pr][p := s.procs[p].(pc := pc)], forker := s'.forker)
    requires |s'.forker| == |s.forker| && (forall q :: 0 <= q < |s.procs| && q != x ==> s'.forker[q] == s.forker[q])
    requires SuspendedOk(pr) && (pr.pc == s.procs[x].pc || pr.pc.ForkRet?) && pr.state != Sleeping
    requires s.procs[x].state != Used || s.forker[x] == p
    requires PcOk(s, pc) && ExecutingOk(s.procs[p].(pc := pc)) && LockFact(s.sl, p, pc)
    requires SLock(pc) == SLock(s.procs[p].pc)
    requires ForkFact(s'.procs, s'.forker, p, ForkOf(pc))
    requires s.procs[p].pc.WkTest? ==> pc.WkRel? && pc.i == s.procs[p].pc.i
    requires !s.procs[p].pc.WkTest? ==> WakeIndex(s.procs[p].pc) == NONE && !pc.SlSet? && !pc.SlSched?
    ensures Inv(s')
  {
    ExecutesIs(s, c, p);
    assert PcOk(s, s.procs[x].pc);
    assert CpuPLock(s, c) == x;
    NotOnCpu(s, c, x);
    assert SuspendedOk(s.procs[x]);
    StatesStep(s, s', c, p, x);
    ForksStep(s, s', p, x);
    LockFactsSame(s, s', p, x);
    ProcStep(s, s', c, p, x);
  }

  /** A process whose lock another holds is not on its way into sleep. */
  lemma NotGoingToSleep(s: State, c: nat, x: nat)
    requires Inv(s) && c < |s.cpus| && x < |s.procs| && CpuPLock(s, c) == x && s.cpus[c].mode != InProc(x)
    ensures !s.procs[x].pc.SlSet?
  {
    var held := if 0 <= s.on[x] < |s.cpus| then CpuPLock(s, s.on[x]) else NONE;
  }

  /** wakeup makes a process that sleeps on the lock RUNNABLE. */
  lemma Wakes(s: State, c: nat, p: nat, l: nat, x: nat)
    requires Ready(s, c, p) && s.procs[p].pc == WkTest(l, x) && s.procs[x].state == Sleeping && s.procs[x].chan == l
    ensures Inv(ProcNext(s, c, p))
  {
    hide Dispatched, LockFacts, Wakeups, Owners;
    ExecutesIs(s, c, p);
    assert CpuPLock(s, c) == x;
    NotOnCpu(s, c, x);
    OtherState(s, ProcNext(s, c, p), c, p, x, s.procs[x].(state := Runnable), WkRel(l, x));
  }

  /** It passes over the others, none of which is about to sleep on the lock. */
  lemma NoneMissed(s: State, c: nat, p: nat, l: nat, x: nat)
    requires Ready(s, c, p) && s.procs[p].pc == WkTest(l, x) && !(s.procs[x].state == Sleeping && s.procs[x].chan == l)
    ensures GoesOn(s, p, WkRel(l, x))
  {
    hide Owners, Dispatched, Forks, LockFacts, Wakeups;
    ExecutesIs(s, c, p);
    assert CpuPLock(s, c) == x;
    if x != p {
      NotGoingToSleep(s, c, x);
      assert if IsExecuting(s.cpus, s.on, x) then ExecutingOk(s.procs[x]) else SuspendedOk(s.procs[x]);
    }
  }

  lemma PassesOver(s: State, c: nat, p: nat, l: nat, x: nat)
    requires Ready(s, c, p) && s.procs[p].pc == WkTest(l, x) && !(s.procs[x].state == Sleeping && s.procs[x].chan == l)
    ensures Inv(ProcNext(s, c, p))
  {
    hide Dispatched, StatesOk, Forks, LockFacts, Wakeups;
    NoneMissed(s, c, p, l, x);
    PlainStep(s, ProcNext(s, c, p), c, p, WkRel(l, x));
  }

  /** kill, wait and fork of a process that is not asleep, not a zombie, not unused. */
  lemma LeavesAlone(s: State, c: nat, p: nat, x: nat)
    requires Ready(s, c, p) && ProcNext(s, c, p) == SetPc(s, p, QRel(x))
    requires s.procs[p].pc == KlSet(x) || s.procs[p].pc == RpTest(x) || s.procs[p].pc == FkTest(x)
    ensures Inv(ProcNext(s, c, p))
  {
    hide Dispatched, StatesOk, Forks, LockFacts, Wakeups;
    ExecutesIs(s, c, p);
    PlainStep(s, ProcNext(s, c, p), c, p, QRel(x));
  }

  lemma Kills(s: State, c: nat, p: nat, x: nat)
    requires Ready(s, c, p) && s.procs[p].pc == KlSet(x) && s.procs[x].state == Sleeping
    ensures Inv(ProcNext(s, c, p))
  {
    hide Dispatched, LockFacts, Wakeups;
    ExecutesIs(s, c, p);
    assert CpuPLock(s, c) == x;
    NotOnCpu(s, c, x);
    OtherState(s, ProcNext(s, c, p), c, p, x, s.procs[x].(state := Runnable), QRel(x));
  }

  lemma Reaps(s: State, c: nat, p: nat, x: nat)
    requires Ready(s, c, p) && s.procs[p].pc == RpTest(x) && s.procs[x].state == Zombie
    ensures Inv(ProcNext(s, c, p))
  {
    hide Dispatched, LockFacts, Wakeups;
    ExecutesIs(s, c, p);
    assert CpuPLock(s, c) == x;
    NotOnCpu(s, c, x);
    OtherState(s, ProcNext(s, c, p), c, p, x, s.procs[x].(state := Unused), QRel(x));
  }

  lemma Forking(s: State, c: nat, p: nat, x: nat)
    requires Ready(s, c, p) && s.procs[p].pc == FkTest(x) && s.procs[x].state == Unused
    ensures Inv(ProcNext(s, c, p))
  {
    ExecutesIs(s, c, p);
    OtherState(s, ProcNext(s, c, p), c, p, x, Proc(Used, NONE, ForkRet), FkRel(x));
  }

  /** fork makes its new process RUNNABLE. */
  lemma Starts(s: State, c: nat, p: nat)
    requires Ready(s, c, p) && s.procs[p].pc.FkSet?
    ensures Inv(ProcNext(s, c, p))
  {
    hide Dispatched, LockFacts, Wakeups;
    ExecutesIs(s, c, p);
    assert ForkFact(s.procs, s.forker, p, ForkOf(s.procs[p].pc));
    var x := s.procs[p].pc.q;
    assert CpuPLock(s, c) == x;
    NotOnCpu(s, c, x);
    OtherState(s, ProcNext(s, c, p), c, p, x, s.procs[x].(state := Runnable), QRel(x));
  }

  // The scheduler, and the swtch into it.

  lemma OwnersSwitch(s: State, s': State, c: nat)
    requires Inv(s) && c < |s.cpus| && |s'.cpus| == |s.cpus| && s'.sl == s.sl && |s'.procs| == |s.procs|
    requires forall d :: 0 <= d < |s.cpus| && d != c ==> s'.cpus[d] == s.cpus[d]
    requires forall q :: 0 <= q < |s.procs| && s.cpus[c].mode != InProc(q) ==> s'.procs[q].pc == s.procs[q].pc
    requires CpuSLock(s, c) == NONE == CpuSLock(s', c)
    requires Moves(s.plock, s'.plock, c, CpuPLock(s, c), CpuPLock(s', c))
    ensures Owners(s')
    ensures forall l :: 0 <= l < |s.sl| ==> WakeAt(s', l) == WakeAt(s, l)
  {
    forall d | 0 <= d < |s.cpus| && d != c
      ensures CpuPLock(s', d) == CpuPLock(s, d) && CpuSLock(s', d) == CpuSLock(s, d)
    {
      assert s.cpus[d].proc == ProcOf(s.cpus[d].mode) && s.cpus[c].proc == ProcOf(s.cpus[c].mode);
    }
    OwnersStep(s, s', c);
    forall l | 0 <= l < |s.sl| ensures WakeAt(s', l) == WakeAt(s, l) {
      var d := s.sl[l].spin;
      if d != NONE {
        assert s.cpus[d].proc == ProcOf(s.cpus[d].mode) && s.cpus[c].proc == ProcOf(s.cpus[c].mode);
      }
    }
  }

  /** swtch from process p into the scheduler, under p's lock; p is to go on at `pc`. */
  lemma SwitchKeeps(s: State, c: nat, p: nat, pc: Pc)
    requires Inv(s) && c < |s.cpus| && p < |s.procs| && SLock(s.procs[p].pc) == NONE && s.cpus[c].mode == InProc(p)
    requires ForkOf(pc) == ForkOf(s.procs[p].pc) && LockFact(s.sl, p, pc) && PcOk(s, pc)
    requires SleepOn(s.procs[p].(pc := pc)) == SleepOn(s.procs[p])
    ensures var s' := SetMode(SetPc(s, p, pc), c, InSched(ScBack(p)));
            Shape(s') && Forks(s'.procs, s'.forker) && LockFacts(s'.procs, s'.sl) && Wakeups(s')
  {
    hide Dispatched, StatesOk, PLock;
    var s' := SetMode(SetPc(s, p, pc), c, InSched(ScBack(p)));
    forall q | 0 <= q < |s.procs| ensures Awaited(s', q, SleepOn(s'.procs[q])) {
      assert Awaited(s, q, SleepOn(s.procs[q]));
    }
    forall q | 0 <= q < |s.procs| ensures ForkFact(s'.procs, s'.forker, q, ForkOf(s'.procs[q].pc)) {
      assert ForkFact(s.procs, s.forker, q, ForkOf(s.procs[q].pc));
    }
    forall q | 0 <= q < |s.procs| ensures LockFact(s'.sl, q, s'.procs[q].pc) && PcOk(s', s'.procs[q].pc) {
      assert LockFact(s.sl, q, s.procs[q].pc) && PcOk(s, s.procs[q].pc);
    }
  }

  lemma Switch(s: State, c: nat, p: nat, pc: Pc)
    requires Executes(s, c, p) && p < |s.procs|
    requires PLock(s.procs[p].pc, p) == p && SLock(s.procs[p].pc) == NONE
    requires ForkOf(pc) == ForkOf(s.procs[p].pc) && LockFact(s.sl, p, pc) && PcOk(s, pc)
    requires SuspendedOk(s.procs[p].(pc := pc)) && SleepOn(s.procs[p].(pc := pc)) == SleepOn(s.procs[p])
    ensures Inv(SetMode(SetPc(s, p, pc), c, InSched(ScBack(p))))
  {
    hide Forks, LockFacts, Wakeups, PcOk, LockFact, ForkOf, SleepOn;
    var s' := SetMode(SetPc(s, p, pc), c, InSched(ScBack(p)));
    ExecutesIs(s, c, p);
    SwitchKeeps(s, c, p, pc);
    OwnersSwitch(s, s', c);
  }

  lemma SwitchAway(s: State, c: nat, p: nat)
    requires Ready(s, c, p)
    requires var pc := s.procs[p].pc; pc.YieldSched? || pc.SlSched? || pc.ExSched?
    ensures Inv(ProcNext(s, c, p))
  {
    ExecutesIs(s, c, p);
    var s' := ProcNext(s, c, p);
    assert SetPc(s, p, s.procs[p].pc) == s;
    Switch(s, c, p, s'.procs[p].pc);
  }

  lemma WakeupsSame(s: State, s': State)
    requires Shape(s) && Wakeups(s) && s'.procs == s.procs && s'.sl == s.sl && |s'.plock| == |s.plock|
    requires |s'.on| == |s.on| && |s'.forker| == |s.forker|
    requires forall l :: 0 <= l < |s.sl| ==> WakeAt(s', l) == WakeAt(s, l)
    requires forall c :: 0 <= c < |s'.cpus| ==> ModeOk(s', s'.cpus[c].mode)
    ensures Wakeups(s') && Shape(s')
  {
    hide WakeAt, SleepOn, LockArg, ProcArg, IsYield, NoLocks;
    forall q | 0 <= q < |s.procs| ensures Awaited(s', q, SleepOn(s'.procs[q])) && PcOk(s', s'.procs[q].pc) {
      assert Awaited(s, q, SleepOn(s.procs[q])) && PcOk(s, s.procs[q].pc);
    }
  }

  /** The scheduler's steps under and about a process's lock, but for the dispatch. */
  lemma SchedLocks(s: State, c: nat, at: SchedPc)
    requires Inv(s) && c < |s.cpus| && s.cpus[c].mode == InSched(at) && Enabled(s, c, Go)
    requires at.ScTest? ==> s.procs[at.i].state != Runnable
    requires !at.ScBack?
    ensures Inv(SchedNext(s, c, at))
  {
    hide Forks, LockFacts, Wakeups, PcOk, LockFact, ForkOf, SleepOn, PLock, SLock, WakeAt;
    var s' := SchedNext(s, c, at);
    assert s.cpus[c].proc == ProcOf(s.cpus[c].mode);
    OwnersSwitch(s, s', c);
    WakeupsSame(s, s');
    forall q | 0 <= q < |s.procs| ensures IsExecuting(s'.cpus, s'.on, q) <==> IsExecuting(s.cpus, s.on, q) {
    }
  }

  /** The scheduler is back from a process, which is then on no CPU. */
  lemma SchedBack(s: State, c: nat, i: nat)
    requires Inv(s) && c < |s.cpus| && s.cpus[c].mode == InSched(ScBack(i))
    ensures Inv(SchedNext(s, c, ScBack(i)))
  {
    hide Forks, LockFacts, Wakeups, PcOk, LockFact, ForkOf, SleepOn, PLock, SLock, WakeAt;
    var s' := SchedNext(s, c, ScBack(i));
    assert s.cpus[c].proc == ProcOf(s.cpus[c].mode);
    OwnersSwitch(s, s', c);
    WakeupsSame(s, s');
    forall q | 0 <= q < |s.procs| ensures IsExecuting(s'.cpus, s'.on, q) <==> IsExecuting(s.cpus, s.on, q) {
    }
  }

  lemma RunnableIsOff(s: State, c: nat, i: nat)
    requires Inv(s) && c < |s.cpus| && s.cpus[c].mode == InSched(ScTest(i)) && s.procs[i].state == Runnable
    ensures s.on[i] == NONE
  {
    assert CpuPLock(s, c) == i;
    NotOnCpu(s, c, i);
    var held := if 0 <= s.on[i] < |s.cpus| then CpuPLock(s, s.on[i]) else NONE;
  }

  lemma DispatchKeeps(s: State, c: nat, i: nat)
    requires Inv(s) && c < |s.cpus| && i < |s.procs| && s.cpus[c].mode == InSched(ScTest(i))
    requires s.procs[i].state == Runnable
    ensures var s' := SchedNext(s, c, ScTest(i));
            Shape(s') && Forks(s'.procs, s'.forker) && LockFacts(s'.procs, s'.sl) && Wakeups(s')
  {
    hide Dispatched, PLock;
    var s' := SchedNext(s, c, ScTest(i));
    RunnableIsOff(s, c, i);
    forall q | 0 <= q < |s.procs| ensures Awaited(s', q, SleepOn(s'.procs[q])) && PcOk(s', s'.procs[q].pc) {
      assert Awaited(s, q, SleepOn(s.procs[q])) && PcOk(s, s.procs[q].pc);
    }
    forall q | 0 <= q < |s.procs| ensures ForkFact(s'.procs, s'.forker, q, ForkOf(s'.procs[q].pc)) {
      assert ForkFact(s.procs, s.forker, q, ForkOf(s.procs[q].pc));
    }
  }

  lemma Dispatches(s: State, c: nat, i: nat)
    requires Inv(s) && c < |s.cpus| && s.cpus[c].mode == InSched(ScTest(i)) && s.procs[i].state == Runnable
    ensures Inv(SchedNext(s, c, ScTest(i)))
  {
    hide Forks, LockFacts, Wakeups, PcOk, LockFact, ForkOf, SleepOn;
    var s' := SchedNext(s, c, ScTest(i));
    assert CpuPLock(s, c) == i;
    NotOnCpu(s, c, i);
    RunnableIsOff(s, c, i);
    DispatchKeeps(s, c, i);
    assert s.cpus[c].proc == ProcOf(s.cpus[c].mode);
    OwnersSwitch(s, s', c);
    forall q | 0 <= q < |s.procs| && q != i ensures IsExecuting(s'.cpus, s'.on, q) <==> IsExecuting(s.cpus, s.on, q) {
    }
  }

  lemma ProcNextInv(s: State, c: nat, p: nat)
    requires Ready(s, c, p)
    ensures Inv(ProcNext(s, c, p))
  {
    hide Owners, Dispatched, StatesOk, Forks, LockFacts, Wakeups;
    match s.procs[p].pc
    case YieldAcq(_) => AcquireOwn(s, c, p);
    case YieldSet(_) => GivesUp(s, c, p);
    case YieldSched(_) => SwitchAway(s, c, p);
    case YieldBack(_) => ReleaseOwn(s, c, p);
    case ForkRet => ReleaseOwn(s, c, p);
    case AsAcq(_) => AcquireSleepSpin(s, c, p);
    case AsTest(_) => TestSleepLock(s, c, p);
    case AsSet(_) => TakeOrGive(s, c, p);
    case AsRel(_) => ReleaseSleepSpin(s, c, p);
    case SlAcq(_) => AcquireOwn(s, c, p);
    case SlRel(_) => ReleaseSleepSpin(s, c, p);
    case SlSet(_) => SleepsOrWakes(s, c, p);
    case SlSched(_) => SwitchAway(s, c, p);
    case SlBack(_) => SleepsOrWakes(s, c, p);
    case SlRelOwn(_) => ReleaseOwn(s, c, p);
    case RsAcq(_) => AcquireSleepSpin(s, c, p);
    case RsSet(_) => TakeOrGive(s, c, p);
    case RsRel(_) => ReleaseSleepSpin(s, c, p);
    case WkAcq(_, _) => WakeNext(s, c, p);
    case WkTest(l, x) =>
      if s.procs[x].state == Sleeping && s.procs[x].chan == l {
        Wakes(s, c, p, l, x);
      } else {
        PassesOver(s, c, p, l, x);
      }
    case WkRel(_, _) => ReleaseOther(s, c, p);
    case KlAcq(_) => AcquireOther(s, c, p);
    case KlSet(x) => if s.procs[x].state == Sleeping { Kills(s, c, p, x); } else { LeavesAlone(s, c, p, x); }
    case RpAcq(_) => AcquireOther(s, c, p);
    case RpTest(x) => if s.procs[x].state == Zombie { Reaps(s, c, p, x); } else { LeavesAlone(s, c, p, x); }
    case FkAcq(_) => AcquireChild(s, c, p);
    case FkTest(x) => if s.procs[x].state == Unused { Forking(s, c, p, x); } else { LeavesAlone(s, c, p, x); }
    case FkRel(_) => ReleaseOther(s, c, p);
    case FkAcq2(_) => AcquireChild(s, c, p);
    case FkSet(_) => Starts(s, c, p);
    case QRel(_) => ReleaseOther(s, c, p);
    case ExAcq => AcquireOwn(s, c, p);
    case ExSet => GivesUp(s, c, p);
    case ExSched => SwitchAway(s, c, p);
  }

  lemma NextInv(s: State, c: nat, a: Action)
    requires Inv(s) && Enabled(s, c, a)
    ensures Inv(Next(s, c, a))
  {
    match s.cpus[c].mode
    case InSched(at) =>
      if at.ScTest? && s.procs[at.i].state == Runnable { Dispatches(s, c, at.i); }
      else if at.ScBack? { SchedBack(s, c, at.i); } else { SchedLocks(s, c, at); }
    case InProc(p) =>
      match a {
        case Go =>
          assert PcOk(s, s.procs[p].pc) && LockFact(s.sl, p, s.procs[p].pc);
          ProcNextInv(s, c, p);
        case Preempt => Interrupts(s, c, p);
        case Start(entry) => Enters(s, c, p, entry);
      }
  }
}
