/**
 begin_op, log_write and end_op of kernel/log.c under any interleaving of any number of
 processes. Every step is one critical section of log.lock. A process that finds the log
 busy sleeps on it, and wakeup makes every sleeper test again.
 */
module GroupCommit {
  import opened BufferCache
  import opened LogSpec

  datatype Proc =
    | Outside
    | Testing                       // in begin_op, about to test
    | Asleep                        // in begin_op, sleeping on the log
    | Active(op: nat, added: nat)   // between begin_op and end_op, `added` new blocks so far
    | Committing(done: bool)        // in end_op, `done` once commit() has returned

  /** A log_write that took effect: by which operation, in which transaction, of which block. */
  datatype Event = Event(op: nat, txn: nat, block: nat)

  /**
   What begin_op reserves for an operation, how many blocks the header has room for, how many new
   blocks an operation adds at most, and the blocks of the log on disk.
   */
  datatype Config = Config(reserve: nat, cap: nat, quota: nat, size: nat)

  /** The kernel's constants. */
  function Kernel(quota: nat, size: nat): Config {
    Config(MAXOPBLOCKS, LOGSIZE, quota, size)
  }

  datatype State = State(
    procs: seq<Proc>, outstanding: int, committing: bool, block: seq<nat>, cfg: Config, panicked: bool,
    // The transaction each operation began in, the current transaction, and what was logged.
    began: seq<nat>, txn: nat, history: seq<Event>)

  datatype Step =
    | Begin(p: nat)
    | Test(p: nat)
    | LogWrite(p: nat, b: nat)
    | End(p: nat)
    | Commit(p: nat)
    | Finish(p: nat)

  predicate Admits(s: State) {
    !s.committing && |s.block| + (s.outstanding + 1) * s.cfg.reserve <= s.cfg.cap
  }

  predicate TooBig(s: State) {
    |s.block| >= s.cfg.cap || |s.block| >= s.cfg.size - 1
  }

  function Wake(procs: seq<Proc>): (r: seq<Proc>)
    ensures |r| == |procs|
  {
    seq(|procs|, i requires 0 <= i < |procs| => if procs[i].Asleep? then Testing else procs[i])
  }

  /** A step a process can take. An operation adds at most its quota of new blocks to the log. */
  predicate Enabled(s: State, step: Step) {
    && !s.panicked
    && step.p < |s.procs|
    && match step
       case Begin(p) => s.procs[p].Outside?
       case Test(p) => s.procs[p].Testing?
       case LogWrite(p, b) => s.procs[p].Active? && (b in s.block || s.procs[p].added < s.cfg.quota)
       case End(p) => s.procs[p].Active?
       case Commit(p) => s.procs[p] == Committing(false)
       case Finish(p) => s.procs[p] == Committing(true)
  }

  function Take(s: State, step: Step): State
    requires Enabled(s, step)
  {
    match step
    case Begin(p) => s.(procs := s.procs[p := Testing])
    case Test(p) =>
      if s.committing then s.(procs := s.procs[p := Asleep])
      else if |s.block| + (s.outstanding + 1) * s.cfg.reserve > s.cfg.cap then s.(procs := s.procs[p := Asleep])
      else s.(procs := s.procs[p := Active(|s.began|, 0)], outstanding := s.outstanding + 1, began := s.began + [s.txn])
    case LogWrite(p, b) =>
      if TooBig(s) || s.outstanding < 1 then s.(panicked := true)
      else
        var a := s.procs[p];
        var s' := s.(history := s.history + [Event(a.op, s.txn, b)]);
        if b in s.block then s'
        else s'.(block := s.block + [b], procs := s.procs[p := a.(added := a.added + 1)])
    case End(p) =>
      var s' := s.(outstanding := s.outstanding - 1);
      if s.committing then s'.(panicked := true)
      else if s'.outstanding == 0 then s'.(committing := true, procs := s.procs[p := Committing(false)])
      else s'.(procs := Wake(s.procs[p := Outside]))
    case Commit(p) => s.(block := [], txn := s.txn + 1, procs := s.procs[p := Committing(true)])
    case Finish(p) => s.(committing := false, procs := Wake(s.procs[p := Outside]))
  }

  function Initial(processes: nat, cfg: Config): State {
    State(seq(processes, _ => Outside), 0, false, [], cfg, false, [], 0, [])
  }

  // Counting over the processes.

  function Sum(procs: seq<Proc>, w: Proc -> nat): nat {
    if procs == [] then 0 else w(procs[0]) + Sum(procs[1..], w)
  }

  lemma {:induction false} SumUpdate(procs: seq<Proc>, p: nat, x: Proc, w: Proc -> nat)
    requires p < |procs|
    ensures Sum(procs[p := x], w) == Sum(procs, w) - w(procs[p]) + w(x)
  {
    if p > 0 {
      assert procs[p := x][1..] == procs[1..][p - 1 := x];
      SumUpdate(procs[1..], p - 1, x, w);
    } else {
      assert procs[p := x][1..] == procs[1..];
    }
  }

  lemma {:induction false} SumZero(procs: seq<Proc>, w: Proc -> nat)
    ensures Sum(procs, w) == 0 <==> forall i :: 0 <= i < |procs| ==> w(procs[i]) == 0
  {
    if procs != [] {
      SumZero(procs[1..], w);
      assert forall i :: 0 < i < |procs| ==> procs[i] == procs[1..][i - 1];
    }
  }

  lemma {:induction false} SumWake(procs: seq<Proc>, w: Proc -> nat)
    requires w(Asleep) == w(Testing)
    ensures Sum(Wake(procs), w) == Sum(procs, w)
  {
    if procs != [] {
      assert Wake(procs)[1..] == Wake(procs[1..]);
      SumWake(procs[1..], w);
    }
  }

  function One(p: Proc): nat {
    if p.Active? then 1 else 0
  }

  /** What is left to an operation of an allowance of x blocks. */
  function Left(x: nat, p: Proc): nat {
    if p.Active? && p.added <= x then x - p.added else 0
  }

  function LeftOf(x: nat): Proc -> nat {
    p => Left(x, p)
  }

  /** What the operations under way have not yet spent of allowances of x blocks. */
  function Unspent(s: State, x: nat): nat {
    Sum(s.procs, LeftOf(x))
  }

  /** The most blocks that can come into the log before it is committed. */
  function Peak(cfg: Config): int {
    if cfg.quota == 0 then 0
    else if cfg.cap < 2 * cfg.reserve then cfg.quota
    else cfg.cap - 2 * cfg.reserve + 2 * cfg.quota
  }

  /** The operations under way began in the current transaction and keep to their quota. */
  ghost predicate ActiveOk(s: State) {
    forall p :: 0 <= p < |s.procs| && s.procs[p].Active? ==>
      s.procs[p].added <= s.cfg.quota && s.procs[p].op < |s.began| && s.began[s.procs[p].op] == s.txn
  }

  /** Exactly one process commits while the flag is set, and none otherwise. */
  ghost predicate OneCommitter(s: State) {
    && (s.committing <==> exists p :: 0 <= p < |s.procs| && s.procs[p].Committing?)
    && (forall p, q :: 0 <= p < q < |s.procs| ==> !(s.procs[p].Committing? && s.procs[q].Committing?))
    && (forall p :: 0 <= p < |s.procs| && s.procs[p] == Committing(true) ==> s.block == [])
  }

  ghost predicate HistoryOk(s: State) {
    forall i :: 0 <= i < |s.history| ==> s.history[i].op < |s.began| && s.history[i].txn == s.began[s.history[i].op]
  }

  /** Some operation has logged b in transaction t. */
  ghost predicate LoggedIn(history: seq<Event>, t: nat, b: nat) {
    exists i :: 0 <= i < |history| && history[i].txn == t && history[i].block == b
  }

  /** The log holds, once each, the blocks that have been logged since the last commit. */
  ghost predicate Current(s: State) {
    && Distinct(s.block)
    && (forall i :: 0 <= i < |s.began| ==> s.began[i] <= s.txn)
    && (forall i :: 0 <= i < |s.history| ==> s.history[i].txn <= s.txn)
    && (forall b: nat {:trigger LoggedIn(s.history, s.txn, b)} :: b in s.block <==> LoggedIn(s.history, s.txn, b))
  }

  lemma CurrentWrite(s: State, s': State, e: Event)
    requires Current(s) && s'.history == s.history + [e] && e.txn == s.txn == s'.txn && s'.began == s.began
    requires s'.block == if e.block in s.block then s.block else s.block + [e.block]
    ensures Current(s')
  {
    forall b: nat ensures b in s'.block <==> LoggedIn(s'.history, s'.txn, b) {
      if LoggedIn(s.history, s.txn, b) {
        var i :| 0 <= i < |s.history| && s.history[i].txn == s.txn && s.history[i].block == b;
        assert s'.history[i] == s.history[i];
      }
      assert s'.history[|s.history|] == e;
      if LoggedIn(s'.history, s'.txn, b) && b != e.block {
        var i :| 0 <= i < |s'.history| && s'.history[i].txn == s'.txn && s'.history[i].block == b;
        assert s.history[i] == s'.history[i];
      }
    }
  }

  lemma CurrentCommit(s: State, s': State)
    requires Current(s) && s'.history == s.history && s'.txn == s.txn + 1 && s'.began == s.began && s'.block == []
    ensures Current(s')
  {
  }

  ghost predicate Inv(s: State) {
    && s.outstanding == Sum(s.procs, One)
    && (s.committing ==> s.outstanding == 0)
    && (s.outstanding > 0 ==> s.cfg.reserve <= s.cfg.cap)
    && (s.cfg.quota <= s.cfg.reserve ==> |s.block| + Unspent(s, s.cfg.reserve) <= s.cfg.cap)
    && (s.cfg.quota <= s.cfg.reserve || s.cfg.cap < 2 * s.cfg.reserve ==>
         |s.block| + Unspent(s, s.cfg.quota) <= Peak(s.cfg))
    && (s.outstanding == 0 && !s.committing ==> s.block == [])
    && (Admits(s) ==> forall p :: 0 <= p < |s.procs| ==> !s.procs[p].Asleep?)
    && ActiveOk(s) && OneCommitter(s) && HistoryOk(s) && Current(s)
  }

  lemma Times(x: nat, one: nat, rest: nat)
    requires one <= 1
    ensures x * (one + rest) == (if one == 1 then x else 0) + x * rest
  {
  }

  lemma {:induction false} LeftBound(procs: seq<Proc>, x: nat)
    ensures Sum(procs, LeftOf(x)) <= x * Sum(procs, One)
  {
    if procs != [] {
      LeftBound(procs[1..], x);
      Times(x, One(procs[0]), Sum(procs[1..], One));
    }
  }

  /** The sums after one process changes. */
  lemma Sums(s: State, p: nat, x: Proc, a: nat)
    requires p < |s.procs|
    ensures Sum(s.procs[p := x], One) == Sum(s.procs, One) - One(s.procs[p]) + One(x)
    ensures Sum(s.procs[p := x], LeftOf(a)) == Sum(s.procs, LeftOf(a)) - Left(a, s.procs[p]) + Left(a, x)
    ensures Sum(Wake(s.procs[p := x]), One) == Sum(s.procs[p := x], One)
    ensures Sum(Wake(s.procs[p := x]), LeftOf(a)) == Sum(s.procs[p := x], LeftOf(a))
  {
    SumUpdate(s.procs, p, x, One);
    SumUpdate(s.procs, p, x, LeftOf(a));
    SumWake(s.procs[p := x], One);
    SumWake(s.procs[p := x], LeftOf(a));
  }

  /** The sums that the invariant speaks of. */
  lemma BothSums(s: State, p: nat, x: Proc)
    requires p < |s.procs|
    ensures Sum(s.procs[p := x], One) == Sum(s.procs, One) - One(s.procs[p]) + One(x)
    ensures Sum(Wake(s.procs[p := x]), One) == Sum(s.procs[p := x], One)
    ensures forall a {:trigger LeftOf(a)} :: a == s.cfg.reserve || a == s.cfg.quota ==>
              && Sum(s.procs[p := x], LeftOf(a)) == Sum(s.procs, LeftOf(a)) - Left(a, s.procs[p]) + Left(a, x)
              && Sum(Wake(s.procs[p := x]), LeftOf(a)) == Sum(s.procs[p := x], LeftOf(a))
  {
    Sums(s, p, x, s.cfg.reserve);
    Sums(s, p, x, s.cfg.quota);
  }

  /** While an operation is under way nothing commits. */
  lemma ActiveMeans(s: State, p: nat)
    requires Inv(s) && p < |s.procs| && s.procs[p].Active?
    ensures s.outstanding >= 1 && !s.committing
  {
    SumZero(s.procs, One);
    assert One(s.procs[p]) == 1;
  }

  /** Nothing under way: no allowance is out. */
  lemma IdleMeans(s: State, x: nat)
    requires Inv(s) && s.outstanding == 0
    ensures Unspent(s, x) == 0 && forall p :: 0 <= p < |s.procs| ==> !s.procs[p].Active?
  {
    SumZero(s.procs, One);
    forall p | 0 <= p < |s.procs| ensures !s.procs[p].Active? {
      assert One(s.procs[p]) == 0;
    }
    SumZero(s.procs, LeftOf(x));
  }

  lemma InitialInv(processes: nat, cfg: Config)
    ensures Inv(Initial(processes, cfg))
  {
    var s := Initial(processes, cfg);
    SumZero(s.procs, One);
    SumZero(s.procs, LeftOf(cfg.reserve));
    SumZero(s.procs, LeftOf(cfg.quota));
  }

  /** A step that makes no process start or stop committing. */
  lemma SameCommitter(s: State, s': State)
    requires OneCommitter(s) && |s'.procs| == |s.procs| && s'.committing == s.committing
    requires s.committing ==> s'.block == s.block
    requires forall q :: 0 <= q < |s.procs| && (s.procs[q].Committing? || s'.procs[q].Committing?) ==>
               s'.procs[q] == s.procs[q]
    ensures OneCommitter(s')
  {
    if s.committing {
      var p :| 0 <= p < |s.procs| && s.procs[p].Committing?;
      assert s'.procs[p].Committing?;
    }
  }

  lemma BeginInv(s: State, p: nat)
    requires Inv(s) && Enabled(s, Begin(p))
    ensures Inv(Take(s, Begin(p)))
  {
    hide LoggedIn;
    BothSums(s, p, Testing);
    SameCommitter(s, Take(s, Begin(p)));
  }

  lemma Product(x: nat, m: nat)
    requires 0 < m
    ensures x * m == x + (m - 1) * x && (m + 1) * x == 2 * x + (m - 1) * x
  {
  }

  lemma AtMostTimes(a: nat, b: nat, k: nat)
    requires a <= b
    ensures k * a <= k * b
  {
  }

  /** With at least one other operation under way; rs and qs are the allowances of those beyond it. */
  lemma RoomBeside(cfg: Config, n: nat, rs: nat, qs: nat, left: nat, more: nat)
    requires n + 2 * cfg.reserve + rs <= cfg.cap && left <= cfg.reserve + rs && more <= cfg.quota + qs
    requires (cfg.quota == 0 ==> n == 0 && qs == 0) && (cfg.quota <= cfg.reserve ==> qs <= rs)
    ensures 2 * cfg.reserve <= cfg.cap && n + left + cfg.reserve <= cfg.cap
    ensures cfg.quota <= cfg.reserve ==> n + more + cfg.quota <= Peak(cfg)
  {
  }

  lemma RoomForMore(cfg: Config, n: nat, m: nat, left: nat, more: nat)
    requires n + (m + 1) * cfg.reserve <= cfg.cap && 0 < m && left <= cfg.reserve * m && more <= cfg.quota * m
    requires cfg.quota == 0 ==> n == 0
    ensures 2 * cfg.reserve <= cfg.cap && n + left + cfg.reserve <= cfg.cap
    ensures cfg.quota <= cfg.reserve ==> n + more + cfg.quota <= Peak(cfg)
  {
    hide Peak;
    Product(cfg.reserve, m);
    Product(cfg.quota, m);
    if cfg.quota <= cfg.reserve {
      AtMostTimes(cfg.quota, cfg.reserve, m - 1);
    }
    RoomBeside(cfg, n, (m - 1) * cfg.reserve, (m - 1) * cfg.quota, left, more);
  }

  /** An operation that begin_op admits finds its allowance in the log, and keeps the log under its peak. */
  lemma Admission(s: State)
    requires Inv(s) && Admits(s)
    ensures s.cfg.reserve <= s.cfg.cap
    ensures |s.block| + Unspent(s, s.cfg.reserve) + s.cfg.reserve <= s.cfg.cap
    ensures s.cfg.quota <= s.cfg.reserve || s.cfg.cap < 2 * s.cfg.reserve ==>
              |s.block| + Unspent(s, s.cfg.quota) + s.cfg.quota <= Peak(s.cfg)
  {
    LeftBound(s.procs, s.cfg.reserve);
    LeftBound(s.procs, s.cfg.quota);
    if s.outstanding == 0 {
      IdleMeans(s, s.cfg.reserve);
      IdleMeans(s, s.cfg.quota);
    } else {
      RoomForMore(s.cfg, |s.block|, Sum(s.procs, One), Unspent(s, s.cfg.reserve), Unspent(s, s.cfg.quota));
    }
  }

  lemma TestInv(s: State, p: nat)
    requires Inv(s) && Enabled(s, Test(p))
    ensures Inv(Take(s, Test(p)))
  {
    hide Sum, Peak, OneCommitter, Wake, LoggedIn;
    BothSums(s, p, Asleep);
    BothSums(s, p, Active(|s.began|, 0));
    SameCommitter(s, Take(s, Test(p)));
    if s.outstanding == 0 && !s.committing {
      IdleMeans(s, s.cfg.reserve);
      IdleMeans(s, s.cfg.quota);
    }
    if Admits(s) {
      Admission(s);
    }
  }

  lemma LogWriteInv(s: State, p: nat, b: nat)
    requires Inv(s) && Enabled(s, LogWrite(p, b))
    ensures Inv(Take(s, LogWrite(p, b)))
  {
    hide Sum, Peak, OneCommitter, Wake;
    ActiveMeans(s, p);
    var a := s.procs[p];
    BothSums(s, p, a.(added := a.added + 1));
    SameCommitter(s, Take(s, LogWrite(p, b)));
    if !Take(s, LogWrite(p, b)).panicked {
      CurrentWrite(s, Take(s, LogWrite(p, b)), Event(a.op, s.txn, b));
    }
    hide LoggedIn;
  }

  lemma EndInv(s: State, p: nat)
    requires Inv(s) && Enabled(s, End(p))
    ensures Inv(Take(s, End(p)))
  {
    hide Sum, Peak, LoggedIn;
    ActiveMeans(s, p);
    BothSums(s, p, Outside);
    BothSums(s, p, Committing(false));
    var s' := Take(s, End(p));
    if s'.committing {
      assert s'.procs[p].Committing?;
    } else {
      SameCommitter(s, s');
    }
  }

  lemma CommitInv(s: State, p: nat)
    requires Inv(s) && Enabled(s, Commit(p))
    ensures Inv(Take(s, Commit(p)))
  {
    hide LoggedIn;
    BothSums(s, p, Committing(true));
    var s' := Take(s, Commit(p));
    CurrentCommit(s, s');
    assert s.procs[p].Committing? && s'.procs[p].Committing?;
    IdleMeans(s, s.cfg.reserve);
    IdleMeans(s, s.cfg.quota);
  }

  lemma FinishInv(s: State, p: nat)
    requires Inv(s) && Enabled(s, Finish(p))
    ensures Inv(Take(s, Finish(p)))
  {
    hide LoggedIn;
    BothSums(s, p, Outside);
    assert s.procs[p].Committing?;
    IdleMeans(s, s.cfg.reserve);
    IdleMeans(s, s.cfg.quota);
  }

  lemma StepInv(s: State, step: Step)
    requires Inv(s) && Enabled(s, step)
    ensures Inv(Take(s, step))
  {
    match step
    case Begin(p) => BeginInv(s, p);
    case Test(p) => TestInv(s, p);
    case LogWrite(p, b) => LogWriteInv(s, p, b);
    case End(p) => EndInv(s, p);
    case Commit(p) => CommitInv(s, p);
    case Finish(p) => FinishInv(s, p);
  }

  // Whole runs.

  /** The state after a run of steps, each enabled where it is taken. */
  ghost predicate Runs(s: State, steps: seq<Step>, s': State)
    decreases |steps|
  {
    if steps == [] then s' == s
    else Enabled(s, steps[0]) && Runs(Take(s, steps[0]), steps[1..], s')
  }

  lemma {:induction false} RunInv(s: State, steps: seq<Step>, s': State)
    requires Inv(s) && Runs(s, steps, s')
    ensures Inv(s')
    decreases |steps|
  {
    if steps != [] {
      StepInv(s, steps[0]);
      RunInv(Take(s, steps[0]), steps[1..], s');
    }
  }

  /** Reached from boot by some interleaving of some number of processes. */
  ghost predicate Reachable(s: State) {
    exists processes, cfg, steps :: Runs(Initial(processes, cfg), steps, s)
  }

  lemma ReachableInv(s: State)
    requires Reachable(s)
    ensures Inv(s)
  {
    var processes, cfg, steps :| Runs(Initial(processes, cfg), steps, s);
    InitialInv(processes, cfg);
    RunInv(Initial(processes, cfg), steps, s);
  }

  /**
   In every run: a commit has no operation under way, so no log_write or end_op is possible
   during it, the panic in end_op cannot happen, and the log_writes of one operation are all
   in one transaction.
   */
  lemma GroupCommitSafety(s: State)
    requires Reachable(s)
    ensures s.committing ==> s.outstanding == 0
    ensures forall p, q :: 0 <= p < |s.procs| && 0 <= q < |s.procs| && s.procs[p].Committing? ==> !s.procs[q].Active?
    ensures forall p, b :: s.committing ==> !Enabled(s, LogWrite(p, b))
    ensures forall p :: s.committing ==> !Enabled(s, End(p))
    ensures forall p :: Enabled(s, End(p)) ==> !Take(s, End(p)).panicked
    ensures forall i, j :: 0 <= i < |s.history| && 0 <= j < |s.history| && s.history[i].op == s.history[j].op ==>
              s.history[i].txn == s.history[j].txn
  {
    ReachableInv(s);
    forall q | 0 <= q < |s.procs| && s.procs[q].Active? ensures !s.committing {
      ActiveMeans(s, q);
    }
  }

  /**
   In every run in which no operation adds more new blocks than begin_op reserves for it, the
   blocks in the log and the unspent allowance of the operations under way fit in the header. In
   every run the log is empty whenever nothing is under way, and nobody sleeps in begin_op who
   would be admitted.
   */
  lemma Reservation(s: State)
    requires Reachable(s)
    ensures s.cfg.quota <= s.cfg.reserve ==> |s.block| + Unspent(s, s.cfg.reserve) <= s.cfg.cap
    ensures s.outstanding == 0 && !s.committing ==> s.block == [] && (Admits(s) <==> s.cfg.reserve <= s.cfg.cap)
    ensures Admits(s) ==> forall p :: 0 <= p < |s.procs| ==> !s.procs[p].Asleep?
    ensures s.cfg.reserve <= s.cfg.cap && (exists p :: 0 <= p < |s.procs| && s.procs[p].Asleep?) ==>
              s.committing || s.outstanding > 0
  {
    ReachableInv(s);
  }

  // Nobody waits for ever in begin_op, if the operations under way end.

  predicate Waits(p: Proc) {
    p.Testing? || p.Asleep?
  }

  /** What has to happen before the log is idle, counted in steps. */
  function Busy(s: State): nat
    requires s.outstanding >= 0
  {
    3 * s.outstanding
      + if !s.committing then 0
        else if forall p :: 0 <= p < |s.procs| ==> s.procs[p] != Committing(false) then 1
        else 2
  }

  /** The next thing that has to happen. */
  lemma NextToDrain(s: State) returns (step: Step)
    requires Inv(s) && !s.panicked && (s.committing || s.outstanding > 0)
    ensures Enabled(s, step) && (step.End? || step.Commit? || step.Finish?) && !Take(s, step).panicked
    ensures Inv(Take(s, step)) && Take(s, step).outstanding >= 0 && Busy(Take(s, step)) < Busy(s)
  {
    if s.committing {
      var p :| 0 <= p < |s.procs| && s.procs[p].Committing?;
      step := if s.procs[p].done then Finish(p) else Commit(p);
      StepInv(s, step);
      SumZero(s.procs, One);
      DrainStep(s, p, step);
    } else {
      SumZero(s.procs, One);
      var p :| 0 <= p < |s.procs| && One(s.procs[p]) != 0;
      step := End(p);
      StepInv(s, step);
    }
  }

  lemma DrainStep(s: State, p: nat, step: Step)
    requires Inv(s) && !s.panicked && s.committing && p < |s.procs|
    requires step == if s.procs[p] == Committing(true) then Finish(p) else Commit(p)
    requires s.procs[p].Committing?
    ensures Take(s, step).outstanding == s.outstanding && Busy(Take(s, step)) < Busy(s)
  {
    hide Sum;
  }

  lemma {:induction false} Drains(s: State, p: nat) returns (steps: seq<Step>, s': State)
    requires Inv(s) && !s.panicked && p < |s.procs| && Waits(s.procs[p])
    ensures Runs(s, steps, s') && Inv(s') && !s'.panicked && s'.cfg == s.cfg && |s'.procs| == |s.procs|
    ensures s'.outstanding == 0 && !s'.committing && Waits(s'.procs[p])
    ensures forall i {:trigger steps[i]} :: 0 <= i < |steps| ==> steps[i].End? || steps[i].Commit? || steps[i].Finish?
    decreases Busy(s)
  {
    hide Sum, Busy, Current, OneCommitter, ActiveOk, HistoryOk;
    if !s.committing && s.outstanding == 0 {
      steps, s' := [], s;
    } else {
      var step := NextToDrain(s);
      var rest;
      rest, s' := Drains(Take(s, step), p);
      steps := [step] + rest;
      assert steps[1..] == rest;
    }
  }

  /** The next test of p in begin_op lets it in. */
  predicate LetIn(s: State, p: nat) {
    Enabled(s, Test(p)) && Take(s, Test(p)).procs[p].Active?
  }

  /**
   From every reachable state, a process in begin_op gets in after no more than the end of the
   operations under way and of a commit: nobody has to wake it but those.
   */
  lemma GetsIn(s: State, p: nat) returns (steps: seq<Step>, s': State)
    requires Reachable(s) && !s.panicked && p < |s.procs| && Waits(s.procs[p]) && s.cfg.reserve <= s.cfg.cap
    ensures Runs(s, steps, s') && p < |s'.procs| && LetIn(s', p)
    ensures forall i {:trigger steps[i]} :: 0 <= i < |steps| ==> steps[i].End? || steps[i].Commit? || steps[i].Finish?
  {
    hide Sum, Busy, Current, OneCommitter, ActiveOk, HistoryOk, Runs;
    ReachableInv(s);
    steps, s' := Drains(s, p);
  }

  /** In every run the log holds, once each, the blocks logged since the last commit, and no others. */
  lemma LogHolds(s: State)
    requires Reachable(s)
    ensures Distinct(s.block)
    ensures forall b: nat {:trigger LoggedIn(s.history, s.txn, b)} :: b in s.block <==> LoggedIn(s.history, s.txn, b)
    ensures forall i :: 0 <= i < |s.history| ==> s.history[i].txn <= s.txn
  {
    ReachableInv(s);
  }

  /** In every such run a new block finds room in the header; only the size of the log on disk can be in its way. */
  lemma NewBlockFits(s: State, p: nat, b: nat)
    requires Reachable(s) && s.cfg.quota <= s.cfg.reserve && Enabled(s, LogWrite(p, b)) && b !in s.block
    ensures |s.block| < s.cfg.cap
    ensures Take(s, LogWrite(p, b)).panicked <==> |s.block| >= s.cfg.size - 1
  {
    ReachableInv(s);
    ActiveMeans(s, p);
    var a := s.procs[p];
    Sums(s, p, a.(added := a.added + 1), s.cfg.reserve);
  }

  // log_write tests whether the log is full before it looks whether the block is in it already.

  /** No run makes log_write panic, on a new block within the quota or on one already logged. */
  ghost predicate LogWriteSafe(cfg: Config) {
    forall s, p, b :: Reachable(s) && s.cfg == cfg && Enabled(s, LogWrite(p, b)) ==> !Take(s, LogWrite(p, b)).panicked
  }

  /** No operation logs anything, or none begins, or the log at its fullest is full by neither test. */
  predicate Roomy(cfg: Config) {
    cfg.quota == 0 || cfg.cap < cfg.reserve || (Peak(cfg) < cfg.cap && Peak(cfg) < cfg.size - 1)
  }

  lemma RoomyIsSafe(cfg: Config)
    requires Roomy(cfg)
    ensures LogWriteSafe(cfg)
  {
    forall s, p, b | Reachable(s) && s.cfg == cfg && Enabled(s, LogWrite(p, b))
      ensures !Take(s, LogWrite(p, b)).panicked
    {
      ReachableInv(s);
      ActiveMeans(s, p);
    }
  }

  /** The number of blocks at which log_write panics. */
  function Full(cfg: Config): nat {
    var m := if cfg.size == 0 then 0 else cfg.size - 1;
    if m < cfg.cap then m else cfg.cap
  }

  /** Reached by two processes. */
  ghost predicate Reached(s: State) {
    exists steps :: Runs(Initial(2, s.cfg), steps, s)
  }

  lemma {:induction false} RunsAppend(s: State, one: seq<Step>, s1: State, two: seq<Step>, s2: State)
    requires Runs(s, one, s1) && Runs(s1, two, s2)
    ensures Runs(s, one + two, s2)
    decreases |one|
  {
    if one == [] {
      assert one + two == two;
    } else {
      assert (one + two)[1..] == one[1..] + two;
      RunsAppend(Take(s, one[0]), one[1..], s1, two, s2);
    }
  }

  lemma ReachedNext(s: State, step: Step)
    requires Reached(s) && Enabled(s, step)
    ensures Reached(Take(s, step))
  {
    var steps :| Runs(Initial(2, s.cfg), steps, s);
    var s' := Take(s, step);
    assert [step][1..] == [] && Runs(s', [], s');
    RunsAppend(Initial(2, s.cfg), steps, s, [step], s');
  }

  /** Process 0 is in an operation that has added a blocks, process 1 is at x, and blocks 0 to n - 1 are logged. */
  predicate Stage(s: State, a: nat, x: Proc, n: nat) {
    && |s.procs| == 2 && s.procs[0].Active? && s.procs[0].added == a && s.procs[1] == x && (x.Outside? || x.Active?)
    && !s.panicked && !s.committing && s.outstanding == (if x.Active? then 2 else 1)
    && s.block == seq(n, i => i)
  }

  lemma FirstBegins(cfg: Config) returns (s: State)
    requires cfg.reserve <= cfg.cap
    ensures Reached(s) && s.cfg == cfg && Stage(s, 0, Outside, 0)
  {
    var s0 := Initial(2, cfg);
    assert Runs(s0, [], s0);
    var s1 := Take(s0, Begin(0));
    ReachedNext(s0, Begin(0));
    s := Take(s1, Test(0));
    ReachedNext(s1, Test(0));
  }

  lemma SecondBegins(s: State, n: nat) returns (s': State)
    requires Reached(s) && Stage(s, 0, Outside, n) && n + 2 * s.cfg.reserve <= s.cfg.cap
    ensures Reached(s') && s'.cfg == s.cfg && |s'.procs| == 2 && s'.procs[1].Active? && s'.procs[1].added == 0
    ensures Stage(s', 0, s'.procs[1], n)
  {
    var s1 := Take(s, Begin(1));
    ReachedNext(s, Begin(1));
    s' := Take(s1, Test(1));
    ReachedNext(s1, Test(1));
  }

  /** One of the two logs the next block. */
  lemma Logs(s: State, a: nat, x: Proc, n: nat, p: nat) returns (s': State)
    requires Reached(s) && Stage(s, a, x, n) && n < Full(s.cfg) && p < 2 && s.procs[p].Active?
    requires s.procs[p].added < s.cfg.quota
    ensures Reached(s') && s'.cfg == s.cfg
    ensures if p == 0 then Stage(s', a + 1, x, n + 1) else Stage(s', a, Active(x.op, x.added + 1), n + 1)
  {
    ReachedNext(s, LogWrite(p, n));
    s' := Take(s, LogWrite(p, n));
    assert n !in s.block;
    assert s'.block == seq(n + 1, i => i);
  }

  lemma SecondEnds(s: State, x: Proc, n: nat) returns (s': State)
    requires Reached(s) && Stage(s, 0, x, n) && x.Active?
    ensures Reached(s') && s'.cfg == s.cfg && Stage(s', 0, Outside, n)
  {
    ReachedNext(s, End(1));
    s' := Take(s, End(1));
  }

  /** While process 0 is in its operation, process 1 adds one block after the other, an operation for each. */
  lemma {:induction false} OneByOne(cfg: Config, n: nat) returns (s: State)
    requires cfg.reserve <= cfg.cap && 0 < cfg.quota && n <= Full(cfg) && (n == 0 || n + 2 * cfg.reserve <= cfg.cap)
    ensures Reached(s) && s.cfg == cfg && Stage(s, 0, Outside, n)
  {
    if n == 0 {
      s := FirstBegins(cfg);
    } else {
      s := OneByOne(cfg, n - 1);
      s := SecondBegins(s, n - 1);
      s := Logs(s, 0, s.procs[1], n - 1, 1);
      s := SecondEnds(s, s.procs[1], n);
    }
  }

  /** Process 0 alone, up to its quota. */
  lemma {:induction false} Alone(cfg: Config, n: nat) returns (s: State)
    requires cfg.reserve <= cfg.cap && n <= cfg.quota && n <= Full(cfg)
    ensures Reached(s) && s.cfg == cfg && Stage(s, n, Outside, n)
  {
    if n == 0 {
      s := FirstBegins(cfg);
    } else {
      s := Alone(cfg, n - 1);
      s := Logs(s, n - 1, Outside, n - 1, 0);
    }
  }

  /** The last operation begins with two allowances left in the log, and both processes spend their quota. */
  lemma {:induction false} Together(cfg: Config, a: nat, b: nat) returns (s: State, op: nat)
    requires 0 < cfg.quota && a <= cfg.quota && b <= cfg.quota && (b == cfg.quota || a == 0)
    requires 2 * cfg.reserve <= cfg.cap && cfg.cap - 2 * cfg.reserve + a + b <= Full(cfg)
    ensures Reached(s) && s.cfg == cfg && Stage(s, a, Active(op, b), cfg.cap - 2 * cfg.reserve + a + b)
    decreases a + b
  {
    var n := cfg.cap - 2 * cfg.reserve;
    if a > 0 {
      s, op := Together(cfg, a - 1, b);
      s := Logs(s, a - 1, Active(op, b), n + a - 1 + b, 0);
    } else if b > 0 {
      s, op := Together(cfg, 0, b - 1);
      s := Logs(s, 0, Active(op, b - 1), n + b - 1, 1);
    } else {
      s := OneByOne(cfg, n);
      s := SecondBegins(s, n);
      op := s.procs[1].op;
    }
  }

  /** Where the log can fill up, it does, with an operation under way. */
  lemma Fills(cfg: Config) returns (s: State, a: nat, x: Proc)
    requires !Roomy(cfg)
    ensures Reached(s) && s.cfg == cfg && Stage(s, a, x, Full(cfg)) && (Full(cfg) == 0 ==> a == 0)
  {
    var n, free := Full(cfg), cfg.cap - 2 * cfg.reserve;
    x := Outside;
    if free < 0 {
      a := n;
      s := Alone(cfg, n);
    } else if n <= free {
      a := 0;
      s := OneByOne(cfg, n);
    } else {
      var b := if n - free < cfg.quota then n - free else cfg.quota;
      a := n - free - b;
      var op;
      s, op := Together(cfg, a, b);
      x := Active(op, b);
    }
  }

  /**
   Exactly when log_write never panics. It is not enough that every operation keeps to what
   begin_op reserves: when the log is full, even a block that is in it already is refused.
   */
  lemma LogWriteSafeExactly(cfg: Config)
    ensures LogWriteSafe(cfg) <==> Roomy(cfg)
  {
    if Roomy(cfg) {
      RoomyIsSafe(cfg);
    } else {
      var s, a, x := Fills(cfg);
      var steps :| Runs(Initial(2, s.cfg), steps, s);
      assert Reachable(s);
      assert Enabled(s, LogWrite(0, 0)) by {
        assert Full(cfg) > 0 ==> |s.block| > 0 && s.block[0] == 0;
      }
      assert Take(s, LogWrite(0, 0)).panicked;
    }
  }

  /**
   With the kernel's constants no size of the log will do for operations that add MAXOPBLOCKS
   new blocks; with the log that mkfs makes, of LOGSIZE blocks, it takes operations that keep one
   block below that.
   */
  lemma KernelSafe(quota: nat, size: nat)
    ensures LogWriteSafe(Kernel(quota, size)) <==>
              quota == 0 || (quota < MAXOPBLOCKS && MAXOPBLOCKS + 2 * quota < size - 1)
    ensures !LogWriteSafe(Kernel(MAXOPBLOCKS, size))
    ensures LogWriteSafe(Kernel(quota, LOGSIZE)) <==> quota < MAXOPBLOCKS
  {
    LogWriteSafeExactly(Kernel(quota, size));
    LogWriteSafeExactly(Kernel(MAXOPBLOCKS, size));
    LogWriteSafeExactly(Kernel(quota, LOGSIZE));
  }
}
