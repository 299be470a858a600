/**
 What holds in every state that driver, device and interrupt handler can reach, by any
 interleaving of requests on distinct buffers, device steps and interrupts.
 */
module VirtioRuns {
  import opened Blocks
  import opened Virtio

  function Initial(bufs: seq<Buf>, media: seq<Byte>): State {
    State(Mem(seq(NUM, _ => true), seq(NUM, _ => CLEAR), seq(NUM, _ => Info(NONE, 0)), seq(NUM, _ => Req(false, 0)), 0,
              seq(NUM, _ => 0), 0, seq(NUM, _ => 0), 0, 0, seq(NUM, _ => false), seq(NUM, _ => false), media, bufs,
                NONE),
          seq(NUM, _ => Chain(Unused, 0, 0, 0, false, 0, 0)), seq(NUM, _ => NONE), seq(|bufs|, _ => NONE),
            Counts(0, 0, 0, 0),
          [], [], [])
  }

  predicate Idle(bufs: seq<Buf>) {
    forall b :: 0 <= b < |bufs| ==> !bufs[b].disk
  }

  lemma {:induction false} NoneUsed(free: seq<bool>, chain: seq<Chain>)
    requires |free| == |chain| && forall d :: 0 <= d < |free| ==> free[d] && chain[d].phase.Unused?
    ensures Free(free) == |free| && Live(chain) == InAvail(chain) == AtDevice(chain) == InUsed(chain) == 0
  {
    if free != [] {
      NoneUsed(free[..|free| - 1], chain[..|chain| - 1]);
    }
  }

  lemma InitialOk(bufs: seq<Buf>, media: seq<Byte>)
    requires OnDisk(bufs, media) && Idle(bufs)
    ensures Ok(Initial(bufs, media))
  {
    var s := Initial(bufs, media);
    NoneUsed(s.m.free, s.chain);
  }

  ghost predicate Runs(s: State, steps: seq<Step>, s': State)
    decreases |steps|
  {
    if steps == [] then s' == s
    else Enabled(s, steps[0]) && Safe(s, steps[0]) && Runs(Next(s, steps[0]), steps[1..], s')
  }

  lemma {:induction false} RunOk(s: State, steps: seq<Step>, s': State)
    requires Ok(s) && Runs(s, steps, s')
    ensures Ok(s')
    decreases |steps|
  {
    if steps != [] {
      StepOk(s, steps[0]);
      RunOk(Next(s, steps[0]), steps[1..], s');
    }
  }

  /** Reached from virtio_disk_init by some interleaving of callers, device and interrupt handler. */
  ghost predicate Reachable(s: State) {
    exists bufs, media, steps ::
      OnDisk(bufs, media) && Idle(bufs) && Runs(Initial(bufs, media), steps, s)
  }

  lemma ReachableOk(s: State)
    requires Reachable(s)
    ensures Ok(s)
  {
    var bufs, media, steps :|
      OnDisk(bufs, media) && Idle(bufs) && Runs(Initial(bufs, media), steps, s);
    InitialOk(bufs, media);
    RunOk(Initial(bufs, media), steps, s);
  }

  /** In every run, what a taker may do finds what it relies on: no panic, and no stray index. */
  lemma NoPanic(s: State, step: Step)
    requires Reachable(s) && Enabled(s, step)
    ensures Safe(s, step)
  {
    ReachableOk(s);
    StepOk(s, step);
  }

  /**
   In every run each descriptor is free or one of the three of exactly one live request, two
   live requests share none, and at most two are live. So a start that must sleep finds two.
   */
  lemma DescriptorsPartitioned(s: State, d: nat)
    requires Reachable(s) && d < NUM
    ensures |s.chain| == |s.m.free| == NUM && Live(s.chain) <= 2
    ensures s.m.free[d] <==> forall h :: 0 <= h < NUM ==> s.chain[h].phase.Unused? || !IsOf(d, h, s.chain[h])
    ensures forall g, h :: 0 <= g < NUM && 0 <= h < NUM && IsOf(d, g, s.chain[g]) && IsOf(d, h, s.chain[h]) ==>
              s.chain[g].phase.Unused? || s.chain[h].phase.Unused? || g == h
    ensures Free(s.m.free) < 3 <==> Live(s.chain) == 2
  {
    ReachableOk(s);
    forall h | 0 <= h < NUM && !s.chain[h].phase.Unused? && IsOf(d, h, s.chain[h]) ensures s.owner[d] == h {
      assert OwnsThree(s.m.desc, s.owner, h, s.chain[h]);
    }
    if !s.m.free[d] {
      assert IsOf(d, s.owner[d], s.chain[s.owner[d]]);
    }
  }

  /**
   In every run, however far the indices have wrapped: each slot that one side has filled and
   the other not yet read still names a request waiting there, different slots different ones.
   */
  lemma SlotsHold(s: State, j: nat, k: nat)
    requires Reachable(s)
    ensures |s.m.avail| == |s.m.used| == |s.chain| == NUM
    ensures s.n.fetched <= j < k < s.n.published ==> Slot(j) != Slot(k) && s.m.avail[Slot(j)] != s.m.avail[Slot(k)]
    ensures s.n.fetched <= k < s.n.published ==>
              s.m.avail[Slot(k)] < NUM && s.chain[s.m.avail[Slot(k)]].phase.Published?
    ensures s.n.completed <= j < k < s.n.posted ==> Slot(j) != Slot(k) && s.m.used[Slot(j)] != s.m.used[Slot(k)]
    ensures s.n.completed <= k < s.n.posted ==> s.m.used[Slot(k)] < NUM && s.chain[s.m.used[Slot(k)]].phase.Posted?
    ensures s.m.availIdx != s.m.availSeen <==> s.n.fetched < s.n.published
    ensures s.m.usedIdx != s.m.usedSeen <==> s.n.completed < s.n.posted
  {
    ReachableOk(s);
    AtMostTwo(s);
    Wrapped(s.n.fetched, s.n.published);
    Wrapped(s.n.completed, s.n.posted);
    if s.n.fetched <= j < k < s.n.published {
      SlotFree(j, k, j);
    }
    if s.n.completed <= j < k < s.n.posted {
      SlotFree(j, k, j);
    }
  }

  /**
   In every run each published request is carried out at most once and completed at most once, and
   completed only if carried out.
   */
  lemma AtMostOnce(s: State, k: nat)
    requires Reachable(s) && k < |s.head|
    ensures |s.transfers| == |s.completions| == |s.head| && s.completions[k] <= s.transfers[k] <= 1
  {
    ReachableOk(s);
    assert Tallied(s.chain, s.head[k], k, s.transfers[k], s.completions[k]);
  }

  /** When virtio_disk_rw may return, the request it published has been carried out and completed exactly once. */
  lemma ExactlyOnce(s: State, b: nat)
    requires Reachable(s) && Enabled(s, DoFinish(b))
    ensures 0 <= s.flight[b] < |s.chain| && s.chain[s.flight[b]].buf == b
    ensures var k := s.chain[s.flight[b]].id;
              k < |s.transfers| == |s.completions| && s.transfers[k] == 1 && s.completions[k] == 1
  {
    ReachableOk(s);
    var h := s.flight[b];
    FindsRequest(s, h);
    assert Numbered(s.head, h, s.chain[h]);
    assert Tallied(s.chain, s.head[s.chain[h].id], s.chain[h].id, s.transfers[s.chain[h].id],
      s.completions[s.chain[h].id]);
  }

  /** The disk and the buffers once the request is carried out: block number n is the bytes from n * BSIZE on. */
  function Written(m: Mem, c: Chain): seq<Byte>
    requires c.buf < |m.bufs| && OnMedia(m.bufs[c.buf], m.media)
  {
    var lo := m.bufs[c.buf].blockno * BSIZE;
    if c.write then m.media[..lo] + m.bufs[c.buf].data + m.media[lo + BSIZE..] else m.media
  }

  function Filled(m: Mem, c: Chain): seq<Buf>
    requires c.buf < |m.bufs| && OnMedia(m.bufs[c.buf], m.media)
  {
    var lo := m.bufs[c.buf].blockno * BSIZE;
    if c.write then m.bufs else m.bufs[c.buf := m.bufs[c.buf].(data := m.media[lo..lo + BSIZE])]
  }

  /** What the device does once it has a request, in terms of the request's buffer. */
  lemma TransferMeans(s: State, h: nat)
    requires Ok(s) && Enabled(s, DoTransfer(h))
    ensures h < |s.chain| && Readable(s.m, h) && s.chain[h].buf < |s.m.bufs| == |s.flight|
    ensures s.flight[s.chain[h].buf] == h && s.m.bufs[s.chain[h].buf].disk
    ensures OnMedia(s.m.bufs[s.chain[h].buf], s.m.media)
    ensures Transfer(s.m, h).media == Written(s.m, s.chain[h]) && Transfer(s.m, h).bufs == Filled(s.m, s.chain[h])
  {
    FindsRequest(s, h);
    var data, lo := s.m.bufs[s.chain[h].buf].data, s.m.bufs[s.chain[h].buf].blockno * BSIZE;
    assert data[..BSIZE] == data;
    assert s.m.media[lo..lo + BSIZE] + data[BSIZE..] == s.m.media[lo..lo + BSIZE];
  }

  /**
   The device moves exactly the request's own block, which is the bytes from blockno * BSIZE up to
   (blockno + 1) * BSIZE of the disk, to or from the request's own buffer, whose caller still waits.
   */
  lemma TransfersOwn(s: State, h: nat)
    requires Reachable(s) && Enabled(s, DoTransfer(h))
    ensures h < |s.chain| && Readable(s.m, h) && s.chain[h].buf < |s.m.bufs| == |s.flight|
    ensures s.flight[s.chain[h].buf] == h
    ensures var b := s.chain[h].buf;
            var m := Transfer(s.m, h);
            var lo := s.m.bufs[b].blockno * BSIZE;
            && s.m.bufs[b].disk && lo + BSIZE <= |s.m.media|
            && m.media == (if s.chain[h].write then s.m.media[..lo] + s.m.bufs[b].data + s.m.media[lo + BSIZE..]
                           else s.m.media)
            && m.bufs == if s.chain[h].write then s.m.bufs
                 else s.m.bufs[b := s.m.bufs[b].(data := s.m.media[lo..lo + BSIZE])]
  {
    ReachableOk(s);
    TransferMeans(s, h);
  }

  /** The interrupt handler clears the flag of the one buffer whose request it completes. */
  lemma CompletesOwn(s: State)
    requires Reachable(s) && Enabled(s, DoComplete)
    ensures Completable(s.m) && CompletesTo(s.m) < |s.flight| == |s.m.bufs|
    ensures s.flight[CompletesTo(s.m)] == s.m.used[s.m.usedSeen % NUM]
    ensures s.m.bufs[CompletesTo(s.m)].disk
    ensures Complete(s.m).bufs == s.m.bufs[CompletesTo(s.m) := s.m.bufs[CompletesTo(s.m)].(disk := false)]
  {
    ReachableOk(s);
    AtMostTwo(s);
    NextCompleted(s);
    FindsRequest(s, s.m.used[s.m.usedSeen % NUM]);
  }

  /** The interrupt handler takes every entry posted so far, as a run of single turns. */
  lemma {:induction false} DrainRuns(s: State) returns (s': State, steps: seq<Step>)
    requires Ok(s) && s.m.starting == NONE && s.m.usedSeen < WRAP && s.m.usedIdx < WRAP
    ensures Runs(s, steps, s') && s'.m == Drain(s.m) && s'.m.usedSeen == s'.m.usedIdx && s'.m.usedIdx == s.m.usedIdx
    ensures forall i :: 0 <= i < |steps| ==> steps[i] == DoComplete
    decreases Pending(s.m)
  {
    hide Partition, Requests, Rings, Tallies;
    if s.m.usedSeen == s.m.usedIdx {
      s', steps := s, [];
    } else {
      CompleteOk(s);
      var rest;
      s', rest := DrainRuns(Next(s, DoComplete));
      steps := [DoComplete] + rest;
      assert steps[1..] == rest;
    }
  }

  // A request gets done: whatever else is under way, its caller can return.

  function Rank(p: Phase): nat {
    match p
    case Started => 5
    case Published => 4
    case Fetched => 3
    case Moved => 2
    case Posted => 1
    case Completed => 0
    case Unused => 0
  }

  /** More than the steps still to be taken until the caller that waits for chain h can go on. */
  function Left(s: State, h: nat): int
    requires h < |s.chain|
  {
    16 * Rank(s.chain[h].phase) + (if s.m.starting == NONE then 0 else 2)
      + s.n.published - s.n.fetched + s.n.posted - s.n.completed
  }

  function Plain(bufs: seq<Buf>): seq<Buf> {
    seq(|bufs|, b requires 0 <= b < |bufs| => bufs[b].(disk := false))
  }

  predicate InFlight(s: State, b: nat) {
    b < |s.flight| == |s.m.bufs| && 0 <= s.flight[b] < |s.chain| && s.chain[s.flight[b]].buf == b
    && OnMedia(s.m.bufs[b], s.m.media)
  }

  /** What disk and buffers, but for their flags, will be when the request of buffer b is done. */
  function Outcome(s: State, b: nat): (seq<Byte>, seq<Buf>)
    requires InFlight(s, b)
  {
    var c := s.chain[s.flight[b]];
    if Done(c.phase) then (s.m.media, Plain(s.m.bufs)) else (Written(s.m, c), Plain(Filled(s.m, c)))
  }

  lemma IsInFlight(s: State, b: nat)
    requires Ok(s) && b < |s.flight| && s.flight[b] != NONE
    ensures InFlight(s, b) && !s.chain[s.flight[b]].phase.Unused? && |s.chain| == NUM
    ensures s.m.bufs[b].disk <==> !s.chain[s.flight[b]].phase.Completed?
    ensures Left(s, s.flight[b]) >= 0
  {
    FindsRequest(s, s.flight[b]);
  }

  /** The step that takes the request of buffer b further. */
  function Onward(s: State, b: nat): Step
    requires InFlight(s, b)
  {
    var h := s.flight[b];
    match s.chain[h].phase
    case Published => DoFetch
    case Fetched => DoTransfer(h)
    case Moved => DoPost(h)
    case _ => if s.m.starting != NONE then DoPublish else DoComplete
  }

  lemma OnwardEnabled(s: State, b: nat)
    requires Ok(s) && InFlight(s, b) && s.flight[b] != NONE && !Enabled(s, DoFinish(b))
    ensures Enabled(s, Onward(s, b)) && (Onward(s, b).DoComplete? ==> s.chain[s.flight[b]].phase.Posted?)
  {
    IsInFlight(s, b);
    AtMostTwo(s);
    var h := s.flight[b];
    ChainSet(s.chain, h, s.chain[h].(phase := Unused));
    Wrapped(s.n.fetched, s.n.published);
    Wrapped(s.n.completed, s.n.posted);
  }

  /** s' is s a step further: the request of buffer b has the same outcome, and is nearer to it. */
  predicate Nearer(s: State, b: nat, s': State) {
    && InFlight(s, b) && InFlight(s', b) && s'.flight == s.flight && Outcome(s', b) == Outcome(s, b)
    && Left(s', s.flight[b]) < Left(s, s.flight[b])
  }

  lemma PublishMoves(s: State, b: nat)
    requires Ok(s) && InFlight(s, b) && Enabled(s, DoPublish) && Safe(s, DoPublish)
    ensures Nearer(s, b, Next(s, DoPublish))
  {
    hide Partition, Requests, Rings, Tallies;
    assert s.chain[s.m.starting].phase.Started?;
  }

  lemma FetchMoves(s: State, b: nat)
    requires Ok(s) && InFlight(s, b) && Enabled(s, DoFetch) && Safe(s, DoFetch)
    ensures Nearer(s, b, Next(s, DoFetch))
  {
    hide Tables, Queue;
    AtMostTwo(s);
    NextFetched(s);
  }

  lemma TransferMoves(s: State, b: nat)
    requires Ok(s) && InFlight(s, b) && Enabled(s, DoTransfer(s.flight[b])) && Safe(s, DoTransfer(s.flight[b]))
    ensures Nearer(s, b, Next(s, DoTransfer(s.flight[b])))
  {
    TransferMeans(s, s.flight[b]);
    IsFetched(s, s.flight[b]);
    hide Ok, Tables, Queue, Readable, Transfer;
  }

  lemma PostMoves(s: State, b: nat)
    requires Ok(s) && InFlight(s, b) && Enabled(s, DoPost(s.flight[b])) && Safe(s, DoPost(s.flight[b]))
    ensures Nearer(s, b, Next(s, DoPost(s.flight[b])))
  {
    assert s.chain[s.flight[b]].phase.Moved?;
    hide Ok, Tables, Queue;
  }

  lemma CompleteMoves(s: State, b: nat)
    requires Ok(s) && InFlight(s, b) && Enabled(s, DoComplete) && Safe(s, DoComplete)
    requires s.chain[s.flight[b]].phase.Posted?
    ensures Nearer(s, b, Next(s, DoComplete))
  {
    hide Tables, Queue;
    AtMostTwo(s);
    NextCompleted(s);
    assert Plain(Next(s, DoComplete).m.bufs) == Plain(s.m.bufs);
  }

  /** The step that takes a request further leaves its outcome as it was. */
  lemma OnwardMoves(s: State, b: nat)
    requires Ok(s) && InFlight(s, b) && s.flight[b] != NONE && !Enabled(s, DoFinish(b))
    ensures Enabled(s, Onward(s, b)) && Safe(s, Onward(s, b)) && Ok(Next(s, Onward(s, b)))
    ensures Nearer(s, b, Next(s, Onward(s, b)))
  {
    hide Tables, Queue, Safe, Next, Nearer;
    IsInFlight(s, b);
    OnwardEnabled(s, b);
    StepOk(s, Onward(s, b));
    match Onward(s, b)
    case DoFetch => FetchMoves(s, b);
    case DoTransfer(_) => TransferMoves(s, b);
    case DoPost(_) => PostMoves(s, b);
    case DoComplete => CompleteMoves(s, b);
    case DoPublish => PublishMoves(s, b);
  }

  /** A step that neither starts nor ends a request nor touches an idle buffer, and moves the data of chain h only. */
  predicate Serves(step: Step, h: nat) {
    step in {DoPublish, DoFetch, DoTransfer(h), DoPost(h), DoComplete}
  }

  /**
   Whatever else is under way, a caller that waits gets its answer: by steps of the device and the handler,
   none of them a transfer but its own, it can return, with its block moved and no other byte changed.
   */
  lemma {:induction false} GetsServed(s: State, b: nat) returns (steps: seq<Step>, s': State)
    requires Ok(s) && InFlight(s, b) && s.flight[b] != NONE
    ensures Runs(s, steps, s') && Ok(s') && s'.flight == s.flight && Enabled(s', DoFinish(b))
    ensures forall i :: 0 <= i < |steps| ==> Serves(steps[i], s.flight[b])
    ensures (s'.m.media, Plain(s'.m.bufs)) == Outcome(s, b)
    decreases Left(s, s.flight[b])
  {
    hide Tables, Queue, Safe, Next;
    IsInFlight(s, b);
    if Enabled(s, DoFinish(b)) {
      steps, s' := [], s;
    } else {
      OnwardMoves(s, b);
      var rest;
      rest, s' := GetsServed(Next(s, Onward(s, b)), b);
      steps := [Onward(s, b)] + rest;
      assert steps[1..] == rest;
    }
  }

  lemma RunFrom(s: State, step: Step, steps: seq<Step>, s': State)
    requires Enabled(s, step) && Safe(s, step) && Runs(Next(s, step), steps, s')
    ensures Runs(s, [step] + steps, s')
  {
    assert ([step] + steps)[1..] == steps;
  }

  lemma {:induction false} RunThen(s: State, steps: seq<Step>, s': State, step: Step)
    requires Runs(s, steps, s') && Enabled(s', step) && Safe(s', step)
    ensures Runs(s, steps + [step], Next(s', step))
    decreases |steps|
  {
    hide Safe, Next, Enabled;
    if steps == [] {
      assert [step][1..] == [];
    } else {
      RunThen(Next(s, steps[0]), steps[1..], s', step);
      assert (steps + [step])[1..] == steps[1..] + [step];
    }
  }

  /** The blocks that a call of virtio_disk_rw leaves on the disk and in the buffers. */
  function Rw(m: Mem, b: nat, write: bool): (seq<Byte>, seq<Buf>)
    requires b < |m.bufs| && OnMedia(m.bufs[b], m.media)
  {
    var lo := m.bufs[b].blockno * BSIZE;
    if write then (m.media[..lo] + m.bufs[b].data + m.media[lo + BSIZE..], Plain(m.bufs))
    else (m.media, Plain(m.bufs[b := m.bufs[b].(data := m.media[lo..lo + BSIZE])]))
  }

  lemma StartOutcome(s: State, b: nat, write: bool)
    requires Ok(s) && Enabled(s, DoStart(b, write)) && Free(s.m.free) >= 3
    ensures Safe(s, DoStart(b, write)) && Ok(Next(s, DoStart(b, write))) && OnMedia(s.m.bufs[b], s.m.media)
    ensures var s' := Next(s, DoStart(b, write));
            && InFlight(s', b) && 0 <= s'.m.starting == s'.flight[b] != NONE && s.flight == s'.flight[b := NONE]
            && Outcome(s', b) == Rw(s.m, b, write)
  {
    hide Partition, Requests, Rings, Tallies;
    StartOk(s, b, write);
    StartMeans(s.m, b, write);
    hide Queue, Start;
    var s' := Next(s, DoStart(b, write));
    assert Plain(s'.m.bufs) == Plain(s.m.bufs);
    var lo := s.m.bufs[b].blockno * BSIZE;
    var data := s.m.media[lo..lo + BSIZE];
    assert Plain(s'.m.bufs[b := s'.m.bufs[b].(data := data)]) == Plain(s.m.bufs[b := s.m.bufs[b].(data := data)]);
  }

  lemma FinishLeaves(s: State, b: nat)
    requires Enabled(s, DoFinish(b)) && Safe(s, DoFinish(b))
    ensures var s' := Next(s, DoFinish(b));
            s'.m.media == s.m.media && s'.m.bufs == s.m.bufs && s'.flight == s.flight[b := NONE]
  {
  }

  /** From its start to its return, beside whatever else is under way, a call moves its block and nothing else. */
  lemma WholeCall(s: State, b: nat, write: bool) returns (steps: seq<Step>, s': State)
    requires Reachable(s) && Enabled(s, DoStart(b, write)) && Free(s.m.free) >= 3
    ensures Runs(s, [DoStart(b, write)] + steps + [DoFinish(b)], s') && s'.flight == s.flight
    ensures Safe(s, DoStart(b, write)) && Next(s, DoStart(b, write)).m.starting >= 0
    ensures forall i :: 0 <= i < |steps| ==> Serves(steps[i], Next(s, DoStart(b, write)).m.starting)
    ensures OnMedia(s.m.bufs[b], s.m.media) && (s'.m.media, Plain(s'.m.bufs)) == Rw(s.m, b, write)
  {
    hide *;
    ReachableOk(s);
    StartOutcome(s, b, write);
    var s1 := Next(s, DoStart(b, write));
    var s2;
    steps, s2 := GetsServed(s1, b);
    StepOk(s2, DoFinish(b));
    FinishLeaves(s2, b);
    s' := Next(s2, DoFinish(b));
    RunFrom(s, DoStart(b, write), steps, s2);
    RunThen(s, [DoStart(b, write)] + steps, s2, DoFinish(b));
  }
}
