/**
 The split virtqueue of kernel/virtio_disk.c: the driver's descriptors and rings, and the
 device at the other end of them.

 Driver code runs under vdisk_lock; the device takes its steps at any point in between. A
 request is started (its slot in the avail ring written) and published (the index bumped)
 in two steps, and each turn of the interrupt handler's loop is a step of its own. The two
 16-bit indices in shared memory, and the two private copies that chase them, wrap.
 */
module Virtio {
  import opened Blocks

  const NUM := 8
  const NONE := -1
  const WRAP := 65536
  // The device counts in sectors of this many bytes.
  const SECTOR := 512

  /** What a descriptor's address names. */
  datatype Target = Null | Op(i: nat) | Data(b: nat) | Status(i: nat)

  datatype Desc = Desc(addr: Target, len: nat, hasNext: bool, deviceWrites: bool, next: nat)

  datatype Req = Req(write: bool, sector: nat)

  datatype Info = Info(b: int, status: nat)

  datatype Buf = Buf(blockno: nat, disk: bool, data: Block)

  const CLEAR := Desc(Null, 0, false, false, 0)

  /** The sector of a block, in the 32-bit arithmetic of the source. */
  function Sector(blockno: nat): (r: nat) {
    blockno * (BSIZE / SECTOR) % 0x1_0000_0000
  }

  // Requests, as they pass from driver to device and back.

  datatype Phase = Unused | Started | Published | Fetched | Moved | Posted | Completed

  /**
   The request whose chain begins at some descriptor: the other two descriptors, the buffer,
   its number in the order of publication, and its place in the ring it is in.
   */
  datatype Chain = Chain(phase: Phase, mid: nat, tail: nat, buf: nat, write: bool, id: nat, pos: nat)

  predicate InDevice(p: Phase) {
    p.Fetched? || p.Moved?
  }

  predicate Done(p: Phase) {
    p.Moved? || p.Posted? || p.Completed?
  }

  predicate IsPublic(p: Phase) {
    p.Published? || p.Fetched? || p.Moved? || p.Posted?
  }

  function Free(free: seq<bool>): nat {
    if free == [] then 0 else Free(free[..|free| - 1]) + Bit(free[|free| - 1])
  }

  function Live(chain: seq<Chain>): nat {
    if chain == [] then 0 else Live(chain[..|chain| - 1]) + Bit(!chain[|chain| - 1].phase.Unused?)
  }

  function InAvail(chain: seq<Chain>): nat {
    if chain == [] then 0 else InAvail(chain[..|chain| - 1]) + Bit(chain[|chain| - 1].phase.Published?)
  }

  function AtDevice(chain: seq<Chain>): nat {
    if chain == [] then 0 else AtDevice(chain[..|chain| - 1]) + Bit(InDevice(chain[|chain| - 1].phase))
  }

  function InUsed(chain: seq<Chain>): nat {
    if chain == [] then 0 else InUsed(chain[..|chain| - 1]) + Bit(chain[|chain| - 1].phase.Posted?)
  }

  lemma {:induction false} FreeSet(free: seq<bool>, d: nat, v: bool)
    requires d < |free|
    ensures Free(free[d := v]) == Free(free) - Bit(free[d]) + Bit(v)
  {
    var last := |free| - 1;
    if d == last {
      assert free[d := v][..last] == free[..last];
    } else {
      assert free[d := v][..last] == free[..last][d := v];
      FreeSet(free[..last], d, v);
    }
  }

  lemma {:induction false} NoneFree(free: seq<bool>)
    requires forall d :: 0 <= d < |free| ==> !free[d]
    ensures Free(free) == 0
  {
    if free != [] {
      NoneFree(free[..|free| - 1]);
    }
  }

  lemma {:induction false} ChainSet(chain: seq<Chain>, h: nat, c: Chain)
    requires h < |chain|
    ensures Live(chain[h := c]) == Live(chain) - Bit(!chain[h].phase.Unused?) + Bit(!c.phase.Unused?)
    ensures InAvail(chain[h := c]) == InAvail(chain) - Bit(chain[h].phase.Published?) + Bit(c.phase.Published?)
    ensures AtDevice(chain[h := c]) == AtDevice(chain) - Bit(InDevice(chain[h].phase)) + Bit(InDevice(c.phase))
    ensures InUsed(chain[h := c]) == InUsed(chain) - Bit(chain[h].phase.Posted?) + Bit(c.phase.Posted?)
  {
    var last := |chain| - 1;
    if h == last {
      assert chain[h := c][..last] == chain[..last];
    } else {
      assert chain[h := c][..last] == chain[..last][h := c];
      ChainSet(chain[..last], h, c);
    }
  }

  lemma {:induction false} PublicAreLive(chain: seq<Chain>)
    ensures InAvail(chain) + AtDevice(chain) + InUsed(chain) <= Live(chain)
  {
    if chain != [] {
      PublicAreLive(chain[..|chain| - 1]);
    }
  }

  lemma Started1(chain: seq<Chain>, h: nat)
    requires h < |chain| && chain[h].phase.Started?
    ensures InAvail(chain) + AtDevice(chain) + InUsed(chain) < Live(chain)
  {
    ChainSet(chain, h, chain[h].(phase := Unused));
    PublicAreLive(chain[h := chain[h].(phase := Unused)]);
  }

  /** The 16-bit index that has been incremented n times, and the ring slot it picks. */
  function Idx(n: nat): nat {
    if n == 0 then 0 else (Idx(n - 1) + 1) % WRAP
  }

  function Slot(n: nat): (r: nat)
    ensures r < NUM
  {
    if n < NUM then n else Slot(n - NUM)
  }

  lemma NextIdx(n: nat)
    ensures (n % WRAP + 1) % WRAP == (n + 1) % WRAP
  {
    var q, r := n / WRAP, n % WRAP;
    assert n + 1 == q * WRAP + (r + 1);
  }

  lemma {:induction false} IdxIs(n: nat)
    ensures Idx(n) == n % WRAP
  {
    if n > 0 {
      IdxIs(n - 1);
      NextIdx(n - 1);
    }
  }

  lemma {:induction false} SlotIs(n: nat)
    ensures Slot(n) == n % NUM
  {
    if n >= NUM {
      SlotIs(n - NUM);
    }
  }

  lemma SlotOfWrapped(a: nat)
    ensures a % WRAP % NUM == a % NUM
  {
    var q, r := a / WRAP, a % WRAP;
    assert a == 8192 * q * NUM + r;
    assert a % NUM == r % NUM;
  }

  lemma WrapsApart(a: nat, b: nat)
    requires a <= b < a + WRAP
    ensures a % WRAP == b % WRAP <==> a == b
  {
  }

  /** Wrapped indices pick the same slots as unbounded counts, and differ when those do. */
  lemma Wrapped(a: nat, b: nat)
    requires a <= b < a + WRAP
    ensures Idx(a) % NUM == Slot(a)
    ensures Idx(a) == Idx(b) <==> a == b
    ensures (Idx(a) + 1) % WRAP == Idx(a + 1)
  {
    assert (Idx(a) + 1) % WRAP == Idx(a + 1);
    hide Idx, Slot;
    IdxIs(a);
    IdxIs(b);
    SlotIs(a);
    SlotOfWrapped(a);
    WrapsApart(a, b);
  }

  // The invariant.

  /** Three descriptors, linked and filled in for one request. */
  predicate Formatted(desc: seq<Desc>, h: nat, c: Chain) {
    && h < |desc| && c.mid < |desc| && c.tail < |desc|
    && desc[h] == Desc(Op(h), 16, true, false, c.mid)
    && desc[c.mid] == Desc(Data(c.buf), BSIZE, true, !c.write, c.tail)
    && desc[c.tail] == Desc(Status(h), 1, false, true, 0)
  }

  /** A live chain is three distinct descriptors of its own. */
  predicate OwnsThree(desc: seq<Desc>, owner: seq<int>, h: nat, c: Chain) {
    !c.phase.Unused? ==>
      && Formatted(desc, h, c) && h != c.mid && h != c.tail && c.mid != c.tail
      && |owner| == |desc| && owner[h] == owner[c.mid] == owner[c.tail] == h
  }

  /** Descriptor d is one of the three of chain c, at h. */
  predicate IsOf(d: nat, h: nat, c: Chain) {
    d == h || d == c.mid || d == c.tail
  }

  /** The descriptors are the free ones and disjoint chains of three; `owner` says whose each is. */
  ghost predicate Partition(free: seq<bool>, desc: seq<Desc>, chain: seq<Chain>, owner: seq<int>) {
    && |free| == |desc| == |chain| == |owner| == NUM
    && (forall d {:trigger free[d]} :: 0 <= d < NUM ==> (free[d] <==> owner[d] == NONE))
    && (forall d {:trigger free[d]} :: 0 <= d < NUM && free[d] ==> desc[d] == CLEAR)
    && (forall d {:trigger owner[d]} :: 0 <= d < NUM && owner[d] != NONE ==>
          0 <= owner[d] < NUM && !chain[owner[d]].phase.Unused? && IsOf(d, owner[d], chain[owner[d]]))
    && (forall h {:trigger OwnsThree(desc, owner, h, chain[h])} :: 0 <= h < NUM ==> OwnsThree(desc, owner, h, chain[h]))
  }

  /** The record of a live request, and its buffer's flag; `flight` is the inverse of the buffer field. */
  predicate Recorded(info: seq<Info>, ops: seq<Req>, bufs: seq<Buf>, flight: seq<int>, h: nat, c: Chain) {
    !c.phase.Unused? ==>
      && h < |info| == |ops| && c.buf < |bufs| == |flight| && flight[c.buf] == h
      && info[h].b == c.buf && ops[h] == Req(c.write, Sector(bufs[c.buf].blockno))
      && (Done(c.phase) ==> info[h].status == 0)
      && (bufs[c.buf].disk <==> !c.phase.Completed?)
  }

  ghost predicate Requests(chain: seq<Chain>, info: seq<Info>, ops: seq<Req>, bufs: seq<Buf>, flight: seq<int>) {
    && |chain| == |info| == |ops| == NUM && |flight| == |bufs|
    && (forall h {:trigger Recorded(info, ops, bufs, flight, h, chain[h])} :: 0 <= h < NUM ==>
          Recorded(info, ops, bufs, flight, h, chain[h]))
    && (forall b {:trigger flight[b]} :: 0 <= b < |bufs| ==>
          if flight[b] == NONE then !bufs[b].disk
          else 0 <= flight[b] < NUM && !chain[flight[b]].phase.Unused? && chain[flight[b]].buf == b)
  }

  /** How many requests have been published, fetched, posted and completed so far. */
  datatype Counts = Counts(published: nat, fetched: nat, posted: nat, completed: nat)

  /** Every slot between a ring's two indices holds the request that was put there. */
  ghost predicate Rings(chain: seq<Chain>, avail: seq<nat>, used: seq<nat>, n: Counts) {
    && |avail| == |used| == |chain| == NUM
    && n.published - n.fetched == InAvail(chain)
    && n.fetched - n.posted == AtDevice(chain)
    && n.posted - n.completed == InUsed(chain)
    && (forall k {:trigger avail[Slot(k)]} :: n.fetched <= k < n.published ==>
          avail[Slot(k)] < NUM && chain[avail[Slot(k)]].phase.Published? && chain[avail[Slot(k)]].pos == k)
    && (forall k {:trigger used[Slot(k)]} :: n.completed <= k < n.posted ==>
          used[Slot(k)] < NUM && chain[used[Slot(k)]].phase.Posted? && chain[used[Slot(k)]].pos == k)
  }

  /** How often a request has been carried out, and completed to its buffer; k is its number, h its chain. */
  predicate Tallied(chain: seq<Chain>, h: int, k: nat, transfers: nat, completions: nat) {
    if h == NONE then transfers == 1 && completions == 1
    else && 0 <= h < |chain| && IsPublic(chain[h].phase) && chain[h].id == k
         && transfers == Bit(Done(chain[h].phase)) && completions == 0
  }

  predicate Numbered(head: seq<int>, h: nat, c: Chain) {
    && (IsPublic(c.phase) ==> c.id < |head| && head[c.id] == h)
    && (c.phase.Completed? ==> c.id < |head| && head[c.id] == NONE)
  }

  ghost predicate Tallies(chain: seq<Chain>, head: seq<int>, transfers: seq<nat>, completions: seq<nat>) {
    && |head| == |transfers| == |completions|
    && (forall h {:trigger Numbered(head, h, chain[h])} :: 0 <= h < |chain| ==> Numbered(head, h, chain[h]))
    && (forall k {:trigger head[k]} :: 0 <= k < |head| ==> Tallied(chain, head[k], k, transfers[k], completions[k]))
  }

  // What each step does to the parts of the invariant.

  lemma PartitionStart(free: seq<bool>, desc: seq<Desc>, chain: seq<Chain>, owner: seq<int>,
                       free': seq<bool>, desc': seq<Desc>, owner': seq<int>, h: nat, c: Chain)
    requires Partition(free, desc, chain, owner) && |free'| == |desc'| == |owner'| == NUM
    requires h < NUM && c.mid < NUM && c.tail < NUM && h != c.mid && h != c.tail && c.mid != c.tail && !c.phase.Unused?
    requires free[h] && free[c.mid] && free[c.tail] && Formatted(desc', h, c)
    requires forall d :: 0 <= d < NUM ==> free'[d] == (free[d] && !IsOf(d, h, c))
    requires forall d :: 0 <= d < NUM && !IsOf(d, h, c) ==> desc'[d] == desc[d]
    requires forall d :: 0 <= d < NUM ==> owner'[d] == if IsOf(d, h, c) then h else owner[d]
    ensures Partition(free', desc', chain[h := c], owner') && chain[h].phase.Unused?
  {
    assert OwnsThree(desc, owner, h, chain[h]);
    assert owner[h] == NONE && owner[c.mid] == NONE && owner[c.tail] == NONE;
    var chain' := chain[h := c];
    forall g | 0 <= g < NUM ensures OwnsThree(desc', owner', g, chain'[g]) {
      assert OwnsThree(desc, owner, g, chain[g]);
    }
  }

  lemma PartitionFinish(free: seq<bool>, desc: seq<Desc>, chain: seq<Chain>, owner: seq<int>,
                        free': seq<bool>, desc': seq<Desc>, owner': seq<int>, h: nat, c: Chain)
    requires Partition(free, desc, chain, owner) && |free'| == |desc'| == |owner'| == NUM
    requires h < NUM && chain[h] == c && !c.phase.Unused?
    requires forall d :: 0 <= d < NUM ==> free'[d] == (free[d] || IsOf(d, h, c))
    requires forall d :: 0 <= d < NUM ==> desc'[d] == if IsOf(d, h, c) then CLEAR else desc[d]
    requires forall d :: 0 <= d < NUM ==> owner'[d] == if IsOf(d, h, c) then NONE else owner[d]
    ensures Partition(free', desc', chain[h := c.(phase := Unused)], owner')
  {
    assert OwnsThree(desc, owner, h, chain[h]);
    var chain' := chain[h := c.(phase := Unused)];
    forall g | 0 <= g < NUM ensures OwnsThree(desc', owner', g, chain'[g]) {
      assert OwnsThree(desc, owner, g, chain[g]);
    }
  }

  /** Three descriptors change hands. */
  lemma FreeThree(free: seq<bool>, a: nat, b: nat, c: nat, v: bool)
    requires a < |free| && b < |free| && c < |free| && a != b && a != c && b != c
    requires free[a] != v && free[b] != v && free[c] != v
    ensures Free(free[a := v][b := v][c := v]) == Free(free) + 3 * (Bit(v) - Bit(!v))
  {
    FreeSet(free, a, v);
    FreeSet(free[a := v], b, v);
    FreeSet(free[a := v][b := v], c, v);
  }

  /** A request moves on; its chain stays as it was formatted. */
  lemma PartitionMove(free: seq<bool>, desc: seq<Desc>, chain: seq<Chain>, owner: seq<int>, h: nat, c: Chain)
    requires Partition(free, desc, chain, owner) && h < NUM && !chain[h].phase.Unused? && !c.phase.Unused?
    requires c.mid == chain[h].mid && c.tail == chain[h].tail && c.buf == chain[h].buf && c.write == chain[h].write
    ensures Partition(free, desc, chain[h := c], owner)
  {
    var chain' := chain[h := c];
    forall g | 0 <= g < NUM ensures OwnsThree(desc, owner, g, chain'[g]) {
      assert OwnsThree(desc, owner, g, chain[g]);
    }
  }

  lemma SlotFree(lo: nat, hi: nat, k: nat)
    requires lo <= k < hi < lo + NUM
    ensures Slot(k) != Slot(hi)
  {
    SlotIs(k);
    SlotIs(hi);
  }

  lemma RequestsStart(chain: seq<Chain>, info: seq<Info>, ops: seq<Req>, bufs: seq<Buf>, flight: seq<int>, h: nat,
                      c: Chain)
    requires Requests(chain, info, ops, bufs, flight) && h < NUM && chain[h].phase.Unused? && c.phase.Started?
    requires c.buf < |bufs| && flight[c.buf] == NONE
    ensures Requests(chain[h := c], info[h := Info(c.buf, 0xff)], ops[h := Req(c.write, Sector(bufs[c.buf].blockno))],
                     bufs[c.buf := bufs[c.buf].(disk := true)], flight[c.buf := h])
  {
    var chain', info', ops' := chain[h := c], info[h := Info(c.buf, 0xff)],
      ops[h := Req(c.write, Sector(bufs[c.buf].blockno))];
    var bufs', flight' := bufs[c.buf := bufs[c.buf].(disk := true)], flight[c.buf := h];
    forall g | 0 <= g < NUM ensures Recorded(info', ops', bufs', flight', g, chain'[g]) {
      assert Recorded(info, ops, bufs, flight, g, chain[g]);
    }
  }

  lemma RequestsMove(chain: seq<Chain>, info: seq<Info>, ops: seq<Req>, bufs: seq<Buf>, flight: seq<int>, h: nat,
                     c: Chain, info': seq<Info>, buf': Buf)
    requires Requests(chain, info, ops, bufs, flight) && h < NUM && !chain[h].phase.Unused? && !c.phase.Unused?
    requires c.buf == chain[h].buf && c.write == chain[h].write
    requires |info'| == NUM && info'[h].b == info[h].b && (Done(c.phase) ==> info'[h].status == 0)
    requires forall g :: 0 <= g < NUM && g != h ==> info'[g] == info[g]
    requires c.buf < |bufs| && buf'.blockno == bufs[c.buf].blockno && (buf'.disk <==> !c.phase.Completed?)
    ensures Requests(chain[h := c], info', ops, bufs[c.buf := buf'], flight)
  {
    assert Recorded(info, ops, bufs, flight, h, chain[h]);
    var chain', bufs' := chain[h := c], bufs[c.buf := buf'];
    forall g | 0 <= g < NUM ensures Recorded(info', ops, bufs', flight, g, chain'[g]) {
      assert Recorded(info, ops, bufs, flight, g, chain[g]);
    }
  }

  lemma RequestsFinish(chain: seq<Chain>, info: seq<Info>, ops: seq<Req>, bufs: seq<Buf>, flight: seq<int>, h: nat)
    requires Requests(chain, info, ops, bufs, flight) && h < NUM && chain[h].phase.Completed? && chain[h].buf < |bufs|
    ensures Requests(chain[h := chain[h].(phase := Unused)], info[h := info[h].(b := NONE)], ops, bufs,
              flight[chain[h].buf := NONE])
  {
    assert Recorded(info, ops, bufs, flight, h, chain[h]);
    var chain', info', flight' := chain[h := chain[h].(phase := Unused)], info[h := info[h].(b := NONE)],
      flight[chain[h].buf := NONE];
    forall g | 0 <= g < NUM ensures Recorded(info', ops, bufs, flight', g, chain'[g]) {
      assert Recorded(info, ops, bufs, flight, g, chain[g]);
    }
  }

  /** A step that puts nothing into a ring and takes nothing out; the slot after the last may be written. */
  lemma RingsKeep(chain: seq<Chain>, avail: seq<nat>, used: seq<nat>, n: Counts, h: nat, c: Chain, slot: nat)
    requires Rings(chain, avail, used, n) && h < NUM && n.published < n.fetched + NUM
    requires !chain[h].phase.Published? && !chain[h].phase.Posted? && !c.phase.Published? && !c.phase.Posted?
    requires InDevice(chain[h].phase) == InDevice(c.phase)
    ensures Rings(chain[h := c], avail, used, n)
    ensures Rings(chain[h := c], avail[Slot(n.published) := slot], used, n)
  {
    ChainSet(chain, h, c);
    forall k | n.fetched <= k < n.published ensures avail[Slot(n.published) := slot][Slot(k)] == avail[Slot(k)] {
      SlotFree(n.fetched, n.published, k);
    }
  }

  lemma RingsPublish(chain: seq<Chain>, avail: seq<nat>, used: seq<nat>, n: Counts, h: nat, c: Chain)
    requires Rings(chain, avail, used, n) && h < NUM && chain[h].phase.Started? && avail[Slot(n.published)] == h
    requires c.phase.Published? && c.pos == n.published
    ensures Rings(chain[h := c], avail, used, n.(published := n.published + 1))
  {
    ChainSet(chain, h, c);
  }

  lemma RingsFetch(chain: seq<Chain>, avail: seq<nat>, used: seq<nat>, n: Counts, h: nat, c: Chain)
    requires Rings(chain, avail, used, n) && n.fetched < n.published && h == avail[Slot(n.fetched)] && h < NUM
    requires c.phase.Fetched?
    ensures chain[h].phase.Published? && Rings(chain[h := c], avail, used, n.(fetched := n.fetched + 1))
  {
    ChainSet(chain, h, c);
  }

  lemma RingsPost(chain: seq<Chain>, avail: seq<nat>, used: seq<nat>, n: Counts, h: nat, c: Chain)
    requires Rings(chain, avail, used, n) && h < NUM && chain[h].phase.Moved? && n.posted < n.completed + NUM
    requires c.phase.Posted? && c.pos == n.posted
    ensures Rings(chain[h := c], avail, used[Slot(n.posted) := h], n.(posted := n.posted + 1))
  {
    ChainSet(chain, h, c);
    forall k | n.completed <= k < n.posted ensures used[Slot(n.posted) := h][Slot(k)] == used[Slot(k)] {
      SlotFree(n.completed, n.posted, k);
    }
  }

  lemma RingsComplete(chain: seq<Chain>, avail: seq<nat>, used: seq<nat>, n: Counts, h: nat, c: Chain)
    requires Rings(chain, avail, used, n) && n.completed < n.posted && h == used[Slot(n.completed)] && h < NUM
    requires c.phase.Completed?
    ensures chain[h].phase.Posted? && Rings(chain[h := c], avail, used, n.(completed := n.completed + 1))
  {
    ChainSet(chain, h, c);
  }

  /** A published request moves on: carried out once, or not at all yet. */
  lemma TalliesMove(chain: seq<Chain>, head: seq<int>, transfers: seq<nat>, completions: seq<nat>, h: nat, c: Chain)
    requires Tallies(chain, head, transfers, completions) && h < |chain| && c.id == chain[h].id
    requires IsPublic(chain[h].phase) == IsPublic(c.phase) && !c.phase.Completed?
    requires IsPublic(c.phase) && Done(chain[h].phase) ==> Done(c.phase)
    ensures Done(c.phase) == Done(chain[h].phase) || !IsPublic(c.phase) ==>
              Tallies(chain[h := c], head, transfers, completions)
    ensures Done(c.phase) != Done(chain[h].phase) && IsPublic(c.phase) ==> c.id < |transfers|
    ensures Done(c.phase) != Done(chain[h].phase) && IsPublic(c.phase) ==>
              Tallies(chain[h := c], head, transfers[c.id := transfers[c.id] + 1], completions)
  {
    var chain' := chain[h := c];
    assert Numbered(head, h, chain[h]);
    forall g | 0 <= g < |chain| ensures Numbered(head, g, chain'[g]) {
      assert Numbered(head, g, chain[g]);
    }
  }

  lemma TalliesPublish(chain: seq<Chain>, head: seq<int>, transfers: seq<nat>, completions: seq<nat>, h: nat, c: Chain)
    requires Tallies(chain, head, transfers, completions) && h < |chain| && chain[h].phase.Started?
    requires c.phase.Published? && c.id == |head|
    ensures Tallies(chain[h := c], head + [h], transfers + [0], completions + [0])
  {
    var chain' := chain[h := c];
    forall g | 0 <= g < |chain| ensures Numbered(head + [h], g, chain'[g]) {
      assert Numbered(head, g, chain[g]);
    }
  }

  lemma TalliesComplete(chain: seq<Chain>, head: seq<int>, transfers: seq<nat>, completions: seq<nat>, h: nat, c: Chain)
    requires Tallies(chain, head, transfers, completions) && h < |chain| && chain[h].phase.Posted? && c.phase.Completed?
    requires c.id == chain[h].id
    ensures c.id < |head| && completions[c.id] == 0
    ensures Tallies(chain[h := c], head[c.id := NONE], transfers, completions[c.id := completions[c.id] + 1])
  {
    var chain' := chain[h := c];
    assert Numbered(head, h, chain[h]);
    forall g | 0 <= g < |chain| ensures Numbered(head[c.id := NONE], g, chain'[g]) {
      assert Numbered(head, g, chain[g]);
    }
  }

  // The machine.

  /** The driver's half, the shared rings, the device's half, and the callers' buffers. */
  datatype Mem = Mem(
    free: seq<bool>, desc: seq<Desc>, info: seq<Info>, ops: seq<Req>, usedSeen: nat,
    avail: seq<nat>, availIdx: nat, used: seq<nat>, usedIdx: nat,
    // how far the device has read, the chains it has, and those of them it has carried out
    availSeen: nat, got: seq<bool>, did: seq<bool>, media: seq<Byte>,
    bufs: seq<Buf>,
    // the chain of the caller that holds vdisk_lock and has yet to publish it
    starting: int)

  predicate Sized(m: Mem) {
    |m.free| == |m.desc| == |m.info| == |m.ops| == |m.avail| == |m.used| == |m.got| == |m.did| == NUM
  }

  /** alloc_desc: the first free descriptor. */
  function Lowest(free: seq<bool>, from: nat): (r: int)
    requires from <= |free|
    ensures from <= r < |free| || r == NONE
    ensures r == NONE ==> forall d :: from <= d < |free| ==> !free[d]
    ensures r != NONE ==> free[r] && forall d :: from <= d < r ==> !free[d]
    decreases |free| - from
  {
    if from == |free| then NONE else if free[from] then from else Lowest(free, from + 1)
  }

  function Format(m: Mem, b: nat, write: bool, h: nat, i: nat, t: nat): Mem
    requires Sized(m) && b < |m.bufs| && h < NUM && i < NUM && t < NUM
  {
    m.(free := m.free[h := false][i := false][t := false],
       desc := m.desc[h := Desc(Op(h), 16, true, false, i)]
                     [i := Desc(Data(b), BSIZE, true, !write, t)]
                     [t := Desc(Status(h), 1, false, true, 0)],
       info := m.info[h := Info(b, 0xff)],
       ops := m.ops[h := Req(write, Sector(m.bufs[b].blockno))],
       bufs := m.bufs[b := m.bufs[b].(disk := true)],
       avail := m.avail[m.availIdx % NUM := h],
       starting := h)
  }

  /** virtio_disk_rw as far as the write of the avail slot; nothing when it must sleep for descriptors. */
  function Start(m: Mem, b: nat, write: bool): Mem
    requires Sized(m) && b < |m.bufs|
  {
    var h := Lowest(m.free, 0);
    if h == NONE then m else
    var i := Lowest(m.free[h := false], 0);
    if i == NONE then m else
    var t := Lowest(m.free[h := false][i := false], 0);
    if t == NONE then m else Format(m, b, write, h, i, t)
  }

  /** The bump of avail->idx; its caller then sleeps, and so lets go of the lock. */
  function Publish(m: Mem): Mem {
    m.(availIdx := (m.availIdx + 1) % WRAP, starting := NONE)
  }

  /** The rest of virtio_disk_rw, once the buffer's flag is clear. */
  function Finish(m: Mem, h: nat): Mem
    requires Sized(m) && h < NUM && m.desc[h].next < NUM && m.desc[m.desc[h].next].next < NUM
  {
    var i := m.desc[h].next;
    var t := m.desc[i].next;
    m.(info := m.info[h := m.info[h].(b := NONE)],
       free := m.free[h := true][i := true][t := true],
       desc := m.desc[h := CLEAR][i := CLEAR][t := CLEAR])
  }

  /** The device takes the next chain from the avail ring. */
  function Fetch(m: Mem): Mem
    requires Sized(m) && m.avail[m.availSeen % NUM] < NUM
  {
    m.(got := m.got[m.avail[m.availSeen % NUM] := true], availSeen := (m.availSeen + 1) % WRAP)
  }

  /** The links of a chain, as the device follows them, name what a request needs. */
  predicate Readable(m: Mem, h: nat) {
    && Sized(m) && h < NUM
    && m.desc[h].addr.Op? && m.desc[h].addr.i < NUM && m.desc[h].hasNext && m.desc[h].next < NUM
    && var d := m.desc[m.desc[h].next];
       && d.addr.Data? && d.addr.b < |m.bufs| && d.len <= BSIZE && d.hasNext && d.next < NUM
       && m.desc[d.next].addr.Status? && m.desc[d.next].addr.i < NUM
       && m.ops[m.desc[h].addr.i].sector * SECTOR + d.len <= |m.media|
       && (d.deviceWrites <==> !m.ops[m.desc[h].addr.i].write)
  }

  /** The device carries out a request as its descriptors and command header say: so many bytes from that sector on. */
  function Transfer(m: Mem, h: nat): Mem
    requires Readable(m, h)
  {
    var d := m.desc[m.desc[h].next];
    var op, b, st := m.ops[m.desc[h].addr.i], d.addr.b, m.desc[d.next].addr.i;
    var at, data := op.sector * SECTOR, m.bufs[b].data;
    m.(bufs := if op.write then m.bufs else m.bufs[b := m.bufs[b].(data := m.media[at..at + d.len] + data[d.len..])],
       media := if op.write then m.media[..at] + data[..d.len] + m.media[at + d.len..] else m.media,
       info := m.info[st := m.info[st].(status := 0)],
       did := m.did[h := true])
  }

  function Post(m: Mem, h: nat): Mem
    requires Sized(m) && h < NUM
  {
    m.(used := m.used[m.usedIdx % NUM := h], usedIdx := (m.usedIdx + 1) % WRAP, got := m.got[h := false],
      did := m.did[h := false])
  }

  /**
   The next entry of the used ring names a completed request of some buffer: where not,
   virtio_disk_intr panics or strays.
   */
  predicate Completable(m: Mem) {
    && Sized(m)
    && var id := m.used[m.usedSeen % NUM];
       id < NUM && m.info[id].status == 0 && 0 <= m.info[id].b < |m.bufs|
  }

  /** One turn of virtio_disk_intr's loop. */
  function Complete(m: Mem): Mem
    requires Completable(m)
  {
    var b := m.info[m.used[m.usedSeen % NUM]].b;
    m.(bufs := m.bufs[b := m.bufs[b].(disk := false)], usedSeen := (m.usedSeen + 1) % WRAP)
  }

  /** The machine's memory, with the record of every request. */
  datatype State = State(m: Mem, chain: seq<Chain>, owner: seq<int>, flight: seq<int>, n: Counts,
                         head: seq<int>, transfers: seq<nat>, completions: seq<nat>)

  datatype Step =
    | DoStart(b: nat, write: bool) | DoPublish | DoFinish(b: nat)
    | DoFetch | DoTransfer(h: nat) | DoPost(h: nat) | DoComplete
    // a caller changes a buffer that it has and that is not in flight
    | DoModify(b: nat, buf: Buf)

  /** The buffer's block is on the disk. */
  predicate OnMedia(buf: Buf, media: seq<Byte>) {
    (buf.blockno + 1) * BSIZE <= |media|
  }

  /** A step that its taker may take: the lock is free to the driver, the ring or the device has something. */
  predicate Enabled(s: State, step: Step) {
    var m := s.m;
    match step
    case DoStart(b, _) => m.starting == NONE && b < |m.bufs| == |s.flight| && s.flight[b] == NONE
    case DoPublish => m.starting != NONE
    case DoFinish(b) => m.starting == NONE && b < |m.bufs| == |s.flight| && s.flight[b] != NONE && !m.bufs[b].disk
    case DoFetch => m.availSeen != m.availIdx
    case DoTransfer(h) => h < |m.got| == |m.did| && m.got[h] && !m.did[h]
    case DoPost(h) => h < |m.got| == |m.did| && m.got[h] && m.did[h]
    case DoComplete => m.starting == NONE && m.usedSeen != m.usedIdx
    case DoModify(b, buf) => b < |m.bufs| == |s.flight| && s.flight[b] == NONE && !buf.disk && OnMedia(buf, m.media)
  }

  /** The buffer that the device moves the data of chain h to or from, and the one the used ring completes next. */
  function DataOf(m: Mem, h: nat): nat
    requires Readable(m, h)
  {
    m.desc[m.desc[h].next].addr.b
  }

  function CompletesTo(m: Mem): nat
    requires Completable(m)
  {
    m.info[m.used[m.usedSeen % NUM]].b
  }

  /** Buffer b is that of a published request. */
  predicate Charged(s: State, b: nat) {
    && b < |s.flight| && 0 <= s.flight[b] < |s.chain|
    && s.chain[s.flight[b]].id < |s.head| == |s.transfers| == |s.completions|
  }

  /** The step finds what it relies on: no index strays and no panic is called. */
  predicate Safe(s: State, step: Step) {
    var m := s.m;
    && Sized(m) && |s.chain| == |s.owner| == NUM && |s.flight| == |m.bufs|
    && match step
       case DoStart(b, _) => b < |m.bufs|
       case DoPublish => 0 <= m.starting < NUM
       case DoFinish(b) =>
         && b < |m.bufs| && 0 <= s.flight[b] < NUM
         && var h := s.flight[b];
            var i := m.desc[h].next;
            && m.desc[h].hasNext && i < NUM && m.desc[i].hasNext && m.desc[i].next < NUM
            && !m.desc[m.desc[i].next].hasNext
            && h != i && h != m.desc[i].next && i != m.desc[i].next && !m.free[h] && !m.free[i]
            && !m.free[m.desc[i].next]
       case DoFetch => m.avail[m.availSeen % NUM] < NUM
       case DoTransfer(h) => Readable(m, h) && Charged(s, DataOf(m, h))
       case DoPost(h) => h < NUM
       case DoComplete => Completable(m) && Charged(s, CompletesTo(m))
       case DoModify(b, _) => b < |m.bufs|
  }

  function Next(s: State, step: Step): State
    requires Enabled(s, step) && Safe(s, step)
  {
    match step
    case DoStart(b, write) =>
      var m := Start(s.m, b, write);
      if m.starting == NONE then s else
      var h := m.starting;
      var i := m.desc[h].next;
      var t := m.desc[i].next;
      s.(m := m, chain := s.chain[h := Chain(Started, i, t, b, write, 0, 0)],
         owner := s.owner[h := h][i := h][t := h], flight := s.flight[b := h])
    case DoPublish =>
      var h := s.m.starting;
      s.(m := Publish(s.m),
        chain := s.chain[h := s.chain[h].(phase := Published, id := |s.head|, pos := s.n.published)],
         n := s.n.(published := s.n.published + 1),
         head := s.head + [h], transfers := s.transfers + [0], completions := s.completions + [0])
    case DoFinish(b) =>
      var h := s.flight[b];
      var i := s.m.desc[h].next;
      s.(m := Finish(s.m, h), chain := s.chain[h := s.chain[h].(phase := Unused)],
         owner := s.owner[h := NONE][i := NONE][s.m.desc[i].next := NONE], flight := s.flight[b := NONE])
    case DoFetch =>
      var h := s.m.avail[s.m.availSeen % NUM];
      s.(m := Fetch(s.m), chain := s.chain[h := s.chain[h].(phase := Fetched)], n := s.n.(fetched := s.n.fetched + 1))
    case DoTransfer(h) =>
      var k := s.chain[s.flight[DataOf(s.m, h)]].id;
      s.(m := Transfer(s.m, h), chain := s.chain[h := s.chain[h].(phase := Moved)],
        transfers := s.transfers[k := s.transfers[k] + 1])
    case DoPost(h) =>
      s.(m := Post(s.m, h), chain := s.chain[h := s.chain[h].(phase := Posted, pos := s.n.posted)],
        n := s.n.(posted := s.n.posted + 1))
    case DoComplete =>
      var h := s.m.used[s.m.usedSeen % NUM];
      var k := s.chain[s.flight[CompletesTo(s.m)]].id;
      s.(m := Complete(s.m), chain := s.chain[h := s.chain[h].(phase := Completed)],
        n := s.n.(completed := s.n.completed + 1),
         head := s.head[k := NONE], completions := s.completions[k := s.completions[k] + 1])
    case DoModify(b, buf) => s.(m := s.m.(bufs := s.m.bufs[b := buf]))
  }

  /** The 16-bit indices are the unbounded counts, wrapped. */
  predicate Indices(m: Mem, n: Counts) {
    && m.availIdx == Idx(n.published) && m.availSeen == Idx(n.fetched)
    && m.usedIdx == Idx(n.posted) && m.usedSeen == Idx(n.completed)
  }

  /** What device and lock holder remember is the phase of each request. */
  predicate Agrees(m: Mem, chain: seq<Chain>, n: Counts) {
    && |m.got| == |m.did| == |chain| == |m.avail| == NUM
    && (forall h {:trigger m.got[h]} :: 0 <= h < NUM ==> (m.got[h] <==> InDevice(chain[h].phase)))
    && (forall h {:trigger m.did[h]} :: 0 <= h < NUM ==> (m.did[h] <==> chain[h].phase.Moved?))
    && (forall h {:trigger chain[h]} :: 0 <= h < NUM ==> (chain[h].phase.Started? <==> m.starting == h))
    && (m.starting == NONE || (0 <= m.starting < NUM && m.avail[Slot(n.published)] == m.starting))
  }

  /** The disk is not so large that a sector number wraps, and every buffer is of a block on it. */
  predicate OnDisk(bufs: seq<Buf>, media: seq<Byte>) {
    |media| <= 0x8000_0000 * BSIZE && forall b :: 0 <= b < |bufs| ==> OnMedia(bufs[b], media)
  }

  /** The driver's tables. */
  ghost predicate Tables(s: State) {
    && Sized(s.m)
    && Partition(s.m.free, s.m.desc, s.chain, s.owner) && Free(s.m.free) + 3 * Live(s.chain) == NUM
    && Requests(s.chain, s.m.info, s.m.ops, s.m.bufs, s.flight)
    && OnDisk(s.m.bufs, s.m.media)
  }

  /** The rings, and each request's way through them. */
  ghost predicate Queue(s: State) {
    && Rings(s.chain, s.m.avail, s.m.used, s.n)
    && Tallies(s.chain, s.head, s.transfers, s.completions) && |s.head| == s.n.published
    && Indices(s.m, s.n) && Agrees(s.m, s.chain, s.n)
  }

  ghost predicate Ok(s: State) {
    Tables(s) && Queue(s)
  }

  /** With three descriptors to a request there are at most two, so no ring can fill. */
  lemma AtMostTwo(s: State)
    requires Ok(s)
    ensures s.n.completed <= s.n.posted <= s.n.fetched <= s.n.published <= s.n.completed + Live(s.chain)
    ensures s.n.completed + Live(s.chain) <= s.n.completed + 2
    ensures s.m.starting != NONE ==> s.n.published < s.n.completed + 2
  {
    PublicAreLive(s.chain);
    if s.m.starting != NONE {
      Started1(s.chain, s.m.starting);
    }
  }

  /** A request moves on to `c`: its descriptors stay, its record says so, its buffer may change. */
  lemma TablesMove(s: State, s': State, h: nat, c: Chain)
    requires Tables(s) && h < NUM && !s.chain[h].phase.Unused? && !c.phase.Unused? && Sized(s'.m)
    requires s'.chain == s.chain[h := c] && s'.owner == s.owner && s'.flight == s.flight
    requires c.mid == s.chain[h].mid && c.tail == s.chain[h].tail && c.buf == s.chain[h].buf
    requires c.write == s.chain[h].write
    requires s'.m.free == s.m.free && s'.m.desc == s.m.desc && s'.m.ops == s.m.ops && |s'.m.media| == |s.m.media|
    requires s'.m.info[h].b == s.m.info[h].b && (Done(c.phase) ==> s'.m.info[h].status == 0)
    requires forall g :: 0 <= g < NUM && g != h ==> s'.m.info[g] == s.m.info[g]
    requires |s'.m.bufs| == |s.m.bufs| && forall b :: 0 <= b < |s.m.bufs| && b != c.buf ==> s'.m.bufs[b] == s.m.bufs[b]
    requires c.buf < |s.m.bufs| ==> s'.m.bufs[c.buf].blockno == s.m.bufs[c.buf].blockno
    requires c.buf < |s.m.bufs| ==> (s'.m.bufs[c.buf].disk <==> s.m.bufs[c.buf].disk && !c.phase.Completed?)
    requires !s.chain[h].phase.Completed?
    ensures Tables(s')
  {
    ChainSet(s.chain, h, c);
    PartitionMove(s.m.free, s.m.desc, s.chain, s.owner, h, c);
    assert Recorded(s.m.info, s.m.ops, s.m.bufs, s.flight, h, s.chain[h]);
    RequestsMove(s.chain, s.m.info, s.m.ops, s.m.bufs, s.flight, h, c, s'.m.info, s'.m.bufs[c.buf]);
    assert s.m.bufs[c.buf := s'.m.bufs[c.buf]] == s'.m.bufs;
  }

  lemma AgreesMove(m: Mem, m': Mem, chain: seq<Chain>, n: Counts, n': Counts, h: nat, c: Chain)
    requires Agrees(m, chain, n) && h < NUM && !chain[h].phase.Started? && !c.phase.Started?
    requires n'.published == n.published
    requires m'.got == m.got[h := InDevice(c.phase)] && m'.did == m.did[h := c.phase.Moved?]
    requires m'.avail == m.avail && m'.starting == m.starting
    ensures Agrees(m', chain[h := c], n')
  {
  }

  lemma QueuePublish(s: State)
    requires Queue(s) && Sized(s.m) && |s.owner| == NUM && |s.flight| == |s.m.bufs| && Enabled(s, DoPublish)
    requires s.n.completed <= s.n.posted <= s.n.fetched <= s.n.published <= s.n.completed + 2
    ensures Safe(s, DoPublish) && Queue(Next(s, DoPublish))
    ensures s.chain[s.m.starting].phase.Started?
  {
    hide Rings, Tallies;
    var h := s.m.starting;
    var c := s.chain[h].(phase := Published, id := |s.head|, pos := s.n.published);
    Wrapped(s.n.published, s.n.published);
    RingsPublish(s.chain, s.m.avail, s.m.used, s.n, h, c);
    TalliesPublish(s.chain, s.head, s.transfers, s.completions, h, c);
  }

  lemma PublishOk(s: State)
    requires Ok(s) && Enabled(s, DoPublish)
    ensures Safe(s, DoPublish) && Ok(Next(s, DoPublish))
  {
    AtMostTwo(s);
    QueuePublish(s);
    TablesMove(s, Next(s, DoPublish), s.m.starting, Next(s, DoPublish).chain[s.m.starting]);
  }

  lemma NextFetched(s: State)
    requires Queue(s) && Sized(s.m) && s.n.fetched <= s.n.published <= s.n.fetched + 2 && s.m.availSeen != s.m.availIdx
    ensures var h := s.m.avail[s.m.availSeen % NUM];
            |s.chain| == NUM && h < NUM && s.chain[h].phase.Published? && h == s.m.avail[Slot(s.n.fetched)]
              && s.n.fetched < s.n.published
    ensures (s.m.availSeen + 1) % WRAP == Idx(s.n.fetched + 1)
  {
    Wrapped(s.n.fetched, s.n.published);
  }

  lemma QueueFetch(s: State)
    requires Queue(s) && Sized(s.m) && |s.owner| == NUM && |s.flight| == |s.m.bufs| && Enabled(s, DoFetch)
    requires s.n.completed <= s.n.posted <= s.n.fetched <= s.n.published <= s.n.completed + 2
    ensures Safe(s, DoFetch) && Queue(Next(s, DoFetch))
    ensures s.chain[s.m.avail[s.m.availSeen % NUM]].phase.Published?
  {
    NextFetched(s);
    hide Tallies, Rings, Idx, Slot;
    var h := s.m.avail[Slot(s.n.fetched)];
    var c := s.chain[h].(phase := Fetched);
    RingsFetch(s.chain, s.m.avail, s.m.used, s.n, h, c);
    TalliesMove(s.chain, s.head, s.transfers, s.completions, h, c);
    AgreesMove(s.m, Next(s, DoFetch).m, s.chain, s.n, Next(s, DoFetch).n, h, c);
  }

  lemma FetchOk(s: State)
    requires Ok(s) && Enabled(s, DoFetch)
    ensures Safe(s, DoFetch) && Ok(Next(s, DoFetch))
  {
    AtMostTwo(s);
    QueueFetch(s);
    TablesMove(s, Next(s, DoFetch), s.m.avail[s.m.availSeen % NUM],
      Next(s, DoFetch).chain[s.m.avail[s.m.availSeen % NUM]]);
  }

  lemma QueuePost(s: State, h: nat)
    requires Queue(s) && Sized(s.m) && |s.owner| == NUM && |s.flight| == |s.m.bufs| && Enabled(s, DoPost(h))
    requires s.n.completed <= s.n.posted <= s.n.fetched <= s.n.published <= s.n.completed + 2
    ensures Safe(s, DoPost(h)) && Queue(Next(s, DoPost(h)))
    ensures s.chain[h].phase.Moved?
  {
    hide Rings, Tallies;
    Wrapped(s.n.posted, s.n.published);
    var c := s.chain[h].(phase := Posted, pos := s.n.posted);
    RingsPost(s.chain, s.m.avail, s.m.used, s.n, h, c);
    TalliesMove(s.chain, s.head, s.transfers, s.completions, h, c);
    AgreesMove(s.m, Next(s, DoPost(h)).m, s.chain, s.n, Next(s, DoPost(h)).n, h, c);
  }

  lemma PostOk(s: State, h: nat)
    requires Ok(s) && Enabled(s, DoPost(h))
    ensures Safe(s, DoPost(h)) && Ok(Next(s, DoPost(h)))
  {
    AtMostTwo(s);
    FindsRequest(s, h);
    QueuePost(s, h);
    TablesMove(s, Next(s, DoPost(h)), h, Next(s, DoPost(h)).chain[h]);
  }

  /** The device, and the completion, find what the driver filled in for this request. */
  lemma FindsRequest(s: State, h: nat)
    requires Tables(s) && h < NUM && !s.chain[h].phase.Unused?
    ensures Readable(s.m, h) && s.m.desc[h].addr.i == h && DataOf(s.m, h) == s.chain[h].buf
    ensures s.m.ops[h].write == s.chain[h].write && s.m.desc[s.m.desc[h].next].len == BSIZE
    ensures s.m.ops[h].sector * SECTOR == s.m.bufs[s.chain[h].buf].blockno * BSIZE
    ensures s.flight[s.chain[h].buf] == h && s.m.desc[s.m.desc[s.m.desc[h].next].next].addr.i == h
    ensures s.m.bufs[s.chain[h].buf].disk <==> !s.chain[h].phase.Completed?
    ensures s.m.info[h].b == s.chain[h].buf && (Done(s.chain[h].phase) ==> s.m.info[h].status == 0)
  {
    assert OwnsThree(s.m.desc, s.owner, h, s.chain[h]);
    assert Recorded(s.m.info, s.m.ops, s.m.bufs, s.flight, h, s.chain[h]);
  }

  lemma NextCompleted(s: State)
    requires Queue(s) && Sized(s.m) && s.n.completed <= s.n.posted <= s.n.completed + 2 && s.m.usedSeen != s.m.usedIdx
    ensures var h := s.m.used[s.m.usedSeen % NUM];
            h < NUM && s.chain[h].phase.Posted? && h == s.m.used[Slot(s.n.completed)] && s.n.completed < s.n.posted
    ensures (s.m.usedSeen + 1) % WRAP == Idx(s.n.completed + 1)
  {
    Wrapped(s.n.completed, s.n.posted);
  }

  lemma QueueComplete(s: State, h: nat)
    requires Queue(s) && Enabled(s, DoComplete) && Safe(s, DoComplete)
    requires h < NUM && s.n.completed < s.n.posted && s.chain[h].phase.Posted?
    requires (s.m.usedSeen + 1) % WRAP == Idx(s.n.completed + 1)
    requires h == s.m.used[Slot(s.n.completed)] == s.m.used[s.m.usedSeen % NUM] && s.flight[CompletesTo(s.m)] == h
    ensures Queue(Next(s, DoComplete))
  {
    hide Rings, Tallies;
    var c := s.chain[h].(phase := Completed);
    RingsComplete(s.chain, s.m.avail, s.m.used, s.n, h, c);
    TalliesComplete(s.chain, s.head, s.transfers, s.completions, h, c);
    AgreesMove(s.m, Next(s, DoComplete).m, s.chain, s.n, Next(s, DoComplete).n, h, c);
  }

  lemma CompleteOk(s: State)
    requires Ok(s) && Enabled(s, DoComplete)
    ensures Safe(s, DoComplete) && Ok(Next(s, DoComplete))
  {
    AtMostTwo(s);
    NextCompleted(s);
    var h := s.m.used[s.m.usedSeen % NUM];
    FindsRequest(s, h);
    assert Numbered(s.head, h, s.chain[h]);
    QueueComplete(s, h);
    TablesMove(s, Next(s, DoComplete), h, s.chain[h].(phase := Completed));
  }

  lemma IsFetched(s: State, h: nat)
    requires Ok(s) && Enabled(s, DoTransfer(h))
    ensures h < NUM == |s.chain| && s.chain[h].phase.Fetched?
  {
  }

  lemma TransferSafe(s: State, h: nat)
    requires Ok(s) && Enabled(s, DoTransfer(h))
    ensures Safe(s, DoTransfer(h))
  {
    hide Rings;
    IsFetched(s, h);
    FindsRequest(s, h);
    assert Numbered(s.head, h, s.chain[h]);
  }

  lemma TransferTables(s: State, h: nat)
    requires Ok(s) && Enabled(s, DoTransfer(h)) && Safe(s, DoTransfer(h))
    ensures Tables(Next(s, DoTransfer(h)))
  {
    hide Queue;
    IsFetched(s, h);
    FindsRequest(s, h);
    TablesMove(s, Next(s, DoTransfer(h)), h, s.chain[h].(phase := Moved));
  }

  lemma TransferQueue(s: State, h: nat)
    requires Ok(s) && Enabled(s, DoTransfer(h)) && Safe(s, DoTransfer(h))
    ensures Queue(Next(s, DoTransfer(h)))
  {
    hide Partition, Requests;
    AtMostTwo(s);
    IsFetched(s, h);
    FindsRequest(s, h);
    var c := s.chain[h].(phase := Moved);
    assert Numbered(s.head, h, s.chain[h]);
    RingsKeep(s.chain, s.m.avail, s.m.used, s.n, h, c, 0);
    TalliesMove(s.chain, s.head, s.transfers, s.completions, h, c);
  }

  lemma TransferOk(s: State, h: nat)
    requires Ok(s) && Enabled(s, DoTransfer(h))
    ensures Safe(s, DoTransfer(h)) && Ok(Next(s, DoTransfer(h)))
  {
    hide Tables, Queue, Safe, Next;
    TransferSafe(s, h);
    TransferTables(s, h);
    TransferQueue(s, h);
  }

  lemma TablesFinish(s: State, b: nat)
    requires Tables(s) && b < |s.flight| && s.flight[b] != NONE && s.chain[s.flight[b]].phase.Completed?
    requires Enabled(s, DoFinish(b))
    ensures Safe(s, DoFinish(b)) && Tables(Next(s, DoFinish(b)))
  {
    hide Free, Live;
    var h := s.flight[b];
    FindsRequest(s, h);
    assert OwnsThree(s.m.desc, s.owner, h, s.chain[h]);
    var c := s.chain[h].(phase := Unused);
    var s' := Next(s, DoFinish(b));
    ChainSet(s.chain, h, c);
    FreeThree(s.m.free, h, c.mid, c.tail, true);
    PartitionFinish(s.m.free, s.m.desc, s.chain, s.owner, s'.m.free, s'.m.desc, s'.owner, h, s.chain[h]);
    RequestsFinish(s.chain, s.m.info, s.m.ops, s.m.bufs, s.flight, h);
  }

  lemma FinishOk(s: State, b: nat)
    requires Ok(s) && Enabled(s, DoFinish(b))
    ensures Safe(s, DoFinish(b)) && Ok(Next(s, DoFinish(b)))
  {
    AtMostTwo(s);
    var h := s.flight[b];
    FindsRequest(s, h);
    TablesFinish(s, b);
    var c := s.chain[h].(phase := Unused);
    RingsKeep(s.chain, s.m.avail, s.m.used, s.n, h, c, 0);
    TalliesMove(s.chain, s.head, s.transfers, s.completions, h, c);
  }

  predicate TookThree(m: Mem, m': Mem, b: nat, write: bool, h: nat)
    requires Sized(m) && Sized(m') && b < |m.bufs| && h < NUM
  {
    var i := m'.desc[h].next;
    && i < NUM && m'.desc[i].next < NUM && h != i && h != m'.desc[i].next && i != m'.desc[i].next
    && m.free[h] && m.free[i] && m.free[m'.desc[i].next]
    && m' == Format(m, b, write, h, i, m'.desc[i].next)
  }

  /** A start either takes three descriptors, or finds fewer free and changes nothing. */
  lemma StartMeans(m: Mem, b: nat, write: bool)
    requires Sized(m) && b < |m.bufs| && m.starting == NONE
    ensures var m' := Start(m, b, write);
            if Free(m.free) < 3 then m' == m
            else 0 <= m'.starting < NUM && TookThree(m, m', b, write, m'.starting)
  {
    var h := Lowest(m.free, 0);
    if h == NONE {
      NoneFree(m.free);
    } else {
      FreeSet(m.free, h, false);
      var one := m.free[h := false];
      var i := Lowest(one, 0);
      if i == NONE {
        NoneFree(one);
      } else {
        FreeSet(one, i, false);
        var two := one[i := false];
        if Lowest(two, 0) == NONE {
          NoneFree(two);
        } else {
          FreeSet(two, Lowest(two, 0), false);
        }
      }
    }
  }

  /** What a start does to the descriptors, one at a time. */
  lemma FormatAt(m: Mem, b: nat, write: bool, h: nat, c: Chain, owner: seq<int>, d: nat)
    requires Sized(m) && b < |m.bufs| && |owner| == NUM && d < NUM
    requires h < NUM && c.mid < NUM && c.tail < NUM && h != c.mid && h != c.tail && c.mid != c.tail && c.buf == b
    requires c.write == write
    ensures var m' := Format(m, b, write, h, c.mid, c.tail);
            && m'.free[d] == (m.free[d] && !IsOf(d, h, c)) && (!IsOf(d, h, c) ==> m'.desc[d] == m.desc[d])
            && Formatted(m'.desc, h, c)
    ensures owner[h := h][c.mid := h][c.tail := h][d] == if IsOf(d, h, c) then h else owner[d]
  {
  }

  lemma PartStart(m: Mem, chain: seq<Chain>, owner: seq<int>, h: nat, c: Chain)
    requires Sized(m) && Partition(m.free, m.desc, chain, owner) && Free(m.free) + 3 * Live(chain) == NUM
    requires c.buf < |m.bufs|
    requires h < NUM && c.mid < NUM && c.tail < NUM && h != c.mid && h != c.tail && c.mid != c.tail && !c.phase.Unused?
    requires m.free[h] && m.free[c.mid] && m.free[c.tail]
    ensures var m' := Format(m, c.buf, c.write, h, c.mid, c.tail);
            && Partition(m'.free, m'.desc, chain[h := c], owner[h := h][c.mid := h][c.tail := h])
            && Free(m'.free) + 3 * Live(chain[h := c]) == NUM
    ensures chain[h].phase.Unused?
  {
    var m' := Format(m, c.buf, c.write, h, c.mid, c.tail);
    var owner' := owner[h := h][c.mid := h][c.tail := h];
    FreeThree(m.free, h, c.mid, c.tail, false);
    ChainSet(chain, h, c);
    forall d | 0 <= d < NUM
      ensures m'.free[d] == (m.free[d] && !IsOf(d, h, c)) && (!IsOf(d, h, c) ==> m'.desc[d] == m.desc[d])
      ensures owner'[d] == if IsOf(d, h, c) then h else owner[d]
    {
      FormatAt(m, c.buf, c.write, h, c, owner, d);
    }
    FormatAt(m, c.buf, c.write, h, c, owner, h);
    PartitionStart(m.free, m.desc, chain, owner, m'.free, m'.desc, owner', h, c);
  }

  lemma TablesStart(s: State, b: nat, write: bool, h: nat, c: Chain)
    requires Tables(s) && Enabled(s, DoStart(b, write)) && Safe(s, DoStart(b, write)) && h < NUM
    requires h == Start(s.m, b, write).starting && TookThree(s.m, Start(s.m, b, write), b, write, h)
    requires c == Next(s, DoStart(b, write)).chain[h]
    ensures Tables(Next(s, DoStart(b, write))) && s.chain[h].phase.Unused?
  {
    PartStart(s.m, s.chain, s.owner, h, c);
    RequestsStart(s.chain, s.m.info, s.m.ops, s.m.bufs, s.flight, h, c);
  }

  lemma QueueStart(s: State, b: nat, write: bool, h: nat)
    requires Queue(s) && Enabled(s, DoStart(b, write)) && Safe(s, DoStart(b, write))
    requires s.n.published < s.n.fetched + NUM
    requires h == Start(s.m, b, write).starting && h < NUM && TookThree(s.m, Start(s.m, b, write), b, write, h)
    requires s.chain[h].phase.Unused?
    ensures Queue(Next(s, DoStart(b, write)))
  {
    var s' := Next(s, DoStart(b, write));
    Wrapped(s.n.published, s.n.published);
    RingsKeep(s.chain, s.m.avail, s.m.used, s.n, h, s'.chain[h], h);
    forall g | 0 <= g < NUM ensures Numbered(s.head, g, s'.chain[g]) {
      assert Numbered(s.head, g, s.chain[g]);
    }
  }

  lemma StartOk(s: State, b: nat, write: bool)
    requires Ok(s) && Enabled(s, DoStart(b, write))
    ensures Safe(s, DoStart(b, write)) && Ok(Next(s, DoStart(b, write)))
  {
    StartMeans(s.m, b, write);
    if Free(s.m.free) >= 3 {
      AtMostTwo(s);
      var h := Start(s.m, b, write).starting;
      TablesStart(s, b, write, h, Next(s, DoStart(b, write)).chain[h]);
      QueueStart(s, b, write, h);
    }
  }

  lemma ModifyOk(s: State, b: nat, buf: Buf)
    requires Ok(s) && Enabled(s, DoModify(b, buf))
    ensures Safe(s, DoModify(b, buf)) && Ok(Next(s, DoModify(b, buf)))
  {
    var s' := Next(s, DoModify(b, buf));
    forall g | 0 <= g < NUM ensures Recorded(s.m.info, s.m.ops, s'.m.bufs, s.flight, g, s.chain[g]) {
      assert Recorded(s.m.info, s.m.ops, s.m.bufs, s.flight, g, s.chain[g]);
    }
  }

  /** Every step that its taker may take is safe, and keeps the invariant. */
  lemma StepOk(s: State, step: Step)
    requires Ok(s) && Enabled(s, step)
    ensures Safe(s, step) && Ok(Next(s, step))
  {
    match step
    case DoStart(b, write) => StartOk(s, b, write);
    case DoPublish => PublishOk(s);
    case DoFinish(b) => FinishOk(s, b);
    case DoFetch => FetchOk(s);
    case DoTransfer(h) => TransferOk(s, h);
    case DoPost(h) => PostOk(s, h);
    case DoComplete => CompleteOk(s);
    case DoModify(b, buf) => ModifyOk(s, b, buf);
  }

  // The driver's code, as it changes memory in place.

  /** The turns that remain to virtio_disk_intr if the device posts nothing more. */
  function Pending(m: Mem): nat
    requires m.usedSeen < WRAP && m.usedIdx < WRAP
  {
    if m.usedSeen <= m.usedIdx then m.usedIdx - m.usedSeen else m.usedIdx + WRAP - m.usedSeen
  }

  /** virtio_disk_intr; it stops where the source would panic or stray. */
  function Drain(m: Mem): Mem
    requires m.usedSeen < WRAP && m.usedIdx < WRAP
    decreases Pending(m)
  {
    if m.usedSeen == m.usedIdx || !Completable(m) then m else Drain(Complete(m))
  }

  lemma DrainTurn(m: Mem)
    requires m.usedSeen < WRAP && m.usedIdx < WRAP && m.usedSeen != m.usedIdx && Sized(m)
    ensures !Completable(m) ==> Drain(m) == m
    ensures Completable(m) ==> var m' := Complete(m);
              && Sized(m') && m'.usedSeen < WRAP && m'.usedIdx == m.usedIdx && Drain(m') == Drain(m)
              && Pending(m') < Pending(m)
  {
  }

  lemma DrainEnd(m: Mem)
    requires m.usedSeen < WRAP && m.usedSeen == m.usedIdx
    ensures Drain(m) == m
  {
  }

  /** The descriptors that alloc3_desc has taken so far, and what is left free. */
  predicate Took(was: seq<bool>, free: seq<bool>, idx: seq<nat>) {
    && |idx| <= 3 && |was| == NUM
    && (|idx| > 0 ==> idx[0] == Lowest(was, 0))
    && (|idx| > 1 ==> idx[1] == Lowest(was[idx[0] := false], 0))
    && (|idx| > 2 ==> idx[2] == Lowest(was[idx[0] := false][idx[1] := false], 0))
    && free == if |idx| == 0 then was
               else if |idx| == 1 then was[idx[0] := false]
               else if |idx| == 2 then was[idx[0] := false][idx[1] := false]
               else was[idx[0] := false][idx[1] := false][idx[2] := false]
  }

  lemma TookAll(m: Mem, b: nat, write: bool, free: seq<bool>, idx: seq<nat>)
    requires Sized(m) && b < |m.bufs| && Took(m.free, free, idx) && |idx| == 3
    ensures idx[0] < NUM && idx[1] < NUM && idx[2] < NUM && idx[0] != idx[1] && idx[0] != idx[2] && idx[1] != idx[2]
    ensures Start(m, b, write) == Format(m, b, write, idx[0], idx[1], idx[2])
    ensures free == m.free[idx[0] := false][idx[1] := false][idx[2] := false]
  {
  }

  lemma TookFew(m: Mem, b: nat, write: bool, free: seq<bool>, idx: seq<nat>)
    requires Sized(m) && b < |m.bufs| && Took(m.free, free, idx) && |idx| < 3 && Lowest(free, 0) == NONE
    ensures Start(m, b, write) == m
  {
  }

  lemma Formats(m: Mem, b: nat, write: bool, h: nat, i: nat, t: nat, m': Mem)
    requires Sized(m) && b < |m.bufs| && h < NUM && i < NUM && t < NUM
    requires m'.free == m.free[h := false][i := false][t := false]
    requires m'.desc == Format(m, b, write, h, i, t).desc && m'.ops == Format(m, b, write, h, i, t).ops
    requires m'.info == m.info[h := Info(b, 0xff)] && m'.bufs == m.bufs[b := m.bufs[b].(disk := true)]
    requires m'.avail == m.avail[m.availIdx % NUM := h] && m'.starting == h
    requires m' == m.(free := m'.free, desc := m'.desc, info := m'.info, ops := m'.ops, bufs := m'.bufs,
               avail := m'.avail, starting := m'.starting)
    ensures m' == Format(m, b, write, h, i, t) && h != NONE
  {
  }

  lemma SameFormat(m: Mem, m1: Mem, b: nat, write: bool, h: nat, i: nat, t: nat)
    requires Sized(m) && Sized(m1) && b < |m.bufs| && h < NUM && i < NUM && t < NUM && m1 == m.(free := m1.free)
    ensures Format(m1, b, write, h, i, t).desc == Format(m, b, write, h, i, t).desc
    ensures Format(m1, b, write, h, i, t).ops == Format(m, b, write, h, i, t).ops
    ensures |Format(m, b, write, h, i, t).desc| == |Format(m, b, write, h, i, t).ops| == NUM
  {
  }

  class Disk {
    var free: seq<bool>
    var desc: seq<Desc>
    var info: seq<Info>
    var ops: seq<Req>
    var usedSeen: nat
    var avail: seq<nat>
    var availIdx: nat
    var bufs: seq<Buf>
    var starting: int
    // The device's half, and the ring it writes.
    var used: seq<nat>
    var usedIdx: nat
    var availSeen: nat
    var got: seq<bool>
    var did: seq<bool>
    var media: seq<Byte>

    function View(): Mem
      reads this
    {
      Mem(free, desc, info, ops, usedSeen, avail, availIdx, used, usedIdx, availSeen, got, did, media, bufs, starting)
    }

    method AllocDesc() returns (r: int)
      requires |free| == NUM
      modifies this`free
      ensures r == Lowest(old(free), 0)
      ensures free == if r == NONE then old(free) else old(free)[r := false]
    {
      var i := 0;
      while i < NUM && !free[i]
        invariant 0 <= i <= NUM && Lowest(free, i) == Lowest(free, 0)
      {
        i := i + 1;
      }
      if i < NUM {
        free := free[i := false];
        return i;
      }
      return -1;
    }

    /** Returns false where the source panics. */
    method FreeDesc(i: nat) returns (ok: bool)
      requires |free| == |desc| == NUM
      modifies this`free, this`desc
      ensures ok <==> i < NUM && !old(free)[i]
      ensures free == if ok then old(free)[i := true] else old(free)
      ensures desc == if ok then old(desc)[i := CLEAR] else old(desc)
    {
      ok := i < NUM && !free[i];
      if ok {
        desc := desc[i := CLEAR];
        free := free[i := true];
      }
    }

    /** Frees the descriptors of a chain of three, following its links; never where the source panics. */
    method FreeChain(h: nat, ghost c: Chain) returns (ok: bool)
      requires |free| == |desc| == NUM && h < NUM && c.mid == desc[h].next < NUM && c.tail == desc[c.mid].next < NUM
      requires desc[h].hasNext && desc[c.mid].hasNext && !desc[c.tail].hasNext
      requires h != c.mid && h != c.tail && c.mid != c.tail && !free[h] && !free[c.mid] && !free[c.tail]
      modifies this`free, this`desc
      ensures ok
      ensures free == old(free)[h := true][c.mid := true][c.tail := true]
      ensures desc == old(desc)[h := CLEAR][c.mid := CLEAR][c.tail := CLEAR]
    {
      ghost var at := [h, c.mid, c.tail];
      ghost var k := 0;
      var i, more := h, true;
      ok := true;
      while more
        invariant 0 <= k <= 3 && (more <==> k < 3) && (more ==> i == at[k]) && ok
        invariant |free| == |desc| == NUM
        invariant forall d :: 0 <= d < NUM ==>
                    free[d] == (old(free)[d] || (k > 0 && d == h) || (k > 1 && d == c.mid) || (k > 2 && d == c.tail))
        invariant forall d :: 0 <= d < NUM ==>
                    desc[d] == if (k > 0 && d == h) || (k > 1 && d == c.mid) || (k > 2 && d == c.tail) then CLEAR
                      else old(desc)[d]
        decreases 3 - k
      {
        var flag, nxt := desc[i].hasNext, desc[i].next;
        var done := FreeDesc(i);
        ok := ok && done;
        more := flag;
        i := nxt;
        k := k + 1;
      }
    }

    /** Takes the three lowest free descriptors, or none at all when there are fewer. */
    method Alloc3Desc() returns (ok: bool, idx: seq<nat>)
      requires |free| == |desc| == NUM && forall d :: 0 <= d < NUM && free[d] ==> desc[d] == CLEAR
      modifies this`free, this`desc
      ensures desc == old(desc)
      ensures ok ==> |idx| == 3 && Took(old(free), free, idx)
      ensures !ok ==> |idx| < 3 && free == old(free)
      ensures !ok ==> exists left :: Took(old(free), left, idx) && |left| == NUM && Lowest(left, 0) == NONE
    {
      ok, idx := true, [];
      while |idx| < 3 && ok
        invariant Took(old(free), free, idx) && |free| == NUM && desc == old(desc)
        invariant !ok ==> |idx| < 3 && Lowest(free, 0) == NONE
        decreases ok, 3 - |idx|
      {
        var r := AllocDesc();
        if r < 0 {
          ok := false;
        } else {
          idx := idx + [r];
        }
      }
      if !ok {
        Release(idx, old(free));
      }
    }

    /** The rollback of a request that found too few descriptors. */
    method Release(idx: seq<nat>, ghost was: seq<bool>)
      requires |free| == |desc| == NUM && Took(was, free, idx) && |idx| < 3
      requires forall d :: 0 <= d < NUM && was[d] ==> desc[d] == CLEAR
      modifies this`free, this`desc
      ensures free == was && desc == old(desc)
    {
      var j := 0;
      while j < |idx|
        invariant 0 <= j <= |idx| && |free| == NUM && desc == old(desc)
        invariant j == 0 ==> Took(was, free, idx)
        invariant j == 1 && |idx| == 2 ==> free == was[idx[1] := false]
        invariant j == |idx| ==> free == was
      {
        var done := FreeDesc(idx[j]);
        j := j + 1;
      }
    }

    /** Fills in the command header and the three descriptors. */
    method FormatChain(b: nat, write: bool, h: nat, i: nat, t: nat)
      requires b < |bufs| && h < NUM && i < NUM && t < NUM && h != i && h != t && i != t && Sized(View())
      modifies this`ops, this`desc
      ensures ops == Format(old(View()), b, write, h, i, t).ops && desc == Format(old(View()), b, write, h, i, t).desc
    {
      ops := ops[h := Req(write, Sector(bufs[b].blockno))];
      desc := desc[h := Desc(Op(h), 16, true, false, i)];
      desc := desc[i := Desc(Data(b), BSIZE, true, !write, t)];
      desc := desc[t := Desc(Status(h), 1, false, true, 0)];
    }

    /** Records the buffer and the chain, and writes the avail slot. */
    method Record(b: nat, h: nat)
      requires b < |bufs| && h < NUM && Sized(View())
      modifies this`info, this`bufs, this`avail, this`starting
      ensures info == old(info)[h := Info(b, 0xff)] && bufs == old(bufs)[b := old(bufs)[b].(disk := true)]
      ensures avail == old(avail)[availIdx % NUM := h] && starting == h
    {
      info := info[h := info[h].(status := 0xff)];
      bufs := bufs[b := bufs[b].(disk := true)];
      info := info[h := info[h].(b := b)];
      avail := avail[availIdx % NUM := h];
      starting := h;
    }

    /** The first half of virtio_disk_rw; false when it must sleep for descriptors. */
    method StartRw(b: nat, write: bool) returns (ok: bool)
      requires Sized(View()) && b < |bufs| && starting == NONE
      requires forall d :: 0 <= d < NUM && free[d] ==> desc[d] == CLEAR
      modifies this
      ensures View() == Start(old(View()), b, write)
      ensures ok <==> starting != NONE
    {
      hide Took, Start, Lowest, Format;
      var idx;
      ghost var m := View();
      ok, idx := Alloc3Desc();
      if ok {
        TookAll(m, b, write, free, idx);
        SameFormat(m, View(), b, write, idx[0], idx[1], idx[2]);
        FormatChain(b, write, idx[0], idx[1], idx[2]);
        Record(b, idx[0]);
        Formats(m, b, write, idx[0], idx[1], idx[2], View());
      } else {
        ghost var left :| Took(m.free, left, idx) && |left| == NUM && Lowest(left, 0) == NONE;
        TookFew(m, b, write, left, idx);
      }
    }

    /** The second half, for the chain that the first half made. */
    method FinishRw(h: nat) returns (ok: bool)
      requires Sized(View()) && h < NUM && desc[h].next < NUM && desc[desc[h].next].next < NUM
      requires desc[h].hasNext && desc[desc[h].next].hasNext && !desc[desc[desc[h].next].next].hasNext
      requires h != desc[h].next && h != desc[desc[h].next].next && desc[h].next != desc[desc[h].next].next
      requires !free[h] && !free[desc[h].next] && !free[desc[desc[h].next].next]
      modifies this
      ensures ok && View() == Finish(old(View()), h)
    {
      info := info[h := info[h].(b := NONE)];
      ok := FreeChain(h, Chain(Unused, desc[h].next, desc[desc[h].next].next, 0, false, 0, 0));
    }

    /** One turn of the interrupt handler; false where the source panics or strays. */
    method IntrTurn() returns (ok: bool)
      requires Sized(View())
      modifies this`bufs, this`usedSeen
      ensures ok <==> Completable(old(View()))
      ensures View() == if ok then Complete(old(View())) else old(View())
    {
      var id := used[usedSeen % NUM];
      ok := id < NUM && info[id].status == 0 && 0 <= info[id].b < |bufs|;
      if ok {
        bufs := bufs[info[id].b := bufs[info[id].b].(disk := false)];
        usedSeen := (usedSeen + 1) % WRAP;
      }
    }

    method Intr() returns (ok: bool)
      requires Sized(View()) && usedSeen < WRAP && usedIdx < WRAP
      modifies this`bufs, this`usedSeen
      ensures View() == Drain(old(View()))
      ensures ok <==> usedSeen == usedIdx
    {
      hide Drain, Completable, Complete;
      ok := true;
      while usedSeen != usedIdx && ok
        invariant Sized(View()) && usedSeen < WRAP && usedIdx < WRAP && Drain(View()) == Drain(old(View()))
        invariant !ok ==> !Completable(View()) && usedSeen != usedIdx
        decreases ok, Pending(View())
      {
        DrainTurn(View());
        ok := IntrTurn();
      }
      if ok {
        DrainEnd(View());
      } else {
        DrainTurn(View());
      }
    }
  }
}
