/**
 kernel/log.c over the buffer cache: log_write with absorption and pinning, commit, and
 recovery. Each writes exactly the sequence of disk states LogSpec describes, and a panic
 for want of buffers, like a crash, leaves a prefix of it.
 */
module Log {
  import opened Blocks
  import opened BufferCache
  import opened LogSpec

  /** The log pins each listed block's buffer exactly once, and no other buffer. */
  predicate PinsMatch(buf: seq<Buf>, pins: seq<nat>, where: map<nat, nat>, blocks: seq<nat>)
    requires |buf| == |pins|
  {
    && (forall i {:trigger pins[i]} :: 0 <= i < |buf| ==>
         pins[i] == if buf[i].dev == ROOTDEV && buf[i].blockno in blocks then 1 else 0)
    && (forall k :: 0 <= k < |blocks| ==> blocks[k] in where)
  }

  predicate Quiet(buf: seq<Buf>) {
    forall i :: 0 <= i < |buf| ==> !buf[i].locked
  }

  predicate Idle(users: seq<nat>) {
    forall i :: 0 <= i < |users| ==> users[i] == 0
  }

  /** Unpinning the first block of the list. */
  lemma PinsMatchUnpin(buf: seq<Buf>, pins: seq<nat>, where: map<nat, nat>, blocks: seq<nat>, b: nat)
    requires b < |buf| == |pins| && PinsMatch(buf, pins, where, blocks) && Located(buf, where) && Distinct(blocks)
    requires blocks != [] && Caches(buf[b], blocks[0])
    ensures pins[b] == 1 && PinsMatch(buf, pins[b := 0], where, blocks[1..])
  {
    assert blocks == [blocks[0]] + blocks[1..];
    assert blocks[0] !in blocks[1..];
  }

  lemma {:induction false} InjectiveFits(buf: seq<Buf>, where: map<nat, nat>, n: nat, blocks: seq<nat>)
    requires n <= |buf| && Located(buf, where)
    requires forall i :: 0 <= i < n ==> buf[i].dev == ROOTDEV && buf[i].blockno in blocks
    ensures n <= |blocks|
  {
    if n > 0 {
      var k :| 0 <= k < |blocks| && blocks[k] == buf[n - 1].blockno;
      var rest := blocks[..k] + blocks[k + 1..];
      forall i | 0 <= i < n - 1 ensures buf[i].blockno in rest {
        var j :| 0 <= j < |blocks| && blocks[j] == buf[i].blockno;
        assert rest[if j < k then j else j - 1] == blocks[j];
      }
      InjectiveFits(buf, where, n - 1, rest);
    }
  }

  /** With fewer blocks logged than there are buffers, some buffer is not pinned. */
  lemma UnpinnedExists(buf: seq<Buf>, pins: seq<nat>, where: map<nat, nat>, blocks: seq<nat>)
    requires |buf| == |pins| && PinsMatch(buf, pins, where, blocks) && Located(buf, where) && |blocks| < |buf|
    ensures exists i :: 0 <= i < |buf| && pins[i] == 0
  {
    if forall i :: 0 <= i < |buf| ==> pins[i] != 0 {
      forall i | 0 <= i < |buf| ensures buf[i].dev == ROOTDEV && buf[i].blockno in blocks {
        assert pins[i] == 1;
      }
      InjectiveFits(buf, where, |buf|, blocks);
    }
  }

  /** A buffer just returned by bread. */
  predicate Reads(b: Buf, blockno: nat, contents: DiskState) {
    b.valid && b.locked && Caches(b, blockno) && blockno < |contents| && b.data == contents[blockno]
  }

  /** The contents of the listed blocks: what a commit of them writes. */
  function Pick(contents: DiskState, blocks: seq<nat>): (data: seq<Block>)
    requires forall i :: 0 <= i < |blocks| ==> blocks[i] < |contents|
    ensures |data| == |blocks| && forall i :: 0 <= i < |blocks| ==> data[i] == contents[blocks[i]]
  {
    seq(|blocks|, i requires 0 <= i < |blocks| && blocks[i] < |contents| => contents[blocks[i]])
  }

  /** The blocks still pinned when install_trans has done `k` of them. */
  function Left(recovering: bool, blocks: seq<nat>, k: nat): seq<nat>
    requires k <= |blocks|
  {
    if recovering then [] else blocks[k..]
  }

  lemma Reassociate(past: seq<DiskState>, w1: seq<DiskState>, w2: seq<DiskState>, now: seq<DiskState>)
    requires now == past + w1 + w2
    ensures now == past + (w1 + w2)
  {}

  class Log {
    const cache: Cache
    const area: Area
    var outstanding: nat
    var n: nat
    var block: seq<nat>

    constructor (cache: Cache, area: Area)
      ensures this.cache == cache && this.area == area && n == 0 && |block| == LOGSIZE && outstanding == 0
    {
      this.cache := cache;
      this.area := area;
      outstanding, n := 0, 0;
      block := seq(LOGSIZE, _ => 0);
    }

    ghost predicate Pinned(blocks: seq<nat>)
      reads cache
    {
      cache.Valid() && PinsMatch(cache.buf, cache.pins, cache.where, blocks)
    }

    ghost predicate Valid()
      reads this, cache
    {
      && n <= |block| == LOGSIZE
      && Fits(area, cache.disk)
      && IsLogged(area, cache.disk, block[..n])
      && Pinned(block[..n])
    }

    /** The position of a block in the list, or `n` when it is not there. */
    method Find(blockno: nat) returns (i: nat)
      requires n <= |block|
      ensures i < n ==> block[i] == blockno
      ensures i >= n ==> i == n && blockno !in block[..n]
    {
      i := 0;
      while i < n
        invariant 0 <= i <= n
        invariant forall j :: 0 <= j < i ==> block[j] != blockno
      {
        if block[i] == blockno {
          break;
        }
        i := i + 1;
      }
    }

    /** A block not yet in the list: add it and pin its buffer. */
    method Append(b: nat)
      requires Valid() && b < NBUF && cache.buf[b].locked && cache.buf[b].valid
      requires IsHome(area, cache.disk, cache.buf[b].blockno) && cache.buf[b].blockno < WORD_LIMIT
      requires cache.buf[b].blockno !in block[..n] && n < LOGSIZE && n < area.size - 1
      modifies this`n, this`block, cache`buf, cache`pins
      ensures Valid()
      ensures block[..n] == old(block[..n]) + [old(cache.buf[b].blockno)]
      ensures cache.buf == old(cache.buf)[b := old(cache.buf[b]).(refcnt := old(cache.buf[b].refcnt) + 1)]
      ensures cache.pins == old(cache.pins)[b := old(cache.pins[b]) + 1]
    {
      ghost var blocks := block[..n];
      block := block[n := cache.buf[b].blockno];
      cache.Bpin(b);
      n := n + 1;
      assert block[..n] == blocks + [cache.buf[b].blockno];
    }

    /** Record a changed buffer; false is one of the two panics. */
    method LogWrite(b: nat) returns (ok: bool)
      requires Valid() && b < NBUF && cache.buf[b].locked && cache.buf[b].valid
      requires IsHome(area, cache.disk, cache.buf[b].blockno) && cache.buf[b].blockno < WORD_LIMIT
      modifies this`n, this`block, cache`buf, cache`pins
      ensures Valid()
      ensures ok <==> old(n) < LOGSIZE && old(n) < area.size - 1 && outstanding >= 1
      ensures !ok || old(cache.buf[b].blockno in block[..n]) ==>
                n == old(n) && block == old(block) && cache.buf == old(cache.buf) && cache.pins == old(cache.pins)
      ensures ok && old(cache.buf[b].blockno !in block[..n]) ==>
                && block[..n] == old(block[..n]) + [old(cache.buf[b].blockno)]
                && cache.buf == old(cache.buf)[b := old(cache.buf[b]).(refcnt := old(cache.buf[b].refcnt) + 1)]
                && cache.pins == old(cache.pins)[b := old(cache.pins[b]) + 1]
    {
      if n >= LOGSIZE || n >= area.size - 1 {
        return false;
      }
      if outstanding < 1 {
        return false;
      }
      var i := Find(cache.buf[b].blockno);
      if i == n {
        Append(b);
      } else {
        block := block[i := cache.buf[b].blockno];
        assert block == old(block);
      }
      return true;
    }

    /** bread, with what it does to the pins; it fails only when every buffer is in use. */
    method Read(c: nat, ghost blocks: seq<nat>) returns (b: int)
      requires Pinned(blocks) && c < |cache.disk|
      requires c in cache.where ==> !cache.buf[cache.where[c]].locked
      modifies cache`buf, cache`users, cache`where
      ensures cache.Valid()
      ensures b == -1 ==> c !in blocks && forall i :: 0 <= i < NBUF ==> cache.users[i] + cache.pins[i] > 0
      ensures b == -1 ==> cache.users == old(cache.users)
      ensures b != -1 ==>
                && 0 <= b < NBUF && !old(cache.buf[b]).locked && Reads(cache.buf[b], c, cache.contents)
                && (forall i :: 0 <= i < NBUF && i != b ==> cache.buf[i] == old(cache.buf[i]))
                && Pinned(blocks)
                && (forall i :: 0 <= i < NBUF ==> cache.users[i] == old(cache.users)[i] + if i == b then 1 else 0)
    {
      b := cache.Bread(ROOTDEV, c);
    }

    /** Read a log block and a home block, as both copying loops do. */
    method ReadPair(log: nat, home: nat, ghost blocks: seq<nat>) returns (l: int, h: int)
      requires Ready(blocks)
      requires log < |cache.disk| && home < |cache.disk| && log != home
      requires home in blocks || blocks == []
      modifies cache`buf, cache`users, cache`where
      ensures cache.Valid()
      ensures l != -1 && h != -1 ==>
                && 0 <= l < NBUF && 0 <= h < NBUF && l != h
                && Reads(cache.buf[l], log, cache.contents) && Reads(cache.buf[h], home, cache.contents)
                && (forall i :: 0 <= i < NBUF && i != l && i != h ==> !cache.buf[i].locked)
                && Pinned(blocks)
                && (forall i :: 0 <= i < NBUF ==>
                     cache.users[i] == old(cache.users)[i] + if i == l || i == h then 1 else 0)
      ensures Idle(old(cache.users)) && |blocks| < NBUF ==> l != -1 && h != -1
    {
      if |blocks| < NBUF {
        UnpinnedExists(cache.buf, cache.pins, cache.where, blocks);
      }
      ghost var users := cache.users;
      h := -1;
      l := Read(log, blocks);
      if l != -1 {
        h := Read(home, blocks);
        if h == -1 {
          ghost var other := if l == 0 then 1 else 0;
          assert cache.pins[other] == 0 && cache.users[other] == users[other];
        }
      }
    }

    /** Between block copies: nobody holds a buffer, and the listed blocks are pinned. */
    ghost predicate Ready(blocks: seq<nat>)
      reads cache
    {
      Pinned(blocks) && Quiet(cache.buf)
    }

    /** Copy one held block over another, write it to disk, and release both. */
    method CopyBlock(to: nat, from: nat, ghost blocks: seq<nat>, ghost users: seq<nat>)
      requires Pinned(blocks) && to < NBUF && from < NBUF && to != from && |users| == NBUF
      requires cache.buf[to].locked && cache.buf[to].valid && cache.buf[from].locked && cache.buf[from].valid
      requires cache.buf[from].data == cache.disk[cache.buf[from].blockno] || cache.pins[from] > 0
      requires forall i :: 0 <= i < NBUF && i != to && i != from ==> !cache.buf[i].locked
      requires forall i :: 0 <= i < NBUF ==> cache.users[i] == users[i] + if i == to || i == from then 1 else 0
      modifies cache
      ensures Ready(blocks) && cache.pins == old(cache.pins) && cache.users == users && cache.where == old(cache.where)
      ensures var c, data := old(cache.buf[to].blockno), old(cache.buf[from].data);
              && cache.disk == old(cache.disk)[c := data]
              && cache.trace == old(cache.trace) + [cache.disk]
              && cache.contents == old(cache.contents)[c := data]
    {
      cache.Store(to, cache.buf[from].data);
      cache.ReleaseBoth(from, to);
      assert forall i :: 0 <= i < NBUF ==> cache.users[i] == users[i];
    }

    /** Write a held block to disk and release it. */
    method StoreRelease(b: nat, data: Block, ghost blocks: seq<nat>, ghost users: seq<nat>)
      requires Pinned(blocks) && b < NBUF && cache.buf[b].locked && cache.buf[b].valid && |users| == NBUF
      requires forall i :: 0 <= i < NBUF && i != b ==> !cache.buf[i].locked
      requires forall i :: 0 <= i < NBUF ==> cache.users[i] == users[i] + if i == b then 1 else 0
      modifies cache
      ensures Ready(blocks) && cache.users == users
      ensures var c := old(cache.buf[b].blockno);
              && cache.disk == old(cache.disk)[c := data]
              && cache.trace == old(cache.trace) + [cache.disk]
              && cache.contents == old(cache.contents)[c := data]
    {
      cache.Store(b, data);
      cache.Brelse(b);
      assert forall i :: 0 <= i < NBUF ==> cache.users[i] == users[i];
    }

    method StoreUnpin(b: nat, data: Block, ghost blocks: seq<nat>)
      requires Pinned(blocks) && b < NBUF && cache.buf[b].locked && cache.buf[b].valid
      requires Distinct(blocks) && blocks != [] && Caches(cache.buf[b], blocks[0])
      modifies cache`buf, cache`pins, cache`contents, cache`disk, cache`trace
      ensures Pinned(blocks[1..])
      ensures |cache.buf| == |old(cache.buf)|
      ensures forall i :: 0 <= i < NBUF && i != b ==> cache.buf[i] == old(cache.buf)[i]
      ensures cache.buf[b].(refcnt := 0) == old(cache.buf[b]).(data := data, refcnt := 0)
      ensures cache.disk == old(cache.disk)[blocks[0] := data] && cache.trace == old(cache.trace) + [cache.disk]
      ensures cache.contents == old(cache.contents)[blocks[0] := data]
    {
      cache.Store(b, data);
      PinsMatchUnpin(cache.buf, cache.pins, cache.where, blocks, b);
      cache.Bunpin(b);
    }

    /** The same with the pin taken off the written block in between, as install_trans does at commit. */
    method CopyBlockUnpin(to: nat, from: nat, ghost blocks: seq<nat>, ghost users: seq<nat>)
      requires Pinned(blocks) && to < NBUF && from < NBUF && to != from && |users| == NBUF
      requires Distinct(blocks) && blocks != [] && Caches(cache.buf[to], blocks[0])
      requires cache.buf[to].locked && cache.buf[to].valid && cache.buf[from].locked && cache.buf[from].valid
      requires cache.buf[from].data == cache.disk[cache.buf[from].blockno]
      requires forall i :: 0 <= i < NBUF && i != to && i != from ==> !cache.buf[i].locked
      requires forall i :: 0 <= i < NBUF ==> cache.users[i] == users[i] + if i == to || i == from then 1 else 0
      modifies cache
      ensures Ready(blocks[1..]) && cache.users == users && cache.where == old(cache.where)
      ensures var c, data := old(cache.buf[to].blockno), old(cache.buf[from].data);
              && cache.disk == old(cache.disk)[c := data]
              && cache.trace == old(cache.trace) + [cache.disk]
              && cache.contents == old(cache.contents)[c := data]
    {
      StoreUnpin(to, cache.buf[from].data, blocks);
      cache.ReleaseBoth(from, to);
      assert forall i :: 0 <= i < NBUF ==> cache.users[i] == users[i];
    }

    /** One round of install_trans: copy a log block to its home location. */
    method InstallBlock(log: nat, home: nat, recovering: bool, ghost blocks: seq<nat>) returns (ok: bool)
      requires Ready(blocks) && log < |cache.disk| && home < |cache.disk| && log != home
      requires if recovering then blocks == [] else Distinct(blocks) && blocks != [] && blocks[0] == home
      requires cache.contents[log] == cache.disk[log]
      modifies cache
      ensures cache.Valid()
      ensures !ok ==> cache.disk == old(cache.disk) && cache.trace == old(cache.trace)
      ensures ok ==> Ready(if recovering then [] else blocks[1..]) && cache.users == old(cache.users)
      ensures ok ==> cache.disk == old(cache.disk)[home := old(cache.disk)[log]]
      ensures ok ==> cache.trace == old(cache.trace) + [cache.disk]
      ensures ok ==> cache.contents == old(cache.contents)[home := old(cache.disk)[log]]
      ensures Idle(old(cache.users)) && |blocks| < NBUF ==> ok
    {
      var lbuf, dbuf := ReadPair(log, home, blocks);
      ok := lbuf != -1 && dbuf != -1;
      if ok {
        if recovering {
          CopyBlock(dbuf, lbuf, blocks, old(cache.users));
        } else {
          CopyBlockUnpin(dbuf, lbuf, blocks, old(cache.users));
        }
      }
    }

    /** One round of write_log: copy a logged block from the cache to the log. */
    method WriteLogBlock(log: nat, home: nat, ghost blocks: seq<nat>) returns (ok: bool)
      requires Ready(blocks) && log < |cache.disk| && home < |cache.disk| && log != home && home in blocks
      modifies cache
      ensures cache.Valid() && cache.pins == old(cache.pins)
      ensures !ok ==> cache.disk == old(cache.disk) && cache.trace == old(cache.trace)
      ensures ok ==> Ready(blocks) && cache.users == old(cache.users)
      ensures ok ==> cache.disk == old(cache.disk)[log := old(cache.contents)[home]]
      ensures ok ==> cache.trace == old(cache.trace) + [cache.disk]
      ensures ok ==> cache.contents == old(cache.contents)[log := old(cache.contents)[home]]
      ensures Idle(old(cache.users)) && |blocks| < NBUF ==> ok
    {
      var to, from := ReadPair(log, home, blocks);
      ok := to != -1 && from != -1;
      if ok {
        CopyBlock(to, from, blocks, old(cache.users));
      }
    }

    /** A block that is not pinned is the same in the cache and on disk. */
    lemma ReadyIsClean(blocks: seq<nat>, c: nat)
      requires Ready(blocks) && c < |cache.disk| && c !in blocks
      ensures cache.contents[c] == cache.disk[c]
    {}

    /** write_log after `k` rounds, on disk `d` with contents `v`. */
    ghost predicate Logging(d: DiskState, v: DiskState, blocks: seq<nat>, data: seq<Block>, k: nat)
      reads this, cache
    {
      && Ready(blocks) && k <= |blocks|
      && Fits(area, d) && IsLogged(area, d, blocks) && |v| == |d| == |cache.disk|
      && n <= |block| && block[..n] == blocks
      && data == Pick(v, blocks)
      && cache.disk == LogState(area, d, data, k)
      && forall c {:trigger cache.contents[c]} :: IsHome(area, d, c) ==> cache.contents[c] == v[c]
    }

    method WriteLogStep(tail: nat, ghost d: DiskState, ghost v: DiskState, ghost blocks: seq<nat>,
                        ghost data: seq<Block>)
      returns (ok: bool)
      requires Logging(d, v, blocks, data, tail) && tail < n
      modifies cache
      ensures cache.Valid() && cache.pins == old(cache.pins)
      ensures !ok ==> cache.disk == old(cache.disk) && cache.trace == old(cache.trace)
      ensures ok ==> Logging(d, v, blocks, data, tail + 1) && cache.users == old(cache.users)
      ensures ok ==> cache.trace == old(cache.trace) + [LogState(area, d, data, tail + 1)]
      ensures Idle(old(cache.users)) && n < NBUF ==> ok
    {
      assert block[tail] == blocks[tail];
      assert IsHome(area, d, blocks[tail]);
      ok := WriteLogBlock(area.start + tail + 1, block[tail], blocks);
    }

    /** Copy the logged blocks from the cache to the log. */
    method WriteLog(ghost d: DiskState, ghost v: DiskState, ghost blocks: seq<nat>, ghost data: seq<Block>)
      returns (ok: bool, ghost steps: nat)
      requires Logging(d, v, blocks, data, 0)
      modifies cache
      ensures steps <= n
      ensures cache.trace == old(cache.trace) + LogTrace(area, d, data, steps)
      ensures ok ==> steps == n && Logging(d, v, blocks, data, n) && cache.users == old(cache.users)
      ensures Idle(old(cache.users)) && n < NBUF ==> ok
    {
      var tail := 0;
      ok, steps := true, 0;
      while tail < n && ok
        invariant 0 <= tail <= n && steps <= tail
        invariant ok ==> steps == tail && Logging(d, v, blocks, data, tail) && cache.users == old(cache.users)
        invariant cache.trace == old(cache.trace) + LogTrace(area, d, data, steps)
        invariant Idle(old(cache.users)) && n < NBUF ==> ok
        decreases n - tail
      {
        ok := WriteLogStep(tail, d, v, blocks, data);
        tail := tail + 1;
        steps := if ok then tail else steps;
      }
    }

    /** install_trans after `k` rounds, started on disk `d`: at commit it has taken `k` pins off. */
    ghost predicate Installing(d: DiskState, blocks: seq<nat>, recovering: bool, k: nat)
      reads this, cache
    {
      && k <= |blocks| && Ready(Left(recovering, blocks, k))
      && Fits(area, d) && IsLogged(area, d, blocks) && |d| == |cache.disk|
      && n <= |block| && block[..n] == blocks
      && cache.disk == InstallState(area, d, blocks, k)
    }

    method InstallStep(tail: nat, recovering: bool, ghost d: DiskState, ghost blocks: seq<nat>) returns (ok: bool)
      requires Installing(d, blocks, recovering, tail) && tail < n
      modifies cache
      ensures cache.Valid()
      ensures !ok ==> cache.trace == old(cache.trace)
      ensures ok ==> Installing(d, blocks, recovering, tail + 1) && cache.users == old(cache.users)
      ensures ok ==> cache.trace == old(cache.trace) + [InstallState(area, d, blocks, tail + 1)]
      ensures Idle(old(cache.users)) && (recovering || n < NBUF) ==> ok
    {
      ghost var pinned := Left(recovering, blocks, tail);
      var log := area.start + tail + 1;
      assert block[tail] == blocks[tail] && IsHome(area, d, blocks[tail]);
      LogNotHome(area, d, blocks, log);
      ReadyIsClean(pinned, log);
      assert !recovering ==> pinned[1..] == Left(recovering, blocks, tail + 1);
      ok := InstallBlock(log, block[tail], recovering, pinned);
    }

    /** Copy the log blocks to their home locations. */
    method InstallTrans(recovering: bool, ghost d: DiskState, ghost blocks: seq<nat>)
      returns (ok: bool, ghost steps: nat)
      requires Installing(d, blocks, recovering, 0)
      modifies cache
      ensures steps <= n
      ensures cache.trace == old(cache.trace) + InstallTrace(area, d, blocks, steps)
      ensures ok ==> steps == n && Installing(d, blocks, recovering, n) && cache.users == old(cache.users)
      ensures Idle(old(cache.users)) && (recovering || n < NBUF) ==> ok
    {
      var tail := 0;
      ok, steps := true, 0;
      while tail < n && ok
        invariant 0 <= tail <= n && steps <= tail
        invariant ok ==> steps == tail && Installing(d, blocks, recovering, tail) && cache.users == old(cache.users)
        invariant cache.trace == old(cache.trace) + InstallTrace(area, d, blocks, steps)
        invariant Idle(old(cache.users)) && (recovering || n < NBUF) ==> ok
        decreases n - tail
      {
        ok := InstallStep(tail, recovering, d, blocks);
        tail := tail + 1;
        steps := if ok then tail else steps;
      }
    }

    /** The header block with the in-memory count and list put into it. */
    method FillHeader(h: Block) returns (hb: Block)
      requires n <= |block| == LOGSIZE && forall i :: 0 <= i < n ==> block[i] < WORD_LIMIT
      ensures hb == PutHeader(h, block[..n], n)
    {
      hb := PutWord(h, 0, n);
      var i := 0;
      while i < n
        invariant 0 <= i <= n && hb == PutHeader(h, block[..n], i)
      {
        hb := PutWord(hb, i + 1, block[i]);
        i := i + 1;
      }
    }

    /** Write the in-memory header to disk. */
    method WriteHead(ghost pinned: seq<nat>) returns (ok: bool)
      requires Ready(pinned) && Fits(area, cache.disk) && area.start !in pinned
      requires n <= |block| == LOGSIZE && forall i :: 0 <= i < n ==> block[..n][i] < WORD_LIMIT
      modifies cache
      ensures !ok ==> cache.disk == old(cache.disk) && cache.trace == old(cache.trace)
      ensures ok ==> Ready(pinned) && cache.users == old(cache.users)
      ensures ok ==> cache.disk == HeadState(area, old(cache.disk), block[..n])
      ensures ok ==> cache.trace == old(cache.trace) + [cache.disk]
      ensures ok ==> forall c :: 0 <= c < |cache.disk| && c != area.start ==>
                cache.contents[c] == old(cache.contents)[c]
      ensures Idle(old(cache.users)) && |pinned| < NBUF ==> ok
    {
      ReadyIsClean(pinned, area.start);
      if |pinned| < NBUF {
        UnpinnedExists(cache.buf, cache.pins, cache.where, pinned);
      }
      var b := Read(area.start, pinned);
      if b == -1 {
        return false;
      }
      assert forall i :: 0 <= i < n ==> block[i] == block[..n][i];
      var hb := FillHeader(cache.buf[b].data);
      StoreRelease(b, hb, pinned, old(cache.users));
      return true;
    }

    /** Install the log and clear the header, as commit and recovery both do; `w` is what it writes. */
    method InstallAndClear(recovering: bool, ghost d: DiskState, ghost blocks: seq<nat>)
      returns (ok: bool, ghost w: seq<DiskState>)
      requires Installing(d, blocks, recovering, 0) && |block| == LOGSIZE
      requires HeaderOk(area, d) && HeaderBlocks(d[area.start]) == blocks
      modifies this`n, cache
      ensures cache.trace == old(cache.trace) + w && w <= RecoverTrace(area, d)
      ensures ok ==> w == RecoverTrace(area, d)
      ensures ok ==> n == 0 && cache.users == old(cache.users) && Ready([])
      ensures ok ==> cache.disk == RecoverState(area, d, |blocks| + 1)
      ensures Idle(old(cache.users)) && (recovering || |blocks| < NBUF) ==> ok
    {
      ghost var steps;
      ok, steps := InstallTrans(recovering, d, blocks);
      w := InstallTrace(area, d, blocks, steps);
      RecoverTraceInstalling(area, d, steps);
      if ok {
        n := 0;
        assert Left(recovering, blocks, |blocks|) == [] && block[..n] == [];
        ok := WriteHead([]);
        if ok {
          Reassociate(old(cache.trace), w, [cache.disk], cache.trace);
          w := w + [cache.disk];
        }
      }
    }

    /** The commit up to and including the header write, which is the commit point. */
    method CommitToLog(ghost d: DiskState, ghost v: DiskState, ghost blocks: seq<nat>, ghost data: seq<Block>)
      returns (ok: bool, ghost w: seq<DiskState>)
      requires Logging(d, v, blocks, data, 0) && n <= |block| == LOGSIZE && IsAfter(area, d, blocks, data, v)
      modifies cache
      ensures cache.trace == old(cache.trace) + w
      ensures !ok ==> w <= CommitTrace(area, d, blocks, data)
      ensures ok ==> w == LogTrace(area, d, data, |blocks|) + [cache.disk] && cache.users == old(cache.users)
      ensures ok ==> cache.disk == HeadState(area, LogState(area, d, data, |blocks|), blocks)
      ensures ok ==> Installing(cache.disk, blocks, false, 0)
      ensures ok ==> StandsFor(area, cache.disk, v) && HeaderBlocks(cache.disk[area.start]) == blocks
      ensures Idle(old(cache.users)) && |blocks| < NBUF ==> ok
    {
      ghost var steps;
      ok, steps := WriteLog(d, v, blocks, data);
      w := LogTrace(area, d, data, steps);
      CommitTraceLogging(area, d, blocks, data, steps);
      if ok {
        ok := WriteCommit(d, v, blocks, data);
        if ok {
          Reassociate(old(cache.trace), w, [cache.disk], cache.trace);
          w := w + [cache.disk];
        }
      }
    }

    /** The header write that commits. */
    method WriteCommit(ghost d: DiskState, ghost v: DiskState, ghost blocks: seq<nat>, ghost data: seq<Block>)
      returns (ok: bool)
      requires Logging(d, v, blocks, data, |blocks|) && n <= |block| == LOGSIZE && IsAfter(area, d, blocks, data, v)
      modifies cache
      ensures !ok ==> cache.trace == old(cache.trace)
      ensures ok ==> cache.trace == old(cache.trace) + [cache.disk] && cache.users == old(cache.users)
      ensures ok ==> cache.disk == HeadState(area, LogState(area, d, data, |blocks|), blocks)
      ensures ok ==> Installing(cache.disk, blocks, false, 0)
      ensures ok ==> StandsFor(area, cache.disk, v) && HeaderBlocks(cache.disk[area.start]) == blocks
      ensures Idle(old(cache.users)) && |blocks| < NBUF ==> ok
    {
      LogNotHome(area, d, blocks, area.start);
      ok := WriteHead(blocks);
      if ok {
        CommittedStandsFor(area, d, blocks, data, cache.disk, v);
        assert Left(false, blocks, 0) == blocks;
      }
    }

    /** What the cache holds is the disk with the logged blocks replaced. */
    lemma CleanIsAfter(d: DiskState, v: DiskState, blocks: seq<nat>, data: seq<Block>)
      requires Ready(blocks) && d == cache.disk && v == cache.contents
      requires IsTxn(area, d, blocks, data) && data == Pick(v, blocks)
      ensures IsAfter(area, d, blocks, data, v)
    {}

    /** The rest of a commit: the disk comes to hold the file system it already stood for. */
    method CommitToHome(ghost committed: DiskState, ghost v: DiskState, ghost blocks: seq<nat>)
      returns (ok: bool, ghost w: seq<DiskState>)
      requires Installing(committed, blocks, false, 0) && |block| == LOGSIZE
      requires StandsFor(area, committed, v) && HeaderBlocks(committed[area.start]) == blocks
      modifies this`n, cache
      ensures cache.trace == old(cache.trace) + w && w <= RecoverTrace(area, committed)
      ensures ok ==> w == RecoverTrace(area, committed)
      ensures ok ==> n == 0 && cache.users == old(cache.users) && Ready([])
      ensures ok ==> SameHome(area, cache.disk, v) && Count(cache.disk[area.start]) == 0
      ensures Idle(old(cache.users)) && |blocks| < NBUF ==> ok
    {
      RecoverStandsFor(area, committed, v, |blocks| + 1);
      ok, w := InstallAndClear(false, committed, blocks);
    }

    method CommitBlocks(ghost d: DiskState, ghost v: DiskState, ghost blocks: seq<nat>, ghost data: seq<Block>)
      returns (ok: bool, ghost w: seq<DiskState>)
      requires Logging(d, v, blocks, data, 0) && n <= |block| == LOGSIZE && blocks != []
      requires IsAfter(area, d, blocks, data, v)
      modifies this`n, cache
      ensures cache.trace == old(cache.trace) + w && w <= CommitTrace(area, d, blocks, data)
      ensures ok ==> w == CommitTrace(area, d, blocks, data)
      ensures ok ==> n == 0 && Ready([]) && cache.users == old(cache.users)
      ensures ok ==> SameHome(area, cache.disk, v) && Count(cache.disk[area.start]) == 0
      ensures Idle(old(cache.users)) && |blocks| < NBUF ==> ok
    {
      ok, w := CommitToLog(d, v, blocks, data);
      if ok {
        ghost var committed, w1 := cache.disk, w;
        ok, w := CommitToHome(committed, v, blocks);
        CommitTraceInstalling(area, d, blocks, data, committed, w);
        Reassociate(old(cache.trace), w1, w, cache.trace);
        w := w1 + w;
      }
    }

    /** Commit: `w`, the disk states it writes, is CommitTrace, or a prefix of it when no buffer was to be had. */
    method Commit() returns (ok: bool, ghost w: seq<DiskState>)
      requires Valid() && Ready(block[..n]) && Count(cache.disk[area.start]) == 0
      modifies this`n, cache
      ensures cache.trace == old(cache.trace) + w
      ensures var t := CommitTrace(area, old(cache.disk), old(block[..n]), Pick(old(cache.contents), old(block[..n])));
              w <= t && (ok ==> w == t)
      ensures ok ==> n == 0 && Valid() && Ready([]) && Count(cache.disk[area.start]) == 0
      ensures ok ==> cache.users == old(cache.users)
      ensures ok ==> cache.disk == cache.contents && SameHome(area, cache.disk, old(cache.contents))
      ensures Idle(old(cache.users)) && old(n) < NBUF ==> ok
    {
      ghost var d, v, blocks := cache.disk, cache.contents, block[..n];
      CleanIsAfter(d, v, blocks, Pick(v, blocks));
      ok, w := true, [];
      if n > 0 {
        ok, w := CommitBlocks(d, v, blocks, Pick(v, blocks));
      }
      if ok {
        assert block[..n] == [];
        assert cache.disk == cache.contents;
      }
    }

    /** Read the header from disk into memory. */
    method ReadHead() returns (ok: bool)
      requires Ready([]) && HeaderOk(area, cache.disk) && |block| == LOGSIZE
      modifies this`n, this`block, cache
      ensures cache.disk == old(cache.disk) && cache.trace == old(cache.trace)
      ensures ok ==> |block| == LOGSIZE && n <= LOGSIZE && block[..n] == HeaderBlocks(cache.disk[area.start])
      ensures ok ==> Ready([]) && cache.users == old(cache.users)
      ensures Idle(old(cache.users)) ==> ok
    {
      ReadyIsClean([], area.start);
      UnpinnedExists(cache.buf, cache.pins, cache.where, []);
      var b := Read(area.start, []);
      ok := b != -1;
      if ok {
        CopyHeader(cache.buf[b].data);
        cache.Brelse(b);
        assert forall i :: 0 <= i < NBUF ==> cache.users[i] == old(cache.users)[i];
      }
    }

    method CopyHeader(h: Block)
      requires Count(h) <= LOGSIZE == |block|
      modifies this`n, this`block
      ensures |block| == LOGSIZE && n <= LOGSIZE && block[..n] == HeaderBlocks(h)
    {
      n := GetWord(h, 0);
      var i := 0;
      while i < n
        invariant 0 <= i <= n == Count(h) && |block| == LOGSIZE
        invariant forall j :: 0 <= j < i ==> block[j] == GetWord(h, j + 1)
      {
        block := block[i := GetWord(h, i + 1)];
        i := i + 1;
      }
    }

    /** Recovery at boot: it writes RecoverTrace, or a prefix, and leaves the file system the disk stood for. */
    method RecoverFromLog() returns (ok: bool, ghost w: seq<DiskState>)
      requires Ready([]) && HeaderOk(area, cache.disk) && |block| == LOGSIZE
      modifies this`n, this`block, cache
      ensures cache.trace == old(cache.trace) + w && w <= RecoverTrace(area, old(cache.disk))
      ensures ok ==> w == RecoverTrace(area, old(cache.disk))
      ensures ok ==> n == 0 && Valid() && Ready([]) && Count(cache.disk[area.start]) == 0
      ensures ok ==> forall m :: StandsFor(area, old(cache.disk), m) ==> SameHome(area, cache.disk, m)
      ensures Idle(old(cache.users)) ==> ok
    {
      ghost var d := cache.disk;
      ghost var blocks := HeaderBlocks(d[area.start]);
      w := [];
      ok := ReadHead();
      if ok {
        ok, w := InstallAndClear(true, d, blocks);
        if ok {
          assert block[..n] == [];
          forall m | StandsFor(area, d, m) ensures SameHome(area, cache.disk, m) {
            RecoverStandsFor(area, d, m, |blocks| + 1);
          }
        }
      }
    }
  }
}
