/**
 The buffer cache of kernel/bio.c: NBUF buffers on a doubly linked list in
 most-recently-used order, as a fast form of a plain map from block numbers to blocks.

 Every method is one critical section of the source (or a sequence of them, where it
 says so), so that any interleaving of processes is a sequence of calls. The ghost field
 `contents` is the plain map; only `Modify`, the caller changing a buffer it holds,
 changes it.
 */
module BufferCache {
  import opened Blocks

  const NBUF := 30
  // The list head is numbered after the buffers.
  const HEAD := NBUF
  const ROOTDEV := 1

  type DiskState = seq<Block>

  datatype Buf = Buf(valid: bool, dev: nat, blockno: nat, locked: bool, refcnt: nat, data: Block)

  function Succ(k: nat, n: nat): (s: nat)
    requires k < n
    ensures s < n
  {
    if k + 1 == n then 0 else k + 1
  }

  predicate Distinct(s: seq<nat>) {
    forall j, k :: 0 <= j < k < |s| ==> s[j] != s[k]
  }

  function RemoveAt(s: seq<nat>, i: nat): (r: seq<nat>)
    requires i < |s|
    ensures |r| == |s| - 1
    ensures forall k :: 0 <= k < |r| ==> r[k] == s[if k < i then k else k + 1]
    ensures Distinct(s) ==> Distinct(r) && s[i] !in r
    ensures forall x :: x in s && x != s[i] ==> x in r
  {
    var r := s[..i] + s[i + 1..];
    assert s == s[..i] + [s[i]] + s[i + 1..];
    r
  }

  /** `next` and `prev` link exactly the nodes of `ring`, in that order, into one circle. */
  ghost predicate Linked(next: seq<nat>, prev: seq<nat>, ring: seq<nat>) {
    && |next| == |prev| == NBUF + 1
    && 1 <= |ring| && ring[0] == HEAD
    && (forall k :: 0 <= k < |ring| ==> ring[k] <= NBUF)
    && Distinct(ring)
    && (forall k :: 0 <= k < |ring| ==> next[ring[k]] == ring[Succ(k, |ring|)])
    && (forall k :: 0 <= k < |ring| ==> prev[ring[Succ(k, |ring|)]] == ring[k])
  }

  lemma LinkFront(next: seq<nat>, prev: seq<nat>, ring: seq<nat>, b: nat)
    requires Linked(next, prev, ring) && b < NBUF && b !in ring
    ensures next[HEAD] <= NBUF
    ensures Linked(next[b := next[HEAD]][HEAD := b], prev[b := HEAD][next[HEAD] := b], [HEAD, b] + ring[1..])
  {
    var n := |ring|;
    var first := next[HEAD];
    assert first == ring[Succ(0, n)];
    var ring' := [HEAD, b] + ring[1..];
    var next' := next[b := first][HEAD := b];
    var prev' := prev[b := HEAD][first := b];
    forall k | 0 <= k < |ring'|
      ensures next'[ring'[k]] == ring'[Succ(k, |ring'|)] && prev'[ring'[Succ(k, |ring'|)]] == ring'[k]
    {
      if k >= 2 {
        assert ring'[k] == ring[k - 1] && next[ring[k - 1]] == ring[Succ(k - 1, n)];
        assert prev[ring[Succ(k - 1, n)]] == ring[k - 1];
        assert ring[Succ(k - 1, n)] != first;
      }
    }
  }

  lemma Unlink(next: seq<nat>, prev: seq<nat>, ring: seq<nat>, i: nat)
    requires Linked(next, prev, ring) && 0 < i < |ring|
    ensures var b := ring[i];
            && next[b] <= NBUF && prev[b] <= NBUF
            && Linked(next[prev[b] := next[b]], prev[next[b] := prev[b]], RemoveAt(ring, i))
  {
    var n, b := |ring|, ring[i];
    assert next[b] == ring[Succ(i, n)];
    assert i == Succ(i - 1, n);
    assert prev[b] == ring[i - 1];
    var ring' := RemoveAt(ring, i);
    var next' := next[prev[b] := next[b]];
    var prev' := prev[next[b] := prev[b]];
    forall k | 0 <= k < |ring'|
      ensures next'[ring'[k]] == ring'[Succ(k, n - 1)] && prev'[ring'[Succ(k, n - 1)]] == ring'[k]
    {
      UnlinkAt(next, prev, ring, i, k);
    }
  }

  lemma UnlinkAt(next: seq<nat>, prev: seq<nat>, ring: seq<nat>, i: nat, k: nat)
    requires Linked(next, prev, ring) && 0 < i < |ring| && k < |ring| - 1
    requires next[ring[i]] <= NBUF && prev[ring[i]] == ring[i - 1]
    ensures var b, r := ring[i], RemoveAt(ring, i);
            && next[prev[b] := next[b]][r[k]] == r[Succ(k, |r|)]
            && prev[next[b] := prev[b]][r[Succ(k, |r|)]] == r[k]
  {
    var n := |ring|;
    var k0 := if k < i then k else k + 1;
    assert next[ring[i]] == ring[Succ(i, n)];
    assert next[ring[k0]] == ring[Succ(k0, n)] && prev[ring[Succ(k0, n)]] == ring[k0];
    if k0 == i - 1 {
      assert RemoveAt(ring, i)[Succ(k, n - 1)] == ring[Succ(i, n)];
    } else {
      assert ring[k0] != ring[i - 1] && ring[Succ(k0, n)] != ring[Succ(i, n)];
      assert RemoveAt(ring, i)[Succ(k, n - 1)] == ring[Succ(k0, n)];
    }
  }

  /** The six link assignments that take a node out and put it in front. */
  lemma MoveFrontLinks(next: seq<nat>, prev: seq<nat>, ring: seq<nat>, i: nat)
    requires Linked(next, prev, ring) && 0 < i < |ring|
    ensures ring[i] <= NBUF && next[ring[i]] <= NBUF && prev[ring[i]] <= NBUF
    ensures var b := ring[i];
            var prev1 := prev[next[b] := prev[b]];
            var next1 := next[prev1[b] := next[b]];
            next1[HEAD] <= NBUF && b != HEAD &&
            Linked(next1[b := next1[HEAD]][HEAD := b], prev1[b := HEAD][next1[HEAD] := b],
                   [HEAD, b] + RemoveAt(ring, i)[1..])
  {
    var b := ring[i];
    assert b != ring[0];
    assert next[b] == ring[Succ(i, |ring|)] != b;
    Unlink(next, prev, ring, i);
    LinkFront(next[prev[b] := next[b]], prev[next[b] := prev[b]], RemoveAt(ring, i), b);
  }

  lemma OnRing(next: seq<nat>, prev: seq<nat>, ring: seq<nat>, b: nat) returns (k: nat)
    requires Linked(next, prev, ring) && b in ring && b < HEAD && 1 < |ring|
    ensures 0 < k < |ring| && ring[0] == HEAD && ring[k] == b && |next| == |prev| == NBUF + 1
    ensures next[b] != b && next[HEAD] <= NBUF
  {
    k :| 0 <= k < |ring| && ring[k] == b;
    assert next[b] == ring[Succ(k, |ring|)] && next[ring[0]] == ring[Succ(0, |ring|)];
  }

  lemma MoveFrontMembers(ring: seq<nat>, i: nat)
    requires 0 < i < |ring| && ring[0] == HEAD
    ensures forall x :: x in ring ==> x in [HEAD, ring[i]] + RemoveAt(ring, i)[1..]
  {
    var rest := RemoveAt(ring, i);
    assert rest == [HEAD] + rest[1..];
  }

  predicate Caches(b: Buf, blockno: nat) {
    b.dev == ROOTDEV && b.blockno == blockno
  }

  /** The buffer holds the only up-to-date copy of a block, and cannot be recycled. */
  predicate Keeps(b: Buf, pins: nat, blockno: nat) {
    Caches(b, blockno) && b.valid && (b.locked || pins > 0)
  }

  predicate BufValid(b: Buf, users: nat, pins: nat, contents: DiskState) {
    && (b.dev == 0 || b.dev == ROOTDEV)
    && (b.dev == 0 ==> !b.valid && b.refcnt == 0)
    && (b.dev == ROOTDEV ==> b.blockno < |contents|)
    && b.refcnt == users + pins
    && (b.locked ==> users > 0)
    && (pins > 0 ==> b.valid)
    && (b.valid ==> b.data == contents[b.blockno])
  }

  /** `where` gives the buffer of every cached block of the disk; so a block has at most one. */
  ghost predicate Located(buf: seq<Buf>, where: map<nat, nat>) {
    && (forall i :: 0 <= i < |buf| && buf[i].dev == ROOTDEV ==> buf[i].blockno in where && where[buf[i].blockno] == i)
    && (forall c {:trigger where[c]} :: c in where ==> where[c] < |buf|)
    && (forall c {:trigger buf[where[c]]} :: c in where ==> Caches(buf[where[c]], c))
  }

  /** Buffers that keep their block numbers stay where they are. */
  lemma LocatedFrame(buf: seq<Buf>, buf': seq<Buf>, where: map<nat, nat>)
    requires Located(buf, where) && |buf'| == |buf|
    requires forall i :: 0 <= i < |buf| ==> buf'[i].dev == buf[i].dev && buf'[i].blockno == buf[i].blockno
    ensures Located(buf', where)
  {
    forall c | c in where ensures Caches(buf'[where[c]], c) {
      assert Caches(buf[where[c]], c);
    }
  }

  /** A block whose contents are not on disk is kept by its buffer. */
  ghost predicate Kept(buf: seq<Buf>, pins: seq<nat>, where: map<nat, nat>, contents: DiskState, disk: DiskState)
    requires |buf| == |pins| && |contents| == |disk| && Located(buf, where)
  {
    forall c {:trigger contents[c]} :: 0 <= c < |disk| && contents[c] != disk[c] ==>
      c in where && Keeps(buf[where[c]], pins[where[c]], c)
  }

  function Forget(where: map<nat, nat>, b: Buf): map<nat, nat> {
    if b.dev == ROOTDEV then where - {b.blockno} else where
  }

  lemma LocatedRecycle(buf: seq<Buf>, where: map<nat, nat>, i: nat, b: Buf)
    requires Located(buf, where) && i < |buf| && b.dev == ROOTDEV && b.blockno !in where
    ensures Located(buf[i := b], Forget(where, buf[i])[b.blockno := i])
  {
    var buf', where' := buf[i := b], Forget(where, buf[i])[b.blockno := i];
    forall c | c in where' ensures where'[c] < |buf'| && Caches(buf'[where'[c]], c) {
      if c != b.blockno {
        assert Caches(buf[where[c]], c);
      }
    }
  }

  /** From the head on, the buffers stand in the order in which they were last left unused, the latest first. */
  ghost predicate Aged(ring: seq<nat>, freed: seq<nat>, clock: nat) {
    && |freed| == NBUF && (forall b :: 0 <= b < NBUF ==> freed[b] < clock)
    && (forall i :: 0 < i < |ring| ==> ring[i] < NBUF)
    && (forall i, j :: 0 < i < j < |ring| ==> freed[ring[i]] > freed[ring[j]])
  }

  /** The ring while binit builds it: the head, then the buffers before b, the last first. */
  predicate CountsDown(ring: seq<nat>, b: nat) {
    |ring| == b + 1 && ring[0] == HEAD && forall i :: 0 < i < |ring| ==> ring[i] == b - i
  }

  lemma DownFrom(ring: seq<nat>, b: nat)
    requires CountsDown(ring, b) && b <= NBUF
    ensures b < NBUF ==> b !in ring && CountsDown([HEAD, b] + ring[1..], b + 1)
    ensures forall i :: 0 <= i < b ==> i in ring
  {
    forall i | 0 <= i < b ensures i in ring {
      assert ring[b - i] == i;
    }
  }

  lemma AgedAtFirst(ring: seq<nat>, freed: seq<nat>)
    requires CountsDown(ring, NBUF) && freed == seq(NBUF, i => i)
    ensures Aged(ring, freed, NBUF)
  {
  }

  lemma AgedFront(ring: seq<nat>, freed: seq<nat>, clock: nat, k: nat)
    requires Aged(ring, freed, clock) && Distinct(ring) && 0 < k < |ring|
    ensures Aged([HEAD, ring[k]] + RemoveAt(ring, k)[1..], freed[ring[k] := clock], clock + 1)
  {
    var b := ring[k];
    var ring' := [HEAD, b] + RemoveAt(ring, k)[1..];
    forall i | 1 < i < |ring'| ensures ring'[i] == (if i <= k then ring[i - 1] else ring[i]) && ring'[i] != b {
    }
  }

  class Cache {
    var disk: DiskState
    var buf: seq<Buf>
    var next: seq<nat>
    var prev: seq<nat>

    // The list as a sequence: the head, then the buffers from most to least recently used.
    ghost var ring: seq<nat>
    // When each buffer was last left unused by a brelse, on a clock that ticks each time.
    ghost var freed: seq<nat>
    ghost var clock: nat
    // A reference count is the processes between bget and brelse plus the log's pins.
    ghost var users: seq<nat>
    ghost var pins: seq<nat>
    ghost var where: map<nat, nat>
    ghost var contents: DiskState
    // Every state the disk has been in, one more after each block written.
    ghost var trace: seq<DiskState>

    ghost predicate ListValid()
      reads this`next, this`prev, this`ring, this`freed, this`clock
    {
      && Linked(next, prev, ring) && Aged(ring, freed, clock)
      && |ring| == NBUF + 1 && |freed| == NBUF
      && (forall i :: 0 <= i < NBUF ==> i in ring)
    }

    ghost predicate Valid()
      reads this
    {
      && ListValid()
      && |buf| == |users| == |pins| == NBUF
      && |contents| == |disk|
      && 0 < |trace| && trace[|trace| - 1] == disk
      && (forall i :: 0 <= i < NBUF ==> BufValid(buf[i], users[i], pins[i], contents))
      && Located(buf, where)
      && Kept(buf, pins, where, contents, disk)
    }

    /** Each block of a real device has at most one buffer. */
    lemma AtMostOneBuffer(i: nat, j: nat)
      requires Valid() && i < NBUF && j < NBUF
      requires buf[i].dev == buf[j].dev != 0 && buf[i].blockno == buf[j].blockno
      ensures i == j
    {}

    /** A buffer nobody uses may be recycled: what it holds is on disk. */
    lemma UnusedIsClean(i: nat)
      requires Valid() && i < NBUF && buf[i].valid && !buf[i].locked && pins[i] == 0
      ensures buf[i].data == disk[buf[i].blockno]
    {
    }

    constructor (d: DiskState)
      ensures Valid()
      ensures disk == contents == d && trace == [d] && where == map[]
      ensures freed == seq(NBUF, i => i) && clock == NBUF
      ensures forall i :: 0 <= i < NBUF ==> buf[i] == Buf(false, 0, 0, false, 0, ZERO) && users[i] == pins[i] == 0
    {
      disk, contents, trace, where := d, d, [d], map[];
      buf := seq(NBUF, _ => Buf(false, 0, 0, false, 0, ZERO));
      users, pins := seq(NBUF, _ => 0), seq(NBUF, _ => 0);
      next, prev := seq(NBUF + 1, _ => HEAD), seq(NBUF + 1, _ => HEAD);
      ring := [HEAD];
      freed, clock := seq(NBUF, i => i), NBUF;
      new;
      var b := 0;
      while b < NBUF
        invariant 0 <= b <= NBUF
        invariant Linked(next, prev, ring) && CountsDown(ring, b)
        invariant freed == seq(NBUF, i => i) && clock == NBUF
        invariant disk == contents == d && trace == [d] && where == map[]
        invariant |buf| == |users| == |pins| == NBUF
        invariant forall i :: 0 <= i < NBUF ==> buf[i] == Buf(false, 0, 0, false, 0, ZERO) && users[i] == pins[i] == 0
      {
        hide Linked;
        DownFrom(ring, b);
        LinkFront(next, prev, ring, b);
        next, prev := next[b := next[HEAD]], prev[b := HEAD];
        prev := prev[next[HEAD] := b];
        next := next[HEAD := b];
        ring := [HEAD, b] + ring[1..];
        b := b + 1;
      }
      hide Linked, Aged;
      DownFrom(ring, NBUF);
      AgedAtFirst(ring, freed);
    }

    /** Walk the list from the front for the block; HEAD when no buffer has it. */
    method Lookup(dev: nat, blockno: nat) returns (b: nat)
      requires Valid() && dev == ROOTDEV
      ensures b == HEAD ==> blockno !in where
      ensures b != HEAD ==> blockno in where && b == where[blockno]
    {
      assert blockno in where ==> Caches(buf[where[blockno]], blockno);
      b := next[HEAD];
      ghost var k := 1;
      assert b == ring[Succ(0, |ring|)];
      while b != HEAD
        invariant 1 <= k <= |ring| && b == (if k == |ring| then HEAD else ring[k])
        invariant forall j :: 1 <= j < k ==> !Caches(buf[ring[j]], blockno)
        decreases |ring| - k
      {
        if buf[b].dev == dev && buf[b].blockno == blockno {
          return;
        }
        assert next[ring[k]] == ring[Succ(k, |ring|)];
        k := k + 1;
        b := next[b];
      }
      forall i | 0 <= i < NBUF ensures !Caches(buf[i], blockno) {
        assert i in ring;
      }
    }

    /** Walk the list from the back for a buffer nobody uses; HEAD when all are in use. */
    method LeastRecentlyUsed() returns (b: nat)
      requires Valid()
      ensures b == HEAD <==> forall i :: 0 <= i < NBUF ==> buf[i].refcnt > 0
      ensures b != HEAD ==> b < NBUF && buf[b].refcnt == 0
      ensures b != HEAD ==> forall i :: 0 <= i < NBUF && i != b && buf[i].refcnt == 0 ==> freed[b] < freed[i]
    {
      b := prev[HEAD];
      ghost var k := NBUF;
      assert HEAD == ring[Succ(k, |ring|)];
      while b != HEAD
        invariant 0 <= k <= NBUF && b == ring[k]
        invariant forall j :: k < j < |ring| ==> buf[ring[j]].refcnt > 0
        decreases k
      {
        if buf[b].refcnt == 0 {
          forall i | 0 <= i < NBUF && i != b && buf[i].refcnt == 0 ensures freed[b] < freed[i] {
            assert i in ring;
          }
          return;
        }
        assert k == Succ(k - 1, |ring|);
        k := k - 1;
        b := prev[b];
      }
      forall i | 0 <= i < NBUF ensures buf[i].refcnt > 0 {
        assert i in ring;
      }
    }

    /** Give an unused buffer to another block. */
    method Recycle(b: nat, dev: nat, blockno: nat)
      requires Valid() && dev == ROOTDEV && blockno < |disk| && blockno !in where
      requires b < NBUF && buf[b].refcnt == 0
      modifies this`buf, this`users, this`where
      ensures Valid()
      ensures buf == old(buf)[b := Buf(false, dev, blockno, false, 1, old(buf[b].data))]
      ensures users == old(users)[b := 1]
      ensures blockno in where && where[blockno] == b
      ensures forall c :: c in old(where) && old(where)[c] != b ==> c in where && where[c] == old(where)[c]
    {
      LocatedRecycle(buf, where, b, Buf(false, dev, blockno, false, 1, buf[b].data));
      where := Forget(where, buf[b])[blockno := b];
      buf := buf[b := buf[b].(dev := dev, blockno := blockno, valid := false, refcnt := 1)];
      users := users[b := 1];
    }

    /** Look the block up, or recycle the least recently used free buffer; -1 is the panic "no buffers". */
    method Bget(dev: nat, blockno: nat) returns (b: int)
      requires Valid() && dev == ROOTDEV && blockno < |disk|
      modifies this`buf, this`users, this`where
      ensures Valid()
      ensures b == -1 <==> blockno !in old(where) && forall i :: 0 <= i < NBUF ==> old(buf[i].refcnt) > 0
      ensures b == -1 ==> buf == old(buf) && users == old(users) && where == old(where)
      ensures blockno in old(where) ==>
                && b == old(where)[blockno] && where == old(where)
                && buf == old(buf)[b := old(buf[b]).(refcnt := old(buf[b].refcnt) + 1)]
      ensures b != -1 ==>
                0 <= b < NBUF && blockno in where && where[blockno] == b && users == old(users)[b := old(users[b]) + 1]
      ensures b != -1 && blockno !in old(where) ==>
                && old(buf[b].refcnt) == 0
                && (forall i :: 0 <= i < NBUF && i != b && old(buf[i].refcnt) == 0 ==> freed[b] < freed[i])
                && buf == old(buf)[b := Buf(false, dev, blockno, false, 1, old(buf[b].data))]
                && (forall c :: c in old(where) && old(where)[c] != b ==> c in where && where[c] == old(where)[c])
    {
      hide Linked, Aged;
      b := Lookup(dev, blockno);
      if b != HEAD {
        buf := buf[b := buf[b].(refcnt := buf[b].refcnt + 1)];
        users := users[b := users[b] + 1];
        LocatedFrame(old(buf), buf, where);
        return;
      }
      b := LeastRecentlyUsed();
      if b != HEAD {
        Recycle(b, dev, blockno);
        return;
      }
      return -1;
    }

    /** acquiresleep on the buffer, when it returns. */
    method Acquire(b: nat)
      requires Valid() && b < NBUF && users[b] > 0 && !buf[b].locked
      modifies this`buf
      ensures Valid() && buf == old(buf)[b := old(buf[b]).(locked := true)]
    {
      buf := buf[b := buf[b].(locked := true)];
      LocatedFrame(old(buf), buf, where);
    }

    /** The second half of bread: read the block from disk unless the buffer has it. */
    method Fill(b: nat)
      requires Valid() && b < NBUF && buf[b].locked
      modifies this`buf
      ensures Valid()
      ensures buf == old(buf)[b := old(buf[b]).(valid := true, data := contents[buf[b].blockno])]
    {
      if !buf[b].valid {
        buf := buf[b := buf[b].(data := disk[buf[b].blockno])];
        buf := buf[b := buf[b].(valid := true)];
        LocatedFrame(old(buf), buf, where);
      }
    }

    /** bget, acquiresleep and the read, with no other process holding the block. */
    method Bread(dev: nat, blockno: nat) returns (b: int)
      requires Valid() && dev == ROOTDEV && blockno < |disk|
      requires blockno in where ==> !buf[where[blockno]].locked
      modifies this`buf, this`users, this`where
      ensures Valid()
      ensures b == -1 <==> blockno !in old(where) && forall i :: 0 <= i < NBUF ==> old(buf[i].refcnt) > 0
      ensures b == -1 ==> buf == old(buf) && users == old(users) && where == old(where)
      ensures blockno in old(where) ==> b == old(where)[blockno]
      ensures b != -1 ==>
                && 0 <= b < NBUF && blockno in where && where[blockno] == b
                && (blockno in old(where) || old(buf[b].refcnt) == 0)
                && (blockno in old(where) ||
                    forall i :: 0 <= i < NBUF && i != b && old(buf[i].refcnt) == 0 ==> freed[b] < freed[i])
                && buf == old(buf)[b := Buf(true, dev, blockno, true, old(buf[b].refcnt) + 1, contents[blockno])]
                && users == old(users)[b := old(users[b]) + 1]
                && (forall c :: c in old(where) && old(where)[c] != b ==> c in where && where[c] == old(where)[c])
    {
      hide Linked, Aged;
      b := Bget(dev, blockno);
      if b != -1 {
        Acquire(b);
        Fill(b);
      }
    }

    /** The caller changes the data of a buffer it holds. */
    method Modify(b: nat, data: Block)
      requires Valid() && b < NBUF && buf[b].locked && buf[b].valid
      modifies this`buf, this`contents
      ensures Valid()
      ensures buf == old(buf)[b := old(buf[b]).(data := data)]
      ensures contents == old(contents)[old(buf[b].blockno) := data]
    {
      ghost var blockno := buf[b].blockno;
      contents := contents[blockno := data];
      buf := buf[b := buf[b].(data := data)];
      LocatedFrame(old(buf), buf, where);
    }

    method Bwrite(b: nat)
      requires Valid() && b < NBUF && buf[b].locked && buf[b].valid
      modifies this`disk, this`trace
      ensures Valid()
      ensures disk == old(disk)[buf[b].blockno := buf[b].data]
      ensures trace == old(trace) + [disk]
    {
      disk := disk[buf[b].blockno := buf[b].data];
      trace := trace + [disk];
    }

    /** releasesleep, the first critical section of brelse: a change must be on disk or pinned by now. */
    method Release(b: nat)
      requires Valid() && b < NBUF && buf[b].locked && buf[b].valid
      requires buf[b].data == disk[buf[b].blockno] || pins[b] > 0
      modifies this`buf
      ensures Valid() && buf == old(buf)[b := old(buf[b]).(locked := false)]
    {
      buf := buf[b := buf[b].(locked := false)];
      LocatedFrame(old(buf), buf, where);
    }

    /** The buffer goes to the front if nobody uses it now, and the others keep their order. */
    twostate predicate Ages(b: nat)
      requires b < |buf| && b < |old(freed)|
      reads this
    {
      if buf[b].refcnt == 0 then freed == old(freed)[b := old(clock)] && clock == old(clock) + 1
      else ring == old(ring) && freed == old(freed) && clock == old(clock)
    }

    /** The second critical section of brelse: drop the reference, and move a free buffer to the front. */
    method Drop(b: nat)
      requires Valid() && b < NBUF && users[b] > (if buf[b].locked then 1 else 0)
      modifies this`buf, this`users, this`next, this`prev, this`ring, this`freed, this`clock
      ensures Valid()
      ensures buf == old(buf)[b := old(buf[b]).(refcnt := old(buf[b].refcnt) - 1)]
      ensures users == old(users)[b := old(users[b]) - 1]
      ensures Ages(b)
      ensures buf[b].refcnt == 0 ==>
                exists k :: 0 < k < |ring| && old(ring)[k] == b && ring == [HEAD, b] + RemoveAt(old(ring), k)[1..]
    {
      hide Linked, Aged, RemoveAt;
      buf := buf[b := buf[b].(refcnt := buf[b].refcnt - 1)];
      users := users[b := users[b] - 1];
      LocatedFrame(old(buf), buf, where);
      if buf[b].refcnt == 0 {
        MoveToFront(b);
      }
    }

    /** The six assignments that take b out of the list and put it in behind the head. */
    method Relink(b: nat)
      requires |next| == |prev| == NBUF + 1 && 0 <= b <= NBUF && b != HEAD && next[b] <= NBUF && prev[b] <= NBUF
      requires next[b] != b
      requires next[HEAD] <= NBUF
      modifies this`next, this`prev
      ensures var prev1 := old(prev)[old(next)[b] := old(prev)[b]];
              var next1 := old(next)[prev1[b] := old(next)[b]];
              && next1[HEAD] <= NBUF && next == next1[b := next1[HEAD]][HEAD := b]
              && prev == prev1[b := HEAD][next1[HEAD] := b]
    {
      prev := prev[next[b] := prev[b]];
      next := next[prev[b] := next[b]];
      next := next[b := next[HEAD]];
      prev := prev[b := HEAD];
      prev := prev[next[HEAD] := b];
      next := next[HEAD := b];
    }

    /** Unlink a buffer and insert it after the list head. */
    method MoveToFront(b: nat)
      requires ListValid() && b < NBUF
      modifies this`next, this`prev, this`ring, this`freed, this`clock
      ensures ListValid() && freed == old(freed)[b := old(clock)] && clock == old(clock) + 1
      ensures exists k :: 0 < k < |ring| && old(ring)[k] == b && ring == [HEAD, b] + RemoveAt(old(ring), k)[1..]
    {
      hide Linked, RemoveAt;
      ghost var k := OnRing(next, prev, ring, b);
      MoveFrontLinks(next, prev, ring, k);
      Relink(b);
      MoveFrontMembers(ring, k);
      AgedFront(ring, freed, clock, k);
      ring, freed, clock := [HEAD, b] + RemoveAt(ring, k)[1..], freed[b := clock], clock + 1;
    }

    method Brelse(b: nat)
      requires Valid() && b < NBUF && buf[b].locked && buf[b].valid
      requires buf[b].data == disk[buf[b].blockno] || pins[b] > 0
      modifies this`buf, this`users, this`next, this`prev, this`ring, this`freed, this`clock
      ensures Valid()
      ensures buf == old(buf)[b := old(buf[b]).(locked := false, refcnt := old(buf[b].refcnt) - 1)]
      ensures users == old(users)[b := old(users[b]) - 1]
      ensures Ages(b)
    {
      hide Linked, Aged;
      Release(b);
      label L:
      Drop(b);
      assert Ages@L(b);
    }

    /** Change a held buffer and write it to disk. */
    method Store(b: nat, data: Block)
      requires Valid() && b < NBUF && buf[b].locked && buf[b].valid
      modifies this`buf, this`contents, this`disk, this`trace
      ensures Valid()
      ensures buf == old(buf)[b := old(buf[b]).(data := data)]
      ensures contents == old(contents)[buf[b].blockno := data]
      ensures disk == old(disk)[buf[b].blockno := data] && trace == old(trace) + [disk]
    {
      Modify(b, data);
      Bwrite(b);
    }

    /** Release two buffers, whose changes are on disk or pinned. */
    method ReleaseBoth(x: nat, y: nat)
      requires Valid() && x < NBUF && y < NBUF && x != y
      requires buf[x].locked && buf[x].valid && (buf[x].data == disk[buf[x].blockno] || pins[x] > 0)
      requires buf[y].locked && buf[y].valid && (buf[y].data == disk[buf[y].blockno] || pins[y] > 0)
      modifies this`buf, this`users, this`next, this`prev, this`ring, this`freed, this`clock
      ensures Valid()
      ensures forall i :: 0 <= i < NBUF ==>
                && buf[i].dev == old(buf)[i].dev && buf[i].blockno == old(buf)[i].blockno
                && buf[i].locked == (old(buf)[i].locked && i != x && i != y)
      ensures forall i :: 0 <= i < NBUF ==> users[i] == old(users)[i] - if i == x || i == y then 1 else 0
      ensures buf[x].refcnt == old(buf[x].refcnt) - 1 && buf[y].refcnt == old(buf[y].refcnt) - 1
      ensures forall i :: 0 <= i < NBUF && (i != x || buf[x].refcnt > 0) && (i != y || buf[y].refcnt > 0) ==>
                freed[i] == old(freed)[i]
      ensures (buf[x].refcnt == 0 ==> freed[x] >= old(clock)) && (buf[y].refcnt == 0 ==> freed[y] >= old(clock))
      ensures buf[x].refcnt == 0 && buf[y].refcnt == 0 ==> freed[x] < freed[y]
    {
      hide Linked, Aged;
      Brelse(x);
      Brelse(y);
    }

    method Bpin(b: nat)
      requires Valid() && b < NBUF && buf[b].locked && buf[b].valid
      modifies this`buf, this`pins
      ensures Valid()
      ensures buf == old(buf)[b := old(buf[b]).(refcnt := old(buf[b].refcnt) + 1)]
      ensures pins == old(pins)[b := old(pins[b]) + 1]
    {
      buf := buf[b := buf[b].(refcnt := buf[b].refcnt + 1)];
      pins := pins[b := pins[b] + 1];
      LocatedFrame(old(buf), buf, where);
    }

    method Bunpin(b: nat)
      requires Valid() && b < NBUF && pins[b] > 0
      requires buf[b].locked || buf[b].data == disk[buf[b].blockno]
      modifies this`buf, this`pins
      ensures Valid()
      ensures buf == old(buf)[b := old(buf[b]).(refcnt := old(buf[b].refcnt) - 1)]
      ensures pins == old(pins)[b := old(pins[b]) - 1]
    {
      buf := buf[b := buf[b].(refcnt := buf[b].refcnt - 1)];
      pins := pins[b := pins[b] - 1];
      LocatedFrame(old(buf), buf, where);
    }
  }
}
