/**
 The file system over the log: a crash anywhere in a run of transactions, and any number of crashes
 while recovering from it, leave on disk the file system as one of the transactions left it.

 An inode lies in its block as kernel/fs.h has it: 64 bytes, of which the size is the third word
 and the addresses are the rest.
 */
module CrashFs {
  import opened Blocks
  import opened BufferCache
  import opened FsSpec
  import opened LogSpec

  const DINODE_WORDS := 16
  const FIELDS := 2 + NDIRECT

  /** The size, then the addresses. */
  function Field(ino: Inode, k: nat): nat
    requires k < FIELDS
  {
    if k == 0 then ino.size else ino.addrs[k - 1]
  }

  function WordOf(i: nat, k: nat): (w: nat)
    requires k < FIELDS
    ensures w < WORDS
  {
    DINODE_WORDS * (i % IPB) + 2 + k
  }

  predicate InodeIn(b: Block, i: nat, ino: Inode) {
    forall k: nat {:trigger WordOf(i, k)} :: k < FIELDS ==> GetWord(b, WordOf(i, k)) == Field(ino, k)
  }

  /** The disk holds these blocks, and these inodes in their blocks. */
  ghost predicate OnDisk(sb: Layout, d: DiskState, blocks: seq<Block>, inodes: seq<Inode>) {
    && LayoutOk(sb) && |d| == |blocks| == sb.size && |inodes| <= sb.ninodes
    && (forall b {:trigger d[b]} :: sb.bmapstart <= b < sb.size ==> d[b] == blocks[b])
    && (forall i: nat {:trigger IBlock(sb, i)} :: i < |inodes| ==>
         IBlock(sb, i) < sb.bmapstart && IBlock(sb, i) < |d| && InodeIn(d[IBlock(sb, i)], i, inodes[i]))
  }

  /** The log lies before the inodes, as mkfs puts it. */
  predicate LogApart(a: Area, sb: Layout) {
    a.start + a.size <= sb.inodestart
  }

  /** What is on disk is a matter of the home blocks. */
  lemma SameFs(sb: Layout, a: Area, d: DiskState, d': DiskState, blocks: seq<Block>, inodes: seq<Inode>)
    requires OnDisk(sb, d, blocks, inodes) && SameHome(a, d, d') && LogApart(a, sb)
    ensures OnDisk(sb, d', blocks, inodes)
  {
    hide InodeIn;
    forall b | sb.inodestart <= b < sb.size ensures d'[b] == d[b] {
      assert IsHome(a, d, b);
    }
    forall i: nat | i < |inodes| ensures IBlock(sb, i) < |d'| && InodeIn(d'[IBlock(sb, i)], i, inodes[i]) {
      var b := IBlock(sb, i);
      assert d'[b] == d[b];
    }
  }

  // Writing inodes back.

  function PutFields(b: Block, i: nat, ino: Inode, n: nat): Block
    requires n <= FIELDS && forall k {:trigger Field(ino, k)} :: 0 <= k < FIELDS ==> Field(ino, k) < WORD_LIMIT
  {
    if n == 0 then b else PutWord(PutFields(b, i, ino, n - 1), WordOf(i, n - 1), Field(ino, n - 1))
  }

  lemma {:induction false} PutFieldsAt(b: Block, i: nat, ino: Inode, n: nat, w: nat)
    requires n <= FIELDS && w < WORDS
    requires forall k {:trigger Field(ino, k)} :: 0 <= k < FIELDS ==> Field(ino, k) < WORD_LIMIT
    ensures var k := w - DINODE_WORDS * (i % IPB) - 2;
            GetWord(PutFields(b, i, ino, n), w) == if 0 <= k < n then Field(ino, k) else GetWord(b, w)
  {
    hide GetWord, PutWord;
    if n > 0 {
      PutFieldsAt(b, i, ino, n - 1, w);
    }
  }

  /** An inode written into its block is there, and the others of the block are still there. */
  lemma PutInode(b: Block, i: nat, ino: Inode, j: nat, other: Inode)
    requires forall k {:trigger Field(ino, k)} :: 0 <= k < FIELDS ==> Field(ino, k) < WORD_LIMIT
    ensures InodeIn(PutFields(b, i, ino, FIELDS), i, ino)
    ensures j % IPB != i % IPB && InodeIn(b, j, other) ==> InodeIn(PutFields(b, i, ino, FIELDS), j, other)
  {
    hide GetWord, PutFields;
    forall k: nat | k < FIELDS ensures GetWord(PutFields(b, i, ino, FIELDS), WordOf(i, k)) == Field(ino, k) {
      PutFieldsAt(b, i, ino, FIELDS, WordOf(i, k));
    }
    if j % IPB != i % IPB && InodeIn(b, j, other) {
      forall k: nat | k < FIELDS ensures GetWord(PutFields(b, i, ino, FIELDS), WordOf(j, k)) == Field(other, k) {
        PutFieldsAt(b, i, ino, FIELDS, WordOf(j, k));
      }
    }
  }

  lemma FieldsFit(sb: Layout, blocks: seq<Block>, inodes: seq<Inode>, owner: seq<Owner>, i: nat)
    requires Consistent(sb, blocks, inodes, owner) && i < |inodes| && inodes[i].size < WORD_LIMIT
    ensures forall k {:trigger Field(inodes[i], k)} :: 0 <= k < FIELDS ==> Field(inodes[i], k) < WORD_LIMIT
  {
    hide Addr, Owned, Marked;
    OwnedSizes(sb.nmeta, blocks, inodes, owner);
    forall k | 0 <= k < FIELDS ensures Field(inodes[i], k) < WORD_LIMIT {
      if 0 < k <= NDIRECT && inodes[i].addrs[k - 1] != 0 {
        DirectAddr(blocks, inodes[i], k - 1);
        SlotIs(sb.nmeta, blocks, inodes, owner, i, k - 1);
      } else if k == NDIRECT + 1 && inodes[i].addrs[NDIRECT] != 0 {
        IndirectIs(sb.nmeta, blocks, inodes, owner, i);
      }
    }
  }

  /** Inode i, when the first n have been written back. */
  function Turned(s: Snap, s': Snap, n: nat, i: nat): Inode
    requires |s'.inodes| == |s.inodes| && i < |s.inodes|
  {
    if i < n then s'.inodes[i] else s.inodes[i]
  }

  /**
   The first n inodes have been written back where they have changed, and so have the blocks;
   nothing is changed but what is logged.
   */
  ghost predicate WrittenBack(sb: Layout, d: DiskState, s: Snap, s': Snap, n: nat, v: DiskState) {
    && |v| == |d| == sb.size == |s'.blocks| && |s'.inodes| == |s.inodes| && n <= |s.inodes|
    && (forall b {:trigger v[b]} :: sb.bmapstart <= b < sb.size ==> v[b] == s'.blocks[b])
    && (forall b {:trigger v[b]} :: 0 <= b < sb.size && v[b] != d[b] ==> b in s'.logged)
    && (forall i: nat {:trigger IBlock(sb, i)} :: i < |s.inodes| ==>
          IBlock(sb, i) < sb.bmapstart <= sb.size
            && InodeIn(v[IBlock(sb, i)], i, Turned(s, s', n, i)))
  }

  lemma StartBack(sb: Layout, d: DiskState, s: Snap, s': Snap) returns (v: DiskState)
    requires Transaction(sb, s, s') && OnDisk(sb, d, s.blocks, s.inodes)
    ensures WrittenBack(sb, d, s, s', 0, v)
  {
    hide InodeIn, Owned, Marked, InFs;
    OwnedSizes(sb.nmeta, s'.blocks, s'.inodes, s'.owner);
    BBlockIsMeta(sb, 0);
    v := seq(sb.size, b requires 0 <= b < sb.size => if b < sb.bmapstart then d[b] else s'.blocks[b]);
    forall b | 0 <= b < sb.size && v[b] != d[b] ensures b in s'.logged {
      assert d[b] == s.blocks[b] && s'.blocks[b] != s.blocks[b];
    }
    forall i: nat | i < |s.inodes| ensures IBlock(sb, i) < sb.bmapstart && InodeIn(v[IBlock(sb, i)], i, s.inodes[i]) {
      assert v[IBlock(sb, i)] == d[IBlock(sb, i)];
    }
  }

  lemma NextBack(sb: Layout, d: DiskState, s: Snap, s': Snap, n: nat, v: DiskState) returns (v': DiskState)
    requires Transaction(sb, s, s') && WrittenBack(sb, d, s, s', n, v) && n < |s.inodes|
    ensures WrittenBack(sb, d, s, s', n + 1, v')
  {
    hide InodeIn, Consistent, InFs, Covered, PutFields;
    var at := IBlock(sb, n);
    if s'.inodes[n] == s.inodes[n] {
      v' := v;
      forall i: nat | i < |s.inodes| ensures InodeIn(v'[IBlock(sb, i)], i, Turned(s, s', n + 1, i)) {
        assert Turned(s, s', n + 1, i) == Turned(s, s', n, i);
      }
    } else {
      FieldsFit(sb, s'.blocks, s'.inodes, s'.owner, n);
      v' := v[at := PutFields(v[at], n, s'.inodes[n], FIELDS)];
      forall i: nat | i < |s.inodes| ensures InodeIn(v'[IBlock(sb, i)], i, Turned(s, s', n + 1, i)) {
        PutInode(v[at], n, s'.inodes[n], i, Turned(s, s', n, i));
        OtherSlot(sb, n, i);
      }
    }
  }

  lemma OtherSlot(sb: Layout, n: nat, i: nat)
    ensures IBlock(sb, i) == IBlock(sb, n) && i % IPB == n % IPB ==> i == n
  {
  }

  /** What the cache holds at the end of a transaction: the disk with what is logged changed, and nothing else. */
  lemma {:induction false} CacheView(sb: Layout, d: DiskState, s: Snap, s': Snap, n: nat) returns (v: DiskState)
    requires Transaction(sb, s, s') && OnDisk(sb, d, s.blocks, s.inodes) && n <= |s.inodes|
    ensures WrittenBack(sb, d, s, s', n, v)
  {
    hide Transaction, OnDisk, WrittenBack;
    if n == 0 {
      v := StartBack(sb, d, s, s');
    } else {
      v := CacheView(sb, d, s, s', n - 1);
      v := NextBack(sb, d, s, s', n - 1, v);
    }
  }

  lemma AllBack(sb: Layout, d: DiskState, s: Snap, s': Snap, v: DiskState)
    requires Transaction(sb, s, s') && WrittenBack(sb, d, s, s', |s.inodes|, v)
    ensures OnDisk(sb, v, s'.blocks, s'.inodes)
  {
    hide InodeIn, Owned, Marked, InFs, Covered;
  }

  // Commit.

  /** The commit of a transaction: what the cache holds, and the blocks to be logged, in the order of the header. */
  datatype Commit = Commit(view: DiskState, blocks: seq<nat>, data: seq<Block>)

  ghost predicate Commits(sb: Layout, a: Area, d: DiskState, s: Snap, s': Snap, c: Commit) {
    && WrittenBack(sb, d, s, s', |s.inodes|, c.view)
    && Distinct(c.blocks) && |c.blocks| <= LOGSIZE && |c.blocks| < a.size && |c.data| == |c.blocks|
    && (forall b: nat {:trigger b in s'.logged} :: b in s'.logged <==> b in c.blocks)
    && (forall i {:trigger c.blocks[i]} :: 0 <= i < |c.blocks| ==>
         c.blocks[i] < |c.view| && c.data[i] == c.view[c.blocks[i]])
  }

  lemma CommitsIsTxn(sb: Layout, a: Area, d: DiskState, s: Snap, s': Snap, c: Commit)
    requires Transaction(sb, s, s') && Commits(sb, a, d, s, s', c) && LogApart(a, sb) && Fits(a, d)
    ensures IsTxn(a, d, c.blocks, c.data)
  {
    hide InodeIn, Owned, Marked, Covered, WrittenBack;
    assert |d| == sb.size by { Lengths(sb, d, s, s', c.view); }
    forall i | 0 <= i < |c.blocks| ensures IsHome(a, d, c.blocks[i]) && c.blocks[i] < WORD_LIMIT {
      assert c.blocks[i] in s'.logged;
    }
  }

  lemma Lengths(sb: Layout, d: DiskState, s: Snap, s': Snap, v: DiskState)
    requires WrittenBack(sb, d, s, s', |s.inodes|, v)
    ensures |d| == |v| == sb.size
  {
  }

  /** Every transaction that fits the log has a commit. */
  lemma CommitOf(sb: Layout, a: Area, d: DiskState, s: Snap, s': Snap) returns (c: Commit)
    requires Transaction(sb, s, s') && OnDisk(sb, d, s.blocks, s.inodes) && LogApart(a, sb) && Fits(a, d)
    requires |s'.logged| <= LOGSIZE && |s'.logged| < a.size
    ensures Commits(sb, a, d, s, s', c) && IsTxn(a, d, c.blocks, c.data)
  {
    hide InodeIn, Owned, Marked, Covered, Consistent, WrittenBack;
    var view := CacheView(sb, d, s, s', |s.inodes|);
    Lengths(sb, d, s, s', view);
    var blocks := Listing(s'.logged);
    forall i | 0 <= i < |blocks| ensures blocks[i] < |view| {
      assert blocks[i] in s'.logged;
    }
    c := Commit(view, blocks, seq(|blocks|, i requires 0 <= i < |blocks| => view[blocks[i]]));
    CommitsIsTxn(sb, a, d, s, s', c);
  }

  lemma {:induction false} Listing(all: set<nat>) returns (list: seq<nat>)
    ensures Distinct(list) && |list| == |all| && forall b: nat {:trigger b in all} :: b in all <==> b in list
  {
    if all == {} {
      list := [];
    } else {
      var b :| b in all;
      var rest := Listing(all - {b});
      assert b !in all - {b};
      list := rest + [b];
      assert forall x: nat :: x in all <==> x == b || x in all - {b};
    }
  }

  /** A disk with the transaction's blocks on it is what the cache held. */
  lemma AfterIsView(sb: Layout, a: Area, d: DiskState, s: Snap, s': Snap, c: Commit, final: DiskState)
    requires Transaction(sb, s, s') && Commits(sb, a, d, s, s', c) && LogApart(a, sb) && IsTxn(a, d, c.blocks, c.data)
    requires IsAfter(a, d, c.blocks, c.data, final)
    ensures SameHome(a, c.view, final)
  {
    hide InodeIn, Owned, Marked, Covered, InFs;
    forall b | IsHome(a, c.view, b) ensures final[b] == c.view[b] {
      if b in c.blocks {
        var i :| 0 <= i < |c.blocks| && c.blocks[i] == b;
        assert final[c.blocks[i]] == c.data[i];
      } else {
        assert b !in s'.logged && IsHome(a, d, b);
        assert c.view[b] == d[b];
      }
    }
  }

  /**
   A crash after any block write of the commit, and any number of crashes while recovering: in the
   end the disk holds the file system as it was before the transaction, or as the transaction left
   it, and the latter exactly from the write of the header on.
   */
  lemma CrashInTransaction(sb: Layout, a: Area, s: Snap, s': Snap, d: DiskState, c: Commit, k: nat,
                           disks: seq<DiskState>)
    requires Transaction(sb, s, s') && OnDisk(sb, d, s.blocks, s.inodes) && Commits(sb, a, d, s, s', c)
    requires LogApart(a, sb) && Fits(a, d) && Count(d[a.start]) == 0
    requires IsTxn(a, d, c.blocks, c.data) && k <= 2 * |c.blocks| + 2
    requires CrashedRecoveries(a, disks) && disks[0] == CommitState(a, d, c.blocks, c.data, k)
    ensures var last := disks[|disks| - 1];
            && HeaderOk(a, last)
            && var final := RecoverState(a, last, Count(last[a.start]) + 1);
               && Count(final[a.start]) == 0 && |final| == |d|
               && if k <= |c.blocks| then OnDisk(sb, final, s.blocks, s.inodes)
                    else OnDisk(sb, final, s'.blocks, s'.inodes)
  {
    hide Transaction, OnDisk, Commits, CommitState, RecoverState, HeaderBlocks, IsAfter, SameHome;
    CrashAtomicity(a, d, c.blocks, c.data, k, disks);
    var last := disks[|disks| - 1];
    var final := RecoverState(a, last, Count(last[a.start]) + 1);
    if k <= |c.blocks| {
      SameLengths(a, d, final);
      SameFs(sb, a, d, final, s.blocks, s.inodes);
    } else {
      AfterLengths(a, d, c.blocks, c.data, final);
      AfterIsView(sb, a, d, s, s', c, final);
      CommitsView(sb, a, d, s, s', c);
      SameFs(sb, a, c.view, final, s'.blocks, s'.inodes);
    }
  }

  lemma SameLengths(a: Area, d: DiskState, m: DiskState)
    requires SameHome(a, d, m)
    ensures |m| == |d|
  {
  }

  lemma AfterLengths(a: Area, d: DiskState, blocks: seq<nat>, data: seq<Block>, m: DiskState)
    requires IsTxn(a, d, blocks, data) && IsAfter(a, d, blocks, data, m)
    ensures |m| == |d|
  {
  }

  lemma CommitsView(sb: Layout, a: Area, d: DiskState, s: Snap, s': Snap, c: Commit)
    requires Transaction(sb, s, s') && Commits(sb, a, d, s, s', c)
    ensures OnDisk(sb, c.view, s'.blocks, s'.inodes)
  {
    hide Transaction, WrittenBack, OnDisk;
    AllBack(sb, d, s, s', c.view);
  }

  // Runs.

  /** The disks between transactions, each committed in full to get to the next. */
  ghost predicate Committed(sb: Layout, a: Area, snaps: seq<Snap>, disks: seq<DiskState>, commits: seq<Commit>) {
    && 0 < |disks| <= |snaps| && |commits| == |disks| - 1
    && OnDisk(sb, disks[0], snaps[0].blocks, snaps[0].inodes) && Fits(a, disks[0]) && Count(disks[0][a.start]) == 0
    && forall j: nat {:trigger commits[j]} :: j < |commits| ==> CommittedAt(sb, a, snaps, disks, commits, j)
  }

  ghost predicate CommittedAt(sb: Layout, a: Area, snaps: seq<Snap>, disks: seq<DiskState>, commits: seq<Commit>,
                              j: nat)
    requires |commits| == |disks| - 1 && j < |commits| && |disks| <= |snaps|
  {
    var c := commits[j];
    && Commits(sb, a, disks[j], snaps[j], snaps[j + 1], c) && IsTxn(a, disks[j], c.blocks, c.data)
    && disks[j + 1] == CommitState(a, disks[j], c.blocks, c.data, 2 * |c.blocks| + 2)
  }

  /** A commit in full leaves the transaction on disk. */
  lemma FullCommit(sb: Layout, a: Area, s: Snap, s': Snap, d: DiskState, c: Commit)
    requires Transaction(sb, s, s') && Commits(sb, a, d, s, s', c) && LogApart(a, sb) && IsTxn(a, d, c.blocks, c.data)
    ensures var final := CommitState(a, d, c.blocks, c.data, 2 * |c.blocks| + 2);
            OnDisk(sb, final, s'.blocks, s'.inodes) && |final| == |d| && Count(final[a.start]) == 0
  {
    hide Transaction, OnDisk, Commits, CommitState, IsAfter, SameHome;
    var final := CommitState(a, d, c.blocks, c.data, 2 * |c.blocks| + 2);
    var m := LogSpec.After(a, d, c.blocks, c.data);
    CommitDone(a, d, c.blocks, c.data, m);
    AfterIsView(sb, a, d, s, s', c, m);
    CommitsView(sb, a, d, s, s', c);
    SameFs(sb, a, c.view, m, s'.blocks, s'.inodes);
    HomeBack(a, final, m);
    SameFs(sb, a, m, final, s'.blocks, s'.inodes);
  }

  lemma HomeBack(a: Area, d: DiskState, m: DiskState)
    requires SameHome(a, d, m)
    ensures SameHome(a, m, d)
  {
    forall b | IsHome(a, m, b) ensures d[b] == m[b] {
      assert IsHome(a, d, b);
    }
  }

  lemma {:induction false} BetweenTransactions(sb: Layout, a: Area, snaps: seq<Snap>, disks: seq<DiskState>,
        commits: seq<Commit>, j: nat)
    requires Transactions(sb, snaps, 1) && Committed(sb, a, snaps, disks, commits) && LogApart(a, sb) && j < |disks|
    ensures OnDisk(sb, disks[j], snaps[j].blocks, snaps[j].inodes) && Fits(a, disks[j]) && Count(disks[j][a.start]) == 0
  {
    hide Transaction, OnDisk, Commits, CommitState;
    if j > 0 {
      BetweenTransactions(sb, a, snaps, disks, commits, j - 1);
      var c := commits[j - 1];
      assert Transaction(sb, snaps[j - 1], snaps[j]);
      FullCommit(sb, a, snaps[j - 1], snaps[j], disks[j - 1], c);
    }
  }

  /**
   All transactions but the last have been committed in full, and the commit of the last, c, has
   got as far as its k-th block write when a crash comes, and then any number of crashes while
   recovering.
   */
  ghost predicate Crash(sb: Layout, a: Area, snaps: seq<Snap>, disks: seq<DiskState>, commits: seq<Commit>, c: Commit,
                        k: nat, crashes: seq<DiskState>) {
    && LogApart(a, sb) && Committed(sb, a, snaps, disks, commits) && |disks| < |snaps|
    && var d := disks[|disks| - 1];
       && Commits(sb, a, d, snaps[|disks| - 1], snaps[|disks|], c) && IsTxn(a, d, c.blocks, c.data)
       && k <= 2 * |c.blocks| + 2 && CrashedRecoveries(a, crashes)
       && crashes[0] == CommitState(a, d, c.blocks, c.data, k)
  }

  /** Recovering from this disk gives the file system of s, which is consistent, and an empty log. */
  ghost predicate Recovers(sb: Layout, a: Area, last: DiskState, s: Snap) {
    && HeaderOk(a, last) && Consistent(sb, s.blocks, s.inodes, s.owner)
    && var final := RecoverState(a, last, Count(last[a.start]) + 1);
       Count(final[a.start]) == 0 && OnDisk(sb, final, s.blocks, s.inodes)
  }

  /** Each transaction is all or nothing: it is there exactly from the write of the header on. */
  lemma CrashInCommits(sb: Layout, a: Area, snaps: seq<Snap>, disks: seq<DiskState>, commits: seq<Commit>, c: Commit,
                       k: nat, crashes: seq<DiskState>)
    requires Transactions(sb, snaps, 1) && Consistent(sb, snaps[0].blocks, snaps[0].inodes, snaps[0].owner)
    requires Crash(sb, a, snaps, disks, commits, c, k, crashes)
    ensures Recovers(sb, a, crashes[|crashes| - 1], snaps[if k <= |c.blocks| then |disks| - 1 else |disks|])
  {
    hide OnDisk, Commits, CommitState, RecoverState, HeaderBlocks, Consistent, Covered, InFs;
    var t := |disks|;
    BetweenTransactions(sb, a, snaps, disks, commits, t - 1);
    assert Transaction(sb, snaps[t - 1], snaps[t]);
    if t - 1 > 0 {
      assert Transaction(sb, snaps[t - 2], snaps[t - 1]);
    }
    CrashInTransaction(sb, a, snaps[t - 1], snaps[t], disks[t - 1], c, k, crashes);
  }

  // Operations that share a commit.

  /** Two transactions that follow on each other are one. */
  lemma Joined(sb: Layout, s: Snap, s1: Snap, l: set<nat>, s2: Snap)
    requires Transaction(sb, s, Snap(s1.blocks, s1.inodes, s1.owner, l)) && Transaction(sb, s1, s2)
    ensures Transaction(sb, s, Snap(s2.blocks, s2.inodes, s2.owner, l + s2.logged))
  {
    hide Consistent, Tidy;
    CoveredMore(s.blocks, s1.blocks, l, l + s2.logged);
    CoveredMore(s1.blocks, s2.blocks, s2.logged, l + s2.logged);
    CoveredOn(s.blocks, s1.blocks, s2.blocks, l + s2.logged, l + s2.logged);
    hide Covered;
    forall i | 0 <= i < |s2.inodes| && s2.inodes[i] != s.inodes[i]
      ensures IBlock(sb, i) in l + s2.logged && s2.inodes[i].size <= MAXBYTES
    {
      if s2.inodes[i] == s1.inodes[i] {
        assert s1.inodes[i] != s.inodes[i];
      }
    }
  }

  /** What the transactions after the i-th, up to the j-th, have logged. */
  function LoggedBy(snaps: seq<Snap>, i: nat, j: nat): set<nat>
    requires j < |snaps|
    decreases j
  {
    if j <= i then {} else LoggedBy(snaps, i, j - 1) + snaps[j].logged
  }

  lemma {:induction false} AllJoined(sb: Layout, snaps: seq<Snap>, i: nat, j: nat)
    requires Transactions(sb, snaps, 1) && i < j < |snaps|
    ensures Transaction(sb, snaps[i], Snap(snaps[j].blocks, snaps[j].inodes, snaps[j].owner, LoggedBy(snaps, i, j)))
    decreases j
  {
    hide Transaction;
    assert Transaction(sb, snaps[j - 1], snaps[j]);
    if i + 1 == j {
      assert LoggedBy(snaps, i, i) + snaps[j].logged == snaps[j].logged;
      assert snaps[j] == Snap(snaps[j].blocks, snaps[j].inodes, snaps[j].owner, snaps[j].logged);
    } else {
      AllJoined(sb, snaps, i, j - 1);
      Joined(sb, snaps[i], snaps[j - 1], LoggedBy(snaps, i, j - 1), snaps[j]);
    }
  }

  /** Where the commits come: after the transactions of these numbers. */
  predicate CutsOk(cuts: seq<nat>, n: nat) {
    && cuts != [] && cuts[0] == 0 && (forall t {:trigger cuts[t]} :: 0 <= t < |cuts| ==> cuts[t] < n)
    && forall t {:trigger cuts[t]} :: 0 < t < |cuts| ==> cuts[t - 1] < cuts[t]
  }

  /** The transactions of the log, each of all the operations between two commits. */
  function Grouped(snaps: seq<Snap>, cuts: seq<nat>): (r: seq<Snap>)
    requires CutsOk(cuts, |snaps|)
    ensures |r| == |cuts|
  {
    seq(|cuts|, t requires 0 <= t < |cuts| =>
      var s := snaps[cuts[t]];
      Snap(s.blocks, s.inodes, s.owner, if t == 0 then {} else LoggedBy(snaps, cuts[t - 1], cuts[t])))
  }

  lemma GroupedAt(snaps: seq<Snap>, cuts: seq<nat>, t: nat)
    requires CutsOk(cuts, |snaps|) && 0 < t < |cuts|
    ensures cuts[t - 1] < cuts[t] < |snaps|
    ensures var g, before, s := Grouped(snaps, cuts), snaps[cuts[t - 1]], snaps[cuts[t]];
            && g[t - 1].blocks == before.blocks && g[t - 1].inodes == before.inodes
            && g[t] == Snap(s.blocks, s.inodes, s.owner, LoggedBy(snaps, cuts[t - 1], cuts[t]))
  {
    hide LoggedBy;
  }

  lemma GroupsAreTransactions(sb: Layout, snaps: seq<Snap>, cuts: seq<nat>)
    requires Transactions(sb, snaps, 1) && CutsOk(cuts, |snaps|)
    ensures Transactions(sb, Grouped(snaps, cuts), 1)
  {
    hide LoggedBy, Transaction, Grouped;
    var groups := Grouped(snaps, cuts);
    forall t | 1 <= t < |groups| ensures Transaction(sb, groups[t - 1], groups[t]) {
      GroupedAt(snaps, cuts, t);
      AllJoined(sb, snaps, cuts[t - 1], cuts[t]);
      SameBefore(sb, snaps[cuts[t - 1]], groups[t - 1], groups[t]);
    }
  }

  /** What was logged before is of no concern to a transaction. */
  lemma SameBefore(sb: Layout, s: Snap, s1: Snap, s2: Snap)
    requires Transaction(sb, s, s2) && s1.blocks == s.blocks && s1.inodes == s.inodes
    ensures Transaction(sb, s1, s2)
  {
  }

  /**
   Over a whole run from a consistent file system, with commits after any of its operations: a
   crash anywhere in a commit, with any number of crashes in the recovery, leaves on disk the
   consistent file system as the operations up to the last commit left it, or up to this one. So
   the operations that share a commit are there all together or not at all.
   */
  lemma CrashInRun(sb: Layout, a: Area, snaps: seq<Snap>, cuts: seq<nat>, disks: seq<DiskState>, commits: seq<Commit>,
                   c: Commit, k: nat, crashes: seq<DiskState>)
    requires Transactions(sb, snaps, 1) && Consistent(sb, snaps[0].blocks, snaps[0].inodes, snaps[0].owner)
    requires CutsOk(cuts, |snaps|) && Crash(sb, a, Grouped(snaps, cuts), disks, commits, c, k, crashes)
    ensures Recovers(sb, a, crashes[|crashes| - 1], snaps[cuts[if k <= |c.blocks| then |disks| - 1 else |disks|]])
  {
    hide Transactions, Crash, Consistent, OnDisk, RecoverState, HeaderBlocks, LoggedBy;
    assert |disks| < |Grouped(snaps, cuts)| && 0 < |disks| by {
      CrashLengths(sb, a, Grouped(snaps, cuts), disks, commits, c, k, crashes);
    }
    GroupsAreTransactions(sb, snaps, cuts);
    CrashInCommits(sb, a, Grouped(snaps, cuts), disks, commits, c, k, crashes);
  }

  lemma CrashLengths(sb: Layout, a: Area, snaps: seq<Snap>, disks: seq<DiskState>, commits: seq<Commit>, c: Commit,
                     k: nat, crashes: seq<DiskState>)
    requires Crash(sb, a, snaps, disks, commits, c, k, crashes)
    ensures 0 < |disks| < |snaps| && crashes != []
  {
  }

  /** The same of every crash that can come in a run. */
  ghost predicate CrashSafe(sb: Layout, a: Area, snaps: seq<Snap>) {
    forall cuts: seq<nat>, disks, commits, c, k: nat, crashes
      {:trigger Crash(sb, a, Grouped(snaps, cuts), disks, commits, c, k, crashes)} ::
      CutsOk(cuts, |snaps|) && Crash(sb, a, Grouped(snaps, cuts), disks, commits, c, k, crashes) ==>
        Recovers(sb, a, crashes[|crashes| - 1], snaps[cuts[if k <= |c.blocks| then |disks| - 1 else |disks|]])
  }

  lemma RunIsCrashSafe(sb: Layout, a: Area, snaps: seq<Snap>)
    requires Transactions(sb, snaps, 1) && Consistent(sb, snaps[0].blocks, snaps[0].inodes, snaps[0].owner)
    ensures CrashSafe(sb, a, snaps)
  {
    hide Transactions, Recovers, Consistent, LoggedBy;
    forall cuts: seq<nat>, disks, commits, c, k: nat, crashes |
      CutsOk(cuts, |snaps|) && Crash(sb, a, Grouped(snaps, cuts), disks, commits, c, k, crashes)
      ensures Recovers(sb, a, crashes[|crashes| - 1], snaps[cuts[if k <= |c.blocks| then |disks| - 1 else |disks|]])
    {
      CrashInRun(sb, a, snaps, cuts, disks, commits, c, k, crashes);
    }
  }

  // The disk to begin with.

  /** The blocks, and the first n inodes in their blocks. */
  ghost predicate Formatted(sb: Layout, blocks: seq<Block>, inodes: seq<Inode>, n: nat, d: DiskState) {
    && |d| == |blocks| == sb.size && n <= |inodes| <= sb.ninodes && LayoutOk(sb) && sb.inodestart <= sb.size
    && (forall b {:trigger d[b]} :: 0 <= b < sb.inodestart || sb.bmapstart <= b < sb.size ==> d[b] == blocks[b])
    && (forall i: nat {:trigger IBlock(sb, i)} :: i < |inodes| ==>
          sb.inodestart <= IBlock(sb, i) < sb.bmapstart && IBlock(sb, i) < |d|
            && (i < n ==> InodeIn(d[IBlock(sb, i)], i, inodes[i])))
  }

  /** The disk that holds a file system, outside the inodes' blocks as given. */
  lemma {:induction false} FormattedDisk(sb: Layout, blocks: seq<Block>, inodes: seq<Inode>, owner: seq<Owner>, n: nat)
    returns (d: DiskState)
    requires Consistent(sb, blocks, inodes, owner) && n <= |inodes|
    requires forall i {:trigger inodes[i]} :: 0 <= i < |inodes| ==> inodes[i].size < WORD_LIMIT
    ensures Formatted(sb, blocks, inodes, n, d)
  {
    hide InodeIn, PutFields;
    if n == 0 {
      d := blocks;
      FormattedNone(sb, blocks, inodes, owner);
    } else {
      d := FormattedDisk(sb, blocks, inodes, owner, n - 1);
      d := FormattedNext(sb, blocks, inodes, owner, n - 1, d);
    }
  }

  lemma FormattedNone(sb: Layout, blocks: seq<Block>, inodes: seq<Inode>, owner: seq<Owner>)
    requires Consistent(sb, blocks, inodes, owner)
    ensures Formatted(sb, blocks, inodes, 0, blocks)
  {
    hide InodeIn, Owned, Marked;
    FsBlocks(sb, blocks, inodes, owner, 0, 0);
    forall i: nat | i < |inodes| ensures sb.inodestart <= IBlock(sb, i) < sb.bmapstart && IBlock(sb, i) < sb.size {
      FsBlocks(sb, blocks, inodes, owner, 0, i);
      assert i / IPB <= sb.ninodes / IPB;
    }
  }

  lemma FormattedNext(sb: Layout, blocks: seq<Block>, inodes: seq<Inode>, owner: seq<Owner>, n: nat, d: DiskState)
    returns (d': DiskState)
    requires Consistent(sb, blocks, inodes, owner) && n < |inodes| && inodes[n].size < WORD_LIMIT
    requires Formatted(sb, blocks, inodes, n, d)
    ensures Formatted(sb, blocks, inodes, n + 1, d')
  {
    hide InodeIn, PutFields, Consistent;
    FieldsFit(sb, blocks, inodes, owner, n);
    var at := IBlock(sb, n);
    d' := d[at := PutFields(d[at], n, inodes[n], FIELDS)];
    forall i: nat | i < n + 1 ensures InodeIn(d'[IBlock(sb, i)], i, inodes[i]) {
      PutInode(d[at], n, inodes[n], i, inodes[i]);
      OtherSlot(sb, n, i);
    }
  }

  /** mkfs's image as a disk: the file system is on it, and the log's header, a block of zeroes, is empty. */
  lemma ImageDisk(sb: Layout, a: Area, blocks: seq<Block>, inodes: seq<Inode>, owner: seq<Owner>)
    returns (d: DiskState)
    requires Consistent(sb, blocks, inodes, owner) && LogApart(a, sb) && 0 < a.size
    requires forall i {:trigger inodes[i]} :: 0 <= i < |inodes| ==> inodes[i].size < WORD_LIMIT
    requires a.start < |blocks| && IsZero(blocks[a.start])
    ensures OnDisk(sb, d, blocks, inodes) && Fits(a, d) && Count(d[a.start]) == 0
  {
    hide InodeIn, Owned, Marked, GetWord;
    FsBlocks(sb, blocks, inodes, owner, 0, 0);
    d := FormattedDisk(sb, blocks, inodes, owner, |inodes|);
    ZeroIs(blocks[a.start]);
    ZeroWord(0);
  }
}
