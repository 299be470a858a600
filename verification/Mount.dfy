/**
 A file system as mkfs makes it, in use: whatever is written, read and truncated after that,
 the files behave as plain sequences of bytes.
 */
module Mount {
  import opened Blocks
  import opened FsSpec
  import opened Mkfs
  import B = BufferCache
  import C = CrashFs
  import F = Fs
  import L = LogSpec

  datatype Op = Write(i: nat, at: nat, src: seq<Byte>) | Read(i: nat, off: nat, n: nat) | Truncate(i: nat)
  datatype Reply = Wrote(done: nat) | Got(dst: seq<Byte>) | Truncated

  /** The arguments are within their C types. */
  predicate Typed(op: Op) {
    match op
    case Write(i, at, src) => at < WORD_LIMIT && |src| < WORD_LIMIT / 2
    case Read(i, off, n) => off < WORD_LIMIT && n < WORD_LIMIT
    case Truncate(i) => true
  }

  function Overwritten(f: seq<Byte>, at: nat, bytes: seq<Byte>): (r: seq<Byte>)
    requires at <= |f|
    ensures |r| == if at + |bytes| < |f| then |f| else at + |bytes|
    ensures forall k {:trigger r[k]} :: 0 <= k < |r| ==> r[k] == if at <= k < at + |bytes| then bytes[k - at] else f[k]
  {
    f[..at] + bytes + if at + |bytes| < |f| then f[at + |bytes|..] else []
  }

  function Slice(f: seq<Byte>, off: nat, n: nat): seq<Byte> {
    if off > |f| || off + n >= WORD_LIMIT then [] else f[off..if off + n > |f| then |f| else off + n]
  }

  /** What an operation may answer, and how it may change the files: a write may stop short, and all else is settled. */
  predicate Allowed(op: Op, reply: Reply, files: seq<seq<Byte>>, files': seq<seq<Byte>>) {
    op.i < |files| &&
    var f := files[op.i];
    match op
    case Write(i, at, src) =>
      && reply.Wrote? && reply.done <= |src| && (at > |f| ==> reply.done == 0)
      && files' == if at <= |f| then files[i := Overwritten(f, at, src[..reply.done])] else files
    case Read(i, off, n) => reply == Got(Slice(f, off, n)) && files' == files
    case Truncate(i) => reply.Truncated? && files' == files[i := []]
  }

  /** The inode holds the bytes and has no hole among them. */
  ghost predicate Stores(blocks: seq<Block>, ino: Inode, f: seq<Byte>) {
    && ino.size == |f| && Backed(blocks, ino, |f|)
    && forall k: nat {:trigger ByteAt(blocks, ino, k)} :: k < |f| ==> ByteAt(blocks, ino, k) == f[k]
  }

  ghost predicate Usable(i: nat, n: nat, hole: bool) {
    i < n && (hole ==> i != ROOTINO)
  }

  /** The files of the file system; the root directory is left aside when mkfs has left a hole in it. */
  ghost predicate StoresAll(blocks: seq<Block>, inodes: seq<Inode>, files: seq<seq<Byte>>, hole: bool) {
    |files| == |inodes| && forall i: nat {:trigger inodes[i]} :: Usable(i, |inodes|, hole) ==>
      Stores(blocks, inodes[i], files[i])
  }

  lemma StoresUntouched(blocks: seq<Block>, blocks': seq<Block>, ino: Inode, f: seq<Byte>)
    requires Stores(blocks, ino, f) && Untouched(blocks, blocks', ino) && |blocks'| == |blocks|
    ensures Stores(blocks', ino, f)
  {
    hide ByteAt, Untouched, Addr, Backed;
    UntouchedBacked(blocks, blocks', ino, |f|);
    BackedBound(blocks, ino, |f|);
    forall k: nat | k < |f| ensures ByteAt(blocks', ino, k) == f[k] {
      BytesUntouched(blocks, blocks', ino, k);
    }
  }

  lemma StoresWritten(blocks: seq<Block>, ino: Inode, f: seq<Byte>, blocks': seq<Block>, ino': Inode, at: nat,
                      done: nat, src: seq<Byte>)
    requires Stores(blocks, ino, f) && at <= |f| && done <= |src|
    requires Bytes(blocks, ino, blocks', ino', |f|, at, at + done, src) && Backed(blocks', ino', ino'.size)
    requires ino'.size == if |f| < at + done then at + done else |f|
    ensures Stores(blocks', ino', Overwritten(f, at, src[..done]))
  {
    hide ByteAt, Addr, Backed, Overwritten;
    var g := Overwritten(f, at, src[..done]);
    forall k: nat | k < |g| ensures ByteAt(blocks', ino', k) == g[k] {
      var b := ByteAt(blocks', ino', k);
    }
  }

  lemma StoresNothing(blocks: seq<Block>, ino: Inode)
    requires ino.size == 0
    ensures Stores(blocks, ino, [])
  {
    hide Addr;
  }

  /** A change to one file only. */
  lemma StoresOn(blocks: seq<Block>, inodes: seq<Inode>, files: seq<seq<Byte>>, blocks': seq<Block>,
                 inodes': seq<Inode>, hole: bool, i: nat, f: seq<Byte>)
    requires StoresAll(blocks, inodes, files, hole) && |inodes'| == |inodes| && |blocks'| == |blocks| && i < |inodes|
    requires Stores(blocks', inodes'[i], f)
    requires forall j {:trigger inodes'[j]} :: 0 <= j < |inodes'| && j != i ==>
               inodes'[j] == inodes[j] && Untouched(blocks, blocks', inodes'[j])
    ensures StoresAll(blocks', inodes', files[i := f], hole)
  {
    hide Stores, Untouched;
    forall j: nat | Usable(j, |inodes'|, hole) ensures Stores(blocks', inodes'[j], files[i := f][j]) {
      if j != i {
        assert inodes'[j] == inodes[j];
        StoresUntouched(blocks, blocks', inodes[j], files[j]);
      }
    }
  }

  method DoWrite(fs: F.Fs, i: nat, at: nat, src: seq<Byte>, ghost files: seq<seq<Byte>>, ghost hole: bool)
    returns (reply: Reply, ghost files': seq<seq<Byte>>)
    requires fs.Valid() && fs.Settled() && StoresAll(fs.blocks, fs.inodes, files, hole)
    requires Usable(i, |fs.inodes|, hole) && Typed(Write(i, at, src))
    modifies fs
    ensures fs.Valid() && fs.Settled() && |fs.inodes| == |old(fs.inodes)|
    ensures StoresAll(fs.blocks, fs.inodes, files', hole)
    ensures Allowed(Write(i, at, src), reply, files, files')
    ensures old(fs.snaps) <= fs.snaps && Transactions(fs.sb, fs.snaps, |old(fs.snaps)|)
  {
    hide ByteAt, Untouched, Backed, Bytes, Consistent, Tidy, InUse, Overwritten, Transaction, Transactions, InFs;
    assert Stores(fs.blocks, fs.inodes[i], files[i]);
    ghost var blocks, inodes, f := fs.blocks, fs.inodes, files[i];
    var ret, done := fs.FileWrite(i, src, at);
    reply, files' := Wrote(done), files;
    if at <= |f| {
      StoresWritten(blocks, inodes[i], f, fs.blocks, fs.inodes[i], at, done, src);
      files' := files[i := Overwritten(f, at, src[..done])];
      Lengths(fs.sb, blocks, inodes, fs.blocks, fs.inodes, old(fs.owner), fs.owner);
      StoresOn(blocks, inodes, files, fs.blocks, fs.inodes, hole, i, Overwritten(f, at, src[..done]));
    }
  }

  lemma Lengths(sb: Layout, blocks: seq<Block>, inodes: seq<Inode>, blocks': seq<Block>, inodes': seq<Inode>,
                owner: seq<Owner>, owner': seq<Owner>)
    requires Consistent(sb, blocks, inodes, owner) && Consistent(sb, blocks', inodes', owner')
    ensures |blocks'| == |blocks|
  {
    hide Owned, Marked;
  }

  method DoRead(fs: F.Fs, i: nat, off: nat, n: nat, ghost files: seq<seq<Byte>>, ghost hole: bool)
    returns (reply: Reply)
    requires fs.Valid() && fs.Settled() && StoresAll(fs.blocks, fs.inodes, files, hole)
    requires Usable(i, |fs.inodes|, hole) && Typed(Read(i, off, n))
    modifies fs
    ensures fs.Valid() && fs.Settled() && |fs.inodes| == |old(fs.inodes)|
    ensures StoresAll(fs.blocks, fs.inodes, files, hole)
    ensures Allowed(Read(i, off, n), reply, files, files)
    ensures old(fs.snaps) <= fs.snaps && Transactions(fs.sb, fs.snaps, |old(fs.snaps)|)
  {
    hide ByteAt, Backed, Consistent, Tidy, Transaction, InFs;
    NoTransactions(fs.sb, fs.snaps);
    assert Stores(fs.blocks, fs.inodes[i], files[i]);
    var dst := fs.Readi(i, off, n);
    assert dst == Slice(files[i], off, n);
    reply := Got(dst);
  }

  method DoTruncate(fs: F.Fs, i: nat, ghost files: seq<seq<Byte>>, ghost hole: bool)
    returns (reply: Reply, ghost files': seq<seq<Byte>>)
    requires fs.Valid() && fs.Settled() && StoresAll(fs.blocks, fs.inodes, files, hole) && Usable(i, |fs.inodes|, hole)
    modifies fs
    ensures fs.Valid() && fs.Settled() && |fs.inodes| == |old(fs.inodes)|
    ensures StoresAll(fs.blocks, fs.inodes, files', hole)
    ensures Allowed(Truncate(i), reply, files, files')
    ensures old(fs.snaps) <= fs.snaps && Transactions(fs.sb, fs.snaps, |old(fs.snaps)|)
  {
    hide ByteAt, Untouched, Backed, Consistent, Tidy, InUse, Released, Transaction, Transactions, Covered, InFs;
    NoTransactions(fs.sb, fs.snaps);
    var ok := fs.Itrunc(i);
    assert fs.dinodes == fs.inodes;
    ghost var s := Snap(fs.blocks, fs.dinodes, fs.owner, fs.logged);
    OneInode(fs.sb, old(fs.snaps)[|old(fs.snaps)| - 1], s, i);
    TransactionsOn(fs.sb, old(fs.snaps), |old(fs.snaps)|, s);
    fs.EndOp();
    StoresNothing(fs.blocks, fs.inodes[i]);
    Lengths(fs.sb, old(fs.blocks), old(fs.inodes), fs.blocks, fs.inodes, old(fs.owner), fs.owner);
    StoresOn(old(fs.blocks), old(fs.inodes), files, fs.blocks, fs.inodes, hole, i, []);
    reply, files' := Truncated, files[i := []];
  }

  /** The states that the files go through; each operation does to them what it may. */
  ghost predicate Behaves(ops: seq<Op>, replies: seq<Reply>, trace: seq<seq<seq<Byte>>>) {
    && |trace| == |replies| + 1 && |replies| <= |ops|
    && forall t {:trigger ops[t]} :: 0 <= t < |replies| ==> Allowed(ops[t], replies[t], trace[t], trace[t + 1])
  }

  /** Any operations, one after the other. */
  method Run(fs: F.Fs, ops: seq<Op>, ghost files: seq<seq<Byte>>, ghost hole: bool)
    returns (replies: seq<Reply>, ghost trace: seq<seq<seq<Byte>>>)
    requires fs.Valid() && fs.Settled() && StoresAll(fs.blocks, fs.inodes, files, hole)
    requires forall t {:trigger ops[t]} :: 0 <= t < |ops| ==> Typed(ops[t]) && Usable(ops[t].i, |fs.inodes|, hole)
    modifies fs
    ensures fs.Valid() && fs.Settled() && |replies| == |ops| && Behaves(ops, replies, trace) && trace[0] == files
    ensures old(fs.snaps) <= fs.snaps && Transactions(fs.sb, fs.snaps, |old(fs.snaps)|)
    ensures StoresAll(fs.blocks, fs.inodes, trace[|ops|], hole)
  {
    hide StoresAll, Consistent, Tidy, Allowed, Transactions, InFs;
    NoTransactions(fs.sb, fs.snaps);
    replies, trace := [], [files];
    while |replies| < |ops|
      invariant fs.Valid() && fs.Settled() && |fs.inodes| == |old(fs.inodes)|
      invariant Behaves(ops, replies, trace) && trace[0] == files
      invariant old(fs.snaps) <= fs.snaps && Transactions(fs.sb, fs.snaps, |old(fs.snaps)|)
      invariant StoresAll(fs.blocks, fs.inodes, trace[|replies|], hole)
    {
      var t := |replies|;
      var op := ops[t];
      ghost var now, next, snaps := trace[t], trace[t], fs.snaps;
      var reply;
      match op {
        case Write(i, at, src) => reply, next := DoWrite(fs, i, at, src, now, hole);
        case Read(i, off, n) => reply := DoRead(fs, i, off, n, now, hole);
        case Truncate(i) => reply, next := DoTruncate(fs, i, now, hole);
      }
      TransactionsJoin(fs.sb, snaps, fs.snaps, |old(fs.snaps)|);
      replies, trace := replies + [reply], trace + [next];
    }
  }

  ghost function FileBytes(blocks: seq<Block>, ino: Inode): (r: seq<Byte>)
    ensures |r| == ino.size
    ensures forall k: nat {:trigger ByteAt(blocks, ino, k)} :: k < |r| ==> r[k] == ByteAt(blocks, ino, k)
  {
    seq(ino.size, k requires 0 <= k => ByteAt(blocks, ino, k))
  }

  /** The files at first: as given, and the root directory with its last block filled up. */
  ghost function AtFirst(blocks: seq<Block>, inodes: seq<Inode>, given: seq<File>): (r: seq<seq<Byte>>)
    requires |inodes| == |given| + 2 <= 0x1_0000
    ensures |r| == |inodes|
  {
    Planned(given)[ROOTINO := FileBytes(blocks, inodes[ROOTINO])]
  }

  lemma HoldsStores(sb: Layout, blocks: seq<Block>, inodes: seq<Inode>, owner: seq<Owner>, i: nat, f: seq<Byte>)
    requires Consistent(sb, blocks, inodes, owner) && i < |inodes| && Holds(blocks, inodes[i], f)
    ensures Stores(blocks, inodes[i], f)
  {
    hide Addr, Owned, Marked, ByteAt;
    forall bn: nat | bn * BSIZE < |f| ensures 0 < Addr(blocks, inodes[i], bn) < |blocks| {
      var a := Addr(blocks, inodes[i], bn);
      SlotIs(sb.nmeta, blocks, inodes, owner, i, bn);
      OwnedSizes(sb.nmeta, blocks, inodes, owner);
    }
  }

  lemma StoresAtFirst(sb: Layout, blocks: seq<Block>, inodes: seq<Inode>, owner: seq<Owner>, given: seq<File>)
    requires Consistent(sb, blocks, inodes, owner) && |inodes| == |given| + 2 <= 0x1_0000
    requires forall i {:trigger inodes[i]} :: 0 <= i < |given| + 2 && i != ROOTINO ==>
               Holds(blocks, inodes[i], Planned(given)[i])
    requires Backed(blocks, inodes[ROOTINO], inodes[ROOTINO].size) <==> |RootDir(given)| % BSIZE != 0
    ensures StoresAll(blocks, inodes, AtFirst(blocks, inodes, given), |RootDir(given)| % BSIZE == 0)
    ensures forall i {:trigger given[i]} :: 0 <= i < |given| ==> AtFirst(blocks, inodes, given)[i + 2] == given[i].data
  {
    hide Consistent, RootDir, Holds, ByteAt, Addr, Backed;
    var files := AtFirst(blocks, inodes, given);
    forall i: nat | Usable(i, |inodes|, |RootDir(given)| % BSIZE == 0) ensures Stores(blocks, inodes[i], files[i]) {
      if i != ROOTINO {
        HoldsStores(sb, blocks, inodes, owner, i, files[i]);
      }
    }
  }

  /**
   From an image of mkfs on: `made` says whether there is one, the files are then those given,
   and they behave as byte sequences whatever is done to them. At the end, as all along, no block
   stands in two places and the bitmap marks exactly the blocks in use; `snaps` are the image and
   what each transaction has made of it.
   */
  method MakeAndRun(fssize: nat, ninodes: nat, nlog: nat, given: seq<File>, ops: seq<Op>)
    returns (made: bool, replies: seq<Reply>, sb: Layout, blocks: seq<Block>, inodes: seq<Inode>,
             ghost owner: seq<Owner>, ghost trace: seq<seq<seq<Byte>>>, ghost snaps: seq<Snap>,
             ghost disk: B.DiskState)
    requires Metas(fssize, ninodes, nlog) <= fssize < WORD_LIMIT && |given| + 2 <= ninodes <= 0x1_0000
    requires forall t {:trigger ops[t]} :: 0 <= t < |ops| ==>
               Typed(ops[t]) && Usable(ops[t].i, |given| + 2, |RootDir(given)| % BSIZE == 0)
    ensures made <==> Fits(Metas(fssize, ninodes, nlog), fssize, given)
    ensures made ==> |replies| == |ops| && Behaves(ops, replies, trace) && |trace[0]| == |given| + 2
    ensures made ==> forall i {:trigger given[i]} :: 0 <= i < |given| ==> trace[0][i + 2] == given[i].data
    ensures made ==> sb.size == fssize && sb.nmeta == Metas(fssize, ninodes, nlog) && sb.inodestart == 2 + nlog
    ensures made ==> Consistent(sb, blocks, inodes, owner) && Tidy(owner)
    ensures made ==> Transactions(sb, snaps, 1) && Consistent(sb, snaps[0].blocks, snaps[0].inodes, snaps[0].owner)
    ensures made ==> snaps[|snaps| - 1].blocks == blocks && snaps[|snaps| - 1].inodes == inodes
    ensures made ==> StoresAll(blocks, inodes, trace[|ops|], |RootDir(given)| % BSIZE == 0)
    ensures made && 0 < nlog ==>
              && C.OnDisk(sb, disk, snaps[0].blocks, snaps[0].inodes) && L.Fits(L.Area(2, nlog), disk)
              && L.Count(disk[2]) == 0 && C.LogApart(L.Area(2, nlog), sb) && C.CrashSafe(sb, L.Area(2, nlog), snaps)
  {
    hide Consistent, Tidy, Fits, RootDir, Planned, Allowed, Backed, Holds, ByteAt, StoresAll, AtFirst, Transactions,
         InFs, C.OnDisk, C.CrashSafe;
    replies, trace, sb, blocks, inodes, owner, snaps, disk := [], [], Layout(0, 0, 0, 0, 0), [], [], [], [], [];
    ghost var hole := |RootDir(given)| % BSIZE == 0;
    var image := Make(fssize, ninodes, nlog, given);
    made := image != null;
    if made {
      var fs := new F.Fs(image.sb, image.blocks, image.inodes, image.owner);
      StoresAtFirst(image.sb, image.blocks, image.inodes, image.owner, given);
      ghost var files := AtFirst(image.blocks, image.inodes, given);
      replies, trace := Run(fs, ops, files, hole);
      sb, blocks, inodes, owner, snaps := fs.sb, fs.blocks, fs.inodes, fs.owner, fs.snaps;
      if 0 < nlog {
        disk := C.ImageDisk(image.sb, L.Area(2, nlog), image.blocks, image.inodes, image.owner);
        C.RunIsCrashSafe(sb, L.Area(2, nlog), snaps);
      }
    }
  }
}
