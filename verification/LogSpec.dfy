/**
 The on-disk protocol of kernel/log.c as the sequence of disk states it goes through,
 one per block written, and what a crash at any of them leaves.

 `CommitState(.., k)` is the disk after the first `k` block writes of a commit, and
 `RecoverState(.., k)` the disk after the first `k` block writes of a recovery. The class
 in Log.dfy is proved to produce exactly these states.
 */
module LogSpec {
  import opened Blocks
  import opened BufferCache

  const MAXOPBLOCKS := 10
  const LOGSIZE := MAXOPBLOCKS * 3

  /** Where the log is: a header block at `start`, then `size - 1` log blocks. */
  datatype Area = Area(start: nat, size: nat)

  predicate Fits(a: Area, d: DiskState) {
    0 < a.size && a.start + a.size <= |d|
  }

  /** A block the file system uses, not part of the log. */
  predicate IsHome(a: Area, d: DiskState, c: int) {
    0 <= c < |d| && !(a.start <= c < a.start + a.size)
  }

  /** A list of block numbers that log_write can have built up. */
  predicate IsLogged(a: Area, d: DiskState, blocks: seq<nat>) {
    && |blocks| <= LOGSIZE && |blocks| < a.size
    && Distinct(blocks)
    && forall i :: 0 <= i < |blocks| ==> IsHome(a, d, blocks[i]) && blocks[i] < WORD_LIMIT
  }

  // The header block: a count in word 0, then the block numbers.

  function PutHeader(h: Block, blocks: seq<nat>, k: nat): (r: Block)
    requires k <= |blocks| <= LOGSIZE
    requires forall i :: 0 <= i < |blocks| ==> blocks[i] < WORD_LIMIT
    ensures GetWord(r, 0) == |blocks|
    ensures forall i :: 0 <= i < k ==> GetWord(r, i + 1) == blocks[i]
    ensures forall i :: k < i < WORDS ==> GetWord(r, i) == GetWord(h, i)
  {
    if k == 0 then PutWord(h, 0, |blocks|) else PutWord(PutHeader(h, blocks, k - 1), k, blocks[k - 1])
  }

  function Count(h: Block): Word {
    GetWord(h, 0)
  }

  function HeaderBlocks(h: Block): (blocks: seq<nat>)
    requires Count(h) <= LOGSIZE
    ensures |blocks| == Count(h)
  {
    seq(Count(h), i requires 0 <= i < Count(h) => GetWord(h, i + 1))
  }

  lemma HeaderRoundTrip(h: Block, blocks: seq<nat>)
    requires |blocks| <= LOGSIZE
    requires forall i :: 0 <= i < |blocks| ==> blocks[i] < WORD_LIMIT
    ensures Count(PutHeader(h, blocks, |blocks|)) == |blocks|
    ensures HeaderBlocks(PutHeader(h, blocks, |blocks|)) == blocks
  {}

  predicate HeaderOk(a: Area, d: DiskState) {
    && Fits(a, d)
    && Count(d[a.start]) <= LOGSIZE
    && IsLogged(a, d, HeaderBlocks(d[a.start]))
  }

  // The disk after each block write.

  /** write_log: the first `k` blocks copied into the log. */
  function LogState(a: Area, d: DiskState, data: seq<Block>, k: nat): (r: DiskState)
    requires Fits(a, d) && k <= |data| < a.size
    ensures |r| == |d|
  {
    if k == 0 then d else LogState(a, d, data, k - 1)[a.start + k := data[k - 1]]
  }

  lemma {:induction false} LogStateAt(a: Area, d: DiskState, data: seq<Block>, k: nat, c: nat)
    requires Fits(a, d) && k <= |data| < a.size && c < |d|
    ensures LogState(a, d, data, k)[c] == if a.start < c <= a.start + k then data[c - a.start - 1] else d[c]
  {
    if k > 0 {
      LogStateAt(a, d, data, k - 1, c);
    }
  }

  /** install_trans: the first `k` log blocks copied to their home locations. */
  function InstallState(a: Area, d: DiskState, blocks: seq<nat>, k: nat): (r: DiskState)
    requires Fits(a, d) && IsLogged(a, d, blocks) && k <= |blocks|
    ensures |r| == |d|
  {
    if k == 0 then d
    else
      var r := InstallState(a, d, blocks, k - 1);
      r[blocks[k - 1] := r[a.start + k]]
  }

  lemma {:induction false} InstallStateOther(a: Area, d: DiskState, blocks: seq<nat>, k: nat, c: nat)
    requires Fits(a, d) && IsLogged(a, d, blocks) && k <= |blocks| && c < |d| && c !in blocks[..k]
    ensures InstallState(a, d, blocks, k)[c] == d[c]
  {
    if k > 0 {
      assert blocks[..k] == blocks[..k - 1] + [blocks[k - 1]];
      InstallStateOther(a, d, blocks, k - 1, c);
    }
  }

  lemma {:induction false} InstallStateAt(a: Area, d: DiskState, blocks: seq<nat>, k: nat, i: nat)
    requires Fits(a, d) && IsLogged(a, d, blocks) && i < k <= |blocks|
    ensures InstallState(a, d, blocks, k)[blocks[i]] == d[a.start + 1 + i]
  {
    if i < k - 1 {
      InstallStateAt(a, d, blocks, k - 1, i);
    } else {
      LogNotHome(a, d, blocks[..k - 1], a.start + k);
      InstallStateOther(a, d, blocks, k - 1, a.start + k);
    }
  }

  /** write_head with the given list. */
  function HeadState(a: Area, d: DiskState, blocks: seq<nat>): (r: DiskState)
    requires Fits(a, d) && |blocks| <= LOGSIZE
    requires forall i :: 0 <= i < |blocks| ==> blocks[i] < WORD_LIMIT
    ensures |r| == |d| && forall c {:trigger r[c]} :: 0 <= c < |d| && c != a.start ==> r[c] == d[c]
  {
    d[a.start := PutHeader(d[a.start], blocks, |blocks|)]
  }

  /** A transaction: the blocks a commit writes, with their new data. */
  predicate IsTxn(a: Area, d: DiskState, blocks: seq<nat>, data: seq<Block>) {
    Fits(a, d) && IsLogged(a, d, blocks) && |data| == |blocks|
  }

  function CommitState(a: Area, d: DiskState, blocks: seq<nat>, data: seq<Block>, k: nat): (r: DiskState)
    requires IsTxn(a, d, blocks, data) && k <= 2 * |blocks| + 2
    ensures |r| == |d|
  {
    var n := |blocks|;
    var logged := LogState(a, d, data, n);
    var committed := HeadState(a, logged, blocks);
    if k <= n then LogState(a, d, data, k)
    else if k <= 2 * n + 1 then InstallState(a, committed, blocks, k - n - 1)
    else HeadState(a, InstallState(a, committed, blocks, n), [])
  }

  /** The disk states of the first `k` block writes of write_log. */
  function LogTrace(a: Area, d: DiskState, data: seq<Block>, k: nat): (t: seq<DiskState>)
    requires Fits(a, d) && k <= |data| < a.size
    ensures |t| == k
  {
    if k == 0 then [] else LogTrace(a, d, data, k - 1) + [LogState(a, d, data, k)]
  }

  /** The disk states of the first `k` block writes of install_trans. */
  function InstallTrace(a: Area, d: DiskState, blocks: seq<nat>, k: nat): (t: seq<DiskState>)
    requires Fits(a, d) && IsLogged(a, d, blocks) && k <= |blocks|
    ensures |t| == k
  {
    if k == 0 then [] else InstallTrace(a, d, blocks, k - 1) + [InstallState(a, d, blocks, k)]
  }

  /** All the disk states of a commit, one per block write. */
  function CommitTrace(a: Area, d: DiskState, blocks: seq<nat>, data: seq<Block>): (t: seq<DiskState>)
    requires IsTxn(a, d, blocks, data)
    ensures |t| == if |blocks| == 0 then 0 else 2 * |blocks| + 2
  {
    if |blocks| == 0 then []
    else
      var n := |blocks|;
      var committed := HeadState(a, LogState(a, d, data, n), blocks);
      LogTrace(a, d, data, n) + [committed] + InstallTrace(a, committed, blocks, n) +
      [HeadState(a, InstallState(a, committed, blocks, n), [])]
  }

  function RecoverState(a: Area, d: DiskState, k: nat): (r: DiskState)
    requires HeaderOk(a, d) && k <= Count(d[a.start]) + 1
    ensures |r| == |d|
  {
    var blocks := HeaderBlocks(d[a.start]);
    if k <= |blocks| then InstallState(a, d, blocks, k)
    else HeadState(a, InstallState(a, d, blocks, |blocks|), [])
  }

  /** All the disk states of a recovery. */
  function RecoverTrace(a: Area, d: DiskState): (t: seq<DiskState>)
    requires HeaderOk(a, d)
    ensures |t| == Count(d[a.start]) + 1
  {
    var blocks := HeaderBlocks(d[a.start]);
    InstallTrace(a, d, blocks, |blocks|) + [HeadState(a, InstallState(a, d, blocks, |blocks|), [])]
  }

  lemma {:induction false} LogTraceAt(a: Area, d: DiskState, data: seq<Block>, k: nat, i: nat)
    requires Fits(a, d) && i < k <= |data| < a.size
    ensures LogTrace(a, d, data, k)[i] == LogState(a, d, data, i + 1)
  {
    if i < k - 1 {
      LogTraceAt(a, d, data, k - 1, i);
    }
  }

  lemma {:induction false} InstallTraceAt(a: Area, d: DiskState, blocks: seq<nat>, k: nat, i: nat)
    requires Fits(a, d) && IsLogged(a, d, blocks) && i < k <= |blocks|
    ensures InstallTrace(a, d, blocks, k)[i] == InstallState(a, d, blocks, i + 1)
  {
    if i < k - 1 {
      InstallTraceAt(a, d, blocks, k - 1, i);
    }
  }

  lemma {:induction false} LogTracePrefix(a: Area, d: DiskState, data: seq<Block>, k: nat, i: nat)
    requires Fits(a, d) && i <= k <= |data| < a.size
    ensures LogTrace(a, d, data, k)[..i] == LogTrace(a, d, data, i)
  {
    if i < k {
      LogTracePrefix(a, d, data, k - 1, i);
    }
  }

  lemma {:induction false} InstallTracePrefix(a: Area, d: DiskState, blocks: seq<nat>, k: nat, i: nat)
    requires Fits(a, d) && IsLogged(a, d, blocks) && i <= k <= |blocks|
    ensures InstallTrace(a, d, blocks, k)[..i] == InstallTrace(a, d, blocks, i)
  {
    if i < k {
      InstallTracePrefix(a, d, blocks, k - 1, i);
    }
  }

  /** What a commit cut short in write_log has written. */
  lemma CommitTraceLogging(a: Area, d: DiskState, blocks: seq<nat>, data: seq<Block>, i: nat)
    requires IsTxn(a, d, blocks, data) && i <= |blocks|
    ensures LogTrace(a, d, data, i) <= CommitTrace(a, d, blocks, data)
  {
    LogTracePrefix(a, d, data, |blocks|, i);
  }

  /** What a recovery cut short in install_trans has written. */
  lemma RecoverTraceInstalling(a: Area, d: DiskState, i: nat)
    requires HeaderOk(a, d) && i <= Count(d[a.start])
    ensures InstallTrace(a, d, HeaderBlocks(d[a.start]), i) <= RecoverTrace(a, d)
  {
    InstallTracePrefix(a, d, HeaderBlocks(d[a.start]), Count(d[a.start]), i);
  }

  /** After the header write a commit writes what a recovery would. */
  lemma CommitTraceInstalling(a: Area, d: DiskState, blocks: seq<nat>, data: seq<Block>, committed: DiskState,
                              w: seq<DiskState>)
    requires IsTxn(a, d, blocks, data) && blocks != []
    requires committed == HeadState(a, LogState(a, d, data, |blocks|), blocks)
    requires HeaderOk(a, committed) && HeaderBlocks(committed[a.start]) == blocks
    requires w <= RecoverTrace(a, committed)
    ensures LogTrace(a, d, data, |blocks|) + [committed] + w <= CommitTrace(a, d, blocks, data)
    ensures w == RecoverTrace(a, committed) ==>
              LogTrace(a, d, data, |blocks|) + [committed] + w == CommitTrace(a, d, blocks, data)
  {
    assert CommitTrace(a, d, blocks, data) == LogTrace(a, d, data, |blocks|) + [committed] + RecoverTrace(a, committed);
  }

  lemma CommitTraceAt(a: Area, d: DiskState, blocks: seq<nat>, data: seq<Block>, k: nat)
    requires IsTxn(a, d, blocks, data) && k < |CommitTrace(a, d, blocks, data)|
    ensures CommitTrace(a, d, blocks, data)[k] == CommitState(a, d, blocks, data, k + 1)
  {
    var n := |blocks|;
    if k < n {
      LogTraceAt(a, d, data, n, k);
    } else if n < k < 2 * n + 1 {
      InstallTraceAt(a, HeadState(a, LogState(a, d, data, n), blocks), blocks, n, k - n - 1);
    }
  }

  lemma RecoverTraceAt(a: Area, d: DiskState, k: nat)
    requires HeaderOk(a, d) && k < |RecoverTrace(a, d)|
    ensures RecoverTrace(a, d)[k] == RecoverState(a, d, k + 1)
  {
    var n := Count(d[a.start]);
    if k < n {
      InstallTraceAt(a, d, HeaderBlocks(d[a.start]), n, k);
    }
  }

  // What a disk stands for: the file system that recovery would make of it.

  /** The home blocks of `m` are those of `d` with the blocks its header lists taken from the log. */
  ghost predicate StandsFor(a: Area, d: DiskState, m: DiskState) {
    && HeaderOk(a, d) && |m| == |d|
    && var blocks := HeaderBlocks(d[a.start]);
       && (forall i {:trigger m[blocks[i]]} :: 0 <= i < |blocks| ==> m[blocks[i]] == d[a.start + 1 + i])
       && (forall c {:trigger m[c]} :: IsHome(a, d, c) && c !in blocks ==> m[c] == d[c])
  }

  ghost predicate SameHome(a: Area, d: DiskState, m: DiskState) {
    |m| == |d| && forall c {:trigger m[c]} :: IsHome(a, d, c) ==> m[c] == d[c]
  }

  /** `m` after the transaction: its blocks replaced, all others kept. */
  ghost predicate IsAfter(a: Area, d: DiskState, blocks: seq<nat>, data: seq<Block>, m: DiskState)
    requires IsTxn(a, d, blocks, data)
  {
    && |m| == |d|
    && (forall i {:trigger m[blocks[i]]} :: 0 <= i < |blocks| ==> m[blocks[i]] == data[i])
    && (forall c {:trigger m[c]} :: IsHome(a, d, c) && c !in blocks ==> m[c] == d[c])
  }

  lemma LoggedFrame(a: Area, d: DiskState, d': DiskState, blocks: seq<nat>)
    requires |d| == |d'| && IsLogged(a, d, blocks)
    ensures IsLogged(a, d', blocks)
  {
    forall i | 0 <= i < |blocks| ensures IsHome(a, d', blocks[i]) {
      assert IsHome(a, d, blocks[i]);
    }
  }

  /** With an empty header a disk stands for itself. */
  lemma EmptyStandsFor(a: Area, d: DiskState, m: DiskState)
    requires Fits(a, d) && Count(d[a.start]) == 0
    ensures StandsFor(a, d, m) <==> SameHome(a, d, m)
  {}

  /** Installing from the log leaves what the disk stands for: recovery is idempotent at every write. */
  lemma InstallStandsFor(a: Area, d: DiskState, m: DiskState, k: nat)
    requires StandsFor(a, d, m) && k <= Count(d[a.start])
    ensures StandsFor(a, InstallState(a, d, HeaderBlocks(d[a.start]), k), m)
  {
    var blocks := HeaderBlocks(d[a.start]);
    var r := InstallState(a, d, blocks, k);
    forall c | a.start <= c < a.start + a.size ensures r[c] == d[c] {
      LogNotHome(a, d, blocks[..k], c);
      InstallStateOther(a, d, blocks, k, c);
    }
    assert r[a.start] == d[a.start];
    LoggedFrame(a, d, r, blocks);
    forall c | IsHome(a, r, c) && c !in blocks ensures m[c] == r[c] {
      InstallStateOther(a, d, blocks, k, c);
      assert IsHome(a, d, c);
    }
  }

  lemma LogNotHome(a: Area, d: DiskState, blocks: seq<nat>, c: int)
    requires a.start <= c < a.start + a.size
    requires forall i :: 0 <= i < |blocks| ==> IsHome(a, d, blocks[i])
    ensures c !in blocks
  {}

  lemma RecoverStandsFor(a: Area, d: DiskState, m: DiskState, k: nat)
    requires StandsFor(a, d, m) && k <= Count(d[a.start]) + 1
    ensures StandsFor(a, RecoverState(a, d, k), m)
    ensures k == Count(d[a.start]) + 1 ==>
              SameHome(a, RecoverState(a, d, k), m) && Count(RecoverState(a, d, k)[a.start]) == 0
  {
    var n := Count(d[a.start]);
    if k <= n {
      InstallStandsFor(a, d, m, k);
    } else {
      var blocks := HeaderBlocks(d[a.start]);
      var r := RecoverState(a, d, k);
      forall c | IsHome(a, r, c) ensures m[c] == r[c] {
        assert IsHome(a, d, c) && blocks[..n] == blocks;
        if c in blocks {
          var i :| 0 <= i < |blocks| && blocks[i] == c;
          InstallStateAt(a, d, blocks, n, i);
          assert m[blocks[i]] == d[a.start + 1 + i];
        } else {
          InstallStateOther(a, d, blocks, n, c);
        }
      }
      EmptyStandsFor(a, r, m);
    }
  }

  /** Once the header lists the transaction, the disk stands for the new file system. */
  lemma CommittedStandsFor(a: Area, d: DiskState, blocks: seq<nat>, data: seq<Block>, committed: DiskState,
                           m: DiskState)
    requires IsTxn(a, d, blocks, data) && IsAfter(a, d, blocks, data, m)
    requires committed == HeadState(a, LogState(a, d, data, |blocks|), blocks)
    ensures StandsFor(a, committed, m)
    ensures HeaderBlocks(committed[a.start]) == blocks
  {
    hide LogState, GetWord, PutWord, HeaderBlocks, PutHeader, Distinct;
    LogStateAt(a, d, data, |blocks|, a.start);
    HeaderRoundTrip(d[a.start], blocks);
    LoggedFrame(a, d, committed, blocks);
    forall i | 0 <= i < |blocks| ensures m[blocks[i]] == committed[a.start + 1 + i] {
      LogStateAt(a, d, data, |blocks|, a.start + 1 + i);
    }
    forall c | IsHome(a, committed, c) && c !in blocks ensures m[c] == committed[c] {
      LogStateAt(a, d, data, |blocks|, c);
      assert IsHome(a, d, c);
    }
  }

  /** While the log is being written the header is empty, so the disk stands for itself. */
  lemma LoggingStandsFor(a: Area, d: DiskState, data: seq<Block>, k: nat, m: DiskState)
    requires Fits(a, d) && k <= |data| < a.size && Count(d[a.start]) == 0 && SameHome(a, d, m)
    ensures StandsFor(a, LogState(a, d, data, k), m)
  {
    var r := LogState(a, d, data, k);
    LogStateAt(a, d, data, k, a.start);
    forall c | IsHome(a, r, c) ensures m[c] == r[c] {
      LogStateAt(a, d, data, k, c);
      assert IsHome(a, d, c);
    }
    EmptyStandsFor(a, r, m);
  }

  /** After the header write a commit does what recovery would do. */
  lemma CommitIsRecover(a: Area, d: DiskState, blocks: seq<nat>, data: seq<Block>, k: nat, committed: DiskState)
    requires IsTxn(a, d, blocks, data) && |blocks| < k <= 2 * |blocks| + 2
    requires committed == HeadState(a, LogState(a, d, data, |blocks|), blocks)
    requires HeaderOk(a, committed) && HeaderBlocks(committed[a.start]) == blocks
    ensures CommitState(a, d, blocks, data, k) == RecoverState(a, committed, k - |blocks| - 1)
  {}

  /** From the header write on a commit leaves the new file system. */
  lemma CommitNew(a: Area, d: DiskState, blocks: seq<nat>, data: seq<Block>, k: nat, m: DiskState)
    requires IsTxn(a, d, blocks, data) && |blocks| < k <= 2 * |blocks| + 2
    requires IsAfter(a, d, blocks, data, m)
    ensures StandsFor(a, CommitState(a, d, blocks, data, k), m)
  {
    var committed := HeadState(a, LogState(a, d, data, |blocks|), blocks);
    CommittedStandsFor(a, d, blocks, data, committed, m);
    CommitIsRecover(a, d, blocks, data, k, committed);
    RecoverStandsFor(a, committed, m, k - |blocks| - 1);
  }

  /** Before the header write a commit leaves the old file system, from then on the new one. */
  lemma CommitStandsFor(a: Area, d: DiskState, blocks: seq<nat>, data: seq<Block>, k: nat, m: DiskState)
    requires IsTxn(a, d, blocks, data) && k <= 2 * |blocks| + 2
    requires Count(d[a.start]) == 0
    requires if k <= |blocks| then SameHome(a, d, m) else IsAfter(a, d, blocks, data, m)
    ensures StandsFor(a, CommitState(a, d, blocks, data, k), m)
  {
    if k <= |blocks| {
      LoggingStandsFor(a, d, data, k, m);
    } else {
      CommitNew(a, d, blocks, data, k, m);
    }
  }

  /** A completed commit leaves the new file system and an empty log. */
  lemma CommitDone(a: Area, d: DiskState, blocks: seq<nat>, data: seq<Block>, m: DiskState)
    requires IsTxn(a, d, blocks, data) && IsAfter(a, d, blocks, data, m)
    ensures var final := CommitState(a, d, blocks, data, 2 * |blocks| + 2);
            SameHome(a, final, m) && Count(final[a.start]) == 0
  {
    CommitNew(a, d, blocks, data, 2 * |blocks| + 2, m);
    EmptyStandsFor(a, CommitState(a, d, blocks, data, 2 * |blocks| + 2), m);
  }

  /** A recovery that crashes after some of its block writes, or completes. */
  ghost predicate Crashed(a: Area, d: DiskState, d': DiskState) {
    HeaderOk(a, d) && exists k :: 0 <= k <= Count(d[a.start]) + 1 && d' == RecoverState(a, d, k)
  }

  ghost predicate CrashedRecoveries(a: Area, disks: seq<DiskState>) {
    0 < |disks| && forall i :: 0 <= i < |disks| - 1 ==> Crashed(a, disks[i], disks[i + 1])
  }

  lemma CrashedStandsFor(a: Area, d: DiskState, d': DiskState, m: DiskState)
    requires Crashed(a, d, d') && StandsFor(a, d, m)
    ensures StandsFor(a, d', m)
  {
    var k :| 0 <= k <= Count(d[a.start]) + 1 && d' == RecoverState(a, d, k);
    RecoverStandsFor(a, d, m, k);
  }

  lemma {:induction false} CrashedRecoveriesStandFor(a: Area, disks: seq<DiskState>, m: DiskState)
    requires CrashedRecoveries(a, disks) && StandsFor(a, disks[0], m)
    ensures StandsFor(a, disks[|disks| - 1], m)
  {
    if |disks| > 1 {
      CrashedStandsFor(a, disks[0], disks[1], m);
      CrashedRecoveriesStandFor(a, disks[1..], m);
    }
  }

  /** The file system after a transaction. */
  ghost function After(a: Area, d: DiskState, blocks: seq<nat>, data: seq<Block>): (m: DiskState)
    requires IsTxn(a, d, blocks, data)
    ensures IsAfter(a, d, blocks, data, m)
  {
    var logged := LogState(a, d, data, |blocks|);
    LoggedFrame(a, d, logged, blocks);
    var m := InstallState(a, logged, blocks, |blocks|);
    assert IsAfter(a, d, blocks, data, m) by {
      forall i | 0 <= i < |blocks| ensures m[blocks[i]] == data[i] {
        InstallStateAt(a, logged, blocks, |blocks|, i);
        LogStateAt(a, d, data, |blocks|, a.start + 1 + i);
      }
      forall c | IsHome(a, d, c) && c !in blocks ensures m[c] == d[c] {
        InstallStateOther(a, logged, blocks, |blocks|, c);
        LogStateAt(a, d, data, |blocks|, c);
      }
    }
    m
  }

  /**
   A crash after any `k` block writes of a commit, then any number of recoveries cut short
   by crashes, then a completed one: every home block is as before the transaction or
   every one is as logged, and it is the latter exactly when the header write was reached.
   */
  lemma CrashAtomicity(a: Area, d: DiskState, blocks: seq<nat>, data: seq<Block>, k: nat, disks: seq<DiskState>)
    requires IsTxn(a, d, blocks, data) && Count(d[a.start]) == 0
    requires k <= 2 * |blocks| + 2
    requires CrashedRecoveries(a, disks) && disks[0] == CommitState(a, d, blocks, data, k)
    ensures var last := disks[|disks| - 1];
            && HeaderOk(a, last)
            && var final := RecoverState(a, last, Count(last[a.start]) + 1);
               && Count(final[a.start]) == 0
               && (k <= |blocks| ==> SameHome(a, d, final))
               && (|blocks| < k ==> IsAfter(a, d, blocks, data, final))
  {
    var m := if k <= |blocks| then d else After(a, d, blocks, data);
    CommitStandsFor(a, d, blocks, data, k, m);
    CrashedRecoveriesStandFor(a, disks, m);
    var last := disks[|disks| - 1];
    RecoverStandsFor(a, last, m, Count(last[a.start]) + 1);
    var final := RecoverState(a, last, Count(last[a.start]) + 1);
    assert |final| == |d|;
    forall c | IsHome(a, d, c) ensures final[c] == m[c] {
      assert IsHome(a, final, c);
    }
    if |blocks| < k {
      forall i | 0 <= i < |blocks| ensures final[blocks[i]] == data[i] {
        assert IsHome(a, d, blocks[i]);
      }
    }
  }
}
