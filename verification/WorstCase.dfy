/**
 A file system and a write of three blocks' worth, in one transaction of filewrite, that logs ten
 blocks: four data blocks, the block of addresses, four bitmap blocks and the inode's block.
 */
module WorstCase {
  import opened Blocks
  import opened FsSpec
  import opened LogSpec
  import F = Fs
  import Mkfs

  // As mkfs lays it out, with a log of 30 blocks and four bitmap blocks.
  const SB := Layout(3 * BITS + 1, 2036, 32, 160, 164)
  const FILE := 1
  // The write begins in the last block that the inode names and needs three more.
  const OFF := (NDIRECT - 1) * BSIZE + 1
  const N := 3 * BSIZE

  /** Four blocks are free, each with its bit in a bitmap block of its own. */
  predicate IsSpare(b: nat) {
    b == BITS - 1 || b == BITS || b == 3 * BITS - 1 || b == 3 * BITS
  }

  /** The data blocks that are not spare are numbered, */
  function Number(b: nat): int {
    if b < BITS then b - 164 else b - 166
  }

  const NUMBERED := 3 * BITS - 167

  /** by these numbers, */
  function Numbered(u: nat): nat {
    if u < BITS - 165 then u + 164 else u + 166
  }

  /** and belong to files in this order, twelve to each. */
  function OwnerAt(b: nat): Owner {
    if b < SB.nmeta then Meta
    else if IsSpare(b) || Number(b) < 0 then Free
    else Data(Number(b) / NDIRECT + FILE, Number(b) % NDIRECT)
  }

  /** What the proof uses of the file system before the write. */
  ghost predicate Before(blocks: seq<Block>, inodes: seq<Inode>, owner: seq<Owner>) {
    && Consistent(SB, blocks, inodes, owner) && Tidy(owner) && |owner| == SB.size && FILE < |inodes|
    && (forall b {:trigger blocks[b]} :: SB.nmeta <= b < |blocks| ==> IsZero(blocks[b]))
    && (forall b: nat {:trigger owner[b]} :: b < |owner| ==> (owner[b].Free? <==> IsSpare(b)))
    && (forall j {:trigger inodes[j]} :: 0 <= j < |inodes| ==> inodes[j].addrs[NDIRECT] == 0)
    && (forall k {:trigger inodes[FILE].addrs[k]} :: 0 <= k < NDIRECT ==> inodes[FILE].addrs[k] != 0)
    && inodes[FILE].size == OFF
  }

  /** What writei promises of the file system after it. */
  ghost predicate After(blocks: seq<Block>, inodes: seq<Inode>, blocks': seq<Block>, inodes': seq<Inode>,
                        owner': seq<Owner>,
                        logged: set<nat>, src: seq<Byte>, tot: nat)
    requires FILE < |inodes|
  {
    && Consistent(SB, blocks', inodes', owner') && Tidy(owner') && |inodes'| == |inodes| && tot <= |src|
    && (forall j {:trigger inodes'[j]} :: 0 <= j < |inodes'| && j != FILE ==>
         inodes'[j] == inodes[j] && Untouched(blocks, blocks', inodes'[j]))
    && Bytes(blocks, inodes[FILE], blocks', inodes'[FILE], OFF, OFF, OFF + tot, src)
    && Placed(blocks, inodes[FILE], blocks', inodes'[FILE], OFF, OFF + |src|)
    && (tot < |src| ==> forall c: nat {:trigger InUse(SB, blocks', c)} :: c < SB.size ==> InUse(SB, blocks', c))
    && (tot < |src| ==> Addr(blocks', inodes'[FILE], (OFF + tot) / BSIZE) == 0)
    && Covered(blocks, blocks', logged) && IBlock(SB, FILE) in logged && |logged| <= WriteCost(OFF, |src|)
  }

  /** A block that was spare is in use only as the block of addresses or as one of the three new blocks. */
  lemma SpareGoesTo(blocks: seq<Block>, inodes: seq<Inode>, owner: seq<Owner>, blocks': seq<Block>,
                    inodes': seq<Inode>, owner': seq<Owner>,
                    logged: set<nat>, src: seq<Byte>, tot: nat, b: nat)
    requires Before(blocks, inodes, owner) && After(blocks, inodes, blocks', inodes', owner', logged, src, tot)
    requires |src| == N
    requires IsSpare(b) && InUse(SB, blocks', b)
    ensures b == inodes'[FILE].addrs[NDIRECT] || b == Addr(blocks', inodes'[FILE], 12)
              || b == Addr(blocks', inodes'[FILE], 13) || b == Addr(blocks', inodes'[FILE], 14)
  {
    hide Addr, Untouched, Bytes, Covered, InUse, IBlock, WriteCost, Owned;
    OwnedSizes(SB.nmeta, blocks', inodes', owner');
    MetaBlocks(SB.nmeta, blocks', inodes', owner', b);
    Stands(SB, blocks', inodes', owner', b);
    if owner'[b].Data? {
      var j, k := owner'[b].i, owner'[b].bn;
      if j != FILE {
        assert inodes'[j] == inodes[j];
        SameAddrs(blocks, blocks', inodes'[j]);
        assert Addr(blocks', inodes'[j], k) == Addr(blocks, inodes[j], k);
      }
      if Addr(blocks', inodes'[j], k) == Addr(blocks, inodes[j], k) {
        SlotIs(SB.nmeta, blocks, inodes, owner, j, k);
      } else {
        if k == 11 {
          DirectAddr(blocks, inodes[FILE], k);
        }
        assert 11 <= k <= 14;
      }
    }
  }

  /** A block in use stands where its owner says. */
  lemma Stands(sb: Layout, blocks: seq<Block>, inodes: seq<Inode>, owner: seq<Owner>, b: nat)
    requires Consistent(sb, blocks, inodes, owner) && Tidy(owner) && sb.nmeta <= b < sb.size && InUse(sb, blocks, b)
    ensures b < |owner| && (owner[b].Data? || owner[b].Indirect?) && owner[b].i < |inodes|
    ensures owner[b].Data? ==> owner[b].bn < MAXFILE && Addr(blocks, inodes[owner[b].i], owner[b].bn) == b
    ensures owner[b].Indirect? ==> inodes[owner[b].i].addrs[NDIRECT] == b
  {
    hide Addr, InUse;
    assert OwnerOk(sb.nmeta, blocks, inodes, owner, b);
  }

  /** The write does not run out of blocks: four are spare and it needs no more. */
  lemma Completes(blocks: seq<Block>, inodes: seq<Inode>, owner: seq<Owner>, blocks': seq<Block>, inodes': seq<Inode>,
                  owner': seq<Owner>,
                  logged: set<nat>, src: seq<Byte>, tot: nat)
    requires Before(blocks, inodes, owner) && After(blocks, inodes, blocks', inodes', owner', logged, src, tot)
    requires |src| == N
    ensures tot == N
  {
    hide Addr, Untouched, Bytes, Covered, InUse, IBlock, WriteCost, Consistent, Tidy;
    DirectAddr(blocks, inodes[FILE], 11);
    assert Addr(blocks', inodes'[FILE], 11) != 0;
    if tot < N {
      SpareGoesTo(blocks, inodes, owner, blocks', inodes', owner', logged, src, tot, BITS - 1);
      SpareGoesTo(blocks, inodes, owner, blocks', inodes', owner', logged, src, tot, BITS);
      SpareGoesTo(blocks, inodes, owner, blocks', inodes', owner', logged, src, tot, 3 * BITS - 1);
      SpareGoesTo(blocks, inodes, owner, blocks', inodes', owner', logged, src, tot, 3 * BITS);
      assert false;
    }
  }

  /** Block bn of the file holds what was written, so it is logged. */
  lemma DataLogged(blocks: seq<Block>, inodes: seq<Inode>, owner: seq<Owner>, blocks': seq<Block>,
                   inodes': seq<Inode>, owner': seq<Owner>,
                   logged: set<nat>, src: seq<Byte>, bn: nat)
    requires Before(blocks, inodes, owner) && After(blocks, inodes, blocks', inodes', owner', logged, src, N)
    requires |src| == N
    requires (forall k {:trigger src[k]} :: 0 <= k < N ==> src[k] == 1) && 11 <= bn <= 14
    ensures var a := Addr(blocks', inodes'[FILE], bn);
              SB.nmeta <= a < SB.size && a in logged && a < |owner'| && owner'[a] == Data(FILE, bn)
  {
    hide Addr, Untouched, InUse, IBlock, WriteCost, Owned, Placed;
    var k := if bn == 11 then OFF else bn * BSIZE;
    var a := Addr(blocks', inodes'[FILE], bn);
    assert k / BSIZE == bn && ByteAt(blocks', inodes'[FILE], k) == src[k - OFF];
    OwnedSizes(SB.nmeta, blocks', inodes', owner');
    SlotIs(SB.nmeta, blocks', inodes', owner', FILE, bn);
    assert blocks'[a][k % BSIZE] == 1 && blocks[a][k % BSIZE] == 0;
  }

  /** The block of addresses names the new blocks, so it is logged too. */
  lemma TableLogged(blocks: seq<Block>, inodes: seq<Inode>, owner: seq<Owner>, blocks': seq<Block>,
                    inodes': seq<Inode>, owner': seq<Owner>,
                    logged: set<nat>, src: seq<Byte>)
    requires Before(blocks, inodes, owner) && After(blocks, inodes, blocks', inodes', owner', logged, src, N)
    requires Addr(blocks', inodes'[FILE], 12) != 0
    ensures var a := inodes'[FILE].addrs[NDIRECT];
              SB.nmeta <= a < SB.size && a in logged && a < |owner'| && owner'[a] == Indirect(FILE)
  {
    hide Untouched, InUse, IBlock, WriteCost, Owned, Placed, GetWord, Bytes;
    var a := inodes'[FILE].addrs[NDIRECT];
    OwnedSizes(SB.nmeta, blocks', inodes', owner');
    IndirectIs(SB.nmeta, blocks', inodes', owner', FILE);
    ZeroIs(blocks[a]);
    ZeroWord(0);
  }

  /** A block that the file has got was spare. */
  lemma WasSpare(blocks: seq<Block>, inodes: seq<Inode>, owner: seq<Owner>, blocks': seq<Block>, inodes': seq<Inode>,
                 owner': seq<Owner>,
                 logged: set<nat>, src: seq<Byte>, a: nat)
    requires Before(blocks, inodes, owner) && After(blocks, inodes, blocks', inodes', owner', logged, src, N)
    requires SB.nmeta <= a < SB.size && a < |owner'|
    requires owner'[a] == Indirect(FILE) || owner'[a] == Data(FILE, 12) || owner'[a] == Data(FILE, 13)
               || owner'[a] == Data(FILE, 14)
    ensures IsSpare(a)
  {
    hide Addr, Untouched, InUse, IBlock, WriteCost, Owned, Bytes, Covered;
    OwnedSizes(SB.nmeta, blocks, inodes, owner);
    if !IsSpare(a) {
      MetaBlocks(SB.nmeta, blocks, inodes, owner, a);
      var u := InUse(SB, blocks, a);
      Stands(SB, blocks, inodes, owner, a);
      var j, k := owner[a].i, owner[a].bn;
      if j != FILE {
        assert inodes'[j] == inodes[j];
        SameAddrs(blocks, blocks', inodes'[j]);
      } else if NDIRECT <= k {
        NoTable(blocks, inodes[FILE], k);
      }
      assert Addr(blocks', inodes'[j], k) == a;
      SlotIs(SB.nmeta, blocks', inodes', owner', j, k);
      assert false;
    }
  }

  /** The bit of a spare block that is now in use was set, so its bitmap block is logged. */
  lemma BitLogged(blocks: seq<Block>, inodes: seq<Inode>, owner: seq<Owner>, blocks': seq<Block>, inodes': seq<Inode>,
                  owner': seq<Owner>,
                  logged: set<nat>, src: seq<Byte>, a: nat)
    requires Before(blocks, inodes, owner) && After(blocks, inodes, blocks', inodes', owner', logged, src, N)
    requires IsSpare(a) && a < |owner'| && !owner'[a].Free?
    ensures SB.bmapstart + a / BITS in logged
  {
    hide Addr, Untouched, IBlock, WriteCost, Owned, Bytes, Placed, GetBit;
    OwnedSizes(SB.nmeta, blocks, inodes, owner);
    OwnedSizes(SB.nmeta, blocks', inodes', owner');
    var was, now := InUse(SB, blocks, a), InUse(SB, blocks', a);
    assert now && !was;
  }

  lemma TenDistinct(a: nat, b: nat, c: nat, d: nat, e: nat, logged: set<nat>)
    requires {a, b, c, d, e} <= logged && {32, 160, 161, 162, 163} <= logged && 163 < a && 163 < b && 163 < c && 163 < d
    requires 163 < e
    requires a != b && a != c && a != d && a != e && b != c && b != d && b != e && c != d && c != e && d != e
    ensures |logged| >= 10
  {
    var high, low := {a, b, c, d, e}, {32, 160, 161, 162, 163};
    assert |high| == 5 && |low| == 5 && high !! low;
    assert |high + low| == 10;
    Within(high + low, logged);
  }

  /** After a write of ones the transaction has logged ten blocks. */
  lemma Ten(blocks: seq<Block>, inodes: seq<Inode>, owner: seq<Owner>, blocks': seq<Block>, inodes': seq<Inode>,
            owner': seq<Owner>,
            logged: set<nat>, src: seq<Byte>, tot: nat)
    requires Before(blocks, inodes, owner) && After(blocks, inodes, blocks', inodes', owner', logged, src, tot)
    requires |src| == N
    requires forall k {:trigger src[k]} :: 0 <= k < N ==> src[k] == 1
    ensures tot == N && |logged| == 10
  {
    hide Before, After, Addr, WriteCost;
    assert FILE < |inodes| == |inodes'| && |logged| <= WriteCost(OFF, N) && IBlock(SB, FILE) in logged by {
      Bounds(blocks, inodes, owner, blocks', inodes', owner', logged, src, tot);
    }
    Completes(blocks, inodes, owner, blocks', inodes', owner', logged, src, tot);
    ChunkBound(OFF, N);
    DataLogged(blocks, inodes, owner, blocks', inodes', owner', logged, src, 11);
    DataLogged(blocks, inodes, owner, blocks', inodes', owner', logged, src, 12);
    DataLogged(blocks, inodes, owner, blocks', inodes', owner', logged, src, 13);
    DataLogged(blocks, inodes, owner, blocks', inodes', owner', logged, src, 14);
    TableLogged(blocks, inodes, owner, blocks', inodes', owner', logged, src);
    var a, b := Addr(blocks', inodes'[FILE], 12), Addr(blocks', inodes'[FILE], 13);
    var c, d := Addr(blocks', inodes'[FILE], 14), inodes'[FILE].addrs[NDIRECT];
    WasSpare(blocks, inodes, owner, blocks', inodes', owner', logged, src, a);
    WasSpare(blocks, inodes, owner, blocks', inodes', owner', logged, src, b);
    WasSpare(blocks, inodes, owner, blocks', inodes', owner', logged, src, c);
    WasSpare(blocks, inodes, owner, blocks', inodes', owner', logged, src, d);
    BitLogged(blocks, inodes, owner, blocks', inodes', owner', logged, src, a);
    BitLogged(blocks, inodes, owner, blocks', inodes', owner', logged, src, b);
    BitLogged(blocks, inodes, owner, blocks', inodes', owner', logged, src, c);
    BitLogged(blocks, inodes, owner, blocks', inodes', owner', logged, src, d);
    BitsOf(a, b, c, d, logged);
    TenDistinct(Addr(blocks', inodes'[FILE], 11), a, b, c, d, logged);
  }

  lemma Bounds(blocks: seq<Block>, inodes: seq<Inode>, owner: seq<Owner>, blocks': seq<Block>, inodes': seq<Inode>,
               owner': seq<Owner>,
               logged: set<nat>, src: seq<Byte>, tot: nat)
    requires Before(blocks, inodes, owner) && After(blocks, inodes, blocks', inodes', owner', logged, src, tot)
    ensures FILE < |inodes| == |inodes'| && |logged| <= WriteCost(OFF, |src|) && IBlock(SB, FILE) in logged
  {
  }

  /** The four spare blocks have their bits in the four bitmap blocks. */
  lemma BitsOf(a: nat, b: nat, c: nat, d: nat, logged: set<nat>)
    requires IsSpare(a) && IsSpare(b) && IsSpare(c) && IsSpare(d) && a != b && a != c && a != d && b != c && b != d
    requires c != d
    requires SB.bmapstart + a / BITS in logged && SB.bmapstart + b / BITS in logged
    requires SB.bmapstart + c / BITS in logged && SB.bmapstart + d / BITS in logged
    ensures {160, 161, 162, 163} <= logged
  {
    assert (BITS - 1) / BITS == 0 && BITS / BITS == 1 && (3 * BITS - 1) / BITS == 2 && 3 * BITS / BITS == 3;
  }

  // Such a file system.

  function AddrAt(j: nat, k: nat): nat {
    if FILE <= j && k < NDIRECT && NDIRECT * (j - FILE) + k < NUMBERED then Numbered(NDIRECT * (j - FILE) + k) else 0
  }

  function InodeAt(j: nat): (ino: Inode)
    ensures forall k {:trigger ino.addrs[k]} :: 0 <= k <= NDIRECT ==> ino.addrs[k] == AddrAt(j, k)
  {
    Inode(if j == FILE then OFF else 0, seq(NDIRECT + 1, k requires 0 <= k <= NDIRECT => AddrAt(j, k)))
  }

  /** The first k bits of bitmap block q. */
  function Marks(zero: Block, q: nat, k: nat): Block
    requires k <= BITS
  {
    if k == 0 then zero
    else if OwnerAt(q * BITS + k - 1).Free? then Marks(zero, q, k - 1)
    else SetBit(Marks(zero, q, k - 1), k - 1)
  }

  lemma {:induction false} MarksAt(zero: Block, q: nat, k: nat, r: nat)
    requires k <= BITS && r < BITS && zero == ZERO
    ensures GetBit(Marks(zero, q, k), r) <==> r < k && !OwnerAt(q * BITS + r).Free?
  {
    hide GetBit, OwnerAt, SetBit;
    if k == 0 {
      ZeroBit(r);
    } else {
      MarksAt(zero, q, k - 1, r);
    }
  }

  function BlockAt(zero: Block, b: nat): Block {
    if 160 <= b < 164 then Marks(zero, b - 160, BITS) else zero
  }

  lemma StartMarked(zero: Block, blocks: seq<Block>, owner: seq<Owner>)
    requires zero == ZERO && |blocks| == |owner| == SB.size
    requires forall b {:trigger blocks[b]} :: 0 <= b < SB.size ==> blocks[b] == BlockAt(zero, b)
    requires forall b {:trigger owner[b]} :: 0 <= b < SB.size ==> owner[b] == OwnerAt(b)
    ensures Marked(SB, blocks, owner)
  {
    hide GetBit, OwnerAt, Marks;
    forall b: nat | b < SB.size ensures InUse(SB, blocks, b) <==> !owner[b].Free? {
      assert b / BITS <= 3 && b == b / BITS * BITS + b % BITS;
      MarksAt(zero, b / BITS, BITS, b % BITS);
    }
  }

  lemma StartOwned(zero: Block, blocks: seq<Block>, inodes: seq<Inode>, owner: seq<Owner>)
    requires |blocks| == |owner| == SB.size && |inodes| == SB.ninodes
    requires forall j {:trigger inodes[j]} :: 0 <= j < |inodes| ==> inodes[j] == InodeAt(j)
    requires forall b {:trigger owner[b]} :: 0 <= b < SB.size ==> owner[b] == OwnerAt(b)
    ensures Owned(SB.nmeta, blocks, inodes, owner)
  {
    hide GetWord, InodeAt;
    forall j: nat, bn: nat ensures SlotOk(blocks, inodes, owner, j, bn) {
      if j < |inodes| && bn < NDIRECT {
        var u := NDIRECT * (j - FILE) + bn;
        assert inodes[j].addrs[bn] != 0 ==> Number(Numbered(u)) == u && u / NDIRECT == j - FILE && u % NDIRECT == bn;
      }
    }
    forall b: nat ensures OwnerOk(SB.nmeta, blocks, inodes, owner, b) {
      if b < |owner| && owner[b].Data? {
        var u := Number(b);
        assert Numbered(u) == b && u / NDIRECT + FILE < SB.ninodes && NDIRECT * (u / NDIRECT) + u % NDIRECT == u;
      }
    }
  }

  lemma StartIs(zero: Block, blocks: seq<Block>, inodes: seq<Inode>, owner: seq<Owner>)
    requires zero == ZERO && |blocks| == |owner| == SB.size && |inodes| == SB.ninodes
    requires forall b {:trigger blocks[b]} :: 0 <= b < SB.size ==> blocks[b] == BlockAt(zero, b)
    requires forall j {:trigger inodes[j]} :: 0 <= j < |inodes| ==> inodes[j] == InodeAt(j)
    requires forall b {:trigger owner[b]} :: 0 <= b < SB.size ==> owner[b] == OwnerAt(b)
    ensures Before(blocks, inodes, owner)
  {
    hide Owned, Marked, Marks;
    StartMarked(zero, blocks, owner);
    StartOwned(zero, blocks, inodes, owner);
    ZeroIs(zero);
  }

  lemma StartBacked(blocks: seq<Block>, inodes: seq<Inode>, owner: seq<Owner>)
    requires Before(blocks, inodes, owner)
    ensures Backed(blocks, inodes[FILE], OFF)
  {
    hide Addr, Owned, Marked;
    OwnedSizes(SB.nmeta, blocks, inodes, owner);
    forall bn: nat | bn * BSIZE < OFF ensures 0 < Addr(blocks, inodes[FILE], bn) < |blocks| {
      DirectAddr(blocks, inodes[FILE], bn);
      SlotIs(SB.nmeta, blocks, inodes, owner, FILE, bn);
    }
  }

  /** In a consistent file system one chunk of filewrite, which writei writes in full, logs ten blocks. */
  method LogsTen() returns (fs: F.Fs, tot: int)
    ensures fresh(fs) && fs.Valid() && tot == N && N == (MAXOPBLOCKS - 1 - 1 - 2) / 2 * BSIZE
    ensures |fs.logged| == 10 == MAXOPBLOCKS
    ensures fs.sb.inodestart == 2 + LOGSIZE && fs.sb.bmapstart == fs.sb.inodestart + fs.sb.ninodes / IPB + 1
    ensures fs.sb.nmeta == Mkfs.Metas(fs.sb.size, fs.sb.ninodes, LOGSIZE)
  {
    hide Before, After, Consistent, Tidy, BlockAt, InodeAt, OwnerAt, Bytes, Placed, Covered, InUse, Addr, WriteCost;
    var zero: Block := ZERO;
    var blocks := seq(SB.size, b requires 0 <= b => BlockAt(zero, b));
    var inodes := seq(SB.ninodes, j requires 0 <= j => InodeAt(j));
    ghost var owner := seq(SB.size, b requires 0 <= b => OwnerAt(b));
    StartIs(zero, blocks, inodes, owner);
    Starts(blocks, inodes, owner);
    StartBacked(blocks, inodes, owner);
    fs := new F.Fs(SB, blocks, inodes, owner);
    var src := seq(N, _ => 1);
    tot := fs.Writei(FILE, src, OFF);
    Ends(blocks, inodes, fs.blocks, fs.inodes, fs.owner, fs.logged, src, tot);
    Ten(blocks, inodes, owner, fs.blocks, fs.inodes, fs.owner, fs.logged, src, tot);
  }

  lemma Starts(blocks: seq<Block>, inodes: seq<Inode>, owner: seq<Owner>)
    requires Before(blocks, inodes, owner)
    ensures Consistent(SB, blocks, inodes, owner) && Tidy(owner) && FILE < |inodes| && inodes[FILE].size == OFF
  {
  }

  lemma Ends(blocks: seq<Block>, inodes: seq<Inode>, blocks': seq<Block>, inodes': seq<Inode>, owner': seq<Owner>,
             logged: set<nat>, src: seq<Byte>, tot: nat)
    requires FILE < |inodes| == |inodes'| && tot <= |src| && Consistent(SB, blocks', inodes', owner') && Tidy(owner')
    requires forall j {:trigger inodes'[j]} :: 0 <= j < |inodes'| && j != FILE ==>
               inodes'[j] == inodes[j] && Untouched(blocks, blocks', inodes'[j])
    requires Bytes(blocks, inodes[FILE], blocks', inodes'[FILE], OFF, OFF, OFF + tot, src)
    requires Placed(blocks, inodes[FILE], blocks', inodes'[FILE], OFF, OFF + |src|)
    requires tot < |src| ==> forall c: nat {:trigger InUse(SB, blocks', c)} :: c < SB.size ==> InUse(SB, blocks', c)
    requires tot < |src| ==> Addr(blocks', inodes'[FILE], (OFF + tot) / BSIZE) == 0
    requires Covered(blocks, blocks', logged) && IBlock(SB, FILE) in logged && |logged| <= WriteCost(OFF, |src|)
    ensures After(blocks, inodes, blocks', inodes', owner', logged, src, tot)
  {
  }
}
