/**
 What the blocks and inodes of the file system of kernel/fs.c mean: which blocks are in use
 and by what, and the bytes of each file.

 Blocks are taken as the log and the buffer cache present them, a plain map. `owner` records
 what each block is for.
 */
module FsSpec {
  import opened Blocks

  const NDIRECT := 12
  const NINDIRECT := WORDS
  const MAXFILE := NDIRECT + NINDIRECT
  const IPB := 16

  /** The parts of the super block that matter here, and where the data blocks begin. */
  datatype Layout = Layout(size: nat, ninodes: nat, inodestart: nat, bmapstart: nat, nmeta: nat)

  /** Inode blocks, then bitmap blocks for all the blocks there are, all of them before the data blocks. */
  predicate LayoutOk(sb: Layout) {
    && 0 < sb.inodestart && sb.inodestart + sb.ninodes / IPB < sb.bmapstart
    && sb.size < WORD_LIMIT && sb.nmeta <= sb.size
    && (sb.size == 0 || sb.bmapstart + (sb.size - 1) / BITS < sb.nmeta)
  }

  function BBlock(sb: Layout, b: nat): nat {
    sb.bmapstart + b / BITS
  }

  function IBlock(sb: Layout, i: nat): nat {
    sb.inodestart + i / IPB
  }

  lemma BBlockIsMeta(sb: Layout, b: nat)
    requires LayoutOk(sb) && b < sb.size
    ensures sb.bmapstart <= BBlock(sb, b) < sb.nmeta
  {
  }

  type Addrs = a: seq<nat> | |a| == NDIRECT + 1 witness seq(NDIRECT + 1, _ => 0)

  datatype Inode = Inode(size: nat, addrs: Addrs)

  /** The block that holds block bn of a file; 0 when there is none. */
  function Addr(blocks: seq<Block>, ino: Inode, bn: nat): nat {
    if bn < NDIRECT then ino.addrs[bn]
    else if bn < MAXFILE && 0 < ino.addrs[NDIRECT] < |blocks| then GetWord(blocks[ino.addrs[NDIRECT]], bn - NDIRECT)
    else 0
  }

  datatype Owner = Free | Meta | Loose | Data(i: nat, bn: nat) | Indirect(i: nat)

  predicate SlotOk(blocks: seq<Block>, inodes: seq<Inode>, owner: seq<Owner>, i: nat, bn: nat) {
    i < |inodes| && bn < MAXFILE ==>
      var a := Addr(blocks, inodes[i], bn);
      a != 0 ==> a < |owner| && owner[a] == Data(i, bn)
  }

  predicate IndirectOk(inodes: seq<Inode>, owner: seq<Owner>, i: nat) {
    i < |inodes| ==>
      var a := inodes[i].addrs[NDIRECT];
      a != 0 ==> a < |owner| && owner[a] == Indirect(i)
  }

  predicate OwnerOk(nmeta: nat, blocks: seq<Block>, inodes: seq<Inode>, owner: seq<Owner>, b: nat) {
    b < |owner| ==>
      && (owner[b].Meta? <==> b < nmeta)
      && (owner[b].Data? ==>
           owner[b].i < |inodes| && owner[b].bn < MAXFILE && Addr(blocks, inodes[owner[b].i], owner[b].bn) == b)
      && (owner[b].Indirect? ==> owner[b].i < |inodes| && inodes[owner[b].i].addrs[NDIRECT] == b)
  }

  /**
   Every address of every inode is owned by the place it stands in, and every owned block stands
   there: so none stands in two.
   */
  ghost predicate Owned(nmeta: nat, blocks: seq<Block>, inodes: seq<Inode>, owner: seq<Owner>) {
    && |blocks| == |owner| && 0 < nmeta
    && (forall i, bn {:trigger SlotOk(blocks, inodes, owner, i, bn)} :: SlotOk(blocks, inodes, owner, i, bn))
    && (forall i {:trigger IndirectOk(inodes, owner, i)} :: IndirectOk(inodes, owner, i))
    && (forall b {:trigger OwnerOk(nmeta, blocks, inodes, owner, b)} :: OwnerOk(nmeta, blocks, inodes, owner, b))
  }

  predicate InUse(sb: Layout, blocks: seq<Block>, b: nat) {
    BBlock(sb, b) < |blocks| && GetBit(blocks[BBlock(sb, b)], b % BITS)
  }

  /** The bitmap marks the blocks that are not free. */
  ghost predicate Marked(sb: Layout, blocks: seq<Block>, owner: seq<Owner>) {
    forall b: nat {:trigger InUse(sb, blocks, b)} :: b < sb.size && b < |owner| ==>
      (InUse(sb, blocks, b) <==> !owner[b].Free?)
  }

  ghost predicate Consistent(sb: Layout, blocks: seq<Block>, inodes: seq<Inode>, owner: seq<Owner>) {
    && LayoutOk(sb) && |blocks| == sb.size && |inodes| <= sb.ninodes
    && Owned(sb.nmeta, blocks, inodes, owner) && Marked(sb, blocks, owner)
  }

  /** No two places name one block. */
  lemma NoSharing(sb: Layout, blocks: seq<Block>, inodes: seq<Inode>, owner: seq<Owner>, i: nat, bn: nat, j: nat,
                  bm: nat)
    requires Consistent(sb, blocks, inodes, owner) && i < |inodes| && j < |inodes| && bn < MAXFILE && bm < MAXFILE
    ensures Addr(blocks, inodes[i], bn) != 0 && Addr(blocks, inodes[i], bn) == Addr(blocks, inodes[j], bm) ==>
              i == j && bn == bm
    ensures Addr(blocks, inodes[i], bn) != 0 ==> Addr(blocks, inodes[i], bn) != inodes[j].addrs[NDIRECT]
    ensures inodes[i].addrs[NDIRECT] != 0 && inodes[i].addrs[NDIRECT] == inodes[j].addrs[NDIRECT] ==> i == j
    ensures Addr(blocks, inodes[i], bn) != 0 ==>
              sb.nmeta <= Addr(blocks, inodes[i], bn) < sb.size && InUse(sb, blocks, Addr(blocks, inodes[i], bn))
  {
    hide Addr, InUse;
    assert SlotOk(blocks, inodes, owner, i, bn) && SlotOk(blocks, inodes, owner, j, bm);
    assert IndirectOk(inodes, owner, i) && IndirectOk(inodes, owner, j);
    assert OwnerOk(sb.nmeta, blocks, inodes, owner, Addr(blocks, inodes[i], bn));
    var u := InUse(sb, blocks, Addr(blocks, inodes[i], bn));
  }

  // Changes to the bitmap.

  function MarkUsed(sb: Layout, blocks: seq<Block>, b: nat): seq<Block>
    requires BBlock(sb, b) < |blocks|
  {
    blocks[BBlock(sb, b) := SetBit(blocks[BBlock(sb, b)], b % BITS)]
  }

  function MarkFree(sb: Layout, blocks: seq<Block>, b: nat): seq<Block>
    requires BBlock(sb, b) < |blocks|
  {
    blocks[BBlock(sb, b) := ClearBit(blocks[BBlock(sb, b)], b % BITS)]
  }

  lemma SameBit(b: nat, c: nat)
    requires b / BITS == c / BITS && b % BITS == c % BITS
    ensures b == c
  {
  }

  lemma MarkUsedAt(sb: Layout, blocks: seq<Block>, b: nat, c: nat)
    requires BBlock(sb, b) < |blocks|
    ensures InUse(sb, MarkUsed(sb, blocks, b), c) <==> c == b || InUse(sb, blocks, c)
  {
    hide GetBit;
    if c / BITS == b / BITS && c % BITS == b % BITS {
      SameBit(b, c);
    }
  }

  lemma MarkFreeAt(sb: Layout, blocks: seq<Block>, b: nat, c: nat)
    requires BBlock(sb, b) < |blocks|
    ensures InUse(sb, MarkFree(sb, blocks, b), c) <==> c != b && InUse(sb, blocks, c)
  {
    hide GetBit;
    if c / BITS == b / BITS && c % BITS == b % BITS {
      SameBit(b, c);
    }
  }

  // Changes to what is owned.

  /** The block of addresses of a file, if it has one, is as it was. */
  predicate SameIndirect(blocks: seq<Block>, blocks': seq<Block>, ino: Inode) {
    |blocks'| == |blocks|
      && (0 < ino.addrs[NDIRECT] < |blocks| ==> blocks'[ino.addrs[NDIRECT]] == blocks[ino.addrs[NDIRECT]])
  }

  lemma OwnedKeep(nmeta: nat, blocks: seq<Block>, blocks': seq<Block>, inodes: seq<Inode>, owner: seq<Owner>)
    requires Owned(nmeta, blocks, inodes, owner) && |blocks'| == |blocks|
    requires forall i {:trigger inodes[i]} :: 0 <= i < |inodes| ==> SameIndirect(blocks, blocks', inodes[i])
    ensures Owned(nmeta, blocks', inodes, owner)
  {
    hide GetWord;
    forall i: nat, bn: nat ensures SlotOk(blocks', inodes, owner, i, bn) {
      assert SlotOk(blocks, inodes, owner, i, bn);
    }
    forall b: nat ensures OwnerOk(nmeta, blocks', inodes, owner, b) {
      assert OwnerOk(nmeta, blocks, inodes, owner, b);
    }
  }

  /** A block that stands nowhere may be free or loose. */
  lemma OwnedSwitch(nmeta: nat, blocks: seq<Block>, inodes: seq<Inode>, owner: seq<Owner>, b: nat, o: Owner)
    requires Owned(nmeta, blocks, inodes, owner) && b < |owner| && (owner[b].Free? || owner[b].Loose?)
    requires o.Free? || o.Loose?
    ensures Owned(nmeta, blocks, inodes, owner[b := o])
  {
    hide Addr;
    var owner' := owner[b := o];
    forall i: nat, bn: nat ensures SlotOk(blocks, inodes, owner', i, bn) {
      assert SlotOk(blocks, inodes, owner, i, bn);
    }
    forall i: nat ensures IndirectOk(inodes, owner', i) {
      assert IndirectOk(inodes, owner, i);
    }
    forall c: nat ensures OwnerOk(nmeta, blocks, inodes, owner', c) {
      assert OwnerOk(nmeta, blocks, inodes, owner, c);
    }
  }

  function WithAddr(ino: Inode, k: nat, a: nat): Inode
    requires k <= NDIRECT
  {
    ino.(addrs := ino.addrs[k := a])
  }

  lemma OwnedLinkDirect(nmeta: nat, blocks: seq<Block>, inodes: seq<Inode>, owner: seq<Owner>, i: nat, bn: nat, b: nat)
    requires Owned(nmeta, blocks, inodes, owner) && i < |inodes| && bn < NDIRECT && inodes[i].addrs[bn] == 0
    requires 0 < b < |owner| && owner[b].Loose?
    ensures Owned(nmeta, blocks, inodes[i := WithAddr(inodes[i], bn, b)], owner[b := Data(i, bn)])
  {
    hide GetWord;
    var inodes', owner' := inodes[i := WithAddr(inodes[i], bn, b)], owner[b := Data(i, bn)];
    forall j: nat, bm: nat ensures SlotOk(blocks, inodes', owner', j, bm) {
      assert SlotOk(blocks, inodes, owner, j, bm);
    }
    forall j: nat ensures IndirectOk(inodes', owner', j) {
      assert IndirectOk(inodes, owner, j);
    }
    forall c: nat ensures OwnerOk(nmeta, blocks, inodes', owner', c) {
      assert OwnerOk(nmeta, blocks, inodes, owner, c);
    }
  }

  lemma OwnedLinkIndirect(nmeta: nat, blocks: seq<Block>, inodes: seq<Inode>, owner: seq<Owner>, i: nat, b: nat)
    requires Owned(nmeta, blocks, inodes, owner) && i < |inodes| && inodes[i].addrs[NDIRECT] == 0
    requires 0 < b < |owner| && owner[b].Loose? && blocks[b] == ZERO
    ensures Owned(nmeta, blocks, inodes[i := WithAddr(inodes[i], NDIRECT, b)], owner[b := Indirect(i)])
    ensures forall bn {:trigger Addr(blocks, WithAddr(inodes[i], NDIRECT, b), bn)} :: 0 <= bn ==>
              Addr(blocks, WithAddr(inodes[i], NDIRECT, b), bn) == Addr(blocks, inodes[i], bn)
  {
    hide GetWord;
    var inodes', owner' := inodes[i := WithAddr(inodes[i], NDIRECT, b)], owner[b := Indirect(i)];
    forall bn: nat ensures Addr(blocks, inodes'[i], bn) == Addr(blocks, inodes[i], bn) {
      if NDIRECT <= bn < MAXFILE {
        ZeroWord(bn - NDIRECT);
      }
    }
    forall j: nat, bm: nat ensures SlotOk(blocks, inodes', owner', j, bm) {
      assert SlotOk(blocks, inodes, owner, j, bm);
    }
    forall j: nat ensures IndirectOk(inodes', owner', j) {
      assert IndirectOk(inodes, owner, j);
    }
    forall c: nat ensures OwnerOk(nmeta, blocks, inodes', owner', c) {
      assert OwnerOk(nmeta, blocks, inodes, owner, c);
    }
  }

  function PutEntry(blocks: seq<Block>, a: nat, k: nat, b: nat): seq<Block>
    requires a < |blocks| && k < NINDIRECT && b < WORD_LIMIT
  {
    blocks[a := PutWord(blocks[a], k, b)]
  }

  lemma EntryAt(blocks: seq<Block>, ino: Inode, bn: nat, b: nat, bm: nat)
    requires 0 < ino.addrs[NDIRECT] < |blocks| && NDIRECT <= bn < MAXFILE && b < WORD_LIMIT && bm < MAXFILE
    ensures Addr(PutEntry(blocks, ino.addrs[NDIRECT], bn - NDIRECT, b), ino, bm) == if bm == bn then b
              else Addr(blocks, ino, bm)
  {
    hide GetWord;
  }

  lemma OwnedLinkEntry(nmeta: nat, blocks: seq<Block>, inodes: seq<Inode>, owner: seq<Owner>, i: nat, bn: nat, b: nat)
    requires Owned(nmeta, blocks, inodes, owner) && i < |inodes| && NDIRECT <= bn < MAXFILE
    requires 0 < inodes[i].addrs[NDIRECT] < |blocks|
    requires Addr(blocks, inodes[i], bn) == 0 && 0 < b < |owner| && b < WORD_LIMIT && owner[b].Loose?
    ensures Owned(nmeta, PutEntry(blocks, inodes[i].addrs[NDIRECT], bn - NDIRECT, b), inodes, owner[b := Data(i, bn)])
  {
    hide GetWord, PutWord;
    var ind := inodes[i].addrs[NDIRECT];
    var blocks', owner' := PutEntry(blocks, ind, bn - NDIRECT, b), owner[b := Data(i, bn)];
    forall j: nat, bm: nat | j < |inodes| && bm < MAXFILE
      ensures Addr(blocks', inodes[j], bm) == if j == i && bm == bn then b else Addr(blocks, inodes[j], bm)
    {
      assert IndirectOk(inodes, owner, i) && IndirectOk(inodes, owner, j);
      if j == i {
        EntryAt(blocks, inodes[i], bn, b, bm);
      }
    }
    forall j: nat, bm: nat ensures SlotOk(blocks', inodes, owner', j, bm) {
      assert SlotOk(blocks, inodes, owner, j, bm);
    }
    forall j: nat ensures IndirectOk(inodes, owner', j) {
      assert IndirectOk(inodes, owner, j);
    }
    forall c: nat ensures OwnerOk(nmeta, blocks', inodes, owner', c) {
      assert OwnerOk(nmeta, blocks, inodes, owner, c);
      if c < |owner| && owner[c].Data? {
        assert SlotOk(blocks, inodes, owner, owner[c].i, owner[c].bn);
      }
    }
  }

  lemma OwnedUnlinkDirect(nmeta: nat, blocks: seq<Block>, inodes: seq<Inode>, owner: seq<Owner>, i: nat, bn: nat)
    requires Owned(nmeta, blocks, inodes, owner) && i < |inodes| && bn < NDIRECT && inodes[i].addrs[bn] != 0
    ensures inodes[i].addrs[bn] < |owner| && owner[inodes[i].addrs[bn]] == Data(i, bn)
    ensures Owned(nmeta, blocks, inodes[i := WithAddr(inodes[i], bn, 0)], owner[inodes[i].addrs[bn] := Loose])
  {
    hide GetWord;
    assert SlotOk(blocks, inodes, owner, i, bn);
    var a := inodes[i].addrs[bn];
    var inodes', owner' := inodes[i := WithAddr(inodes[i], bn, 0)], owner[a := Loose];
    forall j: nat, bm: nat ensures SlotOk(blocks, inodes', owner', j, bm) {
      assert SlotOk(blocks, inodes, owner, j, bm);
    }
    forall j: nat ensures IndirectOk(inodes', owner', j) {
      assert IndirectOk(inodes, owner, j);
    }
    forall c: nat ensures OwnerOk(nmeta, blocks, inodes', owner', c) {
      assert OwnerOk(nmeta, blocks, inodes, owner, c);
    }
  }

  /** The block of addresses of inode i, and the blocks it names. */
  predicate ViaIndirect(o: Owner, i: nat) {
    (o.Indirect? && o.i == i) || (o.Data? && o.i == i && o.bn >= NDIRECT)
  }

  function Detached(owner: seq<Owner>, i: nat): (r: seq<Owner>)
    ensures |r| == |owner|
  {
    seq(|owner|, b requires 0 <= b < |owner| => if ViaIndirect(owner[b], i) then Loose else owner[b])
  }

  lemma OwnedUnlinkIndirect(nmeta: nat, blocks: seq<Block>, inodes: seq<Inode>, owner: seq<Owner>, i: nat)
    requires Owned(nmeta, blocks, inodes, owner) && i < |inodes|
    ensures Owned(nmeta, blocks, inodes[i := WithAddr(inodes[i], NDIRECT, 0)], Detached(owner, i))
  {
    hide GetWord;
    var inodes', owner' := inodes[i := WithAddr(inodes[i], NDIRECT, 0)], Detached(owner, i);
    forall j: nat, bm: nat ensures SlotOk(blocks, inodes', owner', j, bm) {
      assert SlotOk(blocks, inodes, owner, j, bm);
    }
    forall j: nat ensures IndirectOk(inodes', owner', j) {
      assert IndirectOk(inodes, owner, j);
    }
    forall c: nat ensures OwnerOk(nmeta, blocks, inodes', owner', c) {
      assert OwnerOk(nmeta, blocks, inodes, owner, c);
    }
  }

  // The whole, step by step.

  lemma MarkedKeep(sb: Layout, blocks: seq<Block>, owner: seq<Owner>, blocks': seq<Block>, owner': seq<Owner>)
    requires Marked(sb, blocks, owner) && LayoutOk(sb) && |blocks| == |blocks'| == |owner| == |owner'| == sb.size
    requires forall b {:trigger blocks'[b]} :: 0 <= b < sb.nmeta ==> blocks'[b] == blocks[b]
    requires forall b {:trigger owner'[b]} :: 0 <= b < |owner| ==> owner'[b].Free? == owner[b].Free?
    ensures Marked(sb, blocks', owner')
  {
    forall b: nat | b < sb.size ensures InUse(sb, blocks', b) == InUse(sb, blocks, b) {
      BBlockIsMeta(sb, b);
    }
  }

  lemma MetaBlocks(nmeta: nat, blocks: seq<Block>, inodes: seq<Inode>, owner: seq<Owner>, b: nat)
    requires Owned(nmeta, blocks, inodes, owner) && b < |owner|
    ensures owner[b].Meta? <==> b < nmeta
  {
    hide Addr;
    assert OwnerOk(nmeta, blocks, inodes, owner, b);
  }

  /** Nothing of the file is in the blocks that have changed. */
  predicate Untouched(blocks: seq<Block>, blocks': seq<Block>, ino: Inode) {
    && SameIndirect(blocks, blocks', ino)
    && forall bn {:trigger Addr(blocks, ino, bn)} :: 0 <= bn < MAXFILE && 0 < Addr(blocks, ino, bn) < |blocks| ==>
         blocks'[Addr(blocks, ino, bn)] == blocks[Addr(blocks, ino, bn)]
  }

  /** A change to blocks that no inode owns touches no file. */
  lemma UntouchedAll(nmeta: nat, blocks: seq<Block>, blocks': seq<Block>, inodes: seq<Inode>, owner: seq<Owner>, i: nat)
    requires Owned(nmeta, blocks, inodes, owner) && |blocks'| == |blocks| && i < |inodes|
    requires forall b {:trigger blocks'[b]} :: 0 <= b < |owner| && (owner[b].Data? || owner[b].Indirect?) ==>
               blocks'[b] == blocks[b]
    ensures Untouched(blocks, blocks', inodes[i])
  {
    hide GetWord;
    assert IndirectOk(inodes, owner, i);
    forall bn: nat | bn < MAXFILE && 0 < Addr(blocks, inodes[i], bn) < |blocks|
      ensures blocks'[Addr(blocks, inodes[i], bn)] == blocks[Addr(blocks, inodes[i], bn)]
    {
      assert SlotOk(blocks, inodes, owner, i, bn);
    }
  }

  /** balloc: a free block is marked and zeroed. */
  lemma AllocOk(sb: Layout, blocks: seq<Block>, inodes: seq<Inode>, owner: seq<Owner>, b: nat)
    requires Consistent(sb, blocks, inodes, owner) && b < sb.size && owner[b].Free?
    ensures sb.nmeta <= b && BBlock(sb, b) < sb.nmeta
    ensures var blocks' := MarkUsed(sb, blocks, b)[b := ZERO];
            && Consistent(sb, blocks', inodes, owner[b := Loose])
            && forall i {:trigger inodes[i]} :: 0 <= i < |inodes| ==> Untouched(blocks, blocks', inodes[i])
  {
    hide Addr, InUse, GetBit;
    BBlockIsMeta(sb, b);
    MetaBlocks(sb.nmeta, blocks, inodes, owner, b);
    MetaBlocks(sb.nmeta, blocks, inodes, owner, BBlock(sb, b));
    var blocks', owner' := MarkUsed(sb, blocks, b)[b := ZERO], owner[b := Loose];
    forall i | 0 <= i < |inodes| ensures Untouched(blocks, blocks', inodes[i]) {
      UntouchedAll(sb.nmeta, blocks, blocks', inodes, owner, i);
    }
    OwnedKeep(sb.nmeta, blocks, blocks', inodes, owner);
    OwnedSwitch(sb.nmeta, blocks', inodes, owner, b, Loose);
    forall c: nat | c < sb.size ensures InUse(sb, blocks', c) <==> !owner'[c].Free? {
      MarkUsedAt(sb, blocks, b, c);
      BBlockIsMeta(sb, c);
      InUseOf(sb, MarkUsed(sb, blocks, b), blocks', c);
    }
  }

  lemma InUseOf(sb: Layout, blocks: seq<Block>, blocks': seq<Block>, c: nat)
    requires |blocks'| == |blocks| && BBlock(sb, c) < |blocks| && blocks'[BBlock(sb, c)] == blocks[BBlock(sb, c)]
    ensures InUse(sb, blocks', c) == InUse(sb, blocks, c)
  {
  }

  /** bfree, of a block that stands nowhere. */
  lemma FreeOk(sb: Layout, blocks: seq<Block>, inodes: seq<Inode>, owner: seq<Owner>, b: nat)
    requires Consistent(sb, blocks, inodes, owner) && b < sb.size && owner[b].Loose?
    ensures BBlock(sb, b) < sb.nmeta && InUse(sb, blocks, b)
    ensures var blocks' := MarkFree(sb, blocks, b);
            && Consistent(sb, blocks', inodes, owner[b := Free])
            && forall i {:trigger inodes[i]} :: 0 <= i < |inodes| ==> Untouched(blocks, blocks', inodes[i])
  {
    hide Addr, InUse, GetBit;
    BBlockIsMeta(sb, b);
    MetaBlocks(sb.nmeta, blocks, inodes, owner, BBlock(sb, b));
    var blocks', owner' := MarkFree(sb, blocks, b), owner[b := Free];
    var u := InUse(sb, blocks, b);
    forall i | 0 <= i < |inodes| ensures Untouched(blocks, blocks', inodes[i]) {
      UntouchedAll(sb.nmeta, blocks, blocks', inodes, owner, i);
    }
    OwnedKeep(sb.nmeta, blocks, blocks', inodes, owner);
    OwnedSwitch(sb.nmeta, blocks', inodes, owner, b, Free);
    forall c: nat | c < sb.size ensures InUse(sb, blocks', c) <==> !owner'[c].Free? {
      MarkFreeAt(sb, blocks, b, c);
    }
  }

  /** Linking a loose block into an inode. */
  lemma LinkDirectOk(sb: Layout, blocks: seq<Block>, inodes: seq<Inode>, owner: seq<Owner>, i: nat, bn: nat, b: nat)
    requires Consistent(sb, blocks, inodes, owner) && i < |inodes| && bn < NDIRECT && inodes[i].addrs[bn] == 0
    requires 0 < b < |owner| && owner[b].Loose?
    ensures Consistent(sb, blocks, inodes[i := WithAddr(inodes[i], bn, b)], owner[b := Data(i, bn)])
  {
    hide Owned, InUse;
    OwnedLinkDirect(sb.nmeta, blocks, inodes, owner, i, bn, b);
    OwnedSizes(sb.nmeta, blocks, inodes, owner);
    MarkedKeep(sb, blocks, owner, blocks, owner[b := Data(i, bn)]);
  }

  lemma OwnedSizes(nmeta: nat, blocks: seq<Block>, inodes: seq<Inode>, owner: seq<Owner>)
    requires Owned(nmeta, blocks, inodes, owner)
    ensures |blocks| == |owner| && 0 < nmeta
  {
  }

  lemma LinkIndirectOk(sb: Layout, blocks: seq<Block>, inodes: seq<Inode>, owner: seq<Owner>, i: nat, b: nat)
    requires Consistent(sb, blocks, inodes, owner) && i < |inodes| && inodes[i].addrs[NDIRECT] == 0
    requires 0 < b < |owner| && owner[b].Loose? && b < |blocks| && blocks[b] == ZERO
    ensures Consistent(sb, blocks, inodes[i := WithAddr(inodes[i], NDIRECT, b)], owner[b := Indirect(i)])
    ensures forall bn {:trigger Addr(blocks, WithAddr(inodes[i], NDIRECT, b), bn)} :: 0 <= bn ==>
              Addr(blocks, WithAddr(inodes[i], NDIRECT, b), bn) == Addr(blocks, inodes[i], bn)
  {
    hide Owned, InUse, Addr;
    OwnedLinkIndirect(sb.nmeta, blocks, inodes, owner, i, b);
    OwnedSizes(sb.nmeta, blocks, inodes, owner);
    MarkedKeep(sb, blocks, owner, blocks, owner[b := Indirect(i)]);
  }

  lemma IndirectIs(nmeta: nat, blocks: seq<Block>, inodes: seq<Inode>, owner: seq<Owner>, i: nat)
    requires Owned(nmeta, blocks, inodes, owner) && i < |inodes| && inodes[i].addrs[NDIRECT] != 0
    ensures nmeta <= inodes[i].addrs[NDIRECT] < |owner| && owner[inodes[i].addrs[NDIRECT]] == Indirect(i)
  {
    hide Addr;
    assert IndirectOk(inodes, owner, i);
    assert OwnerOk(nmeta, blocks, inodes, owner, inodes[i].addrs[NDIRECT]);
  }

  lemma SlotIs(nmeta: nat, blocks: seq<Block>, inodes: seq<Inode>, owner: seq<Owner>, i: nat, bn: nat)
    requires Owned(nmeta, blocks, inodes, owner) && i < |inodes| && bn < MAXFILE && Addr(blocks, inodes[i], bn) != 0
    ensures nmeta <= Addr(blocks, inodes[i], bn) < |owner| && owner[Addr(blocks, inodes[i], bn)] == Data(i, bn)
  {
    hide Addr;
    assert SlotOk(blocks, inodes, owner, i, bn);
    assert OwnerOk(nmeta, blocks, inodes, owner, Addr(blocks, inodes[i], bn));
  }

  lemma LinkEntryOk(sb: Layout, blocks: seq<Block>, inodes: seq<Inode>, owner: seq<Owner>, i: nat, bn: nat, b: nat)
    requires Consistent(sb, blocks, inodes, owner) && i < |inodes| && NDIRECT <= bn < MAXFILE
    requires inodes[i].addrs[NDIRECT] != 0
    requires Addr(blocks, inodes[i], bn) == 0 && 0 < b < |owner| && owner[b].Loose?
    ensures inodes[i].addrs[NDIRECT] < |blocks| && b < WORD_LIMIT
    ensures Consistent(sb, PutEntry(blocks, inodes[i].addrs[NDIRECT], bn - NDIRECT, b), inodes, owner[b := Data(i, bn)])
    ensures var blocks' := PutEntry(blocks, inodes[i].addrs[NDIRECT], bn - NDIRECT, b);
            forall j {:trigger inodes[j]} :: 0 <= j < |inodes| && j != i ==> Untouched(blocks, blocks', inodes[j])
  {
    hide Owned, InUse, Addr, PutWord, GetWord;
    var ind := inodes[i].addrs[NDIRECT];
    IndirectIs(sb.nmeta, blocks, inodes, owner, i);
    OwnedSizes(sb.nmeta, blocks, inodes, owner);
    var blocks' := PutEntry(blocks, ind, bn - NDIRECT, b);
    OwnedLinkEntry(sb.nmeta, blocks, inodes, owner, i, bn, b);
    MarkedKeep(sb, blocks, owner, blocks', owner[b := Data(i, bn)]);
    forall j | 0 <= j < |inodes| && j != i ensures Untouched(blocks, blocks', inodes[j]) {
      OneBlock(sb.nmeta, blocks, blocks', inodes, owner, i, ind, j);
    }
  }

  /** A change to one block of inode i's touches no other file. */
  lemma OneBlock(nmeta: nat, blocks: seq<Block>, blocks': seq<Block>, inodes: seq<Inode>, owner: seq<Owner>, i: nat,
                 a: nat, j: nat)
    requires Owned(nmeta, blocks, inodes, owner) && |blocks'| == |blocks| && j < |inodes| && j != i && a < |owner|
    requires (owner[a].Data? || owner[a].Indirect?) && owner[a].i == i
    requires forall b {:trigger blocks'[b]} :: 0 <= b < |blocks| && b != a ==> blocks'[b] == blocks[b]
    ensures Untouched(blocks, blocks', inodes[j])
  {
    hide GetWord;
    assert IndirectOk(inodes, owner, j);
    forall bn: nat | bn < MAXFILE && 0 < Addr(blocks, inodes[j], bn) < |blocks|
      ensures blocks'[Addr(blocks, inodes[j], bn)] == blocks[Addr(blocks, inodes[j], bn)]
    {
      assert SlotOk(blocks, inodes, owner, j, bn);
    }
  }

  lemma UnlinkDirectOk(sb: Layout, blocks: seq<Block>, inodes: seq<Inode>, owner: seq<Owner>, i: nat, bn: nat)
    requires Consistent(sb, blocks, inodes, owner) && i < |inodes| && bn < NDIRECT && inodes[i].addrs[bn] != 0
    ensures inodes[i].addrs[bn] < |owner|
    ensures Consistent(sb, blocks, inodes[i := WithAddr(inodes[i], bn, 0)], owner[inodes[i].addrs[bn] := Loose])
  {
    hide Owned, InUse;
    OwnedUnlinkDirect(sb.nmeta, blocks, inodes, owner, i, bn);
    OwnedSizes(sb.nmeta, blocks, inodes, owner);
    MarkedKeep(sb, blocks, owner, blocks, owner[inodes[i].addrs[bn] := Loose]);
  }

  lemma UnlinkIndirectOk(sb: Layout, blocks: seq<Block>, inodes: seq<Inode>, owner: seq<Owner>, i: nat)
    requires Consistent(sb, blocks, inodes, owner) && i < |inodes|
    ensures Consistent(sb, blocks, inodes[i := WithAddr(inodes[i], NDIRECT, 0)], Detached(owner, i))
  {
    hide Owned, InUse;
    OwnedUnlinkIndirect(sb.nmeta, blocks, inodes, owner, i);
    OwnedSizes(sb.nmeta, blocks, inodes, owner);
    MarkedKeep(sb, blocks, owner, blocks, Detached(owner, i));
  }

  /** No block is in use and yet stands nowhere. */
  ghost predicate Tidy(owner: seq<Owner>) {
    forall b {:trigger owner[b]} :: 0 <= b < |owner| ==> !owner[b].Loose?
  }

  /** The file has kept its blocks and what is in them, and may have got one more, at bn. */
  ghost predicate Extends(blocks: seq<Block>, ino: Inode, blocks': seq<Block>, ino': Inode, bn: nat) {
    && |blocks'| == |blocks| && ino'.size == ino.size
    && (forall bm: nat {:trigger Addr(blocks', ino', bm)} ::
          bm < MAXFILE && (bm != bn || Addr(blocks, ino, bm) != 0) ==>
            Addr(blocks', ino', bm) == Addr(blocks, ino, bm))
    && (forall bm: nat {:trigger Addr(blocks, ino, bm)} :: bm < MAXFILE && 0 < Addr(blocks, ino, bm) < |blocks| ==>
          blocks'[Addr(blocks, ino, bm)] == blocks[Addr(blocks, ino, bm)])
  }

  lemma ExtendsRefl(blocks: seq<Block>, ino: Inode, bn: nat)
    ensures Extends(blocks, ino, blocks, ino, bn)
  {
    hide Addr;
  }

  /** When the blocks that a file is in have not changed, nor has its inode. */
  lemma ExtendsUntouched(blocks: seq<Block>, blocks': seq<Block>, ino: Inode, bn: nat)
    requires Untouched(blocks, blocks', ino)
    ensures Extends(blocks, ino, blocks', ino, bn)
  {
    hide GetWord;
  }

  lemma ExtendsOn(blocks: seq<Block>, ino: Inode, blocks1: seq<Block>, ino1: Inode, blocks2: seq<Block>, ino2: Inode,
                  bn: nat)
    requires Extends(blocks, ino, blocks1, ino1, bn) && Extends(blocks1, ino1, blocks2, ino2, bn)
    ensures Extends(blocks, ino, blocks2, ino2, bn)
  {
    hide Addr;
    forall bm: nat | bm < MAXFILE && (bm != bn || Addr(blocks, ino, bm) != 0)
      ensures Addr(blocks2, ino2, bm) == Addr(blocks, ino, bm)
    {
      var a, b := Addr(blocks1, ino1, bm), Addr(blocks, ino, bm);
    }
    forall bm: nat | bm < MAXFILE && 0 < Addr(blocks, ino, bm) < |blocks|
      ensures blocks2[Addr(blocks, ino, bm)] == blocks[Addr(blocks, ino, bm)]
    {
      var a := Addr(blocks1, ino1, bm);
    }
  }

  lemma ExtendsDirect(blocks: seq<Block>, ino: Inode, bn: nat, b: nat)
    requires bn < NDIRECT && ino.addrs[bn] == 0
    ensures Extends(blocks, ino, blocks, WithAddr(ino, bn, b), bn) && Addr(blocks, WithAddr(ino, bn, b), bn) == b
  {
    hide GetWord;
  }

  lemma ExtendsIndirect(blocks: seq<Block>, ino: Inode, bn: nat, b: nat)
    requires forall bm {:trigger Addr(blocks, WithAddr(ino, NDIRECT, b), bm)} :: 0 <= bm ==>
               Addr(blocks, WithAddr(ino, NDIRECT, b), bm) == Addr(blocks, ino, bm)
    ensures Extends(blocks, ino, blocks, WithAddr(ino, NDIRECT, b), bn)
  {
    hide Addr;
  }

  lemma ExtendsEntry(nmeta: nat, blocks: seq<Block>, inodes: seq<Inode>, owner: seq<Owner>, i: nat, bn: nat, b: nat)
    requires Owned(nmeta, blocks, inodes, owner) && i < |inodes| && NDIRECT <= bn < MAXFILE
    requires 0 < inodes[i].addrs[NDIRECT] < |blocks| && b < WORD_LIMIT
    requires Addr(blocks, inodes[i], bn) == 0
    ensures var blocks' := PutEntry(blocks, inodes[i].addrs[NDIRECT], bn - NDIRECT, b);
            Extends(blocks, inodes[i], blocks', inodes[i], bn) && Addr(blocks', inodes[i], bn) == b
  {
    hide Addr, GetWord, PutWord;
    var ino := inodes[i];
    var blocks' := PutEntry(blocks, ino.addrs[NDIRECT], bn - NDIRECT, b);
    IndirectIs(nmeta, blocks, inodes, owner, i);
    EntryAt(blocks, ino, bn, b, bn);
    forall bm: nat | bm < MAXFILE && (bm != bn || Addr(blocks, ino, bm) != 0)
      ensures Addr(blocks', ino, bm) == Addr(blocks, ino, bm)
    {
      EntryAt(blocks, ino, bn, b, bm);
    }
    forall bm: nat | bm < MAXFILE && 0 < Addr(blocks, ino, bm) < |blocks|
      ensures blocks'[Addr(blocks, ino, bm)] == blocks[Addr(blocks, ino, bm)]
    {
      SlotIs(nmeta, blocks, inodes, owner, i, bm);
    }
  }

  lemma UntouchedOn(blocks: seq<Block>, blocks1: seq<Block>, blocks2: seq<Block>, ino: Inode)
    requires Untouched(blocks, blocks1, ino) && Untouched(blocks1, blocks2, ino)
    ensures Untouched(blocks, blocks2, ino)
  {
    hide GetWord;
    forall bn: nat | bn < MAXFILE && 0 < Addr(blocks, ino, bn) < |blocks|
      ensures blocks2[Addr(blocks, ino, bn)] == blocks[Addr(blocks, ino, bn)]
    {
      assert Addr(blocks1, ino, bn) == Addr(blocks, ino, bn);
    }
  }

  lemma DirectAddr(blocks: seq<Block>, ino: Inode, bn: nat)
    requires bn < NDIRECT
    ensures Addr(blocks, ino, bn) == ino.addrs[bn]
  {
  }

  lemma AllUntouched(blocks: seq<Block>, inodes: seq<Inode>)
    ensures forall i {:trigger inodes[i]} :: 0 <= i < |inodes| ==> Untouched(blocks, blocks, inodes[i])
  {
    hide Addr;
  }

  lemma SameAddrs(blocks: seq<Block>, blocks': seq<Block>, ino: Inode)
    requires Untouched(blocks, blocks', ino)
    ensures forall bn: nat {:trigger Addr(blocks', ino, bn)} :: Addr(blocks', ino, bn) == Addr(blocks, ino, bn)
  {
    hide GetWord;
  }

  lemma EntryAddr(blocks: seq<Block>, ino: Inode, bn: nat)
    requires NDIRECT <= bn < MAXFILE && 0 < ino.addrs[NDIRECT] < |blocks|
    ensures Addr(blocks, ino, bn) == GetWord(blocks[ino.addrs[NDIRECT]], bn - NDIRECT)
  {
  }

  lemma NoTable(blocks: seq<Block>, ino: Inode, bn: nat)
    requires ino.addrs[NDIRECT] == 0 && NDIRECT <= bn
    ensures Addr(blocks, ino, bn) == 0
  {
  }

  lemma UnionBound(a: set<nat>, b: set<nat>)
    ensures |a + b| <= |a| + |b|
  {
    assert |a + b| + |a * b| == |a| + |b|;
  }

  function Named(a: nat): set<nat> {
    if a == 0 then {} else {a}
  }

  /** What a turn may log: the data block, the block of addresses, and bitmap blocks. */
  ghost predicate LogsMore(l: set<nat>, l': set<nat>, addr: nat, ind: nat, marks: set<nat>) {
    l' <= l + Named(addr) + Named(ind) + marks
  }

  lemma LogsEntry(l: set<nat>, addr: nat, ind: nat, mark: nat)
    requires addr != 0 && ind != 0
    ensures LogsMore(l, l + {mark, addr} + {ind}, addr, ind, {mark})
  {
  }

  lemma LogsWider(l: set<nat>, l': set<nat>, addr: nat, ind: nat, marks: set<nat>)
    requires LogsMore(l, l', addr, 0, marks)
    ensures LogsMore(l, l', addr, ind, marks)
  {
  }

  /** Only blocks of the file system are logged: inodes, bitmap and data, and none of the log's own. */
  ghost predicate InFs(sb: Layout, logged: set<nat>) {
    forall b {:trigger b in logged} :: b in logged ==> sb.inodestart <= b < sb.size
  }

  /** Where the blocks that an operation logs lie. */
  lemma FsBlocks(sb: Layout, blocks: seq<Block>, inodes: seq<Inode>, owner: seq<Owner>, b: nat, i: nat)
    requires Consistent(sb, blocks, inodes, owner)
    ensures |blocks| == |owner| == sb.size && sb.inodestart < sb.nmeta
    ensures b < sb.size ==> sb.inodestart <= BBlock(sb, b) < sb.size
    ensures i < |inodes| ==> sb.inodestart <= IBlock(sb, i) < sb.size
  {
    hide Owned, Marked;
    OwnedSizes(sb.nmeta, blocks, inodes, owner);
    BBlockIsMeta(sb, 0);
    if b < sb.size {
      BBlockIsMeta(sb, b);
    }
    if i < |inodes| {
      assert i / IPB <= sb.ninodes / IPB;
    }
  }

  lemma InFsMore(sb: Layout, logged: set<nat>, b: nat)
    requires InFs(sb, logged) && sb.inodestart <= b < sb.size
    ensures InFs(sb, logged + {b})
  {
  }

  /** Every block that has changed is among those logged: nothing is written behind the log's back. */
  ghost predicate Covered(blocks: seq<Block>, blocks': seq<Block>, logged: set<nat>) {
    && |blocks'| == |blocks|
    && forall b {:trigger blocks'[b]} :: 0 <= b < |blocks| && blocks'[b] != blocks[b] ==> b in logged
  }

  lemma CoveredOn(blocks: seq<Block>, blocks1: seq<Block>, blocks2: seq<Block>, l: set<nat>, l': set<nat>)
    requires Covered(blocks, blocks1, l) && Covered(blocks1, blocks2, l') && l <= l'
    ensures Covered(blocks, blocks2, l')
  {
    forall b | 0 <= b < |blocks| && blocks2[b] != blocks[b] ensures b in l' {
      assert blocks1[b] == blocks[b] || blocks1[b] != blocks[b];
    }
  }

  lemma CoveredPut(blocks: seq<Block>, blocks': seq<Block>, l: set<nat>, b: nat, x: Block)
    requires Covered(blocks, blocks', l) && b < |blocks|
    ensures Covered(blocks, blocks'[b := x], l + {b})
  {
  }

  lemma CoveredNone(blocks: seq<Block>, l: set<nat>)
    ensures Covered(blocks, blocks, l)
  {
  }

  lemma CoveredMore(blocks: seq<Block>, blocks': seq<Block>, l: set<nat>, l': set<nat>)
    requires Covered(blocks, blocks', l) && l <= l'
    ensures Covered(blocks, blocks', l')
  {
  }

  /** The file system as a transaction leaves it, and the blocks that the transaction logged. */
  datatype Snap = Snap(blocks: seq<Block>, inodes: seq<Inode>, owner: seq<Owner>, logged: set<nat>)

  /** A transaction leaves the file system consistent, and logs every block and every inode that it changes. */
  ghost predicate Transaction(sb: Layout, s: Snap, s': Snap) {
    && Consistent(sb, s'.blocks, s'.inodes, s'.owner) && Tidy(s'.owner) && |s'.inodes| == |s.inodes|
    && Covered(s.blocks, s'.blocks, s'.logged) && InFs(sb, s'.logged)
    && forall i {:trigger s'.inodes[i]} :: 0 <= i < |s'.inodes| && s'.inodes[i] != s.inodes[i] ==>
         IBlock(sb, i) in s'.logged && s'.inodes[i].size <= MAXBYTES
  }

  /** The transactions from the n-th on. */
  ghost predicate Transactions(sb: Layout, snaps: seq<Snap>, n: nat) {
    0 < n <= |snaps| && forall t {:trigger snaps[t]} :: n <= t < |snaps| ==> Transaction(sb, snaps[t - 1], snaps[t])
  }

  lemma TransactionsOn(sb: Layout, snaps: seq<Snap>, n: nat, s: Snap)
    requires Transactions(sb, snaps, n) && Transaction(sb, snaps[|snaps| - 1], s)
    ensures Transactions(sb, snaps + [s], n)
  {
    hide Transaction;
  }

  lemma NoTransactions(sb: Layout, snaps: seq<Snap>)
    requires 0 < |snaps|
    ensures Transactions(sb, snaps, |snaps|)
  {
  }

  lemma TransactionsJoin(sb: Layout, snaps: seq<Snap>, snaps': seq<Snap>, n: nat)
    requires Transactions(sb, snaps, n) && snaps <= snaps' && Transactions(sb, snaps', |snaps|)
    ensures Transactions(sb, snaps', n)
  {
    hide Transaction;
  }

  /** A transaction that changes one inode at most. */
  lemma OneInode(sb: Layout, s: Snap, s': Snap, i: nat)
    requires Consistent(sb, s'.blocks, s'.inodes, s'.owner) && Tidy(s'.owner) && |s'.inodes| == |s.inodes|
    requires Covered(s.blocks, s'.blocks, s'.logged) && InFs(sb, s'.logged) && i < |s.inodes|
    requires s'.inodes[i].size <= MAXBYTES
    requires forall j {:trigger s'.inodes[j]} :: 0 <= j < |s'.inodes| && j != i ==> s'.inodes[j] == s.inodes[j]
    requires s'.inodes[i] != s.inodes[i] ==> IBlock(sb, i) in s'.logged
    ensures Transaction(sb, s, s')
  {
    hide Consistent, Tidy, Covered, InFs, IBlock;
  }

  /** Block bn is one of those that the bytes from lo up to hi lie in. */
  predicate Touches(lo: nat, hi: nat, bn: nat) {
    lo / BSIZE <= bn && bn * BSIZE < hi
  }

  /** The file has kept its blocks, and got new ones only where bytes from lo up to hi lie. */
  ghost predicate Placed(blocks: seq<Block>, ino: Inode, blocks': seq<Block>, ino': Inode, lo: nat, hi: nat) {
    forall bn: nat {:trigger Addr(blocks', ino', bn)} :: bn < MAXFILE ==>
      || Addr(blocks', ino', bn) == Addr(blocks, ino, bn)
      || (Addr(blocks, ino, bn) == 0 && Touches(lo, hi, bn))
  }

  lemma PlacedNone(blocks: seq<Block>, ino: Inode, lo: nat, hi: nat)
    ensures Placed(blocks, ino, blocks, ino, lo, hi)
  {
  }

  lemma PlacedOn(blocks: seq<Block>, ino: Inode, blocks1: seq<Block>, ino1: Inode, blocks2: seq<Block>, ino2: Inode,
                 lo: nat, hi: nat)
    requires Placed(blocks, ino, blocks1, ino1, lo, hi) && Placed(blocks1, ino1, blocks2, ino2, lo, hi)
    ensures Placed(blocks, ino, blocks2, ino2, lo, hi)
  {
    hide Addr, Touches;
    forall bn: nat | bn < MAXFILE
      ensures Addr(blocks2, ino2, bn) == Addr(blocks, ino, bn) || (Addr(blocks, ino, bn) == 0 && Touches(lo, hi, bn))
    {
      var a, b := Addr(blocks1, ino1, bn), Addr(blocks2, ino2, bn);
    }
  }

  lemma LoggedOn(l: set<nat>, l1: set<nat>, l2: set<nat>, ind: nat, addr: nat, m1: set<nat>, m2: set<nat>)
    requires LogsMore(l, l1, 0, ind, m1) && LogsMore(l1, l2, addr, ind, m2)
    ensures LogsMore(l, l2, addr, ind, m1 + m2)
  {
  }

  // Bytes.

  const MAXBYTES := MAXFILE * BSIZE

  function ByteAt(blocks: seq<Block>, ino: Inode, k: nat): Byte {
    var a := Addr(blocks, ino, k / BSIZE);
    if 0 < a < |blocks| then blocks[a][k % BSIZE] else 0
  }

  /** The first `size` bytes of the file all have a block. */
  ghost predicate Backed(blocks: seq<Block>, ino: Inode, size: nat) {
    && size <= MAXBYTES
    && forall bn: nat {:trigger Addr(blocks, ino, bn)} :: bn * BSIZE < size ==> 0 < Addr(blocks, ino, bn) < |blocks|
  }

  /** The file as a sequence of bytes: from lo up to hi those given, elsewhere below size as before. */
  ghost predicate Bytes(blocks: seq<Block>, ino: Inode, blocks': seq<Block>, ino': Inode, size: nat, lo: nat, hi: nat,
                        src: seq<Byte>) {
    && lo <= hi <= lo + |src|
    && forall k: nat {:trigger ByteAt(blocks', ino', k)} :: k < size || lo <= k < hi ==>
         ByteAt(blocks', ino', k) == if lo <= k < hi then src[k - lo] else ByteAt(blocks, ino, k)
  }

  lemma BytesUntouched(blocks: seq<Block>, blocks': seq<Block>, ino: Inode, k: nat)
    requires Untouched(blocks, blocks', ino) && k < MAXBYTES
    ensures ByteAt(blocks', ino, k) == ByteAt(blocks, ino, k)
  {
    hide GetWord, Addr;
    SameAddrs(blocks, blocks', ino);
    var a := Addr(blocks, ino, k / BSIZE);
  }

  lemma ByteExtends(blocks: seq<Block>, ino: Inode, blocks': seq<Block>, ino': Inode, bn: nat, k: nat)
    requires Extends(blocks, ino, blocks', ino', bn) && k < MAXBYTES && 0 < Addr(blocks, ino, k / BSIZE) < |blocks|
    ensures ByteAt(blocks', ino', k) == ByteAt(blocks, ino, k)
  {
    hide Addr;
    var a := Addr(blocks', ino', k / BSIZE);
  }

  lemma BackedExtends(blocks: seq<Block>, ino: Inode, blocks': seq<Block>, ino': Inode, bn: nat, size: nat)
    requires Extends(blocks, ino, blocks', ino', bn) && Backed(blocks, ino, size)
    ensures Backed(blocks', ino', size)
  {
    hide Addr;
    forall bm: nat | bm * BSIZE < size ensures 0 < Addr(blocks', ino', bm) < |blocks'| {
      var a := Addr(blocks, ino, bm);
    }
  }

  function Splice(b: Block, at: nat, bytes: seq<Byte>): (r: Block)
    requires at + |bytes| <= BSIZE
    ensures forall k {:trigger r[k]} :: 0 <= k < BSIZE ==>
              r[k] == if at <= k < at + |bytes| then bytes[k - at] else b[k]
  {
    b[..at] + bytes + b[at + |bytes|..]
  }

  /** Writing into one block of the file. */
  lemma ByteWrite(nmeta: nat, blocks: seq<Block>, inodes: seq<Inode>, owner: seq<Owner>, i: nat, off: nat,
                  bytes: seq<Byte>, k: nat)
    requires Owned(nmeta, blocks, inodes, owner) && i < |inodes| && off < MAXBYTES && off % BSIZE + |bytes| <= BSIZE
    requires k < MAXBYTES
    requires 0 < Addr(blocks, inodes[i], off / BSIZE) < |blocks|
    ensures var a := Addr(blocks, inodes[i], off / BSIZE);
            var blocks' := blocks[a := Splice(blocks[a], off % BSIZE, bytes)];
            && ByteAt(blocks', inodes[i], k)
                 == (if off <= k < off + |bytes| then bytes[k - off] else ByteAt(blocks, inodes[i], k))
            && Addr(blocks', inodes[i], k / BSIZE) == Addr(blocks, inodes[i], k / BSIZE)
  {
    hide Addr, GetWord, Splice;
    var a := Addr(blocks, inodes[i], off / BSIZE);
    var blocks' := blocks[a := Splice(blocks[a], off % BSIZE, bytes)];
    SlotIs(nmeta, blocks, inodes, owner, i, off / BSIZE);
    DataKeepsAddr(nmeta, blocks, blocks', inodes, owner, i, a, k / BSIZE);
    var c := Addr(blocks, inodes[i], k / BSIZE);
    if c != 0 {
      SlotIs(nmeta, blocks, inodes, owner, i, k / BSIZE);
    }
    SpliceAt(blocks[a], off % BSIZE, bytes, k % BSIZE);
    SameBlock(off, k, |bytes|);
  }

  lemma SpliceAt(b: Block, at: nat, bytes: seq<Byte>, k: nat)
    requires at + |bytes| <= BSIZE && k < BSIZE
    ensures Splice(b, at, bytes)[k] == if at <= k < at + |bytes| then bytes[k - at] else b[k]
  {
  }

  lemma SameBlock(off: nat, k: nat, n: nat)
    requires off % BSIZE + n <= BSIZE
    ensures off <= k < off + n <==> k / BSIZE == off / BSIZE && off % BSIZE <= k % BSIZE < off % BSIZE + n
    ensures k / BSIZE == off / BSIZE ==> k - off == k % BSIZE - off % BSIZE
  {
  }

  /** A change to a data block moves no address. */
  lemma DataKeepsAddr(nmeta: nat, blocks: seq<Block>, blocks': seq<Block>, inodes: seq<Inode>, owner: seq<Owner>,
                      i: nat, a: nat, bn: nat)
    requires Owned(nmeta, blocks, inodes, owner) && i < |inodes| && |blocks'| == |blocks| && a < |owner|
    requires owner[a].Data?
    requires forall b {:trigger blocks'[b]} :: 0 <= b < |blocks| && b != a ==> blocks'[b] == blocks[b]
    ensures Addr(blocks', inodes[i], bn) == Addr(blocks, inodes[i], bn)
  {
    hide GetWord;
    assert IndirectOk(inodes, owner, i);
  }

  lemma WriteDataOk(sb: Layout, blocks: seq<Block>, inodes: seq<Inode>, owner: seq<Owner>, a: nat, b: Block)
    requires Consistent(sb, blocks, inodes, owner) && a < |blocks| && a < |owner| && owner[a].Data?
    ensures Consistent(sb, blocks[a := b], inodes, owner)
    ensures forall j {:trigger inodes[j]} :: 0 <= j < |inodes| && j != owner[a].i ==>
              Untouched(blocks, blocks[a := b], inodes[j])
  {
    hide Owned, InUse, Addr, GetWord;
    var blocks' := blocks[a := b];
    OwnedSizes(sb.nmeta, blocks, inodes, owner);
    MetaBlocks(sb.nmeta, blocks, inodes, owner, a);
    forall j | 0 <= j < |inodes| ensures SameIndirect(blocks, blocks', inodes[j]) {
      if inodes[j].addrs[NDIRECT] != 0 {
        IndirectIs(sb.nmeta, blocks, inodes, owner, j);
      }
    }
    OwnedKeep(sb.nmeta, blocks, blocks', inodes, owner);
    MarkedKeep(sb, blocks, owner, blocks', owner);
    forall j | 0 <= j < |inodes| && j != owner[a].i ensures Untouched(blocks, blocks', inodes[j]) {
      OneBlock(sb.nmeta, blocks, blocks', inodes, owner, owner[a].i, a, j);
    }
  }

  lemma BytesNone(blocks: seq<Block>, ino: Inode, size: nat, lo: nat, src: seq<Byte>)
    ensures Bytes(blocks, ino, blocks, ino, size, lo, lo, src)
  {
    hide ByteAt;
  }

  /** One stretch after another. */
  lemma BytesOn(blocks: seq<Block>, ino: Inode, blocks1: seq<Block>, ino1: Inode, blocks2: seq<Block>, ino2: Inode,
                size: nat, lo: nat, mid: nat, hi: nat, src: seq<Byte>)
    requires Bytes(blocks, ino, blocks1, ino1, size, lo, mid, src) && lo <= mid <= hi <= lo + |src|
    requires Bytes(blocks1, ino1, blocks2, ino2, if size < mid then mid else size, mid, hi, src[mid - lo..hi - lo])
    requires lo <= size
    ensures Bytes(blocks, ino, blocks2, ino2, size, lo, hi, src)
  {
    hide ByteAt;
    forall k: nat | k < size || lo <= k < hi
      ensures ByteAt(blocks2, ino2, k) == if lo <= k < hi then src[k - lo] else ByteAt(blocks, ino, k)
    {
      var a, b := ByteAt(blocks1, ino1, k), ByteAt(blocks2, ino2, k);
      if mid <= k < hi {
        assert src[mid - lo..hi - lo][k - mid] == src[k - lo];
      }
    }
  }

  /** A file that only got a new block has the bytes it had. */
  lemma BytesExtends(blocks: seq<Block>, ino: Inode, blocks': seq<Block>, ino': Inode, bn: nat, size: nat, lo: nat,
                     src: seq<Byte>)
    requires Extends(blocks, ino, blocks', ino', bn) && Backed(blocks, ino, size)
    ensures Bytes(blocks, ino, blocks', ino', size, lo, lo, src)
  {
    hide ByteAt, Addr;
    forall k: nat | k < size ensures ByteAt(blocks', ino', k) == ByteAt(blocks, ino, k) {
      var a := Addr(blocks, ino, k / BSIZE);
      ByteExtends(blocks, ino, blocks', ino', bn, k);
    }
  }

  lemma LogsAlso(l: set<nat>, l': set<nat>, addr: nat, ind: nat, marks: set<nat>)
    requires LogsMore(l, l', addr, ind, marks) && addr != 0
    ensures LogsMore(l, l' + {addr}, addr, ind, marks)
  {
  }

  lemma PlacedExtends(blocks: seq<Block>, ino: Inode, blocks': seq<Block>, ino': Inode, off: nat)
    requires Extends(blocks, ino, blocks', ino', off / BSIZE)
    ensures Placed(blocks, ino, blocks', ino', off, off + 1)
  {
    hide Addr;
  }

  /** Writing into a data block moves no block of the file. */
  lemma PlacedStill(sb: Layout, blocks: seq<Block>, ino: Inode, blocks1: seq<Block>, blocks2: seq<Block>,
                    inodes: seq<Inode>,
                    owner: seq<Owner>, i: nat, off: nat, a: nat)
    requires Owned(sb.nmeta, blocks1, inodes, owner) && i < |inodes| && a < |owner| && owner[a].Data?
    requires |blocks2| == |blocks1|
    requires forall b {:trigger blocks2[b]} :: 0 <= b < |blocks1| && b != a ==> blocks2[b] == blocks1[b]
    requires Placed(blocks, ino, blocks1, inodes[i], off, off + 1)
    ensures Placed(blocks, ino, blocks2, inodes[i], off, off + 1)
    ensures Addr(blocks2, inodes[i], off / BSIZE) == Addr(blocks1, inodes[i], off / BSIZE)
  {
    hide Addr, Touches, Owned;
    DataKeepsAddr(sb.nmeta, blocks1, blocks2, inodes, owner, i, a, off / BSIZE);
    forall bn: nat | bn < MAXFILE
      ensures Addr(blocks2, inodes[i], bn) == Addr(blocks, ino, bn)
                || (Addr(blocks, ino, bn) == 0 && Touches(off, off + 1, bn))
    {
      DataKeepsAddr(sb.nmeta, blocks1, blocks2, inodes, owner, i, a, bn);
    }
  }

  /** A stretch within one block is written. */
  lemma BytesWrite(nmeta: nat, blocks: seq<Block>, ino: Inode, blocks1: seq<Block>, inodes: seq<Inode>,
                   owner: seq<Owner>, i: nat,
                   off: nat, bytes: seq<Byte>, size: nat)
    requires Owned(nmeta, blocks1, inodes, owner) && i < |inodes| && off < MAXBYTES && off % BSIZE + |bytes| <= BSIZE
    requires off <= size
    requires Extends(blocks, ino, blocks1, inodes[i], off / BSIZE) && Backed(blocks, ino, size)
    requires 0 < Addr(blocks1, inodes[i], off / BSIZE) < |blocks1|
    ensures var a := Addr(blocks1, inodes[i], off / BSIZE);
            var blocks2 := blocks1[a := Splice(blocks1[a], off % BSIZE, bytes)];
            && Bytes(blocks, ino, blocks2, inodes[i], size, off, off + |bytes|, bytes)
            && Backed(blocks2, inodes[i], if size < off + |bytes| then off + |bytes| else size)
  {
    hide ByteAt, Addr, Splice, Owned;
    var a := Addr(blocks1, inodes[i], off / BSIZE);
    var blocks2 := blocks1[a := Splice(blocks1[a], off % BSIZE, bytes)];
    var size' := if size < off + |bytes| then off + |bytes| else size;
    EndsWithin(off, |bytes|);
    BackedExtends(blocks, ino, blocks1, inodes[i], off / BSIZE, size);
    forall k: nat | k < size || off <= k < off + |bytes|
      ensures ByteAt(blocks2, inodes[i], k) == if off <= k < off + |bytes| then bytes[k - off]
                else ByteAt(blocks, ino, k)
    {
      ByteWrite(nmeta, blocks1, inodes, owner, i, off, bytes, k);
      if k < size {
        var c := Addr(blocks, ino, k / BSIZE);
        ByteExtends(blocks, ino, blocks1, inodes[i], off / BSIZE, k);
      }
    }
    forall bn: nat | bn * BSIZE < size' ensures 0 < Addr(blocks2, inodes[i], bn) < |blocks2| {
      ByteWrite(nmeta, blocks1, inodes, owner, i, off, bytes, bn * BSIZE);
      assert bn * BSIZE / BSIZE == bn;
      var c := Addr(blocks1, inodes[i], bn);
      LastBlock(off, |bytes|, bn);
    }
  }

  lemma EndsWithin(off: nat, n: nat)
    requires off < MAXBYTES && off % BSIZE + n <= BSIZE
    ensures off + n <= MAXBYTES
  {
  }

  lemma LastBlock(off: nat, n: nat, bn: nat)
    requires off % BSIZE + n <= BSIZE
    ensures bn * BSIZE < off + n ==> bn * BSIZE < off || bn == off / BSIZE
  {
  }

  // How many blocks a write touches.

  /** The blocks that the bytes from lo up to hi lie in. */
  function Span(lo: nat, hi: nat): nat {
    if hi <= lo then 0 else (hi - 1) / BSIZE - lo / BSIZE + 1
  }

  /** Of those, the ones that may be new: not the first, when bytes before lo share it. */
  function Fresh(lo: nat, hi: nat): nat {
    if hi <= lo || lo % BSIZE == 0 then Span(lo, hi) else Span(lo, hi) - 1
  }

  lemma SpanOn(lo: nat, mid: nat, hi: nat)
    requires lo <= mid < hi && (mid == lo || mid % BSIZE == 0) && hi - 1 < (mid / BSIZE + 1) * BSIZE
    ensures Span(lo, hi) == Span(lo, mid) + 1
    ensures Fresh(lo, hi) == Fresh(lo, mid) + Bit(mid != lo || lo % BSIZE == 0)
  {
    assert (hi - 1) / BSIZE == mid / BSIZE;
    if mid != lo {
      assert (mid - 1) / BSIZE == mid / BSIZE - 1;
    }
  }

  lemma SizeKept(blocks: seq<Block>, ino: Inode, blocks': seq<Block>, ino': Inode, bn: nat)
    requires Extends(blocks, ino, blocks', ino', bn)
    ensures ino'.size == ino.size
  {
  }

  lemma SpanGrows(lo: nat, mid: nat, hi: nat)
    requires lo <= mid <= hi
    ensures Span(lo, mid) <= Span(lo, hi) && Fresh(lo, mid) <= Fresh(lo, hi)
  {
    if lo < mid < hi {
      assert (mid - 1) / BSIZE <= (hi - 1) / BSIZE;
    }
  }

  /** The size of a file says nothing of its blocks. */
  lemma OwnedResize(nmeta: nat, blocks: seq<Block>, inodes: seq<Inode>, owner: seq<Owner>, i: nat, size: nat)
    requires Owned(nmeta, blocks, inodes, owner) && i < |inodes|
    ensures Owned(nmeta, blocks, inodes[i := Inode(size, inodes[i].addrs)], owner)
  {
    hide GetWord;
    var inodes' := inodes[i := Inode(size, inodes[i].addrs)];
    forall j: nat, bn: nat ensures SlotOk(blocks, inodes', owner, j, bn) {
      assert SlotOk(blocks, inodes, owner, j, bn);
    }
    forall j: nat ensures IndirectOk(inodes', owner, j) {
      assert IndirectOk(inodes, owner, j);
    }
    forall b: nat ensures OwnerOk(nmeta, blocks, inodes', owner, b) {
      assert OwnerOk(nmeta, blocks, inodes, owner, b);
    }
  }

  lemma ResizeOk(sb: Layout, blocks: seq<Block>, inodes: seq<Inode>, owner: seq<Owner>, i: nat, size: nat)
    requires Consistent(sb, blocks, inodes, owner) && i < |inodes|
    ensures Consistent(sb, blocks, inodes[i := inodes[i].(size := size)], owner)
  {
    hide Owned, InUse, Marked;
    OwnedResize(sb.nmeta, blocks, inodes, owner, i, size);
    assert inodes[i].(size := size) == Inode(size, inodes[i].addrs);
  }

  lemma ResizeBytes(blocks: seq<Block>, ino: Inode, blocks': seq<Block>, ino': Inode, size: nat, lo: nat, hi: nat,
                    src: seq<Byte>, to: nat)
    requires Bytes(blocks, ino, blocks', ino', size, lo, hi, src)
    ensures Bytes(blocks, ino, blocks', ino'.(size := to), size, lo, hi, src)
  {
    hide GetWord;
    forall k: nat ensures ByteAt(blocks', ino'.(size := to), k) == ByteAt(blocks', ino', k) {
    }
  }

  lemma ResizeBacked(blocks: seq<Block>, ino: Inode, size: nat, to: nat)
    requires Backed(blocks, ino, size)
    ensures Backed(blocks, ino.(size := to), size)
  {
    hide GetWord;
    forall bn: nat ensures Addr(blocks, ino.(size := to), bn) == Addr(blocks, ino, bn) {
    }
  }

  lemma ResizePlaced(blocks: seq<Block>, ino: Inode, blocks': seq<Block>, ino': Inode, lo: nat, hi: nat, to: nat)
    requires Placed(blocks, ino, blocks', ino', lo, hi)
    ensures Placed(blocks, ino, blocks', ino'.(size := to), lo, hi)
    ensures forall bn: nat {:trigger Addr(blocks', ino'.(size := to), bn)} ::
              Addr(blocks', ino'.(size := to), bn) == Addr(blocks', ino', bn)
  {
    hide GetWord, Touches;
    forall bn: nat ensures Addr(blocks', ino'.(size := to), bn) == Addr(blocks', ino', bn) {
    }
  }

  /** An account of the blocks logged: data blocks, the block of addresses, and bitmap blocks. */
  ghost predicate Account(logged: set<nat>, data: set<nat>, ind: nat, marks: set<nat>, spans: nat, news: nat) {
    logged <= data + Named(ind) + marks && |data| <= spans && |marks| <= news
  }

  lemma AccountOn(l: set<nat>, d: set<nat>, ind: nat, m: set<nat>, spans: nat, news: nat,
                  l': set<nat>, addr: nat, ind': nat, marks: set<nat>, spans': nat, news': nat)
    requires Account(l, d, ind, m, spans, news) && LogsMore(l, l', addr, ind', marks) && (ind != 0 ==> ind' == ind)
    requires spans' >= spans + Bit(addr != 0) && news' >= news + |marks|
    ensures Account(l', d + Named(addr), ind', m + marks, spans', news')
  {
    UnionBound(d, Named(addr));
    UnionBound(m, marks);
  }

  lemma AccountEnd(l: set<nat>, d: set<nat>, ind: nat, m: set<nat>, spans: nat, news: nat, b: nat)
    requires Account(l, d, ind, m, spans, news)
    ensures |l + {b}| <= spans + news + Bit(ind != 0) + 1
  {
    var all := d + Named(ind) + m;
    Within(l, all);
    UnionBound(d + Named(ind), m);
    UnionBound(d, Named(ind));
    UnionBound(l, {b});
  }

  lemma {:induction false} Within(a: set<nat>, b: set<nat>)
    requires a <= b
    ensures |a| <= |b|
  {
    assert b == a + (b - a);
    assert a !! (b - a);
  }

  /** The bytes reach beyond the blocks that the inode itself names. */
  predicate Reaches(off: nat, n: nat) {
    off + n > NDIRECT * BSIZE
  }

  /** The block of addresses, where a write of n bytes at off has to do with it. */
  function Table(ino: Inode, off: nat, n: nat): nat {
    if Reaches(off, n) then ino.addrs[NDIRECT] else 0
  }

  /**
   What a write of n bytes at off may log: its data blocks, a bitmap block for each of them that
   may be new, the inode's block, and the block of addresses with its own bitmap block if the
   write reaches that far.
   */
  function WriteCost(off: nat, n: nat): nat {
    Span(off, off + n) + Fresh(off, off + n) + 1 + if Reaches(off, n) then 2 else 0
  }

  /**
   What one transaction of filewrite may come to: 10 at most, and just 10 when it straddles four
   blocks and goes beyond the direct ones.
   */
  lemma ChunkBound(off: nat, n: nat)
    requires n <= 3 * BSIZE
    ensures WriteCost(off, n) <= 10
    ensures WriteCost(off, n) == 10 <==> off % BSIZE + n > 3 * BSIZE && Reaches(off, n)
  {
    if n > 0 {
      var m := (off + n - 1) / BSIZE - off / BSIZE;
      assert m <= 3;
      assert m == 3 <==> off % BSIZE + n > 3 * BSIZE;
      if off % BSIZE == 0 {
        assert m <= 2;
      }
    }
  }

  /** The account after one more turn, at o, of a write of n bytes at off to a file that was `was`. */
  ghost predicate WriteAccount(was: Inode, ino: Inode, off: nat, n: nat, logged: set<nat>, data: set<nat>,
                               marks: set<nat>, spans: nat, news: nat) {
    Account(logged, data, Table(ino, off, n), marks, spans,
      news + Bit(Table(ino, off, n) != 0 && was.addrs[NDIRECT] == 0))
  }

  lemma WriteAccountOn(was: Inode, ino: Inode, ino': Inode, off: nat, n: nat, o: nat, l: set<nat>, data: set<nat>,
                       marks: set<nat>,
                       spans: nat, news: nat, l': set<nat>, addr: nat, more: set<nat>, fresher: bool, spans': nat,
                         news': nat)
    requires WriteAccount(was, ino, off, n, l, data, marks, spans, news) && off <= o < off + n
    requires LogsMore(l, l', addr, if o / BSIZE < NDIRECT then 0 else ino'.addrs[NDIRECT], more)
    requires o / BSIZE < NDIRECT || ino.addrs[NDIRECT] != 0 ==> ino'.addrs[NDIRECT] == ino.addrs[NDIRECT]
    requires was.addrs[NDIRECT] != 0 ==> ino.addrs[NDIRECT] == was.addrs[NDIRECT]
    requires |more| <= Bit(fresher) + Bit(ino'.addrs[NDIRECT] != 0 && ino.addrs[NDIRECT] == 0)
    requires spans' >= spans + Bit(addr != 0) && news' >= news + Bit(fresher)
    ensures WriteAccount(was, ino', off, n, l', data + Named(addr), marks + more, spans', news')
  {
    hide Account, LogsMore, Named;
    if Reaches(off, n) {
      if o / BSIZE < NDIRECT {
        LogsWider(l, l', addr, ino'.addrs[NDIRECT], more);
      }
    } else {
      assert o / BSIZE < NDIRECT;
    }
    AccountOn(l, data, Table(ino, off, n), marks, spans, news + Bit(Table(ino, off, n) != 0 && was.addrs[NDIRECT] == 0),
              l', addr, Table(ino', off, n), more, spans',
                news' + Bit(Table(ino', off, n) != 0 && was.addrs[NDIRECT] == 0));
  }

  lemma WriteAccountStart(ino: Inode, off: nat, n: nat)
    ensures WriteAccount(ino, ino, off, n, {}, {}, {}, Span(off, off), Fresh(off, off))
  {
    hide Span, Fresh;
    AccountStart(Table(ino, off, n), off);
  }

  lemma WriteAccountEnd(was: Inode, ino: Inode, off: nat, n: nat, l: set<nat>, data: set<nat>, marks: set<nat>,
                        t: nat, b: nat)
    requires WriteAccount(was, ino, off, n, l, data, marks, Span(off, off + t), Fresh(off, off + t)) && t <= n
    ensures |l + {b}| <= WriteCost(off, n)
  {
    hide Account, Span, Fresh;
    SpanGrows(off, off + t, off + n);
    AccountEnd(l, data, Table(ino, off, n), marks, Span(off, off + t),
      Fresh(off, off + t) + Bit(Table(ino, off, n) != 0 && was.addrs[NDIRECT] == 0), b);
  }

  /** A turn at o places blocks where the whole write does. */
  lemma PlacedWider(blocks: seq<Block>, ino: Inode, blocks': seq<Block>, ino': Inode, o: nat, lo: nat, hi: nat)
    requires Placed(blocks, ino, blocks', ino', o, o + 1) && lo <= o < hi
    ensures Placed(blocks, ino, blocks', ino', lo, hi)
  {
    hide Addr;
    forall bn: nat | Touches(o, o + 1, bn) ensures Touches(lo, hi, bn) {
      assert lo / BSIZE <= o / BSIZE;
    }
  }

  lemma AccountStart(ind: nat, off: nat)
    ensures Account({}, {}, ind, {}, Span(off, off), Fresh(off, off))
  {
  }

  /** The block that off lies in is there when bytes before off share it. */
  lemma FirstBacked(blocks: seq<Block>, ino: Inode, size: nat, off: nat)
    requires Backed(blocks, ino, size) && off <= size && off % BSIZE != 0
    ensures Addr(blocks, ino, off / BSIZE) != 0
  {
    hide Addr;
    assert off / BSIZE * BSIZE < off;
    var a := Addr(blocks, ino, off / BSIZE);
  }

  /** One turn covers one more block. */
  lemma StepSpan(off: nat, o: nat, m: nat, tot: nat)
    requires o == off + tot && 0 < m <= BSIZE - o % BSIZE && (tot == 0 || o % BSIZE == 0)
    ensures Span(off, o + m) == Span(off, o) + 1
    ensures Fresh(off, o + m) == Fresh(off, o) + Bit(tot != 0 || off % BSIZE == 0)
  {
    SpanOn(off, o, o + m);
  }

  lemma SameAsNone(blocks: seq<Block>, ino: Inode, blocks1: seq<Block>, ino1: Inode, blocks2: seq<Block>, ino2: Inode,
                   size: nat, lo: nat, mid: nat, src: seq<Byte>)
    requires Bytes(blocks, ino, blocks1, ino1, size, lo, mid, src) && lo <= size
    requires Bytes(blocks1, ino1, blocks2, ino2, if size < mid then mid else size, mid, mid, [])
    ensures Bytes(blocks, ino, blocks2, ino2, size, lo, mid, src)
  {
    hide ByteAt;
    forall k: nat | k < size || lo <= k < mid
      ensures ByteAt(blocks2, ino2, k) == if lo <= k < mid then src[k - lo] else ByteAt(blocks, ino, k)
    {
      var a := ByteAt(blocks1, ino1, k);
    }
  }

  lemma OthersThrough(blocks: seq<Block>, blocks1: seq<Block>, blocks2: seq<Block>, inodes: seq<Inode>,
                      inodes': seq<Inode>, i: nat)
    requires |inodes'| == |inodes|
    requires forall j {:trigger inodes'[j]} :: 0 <= j < |inodes'| && j != i ==>
               inodes'[j] == inodes[j] && Untouched(blocks, blocks1, inodes[j])
                 && Untouched(blocks1, blocks2, inodes'[j])
    ensures forall j {:trigger inodes'[j]} :: 0 <= j < |inodes'| && j != i ==> Untouched(blocks, blocks2, inodes'[j])
  {
    hide Untouched;
    forall j | 0 <= j < |inodes'| && j != i ensures Untouched(blocks, blocks2, inodes'[j]) {
      UntouchedOn(blocks, blocks1, blocks2, inodes'[j]);
    }
  }

  /** bmap past the largest file changes nothing. */
  lemma PastEnd(blocks: seq<Block>, inodes: seq<Inode>, i: nat, bn: nat, logged: set<nat>)
    requires i < |inodes| && MAXFILE <= bn
    ensures Addr(blocks, inodes[i], bn) == 0 && Extends(blocks, inodes[i], blocks, inodes[i], bn)
    ensures forall j {:trigger inodes[j]} :: 0 <= j < |inodes| ==> Untouched(blocks, blocks, inodes[j])
    ensures Covered(blocks, blocks, logged) && LogsMore(logged, logged, 0, inodes[i].addrs[NDIRECT], {})
  {
    hide GetWord;
    ExtendsRefl(blocks, inodes[i], bn);
    AllUntouched(blocks, inodes);
  }

  lemma LogsNone(l: set<nat>)
    ensures LogsMore(l, l, 0, 0, {})
  {
  }

  lemma BackedBound(blocks: seq<Block>, ino: Inode, size: nat)
    requires Backed(blocks, ino, size)
    ensures size <= MAXBYTES
  {
  }

  lemma SameBlockOf(b: nat, bi: nat)
    requires b % BITS == 0 && bi < BITS
    ensures (b + bi) / BITS == b / BITS && (b + bi) % BITS == bi
  {
  }

  lemma BlockBacked(blocks: seq<Block>, ino: Inode, size: nat, k: nat)
    requires Backed(blocks, ino, size) && k < size
    ensures 0 < Addr(blocks, ino, k / BSIZE) < |blocks| && k / BSIZE < MAXFILE
  {
    hide Addr;
    var a := Addr(blocks, ino, k / BSIZE);
  }

  /** A byte of a block is that byte of the file. */
  lemma BlockByte(blocks: seq<Block>, ino: Inode, o: nat, j: nat)
    requires o % BSIZE + j < BSIZE && 0 < Addr(blocks, ino, o / BSIZE) < |blocks|
    ensures ByteAt(blocks, ino, o + j) == blocks[Addr(blocks, ino, o / BSIZE)][o % BSIZE + j]
  {
    hide Addr;
    WithinBlock(o, j);
  }

  lemma WithinBlock(o: nat, j: nat)
    requires o % BSIZE + j < BSIZE
    ensures (o + j) / BSIZE == o / BSIZE && (o + j) % BSIZE == o % BSIZE + j
  {
  }

  // Truncation.

  predicate IsOf(o: Owner, i: nat) {
    (o.Data? || o.Indirect?) && o.i == i
  }

  /** The blocks of inode i are free, the others as they were. */
  ghost predicate Released(owner: seq<Owner>, owner': seq<Owner>, i: nat) {
    && |owner'| == |owner|
    && forall b {:trigger owner'[b]} :: 0 <= b < |owner| ==> owner'[b] == if IsOf(owner[b], i) then Free else owner[b]
  }

  /** itrunc has dealt with the direct blocks before k. */
  ghost predicate DirectsGone(owner: seq<Owner>, owner': seq<Owner>, ino: Inode, ino': Inode, i: nat, k: nat) {
    && |owner'| == |owner| && k <= NDIRECT
    && (forall b {:trigger owner'[b]} :: 0 <= b < |owner| ==>
          owner'[b] == if owner[b].Data? && owner[b].i == i && owner[b].bn < k then Free else owner[b])
    && (forall j {:trigger ino'.addrs[j]} :: 0 <= j <= NDIRECT ==> ino'.addrs[j] == if j < k then 0 else ino.addrs[j])
  }

  /** A direct block is unlinked and freed. */
  lemma FreeDirectOk(sb: Layout, blocks: seq<Block>, inodes: seq<Inode>, owner: seq<Owner>, i: nat, k: nat)
    requires Consistent(sb, blocks, inodes, owner) && i < |inodes| && k < NDIRECT && inodes[i].addrs[k] != 0
    ensures var a := inodes[i].addrs[k];
            && a < sb.size && a < |owner| && owner[a] == Data(i, k) && BBlock(sb, a) < |blocks| && InUse(sb, blocks, a)
            && Consistent(sb, MarkFree(sb, blocks, a), inodes[i := WithAddr(inodes[i], k, 0)], owner[a := Free])
            && forall j {:trigger inodes[j]} :: 0 <= j < |inodes| && j != i ==>
                 Untouched(blocks, MarkFree(sb, blocks, a), inodes[j])
  {
    hide Owned, Addr, InUse, Untouched, GetBit;
    var a := inodes[i].addrs[k];
    OwnedSizes(sb.nmeta, blocks, inodes, owner);
    OwnedUnlinkDirect(sb.nmeta, blocks, inodes, owner, i, k);
    UnlinkDirectOk(sb, blocks, inodes, owner, i, k);
    var inodes', owner' := inodes[i := WithAddr(inodes[i], k, 0)], owner[a := Loose];
    FreeOk(sb, blocks, inodes', owner', a);
    assert owner'[a := Free] == owner[a := Free];
    forall j | 0 <= j < |inodes| && j != i ensures Untouched(blocks, MarkFree(sb, blocks, a), inodes[j]) {
      assert inodes'[j] == inodes[j];
    }
  }

  lemma DirectsOn(sb: Layout, blocks: seq<Block>, inodes: seq<Inode>, owner0: seq<Owner>, owner: seq<Owner>,
                  ino0: Inode, i: nat, k: nat, owner': seq<Owner>)
    requires Consistent(sb, blocks, inodes, owner) && i < |inodes|
    requires DirectsGone(owner0, owner, ino0, inodes[i], i, k) && k < NDIRECT
    requires owner' == if inodes[i].addrs[k] == 0 || inodes[i].addrs[k] >= |owner| then owner
               else owner[inodes[i].addrs[k] := Free]
    ensures DirectsGone(owner0, owner', ino0, WithAddr(inodes[i], k, 0), i, k + 1)
  {
    hide Addr, InUse, Marked;
    if inodes[i].addrs[k] != 0 {
      OwnedUnlinkDirect(sb.nmeta, blocks, inodes, owner, i, k);
    }
    forall b | 0 <= b < |owner0|
      ensures owner'[b] == if owner0[b].Data? && owner0[b].i == i && owner0[b].bn < k + 1 then Free else owner0[b]
    {
      assert OwnerOk(sb.nmeta, blocks, inodes, owner, b);
      if owner[b] == Data(i, k) {
        DirectAddr(blocks, inodes[i], k);
      }
    }
  }

  /** itrunc has freed the blocks named by entries before k of the block of addresses. */
  ghost predicate EntriesGone(owner: seq<Owner>, owner': seq<Owner>, i: nat, k: nat) {
    && |owner'| == |owner|
    && forall b {:trigger owner'[b]} :: 0 <= b < |owner| ==>
         owner'[b] == if owner[b].Data? && owner[b].i == i && NDIRECT <= owner[b].bn < NDIRECT + k then Free
                      else if ViaIndirect(owner[b], i) then Loose else owner[b]
  }

  lemma EntriesOn(owner: seq<Owner>, owner': seq<Owner>, i: nat, k: nat, a: nat)
    requires EntriesGone(owner, owner', i, k)
    requires forall b {:trigger owner[b]} :: 0 <= b < |owner| && owner[b] == Data(i, NDIRECT + k) ==> b == a
    requires a != 0 ==> a < |owner| && owner[a] == Data(i, NDIRECT + k)
    requires 0 < |owner| ==> !owner[0].Data?
    ensures a != 0 ==> owner'[a].Loose? && EntriesGone(owner, owner'[a := Free], i, k + 1)
    ensures a == 0 ==> EntriesGone(owner, owner', i, k + 1)
  {
    if a == 0 {
      forall b | 0 <= b < |owner| ensures owner[b] != Data(i, NDIRECT + k) {
      }
    }
  }

  /** Where entry k of inode i's block of addresses leads, and that nothing else is there. */
  lemma EntryOwner(sb: Layout, blocks: seq<Block>, inodes: seq<Inode>, owner: seq<Owner>, i: nat, k: nat)
    requires Consistent(sb, blocks, inodes, owner) && i < |inodes| && k < NINDIRECT && inodes[i].addrs[NDIRECT] != 0
    ensures inodes[i].addrs[NDIRECT] < |blocks|
    ensures var a := GetWord(blocks[inodes[i].addrs[NDIRECT]], k);
            && (a != 0 ==> a < sb.size && a < |owner| && owner[a] == Data(i, NDIRECT + k))
            && (forall b {:trigger owner[b]} :: 0 <= b < |owner| && owner[b] == Data(i, NDIRECT + k) ==> b == a)
            && (0 < |owner| ==> !owner[0].Data?)
  {
    hide GetWord, Addr, InUse, Marked;
    IndirectIs(sb.nmeta, blocks, inodes, owner, i);
    EntryAddr(blocks, inodes[i], NDIRECT + k);
    var a := GetWord(blocks[inodes[i].addrs[NDIRECT]], k);
    if a != 0 {
      SlotIs(sb.nmeta, blocks, inodes, owner, i, NDIRECT + k);
    }
    forall b | 0 <= b < |owner| && owner[b] == Data(i, NDIRECT + k) ensures b == a {
      assert OwnerOk(sb.nmeta, blocks, inodes, owner, b);
    }
    if 0 < |owner| {
      assert OwnerOk(sb.nmeta, blocks, inodes, owner, 0);
    }
  }

  lemma EntriesStart(owner: seq<Owner>, i: nat)
    ensures EntriesGone(owner, Detached(owner, i), i, 0)
  {
  }

  /** With the block of addresses freed too, all that hung from it is free. */
  lemma EntriesEnd(sb: Layout, blocks: seq<Block>, inodes: seq<Inode>, owner: seq<Owner>, owner': seq<Owner>, i: nat)
    requires Consistent(sb, blocks, inodes, owner) && i < |inodes| && inodes[i].addrs[NDIRECT] != 0
    requires EntriesGone(owner, owner', i, NINDIRECT)
    ensures var a := inodes[i].addrs[NDIRECT];
            && a < |owner| && owner'[a].Loose?
            && forall b {:trigger owner'[a := Free][b]} :: 0 <= b < |owner| ==>
                 owner'[a := Free][b] == if ViaIndirect(owner[b], i) then Free else owner[b]
  {
    hide Addr, InUse, Marked;
    IndirectIs(sb.nmeta, blocks, inodes, owner, i);
    forall b | 0 <= b < |owner| ensures owner[b] == Indirect(i) ==> b == inodes[i].addrs[NDIRECT] {
      assert OwnerOk(sb.nmeta, blocks, inodes, owner, b);
    }
    forall b | 0 <= b < |owner| && owner[b].Data? ensures owner[b].bn < MAXFILE {
      assert OwnerOk(sb.nmeta, blocks, inodes, owner, b);
    }
  }

  /** What itrunc does to the part of the tree that hangs from the block of addresses, if there is one. */
  ghost predicate TableGone(owner: seq<Owner>, owner': seq<Owner>, i: nat) {
    && |owner'| == |owner|
    && forall b {:trigger owner'[b]} :: 0 <= b < |owner| ==>
         owner'[b] == if ViaIndirect(owner[b], i) then Free else owner[b]
  }

  lemma NoTableOwned(sb: Layout, blocks: seq<Block>, inodes: seq<Inode>, owner: seq<Owner>, i: nat)
    requires Consistent(sb, blocks, inodes, owner) && i < |inodes| && inodes[i].addrs[NDIRECT] == 0
    ensures TableGone(owner, owner, i)
  {
    hide GetWord, InUse, Marked;
    forall b | 0 <= b < |owner| ensures !ViaIndirect(owner[b], i) {
      assert OwnerOk(sb.nmeta, blocks, inodes, owner, b);
    }
  }

  lemma AllReleased(owner: seq<Owner>, owner1: seq<Owner>, owner2: seq<Owner>, ino: Inode, ino1: Inode, i: nat)
    requires DirectsGone(owner, owner1, ino, ino1, i, NDIRECT) && TableGone(owner1, owner2, i)
    ensures Released(owner, owner2, i)
  {
    forall b | 0 <= b < |owner| ensures owner2[b] == if IsOf(owner[b], i) then Free else owner[b] {
      var o := owner1[b];
    }
  }

  /** Freeing a block changes only the bitmap. */
  lemma MarkFreeOthers(sb: Layout, blocks: seq<Block>, b: nat, c: nat)
    requires LayoutOk(sb) && |blocks| == sb.size && b < sb.size && sb.nmeta <= c < sb.size
    ensures BBlock(sb, b) < |blocks| && MarkFree(sb, blocks, b)[c] == blocks[c]
  {
    BBlockIsMeta(sb, b);
  }

  lemma Sizes(sb: Layout, blocks: seq<Block>, inodes: seq<Inode>, owner: seq<Owner>)
    requires Consistent(sb, blocks, inodes, owner)
    ensures LayoutOk(sb) && |blocks| == |owner| == sb.size
  {
  }

  lemma TableBlock(sb: Layout, blocks: seq<Block>, inodes: seq<Inode>, owner: seq<Owner>, i: nat)
    requires Consistent(sb, blocks, inodes, owner) && i < |inodes| && inodes[i].addrs[NDIRECT] != 0
    ensures sb.nmeta <= inodes[i].addrs[NDIRECT] < sb.size
  {
    IndirectIs(sb.nmeta, blocks, inodes, owner, i);
  }

  lemma TidyAfter(owner: seq<Owner>, owner': seq<Owner>, i: nat)
    requires Tidy(owner) && TableGone(owner, owner', i)
    ensures Tidy(owner')
  {
    forall b | 0 <= b < |owner'| ensures !owner'[b].Loose? {
      var o := owner[b];
    }
  }

  lemma BytesPart(blocks: seq<Block>, ino: Inode, blocks': seq<Block>, ino': Inode, size: nat, lo: nat, hi: nat,
                  src: seq<Byte>)
    requires Bytes(blocks, ino, blocks', ino', size, lo, hi, src)
    ensures Bytes(blocks, ino, blocks', ino', size, lo, hi, src[..hi - lo])
  {
    hide ByteAt;
  }

  /** A chunk of src, or as much of it as could be written, after what was written before. */
  lemma ChunkWritten(blocks: seq<Block>, ino: Inode, blocks1: seq<Block>, ino1: Inode, blocks2: seq<Block>, ino2: Inode,
                     size: nat, lo: nat, mid: nat, n: nat, r: nat, src: seq<Byte>)
    requires lo <= size && Bytes(blocks, ino, blocks1, ino1, size, lo, mid, src)
    requires lo <= mid && r <= n && mid - lo + n <= |src| && ino1.size == if size < mid then mid else size
    requires Bytes(blocks1, ino1, blocks2, ino2, ino1.size, mid, mid + r, src[mid - lo..mid - lo + n])
    ensures Bytes(blocks, ino, blocks2, ino2, size, lo, mid + r, src)
  {
    hide Bytes;
    BytesPart(blocks1, ino1, blocks2, ino2, ino1.size, mid, mid + r, src[mid - lo..mid - lo + n]);
    assert src[mid - lo..mid - lo + n][..r] == src[mid - lo..mid - lo + r];
    BytesOn(blocks, ino, blocks1, ino1, blocks2, ino2, size, lo, mid, mid + r, src);
  }
}
