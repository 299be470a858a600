/**
 The image that mkfs/mkfs.c builds: blocks handed out in order, files appended to, and one
 bitmap written at the end.
 */
module Mkfs {
  import opened Blocks
  import opened FsSpec

  /** Before the bitmap is written: blocks from freeblock on are unused and zero, and so is the bitmap. */
  ghost predicate Building(sb: Layout, blocks: seq<Block>, inodes: seq<Inode>, owner: seq<Owner>, freeblock: nat) {
    && LayoutOk(sb) && |blocks| == sb.size && |inodes| <= sb.ninodes && sb.nmeta <= freeblock <= sb.size
    && Owned(sb.nmeta, blocks, inodes, owner) && Tidy(owner)
    && (forall b {:trigger owner[b]} :: 0 <= b < |owner| ==> (owner[b].Free? <==> freeblock <= b))
    && (forall b {:trigger blocks[b]} :: freeblock <= b < |blocks| || 2 <= b < sb.nmeta ==>
         IsZero(blocks[b]))
  }

  lemma TakeOk(sb: Layout, blocks: seq<Block>, inodes: seq<Inode>, owner: seq<Owner>, b: nat)
    requires Building(sb, blocks, inodes, owner, b) && b < sb.size
    ensures |owner| == sb.size && Owned(sb.nmeta, blocks, inodes, owner[b := Loose]) && blocks[b] == ZERO && 0 < b
  {
    hide Addr;
    ZeroIs(blocks[b]);
    OwnedSizes(sb.nmeta, blocks, inodes, owner);
    OwnedSwitch(sb.nmeta, blocks, inodes, owner, b, Loose);
  }

  lemma TakeDirect(sb: Layout, blocks: seq<Block>, inodes: seq<Inode>, owner: seq<Owner>, i: nat, bn: nat, b: nat)
    requires Building(sb, blocks, inodes, owner, b) && b < sb.size && i < |inodes| && bn < NDIRECT
    requires inodes[i].addrs[bn] == 0
    ensures b < |owner| && Building(sb, blocks, inodes[i := WithAddr(inodes[i], bn, b)], owner[b := Data(i, bn)], b + 1)
    ensures Extends(blocks, inodes[i], blocks, WithAddr(inodes[i], bn, b), bn)
    ensures Addr(blocks, WithAddr(inodes[i], bn, b), bn) == b
  {
    hide Addr, Owned, Extends;
    TakeOk(sb, blocks, inodes, owner, b);
    OwnedLinkDirect(sb.nmeta, blocks, inodes, owner[b := Loose], i, bn, b);
    assert owner[b := Loose][b := Data(i, bn)] == owner[b := Data(i, bn)];
    ExtendsDirect(blocks, inodes[i], bn, b);
  }

  lemma TakeTable(sb: Layout, blocks: seq<Block>, inodes: seq<Inode>, owner: seq<Owner>, i: nat, bn: nat, b: nat)
    requires Building(sb, blocks, inodes, owner, b) && b < sb.size && i < |inodes| && inodes[i].addrs[NDIRECT] == 0
    ensures b < |owner|
    ensures Building(sb, blocks, inodes[i := WithAddr(inodes[i], NDIRECT, b)], owner[b := Indirect(i)], b + 1)
    ensures Extends(blocks, inodes[i], blocks, WithAddr(inodes[i], NDIRECT, b), bn)
    ensures forall bm: nat {:trigger Addr(blocks, WithAddr(inodes[i], NDIRECT, b), bm)} ::
              Addr(blocks, WithAddr(inodes[i], NDIRECT, b), bm) == Addr(blocks, inodes[i], bm)
  {
    hide Addr, Owned, Extends;
    TakeOk(sb, blocks, inodes, owner, b);
    OwnedLinkIndirect(sb.nmeta, blocks, inodes, owner[b := Loose], i, b);
    assert owner[b := Loose][b := Indirect(i)] == owner[b := Indirect(i)];
    ExtendsIndirect(blocks, inodes[i], bn, b);
  }

  lemma TakeEntry(sb: Layout, blocks: seq<Block>, inodes: seq<Inode>, owner: seq<Owner>, i: nat, bn: nat, b: nat)
    requires Building(sb, blocks, inodes, owner, b) && b < sb.size && i < |inodes| && NDIRECT <= bn < MAXFILE
    requires inodes[i].addrs[NDIRECT] != 0 && Addr(blocks, inodes[i], bn) == 0
    ensures b < |owner| && b < WORD_LIMIT && sb.nmeta <= inodes[i].addrs[NDIRECT] < b
    ensures Building(sb, PutEntry(blocks, inodes[i].addrs[NDIRECT], bn - NDIRECT, b), inodes, owner[b := Data(i, bn)],
              b + 1)
    ensures Extends(blocks, inodes[i], PutEntry(blocks, inodes[i].addrs[NDIRECT], bn - NDIRECT, b), inodes[i], bn)
    ensures Addr(PutEntry(blocks, inodes[i].addrs[NDIRECT], bn - NDIRECT, b), inodes[i], bn) == b
    ensures forall j {:trigger inodes[j]} :: 0 <= j < |inodes| && j != i ==>
              Untouched(blocks, PutEntry(blocks, inodes[i].addrs[NDIRECT], bn - NDIRECT, b), inodes[j])
  {
    hide Addr, Owned, Extends, Untouched, PutWord;
    var ind := inodes[i].addrs[NDIRECT];
    IndirectIs(sb.nmeta, blocks, inodes, owner, i);
    TakeOk(sb, blocks, inodes, owner, b);
    OwnedLinkEntry(sb.nmeta, blocks, inodes, owner[b := Loose], i, bn, b);
    assert owner[b := Loose][b := Data(i, bn)] == owner[b := Data(i, bn)];
    ExtendsEntry(sb.nmeta, blocks, inodes, owner, i, bn, b);
    var blocks' := PutEntry(blocks, ind, bn - NDIRECT, b);
    forall j | 0 <= j < |inodes| && j != i ensures Untouched(blocks, blocks', inodes[j]) {
      OneBlock(sb.nmeta, blocks, blocks', inodes, owner, i, ind, j);
    }
  }

  lemma FillOk(sb: Layout, blocks: seq<Block>, inodes: seq<Inode>, owner: seq<Owner>, freeblock: nat, a: nat, b: Block)
    requires Building(sb, blocks, inodes, owner, freeblock) && a < |owner| && owner[a].Data?
    ensures a < |blocks| && Building(sb, blocks[a := b], inodes, owner, freeblock)
    ensures forall j {:trigger inodes[j]} :: 0 <= j < |inodes| && j != owner[a].i ==>
              Untouched(blocks, blocks[a := b], inodes[j])
  {
    hide Addr, Owned, Untouched, GetWord;
    OwnedSizes(sb.nmeta, blocks, inodes, owner);
    MetaBlocks(sb.nmeta, blocks, inodes, owner, a);
    var blocks' := blocks[a := b];
    forall j | 0 <= j < |inodes| ensures SameIndirect(blocks, blocks', inodes[j]) {
      if inodes[j].addrs[NDIRECT] != 0 {
        IndirectIs(sb.nmeta, blocks, inodes, owner, j);
      }
    }
    OwnedKeep(sb.nmeta, blocks, blocks', inodes, owner);
    forall j | 0 <= j < |inodes| && j != owner[a].i ensures Untouched(blocks, blocks', inodes[j]) {
      OneBlock(sb.nmeta, blocks, blocks', inodes, owner, owner[a].i, a, j);
    }
  }

  lemma BuildingResize(sb: Layout, blocks: seq<Block>, inodes: seq<Inode>, owner: seq<Owner>, freeblock: nat, i: nat,
                       size: nat)
    requires Building(sb, blocks, inodes, owner, freeblock) && i < |inodes|
    ensures Building(sb, blocks, inodes[i := Inode(size, inodes[i].addrs)], owner, freeblock)
  {
    hide Owned;
    OwnedResize(sb.nmeta, blocks, inodes, owner, i, size);
  }

  // How many blocks a file takes.

  function Ceil(size: nat): nat {
    (size + BSIZE - 1) / BSIZE
  }

  /** The blocks of a file of that size, with its block of addresses. */
  function Used(size: nat): nat {
    Ceil(size) + Bit(Ceil(size) > NDIRECT)
  }

  /** The blocks that a stretch within one block adds to a file. */
  lemma UsedStep(o: nat, m: nat)
    requires 0 < m && o % BSIZE + m <= BSIZE
    ensures Used(o + m) == Used(o) + if o % BSIZE != 0 then 0 else 1 + Bit(o / BSIZE == NDIRECT)
    ensures NDIRECT * BSIZE < o + m <==> NDIRECT <= o / BSIZE
    ensures NDIRECT * BSIZE < o <==> NDIRECT < o / BSIZE || (NDIRECT == o / BSIZE && o % BSIZE != 0)
    ensures o / BSIZE * BSIZE < o <==> o % BSIZE != 0
    ensures forall bn: nat {:trigger bn * BSIZE} :: bn * BSIZE < o + m <==> bn * BSIZE < o || bn == o / BSIZE
  {
    if o % BSIZE == 0 {
      assert Ceil(o) == o / BSIZE && Ceil(o + m) == o / BSIZE + 1;
    } else {
      assert Ceil(o) == o / BSIZE + 1 && Ceil(o + m) == o / BSIZE + 1;
    }
  }

  lemma {:induction false} UsedGrows(lo: nat, hi: nat)
    requires lo <= hi
    ensures Used(lo) <= Used(hi)
  {
    assert Ceil(lo) <= Ceil(hi);
  }

  /** The file has exactly the blocks that its first `size` bytes need. */
  ghost predicate Exact(blocks: seq<Block>, ino: Inode, size: nat) {
    && size <= MAXBYTES
    && (ino.addrs[NDIRECT] != 0 <==> NDIRECT * BSIZE < size)
    && forall bn: nat {:trigger Addr(blocks, ino, bn)} :: bn < MAXFILE ==>
         (Addr(blocks, ino, bn) != 0 <==> bn * BSIZE < size)
  }

  lemma ExactBacked(sb: Layout, blocks: seq<Block>, inodes: seq<Inode>, owner: seq<Owner>, freeblock: nat, i: nat,
                    size: nat)
    requires Building(sb, blocks, inodes, owner, freeblock) && i < |inodes| && Exact(blocks, inodes[i], size)
    ensures Backed(blocks, inodes[i], size)
  {
    hide Addr, Owned;
    forall bn: nat | bn * BSIZE < size ensures 0 < Addr(blocks, inodes[i], bn) < |blocks| {
      var a := Addr(blocks, inodes[i], bn);
      SlotIs(sb.nmeta, blocks, inodes, owner, i, bn);
      OwnedSizes(sb.nmeta, blocks, inodes, owner);
    }
  }

  /** One stretch more, within one block, which the file has got if it had not. */
  lemma ExactMore(sb: Layout, blocks: seq<Block>, ino: Inode, blocks1: seq<Block>, inodes: seq<Inode>,
                  owner: seq<Owner>, freeblock: nat,
                  i: nat, o: nat, m: nat, b: Block)
    requires Building(sb, blocks1, inodes, owner, freeblock) && i < |inodes| && 0 < m && o % BSIZE + m <= BSIZE
    requires o < MAXBYTES
    requires Exact(blocks, ino, o) && Extends(blocks, ino, blocks1, inodes[i], o / BSIZE)
    requires Addr(blocks1, inodes[i], o / BSIZE) != 0
    requires inodes[i].addrs[NDIRECT] != 0 <==> NDIRECT <= o / BSIZE
    ensures Addr(blocks1, inodes[i], o / BSIZE) < |blocks1|
    ensures Exact(blocks1[Addr(blocks1, inodes[i], o / BSIZE) := b], inodes[i], o + m)
  {
    hide Addr, Owned;
    var a := Addr(blocks1, inodes[i], o / BSIZE);
    SlotIs(sb.nmeta, blocks1, inodes, owner, i, o / BSIZE);
    OwnedSizes(sb.nmeta, blocks1, inodes, owner);
    var blocks2 := blocks1[a := b];
    UsedStep(o, m);
    EndsWithin(o, m);
    forall bn: nat | bn < MAXFILE ensures Addr(blocks2, inodes[i], bn) != 0 <==> bn * BSIZE < o + m {
      DataKeepsAddr(sb.nmeta, blocks1, blocks2, inodes, owner, i, a, bn);
      var c, c1 := Addr(blocks, ino, bn), Addr(blocks1, inodes[i], bn);
    }
  }

  /** The other inodes, and the blocks of their files, are the same. */
  ghost predicate OthersSame(blocks: seq<Block>, inodes: seq<Inode>, blocks': seq<Block>, inodes': seq<Inode>, i: nat) {
    && |inodes'| == |inodes|
    && forall j {:trigger inodes'[j]} :: 0 <= j < |inodes'| && j != i ==>
         inodes'[j] == inodes[j] && Untouched(blocks, blocks', inodes'[j])
  }

  lemma OthersOn(blocks: seq<Block>, inodes: seq<Inode>, blocks1: seq<Block>, inodes1: seq<Inode>,
                 blocks2: seq<Block>, inodes2: seq<Inode>, i: nat)
    requires OthersSame(blocks, inodes, blocks1, inodes1, i) && OthersSame(blocks1, inodes1, blocks2, inodes2, i)
    ensures OthersSame(blocks, inodes, blocks2, inodes2, i)
  {
    hide Untouched;
    forall j | 0 <= j < |inodes2| && j != i ensures inodes2[j] == inodes[j] && Untouched(blocks, blocks2, inodes2[j]) {
      assert inodes2[j] == inodes1[j];
      UntouchedOn(blocks, blocks1, blocks2, inodes[j]);
    }
  }

  lemma OthersJust(blocks: seq<Block>, blocks': seq<Block>, inodes: seq<Inode>, i: nat)
    requires forall j {:trigger inodes[j]} :: 0 <= j < |inodes| && j != i ==> Untouched(blocks, blocks', inodes[j])
    ensures OthersSame(blocks, inodes, blocks', inodes, i)
  {
    hide Untouched;
  }

  lemma SameLength(blocks: seq<Block>, inodes: seq<Inode>, blocks': seq<Block>, inodes': seq<Inode>, i: nat)
    requires OthersSame(blocks, inodes, blocks', inodes', i)
    ensures |inodes'| == |inodes|
  {
  }

  lemma SizesOf(sb: Layout, blocks: seq<Block>, inodes: seq<Inode>, owner: seq<Owner>, freeblock: nat)
    requires Building(sb, blocks, inodes, owner, freeblock)
    ensures |blocks| == |owner| == sb.size && sb.nmeta <= freeblock <= sb.size && 0 < sb.nmeta
    ensures Owned(sb.nmeta, blocks, inodes, owner)
  {
  }

  lemma OthersRefl(blocks: seq<Block>, inodes: seq<Inode>, i: nat)
    ensures OthersSame(blocks, inodes, blocks, inodes, i)
  {
    hide Untouched;
    AllUntouched(blocks, inodes);
  }

  lemma ExactSize(blocks: seq<Block>, ino: Inode, size: nat)
    requires Exact(blocks, ino, size)
    ensures size <= MAXBYTES
  {
  }

  // What the files hold.

  ghost predicate Holds(blocks: seq<Block>, ino: Inode, data: seq<Byte>) {
    && ino.size == |data| && Exact(blocks, ino, |data|)
    && forall k: nat {:trigger ByteAt(blocks, ino, k)} :: k < |data| ==> ByteAt(blocks, ino, k) == data[k]
  }

  lemma SizeFits(blocks: seq<Block>, ino: Inode, data: seq<Byte>)
    requires Holds(blocks, ino, data)
    ensures ino.size <= (ino.size / BSIZE + 1) * BSIZE < WORD_LIMIT
  {
  }

  ghost predicate HoldAll(blocks: seq<Block>, inodes: seq<Inode>, files: seq<seq<Byte>>) {
    |files| == |inodes| && forall i {:trigger inodes[i]} {:trigger files[i]} :: 0 <= i < |inodes| ==>
      Holds(blocks, inodes[i], files[i])
  }

  /** The blocks that all the files take. */
  function Total(files: seq<seq<Byte>>): nat {
    if files == [] then 0 else Total(files[..|files| - 1]) + Used(|files[|files| - 1]|)
  }

  lemma {:induction false} TotalUpdate(files: seq<seq<Byte>>, i: nat, f: seq<Byte>)
    requires i < |files|
    ensures Total(files[i := f]) == Total(files) - Used(|files[i]|) + Used(|f|)
  {
    hide Used;
    var n := |files| - 1;
    if i < n {
      TotalUpdate(files[..n], i, f);
      assert files[i := f][..n] == files[..n][i := f];
    } else {
      assert files[i := f][..n] == files[..n];
    }
  }

  lemma TotalPush(files: seq<seq<Byte>>, f: seq<Byte>)
    ensures Total(files + [f]) == Total(files) + Used(|f|)
  {
    assert (files + [f])[..|files|] == files;
  }

  lemma HoldsUntouched(blocks: seq<Block>, blocks': seq<Block>, ino: Inode, data: seq<Byte>)
    requires Holds(blocks, ino, data) && Untouched(blocks, blocks', ino)
    ensures Holds(blocks', ino, data)
  {
    hide ByteAt, Addr, Untouched;
    SameAddrs(blocks, blocks', ino);
    forall k: nat | k < |data| ensures ByteAt(blocks', ino, k) == data[k] {
      BytesUntouched(blocks, blocks', ino, k);
    }
    forall bn: nat | bn < MAXFILE ensures Addr(blocks', ino, bn) != 0 <==> bn * BSIZE < |data| {
      var a := Addr(blocks, ino, bn);
    }
  }

  lemma HoldsMore(blocks: seq<Block>, ino: Inode, was: seq<Byte>, blocks': seq<Block>, ino': Inode, data: seq<Byte>)
    requires Holds(blocks, ino, was) && Exact(blocks', ino', |was| + |data|)
    requires Bytes(blocks, ino, blocks', ino', |was|, |was|, |was| + |data|, data)
    ensures Holds(blocks', Inode(|was| + |data|, ino'.addrs), was + data)
  {
    hide GetWord;
    var ino1 := Inode(|was| + |data|, ino'.addrs);
    forall bn: nat ensures Addr(blocks', ino1, bn) == Addr(blocks', ino', bn) {
    }
    forall k: nat | k < |was + data| ensures ByteAt(blocks', ino1, k) == (was + data)[k] {
      var b := ByteAt(blocks', ino', k);
      var c := ByteAt(blocks, ino, k);
    }
  }

  lemma HoldAllMore(blocks: seq<Block>, inodes: seq<Inode>, files: seq<seq<Byte>>, blocks': seq<Block>,
                    inodes': seq<Inode>, i: nat, data: seq<Byte>)
    requires HoldAll(blocks, inodes, files) && OthersSame(blocks, inodes, blocks', inodes', i) && i < |inodes|
    requires Holds(blocks', Inode(|data|, inodes'[i].addrs), data)
    ensures HoldAll(blocks', inodes'[i := Inode(|data|, inodes'[i].addrs)], files[i := data])
  {
    hide Holds, Untouched;
    forall j | 0 <= j < |inodes'| && j != i ensures Holds(blocks', inodes'[j], files[j]) {
      assert inodes'[j] == inodes[j];
      HoldsUntouched(blocks, blocks', inodes[j], files[j]);
    }
  }

  lemma HoldsNothing(blocks: seq<Block>, ino: Inode)
    requires ino.size == 0 && forall k {:trigger ino.addrs[k]} :: 0 <= k <= NDIRECT ==> ino.addrs[k] == 0
    ensures Holds(blocks, ino, [])
  {
    hide GetWord;
  }

  lemma MoreInodes(sb: Layout, blocks: seq<Block>, inodes: seq<Inode>, owner: seq<Owner>, freeblock: nat, ino: Inode)
    requires Building(sb, blocks, inodes, owner, freeblock) && |inodes| < sb.ninodes
    requires forall k {:trigger ino.addrs[k]} :: 0 <= k <= NDIRECT ==> ino.addrs[k] == 0
    ensures Building(sb, blocks, inodes + [ino], owner, freeblock)
  {
    hide GetWord;
    var inodes' := inodes + [ino];
    forall i: nat, bn: nat ensures SlotOk(blocks, inodes', owner, i, bn) {
      assert SlotOk(blocks, inodes, owner, i, bn);
    }
    forall i: nat ensures IndirectOk(inodes', owner, i) {
      assert IndirectOk(inodes, owner, i);
    }
    forall b: nat ensures OwnerOk(sb.nmeta, blocks, inodes', owner, b) {
      assert OwnerOk(sb.nmeta, blocks, inodes, owner, b);
    }
  }

  lemma FilesOf(blocks: seq<Block>, inodes: seq<Inode>, files: seq<seq<Byte>>, i: nat)
    requires HoldAll(blocks, inodes, files) && i < |inodes|
    ensures |files| == |inodes| && |files[i]| <= MAXBYTES && Holds(blocks, inodes[i], files[i])
  {
    hide ByteAt, Addr;
  }

  /** A bitmap block of which the bits below freeblock are set marks just the blocks handed out. */
  lemma BitmapOk(sb: Layout, blocks: seq<Block>, inodes: seq<Inode>, owner: seq<Owner>, freeblock: nat, block: Block)
    requires Building(sb, blocks, inodes, owner, freeblock) && freeblock < BITS
    requires forall k: nat {:trigger GetBit(block, k)} :: k < BITS ==> (GetBit(block, k) <==> k < freeblock)
    ensures sb.bmapstart < |blocks| && Consistent(sb, blocks[sb.bmapstart := block], inodes, owner)
    ensures forall i {:trigger inodes[i]} :: 0 <= i < |inodes| ==>
              Untouched(blocks, blocks[sb.bmapstart := block], inodes[i])
  {
    hide Addr, Owned, GetBit, GetWord;
    OwnedSizes(sb.nmeta, blocks, inodes, owner);
    BBlockIsMeta(sb, 0);
    var blocks' := blocks[sb.bmapstart := block];
    MetaBlocks(sb.nmeta, blocks, inodes, owner, sb.bmapstart);
    forall i | 0 <= i < |inodes| ensures Untouched(blocks, blocks', inodes[i]) {
      UntouchedAll(sb.nmeta, blocks, blocks', inodes, owner, i);
    }
    OwnedKeep(sb.nmeta, blocks, blocks', inodes, owner);
    forall b: nat | b < sb.size ensures InUse(sb, blocks', b) <==> !owner[b].Free? {
      BBlockIsMeta(sb, b);
      if b < BITS {
        assert b / BITS == 0 && b % BITS == b;
        var u := GetBit(block, b);
      } else {
        assert b / BITS > 0;
        ZeroIs(blocks[BBlock(sb, b)]);
        ZeroBit(b % BITS);
      }
    }
  }

  function Rounded(ino: Inode): Inode {
    Inode((ino.size / BSIZE + 1) * BSIZE, ino.addrs)
  }

  /** Rounding up the size as mkfs does leaves a hole exactly when the file fills whole blocks. */
  lemma RootHole(sb: Layout, blocks: seq<Block>, inodes: seq<Inode>, owner: seq<Owner>, freeblock: nat, i: nat)
    requires Building(sb, blocks, inodes, owner, freeblock) && i < |inodes| && Exact(blocks, inodes[i], inodes[i].size)
    ensures Backed(blocks, Rounded(inodes[i]), Rounded(inodes[i]).size) <==> inodes[i].size % BSIZE != 0
  {
    hide GetWord, Owned;
    var ino, size := inodes[i], inodes[i].size;
    ExactBacked(sb, blocks, inodes, owner, freeblock, i, size);
    forall bn: nat ensures Addr(blocks, Rounded(ino), bn) == Addr(blocks, ino, bn) {
    }
    if size % BSIZE == 0 {
      var a := Addr(blocks, Rounded(ino), size / BSIZE);
      assert size / BSIZE * BSIZE == size;
    } else {
      assert (size / BSIZE + 1) * BSIZE <= MAXBYTES;
      forall bn: nat | bn * BSIZE < (size / BSIZE + 1) * BSIZE ensures 0 < Addr(blocks, Rounded(ino), bn) < |blocks| {
        assert bn * BSIZE < size;
        var a := Addr(blocks, ino, bn);
      }
    }
  }

  lemma StartOk(sb: Layout, blocks: seq<Block>, empty: Inode, owner: seq<Owner>)
    requires LayoutOk(sb) && |blocks| == |owner| == sb.size && 0 < sb.ninodes && 0 < sb.nmeta
    requires forall b {:trigger blocks[b]} :: 0 <= b < sb.size ==> IsZero(blocks[b])
    requires forall b {:trigger owner[b]} :: 0 <= b < sb.size ==> owner[b] == if b < sb.nmeta then Meta else Free
    requires forall k {:trigger empty.addrs[k]} :: 0 <= k <= NDIRECT ==> empty.addrs[k] == 0
    ensures Building(sb, blocks, [empty], owner, sb.nmeta)
  {
    hide GetWord, IsZero;
  }

  // A whole image.

  const DIRSIZ := 14
  const ROOTINO := 1

  type Name = n: seq<Byte> | |n| == DIRSIZ witness seq(DIRSIZ, _ => 0)

  const DOT: Name := [46, 0, 0, 0, 0, 0, 0, 0, 0, 0, 0, 0, 0, 0]
  const DOTDOT: Name := [46, 46, 0, 0, 0, 0, 0, 0, 0, 0, 0, 0, 0, 0]

  datatype File = File(name: Name, data: seq<Byte>)

  /** A directory entry. */
  function Dirent(inum: nat, name: Name): (r: seq<Byte>)
    requires inum < 0x1_0000
    ensures |r| == 2 + DIRSIZ && r[0] as int + 0x100 * r[1] as int == inum && r[2..] == name
  {
    [inum % 0x100, inum / 0x100] + name
  }

  /** What the root directory holds: itself, its parent, and the files in order. */
  function RootDir(files: seq<File>): (r: seq<Byte>)
    requires |files| + 2 <= 0x1_0000
    ensures |r| == (|files| + 2) * (2 + DIRSIZ)
  {
    if files == [] then Dirent(ROOTINO, DOT) + Dirent(ROOTINO, DOTDOT)
    else RootDir(files[..|files| - 1]) + Dirent(|files| + 1, files[|files| - 1].name)
  }

  /** What each inode of the image holds: inode 0 nothing, the root directory, then the files. */
  function Planned(files: seq<File>): (r: seq<seq<Byte>>)
    requires |files| + 2 <= 0x1_0000
    ensures |r| == |files| + 2
  {
    [[], RootDir(files)] + seq(|files|, k requires 0 <= k < |files| => files[k].data)
  }

  function Metas(fssize: nat, ninodes: nat, nlog: nat): nat {
    2 + nlog + (ninodes / IPB + 1) + (fssize / BITS + 1)
  }

  /** There is room for it all, in the image and in one bitmap block. */
  predicate Fits(nmeta: nat, fssize: nat, files: seq<File>)
    requires |files| + 2 <= 0x1_0000
  {
    && nmeta + Total(Planned(files)) <= fssize && nmeta + Total(Planned(files)) < BITS
    && forall i {:trigger Planned(files)[i]} :: 0 <= i < |files| + 2 ==> |Planned(files)[i]| <= MAXBYTES
  }

  ghost predicate Below(a: seq<seq<Byte>>, b: seq<seq<Byte>>) {
    |a| <= |b| && forall i {:trigger a[i]} {:trigger b[i]} :: 0 <= i < |a| ==> |a[i]| <= |b[i]|
  }

  lemma {:induction false} TotalBelow(a: seq<seq<Byte>>, b: seq<seq<Byte>>)
    requires Below(a, b)
    ensures Total(a) <= Total(b)
    decreases |b|
  {
    hide Used;
    if a != [] {
      if |a| == |b| {
        TotalBelow(a[..|a| - 1], b[..|b| - 1]);
        UsedGrows(|a[|a| - 1]|, |b[|b| - 1]|);
      } else {
        TotalBelow(a, b[..|b| - 1]);
      }
    }
  }

  /** What is in the image when k files have been copied and the next has its entry. */
  lemma PlannedNext(files: seq<File>, k: nat)
    requires |files| + 2 <= 0x1_0000 && k < |files|
    ensures var now := Planned(files[..k]) + [[]];
            now[ROOTINO] + Dirent(k + 2, files[k].name) == RootDir(files[..k + 1])
            && now[ROOTINO := RootDir(files[..k + 1])][k + 2 := files[k].data] == Planned(files[..k + 1])
    ensures Below(Planned(files[..k + 1]), Planned(files))
    ensures var named := (Planned(files[..k]) + [[]])[ROOTINO := RootDir(files[..k + 1])];
            named[k + 2] == [] && Below(named, Planned(files))
  {
    assert files[..k + 1][..k] == files[..k];
  }

  lemma FilesCount(blocks: seq<Block>, inodes: seq<Inode>, files: seq<seq<Byte>>)
    requires HoldAll(blocks, inodes, files)
    ensures |files| == |inodes|
  {
  }

  lemma PlannedRoot()
    ensures Planned([]) == [[], Dirent(ROOTINO, DOT) + Dirent(ROOTINO, DOTDOT)]
    ensures Total([[], Dirent(ROOTINO, DOT)]) == Total(Planned([]))
  {
    hide Used;
    var one, two := Dirent(ROOTINO, DOT), Dirent(ROOTINO, DOT) + Dirent(ROOTINO, DOTDOT);
    assert [[], two] == [[], one][1 := two];
    TotalUpdate([[], one], 1, two);
    UsedStep(0, 16);
    UsedStep(0, 32);
  }

  lemma NothingPlanned(nmeta: nat, fssize: nat, files: seq<File>)
    requires |files| + 2 <= 0x1_0000
    ensures files[..0] == []
    ensures fssize < nmeta + Total(Planned([])) ==> !Fits(nmeta, fssize, files)
  {
    hide Total;
    TotalBelow(Planned([]), Planned(files));
  }

  lemma TooBig(nmeta: nat, fssize: nat, files: seq<File>, now: seq<seq<Byte>>, i: nat)
    requires |files| + 2 <= 0x1_0000 && Below(now, Planned(files)) && i < |now|
    requires fssize < nmeta + Total(now) || MAXBYTES < |now[i]|
    ensures !Fits(nmeta, fssize, files)
  {
    hide Total, Planned;
    TotalBelow(now, Planned(files));
    assert |now[i]| <= |Planned(files)[i]|;
  }

  lemma FullFits(sb: Layout, blocks: seq<Block>, inodes: seq<Inode>, owner: seq<Owner>, freeblock: nat,
                 files: seq<File>)
    requires |files| + 2 <= 0x1_0000 && Building(sb, blocks, inodes, owner, freeblock)
    requires HoldAll(blocks, inodes, Planned(files))
    requires freeblock == sb.nmeta + Total(Planned(files))
    ensures Fits(sb.nmeta, sb.size, files) <==> freeblock < BITS
    ensures |inodes| == |files| + 2 && Planned(files)[ROOTINO] == RootDir(files)
  {
    hide Total, Planned, Holds, RootDir;
    assert Planned(files)[ROOTINO] == RootDir(files) by { PlannedAt(files); }
    forall i | 0 <= i < |files| + 2 ensures |Planned(files)[i]| <= MAXBYTES {
      FilesOf(blocks, inodes, Planned(files), i);
    }
  }

  lemma PlannedAt(files: seq<File>)
    requires |files| + 2 <= 0x1_0000
    ensures Planned(files)[ROOTINO] == RootDir(files)
  {
  }

  lemma UntouchedSize(blocks: seq<Block>, blocks': seq<Block>, ino: Inode, size: nat)
    requires Untouched(blocks, blocks', ino)
    ensures Untouched(blocks, blocks', Inode(size, ino.addrs))
  {
    hide GetWord;
    var ino1 := Inode(size, ino.addrs);
    forall bn: nat ensures Addr(blocks, ino1, bn) == Addr(blocks, ino, bn) {
    }
  }

  lemma UntouchedBacked(blocks: seq<Block>, blocks': seq<Block>, ino: Inode, size: nat)
    requires Untouched(blocks, blocks', ino) && |blocks'| == |blocks|
    ensures Backed(blocks', ino, size) <==> Backed(blocks, ino, size)
  {
    hide Addr, Untouched;
    SameAddrs(blocks, blocks', ino);
    forall bn: nat ensures Addr(blocks', ino, bn) == Addr(blocks, ino, bn) {
    }
  }

  class Image {
    const sb: Layout
    var blocks: seq<Block>
    var inodes: seq<Inode>
    var freeblock: nat
    // What each block is for.
    ghost var owner: seq<Owner>
    // What each file should hold.
    ghost var files: seq<seq<Byte>>

    ghost predicate Valid()
      reads this
    {
      Building(sb, blocks, inodes, owner, freeblock)
    }

    /** An image of zeroes, with the layout that mkfs gives it and inode 0 set aside. */
    constructor (fssize: nat, ninodes: nat, nlog: nat)
      requires Metas(fssize, ninodes, nlog) <= fssize < WORD_LIMIT && 0 < ninodes
      ensures Full() && files == [[]] && sb.size == fssize && sb.ninodes == ninodes
      ensures sb.nmeta == Metas(fssize, ninodes, nlog) && sb.inodestart == 2 + nlog
      ensures sb.bmapstart == 2 + nlog + (ninodes / IPB + 1)
    {
      var inodestart := 2 + nlog;
      var bmapstart := inodestart + ninodes / IPB + 1;
      var nmeta := Metas(fssize, ninodes, nlog);
      var layout := Layout(fssize, ninodes, inodestart, bmapstart, nmeta);
      var zero: Block := ZERO;
      var zeroes := seq(fssize, _ => zero);
      var empty := Inode(0, seq(NDIRECT + 1, _ => 0));
      ghost var unused := seq(fssize, b => if b < nmeta then Meta else Free);
      StartOk(layout, zeroes, empty, unused);
      HoldsNothing(zeroes, empty);
      sb, blocks, inodes, freeblock := layout, zeroes, [empty], nmeta;
      owner, files := unused, [[]];
    }

    /** A direct block: false when it lies beyond the image, where reading it fails and mkfs stops. */
    method PlaceDirect(i: nat, bn: nat) returns (ok: bool)
      requires Valid() && i < |inodes| && bn < NDIRECT
      modifies this`blocks, this`inodes, this`owner, this`freeblock
      ensures ok <==> old(freeblock) + Bit(Addr(old(blocks), old(inodes[i]), bn) == 0) <= sb.size
      ensures ok ==> Valid() && freeblock == old(freeblock) + Bit(Addr(old(blocks), old(inodes[i]), bn) == 0)
      ensures OthersSame(old(blocks), old(inodes), blocks, inodes, i)
      ensures ok ==> inodes[i].addrs[NDIRECT] == old(inodes[i]).addrs[NDIRECT] && Addr(blocks, inodes[i], bn) != 0
      ensures ok ==> Extends(old(blocks), old(inodes[i]), blocks, inodes[i], bn)
    {
      hide Addr, Owned, Extends, Untouched;
      DirectAddr(blocks, inodes[i], bn);
      ExtendsRefl(blocks, inodes[i], bn);
      AllUntouched(blocks, inodes);
      ok := true;
      if inodes[i].addrs[bn] == 0 {
        ok := freeblock < sb.size;
        if ok {
          TakeDirect(sb, blocks, inodes, owner, i, bn, freeblock);
          inodes := inodes[i := WithAddr(inodes[i], bn, freeblock)];
          owner := owner[freeblock := Data(i, bn)];
          freeblock := freeblock + 1;
        }
      }
    }

    /** The block of addresses. */
    method PlaceTable(i: nat, bn: nat) returns (ok: bool)
      requires Valid() && i < |inodes|
      modifies this`blocks, this`inodes, this`owner, this`freeblock
      ensures ok <==> old(freeblock) + Bit(old(inodes[i]).addrs[NDIRECT] == 0) <= sb.size
      ensures ok ==> Valid() && freeblock == old(freeblock) + Bit(old(inodes[i]).addrs[NDIRECT] == 0)
      ensures OthersSame(old(blocks), old(inodes), blocks, inodes, i)
      ensures ok ==>
                inodes[i].addrs[NDIRECT] != 0 && Addr(blocks, inodes[i], bn) == Addr(old(blocks), old(inodes[i]), bn)
      ensures ok ==> Extends(old(blocks), old(inodes[i]), blocks, inodes[i], bn)
    {
      hide Addr, Owned, Extends, Untouched;
      ExtendsRefl(blocks, inodes[i], bn);
      AllUntouched(blocks, inodes);
      ok := true;
      if inodes[i].addrs[NDIRECT] == 0 {
        ok := freeblock < sb.size;
        if ok {
          TakeOk(sb, blocks, inodes, owner, freeblock);
          TakeTable(sb, blocks, inodes, owner, i, bn, freeblock);
          inodes := inodes[i := WithAddr(inodes[i], NDIRECT, freeblock)];
          owner := owner[freeblock := Indirect(i)];
          freeblock := freeblock + 1;
        }
      }
    }

    /** A block named in the block of addresses. */
    method PlaceEntry(i: nat, bn: nat) returns (ok: bool)
      requires Valid() && i < |inodes| && NDIRECT <= bn < MAXFILE && inodes[i].addrs[NDIRECT] != 0
      modifies this`blocks, this`inodes, this`owner, this`freeblock
      ensures ok <==> old(freeblock) + Bit(Addr(old(blocks), old(inodes[i]), bn) == 0) <= sb.size
      ensures ok ==> Valid() && freeblock == old(freeblock) + Bit(Addr(old(blocks), old(inodes[i]), bn) == 0)
      ensures OthersSame(old(blocks), old(inodes), blocks, inodes, i) && inodes == old(inodes)
      ensures ok ==> Addr(blocks, inodes[i], bn) != 0 && Extends(old(blocks), old(inodes[i]), blocks, inodes[i], bn)
    {
      hide Addr, Owned, Extends, Untouched, PutWord, GetWord;
      IndirectIs(sb.nmeta, blocks, inodes, owner, i);
      OwnedSizes(sb.nmeta, blocks, inodes, owner);
      EntryAddr(blocks, inodes[i], bn);
      ExtendsRefl(blocks, inodes[i], bn);
      AllUntouched(blocks, inodes);
      var ind := inodes[i].addrs[NDIRECT];
      ok := true;
      if GetWord(blocks[ind], bn - NDIRECT) == 0 {
        ok := freeblock < sb.size;
        if ok {
          TakeOk(sb, blocks, inodes, owner, freeblock);
          TakeEntry(sb, blocks, inodes, owner, i, bn, freeblock);
          blocks := blocks[ind := PutWord(blocks[ind], bn - NDIRECT, freeblock)];
          owner := owner[freeblock := Data(i, bn)];
          freeblock := freeblock + 1;
        }
      }
    }

    /** The block that byte o of the file goes to, when the file has just the blocks for the bytes before it. */
    method Place(i: nat, o: nat) returns (ok: bool)
      requires Valid() && i < |inodes| && o < MAXBYTES && Exact(blocks, inodes[i], o)
      modifies this`blocks, this`inodes, this`owner, this`freeblock
      ensures ok <==> old(freeblock) + Used(o + 1) - Used(o) <= sb.size
      ensures ok ==> Valid() && freeblock == old(freeblock) + Used(o + 1) - Used(o)
      ensures ok ==> OthersSame(old(blocks), old(inodes), blocks, inodes, i)
      ensures ok ==>
                (inodes[i].addrs[NDIRECT] != 0 <==> NDIRECT <= o / BSIZE) && Addr(blocks, inodes[i], o / BSIZE) != 0
      ensures ok ==> Extends(old(blocks), old(inodes[i]), blocks, inodes[i], o / BSIZE)
    {
      hide Addr, Building, Extends, Untouched, Used, OthersSame;
      var bn := o / BSIZE;
      UsedStep(o, 1);
      ghost var a := Addr(blocks, inodes[i], bn);
      ghost var f := freeblock;
      SizesOf(sb, blocks, inodes, owner, freeblock);
      if bn < NDIRECT {
        ok := PlaceDirect(i, bn);
      } else {
        ok := PlaceTable(i, bn);
        if ok {
          SameLength(old(blocks), old(inodes), blocks, inodes, i);
          ghost var blocks1, inodes1 := blocks, inodes;
          ok := PlaceEntry(i, bn);
          if ok {
            SameLength(blocks1, inodes1, blocks, inodes, i);
            OthersOn(old(blocks), old(inodes), blocks1, inodes1, blocks, inodes, i);
            ExtendsOn(old(blocks), old(inodes[i]), blocks1, inodes1[i], blocks, inodes[i], bn);
          }
        }
      }
    }

    /** One turn of iappend: a stretch within one block goes to the end of the file. */
    method Turn(i: nat, o: nat, bytes: seq<Byte>) returns (ok: bool)
      requires Valid() && i < |inodes| && o < MAXBYTES && Exact(blocks, inodes[i], o) && 0 < |bytes|
      requires o % BSIZE + |bytes| <= BSIZE
      modifies this`blocks, this`inodes, this`owner, this`freeblock
      ensures ok <==> old(freeblock) + Used(o + |bytes|) - Used(o) <= sb.size
      ensures ok ==> Valid() && freeblock == old(freeblock) + Used(o + |bytes|) - Used(o)
      ensures ok ==> OthersSame(old(blocks), old(inodes), blocks, inodes, i) && inodes[i].size == old(inodes[i]).size
      ensures ok ==>
                Exact(blocks, inodes[i], o + |bytes|)
                  && Bytes(old(blocks), old(inodes[i]), blocks, inodes[i], o, o, o + |bytes|, bytes)
    {
      hide Addr, Building, Extends, Untouched, Used, OthersSame, Exact, Bytes, Backed, Splice, Owned;
      ExactBacked(sb, blocks, inodes, owner, freeblock, i, o);
      UsedStep(o, 1);
      UsedStep(o, |bytes|);
      ok := Place(i, o);
      if ok {
        ghost var blocks1 := blocks;
        SizesOf(sb, blocks, inodes, owner, freeblock);
        SameLength(old(blocks), old(inodes), blocks, inodes, i);
        SlotIs(sb.nmeta, blocks, inodes, owner, i, o / BSIZE);
        SizeKept(old(blocks), old(inodes[i]), blocks, inodes[i], o / BSIZE);
        if NDIRECT <= o / BSIZE {
          IndirectIs(sb.nmeta, blocks, inodes, owner, i);
        }
        var x := AddrOf(i, o / BSIZE);
        var block := Splice(blocks[x], o % BSIZE, bytes);
        BytesWrite(sb.nmeta, old(blocks), old(inodes[i]), blocks, inodes, owner, i, o, bytes, o);
        ExactMore(sb, old(blocks), old(inodes[i]), blocks, inodes, owner, freeblock, i, o, |bytes|, block);
        FillOk(sb, blocks, inodes, owner, freeblock, x, block);
        blocks := blocks[x := block];
        OthersJust(blocks1, blocks, inodes, i);
        OthersOn(old(blocks), old(inodes), blocks1, inodes, blocks, inodes, i);
      }
    }

    /** Where block bn of the file is. */
    method AddrOf(i: nat, bn: nat) returns (x: nat)
      requires i < |inodes| && bn < MAXFILE && (NDIRECT <= bn ==> 0 < inodes[i].addrs[NDIRECT] < |blocks|)
      ensures x == Addr(blocks, inodes[i], bn)
    {
      if bn < NDIRECT {
        x := inodes[i].addrs[bn];
      } else {
        x := GetWord(blocks[inodes[i].addrs[NDIRECT]], bn - NDIRECT);
      }
    }

    /** Every file holds its bytes, in just the blocks it needs, and those are all the blocks handed out. */
    ghost predicate Full()
      reads this
    {
      Valid() && HoldAll(blocks, inodes, files) && freeblock == sb.nmeta + Total(files)
    }

    /** A stretch of the bytes has been appended. */
    ghost predicate Appending(blocks0: seq<Block>, inodes0: seq<Inode>, i: nat, data: seq<Byte>, tot: nat)
      reads this
    {
      && Valid() && i < |inodes| && i < |inodes0| && OthersSame(blocks0, inodes0, blocks, inodes, i) && tot <= |data|
      && Exact(blocks, inodes[i], inodes0[i].size + tot)
      && Bytes(blocks0, inodes0[i], blocks, inodes[i], inodes0[i].size, inodes0[i].size, inodes0[i].size + tot, data)
    }

    method Append(i: nat, data: seq<Byte>, size: nat) returns (ok: bool)
      requires Valid() && i < |inodes| && Exact(blocks, inodes[i], size) && inodes[i].size == size
      modifies this`blocks, this`inodes, this`owner, this`freeblock
      ensures ok <==> size + |data| <= MAXBYTES && old(freeblock) + Used(size + |data|) - Used(size) <= sb.size
      ensures ok ==>
                Appending(old(blocks), old(inodes), i, data, |data|)
                  && freeblock == old(freeblock) + Used(size + |data|) - Used(size)
    {
      hide Addr, Building, Untouched, Used, OthersSame, Exact, Bytes;
      var tot := 0;
      SizesOf(sb, blocks, inodes, owner, freeblock);
      OthersRefl(blocks, inodes, i);
      BytesNone(blocks, inodes[i], size, size, data);
      ExactSize(blocks, inodes[i], size);
      while tot < |data|
        invariant 0 <= tot <= |data| && size + tot <= MAXBYTES && freeblock <= sb.size
        invariant Appending(old(blocks), old(inodes), i, data, tot)
        invariant freeblock == old(freeblock) + Used(size + tot) - Used(size)
      {
        var o := size + tot;
        if MAXBYTES <= o {
          return false;
        }
        var m := if |data| - tot < BSIZE - o % BSIZE then |data| - tot else BSIZE - o % BSIZE;
        ghost var blocks1, inodes1 := blocks, inodes;
        ok := Turn(i, o, data[tot..tot + m]);
        if !ok {
          UsedGrows(o + m, size + |data|);
          return;
        }
        OthersOn(old(blocks), old(inodes), blocks1, inodes1, blocks, inodes, i);
        SameLength(old(blocks), old(inodes), blocks, inodes, i);
        BytesOn(old(blocks), old(inodes[i]), blocks1, inodes1[i], blocks, inodes[i], size, size, o, o + m, data);
        ExactSize(blocks, inodes[i], o + m);
        SizesOf(sb, blocks, inodes, owner, freeblock);
        tot := tot + m;
      }
      ok := true;
    }

    /** iappend; false when the file or the image has no room for the bytes, where mkfs stops. */
    method IAppend(i: nat, data: seq<Byte>) returns (ok: bool)
      requires Full() && i < |inodes|
      modifies this
      ensures i < |old(files)|
      ensures (ok <==>
                |old(files)[i]| + |data| <= MAXBYTES
                  && sb.nmeta + Total(old(files)[i := old(files)[i] + data]) <= sb.size)
      ensures ok ==> Full() && |inodes| == |old(inodes)| && files == old(files)[i := old(files)[i] + data]
    {
      hide Building, Used, OthersSame, Exact, Bytes, Total, ByteAt;
      ghost var was := files[i];
      TotalUpdate(files, i, was + data);
      assert Holds(blocks, inodes[i], files[i]);
      var size := inodes[i].size;
      ok := Append(i, data, size);
      if ok {
        SameLength(old(blocks), old(inodes), blocks, inodes, i);
        HoldsMore(old(blocks), old(inodes[i]), was, blocks, inodes[i], data);
        HoldAllMore(old(blocks), old(inodes), files, blocks, inodes, i, was + data);
        BuildingResize(sb, blocks, inodes, owner, freeblock, i, |was| + |data|);
        inodes := inodes[i := Inode(size + |data|, inodes[i].addrs)];
        files := files[i := was + data];
      }
    }

    /** An empty file. */
    method IAlloc() returns (i: nat)
      requires Full() && |inodes| < sb.ninodes
      modifies this`inodes, this`files
      ensures i == |old(inodes)| && Full() && |inodes| == i + 1 && files == old(files) + [[]]
    {
      hide Exact, ByteAt, GetWord;
      i := |inodes|;
      var empty := Inode(0, seq(NDIRECT + 1, _ => 0));
      MoreInodes(sb, blocks, inodes, owner, freeblock, empty);
      HoldsNothing(blocks, empty);
      TotalPush(files, []);
      inodes := inodes + [empty];
      files := files + [[]];
    }

    /** The copying of a file, block by block. */
    method IAppendAll(i: nat, data: seq<Byte>) returns (ok: bool)
      requires Full() && i < |inodes| && files[i] == []
      modifies this
      ensures i < |old(files)| && (ok <==> |data| <= MAXBYTES && sb.nmeta + Total(old(files)[i := data]) <= sb.size)
      ensures ok ==> Full() && |inodes| == |old(inodes)| && files == old(files)[i := data]
    {
      hide Building, Used, Total, HoldAll;
      SizesOf(sb, blocks, inodes, owner, freeblock);
      FilesOf(blocks, inodes, files, i);
      var off := 0;
      assert files[i := data[..0]] == files;
      while off < |data|
        invariant 0 <= off <= |data| && off <= MAXBYTES && |inodes| == |old(inodes)|
        invariant Full() && i < |old(files)| && files == old(files)[i := data[..off]]
      {
        var cc := if |data| - off < BSIZE then |data| - off else BSIZE;
        assert data[..off] + data[off..off + cc] == data[..off + cc];
        assert files[i := data[..off + cc]] == old(files)[i := data[..off + cc]];
        ok := IAppend(i, data[off..off + cc]);
        if !ok {
          TotalUpdate(old(files), i, data[..off + cc]);
          TotalUpdate(old(files), i, data);
          UsedGrows(off + cc, |data|);
          return;
        }
        off := off + cc;
      }
      assert data[..off] == data;
      SizesOf(sb, blocks, inodes, owner, freeblock);
      ok := true;
    }

    /** The bitmap: the first `freeblock` blocks are in use. */
    method Balloc()
      requires Valid() && freeblock < BITS
      modifies this`blocks
      ensures Consistent(sb, blocks, inodes, owner) && Tidy(owner) && |blocks| == |old(blocks)| == sb.size
      ensures sb.bmapstart <= sb.size
      ensures forall b {:trigger blocks[b]} :: 2 <= b < sb.bmapstart ==> IsZero(blocks[b])
      ensures forall i {:trigger inodes[i]} :: 0 <= i < |inodes| ==> Untouched(old(blocks), blocks, inodes[i])
    {
      hide Addr, Owned, Untouched, GetBit;
      var block: Block := ZERO;
      var i := 0;
      forall k: nat | k < BITS ensures !GetBit(block, k) {
        ZeroBit(k);
      }
      while i < freeblock
        invariant 0 <= i <= freeblock
        invariant forall k: nat {:trigger GetBit(block, k)} :: k < BITS ==> (GetBit(block, k) <==> k < i)
      {
        block := SetBit(block, i);
        i := i + 1;
      }
      BitmapOk(sb, blocks, inodes, owner, freeblock, block);
      blocks := blocks[sb.bmapstart := block];
    }

    /** The size of the root directory, rounded up to whole blocks. */
    method FixRoot(i: nat)
      requires Full() && i < |inodes|
      modifies this`inodes
      ensures Valid() && inodes == old(inodes)[i := Rounded(old(inodes[i]))]
      ensures Backed(blocks, inodes[i], inodes[i].size) <==> |files[i]| % BSIZE != 0
    {
      hide Building, Exact, ByteAt, Backed;
      var off := inodes[i].size;
      FilesOf(blocks, inodes, files, i);
      RootHole(sb, blocks, inodes, owner, freeblock, i);
      BuildingResize(sb, blocks, inodes, owner, freeblock, i, (off / BSIZE + 1) * BSIZE);
      inodes := inodes[i := Inode((off / BSIZE + 1) * BSIZE, inodes[i].addrs)];
    }

    /** The root directory, with its two first entries. */
    method MakeRoot() returns (ok: bool)
      requires Full() && files == [[]] && 2 <= sb.ninodes
      modifies this
      ensures ok <==> sb.nmeta + Total(Planned([])) <= sb.size
      ensures ok ==> Full() && files == Planned([])
    {
      hide Building, Total, Used, Holds, HoldAll;
      FilesCount(blocks, inodes, files);
      var root := IAlloc();
      assert files == [[], []];
      PlannedRoot();
      ghost var one := Dirent(ROOTINO, DOT);
      assert files[1] + one == one;
      assert files[1 := files[1] + one] == [[], one];
      ok := IAppend(root, Dirent(root, DOT));
      if ok {
        ghost var two := one + Dirent(ROOTINO, DOTDOT);
        assert files[1 := two] == [[], two];
        ok := IAppend(root, Dirent(root, DOTDOT));
      }
    }

    /** A file: its entry in the root directory, then its bytes. */
    method AddFile(all: seq<File>, k: nat) returns (ok: bool)
      requires Full() && |all| + 2 <= 0x1_0000 && k < |all| && files == Planned(all[..k]) && |inodes| < sb.ninodes
      modifies this
      ensures !ok ==> !Fits(sb.nmeta, sb.size, all)
      ensures ok ==> Full() && files == Planned(all[..k + 1])
    {
      hide Building, Total, Holds, HoldAll, RootDir, Planned, Below;
      FilesCount(blocks, inodes, files);
      var inum := IAlloc();
      ghost var named := files[ROOTINO := RootDir(all[..k + 1])];
      PlannedNext(all, k);
      ok := IAppend(ROOTINO, Dirent(inum, all[k].name));
      if !ok {
        TooBig(sb.nmeta, sb.size, all, named, ROOTINO);
        return;
      }
      ok := IAppendAll(inum, all[k].data);
      if !ok {
        TooBig(sb.nmeta, sb.size, all, Planned(all[..k + 1]), inum);
      }
    }

    /** The last steps: the size of the root directory, and the bitmap. */
    method Finish() returns (ok: bool)
      requires Full() && ROOTINO < |inodes|
      modifies this
      ensures ok <==> old(freeblock) < BITS
      ensures files == old(files) && |files| == |old(inodes)| == |inodes|
      ensures ok ==> Consistent(sb, blocks, inodes, owner) && Tidy(owner)
      ensures ok ==> |blocks| == sb.size && sb.bmapstart <= sb.size
      ensures ok ==> forall b {:trigger blocks[b]} :: 2 <= b < sb.bmapstart ==> IsZero(blocks[b])
      ensures ok ==> forall i {:trigger inodes[i]} :: 0 <= i < |inodes| ==> inodes[i].size < WORD_LIMIT
      ensures ok ==> forall i {:trigger inodes[i]} :: 0 <= i < |inodes| && i != ROOTINO ==>
                Holds(blocks, inodes[i], files[i])
      ensures ok ==> Holds(blocks, Inode(|files[ROOTINO]|, inodes[ROOTINO].addrs), files[ROOTINO])
      ensures ok ==> (Backed(blocks, inodes[ROOTINO], inodes[ROOTINO].size) <==> |files[ROOTINO]| % BSIZE != 0)
    {
      hide Building, Total, Backed, Consistent, Tidy, Untouched, Exact, ByteAt;
      FilesCount(blocks, inodes, files);
      FixRoot(ROOTINO);
      ok := freeblock < BITS;
      if ok {
        ghost var blocks1 := blocks;
        Balloc();
        forall i | 0 <= i < |inodes| ensures inodes[i].size < WORD_LIMIT {
          SizeFits(blocks1, old(inodes)[i], files[i]);
        }
        forall i | 0 <= i < |inodes| && i != ROOTINO ensures Holds(blocks, inodes[i], files[i]) {
          assert inodes[i] == old(inodes)[i];
          HoldsUntouched(blocks1, blocks, inodes[i], files[i]);
        }
        UntouchedSize(blocks1, blocks, inodes[ROOTINO], |files[ROOTINO]|);
        HoldsUntouched(blocks1, blocks, old(inodes)[ROOTINO], files[ROOTINO]);
        UntouchedBacked(blocks1, blocks, inodes[ROOTINO], inodes[ROOTINO].size);
      }
    }
  }

  /** Makes an image; null where mkfs stops, which is when something does not fit. */
  method Make(fssize: nat, ninodes: nat, nlog: nat, files: seq<File>) returns (image: Image?)
    requires Metas(fssize, ninodes, nlog) <= fssize < WORD_LIMIT && |files| + 2 <= ninodes <= 0x1_0000
    ensures image != null <==> Fits(Metas(fssize, ninodes, nlog), fssize, files)
    ensures image != null ==> fresh(image) && image.sb.size == fssize && image.sb.nmeta == Metas(fssize, ninodes, nlog)
    ensures image != null ==>
              image.sb.inodestart == 2 + nlog && image.sb.bmapstart == 2 + nlog + (ninodes / IPB + 1)
    ensures image != null ==> Consistent(image.sb, image.blocks, image.inodes, image.owner) && Tidy(image.owner)
    ensures image != null ==> |image.blocks| == image.sb.size && image.sb.bmapstart <= image.sb.size
    ensures image != null ==> forall b {:trigger image.blocks[b]} :: 2 <= b < image.sb.bmapstart ==>
              IsZero(image.blocks[b])
    ensures image != null ==> forall i {:trigger image.inodes[i]} :: 0 <= i < |image.inodes| ==>
              image.inodes[i].size < WORD_LIMIT
    ensures image != null ==> |image.inodes| == |files| + 2
    ensures image != null ==> forall i {:trigger image.inodes[i]} :: 0 <= i < |files| + 2 && i != ROOTINO ==>
              Holds(image.blocks, image.inodes[i], Planned(files)[i])
    ensures image != null ==> Holds(image.blocks, Inode(|RootDir(files)|, image.inodes[ROOTINO].addrs), RootDir(files))
    ensures image != null ==>
              (Backed(image.blocks, image.inodes[ROOTINO], image.inodes[ROOTINO].size) <==>
                |RootDir(files)| % BSIZE != 0)
  {
    hide Building, Total, Holds, HoldAll, Backed, Consistent, Tidy, RootDir, Planned, Fits;
    image := null;
    var im := new Image(fssize, ninodes, nlog);
    NothingPlanned(Metas(fssize, ninodes, nlog), fssize, files);
    var ok := im.MakeRoot();
    if !ok {
      return;
    }
    var k := 0;
    while k < |files|
      invariant 0 <= k <= |files| && im.Full() && im.files == Planned(files[..k])
    {
      FilesCount(im.blocks, im.inodes, im.files);
      ok := im.AddFile(files, k);
      if !ok {
        return;
      }
      k := k + 1;
    }
    assert files[..k] == files;
    FullFits(im.sb, im.blocks, im.inodes, im.owner, im.freeblock, files);
    ok := im.Finish();
    if ok {
      image := im;
    }
  }

  // A list of files that fits and leaves the hole.

  lemma {:induction false} TotalEmpty(files: seq<seq<Byte>>, n: nat)
    requires n <= |files| && forall i {:trigger files[i]} :: n <= i < |files| ==> files[i] == []
    ensures Total(files) == Total(files[..n])
    decreases |files|
  {
    if n < |files| {
      var k := |files| - 1;
      TotalEmpty(files[..k], n);
      assert files[..k][..n] == files[..n];
    } else {
      assert files[..n] == files;
    }
  }

  /** Sixty-two empty files: with the two first entries the root directory fills one block. */
  lemma HoleFits(files: seq<File>)
    requires |files| == 62 && forall i {:trigger files[i]} :: 0 <= i < |files| ==> files[i].data == []
    ensures |RootDir(files)| == BSIZE && Fits(Metas(1000, 200, 30), 1000, files)
  {
    hide RootDir, Total, Used;
    var plan := Planned(files);
    TotalEmpty(plan, 2);
    var two: seq<seq<Byte>> := [[], []];
    assert plan[..2] == two[1 := RootDir(files)];
    TotalUpdate(two, 1, RootDir(files));
    TotalEmpty(two, 0);
    UsedOf();
  }

  lemma UsedOf()
    ensures Total([]) == 0 && Used(0) == 0 && Used(BSIZE) == 1
  {
  }

  /** mkfs makes an image of them, and its root directory has a hole. */
  method MakeHole(name: Name) returns (image: Image)
    ensures fresh(image) && Consistent(image.sb, image.blocks, image.inodes, image.owner) && ROOTINO < |image.inodes|
    ensures !Backed(image.blocks, image.inodes[ROOTINO], image.inodes[ROOTINO].size)
  {
    hide Consistent, Backed, Fits, RootDir, Holds;
    var files := seq(62, _ => File(name, []));
    HoleFits(files);
    var made := Make(1000, 200, 30, files);
    image := made;
  }
}
