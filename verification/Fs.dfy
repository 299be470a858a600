/**
 The block allocator and file contents of kernel/fs.c, as they change blocks and inodes in
 place.
 */
module Fs {
  import opened Blocks
  import opened FsSpec
  import opened LogSpec

  /** Blocks and inodes when an operation began. */
  datatype Began = Began(blocks: seq<Block>, inodes: seq<Inode>)

  class Fs {
    const sb: Layout
    var blocks: seq<Block>
    // The inodes in memory, and as last written by iupdate.
    var inodes: seq<Inode>
    var dinodes: seq<Inode>
    // What each block is for, and the blocks passed to log_write in this transaction.
    ghost var owner: seq<Owner>
    ghost var logged: set<nat>
    // The file system at first, and as each transaction has left it.
    ghost var snaps: seq<Snap>

    constructor (sb: Layout, blocks: seq<Block>, inodes: seq<Inode>, ghost owner: seq<Owner>)
      requires Consistent(sb, blocks, inodes, owner) && Tidy(owner)
      ensures Valid() && this.sb == sb && this.blocks == blocks && this.inodes == inodes && this.owner == owner
      ensures Settled()
      ensures snaps == [Snap(blocks, inodes, owner, {})]
    {
      this.sb, this.blocks, this.inodes, this.dinodes := sb, blocks, inodes, inodes;
      this.owner, logged, snaps := owner, {}, [Snap(blocks, inodes, owner, {})];
    }

    ghost predicate Shaped()
      reads this
    {
      Consistent(sb, blocks, inodes, owner) && |dinodes| == |inodes| && InFs(sb, logged)
    }

    ghost predicate Valid()
      reads this
    {
      Shaped() && Tidy(owner)
    }

    /** No transaction is under way: all is as the last one left it, and inodes in memory are as on disk. */
    ghost predicate Settled()
      reads this
    {
      && logged == {} && dinodes == inodes && 0 < |snaps|
      && var s := snaps[|snaps| - 1]; s.blocks == blocks && s.inodes == inodes && s.owner == owner
    }

    /** The inner loop of balloc: the first bit that is clear, from block b's on. */
    method FindBit(b: nat) returns (bi: nat)
      requires LayoutOk(sb) && |blocks| == sb.size && b < sb.size && b % BITS == 0
      ensures bi <= BITS && (bi == BITS || b + bi >= sb.size || !InUse(sb, blocks, b + bi))
      ensures forall c: nat {:trigger InUse(sb, blocks, c)} :: b <= c < b + bi && c < sb.size ==> InUse(sb, blocks, c)
    {
      hide GetBit;
      BBlockIsMeta(sb, b);
      var block := blocks[BBlock(sb, b)];
      bi := 0;
      while bi < BITS && b + bi < sb.size && GetBit(block, bi)
        invariant 0 <= bi <= BITS
        invariant forall c: nat {:trigger InUse(sb, blocks, c)} :: b <= c < b + bi && c < sb.size ==>
                    InUse(sb, blocks, c)
      {
        SameBlockOf(b, bi);
        bi := bi + 1;
      }
      if bi < BITS {
        SameBlockOf(b, bi);
      }
    }

    /** The search of balloc: the first block that is not marked in use. */
    method FindFree() returns (r: nat)
      requires LayoutOk(sb) && |blocks| == sb.size
      ensures r <= sb.size && (r < sb.size ==> !InUse(sb, blocks, r))
      ensures forall c: nat {:trigger InUse(sb, blocks, c)} :: c < r ==> InUse(sb, blocks, c)
    {
      hide InUse;
      var b, found := 0, false;
      r := sb.size;
      while b < sb.size && !found
        invariant 0 <= b && b % BITS == 0 && (found ==> r < sb.size && !InUse(sb, blocks, r))
        invariant !found ==> r == sb.size
        invariant forall c: nat {:trigger InUse(sb, blocks, c)} :: c < (if found then r else b) && c < sb.size ==>
                    InUse(sb, blocks, c)
        decreases !found, sb.size - b
      {
        var bi := FindBit(b);
        if bi < BITS && b + bi < sb.size {
          r, found := b + bi, true;
        } else {
          b := b + BITS;
        }
      }
    }

    /** A free block, zeroed, in use but standing nowhere yet; 0 exactly when every block is in use. */
    method Balloc() returns (b: nat)
      requires Shaped()
      modifies this`blocks, this`owner, this`logged
      ensures Shaped()
      ensures b == 0 <==> forall c: nat {:trigger InUse(sb, old(blocks), c)} :: c < sb.size ==>
                InUse(sb, old(blocks), c)
      ensures b == 0 ==> blocks == old(blocks) && owner == old(owner) && logged == old(logged)
      ensures b != 0 ==>
                sb.nmeta <= b < sb.size && b < |old(owner)| && old(owner)[b].Free? && owner == old(owner)[b := Loose]
      ensures b != 0 ==> blocks[b] == ZERO && logged == old(logged) + {BBlock(sb, b), b}
      ensures Covered(old(blocks), blocks, logged)
      ensures forall i {:trigger inodes[i]} :: 0 <= i < |inodes| ==> Untouched(old(blocks), blocks, inodes[i])
    {
      hide Owned, GetBit, Addr, SetBit, Untouched, Covered, InFs;
      CoveredNone(blocks, logged);
      AllUntouched(blocks, inodes);
      var r := FindFree();
      if r < sb.size {
        OwnedSizes(sb.nmeta, blocks, inodes, owner);
        AllocOk(sb, blocks, inodes, owner, r);
        FsBlocks(sb, blocks, inodes, owner, r, 0);
        CoveredPut(blocks, blocks, logged, BBlock(sb, r), SetBit(blocks[BBlock(sb, r)], r % BITS));
        InFsMore(sb, logged, BBlock(sb, r));
        blocks := blocks[BBlock(sb, r) := SetBit(blocks[BBlock(sb, r)], r % BITS)];
        logged := logged + {BBlock(sb, r)};
        CoveredPut(old(blocks), blocks, logged, r, ZERO);
        InFsMore(sb, logged, r);
        blocks := blocks[r := ZERO];
        logged := logged + {r};
        owner := owner[r := Loose];
        b := r;
      } else {
        b := 0;
      }
    }

    /** bfree; false where the source panics, which is when the block is marked free. */
    method Bfree(b: nat) returns (ok: bool)
      requires LayoutOk(sb) && |blocks| == sb.size && b < sb.size
      modifies this`blocks, this`logged
      ensures BBlock(sb, b) < |old(blocks)| && (ok <==> InUse(sb, old(blocks), b))
      ensures blocks == if ok then MarkFree(sb, old(blocks), b) else old(blocks)
      ensures logged == if ok then old(logged) + {BBlock(sb, b)} else old(logged)
      ensures Covered(old(blocks), blocks, logged)
    {
      hide GetBit;
      BBlockIsMeta(sb, b);
      ok := GetBit(blocks[BBlock(sb, b)], b % BITS);
      if ok {
        blocks := blocks[BBlock(sb, b) := ClearBit(blocks[BBlock(sb, b)], b % BITS)];
        logged := logged + {BBlock(sb, b)};
      }
    }

    /** The other inodes, and the blocks of their files, are as they were. */
    twostate predicate OthersKept(i: nat)
      reads this
    {
      && |inodes| == |old(inodes)|
      && forall j {:trigger inodes[j]} :: 0 <= j < |inodes| && j != i ==>
           inodes[j] == old(inodes[j]) && Untouched(old(blocks), blocks, inodes[j])
    }

    /** bmap, of a block that the inode itself names. */
    method BmapDirect(i: nat, bn: nat) returns (addr: nat, ghost news: nat, ghost marks: set<nat>)
      requires Valid() && i < |inodes| && bn < NDIRECT
      modifies this`blocks, this`inodes, this`dinodes, this`owner, this`logged
      ensures Valid() && dinodes == old(dinodes) && OthersKept(i)
      ensures Extends(old(blocks), old(inodes[i]), blocks, inodes[i], bn)
      ensures inodes[i].addrs[NDIRECT] == old(inodes[i]).addrs[NDIRECT]
      ensures addr == Addr(blocks, inodes[i], bn)
      ensures addr == 0 ==> forall c: nat {:trigger InUse(sb, old(blocks), c)} :: c < sb.size ==>
                InUse(sb, old(blocks), c)
      ensures news == Bit(addr != 0 && Addr(old(blocks), old(inodes[i]), bn) == 0) && |marks| <= news
      ensures LogsMore(old(logged), logged, addr, 0, marks)
      ensures old(logged) <= logged && Covered(old(blocks), blocks, logged)
      ensures news == 0 ==>
                blocks == old(blocks) && logged == old(logged) && inodes == old(inodes) && owner == old(owner)
      ensures news == 1 ==> addr < |blocks| && blocks[addr] == ZERO
    {
      hide Owned, InUse, GetBit, Addr;
      news, marks := 0, {};
      addr := inodes[i].addrs[bn];
      assert addr == Addr(blocks, inodes[i], bn) by { DirectAddr(blocks, inodes[i], bn); }
      ExtendsRefl(blocks, inodes[i], bn);
      AllUntouched(blocks, inodes);
      if addr == 0 {
        addr := Balloc();
        if addr != 0 {
          OwnedSizes(sb.nmeta, blocks, inodes, owner);
          LinkDirectOk(sb, blocks, inodes, owner, i, bn, addr);
          ExtendsUntouched(old(blocks), blocks, inodes[i], bn);
          ExtendsDirect(blocks, inodes[i], bn, addr);
          ExtendsOn(old(blocks), old(inodes[i]), blocks, inodes[i], blocks, WithAddr(inodes[i], bn, addr), bn);
          news, marks := 1, {BBlock(sb, addr)};
          inodes := inodes[i := WithAddr(inodes[i], bn, addr)];
          owner := owner[addr := Data(i, bn)];
        } else {
          DirectAddr(blocks, inodes[i], bn);
        }
      }
    }

    /** The block of addresses, allocated if need be. */
    method BmapTable(i: nat, bn: nat) returns (ind: nat, ghost news: nat, ghost marks: set<nat>)
      requires Valid() && i < |inodes|
      modifies this`blocks, this`inodes, this`dinodes, this`owner, this`logged
      ensures Valid() && dinodes == old(dinodes) && OthersKept(i)
      ensures Extends(old(blocks), old(inodes[i]), blocks, inodes[i], bn) && ind == inodes[i].addrs[NDIRECT]
      ensures forall bm: nat {:trigger Addr(blocks, inodes[i], bm)} :: bm < MAXFILE ==>
                Addr(blocks, inodes[i], bm) == Addr(old(blocks), old(inodes[i]), bm)
      ensures old(inodes[i]).addrs[NDIRECT] != 0 ==> ind == old(inodes[i]).addrs[NDIRECT]
      ensures ind == 0 ==> forall c: nat {:trigger InUse(sb, old(blocks), c)} :: c < sb.size ==>
                InUse(sb, old(blocks), c)
      ensures news == Bit(ind != 0 && old(inodes[i]).addrs[NDIRECT] == 0) && |marks| <= news
      ensures LogsMore(old(logged), logged, 0, ind, marks)
      ensures old(logged) <= logged && Covered(old(blocks), blocks, logged)
      ensures news == 0 ==>
                blocks == old(blocks) && logged == old(logged) && inodes == old(inodes) && owner == old(owner)
    {
      hide Owned, InUse, GetBit, Addr;
      news, marks := 0, {};
      ind := inodes[i].addrs[NDIRECT];
      ExtendsRefl(blocks, inodes[i], bn);
      AllUntouched(blocks, inodes);
      if ind == 0 {
        ind := Balloc();
        if ind != 0 {
          OwnedSizes(sb.nmeta, blocks, inodes, owner);
          LinkIndirectOk(sb, blocks, inodes, owner, i, ind);
          SameAddrs(old(blocks), blocks, inodes[i]);
          ExtendsUntouched(old(blocks), blocks, inodes[i], bn);
          ExtendsIndirect(blocks, inodes[i], bn, ind);
          ExtendsOn(old(blocks), old(inodes[i]), blocks, inodes[i], blocks, WithAddr(inodes[i], NDIRECT, ind), bn);
          news, marks := 1, {BBlock(sb, ind)};
          inodes := inodes[i := WithAddr(inodes[i], NDIRECT, ind)];
          owner := owner[ind := Indirect(i)];
        }
      }
    }

    /** The entry for bn in the block of addresses, with a block allocated for it if need be. */
    method BmapEntry(i: nat, bn: nat) returns (addr: nat, ghost news: nat, ghost marks: set<nat>)
      requires Valid() && i < |inodes| && NDIRECT <= bn < MAXFILE && inodes[i].addrs[NDIRECT] != 0
      modifies this`blocks, this`inodes, this`dinodes, this`owner, this`logged
      ensures Valid() && dinodes == old(dinodes) && OthersKept(i) && inodes == old(inodes)
      ensures Extends(old(blocks), old(inodes[i]), blocks, inodes[i], bn)
      ensures addr == Addr(blocks, inodes[i], bn)
      ensures addr == 0 ==> forall c: nat {:trigger InUse(sb, old(blocks), c)} :: c < sb.size ==>
                InUse(sb, old(blocks), c)
      ensures news == Bit(addr != 0 && Addr(old(blocks), old(inodes[i]), bn) == 0) && |marks| <= news
      ensures LogsMore(old(logged), logged, addr, inodes[i].addrs[NDIRECT], marks)
      ensures old(logged) <= logged && Covered(old(blocks), blocks, logged)
      ensures news == 0 ==> blocks == old(blocks) && logged == old(logged) && owner == old(owner)
      ensures news == 1 ==> addr < |blocks| && blocks[addr] == ZERO
    {
      hide Owned, InUse, GetBit, Addr, GetWord, PutWord, Untouched, Extends, Covered, InFs, Marked;
      news, marks := 0, {};
      CoveredNone(blocks, logged);
      OwnedSizes(sb.nmeta, blocks, inodes, owner);
      IndirectIs(sb.nmeta, blocks, inodes, owner, i);
      var ind := inodes[i].addrs[NDIRECT];
      addr := GetWord(blocks[ind], bn - NDIRECT);
      EntryAddr(blocks, inodes[i], bn);
      ExtendsRefl(blocks, inodes[i], bn);
      AllUntouched(blocks, inodes);
      if addr == 0 {
        addr := Balloc();
        if addr != 0 {
          ghost var blocks1 := blocks;
          OwnedSizes(sb.nmeta, blocks, inodes, owner);
          SameAddrs(old(blocks), blocks, inodes[i]);
          ExtendsUntouched(old(blocks), blocks, inodes[i], bn);
          LinkEntryOk(sb, blocks, inodes, owner, i, bn, addr);
          ExtendsEntry(sb.nmeta, blocks, inodes, owner, i, bn, addr);
          IndirectIs(sb.nmeta, blocks, inodes, owner, i);
          CoveredPut(old(blocks), blocks, logged, ind, PutWord(blocks[ind], bn - NDIRECT, addr));
          FsBlocks(sb, blocks, inodes, owner, 0, 0);
          InFsMore(sb, logged, ind);
          blocks := blocks[ind := PutWord(blocks[ind], bn - NDIRECT, addr)];
          logged := logged + {ind};
          owner := owner[addr := Data(i, bn)];
          ExtendsOn(old(blocks), old(inodes[i]), blocks1, inodes[i], blocks, inodes[i], bn);
          news, marks := 1, {BBlock(sb, addr)};
          LogsEntry(old(logged), addr, ind, BBlock(sb, addr));
          hide LogsMore;
          forall j | 0 <= j < |inodes| && j != i ensures Untouched(old(blocks), blocks, inodes[j]) {
            UntouchedOn(old(blocks), blocks1, blocks, inodes[j]);
          }
        } else {
          assert blocks == old(blocks);
        }
      }
    }

    /**
     The block that holds block bn of the file, allocated if need be; 0 when there is none left.
     Not ok where the source panics, which is from MAXFILE on.
     */
    method Bmap(i: nat, bn: nat) returns (ok: bool, addr: nat, ghost news: nat, ghost marks: set<nat>)
      requires Valid() && i < |inodes|
      modifies this`blocks, this`inodes, this`dinodes, this`owner, this`logged
      ensures ok <==> bn < MAXFILE
      ensures !ok ==> blocks == old(blocks) && inodes == old(inodes) && logged == old(logged) && owner == old(owner)
      ensures Valid() && dinodes == old(dinodes) && OthersKept(i)
      ensures Extends(old(blocks), old(inodes[i]), blocks, inodes[i], bn)
      ensures old(inodes[i]).addrs[NDIRECT] != 0 ==> inodes[i].addrs[NDIRECT] == old(inodes[i]).addrs[NDIRECT]
      ensures addr == Addr(blocks, inodes[i], bn)
      ensures ok && addr == 0 ==>
                Addr(old(blocks), old(inodes[i]), bn) == 0
                  && forall c: nat {:trigger InUse(sb, blocks, c)} :: c < sb.size ==> InUse(sb, blocks, c)
      ensures Addr(old(blocks), old(inodes[i]), bn) != 0 ==>
                blocks == old(blocks) && inodes == old(inodes) && logged == old(logged) && news == 0
                  && owner == old(owner)
      ensures addr != 0 && Addr(old(blocks), old(inodes[i]), bn) == 0 ==> addr < |blocks| && blocks[addr] == ZERO
      ensures bn < NDIRECT ==> inodes[i].addrs[NDIRECT] == old(inodes[i]).addrs[NDIRECT]
      // Beyond the block itself: the block of addresses, and a bitmap block for each block newly allocated.
      ensures LogsMore(old(logged), logged, addr, if bn < NDIRECT then 0 else inodes[i].addrs[NDIRECT], marks)
      ensures |marks| <= news
      ensures news <= Bit(addr != 0 && Addr(old(blocks), old(inodes[i]), bn) == 0)
                      + Bit(inodes[i].addrs[NDIRECT] != 0 && old(inodes[i]).addrs[NDIRECT] == 0)
      ensures old(logged) <= logged && Covered(old(blocks), blocks, logged)
    {
      hide Consistent, Extends, Untouched, Tidy, InUse, GetBit, Addr, Named, LogsMore, Covered;
      ok := bn < MAXFILE;
      if !ok {
        PastEnd(blocks, inodes, i, bn, logged);
        return false, 0, 0, {};
      }
      if bn < NDIRECT {
        addr, news, marks := BmapDirect(i, bn);
        return;
      }
      if inodes[i].addrs[NDIRECT] == 0 {
        NoTable(blocks, inodes[i], bn);
      }
      ghost var news1, marks1;
      var ind;
      ind, news1, marks1 := BmapTable(i, bn);
      if ind == 0 {
        NoTable(blocks, inodes[i], bn);
        LogsNone(logged);
        return true, 0, 0, {};
      }
      ghost var blocks1, ino1, logged1 := blocks, inodes[i], logged;
      addr, news, marks := BmapEntry(i, bn);
      ExtendsOn(old(blocks), old(inodes[i]), blocks1, ino1, blocks, inodes[i], bn);
      forall j | 0 <= j < |inodes| && j != i ensures Untouched(old(blocks), blocks, inodes[j]) {
        UntouchedOn(old(blocks), blocks1, blocks, inodes[j]);
      }
      CoveredOn(old(blocks), blocks1, blocks, logged1, logged);
      UnionBound(marks1, marks);
      LoggedOn(old(logged), logged1, logged, ind, addr, marks1, marks);
      news, marks := news1 + news, marks1 + marks;
    }

    /** iupdate; the inode block is logged. */
    method Iupdate(i: nat)
      requires |dinodes| == |inodes| && i < |inodes|
      modifies this`dinodes, this`logged
      ensures dinodes == old(dinodes)[i := inodes[i]] && logged == old(logged) + {IBlock(sb, i)}
    {
      dinodes := dinodes[i := inodes[i]];
      logged := logged + {IBlock(sb, i)};
    }

    /** One turn of writei: the stretch of one block from off on, or nothing when no block is left. */
    method WriteTurn(i: nat, off: nat, bytes: seq<Byte>, ghost size: nat)
      returns (addr: nat, ghost news: nat, ghost marks: set<nat>)
      requires Valid() && i < |inodes| && off < MAXBYTES && off % BSIZE + |bytes| <= BSIZE && off <= size
      requires Backed(blocks, inodes[i], size)
      modifies this`blocks, this`inodes, this`dinodes, this`owner, this`logged
      ensures Valid() && dinodes == old(dinodes) && OthersKept(i) && inodes[i].size == old(inodes[i]).size
      ensures old(inodes[i]).addrs[NDIRECT] != 0 ==> inodes[i].addrs[NDIRECT] == old(inodes[i]).addrs[NDIRECT]
      ensures addr == 0 ==> forall c: nat {:trigger InUse(sb, blocks, c)} :: c < sb.size ==> InUse(sb, blocks, c)
      ensures addr == 0 ==>
                Bytes(old(blocks), old(inodes[i]), blocks, inodes[i], size, off, off, [])
                  && Backed(blocks, inodes[i], size)
      ensures addr != 0 ==> Bytes(old(blocks), old(inodes[i]), blocks, inodes[i], size, off, off + |bytes|, bytes)
      ensures addr != 0 ==> Backed(blocks, inodes[i], if size < off + |bytes| then off + |bytes| else size)
      ensures off / BSIZE < NDIRECT ==> inodes[i].addrs[NDIRECT] == old(inodes[i]).addrs[NDIRECT]
      ensures LogsMore(old(logged), logged, addr, if off / BSIZE < NDIRECT then 0 else inodes[i].addrs[NDIRECT], marks)
      ensures |marks| <= news
      ensures news <= Bit(addr != 0 && Addr(old(blocks), old(inodes[i]), off / BSIZE) == 0)
                      + Bit(inodes[i].addrs[NDIRECT] != 0 && old(inodes[i]).addrs[NDIRECT] == 0)
      ensures old(logged) <= logged && Covered(old(blocks), blocks, logged)
      ensures Placed(old(blocks), old(inodes[i]), blocks, inodes[i], off, off + 1)
      ensures addr == Addr(blocks, inodes[i], off / BSIZE)
    {
      hide Owned, InUse, GetBit, Addr, Extends, Untouched, Bytes, Backed, Splice, Tidy, Marked, LogsMore, Placed, InFs;
      var ok;
      ok, addr, news, marks := Bmap(i, off / BSIZE);
      PlacedExtends(old(blocks), old(inodes[i]), blocks, inodes[i], off);
      SizeKept(old(blocks), old(inodes[i]), blocks, inodes[i], off / BSIZE);
      if addr == 0 {
        BytesExtends(old(blocks), old(inodes[i]), blocks, inodes[i], off / BSIZE, size, off, []);
        BackedExtends(old(blocks), old(inodes[i]), blocks, inodes[i], off / BSIZE, size);
        return;
      }
      OwnedSizes(sb.nmeta, blocks, inodes, owner);
      SlotIs(sb.nmeta, blocks, inodes, owner, i, off / BSIZE);
      ghost var blocks1 := blocks;
      BytesWrite(sb.nmeta, old(blocks), old(inodes[i]), blocks, inodes, owner, i, off, bytes, size);
      WriteDataOk(sb, blocks, inodes, owner, addr, Splice(blocks[addr], off % BSIZE, bytes));
      blocks := blocks[addr := Splice(blocks[addr], off % BSIZE, bytes)];
      LogsAlso(old(logged), logged, addr, if off / BSIZE < NDIRECT then 0 else inodes[i].addrs[NDIRECT], marks);
      FsBlocks(sb, blocks, inodes, owner, 0, 0);
      InFsMore(sb, logged, addr);
      logged := logged + {addr};
      PlacedStill(sb, old(blocks), old(inodes[i]), blocks1, blocks, inodes, owner, i, off, addr);
      forall j | 0 <= j < |inodes| && j != i ensures Untouched(old(blocks), blocks, inodes[j]) {
        UntouchedOn(old(blocks), blocks1, blocks, inodes[j]);
      }
    }

    /** The other inodes, and the blocks of their files, are as in `was`. */
    ghost predicate OthersAs(was: Began, i: nat)
      reads this
    {
      && |inodes| == |was.inodes|
      && forall j {:trigger inodes[j]} :: 0 <= j < |inodes| && j != i ==>
           inodes[j] == was.inodes[j] && Untouched(was.blocks, blocks, inodes[j])
    }

    /** writei has written the first tot bytes of src; when it began, blocks and inodes were those of `was`. */
    ghost predicate Writing(was: Began, i: nat, src: seq<Byte>, off: nat, tot: nat, data: set<nat>, marks: set<nat>)
      reads this
    {
      && Valid() && i < |inodes| && i < |was.inodes| && OthersAs(was, i) && inodes[i].size == was.inodes[i].size
      && tot <= |src|
      && Bytes(was.blocks, was.inodes[i], blocks, inodes[i], inodes[i].size, off, off + tot, src)
      && Backed(blocks, inodes[i], if inodes[i].size < off + tot then off + tot else inodes[i].size)
      && (was.inodes[i].addrs[NDIRECT] != 0 ==> inodes[i].addrs[NDIRECT] == was.inodes[i].addrs[NDIRECT])
      && WriteAccount(was.inodes[i], inodes[i], off, |src|, logged, data, marks, Span(off, off + tot),
           Fresh(off, off + tot))
      && Covered(was.blocks, blocks, logged) && Placed(was.blocks, was.inodes[i], blocks, inodes[i], off, off + |src|)
    }

    /** One turn of writei's loop. */
    method WriteStep(i: nat, src: seq<Byte>, off: nat, tot: nat, ghost was: Began, ghost data: set<nat>,
                     ghost marks: set<nat>)
      returns (m: nat, ghost data': set<nat>, ghost marks': set<nat>)
      requires Writing(was, i, src, off, tot, data, marks) && tot < |src| && off + |src| <= MAXBYTES
      requires off <= inodes[i].size
      requires tot == 0 || (off + tot) % BSIZE == 0
      modifies this`blocks, this`inodes, this`dinodes, this`owner, this`logged
      ensures m <= |src| - tot && Writing(was, i, src, off, tot + m, data', marks') && dinodes == old(dinodes)
      ensures m == 0 ==> forall c: nat {:trigger InUse(sb, blocks, c)} :: c < sb.size ==> InUse(sb, blocks, c)
      ensures m == 0 ==> Addr(blocks, inodes[i], (off + tot) / BSIZE) == 0
      ensures m > 0 ==> tot + m == |src| || (off + tot + m) % BSIZE == 0
    {
      hide InUse, Addr, Bytes, Backed, Consistent, Tidy, WriteAccount, Span, Fresh, Untouched, LogsMore, Named,
           Covered, Placed;
      var o := off + tot;
      m := if |src| - tot < BSIZE - o % BSIZE then |src| - tot else BSIZE - o % BSIZE;
      ghost var size := inodes[i].size;
      ghost var s1 := if size < o then o else size;
      ghost var new0 := Addr(blocks, inodes[i], o / BSIZE) == 0;
      if tot == 0 && off % BSIZE != 0 {
        FirstBacked(blocks, inodes[i], s1, off);
      }
      var addr;
      ghost var news, more;
      addr, news, more := WriteTurn(i, o, src[tot..tot + m], s1);
      StepSpan(off, o, m, tot);
      forall j | 0 <= j < |inodes| && j != i
        ensures inodes[j] == was.inodes[j] && Untouched(was.blocks, old(blocks), was.inodes[j])
        ensures Untouched(old(blocks), blocks, inodes[j])
      {
        assert inodes[j] == old(inodes)[j];
      }
      OthersThrough(was.blocks, old(blocks), blocks, was.inodes, inodes, i);
      CoveredOn(was.blocks, old(blocks), blocks, old(logged), logged);
      PlacedWider(old(blocks), old(inodes[i]), blocks, inodes[i], o, off, off + |src|);
      PlacedOn(was.blocks, was.inodes[i], old(blocks), old(inodes[i]), blocks, inodes[i], off, off + |src|);
      if addr == 0 {
        m := 0;
        SameAsNone(was.blocks, was.inodes[i], old(blocks), old(inodes[i]), blocks, inodes[i], size, off, o, src);
      } else {
        BytesOn(was.blocks, was.inodes[i], old(blocks), old(inodes[i]), blocks, inodes[i], size, off, o, o + m, src);
      }
      WriteAccountOn(was.inodes[i], old(inodes[i]), inodes[i], off, |src|, o, old(logged), data, marks, Span(off, o),
        Fresh(off, o),
                     logged, addr, more, addr != 0 && new0, Span(off, o + m), Fresh(off, o + m));
      data', marks' := data + Named(addr), marks + more;
    }

    /** The loop of writei. */
    method WriteLoop(i: nat, src: seq<Byte>, off: nat, ghost was: Began)
      returns (tot: nat, ghost data: set<nat>, ghost marks: set<nat>)
      requires Valid() && i < |inodes| && off <= inodes[i].size && off + |src| <= MAXBYTES
      requires Backed(blocks, inodes[i], inodes[i].size)
      requires logged == {} && was == Began(blocks, inodes)
      modifies this`blocks, this`inodes, this`dinodes, this`owner, this`logged
      ensures Writing(was, i, src, off, tot, data, marks) && dinodes == old(dinodes)
      ensures tot < |src| ==> forall c: nat {:trigger InUse(sb, blocks, c)} :: c < sb.size ==> InUse(sb, blocks, c)
      ensures tot < |src| ==> Addr(blocks, inodes[i], (off + tot) / BSIZE) == 0
    {
      hide InUse, Addr, Bytes, Backed, Consistent, Tidy, WriteAccount, Span, Fresh, Untouched, Covered, Placed;
      tot, data, marks := 0, {}, {};
      var full := false;
      BytesNone(blocks, inodes[i], inodes[i].size, off, src);
      WriteAccountStart(inodes[i], off, |src|);
      CoveredNone(blocks, {});
      PlacedNone(blocks, inodes[i], off, off + |src|);
      AllUntouched(blocks, inodes);
      while tot < |src| && !full
        invariant Writing(was, i, src, off, tot, data, marks) && dinodes == old(dinodes)
        invariant full ==> forall c: nat {:trigger InUse(sb, blocks, c)} :: c < sb.size ==> InUse(sb, blocks, c)
        invariant full ==> Addr(blocks, inodes[i], (off + tot) / BSIZE) == 0
        invariant tot == 0 || tot == |src| || (off + tot) % BSIZE == 0 || full
        decreases !full, |src| - tot
      {
        var m;
        m, data, marks := WriteStep(i, src, off, tot, was, data, marks);
        full := m == 0;
        tot := tot + m;
      }
    }

    /**
     Writes src at off: -1 when off is past the end or the file would be too long; else the
     number of bytes written, short only when the disk is full. The file is the sequence of
     bytes it was, with those replaced or added, and no other file has changed.
     */
    method Writei(i: nat, src: seq<Byte>, off: nat) returns (tot: int)
      requires Valid() && i < |inodes| && Backed(blocks, inodes[i], inodes[i].size) && logged == {}
      requires off < WORD_LIMIT && |src| < WORD_LIMIT
      modifies this`blocks, this`inodes, this`dinodes, this`owner, this`logged
      ensures Valid() && |inodes| == |old(inodes)| && OthersKept(i)
      ensures tot == -1 <==> off > old(inodes[i]).size || off + |src| > MAXBYTES
      ensures tot == -1 ==>
                blocks == old(blocks) && inodes == old(inodes) && dinodes == old(dinodes) && logged == {}
                  && owner == old(owner)
      ensures tot != -1 ==> 0 <= tot <= |src| && dinodes == old(dinodes)[i := inodes[i]]
      ensures 0 <= tot < |src| ==> forall c: nat {:trigger InUse(sb, blocks, c)} :: c < sb.size ==> InUse(sb, blocks, c)
      ensures tot != -1 ==> inodes[i].size == if off + tot > old(inodes[i]).size then off + tot else old(inodes[i]).size
      ensures tot != -1 ==>
                Bytes(old(blocks), old(inodes[i]), blocks, inodes[i], old(inodes[i]).size, off, off + tot, src)
      ensures Backed(blocks, inodes[i], inodes[i].size)
      // The file keeps its blocks and gets new ones only where the bytes go; it stops where it has none.
      ensures Placed(old(blocks), old(inodes[i]), blocks, inodes[i], off, off + |src|)
      ensures 0 <= tot < |src| ==> Addr(blocks, inodes[i], (off + tot) / BSIZE) == 0
      // What has changed is logged, and no more than WriteCost blocks are.
      ensures Covered(old(blocks), blocks, logged) && (tot != -1 ==> IBlock(sb, i) in logged)
      ensures |logged| <= WriteCost(off, |src|)
    {
      hide InUse, Addr, Bytes, Backed, Consistent, Tidy, WriteAccount, Span, Fresh, Untouched, Covered, Placed, InFs;
      CoveredNone(blocks, {});
      PlacedNone(blocks, inodes[i], off, off + |src|);
      AllUntouched(blocks, inodes);
      tot := -1;
      if off > inodes[i].size || off + |src| >= WORD_LIMIT {
        BackedBound(blocks, inodes[i], inodes[i].size);
        return;
      }
      if off + |src| > MAXBYTES {
        return;
      }
      ghost var was, data, marks := Began(blocks, inodes), {}, {};
      var t;
      t, data, marks := WriteLoop(i, src, off, was);
      WriteAccountEnd(was.inodes[i], inodes[i], off, |src|, logged, data, marks, t, IBlock(sb, i));
      CoveredMore(was.blocks, blocks, logged, logged + {IBlock(sb, i)});
      if off + t > inodes[i].size {
        ResizeOk(sb, blocks, inodes, owner, i, off + t);
        ResizeBytes(was.blocks, was.inodes[i], blocks, inodes[i], inodes[i].size, off, off + t, src, off + t);
        ResizeBacked(blocks, inodes[i], off + t, off + t);
        ResizePlaced(was.blocks, was.inodes[i], blocks, inodes[i], off, off + |src|, off + t);
        inodes := inodes[i := inodes[i].(size := off + t)];
      }
      FsBlocks(sb, blocks, inodes, owner, 0, i);
      InFsMore(sb, logged, IBlock(sb, i));
      Iupdate(i);
      tot := t;
    }

    /** Reads up to n bytes from off: the bytes of the file from off on, as many as there are. */
    method Readi(i: nat, off: nat, n: nat) returns (dst: seq<Byte>)
      requires Valid() && i < |inodes| && Backed(blocks, inodes[i], inodes[i].size) && off < WORD_LIMIT
      requires n < WORD_LIMIT
      modifies this`blocks, this`inodes, this`dinodes, this`owner, this`logged
      ensures Valid() && blocks == old(blocks) && inodes == old(inodes) && dinodes == old(dinodes)
      ensures logged == old(logged) && owner == old(owner)
      ensures off > inodes[i].size || off + n >= WORD_LIMIT ==> dst == []
      ensures off <= inodes[i].size && off + n < WORD_LIMIT ==>
                |dst| == if off + n > inodes[i].size then inodes[i].size - off else n
      ensures forall k {:trigger dst[k]} :: 0 <= k < |dst| ==> dst[k] == ByteAt(blocks, inodes[i], off + k)
    {
      hide InUse, Addr, Backed, Consistent, Tidy, Untouched, Extends, LogsMore, ByteAt;
      dst := [];
      if off > inodes[i].size || off + n >= WORD_LIMIT {
        return;
      }
      var want := if off + n > inodes[i].size then inodes[i].size - off else n;
      while |dst| < want
        invariant Valid() && blocks == old(blocks) && inodes == old(inodes) && dinodes == old(dinodes)
        invariant logged == old(logged) && owner == old(owner)
        invariant |dst| <= want
        invariant forall k {:trigger dst[k]} :: 0 <= k < |dst| ==> dst[k] == ByteAt(blocks, inodes[i], off + k)
      {
        var o := off + |dst|;
        BlockBacked(blocks, inodes[i], inodes[i].size, o);
        var ok, addr;
        ghost var news, marks;
        ok, addr, news, marks := Bmap(i, o / BSIZE);
        var m := if want - |dst| < BSIZE - o % BSIZE then want - |dst| else BSIZE - o % BSIZE;
        ghost var was := dst;
        dst := dst + blocks[addr][o % BSIZE..o % BSIZE + m];
        forall k | 0 <= k < |dst| ensures dst[k] == ByteAt(blocks, inodes[i], off + k) {
          if k >= |was| {
            BlockByte(blocks, inodes[i], o, k - |was|);
          }
        }
      }
    }

    /** The first loop of itrunc. */
    method TruncDirects(i: nat) returns (ok: bool)
      requires Valid() && i < |inodes|
      modifies this`blocks, this`inodes, this`owner, this`logged
      ensures ok && Valid() && OthersKept(i) && inodes[i].size == old(inodes[i]).size
      ensures DirectsGone(old(owner), owner, old(inodes[i]), inodes[i], i, NDIRECT)
      ensures old(logged) <= logged && Covered(old(blocks), blocks, logged)
    {
      hide InUse, Addr, Consistent, Untouched, GetBit, Covered, InFs;
      ok := true;
      var k := 0;
      AllUntouched(blocks, inodes);
      CoveredNone(blocks, logged);
      while k < NDIRECT
        invariant 0 <= k <= NDIRECT && ok && Valid() && |inodes| == |old(inodes)|
        invariant inodes[i].size == old(inodes[i]).size
        invariant OthersKept(i)
        invariant DirectsGone(old(owner), owner, old(inodes[i]), inodes[i], i, k)
        invariant old(logged) <= logged && Covered(old(blocks), blocks, logged)
      {
        var a := inodes[i].addrs[k];
        DirectsOn(sb, blocks, inodes, old(owner), owner, old(inodes[i]), i, k,
                  if a == 0 || a >= |owner| then owner else owner[a := Free]);
        if a != 0 {
          ghost var blocks1, logged1 := blocks, logged;
          Sizes(sb, blocks, inodes, owner);
          FreeDirectOk(sb, blocks, inodes, owner, i, k);
          FsBlocks(sb, blocks, inodes, owner, a, 0);
          InFsMore(sb, logged, BBlock(sb, a));
          var freed := Bfree(a);
          CoveredOn(old(blocks), blocks1, blocks, logged1, logged);
          ok := ok && freed;
          ghost var inodes1 := inodes;
          inodes := inodes[i := WithAddr(inodes[i], k, 0)];
          owner := owner[a := Free];
          forall j | 0 <= j < |inodes| && j != i
            ensures inodes[j] == old(inodes[j]) && Untouched(old(blocks), blocks, inodes[j])
          {
            assert inodes1[j] == inodes[j];
            UntouchedOn(old(blocks), blocks1, blocks, inodes[j]);
          }
        } else {
          assert WithAddr(inodes[i], k, 0) == inodes[i];
        }
        k := k + 1;
      }
    }

    /** The rest of itrunc: the blocks that the block of addresses names, and that block. */
    method TruncTable(i: nat) returns (ok: bool)
      requires Valid() && i < |inodes| && inodes[i].addrs[NDIRECT] != 0
      modifies this`blocks, this`inodes, this`owner, this`logged
      ensures ok && Valid() && OthersKept(i) && inodes[i] == WithAddr(old(inodes[i]), NDIRECT, 0)
      ensures TableGone(old(owner), owner, i)
      ensures old(logged) <= logged && Covered(old(blocks), blocks, logged)
    {
      hide InUse, Addr, Consistent, Untouched, GetBit, GetWord, Owned, Covered, InFs;
      CoveredNone(blocks, logged);
      ghost var inodes1 := inodes[i := WithAddr(inodes[i], NDIRECT, 0)];
      ghost var own := Detached(owner, i);
      UnlinkIndirectOk(sb, blocks, inodes, owner, i);
      Sizes(sb, blocks, inodes, owner);
      TableBlock(sb, blocks, inodes, owner, i);
      EntriesStart(owner, i);
      AllUntouched(blocks, inodes1);
      var ind := inodes[i].addrs[NDIRECT];
      var block := blocks[ind];
      ok := true;
      var j := 0;
      while j < NINDIRECT
        invariant 0 <= j <= NINDIRECT && ok && inodes == old(inodes) && owner == old(owner) && |blocks| == sb.size
        invariant InFs(sb, logged)
        invariant Consistent(sb, blocks, inodes1, own) && EntriesGone(owner, own, i, j) && blocks[ind] == block
        invariant forall l {:trigger inodes1[l]} :: 0 <= l < |inodes1| ==> Untouched(old(blocks), blocks, inodes1[l])
        invariant old(logged) <= logged && Covered(old(blocks), blocks, logged)
      {
        EntryOwner(sb, old(blocks), inodes, owner, i, j);
        var a := GetWord(block, j);
        EntriesOn(owner, own, i, j, a);
        if a != 0 {
          ghost var blocks1, logged1 := blocks, logged;
          FreeOk(sb, blocks, inodes1, own, a);
          MarkFreeOthers(sb, blocks, a, ind);
          FsBlocks(sb, blocks, inodes1, own, a, 0);
          InFsMore(sb, logged, BBlock(sb, a));
          var freed := Bfree(a);
          CoveredOn(old(blocks), blocks1, blocks, logged1, logged);
          ok := ok && freed;
          own := own[a := Free];
          forall l | 0 <= l < |inodes1| ensures Untouched(old(blocks), blocks, inodes1[l]) {
            UntouchedOn(old(blocks), blocks1, blocks, inodes1[l]);
          }
        }
        j := j + 1;
      }
      EntriesEnd(sb, old(blocks), inodes, owner, own, i);
      ghost var blocks1, logged1 := blocks, logged;
      FreeOk(sb, blocks, inodes1, own, ind);
      FsBlocks(sb, blocks, inodes1, own, ind, 0);
      InFsMore(sb, logged, BBlock(sb, ind));
      var freed := Bfree(ind);
      CoveredOn(old(blocks), blocks1, blocks, logged1, logged);
      ok := ok && freed;
      inodes := inodes[i := WithAddr(inodes[i], NDIRECT, 0)];
      owner := own[ind := Free];
      forall l | 0 <= l < |inodes| && l != i
        ensures inodes[l] == old(inodes[l]) && Untouched(old(blocks), blocks, inodes[l])
      {
        assert inodes1[l] == inodes[l];
        UntouchedOn(old(blocks), blocks1, blocks, inodes[l]);
      }
      TidyAfter(old(owner), owner, i);
    }

    /**
     Discards a file: it is empty, the blocks it had are free, nothing else has changed, and bfree
     never finds a block free.
     */
    method Itrunc(i: nat) returns (ok: bool)
      requires Valid() && i < |inodes|
      modifies this`blocks, this`inodes, this`dinodes, this`owner, this`logged
      ensures ok && Valid() && OthersKept(i) && Released(old(owner), owner, i)
      ensures inodes[i].size == 0
      ensures forall k {:trigger inodes[i].addrs[k]} :: 0 <= k <= NDIRECT ==> inodes[i].addrs[k] == 0
      ensures dinodes == old(dinodes)[i := inodes[i]]
      ensures old(logged) <= logged && Covered(old(blocks), blocks, logged) && IBlock(sb, i) in logged
    {
      hide InUse, Addr, Consistent, Untouched, TableGone, Released, Tidy, Covered, InFs;
      ok := TruncDirects(i);
      ghost var blocks1, inodes1, owner1, logged1 := blocks, inodes, owner, logged;
      if inodes[i].addrs[NDIRECT] != 0 {
        var freed := TruncTable(i);
        ok := ok && freed;
        CoveredOn(old(blocks), blocks1, blocks, logged1, logged);
      } else {
        NoTableOwned(sb, blocks, inodes, owner, i);
        AllUntouched(blocks, inodes);
      }
      AllReleased(old(owner), owner1, owner, old(inodes[i]), inodes1[i], i);
      ResizeOk(sb, blocks, inodes, owner, i, 0);
      inodes := inodes[i := inodes[i].(size := 0)];
      forall j | 0 <= j < |inodes| && j != i
        ensures inodes[j] == old(inodes[j]) && Untouched(old(blocks), blocks, inodes[j])
      {
        assert inodes1[j] == inodes[j];
        UntouchedOn(old(blocks), blocks1, blocks, inodes[j]);
      }
      CoveredMore(old(blocks), blocks, logged, logged + {IBlock(sb, i)});
      FsBlocks(sb, blocks, inodes, owner, 0, i);
      InFsMore(sb, logged, IBlock(sb, i));
      Iupdate(i);
    }

    /** The transaction ends, and the next begins with nothing logged. */
    ghost method EndOp()
      modifies this`logged, this`snaps
      ensures logged == {} && snaps == old(snaps) + [Snap(blocks, dinodes, owner, old(logged))]
    {
      logged, snaps := {}, snaps + [Snap(blocks, dinodes, owner, logged)];
    }

    ghost predicate AllInUse()
      reads this
    {
      forall c: nat {:trigger InUse(sb, blocks, c)} :: c < sb.size ==> InUse(sb, blocks, c)
    }

    /** Every transaction from the n-th on has logged at most MAXOPBLOCKS blocks. */
    ghost predicate SmallSince(n: nat)
      reads this
    {
      n <= |snaps| && forall t {:trigger snaps[t]} :: n <= t < |snaps| ==> |snaps[t].logged| <= MAXOPBLOCKS
    }

    /** One chunk of filewrite, in a transaction of its own. */
    method WriteChunk(i: nat, src: seq<Byte>, off: nat) returns (tot: int)
      requires Valid() && Settled() && i < |inodes| && Backed(blocks, inodes[i], inodes[i].size)
      requires off < WORD_LIMIT && |src| <= (MAXOPBLOCKS - 1 - 1 - 2) / 2 * BSIZE
      modifies this
      ensures Valid() && Settled() && |inodes| == |old(inodes)| && OthersKept(i)
      ensures tot == -1 <==> off > old(inodes[i]).size || off + |src| > MAXBYTES
      ensures tot == -1 ==> blocks == old(blocks) && inodes == old(inodes)
      ensures tot != -1 ==> 0 <= tot <= |src|
      ensures 0 <= tot < |src| ==> AllInUse()
      ensures tot != -1 ==> inodes[i].size == if off + tot > old(inodes[i]).size then off + tot else old(inodes[i]).size
      ensures tot != -1 ==>
                Bytes(old(blocks), old(inodes[i]), blocks, inodes[i], old(inodes[i]).size, off, off + tot, src)
      ensures Backed(blocks, inodes[i], inodes[i].size)
      ensures |snaps| == |old(snaps)| + 1 && snaps[..|old(snaps)|] == old(snaps)
      ensures Transaction(sb, old(snaps)[|old(snaps)| - 1], snaps[|snaps| - 1])
      ensures |snaps[|snaps| - 1].logged| <= MAXOPBLOCKS
    {
      hide InUse, Addr, Bytes, Backed, Consistent, Tidy, Untouched, Span, Fresh, Transaction, Covered, Placed, InFs,
           WriteCost;
      tot := Writei(i, src, off);
      ChunkBound(off, |src|);
      BackedBound(blocks, inodes[i], inodes[i].size);
      assert dinodes == inodes;
      OneInode(sb, old(snaps)[|old(snaps)| - 1], Snap(blocks, dinodes, owner, logged), i);
      EndOp();
    }

    /**
     The inode case of filewrite: src goes to the file from `at` on, one transaction for each
     three blocks' worth. `done` bytes get there, and no transaction logs more than MAXOPBLOCKS
     blocks, however many bitmap blocks there are.
     */
    method FileWrite(i: nat, src: seq<Byte>, at: nat) returns (ret: int, done: nat)
      requires Valid() && i < |inodes| && Backed(blocks, inodes[i], inodes[i].size) && at < WORD_LIMIT
      requires |src| < WORD_LIMIT / 2 && Settled()
      modifies this
      ensures Valid() && OthersKept(i) && Backed(blocks, inodes[i], inodes[i].size)
      ensures done <= |src| && ret == if done == |src| then |src| else -1
      ensures at <= old(inodes[i]).size ==>
                Bytes(old(blocks), old(inodes[i]), blocks, inodes[i], old(inodes[i]).size, at, at + done, src)
      ensures inodes[i].size == if at <= old(inodes[i]).size < at + done then at + done else old(inodes[i]).size
      ensures at > old(inodes[i]).size ==> done == 0 && blocks == old(blocks) && inodes == old(inodes)
      ensures done < |src| ==> at > old(inodes[i]).size || at + |src| > MAXBYTES || AllInUse()
      ensures Settled() && old(snaps) <= snaps && Transactions(sb, snaps, |old(snaps)|) && SmallSince(|old(snaps)|)
      ensures done == |src| ==> 0 <= 3 * BSIZE * (|snaps| - |old(snaps)|) - |src| < 3 * BSIZE
    {
      hide InUse, Addr, Bytes, Backed, Consistent, Tidy, Untouched, Transactions, Transaction, InFs;
      NoTransactions(sb, snaps);
      var max := (MAXOPBLOCKS - 1 - 1 - 2) / 2 * BSIZE;
      done := 0;
      ghost var size, chunks := inodes[i].size, 0;
      BytesNone(blocks, inodes[i], size, at, src);
      AllUntouched(blocks, inodes);
      var more := true;
      while done < |src| && more
        invariant Valid() && OthersKept(i) && |inodes| == |old(inodes)| && Backed(blocks, inodes[i], inodes[i].size)
        invariant done <= |src| && (!more ==> done < |src|)
        invariant |snaps| == |old(snaps)| + chunks && done <= 3 * BSIZE * chunks
        invariant more && done < |src| ==> done == 3 * BSIZE * chunks
        invariant 0 < chunks ==> 3 * BSIZE * (chunks - 1) < |src|
        invariant Settled() && old(snaps) <= snaps && Transactions(sb, snaps, |old(snaps)|) && SmallSince(|old(snaps)|)
        invariant at <= size ==> Bytes(old(blocks), old(inodes[i]), blocks, inodes[i], size, at, at + done, src)
        invariant inodes[i].size == if at <= size < at + done then at + done else size
        invariant at > size ==> done == 0 && blocks == old(blocks) && inodes == old(inodes)
        invariant more || at > size || at + |src| > MAXBYTES || AllInUse()
        decreases more, |src| - done
      {
        var n1 := if |src| - done > max then max else |src| - done;
        ghost var blocks1, inodes1 := blocks, inodes;
        BackedBound(blocks, inodes[i], inodes[i].size);
        assert at + done < WORD_LIMIT;
        ghost var snaps1 := snaps;
        var r := WriteChunk(i, src[done..done + n1], at + done);
        assert snaps == snaps1 + [snaps[|snaps| - 1]];
        TransactionsOn(sb, snaps1, |old(snaps)|, snaps[|snaps| - 1]);
        forall j | 0 <= j < |inodes| && j != i
          ensures inodes[j] == old(inodes[j]) && Untouched(old(blocks), blocks, inodes[j])
        {
          assert inodes1[j] == inodes[j];
          UntouchedOn(old(blocks), blocks1, blocks, inodes[j]);
        }
        if r >= 0 {
          ChunkWritten(old(blocks), old(inodes[i]), blocks1, inodes1[i], blocks, inodes[i], size, at, at + done, n1, r,
            src);
        }
        if r > 0 {
          done := done + r;
        }
        more, chunks := r == n1, chunks + 1;
      }
      ret := if done == |src| then |src| else -1;
    }
  }
}
