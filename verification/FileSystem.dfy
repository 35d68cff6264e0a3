/**
 * The block and inode layers of fs.c. `blocks` is what bread shows and log_write changes (the buffer
 * cache refines such a flat store); `inodes` holds the in-memory inodes by number, an inode not in
 * memory standing for its disk copy. A method that returns None reached a panic.
 */
module FileSystem {
  import opened Blocks
  import opened Options
  import opened FsFormat
  import opened BlockMap
  import opened FileWrites

  const MAXFILE := (NDIRECT + NINDIRECT) * 2   // fs.h; twice what bmap reaches

  /** What readi or writei comes to: a byte count, -1, a panic, or a call of the device's own routine. */
  datatype Outcome = Done(n: nat) | Failed | Panic | Device

  class FileSystem {
    const sb: Super
    var blocks: seq<Block>
    var inodes: seq<Dinode>
    ghost var owner: Owners

    constructor (sb: Super, blocks: seq<Block>, inodes: seq<Dinode>, ghost owner: Owners)
      ensures this.sb == sb && this.blocks == blocks && this.inodes == inodes && this.owner == owner
    {
      this.sb, this.blocks, this.inodes, this.owner := sb, blocks, inodes, owner;
    }

    /** balloc: the first free block, marked and zeroed. */
    method Balloc() returns (r: Option<nat>)
      requires sb.Valid() && |blocks| == sb.size
      modifies this`blocks
      ensures r.None? ==> blocks == old(blocks) && forall c :: 0 <= c < sb.size ==> Marked(sb, blocks, c)
      ensures r.Some? ==> r.value < sb.size && !Marked(sb, old(blocks), r.value)
      ensures r.Some? ==> blocks == Allocated(sb, old(blocks), r.value)
      ensures r.Some? ==> forall c :: 0 <= c < r.value ==> Marked(sb, old(blocks), c)
    {
      var b := 0;
      while b < sb.size
        invariant 0 <= b && b % BPB == 0 && blocks == old(blocks)
        invariant forall c :: 0 <= c < b && c < sb.size ==> Marked(sb, blocks, c)
      {
        var bi := ScanBitmapBlock(b);
        if bi < BPB && b + bi < sb.size {
          blocks := Mark(sb, blocks, b + bi);
          blocks := blocks[b + bi := ZeroBlock()];
          return Some(b + bi);
        }
        b := b + BPB;
      }
      return None;
    }

    /** balloc's inner loop: the first clear bit of the bitmap block that starts at block number `b`. */
    method ScanBitmapBlock(b: nat) returns (bi: nat)
      requires sb.Valid() && |blocks| == sb.size && b < sb.size && b % BPB == 0
      ensures bi <= BPB && forall c :: b <= c < b + bi && c < sb.size ==> Marked(sb, blocks, c)
      ensures bi < BPB && b + bi < sb.size ==> !Marked(sb, blocks, b + bi)
      ensures bi < BPB ==> b + bi < sb.size || b + BPB >= sb.size
    {
      var bitmap := blocks[sb.BitmapBlock(b)];
      bi := 0;
      while bi < BPB && b + bi < sb.size && BitOf(bitmap[bi / 8], bi % 8)
        invariant 0 <= bi <= BPB
        invariant forall c :: b <= c < b + bi && c < sb.size ==> Marked(sb, blocks, c)
      {
        SameBitmapBlock(b, bi);
        bi := bi + 1;
      }
      if bi < BPB { SameBitmapBlock(b, bi); }
    }

    lemma SameBitmapBlock(b: nat, bi: nat)
      requires b % BPB == 0 && bi < BPB
      ensures (b + bi) / BPB == b / BPB && (b + bi) % BPB == bi && (b + bi) % 8 == bi % 8
    {
    }

    /** A pointer slot of inode `j` filled from balloc. */
    method AllocPointer(j: nat, k: nat) returns (r: Option<nat>)
      requires OwnInv(sb, blocks, inodes, owner) && j < |inodes| && k <= INDIRECT && inodes[j].addrs[k] == 0
      modifies this`blocks, this`inodes, this`owner
      ensures OwnInv(sb, blocks, inodes, owner) && |inodes| == old(|inodes|)
      ensures r.None? ==> blocks == old(blocks) && inodes == old(inodes)
      ensures Takes(sb, old(|owner|), |owner|, 1, r.Some?)
      ensures SameBytes(old(blocks), old(inodes), blocks, inodes) && SameMeta(sb, old(blocks), blocks)
      ensures OthersSame(old(blocks), old(inodes), blocks, inodes, j)
      ensures r.Some? ==> && 0 < r.value < sb.size && inodes[j] == WithAddr(old(inodes)[j], k, r.value)
                          && OneSlotAdded(old(blocks), old(inodes)[j], blocks, inodes[j], k, r.value)
    {
      FreeAndOwned(sb, blocks, inodes, owner);
      r := Balloc();
      if r.Some? {
        assert (owner[r.value := (j, k)]).Keys == owner.Keys + {r.value};
        AllocPointerEffect(sb, old(blocks), inodes, owner, j, k, r.value);
        AllocPointerBytes(sb, old(blocks), inodes, owner, j, k, r.value);
        FreeIsUnowned(sb, old(blocks), inodes, owner, r.value);
        inodes := inodes[j := inodes[j].(addrs := inodes[j].addrs[k := r.value])];
        owner := owner[r.value := (j, k)];
      }
    }

    /** An entry of inode `j`'s indirect block filled from balloc. */
    method AllocEntry(j: nat, e: nat) returns (r: Option<nat>)
      requires OwnInv(sb, blocks, inodes, owner) && j < |inodes| && e < NINDIRECT
      requires 0 < inodes[j].addrs[INDIRECT] < |blocks| && GetWord(blocks[inodes[j].addrs[INDIRECT]], e) == 0
      modifies this`blocks, this`owner
      ensures OwnInv(sb, blocks, inodes, owner)
      ensures r.None? ==> blocks == old(blocks)
      ensures Takes(sb, old(|owner|), |owner|, 1, r.Some?)
      ensures SameBytes(old(blocks), inodes, blocks, inodes) && SameMeta(sb, old(blocks), blocks)
      ensures OthersSame(old(blocks), inodes, blocks, inodes, j)
      ensures r.Some? ==>
                && 0 < r.value < sb.size
                && OneSlotAdded(old(blocks), inodes[j], blocks, inodes[j], INDIRECT + 1 + e, r.value)
    {
      var ind := blocks[inodes[j].addrs[INDIRECT]];
      FreeAndOwned(sb, blocks, inodes, owner);
      r := Balloc();
      if r.Some? {
        assert (owner[r.value := (j, INDIRECT + 1 + e)]).Keys == owner.Keys + {r.value};
        AllocEntryEffect(sb, old(blocks), inodes, owner, j, e, r.value);
        AllocEntryBytes(sb, old(blocks), inodes, owner, j, e, r.value);
        FreeIsUnowned(sb, old(blocks), inodes, owner, r.value);
        blocks := blocks[inodes[j].addrs[INDIRECT] := SetWord(ind, e, r.value)];
        owner := owner[r.value := (j, INDIRECT + 1 + e)];
      }
    }

    /** bmap: the address of file block `bn`, allocating it if there is none; None is one of its two panics. */
    method Bmap(j: nat, bn: nat) returns (r: Option<nat>)
      requires OwnInv(sb, blocks, inodes, owner) && j < |inodes|
      modifies this`blocks, this`inodes, this`owner
      ensures OwnInv(sb, blocks, inodes, owner) && |inodes| == old(|inodes|)
      ensures r.Some? ==> && bn < MAXBLOCKS && MapStep(sb, old(blocks), old(inodes), blocks, inodes, owner, j, bn)
                          && r.value == SlotAddr(blocks, inodes[j], FileSlot(bn))
      ensures bn >= MAXBLOCKS ==> r.None?
      ensures bn < MAXBLOCKS ==> Takes(sb, old(|owner|), |owner|, Missing(old(blocks), old(inodes)[j], bn), r.Some?)
      ensures bn < MAXBLOCKS && SlotAddr(old(blocks), old(inodes)[j], FileSlot(bn)) != 0 ==>
                r.Some? && blocks == old(blocks) && inodes == old(inodes) && owner == old(owner)
    {
      FreeAndOwned(sb, blocks, inodes, owner);
      if bn < NDIRECT {
        if inodes[j].addrs[bn] != 0 {
          return Some(inodes[j].addrs[bn]);
        }
        r := AllocPointer(j, bn);
        return;
      }
      if bn - NDIRECT < NINDIRECT {
        r := BmapIndirect(j, bn - NDIRECT);
        return;
      }
      return None;
    }

    /** bmap beyond the direct blocks. */
    method BmapIndirect(j: nat, e: nat) returns (r: Option<nat>)
      requires OwnInv(sb, blocks, inodes, owner) && j < |inodes| && e < NINDIRECT
      modifies this`blocks, this`inodes, this`owner
      ensures OwnInv(sb, blocks, inodes, owner) && |inodes| == old(|inodes|)
      ensures r.Some? ==> && Mapped(sb, old(blocks), old(inodes), blocks, inodes, j, NDIRECT + e)
                          && r.value == SlotAddr(blocks, inodes[j], INDIRECT + 1 + e)
      ensures Takes(sb, old(|owner|), |owner|, Missing(old(blocks), old(inodes)[j], NDIRECT + e), r.Some?)
      ensures SlotAddr(old(blocks), old(inodes)[j], INDIRECT + 1 + e) != 0 ==>
                r.Some? && blocks == old(blocks) && inodes == old(inodes) && owner == old(owner)
    {
      hide PointersOwned, OwnersPoint, MarksAre, Mapped, FillsSlot;
      ghost var b0, i0 := blocks, inodes;
      r := BmapPointer(j);
      if r.None? { return; }
      ghost var b1, i1 := blocks, inodes;
      r := BmapEntry(j, e, r.value);
      if r.Some? {
        FillsBoth(sb, b0, i0, b1, i1, blocks, inodes, j, e);
      }
    }

    /** The indirect block, allocated if there is none. */
    method BmapPointer(j: nat) returns (r: Option<nat>)
      requires OwnInv(sb, blocks, inodes, owner) && j < |inodes|
      modifies this`blocks, this`inodes, this`owner
      ensures OwnInv(sb, blocks, inodes, owner) && FillsSlot(sb, old(blocks), old(inodes), blocks, inodes, j, INDIRECT)
      ensures r.Some? ==> r.value == inodes[j].addrs[INDIRECT] && 0 < r.value < |blocks|
      ensures Takes(sb, old(|owner|), |owner|, if old(inodes)[j].addrs[INDIRECT] == 0 then 1 else 0, r.Some?)
      ensures old(inodes)[j].addrs[INDIRECT] != 0 ==>
                r.Some? && blocks == old(blocks) && inodes == old(inodes) && owner == old(owner)
      ensures forall k :: INDIRECT < k < NSLOTS ==>
                SlotAddr(blocks, inodes[j], k) == SlotAddr(old(blocks), old(inodes)[j], k)
    {
      FreeAndOwned(sb, blocks, inodes, owner);
      FillsNone(sb, blocks, inodes, j, INDIRECT);
      if inodes[j].addrs[INDIRECT] != 0 {
        assert SlotAddr(blocks, inodes[j], INDIRECT) == inodes[j].addrs[INDIRECT];
        return Some(inodes[j].addrs[INDIRECT]);
      }
      r := AllocPointer(j, INDIRECT);
    }

    /** Entry e of the indirect block at addr, allocated if it is 0. */
    method BmapEntry(j: nat, e: nat, addr: nat) returns (r: Option<nat>)
      requires OwnInv(sb, blocks, inodes, owner) && j < |inodes| && e < NINDIRECT
      requires addr == inodes[j].addrs[INDIRECT] && 0 < addr < |blocks|
      modifies this`blocks, this`owner
      ensures OwnInv(sb, blocks, inodes, owner) &&
              FillsSlot(sb, old(blocks), inodes, blocks, inodes, j, INDIRECT + 1 + e)
      ensures r.Some? ==> r.value == SlotAddr(blocks, inodes[j], INDIRECT + 1 + e) != 0
      ensures r.Some? ==> SlotAddr(blocks, inodes[j], INDIRECT) != 0
      ensures Takes(sb, old(|owner|), |owner|,
                    if SlotAddr(old(blocks), inodes[j], INDIRECT + 1 + e) == 0 then 1 else 0, r.Some?)
      ensures SlotAddr(old(blocks), inodes[j], INDIRECT + 1 + e) != 0 ==>
                r.Some? && blocks == old(blocks) && owner == old(owner)
    {
      FreeAndOwned(sb, blocks, inodes, owner);
      FillsNone(sb, blocks, inodes, j, INDIRECT + 1 + e);
      assert SlotAddr(blocks, inodes[j], INDIRECT + 1 + e) == GetWord(blocks[addr], e);
      if GetWord(blocks[addr], e) != 0 {
        return Some(GetWord(blocks[addr], e));
      }
      r := AllocEntry(j, e);
    }

    /** iupdate: the disk copy of inode `j` becomes the in-memory one. */
    method Iupdate(j: nat)
      requires Sizes(sb, blocks, inodes) && j < |inodes|
      modifies this`blocks
      ensures blocks == StoreInode(sb, old(blocks), j, inodes[j])
    {
      var b, slot, d := blocks[sb.InodeBlock(j)], j % IPB, inodes[j];
      for k := 0 to 3 + |d.addrs|
        invariant b == PutWords(blocks[sb.InodeBlock(j)], slot, d, k)
      {
        b := SetInodeWord(b, slot, k, DinodeWord(d, k));
      }
      blocks := blocks[sb.InodeBlock(j) := b];
    }

    /** One iteration of writei's loop: bmap, then copy up to the end of the block; 0 is a panic in bmap. */
    method CopyBlock(j: nat, off: nat, src: seq<byte>, tot: nat, ghost blocks0: seq<Block>, ghost inodes0: seq<Dinode>)
      returns (m: nat)
      requires OwnInv(sb, blocks, inodes, owner) && |inodes| == |inodes0| && j < |inodes| && AllValid(inodes0)
      requires tot < |src| && off <= inodes0[j].size && Progress(sb, blocks0, inodes0, blocks, inodes, j, off, src, tot)
      modifies this`blocks, this`inodes, this`owner
      ensures OwnInv(sb, blocks, inodes, owner) && |inodes| == old(|inodes|) && tot + m <= |src|
      ensures m > 0 ==>
                off + tot + m <= MAXBLOCKS * BSIZE &&
                  Progress(sb, blocks0, inodes0, blocks, inodes, j, off, src, tot + m)
      ensures off + tot < MAXBLOCKS * BSIZE ==>
                Takes(sb, old(|owner|), |owner|, Missing(old(blocks), old(inodes)[j], (off + tot) / BSIZE), m > 0)
      ensures m > 0 ==> m == Chunk(|src| - tot, off + tot)
    {
      var at := off + tot;
      hide Progress, Marked, SlotAddr, Mapped, MarksAre, PointersOwned, OwnersPoint;
      var r := Bmap(j, at / BSIZE);
      if r.None? {
        return 0;
      }
      m := Chunk(|src| - tot, at);
      CopyChunk(j, off, src, tot, m, r.value, blocks0, inodes0, old(blocks), old(inodes));
    }

    /** bread of the mapped block `a`, memmove of `m` bytes into it, log_write. */
    method CopyChunk(j: nat, off: nat, src: seq<byte>, tot: nat, m: nat, a: nat, ghost blocks0: seq<Block>,
                     ghost inodes0: seq<Dinode>,
                     ghost blocks1: seq<Block>, ghost inodes1: seq<Dinode>)
      requires |inodes0| == |inodes1| == |inodes| && j < |inodes| && AllValid(inodes0) && AllValid(inodes1) &&
               AllValid(inodes)
      requires tot + m <= |src| && (off + tot) / BSIZE < MAXBLOCKS && 0 < m <= BSIZE - (off + tot) % BSIZE
      requires Progress(sb, blocks0, inodes0, blocks1, inodes1, j, off, src, tot)
      requires MapStep(sb, blocks1, inodes1, blocks, inodes, owner, j, (off + tot) / BSIZE)
      requires a == SlotAddr(blocks, inodes[j], FileSlot((off + tot) / BSIZE))
      modifies this`blocks
      ensures OwnInv(sb, blocks, inodes, owner) && Progress(sb, blocks0, inodes0, blocks, inodes, j, off, src, tot + m)
    {
      ProgressStep(sb, blocks0, inodes0, blocks1, inodes1, blocks, inodes, owner, j, off, src, tot, m);
      blocks := blocks[a := Splice(blocks[a], (off + tot) % BSIZE, src[tot..tot + m])];
    }

    /** The loop of writei; false is a panic in bmap. */
    method CopyIn(j: nat, off: nat, src: seq<byte>) returns (ok: bool)
      requires OwnInv(sb, blocks, inodes, owner) && j < |inodes|
      requires off <= inodes[j].size <= MAXBLOCKS * BSIZE && MappedBelow(blocks, inodes[j], inodes[j].size)
      modifies this`blocks, this`inodes, this`owner
      ensures OwnInv(sb, blocks, inodes, owner) && |inodes| == old(|inodes|)
      ensures ok ==> off + |src| <= MAXBLOCKS * BSIZE
      ensures ok ==> Progress(sb, old(blocks), old(inodes), blocks, inodes, j, off, src, |src|)
      ensures ok <==> && off + |src| <= MAXBLOCKS * BSIZE
                      && Growth(old(inodes)[j].size, off + |src|) <= DataBlocks(sb) - old(|owner|)
      ensures ok ==> |owner| == old(|owner|) + Growth(old(inodes)[j].size, off + |src|)
    {
      var tot := 0;
      hide Progress, MarksAre, PointersOwned, OwnersPoint, MappedBelow, Growth, Missing, Chunk;
      ghost var size := inodes[j].size;
      ProgressNone(sb, blocks, inodes, j, off, src);
      NoGrowth(size, off);
      while tot < |src|
        invariant 0 <= tot <= |src| && off + tot <= MAXBLOCKS * BSIZE
        invariant OwnInv(sb, blocks, inodes, owner) && |inodes| == old(|inodes|)
        invariant Progress(sb, old(blocks), old(inodes), blocks, inodes, j, off, src, tot)
        invariant |owner| == old(|owner|) + Growth(size, off + tot)
      {
        ProgressMaps(sb, old(blocks), old(inodes), blocks, inodes, j, off, src, tot);
        CopyCounts(blocks, inodes[j], size, off, |src|, tot);
        var m := CopyBlock(j, off, src, tot, old(blocks), old(inodes));
        if m == 0 {
          return false;
        }
        tot := tot + m;
      }
      FreeAndOwned(sb, blocks, inodes, owner);
      return true;
    }

    /**
     * writei: on success file `j` is its old content with `src` spliced in at `off`, every other file
     * is untouched, and the disk inodes equal the in-memory ones although iupdate runs only on growth.
     */
    method Writei(j: nat, src: seq<byte>, off: word) returns (r: Outcome)
      requires Consistent(sb, blocks, inodes, owner) && j < |inodes| && |src| < 0x1_0000_0000
      modifies this`blocks, this`inodes, this`owner
      ensures OwnInv(sb, blocks, inodes, owner) && |inodes| == old(|inodes|)
      ensures !r.Panic? ==> Consistent(sb, blocks, inodes, owner)
      ensures r.Device? <==> old(inodes)[j].typ == T_DEV
      ensures r.Failed? <==> old(inodes)[j].typ != T_DEV && (off > old(inodes)[j].size || off + |src| > MAXFILE * BSIZE)
      ensures r.Failed? || r.Device? ==> blocks == old(blocks) && inodes == old(inodes)
      ensures var size, end := old(inodes)[j].size, off + |src|;
              r.Panic? <==> && old(inodes)[j].typ != T_DEV && off <= size && end <= MAXFILE * BSIZE
                            && (end > MAXBLOCKS * BSIZE || Growth(size, end) > FreeBlocks(sb, old(blocks)))
      ensures r.Done? ==> r.n == |src| && off + |src| <= MAXBLOCKS * BSIZE
      ensures r.Done? ==> FileOverwritten(old(blocks), old(inodes), blocks, inodes, j, off, src)
      ensures r.Done? ==> inodes[j] == old(inodes)[j].(addrs := inodes[j].addrs,
                                                       size := Max(old(inodes)[j].size, off + |src|))
      ensures r.Done? ==>
                FreeBlocks(sb, blocks) == FreeBlocks(sb, old(blocks)) - Growth(old(inodes)[j].size, off + |src|)
    {
      if inodes[j].typ == T_DEV {
        return Device;
      }
      if off > inodes[j].size || (off + |src|) % 0x1_0000_0000 < off {
        return Failed;
      }
      if off + |src| > MAXFILE * BSIZE {
        return Failed;
      }
      FreeAndOwned(sb, blocks, inodes, owner);
      var ok := CopyIn(j, off, src);
      if !ok {
        return Panic;
      }
      FinishWrite(j, src, off, old(blocks), old(inodes), old(owner));
      FreeAndOwned(sb, blocks, inodes, owner);
      return Done(|src|);
    }

    /** The end of writei: a file that grew gets its new size, and its inode goes to disk. */
    method FinishWrite(j: nat, src: seq<byte>, off: word, ghost blocks0: seq<Block>, ghost inodes0: seq<Dinode>,
                       ghost owner0: Owners)
      requires Consistent(sb, blocks0, inodes0, owner0) && OwnInv(sb, blocks, inodes, owner)
      requires |inodes| == |inodes0| && j < |inodes| && off <= inodes0[j].size && off + |src| <= MAXBLOCKS * BSIZE
      requires Progress(sb, blocks0, inodes0, blocks, inodes, j, off, src, |src|)
      modifies this`blocks, this`inodes
      ensures Consistent(sb, blocks, inodes, owner) && |inodes| == |inodes0|
      ensures FileOverwritten(blocks0, inodes0, blocks, inodes, j, off, src)
      ensures inodes[j] == inodes0[j].(addrs := inodes[j].addrs, size := Max(inodes0[j].size, off + |src|))
    {
      hide PointersOwned, OwnersPoint, MarksAre;
      if |src| > 0 && off + |src| > inodes[j].size {
        GrowAndStore(sb, blocks0, inodes0, blocks, inodes, owner0, owner, j, off, src);
        inodes := inodes[j := inodes[j].(size := off + |src|)];
        Iupdate(j);
      } else {
        SameMetaSameInodes(sb, blocks0, blocks);
      }
      WrittenFiles(blocks0, inodes0, blocks, inodes, j, off, src);
    }

    /** readi: exactly the part of the file asked for, clipped at its end; bmap never allocates on the way. */
    method Readi(j: nat, off: word, n: word) returns (r: Outcome, dst: seq<byte>)
      requires Consistent(sb, blocks, inodes, owner) && j < |inodes|
      modifies this`blocks, this`inodes, this`owner
      ensures blocks == old(blocks) && inodes == old(inodes) && owner == old(owner)
      ensures r.Device? <==> inodes[j].typ == T_DEV
      ensures r.Failed? <==> inodes[j].typ != T_DEV && (off > inodes[j].size || off + n >= 0x1_0000_0000)
      ensures !r.Panic?
      ensures r.Done? ==> off <= inodes[j].size
      ensures r.Done? ==>
                dst == FileBytes(blocks, inodes[j])[off..if off + n > inodes[j].size then inodes[j].size else off + n]
      ensures r.Done? ==> r.n == |dst|
    {
      hide PointersOwned, OwnersPoint, MarksAre, WriteThrough, MappedBelow;
      dst := [];
      if inodes[j].typ == T_DEV {
        return Device, [];
      }
      if off > inodes[j].size || (off + n) % 0x1_0000_0000 < off {
        return Failed, [];
      }
      var n' := if off + n > inodes[j].size then inodes[j].size - off else n;
      dst := CopyOut(j, off, n');
      return Done(n'), dst;
    }

    /** The loop of readi. */
    method CopyOut(j: nat, off: nat, n: nat) returns (dst: seq<byte>)
      requires Consistent(sb, blocks, inodes, owner) && j < |inodes| && off + n <= inodes[j].size
      modifies this`blocks, this`inodes, this`owner
      ensures blocks == old(blocks) && inodes == old(inodes) && owner == old(owner)
      ensures dst == FileBytes(blocks, inodes[j])[off..off + n]
    {
      hide PointersOwned, OwnersPoint, MarksAre, WriteThrough, MappedBelow;
      ghost var file := FileBytes(blocks, inodes[j]);
      dst := [];
      while |dst| < n
        invariant |dst| <= n && dst == file[off..off + |dst|]
        invariant blocks == old(blocks) && inodes == old(inodes) && owner == old(owner)
      {
        var chunk := ReadBlock(j, off + |dst|, n - |dst|);
        dst := dst + chunk;
      }
    }

    /** One iteration of readi's loop. */
    method ReadBlock(j: nat, at: nat, left: nat) returns (chunk: seq<byte>)
      requires Consistent(sb, blocks, inodes, owner) && j < |inodes| && 0 < left && at + left <= inodes[j].size
      modifies this`blocks, this`inodes, this`owner
      ensures blocks == old(blocks) && inodes == old(inodes) && owner == old(owner)
      ensures 0 < |chunk| <= left && chunk == FileBytes(blocks, inodes[j])[at..at + |chunk|]
    {
      hide Marked, OwnInv, Consistent, MapStep, SlotAddr, FileBytes, Chunk;
      ReadableChunk(sb, blocks, inodes, owner, j, at, left);
      var a := Bmap(j, at / BSIZE);
      var m := Chunk(left, at);
      chunk := blocks[a.value][at % BSIZE..at % BSIZE + m];
    }

    /** bfree: clear the block's bit; false is the "freeing free block" panic. */
    method Bfree(b: nat) returns (ok: bool)
      requires sb.Valid() && |blocks| == sb.size && b < sb.size
      modifies this`blocks
      ensures ok <==> Marked(sb, old(blocks), b)
      ensures blocks == if ok then Unmark(sb, old(blocks), b) else old(blocks)
    {
      ok := Marked(sb, blocks, b);
      if ok {
        blocks := Unmark(sb, blocks, b);
      }
    }

    /** itrunc's loop over the direct blocks. */
    method FreeDirect(j: nat) returns (ok: bool)
      requires Consistent(sb, blocks, inodes, owner) && j < |inodes|
      modifies this`blocks, this`inodes
      ensures ok && Truncating(sb, old(blocks), owner, blocks, j, NDIRECT, 0, false)
      ensures |inodes| == old(|inodes|) && inodes[j].Valid()
      ensures inodes == old(inodes)[j := old(inodes)[j].(addrs := inodes[j].addrs)]
      ensures inodes[j].addrs == seq<word>(NDIRECT, _ => 0) + [old(inodes)[j].addrs[INDIRECT]]
    {
      hide PointersOwned, OwnersPoint, MarksAre, SameOutsideBitmap, WriteThrough, MappedBelow;
      TruncatingStart(sb, blocks, inodes, owner, j);
      for i := 0 to NDIRECT
        invariant Truncating(sb, old(blocks), owner, blocks, j, i, 0, false)
        invariant |inodes| == old(|inodes|) && inodes[j].Valid()
        invariant inodes == old(inodes)[j := old(inodes)[j].(addrs := inodes[j].addrs)]
        invariant forall k :: 0 <= k <= NDIRECT ==> inodes[j].addrs[k] == if k < i then 0 else old(inodes)[j].addrs[k]
      {
        FreeSlot(sb, old(blocks), old(inodes), owner, blocks, j, i, i, 0, false, i + 1, 0, false);
        if inodes[j].addrs[i] != 0 {
          ok := Bfree(inodes[j].addrs[i]);
          if !ok { return; }
          inodes := inodes[j := inodes[j].(addrs := inodes[j].addrs[i := 0])];
        }
      }
      return true;
    }

    /** itrunc's loop over the entries of the indirect block `ind`. */
    method FreeEntries(j: nat, ind: Block, ghost blocks0: seq<Block>, ghost inodes0: seq<Dinode>) returns (ok: bool)
      requires OwnInv(sb, blocks0, inodes0, owner) && j < |inodes0| && 0 < inodes0[j].addrs[INDIRECT] < |blocks0|
      requires ind == blocks0[inodes0[j].addrs[INDIRECT]]
      requires Truncating(sb, blocks0, owner, blocks, j, NDIRECT, 0, false)
      modifies this`blocks
      ensures ok && Truncating(sb, blocks0, owner, blocks, j, NDIRECT, NINDIRECT, false)
    {
      for e := 0 to NINDIRECT
        invariant Truncating(sb, blocks0, owner, blocks, j, NDIRECT, e, false)
      {
        FreeSlot(sb, blocks0, inodes0, owner, blocks, j, INDIRECT + 1 + e, NDIRECT, e, false, NDIRECT, e + 1, false);
        if GetWord(ind, e) != 0 {
          ok := Bfree(GetWord(ind, e));
          if !ok { return; }
        }
      }
      return true;
    }

    /** itrunc's second half: the entries, then the indirect block itself. */
    method FreeIndirect(j: nat, ghost blocks0: seq<Block>, ghost inodes0: seq<Dinode>) returns (ok: bool)
      requires OwnInv(sb, blocks0, inodes0, owner) && j < |inodes0| == |inodes| && inodes[j].Valid()
      requires inodes[j].addrs[INDIRECT] == inodes0[j].addrs[INDIRECT]
      requires Truncating(sb, blocks0, owner, blocks, j, NDIRECT, 0, false)
      modifies this`blocks, this`inodes
      ensures ok && Truncating(sb, blocks0, owner, blocks, j, NDIRECT, NINDIRECT, true)
      ensures inodes == old(inodes)[j := WithAddr(old(inodes)[j], INDIRECT, 0)]
    {
      var addr := inodes[j].addrs[INDIRECT];
      if addr == 0 {
        NoIndirect(sb, blocks0, inodes0, owner, blocks, j);
        assert inodes[j].addrs[INDIRECT := 0] == inodes[j].addrs;
        return true;
      }
      assert SlotAddr(blocks0, inodes0[j], INDIRECT) == addr;
      ok := FreeEntries(j, blocks[addr], blocks0, inodes0);
      FreeSlot(sb, blocks0, inodes0, owner, blocks, j, INDIRECT, NDIRECT, NINDIRECT, false, NDIRECT, NINDIRECT, true);
      ok := Bfree(addr);
      inodes := inodes[j := inodes[j].(addrs := inodes[j].addrs[INDIRECT := 0])];
    }

    /** itrunc frees exactly the blocks of inode `j`, each once, and never hits the "freeing free block" panic. */
    method Itrunc(j: nat) returns (ok: bool)
      requires Consistent(sb, blocks, inodes, owner) && j < |inodes|
      modifies this`blocks, this`inodes, this`owner
      ensures ok && Consistent(sb, blocks, inodes, owner)
      ensures inodes == old(inodes)[j := Emptied(old(inodes)[j])] && owner == WithoutOwner(old(owner), j)
      ensures forall i :: 0 <= i < |inodes| && i != j ==>
                FileBytes(blocks, inodes[i]) == FileBytes(old(blocks), old(inodes)[i])
    {
      ok := FreeDirect(j);
      ok := FreeIndirect(j, old(blocks), old(inodes));
      inodes := inodes[j := inodes[j].(size := 0)];
      assert inodes[j].addrs == NoAddrs;
      FinishTrunc(j, old(blocks), old(inodes));
    }

    /** itrunc's closing iupdate. */
    method FinishTrunc(j: nat, ghost blocks0: seq<Block>, ghost inodes0: seq<Dinode>)
      requires Consistent(sb, blocks0, inodes0, owner) && j < |inodes0| && inodes == inodes0[j := Emptied(inodes0[j])]
      requires Truncating(sb, blocks0, owner, blocks, j, NDIRECT, NINDIRECT, true)
      modifies this`blocks, this`owner
      ensures Consistent(sb, blocks, inodes, owner) && owner == WithoutOwner(old(owner), j)
      ensures forall i :: 0 <= i < |inodes| && i != j ==> FileBytes(blocks, inodes[i]) == FileBytes(blocks0, inodes0[i])
    {
      TruncatedConsistent(sb, blocks0, inodes0, owner, blocks, j);
      Iupdate(j);
      owner := WithoutOwner(owner, j);
    }
  }
}
