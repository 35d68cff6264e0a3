/**
 * What the steps of bmap, writei and iupdate do to the bytes of every file, to ownership and to the
 * mapped part of a file, as lemmas about block contents and inodes.
 */
module FileWrites {
  import opened Blocks
  import opened FsFormat
  import opened BlockMap

  /** Every file has the same bytes in both states. */
  ghost predicate SameBytes(blocks: seq<Block>, inodes: seq<Dinode>, blocks': seq<Block>, inodes': seq<Dinode>)
    requires |inodes'| == |inodes| && forall j :: 0 <= j < |inodes| ==> inodes[j].Valid() && inodes'[j].Valid()
  {
    forall j, i {:trigger ByteAt(blocks', inodes'[j], i)} :: 0 <= j < |inodes| && 0 <= i < MAXBLOCKS * BSIZE ==>
      ByteAt(blocks', inodes'[j], i) == ByteAt(blocks, inodes[j], i)
  }

  /** Inodes other than `j` are the same and map the same blocks. */
  ghost predicate OthersSame(blocks: seq<Block>, inodes: seq<Dinode>, blocks': seq<Block>, inodes': seq<Dinode>, j: nat)
    requires |inodes'| == |inodes| && forall j :: 0 <= j < |inodes| ==> inodes[j].Valid() && inodes'[j].Valid()
  {
    && (forall i :: 0 <= i < |inodes| && i != j ==> inodes'[i] == inodes[i])
    && (forall i, k {:trigger SlotAddr(blocks', inodes'[i], k)} :: 0 <= i < |inodes| && i != j && 0 <= k < NSLOTS ==>
          SlotAddr(blocks', inodes'[i], k) == SlotAddr(blocks, inodes[i], k))
  }

  /** Nothing below the bitmap changed: boot block, superblock, log and inode blocks. */
  ghost predicate SameMeta(sb: Super, blocks: seq<Block>, blocks': seq<Block>) {
    |blocks'| == |blocks| && forall c :: 0 <= c < sb.bmapstart && c < |blocks| ==> blocks'[c] == blocks[c]
  }

  lemma SameMetaSameInodes(sb: Super, blocks: seq<Block>, blocks': seq<Block>)
    requires sb.Valid() && |blocks| == sb.size && SameMeta(sb, blocks, blocks')
    ensures forall i :: 0 <= i < sb.ninodes ==> DiskInode(sb, blocks', i) == DiskInode(sb, blocks, i)
  {
  }

  /** The whole effect of giving slot `k` of inode `j` the free block `b` by way of balloc. */
  lemma AllocPointerEffect(sb: Super, blocks: seq<Block>, inodes: seq<Dinode>, owner: Owners, j: nat, k: nat, b: nat)
    requires OwnInv(sb, blocks, inodes, owner) && j < |inodes| && k <= INDIRECT && inodes[j].addrs[k] == 0
    requires b < sb.size && !Marked(sb, blocks, b)
    ensures var blocks', d' := Allocated(sb, blocks, b), WithAddr(inodes[j], k, b);
            && OwnInv(sb, blocks', inodes[j := d'], owner[b := (j, k)])
            && OneSlotAdded(blocks, inodes[j], blocks', d', k, b)
            && SameMeta(sb, blocks, blocks')
  {
    FreeIsUnowned(sb, blocks, inodes, owner, b);
    AllocatedAt(sb, blocks, b);
    var blocks' := Allocated(sb, blocks, b);
    forall i | 0 <= i < |inodes| && 0 < inodes[i].addrs[INDIRECT] < |blocks|
      ensures blocks'[inodes[i].addrs[INDIRECT]] == blocks[inodes[i].addrs[INDIRECT]]
    {
      assert SlotAddr(blocks, inodes[i], INDIRECT) == inodes[i].addrs[INDIRECT];
    }
    PointerAdded(blocks, inodes[j], blocks', k, b);
    AddSlotKeepsOwn(sb, blocks, inodes, owner, blocks', j, WithAddr(inodes[j], k, b), k, b);
  }

  lemma AllocPointerBytes(sb: Super, blocks: seq<Block>, inodes: seq<Dinode>, owner: Owners, j: nat, k: nat, b: nat)
    requires OwnInv(sb, blocks, inodes, owner) && j < |inodes| && k <= INDIRECT && inodes[j].addrs[k] == 0
    requires b < sb.size && !Marked(sb, blocks, b)
    ensures SameBytes(blocks, inodes, Allocated(sb, blocks, b), inodes[j := WithAddr(inodes[j], k, b)])
    ensures OthersSame(blocks, inodes, Allocated(sb, blocks, b), inodes[j := WithAddr(inodes[j], k, b)], j)
  {
    AllocPointerEffect(sb, blocks, inodes, owner, j, k, b);
    FreeIsUnowned(sb, blocks, inodes, owner, b);
    AllocatedAt(sb, blocks, b);
    var blocks' := Allocated(sb, blocks, b);
    forall i | 0 <= i < |inodes|
      ensures i != j ==> forall x :: 0 <= x < MAXBLOCKS * BSIZE ==>
                ByteAt(blocks', inodes[i], x) == ByteAt(blocks, inodes[i], x)
      ensures i != j ==> forall m :: 0 <= m < NSLOTS ==>
                SlotAddr(blocks', inodes[i], m) == SlotAddr(blocks, inodes[i], m)
    {
      if i != j { SameBlocksSameFile(blocks, blocks', inodes[i]); }
    }
    AddSlotKeepsBytes(blocks, inodes[j], blocks', WithAddr(inodes[j], k, b), k, b);
  }

  /** The same for an entry of the indirect block. */
  function EntryAllocated(sb: Super, blocks: seq<Block>, d: Dinode, e: nat, b: nat): (r: seq<Block>)
    requires sb.Valid() && |blocks| == sb.size && b < sb.size && d.Valid() && d.addrs[INDIRECT] < |blocks| &&
             e < NINDIRECT
    ensures |r| == |blocks|
  {
    Allocated(sb, blocks, b)[d.addrs[INDIRECT] := SetWord(blocks[d.addrs[INDIRECT]], e, b)]
  }

  ghost predicate EntryFree(sb: Super, blocks: seq<Block>, inodes: seq<Dinode>, owner: Owners, j: nat, e: nat, b: nat) {
    && OwnInv(sb, blocks, inodes, owner) && j < |inodes| && e < NINDIRECT
    && 0 < inodes[j].addrs[INDIRECT] < |blocks|
    && GetWord(blocks[inodes[j].addrs[INDIRECT]], e) == 0
    && b < sb.size && !Marked(sb, blocks, b)
  }

  lemma EntryAllocatedAt(sb: Super, blocks: seq<Block>, inodes: seq<Dinode>, owner: Owners, j: nat, e: nat, b: nat)
    requires EntryFree(sb, blocks, inodes, owner, j, e, b)
    ensures var blocks', ind := EntryAllocated(sb, blocks, inodes[j], e, b), inodes[j].addrs[INDIRECT];
            && SameOutsideBitmap(sb, blocks, blocks', {b, ind}) && blocks'[b] == ZeroBlock() && b != ind
            && blocks'[ind] == SetWord(blocks[ind], e, b)
            && ind in owner && owner[ind] == (j, INDIRECT)
            && MarksAre(sb, blocks', owner.Keys + {b})
  {
    FreeIsUnowned(sb, blocks, inodes, owner, b);
    AllocatedAt(sb, blocks, b);
    var ind := inodes[j].addrs[INDIRECT];
    assert SlotAddr(blocks, inodes[j], INDIRECT) == ind;
    forall c | 0 <= c < sb.size
      ensures Marked(sb, EntryAllocated(sb, blocks, inodes[j], e, b), c) <==> Marked(sb, Allocated(sb, blocks, b), c)
    {
      assert sb.BitmapBlock(c) < sb.datastart;
    }
  }

  lemma AllocEntryEffect(sb: Super, blocks: seq<Block>, inodes: seq<Dinode>, owner: Owners, j: nat, e: nat, b: nat)
    requires EntryFree(sb, blocks, inodes, owner, j, e, b)
    ensures var blocks' := EntryAllocated(sb, blocks, inodes[j], e, b);
            && OwnInv(sb, blocks', inodes, owner[b := (j, INDIRECT + 1 + e)])
            && OneSlotAdded(blocks, inodes[j], blocks', inodes[j], INDIRECT + 1 + e, b)
            && SameMeta(sb, blocks, blocks')
  {
    hide MarksAre, EntryAllocated;
    EntryAllocatedAt(sb, blocks, inodes, owner, j, e, b);
    FreeIsUnowned(sb, blocks, inodes, owner, b);
    var blocks' := EntryAllocated(sb, blocks, inodes[j], e, b);
    EntryAdded(blocks, inodes[j], blocks', e, b);
    forall i | 0 <= i < |inodes| && i != j && inodes[i].addrs[INDIRECT] in owner
      ensures blocks'[inodes[i].addrs[INDIRECT]] == blocks[inodes[i].addrs[INDIRECT]]
    {
      assert SlotAddr(blocks, inodes[i], INDIRECT) == inodes[i].addrs[INDIRECT];
    }
    AddSlotKeepsOwn(sb, blocks, inodes, owner, blocks', j, inodes[j], INDIRECT + 1 + e, b);
    assert inodes[j := inodes[j]] == inodes;
  }

  lemma AllocEntryBytes(sb: Super, blocks: seq<Block>, inodes: seq<Dinode>, owner: Owners, j: nat, e: nat, b: nat)
    requires EntryFree(sb, blocks, inodes, owner, j, e, b)
    ensures SameBytes(blocks, inodes, EntryAllocated(sb, blocks, inodes[j], e, b), inodes)
    ensures OthersSame(blocks, inodes, EntryAllocated(sb, blocks, inodes[j], e, b), inodes, j)
  {
    AllocEntryEffect(sb, blocks, inodes, owner, j, e, b);
    EntryAllocatedAt(sb, blocks, inodes, owner, j, e, b);
    FreeIsUnowned(sb, blocks, inodes, owner, b);
    var blocks' := EntryAllocated(sb, blocks, inodes[j], e, b);
    forall i | 0 <= i < |inodes|
      ensures i != j ==> forall x :: 0 <= x < MAXBLOCKS * BSIZE ==>
                ByteAt(blocks', inodes[i], x) == ByteAt(blocks, inodes[i], x)
      ensures i != j ==> forall m :: 0 <= m < NSLOTS ==>
                SlotAddr(blocks', inodes[i], m) == SlotAddr(blocks, inodes[i], m)
    {
      if i != j { SameBlocksSameFile(blocks, blocks', inodes[i]); }
    }
    AddSlotKeepsBytes(blocks, inodes[j], blocks', inodes[j], INDIRECT + 1 + e, b);
  }

  /** What bmap may change besides the slot it is asked for: nothing but a new indirect block. */
  ghost predicate Mapped(sb: Super, blocks: seq<Block>, inodes: seq<Dinode>, blocks': seq<Block>, inodes': seq<Dinode>,
                         j: nat, bn: nat)
    requires |inodes'| == |inodes| && j < |inodes| &&
             forall j :: 0 <= j < |inodes| ==> inodes[j].Valid() && inodes'[j].Valid()
    requires bn < MAXBLOCKS
  {
    && SameBytes(blocks, inodes, blocks', inodes') && SameMeta(sb, blocks, blocks')
    && OthersSame(blocks, inodes, blocks', inodes', j)
    && inodes'[j] == inodes[j].(addrs := inodes'[j].addrs)
    && (forall k :: 0 <= k < NSLOTS && k != FileSlot(bn) && (k != INDIRECT || bn < NDIRECT) ==>
          SlotAddr(blocks', inodes'[j], k) == SlotAddr(blocks, inodes[j], k))
    && (bn >= NDIRECT ==> SlotAddr(blocks', inodes'[j], INDIRECT) != 0)
    && SlotAddr(blocks', inodes'[j], FileSlot(bn)) != 0
  }

  /** A change that fills at most slot k of inode j. */
  ghost predicate FillsSlot(sb: Super, blocks: seq<Block>, inodes: seq<Dinode>, blocks': seq<Block>,
                            inodes': seq<Dinode>, j: nat, k: nat) {
    && |inodes'| == |inodes| && j < |inodes| && AllValid(inodes) && AllValid(inodes') && k < NSLOTS
    && SameBytes(blocks, inodes, blocks', inodes') && SameMeta(sb, blocks, blocks')
    && OthersSame(blocks, inodes, blocks', inodes', j)
    && inodes'[j] == inodes[j].(addrs := inodes'[j].addrs)
    && (forall m :: 0 <= m < NSLOTS && m != k ==> SlotAddr(blocks', inodes'[j], m) == SlotAddr(blocks, inodes[j], m))
  }

  lemma FillsNone(sb: Super, blocks: seq<Block>, inodes: seq<Dinode>, j: nat, k: nat)
    requires j < |inodes| && AllValid(inodes) && k < NSLOTS
    ensures FillsSlot(sb, blocks, inodes, blocks, inodes, j, k)
  {
  }

  /** A new indirect block, or none, and then an entry in it, or none. */
  lemma FillsBoth(sb: Super, b0: seq<Block>, i0: seq<Dinode>, b1: seq<Block>, i1: seq<Dinode>, b2: seq<Block>,
                  i2: seq<Dinode>, j: nat, e: nat)
    requires e < NINDIRECT && FillsSlot(sb, b0, i0, b1, i1, j, INDIRECT) &&
             FillsSlot(sb, b1, i1, b2, i2, j, INDIRECT + 1 + e)
    requires SlotAddr(b2, i2[j], INDIRECT) != 0 && SlotAddr(b2, i2[j], INDIRECT + 1 + e) != 0
    ensures Mapped(sb, b0, i0, b2, i2, j, NDIRECT + e)
  {
    hide SlotAddr, ByteAt;
    assert SameBytes(b0, i0, b2, i2) by {
      forall i, o | 0 <= i < |i0| && 0 <= o < MAXBLOCKS * BSIZE
        ensures ByteAt(b2, i2[i], o) == ByteAt(b0, i0[i], o)
      {
        assert ByteAt(b1, i1[i], o) == ByteAt(b0, i0[i], o);
      }
    }
    assert OthersSame(b0, i0, b2, i2, j) by {
      forall i, k | 0 <= i < |i0| && i != j && 0 <= k < NSLOTS
        ensures SlotAddr(b2, i2[i], k) == SlotAddr(b0, i0[i], k)
      {
        assert SlotAddr(b1, i1[i], k) == SlotAddr(b0, i0[i], k);
      }
    }
  }

  /** bmap on success: block `bn` is mapped and owned, nothing at all changed if it was mapped before. */
  ghost predicate MapStep(sb: Super, blocks: seq<Block>, inodes: seq<Dinode>, blocks': seq<Block>, inodes': seq<Dinode>,
                          owner': Owners, j: nat, bn: nat)
    requires |inodes'| == |inodes| && j < |inodes| && AllValid(inodes) && AllValid(inodes')
  {
    && MappedAt(sb, blocks', inodes', owner', j, bn)
    && Mapped(sb, blocks, inodes, blocks', inodes', j, bn)
    && (SlotAddr(blocks, inodes[j], FileSlot(bn)) != 0 ==> blocks' == blocks && inodes' == inodes)
  }

  // ---- How many blocks it takes ----

  /** The blocks a file of n bytes occupies, the indirect block included. */
  function BlocksFor(n: nat): nat {
    var data := (n + BSIZE - 1) / BSIZE;
    if data > NDIRECT then data + 1 else data
  }

  /** The blocks bmap has to allocate for file block bn. */
  function Missing(blocks: seq<Block>, d: Dinode, bn: nat): nat
    requires d.Valid() && bn < MAXBLOCKS
  {
    (if SlotAddr(blocks, d, FileSlot(bn)) == 0 then 1 else 0) +
    (if bn >= NDIRECT && SlotAddr(blocks, d, INDIRECT) == 0 then 1 else 0)
  }

  /** With n0 blocks in use, `need` more are taken exactly when there are as many; n are in use then. */
  ghost predicate Takes(sb: Super, n0: nat, n: nat, need: nat, ok: bool) {
    (ok <==> n0 + need <= DataBlocks(sb)) && (ok ==> n == n0 + need)
  }

  /** The blocks a file of `size` bytes has to be given to reach byte `end`. */
  function Growth(size: nat, end: nat): int {
    BlocksFor(Max(size, end)) - BlocksFor(size)
  }

  lemma NoGrowth(size: nat, end: nat)
    requires end <= size
    ensures Growth(size, end) == 0
  {
  }

  lemma MoreBlocks(m: nat, n: nat)
    requires m <= n
    ensures BlocksFor(m) <= BlocksFor(n)
  {
  }

  /** One iteration of writei at byte `at` of a file of `size` bytes: what bmap allocates is what the file grows by. */
  lemma MissingIsGrowth(blocks: seq<Block>, d: Dinode, size: nat, at: nat, m: nat)
    requires d.Valid() && MappedBelow(blocks, d, Max(size, at)) && at / BSIZE < MAXBLOCKS
    requires 0 < m <= BSIZE - at % BSIZE
    ensures BlocksFor(Max(size, at + m)) == BlocksFor(Max(size, at)) + Missing(blocks, d, at / BSIZE)
  {
    var bn := at / BSIZE;
    assert SlotAddr(blocks, d, FileSlot(bn)) != 0 <==> SlotStart(FileSlot(bn)) < Max(size, at);
    assert SlotAddr(blocks, d, INDIRECT) != 0 <==> SlotStart(INDIRECT) < Max(size, at);
    assert SlotStart(FileSlot(bn)) == bn * BSIZE;
    hide SlotAddr, MappedBelow;
    GrowsBy(size, at, m);
  }

  lemma GrowsBy(size: nat, at: nat, m: nat)
    requires 0 < m <= BSIZE - at % BSIZE
    ensures var bn, limit := at / BSIZE, Max(size, at);
            BlocksFor(Max(size, at + m)) == BlocksFor(limit) + (if bn * BSIZE < limit then 0 else 1) +
                                            (if bn >= NDIRECT && INDIRECT * BSIZE >= limit then 1 else 0)
  {
  }

  // ---- Writing into a mapped block ----

  /** memmove of `data` into block `b` at `lo`. */
  function Splice(b: Block, lo: nat, data: seq<byte>): (r: Block)
    requires lo + |data| <= BSIZE
  {
    b[..lo] + data + b[lo + |data|..]
  }

  ghost predicate MappedAt(sb: Super, blocks: seq<Block>, inodes: seq<Dinode>, owner: Owners, j: nat, bn: nat) {
    && OwnInv(sb, blocks, inodes, owner) && j < |inodes| && bn < MAXBLOCKS
    && SlotAddr(blocks, inodes[j], FileSlot(bn)) != 0
  }

  /** The disk after writing `data` at byte `lo` of file block `bn` of inode `j`. */
  function DataWritten(blocks: seq<Block>, d: Dinode, bn: nat, lo: nat, data: seq<byte>): (r: seq<Block>)
    requires d.Valid() && bn < MAXBLOCKS && SlotAddr(blocks, d, FileSlot(bn)) < |blocks| && lo + |data| <= BSIZE
    ensures |r| == |blocks|
  {
    var a := SlotAddr(blocks, d, FileSlot(bn));
    blocks[a := Splice(blocks[a], lo, data)]
  }

  lemma MappedIsData(sb: Super, blocks: seq<Block>, inodes: seq<Dinode>, owner: Owners, j: nat, bn: nat)
    requires MappedAt(sb, blocks, inodes, owner, j, bn)
    ensures var a := SlotAddr(blocks, inodes[j], FileSlot(bn));
            && sb.datastart <= a < sb.size && a in owner && owner[a] == (j, FileSlot(bn))
            && forall i :: 0 <= i < |inodes| ==> inodes[i].addrs[INDIRECT] != a
  {
    var a := SlotAddr(blocks, inodes[j], FileSlot(bn));
    forall i | 0 <= i < |inodes|
      ensures inodes[i].addrs[INDIRECT] != a
    {
      assert SlotAddr(blocks, inodes[i], INDIRECT) == inodes[i].addrs[INDIRECT];
    }
  }

  /** A data write moves no pointer and keeps ownership. */
  lemma DataWriteKeepsOwn(sb: Super, blocks: seq<Block>, inodes: seq<Dinode>, owner: Owners, j: nat, bn: nat, lo: nat,
                          data: seq<byte>)
    requires MappedAt(sb, blocks, inodes, owner, j, bn) && lo + |data| <= BSIZE
    ensures SlotAddr(blocks, inodes[j], FileSlot(bn)) < |blocks|
    ensures var blocks' := DataWritten(blocks, inodes[j], bn, lo, data);
            && OwnInv(sb, blocks', inodes, owner) && SameMeta(sb, blocks, blocks')
            && forall i, k {:trigger SlotAddr(blocks', inodes[i], k)} :: 0 <= i < |inodes| && 0 <= k < NSLOTS ==>
                 SlotAddr(blocks', inodes[i], k) == SlotAddr(blocks, inodes[i], k)
  {
    MappedIsData(sb, blocks, inodes, owner, j, bn);
    var blocks' := DataWritten(blocks, inodes[j], bn, lo, data);
    forall i | 0 <= i < |inodes|
      ensures forall k :: 0 <= k < NSLOTS ==> SlotAddr(blocks', inodes[i], k) == SlotAddr(blocks, inodes[i], k)
    {
      SlotFrame(blocks, blocks', inodes[i]);
    }
    forall c | 0 <= c < sb.size
      ensures Marked(sb, blocks', c) <==> Marked(sb, blocks, c)
    {
      assert sb.BitmapBlock(c) < sb.datastart;
    }
  }

  /** A data write changes exactly the bytes it covers, of exactly one file. */
  lemma DataWriteBytes(sb: Super, blocks: seq<Block>, inodes: seq<Dinode>, owner: Owners, j: nat, bn: nat, lo: nat,
                       data: seq<byte>, i: nat, x: nat)
    requires MappedAt(sb, blocks, inodes, owner, j, bn) && lo + |data| <= BSIZE
    requires i < |inodes| && x < MAXBLOCKS * BSIZE
    ensures SlotAddr(blocks, inodes[j], FileSlot(bn)) < |blocks|
    ensures ByteAt(DataWritten(blocks, inodes[j], bn, lo, data), inodes[i], x) ==
            if i == j && bn * BSIZE + lo <= x < bn * BSIZE + lo + |data| then data[x - bn * BSIZE - lo]
            else ByteAt(blocks, inodes[i], x)
  {
    MappedIsData(sb, blocks, inodes, owner, j, bn);
    var blocks' := DataWritten(blocks, inodes[j], bn, lo, data);
    SlotFrame(blocks, blocks', inodes[i]);
    var k := FileSlot(x / BSIZE);
    assert SlotAddr(blocks', inodes[i], k) == SlotAddr(blocks, inodes[i], k);
  }

  // ---- The loop of writei ----

  /** min(n - tot, BSIZE - off % BSIZE): how much of `left` bytes goes into the block at `at`. */
  function Chunk(left: nat, at: nat): (m: nat)
    requires left > 0
    ensures 0 < m <= left && m <= BSIZE - at % BSIZE
    ensures at / BSIZE < MAXBLOCKS ==> at + m <= MAXBLOCKS * BSIZE
    ensures m == left || (at + m) % BSIZE == 0
  {
    if left < BSIZE - at % BSIZE then left else BSIZE - at % BSIZE
  }

  /** `blocks` and `inodes` are the start state with `src[..tot]` written into file `j` at `off`. */
  ghost predicate BytesWritten(blocks0: seq<Block>, inodes0: seq<Dinode>, blocks: seq<Block>, inodes: seq<Dinode>,
                               j: nat, off: nat, src: seq<byte>, tot: nat)
    requires |inodes| == |inodes0| && tot <= |src|
    requires forall i :: 0 <= i < |inodes| ==> inodes[i].Valid() && inodes0[i].Valid()
  {
    forall i, x {:trigger ByteAt(blocks, inodes[i], x)} :: 0 <= i < |inodes| && 0 <= x < MAXBLOCKS * BSIZE ==>
      ByteAt(blocks, inodes[i], x) ==
      if i == j && off <= x < off + tot then src[x - off] else ByteAt(blocks0, inodes0[i], x)
  }

  function Max(a: nat, b: nat): nat {
    if a < b then b else a
  }

  /** Mapping the block at `off` extends the mapped part of the file to cover the next `m` bytes. */
  lemma MappedExtends(sb: Super, blocks: seq<Block>, inodes: seq<Dinode>, blocks': seq<Block>, inodes': seq<Dinode>,
                      j: nat, off: nat, m: nat, limit: nat)
    requires |inodes'| == |inodes| && j < |inodes| &&
             forall i :: 0 <= i < |inodes| ==> inodes[i].Valid() && inodes'[i].Valid()
    requires off / BSIZE < MAXBLOCKS && Mapped(sb, blocks, inodes, blocks', inodes', j, off / BSIZE)
    requires off <= limit && 0 < m <= BSIZE - off % BSIZE && MappedBelow(blocks, inodes[j], limit)
    requires SlotAddr(blocks, inodes[j], FileSlot(off / BSIZE)) != 0 ==> blocks' == blocks && inodes' == inodes
    ensures MappedBelow(blocks', inodes'[j], Max(limit, off + m))
  {
    var bn := off / BSIZE;
    assert SlotStart(FileSlot(bn)) == bn * BSIZE;
    forall k | 0 <= k < NSLOTS
      ensures SlotAddr(blocks', inodes'[j], k) != 0 <==> SlotStart(k) < Max(limit, off + m)
    {
      if k != FileSlot(bn) && (k != INDIRECT || bn < NDIRECT) {
        assert SlotAddr(blocks', inodes'[j], k) == SlotAddr(blocks, inodes[j], k);
      }
    }
  }

  /** writei after `tot` bytes. */
  ghost predicate Progress(sb: Super, blocks0: seq<Block>, inodes0: seq<Dinode>, blocks: seq<Block>,
                           inodes: seq<Dinode>,
                           j: nat, off: nat, src: seq<byte>, tot: nat)
    requires |inodes| == |inodes0| && j < |inodes| && tot <= |src|
    requires forall i :: 0 <= i < |inodes| ==> inodes[i].Valid() && inodes0[i].Valid()
  {
    && BytesWritten(blocks0, inodes0, blocks, inodes, j, off, src, tot)
    && OthersSame(blocks0, inodes0, blocks, inodes, j) && SameMeta(sb, blocks0, blocks)
    && inodes[j] == inodes0[j].(addrs := inodes[j].addrs)
    && MappedBelow(blocks, inodes[j], Max(inodes0[j].size, off + tot))
    && (off + tot <= inodes0[j].size ==> inodes == inodes0)
  }

  lemma ProgressNone(sb: Super, blocks: seq<Block>, inodes: seq<Dinode>, j: nat, off: nat, src: seq<byte>)
    requires j < |inodes| && AllValid(inodes) && off <= inodes[j].size && MappedBelow(blocks, inodes[j], inodes[j].size)
    ensures Progress(sb, blocks, inodes, blocks, inodes, j, off, src, 0)
  {
  }

  lemma ProgressMaps(sb: Super, blocks0: seq<Block>, inodes0: seq<Dinode>, blocks: seq<Block>, inodes: seq<Dinode>,
                     j: nat, off: nat, src: seq<byte>, tot: nat)
    requires |inodes| == |inodes0| && j < |inodes| && tot <= |src| && AllValid(inodes) && AllValid(inodes0)
    requires Progress(sb, blocks0, inodes0, blocks, inodes, j, off, src, tot)
    ensures MappedBelow(blocks, inodes[j], Max(inodes0[j].size, off + tot))
  {
  }

  /** The blocks one iteration of writei takes of those the whole call of n bytes takes. */
  lemma CopyCounts(blocks: seq<Block>, d: Dinode, size: nat, off: nat, n: nat, tot: nat)
    requires d.Valid() && tot < n && MappedBelow(blocks, d, Max(size, off + tot))
    ensures var m := Chunk(n - tot, off + tot);
            && Growth(size, off + tot + m) <= Growth(size, off + n)
            && (off + tot < MAXBLOCKS * BSIZE ==>
                  Growth(size, off + tot + m) == Growth(size, off + tot) + Missing(blocks, d, (off + tot) / BSIZE))
  {
    hide BlocksFor, Missing, MappedBelow;
    var m := Chunk(n - tot, off + tot);
    hide Chunk;
    MoreBlocks(Max(size, off + tot + m), Max(size, off + n));
    if off + tot < MAXBLOCKS * BSIZE {
      MissingIsGrowth(blocks, d, size, off + tot, m);
    }
  }

  ghost predicate AllValid(inodes: seq<Dinode>) {
    forall i :: 0 <= i < |inodes| ==> inodes[i].Valid()
  }

  /** One iteration of writei on the block maps: bmap (from state 1 to 2), then a copy that moves no pointer. */
  lemma StepMaps(sb: Super, blocks0: seq<Block>, inodes0: seq<Dinode>, blocks1: seq<Block>, inodes1: seq<Dinode>,
                 blocks2: seq<Block>, inodes2: seq<Dinode>, blocks3: seq<Block>, j: nat, off: nat, tot: nat, m: nat)
    requires |inodes0| == |inodes1| == |inodes2| && j < |inodes0| && AllValid(inodes0) && AllValid(inodes1) &&
             AllValid(inodes2)
    requires (off + tot) / BSIZE < MAXBLOCKS && 0 < m <= BSIZE - (off + tot) % BSIZE
    requires MappedBelow(blocks1, inodes1[j], Max(inodes0[j].size, off + tot))
    requires OthersSame(blocks0, inodes0, blocks1, inodes1, j)
    requires off + tot <= inodes0[j].size ==> inodes1 == inodes0
    requires Mapped(sb, blocks1, inodes1, blocks2, inodes2, j, (off + tot) / BSIZE)
    requires SlotAddr(blocks1, inodes1[j], FileSlot((off + tot) / BSIZE)) != 0 ==>
               blocks2 == blocks1 && inodes2 == inodes1
    requires forall i, k {:trigger SlotAddr(blocks3, inodes2[i], k)} :: 0 <= i < |inodes2| && 0 <= k < NSLOTS ==>
               SlotAddr(blocks3, inodes2[i], k) == SlotAddr(blocks2, inodes2[i], k)
    ensures MappedBelow(blocks3, inodes2[j], Max(inodes0[j].size, off + tot + m))
    ensures OthersSame(blocks0, inodes0, blocks3, inodes2, j)
    ensures off + tot + m <= inodes0[j].size ==> inodes2 == inodes0
  {
    var at := off + tot;
    MappedExtends(sb, blocks1, inodes1, blocks2, inodes2, j, at, m, Max(inodes0[j].size, at));
    if at + m <= inodes0[j].size {
      assert SlotStart(FileSlot(at / BSIZE)) < Max(inodes0[j].size, at);
    }
  }

  /** One iteration of writei: bmap (from state 1 to 2), then the copy of `m` bytes. */
  lemma ProgressStep(sb: Super, blocks0: seq<Block>, inodes0: seq<Dinode>, blocks1: seq<Block>, inodes1: seq<Dinode>,
                     blocks2: seq<Block>, inodes2: seq<Dinode>, owner: Owners, j: nat, off: nat, src: seq<byte>,
                       tot: nat, m: nat)
    requires |inodes0| == |inodes1| == |inodes2| && j < |inodes0| && AllValid(inodes0) && AllValid(inodes1) &&
             AllValid(inodes2)
    requires tot + m <= |src| && (off + tot) / BSIZE < MAXBLOCKS && 0 < m <= BSIZE - (off + tot) % BSIZE
    requires Progress(sb, blocks0, inodes0, blocks1, inodes1, j, off, src, tot)
    requires MapStep(sb, blocks1, inodes1, blocks2, inodes2, owner, j, (off + tot) / BSIZE)
    ensures SlotAddr(blocks2, inodes2[j], FileSlot((off + tot) / BSIZE)) < |blocks2|
    ensures var blocks3 :=
              DataWritten(blocks2, inodes2[j], (off + tot) / BSIZE, (off + tot) % BSIZE, src[tot..tot + m]);
            OwnInv(sb, blocks3, inodes2, owner) &&
              Progress(sb, blocks0, inodes0, blocks3, inodes2, j, off, src, tot + m)
  {
    var bn, lo, data := (off + tot) / BSIZE, (off + tot) % BSIZE, src[tot..tot + m];
    DataWriteKeepsOwn(sb, blocks2, inodes2, owner, j, bn, lo, data);
    var blocks3 := DataWritten(blocks2, inodes2[j], bn, lo, data);
    StepMaps(sb, blocks0, inodes0, blocks1, inodes1, blocks2, inodes2, blocks3, j, off, tot, m);
    StepBytes(sb, blocks0, inodes0, blocks1, inodes1, blocks2, inodes2, owner, j, off, src, tot, m);
  }

  lemma StepBytes(sb: Super, blocks0: seq<Block>, inodes0: seq<Dinode>, blocks1: seq<Block>, inodes1: seq<Dinode>,
                  blocks2: seq<Block>, inodes2: seq<Dinode>, owner: Owners, j: nat, off: nat, src: seq<byte>, tot: nat,
                    m: nat)
    requires |inodes0| == |inodes1| == |inodes2| && j < |inodes0| && AllValid(inodes0) && AllValid(inodes1) &&
             AllValid(inodes2)
    requires tot + m <= |src| && m <= BSIZE - (off + tot) % BSIZE
    requires BytesWritten(blocks0, inodes0, blocks1, inodes1, j, off, src, tot)
    requires SameBytes(blocks1, inodes1, blocks2, inodes2)
    requires MappedAt(sb, blocks2, inodes2, owner, j, (off + tot) / BSIZE)
    ensures SlotAddr(blocks2, inodes2[j], FileSlot((off + tot) / BSIZE)) < |blocks2|
    ensures BytesWritten(blocks0, inodes0,
                         DataWritten(blocks2, inodes2[j], (off + tot) / BSIZE, (off + tot) % BSIZE, src[tot..tot + m]),
                           inodes2,
                         j, off, src, tot + m)
  {
    var bn, lo, data := (off + tot) / BSIZE, (off + tot) % BSIZE, src[tot..tot + m];
    MappedIsData(sb, blocks2, inodes2, owner, j, bn);
    forall i, x | 0 <= i < |inodes2| && 0 <= x < MAXBLOCKS * BSIZE
      ensures ByteAt(DataWritten(blocks2, inodes2[j], bn, lo, data), inodes2[i], x) ==
              if i == j && off <= x < off + tot + m then src[x - off] else ByteAt(blocks0, inodes0[i], x)
    {
      DataWriteBytes(sb, blocks2, inodes2, owner, j, bn, lo, data, i, x);
      assert ByteAt(blocks2, inodes2[i], x) == ByteAt(blocks1, inodes1[i], x);
    }
  }

  // ---- Inode blocks ----

  /** A change below the bitmap leaves ownership and every file alone. */
  lemma MetaWriteKeepsFiles(sb: Super, blocks: seq<Block>, blocks': seq<Block>, inodes: seq<Dinode>, owner: Owners)
    requires OwnInv(sb, blocks, inodes, owner) && |blocks'| == |blocks|
    requires forall c :: sb.bmapstart <= c < |blocks| ==> blocks'[c] == blocks[c]
    ensures OwnInv(sb, blocks', inodes, owner) && SameBytes(blocks, inodes, blocks', inodes)
    ensures forall i, k {:trigger SlotAddr(blocks', inodes[i], k)} :: 0 <= i < |inodes| && 0 <= k < NSLOTS ==>
              SlotAddr(blocks', inodes[i], k) == SlotAddr(blocks, inodes[i], k)
  {
    forall i | 0 <= i < |inodes|
      ensures forall k :: 0 <= k < NSLOTS ==> SlotAddr(blocks', inodes[i], k) == SlotAddr(blocks, inodes[i], k)
      ensures forall x :: 0 <= x < MAXBLOCKS * BSIZE ==> ByteAt(blocks', inodes[i], x) == ByteAt(blocks, inodes[i], x)
    {
      SameBlocksSameFile(blocks, blocks', inodes[i]);
    }
    forall c | 0 <= c < sb.size
      ensures Marked(sb, blocks', c) <==> Marked(sb, blocks, c)
    {
      assert sb.bmapstart <= sb.BitmapBlock(c) < sb.datastart;
    }
  }

  /** The size of a file is no part of its block map. */
  lemma ResizeKeepsFiles(sb: Super, blocks: seq<Block>, inodes: seq<Dinode>, owner: Owners, j: nat, size: word)
    requires OwnInv(sb, blocks, inodes, owner) && j < |inodes|
    ensures OwnInv(sb, blocks, inodes[j := inodes[j].(size := size)], owner)
    ensures forall k :: 0 <= k < NSLOTS ==>
              SlotAddr(blocks, inodes[j].(size := size), k) == SlotAddr(blocks, inodes[j], k)
    ensures forall x :: 0 <= x < MAXBLOCKS * BSIZE ==>
              ByteAt(blocks, inodes[j].(size := size), x) == ByteAt(blocks, inodes[j], x)
  {
    var inodes' := inodes[j := inodes[j].(size := size)];
    forall i, k | 0 <= i < |inodes| && 0 <= k < NSLOTS
      ensures SlotAddr(blocks, inodes'[i], k) == SlotAddr(blocks, inodes[i], k)
    {
    }
  }

  /** The in-memory inodes are what the disk holds. */
  ghost predicate WriteThrough(sb: Super, blocks: seq<Block>, inodes: seq<Dinode>)
    requires Sizes(sb, blocks, inodes)
  {
    forall i {:trigger DiskInode(sb, blocks, i)} :: 0 <= i < |inodes| ==> DiskInode(sb, blocks, i) == inodes[i]
  }

  /** Between file-system calls: ownership, no holes below any file's size, write-through. */
  ghost predicate Consistent(sb: Super, blocks: seq<Block>, inodes: seq<Dinode>, owner: Owners) {
    && OwnInv(sb, blocks, inodes, owner)
    && (forall i :: 0 <= i < |inodes| ==>
          inodes[i].size <= MAXBLOCKS * BSIZE && MappedBelow(blocks, inodes[i], inodes[i].size))
    && WriteThrough(sb, blocks, inodes)
  }

  // ---- What writei achieves ----

  /** `file` with `src` written over it from `off`, growing it if need be. */
  function Overwritten(file: seq<byte>, off: nat, src: seq<byte>): seq<byte>
    requires off <= |file|
  {
    file[..off] + src + if off + |src| < |file| then file[off + |src|..] else []
  }

  lemma WrittenFile(blocks0: seq<Block>, inodes0: seq<Dinode>, blocks: seq<Block>, inodes: seq<Dinode>, j: nat,
                    off: nat, src: seq<byte>)
    requires |inodes| == |inodes0| && j < |inodes| && AllValid(inodes0) && AllValid(inodes)
    requires off <= inodes0[j].size <= MAXBLOCKS * BSIZE && off + |src| <= MAXBLOCKS * BSIZE
    requires BytesWritten(blocks0, inodes0, blocks, inodes, j, off, src, |src|)
    requires inodes[j].size == Max(inodes0[j].size, off + |src|)
    ensures FileBytes(blocks, inodes[j]) == Overwritten(FileBytes(blocks0, inodes0[j]), off, src)
  {
    var after, before := FileBytes(blocks, inodes[j]), FileBytes(blocks0, inodes0[j]);
    forall x | 0 <= x < |after|
      ensures after[x] == Overwritten(before, off, src)[x]
    {
      assert after[x] == ByteAt(blocks, inodes[j], x);
    }
  }

  lemma OtherFile(blocks0: seq<Block>, inodes0: seq<Dinode>, blocks: seq<Block>, inodes: seq<Dinode>, j: nat, off: nat,
                  src: seq<byte>, i: nat)
    requires |inodes| == |inodes0| && j < |inodes| && i < |inodes| && i != j && AllValid(inodes0) && AllValid(inodes)
    requires BytesWritten(blocks0, inodes0, blocks, inodes, j, off, src, |src|)
    requires inodes[i] == inodes0[i] && inodes[i].size <= MAXBLOCKS * BSIZE
    ensures FileBytes(blocks, inodes[i]) == FileBytes(blocks0, inodes0[i])
  {
    forall x | 0 <= x < inodes[i].size
      ensures ByteAt(blocks, inodes[i], x) == ByteAt(blocks0, inodes0[i], x)
    {
    }
  }

  /** File `j` is overwritten at `off` with `src`; no other file changed. */
  ghost predicate FileOverwritten(blocks0: seq<Block>, inodes0: seq<Dinode>, blocks: seq<Block>, inodes: seq<Dinode>,
                                  j: nat, off: nat, src: seq<byte>)
    requires |inodes| == |inodes0| && j < |inodes| && AllValid(inodes0) && AllValid(inodes) && off <= inodes0[j].size
    requires forall i :: 0 <= i < |inodes| ==>
               inodes0[i].size <= MAXBLOCKS * BSIZE && inodes[i].size <= MAXBLOCKS * BSIZE
  {
    && FileBytes(blocks, inodes[j]) == Overwritten(FileBytes(blocks0, inodes0[j]), off, src)
    && forall i :: 0 <= i < |inodes| && i != j ==>
                     inodes[i] == inodes0[i] && FileBytes(blocks, inodes[i]) == FileBytes(blocks0, inodes0[i])
  }

  lemma WrittenFiles(blocks0: seq<Block>, inodes0: seq<Dinode>, blocks: seq<Block>, inodes: seq<Dinode>, j: nat,
                     off: nat, src: seq<byte>)
    requires |inodes| == |inodes0| && j < |inodes| && AllValid(inodes0) && AllValid(inodes)
    requires off <= inodes0[j].size && off + |src| <= MAXBLOCKS * BSIZE
    requires forall i :: 0 <= i < |inodes| ==>
               inodes0[i].size <= MAXBLOCKS * BSIZE && inodes[i].size <= MAXBLOCKS * BSIZE
    requires BytesWritten(blocks0, inodes0, blocks, inodes, j, off, src, |src|)
    requires inodes[j].size == Max(inodes0[j].size, off + |src|)
    requires forall i :: 0 <= i < |inodes| && i != j ==> inodes[i] == inodes0[i]
    ensures FileOverwritten(blocks0, inodes0, blocks, inodes, j, off, src)
  {
    WrittenFile(blocks0, inodes0, blocks, inodes, j, off, src);
    forall i | 0 <= i < |inodes| && i != j
      ensures FileBytes(blocks, inodes[i]) == FileBytes(blocks0, inodes0[i])
    {
      OtherFile(blocks0, inodes0, blocks, inodes, j, off, src, i);
    }
  }

  /** Storing the grown inode restores consistency: no other inode's disk copy moves. */
  lemma GrowAndStore(sb: Super, blocks0: seq<Block>, inodes0: seq<Dinode>, blocks: seq<Block>, inodes: seq<Dinode>,
                     owner0: Owners, owner: Owners,
                     j: nat, off: nat, src: seq<byte>)
    requires Consistent(sb, blocks0, inodes0, owner0) && OwnInv(sb, blocks, inodes, owner)
    requires j < |inodes| && off + |src| <= MAXBLOCKS * BSIZE && off + |src| > inodes0[j].size
    requires Progress(sb, blocks0, inodes0, blocks, inodes, j, off, src, |src|)
    ensures var d' := inodes[j].(size := off + |src|);
            var blocks', inodes' := StoreInode(sb, blocks, j, d'), inodes[j := d'];
            && Consistent(sb, blocks', inodes', owner)
            && BytesWritten(blocks0, inodes0, blocks', inodes', j, off, src, |src|)
  {
    var d' := inodes[j].(size := off + |src|);
    var blocks', inodes' := StoreInode(sb, blocks, j, d'), inodes[j := d'];
    ResizeKeepsFiles(sb, blocks, inodes, owner, j, off + |src|);
    MetaWriteKeepsFiles(sb, blocks, blocks', inodes', owner);
    SameMetaSameInodes(sb, blocks0, blocks);
    forall i | 0 <= i < |inodes|
      ensures DiskInode(sb, blocks', i) == inodes'[i]
    {
      StoreInodeAt(sb, blocks, j, d', i);
    }
    GrowKeepsMaps(sb, blocks0, inodes0, blocks, inodes, blocks', j, off, src);
  }

  lemma GrowKeepsMaps(sb: Super, blocks0: seq<Block>, inodes0: seq<Dinode>, blocks: seq<Block>, inodes: seq<Dinode>,
                      blocks': seq<Block>,
                      j: nat, off: nat, src: seq<byte>)
    requires |inodes| == |inodes0| && j < |inodes| && AllValid(inodes0) && AllValid(inodes)
    requires off + |src| <= MAXBLOCKS * BSIZE && off + |src| > inodes0[j].size
    requires Progress(sb, blocks0, inodes0, blocks, inodes, j, off, src, |src|)
    requires forall i :: 0 <= i < |inodes0| ==>
               inodes0[i].size <= MAXBLOCKS * BSIZE && MappedBelow(blocks0, inodes0[i], inodes0[i].size)
    requires var inodes' := inodes[j := inodes[j].(size := off + |src|)];
             forall i, k {:trigger SlotAddr(blocks', inodes'[i], k)} :: 0 <= i < |inodes| && 0 <= k < NSLOTS ==>
               SlotAddr(blocks', inodes'[i], k) == SlotAddr(blocks, inodes[i], k)
    ensures var inodes' := inodes[j := inodes[j].(size := off + |src|)];
            forall i :: 0 <= i < |inodes'| ==>
                inodes'[i].size <= MAXBLOCKS * BSIZE && MappedBelow(blocks', inodes'[i], inodes'[i].size)
  {
  }

  // ---- Reading ----

  /** Copying out of the block at `at` gives the file's bytes there. */
  lemma ReadChunk(sb: Super, blocks: seq<Block>, inodes: seq<Dinode>, owner: Owners, j: nat, at: nat, m: nat)
    requires MappedAt(sb, blocks, inodes, owner, j, at / BSIZE) && m <= BSIZE - at % BSIZE
    requires inodes[j].size <= MAXBLOCKS * BSIZE && at + m <= inodes[j].size
    ensures var a := SlotAddr(blocks, inodes[j], FileSlot(at / BSIZE));
            a < |blocks| && blocks[a][at % BSIZE..at % BSIZE + m] == FileBytes(blocks, inodes[j])[at..at + m]
  {
    MappedIsData(sb, blocks, inodes, owner, j, at / BSIZE);
    var a, lo, file := SlotAddr(blocks, inodes[j], FileSlot(at / BSIZE)), at % BSIZE, FileBytes(blocks, inodes[j]);
    var got, want := blocks[a][lo..lo + m], file[at..at + m];
    forall x | 0 <= x < m
      ensures got[x] == want[x]
    {
      assert (at + x) / BSIZE == at / BSIZE && (at + x) % BSIZE == lo + x;
      assert file[at + x] == ByteAt(blocks, inodes[j], at + x);
    }
  }

  /** Inside a consistent file the block is mapped, and the next piece of it is there to be copied. */
  lemma ReadableChunk(sb: Super, blocks: seq<Block>, inodes: seq<Dinode>, owner: Owners, j: nat, at: nat, left: nat)
    requires Consistent(sb, blocks, inodes, owner) && j < |inodes| && 0 < left && at + left <= inodes[j].size
    ensures OwnInv(sb, blocks, inodes, owner) && AllValid(inodes) && at / BSIZE < MAXBLOCKS &&
            inodes[j].size <= MAXBLOCKS * BSIZE
    ensures var a, m := SlotAddr(blocks, inodes[j], FileSlot(at / BSIZE)), Chunk(left, at);
            && 0 < a < |blocks| && 0 < m <= left && at % BSIZE + m <= BSIZE
            && blocks[a][at % BSIZE..at % BSIZE + m] == FileBytes(blocks, inodes[j])[at..at + m]
  {
    assert SlotStart(FileSlot(at / BSIZE)) < inodes[j].size;
    ReadChunk(sb, blocks, inodes, owner, j, at, Chunk(left, at));
  }

  // ---- Truncating ----

  /** The slots itrunc has freed: `i` direct ones, `e` entries, and perhaps the indirect block. */
  predicate Gone(k: nat, i: nat, e: nat, ind: bool) {
    k < i || INDIRECT < k <= INDIRECT + e || (ind && k == INDIRECT)
  }

  predicate Kept(owner: Owners, a: nat, j: nat, i: nat, e: nat, ind: bool)
    requires a in owner
  {
    owner[a].0 != j || !Gone(owner[a].1, i, e, ind)
  }

  /** The owned blocks that itrunc of inode `j` has not freed yet. */
  ghost function Remaining(owner: Owners, j: nat, i: nat, e: nat, ind: bool): set<nat> {
    set a | a in owner.Keys && Kept(owner, a, j, i, e, ind)
  }

  /** itrunc of `j` at work: only the bitmap differs from the start, and it marks exactly what remains. */
  ghost predicate Truncating(sb: Super, blocks0: seq<Block>, owner0: Owners, blocks: seq<Block>, j: nat, i: nat,
                             e: nat, ind: bool) {
    && sb.Valid() && |blocks0| == |blocks| == sb.size
    && SameOutsideBitmap(sb, blocks0, blocks, {})
    && MarksAre(sb, blocks, Remaining(owner0, j, i, e, ind))
  }

  lemma TruncatingStart(sb: Super, blocks: seq<Block>, inodes: seq<Dinode>, owner: Owners, j: nat)
    requires OwnInv(sb, blocks, inodes, owner)
    ensures Truncating(sb, blocks, owner, blocks, j, 0, 0, false)
  {
    assert Remaining(owner, j, 0, 0, false) == owner.Keys;
  }

  lemma UnmarkOne(sb: Super, blocks: seq<Block>, used: set<nat>, a: nat)
    requires sb.Valid() && |blocks| == sb.size && sb.datastart <= a < sb.size && MarksAre(sb, blocks, used)
    ensures MarksAre(sb, Unmark(sb, blocks, a), used - {a}) && SameOutsideBitmap(sb, blocks, Unmark(sb, blocks, a), {})
  {
    forall c | 0 <= c < sb.size
      ensures Marked(sb, Unmark(sb, blocks, a), c) <==> c != a && Marked(sb, blocks, c)
    {
      MarkAt(sb, blocks, a, c);
    }
  }

  /** Freeing the block of slot `k`, if it has one, is one step of itrunc; the block is still marked before it. */
  lemma FreeSlot(sb: Super, blocks0: seq<Block>, inodes0: seq<Dinode>, owner0: Owners, blocks: seq<Block>, j: nat,
                 k: nat,
                 i: nat, e: nat, ind: bool, i': nat, e': nat, ind': bool)
    requires OwnInv(sb, blocks0, inodes0, owner0) && j < |inodes0| && k < NSLOTS
    requires Truncating(sb, blocks0, owner0, blocks, j, i, e, ind)
    requires !Gone(k, i, e, ind) &&
             forall m :: 0 <= m < NSLOTS ==> (Gone(m, i', e', ind') <==> m == k || Gone(m, i, e, ind))
    ensures var a := SlotAddr(blocks0, inodes0[j], k);
            if a == 0 then Truncating(sb, blocks0, owner0, blocks, j, i', e', ind')
            else
              && a < sb.size && Marked(sb, blocks, a)
              && Truncating(sb, blocks0, owner0, Unmark(sb, blocks, a), j, i', e', ind')
  {
    var a := SlotAddr(blocks0, inodes0[j], k);
    if a == 0 {
      assert Remaining(owner0, j, i', e', ind') == Remaining(owner0, j, i, e, ind);
    } else {
      assert a in owner0 && owner0[a] == (j, k);
      UnmarkOne(sb, blocks, Remaining(owner0, j, i, e, ind), a);
      assert Remaining(owner0, j, i', e', ind') == Remaining(owner0, j, i, e, ind) - {a};
    }
  }

  const NoAddrs: seq<word> := [0, 0, 0, 0, 0, 0, 0, 0, 0, 0, 0, 0, 0]

  function Emptied(d: Dinode): Dinode {
    d.(size := 0, addrs := NoAddrs)
  }

  ghost function WithoutOwner(owner: Owners, j: nat): Owners {
    map a | a in owner && owner[a].0 != j :: owner[a]
  }

  /** Once every slot of inode `j` is freed the state with `j` emptied and stored is consistent again. */
  lemma TruncatedConsistent(sb: Super, blocks0: seq<Block>, inodes0: seq<Dinode>, owner0: Owners, blocks: seq<Block>,
                            j: nat)
    requires Consistent(sb, blocks0, inodes0, owner0) && j < |inodes0|
    requires Truncating(sb, blocks0, owner0, blocks, j, NDIRECT, NINDIRECT, true)
    ensures var d' := Emptied(inodes0[j]);
            var blocks', inodes' := StoreInode(sb, blocks, j, d'), inodes0[j := d'];
            && Consistent(sb, blocks', inodes', WithoutOwner(owner0, j))
            && OthersSame(blocks0, inodes0, blocks', inodes', j)
            && forall i :: 0 <= i < |inodes0| && i != j ==>
               FileBytes(blocks', inodes'[i]) == FileBytes(blocks0, inodes0[i])
  {
    var d' := Emptied(inodes0[j]);
    var inodes', owner' := inodes0[j := d'], WithoutOwner(owner0, j);
    var blocks' := StoreInode(sb, blocks, j, d');
    TruncatedOwn(sb, blocks0, inodes0, owner0, blocks, j);
    MetaWriteKeepsFiles(sb, blocks, blocks', inodes', owner');
    assert SameMeta(sb, blocks0, blocks);
    SameMetaSameInodes(sb, blocks0, blocks);
    forall i | 0 <= i < |inodes'|
      ensures DiskInode(sb, blocks', i) == inodes'[i]
    {
      StoreInodeAt(sb, blocks, j, d', i);
    }
    forall i | 0 <= i < |inodes0| && i != j
      ensures FileBytes(blocks', inodes'[i]) == FileBytes(blocks0, inodes0[i])
    {
      forall x | 0 <= x < inodes0[i].size
        ensures ByteAt(blocks', inodes'[i], x) == ByteAt(blocks0, inodes0[i], x)
      {
      }
    }
  }

  lemma TruncatedOwn(sb: Super, blocks0: seq<Block>, inodes0: seq<Dinode>, owner0: Owners, blocks: seq<Block>, j: nat)
    requires OwnInv(sb, blocks0, inodes0, owner0) && j < |inodes0|
    requires Truncating(sb, blocks0, owner0, blocks, j, NDIRECT, NINDIRECT, true)
    ensures var inodes' := inodes0[j := Emptied(inodes0[j])];
            && OwnInv(sb, blocks, inodes', WithoutOwner(owner0, j))
            && OthersSame(blocks0, inodes0, blocks, inodes', j)
            && MappedBelow(blocks, inodes'[j], 0)
            && forall i, x {:trigger ByteAt(blocks, inodes'[i], x)} ::
                 0 <= i < |inodes0| && i != j && 0 <= x < MAXBLOCKS * BSIZE ==>
                   ByteAt(blocks, inodes'[i], x) == ByteAt(blocks0, inodes0[i], x)
  {
    var inodes', owner' := inodes0[j := Emptied(inodes0[j])], WithoutOwner(owner0, j);
    forall i | 0 <= i < |inodes0| && i != j
      ensures forall k :: 0 <= k < NSLOTS ==> SlotAddr(blocks, inodes'[i], k) == SlotAddr(blocks0, inodes0[i], k)
      ensures forall x :: 0 <= x < MAXBLOCKS * BSIZE ==> ByteAt(blocks, inodes'[i], x) == ByteAt(blocks0, inodes0[i], x)
    {
      SameBlocksSameFile(blocks0, blocks, inodes0[i]);
    }
    forall k | 0 <= k < NSLOTS
      ensures SlotAddr(blocks, inodes'[j], k) == 0
    {
    }
    assert owner'.Keys == Remaining(owner0, j, NDIRECT, NINDIRECT, true);
  }

  /** Without an indirect block there are no entries to free. */
  lemma NoIndirect(sb: Super, blocks0: seq<Block>, inodes0: seq<Dinode>, owner0: Owners, blocks: seq<Block>, j: nat)
    requires OwnInv(sb, blocks0, inodes0, owner0) && j < |inodes0| && inodes0[j].addrs[INDIRECT] == 0
    requires Truncating(sb, blocks0, owner0, blocks, j, NDIRECT, 0, false)
    ensures Truncating(sb, blocks0, owner0, blocks, j, NDIRECT, NINDIRECT, true)
  {
    forall a | a in owner0 && owner0[a].0 == j
      ensures owner0[a].1 < NDIRECT
    {
      assert SlotAddr(blocks0, inodes0[j], owner0[a].1) == a;
    }
    assert Remaining(owner0, j, NDIRECT, NINDIRECT, true) == Remaining(owner0, j, NDIRECT, 0, false);
  }
}
