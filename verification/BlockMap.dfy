/**
 * Which disk blocks an inode reaches, who owns each block, and the bytes of a file, as functions of the
 * block contents and the inodes. The lemmas say what each primitive change of fs.c does to ownership
 * and to the bytes of every file.
 */
module BlockMap {
  import opened Blocks
  import opened FsFormat

  const INDIRECT := NDIRECT                    // slot of the pointer to the indirect block
  const NSLOTS := NDIRECT + 1 + NINDIRECT      // direct pointers, the indirect pointer, its entries
  const MAXBLOCKS := NDIRECT + NINDIRECT       // file blocks bmap can reach

  /** The slot that maps file block `bn`. */
  function FileSlot(bn: nat): nat {
    if bn < NDIRECT then bn else bn + 1
  }

  /** The block number in slot `k` of an inode, 0 if none. */
  function SlotAddr(blocks: seq<Block>, d: Dinode, k: nat): word
    requires d.Valid() && k < NSLOTS
  {
    if k <= INDIRECT then d.addrs[k]
    else if 0 < d.addrs[INDIRECT] < |blocks| then GetWord(blocks[d.addrs[INDIRECT]], k - INDIRECT - 1)
    else 0
  }

  /** Where file block bn is found: in the inode, or in the block its last pointer names. */
  lemma FileLayout(blocks: seq<Block>, d: Dinode, bn: nat)
    requires d.Valid() && bn < MAXBLOCKS
    ensures bn < NDIRECT ==> SlotAddr(blocks, d, FileSlot(bn)) == d.addrs[bn]
    ensures bn >= NDIRECT && 0 < d.addrs[NDIRECT] < |blocks| ==>
              SlotAddr(blocks, d, FileSlot(bn)) == GetWord(blocks[d.addrs[NDIRECT]], bn - NDIRECT)
  {
  }

  /** Byte `i` of the file's block map; 0 where no block is mapped. */
  function ByteAt(blocks: seq<Block>, d: Dinode, i: nat): byte
    requires d.Valid() && i < MAXBLOCKS * BSIZE
  {
    var a := SlotAddr(blocks, d, FileSlot(i / BSIZE));
    if 0 < a < |blocks| then blocks[a][i % BSIZE] else 0
  }

  /** The content of the file. */
  function FileBytes(blocks: seq<Block>, d: Dinode): seq<byte>
    requires d.Valid() && d.size <= MAXBLOCKS * BSIZE
  {
    seq<byte>(d.size, i requires 0 <= i < d.size => ByteAt(blocks, d, i))
  }

  /** File block `bn` is mapped exactly when it starts below `limit`, and the indirect block when it is needed. */
  ghost predicate MappedBelow(blocks: seq<Block>, d: Dinode, limit: nat)
    requires d.Valid()
  {
    forall k :: 0 <= k < NSLOTS ==> (SlotAddr(blocks, d, k) != 0 <==> SlotStart(k) < limit)
  }

  /** The first byte of the file that needs slot `k`. */
  function SlotStart(k: nat): nat {
    if k <= INDIRECT then k * BSIZE else (k - 1) * BSIZE
  }

  type Owners = map<nat, (nat, nat)>

  ghost predicate Sizes(sb: Super, blocks: seq<Block>, inodes: seq<Dinode>) {
    && sb.Valid() && |blocks| == sb.size && |inodes| == sb.ninodes
    && (forall j :: 0 <= j < |inodes| ==> inodes[j].Valid())
  }

  /** Every pointer is recorded in `owner` under its own slot, so no block is reachable twice. */
  ghost predicate PointersOwned(blocks: seq<Block>, inodes: seq<Dinode>, owner: Owners)
    requires forall j :: 0 <= j < |inodes| ==> inodes[j].Valid()
  {
    forall j, k {:trigger SlotAddr(blocks, inodes[j], k)} :: 0 <= j < |inodes| && 0 <= k < NSLOTS ==>
      var a := SlotAddr(blocks, inodes[j], k); a != 0 ==> a in owner && owner[a] == (j, k)
  }

  ghost predicate OwnersPoint(sb: Super, blocks: seq<Block>, inodes: seq<Dinode>, owner: Owners)
    requires forall j :: 0 <= j < |inodes| ==> inodes[j].Valid()
  {
    forall a :: a in owner ==>
      && sb.datastart <= a < sb.size
      && owner[a].0 < |inodes| && owner[a].1 < NSLOTS
      && SlotAddr(blocks, inodes[owner[a].0], owner[a].1) == a
  }

  /** The bitmap marks the metadata and the blocks of `used`, and nothing else. */
  ghost predicate MarksAre(sb: Super, blocks: seq<Block>, used: set<nat>)
    requires sb.Valid() && |blocks| == sb.size
  {
    forall b {:trigger Marked(sb, blocks, b)} :: 0 <= b < sb.size ==>
      (Marked(sb, blocks, b) <==> b < sb.datastart || b in used)
  }

  /** Ownership and conservation: every data block is free or reached through exactly one slot of one inode. */
  ghost predicate OwnInv(sb: Super, blocks: seq<Block>, inodes: seq<Dinode>, owner: Owners) {
    && Sizes(sb, blocks, inodes)
    && PointersOwned(blocks, inodes, owner)
    && OwnersPoint(sb, blocks, inodes, owner)
    && MarksAre(sb, blocks, owner.Keys)
  }

  /** How many data blocks there are. */
  function DataBlocks(sb: Super): int {
    sb.size - sb.datastart
  }

  ghost function FreeSet(sb: Super, blocks: seq<Block>): set<nat>
    requires sb.Valid() && |blocks| == sb.size
  {
    set b: nat | b < sb.size && !Marked(sb, blocks, b)
  }

  /** How many blocks balloc could still hand out. */
  ghost function FreeBlocks(sb: Super, blocks: seq<Block>): nat
    requires sb.Valid() && |blocks| == sb.size
  {
    |FreeSet(sb, blocks)|
  }

  predicate Between(lo: nat, b: nat, hi: nat) {
    lo <= b < hi
  }

  ghost function Interval(lo: nat, hi: nat): set<nat> {
    set b: nat | b < hi && Between(lo, b, hi)
  }

  lemma {:induction false} IntervalSize(lo: nat, hi: nat)
    requires lo <= hi
    ensures |Interval(lo, hi)| == hi - lo
    decreases hi - lo
  {
    if lo < hi {
      IntervalSize(lo, hi - 1);
      assert forall b: nat :: Between(lo, b, hi) <==> Between(lo, b, hi - 1) || b == hi - 1;
      assert Interval(lo, hi) == Interval(lo, hi - 1) + {hi - 1};
    } else {
      assert Interval(lo, hi) == {};
    }
  }

  lemma Partition(a: set<nat>, b: set<nat>, whole: set<nat>)
    requires forall x: nat :: x in a || x in b <==> x in whole
    requires forall x: nat :: !(x in a && x in b)
    ensures |a| + |b| == |whole| && (a == {} <==> |a| == 0)
  {
    assert a + b == whole && a * b == {};
  }

  /** Conservation: every data block is free or has an owner. */
  lemma FreeAndOwned(sb: Super, blocks: seq<Block>, inodes: seq<Dinode>, owner: Owners)
    requires OwnInv(sb, blocks, inodes, owner)
    ensures FreeBlocks(sb, blocks) + |owner| == DataBlocks(sb)
    ensures |owner| == DataBlocks(sb) <==> forall b :: 0 <= b < sb.size ==> Marked(sb, blocks, b)
  {
    hide PointersOwned, Marked;
    var free, data := FreeSet(sb, blocks), Interval(sb.datastart, sb.size);
    IntervalSize(sb.datastart, sb.size);
    forall b: nat
      ensures b in free || b in owner.Keys <==> b in data
      ensures !(b in free && b in owner.Keys)
    {
      assert b in data <==> Between(sb.datastart, b, sb.size);
    }
    Partition(free, owner.Keys, data);
    assert |owner| == |owner.Keys|;
    if free == {} {
      forall b | 0 <= b < sb.size
        ensures Marked(sb, blocks, b)
      {
        assert b !in free;
      }
    } else {
      var b :| b in free;
    }
  }

  /** The blocks that are not free bitmap blocks and not in `except` are the same. */
  ghost predicate SameOutsideBitmap(sb: Super, blocks: seq<Block>, blocks': seq<Block>, except: set<nat>) {
    && |blocks'| == |blocks|
    && forall b :: 0 <= b < |blocks| && !(sb.bmapstart <= b < sb.datastart) && b !in except ==> blocks'[b] == blocks[b]
  }

  // ---- Allocation ----

  /** What balloc leaves behind when it picks `b`. */
  function Allocated(sb: Super, blocks: seq<Block>, b: nat): (r: seq<Block>)
    requires sb.Valid() && |blocks| == sb.size && b < sb.size
    ensures |r| == |blocks|
  {
    Mark(sb, blocks, b)[b := ZeroBlock()]
  }

  lemma AllocatedAt(sb: Super, blocks: seq<Block>, b: nat)
    requires sb.Valid() && |blocks| == sb.size && sb.datastart <= b < sb.size
    ensures SameOutsideBitmap(sb, blocks, Allocated(sb, blocks, b), {b})
    ensures forall c :: 0 <= c < sb.size ==>
              (Marked(sb, Allocated(sb, blocks, b), c) <==> c == b || Marked(sb, blocks, c))
  {
    forall c | 0 <= c < sb.size
      ensures Marked(sb, Allocated(sb, blocks, b), c) <==> c == b || Marked(sb, blocks, c)
    {
      MarkAt(sb, blocks, b, c);
      assert sb.BitmapBlock(c) < sb.datastart;
    }
  }

  /** Slots do not change when the indirect block does not. */
  lemma SlotFrame(blocks: seq<Block>, blocks': seq<Block>, d: Dinode)
    requires d.Valid() && |blocks'| == |blocks|
    requires 0 < d.addrs[INDIRECT] < |blocks| ==> blocks'[d.addrs[INDIRECT]] == blocks[d.addrs[INDIRECT]]
    ensures forall k :: 0 <= k < NSLOTS ==> SlotAddr(blocks', d, k) == SlotAddr(blocks, d, k)
  {
  }

  /** A free block is nobody's: it is a data block without an owner. */
  lemma FreeIsUnowned(sb: Super, blocks: seq<Block>, inodes: seq<Dinode>, owner: Owners, b: nat)
    requires OwnInv(sb, blocks, inodes, owner) && b < sb.size && !Marked(sb, blocks, b)
    ensures sb.datastart <= b && b !in owner
    ensures forall j, k :: 0 <= j < |inodes| && 0 <= k < NSLOTS ==> SlotAddr(blocks, inodes[j], k) != b
  {
  }

  function WithAddr(d: Dinode, k: nat, b: word): Dinode
    requires d.Valid() && k <= INDIRECT
  {
    d.(addrs := d.addrs[k := b])
  }

  /** What `d'` in `blocks'` maps is what `d` in `blocks` maps, with slot `k` now holding `b`. */
  ghost predicate OneSlotAdded(blocks: seq<Block>, d: Dinode, blocks': seq<Block>, d': Dinode, k: nat, b: nat)
    requires d.Valid() && d'.Valid() && k < NSLOTS
  {
    && SlotAddr(blocks, d, k) == 0
    && forall m :: 0 <= m < NSLOTS ==> SlotAddr(blocks', d', m) == if m == k then b else SlotAddr(blocks, d, m)
  }

  lemma PointerAdded(blocks: seq<Block>, d: Dinode, blocks': seq<Block>, k: nat, b: nat)
    requires d.Valid() && k <= INDIRECT && d.addrs[k] == 0 && |blocks'| == |blocks| && 0 < b < |blocks| <= 0x1_0000_0000
    requires k == INDIRECT ==> blocks'[b] == ZeroBlock()
    requires 0 < d.addrs[INDIRECT] < |blocks| ==> blocks'[d.addrs[INDIRECT]] == blocks[d.addrs[INDIRECT]]
    ensures OneSlotAdded(blocks, d, blocks', WithAddr(d, k, b), k, b)
  {
    ZeroWords();
  }

  lemma ZeroWords()
    ensures forall i :: 0 <= i < WORDS_PER_BLOCK ==> GetWord(ZeroBlock(), i) == 0
  {
  }

  lemma EntryAdded(blocks: seq<Block>, d: Dinode, blocks': seq<Block>, e: nat, b: nat)
    requires d.Valid() && e < NINDIRECT && |blocks'| == |blocks| && b < 0x1_0000_0000
    requires 0 < d.addrs[INDIRECT] < |blocks| && GetWord(blocks[d.addrs[INDIRECT]], e) == 0
    requires blocks'[d.addrs[INDIRECT]] == SetWord(blocks[d.addrs[INDIRECT]], e, b)
    ensures OneSlotAdded(blocks, d, blocks', d, INDIRECT + 1 + e, b)
  {
  }

  /** Giving slot `k` of inode `j` the free block `b` keeps ownership, with `b` now owned by that slot. */
  lemma AddSlotKeepsOwn(sb: Super, blocks: seq<Block>, inodes: seq<Dinode>, owner: Owners,
                        blocks': seq<Block>, j: nat, d': Dinode, k: nat, b: nat)
    requires OwnInv(sb, blocks, inodes, owner) && j < |inodes| && d'.Valid() && k < NSLOTS
    requires b < sb.size && !Marked(sb, blocks, b) && |blocks'| == |blocks|
    requires MarksAre(sb, blocks', owner.Keys + {b})
    requires OneSlotAdded(blocks, inodes[j], blocks', d', k, b)
    requires forall i :: 0 <= i < |inodes| && i != j && inodes[i].addrs[INDIRECT] in owner ==>
               blocks'[inodes[i].addrs[INDIRECT]] == blocks[inodes[i].addrs[INDIRECT]]
    ensures OwnInv(sb, blocks', inodes[j := d'], owner[b := (j, k)])
  {
    var inodes', owner' := inodes[j := d'], owner[b := (j, k)];
    FreeIsUnowned(sb, blocks, inodes, owner, b);
    forall i, m | 0 <= i < |inodes| && 0 <= m < NSLOTS && i != j
      ensures SlotAddr(blocks', inodes'[i], m) == SlotAddr(blocks, inodes[i], m)
    {
      assert SlotAddr(blocks, inodes[i], INDIRECT) == inodes[i].addrs[INDIRECT];
    }
    assert owner'.Keys == owner.Keys + {b};
  }

  /** A new zeroed block changes no byte. */
  lemma AddSlotKeepsBytes(blocks: seq<Block>, d: Dinode, blocks': seq<Block>, d': Dinode, k: nat, b: nat)
    requires d.Valid() && d'.Valid() && k < NSLOTS && |blocks'| == |blocks|
    requires OneSlotAdded(blocks, d, blocks', d', k, b)
    requires 0 < b < |blocks| && (k != INDIRECT ==> blocks'[b] == ZeroBlock())
    requires forall m :: 0 <= m < NSLOTS && m != INDIRECT && 0 < SlotAddr(blocks, d, m) < |blocks| ==>
               blocks'[SlotAddr(blocks, d, m)] == blocks[SlotAddr(blocks, d, m)]
    ensures forall i :: 0 <= i < MAXBLOCKS * BSIZE ==> ByteAt(blocks', d', i) == ByteAt(blocks, d, i)
  {
    forall i | 0 <= i < MAXBLOCKS * BSIZE
      ensures ByteAt(blocks', d', i) == ByteAt(blocks, d, i)
    {
      var m := FileSlot(i / BSIZE);
      assert SlotAddr(blocks', d', m) == if m == k then b else SlotAddr(blocks, d, m);
    }
  }

  /** An inode all of whose blocks are the same has the same slots and bytes. */
  lemma SameBlocksSameFile(blocks: seq<Block>, blocks': seq<Block>, d: Dinode)
    requires d.Valid() && |blocks'| == |blocks|
    requires forall m :: 0 <= m < NSLOTS && 0 < SlotAddr(blocks, d, m) < |blocks| ==>
               blocks'[SlotAddr(blocks, d, m)] == blocks[SlotAddr(blocks, d, m)]
    ensures forall m :: 0 <= m < NSLOTS ==> SlotAddr(blocks', d, m) == SlotAddr(blocks, d, m)
    ensures forall i :: 0 <= i < MAXBLOCKS * BSIZE ==> ByteAt(blocks', d, i) == ByteAt(blocks, d, i)
  {
    assert SlotAddr(blocks, d, INDIRECT) == d.addrs[INDIRECT];
    SlotFrame(blocks, blocks', d);
    forall i | 0 <= i < MAXBLOCKS * BSIZE
      ensures ByteAt(blocks', d, i) == ByteAt(blocks, d, i)
    {
      var m := FileSlot(i / BSIZE);
      assert SlotAddr(blocks', d, m) == SlotAddr(blocks, d, m);
    }
  }
}
