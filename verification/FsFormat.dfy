/** The on-disk format of fs.h: layout, the free bitmap and the inode blocks. */
module FsFormat {
  import opened Blocks

  const NDIRECT := 12
  const NINDIRECT := 128
  const BPB := 4096          // bitmap bits per block
  const IPB := 8             // inodes per block
  const DINODE_WORDS := 16
  const T_DEV := 3

  type short = x: int | 0 <= x < 0x1_0000

  /** `struct dinode`; an in-memory inode carries the same fields. */
  datatype Dinode = Dinode(typ: short, major: short, minor: short, nlink: short, size: word, addrs: seq<word>)
  {
    predicate Valid() {
      |addrs| == NDIRECT + 1
    }
  }

  /** The superblock fields that place things, and where mkfs starts the data blocks. */
  datatype Super = Super(size: nat, ninodes: nat, inodestart: nat, bmapstart: nat, datastart: nat)
  {
    ghost predicate Valid() {
      && 0 < inodestart && ninodes > 0
      && inodestart + (ninodes - 1) / IPB < bmapstart
      && bmapstart + (size - 1) / BPB < datastart <= size < 0x1_0000_0000
    }

    function InodeBlock(inum: nat): nat {
      inum / IPB + inodestart
    }

    function BitmapBlock(b: nat): nat {
      b / BPB + bmapstart
    }
  }

  // ---- Bits of a byte ----

  /** `(v >> k) & 1` */
  predicate BitOf(v: nat, k: nat) {
    if k == 0 then v % 2 == 1 else BitOf(v / 2, k - 1)
  }

  /** `v | (1 << k)` */
  function WithBit(v: nat, k: nat): nat {
    if k == 0 then v / 2 * 2 + 1 else WithBit(v / 2, k - 1) * 2 + v % 2
  }

  /** `v & ~(1 << k)` */
  function WithoutBit(v: nat, k: nat): nat {
    if k == 0 then v / 2 * 2 else WithoutBit(v / 2, k - 1) * 2 + v % 2
  }

  function Pow2(n: nat): (r: nat)
    ensures r > 0
  {
    if n == 0 then 1 else 2 * Pow2(n - 1)
  }

  lemma {:induction false} BitsStayInRange(v: nat, k: nat, n: nat)
    requires k < n && v < Pow2(n)
    ensures WithBit(v, k) < Pow2(n) && WithoutBit(v, k) < Pow2(n)
  {
    var half := Pow2(n - 1);
    assert Pow2(n) == 2 * half && v / 2 < half;
    if k > 0 {
      BitsStayInRange(v / 2, k - 1, n - 1);
      hide Pow2;
      assert WithBit(v, k) == WithBit(v / 2, k - 1) * 2 + v % 2;
      assert WithoutBit(v, k) == WithoutBit(v / 2, k - 1) * 2 + v % 2;
    }
  }

  lemma Halves(x: nat, r: nat)
    requires r < 2
    ensures (x * 2 + r) / 2 == x && (x * 2 + r) % 2 == r
  {
  }

  lemma {:induction false} OtherBitsKept(v: nat, k: nat, j: nat)
    ensures BitOf(WithBit(v, k), j) <==> j == k || BitOf(v, j)
    ensures BitOf(WithoutBit(v, k), j) <==> j != k && BitOf(v, j)
  {
    Halves(if k == 0 then v / 2 else WithBit(v / 2, k - 1), if k == 0 then 1 else v % 2);
    Halves(if k == 0 then v / 2 else WithoutBit(v / 2, k - 1), if k == 0 then 0 else v % 2);
    if k > 0 && j > 0 {
      OtherBitsKept(v / 2, k - 1, j - 1);
    }
  }

  /** Bit k is the one of weight 2^k. */
  lemma {:induction false} BitIs(v: nat, k: nat)
    ensures BitOf(v, k) <==> v / Pow2(k) % 2 == 1
  {
    if k > 0 {
      BitIs(v / 2, k - 1);
      DivideTwice(v, Pow2(k - 1));
    }
  }

  lemma DivideTwice(v: nat, m: nat)
    requires m > 0
    ensures v / 2 / m == v / (2 * m)
  {
    var q := v / 2 / m;
    assert v / 2 == q * m + v / 2 % m && v == 2 * (v / 2) + v % 2;
    assert v == q * (2 * m) + (2 * (v / 2 % m) + v % 2);
    Quotient(v, 2 * m, q, 2 * (v / 2 % m) + v % 2);
  }

  lemma Quotient(v: nat, d: nat, q: nat, r: nat)
    requires v == q * d + r && r < d
    ensures v / d == q
  {
    var q', r' := v / d, v % d;
    assert v == q' * d + r' && r' < d;
    Products(q, q', d);
    Products(q', q, d);
  }

  lemma {:induction false} Products(a: nat, b: nat, d: nat)
    ensures a < b ==> a * d + d <= b * d
    decreases b
  {
    if a < b {
      Products(a, b - 1, d);
      assert b * d == (b - 1) * d + d;
    }
  }

  // ---- The free bitmap ----

  /** Block `b` is marked in use. */
  predicate Marked(sb: Super, blocks: seq<Block>, b: nat)
    requires sb.BitmapBlock(b) < |blocks|
  {
    BitOf(blocks[sb.BitmapBlock(b)][b % BPB / 8], b % 8)
  }

  /** Storing byte `v` in the bitmap at the place of block `b`. */
  function PutBitmapByte(sb: Super, blocks: seq<Block>, b: nat, v: byte): (r: seq<Block>)
    requires sb.BitmapBlock(b) < |blocks|
    ensures |r| == |blocks|
  {
    blocks[sb.BitmapBlock(b) := SetByte(blocks[sb.BitmapBlock(b)], b % BPB / 8, v)]
  }

  function Mark(sb: Super, blocks: seq<Block>, b: nat): (r: seq<Block>)
    requires sb.BitmapBlock(b) < |blocks|
    ensures |r| == |blocks|
  {
    var v := blocks[sb.BitmapBlock(b)][b % BPB / 8];
    BitsStayInRange(v, b % 8, 8);
    PutBitmapByte(sb, blocks, b, WithBit(v, b % 8))
  }

  function Unmark(sb: Super, blocks: seq<Block>, b: nat): (r: seq<Block>)
    requires sb.BitmapBlock(b) < |blocks|
    ensures |r| == |blocks|
  {
    var v := blocks[sb.BitmapBlock(b)][b % BPB / 8];
    BitsStayInRange(v, b % 8, 8);
    PutBitmapByte(sb, blocks, b, WithoutBit(v, b % 8))
  }

  /** The place of a block's bit determines the block. */
  lemma SamePlace(b: nat, c: nat)
    requires b / BPB == c / BPB && b % BPB / 8 == c % BPB / 8 && b % 8 == c % 8
    ensures b == c
  {
    assert b % BPB % 8 == b % 8 && c % BPB % 8 == c % 8;
  }

  /** Marking or clearing one block leaves the mark of every other block alone. */
  lemma MarkAt(sb: Super, blocks: seq<Block>, b: nat, c: nat)
    requires sb.BitmapBlock(b) < |blocks| && sb.BitmapBlock(c) < |blocks|
    ensures Marked(sb, Mark(sb, blocks, b), c) <==> c == b || Marked(sb, blocks, c)
    ensures Marked(sb, Unmark(sb, blocks, b), c) <==> c != b && Marked(sb, blocks, c)
  {
    if sb.BitmapBlock(b) == sb.BitmapBlock(c) && b % BPB / 8 == c % BPB / 8 {
      if b % 8 == c % 8 {
        SamePlace(b, c);
      }
      var v := blocks[sb.BitmapBlock(b)][b % BPB / 8];
      BitsStayInRange(v, b % 8, 8);
      OtherBitsKept(v, b % 8, c % 8);
    }
  }

  // ---- Inode blocks ----

  /** The sixteen words of a `struct dinode`. */
  function DinodeWord(d: Dinode, k: nat): word
    requires d.Valid() && k < DINODE_WORDS
  {
    var typ: int, major: int, minor: int, nlink: int := d.typ, d.major, d.minor, d.nlink;
    if k == 0 then typ + 0x1_0000 * major
    else if k == 1 then minor + 0x1_0000 * nlink
    else if k == 2 then d.size
    else d.addrs[k - 3]
  }

  /** Word `k` of the `slot`-th inode of a block. */
  function InodeWord(b: Block, slot: nat, k: nat): word
    requires slot < IPB && k < DINODE_WORDS
  {
    GetWord(b, DINODE_WORDS * slot + k)
  }

  function GetAddrs(b: Block, slot: nat): (r: seq<word>)
    requires slot < IPB
  {
    seq<word>(NDIRECT + 1, k requires 0 <= k < NDIRECT + 1 => InodeWord(b, slot, k + 3))
  }

  /** `(struct dinode *)b + slot`, read. */
  function GetDinode(b: Block, slot: nat): (d: Dinode)
    requires slot < IPB
    ensures d.Valid()
  {
    var w0, w1 := InodeWord(b, slot, 0), InodeWord(b, slot, 1);
    Dinode(w0 % 0x1_0000, w0 / 0x1_0000, w1 % 0x1_0000, w1 / 0x1_0000, InodeWord(b, slot, 2),
           GetAddrs(b, slot))
  }

  function SetInodeWord(b: Block, slot: nat, k: nat, w: word): (r: Block)
    requires slot < IPB && k < DINODE_WORDS
    ensures forall i, j :: 0 <= i < IPB && 0 <= j < DINODE_WORDS ==>
              InodeWord(r, i, j) == if i == slot && j == k then w else InodeWord(b, i, j)
  {
    SetWord(b, DINODE_WORDS * slot + k, w)
  }

  /** The first `n` words of `d` stored at inode slot `slot`. */
  function PutWords(b: Block, slot: nat, d: Dinode, n: nat): (r: Block)
    requires slot < IPB && d.Valid() && n <= DINODE_WORDS
    ensures forall i, k :: 0 <= i < IPB && 0 <= k < DINODE_WORDS ==>
              InodeWord(r, i, k) == if i == slot && k < n then DinodeWord(d, k) else InodeWord(b, i, k)
  {
    if n == 0 then b else SetInodeWord(PutWords(b, slot, d, n - 1), slot, n - 1, DinodeWord(d, n - 1))
  }

  /** `*((struct dinode *)b + slot) = d`, all sixteen words. */
  function PutDinode(b: Block, slot: nat, d: Dinode): Block
    requires slot < IPB && d.Valid()
  {
    PutWords(b, slot, d, 3 + |d.addrs|)
  }

  lemma ShortsRoundTrip(lo: short, hi: short)
    ensures (lo + 0x1_0000 * hi) % 0x1_0000 == lo && (lo + 0x1_0000 * hi) / 0x1_0000 == hi
  {
  }

  lemma DecodeAddrs(b: Block, slot: nat, d: Dinode)
    requires slot < IPB && d.Valid()
    requires forall k :: 0 <= k < DINODE_WORDS ==> InodeWord(b, slot, k) == DinodeWord(d, k)
    ensures GetAddrs(b, slot) == d.addrs
  {
    forall k | 0 <= k < NDIRECT + 1
      ensures GetAddrs(b, slot)[k] == d.addrs[k]
    {
      assert InodeWord(b, slot, k + 3) == DinodeWord(d, k + 3);
    }
  }

  lemma DecodeWords(b: Block, slot: nat, d: Dinode)
    requires slot < IPB && d.Valid()
    requires forall k :: 0 <= k < DINODE_WORDS ==> InodeWord(b, slot, k) == DinodeWord(d, k)
    ensures GetDinode(b, slot) == d
  {
    assert InodeWord(b, slot, 0) == DinodeWord(d, 0) && InodeWord(b, slot, 1) == DinodeWord(d, 1);
    assert InodeWord(b, slot, 2) == DinodeWord(d, 2);
    ShortsRoundTrip(d.typ, d.major);
    ShortsRoundTrip(d.minor, d.nlink);
    DecodeAddrs(b, slot, d);
  }

  lemma SameWordsSameInode(b: Block, c: Block, slot: nat)
    requires slot < IPB
    requires forall k :: 0 <= k < DINODE_WORDS ==> InodeWord(b, slot, k) == InodeWord(c, slot, k)
    ensures GetDinode(b, slot) == GetDinode(c, slot)
  {
    assert GetAddrs(b, slot) == GetAddrs(c, slot);
  }

  /** The 16-bit number at byte i, low byte first. */
  function ShortAt(b: Block, i: nat): short
    requires i + 1 < BSIZE
  {
    var lo: int, hi: int := b[i], b[i + 1];
    lo + 0x100 * hi
  }

  /** The 32-bit number at byte i, low byte first. */
  function LongAt(b: Block, i: nat): word
    requires i + 3 < BSIZE
  {
    var lo: int, hi: int := ShortAt(b, i), ShortAt(b, i + 2);
    lo + 0x1_0000 * hi
  }

  lemma WordIsLong(b: Block, slot: nat, k: nat)
    requires slot < IPB && k < DINODE_WORDS
    ensures InodeWord(b, slot, k) == LongAt(b, 64 * slot + 4 * k)
  {
    assert 4 * (DINODE_WORDS * slot + k) == 64 * slot + 4 * k;
  }

  /** `struct dinode` byte by byte: 64 bytes each, the fields in the order of their declaration. */
  lemma DinodeLayout(b: Block, slot: nat)
    requires slot < IPB
    ensures var d, o := GetDinode(b, slot), 64 * slot;
            && d.typ == ShortAt(b, o) && d.major == ShortAt(b, o + 2) && d.minor == ShortAt(b, o + 4)
            && d.nlink == ShortAt(b, o + 6) && d.size == LongAt(b, o + 8)
            && (forall k :: 0 <= k < NDIRECT + 1 ==> d.addrs[k] == LongAt(b, o + 12 + 4 * k))
  {
    var o := 64 * slot;
    WordIsLong(b, slot, 0);
    WordIsLong(b, slot, 1);
    WordIsLong(b, slot, 2);
    ShortsRoundTrip(ShortAt(b, o), ShortAt(b, o + 2));
    ShortsRoundTrip(ShortAt(b, o + 4), ShortAt(b, o + 6));
    forall k | 0 <= k < NDIRECT + 1
      ensures GetAddrs(b, slot)[k] == LongAt(b, o + 12 + 4 * k)
    {
      WordIsLong(b, slot, k + 3);
    }
  }

  /** Storing an inode and reading the block back: that inode is the stored one, the other seven are untouched. */
  lemma DinodeRoundTrip(b: Block, slot: nat, d: Dinode, other: nat)
    requires slot < IPB && other < IPB && d.Valid()
    ensures GetDinode(PutDinode(b, slot, d), other) == if other == slot then d else GetDinode(b, other)
  {
    if other == slot {
      DecodeWords(PutDinode(b, slot, d), slot, d);
    } else {
      SameWordsSameInode(PutDinode(b, slot, d), b, other);
    }
  }

  /** Inode `inum` as it is on disk. */
  function DiskInode(sb: Super, blocks: seq<Block>, inum: nat): Dinode
    requires sb.InodeBlock(inum) < |blocks|
  {
    GetDinode(blocks[sb.InodeBlock(inum)], inum % IPB)
  }

  function StoreInode(sb: Super, blocks: seq<Block>, inum: nat, d: Dinode): (r: seq<Block>)
    requires sb.InodeBlock(inum) < |blocks| && d.Valid()
    ensures |r| == |blocks|
  {
    blocks[sb.InodeBlock(inum) := PutDinode(blocks[sb.InodeBlock(inum)], inum % IPB, d)]
  }

  lemma StoreInodeAt(sb: Super, blocks: seq<Block>, inum: nat, d: Dinode, other: nat)
    requires sb.InodeBlock(inum) < |blocks| && sb.InodeBlock(other) < |blocks| && d.Valid()
    ensures DiskInode(sb, StoreInode(sb, blocks, inum, d), other) == if other == inum then d
              else DiskInode(sb, blocks, other)
  {
    if sb.InodeBlock(inum) == sb.InodeBlock(other) {
      assert inum % IPB == other % IPB <==> inum == other;
      DinodeRoundTrip(blocks[sb.InodeBlock(inum)], inum % IPB, d, other % IPB);
    }
  }
}
