/** Disk blocks: 512 bytes, also viewed as 128 little-endian 32-bit words. */
module Blocks {

  const BSIZE := 512
  const WORDS_PER_BLOCK := 128

  type byte = x: int | 0 <= x < 0x100
  type word = x: int | 0 <= x < 0x1_0000_0000
  type Block = b: seq<byte> | |b| == BSIZE witness seq(BSIZE, _ => 0)

  function ZeroBlock(): (b: Block)
    ensures forall i :: 0 <= i < BSIZE ==> b[i] == 0
  {
    seq<byte>(BSIZE, _ => 0)
  }

  /** The i-th `uint` of a block read through a `uint *`. */
  function GetWord(b: Block, i: nat): word
    requires i < WORDS_PER_BLOCK
  {
    var b0: int, b1: int, b2: int, b3: int := b[4 * i], b[4 * i + 1], b[4 * i + 2], b[4 * i + 3];
    b0 + 0x100 * b1 + 0x1_0000 * b2 + 0x100_0000 * b3
  }

  lemma WordBytes(w: word)
    ensures w / 0x100_0000 < 0x100
    ensures w % 0x100 + 0x100 * (w / 0x100 % 0x100) + 0x1_0000 * (w / 0x1_0000 % 0x100)
            + 0x100_0000 * (w / 0x100_0000) == w
  {
    assert w / 0x1_0000 == w / 0x100 / 0x100 && w / 0x100_0000 == w / 0x1_0000 / 0x100;
  }

  /** Storing through a `uint *` changes that word and no other. */
  function SetWord(b: Block, i: nat, w: word): (r: Block)
    requires i < WORDS_PER_BLOCK
    ensures GetWord(r, i) == w
    ensures forall j: nat :: j < WORDS_PER_BLOCK && j != i ==> GetWord(r, j) == GetWord(b, j)
  {
    WordBytes(w);
    b[4 * i := w % 0x100]
    [4 * i + 1 := w / 0x100 % 0x100]
    [4 * i + 2 := w / 0x1_0000 % 0x100]
    [4 * i + 3 := w / 0x100_0000]
  }

  function SetByte(b: Block, i: nat, v: byte): Block
    requires i < BSIZE
  {
    b[i := v]
  }
}
