/** Disk blocks as bytes, and the block numbers that an indirect block holds (p2b/include/fs.h). */
module FsBlock {
  import opened Basics

  const BSIZE := 512
  const NINDIRECT := 128

  function Zeros(n: nat): (s: seq<byte>)
    ensures |s| == n && forall k :: 0 <= k < n ==> s[k] == 0
  {
    if n == 0 then [] else Zeros(n - 1) + [0]
  }

  type Block = b: seq<byte> | |b| == BSIZE witness Zeros(BSIZE)

  const ZERO_BLOCK: Block := Zeros(BSIZE)

  /** The j-th little-endian 32-bit word of a block: ((uint*)bp->data)[j]. */
  function Word(b: Block, j: nat): (v: nat)
    requires j < NINDIRECT
    ensures v < UINT
  {
    var b0: int, b1: int, b2: int, b3: int := b[4 * j], b[4 * j + 1], b[4 * j + 2], b[4 * j + 3];
    b0 + 256 * b1 + 65536 * b2 + 16777216 * b3
  }

  function SetWord(b: Block, j: nat, v: nat): Block
    requires j < NINDIRECT && v < UINT
  {
    b[4 * j := v % 256][4 * j + 1 := v / 256 % 256][4 * j + 2 := v / 65536 % 256][4 * j + 3 := v / 16777216]
  }

  /** Storing a word and loading it back, and leaving the others alone. */
  lemma WordOfSetWord(b: Block, j: nat, v: nat, k: nat)
    requires j < NINDIRECT && v < UINT && k < NINDIRECT
    ensures Word(SetWord(b, j, v), k) == if k == j then v else Word(b, k)
  {
    if k == j {
      BytesOfWord(v);
    }
  }

  lemma BytesOfWord(v: nat)
    requires v < UINT
    ensures v % 256 + 256 * (v / 256 % 256) + 65536 * (v / 65536 % 256) + 16777216 * (v / 16777216) == v
  {
    var a := v / 256;
    var b := a / 256;
    var c := b / 256;
    assert v == 256 * a + v % 256;
    assert a == 256 * b + a % 256;
    assert b == 256 * c + b % 256;
    assert b == v / 65536 && c == v / 16777216;
  }

  /** A block of zero bytes lists no blocks. */
  lemma ZeroWord(j: nat)
    requires j < NINDIRECT
    ensures Word(ZERO_BLOCK, j) == 0
  {
  }

  /** memmove(bp->data + o, w, |w|) */
  function Patch(b: Block, o: nat, w: seq<byte>): (r: Block)
    requires o + |w| <= BSIZE
    ensures forall k :: 0 <= k < BSIZE ==> r[k] == if o <= k < o + |w| then w[k - o] else b[k]
  {
    b[..o] + w + b[o + |w|..]
  }
}
