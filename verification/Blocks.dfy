/**
 Disk blocks of BSIZE bytes, with the two views the kernel takes of one: an array of
 little-endian 32-bit words and an array of bits.
 */
module Blocks {
  const BSIZE := 1024
  const WORDS := BSIZE / 4
  const BITS := BSIZE * 8
  const WORD_LIMIT := 0x1_0000_0000

  type Byte = x: int | 0 <= x < 256
  type Block = b: seq<Byte> | |b| == BSIZE witness seq(BSIZE, _ => 0)
  type Word = x: int | 0 <= x < WORD_LIMIT

  const ZERO: Block := seq(BSIZE, _ => 0)

  function Bit(b: bool): nat {
    if b then 1 else 0
  }

  function GetWord(b: Block, i: nat): (w: Word)
    requires i < WORDS
  {
    var b0: int, b1: int, b2: int, b3: int := b[4 * i], b[4 * i + 1], b[4 * i + 2], b[4 * i + 3];
    b0 + 0x100 * b1 + 0x1_0000 * b2 + 0x100_0000 * b3
  }

  /** A word is made of its four bytes. */
  lemma FourBytes(w: Word)
    ensures w / 0x100_0000 < 0x100
    ensures w == w % 0x100 + 0x100 * (w / 0x100 % 0x100) + 0x1_0000 * (w / 0x1_0000 % 0x100)
                 + 0x100_0000 * (w / 0x100_0000)
  {
    assert w / 0x100 / 0x100 == w / 0x1_0000 && w / 0x1_0000 / 0x100 == w / 0x100_0000;
  }

  function PutWord(b: Block, i: nat, w: Word): (r: Block)
    requires i < WORDS
    ensures GetWord(r, i) == w
    ensures forall j :: 0 <= j < WORDS && j != i ==> GetWord(r, j) == GetWord(b, j)
  {
    FourBytes(w);
    b[4 * i := w % 0x100]
     [4 * i + 1 := w / 0x100 % 0x100]
     [4 * i + 2 := w / 0x1_0000 % 0x100]
     [4 * i + 3 := w / 0x100_0000]
  }

  lemma ZeroWord(i: nat)
    requires i < WORDS
    ensures GetWord(ZERO, i) == 0
  {}

  function Pow2(k: nat): (m: nat)
    ensures 1 <= m
  {
    if k == 0 then 1 else 2 * Pow2(k - 1)
  }

  /** `x & (1 << k)` is nonzero. */
  predicate NatBit(x: nat, k: nat) {
    if k == 0 then x % 2 == 1 else NatBit(x / 2, k - 1)
  }

  lemma {:induction false} NatBitAdd(x: nat, k: nat, j: nat, n: nat)
    requires k < n && x < Pow2(n) && !NatBit(x, k)
    ensures x + Pow2(k) < Pow2(n)
    ensures NatBit(x + Pow2(k), j) <==> j == k || NatBit(x, j)
  {
    if k == 0 {
      assert (x + 1) / 2 == x / 2;
    } else {
      assert (x + Pow2(k)) / 2 == x / 2 + Pow2(k - 1);
      NatBitAdd(x / 2, k - 1, if j == 0 then 0 else j - 1, n - 1);
    }
  }

  lemma {:induction false} NatBitSub(x: nat, k: nat, j: nat)
    requires NatBit(x, k)
    ensures Pow2(k) <= x
    ensures NatBit(x - Pow2(k), j) <==> j != k && NatBit(x, j)
  {
    if k == 0 {
      assert (x - 1) / 2 == x / 2;
    } else {
      NatBitSub(x / 2, k - 1, if j == 0 then 0 else j - 1);
      assert (x - Pow2(k)) / 2 == x / 2 - Pow2(k - 1);
    }
  }

  predicate GetBit(b: Block, k: nat)
    requires k < BITS
  {
    NatBit(b[k / 8], k % 8)
  }

  /** `b[k/8] |= 1 << (k % 8)` */
  function SetBit(b: Block, k: nat): (r: Block)
    requires k < BITS
    ensures forall j :: 0 <= j < BITS ==> (GetBit(r, j) <==> j == k || GetBit(b, j))
  {
    if GetBit(b, k) then b
    else
      NatBitAdd(b[k / 8], k % 8, 0, 8);
      var r: Block := b[k / 8 := b[k / 8] + Pow2(k % 8)];
      assert forall j :: 0 <= j < BITS ==> (GetBit(r, j) <==> j == k || GetBit(b, j)) by {
        forall j: nat | j < BITS ensures GetBit(r, j) <==> j == k || GetBit(b, j) {
          NatBitAdd(b[k / 8], k % 8, j % 8, 8);
        }
      }
      r
  }

  /** `b[k/8] &= ~(1 << (k % 8))` */
  function ClearBit(b: Block, k: nat): (r: Block)
    requires k < BITS
    ensures forall j :: 0 <= j < BITS ==> (GetBit(r, j) <==> j != k && GetBit(b, j))
  {
    if !GetBit(b, k) then b
    else
      NatBitSub(b[k / 8], k % 8, 0);
      var r: Block := b[k / 8 := b[k / 8] - Pow2(k % 8)];
      assert forall j :: 0 <= j < BITS ==> (GetBit(r, j) <==> j != k && GetBit(b, j)) by {
        forall j: nat | j < BITS ensures GetBit(r, j) <==> j != k && GetBit(b, j) {
          NatBitSub(b[k / 8], k % 8, j % 8);
        }
      }
      r
  }

  lemma ZeroBit(k: nat)
    requires k < BITS
    ensures !GetBit(ZERO, k)
  {
    NoBit(k % 8);
  }

  lemma NoBit(k: nat)
    ensures !NatBit(0, k)
  {
  }

  predicate IsZero(b: Block) {
    forall k {:trigger b[k]} :: 0 <= k < BSIZE ==> b[k] == 0
  }

  lemma ZeroIs(b: Block)
    ensures IsZero(b) <==> b == ZERO
  {
  }
}
