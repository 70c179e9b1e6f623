/** Bytes of a disk block, read as bits (the free map) and as little-endian 32-bit words (the
    entries of an indirect block). */
module Bytes {

  const BSIZE: nat := 512
  const NINDIRECT: nat := BSIZE / 4
  const WORD: nat := 0x1_0000_0000

  type byte = x: int | 0 <= x < 256
  type Block = seq<byte>

  /** `x & (1 << k)` is not zero. */
  predicate Bit(x: nat, k: nat) {
    if k == 0 then x % 2 == 1 else Bit(x / 2, k - 1)
  }

  /** `x | (1 << k)`. */
  function SetBit(x: nat, k: nat): (y: nat) {
    if k == 0 then x / 2 * 2 + 1 else SetBit(x / 2, k - 1) * 2 + x % 2
  }

  /** `x & ~(1 << k)`. */
  function ClearBit(x: nat, k: nat): (y: nat) {
    if k == 0 then x / 2 * 2 else ClearBit(x / 2, k - 1) * 2 + x % 2
  }

  lemma {:induction false} BitOfSet(x: nat, k: nat, j: nat)
    ensures Bit(SetBit(x, k), j) == (j == k || Bit(x, j))
  {
    if k > 0 && j > 0 {
      BitOfSet(x / 2, k - 1, j - 1);
      assert SetBit(x, k) / 2 == SetBit(x / 2, k - 1);
    }
  }

  lemma {:induction false} BitOfClear(x: nat, k: nat, j: nat)
    ensures Bit(ClearBit(x, k), j) == (j != k && Bit(x, j))
  {
    if k > 0 && j > 0 {
      BitOfClear(x / 2, k - 1, j - 1);
      assert ClearBit(x, k) / 2 == ClearBit(x / 2, k - 1);
    }
  }

  function Pow2(n: nat): (p: nat) {
    if n == 0 then 1 else 2 * Pow2(n - 1)
  }

  lemma {:induction false} MoreTimes(b: nat, d: nat, q: nat)
    requires d < q
    ensures b * d + b <= b * q
    decreases q
  {
    assert b * (q - 1) + b == b * q;
    if d < q - 1 { MoreTimes(b, d, q - 1); }
  }

  lemma Quotient(a: nat, b: nat, q: nat, r: nat)
    requires a == b * q + r && r < b
    ensures a / b == q
  {
    var d := a / b;
    assert a == b * d + a % b;
    if d < q { MoreTimes(b, d, q); }
    if d > q { MoreTimes(b, q, d); }
  }

  lemma HalfDiv(x: nat, p: nat)
    requires p > 0
    ensures x / (2 * p) == x / 2 / p
  {
    var h, q, r := x / 2, x / 2 / p, x / 2 % p;
    assert h == p * q + r;
    assert x == (2 * p) * q + (2 * r + x % 2);
    Quotient(x, 2 * p, q, 2 * r + x % 2);
  }

  lemma {:induction false} Pow2Positive(n: nat)
    ensures Pow2(n) > 0
  {
    if n > 0 { Pow2Positive(n - 1); }
  }

  /** Bit `k` is the one that counts for 2 to the power of `k`. */
  lemma {:induction false} BitIs(x: nat, k: nat)
    ensures Pow2(k) > 0 && (Bit(x, k) <==> x / Pow2(k) % 2 == 1)
  {
    Pow2Positive(k);
    if k > 0 {
      BitIs(x / 2, k - 1);
      HalfDiv(x, Pow2(k - 1));
    }
  }

  /** Setting and clearing a bit adds and takes away what it counts for, if that is not so already. */
  lemma {:induction false} SetAndClear(x: nat, k: nat)
    ensures SetBit(x, k) == if Bit(x, k) then x else x + Pow2(k)
    ensures ClearBit(x, k) == if Bit(x, k) then x - Pow2(k) else x
  {
    if k > 0 { SetAndClear(x / 2, k - 1); }
  }

  /** Setting or clearing one of the low `n` bits keeps a value within `n` bits. */
  lemma {:induction false} BitsFit(x: nat, k: nat, n: nat)
    requires x < Pow2(n) && k < n
    ensures SetBit(x, k) < Pow2(n) && ClearBit(x, k) < Pow2(n)
  {
    if k > 0 {
      BitsFit(x / 2, k - 1, n - 1);
    }
  }

  lemma ByteFits(x: byte, k: nat)
    requires k < 8
    ensures SetBit(x, k) < 256 && ClearBit(x, k) < 256
  {
    assert Pow2(8) == 256 by { assert Pow2(4) == 16; }
    BitsFit(x, k, 8);
  }

  // ---------------------------------------------------------------- words

  /** The j-th word of a block: `((uint*)data)[j]`. */
  function Word(b: Block, j: nat): (v: nat)
    requires |b| == BSIZE && j < NINDIRECT
    ensures v < WORD
  {
    MakeWord(b[4 * j], b[4 * j + 1], b[4 * j + 2], b[4 * j + 3])
  }

  function MakeWord(b0: int, b1: int, b2: int, b3: int): (v: int) {
    b0 + 0x100 * b1 + 0x1_0000 * b2 + 0x100_0000 * b3
  }

  /** The i-th byte of a word, least significant first. */
  function ByteOf(v: nat, i: nat): (b: byte)
    requires v < WORD && i < 4
  {
    if i == 0 then v % 256 else if i == 1 then v / 256 % 256 else if i == 2 then v / 65536 % 256 else v / 16777216
  }

  lemma BytesMakeWord(v: nat)
    requires v < WORD
    ensures MakeWord(ByteOf(v, 0), ByteOf(v, 1), ByteOf(v, 2), ByteOf(v, 3)) == v
  {
    assert v / 256 / 256 == v / 65536;
    assert v / 65536 / 256 == v / 16777216;
  }

  /** The block with its j-th word replaced. */
  function PutWord(b: Block, j: nat, v: nat): (r: Block)
    requires |b| == BSIZE && j < NINDIRECT && v < WORD
    ensures |r| == BSIZE
  {
    b[4 * j := ByteOf(v, 0)][4 * j + 1 := ByteOf(v, 1)][4 * j + 2 := ByteOf(v, 2)][4 * j + 3 := ByteOf(v, 3)]
  }

  /** The bytes of a stored word are its digits to the base 256, least significant first. */
  lemma BytesOfPut(b: Block, j: nat, v: nat, i: nat)
    requires |b| == BSIZE && j < NINDIRECT && v < WORD && i < 4
    ensures PutWord(b, j, v)[4 * j + i] == v / Pow256(i) % 256
  {
    assert v < 16777216 * 256;
  }

  function Pow256(i: nat): (p: nat)
    requires i < 4
    ensures p > 0
  {
    [1, 256, 65536, 16777216][i]
  }

  lemma WordOfPut(b: Block, j: nat, v: nat, i: nat)
    requires |b| == BSIZE && j < NINDIRECT && v < WORD && i < NINDIRECT
    ensures Word(PutWord(b, j, v), i) == if i == j then v else Word(b, i)
  {
    BytesMakeWord(v);
  }

  /** `memset(data, 0, BSIZE)`. */
  function ZeroBlock(): (b: Block)
    ensures |b| == BSIZE && forall i :: 0 <= i < BSIZE ==> b[i] == 0
  {
    seq(BSIZE, _ => 0)
  }

  lemma WordOfZero(j: nat)
    requires j < NINDIRECT
    ensures Word(ZeroBlock(), j) == 0
  {
  }
}
