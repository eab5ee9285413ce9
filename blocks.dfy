/** Addressing of a bit index inside a buffer of 64-bit blocks, and the
    logical view of such a buffer as a sequence of booleans.

    A bit index `i` lives in block `i / 64`, at the position selected by the
    mask `1 << (i % 64)`; a block holds the bit when `block & mask > 0`.
    Everything here is pure: the class in module Cevtib keeps the buffer in
    an array and uses these functions as the specification of its reads and
    writes. */
module Blocks {

  /** Size in bytes of one block (`u64`). */
  const BlockBytes: nat := 8

  /** Number of bits in one block (`store_size`). */
  const StoreSize: nat := BlockBytes * 8

  /** Index of the block that holds bit `i`. */
  function BlockIndex(i: nat): (k: nat)
    ensures k * StoreSize <= i < (k + 1) * StoreSize
  {
    i / StoreSize
  }

  /** Position of bit `i` inside its block. */
  function Offset(i: nat): (k: bv6)
    ensures BlockIndex(i) * StoreSize + k as nat == i
  {
    var r := i % StoreSize;
    assert (r as bv6) as nat == r;
    r as bv6
  }

  /** The mask selecting bit `i` inside its block (`lookup_mask`):
      a block value with exactly one bit set. */
  function Mask(i: nat): (m: bv64)
    ensures m != 0 && m & (m - 1) == 0
  {
    1 << Offset(i)
  }

  /** Does `block` hold a set bit at the position of bit index `i`? */
  predicate TestBit(block: bv64, i: nat)
  {
    block & Mask(i) > 0
  }

  /** The bit `TestBit` reads is the one at position `i % 64` counted from
      the least significant end of the block. */
  lemma TestBitShift(block: bv64, i: nat)
    ensures TestBit(block, i) <==> (block >> Offset(i)) & 1 == 1
  {
    var x := Offset(i);
    assert Mask(i) == 1 << x;
  }

  /** `block |= mask`: every position of the mask becomes set and every
      other position is kept. */
  function SetBits(block: bv64, mask: bv64): (r: bv64)
    ensures r & mask == mask
    ensures r & !mask == block & !mask
  {
    block | mask
  }

  /** `block &= !mask`: every position of the mask becomes clear and every
      other position is kept. */
  function ClearBits(block: bv64, mask: bv64): (r: bv64)
    ensures r & mask == 0
    ensures r & !mask == block & !mask
  {
    block & !mask
  }

  /** `block` with the position of bit index `i` set to `v` and every other
      position kept. */
  function WriteBit(block: bv64, i: nat, v: bool): (r: bv64)
    ensures TestBit(r, i) == v
    ensures ClearBits(r, Mask(i)) == ClearBits(block, Mask(i))
  {
    var m := Mask(i);
    MaskedWrite(block, m, v);
    if v then SetBits(block, m) else ClearBits(block, m)
  }

  /** Setting or clearing the positions of a non-zero mask: the masked part
      then tests as the value written, and the rest of the block is kept. */
  lemma MaskedWrite(block: bv64, m: bv64, v: bool)
    requires m != 0
    ensures var r := if v then SetBits(block, m) else ClearBits(block, m);
            (r & m > 0) == v && ClearBits(r, m) == ClearBits(block, m)
  {
  }

  /** Bit `i` of a buffer of blocks, for any `i` inside its capacity. */
  predicate BitAt(blocks: seq<bv64>, i: nat)
    requires BlockIndex(i) < |blocks|
  {
    TestBit(blocks[BlockIndex(i)], i)
  }

  /** The buffer with bit `i` set to `v`. */
  function Write(blocks: seq<bv64>, i: nat, v: bool): seq<bv64>
    requires BlockIndex(i) < |blocks|
  {
    blocks[BlockIndex(i) := WriteBit(blocks[BlockIndex(i)], i, v)]
  }

  /** Every bit index below the capacity of `count` blocks addresses one of
      those blocks, and no bit index at or above it does. */
  lemma InCapacity(i: nat, count: nat)
    ensures i < count * StoreSize <==> BlockIndex(i) < count
  {
  }

  /** Two bit indices with the same block and the same position are equal. */
  lemma AddressInjective(i: nat, j: nat)
    requires BlockIndex(i) == BlockIndex(j) && Offset(i) == Offset(j)
    ensures i == j
  {
  }

  /** Setting or clearing the single position `x` of a block leaves the
      position `y != x` as it was. */
  lemma ShiftedWrite(block: bv64, x: bv6, y: bv6, v: bool)
    requires x != y
    ensures ((if v then SetBits(block, 1 << x) else ClearBits(block, 1 << x)) & (1 << y) > 0)
            == (block & (1 << y) > 0)
  {
  }

  /** Writing a bit leaves every other position of the block as it was. */
  lemma WriteBitOther(block: bv64, i: nat, j: nat, v: bool)
    requires Offset(i) != Offset(j)
    ensures TestBit(WriteBit(block, i, v), j) == TestBit(block, j)
  {
    var x, y := Offset(i), Offset(j);
    assert Mask(i) == 1 << x && Mask(j) == 1 << y;
    ShiftedWrite(block, x, y, v);
  }

  /** After writing bit `i` of a buffer, bit `i` reads `v` and every other
      bit reads as before. */
  lemma WriteAt(blocks: seq<bv64>, i: nat, v: bool, j: nat)
    requires BlockIndex(i) < |blocks| && BlockIndex(j) < |blocks|
    ensures |Write(blocks, i, v)| == |blocks|
    ensures BitAt(Write(blocks, i, v), j) == if j == i then v else BitAt(blocks, j)
  {
    if j == i {
    } else if BlockIndex(j) == BlockIndex(i) {
      if Offset(i) == Offset(j) {
        AddressInjective(i, j);
      }
      WriteBitOther(blocks[BlockIndex(i)], i, j, v);
    }
  }

  /** `WriteAt` for every bit of the buffer at once. */
  lemma WriteReads(blocks: seq<bv64>, i: nat, v: bool)
    requires BlockIndex(i) < |blocks|
    ensures |Write(blocks, i, v)| == |blocks|
    ensures forall j: nat :: BlockIndex(j) < |blocks| ==>
              BitAt(Write(blocks, i, v), j) == if j == i then v else BitAt(blocks, j)
  {
    forall j: nat | BlockIndex(j) < |blocks|
      ensures BitAt(Write(blocks, i, v), j) == if j == i then v else BitAt(blocks, j)
    {
      WriteAt(blocks, i, v, j);
    }
  }

  /** Writing bit `i` of a buffer that extends `a` leaves every other bit
      inside the capacity of `a` as `a` has it. */
  lemma ExtendWriteReads(a: seq<bv64>, b: seq<bv64>, i: nat, v: bool)
    requires |a| <= |b| && b[..|a|] == a && BlockIndex(i) < |b|
    ensures forall j: nat :: j < |a| * StoreSize && j != i ==>
              BlockIndex(j) < |b| && BitAt(Write(b, i, v), j) == BitAt(a, j)
  {
    forall j: nat | j < |a| * StoreSize && j != i
      ensures BlockIndex(j) < |b| && BitAt(Write(b, i, v), j) == BitAt(a, j)
    {
      InCapacity(j, |a|);
      WriteAt(b, i, v, j);
      assert b[BlockIndex(j)] == b[..|a|][BlockIndex(j)];
    }
  }

  /** The first `n` bits of a buffer, as booleans in index order. */
  ghost function View(blocks: seq<bv64>, n: nat): (r: seq<bool>)
    requires n <= |blocks| * StoreSize
  {
    seq(n, i requires 0 <= i < n => InCapacity(i, |blocks|); BitAt(blocks, i))
  }

  /** Writing bit `i` updates the logical view at `i` when `i` is inside it
      and leaves the view unchanged otherwise. */
  lemma ViewWrite(blocks: seq<bv64>, n: nat, i: nat, v: bool)
    requires n <= |blocks| * StoreSize && BlockIndex(i) < |blocks|
    ensures |Write(blocks, i, v)| == |blocks|
    ensures View(Write(blocks, i, v), n)
            == if i < n then View(blocks, n)[i := v] else View(blocks, n)
  {
    var after := Write(blocks, i, v);
    forall j | 0 <= j < n
      ensures View(after, n)[j] == if j == i then v else View(blocks, n)[j]
    {
      InCapacity(j, |blocks|);
      WriteAt(blocks, i, v, j);
    }
  }

  /** The view of the first `n` bits depends only on the blocks that hold
      them: two buffers that agree on their first `k` blocks agree on every
      bit below `k * 64`. */
  lemma ViewAgree(a: seq<bv64>, b: seq<bv64>, k: nat, n: nat)
    requires k <= |a| && k <= |b| && a[..k] == b[..k]
    requires n <= k * StoreSize
    ensures View(a, n) == View(b, n)
  {
    forall j | 0 <= j < n
      ensures View(a, n)[j] == View(b, n)[j]
    {
      InCapacity(j, k);
      assert a[BlockIndex(j)] == a[..k][BlockIndex(j)] == b[..k][BlockIndex(j)];
    }
  }

  /** A shorter view is a prefix of a longer one. */
  lemma ViewPrefix(blocks: seq<bv64>, m: nat, n: nat)
    requires m <= n <= |blocks| * StoreSize
    ensures View(blocks, m) == View(blocks, n)[..m]
  {
  }

  /** Every bit of a buffer of zero blocks reads `false`. */
  lemma ZeroBlocksReadFalse(blocks: seq<bv64>)
    requires forall k :: 0 <= k < |blocks| ==> blocks[k] == 0
    ensures forall i: nat :: i < |blocks| * StoreSize ==> !BitAt(blocks, i)
  {
    forall i: nat | i < |blocks| * StoreSize
      ensures !BitAt(blocks, i)
    {
      InCapacity(i, |blocks|);
    }
  }
}
