/** A growable sequence of booleans packed one bit each into a buffer of
    64-bit blocks (`BitVec` of the cevtib crate).

    The buffer is an array of `bv64` that the vector owns; `numStores` is the
    number of blocks and `len` the number of logical bits. Bits at indices
    `len .. Capacity()` are addressable but carry no logical meaning. */
module Cevtib {
  import opened Blocks

  datatype Option<T> = None | Some(value: T)

  /** The one recoverable error of the vector. */
  datatype Error = OutOfBounds

  datatype Result<T> = Ok(value: T) | Err(error: Error)

  /** Number of blocks after `pushes` calls of `push` on a vector holding
      `len` bits in `stores` blocks: each push first doubles the blocks when
      the vector is full. The result covers every pushed bit, and growth is
      lazy: whenever the blocks grew, half of them would not have been
      enough. */
  function StoresAfter(stores: nat, len: nat, pushes: nat): (r: nat)
    requires stores > 0 && len <= stores * StoreSize
    ensures r >= stores && len + pushes <= r * StoreSize
    ensures r == stores || 2 * (len + pushes) > r * StoreSize
    decreases pushes
  {
    if pushes == 0 then stores
    else
      var next := if len >= stores * StoreSize then 2 * stores else stores;
      StoresAfter(next, len + 1, pushes - 1)
  }

  /** Pushes that fit in the current capacity never grow the buffer. */
  lemma {:induction false} StoresAfterFits(stores: nat, len: nat, pushes: nat)
    requires stores > 0 && len + pushes <= stores * StoreSize
    ensures StoresAfter(stores, len, pushes) == stores
    decreases pushes
  {
    if pushes > 0 {
      StoresAfterFits(stores, len + 1, pushes - 1);
    }
  }

  /** `p + q` pushes are `p` pushes followed by `q` more from the state the
      first `p` leave. */
  lemma {:induction false} StoresAfterSplit(stores: nat, len: nat, p: nat, q: nat)
    requires stores > 0 && len <= stores * StoreSize
    ensures StoresAfter(stores, len, p + q)
            == StoresAfter(StoresAfter(stores, len, p), len + p, q)
    decreases p
  {
    if p > 0 {
      var next := if len >= stores * StoreSize then 2 * stores else stores;
      StoresAfterSplit(next, len + 1, p - 1, q);
    }
  }

  class BitVec {
    /** The block buffer. */
    var store: array<bv64>
    /** Number of blocks in the buffer. */
    var numStores: nat
    /** Number of logical bits. */
    var len: nat

    /** The buffer holds exactly `numStores` blocks and the logical bits fit
        inside them. */
    ghost predicate Valid()
      reads this
    {
      store.Length == numStores && len <= numStores * StoreSize
    }

    /** The logical content: bits `0 .. len - 1` in index order. */
    ghost function Bits(): seq<bool>
      reads this, store
      requires Valid()
    {
      View(store[..], len)
    }

    /** A new, empty vector with two zeroed blocks. */
    constructor ()
      ensures Valid() && fresh(store)
      ensures numStores == 2 && len == 0 && Bits() == []
      ensures Capacity() == 128
      ensures forall i: nat :: i < Capacity() ==> !GetUnchecked(i)
    {
      // The allocation in the Rust code is sized for a single block while
      // two blocks are recorded; the model keeps the intended invariant
      // that the buffer holds exactly `numStores` blocks.
      store := new bv64[2](_ => 0);
      numStores := 2;
      len := 0;
      new;
      ZeroBlocksReadFalse(store[..]);
    }

    /** Number of addressable bits: always a whole number of blocks, exactly
        what the buffer holds, and never less than the length. */
    function Capacity(): (c: nat)
      reads this
      ensures c % StoreSize == 0 && c / StoreSize == numStores
      ensures Valid() ==> c == store.Length * StoreSize && len <= c
    {
      numStores * StoreSize
    }

    /** Number of logical bits, never more than the capacity. */
    function Len(): (n: nat)
      reads this, store
      ensures Valid() ==> n == |Bits()| && n <= Capacity()
    {
      len
    }

    /** Index of the block holding bit `index`; for an index inside the
        capacity it is a valid position of the buffer. */
    function LookupStore(index: nat): (k: nat)
      reads this
      requires Valid() && index < Capacity()
      ensures k < store.Length
      ensures k * StoreSize <= index < k * StoreSize + StoreSize
    {
      InCapacity(index, numStores);
      BlockIndex(index)
    }

    /** The bit at `index`, anywhere inside the capacity; inside the length
        it is the logical bit. */
    function GetUnchecked(index: nat): (b: bool)
      reads this, store
      requires Valid() && index < Capacity()
      ensures b == BitAt(store[..], index)
      ensures index < len ==> b == Bits()[index]
    {
      TestBit(store[LookupStore(index)], index)
    }

    /** The logical bit at `index`, or `None` past the length. */
    function Get(index: nat): (r: Option<bool>)
      reads this, store
      requires Valid()
      ensures r.Some? <==> index < len
      ensures r.Some? ==> r.value == Bits()[index] && r.value == GetUnchecked(index)
    {
      if index < Len() then Some(GetUnchecked(index)) else None
    }

    /** Changes the number of blocks by `change` (negative shrinks). The
        buffer is replaced by one of the new size holding the overlapping
        prefix of blocks; blocks added by growth hold unspecified values. A
        shrink below the length clamps the length to the new capacity. */
    method Resize(change: int)
      requires Valid()
      requires numStores + change >= 0
      modifies this
      ensures Valid() && fresh(store)
      ensures numStores == old(numStores) + change
      ensures len == if old(len) <= Capacity() then old(len) else Capacity()
      ensures var keep := if numStores < old(numStores) then numStores else old(numStores);
              store[..keep] == old(store[..])[..keep]
      ensures Bits() == old(Bits())[..len]
    {
      // The Rust code reallocates in place, passing a one-block layout whatever
      // the old size was, and does not zero blocks added by growth; here the
      // buffer is a new array whose added blocks are left unconstrained.
      ghost var before, oldLen := store[..], len;
      var n: nat := numStores + change;
      var keep := if n < numStores then n else numStores;
      var moved := new bv64[n];
      forall k | 0 <= k < keep {
        moved[k] := store[k];
      }
      numStores := n;
      if len > Capacity() {
        len := Capacity();
      }
      store := moved;
      assert store[..keep] == before[..keep];
      ViewAgree(store[..], before, keep, len);
      ViewPrefix(before, len, oldLen);
    }

    /** Doubles the number of blocks, keeping the logical content. */
    method Grow()
      requires Valid()
      modifies this
      ensures Valid() && fresh(store)
      ensures numStores == 2 * old(numStores) && len == old(len)
      ensures store[..old(numStores)] == old(store[..])
      ensures Bits() == old(Bits())
    {
      Resize(numStores);
    }

    /** Removes `n` blocks (a negative `n` adds blocks), clamping the
        length to the new capacity. */
    method ShrinkBlocksBy(n: int)
      requires Valid()
      requires numStores - n >= 0
      modifies this
      ensures Valid() && fresh(store)
      ensures numStores == old(numStores) - n
      ensures len == if old(len) <= Capacity() then old(len) else Capacity()
      ensures var keep := if numStores < old(numStores) then numStores else old(numStores);
              store[..keep] == old(store[..])[..keep]
      ensures Bits() == old(Bits())[..len]
    {
      Resize(-n);
    }

    /** Writes bit `index`, anywhere inside the capacity, leaving the length
        and every other bit unchanged. */
    method SetUnchecked(index: nat, element: bool)
      requires Valid() && index < Capacity()
      modifies store
      ensures Valid()
      ensures store[..] == Write(old(store[..]), index, element)
      ensures GetUnchecked(index) == element
      ensures forall j: nat :: j < Capacity() && j != index ==> GetUnchecked(j) == old(GetUnchecked(j))
      ensures Bits() == if index < len then old(Bits())[index := element] else old(Bits())
    {
      var k := LookupStore(index);
      var mask := Mask(index);
      if element {
        store[k] := SetBits(store[k], mask);
      } else {
        store[k] := ClearBits(store[k], mask);
      }
      WriteReads(old(store[..]), index, element);
      ViewWrite(old(store[..]), len, index, element);
      forall j: nat | j < Capacity()
        ensures GetUnchecked(j) == if j == index then element else old(GetUnchecked(j))
      {
        InCapacity(j, numStores);
      }
    }

    /** Writes bit `index` inside the length; past the length it fails
        with `OutOfBounds` and changes nothing. The length never grows. */
    method Set(index: nat, element: bool) returns (r: Result<()>)
      requires Valid()
      modifies store
      ensures Valid()
      ensures r == if index < len then Ok(()) else Err(OutOfBounds)
      ensures r.Ok? ==> store[..] == Write(old(store[..]), index, element)
      ensures r.Err? ==> store[..] == old(store[..])
      ensures Bits() == if index < len then old(Bits())[index := element] else old(Bits())
    {
      if index < Len() {
        SetUnchecked(index, element);
        r := Ok(());
      } else {
        r := Err(OutOfBounds);
      }
    }

    /** Appends `val`, doubling the number of blocks first when the vector
        is full. Requires at least one block: with none, doubling leaves the
        capacity at zero and the write would fall outside the buffer. */
    method Push(val: bool)
      requires Valid() && numStores > 0
      modifies this, store
      ensures Valid() && (store == old(store) || fresh(store))
      ensures len == old(len) + 1
      ensures Bits() == old(Bits()) + [val]
      ensures numStores == if old(len) >= old(Capacity()) then 2 * old(numStores) else old(numStores)
      ensures numStores == StoresAfter(old(numStores), old(len), 1)
      ensures forall j: nat :: j < old(Capacity()) && j != old(len) ==>
                GetUnchecked(j) == old(GetUnchecked(j))
    {
      ghost var before, oldBlocks := Bits(), store[..];
      if Len() >= Capacity() {
        Grow();
      }
      ghost var blocks := store[..];
      assert View(blocks, len) == before;
      len := len + 1;
      var index := len - 1;
      var r := Set(index, val);
      assert r.Ok?;
      ViewPrefix(blocks, index, len);
      assert blocks[..|oldBlocks|] == oldBlocks;
      ExtendWriteReads(oldBlocks, blocks, index, val);
    }

    /** Removes and returns the last logical bit, or `None` when empty. */
    method Pop() returns (r: Option<bool>)
      requires Valid()
      modifies this`len
      ensures Valid()
      ensures len == if old(len) == 0 then 0 else old(len) - 1
      ensures r == if old(len) == 0 then None else Some(old(Bits())[old(len) - 1])
      ensures Bits() == old(Bits())[..len]
    {
      if len > 0 {
        len := len - 1;
        r := Some(GetUnchecked(len));
        ViewPrefix(store[..], len, old(len));
      } else {
        r := None;
      }
    }
  }
}
