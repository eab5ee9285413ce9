/** The crate's unit tests and its example program, as methods whose
    postconditions are the values the tests expect. */
module Scenarios {
  import opened Blocks
  import opened Cevtib

  /** A new vector has capacity 128 and reads `false` at bits 0 and 63. */
  method InitialState() returns (cap: nat, len: nat, first: bool, last: bool)
    ensures cap == 128 && len == 0
    ensures !first && !last
  {
    var b := new BitVec();
    cap := b.Capacity();
    len := b.Len();
    first := b.GetUnchecked(0);
    last := b.GetUnchecked(63);
  }

  /** Unchecked writes inside the capacity: the last write to a bit wins and
      untouched bits keep their initial `false`. */
  method SetUncheckedScenario() returns (b0: bool, b63: bool, b33: bool, b31: bool, b32: bool)
    ensures !b0 && b63 && b33 && b31 && !b32
  {
    var b := new BitVec();
    b.SetUnchecked(63, true);
    b.SetUnchecked(33, true);
    b.SetUnchecked(31, true);
    b.SetUnchecked(32, true);
    b.SetUnchecked(32, false);
    b0 := b.GetUnchecked(0);
    b63 := b.GetUnchecked(63);
    b33 := b.GetUnchecked(33);
    b31 := b.GetUnchecked(31);
    b32 := b.GetUnchecked(32);
  }

  /** After one push, `set` succeeds inside the length and fails with
      `OutOfBounds` past it, even though bit 63 is inside the capacity. */
  method SetScenario() returns (r1: Result<()>, r2: Result<()>)
    ensures r1 == Ok(())
    ensures r2 == Err(OutOfBounds)
  {
    var b := new BitVec();
    b.Push(true);
    r1 := b.Set(0, false);
    r2 := b.Set(63, true);
  }

  /** Pushes `count` copies of `true` onto a new vector. */
  method PushTrues(count: nat) returns (b: BitVec)
    ensures fresh(b) && fresh(b.store) && b.Valid()
    ensures b.len == count && b.Bits() == seq(count, _ => true)
    ensures b.numStores == StoresAfter(2, 0, count)
  {
    b := new BitVec();
    var i := 0;
    while i < count
      invariant 0 <= i <= count
      invariant fresh(b) && fresh(b.store) && b.Valid()
      invariant b.len == i && b.Bits() == seq(i, _ => true)
      invariant b.numStores == StoresAfter(2, 0, i)
    {
      StoresAfterSplit(2, 0, i, 1);
      b.Push(true);
      i := i + 1;
    }
  }

  /** Reads back bits `0 .. count - 1` with `get`. */
  method ReadBack(b: BitVec, count: nat) returns (vals: seq<Option<bool>>)
    requires b.Valid() && count <= b.len
    ensures |vals| == count
    ensures forall i :: 0 <= i < count ==> vals[i] == Some(b.Bits()[i])
  {
    vals := [];
    for i := 0 to count
      invariant |vals| == i
      invariant forall k :: 0 <= k < i ==> vals[k] == Some(b.Bits()[k])
    {
      vals := vals + [b.Get(i)];
    }
  }

  /** 139 pushes onto a new vector leave four blocks: the first 128 fit in
      the initial two, the 129th doubles them, and the rest fit. */
  lemma StoresAfter139()
    ensures StoresAfter(2, 0, 139) == 4
  {
    StoresAfterSplit(2, 0, 128, 11);
    StoresAfterFits(2, 0, 128);
    StoresAfterFits(4, 129, 10);
  }

  /** 139 pushes of `true` grow two blocks to four; growing once more
      doubles again and keeps the length and the bits. */
  method GrowScenario() returns (vals: seq<Option<bool>>, cap1: nat, len1: nat,
                                 cap2: nat, len2: nat, past: Option<bool>, lastBit: Option<bool>)
    ensures vals == seq(139, _ => Some(true))
    ensures cap1 == 256 && len1 == 139
    ensures cap2 == 512 && len2 == 139
    ensures past == None && lastBit == Some(true)
  {
    var b := PushTrues(139);
    StoresAfter139();
    vals := ReadBack(b, 139);
    cap1, len1 := b.Capacity(), b.Len();
    b.Grow();
    cap2, len2 := b.Capacity(), b.Len();
    past := b.Get(139);
    lastBit := b.Get(138);
  }

  /** Pops `count` bits, returning them in the order they come off. */
  method PopTimes(b: BitVec, count: nat) returns (popped: seq<Option<bool>>)
    requires b.Valid() && count <= b.len
    modifies b`len
    ensures b.Valid() && b.len == old(b.len) - count
    ensures b.Bits() == old(b.Bits())[..b.len]
    ensures |popped| == count
    ensures forall i :: 0 <= i < count ==> popped[i] == Some(old(b.Bits())[old(b.len) - 1 - i])
  {
    ghost var content, n := b.Bits(), b.len;
    popped := [];
    for i := 0 to count
      invariant b.Valid() && b.len == n - i
      invariant b.Bits() == content[..b.len]
      invariant |popped| == i
      invariant forall k :: 0 <= k < i ==> popped[k] == Some(content[n - 1 - k])
    {
      var v := b.Pop();
      assert v == Some(content[n - 1 - i]);
      popped := popped + [v];
    }
  }

  /** The set-up of the shrink test: 139 pushes of `true`, read back with
      `get`, then bit 128 cleared with `set`. */
  method PushTruesClear128() returns (b: BitVec, vals: seq<Option<bool>>)
    ensures fresh(b) && fresh(b.store) && b.Valid()
    ensures b.numStores == 4 && b.len == 139
    ensures vals == seq(139, _ => Some(true))
    ensures forall k :: 0 <= k < 139 ==> b.Bits()[k] == (k != 128)
  {
    b := PushTrues(139);
    assert b.numStores == 4 by { StoresAfter139(); }
    vals := ReadBack(b, 139);
    var _ := b.Set(128, false);
  }

  /** 139 pushes of `true`, bit 128 cleared, 100 pops (each returning the
      bit it removes, `false` exactly for bit 128), then two blocks removed:
      capacity 128 and 39 bits remain. */
  method ShrinkScenario() returns (vals: seq<Option<bool>>, popped: seq<Option<bool>>, cap: nat, len: nat)
    ensures vals == seq(139, _ => Some(true))
    ensures popped == seq(100, i => if 139 - i - 1 == 128 then Some(false) else Some(true))
    ensures cap == 128 && len == 39
  {
    var b;
    b, vals := PushTruesClear128();
    popped := PopTimes(b, 100);
    b.ShrinkBlocksBy(2);
    cap, len := b.Capacity(), b.Len();
  }

  /** Pushes `i % 2 == 0` for `i` in `0 .. count - 1` onto a new vector. */
  method PushAlternating(count: nat) returns (b: BitVec)
    ensures fresh(b) && b.Valid() && b.len == count
    ensures forall k :: 0 <= k < count ==> b.Bits()[k] == (k % 2 == 0)
  {
    b := new BitVec();
    for i := 0 to count
      invariant fresh(b.store) && b.Valid() && b.numStores > 0
      invariant b.len == i
      invariant forall k :: 0 <= k < i ==> b.Bits()[k] == (k % 2 == 0)
    {
      b.Push(i % 2 == 0);
    }
  }

  /** The example program: ten pushes of `i % 2 == 0` read back as
      alternating bits. */
  method AlternatingScenario() returns (at2: Option<bool>, at3: Option<bool>, vals: seq<Option<bool>>)
    ensures at2 == Some(true) && at3 == Some(false)
    ensures vals == seq(10, i => Some(i % 2 == 0))
  {
    var b := PushAlternating(10);
    at2 := b.Get(2);
    at3 := b.Get(3);
    vals := ReadBack(b, 10);
  }

  /** `get` of the last index right after `push(v)` returns `v`. */
  method PushThenGet(b: BitVec, v: bool) returns (r: Option<bool>)
    requires b.Valid() && b.numStores > 0
    modifies b, b.store
    ensures b.Valid()
    ensures b.len == old(b.len) + 1 && r == Some(v)
  {
    b.Push(v);
    r := b.Get(b.Len() - 1);
  }

  /** `pop` right after `push(v)` returns `v` and restores the length and
      the logical content. */
  method PushThenPop(b: BitVec, v: bool) returns (r: Option<bool>)
    requires b.Valid() && b.numStores > 0
    modifies b, b.store
    ensures b.Valid()
    ensures r == Some(v)
    ensures b.len == old(b.len) && b.Bits() == old(b.Bits())
  {
    b.Push(v);
    r := b.Pop();
  }
}
