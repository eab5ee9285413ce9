# cevtib `BitVec` in Dafny

This project models `BitVec` from the Rust crate cevtib. It is a growable sequence of
booleans, packed one bit each into a heap buffer of `u64` blocks. The vector has three
pieces of state: the block buffer `store`, the number of blocks `num_stores`, and the
logical length `len`. The model proves that the bookkeeping and the bitwise addressing
behave as the crate promises:

- bit `i` lives in block `i / 64`, under the mask `1 << (i % 64)`;
- `len` never exceeds the capacity, which is a whole number of blocks;
- `get` and `set` respect the length, and `set_unchecked` touches exactly one bit;
- `push` and `pop` append and remove the last bit, doubling the buffer when it is full;
- resizing keeps the overlapping blocks and clamps the length.

Files:

- `blocks.dfy`, module `Blocks`: pure addressing. `store_size` (src/lib.rs:54-57) is the
  constant `StoreSize`, the bytes of a `u64` block times eight. The module holds the
  block index, the in-block offset and the mask, the single-block read and write
  (`TestBit`, `WriteBit` built from `|=` and `&= !`), and the view of a block buffer as a sequence of booleans (`View`).
  The lemmas here show that a write changes exactly one bit, and that the view depends
  only on the blocks that hold it.
- `bitvec.dfy`, module `Cevtib`: the class `BitVec` over an `array<bv64>`. Its fields are
  `store`, `numStores` and `len`. The invariant `Valid()` says the array holds exactly
  `numStores` blocks and `len <= numStores * 64`. The ghost function `Bits()` is the
  logical content, bits `0 .. len - 1`. The read-only operations are functions and the
  mutators are methods whose postconditions give the new `Bits()`, `len` and `numStores`
  in terms of the old ones. The one error, `Error::OutOfBounds` (src/lib.rs:32-35), is
  the datatype `Cevtib.Error`, returned by `Set` inside a `Result`. The function
  `StoresAfter` is the growth policy of `push` over any number of pushes. Its contract,
  proved by induction, says that the policy always leaves room for the pushed bits and
  doubles only when it must. Its lemmas, also proved by induction, show that pushes
  that fit never grow the buffer and that the policy composes.
- `scenarios.dfy`, module `Scenarios`: the crate's unit tests and its `no_std` example
  program, as methods whose postconditions are the values the tests assert.

`resize` accepts a zero-block result, and so does the model: the conversion of the new
block count with `try_into` at src/lib.rs:89-91 rejects only negative counts.

## Model

| member | source | states |
|---|---|---|
| `Blocks.BlockIndex` | src/lib.rs:70-79 | the block holding bit `i` is the one whose 64-bit range contains `i` |
| `Blocks.Offset` | src/lib.rs:82-84 | the position inside the block: `i` is 64 times its block index plus the offset |
| `Blocks.Mask` | src/lib.rs:81-85 | `lookup_mask` yields a block value with exactly one bit set |
| `Blocks.TestBitShift` | src/lib.rs:124-132 | the test `block & mask > 0` of `get_unchecked` reads the bit at position `i % 64` of the block, counted from the least significant end |
| `Blocks.SetBits` | src/lib.rs:149-152 | `\|= mask` sets every position of the mask and keeps every other position |
| `Blocks.ClearBits` | src/lib.rs:153-159 | `&= !mask` clears every position of the mask and keeps every other position |
| `Blocks.MaskedWrite` | src/lib.rs:149-159 | with a non-zero mask, either write makes the masked part test as the value written and keeps the rest of the block |
| `Blocks.WriteBit` | src/lib.rs:145-160 | the block after `set_unchecked`'s write: bit `i` reads back as the value written and all positions outside the mask are kept |
| `Blocks.WriteBitOther` | src/lib.rs:145-160 | the same write leaves every other position of the block unchanged |
| `Blocks.WriteAt` | src/lib.rs:145-160 | writing bit `i` of a buffer makes bit `i` read `v` and every other bit read as before |
| `Blocks.ExtendWriteReads` | src/lib.rs:172-184 | after growing and writing bit `i`, every other bit inside the old capacity reads as it did before the push |
| `Blocks.ViewWrite` | src/lib.rs:162-170 | writing bit `i` updates the logical content at `i` when `i < len` and leaves it unchanged otherwise |
| `Blocks.ViewAgree` | src/lib.rs:98-107 | buffers that agree on their first `k` blocks have the same bits below `k * 64`, so a resize keeps the bits it copies |
| `Blocks.ViewPrefix` | src/lib.rs:186-194 | the first `m` bits are a prefix of the first `n` bits, so lowering `len` drops exactly the last bits |
| `Blocks.ZeroBlocksReadFalse` | src/lib.rs:38-44 | every bit of a zeroed buffer reads `false` |
| `Cevtib.StoresAfter` | src/lib.rs:172-184 | the block count after `p` pushes, each doubling the blocks when the vector is full: never fewer blocks than before, always room for every pushed bit, and grown only when half the blocks would not have held them |
| `Cevtib.StoresAfterFits` | src/lib.rs:172-184 | pushes that fit in the current capacity never grow the buffer |
| `Cevtib.StoresAfterSplit` | src/lib.rs:172-184 | the block count after `p + q` pushes is that after `q` pushes from the state the first `p` leave |
| `Cevtib.BitVec.constructor` | src/lib.rs:38-52 | a new vector has two blocks, capacity 128 and length 0, and every bit in capacity reads `false` |
| `Cevtib.BitVec.Capacity` | src/lib.rs:54-62 | the capacity is `numStores` whole 64-bit blocks, equals what the buffer holds, and is at least `len` |
| `Cevtib.BitVec.Len` | src/lib.rs:64-67 | the length is the size of the logical content and never exceeds the capacity |
| `Cevtib.BitVec.LookupStore` | src/lib.rs:69-79 | for an index inside the capacity, the block index is a valid position of the buffer and covers the index |
| `Cevtib.BitVec.GetUnchecked` | src/lib.rs:124-132 | reads bit `index` of the buffer anywhere inside the capacity; inside the length it is the logical bit |
| `Cevtib.BitVec.Get` | src/lib.rs:134-141 | `Some` exactly when `index < len`, holding the logical bit (the `get_unchecked` value); `None` otherwise; no state change |
| `Cevtib.BitVec.Resize` | src/lib.rs:87-112 | requires `numStores + change >= 0`; sets `numStores` to that sum and clamps `len` to the new capacity; keeps the overlapping prefix of blocks; the new content is the old content cut to the new length |
| `Cevtib.BitVec.Grow` | src/lib.rs:114-117 | doubles `numStores` and keeps the length, the old blocks and the logical content |
| `Cevtib.BitVec.ShrinkBlocksBy` | src/lib.rs:119-122 | removes `n` blocks (requires at least `n` blocks), clamping the length and keeping the content below it |
| `Cevtib.BitVec.SetUnchecked` | src/lib.rs:143-160 | the buffer becomes the old buffer with bit `index` written; that bit reads `element`, every other bit in capacity and the length are unchanged |
| `Cevtib.BitVec.Set` | src/lib.rs:162-170 | `Err(OutOfBounds)` exactly when `index >= len`, and then nothing changes; otherwise `Ok` and the logical bit at `index` becomes `element`; the length never changes |
| `Cevtib.BitVec.Push` | src/lib.rs:172-184 | the content becomes the old content plus `val` and the length grows by one; `numStores` doubles exactly when the vector was full, which is one step of `StoresAfter`; the inner `set` provably succeeds; every other bit of the old capacity keeps its raw value, as `get_unchecked` sees it |
| `Cevtib.BitVec.Pop` | src/lib.rs:186-194 | on an empty vector returns `None` and changes nothing; otherwise returns the last logical bit and drops it from the content |
| `Scenarios.InitialState` | src/lib.rs:214-225 | a new vector has capacity 128, length 0, and bits 0 and 63 read `false` |
| `Scenarios.SetUncheckedScenario` | src/lib.rs:227-245 | after the test's unchecked writes, bits 63, 33 and 31 read `true`, and bits 0 and 32 read `false` |
| `Scenarios.SetScenario` | src/lib.rs:247-255 | after one push, `set(0, _)` succeeds and `set(63, _)` fails with `OutOfBounds` |
| `Scenarios.PushTrues` | src/lib.rs:258-264 | pushing `count` times `true` onto a new vector gives `count` true bits in `StoresAfter(2, 0, count)` blocks |
| `Scenarios.StoresAfter139` | src/lib.rs:257-275 | 139 pushes onto a new vector leave four blocks: 128 fit in the first two, the 129th doubles them |
| `Scenarios.ReadBack` | src/lib.rs:266-269 | `get(i)` for every `i` below the length returns the logical bit |
| `Scenarios.GrowScenario` | src/lib.rs:257-280 | after 139 pushes of `true`: every bit reads `Some(true)`, capacity 256 and length 139; after one more grow: capacity 512, length 139, `get(139) == None`, `get(138) == Some(true)` |
| `Scenarios.PopTimes` | src/lib.rs:305-314 | `count` pops return the last `count` logical bits, last first, and leave the prefix as the content |
| `Scenarios.PushTruesClear128` | src/lib.rs:283-300 | after 139 pushes of `true` and `set(128, false)`: four blocks, length 139, every `get` before the clear was `Some(true)`, and bit `k` reads `k != 128` |
| `Scenarios.ShrinkScenario` | src/lib.rs:282-320 | 139 pushes, bit 128 cleared, 100 pops that return `false` exactly for bit 128, then `shrink_blocks_by(2)` leaves capacity 128 and length 39 |
| `Scenarios.PushAlternating` | examples/no_std.rs:6-10 | any number of pushes of `i % 2 == 0` onto a new vector, across every growth, give length `count` and bit `k` equal to `k % 2 == 0` |
| `Scenarios.AlternatingScenario` | examples/no_std.rs:5-14 | ten pushes of `i % 2 == 0` read back as alternating bits: `get(2) == Some(true)` and `get(3) == Some(false)` |
| `Scenarios.PushThenGet` | src/lib.rs:172-184 | `get(len - 1)` right after `push(v)` returns `Some(v)` |
| `Scenarios.PushThenPop` | src/lib.rs:172-194 | `pop()` right after `push(v)` returns `Some(v)` and restores the length and the logical content |

## Left out

- Raw allocation is not modelled. This covers `alloc_zeroed`, `realloc`, `dealloc` in
  `Drop`, and the null-pointer panics. The buffer is a Dafny array, and a resize
  allocates a new array and copies the overlapping prefix. Allocation failure cannot be
  modelled.
- The crate's allocation sizes are not modelled. `new` asks for a layout of one `u64`
  but records two blocks (src/lib.rs:39-49). `realloc` is always told that the old
  allocation is one block (src/lib.rs:98-106). The model keeps the intended invariant
  `store.Length == numStores`, so it does not capture the out-of-bounds accesses these
  mismatches allow.
- Blocks added by growth are not assumed to be zero, because `realloc` does not zero
  them. Their content is left unconstrained.
- Cevtib.BitVec.Push: requires at least one block. A vector shrunk to zero blocks (for
  example `shrink_blocks_by(2)` on a new one) is outside what the Rust code handles:
  growing doubles zero blocks to zero, and the write of the pushed bit falls outside
  the buffer.
- Cevtib.BitVec.Resize: a zero-block result is admitted, as in the Rust code. Its
  `realloc` to zero bytes is outside the allocator's contract; the model gives an empty
  buffer.
- `usize` overflow of `len` and `num_stores * 64`, and `isize` overflow of
  `num_stores + change` or `-n`, are not modelled. The counts are unbounded naturals
  and integers.
- The block type is fixed to `u64`, as in the crate. The generic block-type interface
  and the `std`/`no_std` import switching (src/lib.rs:1-17) are left out.
- `lookup_store_mut` computes the same block index as `lookup_store`, so it is modelled
  by `Cevtib.BitVec.LookupStore`.
- examples/std.rs is left out. It prints to standard output and uses a generic
  `BitVec::<u8>` and a `Display` implementation that src/lib.rs does not define. Its
  push pattern is the one `Scenarios.AlternatingScenario` proves.
- The block iterator, the bit iterator and the `'0'`/`'1'` text rendering are not part of
  this model: src/lib.rs does not define them.
