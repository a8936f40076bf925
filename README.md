# gridLock bg64: the piece generator and piece queue

gridLock is a block-placement puzzle. Its "bg64" core keeps the whole game in
one 256-byte, cache-aligned `GameState` record, which is carved out of a bump
arena. The record holds a 64-slot ring buffer of composite piece bytes: the
shape id is in the high nibble and the color id in the low nibble. A
pseudo-random generator keeps that queue topped up, and a fresh game deals its
first three pieces from it.

This project models that core in Dafny and proves what the code promises. It
covers two builds of the same core:

- **The current build** (`bg64.c`, `bg64.h`) is in modules `Bg64Header` and `Bg64`.
  - An xorshift64 generator seeded from the clock.
  - The queue inside the record.
  - `fill_queue`.
  - The fresh-state branch of `GameState_Initialization`.
  - `GameState_Allocation`.
  - The shape table, decoders and record layout.
- **The older build** (`bg64_queue.c`, `bg64_state.c`, with types from
  `bg64_state.h`) is in modules `Bg64State` and `Bg64Queue`.
  - A standalone `ring_buffer` struct.
  - A piece generator driven by two `rand()` results.
  - A batch consumer written as a post-test loop.
  - An arena whose base may be null.

The two builds declare conflicting functions, so they are separate modules. Both
share module `Machine`, which holds:
- the C `u8` wrap-around at 256;
- the `& 63` slot mask;
- the nibble packing;
- the 64-byte rounding `(offset + 63) & ~63`.

`Machine` also holds the lemmas showing that wrapping at 256 and then masking
names the right slot, because 256 is a multiple of 64.

How the model is built:

- **Queue.** Both queues are classes. Their counter and two `u8` indices are
  fields, and their slots are an `array`. Each queue has a `Valid()` predicate:
  `counter <= 64` and `write == read + counter` in `u8` arithmetic, which is the
  same as `counter == (write - read) mod 256`. `Contents()` is the queued bytes,
  oldest first. Every mutator is specified exactly on the fields and slots it
  changes, and also as an operation on `Contents()`:
  - produce appends;
  - consume and the batch consumer drop a prefix and return it.

  This is the FIFO property.
- **Generator.** The seed is a `bv64`, so the xorshift step is bit-exact.
  `generate_composite_byte` is a function from the old seed to the new seed and
  the byte. The "seed walk" `Walk(seed, n)` is the sequence of the next `n`
  pieces, and `fill_queue` is proved to append exactly its first
  `64 - counter` entries.
- **Record.** Nested C structs are datatypes held in class fields. The deck
  bytes, the active flags and the queue storage are arrays, because the code
  writes them through pointers.
- **Inputs.** The clock reading and the `rand()` results are parameters.

## Model

| member | source | states |
|---|---|---|
| Machine.WrapIsMod | bg64.c:138-139 | `u8 ++` / `+=` on two `u8` operands, written as the exact sum less 256 past the top, is the sum modulo 256 |
| Machine.SlotIsMask | bg64.c:138 | masking a `u8` index with `& 63` is its remainder modulo 64, the slot it names |
| Machine.SlotOfWrap | bg64.c:150 | wrapping an index at 256 does not change the slot it names |
| Machine.WrapAdd | bg64_queue.c:61 | advancing a wrapped index one step at a time is the same as advancing it once by the total |
| Machine.Compose | bg64.c:207-211 | the packed byte's high nibble is the shape's low four bits and its low nibble the color's; it is zero exactly when both nibbles are zero |
| Machine.ComposeIsBitPacking | bg64.c:207-211 | `((shape & 0x0F) << 4) \| (color & 0x0F)` on 8-bit values equals the packing |
| Machine.QueueIndicesModular | bg64.h:92-95 | the queue invariant `counter <= 64 && write == read + counter (u8)` holds if and only if `counter <= 64 && counter == (write - read) mod 256` |
| Machine.ProduceKeepsIndices | bg64.c:136-139 | one more byte with the write index one step on keeps the invariant when the queue is not full |
| Machine.ConsumeKeepsIndices | bg64.c:150-151 | `n <= counter` fewer bytes with the read index `n` on keeps the invariant |
| Machine.WriteSlotIsFree | bg64.c:138 | on a queue that is not full, the slot named by the write index holds no queued byte |
| Machine.WindowAfterProduce | bg64.c:136-141 | storing at the write slot of a queue that is not full appends the byte to the queued window and moves no queued byte |
| Machine.WindowAfterConsume | bg64.c:148-153 | advancing the read index by `n` and lowering the counter by `n` drops exactly the `n` oldest bytes |
| Machine.WindowPrefix | bg64.c:164-168 | the first `n` queued bytes are the window of length `n` at the read index |
| Machine.WindowAfterBatch | bg64.c:164-172 | taking the `n <= counter` oldest bytes keeps the invariant, takes exactly the first `n` queued bytes and leaves the rest queued in order |
| Machine.AlignUp | bg64.c:39 | the rounded offset is a multiple of 64, is at least the offset, and is less than the offset plus 64 |
| Machine.AlignMaskIsRoundUp | bg64_state.c:38 | on a 64-bit `usize`, `(offset + 63) & ~63` equals the rounding, as long as the sum does not wrap |
| Machine.AlignUpIsLeast | bg64_state.c:38 | no multiple of 64 lies between an offset and its rounding: the rounding is the least such multiple |
| Machine.AlignUpOfAligned | bg64.c:39 | an offset already on a 64-byte boundary is left where it is |
| Bg64Header.GetShape | bg64.h:174 | `GET_SHAPE` is the high nibble, below 16 |
| Bg64Header.GetColor | bg64.h:175 | `GET_COLOR` is the low nibble, below 16 |
| Bg64Header.DecodersAreBitMasks | bg64.h:174-175 | `(b >> 4) & 0x0F` and `b & 0x0F` on 8-bit values equal the two decoders |
| Bg64Header.DecodeCompose | bg64.h:174-175 | the decoders recover every shape and color in 0..15 that was packed |
| Bg64Header.ComposeDecode | bg64.h:174-175 | every byte is the packing of its two decoded nibbles |
| Bg64Header.GameStateIsFourCacheLines | bg64.h:47-112 | grid, session and utility lines are 64 bytes each, and with the 64 queue bytes the record is 256 bytes, a multiple of 64 |
| Bg64Header.ShapeLibraryLayout | bg64.h:123-164 | the table has 16 entries: entry 0 is void, ids 1..10 are nonzero, ids 11..15 are zero, and every shape nibble indexes it |
| Bg64Header.ShapesFitFootprint | bg64.h:126-163 | every mask lies in rows 0..3, columns 0..3 of the MSB-first board |
| Bg64Header.ShapesMatchDrawings | bg64.h:126-163 | every mask is, row by row and cell by cell, the picture drawn beside it |
| Bg64Header.DrawingCellCounts | bg64.h:126-163 | the drawings have 1, 2, 3, 4, 4, 4, 5, 9, 4, 6 cells for ids 1..10 and none otherwise |
| Bg64Header.ShapeCellCounts | bg64.h:126-163 | the number of set bits of each mask is the cell count of its drawing |
| Bg64Header.ShapeHasCells | bg64.h:171 | every shape id 1..`SHAPE_OPTIONS` names a nonzero mask with at least one cell |
| Bg64.Xorshift | bg64.c:183-192 | the 13/7/17 xorshift step on 64 bits gives zero exactly when the seed is zero |
| Bg64.XorshiftOfOne | bg64.c:186-189 | the step maps 1 to `0x40822041`, which fixes the three shift directions |
| Bg64.ShapeId | bg64.c:202 | `(r % SHAPE_OPTIONS) + 1` is a shape id in 1..10 |
| Bg64.ColorId | bg64.c:203 | `((r >> 32) % COLOR_OPTIONS) + 1` is a color id in 1..3 |
| Bg64.PieceDecodes | bg64.c:200-211 | the byte drawn from the new seed decodes to that seed's shape and color ids, in 1..10 and 1..3, and is never 0 |
| Bg64.AllPiecesValid | bg64.c:195-212 | every seed draws a piece that decodes to that seed's ids, with a shape in 1..10 and a color in 1..3 |
| Bg64.GenerateCompositeByte | bg64.c:195-212 | the seed it stores back is the seed after exactly one xorshift step, and the byte it returns is the piece drawn from that new seed |
| Bg64.GeneratedPieceDecodes | bg64.c:200-211 | the returned byte's high nibble is the stored seed's shape id `(r % 10) + 1`, its low nibble that seed's color id `((r >> 32) % 3) + 1`, so a shape in 1..10, a color in 1..3, and the byte is never 0 |
| Bg64.GenerateAdvancesOnce | bg64.c:200 | the byte `generate_composite_byte` returns is the first piece of the seed walk |
| Bg64.SeedAfterNonzero | bg64.c:63-64 | a seed walk reaches zero only if it starts at zero, so the nonzero start keeps the generator off its fixed point |
| Bg64.SeedAfterAdd | bg64.c:225-226 | `m` steps of the seed and then `n` more are `m + n` steps |
| Bg64.WalkSplit | bg64.c:225-232 | the first `m + n` pieces of the walk are the first `m` followed by the walk resumed from the seed reached after `m` |
| Bg64.WalkStep | bg64.c:226 | one more draw appends the byte `generate_composite_byte` returns and stores the seed it writes back |
| Bg64.WalkPiecesValid | bg64.c:225-232 | every queued piece of a walk has a shape in 1..10 and a color in 1..3 |
| Bg64.PieceShapeIsInLibrary | bg64.c:202 | a generated piece's shape nibble names a nonzero library mask with at least one cell |
| Bg64.InitialSeed | bg64.c:63-64 | a fresh seed is the clock reading, or `0xFEED` when that is zero, and is never zero |
| Bg64.PieceColorIsPainted | bg64.c:67-70 | a generated piece's color id indexes one of the opaque entries 1..3 that initialisation paints |
| Bg64.GameState.constructor | bg64.c:22 | a record from the zeroed arena: every field and array zero, so the queue is valid and empty |
| Bg64.GameState.Produce | bg64.c:133-142 | full counter: returns false and changes nothing; otherwise stores at slot `write & 63`, leaves every other slot alone, advances the write index and counter, keeps the invariant and appends to the queue |
| Bg64.GameState.Consume | bg64.c:145-154 | empty: returns 0 and changes nothing; otherwise returns the byte at slot `read & 63`, advances the read index, lowers the counter, keeps the invariant and removes the oldest byte |
| Bg64.GameState.ConsumeBatch | bg64.c:157-173 | returns `min(counter, max)` (0 with no change when either is 0); the batch prefix is the oldest bytes in order and the rest of the batch is untouched; the read index advances by that many, the write index and the slots stay; the invariant holds and the queue loses exactly that prefix |
| Bg64.GameState.DataAvailable | bg64.c:176-180 | returns the counter, which is the queue length, and changes nothing |
| Bg64.GameState.FillQueue | bg64.c:215-233 | on a valid queue: ends with 64 queued, the queue becoming the old queue followed by the next `64 - counter` pieces of the seed walk; the seed advanced exactly that many times; read index unchanged; the overflow branch is unreachable |
| Bg64.GameState.Wipe | bg64.c:58 | afterwards every field and array of the record is zero |
| Bg64.GameState.SetFreshDefaults | bg64.c:60-74 | on a wiped record: magic "GLK!", version 1, seed from the clock (never zero), the four palette colors, no drag slot, screen 0 |
| Bg64.GameState.DealDeck | bg64.c:80-83 | moves `min(counter, 3)` oldest pieces into the deck in order, marks those slots active and leaves the other flags alone; the queue loses them |
| Bg64.GameState.InitializeFresh | bg64.c:56-84 | a fresh game: the 64 queue slots hold the first 64 pieces of the walk from the initial seed, the first three of them dealt into the deck, all three active, the other 61 still queued, with write index 64 and read index 3; the seed has advanced 64 times |
| Bg64.Arena.constructor | bg64.c:25-29 | the arena over a non-null, 64-byte-aligned block: the requested size and offset 0 |
| Bg64.Arena.GameStateAllocation | bg64.c:35-48 | the record is placed at `base` plus the rounded offset, on a cache line, and the offset moves past its 256 bytes within the 64-bit arena; the fit the caller guarantees keeps `offset + 63` from wrapping |
| Bg64.SuccessiveAllocationsDisjoint | bg64.c:39-45 | the second of two allocations starts exactly where the first ends, both on cache lines |
| Bg64State.PaletteLayout | bg64_state.h:51-57 | the 16-entry palette has void at 0, opaque colors at ids 1..3 and zero entries after |
| Bg64State.GameStateIsFourCacheLines | bg64_state.h:113-177 | grid 64, user data 16, deck slots 16 each, queue 128: the record is 256 bytes |
| Bg64State.Arena.constructor | bg64_state.c:25-29 | the arena over the block (possibly null): the requested size and offset 0 |
| Bg64State.Arena.GameStateInitialization | bg64_state.c:35-47 | the record is placed at `base` plus the rounded offset (on a cache line when the base is), and the offset moves past its 256 bytes within the 64-bit arena; base and size stay, and `offset + 63` does not wrap |
| Bg64State.SuccessiveRecordsDisjoint | bg64_state.c:38-46 | two successive records lie on cache lines and the second starts exactly where the first ends |
| Bg64Queue.GenerateCompositeByte | bg64_queue.c:14-27 | for any two `rand()` results, the shape nibble is in 1..`SHAPE_LIB_SIZE` = 10, the color nibble in 1..`PALETTE_SIZE` = 3, and the byte is nonzero |
| Bg64Queue.EveryPieceIsDrawn | bg64_queue.c:17-26 | every shape id 1..10 and color id 1..3 is drawn by some pair of results and decodes back exactly |
| Bg64Queue.DrawnColorIsPainted | bg64_queue.c:18 | a drawn color indexes an opaque, painted palette entry |
| Bg64Queue.RingBuffer.constructor | bg64_state.h:113-125 | the queue in a zeroed record: counter and indices zero, slots zero, valid and empty |
| Bg64Queue.RingBuffer.Produce | bg64_queue.c:29-37 | full counter: returns false and changes nothing; otherwise stores at slot `write & 63`, advances index and counter, keeps the invariant and appends |
| Bg64Queue.RingBuffer.Consume | bg64_queue.c:40-48 | empty: returns 0 and changes nothing; otherwise returns the oldest byte, advances the read index, lowers the counter and keeps the invariant |
| Bg64Queue.RingBuffer.ConsumeBatch | bg64_queue.c:51-71 | returns `min(counter, max)` (0 with no change when either is 0); the post-test loop copies exactly that many of the oldest bytes in order, reads no slot past them and writes no batch element past them; the invariant holds and the queue loses that prefix |
| Bg64Queue.RingBuffer.DataAvailable | bg64_queue.c:74-77 | returns the counter, which is the queue length, and changes nothing |

## Left out

- `save_state` and `load_state` (bg64.c:93-126, bg64_state.c:53-79) are file I/O. The load-from-file branch of `GameState_Initialization` (bg64.c:54-55) depends on them, so only the fresh-state branch is modelled.
- `aligned_alloc`, `memset` and `exit` are foreign calls.
  - The block is an address parameter. The arena constructors say that it is on a 64-byte boundary.
  - The current build's block is also non-null, because a failed allocation ends the program.
  - A new record is zeroed because the arena is.
- Neither allocator checks that the record fits in the arena. The allocation methods require it of their caller.
- Bg64State.Arena.constructor: a failed allocation in the older build is the null base 0. Its arena still reports the requested size, as the code does. Nothing in the model stops a record being handed out from such an arena.
- `time(NULL)` becomes the parameter `now` of `InitializeFresh`. The two `rand()` results become the parameters of `Bg64Queue.GenerateCompositeByte`. `rand()` itself is not modelled.
- `TraceLog` and `printf` are logging only. The overflow `TraceLog` plus `break` in `fill_queue` is proved unreachable.
- `main.c` is not part of this model: the window, input, drawing and game loop.
- The `Vector2` drag position, `DECK_SLOTS` and the deck slot positions are floating point with no logic here. They are left out, and so is padding. The record sizes still count their bytes.
- `volatile` on the queue fields has no effect here: nothing runs concurrently, so they are plain fields.
- Placement, collision, line clearing and scoring are not in these files and are not modelled.
- The comment at bg64.c:203 speaks of 8 color options. The code uses `COLOR_OPTIONS` = 3, and the model follows the code.
- The generator's seed is the class field `rngSeed`. It is not a field of the `Utility` value, even though the C struct keeps it in `utility`. It still belongs to the record:
  - `Wipe` zeroes it;
  - `SetFreshDefaults` sets it;
  - `FillQueue` advances it.
- Bg64.Xorshift: the step is a bijection on 64-bit words, but only its zero behaviour is proved, not that bijectivity.
- The older `SHAPE_LIBRARY` (bg64_state.h:64-105) is the same table as `Bg64Header.ShapeLibrary`, so it is not declared a second time.
- The older header's `snapshot` struct (bg64_state.h:182-185) is not modelled: no modelled function uses it.
- The older header's `user_data` and `deck_slot` are only sized, because no modelled function reads their fields.
- The current build's `player_session` keeps its deck bytes and active flags as the arrays `deckShapeColorBits` and `isActive` of `GameState`, not inside the `PlayerSession` value.
