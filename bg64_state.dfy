/**
 * The older build's state header and arena: the palette and shape-count
 * constants the older piece generator draws from, the layout of its
 * 256-byte game-state record, and the arena that hands the record out.
 *
 * The older arena differs from the current one in one respect: when
 * `aligned_alloc` fails it does not stop the program but returns an arena
 * whose base is null and whose size is still the requested one. The base,
 * size and offset are 64-bit unsigned values, and the null block is address 0.
 */
module Bg64State {
  import opened Machine

  /** `PALETTE_SIZE`: the number of real colors, ids 1..PaletteSize. */
  const PaletteSize: nat := 3

  /** `SHAPE_LIB_SIZE`: the number of real shapes, ids 1..ShapeLibSize. */
  const ShapeLibSize: nat := 10

  /** `PALETTE`: void, red, green and blue, the other twelve entries left at
      their zero default. */
  const Palette: seq<Color> := [
    Transparent, Color(255, 80, 80, 255), Color(80, 255, 80, 255), Color(80, 80, 255, 255),
    Transparent, Transparent, Transparent, Transparent,
    Transparent, Transparent, Transparent, Transparent,
    Transparent, Transparent, Transparent, Transparent
  ]

  /** Entry 0 is void, the color ids are painted and opaque, and every
      four-bit color nibble indexes the table. */
  lemma PaletteLayout()
    ensures |Palette| == 16 && Palette[0] == Transparent
    ensures forall id :: 1 <= id <= PaletteSize ==> Palette[id] != Transparent && Palette[id].a == 255
    ensures forall id :: PaletteSize < id < |Palette| ==> Palette[id] == Transparent
  {
  }

  // ---------------------------------------------------------------------
  // Record layout
  // ---------------------------------------------------------------------

  /** `game_grid`: the occupancy board, 32 packed color bytes, padding. */
  const SizeOfGameGrid: nat := 8 + 32 + 24
  /** `user_data`: the current and the best score. */
  const SizeOfUserData: nat := 8 + 8
  /** `deck_slot`: piece byte, active flag, two bytes the compiler inserts
      to align the float pair, the float pair, padding. */
  const SizeOfDeckSlot: nat := 1 + 1 + 2 + 8 + 4
  /** `ring_buffer`: counter, write index, read index, 64 slots, padding. */
  const SizeOfRingBuffer: nat := 1 + 1 + 1 + QueueCapacity + 61
  /** `sizeof(GameState)`: grid, user data, three deck slots, queue. */
  const SizeOfGameState: nat := SizeOfGameGrid + SizeOfUserData + 3 * SizeOfDeckSlot + SizeOfRingBuffer

  /** The record is a power of two, four cache lines, and its queue two. */
  lemma GameStateIsFourCacheLines()
    ensures SizeOfGameGrid == 64 && SizeOfUserData == 16 && SizeOfDeckSlot == 16
    ensures SizeOfRingBuffer == 128 && SizeOfGameState == 256 && SizeOfGameState % 64 == 0
  {
  }

  // ---------------------------------------------------------------------
  // Arena
  // ---------------------------------------------------------------------

  /** A bump allocator over one block of memory. */
  class Arena {
    const base: U64
    const size: U64
    var offset: U64

    /** `GameArena_Initialization`: the block `aligned_alloc` returned (on a
        64-byte boundary, or 0 when it failed), the requested size, and
        nothing allocated yet. */
    constructor (base: U64, size: U64)
      requires base % 64 == 0
      ensures this.base == base && this.size == size && offset == 0
    {
      this.base := base;
      this.size := size;
      offset := 0;
    }

    /** `GameState_Initialization`: rounds the offset up to the next cache
        line, hands out the record there and bumps the offset past it. The
        code checks neither that the block exists nor that the record fits;
        the caller must ensure that it fits. When it does, `offset + 63` cannot
        wrap, so the mask is the rounding (`AlignMaskIsRoundUp`). */
    method GameStateInitialization() returns (state: nat)
      requires AlignUp(offset) + SizeOfGameState <= size
      modifies this`offset
      ensures state == base + AlignUp(old(offset))
      ensures offset == AlignUp(old(offset)) + SizeOfGameState
      ensures offset % 64 == 0 && (base % 64 == 0 ==> state % 64 == 0)
      ensures old(offset) <= state - base && state + SizeOfGameState == base + offset
      ensures offset <= size
      ensures old(offset) <= MaxUnwrappedOffset
    {
      GameStateIsFourCacheLines();
      SumOfAligned(AlignUp(offset), SizeOfGameState);
      if base % 64 == 0 {
        SumOfAligned(base, AlignUp(offset));
      }
      offset := AlignUp(offset);
      state := base + offset;
      offset := offset + SizeOfGameState;
    }
  }

  /** Two successive records lie on cache lines and do not overlap: the
      second starts exactly where the first ends, because the first ends on
      a cache line and rounding an aligned offset leaves it where it is. */
  lemma SuccessiveRecordsDisjoint(offset: nat)
    ensures var first := AlignUp(offset);
            var second := AlignUp(first + SizeOfGameState);
            first % 64 == 0 && second % 64 == 0 && offset <= first &&
            first + SizeOfGameState == second
  {
    GameStateIsFourCacheLines();
    AlignUpOfAligned(AlignUp(offset) + SizeOfGameState);
  }
}
