/**
 * The current build's game core: the xorshift64 piece generator, the 64-slot
 * piece queue kept inside the persistent game-state record, the routine that
 * tops the queue up, the fresh-state initialisation that deals the first
 * three pieces, and the arena bump allocator that places the record.
 *
 * The generator writes its new seed back through a pointer; here it is a
 * function from the old seed to the new seed and the value drawn. The clock
 * reading that seeds a fresh game is a parameter.
 */
module Bg64 {
  import opened Machine
  import opened Bg64Header

  /** `utility.magic`: "GLK!". */
  const Magic: U32 := 0x474C4B21
  /** `utility.version`. */
  const Version: U32 := 1
  /** The seed used when the clock reads zero, since zero is a fixed point. */
  const FallbackSeed: bv64 := 0xFEED
  /** `dragging_slot_index` when no deck slot is being dragged. */
  const NoDragSlot: U8 := 255
  /** Number of pieces in the deck. */
  const DeckSize: nat := 3

  // ---------------------------------------------------------------------
  // Piece generation
  // ---------------------------------------------------------------------

  /** One xorshift64 step, shifts 13, 7 and 17; the result is also the new
      seed. It maps zero, and only zero, to zero. */
  function Xorshift(seed: bv64): (x: bv64)
    ensures x == 0 <==> seed == 0
  {
    var a := seed ^ (seed << 13);
    var b := a ^ (a >> 7);
    b ^ (b << 17)
  }

  /** A known value of the step, fixing the shift directions. */
  lemma XorshiftOfOne()
    ensures Xorshift(1) == 0x40822041
  {
  }

  /** The new seed and the piece byte drawn from it. */
  datatype Draw = Draw(seed: bv64, piece: Byte)

  /** `(u8)(r % SHAPE_OPTIONS) + 1`: a shape id in 1..ShapeOptions. */
  function ShapeId(r: bv64): (shape: U8)
    ensures 1 <= shape <= ShapeOptions
  {
    r as int % ShapeOptions + 1
  }

  /** `(u8)((r >> 32) % COLOR_OPTIONS) + 1`: a color id in 1..ColorOptions. */
  function ColorId(r: bv64): (color: U8)
    ensures 1 <= color <= ColorOptions
  {
    (r >> 32) as int % ColorOptions + 1
  }

  /** The piece byte drawn from the new seed `r`: the shape from `r` itself,
      the color from its high 32 bits. */
  function PieceOf(r: bv64): Byte
  {
    Compose(ShapeId(r), ColorId(r))
  }

  /** `generate_composite_byte`: one step of the seed, which it stores, then
      the piece drawn from the new seed. What that piece is made of is stated
      by `GeneratedPieceDecodes`. */
  function GenerateCompositeByte(seed: bv64): (d: Draw)
    ensures d.seed == SeedAfter(seed, 1)
    ensures d.piece == PieceOf(d.seed)
  {
    var r := Xorshift(seed);
    Draw(r, PieceOf(r))
  }

  /** The shape nibble of `b` is the shape id of seed `r`, and its color
      nibble is the color id of `r`. */
  predicate DrawnFrom(b: Byte, r: bv64)
  {
    GetShape(b) == ShapeId(r) && GetColor(b) == ColorId(r)
  }

  /** A drawn piece decodes to the shape and color it was drawn with: a shape
      in 1..10 and a color in 1..3, so the byte is never zero. */
  lemma PieceDecodes(r: bv64)
    ensures GetShape(PieceOf(r)) == ShapeId(r) && GetColor(PieceOf(r)) == ColorId(r)
    ensures 1 <= GetShape(PieceOf(r)) <= ShapeOptions && 1 <= GetColor(PieceOf(r)) <= ColorOptions
    ensures PieceOf(r) != 0
  {
    DecodeCompose(ShapeId(r), ColorId(r));
  }

  /** A byte that names a shape in 1..10 and a color in 1..3. */
  predicate ValidPiece(b: Byte)
  {
    1 <= GetShape(b) <= ShapeOptions && 1 <= GetColor(b) <= ColorOptions && b != 0
  }

  /** Every seed draws a valid piece, one that decodes to that seed's ids. */
  lemma AllPiecesValid()
    ensures forall r :: DrawnFrom(PieceOf(r), r) && ValidPiece(PieceOf(r))
  {
    forall r
      ensures DrawnFrom(PieceOf(r), r) && ValidPiece(PieceOf(r))
    {
      PieceDecodes(r);
    }
  }

  /** The seed after `n` draws. */
  function SeedAfter(seed: bv64, n: nat): bv64
  {
    if n == 0 then seed else Xorshift(SeedAfter(seed, n - 1))
  }

  /** `f` applied to each of the `n` seeds that the next `n` draws return. */
  function MapDraws<T>(f: bv64 -> T, seed: bv64, n: nat): (w: seq<T>)
    ensures |w| == n
    ensures forall k :: 0 <= k < n ==> w[k] == f(SeedAfter(seed, k + 1))
  {
    seq(n, k requires 0 <= k < n => f(SeedAfter(seed, k + 1)))
  }

  /** The seed walk: the first `n` pieces drawn from `seed`, in order. */
  function Walk(seed: bv64, n: nat): (w: seq<Byte>)
    ensures |w| == n
  {
    MapDraws(PieceOf, seed, n)
  }

  /** A nonzero seed never reaches zero. */
  lemma {:induction false} SeedAfterNonzero(seed: bv64, n: nat)
    ensures SeedAfter(seed, n) == 0 <==> seed == 0
  {
    if n > 0 {
      SeedAfterNonzero(seed, n - 1);
    }
  }

  /** Drawing `m` pieces and then `n` more is drawing `m + n`. */
  lemma {:induction false} SeedAfterAdd(seed: bv64, m: nat, n: nat)
    ensures SeedAfter(SeedAfter(seed, m), n) == SeedAfter(seed, m + n)
  {
    if n > 0 {
      SeedAfterAdd(seed, m, n - 1);
    }
  }

  lemma {:induction false} MapDrawsSplit<T>(f: bv64 -> T, seed: bv64, m: nat, n: nat)
    ensures MapDraws(f, seed, m + n) == MapDraws(f, seed, m) + MapDraws(f, SeedAfter(seed, m), n)
  {
    forall j | 0 <= j < n
      ensures MapDraws(f, seed, m + n)[m + j] == MapDraws(f, SeedAfter(seed, m), n)[j]
    {
      SeedAfterAdd(seed, m, j + 1);
    }
  }

  /** The walk splits at any point into the walk resumed from the seed
      reached there. A queue that is topped up again after pieces were taken
      from it, as `main` does right after a batch consume, thus holds a
      contiguous stretch of the one walk from the initial seed: `FillQueue`
      appends the walk resumed from the seed it finds. */
  lemma WalkSplit(seed: bv64, m: nat, n: nat)
    ensures Walk(seed, m + n) == Walk(seed, m) + Walk(SeedAfter(seed, m), n)
  {
    MapDrawsSplit(PieceOf, seed, m, n);
  }

  /** One more draw appends the piece `generate_composite_byte` returns and
      advances the seed to the one it stores. */
  lemma WalkStep(seed: bv64, n: nat)
    ensures Walk(seed, n + 1) == Walk(seed, n) + [GenerateCompositeByte(SeedAfter(seed, n)).piece]
    ensures SeedAfter(seed, n + 1) == GenerateCompositeByte(SeedAfter(seed, n)).seed
  {
    SeedAfterAdd(seed, n, 1);
    WalkSplit(seed, n, 1);
  }

  /** `generate_composite_byte` returns the first piece of the walk. */
  lemma GenerateAdvancesOnce(seed: bv64)
    ensures [GenerateCompositeByte(seed).piece] == Walk(seed, 1)
  {
  }

  /** The byte `generate_composite_byte` returns has the stored seed's shape
      id in its high nibble and its color id in its low nibble: a shape in
      1..10, a color in 1..3, and never 0. */
  lemma GeneratedPieceDecodes(seed: bv64)
    ensures var d := GenerateCompositeByte(seed);
            DrawnFrom(d.piece, d.seed) && ValidPiece(d.piece)
  {
    AllPiecesValid();
  }

  /** Every piece of the walk names a shape in 1..10 and a color in 1..3. */
  lemma WalkPiecesValid(seed: bv64, n: nat)
    ensures forall k :: 0 <= k < n ==> ValidPiece(Walk(seed, n)[k])
  {
    AllPiecesValid();
  }

  /** A valid piece names a nonempty shape of the library, one whose
      drawing has at least one cell. */
  lemma PieceShapeIsInLibrary(b: Byte)
    requires ValidPiece(b)
    ensures ShapeLibrary[GetShape(b)] != 0
    ensures CellCounts[GetShape(b)] >= 1
  {
    ShapeHasCells(GetShape(b));
  }

  // ---------------------------------------------------------------------
  // Fresh-state constants
  // ---------------------------------------------------------------------

  /** The seed a fresh game starts from: the clock, or `0xFEED` when it reads 0. */
  function InitialSeed(now: bv64): (seed: bv64)
    ensures seed != 0
    ensures now != 0 ==> seed == now
  {
    if now == 0 then FallbackSeed else now
  }

  /** The palette of a fresh game: void, red, green, blue, then zero entries. */
  const DefaultPalette: seq<Color> := [
    Transparent, Color(255, 80, 80, 255), Color(80, 255, 80, 255), Color(80, 80, 255, 255),
    Transparent, Transparent, Transparent, Transparent, Transparent
  ]

  /** The color of a valid piece is an opaque entry of the fresh palette. */
  lemma PieceColorIsPainted(b: Byte)
    requires ValidPiece(b)
    ensures GetColor(b) < |DefaultPalette|
    ensures DefaultPalette[GetColor(b)].a == 255
  {
  }

  // ---------------------------------------------------------------------
  // The game-state record
  // ---------------------------------------------------------------------

  /** `game_grid`: the occupancy board and the 32 packed cell-color bytes. */
  datatype GameGrid = GameGrid(gameGrid: U64, gridColor: seq<Byte>)

  /** The scalar part of `player_session`: scores, the slot being dragged and
      the drag flag. */
  datatype PlayerSession = PlayerSession(currentScore: U64, highScore: U64,
                                         draggingSlotIndex: U8, isDragging: bool)

  /** `utility`: generator seed, snapshot metadata, the queue's counter and
      indices, the current screen and the palette. */
  datatype Utility = Utility(checksum: U64, magic: U32, version: U32,
                             ringBufferCounter: U8, ringBufferWriteIndex: U8,
                             ringBufferReadIndex: U8, currentScreen: U8, palette: seq<Color>)

  const ZeroGrid: GameGrid := GameGrid(0, seq(32, _ => 0))
  const ZeroSession: PlayerSession := PlayerSession(0, 0, 0, false)
  /** The palette of a zeroed record. */
  const BlankPalette: seq<Color> := [
    Transparent, Transparent, Transparent, Transparent, Transparent,
    Transparent, Transparent, Transparent, Transparent
  ]

  const ZeroUtility: Utility := Utility(0, 0, 0, 0, 0, 0, 0, BlankPalette)

  /** The session a fresh game starts with: nothing dragged. */
  const FreshSession: PlayerSession := ZeroSession.(draggingSlotIndex := NoDragSlot)

  /** The utility block a fresh game starts with, before the queue is filled. */
  const FreshUtility: Utility := ZeroUtility.(magic := Magic, version := Version, palette := DefaultPalette)

  /**
   * `GameState`: the grid line, the player session line, the utility line
   * and the 64-byte queue storage. The nested structs are values; the deck
   * bytes, the active flags and the queue storage are arrays, because the
   * code writes them through pointers. The drag position and padding are
   * left out.
   */
  class GameState {
    var grid: GameGrid
    var session: PlayerSession
    const deckShapeColorBits: array<Byte>
    const isActive: array<bool>
    var utility: Utility
    var rngSeed: bv64
    const ringBuffer: array<Byte>

    /** The sizes of the record's fixed arrays. */
    predicate Layout()
    {
      ringBuffer.Length == QueueCapacity && deckShapeColorBits.Length == DeckSize &&
      isActive.Length == DeckSize && deckShapeColorBits != ringBuffer
    }

    /** The queue invariant holds. */
    predicate Valid()
      reads this`utility
    {
      Layout() && QueueIndices(utility.ringBufferCounter, utility.ringBufferWriteIndex, utility.ringBufferReadIndex)
    }

    /** The queued pieces, oldest first. */
    function Contents(): (q: seq<Byte>)
      requires Valid()
      reads this`utility, ringBuffer
      ensures |q| == utility.ringBufferCounter
    {
      Window(ringBuffer[..], utility.ringBufferReadIndex, utility.ringBufferCounter)
    }

    /** Every byte of the record is zero. */
    predicate Zeroed()
      reads this, ringBuffer, deckShapeColorBits, isActive
    {
      grid == ZeroGrid && session == ZeroSession && utility == ZeroUtility && rngSeed == 0 &&
      deckShapeColorBits[..] == seq(deckShapeColorBits.Length, _ => 0) &&
      isActive[..] == seq(isActive.Length, _ => false) &&
      ringBuffer[..] == seq(ringBuffer.Length, _ => 0)
    }

    /** A record carved out of the zeroed arena. */
    constructor ()
      ensures Layout() && Zeroed() && Valid() && Contents() == []
      ensures fresh(ringBuffer) && fresh(deckShapeColorBits) && fresh(isActive)
    {
      grid := ZeroGrid;
      session := ZeroSession;
      deckShapeColorBits := new Byte[DeckSize](_ => 0);
      isActive := new bool[DeckSize](_ => false);
      utility := ZeroUtility;
      rngSeed := 0;
      ringBuffer := new Byte[QueueCapacity](_ => 0);
    }

    /** `ring_buffer_produce`: fails on a full counter and changes nothing;
        otherwise stores at the write slot and advances index and counter. */
    method Produce(data: Byte) returns (ok: bool)
      requires Layout()
      modifies this`utility, ringBuffer
      ensures ok <==> old(utility.ringBufferCounter) < QueueCapacity
      ensures ok ==> utility == old(utility).(ringBufferWriteIndex := Wrap8(old(utility.ringBufferWriteIndex) + 1),
                                              ringBufferCounter := old(utility.ringBufferCounter) + 1)
      ensures ok ==> ringBuffer[..] == old(ringBuffer[..])[Slot(old(utility.ringBufferWriteIndex)) := data]
      ensures !ok ==> utility == old(utility) && ringBuffer[..] == old(ringBuffer[..])
      ensures old(Valid()) ==> (Valid() && Contents() == old(Contents()) + (if ok then [data] else []))
    {
      if utility.ringBufferCounter >= 64 {
        return false;
      }
      if Valid() {
        WindowAfterProduce(ringBuffer[..], utility.ringBufferCounter, utility.ringBufferWriteIndex,
                           utility.ringBufferReadIndex, data);
        ProduceKeepsIndices(utility.ringBufferCounter, utility.ringBufferWriteIndex, utility.ringBufferReadIndex);
      }
      ringBuffer[Slot(utility.ringBufferWriteIndex)] := data;
      utility := utility.(ringBufferWriteIndex := Wrap8(utility.ringBufferWriteIndex + 1));
      utility := utility.(ringBufferCounter := utility.ringBufferCounter + 1);
      return true;
    }

    /** `ring_buffer_consume`: 0 and no change on an empty queue; otherwise
        the byte at the read slot, the read index advanced, the counter lowered. */
    method Consume() returns (data: Byte)
      requires Layout()
      modifies this`utility
      ensures old(utility.ringBufferCounter) == 0 ==> data == 0 && utility == old(utility)
      ensures old(utility.ringBufferCounter) > 0 ==>
        data == ringBuffer[Slot(old(utility.ringBufferReadIndex))] &&
        utility == old(utility).(ringBufferReadIndex := Wrap8(old(utility.ringBufferReadIndex) + 1),
                                 ringBufferCounter := old(utility.ringBufferCounter) - 1)
      ensures old(Valid()) ==>
        (Valid() && old(Contents()) == (if old(utility.ringBufferCounter) > 0 then [data] else []) + Contents())
    {
      if utility.ringBufferCounter == 0 {
        return 0;
      }
      if Valid() {
        WindowAfterConsume(ringBuffer[..], utility.ringBufferReadIndex, utility.ringBufferCounter, 1);
        ConsumeKeepsIndices(utility.ringBufferCounter, utility.ringBufferWriteIndex, utility.ringBufferReadIndex, 1);
      }
      data := ringBuffer[Slot(utility.ringBufferReadIndex)];
      utility := utility.(ringBufferReadIndex := Wrap8(utility.ringBufferReadIndex + 1));
      utility := utility.(ringBufferCounter := utility.ringBufferCounter - 1);
    }

    /** `ring_buffer_consume_batch`: moves the `min(counter, maxBatchSize)`
        oldest bytes into `batch`, in order, and returns how many it moved. */
    method ConsumeBatch(batch: array<Byte>, maxBatchSize: U8) returns (n: U8)
      requires Layout() && batch != ringBuffer
      requires Min(utility.ringBufferCounter, maxBatchSize) <= batch.Length
      modifies this`utility, batch
      ensures n == Min(old(utility.ringBufferCounter), maxBatchSize)
      ensures utility == old(utility).(ringBufferReadIndex := Wrap8(old(utility.ringBufferReadIndex) + n),
                                       ringBufferCounter := old(utility.ringBufferCounter) - n)
      ensures batch[..n] == Window(ringBuffer[..], old(utility.ringBufferReadIndex), n)
      ensures batch[n..] == old(batch[n..])
      ensures old(Valid()) ==> (Valid() && batch[..n] == old(Contents())[..n] && Contents() == old(Contents())[n..])
    {
      var availableBytes := utility.ringBufferCounter;
      if availableBytes == 0 || maxBatchSize == 0 {
        assert batch[..0] == [] && batch[0..] == batch[..];
        assert Valid() ==> Contents()[0..] == Contents();
        return 0;
      }
      ghost var read := utility.ringBufferReadIndex;
      ghost var buf := ringBuffer[..];
      var consumeUpTo: U8 := if availableBytes < maxBatchSize then availableBytes else maxBatchSize;
      ghost var before := utility;
      ghost var orig := batch[..];
      for i := 0 to consumeUpTo
        invariant utility == before.(ringBufferReadIndex := Wrap8(read + i))
        invariant forall k :: 0 <= k < batch.Length ==> batch[k] == if k < i then buf[Slot(read + k)] else orig[k]
      {
        SlotOfWrap(read + i);
        WrapAdd(read + i, 1);
        batch[i] := ringBuffer[Slot(utility.ringBufferReadIndex)];
        utility := utility.(ringBufferReadIndex := Wrap8(utility.ringBufferReadIndex + 1));
      }
      CopiedPrefix(batch[..], orig, buf, read, consumeUpTo);
      if old(Valid()) {
        WindowAfterBatch(buf, availableBytes, before.ringBufferWriteIndex, read, consumeUpTo);
      }
      utility := utility.(ringBufferCounter := utility.ringBufferCounter - consumeUpTo);
      return consumeUpTo;
    }

    /** `ring_buffer_data_available`: the counter, which is the queue length. */
    method DataAvailable() returns (n: U8)
      ensures n == utility.ringBufferCounter
      ensures Valid() ==> n == |Contents()|
    {
      return utility.ringBufferCounter;
    }

    /** `fill_queue`: tops the queue up to 64 pieces with the next pieces of
        the seed walk and leaves the rest of the record alone. The overflow
        branch cannot be reached. */
    method FillQueue()
      requires Valid()
      modifies this`utility, this`rngSeed, ringBuffer
      ensures Valid() && utility.ringBufferCounter == QueueCapacity
      ensures rngSeed == SeedAfter(old(rngSeed), QueueCapacity - old(utility.ringBufferCounter))
      ensures utility == old(utility).(
        ringBufferCounter := QueueCapacity,
        ringBufferWriteIndex := Wrap8(old(utility.ringBufferWriteIndex) + QueueCapacity - old(utility.ringBufferCounter)))
      ensures Contents() == old(Contents()) + Walk(old(rngSeed), QueueCapacity - old(utility.ringBufferCounter))
    {
      var bufferOccupancy := DataAvailable();
      if bufferOccupancy >= 64 {
        return;
      }
      var slotsToFill := 64 - bufferOccupancy;
      ghost var queued := Contents();
      ghost var seed := rngSeed;
      for i := 0 to slotsToFill
        invariant Valid()
        invariant rngSeed == SeedAfter(seed, i)
        invariant utility == old(utility).(ringBufferCounter := bufferOccupancy + i,
                                           ringBufferWriteIndex := Wrap8(old(utility.ringBufferWriteIndex) + i))
        invariant Contents() == queued + Walk(seed, i)
      {
        var compositeByte := GenerateCompositeByte(rngSeed);
        WalkStep(seed, i);
        WrapAdd(old(utility.ringBufferWriteIndex) + i, 1);
        AppendAssoc(queued, Walk(seed, i), [compositeByte.piece]);
        rngSeed := compositeByte.seed;
        var ok := Produce(compositeByte.piece);
        if !ok {
          assert false;
          break;
        }
      }
    }

    /** `memset(state, 0, sizeof(GameState))`. */
    method Wipe()
      requires Layout()
      modifies this, ringBuffer, deckShapeColorBits, isActive
      ensures Zeroed()
    {
      forall k | 0 <= k < ringBuffer.Length {
        ringBuffer[k] := 0;
      }
      forall k | 0 <= k < deckShapeColorBits.Length {
        deckShapeColorBits[k] := 0;
      }
      forall k | 0 <= k < isActive.Length {
        isActive[k] := false;
      }
      grid := ZeroGrid;
      session := ZeroSession;
      utility := ZeroUtility;
      rngSeed := 0;
    }

    /** The metadata, palette and session defaults of a fresh game, written
        over a wiped record; the seed is the clock, moved off zero. */
    method SetFreshDefaults(now: bv64)
      requires Zeroed()
      modifies this`utility, this`session, this`rngSeed
      ensures utility == FreshUtility && session == FreshSession && rngSeed == InitialSeed(now)
    {
      utility := utility.(magic := 0x474C4B21);
      utility := utility.(version := 1);
      rngSeed := now;
      if rngSeed == 0 {
        rngSeed := 0xFEED;
      }
      utility := utility.(palette := utility.palette[0 := Color(0, 0, 0, 0)]);
      utility := utility.(palette := utility.palette[1 := Color(255, 80, 80, 255)]);
      utility := utility.(palette := utility.palette[2 := Color(80, 255, 80, 255)]);
      utility := utility.(palette := utility.palette[3 := Color(80, 80, 255, 255)]);
      session := session.(draggingSlotIndex := 255);
      utility := utility.(currentScreen := 0);
    }

    /** The deal step: moves up to three of the oldest queued pieces into
        the deck and marks each dealt slot active. */
    method DealDeck() returns (count: U8)
      requires Valid()
      modifies this`utility, deckShapeColorBits, isActive
      ensures count == Min(old(utility.ringBufferCounter), DeckSize)
      ensures utility == old(utility).(ringBufferReadIndex := Wrap8(old(utility.ringBufferReadIndex) + count),
                                       ringBufferCounter := old(utility.ringBufferCounter) - count)
      ensures Valid() && Contents() == old(Contents())[count..]
      ensures deckShapeColorBits[..count] == old(Contents())[..count]
      ensures deckShapeColorBits[count..] == old(deckShapeColorBits[count..])
      ensures forall j :: 0 <= j < isActive.Length ==> isActive[j] == (j < count || old(isActive[j]))
    {
      count := ConsumeBatch(deckShapeColorBits, 3);
      for i := 0 to count
        invariant forall j :: 0 <= j < isActive.Length ==> isActive[j] == (j < i || old(isActive[j]))
        modifies isActive
      {
        isActive[i] := true;
      }
    }

    /**
     * The fresh-state branch of `GameState_Initialization`: wipes the record,
     * sets the metadata, seeds the generator from the clock, fills the queue
     * with 64 pieces of the seed walk and deals the three oldest into the
     * deck, all active.
     */
    method InitializeFresh(now: bv64)
      requires Layout()
      modifies this, ringBuffer, deckShapeColorBits, isActive
      ensures grid == ZeroGrid && session == FreshSession
      ensures rngSeed == SeedAfter(InitialSeed(now), QueueCapacity)
      ensures utility == FreshUtility.(ringBufferCounter := QueueCapacity - DeckSize,
                                       ringBufferWriteIndex := QueueCapacity,
                                       ringBufferReadIndex := DeckSize)
      ensures Valid()
      ensures deckShapeColorBits[..] == Walk(InitialSeed(now), QueueCapacity)[..DeckSize]
      ensures isActive[..] == [true, true, true]
      ensures Contents() == Walk(InitialSeed(now), QueueCapacity)[DeckSize..]
      ensures ringBuffer[..] == Walk(InitialSeed(now), QueueCapacity)
    {
      Wipe();
      SetFreshDefaults(now);
      assert Valid() && Contents() == [];
      FillQueue();
      ghost var filled := Contents();
      assert filled == Walk(InitialSeed(now), QueueCapacity);
      WindowFromZero(ringBuffer[..]);
      var count := DealDeck();
      assert count == 3;
      assert deckShapeColorBits[..] == filled[..DeckSize];
    }
  }

  // ---------------------------------------------------------------------
  // Arena
  // ---------------------------------------------------------------------

  /** A bump allocator over one block of memory; base, size and offset are
      64-bit unsigned values. */
  class Arena {
    const base: U64
    const size: U64
    var offset: U64

    /** The arena `GameArena_Allocation` returns: the block at `base`, which
        `aligned_alloc` places on a 64-byte boundary, the requested size, and
        nothing allocated. A failed allocation ends the program instead, so
        the block is never null (address 0). */
    constructor (base: U64, size: U64)
      requires base % 64 == 0 && base != 0
      ensures this.base == base && this.size == size && offset == 0
    {
      this.base := base;
      this.size := size;
      offset := 0;
    }

    /** `GameState_Allocation`: rounds the offset up to a cache line, hands out
        the record there and bumps the offset past it. The code does not check
        that the record fits; the caller must. When it does fit, `offset + 63`
        cannot wrap, so the mask is the rounding (`AlignMaskIsRoundUp`). */
    method GameStateAllocation() returns (state: nat)
      requires base % 64 == 0
      requires AlignUp(offset) + SizeOfGameState <= size
      modifies this`offset
      ensures state == base + AlignUp(old(offset))
      ensures offset == AlignUp(old(offset)) + SizeOfGameState
      ensures state % 64 == 0 && offset % 64 == 0
      ensures base + old(offset) <= state && state + SizeOfGameState == base + offset <= base + size
      ensures old(offset) <= MaxUnwrappedOffset
    {
      GameStateIsFourCacheLines();
      SumOfAligned(base, AlignUp(offset));
      SumOfAligned(AlignUp(offset), SizeOfGameState);
      offset := AlignUp(offset);
      state := base + offset;
      offset := offset + SizeOfGameState;
    }
  }

  /** Two successive records lie on cache lines and do not overlap: the
      second starts exactly where the first ends, because the first ends on
      a cache line and rounding an aligned offset leaves it where it is. */
  lemma SuccessiveAllocationsDisjoint(offset: nat)
    ensures var first := AlignUp(offset);
            var second := AlignUp(first + SizeOfGameState);
            first % 64 == 0 && second % 64 == 0 && offset <= first &&
            first + SizeOfGameState == second
  {
    GameStateIsFourCacheLines();
    AlignUpOfAligned(AlignUp(offset) + SizeOfGameState);
  }
}
