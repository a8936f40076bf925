/**
 * The older build's piece queue: a standalone 64-slot ring buffer with the
 * same `u8` counter and indices as the current build, and a piece generator
 * that takes the two `rand()` results it uses as inputs.
 *
 * Its batch consumer copies with a post-test loop: the body runs before the
 * exit test, so it relies on the early return for an empty queue or a zero
 * batch size to have made at least one copy due.
 */
module Bg64Queue {
  import opened Machine
  import opened Bg64State

  // ---------------------------------------------------------------------
  // Piece generation
  // ---------------------------------------------------------------------

  /**
   * `generate_composite_byte`: shape id `shapeDraw % SHAPE_LIB_SIZE + 1` in
   * the high nibble and color id `colorDraw % PALETTE_SIZE + 1` in the low
   * one. The draws are the two `rand()` results, which are never negative.
   */
  function GenerateCompositeByte(shapeDraw: nat, colorDraw: nat): (b: Byte)
    ensures 1 <= b / 16 <= ShapeLibSize && 1 <= b % 16 <= PaletteSize
    ensures b != 0
  {
    Compose(shapeDraw % ShapeLibSize + 1, colorDraw % PaletteSize + 1)
  }

  /** Every shape id and color id is drawn by some pair of `rand()` results,
      and the byte recovers exactly the ids drawn. */
  lemma EveryPieceIsDrawn(shape: nat, color: nat)
    requires 1 <= shape <= ShapeLibSize && 1 <= color <= PaletteSize
    ensures GenerateCompositeByte(shape - 1, color - 1) / 16 == shape
    ensures GenerateCompositeByte(shape - 1, color - 1) % 16 == color
  {
  }

  /** A drawn piece's color nibble indexes a painted, opaque palette entry. */
  lemma DrawnColorIsPainted(shapeDraw: nat, colorDraw: nat)
    ensures var color := GenerateCompositeByte(shapeDraw, colorDraw) % 16;
            color < |Palette| && Palette[color] != Transparent && Palette[color].a == 255
  {
    PaletteLayout();
  }

  // ---------------------------------------------------------------------
  // The ring buffer
  // ---------------------------------------------------------------------

  /** `ring_buffer`: the counter, the two stored indices and the 64 slots;
      the padding is left out. */
  class RingBuffer {
    var counter: U8
    var writeIndex: U8
    var readIndex: U8
    const buffer: array<Byte>

    /** The queue invariant holds. */
    predicate Valid()
      reads this
    {
      buffer.Length == QueueCapacity && QueueIndices(counter, writeIndex, readIndex)
    }

    /** The queued pieces, oldest first. */
    function Contents(): (q: seq<Byte>)
      requires Valid()
      reads this, buffer
      ensures |q| == counter
    {
      Window(buffer[..], readIndex, counter)
    }

    /** The queue inside a zeroed record: empty, every index and slot zero. */
    constructor ()
      ensures Valid() && Contents() == []
      ensures counter == 0 && writeIndex == 0 && readIndex == 0
      ensures buffer[..] == seq(QueueCapacity, _ => 0) && fresh(buffer)
    {
      counter := 0;
      writeIndex := 0;
      readIndex := 0;
      buffer := new Byte[QueueCapacity](_ => 0);
    }

    /** `ring_buffer_produce`: fails on a full counter and changes nothing;
        otherwise stores at the write slot and advances index and counter. */
    method Produce(data: Byte) returns (ok: bool)
      requires buffer.Length == QueueCapacity
      modifies this`counter, this`writeIndex, buffer
      ensures ok <==> old(counter) < QueueCapacity
      ensures ok ==> writeIndex == Wrap8(old(writeIndex) + 1) && counter == old(counter) + 1
      ensures ok ==> buffer[..] == old(buffer[..])[Slot(old(writeIndex)) := data]
      ensures !ok ==> counter == old(counter) && writeIndex == old(writeIndex) && buffer[..] == old(buffer[..])
      ensures old(Valid()) ==> (Valid() && Contents() == old(Contents()) + (if ok then [data] else []))
    {
      if counter >= 64 {
        return false;
      }
      if Valid() {
        WindowAfterProduce(buffer[..], counter, writeIndex, readIndex, data);
        ProduceKeepsIndices(counter, writeIndex, readIndex);
      }
      buffer[Slot(writeIndex)] := data;
      writeIndex := Wrap8(writeIndex + 1);
      counter := counter + 1;
      return true;
    }

    /** `ring_buffer_consume`: 0 and no change on an empty queue; otherwise
        the byte at the read slot, the read index advanced, the counter lowered. */
    method Consume() returns (data: Byte)
      requires buffer.Length == QueueCapacity
      modifies this`counter, this`readIndex
      ensures old(counter) == 0 ==> data == 0 && counter == 0 && readIndex == old(readIndex)
      ensures old(counter) > 0 ==>
        data == buffer[Slot(old(readIndex))] &&
        readIndex == Wrap8(old(readIndex) + 1) && counter == old(counter) - 1
      ensures old(Valid()) ==>
        (Valid() && old(Contents()) == (if old(counter) > 0 then [data] else []) + Contents())
    {
      if counter == 0 {
        return 0;
      }
      if Valid() {
        WindowAfterConsume(buffer[..], readIndex, counter, 1);
        ConsumeKeepsIndices(counter, writeIndex, readIndex, 1);
      }
      data := buffer[Slot(readIndex)];
      readIndex := Wrap8(readIndex + 1);
      counter := counter - 1;
    }

    /**
     * `ring_buffer_consume_batch`: moves the `min(counter, maxBatchSize)`
     * oldest bytes into `batch`, in order, and returns how many it moved.
     * The post-test loop makes exactly that many copies: `idx` is below the
     * bound each time the body starts, so no slot past the queued bytes and
     * no element past the bound is touched.
     */
    method ConsumeBatch(batch: array<Byte>, maxBatchSize: U8) returns (n: U8)
      requires buffer.Length == QueueCapacity && batch != buffer
      requires Min(counter, maxBatchSize) <= batch.Length
      modifies this`counter, this`readIndex, batch
      ensures n == Min(old(counter), maxBatchSize)
      ensures readIndex == Wrap8(old(readIndex) + n) && counter == old(counter) - n
      ensures batch[..n] == Window(buffer[..], old(readIndex), n)
      ensures batch[n..] == old(batch[n..])
      ensures old(Valid()) ==> (Valid() && batch[..n] == old(Contents())[..n] && Contents() == old(Contents())[n..])
    {
      var availableBytes := counter;
      if availableBytes == 0 || maxBatchSize == 0 {
        assert batch[..0] == [] && batch[0..] == batch[..];
        assert Valid() ==> Contents()[0..] == Contents();
        return 0;
      }
      ghost var read := readIndex;
      ghost var buf := buffer[..];
      var consumeUpTo: U8 := if availableBytes < maxBatchSize then availableBytes else maxBatchSize;
      ghost var orig := batch[..];
      var idx: U8 := 0;
      while true
        invariant idx < consumeUpTo
        invariant readIndex == Wrap8(read + idx) && counter == availableBytes
        invariant forall k :: 0 <= k < batch.Length ==> batch[k] == if k < idx then buf[Slot(read + k)] else orig[k]
        decreases consumeUpTo - idx
      {
        SlotOfWrap(read + idx);
        WrapAdd(read + idx, 1);
        batch[idx] := buffer[Slot(readIndex)];
        idx := idx + 1;
        readIndex := Wrap8(readIndex + 1);
        if idx == consumeUpTo {
          assert forall k :: 0 <= k < batch.Length ==> batch[k] == if k < idx then buf[Slot(read + k)] else orig[k];
          break;
        }
      }
      CopiedPrefix(batch[..], orig, buf, read, consumeUpTo);
      if old(Valid()) {
        WindowAfterBatch(buf, availableBytes, writeIndex, read, consumeUpTo);
      }
      counter := counter - consumeUpTo;
      return consumeUpTo;
    }

    /** `ring_buffer_data_available`: the counter, which is the queue
        length; it changes nothing. */
    method DataAvailable() returns (n: U8)
      ensures n == counter
      ensures Valid() ==> n == |Contents()|
    {
      return counter;
    }
  }
}
