/**
 * Machine-level facts that both builds of the game core rely on: C's `u8`
 * with its wrap-around at 256, the `& 63` slot mask of the 64-slot piece
 * queue, the nibble packing of a composite piece byte, and the 64-byte
 * rounding of an arena offset.
 *
 * The queue's read and write indices are `u8` counters that are never reduced
 * modulo 64 when stored; only their use as an index is masked. The whole
 * bookkeeping is sound because 256 is a multiple of 64, and the lemmas at the
 * end of this module are where that fact is used.
 */
module Machine {

  /** An unsigned 8-bit C integer, held as an int inside its range. */
  type U8 = x: int | 0 <= x < 256

  /** Unsigned 32- and 64-bit C integers kept in the record, held as ints. */
  type U32 = x: int | 0 <= x < 0x1_0000_0000
  type U64 = x: int | 0 <= x < 0x1_0000_0000_0000_0000

  /** A data byte. Its shifts and masks are written as the equivalent
      divisions and remainders; the lemmas below check each against the
      8-bit operation it stands for. */
  type Byte = U8

  /** Number of slots in the piece queue. */
  const QueueCapacity: nat := 64

  /** `x++` or `x += n` on a `u8` whose operands are both `u8`: the exact
      sum, less 256 when it passes the top. */
  function Wrap8(x: nat): (r: U8)
    requires x < 512
  {
    if x < 256 then x else x - 256
  }

  /** The wrapped sum is the exact sum reduced modulo 256. */
  lemma WrapIsMod(x: nat)
    requires x < 512
    ensures Wrap8(x) == x % 256
  {
  }

  /** `i & 63` on a stored index: the slot it names. */
  function Slot(i: int): (s: nat)
    ensures s < QueueCapacity
  {
    i % 64
  }

  /** Masking a `u8` index with 63 keeps exactly its remainder modulo 64. */
  lemma SlotIsMask(i: bv8)
    ensures (i & 63) as int == Slot(i as int)
  {
  }

  /** Wrapping in the middle of a sum is wrapping at the end. */
  lemma WrapAdd(x: nat, n: nat)
    requires n <= 256 && x + n < 512
    ensures Wrap8(Wrap8(x) + n) == Wrap8(x + n)
  {
  }

  /** Wrapping at 256 does not move the slot an index names. */
  lemma SlotOfWrap(x: nat)
    requires x < 512
    ensures Slot(Wrap8(x)) == Slot(x)
  {
    if x >= 256 {
      SlotPlusMultiple(x - 256, 4);
    }
  }

  /** Concatenation is associative. */
  lemma AppendAssoc<T>(a: seq<T>, b: seq<T>, c: seq<T>)
    ensures (a + b) + c == a + (b + c)
  {
  }

  /** A raylib color: red, green, blue and alpha bytes. */
  datatype Color = Color(r: U8, g: U8, b: U8, a: U8)

  /** The zero color: the void entry of a palette. */
  const Transparent: Color := Color(0, 0, 0, 0)

  function Min(a: int, b: int): (m: int)
    ensures m <= a && m <= b && (m == a || m == b)
  {
    if a < b then a else b
  }

  // ---------------------------------------------------------------------
  // Composite piece byte: shape in the high nibble, color in the low one.
  // ---------------------------------------------------------------------

  /**
   * `((shape & 0x0F) << 4) | (color & 0x0F)`: packs the low four bits of a
   * shape id and of a color id into one byte, the two nibbles not overlapping.
   */
  function Compose(shape: U8, color: U8): (b: Byte)
    ensures b / 16 == shape % 16 && b % 16 == color % 16
    ensures (shape % 16 != 0 || color % 16 != 0) <==> b != 0
  {
    shape % 16 * 16 + color % 16
  }

  lemma LowNibble(x: bv8)
    ensures (x & 0x0F) as int == x as int % 16
  {
  }

  lemma NibbleShift(x: bv8)
    requires x <= 0x0F
    ensures (x << 4) as int == x as int * 16 && (x << 4) & 0x0F == 0
  {
  }

  lemma DisjointNibbles(high: bv8, low: bv8)
    requires high & 0x0F == 0 && low & 0xF0 == 0
    ensures (high | low) as int == high as int + low as int
  {
    assert high | low == high + low;
  }

  /** The packing is the shift-and-mask expression on 8-bit values. */
  lemma ComposeIsBitPacking(shape: bv8, color: bv8)
    ensures (((shape & 0x0F) << 4) | (color & 0x0F)) as int == Compose(shape as int, color as int)
  {
    LowNibble(shape);
    LowNibble(color);
    NibbleShift(shape & 0x0F);
    DisjointNibbles((shape & 0x0F) << 4, color & 0x0F);
  }

  // ---------------------------------------------------------------------
  // Queue bookkeeping. `count` is the occupancy counter, `write` and `read`
  // the stored `u8` indices.
  // ---------------------------------------------------------------------

  /** The invariant both builds keep: at most 64 queued bytes, and the
      write index is the read index advanced by the counter, in `u8`
      arithmetic. */
  predicate QueueIndices(count: int, write: int, read: int)
  {
    0 <= count <= QueueCapacity && 0 <= read < 256 && write == Wrap8(read + count)
  }

  /** Equivalently: the counter is the distance from the read index to the
      write index, modulo 256. */
  lemma QueueIndicesModular(count: int, write: U8, read: U8)
    ensures QueueIndices(count, write, read) <==> 0 <= count <= QueueCapacity && count == (write - read) % 256
  {
  }

  /** The bytes in the `count` slots starting at `read`, in reading order:
      the queued bytes, oldest first, when `count` is the occupancy. */
  function Window(buf: seq<Byte>, read: int, count: nat): (w: seq<Byte>)
    requires |buf| == QueueCapacity
    ensures |w| == count
    ensures forall k :: 0 <= k < count ==> w[k] == buf[Slot(read + k)]
  {
    seq(count, k requires 0 <= k < count => buf[Slot(read + k)])
  }

  /** A produce keeps the invariant: one more byte, the write index one step on. */
  lemma ProduceKeepsIndices(count: int, write: int, read: int)
    requires QueueIndices(count, write, read) && count < QueueCapacity
    ensures QueueIndices(count + 1, Wrap8(write + 1), read)
  {
  }

  /** Consuming `n` queued bytes keeps the invariant. */
  lemma ConsumeKeepsIndices(count: int, write: int, read: int, n: nat)
    requires QueueIndices(count, write, read) && n <= count
    ensures QueueIndices(count - n, write, Wrap8(read + n))
  {
  }

  /** Adding a multiple of 64 does not change the slot. */
  lemma SlotPlusMultiple(a: int, m: int)
    ensures Slot(a + 64 * m) == Slot(a)
  {
  }

  /** Indices less than 64 apart name different slots. */
  lemma SlotsApart(a: int, d: int)
    requires 0 < d < QueueCapacity
    ensures Slot(a + d) != Slot(a)
  {
  }

  /** The write index names the slot just past the queued bytes. */
  lemma WriteSlotFollows(count: int, write: int, read: int)
    requires QueueIndices(count, write, read)
    ensures Slot(write) == Slot(read + count)
  {
    SlotOfWrap(read + count);
  }

  /** The slot the write index names is free: no queued byte lives there,
      provided the queue is not full. */
  lemma WriteSlotIsFree(count: int, write: int, read: int, k: int)
    requires QueueIndices(count, write, read) && count < QueueCapacity
    requires 0 <= k < count
    ensures Slot(read + k) != Slot(write)
  {
    WriteSlotFollows(count, write, read);
    SlotsApart(read + k, count - k);
  }

  /**
   * Storing a byte at the write slot of a queue that is not full appends it
   * to the window and leaves every queued byte where it was.
   */
  lemma {:induction false} WindowAfterProduce(buf: seq<Byte>, count: int, write: int, read: int, x: Byte)
    requires |buf| == QueueCapacity
    requires QueueIndices(count, write, read) && count < QueueCapacity
    ensures Window(buf[Slot(write) := x], read, count + 1) == Window(buf, read, count) + [x]
  {
    var before := Window(buf, read, count);
    var stored := Window(buf[Slot(write) := x], read, count);
    forall k | 0 <= k < count
      ensures stored[k] == before[k]
    {
      WriteSlotIsFree(count, write, read, k);
    }
    WriteSlotFollows(count, write, read);
  }

  /**
   * Advancing the read index by `n` (with the `u8` wrap) and lowering the
   * counter by `n` drops exactly the `n` oldest bytes of the window.
   */
  lemma {:induction false} WindowAfterConsume(buf: seq<Byte>, read: U8, count: nat, n: nat)
    requires |buf| == QueueCapacity && n <= count <= QueueCapacity
    ensures Window(buf, Wrap8(read + n), count - n) == Window(buf, read, count)[n..]
  {
    var before := Window(buf, read, count);
    var after := Window(buf, Wrap8(read + n), count - n);
    forall k | 0 <= k < count - n
      ensures after[k] == before[n + k]
    {
      if read + n >= 256 {
        SlotPlusMultiple(read + n + k - 256, 4);
      }
    }
  }

  /** With the read index at 0, the 64-byte window is the storage itself. */
  lemma WindowFromZero(buf: seq<Byte>)
    requires |buf| == QueueCapacity
    ensures Window(buf, 0, QueueCapacity) == buf
  {
  }

  /** Taking the `n` oldest of `count` queued bytes keeps the invariant,
      takes the first `n` bytes of the window and leaves the rest. */
  lemma WindowAfterBatch(buf: seq<Byte>, count: int, write: int, read: U8, n: nat)
    requires |buf| == QueueCapacity
    requires QueueIndices(count, write, read) && n <= count
    ensures QueueIndices(count - n, write, Wrap8(read + n))
    ensures Window(buf, read, n) == Window(buf, read, count)[..n]
    ensures Window(buf, Wrap8(read + n), count - n) == Window(buf, read, count)[n..]
  {
    WindowPrefix(buf, read, count, n);
    WindowAfterConsume(buf, read, count, n);
    ConsumeKeepsIndices(count, write, read, n);
  }

  /** The first `n` bytes of a window are the window of length `n`. */
  lemma WindowPrefix(buf: seq<Byte>, read: int, count: nat, n: nat)
    requires |buf| == QueueCapacity && n <= count
    ensures Window(buf, read, n) == Window(buf, read, count)[..n]
  {
  }

  /** A batch whose first `n` elements were copied from the window at
      `read` and whose others were left alone. */
  lemma CopiedPrefix(after: seq<Byte>, before: seq<Byte>, buf: seq<Byte>, read: int, n: nat)
    requires |buf| == QueueCapacity && |after| == |before| && n <= |after|
    requires forall k :: 0 <= k < |after| ==> after[k] == if k < n then buf[Slot(read + k)] else before[k]
    ensures after[..n] == Window(buf, read, n) && after[n..] == before[n..]
  {
  }

  // ---------------------------------------------------------------------
  // Arena alignment: `(offset + 63) & ~63`.
  // ---------------------------------------------------------------------

  /** The arena offset rounded up to the next 64-byte boundary. */
  function AlignUp(offset: nat): (a: nat)
    ensures a % 64 == 0
    ensures offset <= a < offset + 64
  {
    (offset + 63) / 64 * 64
  }

  /** The largest offset for which `offset + 63` fits in a 64-bit `usize`
      and still rounds to a representable multiple of 64. */
  const MaxUnwrappedOffset: U64 := 0xFFFF_FFFF_FFFF_FFC0

  /** On a 64-bit `usize` the mask `& ~63` is exactly the rounding above,
      as long as `offset + 63` does not wrap. */
  lemma AlignMaskIsRoundUp(offset: bv64)
    requires offset <= MaxUnwrappedOffset as bv64
    ensures (offset + 63) & !63 == (offset + 63) / 64 * 64
  {
  }

  lemma SumOfAligned(a: nat, b: nat)
    requires a % 64 == 0 && b % 64 == 0
    ensures (a + b) % 64 == 0
  {
  }

  /** No multiple of 64 lies between an offset and its rounding. */
  lemma AlignUpIsLeast(offset: nat, m: nat)
    requires m % 64 == 0 && offset <= m
    ensures AlignUp(offset) <= m
  {
  }

  /** An offset already on a boundary is left where it is. */
  lemma AlignUpOfAligned(offset: nat)
    requires offset % 64 == 0
    ensures AlignUp(offset) == offset
  {
    AlignUpIsLeast(offset, offset);
  }
}
