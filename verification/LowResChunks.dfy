/**
  The low-resolution companion of a frame: every `step`-th pixel of every
  `step`-th row, packed into 16 bits, cut into chunks of whole rows that a
  memory-constrained client can decode one at a time.
*/
module LowResChunks {
  import opened Bytes

  const MAX_DIM: nat := 120
  const CHUNK_BYTES: nat := 8192

  datatype Frame = Frame(data: seq<Byte>, width: int, height: int)

  datatype Chunk = Chunk(data: seq<Byte>, width: nat, height: nat, rowOffset: nat)

  predicate Drawable(f: Frame) {
    f.width > 0 && f.height > 0 && |f.data| >= f.width * f.height * 3
  }

  function Max(a: int, b: int): int {
    if a < b then b else a
  }

  function Min(a: int, b: int): int {
    if a < b then a else b
  }

  function CeilDiv(a: nat, b: nat): (q: nat)
    requires b > 0
  {
    (a + b - 1) / b
  }

  function Stride(f: Frame): (s: nat)
    requires Drawable(f)
    ensures s >= 1
  {
    Max(1, CeilDiv(Max(f.width, f.height), MAX_DIM))
  }

  function OutWidth(f: Frame): nat
    requires Drawable(f)
  {
    CeilDiv(f.width, Stride(f))
  }

  function OutHeight(f: Frame): nat
    requires Drawable(f)
  {
    CeilDiv(f.height, Stride(f))
  }

  function RowBytes(f: Frame): nat
    requires Drawable(f)
  {
    OutWidth(f) * 2
  }

  function RowsPerChunk(f: Frame): nat
    requires Drawable(f) && RowBytes(f) > 0
  {
    Max(1, CHUNK_BYTES / RowBytes(f))
  }

  // ---------------------------------------------------------------------------
  // Dimensions
  // ---------------------------------------------------------------------------

  lemma CeilDivBounds(a: nat, b: nat)
    requires b > 0
    ensures a <= CeilDiv(a, b) * b < a + b
    ensures a > 0 ==> CeilDiv(a, b) > 0
  {
    var q := CeilDiv(a, b);
    assert a + b - 1 == q * b + (a + b - 1) % b;
    assert q == 0 ==> q * b == 0;
  }

  /** Rounding up is below every multiple that covers. */
  lemma CeilDivLeast(a: nat, b: nat, m: nat)
    requires b > 0 && a <= m * b
    ensures CeilDiv(a, b) <= m
  {
    CeilDivBounds(a, b);
    if CeilDiv(a, b) > m {
      MulMonotone(m + 1, CeilDiv(a, b), b);
    }
  }

  lemma MulMonotone(a: nat, b: nat, c: nat)
    requires a <= b
    ensures a * c <= b * c
  {
  }

  /** The reduced frame is between 1 and 120 pixels wide and high. */
  lemma ReducedSize(f: Frame)
    requires Drawable(f)
    ensures 1 <= OutWidth(f) <= MAX_DIM && 1 <= OutHeight(f) <= MAX_DIM
  {
    var s := Stride(f);
    var larger := Max(f.width, f.height);
    CeilDivBounds(larger, MAX_DIM);
    assert larger <= CeilDiv(larger, MAX_DIM) * MAX_DIM;
    MulMonotone(CeilDiv(larger, MAX_DIM), s, MAX_DIM);
    assert larger <= MAX_DIM * s;
    CeilDivBounds(f.width, s);
    CeilDivBounds(f.height, s);
    CeilDivLeast(f.width, s, MAX_DIM);
    CeilDivLeast(f.height, s, MAX_DIM);
  }

  /** The step is the least with which the larger side, and so either, comes to at most 120. */
  lemma StrideIsLeast(f: Frame, s: nat)
    requires Drawable(f) && 1 <= s
    ensures CeilDiv(f.width, s) <= MAX_DIM && CeilDiv(f.height, s) <= MAX_DIM <==> Stride(f) <= s
  {
    var larger := Max(f.width, f.height);
    CeilDivBounds(larger, MAX_DIM);
    CeilDivBounds(f.width, s);
    CeilDivBounds(f.height, s);
    if Stride(f) <= s {
      MulMonotone(CeilDiv(larger, MAX_DIM), s, MAX_DIM);
      CeilDivLeast(f.width, s, MAX_DIM);
      CeilDivLeast(f.height, s, MAX_DIM);
    } else if CeilDiv(f.width, s) <= MAX_DIM && CeilDiv(f.height, s) <= MAX_DIM {
      MulMonotone(CeilDiv(f.width, s), MAX_DIM, s);
      MulMonotone(CeilDiv(f.height, s), MAX_DIM, s);
      CeilDivLeast(larger, MAX_DIM, s);
    }
  }

  /** With it every pixel on a step is taken, and no other: along a side of `n` pixels those
      numbered `k * s` below `n`. */
  lemma SamplesAreAll(n: nat, s: nat, k: nat)
    requires s > 0
    ensures k < CeilDiv(n, s) <==> k * s < n
  {
    CeilDivBounds(n, s);
    if k < CeilDiv(n, s) {
      SampleInRange(n, s, k);
    } else {
      MulMonotone(CeilDiv(n, s), k, s);
    }
  }

  /** So the reduced frame has a row for each step of rows and a column for each of columns. */
  lemma ReducedIsWhole(f: Frame, row: nat, col: nat)
    requires Drawable(f)
    ensures row < OutHeight(f) <==> row * Stride(f) < f.height
    ensures col < OutWidth(f) <==> col * Stride(f) < f.width
  {
    hide Stride, CeilDiv;
    SamplesAreAll(f.height, Stride(f), row);
    SamplesAreAll(f.width, Stride(f), col);
  }

  /** No more rows fit a chunk than it has. */
  lemma ChunkIsFull(f: Frame)
    requires Drawable(f)
    ensures RowBytes(f) > 0 && (RowsPerChunk(f) + 1) * RowBytes(f) > CHUNK_BYTES
  {
    ReducedSize(f);
    var rb := RowBytes(f);
    var q := CHUNK_BYTES / rb;
    assert CHUNK_BYTES == q * rb + CHUNK_BYTES % rb;
    assert (q + 1) * rb == q * rb + rb;
    MulMonotone(q + 1, RowsPerChunk(f) + 1, rb);
  }

  /** A chunk of full length fits the client, and holds at least one row. */
  lemma ChunkSize(f: Frame)
    requires Drawable(f)
    ensures RowBytes(f) > 0 && RowsPerChunk(f) >= 1 && RowsPerChunk(f) * RowBytes(f) <= CHUNK_BYTES
  {
    ReducedSize(f);
    var rb := RowBytes(f);
    var q := CHUNK_BYTES / rb;
    assert CHUNK_BYTES == q * rb + CHUNK_BYTES % rb;
    assert q == 0 ==> q * rb == 0;
  }

  // ---------------------------------------------------------------------------
  // Pixels
  // ---------------------------------------------------------------------------

  /** 5, 6 and 5 bits of red, green and blue. */
  function Rgb565(r: Byte, g: Byte, b: Byte): (v: nat)
    ensures v < 0x1_0000
  {
    r / 8 * 0x800 + g / 4 * 0x20 + b / 8
  }

  /** Where the source pixel (y, x) starts in the frame's data. */
  function SourceIndex(f: Frame, y: nat, x: nat): nat
    requires Drawable(f)
  {
    (y * f.width + x) * 3
  }

  lemma SourceInBounds(f: Frame, y: nat, x: nat)
    requires Drawable(f) && y < f.height && x < f.width
    ensures SourceIndex(f, y, x) + 2 < |f.data|
  {
    MulMonotone(y + 1, f.height, f.width);
    assert y * f.width + x + 1 <= f.height * f.width;
  }

  lemma SampleInRange(n: nat, s: nat, k: nat)
    requires s > 0 && k < CeilDiv(n, s)
    ensures 0 <= k * s < n
  {
    hide CeilDiv;
    CeilDivBounds(n, s);
    MulMonotone(k + 1, CeilDiv(n, s), s);
    assert (k + 1) * s == k * s + s;
  }

  /** The pixel an output pixel is taken from lies in the frame. */
  lemma SampleInBounds(f: Frame, row: nat, col: nat)
    requires Drawable(f) && row < OutHeight(f) && col < OutWidth(f)
    ensures row * Stride(f) < f.height && col * Stride(f) < f.width
    ensures SourceIndex(f, row * Stride(f), col * Stride(f)) + 2 < |f.data|
  {
    hide CeilDiv, SourceIndex, Stride;
    SampleInRange(f.height, Stride(f), row);
    SampleInRange(f.width, Stride(f), col);
    SourceInBounds(f, row * Stride(f), col * Stride(f));
  }

  /** The two bytes, low one first, of an output pixel. */
  function PixelBytes(f: Frame, row: nat, col: nat): (bs: seq<Byte>)
    requires Drawable(f) && row < OutHeight(f) && col < OutWidth(f)
    ensures |bs| == 2
  {
    SampleInBounds(f, row, col);
    var i := SourceIndex(f, row * Stride(f), col * Stride(f));
    var v := Rgb565(f.data[i], f.data[i + 1], f.data[i + 2]);
    [v % 256, v / 256]
  }

  /** The first `n` pixels of a row. */
  function RowPart(f: Frame, row: nat, n: nat): (bs: seq<Byte>)
    requires Drawable(f) && row < OutHeight(f) && n <= OutWidth(f)
    ensures |bs| == 2 * n
  {
    if n == 0 then [] else RowPart(f, row, n - 1) + PixelBytes(f, row, n - 1)
  }

  /** Where row `n` starts in the payload. */
  function RowStart(f: Frame, n: nat): nat
    requires Drawable(f)
  {
    n * RowBytes(f)
  }

  lemma RowStartStep(f: Frame, n: nat)
    requires Drawable(f)
    ensures RowStart(f, 0) == 0
    ensures RowStart(f, n + 1) == RowStart(f, n) + RowBytes(f)
  {
  }

  lemma RowStartMonotone(f: Frame, m: nat, n: nat)
    requires Drawable(f) && m <= n
    ensures RowStart(f, m) <= RowStart(f, n)
  {
    MulMonotone(m, n, RowBytes(f));
  }

  /** The first `n` rows. */
  function Rows(f: Frame, n: nat): (bs: seq<Byte>)
    requires Drawable(f) && n <= OutHeight(f)
    ensures |bs| == RowStart(f, n)
  {
    if n == 0 then []
    else
      RowStartStep(f, n - 1);
      Rows(f, n - 1) + RowPart(f, n - 1, OutWidth(f))
  }

  function Payload(f: Frame): seq<Byte>
    requires Drawable(f)
  {
    Rows(f, OutHeight(f))
  }

  lemma {:induction false} PixelInRow(f: Frame, row: nat, n: nat, col: nat)
    requires Drawable(f) && row < OutHeight(f) && col < n <= OutWidth(f)
    ensures RowPart(f, row, n)[2 * col..2 * col + 2] == PixelBytes(f, row, col)
  {
    hide PixelBytes;
    if col < n - 1 {
      PixelInRow(f, row, n - 1, col);
      assert RowPart(f, row, n)[2 * col..2 * col + 2] == RowPart(f, row, n - 1)[2 * col..2 * col + 2];
    }
  }

  lemma {:induction false} RowInRows(f: Frame, n: nat, row: nat)
    requires Drawable(f) && row < n <= OutHeight(f)
    ensures RowStart(f, row) <= RowStart(f, row + 1) <= RowStart(f, n)
    ensures Rows(f, n)[RowStart(f, row)..RowStart(f, row + 1)] == RowPart(f, row, OutWidth(f))
  {
    hide RowPart, RowStart, OutHeight, OutWidth, Drawable;
    RowStartMonotone(f, row, row + 1);
    RowStartMonotone(f, row + 1, n);
    RowStartStep(f, n - 1);
    var a, b := RowStart(f, row), RowStart(f, row + 1);
    if row < n - 1 {
      RowInRows(f, n - 1, row);
      assert Rows(f, n)[a..b] == Rows(f, n - 1)[a..b];
    }
  }

  /** Output pixel (row, col) is the packed source pixel (row * step, col * step). */
  lemma PixelInPayload(f: Frame, row: nat, col: nat)
    requires Drawable(f) && row < OutHeight(f) && col < OutWidth(f)
    ensures var at := RowStart(f, row) + 2 * col;
            at + 2 <= |Payload(f)| && Payload(f)[at..at + 2] == PixelBytes(f, row, col)
  {
    hide PixelBytes, RowPart, RowStart, Rows;
    RowInRows(f, OutHeight(f), row);
    RowStartStep(f, row);
    PixelInRow(f, row, OutWidth(f), col);
    SliceOfSlice(Payload(f), RowStart(f, row), RowStart(f, row + 1), 2 * col, 2 * col + 2);
  }

  lemma ByThirtyTwo(q: nat, r: nat)
    requires r < 0x20
    ensures (0x20 * q + r) / 0x20 == q && (0x20 * q + r) % 0x20 == r
  {
  }

  lemma BySixtyFour(q: nat, r: nat)
    requires r < 0x40
    ensures (0x40 * q + r) / 0x40 == q && (0x40 * q + r) % 0x40 == r
  {
  }

  /** The 16-bit word of two bytes, and the three channels a client takes out of it. */
  function Word(low: nat, high: nat): nat { low + 256 * high }
  function Red(v: nat): nat { v / 0x20 / 0x40 }
  function Green(v: nat): nat { v / 0x20 % 0x40 }
  function Blue(v: nat): nat { v % 0x20 }

  lemma Unpack(r: nat, g: nat, b: nat)
    requires r < 0x20 && g < 0x40 && b < 0x20
    ensures var v := r * 0x800 + g * 0x20 + b;
            Red(v) == r && Green(v) == g && Blue(v) == b
  {
    var v := r * 0x800 + g * 0x20 + b;
    ByThirtyTwo(0x40 * r + g, b);
    BySixtyFour(r, g);
    assert v == 0x20 * (0x40 * r + g) + b;
  }

  /** What a client decodes at output pixel (row, col), the low byte first: the high bits
      of the three channels of source pixel (row * step, col * step). */
  lemma PixelDecodes(f: Frame, row: nat, col: nat, i: nat)
    requires Drawable(f) && row < OutHeight(f) && col < OutWidth(f)
    requires i == (row * Stride(f) * f.width + col * Stride(f)) * 3
    ensures i + 2 < |f.data|
    ensures var bs := PixelBytes(f, row, col);
            var v := Word(bs[0], bs[1]);
            Red(v) == f.data[i] / 8 && Green(v) == f.data[i + 1] / 4 && Blue(v) == f.data[i + 2] / 8
  {
    assert i == SourceIndex(f, row * Stride(f), col * Stride(f));
    hide Red, Green, Blue, SourceIndex, Stride, OutHeight, OutWidth, Drawable;
    SampleInBounds(f, row, col);
    Unpack(f.data[i] / 8, f.data[i + 1] / 4, f.data[i + 2] / 8);
    var bs := PixelBytes(f, row, col);
    assert Word(bs[0], bs[1]) == Rgb565(f.data[i], f.data[i + 1], f.data[i + 2]);
  }

  // ---------------------------------------------------------------------------
  // Chunks
  // ---------------------------------------------------------------------------

  /** The chunks from row `row` on. */
  function ChunksFrom(f: Frame, row: nat): seq<Chunk>
    requires Drawable(f)
    decreases OutHeight(f) - row
  {
    if row >= OutHeight(f) then []
    else
      ChunkSize(f);
      var next := row + RowsPerChunk(f);
      var start, end := Min(RowStart(f, row), |Payload(f)|), Min(RowStart(f, next), |Payload(f)|);
      RowStartMonotone(f, row, next);
      [Chunk(Payload(f)[start..end], OutWidth(f), OutHeight(f), row)] + ChunksFrom(f, next)
  }

  /** The chunk events of a frame; a frame that is empty or short of data has none. */
  function Chunks(f: Frame): seq<Chunk> {
    if Drawable(f) then ChunksFrom(f, 0) else []
  }

  function Concat(cs: seq<Chunk>): seq<Byte> {
    if cs == [] then [] else cs[0].data + Concat(cs[1..])
  }

  /** A chunk as a client may expect it: whole rows, few enough to hold, in their place. */
  ghost predicate WellFormed(f: Frame, c: Chunk)
    requires Drawable(f)
  {
    && c.width == OutWidth(f) && c.height == OutHeight(f) && c.rowOffset < OutHeight(f)
    && 0 < |c.data| <= CHUNK_BYTES
    && (exists n :: 1 <= n <= OutHeight(f) - c.rowOffset && |c.data| == RowStart(f, n))
    && RowStart(f, c.rowOffset) + |c.data| <= |Payload(f)|
    && c.data == Payload(f)[RowStart(f, c.rowOffset)..RowStart(f, c.rowOffset) + |c.data|]
  }

  /** Each chunk begins at the row where the one before ends. */
  ghost predicate Adjoining(f: Frame, cs: seq<Chunk>, row: nat)
    requires Drawable(f)
  {
    if cs == [] then row >= OutHeight(f)
    else
      && cs[0].rowOffset == row
      && exists n :: 1 <= n && |cs[0].data| == RowStart(f, n) && Adjoining(f, cs[1..], row + n)
  }

  lemma RowStartAdds(f: Frame, m: nat, n: nat)
    requires Drawable(f)
    ensures RowStart(f, m + n) == RowStart(f, m) + RowStart(f, n)
  {
  }

  lemma OneChunk(f: Frame, row: nat)
    requires Drawable(f) && row < OutHeight(f)
    ensures var c := ChunksFrom(f, row)[0];
            var n := Min(RowsPerChunk(f), OutHeight(f) - row);
            && WellFormed(f, c) && c.rowOffset == row && n >= 1 && |c.data| == RowStart(f, n)
  {
    hide RowStart, Rows;
    ChunkSize(f);
    var rows := RowsPerChunk(f);
    var next := row + rows;
    var n := Min(rows, OutHeight(f) - row);
    RowStartMonotone(f, row, OutHeight(f));
    RowStartMonotone(f, row, next);
    RowStartAdds(f, row, n);
    if next <= OutHeight(f) {
      RowStartMonotone(f, next, OutHeight(f));
    } else {
      RowStartMonotone(f, OutHeight(f), next);
    }
    RowStartMonotone(f, n, rows);
    RowStartMonotone(f, 1, n);
    RowStartStep(f, 0);
    FullChunk(f);
  }

  lemma FullChunk(f: Frame)
    requires Drawable(f)
    ensures RowBytes(f) > 0 && RowStart(f, RowsPerChunk(f)) <= CHUNK_BYTES
  {
    ChunkSize(f);
  }

  lemma {:induction false} ChunksCover(f: Frame, row: nat)
    requires Drawable(f) && row <= OutHeight(f)
    ensures RowStart(f, row) <= |Payload(f)|
    ensures Concat(ChunksFrom(f, row)) == Payload(f)[RowStart(f, row)..]
    ensures forall c :: c in ChunksFrom(f, row) ==> WellFormed(f, c)
    ensures Adjoining(f, ChunksFrom(f, row), row)
    decreases OutHeight(f) - row
  {
    hide RowStart, Rows, WellFormed, RowsPerChunk;
    RowStartMonotone(f, row, OutHeight(f));
    if row < OutHeight(f) {
      ChunkSize(f);
      OneChunk(f, row);
      var cs := ChunksFrom(f, row);
      var n := Min(RowsPerChunk(f), OutHeight(f) - row);
      ChunksCover(f, row + n);
      RowStartAdds(f, row, n);
      assert cs[1..] == ChunksFrom(f, row + n);
      JoinSlices(Payload(f), RowStart(f, row), RowStart(f, row + n));
      assert WellFormed(f, cs[0]);
      assert cs[0].data == Payload(f)[RowStart(f, row)..RowStart(f, row + n)] by { DataOf(f, cs[0]); }
    }
  }

  lemma DataOf(f: Frame, c: Chunk)
    requires Drawable(f) && WellFormed(f, c)
    ensures RowStart(f, c.rowOffset) + |c.data| <= |Payload(f)|
    ensures c.data == Payload(f)[RowStart(f, c.rowOffset)..RowStart(f, c.rowOffset) + |c.data|]
  {
  }

  lemma JoinSlices(s: seq<Byte>, a: nat, b: nat)
    requires a <= b <= |s|
    ensures s[a..b] + s[b..] == s[a..]
  {
  }

  /** Just the frames that are empty or short of data have no chunks. */
  lemma NoChunksExactly(f: Frame)
    ensures Chunks(f) == [] <==> f.width <= 0 || f.height <= 0 || |f.data| < f.width * f.height * 3
  {
    if Drawable(f) {
      ReducedSize(f);
    }
  }

  /** Main result: for frames of any size each chunk has at most 8192 bytes of whole rows
      and stands where its row offset says, each begins where the one before ends, and
      together they are the payload. */
  lemma ChunksRebuildPayload(f: Frame)
    requires Drawable(f)
    ensures Concat(Chunks(f)) == Payload(f)
    ensures forall c :: c in Chunks(f) ==> WellFormed(f, c)
    ensures Chunks(f) != [] && Adjoining(f, Chunks(f), 0)
  {
    ReducedSize(f);
    ChunksCover(f, 0);
    RowStartStep(f, 0);
  }
}
