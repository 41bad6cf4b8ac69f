/** Laying pictures out in memory, as the inverse of decoding them.  A picture may be stored
    top-down (positive pitch) or bottom-up (negative pitch), with any padding. */
module PackedLayout {
  import opened Options
  import opened FrameMath
  import opened FrameDecode

  lemma MulOrder(a: int, b: int, m: nat)
    requires a >= b
    ensures a * m >= b * m
  {
  }

  lemma LessByMul(a: int, b: int, m: nat)
    requires a * m < b * m
    ensures a < b
  {
    if a >= b {
      MulOrder(a, b, m);
    }
  }

  lemma DivMod(k: nat, m: nat, j: nat)
    requires j < m
    ensures (k * m + j) / m == k && (k * m + j) % m == j
  {
    var n := k * m + j;
    assert n == n / m * m + n % m;
    assert (k + 1) * m == k * m + m;
    assert (n / m + 1) * m == n / m * m + m;
    LessByMul(n / m, k + 1, m);
    LessByMul(k, n / m + 1, m);
  }

  /** The rows of a picture in a packed format, all of the same length. */
  predicate AreRows(rows: seq<seq<Byte>>, rowBytes: nat) {
    rows != [] && forall r :: 0 <= r < |rows| ==> |rows[r]| == rowBytes
  }

  /** The visual row stored `k` pitches above the lowest byte. */
  function VisualRow(k: nat, pitch: int, height: nat): int {
    if pitch < 0 then height - 1 - k else k
  }

  function RegionSize(rows: seq<seq<Byte>>, rowBytes: nat, pitch: int): nat
    requires rows != []
  {
    Span(|rows|, pitch) + rowBytes
  }

  /** Distance from the lowest to the highest row. */
  function Span(height: nat, pitch: int): nat
    requires height >= 1
  {
    (height - 1) * Magnitude(pitch)
  }

  lemma RowOfOffset(i: nat, height: nat, m: nat, rowBytes: nat)
    requires rowBytes <= m && m > 0 && height > 0 && i < (height - 1) * m + rowBytes
    ensures i / m < height
  {
    assert i / m * m <= i;
    assert height * m == (height - 1) * m + m;
    LessByMul(i / m, height, m);
  }

  function RegionByte(rows: seq<seq<Byte>>, rowBytes: nat, pitch: int, padding: nat -> Byte, i: nat): Byte
    requires AreRows(rows, rowBytes) && rowBytes <= Magnitude(pitch) && pitch != 0
    requires i < RegionSize(rows, rowBytes, pitch)
  {
    var m := Magnitude(pitch);
    RowOfOffset(i, |rows|, m, rowBytes);
    if i % m < rowBytes then rows[VisualRow(i / m, pitch, |rows|)][i % m] else padding(i)
  }

  function LaidOut(rows: seq<seq<Byte>>, rowBytes: nat, pitch: int, padding: nat -> Byte, start: SizeT): Buffer
    requires AreRows(rows, rowBytes) && rowBytes <= Magnitude(pitch) && pitch != 0
  {
    Buffer(start, seq(RegionSize(rows, rowBytes, pitch),
      i requires 0 <= i < RegionSize(rows, rowBytes, pitch) => RegionByte(rows, rowBytes, pitch, padding, i)))
  }

  /** The view a lock of that buffer gives: scanline 0 is the visual top row. */
  function ViewOf(height: UInt32, width: UInt32, pitch: Int32, start: SizeT, size: SizeT): View
    requires height >= 1 && start + Span(height, pitch) <= SIZE_MAX
  {
    View(if pitch < 0 then start + Span(height, pitch) else start, pitch, width, height, Some(size))
  }

  /** A layout problem that the decoder can be asked to solve. */
  ghost predicate Storable(rows: seq<seq<Byte>>, kind: PackedKind, width: UInt32, pitch: Int32, start: SizeT) {
    && AreRows(rows, width * BytesPerPixel(kind))
    && 1 <= width && |rows| < 0x1_0000_0000
    && (Subsampled(kind) ==> width % 2 == 0)
    && pitch != INT32_MIN && width * BytesPerPixel(kind) <= Magnitude(pitch)
    && start + RegionSize(rows, width * BytesPerPixel(kind), pitch) <= SIZE_MAX
  }

  function StoredView(rows: seq<seq<Byte>>, kind: PackedKind, width: UInt32, pitch: Int32, start: SizeT): View
    requires Storable(rows, kind, width, pitch, start)
  {
    ViewOf(|rows|, width, pitch, start, RegionSize(rows, width * BytesPerPixel(kind), pitch))
  }

  /** A stored picture is accepted by every check of the decoder. */
  lemma StoredViewAccepted(rows: seq<seq<Byte>>, kind: PackedKind, width: UInt32, pitch: Int32, start: SizeT,
                           padding: nat -> Byte)
    requires Storable(rows, kind, width, pitch, start)
    ensures var rowBytes := width * BytesPerPixel(kind);
            var view := StoredView(rows, kind, width, pitch, start);
            && LockHolds(view, rowBytes, LaidOut(rows, rowBytes, pitch, padding, start))
            && PackedProblem(view, kind, rowBytes).None?
  {
    var rowBytes := width * BytesPerPixel(kind);
    var view := StoredView(rows, kind, width, pitch, start);
    AccessibleExactly(view.scanline0, pitch, |rows|, start, RegionSize(rows, rowBytes, pitch));
    CheckedExactly(|rows| - 1, Magnitude(pitch));
  }

  lemma RowAddress(height: nat, pitch: int, row: nat)
    requires row < height
    ensures (if pitch < 0 then Span(height, pitch) else 0) + row * pitch
              == (if pitch < 0 then height - 1 - row else row) * Magnitude(pitch)
  {
    if pitch < 0 {
      assert row * pitch == -(row * Magnitude(pitch));
      assert (height - 1 - row) * Magnitude(pitch) == (height - 1) * Magnitude(pitch) - row * Magnitude(pitch);
    }
  }

  lemma StoredByte(rows: seq<seq<Byte>>, rowBytes: nat, pitch: int, padding: nat -> Byte, row: nat, j: nat)
    requires AreRows(rows, rowBytes) && rowBytes <= Magnitude(pitch) && pitch != 0 && row < |rows| && j < rowBytes
    ensures var i := (if pitch < 0 then |rows| - 1 - row else row) * Magnitude(pitch) + j;
            0 <= i < RegionSize(rows, rowBytes, pitch) && RegionByte(rows, rowBytes, pitch, padding, i) == rows[row][j]
  {
    var k := if pitch < 0 then |rows| - 1 - row else row;
    MulMonotone(k, |rows| - 1, Magnitude(pitch));
    DivMod(k, Magnitude(pitch), j);
  }

  lemma SliceIs(bytes: seq<Byte>, from: nat, row: seq<Byte>)
    requires from + |row| <= |bytes|
    requires forall j :: 0 <= j < |row| ==> bytes[from + j] == row[j]
    ensures bytes[from..from + |row|] == row
  {
  }

  /** Where visual row `row` begins in the stored region. */
  function RowOffset(height: nat, pitch: int, row: nat): nat
    requires row < height
  {
    (if pitch < 0 then height - 1 - row else row) * Magnitude(pitch)
  }

  lemma StoredSlice(rows: seq<seq<Byte>>, rowBytes: nat, pitch: int, padding: nat -> Byte, start: SizeT, row: nat)
    requires AreRows(rows, rowBytes) && rowBytes <= Magnitude(pitch) && pitch != 0 && row < |rows|
    ensures var from := RowOffset(|rows|, pitch, row);
            var bytes := LaidOut(rows, rowBytes, pitch, padding, start).bytes;
            from + rowBytes <= |bytes| && bytes[from..from + rowBytes] == rows[row]
  {
    var from := RowOffset(|rows|, pitch, row);
    var bytes := LaidOut(rows, rowBytes, pitch, padding, start).bytes;
    MulMonotone(if pitch < 0 then |rows| - 1 - row else row, |rows| - 1, Magnitude(pitch));
    forall j | 0 <= j < rowBytes
      ensures bytes[from + j] == rows[row][j]
    {
      StoredByte(rows, rowBytes, pitch, padding, row, j);
    }
    SliceIs(bytes, from, rows[row]);
  }

  /** Reading visual row `row` of a stored picture gives that row back. */
  lemma StoredRow(rows: seq<seq<Byte>>, kind: PackedKind, width: UInt32, pitch: Int32, start: SizeT,
                  padding: nat -> Byte, row: nat)
    requires Storable(rows, kind, width, pitch, start) && row < |rows|
    ensures var rowBytes := width * BytesPerPixel(kind);
            var mem := LaidOut(rows, rowBytes, pitch, padding, start);
            var view := StoredView(rows, kind, width, pitch, start);
            RowInBuffer(view, rowBytes, mem, row) && RowBytes(view, rowBytes, mem, row) == rows[row]
  {
    StoredSlice(rows, width * BytesPerPixel(kind), pitch, padding, start, row);
    RowAddress(|rows|, pitch, row);
    assert StoredView(rows, kind, width, pitch, start).scanline0 + row * pitch - start == RowOffset(|rows|, pitch, row);
  }

  /** One picture decodes to the same frame whether it is stored top-down or bottom-up, and
      whatever pitches, paddings and addresses are used. */
  lemma OrientationDoesNotMatter(rows: seq<seq<Byte>>, kind: PackedKind, width: UInt32,
                                 pitch: Int32, start: SizeT, padding: nat -> Byte,
                                 pitch': Int32, start': SizeT, padding': nat -> Byte, row: nat, yuv: Colour)
    requires Storable(rows, kind, width, pitch, start) && Storable(rows, kind, width, pitch', start') && row < |rows|
    ensures var rowBytes := width * BytesPerPixel(kind);
            var mem := LaidOut(rows, rowBytes, pitch, padding, start);
            var mem' := LaidOut(rows, rowBytes, pitch', padding', start');
            var view := StoredView(rows, kind, width, pitch, start);
            var view' := StoredView(rows, kind, width, pitch', start');
            && RowInBuffer(view, rowBytes, mem, row) && RowInBuffer(view', rowBytes, mem', row)
            && PictureRow(view, kind, mem, row, yuv) == PictureRow(view', kind, mem', row, yuv)
  {
    StoredRow(rows, kind, width, pitch, start, padding, row);
    StoredRow(rows, kind, width, pitch', start', padding', row);
  }
}
