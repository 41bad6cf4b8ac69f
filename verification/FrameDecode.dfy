/** Decoding of locked packed buffers to BGR8 (src/camera/uvc_windows/uvc_frame_convert.cpp).

    A buffer is a start address and the bytes from there on.  Every read of a buffer byte is
    an indexing into `bytes`, so what verifies here reads no byte outside the lock. */
module FrameDecode {
  import opened Options
  import opened FrameMath

  newtype Byte = n: int | 0 <= n < 256

  datatype Buffer = Buffer(start: SizeT, bytes: seq<Byte>)

  datatype Format = Rgb24 | Rgb32 | Argb32 | Yuy2 | Uyvy | Nv12 | I420 | Yv12

  datatype PackedKind = KindRgb24 | KindRgbx32 | KindYuy2 | KindUyvy

  /** `Locked2DBufferView`; `accessible` is None when the lock reported no bounds. */
  datatype View = View(scanline0: SizeT, pitch: Int32, width: UInt32, height: UInt32, accessible: Option<SizeT>)

  datatype Bgr = Bgr(b: Byte, g: Byte, r: Byte)

  const MAX_DIMENSION := 16384

  // ----- colours --------------------------------------------------------------------------------

  function ClampToByte(value: int): Byte {
    if value < 0 then 0 else if value > 255 then 255 else value as Byte
  }

  /** Full-range BT.601; `>> 16` of the source is division by 65536 rounding down. */
  function YuvToBgrFull(y: Byte, u: Byte, v: Byte): Bgr {
    var cb, cr := u as int - 128, v as int - 128;
    Bgr(ClampToByte(y as int + 116130 * cb / 65536),
        ClampToByte(y as int - (22554 * cb + 46802 * cr) / 65536),
        ClampToByte(y as int + 91881 * cr / 65536))
  }

  /** The layout code below is the same for every conversion of one pixel. */
  type Colour = (Byte, Byte, Byte) -> Bgr

  // ----- layout ---------------------------------------------------------------------------------

  function BytesPerPixel(kind: PackedKind): nat {
    match kind
    case KindRgb24 => 3
    case KindRgbx32 => 4
    case KindYuy2 => 2
    case KindUyvy => 2
  }

  function PackedKindOf(format: Format): Option<PackedKind> {
    match format
    case Rgb24 => Some(KindRgb24)
    case Rgb32 => Some(KindRgbx32)
    case Argb32 => Some(KindRgbx32)
    case Yuy2 => Some(KindYuy2)
    case Uyvy => Some(KindUyvy)
    case _ => None
  }

  predicate Subsampled(kind: PackedKind) {
    kind.KindYuy2? || kind.KindUyvy?
  }

  /** The pixel in column `column` of a packed row. */
  function RowPixel(kind: PackedKind, row: seq<Byte>, column: nat, yuv: Colour): Bgr
    requires (column + 1) * BytesPerPixel(kind) <= |row|
    requires Subsampled(kind) ==> column - column % 2 + 1 < |row| / 2
  {
    match kind
    case KindRgb24 => Bgr(row[3 * column], row[3 * column + 1], row[3 * column + 2])
    case KindRgbx32 => Bgr(row[4 * column], row[4 * column + 1], row[4 * column + 2])
    case KindYuy2 =>
      var pair := 2 * (column - column % 2);
      yuv(row[2 * column], row[pair + 1], row[pair + 3])
    case KindUyvy =>
      var pair := 2 * (column - column % 2);
      yuv(row[2 * column + 1], row[pair], row[pair + 2])
  }

  /** A row that has `width` pixels of this kind. */
  predicate IsRow(kind: PackedKind, row: seq<Byte>, width: nat) {
    |row| == width * BytesPerPixel(kind) && (Subsampled(kind) ==> width % 2 == 0)
  }

  function Pixel(kind: PackedKind, row: seq<Byte>, width: nat, column: nat, yuv: Colour): Bgr
    requires IsRow(kind, row, width) && column < width
  {
    RowPixel(kind, row, column, yuv)
  }

  /** The three bytes of a pixel as `frame` holds them. */
  predicate Holds(frame: array2<Byte>, row: nat, column: nat, p: Bgr)
    requires row < frame.Length0 && 3 * column + 2 < frame.Length1
    reads frame
  {
    frame[row, 3 * column] == p.b && frame[row, 3 * column + 1] == p.g && frame[row, 3 * column + 2] == p.r
  }

  method PutPixel(frame: array2<Byte>, row: nat, column: nat, p: Bgr)
    requires row < frame.Length0 && 3 * column + 2 < frame.Length1
    modifies frame
    ensures Holds(frame, row, column, p)
    ensures forall r, c ::
              0 <= r < frame.Length0 && 0 <= c < frame.Length1 && !(r == row && 3 * column <= c <= 3 * column + 2)
              ==> frame[r, c] == old(frame[r, c])
  {
    frame[row, 3 * column] := p.b;
    frame[row, 3 * column + 1] := p.g;
    frame[row, 3 * column + 2] := p.r;
  }

  method PutPair(frame: array2<Byte>, row: nat, column: nat, first: Bgr, second: Bgr)
    requires row < frame.Length0 && 3 * column + 5 < frame.Length1
    modifies frame
    ensures Holds(frame, row, column, first) && Holds(frame, row, column + 1, second)
    ensures forall r, c ::
              0 <= r < frame.Length0 && 0 <= c < frame.Length1 && !(r == row && 3 * column <= c <= 3 * column + 5)
              ==> frame[r, c] == old(frame[r, c])
  {
    PutPixel(frame, row, column, first);
    PutPixel(frame, row, column + 1, second);
  }

  method ConvertRgb24Row(source: seq<Byte>, frame: array2<Byte>, row: nat, width: nat, yuv: Colour)
    requires IsRow(KindRgb24, source, width) && row < frame.Length0 && frame.Length1 == 3 * width
    modifies frame
    ensures forall c :: 0 <= c < width ==> Holds(frame, row, c, Pixel(KindRgb24, source, width, c, yuv))
    ensures forall r, c ::
              0 <= r < frame.Length0 && 0 <= c < frame.Length1 && r != row ==> frame[r, c] == old(frame[r, c])
  {
    for column := 0 to width
      invariant forall c :: 0 <= c < column ==> Holds(frame, row, c, Pixel(KindRgb24, source, width, c, yuv))
      invariant forall r, c ::
                  0 <= r < frame.Length0 && 0 <= c < frame.Length1 && r != row ==> frame[r, c] == old(frame[r, c])
    {
      var index := column * 3;
      PutPixel(frame, row, column, Bgr(source[index], source[index + 1], source[index + 2]));
    }
  }

  method ConvertRgbx32Row(source: seq<Byte>, frame: array2<Byte>, row: nat, width: nat, yuv: Colour)
    requires IsRow(KindRgbx32, source, width) && row < frame.Length0 && frame.Length1 == 3 * width
    modifies frame
    ensures forall c :: 0 <= c < width ==> Holds(frame, row, c, Pixel(KindRgbx32, source, width, c, yuv))
    ensures forall r, c ::
              0 <= r < frame.Length0 && 0 <= c < frame.Length1 && r != row ==> frame[r, c] == old(frame[r, c])
  {
    for column := 0 to width
      invariant forall c :: 0 <= c < column ==> Holds(frame, row, c, Pixel(KindRgbx32, source, width, c, yuv))
      invariant forall r, c ::
                  0 <= r < frame.Length0 && 0 <= c < frame.Length1 && r != row ==> frame[r, c] == old(frame[r, c])
    {
      var index := column * 4;
      PutPixel(frame, row, column, Bgr(source[index], source[index + 1], source[index + 2]));
    }
  }

  method ConvertYuy2Row(source: seq<Byte>, frame: array2<Byte>, row: nat, width: nat, yuv: Colour)
    requires IsRow(KindYuy2, source, width) && row < frame.Length0 && frame.Length1 == 3 * width
    modifies frame
    ensures forall c :: 0 <= c < width ==> Holds(frame, row, c, Pixel(KindYuy2, source, width, c, yuv))
    ensures forall r, c ::
              0 <= r < frame.Length0 && 0 <= c < frame.Length1 && r != row ==> frame[r, c] == old(frame[r, c])
  {
    var column := 0;
    while column + 1 < width
      invariant 0 <= column <= width && column % 2 == 0
      invariant forall c :: 0 <= c < column ==> Holds(frame, row, c, Pixel(KindYuy2, source, width, c, yuv))
      invariant forall r, c ::
                  0 <= r < frame.Length0 && 0 <= c < frame.Length1 && r != row ==> frame[r, c] == old(frame[r, c])
    {
      var index := column * 2;
      var u, v := source[index + 1], source[index + 3];
      var first, second := yuv(source[index], u, v), yuv(source[index + 2], u, v);
      PutPair(frame, row, column, first, second);
      assert first == Pixel(KindYuy2, source, width, column, yuv);
      assert second == Pixel(KindYuy2, source, width, column + 1, yuv);
      column := column + 2;
    }
  }

  method ConvertUyvyRow(source: seq<Byte>, frame: array2<Byte>, row: nat, width: nat, yuv: Colour)
    requires IsRow(KindUyvy, source, width) && row < frame.Length0 && frame.Length1 == 3 * width
    modifies frame
    ensures forall c :: 0 <= c < width ==> Holds(frame, row, c, Pixel(KindUyvy, source, width, c, yuv))
    ensures forall r, c ::
              0 <= r < frame.Length0 && 0 <= c < frame.Length1 && r != row ==> frame[r, c] == old(frame[r, c])
  {
    var column := 0;
    while column + 1 < width
      invariant 0 <= column <= width && column % 2 == 0
      invariant forall c :: 0 <= c < column ==> Holds(frame, row, c, Pixel(KindUyvy, source, width, c, yuv))
      invariant forall r, c ::
                  0 <= r < frame.Length0 && 0 <= c < frame.Length1 && r != row ==> frame[r, c] == old(frame[r, c])
    {
      var index := column * 2;
      var u, v := source[index], source[index + 2];
      var first, second := yuv(source[index + 1], u, v), yuv(source[index + 3], u, v);
      PutPair(frame, row, column, first, second);
      assert first == Pixel(KindUyvy, source, width, column, yuv);
      assert second == Pixel(KindUyvy, source, width, column + 1, yuv);
      column := column + 2;
    }
  }

  function Channel(p: Bgr, k: nat): Byte {
    if k == 0 then p.b else if k == 1 then p.g else p.r
  }

  /** A packed row as BGR8: three bytes for each pixel. */
  function ConvertedRow(kind: PackedKind, source: seq<Byte>, width: nat, yuv: Colour): (r: seq<Byte>)
    requires IsRow(kind, source, width)
    ensures |r| == 3 * width
  {
    seq(3 * width, i requires 0 <= i < 3 * width => Channel(Pixel(kind, source, width, i / 3, yuv), i % 3))
  }

  /** Row `row` of a frame as a value. */
  function FrameRow(frame: array2<Byte>, row: nat): (r: seq<Byte>)
    requires row < frame.Length0
    ensures |r| == frame.Length1
    reads frame
  {
    seq(frame.Length1, c requires 0 <= c < frame.Length1 reads frame => frame[row, c])
  }

  lemma HeldRow(source: seq<Byte>, frame: array2<Byte>, row: nat, width: nat, kind: PackedKind, yuv: Colour)
    requires IsRow(kind, source, width) && row < frame.Length0 && frame.Length1 == 3 * width
    requires forall c :: 0 <= c < width ==> Holds(frame, row, c, Pixel(kind, source, width, c, yuv))
    ensures FrameRow(frame, row) == ConvertedRow(kind, source, width, yuv)
  {
    forall i | 0 <= i < 3 * width
      ensures frame[row, i] == Channel(Pixel(kind, source, width, i / 3, yuv), i % 3)
    {
      assert i == 3 * (i / 3) + i % 3;
      assert Holds(frame, row, i / 3, Pixel(kind, source, width, i / 3, yuv));
    }
  }

  method ConvertPackedRow(source: seq<Byte>, frame: array2<Byte>, row: nat, width: nat, kind: PackedKind, yuv: Colour)
    requires IsRow(kind, source, width) && row < frame.Length0 && frame.Length1 == 3 * width
    modifies frame
    ensures FrameRow(frame, row) == ConvertedRow(kind, source, width, yuv)
    ensures forall r :: 0 <= r < frame.Length0 && r != row ==> FrameRow(frame, r) == old(FrameRow(frame, r))
  {
    match kind {
      case KindRgb24 => ConvertRgb24Row(source, frame, row, width, yuv);
      case KindRgbx32 => ConvertRgbx32Row(source, frame, row, width, yuv);
      case KindYuy2 => ConvertYuy2Row(source, frame, row, width, yuv);
      case KindUyvy => ConvertUyvyRow(source, frame, row, width, yuv);
    }
    HeldRow(source, frame, row, width, kind, yuv);
  }

  // ----- decode_packed ---------------------------------------------------------------------------

  datatype DecodeError = OddWidth | ZeroPitch | PitchTooSmall | ExtentOverflow | BufferTooSmall | RowOutside

  datatype Decoded = Frame(pixels: array2<Byte>) | Rejected(error: DecodeError)

  /** The structural checks and the check of the whole extent. */
  function PackedProblem(view: View, kind: PackedKind, rowBytes: SizeT): Option<DecodeError>
    requires view.height >= 1
  {
    if Subsampled(kind) && view.width % 2 != 0 then Some(OddWidth)
    else if view.pitch == 0 then Some(ZeroPitch)
    else if PitchMagnitude(view.pitch).None? || PitchMagnitude(view.pitch).value < rowBytes then Some(PitchTooSmall)
    else
      var extent := PackedRegionExtent(view.pitch, view.height, rowBytes);
      if extent.None? then Some(ExtentOverflow)
      else if view.accessible.Some? && view.accessible.value < extent.value then Some(BufferTooSmall)
      else None
  }

  /** What the caller knows about the lock: when bounds were reported, they are the exact
      rebased range; when not, the driver itself vouches for the rows the pitch describes. */
  ghost predicate LockHolds(view: View, rowBytes: SizeT, mem: Buffer) {
    if view.accessible.Some?
    then |mem.bytes| <= SIZE_MAX
         && LockAccessibleExtent(view.scanline0, view.pitch, view.height, mem.start, |mem.bytes|) == view.accessible
    else forall row: nat, j: nat :: row < view.height && j < rowBytes ==>
           mem.start <= ByteAddress(view.scanline0, view.pitch, row, j) < mem.start + |mem.bytes|
  }

  /** Row `row` of the picture lies in the buffer. */
  predicate RowInBuffer(view: View, rowBytes: nat, mem: Buffer, row: nat) {
    var from := view.scanline0 + row * view.pitch - mem.start;
    0 <= from && from + rowBytes <= |mem.bytes|
  }

  function RowBytes(view: View, rowBytes: nat, mem: Buffer, row: nat): (r: seq<Byte>)
    requires RowInBuffer(view, rowBytes, mem, row)
    ensures |r| == rowBytes
  {
    var from := view.scanline0 + row * view.pitch - mem.start;
    mem.bytes[from..from + rowBytes]
  }

  /** Every accepted view has all its rows in the buffer: no read leaves the lock. */
  lemma AcceptedRowsInBuffer(view: View, kind: PackedKind, rowBytes: SizeT, mem: Buffer, row: nat)
    requires view.height >= 1 && rowBytes >= 1 && LockHolds(view, rowBytes, mem)
    requires PackedProblem(view, kind, rowBytes).None? && row < view.height
    ensures RowInBuffer(view, rowBytes, mem, row)
  {
    if view.accessible.Some? {
      RowsInsideLock(view.scanline0, view.pitch, view.height, rowBytes, mem.start, |mem.bytes|, row, 0);
      RowsInsideLock(view.scanline0, view.pitch, view.height, rowBytes, mem.start, |mem.bytes|, row, rowBytes - 1);
    } else {
      assert mem.start <= ByteAddress(view.scanline0, view.pitch, row, 0);
      assert ByteAddress(view.scanline0, view.pitch, row, rowBytes - 1) < mem.start + |mem.bytes|;
    }
  }

  /** Row `row` of the picture that the view shows, as BGR8. */
  ghost function PictureRow(view: View, kind: PackedKind, mem: Buffer, row: nat, yuv: Colour): (r: seq<Byte>)
    requires RowInBuffer(view, view.width * BytesPerPixel(kind), mem, row)
    requires Subsampled(kind) ==> view.width % 2 == 0
    ensures |r| == 3 * view.width
  {
    ConvertedRow(kind, RowBytes(view, view.width * BytesPerPixel(kind), mem, row), view.width, yuv)
  }

  /** The first `rows` rows of `frame` are those of the picture. */
  ghost predicate Pictured(view: View, kind: PackedKind, mem: Buffer, frame: array2<Byte>, rows: nat, yuv: Colour)
    requires Subsampled(kind) ==> view.width % 2 == 0
    requires rows <= frame.Length0
    reads frame
  {
    forall row: nat :: row < rows ==>
      && RowInBuffer(view, view.width * BytesPerPixel(kind), mem, row)
      && FrameRow(frame, row) == PictureRow(view, kind, mem, row, yuv)
  }

  /** `decode_packed`: it fails exactly for the stated reasons (the check of single rows adds
      none), and otherwise returns the picture, having read no byte outside the buffer. */
  method DecodePacked(view: View, kind: PackedKind, mem: Buffer) returns (r: Decoded)
    requires 1 <= view.width <= MAX_DIMENSION && 1 <= view.height <= MAX_DIMENSION
    requires PackedProblem(view, kind, view.width * BytesPerPixel(kind)).None? ==>
               LockHolds(view, view.width * BytesPerPixel(kind), mem)
    ensures match PackedProblem(view, kind, view.width * BytesPerPixel(kind))
            case Some(error) => r == Rejected(error)
            case None =>
              && r.Frame? && fresh(r.pixels)
              && r.pixels.Length0 == view.height && r.pixels.Length1 == 3 * view.width
              && Pictured(view, kind, mem, r.pixels, view.height, YuvToBgrFull)
  {
    var rowBytes: SizeT := view.width * BytesPerPixel(kind);
    if Subsampled(kind) && view.width % 2 != 0 {
      return Rejected(OddWidth);
    }
    if view.pitch == 0 {
      return Rejected(ZeroPitch);
    }
    var magnitude := PitchMagnitude(view.pitch);
    if magnitude.None? || magnitude.value < rowBytes {
      return Rejected(PitchTooSmall);
    }
    var extent := PackedRegionExtent(view.pitch, view.height, rowBytes);
    if extent.None? {
      return Rejected(ExtentOverflow);
    }
    if view.accessible.Some? {
      if view.accessible.value < extent.value {
        return Rejected(BufferTooSmall);
      }
      ExtentCoversRows(view.pitch, view.height, rowBytes, view.accessible.value);
      for row := 0 to view.height {
        if !PackedRowFits(row, view.pitch, view.height, rowBytes, view.accessible.value) {
          return Rejected(RowOutside);
        }
      }
    }
    var frame := new Byte[view.height, 3 * view.width];
    CopyRows(view, kind, mem, frame, YuvToBgrFull);
    return Frame(frame);
  }

  method CopyRows(view: View, kind: PackedKind, mem: Buffer, frame: array2<Byte>, yuv: Colour)
    requires 1 <= view.width <= MAX_DIMENSION && 1 <= view.height
    requires PackedProblem(view, kind, view.width * BytesPerPixel(kind)).None?
    requires LockHolds(view, view.width * BytesPerPixel(kind), mem)
    requires frame.Length0 == view.height && frame.Length1 == 3 * view.width
    modifies frame
    ensures Pictured(view, kind, mem, frame, view.height, yuv)
  {
    var rowBytes := view.width * BytesPerPixel(kind);
    for row := 0 to view.height
      invariant Pictured(view, kind, mem, frame, row, yuv)
    {
      AcceptedRowsInBuffer(view, kind, rowBytes, mem, row);
      ConvertPackedRow(RowBytes(view, rowBytes, mem, row), frame, row, view.width, kind, yuv);
    }
  }
}
