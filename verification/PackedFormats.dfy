/** The packed pixel formats by the bytes they store, as inverses of the decoder: what a frame in
    each public format decodes to (src/camera/uvc_windows/uvc_frame_convert.cpp:61-147). */
module PackedFormats {
  import opened Options
  import opened FrameMath
  import opened FrameDecode
  import opened PackedLayout

  // ----- RGB ---------------------------------------------------------------------------------------

  predicate IsRgb(format: Format) {
    format.Rgb24? || format.Rgb32? || format.Argb32?
  }

  /** RGB24 stores B, G, R; RGB32 and ARGB32 store B, G, R and a fourth byte. */
  function RgbRow(format: Format, bgr: seq<Byte>, width: nat, filler: nat -> Byte): (r: seq<Byte>)
    requires IsRgb(format) && |bgr| == 3 * width
    ensures |r| == width * if format.Rgb24? then 3 else 4
  {
    if format.Rgb24? then bgr
    else seq(4 * width, i requires 0 <= i < 4 * width => if i % 4 < 3 then bgr[i / 4 * 3 + i % 4] else filler(i))
  }

  lemma RgbPixel(format: Format, bgr: seq<Byte>, width: nat, filler: nat -> Byte, column: nat, yuv: Colour)
    requires IsRgb(format) && |bgr| == 3 * width && column < width
    ensures PackedKindOf(format).Some?
    ensures var kind, row := PackedKindOf(format).value, RgbRow(format, bgr, width, filler);
            && IsRow(kind, row, width)
            && Pixel(kind, row, width, column, yuv) == Bgr(bgr[3 * column], bgr[3 * column + 1], bgr[3 * column + 2])
  {
    var row := RgbRow(format, bgr, width, filler);
    if !format.Rgb24? {
      DivMod(column, 4, 0);
      DivMod(column, 4, 1);
      DivMod(column, 4, 2);
      assert row[4 * column] == bgr[3 * column];
      assert row[4 * column + 1] == bgr[3 * column + 1];
      assert row[4 * column + 2] == bgr[3 * column + 2];
    }
  }

  lemma RgbRowConverts(format: Format, bgr: seq<Byte>, width: nat, filler: nat -> Byte, yuv: Colour)
    requires IsRgb(format) && |bgr| == 3 * width && width > 0
    ensures PackedKindOf(format).Some?
    ensures var kind, row := PackedKindOf(format).value, RgbRow(format, bgr, width, filler);
            IsRow(kind, row, width) && ConvertedRow(kind, row, width, yuv) == bgr
  {
    RgbPixel(format, bgr, width, filler, 0, yuv);
    var r := ConvertedRow(PackedKindOf(format).value, RgbRow(format, bgr, width, filler), width, yuv);
    forall i | 0 <= i < 3 * width
      ensures r[i] == bgr[i]
    {
      RgbPixel(format, bgr, width, filler, i / 3, yuv);
      ConvertedByte(PackedKindOf(format).value, RgbRow(format, bgr, width, filler), width, i, yuv);
      ThirdOf(i);
    }
  }

  lemma ThirdOf(i: nat)
    ensures i == 3 * (i / 3) || i == 3 * (i / 3) + 1 || i == 3 * (i / 3) + 2
    ensures i % 3 == i - 3 * (i / 3)
  {
  }

  lemma ConvertedByte(kind: PackedKind, row: seq<Byte>, width: nat, i: nat, yuv: Colour)
    requires IsRow(kind, row, width) && i < 3 * width
    ensures ConvertedRow(kind, row, width, yuv)[i] == Channel(Pixel(kind, row, width, i / 3, yuv), i % 3)
  {
  }

  // ----- YUV 4:2:2 ---------------------------------------------------------------------------------

  predicate Is422(format: Format) {
    format.Yuy2? || format.Uyvy?
  }

  /** Luma for every pixel, and one U and one V for every pair of pixels. */
  predicate IsPairRow(luma: seq<Byte>, u: seq<Byte>, v: seq<Byte>, width: nat) {
    |luma| == width && 2 * |u| == width && 2 * |v| == width
  }

  /** YUY2 stores Y0 U Y1 V for each pair of pixels, UYVY stores U Y0 V Y1. */
  function PairRow(format: Format, luma: seq<Byte>, u: seq<Byte>, v: seq<Byte>, width: nat): (r: seq<Byte>)
    requires Is422(format) && IsPairRow(luma, u, v, width)
    ensures |r| == 2 * width
  {
    seq(2 * width, i requires 0 <= i < 2 * width => PairByte(format, luma, u, v, width, i / 4, i % 4))
  }

  function PairByte(format: Format, luma: seq<Byte>, u: seq<Byte>, v: seq<Byte>, width: nat, pair: nat, k: nat): Byte
    requires Is422(format) && IsPairRow(luma, u, v, width) && 2 * pair < width && k < 4
  {
    match (format.Yuy2?, k)
    case (true, 0) => luma[2 * pair]
    case (true, 1) => u[pair]
    case (true, 2) => luma[2 * pair + 1]
    case (true, 3) => v[pair]
    case (false, 0) => u[pair]
    case (false, 1) => luma[2 * pair]
    case (false, 2) => v[pair]
    case (false, _) => luma[2 * pair + 1]
  }

  /** The pixels of the row, each with its own luma and the chroma of its pair, as BGR8. */
  function PairColours(luma: seq<Byte>, u: seq<Byte>, v: seq<Byte>, width: nat, yuv: Colour): (r: seq<Byte>)
    requires IsPairRow(luma, u, v, width)
    ensures |r| == 3 * width
  {
    seq(3 * width, i requires 0 <= i < 3 * width =>
      var p := yuv(luma[i / 3], u[i / 6], v[i / 6]);
      if i % 3 == 0 then p.b else if i % 3 == 1 then p.g else p.r)
  }

  lemma PairPixel(format: Format, luma: seq<Byte>, u: seq<Byte>, v: seq<Byte>, width: nat, column: nat, yuv: Colour)
    requires Is422(format) && IsPairRow(luma, u, v, width) && column < width
    ensures PackedKindOf(format).Some?
    ensures var kind, row := PackedKindOf(format).value, PairRow(format, luma, u, v, width);
            && IsRow(kind, row, width)
            && Pixel(kind, row, width, column, yuv) == yuv(luma[column], u[column / 2], v[column / 2])
  {
    var row := PairRow(format, luma, u, v, width);
    var pair := column / 2;
    PairRowByte(format, luma, u, v, width, pair, 0);
    PairRowByte(format, luma, u, v, width, pair, 1);
    PairRowByte(format, luma, u, v, width, pair, 2);
    PairRowByte(format, luma, u, v, width, pair, 3);
    PixelOfPair(format, row, width, column, yuv);
    if column % 2 == 0 {
      assert column == 2 * pair;
    } else {
      assert column == 2 * pair + 1;
    }
  }

  lemma PairRowByte(format: Format, luma: seq<Byte>, u: seq<Byte>, v: seq<Byte>, width: nat, pair: nat, k: nat)
    requires Is422(format) && IsPairRow(luma, u, v, width) && 2 * pair < width && k < 4
    ensures PairRow(format, luma, u, v, width)[4 * pair + k] == PairByte(format, luma, u, v, width, pair, k)
  {
    DivMod(pair, 4, k);
  }

  /** Where the decoder finds luma and chroma of a pixel. */
  lemma PixelOfPair(format: Format, row: seq<Byte>, width: nat, column: nat, yuv: Colour)
    requires Is422(format) && |row| == 2 * width && width % 2 == 0 && column < width
    ensures PackedKindOf(format).Some? && IsRow(PackedKindOf(format).value, row, width)
    ensures var pixel, at := Pixel(PackedKindOf(format).value, row, width, column, yuv), 4 * (column / 2);
            pixel == if format.Yuy2? then yuv(row[at + 2 * (column % 2)], row[at + 1], row[at + 3])
                     else yuv(row[at + 1 + 2 * (column % 2)], row[at], row[at + 2])
  {
    assert column == 2 * (column / 2) + column % 2;
  }

  /** A row of luma and chroma, stored in YUY2 or UYVY, converts to the colour of every pixel. */
  lemma PairRowConverts(format: Format, luma: seq<Byte>, u: seq<Byte>, v: seq<Byte>, width: nat, yuv: Colour)
    requires Is422(format) && IsPairRow(luma, u, v, width)
    ensures PackedKindOf(format).Some?
    ensures var kind, row := PackedKindOf(format).value, PairRow(format, luma, u, v, width);
            && IsRow(kind, row, width)
            && ConvertedRow(kind, row, width, yuv) == PairColours(luma, u, v, width, yuv)
  {
    var kind, row := PackedKindOf(format).value, PairRow(format, luma, u, v, width);
    assert IsRow(kind, row, width);
    forall i | 0 <= i < 3 * width
      ensures ConvertedRow(kind, row, width, yuv)[i] == PairColours(luma, u, v, width, yuv)[i]
    {
      PairPixel(format, luma, u, v, width, i / 3, yuv);
    }
  }

  // ----- whole pictures ----------------------------------------------------------------------------

  /** Decoding a stored picture of a public format gives back row by row what was laid out. */
  lemma StoredPictureDecodes(rows: seq<seq<Byte>>, format: Format, width: UInt32, pitch: Int32, start: SizeT,
                             padding: nat -> Byte, row: nat, yuv: Colour)
    requires PackedKindOf(format).Some?
    requires Storable(rows, PackedKindOf(format).value, width, pitch, start) && row < |rows|
    ensures var kind := PackedKindOf(format).value;
            var rowBytes := width * BytesPerPixel(kind);
            var mem := LaidOut(rows, rowBytes, pitch, padding, start);
            var view := StoredView(rows, kind, width, pitch, start);
            && PackedProblem(view, kind, rowBytes).None?
            && RowInBuffer(view, rowBytes, mem, row)
            && IsRow(kind, rows[row], width)
            && PictureRow(view, kind, mem, row, yuv) == ConvertedRow(kind, rows[row], width, yuv)
  {
    StoredViewAccepted(rows, PackedKindOf(format).value, width, pitch, start, padding);
    StoredRow(rows, PackedKindOf(format).value, width, pitch, start, padding, row);
  }

  /** Any BGR8 image, stored in RGB24, RGB32 or ARGB32, top-down or bottom-up, with any padding, is
      decoded to itself. */
  lemma RgbRoundTrip(image: seq<seq<Byte>>, rows: seq<seq<Byte>>, format: Format, width: UInt32, pitch: Int32,
                     start: SizeT, padding: nat -> Byte, filler: nat -> Byte, row: nat, yuv: Colour)
    requires IsRgb(format) && PackedKindOf(format).Some? && |rows| == |image| && row < |image|
    requires forall r :: 0 <= r < |image| ==>
               |image[r]| == 3 * width && rows[r] == RgbRow(format, image[r], width, filler)
    requires Storable(rows, PackedKindOf(format).value, width, pitch, start)
    ensures var kind := PackedKindOf(format).value;
            var mem := LaidOut(rows, width * BytesPerPixel(kind), pitch, padding, start);
            var view := StoredView(rows, kind, width, pitch, start);
            && PackedProblem(view, kind, width * BytesPerPixel(kind)).None?
            && RowInBuffer(view, width * BytesPerPixel(kind), mem, row)
            && PictureRow(view, kind, mem, row, yuv) == image[row]
  {
    StoredPictureDecodes(rows, format, width, pitch, start, padding, row, yuv);
    RgbRowConverts(format, image[row], width, filler, yuv);
  }

  /** Any luma and chroma, stored in YUY2 or UYVY, top-down or bottom-up, with any padding, is
      decoded to the colours of its pixels. */
  lemma PairRoundTrip(luma: seq<seq<Byte>>, u: seq<seq<Byte>>, v: seq<seq<Byte>>, rows: seq<seq<Byte>>, format: Format,
                      width: UInt32, pitch: Int32, start: SizeT, padding: nat -> Byte, row: nat, yuv: Colour)
    requires Is422(format) && PackedKindOf(format).Some?
    requires |rows| == |luma| == |u| == |v| && row < |rows|
    requires forall r :: 0 <= r < |rows| ==>
               IsPairRow(luma[r], u[r], v[r], width) && rows[r] == PairRow(format, luma[r], u[r], v[r], width)
    requires Storable(rows, PackedKindOf(format).value, width, pitch, start)
    ensures var kind := PackedKindOf(format).value;
            var mem := LaidOut(rows, width * BytesPerPixel(kind), pitch, padding, start);
            var view := StoredView(rows, kind, width, pitch, start);
            && PackedProblem(view, kind, width * BytesPerPixel(kind)).None?
            && RowInBuffer(view, width * BytesPerPixel(kind), mem, row)
            && PictureRow(view, kind, mem, row, yuv) == PairColours(luma[row], u[row], v[row], width, yuv)
  {
    StoredPictureDecodes(rows, format, width, pitch, start, padding, row, yuv);
    PairRowConverts(format, luma[row], u[row], v[row], width, yuv);
  }

  // ----- which views are accepted --------------------------------------------------------------------

  /** A packed view is accepted exactly if 4:2:2 rows have whole pairs, no row overlaps the next,
      and the rows, as far apart as the pitch says, fit the address space and the lock. */
  lemma PackedAcceptedExactly(view: View, kind: PackedKind)
    requires 1 <= view.width <= MAX_DIMENSION && 1 <= view.height
    ensures var rowBytes := view.width * BytesPerPixel(kind);
            var extent := (view.height - 1) * Magnitude(view.pitch) + rowBytes;
            PackedProblem(view, kind, rowBytes).None? <==>
              && (kind.KindYuy2? || kind.KindUyvy? ==> view.width % 2 == 0)
              && view.pitch != INT32_MIN && rowBytes <= Magnitude(view.pitch)
              && extent <= SIZE_MAX && (view.accessible.Some? ==> extent <= view.accessible.value)
  {
    CheckedExactly(view.height - 1, Magnitude(view.pitch));
  }

  // ----- colours -------------------------------------------------------------------------------------

  function Abs(n: int): nat {
    if n < 0 then -n else n
  }

  /** The nearest value of a byte, in millionths. */
  function Saturated(millionths: int): int {
    if millionths < 0 then 0 else if millionths > 255_000_000 then 255_000_000 else millionths
  }

  predicate Near(b: Byte, millionths: int) {
    Abs(1_000_000 * (b as int) - Saturated(millionths)) <= 1_010_000
  }

  /** The conversion is that of BT.601 at full range, with coefficients 1.402, 0.344136, 0.714136
      and 1.772, up to rounding by about one step. */
  lemma YuvIsFullRangeBt601(y: Byte, u: Byte, v: Byte)
    ensures var cb, cr, luma := u as int - 128, v as int - 128, 1_000_000 * (y as int);
            && Near(YuvToBgrFull(y, u, v).r, luma + 1_402_000 * cr)
            && Near(YuvToBgrFull(y, u, v).g, luma - 344_136 * cb - 714_136 * cr)
            && Near(YuvToBgrFull(y, u, v).b, luma + 1_772_000 * cb)
  {
    RedIsNear(y, v);
    GreenIsNear(y, u, v);
    BlueIsNear(y, u);
  }

  lemma RedIsNear(y: Byte, v: Byte)
    ensures var cr := v as int - 128;
            Near(ClampToByte(y as int + 91881 * cr / 65536), 1_000_000 * (y as int) + 1_402_000 * cr)
  {
  }

  lemma GreenIsNear(y: Byte, u: Byte, v: Byte)
    ensures var cb, cr := u as int - 128, v as int - 128;
            Near(ClampToByte(y as int - (22554 * cb + 46802 * cr) / 65536),
                 1_000_000 * (y as int) - 344_136 * cb - 714_136 * cr)
  {
  }

  lemma BlueIsNear(y: Byte, u: Byte)
    ensures var cb := u as int - 128;
            Near(ClampToByte(y as int + 116130 * cb / 65536), 1_000_000 * (y as int) + 1_772_000 * cb)
  {
  }

  /** Neutral chroma is grey, exactly. */
  lemma NeutralChromaIsGrey(y: Byte)
    ensures YuvToBgrFull(y, 128, 128) == Bgr(y, y, y)
  {
  }
}
