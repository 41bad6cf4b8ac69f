/** The planar pixel formats by addresses: where every byte of the repacked frame comes from, and
    which views are accepted (src/camera/uvc_windows/uvc_frame_convert.cpp:185-305). */
module PlanarFormats {
  import opened Options
  import opened FrameMath
  import opened FrameDecode
  import opened PlanarDecode
  import L = LockedDecode

  /** Byte `j` of chroma row `row`, counted from the first chroma byte of a frame with half the
      width and half the height. */
  function ChromaAt(view: View, row: nat, j: nat): nat {
    NatProduct(row, view.width / 2);
    row * (view.width / 2) + j
  }

  /** Bytes of one chroma plane of the repacked frame. */
  function ChromaBytes(view: View): nat {
    NatProduct(view.height / 2, view.width / 2);
    view.height / 2 * (view.width / 2)
  }

  /** The address of that byte in the buffer, from the beginning of a chroma plane. */
  function ChromaAddress(view: View, row: nat, j: nat): nat
    requires view.pitch > 0
  {
    NatProduct(row, view.pitch / 2);
    row * (view.pitch / 2) + j
  }

  lemma RepackedLuma(view: View, bytes: seq<Byte>, base: nat, i420: bool, row: nat, j: nat)
    requires EvenFrame(view) && PlanesFit(view, |bytes|, base) && row < view.height && j < view.width
    ensures 0 <= row * view.width + j < |Repacked(view, bytes, base, i420)|
    ensures 0 <= base + row * view.pitch + j < |bytes|
    ensures Repacked(view, bytes, base, i420)[row * view.width + j] == bytes[base + row * view.pitch + j]
  {
    PlaneByte(bytes, base, view.pitch, view.width, view.height, row, j);
    NatProduct(row, view.width);
    NatProduct(row, view.pitch);
  }

  /** The chroma part of the repacked frame: the plane named first, then the other. */
  lemma ChromaByte(view: View, bytes: seq<Byte>, base: nat, i420: bool, second: bool, row: nat, j: nat)
    requires EvenFrame(view) && PlanesFit(view, |bytes|, base) && row < view.height / 2 && j < view.width / 2
    ensures var i := (if second then ChromaBytes(view) else 0) + ChromaAt(view, row, j);
            var plane := if second then VBase(view, base, i420) else UBase(view, base, i420);
            && i < |Chroma(view, bytes, base, i420)| && plane + ChromaAddress(view, row, j) < |bytes|
            && Chroma(view, bytes, base, i420)[i] == bytes[plane + ChromaAddress(view, row, j)]
  {
    var stride, rowBytes, rows := view.pitch / 2, view.width / 2, view.height / 2;
    PlaneByte(bytes, UBase(view, base, i420), stride, rowBytes, rows, row, j);
    PlaneByte(bytes, VBase(view, base, i420), stride, rowBytes, rows, row, j);
  }

  lemma RepackedChroma(view: View, bytes: seq<Byte>, base: nat, i420: bool, second: bool, row: nat, j: nat)
    requires EvenFrame(view) && PlanesFit(view, |bytes|, base) && row < view.height / 2 && j < view.width / 2
    ensures var i := view.height * view.width + (if second then ChromaBytes(view) else 0) + ChromaAt(view, row, j);
            var plane := if second then VBase(view, base, i420) else UBase(view, base, i420);
            && 0 <= i < |Repacked(view, bytes, base, i420)| && plane + ChromaAddress(view, row, j) < |bytes|
            && Repacked(view, bytes, base, i420)[i] == bytes[plane + ChromaAddress(view, row, j)]
  {
    NatProduct(view.height, view.width);
    ChromaByte(view, bytes, base, i420, second, row, j);
  }

  // ----- the frame that a lock decodes to ------------------------------------------------------------

  /** Distance from scanline 0 to the first byte of the U plane: I420 stores U directly behind the
      luma rows, YV12 stores V there and U behind it. */
  function UOffset(view: View, format: Format): nat
    requires view.pitch > 0 && (format.I420? || format.Yv12?)
  {
    NatProduct(view.height, view.pitch);
    NatProduct(view.height / 2, view.pitch / 2);
    view.height * view.pitch + match format case I420 => 0 case Yv12 => view.height / 2 * (view.pitch / 2)
  }

  function VOffset(view: View, format: Format): nat
    requires view.pitch > 0 && (format.I420? || format.Yv12?)
  {
    NatProduct(view.height, view.pitch);
    NatProduct(view.height / 2, view.pitch / 2);
    view.height * view.pitch + match format case Yv12 => 0 case I420 => view.height / 2 * (view.pitch / 2)
  }

  /** Every luma byte of the frame that is decoded from an I420 or YV12 lock. */
  lemma LumaSource(view: View, format: Format, mem: Buffer, r: L.LockedResult, row: nat, j: nat)
    requires format.I420? || format.Yv12?
    requires L.LockedProblem(view, format).None? && L.Shows(view, format, mem, r)
    requires row < view.height && j < view.width
    ensures r.Planes? && mem.start <= view.scanline0 && view.pitch > 0
    ensures 0 <= row * view.width + j < r.planes.Length
    ensures 0 <= view.scanline0 - mem.start + row * view.pitch + j < |mem.bytes|
    ensures r.planes[row * view.width + j] == mem.bytes[view.scanline0 - mem.start + row * view.pitch + j]
  {
    RepackedLuma(view, mem.bytes, Base(view, mem), format.I420?, row, j);
  }

  /** Every U and V byte of that frame: U behind the luma rows and V behind U, from the place where
      the format stores them. */
  lemma ChromaSource(view: View, format: Format, mem: Buffer, r: L.LockedResult, row: nat, j: nat)
    requires format.I420? || format.Yv12?
    requires L.LockedProblem(view, format).None? && L.Shows(view, format, mem, r)
    requires row < view.height / 2 && j < view.width / 2
    ensures r.Planes? && mem.start <= view.scanline0 && view.pitch > 0
    ensures var base := view.scanline0 - mem.start;
            var u := view.height * view.width + ChromaAt(view, row, j);
            var v := u + ChromaBytes(view);
            && 0 <= u && v < r.planes.Length
            && base + UOffset(view, format) + ChromaAddress(view, row, j) < |mem.bytes|
            && base + VOffset(view, format) + ChromaAddress(view, row, j) < |mem.bytes|
            && r.planes[u] == mem.bytes[base + UOffset(view, format) + ChromaAddress(view, row, j)]
            && r.planes[v] == mem.bytes[base + VOffset(view, format) + ChromaAddress(view, row, j)]
  {
    USource(view, format, mem, r, row, j);
    VSource(view, format, mem, r, row, j);
  }

  lemma USource(view: View, format: Format, mem: Buffer, r: L.LockedResult, row: nat, j: nat)
    requires format.I420? || format.Yv12?
    requires L.LockedProblem(view, format).None? && L.Shows(view, format, mem, r)
    requires row < view.height / 2 && j < view.width / 2
    ensures r.Planes? && mem.start <= view.scanline0 && view.pitch > 0
    ensures var from := view.scanline0 - mem.start + UOffset(view, format) + ChromaAddress(view, row, j);
            var u := view.height * view.width + ChromaAt(view, row, j);
            from < |mem.bytes| && 0 <= u < r.planes.Length && r.planes[u] == mem.bytes[from]
  {
    RepackedChroma(view, mem.bytes, Base(view, mem), format.I420?, false, row, j);
  }

  lemma VSource(view: View, format: Format, mem: Buffer, r: L.LockedResult, row: nat, j: nat)
    requires format.I420? || format.Yv12?
    requires L.LockedProblem(view, format).None? && L.Shows(view, format, mem, r)
    requires row < view.height / 2 && j < view.width / 2
    ensures r.Planes? && mem.start <= view.scanline0 && view.pitch > 0
    ensures var from := view.scanline0 - mem.start + VOffset(view, format) + ChromaAddress(view, row, j);
            var v := view.height * view.width + ChromaAt(view, row, j) + ChromaBytes(view);
            from < |mem.bytes| && 0 <= v < r.planes.Length && r.planes[v] == mem.bytes[from]
  {
    RepackedChroma(view, mem.bytes, Base(view, mem), format.I420?, true, row, j);
  }

  /** Every byte of the frame that is decoded from an NV12 lock: luma rows and rows of interleaved
      chroma alike. */
  lemma Nv12Source(view: View, mem: Buffer, r: L.LockedResult, row: nat, j: nat)
    requires L.LockedProblem(view, Nv12).None? && L.Shows(view, Nv12, mem, r)
    requires row < view.height + view.height / 2 && j < view.width
    ensures r.Planes? && mem.start <= view.scanline0 && view.pitch > 0
    ensures 0 <= row * view.width + j < r.planes.Length
    ensures 0 <= view.scanline0 - mem.start + row * view.pitch + j < |mem.bytes|
    ensures r.planes[row * view.width + j] == mem.bytes[view.scanline0 - mem.start + row * view.pitch + j]
  {
    PlaneByte(mem.bytes, Base(view, mem), view.pitch, view.width, view.height + view.height / 2, row, j);
    NatProduct(row, view.width);
    NatProduct(row, view.pitch);
  }

  // ----- which views are accepted --------------------------------------------------------------------

  /** A planar view is accepted exactly if the frame has even sides, the pitch is positive and even,
      and the luma rows and both chroma planes lie in the accessible bytes. */
  lemma PlanarAcceptedExactly(view: View)
    requires 1 <= view.width && 1 <= view.height
    ensures PlanarProblem(view).None? <==>
              && view.width % 2 == 0 && view.height % 2 == 0 && view.pitch > 0 && view.pitch % 2 == 0
              && (view.accessible.Some? ==>
                    var half, rows := view.pitch / 2, view.height / 2;
                    && (view.height - 1) * view.pitch + view.width <= view.accessible.value
                    && view.height * view.pitch + (rows - 1) * half + view.width / 2 <= view.accessible.value
                    && view.height * view.pitch + rows * half + (rows - 1) * half + view.width / 2
                         <= view.accessible.value)
  {
    if view.width % 2 == 0 && view.height % 2 == 0 && view.pitch > 0 && view.pitch % 2 == 0 {
      var half, rows := view.pitch / 2, view.height / 2;
      assert rows * half + (rows - 1) * half == (view.height - 1) * half;
      NatProduct(rows, half);
    }
  }

  lemma Nv12AcceptedExactly(view: View)
    requires 1 <= view.width && 1 <= view.height <= MAX_DIMENSION
    ensures Nv12Problem(view).None? <==>
              && view.width % 2 == 0 && view.height % 2 == 0 && view.pitch > 0 && view.pitch % 2 == 0
              && (view.accessible.Some? ==>
                    (view.height + view.height / 2 - 1) * view.pitch + view.width <= view.accessible.value)
  {
  }

  /** The checks common to all formats, and which formats there are. */
  lemma LockedAcceptedExactly(view: View, format: Format)
    ensures L.LockedProblem(view, format).None? <==>
              && view.scanline0 != 0 && 1 <= view.width <= 16384 && 1 <= view.height <= 16384
              && match format
                 case Rgb24 => PackedProblem(view, KindRgb24, 3 * view.width).None?
                 case Rgb32 => PackedProblem(view, KindRgbx32, 4 * view.width).None?
                 case Argb32 => PackedProblem(view, KindRgbx32, 4 * view.width).None?
                 case Yuy2 => PackedProblem(view, KindYuy2, 2 * view.width).None?
                 case Uyvy => PackedProblem(view, KindUyvy, 2 * view.width).None?
                 case Nv12 => Nv12Problem(view).None?
                 case I420 => PlanarProblem(view).None?
                 case Yv12 => PlanarProblem(view).None?
  {
  }
}
