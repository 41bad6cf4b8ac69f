/** `decode_locked_buffer_to_bgr8` (src/camera/uvc_windows/uvc_frame_convert.cpp:309-339): the
    checks common to all formats and the choice of the decoder. */
module LockedDecode {
  import opened Options
  import opened FrameMath
  import opened FrameDecode
  import opened PlanarDecode

  datatype LockedError =
    | NoBasePointer
    | EmptyFrame
    | FrameTooLarge
    | PackedFailed(packed: DecodeError)
    | PlanarFailed(planar: PlanarError)

  /** BGR8 pixels, or the repacked planes that go to the foreign colour conversion. */
  datatype LockedResult = Failed(error: LockedError) | Pixels(pixels: array2<Byte>) | Planes(planes: array<Byte>)

  /** Width and height are within the supported limit; the null pointer is address 0. */
  function SizeProblem(view: View): Option<LockedError> {
    if view.scanline0 == 0 then Some(NoBasePointer)
    else if view.width == 0 || view.height == 0 then Some(EmptyFrame)
    else if view.width > MAX_DIMENSION || view.height > MAX_DIMENSION then Some(FrameTooLarge)
    else None
  }

  function FormatProblem(view: View, format: Format): Option<LockedError>
    requires 1 <= view.width <= MAX_DIMENSION && 1 <= view.height <= MAX_DIMENSION
  {
    match PackedKindOf(format)
    case Some(kind) =>
      (match PackedProblem(view, kind, view.width * BytesPerPixel(kind))
       case Some(error) => Some(PackedFailed(error))
       case None => None)
    case None =>
      (match if format == Nv12 then Nv12Problem(view) else PlanarProblem(view)
       case Some(error) => Some(PlanarFailed(error))
       case None => None)
  }

  /** Everything that can be wrong with a lock, in the order of the checks. */
  function LockedProblem(view: View, format: Format): Option<LockedError> {
    if SizeProblem(view).Some? then SizeProblem(view) else FormatProblem(view, format)
  }

  /** What the caller knows about the lock, format by format; nothing of it is needed to reject. */
  ghost predicate LockIsGood(view: View, format: Format, mem: Buffer) {
    LockedProblem(view, format).None? ==>
      match PackedKindOf(format)
      case Some(kind) => LockHolds(view, view.width * BytesPerPixel(kind), mem)
      case None =>
        PlanarLock(view, mem, if format == Nv12 then Nv12Extent(view) else Max(PlanarExtent(view), LumaExtent(view)))
  }

  /** The result is the picture that the view shows in its format. */
  ghost predicate Shows(view: View, format: Format, mem: Buffer, r: LockedResult)
    requires LockedProblem(view, format).None?
    reads if r.Pixels? then {r.pixels} else {}, if r.Planes? then {r.planes} else {}
  {
    match PackedKindOf(format)
    case Some(kind) =>
      && r.Pixels?
      && r.pixels.Length0 == view.height && r.pixels.Length1 == 3 * view.width
      && Pictured(view, kind, mem, r.pixels, view.height, YuvToBgrFull)
    case None =>
      && r.Planes? && mem.start <= view.scanline0
      && if format == Nv12
         then
           && PlaneFits(|mem.bytes|, Base(view, mem), view.pitch, view.width, Nv12Rows(view))
           && r.planes[..] == Plane(mem.bytes, Base(view, mem), view.pitch, view.width, Nv12Rows(view))
         else
           && PlanesFit(view, |mem.bytes|, Base(view, mem))
           && r.planes[..] == Repacked(view, mem.bytes, Base(view, mem), format == I420)
  }

  /** For every view and format: it fails exactly for the stated reasons, and otherwise the
      result is what the locked buffer shows, read inside the lock. */
  method DecodeLocked(view: View, format: Format, mem: Buffer) returns (r: LockedResult)
    requires LockIsGood(view, format, mem)
    ensures match LockedProblem(view, format)
            case Some(error) => r == Failed(error)
            case None => Shows(view, format, mem, r)
  {
    if view.scanline0 == 0 {
      return Failed(NoBasePointer);
    }
    if view.width == 0 || view.height == 0 {
      return Failed(EmptyFrame);
    }
    if view.width > MAX_DIMENSION || view.height > MAX_DIMENSION {
      return Failed(FrameTooLarge);
    }
    var kind := PackedKindOf(format);
    if kind.Some? {
      var packed := DecodePacked(view, kind.value, mem);
      match packed {
        case Rejected(error) => return Failed(PackedFailed(error));
        case Frame(pixels) => return Pixels(pixels);
      }
    }
    var planar: Planar;
    ghost var writes: seq<nat>;
    if format == Nv12 {
      planar, writes := DecodeNv12(view, mem);
    } else {
      planar, writes := DecodePlanar420(view, format == I420, mem);
    }
    match planar {
      case RejectedPlanar(error) => return Failed(PlanarFailed(error));
      case PlanarFrame(bytes) => return Planes(bytes);
    }
  }
}
