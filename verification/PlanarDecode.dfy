/** Repacking of locked planar buffers (NV12, I420, YV12) into the contiguous layout that the
    colour conversion expects (src/camera/uvc_windows/uvc_frame_convert.cpp:185-301).  The
    colour conversion itself is foreign code and not part of this model. */
module PlanarDecode {
  import opened Options
  import opened FrameMath
  import opened FrameDecode

  /** `rows` rows of `rowBytes` bytes, `stride` apart, one after the other. */
  function Plane(bytes: seq<Byte>, base: nat, stride: nat, rowBytes: nat, rows: nat): (r: seq<Byte>)
    requires PlaneFits(|bytes|, base, stride, rowBytes, rows)
    ensures |r| == rows * rowBytes
  {
    if rows == 0 then []
    else
      LastRowFits(|bytes|, base, stride, rowBytes, rows);
      Plane(bytes, base, stride, rowBytes, rows - 1)
        + bytes[base + (rows - 1) * stride..base + (rows - 1) * stride + rowBytes]
  }

  /** Every row of the plane lies in a buffer of `size` bytes. */
  predicate PlaneFits(size: nat, base: nat, stride: nat, rowBytes: nat, rows: nat) {
    rows > 0 ==> base + (rows - 1) * stride + rowBytes <= size
  }

  lemma LastRowFits(size: nat, base: nat, stride: nat, rowBytes: nat, rows: nat)
    requires rows > 0 && PlaneFits(size, base, stride, rowBytes, rows)
    ensures PlaneFits(size, base, stride, rowBytes, rows - 1)
    ensures (rows - 1) * rowBytes + rowBytes == rows * rowBytes
  {
    if rows > 1 {
      MulMonotone(rows - 2, rows - 1, stride);
    }
  }

  /** What is at each place of a plane: byte `j` of row `row` of the source. */
  lemma {:induction false} PlaneByte(bytes: seq<Byte>, base: nat, stride: nat, rowBytes: nat, rows: nat,
                                     row: nat, j: nat)
    requires PlaneFits(|bytes|, base, stride, rowBytes, rows) && row < rows && j < rowBytes
    ensures 0 <= row * rowBytes + j < rows * rowBytes && base + row * stride + j < |bytes|
    ensures Plane(bytes, base, stride, rowBytes, rows)[row * rowBytes + j] == bytes[base + row * stride + j]
    decreases rows
  {
    LastRowFits(|bytes|, base, stride, rowBytes, rows);
    MulMonotone(row, rows - 1, stride);
    if row < rows - 1 {
      PlaneByte(bytes, base, stride, rowBytes, rows - 1, row, j);
    }
  }

  /** A bounded view: the bytes from the first scanline to the end of the lock.  When the
      lock reported no bounds the driver vouches that `needed` bytes are there. */
  ghost predicate PlanarLock(view: View, mem: Buffer, needed: nat) {
    && mem.start <= view.scanline0
    && |mem.bytes| <= SIZE_MAX
    && if view.accessible.Some?
       then LockAccessibleExtent(view.scanline0, view.pitch, view.height, mem.start, |mem.bytes|) == view.accessible
       else view.scanline0 - mem.start + needed <= |mem.bytes|
  }

  lemma NatProduct(a: nat, b: nat)
    ensures 0 <= a * b
  {
  }

  predicate EvenFrame(view: View) {
    view.width % 2 == 0 && view.height % 2 == 0 && view.pitch > 0 && view.pitch % 2 == 0
  }

  /** Extent that the planar check computes for both chroma planes. */
  function PlanarExtent(view: View): nat
    requires EvenFrame(view) && view.height >= 2
  {
    view.height * view.pitch + (view.height - 1) * (view.pitch / 2) + view.width / 2
  }

  /** Extent of the luma rows; larger than the one above only if rows overlap. */
  function LumaExtent(view: View): nat
    requires EvenFrame(view) && view.height >= 1
  {
    NatProduct(view.height - 1, view.pitch);
    (view.height - 1) * view.pitch + view.width
  }

  datatype PlanarError = OddFrame | BadPitch | ExtentOverflow | TooSmall | RowOutside | LumaOutside | ChromaOutside

  function PlanarProblem(view: View): Option<PlanarError>
    requires 1 <= view.height
  {
    if view.width % 2 != 0 || view.height % 2 != 0 then Some(OddFrame)
    else if view.pitch <= 0 || view.pitch % 2 != 0 then Some(BadPitch)
    else if view.accessible.Some? && view.accessible.value < PlanarExtent(view) then Some(TooSmall)
    else if view.accessible.Some? && view.accessible.value < LumaExtent(view) then Some(LumaOutside)
    else None
  }

  /** With a pitch of at least the width the check of single rows never fails. */
  lemma WidePitchNeedsOneCheck(view: View)
    requires EvenFrame(view) && view.height >= 2 && view.pitch >= view.width
    ensures LumaExtent(view) <= PlanarExtent(view)
  {
    assert view.height * view.pitch == (view.height - 1) * view.pitch + view.pitch;
    MulMonotone(0, view.height - 1, view.pitch / 2);
  }

  function Max(a: nat, b: nat): nat {
    if a < b then b else a
  }

  function Base(view: View, mem: Buffer): nat
    requires mem.start <= view.scanline0
  {
    view.scanline0 - mem.start
  }

  function FirstPlane(view: View, base: nat): nat
    requires EvenFrame(view)
  {
    base + view.height * view.pitch
  }

  function SecondPlane(view: View, base: nat): nat
    requires EvenFrame(view)
  {
    FirstPlane(view, base) + view.height / 2 * (view.pitch / 2)
  }

  /** All three planes lie in the buffer. */
  predicate PlanesFit(view: View, size: nat, base: nat)
    requires EvenFrame(view)
  {
    && PlaneFits(size, base, view.pitch, view.width, view.height)
    && PlaneFits(size, FirstPlane(view, base), view.pitch / 2, view.width / 2, view.height / 2)
    && PlaneFits(size, SecondPlane(view, base), view.pitch / 2, view.width / 2, view.height / 2)
  }

  /** Every accepted view has its luma and both chroma planes inside the lock, although the
      code checks the rows of only one chroma plane. */
  lemma AcceptedPlanesFit(view: View, mem: Buffer)
    requires 1 <= view.height && PlanarProblem(view).None?
    requires PlanarLock(view, mem, Max(PlanarExtent(view), LumaExtent(view)))
    ensures PlanesFit(view, |mem.bytes|, Base(view, mem))
  {
    var base, half := Base(view, mem), view.pitch / 2;
    var chromaRows := view.height / 2;
    assert base + PlanarExtent(view) <= |mem.bytes| && base + LumaExtent(view) <= |mem.bytes|;
    assert chromaRows * half + (chromaRows - 1) * half == (view.height - 1) * half;
    MulMonotone(chromaRows - 1, view.height - 1, half);
  }

  /** The U plane comes first in I420 and second in YV12. */
  function UBase(view: View, base: nat, i420: bool): nat
    requires EvenFrame(view)
  {
    if i420 then FirstPlane(view, base) else SecondPlane(view, base)
  }

  function VBase(view: View, base: nat, i420: bool): nat
    requires EvenFrame(view)
  {
    if i420 then SecondPlane(view, base) else FirstPlane(view, base)
  }

  function Chroma(view: View, bytes: seq<Byte>, base: nat, i420: bool): (r: seq<Byte>)
    requires EvenFrame(view) && PlanesFit(view, |bytes|, base)
    ensures |r| == 2 * (view.height / 2 * (view.width / 2))
  {
    Plane(bytes, UBase(view, base, i420), view.pitch / 2, view.width / 2, view.height / 2)
      + Plane(bytes, VBase(view, base, i420), view.pitch / 2, view.width / 2, view.height / 2)
  }

  /** The repacked frame: Y, then U, then V, without padding. */
  function Repacked(view: View, bytes: seq<Byte>, base: nat, i420: bool): (r: seq<Byte>)
    requires EvenFrame(view) && PlanesFit(view, |bytes|, base)
  {
    Plane(bytes, base, view.pitch, view.width, view.height) + Chroma(view, bytes, base, i420)
  }

  lemma RepackedSize(view: View, bytes: seq<Byte>, base: nat, i420: bool)
    requires EvenFrame(view) && PlanesFit(view, |bytes|, base)
    ensures 0 <= view.height * view.width && 0 <= view.height / 2 * (view.width / 2)
    ensures view.height * view.width + 2 * (view.height / 2 * (view.width / 2))
              == (view.height + view.height / 2) * view.width
    ensures |Repacked(view, bytes, base, i420)| == (view.height + view.height / 2) * view.width
  {
    var h, w := view.height / 2, view.width / 2;
    NatProduct(view.height, view.width);
    NatProduct(h, w);
    assert view.height == 2 * h && view.width == 2 * w;
    assert (2 * h + h) * (2 * w) == 2 * h * (2 * w) + 2 * (h * w);
  }

  // ----- copying ---------------------------------------------------------------------------------

  /** `dest` with `part` written at the place `at`. */
  function Overwrite(dest: seq<Byte>, at: nat, part: seq<Byte>): (r: seq<Byte>)
    requires at + |part| <= |dest|
    ensures |r| == |dest|
  {
    dest[..at] + part + dest[at + |part|..]
  }

  lemma OverwriteJoins(dest: seq<Byte>, at: nat, a: seq<Byte>, b: seq<Byte>)
    requires at + |a| + |b| <= |dest|
    ensures Overwrite(Overwrite(dest, at, a), at + |a|, b) == Overwrite(dest, at, a + b)
  {
  }

  lemma OverwriteCommutes(dest: seq<Byte>, at: nat, a: seq<Byte>, at': nat, a': seq<Byte>)
    requires at + |a| <= at' && at' + |a'| <= |dest|
    ensures Overwrite(Overwrite(dest, at, a), at', a') == Overwrite(Overwrite(dest, at', a'), at, a)
  {
  }

  lemma OverwriteWhole(dest: seq<Byte>, a: seq<Byte>, b: seq<Byte>)
    requires |a| + |b| == |dest|
    ensures Overwrite(Overwrite(dest, 0, a), |a|, b) == a + b
  {
    OverwriteJoins(dest, 0, a, b);
  }

  /** How often each byte of the destination has been written, after the `n` bytes at `at` have
      been written once more. */
  function Counted(writes: seq<nat>, at: nat, n: nat): (r: seq<nat>)
    ensures |r| == |writes|
  {
    seq(|writes|, i requires 0 <= i < |writes| => if at <= i < at + n then writes[i] + 1 else writes[i])
  }

  lemma CountedJoins(writes: seq<nat>, at: nat, m: nat, n: nat)
    ensures Counted(Counted(writes, at, m), at + m, n) == Counted(writes, at, m + n)
  {
  }

  /** One more row of both chroma planes. */
  lemma CountedBoth(writes: seq<nat>, u: nat, v: nat, m: nat, n: nat)
    requires u + m + n <= v
    ensures Counted(Counted(Counted(Counted(writes, u, m), v, m), u + m, n), v + m, n)
              == Counted(Counted(writes, u, m + n), v, m + n)
  {
  }

  /** Every byte has been written exactly once. */
  predicate WrittenOnce(writes: seq<nat>, size: nat) {
    |writes| == size && forall i :: 0 <= i < size ==> writes[i] == 1
  }

  function Unwritten(size: nat): seq<nat> {
    seq(size, _ => 0)
  }

  method CopyBytes(dest: array<Byte>, at: nat, source: seq<Byte>, from: nat, count: nat, ghost writes: seq<nat>)
    returns (ghost writes': seq<nat>)
    requires at + count <= dest.Length && from + count <= |source|
    modifies dest
    ensures dest[..] == Overwrite(old(dest[..]), at, source[from..from + count])
    ensures writes' == Counted(writes, at, count)
  {
    forall i | 0 <= i < count {
      dest[at + i] := source[from + i];
    }
    writes' := Counted(writes, at, count);
  }

  /** Where the next row of a plane is and where it goes. */
  lemma NextRow(size: nat, base: nat, stride: nat, rowBytes: nat, row: nat, rows: nat)
    requires row < rows && PlaneFits(size, base, stride, rowBytes, rows)
    ensures 0 <= row * rowBytes && row * rowBytes + rowBytes == (row + 1) * rowBytes <= rows * rowBytes
    ensures 0 <= row * stride && base + row * stride + rowBytes <= size
    ensures PlaneFits(size, base, stride, rowBytes, row + 1) && PlaneFits(size, base, stride, rowBytes, row)
  {
    MulMonotone(row + 1, rows, rowBytes);
    MulMonotone(row, rows - 1, stride);
    LastRowFits(size, base, stride, rowBytes, row + 1);
  }

  lemma NextPlane(bytes: seq<Byte>, base: nat, stride: nat, rowBytes: nat, row: nat, rows: nat, before: seq<Byte>,
                  at: nat, from: nat, to: nat)
    requires row < rows && PlaneFits(|bytes|, base, stride, rowBytes, rows)
    requires at + rows * rowBytes <= |before| && from == base + row * stride && to == at + row * rowBytes
    ensures from + rowBytes <= |bytes| && to + rowBytes <= |before|
    ensures PlaneFits(|bytes|, base, stride, rowBytes, row) && at + row * rowBytes <= |before|
    ensures PlaneFits(|bytes|, base, stride, rowBytes, row + 1) && 0 <= (row + 1) * rowBytes <= rows * rowBytes
    ensures var done := Plane(bytes, base, stride, rowBytes, row);
            Overwrite(Overwrite(before, at, done), to, bytes[from..from + rowBytes])
              == Overwrite(before, at, Plane(bytes, base, stride, rowBytes, row + 1))
  {
    NextRow(|bytes|, base, stride, rowBytes, row, rows);
    OverwriteJoins(before, at, Plane(bytes, base, stride, rowBytes, row), bytes[from..from + rowBytes]);
  }

  /** Copies one row of a plane behind the rows already written over `before`. */
  method CopyRow(dest: array<Byte>, at: nat, source: seq<Byte>, base: nat, stride: nat, rowBytes: nat, row: nat,
                 rows: nat, ghost before: seq<Byte>, ghost writes: seq<nat>)
    returns (ghost writes': seq<nat>)
    requires row < rows && PlaneFits(|source|, base, stride, rowBytes, rows)
    requires at + rows * rowBytes <= dest.Length == |before|
    requires PlaneFits(|source|, base, stride, rowBytes, row) && 0 <= row * rowBytes <= rows * rowBytes
    requires dest[..] == Overwrite(before, at, Plane(source, base, stride, rowBytes, row))
    modifies dest
    ensures PlaneFits(|source|, base, stride, rowBytes, row + 1) && 0 <= (row + 1) * rowBytes <= rows * rowBytes
    ensures dest[..] == Overwrite(before, at, Plane(source, base, stride, rowBytes, row + 1))
    ensures (row + 1) * rowBytes == row * rowBytes + rowBytes
    ensures writes' == Counted(writes, at + row * rowBytes, rowBytes)
  {
    NatProduct(row, stride);
    var from, to: nat := base + row * stride, at + row * rowBytes;
    NextPlane(source, base, stride, rowBytes, row, rows, before, at, from, to);
    writes' := CopyBytes(dest, to, source, from, rowBytes, writes);
  }

  method CopyPlane(dest: array<Byte>, source: seq<Byte>, base: nat, stride: nat, rowBytes: nat, rows: nat)
    returns (ghost writes: seq<nat>)
    requires PlaneFits(|source|, base, stride, rowBytes, rows)
    requires 0 <= rows * rowBytes <= dest.Length
    modifies dest
    ensures dest[..] == Overwrite(old(dest[..]), 0, Plane(source, base, stride, rowBytes, rows))
    ensures writes == Counted(Unwritten(dest.Length), 0, rows * rowBytes)
  {
    ghost var before := dest[..];
    writes := Unwritten(dest.Length);
    for row := 0 to rows
      invariant PlaneFits(|source|, base, stride, rowBytes, row) && 0 <= row * rowBytes <= rows * rowBytes
      invariant dest[..] == Overwrite(before, 0, Plane(source, base, stride, rowBytes, row))
      invariant writes == Counted(Unwritten(dest.Length), 0, row * rowBytes)
    {
      writes := CopyRow(dest, 0, source, base, stride, rowBytes, row, rows, before, writes);
      CountedJoins(Unwritten(dest.Length), 0, row * rowBytes, rowBytes);
    }
  }

  /** One row of each chroma plane behind the rows already written over `before`. */
  method CopyChromaRow(dest: array<Byte>, uAt: nat, vAt: nat, source: seq<Byte>, uBase: nat, vBase: nat, stride: nat,
                       rowBytes: nat, row: nat, rows: nat, ghost done: nat, ghost before: seq<Byte>,
                       ghost writes: seq<nat>)
    returns (ghost writes': seq<nat>)
    requires row < rows && done == row * rowBytes <= rows * rowBytes
    requires PlaneFits(|source|, uBase, stride, rowBytes, rows) && PlaneFits(|source|, vBase, stride, rowBytes, rows)
    requires PlaneFits(|source|, uBase, stride, rowBytes, row) && PlaneFits(|source|, vBase, stride, rowBytes, row)
    requires uAt + rows * rowBytes == vAt && vAt + rows * rowBytes <= dest.Length == |before|
    requires dest[..] == Overwrite(Overwrite(before, uAt, Plane(source, uBase, stride, rowBytes, row)),
                                   vAt, Plane(source, vBase, stride, rowBytes, row))
    modifies dest
    ensures PlaneFits(|source|, uBase, stride, rowBytes, row + 1)
    ensures PlaneFits(|source|, vBase, stride, rowBytes, row + 1)
    ensures (row + 1) * rowBytes == done + rowBytes <= rows * rowBytes
    ensures dest[..] == Overwrite(Overwrite(before, uAt, Plane(source, uBase, stride, rowBytes, row + 1)),
                                  vAt, Plane(source, vBase, stride, rowBytes, row + 1))
    ensures writes' == Counted(Counted(writes, uAt + done, rowBytes), vAt + done, rowBytes)
  {
    ghost var u, v := Plane(source, uBase, stride, rowBytes, row), Plane(source, vBase, stride, rowBytes, row);
    OverwriteCommutes(before, uAt, u, vAt, v);
    writes' := CopyRow(dest, uAt, source, uBase, stride, rowBytes, row, rows, Overwrite(before, vAt, v), writes);
    ghost var u' := Plane(source, uBase, stride, rowBytes, row + 1);
    OverwriteCommutes(before, uAt, u', vAt, v);
    writes' := CopyRow(dest, vAt, source, vBase, stride, rowBytes, row, rows, Overwrite(before, uAt, u'), writes');
  }

  /** Both chroma planes in one loop, the U plane to `uAt` and the V plane behind it. */
  method CopyChroma(dest: array<Byte>, uAt: nat, source: seq<Byte>, uBase: nat, vBase: nat, stride: nat, rowBytes: nat,
                    rows: nat, ghost writes: seq<nat>)
    returns (ghost writes': seq<nat>)
    requires PlaneFits(|source|, uBase, stride, rowBytes, rows) && PlaneFits(|source|, vBase, stride, rowBytes, rows)
    requires 0 <= rows * rowBytes && uAt + rows * rowBytes + rows * rowBytes <= dest.Length
    modifies dest
    ensures dest[..] == Overwrite(old(dest[..]), uAt,
                          Plane(source, uBase, stride, rowBytes, rows) + Plane(source, vBase, stride, rowBytes, rows))
    ensures writes' == Counted(Counted(writes, uAt, rows * rowBytes), uAt + rows * rowBytes, rows * rowBytes)
  {
    ghost var before := dest[..];
    ghost var done: nat := 0;
    var vAt := uAt + rows * rowBytes;
    writes' := writes;
    for row := 0 to rows
      invariant PlaneFits(|source|, uBase, stride, rowBytes, row) && PlaneFits(|source|, vBase, stride, rowBytes, row)
      invariant done == row * rowBytes <= rows * rowBytes
      invariant dest[..] == Overwrite(Overwrite(before, uAt, Plane(source, uBase, stride, rowBytes, row)),
                                      vAt, Plane(source, vBase, stride, rowBytes, row))
      invariant writes' == Counted(Counted(writes, uAt, done), vAt, done)
    {
      writes' := CopyChromaRow(dest, uAt, vAt, source, uBase, vBase, stride, rowBytes, row, rows,
                               done, before, writes');
      CountedBoth(writes, uAt, vAt, done, rowBytes);
      done := done + rowBytes;
    }
    OverwriteJoins(before, uAt, Plane(source, uBase, stride, rowBytes, rows),
                   Plane(source, vBase, stride, rowBytes, rows));
  }

  datatype Planar = RejectedPlanar(error: PlanarError) | PlanarFrame(bytes: array<Byte>)

  /** The row check of the source: byte `at + row * stride + rowBytes` is the end of the row. */
  predicate RowEndFits(at: SizeT, row: UInt32, stride: SizeT, rowBytes: SizeT, accessible: SizeT) {
    var offset := CheckedMul(row, stride);
    offset.Some?
    && var moved := CheckedAdd(at, offset.value);
    moved.Some?
    && var end := CheckedAdd(moved.value, rowBytes);
    end.Some? && end.value <= accessible
  }

  lemma RowEndExactly(at: SizeT, row: UInt32, stride: SizeT, rowBytes: SizeT, accessible: SizeT)
    ensures RowEndFits(at, row, stride, rowBytes, accessible) <==> at + row * stride + rowBytes <= accessible
  {
    CheckedExactly(row, stride);
  }

  /** The loop over single rows decides exactly whether the last row fits. */
  method CheckRows(at: SizeT, rows: UInt32, stride: SizeT, rowBytes: SizeT, accessible: SizeT) returns (fits: bool)
    requires rows > 0
    ensures fits <==> PlaneFits(accessible, at, stride, rowBytes, rows)
  {
    for row := 0 to rows
      invariant row > 0 ==> PlaneFits(accessible, at, stride, rowBytes, row)
    {
      RowEndExactly(at, row, stride, rowBytes, accessible);
      MulMonotone(row, rows - 1, stride);
      if !RowEndFits(at, row, stride, rowBytes, accessible) {
        return false;
      }
    }
    return true;
  }

  /** No extent of a frame of the supported size overflows. */
  lemma SmallProduct(a: nat, b: nat)
    requires a <= 2 * MAX_DIMENSION && b < 0x8000_0000
    ensures 0 <= a * b < 0x1_0000_0000_0000
  {
    MulMonotone(a, 2 * MAX_DIMENSION, b);
  }

  /** All checks before the first byte is read. */
  method CheckPlanar(view: View) returns (problem: Option<PlanarError>)
    requires 1 <= view.width <= MAX_DIMENSION && 1 <= view.height <= MAX_DIMENSION
    ensures problem == PlanarProblem(view)
  {
    if view.width % 2 != 0 || view.height % 2 != 0 {
      return Some(OddFrame);
    }
    if view.pitch <= 0 || view.pitch % 2 != 0 {
      return Some(BadPitch);
    }
    var half: nat := view.pitch / 2;
    SmallProduct(view.height, view.pitch);
    SmallProduct(view.height - 1, half);
    CheckedExactly(view.height, view.pitch);
    CheckedExactly(view.height - 1, half);
    var luma, chroma := CheckedMul(view.height, view.pitch), CheckedMul(view.height - 1, half);
    if luma.None? || chroma.None? {
      return Some(PlanarError.ExtentOverflow);
    }
    var planes := CheckedAdd(luma.value, chroma.value);
    if planes.None? {
      return Some(PlanarError.ExtentOverflow);
    }
    var extent := CheckedAdd(planes.value, view.width / 2);
    if extent.None? {
      return Some(PlanarError.ExtentOverflow);
    }
    if view.accessible.Some? {
      if view.accessible.value < extent.value {
        return Some(TooSmall);
      }
      var lumaFits := CheckRows(0, view.height, view.pitch, view.width, view.accessible.value);
      if !lumaFits {
        return Some(LumaOutside);
      }
      var chromaFits := CheckRows(luma.value, view.height / 2, half, view.width / 2, view.accessible.value);
      MulMonotone(view.height / 2 - 1, view.height - 1, half);
      if !chromaFits {
        return Some(ChromaOutside);
      }
    }
    return None;
  }

  /** `decode_planar_420` up to the colour conversion: it fails exactly for the stated reasons
      (neither overflow nor the check of the chroma rows is among them) and otherwise returns
      the repacked planes, each byte of which the loops write exactly once. */
  method DecodePlanar420(view: View, i420: bool, mem: Buffer) returns (r: Planar, ghost writes: seq<nat>)
    requires 1 <= view.width <= MAX_DIMENSION && 1 <= view.height <= MAX_DIMENSION
    requires PlanarProblem(view).None? ==> PlanarLock(view, mem, Max(PlanarExtent(view), LumaExtent(view)))
    ensures match PlanarProblem(view)
            case Some(error) => r == RejectedPlanar(error)
            case None =>
              && r.PlanarFrame? && fresh(r.bytes)
              && PlanesFit(view, |mem.bytes|, Base(view, mem))
              && r.bytes[..] == Repacked(view, mem.bytes, Base(view, mem), i420)
              && r.bytes.Length == (view.height + view.height / 2) * view.width
              && WrittenOnce(writes, r.bytes.Length)
  {
    var problem := CheckPlanar(view);
    if problem.Some? {
      return RejectedPlanar(problem.value), [];
    }
    AcceptedPlanesFit(view, mem);
    NatProduct(view.height + view.height / 2, view.width);
    var planar := new Byte[(view.height + view.height / 2) * view.width];
    writes := Repack(view, i420, mem.bytes, Base(view, mem), planar);
    r := PlanarFrame(planar);
  }

  /** Fills the whole frame. */
  method Repack(view: View, i420: bool, bytes: seq<Byte>, base: nat, planar: array<Byte>)
    returns (ghost writes: seq<nat>)
    requires EvenFrame(view) && PlanesFit(view, |bytes|, base)
    requires planar.Length == (view.height + view.height / 2) * view.width
    modifies planar
    ensures planar[..] == Repacked(view, bytes, base, i420)
    ensures WrittenOnce(writes, planar.Length)
  {
    RepackedSize(view, bytes, base, i420);
    ghost var before, y := planar[..], Plane(bytes, base, view.pitch, view.width, view.height);
    writes := CopyPlane(planar, bytes, base, view.pitch, view.width, view.height);
    writes := CopyChroma(planar, view.height * view.width, bytes, UBase(view, base, i420), VBase(view, base, i420),
                         view.pitch / 2, view.width / 2, view.height / 2, writes);
    OverwriteWhole(before, y, Chroma(view, bytes, base, i420));
  }

  // ----- the order of the chroma planes ----------------------------------------------------------

  /** Byte for byte, the rows at `base` are those at `base'`. */
  ghost predicate SameRows(bytes: seq<Byte>, base: nat, bytes': seq<Byte>, base': nat,
                           stride: nat, rowBytes: nat, rows: nat)
    requires PlaneFits(|bytes|, base, stride, rowBytes, rows) && PlaneFits(|bytes'|, base', stride, rowBytes, rows)
  {
    forall row: nat, j: nat :: row < rows && j < rowBytes ==>
      PlaneIndex(bytes, base, stride, row, j) == PlaneIndex(bytes', base', stride, row, j)
  }

  /** Byte `j` of row `row`, if there is one. */
  function PlaneIndex(bytes: seq<Byte>, base: nat, stride: nat, row: nat, j: nat): Option<Byte> {
    NatProduct(row, stride);
    var i := base + row * stride + j;
    if i < |bytes| then Some(bytes[i]) else None
  }

  lemma {:induction false} SameRowsSamePlane(bytes: seq<Byte>, base: nat, bytes': seq<Byte>, base': nat,
                                             stride: nat, rowBytes: nat, rows: nat)
    requires PlaneFits(|bytes|, base, stride, rowBytes, rows) && PlaneFits(|bytes'|, base', stride, rowBytes, rows)
    requires SameRows(bytes, base, bytes', base', stride, rowBytes, rows)
    ensures Plane(bytes, base, stride, rowBytes, rows) == Plane(bytes', base', stride, rowBytes, rows)
    decreases rows
  {
    if rows > 0 {
      LastRowFits(|bytes|, base, stride, rowBytes, rows);
      LastRowFits(|bytes'|, base', stride, rowBytes, rows);
      SameRowsSamePlane(bytes, base, bytes', base', stride, rowBytes, rows - 1);
      NatProduct(rows - 1, stride);
      var from, from' := base + (rows - 1) * stride, base' + (rows - 1) * stride;
      var last, last' := bytes[from..from + rowBytes], bytes'[from'..from' + rowBytes];
      forall j | 0 <= j < rowBytes
        ensures last[j] == last'[j]
      {
        assert PlaneIndex(bytes, base, stride, rows - 1, j) == PlaneIndex(bytes', base', stride, rows - 1, j);
      }
      assert last == last';
    }
  }

  /** `bytes'` shows the same luma rows, and each chroma plane of `bytes` in the place of the other. */
  ghost predicate ChromaSwapped(view: View, bytes: seq<Byte>, bytes': seq<Byte>, base: nat)
    requires EvenFrame(view) && PlanesFit(view, |bytes|, base) && PlanesFit(view, |bytes'|, base)
  {
    var first, second := FirstPlane(view, base), SecondPlane(view, base);
    var stride, rowBytes, rows := view.pitch / 2, view.width / 2, view.height / 2;
    && SameRows(bytes, base, bytes', base, view.pitch, view.width, view.height)
    && SameRows(bytes, first, bytes', second, stride, rowBytes, rows)
    && SameRows(bytes, second, bytes', first, stride, rowBytes, rows)
  }

  /** For every pitch: a YV12 buffer is repacked to what any buffer with its chroma planes
      swapped is repacked to as I420. */
  lemma Yv12IsI420Swapped(view: View, bytes: seq<Byte>, bytes': seq<Byte>, base: nat)
    requires EvenFrame(view) && PlanesFit(view, |bytes|, base) && PlanesFit(view, |bytes'|, base)
    requires ChromaSwapped(view, bytes, bytes', base)
    ensures Repacked(view, bytes, base, false) == Repacked(view, bytes', base, true)
  {
    var first, second := FirstPlane(view, base), SecondPlane(view, base);
    var stride, rowBytes, rows := view.pitch / 2, view.width / 2, view.height / 2;
    SameRowsSamePlane(bytes, base, bytes', base, view.pitch, view.width, view.height);
    SameRowsSamePlane(bytes, first, bytes', second, stride, rowBytes, rows);
    SameRowsSamePlane(bytes, second, bytes', first, stride, rowBytes, rows);
  }

  lemma SliceMoves(bytes: seq<Byte>, base: nat, bytes': seq<Byte>, base': nat, size: nat, from: nat, count: nat)
    requires base + size <= |bytes| && base' + size <= |bytes'| && from + count <= size
    requires bytes[base..base + size] == bytes'[base'..base' + size]
    ensures bytes[base + from..base + from + count] == bytes'[base' + from..base' + from + count]
  {
    var part, part' := bytes[base + from..base + from + count], bytes'[base' + from..base' + from + count];
    forall k | 0 <= k < count
      ensures part[k] == part'[k]
    {
      assert bytes[base..base + size][from + k] == bytes'[base'..base' + size][from + k];
    }
  }

  lemma {:induction false} PlaneMoves(bytes: seq<Byte>, base: nat, bytes': seq<Byte>, base': nat, size: nat,
                                      stride: nat, rowBytes: nat, rows: nat)
    requires base + size <= |bytes| && base' + size <= |bytes'|
    requires bytes[base..base + size] == bytes'[base'..base' + size]
    requires PlaneFits(size, 0, stride, rowBytes, rows)
    ensures PlaneFits(|bytes|, base, stride, rowBytes, rows) && PlaneFits(|bytes'|, base', stride, rowBytes, rows)
    ensures Plane(bytes, base, stride, rowBytes, rows) == Plane(bytes', base', stride, rowBytes, rows)
    decreases rows
  {
    if rows > 0 {
      LastRowFits(size, 0, stride, rowBytes, rows);
      PlaneMoves(bytes, base, bytes', base', size, stride, rowBytes, rows - 1);
      NatProduct(rows - 1, stride);
      SliceMoves(bytes, base, bytes', base', size, (rows - 1) * stride, rowBytes);
    }
  }

  /** `bytes` with the `size` bytes at `first` and those at `second` exchanged. */
  function Exchanged(bytes: seq<Byte>, first: nat, second: nat, size: nat): (r: seq<Byte>)
    requires first + size <= second && second + size <= |bytes|
    ensures |r| == |bytes|
  {
    bytes[..first] + bytes[second..second + size] + bytes[first + size..second]
      + bytes[first..first + size] + bytes[second + size..]
  }

  lemma ExchangedParts(bytes: seq<Byte>, first: nat, second: nat, size: nat)
    requires first + size <= second && second + size <= |bytes|
    ensures var r := Exchanged(bytes, first, second, size);
            && r[..first] == bytes[..first]
            && r[first..first + size] == bytes[second..second + size]
            && r[second..second + size] == bytes[first..first + size]
  {
  }

  /** Bytes from the first to the last of a chroma plane. */
  function ChromaSize(view: View): nat
    requires EvenFrame(view) && view.height >= 2
  {
    (view.height / 2 - 1) * (view.pitch / 2) + view.width / 2
  }

  lemma ChromaPlanesApart(view: View, base: nat)
    requires EvenFrame(view) && view.height >= 2 && view.pitch >= view.width
    ensures base <= FirstPlane(view, base)
    ensures FirstPlane(view, base) + ChromaSize(view) <= SecondPlane(view, base)
    ensures PlaneFits(FirstPlane(view, base) - base, 0, view.pitch, view.width, view.height)
  {
    NatProduct(view.height, view.pitch);
    assert view.height * view.pitch == (view.height - 1) * view.pitch + view.pitch;
    var rows, stride := view.height / 2, view.pitch / 2;
    assert rows * stride == (rows - 1) * stride + stride;
  }

  /** When the planes do not overlap, such a buffer is made by exchanging the two chroma planes. */
  lemma Yv12IsI420Exchanged(view: View, bytes: seq<Byte>, base: nat)
    requires EvenFrame(view) && view.height >= 2 && view.pitch >= view.width && PlanesFit(view, |bytes|, base)
    ensures var first, second, size := FirstPlane(view, base), SecondPlane(view, base), ChromaSize(view);
            && first + size <= second && second + size <= |bytes|
            && PlanesFit(view, |Exchanged(bytes, first, second, size)|, base)
            && Repacked(view, bytes, base, false) == Repacked(view, Exchanged(bytes, first, second, size), base, true)
  {
    var first, second, size := FirstPlane(view, base), SecondPlane(view, base), ChromaSize(view);
    var stride, rowBytes, rows := view.pitch / 2, view.width / 2, view.height / 2;
    ChromaPlanesApart(view, base);
    var swapped := Exchanged(bytes, first, second, size);
    ExchangedParts(bytes, first, second, size);
    SliceMoves(bytes, 0, swapped, 0, first, base, first - base);
    PlaneMoves(bytes, base, swapped, base, first - base, view.pitch, view.width, view.height);
    PlaneMoves(bytes, first, swapped, second, size, stride, rowBytes, rows);
    PlaneMoves(bytes, second, swapped, first, size, stride, rowBytes, rows);
  }

  // ----- NV12 -------------------------------------------------------------------------------------

  /** Luma rows and rows of interleaved chroma, all of the same pitch. */
  function Nv12Rows(view: View): UInt32
    requires 1 <= view.height <= MAX_DIMENSION
  {
    view.height + view.height / 2
  }

  function Nv12Extent(view: View): nat
    requires 1 <= view.height <= MAX_DIMENSION && view.pitch > 0
  {
    NatProduct(Nv12Rows(view) - 1, view.pitch);
    (Nv12Rows(view) - 1) * view.pitch + view.width
  }

  function Nv12Problem(view: View): Option<PlanarError>
    requires 1 <= view.height <= MAX_DIMENSION
  {
    if view.width % 2 != 0 || view.height % 2 != 0 then Some(OddFrame)
    else if view.pitch <= 0 || view.pitch % 2 != 0 then Some(BadPitch)
    else if view.accessible.Some? && view.accessible.value < Nv12Extent(view) then Some(TooSmall)
    else None
  }

  /** `decode_nv12` up to the colour conversion.  The check of single rows adds no failure. */
  method DecodeNv12(view: View, mem: Buffer) returns (r: Planar, ghost writes: seq<nat>)
    requires 1 <= view.width <= MAX_DIMENSION && 1 <= view.height <= MAX_DIMENSION
    requires Nv12Problem(view).None? ==> PlanarLock(view, mem, Nv12Extent(view))
    ensures match Nv12Problem(view)
            case Some(error) => r == RejectedPlanar(error)
            case None =>
              && r.PlanarFrame? && fresh(r.bytes)
              && PlaneFits(|mem.bytes|, Base(view, mem), view.pitch, view.width, Nv12Rows(view))
              && r.bytes[..] == Plane(mem.bytes, Base(view, mem), view.pitch, view.width, Nv12Rows(view))
              && WrittenOnce(writes, r.bytes.Length)
  {
    if view.width % 2 != 0 || view.height % 2 != 0 {
      return RejectedPlanar(OddFrame), [];
    }
    if view.pitch <= 0 || view.pitch % 2 != 0 {
      return RejectedPlanar(BadPitch), [];
    }
    var rows := Nv12Rows(view);
    SmallProduct(rows - 1, view.pitch);
    CheckedExactly(rows - 1, view.pitch);
    var span := CheckedMul(rows - 1, view.pitch);
    if span.None? {
      return RejectedPlanar(PlanarError.ExtentOverflow), [];
    }
    var extent := CheckedAdd(span.value, view.width);
    if extent.None? {
      return RejectedPlanar(PlanarError.ExtentOverflow), [];
    }
    if view.accessible.Some? {
      if view.accessible.value < extent.value {
        return RejectedPlanar(TooSmall), [];
      }
      var fits := CheckRows(0, rows, view.pitch, view.width, view.accessible.value);
      if !fits {
        return RejectedPlanar(PlanarError.RowOutside), [];
      }
    }
    var planar := new Byte[rows * view.width];
    writes := CopyPlane(planar, mem.bytes, Base(view, mem), view.pitch, view.width, rows);
    r := PlanarFrame(planar);
  }
}
