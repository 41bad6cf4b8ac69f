/** The overflow-checked address arithmetic of src/camera/uvc_windows/uvc_frame_math.h, with
    a 64-bit `size_t`.  `None` stands for a `false` return. */
module FrameMath {
  import opened Options

  const SIZE_MAX: nat := 0xFFFF_FFFF_FFFF_FFFF

  const INT32_MIN: int := -0x8000_0000

  type SizeT = n: nat | n <= SIZE_MAX

  type Int32 = n: int | INT32_MIN <= n < 0x8000_0000

  type UInt32 = n: nat | n < 0x1_0000_0000

  function CheckedMul(left: SizeT, right: SizeT): Option<SizeT> {
    if left != 0 && right > SIZE_MAX / left then None
    else
      MulFits(left, right);
      Some(left * right)
  }

  function CheckedAdd(left: SizeT, right: SizeT): Option<SizeT> {
    if right > SIZE_MAX - left then None else Some(left + right)
  }

  function PitchMagnitude(pitch: Int32): Option<SizeT> {
    if pitch == INT32_MIN then None else Some(if pitch < 0 then -pitch else pitch)
  }

  function PackedRegionExtent(pitch: Int32, height: UInt32, rowBytes: SizeT): Option<SizeT>
    requires height >= 1
  {
    match PitchMagnitude(pitch)
    case None => None
    case Some(magnitude) =>
      match CheckedMul(height - 1, magnitude)
      case None => None
      case Some(span) => CheckedAdd(span, rowBytes)
  }

  function LowestAddressedAddress(scanline0: SizeT, pitch: Int32, height: UInt32): Option<SizeT> {
    if height == 0 then None
    else
      var descent: Option<SizeT> :=
        if pitch >= 0 then Some(0)
        else match PitchMagnitude(pitch)
          case None => None
          case Some(magnitude) => CheckedMul(height - 1, magnitude);
      if descent.None? || descent.value > scanline0 then None else Some(scanline0 - descent.value)
  }

  function RebaseAccessibleExtent(start: SizeT, lowest: SizeT, length: SizeT): Option<SizeT> {
    if length == 0 || lowest < start then None
    else match CheckedAdd(start, length)
      case None => None
      case Some(end) => if lowest >= end then None else Some(end - lowest)
  }

  function LockAccessibleExtent(scanline0: SizeT, pitch: Int32, height: UInt32, start: SizeT, length: SizeT)
    : Option<SizeT>
  {
    match LowestAddressedAddress(scanline0, pitch, height)
    case None => None
    case Some(lowest) => RebaseAccessibleExtent(start, lowest, length)
  }

  function PackedRowRegionOffset(row: UInt32, pitch: Int32, height: UInt32): Option<SizeT>
    requires row < height
  {
    match PitchMagnitude(pitch)
    case None => None
    case Some(magnitude) => CheckedMul(if pitch < 0 then height - 1 - row else row, magnitude)
  }

  predicate PackedRowFits(row: UInt32, pitch: Int32, height: UInt32, rowBytes: SizeT, accessible: SizeT)
    requires row < height
  {
    match PackedRowRegionOffset(row, pitch, height)
    case None => false
    case Some(offset) =>
      match CheckedAdd(offset, rowBytes)
      case None => false
      case Some(end) => end <= accessible
  }

  // ----- exactness of the checks ---------------------------------------------------------------

  lemma MulFits(left: nat, right: nat)
    ensures left != 0 ==> (right > SIZE_MAX / left <==> left * right > SIZE_MAX)
    ensures left == 0 ==> left * right == 0
  {
    if left != 0 {
      var q := SIZE_MAX / left;
      assert left * q <= SIZE_MAX < left * (q + 1);
      if right > q {
        assert left * right >= left * (q + 1);
      } else {
        assert left * right <= left * q;
      }
    }
  }

  /** The checked operations fail exactly when the mathematical result is not a `size_t`. */
  lemma CheckedExactly(left: SizeT, right: SizeT)
    ensures CheckedMul(left, right) == if left * right <= SIZE_MAX then Some(left * right) else None
    ensures CheckedAdd(left, right) == if left + right <= SIZE_MAX then Some(left + right) else None
  {
    MulFits(left, right);
  }

  lemma MulMonotone(a: nat, b: nat, c: nat)
    requires a <= b
    ensures a * c <= b * c
  {
  }

  function Magnitude(pitch: int): nat {
    if pitch < 0 then -pitch else pitch
  }

  /** The one check of the whole extent is equivalent to the check of every single row. */
  lemma ExtentCoversRows(pitch: Int32, height: UInt32, rowBytes: SizeT, accessible: SizeT)
    requires height >= 1
    ensures var extent := PackedRegionExtent(pitch, height, rowBytes);
            (extent.Some? && extent.value <= accessible) <==>
              forall row: UInt32 :: row < height ==> PackedRowFits(row, pitch, height, rowBytes, accessible)
  {
    var extent := PackedRegionExtent(pitch, height, rowBytes);
    if pitch != INT32_MIN {
      var m := Magnitude(pitch);
      CheckedExactly(height - 1, m);
      if extent.Some? && extent.value <= accessible {
        forall row: UInt32 | row < height
          ensures PackedRowFits(row, pitch, height, rowBytes, accessible)
        {
          var k := if pitch < 0 then height - 1 - row else row;
          MulMonotone(k, height - 1, m);
          CheckedExactly(k, m);
        }
      } else {
        // the row that lies highest in memory does not fit
        var highest: UInt32 := if pitch < 0 then 0 else height - 1;
        assert !PackedRowFits(highest, pitch, height, rowBytes, accessible);
      }
    } else {
      assert !PackedRowFits(0, pitch, height, rowBytes, accessible);
    }
  }

  /** Address of byte `j` of visual row `row`. */
  function ByteAddress(scanline0: int, pitch: int, row: nat, j: nat): int {
    scanline0 + row * pitch + j
  }

  /** If the lock's range and the extent check are accepted, then for both signs of the pitch
      every byte of every row lies in the locked range and no address wraps around. */
  lemma RowsInsideLock(scanline0: SizeT, pitch: Int32, height: UInt32, rowBytes: SizeT, start: SizeT, length: SizeT,
                       row: nat, j: nat)
    requires height >= 1
    requires LockAccessibleExtent(scanline0, pitch, height, start, length).Some?
    requires PackedRegionExtent(pitch, height, rowBytes).Some?
    requires PackedRegionExtent(pitch, height, rowBytes).value
               <= LockAccessibleExtent(scanline0, pitch, height, start, length).value
    requires row < height && j < rowBytes
    ensures start <= ByteAddress(scanline0, pitch, row, j) < start + length <= SIZE_MAX
  {
    var m := Magnitude(pitch);
    CheckedExactly(height - 1, m);
    MulMonotone(row, height - 1, m);
    if pitch < 0 {
      assert row * pitch == -(row * m);
      MulMonotone(height - 1 - row, height - 1, m);
    }
  }

  /** The accessible length is exact: it reaches from the lowest addressed byte to the end of
      the locked range, and it is refused exactly when that byte is not in the range. */
  lemma AccessibleExactly(scanline0: SizeT, pitch: Int32, height: UInt32, start: SizeT, length: SizeT)
    requires height >= 1 && pitch != INT32_MIN && start + length <= SIZE_MAX
    ensures var lowest := scanline0 - (if pitch < 0 then (height - 1) * Magnitude(pitch) else 0);
            LockAccessibleExtent(scanline0, pitch, height, start, length)
              == if start <= lowest < start + length then Some(start + length - lowest) else None
  {
    var m := Magnitude(pitch);
    CheckedExactly(height - 1, m);
  }
}
