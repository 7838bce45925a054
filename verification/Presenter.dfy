/** Putting a decoded frame on a surface of another size (crates/oxdisplay/src/presenter.rs). The
    surface is the byte view of its pixels, four bytes each, rows without gaps. */
module Presenter {
  import opened Prelude

  const RAW_BGRA := 1

  datatype Frame = Frame(codec: nat, width: u16, height: u16, data: seq<byte>)

  /** Four bytes a pixel, exactly. */
  predicate WellSized(f: Frame) {
    |f.data| == f.width * f.height * 4
  }

  // ---------------------------------------------------------------- index arithmetic

  lemma {:induction false} RowFits(row: nat, rows: nat, stride: nat, n: nat)
    requires row < rows && n <= stride
    ensures 0 <= row * stride && row * stride + n <= rows * stride
  {
    assert (row + 1) * stride <= rows * stride;
  }

  lemma {:induction false} RowOf(i: nat, row: nat, stride: nat)
    requires row * stride <= i < row * stride + stride
    ensures i / stride == row && i % stride == i - row * stride
  {
    var b := i - row * stride;
    assert i == stride * row + b;
    DivMod(row, stride, b);
  }

  lemma {:induction false} NextMultiple(d: nat, a: nat, b: nat)
    ensures a < b ==> d * a + d <= d * b
  {
    if a < b {
      assert d * (a + 1) <= d * b;
    }
  }

  lemma {:induction false} DivMod(q: nat, d: nat, b: nat)
    requires b < d
    ensures (d * q + b) / d == q && (d * q + b) % d == b
  {
    var i := d * q + b;
    var k := i / d;
    assert i == d * k + i % d;
    NextMultiple(d, k, q);
    NextMultiple(d, q, k);
  }

  lemma {:induction false} FlatIndex(y: nat, width: nat, x: nat, k: nat)
    ensures (y * width + x) * 4 + k == y * (width * 4) + (x * 4 + k)
  {
    assert y * width * 4 == y * (width * 4);
  }

  // ---------------------------------------------------------------- what a surface should show

  /** The byte at flat position `i` of a surface with the given row length: the frame's where both have
      one, zero elsewhere. */
  function Want(f: Frame, stride: nat, i: nat): byte
    requires WellSized(f) && stride > 0
  {
    var row, col := i / stride, i % stride;
    if row < f.height && col < f.width * 4 then
      RowFits(row, f.height, f.width * 4, col + 1);
      f.data[row * (f.width * 4) + col]
    else 0
  }

  ghost predicate Shows(surface: seq<byte>, width: nat, height: nat, f: Frame)
    requires WellSized(f) && width > 0
  {
    && |surface| == width * height * 4
    && forall i :: 0 <= i < |surface| ==> surface[i] == Want(f, width * 4, i)
  }

  /** Want, by row and column. */
  lemma {:induction false} WantAt(f: Frame, stride: nat, y: nat, col: nat)
    requires WellSized(f) && col < stride
    ensures y < f.height && col < f.width * 4 ==> 0 <= y * (f.width * 4) + col < |f.data|
    ensures Want(f, stride, y * stride + col) ==
            if y < f.height && col < f.width * 4 then f.data[y * (f.width * 4) + col] else 0
  {
    RowOf(y * stride + col, y, stride);
    WantIs(f, stride, y * stride + col, y, col);
  }

  lemma {:induction false} WantIs(f: Frame, stride: nat, i: nat, y: nat, col: nat)
    requires WellSized(f) && stride > 0 && i / stride == y && i % stride == col
    ensures y < f.height && col < f.width * 4 ==> 0 <= y * (f.width * 4) + col < |f.data|
    ensures Want(f, stride, i) ==
            if y < f.height && col < f.width * 4 then f.data[y * (f.width * 4) + col] else 0
  {
    if y < f.height && col < f.width * 4 {
      RowFits(y, f.height, f.width * 4, col + 1);
      Area(f.width, f.height);
    }
  }

  lemma {:induction false} Area(width: nat, height: nat)
    ensures height * (width * 4) == width * height * 4
  {
  }

  /** Byte `k` of pixel (x, y) lies inside a buffer of that many pixels. */
  lemma {:induction false} PixelInside(width: nat, height: nat, x: nat, y: nat, k: nat)
    requires x < width && y < height && k < 4
    ensures 0 <= (y * width + x) * 4 + k < width * height * 4
  {
    FlatIndex(y, width, x, k);
    RowFits(y, height, width * 4, x * 4 + k + 1);
    Area(width, height);
  }

  /** In coordinates: inside both rectangles the frame's pixel, outside the frame black. */
  lemma {:induction false} ShowsPixels(
    surface: seq<byte>, width: nat, height: nat, f: Frame, x: nat, y: nat, k: nat)
    requires WellSized(f) && width > 0 && Shows(surface, width, height, f)
    requires x < width && y < height && k < 4
    ensures 0 <= (y * width + x) * 4 + k < |surface|
    ensures x < f.width && y < f.height ==> 0 <= (y * f.width + x) * 4 + k < |f.data|
    ensures surface[(y * width + x) * 4 + k] ==
            if x < f.width && y < f.height then f.data[(y * f.width + x) * 4 + k] else 0
  {
    PixelInside(width, height, x, y, k);
    FlatIndex(y, width, x, k);
    WantAt(f, width * 4, y, x * 4 + k);
    if x < f.width && y < f.height {
      PixelInside(f.width, f.height, x, y, k);
      FlatIndex(y, f.width, x, k);
    }
  }

  // ---------------------------------------------------------------- the copy loop

  /** One `copy_nonoverlapping`; both ranges are inside their buffers. */
  method CopyRow(dst: array<byte>, at: nat, src: seq<byte>, from: nat, n: nat)
    requires at + n <= dst.Length && from + n <= |src|
    modifies dst
    ensures forall i :: 0 <= i < dst.Length ==>
              dst[i] == if at <= i < at + n then src[from + (i - at)] else old(dst[i])
  {
    forall i | 0 <= i < n {
      dst[at + i] := src[from + i];
    }
  }

  /** Whatever the surface held and whatever the two sizes are, it ends up showing the frame. */
  method BlitPixels(surface: array<byte>, width: nat, height: nat, f: Frame)
    requires WellSized(f) && width > 0 && surface.Length == width * height * 4
    modifies surface
    ensures Shows(surface[..], width, height, f)
  {
    var same := width == f.width && height == f.height;
    if !same {
      forall i | 0 <= i < surface.Length {
        surface[i] := 0;
      }
    }
    var dstStride, srcStride := width * 4, f.width * 4;
    var rowBytes := Min(width, f.width) * 4;
    var rows := Min(height, f.height);
    assert height * dstStride == surface.Length;
    assert f.height * srcStride == |f.data|;
    var row := 0;
    while row < rows
      invariant 0 <= row <= rows
      invariant forall i :: 0 <= i < surface.Length && i < row * dstStride ==> surface[i] == Want(f, dstStride, i)
      invariant !same ==> forall i :: row * dstStride <= i < surface.Length ==> surface[i] == 0
    {
      var at := row * dstStride;
      RowFits(row, height, dstStride, dstStride);
      RowFits(row, f.height, srcStride, srcStride);
      CopyRow(surface, at, f.data, row * srcStride, rowBytes);
      forall i | at <= i < at + dstStride
        ensures surface[i] == Want(f, dstStride, i)
      {
        RowOf(i, row, dstStride);
      }
      assert (row + 1) * dstStride == at + dstStride;
      row := row + 1;
    }
    forall i | 0 <= i < surface.Length
      ensures surface[i] == Want(f, dstStride, i)
    {
      if i >= rows * dstStride {
        BelowFrame(i, rows, height, dstStride, f.height);
      }
    }
  }

  /** Past the copied rows the surface is below the frame. */
  lemma {:induction false} BelowFrame(i: nat, rows: nat, height: nat, stride: nat, frameHeight: nat)
    requires stride > 0 && rows == Min(height, frameHeight) && rows * stride <= i < height * stride
    ensures i / stride >= frameHeight
  {
    var row := i / stride;
    assert i == stride * row + i % stride;
    NextMultiple(stride, row, rows);
  }

  // ---------------------------------------------------------------- a window

  datatype PresentError = UnsupportedCodec | DroppedFrame

  class CpuWindow {
    var surface: array<byte>
    var width: nat
    var height: nat
    var lastFrame: Option<Frame>

    ghost predicate Valid()
      reads this
    {
      && width > 0 && height > 0 && surface.Length == width * height * 4
      && (lastFrame.Some? ==> WellSized(lastFrame.value))
    }

    /** A zero side becomes one pixel. */
    constructor (width: nat, height: nat)
      ensures Valid() && fresh(surface) && lastFrame == None
      ensures this.width == Max(width, 1) && this.height == Max(height, 1)
    {
      this.width, this.height := Max(width, 1), Max(height, 1);
      surface := new byte[Max(width, 1) * Max(height, 1) * 4];
      lastFrame := None;
    }

    /** The new buffer's contents are whatever the platform hands out. */
    method Resize(width: nat, height: nat)
      requires Valid()
      modifies this`surface, this`width, this`height
      ensures Valid() && fresh(surface) && lastFrame == old(lastFrame)
      ensures this.width == Max(width, 1) && this.height == Max(height, 1)
    {
      this.width, this.height := Max(width, 1), Max(height, 1);
      surface := new byte[this.width * this.height * 4];
    }

    /** A frame that is not raw, or not four bytes a pixel, is refused and changes nothing. */
    method Present(f: Frame) returns (error: Option<PresentError>)
      requires Valid()
      modifies this`lastFrame, surface
      ensures Valid()
      ensures error == if f.codec != RAW_BGRA then Some(UnsupportedCodec)
                       else if !WellSized(f) then Some(DroppedFrame) else None
      ensures error.None? ==> Shows(surface[..], width, height, f) && lastFrame == Some(f)
      ensures error.Some? ==> surface[..] == old(surface[..]) && lastFrame == old(lastFrame)
    {
      if f.codec != RAW_BGRA {
        return Some(UnsupportedCodec);
      }
      if |f.data| != f.width * f.height * 4 {
        return Some(DroppedFrame);
      }
      BlitPixels(surface, width, height, f);
      lastFrame := Some(f);
      error := None;
    }

    /** Redraw the cached frame, whatever the surface held and however it was resized since. */
    method Refresh()
      requires Valid()
      modifies surface
      ensures Valid()
      ensures lastFrame.Some? ==> Shows(surface[..], width, height, lastFrame.value)
      ensures lastFrame.None? ==> surface[..] == old(surface[..])
    {
      if lastFrame.Some? {
        BlitPixels(surface, width, height, lastFrame.value);
      }
    }
  }
}
