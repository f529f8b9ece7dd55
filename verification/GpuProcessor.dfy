/** Letterbox geometry: the source fitted inside the encoder frame, everything even for 4:2:0 chroma. */
module GpuProcessor {
  import opened Arithmetic

  datatype Fit = Fit(x: int, y: int, w: int, h: int)

  function Scale(sw: int, sh: int, dw: int, dh: int): real
    requires sw > 0 && sh > 0
  {
    MinR(dw as real / sw as real, dh as real / sh as real)
  }

  function Scaled(x: int, scale: real): real { x as real * scale }

  /** One fitted dimension: scaled, rounded down to even, at least two, at most the even part of the frame. */
  function FitDimension(src: int, dst: int, scale: real): int {
    Min(Max(2, Even(Scaled(src, scale).Floor)), Even(dst))
  }

  function FitRect(sw: int, sh: int, dw: int, dh: int): Fit
    requires sw > 0 && sh > 0
  {
    var scale := Scale(sw, sh, dw, dh);
    var w, h := FitDimension(sw, dw, scale), FitDimension(sh, dh, scale);
    Fit(Even((dw - w) / 2), Even((dh - h) / 2), w, h)
  }

  // ---------- Geometry ----------

  /** The luma rectangle and the chroma rectangle at half its coordinates lie inside their planes, all even. */
  lemma FitsInside(sw: int, sh: int, dw: int, dh: int)
    requires sw > 0 && sh > 0 && dw > 0 && dh > 0
    ensures var f := FitRect(sw, sh, dw, dh);
            && f.x % 2 == 0 && f.y % 2 == 0 && f.w % 2 == 0 && f.h % 2 == 0
            && 0 <= f.x && 0 <= f.y && 0 <= f.w && 0 <= f.h && f.x + f.w <= dw && f.y + f.h <= dh
            && f.x / 2 + f.w / 2 <= dw / 2 && f.y / 2 + f.h / 2 <= dh / 2
  {
    hide Scale, FitDimension;
    DimensionEven(sw, dw, Scale(sw, sh, dw, dh));
    DimensionEven(sh, dh, Scale(sw, sh, dw, dh));
    CentredInside(FitDimension(sw, dw, Scale(sw, sh, dw, dh)), dw);
    CentredInside(FitDimension(sh, dh, Scale(sw, sh, dw, dh)), dh);
  }

  lemma DimensionEven(src: int, dst: int, scale: real)
    requires dst > 0
    ensures FitDimension(src, dst, scale) % 2 == 0 && 0 <= FitDimension(src, dst, scale) <= dst
  {
    hide Scaled;
  }

  lemma CentredInside(size: int, dst: int)
    requires dst > 0 && size % 2 == 0 && 0 <= size <= dst
    ensures var at := Even((dst - size) / 2);
            at % 2 == 0 && 0 <= at && at + size <= dst && at / 2 + size / 2 <= dst / 2
  {
  }

  /** The rectangle is centred: left and right bars, and top and bottom bars, differ by at most three pixels, the right
      and bottom ones being no smaller. */
  lemma Centred(sw: int, sh: int, dw: int, dh: int)
    requires sw > 0 && sh > 0 && dw > 0 && dh > 0
    ensures var f := FitRect(sw, sh, dw, dh);
            && 0 <= (dw - f.w - f.x) - f.x <= 3 && 0 <= (dh - f.h - f.y) - f.y <= 3
  {
    hide Scale, FitDimension;
    DimensionEven(sw, dw, Scale(sw, sh, dw, dh));
    DimensionEven(sh, dh, Scale(sw, sh, dw, dh));
  }

  predicate Inside(f: Fit, col: int, row: int) { f.x <= col < f.x + f.w && f.y <= row < f.y + f.h }

  /** Chroma sample (col, row), which belongs to the luma pixels from (2 col, 2 row) on, is in the chroma rectangle
      exactly when they are in the luma one; interleaved, its bytes are at columns 2 col and 2 col + 1. */
  lemma ChromaMatchesLuma(sw: int, sh: int, dw: int, dh: int, col: int, row: int)
    requires sw > 0 && sh > 0 && dw > 0 && dh > 0
    ensures var f := FitRect(sw, sh, dw, dh);
            && (Inside(Halved(f), col, row) <==> Inside(f, 2 * col, 2 * row))
            && (Inside(Halved(f), col, row) <==> Inside(f, 2 * col + 1, 2 * row + 1))
            && (Inside(Interleaved(f), 2 * col, row) <==> Inside(f, 2 * col, 2 * row))
            && (Inside(Interleaved(f), 2 * col + 1, row) <==> Inside(f, 2 * col + 1, 2 * row + 1))
  {
    hide FitRect;
    FitsInside(sw, sh, dw, dh);
  }

  /** The minimum size of two did not decide either dimension. */
  predicate MinimumNotHit(sw: int, sh: int, dw: int, dh: int)
    requires sw > 0 && sh > 0
  {
    var scale := Scale(sw, sh, dw, dh);
    Scaled(sw, scale).Floor >= 2 && Scaled(sh, scale).Floor >= 2
  }

  /** Scaling never exceeds the frame, and one dimension meets it exactly. */
  lemma ScaleMeetsFrame(sw: int, sh: int, dw: int, dh: int)
    requires sw > 0 && sh > 0 && dw > 0 && dh > 0
    ensures var s := Scale(sw, sh, dw, dh);
            && Scaled(sw, s) <= dw as real && Scaled(sh, s) <= dh as real
            && (Scaled(sw, s) == dw as real || Scaled(sh, s) == dh as real)
  {
    var a, b := dw as real / sw as real, dh as real / sh as real;
    assert sw as real * a == dw as real && sh as real * b == dh as real;
    if a < b {
      ScaleMonotone(sh as real, a, b);
    } else {
      ScaleMonotone(sw as real, b, a);
    }
  }

  lemma ScaleMonotone(x: real, a: real, b: real)
    requires x > 0.0 && a <= b
    ensures x * a <= x * b
  {
  }

  lemma DimensionWithin(src: int, dst: int, scale: real)
    requires src > 0 && dst > 0 && Scaled(src, scale) <= dst as real && Scaled(src, scale).Floor >= 2
    ensures Scaled(src, scale) - 2.0 < FitDimension(src, dst, scale) as real <= Scaled(src, scale)
    ensures Scaled(src, scale) == dst as real ==> FitDimension(src, dst, scale) == Even(dst)
  {
    hide Scaled;
  }

  /** Unless the minimum size decided, one dimension fills the frame's even size and the aspect ratio is off
      by less than the two-pixel rounding. */
  lemma AspectKept(sw: int, sh: int, dw: int, dh: int)
    requires sw > 0 && sh > 0 && dw > 0 && dh > 0 && MinimumNotHit(sw, sh, dw, dh)
    ensures var f := FitRect(sw, sh, dw, dh);
            && (f.w == Even(dw) || f.h == Even(dh))
            && Abs(f.w * sh - f.h * sw) < 2 * Max(sw, sh)
  {
    hide Scale, Scaled, FitDimension, Abs;
    var f, s := FitRect(sw, sh, dw, dh), Scale(sw, sh, dw, dh);
    ScaleMeetsFrame(sw, sh, dw, dh);
    DimensionWithin(sw, dw, s);
    DimensionWithin(sh, dh, s);
    CrossProducts(f.w, f.h, sw, sh, s);
  }

  lemma CrossProducts(w: int, h: int, sw: int, sh: int, s: real)
    requires sw > 0 && sh > 0
    requires Scaled(sw, s) - 2.0 < w as real <= Scaled(sw, s) && Scaled(sh, s) - 2.0 < h as real <= Scaled(sh, s)
    ensures Abs(w * sh - h * sw) < 2 * Max(sw, sh)
  {
    OneSided(w, h, sw, sh, s);
    OneSided(h, w, sh, sw, s);
  }

  lemma OneSided(w: int, h: int, sw: int, sh: int, s: real)
    requires sw > 0 && sh > 0 && w as real <= Scaled(sw, s) && Scaled(sh, s) - 2.0 < h as real
    ensures w * sh - h * sw < 2 * sw
  {
    var a, b, p, q := sw as real, sh as real, w as real, h as real;
    ScaleMonotone(b, p, a * s);
    StrictScale(a, b * s - 2.0, q);
    assert b * (a * s) == a * (b * s);
    assert a * (b * s - 2.0) == a * (b * s) - 2.0 * a;
    assert b * p == (w * sh) as real && a * q == (h * sw) as real;
  }

  lemma StrictScale(x: real, a: real, b: real)
    requires x > 0.0 && a < b
    ensures x * a < x * b
  {
  }

  // ---------- Buffers ----------

  /** Where a plane of the given stride keeps the pixel of a row and column. */
  function At(stride: nat, row: nat, col: nat): nat { row * stride + col }

  /** Distinct pixels have distinct places, all inside the buffer. */
  lemma AtIsInjective(stride: nat, rows: nat, r: nat, c: nat, r': nat, c': nat)
    requires r < rows && c < stride && r' < rows && c' < stride
    ensures At(stride, r, c) < stride * rows
    ensures At(stride, r, c) == At(stride, r', c') <==> r == r' && c == c'
  {
    hide At;
    AtInside(stride, rows, r, c);
    if r < r' {
      RowsApart(stride, r, c, r', c');
    } else if r' < r {
      RowsApart(stride, r', c', r, c);
    } else {
      AtColumn(stride, r, c, c');
    }
  }

  lemma AtInside(stride: nat, rows: nat, r: nat, c: nat)
    requires r < rows && c < stride
    ensures At(stride, r, c) < stride * rows
  {
    assert (rows - 1 - r) * stride >= 0;
    assert (rows - 1 - r) * stride == rows * stride - stride - r * stride;
  }

  lemma RowsApart(stride: nat, r: nat, c: nat, r': nat, c': nat)
    requires c < stride && c' < stride && r < r'
    ensures At(stride, r, c) < At(stride, r', c')
  {
    assert (r' - r - 1) * stride >= 0;
    assert (r' - r - 1) * stride == r' * stride - r * stride - stride;
  }

  /** The plane shows the picture inside the rectangle and the background everywhere else. */
  ghost predicate Letterboxed(plane: seq<uint8>, stride: nat, rows: nat, f: Fit,
                              picture: (int, int) -> uint8, background: uint8)
    requires |plane| == stride * rows
  {
    forall row: nat, col: nat :: row < rows && col < stride ==>
      Shows(plane, stride, rows, f, picture, background, row, col)
  }

  ghost predicate Shows(plane: seq<uint8>, stride: nat, rows: nat, f: Fit,
                        picture: (int, int) -> uint8, background: uint8,
                        row: nat, col: nat)
    requires |plane| == stride * rows && row < rows && col < stride
  {
    AtIsInjective(stride, rows, row, col, row, col);
    plane[At(stride, row, col)] ==
    if f.y <= row < f.y + f.h && f.x <= col < f.x + f.w then picture(row - f.y, col - f.x) else background
  }

  lemma Blank(plane: seq<uint8>, stride: nat, rows: nat, f: Fit, picture: (int, int) -> uint8, background: uint8)
    requires |plane| == stride * rows && forall i :: 0 <= i < |plane| ==> plane[i] == background
    ensures Letterboxed(plane, stride, rows, f.(h := 0), picture, background)
  {
    hide At;
    forall row: nat, col: nat {:trigger At(stride, row, col)} | row < rows && col < stride
      ensures Shows(plane, stride, rows, f.(h := 0), picture, background, row, col)
    {
      AtIsInjective(stride, rows, row, col, row, col);
    }
  }

  function Halved(f: Fit): Fit { Fit(f.x / 2, f.y / 2, f.w / 2, f.h / 2) }

  function Interleaved(f: Fit): Fit { Fit(f.x, f.y / 2, f.w, f.h / 2) }

  /** The background fill, then the scaler writing the rectangle's rows from its start offset, a stride apart. */
  method DrawPlane(plane: array<uint8>, stride: nat, rows: nat, f: Fit, picture: (int, int) -> uint8, background: uint8)
    requires plane.Length == stride * rows
    requires 0 <= f.x && 0 <= f.y && 0 <= f.w && 0 <= f.h && f.x + f.w <= stride && f.y + f.h <= rows
    modifies plane
    ensures Letterboxed(plane[..], stride, rows, f, picture, background)
  {
    hide At;
    forall i | 0 <= i < plane.Length {
      plane[i] := background;
    }
    Blank(plane[..], stride, rows, f, picture, background);
    var start := f.y * stride + f.x;
    assert start == At(stride, f.y, f.x) by { AtStart(stride, f.y, f.x); }
    for r := 0 to f.h
      invariant Letterboxed(plane[..], stride, rows, f.(h := r), picture, background)
    {
      AtRow(stride, f.y, f.x, r);
      DrawRow(plane, stride, rows, start + r * stride, f.w, r, f, picture, background);
    }
    assert f.(h := f.h) == f;
  }

  method DrawRow(plane: array<uint8>, stride: nat, rows: nat, at: nat, w: nat, r: nat, ghost f: Fit,
                 picture: (int, int) -> uint8, background: uint8)
    requires plane.Length == stride * rows && f.w == w
    requires 0 <= f.x && 0 <= f.y && f.x + w <= stride && f.y + r < rows && at == At(stride, f.y + r, f.x)
    requires Letterboxed(plane[..], stride, rows, f.(h := r), picture, background)
    modifies plane
    ensures Letterboxed(plane[..], stride, rows, f.(h := r + 1), picture, background)
  {
    hide At;
    InRow(stride, rows, f.y + r, f.x, w);
    ghost var was := plane[..];
    forall c | 0 <= c < w {
      plane[at + c] := picture(r, c);
    }
    forall row: nat, col: nat {:trigger At(stride, row, col)} | row < rows && col < stride
      ensures Shows(plane[..], stride, rows, f.(h := r + 1), picture, background, row, col)
    {
      assert Shows(was, stride, rows, f.(h := r), picture, background, row, col);
      AtIsInjective(stride, rows, row, col, row, col);
      if row == f.y + r {
        InRow(stride, rows, row, f.x, w);
        AtColumn(stride, row, f.x, col);
      } else {
        Elsewhere(stride, rows, f.y + r, f.x, w, row, col);
      }
    }
  }

  lemma AtColumn(stride: nat, row: nat, x: nat, col: nat)
    ensures At(stride, row, col) == At(stride, row, x) + (col - x)
  {
  }

  lemma AtStart(stride: nat, y: nat, x: nat)
    ensures At(stride, y, x) == y * stride + x
  {
  }

  lemma AtRow(stride: nat, y: nat, x: nat, r: nat)
    ensures At(stride, y, x) + r * stride == At(stride, y + r, x)
  {
  }

  lemma InRow(stride: nat, rows: nat, row: nat, x: nat, w: nat)
    requires row < rows && x + w <= stride
    ensures At(stride, row, x) + w <= stride * rows
  {
    if w > 0 {
      hide At;
      AtInside(stride, rows, row, x + w - 1);
      AtColumn(stride, row, x, x + w - 1);
    } else {
      assert (rows - 1 - row) * stride >= 0;
      assert (rows - 1 - row) * stride == rows * stride - stride - row * stride;
    }
  }

  /** A row's span holds no pixel of another row. */
  lemma Elsewhere(stride: nat, rows: nat, row: nat, x: nat, w: nat, row': nat, col': nat)
    requires row < rows && row' < rows && row != row' && x + w <= stride && col' < stride
    ensures At(stride, row', col') < At(stride, row, x) || At(stride, row', col') >= At(stride, row, x) + w
  {
    if w > 0 {
      hide At;
      AtColumn(stride, row, x, x + w - 1);
      if row < row' { RowsApart(stride, row, x + w - 1, row', col'); } else { RowsApart(stride, row', col', row, x); }
    }
  }

  // ---------- The processor ----------

  class GpuProcessor {
    var srcWidth: int
    var srcHeight: int
    var dstWidth: int
    var dstHeight: int
    var fitX: int
    var fitY: int
    var fitW: int
    var fitH: int

    /** No geometry yet, or the fit of the current sizes. */
    ghost predicate Valid()
      reads this
    {
      (srcWidth == srcHeight == dstWidth == dstHeight == fitX == fitY == fitW == fitH == 0) || Ready()
    }

    ghost predicate Ready()
      reads this
    {
      srcWidth > 0 && srcHeight > 0 && dstWidth > 0 && dstHeight > 0 &&
      Fit(fitX, fitY, fitW, fitH) == FitRect(srcWidth, srcHeight, dstWidth, dstHeight)
    }

    constructor ()
      ensures Valid()
    {
      srcWidth, srcHeight, dstWidth, dstHeight := 0, 0, 0, 0;
      fitX, fitY, fitW, fitH := 0, 0, 0, 0;
    }

    /** `scalersOk` is whether the scaler library could set up its three contexts. */
    method Initialize(sw: int, sh: int, dw: int, dh: int, scalersOk: bool) returns (ok: bool)
      requires Valid()
      modifies this
      ensures Valid() && (ok <==> sw > 0 && sh > 0 && dw > 0 && dh > 0 && scalersOk)
      ensures ok ==> Ready() && srcWidth == sw && srcHeight == sh && dstWidth == dw && dstHeight == dh
      ensures !ok ==> srcWidth == old(srcWidth) && dstWidth == old(dstWidth) && fitW == old(fitW) &&
                      fitH == old(fitH) &&
                      srcHeight == old(srcHeight) && dstHeight == old(dstHeight) && fitX == old(fitX) &&
                      fitY == old(fitY)
    {
      if sw <= 0 || sh <= 0 || dw <= 0 || dh <= 0 {
        return false;
      }
      hide Scale, Scaled;
      var scale := Scale(sw, sh, dw, dh);
      var w := Max(2, Even(Scaled(sw, scale).Floor));
      var h := Max(2, Even(Scaled(sh, scale).Floor));
      w := Min(w, Even(dw));
      h := Min(h, Even(dh));
      var x := Even((dw - w) / 2);
      var y := Even((dh - h) / 2);
      if !scalersOk {
        return false;
      }
      srcWidth, srcHeight, dstWidth, dstHeight := sw, sh, dw, dh;
      fitX, fitY, fitW, fitH := x, y, w, h;
      ok := true;
    }

    /** The frame size conversions draw into: the configured one, or the first source's. */
    function FrameSize(sw: int, sh: int): (int, int)
      reads this
    {
      (if dstWidth > 0 then dstWidth else sw, if dstHeight > 0 then dstHeight else sh)
    }

    /** Follows a source whose size changed, keeping the frame size. */
    method EnsureSource(sw: int, sh: int, scalersOk: bool) returns (ok: bool)
      requires Valid()
      modifies this
      ensures Valid()
      ensures ok <==> sw > 0 && sh > 0 && (scalersOk || (sw == old(srcWidth) && sh == old(srcHeight)))
      ensures ok ==> Ready() && srcWidth == sw && srcHeight == sh && (dstWidth, dstHeight) == old(FrameSize(sw, sh))
      ensures ok && old(dstWidth) > 0 ==> dstWidth == old(dstWidth) && dstHeight == old(dstHeight)
      ensures ok && old(dstWidth) <= 0 ==> dstWidth == sw && dstHeight == sh
    {
      if sw == srcWidth && sh == srcHeight && sw > 0 {
        return true;
      }
      ok := Initialize(sw, sh, if dstWidth > 0 then dstWidth else sw,
                       if dstHeight > 0 then dstHeight else sh, scalersOk);
    }

    /** Planar output into the caller's buffers. `luma`, `cb` and `cr` are what the scaler makes of the source at the
        fitted size. Each buffer ends up a black frame with the picture in the fitted rectangle. */
    method ConvertBgraToYuv420p(sw: int, sh: int, scalersOk: bool,
                                luma: (int, int) -> uint8, cb: (int, int) -> uint8, cr: (int, int) -> uint8,
                                y: array<uint8>, yStride: int, u: array<uint8>, uStride: int,
                                v: array<uint8>, vStride: int)
      returns (ok: bool)
      requires Valid() && y != u && y != v && u != v
      requires sw > 0 && sh > 0 && yStride > 0 && uStride > 0 && vStride > 0 ==>
                 var (w, h) := FrameSize(sw, sh);
                 yStride >= w && uStride >= w / 2 && vStride >= w / 2 && h > 0 &&
                 y.Length == yStride * h && u.Length == uStride * (h / 2) && v.Length == vStride * (h / 2)
      modifies this, y, u, v
      ensures Valid()
      ensures ok <==> sw > 0 && sh > 0 && yStride > 0 && uStride > 0 && vStride > 0 &&
                      (scalersOk || (sw == old(srcWidth) && sh == old(srcHeight)))
      ensures ok ==>
        var (w, h) := old(FrameSize(sw, sh));
        && w > 0 && h > 0 && y.Length == yStride * h && u.Length == uStride * (h / 2) && v.Length == vStride * (h / 2)
        && Letterboxed(y[..], yStride, h, FitRect(sw, sh, w, h), luma, 16)
        && Letterboxed(u[..], uStride, h / 2, Halved(FitRect(sw, sh, w, h)), cb, 128)
        && Letterboxed(v[..], vStride, h / 2, Halved(FitRect(sw, sh, w, h)), cr, 128)
    {
      if yStride <= 0 || uStride <= 0 || vStride <= 0 {
        return false;
      }
      ok := EnsureSource(sw, sh, scalersOk);
      if !ok {
        return;
      }
      hide FitRect, Letterboxed;
      FitsInside(srcWidth, srcHeight, dstWidth, dstHeight);
      DrawPlane(y, yStride, dstHeight, Fit(fitX, fitY, fitW, fitH), luma, 16);
      DrawPlane(u, uStride, dstHeight / 2, Fit(fitX / 2, fitY / 2, fitW / 2, fitH / 2), cb, 128);
      DrawPlane(v, vStride, dstHeight / 2, Fit(fitX / 2, fitY / 2, fitW / 2, fitH / 2), cr, 128);
    }

    /** NV12 into the caller's buffers; a chroma row interleaves both components, two bytes a pixel pair. `luma` and
        `chroma` come from the BGRA copy or from a mapped NV12 frame; a frame that exists in hardware memory alone
        is refused. */
    method ConvertBgraToNv12(sw: int, sh: int, scalersOk: bool, hardwareOnly: bool,
                             luma: (int, int) -> uint8, chroma: (int, int) -> uint8,
                             y: array<uint8>, yStride: int, uv: array<uint8>, uvStride: int)
      returns (ok: bool)
      requires Valid() && y != uv
      requires sw > 0 && sh > 0 && yStride > 0 && uvStride > 0 ==>
                 var (w, h) := FrameSize(sw, sh);
                 yStride >= w && uvStride >= Even(w) && h > 0 &&
                 y.Length == yStride * h && uv.Length == uvStride * (h / 2)
      modifies this, y, uv
      ensures Valid()
      ensures ok <==> sw > 0 && sh > 0 && yStride > 0 && uvStride > 0 && !hardwareOnly &&
                      (scalersOk || (sw == old(srcWidth) && sh == old(srcHeight)))
      ensures ok ==>
        var (w, h) := old(FrameSize(sw, sh));
        && w > 0 && h > 0 && y.Length == yStride * h && uv.Length == uvStride * (h / 2)
        && Letterboxed(y[..], yStride, h, FitRect(sw, sh, w, h), luma, 16)
        && Letterboxed(uv[..], uvStride, h / 2, Interleaved(FitRect(sw, sh, w, h)), chroma, 128)
      ensures !ok ==> y[..] == old(y[..]) && uv[..] == old(uv[..])
    {
      if yStride <= 0 || uvStride <= 0 {
        return false;
      }
      ok := EnsureSource(sw, sh, scalersOk);
      if !ok || hardwareOnly {
        return false;
      }
      hide FitRect, Letterboxed;
      FitsInside(srcWidth, srcHeight, dstWidth, dstHeight);
      DrawPlane(y, yStride, dstHeight, Fit(fitX, fitY, fitW, fitH), luma, 16);
      DrawPlane(uv, uvStride, dstHeight / 2, Fit(fitX, fitY / 2, fitW, fitH / 2), chroma, 128);
    }
  }
}
