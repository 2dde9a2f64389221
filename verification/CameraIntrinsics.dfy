/** Rescaling a camera's intrinsic matrix to another image size: which affine
    map of the pixel plane every branch amounts to. */
module CameraIntrinsics {

  /** A pixel position, or a direction (x, y, 1) in front of the camera. */
  datatype Point = Point(x: real, y: real)

  /** The first two rows of an intrinsic matrix; its last row is (0, 0, 1). */
  datatype Intrinsics = Intrinsics(m00: real, m01: real, m02: real, m10: real, m11: real, m12: real)

  /** The pixel at which a direction is seen. */
  function Project(k: Intrinsics, p: Point): Point {
    Point(k.m00 * p.x + k.m01 * p.y + k.m02, k.m10 * p.x + k.m11 * p.y + k.m12)
  }

  /** diag(sx, sy, 1) times the matrix. */
  function ScaleRows(k: Intrinsics, sx: real, sy: real): Intrinsics {
    Intrinsics(sx * k.m00, sx * k.m01, sx * k.m02, sy * k.m10, sy * k.m11, sy * k.m12)
  }

  // ----- maps of the pixel plane -----

  /** Scales both axes and then moves the image. */
  datatype PixelMap = PixelMap(sx: real, sy: real, dx: real, dy: real)

  function MapPixel(a: PixelMap, p: Point): Point { Point(a.sx * p.x + a.dx, a.sy * p.y + a.dy) }

  /** The matrix of the camera whose image the map was applied to. */
  function Mapped(a: PixelMap, k: Intrinsics): Intrinsics {
    Intrinsics(a.sx * k.m00, a.sx * k.m01, a.sx * k.m02 + a.dx, a.sy * k.m10, a.sy * k.m11, a.sy * k.m12 + a.dy)
  }

  /** The map with the given scales that keeps the image centre the centre. */
  function CentredMap(sx: real, sy: real, width: real, height: real, resizeWidth: real, resizeHeight: real): PixelMap {
    PixelMap(sx, sy, (resizeWidth - sx * width) / 2.0, (resizeHeight - sy * height) / 2.0)
  }

  lemma MappedProjects(a: PixelMap, k: Intrinsics, p: Point)
    ensures Project(Mapped(a, k), p) == MapPixel(a, Project(k, p))
  {
    var m := Mapped(a, k);
    ScaledSum(a.sx, k.m00, p.x, k.m01, p.y, k.m02, Project(k, p).x);
    ScaledSum(a.sy, k.m10, p.x, k.m11, p.y, k.m12, Project(k, p).y);
    SameProduct(m.m00, a.sx * k.m00, p.x);
    SameProduct(m.m01, a.sx * k.m01, p.y);
    SameProduct(m.m10, a.sy * k.m10, p.x);
    SameProduct(m.m11, a.sy * k.m11, p.y);
  }

  lemma SameProduct(s: real, t: real, c: real)
    requires s == t
    ensures s * c == t * c
  {
  }

  lemma ScaledSum(s: real, a: real, x: real, b: real, y: real, c: real, sum: real)
    requires sum == a * x + b * y + c
    ensures s * sum == (s * a) * x + (s * b) * y + s * c
  {
    assert s * sum == s * (a * x) + s * (b * y) + s * c;
    Regrouped(s, a, x);
    Regrouped(s, b, y);
  }

  lemma Regrouped(s: real, a: real, x: real)
    ensures s * (a * x) == (s * a) * x
  {
  }

  lemma CentreStaysCentre(sx: real, sy: real, width: real, height: real, resizeWidth: real, resizeHeight: real)
    ensures MapPixel(CentredMap(sx, sy, width, height, resizeWidth, resizeHeight), Point(width / 2.0, height / 2.0))
            == Point(resizeWidth / 2.0, resizeHeight / 2.0)
  {
    var a := CentredMap(sx, sy, width, height, resizeWidth, resizeHeight);
    var p := Point(width / 2.0, height / 2.0);
    SameProduct(a.sx, sx, p.x + p.x);
    SameProduct(a.sy, sy, p.y + p.y);
    CentreOfAxis(a.sx, p.x, resizeWidth, a.dx);
    CentreOfAxis(a.sy, p.y, resizeHeight, a.dy);
  }

  lemma CentreOfAxis(s: real, half: real, r: real, d: real)
    requires d == (r - s * (half + half)) / 2.0
    ensures s * half + d == r / 2.0
  {
    assert s * (half + half) == s * half + s * half;
  }

  // ----- rescaling -----

  function Max(a: real, b: real): real { if a <= b then b else a }

  /** The aspect ratios for which the image is fitted into the target. */
  predicate Letterboxed(width: real, height: real, resizeWidth: real, resizeHeight: real)
    requires width > 0.0 && height > 0.0 && resizeWidth > 0.0 && resizeHeight > 0.0
  {
    resizeWidth / resizeHeight <= 1.34 && 1.5 < width / height <= 1.778
  }

  lemma RatiosCompare(a: real, b: real, c: real, d: real)
    requires b > 0.0 && d > 0.0
    ensures a / b * b == a
    ensures a / b < c / d <==> a * d < c * b
    ensures a / b * d < c <==> a * d < c * b
  {
    var p, q := a / b, c / d;
    assert a == p * b && c == q * d;
    assert a * d == p * b * d && c * b == q * d * b;
    Monotone(p, q, b * d);
    Monotone(p * d, c, b);
  }

  lemma Monotone(p: real, q: real, f: real)
    requires f > 0.0
    ensures p < q <==> p * f < q * f
  {
  }

  /** The thresholds make the width the tighter side of a letterbox. */
  lemma LetterboxFitsWidth(width: real, height: real, resizeWidth: real, resizeHeight: real)
    requires width > 0.0 && height > 0.0 && resizeWidth > 0.0 && resizeHeight > 0.0
    requires Letterboxed(width, height, resizeWidth, resizeHeight)
    ensures resizeWidth / width < resizeHeight / height
    ensures resizeWidth / width * height < resizeHeight && resizeWidth / width * width == resizeWidth
  {
    RatiosCompare(resizeWidth, resizeHeight, width, height);
    RatiosCompare(resizeWidth, width, resizeHeight, height);
    assert resizeWidth / resizeHeight < width / height;
  }

  /** The larger scale covers the target and fits it exactly in one direction. */
  lemma LargerScaleCovers(width: real, height: real, resizeWidth: real, resizeHeight: real)
    requires width > 0.0 && height > 0.0 && resizeWidth > 0.0 && resizeHeight > 0.0
    ensures var s := Max(resizeWidth / width, resizeHeight / height);
            && s == (if resizeHeight / height * width < resizeWidth then resizeWidth / width else resizeHeight / height)
            && ((s * width == resizeWidth && s * height >= resizeHeight)
                || (s * height == resizeHeight && s * width >= resizeWidth))
  {
    RatiosCompare(resizeHeight, height, resizeWidth, width);
    RatiosCompare(resizeWidth, width, resizeHeight, height);
    if resizeHeight / height < resizeWidth / width {
      Monotone(resizeHeight / height, resizeWidth / width, height);
    }
  }

  /** Moving the image by what is missing of a side, or too much of it, keeps the
      centre; nothing needs moving along a side that fits. */
  lemma ShiftedIsCentred(k: Intrinsics, s: real, width: real, height: real, resizeWidth: real, resizeHeight: real)
    ensures s * width == resizeWidth ==>
              Mapped(CentredMap(s, s, width, height, resizeWidth, resizeHeight), k)
              == (var r := ScaleRows(k, s, s); r.(m12 := r.m12 + (resizeHeight - height * s) / 2.0))
    ensures s * height == resizeHeight ==>
              Mapped(CentredMap(s, s, width, height, resizeWidth, resizeHeight), k)
              == (var r := ScaleRows(k, s, s); r.(m02 := r.m02 + (resizeWidth - width * s) / 2.0))
  {
  }

  /** The letterbox branch. */
  method FitIntoTarget(k: Intrinsics, width: real, height: real, resizeWidth: real, resizeHeight: real)
      returns (r: Intrinsics)
    requires width > 0.0 && height > 0.0 && resizeWidth > 0.0 && resizeHeight > 0.0
    requires Letterboxed(width, height, resizeWidth, resizeHeight)
    ensures var s := resizeWidth / width; r == Mapped(CentredMap(s, s, width, height, resizeWidth, resizeHeight), k)
  {
    LetterboxFitsWidth(width, height, resizeWidth, resizeHeight);
    ShiftedIsCentred(k, resizeWidth / width, width, height, resizeWidth, resizeHeight);
    hide *;
    var scaleW := resizeWidth / width;
    var scaleH := resizeHeight / height;
    scaleW := if scaleW <= scaleH then scaleW else scaleH;
    r := ScaleRows(k, scaleW, scaleW);
    if scaleW * height < resizeHeight {
      r := r.(m12 := r.m12 + (resizeHeight - height * scaleW) / 2.0);
    } else if scaleW * width > resizeWidth {
      r := r.(m02 := r.m02 + (resizeWidth - width * scaleW) / 2.0);
    }
  }

  /** The other branch that keeps the aspect ratio. */
  method CoverTarget(k: Intrinsics, width: real, height: real, resizeWidth: real, resizeHeight: real)
      returns (r: Intrinsics)
    requires width > 0.0 && height > 0.0 && resizeWidth > 0.0 && resizeHeight > 0.0
    ensures var s := Max(resizeWidth / width, resizeHeight / height);
            r == Mapped(CentredMap(s, s, width, height, resizeWidth, resizeHeight), k)
  {
    hide *;
    LargerScaleCovers(width, height, resizeWidth, resizeHeight);
    var scale := resizeHeight / height;
    if scale * width < resizeWidth {
      scale := resizeWidth / width;
    }
    r := CutOverhang(k, scale, width, height, resizeWidth, resizeHeight);
  }

  method CutOverhang(k: Intrinsics, scale: real, width: real, height: real, resizeWidth: real, resizeHeight: real)
    returns (r: Intrinsics)
    requires (scale * width == resizeWidth && scale * height >= resizeHeight)
             || (scale * height == resizeHeight && scale * width >= resizeWidth)
    ensures r == Mapped(CentredMap(scale, scale, width, height, resizeWidth, resizeHeight), k)
  {
    ShiftedIsCentred(k, scale, width, height, resizeWidth, resizeHeight);
    hide *;
    r := ScaleRows(k, scale, scale);
    if scale * height > resizeHeight {
      r := r.(m12 := r.m12 - (height * scale - resizeHeight) / 2.0);
    } else if scale * width > resizeWidth {
      r := r.(m02 := r.m02 - (width * scale - resizeWidth) / 2.0);
    }
  }

  lemma StretchNeedsNoMove(k: Intrinsics, width: real, height: real, resizeWidth: real, resizeHeight: real)
    requires width > 0.0 && height > 0.0
    ensures Mapped(CentredMap(resizeWidth / width, resizeHeight / height, width, height, resizeWidth, resizeHeight), k)
            == ScaleRows(k, resizeWidth / width, resizeHeight / height)
  {
    RatiosCompare(resizeWidth, width, 0.0, 1.0);
    RatiosCompare(resizeHeight, height, 0.0, 1.0);
  }

  /** The rescaling part of `getCameraIntrinsics`: in every branch the new matrix
      is the old one seen through a map that keeps the centre of the image. If the
      aspect ratio is kept the scale is that of the width for a letterbox, else
      the larger one, so that the target is covered. */
  method Rescale(k: Intrinsics, width: real, height: real, resizeWidth: real, resizeHeight: real, keepAspectRatio: bool)
    returns (r: Intrinsics)
    requires width > 0.0 && height > 0.0 && resizeWidth > 0.0 && resizeHeight > 0.0
    ensures keepAspectRatio ==>
              var byWidth, byHeight := resizeWidth / width, resizeHeight / height;
              var letterboxed := resizeWidth / resizeHeight <= 1.34 && 1.5 < width / height <= 1.778;
              var s := if letterboxed || byHeight <= byWidth then byWidth else byHeight;
              r == Mapped(CentredMap(s, s, width, height, resizeWidth, resizeHeight), k)
    ensures !keepAspectRatio ==>
              r == Mapped(CentredMap(resizeWidth / width, resizeHeight / height, width, height, resizeWidth,
                  resizeHeight), k)
  {
    hide Mapped, CentredMap, ScaleRows;
    if keepAspectRatio {
      var originalRatio := width / height;
      var resizeRatio := resizeWidth / resizeHeight;
      if resizeRatio <= 1.34 && originalRatio <= 1.778 && originalRatio > 1.5 {
        r := FitIntoTarget(k, width, height, resizeWidth, resizeHeight);
      } else {
        r := CoverTarget(k, width, height, resizeWidth, resizeHeight);
      }
    } else {
      StretchNeedsNoMove(k, width, height, resizeWidth, resizeHeight);
      r := ScaleRows(k, resizeWidth / width, resizeHeight / height);
    }
  }
}
