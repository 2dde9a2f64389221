/** What the extrinsic transforms do to points: carrying a point from camera to
    camera with the rotation and translation of each link, without matrices. */
module ExtrinsicPoints {
  import opened Calibration
  import opened ExtrinsicGraph
  import opened Matrix

  /** A transform applied to a point. */
  function Place(m: Mat4, p: Point3f): Point3f {
    Point3f(m.r0.x * p.x + m.r0.y * p.y + m.r0.z * p.z + m.r0.w,
            m.r1.x * p.x + m.r1.y * p.y + m.r1.z * p.z + m.r1.w,
            m.r2.x * p.x + m.r2.y * p.y + m.r2.z * p.z + m.r2.w)
  }

  /** A point seen by a camera, as the camera it links to sees it: rotated, then moved. */
  function Across(x: Extrinsics, useSpec: bool, p: Point3f): Point3f
    requires x.rotationMatrix.Some?
  {
    var r, t := x.rotationMatrix.value, if useSpec then x.specTranslation else x.translation;
    Point3f(r.r0.x * p.x + r.r0.y * p.y + r.r0.z * p.z + t.x,
            r.r1.x * p.x + r.r1.y * p.y + r.r1.z * p.z + t.y,
            r.r2.x * p.x + r.r2.y * p.y + r.r2.z * p.z + t.z)
  }

  /** The point carried along a chain, camera by camera, to its origin. */
  function Carried(e: EepromData, chain: seq<Socket>, useSpec: bool, p: Point3f): Point3f
    requires LinkedCameras(e, chain) && Usable(e, chain, useSpec)
  {
    if |chain| <= 1 then p else Carried(e, chain[1..], useSpec, Across(e.cameraData[chain[0]], useSpec, p))
  }

  /** The fourth row of a column vector with a one at its end stays a one. */
  function Homogeneous(p: Point3f): Row { Row(p.x, p.y, p.z, 1.0) }

  function Dot(a: Row, b: Row): real { a.x * b.x + a.y * b.y + a.z * b.z + a.w * b.w }

  lemma DotAdds(a: Row, b: Row, v: Row)
    ensures Dot(Add(a, b), v) == Dot(a, v) + Dot(b, v)
  {
  }

  lemma DotScaled(s: real, a: Row, v: Row)
    ensures Dot(Scale(s, a), v) == s * Dot(a, v)
  {
  }

  /** A row times a product is the row times the second factor's image. */
  lemma RowMulDots(u: Row, m: Mat4, v: Row)
    ensures Dot(RowMul(u, m), v) == u.x * Dot(m.r0, v) + u.y * Dot(m.r1, v) + u.z * Dot(m.r2, v) + u.w * Dot(m.r3, v)
  {
    hide Dot, Add, Scale;
    var x, y, z, w := Scale(u.x, m.r0), Scale(u.y, m.r1), Scale(u.z, m.r2), Scale(u.w, m.r3);
    DotAdds(Add(x, y), Add(z, w), v);
    DotAdds(x, y, v);
    DotAdds(z, w, v);
    DotScaled(u.x, m.r0, v);
    DotScaled(u.y, m.r1, v);
    DotScaled(u.z, m.r2, v);
    DotScaled(u.w, m.r3, v);
  }

  lemma PlaceDots(m: Mat4, p: Point3f)
    ensures Place(m, p) == Point3f(Dot(m.r0, Homogeneous(p)), Dot(m.r1, Homogeneous(p)), Dot(m.r2, Homogeneous(p)))
  {
  }

  /** A product places a point as its factors do, the second one first. */
  lemma ProductPlaces(a: Mat4, b: Mat4, p: Point3f)
    requires b.r3 == HOMOGENEOUS
    ensures Place(MatMul(a, b), p) == Place(a, Place(b, p))
  {
    var v, q := Homogeneous(p), Place(b, p);
    PlaceDots(b, p);
    assert Dot(b.r3, v) == 1.0;
    RowPlaces(a.r0, b, p, q);
    RowPlaces(a.r1, b, p, q);
    RowPlaces(a.r2, b, p, q);
    PlaceDots(MatMul(a, b), p);
    PlaceDots(a, q);
    hide Dot, RowMul, Place;
  }

  lemma RowPlaces(u: Row, b: Mat4, p: Point3f, q: Point3f)
    requires b.r3 == HOMOGENEOUS && q == Place(b, p)
    ensures Dot(RowMul(u, b), Homogeneous(p)) == Dot(u, Homogeneous(q))
  {
    PlaceDots(b, p);
    RowMulDots(u, b, Homogeneous(p));
    assert Dot(b.r3, Homogeneous(p)) == 1.0;
    hide RowMul, Place;
  }

  lemma IdentityPlaces(p: Point3f)
    ensures Place(IDENTITY, p) == p
  {
  }

  lemma StoredPlaces(x: Extrinsics, useSpec: bool, p: Point3f)
    requires x.rotationMatrix.Some?
    ensures Place(Stored(x, useSpec), p) == Across(x, useSpec, p) && Stored(x, useSpec).r3 == HOMOGENEOUS
  {
  }

  /** The product along a chain carries every point camera by camera. */
  lemma {:induction false} ChainCarries(e: EepromData, chain: seq<Socket>, useSpec: bool, p: Point3f)
    requires LinkedCameras(e, chain) && Usable(e, chain, useSpec)
    ensures Place(ChainProduct(e, chain, useSpec), p) == Carried(e, chain, useSpec, p)
  {
    hide Place, Across, MatMul, Stored;
    if |chain| > 1 {
      var x := e.cameraData[chain[0]];
      StoredPlaces(x, useSpec, p);
      ProductPlaces(ChainProduct(e, chain[1..], useSpec), Stored(x, useSpec), p);
      ChainCarries(e, chain[1..], useSpec, Across(x, useSpec, p));
    } else {
      IdentityPlaces(p);
    }
  }

  /** The transform between two cameras takes a point to where both chains carry
      it to the same place in front of the shared origin. */
  lemma ExtrinsicsCarryPoints(e: EepromData, a: seq<Socket>, b: seq<Socket>, useSpec: bool, p: Point3f)
    requires RotationsPresent(e) && RigidLinks(e, useSpec)
    requires ChainToOrigin(LinksOf(e), a) && ChainToOrigin(LinksOf(e), b)
    requires CameraExtrinsics(e, a[0], b[0], useSpec, CENTIMETER).Ok?
    ensures LinkedCameras(e, a) && Usable(e, a, useSpec) && LinkedCameras(e, b) && Usable(e, b, useSpec)
    ensures Carried(e, b, useSpec, Place(CameraExtrinsics(e, a[0], b[0], useSpec, CENTIMETER).value, p))
            == Carried(e, a, useSpec, p)
  {
    hide *;
    StartIsCamera(e, a);
    StartIsCamera(e, b);
    var m := CameraExtrinsics(e, a[0], b[0], useSpec, CENTIMETER).value;
    NoChainNoExtrinsics(e, a[0], b[0], useSpec, CENTIMETER);
    OkWhen(e, a[0], b[0], useSpec, CENTIMETER);
    ToOriginIsChainProduct(e, a[0], a, useSpec);
    ToOriginIsChainProduct(e, b[0], b, useSpec);
    OriginIsUsable(e, a, useSpec);
    OriginIsUsable(e, b, useSpec);
    var A, B := ChainProduct(e, a, useSpec), ChainProduct(e, b, useSpec);
    ThroughOrigin(e, a[0], b[0], useSpec, CENTIMETER);
    ExtrinsicsAreRigid(e, a[0], b[0], useSpec, CENTIMETER);
    RigidLastRow(m);
    UnitsHold();
    ScaledByOne(MatMul(InvertSe3(B), A));
    MatMulAssociates(B, InvertSe3(B), A);
    InverseOnTheRight(B);
    IdentityIsNeutral(A);
    ProductPlaces(B, m, p);
    ChainCarries(e, a, useSpec, p);
    ChainCarries(e, b, useSpec, Place(m, p));
  }

  /** So does the IMU's: across its own link first. */
  lemma ImuCarriesPoints(e: EepromData, a: seq<Socket>, b: seq<Socket>, useSpec: bool, p: Point3f)
    requires RotationsPresent(e) && RigidLinks(e, useSpec)
    requires ChainToOrigin(LinksOf(e), a) && ChainToOrigin(LinksOf(e), b)
    requires e.imuExtrinsics.rotationMatrix.Some? && e.imuExtrinsics.toCameraSocket == a[0]
    requires CameraExtrinsics(e, a[0], b[0], useSpec, CENTIMETER).Ok?
    ensures LinkedCameras(e, a) && Usable(e, a, useSpec) && LinkedCameras(e, b) && Usable(e, b, useSpec)
    ensures ImuToCameraExtrinsics(e, b[0], useSpec, CENTIMETER).Ok?
    ensures Carried(e, b, useSpec, Place(ImuToCameraExtrinsics(e, b[0], useSpec, CENTIMETER).value, p))
            == Carried(e, a, useSpec, Across(e.imuExtrinsics, useSpec, p))
  {
    hide *;
    StartIsCamera(e, a);
    StartIsCamera(e, b);
    var imu := Stored(e.imuExtrinsics, useSpec);
    var m := CameraExtrinsics(e, a[0], b[0], useSpec, CENTIMETER).value;
    NoChainNoExtrinsics(e, a[0], b[0], useSpec, CENTIMETER);
    ImuFormula(e, b[0], useSpec, CENTIMETER);
    UnitsHold();
    ScaledByOne(MatMul(m, imu));
    StoredPlaces(e.imuExtrinsics, useSpec, p);
    ProductPlaces(m, imu, p);
    ExtrinsicsCarryPoints(e, a, b, useSpec, Across(e.imuExtrinsics, useSpec, p));
  }
}
