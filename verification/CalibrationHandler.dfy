/** Extrinsic calibration: transforms between cameras and the IMU, composed
    along the links of the calibration data, and the validation of those links. */
module Calibration {
  import opened ExtrinsicGraph
  import opened Matrix
  import opened Optional

  // ----- calibration data -----

  datatype Point3f = Point3f(x: real, y: real, z: real)

  datatype Rotation = Rotation(r0: Point3f, r1: Point3f, r2: Point3f)

  datatype Extrinsics = Extrinsics(
    rotationMatrix: Option<Rotation>, translation: Point3f, specTranslation: Point3f, toCameraSocket: Socket)

  datatype EepromData = EepromData(version: int, cameraData: map<Socket, Extrinsics>, imuExtrinsics: Extrinsics)

  function LinksOf(e: EepromData): Links {
    map c | c in e.cameraData :: e.cameraData[c].toCameraSocket
  }

  /** A camera whose link is followed by another one has its rotation: without it
      the source reads past the end of a matrix. On the last link before an
      origin a missing rotation is an exception. */
  predicate RotationsPresent(e: EepromData) {
    forall c | c in e.cameraData && LinksOn(e, e.cameraData[c].toCameraSocket) :: e.cameraData[c].rotationMatrix.Some?
  }

  predicate LinksOn(e: EepromData, c: Socket) {
    c != AUTO && c in e.cameraData && e.cameraData[c].toCameraSocket != AUTO
  }

  predicate HasCameraCalibration(e: EepromData, c: Socket) {
    e.version >= 4 && e.cameraData != map[] && c in e.cameraData
  }

  datatype Result<+T> = Ok(value: T) | Throws

  // ----- length units -----

  datatype LengthUnit = METER | CENTIMETER | MILLIMETER | INCH | FOOT | CUSTOM

  function Multiplier(unit: LengthUnit): real {
    match unit
    case METER => 1.0
    case CENTIMETER => 100.0
    case MILLIMETER => 1000.0
    case INCH => 39.3701
    case FOOT => 3.28084
    case CUSTOM => 1.0
  }

  /** Translations are stored in centimetres. */
  function UnitScale(unit: LengthUnit): real { Multiplier(unit) / Multiplier(CENTIMETER) }

  function InUnit(m: Mat4, unit: LengthUnit): Mat4 {
    if UnitScale(unit) == 1.0 then m else ScaleTranslation(m, UnitScale(unit))
  }

  lemma InUnitScales(m: Mat4, unit: LengthUnit)
    ensures InUnit(m, unit) == ScaleTranslation(m, UnitScale(unit))
  {
  }

  lemma CentimetresAreStored(m: Mat4)
    ensures InUnit(m, CENTIMETER) == m
  {
  }

  // ----- transforms along the links -----

  /** The transform that `x` stores: its rotation next to one of its translations. */
  function Stored(x: Extrinsics, useSpec: bool): Mat4
    requires x.rotationMatrix.Some?
  {
    var r, t := x.rotationMatrix.value, if useSpec then x.specTranslation else x.translation;
    Mat4(Row(r.r0.x, r.r0.y, r.r0.z, t.x), Row(r.r1.x, r.r1.y, r.r1.z, t.y), Row(r.r2.x, r.r2.y, r.r2.z, t.z),
        HOMOGENEOUS)
  }

  predicate NoSpecTranslation(x: Extrinsics) { x.specTranslation == Point3f(0.0, 0.0, 0.0) }

  /** The transform from `src` to `dst`, where the links lead. `seen` holds the
      cameras the recursion came through: meeting one again, the recursion of
      the source would not end. */
  function ComputeExtrinsicMatrix(e: EepromData, src: Socket, dst: Socket, useSpec: bool,
      seen: set<Socket>)
    : (r: Result<Mat4>)
    requires RotationsPresent(e)
    ensures r.Ok? ==> LinksOn(e, src)
    decreases e.cameraData.Keys - seen
  {
    if src == AUTO || dst == AUTO then Throws
    else if !HasCameraCalibration(e, src) then Throws
    else if !HasCameraCalibration(e, dst) then Throws
    else if src in seen then Throws
    else
      var x := e.cameraData[src];
      if x.toCameraSocket == dst then
        if x.rotationMatrix.None? || (useSpec && NoSpecTranslation(x)) then Throws else Ok(Stored(x, useSpec))
      else
        var rest := ComputeExtrinsicMatrix(e, x.toCameraSocket, dst, useSpec, seen + {src});
        if rest.Throws? then Throws
        else
          assert LinksOn(e, x.toCameraSocket);
          if useSpec && NoSpecTranslation(x) then Throws else Ok(MatMul(rest.value, Stored(x, useSpec)))
  }

  /** The transform to the origin of `c`, and that origin. */
  function ExtrinsicsToOrigin(e: EepromData, c: Socket, useSpec: bool): Result<(Mat4, Socket)>
    requires RotationsPresent(e)
  {
    if c !in e.cameraData || c == AUTO then Throws
    else match Follow(LinksOf(e), c, {})
      case Cycle(_) => Throws
      case Dangling(_, _) => Throws
      case Origin(origin) =>
        if c == origin then Ok((IDENTITY, origin))
        else match ComputeExtrinsicMatrix(e, c, origin, useSpec, {})
          case Throws => Throws
          case Ok(m) => Ok((m, origin))
  }

  function CameraExtrinsics(e: EepromData, src: Socket, dst: Socket, useSpec: bool, unit: LengthUnit): Result<Mat4>
    requires RotationsPresent(e)
  {
    if !HasCameraCalibration(e, src) || !HasCameraCalibration(e, dst) then Throws
    else match (ExtrinsicsToOrigin(e, src, useSpec), ExtrinsicsToOrigin(e, dst, useSpec))
      case (Ok(s), Ok(d)) =>
        if s.1 != d.1 then Throws else Ok(InUnit(MatMul(InvertSe3(d.0), s.0), unit))
      case _ => Throws
  }

  // ----- what the recursion computes -----

  /** All of `p` but its last element are cameras that link to another one. */
  predicate LinkedCameras(e: EepromData, p: seq<Socket>) {
    |p| <= 1 || (p[0] in e.cameraData && e.cameraData[p[0]].toCameraSocket != AUTO && LinkedCameras(e, p[1..]))
  }

  /** The product of the stored transforms along a chain, without that of the
      origin it ends in. */
  function ChainProduct(e: EepromData, p: seq<Socket>, useSpec: bool): Mat4
    requires LinkedCameras(e, p) && Usable(e, p, useSpec)
  {
    if |p| <= 1 then IDENTITY
    else MatMul(ChainProduct(e, p[1..], useSpec), Stored(e.cameraData[p[0]], useSpec))
  }

  /** No camera on the chain but the origin lacks its rotation or the translation
      asked for. */
  predicate Usable(e: EepromData, p: seq<Socket>, useSpec: bool)
    requires LinkedCameras(e, p)
  {
    |p| <= 1
    || (e.cameraData[p[0]].rotationMatrix.Some? && (useSpec ==> !NoSpecTranslation(e.cameraData[p[0]]))
        && Usable(e, p[1..], useSpec))
  }

  lemma {:induction false} UsableMeans(e: EepromData, p: seq<Socket>, useSpec: bool)
    requires LinkedCameras(e, p)
    ensures forall k | 0 <= k < |p| - 1 :: p[k] in e.cameraData
    ensures Usable(e, p, useSpec) <==> forall k | 0 <= k < |p| - 1 ::
              && e.cameraData[p[k]].rotationMatrix.Some?
              && (useSpec ==> e.cameraData[p[k]].specTranslation != Point3f(0.0, 0.0, 0.0))
  {
    if |p| > 1 {
      UsableMeans(e, p[1..], useSpec);
      assert forall k | 1 <= k < |p| - 1 :: p[k] == p[1..][k - 1];
      assert forall k | 0 <= k < |p| - 2 :: p[1..][k] == p[k + 1];
    }
  }

  lemma {:induction false} ChainIsLinked(e: EepromData, p: seq<Socket>)
    requires Chain(LinksOf(e), p)
    ensures LinkedCameras(e, p)
  {
    if |p| > 1 {
      ChainIsLinked(e, p[1..]);
    }
  }

  /** The elements of `p` are distinct and not in `seen`. */
  predicate NoRepeat(p: seq<Socket>, seen: set<Socket>) {
    p == [] || (p[0] !in seen && NoRepeat(p[1..], seen + {p[0]}))
  }

  lemma {:induction false} NoRepeatEnd(p: seq<Socket>, seen: set<Socket>)
    requires NoRepeat(p, seen) && p != []
    ensures p[|p| - 1] !in seen && (|p| > 1 ==> p[0] != p[|p| - 1])
  {
    if |p| > 1 {
      NoRepeatEnd(p[1..], seen + {p[0]});
    }
  }

  lemma {:induction false} DistinctIsNoRepeat(p: seq<Socket>, seen: set<Socket>)
    requires forall j, k | 0 <= j < k < |p| :: p[j] != p[k]
    requires forall k | 0 <= k < |p| :: p[k] !in seen
    ensures NoRepeat(p, seen)
  {
    if p != [] {
      DistinctIsNoRepeat(p[1..], seen + {p[0]});
    }
  }

  lemma {:induction false} RecursionIsChainProduct(e: EepromData, p: seq<Socket>, useSpec: bool, seen: set<Socket>)
    requires RotationsPresent(e) && ChainToOrigin(LinksOf(e), p) && |p| > 1 && p[0] != AUTO
    requires NoRepeat(p, seen)
    ensures LinkedCameras(e, p)
    ensures ComputeExtrinsicMatrix(e, p[0], p[|p| - 1], useSpec, seen)
            == if e.version >= 4 && Usable(e, p, useSpec) then Ok(ChainProduct(e, p, useSpec)) else Throws
  {
    ChainIsLinked(e, p);
    ChainFacts(e, p);
    hide *;
    if |p| == 2 {
      RecursionEnds(e, p, useSpec, seen);
    } else {
      NoRepeatEnd(p[1..], seen + {p[0]});
      NoRepeatTail(p, seen);
      RecursionIsChainProduct(e, p[1..], useSpec, seen + {p[0]});
      RecursionGoesOn(e, p, useSpec, seen);
    }
  }

  lemma NoRepeatTail(p: seq<Socket>, seen: set<Socket>)
    requires NoRepeat(p, seen) && p != []
    ensures p[0] !in seen && NoRepeat(p[1..], seen + {p[0]})
  {
  }

  lemma RecursionEnds(e: EepromData, p: seq<Socket>, useSpec: bool, seen: set<Socket>)
    requires RotationsPresent(e) && LinkedCameras(e, p) && |p| == 2 && NoRepeat(p, seen)
    requires p[0] in e.cameraData && p[1] in e.cameraData && p[0] != AUTO && p[1] != AUTO
    requires e.cameraData[p[0]].toCameraSocket == p[1]
    ensures ComputeExtrinsicMatrix(e, p[0], p[1], useSpec, seen)
            == if e.version >= 4 && Usable(e, p, useSpec) then Ok(ChainProduct(e, p, useSpec)) else Throws
  {
    hide MatMul, Stored, NoSpecTranslation;
    if e.cameraData[p[0]].rotationMatrix.Some? {
      IdentityIsNeutral(Stored(e.cameraData[p[0]], useSpec));
    }
  }

  lemma RecursionGoesOn(e: EepromData, p: seq<Socket>, useSpec: bool, seen: set<Socket>)
    requires RotationsPresent(e) && LinkedCameras(e, p) && |p| > 2 && p[0] !in seen && p[1] != p[|p| - 1]
    requires p[0] in e.cameraData && p[|p| - 1] in e.cameraData && p[0] != AUTO && p[|p| - 1] != AUTO
    requires e.cameraData[p[0]].toCameraSocket == p[1]
    requires LinkedCameras(e, p[1..])
    requires ComputeExtrinsicMatrix(e, p[1], p[|p| - 1], useSpec, seen + {p[0]})
             == if e.version >= 4 && Usable(e, p[1..], useSpec) then Ok(ChainProduct(e, p[1..], useSpec)) else Throws
    ensures ComputeExtrinsicMatrix(e, p[0], p[|p| - 1], useSpec, seen)
            == if e.version >= 4 && Usable(e, p, useSpec) then Ok(ChainProduct(e, p, useSpec)) else Throws
  {
    hide MatMul, Stored, NoSpecTranslation;
  }

  lemma ChainFacts(e: EepromData, p: seq<Socket>)
    requires ChainToOrigin(LinksOf(e), p) && |p| > 1
    ensures p[0] in e.cameraData && e.cameraData[p[0]].toCameraSocket == p[1] != AUTO
    ensures p[|p| - 1] in e.cameraData && p[|p| - 1] != AUTO && ChainToOrigin(LinksOf(e), p[1..])
    ensures LinkedCameras(e, p[1..]) && (|p| > 2 ==> p[1..][|p| - 2] == p[|p| - 1])
  {
    ChainIsLinked(e, p);
    ChainPrefix(LinksOf(e), p, |p| - 1);
  }

  /** The transform to the origin exists exactly when a chain leads there along
      usable links, and then it is the product along that chain. */
  lemma ToOriginIsChainProduct(e: EepromData, c: Socket, p: seq<Socket>, useSpec: bool)
    requires RotationsPresent(e) && ChainToOrigin(LinksOf(e), p) && p[0] == c != AUTO
    ensures LinkedCameras(e, p)
    ensures ExtrinsicsToOrigin(e, c, useSpec)
            == if |p| == 1 || (e.version >= 4 && Usable(e, p, useSpec))
                then Ok((ChainProduct(e, p, useSpec), p[|p| - 1])) else Throws
  {
    ChainIsLinked(e, p);
    ChainIsSimple(LinksOf(e), p);
    FollowChain(LinksOf(e), p, {});
    if |p| > 1 {
      DistinctIsNoRepeat(p, {});
      RecursionIsChainProduct(e, p, useSpec, {});
      assert p[0] != p[|p| - 1];
    }
  }

  lemma TransformHasChain(e: EepromData, c: Socket, useSpec: bool) returns (p: seq<Socket>)
    requires RotationsPresent(e) && ExtrinsicsToOrigin(e, c, useSpec).Ok?
    ensures ChainToOrigin(LinksOf(e), p) && p[0] == c != AUTO
  {
    FollowFindsOrigin(LinksOf(e), c, Follow(LinksOf(e), c, {}).socket);
    p :| ChainToOrigin(LinksOf(e), p) && p[0] == c;
  }

  /** Two cameras whose chains reach origins have a transform between them
      exactly when the data is recent enough, the origins are the same, and no
      link on the way lacks the translation asked for. */
  lemma ExtrinsicsExistExactly(
    e: EepromData, p: seq<Socket>, q: seq<Socket>, useSpec: bool, unit: LengthUnit)
    requires RotationsPresent(e) && ChainToOrigin(LinksOf(e), p) && ChainToOrigin(LinksOf(e), q)
    requires p[0] != AUTO && q[0] != AUTO
    ensures forall k | 0 <= k < |p| - 1 :: p[k] in e.cameraData
    ensures forall k | 0 <= k < |q| - 1 :: q[k] in e.cameraData
    ensures CameraExtrinsics(e, p[0], q[0], useSpec, unit).Ok? <==>
              && e.version >= 4 && p[|p| - 1] == q[|q| - 1]
              && (forall k | 0 <= k < |p| - 1 ::
                    && e.cameraData[p[k]].rotationMatrix.Some?
                    && (useSpec ==> e.cameraData[p[k]].specTranslation != Point3f(0.0, 0.0, 0.0)))
              && (forall k | 0 <= k < |q| - 1 ::
                    && e.cameraData[q[k]].rotationMatrix.Some?
                    && (useSpec ==> e.cameraData[q[k]].specTranslation != Point3f(0.0, 0.0, 0.0)))
  {
    ChainIsLinked(e, p);
    ChainIsLinked(e, q);
    UsableMeans(e, p, useSpec);
    UsableMeans(e, q, useSpec);
    hide *;
    StartIsCamera(e, p);
    StartIsCamera(e, q);
    ToOriginIsChainProduct(e, p[0], p, useSpec);
    ToOriginIsChainProduct(e, q[0], q, useSpec);
    OriginIsUsable(e, p, useSpec);
    OriginIsUsable(e, q, useSpec);
    OkWhen(e, p[0], q[0], useSpec, unit);
  }

  /** When there is a transform between two cameras, by its definition. */
  lemma OkWhen(e: EepromData, a: Socket, b: Socket, useSpec: bool, unit: LengthUnit)
    requires RotationsPresent(e)
    ensures CameraExtrinsics(e, a, b, useSpec, unit).Ok? <==>
              && e.version >= 4 && a in e.cameraData && b in e.cameraData
              && ExtrinsicsToOrigin(e, a, useSpec).Ok? && ExtrinsicsToOrigin(e, b, useSpec).Ok?
              && ExtrinsicsToOrigin(e, a, useSpec).value.1 == ExtrinsicsToOrigin(e, b, useSpec).value.1
  {
    hide MatMul, InvertSe3, InUnit, ExtrinsicsToOrigin, RotationsPresent;
  }

  lemma StartIsCamera(e: EepromData, p: seq<Socket>)
    requires ChainToOrigin(LinksOf(e), p)
    ensures p != [] && p[0] in e.cameraData
  {
  }

  lemma OriginIsUsable(e: EepromData, p: seq<Socket>, useSpec: bool)
    requires LinkedCameras(e, p)
    ensures |p| <= 1 ==> Usable(e, p, useSpec)
  {
  }

  /** Without such a chain on either side there is none. */
  lemma NoChainNoExtrinsics(e: EepromData, a: Socket, b: Socket, useSpec: bool, unit: LengthUnit)
    requires RotationsPresent(e) && CameraExtrinsics(e, a, b, useSpec, unit).Ok?
    ensures a != AUTO && exists p :: ChainToOrigin(LinksOf(e), p) && p[0] == a
    ensures b != AUTO && exists q :: ChainToOrigin(LinksOf(e), q) && q[0] == b
  {
    var p := TransformHasChain(e, a, useSpec);
    var q := TransformHasChain(e, b, useSpec);
  }

  // ----- rigid transforms compose -----

  /** The stored rotations are orthonormal. */
  predicate RigidLinks(e: EepromData, useSpec: bool) {
    forall c | c in e.cameraData && e.cameraData[c].toCameraSocket != AUTO && e.cameraData[c].rotationMatrix.Some? ::
      Rigid(Stored(e.cameraData[c], useSpec))
  }

  lemma {:induction false} ChainProductIsRigid(e: EepromData, p: seq<Socket>, useSpec: bool)
    requires RigidLinks(e, useSpec) && LinkedCameras(e, p) && Usable(e, p, useSpec)
    ensures Rigid(ChainProduct(e, p, useSpec))
  {
    hide Rigid, MatMul, Stored;
    if |p| > 1 {
      ChainProductIsRigid(e, p[1..], useSpec);
      ProductIsRigid(ChainProduct(e, p[1..], useSpec), Stored(e.cameraData[p[0]], useSpec));
    } else {
      IdentityIsRigid();
    }
  }

  lemma IdentityIsRigid()
    ensures Rigid(IDENTITY)
  {
  }

  lemma ToOriginIsRigid(e: EepromData, c: Socket, useSpec: bool)
    requires RotationsPresent(e) && RigidLinks(e, useSpec) && ExtrinsicsToOrigin(e, c, useSpec).Ok?
    ensures Rigid(ExtrinsicsToOrigin(e, c, useSpec).value.0)
  {
    hide Rigid, MatMul, Stored;
    var p := TransformHasChain(e, c, useSpec);
    ToOriginIsChainProduct(e, c, p, useSpec);
    ChainProductIsRigid(e, p, useSpec);
  }

  /** The transform between two cameras is that of one to the origin followed by
      the inverse of that of the other. */
  lemma ThroughOrigin(e: EepromData, a: Socket, b: Socket, useSpec: bool, unit: LengthUnit)
    requires RotationsPresent(e) && RigidLinks(e, useSpec) && CameraExtrinsics(e, a, b, useSpec, unit).Ok?
    ensures ExtrinsicsToOrigin(e, a, useSpec).Ok? && ExtrinsicsToOrigin(e, b, useSpec).Ok?
    ensures var (oa, ob) := (ExtrinsicsToOrigin(e, a, useSpec).value, ExtrinsicsToOrigin(e, b, useSpec).value);
            && Rigid(oa.0) && Rigid(ob.0) && oa.1 == ob.1
            && CameraExtrinsics(e, a, b, useSpec, unit).value == ScaleTranslation(MatMul(InvertSe3(ob.0), oa.0),
                UnitScale(unit))
  {
    hide Rigid, MatMul, InvertSe3, InUnit, ScaleTranslation;
    ToOriginIsRigid(e, a, useSpec);
    ToOriginIsRigid(e, b, useSpec);
    InUnitScales(MatMul(InvertSe3(ExtrinsicsToOrigin(e, b, useSpec).value.0),
        ExtrinsicsToOrigin(e, a, useSpec).value.0), unit);
  }

  /** E(b, c) E(a, b) == E(a, c), in every unit. */
  lemma ExtrinsicsCompose(e: EepromData, a: Socket, b: Socket, c: Socket, useSpec: bool, unit: LengthUnit)
    requires RotationsPresent(e) && RigidLinks(e, useSpec)
    requires CameraExtrinsics(e, a, b, useSpec, unit).Ok? && CameraExtrinsics(e, b, c, useSpec, unit).Ok?
    ensures CameraExtrinsics(e, a, c, useSpec, unit)
            == Ok(MatMul(CameraExtrinsics(e, b, c, useSpec, unit).value,
                CameraExtrinsics(e, a, b, useSpec, unit).value))
  {
    hide Rigid, MatMul, InvertSe3, InUnit, ScaleTranslation;
    ThroughOrigin(e, a, b, useSpec, unit);
    ThroughOrigin(e, b, c, useSpec, unit);
    ThroughOrigin(e, a, c, useSpec, unit);
    var A, B, C := ExtrinsicsToOrigin(e, a, useSpec).value.0, ExtrinsicsToOrigin(e, b, useSpec).value.0,
                   ExtrinsicsToOrigin(e, c, useSpec).value.0;
    InverseCancelsInside(A, B, C);
    InverseIsRigid(B);
    InverseIsRigid(C);
    LastRow(MatMul(InvertSe3(C), B), InvertSe3(C), B);
    LastRow(MatMul(InvertSe3(B), A), InvertSe3(B), A);
    ScalingIsMultiplicative(MatMul(InvertSe3(C), B), MatMul(InvertSe3(B), A), UnitScale(unit));
  }

  lemma LastRow(m: Mat4, a: Mat4, b: Mat4)
    requires m == MatMul(a, b) && Rigid(a) && Rigid(b)
    ensures m.r3 == HOMOGENEOUS && Rigid(m)
  {
    hide MatMul;
    ProductIsRigid(a, b);
  }

  lemma InverseCancelsInside(a: Mat4, b: Mat4, c: Mat4)
    requires Rigid(b)
    ensures MatMul(MatMul(InvertSe3(c), b), MatMul(InvertSe3(b), a)) == MatMul(InvertSe3(c), a)
  {
    hide Rigid, MatMul, InvertSe3;
    MatMulAssociates(InvertSe3(c), b, MatMul(InvertSe3(b), a));
    MatMulAssociates(b, InvertSe3(b), a);
    InverseOnTheRight(b);
    IdentityIsNeutral(a);
  }

  lemma ExtrinsicsToItself(e: EepromData, a: Socket, useSpec: bool, unit: LengthUnit)
    requires RotationsPresent(e) && RigidLinks(e, useSpec) && CameraExtrinsics(e, a, a, useSpec, unit).Ok?
    ensures CameraExtrinsics(e, a, a, useSpec, unit) == Ok(IDENTITY)
  {
    hide Rigid, MatMul, InvertSe3, InUnit, ScaleTranslation;
    ThroughOrigin(e, a, a, useSpec, unit);
    InverseOnTheLeft(ExtrinsicsToOrigin(e, a, useSpec).value.0);
    IdentityIsRigid();
    ScalingKeepsRigid(IDENTITY, UnitScale(unit));
  }

  /** The transform the other way exists too; it is the inverse. */
  lemma ExtrinsicsInvert(e: EepromData, a: Socket, b: Socket, useSpec: bool, unit: LengthUnit)
    requires RotationsPresent(e) && RigidLinks(e, useSpec) && CameraExtrinsics(e, a, b, useSpec, unit).Ok?
    ensures CameraExtrinsics(e, b, a, useSpec, unit) == Ok(InvertSe3(CameraExtrinsics(e, a, b, useSpec, unit).value))
    ensures Rigid(CameraExtrinsics(e, a, b, useSpec, unit).value)
  {
    hide *;
    ExtrinsicsAreRigid(e, a, b, useSpec, unit);
    OkWhen(e, a, b, useSpec, unit);
    OkWhen(e, b, a, useSpec, unit);
    OkWhen(e, a, a, useSpec, unit);
    ExtrinsicsCompose(e, a, b, a, useSpec, unit);
    ExtrinsicsToItself(e, a, useSpec, unit);
    InverseIsUnique(CameraExtrinsics(e, a, b, useSpec, unit).value, CameraExtrinsics(e, b, a, useSpec, unit).value);
  }

  lemma ExtrinsicsAreRigid(e: EepromData, a: Socket, b: Socket, useSpec: bool, unit: LengthUnit)
    requires RotationsPresent(e) && RigidLinks(e, useSpec) && CameraExtrinsics(e, a, b, useSpec, unit).Ok?
    ensures Rigid(CameraExtrinsics(e, a, b, useSpec, unit).value)
  {
    hide Rigid, MatMul, InvertSe3, InUnit, ScaleTranslation;
    ThroughOrigin(e, a, b, useSpec, unit);
    var A, B := ExtrinsicsToOrigin(e, a, useSpec).value.0, ExtrinsicsToOrigin(e, b, useSpec).value.0;
    InverseIsRigid(B);
    ProductIsRigid(InvertSe3(B), A);
    ScalingKeepsRigid(MatMul(InvertSe3(B), A), UnitScale(unit));
  }

  /** The nine entries of the rotation and the three of the translation asked for. */
  lemma StoredEntries(x: Extrinsics, useSpec: bool, scale: real)
    requires x.rotationMatrix.Some?
    ensures var r, t := x.rotationMatrix.value, if useSpec then x.specTranslation else x.translation;
            var m := ScaleTranslation(Stored(x, useSpec), scale);
            && m.r0 == Row(r.r0.x, r.r0.y, r.r0.z, t.x * scale)
            && m.r1 == Row(r.r1.x, r.r1.y, r.r1.z, t.y * scale)
            && m.r2 == Row(r.r2.x, r.r2.y, r.r2.z, t.z * scale) && m.r3 == Row(0.0, 0.0, 0.0, 1.0)
  {
  }

  /** From a camera to the one it links to, the result is what was stored, for
      chains of any length. */
  lemma LinkGivesStoredTransform(e: EepromData, a: Socket, useSpec: bool, unit: LengthUnit)
    requires RotationsPresent(e) && RigidLinks(e, useSpec) && HasCameraCalibration(e, a)
    requires ExtrinsicsToOrigin(e, a, useSpec).Ok? && e.cameraData[a].toCameraSocket != AUTO
    ensures e.cameraData[a].rotationMatrix.Some?
    ensures CameraExtrinsics(e, a, e.cameraData[a].toCameraSocket, useSpec, unit)
            == Ok(ScaleTranslation(Stored(e.cameraData[a], useSpec), UnitScale(unit)))
    ensures var x := e.cameraData[a];
            var r, t := x.rotationMatrix.value, if useSpec then x.specTranslation else x.translation;
            var m := CameraExtrinsics(e, a, x.toCameraSocket, useSpec, unit);
            && m.Ok?
            && m.value.r0 == Row(r.r0.x, r.r0.y, r.r0.z, t.x * UnitScale(unit))
            && m.value.r1 == Row(r.r1.x, r.r1.y, r.r1.z, t.y * UnitScale(unit))
            && m.value.r2 == Row(r.r2.x, r.r2.y, r.r2.z, t.z * UnitScale(unit))
            && m.value.r3 == Row(0.0, 0.0, 0.0, 1.0)
  {
    hide Rigid, MatMul, InvertSe3, InUnit, ScaleTranslation, Stored, UnitScale;
    var p := TransformHasChain(e, a, useSpec);
    assert |p| > 1;
    ChainFacts(e, p);
    ToOriginIsChainProduct(e, a, p, useSpec);
    var b, q, L := e.cameraData[a].toCameraSocket, p[1..], Stored(e.cameraData[a], useSpec);
    ToOriginIsChainProduct(e, b, q, useSpec);
    assert q[|q| - 1] == p[|p| - 1];
    var B := ChainProduct(e, q, useSpec);
    assert ExtrinsicsToOrigin(e, a, useSpec).value.0 == MatMul(B, L);
    ThroughOrigin(e, a, b, useSpec, unit);
    MatMulAssociates(InvertSe3(B), B, L);
    InverseOnTheLeft(B);
    IdentityIsNeutral(L);
    StoredEntries(e.cameraData[a], useSpec, UnitScale(unit));
  }

  // ----- the IMU -----

  function ImuToCameraExtrinsics(e: EepromData, c: Socket, useSpec: bool, unit: LengthUnit): Result<Mat4>
    requires RotationsPresent(e)
  {
    var imu := e.imuExtrinsics;
    if imu.rotationMatrix.None? || imu.toCameraSocket == AUTO then Throws
    else if c !in e.cameraData then Throws
    else if imu.toCameraSocket == c then Ok(InUnit(Stored(imu, useSpec), unit))
    else match CameraExtrinsics(e, imu.toCameraSocket, c, useSpec, CENTIMETER)
      case Throws => Throws
      case Ok(m) => Ok(InUnit(MatMul(m, Stored(imu, useSpec)), unit))
  }

  function CameraToImuExtrinsics(e: EepromData, c: Socket, useSpec: bool, unit: LengthUnit): Result<Mat4>
    requires RotationsPresent(e)
  {
    match ImuToCameraExtrinsics(e, c, useSpec, unit)
    case Throws => Throws
    case Ok(m) => Ok(InvertSe3(m))
  }

  /** Where cameras are calibrated, one formula covers both branches. */
  lemma ImuFormula(e: EepromData, c: Socket, useSpec: bool, unit: LengthUnit)
    requires RotationsPresent(e) && RigidLinks(e, useSpec)
    requires e.imuExtrinsics.rotationMatrix.Some? && e.imuExtrinsics.toCameraSocket != AUTO
    requires CameraExtrinsics(e, e.imuExtrinsics.toCameraSocket, c, useSpec, CENTIMETER).Ok?
    ensures ImuToCameraExtrinsics(e, c, useSpec, unit)
            == Ok(ScaleTranslation(MatMul(CameraExtrinsics(e, e.imuExtrinsics.toCameraSocket, c, useSpec,
                CENTIMETER).value,
                                          Stored(e.imuExtrinsics, useSpec)), UnitScale(unit)))
  {
    hide Rigid, MatMul, InvertSe3, InUnit, ScaleTranslation, Stored, ExtrinsicsToOrigin;
    var home, imu := e.imuExtrinsics.toCameraSocket, Stored(e.imuExtrinsics, useSpec);
    var m := MatMul(CameraExtrinsics(e, home, c, useSpec, CENTIMETER).value, imu);
    InUnitScales(m, unit);
    if home == c {
      ExtrinsicsToItself(e, c, useSpec, CENTIMETER);
      IdentityIsNeutral(imu);
    }
  }

  /** To the camera it is calibrated against, the IMU's transform is the stored one,
      whether or not that camera has a calibration or an origin. */
  lemma ImuToItsCamera(e: EepromData, useSpec: bool, unit: LengthUnit)
    requires RotationsPresent(e) && e.imuExtrinsics.rotationMatrix.Some?
    requires e.imuExtrinsics.toCameraSocket != AUTO && e.imuExtrinsics.toCameraSocket in e.cameraData
    ensures var x := e.imuExtrinsics;
            var r, t := x.rotationMatrix.value, if useSpec then x.specTranslation else x.translation;
            var m := ImuToCameraExtrinsics(e, x.toCameraSocket, useSpec, unit);
            && m.Ok?
            && m.value.r0 == Row(r.r0.x, r.r0.y, r.r0.z, t.x * UnitScale(unit))
            && m.value.r1 == Row(r.r1.x, r.r1.y, r.r1.z, t.y * UnitScale(unit))
            && m.value.r2 == Row(r.r2.x, r.r2.y, r.r2.z, t.z * UnitScale(unit))
            && m.value.r3 == Row(0.0, 0.0, 0.0, 1.0)
  {
    hide ScaleTranslation, Stored, UnitScale, CameraExtrinsics, InUnit;
    InUnitScales(Stored(e.imuExtrinsics, useSpec), unit);
    StoredEntries(e.imuExtrinsics, useSpec, UnitScale(unit));
  }

  /** When the IMU has a transform to a camera. */
  lemma ImuExtrinsicsExistExactly(e: EepromData, c: Socket, useSpec: bool, unit: LengthUnit)
    requires RotationsPresent(e)
    ensures var imu := e.imuExtrinsics;
            ImuToCameraExtrinsics(e, c, useSpec, unit).Ok?
            <==> && imu.rotationMatrix.Some? && imu.toCameraSocket != AUTO && c in e.cameraData
                 && (imu.toCameraSocket == c || CameraExtrinsics(e, imu.toCameraSocket, c, useSpec, unit).Ok?)
  {
    hide MatMul, InvertSe3, InUnit, ExtrinsicsToOrigin, RotationsPresent, Stored, CameraExtrinsics;
    OkWhen(e, e.imuExtrinsics.toCameraSocket, c, useSpec, unit);
    OkWhen(e, e.imuExtrinsics.toCameraSocket, c, useSpec, CENTIMETER);
  }

  /** A transform in metres, with its translation taken as often as a metre holds
      the unit, is the transform in that unit. */
  lemma MetresInEveryUnit(e: EepromData, c: Socket, d: Socket, useSpec: bool)
    requires RotationsPresent(e) && CameraExtrinsics(e, c, d, useSpec, METER).Ok?
    ensures forall unit :: CameraExtrinsics(e, c, d, useSpec, unit).Ok?
    ensures var metres := CameraExtrinsics(e, c, d, useSpec, METER).value;
            && CameraExtrinsics(e, c, d, useSpec, CENTIMETER) == Ok(ScaleTranslation(metres, 100.0))
            && CameraExtrinsics(e, c, d, useSpec, MILLIMETER) == Ok(ScaleTranslation(metres, 1000.0))
            && CameraExtrinsics(e, c, d, useSpec, INCH) == Ok(ScaleTranslation(metres, 39.3701))
            && CameraExtrinsics(e, c, d, useSpec, FOOT) == Ok(ScaleTranslation(metres, 3.28084))
            && CameraExtrinsics(e, c, d, useSpec, CUSTOM) == Ok(metres)
  {
    UnitsHold();
    hide CameraExtrinsics, ScaleTranslation, UnitScale;
    forall unit ensures CameraExtrinsics(e, c, d, useSpec, unit).Ok? {
      OkWhen(e, c, d, useSpec, unit);
      OkWhen(e, c, d, useSpec, METER);
    }
    var cm := CameraExtrinsics(e, c, d, useSpec, CENTIMETER).value;
    UnitsAgree(e, c, d, useSpec, METER);
    forall unit
      ensures CameraExtrinsics(e, c, d, useSpec, unit)
              == Ok(ScaleTranslation(CameraExtrinsics(e, c, d, useSpec, METER).value, 100.0 * UnitScale(unit)))
    {
      UnitsAgree(e, c, d, useSpec, unit);
      ScaledTwice(cm, UnitScale(METER), 100.0 * UnitScale(unit));
      assert UnitScale(METER) * (100.0 * UnitScale(unit)) == UnitScale(unit);
    }
    ScaledByOne(CameraExtrinsics(e, c, d, useSpec, METER).value);
  }

  lemma UnitsHold()
    ensures UnitScale(METER) == 0.01 && UnitScale(CENTIMETER) == 1.0 && UnitScale(MILLIMETER) == 10.0
    ensures UnitScale(INCH) == 0.393701 && UnitScale(FOOT) == 0.0328084 && UnitScale(CUSTOM) == 0.01
  {
  }

  lemma ScaledTwice(m: Mat4, s: real, t: real)
    ensures ScaleTranslation(ScaleTranslation(m, s), t) == ScaleTranslation(m, s * t)
  {
  }

  lemma ScaledByOne(m: Mat4)
    ensures ScaleTranslation(m, 1.0) == m
  {
  }

  lemma UnitsAgree(e: EepromData, c: Socket, d: Socket, useSpec: bool, unit: LengthUnit)
    requires RotationsPresent(e) && CameraExtrinsics(e, c, d, useSpec, unit).Ok?
    ensures CameraExtrinsics(e, c, d, useSpec, CENTIMETER).Ok?
    ensures CameraExtrinsics(e, c, d, useSpec, unit).value
            == ScaleTranslation(CameraExtrinsics(e, c, d, useSpec, CENTIMETER).value, UnitScale(unit))
  {
    hide MatMul, InvertSe3, ExtrinsicsToOrigin, ScaleTranslation, InUnit, UnitScale;
    var m := MatMul(InvertSe3(ExtrinsicsToOrigin(e, d, useSpec).value.0), ExtrinsicsToOrigin(e, c, useSpec).value.0);
    InUnitScales(m, unit);
    CentimetresAreStored(m);
  }

  lemma ImuNeeds(e: EepromData, c: Socket, d: Socket, useSpec: bool, unit: LengthUnit)
    requires RotationsPresent(e) && ImuToCameraExtrinsics(e, c, useSpec, unit).Ok?
    requires CameraExtrinsics(e, c, d, useSpec, unit).Ok?
    ensures e.imuExtrinsics.rotationMatrix.Some? && e.imuExtrinsics.toCameraSocket != AUTO
    ensures CameraExtrinsics(e, e.imuExtrinsics.toCameraSocket, c, useSpec, CENTIMETER).Ok?
  {
    hide MatMul, InvertSe3, InUnit, ExtrinsicsToOrigin, RotationsPresent, Stored, CameraExtrinsics;
    OkWhen(e, c, d, useSpec, unit);
    OkWhen(e, c, c, useSpec, CENTIMETER);
  }

  /** The IMU transform of one camera, carried on to another camera, is the IMU
      transform of that camera, whichever branches computed the two. */
  lemma ImuFollowsCameras(e: EepromData, c: Socket, d: Socket, useSpec: bool, unit: LengthUnit)
    requires RotationsPresent(e) && RigidLinks(e, useSpec)
    requires ImuToCameraExtrinsics(e, c, useSpec, unit).Ok? && CameraExtrinsics(e, c, d, useSpec, unit).Ok?
    requires Rigid(Stored(e.imuExtrinsics, useSpec))
    ensures ImuToCameraExtrinsics(e, d, useSpec, unit)
            == Ok(MatMul(CameraExtrinsics(e, c, d, useSpec, unit).value,
                ImuToCameraExtrinsics(e, c, useSpec, unit).value))
  {
    hide *;
    UnitsAgree(e, c, d, useSpec, unit);
    ImuNeeds(e, c, d, useSpec, unit);
    var home, imu := e.imuExtrinsics.toCameraSocket, Stored(e.imuExtrinsics, useSpec);
    ExtrinsicsCompose(e, home, c, d, useSpec, CENTIMETER);
    ImuFormula(e, c, useSpec, unit);
    ImuFormula(e, d, useSpec, unit);
    var toC, hop := CameraExtrinsics(e, home, c, useSpec, CENTIMETER).value,
        CameraExtrinsics(e, c, d, useSpec, CENTIMETER).value;
    ExtrinsicsAreRigid(e, home, c, useSpec, CENTIMETER);
    ExtrinsicsAreRigid(e, c, d, useSpec, CENTIMETER);
    MatMulAssociates(hop, toC, imu);
    RigidLastRow(hop);
    LastRow(MatMul(toC, imu), toC, imu);
    ScalingIsMultiplicative(hop, MatMul(toC, imu), UnitScale(unit));
  }

  lemma RigidLastRow(m: Mat4)
    requires Rigid(m)
    ensures m.r3 == HOMOGENEOUS
  {
  }

  lemma CameraToImuInverts(e: EepromData, c: Socket, useSpec: bool, unit: LengthUnit)
    requires RotationsPresent(e) && RigidLinks(e, useSpec) && ImuToCameraExtrinsics(e, c, useSpec, unit).Ok?
    requires Rigid(Stored(e.imuExtrinsics, useSpec))
    ensures CameraToImuExtrinsics(e, c, useSpec, unit).Ok?
    ensures var (there, back) :=
              (ImuToCameraExtrinsics(e, c, useSpec, unit).value, CameraToImuExtrinsics(e, c, useSpec, unit).value);
            MatMul(back, there) == IDENTITY && MatMul(there, back) == IDENTITY && InvertSe3(back) == there
  {
    hide Rigid, MatMul, InvertSe3, InUnit, ScaleTranslation, Stored, CameraExtrinsics;
    var home, imu := e.imuExtrinsics.toCameraSocket, Stored(e.imuExtrinsics, useSpec);
    var m := imu;
    if home != c {
      m := MatMul(CameraExtrinsics(e, home, c, useSpec, CENTIMETER).value, imu);
      ExtrinsicsAreRigid(e, home, c, useSpec, CENTIMETER);
      ProductIsRigid(CameraExtrinsics(e, home, c, useSpec, CENTIMETER).value, imu);
    }
    InUnitScales(m, unit);
    ScalingKeepsRigid(m, UnitScale(unit));
    InverseOnTheLeft(ScaleTranslation(m, UnitScale(unit)));
    InverseOnTheRight(ScaleTranslation(m, UnitScale(unit)));
    InverseOfInverse(ScaleTranslation(m, UnitScale(unit)));
  }

  // ----- the handler -----

  datatype Validation =
    | NoError
    | CycleDetected(at: Socket, to: Socket)
    | DanglingReference(at: Socket, to: Socket)
    | DisconnectedGraph(at: Socket, to: Socket)
    | NotComputable  // the exceptions of the transforms computed on the way

  ghost predicate HasOrigin(links: Links, c: Socket) { exists o :: OriginOf(links, c, o) }

  /** Every link can be used: its rotation is there and the data is of version 4. */
  predicate Readable(e: EepromData) {
    forall c | c in e.cameraData :: LinkReadable(e, c)
  }

  predicate LinkReadable(e: EepromData, c: Socket)
    requires c in e.cameraData
  {
    e.cameraData[c].toCameraSocket == AUTO || (e.version >= 4 && e.cameraData[c].rotationMatrix.Some?)
  }

  lemma PlainTransformExists(e: EepromData, c: Socket)
    requires RotationsPresent(e) && c in e.cameraData && Follow(LinksOf(e), c, {}).Origin?
    ensures ExtrinsicsToOrigin(e, c, false).Ok? ==> c != AUTO && LinkReadable(e, c)
    ensures c != AUTO && Readable(e) ==> ExtrinsicsToOrigin(e, c, false).Ok?
    ensures ExtrinsicsToOrigin(e, c, false).Ok? ==>
              ExtrinsicsToOrigin(e, c, false).value.1 == Follow(LinksOf(e), c, {}).socket
  {
    if c != AUTO {
      FollowFindsOrigin(LinksOf(e), c, Follow(LinksOf(e), c, {}).socket);
      var p :| ChainToOrigin(LinksOf(e), p) && p[0] == c;
      ToOriginIsChainProduct(e, c, p, false);
      PlainIsUsable(e, p);
    }
  }

  lemma {:induction false} PlainIsUsable(e: EepromData, p: seq<Socket>)
    requires LinkedCameras(e, p)
    ensures Readable(e) ==> Usable(e, p, false) && (|p| > 1 ==> e.version >= 4)
  {
    if |p| > 1 {
      PlainIsUsable(e, p[1..]);
      assert Readable(e) ==> LinkReadable(e, p[0]);
    }
  }

  ghost predicate HasCycle(links: Links) { exists c :: c in links && OnCycle(links, c) }

  ghost predicate HasDangling(links: Links) { exists at :: at in links && Dangles(links, at, links[at]) }

  lemma CyclesAreInconsistent(links: Links)
    ensures HasCycle(links) ==> !Consistent(links) && exists c :: c in links && !HasOrigin(links, c)
    ensures forall c | OnCycle(links, c) :: c in links
  {
    forall c | OnCycle(links, c) ensures c in links && !HasOrigin(links, c) {
      var round :| ChainBackTo(links, round, c);
      forall o ensures !OriginOf(links, c, o) {
        CycleHasNoOrigin(links, c, o);
      }
    }
    hide OnCycle, OriginOf;
  }

  function WithLink(e: EepromData, src: Socket, x: Extrinsics): EepromData {
    e.(cameraData := e.cameraData[src := x])
  }

  datatype SetResult = LinkStored | BadRotation | CycleFound(at: Socket, to: Socket) | Unreadable

  class CalibrationHandler {
    var eepromData: EepromData

    constructor (e: EepromData)
      ensures eepromData == e
    {
      eepromData := e;
    }

    method GetExtrinsicsToOrigin(c: Socket, useSpec: bool) returns (r: Result<(Mat4, Socket)>)
      requires RotationsPresent(eepromData)
      ensures r == ExtrinsicsToOrigin(eepromData, c, useSpec)
    {
      hide Chain, ComputeExtrinsicMatrix;
      if c !in eepromData.cameraData {
        return Throws;
      }
      ghost var links := LinksOf(eepromData);
      var current, path := c, [c];
      ghost var seen: set<Socket> := {};
      while true
        invariant path != [] && forall x :: x in path <==> x in seen || x == current
        invariant current !in seen && c in path && (AUTO in path ==> c == AUTO)
        invariant seen <= links.Keys
        invariant current in links ==> Follow(links, c, {}) == Follow(links, current, seen)
        invariant current !in links ==> !Follow(links, c, {}).Origin?
        decreases links.Keys - seen
      {
        if current !in eepromData.cameraData {
          return Throws;
        }
        var next := eepromData.cameraData[current].toCameraSocket;
        if next in path {
          return Throws;
        }
        if next == AUTO {
          break;
        }
        seen := seen + {current};
        current, path := next, path + [next];
      }
      if c == current {
        return Ok((IDENTITY, current));
      }
      match ComputeExtrinsicMatrix(eepromData, c, current, useSpec, {})
      case Throws => return Throws;
      case Ok(m) => return Ok((m, current));
    }

    /** Follows the links from `start`, as the inner loop of the validation does. */
    method FollowLinks(start: Socket) returns (w: Walk)
      requires start in eepromData.cameraData
      ensures w == Follow(LinksOf(eepromData), start, {})
    {
      var current, localVisited: set<Socket> := start, {};
      while true
        invariant current in eepromData.cameraData && localVisited <= eepromData.cameraData.Keys
        invariant Follow(LinksOf(eepromData), start, {}) == Follow(LinksOf(eepromData), current, localVisited)
        decreases eepromData.cameraData.Keys - localVisited
      {
        if current in localVisited {
          return Cycle(current);
        }
        var next := eepromData.cameraData[current].toCameraSocket;
        if next == AUTO {
          return Origin(current);
        }
        if next !in eepromData.cameraData {
          return Dangling(current, next);
        }
        localVisited := localVisited + {current};
        current := next;
      }
    }

    /** Whatever the order in which the cameras are visited, an error is found
        exactly when there is one, and what is reported is there. */
    method ValidateExtrinsicGraph() returns (r: Validation)
      requires RotationsPresent(eepromData)
      ensures r.NoError? <==> Consistent(LinksOf(eepromData)) && Readable(eepromData)
      ensures Witnessed(eepromData, r)
    {
      hide *;
      ghost var links := LinksOf(eepromData);
      LinksAreTheData(eepromData);
      var originMap: map<Socket, Socket> := map[];
      var todo := eepromData.cameraData.Keys;
      while todo != {}
        invariant todo <= links.Keys && originMap.Keys == links.Keys - todo
        invariant forall c | c in originMap :: Grounded(eepromData, c, originMap[c])
        decreases |todo|
      {
        var start :| start in todo;
        todo := todo - {start};
        var w := FollowLinks(start);
        FollowVerdict(eepromData, start);
        if w.Cycle? {
          return CycleDetected(w.at, eepromData.cameraData[w.at].toCameraSocket);
        }
        if w.Dangling? {
          return DanglingReference(w.at, w.to);
        }
        var t := GetExtrinsicsToOrigin(start, false);
        if t.Throws? {
          return NotComputable;
        }
        originMap := originMap[start := t.value.1];
      }
      if originMap != map[] {
        var first :| first in originMap;
        var expectedOrigin := originMap[first];
        OriginsVerdict(eepromData, originMap, first);
        todo := originMap.Keys;
        while todo != {}
          invariant todo <= originMap.Keys
          invariant forall c | c in originMap.Keys - todo :: originMap[c] == expectedOrigin
          decreases |todo|
        {
          var c :| c in todo;
          todo := todo - {c};
          if originMap[c] != expectedOrigin {
            return DisconnectedGraph(originMap[c], expectedOrigin);
          }
        }
      } else {
        NoCameras(eepromData);
      }
      return NoError;
    }

    /** Stores the link and then looks for a cycle. The link stays stored even
        when a cycle is found. */
    method SetCameraExtrinsics(src: Socket, dest: Socket, rotationMatrix: Option<Rotation>, translation: Point3f,
        specTranslation: Point3f)
      returns (r: SetResult)
      requires rotationMatrix.Some? ==>
                RotationsPresent(WithLink(eepromData, src,
                                          Extrinsics(rotationMatrix, translation, specTranslation, dest)))
      modifies this
      ensures r.BadRotation? <==> rotationMatrix.None?
      ensures eepromData == if rotationMatrix.None? then old(eepromData) else
                WithLink(old(eepromData), src, Extrinsics(rotationMatrix, translation, specTranslation, dest))
      ensures rotationMatrix.Some? ==>
                && eepromData.cameraData.Keys == old(eepromData.cameraData.Keys) + {src}
                && eepromData.cameraData[src] == Extrinsics(rotationMatrix, translation, specTranslation, dest)
                && (forall c | c in old(eepromData.cameraData) && c != src ::
                      eepromData.cameraData[c] == old(eepromData.cameraData[c]))
                && eepromData.version == old(eepromData.version)
                && eepromData.imuExtrinsics == old(eepromData.imuExtrinsics)
      ensures r.CycleFound? ==> OnCycle(LinksOf(eepromData), r.at)
      ensures rotationMatrix.Some? && Readable(eepromData) && AUTO !in LinksOf(eepromData)
                && !HasDangling(LinksOf(eepromData)) ==>
                (r.CycleFound? <==> HasCycle(LinksOf(eepromData)))
    {
      if rotationMatrix.None? {
        return BadRotation;
      }
      var x := Extrinsics(rotationMatrix, translation, specTranslation, dest);
      eepromData := WithLink(eepromData, src, x);
      var result := ValidateExtrinsicGraph();
      CyclesAreInconsistent(LinksOf(eepromData));
      match result
      case CycleDetected(at, to) => return CycleFound(at, to);
      case NotComputable => return Unreadable;
      case _ => return LinkStored;
    }

    /** Whether the cameras form one chain from `head` to an origin. */
    method CheckSrcLinks(head: Socket) returns (ok: bool)
      ensures ok <==> if head == AUTO then eepromData.cameraData == map[] else SingleChain(LinksOf(eepromData), head)
    {
      ghost var links := LinksOf(eepromData);
      hide Chain, ChainToOrigin, SingleChain;
      var headSocket, marked: set<Socket> := head, {};
      ghost var path: seq<Socket> := [];
      while headSocket != AUTO
        invariant marked <= links.Keys && forall x :: x in path <==> x in marked
        invariant (path == [] ==> headSocket == head) && (head == AUTO ==> path == [])
        invariant path != [] ==>
                  Chain(links, path) && path[0] == head && path[|path| - 1] in links
                  && links[path[|path| - 1]] == headSocket
        invariant headSocket != AUTO && headSocket in links ==>
                  Follow(links, head, {}) == Follow(links, headSocket, marked)
        invariant headSocket != AUTO && headSocket !in links ==> head !in links || !Follow(links, head, {}).Origin?
        decreases links.Keys - marked
      {
        NoOriginNoChain(links, head);
        if headSocket !in eepromData.cameraData {
          return false;
        }
        if headSocket in marked {
          return false;
        }
        ChainGrows(links, path, headSocket);
        marked := marked + {headSocket};
        path := path + [headSocket];
        headSocket := eepromData.cameraData[headSocket].toCameraSocket;
      }
      SameSize(marked, links.Keys);
      if head != AUTO {
        assert ChainToOrigin(links, path) by { EndsInAuto(links, path); }
        SingleChainExactly(links, path, marked);
      }
      assert eepromData.cameraData.Keys == links.Keys;
      assert head == AUTO ==> (|marked| == 0 <==> marked == {});
      ok := |eepromData.cameraData| == |marked|;
    }
  }

  /** One chain over all cameras is all that the validation asks for, and more. */
  lemma SingleChainIsConsistent(links: Links, head: Socket)
    requires SingleChain(links, head) && head != AUTO
    ensures Consistent(links)
  {
    var p :| ChainToOrigin(links, p) && p[0] == head && forall x :: x in p <==> x in links;
    var origin := p[|p| - 1];
    forall c | c in links ensures c != AUTO && OriginOf(links, c, origin) {
      var k :| 0 <= k < |p| && p[k] == c;
      ChainSuffix(links, p, k);
      assert p[k..][|p[k..]| - 1] == origin;
      assert ChainToOrigin(links, p[k..]) && p[k..][0] == c;
      if k > 0 {
        ChainSuffix(links, p, k - 1);
        assert p[k - 1..][1] == c;
      }
    }
    assert SharedOrigin(links, origin);
  }

  lemma ChainGrows(links: Links, path: seq<Socket>, next: Socket)
    requires next in links && next != AUTO
    requires path != [] ==> Chain(links, path) && path[|path| - 1] in links && links[path[|path| - 1]] == next
    ensures Chain(links, path + [next])
  {
    if path != [] {
      ChainConcat(links, path, [next]);
    }
  }

  lemma EndsInAuto(links: Links, path: seq<Socket>)
    requires Chain(links, path) && path[|path| - 1] in links && links[path[|path| - 1]] == AUTO
    ensures ChainToOrigin(links, path)
  {
  }

  lemma NoOriginNoChain(links: Links, head: Socket)
    ensures head !in links || !Follow(links, head, {}).Origin? ==> !SingleChain(links, head)
  {
    if p :| ChainToOrigin(links, p) && p[0] == head {
      assert OriginOf(links, head, p[|p| - 1]);
      FollowFindsOrigin(links, head, p[|p| - 1]);
    }
  }

  lemma SingleChainExactly(links: Links, p: seq<Socket>, marked: set<Socket>)
    requires ChainToOrigin(links, p) && forall x :: x in p <==> x in marked
    ensures SingleChain(links, p[0]) <==> marked == links.Keys
  {
    if SingleChain(links, p[0]) {
      var q :| ChainToOrigin(links, q) && q[0] == p[0] && forall x :: x in q <==> x in links;
      ChainsAgree(links, p, q);
    }
  }

  lemma SameSize<T>(s: set<T>, t: set<T>)
    requires s <= t
    ensures |s| == |t| <==> s == t
  {
    assert t == s + (t - s);
  }

  /** All cameras lie on one chain that starts with `head` and reaches an origin. */
  ghost predicate SingleChain(links: Links, head: Socket) {
    exists p :: ChainToOrigin(links, p) && p[0] == head && forall x :: x in p <==> x in links
  }

  /** What an error names is in the graph: a camera on a cycle, a reference to a
      missing camera, or two origins of different cameras. */
  ghost predicate Witnessed(e: EepromData, r: Validation) {
    var links := LinksOf(e);
    && (r.CycleDetected? ==> OnCycle(links, r.at) && r.at in links && links[r.at] == r.to)
    && (r.DanglingReference? ==> Dangles(links, r.at, r.to))
    && (r.DisconnectedGraph? ==>
          && (forall c | c in links :: HasOrigin(links, c)) && r.at != r.to
          && (exists c, d :: OriginOf(links, c, r.at) && OriginOf(links, d, r.to)))
    && (r.NotComputable? ==> AUTO in links || !Readable(e))
  }

  /** The validation passed camera `c` and noted its origin. */
  ghost predicate Grounded(e: EepromData, c: Socket, origin: Socket) {
    c in e.cameraData && c != AUTO && OriginOf(LinksOf(e), c, origin) && LinkReadable(e, c)
  }

  lemma LinksAreTheData(e: EepromData)
    ensures LinksOf(e).Keys == e.cameraData.Keys
    ensures Witnessed(e, NoError)
  {
  }

  lemma NoCameras(e: EepromData)
    requires LinksOf(e).Keys == {}
    ensures Consistent(LinksOf(e)) && Readable(e)
  {
    assert SharedOrigin(LinksOf(e), AUTO);
    assert e.cameraData == map[];
  }

  /** What following the links from one camera decides. */
  lemma FollowVerdict(e: EepromData, c: Socket)
    requires RotationsPresent(e) && c in e.cameraData
    ensures var (w, t) := (Follow(LinksOf(e), c, {}), ExtrinsicsToOrigin(e, c, false));
            && (!w.Origin? ==> !Consistent(LinksOf(e)))
            && (w.Cycle? ==> w.at in e.cameraData && Witnessed(e,
                CycleDetected(w.at, e.cameraData[w.at].toCameraSocket)))
            && (w.Dangling? ==> Witnessed(e, DanglingReference(w.at, w.to)))
            && (w.Origin? && t.Throws? ==> !(Consistent(LinksOf(e)) && Readable(e)) && Witnessed(e, NotComputable))
            && (w.Origin? && t.Ok? ==> Grounded(e, c, t.value.1))
  {
    var links, w := LinksOf(e), Follow(LinksOf(e), c, {});
    FollowIsRight(links, c);
    WalkDecides(links, c);
    hide Follow, Chain, ExtrinsicsToOrigin, OriginOf;
    if w.Origin? {
      PlainTransformExists(e, c);
    } else if w.Cycle? {
      var round :| ChainBackTo(links, round, w.at);
      assert w.at in links;
    }
    if origin :| SharedOrigin(links, origin) {
      assert OriginOf(links, c, origin);
    }
  }

  lemma OriginsVerdict(e: EepromData, originMap: map<Socket, Socket>, first: Socket)
    requires RotationsPresent(e) && originMap.Keys == LinksOf(e).Keys && first in originMap
    requires forall c | c in originMap :: Grounded(e, c, originMap[c])
    ensures (forall c | c in originMap :: originMap[c] == originMap[first]) ==> Consistent(LinksOf(e)) && Readable(e)
    ensures forall c | c in originMap && originMap[c] != originMap[first] ::
              !Consistent(LinksOf(e)) && Witnessed(e, DisconnectedGraph(originMap[c], originMap[first]))
  {
    var links := LinksOf(e);
    hide OriginOf;
    OneOriginOrTwo(links, originMap, originMap[first]);
    forall c | c in links ensures HasOrigin(links, c) && c in originMap && Grounded(e, c, originMap[c]) {
      assert OriginOf(links, c, originMap[c]);
    }
    assert forall c | c in e.cameraData :: c in links;
  }

  lemma WalkDecides(links: Links, c: Socket)
    requires c in links
    ensures Follow(links, c, {}).Origin? <==> HasOrigin(links, c)
  {
    if Follow(links, c, {}).Origin? {
      FollowFindsOrigin(links, c, Follow(links, c, {}).socket);
    }
    if HasOrigin(links, c) {
      var o :| OriginOf(links, c, o);
      FollowFindsOrigin(links, c, o);
    }
  }

  lemma OneOriginOrTwo(links: Links, originMap: map<Socket, Socket>, expected: Socket)
    requires originMap.Keys == links.Keys && originMap != map[] && expected in originMap.Values
    requires forall c | c in originMap :: OriginOf(links, c, originMap[c])
    ensures (exists origin :: SharedOrigin(links, origin)) <==> forall c | c in originMap :: originMap[c] == expected
  {
    hide OriginOf;
    if origin :| SharedOrigin(links, origin) {
      forall c | c in originMap ensures originMap[c] == origin {
        OriginIsUnique(links, c, originMap[c], origin);
      }
    }
    if forall c | c in originMap :: originMap[c] == expected {
      assert SharedOrigin(links, expected);
    }
  }
}
