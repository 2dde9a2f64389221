/** The tensor tables of a compiled network blob. */
module BlobReader {
  import opened Bytes

  const INT_LIMIT := 0x8000_0000

  datatype Error = LogicError | LengthError | RuntimeError

  /** A value and the offset behind it, or an exception. */
  datatype Result<+T> = Ok(value: T, offset: nat) | Fail(error: Error)

  function AsInt32(x: nat): int {
    if x < INT_LIMIT then x else x - UINT_RANGE
  }

  function FromInt32(x: int): (r: nat)
    requires -INT_LIMIT <= x < INT_LIMIT
    ensures r < UINT_RANGE && AsInt32(r) == x
  {
    if x >= 0 then x else x + UINT_RANGE
  }

  // ----- reading -----

  /** `readFromBlob` for a value of `n` bytes; the offset is kept in 32 bits. */
  function ReadFromBlob(blob: seq<byte>, offset: nat, n: nat): (r: Result<seq<byte>>)
    ensures r.Ok? <==> offset + n <= |blob|
    ensures r.Ok? ==> r == Ok(blob[offset..offset + n], (offset + n) % UINT_RANGE)
    ensures r.Fail? ==> r.error == LengthError
  {
    if offset + n > |blob| then Fail(LengthError) else Ok(blob[offset..offset + n], (offset + n) % UINT_RANGE)
  }

  function ReadU32(blob: seq<byte>, offset: nat): Result<nat> {
    match ReadFromBlob(blob, offset, 4)
    case Ok(b, o) => Ok(LittleEndian(b), o)
    case Fail(e) => Fail(e)
  }

  /** The first `n` bytes from `offset` on, read one by one. */
  function Chars(blob: seq<byte>, offset: nat, n: nat): Result<seq<byte>>
    decreases n
  {
    if n == 0 then Ok([], offset)
    else
      match Chars(blob, offset, n - 1)
      case Fail(e) => Fail(e)
      case Ok(s, o) =>
        match ReadFromBlob(blob, o, 1)
        case Fail(e) => Fail(e)
        case Ok(c, o') => Ok(s + c, o')
  }

  method ReadChars(blob: seq<byte>, offset: nat, n: nat) returns (r: Result<seq<byte>>)
    ensures r == Chars(blob, offset, n)
  {
    var name, at := [], offset;
    for i := 0 to n
      invariant Chars(blob, offset, i) == Ok(name, at)
    {
      var c := ReadFromBlob(blob, at, 1);
      if c.Fail? {
        FailsOnce(blob, offset, i + 1, n);
        return Fail(c.error);
      }
      name, at := name + c.value, c.offset;
    }
    return Ok(name, at);
  }

  lemma {:induction false} FailsOnce(blob: seq<byte>, offset: nat, i: nat, n: nat)
    requires i <= n && Chars(blob, offset, i).Fail?
    ensures Chars(blob, offset, n) == Chars(blob, offset, i)
    decreases n
  {
    if i < n {
      FailsOnce(blob, offset, i, n - 1);
    }
  }

  function Dims(blob: seq<byte>, offset: nat, n: nat): Result<seq<nat>>
    decreases n
  {
    if n == 0 then Ok([], offset)
    else
      match Dims(blob, offset, n - 1)
      case Fail(e) => Fail(e)
      case Ok(s, o) =>
        match ReadU32(blob, o)
        case Fail(e) => Fail(e)
        case Ok(d, o') => Ok(s + [d], o')
  }

  method ReadDims(blob: seq<byte>, offset: nat, n: nat) returns (r: Result<seq<nat>>)
    ensures r == Dims(blob, offset, n)
  {
    var dims, at := [], offset;
    for i := 0 to n
      invariant Dims(blob, offset, i) == Ok(dims, at)
    {
      var d := ReadU32(blob, at);
      if d.Fail? {
        DimsFailOnce(blob, offset, i + 1, n);
        return Fail(d.error);
      }
      dims, at := dims + [d.value], d.offset;
    }
    return Ok(dims, at);
  }

  lemma {:induction false} DimsFailOnce(blob: seq<byte>, offset: nat, i: nat, n: nat)
    requires i <= n && Dims(blob, offset, i).Fail?
    ensures Dims(blob, offset, n) == Dims(blob, offset, i)
    decreases n
  {
    if i < n {
      DimsFailOnce(blob, offset, i, n - 1);
    }
  }

  /** A C string ends at its first zero. */
  function UpToZero(s: seq<byte>): (r: seq<byte>) {
    if s == [] || s[0] == 0 then [] else [s[0]] + UpToZero(s[1..])
  }

  datatype TensorInfo = TensorInfo(name: seq<byte>, offset: int, dataType: int, order: nat, numDimensions: nat,
      dims: seq<nat>)

  /** One table entry, field by field. */
  function Entry(blob: seq<byte>, offset: nat, idx: nat, constOffset: nat): Result<TensorInfo> {
    match ReadU32(blob, offset)
    case Fail(e) => Fail(e)
    case Ok(ioIdx, o1) =>
      if ioIdx != idx then Fail(RuntimeError)
      else
        match ReadU32(blob, o1)
        case Fail(e) => Fail(e)
        case Ok(bufferOffset, o2) =>
          match ReadU32(blob, o2)
          case Fail(e) => Fail(e)
          case Ok(nameLength, o3) =>
            match Chars(blob, o3, nameLength)
            case Fail(e) => Fail(e)
            case Ok(name, o4) => EntryBehindName(blob, o4, AsInt32(bufferOffset), UpToZero(name), constOffset)
  }

  function EntryBehindName(blob: seq<byte>, offset: nat, bufferOffset: int, name: seq<byte>,
      constOffset: nat): Result<TensorInfo> {
    match ReadU32(blob, offset)
    case Fail(e) => Fail(e)
    case Ok(dataType, o1) =>
      match ReadU32(blob, o1)
      case Fail(e) => Fail(e)
      case Ok(order, o2) =>
        match ReadU32(blob, o2)
        case Fail(e) => Fail(e)
        case Ok(numDims, o3) =>
          match ReadU32(blob, o3)
          case Fail(e) => Fail(e)
          case Ok(_, o4) =>
            match ReadU32(blob, o4)
            case Fail(e) => Fail(e)
            case Ok(dimsAt, o5) =>
              match Dims(blob, (constOffset + dimsAt) % UINT_RANGE, numDims)
              case Fail(e) => Fail(e)
              case Ok(dims, _) => Ok(TensorInfo(name, bufferOffset, AsInt32(dataType), order, numDims, dims),
                  (o5 + 8) % UINT_RANGE)
  }

  method ReadIO(blob: seq<byte>, offset: nat, idx: nat, constOffset: nat) returns (r: Result<TensorInfo>)
    ensures r == Entry(blob, offset, idx, constOffset)
  {
    hide ReadU32, Chars, Dims, UpToZero;
    var ioIdx := ReadU32(blob, offset);
    if ioIdx.Fail? { return Fail(ioIdx.error); }
    if ioIdx.value != idx { return Fail(RuntimeError); }
    var bufferOffset := ReadU32(blob, ioIdx.offset);
    if bufferOffset.Fail? { return Fail(bufferOffset.error); }
    var nameLength := ReadU32(blob, bufferOffset.offset);
    if nameLength.Fail? { return Fail(nameLength.error); }
    var ioName := ReadChars(blob, nameLength.offset, nameLength.value);
    if ioName.Fail? { return Fail(ioName.error); }
    var name := UpToZero(ioName.value);
    var dataType := ReadU32(blob, ioName.offset);
    if dataType.Fail? { return Fail(dataType.error); }
    var order := ReadU32(blob, dataType.offset);
    if order.Fail? { return Fail(order.error); }
    var numDims := ReadU32(blob, order.offset);
    if numDims.Fail? { return Fail(numDims.error); }
    var ignored := ReadU32(blob, numDims.offset);
    if ignored.Fail? { return Fail(ignored.error); }
    var dimsAt := ReadU32(blob, ignored.offset);
    if dimsAt.Fail? { return Fail(dimsAt.error); }
    var dims := ReadDims(blob, (constOffset + dimsAt.value) % UINT_RANGE, numDims.value);
    if dims.Fail? { return Fail(dims.error); }
    var ioBufferOffset, ioDataType := AsInt32(bufferOffset.value), AsInt32(dataType.value);
    var io := TensorInfo(name, ioBufferOffset, ioDataType, order.value, numDims.value, dims.value);
    return Ok(io, (dimsAt.offset + 8) % UINT_RANGE);
  }

  // ----- tables -----

  /** "@shape" */
  const SHAPE: seq<byte> := [64, 115, 104, 97, 112, 101]

  predicate IsIOShapeName(name: seq<byte>) {
    SHAPE <= name || (name != [] && IsIOShapeName(name[1..]))
  }

  /** A shape name has "@shape" somewhere in it. */
  lemma {:induction false} ShapeNameMeans(name: seq<byte>)
    ensures IsIOShapeName(name) <==>
              exists before, behind :: name == before + SHAPE + behind
  {
    if IsIOShapeName(name) {
      var before := ShapeIsFound(name);
    }
    if before, behind :| name == before + SHAPE + behind {
      ShapeIsSeen(before, behind);
    }
  }

  lemma {:induction false} ShapeIsSeen(before: seq<byte>, behind: seq<byte>)
    ensures IsIOShapeName(before + SHAPE + behind)
  {
    var name := before + SHAPE + behind;
    if before == [] {
      assert name == SHAPE + behind;
      assert SHAPE <= name;
    } else {
      ShapeIsSeen(before[1..], behind);
      assert name[1..] == before[1..] + SHAPE + behind;
    }
  }

  lemma {:induction false} ShapeIsFound(name: seq<byte>) returns (before: seq<byte>)
    requires IsIOShapeName(name)
    ensures exists behind :: name == before + SHAPE + behind
  {
    before := [];
    if SHAPE <= name {
      assert name == before + SHAPE + name[6..];
    } else {
      var rest := ShapeIsFound(name[1..]);
      before := [name[0]] + rest;
      var behind :| name[1..] == rest + SHAPE + behind;
      assert name == before + SHAPE + behind;
    }
  }

  type Table = map<seq<byte>, TensorInfo>

  function With(table: Table, io: TensorInfo): Table {
    if IsIOShapeName(io.name) then table else table[io.name := io]
  }

  /** The table after `count` entries from `offset` on, the first being number `idx`. */
  function Entries(blob: seq<byte>, offset: nat, idx: nat, count: nat, constOffset: nat, table: Table): Result<Table>
    requires idx <= count
    decreases count - idx
  {
    if idx == count then Ok(table, offset)
    else
      match Entry(blob, offset, idx, constOffset)
      case Fail(e) => Fail(e)
      case Ok(io, o) => Entries(blob, o, idx + 1, count, constOffset, With(table, io))
  }

  // ----- the reader -----

  const ELF_HEADER := 52
  const BLOB_HEADER := 80
  const BLOB_MAGIC_NUMBER := 9709

  /** Field number `k` of the blob header. */
  function Field(blob: seq<byte>, k: nat): nat
    requires k < 20 && |blob| >= ELF_HEADER + BLOB_HEADER
  {
    LittleEndian(blob[ELF_HEADER + 4 * k..ELF_HEADER + 4 * k + 4])
  }

  datatype Outcome = Parsed | Failed(error: Error)

  predicate Acceptable(blob: seq<byte>) {
    |blob| >= ELF_HEADER + BLOB_HEADER && Field(blob, 0) == BLOB_MAGIC_NUMBER && |blob| >= Field(blob, 1)
  }

  function Inputs(blob: seq<byte>, table: Table): Result<Table>
    requires Acceptable(blob)
  {
    Entries(blob, Field(blob, 16), 0, Field(blob, 4), Field(blob, 19), table)
  }

  function Outputs(blob: seq<byte>, table: Table): Result<Table>
    requires Acceptable(blob)
  {
    Entries(blob, Field(blob, 17), 0, Field(blob, 5), Field(blob, 19), table)
  }

  /** What the table holds when the entries are read through, or up to the first
      that throws. */
  function Filled(blob: seq<byte>, offset: nat, idx: nat, count: nat, constOffset: nat, table: Table): Table
    requires idx <= count
    decreases count - idx
  {
    if idx == count then table
    else
      match Entry(blob, offset, idx, constOffset)
      case Fail(_) => table
      case Ok(io, o) => Filled(blob, o, idx + 1, count, constOffset, With(table, io))
  }

  lemma {:induction false} FilledIsRead(blob: seq<byte>, offset: nat, idx: nat, count: nat, constOffset: nat,
      table: Table)
    requires idx <= count && Entries(blob, offset, idx, count, constOffset, table).Ok?
    ensures Filled(blob, offset, idx, count, constOffset, table)
            == Entries(blob, offset, idx, count, constOffset, table).value
    decreases count - idx
  {
    hide Entry, With;
    if idx < count {
      var e := Entry(blob, offset, idx, constOffset);
      FilledIsRead(blob, e.offset, idx + 1, count, constOffset, With(table, e.value));
    }
  }

  /** The first exception, if there is one. */
  function Verdict(inputs: Result<Table>, outputs: Result<Table>): Outcome {
    match inputs
    case Fail(e) => Failed(e)
    case Ok(_, _) =>
      match outputs
      case Fail(e) => Failed(e)
      case Ok(_, _) => Parsed
  }

  class BlobReader {
    var networkInputs: Table
    var networkOutputs: Table

    constructor ()
      ensures networkInputs == map[] && networkOutputs == map[]
    {
      networkInputs, networkOutputs := map[], map[];
    }

    method Parse(blob: seq<byte>) returns (outcome: Outcome)
      modifies this
      ensures !Acceptable(blob) ==>
                && outcome == Failed(if |blob| < ELF_HEADER + BLOB_HEADER || Field(blob, 0) != BLOB_MAGIC_NUMBER
                    then LogicError else LengthError)
                && networkInputs == old(networkInputs) && networkOutputs == old(networkOutputs)
      ensures |blob| < 132 || LittleEndian(blob[52..56]) != 9709 ==> outcome == Failed(LogicError)
      ensures |blob| >= 132 && LittleEndian(blob[52..56]) == 9709 && |blob| < LittleEndian(blob[56..60]) ==>
                outcome == Failed(LengthError)
      ensures Acceptable(blob) ==>
                outcome == Verdict(Inputs(blob, old(networkInputs)), Outputs(blob, old(networkOutputs)))
      ensures Acceptable(blob) ==>
                networkInputs == Filled(blob, Field(blob, 16), 0, Field(blob, 4), Field(blob, 19), old(networkInputs))
      ensures Acceptable(blob) ==>
                networkOutputs == if Inputs(blob, old(networkInputs)).Fail? then old(networkOutputs)
                                  else Filled(blob, Field(blob, 17), 0, Field(blob, 5), Field(blob, 19),
                                      old(networkOutputs))
      ensures Acceptable(blob) && Inputs(blob, old(networkInputs)).Ok? ==>
                networkInputs == Inputs(blob, old(networkInputs)).value
      ensures outcome.Parsed? ==> networkOutputs == Outputs(blob, old(networkOutputs)).value
    {
      hide LittleEndian, Entry, With;
      if |blob| < ELF_HEADER + BLOB_HEADER { return Failed(LogicError); }
      if Field(blob, 0) != BLOB_MAGIC_NUMBER { return Failed(LogicError); }
      if |blob| < Field(blob, 1) { return Failed(LengthError); }
      var at := Field(blob, 16);
      ghost var filled := Filled(blob, at, 0, Field(blob, 4), Field(blob, 19), networkInputs);
      for i := 0 to Field(blob, 4)
        invariant networkOutputs == old(networkOutputs)
        invariant Inputs(blob, old(networkInputs))
                  == Entries(blob, at, i, Field(blob, 4), Field(blob, 19), networkInputs)
        invariant filled == Filled(blob, at, i, Field(blob, 4), Field(blob, 19), networkInputs)
      {
        var io := ReadIO(blob, at, i, Field(blob, 19));
        if io.Fail? { return Failed(io.error); }
        networkInputs := With(networkInputs, io.value);
        at := io.offset;
      }
      FilledIsRead(blob, Field(blob, 16), 0, Field(blob, 4), Field(blob, 19), old(networkInputs));
      at := Field(blob, 17);
      ghost var filledToo := Filled(blob, at, 0, Field(blob, 5), Field(blob, 19), networkOutputs);
      for i := 0 to Field(blob, 5)
        invariant Inputs(blob, old(networkInputs)).Ok? && networkInputs == filled
        invariant Outputs(blob, old(networkOutputs))
                  == Entries(blob, at, i, Field(blob, 5), Field(blob, 19), networkOutputs)
        invariant filledToo == Filled(blob, at, i, Field(blob, 5), Field(blob, 19), networkOutputs)
      {
        var io := ReadIO(blob, at, i, Field(blob, 19));
        if io.Fail? { return Failed(io.error); }
        networkOutputs := With(networkOutputs, io.value);
        at := io.offset;
      }
      FilledIsRead(blob, Field(blob, 17), 0, Field(blob, 5), Field(blob, 19), old(networkOutputs));
      return Parsed;
    }
  }

  // ----- staying inside the blob -----

  lemma CharsStayInside(blob: seq<byte>, more: seq<byte>, offset: nat, n: nat)
    requires Chars(blob, offset, n).Ok?
    ensures Chars(blob + more, offset, n) == Chars(blob, offset, n)
    decreases n
  {
    if n > 0 {
      CharsStayInside(blob, more, offset, n - 1);
      ReadStaysInside(blob, more, Chars(blob, offset, n - 1).offset, 1);
    }
  }

  lemma ReadStaysInside(blob: seq<byte>, more: seq<byte>, offset: nat, n: nat)
    requires ReadFromBlob(blob, offset, n).Ok?
    ensures ReadFromBlob(blob + more, offset, n) == ReadFromBlob(blob, offset, n)
  {
    assert (blob + more)[offset..offset + n] == blob[offset..offset + n];
  }

  lemma NumberStaysInside(blob: seq<byte>, more: seq<byte>, offset: nat)
    ensures ReadU32(blob, offset).Ok? ==> ReadU32(blob + more, offset) == ReadU32(blob, offset)
  {
    if ReadU32(blob, offset).Ok? {
      ReadStaysInside(blob, more, offset, 4);
    }
  }

  lemma {:induction false} DimsStayInside(blob: seq<byte>, more: seq<byte>, offset: nat, n: nat)
    requires Dims(blob, offset, n).Ok?
    ensures Dims(blob + more, offset, n) == Dims(blob, offset, n)
    decreases n
  {
    hide ReadU32;
    if n > 0 {
      DimsStayInside(blob, more, offset, n - 1);
      NumberStaysInside(blob, more, Dims(blob, offset, n - 1).offset);
    }
  }

  lemma TailStaysInside(blob: seq<byte>, more: seq<byte>, offset: nat, bufferOffset: int, name: seq<byte>,
      constOffset: nat)
    requires EntryBehindName(blob, offset, bufferOffset, name, constOffset).Ok?
    ensures EntryBehindName(blob + more, offset, bufferOffset, name, constOffset)
            == EntryBehindName(blob, offset, bufferOffset, name, constOffset)
  {
    hide ReadU32, Dims;
    NumberStaysInside(blob, more, offset);
    var o1 := ReadU32(blob, offset).offset;
    NumberStaysInside(blob, more, o1);
    var o2 := ReadU32(blob, o1).offset;
    NumberStaysInside(blob, more, o2);
    var numDims, o3 := ReadU32(blob, o2).value, ReadU32(blob, o2).offset;
    NumberStaysInside(blob, more, o3);
    var o4 := ReadU32(blob, o3).offset;
    NumberStaysInside(blob, more, o4);
    DimsStayInside(blob, more, (constOffset + ReadU32(blob, o4).value) % UINT_RANGE, numDims);
  }

  lemma EntryStaysInside(blob: seq<byte>, more: seq<byte>, offset: nat, idx: nat, constOffset: nat)
    requires Entry(blob, offset, idx, constOffset).Ok?
    ensures Entry(blob + more, offset, idx, constOffset) == Entry(blob, offset, idx, constOffset)
  {
    hide ReadU32, Chars, EntryBehindName, UpToZero;
    NumberStaysInside(blob, more, offset);
    var o1 := ReadU32(blob, offset).offset;
    NumberStaysInside(blob, more, o1);
    var bufferOffset, o2 := ReadU32(blob, o1).value, ReadU32(blob, o1).offset;
    NumberStaysInside(blob, more, o2);
    var nameLength, o3 := ReadU32(blob, o2).value, ReadU32(blob, o2).offset;
    CharsStayInside(blob, more, o3, nameLength);
    var name := Chars(blob, o3, nameLength);
    TailStaysInside(blob, more, name.offset, AsInt32(bufferOffset), UpToZero(name.value), constOffset);
  }

  /** A table that was read without an exception was read from the blob alone:
      whatever bytes follow it, the result is the same. */
  lemma {:induction false} TableStaysInside(
    blob: seq<byte>, more: seq<byte>, offset: nat, idx: nat, count: nat, constOffset: nat, table: Table)
    requires idx <= count && Entries(blob, offset, idx, count, constOffset, table).Ok?
    ensures Entries(blob + more, offset, idx, count, constOffset, table)
            == Entries(blob, offset, idx, count, constOffset, table)
    decreases count - idx
  {
    hide Entry, With;
    if idx < count {
      EntryStaysInside(blob, more, offset, idx, constOffset);
      var e := Entry(blob, offset, idx, constOffset);
      TableStaysInside(blob, more, e.offset, idx + 1, count, constOffset, With(table, e.value));
    }
  }

  // ----- laying tables out -----

  predicate NoZero(s: seq<byte>) {
    forall i | 0 <= i < |s| :: s[i] != 0
  }

  predicate DimsFit(dims: seq<nat>) {
    forall i | 0 <= i < |dims| :: dims[i] < UINT_RANGE
  }

  /** What a table entry holds: a tensor, how many zeros follow its name, where
      its dimensions are, and the fields that are skipped. */
  datatype Record = Record(info: TensorInfo, padding: nat, dimsAt: nat, ignored: nat, strides: seq<byte>)
  {
    predicate Valid() {
      && NoZero(info.name) && |info.name| + padding < UINT_RANGE
      && -INT_LIMIT <= info.offset < INT_LIMIT && -INT_LIMIT <= info.dataType < INT_LIMIT
      && info.order < UINT_RANGE && info.numDimensions == |info.dims| < UINT_RANGE
      && DimsFit(info.dims)
      && dimsAt < UINT_RANGE && ignored < UINT_RANGE && |strides| == 8
    }

    function Name(): (n: seq<byte>)
      ensures |n| == |info.name| + padding
    {
      info.name + seq(padding, _ => 0)
    }

    /** The fields in front of the name. */
    function Head(idx: nat): (b: seq<byte>)
      requires Valid()
      ensures |b| == 12
    {
      ToLittleEndian(idx, 4) + ToLittleEndian(FromInt32(info.offset), 4) + ToLittleEndian(|info.name| + padding, 4)
    }

    /** The fields behind the name. */
    function Tail(): (b: seq<byte>)
      requires Valid()
      ensures |b| == 28
    {
      ToLittleEndian(FromInt32(info.dataType), 4) + ToLittleEndian(info.order, 4)
          + ToLittleEndian(info.numDimensions, 4)
      + ToLittleEndian(ignored, 4) + ToLittleEndian(dimsAt, 4) + strides
    }

    function Size(): nat {
      12 + |info.name| + padding + 28
    }
  }

  /** The bytes `b` stand at `offset`. */
  predicate At(blob: seq<byte>, offset: nat, b: seq<byte>) {
    offset + |b| <= |blob| && blob[offset..offset + |b|] == b
  }

  lemma AtParts(blob: seq<byte>, offset: nat, a: seq<byte>, b: seq<byte>)
    ensures At(blob, offset, a + b) <==> At(blob, offset, a) && At(blob, offset + |a|, b)
  {
    if At(blob, offset, a + b) {
      assert blob[offset..offset + |a|] == blob[offset..offset + |a + b|][..|a|] == a;
      assert blob[offset + |a|..offset + |a| + |b|] == blob[offset..offset + |a + b|][|a|..] == b;
    }
    if At(blob, offset, a) && At(blob, offset + |a|, b) {
      assert blob[offset..offset + |a + b|] == blob[offset..offset + |a|] + blob[offset + |a|..offset + |a| + |b|];
    }
  }

  lemma ReadsU32(blob: seq<byte>, offset: nat, x: nat)
    requires x < UINT_RANGE && |blob| < UINT_RANGE && At(blob, offset, ToLittleEndian(x, 4))
    ensures ReadU32(blob, offset) == Ok(x, offset + 4)
  {
    assert Pow256(4) == UINT_RANGE;
    LittleEndianReadsBack(x, 4);
  }

  lemma {:induction false} ReadsChars(blob: seq<byte>, offset: nat, s: seq<byte>)
    requires |blob| < UINT_RANGE && At(blob, offset, s)
    ensures Chars(blob, offset, |s|) == Ok(s, offset + |s|)
    decreases |s|
  {
    if s != [] {
      var n := |s| - 1;
      assert s == s[..n] + [s[n]];
      AtParts(blob, offset, s[..n], [s[n]]);
      ReadsChars(blob, offset, s[..n]);
    }
  }

  function DimBytes(dims: seq<nat>): (b: seq<byte>)
    ensures |b| == 4 * |dims|
    decreases |dims|
  {
    if dims == [] then [] else DimBytes(dims[..|dims| - 1]) + ToLittleEndian(dims[|dims| - 1], 4)
  }

  lemma {:induction false} ReadsDims(blob: seq<byte>, offset: nat, dims: seq<nat>)
    requires |blob| < UINT_RANGE && At(blob, offset, DimBytes(dims)) && DimsFit(dims)
    ensures Dims(blob, offset, |dims|) == Ok(dims, offset + 4 * |dims|)
    decreases |dims|
  {
    hide At, ToLittleEndian, ReadU32, LittleEndian;
    if dims != [] {
      var n := |dims| - 1;
      AtParts(blob, offset, DimBytes(dims[..n]), ToLittleEndian(dims[n], 4));
      ReadsDims(blob, offset, dims[..n]);
      ReadsU32(blob, offset + 4 * n, dims[n]);
      assert dims == dims[..n] + [dims[n]];
    }
  }

  lemma {:induction false} PaddedNameEnds(name: seq<byte>, zeros: nat)
    requires NoZero(name)
    ensures UpToZero(name + seq(zeros, _ => 0)) == name
  {
    var padded := name + seq(zeros, _ => 0);
    if name != [] {
      PaddedNameEnds(name[1..], zeros);
      assert padded[1..] == name[1..] + seq(zeros, _ => 0);
      assert padded[0] == name[0];
    }
  }

  /** The record stands at `offset`, and its dimensions in the constant section. */
  predicate Placed(blob: seq<byte>, offset: nat, idx: nat, constOffset: nat, r: Record)
    requires r.Valid()
  {
    && At(blob, offset, r.Head(idx)) && At(blob, offset + 12, r.Name()) && At(blob, offset + 12 + |r.Name()|, r.Tail())
    && At(blob, (constOffset + r.dimsAt) % UINT_RANGE, DimBytes(r.info.dims))
  }

  lemma HeadFields(blob: seq<byte>, offset: nat, idx: nat, r: Record)
    requires r.Valid() && idx < UINT_RANGE && |blob| < UINT_RANGE && At(blob, offset, r.Head(idx))
    ensures ReadU32(blob, offset) == Ok(idx, offset + 4)
    ensures ReadU32(blob, offset + 4) == Ok(FromInt32(r.info.offset), offset + 8)
    ensures ReadU32(blob, offset + 8) == Ok(|r.Name()|, offset + 12)
  {
    hide At, ToLittleEndian, ReadU32;
    var a, b, c := ToLittleEndian(idx, 4), ToLittleEndian(FromInt32(r.info.offset), 4),
        ToLittleEndian(|r.info.name| + r.padding, 4);
    AtParts(blob, offset, a + b, c);
    AtParts(blob, offset, a, b);
    ReadsU32(blob, offset, idx);
    ReadsU32(blob, offset + 4, FromInt32(r.info.offset));
    ReadsU32(blob, offset + 8, |r.info.name| + r.padding);
  }

  lemma TailFields(blob: seq<byte>, offset: nat, r: Record)
    requires r.Valid() && |blob| < UINT_RANGE && At(blob, offset, r.Tail())
    ensures ReadU32(blob, offset) == Ok(FromInt32(r.info.dataType), offset + 4)
    ensures ReadU32(blob, offset + 4) == Ok(r.info.order, offset + 8)
    ensures ReadU32(blob, offset + 8) == Ok(r.info.numDimensions, offset + 12)
    ensures ReadU32(blob, offset + 12) == Ok(r.ignored, offset + 16)
    ensures ReadU32(blob, offset + 16) == Ok(r.dimsAt, offset + 20)
    ensures offset + 28 <= |blob|
  {
    assert offset + |r.Tail()| <= |blob|;
    hide At, ToLittleEndian, ReadU32;
    var a, b := ToLittleEndian(FromInt32(r.info.dataType), 4), ToLittleEndian(r.info.order, 4);
    var c, d, e := ToLittleEndian(r.info.numDimensions, 4), ToLittleEndian(r.ignored, 4), ToLittleEndian(r.dimsAt, 4);
    AtParts(blob, offset, a + b + c + d + e, r.strides);
    AtParts(blob, offset, a + b + c + d, e);
    AtParts(blob, offset, a + b + c, d);
    AtParts(blob, offset, a + b, c);
    AtParts(blob, offset, a, b);
    ReadsU32(blob, offset, FromInt32(r.info.dataType));
    ReadsU32(blob, offset + 4, r.info.order);
    ReadsU32(blob, offset + 8, r.info.numDimensions);
    ReadsU32(blob, offset + 12, r.ignored);
    ReadsU32(blob, offset + 16, r.dimsAt);
  }

  lemma ValidDims(r: Record)
    requires r.Valid()
    ensures DimsFit(r.info.dims) && r.info.numDimensions == |r.info.dims|
    ensures -INT_LIMIT <= r.info.dataType < INT_LIMIT && -INT_LIMIT <= r.info.offset < INT_LIMIT
  {
  }

  lemma TailReadsBack(blob: seq<byte>, offset: nat, constOffset: nat, r: Record)
    requires r.Valid() && |blob| < UINT_RANGE && At(blob, offset, r.Tail())
    requires At(blob, (constOffset + r.dimsAt) % UINT_RANGE, DimBytes(r.info.dims))
    ensures EntryBehindName(blob, offset, r.info.offset, r.info.name, constOffset) == Ok(r.info, offset + 28)
  {
    hide At, ReadU32, ReadFromBlob, LittleEndian, Dims, DimsFit, NoZero, DimBytes, Record.Tail, Record.Valid;
    ValidDims(r);
    TailFields(blob, offset, r);
    ReadsDims(blob, (constOffset + r.dimsAt) % UINT_RANGE, r.info.dims);
  }

  /** An entry laid out so is read as its tensor. */
  lemma EntryReadsBack(blob: seq<byte>, offset: nat, idx: nat, constOffset: nat, r: Record)
    requires r.Valid() && idx < UINT_RANGE && |blob| < UINT_RANGE && Placed(blob, offset, idx, constOffset, r)
    ensures Entry(blob, offset, idx, constOffset) == Ok(r.info, offset + r.Size())
  {
    hide At, ReadU32, Chars, UpToZero, NoZero, DimsFit, DimBytes, EntryBehindName, Record.Head, Record.Tail;
    HeadFields(blob, offset, idx, r);
    ReadsChars(blob, offset + 12, r.Name());
    PaddedNameEnds(r.info.name, r.padding);
    TailReadsBack(blob, offset + 12 + |r.Name()|, constOffset, r);
  }

  /** A header of twenty numbers laid out behind the ELF header reads back. */
  lemma HeaderReadsBack(blob: seq<byte>, fields: seq<nat>, k: nat)
    requires |fields| == 20 && DimsFit(fields) && k < 20 && 132 <= |blob| < UINT_RANGE
    requires At(blob, 52, DimBytes(fields))
    ensures Field(blob, k) == fields[k]
  {
    hide LittleEndian, ToLittleEndian, DimBytes;
    NumberAt(blob, 52, fields, k);
    ReadsU32(blob, 52 + 4 * k, fields[k]);
  }

  lemma {:induction false} NumberAt(blob: seq<byte>, offset: nat, numbers: seq<nat>, k: nat)
    requires k < |numbers| && At(blob, offset, DimBytes(numbers))
    ensures At(blob, offset + 4 * k, ToLittleEndian(numbers[k], 4))
    decreases |numbers|
  {
    hide At, ToLittleEndian;
    var n := |numbers| - 1;
    AtParts(blob, offset, DimBytes(numbers[..n]), ToLittleEndian(numbers[n], 4));
    if k < n {
      NumberAt(blob, offset, numbers[..n], k);
    }
  }

  predicate AllValid(records: seq<Record>) {
    forall i | 0 <= i < |records| :: records[i].Valid()
  }

  /** Records one after another, numbered from `idx`. */
  predicate AllPlaced(blob: seq<byte>, offset: nat, idx: nat, constOffset: nat, records: seq<Record>)
    requires AllValid(records)
    decreases |records|
  {
    records == [] || (Placed(blob, offset, idx, constOffset, records[0])
        && AllPlaced(blob, offset + records[0].Size(), idx + 1, constOffset, records[1..]))
  }

  function Collected(records: seq<Record>, table: Table): Table {
    if records == [] then table else Collected(records[1..], With(table, records[0].info))
  }

  lemma FirstPlaced(blob: seq<byte>, offset: nat, idx: nat, constOffset: nat, records: seq<Record>)
    requires AllValid(records) && AllPlaced(blob, offset, idx, constOffset, records) && records != []
    ensures records[0].Valid() && Placed(blob, offset, idx, constOffset, records[0])
    ensures AllValid(records[1..]) && AllPlaced(blob, offset + records[0].Size(), idx + 1, constOffset, records[1..])
    ensures forall t :: Collected(records, t) == Collected(records[1..], With(t, records[0].info))
  {
    hide Placed, With, Record.Valid, Record.Size;
  }

  lemma OneMoreEntry(blob: seq<byte>, offset: nat, idx: nat, count: nat, constOffset: nat, table: Table,
      io: TensorInfo, next: nat)
    requires idx < count && Entry(blob, offset, idx, constOffset) == Ok(io, next)
    ensures Entries(blob, offset, idx, count, constOffset, table)
            == Entries(blob, next, idx + 1, count, constOffset, With(table, io))
  {
    hide Entry, With;
  }

  lemma NoEntry(blob: seq<byte>, offset: nat, idx: nat, constOffset: nat, records: seq<Record>, table: Table)
    requires records == []
    ensures Entries(blob, offset, idx, idx, constOffset, table) == Ok(table, offset)
    ensures Collected(records, table) == table
  {
  }

  lemma {:induction false} EntriesReadBack(blob: seq<byte>, offset: nat, idx: nat, constOffset: nat,
      records: seq<Record>, table: Table)
    requires AllValid(records) && AllPlaced(blob, offset, idx, constOffset, records)
    requires |blob| < UINT_RANGE && idx + |records| < UINT_RANGE
    ensures Entries(blob, offset, idx, idx + |records|, constOffset, table).Ok?
    ensures Entries(blob, offset, idx, idx + |records|, constOffset, table).value == Collected(records, table)
    decreases |records|
  {
    hide *;
    if records == [] {
      NoEntry(blob, offset, idx, constOffset, records, table);
    } else {
      FirstPlaced(blob, offset, idx, constOffset, records);
      EntryReadsBack(blob, offset, idx, constOffset, records[0]);
      OneMoreEntry(blob, offset, idx, idx + |records|, constOffset, table, records[0].info, offset + records[0].Size());
      EntriesReadBack(blob, offset + records[0].Size(), idx + 1, constOffset, records[1..],
          With(table, records[0].info));
    }
  }

  /** The last record of a name that is kept, if there is one. */
  function LastOf(records: seq<Record>, name: seq<byte>): (k: int)
    ensures -1 <= k < |records|
    decreases |records|
  {
    if records == [] then -1
    else if records[|records| - 1].info.name == name then |records| - 1
    else LastOf(records[..|records| - 1], name)
  }

  lemma {:induction false} CollectedFromBack(records: seq<Record>, table: Table)
    requires records != []
    ensures Collected(records, table) == With(Collected(records[..|records| - 1], table), records[|records| - 1].info)
    decreases |records|
  {
    var n := |records| - 1;
    if n > 0 {
      CollectedFromBack(records[1..], With(table, records[0].info));
      assert records[..n][1..] == records[1..][..n - 1] && records[..n][0] == records[0];
    }
  }

  /** The tables hold a tensor exactly for the names that are no shape names,
      and of several tensors of one name the last. */
  lemma {:induction false} LastOneWins(records: seq<Record>, name: seq<byte>)
    ensures name in Collected(records, map[]) <==> !IsIOShapeName(name) && LastOf(records, name) >= 0
    ensures name in Collected(records, map[]) ==> Collected(records, map[])[name] == records[LastOf(records, name)].info
    decreases |records|
  {
    hide IsIOShapeName;
    if records != [] {
      CollectedFromBack(records, map[]);
      LastOneWins(records[..|records| - 1], name);
    }
  }

  /** Said of the records themselves: a tensor is found under its name, unless
      that has "@shape" in it, if no later one has the same name. */
  lemma CollectedExactly(records: seq<Record>, name: seq<byte>, info: TensorInfo)
    ensures SHAPE == [64, 115, 104, 97, 112, 101]
    ensures (name in Collected(records, map[]) && Collected(records, map[])[name] == info) <==>
              && !(exists before, behind :: name == before + SHAPE + behind)
              && (exists j :: 0 <= j < |records| && records[j].info == info && info.name == name
                              && forall l | j < l < |records| :: records[l].info.name != name)
  {
    ShapeNameMeans(name);
    LastOneWins(records, name);
    LastOfIs(records, name);
    hide Collected, LastOf, IsIOShapeName;
  }

  lemma {:induction false} LastOfIs(records: seq<Record>, name: seq<byte>)
    ensures var j := LastOf(records, name);
            && (j >= 0 ==> records[j].info.name == name)
            && (forall l | j < l < |records| :: records[l].info.name != name)
    decreases |records|
  {
    if records != [] && records[|records| - 1].info.name != name {
      LastOfIs(records[..|records| - 1], name);
    }
  }

  lemma FieldFits(blob: seq<byte>, k: nat)
    requires k < 20 && |blob| >= ELF_HEADER + BLOB_HEADER
    ensures Field(blob, k) < UINT_RANGE
  {
    hide LittleEndian;
    assert Pow256(4) == UINT_RANGE;
  }

  /** Parsing gives exactly the tensors that were laid out. */
  lemma TablesReadBack(blob: seq<byte>, inputs: seq<Record>, outputs: seq<Record>)
    requires Acceptable(blob) && |blob| < UINT_RANGE
    requires AllValid(inputs) && AllValid(outputs)
    requires Field(blob, 4) == |inputs| && AllPlaced(blob, Field(blob, 16), 0, Field(blob, 19), inputs)
    requires Field(blob, 5) == |outputs| && AllPlaced(blob, Field(blob, 17), 0, Field(blob, 19), outputs)
    ensures Inputs(blob, map[]).Ok? && Inputs(blob, map[]).value == Collected(inputs, map[])
    ensures Outputs(blob, map[]).Ok? && Outputs(blob, map[]).value == Collected(outputs, map[])
  {
    FieldFits(blob, 4);
    FieldFits(blob, 5);
    hide AllPlaced, Entries, Field, AllValid, Collected;
    EntriesReadBack(blob, Field(blob, 16), 0, Field(blob, 19), inputs, map[]);
    EntriesReadBack(blob, Field(blob, 17), 0, Field(blob, 19), outputs, map[]);
  }
}
