/** Superblobs: one network blob and sixteen patches in one buffer, behind a
    header of big-endian sizes. */
module OpenVINO {
  import Bits
  import Bspatch
  import opened Bytes
  import opened Optional

  // ----- big-endian integers on either host -----

  lemma {:induction false} ShiftsAreBytes(n: nat)
    ensures Bits.Pow2(8 * n) == Pow256(n)
  {
    if n > 0 {
      ShiftsAreBytes(n - 1);
      Bits.FourMore(8 * n - 8);
      Bits.FourMore(8 * n - 4);
    }
  }

  lemma ShiftIn(high: nat, b: byte, n: nat)
    ensures Bits.Or(high * Pow256(n + 1), b * Bits.Pow2(8 * n)) == (256 * high + b) * Pow256(n)
  {
    hide Bits.Or, Bits.Pow2;
    ShiftsAreBytes(n);
    ShiftsAreBytes(n + 1);
    var p := Pow256(n);
    Multiple(high, Pow256(n + 1));
    Below(b, p);
    Bits.OrDisjoint(high * Pow256(n + 1), b * p, 8 * (n + 1));
    Regroup(high, b, p);
  }

  lemma Multiple(q: nat, d: nat)
    requires d > 0
    ensures q * d % d == 0
  {
    Bits.Remainder(q * d, d, q, 0);
  }

  lemma Below(b: byte, p: nat)
    requires p > 0
    ensures b * p < 256 * p
  {
  }

  lemma Regroup(high: nat, b: byte, p: nat)
    ensures high * (256 * p) + b * p == (256 * high + b) * p
  {
  }

  /** Flips the bytes of `value` unless the host is big-endian already. */
  method BigEndianToHost(value: nat, hostIsBigEndian: bool) returns (result: nat)
    requires value < Pow256(8)
    ensures result == if hostIsBigEndian then value else BigEndian(ToLittleEndian(value, 8))
  {
    hide Pow256, Bits.Pow2, Bits.And, Bits.Or, LittleEndian, BigEndian;
    if hostIsBigEndian { return value; }
    result := 0;
    var rest := value;
    ghost var flipped := ToLittleEndian(value, 8);
    NoBytes(flipped[..0], Pow256(8));
    for i := 0 to 8
      invariant flipped[i..] == ToLittleEndian(rest, 8 - i)
      invariant result == BigEndian(flipped[..i]) * Pow256(8 - i)
    {
      Bits.AndLowMask(rest, 8);
      assert Bits.Pow2(8) == 256 by { ShiftsAreBytes(1); OneByte(); }
      assert flipped[i..][0] == rest % 256;
      ShiftIn(BigEndian(flipped[..i]), flipped[i], 7 - i);
      OneMore(flipped, i);
      result := Bits.Or(result, Bits.And(rest, 0xFF) * Bits.Pow2(8 * (8 - i - 1)));
      rest := rest / 256;
      assert flipped[i..][1..] == flipped[i + 1..];
    }
    assert flipped[..8] == flipped;
    OneByte();
  }

  lemma OneByte()
    ensures Pow256(0) == 1 && Pow256(1) == 256
  {
  }

  lemma NoBytes(b: seq<byte>, p: nat)
    requires b == []
    ensures BigEndian(b) * p == 0
  {
  }

  lemma OneMore(b: seq<byte>, i: nat)
    requires i < |b|
    ensures BigEndian(b[..i + 1]) == 256 * BigEndian(b[..i]) + b[i]
  {
    assert b[..i + 1][..i] == b[..i];
  }

  /** The 8 bytes at `at` as the host's own 64-bit integer. */
  function HostInteger(data: seq<byte>, at: nat, hostIsBigEndian: bool): nat
    requires at + 8 <= |data|
  {
    if hostIsBigEndian then BigEndian(data[at..at + 8]) else LittleEndian(data[at..at + 8])
  }

  /** Reads a big-endian number, whichever way round the host keeps its own. */
  method ReadInt64(data: seq<byte>, at: nat, hostIsBigEndian: bool) returns (value: nat)
    requires at + 8 <= |data|
    ensures value == BigEndian(data[at..at + 8])
  {
    LittleEndianIsUnique(data[at..at + 8]);
    value := BigEndianToHost(HostInteger(data, at, hostIsBigEndian), hostIsBigEndian);
  }

  // ----- integer widths -----

  const UINT64_RANGE := 0x1_0000_0000_0000_0000
  const INT64_LIMIT := 0x8000_0000_0000_0000
  const INT_LIMIT := 0x8000_0000

  function AsInt64(x: nat): int {
    if x < INT64_LIMIT then x else x - UINT64_RANGE
  }

  /** Sixty-four bits, read as a signed number. */
  lemma AsInt64IsSigned(x: nat)
    requires x < UINT64_RANGE
    ensures -INT64_LIMIT <= AsInt64(x) < INT64_LIMIT && AsInt64(x) % UINT64_RANGE == x
  {
  }

  /** `std::accumulate` from an `int` 0: every partial sum is narrowed to `int`. */
  function Accumulate(sizes: seq<int>): int {
    if sizes == [] then 0 else AsInt(Accumulate(sizes[..|sizes| - 1]) + sizes[|sizes| - 1])
  }

  function Sum(sizes: seq<int>): int {
    if sizes == [] then 0 else Sum(sizes[..|sizes| - 1]) + sizes[|sizes| - 1]
  }

  lemma {:induction false} AccumulateWrapsTheSum(sizes: seq<int>)
    ensures Accumulate(sizes) == AsInt(Sum(sizes))
  {
    if sizes != [] {
      AccumulateWrapsTheSum(sizes[..|sizes| - 1]);
    }
  }

  lemma {:induction false} SumIsNatural(sizes: seq<int>, k: nat)
    requires k <= |sizes| && forall i | 0 <= i < |sizes| :: sizes[i] >= 0
    ensures 0 <= Sum(sizes[..k]) <= Sum(sizes)
    decreases |sizes|
  {
    if k == |sizes| {
      assert sizes[..k] == sizes;
      if k > 0 {
        SumIsNatural(sizes[..k - 1], k - 1);
        assert sizes[..k - 1][..k - 1] == sizes[..k - 1];
      }
    } else {
      SumIsNatural(sizes[..|sizes| - 1], k);
      assert sizes[..|sizes| - 1][..k] == sizes[..k];
    }
  }

  /** The narrow accumulator is right exactly below 2 GiB. */
  lemma AccumulateIsRightBelow2GiB(sizes: seq<int>)
    requires forall i | 0 <= i < |sizes| :: sizes[i] >= 0
    ensures Accumulate(sizes) == Sum(sizes) <==> Sum(sizes) < INT_LIMIT
    ensures Sum(sizes) < INT_LIMIT ==> forall k | 0 <= k <= |sizes| :: Accumulate(sizes[..k]) == Sum(sizes[..k])
  {
    hide Sum, Accumulate;
    AccumulateWrapsTheSum(sizes);
    SumIsNatural(sizes, |sizes|);
    assert sizes[..|sizes|] == sizes;
    if Sum(sizes) < INT_LIMIT {
      forall k | 0 <= k <= |sizes|
        ensures Accumulate(sizes[..k]) == Sum(sizes[..k])
      {
        SumIsNatural(sizes, k);
        AccumulateWrapsTheSum(sizes[..k]);
      }
    }
  }

  // ----- the container -----

  const NUMBER_OF_PATCHES := 16
  const HEADER_SIZE := 136

  /** "BSDIFF" */
  const PATCH_MAGIC: seq<byte> := [66, 83, 68, 73, 70, 70]

  datatype SuperBlobHeader = SuperBlobHeader(blobSize: int, patchSizes: seq<int>)

  datatype Outcome = Success | InvalidArgument
  datatype BlobResult = Blob(bytes: seq<byte>) | OutOfRange | LengthError

  function HeaderOf(data: seq<byte>): (h: SuperBlobHeader)
    requires |data| >= HEADER_SIZE
    ensures |h.patchSizes| == NUMBER_OF_PATCHES
  {
    SuperBlobHeader(AsInt64(BigEndian(data[0..8])),
                    seq(NUMBER_OF_PATCHES,
                        i requires 0 <= i < NUMBER_OF_PATCHES => AsInt64(BigEndian(data[8 + 8 * i..16 + 8 * i]))))
  }

  method FromData(data: seq<byte>, hostIsBigEndian: bool) returns (header: SuperBlobHeader)
    requires |data| >= HEADER_SIZE
    ensures header == HeaderOf(data)
  {
    hide BigEndian, AsInt64;
    var size := ReadInt64(data, 0, hostIsBigEndian);
    header := SuperBlobHeader(AsInt64(size), []);
    var at := 8;
    for i := 0 to NUMBER_OF_PATCHES
      invariant at == 8 + 8 * i && |header.patchSizes| == i && header.blobSize == HeaderOf(data).blobSize
      invariant forall k | 0 <= k < i :: header.patchSizes[k] == HeaderOf(data).patchSizes[k]
    {
      size := ReadInt64(data, at, hostIsBigEndian);
      header := header.(patchSizes := header.patchSizes + [AsInt64(size)]);
      at := at + 8;
    }
    assert header.patchSizes == HeaderOf(data).patchSizes;
  }

  /** Where patch `k` starts, as an unsigned 64-bit offset. */
  function PatchOffset(h: SuperBlobHeader, k: int): (offset: int)
    requires |h.patchSizes| == NUMBER_OF_PATCHES && 1 <= k <= NUMBER_OF_PATCHES
    ensures 0 <= offset < UINT64_RANGE
  {
    (HEADER_SIZE + h.blobSize + Accumulate(h.patchSizes[..k - 1])) % UINT64_RANGE
  }

  function ExpectedSize(h: SuperBlobHeader): int {
    (HEADER_SIZE + h.blobSize + Accumulate(h.patchSizes)) % UINT64_RANGE
  }

  /** The first bytes of every patch lie inside the buffer. */
  predicate PatchesReadable(data: seq<byte>)
    requires |data| >= HEADER_SIZE
  {
    var h := HeaderOf(data);
    forall k | 1 <= k <= NUMBER_OF_PATCHES && h.patchSizes[k - 1] != 0 :: PatchOffset(h, k) + |PATCH_MAGIC| <= |data|
  }

  predicate PatchMarked(data: seq<byte>, k: int)
    requires |data| >= HEADER_SIZE && PatchesReadable(data) && 1 <= k <= NUMBER_OF_PATCHES
  {
    var h := HeaderOf(data);
    h.patchSizes[k - 1] == 0 || data[PatchOffset(h, k)..PatchOffset(h, k) + |PATCH_MAGIC|] == PATCH_MAGIC
  }

  /** What the constructor accepts. */
  predicate WellFormed(data: seq<byte>)
    requires SafeToCheck(data)
  {
    && |data| >= HEADER_SIZE && ExpectedSize(HeaderOf(data)) == |data|
    && forall k | 1 <= k <= NUMBER_OF_PATCHES :: PatchMarked(data, k)
  }

  /** The buffer holds the first bytes of every patch its header speaks of, if
      the sizes add up. */
  predicate SafeToCheck(data: seq<byte>) {
    |data| >= HEADER_SIZE && ExpectedSize(HeaderOf(data)) == |data| ==> PatchesReadable(data)
  }

  predicate BlobInside(data: seq<byte>)
    requires |data| >= HEADER_SIZE
  {
    0 <= HeaderOf(data).blobSize && HEADER_SIZE + HeaderOf(data).blobSize <= |data|
  }

  predicate PatchInside(data: seq<byte>, k: int)
    requires |data| >= HEADER_SIZE && 1 <= k <= NUMBER_OF_PATCHES
  {
    var h := HeaderOf(data);
    0 <= h.patchSizes[k - 1] && PatchOffset(h, k) + h.patchSizes[k - 1] <= |data|
  }

  function BlobOf(data: seq<byte>): seq<byte>
    requires |data| >= HEADER_SIZE && BlobInside(data)
  {
    data[HEADER_SIZE..HEADER_SIZE + HeaderOf(data).blobSize]
  }

  function PatchOf(data: seq<byte>, k: int): seq<byte>
    requires |data| >= HEADER_SIZE && 1 <= k <= NUMBER_OF_PATCHES && PatchInside(data, k)
  {
    var h := HeaderOf(data);
    data[PatchOffset(h, k)..PatchOffset(h, k) + h.patchSizes[k - 1]]
  }

  /** Data is accepted if its size is the announced one and every patch that is
      not empty begins with "BSDIFF". */
  lemma WellFormedMeans(data: seq<byte>)
    requires SafeToCheck(data)
    ensures WellFormed(data) <==>
              && |data| >= 136
              && (136 + HeaderOf(data).blobSize + Accumulate(HeaderOf(data).patchSizes)) % UINT64_RANGE == |data|
              && (forall k | 1 <= k <= 16 && HeaderOf(data).patchSizes[k - 1] != 0 ::
                    PatchOffset(HeaderOf(data), k) + 6 <= |data|
                    && data[PatchOffset(HeaderOf(data), k)..PatchOffset(HeaderOf(data), k) + 6]
                       == [66, 83, 68, 73, 70, 70])
  {
    hide HeaderOf, Accumulate, PatchOffset;
    if WellFormed(data) {
      forall k | 1 <= k <= 16 && HeaderOf(data).patchSizes[k - 1] != 0
        ensures PatchOffset(HeaderOf(data), k) + 6 <= |data|
        ensures data[PatchOffset(HeaderOf(data), k)..PatchOffset(HeaderOf(data), k) + 6] == [66, 83, 68, 73, 70, 70]
      {
        assert PatchMarked(data, k);
      }
    }
  }

  class SuperBlob {
    var header: SuperBlobHeader
    var data: seq<byte>

    /** The header in hand is the one the data begins with. */
    predicate Loaded()
      reads this
    {
      |data| >= HEADER_SIZE && header == HeaderOf(data)
    }

    constructor (data: seq<byte>)
      ensures this.data == data
    {
      this.data := data;
      this.header := SuperBlobHeader(0, []);
    }

    method LoadAndCheckHeader(hostIsBigEndian: bool) returns (outcome: Outcome)
      modifies this`header
      ensures outcome == if |data| < HEADER_SIZE then InvalidArgument else Success
      ensures if outcome == Success then Loaded() else header == old(header)
    {
      if |data| < HEADER_SIZE { return InvalidArgument; }
      header := FromData(data, hostIsBigEndian);
      return Success;
    }

    method ValidateSuperblob() returns (outcome: Outcome)
      requires Loaded() && SafeToCheck(data)
      ensures outcome == if WellFormed(data) then Success else InvalidArgument
    {
      hide HeaderOf, Accumulate, PatchOffset;
      if ExpectedSize(header) != |data| { return InvalidArgument; }
      for numShaves := 1 to NUMBER_OF_PATCHES + 1
        invariant forall k | 1 <= k < numShaves :: PatchMarked(data, k)
      {
        if header.patchSizes[numShaves - 1] != 0 {
          var at := PatchOffset(header, numShaves);
          if data[at..at + |PATCH_MAGIC|] != PATCH_MAGIC {
            assert !PatchMarked(data, numShaves);
            return InvalidArgument;
          }
        }
      }
      return Success;
    }

    /** What `getBlobWithNumShaves` relies on unchecked: the blob and the patch
        lie inside the data, and the patch is one `bspatch_mem` can be given. */
    predicate CanPatch(unzip: seq<byte> -> Option<seq<byte>>, k: int)
      reads this
      requires Loaded() && 1 <= k <= NUMBER_OF_PATCHES
    {
      BlobInside(data) && PatchInside(data, k) && (PatchOf(data, k) != [] ==> Bspatch.Sane(unzip, PatchOf(data, k)))
    }

    method GetBlobWithNumShaves(unzip: seq<byte> -> Option<seq<byte>>, shrinksToNull: bool, numShaves: int)
        returns (result: BlobResult)
      requires Loaded() && (1 <= numShaves <= NUMBER_OF_PATCHES ==> CanPatch(unzip, numShaves))
      ensures result.OutOfRange? <==> numShaves < 1 || numShaves > NUMBER_OF_PATCHES
      ensures !result.OutOfRange? ==> result == BlobFrom(unzip, BlobOf(data), PatchOf(data, numShaves))
      ensures !result.OutOfRange? && header.patchSizes[numShaves - 1] == 0 ==>
                result == Blob(data[136..136 + header.blobSize])
    {
      if numShaves < 1 || numShaves > NUMBER_OF_PATCHES { return OutOfRange; }
      RegionsInside(unzip, numShaves);
      hide *;
      var blob := data[HEADER_SIZE..HEADER_SIZE + header.blobSize];
      var at := PatchOffset(header, numShaves);
      var patch := data[at..at + header.patchSizes[numShaves - 1]];
      if header.patchSizes[numShaves - 1] != 0 {
        result := PatchBlob(unzip, shrinksToNull, blob, patch);
      } else {
        NothingToPatch(unzip, blob);
        return Blob(blob);
      }
    }

    lemma RegionsInside(unzip: seq<byte> -> Option<seq<byte>>, k: int)
      requires Loaded() && 1 <= k <= NUMBER_OF_PATCHES && CanPatch(unzip, k)
      ensures |data| >= HEADER_SIZE && |header.patchSizes| == NUMBER_OF_PATCHES
      ensures BlobInside(data) && PatchInside(data, k)
      ensures 0 <= header.blobSize && HEADER_SIZE + header.blobSize <= |data|
      ensures BlobOf(data) == data[HEADER_SIZE..HEADER_SIZE + header.blobSize]
      ensures 0 <= header.patchSizes[k - 1] && PatchOffset(header, k) + header.patchSizes[k - 1] <= |data|
      ensures PatchOf(data, k) == data[PatchOffset(header, k)..PatchOffset(header, k) + header.patchSizes[k - 1]]
      ensures PatchOf(data, k) != [] ==> Bspatch.Sane(unzip, PatchOf(data, k))
    {
    }
  }

  /** Patches into a new buffer of the announced size. */
  method PatchBlob(unzip: seq<byte> -> Option<seq<byte>>, shrinksToNull: bool, blob: seq<byte>,
      patch: seq<byte>) returns (result: BlobResult)
    requires patch != [] && Bspatch.Sane(unzip, patch)
    ensures result == BlobFrom(unzip, blob, patch)
    ensures Bspatch.GetNewsize(patch) < 0 ==> result == LengthError
    ensures Bspatch.GetNewsize(patch) >= 0 ==>
              var written := Bspatch.Attempt(unzip, blob, patch).bytes;
              && result.Blob? && |result.bytes| == Bspatch.GetNewsize(patch) && written <= result.bytes
              && forall i | |written| <= i < |result.bytes| :: result.bytes[i] == 0
  {
    hide Bspatch.Sane, Bspatch.Attempt, Bspatch.Overwritten, Zeros;
    var size := Bspatch.GetNewsize(patch);
    if size < 0 { return LengthError; }
    var patched := new byte[size](_ => 0);
    AllZero(patched[..], size);
    var error := Bspatch.BspatchMem(unzip, shrinksToNull, blob, patch, patched);
    ZerosOverwritten(size, Bspatch.Attempt(unzip, blob, patch).bytes, patched[..]);
    TailIsZero(Bspatch.Attempt(unzip, blob, patch).bytes, patched[..]);
    return Blob(patched[..]);
  }

  /** The blob that comes of a base blob and a patch: the base blob itself if
      the patch is empty, else as much as the patch gets to write, in a buffer
      of the announced size, because the result of `bspatch_mem` is not looked at. */
  function BlobFrom(unzip: seq<byte> -> Option<seq<byte>>, blob: seq<byte>, patch: seq<byte>): BlobResult
    requires patch != [] ==> Bspatch.Sane(unzip, patch)
  {
    if patch == [] then Blob(blob)
    else if Bspatch.GetNewsize(patch) < 0 then LengthError
    else
      var written := Bspatch.Attempt(unzip, blob, patch).bytes;
      Blob(written + Zeros(Bspatch.GetNewsize(patch) - |written|))
  }

  lemma NothingToPatch(unzip: seq<byte> -> Option<seq<byte>>, blob: seq<byte>)
    ensures BlobFrom(unzip, blob, []) == Blob(blob)
  {
  }

  lemma AllZero(b: seq<byte>, n: nat)
    requires |b| == n && forall i | 0 <= i < n :: b[i] == 0
    ensures b == Zeros(n)
  {
  }

  lemma TailIsZero(bytes: seq<byte>, now: seq<byte>)
    requires |bytes| <= |now| && now == bytes + Zeros(|now| - |bytes|)
    ensures bytes <= now && forall i | |bytes| <= i < |now| :: now[i] == 0
  {
  }

  lemma ZerosOverwritten(size: nat, bytes: seq<byte>, now: seq<byte>)
    requires Bspatch.Overwritten(Zeros(size), bytes, now)
    ensures |bytes| <= size && now == bytes + Zeros(size - |bytes|)
  {
    assert now == now[..|bytes|] + now[|bytes|..];
    assert now[|bytes|..] == Zeros(size - |bytes|);
  }

  /** The constructor: copy the data, read the header, check everything. */
  method Open(data: seq<byte>, hostIsBigEndian: bool) returns (blob: SuperBlob, outcome: Outcome)
    requires SafeToCheck(data)
    ensures fresh(blob) && blob.data == data
    ensures outcome == if WellFormed(data) then Success else InvalidArgument
    ensures outcome == Success ==> blob.Loaded()
  {
    blob := new SuperBlob(data);
    outcome := blob.LoadAndCheckHeader(hostIsBigEndian);
    if outcome == Success {
      outcome := blob.ValidateSuperblob();
    }
  }

  // ----- making a superblob -----

  function Lengths(parts: seq<seq<byte>>): (sizes: seq<int>)
    ensures |sizes| == |parts| && forall i | 0 <= i < |parts| :: sizes[i] == |parts[i]|
  {
    seq(|parts|, i requires 0 <= i < |parts| => |parts[i]|)
  }

  function Joined(parts: seq<seq<byte>>): (b: seq<byte>)
    ensures |b| == Sum(Lengths(parts))
    decreases |parts|
  {
    if parts == [] then []
    else
      assert Lengths(parts)[..|parts| - 1] == Lengths(parts[..|parts| - 1]);
      Joined(parts[..|parts| - 1]) + parts[|parts| - 1]
  }

  lemma {:induction false} JoinedParts(parts: seq<seq<byte>>, k: nat)
    requires k < |parts|
    ensures 0 <= Sum(Lengths(parts)[..k]) && Sum(Lengths(parts)[..k]) + |parts[k]| <= |Joined(parts)|
    ensures Joined(parts)[Sum(Lengths(parts)[..k])..Sum(Lengths(parts)[..k]) + |parts[k]|] == parts[k]
    decreases |parts|
  {
    hide Sum;
    var n := |parts| - 1;
    assert Lengths(parts)[..n] == Lengths(parts[..n]);
    assert Joined(parts) == Joined(parts[..n]) + parts[n];
    if k < n {
      JoinedParts(parts[..n], k);
      var at, e := Sum(Lengths(parts)[..k]), Sum(Lengths(parts)[..k]) + |parts[k]|;
      assert Lengths(parts)[..n][..k] == Lengths(parts)[..k];
      assert Joined(parts)[at..e] == Joined(parts[..n])[at..e];
    } else {
      SumIsNatural(Lengths(parts), n);
      assert Joined(parts)[|Joined(parts[..n])|..] == parts[n];
    }
  }

  function EncodedSizes(sizes: seq<int>): (b: seq<byte>)
    requires forall i | 0 <= i < |sizes| :: 0 <= sizes[i]
    ensures |b| == 8 * |sizes|
    decreases |sizes|
  {
    if sizes == [] then [] else EncodedSizes(sizes[..|sizes| - 1]) + ToBigEndian(sizes[|sizes| - 1], 8)
  }

  lemma {:induction false} EncodedSizeAt(sizes: seq<int>, i: nat)
    requires i < |sizes| && forall k | 0 <= k < |sizes| :: 0 <= sizes[k]
    ensures EncodedSizes(sizes)[8 * i..8 * i + 8] == ToBigEndian(sizes[i], 8)
    decreases |sizes|
  {
    var n := |sizes| - 1;
    var b, before := EncodedSizes(sizes), EncodedSizes(sizes[..n]);
    assert b == before + ToBigEndian(sizes[n], 8);
    hide EncodedSizes, ToBigEndian;
    if i < n {
      EncodedSizeAt(sizes[..n], i);
      assert b[8 * i..8 * i + 8] == before[8 * i..8 * i + 8];
      assert sizes[..n][i] == sizes[i];
    } else {
      assert b[8 * i..8 * i + 8] == ToBigEndian(sizes[n], 8);
    }
  }

  /** A blob and sixteen patches, each of them empty or marked. */
  predicate Packable(blob: seq<byte>, patches: seq<seq<byte>>) {
    && |patches| == NUMBER_OF_PATCHES && |blob| + Sum(Lengths(patches)) + HEADER_SIZE < INT64_LIMIT
    && forall i | 0 <= i < |patches| :: patches[i] == [] || PATCH_MAGIC <= patches[i]
  }

  function Packed(blob: seq<byte>, patches: seq<seq<byte>>): (data: seq<byte>) {
    EncodedSizes([|blob|] + Lengths(patches)) + blob + Joined(patches)
  }

  // ----- what a superblob holds -----

  /** All sizes are natural and the patches stay below 2 GiB. */
  predicate Moderate(h: SuperBlobHeader) {
    && |h.patchSizes| == NUMBER_OF_PATCHES && 0 <= h.blobSize < INT64_LIMIT
    && (forall i | 0 <= i < |h.patchSizes| :: h.patchSizes[i] >= 0)
    && Sum(h.patchSizes) < INT_LIMIT
  }

  lemma PatchOffsetIs(h: SuperBlobHeader, k: int)
    requires Moderate(h) && 1 <= k <= NUMBER_OF_PATCHES
    ensures PatchOffset(h, k) == HEADER_SIZE + h.blobSize + Sum(h.patchSizes[..k - 1])
  {
    hide Sum, Accumulate;
    AccumulateIsRightBelow2GiB(h.patchSizes);
    SumIsNatural(h.patchSizes, k - 1);
  }

  lemma SumGrows(sizes: seq<int>, k: nat)
    requires k < |sizes|
    ensures Sum(sizes[..k + 1]) == Sum(sizes[..k]) + sizes[k]
  {
    assert sizes[..k + 1][..k] == sizes[..k];
  }

  /** The header, the blob and the patches in order tile an accepted buffer. */
  lemma RegionsTile(data: seq<byte>)
    requires SafeToCheck(data) && WellFormed(data) && Moderate(HeaderOf(data))
    ensures var h := HeaderOf(data);
            && PatchOffset(h, 1) == HEADER_SIZE + h.blobSize
            && (forall k | 1 <= k < NUMBER_OF_PATCHES ::
                PatchOffset(h, k + 1) == PatchOffset(h, k) + h.patchSizes[k - 1])
            && PatchOffset(h, NUMBER_OF_PATCHES) + h.patchSizes[NUMBER_OF_PATCHES - 1] == |data|
    ensures BlobInside(data) && forall k | 1 <= k <= NUMBER_OF_PATCHES :: PatchInside(data, k)
  {
    hide HeaderOf, Sum, Accumulate, PatchOffset, PatchMarked;
    var h := HeaderOf(data);
    AccumulateIsRightBelow2GiB(h.patchSizes);
    SumIsNatural(h.patchSizes, 0);
    assert |data| == HEADER_SIZE + h.blobSize + Sum(h.patchSizes);
    assert h.patchSizes[..NUMBER_OF_PATCHES] == h.patchSizes && h.patchSizes[..0] == [];
    assert Sum([]) == 0 by { SumOfNone(); }
    forall k | 1 <= k <= NUMBER_OF_PATCHES
      ensures PatchOffset(h, k) == HEADER_SIZE + h.blobSize + Sum(h.patchSizes[..k - 1])
      ensures PatchOffset(h, k) + h.patchSizes[k - 1] == HEADER_SIZE + h.blobSize + Sum(h.patchSizes[..k])
      ensures PatchInside(data, k)
    {
      PatchOffsetIs(h, k);
      SumGrows(h.patchSizes, k - 1);
      SumIsNatural(h.patchSizes, k);
    }
    forall k | 1 <= k < NUMBER_OF_PATCHES
      ensures PatchOffset(h, k + 1) == PatchOffset(h, k) + h.patchSizes[k - 1]
    {
      assert k == (k + 1) - 1;
    }
  }

  lemma SumOfNone()
    ensures Sum([]) == 0
  {
  }

  lemma PackedHeader(blob: seq<byte>, patches: seq<seq<byte>>)
    requires Packable(blob, patches)
    ensures |Packed(blob, patches)| == HEADER_SIZE + |blob| + Sum(Lengths(patches))
    ensures HeaderOf(Packed(blob, patches)) == SuperBlobHeader(|blob|, Lengths(patches))
  {
    hide Sum, EncodedSizes, BigEndian, ToBigEndian, Lengths, Joined;
    var data, sizes := Packed(blob, patches), [|blob|] + Lengths(patches);
    var lengths := Lengths(patches);
    assert |data| == HEADER_SIZE + |blob| + Sum(lengths);
    SumIsNatural(lengths, 0);
    forall i | 0 <= i < 17
      ensures AsInt64(BigEndian(data[8 * i..8 * i + 8])) == sizes[i]
    {
      EncodedSizeAt(sizes, i);
      assert data[8 * i..8 * i + 8] == EncodedSizes(sizes)[8 * i..8 * i + 8];
      if i > 0 {
        PartBelowSum(lengths, i - 1);
      }
      EightBytes();
      BigEndianReadsBack(sizes[i], 8);
    }
    var h := HeaderOf(data);
    forall i | 0 <= i < NUMBER_OF_PATCHES
      ensures h.patchSizes[i] == lengths[i]
    {
      assert sizes[i + 1] == lengths[i] && 8 + 8 * i == 8 * (i + 1);
    }
    assert h.patchSizes == lengths;
    assert h.blobSize == sizes[0];
  }

  lemma EightBytes()
    ensures Pow256(8) == UINT64_RANGE
  {
    assert Pow256(4) == 0x1_0000_0000;
    assert Pow256(8) == 256 * 256 * 256 * 256 * Pow256(4);
  }

  lemma PartBelowSum(sizes: seq<int>, i: nat)
    requires i < |sizes| && forall k | 0 <= k < |sizes| :: sizes[k] >= 0
    ensures sizes[i] <= Sum(sizes)
  {
    SumGrows(sizes, i);
    SumIsNatural(sizes, i);
    SumIsNatural(sizes, i + 1);
    SumIsNatural(sizes[..i + 1], i);
    assert sizes[..i + 1][..i] == sizes[..i];
  }

  /** A packed superblob opens exactly if its patches total less than 2 GiB. */
  lemma OpensExactlyBelow2GiB(blob: seq<byte>, patches: seq<seq<byte>>)
    requires Packable(blob, patches)
    ensures SafeToCheck(Packed(blob, patches))
    ensures WellFormed(Packed(blob, patches)) <==> Sum(Lengths(patches)) < INT_LIMIT
  {
    hide HeaderOf, Sum, Accumulate, Packed, Lengths, PatchOffset;
    var data, sizes := Packed(blob, patches), Lengths(patches);
    PackedHeader(blob, patches);
    SumIsNatural(sizes, 0);
    AccumulateIsRightBelow2GiB(sizes);
    AccumulateWrapsTheSum(sizes);
    if Sum(sizes) < INT_LIMIT {
      forall k | 1 <= k <= NUMBER_OF_PATCHES && sizes[k - 1] != 0
        ensures PatchOffset(HeaderOf(data), k) + |PATCH_MAGIC| <= |data|
        ensures data[PatchOffset(HeaderOf(data), k)..PatchOffset(HeaderOf(data), k) + |PATCH_MAGIC|] == PATCH_MAGIC
      {
        PackedPatch(blob, patches, k);
        var at := PatchOffset(HeaderOf(data), k);
        assert data[at..at + |PATCH_MAGIC|] == data[at..at + |patches[k - 1]|][..|PATCH_MAGIC|];
      }
      assert PatchesReadable(data);
    }
  }

  /** Reading back gives the blob and every patch that was packed. */
  lemma PackedPatch(blob: seq<byte>, patches: seq<seq<byte>>, k: int)
    requires Packable(blob, patches) && Sum(Lengths(patches)) < INT_LIMIT && 1 <= k <= NUMBER_OF_PATCHES
    ensures var data := Packed(blob, patches);
            && |data| >= HEADER_SIZE && BlobInside(data) && BlobOf(data) == blob && PatchInside(data, k)
            && PatchOf(data, k) == patches[k - 1]
  {
    hide HeaderOf, Sum, Accumulate, Joined, EncodedSizes, PatchOffset;
    var data, sizes := Packed(blob, patches), Lengths(patches);
    PackedHeader(blob, patches);
    SumIsNatural(sizes, 0);
    var h := HeaderOf(data);
    PatchOffsetIs(h, k);
    JoinedParts(patches, k - 1);
    assert data[HEADER_SIZE..HEADER_SIZE + |blob|] == blob;
    var at, start := PatchOffset(h, k), Sum(sizes[..k - 1]);
    assert data[HEADER_SIZE + |blob|..] == Joined(patches);
    assert data[at..at + |patches[k - 1]|] == Joined(patches)[start..start + |patches[k - 1]|];
  }

  /** A superblob packed with an empty patch gives the base blob. */
  lemma EmptyPatchGivesBaseBlob(unzip: seq<byte> -> Option<seq<byte>>, blob: seq<byte>, patches: seq<seq<byte>>, k: int)
    requires Packable(blob, patches) && Sum(Lengths(patches)) < INT_LIMIT && 1 <= k <= NUMBER_OF_PATCHES
    requires patches[k - 1] == []
    ensures SafeToCheck(Packed(blob, patches)) && WellFormed(Packed(blob, patches))
    ensures BlobInside(Packed(blob, patches)) && PatchInside(Packed(blob, patches), k)
    ensures HeaderOf(Packed(blob, patches)).patchSizes[k - 1] == 0 && PatchOf(Packed(blob, patches), k) == []
    ensures BlobFrom(unzip, BlobOf(Packed(blob, patches)), PatchOf(Packed(blob, patches), k)) == Blob(blob)
  {
    hide Packed, Sum, HeaderOf;
    OpensExactlyBelow2GiB(blob, patches);
    PackedPatch(blob, patches, k);
    PackedHeader(blob, patches);
  }

  /** A superblob packed with the patch for `target` gives `target` exactly when
      the patch's blocks fit the room reserved for them; otherwise, because the
      error is not looked at, it gives as many zeros. */
  lemma TargetIsRebuilt(
    zip: seq<byte> -> seq<byte>, unzip: seq<byte> -> Option<seq<byte>>, blob: seq<byte>, patches: seq<seq<byte>>,
    k: int, target: seq<byte>, script: seq<Bspatch.Edit>)
    requires Packable(blob, patches) && Sum(Lengths(patches)) < INT_LIMIT && 1 <= k <= NUMBER_OF_PATCHES
    requires Bspatch.Packable(zip, blob, target, script) && Bspatch.Unzips(zip, unzip, blob, target, script)
    requires patches[k - 1] == Bspatch.PatchFile(zip, blob, target, script)
    ensures SafeToCheck(Packed(blob, patches)) && WellFormed(Packed(blob, patches))
    ensures BlobInside(Packed(blob, patches)) && PatchInside(Packed(blob, patches), k)
    ensures Bspatch.Sane(unzip, PatchOf(Packed(blob, patches), k))
    ensures BlobFrom(unzip, BlobOf(Packed(blob, patches)), PatchOf(Packed(blob, patches), k))
            == Blob(if Bspatch.BlocksFit(blob, target, script) then target else Zeros(|target|))
  {
    hide Packed, Bspatch.PatchFile, Bspatch.Attempt, Bspatch.Sane, Bspatch.GetNewsize, Bspatch.BlocksFit, Sum, HeaderOf;
    hide Bspatch.Unzips, Bspatch.Packable, Bspatch.HasHeader, Zeros;
    OpensExactlyBelow2GiB(blob, patches);
    PackedPatch(blob, patches, k);
    Bspatch.PatchFileWorks(zip, unzip, blob, target, script);
    Bspatch.NoHeaderInNothing([]);
    NoZeros();
    assert target + [] == target && [] + Zeros(|target|) == Zeros(|target|);
  }

  lemma NoZeros()
    ensures Zeros(0) == []
  {
  }

  /** Below 1 GiB the number of edits decides. */
  lemma TargetIsRebuiltBelow1GiB(
    zip: seq<byte> -> seq<byte>, unzip: seq<byte> -> Option<seq<byte>>, blob: seq<byte>, patches: seq<seq<byte>>,
    k: int, target: seq<byte>, script: seq<Bspatch.Edit>)
    requires Packable(blob, patches) && Sum(Lengths(patches)) < INT_LIMIT && 1 <= k <= NUMBER_OF_PATCHES
    requires Bspatch.Packable(zip, blob, target, script) && Bspatch.Unzips(zip, unzip, blob, target, script)
    requires patches[k - 1] == Bspatch.PatchFile(zip, blob, target, script) && |target| < 0x4000_0000
    ensures SafeToCheck(Packed(blob, patches)) && WellFormed(Packed(blob, patches))
    ensures BlobInside(Packed(blob, patches)) && PatchInside(Packed(blob, patches), k)
    ensures Bspatch.Sane(unzip, PatchOf(Packed(blob, patches), k))
    ensures BlobFrom(unzip, BlobOf(Packed(blob, patches)), PatchOf(Packed(blob, patches), k))
            == Blob(if 6 * |script| <= |target| then target else Zeros(|target|))
  {
    Bspatch.EditsDecide(blob, target, script);
    hide *;
    TargetIsRebuilt(zip, unzip, blob, patches, k, target, script);
  }
}
