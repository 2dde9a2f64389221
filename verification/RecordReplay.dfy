/** Cutting an H.264 byte stream into NAL units and writing them as one
    length-prefixed sample. */
module RecordReplay {
  import opened Bytes
  import opened Optional

  // ----- start codes -----

  predicate CodeAt(d: seq<byte>, i: nat) {
    i + 3 < |d| && d[i] == 0 && d[i + 1] == 0 && (d[i + 2] == 1 || (d[i + 2] == 0 && d[i + 3] == 1))
  }

  function CodeLength(d: seq<byte>, i: nat): nat
    requires CodeAt(d, i)
  {
    if d[i + 2] == 1 then 3 else 4
  }

  /** The first start code at or after `from`, or the end of the data. */
  function FirstCode(d: seq<byte>, from: nat): (p: nat)
    requires from <= |d|
    ensures from <= p <= |d| && (p == |d| || CodeAt(d, p))
    ensures forall i | from <= i < p :: !CodeAt(d, i)
    decreases |d| - from
  {
    if from == |d| || CodeAt(d, from) then from else FirstCode(d, from + 1)
  }

  lemma {:induction false} FirstCodeIs(d: seq<byte>, from: nat, p: nat)
    requires from <= p <= |d| && (p == |d| || CodeAt(d, p))
    requires forall i | from <= i < p :: !CodeAt(d, i)
    ensures FirstCode(d, from) == p
    decreases p - from
  {
    if from < p {
      FirstCodeIs(d, from + 1, p);
    }
  }

  datatype Code = NoCode | CodeFound(startCodePos: nat, start: nat)

  method FindStartCode(data: seq<byte>, offset: nat) returns (code: Code)
    requires offset <= |data|
    ensures code == if FirstCode(data, offset) == |data| then NoCode
                    else CodeFound(FirstCode(data, offset),
                        FirstCode(data, offset) + CodeLength(data, FirstCode(data, offset)))
  {
    var i := offset;
    while i + 3 < |data|
      invariant offset <= i <= |data| && forall k | offset <= k < i :: !CodeAt(data, k)
    {
      if data[i] == 0 && data[i + 1] == 0 {
        if data[i + 2] == 1 {
          FirstCodeIs(data, offset, i);
          return CodeFound(i, i + 3);
        }
        if data[i + 2] == 0 && data[i + 3] == 1 {
          FirstCodeIs(data, offset, i);
          return CodeFound(i, i + 4);
        }
      }
      i := i + 1;
    }
    FirstCodeIs(data, offset, |data|);
    return NoCode;
  }

  // ----- the splitter -----

  datatype Span = Span(start: nat, end: nat)

  /** Where the NAL units lie that are still to come from `index` on. */
  function Spans(d: seq<byte>, index: nat): seq<Span>
    requires index <= |d|
    decreases |d| - index
  {
    if index == |d| then []
    else
      var code := FirstCode(d, index);
      if code == |d| then if index == 0 then [Span(0, |d|)] else []
      else
        var start := code + CodeLength(d, code);
        var end := FirstCode(d, start);
        if end == start then [] else [Span(start, end)] + Spans(d, end)
  }

  /** Whatever the data, the spans lie inside it, one after the other, and none is empty. */
  lemma {:induction false} SpansInOrder(d: seq<byte>, index: nat)
    requires index <= |d|
    ensures forall k | 0 <= k < |Spans(d, index)| :: index <= Spans(d, index)[k].start < Spans(d, index)[k].end <= |d|
    ensures forall j, k | 0 <= j < k < |Spans(d, index)| :: Spans(d, index)[j].end <= Spans(d, index)[k].start
    decreases |d| - index
  {
    var spans := Spans(d, index);
    if spans != [] && spans[0].end < |d| {
      SpansInOrder(d, spans[0].end);
      if FirstCode(d, index) < |d| {
        assert spans[1..] == Spans(d, spans[0].end);
      }
    }
  }

  /** Where the splitter stands after it found no unit: unmoved, or behind the
      start code of an empty one. */
  function StopsAt(d: seq<byte>, index: nat): nat
    requires index <= |d|
  {
    var code := FirstCode(d, index);
    if code == |d| then index else code + CodeLength(d, code)
  }

  datatype NaluView = NaluView(data: seq<byte>, kind: byte)

  function Kind(nal: seq<byte>): byte
    requires nal != []
  {
    nal[0] % 0x20
  }

  class H26xNals {
    const data: seq<byte>
    var index: nat

    ghost predicate Valid()
      reads this
    {
      index <= |data|
    }

    constructor (data: seq<byte>)
      ensures Valid() && this.data == data && index == 0
    {
      this.data := data;
      this.index := 0;
    }

    /** Hands out the first span still to come, and leaves the rest. */
    method Next() returns (nal: Option<NaluView>)
      requires Valid()
      modifies this
      ensures Valid()
      ensures nal.None? <==> Spans(data, old(index)) == []
      ensures nal.Some? ==>
                var span := Spans(data, old(index))[0];
                && span.start < span.end <= |data| && index == span.end
                && nal.value == NaluView(data[span.start..span.end], Kind(data[span.start..span.end]))
      ensures nal.Some? ==> Spans(data, old(index))[1..] == Spans(data, index)
      ensures Split(data, old(index)) == if nal.None? then [] else [nal.value.data] + Split(data, index)
      ensures nal.None? ==> index == StopsAt(data, old(index))
    {
      hide Split;
      SplitUnfolds(data, index);
      if index >= |data| { return None; }
      var code := FindStartCode(data, index);
      if code.NoCode? {
        if index == 0 && data != [] {
          index := |data|;
          return Some(NaluView(data, data[0] % 0x20));
        }
        return None;
      }
      var start, end := code.start, |data|;
      var next := FindStartCode(data, start);
      if next.CodeFound? {
        end := next.startCodePos;
      }
      if end <= start {
        index := end;
        return None;
      }
      index := end;
      var found := data[start..end];
      return Some(NaluView(found, found[0] % 0x20));
    }
  }

  // ----- framing -----

  /** A NAL unit behind a start code of four or of three bytes. */
  datatype Frame = Frame(four: bool, nal: seq<byte>)

  function StartCode(four: bool): seq<byte> {
    if four then [0, 0, 0, 1] else [0, 0, 1]
  }

  function Framed(frames: seq<Frame>): seq<byte> {
    if frames == [] then [] else StartCode(frames[0].four) + frames[0].nal + Framed(frames[1..])
  }

  function NalsOf(frames: seq<Frame>): (nals: seq<seq<byte>>)
    ensures |nals| == |frames|
  {
    if frames == [] then [] else [frames[0].nal] + NalsOf(frames[1..])
  }

  function Pieces(d: seq<byte>, spans: seq<Span>): (pieces: seq<seq<byte>>)
    requires forall k | 0 <= k < |spans| :: spans[k].start < spans[k].end <= |d|
    ensures |pieces| == |spans|
  {
    if spans == [] then [] else [d[spans[0].start..spans[0].end]] + Pieces(d, spans[1..])
  }

  /** The NAL units that repeated calls of `Next` hand out. */
  function Split(d: seq<byte>, index: nat): (nals: seq<seq<byte>>)
    requires index <= |d|
  {
    SpansInOrder(d, index);
    Pieces(d, Spans(d, index))
  }

  /** What follows the first NAL unit: a start code, or nothing. */
  function Follow(rest: seq<Frame>): seq<byte> {
    if rest == [] then [] else StartCode(rest[0].four)
  }

  /** No start code begins in `nal` when `follow` comes after it. */
  predicate NoCodeInside(nal: seq<byte>, follow: seq<byte>) {
    forall i | 0 <= i < |nal| :: !CodeAt(nal + follow, i)
  }

  predicate Separable(frames: seq<Frame>) {
    frames == [] || (frames[0].nal != [] && NoCodeInside(frames[0].nal, Follow(frames[1..])) && Separable(frames[1..]))
  }

  lemma SplitUnfolds(d: seq<byte>, index: nat)
    requires index <= |d|
    ensures Split(d, index) ==
            if Spans(d, index) == [] then []
            else [d[Spans(d, index)[0].start..Spans(d, index)[0].end]] + Split(d, Spans(d, index)[0].end)
  {
  }

  /** A buffer without any start code is one unit. */
  lemma NoCodeIsOneUnit(d: seq<byte>)
    requires d != [] && forall i | 0 <= i < |d| :: !CodeAt(d, i)
    ensures Split(d, 0) == [d]
  {
    FirstCodeIs(d, 0, |d|);
    SplitUnfolds(d, 0);
    assert Spans(d, |d|) == [];
    SplitUnfolds(d, |d|);
    assert d[0..|d|] == d;
  }

  /** What comes before the first start code is not handed out. */
  lemma LeadingBytesAreSkipped(d: seq<byte>, p: nat)
    requires p < |d| && CodeAt(d, p) && forall i | 0 <= i < p :: !CodeAt(d, i)
    ensures Split(d, 0) == Split(d, p)
  {
    FirstCodeIs(d, 0, p);
    FirstCodeIs(d, p, p);
    hide CodeAt;
    assert Spans(d, 0) == Spans(d, p);
  }

  lemma SameCode(d: seq<byte>, s: nat, seen: seq<byte>, j: nat)
    requires s + |seen| <= |d| && d[s..s + |seen|] == seen && j + 4 <= |seen|
    ensures CodeAt(d, s + j) <==> CodeAt(seen, j)
  {
    assert d[s..s + |seen|][j] == d[s + j] && d[s..s + |seen|][j + 1] == d[s + j + 1];
    assert d[s..s + |seen|][j + 2] == d[s + j + 2] && d[s..s + |seen|][j + 3] == d[s + j + 3];
  }

  lemma HeadParts(d: seq<byte>, c: nat, frames: seq<Frame>, s: nat, e: nat)
    requires c <= |d| && d[c..] == Framed(frames) && frames != []
    requires s == c + |StartCode(frames[0].four)| && e == s + |frames[0].nal|
    ensures e <= |d| && d[c..s] == StartCode(frames[0].four) && d[s..e] == frames[0].nal
    ensures d[e..] == Framed(frames[1..])
  {
    var code, nal := StartCode(frames[0].four), frames[0].nal;
    var whole := code + nal + Framed(frames[1..]);
    assert d[c..] == whole;
    SliceOfRest(d, c, 0, |code|);
    SliceOfRest(d, c, |code|, |code| + |nal|);
    assert whole[0..|code|] == code;
    assert whole[|code|..|code| + |nal|] == nal;
    assert d[e..] == d[c..][e - c..];
    assert whole[|code| + |nal|..] == Framed(frames[1..]);
  }

  lemma SliceOfRest(d: seq<byte>, c: nat, a: nat, b: nat)
    requires c <= |d| && a <= b <= |d| - c
    ensures d[c..][a..b] == d[c + a..c + b]
  {
    assert forall i | a <= i < b :: d[c..][i] == d[c + i];
  }

  lemma HeadCode(d: seq<byte>, c: nat, frames: seq<Frame>)
    requires c <= |d| && d[c..] == Framed(frames) && frames != [] && frames[0].nal != []
    ensures CodeAt(d, c) && CodeLength(d, c) == |StartCode(frames[0].four)| && FirstCode(d, c) == c
  {
    var code := StartCode(frames[0].four);
    HeadParts(d, c, frames, c + |code|, c + |code| + |frames[0].nal|);
    assert d[c..][0] == d[c] && d[c..][1] == d[c + 1] && d[c..][2] == d[c + 2] && d[c..][3] == d[c + 3];
    assert d[c..c + |code|] == code;
    assert d[c..][..|code|] == d[c..c + |code|];
  }

  lemma FollowCases(rest: seq<Frame>)
    ensures rest == [] ==> Follow(rest) == [] && Framed(rest) == []
    ensures rest != [] ==> Follow(rest) == StartCode(rest[0].four) && |Follow(rest)| >= 3
  {
  }

  lemma SeenFromHead(d: seq<byte>, c: nat, frames: seq<Frame>, s: nat, n: nat)
    requires c <= |d| && d[c..] == Framed(frames) && frames != []
    requires s == c + |StartCode(frames[0].four)| && n == |frames[0].nal + Follow(frames[1..])|
    ensures s + n <= |d| && d[s..s + n] == frames[0].nal + Follow(frames[1..])
    ensures if frames[1..] == [] then s + n == |d| else n >= |frames[0].nal| + 3
  {
    hide Framed, StartCode, Follow;
    var e, rest := s + |frames[0].nal|, frames[1..];
    HeadParts(d, c, frames, s, e);
    FollowCases(rest);
    if rest != [] {
      HeadParts(d, e, rest, e + |Follow(rest)|, e + |Follow(rest)| + |rest[0].nal|);
      assert d[s..s + n] == d[s..e] + d[e..s + n];
    }
  }

  /** Whether a start code begins in a NAL unit shows in the unit and the next start code. */
  lemma CodesInHead(d: seq<byte>, c: nat, frames: seq<Frame>, s: nat, e: nat, i: nat)
    requires c <= |d| && d[c..] == Framed(frames) && frames != []
    requires s == c + |StartCode(frames[0].four)| && e == s + |frames[0].nal| && s <= i < e
    ensures CodeAt(d, i) <==> CodeAt(frames[0].nal + Follow(frames[1..]), i - s)
  {
    hide StartCode, Framed, Follow;
    var seen := frames[0].nal + Follow(frames[1..]);
    SeenFromHead(d, c, frames, s, |seen|);
    if i + 4 <= s + |seen| {
      SameCode(d, s, seen, i - s);
    } else {
      assert !CodeAt(d, i) && !CodeAt(seen, i - s);
    }
  }

  lemma CleanHead(d: seq<byte>, c: nat, frames: seq<Frame>, s: nat, e: nat)
    requires c <= |d| && d[c..] == Framed(frames) && frames != []
    requires s == c + |StartCode(frames[0].four)| && e == s + |frames[0].nal|
    ensures (forall i | s <= i < e :: !CodeAt(d, i)) <==> NoCodeInside(frames[0].nal, Follow(frames[1..]))
  {
    var seen := frames[0].nal + Follow(frames[1..]);
    forall i: nat | s <= i < e
      ensures CodeAt(d, i) <==> CodeAt(seen, i - s)
    {
      CodesInHead(d, c, frames, s, e, i);
    }
    if forall i | s <= i < e :: !CodeAt(d, i) {
      forall j | 0 <= j < |frames[0].nal|
        ensures !CodeAt(seen, j)
      {
        assert !CodeAt(d, s + j);
        assert s + j - s == j;
      }
    }
  }

  lemma OneFrame(d: seq<byte>, c: nat, frames: seq<Frame>, s: nat, e: nat)
    requires c <= |d| && d[c..] == Framed(frames) && frames != [] && frames[0].nal != []
    requires s == c + |StartCode(frames[0].four)| && e == s + |frames[0].nal|
    ensures c < s < e <= |d| && d[e..] == Framed(frames[1..]) && d[s..e] == frames[0].nal
    ensures Split(d, c) == [d[s..FirstCode(d, s)]] + Split(d, FirstCode(d, s))
            || (FirstCode(d, s) == s && Split(d, c) == [])
    ensures NoCodeInside(frames[0].nal, Follow(frames[1..])) && (frames[1..] == [] || frames[1].nal != []) ==>
              FirstCode(d, s) == e
    ensures FirstCode(d, s) == e ==> NoCodeInside(frames[0].nal, Follow(frames[1..]))
  {
    hide Split, CodeAt, FirstCode, Framed, NoCodeInside, Follow, CodeLength;
    HeadParts(d, c, frames, s, e);
    HeadCode(d, c, frames);
    CleanHead(d, c, frames, s, e);
    SplitUnfolds(d, c);
    assert frames[1..] == [] ==> e == |d| by { NothingFramed(frames[1..]); }
    if NoCodeInside(frames[0].nal, Follow(frames[1..])) && (frames[1..] == [] || frames[1].nal != []) {
      if frames[1..] != [] {
        HeadCode(d, e, frames[1..]);
      }
      FirstCodeIs(d, s, e);
    }
  }

  lemma NothingFramed(frames: seq<Frame>)
    ensures frames == [] ==> Framed(frames) == []
  {
  }

  lemma NoEmptyPiece(d: seq<byte>, c: nat)
    requires c <= |d| && Split(d, c) != []
    ensures Split(d, c)[0] != []
  {
    SplitUnfolds(d, c);
    SpansInOrder(d, c);
  }

  lemma SameHeadAndTail<T>(a: T, s: seq<T>, b: T, t: seq<T>)
    ensures [a] + s == [b] + t <==> a == b && s == t
  {
    if [a] + s == [b] + t {
      assert ([a] + s)[0] == ([b] + t)[0] && ([a] + s)[1..] == s && ([b] + t)[1..] == t;
    }
  }

  /** Splitting a framed stream gives back its NAL units exactly when every
      unit is separable from the start code after it. */
  lemma {:induction false} SplitsFromExactly(d: seq<byte>, c: nat, frames: seq<Frame>)
    requires c <= |d| && d[c..] == Framed(frames)
    ensures Split(d, c) == NalsOf(frames) <==> Separable(frames)
    decreases |frames|, 1
  {
    hide Split, CodeAt, FirstCode, Framed, NoCodeInside, Follow, CodeLength, Spans;
    NothingFramed(frames);
    if frames == [] {
      NothingToSplit(d);
    } else if frames[0].nal == [] {
      if Split(d, c) != [] {
        NoEmptyPiece(d, c);
      }
    } else {
      SplitsHeadExactly(d, c, frames);
    }
  }

  lemma NothingToSplit(d: seq<byte>)
    ensures Split(d, |d|) == []
  {
  }

  lemma SplitsHeadExactly(d: seq<byte>, c: nat, frames: seq<Frame>)
    requires c <= |d| && d[c..] == Framed(frames) && frames != [] && frames[0].nal != []
    ensures Split(d, c) == NalsOf(frames) <==> Separable(frames)
    decreases |frames|, 0
  {
    hide Split, CodeAt, FirstCode, Framed, NoCodeInside, Follow, CodeLength, Spans;
    var s := c + |StartCode(frames[0].four)|;
    var e := s + |frames[0].nal|;
    OneFrame(d, c, frames, s, e);
    SplitsFromExactly(d, e, frames[1..]);
    var p := FirstCode(d, s);
    assert NalsOf(frames) == [frames[0].nal] + NalsOf(frames[1..]);
    if p == e {
      SameHeadAndTail(d[s..p], Split(d, p), frames[0].nal, NalsOf(frames[1..]));
    } else if Split(d, c) != [] {
      SameHeadAndTail(d[s..p], Split(d, p), frames[0].nal, NalsOf(frames[1..]));
      assert |d[s..p]| != |frames[0].nal|;
    }
  }

  // ----- which streams are separable -----

  predicate PrefixAt(nal: seq<byte>, i: nat) {
    i + 2 < |nal| && nal[i] == 0 && nal[i + 1] == 0 && nal[i + 2] == 1
  }

  predicate HoldsPrefix(nal: seq<byte>) {
    exists i | 0 <= i < |nal| :: PrefixAt(nal, i)
  }

  /** Before another start code a unit must hold no start code prefix, and may
      end in a zero byte only if that start code has four bytes. */
  lemma SeparableBeforeAnother(nal: seq<byte>, four: bool)
    requires nal != []
    ensures NoCodeInside(nal, StartCode(four)) <==> !HoldsPrefix(nal) && (four || nal[|nal| - 1] != 0)
  {
    var seen := nal + StartCode(four);
    assert forall i | 0 <= i < |nal| :: seen[i] == nal[i];
    if HoldsPrefix(nal) {
      var i :| 0 <= i < |nal| && PrefixAt(nal, i);
      assert CodeAt(seen, i);
    }
    if !four && nal[|nal| - 1] == 0 {
      assert CodeAt(seen, |nal| - 1);
    }
    if i: nat :| i < |nal| && CodeAt(seen, i) {
      assert i + 2 < |nal| && nal[i + 2] == 1 ==> PrefixAt(nal, i);
      assert i + 3 < |nal| && nal[i + 2] == 0 ==> PrefixAt(nal, i + 1);
    }
  }

  /** A stream as section 7.4.1 of ITU-T H.264 has it: no unit is empty, holds
      a start code prefix or ends in a zero byte. */
  predicate Standard(frames: seq<Frame>) {
    forall k | 0 <= k < |frames| ::
        frames[k].nal != [] && !HoldsPrefix(frames[k].nal) && frames[k].nal[|frames[k].nal| - 1] != 0
  }

  lemma {:induction false} StandardIsSeparable(frames: seq<Frame>)
    requires Standard(frames)
    ensures Separable(frames)
  {
    if frames != [] {
      var nal, rest := frames[0].nal, frames[1..];
      assert nal != [] && !HoldsPrefix(nal);
      StandardIsSeparable(rest);
      if rest == [] {
        LastIsSeparable(nal);
      } else {
        SeparableBeforeAnother(nal, rest[0].four);
      }
    }
  }

  lemma LastIsSeparable(nal: seq<byte>)
    requires !HoldsPrefix(nal)
    ensures NoCodeInside(nal, [])
  {
    forall i | 0 <= i < |nal|
      ensures !CodeAt(nal, i)
    {
      assert !PrefixAt(nal, i) && !PrefixAt(nal, i + 1);
    }
    assert nal + [] == nal;
  }

  /** Splitting undoes framing, for every standard stream. */
  lemma SplitUndoesFraming(frames: seq<Frame>)
    requires Standard(frames)
    ensures Split(Framed(frames), 0) == NalsOf(frames)
  {
    StandardIsSeparable(frames);
    assert Framed(frames)[0..] == Framed(frames);
    SplitsFromExactly(Framed(frames), 0, frames);
  }

  // ----- samples -----

  const P := 1
  const I := 5
  const SPS := 7
  const PPS := 8

  function Prefixed(nals: seq<seq<byte>>): (data: seq<byte>)
    decreases |nals|
  {
    if nals == [] then []
    else Prefixed(nals[..|nals| - 1]) + ToBigEndian(|nals[|nals| - 1]| % UINT_RANGE, 4) + nals[|nals| - 1]
  }

  /** Reading a sample by its length fields. */
  function Units(data: seq<byte>): Option<seq<seq<byte>>> {
    if data == [] then Some([])
    else if |data| < 4 || 4 + BigEndian(data[..4]) > |data| then None
    else
      var n := 4 + BigEndian(data[..4]);
      match Units(data[n..])
      case None => None
      case Some(rest) => Some([data[4..n]] + rest)
  }

  function OneUnit(nal: seq<byte>): seq<byte> {
    ToBigEndian(|nal| % UINT_RANGE, 4) + nal
  }

  lemma {:induction false} PrefixedFromFront(nals: seq<seq<byte>>)
    requires nals != []
    ensures Prefixed(nals) == OneUnit(nals[0]) + Prefixed(nals[1..])
    decreases |nals|
  {
    var n := |nals| - 1;
    if n > 0 {
      PrefixedFromFront(nals[..n]);
      LastUnit(nals);
      LastUnit(nals[1..]);
      hide Prefixed, OneUnit;
      assert nals[..n][1..] == nals[1..][..n - 1] && nals[..n][0] == nals[0];
      assert nals[1..][n - 1] == nals[n];
      Regroup(OneUnit(nals[0]), Prefixed(nals[1..][..n - 1]), OneUnit(nals[n]));
    } else {
      LastUnit(nals);
      assert Prefixed(nals[..0]) == [] == Prefixed(nals[1..]);
      assert [] + OneUnit(nals[0]) == OneUnit(nals[0]) + [];
    }
  }

  lemma LastUnit(nals: seq<seq<byte>>)
    requires nals != []
    ensures Prefixed(nals) == Prefixed(nals[..|nals| - 1]) + OneUnit(nals[|nals| - 1])
  {
    hide ToBigEndian;
    var before, nal := Prefixed(nals[..|nals| - 1]), nals[|nals| - 1];
    Regroup(before, ToBigEndian(|nal| % UINT_RANGE, 4), nal);
  }

  lemma LengthReadsBack(n: nat)
    ensures BigEndian(ToBigEndian(n % UINT_RANGE, 4)) == n % UINT_RANGE
  {
    assert Pow256(4) == UINT_RANGE;
    BigEndianReadsBack(n % UINT_RANGE, 4);
  }

  predicate LengthsFit(nals: seq<seq<byte>>) {
    nals == [] || (|nals[0]| < UINT_RANGE && LengthsFit(nals[1..]))
  }

  lemma {:induction false} LengthsFitMeans(nals: seq<seq<byte>>)
    ensures LengthsFit(nals) <==> forall k | 0 <= k < |nals| :: |nals[k]| < UINT_RANGE
  {
    if nals != [] {
      LengthsFitMeans(nals[1..]);
      assert nals == [nals[0]] + nals[1..];
    }
  }

  lemma FirstUnit(data: seq<byte>, nal: seq<byte>, tail: seq<byte>)
    requires data == OneUnit(nal) + tail
    ensures |nal| < UINT_RANGE && Units(tail).Some? ==> Units(data) == Some([nal] + Units(tail).value)
    ensures |nal| < UINT_RANGE && Units(tail).None? ==> Units(data) == None
    ensures |nal| >= UINT_RANGE && Units(data).Some? ==> Units(data).value != [] && |Units(data).value[0]| < UINT_RANGE
  {
    hide BigEndian, ToBigEndian;
    LengthReadsBack(|nal|);
    assert data[..4] == ToBigEndian(|nal| % UINT_RANGE, 4);
    if |nal| < UINT_RANGE {
      assert data[4..4 + |nal|] == nal && data[4 + |nal|..] == tail;
    }
  }

  /** A sample reads back as its NAL units exactly when each length fits its field. */
  lemma SampleReadsBackExactly(nals: seq<seq<byte>>)
    ensures Units(Prefixed(nals)) == Some(nals) <==> forall k | 0 <= k < |nals| :: |nals[k]| < UINT_RANGE
  {
    hide Units, Prefixed, LengthsFit;
    SampleReadsBack(nals);
    LengthsFitMeans(nals);
  }

  lemma {:induction false} SampleReadsBack(nals: seq<seq<byte>>)
    ensures Units(Prefixed(nals)) == Some(nals) <==> LengthsFit(nals)
    decreases |nals|
  {
    if nals != [] {
      hide Prefixed, Units, OneUnit;
      var nal, rest := nals[0], nals[1..];
      PrefixedFromFront(nals);
      FirstUnit(Prefixed(nals), nal, Prefixed(rest));
      SampleReadsBack(rest);
      assert nals == [nal] + rest;
      if |nal| < UINT_RANGE && Units(Prefixed(rest)).Some? {
        SameHeadAndTail(nal, Units(Prefixed(rest)).value, nal, rest);
      }
    }
  }

  // ----- the recorder -----

  /** The calls that reach the MP4 library. */
  datatype Mp4Call =
    | AddVideoTrack(profile: byte, compatibility: byte, level: byte)
    | AddSequenceParameterSet(sps: seq<byte>)
    | AddPictureParameterSet(pps: seq<byte>)
    | WriteSample(sampleData: seq<byte>, isSyncSample: bool)

  predicate NonEmpty(nals: seq<seq<byte>>) {
    forall k | 0 <= k < |nals| :: nals[k] != []
  }

  function SliceOf(nal: seq<byte>): seq<seq<byte>>
    requires nal != []
  {
    if Kind(nal) == P || Kind(nal) == I then [nal] else []
  }

  predicate OpensIt(nal: seq<byte>)
    requires nal != []
  {
    Kind(nal) == SPS && |nal| >= 4
  }

  /** What one NAL unit makes the recorder do at once. */
  function CallsFor(nal: seq<byte>, track: bool): seq<Mp4Call>
    requires nal != []
  {
    if OpensIt(nal) && !track then [AddVideoTrack(nal[1], nal[2], nal[3]), AddSequenceParameterSet(nal)]
    else if Kind(nal) == SPS && track then [AddSequenceParameterSet(nal)]
    else if Kind(nal) == PPS && track then [AddPictureParameterSet(nal)]
    else []
  }

  /** The slices, in order. */
  function SampleNals(nals: seq<seq<byte>>): seq<seq<byte>>
    requires NonEmpty(nals)
  {
    if nals == [] then [] else SliceOf(nals[0]) + SampleNals(nals[1..])
  }

  predicate OpensTrack(nals: seq<seq<byte>>)
    requires NonEmpty(nals)
  {
    exists k | 0 <= k < |nals| :: OpensIt(nals[k])
  }

  predicate IsSync(nals: seq<seq<byte>>)
    requires NonEmpty(nals)
  {
    exists k | 0 <= k < |nals| :: Kind(nals[k]) == I
  }

  function ParameterCalls(nals: seq<seq<byte>>, track: bool): seq<Mp4Call>
    requires NonEmpty(nals)
  {
    if nals == [] then [] else CallsFor(nals[0], track) + ParameterCalls(nals[1..], track || OpensIt(nals[0]))
  }

  // ----- which units get where -----

  /** `at` lists in order the units of type 1 and 5, and `slices` holds those units. */
  ghost predicate SlicesOf(nals: seq<seq<byte>>, slices: seq<seq<byte>>, at: seq<nat>) {
    && |at| == |slices|
    && (forall j, k | 0 <= j < k < |at| :: at[j] < at[k])
    && (forall k | 0 <= k < |at| :: at[k] < |nals| && slices[k] == nals[at[k]])
    && (forall i | 0 <= i < |nals| :: i in at <==> nals[i] != [] && nals[i][0] % 32 in {1, 5})
  }

  /** The sample holds the units of type 1 and 5, in the order they come in. */
  lemma {:induction false} SampleHoldsSlices(nals: seq<seq<byte>>) returns (at: seq<nat>)
    requires NonEmpty(nals)
    ensures SlicesOf(nals, SampleNals(nals), at)
    decreases |nals|
  {
    at := [];
    if nals != [] {
      var n := |nals| - 1;
      var before := SampleHoldsSlices(nals[..n]);
      LastOfSample(nals);
      at := before + if nals[n][0] % 32 in {1, 5} then [n] else [];
      OneMoreSlice(nals, SampleNals(nals[..n]), before);
    }
  }

  lemma OneMoreSlice(nals: seq<seq<byte>>, slices: seq<seq<byte>>, at: seq<nat>)
    requires nals != [] && nals[|nals| - 1] != [] && SlicesOf(nals[..|nals| - 1], slices, at)
    ensures var nal := nals[|nals| - 1];
            if nal[0] % 32 in {1, 5} then SlicesOf(nals, slices + [nal], at + [|nals| - 1])
            else SlicesOf(nals, slices + [], at + [])
  {
    var n := |nals| - 1;
    assert forall i | 0 <= i < n :: nals[..n][i] == nals[i];
    assert slices + [] == slices && at + [] == at;
    if nals[n][0] % 32 in {1, 5} {
      var more := at + [n];
      assert forall i :: i in more <==> i in at || i == n;
    }
  }

  lemma {:induction false} LastOfSample(nals: seq<seq<byte>>)
    requires NonEmpty(nals) && nals != []
    ensures NonEmpty(nals[..|nals| - 1])
    ensures SampleNals(nals) == SampleNals(nals[..|nals| - 1]) + SliceOf(nals[|nals| - 1])
    decreases |nals|
  {
    var n := |nals| - 1;
    if n > 0 {
      LastOfSample(nals[1..]);
      assert nals[1..][..n - 1] == nals[..n][1..] && nals[..n][0] == nals[0];
      Regroup(SliceOf(nals[0]), SampleNals(nals[1..][..n - 1]), SliceOf(nals[n]));
    } else {
      assert SampleNals(nals[1..]) == [] == SampleNals(nals[..0]);
    }
  }

  /** As often as a unit comes, if it is a slice; nothing else. */
  lemma {:induction false} SampleCounts(nals: seq<seq<byte>>, x: seq<byte>)
    requires NonEmpty(nals)
    ensures multiset(SampleNals(nals))[x]
            == if x != [] && x[0] % 32 in {1, 5} then multiset(nals)[x] else 0
    decreases |nals|
  {
    if nals != [] {
      SampleCounts(nals[1..], x);
      assert nals == [nals[0]] + nals[1..];
      hide SampleNals;
      assert multiset(nals) == multiset{nals[0]} + multiset(nals[1..]);
      FirstOfSample(nals);
    }
  }

  lemma FirstOfSample(nals: seq<seq<byte>>)
    requires NonEmpty(nals) && nals != []
    ensures multiset(SampleNals(nals)) == multiset(SampleNals(nals[1..]))
              + if nals[0][0] % 32 in {1, 5} then multiset{nals[0]} else multiset{}
  {
  }

  /** A sample is a sync sample exactly if one of its units is of type 5. */
  lemma SampleMeans(nals: seq<seq<byte>>, slices: seq<seq<byte>>)
    requires NonEmpty(nals) && slices == SampleNals(nals)
    ensures exists at :: SlicesOf(nals, slices, at)
    ensures IsSync(nals) <==> exists k :: 0 <= k < |slices| && slices[k] != [] && slices[k][0] % 32 == 5
  {
    var at := SampleHoldsSlices(nals);
    hide SampleNals;
    if i :| 0 <= i < |nals| && nals[i][0] % 32 == 5 {
      assert i in at;
      var k :| 0 <= k < |at| && at[k] == i;
      assert slices[k] == nals[i];
    }
    if k :| 0 <= k < |slices| && slices[k] != [] && slices[k][0] % 32 == 5 {
      assert slices[k] == nals[at[k]];
    }
  }

  /** The track is opened by the first unit of type 7 that is long enough, with its
      second to fourth byte; before that no parameter set is passed on. */
  lemma {:induction false} FirstLongSpsOpens(nals: seq<seq<byte>>, k: nat)
    requires NonEmpty(nals) && k <= |nals|
    requires forall j | 0 <= j < k :: nals[j][0] % 32 != 7 || |nals[j]| < 4
    requires k < |nals| ==> nals[k][0] % 32 == 7 && |nals[k]| >= 4
    ensures OpensTrack(nals) <==> k < |nals|
    ensures NonEmpty(nals[k..])
    ensures ParameterCalls(nals, false)
            == if k == |nals| then []
               else [AddVideoTrack(nals[k][1], nals[k][2], nals[k][3])] + ParameterCalls(nals[k..], true)
  {
    assert nals == [] ==> ParameterCalls(nals, false) == [] && !OpensTrack(nals);
    if k == 0 {
      assert nals[0..] == nals;
      if nals != [] {
        LongSpsOpens(nals);
      }
    } else {
      assert NonEmpty(nals[1..]);
      hide *;
      FirstLongSpsOpens(nals[1..], k - 1);
      assert nals[1..][k - 1..] == nals[k..];
      OpensLater(nals);
    }
  }

  lemma LongSpsOpens(nals: seq<seq<byte>>)
    requires NonEmpty(nals) && nals != [] && nals[0][0] % 32 == 7 && |nals[0]| >= 4
    ensures OpensTrack(nals)
    ensures ParameterCalls(nals, false)
            == [AddVideoTrack(nals[0][1], nals[0][2], nals[0][3])] + ParameterCalls(nals, true)
  {
    assert OpensIt(nals[0]);
    var track, added := AddVideoTrack(nals[0][1], nals[0][2], nals[0][3]), AddSequenceParameterSet(nals[0]);
    var rest := ParameterCalls(nals[1..], true);
    assert ParameterCalls(nals, false) == [track, added] + rest && ParameterCalls(nals, true) == [added] + rest;
    hide *;
    assert [track, added] + rest == [track] + ([added] + rest);
  }

  lemma OpensLater(nals: seq<seq<byte>>)
    requires NonEmpty(nals) && nals != [] && (nals[0][0] % 32 != 7 || |nals[0]| < 4)
    ensures OpensTrack(nals) <==> OpensTrack(nals[1..])
    ensures ParameterCalls(nals, false) == ParameterCalls(nals[1..], false)
  {
    if k :| 0 <= k < |nals[1..]| && OpensIt(nals[1..][k]) {
      assert OpensIt(nals[k + 1]);
    }
    if k :| 0 <= k < |nals| && OpensIt(nals[k]) {
      assert OpensIt(nals[1..][k - 1]);
    }
  }

  /** With an open track every parameter set is passed on, in order. */
  lemma {:induction false} OpenTrackTakesParameters(nals: seq<seq<byte>>) returns (at: seq<nat>)
    requires NonEmpty(nals)
    ensures |at| == |ParameterCalls(nals, true)|
    ensures forall j, k | 0 <= j < k < |at| :: at[j] < at[k]
    ensures forall i | 0 <= i < |nals| :: i in at <==> nals[i][0] % 32 in {7, 8}
    ensures forall k | 0 <= k < |at| ::
              at[k] < |nals| && ParameterCalls(nals, true)[k]
              == if nals[at[k]][0] % 32 == 7 then AddSequenceParameterSet(nals[at[k]])
                 else AddPictureParameterSet(nals[at[k]])
    decreases |nals|
  {
    at := [];
    if nals != [] {
      var n := |nals| - 1;
      var before := OpenTrackTakesParameters(nals[..n]);
      LastParameters(nals);
      at := before + if nals[n][0] % 32 in {7, 8} then [n] else [];
      assert forall i | 0 <= i < n :: nals[..n][i] == nals[i];
      hide ParameterCalls;
    }
  }

  lemma {:induction false} LastParameters(nals: seq<seq<byte>>)
    requires NonEmpty(nals) && nals != []
    ensures NonEmpty(nals[..|nals| - 1])
    ensures ParameterCalls(nals, true)
            == ParameterCalls(nals[..|nals| - 1], true) + CallsFor(nals[|nals| - 1], true)
    decreases |nals|
  {
    var n := |nals| - 1;
    hide CallsFor;
    if n > 0 {
      LastParameters(nals[1..]);
      assert nals[1..][..n - 1] == nals[..n][1..] && nals[..n][0] == nals[0];
      Regroup(CallsFor(nals[0], true), ParameterCalls(nals[1..][..n - 1], true), CallsFor(nals[n], true));
    } else {
      assert ParameterCalls(nals[1..], true) == [] == ParameterCalls(nals[..0], true);
    }
  }

  lemma {:induction false} SplitsAreNotEmpty(d: seq<byte>, index: nat)
    requires index <= |d|
    ensures NonEmpty(Split(d, index))
    decreases |d| - index
  {
    SplitUnfolds(d, index);
    SpansInOrder(d, index);
    if Spans(d, index) != [] {
      SplitsAreNotEmpty(d, Spans(d, index)[0].end);
    }
  }

  function LengthField(n: nat): (b: seq<byte>)
    ensures b == ToBigEndian(n % UINT_RANGE, 4)
  {
    var naluSize: nat := n % UINT_RANGE;
    FourBytes(naluSize);
    [naluSize / 0x100_0000 % 0x100, naluSize / 0x1_0000 % 0x100, naluSize / 0x100 % 0x100, naluSize % 0x100]
  }

  lemma FourBytes(x: nat)
    requires x < UINT_RANGE
    ensures ToBigEndian(x, 4) == [x / 0x100_0000 % 0x100, x / 0x1_0000 % 0x100, x / 0x100 % 0x100, x % 0x100]
  {
    assert ToBigEndian(x / 0x100_0000, 1) == [x / 0x100_0000 % 0x100];
    assert x / 0x100 / 0x100 == x / 0x1_0000 && x / 0x1_0000 / 0x100 == x / 0x100_0000;
    assert ToBigEndian(x / 0x1_0000, 2) == ToBigEndian(x / 0x100_0000, 1) + [x / 0x1_0000 % 0x100];
    assert ToBigEndian(x / 0x100, 3) == ToBigEndian(x / 0x1_0000, 2) + [x / 0x100 % 0x100];
  }

  class VideoRecorder {
    var mp4Track: bool
    var calls: seq<Mp4Call>

    constructor ()
      ensures !mp4Track && calls == []
    {
      mp4Track := false;
      calls := [];
    }

    /** One NAL unit: parameter sets go to the library, slices to the sample. */
    method Take(nal: NaluView, before: seq<seq<byte>>, wasSync: bool) returns (sampleNals: seq<seq<byte>>,
        isSyncSample: bool)
      requires nal.data != [] && nal.kind == Kind(nal.data)
      modifies this
      ensures sampleNals == before + SliceOf(nal.data)
      ensures isSyncSample == (wasSync || nal.kind == I)
      ensures mp4Track == (old(mp4Track) || OpensIt(nal.data))
      ensures calls == old(calls) + CallsFor(nal.data, old(mp4Track))
    {
      hide Kind;
      var nalData := nal.data;
      sampleNals, isSyncSample := before, wasSync;
      if nal.kind == SPS {
        if !mp4Track && |nalData| >= 4 {
          mp4Track := true;
          calls := calls + [AddVideoTrack(nalData[1], nalData[2], nalData[3])];
        }
        if mp4Track {
          calls := calls + [AddSequenceParameterSet(nalData)];
        }
      } else if nal.kind == PPS {
        if mp4Track {
          calls := calls + [AddPictureParameterSet(nalData)];
        }
      } else if nal.kind == I {
        isSyncSample := true;
        sampleNals := sampleNals + [nalData];
      } else if nal.kind == P {
        sampleNals := sampleNals + [nalData];
      }
    }

    /** The first half of `write`: sorts out the NAL units of `data`. */
    method Sort(data: seq<byte>) returns (sampleNals: seq<seq<byte>>, isSyncSample: bool)
      modifies this
      ensures NonEmpty(Split(data, 0)) && sampleNals == SampleNals(Split(data, 0))
      ensures exists at :: SlicesOf(Split(data, 0), sampleNals, at)
      ensures isSyncSample <==> IsSync(Split(data, 0))
      ensures isSyncSample <==> exists k :: 0 <= k < |sampleNals| && sampleNals[k] != [] && sampleNals[k][0] % 32 == 5
      ensures mp4Track == (old(mp4Track) || OpensTrack(Split(data, 0)))
      ensures calls == old(calls) + ParameterCalls(Split(data, 0), old(mp4Track))
    {
      hide Spans, Split, SampleNals, ParameterCalls, IsSync, OpensTrack, SliceOf, OpensIt, CallsFor, Kind, NonEmpty;
      SplitsAreNotEmpty(data, 0);
      ghost var all := Split(data, 0);
      var nals := new H26xNals(data);
      sampleNals, isSyncSample := [], false;
      var nal := nals.Next();
      ghost var rest := all;
      while nal.Some?
        invariant nals.Valid() && nals.data == data && fresh(nals)
        invariant rest == if nal.None? then [] else [nal.value.data] + Split(data, nals.index)
        invariant nal.Some? ==> nal.value.data != [] && nal.value.kind == Kind(nal.value.data)
        invariant NonEmpty(rest) && sampleNals + SampleNals(rest) == SampleNals(all)
        invariant (isSyncSample || IsSync(rest)) == IsSync(all)
        invariant (mp4Track || OpensTrack(rest)) == (old(mp4Track) || OpensTrack(all))
        invariant calls + ParameterCalls(rest, mp4Track) == old(calls) + ParameterCalls(all, old(mp4Track))
        decreases |rest|
      {
        var nalData := nal.value.data;
        rest := Split(data, nals.index);
        SplitsAreNotEmpty(data, nals.index);
        OneNal(nalData, rest, mp4Track);
        Regroup(sampleNals, SliceOf(nalData), SampleNals(rest));
        Regroup(calls, CallsFor(nalData, mp4Track), ParameterCalls(rest, mp4Track || OpensIt(nalData)));
        sampleNals, isSyncSample := Take(nal.value, sampleNals, isSyncSample);
        nal := nals.Next();
      }
      NoNal(mp4Track);
      SampleMeans(all, sampleNals);
    }

    /** The H.264 branch of `write`. */
    method Write(data: seq<byte>)
      modifies this
      ensures NonEmpty(Split(data, 0)) && mp4Track == (old(mp4Track) || OpensTrack(Split(data, 0)))
      ensures calls == old(calls) + ParameterCalls(Split(data, 0), old(mp4Track)) +
                       if mp4Track && SampleNals(Split(data, 0)) != []
                       then [WriteSample(Prefixed(SampleNals(Split(data, 0))), IsSync(Split(data, 0)))] else []
    {
      hide Spans, Split, SampleNals, ParameterCalls, IsSync, OpensTrack;
      var sampleNals, isSyncSample := Sort(data);
      if !mp4Track { return; }
      if sampleNals == [] { return; }
      var totalSize := 0;
      for i := 0 to |sampleNals|
        invariant totalSize == |Prefixed(sampleNals[..i])|
      {
        totalSize := totalSize + 4 + |sampleNals[i]|;
        assert sampleNals[..i + 1][..i] == sampleNals[..i];
      }
      var sampleData := [];
      for i := 0 to |sampleNals|
        invariant sampleData == Prefixed(sampleNals[..i])
      {
        sampleData := sampleData + LengthField(|sampleNals[i]|);
        sampleData := sampleData + sampleNals[i];
        assert sampleNals[..i + 1][..i] == sampleNals[..i];
      }
      assert sampleNals[..|sampleNals|] == sampleNals;
      assert |sampleData| == totalSize;
      calls := calls + [WriteSample(sampleData, isSyncSample)];
    }
  }

  lemma OneNal(nal: seq<byte>, rest: seq<seq<byte>>, track: bool)
    requires nal != [] && NonEmpty(rest)
    ensures NonEmpty([nal] + rest)
    ensures SampleNals([nal] + rest) == SliceOf(nal) + SampleNals(rest)
    ensures IsSync([nal] + rest) == (Kind(nal) == I || IsSync(rest))
    ensures OpensTrack([nal] + rest) == (OpensIt(nal) || OpensTrack(rest))
    ensures ParameterCalls([nal] + rest, track) == CallsFor(nal, track) + ParameterCalls(rest, track || OpensIt(nal))
  {
    hide Kind, SliceOf, OpensIt, CallsFor;
    var all := [nal] + rest;
    assert all[0] == nal && all[1..] == rest;
    assert forall k | 0 <= k < |rest| :: all[k + 1] == rest[k];
  }

  lemma Regroup<T>(a: seq<T>, b: seq<T>, c: seq<T>)
    ensures a + (b + c) == a + b + c
  {
  }

  lemma NoNal(track: bool)
    ensures NonEmpty([]) && SampleNals([]) == [] && !IsSync([]) && !OpensTrack([]) && ParameterCalls([], track) == []
  {
  }

  // ----- from stream to sample -----

  lemma {:induction false} SlicesFit(nals: seq<seq<byte>>)
    requires NonEmpty(nals) && LengthsFit(nals)
    ensures LengthsFit(SampleNals(nals))
  {
    if nals != [] {
      SlicesFit(nals[1..]);
      assert ([nals[0]] + SampleNals(nals[1..]))[1..] == SampleNals(nals[1..]);
      assert [] + SampleNals(nals[1..]) == SampleNals(nals[1..]);
    }
  }

  lemma {:induction false} PiecesAreShorter(d: seq<byte>, index: nat)
    requires index <= |d| < UINT_RANGE
    ensures LengthsFit(Split(d, index))
    decreases |d| - index
  {
    SplitUnfolds(d, index);
    SpansInOrder(d, index);
    hide Split;
    if Spans(d, index) != [] {
      PiecesAreShorter(d, Spans(d, index)[0].end);
      assert Split(d, index)[1..] == Split(d, Spans(d, index)[0].end);
    }
  }

  /** Whatever the buffer, its sample reads back as its slices in order. */
  lemma SampleIsInvertible(d: seq<byte>)
    requires |d| < UINT_RANGE
    ensures NonEmpty(Split(d, 0)) && Units(Prefixed(SampleNals(Split(d, 0)))) == Some(SampleNals(Split(d, 0)))
  {
    hide Split, SampleNals, Units, Prefixed, LengthsFit;
    SplitsAreNotEmpty(d, 0);
    PiecesAreShorter(d, 0);
    SlicesFit(Split(d, 0));
    SampleReadsBack(SampleNals(Split(d, 0)));
  }

  /** A standard stream's sample reads back as exactly the slices that were framed. */
  lemma StreamReachesTheSample(frames: seq<Frame>)
    requires Standard(frames) && |Framed(frames)| < UINT_RANGE
    ensures NonEmpty(NalsOf(frames)) && NonEmpty(Split(Framed(frames), 0))
    ensures Units(Prefixed(SampleNals(Split(Framed(frames), 0)))) == Some(SampleNals(NalsOf(frames)))
  {
    hide Split, SampleNals, Units, Prefixed, Framed, Standard;
    SplitUndoesFraming(frames);
    SampleIsInvertible(Framed(frames));
  }
}
