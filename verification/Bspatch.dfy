/** Applying a bsdiff patch in memory. */
module Bspatch {
  import opened Bytes
  import opened Optional

  // ----- numbers -----

  const SIGN_LIMIT := 0x8000_0000_0000_0000

  /** Reads an 8-byte number: little-endian magnitude, sign in the top bit. */
  function Offtin(buf: seq<byte>): int
    requires |buf| == 8
  {
    var y: int := buf[7] % 0x80;
    var y: int := y * 256 + buf[6];
    var y: int := y * 256 + buf[5];
    var y: int := y * 256 + buf[4];
    var y: int := y * 256 + buf[3];
    var y: int := y * 256 + buf[2];
    var y: int := y * 256 + buf[1];
    var y: int := y * 256 + buf[0];
    if buf[7] >= 0x80 then -y else y
  }

  /** The 8 bytes that stand for `x`. */
  function Offtout(x: int): (buf: seq<byte>)
    requires -SIGN_LIMIT < x < SIGN_LIMIT
    ensures |buf| == 8
  {
    if x >= 0 then ToLittleEndian(x, 8) else ToLittleEndian(-x + SIGN_LIMIT, 8)
  }

  function Horner(buf: seq<byte>, top: int): int
    requires |buf| == 8
  {
    ((((((top * 256 + buf[6]) * 256 + buf[5]) * 256 + buf[4]) * 256 + buf[3]) * 256 + buf[2]) * 256 + buf[1]) * 256
        + buf[0]
  }

  lemma FirstByte(b: seq<byte>, i: nat)
    requires i < |b|
    ensures LittleEndian(b[i..]) == b[i] + 256 * LittleEndian(b[i + 1..])
  {
    assert b[i..][1..] == b[i + 1..];
  }

  lemma NoBytes(b: seq<byte>)
    requires b == []
    ensures LittleEndian(b) == 0
  {
  }

  lemma LittleEndianIsHorner(buf: seq<byte>)
    requires |buf| == 8
    ensures LittleEndian(buf) == Horner(buf, buf[7])
  {
    hide LittleEndian;
    assert buf[0..] == buf;
    NoBytes(buf[8..]);
    FirstByte(buf, 0);
    FirstByte(buf, 1);
    FirstByte(buf, 2);
    FirstByte(buf, 3);
    FirstByte(buf, 4);
    FirstByte(buf, 5);
    FirstByte(buf, 6);
    FirstByte(buf, 7);
  }

  lemma OfftinIsSignMagnitude(buf: seq<byte>)
    requires |buf| == 8
    ensures LittleEndian(buf) < 2 * SIGN_LIMIT
    ensures Offtin(buf) == if LittleEndian(buf) < SIGN_LIMIT then LittleEndian(buf) else SIGN_LIMIT - LittleEndian(buf)
  {
    LittleEndianIsHorner(buf);
    hide LittleEndian;
    assert Offtin(buf) == if buf[7] >= 0x80 then -Horner(buf, buf[7] % 0x80) else Horner(buf, buf[7] % 0x80);
    assert buf[7] % 0x80 == if buf[7] >= 0x80 then buf[7] - 0x80 else buf[7];
    HornerTop(buf, buf[7]);
  }

  lemma HornerTop(buf: seq<byte>, top: byte)
    requires |buf| == 8
    ensures 0 <= Horner(buf, top) < 2 * SIGN_LIMIT && (Horner(buf, top) < SIGN_LIMIT <==> top < 0x80)
    ensures top >= 0x80 ==> Horner(buf, top - 0x80) == Horner(buf, top) - SIGN_LIMIT
  {
  }

  lemma OfftinReadsBack(x: int)
    requires -SIGN_LIMIT < x < SIGN_LIMIT
    ensures Offtin(Offtout(x)) == x
  {
    assert Pow256(8) == 2 * SIGN_LIMIT by {
      assert Pow256(4) == 0x1_0000_0000;
      assert Pow256(8) == 256 * 256 * 256 * 256 * Pow256(4);
    }
    OfftinIsSignMagnitude(Offtout(x));
    LittleEndianReadsBack(if x >= 0 then x else -x + SIGN_LIMIT, 8);
  }

  /** Only a negative zero is not written the way it was read. */
  lemma OfftoutWritesBack(buf: seq<byte>)
    requires |buf| == 8
    ensures -SIGN_LIMIT < Offtin(buf) < SIGN_LIMIT
    ensures Offtout(Offtin(buf)) == buf <==> LittleEndian(buf) != SIGN_LIMIT
  {
    hide Offtin, LittleEndian, ToLittleEndian, Pow256;
    OfftinIsSignMagnitude(buf);
    LittleEndianIsUnique(buf);
    if LittleEndian(buf) == SIGN_LIMIT {
      Zero8();
    }
  }

  lemma Zero8()
    ensures LittleEndian(ToLittleEndian(0, 8)) == 0
  {
    LittleEndianReadsBack(0, 8);
  }

  // ----- edit scripts -----

  /** Add `add` old bytes to the diff, copy `copy` extra bytes, then skip `seek`
      old bytes (backwards if negative). */
  datatype Edit = Edit(add: int, copy: int, seek: int)

  /** The edits in a control block; what is left over at its end is no edit. */
  function Edits(ctrl: seq<byte>): seq<Edit> {
    if |ctrl| < 24 then [] else [Edit(Offtin(ctrl[..8]), Offtin(ctrl[8..16]), Offtin(ctrl[16..24]))] + Edits(ctrl[24..])
  }

  predicate Forwards(script: seq<Edit>) {
    forall k | 0 <= k < |script| :: script[k].add >= 0 && script[k].copy >= 0
  }

  /** The old byte at `pos`, or 0 outside the old file. */
  function OldByte(old_: seq<byte>, pos: int): byte {
    if 0 <= pos < |old_| then old_[pos] else 0
  }

  function AddOld(diff: seq<byte>, old_: seq<byte>, pos: int): (r: seq<byte>)
    ensures |r| == |diff|
  {
    seq(|diff|, i requires 0 <= i < |diff| => (diff[i] + OldByte(old_, pos + i) as int) % 256)
  }

  /** The bytes written so far, and whether they are the whole new file. */
  datatype Progress = Progress(bytes: seq<byte>, complete: bool)

  function Continue(first: seq<byte>, rest: Progress): Progress {
    Progress(first + rest.bytes, rest.complete)
  }

  /** What a script writes, given the old file, the diff block and the extra
      block, when `room` bytes are still to come: it stops early if it runs out
      of edits or of bytes, or makes too many. */
  function Run(old_: seq<byte>, script: seq<Edit>, diff: seq<byte>, extra: seq<byte>, pos: int,
      room: nat): (r: Progress)
    requires Forwards(script)
    ensures |r.bytes| <= room && (r.complete ==> |r.bytes| == room)
  {
    if room == 0 then Progress([], true)
    else if script == [] then Progress([], false)
    else
      var e := script[0];
      if e.add > room || e.add > |diff| then Progress([], false)
      else if e.add + e.copy > room || e.copy > |extra| then Progress(AddOld(diff[..e.add], old_, pos), false)
      else
        Continue(AddOld(diff[..e.add], old_, pos) + extra[..e.copy],
                 Run(old_, script[1..], diff[e.add..], extra[e.copy..], pos + e.add + e.seek, room - e.add - e.copy))
  }

  /** The new file, if the script gets to its end. */
  function Patched(old_: seq<byte>, script: seq<Edit>, diff: seq<byte>, extra: seq<byte>, pos: int,
      room: nat): (r: Option<seq<byte>>)
    requires Forwards(script)
    ensures r.Some? ==> |r.value| == room
  {
    var run := Run(old_, script, diff, extra, pos, room);
    if run.complete then Some(run.bytes) else None
  }

  // ----- patching in place -----

  lemma ContinueIs(first: seq<byte>, rest: Progress)
    ensures Continue(first, rest) == Progress(first + rest.bytes, rest.complete)
  {
  }

  lemma ContinueNothing(first: seq<byte>, rest: Progress, complete: bool)
    ensures Continue([], rest) == rest && Continue(first, Progress([], complete)) == Progress(first, complete)
  {
    assert first + [] == first && [] + rest.bytes == rest.bytes;
  }

  /** Copies the diff bytes and then adds the old bytes to them. */
  method AddInto(dst: array<byte>, at: nat, diff: seq<byte>, old_: seq<byte>, pos: int)
    requires at + |diff| <= dst.Length
    modifies dst
    ensures dst[..at + |diff|] == old(dst[..at]) + AddOld(diff, old_, pos)
    ensures forall i | 0 <= i < |diff| ::
              dst[at + i] == (diff[i] + (if 0 <= pos + i < |old_| then old_[pos + i] as int else 0)) % 256
    ensures forall k | at + |diff| <= k < dst.Length :: dst[k] == old(dst[k])
  {
    hide *;
    CopyInto(dst, at, diff);
    ghost var copied := dst[..];
    assert dst[..at + |diff|] == copied[..at + |diff|];
    AddOldBytes(dst, at, |diff|, old_, pos);
    AddedInto(old(dst[..]), copied, dst[..], at, diff, old_, pos);
    assert old(dst[..])[..at] == old(dst[..at]) && dst[..][..at + |diff|] == dst[..at + |diff|];
  }

  /** Bytes copied to `at` and then added to. */
  lemma AddedInto(before: seq<byte>, copied: seq<byte>, now: seq<byte>, at: nat, diff: seq<byte>, old_: seq<byte>,
      pos: int)
    requires at + |diff| <= |before| == |copied| == |now| && copied[..at + |diff|] == before[..at] + diff
    requires forall k | at <= k < at + |diff| ::
              now[k] == (copied[k] + (if 0 <= pos + (k - at) < |old_| then old_[pos + (k - at)] as int else 0)) % 256
    requires forall k | 0 <= k < at :: now[k] == copied[k]
    ensures now[..at + |diff|] == before[..at] + AddOld(diff, old_, pos)
    ensures forall i | 0 <= i < |diff| ::
              now[at + i] == (diff[i] + (if 0 <= pos + i < |old_| then old_[pos + i] as int else 0)) % 256
  {
    hide *;
    forall i | 0 <= i < |diff|
      ensures now[at + i] == (diff[i] + (if 0 <= pos + i < |old_| then old_[pos + i] as int else 0)) % 256
    {
      assert copied[at + i] == copied[..at + |diff|][at + i] == diff[i];
    }
    AddedIs(now[at..at + |diff|], diff, old_, pos);
    forall k | 0 <= k < at
      ensures now[k] == before[k]
    {
      assert copied[k] == copied[..at + |diff|][k] == before[..at][k];
    }
    assert now[..at] == before[..at];
    assert now[..at + |diff|] == now[..at] + now[at..at + |diff|];
  }

  /** The loop that adds the old bytes to `n` bytes in place. */
  method AddOldBytes(dst: array<byte>, at: nat, n: nat, old_: seq<byte>, pos: int)
    requires at + n <= dst.Length
    modifies dst
    ensures forall k | at <= k < at + n ::
              dst[k] == (old(dst[k]) + (if 0 <= pos + (k - at) < |old_| then old_[pos + (k - at)] as int else 0)) % 256
    ensures forall k | 0 <= k < at || at + n <= k < dst.Length :: dst[k] == old(dst[k])
  {
    for i := 0 to n
      invariant forall k | 0 <= k < at || at + i <= k < dst.Length :: dst[k] == old(dst[k])
      invariant forall k | at <= k < at + i ::
                dst[k] == (old(dst[k])
                              + (if 0 <= pos + (k - at) < |old_| then old_[pos + (k - at)] as int else 0)) % 256
    {
      if 0 <= pos + i < |old_| {
        dst[at + i] := (dst[at + i] + old_[pos + i] as int) % 256;
      }
    }
  }

  lemma AddedIs(now: seq<byte>, diff: seq<byte>, old_: seq<byte>, pos: int)
    requires |now| == |diff| && forall i | 0 <= i < |diff| ::
              now[i] == (diff[i] + (if 0 <= pos + i < |old_| then old_[pos + i] as int else 0)) % 256
    ensures now == AddOld(diff, old_, pos)
  {
    var sum := AddOld(diff, old_, pos);
    forall i | 0 <= i < |diff|
      ensures now[i] == sum[i]
    {
      assert OldByte(old_, pos + i) == if 0 <= pos + i < |old_| then old_[pos + i] else 0;
    }
  }

  predicate ForwardsFrom(ctrl: seq<byte>, c: nat)
    requires c <= |ctrl|
  {
    Forwards(Edits(ctrl[c..]))
  }

  /** What is still to be made when the three blocks have been read up to `c`, `d` and `x`. */
  function ToCome(old_: seq<byte>, ctrl: seq<byte>, c: nat, diff: seq<byte>, d: nat, extra: seq<byte>, x: nat,
      pos: int, room: nat)
    : (r: Progress)
    requires c <= |ctrl| && d <= |diff| && x <= |extra| && ForwardsFrom(ctrl, c)
    ensures |r.bytes| <= room
  {
    Run(old_, Edits(ctrl[c..]), diff[d..], extra[x..], pos, room)
  }

  /** One edit, read at the three cursors. */
  lemma OneEdit(old_: seq<byte>, ctrl: seq<byte>, c: nat, diff: seq<byte>, d: nat, extra: seq<byte>, x: nat, pos: int,
      room: nat)
    requires c <= |ctrl| && d <= |diff| && x <= |extra| && room > 0 && ForwardsFrom(ctrl, c)
    ensures c + 24 > |ctrl| ==> ToCome(old_, ctrl, c, diff, d, extra, x, pos, room) == Progress([], false)
    ensures c + 24 <= |ctrl| ==>
              var add, copy, seek := Offtin(ctrl[c..c + 8]), Offtin(ctrl[c + 8..c + 16]), Offtin(ctrl[c + 16..c + 24]);
              && add >= 0 && copy >= 0 && ForwardsFrom(ctrl, c + 24)
              && ToCome(old_, ctrl, c, diff, d, extra, x, pos, room)
                 == if add > room || d + add > |diff| then Progress([], false)
                    else if add + copy > room || x + copy > |extra|
                        then Progress(AddOld(diff[d..d + add], old_, pos), false)
                    else Continue(AddOld(diff[d..d + add], old_, pos) + extra[x..x + copy],
                                  ToCome(old_, ctrl, c + 24, diff, d + add, extra, x + copy, pos + add + seek,
                                      room - add - copy))
  {
    hide Offtin, AddOld, Continue;
    if c + 24 <= |ctrl| {
      var rest := ctrl[c..];
      assert rest[..8] == ctrl[c..c + 8] && rest[8..16] == ctrl[c + 8..c + 16] && rest[16..24] == ctrl[c + 16..c + 24];
      assert rest[24..] == ctrl[c + 24..];
      var e := Edit(Offtin(ctrl[c..c + 8]), Offtin(ctrl[c + 8..c + 16]), Offtin(ctrl[c + 16..c + 24]));
      var script := Edits(rest);
      assert script[0] == e && script[1..] == Edits(ctrl[c + 24..]);
      if d + e.add <= |diff| {
        assert diff[d..][..e.add] == diff[d..d + e.add] && diff[d..][e.add..] == diff[d + e.add..];
      }
      if x + e.copy <= |extra| {
        assert extra[x..][..e.copy] == extra[x..x + e.copy] && extra[x..][e.copy..] == extra[x + e.copy..];
      }
    }
  }

  lemma ContinueTwice(first: seq<byte>, second: seq<byte>, rest: Progress)
    ensures Continue(first, Continue(second, rest)) == Continue(first + second, rest)
  {
    assert first + (second + rest.bytes) == first + second + rest.bytes;
  }

  lemma AtTheStart(old_: seq<byte>, ctrl: seq<byte>, diff: seq<byte>, extra: seq<byte>, pos: int, room: nat)
    requires Forwards(Edits(ctrl))
    ensures ForwardsFrom(ctrl, 0)
    ensures ToCome(old_, ctrl, 0, diff, 0, extra, 0, pos, room) == Run(old_, Edits(ctrl), diff, extra, pos, room)
  {
    assert ctrl[0..] == ctrl && diff[0..] == diff && extra[0..] == extra;
  }

  lemma AtTheEnd(old_: seq<byte>, ctrl: seq<byte>, c: nat, diff: seq<byte>, d: nat, extra: seq<byte>, x: nat, pos: int)
    requires c <= |ctrl| && d <= |diff| && x <= |extra| && ForwardsFrom(ctrl, c)
    ensures ToCome(old_, ctrl, c, diff, d, extra, x, pos, 0) == Progress([], true)
  {
  }

  /** The first bytes of `now` are `bytes`, the others those of `before`. */
  predicate Overwritten(before: seq<byte>, bytes: seq<byte>, now: seq<byte>) {
    |bytes| <= |before| == |now| && now[..|bytes|] == bytes && forall k | |bytes| <= k < |now| :: now[k] == before[k]
  }

  lemma OverwrittenTo(before: seq<byte>, bytes: seq<byte>, now: seq<byte>, n: nat)
    requires n == |bytes| <= |before| == |now| && now[..n] == bytes && forall k | n <= k < |now| :: now[k] == before[k]
    ensures Overwritten(before, bytes, now)
  {
  }

  /** The patch loop of `bspatch_mem`: all blocks are read from front to back,
      `new_` is filled from front to back, as far as the script gets. */
  method PatchLoop(old_: seq<byte>, ctrl: seq<byte>, diff: seq<byte>, extra: seq<byte>, hasExtraBlock: bool,
      new_: array<byte>)
    returns (error: int)
    requires Forwards(Edits(ctrl)) && (!hasExtraBlock ==> extra == [])
    modifies new_
    ensures error == if Run(old_, Edits(ctrl), diff, extra, 0, new_.Length).complete then 0 else -1
    ensures Overwritten(old(new_[..]), Run(old_, Edits(ctrl), diff, extra, 0, new_.Length).bytes, new_[..])
  {
    hide *;
    var newsize := new_.Length;
    var newpos: nat, oldpos := 0, 0;
    var ctrlpos: nat, diffpos: nat, extrapos: nat := 0, 0, 0;
    ghost var goal := Run(old_, Edits(ctrl), diff, extra, 0, newsize);
    ghost var before := new_[..];
    AtTheStart(old_, ctrl, diff, extra, 0, newsize);
    ContinueNothing([], goal, false);
    while newpos < newsize
      invariant newpos <= newsize && ctrlpos <= |ctrl| && diffpos <= |diff| && extrapos <= |extra|
      invariant ForwardsFrom(ctrl, ctrlpos)
      invariant goal == Continue(new_[..newpos],
                ToCome(old_, ctrl, ctrlpos, diff, diffpos, extra, extrapos, oldpos, newsize - newpos))
      invariant forall k | newpos <= k < newsize :: new_[k] == before[k]
      decreases |ctrl| - ctrlpos
    {
      OneEdit(old_, ctrl, ctrlpos, diff, diffpos, extra, extrapos, oldpos, newsize - newpos);
      ghost var done := new_[..newpos];
      ContinueNothing(done, goal, false);
      OverwrittenTo(before, done, new_[..], newpos);
      if ctrlpos + 8 > |ctrl| { return -1; }
      var add := Offtin(ctrl[ctrlpos..ctrlpos + 8]);
      ctrlpos := ctrlpos + 8;
      if ctrlpos + 8 > |ctrl| { return -1; }
      var copy := Offtin(ctrl[ctrlpos..ctrlpos + 8]);
      ctrlpos := ctrlpos + 8;
      if ctrlpos + 8 > |ctrl| { return -1; }
      var seek := Offtin(ctrl[ctrlpos..ctrlpos + 8]);
      ctrlpos := ctrlpos + 8;
      if newpos + add > newsize { return -1; }
      if diffpos + add > |diff| { return -1; }
      ghost var added := AddOld(diff[diffpos..diffpos + add], old_, oldpos);
      AddInto(new_, newpos, diff[diffpos..diffpos + add], old_, oldpos);
      diffpos := diffpos + add;
      newpos := newpos + add;
      oldpos := oldpos + add;
      OverwrittenTo(before, done + added, new_[..], newpos);
      ContinueIs(done, Progress(added, false));
      if newpos + copy > newsize { return -1; }
      if extrapos + copy > |extra| { return -1; }
      ghost var copied := extra[extrapos..extrapos + copy];
      if hasExtraBlock {
        CopyInto(new_, newpos, extra[extrapos..extrapos + copy]);
        extrapos := extrapos + copy;
      }
      newpos := newpos + copy;
      oldpos := oldpos + seek;
      assert new_[..newpos] == done + added + copied == done + (added + copied);
      ContinueTwice(done, added + copied,
          ToCome(old_, ctrl, ctrlpos, diff, diffpos, extra, extrapos, oldpos, newsize - newpos));
    }
    AtTheEnd(old_, ctrl, ctrlpos, diff, diffpos, extra, extrapos, oldpos);
    ContinueNothing(new_[..], goal, true);
    assert new_[..newpos] == new_[..];
    OverwrittenTo(before, new_[..], new_[..], newsize);
    return 0;
  }

  // ----- where every byte comes from -----

  /** How far the edits before number `k` have moved in the new file, in the diff
      block, in the extra block and in the old file. */
  datatype Cursors = Cursors(made: int, diff: int, extra: int, old_: int)

  function Behind(script: seq<Edit>, k: nat, pos: int): Cursors
    requires k <= |script|
  {
    if k == 0 then Cursors(0, 0, 0, pos)
    else
      var (c, e) := (Behind(script, k - 1, pos), script[k - 1]);
      Cursors(c.made + e.add + e.copy, c.diff + e.add, c.extra + e.copy, c.old_ + e.add + e.seek)
  }

  lemma FirstBytes(old_: seq<byte>, script: seq<Edit>, diff: seq<byte>, extra: seq<byte>, pos: int, room: nat, i: nat)
    requires Forwards(script) && script != [] && i < |Run(old_, script, diff, extra, pos, room).bytes|
    ensures i < script[0].add ==>
              i < |diff| && Run(old_, script, diff, extra, pos, room).bytes[i]
              == (diff[i] + (if 0 <= pos + i < |old_| then old_[pos + i] as int else 0)) % 256
    ensures script[0].add <= i < script[0].add + script[0].copy ==>
              i - script[0].add < |extra|
              && Run(old_, script, diff, extra, pos, room).bytes[i] == extra[i - script[0].add]
  {
  }

  /** Behind the bytes of the first edit come those of the others. */
  lemma RunGoesOn(old_: seq<byte>, script: seq<Edit>, diff: seq<byte>, extra: seq<byte>, pos: int, room: nat, e: Edit)
    requires Forwards(script) && script != [] && script[0] == e
    requires e.add + e.copy < |Run(old_, script, diff, extra, pos, room).bytes|
    ensures 0 <= e.add <= |diff| && 0 <= e.copy <= |extra| && e.add + e.copy <= room && Forwards(script[1..])
    ensures Run(old_, script[1..], diff[e.add..], extra[e.copy..], pos + e.add + e.seek, room - e.add - e.copy).bytes
            == Run(old_, script, diff, extra, pos, room).bytes[e.add + e.copy..]
  {
    var first := AddOld(diff[..e.add], old_, pos) + extra[..e.copy];
    var rest := Run(old_, script[1..], diff[e.add..], extra[e.copy..], pos + e.add + e.seek, room - e.add - e.copy);
    assert Run(old_, script, diff, extra, pos, room) == Continue(first, rest);
    hide Run, AddOld;
    assert (first + rest.bytes)[|first|..] == rest.bytes;
  }

  /** Before edit `k` everything stands at its cursors. */
  lemma {:induction false} RunFrom(old_: seq<byte>, script: seq<Edit>, diff: seq<byte>, extra: seq<byte>, pos: int,
      room: nat, k: nat, c: Cursors)
    requires Forwards(script) && k < |script| && c == Behind(script, k, pos)
    requires c.made < |Run(old_, script, diff, extra, pos, room).bytes|
    ensures 0 <= c.made <= room && 0 <= c.diff <= |diff| && 0 <= c.extra <= |extra| && Forwards(script[k..])
    ensures Run(old_, script[k..], diff[c.diff..], extra[c.extra..], c.old_, room - c.made).bytes
            == Run(old_, script, diff, extra, pos, room).bytes[c.made..]
    decreases k
  {
    hide Run;
    if k == 0 {
      assert script[0..] == script && diff[0..] == diff && extra[0..] == extra;
    } else {
      var b, e := Behind(script, k - 1, pos), script[k - 1];
      assert e.add >= 0 && e.copy >= 0;
      RunFrom(old_, script, diff, extra, pos, room, k - 1, b);
      hide Behind, Forwards;
      RunGoesOn(old_, script[k - 1..], diff[b.diff..], extra[b.extra..], b.old_, room - b.made, e);
      assert script[k - 1..][1..] == script[k..];
      assert diff[b.diff..][e.add..] == diff[c.diff..] && extra[b.extra..][e.copy..] == extra[c.extra..];
      var bytes := Run(old_, script, diff, extra, pos, room).bytes;
      assert bytes[b.made..][e.add + e.copy..] == bytes[c.made..];
    }
  }

  /** Every byte that an edit adds is, modulo 256, the diff byte in turn plus the
      old byte at its position, if there is one. */
  lemma AddedBytes(old_: seq<byte>, script: seq<Edit>, diff: seq<byte>, extra: seq<byte>, pos: int, room: nat, k: nat,
      c: Cursors, i: nat)
    requires Forwards(script) && k < |script| && c == Behind(script, k, pos) && i < script[k].add
    requires c.made + i < |Run(old_, script, diff, extra, pos, room).bytes|
    ensures c.made >= 0 && 0 <= c.diff && c.diff + i < |diff|
    ensures Run(old_, script, diff, extra, pos, room).bytes[c.made + i]
            == (diff[c.diff + i] + (if 0 <= c.old_ + i < |old_| then old_[c.old_ + i] as int else 0)) % 256
  {
    hide Run, Behind, Forwards;
    RunFrom(old_, script, diff, extra, pos, room, k, c);
    FirstBytes(old_, script[k..], diff[c.diff..], extra[c.extra..], c.old_, room - c.made, i);
  }

  /** Every byte that an edit copies is the extra byte in turn. */
  lemma CopiedBytes(old_: seq<byte>, script: seq<Edit>, diff: seq<byte>, extra: seq<byte>, pos: int, room: nat, k: nat,
      c: Cursors, i: nat)
    requires Forwards(script) && k < |script| && c == Behind(script, k, pos) && i < script[k].copy
    requires c.made + script[k].add + i < |Run(old_, script, diff, extra, pos, room).bytes|
    ensures script[k].add >= 0 && c.made >= 0 && 0 <= c.extra && c.extra + i < |extra|
    ensures Run(old_, script, diff, extra, pos, room).bytes[c.made + script[k].add + i] == extra[c.extra + i]
  {
    assert script[k].add >= 0;
    hide Run, Behind, Forwards;
    RunFrom(old_, script, diff, extra, pos, room, k, c);
    FirstBytes(old_, script[k..], diff[c.diff..], extra[c.extra..], c.old_, room - c.made, script[k].add + i);
  }

  lemma OneEditDone(old_: seq<byte>, script: seq<Edit>, diff: seq<byte>, extra: seq<byte>, pos: int, room: nat, e: Edit)
    requires Forwards(script) && script != [] && script[0] == e
    requires e.add + e.copy <= room && e.add <= |diff| && e.copy <= |extra|
    ensures 0 <= e.add && 0 <= e.copy && Forwards(script[1..])
    ensures var run := Run(old_, script, diff, extra, pos, room);
            && e.add + e.copy <= |run.bytes|
            && Run(old_, script[1..], diff[e.add..], extra[e.copy..], pos + e.add + e.seek, room - e.add - e.copy)
               == Progress(run.bytes[e.add + e.copy..], run.complete)
  {
    var first := AddOld(diff[..e.add], old_, pos) + extra[..e.copy];
    var rest := Run(old_, script[1..], diff[e.add..], extra[e.copy..], pos + e.add + e.seek, room - e.add - e.copy);
    if room > 0 {
      assert Run(old_, script, diff, extra, pos, room) == Continue(first, rest);
      hide Run, AddOld;
      assert (first + rest.bytes)[|first|..] == rest.bytes;
    }
  }

  /** Edits for which there are bytes and room are carried out. */
  lemma {:induction false} RunReaches(old_: seq<byte>, script: seq<Edit>, diff: seq<byte>, extra: seq<byte>, pos: int,
      room: nat, k: nat, c: Cursors)
    requires Forwards(script) && k <= |script| && c == Behind(script, k, pos)
    requires c.made <= room && c.diff <= |diff| && c.extra <= |extra|
    ensures c.made >= 0 && c.diff >= 0 && c.extra >= 0 && Forwards(script[k..])
    ensures var run := Run(old_, script, diff, extra, pos, room);
            && c.made <= |run.bytes|
            && Run(old_, script[k..], diff[c.diff..], extra[c.extra..], c.old_, room - c.made)
               == Progress(run.bytes[c.made..], run.complete)
    decreases k
  {
    hide Run;
    if k == 0 {
      assert script[0..] == script && diff[0..] == diff && extra[0..] == extra;
      var run := Run(old_, script, diff, extra, pos, room);
      assert run.bytes[0..] == run.bytes;
    } else {
      var b, e := Behind(script, k - 1, pos), script[k - 1];
      assert e.add >= 0 && e.copy >= 0;
      RunReaches(old_, script, diff, extra, pos, room, k - 1, b);
      hide Behind, Forwards;
      OneEditDone(old_, script[k - 1..], diff[b.diff..], extra[b.extra..], b.old_, room - b.made, e);
      assert script[k - 1..][1..] == script[k..];
      assert diff[b.diff..][e.add..] == diff[c.diff..] && extra[b.extra..][e.copy..] == extra[c.extra..];
      var bytes := Run(old_, script, diff, extra, pos, room).bytes;
      assert bytes[b.made..][e.add + e.copy..] == bytes[c.made..];
    }
  }

  /** Where a run stops: when the new file is full, when the script is at its end,
      in front of an edit whose diff bytes are missing or too many, or behind
      what such an edit adds if only its extra bytes are. */
  lemma StopsExactly(old_: seq<byte>, script: seq<Edit>, diff: seq<byte>, extra: seq<byte>, pos: int, room: nat, k: nat,
      c: Cursors)
    requires Forwards(script) && k <= |script| && c == Behind(script, k, pos)
    requires c.made <= room && c.diff <= |diff| && c.extra <= |extra|
    ensures var run := Run(old_, script, diff, extra, pos, room);
            && (c.made == room ==> run.complete && |run.bytes| == room)
            && (c.made < room && k == |script| ==> !run.complete && |run.bytes| == c.made)
            && (c.made < room && k < |script| ==>
                  if c.made + script[k].add > room || c.diff + script[k].add > |diff| then
                    !run.complete && |run.bytes| == c.made
                  else
                    c.made + script[k].add + script[k].copy > room || c.extra + script[k].copy > |extra| ==>
                      !run.complete && |run.bytes| == c.made + script[k].add)
  {
    RunReaches(old_, script, diff, extra, pos, room, k, c);
    hide Behind;
    assert k < |script| ==> script[k..][0] == script[k];
  }

  /** One edit over all of the old file with nothing to add gives the old file. */
  lemma NoChangeGivesOldFile(old_: seq<byte>, extra: seq<byte>, seek: int)
    ensures Run(old_, [Edit(|old_|, 0, seek)], Zeros(|old_|), extra, 0, |old_|) == Progress(old_, true)
  {
    var script, diff := [Edit(|old_|, 0, seek)], Zeros(|old_|);
    var run := Run(old_, script, diff, extra, 0, |old_|);
    if old_ != [] {
      assert diff[..|old_|] == diff;
      assert Run(old_, [], [], extra, |old_| + seek, 0) == Progress([], true);
      assert diff[|old_|..] == [] && extra[0..] == extra && script[1..] == [];
      assert run.complete && |run.bytes| == |old_|;
      forall i | 0 <= i < |old_|
        ensures run.bytes[i] == old_[i]
      {
        FirstBytes(old_, script, diff, extra, 0, |old_|, i);
      }
      assert run.bytes == old_;
    }
  }

  // ----- making a patch -----

  /** The script makes exactly `room` bytes before it ends. */
  predicate Fits(script: seq<Edit>, room: int) {
    room == 0 || (script != [] && script[0].add + script[0].copy <= room
        && Fits(script[1..], room - script[0].add - script[0].copy))
  }

  function Total(script: seq<Edit>): int {
    if script == [] then 0 else script[0].add + script[0].copy + Total(script[1..])
  }

  lemma {:induction false} TotalIsNatural(script: seq<Edit>)
    requires Forwards(script)
    ensures Total(script) >= 0
  {
    if script != [] {
      TotalIsNatural(script[1..]);
    }
  }

  lemma {:induction false} WholeScriptFits(script: seq<Edit>)
    requires Forwards(script)
    ensures Fits(script, Total(script))
  {
    if script != [] {
      WholeScriptFits(script[1..]);
      TotalIsNatural(script[1..]);
    }
  }

  function SubtractOld(new_: seq<byte>, old_: seq<byte>, pos: int): (r: seq<byte>)
    ensures |r| == |new_|
  {
    seq(|new_|, i requires 0 <= i < |new_| => (new_[i] - OldByte(old_, pos + i) as int) % 256)
  }

  /** The diff block for a script: new minus old bytes. */
  function DiffOf(old_: seq<byte>, new_: seq<byte>, script: seq<Edit>, pos: int): (d: seq<byte>)
    requires Forwards(script) && Fits(script, |new_|)
    ensures |d| <= |new_|
  {
    if new_ == [] then []
    else
      var e := script[0];
      SubtractOld(new_[..e.add], old_, pos) + DiffOf(old_, new_[e.add + e.copy..], script[1..], pos + e.add + e.seek)
  }

  /** The extra block for a script: the new bytes as they are. */
  function ExtraOf(new_: seq<byte>, script: seq<Edit>): (x: seq<byte>)
    requires Forwards(script) && Fits(script, |new_|)
    ensures |x| <= |new_|
  {
    if new_ == [] then []
    else
      var e := script[0];
      new_[e.add..e.add + e.copy] + ExtraOf(new_[e.add + e.copy..], script[1..])
  }

  lemma AddOldUndoes(diff: seq<byte>, new_: seq<byte>, old_: seq<byte>, pos: int)
    requires |diff| == |new_|
    ensures AddOld(diff, old_, pos) == new_ <==> diff == SubtractOld(new_, old_, pos)
  {
    var sum, sub := AddOld(diff, old_, pos), SubtractOld(new_, old_, pos);
    forall i | 0 <= i < |diff|
      ensures sum[i] == new_[i] <==> diff[i] == sub[i]
    {
    }
    if sum == new_ {
      assert forall i | 0 <= i < |diff| :: diff[i] == sub[i];
    }
    if diff == sub {
      assert forall i | 0 <= i < |diff| :: sum[i] == new_[i];
    }
  }

  /** `a + b` starts `c` exactly if `a` starts it and `b` starts what follows. */
  lemma StartsInTwo(a: seq<byte>, b: seq<byte>, c: seq<byte>)
    ensures a + b <= c <==> |a| <= |c| && c[..|a|] == a && b <= c[|a|..]
  {
    if a + b <= c {
      assert c[..|a|] == (a + b)[..|a|] == a;
      assert c[|a|..][..|b|] == c[..|a + b|][|a|..] == b;
    }
    if |a| <= |c| && c[..|a|] == a && b <= c[|a|..] {
      assert c == a + c[|a|..];
    }
  }

  function Then(first: seq<byte>, rest: Option<seq<byte>>): Option<seq<byte>> {
    match rest
    case None => None
    case Some(bytes) => Some(first + bytes)
  }

  lemma ThenMakes(first: seq<byte>, n: nat, second: seq<byte>, m: nat, rest: Option<seq<byte>>, whole: seq<byte>)
    requires |first| == n && |second| == m && n + m <= |whole| && (rest.Some? ==> |rest.value| == |whole| - n - m)
    ensures Then(first + second, rest) == Some(whole)
            <==> first == whole[..n] && second == whole[n..n + m] && rest == Some(whole[n + m..])
  {
    if rest.Some? && first + second + rest.value == whole {
      assert whole[..n] == first && whole[n..n + m] == second && whole[n + m..] == rest.value;
    }
  }

  /** The blocks begin with what the script needs to make `new_`. */
  predicate Encodes(old_: seq<byte>, new_: seq<byte>, script: seq<Edit>, diff: seq<byte>, extra: seq<byte>, pos: int)
    requires Forwards(script)
  {
    Fits(script, |new_|) && DiffOf(old_, new_, script, pos) <= diff && ExtraOf(new_, script) <= extra
  }

  lemma OneEncoded(old_: seq<byte>, new_: seq<byte>, script: seq<Edit>, diff: seq<byte>, extra: seq<byte>, pos: int,
      add: nat, copy: nat)
    requires Forwards(script) && script != [] && new_ != [] && add == script[0].add && copy == script[0].copy
    requires Forwards(script[1..])
    ensures Encodes(old_, new_, script, diff, extra, pos)
            <==> && add + copy <= |new_| && add <= |diff| && copy <= |extra|
                 && diff[..add] == SubtractOld(new_[..add], old_, pos) && extra[..copy] == new_[add..add + copy]
                 && Encodes(old_, new_[add + copy..], script[1..], diff[add..], extra[copy..],
                     pos + add + script[0].seek)
  {
    hide SubtractOld;
    if add + copy <= |new_| && Fits(script[1..], |new_| - add - copy) {
      var rest := new_[add + copy..];
      StartsInTwo(SubtractOld(new_[..add], old_, pos), DiffOf(old_, rest, script[1..], pos + add + script[0].seek),
          diff);
      StartsInTwo(new_[add..add + copy], ExtraOf(rest, script[1..]), extra);
    }
  }

  lemma PatchedUnfolds(old_: seq<byte>, script: seq<Edit>, diff: seq<byte>, extra: seq<byte>, pos: int, room: nat)
    requires Forwards(script) && script != [] && room > 0
    ensures script[0].add >= 0 && script[0].copy >= 0 && Forwards(script[1..])
    ensures var e := script[0];
            Patched(old_, script, diff, extra, pos, room)
            == if e.add + e.copy > room || e.add > |diff| || e.copy > |extra| then None
               else Then(AddOld(diff[..e.add], old_, pos) + extra[..e.copy],
                         Patched(old_, script[1..], diff[e.add..], extra[e.copy..], pos + e.add + e.seek,
                             room - e.add - e.copy))
  {
  }

  lemma OnePatched(old_: seq<byte>, new_: seq<byte>, script: seq<Edit>, diff: seq<byte>, extra: seq<byte>, pos: int,
      add: nat, copy: nat)
    requires Forwards(script) && script != [] && new_ != [] && add == script[0].add && copy == script[0].copy
    requires Forwards(script[1..])
    requires add + copy <= |new_| && add <= |diff| && copy <= |extra|
    ensures Patched(old_, script, diff, extra, pos, |new_|) == Some(new_)
            <==> && diff[..add] == SubtractOld(new_[..add], old_, pos) && extra[..copy] == new_[add..add + copy]
                 && Patched(old_, script[1..], diff[add..], extra[copy..], pos + add + script[0].seek,
                            |new_| - add - copy) == Some(new_[add + copy..])
  {
    hide *;
    PatchedUnfolds(old_, script, diff, extra, pos, |new_|);
    var rest := Patched(old_, script[1..], diff[add..], extra[copy..], pos + add + script[0].seek, |new_| - add - copy);
    var old1, new1, copied := diff[..add], new_[..add], extra[..copy];
    AddOldUndoes(old1, new1, old_, pos);
    var added := AddOld(old1, old_, pos);
    ThenMakes(added, add, copied, copy, rest, new_);
    assert Patched(old_, script, diff, extra, pos, |new_|) == Then(added + copied, rest);
    assert Then(added + copied, rest) == Some(new_)
           <==> && old1 == SubtractOld(new1, old_, pos) && copied == new_[add..add + copy]
                && rest == Some(new_[add + copy..]);
  }

  lemma NothingPatched(old_: seq<byte>, new_: seq<byte>, script: seq<Edit>, diff: seq<byte>, extra: seq<byte>, pos: int)
    requires Forwards(script) && (new_ == [] || script == [])
    ensures Patched(old_, script, diff, extra, pos, |new_|) == Some(new_)
            <==> Encodes(old_, new_, script, diff, extra, pos)
  {
  }

  /** Patching makes `new_` exactly when the script fits it and the blocks
      begin with its diff and its extra bytes. */
  lemma {:induction false} PatchedExactly(old_: seq<byte>, new_: seq<byte>, script: seq<Edit>, diff: seq<byte>,
      extra: seq<byte>, pos: int)
    requires Forwards(script)
    ensures Patched(old_, script, diff, extra, pos, |new_|) == Some(new_)
            <==> Encodes(old_, new_, script, diff, extra, pos)
    decreases script
  {
    hide *;
    if new_ == [] || script == [] {
      NothingPatched(old_, new_, script, diff, extra, pos);
    } else {
      PatchedUnfolds(old_, script, diff, extra, pos, |new_|);
      var add, copy := script[0].add, script[0].copy;
      OneEncoded(old_, new_, script, diff, extra, pos, add, copy);
      if add + copy <= |new_| && add <= |diff| && copy <= |extra| {
        OnePatched(old_, new_, script, diff, extra, pos, add, copy);
        PatchedExactly(old_, new_[add + copy..], script[1..], diff[add..], extra[copy..], pos + add + script[0].seek);
      }
    }
  }

  predicate InRange(script: seq<Edit>) {
    forall k | 0 <= k < |script| ::
      && -SIGN_LIMIT < script[k].add < SIGN_LIMIT && -SIGN_LIMIT < script[k].copy < SIGN_LIMIT
      && -SIGN_LIMIT < script[k].seek < SIGN_LIMIT
  }

  function ControlOf(script: seq<Edit>): (c: seq<byte>)
    requires InRange(script)
    ensures |c| == 24 * |script|
  {
    if script == [] then []
    else Offtout(script[0].add) + Offtout(script[0].copy) + Offtout(script[0].seek) + ControlOf(script[1..])
  }

  lemma {:induction false} ControlReadsBack(script: seq<Edit>)
    requires InRange(script)
    ensures Edits(ControlOf(script)) == script
  {
    if script != [] {
      var e := script[0];
      OfftinReadsBack(e.add);
      OfftinReadsBack(e.copy);
      OfftinReadsBack(e.seek);
      ControlReadsBack(script[1..]);
      hide Offtin, Offtout;
      var c := ControlOf(script);
      assert c[..8] == Offtout(e.add) && c[8..16] == Offtout(e.copy) && c[16..24] == Offtout(e.seek)
          && c[24..] == ControlOf(script[1..]);
      assert Edits(c) == [e] + Edits(c[24..]);
    }
  }

  // ----- patch files -----

  /** "BSDIFF40" */
  const MAGIC: seq<byte> := [66, 83, 68, 73, 70, 70, 52, 48]

  /** The size of the patched file, or -1. */
  function GetNewsize(patch: seq<byte>): int {
    if |patch| < 32 || patch[..8] != MAGIC || Offtin(patch[24..32]) < 0 then -1 else Offtin(patch[24..32])
  }

  predicate HasHeader(patch: seq<byte>) {
    && |patch| >= 32 && patch[..8] == MAGIC
    && Offtin(patch[8..16]) >= 0 && Offtin(patch[16..24]) >= 0 && Offtin(patch[24..32]) >= 0
  }

  /** The header's block lengths stay inside the file. */
  predicate BlocksInside(patch: seq<byte>) {
    HasHeader(patch) && 32 + Offtin(patch[8..16]) + Offtin(patch[16..24]) <= |patch|
  }

  function BlockOffset(patch: seq<byte>, k: int): int
    requires HasHeader(patch)
  {
    32 + (if k > 0 then Offtin(patch[8..16]) else 0) + (if k > 1 then Offtin(patch[16..24]) else 0)
  }

  function BlockSize(patch: seq<byte>, k: int): int
    requires HasHeader(patch)
  {
    if k == 0 then Offtin(patch[8..16]) else if k == 1 then Offtin(patch[16..24]) else |patch| - BlockOffset(patch, 2)
  }

  /** The compressed block `k`; its size is passed on as an `unsigned int`. */
  function Block(patch: seq<byte>, k: int): seq<byte>
    requires BlocksInside(patch) && 0 <= k < 3
  {
    patch[BlockOffset(patch, k)..BlockOffset(patch, k) + BlockSize(patch, k) % UINT_RANGE]
  }

  /** The room reserved for a decompressed block, as an `unsigned int`. */
  function Capacity(newsize: nat): nat {
    newsize % UINT_RANGE * 4 % UINT_RANGE
  }

  function Decompressed(unzip: seq<byte> -> Option<seq<byte>>, patch: seq<byte>, k: int): (r: Option<seq<byte>>)
    requires BlocksInside(patch) && 0 <= k < 3
  {
    match unzip(Block(patch, k))
    case None => None
    case Some(b) => if |b| <= Capacity(GetNewsize(patch)) then Some(b) else None
  }

  predicate AllDecompress(unzip: seq<byte> -> Option<seq<byte>>, patch: seq<byte>)
    requires BlocksInside(patch)
  {
    Decompressed(unzip, patch, 0).Some? && Decompressed(unzip, patch, 1).Some? && Decompressed(unzip, patch, 2).Some?
  }

  /** What the caller vouches for: block lengths inside the file and no
      negative add or copy length. */
  predicate Sane(unzip: seq<byte> -> Option<seq<byte>>, patch: seq<byte>) {
    HasHeader(patch) ==>
      BlocksInside(patch) && (AllDecompress(unzip, patch) ==> Forwards(Edits(Decompressed(unzip, patch, 0).value)))
  }

  /** What applying a patch file writes. */
  function Attempt(unzip: seq<byte> -> Option<seq<byte>>, old_: seq<byte>, patch: seq<byte>): (r: Progress)
    requires Sane(unzip, patch)
    ensures r.complete ==> HasHeader(patch) && |r.bytes| == GetNewsize(patch)
    ensures r.bytes != [] ==> HasHeader(patch) && |r.bytes| <= GetNewsize(patch)
  {
    if !HasHeader(patch) || !AllDecompress(unzip, patch) then Progress([], false)
    else Run(old_, Edits(Decompressed(unzip, patch, 0).value), Decompressed(unzip, patch, 1).value,
             Decompressed(unzip, patch, 2).value, 0, GetNewsize(patch))
  }

  lemma NoHeaderInNothing(patch: seq<byte>)
    ensures HasHeader(patch) ==> patch != []
  {
  }

  lemma SameFile(file: seq<byte>)
    ensures Overwritten(file, [], file)
  {
  }

  lemma BlockIs(patch: seq<byte>, k: int, offset: nat, size: nat)
    requires BlocksInside(patch) && 0 <= k < 3 && offset == BlockOffset(patch, k) && size == BlockSize(patch, k)
    ensures offset + size % UINT_RANGE <= |patch| && patch[offset..offset + size % UINT_RANGE] == Block(patch, k)
  {
  }

  /** `shrinksToNull`: whether `realloc` to no bytes gives a null pointer. */
  method BspatchMem(unzip: seq<byte> -> Option<seq<byte>>, shrinksToNull: bool, old_: seq<byte>, patch: seq<byte>,
      new_: array<byte>)
    returns (error: int)
    requires Sane(unzip, patch) && (HasHeader(patch) ==> new_.Length == GetNewsize(patch))
    modifies new_
    ensures error == if Attempt(unzip, old_, patch).complete then 0 else -1
    ensures Overwritten(old(new_[..]), Attempt(unzip, old_, patch).bytes, new_[..])
  {
    hide Offtin, Run, Edits, Forwards, Capacity, Overwritten, Block;
    SameFile(new_[..]);
    if |patch| < 32 { return -1; }
    if patch[..8] != MAGIC { return -1; }
    var bzctrllen, bzdatalen, newsize := Offtin(patch[8..16]), Offtin(patch[16..24]), Offtin(patch[24..32]);
    if bzctrllen < 0 || bzdatalen < 0 || newsize < 0 { return -1; }
    assert HasHeader(patch) && BlocksInside(patch);
    var offsets := [32, 32 + bzctrllen, 32 + bzctrllen + bzdatalen];
    var sizes := [bzctrllen, bzdatalen, |patch| - (32 + bzctrllen + bzdatalen)];
    var blocks: seq<seq<byte>> := [];
    for i := 0 to 3
      invariant |blocks| == i && new_[..] == old(new_[..])
      invariant forall k | 0 <= k < i :: Decompressed(unzip, patch, k) == Some(blocks[k])
    {
      var size := Capacity(newsize);
      BlockIs(patch, i, offsets[i], sizes[i]);
      var block := unzip(patch[offsets[i]..offsets[i] + sizes[i] % UINT_RANGE]);
      if block.None? || |block.value| > size {
        assert Decompressed(unzip, patch, i) == None && (i == 0 || i == 1 || i == 2);
        return -1;
      }
      blocks := blocks + [block.value];
    }
    error := PatchLoop(old_, blocks[0], blocks[1], blocks[2], !(blocks[2] == [] && shrinksToNull), new_);
  }

  function Header(c: nat, d: nat, n: nat): (h: seq<byte>)
    requires c < SIGN_LIMIT && d < SIGN_LIMIT && n < SIGN_LIMIT
    ensures |h| == 32
  {
    MAGIC + Offtout(c) + Offtout(d) + Offtout(n)
  }

  lemma HeaderReadsBack(c: nat, d: nat, n: nat)
    requires c < SIGN_LIMIT && d < SIGN_LIMIT && n < SIGN_LIMIT
    ensures Header(c, d, n)[..8] == MAGIC && Offtin(Header(c, d, n)[8..16]) == c
    ensures Offtin(Header(c, d, n)[16..24]) == d && Offtin(Header(c, d, n)[24..32]) == n
  {
    hide Offtin, Offtout;
    OfftinReadsBack(c);
    OfftinReadsBack(d);
    OfftinReadsBack(n);
    var h := Header(c, d, n);
    assert h[..8] == MAGIC && h[8..16] == Offtout(c) && h[16..24] == Offtout(d) && h[24..32] == Offtout(n);
  }

  /** The patch file for a script, with each block compressed by `zip`. */
  function PatchFile(zip: seq<byte> -> seq<byte>, old_: seq<byte>, new_: seq<byte>,
      script: seq<Edit>): (patch: seq<byte>)
    requires Packable(zip, old_, new_, script)
  {
    var c, d, x := zip(ControlOf(script)), zip(DiffOf(old_, new_, script, 0)), zip(ExtraOf(new_, script));
    Header(|c|, |d|, |new_|) + c + d + x
  }

  /** The script makes the new file and every length fits its field. */
  predicate Packable(zip: seq<byte> -> seq<byte>, old_: seq<byte>, new_: seq<byte>, script: seq<Edit>) {
    && Forwards(script) && InRange(script) && Fits(script, |new_|) && |new_| < SIGN_LIMIT
    && |zip(ControlOf(script))| < UINT_RANGE && |zip(DiffOf(old_, new_, script, 0))| < UINT_RANGE
    && |zip(ExtraOf(new_, script))| < UINT_RANGE
  }

  /** `unzip` gives back what `zip` took for each of the three blocks. */
  predicate Unzips(zip: seq<byte> -> seq<byte>, unzip: seq<byte> -> Option<seq<byte>>, old_: seq<byte>,
      new_: seq<byte>, script: seq<Edit>)
    requires Packable(zip, old_, new_, script)
  {
    && unzip(zip(ControlOf(script))) == Some(ControlOf(script))
    && unzip(zip(DiffOf(old_, new_, script, 0))) == Some(DiffOf(old_, new_, script, 0))
    && unzip(zip(ExtraOf(new_, script))) == Some(ExtraOf(new_, script))
  }

  lemma HeaderParts(c: nat, d: nat, n: nat, rest: seq<byte>, patch: seq<byte>)
    requires c < SIGN_LIMIT && d < SIGN_LIMIT && n < SIGN_LIMIT
    requires patch == Header(c, d, n) + rest
    ensures HasHeader(patch) && Offtin(patch[8..16]) == c && Offtin(patch[16..24]) == d && Offtin(patch[24..32]) == n
  {
    hide Offtin, Offtout, Header;
    HeaderReadsBack(c, d, n);
    var h := Header(c, d, n);
    assert patch[..8] == h[..8] && patch[8..16] == h[8..16] && patch[16..24] == h[16..24] && patch[24..32] == h[24..32];
  }

  lemma ThreeParts(h: seq<byte>, c: seq<byte>, d: seq<byte>, x: seq<byte>, patch: seq<byte>)
    requires patch == h + c + d + x
    ensures var e := |h| + |c|;
            && patch[|h|..e] == c && patch[e..e + |d|] == d && patch[e + |d|..e + |d| + |x|] == x
            && patch == h + (c + d + x)
  {
    var e := |h| + |c|;
    assert patch[|h|..e] == c;
    assert patch[e..e + |d|] == d;
    assert patch[e + |d|..e + |d| + |x|] == x;
    assert patch == h + (c + d + x);
  }

  lemma PatchFileParts(c: seq<byte>, d: seq<byte>, x: seq<byte>, n: nat, patch: seq<byte>)
    requires |c| < UINT_RANGE && |d| < UINT_RANGE && |x| < UINT_RANGE && n < SIGN_LIMIT
    requires patch == Header(|c|, |d|, n) + c + d + x
    ensures BlocksInside(patch) && GetNewsize(patch) == n
    ensures Block(patch, 0) == c && Block(patch, 1) == d && Block(patch, 2) == x
  {
    hide Offtin, Offtout, Header, HasHeader, BlocksInside, BlockOffset, BlockSize, Block, GetNewsize;
    var h := Header(|c|, |d|, n);
    ThreeParts(h, c, d, x, patch);
    HeaderParts(|c|, |d|, n, c + d + x, patch);
    BlocksAre(patch, |c|, |d|, |x|, n);
  }

  lemma BlocksAre(patch: seq<byte>, c: nat, d: nat, x: nat, n: nat)
    requires HasHeader(patch) && Offtin(patch[8..16]) == c && Offtin(patch[16..24]) == d && Offtin(patch[24..32]) == n
    requires |patch| == 32 + c + d + x && c < UINT_RANGE && d < UINT_RANGE && x < UINT_RANGE
    ensures BlocksInside(patch) && GetNewsize(patch) == n
    ensures Block(patch, 0) == patch[32..32 + c] && Block(patch, 1) == patch[32 + c..32 + c + d]
    ensures Block(patch, 2) == patch[32 + c + d..32 + c + d + x]
  {
    hide Offtin;
  }

  predicate BlocksFit(old_: seq<byte>, new_: seq<byte>, script: seq<Edit>)
    requires Forwards(script) && Fits(script, |new_|)
  {
    var room := Capacity(|new_|);
    24 * |script| <= room && |DiffOf(old_, new_, script, 0)| <= room && |ExtraOf(new_, script)| <= room
  }

  lemma DecompressedIs(unzip: seq<byte> -> Option<seq<byte>>, patch: seq<byte>, k: int, b: seq<byte>)
    requires BlocksInside(patch) && 0 <= k < 3 && unzip(Block(patch, k)) == Some(b)
    ensures HasHeader(patch) && GetNewsize(patch) >= 0
    ensures Decompressed(unzip, patch, k) == if |b| <= Capacity(GetNewsize(patch)) then Some(b) else None
  {
    hide Offtin, Block, Capacity;
  }

  lemma AttemptFrom(unzip: seq<byte> -> Option<seq<byte>>, old_: seq<byte>, patch: seq<byte>, ctrl: seq<byte>,
      diff: seq<byte>, extra: seq<byte>)
    requires BlocksInside(patch) && Forwards(Edits(ctrl)) && GetNewsize(patch) >= 0
    requires unzip(Block(patch, 0)) == Some(ctrl) && unzip(Block(patch, 1)) == Some(diff)
    requires unzip(Block(patch, 2)) == Some(extra)
    ensures Sane(unzip, patch)
    ensures var room := Capacity(GetNewsize(patch));
            Attempt(unzip, old_, patch)
            == if |ctrl| <= room && |diff| <= room && |extra| <= room
                then Run(old_, Edits(ctrl), diff, extra, 0, GetNewsize(patch))
               else Progress([], false)
  {
    hide Offtin, Block, Capacity, GetNewsize, Run, Edits, Forwards, HasHeader, BlocksInside, Decompressed;
    DecompressedIs(unzip, patch, 0, ctrl);
    DecompressedIs(unzip, patch, 1, diff);
    DecompressedIs(unzip, patch, 2, extra);
  }

  /** A patch file works exactly when its decompressed blocks fit the room
      reserved for them; then it makes the new file, else it writes nothing. */
  lemma PatchFileWorks(zip: seq<byte> -> seq<byte>, unzip: seq<byte> -> Option<seq<byte>>, old_: seq<byte>,
      new_: seq<byte>, script: seq<Edit>)
    requires Packable(zip, old_, new_, script) && Unzips(zip, unzip, old_, new_, script)
    ensures Sane(unzip, PatchFile(zip, old_, new_, script)) && GetNewsize(PatchFile(zip, old_, new_, script)) == |new_|
    ensures HasHeader(PatchFile(zip, old_, new_, script))
    ensures Attempt(unzip, old_, PatchFile(zip, old_, new_, script))
            == if BlocksFit(old_, new_, script) then Progress(new_, true) else Progress([], false)
  {
    var patch := PatchFile(zip, old_, new_, script);
    hide Header, ControlOf, DiffOf, ExtraOf, Fits, Run, Block, Edits, Capacity, GetNewsize, HasHeader, Sane, Attempt,
        InRange, Forwards;
    var ctrl, diff, extra := ControlOf(script), DiffOf(old_, new_, script, 0), ExtraOf(new_, script);
    PatchFileParts(zip(ctrl), zip(diff), zip(extra), |new_|, patch);
    ControlReadsBack(script);
    AttemptFrom(unzip, old_, patch, ctrl, diff, extra);
    PatchedExactly(old_, new_, script, diff, extra, 0);
    assert Encodes(old_, new_, script, diff, extra, 0);
  }

  /** Below 1 GiB only the number of edits matters: a patch with more than one
      edit for every six bytes of the new file is refused. */
  lemma FailsExactlyWithManyEdits(zip: seq<byte> -> seq<byte>, unzip: seq<byte> -> Option<seq<byte>>, old_: seq<byte>,
      new_: seq<byte>, script: seq<Edit>)
    requires Packable(zip, old_, new_, script) && Unzips(zip, unzip, old_, new_, script) && |new_| < 0x4000_0000
    ensures Sane(unzip, PatchFile(zip, old_, new_, script))
    ensures Attempt(unzip, old_, PatchFile(zip, old_, new_, script))
            == if 6 * |script| <= |new_| then Progress(new_, true) else Progress([], false)
  {
    hide Forwards, InRange, Fits, ControlOf, DiffOf, ExtraOf, PatchFile, Sane, Attempt, BlocksFit, Unzips;
    PatchFileWorks(zip, unzip, old_, new_, script);
    EditsDecide(old_, new_, script);
  }

  lemma EditsDecide(old_: seq<byte>, new_: seq<byte>, script: seq<Edit>)
    requires Forwards(script) && Fits(script, |new_|) && |new_| < 0x4000_0000
    ensures BlocksFit(old_, new_, script) <==> 6 * |script| <= |new_|
  {
    hide DiffOf, ExtraOf, Fits, Forwards, Capacity;
    RoomBelow1GiB(|new_|);
  }

  /** Four bytes for each of the new file, in 32 bits. */
  lemma CapacityWraps(n: nat)
    ensures Capacity(n) == 4 * n % 0x1_0000_0000
  {
    var q, r := n / UINT_RANGE, n % UINT_RANGE;
    assert 4 * n == 4 * r + 4 * q * UINT_RANGE;
  }

  lemma RoomBelow1GiB(n: nat)
    requires n < 0x4000_0000
    ensures Capacity(n) == 4 * n
  {
  }

  /** Already one edit that copies one byte is too many for a file of one byte. */
  lemma OneByteFileIsRefused(old_: seq<byte>, b: byte)
    ensures var (zip, unzip, script) := ((x: seq<byte>) => x, (x: seq<byte>) => Some(x), [Edit(0, 1, 0)]);
            && Packable(zip, old_, [b], script) && Sane(unzip, PatchFile(zip, old_, [b], script))
            && Attempt(unzip, old_, PatchFile(zip, old_, [b], script)) == Progress([], false)
  {
    var zip, unzip, script := (x: seq<byte>) => x, (x: seq<byte>) => Some(x), [Edit(0, 1, 0)];
    assert Fits(script[1..], 0);
    assert Packable(zip, old_, [b], script);
    FailsExactlyWithManyEdits(zip, unzip, old_, [b], script);
  }
}
