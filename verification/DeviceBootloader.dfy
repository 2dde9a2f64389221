/** The layout of an application package: a section table and six payloads at
    aligned offsets. */
module DeviceBootloader {
  import Bits
  import opened Bytes
  import opened Optional

  const LONG_RANGE := 0x1_0000_0000_0000_0000

  const MIB := 0x10_0000
  const FLASH_BLOCK := 0x1_0000

  // ----- aligning -----

  /** Rounds up with a mask; the mask is that of a 64-bit `long`. */
  function AlignUp(s: nat, size: nat): nat
    requires 0 < size <= LONG_RANGE
  {
    Bits.And(s + size - 1, LONG_RANGE - size)
  }

  lemma PowersUsed()
    ensures Bits.Pow2(16) == FLASH_BLOCK && Bits.Pow2(20) == MIB && Bits.Pow2(64) == LONG_RANGE
  {
    assert Bits.Pow2(0) == 1;
    hide Bits.Pow2;
    Bits.SixteenMore(0);
    Bits.FourMore(16);
    Bits.SixteenMore(16);
    Bits.SixteenMore(32);
    Bits.SixteenMore(48);
  }

  /** The least multiple of `size` that is not below `s`. */
  function RoundUp(s: nat, size: nat): (r: nat)
    requires size > 0
    ensures s <= r < s + size && r % size == 0
  {
    var q := (s + size - 1) / size;
    Bits.Remainder(q * size, size, q, 0);
    q * size
  }

  lemma RoundUpIsLeast(s: nat, size: nat, n: nat)
    requires size > 0 && s <= n && n % size == 0
    ensures RoundUp(s, size) <= n
  {
    if n < RoundUp(s, size) {
      var q := (s + size - 1) / size;
      Bits.Remainder(n, size, q - 1, n - (q - 1) * size);
    }
  }

  /** The mask rounds up. */
  lemma AlignUpRoundsUp(s: nat, size: nat)
    requires s < UINT_RANGE && (size == MIB || size == FLASH_BLOCK)
    ensures AlignUp(s, size) == RoundUp(s, size)
  {
    var x := s + size - 1;
    PowersUsed();
    Bits.AndHighMask(x, 64, if size == MIB then 20 else 16);
  }

  // ----- the layout -----

  datatype Section = Section(name: string, offset: nat, size: nat)

  function End(s: Section): nat { s.offset + s.size }

  /** One section after another, each behind its alignment. */
  predicate Follows(s: Section, before: Section, alignment: nat) {
    End(before) <= s.offset < End(before) + alignment && s.offset % alignment == 0
  }

  /** The payloads, in the order of the section table. */
  datatype Payloads = Payloads(firmware: seq<byte>, pipeline: seq<byte>, assets: seq<byte>, assetStorage: seq<byte>,
      fwVersion: seq<byte>, appName: seq<byte>)
  {
    function InOrder(): (p: seq<seq<byte>>)
      ensures |p| == 6
    {
      [firmware, pipeline, assets, assetStorage, fwVersion, appName]
    }
  }

  const NAMES := ["__firmware", "pipeline", "assets", "asset_storage", "__fw_version", "app_name"]

  /** The sections follow each other behind the table, each as long as its payload. */
  ghost predicate LaidOut(sections: seq<Section>, tableSize: nat, payloads: seq<seq<byte>>) {
    && |sections| == |payloads| == 6
    && (forall k | 0 <= k < 6 :: sections[k].name == NAMES[k] && sections[k].size == |payloads[k]|)
    && sections[0].offset == tableSize && Follows(sections[1], sections[0], MIB)
    && (forall j, k | 1 <= j && k == j + 1 < 6 :: Follows(sections[k], sections[j], FLASH_BLOCK))
  }

  /** Where the last section ends. */
  function TotalSize(tableSize: nat, p: Payloads): nat {
    var e0 := tableSize + |p.firmware|;
    var e1 := RoundUp(e0, MIB) + |p.pipeline|;
    var e2 := RoundUp(e1, FLASH_BLOCK) + |p.assets|;
    var e3 := RoundUp(e2, FLASH_BLOCK) + |p.assetStorage|;
    var e4 := RoundUp(e3, FLASH_BLOCK) + |p.fwVersion|;
    RoundUp(e4, FLASH_BLOCK) + |p.appName|
  }

  /** The section behind `before`; all sums are of 32 bits. */
  method NextSection(name: string, before: Section, payload: seq<byte>, alignment: nat) returns (s: Section)
    requires alignment == MIB || alignment == FLASH_BLOCK
    requires RoundUp(End(before), alignment) + |payload| < UINT_RANGE
    ensures s == Section(name, RoundUp(End(before), alignment), |payload|)
  {
    hide Bits.And, AlignUp, RoundUp;
    AlignUpRoundsUp(End(before), alignment);
    s := Section(name, AlignUp((before.offset + before.size) % UINT_RANGE, alignment) % UINT_RANGE,
        |payload| % UINT_RANGE);
  }

  method Layout(tableSize: nat, p: Payloads) returns (sections: seq<Section>)
    requires TotalSize(tableSize, p) < UINT_RANGE
    ensures LaidOut(sections, tableSize, p.InOrder()) && End(sections[5]) == TotalSize(tableSize, p)
  {
    hide RoundUp;
    var fw := Section("__firmware", tableSize, |p.firmware| % UINT_RANGE);
    var pipeline := NextSection("pipeline", fw, p.pipeline, MIB);
    var assets := NextSection("assets", pipeline, p.assets, FLASH_BLOCK);
    var assetStorage := NextSection("asset_storage", assets, p.assetStorage, FLASH_BLOCK);
    var fwVersion := NextSection("__fw_version", assetStorage, p.fwVersion, FLASH_BLOCK);
    var appName := NextSection("app_name", fwVersion, p.appName, FLASH_BLOCK);
    sections := [fw, pipeline, assets, assetStorage, fwVersion, appName];
  }

  /** Sections come in order, so that none reaches into another or the table. */
  lemma SectionsAreApart(sections: seq<Section>, tableSize: nat, payloads: seq<seq<byte>>, j: nat, k: nat)
    requires LaidOut(sections, tableSize, payloads) && j < k < 6
    ensures tableSize <= sections[j].offset && End(sections[j]) <= sections[k].offset
    ensures End(sections[k]) <= End(sections[5])
  {
    assert Follows(sections[2], sections[1], FLASH_BLOCK) && Follows(sections[3], sections[2], FLASH_BLOCK);
    assert Follows(sections[4], sections[3], FLASH_BLOCK) && Follows(sections[5], sections[4], FLASH_BLOCK);
  }

  // ----- the package -----

  predicate Holds(package: seq<byte>, offset: nat, payload: seq<byte>) {
    offset + |payload| <= |package| && package[offset..offset + |payload|] == payload
  }

  lemma HoldsElsewhere(before: seq<byte>, after: seq<byte>, at: nat, src: seq<byte>, offset: nat, payload: seq<byte>)
    requires at + |src| <= |before| == |after|
    requires after[..at + |src|] == before[..at] + src && forall k | at + |src| <= k < |after| :: after[k] == before[k]
    requires Holds(before, offset, payload) && (offset + |payload| <= at || at + |src| <= offset)
    ensures Holds(after, offset, payload)
  {
    var n, e := at + |src|, offset + |payload|;
    forall i | offset <= i < e
      ensures after[i] == before[i]
    {
      if e <= at {
        assert after[..n][i] == (before[..at] + src)[i];
      }
    }
    assert after[offset..e] == before[offset..e];
  }

  lemma HoldsHere(before: seq<byte>, after: seq<byte>, at: nat, src: seq<byte>)
    requires at + |src| <= |before| == |after| && after[..at + |src|] == before[..at] + src
    ensures Holds(after, at, src)
  {
    assert after[at..at + |src|] == after[..at + |src|][at..];
  }

  /** The table and the sections in `done` are in place. */
  ghost predicate Filled(package: seq<byte>, sections: seq<Section>, table: seq<byte>, payloads: seq<seq<byte>>,
      done: set<int>)
    requires |sections| == |payloads|
  {
    Holds(package, 0, table) && forall k | k in done && 0 <= k < |sections| ::
        Holds(package, sections[k].offset, payloads[k])
  }

  /** Copies the payload of section `k`; what was in place before stays in place. */
  method FillSection(package: array<byte>, sections: seq<Section>, table: seq<byte>, payloads: seq<seq<byte>>, k: nat,
      ghost done: set<int>)
    returns (ghost now: set<int>)
    requires LaidOut(sections, |table|, payloads) && package.Length == End(sections[5]) && k < 6 && k !in done
    requires Filled(package[..], sections, table, payloads, done)
    modifies package
    ensures now == done + {k} && Filled(package[..], sections, table, payloads, now)
  {
    now := done + {k};
    ghost var before := package[..];
    assert sections[k].size == |payloads[k]|;
    InsideAndApart(sections, |table|, payloads, k);
    hide LaidOut, Holds, End;
    CopyInto(package, sections[k].offset, payloads[k]);
    ghost var after := package[..];
    var at := sections[k].offset;
    assert after[..at + |payloads[k]|] == before[..at] + payloads[k];
    assert forall i | at + |payloads[k]| <= i < |after| :: after[i] == before[i];
    HoldsHere(before, after, at, payloads[k]);
    HoldsElsewhere(before, after, at, payloads[k], 0, table);
    forall j | j in done && 0 <= j < |sections|
      ensures Holds(after, sections[j].offset, payloads[j])
    {
      HoldsElsewhere(before, after, at, payloads[k], sections[j].offset, payloads[j]);
    }
  }

  lemma InsideAndApart(sections: seq<Section>, tableSize: nat, payloads: seq<seq<byte>>, k: nat)
    requires LaidOut(sections, tableSize, payloads) && k < 6
    ensures tableSize <= sections[k].offset && sections[k].offset + |payloads[k]| <= End(sections[5])
    ensures forall j | 0 <= j < 6 && j != k ::
              sections[j].offset + |payloads[j]| <= sections[k].offset
                  || sections[k].offset + |payloads[k]| <= sections[j].offset
  {
    forall j | 0 <= j < 6 && j != k
      ensures sections[j].offset + |payloads[j]| <= sections[k].offset
                || sections[k].offset + |payloads[k]| <= sections[j].offset
    {
      assert sections[j].size == |payloads[j]| && sections[k].size == |payloads[k]|;
      SectionsAreApart(sections, tableSize, payloads, if j < k then j else k, if j < k then k else j);
    }
    if k < 5 {
      SectionsAreApart(sections, tableSize, payloads, k, 5);
    } else {
      SectionsAreApart(sections, tableSize, payloads, 0, 5);
    }
    assert sections[k].size == |payloads[k]|;
  }

  /** Copies all payloads, in another order than they lie in. */
  method FillSections(package: array<byte>, sections: seq<Section>, table: seq<byte>, payloads: seq<seq<byte>>)
    requires LaidOut(sections, |table|, payloads) && package.Length == End(sections[5])
    requires Filled(package[..], sections, table, payloads, {})
    modifies package
    ensures Filled(package[..], sections, table, payloads, {0, 1, 2, 3, 4, 5})
  {
    hide *;
    ghost var done: set<int> := {};
    done := FillSection(package, sections, table, payloads, 0, done);
    done := FillSection(package, sections, table, payloads, 4, done);
    done := FillSection(package, sections, table, payloads, 5, done);
    done := FillSection(package, sections, table, payloads, 1, done);
    done := FillSection(package, sections, table, payloads, 2, done);
    done := FillSection(package, sections, table, payloads, 3, done);
    assert done == {0, 1, 2, 3, 4, 5};
  }

  /** `table` is what the section table serializes to. Without firmware there is
      no package; otherwise every payload can be read back from its section. */
  method CreateDepthaiApplicationPackage(table: seq<byte>, p: Payloads) returns (package: Option<seq<byte>>,
      sections: seq<Section>)
    requires TotalSize(|table|, p) < UINT_RANGE
    ensures package.None? <==> p.firmware == []
    ensures package.Some? ==>
              LaidOut(sections, |table|, p.InOrder()) && |package.value| == End(sections[5]) == TotalSize(|table|, p)
    ensures package.Some? ==> |table| <= |package.value| && package.value[..|table|] == table
    ensures package.Some? ==> forall k | 0 <= k < 6 ::
              End(sections[k]) <= |package.value|
                  && package.value[sections[k].offset..End(sections[k])] == p.InOrder()[k]
    ensures package.Some? ==>
              && PlacedAs(package.value, sections[0], "__firmware", p.firmware)
              && PlacedAs(package.value, sections[1], "pipeline", p.pipeline)
              && PlacedAs(package.value, sections[2], "assets", p.assets)
              && PlacedAs(package.value, sections[3], "asset_storage", p.assetStorage)
              && PlacedAs(package.value, sections[4], "__fw_version", p.fwVersion)
              && PlacedAs(package.value, sections[5], "app_name", p.appName)
    ensures package.Some? ==>
              && sections[0].offset == |table| && sections[1].offset % 0x10_0000 == 0
              && (forall k | 2 <= k < 6 :: sections[k].offset % 0x1_0000 == 0)
  {
    if p.firmware == [] { return None, []; }
    sections := Layout(|table|, p);
    var fwPackage := new byte[sections[5].offset + sections[5].size](_ => 0);
    var payloads := p.InOrder();
    InsideAndApart(sections, |table|, payloads, 0);
    hide LaidOut, Filled, Holds, TotalSize, Payloads.InOrder;
    CopyInto(fwPackage, 0, table);
    TableFirst(fwPackage[..], sections, table, payloads);
    FillSections(fwPackage, sections, table, payloads);
    package := Some(fwPackage[..]);
    AllReadBack(fwPackage[..], sections, table, payloads);
    NamesFit(fwPackage[..], sections, |table|, p);
    Aligned(sections, |table|, payloads);
  }

  /** The section has this name and this size, and its bytes are the payload. */
  predicate PlacedAs(package: seq<byte>, s: Section, name: string, payload: seq<byte>) {
    && s.name == name && s.size == |payload| && s.offset + s.size <= |package|
    && package[s.offset..s.offset + s.size] == payload
  }

  lemma Aligned(sections: seq<Section>, tableSize: nat, payloads: seq<seq<byte>>)
    requires LaidOut(sections, tableSize, payloads)
    ensures sections[0].offset == tableSize && sections[1].offset % 0x10_0000 == 0
    ensures forall k | 2 <= k < 6 :: sections[k].offset % 0x1_0000 == 0
  {
    forall k | 2 <= k < 6
      ensures sections[k].offset % 0x1_0000 == 0
    {
      assert Follows(sections[k], sections[k - 1], FLASH_BLOCK);
    }
  }

  lemma NamesFit(package: seq<byte>, sections: seq<Section>, tableSize: nat, p: Payloads)
    requires LaidOut(sections, tableSize, p.InOrder())
    requires forall k | 0 <= k < 6 ::
              End(sections[k]) <= |package| && package[sections[k].offset..End(sections[k])] == p.InOrder()[k]
    ensures PlacedAs(package, sections[0], "__firmware", p.firmware)
    ensures PlacedAs(package, sections[1], "pipeline", p.pipeline)
    ensures PlacedAs(package, sections[2], "assets", p.assets)
    ensures PlacedAs(package, sections[3], "asset_storage", p.assetStorage)
    ensures PlacedAs(package, sections[4], "__fw_version", p.fwVersion)
    ensures PlacedAs(package, sections[5], "app_name", p.appName)
  {
    hide Follows;
    assert forall k | 0 <= k < 6 :: sections[k].name == NAMES[k] && sections[k].size == |p.InOrder()[k]|;
  }

  lemma TableFirst(package: seq<byte>, sections: seq<Section>, table: seq<byte>, payloads: seq<seq<byte>>)
    requires |table| <= |package| && package[..|table|] == table && |sections| == |payloads|
    ensures Filled(package, sections, table, payloads, {})
  {
  }

  lemma AllReadBack(package: seq<byte>, sections: seq<Section>, table: seq<byte>, payloads: seq<seq<byte>>)
    requires LaidOut(sections, |table|, payloads) && Filled(package, sections, table, payloads, {0, 1, 2, 3, 4, 5})
    ensures |table| <= |package| && package[..|table|] == table
    ensures forall k | 0 <= k < 6 ::
              End(sections[k]) <= |package| && package[sections[k].offset..End(sections[k])] == payloads[k]
  {
    hide Follows;
    forall k | 0 <= k < 6
      ensures End(sections[k]) <= |package| && package[sections[k].offset..End(sections[k])] == payloads[k]
    {
      assert sections[k].size == |payloads[k]| && Holds(package, sections[k].offset, payloads[k]);
    }
  }
}
