/** Assets and the storage that all of them are laid out in. */
module AssetManager {
  import Bits
  import opened Bytes
  import opened Optional
  import Ordering
  import Text

  datatype Asset = Asset(key: string, data: seq<byte>, alignment: uint32)

  datatype AssetInternal = AssetInternal(offset: nat, size: nat, alignment: nat)

  // ----- placing -----

  /** The bytes added so that the next asset starts at a multiple of `alignment`. */
  function Padding(size: nat, alignment: nat): (toAdd: nat)
    ensures alignment > 1 ==> toAdd < alignment
  {
    if alignment > 1 && size % alignment != 0 then alignment - size % alignment else 0
  }

  lemma PaddingAligns(size: nat, alignment: nat)
    requires alignment > 1
    ensures (size + Padding(size, alignment)) % alignment == 0
    ensures forall n | size <= n < size + Padding(size, alignment) :: n % alignment != 0
  {
    var q, r := size / alignment, size % alignment;
    assert size == q * alignment + r;
    if r != 0 {
      assert size + Padding(size, alignment) == (q + 1) * alignment;
      Bits.Remainder((q + 1) * alignment, alignment, q + 1, 0);
      forall n | size <= n < size + Padding(size, alignment)
        ensures n % alignment != 0
      {
        Bits.Remainder(n, alignment, q, n - q * alignment);
      }
    }
  }

  /** Where a storage of `start` bytes ends once all assets are in it. */
  function Size(start: nat, assets: seq<Asset>): (size: nat)
    ensures size >= start
    decreases |assets|
  {
    if assets == [] then start
    else
      var before, a := Size(start, assets[..|assets| - 1]), assets[|assets| - 1];
      before + Padding(before, a.alignment) + |a.data|
  }

  /** Every padding is small enough for an `int`. */
  predicate PaddingsFit(start: nat, assets: seq<Asset>)
    decreases |assets|
  {
    assets == []
    || (PaddingsFit(start, assets[..|assets| - 1])
        && Padding(Size(start, assets[..|assets| - 1]), assets[|assets| - 1].alignment) < UINT_RANGE / 2)
  }

  lemma {:induction false} InTwoParts(start: nat, a: seq<Asset>, b: seq<Asset>)
    ensures Size(start, a + b) == Size(Size(start, a), b)
    ensures PaddingsFit(start, a + b) <==> PaddingsFit(start, a) && PaddingsFit(Size(start, a), b)
    decreases |b|
  {
    if b == [] {
      assert a + b == a;
    } else {
      var n := |b| - 1;
      InTwoParts(start, a, b[..n]);
      assert (a + b)[..|a| + n] == a + b[..n] && (a + b)[|a| + n] == b[n];
    }
  }

  lemma OneMoreAsset(start: nat, assets: seq<Asset>, a: Asset)
    ensures Size(start, assets + [a]) == Size(start, assets) + Padding(Size(start, assets), a.alignment) + |a.data|
    ensures PaddingsFit(start, assets + [a])
            <==> PaddingsFit(start, assets) && Padding(Size(start, assets), a.alignment) < UINT_RANGE / 2
  {
    assert (assets + [a])[..|assets|] == assets && (assets + [a])[|assets|] == a;
  }

  /** Up to 2^31, which is more than an `int` can say, alignments need no care. */
  lemma {:induction false} ModestAlignmentsFit(start: nat, assets: seq<Asset>)
    requires forall k | 0 <= k < |assets| :: assets[k].alignment <= UINT_RANGE / 2
    ensures PaddingsFit(start, assets)
    decreases |assets|
  {
    if assets != [] {
      ModestAlignmentsFit(start, assets[..|assets| - 1]);
    }
  }

  /** Behind a single byte, an empty asset with the largest alignment does not fit,
      although the storage stays below 4 GiB. */
  lemma LargeAlignmentDoesNotFit(b: byte)
    ensures var assets := [Asset("a", [b], 1), Asset("b", [], 0xFFFF_FFFF)];
            Size(0, assets) < UINT_RANGE && !PaddingsFit(0, assets)
  {
    hide Size, PaddingsFit, Padding;
    var first, second := Asset("a", [b], 1), Asset("b", [], 0xFFFF_FFFF);
    NothingPlaced(0);
    OneMoreAsset(0, [], first);
    OneMoreAsset(0, [first], second);
    assert [first] + [second] == [first, second] && [] + [first] == [first];
    LargestPadding();
  }

  lemma LargestPadding()
    ensures Padding(0, 1) == 0 && Padding(1, 0xFFFF_FFFF) == 0xFFFF_FFFE
  {
  }

  /** The entry for an asset, all numbers in 32 bits. */
  function Entry(size: nat, toAdd: int, a: Asset): AssetInternal {
    AssetInternal((size % UINT_RANGE + toAdd) % UINT_RANGE, |a.data| % UINT_RANGE, a.alignment)
  }

  lemma ZeroFits()
    ensures AsInt(0) == 0
  {
  }

  /** `std::vector::resize`. */
  function Resized(storage: seq<byte>, size: nat): (r: seq<byte>)
    ensures |r| == size
    ensures forall i | 0 <= i < size :: r[i] == if i < |storage| then storage[i] else 0
  {
    if size <= |storage| then storage[..size] else storage + Zeros(size - |storage|)
  }

  /** The entry tells where in the storage the asset's bytes are, aligned as asked. */
  predicate Stored(entry: AssetInternal, storage: seq<byte>, asset: Asset) {
    && entry.size == |asset.data| && entry.alignment == asset.alignment
    && entry.offset + entry.size <= |storage|
    && storage[entry.offset..entry.offset + entry.size] == asset.data
    && (asset.alignment > 1 ==> entry.offset % asset.alignment == 0)
  }

  lemma StoredInLonger(entry: AssetInternal, storage: seq<byte>, longer: seq<byte>, asset: Asset)
    requires Stored(entry, storage, asset) && storage <= longer
    ensures Stored(entry, longer, asset)
  {
    assert longer[entry.offset..entry.offset + entry.size] == storage[entry.offset..entry.offset + entry.size];
  }

  predicate Apart(a: AssetInternal, b: AssetInternal) {
    a.offset + a.size <= b.offset || b.offset + b.size <= a.offset
  }

  /** All regions lie inside the storage and no two of them overlap. */
  predicate Laid(entries: map<string, AssetInternal>, size: nat) {
    && (forall k | k in entries :: entries[k].offset + entries[k].size <= size)
    && (forall j, k | j in entries && k in entries && j != k :: Apart(entries[j], entries[k]))
  }

  /** Only `own` may have changed on the way from `before` to `after`. */
  predicate KeptBut(before: map<string, AssetInternal>, after: map<string, AssetInternal>, own: set<string>) {
    && before.Keys <= after.Keys <= before.Keys + own
    && forall k | k in before && k !in own :: after[k] == before[k]
  }

  class AssetsMutable {
    var entries: map<string, AssetInternal>

    constructor ()
      ensures entries == map[]
    {
      entries := map[];
    }

    method Set(key: string, offset: nat, size: nat, alignment: nat)
      modifies this
      ensures entries == old(entries)[key := AssetInternal(offset, size, alignment)]
    {
      entries := entries[key := AssetInternal(offset, size, alignment)];
    }
  }

  // ----- one manager -----

  function Prefixed(prefix: string, keys: set<string>): (p: set<string>)
    ensures forall k | k in keys :: prefix + k in p
  {
    set k | k in keys :: prefix + k
  }

  lemma SamePrefix(prefix: string, j: string, k: string)
    ensures prefix + j == prefix + k ==> j == k
  {
    assert (prefix + j)[|prefix|..] == j && (prefix + k)[|prefix|..] == k;
  }

  class AssetManager {
    var assetMap: map<string, Asset>
    const rootPath: string

    /** An asset is filed under its own key. */
    predicate Valid()
      reads this
    {
      forall k | k in assetMap :: assetMap[k].key == k
    }

    constructor (rootPath: string)
      ensures Valid() && assetMap == map[] && this.rootPath == rootPath
    {
      this.assetMap := map[];
      this.rootPath := rootPath;
    }

    method Set(asset: Asset)
      requires Valid()
      modifies this
      ensures Valid() && assetMap == old(assetMap)[asset.key := asset]
    {
      assetMap := assetMap[asset.key := asset];
    }

    /** Files the asset under another key. */
    method SetAs(key: string, asset: Asset)
      requires Valid()
      modifies this
      ensures Valid() && assetMap == old(assetMap)[key := Asset(key, asset.data, asset.alignment)]
    {
      var a := Asset(key, [], 1);
      a := a.(data := asset.data);
      a := a.(alignment := asset.alignment);
      Set(a);
    }

    /** Files data; the alignment comes as an `int` and is kept unsigned. */
    method SetData(key: string, data: seq<byte>, alignment: int)
      requires Valid()
      modifies this
      ensures Valid() && assetMap == old(assetMap)[key := Asset(key, data, alignment % UINT_RANGE)]
    {
      var binaryAsset := Asset(key, [], 1);
      binaryAsset := binaryAsset.(alignment := alignment % UINT_RANGE);
      binaryAsset := binaryAsset.(data := data);
      Set(binaryAsset);
    }

    method Remove(key: string)
      requires Valid()
      modifies this
      ensures Valid() && assetMap == old(assetMap) - {key}
    {
      assetMap := assetMap - {key};
    }

    function PrefixFor(prefix: string): (used: string)
      ensures prefix != "" ==> used == prefix
      ensures prefix == "" ==> used == rootPath
    {
      if prefix == "" then rootPath else prefix
    }

    /** What `Serialize` promises as long as offsets fit their 32 bits. */
    predicate Serialized(before: map<string, AssetInternal>, after: map<string, AssetInternal>, storage: seq<byte>,
        prefix: string, done: set<string>)
      reads this
    {
      && KeptBut(before, after, Prefixed(prefix, done)) && Laid(after, |storage|)
      && forall k | k in done && k in assetMap :: prefix + k in after && Stored(after[prefix + k], storage, assetMap[k])
    }

    /** Appends one asset behind its padding and notes where it is. A padding that
        turns negative as an `int` makes the storage shorter, or throws if it
        cannot. */
    method Append(mutableAssets: AssetsMutable, storage: seq<byte>, prefix: string, a: Asset) returns (ok: bool,
        grown: seq<byte>)
      modifies mutableAssets
      ensures var toAdd := AsInt(Padding(|storage|, a.alignment));
              && (ok <==> |storage| + toAdd >= 0)
              && grown == (if ok then Resized(storage, |storage| + toAdd) + a.data else storage)
              && mutableAssets.entries ==
                 if !ok then old(mutableAssets.entries)
                 else old(mutableAssets.entries)[prefix + a.key := Entry(|storage|, toAdd, a)]
    {
      hide AsInt, Resized;
      var toAdd := 0;
      ZeroFits();
      if a.alignment > 1 && |storage| % a.alignment != 0 {
        toAdd := AsInt(a.alignment - |storage| % a.alignment);
      }
      var entry := Entry(|storage|, toAdd, a);
      if |storage| + toAdd < 0 {
        return false, storage;
      }
      grown := Resized(storage, |storage| + toAdd);
      grown := grown + a.data;
      mutableAssets.Set(prefix + a.key, entry.offset, entry.size, entry.alignment);
      ok := true;
    }

    /** Appends every asset, in whatever order the map has them, and tells where
        it is. Where the assets take up less than 4 GiB, it throws exactly if a
        padding is too large for an `int`. */
    method Serialize(mutableAssets: AssetsMutable, storage: seq<byte>, prefix: string)
      returns (ok: bool, grown: seq<byte>, ghost placed: seq<Asset>)
      requires Valid()
      modifies mutableAssets
      ensures Lists(placed, assetMap)
      ensures Size(|storage|, placed) < UINT_RANGE ==> (ok <==> PaddingsFit(|storage|, placed))
      ensures ok && Size(|storage|, placed) < UINT_RANGE ==> storage <= grown && |grown| == Size(|storage|, placed)
      ensures ok && Size(|storage|, placed) < UINT_RANGE && Laid(old(mutableAssets.entries), |storage|) ==>
                Serialized(old(mutableAssets.entries), mutableAssets.entries, grown, PrefixFor(prefix), assetMap.Keys)
    {
      var used := if prefix == "" then rootPath else prefix;
      var order := Ordering.InAnyOrder(assetMap.Keys);
      OrderLists(order, assetMap);
      placed := InOrder(order, assetMap);
      ghost var before := mutableAssets.entries;
      hide Underway, Serialized, Laid, Size, PaddingsFit, Lists;
      UnderwayAtFirst(storage, placed, before, used);
      ok, grown := SerializeInOrder(mutableAssets, storage, used, order, before);
      if ok {
        UnderwayAtLast(storage, placed, before, mutableAssets.entries, grown, used);
      }
    }

    /** The loop over the assets. */
    method SerializeInOrder(
      mutableAssets: AssetsMutable, storage: seq<byte>, used: string, order: seq<string>,
      ghost before: map<string, AssetInternal>)
      returns (ok: bool, grown: seq<byte>)
      requires Valid() && forall k :: k in order <==> k in assetMap
      requires forall i, j | 0 <= i < j < |order| :: order[i] != order[j]
      requires Underway(storage, InOrder(order, assetMap), 0, before, mutableAssets.entries, storage, used, {})
      modifies mutableAssets
      ensures ok ==> Underway(storage, InOrder(order, assetMap), |order|, before, mutableAssets.entries, grown, used,
                assetMap.Keys)
      ensures !ok ==> (Size(|storage|, InOrder(order, assetMap)) < UINT_RANGE ==>
                !PaddingsFit(|storage|, InOrder(order, assetMap)))
    {
      hide Underway, Size, PaddingsFit, AsInt, Resized, Padding, Entry;
      grown := storage;
      ghost var placed := InOrder(order, assetMap);
      ghost var done: set<string> := {};
      for i := 0 to |order|
        invariant forall k :: k in done <==> k in order[..i]
        invariant Underway(storage, placed, i, before, mutableAssets.entries, grown, used, done)
      {
        var a := assetMap[order[i]];
        assert a == placed[i] && a.key == order[i] && a.key !in done;
        Advances(storage, placed, i, before, mutableAssets.entries, grown, used, done, a);
        ok, grown := Append(mutableAssets, grown, used, a);
        if !ok {
          return;
        }
        done := done + {order[i]};
      }
      assert order[..|order|] == order;
      assert done == assetMap.Keys;
      ok := true;
    }

    /** What holds when the first `i` assets have been placed. */
    ghost predicate Underway(
      storage: seq<byte>, placed: seq<Asset>, i: nat, before: map<string, AssetInternal>,
      entries: map<string, AssetInternal>,
      grown: seq<byte>, used: string, done: set<string>)
      requires i <= |placed|
      reads this
    {
      Size(|storage|, placed) < UINT_RANGE ==>
        && storage <= grown && |grown| == Size(|storage|, placed[..i]) && PaddingsFit(|storage|, placed[..i])
        && (Laid(before, |storage|) ==> Serialized(before, entries, grown, used, done))
    }

    lemma UnderwayAtFirst(storage: seq<byte>, placed: seq<Asset>, before: map<string, AssetInternal>, used: string)
      ensures Underway(storage, placed, 0, before, before, storage, used, {})
    {
      NothingSerialized(before, storage, used);
      NothingPlaced(|storage|);
      assert placed[..0] == [];
    }

    lemma UnderwayAtLast(
      storage: seq<byte>, placed: seq<Asset>, before: map<string, AssetInternal>, entries: map<string, AssetInternal>,
      grown: seq<byte>, used: string)
      requires Underway(storage, placed, |placed|, before, entries, grown, used, assetMap.Keys)
      ensures Size(|storage|, placed) < UINT_RANGE ==>
                && PaddingsFit(|storage|, placed) && storage <= grown && |grown| == Size(|storage|, placed)
                && (Laid(before, |storage|) ==> Serialized(before, entries, grown, used, assetMap.Keys))
    {
      assert placed[..|placed|] == placed;
    }

    lemma Advances(
      storage: seq<byte>, placed: seq<Asset>, i: nat, before: map<string, AssetInternal>,
      entries: map<string, AssetInternal>,
      grown: seq<byte>, used: string, done: set<string>, a: Asset)
      requires Valid() && i < |placed| && a == placed[i]
      requires Underway(storage, placed, i, before, entries, grown, used, done)
      requires a.key !in done && a.key in assetMap && assetMap[a.key] == a
      ensures var toAdd := AsInt(Padding(|grown|, a.alignment));
              if |grown| + toAdd >= 0 then
                Underway(storage, placed, i + 1, before, entries[used + a.key := Entry(|grown|, toAdd, a)],
                         Resized(grown, |grown| + toAdd) + a.data, used, done + {a.key})
              else Size(|storage|, placed) < UINT_RANGE ==> !PaddingsFit(|storage|, placed)
    {
      hide Serialized, Laid, Size, PaddingsFit, AsInt, Resized, Padding, Zeros, Entry, Valid;
      if Size(|storage|, placed) < UINT_RANGE {
        PlacedSoFar(|storage|, placed, i);
        AppendsOrThrows(grown, a);
        if Laid(before, |storage|) {
          OneMore(before, entries, grown, used, done, a);
        }
      }
    }

    lemma NothingSerialized(before: map<string, AssetInternal>, storage: seq<byte>, prefix: string)
      ensures Laid(before, |storage|) ==> Serialized(before, before, storage, prefix, {})
    {
    }

    lemma OneMore(before: map<string, AssetInternal>, entries: map<string, AssetInternal>, storage: seq<byte>,
        prefix: string, done: set<string>, a: Asset)
      requires Valid() && Serialized(before, entries, storage, prefix, done) && a.key !in done && a.key in assetMap
      requires assetMap[a.key] == a
      ensures var offset := |storage| + Padding(|storage|, a.alignment);
              Serialized(before, entries[prefix + a.key := AssetInternal(offset, |a.data|, a.alignment)],
                         storage + Zeros(Padding(|storage|, a.alignment)) + a.data, prefix, done + {a.key})
    {
      hide Stored, Laid, Padding, Zeros, KeptBut, Apart;
      var entry := AssetInternal(|storage| + Padding(|storage|, a.alignment), |a.data|, a.alignment);
      var longer := storage + Zeros(Padding(|storage|, a.alignment)) + a.data;
      NewEntryStored(storage, a);
      LaidWithAnother(entries, |storage|, prefix + a.key, entry);
      KeptButAnother(before, entries, Prefixed(prefix, done), prefix + a.key, entry);
      assert storage <= longer;
      forall k | k in done + {a.key} && k in assetMap
        ensures prefix + k in entries[prefix + a.key := entry]
        ensures Stored(entries[prefix + a.key := entry][prefix + k], longer, assetMap[k])
      {
        SamePrefix(prefix, k, a.key);
        if k != a.key {
          StoredInLonger(entries[prefix + k], storage, longer, assetMap[k]);
        }
      }
      assert Prefixed(prefix, done + {a.key}) == Prefixed(prefix, done) + {prefix + a.key};
    }
  }

  /** The assets of the map, each once. */
  ghost predicate Lists(placed: seq<Asset>, assets: map<string, Asset>) {
    && (forall k | k in assets :: assets[k] in placed)
    && (forall i | 0 <= i < |placed| :: placed[i].key in assets && assets[placed[i].key] == placed[i])
    && (forall i, j | 0 <= i < j < |placed| :: placed[i].key != placed[j].key)
  }

  function InOrder(order: seq<string>, assets: map<string, Asset>): (placed: seq<Asset>)
    requires forall k | k in order :: k in assets
    ensures |placed| == |order| && forall i | 0 <= i < |order| :: placed[i] == assets[order[i]]
  {
    assert forall i | 0 <= i < |order| :: order[i] in order;
    seq(|order|, i requires 0 <= i < |order| => assets[order[i]])
  }

  lemma OrderLists(order: seq<string>, assets: map<string, Asset>)
    requires (forall k :: k in order <==> k in assets) && forall k | k in assets :: assets[k].key == k
    requires forall i, j | 0 <= i < j < |order| :: order[i] != order[j]
    ensures Lists(InOrder(order, assets), assets)
  {
    var placed := InOrder(order, assets);
    forall k | k in assets
      ensures assets[k] in placed
    {
      var i :| 0 <= i < |order| && order[i] == k;
      assert placed[i] == assets[k];
    }
    forall i | 0 <= i < |placed|
      ensures placed[i].key == order[i] && order[i] in assets
    {
      assert order[i] in order;
    }
  }

  lemma NothingPlaced(start: nat)
    ensures Size(start, []) == start && PaddingsFit(start, [])
  {
  }

  lemma PlacedSoFar(start: nat, placed: seq<Asset>, i: nat)
    requires i < |placed|
    ensures Size(start, placed[..i + 1])
            == Size(start, placed[..i]) + Padding(Size(start, placed[..i]), placed[i].alignment)
                + |placed[i].data| <= Size(start, placed)
    ensures PaddingsFit(start, placed[..i + 1])
            <==> PaddingsFit(start, placed[..i])
                 && Padding(Size(start, placed[..i]), placed[i].alignment) < UINT_RANGE / 2
    ensures PaddingsFit(start, placed) ==> PaddingsFit(start, placed[..i + 1])
  {
    hide Size, PaddingsFit;
    assert placed[..i + 1] == placed[..i] + [placed[i]];
    OneMoreAsset(start, placed[..i], placed[i]);
    assert placed == placed[..i + 1] + placed[i + 1..];
    InTwoParts(start, placed[..i + 1], placed[i + 1..]);
  }

  /** Below 4 GiB the padding is added or, if it does not fit an `int`, throws. */
  lemma AppendsOrThrows(storage: seq<byte>, a: Asset)
    requires |storage| + Padding(|storage|, a.alignment) + |a.data| < UINT_RANGE
    ensures var pad, toAdd := Padding(|storage|, a.alignment), AsInt(Padding(|storage|, a.alignment));
            && (|storage| + toAdd >= 0 <==> pad < UINT_RANGE / 2)
            && (pad < UINT_RANGE / 2 ==>
                  && toAdd == pad && Resized(storage, |storage| + toAdd) + a.data == storage + Zeros(pad) + a.data
                  && Entry(|storage|, toAdd, a) == AssetInternal(|storage| + pad, |a.data|, a.alignment))
  {
    hide Padding, AsInt, Zeros;
    var pad := Padding(|storage|, a.alignment);
    NarrowedBelow4GiB(pad);
    if pad == 0 {
      assert |Zeros(0)| == 0;
      assert storage + Zeros(0) == storage && storage[..|storage|] == storage;
    }
  }

  lemma NarrowedBelow4GiB(x: nat)
    requires x < UINT_RANGE
    ensures AsInt(x) == if x < UINT_RANGE / 2 then x else x - UINT_RANGE
  {
  }

  lemma NewEntryStored(storage: seq<byte>, a: Asset)
    ensures var pad := Padding(|storage|, a.alignment);
            Stored(AssetInternal(|storage| + pad, |a.data|, a.alignment), storage + Zeros(pad) + a.data, a)
  {
    if a.alignment > 1 {
      PaddingAligns(|storage|, a.alignment);
    }
    hide Padding, Zeros;
    var pad := Padding(|storage|, a.alignment);
    var longer := storage + Zeros(pad) + a.data;
    assert longer[|storage| + pad..|storage| + pad + |a.data|] == a.data;
  }

  lemma LaidWithAnother(entries: map<string, AssetInternal>, size: nat, key: string, entry: AssetInternal)
    requires Laid(entries, size) && entry.offset >= size
    ensures Laid(entries[key := entry], entry.offset + entry.size)
  {
  }

  lemma KeptButAnother(before: map<string, AssetInternal>, entries: map<string, AssetInternal>, own: set<string>,
      key: string, entry: AssetInternal)
    requires KeptBut(before, entries, own)
    ensures KeptBut(before, entries[key := entry], own + {key})
  {
  }

  // ----- all managers -----

  function PipelinePrefix(): string { "/pipeline/" }

  function NodePrefix(id: nat): string { "/node/" + Text.Decimal(id) + "/" }

  /** No asset of the pipeline shares its key with one of a node. */
  lemma PipelineAndNodeKeysDiffer(j: string, id: nat, k: string)
    ensures PipelinePrefix() + j != NodePrefix(id) + k
  {
    assert (PipelinePrefix() + j)[1] == 'p' && (NodePrefix(id) + k)[1] == 'n';
  }

  /** Assets of different nodes have different keys, whatever their own keys are. */
  lemma NodeKeysDiffer(m: nat, j: string, n: nat, k: string)
    ensures NodePrefix(m) + j == NodePrefix(n) + k <==> m == n && j == k
  {
    var a, b := NodePrefix(m) + j, NodePrefix(n) + k;
    assert a == "/node/" + (Text.Decimal(m) + ['/'] + j) && b == "/node/" + (Text.Decimal(n) + ['/'] + k);
    if a == b {
      assert a[6..] == Text.Decimal(m) + ['/'] + j && b[6..] == Text.Decimal(n) + ['/'] + k;
      Text.IdReadsBack(m, j, n, k, '/');
    }
  }

  predicate AllStored(entries: map<string, AssetInternal>, storage: seq<byte>, prefix: string,
      assets: map<string, Asset>) {
    forall k | k in assets :: prefix + k in entries && Stored(entries[prefix + k], storage, assets[k])
  }

  lemma AllStaysStored(before: map<string, AssetInternal>, after: map<string, AssetInternal>, own: set<string>,
                       storage: seq<byte>, longer: seq<byte>, prefix: string, assets: map<string, Asset>)
    requires AllStored(before, storage, prefix, assets) && KeptBut(before, after, own) && storage <= longer
    requires forall k | k in assets :: prefix + k !in own
    ensures AllStored(after, longer, prefix, assets)
  {
    hide Stored;
    forall k | k in assets
      ensures prefix + k in after && Stored(after[prefix + k], longer, assets[k])
    {
      StoredInLonger(before[prefix + k], storage, longer, assets[k]);
    }
  }

  /** Under which keys the assets are found. */
  lemma KeysInFull(assets: AssetManager, nodes: seq<NodeAssets>, entries: map<string, AssetInternal>,
      storage: seq<byte>)
    requires StoredUpTo(assets, nodes, |nodes|, entries, storage)
    ensures forall k | k in assets.assetMap ::
              "/pipeline/" + k in entries && Stored(entries["/pipeline/" + k], storage, assets.assetMap[k])
    ensures forall n, k | n in nodes && k in n.manager.assetMap ::
              var key := "/node/" + Text.Decimal(n.id) + "/" + k;
              key in entries && Stored(entries[key], storage, n.manager.assetMap[k])
    ensures forall key | key in entries ::
              || (exists k :: k in assets.assetMap && key == "/pipeline/" + k)
              || (exists n, k :: n in nodes && k in n.manager.assetMap
                                 && key == "/node/" + Text.Decimal(n.id) + "/" + k)
  {
    forall n | n in nodes ensures AllStored(entries, storage, NodePrefix(n.id), n.manager.assetMap) {
      var j :| 0 <= j < |nodes| && nodes[j] == n;
    }
    hide Stored;
    forall key | key in entries && key !in Prefixed(PipelinePrefix(), assets.assetMap.Keys)
      ensures exists n, k :: n in nodes && k in n.manager.assetMap
                             && key == "/node/" + Text.Decimal(n.id) + "/" + k
    {
      var j, k :| 0 <= j < |nodes| && k in nodes[j].manager.assetMap && key == NodePrefix(nodes[j].id) + k;
      assert nodes[j] in nodes;
    }
  }

  /** A node's id and its asset manager. */
  datatype NodeAssets = NodeAssets(id: nat, manager: AssetManager)

  ghost predicate Ready(assets: AssetManager, nodes: seq<NodeAssets>)
    reads assets, set n | n in nodes :: n.manager
  {
    && assets.Valid() && (forall n | n in nodes :: n.manager.Valid())
    && forall i, j | 0 <= i < j < |nodes| :: nodes[i].id != nodes[j].id
  }

  ghost function NodeKeys(nodes: seq<NodeAssets>, n: nat): set<string>
    requires n <= |nodes|
    reads set m | m in nodes :: m.manager
  {
    set j, k | 0 <= j < n && k in nodes[j].manager.assetMap :: NodePrefix(nodes[j].id) + k
  }

  lemma NodeKeysGrow(nodes: seq<NodeAssets>, n: nat)
    requires n < |nodes|
    ensures NodeKeys(nodes, n + 1) == NodeKeys(nodes, n)
              + Prefixed(NodePrefix(nodes[n].id), nodes[n].manager.assetMap.Keys)
  {
  }

  /** Every asset of the pipeline and of the first `n` nodes is stored under its prefixed key. */
  ghost predicate StoredUpTo(assets: AssetManager, nodes: seq<NodeAssets>, n: nat, entries: map<string, AssetInternal>,
      storage: seq<byte>)
    requires n <= |nodes|
    reads assets, set n | n in nodes :: n.manager
  {
    && Laid(entries, |storage|) && AllStored(entries, storage, PipelinePrefix(), assets.assetMap)
    && (forall j | 0 <= j < n :: AllStored(entries, storage, NodePrefix(nodes[j].id), nodes[j].manager.assetMap))
    && entries.Keys == Prefixed(PipelinePrefix(), assets.assetMap.Keys) + NodeKeys(nodes, n)
  }

  function Flat(parts: seq<seq<Asset>>): seq<Asset>
    decreases |parts|
  {
    if parts == [] then [] else Flat(parts[..|parts| - 1]) + parts[|parts| - 1]
  }

  /** The assets of the pipeline and of every node, in the order of the managers. */
  ghost predicate ListsAll(parts: seq<seq<Asset>>, assets: AssetManager, nodes: seq<NodeAssets>)
    reads assets, set n | n in nodes :: n.manager
  {
    && |parts| == |nodes| + 1 && Lists(parts[0], assets.assetMap)
    && forall i | 0 <= i < |nodes| :: Lists(parts[i + 1], nodes[i].manager.assetMap)
  }

  /** The assets of a pipeline and of all of its nodes in one storage. Where they
      take up less than 4 GiB, it throws exactly if a padding is too large for an
      `int`. */
  method SerializeAll(assets: AssetManager, nodes: seq<NodeAssets>)
    returns (ok: bool, entries: map<string, AssetInternal>, storage: seq<byte>, ghost parts: seq<seq<Asset>>)
    requires Ready(assets, nodes)
    ensures ListsAll(parts, assets, nodes)
    ensures Size(0, Flat(parts)) < UINT_RANGE ==> (ok <==> PaddingsFit(0, Flat(parts)))
    ensures ok && Size(0, Flat(parts)) < UINT_RANGE ==>
              |storage| == Size(0, Flat(parts)) && StoredUpTo(assets, nodes, |nodes|, entries, storage)
  {
    hide StoredUpTo, Size, PaddingsFit, Flat, Lists, Laid, NodePrefix, PipelinePrefix, AssetManager.Serialized,
        AssetManager.PrefixFor;
    var mutableAssets := new AssetsMutable();
    entries := map[];
    ghost var part;
    NothingLaid();
    Prefixes(0);
    ok, storage, part := assets.Serialize(mutableAssets, [], PipelinePrefix());
    parts := [part];
    FlatOne(part);
    if ok && Size(0, part) < UINT_RANGE {
      PipelineStored(assets, nodes, mutableAssets.entries, storage);
    }
    if !ok {
      parts := FillUp(parts, assets, nodes, 0);
      return;
    }
    for i := 0 to |nodes|
      invariant fresh(mutableAssets)
      invariant |parts| == i + 1 && Lists(parts[0], assets.assetMap)
      invariant forall j | 0 <= j < i :: Lists(parts[j + 1], nodes[j].manager.assetMap)
      invariant Size(0, Flat(parts)) < UINT_RANGE ==>
                  && |storage| == Size(0, Flat(parts)) && PaddingsFit(0, Flat(parts))
                  && StoredUpTo(assets, nodes, i, mutableAssets.entries, storage)
    {
      ghost var before, shorter, fewer := mutableAssets.entries, storage, parts;
      if Size(0, Flat(parts)) < UINT_RANGE {
        StoredIsLaid(assets, nodes, i, before, shorter);
      }
      ok, storage, part := nodes[i].manager.Serialize(mutableAssets, storage, NodePrefix(nodes[i].id));
      parts := fewer + [part];
      FlatMore(fewer, part);
      if !ok {
        parts := FillUp(parts, assets, nodes, i + 1);
        return;
      }
      Prefixes(nodes[i].id);
      if Size(0, Flat(parts)) < UINT_RANGE {
        OneMoreNode(assets, nodes, i, before, mutableAssets.entries, shorter, storage);
      }
    }
    ok, entries := true, mutableAssets.entries;
  }

  lemma NothingLaid()
    ensures Laid(map[], 0)
  {
  }

  lemma Prefixes(id: nat)
    ensures PipelinePrefix() != "" && NodePrefix(id) != ""
  {
  }

  lemma PipelineStored(assets: AssetManager, nodes: seq<NodeAssets>, entries: map<string, AssetInternal>,
      storage: seq<byte>)
    requires assets.Serialized(map[], entries, storage, PipelinePrefix(), assets.assetMap.Keys)
    ensures StoredUpTo(assets, nodes, 0, entries, storage)
  {
    AllSerialized(assets, map[], entries, storage, PipelinePrefix());
    KeysAfter(assets, map[], entries, storage, PipelinePrefix());
  }

  lemma FlatOne(part: seq<Asset>)
    ensures Flat([part]) == part
  {
    assert [part][..0] == [];
  }

  lemma FlatMore(parts: seq<seq<Asset>>, part: seq<Asset>)
    ensures Flat(parts + [part]) == Flat(parts) + part
    ensures Size(0, Flat(parts + [part])) == Size(Size(0, Flat(parts)), part) >= Size(0, Flat(parts))
    ensures PaddingsFit(0, Flat(parts + [part]))
            <==> PaddingsFit(0, Flat(parts)) && PaddingsFit(Size(0, Flat(parts)), part)
  {
    assert (parts + [part])[..|parts|] == parts;
    InTwoParts(0, Flat(parts), part);
  }

  /** The managers not reached any more, in some order. */
  lemma {:induction false} FillUp(parts: seq<seq<Asset>>, assets: AssetManager, nodes: seq<NodeAssets>, n: nat)
      returns (all: seq<seq<Asset>>)
    requires Ready(assets, nodes) && n <= |nodes| && |parts| == n + 1 && Lists(parts[0], assets.assetMap)
    requires forall j | 0 <= j < n :: Lists(parts[j + 1], nodes[j].manager.assetMap)
    ensures ListsAll(all, assets, nodes)
    ensures Size(0, Flat(all)) >= Size(0, Flat(parts)) && (PaddingsFit(0, Flat(all)) ==> PaddingsFit(0, Flat(parts)))
    decreases |nodes| - n
  {
    hide Lists, Size, PaddingsFit, Flat;
    if n == |nodes| {
      all := parts;
    } else {
      var part := SomeOrder(nodes[n].manager.assetMap);
      FlatMore(parts, part);
      all := FillUp(parts + [part], assets, nodes, n + 1);
    }
  }

  lemma {:induction false} SomeOrder(assets: map<string, Asset>) returns (placed: seq<Asset>)
    requires forall k | k in assets :: assets[k].key == k
    ensures Lists(placed, assets)
    decreases |assets|
  {
    placed := [];
    if k :| k in assets {
      var fewer := SomeOrder(assets - {k});
      placed := fewer + [assets[k]];
      forall j | j in assets
        ensures assets[j] in placed
      {
        assert j != k ==> j in assets - {k} && (assets - {k})[j] in fewer;
      }
    }
  }

  lemma StoredIsLaid(assets: AssetManager, nodes: seq<NodeAssets>, n: nat, entries: map<string, AssetInternal>,
      storage: seq<byte>)
    requires n <= |nodes| && StoredUpTo(assets, nodes, n, entries, storage)
    ensures Laid(entries, |storage|)
  {
  }

  lemma OneMoreNode(assets: AssetManager, nodes: seq<NodeAssets>, i: nat, before: map<string, AssetInternal>,
      after: map<string, AssetInternal>,
                    shorter: seq<byte>, storage: seq<byte>)
    requires i < |nodes| && Ready(assets, nodes) && StoredUpTo(assets, nodes, i, before, shorter) && shorter <= storage
    requires nodes[i].manager.Serialized(before, after, storage, NodePrefix(nodes[i].id),
              nodes[i].manager.assetMap.Keys)
    ensures StoredUpTo(assets, nodes, i + 1, after, storage)
  {
    hide Stored, Laid, NodePrefix, PipelinePrefix, NodeKeys, Prefixed, AllStored, KeptBut;
    var own := Prefixed(NodePrefix(nodes[i].id), nodes[i].manager.assetMap.Keys);
    assert AllStored(after, storage, NodePrefix(nodes[i].id), nodes[i].manager.assetMap) by {
      AllSerialized(nodes[i].manager, before, after, storage, NodePrefix(nodes[i].id));
    }
    OthersKeysDiffer(nodes, i);
    AllStaysStored(before, after, own, shorter, storage, PipelinePrefix(), assets.assetMap);
    forall m | 0 <= m < i
      ensures AllStored(after, storage, NodePrefix(nodes[m].id), nodes[m].manager.assetMap)
    {
      AllStaysStored(before, after, own, shorter, storage, NodePrefix(nodes[m].id), nodes[m].manager.assetMap);
    }
    NodeKeysGrow(nodes, i);
    KeysAfter(nodes[i].manager, before, after, storage, NodePrefix(nodes[i].id));
  }

  lemma AllSerialized(m: AssetManager, before: map<string, AssetInternal>, after: map<string, AssetInternal>,
      storage: seq<byte>, prefix: string)
    requires m.Serialized(before, after, storage, prefix, m.assetMap.Keys)
    ensures AllStored(after, storage, prefix, m.assetMap)
  {
  }

  lemma KeysAfter(m: AssetManager, before: map<string, AssetInternal>, after: map<string, AssetInternal>,
      storage: seq<byte>, prefix: string)
    requires m.Serialized(before, after, storage, prefix, m.assetMap.Keys)
    ensures after.Keys == before.Keys + Prefixed(prefix, m.assetMap.Keys)
  {
    hide Stored, Laid;
    forall k | k in Prefixed(prefix, m.assetMap.Keys)
      ensures k in after
    {
      var l :| l in m.assetMap.Keys && k == prefix + l;
    }
  }

  /** The keys of node `i` are neither the pipeline's nor an earlier node's. */
  lemma OthersKeysDiffer(nodes: seq<NodeAssets>, i: nat)
    requires i < |nodes| && forall i, j | 0 <= i < j < |nodes| :: nodes[i].id != nodes[j].id
    ensures var own := Prefixed(NodePrefix(nodes[i].id), nodes[i].manager.assetMap.Keys);
            && (forall j :: PipelinePrefix() + j !in own)
            && (forall m, j | 0 <= m < i :: NodePrefix(nodes[m].id) + j !in own)
  {
    hide NodePrefix, PipelinePrefix;
    var own := Prefixed(NodePrefix(nodes[i].id), nodes[i].manager.assetMap.Keys);
    forall k, j | k in own
      ensures PipelinePrefix() + j != k
    {
      var l :| l in nodes[i].manager.assetMap && k == NodePrefix(nodes[i].id) + l;
      PipelineAndNodeKeysDiffer(j, nodes[i].id, l);
    }
    forall m, k, j | 0 <= m < i && k in own
      ensures NodePrefix(nodes[m].id) + j != k
    {
      var l :| l in nodes[i].manager.assetMap && k == NodePrefix(nodes[i].id) + l;
      NodeKeysDiffer(nodes[m].id, j, nodes[i].id, l);
    }
  }
}
