/** What the host/device bridging pass turns a set of connections into, and why
    nobody notices: a description of the rewritten graph and proofs about it.
    The pass itself is `PipelineImpl.Build`. */
module Bridging {
  import opened NodeGraph
  import opened Text

  type Edge = (Output, Input)

  /** One XLink stream: messages that reach `entry` on one side leave through
      `exit` on the other. */
  datatype Bridge = Bridge(entry: Input, exit: Output)

  predicate DeviceToHost(e: Edge) { !e.0.parent.onHost && e.1.parent.onHost }

  predicate HostToDevice(e: Edge) { e.0.parent.onHost && !e.1.parent.onHost }

  predicate Crosses(e: Edge) { e.0.parent.onHost != e.1.parent.onHost }

  /** The device outputs, and the device inputs, that take part in a crossing. */
  ghost function CrossingOutputs(edges: set<Edge>): set<Output> {
    set e | e in edges && DeviceToHost(e) :: e.0
  }

  ghost function CrossingInputs(edges: set<Edge>): set<Input> {
    set e | e in edges && HostToDevice(e) :: e.1
  }

  /** The connections after `visited` of the original ones have been handled:
      `outs` holds the bridge of each device output met so far, `ins` that of
      each device input. */
  ghost function Rewritten(edges: set<Edge>, visited: set<Edge>, outs: map<Output, Bridge>, ins: map<Input, Bridge>)
    : set<Edge>
    requires outs.Keys == CrossingOutputs(visited) && ins.Keys == CrossingInputs(visited)
  {
    Untouched(edges, visited) + OutEntries(outs) + OutExits(visited, outs) + InEntries(visited, ins) + InExits(ins)
  }

  ghost function Untouched(edges: set<Edge>, visited: set<Edge>): set<Edge> {
    set e | e in edges && !(e in visited && Crosses(e))
  }

  ghost function OutEntries(outs: map<Output, Bridge>): set<Edge> {
    set o | o in outs.Keys :: (o, outs[o].entry)
  }

  ghost function OutExits(visited: set<Edge>, outs: map<Output, Bridge>): set<Edge>
    requires outs.Keys == CrossingOutputs(visited)
  {
    set e | e in visited && DeviceToHost(e) :: (outs[e.0].exit, e.1)
  }

  ghost function InEntries(visited: set<Edge>, ins: map<Input, Bridge>): set<Edge>
    requires ins.Keys == CrossingInputs(visited)
  {
    set e | e in visited && HostToDevice(e) :: (e.0, ins[e.1].entry)
  }

  ghost function InExits(ins: map<Input, Bridge>): set<Edge> {
    set i | i in ins.Keys :: (ins[i].exit, i)
  }

  /** Every bridge joins the two sides the right way round, its ports belong to
      no original connection, and no two bridges share a port. */
  ghost predicate GoodBridges(edges: set<Edge>, outs: map<Output, Bridge>, ins: map<Input, Bridge>) {
    && (forall o | o in outs :: !outs[o].entry.parent.onHost && outs[o].exit.parent.onHost)
    && (forall i | i in ins :: ins[i].entry.parent.onHost && !ins[i].exit.parent.onHost)
    && (forall o, e | o in outs && e in edges :: outs[o].entry != e.1 && outs[o].exit != e.0)
    && (forall i, e | i in ins && e in edges :: ins[i].entry != e.1 && ins[i].exit != e.0)
    && (forall o, p | o in outs && p in outs && o != p ::
          outs[o].entry != outs[p].entry && outs[o].exit != outs[p].exit)
    && (forall i, j | i in ins && j in ins && i != j ::
          ins[i].entry != ins[j].entry && ins[i].exit != ins[j].exit)
  }

  lemma GoodBridgesWithOut(edges: set<Edge>, outs: map<Output, Bridge>, ins: map<Input, Bridge>, o: Output, b: Bridge)
    requires GoodBridges(edges, outs, ins) && !b.entry.parent.onHost && b.exit.parent.onHost
    requires forall e | e in edges :: b.entry != e.1 && b.exit != e.0
    requires forall p | p in outs :: b.entry != outs[p].entry && b.exit != outs[p].exit
    ensures GoodBridges(edges, outs[o := b], ins)
  {
  }

  lemma GoodBridgesWithIn(edges: set<Edge>, outs: map<Output, Bridge>, ins: map<Input, Bridge>, i: Input, b: Bridge)
    requires GoodBridges(edges, outs, ins) && b.entry.parent.onHost && !b.exit.parent.onHost
    requires forall e | e in edges :: b.entry != e.1 && b.exit != e.0
    requires forall j | j in ins :: b.entry != ins[j].entry && b.exit != ins[j].exit
    ensures GoodBridges(edges, outs, ins[i := b])
  {
  }

  /** How a message can get from an output to an input: over the bridges of the
      chain, one after the other, directly if there are none. */
  type Route = seq<Bridge>

  ghost predicate Carries(edges: set<Edge>, bridges: set<Bridge>, out: Output, route: Route, input: Input) {
    if route == [] then (out, input) in edges
    else
      && route[0] in bridges && (out, route[0].entry) in edges
      && Carries(edges, bridges, route[0].exit, route[1..], input)
  }

  ghost function AllBridges(outs: map<Output, Bridge>, ins: map<Input, Bridge>): set<Bridge> {
    outs.Values + ins.Values
  }

  ghost predicate OriginalPort(outs: map<Output, Bridge>, ins: map<Input, Bridge>, out: Output, input: Input) {
    && (forall b | b in AllBridges(outs, ins) :: b.exit != out && b.entry != input)
  }

  /** The one route that replaces an original connection. */
  ghost function ReplacementRoute(outs: map<Output, Bridge>, ins: map<Input, Bridge>, e: Edge): Route
    requires DeviceToHost(e) ==> e.0 in outs
    requires HostToDevice(e) ==> e.1 in ins
  {
    if DeviceToHost(e) then [outs[e.0]] else if HostToDevice(e) then [ins[e.1]] else []
  }

  /** After the pass a route, over however many bridges, leads from an original
      output to an original input exactly if the two were connected before and
      it is the one route that replaces their connection. */
  lemma BridgingPreservesDelivery(
    edges: set<Edge>, outs: map<Output, Bridge>, ins: map<Input, Bridge>, out: Output, input: Input, route: Route)
    requires outs.Keys == CrossingOutputs(edges) && ins.Keys == CrossingInputs(edges)
    requires GoodBridges(edges, outs, ins) && OriginalPort(outs, ins, out, input)
    ensures (out, input) in edges ==>
              (DeviceToHost((out, input)) ==> out in outs) && (HostToDevice((out, input)) ==> input in ins)
    ensures Carries(Rewritten(edges, edges, outs, ins), AllBridges(outs, ins), out, route, input)
            <==> (out, input) in edges && route == ReplacementRoute(outs, ins, (out, input))
  {
    hide Rewritten, GoodBridges, OriginalPort, AllBridges;
    var e := (out, input);
    BridgesAreListed(outs, ins);
    DirectConnectionsStay(edges, outs, ins, e);
    if |route| == 1 && route[0] in AllBridges(outs, ins) {
      BridgeCarriesOneConnection(edges, outs, ins, e, route[0]);
      assert route == [route[0]] && route[1..] == [];
    } else if |route| > 1 {
      if route[0] in AllBridges(outs, ins) && route[1] in AllBridges(outs, ins) {
        NoBridgeFeedsAnother(edges, outs, ins, route[0], route[1]);
      }
      assert route[1..][0] == route[1];
    }
  }

  /** The exit of a bridge is never connected to the entry of a bridge. */
  lemma NoBridgeFeedsAnother(edges: set<Edge>, outs: map<Output, Bridge>, ins: map<Input, Bridge>, b: Bridge, c: Bridge)
    requires outs.Keys == CrossingOutputs(edges) && ins.Keys == CrossingInputs(edges)
    requires GoodBridges(edges, outs, ins) && b in AllBridges(outs, ins) && c in AllBridges(outs, ins)
    ensures (b.exit, c.entry) !in Rewritten(edges, edges, outs, ins)
  {
  }

  lemma BridgesAreListed(outs: map<Output, Bridge>, ins: map<Input, Bridge>)
    ensures forall o | o in outs :: outs[o] in AllBridges(outs, ins)
    ensures forall i | i in ins :: ins[i] in AllBridges(outs, ins)
  {
  }

  /** Between original ports exactly the connections that do not cross are left. */
  lemma DirectConnectionsStay(edges: set<Edge>, outs: map<Output, Bridge>, ins: map<Input, Bridge>, e: Edge)
    requires outs.Keys == CrossingOutputs(edges) && ins.Keys == CrossingInputs(edges)
    requires GoodBridges(edges, outs, ins) && OriginalPort(outs, ins, e.0, e.1)
    ensures e in Rewritten(edges, edges, outs, ins) <==> e in edges && !Crosses(e)
  {
    assert forall o | o in outs :: outs[o] in AllBridges(outs, ins);
    assert forall i | i in ins :: ins[i] in AllBridges(outs, ins);
  }

  /** The two hops of a bridge are both present for exactly the connections the
      bridge stands for. */
  lemma BridgeCarriesOneConnection(
    edges: set<Edge>, outs: map<Output, Bridge>, ins: map<Input, Bridge>, e: Edge, b: Bridge)
    requires outs.Keys == CrossingOutputs(edges) && ins.Keys == CrossingInputs(edges)
    requires GoodBridges(edges, outs, ins) && OriginalPort(outs, ins, e.0, e.1)
    requires b in AllBridges(outs, ins)
    ensures var after := Rewritten(edges, edges, outs, ins);
            (e.0, b.entry) in after && (b.exit, e.1) in after
            <==> e in edges && Crosses(e) && [b] == ReplacementRoute(outs, ins, e)
  {
    if o :| o in outs && outs[o] == b {
      OutBridgeHops(edges, outs, ins, o, e);
    } else {
      var i :| i in ins && ins[i] == b;
      InBridgeHops(edges, outs, ins, i, e);
    }
  }

  lemma OutBridgeHops(edges: set<Edge>, outs: map<Output, Bridge>, ins: map<Input, Bridge>, o: Output, e: Edge)
    requires outs.Keys == CrossingOutputs(edges) && ins.Keys == CrossingInputs(edges)
    requires GoodBridges(edges, outs, ins) && OriginalPort(outs, ins, e.0, e.1)
    requires o in outs
    ensures var after := Rewritten(edges, edges, outs, ins);
            && ((e.0, outs[o].entry) in after <==> e.0 == o)
            && ((outs[o].exit, e.1) in after <==> (o, e.1) in edges && DeviceToHost((o, e.1)))
    ensures Crosses(e) && e in edges && [outs[o]] == ReplacementRoute(outs, ins, e) ==> DeviceToHost(e) && e.0 == o
  {
    var b := outs[o];
    assert b in AllBridges(outs, ins);
    var hop1, hop2 := (e.0, b.entry), (b.exit, e.1);
    assert hop1 in OutEntries(outs) <==> e.0 == o;
    assert hop1 !in Untouched(edges, edges);
    assert hop1 !in OutExits(edges, outs);
    assert hop1 !in InEntries(edges, ins);
    assert hop1 !in InExits(ins);
    assert hop2 !in Untouched(edges, edges);
    assert hop2 !in OutEntries(outs);
    assert hop2 in OutExits(edges, outs) <==> (o, e.1) in edges && DeviceToHost((o, e.1));
    assert hop2 !in InEntries(edges, ins);
    assert hop2 !in InExits(ins);
  }

  lemma InBridgeHops(edges: set<Edge>, outs: map<Output, Bridge>, ins: map<Input, Bridge>, i: Input, e: Edge)
    requires outs.Keys == CrossingOutputs(edges) && ins.Keys == CrossingInputs(edges)
    requires GoodBridges(edges, outs, ins) && OriginalPort(outs, ins, e.0, e.1)
    requires i in ins
    ensures var after := Rewritten(edges, edges, outs, ins);
            && ((ins[i].exit, e.1) in after <==> e.1 == i)
            && ((e.0, ins[i].entry) in after <==> (e.0, i) in edges && HostToDevice((e.0, i)))
    ensures Crosses(e) && e in edges && [ins[i]] == ReplacementRoute(outs, ins, e) ==> HostToDevice(e) && e.1 == i
  {
    var b := ins[i];
    assert b in AllBridges(outs, ins);
    var hop1, hop2 := (e.0, b.entry), (b.exit, e.1);
    assert hop2 in InExits(ins) <==> e.1 == i;
    assert hop2 !in Untouched(edges, edges);
    assert hop2 !in OutEntries(outs);
    assert hop2 !in OutExits(edges, outs);
    assert hop2 !in InEntries(edges, ins);
    assert hop1 !in Untouched(edges, edges);
    assert hop1 !in OutEntries(outs);
    assert hop1 !in OutExits(edges, outs);
    assert hop1 in InEntries(edges, ins) <==> (e.0, i) in edges && HostToDevice((e.0, i));
    assert hop1 !in InExits(ins);
  }

  lemma NothingCrossesAfterwards(edges: set<Edge>, outs: map<Output, Bridge>, ins: map<Input, Bridge>)
    requires outs.Keys == CrossingOutputs(edges) && ins.Keys == CrossingInputs(edges)
    requires GoodBridges(edges, outs, ins)
    ensures forall e | e in Rewritten(edges, edges, outs, ins) :: !Crosses(e)
  {
  }

  // ----- one connection at a time -----

  lemma StartsUnchanged(edges: set<Edge>)
    ensures CrossingOutputs({}) == {} && CrossingInputs({}) == {}
    ensures Rewritten(edges, {}, map[], map[]) == edges
  {
    assert CrossingOutputs({}) == {} && CrossingInputs({}) == {};
    assert Untouched(edges, {}) == edges;
  }

  lemma OutEntriesStep(outs: map<Output, Bridge>, o: Output, b: Bridge)
    requires o in outs ==> outs[o] == b
    ensures OutEntries(outs[o := b]) == OutEntries(outs) + {(o, b.entry)}
  {
    var outs' := outs[o := b];
    assert o in outs'.Keys;
    forall p | p in outs ensures (p, outs[p].entry) in OutEntries(outs') {
      assert p in outs'.Keys && outs'[p] == outs[p];
    }
  }

  lemma InExitsStep(ins: map<Input, Bridge>, i: Input, b: Bridge)
    requires i in ins ==> ins[i] == b
    ensures InExits(ins[i := b]) == InExits(ins) + {(b.exit, i)}
  {
    var ins' := ins[i := b];
    assert i in ins'.Keys;
    forall j | j in ins ensures (ins[j].exit, j) in InExits(ins') {
      assert j in ins'.Keys && ins'[j] == ins[j];
    }
  }

  lemma OutExitsStep(visited: set<Edge>, outs: map<Output, Bridge>, e: Edge, b: Bridge)
    requires outs.Keys == CrossingOutputs(visited) && DeviceToHost(e)
    requires e.0 in outs ==> outs[e.0] == b
    ensures outs[e.0 := b].Keys == CrossingOutputs(visited + {e})
    ensures OutExits(visited + {e}, outs[e.0 := b]) == OutExits(visited, outs) + {(b.exit, e.1)}
  {
    var outs', visited' := outs[e.0 := b], visited + {e};
    assert CrossingOutputs(visited') == CrossingOutputs(visited) + {e.0};
    forall d | d in visited && DeviceToHost(d) ensures (outs[d.0].exit, d.1) in OutExits(visited', outs') {
      assert d in visited' && d.0 in outs && outs'[d.0] == outs[d.0];
    }
  }

  lemma InEntriesStep(visited: set<Edge>, ins: map<Input, Bridge>, e: Edge, b: Bridge)
    requires ins.Keys == CrossingInputs(visited) && HostToDevice(e)
    requires e.1 in ins ==> ins[e.1] == b
    ensures ins[e.1 := b].Keys == CrossingInputs(visited + {e})
    ensures InEntries(visited + {e}, ins[e.1 := b]) == InEntries(visited, ins) + {(e.0, b.entry)}
  {
    var ins', visited' := ins[e.1 := b], visited + {e};
    assert CrossingInputs(visited') == CrossingInputs(visited) + {e.1};
    forall d | d in visited && HostToDevice(d) ensures (d.0, ins[d.1].entry) in InEntries(visited', ins') {
      assert d in visited' && d.1 in ins && ins'[d.1] == ins[d.1];
    }
  }

  /** No connection of a bridge is an original connection. */
  lemma BridgesAddNewEdges(
    edges: set<Edge>, visited: set<Edge>, outs: map<Output, Bridge>, ins: map<Input, Bridge>, e: Edge)
    requires outs.Keys == CrossingOutputs(visited) && ins.Keys == CrossingInputs(visited)
    requires GoodBridges(edges, outs, ins) && e in edges
    ensures e !in OutEntries(outs) && e !in OutExits(visited, outs)
    ensures e !in InEntries(visited, ins) && e !in InExits(ins)
  {
  }

  lemma DeviceToHostStep(
    edges: set<Edge>, visited: set<Edge>, outs: map<Output, Bridge>, ins: map<Input, Bridge>, e: Edge, b: Bridge)
    requires outs.Keys == CrossingOutputs(visited) && ins.Keys == CrossingInputs(visited)
    requires e in edges && DeviceToHost(e)
    requires e.0 in outs ==> outs[e.0] == b
    requires GoodBridges(edges, outs[e.0 := b], ins)
    ensures outs[e.0 := b].Keys == CrossingOutputs(visited + {e}) && ins.Keys == CrossingInputs(visited + {e})
    ensures Rewritten(edges, visited + {e}, outs[e.0 := b], ins)
            == Rewritten(edges, visited, outs, ins) + {(e.0, b.entry)} - {e} + {(b.exit, e.1)}
  {
    OutEntriesStep(outs, e.0, b);
    OutExitsStep(visited, outs, e, b);
    assert CrossingInputs(visited + {e}) == CrossingInputs(visited);
    assert InEntries(visited + {e}, ins) == InEntries(visited, ins);
    assert Untouched(edges, visited + {e}) == Untouched(edges, visited) - {e};
    BridgesAddNewEdges(edges, visited + {e}, outs[e.0 := b], ins, e);
    Rearrange(Untouched(edges, visited), OutEntries(outs), OutExits(visited, outs), InEntries(visited, ins),
        InExits(ins),
              e, (e.0, b.entry), (b.exit, e.1));
  }

  lemma HostToDeviceStep(
    edges: set<Edge>, visited: set<Edge>, outs: map<Output, Bridge>, ins: map<Input, Bridge>, e: Edge, b: Bridge)
    requires outs.Keys == CrossingOutputs(visited) && ins.Keys == CrossingInputs(visited)
    requires e in edges && HostToDevice(e)
    requires e.1 in ins ==> ins[e.1] == b
    requires GoodBridges(edges, outs, ins[e.1 := b])
    ensures outs.Keys == CrossingOutputs(visited + {e}) && ins[e.1 := b].Keys == CrossingInputs(visited + {e})
    ensures Rewritten(edges, visited + {e}, outs, ins[e.1 := b])
            == Rewritten(edges, visited, outs, ins) + {(b.exit, e.1)} - {e} + {(e.0, b.entry)}
  {
    InExitsStep(ins, e.1, b);
    InEntriesStep(visited, ins, e, b);
    assert CrossingOutputs(visited + {e}) == CrossingOutputs(visited);
    assert OutExits(visited + {e}, outs) == OutExits(visited, outs);
    assert Untouched(edges, visited + {e}) == Untouched(edges, visited) - {e};
    BridgesAddNewEdges(edges, visited + {e}, outs, ins[e.1 := b], e);
    RearrangeBack(Untouched(edges, visited), OutEntries(outs), OutExits(visited, outs), InEntries(visited, ins),
        InExits(ins),
                  e, (b.exit, e.1), (e.0, b.entry));
  }

  lemma Rearrange<T>(u: set<T>, p: set<T>, q: set<T>, r: set<T>, s: set<T>, gone: T, first: T, second: T)
    requires gone !in p + q + r + s && gone != first && gone != second
    ensures (u - {gone}) + (p + {first}) + (q + {second}) + r + s == (u + p + q + r + s) + {first} - {gone} + {second}
  {
  }

  lemma RearrangeBack<T>(u: set<T>, p: set<T>, q: set<T>, r: set<T>, s: set<T>, gone: T, first: T, second: T)
    requires gone !in p + q + r + s && gone != first && gone != second
    ensures (u - {gone}) + p + q + (r + {second}) + (s + {first}) == (u + p + q + r + s) + {first} - {gone} + {second}
  {
  }

  lemma SameSideStep(edges: set<Edge>, visited: set<Edge>, outs: map<Output, Bridge>, ins: map<Input, Bridge>, e: Edge)
    requires outs.Keys == CrossingOutputs(visited) && ins.Keys == CrossingInputs(visited)
    requires !Crosses(e)
    ensures CrossingOutputs(visited + {e}) == CrossingOutputs(visited)
    ensures CrossingInputs(visited + {e}) == CrossingInputs(visited)
    ensures Rewritten(edges, visited + {e}, outs, ins) == Rewritten(edges, visited, outs, ins)
  {
    assert CrossingOutputs(visited + {e}) == CrossingOutputs(visited);
    assert CrossingInputs(visited + {e}) == CrossingInputs(visited);
    assert Untouched(edges, visited + {e}) == Untouched(edges, visited);
    assert OutExits(visited + {e}, outs) == OutExits(visited, outs);
    assert InEntries(visited + {e}, ins) == InEntries(visited, ins);
  }

  // ----- stream names -----

  function StreamName(id: nat, group: string, name: string): string {
    "__x_" + Decimal(id) + "_" + group + "_" + name
  }

  function OutputStream(o: Output): string { StreamName(o.parent.id, o.group, o.name) }

  function InputStream(i: Input): string { StreamName(i.parent.id, i.group, i.name) }

  /** Two stream names are equal exactly when they are for the same node and
      group and name run together to the same text. */
  lemma StreamNameClash(id: nat, group: string, name: string, id': nat, group': string, name': string)
    ensures StreamName(id, group, name) == StreamName(id', group', name')
            <==> id == id' && group + "_" + name == group' + "_" + name'
  {
    var s, t := group + "_" + name, group' + "_" + name';
    assert StreamName(id, group, name) == "__x_" + (Decimal(id) + ['_'] + s);
    assert StreamName(id', group', name') == "__x_" + (Decimal(id') + ['_'] + t);
    if StreamName(id, group, name) == StreamName(id', group', name') {
      assert Decimal(id) + ['_'] + s == StreamName(id, group, name)[4..];
      assert Decimal(id') + ['_'] + t == StreamName(id', group', name')[4..];
      IdReadsBack(id, s, id', t, '_');
    }
  }

  /** Group `a`, name `b_c` and group `a_b`, name `c` of one node clash. */
  lemma TwoPortsWithOneStream(id: nat)
    ensures StreamName(id, "a", "b_c") == StreamName(id, "a_b", "c")
  {
    StreamNameClash(id, "a", "b_c", id, "a_b", "c");
    assert "a" + "_" + "b_c" == "a_b" + "_" + "c";
  }

  ghost predicate DistinctStreams(outs: set<Output>, ins: set<Input>) {
    && (forall o, p | o in outs && p in outs && OutputStream(o) == OutputStream(p) :: o == p)
    && (forall i, j | i in ins && j in ins && InputStream(i) == InputStream(j) :: i == j)
    && (forall o, i | o in outs && i in ins :: OutputStream(o) != InputStream(i))
  }

  /** What the bridging pass asks of the connections: every crossing one joins
      ports whose messages fit an XLink stream, and the crossing device ports
      have distinct stream names. */
  ghost predicate Buildable(edges: set<Edge>) {
    && (forall e | e in edges && Crosses(e) :: Bridgeable(e.0.types) && Bridgeable(e.1.types))
    && DistinctStreams(CrossingOutputs(edges), CrossingInputs(edges))
  }

  /** Two crossing outputs with one stream name cannot be bridged, for instance
      `b_c` of group `a` and `c` of group `a_b` of one device node. */
  lemma ClashingOutputsAreNotBuildable(edges: set<Edge>, o: Output, p: Output)
    requires o in CrossingOutputs(edges) && p in CrossingOutputs(edges) && o != p && o.parent == p.parent
    requires o.group + "_" + o.name == p.group + "_" + p.name
    ensures !Buildable(edges)
  {
    StreamNameClash(o.parent.id, o.group, o.name, p.parent.id, p.group, p.name);
  }

  lemma TwoPortsAreNotBuildable(edges: set<Edge>, o: Output, p: Output)
    requires o in CrossingOutputs(edges) && p in CrossingOutputs(edges) && o.parent == p.parent
    requires o.group == "a" && o.name == "b_c" && p.group == "a_b" && p.name == "c"
    ensures !Buildable(edges)
  {
    TwoPortsWithOneStream(o.parent.id);
    assert o.name[0] == 'b' && p.name[0] == 'c';
  }

  datatype BuildResult = Built | StreamNameNotUnique | CannotReroute

  /** The local variables of `build` that outlive one connection. */
  datatype BridgeState = BridgeState(outs: map<Output, Bridge>, ins: map<Input, Bridge>, streamNames: set<string>)

  // ----- the state of the bridging pass, as far as it does not change -----

  /** The bridges made so far: their ports belong to the pipeline but not to the
      ports `O` and `I` that the connections `E` started with, and both nodes of
      a bridge carry the stream name of the port it was made for. */
  ghost predicate BridgesStand(
    E: set<Edge>, O: set<Output>, I: set<Input>, outputs: set<Output>, inputs: set<Input>, st: BridgeState)
  {
    && O <= outputs && I <= inputs
    && (forall e | e in E :: e.0 in O && e.1 in I)
    && st.outs.Keys <= CrossingOutputs(E) && st.ins.Keys <= CrossingInputs(E)
    && (forall o | o in st.outs :: MadeFor(st.outs[o], OutputStream(o)) && NewPorts(O, I, outputs, inputs, st.outs[o]))
    && (forall i | i in st.ins :: MadeFor(st.ins[i], InputStream(i)) && NewPorts(O, I, outputs, inputs, st.ins[i]))
    && GoodBridges(E, st.outs, st.ins)
    && DistinctStreams(st.outs.Keys, st.ins.Keys)
    && st.streamNames == StreamNames(st.outs.Keys, st.ins.Keys)
  }

  function BridgeIds(b: Bridge): (nat, nat) { (b.entry.parent.id, b.exit.parent.id) }

  /** The nodes of a bridge are XLink nodes of one stream. */
  predicate MadeFor(b: Bridge, streamName: string) {
    && b.entry.parent.streamName == b.exit.parent.streamName == streamName
    && b.entry.parent.name == SenderName(b.entry.parent.onHost)
    && b.exit.parent.name == ReceiverName(b.exit.parent.onHost)
    && b.entry.types == BRIDGE_TYPES && b.exit.types == BRIDGE_TYPES
  }

  function SenderName(onHost: bool): string { if onHost then "XLinkOutHost" else "XLinkOut" }

  function ReceiverName(onHost: bool): string { if onHost then "XLinkInHost" else "XLinkIn" }

  predicate IsGroupName(name: string) { name == "NodeGroup" || name == "DeviceNodeGroup" }

  lemma BridgeNodesAreNoGroups(b: Bridge, streamName: string)
    requires MadeFor(b, streamName)
    ensures !IsGroupName(b.entry.parent.name) && !IsGroupName(b.exit.parent.name)
  {
    assert SenderName(true)[0] == SenderName(false)[0] == ReceiverName(true)[0] == ReceiverName(false)[0] == 'X';
    assert forall name | IsGroupName(name) :: name[0] != 'X';
  }

  /** No group node has a linked port. */
  ghost predicate NoLinkedGroups(edges: set<Edge>) {
    forall e | e in edges :: !IsGroupName(e.0.parent.name) && !IsGroupName(e.1.parent.name)
  }

  /** The pass links no ports of group nodes. */
  lemma GroupsStayUnlinked(
    E: set<Edge>, O: set<Output>, I: set<Input>, outputs: set<Output>, inputs: set<Input>, st: BridgeState,
    now: set<Edge>)
    requires BridgesStand(E, O, I, outputs, inputs, st) && NoLinkedGroups(E)
    requires st.outs.Keys == CrossingOutputs(E) && st.ins.Keys == CrossingInputs(E)
    requires now == Rewritten(E, E, st.outs, st.ins)
    ensures NoLinkedGroups(now)
  {
    hide IsGroupName, MadeFor, OutputStream, InputStream;
    forall o | o in st.outs
      ensures !IsGroupName(st.outs[o].entry.parent.name) && !IsGroupName(st.outs[o].exit.parent.name)
    {
      BridgeNodesAreNoGroups(st.outs[o], OutputStream(o));
    }
    forall i | i in st.ins
      ensures !IsGroupName(st.ins[i].entry.parent.name) && !IsGroupName(st.ins[i].exit.parent.name)
    {
      BridgeNodesAreNoGroups(st.ins[i], InputStream(i));
    }
  }

  predicate NewPorts(O: set<Output>, I: set<Input>, outputs: set<Output>, inputs: set<Input>, b: Bridge) {
    b.entry in inputs && b.entry !in I && b.exit in outputs && b.exit !in O
  }

  ghost function StreamNames(outs: set<Output>, ins: set<Input>): set<string> {
    (set o | o in outs :: OutputStream(o)) + (set i | i in ins :: InputStream(i))
  }

  lemma NewOutputName(outs: set<Output>, ins: set<Input>, o: Output)
    requires DistinctStreams(outs, ins) && OutputStream(o) !in StreamNames(outs, ins)
    ensures DistinctStreams(outs + {o}, ins)
    ensures StreamNames(outs + {o}, ins) == StreamNames(outs, ins) + {OutputStream(o)}
  {
    hide OutputStream, InputStream;
    assert forall p | p in outs :: OutputStream(p) in StreamNames(outs, ins);
    assert forall i | i in ins :: InputStream(i) in StreamNames(outs, ins);
  }

  lemma NewInputName(outs: set<Output>, ins: set<Input>, i: Input)
    requires DistinctStreams(outs, ins) && InputStream(i) !in StreamNames(outs, ins)
    ensures DistinctStreams(outs, ins + {i})
    ensures StreamNames(outs, ins + {i}) == StreamNames(outs, ins) + {InputStream(i)}
  {
    hide OutputStream, InputStream;
    assert forall p | p in outs :: OutputStream(p) in StreamNames(outs, ins);
    assert forall j | j in ins :: InputStream(j) in StreamNames(outs, ins);
  }

  lemma BridgesStandWithOut(
    E: set<Edge>, O: set<Output>, I: set<Input>, outputs: set<Output>, inputs: set<Input>, st: BridgeState,
    o: Output, b: Bridge)
    requires BridgesStand(E, O, I, outputs, inputs, st)
    requires o in CrossingOutputs(E) && OutputStream(o) !in st.streamNames
    requires b.entry !in inputs && b.exit !in outputs
    requires MadeFor(b, OutputStream(o)) && !b.entry.parent.onHost && b.exit.parent.onHost
    ensures BridgesStand(E, O, I, outputs + {b.exit}, inputs + {b.entry},
                         st.(outs := st.outs[o := b], streamNames := st.streamNames + {OutputStream(o)}))
  {
    hide GoodBridges, DistinctStreams, StreamNames, CrossingOutputs, CrossingInputs, OutputStream, InputStream;
    NewOutputName(st.outs.Keys, st.ins.Keys, o);
    GoodBridgesWithOut(E, st.outs, st.ins, o, b);
    assert st.outs[o := b].Keys == st.outs.Keys + {o};
  }

  lemma BridgesStandWithIn(
    E: set<Edge>, O: set<Output>, I: set<Input>, outputs: set<Output>, inputs: set<Input>, st: BridgeState,
    i: Input, b: Bridge)
    requires BridgesStand(E, O, I, outputs, inputs, st)
    requires i in CrossingInputs(E) && InputStream(i) !in st.streamNames
    requires b.entry !in inputs && b.exit !in outputs
    requires MadeFor(b, InputStream(i)) && b.entry.parent.onHost && !b.exit.parent.onHost
    ensures BridgesStand(E, O, I, outputs + {b.exit}, inputs + {b.entry},
                         st.(ins := st.ins[i := b], streamNames := st.streamNames + {InputStream(i)}))
  {
    hide GoodBridges, DistinctStreams, StreamNames, CrossingOutputs, CrossingInputs, OutputStream, InputStream;
    NewInputName(st.outs.Keys, st.ins.Keys, i);
    GoodBridgesWithIn(E, st.outs, st.ins, i, b);
    assert st.ins[i := b].Keys == st.ins.Keys + {i};
  }

  lemma CrossingPortsAreOwned(
    E: set<Edge>, O: set<Output>, I: set<Input>, outputs: set<Output>, inputs: set<Input>, st: BridgeState, e: Edge)
    requires BridgesStand(E, O, I, outputs, inputs, st) && e in E
    ensures e.0 in outputs && e.1 in inputs
    ensures DeviceToHost(e) ==> e.0 in CrossingOutputs(E)
    ensures HostToDevice(e) ==> e.1 in CrossingInputs(E)
  {
  }

  lemma OutBridgePorts(
    E: set<Edge>, O: set<Output>, I: set<Input>, outputs: set<Output>, inputs: set<Input>, st: BridgeState, e: Edge)
    requires BridgesStand(E, O, I, outputs, inputs, st) && e in E && e.0 in st.outs
    ensures e.0 in outputs && e.1 in inputs
    ensures var b := st.outs[e.0];
            MadeFor(b, OutputStream(e.0)) && b.exit in outputs && b.entry in inputs && b.entry != e.1 && b.exit != e.0
  {
  }

  lemma InBridgePorts(
    E: set<Edge>, O: set<Output>, I: set<Input>, outputs: set<Output>, inputs: set<Input>, st: BridgeState, e: Edge)
    requires BridgesStand(E, O, I, outputs, inputs, st) && e in E && e.1 in st.ins
    ensures e.0 in outputs && e.1 in inputs
    ensures var b := st.ins[e.1];
            MadeFor(b, InputStream(e.1)) && b.exit in outputs && b.entry in inputs && b.entry != e.1 && b.exit != e.0
  {
  }

  /** Linking to a bridge fails for lack of a common type exactly when the
      port's messages do not fit an XLink stream. */
  lemma FitPorts(e: Edge, b: Bridge, streamName: string)
    requires MadeFor(b, streamName)
    ensures e.0.CanConnect(b.entry) <==> Bridgeable(e.0.types)
    ensures b.exit.CanConnect(e.1) <==> Bridgeable(e.1.types)
  {
    BridgeTypesMatchExactly(e.0.types);
    BridgeTypesMatchExactly(e.1.types);
  }

  lemma UnfitPort(E: set<Edge>, e: Edge)
    requires e in E && (DeviceToHost(e) || HostToDevice(e))
    requires !Bridgeable(e.0.types) || !Bridgeable(e.1.types)
    ensures !Buildable(E)
  {
  }

  /** A stream name that is taken belongs to another crossing port. */
  lemma TakenName(
    E: set<Edge>, O: set<Output>, I: set<Input>, outputs: set<Output>, inputs: set<Input>, st: BridgeState, e: Edge)
    requires BridgesStand(E, O, I, outputs, inputs, st) && e in E
    requires (DeviceToHost(e) && e.0 !in st.outs && OutputStream(e.0) in st.streamNames)
             || (HostToDevice(e) && e.1 !in st.ins && InputStream(e.1) in st.streamNames)
    ensures !Buildable(E)
  {
    assert DeviceToHost(e) ==> e.0 in CrossingOutputs(E);
    assert HostToDevice(e) ==> e.1 in CrossingInputs(E);
  }

  /** The connections `now` are those of `E` with the first `visited` handled. */
  ghost predicate Rerouted(E: set<Edge>, visited: set<Edge>, st: BridgeState, now: set<Edge>) {
    && visited <= E
    && st.outs.Keys == CrossingOutputs(visited) && st.ins.Keys == CrossingInputs(visited)
    && now == Rewritten(E, visited, st.outs, st.ins)
    && (forall e | e in visited && Crosses(e) :: Bridgeable(e.0.types) && Bridgeable(e.1.types))
  }

  /** A connection that was not handled yet is still there; of the hops that
      will replace it, only the one its bridge shares can already be there. */
  lemma NotYetRerouted(
    E: set<Edge>, O: set<Output>, I: set<Input>, outputs: set<Output>, inputs: set<Input>, visited: set<Edge>,
    st: BridgeState, now: set<Edge>, e: Edge)
    requires BridgesStand(E, O, I, outputs, inputs, st) && Rerouted(E, visited, st, now) && e in E - visited
    ensures e in now && e.0 in outputs && e.1 in inputs
    ensures e.0 in st.outs ==>
              (e.0, st.outs[e.0].entry) in now && (st.outs[e.0].exit, e.1) !in now && Bridgeable(e.0.types)
    ensures e.1 in st.ins ==>
              (st.ins[e.1].exit, e.1) in now && (e.0, st.ins[e.1].entry) !in now && Bridgeable(e.1.types)
  {
    if e.0 in st.outs {
      var d :| d in visited && DeviceToHost(d) && d.0 == e.0;
      assert (e.0, st.outs[e.0].entry) in OutEntries(st.outs);
    }
    if e.1 in st.ins {
      var d :| d in visited && HostToDevice(d) && d.1 == e.1;
      assert (st.ins[e.1].exit, e.1) in InExits(st.ins);
    }
    HopsAreNew(E, visited, st.outs, st.ins, e);
  }

  lemma HopsAreNew(E: set<Edge>, visited: set<Edge>, outs: map<Output, Bridge>, ins: map<Input, Bridge>, e: Edge)
    requires outs.Keys == CrossingOutputs(visited) && ins.Keys == CrossingInputs(visited)
    requires GoodBridges(E, outs, ins) && visited <= E && e in E - visited
    ensures e.0 in outs ==> (outs[e.0].exit, e.1) !in Rewritten(E, visited, outs, ins)
    ensures e.1 in ins ==> (e.0, ins[e.1].entry) !in Rewritten(E, visited, outs, ins)
  {
  }

  lemma ReroutedToHost(
    E: set<Edge>, O: set<Output>, I: set<Input>, outputs: set<Output>, inputs: set<Input>, visited: set<Edge>,
    st: BridgeState, st': BridgeState, before: set<Edge>, e: Edge)
    requires Rerouted(E, visited, st, before) && BridgesStand(E, O, I, outputs, inputs, st')
    requires e in E && DeviceToHost(e) && Bridgeable(e.0.types) && Bridgeable(e.1.types)
    requires e.0 in st'.outs && (e.0 in st.outs ==> st'.outs[e.0] == st.outs[e.0])
    requires st'.outs == st.outs[e.0 := st'.outs[e.0]] && st'.ins == st.ins
    ensures Rerouted(E, visited + {e}, st', before + {(e.0, st'.outs[e.0].entry)} - {e} + {(st'.outs[e.0].exit, e.1)})
  {
    DeviceToHostStep(E, visited, st.outs, st.ins, e, st'.outs[e.0]);
  }

  lemma ReroutedToDevice(
    E: set<Edge>, O: set<Output>, I: set<Input>, outputs: set<Output>, inputs: set<Input>, visited: set<Edge>,
    st: BridgeState, st': BridgeState, before: set<Edge>, e: Edge)
    requires Rerouted(E, visited, st, before) && BridgesStand(E, O, I, outputs, inputs, st')
    requires e in E && HostToDevice(e) && Bridgeable(e.0.types) && Bridgeable(e.1.types)
    requires e.1 in st'.ins && (e.1 in st.ins ==> st'.ins[e.1] == st.ins[e.1])
    requires st'.ins == st.ins[e.1 := st'.ins[e.1]] && st'.outs == st.outs
    ensures Rerouted(E, visited + {e}, st', before + {(st'.ins[e.1].exit, e.1)} - {e} + {(e.0, st'.ins[e.1].entry)})
  {
    HostToDeviceStep(E, visited, st.outs, st.ins, e, st'.ins[e.1]);
  }

  const NO_BRIDGES := BridgeState(map[], map[], {})

  lemma NothingRerouted(E: set<Edge>, O: set<Output>, I: set<Input>)
    requires forall e | e in E :: e.0 in O && e.1 in I
    ensures BridgesStand(E, O, I, O, I, NO_BRIDGES) && Rerouted(E, {}, NO_BRIDGES, E) && Noted(NO_BRIDGES, [])
  {
    StartsUnchanged(E);
    hide Rewritten, CrossingOutputs, CrossingInputs;
  }

  lemma SameSideIsSkipped(E: set<Edge>, visited: set<Edge>, st: BridgeState, now: set<Edge>, e: Edge)
    requires Rerouted(E, visited, st, now) && e in E && !DeviceToHost(e) && !HostToDevice(e)
    ensures Rerouted(E, visited + {e}, st, now)
  {
    SameSideStep(E, visited, st.outs, st.ins, e);
  }

  lemma AllRerouted(
    E: set<Edge>, O: set<Output>, I: set<Input>, outputs: set<Output>, inputs: set<Input>, st: BridgeState,
    now: set<Edge>)
    requires BridgesStand(E, O, I, outputs, inputs, st) && Rerouted(E, E, st, now)
    ensures Buildable(E) && st.outs.Keys == CrossingOutputs(E) && st.ins.Keys == CrossingInputs(E)
    ensures now == Rewritten(E, E, st.outs, st.ins)
  {
  }

  /** After the pass the route leads from `e.0` to `e.1` exactly if the two were
      connected before and it is the one that replaces their connection. */
  ghost predicate DeliversAsBefore(before: set<Edge>, after: set<Edge>, st: BridgeState, e: Edge, route: Route)
    requires e in before ==> (DeviceToHost(e) ==> e.0 in st.outs) && (HostToDevice(e) ==> e.1 in st.ins)
  {
    Carries(after, AllBridges(st.outs, st.ins), e.0, route, e.1)
    <==> e in before && route == ReplacementRoute(st.outs, st.ins, e)
  }

  lemma BuiltPipelineDelivers(
    E: set<Edge>, O: set<Output>, I: set<Input>, outputs: set<Output>, inputs: set<Input>, st: BridgeState,
    now: set<Edge>)
    requires BridgesStand(E, O, I, outputs, inputs, st)
    requires st.outs.Keys == CrossingOutputs(E) && st.ins.Keys == CrossingInputs(E)
    requires now == Rewritten(E, E, st.outs, st.ins)
    ensures forall e | e in now :: !Crosses(e)
    ensures forall e | e in E :: (DeviceToHost(e) ==> e.0 in st.outs) && (HostToDevice(e) ==> e.1 in st.ins)
    ensures forall o, i, route: Route | o in O && i in I :: DeliversAsBefore(E, now, st, (o, i), route)
  {
    hide Rewritten, CrossingOutputs, CrossingInputs, Carries;
    NothingCrossesAfterwards(E, st.outs, st.ins);
    forall e | e in E ensures (DeviceToHost(e) ==> e.0 in st.outs) && (HostToDevice(e) ==> e.1 in st.ins) {
      CrossingPortsAreOwned(E, O, I, outputs, inputs, st, e);
    }
    forall o, i, route: Route | o in O && i in I ensures DeliversAsBefore(E, now, st, (o, i), route) {
      BridgingPreservesDelivery(E, st.outs, st.ins, o, i, route);
    }
  }

  /** The pairs of node ids that were noted down name one bridge each. */
  ghost predicate Noted(st: BridgeState, noted: seq<(nat, nat)>) {
    && |noted| == |st.outs| + |st.ins|
    && (forall o | o in st.outs :: BridgeIds(st.outs[o]) in noted)
    && (forall i | i in st.ins :: BridgeIds(st.ins[i]) in noted)
  }

  /** Every bridge in full: its nodes, their stream name, and how it is noted. */
  lemma BridgesInFull(E: set<Edge>, O: set<Output>, I: set<Input>, outputs: set<Output>, inputs: set<Input>,
      st: BridgeState, noted: seq<(nat, nat)>)
    requires BridgesStand(E, O, I, outputs, inputs, st) && Noted(st, noted)
    ensures forall o | o in st.outs ::
              var from, to := st.outs[o].entry.parent, st.outs[o].exit.parent;
              && from.name == "XLinkOut" && !from.onHost && to.name == "XLinkInHost" && to.onHost
              && from.streamName == to.streamName == "__x_" + Decimal(o.parent.id) + "_" + o.group + "_" + o.name
              && (from.id, to.id) in noted
    ensures forall i | i in st.ins ::
              var from, to := st.ins[i].entry.parent, st.ins[i].exit.parent;
              && from.name == "XLinkOutHost" && from.onHost && to.name == "XLinkIn" && !to.onHost
              && from.streamName == to.streamName == "__x_" + Decimal(i.parent.id) + "_" + i.group + "_" + i.name
              && (from.id, to.id) in noted
    ensures |noted| == |st.outs| + |st.ins|
  {
    forall o | o in st.outs ensures MadeFor(st.outs[o], OutputStream(o)) && BridgeIds(st.outs[o]) in noted {}
    forall i | i in st.ins ensures MadeFor(st.ins[i], InputStream(i)) && BridgeIds(st.ins[i]) in noted {}
    hide NewPorts, DistinctStreams;
  }

  lemma NotedWithOut(st: BridgeState, st': BridgeState, noted: seq<(nat, nat)>, o: Output)
    requires Noted(st, noted) && o in st'.outs && st'.outs == st.outs[o := st'.outs[o]] && st'.ins == st.ins
    requires o in st.outs ==> st' == st
    ensures Noted(st', noted + if o in st.outs then [] else [BridgeIds(st'.outs[o])])
  {
    assert o !in st.outs ==> st'.outs.Keys == st.outs.Keys + {o};
  }

  lemma NotedWithIn(st: BridgeState, st': BridgeState, noted: seq<(nat, nat)>, i: Input)
    requires Noted(st, noted) && i in st'.ins && st'.ins == st.ins[i := st'.ins[i]] && st'.outs == st.outs
    requires i in st.ins ==> st' == st
    ensures Noted(st', noted + if i in st.ins then [] else [BridgeIds(st'.ins[i])])
  {
    assert i !in st.ins ==> st'.ins.Keys == st.ins.Keys + {i};
  }
}
