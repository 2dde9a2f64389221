/** The pipeline: which nodes and ports it owns, the bridging pass that `build`
    runs over its connections, and the schemas emitted from the result. */
module Pipeline {
  import Ordering
  import opened NodeGraph
  import opened Bridging

  // ----- schemas -----

  datatype NodeObjInfo = NodeObjInfo(id: nat, name: string, deviceNode: bool)

  datatype NodeConnectionSchema = NodeConnectionSchema(
    node1Id: nat, node1OutputGroup: string, node1Output: string,
    node2Id: nat, node2InputGroup: string, node2Input: string)

  datatype PipelineSchema = PipelineSchema(
    nodes: map<nat, NodeObjInfo>, connections: seq<NodeConnectionSchema>, bridges: seq<(nat, nat)>)

  datatype SchemaResult = Schema(schema: PipelineSchema) | CrossingConnection

  function NodeInfo(n: Node): NodeObjInfo { NodeObjInfo(n.id, n.name, !n.onHost) }

  function ConnectionInfo(e: Edge): NodeConnectionSchema {
    NodeConnectionSchema(e.0.parent.id, e.0.group, e.0.name, e.1.parent.id, e.1.group, e.1.name)
  }

  /** The node goes into the device schema: neither on the host nor a mere group. */
  predicate OnDevice(info: NodeObjInfo) {
    info.deviceNode && !IsGroupName(info.name)
  }

  /** Both ends of every connection are in the schema. */
  predicate Closed(schema: PipelineSchema) {
    forall c | c in schema.connections :: c.node1Id in schema.nodes && c.node2Id in schema.nodes
  }

  ghost function OutputKey(o: Output): (Node, string, string) { (o.parent, o.group, o.name) }

  ghost function InputKey(i: Input): (Node, string, string) { (i.parent, i.group, i.name) }

  // ----- what a set of edges says about one node, output or input -----

  ghost function Targets(edges: set<Edge>, o: Output): set<Input> {
    set e | e in edges && e.0 == o :: e.1
  }

  ghost function Sources(edges: set<Edge>, i: Input): set<Output> {
    set e | e in edges && e.1 == i :: e.0
  }

  ghost function ConnectionsOf(edges: set<Edge>, n: Node): set<ConnectionInternal> {
    set e | e in edges && e.0.parent == n :: Connection(e.0, e.1)
  }

  /** `list` names every element of `s` once, and nothing else. */
  ghost predicate ListsOnce<T>(list: seq<T>, s: set<T>) {
    multiset(list) == multiset(s)
  }

  lemma TargetLinked(edges: set<Edge>, e: Edge, o: Output, list: seq<Input>)
    requires ListsOnce(list, Targets(edges, o)) && e !in edges
    ensures ListsOnce(if o == e.0 then list + [e.1] else list, Targets(edges + {e}, o))
  {
    if o == e.0 {
      assert e in edges + {e};
      assert Targets(edges + {e}, o) == Targets(edges, o) + {e.1} by {
        forall x | x in Targets(edges, o) ensures (o, x) in edges + {e} {}
      }
    } else {
      assert Targets(edges + {e}, o) == Targets(edges, o) by {
        forall x | x in Targets(edges, o) ensures (o, x) in edges + {e} {}
      }
    }
  }

  lemma TargetUnlinked(edges: set<Edge>, e: Edge, o: Output, list: seq<Input>)
    requires ListsOnce(list, Targets(edges, o))
    ensures ListsOnce(if o == e.0 then Without(list, e.1) else list, Targets(edges - {e}, o))
  {
    WithoutCount(list, e.1);
    if o == e.0 {
      assert Targets(edges - {e}, o) == Targets(edges, o) - {e.1} by {
        forall x | x in Targets(edges, o) && x != e.1 ensures (o, x) in edges - {e} {}
      }
    } else {
      assert Targets(edges - {e}, o) == Targets(edges, o) by {
        forall x | x in Targets(edges, o) ensures (o, x) in edges - {e} {}
      }
    }
  }

  lemma SourceLinked(edges: set<Edge>, e: Edge, i: Input, list: seq<Output>)
    requires ListsOnce(list, Sources(edges, i)) && e !in edges
    ensures ListsOnce(if i == e.1 then list + [e.0] else list, Sources(edges + {e}, i))
  {
    if i == e.1 {
      assert e in edges + {e};
      assert Sources(edges + {e}, i) == Sources(edges, i) + {e.0} by {
        forall x | x in Sources(edges, i) ensures (x, i) in edges + {e} {}
      }
    } else {
      assert Sources(edges + {e}, i) == Sources(edges, i) by {
        forall x | x in Sources(edges, i) ensures (x, i) in edges + {e} {}
      }
    }
  }

  lemma SourceUnlinked(edges: set<Edge>, e: Edge, i: Input, list: seq<Output>)
    requires ListsOnce(list, Sources(edges, i))
    ensures ListsOnce(if i == e.1 then Without(list, e.0) else list, Sources(edges - {e}, i))
  {
    WithoutCount(list, e.0);
    if i == e.1 {
      assert Sources(edges - {e}, i) == Sources(edges, i) - {e.0} by {
        forall x | x in Sources(edges, i) && x != e.0 ensures (x, i) in edges - {e} {}
      }
    } else {
      assert Sources(edges - {e}, i) == Sources(edges, i) by {
        forall x | x in Sources(edges, i) ensures (x, i) in edges - {e} {}
      }
    }
  }

  lemma ConnectionsStep(edges: set<Edge>, e: Edge, n: Node)
    ensures ConnectionsOf(edges + {e}, n)
            == if n == e.0.parent then ConnectionsOf(edges, n) + {Connection(e.0, e.1)} else ConnectionsOf(edges, n)
    ensures ConnectionsOf(edges - {e}, n)
            == if n == e.0.parent then ConnectionsOf(edges, n) - {Connection(e.0, e.1)} else ConnectionsOf(edges, n)
  {
    forall c | c in ConnectionsOf(edges, n) && c != Connection(e.0, e.1) ensures c in ConnectionsOf(edges - {e}, n) {
      assert (c.out, c.input) in edges - {e};
    }
  }

  ghost predicate Touches(e: Edge, n: Node) { e.0.parent == n || e.1.parent == n }

  lemma ForgottenConnections(edges: set<Edge>, m: Node, n: Node)
    requires m != n
    ensures (set c | c in ConnectionsOf(edges, m) && c.inputNode != n && c.outputNode != n)
            == ConnectionsOf((set e | e in edges && !Touches(e, n)), m)
  {
  }

  lemma SameMultiset<T>(s: set<T>, t: set<T>)
    ensures multiset(s) == multiset(t) <==> s == t
  {
    if multiset(s) == multiset(t) {
      assert forall x | x in s :: x in multiset(s);
      assert forall x | x in t :: x in multiset(t);
    }
  }

  method ForgetNode(nodes: seq<Node>, n: Node)
    modifies nodes`connections
    ensures forall m | m in nodes ::
              m.connections == set c | c in old(m.connections) && c.inputNode != n && c.outputNode != n
  {
    for k := 0 to |nodes|
      invariant forall m | m in nodes[..k] ::
                  m.connections == set c | c in old(m.connections) && c.inputNode != n && c.outputNode != n
      invariant forall m | m in nodes && m !in nodes[..k] :: m.connections == old(m.connections)
    {
      assert nodes[..k + 1] == nodes[..k] + [nodes[k]];
      nodes[k].RemoveConnectionToNode(n);
    }
    assert nodes[..|nodes|] == nodes;
  }

  class PipelineImpl {
    var nodes: seq<Node>
    var latestId: nat
    var xlinkBridges: seq<(nat, nat)>
    ghost var nodeSet: set<Node>    // the nodes, as a set
    ghost var outputs: set<Output>  // the outputs of all nodes
    ghost var inputs: set<Input>    // the inputs of all nodes
    ghost var edges: set<Edge>      // the connected pairs
    ghost var repr: set<object>

    ghost predicate Valid()
      reads this, repr
      ensures Valid() ==> this in repr
    {
      && this in repr
      && nodeSet <= repr && outputs <= repr && inputs <= repr
      && OwnsPorts() && UniqueIds() && UniqueNames() && ConnectionsAreEdges() && Mirrored()
    }

    ghost predicate OwnsPorts()
      reads this
    {
      && nodeSet == (set n | n in nodes)
      && (forall o | o in outputs :: o.parent in nodeSet)
      && (forall i | i in inputs :: i.parent in nodeSet)
      && (forall e | e in edges :: e.0 in outputs && e.1 in inputs)
    }

    ghost predicate UniqueIds()
      reads this
    {
      && (forall n | n in nodeSet :: n.id < latestId)
      && (forall j, k | 0 <= j < k < |nodes| :: nodes[j].id != nodes[k].id)
    }

    /** On one node, no two outputs and no two inputs share group and name. */
    ghost predicate UniqueNames()
      reads this
    {
      && (forall o, p | o in outputs && p in outputs && OutputKey(o) == OutputKey(p) :: o == p)
      && (forall i, j | i in inputs && j in inputs && InputKey(i) == InputKey(j) :: i == j)
    }

    /** The connection sets of the nodes hold the edges and nothing else, each
        on the node of its output. */
    ghost predicate ConnectionsAreEdges()
      reads this, nodeSet
    {
      forall n | n in nodeSet :: n.connections == ConnectionsOf(edges, n)
    }

    /** Connected ports list each other exactly once, other ports not at all. */
    ghost predicate Mirrored()
      reads this, outputs, inputs
    {
      && (forall o | o in outputs :: ListsOnce(o.connectedInputs, Targets(edges, o)))
      && (forall i | i in inputs :: ListsOnce(i.connectedOutputs, Sources(edges, i)))
    }

    constructor ()
      ensures Valid() && fresh(repr)
      ensures nodes == [] && outputs == {} && inputs == {} && edges == {} && xlinkBridges == []
    {
      nodes, latestId, xlinkBridges := [], 0, [];
      nodeSet, outputs, inputs, edges := {}, {}, {}, {};
      repr := {this};
    }

    /** Names identify connections: only the connection of `o` and `i` itself
        has their nodes and names. */
    lemma RecordedMeansEdge(o: Output, i: Input)
      requires Valid() && o in outputs && i in inputs
      ensures o.Recorded(i) <==> (o, i) in edges
      ensures forall c | c in o.parent.connections && c.SameConnection(Connection(o, i)) :: c == Connection(o, i)
    {
      forall c | c in o.parent.connections && c.SameConnection(Connection(o, i)) ensures c == Connection(o, i) {
        assert c == Connection(c.out, c.input) && (c.out, c.input) in edges;
        assert OutputKey(c.out) == OutputKey(o) && InputKey(c.input) == InputKey(i);
      }
      if (o, i) in edges {
        assert Connection(o, i) in o.parent.connections;
        assert Connection(o, i).SameConnection(Connection(o, i));
      }
    }

    method Link(o: Output, i: Input) returns (r: LinkResult)
      requires Valid() && o in outputs && i in inputs
      modifies this`edges, o`connectedInputs, i`connectedOutputs, o.parent`connections
      ensures Valid()
      ensures r == if !o.CanConnect(i) then CannotLink else if (o, i) in old(edges) then AlreadyLinked else Linked
      ensures edges == if r.Linked? then old(edges) + {(o, i)} else old(edges)
    {
      RecordedMeansEdge(o, i);
      r := LinkPorts(o, i);
    }

    method Unlink(o: Output, i: Input) returns (wasLinked: bool)
      requires Valid() && o in outputs && i in inputs
      modifies this`edges, o`connectedInputs, i`connectedOutputs, o.parent`connections
      ensures Valid()
      ensures wasLinked <==> (o, i) in old(edges)
      ensures edges == old(edges) - {(o, i)}
    {
      RecordedMeansEdge(o, i);
      wasLinked := UnlinkPorts(o, i);
    }

    method LinkPorts(o: Output, i: Input) returns (r: LinkResult)
      requires ConnectionsAreEdges() && Mirrored() && o in outputs && i in inputs && o.parent in nodeSet
      requires o.Recorded(i) <==> (o, i) in edges
      modifies this`edges, o`connectedInputs, i`connectedOutputs, o.parent`connections
      ensures ConnectionsAreEdges() && Mirrored()
      ensures r == if !o.CanConnect(i) then CannotLink else if (o, i) in old(edges) then AlreadyLinked else Linked
      ensures edges == if r.Linked? then old(edges) + {(o, i)} else old(edges)
    {
      r := o.Link(i);
      if !r.Linked? {
        return;
      }
      edges := edges + {(o, i)};
      forall n | n in nodeSet ensures n.connections == ConnectionsOf(edges, n) {
        ConnectionsStep(old(edges), (o, i), n);
      }
      forall p | p in outputs ensures ListsOnce(p.connectedInputs, Targets(edges, p)) {
        TargetLinked(old(edges), (o, i), p, old(p.connectedInputs));
      }
      forall j | j in inputs ensures ListsOnce(j.connectedOutputs, Sources(edges, j)) {
        SourceLinked(old(edges), (o, i), j, old(j.connectedOutputs));
      }
    }

    method UnlinkPorts(o: Output, i: Input) returns (wasLinked: bool)
      requires ConnectionsAreEdges() && Mirrored() && o in outputs && i in inputs && o.parent in nodeSet
      requires o.Recorded(i) <==> (o, i) in edges
      requires forall c | c in o.parent.connections && c.SameConnection(Connection(o, i)) :: c == Connection(o, i)
      modifies this`edges, o`connectedInputs, i`connectedOutputs, o.parent`connections
      ensures ConnectionsAreEdges() && Mirrored()
      ensures wasLinked <==> (o, i) in old(edges)
      ensures edges == old(edges) - {(o, i)}
    {
      wasLinked := o.Unlink(i);
      if !wasLinked {
        assert old(edges) - {(o, i)} == old(edges);
        return;
      }
      edges := edges - {(o, i)};
      assert o.parent.connections == old(o.parent.connections) - {Connection(o, i)};
      forall n | n in nodeSet ensures n.connections == ConnectionsOf(edges, n) {
        ConnectionsStep(old(edges), (o, i), n);
      }
      forall p | p in outputs ensures ListsOnce(p.connectedInputs, Targets(edges, p)) {
        TargetUnlinked(old(edges), (o, i), p, old(p.connectedInputs));
      }
      forall j | j in inputs ensures ListsOnce(j.connectedOutputs, Sources(edges, j)) {
        SourceUnlinked(old(edges), (o, i), j, old(j.connectedOutputs));
      }
    }

    lemma EdgesAreOwned()
      requires Valid()
      ensures forall e | e in edges :: e.0 in outputs && e.1 in inputs
    {
    }

    lemma OutputInRepr(o: Output)
      requires Valid() && o in outputs
      ensures o in repr && o.parent in repr
    {
    }

    lemma InputInRepr(i: Input)
      requires Valid() && i in inputs
      ensures i in repr && i.parent in repr
    {
    }

    /** A message sent by an output reaches every connected input once and no
        other input of the pipeline. */
    method Send(o: Output, msg: Message)
      requires Valid() && o in outputs
      modifies o.connectedInputs`received
      ensures Valid()
      ensures forall i | i in inputs :: i.received == old(i.received) + if (o, i) in edges then [msg] else []
    {
      o.Send(msg);
      forall i | i in inputs ensures i.received == old(i.received) + if (o, i) in edges then [msg] else [] {
        assert i in Targets(edges, o) <==> (o, i) in edges;
        assert multiset(o.connectedInputs)[i] == if (o, i) in edges then 1 else 0;
        assert i in o.connectedInputs <==> i in multiset(o.connectedInputs);
      }
    }

    // ----- removing a node -----

    /** Takes `n` out of the pipeline. The connection sets are cleaned up, the
        lists inside the ports are not: they still mirror the old edges, so an
        output that fed `n` still sends there. */
    method Remove(n: Node)
      requires Valid() && n in nodeSet
      modifies this, nodeSet
      ensures nodeSet == old(nodeSet) - {n} && edges == (set e | e in old(edges) && !Touches(e, n))
      ensures outputs == (set o | o in old(outputs) && o.parent != n)
      ensures inputs == (set i | i in old(inputs) && i.parent != n)
      ensures OwnsPorts() && UniqueIds() && UniqueNames() && ConnectionsAreEdges()
      ensures forall o | o in outputs :: ListsOnce(o.connectedInputs, Targets(old(edges), o))
      ensures forall i | i in inputs :: ListsOnce(i.connectedOutputs, Sources(old(edges), i))
      ensures Mirrored() <==> forall e | e in old(edges) && Touches(e, n) :: e.0.parent == e.1.parent
    {
      ghost var before := edges;
      RestStaysUnique(n);
      Detach(n);
      forall m | m in nodeSet ensures m.connections == ConnectionsOf(edges, m) {
        ForgottenConnections(before, m, n);
      }
      assert nodeSet == set m | m in nodes;
      hide ListsOnce;
      MirroredAfterRemoval(before, n);
    }

    method Detach(n: Node)
      requires nodeSet == set m | m in nodes
      modifies this`nodes, this`nodeSet, this`edges, this`outputs, this`inputs, nodeSet`connections
      ensures nodes == Without(old(nodes), n) && nodeSet == old(nodeSet) - {n}
      ensures edges == set e | e in old(edges) && !Touches(e, n)
      ensures outputs == set o | o in old(outputs) && o.parent != n
      ensures inputs == set i | i in old(inputs) && i.parent != n
      ensures forall m | m in nodeSet ::
                m.connections == set c | c in old(m.connections) && c.inputNode != n && c.outputNode != n
    {
      forall k | 0 <= k < |Without(nodes, n)| ensures Without(nodes, n)[k] in nodeSet {}
      nodes := Without(nodes, n);
      ForgetNode(nodes, n);
      nodeSet := nodeSet - {n};
      edges := set e | e in edges && !Touches(e, n);
      outputs := set o | o in outputs && o.parent != n;
      inputs := set i | i in inputs && i.parent != n;
    }

    lemma RestStaysUnique(n: Node)
      requires Valid()
      ensures (set m | m in Without(nodes, n)) == nodeSet - {n}
      ensures forall j, k | 0 <= j < k < |Without(nodes, n)| :: Without(nodes, n)[j].id != Without(nodes, n)[k].id
    {
      WithoutKeepsDistinct(nodes, n);
    }

    /** What the lists inside the remaining ports say about the edges left. */
    lemma MirroredAfterRemoval(before: set<Edge>, n: Node)
      requires edges == set e | e in before && !Touches(e, n)
      requires forall e | e in before && e.0.parent != n :: e.0 in outputs
      requires forall e | e in before && e.1.parent != n :: e.1 in inputs
      requires (forall o | o in outputs :: o.parent != n) && (forall i | i in inputs :: i.parent != n)
      requires forall o | o in outputs :: ListsOnce(o.connectedInputs, Targets(before, o))
      requires forall i | i in inputs :: ListsOnce(i.connectedOutputs, Sources(before, i))
      ensures Mirrored() <==> forall e | e in before && Touches(e, n) :: e.0.parent == e.1.parent
    {
      forall o | o in outputs ensures ListsOnce(o.connectedInputs, Targets(edges, o))
          <==> Targets(edges, o) == Targets(before, o) {
        SameMultiset(Targets(edges, o), Targets(before, o));
      }
      forall i | i in inputs ensures ListsOnce(i.connectedOutputs, Sources(edges, i))
          <==> Sources(edges, i) == Sources(before, i) {
        SameMultiset(Sources(edges, i), Sources(before, i));
      }
      forall e | e in before && Touches(e, n)
        ensures e.1 in Targets(before, e.0) - Targets(edges, e.0) && e.0 in Sources(before, e.1) - Sources(edges, e.1)
      {
      }
      if forall e | e in before && Touches(e, n) :: e.0.parent == e.1.parent {
        forall o | o in outputs ensures Targets(edges, o) == Targets(before, o) {
          forall x | x in Targets(before, o) ensures (o, x) in edges {}
        }
        forall i | i in inputs ensures Sources(edges, i) == Sources(before, i) {
          forall x | x in Sources(before, i) ensures (x, i) in edges {}
        }
      }
    }

    // ----- adding nodes -----

    /** `create`: a new node without ports gets the next id. */
    method Create(name: string, onHost: bool, streamName: string) returns (n: Node)
      requires Valid()
      modifies this
      ensures Valid() && fresh(n) && repr == old(repr) + {n}
      ensures n.name == name && n.onHost == onHost && n.id == old(latestId) && n.streamName == streamName
      ensures nodes == old(nodes) + [n] && nodeSet == old(nodeSet) + {n}
      ensures edges == old(edges) && outputs == old(outputs) && inputs == old(inputs)
      ensures xlinkBridges == old(xlinkBridges)
    {
      n := new Node(latestId, name, onHost, streamName);
      latestId := latestId + 1;
      nodes := nodes + [n];
      nodeSet := nodeSet + {n};
      repr := repr + {n};
      assert ConnectionsOf(edges, n) == {};
    }

    method AddInput(n: Node, group: string, name: string, types: seq<DatatypeHierarchy>) returns (i: Input)
      requires Valid() && n in nodeSet
      requires forall j | j in inputs :: InputKey(j) != (n, group, name)
      modifies this`inputs, this`repr
      ensures Valid() && fresh(i) && repr == old(repr) + {i}
      ensures InputKey(i) == (n, group, name) && i.types == types && inputs == old(inputs) + {i}
    {
      i := new Input(n, group, name, types);
      inputs := inputs + {i};
      repr := repr + {i};
      assert Sources(edges, i) == {};
    }

    method AddOutput(n: Node, group: string, name: string, types: seq<DatatypeHierarchy>) returns (o: Output)
      requires Valid() && n in nodeSet
      requires forall p | p in outputs :: OutputKey(p) != (n, group, name)
      modifies this`outputs, this`repr
      ensures Valid() && fresh(o) && repr == old(repr) + {o}
      ensures OutputKey(o) == (n, group, name) && o.types == types && outputs == old(outputs) + {o}
    {
      o := new Output(n, group, name, types);
      outputs := outputs + {o};
      repr := repr + {o};
      assert Targets(edges, o) == {};
    }

    /** The pair of XLink nodes that carries one stream, from the device to the
        host or the other way. */
    method CreateBridge(toHost: bool, streamName: string) returns (b: Bridge)
      requires Valid()
      modifies this
      ensures Valid() && fresh(b.entry) && fresh(b.exit) && fresh(b.entry.parent) && fresh(b.exit.parent)
      ensures fresh(repr - old(repr)) && old(repr) <= repr
      ensures MadeFor(b, streamName) && b.entry.parent.onHost == !toHost && b.exit.parent.onHost == toHost
      ensures nodes == old(nodes) + [b.entry.parent, b.exit.parent]
      ensures edges == old(edges) && outputs == old(outputs) + {b.exit} && inputs == old(inputs) + {b.entry}
      ensures xlinkBridges == old(xlinkBridges)
    {
      hide Valid;
      var sender := Create(SenderName(!toHost), !toHost, streamName);
      var entry := AddInput(sender, "", "in", BRIDGE_TYPES);
      var receiver := Create(ReceiverName(toHost), toHost, streamName);
      var exit := AddOutput(receiver, "", "out", BRIDGE_TYPES);
      b := Bridge(entry, exit);
    }

    // ----- the bridging pass -----

    method NoteBridge(b: Bridge)
      requires Valid()
      modifies this`xlinkBridges
      ensures Valid()
      ensures xlinkBridges == old(xlinkBridges) + [BridgeIds(b)]
    {
      xlinkBridges := xlinkBridges + [BridgeIds(b)];
    }

    /** The bridge of the device output of `e`; a new one is fed from there. */
    method BridgeOutput(ghost E: set<Edge>, ghost O: set<Output>, ghost I: set<Input>, e: Edge, st: BridgeState)
      returns (r: BuildResult, st': BridgeState)
      requires Valid() && BridgesStand(E, O, I, outputs, inputs, st)
      requires e in E && DeviceToHost(e) && (e.0 in st.outs ==> Bridgeable(e.0.types))
      requires e.0 in st.outs ==> (e.0, st.outs[e.0].entry) in edges && (st.outs[e.0].exit, e.1) !in edges
      modifies this, e.0`connectedInputs, e.0.parent`connections
      ensures Valid() && fresh(repr - old(repr)) && old(repr) <= repr
      ensures r.Built? ==> BridgesStand(E, O, I, outputs, inputs, st')
      ensures r.Built? && e.0 in st.outs ==> st' == st
      ensures r.Built? ==>
                e.0 in st'.outs && st' == st.(outs := st.outs[e.0 := st'.outs[e.0]], streamNames := st'.streamNames)
      ensures r.Built? ==> edges == old(edges) + {(e.0, st'.outs[e.0].entry)} && Bridgeable(e.0.types)
      ensures r.Built? ==> (st'.outs[e.0].exit, e.1) !in old(edges)
      ensures r.Built? ==>
                xlinkBridges == old(xlinkBridges) + if e.0 in st.outs then [] else [BridgeIds(st'.outs[e.0])]
      ensures !r.Built? ==> !Buildable(E)
    {
      hide *;
      CrossingPortsAreOwned(E, O, I, outputs, inputs, st, e);
      st' := st;
      if e.0 in st.outs {
        assert st.outs[e.0 := st.outs[e.0]] == st.outs;
        return Built, st;
      }
      var o, streamName := e.0, OutputStream(e.0);
      var b := CreateBridge(true, streamName);
      if streamName in st.streamNames {
        TakenName(E, O, I, old(outputs), old(inputs), st, e);
        return StreamNameNotUnique, st;
      }
      FitPorts(e, b, streamName);
      var linked := Link(o, b.entry);
      if !linked.Linked? {
        UnfitPort(E, e);
        return CannotReroute, st;
      }
      NoteBridge(b);
      BridgesStandWithOut(E, O, I, old(outputs), old(inputs), st, o, b);
      st' := st.(outs := st.outs[o := b], streamNames := st.streamNames + {streamName});
      r := Built;
    }

    /** The bridge of the device input of `e`; a new one feeds that input. */
    method BridgeInput(ghost E: set<Edge>, ghost O: set<Output>, ghost I: set<Input>, e: Edge, st: BridgeState)
      returns (r: BuildResult, st': BridgeState)
      requires Valid() && BridgesStand(E, O, I, outputs, inputs, st)
      requires e in E && HostToDevice(e) && (e.1 in st.ins ==> Bridgeable(e.1.types))
      requires e.1 in st.ins ==> (st.ins[e.1].exit, e.1) in edges && (e.0, st.ins[e.1].entry) !in edges
      modifies this, e.1`connectedOutputs
      ensures Valid() && fresh(repr - old(repr)) && old(repr) <= repr
      ensures r.Built? ==> BridgesStand(E, O, I, outputs, inputs, st')
      ensures r.Built? && e.1 in st.ins ==> st' == st
      ensures r.Built? ==>
                e.1 in st'.ins && st' == st.(ins := st.ins[e.1 := st'.ins[e.1]], streamNames := st'.streamNames)
      ensures r.Built? ==> edges == old(edges) + {(st'.ins[e.1].exit, e.1)} && Bridgeable(e.1.types)
      ensures r.Built? ==> (e.0, st'.ins[e.1].entry) !in old(edges)
      ensures r.Built? ==>
                xlinkBridges == old(xlinkBridges) + if e.1 in st.ins then [] else [BridgeIds(st'.ins[e.1])]
      ensures !r.Built? ==> !Buildable(E)
    {
      hide *;
      CrossingPortsAreOwned(E, O, I, outputs, inputs, st, e);
      st' := st;
      if e.1 in st.ins {
        assert st.ins[e.1 := st.ins[e.1]] == st.ins;
        return Built, st;
      }
      var i, streamName := e.1, InputStream(e.1);
      var b := CreateBridge(false, streamName);
      if streamName in st.streamNames {
        TakenName(E, O, I, old(outputs), old(inputs), st, e);
        return StreamNameNotUnique, st;
      }
      FitPorts(e, b, streamName);
      var linked := Link(b.exit, i);
      if !linked.Linked? {
        UnfitPort(E, e);
        return CannotReroute, st;
      }
      NoteBridge(b);
      BridgesStandWithIn(E, O, I, old(outputs), old(inputs), st, i, b);
      st' := st.(ins := st.ins[i := b], streamNames := st.streamNames + {streamName});
      r := Built;
    }

    /** Unlinks `e` and links `hop` instead. */
    method Reconnect(e: Edge, hop: Edge) returns (linked: bool)
      requires Valid() && e.0 in outputs && e.1 in inputs && hop.0 in outputs && hop.1 in inputs
      requires e in edges && hop !in edges
      modifies this`edges, e.0`connectedInputs, e.1`connectedOutputs, e.0.parent`connections,
               hop.0`connectedInputs, hop.1`connectedOutputs, hop.0.parent`connections
      ensures Valid()
      ensures linked <==> hop.0.CanConnect(hop.1)
      ensures linked ==> edges == old(edges) - {e} + {hop}
    {
      hide *;
      var was := Unlink(e.0, e.1);
      var r := Link(hop.0, hop.1);
      linked := r.Linked?;
    }

    /** Handles a connection from a device output to a host input. */
    method RerouteToHost(ghost E: set<Edge>, ghost O: set<Output>, ghost I: set<Input>, ghost visited: set<Edge>,
                         e: Edge, st: BridgeState)
      returns (r: BuildResult, st': BridgeState)
      requires Valid() && BridgesStand(E, O, I, outputs, inputs, st) && Rerouted(E, visited, st, edges)
      requires e in E - visited && DeviceToHost(e)
      modifies repr
      ensures Valid() && fresh(repr - old(repr)) && old(repr) <= repr
      ensures r.Built? ==> BridgesStand(E, O, I, outputs, inputs, st') && Rerouted(E, visited + {e}, st', edges)
      ensures r.Built? ==> e.0 in st'.outs && st'.outs == st.outs[e.0 := st'.outs[e.0]] && st'.ins == st.ins
      ensures r.Built? && e.0 in st.outs ==> st' == st
      ensures r.Built? ==>
                xlinkBridges == old(xlinkBridges) + if e.0 in st.outs then [] else [BridgeIds(st'.outs[e.0])]
      ensures !r.Built? ==> !Buildable(E)
    {
      hide *;
      NotYetRerouted(E, O, I, outputs, inputs, visited, st, edges, e);
      OutputInRepr(e.0);
      InputInRepr(e.1);
      r, st' := BridgeOutput(E, O, I, e, st);
      if !r.Built? {
        return;
      }
      var bridge := st'.outs[e.0];
      OutBridgePorts(E, O, I, outputs, inputs, st', e);
      OutputInRepr(bridge.exit);
      InputInRepr(bridge.entry);
      FitPorts(e, bridge, OutputStream(e.0));
      var linked := Reconnect(e, (bridge.exit, e.1));
      if !linked {
        UnfitPort(E, e);
        return CannotReroute, st';
      }
      ReroutedToHost(E, O, I, outputs, inputs, visited, st, st', old(edges), e);
    }

    /** Handles a connection from a host output to a device input. */
    method RerouteToDevice(ghost E: set<Edge>, ghost O: set<Output>, ghost I: set<Input>, ghost visited: set<Edge>,
                         e: Edge, st: BridgeState)
      returns (r: BuildResult, st': BridgeState)
      requires Valid() && BridgesStand(E, O, I, outputs, inputs, st) && Rerouted(E, visited, st, edges)
      requires e in E - visited && HostToDevice(e)
      modifies repr
      ensures Valid() && fresh(repr - old(repr)) && old(repr) <= repr
      ensures r.Built? ==> BridgesStand(E, O, I, outputs, inputs, st') && Rerouted(E, visited + {e}, st', edges)
      ensures r.Built? ==> e.1 in st'.ins && st'.ins == st.ins[e.1 := st'.ins[e.1]] && st'.outs == st.outs
      ensures r.Built? && e.1 in st.ins ==> st' == st
      ensures r.Built? ==>
                xlinkBridges == old(xlinkBridges) + if e.1 in st.ins then [] else [BridgeIds(st'.ins[e.1])]
      ensures !r.Built? ==> !Buildable(E)
    {
      hide *;
      NotYetRerouted(E, O, I, outputs, inputs, visited, st, edges, e);
      OutputInRepr(e.0);
      InputInRepr(e.1);
      r, st' := BridgeInput(E, O, I, e, st);
      if !r.Built? {
        return;
      }
      var bridge := st'.ins[e.1];
      InBridgePorts(E, O, I, outputs, inputs, st', e);
      OutputInRepr(bridge.exit);
      InputInRepr(bridge.entry);
      FitPorts(e, bridge, InputStream(e.1));
      var linked := Reconnect(e, (e.0, bridge.entry));
      if !linked {
        UnfitPort(E, e);
        return CannotReroute, st';
      }
      ReroutedToDevice(E, O, I, outputs, inputs, visited, st, st', old(edges), e);
    }

    /** Handles one connection, whichever sides it joins. */
    method Reroute(ghost E: set<Edge>, ghost O: set<Output>, ghost I: set<Input>, ghost visited: set<Edge>,
                   e: Edge, st: BridgeState, ghost noted: seq<(nat, nat)>)
      returns (r: BuildResult, st': BridgeState, ghost noted': seq<(nat, nat)>)
      requires Valid() && BridgesStand(E, O, I, outputs, inputs, st) && Rerouted(E, visited, st, edges)
      requires e in E - visited && Noted(st, noted)
      modifies repr
      ensures Valid() && fresh(repr - old(repr)) && old(repr) <= repr
      ensures r.Built? ==> BridgesStand(E, O, I, outputs, inputs, st') && Rerouted(E, visited + {e}, st', edges)
      ensures r.Built? ==>
                noted <= noted' && Noted(st', noted') && xlinkBridges == old(xlinkBridges) + noted'[|noted|..]
      ensures !r.Built? ==> !Buildable(E)
    {
      hide *;
      noted' := noted;
      if DeviceToHost(e) {
        r, st' := RerouteToHost(E, O, I, visited, e, st);
        if r.Built? {
          NotedWithOut(st, st', noted, e.0);
          noted' := noted + if e.0 in st.outs then [] else [BridgeIds(st'.outs[e.0])];
        }
      } else if HostToDevice(e) {
        r, st' := RerouteToDevice(E, O, I, visited, e, st);
        if r.Built? {
          NotedWithIn(st, st', noted, e.1);
          noted' := noted + if e.1 in st.ins then [] else [BridgeIds(st'.ins[e.1])];
        }
      } else {
        r, st' := Built, st;
        SameSideIsSkipped(E, visited, st, edges, e);
      }
    }

    /** All connections, in any order: the sets they are kept in have none. */
    method GetConnectionsInternal() returns (conns: seq<ConnectionInternal>)
      requires Valid()
      ensures forall c | c in conns :: c == Connection(c.out, c.input) && (c.out, c.input) in edges
      ensures forall e | e in edges :: exists j :: 0 <= j < |conns| && (conns[j].out, conns[j].input) == e
      ensures forall j, k | 0 <= j < k < |conns| :: (conns[j].out, conns[j].input) != (conns[k].out, conns[k].input)
    {
      var all := set n, c | n in nodes && c in n.connections :: c;
      ConnectionsAreEdgesExactly(all);
      conns := Ordering.InAnyOrder(all);
      hide *;
      forall e | e in edges ensures exists j :: 0 <= j < |conns| && (conns[j].out, conns[j].input) == e {
        var c :| c in all && (c.out, c.input) == e;
        var j :| 0 <= j < |conns| && conns[j] == c;
      }
    }

    lemma ConnectionsAreEdgesExactly(all: set<ConnectionInternal>)
      requires Valid() && all == set n, c | n in nodes && c in n.connections :: c
      ensures forall c | c in all :: c == Connection(c.out, c.input) && (c.out, c.input) in edges
      ensures forall e | e in edges :: exists c :: c in all && (c.out, c.input) == e
    {
      forall e | e in edges ensures exists c :: c in all && (c.out, c.input) == e {
        assert Connection(e.0, e.1) in e.0.parent.connections && e.0.parent in nodes;
        assert Connection(e.0, e.1) in all;
      }
    }

    /** The bridging pass of `build`. */
    method Build() returns (r: BuildResult, st: BridgeState)
      requires Valid()
      modifies repr
      ensures Valid() && fresh(repr - old(repr)) && old(repr) <= repr
      ensures r.Built? <==> Buildable(old(edges))
      ensures r.Built? ==> BridgesStand(old(edges), old(outputs), old(inputs), outputs, inputs, st)
      ensures r.Built? ==> st.outs.Keys == CrossingOutputs(old(edges)) && st.ins.Keys == CrossingInputs(old(edges))
      ensures r.Built? ==> edges == Rewritten(old(edges), old(edges), st.outs, st.ins)
      ensures r.Built? ==> old(xlinkBridges) <= xlinkBridges && Noted(st, xlinkBridges[|old(xlinkBridges)|..])
      ensures r.Built? ==> forall e | e in edges :: !Crosses(e)
      ensures r.Built? ==> forall o, i, route: Route | o in old(outputs) && i in old(inputs) ::
                DeliversAsBefore(old(edges), edges, st, (o, i), route)
      ensures r.Built? && NoLinkedGroups(old(edges)) ==> NoLinkedGroups(edges)
    {
      hide *;
      var conns := GetConnectionsInternal();
      ghost var E, O, I := edges, outputs, inputs;
      ghost var noted: seq<(nat, nat)> := [];
      ghost var visited: set<Edge> := {};
      r, st := Built, NO_BRIDGES;
      EdgesAreOwned();
      NothingRerouted(E, O, I);
      for k := 0 to |conns|
        invariant Valid() && fresh(repr - old(repr)) && old(repr) <= repr
        invariant BridgesStand(E, O, I, outputs, inputs, st) && Rerouted(E, visited, st, edges)
        invariant forall j | 0 <= j < |conns| :: (conns[j].out, conns[j].input) in visited <==> j < k
        invariant visited <= E && xlinkBridges == old(xlinkBridges) + noted && Noted(st, noted)
      {
        var e := (conns[k].out, conns[k].input);
        r, st, noted := Reroute(E, O, I, visited, e, st, noted);
        if !r.Built? {
          return;
        }
        visited := visited + {e};
      }
      assert visited == E;
      AllRerouted(E, O, I, outputs, inputs, st, edges);
      assert xlinkBridges[|old(xlinkBridges)|..] == noted;
      BuiltPipelineDelivers(E, O, I, outputs, inputs, st, edges);
      if NoLinkedGroups(E) {
        GroupsStayUnlinked(E, O, I, outputs, inputs, st, edges);
      }
      r := Built;
    }

    // ----- the schemas -----

    /** `schema` describes all nodes and all connections, each connection once. */
    ghost predicate Describes(schema: PipelineSchema)
      reads this
    {
      DescribesNodes(schema.nodes) && ListsEdges(schema.connections, edges)
    }

    ghost predicate DescribesNodes(infos: map<nat, NodeObjInfo>)
      reads this
    {
      && (forall n | n in nodeSet :: n.id in infos && infos[n.id] == NodeInfo(n))
      && (forall id | id in infos :: exists n :: n in nodeSet && n.id == id)
    }

    /** Ids tell nodes apart, ids and names tell edges apart. */
    lemma IdsIdentify()
      requires Valid()
      ensures forall m, n | m in nodeSet && n in nodeSet && m.id == n.id :: m == n
      ensures forall e, f | e in edges && f in edges && ConnectionInfo(e) == ConnectionInfo(f) :: e == f
      ensures forall e | e in edges :: e.0.parent in nodeSet && e.1.parent in nodeSet
    {
      forall e, f | e in edges && f in edges && ConnectionInfo(e) == ConnectionInfo(f) ensures e == f {
        assert OutputKey(e.0) == OutputKey(f.0) && InputKey(e.1) == InputKey(f.1);
      }
    }

    method NodeInfos() returns (infos: map<nat, NodeObjInfo>)
      requires OwnsPorts() && UniqueIds()
      ensures DescribesNodes(infos)
    {
      infos := map[];
      for k := 0 to |nodes|
        invariant forall j | 0 <= j < k :: nodes[j].id in infos && infos[nodes[j].id] == NodeInfo(nodes[j])
        invariant forall id | id in infos :: exists j :: 0 <= j < k && nodes[j].id == id
      {
        infos := infos[nodes[k].id := NodeInfo(nodes[k])];
      }
    }

    method GetPipelineSchema() returns (r: SchemaResult)
      requires Valid()
      ensures r.CrossingConnection? <==> exists e :: e in edges && Crosses(e)
      ensures r.Schema? ==> Describes(r.schema) && Closed(r.schema) && r.schema.bridges == xlinkBridges
      ensures r.Schema? ==> DescribesInFull(r.schema)
    {
      var infos := NodeInfos();
      var conns := GetConnectionsInternal();
      IdsIdentify();
      hide Valid, OwnsPorts, UniqueIds, ListsEdges, Crosses;
      var ok, listed := ListConnections(conns);
      if !ok {
        return CrossingConnection;
      }
      ListedOnce(conns, listed, edges);
      r := Schema(PipelineSchema(infos, listed, xlinkBridges));
      SchemaInFull(r.schema);
    }

    /** The fields of a schema's entries. */
    ghost predicate DescribesInFull(schema: PipelineSchema)
      reads this
    {
      && (forall n | n in nodeSet ::
            n.id in schema.nodes && schema.nodes[n.id] == NodeObjInfo(n.id, n.name, !n.onHost))
      && (forall e | e in edges ::
            NodeConnectionSchema(e.0.parent.id, e.0.group, e.0.name, e.1.parent.id, e.1.group, e.1.name)
            in schema.connections)
      && (forall c | c in schema.connections ::
            exists e :: e in edges
                        && c == NodeConnectionSchema(
                                  e.0.parent.id, e.0.group, e.0.name, e.1.parent.id, e.1.group, e.1.name))
    }

    lemma SchemaInFull(schema: PipelineSchema)
      requires Describes(schema)
      ensures DescribesInFull(schema)
    {
    }

    /** The part of the schema a device gets. It fails exactly when a connection
        crosses or has just one end on a node that is left out. */
    method GetDevicePipelineSchema() returns (r: SchemaResult)
      requires Valid()
      ensures r.CrossingConnection? <==>
                exists e :: e in edges
                            && (Crosses(e) || OnDevice(NodeInfo(e.0.parent)) != OnDevice(NodeInfo(e.1.parent)))
      ensures r.Schema? ==>
                && Closed(r.schema) && r.schema.bridges == []
                && (forall n | n in nodeSet :: n.id in r.schema.nodes <==> OnDevice(NodeInfo(n)))
                && ListsEdges(r.schema.connections, set e | e in edges && OnDevice(NodeInfo(e.0.parent)))
      ensures r.Schema? ==>
                && (forall n | n in nodeSet && n.id in r.schema.nodes :: r.schema.nodes[n.id] == NodeInfo(n))
                && (forall id | id in r.schema.nodes :: exists n :: n in nodeSet && n.id == id)
    {
      r := GetPipelineSchema();
      if r.CrossingConnection? {
        return;
      }
      IdsIdentify();
      hide Valid, Crosses, OnDevice, Closed, DescribesInFull;
      var schema := r.schema;
      var kept := map id | id in schema.nodes && OnDevice(schema.nodes[id]) :: schema.nodes[id];
      KeptNodes(schema.nodes, kept);
      hide DescribesNodes, NodeInfo, ConnectionInfo, ListsEdges;
      assert forall i, j | 0 <= i < j < |schema.connections| :: schema.connections[i] != schema.connections[j] by {
        ListedApart(schema.connections, edges);
      }
      var connections: seq<NodeConnectionSchema>;
      var ok: bool;
      ok, connections := RemoveHostConnections(schema.connections, kept);
      DevicePart(schema.connections, connections, ok, kept, edges);
      if !ok {
        return CrossingConnection;
      }
      KeptIsClosed(kept, connections);
      r := Schema(PipelineSchema(kept, connections, []));
    }

    lemma KeptNodes(infos: map<nat, NodeObjInfo>, kept: map<nat, NodeObjInfo>)
      requires DescribesNodes(infos) && kept == map id | id in infos && OnDevice(infos[id]) :: infos[id]
      ensures forall n | n in nodeSet :: n.id in kept <==> OnDevice(NodeInfo(n))
      ensures forall n | n in nodeSet && n.id in kept :: kept[n.id] == NodeInfo(n)
      ensures forall id | id in kept :: exists n :: n in nodeSet && n.id == id
    {
    }

    /** What goes into the schema of the device, in full: the nodes that run on it,
        without groups, and the connections that start there. */
    lemma DeviceSchemaInFull(schema: PipelineSchema)
      requires forall n | n in nodeSet :: n.id in schema.nodes <==> OnDevice(NodeInfo(n))
      requires forall n | n in nodeSet && n.id in schema.nodes :: schema.nodes[n.id] == NodeInfo(n)
      requires ListsEdges(schema.connections, set e | e in edges && OnDevice(NodeInfo(e.0.parent)))
      ensures forall n | n in nodeSet ::
                (n.id in schema.nodes <==> !n.onHost && n.name != "NodeGroup" && n.name != "DeviceNodeGroup")
                && (n.id in schema.nodes ==> schema.nodes[n.id] == NodeObjInfo(n.id, n.name, true))
      ensures forall c :: c in schema.connections <==>
                            exists e :: e in edges && !e.0.parent.onHost && e.0.parent.name != "NodeGroup"
                                        && e.0.parent.name != "DeviceNodeGroup"
                                        && c == NodeConnectionSchema(
                                                  e.0.parent.id, e.0.group, e.0.name, e.1.parent.id, e.1.group,
                                                  e.1.name)
    {
      ghost var device := set e | e in edges && OnDevice(NodeInfo(e.0.parent));
      forall c | c in schema.connections
        ensures exists e :: e in device && c == ConnectionInfo(e)
      {
      }
      forall e | e in edges && OnDevice(NodeInfo(e.0.parent))
        ensures ConnectionInfo(e) in schema.connections
      {
        assert e in device;
      }
    }

    /** What `start` does of this: it builds and emits both schemas. After a
        build neither can fail, unless a port of a group node is linked. */
    method Start() returns (r: BuildResult, full: SchemaResult, device: SchemaResult)
      requires Valid()
      modifies repr
      ensures Valid() && (r.Built? <==> Buildable(old(edges)))
      ensures r.Built? ==> forall e | e in edges :: !Crosses(e)
      ensures r.Built? ==>
                full.Schema? && Describes(full.schema) && Closed(full.schema) && full.schema.bridges == xlinkBridges
      ensures r.Built? && NoLinkedGroups(old(edges)) ==>
                device.Schema? && Closed(device.schema) && device.schema.bridges == []
      ensures r.Built? && NoLinkedGroups(old(edges)) ==>
                forall n | n in nodeSet :: n.id in device.schema.nodes <==> OnDevice(NodeInfo(n))
      ensures r.Built? && NoLinkedGroups(old(edges)) ==>
                ListsEdges(device.schema.connections, set e | e in edges && !e.0.parent.onHost && !e.1.parent.onHost)
    {
      hide *;
      ghost var E := edges;
      var st: BridgeState;
      r, st := Build();
      full, device := CrossingConnection, CrossingConnection;
      if !r.Built? {
        return;
      }
      if NoLinkedGroups(E) {
        DeviceNodesKeepToThemselves(edges);
      }
      full := GetPipelineSchema();
      device := GetDevicePipelineSchema();
    }
  }

  /** Where nothing crosses and no group is linked, nodes left out of the device
      schema are not linked to nodes in it. */
  lemma DeviceNodesKeepToThemselves(edges: set<Edge>)
    requires (forall e | e in edges :: !Crosses(e)) && NoLinkedGroups(edges)
    ensures forall e | e in edges :: OnDevice(NodeInfo(e.0.parent)) == OnDevice(NodeInfo(e.1.parent))
    ensures (set e | e in edges && OnDevice(NodeInfo(e.0.parent)))
            == set e | e in edges && !e.0.parent.onHost && !e.1.parent.onHost
  {
    hide IsGroupName;
  }

  /** The schema entries of the connections, up to the first that crosses. */
  method ListConnections(conns: seq<ConnectionInternal>) returns (ok: bool, listed: seq<NodeConnectionSchema>)
    ensures ok <==> forall c | c in conns :: !Crosses((c.out, c.input))
    ensures ok ==> |listed| == |conns|
    ensures ok ==> forall j | 0 <= j < |conns| :: listed[j] == ConnectionInfo((conns[j].out, conns[j].input))
  {
    listed := [];
    for k := 0 to |conns|
      invariant |listed| == k
      invariant forall j | 0 <= j < k :: listed[j] == ConnectionInfo((conns[j].out, conns[j].input))
      invariant forall j | 0 <= j < k :: !Crosses((conns[j].out, conns[j].input))
    {
      var outputHost, inputHost := conns[k].out.parent.onHost, conns[k].input.parent.onHost;
      assert conns[k] in conns;
      if outputHost && !inputHost {
        return false, listed;
      }
      if !outputHost && inputHost {
        return false, listed;
      }
      listed := listed + [ConnectionInfo((conns[k].out, conns[k].input))];
    }
    ok := true;
  }

  lemma ListedApart(listed: seq<NodeConnectionSchema>, edges: set<Edge>)
    requires ListsEdges(listed, edges)
    ensures forall i, j | 0 <= i < j < |listed| :: listed[i] != listed[j]
  {
  }

  /** What removing connections of nodes that were left out comes to. */
  lemma DevicePart(listed: seq<NodeConnectionSchema>, left: seq<NodeConnectionSchema>, ok: bool,
      kept: map<nat, NodeObjInfo>, edges: set<Edge>)
    requires ListsEdges(listed, edges)
    requires forall e | e in edges ::
              && (e.0.parent.id in kept <==> OnDevice(NodeInfo(e.0.parent)))
              && (e.1.parent.id in kept <==> OnDevice(NodeInfo(e.1.parent)))
    requires ok <==> forall c | c in listed :: c.node1Id in kept <==> c.node2Id in kept
    requires ok ==> forall c :: c in left <==> c in listed && c.node1Id in kept && c.node2Id in kept
    requires ok ==> forall i, j | 0 <= i < j < |left| :: left[i] != left[j]
    ensures ok <==> forall e | e in edges :: OnDevice(NodeInfo(e.0.parent)) == OnDevice(NodeInfo(e.1.parent))
    ensures ok ==> ListsEdges(left, set e | e in edges && OnDevice(NodeInfo(e.0.parent)))
  {
    hide OnDevice;
    forall e | e in edges
      ensures ConnectionInfo(e) in listed
      ensures ConnectionInfo(e).node1Id == e.0.parent.id && ConnectionInfo(e).node2Id == e.1.parent.id
    {
    }
    if ok {
      forall c | c in left ensures exists e :: e in edges && OnDevice(NodeInfo(e.0.parent)) && c == ConnectionInfo(e) {
        assert c in listed;
      }
    }
  }

  lemma KeptIsClosed(kept: map<nat, NodeObjInfo>, connections: seq<NodeConnectionSchema>)
    requires forall c | c in connections :: c.node1Id in kept && c.node2Id in kept
    ensures Closed(PipelineSchema(kept, connections, []))
  {
  }

  /** Drops the connections between nodes that were left out; fails if one has
      only one end left. */
  method RemoveHostConnections(connections: seq<NodeConnectionSchema>, kept: map<nat, NodeObjInfo>)
    returns (ok: bool, left: seq<NodeConnectionSchema>)
    requires forall i, j | 0 <= i < j < |connections| :: connections[i] != connections[j]
    ensures ok <==> forall c | c in connections :: c.node1Id in kept <==> c.node2Id in kept
    ensures ok ==> forall c :: c in left <==> c in connections && c.node1Id in kept && c.node2Id in kept
    ensures ok ==> forall i, j | 0 <= i < j < |left| :: left[i] != left[j]
  {
    ok, left := true, [];
    for k := 0 to |connections|
      invariant forall c | c in connections[..k] :: c.node1Id in kept <==> c.node2Id in kept
      invariant forall c :: c in left <==> c in connections[..k] && c.node1Id in kept && c.node2Id in kept
      invariant forall i, j | 0 <= i < j < |left| :: left[i] != left[j]
    {
      var c := connections[k];
      assert c in connections && c !in connections[..k];
      assert connections[..k + 1] == connections[..k] + [c];
      if c.node1Id !in kept && c.node2Id !in kept {
      } else if c.node1Id !in kept || c.node2Id !in kept {
        return false, left;
      } else {
        left := left + [c];
      }
    }
    assert connections[..|connections|] == connections;
  }

  lemma ListedOnce(conns: seq<ConnectionInternal>, listed: seq<NodeConnectionSchema>, edges: set<Edge>)
    requires |listed| == |conns|
    requires forall j | 0 <= j < |conns| :: listed[j] == ConnectionInfo((conns[j].out, conns[j].input))
    requires forall j | 0 <= j < |conns| :: (conns[j].out, conns[j].input) in edges
    requires forall e | e in edges :: exists j :: 0 <= j < |conns| && (conns[j].out, conns[j].input) == e
    requires forall j, k | 0 <= j < k < |conns| :: (conns[j].out, conns[j].input) != (conns[k].out, conns[k].input)
    requires forall e, f | e in edges && f in edges && ConnectionInfo(e) == ConnectionInfo(f) :: e == f
    ensures ListsEdges(listed, edges)
  {
    hide ConnectionInfo;
    forall e | e in edges ensures ConnectionInfo(e) in listed {
      var j :| 0 <= j < |conns| && (conns[j].out, conns[j].input) == e;
      assert listed[j] == ConnectionInfo(e);
    }
  }

  /** `listed` holds the connection of each edge once, and nothing else. */
  ghost predicate ListsEdges(listed: seq<NodeConnectionSchema>, edges: set<Edge>) {
    && (forall e | e in edges :: ConnectionInfo(e) in listed)
    && (forall c | c in listed :: exists e :: e in edges && c == ConnectionInfo(e))
    && (forall j, k | 0 <= j < k < |listed| :: listed[j] != listed[k])
  }
}
