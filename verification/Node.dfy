/** Ports, connections and message delivery: the part of a pipeline that a
    single node, output or input changes by itself. */
module NodeGraph {

  // ----- datatypes a port may carry -----

  datatype DatatypeEnum =
    | ADatatype
    | Buffer
    | Transformable
    | SegmentationMask
    | ImgDetections
    | SpatialImgDetections
    | AprilTags
    | Tracklets
    | PointCloudData
    | GateControl
    | Leaf(id: nat)  // every other member of the enumeration; none has descendants

  datatype DatatypeHierarchy = DatatypeHierarchy(datatype_: DatatypeEnum, descendants: bool)

  /** The transitive closure of the hierarchy table. */
  predicate IsDatatypeSubclassOf(parent: DatatypeEnum, child: DatatypeEnum) {
    match parent
    case ADatatype => child != ADatatype
    case Buffer => child != ADatatype && child != Buffer
    case Transformable =>
      child in {SegmentationMask, ImgDetections, SpatialImgDetections, AprilTags, Tracklets, PointCloudData}
    case ImgDetections => child == SpatialImgDetections
    case _ => false
  }

  predicate HierarchyMatch(outH: DatatypeHierarchy, inH: DatatypeHierarchy) {
    || outH.datatype_ == inH.datatype_
    || (outH.descendants && IsDatatypeSubclassOf(outH.datatype_, inH.datatype_))
    || (inH.descendants && IsDatatypeSubclassOf(inH.datatype_, outH.datatype_))
  }

  predicate IsDatatypeMatch(outTypes: seq<DatatypeHierarchy>, inTypes: seq<DatatypeHierarchy>) {
    exists j, k :: 0 <= j < |outTypes| && 0 <= k < |inTypes| && HierarchyMatch(outTypes[j], inTypes[k])
  }

  /** The hierarchy table: `child` is listed under `parent`. */
  predicate ListedUnder(parent: DatatypeEnum, child: DatatypeEnum) {
    match parent
    case ADatatype => child != ADatatype && child != Transformable && child != GateControl
    case Buffer => child != ADatatype && child != Buffer
    case Transformable =>
      child in {SegmentationMask, ImgDetections, SpatialImgDetections, AprilTags, Tracklets, PointCloudData}
    case ImgDetections => child == SpatialImgDetections
    case _ => false
  }

  function Height(d: DatatypeEnum): nat {
    match d
    case ADatatype => 4
    case Buffer => 3
    case Transformable => 2
    case ImgDetections => 1
    case _ => 0
  }

  /** The search of the source: down the table, as deep as it goes. */
  ghost predicate Descends(parent: DatatypeEnum, child: DatatypeEnum)
    decreases Height(parent)
  {
    exists d :: ListedUnder(parent, d) && (d == child || Descends(d, child))
  }

  /** The search finds exactly the closure. */
  lemma SubclassOfIsDescent(parent: DatatypeEnum, child: DatatypeEnum)
    ensures IsDatatypeSubclassOf(parent, child) <==> Descends(parent, child)
    decreases Height(parent)
  {
    if ListedUnder(parent, child) {
      StepDown(parent, child, child);
    } else if IsDatatypeSubclassOf(parent, child) {
      StepDown(parent, Buffer, child);
      SubclassOfIsDescent(Buffer, child);
    } else if Descends(parent, child) {
      var d :| ListedUnder(parent, d) && Descends(d, child);
      StepDown(parent, d, child);
      SubclassOfIsDescent(d, child);
    }
  }

  lemma StepDown(parent: DatatypeEnum, d: DatatypeEnum, child: DatatypeEnum)
    ensures ListedUnder(parent, d) ==> Height(d) < Height(parent) && IsDatatypeSubclassOf(parent, d)
    ensures ListedUnder(parent, d) && IsDatatypeSubclassOf(d, child) ==> IsDatatypeSubclassOf(parent, child)
    ensures IsDatatypeSubclassOf(parent, child) && !ListedUnder(parent, child) ==>
              parent == ADatatype && ListedUnder(parent, Buffer) && IsDatatypeSubclassOf(Buffer, child)
  {
  }

  /** Two ports match if they share a type, or one that stands for its descendants
      too has a type of the other below it. */
  lemma MatchesExactly(outTypes: seq<DatatypeHierarchy>, inTypes: seq<DatatypeHierarchy>)
    ensures IsDatatypeMatch(outTypes, inTypes) <==>
              exists o, i :: o in outTypes && i in inTypes
                             && (o.datatype_ == i.datatype_ || (o.descendants && Descends(o.datatype_, i.datatype_))
                                 || (i.descendants && Descends(i.datatype_, o.datatype_)))
  {
    hide IsDatatypeSubclassOf, Descends;
    forall o: DatatypeHierarchy, i: DatatypeHierarchy
      ensures HierarchyMatch(o, i) <==>
                (o.datatype_ == i.datatype_ || (o.descendants && Descends(o.datatype_, i.datatype_))
                 || (i.descendants && Descends(i.datatype_, o.datatype_)))
    {
      SubclassOfIsDescent(o.datatype_, i.datatype_);
      SubclassOfIsDescent(i.datatype_, o.datatype_);
    }
    if o, i :| o in outTypes && i in inTypes && HierarchyMatch(o, i) {
      var j, k :| 0 <= j < |outTypes| && 0 <= k < |inTypes| && outTypes[j] == o && inTypes[k] == i;
    }
    if j, k :| 0 <= j < |outTypes| && 0 <= k < |inTypes| && HierarchyMatch(outTypes[j], inTypes[k]) {
      assert outTypes[j] in outTypes && inTypes[k] in inTypes;
    }
  }

  /** What both ends of an XLink bridge are declared with. */
  const BRIDGE_TYPES := [DatatypeHierarchy(Buffer, true)]

  /** The types that can travel over an XLink bridge, in either direction. */
  predicate Bridgeable(types: seq<DatatypeHierarchy>) {
    exists k :: 0 <= k < |types| && types[k] != DatatypeHierarchy(ADatatype, false)
  }

  /** A port can be linked to a bridge end exactly when one of its types is
      something else than a bare `ADatatype` without descendants. */
  lemma BridgeTypesMatchExactly(types: seq<DatatypeHierarchy>)
    ensures IsDatatypeMatch(types, BRIDGE_TYPES) <==> Bridgeable(types)
    ensures IsDatatypeMatch(BRIDGE_TYPES, types) <==> Bridgeable(types)
  {
    if Bridgeable(types) {
      var k :| 0 <= k < |types| && types[k] != DatatypeHierarchy(ADatatype, false);
      assert HierarchyMatch(types[k], BRIDGE_TYPES[0]);
      assert HierarchyMatch(BRIDGE_TYPES[0], types[k]);
    }
  }

  // ----- nodes and ports -----

  /** Messages are handed on, never opened. */
  type Message = nat

  class Node {
    const id: nat
    const name: string
    const onHost: bool
    const streamName: string  // of an XLink node; "" for every other node
    var connections: set<ConnectionInternal>

    constructor (id: nat, name: string, onHost: bool, streamName: string)
      ensures this.id == id && this.name == name && this.onHost == onHost && this.streamName == streamName
      ensures connections == {}
    {
      this.id, this.name, this.onHost, this.streamName := id, name, onHost, streamName;
      connections := {};
    }

    /** Forgets the connections from or to `node`. The lists inside the ports
        stay as they are. */
    method RemoveConnectionToNode(node: Node)
      modifies this`connections
      ensures connections == set c | c in old(connections) && c.inputNode != node && c.outputNode != node
    {
      var todo := connections;
      while todo != {}
        invariant todo <= connections <= old(connections)
        invariant forall c :: c in old(connections) - todo ==>
                                (c in connections <==> c.inputNode != node && c.outputNode != node)
        decreases |todo|
      {
        var c :| c in todo;
        todo := todo - {c};
        if c.inputNode == node || c.outputNode == node {
          connections := connections - {c};
        }
      }
    }
  }

  class Output {
    const parent: Node
    const group: string
    const name: string
    const types: seq<DatatypeHierarchy>
    var connectedInputs: seq<Input>

    constructor (parent: Node, group: string, name: string, types: seq<DatatypeHierarchy>)
      ensures this.parent == parent && this.group == group && this.name == name && this.types == types
      ensures connectedInputs == []
    {
      this.parent, this.group, this.name, this.types := parent, group, name, types;
      connectedInputs := [];
    }

    predicate CanConnect(input: Input) {
      IsDatatypeMatch(types, input.types)
    }

    /** Whether the parent node records a connection with the names of these
        two ports; only names and nodes are compared. */
    predicate Recorded(input: Input)
      reads parent
    {
      exists c | c in parent.connections :: c.SameConnection(Connection(this, input))
    }

    method Link(input: Input) returns (r: LinkResult)
      modifies this`connectedInputs, input`connectedOutputs, parent`connections
      ensures r.CannotLink? <==> !CanConnect(input)
      ensures r.AlreadyLinked? <==> CanConnect(input) && old(Recorded(input))
      ensures r.Linked? ==>
                && parent.connections == old(parent.connections) + {Connection(this, input)}
                && connectedInputs == old(connectedInputs) + [input]
                && input.connectedOutputs == old(input.connectedOutputs) + [this]
      ensures !r.Linked? ==>
                && parent.connections == old(parent.connections)
                && connectedInputs == old(connectedInputs)
                && input.connectedOutputs == old(input.connectedOutputs)
    {
      if !CanConnect(input) {
        return CannotLink;
      }
      if Recorded(input) {
        return AlreadyLinked;
      }
      parent.connections := parent.connections + {Connection(this, input)};
      connectedInputs := connectedInputs + [input];
      input.connectedOutputs := input.connectedOutputs + [this];
      return Linked;
    }

    method Unlink(input: Input) returns (wasLinked: bool)
      modifies this`connectedInputs, input`connectedOutputs, parent`connections
      ensures wasLinked == old(Recorded(input))
      ensures wasLinked ==>
                && parent.connections ==
                   (set c | c in old(parent.connections) && !c.SameConnection(Connection(this, input)))
                && connectedInputs == Without(old(connectedInputs), input)
                && input.connectedOutputs == Without(old(input.connectedOutputs), this)
      ensures !wasLinked ==>
                && parent.connections == old(parent.connections)
                && connectedInputs == old(connectedInputs)
                && input.connectedOutputs == old(input.connectedOutputs)
    {
      if !Recorded(input) {
        return false;
      }
      parent.connections := set c | c in parent.connections && !c.SameConnection(Connection(this, input));
      connectedInputs := Without(connectedInputs, input);
      input.connectedOutputs := Without(input.connectedOutputs, this);
      return true;
    }

    /** Hands `msg` to every queue in the list, once per occurrence. */
    method Send(msg: Message)
      modifies connectedInputs`received
      ensures forall i: Input | i in connectedInputs ::
                i.received == old(i.received) + Repeat(msg, multiset(connectedInputs)[i])
    {
      for k := 0 to |connectedInputs|
        invariant forall i: Input | i in connectedInputs ::
                    i.received == old(i.received) + Repeat(msg, multiset(connectedInputs[..k])[i])
      {
        var i := connectedInputs[k];
        assert multiset(connectedInputs[..k + 1]) == multiset(connectedInputs[..k]) + multiset{i} by {
          assert connectedInputs[..k + 1] == connectedInputs[..k] + [i];
        }
        i.received := i.received + [msg];
      }
      assert connectedInputs[..|connectedInputs|] == connectedInputs;
    }
  }

  class Input {
    const parent: Node
    const group: string
    const name: string
    const types: seq<DatatypeHierarchy>
    var connectedOutputs: seq<Output>
    var received: seq<Message>  // everything that was pushed to this queue, in order

    constructor (parent: Node, group: string, name: string, types: seq<DatatypeHierarchy>)
      ensures this.parent == parent && this.group == group && this.name == name && this.types == types
      ensures connectedOutputs == [] && received == []
    {
      this.parent, this.group, this.name, this.types := parent, group, name, types;
      connectedOutputs, received := [], [];
    }
  }

  datatype LinkResult = Linked | CannotLink | AlreadyLinked

  datatype ConnectionInternal = ConnectionInternal(
    outputNode: Node, outputGroup: string, outputName: string,
    inputNode: Node, inputGroup: string, inputName: string,
    out: Output, input: Input)
  {
    /** The equality the connection set uses: nodes and names, not the ports. */
    predicate SameConnection(other: ConnectionInternal) {
      && outputNode == other.outputNode && outputName == other.outputName && outputGroup == other.outputGroup
      && inputNode == other.inputNode && inputName == other.inputName && inputGroup == other.inputGroup
    }
  }

  function Connection(out: Output, input: Input): ConnectionInternal {
    ConnectionInternal(out.parent, out.group, out.name, input.parent, input.group, input.name, out, input)
  }

  // ----- lists -----

  function Repeat<T>(x: T, n: nat): seq<T> {
    seq(n, _ => x)
  }

  /** The erase-remove idiom: every occurrence of `x` goes, the rest keeps its order. */
  function Without<T(==)>(s: seq<T>, x: T): (r: seq<T>)
    ensures forall j | 0 <= j < |r| :: r[j] in s && r[j] != x
    ensures forall j | 0 <= j < |s| && s[j] != x :: s[j] in r
  {
    if s == [] then [] else (if s[0] == x then [] else [s[0]]) + Without(s[1..], x)
  }

  lemma {:induction false} WithoutCount<T>(s: seq<T>, x: T)
    ensures multiset(Without(s, x)) == multiset(s)[x := 0]
  {
    if s != [] {
      WithoutCount(s[1..], x);
      assert s == [s[0]] + s[1..];
      if s[0] == x {
        assert Without(s, x) == Without(s[1..], x);
      }
    }
  }

  /** What is left keeps its order. */
  lemma {:induction false} WithoutInOrder<T>(s: seq<T>, t: seq<T>, x: T)
    ensures Without(s + t, x) == Without(s, x) + Without(t, x)
    decreases |s|
  {
    if s == [] {
      NothingToGlue(t, Without(t, x));
    } else {
      WithoutInOrder(s[1..], t, x);
      hide Without;
      WithoutFirst(s, x);
      WithoutFirst(s + t, x);
      FirstAndRest(s, t);
      Glue(if s[0] == x then [] else [s[0]], Without(s[1..], x), Without(t, x));
    }
  }

  lemma WithoutFirst<T>(s: seq<T>, x: T)
    requires s != []
    ensures Without(s, x) == (if s[0] == x then [] else [s[0]]) + Without(s[1..], x)
  {
  }

  lemma NothingToGlue<T>(s: seq<T>, t: seq<T>)
    ensures [] + s == s && [] + t == t
  {
  }

  lemma FirstAndRest<T>(s: seq<T>, t: seq<T>)
    requires s != []
    ensures (s + t)[0] == s[0] && (s + t)[1..] == s[1..] + t
  {
  }

  lemma Glue<T>(first: seq<T>, a: seq<T>, b: seq<T>)
    ensures first + a + b == first + (a + b)
  {
  }

  lemma {:induction false} WithoutKeepsDistinct(s: seq<Node>, x: Node)
    requires forall j, k | 0 <= j < k < |s| :: s[j].id != s[k].id
    ensures forall j, k | 0 <= j < k < |Without(s, x)| :: Without(s, x)[j].id != Without(s, x)[k].id
  {
    if s != [] {
      WithoutKeepsDistinct(s[1..], x);
      var rest := Without(s[1..], x);
      assert Without(s, x) == if s[0] == x then rest else [s[0]] + rest;
      forall k | 0 <= k < |rest| ensures rest[k].id != s[0].id {
        assert rest[k] in s[1..];
      }
    }
  }
}
