/** Which classes of the depthai-nodes sources are nodes: those that inherit,
    directly or not, from one of the root classes. */
module DepthaiNodeNames {
  import opened Optional
  import Ordering

  function RootBases(): set<string> {
    {"HostNode", "ThreadedHostNode", "BaseHostNode", "BaseThreadedHostNode", "BaseParser"}
  }

  // ----- collecting classes -----

  /** The expressions that can stand in a class's list of bases. */
  datatype Expr =
    | Name(id: string)
    | Attribute(value: Expr, attr: string)
    | Subscript(value: Expr)
    | Other

  function BaseName(base: Expr): Option<string> {
    match base
    case Name(id) => Some(id)
    case Attribute(_, attr) => Some(attr)
    case Subscript(value) => BaseName(value)
    case Other => None
  }

  /** A base with type arguments in `depth` pairs of brackets. */
  function Subscripted(base: Expr, depth: nat): Expr {
    if depth == 0 then base else Subscript(Subscripted(base, depth - 1))
  }

  /** Behind any brackets, a name stands for itself and an attribute for its last
      part; nothing else has a name. */
  lemma {:induction false} BaseNameExactly(base: Expr, name: string)
    ensures BaseName(base) == Some(name) <==>
              || (exists depth: nat :: base == Subscripted(Name(name), depth))
              || (exists depth: nat, value :: base == Subscripted(Attribute(value, name), depth))
  {
    if BaseName(base) == Some(name) {
      var depth := NameIsFound(base, name);
    }
    if depth: nat :| base == Subscripted(Name(name), depth) {
      BracketsAreIgnored(Name(name), depth);
    }
    if depth: nat, value :| base == Subscripted(Attribute(value, name), depth) {
      BracketsAreIgnored(Attribute(value, name), depth);
    }
  }

  lemma {:induction false} BracketsAreIgnored(base: Expr, depth: nat)
    ensures BaseName(Subscripted(base, depth)) == BaseName(base)
  {
    if depth > 0 {
      BracketsAreIgnored(base, depth - 1);
    }
  }

  lemma {:induction false} NameIsFound(base: Expr, name: string) returns (depth: nat)
    requires BaseName(base) == Some(name)
    ensures base == Subscripted(Name(name), depth) || exists value :: base == Subscripted(Attribute(value, name), depth)
  {
    depth := 0;
    match base
    case Subscript(inner) =>
      depth := NameIsFound(inner, name);
      if inner != Subscripted(Name(name), depth) {
        var value :| inner == Subscripted(Attribute(value, name), depth);
        assert base == Subscripted(Attribute(value, name), depth + 1);
      }
      depth := depth + 1;
    case Attribute(value, _) =>
      assert base == Subscripted(Attribute(value, name), 0);
    case _ =>
  }

  datatype ClassDef = ClassDef(name: string, bases: seq<Expr>)

  function BaseNames(c: ClassDef): set<string> {
    set b | b in c.bases && BaseName(b).Some? :: BaseName(b).value
  }

  lemma BaseNamesExactly(c: ClassDef, name: string)
    ensures name in BaseNames(c) <==> exists b :: b in c.bases && BaseName(b) == Some(name)
  {
  }

  /** A later class of the same name takes the place of an earlier one. */
  method CollectClasses(defs: seq<ClassDef>) returns (classes: map<string, set<string>>)
    ensures forall i | 0 <= i < |defs| :: defs[i].name in classes
    ensures forall c | c in classes :: exists i ::
              0 <= i < |defs| && defs[i].name == c && classes[c] == BaseNames(defs[i])
                                                   && forall j | i < j < |defs| :: defs[j].name != c
  {
    classes := map[];
    for n := 0 to |defs|
      invariant forall i | 0 <= i < n :: defs[i].name in classes
      invariant forall c | c in classes :: exists i ::
                0 <= i < n && defs[i].name == c && classes[c] == BaseNames(defs[i])
                                                       && forall j | i < j < n :: defs[j].name != c
    {
      ghost var before := classes;
      classes := classes[defs[n].name := BaseNames(defs[n])];
      forall c | c in classes
        ensures exists i ::
                  0 <= i < n + 1 && defs[i].name == c && classes[c] == BaseNames(defs[i])
                  && forall j | i < j < n + 1 :: defs[j].name != c
      {
        if c == defs[n].name {
          assert defs[n].name == c && classes[c] == BaseNames(defs[n]);
        } else {
          assert c in before;
        }
      }
    }
  }

  // ----- inheriting from a root -----

  type Classes = map<string, set<string>>

  function Bases(classes: Classes, c: string): set<string> {
    if c in classes then classes[c] else {}
  }

  predicate HasRootBase(classes: Classes, c: string) {
    Bases(classes, c) * RootBases() != {}
  }

  lemma RootsAreFive(classes: Classes, c: string)
    ensures HasRootBase(classes, c) <==>
              && c in classes
              && ("HostNode" in classes[c] || "ThreadedHostNode" in classes[c] || "BaseHostNode" in classes[c]
                  || "BaseThreadedHostNode" in classes[c] || "BaseParser" in classes[c])
  {
    if b :| b in Bases(classes, c) * RootBases() {
      assert HasRootBase(classes, c);
    }
    if b :| b in RootBases() && b in Bases(classes, c) {
      assert b in Bases(classes, c) * RootBases();
    }
  }

  /** A way from a class over known bases to a class with a root base. */
  ghost predicate Leads(classes: Classes, path: seq<string>) {
    && path != [] && (if |path| == 1 then HasRootBase(classes, path[0])
                      else path[1] in Bases(classes, path[0]) && path[1] in classes && Leads(classes, path[1..]))
  }

  ghost predicate Inherits(classes: Classes, c: string) {
    exists path :: Leads(classes, path) && path[0] == c
  }

  lemma InheritsUnfolds(classes: Classes, c: string)
    ensures Inherits(classes, c)
            <==> HasRootBase(classes, c) || exists b :: b in Bases(classes, c) && b in classes && Inherits(classes, b)
  {
    if Inherits(classes, c) && !HasRootBase(classes, c) {
      var path :| Leads(classes, path) && path[0] == c;
      assert Leads(classes, path[1..]) && path[1..][0] == path[1];
      assert path[1] in Bases(classes, c) && path[1] in classes && Inherits(classes, path[1]);
    }
    if HasRootBase(classes, c) {
      assert Leads(classes, [c]);
    }
    if b :| b in Bases(classes, c) && b in classes && Inherits(classes, b) {
      var path :| Leads(classes, path) && path[0] == b;
      assert ([c] + path)[1..] == path;
      assert Leads(classes, [c] + path) && ([c] + path)[0] == c;
    }
  }

  /** No class in `some` has a root base, and their known bases are all in `all`. */
  ghost predicate DeadEnds(classes: Classes, some: set<string>, all: set<string>) {
    forall c | c in some :: !HasRootBase(classes, c) && forall b | b in Bases(classes, c) && b in classes :: b in all
  }

  /** Out of a closed set of dead ends no way leads to a root. */
  lemma {:induction false} NoWayOut(classes: Classes, closed: set<string>, path: seq<string>)
    requires DeadEnds(classes, closed, closed) && path != [] && path[0] in closed
    ensures !Leads(classes, path)
  {
    if |path| > 1 && path[1] in Bases(classes, path[0]) && path[1] in classes {
      NoWayOut(classes, closed, path[1..]);
    }
  }

  lemma NotInherited(classes: Classes, closed: set<string>, c: string)
    requires DeadEnds(classes, closed, closed) && c in closed
    ensures !Inherits(classes, c)
  {
    forall path | path != [] && path[0] == c
      ensures !Leads(classes, path)
    {
      NoWayOut(classes, closed, path);
    }
  }

  /** The search has gone from `before` to `after` and met dead ends only. */
  ghost predicate Explored(classes: Classes, before: set<string>, after: set<string>) {
    before <= after && DeadEnds(classes, after - before, after)
  }

  lemma ExploredTwice(classes: Classes, a: set<string>, b: set<string>, c: set<string>)
    requires Explored(classes, a, b) && Explored(classes, b, c)
    ensures Explored(classes, a, c)
  {
    hide HasRootBase, Bases;
  }

  lemma ExploredFrom(classes: Classes, before: set<string>, c: string, after: set<string>)
    requires Explored(classes, before + {c}, after) && !HasRootBase(classes, c)
    requires forall b | b in Bases(classes, c) && b in classes :: b in after
    ensures Explored(classes, before, after)
  {
    hide HasRootBase, Bases;
  }

  class NameSet {
    var names: set<string>

    constructor ()
      ensures names == {}
    {
      names := {};
    }
  }

  /** The search with one set of visited names for all branches: nothing is
      ever taken out of it, whichever branch put it in. */
  method IsDepthaiNode(className: string, classes: Classes, shared: NameSet?) returns (found: bool)
    modifies shared
    ensures found ==> Inherits(classes, className)
    ensures shared != null ==> old(shared.names) <= shared.names && className in shared.names
    ensures shared != null && !found ==> Explored(classes, old(shared.names), shared.names)
    ensures shared == null ==> (found <==> Inherits(classes, className))
    decreases if shared == null then 1 else 0, if shared == null then 0 else |classes.Keys - shared.names|
  {
    hide Leads, Inherits, RootBases;
    if shared == null {
      var visiting := new NameSet();
      found := IsDepthaiNode(className, classes, visiting);
      if !found {
        assert visiting.names - {} == visiting.names;
        NotInherited(classes, visiting.names, className);
      }
      return;
    }
    if className in shared.names { return false; }
    hide Explored;
    InheritsUnfolds(classes, className);
    shared.names := shared.names + {className};
    var bases := if className in classes then classes[className] else {};
    if bases * RootBases() != {} { return true; }
    var order := Ordering.InAnyOrder(bases);
    ghost var entered := shared.names;
    NothingExplored(classes, entered);
    for i := 0 to |order|
      invariant entered <= shared.names && Explored(classes, entered, shared.names)
      invariant forall j | 0 <= j < i && order[j] in classes :: order[j] in shared.names
    {
      if order[i] in classes {
        assert order[i] in order && order[i] in bases;
        ghost var before := shared.names;
        Fewer(classes, old(shared.names), shared.names, className);
        found := IsDepthaiNode(order[i], classes, shared);
        if found { return true; }
        ExploredTwice(classes, entered, before, shared.names);
      }
    }
    ExploredFrom(classes, old(shared.names), className, shared.names);
    return false;
  }

  lemma NothingExplored(classes: Classes, names: set<string>)
    ensures Explored(classes, names, names)
  {
  }

  lemma Fewer(classes: Classes, before: set<string>, after: set<string>, c: string)
    requires c in classes && c !in before && c in after && before <= after
    ensures |classes.Keys - after| < |classes.Keys - before|
  {
    var less, more := classes.Keys - after, classes.Keys - before;
    assert less <= more - {c};
    Smaller(less, more - {c});
  }

  lemma {:induction false} Smaller(a: set<string>, b: set<string>)
    requires a <= b
    ensures |a| <= |b|
    decreases a
  {
    assert b == a + (b - a);
  }

  /** The names that go into the generated header. */
  method NodeNames(classes: Classes) returns (names: set<string>)
    ensures forall c :: c in names <==> c in classes && Inherits(classes, c)
  {
    names := {};
    var order := Ordering.InAnyOrder(classes.Keys);
    for i := 0 to |order|
      invariant forall c :: c in names <==> c in order[..i] && Inherits(classes, c)
    {
      var isNode := IsDepthaiNode(order[i], classes, null);
      if isNode {
        names := names + {order[i]};
      }
    }
    assert order[..|order|] == order;
  }
}
