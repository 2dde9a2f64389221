/** The order in which a container is walked, where the program leaves it open. */
module Ordering {

  method InAnyOrder<T(==)>(s: set<T>) returns (order: seq<T>)
    ensures forall x :: x in order <==> x in s
    ensures forall j, k | 0 <= j < k < |order| :: order[j] != order[k]
  {
    order := [];
    var todo := s;
    while todo != {}
      invariant todo <= s
      invariant forall x :: x in order <==> x in s - todo
      invariant forall j, k | 0 <= j < k < |order| :: order[j] != order[k]
      decreases |todo|
    {
      var x :| x in todo;
      todo := todo - {x};
      ghost var before := order;
      order := order + [x];
      assert forall y :: y in order <==> y in before || y == x;
      assert forall j | 0 <= j < |before| :: before[j] in before && order[j] == before[j] != x;
      assert order[|before|] == x;
    }
  }
}
