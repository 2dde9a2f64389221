/** The graph that extrinsic calibration data forms: every camera links to one
    other camera, or to AUTO when it is an origin. */
module ExtrinsicGraph {

  datatype Socket = AUTO | Camera(id: nat)

  /** Where each camera links to. */
  type Links = map<Socket, Socket>

  // ----- chains, as they should be -----

  /** `p` follows the links through known cameras, from its first element on. */
  ghost predicate Chain(links: Links, p: seq<Socket>) {
    && p != [] && p[0] in links
    && (|p| > 1 ==> links[p[0]] == p[1] && p[1] != AUTO && Chain(links, p[1..]))
  }

  /** A chain that ends in an origin. */
  ghost predicate ChainToOrigin(links: Links, p: seq<Socket>) {
    Chain(links, p) && p[|p| - 1] in links && links[p[|p| - 1]] == AUTO
  }

  ghost predicate OriginOf(links: Links, c: Socket, origin: Socket) {
    exists p :: ChainToOrigin(links, p) && p[0] == c && p[|p| - 1] == origin
  }

  ghost predicate ChainBackTo(links: Links, p: seq<Socket>, c: Socket) {
    Chain(links, p) && p[0] == c && p[|p| - 1] in links && links[p[|p| - 1]] == c
  }

  ghost predicate OnCycle(links: Links, c: Socket) {
    c != AUTO && exists p :: ChainBackTo(links, p, c)
  }

  ghost predicate Dangles(links: Links, at: Socket, to: Socket) {
    at in links && links[at] == to && to != AUTO && to !in links
  }

  ghost predicate SharedOrigin(links: Links, origin: Socket) {
    forall c | c in links :: OriginOf(links, c, origin)
  }

  /** All cameras reach one and the same origin, and none of them is AUTO. */
  ghost predicate Consistent(links: Links) {
    AUTO !in links && exists origin :: SharedOrigin(links, origin)
  }

  lemma {:induction false} ChainSuffix(links: Links, p: seq<Socket>, i: nat)
    requires Chain(links, p) && i < |p|
    ensures Chain(links, p[i..])
  {
    if i > 0 {
      ChainSuffix(links, p[1..], i - 1);
      assert p[1..][i - 1..] == p[i..];
    }
  }

  lemma {:induction false} ChainPrefix(links: Links, p: seq<Socket>, j: nat)
    requires Chain(links, p) && 0 < j < |p|
    ensures Chain(links, p[..j]) && p[j - 1] in links && links[p[j - 1]] == p[j] && p[j] != AUTO
  {
    if j > 1 {
      ChainPrefix(links, p[1..], j - 1);
      assert p[1..][..j - 1] == p[..j][1..];
    }
  }

  lemma {:induction false} ChainConcat(links: Links, p: seq<Socket>, q: seq<Socket>)
    requires Chain(links, p) && Chain(links, q) && p[|p| - 1] in links && links[p[|p| - 1]] == q[0] && q[0] != AUTO
    ensures Chain(links, p + q)
    decreases |p|
  {
    if |p| > 1 {
      ChainConcat(links, p[1..], q);
      assert (p + q)[1..] == p[1..] + q;
    } else {
      assert (p + q)[1..] == q;
    }
  }

  lemma {:induction false} ChainsAgree(links: Links, p: seq<Socket>, q: seq<Socket>)
    requires ChainToOrigin(links, p) && ChainToOrigin(links, q) && p[0] == q[0]
    ensures p == q
    decreases |p|
  {
    if |p| > 1 && |q| > 1 {
      ChainsAgree(links, p[1..], q[1..]);
      assert p == [p[0]] + p[1..] && q == [q[0]] + q[1..];
    }
  }

  lemma OriginIsUnique(links: Links, c: Socket, o: Socket, o': Socket)
    requires OriginOf(links, c, o) && OriginOf(links, c, o')
    ensures o == o'
  {
    var p :| ChainToOrigin(links, p) && p[0] == c && p[|p| - 1] == o;
    var q :| ChainToOrigin(links, q) && q[0] == c && q[|q| - 1] == o';
    ChainsAgree(links, p, q);
  }

  /** A chain to an origin never comes back to a camera. */
  lemma ChainIsSimple(links: Links, p: seq<Socket>)
    requires ChainToOrigin(links, p)
    ensures forall j, k | 0 <= j < k < |p| :: p[j] != p[k]
  {
    forall j, k | 0 <= j < k < |p| ensures p[j] != p[k] {
      ChainSuffix(links, p, j);
      ChainSuffix(links, p, k);
      if p[j] == p[k] {
        ChainsAgree(links, p[j..], p[k..]);
      }
    }
  }

  // ----- following the links -----

  datatype Walk = Origin(socket: Socket) | Cycle(at: Socket) | Dangling(at: Socket, to: Socket)

  /** Follows the links from `c`, having come through `seen`. */
  function Follow(links: Links, c: Socket, seen: set<Socket>): Walk
    requires c in links
    decreases links.Keys - seen
  {
    if c in seen then Cycle(c)
    else if links[c] == AUTO then Origin(c)
    else if links[c] !in links then Dangling(c, links[c])
    else Follow(links, links[c], seen + {c})
  }

  /** The walk ends in an origin exactly when a chain leads there. */
  lemma FollowFindsOrigin(links: Links, c: Socket, origin: Socket)
    requires c in links
    ensures Follow(links, c, {}) == Origin(origin) <==> OriginOf(links, c, origin)
  {
    var p := WalkedChain(links, c, {});
    if Follow(links, c, {}) == Origin(origin) {
      assert ChainToOrigin(links, p);
    }
    if OriginOf(links, c, origin) {
      var q :| ChainToOrigin(links, q) && q[0] == c && q[|q| - 1] == origin;
      ChainIsSimple(links, q);
      FollowChain(links, q, {});
    }
  }

  lemma {:induction false} FollowChain(links: Links, p: seq<Socket>, seen: set<Socket>)
    requires ChainToOrigin(links, p) && forall k | 0 <= k < |p| :: p[k] !in seen
    requires forall j, k | 0 <= j < k < |p| :: p[j] != p[k]
    ensures Follow(links, p[0], seen) == Origin(p[|p| - 1])
  {
    if |p| > 1 {
      assert links[p[0]] == p[1];
      FollowChain(links, p[1..], seen + {p[0]});
    }
  }

  /** The chain that a walk followed, up to the camera it ended at. */
  lemma {:induction false} WalkedChain(links: Links, c: Socket, seen: set<Socket>) returns (p: seq<Socket>)
    requires c in links
    ensures Chain(links, p) && p[0] == c
    ensures var w := Follow(links, c, seen);
            && (w.Origin? ==> p[|p| - 1] == w.socket && w.socket in links && links[w.socket] == AUTO)
            && (w.Dangling? ==> p[|p| - 1] == w.at && Dangles(links, w.at, w.to))
            && (w.Cycle? ==> p[|p| - 1] == w.at && (w.at in p[..|p| - 1] || w.at in seen))
    decreases links.Keys - seen
  {
    p := [c];
    if c !in seen && links[c] != AUTO && links[c] in links {
      var rest := WalkedChain(links, links[c], seen + {c});
      p := [c] + rest;
      assert p[1..] == rest;
      assert p[..|p| - 1] == [c] + rest[..|rest| - 1];
    }
  }

  /** A reported cycle, or a reported dangling reference, is there. */
  lemma FollowIsRight(links: Links, c: Socket)
    requires c in links
    ensures var w := Follow(links, c, {});
            && (w.Origin? ==> OriginOf(links, c, w.socket))
            && (w.Dangling? ==> Dangles(links, w.at, w.to))
            && (w.Cycle? ==> OnCycle(links, w.at))
  {
    hide Follow, Chain;
    var w := Follow(links, c, {});
    var p := WalkedChain(links, c, {});
    if w.Origin? {
      assert ChainToOrigin(links, p);
    } else if w.Cycle? {
      ChainClosesCycle(links, p);
    }
  }

  lemma ChainClosesCycle(links: Links, p: seq<Socket>)
    requires Chain(links, p) && p[|p| - 1] in p[..|p| - 1]
    ensures OnCycle(links, p[|p| - 1])
  {
    hide Chain;
    var n := |p| - 1;
    var k :| 0 <= k < n && p[k] == p[n];
    ChainPrefix(links, p, n);
    ChainSuffix(links, p[..n], k);
    var round := p[..n][k..];
    assert round[|round| - 1] == p[n - 1] && round[0] == p[k];
    assert ChainBackTo(links, round, p[n]);
  }

  /** From a camera on a cycle no origin is ever reached. */
  lemma CycleHasNoOrigin(links: Links, c: Socket, origin: Socket)
    requires OnCycle(links, c)
    ensures !OriginOf(links, c, origin)
  {
    if OriginOf(links, c, origin) {
      var round :| ChainBackTo(links, round, c);
      var p :| ChainToOrigin(links, p) && p[0] == c && p[|p| - 1] == origin;
      ChainConcat(links, round, p);
      assert |round + p| > |p|;
      ChainsAgree(links, p, round + p);
    }
  }
}
