/**
 * The label-setting search of dijkstra (successive_averages.py:184-232) on values:
 * the node labels (distance, predecessor, settled flag) as sequences indexed like the
 * node list, the invariant the search keeps, and the facts it yields at its exit.
 */
module Labels {
  import opened Network
  import opened Walks

  function IndexOf(names: seq<string>, x: string): (i: int)
    ensures -1 <= i < |names|
    ensures i >= 0 ==> names[i] == x
    ensures i < 0 <==> x !in names
  {
    if names == [] then -1
    else if names[|names| - 1] == x then |names| - 1
    else IndexOf(names[..|names| - 1], x)
  }

  predicate Unique(names: seq<string>)
  {
    forall i, j :: 0 <= i < j < |names| ==> names[i] != names[j]
  }

  /** Unique states for a list of names what UniqueNames states for the nodes that carry them. */
  lemma UniqueNamesAreUnique(N: seq<Node>)
    ensures UniqueNames(N) <==> Unique(Names(N))
  {
  }

  lemma IndexOfUnique(names: seq<string>, i: int)
    requires Unique(names) && 0 <= i < |names|
    ensures IndexOf(names, names[i]) == i
  {
  }

  /** What the search assumes of the graph: unique names, arc ends that are nodes, costs >= 0. */
  ghost predicate GoodGraph(names: seq<string>, arcs: seq<Arc>)
  {
    && Unique(names)
    && forall a :: 0 <= a < |arcs| ==> arcs[a].end in names && arcs[a].cost >= 0.0
  }

  /**
   * The labels of one search. dist, pred and settled mirror Node.dist, Node.prev (as an
   * index, -1 for None) and Node.flag; via names the arc that set pred, rank the order in
   * which nodes were settled, count how many have been settled, and frontier the distance
   * of the node settled last.
   */
  datatype Search = Search(dist: seq<real>, pred: seq<int>, via: seq<int>, settled: seq<bool>, rank: seq<int>,
                           count: int, frontier: real)

  ghost predicate Sized(n: int, s: Search)
  {
    |s.dist| == n && |s.pred| == n && |s.via| == n && |s.settled| == n && |s.rank| == n
  }

  /** The predecessor of i was settled before i, and i's label is its label plus the arc. */
  ghost predicate TreeArc(names: seq<string>, arcs: seq<Arc>, s: Search, i: int)
    requires Sized(|names|, s) && 0 <= i < |names| && 0 <= s.pred[i] < |names|
  {
    var p := s.pred[i];
    && s.settled[p]
    && (s.settled[i] ==> s.rank[p] < s.rank[i])
    && s.dist[i] < Sentinel
    && 0 <= s.via[i] < |arcs|
    && !arcs[s.via[i]].ignored
    && arcs[s.via[i]].start == names[p]
    && arcs[s.via[i]].end == names[i]
    && s.dist[i] == s.dist[p] + arcs[s.via[i]].cost
  }

  /** Arc a, if it leaves a settled node, cannot improve the label of its end. */
  ghost predicate Relaxed(names: seq<string>, arcs: seq<Arc>, s: Search, a: int)
    requires Sized(|names|, s) && 0 <= a < |arcs|
  {
    var u := IndexOf(names, arcs[a].start);
    var v := IndexOf(names, arcs[a].end);
    !arcs[a].ignored && 0 <= u && s.settled[u] ==> 0 <= v && s.dist[v] <= s.dist[u] + arcs[a].cost
  }

  /** Sizes and ranges of the labels. */
  ghost predicate Shape(names: seq<string>, s: Search)
  {
    && Sized(|names|, s)
    && 0 <= s.count
    && (forall i :: 0 <= i < |names| ==> 0.0 <= s.dist[i] <= Sentinel && -1 <= s.pred[i] < |names|)
    && (forall i :: 0 <= i < |names| && s.settled[i] ==> 0 <= s.rank[i] < s.count)
  }

  /** The origin has label 0 and no predecessor, and it is the only finite root. */
  ghost predicate Rooted(names: seq<string>, origin: string, s: Search)
    requires Sized(|names|, s)
  {
    && (forall i :: 0 <= i < |names| && names[i] == origin ==> s.dist[i] == 0.0 && s.pred[i] < 0)
    && (forall i :: 0 <= i < |names| && s.pred[i] < 0 && s.dist[i] < Sentinel ==> names[i] == origin)
    && (origin !in names ==> forall i :: 0 <= i < |names| ==> s.pred[i] < 0)
  }

  ghost predicate Tree(names: seq<string>, arcs: seq<Arc>, s: Search)
    requires Shape(names, s)
  {
    forall i {:trigger TreeArc(names, arcs, s, i)} {:trigger s.via[i]} :: 0 <= i < |names| && s.pred[i] >= 0 ==> TreeArc(names, arcs, s, i)
  }

  ghost predicate RelaxedExcept(names: seq<string>, arcs: seq<Arc>, s: Search, pending: set<int>)
    requires Sized(|names|, s)
  {
    forall a :: 0 <= a < |arcs| && a !in pending ==> Relaxed(names, arcs, s, a)
  }

  /** The frontier separates the labels: settled ones do not exceed it, unsettled ones are not below it. */
  ghost predicate Ordered(names: seq<string>, s: Search)
    requires Sized(|names|, s)
  {
    forall i :: 0 <= i < |names| ==> if s.settled[i] then s.dist[i] <= s.frontier else s.frontier <= s.dist[i]
  }

  /** The invariant of the search; pending are the arcs of the node being expanded not yet relaxed. */
  ghost predicate SearchInv(names: seq<string>, arcs: seq<Arc>, origin: string, s: Search, pending: set<int>)
  {
    && Shape(names, s)
    && Rooted(names, origin, s)
    && Tree(names, arcs, s)
    && RelaxedExcept(names, arcs, s, pending)
    && Ordered(names, s)
  }

  /** The labels right after resetGraph and the origin's distance set to 0. */
  function Initial(names: seq<string>, origin: string): (s: Search)
    ensures Sized(|names|, s) && s.count == 0
    ensures forall i :: 0 <= i < |names| ==> !s.settled[i] && s.pred[i] == -1
    ensures forall i :: 0 <= i < |names| ==> s.dist[i] == if names[i] == origin then 0.0 else Sentinel
  {
    Search(seq(|names|, i requires 0 <= i < |names| => if names[i] == origin then 0.0 else Sentinel),
           seq(|names|, i => -1), seq(|names|, i => -1), seq(|names|, i => false), seq(|names|, i => 0), 0, 0.0)
  }

  /** Flagging u: it gets the next rank, and its label becomes the frontier. */
  function Settle(s: Search, u: int): Search
    requires 0 <= u < |s.settled| && |s.rank| == |s.settled| && |s.dist| == |s.settled|
  {
    s.(settled := s.settled[u := true], rank := s.rank[u := s.count], count := s.count + 1, frontier := s.dist[u])
  }

  /** An improving relaxation of arc a from u to v. */
  function Improve(s: Search, u: int, v: int, a: int, d: real): Search
    requires 0 <= v < |s.dist| && |s.pred| == |s.dist| && |s.via| == |s.dist|
  {
    s.(dist := s.dist[v := d], pred := s.pred[v := u], via := s.via[v := a])
  }

  /** The arcs leaving the node named x. */
  ghost function OutSet(arcs: seq<Arc>, x: string): set<int>
  {
    set a | 0 <= a < |arcs| && arcs[a].start == x
  }

  lemma InitialInv(names: seq<string>, arcs: seq<Arc>, origin: string)
    requires GoodGraph(names, arcs)
    ensures SearchInv(names, arcs, origin, Initial(names, origin), {})
  {
  }

  /** Settling an unsettled node of least distance keeps the invariant. */
  lemma SettleInv(names: seq<string>, arcs: seq<Arc>, origin: string, s: Search, u: int)
    requires GoodGraph(names, arcs)
    requires SearchInv(names, arcs, origin, s, {})
    requires 0 <= u < |names| && !s.settled[u]
    requires forall j :: 0 <= j < |names| && !s.settled[j] ==> s.dist[u] <= s.dist[j]
    ensures SearchInv(names, arcs, origin, Settle(s, u), OutSet(arcs, names[u]))
  {
    var s' := Settle(s, u);
    assert Shape(names, s');
    assert Rooted(names, origin, s');
    SettleTree(names, arcs, s, u);
    SettleRelaxed(names, arcs, s, u);
    SettleOrdered(names, s, u);
  }

  lemma SettleTree(names: seq<string>, arcs: seq<Arc>, s: Search, u: int)
    requires Shape(names, s) && Tree(names, arcs, s)
    requires 0 <= u < |names| && !s.settled[u]
    ensures Shape(names, Settle(s, u)) && Tree(names, arcs, Settle(s, u))
  {
    var s' := Settle(s, u);
    forall i | 0 <= i < |names| && s'.pred[i] >= 0
      ensures TreeArc(names, arcs, s', i)
    {
      assert TreeArc(names, arcs, s, i);
    }
  }

  lemma SettleRelaxed(names: seq<string>, arcs: seq<Arc>, s: Search, u: int)
    requires Unique(names)
    requires Shape(names, s) && RelaxedExcept(names, arcs, s, {})
    requires 0 <= u < |names|
    ensures Sized(|names|, Settle(s, u)) && RelaxedExcept(names, arcs, Settle(s, u), OutSet(arcs, names[u]))
  {
    var s' := Settle(s, u);
    forall a | 0 <= a < |arcs| && a !in OutSet(arcs, names[u])
      ensures Relaxed(names, arcs, s', a)
    {
      assert Relaxed(names, arcs, s, a);
    }
  }

  lemma SettleOrdered(names: seq<string>, s: Search, u: int)
    requires Shape(names, s) && Ordered(names, s)
    requires 0 <= u < |names| && !s.settled[u]
    requires forall j :: 0 <= j < |names| && !s.settled[j] ==> s.dist[u] <= s.dist[j]
    ensures Sized(|names|, Settle(s, u)) && Ordered(names, Settle(s, u))
  {
  }

  /** Skipping an ignored arc, or one that does not improve its end, keeps the invariant. */
  lemma SkipInv(names: seq<string>, arcs: seq<Arc>, origin: string, s: Search, pending: set<int>, u: int, a: int)
    requires GoodGraph(names, arcs)
    requires SearchInv(names, arcs, origin, s, pending)
    requires 0 <= u < |names| && s.settled[u]
    requires a in pending && 0 <= a < |arcs| && arcs[a].start == names[u]
    requires arcs[a].ignored || s.dist[IndexOf(names, arcs[a].end)] <= s.dist[u] + arcs[a].cost
    ensures SearchInv(names, arcs, origin, s, pending - {a})
  {
    IndexOfUnique(names, u);
    assert Relaxed(names, arcs, s, a);
    RelaxedStill(names, arcs, s, pending, a);
  }

  /** Improving the end of a pending arc of the most recently settled node keeps the invariant. */
  lemma ImproveInv(names: seq<string>, arcs: seq<Arc>, origin: string, s: Search, pending: set<int>, u: int, a: int, v: int, d: real)
    requires GoodGraph(names, arcs)
    requires SearchInv(names, arcs, origin, s, pending)
    requires 0 <= u < |names| && s.settled[u] && s.dist[u] == s.frontier
    requires a in pending && 0 <= a < |arcs| && arcs[a].start == names[u] && !arcs[a].ignored
    requires v == IndexOf(names, arcs[a].end)
    requires d == s.dist[u] + arcs[a].cost && s.dist[v] > d
    ensures !s.settled[v] && v != u
    ensures SearchInv(names, arcs, origin, Improve(s, u, v, a, d), pending - {a})
  {
    ImproveTreeInv(names, arcs, origin, s, pending, u, a, v, d);
    ImproveOrderInv(names, arcs, origin, s, pending, u, a, v, d);
  }

  /** The improved labels keep their shape, their root and their tree. */
  lemma ImproveTreeInv(names: seq<string>, arcs: seq<Arc>, origin: string, s: Search, pending: set<int>, u: int, a: int, v: int, d: real)
    requires GoodGraph(names, arcs)
    requires SearchInv(names, arcs, origin, s, pending)
    requires 0 <= u < |names| && s.settled[u] && s.dist[u] == s.frontier
    requires a in pending && 0 <= a < |arcs| && arcs[a].start == names[u] && !arcs[a].ignored
    requires v == IndexOf(names, arcs[a].end)
    requires d == s.dist[u] + arcs[a].cost && s.dist[v] > d
    ensures !s.settled[v]
    ensures Shape(names, Improve(s, u, v, a, d))
    ensures Rooted(names, origin, Improve(s, u, v, a, d))
    ensures Tree(names, arcs, Improve(s, u, v, a, d))
  {
    ImprovedIsUnsettled(names, s, u, v);
    ImproveShape(names, origin, s, u, v, a, d);
    ImproveTree(names, arcs, s, u, v, a, d);
  }

  /** The improved labels keep the pending arcs' relaxation and the frontier's order. */
  lemma ImproveOrderInv(names: seq<string>, arcs: seq<Arc>, origin: string, s: Search, pending: set<int>, u: int, a: int, v: int, d: real)
    requires GoodGraph(names, arcs)
    requires SearchInv(names, arcs, origin, s, pending)
    requires 0 <= u < |names| && s.settled[u] && s.dist[u] == s.frontier
    requires a in pending && 0 <= a < |arcs| && arcs[a].start == names[u] && !arcs[a].ignored
    requires v == IndexOf(names, arcs[a].end)
    requires d == s.dist[u] + arcs[a].cost && s.dist[v] > d
    ensures Sized(|names|, Improve(s, u, v, a, d))
    ensures RelaxedExcept(names, arcs, Improve(s, u, v, a, d), pending - {a})
    ensures Ordered(names, Improve(s, u, v, a, d))
  {
    IndexOfUnique(names, u);
    ImprovedIsUnsettled(names, s, u, v);
    ImproveRelaxed(names, arcs, s, pending, u, v, a, d);
    ImproveOrdered(names, s, u, v, a, d);
  }

  /** A node whose label exceeds that of the last settled node is not settled. */
  lemma ImprovedIsUnsettled(names: seq<string>, s: Search, u: int, v: int)
    requires Shape(names, s) && Ordered(names, s)
    requires 0 <= u < |names| && s.settled[u] && s.dist[u] == s.frontier
    requires 0 <= v < |names| && s.dist[u] < s.dist[v]
    ensures !s.settled[v]
  {
  }

  /** An arc that needs no improvement leaves the pending set. */
  lemma RelaxedStill(names: seq<string>, arcs: seq<Arc>, s: Search, pending: set<int>, a: int)
    requires Sized(|names|, s) && RelaxedExcept(names, arcs, s, pending)
    requires 0 <= a < |arcs| && Relaxed(names, arcs, s, a)
    ensures RelaxedExcept(names, arcs, s, pending - {a})
  {
  }

  lemma ImproveShape(names: seq<string>, origin: string, s: Search, u: int, v: int, a: int, d: real)
    requires Shape(names, s) && Rooted(names, origin, s)
    requires 0 <= u < |names| && 0 <= v < |names| && 0.0 <= s.dist[u] <= d < s.dist[v]
    ensures Shape(names, Improve(s, u, v, a, d)) && Rooted(names, origin, Improve(s, u, v, a, d))
  {
    assert names[v] != origin;
  }

  lemma ImproveTree(names: seq<string>, arcs: seq<Arc>, s: Search, u: int, v: int, a: int, d: real)
    requires Shape(names, s) && Tree(names, arcs, s)
    requires 0 <= u < |names| && s.settled[u] && 0 <= v < |names| && !s.settled[v]
    requires 0 <= a < |arcs| && !arcs[a].ignored && arcs[a].start == names[u] && arcs[a].end == names[v]
    requires 0.0 <= arcs[a].cost && d == s.dist[u] + arcs[a].cost && d < s.dist[v]
    ensures Shape(names, Improve(s, u, v, a, d))
    ensures Tree(names, arcs, Improve(s, u, v, a, d))
  {
    var s' := Improve(s, u, v, a, d);
    forall i | 0 <= i < |names| && s'.pred[i] >= 0
      ensures TreeArc(names, arcs, s', i)
    {
      if i != v {
        assert TreeArc(names, arcs, s, i);
        assert s.pred[i] != v;
      }
    }
  }

  lemma ImproveRelaxed(names: seq<string>, arcs: seq<Arc>, s: Search, pending: set<int>, u: int, v: int, a: int, d: real)
    requires Shape(names, s) && RelaxedExcept(names, arcs, s, pending)
    requires 0 <= u < |names| && 0 <= v < |names| && !s.settled[v]
    requires 0 <= a < |arcs| && IndexOf(names, arcs[a].start) == u && IndexOf(names, arcs[a].end) == v
    requires d == s.dist[u] + arcs[a].cost && d < s.dist[v]
    ensures Sized(|names|, Improve(s, u, v, a, d))
    ensures RelaxedExcept(names, arcs, Improve(s, u, v, a, d), pending - {a})
  {
    var s' := Improve(s, u, v, a, d);
    forall b | 0 <= b < |arcs| && b !in pending - {a}
      ensures Relaxed(names, arcs, s', b)
    {
      if b != a {
        assert Relaxed(names, arcs, s, b);
      }
    }
  }

  lemma ImproveOrdered(names: seq<string>, s: Search, u: int, v: int, a: int, d: real)
    requires Shape(names, s) && Ordered(names, s)
    requires 0 <= u < |names| && s.settled[u] && 0 <= v < |names| && !s.settled[v]
    requires s.dist[u] == s.frontier
    requires s.dist[u] <= d
    ensures Sized(|names|, Improve(s, u, v, a, d)) && Ordered(names, Improve(s, u, v, a, d))
  {
  }

  /** The search has stopped at x: every node is settled, or x is an unsettled node of least distance. */
  ghost predicate Stopped(names: seq<string>, s: Search, x: int)
    requires Sized(|names|, s) && 0 <= x < |names|
  {
    || (forall i :: 0 <= i < |names| ==> s.settled[i])
    || (!s.settled[x] && forall j :: 0 <= j < |names| && !s.settled[j] ==> s.dist[x] <= s.dist[j])
  }

  /** Along any walk from the origin, the first unsettled node bounds x's label, and settled ones are exact. */
  lemma {:induction false} WalkBound(names: seq<string>, arcs: seq<Arc>, origin: string, s: Search, x: int,
                                     w: seq<int>, destination: string, k: int)
    requires GoodGraph(names, arcs)
    requires Shape(names, s) && Rooted(names, origin, s) && RelaxedExcept(names, arcs, s, {})
    requires 0 <= x < |names| && Stopped(names, s, x)
    requires origin in names
    requires IsWalk(arcs, w, origin, destination)
    requires 0 <= k <= |w|
    ensures var t := if k == 0 then IndexOf(names, origin) else IndexOf(names, arcs[w[k - 1]].end);
      && 0 <= t
      && (s.dist[x] <= WalkCost(arcs, w[..k]) || (s.settled[t] && s.dist[t] <= WalkCost(arcs, w[..k])))
  {
    if k == 0 {
      assert w[..0] == [];
    } else {
      WalkBound(names, arcs, origin, s, x, w, destination, k - 1);
      var t0 := if k - 1 == 0 then IndexOf(names, origin) else IndexOf(names, arcs[w[k - 2]].end);
      var t := IndexOf(names, arcs[w[k - 1]].end);
      var a := w[k - 1];
      assert w[..k][..k - 1] == w[..k - 1];
      assert WalkCost(arcs, w[..k]) == WalkCost(arcs, w[..k - 1]) + arcs[a].cost;
      assert arcs[a].start == names[t0] by {
        if k - 1 > 0 {
          assert arcs[w[k - 2]].end == arcs[w[k - 1]].start;
        }
      }
      IndexOfUnique(names, t0);
      if s.settled[t0] && s.dist[t0] <= WalkCost(arcs, w[..k - 1]) {
        assert Relaxed(names, arcs, s, a);
      }
    }
  }

  /** At a stop, x's label is no larger than the cost of any walk from the origin to x. */
  lemma LabelIsLowerBound(names: seq<string>, arcs: seq<Arc>, origin: string, s: Search, x: int, w: seq<int>)
    requires GoodGraph(names, arcs)
    requires SearchInv(names, arcs, origin, s, {})
    requires 0 <= x < |names| && Stopped(names, s, x)
    requires origin in names
    requires IsWalk(arcs, w, origin, names[x])
    ensures s.dist[x] <= WalkCost(arcs, w)
  {
    WalkBound(names, arcs, origin, s, x, w, names[x], |w|);
    assert w[..|w|] == w;
    IndexOfUnique(names, x);
  }

  /** The arcs found by following predecessors back from x. */
  ghost function Chain(names: seq<string>, arcs: seq<Arc>, origin: string, s: Search, x: int): (w: seq<int>)
    requires Shape(names, s) && Tree(names, arcs, s)
    requires 0 <= x < |names|
    ensures forall k :: 0 <= k < |w| ==> 0 <= w[k] < |arcs|
    decreases if s.settled[x] then s.rank[x] else s.count
  {
    if s.pred[x] < 0 then [] else
      assert TreeArc(names, arcs, s, x);
      Chain(names, arcs, origin, s, s.pred[x]) + [s.via[x]]
  }

  /** The node indices found by following predecessors back from x, ending with x. */
  ghost function ChainNodes(names: seq<string>, arcs: seq<Arc>, origin: string, s: Search, x: int): (nodes: seq<int>)
    requires Shape(names, s) && Tree(names, arcs, s)
    requires 0 <= x < |names|
    ensures |nodes| >= 1 && nodes[|nodes| - 1] == x
    ensures forall k :: 0 <= k < |nodes| ==> 0 <= nodes[k] < |names|
    decreases if s.settled[x] then s.rank[x] else s.count
  {
    if s.pred[x] < 0 then [x] else
      assert TreeArc(names, arcs, s, x);
      ChainNodes(names, arcs, origin, s, s.pred[x]) + [x]
  }

  /** Following predecessors from a node with a finite label gives a walk from the origin costing that label. */
  lemma {:induction false} ChainIsWalk(names: seq<string>, arcs: seq<Arc>, origin: string, s: Search, x: int)
    requires GoodGraph(names, arcs)
    requires Shape(names, s) && Rooted(names, origin, s) && Tree(names, arcs, s)
    requires 0 <= x < |names| && s.dist[x] < Sentinel
    ensures IsWalk(arcs, Chain(names, arcs, origin, s, x), origin, names[x])
    ensures WalkCost(arcs, Chain(names, arcs, origin, s, x)) == s.dist[x]
    decreases if s.settled[x] then s.rank[x] else s.count
  {
    if s.pred[x] >= 0 {
      assert TreeArc(names, arcs, s, x);
      var p := s.pred[x];
      ChainIsWalk(names, arcs, origin, s, p);
      WalkExtend(arcs, Chain(names, arcs, origin, s, p), origin, names[p], s.via[x]);
    }
  }

  /** The nodes on the predecessor chain are the nodes its walk visits. */
  lemma ChainNodesVisited(names: seq<string>, arcs: seq<Arc>, origin: string, s: Search, x: int)
    requires GoodGraph(names, arcs)
    requires Shape(names, s) && Rooted(names, origin, s) && Tree(names, arcs, s)
    requires 0 <= x < |names| && s.dist[x] < Sentinel
    ensures var w := Chain(names, arcs, origin, s, x);
      var nodes := ChainNodes(names, arcs, origin, s, x);
      && |nodes| == |w| + 1
      && nodes[|w|] == x
      && forall k :: 0 <= k < |nodes| ==> 0 <= nodes[k] < |names| && names[nodes[k]] == WalkNodes(arcs, w, origin)[k]
  {
    ChainNodesAlong(names, arcs, origin, s, x);
    var w := Chain(names, arcs, origin, s, x);
    var nodes := ChainNodes(names, arcs, origin, s, x);
    forall k | 0 <= k < |nodes|
      ensures names[nodes[k]] == WalkNodes(arcs, w, origin)[k]
    {
      if k > 0 {
        assert names[nodes[(k - 1) + 1]] == arcs[w[k - 1]].end;
      }
    }
  }

  /** The chain's nodes start at the origin, and each further one is the end of the chain's next arc. */
  lemma {:induction false} ChainNodesAlong(names: seq<string>, arcs: seq<Arc>, origin: string, s: Search, x: int)
    requires GoodGraph(names, arcs)
    requires Shape(names, s) && Rooted(names, origin, s) && Tree(names, arcs, s)
    requires 0 <= x < |names| && s.dist[x] < Sentinel
    ensures var w := Chain(names, arcs, origin, s, x);
      var nodes := ChainNodes(names, arcs, origin, s, x);
      && |nodes| == |w| + 1
      && names[nodes[0]] == origin
      && forall k :: 0 <= k < |w| ==> names[nodes[k + 1]] == arcs[w[k]].end
    decreases if s.settled[x] then s.rank[x] else s.count
  {
    if s.pred[x] >= 0 {
      assert TreeArc(names, arcs, s, x);
      var p := s.pred[x];
      ChainNodesAlong(names, arcs, origin, s, p);
      var w := Chain(names, arcs, origin, s, p);
      var nodes := ChainNodes(names, arcs, origin, s, p);
      assert Chain(names, arcs, origin, s, x) == w + [s.via[x]];
      assert ChainNodes(names, arcs, origin, s, x) == nodes + [x];
    }
  }

  /**
   * What the search yields at a stop at x: when the origin is a node and some walk to x is
   * cheaper than the sentinel, the predecessor chain is a shortest walk; otherwise x has
   * no predecessor.
   */
  lemma StopOutcome(names: seq<string>, arcs: seq<Arc>, origin: string, s: Search, x: int)
    requires GoodGraph(names, arcs)
    requires SearchInv(names, arcs, origin, s, {})
    requires 0 <= x < |names| && Stopped(names, s, x)
    ensures origin in names && HasCheapWalk(arcs, origin, names[x]) ==>
      && s.dist[x] < Sentinel
      && IsShortest(arcs, Chain(names, arcs, origin, s, x), origin, names[x])
    ensures !(origin in names && HasCheapWalk(arcs, origin, names[x])) ==> s.pred[x] < 0
  {
    if origin in names && HasCheapWalk(arcs, origin, names[x]) {
      var w :| IsWalk(arcs, w, origin, names[x]) && WalkCost(arcs, w) < Sentinel;
      LabelIsLowerBound(names, arcs, origin, s, x, w);
      ChainIsWalk(names, arcs, origin, s, x);
      ChainNodesVisited(names, arcs, origin, s, x);
      forall w' | IsWalk(arcs, w', origin, names[x])
        ensures WalkCost(arcs, Chain(names, arcs, origin, s, x)) <= WalkCost(arcs, w')
      {
        LabelIsLowerBound(names, arcs, origin, s, x, w');
      }
    } else if origin in names && s.pred[x] >= 0 {
      assert TreeArc(names, arcs, s, x);
      ChainIsWalk(names, arcs, origin, s, x);
    }
  }
}
