/**
 * Walks in a snapshot of the edge list: what a shortest-path search sees of each edge
 * (its end names, its cached cost, whether the search ignores it).
 */
module Walks {
  import opened Network

  datatype Arc = Arc(start: string, end: string, cost: real, ignored: bool)

  /** w lists arc indices that chain from origin to destination, avoiding ignored arcs. */
  ghost predicate IsWalk(arcs: seq<Arc>, w: seq<int>, origin: string, destination: string)
  {
    && (forall k :: 0 <= k < |w| ==> 0 <= w[k] < |arcs| && !arcs[w[k]].ignored)
    && (if w == [] then origin == destination
        else arcs[w[0]].start == origin && arcs[w[|w| - 1]].end == destination)
    && (forall k :: 0 <= k < |w| - 1 ==> arcs[w[k]].end == arcs[w[k + 1]].start)
  }

  function WalkCost(arcs: seq<Arc>, w: seq<int>): real
    requires forall k :: 0 <= k < |w| ==> 0 <= w[k] < |arcs|
  {
    if w == [] then 0.0 else WalkCost(arcs, w[..|w| - 1]) + arcs[w[|w| - 1]].cost
  }

  /** The names of the nodes a walk visits, starting with origin. */
  function WalkNodes(arcs: seq<Arc>, w: seq<int>, origin: string): (nodes: seq<string>)
    requires forall k :: 0 <= k < |w| ==> 0 <= w[k] < |arcs|
    ensures |nodes| == |w| + 1 && nodes[0] == origin
    ensures forall k :: 0 <= k < |w| ==> nodes[k + 1] == arcs[w[k]].end
  {
    if w == [] then [origin] else WalkNodes(arcs, w[..|w| - 1], origin) + [arcs[w[|w| - 1]].end]
  }

  ghost predicate IsShortest(arcs: seq<Arc>, w: seq<int>, origin: string, destination: string)
  {
    && IsWalk(arcs, w, origin, destination)
    && forall w' :: IsWalk(arcs, w', origin, destination) ==> WalkCost(arcs, w) <= WalkCost(arcs, w')
  }

  /** Some walk is cheaper than the search's "infinite" distance. */
  ghost predicate HasCheapWalk(arcs: seq<Arc>, origin: string, destination: string)
  {
    exists w :: IsWalk(arcs, w, origin, destination) && WalkCost(arcs, w) < Sentinel
  }

  /** A walk's nodes are joined, in order, by the walk's arcs. */
  lemma WalkNodesJoined(arcs: seq<Arc>, w: seq<int>, origin: string, destination: string)
    requires IsWalk(arcs, w, origin, destination)
    ensures var nodes := WalkNodes(arcs, w, origin);
      && nodes[|w|] == destination
      && forall k :: 0 <= k < |w| ==> arcs[w[k]].start == nodes[k] && arcs[w[k]].end == nodes[k + 1]
  {
    var nodes := WalkNodes(arcs, w, origin);
    forall k | 0 <= k < |w| ensures arcs[w[k]].start == nodes[k] {
      if k > 0 {
        assert arcs[w[k - 1]].end == arcs[w[k]].start;
      }
    }
  }

  /** Extending a walk by an arc leaving its end gives a walk. */
  lemma WalkExtend(arcs: seq<Arc>, w: seq<int>, origin: string, x: string, a: int)
    requires IsWalk(arcs, w, origin, x)
    requires 0 <= a < |arcs| && !arcs[a].ignored && arcs[a].start == x
    ensures IsWalk(arcs, w + [a], origin, arcs[a].end)
    ensures WalkCost(arcs, w + [a]) == WalkCost(arcs, w) + arcs[a].cost
  {
    var w' := w + [a];
    assert forall k :: 0 <= k < |w| ==> w'[k] == w[k];
    if w != [] {
      assert arcs[w'[|w| - 1]].end == x;
    }
    WalkCostSnoc(arcs, w, a);
  }

  /** A walk's cost grows by the cost of each arc added to it. */
  lemma WalkCostSnoc(arcs: seq<Arc>, w: seq<int>, a: int)
    requires forall k :: 0 <= k < |w| ==> 0 <= w[k] < |arcs|
    requires 0 <= a < |arcs|
    ensures WalkCost(arcs, w + [a]) == WalkCost(arcs, w) + arcs[a].cost
  {
    assert (w + [a])[..|w|] == w;
  }

  /** Dropping a walk's last arc leaves a walk to that arc's start. */
  lemma WalkFront(arcs: seq<Arc>, w: seq<int>, origin: string, destination: string)
    requires IsWalk(arcs, w, origin, destination) && w != []
    ensures IsWalk(arcs, w[..|w| - 1], origin, arcs[w[|w| - 1]].start)
  {
    if |w| > 1 {
      assert arcs[w[|w| - 2]].end == arcs[w[|w| - 1]].start;
    }
  }
}
