/**
 * resetGraph, pickSmallestNode, pickEdgesList and dijkstra of successive_averages.py on
 * the Node and Edge objects, each step proved to follow the label-setting search of
 * module Labels.
 */
module ShortestPath {
  import opened Common
  import opened Network
  import opened Walks
  import opened Labels

  /** What the search sees of the edge list: ends, cached costs, and which edges it ignores. */
  function Arcs(E: seq<Edge>, ignored: seq<Edge>): (arcs: seq<Arc>)
    reads E
    ensures |arcs| == |E|
    ensures forall j :: 0 <= j < |E| ==> arcs[j] == Arc(E[j].start, E[j].end, E[j].cost, E[j] in ignored)
  {
    seq(|E|, j requires 0 <= j < |E| reads E => Arc(E[j].start, E[j].end, E[j].cost, E[j] in ignored))
  }

  /** The node objects hold the labels s: dist, flag (1 once settled) and prev (the predecessor's object). */
  ghost predicate Mirrors(N: seq<Node>, s: Search)
    reads N
  {
    && Sized(|N|, s)
    && (forall i :: 0 <= i < |N| ==> N[i].dist == s.dist[i] && N[i].flag == (if s.settled[i] then 1 else 0))
    && (forall i :: 0 <= i < |N| ==> PrevMirrors(N, s, i))
  }

  ghost predicate PrevMirrors(N: seq<Node>, s: Search, i: int)
    reads N
    requires |s.pred| == |N| && 0 <= i < |N|
  {
    if 0 <= s.pred[i] < |N| then N[i].prev == N[s.pred[i]] else N[i].prev == null
  }

  lemma GraphIsGood(N: seq<Node>, E: seq<Edge>, ignored: seq<Edge>)
    requires UniqueNames(N) && EndsAreNodes(N, E) && NonNegativeCosts(E)
    ensures GoodGraph(Names(N), Arcs(E, ignored))
  {
  }

  /** Distinct names make distinct node objects. */
  lemma NodeIndex(N: seq<Node>, i: int, j: int)
    requires UniqueNames(N) && 0 <= i < |N| && 0 <= j < |N| && N[i] == N[j]
    ensures i == j
  {
  }

  /** Every node gets the sentinel distance, no predecessor and a cleared flag. */
  method ResetGraph(N: seq<Node>)
    modifies N`dist, N`prev, N`flag
    ensures forall i :: 0 <= i < |N| ==> N[i].dist == Sentinel && N[i].prev == null && N[i].flag == 0
  {
    for i := 0 to |N|
      invariant forall k :: 0 <= k < i ==> N[k].dist == Sentinel && N[k].prev == null && N[k].flag == 0
    {
      N[i].dist := Sentinel;
      N[i].prev := null;
      N[i].flag := 0;
    }
  }

  /**
   * The unflagged node of least distance, the earliest one on a tie, or null when every
   * node is flagged. m is its position in N.
   */
  method PickSmallestNode(N: seq<Node>) returns (minNode: Node?, ghost m: int)
    ensures minNode == null <==> forall i :: 0 <= i < |N| ==> N[i].flag != 0
    ensures minNode != null ==> 0 <= m < |N| && minNode == N[m] && N[m].flag == 0
    ensures minNode != null ==> forall j :: 0 <= j < |N| && N[j].flag == 0 ==> N[m].dist <= N[j].dist
    ensures minNode != null ==> forall j :: 0 <= j < m && N[j].flag == 0 ==> N[m].dist < N[j].dist
  {
    minNode, m := null, -1;
    for i := 0 to |N|
      invariant minNode == null
      invariant forall k :: 0 <= k < i ==> N[k].flag != 0
    {
      if N[i].flag == 0 {
        minNode, m := N[i], i;
        break;
      }
    }
    if minNode == null {
      return;
    }
    for i := 0 to |N|
      invariant 0 <= m < |N| && minNode == N[m] && N[m].flag == 0
      invariant forall j :: 0 <= j < i && N[j].flag == 0 ==> N[m].dist <= N[j].dist
      invariant forall j :: 0 <= j < m && N[j].flag == 0 ==> N[m].dist < N[j].dist
    {
      if N[i].flag == 0 && N[i].dist < minNode.dist {
        minNode, m := N[i], i;
      }
    }
  }

  /** The positions in E of the edges that start at the node named x, in increasing order. */
  function OutIndices(E: seq<Edge>, x: string): (js: seq<int>)
    ensures forall k :: 0 <= k < |js| ==> 0 <= js[k] < |E| && E[js[k]].start == x
    ensures forall j :: 0 <= j < |E| && E[j].start == x ==> j in js
    ensures forall k, l :: 0 <= k < l < |js| ==> js[k] < js[l]
  {
    if E == [] then []
    else
      var js := OutIndices(E[..|E| - 1], x);
      if E[|E| - 1].start == x then js + [|E| - 1] else js
  }

  /** The edges leaving u, in the order of E. */
  method PickEdgesList(u: Node, E: seq<Edge>) returns (uv: seq<Edge>)
    ensures |uv| == |OutIndices(E, u.name)|
    ensures forall k :: 0 <= k < |uv| ==> uv[k] == E[OutIndices(E, u.name)[k]]
  {
    uv := [];
    for j := 0 to |E|
      invariant |uv| == |OutIndices(E[..j], u.name)|
      invariant forall k :: 0 <= k < |uv| ==> uv[k] == E[OutIndices(E[..j], u.name)[k]]
    {
      assert E[..j + 1][..j] == E[..j];
      if E[j].start == u.name {
        uv := uv + [E[j]];
      }
    }
    assert E[..|E|] == E;
  }

  /** The first node named name, or null when there is none. */
  method FindNode(N: seq<Node>, name: string) returns (n: Node?, ghost v: int)
    ensures n == null <==> forall i :: 0 <= i < |N| ==> N[i].name != name
    ensures n != null ==> 0 <= v < |N| && n == N[v] && N[v].name == name
    ensures n != null ==> forall j :: 0 <= j < v ==> N[j].name != name
  {
    n, v := null, -1;
    for i := 0 to |N|
      invariant n == null
      invariant forall k :: 0 <= k < i ==> N[k].name != name
    {
      if N[i].name == name {
        n, v := N[i], i;
        break;
      }
    }
  }

  /** The elements of a sequence of positions. */
  ghost function Elems(xs: seq<int>): set<int>
  {
    if xs == [] then {} else {xs[0]} + Elems(xs[1..])
  }

  lemma {:induction false} ElemsContains(xs: seq<int>, x: int)
    ensures x in Elems(xs) <==> x in xs
  {
    if xs != [] {
      ElemsContains(xs[1..], x);
    }
  }

  /** The out-arcs of the node named x are the positions OutIndices lists. */
  lemma OutSetIndices(arcs: seq<Arc>, E: seq<Edge>, x: string)
    requires |arcs| == |E| && forall j :: 0 <= j < |E| ==> arcs[j].start == E[j].start
    ensures OutSet(arcs, x) == Elems(OutIndices(E, x))
  {
    var js := OutIndices(E, x);
    forall a ensures a in OutSet(arcs, x) <==> a in Elems(js) {
      ElemsContains(js, a);
    }
  }

  /** Arcs still waiting to be relaxed may only be fewer. */
  lemma PendingShrinks(names: seq<string>, arcs: seq<Arc>, origin: string, s: Search, pending: set<int>, pending': set<int>)
    requires SearchInv(names, arcs, origin, s, pending) && pending <= pending'
    ensures SearchInv(names, arcs, origin, s, pending')
  {
  }

  /**
   * One step of the inner loop of dijkstra: an edge of u that is not ignored improves its
   * end node's distance and predecessor when the way through u is strictly shorter.
   */
  method RelaxEdge(N: seq<Node>, ignored: seq<Edge>, u: Node, edge: Edge,
                   ghost names: seq<string>, ghost arcs: seq<Arc>, ghost origin: string, ghost s: Search,
                   ghost pending: set<int>, ghost ui: int, ghost a: int)
    returns (ghost s': Search)
    requires UniqueNames(N) && names == Names(N) && GoodGraph(names, arcs)
    requires 0 <= ui < |N| && u == N[ui]
    requires Mirrors(N, s) && SearchInv(names, arcs, origin, s, pending)
    requires s.settled[ui] && s.dist[ui] == s.frontier
    requires a in pending && 0 <= a < |arcs| && edge.start == u.name
    requires arcs[a] == Arc(edge.start, edge.end, edge.cost, edge in ignored)
    modifies N`dist, N`prev
    ensures Mirrors(N, s') && SearchInv(names, arcs, origin, s', pending - {a})
    ensures s'.settled == s.settled && s'.rank == s.rank && s'.count == s.count && s'.frontier == s.frontier
    ensures s'.dist[ui] == s.dist[ui]
    ensures edge in ignored ==> s' == s
    ensures forall i :: 0 <= i < |N| && (edge in ignored || N[i].name != edge.end) ==>
      N[i].dist == old(N[i].dist) && N[i].prev == old(N[i].prev)
    ensures edge !in ignored ==> var v := IndexOf(names, edge.end);
      && 0 <= v < |N|
      && (old(N[v].dist) > old(u.dist) + edge.cost ==> N[v].dist == old(u.dist) + edge.cost && N[v].prev == u)
      && (old(N[v].dist) <= old(u.dist) + edge.cost ==> N[v].dist == old(N[v].dist) && N[v].prev == old(N[v].prev))
  {
    s' := s;
    if edge in ignored {
      SkipInv(names, arcs, origin, s, pending, ui, a);
      return;
    }
    var n, v := FindNode(N, edge.end);
    assert edge.end in names;
    IndexOfUnique(names, v);
    assert IndexOf(names, edge.end) == v;
    s' := Relax(N, u, n, edge.cost, names, arcs, origin, s, pending, ui, a, v);
    forall i | 0 <= i < |N| && N[i].name != edge.end
      ensures N[i].dist == old(N[i].dist) && N[i].prev == old(N[i].prev)
    {
      assert N[i] != n;
    }
  }

  /** The comparison and update of dijkstra's relaxation, for the arc a from u to n. */
  method Relax(N: seq<Node>, u: Node, n: Node, cost: real,
               ghost names: seq<string>, ghost arcs: seq<Arc>, ghost origin: string, ghost s: Search,
               ghost pending: set<int>, ghost ui: int, ghost a: int, ghost v: int)
    returns (ghost s': Search)
    requires UniqueNames(N) && names == Names(N) && GoodGraph(names, arcs)
    requires 0 <= ui < |N| && u == N[ui] && 0 <= v < |N| && n == N[v]
    requires Mirrors(N, s) && SearchInv(names, arcs, origin, s, pending)
    requires s.settled[ui] && s.dist[ui] == s.frontier
    requires a in pending && 0 <= a < |arcs| && arcs[a].start == u.name && !arcs[a].ignored
    requires arcs[a].cost == cost && v == IndexOf(names, arcs[a].end)
    modifies n`dist, n`prev
    ensures Mirrors(N, s') && SearchInv(names, arcs, origin, s', pending - {a})
    ensures s'.settled == s.settled && s'.rank == s.rank && s'.count == s.count && s'.frontier == s.frontier
    ensures s'.dist[ui] == s.dist[ui]
    ensures old(n.dist) > old(u.dist) + cost ==>
      n.dist == old(u.dist) + cost && n.prev == u && s' == Improve(s, ui, v, a, s.dist[ui] + cost)
    ensures old(n.dist) <= old(u.dist) + cost ==> n.dist == old(n.dist) && n.prev == old(n.prev) && s' == s
  {
    assert u.dist == s.dist[ui] && n.dist == s.dist[v];
    if n.dist > u.dist + cost {
      s' := Lower(N, u, n, cost, names, arcs, origin, s, pending, ui, a, v);
    } else {
      s' := s;
      SkipInv(names, arcs, origin, s, pending, ui, a);
    }
  }

  /** The improving case of the relaxation: n takes the distance through u, and u as its predecessor. */
  method Lower(N: seq<Node>, u: Node, n: Node, cost: real,
               ghost names: seq<string>, ghost arcs: seq<Arc>, ghost origin: string, ghost s: Search,
               ghost pending: set<int>, ghost ui: int, ghost a: int, ghost v: int)
    returns (ghost s': Search)
    requires UniqueNames(N) && names == Names(N) && GoodGraph(names, arcs)
    requires 0 <= ui < |N| && u == N[ui] && 0 <= v < |N| && n == N[v]
    requires Mirrors(N, s) && SearchInv(names, arcs, origin, s, pending)
    requires s.settled[ui] && s.dist[ui] == s.frontier
    requires a in pending && 0 <= a < |arcs| && arcs[a].start == u.name && !arcs[a].ignored
    requires arcs[a].cost == cost && v == IndexOf(names, arcs[a].end)
    requires n.dist > u.dist + cost
    modifies n`dist, n`prev
    ensures v != ui && s' == Improve(s, ui, v, a, s.dist[ui] + cost)
    ensures Mirrors(N, s') && SearchInv(names, arcs, origin, s', pending - {a})
    ensures n.dist == old(u.dist) + cost && n.prev == u
  {
    ghost var e := s.dist[ui] + cost;
    assert names[ui] == u.name && s.dist[v] > e;
    ImproveInv(names, arcs, origin, s, pending, ui, a, v, e);
    SetLabel(N, n, u.dist + cost, u, s, v, ui, a, e);
    s' := Improve(s, ui, v, a, s.dist[ui] + cost);
  }

  /** Writing a node's distance and predecessor moves the mirrored labels to s'. */
  method SetLabel(N: seq<Node>, n: Node, d: real, p: Node, ghost s: Search, ghost v: int, ghost pi: int, ghost a: int, ghost e: real)
    requires UniqueNames(N) && Mirrors(N, s)
    requires 0 <= v < |N| && n == N[v] && 0 <= pi < |N| && p == N[pi] && d == e
    modifies n`dist, n`prev
    ensures n.dist == d && n.prev == p && Mirrors(N, Improve(s, pi, v, a, e))
  {
    n.dist := d;
    n.prev := p;
    ghost var s' := Improve(s, pi, v, a, e);
    forall i | 0 <= i < |N|
      ensures N[i].dist == s'.dist[i] && N[i].flag == (if s'.settled[i] then 1 else 0)
      ensures PrevMirrors(N, s', i)
    {
      if N[i] == n {
        NodeIndex(N, i, v);
      } else {
        assert old(PrevMirrors(N, s, i));
      }
    }
  }

  /** The inner loop of dijkstra: every edge leaving u is relaxed in turn. */
  method RelaxEdges(N: seq<Node>, ignored: seq<Edge>, u: Node, uv: seq<Edge>,
                    ghost names: seq<string>, ghost arcs: seq<Arc>, ghost origin: string, ghost s0: Search, ghost ui: int,
                    ghost js: seq<int>)
    returns (ghost s: Search)
    requires UniqueNames(N) && names == Names(N) && GoodGraph(names, arcs)
    requires 0 <= ui < |N| && u == N[ui]
    requires Mirrors(N, s0) && SearchInv(names, arcs, origin, s0, Elems(js))
    requires s0.settled[ui] && s0.dist[ui] == s0.frontier
    requires |uv| == |js|
    requires forall l :: 0 <= l < |uv| ==> 0 <= js[l] < |arcs| && uv[l].start == u.name
    requires forall l :: 0 <= l < |uv| ==> arcs[js[l]] == Arc(uv[l].start, uv[l].end, uv[l].cost, uv[l] in ignored)
    modifies N`dist, N`prev
    ensures Mirrors(N, s) && SearchInv(names, arcs, origin, s, {})
    ensures s.settled == s0.settled && s.rank == s0.rank && s.count == s0.count && s.frontier == s0.frontier
  {
    s := s0;
    assert js[0..] == js;
    for k := 0 to |uv|
      invariant Mirrors(N, s)
      invariant SearchInv(names, arcs, origin, s, Elems(js[k..]))
      invariant s.settled == s0.settled && s.rank == s0.rank && s.count == s0.count && s.frontier == s0.frontier
      invariant s.dist[ui] == s0.dist[ui]
      invariant forall l :: k <= l < |uv| ==> arcs[js[l]].cost == uv[l].cost
    {
      ghost var pending := Elems(js[k..]);
      assert js[k..][1..] == js[k + 1..];
      s := RelaxEdge(N, ignored, u, uv[k], names, arcs, origin, s, pending, ui, js[k]);
      PendingShrinks(names, arcs, origin, s, pending - {js[k]}, Elems(js[k + 1..]));
    }
  }

  /** Arcs are determined by the edges' ends, costs and membership in ignored. */
  lemma ArcsAgain(E: seq<Edge>, ignored: seq<Edge>, arcs: seq<Arc>)
    requires |arcs| == |E|
    requires forall j :: 0 <= j < |E| ==> arcs[j] == Arc(E[j].start, E[j].end, E[j].cost, E[j] in ignored)
    ensures Arcs(E, ignored) == arcs
  {
  }

  /** The arcs of the edges pickEdgesList returns. */
  lemma ArcsAtOut(E: seq<Edge>, ignored: seq<Edge>, arcs: seq<Arc>, x: string, uv: seq<Edge>, js: seq<int>)
    requires |arcs| == |E| && forall j :: 0 <= j < |E| ==> arcs[j] == Arc(E[j].start, E[j].end, E[j].cost, E[j] in ignored)
    requires js == OutIndices(E, x) && |uv| == |js| && forall k :: 0 <= k < |uv| ==> uv[k] == E[js[k]]
    ensures forall l :: 0 <= l < |uv| ==> 0 <= js[l] < |arcs| && uv[l].start == x
    ensures forall l :: 0 <= l < |uv| ==> arcs[js[l]] == Arc(uv[l].start, uv[l].end, uv[l].cost, uv[l] in ignored)
  {
  }

  /** Flagging u settles it. */
  method SetFlag(N: seq<Node>, u: Node, ghost s: Search, ghost ui: int)
    requires UniqueNames(N) && Mirrors(N, s) && 0 <= ui < |N| && u == N[ui]
    modifies u`flag
    ensures Mirrors(N, Settle(s, ui))
  {
    u.flag := 1;
    ghost var s' := Settle(s, ui);
    forall i | 0 <= i < |N|
      ensures N[i].dist == s'.dist[i] && N[i].flag == (if s'.settled[i] then 1 else 0)
      ensures PrevMirrors(N, s', i)
    {
      assert old(PrevMirrors(N, s, i));
      if N[i] == u {
        NodeIndex(N, i, ui);
      }
    }
  }

  /**
   * One pass of dijkstra's main loop: u is flagged, then every edge leaving it is relaxed.
   * The labels change from s to s', with u settled.
   */
  method Visit(N: seq<Node>, E: seq<Edge>, ignored: seq<Edge>, u: Node,
               ghost names: seq<string>, ghost arcs: seq<Arc>, ghost origin: string, ghost s: Search, ghost ui: int)
    returns (ghost s': Search)
    requires UniqueNames(N) && names == Names(N) && GoodGraph(names, arcs)
    requires |arcs| == |E| && forall j :: 0 <= j < |E| ==> arcs[j] == Arc(E[j].start, E[j].end, E[j].cost, E[j] in ignored)
    requires Mirrors(N, s) && SearchInv(names, arcs, origin, s, {})
    requires 0 <= ui < |N| && u == N[ui] && !s.settled[ui]
    requires forall j :: 0 <= j < |N| && !s.settled[j] ==> s.dist[ui] <= s.dist[j]
    modifies N`dist, N`prev, N`flag
    ensures Mirrors(N, s') && SearchInv(names, arcs, origin, s', {})
    ensures s'.settled == s.settled[ui := true]
  {
    SetFlag(N, u, s, ui);
    SettleInv(names, arcs, origin, s, ui);
    s' := Settle(s, ui);
    var uv := PickEdgesList(u, E);
    ghost var js := OutIndices(E, u.name);
    OutSetIndices(arcs, E, u.name);
    ArcsAtOut(E, ignored, arcs, u.name, uv, js);
    s' := RelaxEdges(N, ignored, u, uv, names, arcs, origin, s', ui, js);
  }

  /**
   * The first loop of dijkstra after resetGraph: the origin's distance becomes 0 and dest
   * is the node named destination, or null when no node has that name.
   */
  method StartSearch(N: seq<Node>, origin: string, destination: string) returns (dest: Node?, ghost d: int)
    requires UniqueNames(N)
    requires forall i :: 0 <= i < |N| ==> N[i].dist == Sentinel && N[i].prev == null && N[i].flag == 0
    modifies N`dist
    ensures Mirrors(N, Initial(Names(N), origin))
    ensures dest == null <==> forall i :: 0 <= i < |N| ==> N[i].name != destination
    ensures dest != null ==> 0 <= d < |N| && dest == N[d] && N[d].name == destination
  {
    dest, d := null, -1;
    for i := 0 to |N|
      invariant forall k :: 0 <= k < |N| ==> N[k].prev == null && N[k].flag == 0
      invariant forall k :: 0 <= k < |N| ==> N[k].dist == if k < i && N[k].name == origin then 0.0 else Sentinel
      invariant dest == null ==> forall k :: 0 <= k < i ==> N[k].name != destination
      invariant dest != null ==> 0 <= d < i && dest == N[d] && N[d].name == destination
    {
      if N[i].name == origin {
        N[i].dist := 0.0;
      }
      if N[i].name == destination {
        dest, d := N[i], i;
      }
    }
  }

  /**
   * What dijkstra returns for a destination that is the node N[d]: when some walk from
   * the origin is cheaper than the sentinel, the nodes of a shortest walk, origin first;
   * otherwise the destination alone.
   */
  ghost predicate PathFound(N: seq<Node>, arcs: seq<Arc>, origin: string, d: int, S: seq<Node>, walk: seq<int>)
    requires 0 <= d < |N|
  {
    && |S| >= 1 && S[|S| - 1] == N[d]
    && (forall k :: 0 <= k < |S| ==> S[k] in N)
    && if origin in Names(N) && HasCheapWalk(arcs, origin, N[d].name) then
         && IsShortest(arcs, walk, origin, N[d].name)
         && |S| == |walk| + 1
         && (forall k :: 0 <= k < |S| ==> S[k].name == WalkNodes(arcs, walk, origin)[k])
       else S == [N[d]]
  }

  /** The traced chain at a stop on the destination is what dijkstra promises. */
  lemma TraceOutcome(N: seq<Node>, arcs: seq<Arc>, origin: string, s: Search, d: int, S: seq<Node>)
    requires GoodGraph(Names(N), arcs) && SearchInv(Names(N), arcs, origin, s, {})
    requires 0 <= d < |N| && Stopped(Names(N), s, d)
    requires |S| == |ChainNodes(Names(N), arcs, origin, s, d)|
    requires forall k :: 0 <= k < |S| ==> S[k] == N[ChainNodes(Names(N), arcs, origin, s, d)[k]]
    ensures PathFound(N, arcs, origin, d, S, Chain(Names(N), arcs, origin, s, d))
    ensures origin in Names(N) && HasCheapWalk(arcs, origin, N[d].name) ==>
      s.dist[d] == WalkCost(arcs, Chain(Names(N), arcs, origin, s, d))
    ensures N[d].name == origin ==> S == [N[d]]
  {
    var names := Names(N);
    StopOutcome(names, arcs, origin, s, d);
    if origin in names && HasCheapWalk(arcs, origin, names[d]) {
      ChainIsWalk(names, arcs, origin, s, d);
      ChainNodesVisited(names, arcs, origin, s, d);
    }
  }

  /** S lists the nodes at the indices T; putting N[x] in front of S matches putting x in front of T. */
  lemma Prepend(N: seq<Node>, S: seq<Node>, T: seq<int>, x: int)
    requires 0 <= x < |N| && |S| == |T| && forall k :: 0 <= k < |T| ==> 0 <= T[k] < |N| && S[k] == N[T[k]]
    ensures forall k :: 0 <= k < |T| + 1 ==> 0 <= ([x] + T)[k] < |N| && ([N[x]] + S)[k] == N[([x] + T)[k]]
  {
  }

  /**
   * The final loop of dijkstra: following prev from dest back to a node without one,
   * inserting each node at the front, gives the nodes of the predecessor chain.
   */
  method TracePath(N: seq<Node>, dest: Node, ghost names: seq<string>, ghost arcs: seq<Arc>, ghost origin: string,
                   ghost s: Search, ghost d: int)
    returns (S: seq<Node>)
    requires names == Names(N) && Mirrors(N, s) && Shape(names, s) && Tree(names, arcs, s)
    requires 0 <= d < |N| && dest == N[d]
    ensures |S| == |ChainNodes(names, arcs, origin, s, d)|
    ensures forall k :: 0 <= k < |S| ==> S[k] == N[ChainNodes(names, arcs, origin, s, d)[k]]
  {
    S := [];
    var x := dest;
    ghost var xi := d;
    ghost var T: seq<int> := [];
    while x.prev != null
      invariant 0 <= xi < |N| && x == N[xi]
      invariant ChainNodes(names, arcs, origin, s, d) == ChainNodes(names, arcs, origin, s, xi) + T
      invariant |S| == |T| && forall k :: 0 <= k < |T| ==> 0 <= T[k] < |N| && S[k] == N[T[k]]
      decreases if s.settled[xi] then s.rank[xi] else s.count
    {
      assert PrevMirrors(N, s, xi);
      assert TreeArc(names, arcs, s, xi);
      Prepend(N, S, T, xi);
      S := [x] + S;
      T := [xi] + T;
      x := x.prev;
      xi := s.pred[xi];
    }
    assert PrevMirrors(N, s, xi);
    Prepend(N, S, T, xi);
    S := [x] + S;
    T := [xi] + T;
  }

  /** What pickSmallestNode returns, read through the labels. */
  lemma Picked(N: seq<Node>, s: Search, u: Node?, ui: int)
    requires Mirrors(N, s)
    requires u == null <==> forall i :: 0 <= i < |N| ==> N[i].flag != 0
    requires u != null ==> 0 <= ui < |N| && u == N[ui] && N[ui].flag == 0
    requires u != null ==> forall j :: 0 <= j < |N| && N[j].flag == 0 ==> N[ui].dist <= N[j].dist
    ensures u == null ==> forall i :: 0 <= i < |N| ==> s.settled[i]
    ensures u != null ==> 0 <= ui < |N| && u == N[ui] && !s.settled[ui]
    ensures u != null ==> forall j :: 0 <= j < |N| && !s.settled[j] ==> s.dist[ui] <= s.dist[j]
  {
  }

  /** Settling the unsettled node ui takes it off the nodes still to settle. */
  lemma TodoStep(todo: set<int>, settled: seq<bool>, n: nat, ui: int)
    requires |settled| == n && 0 <= ui < n && !settled[ui]
    requires forall i :: 0 <= i < n ==> (i in todo <==> !settled[i])
    ensures forall i :: 0 <= i < n ==> (i in todo - {ui} <==> !settled[ui := true][i])
    ensures |todo - {ui}| < |todo|
  {
  }

  /**
   * The main loop of dijkstra: settle the closest unflagged node u and relax its edges,
   * until no node is left unflagged or the next node to settle is dest.
   */
  method SearchLoop(N: seq<Node>, E: seq<Edge>, ignored: seq<Edge>, dest: Node?, u0: Node?,
                    ghost names: seq<string>, ghost arcs: seq<Arc>, ghost origin: string, ghost s0: Search, ghost ui0: int)
    returns (u: Node?, ghost s: Search, ghost ui: int)
    requires UniqueNames(N) && names == Names(N) && GoodGraph(names, arcs)
    requires |arcs| == |E| && forall j :: 0 <= j < |E| ==> arcs[j] == Arc(E[j].start, E[j].end, E[j].cost, E[j] in ignored)
    requires Mirrors(N, s0) && SearchInv(names, arcs, origin, s0, {})
    requires u0 == null ==> forall i :: 0 <= i < |N| ==> s0.settled[i]
    requires u0 != null ==> 0 <= ui0 < |N| && u0 == N[ui0] && !s0.settled[ui0]
    requires u0 != null ==> forall j :: 0 <= j < |N| && !s0.settled[j] ==> s0.dist[ui0] <= s0.dist[j]
    modifies N`dist, N`prev, N`flag
    ensures Mirrors(N, s) && SearchInv(names, arcs, origin, s, {})
    ensures u == null ==> forall i :: 0 <= i < |N| ==> s.settled[i]
    ensures u != null ==> u == dest && 0 <= ui < |N| && u == N[ui] && !s.settled[ui]
    ensures u != null ==> forall j :: 0 <= j < |N| && !s.settled[j] ==> s.dist[ui] <= s.dist[j]
  {
    u, s, ui := u0, s0, ui0;
    ghost var todo := set i | 0 <= i < |N| && !s.settled[i];
    while u != null
      invariant Mirrors(N, s) && SearchInv(names, arcs, origin, s, {})
      invariant forall i :: 0 <= i < |N| ==> (i in todo <==> !s.settled[i])
      invariant u != null ==> 0 <= ui < |N| && u == N[ui] && !s.settled[ui]
      invariant u != null ==> forall j :: 0 <= j < |N| && !s.settled[j] ==> s.dist[ui] <= s.dist[j]
      invariant u == null ==> forall i :: 0 <= i < |N| ==> s.settled[i]
      decreases |todo|
    {
      ghost var settled := s.settled;
      s := Visit(N, E, ignored, u, names, arcs, origin, s, ui);
      TodoStep(todo, settled, |N|, ui);
      todo := todo - {ui};
      u, ui := PickSmallestNode(N);
      Picked(N, s, u, ui);
      if u == dest {
        break;
      }
    }
  }

  /** The start of dijkstra: reset the graph, give the origin distance 0 and find the destination's node. */
  method Prepare(N: seq<Node>, E: seq<Edge>, origin: string, destination: string, ignored: seq<Edge>,
                 ghost names: seq<string>, ghost arcs: seq<Arc>)
    returns (dest: Node?, ghost d: int)
    requires UniqueNames(N) && EndsAreNodes(N, E) && NonNegativeCosts(E)
    requires names == Names(N) && arcs == Arcs(E, ignored)
    modifies N`dist, N`prev, N`flag
    ensures GoodGraph(names, arcs) && Mirrors(N, Initial(names, origin)) && SearchInv(names, arcs, origin, Initial(names, origin), {})
    ensures dest == null <==> destination !in names
    ensures dest != null ==> 0 <= d < |N| && dest == N[d] && names[d] == destination
  {
    GraphIsGood(N, E, ignored);
    ResetGraph(N);
    dest, d := StartSearch(N, origin, destination);
    InitialInv(names, arcs, origin);
  }

  /**
   * The labelling phase of dijkstra: settle nodes until every one is settled or the next one
   * to settle is the destination's node dest.
   */
  method Explore(N: seq<Node>, E: seq<Edge>, origin: string, destination: string, ignored: seq<Edge>,
                 ghost names: seq<string>, ghost arcs: seq<Arc>)
    returns (dest: Node?, ghost d: int, ghost s: Search)
    requires UniqueNames(N) && EndsAreNodes(N, E) && NonNegativeCosts(E)
    requires names == Names(N) && arcs == Arcs(E, ignored)
    modifies N`dist, N`prev, N`flag
    ensures GoodGraph(names, arcs) && Mirrors(N, s) && SearchInv(names, arcs, origin, s, {})
    ensures dest == null <==> destination !in names
    ensures dest != null ==> 0 <= d < |N| && dest == N[d] && names[d] == destination && Stopped(names, s, d)
  {
    dest, d := Prepare(N, E, origin, destination, ignored, names, arcs);
    ghost var s0 := Initial(names, origin);
    var u0, ui0 := PickSmallestNode(N);
    Picked(N, s0, u0, ui0);
    var u;
    ghost var ui;
    u, s, ui := SearchLoop(N, E, ignored, dest, u0, names, arcs, origin, s0, ui0);
    if u != null && dest != null {
      NodeIndex(N, ui, d);
    }
  }

  /**
   * dijkstra: labels every node with its distance from the origin, stopping once the
   * destination is the closest unsettled node, and returns the predecessor chain of the
   * destination. None stands for the failure of a destination that is not a node.
   */
  method Dijkstra(N: seq<Node>, E: seq<Edge>, origin: string, destination: string, ignored: seq<Edge>)
    returns (r: Option<seq<Node>>, ghost labels: Search, ghost walk: seq<int>)
    requires UniqueNames(N) && EndsAreNodes(N, E) && NonNegativeCosts(E)
    modifies N`dist, N`prev, N`flag
    ensures Arcs(E, ignored) == old(Arcs(E, ignored))
    ensures Mirrors(N, labels) && SearchInv(Names(N), old(Arcs(E, ignored)), origin, labels, {})
    ensures r.None? <==> destination !in Names(N)
    ensures r.Some? ==>
      var d := IndexOf(Names(N), destination);
      && 0 <= d < |N|
      && PathFound(N, old(Arcs(E, ignored)), origin, d, r.value, walk)
      && (origin in Names(N) && HasCheapWalk(old(Arcs(E, ignored)), origin, destination) ==>
            N[d].dist == WalkCost(old(Arcs(E, ignored)), walk))
      && (origin == destination ==> r.value == [N[d]])
  {
    ghost var names := Names(N);
    ghost var arcs := Arcs(E, ignored);
    var dest, d, s := Explore(N, E, origin, destination, ignored, names, arcs);
    labels := s;
    if dest == null {
      r, walk := None, [];
      return;
    }
    IndexOfUnique(names, d);
    var S := TracePath(N, dest, names, arcs, origin, s, d);
    walk := Chain(names, arcs, origin, s, d);
    TraceOutcome(N, arcs, origin, s, d, S);
    r := Some(S);
  }
}
