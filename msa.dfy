/**
 * run_MSA: the method of successive averages. Each iteration finds every OD pair's shortest
 * route on the current edge costs, adds it to the pair's route table if it is new, moves
 * every route flow a step 1/n towards the all-or-nothing assignment, rebuilds the edge flows
 * from the route flows and re-evaluates the edge costs.
 */
module Msa {
  import opened Common
  import opened Network
  import opened Walks
  import opened Labels
  import opened ShortestPath
  import opened Paths
  import opened Averaging
  import opened Evaluation

  /**
   * Why run_MSA raises: a destination that is not a node (dijkstra reads dest.prev of None),
   * no route to key (pathToStr indexes an empty edge list), or a zero total demand (the
   * division that gives UE).
   */
  datatype MsaError =
    | UnknownDestination(origin: string, destination: string)
    | NoRoute(origin: string, destination: string)
    | ZeroDemand

  /** What run_MSA returns: UE and the route table of every OD pair. */
  datatype Assignment = Assignment(ue: real, routes: seq<seq<Route>>)

  /** An OD pair's current shortest route (min_routes[od]): its key and its edges. */
  datatype Found = Found(key: string, edges: seq<Edge>)

  /** The error run_MSA raises when it cannot route od. */
  function RouteError(N: seq<Node>, od: Demand): MsaError
  {
    if od.destination in Names(N) then NoRoute(od.origin, od.destination)
    else UnknownDestination(od.origin, od.destination)
  }

  /** Both ends are nodes, they differ, and a walk cheaper than the sentinel joins them. */
  ghost predicate Routable(N: seq<Node>, arcs: seq<Arc>, od: Demand)
  {
    && od.origin in Names(N) && od.destination in Names(N) && od.origin != od.destination
    && HasCheapWalk(arcs, od.origin, od.destination)
  }

  /** ods[bad] is the first OD pair, in the order of ods, that cannot be routed on arcs. */
  ghost predicate FirstUnroutable(N: seq<Node>, arcs: seq<Arc>, ods: seq<Demand>, bad: int)
  {
    && 0 <= bad < |ods| && !Routable(N, arcs, ods[bad])
    && forall k :: 0 <= k < bad ==> Routable(N, arcs, ods[k])
  }

  /**
   * f is the route found along the shortest walk w for od: for each step of w, the first edge
   * of E joining its two nodes; its key is their names joined by " - ".
   */
  ghost predicate FoundAlong(arcs: seq<Arc>, E: seq<Edge>, od: Demand, f: Found, w: seq<int>)
  {
    && IsShortest(arcs, w, od.origin, od.destination)
    && HasCheapWalk(arcs, od.origin, od.destination)
    && f.edges != []
    && f.key == Concat(EdgeNames(f.edges))
    && var along := EdgesAlong(E, WalkNodes(arcs, w, od.origin));
       along.Success? && f.edges == EdgesAt(E, along.value)
  }

  ghost predicate ShortestFor(arcs: seq<Arc>, E: seq<Edge>, od: Demand, f: Found)
  {
    exists w :: FoundAlong(arcs, E, od, f, w)
  }

  /**
   * What getPathAsEdges and pathToStr make of the node list dijkstra returns: the edges along
   * the shortest walk when there is one, and none otherwise.
   */
  lemma RouteFromPath(N: seq<Node>, E: seq<Edge>, arcs: seq<Arc>, od: Demand, d: int, S: seq<Node>, walk: seq<int>)
    requires |arcs| == |E| && forall j :: 0 <= j < |E| ==> arcs[j].start == E[j].start && arcs[j].end == E[j].end
    requires 0 <= d < |N| && N[d].name == od.destination
    requires PathFound(N, arcs, od.origin, d, S, walk)
    ensures PathEdges(E, S).Success?
    ensures var edges := PathEdges(E, S).value;
      && (edges != [] ==> od.origin in Names(N) && FoundAlong(arcs, E, od, Found(Concat(EdgeNames(edges)), edges), walk))
      && (Routable(N, arcs, od) ==> edges != [])
      && (|S| == 1 ==> edges == [])
  {
    if |S| == 1 {
      AlongStep(E, Names(S), 0, []);
      assert Names(S)[..1] == Names(S);
    }
    if od.origin in Names(N) && HasCheapWalk(arcs, od.origin, od.destination) {
      assert Names(S) == WalkNodes(arcs, walk, od.origin);
      WalkHasEdges(E, arcs, walk, od.origin, od.destination);
    } else {
      assert Names(S) == [od.destination];
    }
  }

  /** One pass of the first inner loop: dijkstra, getPathAsEdges and pathToStr for one OD pair. */
  method ShortestRoute(N: seq<Node>, E: seq<Edge>, od: Demand, ghost arcs: seq<Arc>) returns (r: Result<Found, MsaError>)
    requires UniqueNames(N) && EndsAreNodes(N, E) && NonNegativeCosts(E)
    requires arcs == Arcs(E, [])
    modifies N`dist, N`prev, N`flag
    ensures arcs == Arcs(E, [])
    ensures r.Success? ==> ShortestFor(arcs, E, od, r.value)
    ensures r.Failure? ==> r.error == RouteError(N, od)
    ensures Routable(N, arcs, od) ==> r.Success?
    ensures r.Success? ==> od.origin in Names(N) && od.destination in Names(N)
    ensures od.origin == od.destination ==> r.Failure?
  {
    var S, labels, walk := Dijkstra(N, E, od.origin, od.destination, []);
    if S.None? {
      return Failure(UnknownDestination(od.origin, od.destination));
    }
    RouteFromPath(N, E, arcs, od, IndexOf(Names(N), od.destination), S.value, walk);
    var route := GetPathAsEdges(S.value, E);
    var key := PathToStr(EdgePath(route.value), E);
    if key.Failure? {
      return Failure(NoRoute(od.origin, od.destination));
    }
    r := Success(Found(key.value, route.value));
    assert FoundAlong(arcs, E, od, r.value, walk);
  }

  /** The route tables after the shortest routes mins are inserted, one per OD pair. */
  function Inserted(table: seq<seq<Route>>, mins: seq<Found>): seq<seq<Route>>
    requires |mins| == |table|
  {
    seq(|table|, i requires 0 <= i < |table| => Insert(table[i], mins[i].key, mins[i].edges))
  }

  /** The route tables after every route flow takes one averaging step of size phi. */
  function Blended(table: seq<seq<Route>>, mins: seq<Found>, ods: seq<Demand>, phi: real): seq<seq<Route>>
    requires |mins| == |table| == |ods|
  {
    seq(|table|, i requires 0 <= i < |table| => BlendRoutes(table[i], mins[i].key, ods[i].demand, phi))
  }

  /**
   * The first inner loop of an iteration: the shortest route of every OD pair on the current
   * costs, each inserted into its pair's table when its key is new. Edge flows and costs are
   * not touched, so every route is shortest on the same costs.
   */
  method FindRoutes(N: seq<Node>, E: seq<Edge>, ods: seq<Demand>, table: seq<seq<Route>>, ghost arcs: seq<Arc>)
    returns (r: Result<seq<Found>, MsaError>, table': seq<seq<Route>>, ghost bad: int)
    requires UniqueNames(N) && EndsAreNodes(N, E) && NonNegativeCosts(E)
    requires arcs == Arcs(E, []) && |table| == |ods|
    modifies N`dist, N`prev, N`flag
    ensures r.Success? ==> |r.value| == |ods| && forall i :: 0 <= i < |ods| ==> ShortestFor(arcs, E, ods[i], r.value[i])
    ensures r.Success? ==> table' == Inserted(table, r.value)
    ensures r.Failure? ==> FirstUnroutable(N, arcs, ods, bad) && r.error == RouteError(N, ods[bad])
  {
    bad := -1;
    var mins: seq<Found> := [];
    table' := table;
    for i := 0 to |ods|
      invariant arcs == Arcs(E, [])
      invariant |mins| == i && |table'| == |table|
      invariant forall k {:trigger ShortestFor(arcs, E, ods[k], mins[k])} :: 0 <= k < i ==> ShortestFor(arcs, E, ods[k], mins[k])
      invariant forall k {:trigger table'[k]} :: 0 <= k < i ==> table'[k] == Insert(table[k], mins[k].key, mins[k].edges)
      invariant forall k {:trigger table'[k]} :: i <= k < |table| ==> table'[k] == table[k]
      invariant forall k :: 0 <= k < i ==> Routable(N, arcs, ods[k])
    {
      var found := ShortestRoute(N, E, ods[i], arcs);
      if found.Failure? {
        return Failure(found.error), table', i;
      }
      RoutableSnoc(N, arcs, E, ods, i, found.value);
      ShortestSnoc(arcs, E, ods, mins, found.value);
      mins := mins + [found.value];
      table' := table'[i := Insert(table'[i], found.value.key, found.value.edges)];
    }
    r := Success(mins);
  }

  /** The OD pairs before i are routable, and so is pair i, for which a shortest route was found. */
  lemma RoutableSnoc(N: seq<Node>, arcs: seq<Arc>, E: seq<Edge>, ods: seq<Demand>, i: int, f: Found)
    requires 0 <= i < |ods| && forall k :: 0 <= k < i ==> Routable(N, arcs, ods[k])
    requires ods[i].origin in Names(N) && ods[i].destination in Names(N) && ods[i].origin != ods[i].destination
    requires ShortestFor(arcs, E, ods[i], f)
    ensures forall k :: 0 <= k < i + 1 ==> Routable(N, arcs, ods[k])
  {
    var w :| FoundAlong(arcs, E, ods[i], f, w);
  }

  /** The shortest routes of the first OD pairs, extended by that of the next one. */
  lemma ShortestSnoc(arcs: seq<Arc>, E: seq<Edge>, ods: seq<Demand>, mins: seq<Found>, f: Found)
    requires |mins| < |ods| && forall k {:trigger ShortestFor(arcs, E, ods[k], mins[k])} :: 0 <= k < |mins| ==> ShortestFor(arcs, E, ods[k], mins[k])
    requires ShortestFor(arcs, E, ods[|mins|], f)
    ensures forall k {:trigger ShortestFor(arcs, E, ods[k], (mins + [f])[k])} :: 0 <= k < |mins| + 1 ==> ShortestFor(arcs, E, ods[k], (mins + [f])[k])
  {
  }

  /** aux_flow = 0 on every edge. */
  method ClearAuxFlow(E: seq<Edge>)
    modifies E`auxFlow
    ensures forall j :: 0 <= j < |E| ==> E[j].auxFlow == 0.0
  {
    for i := 0 to |E|
      invariant forall j :: 0 <= j < i ==> E[j].auxFlow == 0.0
    {
      E[i].auxFlow := 0.0;
    }
  }

  /** e.aux_flow += vna for every edge e of a route. */
  method AddFlow(E: seq<Edge>, es: seq<Edge>, vna: real)
    requires forall m :: 0 <= m < |es| ==> es[m] in E
    modifies E`auxFlow
    ensures forall j :: 0 <= j < |E| ==> E[j].auxFlow == old(E[j].auxFlow) + EdgeLoad(es, E[j], vna)
  {
    for m := 0 to |es|
      invariant forall j :: 0 <= j < |E| ==> E[j].auxFlow == old(E[j].auxFlow) + EdgeLoad(es[..m], E[j], vna)
    {
      assert es[..m + 1][..m] == es[..m];
      es[m].auxFlow := es[m].auxFlow + vna;
    }
    assert es[..|es|] == es;
  }

  /**
   * The routes of one OD pair in the second inner loop: each route flow moves a step phi
   * towards the all-or-nothing flow, clamped at 0, and loads its route's edges.
   */
  method BlendPair(E: seq<Edge>, routes: seq<Route>, minKey: string, demand: real, phi: real)
    returns (rs: seq<Route>)
    requires forall k, m :: 0 <= k < |routes| && 0 <= m < |routes[k].edges| ==> routes[k].edges[m] in E
    modifies E`auxFlow
    ensures rs == BlendRoutes(routes, minKey, demand, phi)
    ensures forall j :: 0 <= j < |E| ==> E[j].auxFlow == old(E[j].auxFlow) + RoutesLoad(rs, E[j])
  {
    rs := [];
    for k := 0 to |routes|
      invariant |rs| == k
      invariant forall k' :: 0 <= k' < k ==> rs[k'] == BlendRoutes(routes, minKey, demand, phi)[k']
      invariant forall j :: 0 <= j < |E| ==> E[j].auxFlow == old(E[j].auxFlow) + RoutesLoad(rs, E[j])
    {
      var route := routes[k];
      var fa := 0.0;
      if route.key == minKey {
        fa := demand;
      }
      var vna := (1.0 - phi) * route.flow + phi * fa;
      if 0.0 > vna {
        vna := 0.0;
      }
      assert vna == Blend(phi, route.flow, Target(route, minKey, demand));
      AddFlow(E, route.edges, vna);
      assert route.(flow := vna) == BlendRoutes(routes, minKey, demand, phi)[k];
      assert (rs + [route.(flow := vna)])[..k] == rs;
      rs := rs + [route.(flow := vna)];
    }
  }

  /**
   * The second inner loop of an iteration: every route flow of every OD pair takes one
   * averaging step, and each edge's auxiliary flow becomes the load of the new route flows.
   */
  method Accumulate(E: seq<Edge>, ods: seq<Demand>, table: seq<seq<Route>>, mins: seq<Found>, phi: real)
    returns (table': seq<seq<Route>>)
    requires |table| == |ods| == |mins|
    requires RoutesIn(table, E)
    requires forall j :: 0 <= j < |E| ==> E[j].auxFlow == 0.0
    modifies E`auxFlow
    ensures table' == Blended(table, mins, ods, phi)
    ensures forall j :: 0 <= j < |E| ==> E[j].auxFlow == Load(table', E[j])
  {
    table' := [];
    for i := 0 to |table|
      invariant |table'| == i
      invariant forall i' :: 0 <= i' < i ==> table'[i'] == BlendRoutes(table[i'], mins[i'].key, ods[i'].demand, phi)
      invariant forall j :: 0 <= j < |E| ==> E[j].auxFlow == Load(table', E[j])
    {
      var rs := BlendPair(E, table[i], mins[i].key, ods[i].demand, phi);
      assert (table' + [rs])[..i] == table';
      table' := table' + [rs];
    }
  }

  /** The last loop of an iteration: flow = aux_flow and update_cost on every edge. */
  method CommitFlows(E: seq<Edge>)
    modifies E
    ensures forall j :: 0 <= j < |E| ==> E[j].flow == old(E[j].auxFlow) && E[j].auxFlow == old(E[j].auxFlow)
    ensures forall j :: 0 <= j < |E| ==> E[j].cost == E[j].CostAt(E[j].flow)
    ensures forall j, f :: 0 <= j < |E| ==> E[j].CostAt(f) == old(E[j].CostAt(f))
  {
    for i := 0 to |E|
      invariant forall j :: 0 <= j < |E| ==> E[j].auxFlow == old(E[j].auxFlow)
      invariant forall j :: 0 <= j < i ==> E[j].flow == E[j].auxFlow && E[j].cost == E[j].CostAt(E[j].flow)
      invariant forall j, f :: 0 <= j < |E| ==> E[j].CostAt(f) == old(E[j].CostAt(f))
    {
      E[i].flow := E[i].auxFlow;
      E[i].UpdateCost();
    }
  }

  /** Every edge of a route found for od is an edge of E. */
  lemma FoundIn(arcs: seq<Arc>, E: seq<Edge>, od: Demand, f: Found)
    requires ShortestFor(arcs, E, od, f)
    ensures forall m :: 0 <= m < |f.edges| ==> f.edges[m] in E
  {
    var w :| FoundAlong(arcs, E, od, f, w);
  }

  /** The keys of the shortest routes found for OD pair i, one per iteration. */
  function KeyHistory(rounds: seq<seq<Found>>, i: nat): (h: seq<string>)
    requires forall n :: 0 <= n < |rounds| ==> i < |rounds[n]|
    ensures |h| == |rounds|
  {
    seq(|rounds|, n requires 0 <= n < |rounds| => rounds[n][i].key)
  }

  /**
   * One iteration of run_MSA on the route tables: with phi = 1/n, the tables stay averaged
   * over the key histories extended by this iteration's shortest routes, their edges stay
   * in E and their flows stay non-negative.
   */
  lemma TableStep(E: seq<Edge>, ods: seq<Demand>, table: seq<seq<Route>>, rounds: seq<seq<Found>>, mins: seq<Found>, phi: real)
    requires |table| == |ods| == |mins|
    requires forall n :: 0 <= n < |rounds| ==> |rounds[n]| == |ods|
    requires StepSize(phi, |rounds| + 1)
    requires RoutesIn(table, E) && NonNegativeFlows(table)
    requires forall i, m :: 0 <= i < |mins| && 0 <= m < |mins[i].edges| ==> mins[i].edges[m] in E
    requires forall i :: 0 <= i < |ods| && ods[i].demand >= 0.0 ==> Averaged(table[i], KeyHistory(rounds, i), ods[i].demand)
    ensures var table' := Blended(Inserted(table, mins), mins, ods, phi);
      && RoutesIn(table', E) && NonNegativeFlows(table')
      && forall i :: 0 <= i < |ods| && ods[i].demand >= 0.0 ==> Averaged(table'[i], KeyHistory(rounds + [mins], i), ods[i].demand)
  {
    forall i | 0 <= i < |ods| && ods[i].demand >= 0.0
      ensures Averaged(Blended(Inserted(table, mins), mins, ods, phi)[i], KeyHistory(rounds + [mins], i), ods[i].demand)
    {
      PairAveragedStep(ods, table, rounds, mins, phi, i);
    }
    TableIn(E, ods, table, mins, phi);
  }

  /** The averaging step of the route table of OD pair i. */
  lemma PairAveragedStep(ods: seq<Demand>, table: seq<seq<Route>>, rounds: seq<seq<Found>>, mins: seq<Found>, phi: real, i: nat)
    requires |table| == |ods| == |mins| && i < |ods| && ods[i].demand >= 0.0
    requires forall n :: 0 <= n < |rounds| ==> |rounds[n]| == |ods|
    requires StepSize(phi, |rounds| + 1)
    requires Averaged(table[i], KeyHistory(rounds, i), ods[i].demand)
    ensures Averaged(Blended(Inserted(table, mins), mins, ods, phi)[i], KeyHistory(rounds + [mins], i), ods[i].demand)
  {
    assert KeyHistory(rounds + [mins], i) == KeyHistory(rounds, i) + [mins[i].key];
    AverageStep(table[i], KeyHistory(rounds, i), ods[i].demand, mins[i].key, mins[i].edges, phi);
  }

  /** Inserting routes on edges of E and blending keeps the routes on E and their flows non-negative. */
  lemma TableIn(E: seq<Edge>, ods: seq<Demand>, table: seq<seq<Route>>, mins: seq<Found>, phi: real)
    requires |table| == |ods| == |mins|
    requires RoutesIn(table, E)
    requires forall i, m :: 0 <= i < |mins| && 0 <= m < |mins[i].edges| ==> mins[i].edges[m] in E
    ensures RoutesIn(Blended(Inserted(table, mins), mins, ods, phi), E)
    ensures NonNegativeFlows(Blended(Inserted(table, mins), mins, ods, phi))
  {
    var table' := Blended(Inserted(table, mins), mins, ods, phi);
    forall i | 0 <= i < |ods|
      ensures RouteEdgesIn(table'[i], E)
    {
      assert RouteEdgesIn(table[i], E);
    }
  }

  /**
   * What run_MSA keeps true after the iterations whose shortest routes are rounds, each found
   * on the edge costs arcsSeen: one route table per OD pair, its routes on edges of E with
   * non-negative flows, and averaged over the pair's key history.
   */
  ghost predicate Progress(E: seq<Edge>, ods: seq<Demand>, table: seq<seq<Route>>, rounds: seq<seq<Found>>, arcsSeen: seq<seq<Arc>>)
  {
    && |table| == |ods| && |rounds| == |arcsSeen|
    && (forall n :: 0 <= n < |rounds| ==> |rounds[n]| == |ods|)
    && (forall n, i :: 0 <= n < |rounds| && 0 <= i < |ods| ==> ShortestFor(arcsSeen[n], E, ods[i], rounds[n][i]))
    && RoutesIn(table, E) && NonNegativeFlows(table)
    && forall i :: 0 <= i < |ods| && ods[i].demand >= 0.0 ==> Averaged(table[i], KeyHistory(rounds, i), ods[i].demand)
  }

  lemma ProgressInitially(E: seq<Edge>, ods: seq<Demand>)
    ensures Progress(E, ods, seq(|ods|, i => []), [], [])
  {
    forall i | 0 <= i < |ods| && ods[i].demand >= 0.0
      ensures Averaged([], KeyHistory([], i), ods[i].demand)
    {
      AveragedInitially(ods[i].demand);
    }
  }

  /** Iteration n, with shortest routes mins found on the costs arcs, keeps the progress. */
  lemma ProgressStep(E: seq<Edge>, ods: seq<Demand>, table: seq<seq<Route>>, rounds: seq<seq<Found>>, arcsSeen: seq<seq<Arc>>,
                     mins: seq<Found>, arcs: seq<Arc>)
    requires Progress(E, ods, table, rounds, arcsSeen)
    requires |mins| == |ods| && forall i :: 0 <= i < |ods| ==> ShortestFor(arcs, E, ods[i], mins[i])
    ensures var n := |rounds| + 1;
      Progress(E, ods, Blended(Inserted(table, mins), mins, ods, 1.0 / n as real), rounds + [mins], arcsSeen + [arcs])
  {
    var n := |rounds| + 1;
    forall i | 0 <= i < |ods|
      ensures forall m :: 0 <= m < |mins[i].edges| ==> mins[i].edges[m] in E
    {
      FoundIn(arcs, E, ods[i], mins[i]);
    }
    StepSizeOf(n);
    TableStep(E, ods, table, rounds, mins, 1.0 / n as real);
  }

  /** Inserting the shortest routes found keeps every route of the table on edges of E. */
  lemma InsertedIn(arcs: seq<Arc>, E: seq<Edge>, ods: seq<Demand>, table: seq<seq<Route>>, mins: seq<Found>)
    requires |table| == |ods| == |mins| && RoutesIn(table, E)
    requires forall i :: 0 <= i < |ods| ==> ShortestFor(arcs, E, ods[i], mins[i])
    ensures RoutesIn(Inserted(table, mins), E)
  {
    var inserted := Inserted(table, mins);
    forall i | 0 <= i < |ods|
      ensures RouteEdgesIn(inserted[i], E)
    {
      FoundIn(arcs, E, ods[i], mins[i]);
      assert RouteEdgesIn(table[i], E);
    }
  }

  /**
   * The route tables after the rounds of shortest routes: one empty table per OD pair at
   * first, then for round n (counting from 1) the new keys inserted and every flow averaged
   * with phi = 1/n.
   */
  function TableAfter(ods: seq<Demand>, rounds: seq<seq<Found>>): (t: seq<seq<Route>>)
    requires forall n :: 0 <= n < |rounds| ==> |rounds[n]| == |ods|
    ensures |t| == |ods|
  {
    if rounds == [] then seq(|ods|, i => [])
    else
      var n := |rounds|;
      Blended(Inserted(TableAfter(ods, rounds[..n - 1]), rounds[n - 1]), rounds[n - 1], ods, 1.0 / n as real)
  }

  /**
   * tables[k] is the route table after the first k rounds: empty at first, and each round's
   * shortest routes inserted and blended with phi = 1/(k + 1).
   */
  ghost predicate Chained(ods: seq<Demand>, tables: seq<seq<seq<Route>>>, rounds: seq<seq<Found>>)
  {
    && |tables| == |rounds| + 1 && tables[0] == seq(|ods|, i => [])
    && (forall k :: 0 <= k < |rounds| ==> |rounds[k]| == |ods|)
    && (forall k :: 0 <= k < |tables| ==> |tables[k]| == |ods|)
    && forall k :: 0 <= k < |rounds| ==>
         tables[k + 1] == Blended(Inserted(tables[k], rounds[k]), rounds[k], ods, 1.0 / (k + 1) as real)
  }

  /** A chained history holds exactly the tables TableAfter gives for the rounds so far. */
  lemma {:induction false} ChainedTableAfter(ods: seq<Demand>, tables: seq<seq<seq<Route>>>, rounds: seq<seq<Found>>, k: nat)
    requires Chained(ods, tables, rounds) && k <= |rounds|
    ensures tables[k] == TableAfter(ods, rounds[..k])
  {
    if k > 0 {
      ChainedTableAfter(ods, tables, rounds, k - 1);
      assert rounds[..k][..k - 1] == rounds[..k - 1];
    }
  }

  /** One more round extends the history by the blended table. */
  lemma ChainedSnoc(ods: seq<Demand>, tables: seq<seq<seq<Route>>>, rounds: seq<seq<Found>>, mins: seq<Found>)
    requires Chained(ods, tables, rounds) && |mins| == |ods|
    ensures var n := |rounds| + 1;
      Chained(ods, tables + [Blended(Inserted(tables[|rounds|], mins), mins, ods, 1.0 / n as real)], rounds + [mins])
  {
    var n := |rounds| + 1;
    var tables' := tables + [Blended(Inserted(tables[|rounds|], mins), mins, ods, 1.0 / n as real)];
    var rounds' := rounds + [mins];
    forall k | 0 <= k < |rounds'|
      ensures tables'[k + 1] == Blended(Inserted(tables'[k], rounds'[k]), rounds'[k], ods, 1.0 / (k + 1) as real)
    {
      if k < |rounds| {
        assert tables'[k + 1] == tables[k + 1] && tables'[k] == tables[k] && rounds'[k] == rounds[k];
      }
    }
  }

  /**
   * arcs are what the search sees when every edge carries the flow the route table puts on
   * it, and its cost is its cost function at that flow.
   */
  ghost predicate PricedBy(E: seq<Edge>, arcs: seq<Arc>, table: seq<seq<Route>>)
    reads E
  {
    && |arcs| == |E|
    && forall j :: 0 <= j < |E| ==> arcs[j] == Arc(E[j].start, E[j].end, E[j].CostAt(Load(table, E[j])), false)
  }

  /** Every round after the first routed on the costs the table left by the rounds before it puts on the edges. */
  ghost predicate Priced(E: seq<Edge>, tables: seq<seq<seq<Route>>>, arcsSeen: seq<seq<Arc>>)
    reads E
  {
    && |arcsSeen| <= |tables|
    && forall k :: 0 < k < |arcsSeen| ==> PricedBy(E, arcsSeen[k], tables[k])
  }

  /** The costs a round starts from, once its arcs are recorded. */
  lemma PricedSnoc(E: seq<Edge>, tables: seq<seq<seq<Route>>>, arcsSeen: seq<seq<Arc>>, arcs: seq<Arc>)
    requires Priced(E, tables, arcsSeen) && |arcsSeen| < |tables|
    requires |arcsSeen| > 0 ==> PricedBy(E, arcs, tables[|arcsSeen|])
    ensures Priced(E, tables, arcsSeen + [arcs])
  {
    var arcsSeen' := arcsSeen + [arcs];
    forall k | 0 < k < |arcsSeen'|
      ensures PricedBy(E, arcsSeen'[k], tables[k])
    {
      if k < |arcsSeen| {
        assert arcsSeen'[k] == arcsSeen[k];
      }
    }
  }

  /** Recording one more table keeps the costs of the rounds already seen. */
  lemma PricedGrow(E: seq<Edge>, tables: seq<seq<seq<Route>>>, arcsSeen: seq<seq<Arc>>, table: seq<seq<Route>>)
    requires Priced(E, tables, arcsSeen)
    ensures Priced(E, tables + [table], arcsSeen)
  {
    var tables' := tables + [table];
    forall k | 0 < k < |arcsSeen|
      ensures PricedBy(E, arcsSeen[k], tables'[k])
    {
      assert tables'[k] == tables[k];
    }
  }

  /**
   * One iteration of run_MSA, n counting from 1: clear the auxiliary flows, route every OD
   * pair on the costs the edges have now (arcs), average the route flows with phi = 1/n and
   * rebuild the edge flows and costs from them.
   */
  method Iteration(n: nat, N: seq<Node>, E: seq<Edge>, ods: seq<Demand>, table: seq<seq<Route>>)
    returns (r: Result<seq<Found>, MsaError>, table': seq<seq<Route>>, ghost arcs: seq<Arc>, ghost bad: int)
    requires n >= 1 && |table| == |ods|
    requires UniqueNames(N) && EndsAreNodes(N, E) && NonNegativeCosts(E) && RoutesIn(table, E)
    modifies N`dist, N`prev, N`flag, E
    ensures arcs == old(Arcs(E, []))
    ensures forall j, f :: 0 <= j < |E| ==> E[j].CostAt(f) == old(E[j].CostAt(f))
    ensures r.Success? ==> |r.value| == |ods| && forall i :: 0 <= i < |ods| ==> ShortestFor(arcs, E, ods[i], r.value[i])
    ensures r.Success? ==> table' == Blended(Inserted(table, r.value), r.value, ods, 1.0 / n as real)
    ensures r.Success? ==> forall j :: 0 <= j < |E| ==> E[j].flow == Load(table', E[j]) && E[j].cost == E[j].CostAt(E[j].flow)
    ensures r.Failure? ==> FirstUnroutable(N, arcs, ods, bad) && r.error == RouteError(N, ods[bad])
  {
    var phi := 1.0 / n as real;
    ClearAuxFlow(E);
    arcs := Arcs(E, []);
    var found, inserted;
    found, inserted, bad := FindRoutes(N, E, ods, table, arcs);
    if found.Failure? {
      return found, table, arcs, bad;
    }
    r := found;
    InsertedIn(arcs, E, ods, table, r.value);
    table' := Accumulate(E, ods, inserted, r.value, phi);
    CommitFlows(E);
  }

  /**
   * Iteration n of run_MSA with its record: the costs arcs it routes on are those the table
   * before it put on the edges, and on success the route table it leaves extends the history
   * of tables and keeps the progress.
   */
  method Round(n: nat, N: seq<Node>, E: seq<Edge>, ods: seq<Demand>, table: seq<seq<Route>>,
               ghost rounds: seq<seq<Found>>, ghost arcsSeen: seq<seq<Arc>>, ghost tables: seq<seq<seq<Route>>>)
    returns (r: Result<seq<Found>, MsaError>, table': seq<seq<Route>>, ghost arcs: seq<Arc>, ghost bad: int)
    requires n >= 1 && |rounds| == n - 1 && Progress(E, ods, table, rounds, arcsSeen)
    requires Chained(ods, tables, rounds) && table == tables[n - 1] && Priced(E, tables, arcsSeen)
    requires UniqueNames(N) && EndsAreNodes(N, E) && NonNegativeCosts(E) && NonNegativeCostFunctions(E)
    requires n > 1 ==> forall j :: 0 <= j < |E| ==> E[j].flow == Load(table, E[j]) && E[j].cost == E[j].CostAt(E[j].flow)
    modifies N`dist, N`prev, N`flag, E
    ensures arcs == old(Arcs(E, []))
    ensures forall j, f :: 0 <= j < |E| ==> E[j].CostAt(f) == old(E[j].CostAt(f))
    ensures NonNegativeCostFunctions(E) && Priced(E, tables, arcsSeen + [arcs])
    ensures r.Failure? ==> FirstUnroutable(N, arcs, ods, bad) && r.error == RouteError(N, ods[bad])
    ensures r.Success? ==> |r.value| == |ods| && Progress(E, ods, table', rounds + [r.value], arcsSeen + [arcs])
    ensures r.Success? ==> Chained(ods, tables + [table'], rounds + [r.value]) && Priced(E, tables + [table'], arcsSeen + [arcs])
    ensures r.Success? ==> NonNegativeCosts(E)
    ensures r.Success? ==> forall j :: 0 <= j < |E| ==> E[j].flow == Load(table', E[j]) && E[j].cost == E[j].CostAt(E[j].flow)
  {
    r, table', arcs, bad := Iteration(n, N, E, ods, table);
    forall k, j | 0 < k < |arcsSeen| && 0 <= j < |E|
      ensures arcsSeen[k][j] == Arc(E[j].start, E[j].end, E[j].CostAt(Load(tables[k], E[j])), false)
    {
      assert old(PricedBy(E, arcsSeen[k], tables[k]));
      var f := Load(tables[k], E[j]);
      assert E[j].CostAt(f) == old(E[j].CostAt(f));
    }
    if n > 1 {
      forall j | 0 <= j < |E|
        ensures arcs[j] == Arc(E[j].start, E[j].end, E[j].CostAt(Load(table, E[j])), false)
      {
        var f := Load(table, E[j]);
        assert E[j].CostAt(f) == old(E[j].CostAt(f));
      }
    }
    PricedSnoc(E, tables, arcsSeen, arcs);
    if r.Failure? {
      return;
    }
    PricedGrow(E, tables, arcsSeen + [arcs], table');
    ChainedSnoc(ods, tables, rounds, r.value);
    ProgressStep(E, ods, table, rounds, arcsSeen, r.value, arcs);
    forall j | 0 <= j < |E|
      ensures E[j].cost >= 0.0
    {
      LoadNonNegative(table', E[j]);
    }
  }

  /**
   * The iterations of run_MSA. Iteration n routes every OD pair on the costs the edges have
   * at its start (arcsSeen[n]) and records the shortest routes (rounds[n]); tables[n] is the
   * route table before it, averaged over the rounds before it.
   */
  method Iterate(its: nat, N: seq<Node>, E: seq<Edge>, ods: seq<Demand>)
    returns (r: Result<seq<seq<Route>>, MsaError>, ghost rounds: seq<seq<Found>>, ghost arcsSeen: seq<seq<Arc>>,
             ghost tables: seq<seq<seq<Route>>>, ghost bad: int)
    requires UniqueNames(N) && EndsAreNodes(N, E)
    requires NonNegativeCosts(E) && NonNegativeCostFunctions(E)
    modifies N`dist, N`prev, N`flag, E
    ensures |rounds| <= |arcsSeen| && forall n :: 0 <= n < |rounds| ==> |rounds[n]| == |ods|
    ensures forall n, i :: 0 <= n < |rounds| && 0 <= i < |ods| ==> ShortestFor(arcsSeen[n], E, ods[i], rounds[n][i])
    ensures forall j, f :: 0 <= j < |E| ==> E[j].CostAt(f) == old(E[j].CostAt(f))
    ensures r.Success? ==> |rounds| == its && Progress(E, ods, r.value, rounds, arcsSeen)
    ensures Chained(ods, tables, rounds) && (r.Success? ==> r.value == tables[|rounds|])
    ensures |arcsSeen| > 0 ==> arcsSeen[0] == old(Arcs(E, []))
    ensures Priced(E, tables, arcsSeen)
    ensures r.Success? && its > 0 ==> forall j :: 0 <= j < |E| ==>
      E[j].flow == Load(r.value, E[j]) && E[j].cost == E[j].CostAt(E[j].flow)
    ensures r.Failure? ==> |arcsSeen| == |rounds| + 1 && r.error != ZeroDemand
    ensures r.Failure? ==> FirstUnroutable(N, arcsSeen[|rounds|], ods, bad) && r.error == RouteError(N, ods[bad])
  {
    var table: seq<seq<Route>> := seq(|ods|, i => []);
    rounds, arcsSeen, tables, bad := [], [], [table], -1;
    ghost var start := Arcs(E, []);
    ProgressInitially(E, ods);
    for n := 1 to its + 1
      invariant |rounds| == n - 1 && Progress(E, ods, table, rounds, arcsSeen)
      invariant Chained(ods, tables, rounds) && table == tables[n - 1]
      invariant n == 1 ==> Arcs(E, []) == start
      invariant |arcsSeen| > 0 ==> arcsSeen[0] == start
      invariant Priced(E, tables, arcsSeen)
      invariant NonNegativeCosts(E) && NonNegativeCostFunctions(E)
      invariant forall j, f :: 0 <= j < |E| ==> E[j].CostAt(f) == old(E[j].CostAt(f))
      invariant n > 1 ==> forall j :: 0 <= j < |E| ==> E[j].flow == Load(table, E[j]) && E[j].cost == E[j].CostAt(E[j].flow)
    {
      var found, table';
      ghost var arcs;
      found, table', arcs, bad := Round(n, N, E, ods, table, rounds, arcsSeen, tables);
      if found.Failure? {
        arcsSeen := arcsSeen + [arcs];
        return Failure(found.error), rounds, arcsSeen, tables, bad;
      }
      table, rounds, arcsSeen, tables := table', rounds + [found.value], arcsSeen + [arcs], tables + [table'];
    }
    r := Success(table);
  }

  /**
   * run_MSA: its iterations of the method of successive averages, then the evaluation of the
   * final assignment, whose user-equilibrium measure it returns with the route table.
   */
  method RunMSA(its: nat, N: seq<Node>, E: seq<Edge>, ods: seq<Demand>)
    returns (r: Result<Assignment, MsaError>, ghost rounds: seq<seq<Found>>, ghost arcsSeen: seq<seq<Arc>>,
             ghost tables: seq<seq<seq<Route>>>, ghost bad: int)
    requires UniqueNames(N) && EndsAreNodes(N, E)
    requires NonNegativeCosts(E) && NonNegativeCostFunctions(E)
    modifies N`dist, N`prev, N`flag, E
    ensures |rounds| <= |arcsSeen| && forall n :: 0 <= n < |rounds| ==> |rounds[n]| == |ods|
    ensures forall n, i :: 0 <= n < |rounds| && 0 <= i < |ods| ==> ShortestFor(arcsSeen[n], E, ods[i], rounds[n][i])
    ensures forall j, f :: 0 <= j < |E| ==> E[j].CostAt(f) == old(E[j].CostAt(f))
    ensures Chained(ods, tables, rounds) && Priced(E, tables, arcsSeen)
    ensures |arcsSeen| > 0 ==> arcsSeen[0] == old(Arcs(E, []))
    ensures r.Success? ==> |rounds| == |arcsSeen| == its && r.value.routes == tables[its] == TableAfter(ods, rounds)
    ensures r.Success? ==> |r.value.routes| == |ods| && RoutesIn(r.value.routes, E) && NonNegativeFlows(r.value.routes)
    ensures r.Success? ==> TotalDemand(ods) != 0.0 && r.value.ue == TravelTime(PricesOf(E), r.value.routes) / TotalDemand(ods)
    ensures r.Success? ==> forall i :: 0 <= i < |ods| && ods[i].demand >= 0.0 ==>
      Averaged(r.value.routes[i], KeyHistory(rounds, i), ods[i].demand)
    ensures r.Success? && its > 0 ==> forall i :: 0 <= i < |ods| && ods[i].demand >= 0.0 ==>
      SumFlows(r.value.routes[i]) == ods[i].demand
    ensures r.Success? && its > 0 ==> forall j :: 0 <= j < |E| ==>
      E[j].flow == Load(r.value.routes, E[j]) && E[j].cost == E[j].CostAt(E[j].flow)
    ensures r.Failure? && r.error == ZeroDemand ==> |rounds| == its && TotalDemand(ods) == 0.0
    ensures r.Failure? && r.error != ZeroDemand ==> |arcsSeen| == |rounds| + 1
    ensures r.Failure? && r.error != ZeroDemand ==>
      FirstUnroutable(N, arcsSeen[|rounds|], ods, bad) && r.error == RouteError(N, ods[bad])
  {
    var iterated;
    iterated, rounds, arcsSeen, tables, bad := Iterate(its, N, E, ods);
    if iterated.Failure? {
      return Failure(iterated.error), rounds, arcsSeen, tables, bad;
    }
    var table := iterated.value;
    ChainedTableAfter(ods, tables, rounds, its);
    assert rounds[..its] == rounds;
    if its > 0 {
      forall i | 0 <= i < |ods| && ods[i].demand >= 0.0
        ensures SumFlows(table[i]) == ods[i].demand
      {
        FlowsSumToDemand(table[i], KeyHistory(rounds, i), ods[i].demand);
      }
    }
    var metrics := EvaluateAssignment(ods, table, E);
    if metrics.Failure? {
      return Failure(ZeroDemand), rounds, arcsSeen, tables, bad;
    }
    r := Success(Assignment(metrics.value.ue, table));
  }
}
