/**
 * The route table run_MSA keeps for one OD pair, as values: the routes found so far in the
 * order they were first found, each with its edges and its current flow; the averaging step
 * that blends route flows with the all-or-nothing flow; and the edge loads the flows add up to.
 */
module Averaging {
  import opened Network

  /** An entry of the OD matrix: origin and destination node names and the demand between them. */
  datatype Demand = Demand(origin: string, destination: string, demand: real)

  /** A route of an OD pair: its key (edge names joined by " - "), its edges and its flow. */
  datatype Route = Route(key: string, edges: seq<Edge>, flow: real)

  function Keys(rs: seq<Route>): (keys: seq<string>)
    ensures |keys| == |rs| && forall k :: 0 <= k < |rs| ==> keys[k] == rs[k].key
  {
    seq(|rs|, k requires 0 <= k < |rs| => rs[k].key)
  }

  /**
   * The route table after a shortest route is found: a key not yet present enters last,
   * with flow 0; a key already present leaves the table as it was.
   */
  function Insert(rs: seq<Route>, key: string, edges: seq<Edge>): (r: seq<Route>)
    ensures |rs| <= |r| <= |rs| + 1 && r[..|rs|] == rs
    ensures key in Keys(r)
    ensures |r| == |rs| + 1 <==> key !in Keys(rs)
    ensures |r| == |rs| + 1 ==> r[|rs|] == Route(key, edges, 0.0)
  {
    if key in Keys(rs) then rs
    else
      var r := rs + [Route(key, edges, 0.0)];
      assert Keys(r)[|rs|] == key;
      r
  }

  /** max((1 - phi) * v + phi * fa, 0): the flow of a route after one averaging step. */
  function Blend(phi: real, v: real, fa: real): real
  {
    var x := (1.0 - phi) * v + phi * fa;
    if 0.0 > x then 0.0 else x
  }

  /** The all-or-nothing flow of a route: the whole demand on the current shortest route. */
  function Target(r: Route, minKey: string, demand: real): real
  {
    if r.key == minKey then demand else 0.0
  }

  /** Every route's flow after one averaging step of size phi towards the all-or-nothing flow. */
  function BlendRoutes(rs: seq<Route>, minKey: string, demand: real, phi: real): seq<Route>
  {
    seq(|rs|, k requires 0 <= k < |rs| => rs[k].(flow := Blend(phi, rs[k].flow, Target(rs[k], minKey, demand))))
  }

  /** How many times key occurs in the history h of shortest-route keys. */
  function Hits(h: seq<string>, key: string): (n: nat)
    ensures n == 0 <==> key !in h
  {
    if h == [] then 0 else Hits(h[..|h| - 1], key) + (if h[|h| - 1] == key then 1 else 0)
  }

  /** The distinct keys of h, in the order of their first occurrence. */
  function FirstSeen(h: seq<string>): (keys: seq<string>)
    ensures forall x :: x in keys <==> x in h
    ensures forall a, b :: 0 <= a < b < |keys| ==> keys[a] != keys[b]
  {
    if h == [] then []
    else
      var keys := FirstSeen(h[..|h| - 1]);
      if h[|h| - 1] in keys then keys else keys + [h[|h| - 1]]
  }

  /**
   * The routes of an OD pair after the iterations whose shortest-route keys are h: one route
   * per distinct key, in order of discovery, each carrying demand * hits / iterations.
   */
  predicate Averaged(rs: seq<Route>, h: seq<string>, demand: real)
  {
    && Keys(rs) == FirstSeen(h)
    && forall k :: 0 <= k < |rs| ==> RouteAveraged(rs[k], h, demand)
  }

  /** The flow of route r is demand * hits / iterations, its share over the iterations h. */
  predicate RouteAveraged(r: Route, h: seq<string>, demand: real)
  {
    IsShare(r.flow, demand, Hits(h, r.key) as real, |h| as real)
  }

  /** flow is the share hits/n of demand, written without division: flow * n == demand * hits. */
  predicate IsShare(flow: real, demand: real, hits: real, n: real)
  {
    flow * n == demand * hits
  }

  /** Before the first iteration the table of an OD pair is empty. */
  lemma AveragedInitially(demand: real)
    ensures Averaged([], [], demand)
  {
  }

  /** phi is 1/n, written without division. */
  predicate StepSize(phi: real, n: nat)
  {
    phi * (n as real) == 1.0
  }

  lemma StepSizeOf(n: nat)
    requires n >= 1
    ensures StepSize(1.0 / (n as real), n)
  {
  }

  /** One averaging step with phi = 1/n turns the share of the first n-1 iterations into that of n. */
  lemma BlendStep(phi: real, f: real, demand: real, hits: nat, n: nat, hit: bool)
    requires n >= 1 && demand >= 0.0 && StepSize(phi, n)
    requires IsShare(f, demand, hits as real, (n - 1) as real)
    ensures IsShare(Blend(phi, f, if hit then demand else 0.0), demand, (hits + if hit then 1 else 0) as real, n as real)
  {
    var m := n as real;
    var fa := if hit then demand else 0.0;
    var x := (1.0 - phi) * f + phi * fa;
    calc {
      x * m;
      f * m - f * (phi * m) + fa * (phi * m);
      f * (m - 1.0) + fa;
    }
    assert x * m >= 0.0;
  }

  /** A key not yet in the history hits once more exactly when it is the newest key. */
  lemma HitsSnoc(h: seq<string>, x: string, key: string)
    ensures Hits(h + [x], key) == Hits(h, key) + (if x == key then 1 else 0)
  {
    assert (h + [x])[..|h|] == h;
  }

  lemma FirstSeenSnoc(h: seq<string>, x: string)
    ensures FirstSeen(h + [x]) == if x in FirstSeen(h) then FirstSeen(h) else FirstSeen(h) + [x]
  {
    assert (h + [x])[..|h|] == h;
  }

  /**
   * The keys of an OD pair's routes are the distinct shortest-route keys found so far, in
   * the order they were first found; inserting and blending keeps that true.
   */
  lemma KeysStep(rs: seq<Route>, h: seq<string>, key: string, edges: seq<Edge>, demand: real, phi: real)
    requires Keys(rs) == FirstSeen(h)
    ensures Keys(BlendRoutes(Insert(rs, key, edges), key, demand, phi)) == FirstSeen(h + [key])
  {
    FirstSeenSnoc(h, key);
    BlendKeepsKeys(Insert(rs, key, edges), key, demand, phi);
    InsertKeys(rs, key, edges);
  }

  lemma BlendKeepsKeys(rs: seq<Route>, minKey: string, demand: real, phi: real)
    ensures Keys(BlendRoutes(rs, minKey, demand, phi)) == Keys(rs)
  {
    assert forall k :: 0 <= k < |rs| ==> BlendRoutes(rs, minKey, demand, phi)[k].key == rs[k].key;
  }

  lemma InsertKeys(rs: seq<Route>, key: string, edges: seq<Edge>)
    ensures Keys(Insert(rs, key, edges)) == if key in Keys(rs) then Keys(rs) else Keys(rs) + [key]
  {
  }

  /**
   * One run_MSA iteration keeps the table averaged: insert the new shortest route, then blend
   * every route with step 1/n, and each flow is the demand's share over one more iteration.
   */
  lemma AverageStep(rs: seq<Route>, h: seq<string>, demand: real, key: string, edges: seq<Edge>, phi: real)
    requires Averaged(rs, h, demand) && demand >= 0.0
    requires StepSize(phi, |h| + 1)
    ensures Averaged(BlendRoutes(Insert(rs, key, edges), key, demand, phi), h + [key], demand)
  {
    var rs1 := Insert(rs, key, edges);
    KeysStep(rs, h, key, edges, demand, phi);
    forall k | 0 <= k < |rs1|
      ensures RouteAveraged(rs1[k], h, demand)
    {
      if k == |rs| {
        assert Hits(h, key) == 0;
      }
    }
    forall k | 0 <= k < |rs1|
      ensures RouteAveraged(BlendRoutes(rs1, key, demand, phi)[k], h + [key], demand)
    {
      RouteStep(rs1[k], h, key, demand, phi);
    }
  }

  /** The averaging step of one route of an OD pair. */
  lemma RouteStep(r: Route, h: seq<string>, key: string, demand: real, phi: real)
    requires demand >= 0.0 && StepSize(phi, |h| + 1)
    requires RouteAveraged(r, h, demand)
    ensures RouteAveraged(r.(flow := Blend(phi, r.flow, Target(r, key, demand))), h + [key], demand)
  {
    BlendStep(phi, r.flow, demand, Hits(h, r.key), |h| + 1, r.key == key);
    HitsSnoc(h, key, r.key);
  }

  /** Every route flow is a non-negative share of a non-negative demand. */
  lemma AveragedNonNegative(rs: seq<Route>, h: seq<string>, demand: real)
    requires Averaged(rs, h, demand) && |h| > 0 && demand >= 0.0
    ensures forall k :: 0 <= k < |rs| ==> rs[k].flow >= 0.0
  {
    forall k | 0 <= k < |rs| ensures rs[k].flow >= 0.0 {
      Sign(rs[k].flow, |h| as real, demand, Hits(h, rs[k].key) as real);
    }
  }

  lemma Sign(f: real, m: real, d: real, x: real)
    requires m > 0.0 && d >= 0.0 && x >= 0.0 && IsShare(f, d, x, m)
    ensures f >= 0.0
  {
    assert d * x >= 0.0;
  }

  function SumFlows(rs: seq<Route>): real
  {
    if rs == [] then 0.0 else SumFlows(rs[..|rs| - 1]) + rs[|rs| - 1].flow
  }

  /** The hits of the keys of rs, added up. */
  function SumHits(h: seq<string>, rs: seq<Route>): nat
  {
    if rs == [] then 0 else SumHits(h, rs[..|rs| - 1]) + Hits(h, rs[|rs| - 1].key)
  }

  /** How many routes of rs have key x. */
  function Occurrences(rs: seq<Route>, x: string): nat
  {
    if rs == [] then 0 else Occurrences(rs[..|rs| - 1], x) + (if rs[|rs| - 1].key == x then 1 else 0)
  }

  lemma {:induction false} OccurrencesOnce(rs: seq<Route>, x: string)
    requires forall a, b :: 0 <= a < b < |rs| ==> rs[a].key != rs[b].key
    ensures Occurrences(rs, x) == if x in Keys(rs) then 1 else 0
  {
    if rs != [] {
      var front := rs[..|rs| - 1];
      OccurrencesOnce(front, x);
      if x in Keys(front) {
        var a :| 0 <= a < |front| && Keys(front)[a] == x;
        assert rs[a].key == x;
      }
      assert Keys(rs) == Keys(front) + [rs[|rs| - 1].key];
    }
  }

  lemma {:induction false} SumHitsSnoc(h: seq<string>, x: string, rs: seq<Route>)
    ensures SumHits(h + [x], rs) == SumHits(h, rs) + Occurrences(rs, x)
  {
    if rs != [] {
      SumHitsSnoc(h, x, rs[..|rs| - 1]);
      HitsSnoc(h, x, rs[|rs| - 1].key);
    }
  }

  /** Distinct keys covering the history share out its iterations: their hits add up to |h|. */
  lemma {:induction false} HitsCover(h: seq<string>, rs: seq<Route>)
    requires forall a, b :: 0 <= a < b < |rs| ==> rs[a].key != rs[b].key
    requires forall x :: x in h ==> x in Keys(rs)
    ensures SumHits(h, rs) == |h|
  {
    if h == [] {
      ZeroHits(rs);
    } else {
      var front := h[..|h| - 1];
      var x := h[|h| - 1];
      assert front + [x] == h;
      HitsCover(front, rs);
      SumHitsSnoc(front, x, rs);
      OccurrencesOnce(rs, x);
    }
  }

  lemma {:induction false} ZeroHits(rs: seq<Route>)
    ensures SumHits([], rs) == 0
  {
    if rs != [] {
      ZeroHits(rs[..|rs| - 1]);
    }
  }

  function Sum(ws: seq<real>): real
  {
    if ws == [] then 0.0 else Sum(ws[..|ws| - 1]) + ws[|ws| - 1]
  }

  /** The hits of each route's key, as reals. */
  function Weights(h: seq<string>, rs: seq<Route>): (ws: seq<real>)
    ensures |ws| == |rs| && forall k :: 0 <= k < |rs| ==> ws[k] == Hits(h, rs[k].key) as real
  {
    seq(|rs|, k requires 0 <= k < |rs| => Hits(h, rs[k].key) as real)
  }

  lemma {:induction false} SumWeights(h: seq<string>, rs: seq<Route>)
    ensures Sum(Weights(h, rs)) == SumHits(h, rs) as real
  {
    if rs != [] {
      var n := |rs| - 1;
      SumWeights(h, rs[..n]);
      assert Weights(h, rs)[..n] == Weights(h, rs[..n]);
    }
  }

  lemma {:induction false} SumFlowsScaled(rs: seq<Route>, ws: seq<real>, m: real, demand: real)
    requires |ws| == |rs| && forall k :: 0 <= k < |rs| ==> IsShare(rs[k].flow, demand, ws[k], m)
    ensures IsShare(SumFlows(rs), demand, Sum(ws), m)
  {
    if rs != [] {
      var n := |rs| - 1;
      SumFlowsScaled(rs[..n], ws[..n], m, demand);
      assert IsShare(rs[n].flow, demand, ws[n], m);
      Distribute(SumFlows(rs[..n]), rs[n].flow, m, demand, Sum(ws[..n]), ws[n]);
    }
  }

  lemma Distribute(a: real, b: real, m: real, d: real, x: real, y: real)
    requires IsShare(a, d, x, m) && IsShare(b, d, y, m)
    ensures IsShare(a + b, d, x + y, m)
  {
  }

  lemma Cancel(a: real, m: real, d: real)
    requires m > 0.0 && IsShare(a, d, m, m)
    ensures a == d
  {
    assert (a - d) * m == 0.0;
  }

  /** After at least one iteration the route flows of an OD pair add up to its demand. */
  lemma FlowsSumToDemand(rs: seq<Route>, h: seq<string>, demand: real)
    requires Averaged(rs, h, demand) && |h| > 0
    ensures SumFlows(rs) == demand
  {
    forall a, b | 0 <= a < b < |rs| ensures rs[a].key != rs[b].key {
      assert Keys(rs)[a] == rs[a].key && Keys(rs)[b] == rs[b].key;
    }
    HitsCover(h, rs);
    var ws := Weights(h, rs);
    SumWeights(h, rs);
    SumFlowsScaled(rs, ws, |h| as real, demand);
    Cancel(SumFlows(rs), |h| as real, demand);
  }

  /** Every edge on the routes rs is an edge of E. */
  predicate RouteEdgesIn(rs: seq<Route>, E: seq<Edge>)
  {
    forall k, m :: 0 <= k < |rs| && 0 <= m < |rs[k].edges| ==> rs[k].edges[m] in E
  }

  /** Every edge on a route of the table is an edge of E. */
  predicate RoutesIn(table: seq<seq<Route>>, E: seq<Edge>)
  {
    forall i :: 0 <= i < |table| ==> RouteEdgesIn(table[i], E)
  }

  /** The flow one route of the given flow puts on edge e: that flow once per occurrence of e. */
  function EdgeLoad(es: seq<Edge>, e: Edge, flow: real): real
  {
    if es == [] then 0.0 else EdgeLoad(es[..|es| - 1], e, flow) + (if es[|es| - 1] == e then flow else 0.0)
  }

  /** The flow the routes rs put on edge e. */
  function RoutesLoad(rs: seq<Route>, e: Edge): real
  {
    if rs == [] then 0.0 else RoutesLoad(rs[..|rs| - 1], e) + EdgeLoad(rs[|rs| - 1].edges, e, rs[|rs| - 1].flow)
  }

  /** The flow the whole route table puts on edge e, over all OD pairs. */
  function Load(table: seq<seq<Route>>, e: Edge): real
  {
    if table == [] then 0.0 else Load(table[..|table| - 1], e) + RoutesLoad(table[|table| - 1], e)
  }

  predicate NonNegativeFlows(table: seq<seq<Route>>)
  {
    forall i, k :: 0 <= i < |table| && 0 <= k < |table[i]| ==> table[i][k].flow >= 0.0
  }

  /** With non-negative route flows every edge load is non-negative. */
  lemma {:induction false} LoadNonNegative(table: seq<seq<Route>>, e: Edge)
    requires NonNegativeFlows(table)
    ensures Load(table, e) >= 0.0
  {
    if table != [] {
      LoadNonNegative(table[..|table| - 1], e);
      RoutesLoadNonNegative(table[|table| - 1], e);
    }
  }

  lemma {:induction false} RoutesLoadNonNegative(rs: seq<Route>, e: Edge)
    requires forall k :: 0 <= k < |rs| ==> rs[k].flow >= 0.0
    ensures RoutesLoad(rs, e) >= 0.0
  {
    if rs != [] {
      RoutesLoadNonNegative(rs[..|rs| - 1], e);
      EdgeLoadNonNegative(rs[|rs| - 1].edges, e, rs[|rs| - 1].flow);
    }
  }

  lemma {:induction false} EdgeLoadNonNegative(es: seq<Edge>, e: Edge, flow: real)
    requires flow >= 0.0
    ensures EdgeLoad(es, e, flow) >= 0.0
  {
    if es != [] {
      EdgeLoadNonNegative(es[..|es| - 1], e, flow);
    }
  }

  lemma {:induction false} EdgeLoadAbsent(es: seq<Edge>, e: Edge, flow: real)
    requires e !in es
    ensures EdgeLoad(es, e, flow) == 0.0
  {
    if es != [] {
      EdgeLoadAbsent(es[..|es| - 1], e, flow);
    }
  }

  /** An edge on no route of the table carries no load. */
  lemma {:induction false} LoadOffRoutes(table: seq<seq<Route>>, e: Edge)
    requires forall i, k :: 0 <= i < |table| && 0 <= k < |table[i]| ==> e !in table[i][k].edges
    ensures Load(table, e) == 0.0
  {
    if table != [] {
      LoadOffRoutes(table[..|table| - 1], e);
      RoutesLoadOff(table[|table| - 1], e);
    }
  }

  lemma {:induction false} RoutesLoadOff(rs: seq<Route>, e: Edge)
    requires forall k :: 0 <= k < |rs| ==> e !in rs[k].edges
    ensures RoutesLoad(rs, e) == 0.0
  {
    if rs != [] {
      RoutesLoadOff(rs[..|rs| - 1], e);
      EdgeLoadAbsent(rs[|rs| - 1].edges, e, rs[|rs| - 1].flow);
    }
  }
}
