/**
 * evaluate_assignment: the convergence measures of an assignment. For each OD pair, each
 * route's cost (the sum of its edges' costs, rounded to hundredths), the least of these,
 * the flow on routes costlier than the least, and the AEC numerator; over all pairs, the
 * total travel time, the total demand and their ratio UE.
 */
module Evaluation {
  import opened Common
  import opened Network
  import opened Averaging

  /**
   * The measures in the order evaluate_assignment computes them: UE, sum_tt, sum_deviations,
   * delta_top and delta_bottom.
   */
  datatype Metrics = Metrics(ue: real, travelTime: real, deviations: real, deltaTop: real, deltaBottom: real)

  /** UE divides by the total demand, which raises when it is zero. */
  datatype EvaluationError = ZeroTotalDemand

  /** Python's round on one value: the nearest integer, and the even one on a tie. */
  function RoundHalfEven(x: real): (n: int)
    ensures x - 0.5 <= n as real <= x + 0.5
    ensures x - x.Floor as real == 0.5 ==> n % 2 == 0
    ensures x - x.Floor as real != 0.5 ==> x - 0.5 < n as real < x + 0.5
  {
    var f := x.Floor;
    var d := x - f as real;
    if d < 0.5 then f
    else if d > 0.5 then f + 1
    else if f % 2 == 0 then f
    else f + 1
  }

  /** round(cost * 100) / 100: a route cost to the hundredth. */
  function Cents(c: real): real
  {
    RoundHalfEven(c * 100.0) as real / 100.0
  }

  /** Rounding to the hundredth moves a cost by at most half a hundredth. */
  lemma CentsClose(c: real)
    ensures c - 0.005 <= Cents(c) <= c + 0.005
  {
    var n := RoundHalfEven(c * 100.0);
    assert c * 100.0 - 0.5 <= n as real <= c * 100.0 + 0.5;
  }

  /** A higher cost never rounds to a lower one. */
  lemma CentsMonotone(a: real, b: real)
    requires a <= b
    ensures Cents(a) <= Cents(b)
  {
    var x, y := a * 100.0, b * 100.0;
    assert x.Floor <= y.Floor;
  }

  /** The edge costs an evaluation sees, by edge. */
  type Prices = map<Edge, real>

  /** The current cost of every edge of E. */
  function PricesOf(E: seq<Edge>): (p: Prices)
    reads E
    ensures forall j :: 0 <= j < |E| ==> E[j] in p && p[E[j]] == E[j].cost
  {
    map e | e in E :: e.cost
  }

  /** The cost of edge e at prices p (edges outside p, which no route of a model uses, cost 0). */
  function Price(p: Prices, e: Edge): real
  {
    if e in p then p[e] else 0.0
  }

  /** The cost of a route: its edges' costs, added up in order. */
  function PathCost(p: Prices, es: seq<Edge>): real
  {
    if es == [] then 0.0 else PathCost(p, es[..|es| - 1]) + Price(p, es[|es| - 1])
  }

  /** The travel time a route adds to sum_tt: each edge's cost times the route flow. */
  function PathTime(p: Prices, es: seq<Edge>, flow: real): real
  {
    if es == [] then 0.0 else PathTime(p, es[..|es| - 1], flow) + Price(p, es[|es| - 1]) * flow
  }

  /** The rounded cost of each route of an OD pair. */
  function Costs(p: Prices, rs: seq<Route>): (cs: seq<real>)
    ensures |cs| == |rs|
  {
    if rs == [] then [] else Costs(p, rs[..|rs| - 1]) + [Cents(PathCost(p, rs[|rs| - 1].edges))]
  }

  /**
   * min_cost after the first loop over an OD pair's routes, with None for the initial infinity:
   * the first cost strictly below the least so far replaces it.
   */
  function MinCost(cs: seq<real>): (r: Option<real>)
    ensures r.None? <==> cs == []
  {
    if cs == [] then None
    else
      var m := MinCost(cs[..|cs| - 1]);
      if m.None? || cs[|cs| - 1] < m.value then Some(cs[|cs| - 1]) else m
  }

  /** min_cost is one of the route costs, and no route costs less. */
  lemma {:induction false} MinCostIsLeast(cs: seq<real>)
    requires cs != []
    ensures MinCost(cs).value in cs
    ensures forall k :: 0 <= k < |cs| ==> MinCost(cs).value <= cs[k]
  {
    var init := cs[..|cs| - 1];
    if init != [] {
      MinCostIsLeast(init);
      assert forall k :: 0 <= k < |init| ==> cs[k] == init[k];
    }
  }

  /** sum_tt over the routes of one OD pair. */
  function PairTime(p: Prices, rs: seq<Route>): real
  {
    if rs == [] then 0.0 else PairTime(p, rs[..|rs| - 1]) + PathTime(p, rs[|rs| - 1].edges, rs[|rs| - 1].flow)
  }

  /** The flow on routes whose rounded cost exceeds the least, min. */
  function Deviating(rs: seq<Route>, cs: seq<real>, min: real): real
    requires |cs| == |rs|
  {
    if rs == [] then 0.0
    else Deviating(rs[..|rs| - 1], cs[..|cs| - 1], min) + (if cs[|cs| - 1] > min then rs[|rs| - 1].flow else 0.0)
  }

  /** The AEC numerator of one OD pair: each route flow times its excess over the least cost. */
  function Excess(rs: seq<Route>, cs: seq<real>, min: real): real
    requires |cs| == |rs|
  {
    if rs == [] then 0.0
    else Excess(rs[..|rs| - 1], cs[..|cs| - 1], min) + rs[|rs| - 1].flow * (cs[|cs| - 1] - min)
  }

  function PairDeviating(p: Prices, rs: seq<Route>): real
  {
    var cs := Costs(p, rs);
    match MinCost(cs)
    case None => 0.0
    case Some(min) => Deviating(rs, cs, min)
  }

  function PairExcess(p: Prices, rs: seq<Route>): real
  {
    var cs := Costs(p, rs);
    match MinCost(cs)
    case None => 0.0
    case Some(min) => Excess(rs, cs, min)
  }

  function TravelTime(p: Prices, table: seq<seq<Route>>): real
  {
    if table == [] then 0.0 else TravelTime(p, table[..|table| - 1]) + PairTime(p, table[|table| - 1])
  }

  function Deviations(p: Prices, table: seq<seq<Route>>): real
  {
    if table == [] then 0.0 else Deviations(p, table[..|table| - 1]) + PairDeviating(p, table[|table| - 1])
  }

  function DeltaTop(p: Prices, table: seq<seq<Route>>): real
  {
    if table == [] then 0.0 else DeltaTop(p, table[..|table| - 1]) + PairExcess(p, table[|table| - 1])
  }

  function TotalDemand(ods: seq<Demand>): real
  {
    if ods == [] then 0.0 else TotalDemand(ods[..|ods| - 1]) + ods[|ods| - 1].demand
  }

  /** The cost and travel time of one more edge of a route. */
  lemma PathStep(p: Prices, es: seq<Edge>, flow: real, m: nat)
    requires m < |es|
    ensures PathCost(p, es[..m + 1]) == PathCost(p, es[..m]) + Price(p, es[m])
    ensures PathTime(p, es[..m + 1], flow) == PathTime(p, es[..m], flow) + Price(p, es[m]) * flow
  {
    assert es[..m + 1][..m] == es[..m];
  }

  /** The innermost loop: a route's cost and the travel time its flow adds to sum_tt. */
  method RouteCost(es: seq<Edge>, flow: real, ghost p: Prices) returns (cost: real, time: real)
    requires forall m :: 0 <= m < |es| ==> es[m].cost == Price(p, es[m])
    ensures cost == PathCost(p, es) && time == PathTime(p, es, flow)
  {
    cost, time := 0.0, 0.0;
    for m := 0 to |es|
      invariant cost == PathCost(p, es[..m]) && time == PathTime(p, es[..m], flow)
    {
      PathStep(p, es, flow, m);
      cost := cost + es[m].cost;
      time := time + es[m].cost * flow;
    }
    assert es[..|es|] == es;
  }

  /** The costs and travel time of one more route of a pair. */
  lemma PairStep(p: Prices, rs: seq<Route>, k: nat)
    requires k < |rs|
    ensures Costs(p, rs[..k + 1]) == Costs(p, rs[..k]) + [Cents(PathCost(p, rs[k].edges))]
    ensures PairTime(p, rs[..k + 1]) == PairTime(p, rs[..k]) + PathTime(p, rs[k].edges, rs[k].flow)
  {
    assert rs[..k + 1][..k] == rs[..k];
  }

  /** Every edge on the routes rs costs, at prices p, what it costs now. */
  predicate PricedAt(p: Prices, rs: seq<Route>)
    reads set k, m | 0 <= k < |rs| && 0 <= m < |rs[k].edges| :: rs[k].edges[m]
  {
    forall k, m :: 0 <= k < |rs| && 0 <= m < |rs[k].edges| ==> rs[k].edges[m].cost == Price(p, rs[k].edges[m])
  }

  /**
   * The first loop over an OD pair's routes: each route's rounded cost (the aux list), the
   * least of them (None while it is still infinity) and the pair's travel time.
   */
  method PairCosts(routes: seq<Route>, ghost p: Prices) returns (costs: seq<real>, minCost: Option<real>, time: real)
    requires PricedAt(p, routes)
    ensures costs == Costs(p, routes) && minCost == MinCost(costs) && time == PairTime(p, routes)
  {
    costs, minCost, time := [], None, 0.0;
    for k := 0 to |routes|
      invariant costs == Costs(p, routes[..k])
      invariant minCost == MinCost(costs)
      invariant time == PairTime(p, routes[..k])
    {
      PairStep(p, routes, k);
      var cost, t := RouteCost(routes[k].edges, routes[k].flow, p);
      time := time + t;
      cost := Cents(cost);
      if minCost.None? || cost < minCost.value {
        minCost := Some(cost);
      }
      costs := costs + [cost];
    }
    assert routes[..|routes|] == routes;
  }

  /** The second loop over an OD pair's routes: the deviating flow and the AEC numerator. */
  method PairMeasures(routes: seq<Route>, costs: seq<real>, minCost: real) returns (deviating: real, excess: real)
    requires |costs| == |routes|
    ensures deviating == Deviating(routes, costs, minCost) && excess == Excess(routes, costs, minCost)
  {
    deviating, excess := 0.0, 0.0;
    for k := 0 to |routes|
      invariant deviating == Deviating(routes[..k], costs[..k], minCost)
      invariant excess == Excess(routes[..k], costs[..k], minCost)
    {
      assert routes[..k + 1][..k] == routes[..k] && costs[..k + 1][..k] == costs[..k];
      if costs[k] > minCost {
        deviating := deviating + routes[k].flow;
      }
      excess := excess + routes[k].flow * (costs[k] - minCost);
    }
    assert routes[..|routes|] == routes && costs[..|costs|] == costs;
  }

  /** The sums over the first i + 1 OD pairs, from those over the first i. */
  lemma MeasuresStep(p: Prices, ods: seq<Demand>, table: seq<seq<Route>>, i: nat)
    requires |table| == |ods| && i < |table|
    ensures TravelTime(p, table[..i + 1]) == TravelTime(p, table[..i]) + PairTime(p, table[i])
    ensures Deviations(p, table[..i + 1]) == Deviations(p, table[..i]) + PairDeviating(p, table[i])
    ensures DeltaTop(p, table[..i + 1]) == DeltaTop(p, table[..i]) + PairExcess(p, table[i])
    ensures TotalDemand(ods[..i + 1]) == TotalDemand(ods[..i]) + ods[i].demand
  {
    assert table[..i + 1][..i] == table[..i] && ods[..i + 1][..i] == ods[..i];
  }

  /**
   * evaluate_assignment without its output: the measures of the route table, at the current
   * costs of the edges of E, against the OD matrix; or the division by a zero total demand
   * that UE raises.
   */
  method EvaluateAssignment(ods: seq<Demand>, table: seq<seq<Route>>, E: seq<Edge>) returns (r: Result<Metrics, EvaluationError>)
    requires |table| == |ods| && RoutesIn(table, E)
    ensures r.Failure? <==> TotalDemand(ods) == 0.0
    ensures r.Success? ==>
      var p := PricesOf(E);
      r.value == Metrics(TravelTime(p, table) / TotalDemand(ods), TravelTime(p, table), Deviations(p, table), DeltaTop(p, table), TotalDemand(ods))
  {
    ghost var p := PricesOf(E);
    var sumTT, sumDeviations, deltaTop, deltaBottom := 0.0, 0.0, 0.0, 0.0;
    for i := 0 to |table|
      invariant sumTT == TravelTime(p, table[..i]) && sumDeviations == Deviations(p, table[..i])
      invariant deltaTop == DeltaTop(p, table[..i]) && deltaBottom == TotalDemand(ods[..i])
    {
      MeasuresStep(p, ods, table, i);
      assert RouteEdgesIn(table[i], E);
      var costs, minCost, time := PairCosts(table[i], p);
      sumTT := sumTT + time;
      if minCost.Some? {
        var deviating, excess := PairMeasures(table[i], costs, minCost.value);
        sumDeviations := sumDeviations + deviating;
        deltaTop := deltaTop + excess;
      }
      deltaBottom := deltaBottom + ods[i].demand;
    }
    assert table[..|table|] == table && ods[..|ods|] == ods;
    var total := TotalDemand(ods);
    if total == 0.0 {
      return Failure(ZeroTotalDemand);
    }
    r := Success(Metrics(sumTT / total, sumTT, sumDeviations, deltaTop, deltaBottom));
  }

  /** Every route flow of the pair is non-negative and no route costs less than min. */
  predicate Above(rs: seq<Route>, cs: seq<real>, min: real)
    requires |cs| == |rs|
  {
    forall k :: 0 <= k < |rs| ==> rs[k].flow >= 0.0 && cs[k] >= min
  }

  /** No flow is left on a route costlier than min: the pair is at equilibrium. */
  predicate Balanced(rs: seq<Route>, cs: seq<real>, min: real)
    requires |cs| == |rs|
  {
    forall k :: 0 <= k < |rs| ==> cs[k] > min ==> rs[k].flow == 0.0
  }

  /** The excess of one route: never negative, and zero exactly when it leaves no flow on a dearer route. */
  lemma ExcessTerm(flow: real, c: real, min: real)
    requires flow >= 0.0 && c >= min
    ensures flow * (c - min) >= 0.0
    ensures flow * (c - min) == 0.0 <==> (c > min ==> flow == 0.0)
  {
    var d := c - min;
    assert d >= 0.0;
    assert flow * d == 0.0 <==> flow == 0.0 || d == 0.0;
  }

  /** A pair is balanced when its routes but the last are, and the last is. */
  lemma BalancedSnoc(rs: seq<Route>, cs: seq<real>, min: real)
    requires |cs| == |rs| > 0
    ensures Above(rs, cs, min) ==> Above(rs[..|rs| - 1], cs[..|cs| - 1], min)
    ensures Balanced(rs, cs, min) <==>
      Balanced(rs[..|rs| - 1], cs[..|cs| - 1], min) && (cs[|cs| - 1] > min ==> rs[|rs| - 1].flow == 0.0)
  {
    var n := |rs| - 1;
    assert forall k :: 0 <= k < n ==> rs[..n][k] == rs[k] && cs[..n][k] == cs[k];
  }

  /** The excess each route of the pair adds to the AEC numerator. */
  function Surpluses(rs: seq<Route>, cs: seq<real>, min: real): (ts: seq<real>)
    requires |cs| == |rs|
    ensures |ts| == |rs|
  {
    seq(|rs|, k requires 0 <= k < |rs| => rs[k].flow * (cs[k] - min))
  }

  /** The AEC numerator of a pair is the sum of its routes' excesses. */
  lemma {:induction false} ExcessIsSum(rs: seq<Route>, cs: seq<real>, min: real)
    requires |cs| == |rs|
    ensures Excess(rs, cs, min) == Sum(Surpluses(rs, cs, min))
  {
    if rs != [] {
      var n := |rs| - 1;
      ExcessIsSum(rs[..n], cs[..n], min);
      var ts, front := Surpluses(rs, cs, min), Surpluses(rs[..n], cs[..n], min);
      forall k | 0 <= k < n ensures ts[..n][k] == front[k] {
        assert rs[..n][k] == rs[k] && cs[..n][k] == cs[k];
      }
      assert ts[..n] == front;
    }
  }

  /** On a pair above min, each route's excess is non-negative, and zero exactly when it leaves no flow on a dearer route. */
  lemma SurplusSigns(rs: seq<Route>, cs: seq<real>, min: real)
    requires |cs| == |rs| && Above(rs, cs, min)
    ensures var ts := Surpluses(rs, cs, min);
      forall k :: 0 <= k < |ts| ==> ts[k] >= 0.0 && (ts[k] == 0.0 <==> (cs[k] > min ==> rs[k].flow == 0.0))
  {
    var ts := Surpluses(rs, cs, min);
    forall k | 0 <= k < |ts|
      ensures ts[k] >= 0.0 && (ts[k] == 0.0 <==> (cs[k] > min ==> rs[k].flow == 0.0))
    {
      ExcessTerm(rs[k].flow, cs[k], min);
    }
  }

  /** A sum of non-negative terms is non-negative, and zero exactly when every term is. */
  lemma {:induction false} SumZero(ts: seq<real>)
    requires forall k :: 0 <= k < |ts| ==> ts[k] >= 0.0
    ensures Sum(ts) >= 0.0
    ensures Sum(ts) == 0.0 <==> forall k :: 0 <= k < |ts| ==> ts[k] == 0.0
  {
    if ts != [] {
      var n := |ts| - 1;
      assert forall k :: 0 <= k < n ==> ts[..n][k] == ts[k];
      SumZero(ts[..n]);
    }
  }

  /** The AEC numerator of a pair is never negative, and it is zero exactly when the pair is balanced. */
  lemma ExcessZero(rs: seq<Route>, cs: seq<real>, min: real)
    requires |cs| == |rs| && Above(rs, cs, min)
    ensures Excess(rs, cs, min) >= 0.0
    ensures Excess(rs, cs, min) == 0.0 <==> Balanced(rs, cs, min)
  {
    ExcessIsSum(rs, cs, min);
    SurplusSigns(rs, cs, min);
    SumZero(Surpluses(rs, cs, min));
  }

  /** The deviating flow of a pair is never negative, and it is zero exactly when the pair is balanced. */
  lemma {:induction false} DeviatingZero(rs: seq<Route>, cs: seq<real>, min: real)
    requires |cs| == |rs| && Above(rs, cs, min)
    ensures Deviating(rs, cs, min) >= 0.0
    ensures Deviating(rs, cs, min) == 0.0 <==> Balanced(rs, cs, min)
  {
    if rs != [] {
      var n := |rs| - 1;
      BalancedSnoc(rs, cs, min);
      DeviatingZero(rs[..n], cs[..n], min);
    }
  }

  /** No flow of the pair is on a route costlier, to the hundredth, than its cheapest one. */
  predicate PairBalanced(p: Prices, rs: seq<Route>)
  {
    var cs := Costs(p, rs);
    MinCost(cs).None? || Balanced(rs, cs, MinCost(cs).value)
  }

  /** Every OD pair is balanced: the assignment is at user equilibrium. */
  predicate Equilibrium(p: Prices, table: seq<seq<Route>>)
  {
    forall i :: 0 <= i < |table| ==> PairBalanced(p, table[i])
  }

  lemma PairZero(p: Prices, rs: seq<Route>)
    requires forall k :: 0 <= k < |rs| ==> rs[k].flow >= 0.0
    ensures PairExcess(p, rs) >= 0.0 && PairDeviating(p, rs) >= 0.0
    ensures PairExcess(p, rs) == 0.0 <==> PairBalanced(p, rs)
    ensures PairDeviating(p, rs) == 0.0 <==> PairBalanced(p, rs)
  {
    var cs := Costs(p, rs);
    if cs != [] {
      MinCostIsLeast(cs);
      ExcessZero(rs, cs, MinCost(cs).value);
      DeviatingZero(rs, cs, MinCost(cs).value);
    }
  }

  /**
   * With non-negative route flows, delta_top and sum_deviations are never negative, and each
   * is zero exactly when the assignment is at equilibrium.
   */
  lemma {:induction false} EquilibriumMeasures(p: Prices, table: seq<seq<Route>>)
    requires NonNegativeFlows(table)
    ensures DeltaTop(p, table) >= 0.0 && Deviations(p, table) >= 0.0
    ensures DeltaTop(p, table) == 0.0 <==> Equilibrium(p, table)
    ensures Deviations(p, table) == 0.0 <==> Equilibrium(p, table)
  {
    if table != [] {
      var n := |table| - 1;
      TableSnoc(p, table);
      EquilibriumMeasures(p, table[..n]);
      PairZero(p, table[n]);
    }
  }

  /** The measures and the equilibrium of a table, from those of all its pairs but the last. */
  lemma TableSnoc(p: Prices, table: seq<seq<Route>>)
    requires NonNegativeFlows(table) && table != []
    ensures var n := |table| - 1;
      && NonNegativeFlows(table[..n])
      && (forall k :: 0 <= k < |table[n]| ==> table[n][k].flow >= 0.0)
      && DeltaTop(p, table) == DeltaTop(p, table[..n]) + PairExcess(p, table[n])
      && Deviations(p, table) == Deviations(p, table[..n]) + PairDeviating(p, table[n])
      && (Equilibrium(p, table) <==> Equilibrium(p, table[..n]) && PairBalanced(p, table[n]))
  {
    var n := |table| - 1;
    assert forall i :: 0 <= i < n ==> table[..n][i] == table[i];
    EquilibriumSnoc(p, table);
  }

  lemma EquilibriumSnoc(p: Prices, table: seq<seq<Route>>)
    requires table != []
    ensures Equilibrium(p, table) <==> Equilibrium(p, table[..|table| - 1]) && PairBalanced(p, table[|table| - 1])
  {
    var n := |table| - 1;
    var init := table[..n];
    assert forall i :: 0 <= i < n ==> init[i] == table[i];
    if Equilibrium(p, init) && PairBalanced(p, table[n]) {
      forall i | 0 <= i < |table|
        ensures PairBalanced(p, table[i])
      {
        if i < n {
          assert PairBalanced(p, init[i]);
        }
      }
    }
  }
}
