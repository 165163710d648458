/**
 * The graph objects of successive_averages.py: nodes carry the scratch labels of one
 * shortest-path search, edges carry their cost function, flow, auxiliary flow and cost.
 */
module Network {

  /** The distance the source uses as "infinite" (Node.__init__ and resetGraph). */
  const Sentinel: real := 1000000.0

  /**
   * The cost function an edge applies: the parsed expression, the third entry of the
   * triple generateGraph stores. The other two entries (the free parameter's name and the
   * constants' names) are read only while the network file is parsed. The expression parser
   * and evaluator are a foreign library, so the expression is an arbitrary function of the
   * binding of names to values.
   */
  datatype CostFunction = CostFunction(expr: map<string, real> -> real)

  class Node {
    const name: string
    var dist: real
    var prev: Node?
    var flag: int

    constructor (name: string)
      ensures this.name == name
      ensures dist == Sentinel && prev == null && flag == 0
    {
      this.name := name;
      dist := Sentinel;
      prev := null;
      flag := 0;
    }
  }

  class Edge {
    const name: string
    const start: string
    const end: string
    const func: CostFunction
    const variable: string
    var params: map<string, real>
    var flow: real
    var cost: real
    var auxFlow: real

    /** The cost this edge's function gives at flow f, with the constants bound now. */
    function CostAt(f: real): real
      reads this`params
    {
      func.expr(params[variable := f])
    }

    /** An edge starts with zero flow and its cost evaluated at that flow. */
    constructor (start: string, end: string, func: CostFunction, paramValues: map<string, real>, variable: string)
      ensures name == start + "-" + end
      ensures this.start == start && this.end == end && this.func == func && this.variable == variable
      ensures flow == 0.0 && auxFlow == 0.0
      ensures params == paramValues[variable := 0.0]
      ensures cost == CostAt(flow)
    {
      name := start + "-" + end;
      this.start := start;
      this.end := end;
      this.func := func;
      this.variable := variable;
      params := paramValues;
      flow := 0.0;
      cost := 0.0;
      auxFlow := 0.0;
      new;
      UpdateCost();
    }

    /** Binds the free parameter to the current flow and re-evaluates the cost. */
    method UpdateCost()
      modifies this
      ensures params == old(params)[variable := flow]
      ensures cost == CostAt(flow)
      ensures forall f :: CostAt(f) == old(CostAt(f))
      ensures flow == old(flow) && auxFlow == old(auxFlow)
    {
      params := params[variable := flow];
      cost := func.expr(params);
      forall f: real ensures CostAt(f) == old(CostAt(f)) {
        assert params[variable := f] == old(params)[variable := f];
      }
    }
  }

  /** Node names are unique (generateGraph reads one node per name). */
  predicate UniqueNames(N: seq<Node>)
  {
    forall i, j :: 0 <= i < j < |N| ==> N[i].name != N[j].name
  }

  /** The names of the nodes of N, in order. */
  function Names(N: seq<Node>): (names: seq<string>)
    ensures |names| == |N| && forall i :: 0 <= i < |N| ==> names[i] == N[i].name
  {
    seq(|N|, i requires 0 <= i < |N| => N[i].name)
  }

  /** Every edge ends at a node of N (dijkstra looks the end node up by name). */
  predicate EndsAreNodes(N: seq<Node>, E: seq<Edge>)
  {
    forall j :: 0 <= j < |E| ==> E[j].end in Names(N)
  }

  predicate NonNegativeCosts(E: seq<Edge>)
    reads E
  {
    forall j :: 0 <= j < |E| ==> E[j].cost >= 0.0
  }

  /** Every edge's cost function is non-negative on non-negative flows. */
  ghost predicate NonNegativeCostFunctions(E: seq<Edge>)
    reads E
  {
    forall j, f :: 0 <= j < |E| && f >= 0.0 ==> E[j].CostAt(f) >= 0.0
  }
}
