# Method of Successive Averages, modelled in Dafny

This project models `successive_averages.py`, a static traffic-assignment program. It
spreads the demand of each origin-destination (OD) pair over routes by the Method of
Successive Averages (MSA). Iteration `n` does four things:

1. It finds every OD pair's shortest route on the current edge costs, using Dijkstra's
   label-setting search over `Node` and `Edge` objects.
2. It adds that route to the pair's route table if the route's key is new. The key is
   the edge names joined by `" - "`.
3. It moves every route flow a step `phi = 1/n` towards the all-or-nothing flow. That
   flow puts the whole demand on the current shortest route.
4. It rebuilds the edge flows from the route flows and re-evaluates each edge's cost
   function.

`evaluate_assignment` then measures the final assignment:

- each route's cost, rounded to the hundredth;
- the flow on routes dearer than the cheapest route of their pair;
- the numerator of the Average Excess Cost;
- the average travel time UE.

The model follows the program's own form:

- `Node` and `Edge` are classes whose fields the methods update in place.
- Each loop of the source is a method with loop invariants.
- Each method is proved against pure specification functions.
- The results are stated as lemmas about those functions.

## Modules

| module | file | contents |
|---|---|---|
| `Common` | `common.dfy` | `Option` and `Result` |
| `Network` | `network.dfy` | the `Node` and `Edge` classes, `update_cost`, and the graph conditions |
| `Walks` | `walks.dfy` | walks, their costs and shortest walks over a snapshot of the edges (`Arc`) |
| `Labels` | `labels.dfy` | the labels of one Dijkstra search as values, the invariant the search keeps, and what it yields when it stops |
| `ShortestPath` | `shortest_path.dfy` | `resetGraph`, `pickSmallestNode`, `pickEdgesList` and `dijkstra` on the objects, each step tied to `Labels` |
| `Paths` | `paths.dfy` | `getPathAsEdges`, `pathToStr` and the node-list branch of `calcPathLength` |
| `Averaging` | `averaging.dfy` | an OD pair's route table as values: insertion, the averaging step, route shares and edge loads |
| `Evaluation` | `evaluation.dfy` | `evaluate_assignment`'s measures |
| `Msa` | `msa.dfy` | `run_MSA` and its inner loops |

Main results:

- **Dijkstra.** It returns the destination's predecessor chain. When the origin is a node
  and some walk from it is cheaper than the sentinel distance 1000000, that chain is the
  node sequence of a shortest walk, and the destination's label is that walk's cost.
  Otherwise the result is the destination alone.
- **Averaging.** After `n` iterations, each OD pair's table holds one route per distinct
  shortest-route key, in order of discovery. Each route carries `demand * hits / n`, where
  `hits` is the number of iterations in which the route was the shortest. For a
  non-negative demand, the route flows of a pair add up to its demand. Every edge flow is
  the load of the route flows.
- **Evaluation.** With non-negative route flows, the deviating flow and the AEC numerator
  are never negative. Each of them is zero exactly when no flow is left on a route dearer
  than its pair's cheapest route.
- **Route keys.** Two lists of non-empty, space-free edge names that join to the same key
  are equal. Edges with equal names share a key, and their routes merge, as in
  `od_routes_flow`. Parallel edges and hyphenated node names (A-B to C, A to B-C) both
  produce equal names.

## Model

| member | source | states |
|---|---|---|
| Network.Node.constructor | successive_averages.py:25-33 | A new node has the given name, distance 1000000, no predecessor and flag 0. |
| Network.Edge.constructor | successive_averages.py:43-57 | A new edge is named "start-end", has zero flow and auxiliary flow, binds the free parameter to 0, and costs its function's value there. |
| Network.Edge.UpdateCost | successive_averages.py:59-64 | Binds the free parameter to the current flow and sets the cost to the function's value at that flow. Flows are unchanged, and so is the cost the function gives at any flow. |
| ShortestPath.ResetGraph | successive_averages.py:149-156 | Every node gets distance 1000000, no predecessor and flag 0. |
| ShortestPath.PickSmallestNode | successive_averages.py:158-172 | Returns null exactly when every node is flagged. Otherwise returns an unflagged node of least distance, the earliest one in the list on a tie. |
| ShortestPath.OutIndices | successive_averages.py:174-182 | Lists, in increasing order, exactly the positions of the edges that start at the given node. |
| ShortestPath.PickEdgesList | successive_averages.py:174-182 | Returns the edges leaving u, in the order of the edge list. |
| ShortestPath.FindNode | successive_averages.py:211-214 | Returns the first node with the given name, or null when none has it. |
| ShortestPath.StartSearch | successive_averages.py:192-198 | The origin's distance becomes 0 and the labels are the initial labels of the search. dest is the node named destination, or null exactly when there is none. |
| ShortestPath.SetFlag | successive_averages.py:202 | Flagging u settles it in the mirrored labels. |
| ShortestPath.Relax | successive_averages.py:215-217 | When the way through u is strictly shorter, n's distance becomes u's distance plus the cost and its predecessor becomes u. Otherwise n's distance and predecessor are unchanged. The mirrored labels change by exactly that improvement, the search invariant holds with the arc relaxed, and the settled nodes, ranks and u's label are unchanged. |
| ShortestPath.Lower | successive_averages.py:215-217 | The improving case: n's distance becomes u's distance plus the cost and its predecessor becomes u. The mirrored labels change by exactly that improvement, n is not u, and the search invariant holds with the arc relaxed. |
| ShortestPath.RelaxEdge | successive_averages.py:205-217 | One edge of u. An ignored edge changes no label. Otherwise the node named by the edge's end gets distance u's distance plus the cost and predecessor u when that is strictly shorter, and keeps its labels when it is not. No other node's distance or predecessor changes, and the invariant holds with that arc no longer pending. |
| ShortestPath.RelaxEdges | successive_averages.py:203-217 | Relaxing all of u's edges leaves every arc relaxed. The settled nodes are unchanged. |
| ShortestPath.Visit | successive_averages.py:202-217 | One pass of the main loop settles u, relaxes its edges and keeps the search invariant. |
| ShortestPath.Prepare | successive_averages.py:189-198 | After the reset and the first loop, the node objects hold the initial labels, and the search invariant holds for them. dest is the node named destination, or null exactly when there is none. |
| ShortestPath.Explore | successive_averages.py:189-222 | When the labelling stops, the node objects hold labels that keep the search invariant. If dest is a node, the search has stopped there: every node is settled, or dest is an unsettled node of least distance. |
| ShortestPath.SearchLoop | successive_averages.py:200-222 | The main loop keeps the invariant and stops when every node is settled, or when the next node to settle is dest, which then has the least unsettled distance. |
| ShortestPath.TracePath | successive_averages.py:224-230 | Following prev from dest and inserting each node at the front gives exactly the nodes of the predecessor chain, origin end first. |
| ShortestPath.TraceOutcome | successive_averages.py:219-232 | At the stop, the traced chain is the result dijkstra promises (see the next row). |
| ShortestPath.Dijkstra | successive_averages.py:184-232 | The result is None exactly when no node is named destination. Otherwise it is a list ending at the destination. If the origin is a node and a walk to the destination is cheaper than the sentinel, that list holds the nodes of a shortest walk and the destination's label is the walk's cost. Otherwise it is the destination alone, and so it is when the origin is the destination. |
| Labels.InitialInv | successive_averages.py:190-198 | The initial labels satisfy the search invariant. |
| Labels.SettleInv | successive_averages.py:200-202 | Settling an unsettled node of least distance keeps the invariant, with its out-arcs pending. |
| Labels.SkipInv | successive_averages.py:207-208 | An ignored arc, or one that does not improve its end, keeps the invariant once taken off the pending arcs. |
| Labels.ImproveInv | successive_averages.py:215-217 | An improving relaxation from the node settled last hits an unsettled node and keeps the invariant. |
| Labels.LabelIsLowerBound | successive_averages.py:200-222 | When the search stops at x, x's label is at most the cost of any walk from the origin to x. |
| Labels.ChainIsWalk | successive_averages.py:224-230 | The predecessor chain of a node with a finite label is a walk from the origin whose cost is that label. |
| Labels.ChainNodesVisited | successive_averages.py:224-230 | The nodes on the predecessor chain are the nodes its walk visits, in order. |
| Labels.StopOutcome | successive_averages.py:219-232 | At a stop on x: if a walk to x is cheaper than the sentinel, the predecessor chain is a shortest walk. Otherwise x has no predecessor. |
| Paths.FirstEdge | successive_averages.py:259 | Returns the first edge from a to b, the `[0]` of the filtering comprehension, or None exactly when no edge joins them. |
| Paths.AlongPicksFirst | successive_averages.py:264-275 | The edges along a node list exist exactly when every consecutive pair is joined. Each picked edge is the first one joining its pair. |
| Paths.AlongStopsAtFirstGap | successive_averages.py:264-275 | The error names the first consecutive pair that no edge joins. |
| Paths.GetPathAsEdges | successive_averages.py:264-275 | Returns the first edge between each pair of consecutive nodes, or the error of the first pair without one. |
| Paths.PathToStr | successive_averages.py:302-312 | Indexing an empty path raises. A node path is converted to edges first. The result is the edge names, each preceded by " - " when the key so far is not empty. |
| Paths.ConcatIsJoin | successive_averages.py:306-310 | With non-empty names, the loop's key is the names joined by " - ". |
| Paths.JoinInjective | successive_averages.py:306-310 | Two lists of non-empty names without spaces that join to the same key are equal. Edges with equal names still share a key, and their routes merge. |
| Paths.RouteKeyIdentifiesNames | successive_averages.py:302-312 | Two non-empty edge paths whose edge names are non-empty and space-free have the same route key exactly when their edge names agree, in order. |
| Paths.CalcPathLength | successive_averages.py:249-262 | An empty path raises. Otherwise the result is the sum of the costs of the first edges joining consecutive nodes, or the error of the first pair without an edge. |
| Paths.AlongWalk | successive_averages.py:264-275 | Without parallel edges, getPathAsEdges on a walk's nodes picks exactly the walk's edges. |
| Paths.WalkPath | successive_averages.py:249-275 | Without parallel edges, the edges of a walk's node path are the walk's edges, and its length is the walk's cost. |
| Averaging.Insert | successive_averages.py:360-362 | A new key enters last with flow 0. An existing key leaves the table unchanged. No route is ever dropped. |
| Averaging.InsertKeys | successive_averages.py:360-362 | The keys after an insertion are the old keys, plus the new key if it was absent. |
| Averaging.BlendKeepsKeys | successive_averages.py:365-379 | The averaging step keeps every route and its key. |
| Averaging.BlendStep | successive_averages.py:376 | With phi = 1/n, the step turns a flow of demand·hits/(n-1) into demand·hits'/n, where hits' counts this iteration's hit. |
| Averaging.AverageStep | successive_averages.py:360-379 | Inserting the new shortest route and blending with phi = 1/n keeps the pair's table averaged over the extended key history. |
| Averaging.AveragedNonNegative | successive_averages.py:376 | Averaged route flows of a non-negative demand are non-negative. |
| Averaging.FlowsSumToDemand | successive_averages.py:337-379 | After at least one iteration, the route flows of an OD pair add up to its demand. |
| Averaging.LoadNonNegative | successive_averages.py:380-381 | Non-negative route flows load every edge non-negatively. |
| Averaging.LoadOffRoutes | successive_averages.py:380-381 | An edge on no route carries no flow. |
| Msa.RouteFromPath | successive_averages.py:354-355 | The edges of dijkstra's node list are, for each consecutive pair of a shortest walk's nodes, the first edge joining them (a shortest route when no two edges join the same pair). They are non-empty whenever the pair is routable, and empty when the list is one node. |
| Msa.ShortestRoute | successive_averages.py:350-358 | Returns the route of the first edges joining each consecutive pair of a shortest walk's nodes on the current costs (a shortest route when no two edges join the same pair) and its key, or the error run_MSA raises. A routable pair always succeeds, and a pair whose origin is its destination always fails. Edge costs are left as they were. |
| Msa.FindRoutes | successive_averages.py:347-362 | Every OD pair gets the route of the first edges joining each consecutive pair of a shortest walk's nodes, all on the same costs (a shortest route when no two edges join the same pair), and each new key is inserted into its pair's table. Otherwise the result is the error of the first unroutable pair in OD order, every pair before it being routable. |
| Msa.ClearAuxFlow | successive_averages.py:342-344 | Every edge's auxiliary flow becomes 0. |
| Msa.AddFlow | successive_averages.py:380-381 | Each edge's auxiliary flow grows by the route flow times its occurrences on the route. |
| Msa.BlendPair | successive_averages.py:366-381 | The pair's routes take the averaging step, and the edges gain their load. |
| Msa.Accumulate | successive_averages.py:364-381 | All routes take the step, and every auxiliary flow becomes the load of the new table. |
| Msa.CommitFlows | successive_averages.py:384-386 | flow = aux_flow and cost = the function at that flow, on every edge. |
| Msa.TableStep | successive_averages.py:337-386 | One iteration keeps every table averaged, on edges of E and non-negative. |
| Msa.ProgressStep | successive_averages.py:337-386 | One iteration extends the record of shortest routes and keeps the run's invariant. |
| Msa.Iteration | successive_averages.py:339-386 | One iteration: the new table is the blend of the inserted shortest routes, and each edge's flow and cost are the table's load and the cost there. On failure the error is that of the first unroutable pair in OD order. |
| Msa.ChainedTableAfter | successive_averages.py:336-379 | Table k of a recorded history is the table the first k rounds of shortest routes produce. |
| Msa.ChainedSnoc | successive_averages.py:360-379 | A round extends the history of tables by its routes inserted and blended with phi = 1/n. |
| Msa.PricedSnoc | successive_averages.py:342-355 | The costs a round searches on, if they are those the table before it puts on the edges, extend the record of priced rounds. |
| Msa.PricedGrow | successive_averages.py:336-386 | A new table at the end of the history keeps the earlier rounds priced. |
| Msa.Round | successive_averages.py:339-386 | One iteration with its record: it searches on the costs the previous table put on the edges (from the second iteration on). On success the history gains its table and routes, and the edge flows and costs are the new table's load and the cost at it. On failure the error is that of the first unroutable pair in OD order. |
| Msa.Iterate | successive_averages.py:336-386 | Returns table n of the history of tables, averaged over the rounds of shortest routes, or the error of the first pair in OD order that the failing round cannot route. The first round searches on the initial costs. Every later round searches on the costs that the table before it puts on the edges. |
| Msa.RunMSA | successive_averages.py:314-391 | The returned tables are the tables the rounds of shortest routes produce, each round found on the costs the previous table put on the edges (the first on the initial costs). They are averaged and their flows add up to each demand. UE is their travel time over the total demand, and edge flows and costs match the tables. A zero total demand is an error, and so is an unroutable pair: the first one in OD order, on the costs of the round that fails. |
| Evaluation.RoundHalfEven | successive_averages.py:440 | Python's round: the nearest integer, and the even one on a tie. |
| Evaluation.CentsClose | successive_averages.py:440 | Rounding a route cost to the hundredth moves it by at most 0.005. |
| Evaluation.CentsMonotone | successive_averages.py:440 | Rounding keeps the order of costs. |
| Evaluation.MinCostIsLeast | successive_averages.py:431-443 | min_cost is one of the route costs, and none is lower. |
| Evaluation.RouteCost | successive_averages.py:435-438 | Returns a route's cost and the travel time its flow adds. |
| Evaluation.PairCosts | successive_averages.py:430-447 | Returns the rounded route costs, their least, and the pair's travel time. |
| Evaluation.PairMeasures | successive_averages.py:449-456 | Returns the flow on routes dearer than the least, and the AEC numerator. |
| Evaluation.EvaluateAssignment | successive_averages.py:424-463 | Fails exactly when the total demand is zero. Otherwise it returns the total travel time, UE, the deviating flow, the AEC numerator and the total demand. |
| Evaluation.ExcessTerm | successive_averages.py:456 | One route's term of delta_top, flow times (cost - min_cost), is non-negative. It is zero exactly when the route is not dearer than min_cost or carries no flow. |
| Evaluation.ExcessIsSum | successive_averages.py:449-456 | The loop's delta_top for a pair equals the sum of its routes' terms. |
| Evaluation.SurplusSigns | successive_averages.py:449-456 | On a pair whose costs are at least min_cost, every route's term is non-negative, and zero exactly when no flow is on a dearer route. |
| Evaluation.ExcessZero | successive_averages.py:452-456 | A pair's AEC numerator is non-negative, and zero exactly when no flow is on a dearer route. |
| Evaluation.DeviatingZero | successive_averages.py:449-454 | A pair's deviating flow is non-negative, and zero exactly when no flow is on a dearer route. |
| Evaluation.PairZero | successive_averages.py:429-456 | The same for an OD pair, at the evaluated costs. |
| Evaluation.EquilibriumMeasures | successive_averages.py:424-463 | delta_top and sum_deviations are non-negative, and each is zero exactly when every pair is at equilibrium. |

## Left out

**I/O and input parsing**
- `generateGraph` (lines 70-147), `run`, `main`, `printGraph` and `printPath` only read files, parse arguments or print, so they are not modelled. The graph, the OD pairs (as `Demand` values) and the iteration count are parameters.
- The file output of `evaluate_assignment` (lines 406-422, 457-458, 464-473) is not modelled. The AEC ratio `delta_top / delta_bottom` is only written there; the model returns its two parts.
- Lines 469-473 write to `fh` even when `output` is false. In that case `fh` was never opened and the call raises. The model describes the run with output on, less the writing.
- The `"o|d"` OD keys and their `split("|")` are not modelled. An OD pair is given by its origin and destination names.

**Numbers and cost functions**
- Floating point is modelled by exact reals.
  - `RoundHalfEven` rounds the exact value. Python rounds the binary double, which can fall on the other side of a tie.
  - `max(…, 0)` is modelled exactly.
- The cost-function parser and evaluator are a foreign library. A cost function is a Dafny function value of the name bindings. Its validation (one free parameter) belongs to `generateGraph`. So do the first two entries of the stored function triple (the parameter's name and the constants' names): an edge reads only the expression, and its free variable is a constructor argument as in `Edge.__init__`.
- The two directions of an undirected edge share one `param_values` dict. `update_cost` rebinds the free parameter before every evaluation, and the constants never change, so each edge keeps its own map in the model.
- `phi = 1.0` before the loop (line 326) is never read and is not modelled.

**Paths**
- `getPathAsNodes` (lines 277-285) and the edge-list branch of `calcPathLength` (lines 253-254) are not modelled. `getPathAsNodes` returns generator objects, so that branch cannot compute a length. `calcPathLength` is modelled on node lists. Its parameter `N` is unused.

**Properties stated only in part**
- ShortestPath.Dijkstra: requires non-negative edge costs. With a negative cost the predecessor chain can form a cycle, and the reconstruction loop at lines 227-229 would not end.
- ShortestPath.Dijkstra: when no walk is cheaper than 1000000, the result is only the destination alone. No label is ever set to a value at or above 1000000. So a destination whose cheapest walk costs that much keeps the sentinel and has no predecessor, which is also how the source behaves.
- Paths.AlongWalk, Paths.WalkPath, Msa.RouteFromPath, Msa.ShortestRoute and Msa.FindRoutes: the route is a shortest route only when no two edges join the same pair of nodes. With parallel edges, `getPathAsEdges` picks the first edge of each bundle, which may be the dearer one; `Paths.AlongPicksFirst` states this in general, and these members state it for the route found.
- Msa.RunMSA: requires cost functions that are non-negative on non-negative flows, so the edge costs stay non-negative for the next search. The source does not check this.

**Unreachable and unknown destinations**
- For an unreachable destination, `dijkstra` returns the destination alone. `getPathAsEdges` then gives no edges, and `pathToStr` raises on indexing the empty list. The model returns this as the `NoRoute` error. The same happens to a pair whose origin is its destination: the origin never gets a predecessor, so the node list is that one node. A destination that is not a node makes `dijkstra` read `prev` of `None` (`UnknownDestination`).
