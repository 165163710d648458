/**
 * getPathAsEdges, pathToStr and the node-list branch of calcPathLength: the edges joining
 * consecutive nodes of a path, the route key built from their names, and the path's cost.
 */
module Paths {
  import opened Common
  import opened Network
  import opened Walks
  import opened ShortestPath

  /** Why a path helper raises: indexing an empty path, or no edge between two consecutive nodes. */
  datatype PathError = EmptyPath | NoEdge(from: string, to: string)

  /** A path as the source passes it around: a list of nodes or a list of edges. */
  datatype Path = NodePath(nodes: seq<Node>) | EdgePath(edges: seq<Edge>)

  /** The index of the first edge of E from a to b: element [0] of the filtering list comprehension. */
  function FirstEdge(E: seq<Edge>, a: string, b: string): (r: Option<int>)
    ensures r.Some? ==> 0 <= r.value < |E| && E[r.value].start == a && E[r.value].end == b
    ensures r.Some? ==> forall j :: 0 <= j < r.value ==> !(E[j].start == a && E[j].end == b)
    ensures r.None? <==> forall j :: 0 <= j < |E| ==> !(E[j].start == a && E[j].end == b)
  {
    if E == [] then None
    else if E[0].start == a && E[0].end == b then Some(0)
    else
      var rest := FirstEdge(E[1..], a, b);
      if rest.None? then None else Some(rest.value + 1)
  }

  /**
   * The indices of the edges getPathAsEdges picks for the node names P: for each pair of
   * consecutive names, the first edge joining them; the first pair without one is the error.
   */
  function EdgesAlong(E: seq<Edge>, P: seq<string>): (r: Result<seq<int>, PathError>)
    ensures r.Success? ==> forall i :: 0 <= i < |r.value| ==> 0 <= r.value[i] < |E|
  {
    if |P| <= 1 then Success([])
    else
      var front := P[..|P| - 1];
      match EdgesAlong(E, front)
      case Failure(err) =>
        Failure(err)
      case Success(js) =>
        match FirstEdge(E, P[|P| - 2], P[|P| - 1])
        case None => Failure(NoEdge(P[|P| - 2], P[|P| - 1]))
        case Some(j) => Success(js + [j])
  }

  /** The pair of names at i is the first that no edge of E joins. */
  predicate FirstGap(E: seq<Edge>, P: seq<string>, i: int)
  {
    && 0 <= i < |P| - 1
    && FirstEdge(E, P[i], P[i + 1]).None?
    && forall i' :: 0 <= i' < i ==> FirstEdge(E, P[i'], P[i' + 1]).Some?
  }

  /** Some edge of E joins every pair of consecutive names of P. */
  predicate Joined(E: seq<Edge>, P: seq<string>)
  {
    forall i :: 0 <= i < |P| - 1 ==> FirstEdge(E, P[i], P[i + 1]).Some?
  }

  /** js holds, for each pair of consecutive names of P, the index of the first edge joining them. */
  predicate Picks(E: seq<Edge>, P: seq<string>, js: seq<int>)
  {
    && |js| == (if P == [] then 0 else |P| - 1)
    && forall i :: 0 <= i < |js| ==> FirstEdge(E, P[i], P[i + 1]) == Some(js[i])
  }

  /**
   * The edges picked along P: one per pair of consecutive names, the first edge of E joining
   * them, and none is missing exactly when every pair is joined by some edge.
   */
  lemma {:induction false} AlongPicksFirst(E: seq<Edge>, P: seq<string>)
    ensures EdgesAlong(E, P).Success? <==> Joined(E, P)
    ensures EdgesAlong(E, P).Success? ==> Picks(E, P, EdgesAlong(E, P).value)
  {
    if |P| > 1 {
      var front := P[..|P| - 1];
      AlongPicksFirst(E, front);
      JoinedSnoc(E, P);
      var last := FirstEdge(E, P[|P| - 2], P[|P| - 1]);
      match EdgesAlong(E, front)
      case Failure(err) =>
      case Success(js) =>
        if last.Some? {
          PicksSnoc(E, P, js, last.value);
        }
    }
  }

  lemma JoinedSnoc(E: seq<Edge>, P: seq<string>)
    requires |P| > 1
    ensures Joined(E, P) <==> Joined(E, P[..|P| - 1]) && FirstEdge(E, P[|P| - 2], P[|P| - 1]).Some?
  {
    var front := P[..|P| - 1];
    assert forall i :: 0 <= i < |front| ==> front[i] == P[i];
    if Joined(E, front) && FirstEdge(E, P[|P| - 2], P[|P| - 1]).Some? {
      forall i | 0 <= i < |P| - 1
        ensures FirstEdge(E, P[i], P[i + 1]).Some?
      {
        if i < |P| - 2 {
          assert FirstEdge(E, front[i], front[i + 1]).Some?;
        }
      }
    }
  }

  lemma PicksSnoc(E: seq<Edge>, P: seq<string>, js: seq<int>, j: int)
    requires |P| > 1 && Picks(E, P[..|P| - 1], js) && FirstEdge(E, P[|P| - 2], P[|P| - 1]) == Some(j)
    ensures Picks(E, P, js + [j])
  {
    var front := P[..|P| - 1];
    var all := js + [j];
    forall i | 0 <= i < |all|
      ensures FirstEdge(E, P[i], P[i + 1]) == Some(all[i])
    {
      if i < |js| {
        assert FirstEdge(E, front[i], front[i + 1]) == Some(js[i]);
      }
    }
  }

  /** The error getPathAsEdges raises names the first pair of consecutive names that no edge joins. */
  lemma {:induction false} AlongStopsAtFirstGap(E: seq<Edge>, P: seq<string>)
    ensures EdgesAlong(E, P).Failure? ==> exists i :: FirstGap(E, P, i) && EdgesAlong(E, P).error == NoEdge(P[i], P[i + 1])
  {
    if |P| > 1 {
      var front := P[..|P| - 1];
      match EdgesAlong(E, front)
      case Failure(err) =>
        AlongStopsAtFirstGap(E, front);
        var i :| FirstGap(E, front, i) && err == NoEdge(front[i], front[i + 1]);
        GapExtends(E, P, i);
      case Success(js) =>
        AlongPicksFirst(E, front);
        if FirstEdge(E, P[|P| - 2], P[|P| - 1]).None? {
          GapAtEnd(E, P);
        }
    }
  }

  /** A first gap of the names but the last is a first gap of all of them. */
  lemma GapExtends(E: seq<Edge>, P: seq<string>, i: int)
    requires |P| > 1 && FirstGap(E, P[..|P| - 1], i)
    ensures FirstGap(E, P, i) && P[i] == P[..|P| - 1][i] && P[i + 1] == P[..|P| - 1][i + 1]
  {
    var front := P[..|P| - 1];
    forall i' | 0 <= i' < i
      ensures FirstEdge(E, P[i'], P[i' + 1]).Some?
    {
      assert FirstEdge(E, front[i'], front[i' + 1]).Some?;
    }
  }

  /** When the names but the last are joined and the last pair is not, the last pair is the first gap. */
  lemma GapAtEnd(E: seq<Edge>, P: seq<string>)
    requires |P| > 1 && Joined(E, P[..|P| - 1]) && FirstEdge(E, P[|P| - 2], P[|P| - 1]).None?
    ensures FirstGap(E, P, |P| - 2)
  {
    var front := P[..|P| - 1];
    forall i' | 0 <= i' < |P| - 2
      ensures FirstEdge(E, P[i'], P[i' + 1]).Some?
    {
      assert FirstEdge(E, front[i'], front[i' + 1]).Some?;
    }
  }

  /** The edge objects at indices js. */
  function EdgesAt(E: seq<Edge>, js: seq<int>): (edges: seq<Edge>)
    requires forall k :: 0 <= k < |js| ==> 0 <= js[k] < |E|
    ensures |edges| == |js| && forall k :: 0 <= k < |js| ==> edges[k] == E[js[k]]
  {
    seq(|js|, k requires 0 <= k < |js| => E[js[k]])
  }

  /** What getPathAsEdges returns for the node path P. */
  function PathEdges(E: seq<Edge>, P: seq<Node>): Result<seq<Edge>, PathError>
  {
    match EdgesAlong(E, Names(P))
    case Failure(err) => Failure(err)
    case Success(js) => Success(EdgesAt(E, js))
  }

  /** The edges along one more name: none for the first, else the first edge from the name before. */
  lemma AlongStep(E: seq<Edge>, names: seq<string>, i: int, js: seq<int>)
    requires 0 <= i < |names| && EdgesAlong(E, names[..i]) == Success(js)
    ensures i == 0 ==> EdgesAlong(E, names[..i + 1]) == Success([])
    ensures i > 0 && FirstEdge(E, names[i - 1], names[i]).None? ==>
      EdgesAlong(E, names[..i + 1]) == Failure(NoEdge(names[i - 1], names[i]))
    ensures i > 0 && FirstEdge(E, names[i - 1], names[i]).Some? ==>
      EdgesAlong(E, names[..i + 1]) == Success(js + [FirstEdge(E, names[i - 1], names[i]).value])
  {
    var front := names[..i + 1];
    assert front[..i] == names[..i];
  }

  /** Once a prefix of the names has a pair without an edge, so have the names. */
  lemma {:induction false} AlongFailureStays(E: seq<Edge>, P: seq<string>, k: int)
    requires 0 <= k <= |P| && EdgesAlong(E, P[..k]).Failure?
    ensures EdgesAlong(E, P) == EdgesAlong(E, P[..k])
    decreases |P| - k
  {
    if k < |P| {
      assert P[..k + 1][..k] == P[..k];
      AlongFailureStays(E, P, k + 1);
    } else {
      assert P[..k] == P;
    }
  }

  /** A pair without an edge after a joined prefix is where the names fail. */
  lemma AlongGap(E: seq<Edge>, names: seq<string>, i: int, js: seq<int>)
    requires 0 < i < |names| && EdgesAlong(E, names[..i]) == Success(js)
    requires FirstEdge(E, names[i - 1], names[i]).None?
    ensures EdgesAlong(E, names) == Failure(NoEdge(names[i - 1], names[i]))
  {
    AlongStep(E, names, i, js);
    AlongFailureStays(E, names, i + 1);
  }

  /** The first name alone needs no edge. */
  lemma AlongFirst(E: seq<Edge>, names: seq<string>)
    requires |names| > 0
    ensures EdgesAlong(E, names[..1]) == Success([])
  {
    assert names[..0] == [];
    AlongStep(E, names, 0, []);
  }

  /** One more joined name adds its first edge. */
  lemma AlongSnoc(E: seq<Edge>, names: seq<string>, i: int, js: seq<int>, j: int)
    requires 0 < i < |names| && EdgesAlong(E, names[..i]) == Success(js)
    requires FirstEdge(E, names[i - 1], names[i]) == Some(j)
    ensures EdgesAlong(E, names[..i + 1]) == Success(js + [j])
  {
    AlongStep(E, names, i, js);
  }

  /**
   * getPathAsEdges: for each node after the first, the first edge of E from the previous
   * node to it. The source's list comprehension raises when there is none.
   */
  method GetPathAsEdges(P: seq<Node>, E: seq<Edge>) returns (r: Result<seq<Edge>, PathError>)
    ensures r == PathEdges(E, P)
  {
    ghost var names := Names(P);
    var path: seq<Edge> := [];
    ghost var js: seq<int> := [];
    var prev: Node? := null;
    for i := 0 to |P|
      invariant prev == if i == 0 then null else P[i - 1]
      invariant EdgesAlong(E, names[..i]) == Success(js)
      invariant forall k :: 0 <= k < |js| ==> 0 <= js[k] < |E|
      invariant path == EdgesAt(E, js)
    {
      if prev != null {
        assert prev.name == names[i - 1] && P[i].name == names[i];
        var e := FirstEdge(E, prev.name, P[i].name);
        if e.None? {
          AlongGap(E, names, i, js);
          return Failure(NoEdge(prev.name, P[i].name));
        }
        AlongSnoc(E, names, i, js, e.value);
        path := path + [E[e.value]];
        js := js + [e.value];
      } else {
        AlongFirst(E, names);
      }
      prev := P[i];
    }
    assert names[..|P|] == names;
    r := Success(path);
  }

  /**
   * The route key the source's pathToStr loop builds from the names xs: each name appended,
   * preceded by " - " whenever the key so far is not empty.
   */
  function Concat(xs: seq<string>): string
  {
    if xs == [] then ""
    else
      var key := Concat(xs[..|xs| - 1]);
      (if key != "" then key + " - " else key) + xs[|xs| - 1]
  }

  /** The names joined by " - ", independently of how the key is built. */
  function Join(xs: seq<string>): string
  {
    if xs == [] then "" else if |xs| == 1 then xs[0] else xs[0] + " - " + Join(xs[1..])
  }

  /** Edge names, in order. */
  function EdgeNames(edges: seq<Edge>): (names: seq<string>)
    ensures |names| == |edges| && forall k :: 0 <= k < |edges| ==> names[k] == edges[k].name
  {
    seq(|edges|, k requires 0 <= k < |edges| => edges[k].name)
  }

  /** What pathToStr returns for path: the route key of its edges, or the error it raises. */
  function RouteKey(E: seq<Edge>, path: Path): Result<string, PathError>
  {
    match path
    case EdgePath(edges) =>
      if edges == [] then Failure(EmptyPath) else Success(Concat(EdgeNames(edges)))
    case NodePath(nodes) =>
      if nodes == [] then Failure(EmptyPath)
      else match PathEdges(E, nodes)
        case Failure(err) => Failure(err)
        case Success(edges) => Success(Concat(EdgeNames(edges)))
  }

  /** pathToStr: converts a node path to its edges first, then joins the edge names with " - ". */
  method PathToStr(path: Path, E: seq<Edge>) returns (r: Result<string, PathError>)
    ensures r == RouteKey(E, path)
  {
    var edges: seq<Edge>;
    match path {
      case EdgePath(es) =>
        if es == [] {
          return Failure(EmptyPath);
        }
        edges := es;
      case NodePath(nodes) =>
        if nodes == [] {
          return Failure(EmptyPath);
        }
        var converted := GetPathAsEdges(nodes, E);
        if converted.Failure? {
          return Failure(converted.error);
        }
        edges := converted.value;
    }
    var key := "";
    for k := 0 to |edges|
      invariant key == Concat(EdgeNames(edges)[..k])
    {
      assert EdgeNames(edges)[..k + 1][..k] == EdgeNames(edges)[..k];
      if key != "" {
        key := key + " - ";
      }
      key := key + edges[k].name;
    }
    assert EdgeNames(edges)[..|edges|] == EdgeNames(edges);
    r := Success(key);
  }

  /** With no empty name, the loop's key is the names joined by " - ". */
  lemma {:induction false} ConcatIsJoin(xs: seq<string>)
    requires forall k :: 0 <= k < |xs| ==> xs[k] != ""
    ensures Concat(xs) == Join(xs)
  {
    if |xs| > 1 {
      var front := xs[..|xs| - 1];
      ConcatIsJoin(front);
      JoinSnoc(front, xs[|xs| - 1]);
      assert Join(front) != "" by {
        assert front[0] == xs[0];
        JoinStartsWithFirst(front);
      }
      assert front + [xs[|xs| - 1]] == xs;
    } else if |xs| == 1 {
      assert xs[..0] == [];
    }
  }

  lemma {:induction false} JoinStartsWithFirst(xs: seq<string>)
    requires xs != []
    ensures |Join(xs)| >= |xs[0]| && Join(xs)[..|xs[0]|] == xs[0]
  {
    if |xs| > 1 {
      assert (xs[0] + " - " + Join(xs[1..]))[..|xs[0]|] == xs[0];
    }
  }

  lemma {:induction false} JoinSnoc(xs: seq<string>, x: string)
    requires xs != []
    ensures Join(xs + [x]) == Join(xs) + " - " + x
    decreases |xs|
  {
    if |xs| == 1 {
      assert (xs + [x])[1..] == [x];
    } else {
      assert (xs + [x])[1..] == xs[1..] + [x];
      JoinSnoc(xs[1..], x);
    }
  }

  /** No name contains a space. */
  predicate SpaceFree(xs: seq<string>)
  {
    forall k, c :: 0 <= k < |xs| && 0 <= c < |xs[k]| ==> xs[k][c] != ' '
  }

  /** The position of the first space in s, or |s| when there is none. */
  function SpaceIndex(s: string): (n: nat)
    ensures n <= |s| && (n < |s| ==> s[n] == ' ') && forall c :: 0 <= c < n ==> s[c] != ' '
  {
    if s == [] then 0 else if s[0] == ' ' then 0 else 1 + SpaceIndex(s[1..])
  }

  /** A key of space-free names starts with the first name, and its first space ends that name. */
  lemma JoinShape(xs: seq<string>)
    requires xs != [] && SpaceFree(xs)
    ensures |Join(xs)| >= |xs[0]| && Join(xs)[..|xs[0]|] == xs[0]
    ensures SpaceIndex(Join(xs)) == |xs[0]|
    ensures |xs| == 1 <==> |Join(xs)| == |xs[0]|
    ensures |xs| > 1 ==> Join(xs)[|xs[0]| + 3..] == Join(xs[1..])
  {
    var j := Join(xs);
    if |xs| > 1 {
      assert j == xs[0] + " - " + Join(xs[1..]);
      assert j[..|xs[0]|] == xs[0];
      assert j[|xs[0]|] == ' ';
    }
  }

  /**
   * Two lists of non-empty names without spaces that join to the same key are the same list.
   * Node names are read as whitespace-separated words, so edge names "start-end" qualify. Edges
   * with equal names (parallel edges, or hyphenated node names as in A-B to C and A to B-C) still
   * share a key, and their routes merge.
   */
  lemma {:induction false} JoinInjective(xs: seq<string>, ys: seq<string>)
    requires SpaceFree(xs) && SpaceFree(ys)
    requires (forall k :: 0 <= k < |xs| ==> xs[k] != "") && (forall k :: 0 <= k < |ys| ==> ys[k] != "")
    requires Join(xs) == Join(ys)
    ensures xs == ys
    decreases |xs|
  {
    if xs == [] {
      if ys != [] {
        JoinShape(ys);
        assert false;
      }
    } else if ys == [] {
      JoinShape(xs);
      assert false;
    } else {
      JoinShape(xs);
      JoinShape(ys);
      var j := Join(xs);
      assert xs[0] == j[..|xs[0]|] == ys[0];
      if |xs| > 1 {
        JoinInjective(xs[1..], ys[1..]);
        assert xs == [xs[0]] + xs[1..];
        assert ys == [ys[0]] + ys[1..];
      }
    }
  }

  /**
   * Two edge paths share a route key exactly when their edges' names agree, provided every edge
   * name is non-empty and has no space.
   */
  lemma RouteKeyIdentifiesNames(E: seq<Edge>, es: seq<Edge>, fs: seq<Edge>)
    requires es != [] && fs != []
    requires SpaceFree(EdgeNames(es)) && SpaceFree(EdgeNames(fs))
    requires (forall k :: 0 <= k < |es| ==> es[k].name != "") && (forall k :: 0 <= k < |fs| ==> fs[k].name != "")
    ensures RouteKey(E, EdgePath(es)) == RouteKey(E, EdgePath(fs)) <==> EdgeNames(es) == EdgeNames(fs)
  {
    ConcatIsJoin(EdgeNames(es));
    ConcatIsJoin(EdgeNames(fs));
    if RouteKey(E, EdgePath(es)) == RouteKey(E, EdgePath(fs)) {
      JoinInjective(EdgeNames(es), EdgeNames(fs));
    }
  }

  /** Edges that join the same ordered pair of names, listed after the first, are not present. */
  predicate NoParallelEdges(E: seq<Edge>)
  {
    forall i, j :: 0 <= i < j < |E| ==> !(E[i].start == E[j].start && E[i].end == E[j].end)
  }

  /** Without parallel edges, the first edge joining the ends of edge a is a. */
  lemma OnlyEdge(E: seq<Edge>, a: int)
    requires NoParallelEdges(E) && 0 <= a < |E|
    ensures FirstEdge(E, E[a].start, E[a].end) == Some(a)
  {
    var r := FirstEdge(E, E[a].start, E[a].end);
    assert r.Some?;
  }

  /**
   * Along a walk, getPathAsEdges picks exactly the walk's edges when no two edges join the
   * same ordered pair of nodes (with parallel edges it picks the first of each bundle).
   */
  lemma {:induction false} AlongWalk(E: seq<Edge>, arcs: seq<Arc>, w: seq<int>, origin: string, destination: string)
    requires NoParallelEdges(E) && |arcs| == |E|
    requires forall j :: 0 <= j < |E| ==> arcs[j].start == E[j].start && arcs[j].end == E[j].end
    requires IsWalk(arcs, w, origin, destination)
    ensures EdgesAlong(E, WalkNodes(arcs, w, origin)) == Success(w)
    decreases |w|
  {
    if w != [] {
      var n := |w| - 1;
      var front, a := w[..n], w[n];
      var P := WalkNodes(arcs, w, origin);
      WalkFront(arcs, w, origin, destination);
      AlongWalk(E, arcs, front, origin, arcs[a].start);
      assert P[..n + 1] == WalkNodes(arcs, front, origin);
      assert P[n] == E[a].start && P[n + 1] == E[a].end by {
        WalkNodesJoined(arcs, w, origin, destination);
      }
      OnlyEdge(E, a);
      assert front + [a] == w;
    }
  }

  /** The cached cost of every edge of E, by index. */
  function EdgeCosts(E: seq<Edge>): (cs: seq<real>)
    reads E
    ensures |cs| == |E| && forall j :: 0 <= j < |E| ==> cs[j] == E[j].cost
  {
    seq(|E|, j requires 0 <= j < |E| reads E => E[j].cost)
  }

  /** The costs cs at indices js, added up in order. */
  function CostSum(cs: seq<real>, js: seq<int>): real
    requires forall k :: 0 <= k < |js| ==> 0 <= js[k] < |cs|
  {
    if js == [] then 0.0 else CostSum(cs, js[..|js| - 1]) + cs[js[|js| - 1]]
  }

  /** The length of the path through the nodes named names, or the error raised on the way. */
  function NamesLength(E: seq<Edge>, names: seq<string>): Result<real, PathError>
    reads E
  {
    match EdgesAlong(E, names)
    case Failure(err) => Failure(err)
    case Success(js) => Success(CostSum(EdgeCosts(E), js))
  }

  /** What calcPathLength returns for the node path P. */
  function PathLength(E: seq<Edge>, P: seq<Node>): Result<real, PathError>
    reads E
  {
    if P == [] then Failure(EmptyPath) else NamesLength(E, Names(P))
  }

  /**
   * calcPathLength on a list of nodes: the sum of the costs of the first edges joining
   * consecutive nodes. Reading P[0] raises on an empty path.
   */
  method CalcPathLength(P: seq<Node>, E: seq<Edge>) returns (r: Result<real, PathError>)
    ensures r == PathLength(E, P)
  {
    if P == [] {
      return Failure(EmptyPath);
    }
    ghost var names := Names(P);
    ghost var js: seq<int> := [];
    var length := 0.0;
    var prev: Node? := null;
    for i := 0 to |P|
      invariant prev == if i == 0 then null else P[i - 1]
      invariant EdgesAlong(E, names[..i]) == Success(js)
      invariant length == CostSum(EdgeCosts(E), js)
    {
      if prev != null {
        assert prev.name == names[i - 1] && P[i].name == names[i];
        var e := FirstEdge(E, prev.name, P[i].name);
        if e.None? {
          AlongGap(E, names, i, js);
          PathLengthAlong(E, P);
          return Failure(NoEdge(prev.name, P[i].name));
        }
        LengthAlongSnoc(E, names, i, js, e.value);
        length := length + E[e.value].cost;
        js := js + [e.value];
      } else {
        AlongFirst(E, names);
      }
      prev := P[i];
    }
    assert names[..|P|] == names;
    PathLengthAlong(E, P);
    r := Success(length);
  }

  /** One more joined name adds its first edge to the edges, and that edge's cost to the length. */
  lemma LengthAlongSnoc(E: seq<Edge>, names: seq<string>, i: int, js: seq<int>, j: int)
    requires 0 < i < |names| && EdgesAlong(E, names[..i]) == Success(js)
    requires FirstEdge(E, names[i - 1], names[i]) == Some(j)
    ensures EdgesAlong(E, names[..i + 1]) == Success(js + [j])
    ensures CostSum(EdgeCosts(E), js + [j]) == CostSum(EdgeCosts(E), js) + E[j].cost
  {
    AlongSnoc(E, names, i, js, j);
    CostSumSnoc(EdgeCosts(E), js, j);
  }

  /** The length of a non-empty node path follows the edges along its names. */
  lemma PathLengthAlong(E: seq<Edge>, P: seq<Node>)
    requires P != []
    ensures EdgesAlong(E, Names(P)).Failure? ==> PathLength(E, P) == Failure(EdgesAlong(E, Names(P)).error)
    ensures EdgesAlong(E, Names(P)).Success? ==>
      PathLength(E, P) == Success(CostSum(EdgeCosts(E), EdgesAlong(E, Names(P)).value))
  {
  }

  lemma CostSumSnoc(cs: seq<real>, js: seq<int>, j: int)
    requires forall k :: 0 <= k < |js| ==> 0 <= js[k] < |cs|
    requires 0 <= j < |cs|
    ensures CostSum(cs, js + [j]) == CostSum(cs, js) + cs[j]
  {
    assert (js + [j])[..|js|] == js;
  }

  /** When every arc carries its edge's cost, the edges' costs along a walk add up to the walk's cost. */
  lemma {:induction false} CostSumIsWalkCost(cs: seq<real>, arcs: seq<Arc>, w: seq<int>)
    requires |arcs| == |cs| && forall j :: 0 <= j < |cs| ==> arcs[j].cost == cs[j]
    requires forall k :: 0 <= k < |w| ==> 0 <= w[k] < |cs|
    ensures CostSum(cs, w) == WalkCost(arcs, w)
  {
    if w != [] {
      CostSumIsWalkCost(cs, arcs, w[..|w| - 1]);
    }
  }

  /**
   * Without parallel edges, the nodes of a walk form a path whose edges are the walk's and
   * whose calcPathLength is the walk's cost.
   */
  lemma WalkPath(E: seq<Edge>, ignored: seq<Edge>, w: seq<int>, origin: string, destination: string, P: seq<Node>)
    requires NoParallelEdges(E)
    requires IsWalk(Arcs(E, ignored), w, origin, destination)
    requires Names(P) == WalkNodes(Arcs(E, ignored), w, origin)
    ensures PathEdges(E, P) == Success(EdgesAt(E, w))
    ensures PathLength(E, P) == Success(WalkCost(Arcs(E, ignored), w))
  {
    var arcs := Arcs(E, ignored);
    AlongWalk(E, arcs, w, origin, destination);
    CostSumIsWalkCost(EdgeCosts(E), arcs, w);
    assert P != [] by {
      assert |Names(P)| == |w| + 1;
    }
  }

  /** getPathAsEdges finds an edge for every step of a walk: the first one joining its two nodes. */
  lemma WalkHasEdges(E: seq<Edge>, arcs: seq<Arc>, w: seq<int>, origin: string, destination: string)
    requires |arcs| == |E|
    requires forall j :: 0 <= j < |E| ==> arcs[j].start == E[j].start && arcs[j].end == E[j].end
    requires IsWalk(arcs, w, origin, destination)
    ensures EdgesAlong(E, WalkNodes(arcs, w, origin)).Success?
    ensures |EdgesAlong(E, WalkNodes(arcs, w, origin)).value| == |w|
  {
    var P := WalkNodes(arcs, w, origin);
    WalkNodesJoined(arcs, w, origin, destination);
    forall i | 0 <= i < |P| - 1 ensures FirstEdge(E, P[i], P[i + 1]).Some? {
      assert E[w[i]].start == P[i] && E[w[i]].end == P[i + 1];
    }
    AlongPicksFirst(E, P);
  }
}
