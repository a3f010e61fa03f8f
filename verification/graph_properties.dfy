/**
 * The property record of a graph: named entries (node count, absent edges, connected
 * components and connectivity queries, traversal orders, cycle flag, topological order,
 * girth) put into a JSON object. The graph algorithms behind the entries are given as
 * inputs; what is modelled is how each entry is sampled, formatted and stored.
 */
module Properties {
  import opened Wrappers
  import opened Text
  import opened Graphs
  import opened Randomness
  import FileUtils

  /** The JSON values the record holds. */
  datatype Json =
    | JInt(n: int)
    | JBool(b: bool)
    | JString(s: string)
    | JArray(elems: seq<Json>)
    | JObject(members: map<string, Json>)

  const N_C: string := "node_count"
  const E_C: string := "edge_count"
  const E_A: string := "edge_absence"
  const NUM_CC: string := "number_of_connected_components"
  const CC: string := "connected_components"
  const CC_T: string := "connectivity_true"
  const CC_F: string := "connectivity_false"
  const S_T: string := "spanning_tree"
  const BFS_O: string := "bfs_traversal_order"
  const DFS_O: string := "dfs_traversal_order"
  const CYC_C: string := "cycle_check"
  const TOPO_O: string := "topological_sort_order"
  const DIAMETER: string := "diameter"
  const RADIUS: string := "radius"
  const GIRTH: string := "girth"
  const NUM_TRI: string := "number_of_triangles"
  const S_P: string := "shortest_path"
  const MAX_FLOW: string := "maximum_flow"
  const HAMILTON_P: string := "hamilton_path"

  /** The names a record entry may have. */
  const PROPERTIES: set<string> :=
    {N_C, E_C, E_A, NUM_CC, CC, CC_T, CC_F, S_T, BFS_O, DFS_O, CYC_C, TOPO_O,
     DIAMETER, RADIUS, GIRTH, NUM_TRI, S_P, MAX_FLOW, HAMILTON_P}

  /** `nextInt(0)`'s exception, which `getRandElem` raises on an empty list. */
  const BOUND_MESSAGE: string := "bound must be positive"

  /** Java's `Integer.MAX_VALUE`, the girth of a graph without cycles. */
  const NO_GIRTH: int := INT_MAX

  // ---------------------------------------------------------------- formats

  /** `getVertexSeq`: nothing for no vertices, otherwise "(a,b,c)". */
  function VertexSeqText(order: seq<int>): string
  {
    if order == [] then "" else "(" + Join(FileUtils.IntStrings(order), ",") + ")"
  }

  /** `getVertexSeq` on the vertices an iterator yields: "(", each vertex and ",", then the trim. */
  method VertexSeq(order: seq<int>) returns (text: string)
    ensures text == VertexSeqText(order)
  {
    var s := "(";
    ghost var parts := FileUtils.IntStrings(order);
    ghost var acc := "";
    for i := 0 to |order|
      invariant acc == Terminated(parts[..i], ",")
      invariant s == "(" + acc
    {
      var piece := IntToString(order[i]) + ",";
      TerminatedStep(parts, i, ",");
      AppendAssoc("(", acc, piece);
      s := s + piece;
      acc := acc + piece;
    }
    assert parts[..|order|] == parts;
    if |s| == 1 {
      text := "";
    } else {
      TerminatedIsJoin(parts, ",");
      assert s == ("(" + Join(parts, ",")) + ",";
      text := s[..|s| - 1] + ")";
    }
  }

  /**
   * A vertex sequence reads back: the text between the brackets, split at ',', gives one
   * piece per vertex, and each piece parses as that vertex.
   */
  lemma VertexSeqReadsBack(order: seq<int>)
    requires order != [] && forall i :: 0 <= i < |order| ==> IsInt32(order[i])
    ensures var t := VertexSeqText(order);
            && |t| >= 2 && t[0] == '(' && t[|t| - 1] == ')'
            && |Split(t[1..|t| - 1], ',')| == |order|
            && forall i :: 0 <= i < |order| ==> ParseInt(Split(t[1..|t| - 1], ',')[i]) == Some(order[i])
  {
    var parts := FileUtils.IntStrings(order);
    var t := VertexSeqText(order);
    assert t[1..|t| - 1] == Join(parts, [',']);
    forall i | 0 <= i < |parts|
      ensures ',' !in parts[i]
    {
      IntToStringHasNo(order[i], ',');
    }
    IntToStringShape(order[|order| - 1]);
    SplitOfJoin(parts, ',');
    forall i | 0 <= i < |order|
      ensures ParseInt(parts[i]) == Some(order[i])
    {
      ParseIntOfIntToString(order[i]);
    }
  }

  /** `addVertexPairs`: a pair written as "(u,v)". */
  function PairText(e: Edge): string
  {
    "(" + IntToString(e.0) + "," + IntToString(e.1) + ")"
  }

  /** A pair is written as the vertex sequence of its two endpoints. */
  lemma PairIsVertexSeq(e: Edge)
    ensures PairText(e) == VertexSeqText([e.0, e.1])
  {
    var a, b := IntToString(e.0), IntToString(e.1);
    var parts := FileUtils.IntStrings([e.0, e.1]);
    assert parts == [a, b];
    assert parts[..1] == [a];
    assert Join(parts, ",") == a + "," + b;
    calc {
      VertexSeqText([e.0, e.1]);
      "(" + (a + "," + b) + ")";
      "(" + a + "," + b + ")";
    }
  }

  function PairsJson(pairs: seq<Edge>): (r: Json)
    ensures r.JArray? && |r.elems| == |pairs|
  {
    JArray(seq(|pairs|, i requires 0 <= i < |pairs| => JString(PairText(pairs[i]))))
  }

  function IntsJson(xs: seq<int>): (r: Json)
    ensures r.JArray? && |r.elems| == |xs|
  {
    JArray(seq(|xs|, i requires 0 <= i < |xs| => JInt(xs[i])))
  }

  /** The connected_components entry: one array of vertices per component. */
  function ComponentsJson(comps: seq<seq<int>>): (r: Json)
    ensures r.JArray? && |r.elems| == |comps|
  {
    JArray(seq(|comps|, i requires 0 <= i < |comps| => IntsJson(comps[i])))
  }

  /** One traversal entry: its start vertex and the vertex sequence visited from it. */
  function TraversalEntry(start: int, order: seq<int>): Json
  {
    JObject(map["start" := JInt(start), "order" := JString(VertexSeqText(order))])
  }

  // ---------------------------------------------------------------- connectivity

  /**
   * The connected components as `connectedSets` lists them: non-empty, pairwise
   * disjoint, and covering exactly the vertices.
   */
  predicate IsPartition(comps: seq<seq<int>>, vertices: seq<int>)
  {
    && Separate(comps)
    && (forall k :: 0 <= k < |vertices| ==> exists i :: 0 <= i < |comps| && vertices[k] in comps[i])
    && (forall i, k :: 0 <= i < |comps| && 0 <= k < |comps[i]| ==> comps[i][k] in vertices)
  }

  /** Non-empty, pairwise disjoint components. */
  predicate Separate(comps: seq<seq<int>>)
  {
    && (forall i :: 0 <= i < |comps| ==> |comps[i]| > 0)
    && (forall i, j, x :: 0 <= i < |comps| && 0 <= j < |comps| && i != j && x in comps[i] ==> x !in comps[j])
  }

  predicate SameComponent(comps: seq<seq<int>>, u: int, v: int)
  {
    exists i :: 0 <= i < |comps| && u in comps[i] && v in comps[i]
  }

  /** connectivity_true pairs: two different vertices of one component. */
  predicate TrueQueries(comps: seq<seq<int>>, pairs: seq<Edge>)
  {
    forall k :: 0 <= k < |pairs| ==> pairs[k].0 != pairs[k].1 && SameComponent(comps, pairs[k].0, pairs[k].1)
  }

  /** connectivity_false pairs: two vertices of the graph in different components. */
  predicate FalseQueries(comps: seq<seq<int>>, vertices: seq<int>, pairs: seq<Edge>)
  {
    forall k :: 0 <= k < |pairs| ==>
      pairs[k].0 in vertices && pairs[k].1 in vertices && !SameComponent(comps, pairs[k].0, pairs[k].1)
  }

  /** Vertices of two different components are never in one component. */
  lemma AcrossComponents(comps: seq<seq<int>>, vertices: seq<int>, i1: nat, i2: nat, u: int, v: int)
    requires IsPartition(comps, vertices)
    requires i1 < |comps| && i2 < |comps| && i1 != i2 && u in comps[i1] && v in comps[i2]
    ensures !SameComponent(comps, u, v)
  {
    forall k | 0 <= k < |comps| && u in comps[k]
      ensures v !in comps[k]
    {
      assert k == i1;
    }
  }

  /** A partition has no components exactly when there are no vertices. */
  lemma PartitionEmpty(comps: seq<seq<int>>, vertices: seq<int>)
    requires IsPartition(comps, vertices)
    ensures |comps| == 0 <==> |vertices| == 0
  {
    if |vertices| > 0 {
      var i :| 0 <= i < |comps| && vertices[0] in comps[i];
    }
    if |comps| > 0 {
      assert comps[0][0] in vertices;
      assert |vertices| > 0;
    }
  }

  /** The vertices of the first `n` components, together. */
  function UnionOf(comps: seq<seq<int>>, n: nat): set<int>
    requires n <= |comps|
  {
    if n == 0 then {} else UnionOf(comps, n - 1) + Elements(comps[n - 1])
  }

  lemma {:induction false} UnionOfMembers(comps: seq<seq<int>>, n: nat, x: int)
    requires n <= |comps|
    ensures x in UnionOf(comps, n) <==> exists i :: 0 <= i < n && x in comps[i]
  {
    if n > 0 {
      UnionOfMembers(comps, n - 1, x);
    }
  }

  /**
   * Disjoint non-empty components cover at least one vertex each, and one more as soon
   * as one of them holds two different vertices.
   */
  lemma {:induction false} UnionOfSize(comps: seq<seq<int>>, n: nat, big: int, u: int, v: int)
    requires Separate(comps) && n <= |comps|
    requires 0 <= big < n ==> u != v && u in comps[big] && v in comps[big]
    ensures |UnionOf(comps, n)| >= n + (if 0 <= big < n then 1 else 0)
  {
    if n > 0 {
      UnionOfSize(comps, n - 1, big, u, v);
      UnionDisjoint(comps, n);
      var last := Elements(comps[n - 1]);
      var some: set<int> := if big == n - 1 then {u, v} else {comps[n - 1][0]};
      SubsetCard(some, last);
    }
  }

  lemma UnionDisjoint(comps: seq<seq<int>>, n: nat)
    requires Separate(comps) && 0 < n <= |comps|
    ensures UnionOf(comps, n - 1) * Elements(comps[n - 1]) == {}
  {
    var last := Elements(comps[n - 1]);
    forall x | x in last
      ensures x !in UnionOf(comps, n - 1)
    {
      UnionOfMembers(comps, n - 1, x);
    }
  }



  /**
   * As many components as vertices: every component is a single vertex, so two different
   * vertices are never in one component.
   */
  lemma AllSingletons(comps: seq<seq<int>>, vertices: seq<int>, u: int, v: int)
    requires IsPartition(comps, vertices) && NoDup(vertices) && |comps| == |vertices| && u != v
    ensures !SameComponent(comps, u, v)
  {
    if SameComponent(comps, u, v) {
      var big :| 0 <= big < |comps| && u in comps[big] && v in comps[big];
      UnionOfSize(comps, |comps|, big, u, v);
      forall x
        ensures x in UnionOf(comps, |comps|) <==> x in vertices
      {
        UnionOfMembers(comps, |comps|, x);
      }
      assert UnionOf(comps, |comps|) == Elements(vertices);
      ElementsCard(vertices);
      assert false;
    }
  }

  // ---------------------------------------------------------------- sampling loops

  /**
   * A loop of `getRandElem` pairs from one list, kept when the two differ, until `target`
   * pairs (the one-component and all-singleton cases of `addConnectivityInfo`); two draws
   * per attempt, starting at draw `from`.
   */
  method SamplePairs(xs: seq<int>, target: nat, draws: seq<nat>, from: nat) returns (r: Retry<seq<Edge>>, next: nat)
    requires target == 0 || |xs| > 0
    requires from <= |draws|
    ensures from <= next <= |draws|
    ensures !r.Throws?
    ensures r.Done? ==> |r.value| == target
    ensures r.Done? ==> forall k :: 0 <= k < |r.value| ==>
                          r.value[k].0 in xs && r.value[k].1 in xs && r.value[k].0 != r.value[k].1
  {
    var pairs: seq<Edge> := [];
    next := from;
    while |pairs| < target
      invariant from <= next <= |draws| && |pairs| <= target
      invariant forall k :: 0 <= k < |pairs| ==> pairs[k].0 in xs && pairs[k].1 in xs && pairs[k].0 != pairs[k].1
      decreases |draws| - next
    {
      if next + 2 > |draws| {
        return StillRetrying, next;
      }
      var u, v := Pick(xs, draws[next]), Pick(xs, draws[next + 1]);
      next := next + 2;
      if u != v {
        pairs := pairs + [(u, v)];
      }
    }
    r := Done(pairs);
  }

  /**
   * The connectivity_true loop for several components: a drawn component, two drawn
   * vertices of it, kept when they differ; three draws per attempt.
   */
  method SampleWithinComponents(comps: seq<seq<int>>, vertices: seq<int>, target: nat, draws: seq<nat>, from: nat)
    returns (r: Retry<seq<Edge>>, next: nat)
    requires IsPartition(comps, vertices) && |comps| > 0
    requires from <= |draws|
    ensures from <= next <= |draws|
    ensures !r.Throws?
    ensures r.Done? ==> |r.value| == target && TrueQueries(comps, r.value)
  {
    var pairs: seq<Edge> := [];
    next := from;
    while |pairs| < target
      invariant from <= next <= |draws| && |pairs| <= target
      invariant TrueQueries(comps, pairs)
      decreases |draws| - next
    {
      if next + 3 > |draws| {
        return StillRetrying, next;
      }
      var cc := Pick(comps, draws[next]);
      var u, v := Pick(cc, draws[next + 1]), Pick(cc, draws[next + 2]);
      next := next + 3;
      if u != v {
        pairs := pairs + [(u, v)];
      }
    }
    r := Done(pairs);
  }

  /**
   * The connectivity_false loop for several components: two drawn components, redrawn
   * when they are the same one, then a drawn vertex of each; two or four draws per attempt.
   */
  method SampleAcrossComponents(comps: seq<seq<int>>, vertices: seq<int>, target: nat, draws: seq<nat>, from: nat)
    returns (r: Retry<seq<Edge>>, next: nat)
    requires IsPartition(comps, vertices) && |comps| > 0
    requires from <= |draws|
    ensures from <= next <= |draws|
    ensures !r.Throws?
    ensures r.Done? ==> |r.value| == target && FalseQueries(comps, vertices, r.value)
  {
    var pairs: seq<Edge> := [];
    next := from;
    while |pairs| < target
      invariant from <= next <= |draws| && |pairs| <= target
      invariant FalseQueries(comps, vertices, pairs)
      decreases |draws| - next
    {
      if next + 2 > |draws| {
        return StillRetrying, next;
      }
      var i1, i2 := NextInt(draws[next], |comps|), NextInt(draws[next + 1], |comps|);
      next := next + 2;
      if i1 == i2 {
        continue;
      }
      if next + 2 > |draws| {
        return StillRetrying, next;
      }
      var u, v := Pick(comps[i1], draws[next]), Pick(comps[i2], draws[next + 1]);
      next := next + 2;
      AcrossComponents(comps, vertices, i1, i2, u, v);
      pairs := pairs + [(u, v)];
    }
    r := Done(pairs);
  }

  /**
   * The connectivity queries of `addConnectivityInfo`: ⌊|V|/2⌋ same-component pairs of
   * different vertices and ⌊|V|/2⌋ different-component pairs, except that a connected
   * graph has no false queries and a graph without edges between its vertices (as many
   * components as vertices) has no true queries.
   */
  method SampleConnectivity(comps: seq<seq<int>>, vertices: seq<int>, draws: seq<nat>)
    returns (r: Retry<(seq<Edge>, seq<Edge>)>)
    requires IsPartition(comps, vertices) && NoDup(vertices)
    ensures !r.Throws?
    ensures r.Done? ==> TrueQueries(comps, r.value.0) && FalseQueries(comps, vertices, r.value.1)
    ensures r.Done? && |comps| == 1 ==> |r.value.0| == |vertices| / 2 && r.value.1 == []
    ensures r.Done? && |comps| != 1 && |comps| == |vertices| ==> r.value.0 == [] && |r.value.1| == |vertices| / 2
    ensures r.Done? && |comps| != 1 && |comps| != |vertices| ==>
              |r.value.0| == |vertices| / 2 && |r.value.1| == |vertices| / 2
  {
    var numOfQueries := |vertices| / 2;
    if |comps| == 1 {
      var t, _ := SamplePairs(vertices, numOfQueries, draws, 0);
      if t.Done? {
        forall k | 0 <= k < |t.value|
          ensures SameComponent(comps, t.value[k].0, t.value[k].1)
        {
          assert t.value[k].0 in comps[0] && t.value[k].1 in comps[0];
        }
        r := Done((t.value, []));
      } else {
        r := StillRetrying;
      }
    } else if |comps| == |vertices| {
      var f, _ := SamplePairs(vertices, numOfQueries, draws, 0);
      if f.Done? {
        forall k | 0 <= k < |f.value|
          ensures !SameComponent(comps, f.value[k].0, f.value[k].1)
        {
          AllSingletons(comps, vertices, f.value[k].0, f.value[k].1);
        }
        r := Done(([], f.value));
      } else {
        r := StillRetrying;
      }
    } else {
      PartitionEmpty(comps, vertices);
      var t, next := SampleWithinComponents(comps, vertices, numOfQueries, draws, 0);
      if t.Done? {
        var f, _ := SampleAcrossComponents(comps, vertices, numOfQueries, draws, next);
        if f.Done? {
          r := Done((t.value, f.value));
        } else {
          r := StillRetrying;
        }
      } else {
        r := StillRetrying;
      }
    }
  }

  // ---------------------------------------------------------------- absent edges

  /** edge_absence pairs: distinct ordered pairs of different vertices with no edge between them. */
  predicate AbsentPairs(g: Graph, pairs: seq<Edge>)
  {
    && NoDup(pairs)
    && forall k :: 0 <= k < |pairs| ==>
         pairs[k].0 in g.vertices && pairs[k].1 in g.vertices && pairs[k].0 != pairs[k].1
         && !HasEdge(g.edges, pairs[k].0, pairs[k].1)
  }

  /**
   * The loop of `addEdgeAbsence`: two drawn vertices per attempt, rejected when equal or
   * joined, collected without repeats until there are ⌊|E|/2⌋; nothing when there are no
   * edges.
   */
  method SampleAbsentEdges(g: Graph, draws: seq<nat>) returns (r: Retry<seq<Edge>>)
    requires IsSimple(g)
    ensures !r.Throws?
    ensures g.edges == [] ==> r == Done([])
    ensures r.Done? ==> |r.value| == |g.edges| / 2 && AbsentPairs(g, r.value)
    ensures r.Done? ==> |g.edges| / 2 <= |g.vertices| * (|g.vertices| - 1) - 2 * |g.edges|
  {
    if g.edges == [] {
      return Done([]);
    }
    var vertices := g.vertices;
    assert g.edges[0].0 in vertices;
    var numEdges := |g.edges|;
    var property: seq<Edge> := [];
    var k := 0;
    while |property| < numEdges / 2
      invariant k <= |draws| && |property| <= numEdges / 2
      invariant AbsentPairs(g, property)
      decreases |draws| - k
    {
      if k + 2 > |draws| {
        return StillRetrying;
      }
      var u, v := Pick(vertices, draws[k]), Pick(vertices, draws[k + 1]);
      k := k + 2;
      if u == v || HasEdge(g.edges, u, v) {
        continue;
      }
      if (u, v) !in property {
        property := property + [(u, v)];
      }
    }
    AbsentPairsBound(g, property);
    r := Done(property);
  }

  /**
   * A complete graph has no absent edge to sample: only the empty list qualifies, so with
   * two or more edges the loop of `addEdgeAbsence` never ends.
   */
  lemma CompleteGraphHasNoAbsentPair(g: Graph, pairs: seq<Edge>)
    requires forall u, v :: u in g.vertices && v in g.vertices && u != v ==> HasEdge(g.edges, u, v)
    ensures AbsentPairs(g, pairs) <==> pairs == []
  {
    if pairs != [] {
      var p := pairs[0];
      if p.0 in g.vertices && p.1 in g.vertices && p.0 != p.1 {
        assert HasEdge(g.edges, p.0, p.1);
      }
    }
  }

  /**
   * A graph has |V|(|V|-1) ordered pairs of different vertices, and each edge joins two
   * of them, so at most |V|(|V|-1) - 2|E| pairs are absent. The loop of `addEdgeAbsence`
   * ends only with ⌊|E|/2⌋ of them: when ⌊|E|/2⌋ exceeds that bound it never ends.
   */
  lemma AbsentPairsBound(g: Graph, pairs: seq<Edge>)
    requires IsSimple(g) && AbsentPairs(g, pairs)
    ensures |pairs| <= |g.vertices| * (|g.vertices| - 1) - 2 * |g.edges|
  {
    var vs := g.vertices;
    var n := |vs|;
    var os := Oriented(g.edges);
    var ds := Diagonal(vs);
    OrientedFacts(g);
    NoDupConcat(pairs, os);
    forall i, j | 0 <= i < |pairs| && 0 <= j < |os|
      ensures pairs[i] != os[j]
    {
      assert HasEdge(g.edges, os[j].0, os[j].1);
    }
    forall i, j | 0 <= i < |pairs + os| && 0 <= j < |ds|
      ensures (pairs + os)[i] != ds[j]
    {
      if i >= |pairs| {
        assert (pairs + os)[i] == os[i - |pairs|];
      }
    }
    NoDupConcat(pairs + os, ds);
    var xs := pairs + os + ds;
    var all := OrderedPairs(vs, n);
    forall k | 0 <= k < |xs|
      ensures xs[k] in all
    {
      var x := xs[k];
      if k < |pairs| {
        assert x == pairs[k];
      } else if k < |pairs| + |os| {
        assert x == os[k - |pairs|];
      } else {
        assert x == ds[k - |pairs| - |os|];
      }
      assert x.0 in vs && x.1 in vs;
      var i :| 0 <= i < n && vs[i] == x.0;
      var j :| 0 <= j < n && vs[j] == x.1;
      OrderedPairsHas(vs, n, i, j);
    }
    DistinctWithin(xs, all);
    assert n * n - n == n * (n - 1);
  }

  /** The ordered pairs (vs[i], vs[j]) for i < m and every j, row by row. */
  function OrderedPairs(vs: seq<int>, m: nat): (r: seq<Edge>)
    requires m <= |vs|
    ensures |r| == m * |vs|
  {
    if m == 0 then []
    else
      assert (m - 1) * |vs| + |vs| == m * |vs|;
      OrderedPairs(vs, m - 1) + seq(|vs|, j requires 0 <= j < |vs| => (vs[m - 1], vs[j]))
  }

  lemma {:induction false} OrderedPairsHas(vs: seq<int>, m: nat, i: nat, j: nat)
    requires m <= |vs| && i < m && j < |vs|
    ensures (vs[i], vs[j]) in OrderedPairs(vs, m)
    decreases m
  {
    var row := seq(|vs|, k requires 0 <= k < |vs| => (vs[m - 1], vs[k]));
    assert OrderedPairs(vs, m) == OrderedPairs(vs, m - 1) + row;
    if i < m - 1 {
      OrderedPairsHas(vs, m - 1, i, j);
    } else {
      assert row[j] == (vs[i], vs[j]);
    }
  }

  /** Each edge in both orientations: entries 2k and 2k+1 come from edge k. */
  function Oriented(edges: seq<Edge>): (r: seq<Edge>)
    ensures |r| == 2 * |edges|
  {
    seq(2 * |edges|, k requires 0 <= k < 2 * |edges| =>
      if k % 2 == 0 then edges[k / 2] else (edges[k / 2].1, edges[k / 2].0))
  }

  /** The pairs (v, v). */
  function Diagonal(vs: seq<int>): (r: seq<Edge>)
    ensures |r| == |vs|
  {
    seq(|vs|, i requires 0 <= i < |vs| => (vs[i], vs[i]))
  }

  lemma OrientedFacts(g: Graph)
    requires IsSimple(g)
    ensures NoDup(Oriented(g.edges)) && NoDup(Diagonal(g.vertices))
    ensures forall k :: 0 <= k < |Oriented(g.edges)| ==>
              Joins(g.edges[k / 2], Oriented(g.edges)[k].0, Oriented(g.edges)[k].1)
              && Oriented(g.edges)[k].0 in g.vertices && Oriented(g.edges)[k].1 in g.vertices
              && Oriented(g.edges)[k].0 != Oriented(g.edges)[k].1
    ensures forall k :: 0 <= k < |Diagonal(g.vertices)| ==> Diagonal(g.vertices)[k].0 == Diagonal(g.vertices)[k].1
  {
    var es := g.edges;
    var os := Oriented(es);
    forall i, j | 0 <= i < j < |os|
      ensures os[i] != os[j]
    {
      if i / 2 < j / 2 {
        if os[i] == os[j] {
          assert Joins(es[j / 2], es[i / 2].0, es[i / 2].1);
        }
      }
    }
    var ds := Diagonal(g.vertices);
    forall i, j | 0 <= i < j < |ds|
      ensures ds[i] != ds[j]
    {
    }
  }

  // ---------------------------------------------------------------- traversal starts

  /** How many start vertices a traversal entry gets: a quarter of the vertices, at least one. */
  function StartCount(vertexCount: nat): (r: nat)
    ensures r >= 1 && r >= vertexCount / 4
    ensures vertexCount >= 4 ==> r == vertexCount / 4
  {
    if vertexCount / 4 == 0 then 1 else vertexCount / 4
  }

  /** The start vertices of `addTraversalOrder`, one `getRandElem` draw each. */
  method PickStarts(verList: seq<int>, draws: seq<nat>) returns (sV: seq<int>)
    requires |verList| > 0
    ensures |sV| == StartCount(|verList|)
    ensures forall i :: 0 <= i < |sV| ==> sV[i] in verList
  {
    var numOfStartVertices := |verList| / 4;
    if numOfStartVertices == 0 {
      numOfStartVertices := 1;
    }
    sV := [];
    for i := 0 to numOfStartVertices
      invariant |sV| == i
      invariant forall j :: 0 <= j < i ==> sV[j] in verList
    {
      sV := sV + [Pick(verList, Draw(draws, i))];
    }
  }

  // ---------------------------------------------------------------- topological sort

  /** The entry `addTopologicalSort` writes, as written: a cyclic graph gets "" under cycle_check. */
  function TopologicalSortAsWritten(record: map<string, Json>, hasCycle: bool, order: seq<int>): map<string, Json>
  {
    if hasCycle then record[CYC_C := JString("")] else record[TOPO_O := JString(VertexSeqText(order))]
  }

  /** The entry evidently intended: a cyclic graph gets an empty topological_sort_order. */
  function TopologicalSortIntended(record: map<string, Json>, hasCycle: bool, order: seq<int>): map<string, Json>
  {
    record[TOPO_O := JString(if hasCycle then "" else VertexSeqText(order))]
  }

  /**
   * As written, a cyclic graph whose cycle_check was set to true loses that flag (it
   * becomes "") and gets no topological_sort_order.
   */
  lemma TopologicalSortClobbersCycleCheck(record: map<string, Json>, order: seq<int>)
    requires TOPO_O !in record
    ensures var r := TopologicalSortAsWritten(record[CYC_C := JBool(true)], true, order);
            && r[CYC_C] == JString("") && r[CYC_C] != JBool(true)
            && TOPO_O !in r
  {
  }

  /**
   * As intended, the entry leaves cycle_check and every other entry alone and always
   * records a topological_sort_order, empty exactly when the graph has a cycle or no vertices.
   */
  lemma TopologicalSortIntendedKeepsOthers(record: map<string, Json>, hasCycle: bool, order: seq<int>)
    ensures var r := TopologicalSortIntended(record, hasCycle, order);
            && TOPO_O in r
            && (r[TOPO_O] == JString("") <==> hasCycle || order == [])
            && r.Keys == record.Keys + {TOPO_O}
            && forall k :: k in record && k != TOPO_O ==> r[k] == record[k]
  {
    if !hasCycle && order != [] {
      assert VertexSeqText(order)[0] == '(';
    }
  }

  // ---------------------------------------------------------------- the record

  /** `GraphProperties`: a simple graph and the JSON record its `add*` methods fill. */
  class GraphProperties {
    const g: Graph
    var record: map<string, Json>
    /** The entries the record had when it was handed over. */
    ghost const initialKeys: set<string>

    /** Every entry added carries one of the property names. */
    ghost predicate Valid()
      reads this
    {
      IsSimple(g) && record.Keys <= initialKeys + PROPERTIES
    }

    constructor(g: Graph, graphProperties: map<string, Json>)
      requires IsSimple(g)
      ensures Valid() && this.g == g && record == graphProperties && initialKeys == graphProperties.Keys
    {
      this.g := g;
      record := graphProperties;
      initialKeys := graphProperties.Keys;
    }

    /** `addNodeCount`: node_count is the number of vertices. */
    method AddNodeCount()
      requires Valid()
      modifies this
      ensures Valid() && record == old(record)[N_C := JInt(|g.vertices|)]
    {
      record := record[N_C := JInt(|g.vertices|)];
    }

    /** `addEdgeCount`: edge_count is the number of edges. */
    method AddEdgeCount()
      requires Valid()
      modifies this
      ensures Valid() && record == old(record)[E_C := JInt(|g.edges|)]
    {
      record := record[E_C := JInt(|g.edges|)];
    }

    /**
     * `addEdgeAbsence`: edge_absence lists ⌊|E|/2⌋ absent edges as "(u,v)" strings, and
     * is empty for a graph without edges; the record is unchanged while the loop still runs.
     */
    method AddEdgeAbsence(draws: seq<nat>) returns (r: Retry<seq<Edge>>)
      requires Valid()
      modifies this
      ensures Valid() && !r.Throws?
      ensures r.Done? ==> |r.value| == |g.edges| / 2 && AbsentPairs(g, r.value)
                          && record == old(record)[E_A := PairsJson(r.value)]
      ensures g.edges == [] ==> r == Done([]) && record == old(record)[E_A := JArray([])]
      ensures r.StillRetrying? ==> record == old(record)
    {
      r := SampleAbsentEdges(g, draws);
      if r.Done? {
        record := record[E_A := PairsJson(r.value)];
      }
    }

    /**
     * `addConnectivityInfo`, given the connected components: their number and their
     * vertices, then the sampled connectivity queries once both loops have finished.
     */
    method AddConnectivityInfo(comps: seq<seq<int>>, draws: seq<nat>) returns (r: Retry<(seq<Edge>, seq<Edge>)>)
      requires Valid() && IsPartition(comps, g.vertices)
      modifies this
      ensures Valid() && !r.Throws?
      ensures var base := old(record)[NUM_CC := JInt(|comps|)][CC := ComponentsJson(comps)];
              && (r.Done? ==> record == base[CC_T := PairsJson(r.value.0)][CC_F := PairsJson(r.value.1)])
              && (r.StillRetrying? ==> record == base)
      ensures r.Done? ==> TrueQueries(comps, r.value.0) && FalseQueries(comps, g.vertices, r.value.1)
      ensures r.Done? && |comps| == 1 ==> |r.value.0| == |g.vertices| / 2 && r.value.1 == []
      ensures r.Done? && |comps| != 1 && |comps| == |g.vertices| ==> r.value.0 == [] && |r.value.1| == |g.vertices| / 2
      ensures r.Done? && |comps| != 1 && |comps| != |g.vertices| ==>
                |r.value.0| == |g.vertices| / 2 && |r.value.1| == |g.vertices| / 2
    {
      record := record[NUM_CC := JInt(|comps|)];
      record := record[CC := ComponentsJson(comps)];
      r := SampleConnectivity(comps, g.vertices, draws);
      if r.Done? {
        record := record[CC_T := PairsJson(r.value.0)];
        record := record[CC_F := PairsJson(r.value.1)];
      }
    }

    /**
     * `addTraversalOrder`, given the traversal from each start vertex: one entry per drawn
     * start vertex; a graph without vertices raises `nextInt(0)`'s exception.
     */
    method AddTraversalOrder(orderFrom: int -> seq<int>, propertyName: string, draws: seq<nat>)
      returns (r: Result<seq<int>, string>)
      requires Valid() && (propertyName == BFS_O || propertyName == DFS_O)
      modifies this
      ensures Valid()
      ensures r.Err? <==> g.vertices == []
      ensures r.Err? ==> r.error == BOUND_MESSAGE && record == old(record)
      ensures r.Ok? ==> |r.value| == StartCount(|g.vertices|)
                        && (forall i :: 0 <= i < |r.value| ==> r.value[i] in g.vertices)
                        && record == old(record)[propertyName :=
                             JArray(seq(|r.value|, i requires 0 <= i < |r.value| =>
                                          TraversalEntry(r.value[i], orderFrom(r.value[i]))))]
    {
      var verList := g.vertices;
      if |verList| == 0 {
        return Err(BOUND_MESSAGE);
      }
      var sV := PickStarts(verList, draws);
      var jsonElements: seq<Json> := [];
      for i := 0 to |sV|
        invariant record == old(record)
        invariant |jsonElements| == i
        invariant forall j :: 0 <= j < i ==> jsonElements[j] == TraversalEntry(sV[j], orderFrom(sV[j]))
      {
        var v := sV[i];
        var s := VertexSeq(orderFrom(v));
        jsonElements := jsonElements + [JObject(map["start" := JInt(v), "order" := JString(s)])];
      }
      assert jsonElements == seq(|sV|, i requires 0 <= i < |sV| => TraversalEntry(sV[i], orderFrom(sV[i])));
      record := record[propertyName := JArray(jsonElements)];
      r := Ok(sV);
    }

    /** `addBFSOrder`, given the breadth-first order from each vertex. */
    method AddBFSOrder(bfsFrom: int -> seq<int>, draws: seq<nat>) returns (r: Result<seq<int>, string>)
      requires Valid()
      modifies this
      ensures Valid() && (r.Err? <==> g.vertices == [])
      ensures r.Ok? ==> BFS_O in record && record[BFS_O].JArray?
                        && |record[BFS_O].elems| == StartCount(|g.vertices|)
      ensures forall k :: k in old(record) && k != BFS_O ==> k in record && record[k] == old(record)[k]
    {
      r := AddTraversalOrder(bfsFrom, BFS_O, draws);
    }

    /** `addDFSOrder`, given the depth-first order from each vertex. */
    method AddDFSOrder(dfsFrom: int -> seq<int>, draws: seq<nat>) returns (r: Result<seq<int>, string>)
      requires Valid()
      modifies this
      ensures Valid() && (r.Err? <==> g.vertices == [])
      ensures r.Ok? ==> DFS_O in record && record[DFS_O].JArray?
                        && |record[DFS_O].elems| == StartCount(|g.vertices|)
      ensures forall k :: k in old(record) && k != DFS_O ==> k in record && record[k] == old(record)[k]
    {
      r := AddTraversalOrder(dfsFrom, DFS_O, draws);
    }

    /** `addCycle`, given whether the graph has a cycle. */
    method AddCycle(hasCycle: bool)
      requires Valid()
      modifies this
      ensures Valid() && record == old(record)[CYC_C := JBool(hasCycle)]
    {
      record := record[CYC_C := JBool(hasCycle)];
    }

    /** `addTopologicalSort` as written, given the cycle flag and the topological order. */
    method AddTopologicalSort(hasCycle: bool, order: seq<int>)
      requires Valid()
      modifies this
      ensures Valid() && record == TopologicalSortAsWritten(old(record), hasCycle, order)
    {
      if hasCycle {
        record := record[CYC_C := JString("")];
      } else {
        var s := VertexSeq(order);
        record := record[TOPO_O := JString(s)];
      }
    }

    /** `addTopologicalSort` with the empty order stored under topological_sort_order. */
    method AddTopologicalSortIntended(hasCycle: bool, order: seq<int>)
      requires Valid()
      modifies this
      ensures Valid() && record == TopologicalSortIntended(old(record), hasCycle, order)
    {
      if hasCycle {
        record := record[TOPO_O := JString("")];
      } else {
        var s := VertexSeq(order);
        record := record[TOPO_O := JString(s)];
      }
    }

    /** `addGirth`, given the girth: "inf" for the no-cycle sentinel, otherwise the number. */
    method AddGirth(girth: int)
      requires Valid()
      modifies this
      ensures Valid() && GIRTH in record
      ensures record[GIRTH] == (if girth == NO_GIRTH then JString("inf") else JInt(girth))
      ensures forall k :: k in old(record) && k != GIRTH ==> k in record && record[k] == old(record)[k]
      ensures record.Keys == old(record).Keys + {GIRTH}
    {
      if girth == NO_GIRTH {
        record := record[GIRTH := JString("inf")];
      } else {
        record := record[GIRTH := JInt(girth)];
      }
    }
  }
}
