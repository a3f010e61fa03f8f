/**
 * Data augmentation of a read graph: node shifting relabels every vertex through a
 * shuffled ordering of 0..|V|-1, edge shifting shuffles the edge list, and the driver
 * redraws until each variant differs from the one it is compared with. The relabelling
 * is written beside a node-shifted graph as an "i->j" table.
 */
module DataAug {
  import opened Wrappers
  import opened Text
  import opened Graphs
  import opened Randomness
  import FileUtils

  const INDEX_MESSAGE: string := "IndexOutOfBoundsException"
  const TABLE_HEADER: string := "original_node_id->shifted_node_id"

  /** What `nodeShifting` returns: the new vertex set, the relabelled edges and the relabelling. */
  datatype NodeShift = NodeShift(nodes: set<int>, edges: seq<Edge>, original2New: seq<int>)

  /** Every endpoint is a position of a list of length n. */
  predicate EndpointsBelow(edges: seq<Edge>, n: nat)
  {
    forall k :: 0 <= k < |edges| ==> 0 <= edges[k].0 < n && 0 <= edges[k].1 < n
  }

  /** Each endpoint replaced by its image under `perm`, edge by edge. */
  function Relabel(edges: seq<Edge>, perm: seq<int>): (r: seq<Edge>)
    requires EndpointsBelow(edges, |perm|)
  {
    seq(|edges|, k requires 0 <= k < |edges| => (perm[edges[k].0], perm[edges[k].1]))
  }

  /** The node shift of a graph with n vertices for the given draws of its shuffle. */
  function NodeShiftOf(n: nat, edges: seq<Edge>, draws: seq<nat>): NodeShift
    requires EndpointsBelow(edges, n)
  {
    ShuffledReorders(Range(n), draws);
    var perm := Shuffled(Range(n), draws);
    NodeShift(RangeSet(n), Relabel(edges, perm), perm)
  }

  /**
   * `nodeShifting`: the list 0..|V|-1 is shuffled into `original2New`, the new vertex set
   * is its set of values, and each edge (u, v) becomes (original2New[u], original2New[v]);
   * an endpoint that is not a position of the list throws.
   */
  method NodeShifting(nodes: set<int>, edges: seq<Edge>, draws: seq<nat>) returns (r: Result<NodeShift, string>)
    ensures r.Ok? <==> EndpointsBelow(edges, |nodes|)
    ensures r.Ok? ==> r.value == NodeShiftOf(|nodes|, edges, draws)
    ensures r.Err? ==> r.error == INDEX_MESSAGE
  {
    var n := |nodes|;
    var original2New := new int[n](i => i);
    assert original2New[..] == Range(n);
    Shuffle(original2New, draws);
    var perm := original2New[..];
    ShuffledReorders(Range(n), draws);
    PermutationFacts(perm, n);
    var newNodes := set x | x in perm;
    assert newNodes == RangeSet(n);
    var newEdges := RelabelEdges(edges, perm);
    if newEdges.None? {
      return Err(INDEX_MESSAGE);
    }
    return Ok(NodeShift(newNodes, newEdges.value, perm));
  }

  /** The edge loop of `nodeShifting`: it stops at the first endpoint that is not a position of `perm`. */
  method RelabelEdges(edges: seq<Edge>, perm: seq<int>) returns (r: Option<seq<Edge>>)
    ensures r.Some? <==> EndpointsBelow(edges, |perm|)
    ensures r.Some? ==> r.value == Relabel(edges, perm)
  {
    var n := |perm|;
    var newEdges: seq<Edge> := [];
    for k := 0 to |edges|
      invariant EndpointsBelow(edges[..k], n)
      invariant newEdges == Relabel(edges[..k], perm)
    {
      var e := edges[k];
      if !(0 <= e.0 < n && 0 <= e.1 < n) {
        return None;
      }
      assert edges[..k + 1] == edges[..k] + [e];
      newEdges := newEdges + [(perm[e.0], perm[e.1])];
    }
    assert edges[..|edges|] == edges;
    return Some(newEdges);
  }

  /** The relabelling is an ordering of 0..|V|-1, and the new vertex set is {0, ..., |V|-1}. */
  lemma NodeShiftRelabelling(n: nat, edges: seq<Edge>, draws: seq<nat>)
    requires EndpointsBelow(edges, n)
    ensures var s := NodeShiftOf(n, edges, draws);
            IsPermutation(s.original2New, n) && NoDup(s.original2New)
            && (forall x :: x in s.original2New <==> 0 <= x < n)
            && |s.edges| == |edges|
  {
    var s := NodeShiftOf(n, edges, draws);
    ShuffledReorders(Range(n), draws);
    PermutationFacts(s.original2New, n);
  }

  /**
   * Relabelling through an ordering of 0..n-1 is an isomorphism: u and v are joined in the
   * original exactly when their images are joined in the shifted graph.
   */
  lemma RelabelKeepsAdjacency(edges: seq<Edge>, perm: seq<int>, n: nat, u: int, v: int)
    requires |perm| == n && IsPermutation(perm, n) && EndpointsBelow(edges, n)
    requires 0 <= u < n && 0 <= v < n
    ensures HasEdge(Relabel(edges, perm), perm[u], perm[v]) <==> HasEdge(edges, u, v)
  {
    PermutationFacts(perm, n);
    var r := Relabel(edges, perm);
    if HasEdge(r, perm[u], perm[v]) {
      var k :| 0 <= k < |r| && Joins(r[k], perm[u], perm[v]);
      var a, b := edges[k].0, edges[k].1;
      assert perm[a] == perm[u] ==> a == u;
      assert perm[a] == perm[v] ==> a == v;
      assert perm[b] == perm[u] ==> b == u;
      assert perm[b] == perm[v] ==> b == v;
      assert Joins(edges[k], u, v);
    }
    if HasEdge(edges, u, v) {
      var k :| 0 <= k < |edges| && Joins(edges[k], u, v);
      assert Joins(r[k], perm[u], perm[v]);
    }
  }

  /**
   * `edgeShifting`: the vertex set is copied and the edge list is copied and shuffled.
   */
  method EdgeShifting(nodes: set<int>, edges: seq<Edge>, draws: seq<nat>) returns (newNodes: set<int>, newEdges: seq<Edge>)
    ensures newNodes == nodes
    ensures newEdges == Shuffled(edges, draws)
  {
    newNodes := nodes;
    var list := new Edge[|edges|](k requires 0 <= k < |edges| => edges[k]);
    assert list[..] == edges;
    Shuffle(list, draws);
    newEdges := list[..];
  }

  /** An edge shift keeps every edge with its multiplicity, and no other. */
  lemma EdgeShiftKeepsEdges(edges: seq<Edge>, draws: seq<nat>)
    ensures |Shuffled(edges, draws)| == |edges|
    ensures multiset(Shuffled(edges, draws)) == multiset(edges)
    ensures forall e :: e in Shuffled(edges, draws) <==> e in edges
  {
    ShuffledReorders(edges, draws);
    forall e
      ensures e in Shuffled(edges, draws) <==> e in edges
    {
      assert e in Shuffled(edges, draws) <==> e in multiset(Shuffled(edges, draws));
      assert e in edges <==> e in multiset(edges);
    }
  }

  // ---------------------------------------------------------------- redrawing

  /**
   * The redraw loop for the second node shift: the attempts are the draws of successive
   * `nodeShifting` calls, the first of them being the call before the loop; the loop ends
   * at the first relabelling that differs from `first`.
   */
  method DistinctNodeShift(nodes: set<int>, edges: seq<Edge>, first: seq<int>, attempts: seq<seq<nat>>)
    returns (r: Retry<NodeShift>, used: nat)
    requires EndpointsBelow(edges, |nodes|)
    ensures !r.Throws?
    ensures r.StillRetrying? <==>
              forall k :: 0 <= k < |attempts| ==> Shuffled(Range(|nodes|), attempts[k]) == first
    ensures r.Done? ==> 1 <= used <= |attempts| && r.value == NodeShiftOf(|nodes|, edges, attempts[used - 1])
                        && r.value.original2New != first
                        && forall k :: 0 <= k < used - 1 ==> Shuffled(Range(|nodes|), attempts[k]) == first
  {
    var k := 0;
    while k < |attempts|
      invariant k <= |attempts|
      invariant forall l :: 0 <= l < k ==> Shuffled(Range(|nodes|), attempts[l]) == first
    {
      var shift := NodeShifting(nodes, edges, attempts[k]);
      if shift.value.original2New != first {
        return Done(shift.value), k + 1;
      }
      k := k + 1;
    }
    return StillRetrying, 0;
  }

  /**
   * The redraw loop for an edge shift of a node-shifted graph: successive shuffles until
   * one differs from the graph's own edge list.
   */
  method DistinctEdgeShift(nodes: set<int>, edges: seq<Edge>, attempts: seq<seq<nat>>)
    returns (r: Retry<seq<Edge>>, used: nat)
    ensures !r.Throws?
    ensures r.StillRetrying? <==> forall k :: 0 <= k < |attempts| ==> Shuffled(edges, attempts[k]) == edges
    ensures r.Done? ==> 1 <= used <= |attempts| && r.value == Shuffled(edges, attempts[used - 1])
                        && r.value != edges
                        && forall k :: 0 <= k < used - 1 ==> Shuffled(edges, attempts[k]) == edges
  {
    var k := 0;
    while k < |attempts|
      invariant k <= |attempts|
      invariant forall l :: 0 <= l < k ==> Shuffled(edges, attempts[l]) == edges
    {
      var _, shuffled := EdgeShifting(nodes, edges, attempts[k]);
      if shuffled != edges {
        return Done(shuffled), k + 1;
      }
      k := k + 1;
    }
    return StillRetrying, 0;
  }

  /** With fewer than two vertices every relabelling is the same, so the node-shift loop never ends. */
  lemma NodeShiftRedrawNeverEnds(n: nat, d1: seq<nat>, d2: seq<nat>)
    requires n < 2
    ensures Shuffled(Range(n), d1) == Shuffled(Range(n), d2)
  {
    ShuffledReorders(Range(n), d1);
    ShuffledReorders(Range(n), d2);
    SmallPermutationUnique(Shuffled(Range(n), d1), Shuffled(Range(n), d2), n);
  }

  /** With two vertices or more some draws give a relabelling other than any given one. */
  lemma NodeShiftRedrawCanEnd(n: nat, first: seq<int>)
    requires n >= 2
    ensures exists d :: Shuffled(Range(n), d) != first
  {
    ShuffledIdentity(Range(n));
    ShuffledLast(Range(n), 0);
    if Shuffled(Range(n), [0]) == first {
      assert Shuffled(Range(n), IdentityDraws(n))[n - 1] == n - 1 != 0;
      assert Shuffled(Range(n), IdentityDraws(n)) != first;
    } else {
      assert Shuffled(Range(n), [0]) != first;
    }
  }

  /** When all edges are equal (in particular with fewer than two) every shuffle gives the list back. */
  lemma EdgeShiftRedrawNeverEnds(edges: seq<Edge>, draws: seq<nat>)
    requires forall i, j :: 0 <= i < |edges| && 0 <= j < |edges| ==> edges[i] == edges[j]
    ensures Shuffled(edges, draws) == edges
  {
    ShuffledReorders(edges, draws);
    ReorderConstant(edges, Shuffled(edges, draws));
  }

  /** With two different edges some shuffle differs from the list. */
  lemma EdgeShiftRedrawCanEnd(edges: seq<Edge>, i: nat, j: nat)
    requires i < |edges| && j < |edges| && edges[i] != edges[j]
    ensures exists d :: Shuffled(edges, d) != edges
  {
    var last := |edges| - 1;
    var m := if edges[i] != edges[last] then i else j;
    ShuffledLast(edges, m);
    assert Shuffled(edges, [m])[last] != edges[last];
  }

  // ---------------------------------------------------------------- the driver

  /** The five variants `augment` writes for one graph. */
  datatype Augmented = Augmented(nodeShift1: NodeShift, nodeShift2: NodeShift, edgeShift: seq<Edge>,
                                 nodeShift1EdgeShift: seq<Edge>, nodeShift2EdgeShift: seq<Edge>)

  /**
   * The variants `augment` builds for one read graph, in its order: two node shifts that
   * differ, an edge shift of the graph, and an edge shift of each node shift that differs
   * from its edge list. Each redraw loop takes its attempts from its own list.
   */
  method Augment(nodes: set<int>, edges: seq<Edge>, shift1: seq<nat>, shift2: seq<seq<nat>>,
                 edgeShift: seq<nat>, edgeShift1: seq<seq<nat>>, edgeShift2: seq<seq<nat>>)
    returns (r: Retry<Augmented>)
    ensures r.Throws? <==> !EndpointsBelow(edges, |nodes|)
    ensures r.Throws? ==> r.exception == INDEX_MESSAGE
    ensures r.Done? ==>
              var a := r.value;
              && a.nodeShift1 == NodeShiftOf(|nodes|, edges, shift1)
              && (exists k :: 0 <= k < |shift2| && a.nodeShift2 == NodeShiftOf(|nodes|, edges, shift2[k]))
              && a.nodeShift2.original2New != a.nodeShift1.original2New
              && a.edgeShift == Shuffled(edges, edgeShift)
              && (exists k :: 0 <= k < |edgeShift1| && a.nodeShift1EdgeShift == Shuffled(a.nodeShift1.edges, edgeShift1[k]))
              && a.nodeShift1EdgeShift != a.nodeShift1.edges
              && multiset(a.nodeShift1EdgeShift) == multiset(a.nodeShift1.edges)
              && (exists k :: 0 <= k < |edgeShift2| && a.nodeShift2EdgeShift == Shuffled(a.nodeShift2.edges, edgeShift2[k]))
              && a.nodeShift2EdgeShift != a.nodeShift2.edges
              && multiset(a.nodeShift2EdgeShift) == multiset(a.nodeShift2.edges)
    ensures EndpointsBelow(edges, |nodes|) && |nodes| < 2 ==> r.StillRetrying?
  {
    var ns1 := NodeShifting(nodes, edges, shift1);
    if ns1.Err? {
      return Throws(ns1.error);
    }
    var ns2, used := DistinctNodeShift(nodes, edges, ns1.value.original2New, shift2);
    if !ns2.Done? {
      return StillRetrying;
    }
    var _, es := EdgeShifting(nodes, edges, edgeShift);
    var es1, used1 := DistinctEdgeShift(ns1.value.nodes, ns1.value.edges, edgeShift1);
    if !es1.Done? {
      return StillRetrying;
    }
    var es2, used2 := DistinctEdgeShift(ns2.value.nodes, ns2.value.edges, edgeShift2);
    if !es2.Done? {
      return StillRetrying;
    }
    ShuffledReorders(ns1.value.edges, edgeShift1[used1 - 1]);
    ShuffledReorders(ns2.value.edges, edgeShift2[used2 - 1]);
    r := Done(Augmented(ns1.value, ns2.value, es, es1.value, es2.value));
  }

  // ---------------------------------------------------------------- the relabelling table

  function ShiftRow(i: int, j: int): string
  {
    IntToString(i) + "->" + IntToString(j)
  }

  function ShiftRows(original2New: seq<int>): (rows: seq<string>)
    ensures |rows| == |original2New|
  {
    seq(|original2New|, i requires 0 <= i < |original2New| => ShiftRow(i, original2New[i]))
  }

  /** The table `nodeShiftingSer` writes: a header line, then "i->original2New[i]" for each i. */
  function ShiftTable(original2New: seq<int>): string
  {
    TABLE_HEADER + "\n" + LinesText(ShiftRows(original2New))
  }

  /** `nodeShiftingSer`, appending line after line. */
  method NodeShiftingSer(original2New: seq<int>) returns (s: string)
    ensures s == ShiftTable(original2New)
  {
    var head := TABLE_HEADER + "\n";
    s := head;
    ghost var rows := ShiftRows(original2New);
    ghost var acc := "";
    for i := 0 to |original2New|
      invariant acc == LinesText(rows[..i])
      invariant s == head + acc
    {
      var row := IntToString(i) + "->" + IntToString(original2New[i]);
      assert row == rows[i];
      LinesTextStep(rows, i);
      var piece := row + "\n";
      AppendAssoc(head, acc, piece);
      s := s + piece;
      acc := acc + piece;
    }
    assert rows[..|original2New|] == rows;
  }

  /** The table reads as its header line followed by one line per vertex. */
  lemma ShiftTableLines(original2New: seq<int>)
    ensures Lines(ShiftTable(original2New)) == [TABLE_HEADER] + ShiftRows(original2New)
  {
    var rows := ShiftRows(original2New);
    RowsFree(original2New);
    var h := TABLE_HEADER;
    HeaderFree();
    var all := [h] + rows;
    assert forall i :: 0 <= i < |all| ==> '\n' !in all[i] by {
      assert forall i :: 1 <= i < |all| ==> all[i] == rows[i - 1];
    }
    LinesTextAppend([h], rows);
    assert LinesText([h]) == h + "\n" by {
      assert [h][..0] == [];
    }
    LinesOfLinesText(all);
  }

  /** The table's header line holds neither a space nor a line break. */
  lemma HeaderFree()
    ensures '\n' !in TABLE_HEADER && ' ' !in TABLE_HEADER
  {
  }

  lemma RowsFree(original2New: seq<int>)
    ensures forall i :: 0 <= i < |original2New| ==> '\n' !in ShiftRows(original2New)[i]
  {
    forall i | 0 <= i < |original2New|
      ensures '\n' !in ShiftRows(original2New)[i]
    {
      IntToStringHasNo(i, '\n');
      IntToStringHasNo(original2New[i], '\n');
    }
  }

  /**
   * A graph file written with the relabelling table as its info block cannot be read back:
   * the table's header line is a single token that `Integer.parseInt` rejects.
   */
  lemma ShiftedFileUnreadable(vertices: seq<int>, edges: seq<Edge>, original2New: seq<int>)
    ensures FileUtils.ReadGraphSpec(Lines(FileUtils.GraphText(None, vertices, edges, None,
                                                              Some(ShiftTable(original2New)))))
            == Err(TABLE_HEADER)
  {
    var info := Some(ShiftTable(original2New));
    var lines := FileUtils.FileLines(None, vertices, edges, None, info);
    FileUtils.GraphTextLines(None, vertices, edges, None, info);
    FileUtils.NoNewlines(None, vertices, edges, None, info);
    LinesOfLinesText(lines);
    TableOpensInfo(original2New);
    var header := FileUtils.HeaderLines(None, |vertices|, |edges|);
    var rest := FileUtils.InfoLines(info) + FileUtils.IntStrings(vertices) + FileUtils.EdgeLines(edges);
    Regroup(header, FileUtils.InfoLines(info), FileUtils.PartitionLines(None), FileUtils.IntStrings(vertices),
            FileUtils.EdgeLines(edges));
    TableHeaderRejected(({}, []));
    assert FileUtils.HasToken(TABLE_HEADER) by {
      assert !FileUtils.IsWhitespace(TABLE_HEADER[0]);
    }
    HeaderThenRejected(header, rest, TABLE_HEADER);
  }

  lemma Regroup(h: seq<string>, i: seq<string>, p: seq<string>, v: seq<string>, e: seq<string>)
    requires p == []
    ensures h + i + p + v + e == h + (i + v + e)
  {
  }

  /** The first line of the table as an info block is its header line. */
  lemma TableOpensInfo(original2New: seq<int>)
    ensures FileUtils.InfoLines(Some(ShiftTable(original2New)))[0] == TABLE_HEADER
  {
    assert '\n' !in TABLE_HEADER;
    FirstPiece(TABLE_HEADER, '\n', LinesText(ShiftRows(original2New)));
  }

  lemma FirstPiece(h: string, c: char, rest: string)
    requires c !in h
    ensures Pieces(h + [c] + rest, c)[0] == h
  {
    PiecesAppend(h, c, rest);
    PiecesWithout(h, c);
  }

  /** The two comment lines of a header, then a line the reader rejects: reading stops with that error. */
  lemma HeaderThenRejected(header: seq<string>, rest: seq<string>, w: string)
    requires |header| == 2 && |header[0]| >= 1 && header[0][0] == '#' && |header[1]| >= 1 && header[1][0] == '#'
    requires |rest| >= 1 && rest[0] == w && FileUtils.HasToken(w)
    requires FileUtils.ReadLine(({}, []), w) == Err(w)
    ensures FileUtils.ReadGraphSpec(header + rest) == Err(w)
  {
    var lines := header + rest;
    assert lines[2] == w;
    FileUtils.ScanEndIsLastToken(lines, 2);
    var e := FileUtils.ScanEnd(lines);
    var start: FileUtils.Parsed := ({}, []);
    FileUtils.IgnoredLines(start, header);
    assert lines[..3][..2] == header;
    assert FileUtils.ParseFrom(start, lines[..3]) == Err(w);
    FileUtils.ParseFromAppend(start, lines[..3], lines[3..e]);
    assert lines[..3] + lines[3..e] == lines[..e];
  }

  /** The table's header line is one token, and not a number. */
  lemma TableHeaderRejected(acc: FileUtils.Parsed)
    ensures FileUtils.ReadLine(acc, TABLE_HEADER) == Err(TABLE_HEADER)
  {
    HeaderFree();
    OneWordRejected(acc, TABLE_HEADER);
  }

  /** A one-word line that starts with neither a sign nor a digit stops the reader with an error. */
  lemma OneWordRejected(acc: FileUtils.Parsed, w: string)
    requires |w| >= 1 && ' ' !in w
    requires w[0] != '#' && w[0] != '-' && w[0] != '+' && !IsDigit(w[0])
    ensures FileUtils.ReadLine(acc, w) == Err(w)
  {
    assert Split(w, ' ') == [w];
  }
}
