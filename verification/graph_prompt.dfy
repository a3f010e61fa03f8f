/**
 * The three graph description languages a graph is written in for a prompt: Adjacency
 * ("(u, v)" pairs), FullAdjacency (one sentence per edge) and Incident (each vertex with
 * its neighbours). Each lists the vertices as "a, b, and c." and is built by appending.
 */
module GraphPrompt {
  import opened Wrappers
  import opened Text
  import opened Graphs

  const SERIALIZATIONS: seq<string> := ["Adjacency", "FullAdjacency", "Incident"]

  const ADJACENCY_INTRO: string :=
    "\nIn the undirected graph, (i,j) means that node i and node j are connected with an undirected edge.\n"
  const NODES_INTRO: string := "The graph has the following nodes: "
  const EDGES_INTRO: string := "The edges in the graph are: \n"
  const INCIDENT_INTRO: string := "In this graph, \n"

  // ---------------------------------------------------------------- lists

  /** A value written with a prefix ("Node " or nothing). */
  function Item(prefix: string, x: int): string
  {
    prefix + IntToString(x)
  }

  function Items(prefix: string, xs: seq<int>): (r: seq<string>)
    ensures |r| == |xs|
  {
    seq(|xs|, i requires 0 <= i < |xs| => Item(prefix, xs[i]))
  }

  /**
   * An English list: the values joined by ", ", with "and " before the last one, which is
   * preceded by ", " when there are at least two ("a, b, and c"); nothing for no values.
   */
  function ListText(prefix: string, xs: seq<int>): string
  {
    if xs == [] then ""
    else
      var last := "and " + Item(prefix, xs[|xs| - 1]);
      if |xs| == 1 then last else Join(Items(prefix, xs[..|xs| - 1]), ", ") + ", " + last
  }

  /** The vertex list of a description: the English list ended by ".\n", or nothing. */
  function NodeList(prefix: string, vs: seq<int>): string
  {
    if vs == [] then "" else ListText(prefix, vs) + ".\n"
  }

  /**
   * The vertex list as the loop writes it: every value but the last followed by ", ",
   * then "and " and the last value and ".\n"; a single value gives "and v.\n".
   */
  lemma NodeListShape(prefix: string, vs: seq<int>)
    requires |vs| >= 1
    ensures NodeList(prefix, vs)
            == Terminated(Items(prefix, vs[..|vs| - 1]), ", ") + "and " + Item(prefix, vs[|vs| - 1]) + ".\n"
    ensures |vs| == 1 ==> NodeList(prefix, vs) == "and " + Item(prefix, vs[0]) + ".\n"
  {
    if |vs| > 1 {
      TerminatedIsJoin(Items(prefix, vs[..|vs| - 1]), ", ");
    } else {
      assert Items(prefix, vs[..0]) == [];
    }
  }

  /** The list loop shared by the three formats: ", " after all values but the last, "and " before it. */
  method AppendList(sb: string, prefix: string, xs: seq<int>) returns (out: string)
    ensures out == sb + ListText(prefix, xs)
  {
    out := sb;
    ghost var items := Items(prefix, xs);
    ghost var acc := "";
    var i := 0;
    while i < |xs| - 1
      invariant 0 <= i <= |xs| && (xs == [] || i <= |xs| - 1)
      invariant acc == Terminated(items[..i], ", ")
      invariant out == sb + acc
    {
      var piece := Item(prefix, xs[i]) + ", ";
      TerminatedStep(items, i, ", ");
      AppendAssoc(sb, acc, piece);
      out := out + piece;
      acc := acc + piece;
      i := i + 1;
    }
    if i < |xs| {
      var last := "and " + Item(prefix, xs[i]);
      assert i == |xs| - 1 && items[..i] == Items(prefix, xs[..|xs| - 1]);
      if i > 0 {
        TerminatedIsJoin(items[..i], ", ");
      }
      AppendAssoc(sb, acc, last);
      out := out + last;
    }
  }

  // ---------------------------------------------------------------- Adjacency

  function AdjacencyLine(e: Edge): string
  {
    "\t(" + IntToString(e.0) + ", " + IntToString(e.1) + ")"
  }

  function AdjacencyLines(edges: seq<Edge>): (r: seq<string>)
    ensures |r| == |edges|
  {
    seq(|edges|, k requires 0 <= k < |edges| => AdjacencyLine(edges[k]))
  }

  /** The Adjacency description of a graph. */
  function AdjacencyText(g: Graph): string
  {
    ADJACENCY_INTRO + NODES_INTRO + NodeList("", g.vertices) + EDGES_INTRO + LinesText(AdjacencyLines(g.edges))
  }

  /** `getAdjacencyGDL`. */
  method AdjacencyGDL(g: Graph) returns (s: string)
    ensures s == AdjacencyText(g)
  {
    s := ADJACENCY_INTRO + NODES_INTRO;
    s := AppendNodeList(s, "", g.vertices);
    s := s + EDGES_INTRO;
    s := AppendAdjacencyLines(s, g.edges);
  }

  /** The edge loop of `getAdjacencyGDL`: a tab and "(u, v)" on a line of its own per edge. */
  method AppendAdjacencyLines(sb: string, edges: seq<Edge>) returns (s: string)
    ensures s == sb + LinesText(AdjacencyLines(edges))
  {
    s := sb;
    ghost var lines := AdjacencyLines(edges);
    ghost var acc := "";
    for k := 0 to |edges|
      invariant acc == LinesText(lines[..k])
      invariant s == sb + acc
    {
      var piece := AdjacencyLine(edges[k]) + "\n";
      LinesTextStep(lines, k);
      AppendAssoc(sb, acc, piece);
      s := s + piece;
      acc := acc + piece;
    }
    assert lines[..|edges|] == lines;
  }

  /** The vertex list of all three formats. */
  method AppendNodeList(sb: string, prefix: string, vs: seq<int>) returns (out: string)
    ensures out == sb + NodeList(prefix, vs)
  {
    out := AppendList(sb, prefix, vs);
    if |vs| > 0 {
      out := out + ".\n";
    }
  }

  /** The Adjacency edge block reads back, line by line, as one "(u, v)" line per edge, in order. */
  lemma AdjacencyEdgeLines(edges: seq<Edge>)
    ensures Lines(LinesText(AdjacencyLines(edges))) == AdjacencyLines(edges)
    ensures forall k :: 0 <= k < |edges| ==> AdjacencyLines(edges)[k] == AdjacencyLine(edges[k])
  {
    var lines := AdjacencyLines(edges);
    forall k | 0 <= k < |lines|
      ensures '\n' !in lines[k]
    {
      IntToStringHasNo(edges[k].0, '\n');
      IntToStringHasNo(edges[k].1, '\n');
    }
    LinesOfLinesText(lines);
  }

  // ---------------------------------------------------------------- FullAdjacency

  function EdgeSentence(e: Edge): string
  {
    "\tNode " + IntToString(e.0) + " is connected to Node " + IntToString(e.1) + " with an edge"
  }

  function EdgeSentenceList(edges: seq<Edge>): (r: seq<string>)
    ensures |r| == |edges|
  {
    seq(|edges|, k requires 0 <= k < |edges| => EdgeSentence(edges[k]))
  }

  /** The edge sentences separated by ";\n" and closed by ".\n"; nothing for no edges. */
  function EdgeSentences(edges: seq<Edge>): string
  {
    if edges == [] then "" else Join(EdgeSentenceList(edges), ";\n") + ".\n"
  }

  /** The FullAdjacency description of a graph. */
  function FullAdjacencyText(g: Graph): string
  {
    "\n" + NODES_INTRO + NodeList("Node ", g.vertices) + EDGES_INTRO + EdgeSentences(g.edges)
  }

  /** `getFullAdjacencyGDL`. */
  method FullAdjacencyGDL(g: Graph) returns (s: string)
    ensures s == FullAdjacencyText(g)
  {
    s := "\n" + NODES_INTRO;
    s := AppendNodeList(s, "Node ", g.vertices);
    s := s + EDGES_INTRO;
    s := AppendEdgeSentences(s, g.edges);
  }

  /** The edge loop of `getFullAdjacencyGDL`: ";\n" after every sentence but the last, ".\n" after it. */
  method AppendEdgeSentences(sb: string, edges: seq<Edge>) returns (s: string)
    ensures s == sb + EdgeSentences(edges)
  {
    s := sb;
    ghost var sentences := EdgeSentenceList(edges);
    ghost var acc := "";
    var i := 0;
    while i < |edges| - 1
      invariant 0 <= i <= |edges| && (edges == [] || i <= |edges| - 1)
      invariant acc == Terminated(sentences[..i], ";\n")
      invariant s == sb + acc
    {
      var piece := EdgeSentence(edges[i]) + ";\n";
      TerminatedStep(sentences, i, ";\n");
      AppendAssoc(sb, acc, piece);
      s := s + piece;
      acc := acc + piece;
      i := i + 1;
    }
    if i < |edges| {
      var last := EdgeSentence(edges[i]) + ".\n";
      LastSentence(edges, acc);
      AppendAssoc(sb, acc, last);
      s := s + last;
    }
  }

  /** The sentences before the last, each closed by ";\n", then the last closed by ".\n". */
  lemma LastSentence(edges: seq<Edge>, acc: string)
    requires |edges| >= 1 && acc == Terminated(EdgeSentenceList(edges)[..|edges| - 1], ";\n")
    ensures acc + (EdgeSentence(edges[|edges| - 1]) + ".\n") == EdgeSentences(edges)
  {
    var sentences := EdgeSentenceList(edges);
    var i := |edges| - 1;
    var sentence := EdgeSentence(edges[i]);
    assert sentences[..i] + [sentence] == sentences;
    if i > 0 {
      TerminatedIsJoin(sentences[..i], ";\n");
      JoinSnoc(sentences[..i], sentence, ";\n");
    } else {
      assert sentences == [sentence];
    }
  }

  /** Each part followed by `mark`, except the last, which is followed by `endMark`. */
  function Marked(parts: seq<string>, mark: string, endMark: string): (r: seq<string>)
    ensures |r| == |parts|
  {
    seq(|parts|, k requires 0 <= k < |parts| => parts[k] + (if k < |parts| - 1 then mark else endMark))
  }

  /**
   * Line by line, the FullAdjacency edge block is one sentence per edge in order, each
   * ended by ";" except the last, which is ended by ".".
   */
  lemma EdgeSentencesAsLines(edges: seq<Edge>)
    ensures EdgeSentences(edges) == LinesText(Marked(EdgeSentenceList(edges), ";", "."))
  {
    if edges != [] {
      JoinAsLines(EdgeSentenceList(edges), ";", ".");
      assert ";" + "\n" == ";\n";
      assert "." + "\n" == ".\n";
    }
  }

  /** Parts joined by `mark` and a newline, then `endMark` and a newline, are the marked lines. */
  lemma JoinAsLines(parts: seq<string>, mark: string, endMark: string)
    requires |parts| >= 1
    ensures Join(parts, mark + "\n") + (endMark + "\n") == LinesText(Marked(parts, mark, endMark))
  {
    var n := |parts|;
    var marked := Marked(parts, mark, endMark);
    var last := parts[n - 1];
    if n == 1 {
      assert marked[..0] == [];
      assert LinesText(marked) == LinesText([]) + (last + endMark) + "\n";
    } else {
      var init := parts[..n - 1];
      TerminatedAsLines(init, mark, "\n");
      TerminatedIsJoin(init, mark + "\n");
      assert marked[..n - 1] == seq(|init|, k requires 0 <= k < |init| => init[k] + mark);
      assert LinesText(marked) == LinesText(marked[..n - 1]) + (last + endMark) + "\n";
      assert Join(parts, mark + "\n") == Join(init, mark + "\n") + (mark + "\n") + last;
    }
  }

  /** Parts each followed by `mark` and a newline are the lines "part + mark". */
  lemma {:induction false} TerminatedAsLines(parts: seq<string>, mark: string, nl: string)
    requires nl == "\n"
    ensures Terminated(parts, mark + nl) == LinesText(seq(|parts|, k requires 0 <= k < |parts| => parts[k] + mark))
    decreases |parts|
  {
    if parts != [] {
      var init := parts[..|parts| - 1];
      TerminatedAsLines(init, mark, nl);
      var marked := seq(|parts|, k requires 0 <= k < |parts| => parts[k] + mark);
      assert marked[..|parts| - 1] == seq(|init|, k requires 0 <= k < |init| => init[k] + mark);
      var a, b := Terminated(init, mark + nl), parts[|parts| - 1];
      assert Terminated(parts, mark + nl) == a + b + (mark + nl);
      assert LinesText(marked) == a + (b + mark) + "\n";
      assert a + b + (mark + nl) == a + (b + mark) + "\n";
    }
  }

  // ---------------------------------------------------------------- Incident

  /** `getNeighboursOf(v)`'s result: the other endpoint of each edge at `v`, in edge order. */
  function Neighbours(edges: seq<Edge>, v: int): (r: seq<int>)
    ensures |r| == Degree(edges, v)
  {
    var inc := Incident(edges, v);
    seq(|inc|, k requires 0 <= k < |inc| => if inc[k].0 == v then inc[k].1 else inc[k].0)
  }

  /** `getNeighboursOf`: one entry per edge at `v`. */
  method NeighboursOf(edges: seq<Edge>, v: int) returns (ret: seq<int>)
    ensures ret == Neighbours(edges, v)
  {
    var adjOfV := Incident(edges, v);
    ret := [];
    for k := 0 to |adjOfV|
      invariant ret == Neighbours(edges, v)[..k]
    {
      var source, target := adjOfV[k].0, adjOfV[k].1;
      ret := ret + [if v == source then target else source];
    }
  }

  /**
   * In a simple graph the neighbours of a vertex are exactly the vertices it is joined to,
   * each once, and there are as many as its degree.
   */
  lemma NeighboursAreAdjacent(g: Graph, v: int)
    requires IsSimple(g)
    ensures |Neighbours(g.edges, v)| == Degree(g.edges, v)
    ensures forall x :: x in Neighbours(g.edges, v) <==> HasEdge(g.edges, v, x)
  {
    var nb := Neighbours(g.edges, v);
    forall x
      ensures x in nb <==> HasEdge(g.edges, v, x)
    {
      if x in nb {
        var k :| 0 <= k < |nb| && nb[k] == x;
        NeighbourJoined(g.edges, v, k);
      }
      if HasEdge(g.edges, v, x) {
        var j :| 0 <= j < |g.edges| && Joins(g.edges[j], v, x);
        JoinedIsNeighbour(g, v, x, j);
      }
    }
  }

  lemma NeighbourJoined(edges: seq<Edge>, v: int, k: nat)
    requires k < |Neighbours(edges, v)|
    ensures HasEdge(edges, v, Neighbours(edges, v)[k])
  {
    var e := Incident(edges, v)[k];
    assert e in edges;
    var j :| 0 <= j < |edges| && edges[j] == e;
    assert Joins(edges[j], v, Neighbours(edges, v)[k]);
  }

  lemma JoinedIsNeighbour(g: Graph, v: int, x: int, j: nat)
    requires IsSimple(g) && j < |g.edges| && Joins(g.edges[j], v, x)
    ensures x in Neighbours(g.edges, v)
  {
    var inc := Incident(g.edges, v);
    IncidentHas(g.edges, v, j);
    var k :| 0 <= k < |inc| && inc[k] == g.edges[j];
    assert g.edges[j].0 != g.edges[j].1;
    assert Neighbours(g.edges, v)[k] == x;
  }

  /** Every edge at `v` is among its incident edges. */
  lemma {:induction false} IncidentHas(edges: seq<Edge>, v: int, j: nat)
    requires j < |edges| && (edges[j].0 == v || edges[j].1 == v)
    ensures edges[j] in Incident(edges, v)
    decreases |edges|
  {
    if j < |edges| - 1 {
      IncidentHas(edges[..|edges| - 1], v, j);
    }
  }

  /** The connections of a vertex: singular for one neighbour, otherwise the English list. */
  function Connections(nb: seq<int>): string
  {
    if |nb| == 1 then " connection: Node " + IntToString(nb[0]) + ".\n"
    else " connections: " + ListText("Node ", nb) + ".\n"
  }

  function IncidentLine(edges: seq<Edge>, v: int): string
  {
    "\tNode " + IntToString(v) + " has " + IntToString(Degree(edges, v)) + Connections(Neighbours(edges, v))
  }

  /** The lines for the vertices `vs`, in order. */
  function IncidentLines(edges: seq<Edge>, vs: seq<int>): string
    decreases |vs|
  {
    if vs == [] then "" else IncidentLines(edges, vs[..|vs| - 1]) + IncidentLine(edges, vs[|vs| - 1])
  }

  /** The Incident description: a line for every vertex but the last one listed. */
  function IncidentText(g: Graph): string
  {
    "\n" + NODES_INTRO + NodeList("Node ", g.vertices) + INCIDENT_INTRO
    + IncidentLines(g.edges, if g.vertices == [] then [] else g.vertices[..|g.vertices| - 1])
  }

  /** `getIncidentGDL`. */
  method IncidentGDL(g: Graph) returns (s: string)
    ensures s == IncidentText(g)
  {
    s := "\n" + NODES_INTRO;
    s := AppendNodeList(s, "Node ", g.vertices);
    s := s + INCIDENT_INTRO;
    s := AppendIncidentLines(s, g.edges, g.vertices);
  }

  /** The vertex loop of `getIncidentGDL`, which stops before the last vertex. */
  method AppendIncidentLines(sb: string, edges: seq<Edge>, vertexList: seq<int>) returns (s: string)
    ensures s == sb + IncidentLines(edges, if vertexList == [] then [] else vertexList[..|vertexList| - 1])
  {
    s := sb;
    ghost var acc := "";
    var i := 0;
    while i < |vertexList| - 1
      invariant 0 <= i <= |vertexList| && (vertexList == [] || i <= |vertexList| - 1)
      invariant acc == IncidentLines(edges, vertexList[..i])
      invariant s == sb + acc
    {
      var line := IncidentLineOf(edges, vertexList[i]);
      assert vertexList[..i + 1][..i] == vertexList[..i];
      AppendAssoc(sb, acc, line);
      s := s + line;
      acc := acc + line;
      i := i + 1;
    }
  }

  /** The line `getIncidentGDL` writes for one vertex. */
  method IncidentLineOf(edges: seq<Edge>, v: int) returns (line: string)
    ensures line == IncidentLine(edges, v)
  {
    var neiOfV := NeighboursOf(edges, v);
    var head := "\tNode " + IntToString(v) + " has " + IntToString(|Incident(edges, v)|);
    var connections := ConnectionsOf(neiOfV);
    line := head + connections;
  }

  /** The rest of a vertex's line: the singular form for one neighbour, otherwise the list. */
  method ConnectionsOf(neiOfV: seq<int>) returns (c: string)
    ensures c == Connections(neiOfV)
  {
    if |neiOfV| == 1 {
      c := " connection: Node " + IntToString(neiOfV[0]) + ".\n";
    } else {
      var list := AppendList("", "Node ", neiOfV);
      c := " connections: " + list + ".\n";
    }
  }

  // ---------------------------------------------------------------- dispatch

  /** `serializeGraph`: the description in the named format; no description (null) for any other name. */
  method SerializeGraph(g: Graph, serialization: string) returns (r: Option<string>)
    ensures r.Some? <==> serialization in SERIALIZATIONS
    ensures serialization == "Adjacency" ==> r == Some(AdjacencyText(g))
    ensures serialization == "FullAdjacency" ==> r == Some(FullAdjacencyText(g))
    ensures serialization == "Incident" ==> r == Some(IncidentText(g))
  {
    r := None;
    if serialization == "Adjacency" {
      var s := AdjacencyGDL(g);
      r := Some(s);
    } else if serialization == "FullAdjacency" {
      var s := FullAdjacencyGDL(g);
      r := Some(s);
    } else if serialization == "Incident" {
      var s := IncidentGDL(g);
      r := Some(s);
    }
  }
}
