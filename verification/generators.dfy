/**
 * The two hand-written jgrapht generators: the star on n vertices around a chosen centre,
 * and the path visiting 0..n-1 in a shuffled order. Both fill a graph they are handed.
 */
module Generators {
  import opened Wrappers
  import opened Graphs
  import opened Randomness

  const STAR_SIZE_MESSAGE: string := "Number of vertices must be greater than 4"
  const STAR_CENTER_MESSAGE: string := "centerVertex must be non-negative"
  const PATH_SIZE_MESSAGE: string := "Number of vertices must be greater than 2"
  const PATH_RANDOM_MESSAGE: string := "Random must not be null"
  const CENTER_KEY: string := "Center Vertex"

  /** A `Map<String, Integer>` handed to a generator for it to record its choices in. */
  class IntMap {
    var entries: map<string, int>

    constructor ()
      ensures entries == map[]
    {
      entries := map[];
    }
  }

  // ---------------------------------------------------------------- star

  /** The loop of the star generator has visited 0..i-1: the leaves so far, in that order. */
  function StarLeaves(i: nat, center: int): (r: seq<int>)
    ensures forall y :: y in r <==> 0 <= y < i && y != center
    ensures |r| == if 0 <= center < i then i - 1 else i
    ensures NoDup(r)
  {
    if i == 0 then []
    else
      var prev := StarLeaves(i - 1, center);
      assert i - 1 !in prev;
      prev + (if i - 1 != center then [i - 1] else [])
  }

  /** The edges the star generator has added after visiting 0..i-1: one spoke per leaf. */
  function StarEdges(i: nat, center: int): (r: seq<Edge>)
    ensures |r| == |StarLeaves(i, center)|
    ensures forall k :: 0 <= k < |r| ==> r[k] == (center, StarLeaves(i, center)[k])
  {
    if i == 0 then [] else StarEdges(i - 1, center) + (if i - 1 != center then [(center, i - 1)] else [])
  }

  class StarGraphGenerator {
    const n: int
    const centerVertex: int

    constructor (n: int, centerVertex: int)
      requires n >= 4 && centerVertex >= 0
      ensures this.n == n && this.centerVertex == centerVertex
    {
      this.n := n;
      this.centerVertex := centerVertex;
    }

    /**
     * The generator's constructor with its argument checks: fewer than four vertices or a
     * negative centre is refused (four itself is accepted); the centre has no upper bound.
     */
    static method Create(n: int, centerVertex: int) returns (r: Result<StarGraphGenerator, string>)
      ensures r.Ok? <==> n >= 4 && centerVertex >= 0
      ensures n < 4 ==> r == Err(STAR_SIZE_MESSAGE)
      ensures n >= 4 && centerVertex < 0 ==> r == Err(STAR_CENTER_MESSAGE)
      ensures r.Ok? ==> fresh(r.value) && r.value.n == n && r.value.centerVertex == centerVertex
    {
      if n < 4 {
        return Err(STAR_SIZE_MESSAGE);
      }
      if centerVertex < 0 {
        return Err(STAR_CENTER_MESSAGE);
      }
      var g := new StarGraphGenerator(n, centerVertex);
      return Ok(g);
    }

    /**
     * `generateGraph` into an empty graph: the centre first, then 0..n-1 (the centre is
     * not added twice), with a spoke from the centre to every other vertex. A map, when
     * given, records the centre.
     */
    method GenerateGraph(graph: SimpleGraph, properties: IntMap?)
      requires graph.Valid() && graph.vertices == [] && graph.edges == []
      requires n >= 4 && centerVertex >= 0
      modifies graph, properties
      ensures graph.Valid()
      ensures graph.vertices == [centerVertex] + StarLeaves(n, centerVertex)
      ensures graph.edges == StarEdges(n, centerVertex)
      ensures properties != null ==> properties.entries == old(properties.entries)[CENTER_KEY := centerVertex]
    {
      var _ := graph.AddVertex(centerVertex);
      assert graph.vertices == [centerVertex];
      if properties != null {
        properties.entries := properties.entries[CENTER_KEY := centerVertex];
      }
      AddSpokes(graph, n, centerVertex);
    }
  }

  /** The loop of the star generator: each of 0..n-1 is added, and joined to the centre unless it is the centre. */
  method AddSpokes(graph: SimpleGraph, n: nat, center: int)
    requires graph.Valid() && graph.vertices == [center] && graph.edges == []
    modifies graph
    ensures graph.Valid()
    ensures graph.vertices == [center] + StarLeaves(n, center)
    ensures graph.edges == StarEdges(n, center)
  {
    for i := 0 to n
      invariant graph.Valid()
      invariant graph.vertices == [center] + StarLeaves(i, center)
      invariant graph.edges == StarEdges(i, center)
    {
      AddSpoke(graph, i, center);
    }
  }

  /** One pass of that loop: vertex i is added, then joined to the centre unless it is the centre. */
  method AddSpoke(graph: SimpleGraph, i: nat, center: int)
    requires graph.Valid()
    requires graph.vertices == [center] + StarLeaves(i, center) && graph.edges == StarEdges(i, center)
    modifies graph
    ensures graph.Valid()
    ensures graph.vertices == [center] + StarLeaves(i + 1, center)
    ensures graph.edges == StarEdges(i + 1, center)
  {
    StarStep(i, center);
    var _ := graph.AddVertex(i);
    if i == center {
      return;
    }
    var _ := graph.AddEdge(center, i);
  }

  /** Visiting i adds it as a new leaf with a new spoke, unless it is the centre. */
  lemma StarStep(i: nat, center: int)
    ensures i == center ==> StarLeaves(i + 1, center) == StarLeaves(i, center)
                            && StarEdges(i + 1, center) == StarEdges(i, center)
    ensures i != center ==> i !in [center] + StarLeaves(i, center)
                            && !HasEdge(StarEdges(i, center), center, i)
                            && StarLeaves(i + 1, center) == StarLeaves(i, center) + [i]
                            && StarEdges(i + 1, center) == StarEdges(i, center) + [(center, i)]
  {
    if i != center {
      var es := StarEdges(i, center);
      forall k | 0 <= k < |es|
        ensures !Joins(es[k], center, i)
      {
        assert StarLeaves(i, center)[k] in StarLeaves(i, center);
      }
    }
  }

  /** One more visited vertex adds at most its own spoke to every vertex's incident edges. */
  lemma StarDegreeStep(i: nat, center: int, v: int)
    ensures Degree(StarEdges(i + 1, center), v)
            == Degree(StarEdges(i, center), v) + (if i != center && (v == center || v == i) then 1 else 0)
  {
    var es := StarEdges(i + 1, center);
    if i != center {
      assert es == StarEdges(i, center) + [(center, i)];
      assert es[..|es| - 1] == StarEdges(i, center);
    } else {
      assert es == StarEdges(i, center);
    }
  }

  /** After visiting 0..i-1 the centre touches every spoke and every leaf exactly one. */
  lemma {:induction false} StarDegrees(i: nat, center: int, v: int)
    ensures Degree(StarEdges(i, center), v)
            == if v == center then |StarLeaves(i, center)| else if 0 <= v < i then 1 else 0
  {
    if i > 0 {
      StarDegrees(i - 1, center, v);
      StarDegreeStep(i - 1, center, v);
    }
  }

  /**
   * The star generated for a centre in [0, n) has the vertices 0..n-1; a centre at n or
   * beyond is an extra vertex.
   */
  lemma StarVertices(n: nat, center: int)
    requires center >= 0
    ensures forall v :: v in [center] + StarLeaves(n, center) <==> (0 <= v < n || v == center)
  {
  }

  /**
   * A star has one spoke per vertex other than the centre (n-1 of them for a centre in
   * [0, n), n otherwise), none of them a loop; the centre lies on every spoke and every
   * other vertex on exactly one.
   */
  lemma StarSpokes(n: nat, center: int)
    requires center >= 0
    ensures |StarEdges(n, center)| == if center < n then n - 1 else n
    ensures forall k :: 0 <= k < |StarEdges(n, center)| ==> StarEdges(n, center)[k].0 != StarEdges(n, center)[k].1
    ensures Degree(StarEdges(n, center), center) == |StarEdges(n, center)|
    ensures forall v :: 0 <= v < n && v != center ==> Degree(StarEdges(n, center), v) == 1
  {
    var es := StarEdges(n, center);
    forall k | 0 <= k < |es|
      ensures es[k].0 != es[k].1
    {
      assert StarLeaves(n, center)[k] in StarLeaves(n, center);
    }
    StarDegrees(n, center, center);
    forall v | 0 <= v < n && v != center
      ensures Degree(es, v) == 1
    {
      StarDegrees(n, center, v);
    }
  }

  // ---------------------------------------------------------------- path

  /** The edges joining consecutive entries of `p`. */
  function PathEdges(p: seq<int>): (r: seq<Edge>)
    ensures |r| == if p == [] then 0 else |p| - 1
    ensures forall k :: 0 <= k < |r| ==> r[k] == (p[k], p[k + 1])
  {
    if |p| <= 1 then [] else seq(|p| - 1, k requires 0 <= k < |p| - 1 => (p[k], p[k + 1]))
  }

  /** The draws left after `count` of them are used. */
  function Drop(draws: seq<nat>, count: nat): (r: seq<nat>)
    ensures |r| == if count <= |draws| then |draws| - count else 0
  {
    if count <= |draws| then draws[count..] else []
  }

  class PathGraphGenerator {
    const n: int
    /** The draws the generator's `Random` will produce next. */
    var random: seq<nat>

    constructor (n: int, random: seq<nat>)
      requires n >= 2
      ensures this.n == n && this.random == random
    {
      this.n := n;
      this.random := random;
    }

    /**
     * The generator's constructor with its argument checks: fewer than two vertices or no
     * `Random` (None) is refused; two itself is accepted.
     */
    static method Create(n: int, random: Option<seq<nat>>) returns (r: Result<PathGraphGenerator, string>)
      ensures r.Ok? <==> n >= 2 && random.Some?
      ensures n < 2 ==> r == Err(PATH_SIZE_MESSAGE)
      ensures n >= 2 && random.None? ==> r == Err(PATH_RANDOM_MESSAGE)
      ensures r.Ok? ==> fresh(r.value) && r.value.n == n && r.value.random == random.value
    {
      if n < 2 {
        return Err(PATH_SIZE_MESSAGE);
      }
      if random.None? {
        return Err(PATH_RANDOM_MESSAGE);
      }
      var g := new PathGraphGenerator(n, random.value);
      return Ok(g);
    }

    /**
     * `generateGraph` into an empty graph: the vertices 0..n-1, then the list 0..n-1 is
     * shuffled with the generator's `Random` (n-1 draws) and consecutive entries are joined.
     */
    method GenerateGraph(graph: SimpleGraph)
      requires graph.Valid() && graph.vertices == [] && graph.edges == []
      requires n >= 2
      modifies graph, this
      ensures graph.Valid()
      ensures graph.vertices == Range(n)
      ensures graph.edges == PathEdges(Shuffled(Range(n), old(random)))
      ensures random == Drop(old(random), n - 1)
    {
      var integers := AddVertexRange(graph, n);
      Shuffle(integers, random);
      ShuffledReorders(Range(n), random);
      random := Drop(random, n - 1);
      JoinConsecutive(graph, integers[..], n);
    }
  }

  /** The first loop of the path generator: adds 0..n-1 to the graph and to a fresh list. */
  method AddVertexRange(graph: SimpleGraph, n: nat) returns (integers: array<int>)
    requires graph.Valid() && graph.vertices == [] && graph.edges == []
    modifies graph
    ensures fresh(integers) && integers[..] == Range(n)
    ensures graph.Valid() && graph.vertices == Range(n) && graph.edges == []
  {
    integers := new int[n];
    for i := 0 to n
      invariant graph.Valid() && graph.edges == []
      invariant graph.vertices == Range(i) && integers[..i] == Range(i)
    {
      assert i !in Range(i);
      var _ := graph.AddVertex(i);
      integers[i] := i;
      assert Range(i + 1) == Range(i) + [i];
      assert integers[..i + 1] == integers[..i] + [i];
    }
    assert integers[..] == integers[..n];
  }

  /** The second loop of the path generator: joins each entry of the shuffled list to the next. */
  method JoinConsecutive(graph: SimpleGraph, p: seq<int>, n: nat)
    requires IsPermutation(p, n)
    requires graph.Valid() && graph.vertices == Range(n) && graph.edges == []
    modifies graph
    ensures graph.Valid() && graph.vertices == Range(n)
    ensures graph.edges == PathEdges(p)
  {
    PermutationFacts(p, n);
    if n == 0 {
      return;
    }
    for i := 0 to n - 1
      invariant graph.Valid() && graph.vertices == Range(n)
      invariant graph.edges == PathEdges(p)[..i]
    {
      PathStep(p, n, i);
      var _ := graph.AddEdge(p[i], p[i + 1]);
    }
    assert PathEdges(p)[..n - 1] == PathEdges(p);
  }

  /** Joining entry i to entry i+1 adds a new edge between two distinct vertices of the graph. */
  lemma PathStep(p: seq<int>, n: nat, i: nat)
    requires |p| == n && NoDup(p) && forall j :: 0 <= j < n ==> 0 <= p[j] < n
    requires i + 1 < n
    ensures p[i] in Range(n) && p[i + 1] in Range(n) && p[i] != p[i + 1]
    ensures !HasEdge(PathEdges(p)[..i], p[i], p[i + 1])
    ensures PathEdges(p)[..i + 1] == PathEdges(p)[..i] + [(p[i], p[i + 1])]
  {
    assert Range(n)[p[i]] == p[i] && Range(n)[p[i + 1]] == p[i + 1];
    PathPrefixFresh(p, i);
    var es := PathEdges(p);
    assert es[i] == (p[i], p[i + 1]);
    assert es[..i + 1] == es[..i] + [es[i]];
  }

  /** No edge among the first i path edges joins entry i to entry i+1. */
  lemma PathPrefixFresh(p: seq<int>, i: nat)
    requires NoDup(p) && i + 1 < |p|
    ensures !HasEdge(PathEdges(p)[..i], p[i], p[i + 1])
  {
    var es := PathEdges(p)[..i];
    forall k | 0 <= k < |es|
      ensures !Joins(es[k], p[i], p[i + 1])
    {
      assert es[k] == (p[k], p[k + 1]);
    }
  }

  /** The first m path edges give entry j of `p` one edge from its predecessor and one to its successor. */
  lemma {:induction false} PathPrefixDegree(p: seq<int>, m: nat, j: nat)
    requires NoDup(p) && m < |p| && j < |p|
    ensures Degree(PathEdges(p)[..m], p[j]) == (if j < m then 1 else 0) + (if 1 <= j <= m then 1 else 0)
  {
    if m > 0 {
      PathPrefixDegree(p, m - 1, j);
      var es := PathEdges(p)[..m];
      assert es[..m - 1] == PathEdges(p)[..m - 1];
      assert es[m - 1] == (p[m - 1], p[m]);
      assert p[j] == p[m - 1] <==> j == m - 1;
      assert p[j] == p[m] <==> j == m;
    }
  }

  /**
   * The path through an ordering `p` of 0..n-1 is a Hamiltonian path on 0..n-1: n-1 edges
   * joining consecutive entries, a simple graph, both ends of degree 1 and every inner
   * vertex of degree 2.
   */
  lemma PathShape(p: seq<int>, n: nat)
    requires n >= 1 && IsPermutation(p, n)
    ensures |PathEdges(p)| == n - 1
    ensures IsSimple(Graph(Range(n), PathEdges(p)))
    ensures forall j :: 0 <= j < n - 1 ==> HasEdge(PathEdges(p), p[j], p[j + 1])
    ensures forall j :: 0 <= j < n ==>
              Degree(PathEdges(p), p[j]) == (if j < n - 1 then 1 else 0) + (if j > 0 then 1 else 0)
  {
    PermutationFacts(p, n);
    PathSimple(p, n);
    var es := PathEdges(p);
    forall j | 0 <= j < n - 1
      ensures HasEdge(es, p[j], p[j + 1])
    {
      assert Joins(es[j], p[j], p[j + 1]);
    }
    PathDegrees(p, n);
  }

  lemma PathDegrees(p: seq<int>, n: nat)
    requires |p| == n >= 1 && NoDup(p)
    ensures forall j :: 0 <= j < n ==>
              Degree(PathEdges(p), p[j]) == (if j < n - 1 then 1 else 0) + (if j > 0 then 1 else 0)
  {
    var es := PathEdges(p);
    assert es[..n - 1] == es;
    forall j | 0 <= j < n
      ensures Degree(es, p[j]) == (if j < n - 1 then 1 else 0) + (if j > 0 then 1 else 0)
    {
      PathPrefixDegree(p, n - 1, j);
    }
  }

  /** The path through a list of distinct vertices of 0..n-1 has no loop and no repeated edge. */
  lemma PathSimple(p: seq<int>, n: nat)
    requires |p| == n >= 1 && NoDup(p) && forall i :: 0 <= i < n ==> 0 <= p[i] < n
    ensures IsSimple(Graph(Range(n), PathEdges(p)))
  {
    var es := PathEdges(p);
    assert NoDup(Range(n));
    forall k | 0 <= k < |es|
      ensures es[k].0 in Range(n) && es[k].1 in Range(n) && es[k].0 != es[k].1
    {
      assert Range(n)[p[k]] == p[k] && Range(n)[p[k + 1]] == p[k + 1];
    }
    forall i, j | 0 <= i < j < |es|
      ensures !Joins(es[j], es[i].0, es[i].1)
    {
    }
  }

  /** Every graph the path generator produces is such a path, whatever the draws. */
  lemma GeneratedPathShape(n: nat, draws: seq<nat>)
    requires n >= 2
    ensures var p := Shuffled(Range(n), draws);
            IsPermutation(p, n) && |PathEdges(p)| == n - 1 && IsSimple(Graph(Range(n), PathEdges(p)))
  {
    ShuffledReorders(Range(n), draws);
    PathShape(Shuffled(Range(n), draws), n);
  }
}
