/**
 * Undirected simple graphs as jgrapht holds them: vertices and edges in insertion
 * order (the order every loop of the source iterates them in), no self-loops and no
 * two edges joining the same pair of vertices.
 */
module Graphs {

  type Edge = (int, int)

  /** A graph as a value: its vertices and its edges, each in iteration order. */
  datatype Graph = Graph(vertices: seq<int>, edges: seq<Edge>)

  /** Edge `e` joins `u` and `v`, in either orientation. */
  predicate Joins(e: Edge, u: int, v: int) { e == (u, v) || e == (v, u) }

  /** `containsEdge(u, v)` of an undirected graph. */
  predicate HasEdge(edges: seq<Edge>, u: int, v: int)
  {
    exists k :: 0 <= k < |edges| && Joins(edges[k], u, v)
  }

  predicate NoDup<T(==)>(s: seq<T>) { forall i, j :: 0 <= i < j < |s| ==> s[i] != s[j] }

  /** The invariant jgrapht's `SimpleGraph` keeps. */
  predicate IsSimple(g: Graph)
  {
    && NoDup(g.vertices)
    && (forall k :: 0 <= k < |g.edges| ==>
          g.edges[k].0 in g.vertices && g.edges[k].1 in g.vertices && g.edges[k].0 != g.edges[k].1)
    && (forall i, j :: 0 <= i < j < |g.edges| ==> !Joins(g.edges[j], g.edges[i].0, g.edges[i].1))
  }

  /** The entries of a sequence, as a set. */
  function Elements<T>(s: seq<T>): set<T>
  {
    set x | x in s
  }

  lemma SubsetCard<T>(a: set<T>, b: set<T>)
    requires a <= b
    ensures |a| <= |b|
  {
    assert b == a + (b - a);
  }

  /** A sequence has at least as many entries as distinct values, and exactly as many without repeats. */
  lemma {:induction false} ElementsCard<T>(s: seq<T>)
    ensures |Elements(s)| <= |s|
    ensures NoDup(s) ==> |Elements(s)| == |s|
    decreases |s|
  {
    if s != [] {
      var init := s[..|s| - 1];
      ElementsCard(init);
      assert Elements(s) == Elements(init) + {s[|s| - 1]};
      if NoDup(s) {
        assert NoDup(init);
        assert s[|s| - 1] !in init;
      }
    }
  }

  /** Distinct values all taken from `ys` are no more than `ys` has entries. */
  lemma DistinctWithin<T>(xs: seq<T>, ys: seq<T>)
    requires NoDup(xs) && forall k :: 0 <= k < |xs| ==> xs[k] in ys
    ensures |xs| <= |ys|
  {
    ElementsCard(xs);
    ElementsCard(ys);
    SubsetCard(Elements(xs), Elements(ys));
  }

  lemma NoDupConcat<T>(a: seq<T>, b: seq<T>)
    requires NoDup(a) && NoDup(b)
    requires forall i, j :: 0 <= i < |a| && 0 <= j < |b| ==> a[i] != b[j]
    ensures NoDup(a + b)
  {
    var ab := a + b;
    forall i, j | 0 <= i < j < |ab|
      ensures ab[i] != ab[j]
    {
      if j < |a| {
        assert ab[i] == a[i] && ab[j] == a[j];
      } else if i < |a| {
        assert ab[i] == a[i] && ab[j] == b[j - |a|];
      } else {
        assert ab[i] == b[i - |a|] && ab[j] == b[j - |a|];
      }
    }
  }

  /** The list 0, 1, ..., n-1. */
  function Range(n: nat): (r: seq<int>)
    ensures |r| == n && forall i :: 0 <= i < n ==> r[i] == i
  {
    seq(n, i => i)
  }

  /** The set {0, ..., n-1}. */
  function RangeSet(n: nat): set<int>
  {
    set i | i in Range(n)
  }

  /** `p` is an ordering of 0..n-1 (what shuffling the list 0..n-1 yields). */
  predicate IsPermutation(p: seq<int>, n: nat)
  {
    multiset(p) == multiset(Range(n))
  }

  /** The edges of `edges` that touch `v`, in order: jgrapht's `edgesOf(v)`. */
  function Incident(edges: seq<Edge>, v: int): (r: seq<Edge>)
    ensures |r| <= |edges|
    ensures forall k :: 0 <= k < |r| ==> r[k] in edges && (r[k].0 == v || r[k].1 == v)
    decreases |edges|
  {
    if edges == [] then []
    else
      var e := edges[|edges| - 1];
      Incident(edges[..|edges| - 1], v) + (if e.0 == v || e.1 == v then [e] else [])
  }

  /** `degreeOf(v)`. */
  function Degree(edges: seq<Edge>, v: int): nat
  {
    |Incident(edges, v)|
  }

  lemma {:induction false} NoDupCount<T>(s: seq<T>, x: T)
    requires NoDup(s)
    ensures multiset(s)[x] <= 1
    decreases |s|
  {
    if s != [] {
      NoDupCount(s[1..], x);
      assert s == [s[0]] + s[1..];
      assert forall j :: 0 <= j < |s[1..]| ==> s[1..][j] == s[j + 1] != s[0];
    }
  }

  lemma RepeatCount<T>(s: seq<T>, i: int, j: int)
    requires 0 <= i < j < |s| && s[i] == s[j]
    ensures multiset(s)[s[i]] >= 2
  {
    assert s == s[..j] + s[j..];
    assert s[i] in s[..j];
    assert s[j] in s[j..];
  }

  /** What an ordering of 0..n-1 is, spelled out: n distinct values, all below n, none missing. */
  lemma PermutationFacts(p: seq<int>, n: nat)
    requires IsPermutation(p, n)
    ensures |p| == n
    ensures forall i :: 0 <= i < n ==> 0 <= p[i] < n
    ensures NoDup(p)
    ensures forall x :: 0 <= x < n ==> x in p
    ensures forall x :: x in p <==> x in RangeSet(n)
  {
    assert |multiset(p)| == |multiset(Range(n))|;
    forall i | 0 <= i < |p| ensures 0 <= p[i] < n {
      assert p[i] in multiset(Range(n));
    }
    forall i, j | 0 <= i < j < |p| ensures p[i] != p[j] {
      if p[i] == p[j] {
        RepeatCount(p, i, j);
        NoDupCount(Range(n), p[i]);
      }
    }
    forall x | 0 <= x < n ensures x in p {
      assert Range(n)[x] == x;
      assert x in multiset(Range(n));
    }
    forall x ensures x in p <==> x in RangeSet(n) {
      if x in RangeSet(n) {
        assert x in Range(n);
      }
      if x in p {
        var i :| 0 <= i < |p| && p[i] == x;
        assert Range(n)[x] == x;
      }
    }
  }

  /** There is exactly one ordering of fewer than two values. */
  lemma SmallPermutationUnique(p: seq<int>, q: seq<int>, n: nat)
    requires n < 2 && IsPermutation(p, n) && IsPermutation(q, n)
    ensures p == q
  {
    PermutationFacts(p, n);
    PermutationFacts(q, n);
  }

  /** Reordering a list whose elements are all equal gives the same list. */
  lemma {:induction false} ReorderConstant<T>(s: seq<T>, t: seq<T>)
    requires multiset(s) == multiset(t)
    requires forall i, j :: 0 <= i < |s| && 0 <= j < |s| ==> s[i] == s[j]
    ensures s == t
  {
    assert |s| == |multiset(s)| == |t|;
    forall k | 0 <= k < |t| ensures t[k] == s[k] {
      assert t[k] in multiset(s);
    }
  }

  /** The vertices and edges of a mutable jgrapht `SimpleGraph`. */
  class SimpleGraph {
    var vertices: seq<int>
    var edges: seq<Edge>

    ghost predicate Valid()
      reads this
    {
      IsSimple(Graph(vertices, edges))
    }

    function Model(): Graph
      reads this
    {
      Graph(vertices, edges)
    }

    constructor ()
      ensures Valid() && vertices == [] && edges == []
    {
      vertices := [];
      edges := [];
    }

    /** `addVertex(v)`: adds `v` unless present, and says whether it did. */
    method AddVertex(v: int) returns (added: bool)
      requires Valid()
      modifies this
      ensures Valid()
      ensures added <==> v !in old(vertices)
      ensures vertices == if added then old(vertices) + [v] else old(vertices)
      ensures edges == old(edges)
    {
      added := v !in vertices;
      if added {
        vertices := vertices + [v];
      }
    }

    /**
     * `addEdge(u, v)` of a graph without loops or multiple edges: both vertices must be
     * present and distinct (otherwise jgrapht throws); an edge already joining them, in
     * either orientation, leaves the graph unchanged.
     */
    method AddEdge(u: int, v: int) returns (added: bool)
      requires Valid()
      requires u in vertices && v in vertices && u != v
      modifies this
      ensures Valid()
      ensures added <==> !HasEdge(old(edges), u, v)
      ensures edges == if added then old(edges) + [(u, v)] else old(edges)
      ensures vertices == old(vertices)
    {
      added := !HasEdge(edges, u, v);
      if added {
        edges := edges + [(u, v)];
      }
    }
  }
}

/**
 * `java.util.Random` draws and `Collections.shuffle`, with the randomness supplied by
 * the caller as the sequence of raw draws the generator would produce.
 */
module Randomness {

  /**
   * How a loop that redraws until it gets an acceptable value ends on a finite supply
   * of draws: with a value, with an exception, or still redrawing when the supply runs
   * out (the Java loop would go on drawing).
   */
  datatype Retry<+T> = Done(value: T) | Throws(exception: string) | StillRetrying

  /** The k-th draw of the supplied sequence; draws past its end read as 0. */
  function Draw(draws: seq<nat>, k: nat): nat
  {
    if k < |draws| then draws[k] else 0
  }

  /** `nextInt(bound)` for a positive bound, from one raw draw: a value in [0, bound). */
  function NextInt(draw: nat, bound: int): (r: nat)
    requires bound > 0
    ensures r < bound
  {
    draw % bound
  }

  /** `getRandElem`: the element of a non-empty list at a drawn position. */
  function Pick<T>(xs: seq<T>, draw: nat): (x: T)
    requires |xs| > 0
    ensures x in xs
  {
    xs[NextInt(draw, |xs|)]
  }

  /** `Collections.swap`: the list with positions `x` and `y` exchanged. */
  function Swap<T>(s: seq<T>, x: nat, y: nat): (r: seq<T>)
    requires x < |s| && y < |s|
    ensures |r| == |s| && multiset(r) == multiset(s)
  {
    s[x := s[y]][y := s[x]]
  }

  /**
   * The swap loop of `Collections.shuffle(list, rnd)` once it has come down to position
   * `i`, having used `k` draws: each step swaps position `i - 1` with a drawn position
   * below `i` (`rnd.nextInt(i)`), until `i` reaches 1.
   */
  function ShuffleFrom<T>(s: seq<T>, draws: seq<nat>, i: nat, k: nat): (r: seq<T>)
    requires i <= |s|
    decreases i
  {
    if i <= 1 then s else ShuffleFrom(Swap(s, i - 1, NextInt(Draw(draws, k), i)), draws, i - 1, k + 1)
  }

  /** `Collections.shuffle` of a list: `|s| - 1` draws, from the last position down. */
  function Shuffled<T>(s: seq<T>, draws: seq<nat>): seq<T>
  {
    ShuffleFrom(s, draws, |s|, 0)
  }

  /** Shuffling reorders: the same elements with the same multiplicities. */
  lemma {:induction false} ShuffleFromReorders<T>(s: seq<T>, draws: seq<nat>, i: nat, k: nat)
    requires i <= |s|
    ensures |ShuffleFrom(s, draws, i, k)| == |s|
    ensures multiset(ShuffleFrom(s, draws, i, k)) == multiset(s)
    decreases i
  {
    if i > 1 {
      ShuffleFromReorders(Swap(s, i - 1, NextInt(Draw(draws, k), i)), draws, i - 1, k + 1);
    }
  }

  lemma ShuffledReorders<T>(s: seq<T>, draws: seq<nat>)
    ensures |Shuffled(s, draws)| == |s| && multiset(Shuffled(s, draws)) == multiset(s)
  {
    ShuffleFromReorders(s, draws, |s|, 0);
  }

  /** The swap loop never touches the positions it has already passed. */
  lemma {:induction false} ShuffleFromKeepsAbove<T>(s: seq<T>, draws: seq<nat>, i: nat, k: nat, j: nat)
    requires i <= j < |s|
    ensures |ShuffleFrom(s, draws, i, k)| == |s| && ShuffleFrom(s, draws, i, k)[j] == s[j]
    decreases i
  {
    if i > 1 {
      var t := Swap(s, i - 1, NextInt(Draw(draws, k), i));
      ShuffleFromKeepsAbove(t, draws, i - 1, k + 1, j);
    }
  }

  /** Draws that make every step swap a position with itself, so that the list stays as it was. */
  function IdentityDraws(n: nat): (d: seq<nat>)
    ensures |d| == n && forall t :: 0 <= t < n ==> d[t] == n - 1 - t
  {
    seq(n, t requires 0 <= t < n => n - 1 - t)
  }

  lemma {:induction false} ShuffleFromIdentity<T>(s: seq<T>, i: nat, k: nat)
    requires i <= |s| && k + i == |s|
    ensures ShuffleFrom(s, IdentityDraws(|s|), i, k) == s
    decreases i
  {
    if i > 1 {
      var d := IdentityDraws(|s|);
      assert d[k] == i - 1;
      assert NextInt(Draw(d, k), i) == i - 1;
      assert s[i - 1 := s[i - 1]] == s;
      ShuffleFromIdentity(s, i - 1, k + 1);
    }
  }

  /** Some draws leave a list in its order. */
  lemma ShuffledIdentity<T>(s: seq<T>)
    ensures Shuffled(s, IdentityDraws(|s|)) == s
  {
    ShuffleFromIdentity(s, |s|, 0);
  }

  /** A first draw of j moves entry j to the last position, where it stays. */
  lemma ShuffledLast<T>(s: seq<T>, j: nat)
    requires j < |s| && |s| >= 2
    ensures |Shuffled(s, [j])| == |s| && Shuffled(s, [j])[|s| - 1] == s[j]
  {
    var t := Swap(s, |s| - 1, NextInt(Draw([j], 0), |s|));
    assert NextInt(Draw([j], 0), |s|) == j;
    ShuffleFromKeepsAbove(t, [j], |s| - 1, 1, |s| - 1);
  }

  /** `Collections.shuffle` on a list held in an array, in place. */
  method Shuffle<T>(a: array<T>, draws: seq<nat>)
    modifies a
    ensures a[..] == Shuffled(old(a[..]), draws)
  {
    var i := a.Length;
    var k := 0;
    while i > 1
      invariant 0 <= i <= a.Length
      invariant ShuffleFrom(a[..], draws, i, k) == Shuffled(old(a[..]), draws)
    {
      var j := NextInt(Draw(draws, k), i);
      ghost var before := a[..];
      a[i - 1], a[j] := a[j], a[i - 1];
      assert a[..] == Swap(before, i - 1, j);
      i := i - 1;
      k := k + 1;
    }
  }
}
