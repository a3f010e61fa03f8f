/**
 * Corpus generation (GraphGenUtil.java): the exhaustive enumeration of every graph on
 * one to six vertices, the parameter rules the random-generator suppliers apply to their
 * draws, and the number of graphs produced per family.
 */
module GraphGenUtil {
  import opened Wrappers
  import opened Text
  import opened Graphs
  import opened Randomness
  import FileUtils

  const NUM_ERM_GRAPHS: int := 50_000
  const NUM_ERP_GRAPHS: int := 50_000
  const NUM_BA_GRAPHS: int := 50_000
  const NUM_BA_FORESTS: int := 50_000
  const NUM_SF_GRAPHS: int := 50_000
  const NUM_SBM_GRAPHS: int := 50_000
  const NUM_BP_ERM_GRAPHS: int := 50_000
  const NUM_BP_ERP_GRAPHS: int := 50_000

  // ---------------------------------------------------------------- candidate pairs

  /** Row `i` of the pair table: (i, i+1), ..., (i, n-1). */
  function RowPairs(i: nat, n: nat): seq<Edge>
  {
    seq(if i < n then n - i - 1 else 0, k => (i, i + 1 + k))
  }

  /** The pairs of the first `rows` rows, row by row. */
  function CombinationsUpTo(n: nat, rows: nat): seq<Edge>
    decreases rows
  {
    if rows == 0 then [] else CombinationsUpTo(n, rows - 1) + RowPairs(rows - 1, n)
  }

  /** What `generateCombinations(n)` fills its table with: every pair i < j of [0, n). */
  function Combinations(n: nat): seq<Edge>
  {
    CombinationsUpTo(n, n)
  }

  predicate LexLess(a: Edge, b: Edge)
  {
    a.0 < b.0 || (a.0 == b.0 && a.1 < b.1)
  }

  lemma {:induction false} CombinationsUpToSize(n: nat, rows: nat)
    requires rows <= n
    ensures 2 * |CombinationsUpTo(n, rows)| == rows * (2 * n - rows - 1)
    decreases rows
  {
    if rows > 0 {
      CombinationsUpToSize(n, rows - 1);
      SizeStep(n, rows - 1);
    }
  }

  lemma SizeStep(n: int, r: int)
    ensures (r + 1) * (2 * n - (r + 1) - 1) == r * (2 * n - r - 1) + 2 * (n - r - 1)
  {
    var a := 2 * n - r - 1;
    calc {
      (r + 1) * (2 * n - (r + 1) - 1);
      (r + 1) * (a - 1);
      r * (a - 1) + (a - 1);
      r * a - r + (a - 1);
    }
  }

  /** The table has n(n-1)/2 rows. */
  lemma CombinationsSize(n: nat)
    ensures |Combinations(n)| == n * (n - 1) / 2
  {
    CombinationsUpToSize(n, n);
  }

  lemma {:induction false} CombinationsUpToShape(n: nat, rows: nat)
    ensures forall k :: 0 <= k < |CombinationsUpTo(n, rows)| ==>
              0 <= CombinationsUpTo(n, rows)[k].0 < rows
              && CombinationsUpTo(n, rows)[k].0 < CombinationsUpTo(n, rows)[k].1 < n
    ensures forall k, l :: 0 <= k < l < |CombinationsUpTo(n, rows)| ==>
              LexLess(CombinationsUpTo(n, rows)[k], CombinationsUpTo(n, rows)[l])
    decreases rows
  {
    if rows > 0 {
      CombinationsUpToShape(n, rows - 1);
    }
  }

  /** Every pair (i, j) of the table has 0 <= i < j < n, and the table is in strictly increasing lexicographic order. */
  lemma CombinationsShape(n: nat)
    ensures forall k :: 0 <= k < |Combinations(n)| ==> 0 <= Combinations(n)[k].0 < Combinations(n)[k].1 < n
    ensures forall k, l :: 0 <= k < l < |Combinations(n)| ==> LexLess(Combinations(n)[k], Combinations(n)[l])
  {
    CombinationsUpToShape(n, n);
  }

  /** Each unordered pair appears once. */
  lemma CombinationsNoDup(n: nat)
    ensures NoDup(Combinations(n))
  {
    CombinationsShape(n);
  }

  lemma {:induction false} CombinationsUpToPrefix(n: nat, rows: nat, more: nat)
    requires rows <= more
    ensures |CombinationsUpTo(n, rows)| <= |CombinationsUpTo(n, more)|
    ensures CombinationsUpTo(n, more)[..|CombinationsUpTo(n, rows)|] == CombinationsUpTo(n, rows)
    decreases more
  {
    if rows < more {
      CombinationsUpToPrefix(n, rows, more - 1);
    }
  }

  /** Pair (i, j) sits at the position the running index of `generateCombinations` reaches. */
  lemma CombinationIndex(n: nat, i: nat, j: nat)
    requires i < j < n
    ensures |CombinationsUpTo(n, i)| + (j - i - 1) < |Combinations(n)|
    ensures Combinations(n)[|CombinationsUpTo(n, i)| + (j - i - 1)] == (i, j)
  {
    CombinationsUpToPrefix(n, i + 1, n);
    var p := CombinationsUpTo(n, i + 1);
    assert p[|CombinationsUpTo(n, i)| + (j - i - 1)] == (i, j);
  }

  /** Every pair i < j of [0, n) is in the table. */
  lemma CombinationsComplete(n: nat, i: nat, j: nat)
    requires i < j < n
    ensures (i, j) in Combinations(n)
  {
    CombinationIndex(n, i, j);
  }

  /** `generateCombinations`: the n(n-1)/2 pairs, row by row, in a two-column table. */
  method GenerateCombinations(nodes: nat) returns (combinations: array2<int>)
    requires IsInt32(nodes * (nodes - 1))
    ensures combinations.Length0 == |Combinations(nodes)| == nodes * (nodes - 1) / 2
    ensures combinations.Length1 == 2
    ensures forall k :: 0 <= k < combinations.Length0 ==>
              combinations[k, 0] == Combinations(nodes)[k].0 && combinations[k, 1] == Combinations(nodes)[k].1
  {
    var edgeCount := (nodes * (nodes - 1)) / 2;
    CombinationsSize(nodes);
    ghost var c := Combinations(nodes);
    combinations := new int[edgeCount, 2];
    var index := 0;
    for i := 0 to nodes
      invariant index == |CombinationsUpTo(nodes, i)| <= |c|
      invariant forall k :: 0 <= k < index ==> combinations[k, 0] == c[k].0 && combinations[k, 1] == c[k].1
    {
      for j := i + 1 to nodes
        invariant index == |CombinationsUpTo(nodes, i)| + (j - i - 1) <= |c|
        invariant forall k :: 0 <= k < index ==> combinations[k, 0] == c[k].0 && combinations[k, 1] == c[k].1
      {
        CombinationIndex(nodes, i, j);
        combinations[index, 0] := i;
        combinations[index, 1] := j;
        index := index + 1;
      }
      assert |RowPairs(i, nodes)| == nodes - i - 1;
      CombinationsUpToPrefix(nodes, i + 1, nodes);
    }
  }

  // ---------------------------------------------------------------- bit selection

  function Pow2(k: nat): (r: nat)
    ensures r >= 1
  {
    if k == 0 then 1 else 2 * Pow2(k - 1)
  }

  /** Bit `j` of `i`: `(i & (1 << j)) != 0`. */
  function Bit(i: nat, j: nat): bool
  {
    if j == 0 then i % 2 == 1 else Bit(i / 2, j - 1)
  }

  /** `Integer.bitCount` of a non-negative int. */
  function BitCount(i: nat): nat
  {
    if i == 0 then 0 else i % 2 + BitCount(i / 2)
  }

  /** The pairs of `c` whose bit is set in `i`, in table order. */
  function SelectBits(c: seq<Edge>, i: nat): seq<Edge>
    decreases |c|
  {
    if c == [] then [] else (if i % 2 == 1 then [c[0]] else []) + SelectBits(c[1..], i / 2)
  }

  function EdgeSet(es: seq<Edge>): set<Edge>
  {
    set e | e in es
  }

  lemma EdgeSetAppend(a: seq<Edge>, b: seq<Edge>)
    ensures EdgeSet(a + b) == EdgeSet(a) + EdgeSet(b)
  {
  }

  /** The number of selected pairs is the bit count written in the header. */
  lemma {:induction false} SelectBitsCount(c: seq<Edge>, i: nat)
    requires i < Pow2(|c|)
    ensures |SelectBits(c, i)| == BitCount(i)
    decreases |c|
  {
    if c != [] {
      SelectBitsCount(c[1..], i / 2);
    }
  }

  /** Selecting over a longer table adds the last pair exactly when its bit is set. */
  lemma {:induction false} SelectBitsSnoc(c: seq<Edge>, i: nat)
    requires |c| >= 1
    ensures SelectBits(c, i) == SelectBits(c[..|c| - 1], i) + (if Bit(i, |c| - 1) then [c[|c| - 1]] else [])
    decreases |c|
  {
    if |c| > 1 {
      SelectBitsSnoc(c[1..], i / 2);
      assert c[1..][..|c| - 2] == c[..|c| - 1][1..];
    } else {
      assert SelectBits(c[1..], i / 2) == [];
    }
  }

  /** With distinct pairs, pair `j` is selected exactly when bit `j` is set. */
  lemma {:induction false} SelectBitsMember(c: seq<Edge>, i: nat, j: nat)
    requires NoDup(c) && j < |c|
    ensures c[j] in SelectBits(c, i) <==> Bit(i, j)
    decreases |c|
  {
    SelectBitsWithin(c[1..], i / 2);
    if j > 0 {
      assert c[1..][j - 1] == c[j];
      assert NoDup(c[1..]);
      SelectBitsMember(c[1..], i / 2, j - 1);
    } else {
      assert c[0] !in c[1..];
    }
  }

  lemma {:induction false} SelectBitsWithin(c: seq<Edge>, i: nat)
    ensures forall e :: e in SelectBits(c, i) ==> e in c
    decreases |c|
  {
    if c != [] {
      SelectBitsWithin(c[1..], i / 2);
    }
  }

  /** Two different numbers below 2^k differ in one of their k low bits. */
  lemma {:induction false} BitsDetermine(a: nat, b: nat, k: nat)
    requires a < Pow2(k) && b < Pow2(k) && a != b
    ensures exists j :: 0 <= j < k && Bit(a, j) != Bit(b, j)
    decreases k
  {
    if a % 2 != b % 2 {
      assert Bit(a, 0) != Bit(b, 0);
    } else {
      BitsDetermine(a / 2, b / 2, k - 1);
      var j :| 0 <= j < k - 1 && Bit(a / 2, j) != Bit(b / 2, j);
      assert Bit(a, j + 1) != Bit(b, j + 1);
    }
  }

  /** Distinct graph numbers give distinct edge sets. */
  lemma DistinctIndicesDistinctEdgeSets(c: seq<Edge>, a: nat, b: nat)
    requires NoDup(c)
    requires a < Pow2(|c|) && b < Pow2(|c|) && a != b
    ensures EdgeSet(SelectBits(c, a)) != EdgeSet(SelectBits(c, b))
  {
    BitsDetermine(a, b, |c|);
    var j :| 0 <= j < |c| && Bit(a, j) != Bit(b, j);
    SelectBitsMember(c, a, j);
    SelectBitsMember(c, b, j);
    assert c[j] in EdgeSet(SelectBits(c, a)) <==> c[j] !in EdgeSet(SelectBits(c, b));
  }

  /** The graph number that selects the pairs of `c` lying in `s`. */
  function FromBits(c: seq<Edge>, s: set<Edge>): nat
    decreases |c|
  {
    if c == [] then 0 else (if c[0] in s then 1 else 0) + 2 * FromBits(c[1..], s)
  }

  lemma {:induction false} FromBitsSelects(c: seq<Edge>, s: set<Edge>)
    ensures FromBits(c, s) < Pow2(|c|)
    ensures EdgeSet(SelectBits(c, FromBits(c, s))) == s * EdgeSet(c)
    decreases |c|
  {
    if c != [] {
      var i := FromBits(c, s);
      FromBitsSelects(c[1..], s);
      assert i % 2 == (if c[0] in s then 1 else 0) && i / 2 == FromBits(c[1..], s);
      var head: seq<Edge> := if c[0] in s then [c[0]] else [];
      assert SelectBits(c, i) == head + SelectBits(c[1..], i / 2);
      EdgeSetAppend(head, SelectBits(c[1..], i / 2));
      EdgeSetAppend([c[0]], c[1..]);
      assert [c[0]] + c[1..] == c;
      assert EdgeSet(head) == {c[0]} * s;
    }
  }

  /** Every subset of the pairs is the edge set of some graph number below 2^|c|. */
  lemma EverySubsetEnumerated(c: seq<Edge>, s: set<Edge>)
    requires s <= EdgeSet(c)
    ensures exists i :: 0 <= i < Pow2(|c|) && EdgeSet(SelectBits(c, i)) == s
  {
    FromBitsSelects(c, s);
    assert s * EdgeSet(c) == s;
  }

  // ---------------------------------------------------------------- enumerated files

  /**
   * One file of `generateAllGraphsFromOneToSix`: the two count comments (the edge count is
   * `Integer.bitCount(i)`), the vertices 0..n-1, then the pairs whose bit is set in `i`.
   */
  method WriteEnumeratedGraph(n: nat, i: nat, combinations: array2<int>, writer: FileUtils.Writer)
    requires combinations.Length0 == |Combinations(n)| && combinations.Length1 == 2
    requires forall k :: 0 <= k < combinations.Length0 ==>
               combinations[k, 0] == Combinations(n)[k].0 && combinations[k, 1] == Combinations(n)[k].1
    requires i < Pow2(|Combinations(n)|)
    modifies writer
    ensures writer.text == old(writer.text)
                           + FileUtils.GraphText(None, Range(n), SelectBits(Combinations(n), i), None, None)
  {
    ghost var es := SelectBits(Combinations(n), i);
    ghost var headerText := LinesText(FileUtils.HeaderLines(None, n, BitCount(i)));
    ghost var vertexText := LinesText(FileUtils.IntStrings(Range(n)));
    ghost var edgeText := LinesText(FileUtils.EdgeLines(es));
    EnumeratedText(n, i);
    ghost var start := writer.text;
    WriteCounts(n, BitCount(i), writer);
    ghost var afterHeader := writer.text;
    WriteVertexRange(n, writer);
    ghost var afterVertices := writer.text;
    WriteSelectedPairs(n, i, combinations, writer);
    AssembleEnumeratedFile(start, afterHeader, afterVertices, writer.text, headerText, vertexText, edgeText);
  }

  /** An enumerated file has no family line, no info block and no partitions. */
  lemma EnumeratedText(n: nat, i: nat)
    requires i < Pow2(|Combinations(n)|)
    ensures FileUtils.GraphText(None, Range(n), SelectBits(Combinations(n), i), None, None)
            == LinesText(FileUtils.HeaderLines(None, n, BitCount(i))) + LinesText(FileUtils.IntStrings(Range(n)))
               + LinesText(FileUtils.EdgeLines(SelectBits(Combinations(n), i)))
  {
    var es := SelectBits(Combinations(n), i);
    SelectBitsCount(Combinations(n), i);
    FileUtils.PlainGraphText(Range(n), es);
    assert |Range(n)| == n && |es| == BitCount(i);
  }

  /** The two count comments that open an enumerated file. */
  method WriteCounts(n: int, m: int, writer: FileUtils.Writer)
    modifies writer
    ensures writer.text == old(writer.text) + LinesText(FileUtils.HeaderLines(None, n, m))
  {
    HeaderText(n, m);
    writer.Write("# number of vertices: " + IntToString(n) + "\n");
    writer.Write("# number of edges: " + IntToString(m) + "\n");
  }

  lemma HeaderText(n: int, m: int)
    ensures LinesText(FileUtils.HeaderLines(None, n, m))
            == "# number of vertices: " + IntToString(n) + "\n" + ("# number of edges: " + IntToString(m) + "\n")
  {
    var header := FileUtils.HeaderLines(None, n, m);
    assert header == ["# number of vertices: " + IntToString(n), "# number of edges: " + IntToString(m)];
    assert header[..1] == [header[0]] && header[..1][..0] == [];
    assert LinesText(header[..1]) == header[0] + "\n";
  }

  /** The vertex loop of the enumeration: one line per vertex 0..n-1. */
  method WriteVertexRange(n: nat, writer: FileUtils.Writer)
    modifies writer
    ensures writer.text == old(writer.text) + LinesText(FileUtils.IntStrings(Range(n)))
  {
    ghost var start := writer.text;
    for k := 0 to n
      invariant writer.text == start + LinesText(FileUtils.IntStrings(Range(n)[..k]))
    {
      writer.Write(IntToString(k) + "\n");
      assert Range(n)[..k + 1] == Range(n)[..k] + [k];
      FileUtils.IntStringsSnoc(Range(n)[..k], k);
    }
    assert Range(n)[..n] == Range(n);
  }

  /** The edge loop of the enumeration: a "u v" line for each pair whose bit is set in `i`. */
  method WriteSelectedPairs(n: nat, i: nat, combinations: array2<int>, writer: FileUtils.Writer)
    requires combinations.Length0 == |Combinations(n)| && combinations.Length1 == 2
    requires forall k :: 0 <= k < combinations.Length0 ==>
               combinations[k, 0] == Combinations(n)[k].0 && combinations[k, 1] == Combinations(n)[k].1
    modifies writer
    ensures writer.text == old(writer.text) + LinesText(FileUtils.EdgeLines(SelectBits(Combinations(n), i)))
  {
    ghost var c := Combinations(n);
    ghost var start := writer.text;
    ghost var written := "";
    for j := 0 to combinations.Length0
      invariant written == LinesText(FileUtils.EdgeLines(SelectBits(c[..j], i)))
      invariant writer.text == start + written
    {
      SelectBitsSnoc(c[..j + 1], i);
      assert c[..j + 1][..j] == c[..j] && c[..j + 1][j] == c[j];
      if Bit(i, j) {
        assert SelectBits(c[..j + 1], i) == SelectBits(c[..j], i) + [c[j]];
        var line := IntToString(combinations[j, 0]) + " " + IntToString(combinations[j, 1]) + "\n";
        assert line == FileUtils.EdgeLine(c[j]) + "\n";
        writer.Write(line);
        FileUtils.EdgeLinesSnoc(SelectBits(c[..j], i), c[j]);
        AppendAssoc(start, written, line);
        written := written + line;
      } else {
        assert SelectBits(c[..j + 1], i) == SelectBits(c[..j], i);
      }
    }
    assert c[..combinations.Length0] == c;
  }

  lemma AssembleEnumeratedFile(start: string, afterHeader: string, afterVertices: string, end: string,
                               header: string, vertexLines: string, edgeLines: string)
    requires afterHeader == start + header
    requires afterVertices == afterHeader + vertexLines
    requires end == afterVertices + edgeLines
    ensures end == start + (header + vertexLines + edgeLines)
  {
  }

  /** The number of graphs on n vertices: `(int) Math.pow(2, n(n-1)/2)`, exact for these sizes. */
  function TotalGraphs(n: nat): nat
  {
    Pow2(n * (n - 1) / 2)
  }

  /**
   * `generateAllGraphsFromOneToSix(n)`: file i (named graph number i + 1) holds the
   * graph on [0, n) whose edges are the pairs selected by the bits of i.
   */
  method GenerateAllGraphsFromOneToSix(n: nat) returns (files: seq<string>)
    requires n * (n - 1) / 2 <= 30
    ensures |files| == TotalGraphs(n)
    ensures forall i :: 0 <= i < |files| ==>
              files[i] == FileUtils.GraphText(None, Range(n), SelectBits(Combinations(n), i), None, None)
  {
    SmallPairProduct(n);
    var combinations := GenerateCombinations(n);
    files := EnumerateFiles(n, combinations);
  }

  /** The loop over every edge subset, reading the pair table. */
  method EnumerateFiles(n: nat, combinations: array2<int>) returns (files: seq<string>)
    requires combinations.Length0 == |Combinations(n)| == n * (n - 1) / 2 && combinations.Length1 == 2
    requires forall k :: 0 <= k < combinations.Length0 ==>
               combinations[k, 0] == Combinations(n)[k].0 && combinations[k, 1] == Combinations(n)[k].1
    ensures |files| == TotalGraphs(n)
    ensures forall i :: 0 <= i < |files| ==>
              files[i] == FileUtils.GraphText(None, Range(n), SelectBits(Combinations(n), i), None, None)
  {
    var totalGraphs := Pow2(n * (n - 1) / 2);
    files := [];
    for i := 0 to totalGraphs
      invariant |files| == i
      invariant forall k :: 0 <= k < i ==>
                  files[k] == FileUtils.GraphText(None, Range(n), SelectBits(Combinations(n), k), None, None)
    {
      var text := EnumeratedFile(n, i, combinations);
      files := files + [text];
    }
  }

  /** One iteration of the enumeration: a fresh file holding graph number i. */
  method EnumeratedFile(n: nat, i: nat, combinations: array2<int>) returns (text: string)
    requires combinations.Length0 == |Combinations(n)| && combinations.Length1 == 2
    requires forall k :: 0 <= k < combinations.Length0 ==>
               combinations[k, 0] == Combinations(n)[k].0 && combinations[k, 1] == Combinations(n)[k].1
    requires i < Pow2(|Combinations(n)|)
    ensures text == FileUtils.GraphText(None, Range(n), SelectBits(Combinations(n), i), None, None)
  {
    var writer := new FileUtils.Writer();
    WriteEnumeratedGraph(n, i, combinations, writer);
    text := writer.text;
  }

  lemma SmallPairProduct(n: nat)
    requires n * (n - 1) / 2 <= 30
    ensures IsInt32(n * (n - 1))
  {
  }

  /**
   * Enumerated file i reads back as the vertices [0, n) and exactly the selected pairs,
   * and its edge count comment is the number of those pairs.
   */
  lemma EnumeratedFileReadsBack(n: nat, i: nat)
    requires n * (n - 1) / 2 <= 30
    requires i < TotalGraphs(n)
    ensures FileUtils.ReadGraphSpec(Lines(FileUtils.GraphText(None, Range(n), SelectBits(Combinations(n), i), None, None)))
            == Ok((RangeSet(n), SelectBits(Combinations(n), i)))
    ensures |SelectBits(Combinations(n), i)| == BitCount(i)
  {
    var c := Combinations(n);
    var es := SelectBits(c, i);
    CombinationsSize(n);
    SelectBitsCount(c, i);
    PairCountBound(n);
    EnumeratedEndpointsFit(n, i);
    FileUtils.ReadBackWrittenGraph(None, Range(n), es, None, None);
    assert Elements(Range(n)) == RangeSet(n);
  }

  lemma PairCountBound(n: nat)
    ensures n >= 9 ==> n * (n - 1) / 2 >= 36
  {
    if n >= 9 {
      assert n * (n - 1) >= 9 * (n - 1);
    }
  }

  lemma EnumeratedEndpointsFit(n: nat, i: nat)
    requires n <= 8
    ensures forall k :: 0 <= k < |Range(n)| ==> IsInt32(Range(n)[k])
    ensures var es := SelectBits(Combinations(n), i);
            forall k :: 0 <= k < |es| ==> IsInt32(es[k].0) && IsInt32(es[k].1)
  {
    var c := Combinations(n);
    var es := SelectBits(c, i);
    CombinationsShape(n);
    SelectBitsWithin(c, i);
    forall k | 0 <= k < |es| ensures IsInt32(es[k].0) && IsInt32(es[k].1) {
      assert es[k] in c;
    }
  }

  // ---------------------------------------------------------------- generator parameters

  /**
   * The ERM supplier's bound on the edge count, split by parity so that no intermediate
   * product exceeds the result; `Math.multiplyExact` throws when the product overflows.
   */
  function ErmEdgeBound(n: nat): Result<int, string>
  {
    var product := if n % 2 == 0 then (n / 2) * (n - 1) else ((n - 1) / 2) * n;
    if IsInt32(product) then Ok(product) else Err("ArithmeticException")
  }

  /** Both parity branches compute n(n-1)/2. */
  lemma ErmEdgeBoundIsPairCount(n: nat)
    ensures ErmEdgeBound(n).Ok? <==> n * (n - 1) / 2 <= INT_MAX
    ensures ErmEdgeBound(n).Ok? ==> ErmEdgeBound(n).value == n * (n - 1) / 2
  {
    if n % 2 == 0 {
      var h := n / 2;
      assert n == 2 * h;
      assert n * (n - 1) == 2 * (h * (n - 1));
    } else {
      var h := (n - 1) / 2;
      assert n - 1 == 2 * h;
      assert n * (n - 1) == 2 * (h * n);
    }
  }

  /**
   * The ERM supplier: `m = nextInt(bound) + 1`; `nextInt` throws for a bound that is not
   * positive (fewer than two vertices).
   */
  function ErmEdgeCount(n: nat, draw: nat): (r: Result<int, string>)
    ensures r.Ok? ==> 1 <= r.value <= n * (n - 1) / 2
    ensures r.Ok? <==> 2 <= n && n * (n - 1) / 2 <= INT_MAX
  {
    ErmEdgeBoundIsPairCount(n);
    match ErmEdgeBound(n)
    case Err(e) => Err(e)
    case Ok(bound) => if bound <= 0 then Err("IllegalArgumentException") else Ok(NextInt(draw, bound) + 1)
  }

  /** The BAF supplier's tree count `t = nextInt(n / 2) + 1`. */
  function BafTreeCount(n: nat, draw: nat): (r: Result<int, string>)
    ensures r.Ok? <==> n >= 2
    ensures r.Ok? ==> 1 <= r.value <= n / 2
  {
    if n / 2 <= 0 then Err("IllegalArgumentException") else Ok(NextInt(draw, n / 2) + 1)
  }

  /** The star supplier's centre `nextInt(n)`. */
  function StarCenter(n: nat, draw: nat): (r: Result<int, string>)
    ensures r.Ok? <==> n >= 1
    ensures r.Ok? ==> 0 <= r.value < n
  {
    if n <= 0 then Err("IllegalArgumentException") else Ok(NextInt(draw, n))
  }

  /**
   * The BAG supplier: draw `m0 = nextInt(n / 3) + 1` until it is not 1, then
   * `m = nextInt(m0) + 1`. The redraws use `draws` in order; the draw after the accepted
   * one gives `m`.
   */
  method BagParameters(n: nat, draws: seq<nat>) returns (r: Retry<(int, int)>)
    ensures r.Throws? <==> n / 3 == 0
    ensures r.Done? ==> 2 <= r.value.0 <= n / 3 && 1 <= r.value.1 <= r.value.0
    ensures r.StillRetrying? <==> n / 3 != 0 && forall k :: 0 <= k < |draws| ==> NextInt(draws[k], n / 3) == 0
    ensures n / 3 == 1 ==> r.StillRetrying?
  {
    if n / 3 <= 0 {
      return Throws("IllegalArgumentException");
    }
    if |draws| == 0 {
      return StillRetrying;
    }
    var k := 0;
    var m0 := NextInt(draws[k], n / 3) + 1;
    while m0 == 1
      invariant k < |draws|
      invariant m0 == NextInt(draws[k], n / 3) + 1
      invariant forall l :: 0 <= l < k ==> NextInt(draws[l], n / 3) == 0
      decreases |draws| - k
    {
      if k + 1 == |draws| {
        return StillRetrying;
      }
      k := k + 1;
      m0 := NextInt(draws[k], n / 3) + 1;
    }
    var m := NextInt(Draw(draws, k + 1), m0) + 1;
    r := Done((m0, m));
  }

  /**
   * The first bipartite draw: `n1 = nextInt(n) + 1` redrawn while it equals n, so that
   * both sides are non-empty.
   */
  method BipartiteSizes(n: nat, draws: seq<nat>) returns (r: Retry<(int, int)>, used: nat)
    ensures r.Throws? <==> n == 0
    ensures r.Done? ==> 1 <= r.value.0 <= n - 1 && r.value.1 == n - r.value.0 >= 1
    ensures r.StillRetrying? <==> n != 0 && forall k :: 0 <= k < |draws| ==> NextInt(draws[k], n) + 1 == n
    ensures r.Done? ==> used >= 1
  {
    used := 0;
    if n <= 0 {
      return Throws("IllegalArgumentException"), 0;
    }
    if |draws| == 0 {
      return StillRetrying, 0;
    }
    var k := 0;
    var n1 := NextInt(draws[k], n) + 1;
    while n1 == n
      invariant k < |draws|
      invariant n1 == NextInt(draws[k], n) + 1
      invariant forall l :: 0 <= l < k ==> NextInt(draws[l], n) + 1 == n
      decreases |draws| - k
    {
      if k + 1 == |draws| {
        return StillRetrying, 0;
      }
      k := k + 1;
      n1 := NextInt(draws[k], n) + 1;
    }
    r, used := Done((n1, n - n1)), k + 1;
  }

  /**
   * The Bipartite-ERM supplier: the sizes, then `m = nextInt(n1 * n2) + 1`, the product
   * taken as a Java int.
   */
  method BipartiteErmParameters(n: nat, draws: seq<nat>) returns (r: Retry<(int, int, int)>)
    ensures r.Done? ==> 1 <= r.value.0 <= n - 1 && r.value.1 == n - r.value.0
    ensures r.Done? ==> 1 <= r.value.2 <= r.value.0 * r.value.1
    ensures n == 0 ==> r.Throws?
  {
    var sizes, used := BipartiteSizes(n, draws);
    match sizes {
      case Throws(e) => return Throws(e);
      case StillRetrying => return StillRetrying;
      case Done(v) =>
        var product := Wrap32(v.0 * v.1);
        if product <= 0 {
          return Throws("IllegalArgumentException");
        }
        var m := NextInt(Draw(draws, used), product) + 1;
        return Done((v.0, v.1, m));
    }
  }

  /** For sides of up to 46340 vertices the product does not wrap, so `nextInt` gets a positive bound. */
  lemma BipartiteProductFits(n1: int, n2: int)
    requires 1 <= n1 <= 46340 && 1 <= n2 <= 46340
    ensures Wrap32(n1 * n2) == n1 * n2 > 0
  {
    assert n1 * n2 <= 46340 * n2 by {
      MulMono(n1, 46340, n2);
    }
    assert 46340 * n2 <= 46340 * 46340 by {
      MulMono(n2, 46340, 46340);
    }
    assert 46340 * 46340 == 2147395600;
    assert n1 * n2 >= 1 by {
      MulMono(1, n1, n2);
    }
  }

  lemma MulMono(a: int, b: int, c: int)
    requires a <= b && c >= 0
    ensures a * c <= b * c
  {
    assert b * c - a * c == (b - a) * c;
  }

  // ---------------------------------------------------------------- graphs per family

  const FAMILIES: set<string> := {"EG", "Complete", "ERP", "ERM", "BAG", "BAF", "SF", "Path", "Star", "SBM",
                                  "Bipartite-ERP", "Bipartite-ERM"}

  /** `getNumOfGraphs`: the number of graphs generated for a family and a vertex count. */
  function NumOfGraphs(generatorName: string, numOfNodes: int): (r: int)
    ensures generatorName !in FAMILIES ==> r == 0
    ensures generatorName in {"EG", "Complete"} ==> r == 1
    ensures generatorName in FAMILIES - {"EG", "Complete", "Path", "Star"} ==> r == 50_000
    ensures generatorName == "Star" ==> r == numOfNodes
  {
    match generatorName
    case "EG" => 1
    case "Complete" => 1
    case "ERP" => NUM_ERP_GRAPHS
    case "ERM" => NUM_ERM_GRAPHS
    case "BAG" => NUM_BA_GRAPHS
    case "BAF" => NUM_BA_FORESTS
    case "SF" => NUM_SF_GRAPHS
    case "Path" => JavaDiv(Wrap32(numOfNodes * (numOfNodes - 1)), 2)
    case "Star" => numOfNodes
    case "SBM" => NUM_SBM_GRAPHS
    case "Bipartite-ERP" => NUM_BP_ERP_GRAPHS
    case "Bipartite-ERM" => NUM_BP_ERM_GRAPHS
    case _ => 0
  }

  /** For the sizes generated, one Path graph is written per vertex pair. */
  lemma PathGraphCount(n: int)
    requires 0 <= n <= 46341
    ensures NumOfGraphs("Path", n) == n * (n - 1) / 2
  {
    var p := n * (n - 1);
    PathProductFits(n);
    assert Wrap32(p) == p;
    assert JavaDiv(p, 2) == p / 2;
  }

  lemma PathProductFits(n: int)
    requires 0 <= n <= 46341
    ensures 0 <= n * (n - 1) <= INT_MAX
  {
    if n >= 1 {
      assert n * (n - 1) <= 46341 * (n - 1);
      assert 46341 * (n - 1) <= 46341 * 46340;
    }
  }
}
