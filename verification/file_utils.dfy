/**
 * The plain-text graph corpus format (FileUtils.java): the writer's line layout, the
 * bipartite partition lines, and the line-classifying reader.
 *
 * A file is a text; the reader sees it as the lines a `Scanner` returns (`Text.Lines`).
 */
module FileUtils {
  import opened Wrappers
  import opened Text
  import opened Graphs

  /** A `FileWriter`: everything written to it so far. */
  class Writer {
    var text: string

    constructor ()
      ensures text == ""
    {
      text := "";
    }

    method Write(s: string)
      modifies this
      ensures text == old(text) + s
    {
      text := text + s;
    }
  }

  function IntStrings(xs: seq<int>): (r: seq<string>)
    ensures |r| == |xs| && forall i :: 0 <= i < |xs| ==> r[i] == IntToString(xs[i])
  {
    seq(|xs|, i requires 0 <= i < |xs| => IntToString(xs[i]))
  }

  /** Each element followed by ", ": what the partition loop has written before the last element. */
  function Separated(xs: seq<int>): string
    decreases |xs|
  {
    if xs == [] then "" else Separated(xs[..|xs| - 1]) + IntToString(xs[|xs| - 1]) + ", "
  }

  /** "<name> partition: " and the elements joined by ", ". */
  function PartitionLine(name: string, part: seq<int>): string
  {
    name + " partition: " + Join(IntStrings(part), ", ")
  }

  /** The two lines `writeBipartiteVertices` writes. */
  function PartitionText(first: seq<int>, second: seq<int>): string
  {
    PartitionLine("First", first) + "\n" + PartitionLine("Second", second) + "\n"
  }

  function EdgeLine(e: Edge): string
  {
    IntToString(e.0) + " " + IntToString(e.1)
  }

  function EdgeLines(es: seq<Edge>): (r: seq<string>)
    ensures |r| == |es| && forall i :: 0 <= i < |es| ==> r[i] == EdgeLine(es[i])
  {
    seq(|es|, i requires 0 <= i < |es| => EdgeLine(es[i]))
  }

  lemma IntStringsSnoc(xs: seq<int>, x: int)
    ensures LinesText(IntStrings(xs + [x])) == LinesText(IntStrings(xs)) + (IntToString(x) + "\n")
  {
    var ls := IntStrings(xs + [x]);
    assert ls[..|ls| - 1] == IntStrings(xs);
  }

  lemma EdgeLinesSnoc(es: seq<Edge>, e: Edge)
    ensures LinesText(EdgeLines(es + [e])) == LinesText(EdgeLines(es)) + (EdgeLine(e) + "\n")
  {
    var ls := EdgeLines(es + [e]);
    assert ls[..|ls| - 1] == EdgeLines(es);
  }

  /** The comment lines that open a file: optional family name, then the two counts. */
  function HeaderLines(generatorName: Option<string>, vertexCount: int, edgeCount: int): seq<string>
  {
    (if generatorName.Some? then ["# " + generatorName.value + " graphs"] else [])
    + ["# number of vertices: " + IntToString(vertexCount), "# number of edges: " + IntToString(edgeCount)]
  }

  /**
   * The file `writeGraph` produces: header, info block and a newline, the partitions of a
   * bipartite generator, one line per vertex, one "u v" line per edge.  A missing info
   * block (`info` None) is left out together with its newline.
   */
  function GraphText(generatorName: Option<string>, vertices: seq<int>, edges: seq<Edge>,
                     partition: Option<(seq<int>, seq<int>)>, info: Option<string>): string
  {
    LinesText(HeaderLines(generatorName, |vertices|, |edges|)) + InfoText(info) + BipartiteText(partition)
    + LinesText(IntStrings(vertices)) + LinesText(EdgeLines(edges))
  }

  /** A file without family line, info block or partitions: the counts, the vertices, the edges. */
  lemma PlainGraphText(vertices: seq<int>, edges: seq<Edge>)
    ensures GraphText(None, vertices, edges, None, None)
            == LinesText(HeaderLines(None, |vertices|, |edges|)) + LinesText(IntStrings(vertices))
               + LinesText(EdgeLines(edges))
  {
    var h := LinesText(HeaderLines(None, |vertices|, |edges|));
    var v := LinesText(IntStrings(vertices));
    var e := LinesText(EdgeLines(edges));
    assert InfoText(None) == "" && BipartiteText(None) == "";
    assert h + "" + "" + v + e == h + v + e;
  }

  function InfoText(info: Option<string>): string
  {
    if info.Some? then info.value + "\n" else ""
  }

  function BipartiteText(partition: Option<(seq<int>, seq<int>)>): string
  {
    if partition.Some? then PartitionText(partition.value.0, partition.value.1) else ""
  }

  lemma {:induction false} JoinAsSeparated(xs: seq<int>)
    requires |xs| >= 1
    ensures Join(IntStrings(xs), ", ") == Separated(xs[..|xs| - 1]) + IntToString(xs[|xs| - 1])
    decreases |xs|
  {
    var ps := IntStrings(xs);
    if |xs| == 1 {
      assert xs[..0] == [];
    } else {
      var init := xs[..|xs| - 1];
      JoinAsSeparated(init);
      assert IntStrings(init) == ps[..|ps| - 1];
      assert init[..|init| - 1] == xs[..|xs| - 2];
      assert init[|init| - 1] == xs[|xs| - 2];
      var a, b, c := Separated(init[..|init| - 1]), IntToString(init[|init| - 1]), IntToString(xs[|xs| - 1]);
      assert Join(ps, ", ") == (a + b) + ", " + c;
      assert Separated(init) == a + b + ", ";
      assert (a + b) + ", " + c == (a + b + ", ") + c;
    }
  }

  /** What the partition loop has written after `k` elements. */
  function PartitionPrefix(part: seq<int>, k: nat): string
    requires k <= |part|
  {
    if 0 < k == |part| then Join(IntStrings(part), ", ") else Separated(part[..k])
  }

  lemma PartitionStep(part: seq<int>, k: nat)
    requires k < |part|
    ensures PartitionPrefix(part, k + 1)
            == PartitionPrefix(part, k) + (IntToString(part[k]) + (if k + 1 < |part| then ", " else ""))
  {
    assert part[..k + 1][..k] == part[..k];
    if k + 1 == |part| {
      JoinAsSeparated(part);
      assert part[..|part| - 1] == part[..k];
    }
  }

  /** The loop of `writeBipartiteVertices` over one set: the elements, separated by ", ". */
  method WriteElements(part: seq<int>, writer: Writer)
    modifies writer
    ensures writer.text == old(writer.text) + Join(IntStrings(part), ", ")
  {
    var size := |part|;
    ghost var start := writer.text;
    ghost var acc := "";
    var k := 0;
    while k < |part|
      invariant 0 <= k <= |part| && size == |part| - k
      invariant acc == PartitionPrefix(part, k)
      invariant writer.text == start + acc
    {
      PartitionStep(part, k);
      ghost var before := writer.text;
      var x := IntToString(part[k]);
      writer.Write(x);
      size := size - 1;
      if size != 0 {
        writer.Write(", ");
      }
      ghost var piece := x + (if size != 0 then ", " else "");
      assert writer.text == before + piece;
      AppendAssoc(start, acc, piece);
      acc := acc + piece;
      k := k + 1;
    }
    if |part| == 0 {
      assert IntStrings(part) == [];
    }
  }

  /** Writes one partition line as `writeBipartiteVertices` does. */
  method WritePartition(name: string, part: seq<int>, writer: Writer)
    modifies writer
    ensures writer.text == old(writer.text) + PartitionLine(name, part) + "\n"
  {
    writer.Write(name + " partition: ");
    WriteElements(part, writer);
    writer.Write("\n");
  }

  /** `writeBipartiteVertices`: one line per partition, elements separated by ", ". */
  method WriteBipartiteVertices(first: seq<int>, second: seq<int>, writer: Writer)
    modifies writer
    ensures writer.text == old(writer.text) + PartitionText(first, second)
  {
    WritePartition("First", first, writer);
    WritePartition("Second", second, writer);
  }

  method WriteLines(lines: seq<string>, writer: Writer)
    modifies writer
    ensures writer.text == old(writer.text) + LinesText(lines)
  {
    ghost var start := writer.text;
    for k := 0 to |lines|
      invariant writer.text == start + LinesText(lines[..k])
    {
      writer.Write(lines[k] + "\n");
      assert lines[..k + 1][..k] == lines[..k];
    }
    assert lines[..|lines|] == lines;
  }

  /**
   * `writeGraph` as written: a null info block (`info` None, what the overloads without an
   * info argument pass) makes `writer.write(info)` throw after the header is written.
   */
  method WriteGraph(writer: Writer, generatorName: Option<string>, vertices: seq<int>, edges: seq<Edge>,
                    partition: Option<(seq<int>, seq<int>)>, info: Option<string>) returns (ok: bool)
    modifies writer
    ensures ok <==> info.Some?
    ensures ok ==> writer.text == old(writer.text) + GraphText(generatorName, vertices, edges, partition, info)
    ensures !ok ==> writer.text == old(writer.text) + LinesText(HeaderLines(generatorName, |vertices|, |edges|))
  {
    WriteLines(HeaderLines(generatorName, |vertices|, |edges|), writer);
    if info.None? {
      return false;
    }
    writer.Write(info.value);
    writer.Write("\n");
    ghost var mid := writer.text;
    WriteBody(writer, vertices, edges, partition);
    GraphTextParts(old(writer.text), mid, writer.text, LinesText(HeaderLines(generatorName, |vertices|, |edges|)),
                   InfoText(info), BipartiteText(partition), LinesText(IntStrings(vertices)),
                   LinesText(EdgeLines(edges)));
    ok := true;
  }

  /** `writeGraph` as its overloads evidently intend it: a null info block is left out. */
  method WriteGraphOmittingNullInfo(writer: Writer, generatorName: Option<string>, vertices: seq<int>,
                                    edges: seq<Edge>, partition: Option<(seq<int>, seq<int>)>,
                                    info: Option<string>)
    modifies writer
    ensures writer.text == old(writer.text) + GraphText(generatorName, vertices, edges, partition, info)
  {
    WriteLines(HeaderLines(generatorName, |vertices|, |edges|), writer);
    if info.Some? {
      writer.Write(info.value);
      writer.Write("\n");
    }
    ghost var mid := writer.text;
    WriteBody(writer, vertices, edges, partition);
    GraphTextParts(old(writer.text), mid, writer.text, LinesText(HeaderLines(generatorName, |vertices|, |edges|)),
                   InfoText(info), BipartiteText(partition), LinesText(IntStrings(vertices)),
                   LinesText(EdgeLines(edges)));
  }

  /** Regrouping the five parts of a written graph file. */
  lemma GraphTextParts(start: string, mid: string, end: string, header: string, info: string,
                       bipartite: string, vertexLines: string, edgeLines: string)
    requires mid == start + header + info
    requires end == mid + bipartite + vertexLines + edgeLines
    ensures end == start + (header + info + bipartite + vertexLines + edgeLines)
  {
  }

  /** What `writeGraph` writes after the info block: partitions, vertex lines, edge lines. */
  method WriteBody(writer: Writer, vertices: seq<int>, edges: seq<Edge>, partition: Option<(seq<int>, seq<int>)>)
    modifies writer
    ensures writer.text == old(writer.text) + BipartiteText(partition)
                           + LinesText(IntStrings(vertices)) + LinesText(EdgeLines(edges))
  {
    if partition.Some? {
      WriteBipartiteVertices(partition.value.0, partition.value.1, writer);
    }
    WriteLines(IntStrings(vertices), writer);
    WriteLines(EdgeLines(edges), writer);
  }

  // ---------------------------------------------------------------- reading

  /** `Character.isWhitespace`, which delimits a `Scanner`'s tokens. */
  predicate IsWhitespace(c: char)
  {
    var x := c as int;
    (9 <= x <= 13) || (28 <= x <= 32) || x == 0x1680 || (0x2000 <= x <= 0x2006)
    || (0x2008 <= x <= 0x200A) || x == 0x2028 || x == 0x2029 || x == 0x205F || x == 0x3000
  }

  predicate HasToken(line: string)
  {
    exists i :: 0 <= i < |line| && !IsWhitespace(line[i])
  }

  /** `Scanner.hasNext()` before line `k`: some line from `k` on holds a token. */
  predicate HasNext(lines: seq<string>, k: nat)
  {
    exists j :: k <= j < |lines| && HasToken(lines[j])
  }

  /** The number of lines the reader consumes: up to the last line holding a token. */
  function ScanEnd(lines: seq<string>): (k: nat)
    ensures k <= |lines|
    decreases |lines|
  {
    if lines == [] then 0
    else if HasToken(lines[|lines| - 1]) then |lines|
    else ScanEnd(lines[..|lines| - 1])
  }

  type Parsed = (set<int>, seq<Edge>)

  /**
   * One line of `readGraph`: a line starting with "#" is skipped; split at spaces, one
   * token is a vertex and two tokens an edge (each token parsed by `Integer.parseInt`,
   * whose failure is the error), any other number of tokens is ignored.
   */
  function ReadLine(acc: Parsed, line: string): Result<Parsed, string>
  {
    if |line| >= 1 && line[0] == '#' then Ok(acc)
    else
      var data := Split(line, ' ');
      if |data| == 1 then
        match ParseInt(data[0])
        case None => Err(data[0])
        case Some(v) => Ok((acc.0 + {v}, acc.1))
      else if |data| == 2 then
        match ParseInt(data[0])
        case None => Err(data[0])
        case Some(u) =>
          match ParseInt(data[1])
          case None => Err(data[1])
          case Some(v) => Ok((acc.0, acc.1 + [(u, v)]))
      else Ok(acc)
  }

  /** The lines read in order from `start`; the first failing line stops the reading. */
  function ParseFrom(start: Parsed, lines: seq<string>): Result<Parsed, string>
    decreases |lines|
  {
    if lines == [] then Ok(start)
    else
      match ParseFrom(start, lines[..|lines| - 1])
      case Err(e) => Err(e)
      case Ok(acc) => ReadLine(acc, lines[|lines| - 1])
  }

  /** What `readGraph` returns for a file with these lines. */
  function ReadGraphSpec(lines: seq<string>): Result<Parsed, string>
  {
    ParseFrom(({}, []), lines[..ScanEnd(lines)])
  }

  lemma {:induction false} ScanEndIsLastToken(lines: seq<string>, k: nat)
    ensures k < ScanEnd(lines) <==> HasNext(lines, k)
    decreases |lines|
  {
    if lines != [] && !HasToken(lines[|lines| - 1]) {
      var init := lines[..|lines| - 1];
      ScanEndIsLastToken(init, k);
      if HasNext(lines, k) {
        var j :| k <= j < |lines| && HasToken(lines[j]);
        assert init[j] == lines[j];
      }
      if HasNext(init, k) {
        var j :| k <= j < |init| && HasToken(init[j]);
        assert lines[j] == init[j];
      }
    } else if lines != [] && k < |lines| {
      assert HasToken(lines[|lines| - 1]);
    }
  }

  lemma {:induction false} ParseFromAppend(start: Parsed, a: seq<string>, b: seq<string>)
    ensures ParseFrom(start, a + b) == match ParseFrom(start, a)
                                       case Err(e) => Err(e)
                                       case Ok(acc) => ParseFrom(acc, b)
    decreases |b|
  {
    if b == [] {
      assert a + b == a;
    } else {
      ParseFromAppend(start, a, b[..|b| - 1]);
      assert (a + b)[..|a + b| - 1] == a + b[..|b| - 1];
    }
  }

  /** `readGraph`: the vertex set and the edge list, in file order with duplicates. */
  method ReadGraph(lines: seq<string>) returns (r: Result<Parsed, string>)
    ensures r == ReadGraphSpec(lines)
  {
    var vertexSet: set<int> := {};
    var edgeList: seq<Edge> := [];
    var k := 0;
    ScanEndIsLastToken(lines, 0);
    while HasNext(lines, k)
      invariant k <= ScanEnd(lines)
      invariant ParseFrom(({}, []), lines[..k]) == Ok((vertexSet, edgeList))
      decreases |lines| - k
    {
      ScanEndIsLastToken(lines, k);
      var line := lines[k];
      assert lines[..k + 1][..k] == lines[..k];
      k := k + 1;
      var data := Split(line, ' ');
      if |line| >= 1 && line[0] == '#' {
        continue;
      }
      if |data| == 1 {
        var v := ParseInt(data[0]);
        if v.None? {
          ParseFromAppend(({}, []), lines[..k], lines[k..ScanEnd(lines)]);
          assert lines[..k] + lines[k..ScanEnd(lines)] == lines[..ScanEnd(lines)];
          return Err(data[0]);
        }
        vertexSet := vertexSet + {v.value};
      } else if |data| == 2 {
        var u := ParseInt(data[0]);
        var w := ParseInt(data[1]);
        if u.None? || w.None? {
          ParseFromAppend(({}, []), lines[..k], lines[k..ScanEnd(lines)]);
          assert lines[..k] + lines[k..ScanEnd(lines)] == lines[..ScanEnd(lines)];
          return if u.None? then Err(data[0]) else Err(data[1]);
        }
        edgeList := edgeList + [(u.value, w.value)];
      }
    }
    ScanEndIsLastToken(lines, k);
    r := Ok((vertexSet, edgeList));
  }

  // ---------------------------------------------------------------- reading back

  /** A line `readGraph` passes over: a comment, or neither one nor two tokens. */
  predicate Ignored(line: string)
  {
    (|line| >= 1 && line[0] == '#') || (|Split(line, ' ')| != 1 && |Split(line, ' ')| != 2)
  }

  function InfoLines(info: Option<string>): seq<string>
  {
    if info.Some? then Pieces(info.value, '\n') else []
  }

  function PartitionLines(partition: Option<(seq<int>, seq<int>)>): seq<string>
  {
    if partition.Some? then [PartitionLine("First", partition.value.0), PartitionLine("Second", partition.value.1)]
    else []
  }

  /** The lines of a written graph file, block by block. */
  function FileLines(generatorName: Option<string>, vertices: seq<int>, edges: seq<Edge>,
                     partition: Option<(seq<int>, seq<int>)>, info: Option<string>): seq<string>
  {
    HeaderLines(generatorName, |vertices|, |edges|) + InfoLines(info) + PartitionLines(partition)
    + IntStrings(vertices) + EdgeLines(edges)
  }

  lemma {:induction false} IgnoredLines(start: Parsed, lines: seq<string>)
    requires forall i :: 0 <= i < |lines| ==> Ignored(lines[i])
    ensures ParseFrom(start, lines) == Ok(start)
    decreases |lines|
  {
    if lines != [] {
      IgnoredLines(start, lines[..|lines| - 1]);
    }
  }

  lemma ParseFromSnoc(start: Parsed, lines: seq<string>, acc: Parsed)
    requires lines != [] && ParseFrom(start, lines[..|lines| - 1]) == Ok(acc)
    ensures ParseFrom(start, lines) == ReadLine(acc, lines[|lines| - 1])
  {
  }

  lemma ElementsSnoc(xs: seq<int>, x: int)
    ensures Elements(xs + [x]) == Elements(xs) + {x}
  {
  }

  lemma ReadVertexLine(acc: Parsed, v: int)
    requires IsInt32(v)
    ensures ReadLine(acc, IntToString(v)) == Ok((acc.0 + {v}, acc.1))
  {
    var line := IntToString(v);
    IntToStringShape(v);
    IntToStringHasNo(v, ' ');
    ParseIntOfIntToString(v);
    assert Split(line, ' ') == [line];
  }

  lemma {:induction false} ReadVertexLines(start: Parsed, vertices: seq<int>)
    requires forall i :: 0 <= i < |vertices| ==> IsInt32(vertices[i])
    ensures ParseFrom(start, IntStrings(vertices)) == Ok((start.0 + Elements(vertices), start.1))
    decreases |vertices|
  {
    if vertices != [] {
      ReadVertexLines(start, vertices[..|vertices| - 1]);
      ReadVertexStep(start, vertices);
    } else {
      assert IntStrings(vertices) == [];
      assert start.0 + Elements(vertices) == start.0;
    }
  }

  lemma ReadVertexStep(start: Parsed, vertices: seq<int>)
    requires vertices != [] && IsInt32(vertices[|vertices| - 1])
    requires var init := vertices[..|vertices| - 1];
             ParseFrom(start, IntStrings(init)) == Ok((start.0 + Elements(init), start.1))
    ensures ParseFrom(start, IntStrings(vertices)) == Ok((start.0 + Elements(vertices), start.1))
  {
    var init := vertices[..|vertices| - 1];
    var v := vertices[|vertices| - 1];
    var lines := IntStrings(vertices);
    var acc := (start.0 + Elements(init), start.1);
    assert lines[..|lines| - 1] == IntStrings(init);
    assert ParseFrom(start, lines[..|lines| - 1]) == Ok(acc);
    ParseFromSnoc(start, lines, acc);
    assert lines[|lines| - 1] == IntToString(v);
    ReadVertexLine(acc, v);
    assert ParseFrom(start, lines) == Ok((acc.0 + {v}, acc.1));
    ElementsSnoc(init, v);
    assert init + [v] == vertices;
    assert acc.0 + {v} == start.0 + Elements(vertices);
  }

  lemma EdgeLineSplits(e: Edge)
    ensures Split(EdgeLine(e), ' ') == [IntToString(e.0), IntToString(e.1)]
    ensures EdgeLine(e)[0] != '#'
  {
    var parts := [IntToString(e.0), IntToString(e.1)];
    IntToStringShape(e.0);
    IntToStringShape(e.1);
    IntToStringHasNo(e.0, ' ');
    IntToStringHasNo(e.1, ' ');
    assert parts[..1] == [IntToString(e.0)];
    assert Join(parts, " ") == EdgeLine(e);
    SplitOfJoin(parts, ' ');
  }

  lemma ReadEdgeLine(acc: Parsed, e: Edge)
    requires IsInt32(e.0) && IsInt32(e.1)
    ensures ReadLine(acc, EdgeLine(e)) == Ok((acc.0, acc.1 + [e]))
  {
    EdgeLineSplits(e);
    ParseIntOfIntToString(e.0);
    ParseIntOfIntToString(e.1);
  }

  lemma {:induction false} ReadEdgeLines(start: Parsed, edges: seq<Edge>)
    requires forall i :: 0 <= i < |edges| ==> IsInt32(edges[i].0) && IsInt32(edges[i].1)
    ensures ParseFrom(start, EdgeLines(edges)) == Ok((start.0, start.1 + edges))
    decreases |edges|
  {
    if edges != [] {
      ReadEdgeLines(start, edges[..|edges| - 1]);
      ReadEdgeStep(start, edges);
    } else {
      assert EdgeLines(edges) == [];
      assert start.1 + edges == start.1;
    }
  }

  lemma ReadEdgeStep(start: Parsed, edges: seq<Edge>)
    requires edges != [] && IsInt32(edges[|edges| - 1].0) && IsInt32(edges[|edges| - 1].1)
    requires var init := edges[..|edges| - 1];
             ParseFrom(start, EdgeLines(init)) == Ok((start.0, start.1 + init))
    ensures ParseFrom(start, EdgeLines(edges)) == Ok((start.0, start.1 + edges))
  {
    var init := edges[..|edges| - 1];
    var e := edges[|edges| - 1];
    var lines := EdgeLines(edges);
    var acc := (start.0, start.1 + init);
    assert lines[..|lines| - 1] == EdgeLines(init);
    assert ParseFrom(start, lines[..|lines| - 1]) == Ok(acc);
    ParseFromSnoc(start, lines, acc);
    assert lines[|lines| - 1] == EdgeLine(e);
    ReadEdgeLine(acc, e);
    assert init + [e] == edges;
    assert acc.1 + [e] == start.1 + edges;
  }

  /** A line that opens with two space-free, non-empty words and a space holds three or more tokens. */
  lemma ThreeWordsIgnored(w1: string, w2: string, rest: string)
    requires w1 != "" && w2 != "" && w1[0] != '#' && ' ' !in w1 && ' ' !in w2
    requires rest != [] && rest[0] != ' '
    ensures Ignored(w1 + [' '] + (w2 + [' '] + rest))
  {
    var line := w1 + [' '] + (w2 + [' '] + rest);
    PiecesAppend(w1, ' ', w2 + [' '] + rest);
    PiecesAppend(w2, ' ', rest);
    PiecesWithout(w1, ' ');
    PiecesWithout(w2, ' ');
    FirstPieceNonEmpty(rest, ' ');
    var ps := Pieces(line, ' ');
    assert ps == [w1] + ([w2] + Pieces(rest, ' '));
    assert ps[2] == Pieces(rest, ' ')[0];
    DropKeeps(ps, 2);
    assert line[|w1|] == ' ';
  }

  /** The elements joined by ", " begin with the first element's sign or digit. */
  lemma JoinedStart(part: seq<int>)
    requires |part| >= 1
    ensures var j := Join(IntStrings(part), ", "); j != [] && j[0] != ' '
  {
    IntToStringShape(part[0]);
    JoinStart(IntStrings(part), ", ");
  }

  /** A partition line of a non-empty set holds at least three tokens, so the reader skips it. */
  lemma PartitionLineIgnored(name: string, part: seq<int>)
    requires name == "First" || name == "Second"
    requires |part| >= 1
    ensures Ignored(PartitionLine(name, part))
  {
    var j := Join(IntStrings(part), ", ");
    JoinedStart(part);
    PartitionWords(name);
    ThreeWordsIgnored(name, "partition:", j);
    PartitionLineWords(name, j);
  }

  lemma PartitionWords(name: string)
    requires name == "First" || name == "Second"
    ensures name != "" && name[0] != '#' && ' ' !in name && ' ' !in "partition:"
  {
  }

  lemma PartitionLineWords(name: string, j: string)
    ensures name + " partition: " + j == name + [' '] + ("partition:" + [' '] + j)
  {
    assert " partition: " == [' '] + "partition:" + [' '];
  }

  lemma IntStringsFree(xs: seq<int>)
    ensures forall i :: 0 <= i < |xs| ==> '\n' !in IntStrings(xs)[i]
  {
    forall i | 0 <= i < |xs| ensures '\n' !in IntStrings(xs)[i] {
      IntToStringHasNo(xs[i], '\n');
    }
  }

  lemma PartitionLinesFree(partition: Option<(seq<int>, seq<int>)>)
    ensures forall i :: 0 <= i < |PartitionLines(partition)| ==> '\n' !in PartitionLines(partition)[i]
  {
    if partition.Some? {
      IntStringsFree(partition.value.0);
      JoinFree(IntStrings(partition.value.0), ", ", '\n');
      IntStringsFree(partition.value.1);
      JoinFree(IntStrings(partition.value.1), ", ", '\n');
    }
  }

  lemma EdgeLinesFree(edges: seq<Edge>)
    ensures forall i :: 0 <= i < |edges| ==> '\n' !in EdgeLines(edges)[i]
  {
    forall i | 0 <= i < |edges| ensures '\n' !in EdgeLines(edges)[i] {
      IntToStringHasNo(edges[i].0, '\n');
      IntToStringHasNo(edges[i].1, '\n');
    }
  }

  lemma HeaderLinesFree(generatorName: Option<string>, vertexCount: int, edgeCount: int)
    requires generatorName.Some? ==> '\n' !in generatorName.value
    ensures forall i :: 0 <= i < |HeaderLines(generatorName, vertexCount, edgeCount)|
                        ==> '\n' !in HeaderLines(generatorName, vertexCount, edgeCount)[i]
  {
    IntToStringHasNo(vertexCount, '\n');
    IntToStringHasNo(edgeCount, '\n');
  }

  lemma InfoLinesFree(info: Option<string>)
    ensures forall i :: 0 <= i < |InfoLines(info)| ==> '\n' !in InfoLines(info)[i]
  {
    if info.Some? {
      PiecesFree(info.value, '\n');
    }
  }

  /** Lines with no newline in any of the five blocks have none in their concatenation. */
  lemma FreeConcat(h: seq<string>, i: seq<string>, p: seq<string>, v: seq<string>, e: seq<string>)
    requires forall k :: 0 <= k < |h| ==> '\n' !in h[k]
    requires forall k :: 0 <= k < |i| ==> '\n' !in i[k]
    requires forall k :: 0 <= k < |p| ==> '\n' !in p[k]
    requires forall k :: 0 <= k < |v| ==> '\n' !in v[k]
    requires forall k :: 0 <= k < |e| ==> '\n' !in e[k]
    ensures var all := h + i + p + v + e; forall k :: 0 <= k < |all| ==> '\n' !in all[k]
  {
  }

  lemma NoNewlines(generatorName: Option<string>, vertices: seq<int>, edges: seq<Edge>,
                   partition: Option<(seq<int>, seq<int>)>, info: Option<string>)
    requires generatorName.Some? ==> '\n' !in generatorName.value
    ensures var lines := FileLines(generatorName, vertices, edges, partition, info);
            forall i :: 0 <= i < |lines| ==> '\n' !in lines[i]
  {
    HeaderLinesFree(generatorName, |vertices|, |edges|);
    InfoLinesFree(info);
    PartitionLinesFree(partition);
    IntStringsFree(vertices);
    EdgeLinesFree(edges);
    FreeConcat(HeaderLines(generatorName, |vertices|, |edges|), InfoLines(info), PartitionLines(partition),
               IntStrings(vertices), EdgeLines(edges));
  }

  lemma LinesTextConcat(h: seq<string>, i: seq<string>, p: seq<string>, v: seq<string>, e: seq<string>)
    ensures LinesText(h + i + p + v + e)
            == LinesText(h) + LinesText(i) + LinesText(p) + LinesText(v) + LinesText(e)
  {
    LinesTextAppend(h, i);
    LinesTextAppend(h + i, p);
    LinesTextAppend(h + i + p, v);
    LinesTextAppend(h + i + p + v, e);
  }

  lemma InfoTextLines(info: Option<string>)
    ensures InfoText(info) == LinesText(InfoLines(info))
  {
    if info.Some? {
      LinesTextOfPieces(info.value);
    }
  }

  lemma BipartiteTextLines(partition: Option<(seq<int>, seq<int>)>)
    ensures BipartiteText(partition) == LinesText(PartitionLines(partition))
  {
    if partition.Some? {
      var p := PartitionLines(partition);
      assert p[..1] == [p[0]];
      assert p[..1][..0] == [];
      assert LinesText(p[..1]) == p[0] + "\n";
      assert LinesText(p) == p[0] + "\n" + p[1] + "\n";
    }
  }

  lemma GraphTextLines(generatorName: Option<string>, vertices: seq<int>, edges: seq<Edge>,
                       partition: Option<(seq<int>, seq<int>)>, info: Option<string>)
    ensures GraphText(generatorName, vertices, edges, partition, info)
            == LinesText(FileLines(generatorName, vertices, edges, partition, info))
  {
    InfoTextLines(info);
    BipartiteTextLines(partition);
    LinesTextConcat(HeaderLines(generatorName, |vertices|, |edges|), InfoLines(info), PartitionLines(partition),
                    IntStrings(vertices), EdgeLines(edges));
  }

  /** Lines past the last line holding a token hold none. */
  lemma PastScanEnd(lines: seq<string>, j: nat)
    requires ScanEnd(lines) <= j < |lines|
    ensures !HasToken(lines[j])
  {
    ScanEndIsLastToken(lines, j);
  }

  lemma SkippedLinesIgnored(generatorName: Option<string>, vertexCount: int, edgeCount: int,
                            partition: Option<(seq<int>, seq<int>)>, info: Option<string>)
    requires partition.Some? ==> |partition.value.0| >= 1 && |partition.value.1| >= 1
    requires forall i :: 0 <= i < |InfoLines(info)| ==> Ignored(InfoLines(info)[i])
    ensures var skipped := HeaderLines(generatorName, vertexCount, edgeCount) + InfoLines(info)
                           + PartitionLines(partition);
            forall i :: 0 <= i < |skipped| ==> Ignored(skipped[i])
  {
    if partition.Some? {
      PartitionLineIgnored("First", partition.value.0);
      PartitionLineIgnored("Second", partition.value.1);
    }
  }

  lemma BodyLinesHaveTokens(vertices: seq<int>, edges: seq<Edge>)
    ensures var body := IntStrings(vertices) + EdgeLines(edges);
            forall i :: 0 <= i < |body| ==> HasToken(body[i])
  {
    var body := IntStrings(vertices) + EdgeLines(edges);
    forall i | 0 <= i < |body| ensures HasToken(body[i]) {
      var x := if i < |vertices| then vertices[i] else edges[i - |vertices|].0;
      IntToStringShape(x);
      assert body[i][0] == IntToString(x)[0];
      assert !IsWhitespace(body[i][0]);
    }
  }

  /** The vertex and edge lines after the skipped lines read as the graph. */
  lemma ReadBody(skipped: seq<string>, vertices: seq<int>, edges: seq<Edge>)
    requires forall i :: 0 <= i < |skipped| ==> Ignored(skipped[i])
    requires forall i :: 0 <= i < |vertices| ==> IsInt32(vertices[i])
    requires forall i :: 0 <= i < |edges| ==> IsInt32(edges[i].0) && IsInt32(edges[i].1)
    ensures ParseFrom(({}, []), skipped + IntStrings(vertices) + EdgeLines(edges)) == Ok((Elements(vertices), edges))
  {
    IgnoredLines(({}, []), skipped);
    ReadVertexLines(({}, []), vertices);
    ReadEdgeLines((Elements(vertices), []), edges);
    ParseFromAppend(({}, []), skipped, IntStrings(vertices));
    ParseFromAppend(({}, []), skipped + IntStrings(vertices), EdgeLines(edges));
    assert {} + Elements(vertices) == Elements(vertices);
    assert [] + edges == edges;
  }

  /**
   * Round trip: a graph file written with an info block whose lines the reader skips is
   * read back as the graph's vertex set and its edge list.
   */
  lemma ReadBackWrittenGraph(generatorName: Option<string>, vertices: seq<int>, edges: seq<Edge>,
                             partition: Option<(seq<int>, seq<int>)>, info: Option<string>)
    requires generatorName.Some? ==> '\n' !in generatorName.value
    requires forall i :: 0 <= i < |vertices| ==> IsInt32(vertices[i])
    requires forall i :: 0 <= i < |edges| ==> IsInt32(edges[i].0) && IsInt32(edges[i].1)
    requires partition.Some? ==> |partition.value.0| >= 1 && |partition.value.1| >= 1
    requires forall i :: 0 <= i < |InfoLines(info)| ==> Ignored(InfoLines(info)[i])
    ensures ReadGraphSpec(Lines(GraphText(generatorName, vertices, edges, partition, info)))
            == Ok((Elements(vertices), edges))
  {
    var lines := FileLines(generatorName, vertices, edges, partition, info);
    GraphTextLines(generatorName, vertices, edges, partition, info);
    NoNewlines(generatorName, vertices, edges, partition, info);
    LinesOfLinesText(lines);
    SkippedLinesIgnored(generatorName, |vertices|, |edges|, partition, info);
    ReadBackLines(HeaderLines(generatorName, |vertices|, |edges|) + InfoLines(info) + PartitionLines(partition),
                  vertices, edges);
  }

  /** Skipped lines followed by vertex lines and edge lines read as the vertex set and the edge list. */
  lemma ReadBackLines(skipped: seq<string>, vertices: seq<int>, edges: seq<Edge>)
    requires forall i :: 0 <= i < |skipped| ==> Ignored(skipped[i])
    requires forall i :: 0 <= i < |vertices| ==> IsInt32(vertices[i])
    requires forall i :: 0 <= i < |edges| ==> IsInt32(edges[i].0) && IsInt32(edges[i].1)
    ensures ReadGraphSpec(skipped + IntStrings(vertices) + EdgeLines(edges)) == Ok((Elements(vertices), edges))
  {
    BodyLinesHaveTokens(vertices, edges);
    ReadBody(skipped, vertices, edges);
    assert skipped + IntStrings(vertices) + EdgeLines(edges) == skipped + (IntStrings(vertices) + EdgeLines(edges));
    TrailingLinesIgnored(skipped, IntStrings(vertices) + EdgeLines(edges));
  }

  /**
   * When the skipped lines come first and every later line holds a token, the lines past
   * the scanner's end do not change what is read.
   */
  lemma TrailingLinesIgnored(skipped: seq<string>, body: seq<string>)
    requires forall i :: 0 <= i < |skipped| ==> Ignored(skipped[i])
    requires forall i :: 0 <= i < |body| ==> HasToken(body[i])
    ensures var lines := skipped + body;
            ParseFrom(({}, []), lines[..ScanEnd(lines)]) == ParseFrom(({}, []), lines)
  {
    var lines := skipped + body;
    var e := ScanEnd(lines);
    forall j | e <= j < |lines| ensures Ignored(lines[j]) {
      PastScanEnd(lines, j);
    }
    IgnoredLinesAfter(lines, e);
  }

  lemma IgnoredLinesAfter(lines: seq<string>, e: nat)
    requires e <= |lines|
    requires forall j :: e <= j < |lines| ==> Ignored(lines[j])
    ensures ParseFrom(({}, []), lines[..e]) == ParseFrom(({}, []), lines)
  {
    ParseFromAppend(({}, []), lines[..e], lines[e..]);
    assert lines[..e] + lines[e..] == lines;
    match ParseFrom(({}, []), lines[..e]) {
      case Err(_) =>
      case Ok(acc) => IgnoredLines(acc, lines[e..]);
    }
  }
}
