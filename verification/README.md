# graphgen in Dafny

This project models the core of **graphgen**, a Java tool that builds a benchmark of small undirected
graphs for testing language models on graph problems. The tool:

- enumerates every labelled graph on 1 to 6 vertices;
- samples larger graphs from random families, including its own star and path generators;
- writes each graph to a line-oriented CSV file and reads those files back;
- produces node-shifted and edge-shifted copies of each graph ("data augmentation");
- renders a graph as a natural-language prompt in three styles: Adjacency, FullAdjacency and Incident;
- records answers to graph questions (counts, absent edges, connectivity queries, traversal orders,
  cycle check, topological order, girth) in a JSON object.

Modules, one per source class:

| module | file | models |
|---|---|---|
| `Wrappers` | wrappers.dfy | `Option` and `Result` |
| `Text` | text.dfy | `Integer.toString` / `Integer.parseInt` (with 32-bit range), `String.split` (trailing empty strings dropped), joining, line splitting |
| `Graphs` | graphs.dfy | an undirected simple graph as vertex and edge sequences in insertion order; the jgrapht `SimpleGraph` as a class with `AddVertex`/`AddEdge` |
| `Randomness` | graphs.dfy | `Random.nextInt`, `getRandElem` and `Collections.shuffle`, with the random draws as an explicit input sequence |
| `FileUtils` | file_utils.dfy | `writeGraph`, `writeBipartiteVertices`, `readGraph` |
| `GraphGenUtil` | graph_gen.dfy | `generateCombinations`, `generateAllGraphsFromOneToSix`, `getNumOfGraphs` and the parameter draws of the random families |
| `Generators` | generators.dfy | `MyStarGraphGenerator`, `MyPathGraphGenerator` |
| `DataAug` | data_aug.dfy | `nodeShifting`, `edgeShifting`, `nodeShiftingSer`, `augment` |
| `GraphPrompt` | graph_prompt.dfy | `serializeGraph` and its three renderers, `getNeighboursOf` |
| `Properties` | graph_properties.dfy | `GraphProperties`: the JSON record and each `add…` operation it supports |

Randomness is a parameter:

- Every `Random.nextInt(bound)` consumes one natural number `d` from a supplied sequence and yields `d % bound`.
- Loops that redraw until a condition holds consume draws only from that sequence.
- When the supply runs out first, they report `StillRetrying` rather than looping forever.
- The results of jgrapht algorithms the source calls become inputs: connected components, BFS/DFS visit order,
  cycle detection, topological order and girth.

Imperative code is modelled in imperative form:

- file writing is a `Writer` object whose `text` grows;
- the enumeration builds a 2-D array;
- the shuffle is an in-place swap loop on an array;
- the generators mutate a `SimpleGraph`;
- `GraphProperties` is a class whose `record` map is updated by each `add…` method.

Each such method is proved against a specification function. The lemmas then prove what the source promises
about that function.

## Model

| member | source | states |
|---|---|---|
| Text.ParseIntOfIntToString | src/main/java/org/gai/utils/FileUtils.java:129-135 | `Integer.parseInt` of the decimal text written for any 32-bit value returns that value |
| Text.SplitOfJoin | src/main/java/org/gai/utils/FileUtils.java:127 | `split(" ")` of a line made by joining separator-free non-empty words recovers the words |
| Text.LinesOfLinesText | src/main/java/org/gai/utils/FileUtils.java:123-124 | reading lines back from text written as newline-terminated lines, none containing a newline, gives the same lines |
| Text.IntToStringShape | src/main/java/org/gai/utils/FileUtils.java:88-91 | the decimal text of an integer is non-empty and starts with `-` or a digit, so a written vertex line is never a `#` comment |
| Text.IntToStringHasNo | src/main/java/org/gai/utils/FileUtils.java:88-91 | the decimal text of an integer holds no character other than `-` and digits (no space, comma or newline) |
| Graphs.SimpleGraph.constructor | src/main/java/org/gai/utils/GraphGenUtil.java:102 | a new simple graph has no vertices and no edges |
| Graphs.SimpleGraph.AddVertex | src/main/java/org/gai/generate/MyStarGraphGenerator.java:28-33 | adds the vertex exactly when absent (result true iff added), edges untouched, simplicity preserved |
| Graphs.SimpleGraph.AddEdge | src/main/java/org/gai/generate/MyPathGraphGenerator.java:35-36 | adds the edge exactly when no edge joins the two endpoints in either orientation; vertices untouched; no loops or parallel edges ever |
| Graphs.PermutationFacts | src/main/java/org/gai/utils/DataAugUtils.java:66-68 | a permutation of 0..n-1 has length n, distinct entries, all in range, and contains every value in range |
| Randomness.NextInt | src/main/java/org/gai/utils/GraphProperties.java:379-381 | a draw taken modulo the bound lies in `[0, bound)` |
| Randomness.Pick | src/main/java/org/gai/utils/GraphProperties.java:379-381 | `getRandElem` returns an element of the non-empty list |
| Randomness.ShuffledReorders | src/main/java/org/gai/generate/MyPathGraphGenerator.java:34 | a shuffle returns a reordering: same length, same multiset |
| Randomness.ShuffledIdentity | src/main/java/org/gai/utils/DataAugUtils.java:85 | some draw sequence leaves any list unchanged |
| Randomness.ShuffledLast | src/main/java/org/gai/utils/DataAugUtils.java:85 | one draw `j` moves element `j` to the last position |
| Randomness.Shuffle | src/main/java/org/gai/generate/MyPathGraphGenerator.java:34 | the in-place array shuffle leaves exactly `Shuffled(old contents, draws)` |
| FileUtils.WriteBipartiteVertices | src/main/java/org/gai/utils/FileUtils.java:23-40 | writes `First partition: ` and `Second partition: ` lines, each listing its vertices separated by `, ` |
| FileUtils.WriteGraph | src/main/java/org/gai/utils/FileUtils.java:59-95 | as written: with info the file is header, info line, partitions, vertex lines, edge lines; with null info only the header is written and the call fails |
| FileUtils.WriteGraphOmittingNullInfo | src/main/java/org/gai/utils/FileUtils.java:97-112 | corrected overloads: a missing info line is left out, and the file always holds the whole graph |
| FileUtils.ReadGraph | src/main/java/org/gai/utils/FileUtils.java:114-142 | the line loop computes the specification: `#` lines skipped, one word adds a vertex, two words add an edge, others ignored, a bad integer fails |
| FileUtils.ScanEndIsLastToken | src/main/java/org/gai/utils/FileUtils.java:123-124 | `Scanner.hasNext` stops the loop after the last line holding a token |
| FileUtils.ReadVertexLine | src/main/java/org/gai/utils/FileUtils.java:129-130 | reading a written vertex line adds exactly that vertex |
| FileUtils.ReadEdgeLine | src/main/java/org/gai/utils/FileUtils.java:131-135 | reading a written edge line appends exactly that edge |
| FileUtils.ThreeWordsIgnored | src/main/java/org/gai/utils/FileUtils.java:127-136 | a line of three or more words is skipped |
| FileUtils.PartitionLineIgnored | src/main/java/org/gai/utils/FileUtils.java:23-40 | a written partition line of a non-empty part is skipped on reading |
| FileUtils.IgnoredLines | src/main/java/org/gai/utils/FileUtils.java:125-136 | a run of skipped lines leaves the parsed graph unchanged |
| FileUtils.ParseFromAppend | src/main/java/org/gai/utils/FileUtils.java:123-137 | reading is a left fold, so a file may be read in two parts |
| FileUtils.GraphTextLines | src/main/java/org/gai/utils/FileUtils.java:66-91 | the written file is the concatenation of its lines, each terminated by a newline |
| FileUtils.ReadBackWrittenGraph | src/main/java/org/gai/utils/FileUtils.java:59-142 | reading back a written graph (32-bit ids, skipped info lines, non-empty partitions) gives its vertex set and its edge list in order |
| FileUtils.EdgeLineSplits | src/main/java/org/gai/utils/FileUtils.java:90-91 | a written edge line splits into exactly its two endpoint texts |
| FileUtils.JoinAsSeparated | src/main/java/org/gai/utils/FileUtils.java:26-30 | the `--size != 0` rule puts `, ` after every vertex but the last |
| GraphGenUtil.CombinationsSize | src/main/java/org/gai/utils/GraphGenUtil.java:229-231 | there are `n(n-1)/2` vertex pairs |
| GraphGenUtil.CombinationsShape | src/main/java/org/gai/utils/GraphGenUtil.java:233-238 | every pair is `(i, j)` with `0 <= i < j < n`, in strictly increasing lexicographic order |
| GraphGenUtil.CombinationsNoDup | src/main/java/org/gai/utils/GraphGenUtil.java:229-241 | no pair is listed twice |
| GraphGenUtil.CombinationIndex | src/main/java/org/gai/utils/GraphGenUtil.java:233-238 | pair `(i, j)` sits at row-offset `|rows < i| + (j - i - 1)` |
| GraphGenUtil.CombinationsComplete | src/main/java/org/gai/utils/GraphGenUtil.java:229-241 | every pair `i < j < n` is listed |
| GraphGenUtil.GenerateCombinations | src/main/java/org/gai/utils/GraphGenUtil.java:229-241 | the nested loops fill an `n(n-1)/2 x 2` array with exactly the listed pairs in order |
| GraphGenUtil.SelectBitsCount | src/main/java/org/gai/utils/GraphGenUtil.java:215 | the number of edges written for index `i` equals `Integer.bitCount(i)` |
| GraphGenUtil.SelectBitsMember | src/main/java/org/gai/utils/GraphGenUtil.java:218-222 | pair `j` is written exactly when bit `j` of `i` is set |
| GraphGenUtil.DistinctIndicesDistinctEdgeSets | src/main/java/org/gai/utils/GraphGenUtil.java:203-222 | distinct indices below `2^(n(n-1)/2)` give distinct edge sets, so no graph is written twice |
| GraphGenUtil.EverySubsetEnumerated | src/main/java/org/gai/utils/GraphGenUtil.java:203-222 | every set of vertex pairs is the edge set of some enumerated index, so every labelled graph is written |
| GraphGenUtil.WriteEnumeratedGraph | src/main/java/org/gai/utils/GraphGenUtil.java:212-222 | one enumerated file is the graph file of vertices `0..n-1` and the selected pairs, with no generator or info line |
| GraphGenUtil.GenerateAllGraphsFromOneToSix | src/main/java/org/gai/utils/GraphGenUtil.java:197-227 | exactly `2^(n(n-1)/2)` files, file `i` holding the graph with edge set selected by the bits of `i` |
| GraphGenUtil.EnumeratedFileReadsBack | src/main/java/org/gai/utils/GraphGenUtil.java:197-227 | each enumerated file reads back as vertices `{0..n-1}` and its selected pairs, with `bitCount(i)` edges |
| GraphGenUtil.ErmEdgeBoundIsPairCount | src/main/java/org/gai/utils/GraphGenUtil.java:52 | the parity-split product equals `n(n-1)/2` and is refused (`multiplyExact`) exactly when it exceeds `int` |
| GraphGenUtil.ErmEdgeCount | src/main/java/org/gai/utils/GraphGenUtil.java:52 | the ERM edge count lies in `[1, n(n-1)/2]`; it fails for fewer than 2 vertices |
| GraphGenUtil.BafTreeCount | src/main/java/org/gai/utils/GraphGenUtil.java:87 | the forest tree count lies in `[1, n/2]`; it fails for fewer than 2 vertices |
| GraphGenUtil.StarCenter | src/main/java/org/gai/utils/GraphGenUtil.java:142 | the star centre lies in `[0, n)` |
| GraphGenUtil.BagParameters | src/main/java/org/gai/utils/GraphGenUtil.java:74-77 | `2 <= m0 <= n/3` and `1 <= m <= m0`; throws iff `n/3 == 0`; never ends when `n/3 == 1` |
| GraphGenUtil.BipartiteSizes | src/main/java/org/gai/utils/GraphGenUtil.java:128-131 | both partition sizes are at least 1 and sum to `n`; throws iff `n == 0` |
| GraphGenUtil.BipartiteErmParameters | src/main/java/org/gai/utils/GraphGenUtil.java:114-118 | the sizes as above and an edge count in `[1, n1*n2]` |
| GraphGenUtil.BipartiteProductFits | src/main/java/org/gai/utils/GraphGenUtil.java:118 | for the sizes used, `n1*n2` does not wrap in 32 bits |
| GraphGenUtil.NumOfGraphs | src/main/java/org/gai/utils/GraphGenUtil.java:154-195 | unknown family names give 0; EG and Complete give exactly 1; each of the eight random families (ERP, ERM, BAG, BAF, SF, SBM, Bipartite-ERP, Bipartite-ERM) gives exactly 50 000; Star gives `n` (Path: see `GraphGenUtil.PathGraphCount`) |
| GraphGenUtil.PathGraphCount | src/main/java/org/gai/utils/GraphGenUtil.java:177-179 | Path gives `n(n-1)/2` while the product fits in `int` |
| Generators.StarLeaves | src/main/java/org/gai/generate/MyStarGraphGenerator.java:29-34 | the leaves are exactly `0..n-1` minus the centre, distinct, `n-1` of them when the centre is in range |
| Generators.StarEdges | src/main/java/org/gai/generate/MyStarGraphGenerator.java:35-36 | one spoke `(centre, leaf)` per leaf, in order |
| Generators.StarGraphGenerator.Create | src/main/java/org/gai/generate/MyStarGraphGenerator.java:13-24 | succeeds iff `n >= 4` and the centre is non-negative; otherwise the matching argument error |
| Generators.StarGraphGenerator.GenerateGraph | src/main/java/org/gai/generate/MyStarGraphGenerator.java:26-38 | an empty target becomes the star: the centre, then the leaves, and the spokes; the map records the centre |
| Generators.StarDegrees | src/main/java/org/gai/generate/MyStarGraphGenerator.java:26-38 | the centre's degree is the leaf count; every other vertex below `n` has degree 1 |
| Generators.StarSpokes | src/main/java/org/gai/generate/MyStarGraphGenerator.java:26-38 | `n-1` spokes (n if the centre lies outside `0..n-1`), no loops, all at the centre |
| Generators.PathGraphGenerator.Create | src/main/java/org/gai/generate/MyPathGraphGenerator.java:14-25 | succeeds iff `n >= 2` and a random source is given; otherwise the matching argument error |
| Generators.PathGraphGenerator.GenerateGraph | src/main/java/org/gai/generate/MyPathGraphGenerator.java:27-38 | vertices `0..n-1`; edges join consecutive entries of the shuffled list; `n-1` draws consumed |
| Generators.PathShape | src/main/java/org/gai/generate/MyPathGraphGenerator.java:35-36 | a permutation yields `n-1` edges forming a simple Hamiltonian path: end vertices have degree 1, inner vertices degree 2 |
| Generators.GeneratedPathShape | src/main/java/org/gai/generate/MyPathGraphGenerator.java:27-38 | for every draw sequence the generated path is simple with `n-1` edges |
| DataAug.NodeShifting | src/main/java/org/gai/utils/DataAugUtils.java:62-78 | relabels every edge through a shuffled `0..|V|-1`; fails with the index error exactly when an endpoint is not below `|V|` |
| DataAug.NodeShiftRelabelling | src/main/java/org/gai/utils/DataAugUtils.java:66-77 | the map is a permutation of `0..|V|-1` and the edge count is kept |
| DataAug.RelabelKeepsAdjacency | src/main/java/org/gai/utils/DataAugUtils.java:70-75 | `u`–`v` is an edge iff `perm[u]`–`perm[v]` is an edge of the shifted graph |
| DataAug.EdgeShifting | src/main/java/org/gai/utils/DataAugUtils.java:80-87 | same vertices; edges shuffled |
| DataAug.EdgeShiftKeepsEdges | src/main/java/org/gai/utils/DataAugUtils.java:80-87 | the shuffled edges are the same multiset of edges |
| DataAug.DistinctNodeShift | src/main/java/org/gai/utils/DataAugUtils.java:37-38 | the redraw loop stops at the first permutation differing from the first shift, and never before |
| DataAug.DistinctEdgeShift | src/main/java/org/gai/utils/DataAugUtils.java:47-48 | the redraw loop stops at the first shuffle differing from the input list, and never before |
| DataAug.NodeShiftRedrawNeverEnds | src/main/java/org/gai/utils/DataAugUtils.java:37-38 | with fewer than 2 vertices every redraw equals the first, so the loop cannot end |
| DataAug.NodeShiftRedrawCanEnd | src/main/java/org/gai/utils/DataAugUtils.java:37-38 | with 2 or more vertices some draw ends the loop |
| DataAug.EdgeShiftRedrawNeverEnds | src/main/java/org/gai/utils/DataAugUtils.java:47-53 | when all edges are equal (in particular 0 or 1 edge) the edge-shift loop cannot end |
| DataAug.EdgeShiftRedrawCanEnd | src/main/java/org/gai/utils/DataAugUtils.java:47-53 | with two different edges some draw ends the loop |
| DataAug.Augment | src/main/java/org/gai/utils/DataAugUtils.java:20-60 | five augmented copies: two distinct node shifts, an edge shift, and for each node shift an edge shift that differs from it but has the same edges; out-of-range ids throw; fewer than 2 vertices never finish |
| DataAug.NodeShiftingSer | src/main/java/org/gai/utils/DataAugUtils.java:89-96 | builds the table text: header line, then `i->perm[i]` per line |
| DataAug.ShiftTableLines | src/main/java/org/gai/utils/DataAugUtils.java:89-96 | the table splits into the header and one row per vertex |
| DataAug.ShiftedFileUnreadable | src/main/java/org/gai/utils/DataAugUtils.java:40-41 | a written node-shift file cannot be read back: its table header is a one-word line that fails `parseInt` |
| GraphPrompt.NodeListShape | src/main/java/org/gai/utils/GraphPrompt.java:96-101 | the node list is every vertex but the last followed by `, `, then `and ` and the last vertex, then `.` and a newline |
| GraphPrompt.AppendList | src/main/java/org/gai/utils/GraphPrompt.java:96-101 | the append loop produces exactly that list text |
| GraphPrompt.AdjacencyGDL | src/main/java/org/gai/utils/GraphPrompt.java:91-109 | the Adjacency prompt: intro, node list, `The edges in the graph are:` and one `\t(u, v)` line per edge |
| GraphPrompt.AdjacencyEdgeLines | src/main/java/org/gai/utils/GraphPrompt.java:103-107 | the edge block splits back into exactly one line per edge, in edge order |
| GraphPrompt.FullAdjacencyGDL | src/main/java/org/gai/utils/GraphPrompt.java:111-135 | the FullAdjacency prompt: node list with `Node ` prefixes, then one sentence per edge |
| GraphPrompt.EdgeSentencesAsLines | src/main/java/org/gai/utils/GraphPrompt.java:123-133 | edge sentences are lines ending in `;` except the last, which ends in `.` |
| GraphPrompt.Neighbours | src/main/java/org/gai/utils/GraphPrompt.java:169-177 | one neighbour per incident edge, so the count is the degree |
| GraphPrompt.NeighboursOf | src/main/java/org/gai/utils/GraphPrompt.java:169-177 | the loop over incident edges collects the opposite endpoints |
| GraphPrompt.NeighboursAreAdjacent | src/main/java/org/gai/utils/GraphPrompt.java:169-177 | in a simple graph, `x` is listed iff an edge joins `v` and `x` |
| GraphPrompt.IncidentGDL | src/main/java/org/gai/utils/GraphPrompt.java:137-167 | the Incident prompt: the introduction, then one `\tNode v has d connection: Node w.` or `\tNode v has d connections: Node a, Node b, …` line per vertex except the last, listing its neighbours in edge order |
| GraphPrompt.IncidentLineOf | src/main/java/org/gai/utils/GraphPrompt.java:152-164 | one vertex's line: `connection: Node x.` for one neighbour, otherwise the `connections:` list |
| GraphPrompt.SerializeGraph | src/main/java/org/gai/utils/GraphPrompt.java:73-89 | returns a prompt iff the name is one of the three serializations, and the matching renderer's text |
| Properties.VertexSeq | src/main/java/org/gai/utils/GraphProperties.java:339-351 | `(v1,v2,…)` for a non-empty visit order; the empty string for none |
| Properties.VertexSeqReadsBack | src/main/java/org/gai/utils/GraphProperties.java:339-351 | the parenthesised text splits on `,` and parses back to the visit order |
| Properties.PairIsVertexSeq | src/main/java/org/gai/utils/GraphProperties.java:353-359 | a vertex pair is written in the same `(u,v)` format as a two-vertex sequence |
| Properties.AcrossComponents | src/main/java/org/gai/utils/GraphProperties.java:181-188 | vertices of two different components are never in one component |
| Properties.PartitionEmpty | src/main/java/org/gai/utils/GraphProperties.java:130-160 | there are no components exactly when there are no vertices |
| Properties.AllSingletons | src/main/java/org/gai/utils/GraphProperties.java:166-171 | with as many components as vertices, any two distinct vertices are disconnected |
| Properties.SamplePairs | src/main/java/org/gai/utils/GraphProperties.java:160-171 | the loop yields the target number of pairs of distinct listed vertices |
| Properties.SampleWithinComponents | src/main/java/org/gai/utils/GraphProperties.java:174-179 | the target number of pairs, each of distinct vertices in one component |
| Properties.SampleAcrossComponents | src/main/java/org/gai/utils/GraphProperties.java:181-188 | the target number of pairs, each with vertices in different components |
| Properties.SampleConnectivity | src/main/java/org/gai/utils/GraphProperties.java:149-189 | the three cases: connected graph gives `|V|/2` true queries; all singletons give `|V|/2` false queries; otherwise `|V|/2` of each; true queries lie in one component, false ones do not |
| Properties.SampleAbsentEdges | src/main/java/org/gai/utils/GraphProperties.java:100-120 | no edges gives no pairs; otherwise `|E|/2` distinct non-edges of distinct vertices; the loop can end only when `|E|/2 <= |V|(|V|-1) - 2|E|` |
| Properties.AbsentPairsBound | src/main/java/org/gai/utils/GraphProperties.java:106-116 | a simple graph has at most `|V|(|V|-1) - 2|E|` distinct ordered absent pairs, the most the sampling loop can collect |
| Properties.CompleteGraphHasNoAbsentPair | src/main/java/org/gai/utils/GraphProperties.java:106-116 | in a complete graph only the empty list is a list of absent edges, so the loop cannot end |
| Properties.StartCount | src/main/java/org/gai/utils/GraphProperties.java:244-247 | `max(1, |V|/4)` starting vertices |
| Properties.PickStarts | src/main/java/org/gai/utils/GraphProperties.java:249-251 | that many starts, each a vertex of the graph |
| Properties.TopologicalSortClobbersCycleCheck | src/main/java/org/gai/utils/GraphProperties.java:277-285 | as written: on a cyclic graph `cycle_check` is overwritten with `""` and no topological order is recorded |
| Properties.TopologicalSortIntendedKeepsOthers | src/main/java/org/gai/utils/GraphProperties.java:273-285 | corrected: `topological_sort_order` is always recorded, empty iff cyclic or no vertices, and no other key changes |
| Properties.GraphProperties.constructor | src/main/java/org/gai/utils/GraphProperties.java:74-77 | wraps a simple graph and an existing JSON record |
| Properties.GraphProperties.AddNodeCount | src/main/java/org/gai/utils/GraphProperties.java:82-85 | sets `node_count` to `|V|` and nothing else |
| Properties.GraphProperties.AddEdgeCount | src/main/java/org/gai/utils/GraphProperties.java:90-93 | sets `edge_count` to `|E|` and nothing else |
| Properties.GraphProperties.AddEdgeAbsence | src/main/java/org/gai/utils/GraphProperties.java:100-122 | sets `edge_absence` to `|E|/2` absent pairs (empty for an edgeless graph) |
| Properties.GraphProperties.AddConnectivityInfo | src/main/java/org/gai/utils/GraphProperties.java:130-200 | sets the component count and list, then the true and false connectivity queries with the guarantees above |
| Properties.GraphProperties.AddBFSOrder | src/main/java/org/gai/utils/GraphProperties.java:228-230 | records `max(1, |V|/4)` BFS entries; fails iff the graph has no vertices; no other key changes |
| Properties.GraphProperties.AddDFSOrder | src/main/java/org/gai/utils/GraphProperties.java:237-239 | the same for DFS |
| Properties.GraphProperties.AddTraversalOrder | src/main/java/org/gai/utils/GraphProperties.java:241-263 | one `{start, order}` entry per random start, with the order in `(v1,…)` format |
| Properties.GraphProperties.AddCycle | src/main/java/org/gai/utils/GraphProperties.java:268-271 | sets `cycle_check` to the detector's answer |
| Properties.GraphProperties.AddTopologicalSort | src/main/java/org/gai/utils/GraphProperties.java:277-285 | as written, including the write to `cycle_check` on a cyclic graph |
| Properties.GraphProperties.AddTopologicalSortIntended | src/main/java/org/gai/utils/GraphProperties.java:277-285 | corrected: writes `topological_sort_order` in both branches |
| Properties.GraphProperties.AddGirth | src/main/java/org/gai/utils/GraphProperties.java:315-321 | `girth` is `"inf"` for `Integer.MAX_VALUE` and the integer otherwise; no other key changes |

## Left out

- jgrapht algorithms are not part of this model. Their results are parameters:
  - connected components (`ConnectivityInspector`);
  - BFS and DFS visit orders;
  - `CycleDetector`;
  - `TopologicalOrderIterator`;
  - `GraphMetrics.getGirth`.
- The random families jgrapht implements (ERM, ERP, BAG, BAF, SF, Complete, bipartite generators) are left out.
  Only the parameters graphgen draws for them are modelled.
- Floating point is left out:
  - the ERP and bipartite ERP probability draws;
  - `addDiameter` and `addRadius`.
- `addSpanningTree` and `addNumTriangles` rely on jgrapht algorithms and are left out. `addShortestPath` is an empty stub.
- I/O is left out: folders, `listFiles`, `readPrompts`, `writePrompt`, file names, `generate` and the `main` drivers.
  `generateGraphsFromSevenToTwenty` is modelled only through the parameter draws and its `writeGraph` call.
- `System.nanoTime` seeds are left out. Draw sequences stand in for `Random`, and `NextInt` is `draw % bound`,
  not Java's generator.
- Redraw loops stop with `StillRetrying` when the supplied draws run out; the source would keep drawing forever.
  Inputs on which the source never ends:
  - the node-shift redraw with fewer than 2 vertices (`NodeShiftRedrawNeverEnds`, and `NodeShiftRedrawCanEnd` for the converse);
  - the edge-shift redraw when all edges are equal (`EdgeShiftRedrawNeverEnds`, and `EdgeShiftRedrawCanEnd` for the converse);
  - `addEdgeAbsence` when `|E|/2 > |V|(|V|-1) - 2|E|` (`AbsentPairsBound`, `SampleAbsentEdges`), complete graphs with
    two or more edges among them (`CompleteGraphHasNoAbsentPair`);
  - `BagParameters` when `n/3 = 1`.
- Properties.SampleAbsentEdges: the converse is not proved, namely that some draws end the loop whenever
  `|E|/2 <= |V|(|V|-1) - 2|E|`; the model states only the necessary condition.
- Text.Lines: `Scanner.nextLine` also ends a line at "\r\n", "\r", U+0085, U+2028 and U+2029; the model splits at
  "\n" only. The files the program writes end every line with "\n" alone, so this affects only files written elsewhere.
- Text.ParseInt: `Integer.parseInt` accepts any Unicode decimal digit (through `Character.digit`); the model accepts
  ASCII '0'-'9' only. `Integer.toString`, which writes every number in the files, emits ASCII digits only.
- `HashSet` iteration order is not modelled:
  - vertex sets are sequences, and writing follows their order;
  - `edge_absence` keeps insertion order.
- The JSON record is a `map` from keys to a small `Json` datatype. Gson's serialisation to text is left out.
- Components are supplied as a list of vertex lists forming a partition of the graph's vertices.
  The `cc1 == cc2` reference comparison (line 183) is modelled as index equality, which it is for distinct list objects.
- The `PROPERTIES` key set is declared but its size (19 distinct names) is not proved.
- `GraphUtils.java` is not part of this model.
- Generators.StarGraphGenerator.GenerateGraph: stated for an empty target graph, which is how every caller uses it.
- Generators.PathGraphGenerator.GenerateGraph: stated for an empty target graph, for the same reason.
- Generators.StarGraphGenerator.Create: its messages say "greater than 4", but the code accepts 4. The model follows the code.
- Generators.PathGraphGenerator.Create: its messages say "greater than 2", but the code accepts 2. The model follows the code.
- Properties.GraphProperties.AddTraversalOrder: on an empty graph the source's `nextInt(0)` throws. The model returns that
  exception's message as an error and leaves the record unchanged.
- Properties.GraphProperties.AddBFSOrder: states the entry count and the frame, not each entry (`AddTraversalOrder` states those).
- Properties.GraphProperties.AddDFSOrder: the same as `AddBFSOrder`.
- Properties.SamplePairs: does not state that it draws uniformly, because the model has no probabilities.
- FileUtils.ReadBackWrittenGraph: needs every info line to be skipped on reading. `ShiftedFileUnreadable` shows that a
  node-shift table is not.

## Findings

| source | as written | input that shows it | evidently intended | confidence | as-written member | corrected member |
|---|---|---|---|---|---|---|
| src/main/java/org/gai/utils/FileUtils.java:103 | the five- and two-argument `writeGraph` overloads pass `info = null`, and line 72 writes it unconditionally | any graph written by `generateGraphsFromSevenToTwenty` (GraphGenUtil.java:277) or the edge-shift copy in `augment` (DataAugUtils.java:44): only the header is written, then the write of `null` fails | skip the info line when there is none and write the whole graph | not executed | FileUtils.WriteGraph | FileUtils.WriteGraphOmittingNullInfo |
| src/main/java/org/gai/utils/GraphProperties.java:280 | on a cyclic graph `addTopologicalSort` stores `""` under `cycle_check` | a triangle after `addCycle`: `cycle_check` turns from `true` into `""` and `topological_sort_order` is never set | store `""` under `topological_sort_order` and leave `cycle_check` alone | not executed | Properties.TopologicalSortClobbersCycleCheck | Properties.TopologicalSortIntendedKeepsOthers |
