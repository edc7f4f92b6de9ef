# Kuhn's maximum bipartite matching, modelled in Dafny

This project models the `Graph` class of `src/main.py` (lines 10–73 of the
repository). The class holds a bipartite graph as a left vertex set, a right
vertex set and an ordered list of `(u, v)` edge pairs. It has four mutators:
`add_vertex`, `remove_vertex`, `add_edge` and `remove_edge`.
`find_maximum_matching` runs Kuhn's augmenting-path search. It makes one pass
over the left vertices, and a recursive `dfs` threads a shared `visited` set
and a symmetric `matching` dictionary.

Modules, one per file:

- `Vertices` (`vertices.dfy`): the vertex values the program uses (Python
  `str` and `int`), Python truthiness and `Option`.
- `Collections` (`collections.dfy`): duplicate-free sequences, and a
  cardinality bound for injective maps.
- `BipartiteGraph` (`graph.dfy`): the graph state and its mutators as pure
  functions. Each returns the new state, paired with the boolean the method
  returns where it returns one.
- `Kuhn` (`kuhn.dfy`): `dfs`, modelled as a scan of the edge list from a
  position `i`. What one search does to the dictionary is stated as lemmas.
- `MaximumMatching` (`matching.dfy`): the pass and the list of pairs.
  Validity and maximality are proved for every iteration order of the left
  set.
- `Examples` (`examples.dfy`): the three fixed graphs that `run_tests` builds.

Modelling choices:

- The Python dictionary is a `map<Vertex, Option<Vertex>>`. `None` marks an
  unmatched left vertex.
- `dfs(u, visited)` is `Kuhn.Dfs(edges, u, m, visited, 0)`. It returns
  whether it found an augmenting path, together with the dictionary and
  visited set it leaves behind.
- Its argument is an `Option`, because line 56 can call `dfs(None, …)` when
  a vertex is on both sides.
- It terminates by the measure (right endpoints not yet visited, edges not
  yet scanned).
- A Python `set` has no specified order. The pass therefore takes any
  duplicate-free `order` that lists exactly the left set. The same order is
  used at lines 64, 67 and 72, because the set does not change between those
  loops.

Validity is proved for every graph that keeps the structural invariant
(`BipartiteGraph.Wf`: no repeated pair, every pair's ends registered on their
sides), including graphs where a vertex is on both sides. Such a vertex is a
dictionary key from the start, so a search reaching it through line 56 fails
and it is never returned as a right end. Maximality is proved for graphs
whose two sides are disjoint (`Kuhn.Bipartite`); without that it fails, as
`Examples.SharedVertexLosesMaximality` shows. Maximality means no matching of the graph has more pairs
than the result. The proof builds a König-style certificate: a set `z` closed
under edges. It contains every left vertex whose search failed, the right
vertices that search visited, and their partners. The pass keeps `z` closed,
and every pair of any matching is then charged to a distinct matched left
vertex.

The first test graph has only the three right vertices 1, 2 and 3, so no
matching has more than three pairs; `Examples.FirstGraphMatchesThree` proves
the result has exactly three for every iteration order.

## Model

| member | source | states |
|---|---|---|
| BipartiteGraph.Empty | src/main.py:11-14 | a new graph has empty left and right sets and an empty edge list, and satisfies the structural invariant |
| BipartiteGraph.AddVertex | src/main.py:16-20 | the vertex joins the chosen side only (the left one for the default call); the other side and the edge list are unchanged; the invariant is kept |
| BipartiteGraph.AddVertexIdempotent | src/main.py:16-20 | a second identical add_vertex call leaves the graph as the first left it |
| BipartiteGraph.Detach | src/main.py:30 | the filtered edge list holds exactly the old edges that do not touch the vertex, in their old relative order; it is shorter by the vertex's degree and stays duplicate-free |
| BipartiteGraph.RemoveVertex | src/main.py:22-31 | reports true iff the vertex was on either side; afterwards it is on neither; the edges are the old ones not touching it, in order, and their count drops by its degree; the invariant is kept |
| BipartiteGraph.AddEdge | src/main.py:33-39 | succeeds iff both ends are truthy and the pair is not yet listed; on failure nothing changes; on success the pair is appended last and u joins the left side and v the right side; the invariant is kept |
| BipartiteGraph.AddEdgeRejectsDuplicate | src/main.py:34 | repeating an add_edge call returns false and changes nothing |
| BipartiteGraph.RemoveFirst | src/main.py:44 | list.remove takes away exactly one occurrence of the pair as a multiset, and leaves a list without it unchanged |
| BipartiteGraph.RemoveFirstShape | src/main.py:44 | list.remove shortens a list containing the pair by one, keeps the other entries in order, and removes every occurrence from a duplicate-free list |
| BipartiteGraph.FirstIndex | src/main.py:44 | the position list.remove deletes at holds the pair, and no earlier position does |
| BipartiteGraph.RemoveFirstIsFirst | src/main.py:44 | list.remove deletes the first occurrence: the entries before it stay, and those after it close the gap |
| BipartiteGraph.RemoveEdge | src/main.py:41-46 | reports true iff the pair was listed; on failure nothing changes; the vertex sets never change; on success exactly one entry goes, the rest keep their order, every other pair keeps its membership, and with no duplicates the pair is gone; the invariant is kept |
| BipartiteGraph.RemoveEdgeUndoesAddEdge | src/main.py:33-46 | remove_edge after a successful add_edge of the same pair restores the edge list, while the endpoints stay registered |
| BipartiteGraph.RemoveFirstOfAppended | src/main.py:35 | removing a freshly appended pair gives back the list it was appended to |
| Kuhn.Dfs | src/main.py:50-61 | the search terminates; the visited set only grows, and only by right endpoints of edges; dictionary keys are never lost; a failed search leaves the dictionary unchanged |
| Kuhn.FailedSearchScans | src/main.py:52-61 | a failed search has visited the right end of every edge out of its start vertex, and of every edge out of the partner of each vertex it visited |
| Kuhn.Rematch | src/main.py:57-58 | assigning matching[u] = v and matching[v] = u along an edge to a vertex off the left side keeps the dictionary symmetric, except for the right vertex u held before |
| Kuhn.MatchFree | src/main.py:56-58 | taking an edge to an unmatched right vertex yields a correctly augmented dictionary |
| Kuhn.MatchTaken | src/main.py:56-58 | taking an edge to a matched right vertex, after its partner was rematched by the recursive search, yields a correctly augmented dictionary |
| Kuhn.DfsConsistent | src/main.py:50-61 | a successful search from a left vertex matches it to an unvisited right vertex, keeps the dictionary symmetric (matching[matching[x]] == x) apart from the old partner of the start vertex when it was already matched, keeps every matched left vertex matched, and leaves untouched every entry the search could not reach |
| Kuhn.TakenConsistent | src/main.py:54-58 | the same outcome, including the one stale entry for the start vertex's old partner, for the step that goes through a vertex that is already matched, including the continuation of the scan after a failed recursive search |
| Kuhn.SearchKeepsConsistent | src/main.py:56-58 | a search launched from an unmatched left vertex of a symmetric dictionary leaves it symmetric, whether it succeeds or fails |
| Kuhn.OffLeftSearchFails | src/main.py:50-61 | a search from None, or from a vertex that is not on the left side, finds no edge to start from and fails |
| Kuhn.ClosedSealed | src/main.py:56-58 | in a symmetric dictionary, a vertex set closed under edges never holds the partner of a right vertex outside it |
| Kuhn.TrappedSearchFails | src/main.py:50-61 | when no vertex is on both sides, a search started inside a vertex set closed under edges and partners fails |
| Kuhn.SearchAvoidsClosed | src/main.py:50-61 | when no vertex is on both sides, a successful search from outside such a closed set changes no entry of the set |
| Kuhn.TakenAvoidsClosed | src/main.py:54-58 | the same when no vertex is on both sides, for the step that goes through a vertex that is already matched |
| MaximumMatching.InitialMatching | src/main.py:63-65 | the dictionary starts with exactly the left vertices as keys, all unmatched |
| MaximumMatching.Augment | src/main.py:67-70 | the pass over the left vertices never drops a dictionary key |
| MaximumMatching.Turn | src/main.py:68-70 | a vertex already matched when its turn comes launches no search, and the dictionary stays as it is |
| MaximumMatching.Collect | src/main.py:72 | every listed pair is (u, matching[u]) for a left vertex u of the iteration, every matched left vertex is listed, and a duplicate-free iteration gives a duplicate-free list |
| MaximumMatching.FindMaximumMatching | src/main.py:48-73 | the returned list has no repeated pair, and every pair starts at a left vertex |
| MaximumMatching.MatchingSizeBound | src/main.py:48-73 | no matching of the graph is larger than the left side or the right side |
| MaximumMatching.FailedSearchCloses | src/main.py:67-70 | when no vertex is on both sides, after a failed search, the root, the right vertices it visited and their partners extend a closed set to a closed set |
| MaximumMatching.TurnKeepsInvariant | src/main.py:67-70 | when no vertex is on both sides, one turn of the pass keeps the dictionary symmetric, and keeps a closed set holding exactly the processed vertices left unmatched |
| MaximumMatching.FoundKeepsInvariant | src/main.py:68-70 | when no vertex is on both sides, a successful search keeps that invariant with the same closed set |
| MaximumMatching.FailedKeepsInvariant | src/main.py:68-70 | when no vertex is on both sides, a failed search keeps that invariant once the closed set grows by what the search visited |
| MaximumMatching.AugmentKeepsInvariant | src/main.py:67-70 | when no vertex is on both sides, the whole pass keeps the invariant, for every iteration order |
| MaximumMatching.PassResult | src/main.py:63-70 | when no vertex is on both sides, after the pass over all left vertices, the dictionary is symmetric and a closed certificate set exists |
| MaximumMatching.CoverBound | src/main.py:63-72 | when no vertex is on both sides, once the pass ends, no matching of the graph is larger than the set of matched left vertices |
| MaximumMatching.CollectSize | src/main.py:72 | the returned list has exactly one pair per matched left vertex |
| MaximumMatching.AugmentKeepsConsistent | src/main.py:67-70 | the pass keeps the dictionary symmetric for every graph whose edges run from left to right, even with a vertex on both sides |
| MaximumMatching.FindMaximumMatchingIsMatching | src/main.py:48-73 | for every graph keeping the structural invariant, shared vertices included, the returned pairs are edges of the graph, none is listed twice, and no vertex occurs in two of them |
| MaximumMatching.FindMaximumMatchingIsMaximum | src/main.py:48-73 | with disjoint sides and any iteration order, no matching of the graph has more pairs than the returned list |
| Examples.AddEdgesAppends | src/main.py:33-39 | a run of add_edge calls with fresh, truthy pairs appends them all in order and registers their ends |
| Examples.BuiltFromScratch | src/main.py:11-14 | such a run on a new graph builds exactly the graph its pairs describe |
| Examples.SaturatedSize | src/main.py:48-73 | when no vertex is on both sides, if some matching uses every right vertex, the result uses every right vertex too |
| Examples.EmptyGraphHasEmptyMatching | src/main.py:63-73 | the empty graph yields the empty list |
| Examples.SharedVertexLosesMaximality | src/main.py:48-73 | with left side {1, 2}, right side {1} and the one pair (2, 1), every iteration order returns no pair although {(2, 1)} is a matching |
| Examples.DriverRunSaturates | src/main.py:33-73 | add_edge calls with distinct truthy pairs build the graph the pairs describe, and when no vertex is both a left end and a right end, if some matching uses every right end, every iteration order returns that many pairs |
| Examples.FirstGraphMatchesThree | src/main.py:236-244 | the first test's add_edge calls build the graph with left side A–F, right side 1, 2, 3 and the seven listed pairs, and it yields exactly three pairs for every iteration order |
| Examples.SecondGraphMatchesThree | src/main.py:250-257 | the second test's add_edge calls build the graph with left side A–F, right side X, Y, Z and the six listed pairs, and it yields exactly three pairs for every iteration order |
| Examples.ThirdGraphMatchesThree | src/main.py:263-271 | the third test's add_edge calls build the graph with left side 1–6, right side A, B, C and the six listed pairs, and it yields exactly three pairs for every iteration order |

## Left out

- `visualize_graph`: draws the graph with matplotlib and networkx. It is a foreign library and changes no graph state.
- `GraphGUI`: tkinter widgets and the event loop. They only forward text input to the mutators modelled here.
- `run_tests`: printing, plotting and the random graph. The random graph depends on `random` and floating-point thresholds. Its three fixed graphs are modelled in `Examples`.
- The `sys.argv` dispatch and GUI start-up at module level: process plumbing.
- The `curr_edges` copy in `dfs` and its `remove`: a local list dropped right after, with no observable effect. The graph does not change during matching, so `Kuhn.Dfs` scans `edges` itself.
- In-place mutation: the model is functional. That `find_maximum_matching` leaves the graph untouched is immediate, because it returns only the pair list.
- Vertex values other than `str` and `int`, such as `None`, `bool` or tuples. Only these two kinds reach the class from its callers.
- Python's recursion limit: a very deep `dfs` would raise `RecursionError`. The model has unbounded recursion.
- MaximumMatching.FindMaximumMatchingIsMaximum: maximality is stated only for graphs whose sides are disjoint. With a vertex on both sides the result is still a matching, but it can be smaller than the largest one (`Examples.SharedVertexLosesMaximality`).
