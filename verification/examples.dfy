/** The fixed graphs the test driver builds edge by edge, and the matching
    size find_maximum_matching is bound to report for each of them. */
module Examples {
  import opened Vertices
  import opened Collections
  import opened BipartiteGraph
  import opened Kuhn
  import opened MaximumMatching

  /** A run of add_edge calls, in order, ignoring the booleans they return. */
  function AddEdges(g: Graph, es: seq<Edge>): Graph
    decreases |es|
  {
    if |es| == 0 then g else AddEdges(AddEdge(g, es[0].u, es[0].v).1, es[1..])
  }

  /** Adding fresh edges with truthy endpoints appends them all and registers
      their endpoints. */
  lemma {:induction false} AddEdgesAppends(g: Graph, es: seq<Edge>)
    requires Distinct(g.edges + es)
    requires forall e :: e in es ==> Truthy(e.u) && Truthy(e.v)
    ensures AddEdges(g, es) == Graph(g.left + LeftEnds(es), g.right + RightEnds(es), g.edges + es)
    decreases |es|
  {
    if |es| > 0 {
      var e := es[0];
      var g1 := Graph(g.left + {e.u}, g.right + {e.v}, g.edges + [e]);
      assert AddEdge(g, e.u, e.v).1 == g1 && Distinct(g1.edges + es[1..]) by {
        FirstIsFresh(g.edges, es);
      }
      AddEdgesAppends(g1, es[1..]);
      assert g1.left + LeftEnds(es[1..]) == g.left + LeftEnds(es) by {
        EndsOfCons(es);
      }
      assert g1.right + RightEnds(es[1..]) == g.right + RightEnds(es) by {
        EndsOfCons(es);
      }
      assert g1.edges + es[1..] == g.edges + es by {
        assert es == [e] + es[1..];
      }
    }
  }

  /** The head of a repeat-free tail is new to the list it extends. */
  lemma FirstIsFresh(s: seq<Edge>, es: seq<Edge>)
    requires |es| > 0 && Distinct(s + es)
    ensures es[0] !in s
    ensures Distinct((s + [es[0]]) + es[1..])
  {
    assert s + es == (s + [es[0]]) + es[1..];
    forall k | 0 <= k < |s|
      ensures s[k] != es[0]
    {
      assert (s + es)[k] == s[k];
      assert (s + es)[|s|] == es[0];
    }
  }

  /** The ends of a non-empty list are those of its head and of its tail. */
  lemma EndsOfCons(es: seq<Edge>)
    requires |es| > 0
    ensures LeftEnds(es) == {es[0].u} + LeftEnds(es[1..])
    ensures RightEnds(es) == {es[0].v} + RightEnds(es[1..])
  {
    assert es == [es[0]] + es[1..];
  }

  /** Every pair lists its ends among the left and right ends of the list. */
  lemma EndpointsRegistered(es: seq<Edge>)
    ensures forall e :: e in es ==> e.u in LeftEnds(es) && e.v in RightEnds(es)
  {
  }

  /** A driver run on a fresh graph with distinct truthy pairs builds exactly
      the graph those pairs describe. */
  lemma BuiltFromScratch(es: seq<Edge>)
    requires Distinct(es)
    requires forall e :: e in es ==> Truthy(e.u) && Truthy(e.v)
    ensures AddEdges(Empty(), es) == Graph(LeftEnds(es), RightEnds(es), es)
  {
    assert Empty().edges + es == es;
    AddEdgesAppends(Empty(), es);
  }

  /** When some matching uses every right vertex, every pass order finds one
      that does too. */
  lemma SaturatedSize(g: Graph, order: seq<Vertex>, full: set<Edge>)
    requires Bipartite(g) && Enumerates(order, g.left)
    requires IsMatching(g, full) && |full| == |g.right|
    ensures |FindMaximumMatching(g, order)| == |g.right|
  {
    var r := FindMaximumMatching(g, order);
    FindMaximumMatchingIsMatching(g, order);
    MatchingSizeBound(g, Elems(r));
    FindMaximumMatchingIsMaximum(g, order, full);
  }

  /** A graph with a vertex on both sides: 1 is a left vertex (added with
      add_vertex) and the right end of the one edge (2, 1). */
  function SharedGraph(): Graph {
    Graph({Int(1), Int(2)}, {Int(1)}, [Edge(Int(2), Int(1))])
  }

  /** No search in the shared graph finds a path: the edge (2, 1) leads to
      the key 1, whose entry is None, and the search from None fails. */
  lemma SharedSearchFails(u: Vertex)
    ensures !Dfs(SharedGraph().edges, Some(u), InitialMatching(SharedGraph().left), {}, 0).found
  {
    var g := SharedGraph();
    var m := InitialMatching(g.left);
    if u == Int(2) {
      assert !Dfs(g.edges, None, m, {Int(1)}, 0).found;
    }
  }

  /** Hence the pass leaves the initial dictionary as it is, in any order. */
  lemma {:induction false} SharedPassChangesNothing(order: seq<Vertex>)
    requires forall x :: x in order ==> x in SharedGraph().left
    ensures Augment(SharedGraph().edges, order, InitialMatching(SharedGraph().left))
      == InitialMatching(SharedGraph().left)
    decreases |order|
  {
    if |order| > 0 {
      SharedSearchFails(order[0]);
      SharedPassChangesNothing(order[1..]);
    }
  }

  /** With a vertex on both sides, maximality is lost: the shared graph
      satisfies the structural invariant and has the one-pair matching
      {(2, 1)}, yet every iteration order returns the empty list. */
  lemma SharedVertexLosesMaximality(order: seq<Vertex>)
    requires Enumerates(order, SharedGraph().left)
    ensures Wf(SharedGraph()) && IsMatching(SharedGraph(), {Edge(Int(2), Int(1))})
    ensures FindMaximumMatching(SharedGraph(), order) == []
  {
    SharedPassChangesNothing(order);
    NothingMatchedNothingListed(order, InitialMatching(SharedGraph().left));
  }

  /** A dictionary with no match yields the empty list. */
  lemma {:induction false} NothingMatchedNothingListed(order: seq<Vertex>, m: Matching)
    requires forall x :: x in order ==> x in m && m[x].None?
    ensures Collect(order, m) == []
    decreases |order|
  {
    if |order| > 0 {
      NothingMatchedNothingListed(order[1..], m);
    }
  }

  /** The empty graph yields the empty list. */
  lemma EmptyGraphHasEmptyMatching()
    ensures Enumerates([], Empty().left)
    ensures FindMaximumMatching(Empty(), []) == []
  {
  }

  /** A driver run of distinct truthy pairs, with left ends `left` and right
      ends `right` kept apart, builds the graph those pairs describe; if some
      matching among the pairs uses every right end, every iteration order
      finds a matching of that size. */
  lemma DriverRunSaturates(es: seq<Edge>, left: set<Vertex>, right: set<Vertex>, full: set<Edge>, order: seq<Vertex>)
    requires Distinct(es) && forall e :: e in es ==> Truthy(e.u) && Truthy(e.v)
    requires LeftEnds(es) == left && RightEnds(es) == right && left !! right
    requires forall e :: e in full ==> e in es
    requires forall e1, e2 :: e1 in full && e2 in full && e1 != e2 ==>
      e1.u != e2.u && e1.v != e2.v && e1.u != e2.v && e1.v != e2.u
    requires |full| == |right| && Enumerates(order, left)
    ensures AddEdges(Empty(), es) == Graph(left, right, es)
    ensures |FindMaximumMatching(AddEdges(Empty(), es), order)| == |full|
  {
    BuiltFromScratch(es);
    EndpointsRegistered(es);
    var g := Graph(left, right, es);
    assert Wf(g);
    assert IsMatching(g, full);
    SaturatedSize(g, order, full);
    assert AddEdges(Empty(), es) == g;
  }

  /** The first test graph: six letters on the left, only 1, 2 and 3 on the right. */
  function FirstEdges(): seq<Edge> {
    [Edge(Str("A"), Int(1)), Edge(Str("B"), Int(2)), Edge(Str("C"), Int(1)), Edge(Str("C"), Int(3)), Edge(Str("D"), Int(2)), Edge(Str("E"), Int(3)), Edge(Str("F"), Int(2))]
  }

  /** A matching of the first test graph that uses all three right vertices. */
  function FirstFull(): set<Edge> {
    {Edge(Str("A"), Int(1)), Edge(Str("B"), Int(2)), Edge(Str("C"), Int(3))}
  }

  /** The first test's pairs are distinct and have truthy ends. */
  lemma FirstEdgesDistinct()
    ensures Distinct(FirstEdges()) && forall e :: e in FirstEdges() ==> Truthy(e.u) && Truthy(e.v)
  {
    var es := FirstEdges();
    forall i, j | 0 <= i < j < |es| ensures es[i] != es[j] {
    }
  }

  /** The ends of the first test's pairs, and the pairs of its full matching. */
  lemma FirstEdgesEnds()
    ensures LeftEnds(FirstEdges()) == {Str("A"), Str("B"), Str("C"), Str("D"), Str("E"), Str("F")} && RightEnds(FirstEdges()) == {Int(1), Int(2), Int(3)}
    ensures forall e :: e in FirstFull() ==> e in FirstEdges()
  {
    var es := FirstEdges();
    assert es[0] in es && es[1] in es && es[3] in es;
  }

  /** No two pairs of the first test's full matching share a vertex, and it
      has as many pairs as the graph has right vertices. */
  lemma FirstFullFacts()
    ensures forall e1, e2 :: e1 in FirstFull() && e2 in FirstFull() && e1 != e2 ==>
      e1.u != e2.u && e1.v != e2.v && e1.u != e2.v && e1.v != e2.u
    ensures |FirstFull()| == 3 && |{Int(1), Int(2), Int(3)}| == 3 && {Str("A"), Str("B"), Str("C"), Str("D"), Str("E"), Str("F")} !! {Int(1), Int(2), Int(3)}
  {
  }

  /** The first test's add_edge calls build the graph with left side
      {A, B, C, D, E, F}, right side {1, 2, 3} and the listed pairs, and it
      yields exactly three pairs whatever order the left set is iterated in. */
  lemma FirstGraphMatchesThree(order: seq<Vertex>)
    requires Enumerates(order, {Str("A"), Str("B"), Str("C"), Str("D"), Str("E"), Str("F")})
    ensures AddEdges(Empty(), FirstEdges()) == Graph({Str("A"), Str("B"), Str("C"), Str("D"), Str("E"), Str("F")}, {Int(1), Int(2), Int(3)}, FirstEdges())
    ensures |FindMaximumMatching(AddEdges(Empty(), FirstEdges()), order)| == 3
  {
    FirstEdgesDistinct();
    FirstEdgesEnds();
    FirstFullFacts();
    DriverRunSaturates(FirstEdges(), {Str("A"), Str("B"), Str("C"), Str("D"), Str("E"), Str("F")}, {Int(1), Int(2), Int(3)}, FirstFull(), order);
  }

  /** The second test graph: six letters on the left, X, Y and Z on the right. */
  function SecondEdges(): seq<Edge> {
    [Edge(Str("A"), Str("X")), Edge(Str("B"), Str("Y")), Edge(Str("C"), Str("X")), Edge(Str("D"), Str("Y")), Edge(Str("E"), Str("Z")), Edge(Str("F"), Str("Z"))]
  }

  /** A matching of the second test graph that uses all three right vertices. */
  function SecondFull(): set<Edge> {
    {Edge(Str("A"), Str("X")), Edge(Str("B"), Str("Y")), Edge(Str("E"), Str("Z"))}
  }

  /** The second test's pairs are distinct and have truthy ends. */
  lemma SecondEdgesDistinct()
    ensures Distinct(SecondEdges()) && forall e :: e in SecondEdges() ==> Truthy(e.u) && Truthy(e.v)
  {
    var es := SecondEdges();
    forall i, j | 0 <= i < j < |es| ensures es[i] != es[j] {
    }
  }

  /** The ends of the second test's pairs, and the pairs of its full matching. */
  lemma SecondEdgesEnds()
    ensures LeftEnds(SecondEdges()) == {Str("A"), Str("B"), Str("C"), Str("D"), Str("E"), Str("F")} && RightEnds(SecondEdges()) == {Str("X"), Str("Y"), Str("Z")}
    ensures forall e :: e in SecondFull() ==> e in SecondEdges()
  {
    var es := SecondEdges();
    assert es[0] in es && es[1] in es && es[4] in es;
  }

  /** No two pairs of the second test's full matching share a vertex, and it
      has as many pairs as the graph has right vertices. */
  lemma SecondFullFacts()
    ensures forall e1, e2 :: e1 in SecondFull() && e2 in SecondFull() && e1 != e2 ==>
      e1.u != e2.u && e1.v != e2.v && e1.u != e2.v && e1.v != e2.u
    ensures |SecondFull()| == 3 && |{Str("X"), Str("Y"), Str("Z")}| == 3 && {Str("A"), Str("B"), Str("C"), Str("D"), Str("E"), Str("F")} !! {Str("X"), Str("Y"), Str("Z")}
  {
  }

  /** The second test's add_edge calls build the graph with left side
      {A, B, C, D, E, F}, right side {X, Y, Z} and the listed pairs, and it
      yields exactly three pairs whatever order the left set is iterated in. */
  lemma SecondGraphMatchesThree(order: seq<Vertex>)
    requires Enumerates(order, {Str("A"), Str("B"), Str("C"), Str("D"), Str("E"), Str("F")})
    ensures AddEdges(Empty(), SecondEdges()) == Graph({Str("A"), Str("B"), Str("C"), Str("D"), Str("E"), Str("F")}, {Str("X"), Str("Y"), Str("Z")}, SecondEdges())
    ensures |FindMaximumMatching(AddEdges(Empty(), SecondEdges()), order)| == 3
  {
    SecondEdgesDistinct();
    SecondEdgesEnds();
    SecondFullFacts();
    DriverRunSaturates(SecondEdges(), {Str("A"), Str("B"), Str("C"), Str("D"), Str("E"), Str("F")}, {Str("X"), Str("Y"), Str("Z")}, SecondFull(), order);
  }

  /** The third test graph: 1 to 6 on the left, A, B and C on the right. */
  function ThirdEdges(): seq<Edge> {
    [Edge(Int(1), Str("A")), Edge(Int(2), Str("B")), Edge(Int(3), Str("C")), Edge(Int(4), Str("A")), Edge(Int(5), Str("B")), Edge(Int(6), Str("C"))]
  }

  /** A matching of the third test graph that uses all three right vertices. */
  function ThirdFull(): set<Edge> {
    {Edge(Int(1), Str("A")), Edge(Int(2), Str("B")), Edge(Int(3), Str("C"))}
  }

  /** The third test's pairs are distinct and have truthy ends. */
  lemma ThirdEdgesDistinct()
    ensures Distinct(ThirdEdges()) && forall e :: e in ThirdEdges() ==> Truthy(e.u) && Truthy(e.v)
  {
    var es := ThirdEdges();
    forall i, j | 0 <= i < j < |es| ensures es[i] != es[j] {
    }
  }

  /** The ends of the third test's pairs, and the pairs of its full matching. */
  lemma ThirdEdgesEnds()
    ensures LeftEnds(ThirdEdges()) == {Int(1), Int(2), Int(3), Int(4), Int(5), Int(6)} && RightEnds(ThirdEdges()) == {Str("A"), Str("B"), Str("C")}
    ensures forall e :: e in ThirdFull() ==> e in ThirdEdges()
  {
    var es := ThirdEdges();
    assert es[0] in es && es[1] in es && es[2] in es;
  }

  /** No two pairs of the third test's full matching share a vertex, and it
      has as many pairs as the graph has right vertices. */
  lemma ThirdFullFacts()
    ensures forall e1, e2 :: e1 in ThirdFull() && e2 in ThirdFull() && e1 != e2 ==>
      e1.u != e2.u && e1.v != e2.v && e1.u != e2.v && e1.v != e2.u
    ensures |ThirdFull()| == 3 && |{Str("A"), Str("B"), Str("C")}| == 3 && {Int(1), Int(2), Int(3), Int(4), Int(5), Int(6)} !! {Str("A"), Str("B"), Str("C")}
  {
  }

  /** The third test's add_edge calls build the graph with left side
      {1, 2, 3, 4, 5, 6}, right side {A, B, C} and the listed pairs, and it
      yields exactly three pairs whatever order the left set is iterated in. */
  lemma ThirdGraphMatchesThree(order: seq<Vertex>)
    requires Enumerates(order, {Int(1), Int(2), Int(3), Int(4), Int(5), Int(6)})
    ensures AddEdges(Empty(), ThirdEdges()) == Graph({Int(1), Int(2), Int(3), Int(4), Int(5), Int(6)}, {Str("A"), Str("B"), Str("C")}, ThirdEdges())
    ensures |FindMaximumMatching(AddEdges(Empty(), ThirdEdges()), order)| == 3
  {
    ThirdEdgesDistinct();
    ThirdEdgesEnds();
    ThirdFullFacts();
    DriverRunSaturates(ThirdEdges(), {Int(1), Int(2), Int(3), Int(4), Int(5), Int(6)}, {Str("A"), Str("B"), Str("C")}, ThirdFull(), order);
  }
}
