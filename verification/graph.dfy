/** The bipartite graph state of class `Graph` and its four mutators. The class
    mutates one instance in place; here every mutator is a pure function from
    the old state to the new one (and the boolean the method returns). */
module BipartiteGraph {
  import opened Vertices
  import opened Collections

  /** An ordered pair (u, v): u is meant for the left side, v for the right. */
  datatype Edge = Edge(u: Vertex, v: Vertex)

  /** Left vertex set, right vertex set and the edge list in insertion order. */
  datatype Graph = Graph(left: set<Vertex>, right: set<Vertex>, edges: seq<Edge>)

  /** Every edge runs from the left side to the right side; a vertex may be
      on both sides. */
  predicate Oriented(g: Graph) {
    forall e :: e in g.edges ==> e.u in g.left && e.v in g.right
  }

  /** The structural invariant every mutator keeps: no pair is listed twice and
      every edge runs from a left vertex to a right vertex. */
  predicate Wf(g: Graph) {
    Distinct(g.edges) && Oriented(g)
  }

  /** The left endpoints of an edge list. */
  function LeftEnds(edges: seq<Edge>): set<Vertex> {
    set e | e in edges :: e.u
  }

  /** The right endpoints of an edge list. */
  function RightEnds(edges: seq<Edge>): set<Vertex> {
    set e | e in edges :: e.v
  }

  /** The graph a fresh instance starts with. */
  function Empty(): (g: Graph)
    ensures Wf(g)
    ensures g.left == {} && g.right == {} && g.edges == []
  {
    Graph({}, {}, [])
  }

  /** Puts `x` on the chosen side; set semantics make a repeated call a no-op.
      The one-argument call `add_vertex(x)` uses the default side, the left
      one: it is `AddVertex(g, x, true)`. */
  function AddVertex(g: Graph, x: Vertex, isLeft: bool): (r: Graph)
    ensures x in (if isLeft then r.left else r.right)
    ensures isLeft ==> r.left == g.left + {x} && r.right == g.right
    ensures !isLeft ==> r.right == g.right + {x} && r.left == g.left
    ensures r.edges == g.edges
    ensures Wf(g) ==> Wf(r)
  {
    if isLeft then g.(left := g.left + {x}) else g.(right := g.right + {x})
  }

  lemma AddVertexIdempotent(g: Graph, x: Vertex, isLeft: bool)
    ensures AddVertex(AddVertex(g, x, isLeft), x, isLeft) == AddVertex(g, x, isLeft)
  {
  }

  predicate Touches(e: Edge, x: Vertex) {
    e.u == x || e.v == x
  }

  /** The number of list entries that have `x` as an endpoint. */
  function Degree(edges: seq<Edge>, x: Vertex): (d: nat)
    ensures d <= |edges|
    ensures d == 0 <==> forall e :: e in edges ==> !Touches(e, x)
    ensures d == |edges| <==> forall e :: e in edges ==> Touches(e, x)
  {
    if |edges| == 0 then 0
    else (if Touches(edges[0], x) then 1 else 0) + Degree(edges[1..], x)
  }

  /** `a` can be obtained from `b` by deleting entries, keeping the order of the rest. */
  predicate IsSubsequence(a: seq<Edge>, b: seq<Edge>)
    decreases |b|
  {
    if |a| == 0 then true
    else if |b| == 0 then false
    else (a[0] == b[0] && IsSubsequence(a[1..], b[1..])) || IsSubsequence(a, b[1..])
  }

  lemma {:induction false} SubsequenceReflexive(a: seq<Edge>)
    ensures IsSubsequence(a, a)
    decreases |a|
  {
    if |a| > 0 {
      SubsequenceReflexive(a[1..]);
    }
  }

  /** The list comprehension of remove_vertex: keep the edges that do not touch `x`. */
  function Detach(edges: seq<Edge>, x: Vertex): (r: seq<Edge>)
    ensures forall e :: e in r <==> e in edges && !Touches(e, x)
    ensures |r| == |edges| - Degree(edges, x)
    ensures IsSubsequence(r, edges)
    ensures Distinct(edges) ==> Distinct(r)
  {
    if |edges| == 0 then []
    else if Touches(edges[0], x) then Detach(edges[1..], x)
    else [edges[0]] + Detach(edges[1..], x)
  }

  /** Deletes `x` from both sides and every edge touching it; reports whether
      `x` was a vertex at all. */
  function RemoveVertex(g: Graph, x: Vertex): (r: (bool, Graph))
    ensures r.0 <==> x in g.left || x in g.right
    ensures r.1.left == g.left - {x} && r.1.right == g.right - {x}
    ensures forall e :: e in r.1.edges <==> e in g.edges && !Touches(e, x)
    ensures |r.1.edges| == |g.edges| - Degree(g.edges, x)
    ensures IsSubsequence(r.1.edges, g.edges)
    ensures Wf(g) ==> Wf(r.1)
  {
    var deleted := x in g.left || x in g.right;
    var left := if x in g.left then g.left - {x} else g.left;
    var right := if x in g.right then g.right - {x} else g.right;
    assert left == g.left - {x} && right == g.right - {x};
    (deleted, Graph(left, right, Detach(g.edges, x)))
  }

  /** Appends (u, v) unless an endpoint is falsy or the pair is already listed;
      a new edge also registers its endpoints on their sides. */
  function AddEdge(g: Graph, u: Vertex, v: Vertex): (r: (bool, Graph))
    ensures r.0 <==> Truthy(u) && Truthy(v) && Edge(u, v) !in g.edges
    ensures !r.0 ==> r.1 == g
    ensures r.0 ==> r.1.edges == g.edges + [Edge(u, v)]
    ensures r.0 ==> r.1.left == g.left + {u} && r.1.right == g.right + {v}
    ensures Edge(u, v) in r.1.edges <==> Edge(u, v) in g.edges || (Truthy(u) && Truthy(v))
    ensures Wf(g) ==> Wf(r.1)
  {
    if Truthy(u) && Truthy(v) && Edge(u, v) !in g.edges then
      (true, Graph(g.left + {u}, g.right + {v}, g.edges + [Edge(u, v)]))
    else
      (false, g)
  }

  /** Python's list.remove: drop the first entry equal to `e`, if any. */
  function RemoveFirst(s: seq<Edge>, e: Edge): (r: seq<Edge>)
    ensures e !in s ==> r == s
    ensures multiset(r) == multiset(s) - multiset{e}
  {
    if |s| == 0 then []
    else
      assert s == [s[0]] + s[1..];
      if s[0] == e then s[1..] else [s[0]] + RemoveFirst(s[1..], e)
  }

  /** Removing one occurrence keeps the order of the rest and, in a list
      without repeats, removes `e` altogether. */
  lemma {:induction false} RemoveFirstShape(s: seq<Edge>, e: Edge)
    ensures e in s ==> |RemoveFirst(s, e)| == |s| - 1
    ensures forall x :: x != e ==> (x in RemoveFirst(s, e) <==> x in s)
    ensures IsSubsequence(RemoveFirst(s, e), s)
    ensures Distinct(s) ==> Distinct(RemoveFirst(s, e)) && e !in RemoveFirst(s, e)
  {
    if |s| > 0 {
      assert s == [s[0]] + s[1..];
      if s[0] == e {
        SubsequenceReflexive(s[1..]);
        DistinctCons(s[0], s[1..]);
      } else {
        RemoveFirstShape(s[1..], e);
        DistinctCons(s[0], RemoveFirst(s[1..], e));
        DistinctCons(s[0], s[1..]);
      }
    }
  }

  /** The position of the first entry equal to `e`. */
  function FirstIndex(s: seq<Edge>, e: Edge): (k: nat)
    requires e in s
    ensures k < |s| && s[k] == e
    ensures forall j :: 0 <= j < k ==> s[j] != e
  {
    if s[0] == e then 0 else FirstIndex(s[1..], e) + 1
  }

  /** The occurrence removed is the first one: the entries before it are
      kept, and the rest of the list closes up around the gap. */
  lemma {:induction false} RemoveFirstIsFirst(s: seq<Edge>, e: Edge)
    requires e in s
    ensures RemoveFirst(s, e) == s[..FirstIndex(s, e)] + s[FirstIndex(s, e) + 1..]
  {
    if s[0] != e {
      var t := s[1..];
      assert s == [s[0]] + t;
      assert e in t;
      RemoveFirstIsFirst(t, e);
      var k := FirstIndex(t, e);
      assert FirstIndex(s, e) == k + 1;
      assert RemoveFirst(s, e) == [s[0]] + RemoveFirst(t, e);
      GapAfterHead(s[0], t, k);
    }
  }

  /** Closing a gap after a head entry is the same as closing it in the tail. */
  lemma GapAfterHead(x: Edge, t: seq<Edge>, k: nat)
    requires k < |t|
    ensures [x] + (t[..k] + t[k + 1..]) == ([x] + t)[..k + 1] + ([x] + t)[k + 2..]
  {
    var s := [x] + t;
    assert s[..k + 1] == [x] + t[..k];
    assert s[k + 2..] == t[k + 1..];
  }

  /** Deletes the listed pair (u, v); the vertices stay where they are. */
  function RemoveEdge(g: Graph, u: Vertex, v: Vertex): (r: (bool, Graph))
    ensures r.0 <==> Edge(u, v) in g.edges
    ensures !r.0 ==> r.1 == g
    ensures r.1.left == g.left && r.1.right == g.right
    ensures r.0 ==> |r.1.edges| == |g.edges| - 1
    ensures Distinct(g.edges) ==> Edge(u, v) !in r.1.edges
    ensures forall e :: e != Edge(u, v) ==> (e in r.1.edges <==> e in g.edges)
    ensures IsSubsequence(r.1.edges, g.edges)
    ensures Wf(g) ==> Wf(r.1)
  {
    if Edge(u, v) in g.edges then
      RemoveFirstShape(g.edges, Edge(u, v));
      (true, g.(edges := RemoveFirst(g.edges, Edge(u, v))))
    else
      SubsequenceReflexive(g.edges);
      (false, g)
  }

  /** A second add_edge with the same pair is rejected and changes nothing. */
  lemma AddEdgeRejectsDuplicate(g: Graph, u: Vertex, v: Vertex)
    ensures var (ok, g1) := AddEdge(g, u, v);
      AddEdge(g1, u, v) == (false, g1)
  {
  }

  /** remove_edge undoes a successful add_edge on the edge list (the endpoints
      stay registered as vertices). */
  lemma {:induction false} RemoveEdgeUndoesAddEdge(g: Graph, u: Vertex, v: Vertex)
    requires AddEdge(g, u, v).0
    ensures RemoveEdge(AddEdge(g, u, v).1, u, v) == (true, AddEdge(g, u, v).1.(edges := g.edges))
  {
    RemoveFirstOfAppended(g.edges, Edge(u, v));
  }

  lemma {:induction false} RemoveFirstOfAppended(s: seq<Edge>, e: Edge)
    requires e !in s
    ensures RemoveFirst(s + [e], e) == s
  {
    if |s| > 0 {
      assert (s + [e])[1..] == s[1..] + [e];
      RemoveFirstOfAppended(s[1..], e);
    }
  }
}
