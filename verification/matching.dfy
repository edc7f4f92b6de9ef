/** find_maximum_matching: one pass of augmenting-path searches over the left
    vertices, then the list of matched pairs. The left set is a Python set, so
    the pass order is any duplicate-free enumeration of it; every result below
    holds for all of them. */
module MaximumMatching {
  import opened Vertices
  import opened Collections
  import opened BipartiteGraph
  import opened Kuhn

  /** A set of edges of `g` no two of which share an endpoint. */
  ghost predicate IsMatching(g: Graph, pairs: set<Edge>) {
    && (forall e :: e in pairs ==> e in g.edges)
    && (forall e1, e2 :: e1 in pairs && e2 in pairs && e1 != e2 ==>
          e1.u != e2.u && e1.v != e2.v && e1.u != e2.v && e1.v != e2.u)
  }

  /** `order` lists every element of `s` exactly once. */
  predicate Enumerates(order: seq<Vertex>, s: set<Vertex>) {
    Distinct(order) && Elems(order) == s
  }

  /** The dictionary before the pass: every left vertex a key, all unmatched. */
  function InitialMatching(left: set<Vertex>): (m: Matching)
    ensures m.Keys == left
    ensures forall x :: x in m ==> m[x].None?
  {
    map x | x in left :: None
  }

  /** The pass: each vertex of `order` still unmatched when its turn comes
      launches one search with a fresh visited set. */
  function Augment(edges: seq<Edge>, order: seq<Vertex>, m: Matching): (r: Matching)
    requires forall x :: x in order ==> x in m
    ensures m.Keys <= r.Keys
    decreases |order|
  {
    if |order| == 0 then m
    else
      Augment(edges, order[1..], Turn(edges, order[0], m))
  }

  /** One turn of the pass: a search from `u` if it is still unmatched. */
  function Turn(edges: seq<Edge>, u: Vertex, m: Matching): (r: Matching)
    requires u in m
    ensures m.Keys <= r.Keys
    ensures m[u].Some? ==> r == m
  {
    if m[u].None? then Dfs(edges, Some(u), m, {}, 0).matching else m
  }

  /** The pairs (u, matching[u]) for the matched vertices of `order`, in order. */
  function Collect(order: seq<Vertex>, m: Matching): (r: seq<Edge>)
    requires forall x :: x in order ==> x in m
    ensures forall e :: e in r ==> e.u in order && m[e.u] == Some(e.v)
    ensures forall x :: x in order && m[x].Some? ==> Edge(x, m[x].value) in r
    ensures Distinct(order) ==> Distinct(r)
  {
    if |order| == 0 then []
    else
      var rest := Collect(order[1..], m);
      if m[order[0]].Some? then
        DistinctCons(Edge(order[0], m[order[0]].value), rest);
        DistinctCons(order[0], order[1..]);
        assert order == [order[0]] + order[1..];
        [Edge(order[0], m[order[0]].value)] + rest
      else
        rest
  }

  /** find_maximum_matching with the left set iterated in `order`. */
  function FindMaximumMatching(g: Graph, order: seq<Vertex>): (r: seq<Edge>)
    requires Enumerates(order, g.left)
    ensures Distinct(r)
    ensures forall e :: e in r ==> e.u in g.left
  {
    var m := Augment(g.edges, order, InitialMatching(g.left));
    Collect(order, m)
  }

  /** No matching has more pairs than either side has vertices. */
  lemma MatchingSizeBound(g: Graph, pairs: set<Edge>)
    requires Wf(g) && IsMatching(g, pairs)
    ensures |pairs| <= |g.left| && |pairs| <= |g.right|
  {
    InjectionBound(pairs, g.left, (e: Edge) => e.u);
    InjectionBound(pairs, g.right, (e: Edge) => e.v);
  }

  /** The left vertices the dictionary matches. */
  ghost function MatchedLefts(g: Graph, m: Matching): set<Vertex> {
    set x | x in g.left && x in m && m[x].Some?
  }

  /** What holds after the vertices of `done` have had their turn: the
      dictionary is consistent, and `z` is a closed set that holds every
      processed vertex still unmatched and no unprocessed unmatched one. */
  ghost predicate PassInvariant(g: Graph, done: set<Vertex>, m: Matching, z: set<Vertex>) {
    && Consistent(g, m, {})
    && Closed(g, m, z)
    && (forall x :: x in z && x in g.left ==> m[x].Some? || x in done)
    && (forall x :: x in done ==> x in g.left && (m[x].Some? || x in z))
  }

  /** The right vertices a search visited and their partners. */
  ghost function Partners(m: Matching, s: set<Vertex>): set<Vertex> {
    set y | y in s && y in m && m[y].Some? :: m[y].value
  }

  /** After a failed search from `u`, adding `u`, the visited vertices and
      their partners to a closed set keeps it closed. */
  lemma FailedSearchCloses(g: Graph, m: Matching, u: Vertex, z: set<Vertex>)
    requires Sides(g) && Consistent(g, m, {}) && Closed(g, m, z) && u in g.left
    requires !Dfs(g.edges, Some(u), m, {}, 0).found
    ensures Closed(g, m, z + {u} + Dfs(g.edges, Some(u), m, {}, 0).visited
                          + Partners(m, Dfs(g.edges, Some(u), m, {}, 0).visited))
  {
    var s := Dfs(g.edges, Some(u), m, {}, 0);
    FailedSearchScans(g.edges, Some(u), m, {}, 0);
    var z' := z + {u} + s.visited + Partners(m, s.visited);
    assert s.visited <= g.right by {
      forall y | y in s.visited ensures y in g.right {
        assert y in RightEnds(g.edges);
      }
    }
    forall e | e in g.edges && e.u in z'
      ensures e.v in z'
    {
      var k :| 0 <= k < |g.edges| && g.edges[k] == e;
      if e.u !in z && e.u != u {
        assert e.u !in s.visited;
        var y :| y in s.visited && y in m && m[y].Some? && m[y].value == e.u;
        assert Scanned(g.edges, m[y], 0, s.visited);
      }
    }
    forall y | y in z' && y !in g.left
      ensures y in m && m[y].Some? && m[y].value in z'
    {
      if y in s.visited {
        assert m[y].value in Partners(m, s.visited);
      }
    }
  }

  /** One turn keeps the invariant, growing the closed set when the search fails. */
  lemma TurnKeepsInvariant(g: Graph, u: Vertex, m: Matching, done: set<Vertex>, z: set<Vertex>)
    returns (z': set<Vertex>)
    requires Sides(g) && u in g.left && u !in done
    requires PassInvariant(g, done, m, z)
    ensures PassInvariant(g, done + {u}, Turn(g.edges, u, m), z')
  {
    z' := z;
    if m[u].None? {
      var s := Dfs(g.edges, Some(u), m, {}, 0);
      if s.found {
        FoundKeepsInvariant(g, u, m, done, z);
      } else {
        FailedKeepsInvariant(g, u, m, done, z);
        z' := z + {u} + s.visited + Partners(m, s.visited);
      }
    }
  }

  /** A successful search from an unmatched `u` keeps the invariant with the
      same closed set. */
  lemma FoundKeepsInvariant(g: Graph, u: Vertex, m: Matching, done: set<Vertex>, z: set<Vertex>)
    requires Sides(g) && u in g.left && u !in done
    requires PassInvariant(g, done, m, z) && m[u].None?
    requires Dfs(g.edges, Some(u), m, {}, 0).found
    ensures PassInvariant(g, done + {u}, Dfs(g.edges, Some(u), m, {}, 0).matching, z)
  {
    var m' := Dfs(g.edges, Some(u), m, {}, 0).matching;
    DfsConsistent(g, u, m, {}, 0);
    ClosedSealed(g, m, z);
    SearchAvoidsClosed(g, u, m, {}, 0, z);
    assert OldPartner(m, u) == {};
    assert Consistent(g, m', {});
    assert Closed(g, m', z);
    forall x | x in done + {u}
      ensures x in g.left && (m'[x].Some? || x in z)
    {
      if x != u && m[x].Some? {
        assert StaysMatched(g, m, m');
      }
    }
  }

  /** A failed search from an unmatched `u` leaves the dictionary alone and
      lets the closed set grow by what it visited. */
  lemma FailedKeepsInvariant(g: Graph, u: Vertex, m: Matching, done: set<Vertex>, z: set<Vertex>)
    requires Sides(g) && u in g.left && u !in done
    requires PassInvariant(g, done, m, z) && m[u].None?
    requires !Dfs(g.edges, Some(u), m, {}, 0).found
    ensures var s := Dfs(g.edges, Some(u), m, {}, 0);
      PassInvariant(g, done + {u}, s.matching, z + {u} + s.visited + Partners(m, s.visited))
  {
    var s := Dfs(g.edges, Some(u), m, {}, 0);
    FailedSearchCloses(g, m, u, z);
    var z' := z + {u} + s.visited + Partners(m, s.visited);
    forall x | x in z' && x in g.left
      ensures m[x].Some? || x in done + {u}
    {
      if x !in s.visited && x in Partners(m, s.visited) {
        var y :| y in s.visited && y in m && m[y].Some? && m[y].value == x;
        assert y in RightEnds(g.edges);
      }
    }
  }

  /** The pass keeps the invariant, whatever the order of the vertices it visits. */
  lemma {:induction false} AugmentKeepsInvariant(g: Graph, order: seq<Vertex>, m: Matching, done: set<Vertex>, z: set<Vertex>)
    returns (z': set<Vertex>)
    requires Sides(g) && Distinct(order)
    requires forall x :: x in order ==> x in g.left && x !in done
    requires PassInvariant(g, done, m, z)
    ensures PassInvariant(g, done + Elems(order), Augment(g.edges, order, m), z')
    decreases |order|
  {
    if |order| == 0 {
      assert done + Elems(order) == done;
      return z;
    }
    var u := order[0];
    DistinctCons(u, order[1..]);
    assert order == [u] + order[1..];
    assert done + Elems(order) == (done + {u}) + Elems(order[1..]);
    var z1 := TurnKeepsInvariant(g, u, m, done, z);
    z' := AugmentKeepsInvariant(g, order[1..], Turn(g.edges, u, m), done + {u}, z1);
  }

  /** Once every left vertex has had its turn, the closed set is a vertex
      cover certificate: each pair of any matching is charged to a distinct
      matched left vertex. */
  lemma CoverBound(g: Graph, m: Matching, z: set<Vertex>, pairs: set<Edge>)
    requires Sides(g) && PassInvariant(g, g.left, m, z)
    requires IsMatching(g, pairs)
    ensures |pairs| <= |MatchedLefts(g, m)|
  {
    var charge := (e: Edge) => if e.u in z && e.v in m && m[e.v].Some? then m[e.v].value else e.u;
    forall e | e in pairs
      ensures charge(e) in MatchedLefts(g, m)
    {
      if e.u in z {
        assert e.v in z && e.v !in g.left;
      }
    }
    forall e1, e2 | e1 in pairs && e2 in pairs && charge(e1) == charge(e2)
      ensures e1 == e2
    {
      if e1.u in z {
        assert e1.v in z && e1.v !in g.left;
      }
      if e2.u in z {
        assert e2.v in z && e2.v !in g.left;
      }
    }
    InjectionBound(pairs, MatchedLefts(g, m), charge);
  }

  /** The collected list has exactly one pair per matched left vertex. */
  lemma CollectSize(g: Graph, order: seq<Vertex>, m: Matching)
    requires Enumerates(order, g.left) && Consistent(g, m, {})
    ensures |Collect(order, m)| == |MatchedLefts(g, m)|
  {
    var r := Collect(order, m);
    DistinctCardinality(r);
    InjectionBound(Elems(r), MatchedLefts(g, m), (e: Edge) => e.u);
    var pair := (x: Vertex) => if x in m && m[x].Some? then Edge(x, m[x].value) else Edge(x, x);
    InjectionBound(MatchedLefts(g, m), Elems(r), pair);
  }

  /** The final dictionary of a pass over the whole left set. */
  lemma PassResult(g: Graph, order: seq<Vertex>) returns (z: set<Vertex>)
    requires Bipartite(g) && Enumerates(order, g.left)
    ensures PassInvariant(g, g.left, Augment(g.edges, order, InitialMatching(g.left)), z)
  {
    var m0 := InitialMatching(g.left);
    assert PassInvariant(g, {}, m0, {});
    z := AugmentKeepsInvariant(g, order, m0, {}, {});
    assert {} + Elems(order) == g.left;
  }

  /** Each turn of the pass keeps the dictionary consistent; only the graph's
      orientation is needed, not disjoint sides. */
  lemma {:induction false} AugmentKeepsConsistent(g: Graph, order: seq<Vertex>, m: Matching)
    requires Oriented(g) && Consistent(g, m, {})
    requires forall x :: x in order ==> x in g.left
    ensures Consistent(g, Augment(g.edges, order, m), {})
    decreases |order|
  {
    if |order| > 0 {
      var u := order[0];
      if m[u].None? {
        SearchKeepsConsistent(g, u, m);
      }
      AugmentKeepsConsistent(g, order[1..], Turn(g.edges, u, m));
    }
  }

  /** Validity: for every graph that keeps the structural invariant, the
      returned pairs are edges of the graph, listed once each, and no vertex
      occurs in two of them. A vertex on both sides is never returned as a
      right end: it is a dictionary key from the start, so main.py:56 can only
      launch a search from its entry, and that search fails. */
  lemma FindMaximumMatchingIsMatching(g: Graph, order: seq<Vertex>)
    requires Wf(g) && Enumerates(order, g.left)
    ensures IsMatching(g, Elems(FindMaximumMatching(g, order)))
    ensures |Elems(FindMaximumMatching(g, order))| == |FindMaximumMatching(g, order)|
  {
    var m0 := InitialMatching(g.left);
    AugmentKeepsConsistent(g, order, m0);
    var r := FindMaximumMatching(g, order);
    DistinctCardinality(r);
  }

  /** Maximality: with disjoint sides, no matching of the graph has more pairs
      than the returned list, whatever order the left set is iterated in. */
  lemma FindMaximumMatchingIsMaximum(g: Graph, order: seq<Vertex>, pairs: set<Edge>)
    requires Bipartite(g) && Enumerates(order, g.left)
    requires IsMatching(g, pairs)
    ensures |pairs| <= |FindMaximumMatching(g, order)|
  {
    var z := PassResult(g, order);
    var m := Augment(g.edges, order, InitialMatching(g.left));
    CoverBound(g, m, z, pairs);
    CollectSize(g, order, m);
  }
}
