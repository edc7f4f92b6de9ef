/** The inner `dfs` of find_maximum_matching: Kuhn's augmenting-path search,
    and what one search does to the matching dictionary. */
module Kuhn {
  import opened Vertices
  import opened BipartiteGraph

  /** The `matching` dictionary: every left vertex is a key (None while
      unmatched) and every right vertex matched so far is a key as well. */
  type Matching = map<Vertex, Option<Vertex>>

  /** What a search reports, with the dictionary and visited set it leaves behind. */
  datatype Search = Search(found: bool, matching: Matching, visited: set<Vertex>)

  /** Every edge from index `i` on whose left end is `u` has its right end in `s`. */
  predicate Scanned(edges: seq<Edge>, u: Option<Vertex>, i: nat, s: set<Vertex>) {
    forall k :: i <= k < |edges| && Some(edges[k].u) == u ==> edges[k].v in s
  }

  /** `dfs(u, visited)` resumed at position `i` of its scan of the edge list.
      Each recursive search is preceded by visiting a right vertex that had not
      been visited, so the unvisited right endpoints shrink. A failed search
      leaves the dictionary alone. */
  function Dfs(edges: seq<Edge>, u: Option<Vertex>, m: Matching, visited: set<Vertex>, i: nat): (r: Search)
    requires i <= |edges|
    ensures visited <= r.visited <= visited + RightEnds(edges)
    ensures m.Keys <= r.matching.Keys
    ensures !r.found ==> r.matching == m
    decreases RightEnds(edges) - visited, |edges| - i
  {
    if i == |edges| then Search(false, m, visited)
    else
      var e := edges[i];
      if Some(e.u) == u && e.v !in visited then
        assert e.v in RightEnds(edges);
        var seen := visited + {e.v};
        if e.v !in m then
          Search(true, m[e.u := Some(e.v)][e.v := Some(e.u)], seen)
        else
          var inner := Dfs(edges, m[e.v], m, seen, 0);
          if inner.found then
            Search(true, inner.matching[e.u := Some(e.v)][e.v := Some(e.u)], inner.visited)
          else
            Dfs(edges, u, inner.matching, inner.visited, i + 1)
      else
        Dfs(edges, u, m, visited, i + 1)
  }

  /** A failed search has scanned every edge out of `u` from position `i` on,
      and every edge out of the partner of each vertex it newly visited. */
  lemma {:induction false} FailedSearchScans(edges: seq<Edge>, u: Option<Vertex>, m: Matching, visited: set<Vertex>, i: nat)
    requires i <= |edges| && !Dfs(edges, u, m, visited, i).found
    ensures Scanned(edges, u, i, Dfs(edges, u, m, visited, i).visited)
    ensures forall y :: y in Dfs(edges, u, m, visited, i).visited && y !in visited ==>
      y in m && Scanned(edges, m[y], 0, Dfs(edges, u, m, visited, i).visited)
    decreases RightEnds(edges) - visited, |edges| - i
  {
    if i < |edges| {
      var e := edges[i];
      if Some(e.u) == u && e.v !in visited {
        assert e.v in RightEnds(edges) && e.v in m;
        var seen := visited + {e.v};
        var inner := Dfs(edges, m[e.v], m, seen, 0);
        FailedSearchScans(edges, m[e.v], m, seen, 0);
        FailedSearchScans(edges, u, m, inner.visited, i + 1);
      } else {
        FailedSearchScans(edges, u, m, visited, i + 1);
      }
    }
  }

  /** The graph is well formed and no vertex is on both sides. */
  predicate Bipartite(g: Graph) {
    Wf(g) && g.left !! g.right
  }

  /** What the search proofs need of a bipartite graph: every edge runs from
      the left side to the right side, and no vertex is on both. */
  predicate Sides(g: Graph) {
    Oriented(g) && g.left !! g.right
  }

  /** `m` is a dictionary the algorithm can be in for `g`: left keys map to a
      neighbour that is only on the right side and maps back, right keys map
      to a left vertex that maps back, except that right vertices in `stale`
      may still point at a left vertex that has since been rematched. */
  ghost predicate Consistent(g: Graph, m: Matching, stale: set<Vertex>) {
    && g.left <= m.Keys <= g.left + g.right
    && (forall x :: x in m && x in g.left && m[x].Some? ==>
          && Edge(x, m[x].value) in g.edges && m[x].value !in g.left
          && m[x].value in m && m[m[x].value] == Some(x))
    && (forall y :: y in m && y !in g.left ==>
          && m[y].Some? && m[y].value in g.left
          && (y !in stale ==> m[m[y].value] == Some(y)))
  }

  /** Entries a search with this visited set leaves alone: right vertices
      already visited, and left vertices that are unmatched or matched to one. */
  ghost predicate Settled(g: Graph, m: Matching, z: Vertex, visited: set<Vertex>) {
    z in m && (if z in g.left then m[z].None? || m[z].value in visited else z in visited)
  }

  /** The right vertex `u` held before it is rematched, if any. */
  function OldPartner(m: Matching, u: Vertex): set<Vertex> {
    if u in m && m[u].Some? then {m[u].value} else {}
  }

  /** The two dictionary assignments of `dfs` (main.py:57-58): matching `u`
      with `v` keeps the dictionary consistent once `v`'s previous partner no
      longer points back at it; `u`'s previous partner is the one entry left
      stale. */
  lemma Rematch(g: Graph, m: Matching, u: Vertex, v: Vertex, stale: set<Vertex>)
    requires Oriented(g)
    requires Consistent(g, m, stale) && stale <= {v}
    requires Edge(u, v) in g.edges && v !in g.left
    requires v in m ==> m[v].Some? && m[v].value in m && m[m[v].value] != Some(v)
    ensures u in m
    ensures Consistent(g, m[u := Some(v)][v := Some(u)], OldPartner(m, u))
  {
  }

  /** The outcome of a successful search from `u` with this visited set: `u`
      is matched to a right vertex not visited before, every entry the search
      had no business touching is unchanged, every matched left vertex stays
      matched, and the dictionary is consistent apart from `u`'s old partner. */
  ghost predicate Augmented(g: Graph, m: Matching, m': Matching, u: Vertex, visited: set<Vertex>) {
    && u in m && u in m' && m'[u].Some? && m'[u].value !in visited
    && Consistent(g, m', OldPartner(m, u))
    && FrameKept(g, m, m', u, visited)
    && StaysMatched(g, m, m')
  }

  /** Every settled entry other than `u` is carried over unchanged. */
  ghost predicate FrameKept(g: Graph, m: Matching, m': Matching, u: Vertex, visited: set<Vertex>) {
    forall z :: z != u && Settled(g, m, z, visited) ==> z in m' && m'[z] == m[z]
  }

  /** No matched left vertex loses its match. */
  ghost predicate StaysMatched(g: Graph, m: Matching, m': Matching) {
    forall x :: x in g.left && x in m && m[x].Some? ==> x in m' && m'[x].Some?
  }

  /** A result that avoided a larger visited set avoided the smaller one too. */
  lemma AugmentedAntitone(g: Graph, m: Matching, m': Matching, u: Vertex, visited: set<Vertex>, more: set<Vertex>)
    requires visited <= more
    requires Augmented(g, m, m', u, more)
    ensures Augmented(g, m, m', u, visited)
  {
    forall z | z != u && Settled(g, m, z, visited)
      ensures z in m' && m'[z] == m[z]
    {
      assert Settled(g, m, z, more);
    }
  }

  /** The edge (u, v) reaches a right vertex nobody holds: match it directly. */
  lemma MatchFree(g: Graph, m: Matching, u: Vertex, v: Vertex, visited: set<Vertex>)
    requires Oriented(g) && Consistent(g, m, {})
    requires u in g.left && (m[u].None? || m[u].value in visited)
    requires Edge(u, v) in g.edges && v !in visited && v !in m
    ensures Augmented(g, m, m[u := Some(v)][v := Some(u)], u, visited)
  {
    assert v !in g.left;
    Rematch(g, m, u, v, {});
    var m'' := m[u := Some(v)][v := Some(u)];
    assert FrameKept(g, m, m'', u, visited);
    assert StaysMatched(g, m, m'');
  }

  /** The edge (u, v) reaches a right vertex held by x', and the search from x'
      rematched x' elsewhere: take v over. */
  lemma MatchTaken(g: Graph, m: Matching, m': Matching, u: Vertex, v: Vertex, visited: set<Vertex>)
    requires Oriented(g) && Consistent(g, m, {})
    requires u in g.left && (m[u].None? || m[u].value in visited)
    requires Edge(u, v) in g.edges && v !in g.left && v !in visited && v in m
    requires Augmented(g, m, m', m[v].value, visited + {v})
    ensures Augmented(g, m, m'[u := Some(v)][v := Some(u)], u, visited)
  {
    TakeOverReady(g, m, m', u, v, visited);
    Rematch(g, m', u, v, {v});
    assert OldPartner(m', u) == OldPartner(m, u);
    TakeOverFrame(g, m, m', u, v, visited);
    TakeOverKeepsMatched(g, m, m', u, v, visited);
    var m'' := m'[u := Some(v)][v := Some(u)];
    assert u in m && u in m'' && m''[u].Some? && m''[u].value !in visited;
    assert Consistent(g, m'', OldPartner(m, u));
  }

  /** Before the takeover, `u` and `v` still hold what they held before the
      inner search, and the inner search's vertex no longer points at `v`. */
  lemma TakeOverReady(g: Graph, m: Matching, m': Matching, u: Vertex, v: Vertex, visited: set<Vertex>)
    requires Oriented(g) && Consistent(g, m, {})
    requires u in g.left && (m[u].None? || m[u].value in visited)
    requires Edge(u, v) in g.edges && v !in g.left && v !in visited && v in m
    requires Augmented(g, m, m', m[v].value, visited + {v})
    ensures u in m' && m'[u] == m[u]
    ensures v in m' && m'[v].Some? && m'[v].value in m' && m'[m'[v].value] != Some(v)
    ensures Consistent(g, m', {v})
  {
    var x' := m[v].value;
    assert u != x';
    assert Settled(g, m, u, visited + {v});
    assert Settled(g, m, v, visited + {v});
  }

  /** After the takeover every entry outside the search is as it was. */
  lemma TakeOverFrame(g: Graph, m: Matching, m': Matching, u: Vertex, v: Vertex, visited: set<Vertex>)
    requires Oriented(g) && Consistent(g, m, {})
    requires u in g.left && (m[u].None? || m[u].value in visited)
    requires Edge(u, v) in g.edges && v !in g.left && v !in visited && v in m
    requires Augmented(g, m, m', m[v].value, visited + {v})
    ensures FrameKept(g, m, m'[u := Some(v)][v := Some(u)], u, visited)
  {
    assert FrameKept(g, m, m', m[v].value, visited + {v});
    var m'' := m'[u := Some(v)][v := Some(u)];
    forall z | z != u && Settled(g, m, z, visited)
      ensures z in m'' && m''[z] == m[z]
    {
      assert Settled(g, m, z, visited + {v});
    }
  }

  /** After the takeover no matched left vertex has lost its match. */
  lemma TakeOverKeepsMatched(g: Graph, m: Matching, m': Matching, u: Vertex, v: Vertex, visited: set<Vertex>)
    requires Oriented(g) && Consistent(g, m, {})
    requires Edge(u, v) in g.edges && v !in g.left && v in m
    requires Augmented(g, m, m', m[v].value, visited + {v})
    ensures StaysMatched(g, m, m'[u := Some(v)][v := Some(u)])
  {
    assert StaysMatched(g, m, m');
  }

  /** Every successful search from a left vertex that is unmatched or whose
      partner is already visited ends in an augmented dictionary. */
  lemma {:induction false} DfsConsistent(g: Graph, u: Vertex, m: Matching, visited: set<Vertex>, i: nat)
    requires Oriented(g) && i <= |g.edges|
    requires Consistent(g, m, {})
    requires u in g.left && (m[u].None? || m[u].value in visited)
    ensures var r := Dfs(g.edges, Some(u), m, visited, i);
      r.found ==> Augmented(g, m, r.matching, u, visited)
    decreases RightEnds(g.edges) - visited, |g.edges| - i, 1
  {
    if i < |g.edges| {
      var e := g.edges[i];
      if e.u == u && e.v !in visited {
        assert e.v in RightEnds(g.edges);
        if e.v !in m {
          MatchFree(g, m, u, e.v, visited);
        } else {
          TakenConsistent(g, u, m, visited, i);
        }
      } else {
        DfsConsistent(g, u, m, visited, i + 1);
      }
    }
  }

  /** A search launched from an unmatched left vertex of a consistent
      dictionary leaves it consistent: the symmetry matching[matching[x]] == x
      holds again for every matched x, whether or not the search succeeds. */
  lemma SearchKeepsConsistent(g: Graph, u: Vertex, m: Matching)
    requires Oriented(g) && Consistent(g, m, {})
    requires u in g.left && m[u].None?
    ensures Consistent(g, Dfs(g.edges, Some(u), m, {}, 0).matching, {})
  {
    DfsConsistent(g, u, m, {}, 0);
    assert OldPartner(m, u) == {};
  }

  /** The step of the search above where the edge at `i` reaches a right
      vertex that is already matched. */
  lemma {:induction false} TakenConsistent(g: Graph, u: Vertex, m: Matching, visited: set<Vertex>, i: nat)
    requires Oriented(g) && i < |g.edges|
    requires Consistent(g, m, {})
    requires u in g.left && (m[u].None? || m[u].value in visited)
    requires g.edges[i].u == u && g.edges[i].v !in visited && g.edges[i].v in m
    ensures var r := Dfs(g.edges, Some(u), m, visited, i);
      r.found ==> Augmented(g, m, r.matching, u, visited)
    decreases RightEnds(g.edges) - visited, |g.edges| - i, 0
  {
    var v := g.edges[i].v;
    assert v in RightEnds(g.edges);
    var seen := visited + {v};
    var inner := Dfs(g.edges, m[v], m, seen, 0);
    if v in g.left {
      OffLeftSearchFails(g, m[v], m, seen, 0);
    } else {
      DfsConsistent(g, m[v].value, m, seen, 0);
      if inner.found {
        MatchTaken(g, m, inner.matching, u, v, visited);
      }
    }
    if !inner.found {
      DfsConsistent(g, u, m, inner.visited, i + 1);
      var r := Dfs(g.edges, Some(u), m, inner.visited, i + 1);
      if r.found {
        AugmentedAntitone(g, m, r.matching, u, visited, inner.visited);
      }
    }
  }

  /** A search from no vertex, or from a vertex that is not on the left side,
      finds no edge to start from and fails. This is the fate of the search
      main.py:56 launches from a vertex on both sides: its dictionary entry is
      None or names a vertex only on the right. */
  lemma {:induction false} OffLeftSearchFails(g: Graph, u: Option<Vertex>, m: Matching, visited: set<Vertex>, i: nat)
    requires Oriented(g) && i <= |g.edges|
    requires u.None? || u.value !in g.left
    ensures !Dfs(g.edges, u, m, visited, i).found
    decreases |g.edges| - i
  {
    if i < |g.edges| {
      assert g.edges[i].u in g.left;
      OffLeftSearchFails(g, u, m, visited, i + 1);
    }
  }

  /** `z` is closed under the moves a search makes: every edge out of `z` ends
      in `z`, and every right vertex of `z` is matched to a vertex of `z`. A
      closed set holds no free right vertex, so no search can succeed inside it. */
  ghost predicate Closed(g: Graph, m: Matching, z: set<Vertex>) {
    && (forall e :: e in g.edges && e.u in z ==> e.v in z)
    && (forall y :: y in z && y !in g.left ==> y in m && m[y].Some? && m[y].value in z)
  }

  /** No right vertex outside `z` is held by a member of `z`. */
  ghost predicate Sealed(g: Graph, m: Matching, z: set<Vertex>) {
    forall y :: y in m && y !in g.left && y !in z ==> m[y].Some? && m[y].value !in z
  }

  /** A closed set of a consistent dictionary is sealed: the holder of a right
      vertex is joined to it by an edge, so a holder inside `z` would pull the
      vertex into `z`. */
  lemma ClosedSealed(g: Graph, m: Matching, z: set<Vertex>)
    requires Consistent(g, m, {}) && Closed(g, m, z)
    ensures Sealed(g, m, z)
  {
    forall y | y in m && y !in g.left && y !in z
      ensures m[y].Some? && m[y].value !in z
    {
      assert Edge(m[y].value, y) in g.edges;
    }
  }

  /** Every member of `z` the old dictionary knows is carried over unchanged. */
  ghost predicate Keeps(m: Matching, m': Matching, z: set<Vertex>) {
    forall w :: w in z && w in m ==> w in m' && m'[w] == m[w]
  }

  /** Matching two vertices outside `z` to each other keeps `z`. */
  lemma KeepsUpdate(m: Matching, m': Matching, z: set<Vertex>, u: Vertex, v: Vertex)
    requires Keeps(m, m', z) && u !in z && v !in z
    ensures Keeps(m, m'[u := Some(v)][v := Some(u)], z)
  {
  }

  /** A search started inside a closed set fails. */
  lemma {:induction false} TrappedSearchFails(g: Graph, x: Vertex, m: Matching, visited: set<Vertex>, i: nat, z: set<Vertex>)
    requires Sides(g) && i <= |g.edges|
    requires Closed(g, m, z) && x in z
    ensures !Dfs(g.edges, Some(x), m, visited, i).found
    decreases RightEnds(g.edges) - visited, |g.edges| - i
  {
    if i < |g.edges| {
      var e := g.edges[i];
      if e.u == x && e.v !in visited {
        assert e.v in RightEnds(g.edges);
        assert e.v in z && e.v !in g.left;
        assert e.v in m && m[e.v].Some? && m[e.v].value in z;
        var seen := visited + {e.v};
        TrappedSearchFails(g, m[e.v].value, m, seen, 0, z);
        var inner := Dfs(g.edges, m[e.v], m, seen, 0);
        TrappedSearchFails(g, x, m, inner.visited, i + 1, z);
      } else {
        TrappedSearchFails(g, x, m, visited, i + 1, z);
      }
    }
  }

  /** A successful search started outside a closed set changes no entry of it. */
  lemma {:induction false} SearchAvoidsClosed(g: Graph, u: Vertex, m: Matching, visited: set<Vertex>, i: nat, z: set<Vertex>)
    requires Sides(g) && i <= |g.edges|
    requires Closed(g, m, z) && Sealed(g, m, z)
    requires u !in z
    ensures var r := Dfs(g.edges, Some(u), m, visited, i);
      r.found ==> Keeps(m, r.matching, z)
    decreases RightEnds(g.edges) - visited, |g.edges| - i, 1
  {
    if i < |g.edges| {
      var e := g.edges[i];
      if e.u == u && e.v !in visited {
        assert e.v in RightEnds(g.edges);
        assert e.v in g.right && e.v !in g.left;
        if e.v !in m {
          assert e.v !in z;
          KeepsUpdate(m, m, z, u, e.v);
        } else {
          TakenAvoidsClosed(g, u, m, visited, i, z);
        }
      } else {
        SearchAvoidsClosed(g, u, m, visited, i + 1, z);
      }
    }
  }

  /** The step of the search above where the edge at `i` reaches a right
      vertex that is already matched. */
  lemma {:induction false} TakenAvoidsClosed(g: Graph, u: Vertex, m: Matching, visited: set<Vertex>, i: nat, z: set<Vertex>)
    requires Sides(g) && i < |g.edges|
    requires Closed(g, m, z) && Sealed(g, m, z)
    requires u !in z
    requires g.edges[i].u == u && g.edges[i].v !in visited && g.edges[i].v in m
    ensures var r := Dfs(g.edges, Some(u), m, visited, i);
      r.found ==> Keeps(m, r.matching, z)
    decreases RightEnds(g.edges) - visited, |g.edges| - i, 0
  {
    var v := g.edges[i].v;
    assert v in RightEnds(g.edges);
    assert v in g.right && v !in g.left;
    var seen := visited + {v};
    var inner := Dfs(g.edges, m[v], m, seen, 0);
    if v in z {
      TrappedSearchFails(g, m[v].value, m, seen, 0, z);
      SearchAvoidsClosed(g, u, m, inner.visited, i + 1, z);
    } else {
      assert m[v].value !in z;
      SearchAvoidsClosed(g, m[v].value, m, seen, 0, z);
      if inner.found {
        KeepsUpdate(m, inner.matching, z, u, v);
      } else {
        SearchAvoidsClosed(g, u, m, inner.visited, i + 1, z);
      }
    }
  }

}
