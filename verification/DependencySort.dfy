/** `SortDependencyList`: depth-first ordering of components by dependency. */
module DependencySort {
  import opened Sequences
  import opened Graph

  /** The `visited` map and the output queue (named `stack` in the original). */
  datatype Dfs<T> = Dfs(visited: set<T>, out: seq<T>)

  /** Visits in turn the entries of `list` that are not visited yet. */
  function VisitAll<T(!new)>(g: map<T, seq<T>>, list: seq<T>, st: Dfs<T>): (r: Dfs<T>)
    requires Closed(g) && st.visited <= g.Keys
    requires forall e :: e in list ==> e in g
    ensures st.visited <= r.visited <= g.Keys
    decreases g.Keys - st.visited, |list|
  {
    if list == [] then st
    else if list[0] in st.visited then VisitAll(g, list[1..], st)
    else
      var e := list[0];
      var inner := VisitAll(g, g[e], st.(visited := st.visited + {e}));
      VisitAll(g, list[1..], inner.(out := inner.out + [e]))
  }

  function Sort<T(!new)>(g: map<T, seq<T>>, list: seq<T>): (out: seq<T>)
    requires Closed(g)
    requires forall e :: e in list ==> e in g
  {
    VisitAll(g, list, Dfs({}, [])).out
  }

  /** Each dependency of an emitted entry comes earlier, or can reach that entry. */
  ghost predicate Ordered<T(!new)>(g: map<T, seq<T>>, out: seq<T>) {
    forall i, d :: 0 <= i < |out| && Edge(g, out[i], d) ==> d in out[..i] || Reach(g, d, out[i])
  }

  ghost predicate Inv<T(!new)>(g: map<T, seq<T>>, st: Dfs<T>) {
    && NoDup(st.out)
    && (forall n :: n in st.out ==> n in st.visited)
    && (forall n, d :: n in st.out && Edge(g, n, d) ==> d in st.visited)
    && Ordered(g, st.out)
  }

  /** Visited but not yet emitted: the entries whose `visit` call is still active. */
  ghost function Active<T>(st: Dfs<T>): set<T> {
    set n | n in st.visited && n !in st.out
  }

  ghost predicate ActiveReach<T(!new)>(g: map<T, seq<T>>, st: Dfs<T>, list: seq<T>) {
    forall a, e :: a in Active(st) && e in list ==> Reach(g, a, e)
  }

  ghost predicate ReachedFrom<T(!new)>(g: map<T, seq<T>>, list: seq<T>, n: T) {
    exists e :: e in list && Reach(g, e, n)
  }

  /** What one run of the visiting loop does, for any graph and any point of the traversal. */
  ghost predicate Visited<T(!new)>(g: map<T, seq<T>>, list: seq<T>, st: Dfs<T>, r: Dfs<T>) {
    && Inv(g, r)
    && st.out <= r.out
    && Active(r) == Active(st)
    && (forall e :: e in list ==> e in r.visited)
    && (forall n :: n in r.visited && n !in st.visited ==> ReachedFrom(g, list, n))
  }

  /** Emitting an entry when its own loop is done keeps the invariant, cycles or not. */
  lemma EmitKeepsInv<T(!new)>(g: map<T, seq<T>>, st: Dfs<T>, inner: Dfs<T>, e: T)
    requires Inv(g, inner) && e in g && e !in st.visited
    requires Active(inner) == Active(st) + {e}
    requires forall d :: d in g[e] ==> d in inner.visited
    requires ActiveReach(g, st, [e])
    ensures Inv(g, inner.(out := inner.out + [e]))
    ensures Active(inner.(out := inner.out + [e])) == Active(st)
  {
    assert e in Active(inner);
    var out := inner.out + [e];
    forall i, d | 0 <= i < |out| && Edge(g, out[i], d)
      ensures d in out[..i] || Reach(g, d, out[i])
    {
      if i < |inner.out| {
        assert out[..i] == inner.out[..i];
        assert Edge(g, inner.out[i], d);
      } else if d in inner.out {
        assert out[..i] == inner.out;
      } else {
        assert d in Active(inner);
        ReachRefl(g, e);
        assert e in [e];
      }
    }
    assert Active(inner.(out := out)) == Active(st);
  }

  lemma {:induction false} VisitAllCorrect<T(!new)>(g: map<T, seq<T>>, list: seq<T>, st: Dfs<T>)
    requires Closed(g) && st.visited <= g.Keys
    requires forall e :: e in list ==> e in g
    requires Inv(g, st) && ActiveReach(g, st, list)
    ensures Visited(g, list, st, VisitAll(g, list, st))
    decreases g.Keys - st.visited, |list|
  {
    if list == [] {
    } else if list[0] in st.visited {
      VisitAllCorrect(g, list[1..], st);
      TailReached(g, list);
    } else {
      var e := list[0];
      var st0 := st.(visited := st.visited + {e});
      assert Active(st0) == Active(st) + {e};
      forall a, d | a in Active(st0) && d in g[e] ensures Reach(g, a, d) {
        ReachRefl(g, e);
        ReachStep(g, a, e, d);
      }
      VisitAllCorrect(g, g[e], st0);
      var inner := VisitAll(g, g[e], st0);
      EmitKeepsInv(g, st, inner, e);
      var st1 := inner.(out := inner.out + [e]);
      VisitAllCorrect(g, list[1..], st1);
      TailReached(g, list);
      forall n | n in inner.visited && n !in st.visited ensures ReachedFrom(g, list, n) {
        ReachRefl(g, e);
        if n != e {
          var d :| d in g[e] && Reach(g, d, n);
          ReachEdge(g, e, d);
          ReachTrans(g, e, d, n);
        }
      }
    }
  }

  lemma TailReached<T(!new)>(g: map<T, seq<T>>, list: seq<T>)
    requires list != []
    ensures forall n :: ReachedFrom(g, list[1..], n) ==> ReachedFrom(g, list, n)
  {
  }

  /** An entry comes before one of its dependencies only if the two lie on a cycle. */
  ghost predicate EarlyOnlyOnCycles<T(!new)>(g: map<T, seq<T>>, out: seq<T>) {
    forall i, j :: 0 <= i < j < |out| && Edge(g, out[i], out[j]) ==> Reach(g, out[j], out[i])
  }

  ghost predicate DependenciesFirst<T(!new)>(g: map<T, seq<T>>, out: seq<T>) {
    forall i, d :: 0 <= i < |out| && Edge(g, out[i], d) ==> d in out[..i]
  }

  /** For every finite graph, cyclic or not: each reachable entry is emitted exactly once
      and nothing else is; an entry comes before one of its dependencies only if that
      dependency can reach it, so without cycles every dependency comes first. */
  lemma SortCorrect<T(!new)>(g: map<T, seq<T>>, list: seq<T>)
    requires Closed(g)
    requires forall e :: e in list ==> e in g
    ensures NoDup(Sort(g, list))
    ensures forall n :: n in Sort(g, list) <==> ReachedFrom(g, list, n)
    ensures EarlyOnlyOnCycles(g, Sort(g, list))
    ensures Acyclic(g) ==> DependenciesFirst(g, Sort(g, list))
  {
    var st: Dfs<T> := Dfs({}, []);
    VisitAllCorrect(g, list, st);
    var r := VisitAll(g, list, st);
    assert Active(r) == {};
    forall n ensures n in r.out <==> ReachedFrom(g, list, n) {
      if n in r.visited { assert n !in Active(r); }
      if ReachedFrom(g, list, n) {
        var e :| e in list && Reach(g, e, n);
        var p :| IsPath(g, p, e, n);
        forall m, d | m in r.visited && Edge(g, m, d) ensures d in r.visited {
          assert m !in Active(r);
        }
        ClosedSetContainsReach(g, r.visited, p, e, n);
      }
    }
    forall i, j | 0 <= i < j < |r.out| && Edge(g, r.out[i], r.out[j])
      ensures Reach(g, r.out[j], r.out[i])
    {
      assert r.out[j] !in r.out[..i];
    }
  }

  /** The traversal as the original runs it, on a shared `visited` map and output queue. */
  class Sorter<T(==, !new)> {
    const g: map<T, seq<T>>
    var visited: set<T>
    var stack: seq<T>

    ghost function State(): Dfs<T>
      reads this
    {
      Dfs(visited, stack)
    }

    constructor (g: map<T, seq<T>>)
      ensures this.g == g && State() == Dfs({}, [])
    {
      this.g := g;
      visited := {};
      stack := [];
    }

    method Visit(entry: T)
      requires Closed(g) && visited <= g.Keys && entry in g && entry !in visited
      modifies this
      ensures visited <= g.Keys
      ensures State() == VisitAll(g, [entry], old(State()))
      decreases g.Keys - visited, 1
    {
      visited := visited + {entry};
      VisitUnvisited(g[entry]);
      stack := stack + [entry];
    }

    /** The loop shared by the body of `visit` and by `SortDependencyList` itself. */
    method VisitUnvisited(list: seq<T>)
      requires Closed(g) && visited <= g.Keys
      requires forall e :: e in list ==> e in g
      modifies this
      ensures old(visited) <= visited <= g.Keys
      ensures State() == VisitAll(g, list, old(State()))
      decreases g.Keys - visited, 2
    {
      ghost var start := State();
      for i := 0 to |list|
        invariant start.visited <= visited <= g.Keys
        invariant VisitAll(g, list[i..], State()) == VisitAll(g, list, start)
      {
        assert list[i..][1..] == list[i + 1..];
        if list[i] !in visited {
          VisitOne(g, list[i..], State());
          Visit(list[i]);
        }
      }
    }

    method Run(list: seq<T>) returns (out: seq<T>)
      requires Closed(g) && State() == Dfs({}, [])
      requires forall e :: e in list ==> e in g
      modifies this
      ensures out == Sort(g, list)
    {
      VisitUnvisited(list);
      out := stack;
    }
  }

  lemma VisitOne<T(!new)>(g: map<T, seq<T>>, list: seq<T>, st: Dfs<T>)
    requires Closed(g) && st.visited <= g.Keys
    requires forall e :: e in list ==> e in g
    requires list != []
    ensures VisitAll(g, list, st) == VisitAll(g, list[1..], VisitAll(g, [list[0]], st))
  {
    if list[0] !in st.visited {
      var e := list[0];
      var inner := VisitAll(g, g[e], st.(visited := st.visited + {e}));
      assert [e][1..] == [];
      assert VisitAll(g, [e], st) == inner.(out := inner.out + [e]);
    }
  }
}
