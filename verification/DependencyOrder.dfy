/** The order in which `SortDependencyList` lists what no dependency decides: two laws that, without
    cycles, leave no choice. */
module DependencyOrder {
  import opened Sequences
  import opened Graph
  import opened DependencySort

  /** The entries that are not in `taken`, in their order. */
  function Minus<T(==)>(out: seq<T>, taken: set<T>): seq<T> {
    if out == [] then []
    else (if out[0] in taken then [] else [out[0]]) + Minus(out[1..], taken)
  }

  lemma {:induction false} MinusConcat<T>(a: seq<T>, b: seq<T>, taken: set<T>)
    ensures Minus(a + b, taken) == Minus(a, taken) + Minus(b, taken)
  {
    if a == [] {
      assert a + b == b;
    } else {
      assert (a + b)[1..] == a[1..] + b;
      MinusConcat(a[1..], b, taken);
    }
  }

  lemma MinusOne<T>(e: T, taken: set<T>)
    ensures Minus([e], taken) == if e in taken then [] else [e]
  {
    assert [e][1..] == [];
  }

  lemma {:induction false} VisitConcat<T(!new)>(g: map<T, seq<T>>, a: seq<T>, b: seq<T>, st: Dfs<T>)
    requires Closed(g) && st.visited <= g.Keys
    requires (forall e :: e in a ==> e in g) && (forall e :: e in b ==> e in g)
    ensures VisitAll(g, a + b, st) == VisitAll(g, b, VisitAll(g, a, st))
    decreases |a|
  {
    if a == [] {
      assert a + b == b;
    } else {
      assert (a + b)[1..] == a[1..] + b;
      VisitOne(g, a + b, st);
      VisitOne(g, a, st);
      VisitConcat(g, a[1..], b, VisitAll(g, [a[0]], st));
    }
  }

  /** The queue so far only goes in front. */
  lemma {:induction false} VisitAppends<T(!new)>(g: map<T, seq<T>>, list: seq<T>, visited: set<T>, out: seq<T>)
    requires Closed(g) && visited <= g.Keys
    requires forall e :: e in list ==> e in g
    ensures var r := VisitAll(g, list, Dfs(visited, []));
      VisitAll(g, list, Dfs(visited, out)) == Dfs(r.visited, out + r.out)
    decreases g.Keys - visited, |list|
  {
    if list == [] {
      assert out + [] == out;
    } else if list[0] in visited {
      VisitAppends(g, list[1..], visited, out);
    } else {
      var e := list[0];
      VisitAppends(g, g[e], visited + {e}, out);
      var inner := VisitAll(g, g[e], Dfs(visited + {e}, []));
      VisitAppends(g, list[1..], inner.visited, (out + inner.out) + [e]);
      VisitAppends(g, list[1..], inner.visited, inner.out + [e]);
      var tail := VisitAll(g, list[1..], Dfs(inner.visited, [])).out;
      assert ((out + inner.out) + [e]) + tail == out + ((inner.out + [e]) + tail);
    }
  }

  // ----- entries that are taken already -----

  /** Dependencies of what is in the set are in it. */
  ghost predicate Downward<T(!new)>(g: map<T, seq<T>>, taken: set<T>) {
    taken <= g.Keys && forall n, d :: n in taken && Edge(g, n, d) ==> d in taken
  }

  /** From entries of such a set only entries of it are visited. */
  lemma {:induction false} StaysWithin<T(!new)>(g: map<T, seq<T>>, list: seq<T>, st: Dfs<T>, taken: set<T>)
    requires Closed(g) && st.visited <= g.Keys && Downward(g, taken)
    requires forall e :: e in list ==> e in taken
    ensures var r := VisitAll(g, list, st);
      r.visited <= st.visited + taken && Minus(r.out, taken) == Minus(st.out, taken)
    decreases g.Keys - st.visited, |list|
  {
    if list == [] {
    } else if list[0] in st.visited {
      StaysWithin(g, list[1..], st, taken);
    } else {
      var e := list[0];
      forall d | d in g[e] ensures d in taken { assert Edge(g, e, d); }
      StaysWithin(g, g[e], st.(visited := st.visited + {e}), taken);
      var inner := VisitAll(g, g[e], st.(visited := st.visited + {e}));
      StaysWithin(g, list[1..], inner.(out := inner.out + [e]), taken);
      MinusConcat(inner.out, [e], taken);
      MinusOne(e, taken);
    }
  }

  function Without<T(!new)>(st: Dfs<T>, taken: set<T>): Dfs<T> {
    Dfs(st.visited + taken, Minus(st.out, taken))
  }

  /** With those entries visited beforehand, the traversal emits the others as it does otherwise. */
  lemma {:induction false} VisitWithout<T(!new)>(g: map<T, seq<T>>, list: seq<T>, st: Dfs<T>, taken: set<T>)
    requires Closed(g) && st.visited <= g.Keys && Downward(g, taken)
    requires forall e :: e in list ==> e in g
    ensures VisitAll(g, list, Without(st, taken)) == Without(VisitAll(g, list, st), taken)
    decreases g.Keys - st.visited, |list|
  {
    if list == [] {
    } else if list[0] in st.visited {
      VisitWithout(g, list[1..], st, taken);
    } else if list[0] in taken {
      TakenIsSkipped(g, list[0], st, taken);
      VisitOne(g, list, st);
      VisitWithout(g, list[1..], VisitAll(g, [list[0]], st), taken);
    } else {
      var e := list[0];
      var inner := VisitAll(g, g[e], st.(visited := st.visited + {e}));
      VisitWithout(g, g[e], st.(visited := st.visited + {e}), taken);
      VisitWithout(g, list[1..], inner.(out := inner.out + [e]), taken);
      MinusConcat(inner.out, [e], taken);
      MinusOne(e, taken);
      assert Without(st, taken).visited + {e} == Without(st.(visited := st.visited + {e}), taken).visited;
    }
  }

  lemma {:induction false} TakenIsSkipped<T(!new)>(g: map<T, seq<T>>, e: T, st: Dfs<T>, taken: set<T>)
    requires Closed(g) && st.visited <= g.Keys && Downward(g, taken) && e in taken && e !in st.visited
    ensures Without(VisitAll(g, [e], st), taken) == Without(st, taken)
    ensures VisitAll(g, [e], st).visited > st.visited
  {
    StaysWithin(g, [e], st, taken);
    assert [e][1..] == [];
    assert e in VisitAll(g, [e], st).visited;
  }

  lemma {:induction false} SortedIsVisited<T(!new)>(g: map<T, seq<T>>, list: seq<T>)
    requires Closed(g) && forall e :: e in list ==> e in g
    ensures var r := VisitAll(g, list, Dfs({}, []));
      Downward(g, r.visited) && forall n :: n in r.out <==> n in r.visited
  {
    var st: Dfs<T> := Dfs({}, []);
    VisitAllCorrect(g, list, st);
    var r := VisitAll(g, list, st);
    forall n ensures n in r.out <==> n in r.visited { assert n in Active(r) <==> n in Active(st); }
  }

  /** What is listed first does not depend on what follows, and what follows is listed as it would be
      by itself, without what was listed before. */
  lemma {:induction false} SortInTurn<T(!new)>(g: map<T, seq<T>>, a: seq<T>, b: seq<T>)
    requires Closed(g) && (forall e :: e in a ==> e in g) && (forall e :: e in b ==> e in g)
    ensures Sort(g, a + b) == Sort(g, a) + Minus(Sort(g, b), set n | n in Sort(g, a))
  {
    var empty: Dfs<T> := Dfs({}, []);
    var r := VisitAll(g, a, empty);
    VisitConcat(g, a, b, empty);
    SortedIsVisited(g, a);
    VisitAppends(g, b, r.visited, r.out);
    VisitWithout(g, b, empty, r.visited);
    assert Without(empty, r.visited) == Dfs(r.visited, []);
    assert r.visited == set n | n in Sort(g, a);
  }

  // ----- one entry -----

  /** Marking an entry that the list does not reach makes no difference. */
  lemma {:induction false} MarkUnreached<T(!new)>(g: map<T, seq<T>>, list: seq<T>, st: Dfs<T>, e: T)
    requires Closed(g) && st.visited <= g.Keys && e in g && e !in st.visited
    requires (forall d :: d in list ==> d in g) && !ReachedFrom(g, list, e)
    ensures e !in VisitAll(g, list, st).visited
    ensures VisitAll(g, list, st.(visited := st.visited + {e}))
      == VisitAll(g, list, st).(visited := VisitAll(g, list, st).visited + {e})
    decreases g.Keys - st.visited, |list|
  {
    if list != [] {
      var d := list[0];
      if d == e { ReachRefl(g, e); }
      TailReached(g, list);
      if d in st.visited {
        MarkUnreached(g, list[1..], st, e);
      } else {
        NotBelow(g, d, e);
        var st1 := st.(visited := st.visited + {d});
        MarkUnreached(g, g[d], st1, e);
        assert st.visited + {e} + {d} == st1.visited + {e};
        var inner := VisitAll(g, g[d], st1);
        MarkUnreached(g, list[1..], inner.(out := inner.out + [d]), e);
      }
    }
  }

  lemma NotBelow<T(!new)>(g: map<T, seq<T>>, d: T, e: T)
    requires d in g && !Reach(g, d, e)
    ensures !ReachedFrom(g, g[d], e)
  {
    if ReachedFrom(g, g[d], e) {
      var x :| x in g[d] && Reach(g, x, e);
      ReachEdge(g, d, x);
      ReachTrans(g, d, x, e);
    }
  }

  /** An entry that is on no cycle comes right after its dependencies, which are listed in the order
      in which it names them. */
  lemma {:induction false} SortOne<T(!new)>(g: map<T, seq<T>>, e: T)
    requires Closed(g) && e in g && !ReachedFrom(g, g[e], e)
    ensures Sort(g, [e]) == Sort(g, g[e]) + [e]
  {
    var empty: Dfs<T> := Dfs({}, []);
    assert [e][1..] == [];
    forall d | d in g[e] ensures d in g { assert d in g; }
    MarkUnreached(g, g[e], empty, e);
    var inner := VisitAll(g, g[e], empty.(visited := empty.visited + {e}));
    assert VisitAll(g, [e], empty) == inner.(out := inner.out + [e]);
  }

  lemma VisitLeaf<T(!new)>(g: map<T, seq<T>>, e: T, st: Dfs<T>)
    requires Closed(g) && st.visited <= g.Keys && e in g && g[e] == [] && e !in st.visited
    ensures VisitAll(g, [e], st) == Dfs(st.visited + {e}, st.out + [e])
  {
    assert [e][1..] == [];
  }

  /** For example, a component with two dependencies that depend on nothing. */
  lemma TwoDependencies<T(!new)>(a: T, b: T, c: T)
    requires a != b && a != c && b != c
    ensures var g := map[a := [b, c], b := [], c := []]; Sort(g, [a]) == [b, c, a]
  {
    var g := map[a := [b, c], b := [], c := []];
    var empty: Dfs<T> := Dfs({}, []);
    forall x | x in g[a] ensures !Reach(g, x, a) {
      if Reach(g, x, a) {
        var p :| IsPath(g, p, x, a);
        ClosedSetContainsReach(g, {b, c}, p, x, a);
      }
    }
    SortOne(g, a);
    VisitLeaf(g, b, empty);
    VisitLeaf(g, c, Dfs({b}, [b]));
    VisitOne(g, [b, c], empty);
    assert [b, c][1..] == [c] && {} + {b} == {b} && [] + [b] == [b];
  }
}
