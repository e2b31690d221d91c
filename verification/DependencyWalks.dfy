/** The two other hand-written walks over the dependency graph: `loadDeps` (game mode), which
    marks an entry after its dependencies, and `initDeps` (tool mode), which walks shared
    dependencies again and stops at the first failing initialization. Neither marks an entry
    before its dependencies are done, so neither need return on a cycle: both are modelled with a
    bound on the depth of calls, and no result means that the bound was exceeded. */
module DependencyWalks {
  import opened Options
  import opened Graph
  import opened DependencySort

  /** `loadDeps` on each entry of `list`; `done` is `depsLoaded` in insertion order. */
  function LoadWithin<T(==, !new)>(g: map<T, seq<T>>, depth: nat, list: seq<T>, done: seq<T>): (r: Option<seq<T>>)
    requires Closed(g) && forall e :: e in list ==> e in g
    decreases depth, |list|
  {
    if list == [] then Some(done)
    else if list[0] in done then LoadWithin(g, depth, list[1..], done)
    else if depth == 0 then None
    else
      match LoadWithin(g, depth - 1, g[list[0]], done)
      case None => None
      case Some(inner) => LoadWithin(g, depth, list[1..], inner + [list[0]])
  }

  datatype InitResult<T> = InitResult(done: seq<T>, ok: bool)

  /** `initDeps` on each entry of `list`; `starts` says which `Initialize` calls succeed. */
  function InitWithin<T(==, !new)>(g: map<T, seq<T>>, starts: T -> bool, depth: nat, list: seq<T>, done: seq<T>)
    : (r: Option<InitResult<T>>)
    requires Closed(g) && forall e :: e in list ==> e in g
    decreases depth, |list|
  {
    if list == [] then Some(InitResult(done, true))
    else if depth == 0 then None
    else
      var e := list[0];
      match InitWithin(g, starts, depth - 1, g[e], done)
      case None => None
      case Some(deps) =>
        if !deps.ok then Some(deps)
        else if e in deps.done then InitWithin(g, starts, depth, list[1..], deps.done)
        else if !starts(e) then Some(InitResult(deps.done, false))
        else InitWithin(g, starts, depth, list[1..], deps.done + [e])
  }

  // ----- cycles -----

  ghost predicate OnCycle<T(!new)>(g: map<T, seq<T>>, n: T) {
    n in g && ReachedFrom(g, g[n], n)
  }

  /** No cycle can be reached from `list`. */
  ghost predicate CycleFree<T(!new)>(g: map<T, seq<T>>, list: seq<T>) {
    forall n :: ReachedFrom(g, list, n) ==> !OnCycle(g, n)
  }

  lemma AcyclicIsCycleFree<T(!new)>(g: map<T, seq<T>>, list: seq<T>)
    requires Acyclic(g)
    ensures CycleFree(g, list)
  {
    forall n | n in g ensures !OnCycle(g, n) {
      forall d | d in g[n] ensures !Reach(g, d, n) { assert Edge(g, n, d); }
    }
  }

  /** What `e` reaches is `e` itself and what its dependencies reach. */
  lemma ReachSplit<T(!new)>(g: map<T, seq<T>>, e: T, n: T)
    requires e in g
    ensures Reach(g, e, n) <==> n == e || ReachedFrom(g, g[e], n)
  {
    if Reach(g, e, n) && n != e {
      var p :| IsPath(g, p, e, n);
      assert Edge(g, p[0], p[1]);
      assert IsPath(g, p[1..], p[1], n) by {
        forall i | 0 <= i < |p[1..]| - 1 ensures Edge(g, p[1..][i], p[1..][i + 1]) { assert Edge(g, p[i + 1], p[i + 2]); }
      }
      assert Reach(g, p[1], n);
    }
    if n == e { ReachRefl(g, e); }
    if ReachedFrom(g, g[e], n) {
      var d :| d in g[e] && Reach(g, d, n);
      ReachEdge(g, e, d);
      ReachTrans(g, e, d, n);
    }
  }

  lemma CycleFreeParts<T(!new)>(g: map<T, seq<T>>, list: seq<T>)
    requires list != [] && list[0] in g && CycleFree(g, list)
    ensures CycleFree(g, list[1..]) && CycleFree(g, g[list[0]]) && !OnCycle(g, list[0])
  {
    TailReached(g, list);
    ReachRefl(g, list[0]);
    assert ReachedFrom(g, list, list[0]);
    forall n | ReachedFrom(g, g[list[0]], n) ensures ReachedFrom(g, list, n) { ReachSplit(g, list[0], n); }
  }

  /** If no cycle is reached from the dependencies of `e`, none is reached from `e`. */
  lemma CycleFreeAbove<T(!new)>(g: map<T, seq<T>>, e: T)
    requires e in g && CycleFree(g, g[e])
    ensures CycleFree(g, [e])
  {
    forall n | ReachedFrom(g, [e], n) ensures !OnCycle(g, n) { ReachSplit(g, e, n); }
  }

  /** All nodes some entry of `list` reaches. */
  ghost function Below<T(!new)>(g: map<T, seq<T>>, list: seq<T>): set<T> {
    set n | n in g && ReachedFrom(g, list, n)
  }

  lemma SmallerSet<T>(a: set<T>, b: set<T>)
    ensures a <= b ==> |a| <= |b|
    ensures a < b ==> |a| < |b|
  {
    if a <= b { assert b == a + (b - a); }
  }

  lemma BelowShrinks<T(!new)>(g: map<T, seq<T>>, list: seq<T>)
    requires list != [] && list[0] in g && !OnCycle(g, list[0])
    ensures |Below(g, list[1..])| <= |Below(g, list)|
    ensures |Below(g, g[list[0]])| < |Below(g, list)|
  {
    var e := list[0];
    TailReached(g, list);
    forall n | n in Below(g, g[e]) ensures n in Below(g, list) {
      ReachSplit(g, e, n);
      assert e in list;
    }
    ReachRefl(g, e);
    assert e in list && e in Below(g, list) && e !in Below(g, g[e]);
    SmallerSet(Below(g, list[1..]), Below(g, list));
    SmallerSet(Below(g, g[e]), Below(g, list));
  }

  lemma BelowAtMostAll<T(!new)>(g: map<T, seq<T>>, list: seq<T>)
    ensures |Below(g, list)| <= |g|
  {
    assert Below(g, list) <= g.Keys;
    SmallerSet(Below(g, list), g.Keys);
    assert |g.Keys| == |g|;
  }

  // ----- when `loadDeps` returns -----

  /** The graph without the dependencies of entries that are loaded already. */
  ghost function Cut<T(!new)>(g: map<T, seq<T>>, done: seq<T>): (h: map<T, seq<T>>)
    ensures h.Keys == g.Keys
  {
    map n | n in g :: if n in done then [] else g[n]
  }

  lemma CutNothing<T(!new)>(g: map<T, seq<T>>)
    ensures Cut(g, []) == g
  {
  }

  /** Where dependencies come first, a path leads to earlier places. */
  lemma {:induction false} PathLeadsBack<T(!new)>(g: map<T, seq<T>>, out: seq<T>, i: nat, p: seq<T>, m: T)
    requires DependenciesFirst(g, out) && i < |out| && IsPath(g, p, out[i], m) && |p| > 1
    ensures m in out[..i]
    decreases |p|
  {
    assert Edge(g, p[0], p[1]);
    var k :| 0 <= k < i && out[k] == p[1];
    if |p| > 2 {
      assert IsPath(g, p[1..], p[1], m) by {
        forall j | 0 <= j < |p[1..]| - 1 ensures Edge(g, p[1..][j], p[1..][j + 1]) { assert Edge(g, p[j + 1], p[j + 2]); }
      }
      PathLeadsBack(g, out, k, p[1..], m);
    }
  }

  lemma {:induction false} OrderedNoCycle<T(!new)>(g: map<T, seq<T>>, out: seq<T>, i: nat)
    requires DependenciesFirst(g, out) && i < |out|
    ensures !OnCycle(g, out[i])
    decreases i
  {
    if OnCycle(g, out[i]) {
      var d :| d in g[out[i]] && Reach(g, d, out[i]);
      var q :| IsPath(g, q, d, out[i]);
      var p := [out[i]] + q;
      assert IsPath(g, p, out[i], out[i]) by {
        forall j | 0 <= j < |p| - 1 ensures Edge(g, p[j], p[j + 1]) {
          if j > 0 { assert Edge(g, q[j - 1], q[j]); }
        }
      }
      PathLeadsBack(g, out, i, p, out[i]);
      var k :| 0 <= k < i && out[k] == out[i];
      OrderedNoCycle(g, out, k);
    }
  }

  lemma OrderedIsCycleFree<T(!new)>(g: map<T, seq<T>>, out: seq<T>, list: seq<T>)
    requires DependenciesFirst(g, out) && forall e :: e in list ==> e in out
    ensures CycleFree(g, list)
  {
    forall n | ReachedFrom(g, list, n) ensures !OnCycle(g, n) {
      var e :| e in list && Reach(g, e, n);
      var p :| IsPath(g, p, e, n);
      var i :| 0 <= i < |out| && out[i] == e;
      if |p| > 1 { PathLeadsBack(g, out, i, p, n); }
      var k :| 0 <= k < |out| && out[k] == n;
      OrderedNoCycle(g, out, k);
    }
  }

  /** What a returning walk leaves: all of the list is loaded, dependencies first. */
  lemma {:induction false} LoadOrders<T(!new)>(g: map<T, seq<T>>, first: seq<T>, depth: nat, list: seq<T>, done: seq<T>)
    requires Closed(g) && forall e :: e in list ==> e in g
    requires first <= done && DependenciesFirst(Cut(g, first), done)
    requires LoadWithin(g, depth, list, done).Some?
    ensures var r := LoadWithin(g, depth, list, done).value;
      done <= r && DependenciesFirst(Cut(g, first), r) && forall e :: e in list ==> e in r
    decreases depth, |list|
  {
    if list != [] {
      var e := list[0];
      if e in done {
        LoadOrders(g, first, depth, list[1..], done);
      } else {
        LoadOrders(g, first, depth - 1, g[e], done);
        var inner := LoadWithin(g, depth - 1, g[e], done).value;
        AppendOrdered(Cut(g, first), inner, e);
        LoadOrders(g, first, depth, list[1..], inner + [e]);
        assert (inner + [e])[|inner|] == e;
      }
    }
  }

  lemma AppendOrdered<T(!new)>(g: map<T, seq<T>>, out: seq<T>, e: T)
    requires DependenciesFirst(g, out) && forall d :: Edge(g, e, d) ==> d in out
    ensures DependenciesFirst(g, out + [e])
  {
    forall i, d | 0 <= i < |out + [e]| && Edge(g, (out + [e])[i], d) ensures d in (out + [e])[..i] {
      if i < |out| { assert Edge(g, out[i], d) && (out + [e])[..i] == out[..i]; } else { assert (out + [e])[..i] == out; }
    }
  }

  /** Without a cycle ahead, the calls nest no deeper than there are entries below. */
  lemma {:induction false} LoadEnds<T(!new)>(g: map<T, seq<T>>, first: seq<T>, depth: nat, list: seq<T>, done: seq<T>)
    requires Closed(g) && forall e :: e in list ==> e in g
    requires first <= done && CycleFree(Cut(g, first), list) && depth >= |Below(Cut(g, first), list)|
    ensures LoadWithin(g, depth, list, done).Some?
    decreases depth, |list|
  {
    if list != [] {
      var h, e := Cut(g, first), list[0];
      CycleFreeParts(h, list);
      BelowShrinks(h, list);
      if e in done {
        LoadEnds(g, first, depth, list[1..], done);
      } else {
        assert e !in first && h[e] == g[e];
        LoadEnds(g, first, depth - 1, g[e], done);
        LoadGrows(g, depth - 1, g[e], done);
        LoadEnds(g, first, depth, list[1..], LoadWithin(g, depth - 1, g[e], done).value + [e]);
      }
    }
  }

  lemma {:induction false} LoadGrows<T(!new)>(g: map<T, seq<T>>, depth: nat, list: seq<T>, done: seq<T>)
    requires Closed(g) && forall e :: e in list ==> e in g
    requires LoadWithin(g, depth, list, done).Some?
    ensures done <= LoadWithin(g, depth, list, done).value
    decreases depth, |list|
  {
    if list != [] {
      if list[0] in done {
        LoadGrows(g, depth, list[1..], done);
      } else {
        LoadGrows(g, depth - 1, g[list[0]], done);
        LoadGrows(g, depth, list[1..], LoadWithin(g, depth - 1, g[list[0]], done).value + [list[0]]);
      }
    }
  }

  /** `loadDeps` returns exactly if no cycle is reached through entries not loaded yet, and then
      the calls nest no deeper than there are entries. */
  lemma LoadReturnsExactly<T(!new)>(g: map<T, seq<T>>, list: seq<T>, done: seq<T>)
    requires Closed(g) && forall e :: e in list ==> e in g
    ensures (exists depth: nat :: LoadWithin(g, depth, list, done).Some?) <==> CycleFree(Cut(g, done), list)
    ensures CycleFree(Cut(g, done), list) ==> LoadWithin(g, |g|, list, done).Some?
  {
    var h := Cut(g, done);
    if depth: nat :| LoadWithin(g, depth, list, done).Some? {
      LoadOrders(g, done, depth, list, done);
      OrderedIsCycleFree(h, LoadWithin(g, depth, list, done).value, list);
    }
    if CycleFree(h, list) {
      BelowAtMostAll(h, list);
      assert h.Keys == g.Keys && |h| == |h.Keys| && |g| == |g.Keys|;
      LoadEnds(g, done, |g|, list, done);
    }
  }

  /** From nothing loaded, it returns exactly if no cycle is reachable at all. */
  lemma LoadFromNothing<T(!new)>(g: map<T, seq<T>>, list: seq<T>)
    requires Closed(g) && forall e :: e in list ==> e in g
    ensures (exists depth: nat :: LoadWithin(g, depth, list, []).Some?) <==> CycleFree(g, list)
    ensures CycleFree(g, list) ==> LoadWithin(g, |g|, list, []).Some?
  {
    CutNothing(g);
    LoadReturnsExactly(g, list, []);
  }

  /** A component that depends on itself is never loaded. */
  lemma SelfDependencyNeverLoads<T(!new)>(a: T, depth: nat)
    ensures LoadWithin(map[a := [a]], depth, [a], []).None?
  {
    var g := map[a := [a]];
    LoadFromNothing(g, [a]);
    ReachRefl(g, a);
    assert a in g[a];
    assert OnCycle(g, a) && ReachedFrom(g, [a], a);
  }
}
