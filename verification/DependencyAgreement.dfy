/** The three hand-written traversals of the dependency graph agree whenever they return; and the
    two walks as recursions over shared containers. */
module DependencyAgreement {
  import opened Options
  import opened Graph
  import opened DependencySort
  import opened DependencyWalks
  import opened DependencyInit

  ghost predicate Above<T(!new)>(g: map<T, seq<T>>, a: T, e: T) {
    a in g && ReachedFrom(g, g[a], e)
  }

  /** Every active entry needs every entry of the list. */
  ghost predicate ActiveAbove<T(!new)>(g: map<T, seq<T>>, st: Dfs<T>, list: seq<T>) {
    forall a, e :: a in Active(st) && e in list ==> Above(g, a, e)
  }

  lemma AboveStep<T(!new)>(g: map<T, seq<T>>, a: T, e: T, d: T)
    requires Above(g, a, e) && Edge(g, e, d)
    ensures Above(g, a, d)
  {
    var b :| b in g[a] && Reach(g, b, e);
    ReachStep(g, b, e, d);
  }

  /** Going into the dependencies of `e`, which becomes active. */
  lemma ActiveAboveInner<T(!new)>(g: map<T, seq<T>>, st: Dfs<T>, e: T)
    requires e in g && e !in st.visited && Emits(st) && ActiveAbove(g, st, [e])
    ensures var st0 := st.(visited := st.visited + {e});
      Active(st0) == Active(st) + {e} && ActiveAbove(g, st0, g[e])
  {
    var st0 := st.(visited := st.visited + {e});
    assert Active(st0) == Active(st) + {e};
    forall a, d | a in Active(st0) && d in g[e] ensures Above(g, a, d) {
      ReachRefl(g, d);
      if a != e {
        assert e in [e];
        AboveStep(g, a, e, d);
      }
    }
  }

  ghost predicate Emits<T>(st: Dfs<T>) {
    forall n :: n in st.out ==> n in st.visited
  }

  /** What the sort does to its state, apart from the order. */
  lemma {:induction false} VisitKeeps<T(!new)>(g: map<T, seq<T>>, list: seq<T>, st: Dfs<T>)
    requires Closed(g) && st.visited <= g.Keys && (forall e :: e in list ==> e in g) && Emits(st)
    ensures var r := VisitAll(g, list, st); Emits(r) && st.out <= r.out && Active(r) == Active(st)
    decreases g.Keys - st.visited, |list|
  {
    if list != [] {
      if list[0] in st.visited {
        VisitKeeps(g, list[1..], st);
      } else {
        EmittedKeeps(g, st, list[0]);
        VisitKeeps(g, list[1..], Emitted(g, st, list[0]));
      }
    }
  }

  /** What the sort has emitted when the dependencies of `e` are done. */
  ghost function Inner<T(!new)>(g: map<T, seq<T>>, st: Dfs<T>, e: T): seq<T>
    requires Closed(g) && e in g && st.visited <= g.Keys
  {
    VisitAll(g, g[e], st.(visited := st.visited + {e})).out
  }

  /** The sort's state when the dependencies of `e` are done and `e` is emitted. */
  function Emitted<T(!new)>(g: map<T, seq<T>>, st: Dfs<T>, e: T): (st1: Dfs<T>)
    requires Closed(g) && e in g && st.visited <= g.Keys
    ensures st.visited + {e} <= st1.visited <= g.Keys
  {
    var inner := VisitAll(g, g[e], st.(visited := st.visited + {e}));
    inner.(out := inner.out + [e])
  }

  lemma {:induction false} EmittedKeeps<T(!new)>(g: map<T, seq<T>>, st: Dfs<T>, e: T)
    requires Closed(g) && e in g && st.visited <= g.Keys && e !in st.visited && Emits(st)
    ensures var st1 := Emitted(g, st, e); Emits(st1) && Active(st1) == Active(st)
    ensures var inner := Inner(g, st, e);
      Emitted(g, st, e).out == inner + [e] && st.out <= inner && e !in inner
    decreases g.Keys - st.visited, 0
  {
    var st0 := st.(visited := st.visited + {e});
    assert Active(st0) == Active(st) + {e};
    VisitKeeps(g, g[e], st0);
    assert e in Active(st0);
    assert Active(Emitted(g, st, e)) == Active(st);
  }

  lemma {:induction false} LoadFollowsVisit<T(!new)>(g: map<T, seq<T>>, depth: nat, list: seq<T>, st: Dfs<T>)
    requires Closed(g) && st.visited <= g.Keys && forall e :: e in list ==> e in g
    requires Emits(st) && ActiveAbove(g, st, list) && CycleFree(g, list)
    requires LoadWithin(g, depth, list, st.out).Some?
    ensures LoadWithin(g, depth, list, st.out) == Some(VisitAll(g, list, st).out)
    decreases depth, |list|
  {
    if list != [] {
      var e := list[0];
      CycleFreeParts(g, list);
      if e in st.visited {
        assert e in list && (e in Active(st) ==> Above(g, e, e));
        LoadFollowsVisit(g, depth, list[1..], st);
      } else {
        ActiveAboveInner(g, st, e);
        LoadFollowsVisit(g, depth - 1, g[e], st.(visited := st.visited + {e}));
        EmittedKeeps(g, st, e);
        LoadFollowsVisit(g, depth, list[1..], Emitted(g, st, e));
      }
    }
  }

  /** How far `initDeps` gets along a given order: everything before the first failure. */
  ghost predicate StopsAtFirstFailure<T>(starts: T -> bool, from: nat, order: seq<T>, r: InitResult<T>) {
    && r.done <= order && from <= |r.done|
    && (forall i :: from <= i < |r.done| ==> starts(r.done[i]))
    && (if r.ok then r.done == order else |r.done| < |order| && !starts(order[|r.done|]))
  }

  ghost predicate DepClosed<T(!new)>(g: map<T, seq<T>>, done: seq<T>) {
    forall n, d :: n in done && Edge(g, n, d) ==> d in done
  }

  /** Walking again what is initialized with all its dependencies changes nothing. */
  lemma {:induction false} InitSkips<T(!new)>(g: map<T, seq<T>>, starts: T -> bool, depth: nat, list: seq<T>, done: seq<T>)
    requires Closed(g) && DepClosed(g, done) && forall e :: e in list ==> e in g && e in done
    requires InitWithin(g, starts, depth, list, done).Some?
    ensures InitWithin(g, starts, depth, list, done) == Some(InitResult(done, true))
    decreases depth, |list|
  {
    if list != [] {
      var e := list[0];
      forall d | d in g[e] ensures d in done { assert e in list && Edge(g, e, d); }
      InitSkips(g, starts, depth - 1, g[e], done);
      InitSkips(g, starts, depth, list[1..], done);
    }
  }

  /** A point of the traversal that both the sort and `initDeps` can be at. */
  ghost predicate InStep<T(!new)>(g: map<T, seq<T>>, starts: T -> bool, st: Dfs<T>, list: seq<T>) {
    && st.visited <= g.Keys && Emits(st) && DepClosed(g, st.out)
    && (forall n :: n in st.out ==> Sound(g, starts, n))
    && ActiveAbove(g, st, list) && ActiveAbove(Stuck(g, starts), st, FirstUnsound(g, starts, list))
  }

  /** Neither walk stands at an entry that is active. */
  lemma NotActive<T(!new)>(g: map<T, seq<T>>, starts: T -> bool, st: Dfs<T>, list: seq<T>)
    requires InStep(g, starts, st, list) && list != [] && list[0] in g
    requires CycleFree(Stuck(g, starts), FirstUnsound(g, starts, list))
    ensures list[0] !in Active(st)
  {
    var h, e := Stuck(g, starts), list[0];
    ReachRefl(g, e);
    ReachRefl(h, e);
    FirstUnsoundOf(g, starts, list);
    assert e in list && e in [e];
    assert e in Active(st) ==> Above(g, e, e);
    assert OnCycle(g, e) ==> !Sound(g, starts, e);
    assert ReachedFrom(h, [e], e);
  }

  lemma StepTail<T(!new)>(g: map<T, seq<T>>, starts: T -> bool, st: Dfs<T>, list: seq<T>)
    requires InStep(g, starts, st, list) && list != [] && Sound(g, starts, list[0])
    ensures InStep(g, starts, st, list[1..])
  {
    FirstUnsoundOf(g, starts, list);
  }

  /** Going into the dependencies of an entry that is not visited. */
  lemma StepInner<T(!new)>(g: map<T, seq<T>>, starts: T -> bool, st: Dfs<T>, list: seq<T>)
    requires Closed(g) && InStep(g, starts, st, list) && list != [] && list[0] in g && list[0] !in st.visited
    ensures InStep(g, starts, st.(visited := st.visited + {list[0]}), g[list[0]])
  {
    var h, e := Stuck(g, starts), list[0];
    var st0 := st.(visited := st.visited + {e});
    ActiveAboveInner(g, st, e);
    FirstUnsoundOf(g, starts, list);
    SoundLocally(g, starts, e);
    var bad := FirstUnsound(g, starts, g[e]);
    UnsoundBelow(g, starts, e);
    forall a, x | a in Active(st0) && x in bad ensures Above(h, a, x) {
      ReachRefl(h, x);
      if a != e {
        assert e in [e];
        AboveStep(h, a, e, x);
      }
    }
  }

  lemma SoundsStart<T(!new)>(g: map<T, seq<T>>, starts: T -> bool, out: seq<T>)
    requires forall n :: n in out ==> Sound(g, starts, n)
    ensures UpAgrees(starts, out, starts)
  {
    forall n | n in out ensures starts(n) { ReachRefl(g, n); }
  }

  /** Going on after a sound entry was initialized and emitted. */
  lemma StepEmitted<T(!new)>(g: map<T, seq<T>>, starts: T -> bool, st: Dfs<T>, list: seq<T>)
    requires Closed(g) && InStep(g, starts, st, list)
    requires list != [] && list[0] !in st.visited && (forall e :: e in list ==> e in g) && Sound(g, starts, list[0])
    requires var inner := Inner(g, st, list[0]);
      && DepClosed(g, inner) && (forall n :: n in inner ==> Sound(g, starts, n)) && forall d :: d in g[list[0]] ==> d in inner
    ensures InStep(g, starts, Emitted(g, st, list[0]), list[1..])
  {
    EmittedKeeps(g, st, list[0]);
    FirstUnsoundOf(g, starts, list);
  }

  lemma {:induction false} InitExtends<T(!new)>(g: map<T, seq<T>>, starts: T -> bool, depth: nat, list: seq<T>, done: seq<T>)
    requires Closed(g) && forall e :: e in list ==> e in g
    requires InitWithin(g, starts, depth, list, done).Some?
    ensures done <= InitWithin(g, starts, depth, list, done).value.done
    decreases depth, |list|
  {
    if list != [] {
      var e := list[0];
      InitExtends(g, starts, depth - 1, g[e], done);
      var deps := InitWithin(g, starts, depth - 1, g[e], done).value;
      if deps.ok && (e in deps.done || starts(e)) {
        InitExtends(g, starts, depth, list[1..], if e in deps.done then deps.done else deps.done + [e]);
      }
    }
  }

  /** What a returning `initDeps` leaves, told by the order in which the sort emits. */
  ghost predicate Follows<T(!new)>(g: map<T, seq<T>>, starts: T -> bool, from: nat, order: seq<T>, r: InitResult<T>) {
    && StopsAtFirstFailure(starts, from, order, r)
    && (r.ok ==> DepClosed(g, r.done) && forall n :: n in r.done ==> Sound(g, starts, n))
  }

  /** The first entry is initialized, and the walk goes on behind it. */
  lemma FollowsOn<T(!new)>(g: map<T, seq<T>>, starts: T -> bool, depth: nat, list: seq<T>, done: seq<T>, inner: seq<T>)
    requires Closed(g) && list != [] && (forall e :: e in list ==> e in g) && depth > 0
    requires InitWithin(g, starts, depth - 1, g[list[0]], done) == Some(InitResult(inner, true))
    requires list[0] !in inner && starts(list[0])
    ensures InitWithin(g, starts, depth, list, done) == InitWithin(g, starts, depth, list[1..], inner + [list[0]])
  {
  }

  lemma FollowsFrom<T(!new)>(g: map<T, seq<T>>, starts: T -> bool, done: seq<T>, inner: seq<T>, e: T, order: seq<T>, r: InitResult<T>)
    requires StopsAtFirstFailure(starts, |done|, inner, InitResult(inner, true)) && starts(e)
    requires Follows(g, starts, |inner + [e]|, order, r) && inner + [e] <= r.done
    ensures Follows(g, starts, |done|, order, r)
  {
    forall i | |done| <= i < |r.done| ensures starts(r.done[i]) {
      if i <= |inner| { assert r.done[i] == (inner + [e])[i]; }
    }
  }

  /** The walk ends in the first entry, or among its dependencies. */
  lemma FollowsOut<T(!new)>(g: map<T, seq<T>>, starts: T -> bool, depth: nat, list: seq<T>, done: seq<T>, inner: seq<T>, order: seq<T>)
    requires Closed(g) && list != [] && (forall e :: e in list ==> e in g) && depth > 0
    requires InitWithin(g, starts, depth - 1, g[list[0]], done).Some?
    requires var deps := InitWithin(g, starts, depth - 1, g[list[0]], done).value;
      Follows(g, starts, |done|, inner, deps) && !(deps.ok && starts(list[0]))
    requires list[0] !in inner && inner + [list[0]] <= order
    ensures InitWithin(g, starts, depth, list, done).Some?
    ensures Follows(g, starts, |done|, order, InitWithin(g, starts, depth, list, done).value)
  {
    var deps := InitWithin(g, starts, depth - 1, g[list[0]], done).value;
    assert forall i :: 0 <= i <= |inner| ==> order[i] == (inner + [list[0]])[i];
    assert InitWithin(g, starts, depth, list, done) == Some(InitResult(deps.done, false));
  }

  lemma FollowsSkipped<T(!new)>(g: map<T, seq<T>>, starts: T -> bool, depth: nat, list: seq<T>, done: seq<T>)
    requires Closed(g) && list != [] && (forall e :: e in list ==> e in g) && depth > 0
    requires DepClosed(g, done) && list[0] in done && InitWithin(g, starts, depth - 1, g[list[0]], done).Some?
    ensures InitWithin(g, starts, depth, list, done) == InitWithin(g, starts, depth, list[1..], done)
  {
    forall d | d in g[list[0]] ensures d in done { assert Edge(g, list[0], d); }
    InitSkips(g, starts, depth - 1, g[list[0]], done);
  }

  /** The sort and a returning `initDeps` go the same way, whatever the graph. */
  lemma {:induction false} InitFollowsVisit<T(!new)>(g: map<T, seq<T>>, starts: T -> bool, depth: nat, list: seq<T>, st: Dfs<T>)
    requires Closed(g) && InStep(g, starts, st, list) && forall e :: e in list ==> e in g
    requires InitWithin(g, starts, depth, list, st.out).Some?
    ensures Follows(g, starts, |st.out|, VisitAll(g, list, st).out, InitWithin(g, starts, depth, list, st.out).value)
    decreases depth, |list|
  {
    if list != [] {
      var e := list[0];
      SoundsStart(g, starts, st.out);
      InitMayEnd(g, starts, starts, depth, list, st.out);
      NotActive(g, starts, st, list);
      if e in st.visited {
        assert e in st.out && Sound(g, starts, e);
        FollowsSkipped(g, starts, depth, list, st.out);
        StepTail(g, starts, st, list);
        InitFollowsVisit(g, starts, depth, list[1..], st);
      } else {
        InitFollowsInto(g, starts, depth, list, st);
      }
    }
  }

  /** The walk stands at an entry that is not visited, and gets out of its dependencies. */
  ghost predicate Into<T(!new)>(g: map<T, seq<T>>, starts: T -> bool, depth: nat, list: seq<T>, st: Dfs<T>) {
    && Closed(g) && InStep(g, starts, st, list) && (forall e :: e in list ==> e in g)
    && list != [] && list[0] !in st.visited && UpAgrees(starts, st.out, starts)
    && depth > 0 && InitWithin(g, starts, depth - 1, g[list[0]], st.out).Some?
  }

  lemma {:induction false} FirstIsSound<T(!new)>(g: map<T, seq<T>>, starts: T -> bool, depth: nat, e: T, done: seq<T>, inner: seq<T>)
    requires Closed(g) && e in g && UpAgrees(starts, done, starts) && starts(e)
    requires InitWithin(g, starts, depth, g[e], done) == Some(InitResult(inner, true))
    ensures Sound(g, starts, e) && forall d :: d in g[e] ==> d in inner
  {
    InitOutcome(g, starts, starts, depth, g[e], done);
    SoundLocally(g, starts, e);
  }

  lemma EmittedOut<T(!new)>(g: map<T, seq<T>>, starts: T -> bool, depth: nat, list: seq<T>, st: Dfs<T>)
    requires Into(g, starts, depth, list, st)
    ensures var inner := Inner(g, st, list[0]);
      && list[0] !in inner && Emitted(g, st, list[0]).out == inner + [list[0]]
      && VisitAll(g, list, st) == VisitAll(g, list[1..], Emitted(g, st, list[0]))
      && inner + [list[0]] <= VisitAll(g, list, st).out
  {
    EmittedKeeps(g, st, list[0]);
    VisitKeeps(g, list[1..], Emitted(g, st, list[0]));
  }

  lemma {:induction false} InitFollowsInner<T(!new)>(g: map<T, seq<T>>, starts: T -> bool, depth: nat, list: seq<T>, st: Dfs<T>)
    requires Into(g, starts, depth, list, st)
    ensures Follows(g, starts, |st.out|, Inner(g, st, list[0]), InitWithin(g, starts, depth - 1, g[list[0]], st.out).value)
    decreases depth, |list|, 0
  {
    var e := list[0];
    var st0 := st.(visited := st.visited + {e});
    assert InStep(g, starts, st0, g[e]) by { StepInner(g, starts, st, list); }
    InitFollowsVisit(g, starts, depth - 1, g[e], st0);
  }

  lemma {:induction false} InitFollowsRest<T(!new)>(g: map<T, seq<T>>, starts: T -> bool, depth: nat, list: seq<T>, st: Dfs<T>)
    requires Into(g, starts, depth, list, st) && starts(list[0])
    requires var inner := Inner(g, st, list[0]);
      && InitWithin(g, starts, depth - 1, g[list[0]], st.out) == Some(InitResult(inner, true))
      && Follows(g, starts, |st.out|, inner, InitResult(inner, true))
    requires InitWithin(g, starts, depth, list[1..], Emitted(g, st, list[0]).out).Some?
    ensures var st1 := Emitted(g, st, list[0]);
      Follows(g, starts, |st1.out|, VisitAll(g, list[1..], st1).out, InitWithin(g, starts, depth, list[1..], st1.out).value)
    decreases depth, |list|, 0
  {
    FirstIsSound(g, starts, depth - 1, list[0], st.out, Inner(g, st, list[0]));
    StepEmitted(g, starts, st, list);
    InitFollowsVisit(g, starts, depth, list[1..], Emitted(g, st, list[0]));
  }

  lemma {:induction false} InitFollowsInto<T(!new)>(g: map<T, seq<T>>, starts: T -> bool, depth: nat, list: seq<T>, st: Dfs<T>)
    requires Into(g, starts, depth, list, st) && InitWithin(g, starts, depth, list, st.out).Some?
    ensures Follows(g, starts, |st.out|, VisitAll(g, list, st).out, InitWithin(g, starts, depth, list, st.out).value)
    decreases depth, |list|, 1
  {
    var e, inner, st1 := list[0], Inner(g, st, list[0]), Emitted(g, st, list[0]);
    InitFollowsInner(g, starts, depth, list, st);
    EmittedOut(g, starts, depth, list, st);
    var deps := InitWithin(g, starts, depth - 1, g[e], st.out).value;
    if deps.ok && starts(e) {
      FollowsOn(g, starts, depth, list, st.out, inner);
      InitFollowsRest(g, starts, depth, list, st);
      InitExtends(g, starts, depth, list[1..], st1.out);
      FollowsFrom(g, starts, st.out, inner, e, VisitAll(g, list, st).out, InitWithin(g, starts, depth, list, st.out).value);
    } else {
      FollowsOut(g, starts, depth, list, st.out, inner, VisitAll(g, list, st).out);
    }
  }

  /** The three traversals agree on every graph, cyclic or not, from any roots and whenever they
      return: `loadDeps` marks in exactly the sorted order, and `initDeps` follows the same order
      up to the first component that does not start, which is also when it reports failure. */
  lemma TraversalsAgree<T(!new)>(g: map<T, seq<T>>, starts: T -> bool, roots: seq<T>, depth: nat)
    requires Closed(g) && forall e :: e in roots ==> e in g
    ensures LoadWithin(g, depth, roots, []).Some? ==> LoadWithin(g, depth, roots, []) == Some(Sort(g, roots))
    ensures InitWithin(g, starts, depth, roots, []).Some? ==>
      StopsAtFirstFailure(starts, 0, Sort(g, roots), InitWithin(g, starts, depth, roots, []).value)
  {
    var st: Dfs<T> := Dfs({}, []);
    if LoadWithin(g, depth, roots, []).Some? {
      LoadFromNothing(g, roots);
      assert exists d: nat :: LoadWithin(g, d, roots, []).Some?;
      LoadFollowsVisit(g, depth, roots, st);
    }
    if InitWithin(g, starts, depth, roots, []).Some? {
      InitFollowsVisit(g, starts, depth, roots, st);
    }
  }

  /** On an acyclic graph both walks return, and so all three traversals agree. */
  lemma AcyclicTraversalsAgree<T(!new)>(g: map<T, seq<T>>, starts: T -> bool, roots: seq<T>)
    requires Closed(g) && Acyclic(g) && forall e :: e in roots ==> e in g
    ensures LoadWithin(g, |g|, roots, []) == Some(Sort(g, roots))
    ensures InitWithin(g, starts, 2 * |g| + 1, roots, []).Some?
    ensures StopsAtFirstFailure(starts, 0, Sort(g, roots), InitWithin(g, starts, 2 * |g| + 1, roots, []).value)
  {
    AcyclicIsCycleFree(g, roots);
    LoadFromNothing(g, roots);
    TraversalsAgree(g, starts, roots, |g|);
    var up := Up(starts, []);
    AcyclicNotStuck(g, up, FirstUnsound(g, up, roots));
    InitReturnsExactly(g, starts, roots, []);
    TraversalsAgree(g, starts, roots, 2 * |g| + 1);
  }

  /** The recursion of `loadDeps` and `initDeps` over their shared containers. */
  class Initializer<T(==, !new)> {
    const g: map<T, seq<T>>
    const starts: T -> bool
    var marked: seq<T>

    constructor (g: map<T, seq<T>>, starts: T -> bool)
      ensures this.g == g && this.starts == starts && marked == []
    {
      this.g := g;
      this.starts := starts;
      marked := [];
    }

    /** A call of `loadDeps` that returns, within `depth` calls. */
    method LoadDepsWithin(entry: T, ghost depth: nat)
      requires Closed(g) && entry in g && LoadWithin(g, depth, [entry], marked).Some?
      modifies this
      ensures Some(marked) == LoadWithin(g, depth, [entry], old(marked))
      decreases depth
    {
      if entry in marked { return; }
      ghost var before := marked;
      var deps := g[entry];
      for i := 0 to |deps|
        invariant LoadWithin(g, depth - 1, deps[i..], marked) == LoadWithin(g, depth - 1, deps, before)
        invariant LoadWithin(g, depth - 1, deps, before).Some?
      {
        assert deps[i..][1..] == deps[i + 1..];
        assert [deps[i]][1..] == [];
        LoadDepsWithin(deps[i], depth - 1);
      }
      marked := marked + [entry];
      assert [entry][1..] == [];
    }

    /** `loadDeps` returns unless it gets into a cycle of entries not loaded yet. */
    method LoadDeps(entry: T)
      requires Closed(g) && entry in g && CycleFree(Cut(g, marked), [entry])
      modifies this
      ensures Some(marked) == LoadWithin(g, |g|, [entry], old(marked))
    {
      LoadReturnsExactly(g, [entry], marked);
      LoadDepsWithin(entry, |g|);
    }

    method InitDepsWithin(entry: T, ghost depth: nat) returns (ok: bool)
      requires Closed(g) && entry in g && InitWithin(g, starts, depth, [entry], marked).Some?
      modifies this
      ensures Some(InitResult(marked, ok)) == InitWithin(g, starts, depth, [entry], old(marked))
      decreases depth
    {
      ghost var before := marked;
      var deps := g[entry];
      assert [entry][1..] == [];
      for i := 0 to |deps|
        invariant InitWithin(g, starts, depth - 1, deps[i..], marked) == InitWithin(g, starts, depth - 1, deps, before)
        invariant InitWithin(g, starts, depth - 1, deps, before).Some?
      {
        assert deps[i..][1..] == deps[i + 1..];
        assert [deps[i]][1..] == [];
        ok := InitDepsWithin(deps[i], depth - 1);
        if !ok { return; }
      }
      if entry !in marked {
        if !starts(entry) { return false; }
        marked := marked + [entry];
      }
      return true;
    }

    /** `initDeps` returns unless the way through unsound components gets into a cycle. */
    method InitDeps(entry: T) returns (ok: bool)
      requires Closed(g) && entry in g
      requires CycleFree(Stuck(g, Up(starts, marked)), FirstUnsound(g, Up(starts, marked), [entry]))
      modifies this
      ensures Some(InitResult(marked, ok)) == InitWithin(g, starts, 2 * |g| + 1, [entry], old(marked))
      ensures ok <==> Sound(g, Up(starts, old(marked)), entry)
    {
      InitReturnsExactly(g, starts, [entry], marked);
      ok := InitDepsWithin(entry, 2 * |g| + 1);
      assert entry in [entry];
    }
  }
}
