/** When `initDeps` returns: it walks into cycles, but a component that does not start ends it. */
module DependencyInit {
  import opened Options
  import opened Graph
  import opened DependencySort
  import opened DependencyWalks

  /** A component comes up with all it needs: everything it reaches starts and is on no cycle. */
  ghost predicate Sound<T(!new)>(g: map<T, seq<T>>, up: T -> bool, n: T) {
    forall m :: Reach(g, n, m) ==> up(m) && !OnCycle(g, m)
  }

  /** Soundness is decided by the component and its direct dependencies. */
  lemma SoundLocally<T(!new)>(g: map<T, seq<T>>, up: T -> bool, e: T)
    requires e in g
    ensures Sound(g, up, e) <==> up(e) && forall d :: d in g[e] ==> Sound(g, up, d)
  {
    forall m ensures Reach(g, e, m) <==> m == e || ReachedFrom(g, g[e], m) { ReachSplit(g, e, m); }
  }

  /** The first component of a list that is not sound, if there is one. */
  ghost function FirstUnsound<T(!new)>(g: map<T, seq<T>>, up: T -> bool, list: seq<T>): (r: seq<T>)
    ensures |r| <= 1
  {
    if list == [] then [] else if !Sound(g, up, list[0]) then [list[0]] else FirstUnsound(g, up, list[1..])
  }

  /** Where the walk cannot come back with success: from each component to the first of its
      dependencies that is not sound. */
  ghost function Stuck<T(!new)>(g: map<T, seq<T>>, up: T -> bool): (h: map<T, seq<T>>)
    ensures h.Keys == g.Keys
  {
    map n | n in g :: FirstUnsound(g, up, g[n])
  }

  lemma FirstUnsoundOf<T(!new)>(g: map<T, seq<T>>, up: T -> bool, list: seq<T>)
    requires list != []
    ensures FirstUnsound(g, up, list) == if Sound(g, up, list[0]) then FirstUnsound(g, up, list[1..]) else [list[0]]
  {
  }

  lemma {:induction false} AllSound<T(!new)>(g: map<T, seq<T>>, up: T -> bool, list: seq<T>)
    ensures FirstUnsound(g, up, list) == [] <==> forall e :: e in list ==> Sound(g, up, e)
  {
    if list != [] { AllSound(g, up, list[1..]); }
  }

  /** The first unsound dependency makes the component unsound. */
  lemma UnsoundBelow<T(!new)>(g: map<T, seq<T>>, up: T -> bool, e: T)
    requires e in g
    ensures Stuck(g, up)[e] == FirstUnsound(g, up, g[e])
    ensures FirstUnsound(g, up, g[e]) != [] ==> !Sound(g, up, e)
  {
    AllSound(g, up, g[e]);
    SoundLocally(g, up, e);
  }

  /** What counts as started: what is initialized already, and what starts when asked to. */
  function Up<T(==)>(starts: T -> bool, done: seq<T>): T -> bool {
    n => n in done || starts(n)
  }

  ghost predicate UpAgrees<T(!new)>(starts: T -> bool, done: seq<T>, up: T -> bool) {
    forall n :: up(n) <==> n in done || starts(n)
  }

  /** A walk that returns has only added components that start, and reports success exactly if all
      of its list is sound. */
  lemma {:induction false} InitOutcome<T(!new)>(g: map<T, seq<T>>, starts: T -> bool, up: T -> bool, depth: nat, list: seq<T>, done: seq<T>)
    requires Closed(g) && forall e :: e in list ==> e in g
    requires UpAgrees(starts, done, up) && InitWithin(g, starts, depth, list, done).Some?
    ensures var r := InitWithin(g, starts, depth, list, done).value;
      && UpAgrees(starts, r.done, up) && done <= r.done
      && (r.ok <==> forall e :: e in list ==> Sound(g, up, e))
      && (r.ok ==> forall e :: e in list ==> e in r.done)
    decreases depth, |list|
  {
    if list != [] {
      var e := list[0];
      InitOutcome(g, starts, up, depth - 1, g[e], done);
      SoundLocally(g, up, e);
      var deps := InitWithin(g, starts, depth - 1, g[e], done).value;
      assert e in list;
      if deps.ok && e in deps.done {
        InitOutcome(g, starts, up, depth, list[1..], deps.done);
      } else if deps.ok && starts(e) {
        InitOutcome(g, starts, up, depth, list[1..], deps.done + [e]);
        assert (deps.done + [e])[|deps.done|] == e;
      }
    }
  }

  lemma {:induction false} InitMayEnd<T(!new)>(g: map<T, seq<T>>, starts: T -> bool, up: T -> bool, depth: nat, list: seq<T>, done: seq<T>)
    requires Closed(g) && forall e :: e in list ==> e in g
    requires UpAgrees(starts, done, up) && InitWithin(g, starts, depth, list, done).Some?
    ensures CycleFree(Stuck(g, up), FirstUnsound(g, up, list))
    decreases depth, |list|
  {
    if list != [] {
      var e := list[0];
      InitOutcome(g, starts, up, depth - 1, g[e], done);
      SoundLocally(g, up, e);
      if Sound(g, up, e) {
        var deps := InitWithin(g, starts, depth - 1, g[e], done).value;
        InitMayEnd(g, starts, up, depth, list[1..], if e in deps.done then deps.done else deps.done + [e]);
      } else {
        InitMayEnd(g, starts, up, depth - 1, g[e], done);
        CycleFreeAbove(Stuck(g, up), e);
      }
    }
  }

  lemma SoundIsCycleFree<T(!new)>(g: map<T, seq<T>>, up: T -> bool, list: seq<T>)
    requires forall e :: e in list ==> Sound(g, up, e)
    ensures CycleFree(g, list)
  {
  }

  /** Sound components are walked to the end. */
  lemma {:induction false} SoundEnds<T(!new)>(g: map<T, seq<T>>, starts: T -> bool, up: T -> bool, depth: nat, list: seq<T>, done: seq<T>)
    requires Closed(g) && forall e :: e in list ==> e in g
    requires UpAgrees(starts, done, up) && depth >= |Below(g, list)|
    requires forall e :: e in list ==> Sound(g, up, e)
    ensures InitWithin(g, starts, depth, list, done).Some?
    decreases depth, |list|
  {
    if list != [] {
      var e := list[0];
      SoundIsCycleFree(g, up, list);
      CycleFreeParts(g, list);
      BelowShrinks(g, list);
      SoundLocally(g, up, e);
      SoundEnds(g, starts, up, depth - 1, g[e], done);
      InitOutcome(g, starts, up, depth - 1, g[e], done);
      var deps := InitWithin(g, starts, depth - 1, g[e], done).value;
      SoundEnds(g, starts, up, depth, list[1..], if e in deps.done then deps.done else deps.done + [e]);
    }
  }

  /** What is initialized once the walk is past the first entry. */
  ghost function PastFirst<T(!new)>(g: map<T, seq<T>>, starts: T -> bool, depth: nat, e: T, done: seq<T>): seq<T>
    requires Closed(g) && e in g
  {
    match InitWithin(g, starts, depth, g[e], done)
    case None => done
    case Some(deps) => if e in deps.done then deps.done else deps.done + [e]
  }

  /** The walk gets past a sound component. */
  lemma InitGoesOn<T(!new)>(g: map<T, seq<T>>, starts: T -> bool, up: T -> bool, depth: nat, list: seq<T>, done: seq<T>)
    requires Closed(g) && list != [] && forall e :: e in list ==> e in g
    requires UpAgrees(starts, done, up) && Sound(g, up, list[0]) && depth > |g|
    ensures var next := PastFirst(g, starts, depth - 1, list[0], done);
      UpAgrees(starts, next, up) && InitWithin(g, starts, depth, list, done) == InitWithin(g, starts, depth, list[1..], next)
  {
    var e := list[0];
    BelowAtMostAll(g, g[e]);
    SoundLocally(g, up, e);
    SoundEnds(g, starts, up, depth - 1, g[e], done);
    InitOutcome(g, starts, up, depth - 1, g[e], done);
  }

  /** It does not get past one that is not, if it gets out of its dependencies at all. */
  lemma InitGivesUp<T(!new)>(g: map<T, seq<T>>, starts: T -> bool, up: T -> bool, depth: nat, list: seq<T>, done: seq<T>)
    requires Closed(g) && list != [] && forall e :: e in list ==> e in g
    requires UpAgrees(starts, done, up) && !Sound(g, up, list[0]) && depth > 0
    requires InitWithin(g, starts, depth - 1, g[list[0]], done).Some?
    ensures InitWithin(g, starts, depth, list, done).Some?
  {
    InitOutcome(g, starts, up, depth - 1, g[list[0]], done);
    SoundLocally(g, up, list[0]);
  }

  /** The walk gets out of a component that is not sound if the way through such components ends. */
  lemma {:induction false} StuckEnds<T(!new)>(g: map<T, seq<T>>, starts: T -> bool, up: T -> bool, depth: nat, list: seq<T>, done: seq<T>)
    requires Closed(g) && forall e :: e in list ==> e in g
    requires UpAgrees(starts, done, up)
    requires var h := Stuck(g, up);
      CycleFree(h, FirstUnsound(g, up, list)) && depth > |g| + |Below(h, FirstUnsound(g, up, list))|
    ensures InitWithin(g, starts, depth, list, done).Some?
    decreases depth, |list|
  {
    if list != [] {
      var h, e := Stuck(g, up), list[0];
      if Sound(g, up, e) {
        InitGoesOn(g, starts, up, depth, list, done);
        StuckEnds(g, starts, up, depth, list[1..], PastFirst(g, starts, depth - 1, e, done));
      } else {
        FirstUnsoundOf(g, up, list);
        CycleFreeParts(h, [e]);
        BelowShrinks(h, [e]);
        assert h[e] == FirstUnsound(g, up, g[e]);
        StuckEnds(g, starts, up, depth - 1, g[e], done);
        InitGivesUp(g, starts, up, depth, list, done);
      }
    }
  }

  /** `initDeps` returns exactly if following, from the first unsound component of the list, each
      time the first unsound dependency does not lead into a cycle: then a component that does
      not start, with all its dependencies sound, is met first. It reports success exactly if
      all of the list is sound. */
  lemma InitReturnsExactly<T(!new)>(g: map<T, seq<T>>, starts: T -> bool, list: seq<T>, done: seq<T>)
    requires Closed(g) && forall e :: e in list ==> e in g
    ensures var up := Up(starts, done); var may := CycleFree(Stuck(g, up), FirstUnsound(g, up, list));
      && ((exists depth: nat :: InitWithin(g, starts, depth, list, done).Some?) <==> may)
      && (may ==> InitWithin(g, starts, 2 * |g| + 1, list, done).Some?)
    ensures forall depth: nat :: InitWithin(g, starts, depth, list, done).Some? ==>
      (InitWithin(g, starts, depth, list, done).value.ok <==> forall e :: e in list ==> Sound(g, Up(starts, done), e))
  {
    var up := Up(starts, done);
    forall depth: nat | InitWithin(g, starts, depth, list, done).Some?
      ensures CycleFree(Stuck(g, up), FirstUnsound(g, up, list))
      ensures InitWithin(g, starts, depth, list, done).value.ok <==> forall e :: e in list ==> Sound(g, up, e)
    {
      InitMayEnd(g, starts, up, depth, list, done);
      InitOutcome(g, starts, up, depth, list, done);
    }
    if CycleFree(Stuck(g, up), FirstUnsound(g, up, list)) {
      var h := Stuck(g, up);
      BelowAtMostAll(h, FirstUnsound(g, up, list));
      assert h.Keys == g.Keys && |h| == |h.Keys| && |g| == |g.Keys|;
      StuckEnds(g, starts, up, 2 * |g| + 1, list, done);
    }
  }

  lemma {:induction false} UnsoundListed<T(!new)>(g: map<T, seq<T>>, up: T -> bool, list: seq<T>)
    ensures forall e :: e in FirstUnsound(g, up, list) ==> e in list
  {
    if list != [] { UnsoundListed(g, up, list[1..]); }
  }

  lemma {:induction false} StuckReach<T(!new)>(g: map<T, seq<T>>, up: T -> bool, p: seq<T>, a: T, b: T)
    requires IsPath(Stuck(g, up), p, a, b)
    ensures IsPath(g, p, a, b)
  {
    forall i | 0 <= i < |p| - 1 ensures Edge(g, p[i], p[i + 1]) {
      assert Edge(Stuck(g, up), p[i], p[i + 1]);
      UnsoundListed(g, up, g[p[i]]);
    }
  }

  /** Where there is no cycle at all, the way through unsound components ends. */
  lemma AcyclicNotStuck<T(!new)>(g: map<T, seq<T>>, up: T -> bool, list: seq<T>)
    requires Acyclic(g)
    ensures CycleFree(Stuck(g, up), list)
  {
    var h := Stuck(g, up);
    forall n | n in h ensures !OnCycle(h, n) {
      forall d | d in h[n] ensures !Reach(h, d, n) {
        UnsoundListed(g, up, g[n]);
        assert Edge(g, n, d);
        forall p ensures !IsPath(h, p, d, n) {
          if IsPath(h, p, d, n) { StuckReach(g, up, p, d, n); }
        }
      }
    }
  }

  /** A component that depends on itself is walked into for ever, whether it starts or not. */
  lemma {:induction false} SelfDependencyNeverInits<T(!new)>(a: T, starts: T -> bool, depth: nat)
    ensures InitWithin(map[a := [a]], starts, depth, [a], []).None?
  {
    if depth > 0 { SelfDependencyNeverInits(a, starts, depth - 1); }
  }

  /** A component on a cycle can still be tried: here the failing dependency comes first. */
  lemma FailsBeforeCycle<T(!new)>(a: T, b: T, starts: T -> bool)
    requires a != b && !starts(b)
    ensures var g := map[a := [b, a], b := []];
      OnCycle(g, a) && InitWithin(g, starts, 2, [a], []) == Some(InitResult([], false))
  {
    var g := map[a := [b, a], b := []];
    ReachRefl(g, a);
    assert g[a][1] == a;
    assert InitWithin(g, starts, 0, [], []) == Some(InitResult([], true));
    assert InitWithin(g, starts, 1, [b, a], []) == Some(InitResult([], false));
  }
}
