/** `ComponentLoader`: resolving dependencies to the first providing component, ordering the
    components and loading them. `FatalError` becomes a failure result. */
module ComponentLoading {
  import opened Options
  import opened Sequences
  import opened Graph
  import opened DependencySort
  import opened ComponentIds

  datatype Component = Component(name: string, offers: seq<ValidId>, depends: seq<ValidId>)

  type Known = map<string, Component>

  /** `order` lists the keys of the hash map in some iteration order. */
  ghost predicate Enumerates(order: seq<string>, known: Known) {
    NoDup(order) && forall n :: n in order <==> n in known
  }

  ghost predicate Provides(c: Component, dependency: ValidId) {
    exists k :: 0 <= k < |c.offers| && Matched(dependency, c.offers[k])
  }

  /** The first component from position `i` of the iteration that provides `dependency`. */
  ghost function Provider(known: Known, order: seq<string>, i: nat, dependency: ValidId): (r: Option<string>)
    requires Enumerates(order, known) && i <= |order|
    ensures r.Some? ==> r.value in known && Provides(known[r.value], dependency)
    decreases |order| - i
  {
    if i == |order| then None
    else if Provides(known[order[i]], dependency) then Some(order[i])
    else Provider(known, order, i + 1, dependency)
  }

  /** The dependency list built for `depends[i..]`; `None` where the original gives up. */
  ghost function Resolved(known: Known, order: seq<string>, depends: seq<ValidId>, i: nat): (r: Option<seq<string>>)
    requires Enumerates(order, known) && i <= |depends|
    ensures r.Some? ==> forall n :: n in r.value ==> n in known
    decreases |depends| - i
  {
    if i == |depends| then Some([])
    else
      var p := Provider(known, order, 0, depends[i]);
      var rest := Resolved(known, order, depends, i + 1);
      if rest.None? || (p.None? && Category(depends[i], 0) != "vendor") then None
      else if p.None? then rest
      else Some([p.value] + rest.value)
  }

  ghost function Prepend(list: seq<string>, r: Option<seq<string>>): Option<seq<string>> {
    if r.None? then None else Some(list + r.value)
  }

  lemma PrependTwice(list: seq<string>, name: string, r: Option<seq<string>>)
    ensures Prepend(list, Prepend([name], r)) == Prepend(list + [name], r)
  {
    if r.Some? { assert list + ([name] + r.value) == (list + [name]) + r.value; }
  }

  lemma PrependNothing(list: seq<string>, r: Option<seq<string>>)
    ensures Prepend([], r) == r && Prepend(list, Some([])) == Some(list)
  {
    assert list + [] == list;
    if r.Some? { assert [] + r.value == r.value; }
  }

  ghost predicate AllResolve(known: Known, order: seq<string>)
    requires Enumerates(order, known)
  {
    forall n :: n in known ==> Resolved(known, order, known[n].depends, 0).Some?
  }

  ghost function DependencyGraph(known: Known, order: seq<string>): (g: map<string, seq<string>>)
    requires Enumerates(order, known) && AllResolve(known, order)
    ensures g.Keys == known.Keys && Closed(g)
  {
    map n | n in known :: Resolved(known, order, known[n].depends, 0).value
  }

  // ----- what resolving means, apart from how it goes about it -----

  ghost predicate Provided(known: Known, dependency: ValidId) {
    exists n :: n in known && Provides(known[n], dependency)
  }

  /** Every dependency is provided by a known component, or is a vendor one. */
  ghost predicate Resolvable(known: Known, depends: seq<ValidId>) {
    forall k :: 0 <= k < |depends| ==>
      Provided(known, depends[k]) || (depends[k].categories != [] && depends[k].categories[0] == "vendor")
  }

  /** The component at position `i` of the iteration provides the dependency and none before it does. */
  ghost predicate FirstAt(known: Known, order: seq<string>, dependency: ValidId, i: nat)
    requires Enumerates(order, known) && i < |order|
  {
    Provides(known[order[i]], dependency) && forall j :: 0 <= j < i ==> !Provides(known[order[j]], dependency)
  }

  ghost predicate IsFirstProvider(known: Known, order: seq<string>, dependency: ValidId, n: string)
    requires Enumerates(order, known)
  {
    exists i: nat :: i < |order| && order[i] == n && FirstAt(known, order, dependency, i)
  }

  ghost predicate Ascending(ks: seq<nat>) {
    forall i, j :: 0 <= i < j < |ks| ==> ks[i] < ks[j]
  }

  /** `ks` are the positions, from `from` on, of the dependencies that somebody provides, and `list`
      names the first provider of each of them. */
  ghost predicate ListsAt(known: Known, order: seq<string>, depends: seq<ValidId>, from: nat, ks: seq<nat>, list: seq<string>)
    requires Enumerates(order, known)
  {
    && |ks| == |list|
    && (forall j :: 0 <= j < |ks| ==>
          from <= ks[j] < |depends| && IsFirstProvider(known, order, depends[ks[j]], list[j]))
    && Ascending(ks)
    && forall k :: from <= k < |depends| && Provided(known, depends[k]) ==> k in ks
  }

  /** `list` holds the first provider of each provided dependency, in the order of the dependencies. */
  ghost predicate ListsProviders(known: Known, order: seq<string>, depends: seq<ValidId>, list: seq<string>)
    requires Enumerates(order, known)
  {
    exists ks :: ListsAt(known, order, depends, 0, ks, list)
  }

  /** `r` is the first provider, or there is none at all. */
  ghost predicate ProviderOrNone(known: Known, order: seq<string>, dependency: ValidId, r: Option<string>)
    requires Enumerates(order, known)
  {
    if r.Some? then IsFirstProvider(known, order, dependency, r.value) else !Provided(known, dependency)
  }

  /** `r` is that list if every dependency can be resolved, and there is none otherwise. */
  ghost predicate Resolution(known: Known, order: seq<string>, depends: seq<ValidId>, r: Option<seq<string>>)
    requires Enumerates(order, known)
  {
    && (r.Some? <==> Resolvable(known, depends))
    && (r.Some? ==> ListsProviders(known, order, depends, r.value))
  }

  lemma {:induction false} ProviderFrom(known: Known, order: seq<string>, i: nat, dependency: ValidId)
    requires Enumerates(order, known) && i <= |order|
    requires forall j :: 0 <= j < i ==> !Provides(known[order[j]], dependency)
    ensures ProviderOrNone(known, order, dependency, Provider(known, order, i, dependency))
    decreases |order| - i
  {
    if i == |order| {
      assert forall n :: n in known ==> n in order;
    } else if Provides(known[order[i]], dependency) {
      assert FirstAt(known, order, dependency, i);
    } else {
      ProviderFrom(known, order, i + 1, dependency);
    }
  }

  /** The provider looked up is the one of least position in the iteration, and there is none
      exactly if no known component provides the dependency. */
  lemma {:induction false} ProviderIsFirst(known: Known, order: seq<string>, dependency: ValidId, p: string)
    requires Enumerates(order, known)
    ensures Provider(known, order, 0, dependency) == Some(p) <==> IsFirstProvider(known, order, dependency, p)
    ensures Provider(known, order, 0, dependency) == None <==> forall n :: n in known ==> !Provides(known[n], dependency)
  {
    ProviderFrom(known, order, 0, dependency);
    if IsFirstProvider(known, order, dependency, p) {
      var i: nat :| i < |order| && order[i] == p && FirstAt(known, order, dependency, i);
      assert order[i] in known;
      var q := Provider(known, order, 0, dependency).value;
      var j: nat :| j < |order| && order[j] == q && FirstAt(known, order, dependency, j);
      assert i == j;
    }
  }

  /** The list goes on with the first provider of one more dependency in front. */
  lemma {:induction false} ListsCons(known: Known, order: seq<string>, depends: seq<ValidId>, i: nat, ks: seq<nat>, list: seq<string>, p: string)
    requires Enumerates(order, known) && i < |depends| && ListsAt(known, order, depends, i + 1, ks, list)
    requires IsFirstProvider(known, order, depends[i], p)
    ensures ListsAt(known, order, depends, i, [i] + ks, [p] + list)
  {
    var ks', list' := [i] + ks, [p] + list;
    forall j | 0 <= j < |ks'| ensures i <= ks'[j] < |depends| && IsFirstProvider(known, order, depends[ks'[j]], list'[j]) {
      if j > 0 { assert ks'[j] == ks[j - 1] && list'[j] == list[j - 1]; }
    }
    AscendingCons(ks, i);
    forall k | i <= k < |depends| && Provided(known, depends[k]) ensures k in ks' {
      if k > i { assert k in ks; }
    }
  }

  lemma {:induction false} AscendingCons(ks: seq<nat>, i: nat)
    requires Ascending(ks) && forall j :: 0 <= j < |ks| ==> i < ks[j]
    ensures Ascending([i] + ks)
  {
    forall j, k | 0 <= j < k < |[i] + ks| ensures ([i] + ks)[j] < ([i] + ks)[k] {
      assert ([i] + ks)[k] == ks[k - 1];
      if j > 0 { assert ([i] + ks)[j] == ks[j - 1]; }
    }
  }

  /** Nobody provides the dependency at `i`: the list is that of the later ones. */
  lemma {:induction false} ListsSkip(known: Known, order: seq<string>, depends: seq<ValidId>, i: nat, ks: seq<nat>, list: seq<string>)
    requires Enumerates(order, known) && i < |depends| && ListsAt(known, order, depends, i + 1, ks, list)
    requires !Provided(known, depends[i])
    ensures ListsAt(known, order, depends, i, ks, list)
  {
    forall k | i <= k < |depends| && Provided(known, depends[k]) ensures k in ks {
      assert k != i;
    }
  }

  lemma {:induction false} ResolvableCons(known: Known, depends: seq<ValidId>, i: nat)
    requires i < |depends|
    ensures Resolvable(known, depends[i..]) <==>
      (Provided(known, depends[i]) || Category(depends[i], 0) == "vendor") && Resolvable(known, depends[i + 1..])
  {
    var all, rest := depends[i..], depends[i + 1..];
    assert all[0] == depends[i] && forall k :: 0 <= k < |rest| ==> rest[k] == all[k + 1];
    assert forall k :: 0 < k < |all| ==> all[k] == rest[k - 1];
  }

  /** As `Resolution`, for the dependencies from `i` on. */
  ghost predicate ResolutionFrom(known: Known, order: seq<string>, depends: seq<ValidId>, i: nat, ks: seq<nat>, r: Option<seq<string>>)
    requires Enumerates(order, known) && i <= |depends|
  {
    && (r.Some? <==> Resolvable(known, depends[i..]))
    && (r.Some? ==> ListsAt(known, order, depends, i, ks, r.value))
  }

  lemma {:induction false} FirstIsProvided(known: Known, order: seq<string>, dependency: ValidId, p: string)
    requires Enumerates(order, known) && IsFirstProvider(known, order, dependency, p)
    ensures Provided(known, dependency)
  {
    var i: nat :| i < |order| && order[i] == p && FirstAt(known, order, dependency, i);
    assert order[i] in known;
  }

  /** One more dependency in front. */
  lemma {:induction false} ResolutionStep(known: Known, order: seq<string>, depends: seq<ValidId>, i: nat, ks: seq<nat>,
      p: Option<string>, rest: Option<seq<string>>, r: Option<seq<string>>) returns (ks': seq<nat>)
    requires Enumerates(order, known) && i < |depends| && ProviderOrNone(known, order, depends[i], p)
    requires ResolutionFrom(known, order, depends, i + 1, ks, rest)
    requires r == if rest.None? || (p.None? && Category(depends[i], 0) != "vendor") then None
                  else if p.None? then rest else Some([p.value] + rest.value)
    ensures ResolutionFrom(known, order, depends, i, ks', r)
  {
    ResolvableCons(known, depends, i);
    ks' := ks;
    if p.Some? {
      FirstIsProvided(known, order, depends[i], p.value);
      ks' := [i] + ks;
      if rest.Some? { ListsCons(known, order, depends, i, ks, rest.value, p.value); }
    } else if rest.Some? {
      ListsSkip(known, order, depends, i, ks, rest.value);
    }
  }

  lemma {:induction false} ResolvedFrom(known: Known, order: seq<string>, depends: seq<ValidId>, i: nat) returns (ks: seq<nat>)
    requires Enumerates(order, known) && i <= |depends|
    ensures ResolutionFrom(known, order, depends, i, ks, Resolved(known, order, depends, i))
    decreases |depends| - i
  {
    ks := [];
    if i < |depends| {
      ks := ResolvedFrom(known, order, depends, i + 1);
      ProviderFrom(known, order, 0, depends[i]);
      ks := ResolutionStep(known, order, depends, i, ks, Provider(known, order, 0, depends[i]),
        Resolved(known, order, depends, i + 1), Resolved(known, order, depends, i));
    }
  }

  /** Resolving succeeds exactly if every dependency is provided or a vendor one, and then lists the
      first provider of each provided dependency, in their order. */
  lemma {:induction false} ResolvedExactly(known: Known, order: seq<string>, depends: seq<ValidId>)
    requires Enumerates(order, known)
    ensures Resolution(known, order, depends, Resolved(known, order, depends, 0))
  {
    var ks := ResolvedFrom(known, order, depends, 0);
    assert depends[0..] == depends;
  }

  /** There is only one such list. */
  lemma {:induction false} OneList(known: Known, order: seq<string>, depends: seq<ValidId>, list: seq<string>, list': seq<string>)
    requires Enumerates(order, known)
    requires ListsProviders(known, order, depends, list) && ListsProviders(known, order, depends, list')
    ensures list == list'
  {
    var ks :| ListsAt(known, order, depends, 0, ks, list);
    var ks' :| ListsAt(known, order, depends, 0, ks', list');
    SamePlaces(known, order, depends, ks, list, ks', list');
    assert ks == ks' by { SortedUnique(ks, ks'); }
    forall j | 0 <= j < |list| ensures list[j] == list'[j] {
      ProviderIsFirst(known, order, depends[ks[j]], list[j]);
      ProviderIsFirst(known, order, depends[ks[j]], list'[j]);
    }
  }

  lemma {:induction false} SamePlaces(known: Known, order: seq<string>, depends: seq<ValidId>, ks: seq<nat>, list: seq<string>, ks': seq<nat>, list': seq<string>)
    requires Enumerates(order, known)
    requires ListsAt(known, order, depends, 0, ks, list) && ListsAt(known, order, depends, 0, ks', list')
    ensures forall k :: k in ks <==> k in ks'
  {
    forall k ensures k in ks <==> k in ks' {
      if k in ks { var j :| 0 <= j < |ks| && ks[j] == k; FirstIsProvided(known, order, depends[k], list[j]); }
      if k in ks' { var j :| 0 <= j < |ks'| && ks'[j] == k; FirstIsProvided(known, order, depends[k], list'[j]); }
    }
  }

  lemma SomeMember(a: seq<nat>)
    ensures a != [] <==> exists k :: k in a
  {
    if a != [] { assert a[0] in a; }
  }

  /** Two ascending lists of the same numbers begin alike. */
  lemma {:induction false} SameFirst(a: seq<nat>, b: seq<nat>)
    requires Ascending(a) && Ascending(b) && a != [] && forall k :: k in a <==> k in b
    ensures b != [] && a[0] == b[0]
    ensures forall k :: k in a[1..] <==> k in b[1..]
  {
    assert a[0] in b;
    assert b[0] in a;
    forall k ensures k in a[1..] <==> k in b[1..] {
      assert k in a[1..] <==> k in a && k != a[0];
      assert k in b[1..] <==> k in b && k != b[0];
    }
  }

  lemma {:induction false} SortedUnique(a: seq<nat>, b: seq<nat>)
    requires Ascending(a) && Ascending(b) && forall k :: k in a <==> k in b
    ensures a == b
  {
    SomeMember(a);
    SomeMember(b);
    if a != [] {
      SameFirst(a, b);
      AscendingTail(a);
      AscendingTail(b);
      SortedUnique(a[1..], b[1..]);
      assert a == [a[0]] + a[1..] && b == [b[0]] + b[1..];
    }
  }

  lemma {:induction false} AscendingTail(a: seq<nat>)
    requires Ascending(a) && a != []
    ensures Ascending(a[1..])
  {
  }

  /** Each dependency is among the resolved ones, or nobody provides it and it is a vendor one. */
  lemma {:induction false} ResolvedContents(known: Known, order: seq<string>, depends: seq<ValidId>, i: nat, k: nat)
    requires Enumerates(order, known) && i <= k < |depends|
    requires Resolved(known, order, depends, i).Some?
    ensures match Provider(known, order, 0, depends[k])
      case Some(p) => p in Resolved(known, order, depends, i).value
      case None => Category(depends[k], 0) == "vendor"
    decreases |depends| - i
  {
    if i < k { ResolvedContents(known, order, depends, i + 1, k); }
  }

  /** One dependency of the component loaded at position `i` is taken care of: a provider of
      it is loaded earlier, or needs that very component, or it is an unprovided vendor one. */
  ghost predicate Satisfied(known: Known, g: map<string, seq<string>>, loaded: seq<string>, i: nat, dependency: ValidId)
    requires i < |loaded|
  {
    || (exists p :: p in known && Provides(known[p], dependency) && p in loaded[..i])
    || (exists p :: p in known && Provides(known[p], dependency) && p in loaded && Reach(g, p, loaded[i])
          && Edge(g, loaded[i], p))
    || (Category(dependency, 0) == "vendor" && forall p :: p in known ==> !Provides(known[p], dependency))
  }

  /** As `Satisfied`, without the escape through a cycle. */
  ghost predicate SatisfiedEarlier(known: Known, loaded: seq<string>, i: nat, dependency: ValidId)
    requires i < |loaded|
  {
    || (exists p :: p in known && Provides(known[p], dependency) && p in loaded[..i])
    || (Category(dependency, 0) == "vendor" && forall p :: p in known ==> !Provides(known[p], dependency))
  }

  lemma {:induction false} NoProvider(known: Known, order: seq<string>, i: nat, dependency: ValidId, k: nat)
    requires Enumerates(order, known) && i <= k < |order|
    requires Provider(known, order, i, dependency).None?
    ensures !Provides(known[order[k]], dependency)
    decreases |order| - i
  {
    if i < k { NoProvider(known, order, i + 1, dependency, k); }
  }

  lemma DependencySatisfied(known: Known, order: seq<string>, i: nat, k: nat)
    requires Enumerates(order, known) && AllResolve(known, order)
    requires var loaded := Sort(DependencyGraph(known, order), order); i < |loaded| && loaded[i] in known && k < |known[loaded[i]].depends|
    ensures var g := DependencyGraph(known, order); var loaded := Sort(g, order);
      && Satisfied(known, g, loaded, i, known[loaded[i]].depends[k])
      && (Acyclic(g) ==> SatisfiedEarlier(known, loaded, i, known[loaded[i]].depends[k]))
  {
    var g := DependencyGraph(known, order);
    var loaded := Sort(g, order);
    SortCorrect(g, order);
    var u := loaded[i];
    var dependency := known[u].depends[k];
    ResolvedContents(known, order, known[u].depends, 0, k);
    match Provider(known, order, 0, dependency) {
      case Some(p) =>
        assert Edge(g, u, p);
        assert p in order;
        ReachRefl(g, p);
        assert p in loaded;
        if p !in loaded[..i] {
          var j :| 0 <= j < |loaded| && loaded[j] == p;
          if j == i { ReachRefl(g, u); }
          assert Reach(g, p, u);
        }
      case None =>
        forall p | p in known ensures !Provides(known[p], dependency) {
          var j :| 0 <= j < |order| && order[j] == p;
          NoProvider(known, order, 0, dependency, j);
        }
    }
  }

  ghost predicate AllSatisfied(known: Known, g: map<string, seq<string>>, loaded: seq<string>) {
    forall i, k :: 0 <= i < |loaded| && loaded[i] in known && 0 <= k < |known[loaded[i]].depends| ==>
      Satisfied(known, g, loaded, i, known[loaded[i]].depends[k])
  }

  ghost predicate AllSatisfiedEarlier(known: Known, loaded: seq<string>) {
    forall i, k :: 0 <= i < |loaded| && loaded[i] in known && 0 <= k < |known[loaded[i]].depends| ==>
      SatisfiedEarlier(known, loaded, i, known[loaded[i]].depends[k])
  }

  /** The whole of what loading establishes. */
  ghost predicate LoadedInOrder(known: Known, g: map<string, seq<string>>, loaded: seq<string>) {
    && NoDup(loaded)
    && (forall n :: n in loaded <==> n in known)
    && AllSatisfied(known, g, loaded)
    && (Acyclic(g) ==> AllSatisfiedEarlier(known, loaded))
  }

  lemma SortListsAll(g: map<string, seq<string>>, order: seq<string>)
    requires Closed(g) && forall n :: n in order <==> n in g
    ensures NoDup(Sort(g, order)) && forall n :: n in Sort(g, order) <==> n in g
  {
    SortCorrect(g, order);
    forall n ensures n in Sort(g, order) <==> n in g {
      if ReachedFrom(g, order, n) {
        var e :| e in order && Reach(g, e, n);
        var p :| IsPath(g, p, e, n);
        ClosedSetContainsReach(g, g.Keys, p, e, n);
      }
      if n in g {
        ReachRefl(g, n);
        assert n in order;
      }
    }
  }

  /** Load order end to end, for every set of components and every iteration order of the
      hash map: each known component is listed exactly once and, without cycles, every
      dependency is provided by a component listed earlier (or is an absent vendor one). */
  lemma LoadOrder(known: Known, order: seq<string>)
    requires Enumerates(order, known) && AllResolve(known, order)
    ensures LoadedInOrder(known, DependencyGraph(known, order), Sort(DependencyGraph(known, order), order))
  {
    var g := DependencyGraph(known, order);
    var loaded := Sort(g, order);
    SortListsAll(g, order);
    forall i, k | 0 <= i < |loaded| && loaded[i] in known && 0 <= k < |known[loaded[i]].depends|
      ensures Satisfied(known, g, loaded, i, known[loaded[i]].depends[k])
      ensures Acyclic(g) ==> SatisfiedEarlier(known, loaded, i, known[loaded[i]].depends[k])
    {
      DependencySatisfied(known, order, i, k);
    }
  }

  /** The first `i` components of the iteration have their dependencies, the others none yet. */
  ghost predicate ResolvedUpTo(known: Known, order: seq<string>, deps: map<string, seq<string>>, i: nat)
    requires Enumerates(order, known) && deps.Keys == known.Keys
  {
    && (forall k :: i <= k < |order| ==> deps[order[k]] == [])
    && forall k :: 0 <= k < i && k < |order| ==> Resolved(known, order, known[order[k]].depends, 0) == Some(deps[order[k]])
  }

  lemma AllResolvedIsGraph(known: Known, order: seq<string>, deps: map<string, seq<string>>)
    requires Enumerates(order, known) && deps.Keys == known.Keys && ResolvedUpTo(known, order, deps, |order|)
    ensures AllResolve(known, order) && deps == DependencyGraph(known, order)
  {
    forall n | n in known ensures Resolved(known, order, known[n].depends, 0) == Some(deps[n]) {
      var k :| 0 <= k < |order| && order[k] == n;
    }
  }

  /** Every dependency of every known component is provided or a vendor one. */
  ghost predicate AllResolvable(known: Known) {
    forall n :: n in known ==> Resolvable(known, known[n].depends)
  }

  /** Each component has the first providers of its provided dependencies, in their order. */
  ghost predicate AllListed(known: Known, order: seq<string>, deps: map<string, seq<string>>)
    requires Enumerates(order, known)
  {
    deps.Keys == known.Keys && forall n :: n in known ==> ListsProviders(known, order, known[n].depends, deps[n])
  }

  lemma {:induction false} AllResolvedExactly(known: Known, order: seq<string>)
    requires Enumerates(order, known)
    ensures AllResolve(known, order) <==> AllResolvable(known)
    ensures AllResolve(known, order) ==> AllListed(known, order, DependencyGraph(known, order))
  {
    forall n | n in known ensures Resolution(known, order, known[n].depends, Resolved(known, order, known[n].depends, 0)) {
      ResolvedExactly(known, order, known[n].depends);
    }
  }

  /** Resolving succeeds exactly if it can, and then gives each component its list. */
  ghost predicate Settled(known: Known, order: seq<string>, deps: map<string, seq<string>>, ok: bool)
    requires Enumerates(order, known)
  {
    (ok <==> AllResolvable(known)) && (ok ==> AllListed(known, order, deps))
  }

  lemma {:induction false} ResolvedOrNot(known: Known, order: seq<string>, deps: map<string, seq<string>>, ok: bool)
    requires Enumerates(order, known) && ok == AllResolve(known, order) && (ok ==> deps == DependencyGraph(known, order))
    ensures Settled(known, order, deps, ok)
  {
    AllResolvedExactly(known, order);
  }

  class ComponentLoader {
    var known: Known
    var dependencies: map<string, seq<string>>  // m_dependencyComponents of each component
    var emptyEntries: set<string>               // names a lookup has left in the map without a component
    var isLoaded: set<string>                   // components whose m_isLoaded is set
    var loadedComponents: seq<string>

    ghost predicate Valid()
      reads this
    {
      dependencies.Keys == known.Keys && isLoaded <= known.Keys && emptyEntries !! known.Keys
      && forall n :: n in known ==> known[n].name == n
    }

    constructor ()
      ensures Valid() && known == map[] && emptyEntries == {} && loadedComponents == []
    {
      known := map[];
      dependencies := map[];
      emptyEntries := {};
      isLoaded := {};
      loadedComponents := [];
    }

    /** Inserting into the map keeps an existing entry of that name, also an empty one. */
    method AddComponent(c: Component)
      requires Valid()
      modifies this
      ensures Valid() && loadedComponents == old(loadedComponents) && isLoaded == old(isLoaded)
      ensures emptyEntries == old(emptyEntries)
      ensures known == if c.name in emptyEntries then old(known) else map[c.name := c] + old(known)
      ensures dependencies == if c.name in emptyEntries then old(dependencies) else map[c.name := []] + old(dependencies)
    {
      if c.name !in known && c.name !in emptyEntries {
        known := known[c.name := c];
        dependencies := dependencies[c.name := []];
      }
      if c.name !in emptyEntries {
        assert known == map[c.name := c] + old(known);
        assert dependencies == map[c.name := []] + old(dependencies);
      }
    }

    /** The component of that name, with `sticky` standing in for an absent `adhesive`. Looking up
        a name leaves an empty entry for it if there was none; without a component the process
        ends, which is no result here. */
    method LoadComponent(name: string) returns (r: Option<string>)
      requires Valid()
      modifies this`isLoaded, this`emptyEntries
      ensures Valid()
      ensures r == if name in known then Some(name)
                   else if name == "adhesive" && "sticky" in known then Some("sticky") else None
      ensures isLoaded == old(isLoaded) + if r.Some? then {r.value} else {}
      ensures emptyEntries == old(emptyEntries) + LookedUp(name) - known.Keys
    {
      var entry := Look(name);
      if entry.None? {
        if name == "adhesive" { entry := Look("sticky"); }
        if entry.None? { return None; }
      }
      r := entry;
      isLoaded := isLoaded + {r.value};
    }

    /** `operator[]` of the map. */
    method Look(name: string) returns (r: Option<string>)
      requires Valid()
      modifies this`emptyEntries
      ensures Valid() && r == if name in known then Some(name) else None
      ensures emptyEntries == old(emptyEntries) + {name} - known.Keys
    {
      if name in known { return Some(name); }
      emptyEntries := emptyEntries + {name};
      return None;
    }

    /** The names a call looks up, if it does not find a component before. */
    ghost function LookedUp(name: string): set<string>
      reads this
    {
      if name == "adhesive" && name !in known then {name, "sticky"} else {name}
    }

    method ProvidedBy(c: Component, dependency: ValidId) returns (r: bool)
      ensures r <==> Provides(c, dependency)
    {
      for k := 0 to |c.offers|
        invariant forall j :: 0 <= j < k ==> !Matched(dependency, c.offers[j])
      {
        var m := IsMatchedBy(dependency, c.offers[k]);
        if m { return true; }
      }
      return false;
    }

    method FirstProvider(order: seq<string>, dependency: ValidId) returns (r: Option<string>)
      requires Enumerates(order, known)
      ensures r == Provider(known, order, 0, dependency)
      ensures ProviderOrNone(known, order, dependency, r)
    {
      ProviderFrom(known, order, 0, dependency);
      for i := 0 to |order|
        invariant Provider(known, order, 0, dependency) == Provider(known, order, i, dependency)
      {
        var m := ProvidedBy(known[order[i]], dependency);
        if m { return Some(order[i]); }
      }
      return None;
    }

    method ResolveDepends(order: seq<string>, depends: seq<ValidId>) returns (r: Option<seq<string>>)
      requires Enumerates(order, known)
      ensures r == Resolved(known, order, depends, 0)
      ensures Resolution(known, order, depends, r)
    {
      ResolvedExactly(known, order, depends);
      ghost var all := Resolved(known, order, depends, 0);
      var list: seq<string> := [];
      PrependNothing(list, all);
      for i := 0 to |depends|
        invariant all == Prepend(list, Resolved(known, order, depends, i))
      {
        var p := FirstProvider(order, depends[i]);
        ghost var rest := Resolved(known, order, depends, i + 1);
        if p.Some? {
          PrependTwice(list, p.value, rest);
          list := list + [p.value];
        } else if Category(depends[i], 0) != "vendor" {
          return None;
        }
      }
      PrependNothing(list, None);
      return Some(list);
    }

    method LoadDependencies(order: seq<string>, name: string) returns (ok: bool)
      requires Valid() && Enumerates(order, known) && name in known && dependencies[name] == []
      modifies this`dependencies
      ensures Valid()
      ensures ok == Resolved(known, order, known[name].depends, 0).Some?
      ensures ok ==> dependencies == old(dependencies)[name := Resolved(known, order, known[name].depends, 0).value]
    {
      var list := ResolveDepends(order, known[name].depends);
      if list.None? { return false; }
      dependencies := dependencies[name := dependencies[name] + list.value];
      assert old(dependencies)[name] + list.value == list.value;
      return true;
    }

    method LoadAllDependencies(order: seq<string>) returns (ok: bool)
      requires Valid() && Enumerates(order, known)
      requires forall n :: n in known ==> dependencies[n] == []
      modifies this`dependencies
      ensures Valid()
      ensures ok == AllResolve(known, order)
      ensures ok ==> dependencies == DependencyGraph(known, order)
    {
      for i := 0 to |order|
        invariant Valid() && ResolvedUpTo(known, order, dependencies, i)
      {
        ok := LoadDependencies(order, order[i]);
        if !ok { return false; }
      }
      AllResolvedIsGraph(known, order, dependencies);
      return true;
    }

    /** Loads the sorted components one by one, rebuilding the list of loaded ones. */
    method LoadSorted(sorted: seq<string>)
      requires Valid() && forall i :: 0 <= i < |sorted| ==> sorted[i] in known
      modifies this`isLoaded, this`loadedComponents, this`emptyEntries
      ensures Valid() && loadedComponents == sorted && emptyEntries == old(emptyEntries)
      ensures isLoaded == old(isLoaded) + set n | n in sorted
    {
      loadedComponents := [];
      for i := 0 to |sorted|
        invariant Valid() && loadedComponents == sorted[..i] && emptyEntries == old(emptyEntries)
        invariant isLoaded == old(isLoaded) + set n | n in sorted[..i]
      {
        var comp := LoadComponent(known[sorted[i]].name);
        loadedComponents := loadedComponents + [comp.value];
      }
      assert sorted[..|sorted|] == sorted;
    }

    /** Sorts the resolved components and loads them. */
    method LoadInOrder(order: seq<string>)
      requires Valid() && Enumerates(order, known) && emptyEntries == {}
      requires AllResolve(known, order) && dependencies == DependencyGraph(known, order)
      modifies this`isLoaded, this`loadedComponents, this`emptyEntries
      ensures Valid() && emptyEntries == {}
      ensures LoadedInOrder(known, dependencies, loadedComponents) && isLoaded == known.Keys
    {
      LoadOrder(known, order);
      var sorter := new Sorter(dependencies);
      var sorted := sorter.Run(order);
      LoadSorted(sorted);
      assert (set n | n in sorted) == known.Keys;
    }

    /** The part of `Initialize` after all components were added. The loops over the map take every
        entry for a component. */
    method Initialize(order: seq<string>) returns (ok: bool)
      requires Valid() && Enumerates(order, known) && emptyEntries == {}
      requires forall n :: n in known ==> dependencies[n] == []
      modifies this
      ensures Valid() && known == old(known) && emptyEntries == old(emptyEntries)
      ensures ok == AllResolve(known, order)
      ensures ok ==> dependencies == DependencyGraph(known, order)
      ensures Settled(known, order, dependencies, ok)
      ensures ok ==> LoadedInOrder(known, dependencies, loadedComponents) && isLoaded == known.Keys
    {
      ok := LoadAllDependencies(order);
      if ok { LoadInOrder(order); }
      ResolvedOrNot(known, order, dependencies, ok);
    }
  }
}
