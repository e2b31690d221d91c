/** sigslot with no signal arguments: signals hold lists of connections to slot objects, slot
    objects hold the set of signals connected to them. Both are edited in place, and both kinds
    of object can be copied and destroyed. Objects are named by their addresses. */
module SignalSlots {

  type Address = nat

  /** `fn` names the member function a connection calls. */
  datatype Connection = Connection(dest: Address, fn: nat)

  /** The live objects: `m_connected_slots` of each signal, `m_senders` of each slot object. */
  datatype Store = Store(signals: map<Address, seq<Connection>>, slots: map<Address, set<Address>>)

  /** Live signal `s` has a connection to the object at `d`. */
  ghost predicate Sends(st: Store, s: Address, d: Address) {
    s in st.signals && Count(st.signals[s], d) > 0
  }

  /** Live slot object `d` lists `s` among its senders. */
  ghost predicate Lists(st: Store, s: Address, d: Address) {
    d in st.slots && s in st.slots[d]
  }

  /** Links run in both directions or in none; as only live objects have links, no link of a
      live object leads to a destroyed one. */
  ghost predicate Linked(st: Store) {
    forall s, d :: Sends(st, s, d) <==> Lists(st, s, d)
  }

  // ----- what the operations do to a list of connections -----

  function Without(list: seq<Connection>, d: Address): seq<Connection> {
    if list == [] then []
    else (if list[0].dest == d then [] else [list[0]]) + Without(list[1..], d)
  }

  /** The connections to `from`, redirected to `to`, in order. */
  function Redirected(list: seq<Connection>, from: Address, to: Address): seq<Connection> {
    if list == [] then []
    else (if list[0].dest == from then [Connection(to, list[0].fn)] else []) + Redirected(list[1..], from, to)
  }

  /** The list without its first connection to `d`, if it has one. */
  function WithoutFirst(list: seq<Connection>, d: Address): seq<Connection> {
    if list == [] then []
    else if list[0].dest == d then list[1..]
    else [list[0]] + WithoutFirst(list[1..], d)
  }

  function Count(list: seq<Connection>, d: Address): nat {
    if list == [] then 0 else (if list[0].dest == d then 1 else 0) + Count(list[1..], d)
  }

  /** The functions an emission calls on object `d`, in order. */
  function CallsOn(list: seq<Connection>, d: Address): seq<nat> {
    if list == [] then []
    else (if list[0].dest == d then [list[0].fn] else []) + CallsOn(list[1..], d)
  }

  lemma {:induction false} CountAt(list: seq<Connection>, i: nat)
    requires i < |list|
    ensures Count(list, list[i].dest) > 0
  {
    if i > 0 { CountAt(list[1..], i - 1); }
  }

  lemma {:induction false} CountConcat(a: seq<Connection>, b: seq<Connection>, d: Address)
    ensures Count(a + b, d) == Count(a, d) + Count(b, d)
  {
    if a == [] {
      assert a + b == b;
    } else {
      assert (a + b)[1..] == a[1..] + b;
      CountConcat(a[1..], b, d);
    }
  }

  lemma {:induction false} CountWithout(list: seq<Connection>, d: Address, e: Address)
    ensures Count(Without(list, d), e) == if e == d then 0 else Count(list, e)
  {
    if list != [] {
      CountWithout(list[1..], d, e);
      CountConcat(if list[0].dest == d then [] else [list[0]], Without(list[1..], d), e);
    }
  }

  lemma {:induction false} CountRedirected(list: seq<Connection>, from: Address, to: Address, e: Address)
    ensures Count(Redirected(list, from, to), e) == if e == to then Count(list, from) else 0
  {
    if list != [] {
      CountRedirected(list[1..], from, to, e);
      CountConcat(if list[0].dest == from then [Connection(to, list[0].fn)] else [], Redirected(list[1..], from, to), e);
    }
  }

  lemma {:induction false} CountWithoutFirst(list: seq<Connection>, d: Address, e: Address)
    ensures Count(WithoutFirst(list, d), e) == Count(list, e) - if e == d && Count(list, d) > 0 then 1 else 0
  {
    if list != [] && list[0].dest != d {
      CountWithoutFirst(list[1..], d, e);
      assert WithoutFirst(list, d)[1..] == WithoutFirst(list[1..], d);
    }
  }

  lemma {:induction false} CallsConcat(a: seq<Connection>, b: seq<Connection>, d: Address)
    ensures CallsOn(a + b, d) == CallsOn(a, d) + CallsOn(b, d)
  {
    if a == [] {
      assert a + b == b;
    } else {
      assert (a + b)[1..] == a[1..] + b;
      CallsConcat(a[1..], b, d);
      var first := if a[0].dest == d then [a[0].fn] else [];
      assert CallsOn(a + b, d) == first + (CallsOn(a[1..], d) + CallsOn(b, d));
      assert CallsOn(a, d) == first + CallsOn(a[1..], d);
    }
  }

  lemma {:induction false} CallsRedirected(list: seq<Connection>, from: Address, to: Address)
    ensures CallsOn(Redirected(list, from, to), to) == CallsOn(list, from)
  {
    if list != [] {
      CallsRedirected(list[1..], from, to);
      CallsConcat(if list[0].dest == from then [Connection(to, list[0].fn)] else [], Redirected(list[1..], from, to), to);
    }
  }

  lemma {:induction false} NoCallsWithoutConnection(list: seq<Connection>, d: Address)
    requires Count(list, d) == 0
    ensures CallsOn(list, d) == []
  {
    if list != [] { NoCallsWithoutConnection(list[1..], d); }
  }

  /** Every emission and every disconnection finds its other end alive. */
  lemma NoDanglingLink(st: Store)
    requires Linked(st)
    ensures forall s, i :: s in st.signals && 0 <= i < |st.signals[s]| ==> st.signals[s][i].dest in st.slots
    ensures forall d, s :: d in st.slots && s in st.slots[d] ==> s in st.signals
  {
    forall s, i | s in st.signals && 0 <= i < |st.signals[s]| ensures st.signals[s][i].dest in st.slots {
      CountAt(st.signals[s], i);
      assert Sends(st, s, st.signals[s][i].dest);
    }
    forall d, s | d in st.slots && s in st.slots[d] ensures s in st.signals {
      assert Lists(st, s, d);
    }
  }

  // ----- the operations on the store -----

  datatype Op =
    | MakeSignal(s: Address)
    | MakeSlots(d: Address)
    | Connect(s: Address, d: Address, fn: nat)
    | Disconnect(s: Address, d: Address)
    | DisconnectSignal(s: Address)   // signal::disconnect_all
    | DisconnectSlots(d: Address)    // has_slots::disconnect_all
    | DestroySignal(s: Address)
    | DestroySlots(d: Address)
    | CopySignal(s: Address, s': Address)
    | CopySlots(d: Address, d': Address)

  /** Operations act on live objects, and a new object takes an unused address. */
  predicate Possible(st: Store, op: Op) {
    match op
    case MakeSignal(s) => s !in st.signals
    case MakeSlots(d) => d !in st.slots
    case Connect(s, d, _) => s in st.signals && d in st.slots
    case Disconnect(s, d) => s in st.signals && d in st.slots
    case DisconnectSignal(s) => s in st.signals
    case DisconnectSlots(d) => d in st.slots
    case DestroySignal(s) => s in st.signals
    case DestroySlots(d) => d in st.slots
    case CopySignal(s, s') => s in st.signals && s' !in st.signals
    case CopySlots(d, d') => d in st.slots && d' !in st.slots
  }

  function WithoutSender(slots: map<Address, set<Address>>, s: Address): map<Address, set<Address>> {
    map d | d in slots :: slots[d] - {s}
  }

  /** What disconnecting slot object `d` leaves of each of the signals in `senders`. */
  function Dropped(signals: map<Address, seq<Connection>>, senders: set<Address>, d: Address): map<Address, seq<Connection>> {
    map s | s in signals :: if s in senders then Without(signals[s], d) else signals[s]
  }

  /** What copying slot object `d` to `d'` makes of each of the signals in `senders`. */
  function Duplicated(signals: map<Address, seq<Connection>>, senders: set<Address>, d: Address, d': Address)
    : map<Address, seq<Connection>>
  {
    map s | s in signals :: if s in senders then signals[s] + Redirected(signals[s], d, d') else signals[s]
  }

  /** The copy `s'` of a signal becomes a sender of all objects the list connects to. */
  function WithSender(slots: map<Address, set<Address>>, list: seq<Connection>, s': Address): map<Address, set<Address>> {
    map d | d in slots :: if Count(list, d) > 0 then slots[d] + {s'} else slots[d]
  }

  function Apply(st: Store, op: Op): Store
    requires Possible(st, op)
  {
    match op
    case MakeSignal(s) => st.(signals := st.signals[s := []])
    case MakeSlots(d) => st.(slots := st.slots[d := {}])
    case Connect(s, d, fn) =>
      Store(st.signals[s := st.signals[s] + [Connection(d, fn)]], st.slots[d := st.slots[d] + {s}])
    case Disconnect(s, d) =>
      if Count(st.signals[s], d) == 0 then st
      else Store(st.signals[s := WithoutFirst(st.signals[s], d)], st.slots[d := st.slots[d] - {s}])
    case DisconnectSignal(s) => Store(st.signals[s := []], WithoutSender(st.slots, s))
    case DestroySignal(s) => Store(st.signals - {s}, WithoutSender(st.slots, s))
    case DisconnectSlots(d) => Store(Dropped(st.signals, st.slots[d], d), st.slots[d := {}])
    case DestroySlots(d) => Store(Dropped(st.signals, st.slots[d], d), st.slots - {d})
    case CopySignal(s, s') => Store(st.signals[s' := st.signals[s]], WithSender(st.slots, st.signals[s], s'))
    case CopySlots(d, d') => Store(Duplicated(st.signals, st.slots[d], d, d'), st.slots[d' := st.slots[d]])
  }

  /** `disconnect` is used only on a destination with at most one connection. */
  predicate Single(st: Store, op: Op)
    requires Possible(st, op)
  {
    op.Disconnect? ==> Count(st.signals[op.s], op.d) <= 1
  }

  lemma DisconnectLinksExactly(st: Store, s: Address, d: Address)
    requires Linked(st) && Possible(st, Disconnect(s, d))
    ensures Linked(Apply(st, Disconnect(s, d))) <==> Count(st.signals[s], d) <= 1
  {
    var st' := Apply(st, Disconnect(s, d));
    if Count(st.signals[s], d) > 1 {
      CountWithoutFirst(st.signals[s], d, d);
      assert Sends(st', s, d) && !Lists(st', s, d);
    } else {
      forall x, e ensures Sends(st', x, e) <==> Lists(st', x, e) {
        assert Sends(st, x, e) <==> Lists(st, x, e);
        CountWithoutFirst(st.signals[s], d, e);
      }
    }
  }

  lemma ConnectKeepsLinked(st: Store, s: Address, d: Address, fn: nat)
    requires Linked(st) && Possible(st, Connect(s, d, fn))
    ensures Linked(Apply(st, Connect(s, d, fn)))
  {
    var st' := Apply(st, Connect(s, d, fn));
    forall x, e ensures Sends(st', x, e) <==> Lists(st', x, e) {
      assert Sends(st, x, e) <==> Lists(st, x, e);
      CountConcat(st.signals[s], [Connection(d, fn)], e);
    }
  }

  lemma SignalGoneKeepsLinked(st: Store, op: Op)
    requires Linked(st) && Possible(st, op) && (op.DisconnectSignal? || op.DestroySignal?)
    ensures Linked(Apply(st, op))
  {
    var st' := Apply(st, op);
    forall x, e ensures Sends(st', x, e) <==> Lists(st', x, e) {
      assert Sends(st, x, e) <==> Lists(st, x, e);
    }
  }

  lemma SlotsGoneKeepsLinked(st: Store, op: Op)
    requires Linked(st) && Possible(st, op) && (op.DisconnectSlots? || op.DestroySlots?)
    ensures Linked(Apply(st, op))
  {
    var st' := Apply(st, op);
    forall x, e ensures Sends(st', x, e) <==> Lists(st', x, e) {
      assert Sends(st, x, e) <==> Lists(st, x, e);
      assert Sends(st, x, op.d) <==> Lists(st, x, op.d);
      if x in st.signals { CountWithout(st.signals[x], op.d, e); }
    }
  }

  lemma CopySignalKeepsLinked(st: Store, s: Address, s': Address)
    requires Linked(st) && Possible(st, CopySignal(s, s'))
    ensures Linked(Apply(st, CopySignal(s, s')))
  {
    var st' := Apply(st, CopySignal(s, s'));
    forall x, e ensures Sends(st', x, e) <==> Lists(st', x, e) {
      assert Sends(st, x, e) <==> Lists(st, x, e);
      assert Sends(st, s, e) <==> Lists(st, s, e);
    }
  }

  lemma CopySlotsKeepsLinked(st: Store, d: Address, d': Address)
    requires Linked(st) && Possible(st, CopySlots(d, d'))
    ensures Linked(Apply(st, CopySlots(d, d')))
  {
    var st' := Apply(st, CopySlots(d, d'));
    forall x, e ensures Sends(st', x, e) <==> Lists(st', x, e) {
      assert Sends(st, x, e) <==> Lists(st, x, e);
      assert Sends(st, x, d) <==> Lists(st, x, d);
      assert Sends(st, x, d') <==> Lists(st, x, d');
      if x in st.signals {
        CountRedirected(st.signals[x], d, d', e);
        CountConcat(st.signals[x], Redirected(st.signals[x], d, d'), e);
      }
    }
  }

  lemma OpKeepsLinked(st: Store, op: Op)
    requires Linked(st) && Possible(st, op) && Single(st, op)
    ensures Linked(Apply(st, op))
  {
    match op {
      case Connect(s, d, fn) => ConnectKeepsLinked(st, s, d, fn);
      case Disconnect(s, d) => DisconnectLinksExactly(st, s, d);
      case DisconnectSignal(_) => SignalGoneKeepsLinked(st, op);
      case DestroySignal(_) => SignalGoneKeepsLinked(st, op);
      case DisconnectSlots(_) => SlotsGoneKeepsLinked(st, op);
      case DestroySlots(_) => SlotsGoneKeepsLinked(st, op);
      case CopySignal(s, s') => CopySignalKeepsLinked(st, s, s');
      case CopySlots(d, d') => CopySlotsKeepsLinked(st, d, d');
      case MakeSignal(s) =>
        forall x, e ensures Sends(Apply(st, op), x, e) <==> Lists(Apply(st, op), x, e) {
          assert Sends(st, x, e) <==> Lists(st, x, e);
        }
      case MakeSlots(d) =>
        forall x, e ensures Sends(Apply(st, op), x, e) <==> Lists(Apply(st, op), x, e) {
          assert Sends(st, x, e) <==> Lists(st, x, e);
        }
    }
  }

  /** Any operations on live objects, one after the other. */
  ghost predicate Steps(states: seq<Store>, ops: seq<Op>) {
    && |states| == |ops| + 1
    && forall i :: 0 <= i < |ops| ==> Possible(states[i], ops[i]) && states[i + 1] == Apply(states[i], ops[i])
  }

  ghost predicate Run(states: seq<Store>, ops: seq<Op>) {
    Steps(states, ops) && forall i :: 0 <= i < |ops| ==> Single(states[i], ops[i])
  }

  /** No dangling links over any run of the operations, from no objects at all. */
  lemma {:induction false} RunKeepsLinked(states: seq<Store>, ops: seq<Op>, i: nat)
    requires Run(states, ops) && states[0] == Store(map[], map[]) && i < |states|
    ensures Linked(states[i])
  {
    if i > 0 {
      RunKeepsLinked(states, ops, i - 1);
      OpKeepsLinked(states[i - 1], ops[i - 1]);
    }
  }

  /** Over any operations on live objects, from no objects at all: links stay consistent throughout
      exactly if every `disconnect` met a destination with at most one connection. */
  lemma LinkedExactly(states: seq<Store>, ops: seq<Op>)
    requires Steps(states, ops) && states[0] == Store(map[], map[])
    ensures (forall i :: 0 <= i < |states| ==> Linked(states[i])) <==> (forall i :: 0 <= i < |ops| ==> Single(states[i], ops[i]))
  {
    if forall i :: 0 <= i < |ops| ==> Single(states[i], ops[i]) {
      forall i | 0 <= i < |states| ensures Linked(states[i]) { RunKeepsLinked(states, ops, i); }
    }
    if forall i :: 0 <= i < |states| ==> Linked(states[i]) {
      forall i | 0 <= i < |ops| ensures Single(states[i], ops[i]) {
        assert Linked(states[i]) && Linked(states[i + 1]) && states[i + 1] == Apply(states[i], ops[i]);
        if ops[i].Disconnect? { DisconnectLinksExactly(states[i], ops[i].s, ops[i].d); }
      }
    }
  }

  /** Otherwise a link is left behind: once the destination is destroyed, the signal still
      holds a connection to it. */
  lemma DoubleConnectionDangles(st: Store, s: Address, d: Address)
    requires Linked(st) && Possible(st, Disconnect(s, d)) && Count(st.signals[s], d) > 1
    ensures var st' := Apply(Apply(st, Disconnect(s, d)), DestroySlots(d)); Sends(st', s, d) && d !in st'.slots
  {
    CountWithoutFirst(st.signals[s], d, d);
  }

  /** The store after connecting `d` to `s` twice. */
  function Twice(s: Address, d: Address, f: nat, f': nat): Store {
    Store(map[s := [Connection(d, f), Connection(d, f')]], map[d := {s}])
  }

  lemma TwiceLinked(s: Address, d: Address, f: nat, f': nat)
    ensures Linked(Twice(s, d, f, f')) && Count(Twice(s, d, f, f').signals[s], d) == 2
  {
    var list := [Connection(d, f), Connection(d, f')];
    assert list[1..] == [Connection(d, f')] && list[1..][1..] == [];
    forall e ensures Count(list, e) == if e == d then 2 else 0 {
      assert Count(list[1..], e) == if e == d then 1 else 0;
    }
    assert Twice(s, d, f, f').signals[s] == list;
  }

  lemma ConnectTwice(s: Address, d: Address, f: nat, f': nat)
    ensures var one := Store(map[s := [Connection(d, f)]], map[d := {s}]);
      && Apply(Store(map[s := []], map[d := {}]), Connect(s, d, f)) == one
      && Apply(one, Connect(s, d, f')) == Twice(s, d, f, f')
  {
    assert [] + [Connection(d, f)] == [Connection(d, f)];
    assert [Connection(d, f)] + [Connection(d, f')] == [Connection(d, f), Connection(d, f')];
    assert {} + {s} == {s} && {s} + {s} == {s};
    assert map[s := []][s := [Connection(d, f)]] == map[s := [Connection(d, f)]];
    assert map[d := {}][d := {s}] == map[d := {s}] == map[d := {s}][d := {s}];
    assert map[s := [Connection(d, f)]][s := [Connection(d, f), Connection(d, f')]] == map[s := [Connection(d, f), Connection(d, f')]];
  }

  /** It takes two connections, whichever functions they call, and one disconnection. */
  lemma DanglingRun(s: Address, d: Address, f: nat, f': nat) returns (states: seq<Store>, ops: seq<Op>)
    ensures Steps(states, ops) && states[0] == Store(map[], map[])
    ensures ops == [MakeSignal(s), MakeSlots(d), Connect(s, d, f), Connect(s, d, f'), Disconnect(s, d), DestroySlots(d)]
    ensures !Linked(states[5]) && Sends(states[6], s, d) && d !in states[6].slots
  {
    var st4 := Twice(s, d, f, f');
    TwiceLinked(s, d, f, f');
    ConnectTwice(s, d, f, f');
    DisconnectLinksExactly(st4, s, d);
    DoubleConnectionDangles(st4, s, d);
    var st5 := Apply(st4, Disconnect(s, d));
    states := [
      Store(map[], map[]), Store(map[s := []], map[]), Store(map[s := []], map[d := {}]),
      Store(map[s := [Connection(d, f)]], map[d := {s}]), st4, st5, Apply(st5, DestroySlots(d))];
    ops := [MakeSignal(s), MakeSlots(d), Connect(s, d, f), Connect(s, d, f'), Disconnect(s, d), DestroySlots(d)];
  }

  /** A copied slot object is called like its original, by the same signals, and what the
      signals call on other objects does not change. */
  lemma CopyIsCalledAlike(st: Store, d: Address, d': Address, s: Address, e: Address)
    requires Linked(st) && Possible(st, CopySlots(d, d')) && s in st.signals
    ensures var st' := Apply(st, CopySlots(d, d'));
      CallsOn(st'.signals[s], e) == if e == d' then CallsOn(st.signals[s], d) else CallsOn(st.signals[s], e)
  {
    var list := st.signals[s];
    assert Sends(st, s, d) <==> Lists(st, s, d);
    assert Sends(st, s, d') <==> Lists(st, s, d');
    NoCallsWithoutConnection(list, d');
    if s in st.slots[d] {
      CallsConcat(list, Redirected(list, d, d'), e);
      CallsRedirected(list, d, d');
      if e != d' {
        CountRedirected(list, d, d', e);
        NoCallsWithoutConnection(Redirected(list, d, d'), e);
      }
    } else {
      NoCallsWithoutConnection(list, d);
    }
  }
}
