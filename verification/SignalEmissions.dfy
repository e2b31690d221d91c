/** What each signal emits, call by call and in order, after every operation on signals and slot
    objects, and which objects are then alive. */
module SignalEmissions {
  import opened SignalSlots

  /** No connection of the list leads to `d`. */
  ghost predicate Free(list: seq<Connection>, d: Address) {
    forall i :: 0 <= i < |list| ==> list[i].dest != d
  }

  ghost predicate Ascending(ks: seq<nat>) {
    forall i, j :: 0 <= i < j < |ks| ==> ks[i] < ks[j]
  }

  ghost predicate Within(ks: seq<nat>, from: nat, to: nat) {
    forall j :: 0 <= j < |ks| ==> from <= ks[j] < to
  }

  /** Exactly the positions from `from` on whose connection leads to `d`, or does not, are in `ks`. */
  ghost predicate Chosen(list: seq<Connection>, d: Address, leads: bool, from: nat, ks: seq<nat>) {
    forall i: nat :: i in ks <==> from <= i < |list| && (list[i].dest == d <==> leads)
  }

  /** Those positions, in order. */
  ghost predicate Places(list: seq<Connection>, d: Address, leads: bool, from: nat, ks: seq<nat>) {
    Within(ks, from, |list|) && Ascending(ks) && Chosen(list, d, leads, from, ks)
  }

  ghost predicate Copied(list: seq<Connection>, ks: seq<nat>, r: seq<Connection>) {
    |ks| == |r| && forall j :: 0 <= j < |ks| ==> ks[j] < |list| && r[j] == list[ks[j]]
  }

  /** As `Copied`, with another destination. */
  ghost predicate CopiedTo(list: seq<Connection>, ks: seq<nat>, d: Address, r: seq<Connection>) {
    |ks| == |r| && forall j :: 0 <= j < |ks| ==> ks[j] < |list| && r[j] == Connection(d, list[ks[j]].fn)
  }

  lemma {:induction false} AscendingCons(from: nat, to: nat, ks: seq<nat>)
    requires from < to && Within(ks, from + 1, to) && Ascending(ks)
    ensures Within(ks, from, to) && Within([from] + ks, from, to) && Ascending([from] + ks)
  {
  }

  lemma {:induction false} ChosenCons(list: seq<Connection>, d: Address, leads: bool, from: nat, ks: seq<nat>)
    requires from < |list| && Chosen(list, d, leads, from + 1, ks)
    ensures Chosen(list, d, leads, from, if list[from].dest == d <==> leads then [from] + ks else ks)
  {
  }

  lemma {:induction false} PlacesCons(list: seq<Connection>, d: Address, leads: bool, from: nat, ks: seq<nat>)
    requires from < |list| && Places(list, d, leads, from + 1, ks)
    ensures Places(list, d, leads, from, if list[from].dest == d <==> leads then [from] + ks else ks)
  {
    AscendingCons(from, |list|, ks);
    ChosenCons(list, d, leads, from, ks);
  }

  lemma {:induction false} CopiedCons(list: seq<Connection>, from: nat, ks: seq<nat>, r: seq<Connection>)
    requires from < |list| && Copied(list, ks, r)
    ensures Copied(list, [from] + ks, [list[from]] + r)
  {
  }

  lemma {:induction false} CopiedToCons(list: seq<Connection>, from: nat, ks: seq<nat>, d: Address, r: seq<Connection>)
    requires from < |list| && CopiedTo(list, ks, d, r)
    ensures CopiedTo(list, [from] + ks, d, [Connection(d, list[from].fn)] + r)
  {
  }

  lemma {:induction false} UnfoldWithout(list: seq<Connection>, d: Address, from: nat)
    requires from < |list|
    ensures var tail := Without(list[from + 1..], d);
      Without(list[from..], d) == if list[from].dest == d then tail else [list[from]] + tail
  {
    assert list[from..][1..] == list[from + 1..];
  }

  lemma {:induction false} WithoutFrom(list: seq<Connection>, d: Address, from: nat) returns (ks: seq<nat>)
    requires from <= |list|
    ensures Places(list, d, false, from, ks) && Copied(list, ks, Without(list[from..], d))
    decreases |list| - from
  {
    ks := [];
    if from < |list| {
      ks := WithoutFrom(list, d, from + 1);
      UnfoldWithout(list, d, from);
      PlacesCons(list, d, false, from, ks);
      CopiedCons(list, from, ks, Without(list[from + 1..], d));
      if list[from].dest != d { ks := [from] + ks; }
    }
  }

  lemma {:induction false} UnfoldRedirected(list: seq<Connection>, d: Address, d': Address, from: nat)
    requires from < |list|
    ensures var tail := Redirected(list[from + 1..], d, d');
      Redirected(list[from..], d, d') == if list[from].dest == d then [Connection(d', list[from].fn)] + tail else tail
  {
    assert list[from..][1..] == list[from + 1..];
  }

  lemma {:induction false} RedirectedFrom(list: seq<Connection>, d: Address, d': Address, from: nat) returns (ks: seq<nat>)
    requires from <= |list|
    ensures Places(list, d, true, from, ks) && CopiedTo(list, ks, d', Redirected(list[from..], d, d'))
    decreases |list| - from
  {
    ks := [];
    if from < |list| {
      ks := RedirectedFrom(list, d, d', from + 1);
      UnfoldRedirected(list, d, d', from);
      PlacesCons(list, d, true, from, ks);
      CopiedToCons(list, from, ks, d', Redirected(list[from + 1..], d, d'));
      if list[from].dest == d { ks := [from] + ks; }
    }
  }

  lemma {:induction false} FirstTakenOut(a: seq<Connection>, c: Connection, b: seq<Connection>)
    requires Free(a, c.dest)
    ensures WithoutFirst(a + [c] + b, c.dest) == a + b
  {
    var list := a + [c] + b;
    if a == [] {
      assert list[0] == c && list[1..] == b && a + b == b;
    } else {
      assert list[0] == a[0] && list[1..] == a[1..] + [c] + b;
      FirstTakenOut(a[1..], c, b);
      assert [a[0]] + (a[1..] + b) == a + b;
    }
  }

  /** The connections of `list` to `d` are gone, and the others left in their order. */
  ghost predicate Purged(list: seq<Connection>, d: Address, r: seq<Connection>) {
    exists ks :: Places(list, d, false, 0, ks) && Copied(list, ks, r)
  }

  /** After all of `list`, its calls on `d` are made again on `d'`, in their order. */
  ghost predicate Doubled(list: seq<Connection>, d: Address, d': Address, r: seq<Connection>) {
    list <= r && exists ks :: Places(list, d, true, 0, ks) && CopiedTo(list, ks, d', r[|list|..])
  }

  /** What signal `x` emitted as `list` it emits as `r` after the operation. */
  ghost predicate Emits(op: Op, x: Address, list: seq<Connection>, r: seq<Connection>) {
    match op
    case Connect(s, d, fn) => if x == s then r == list + [Connection(d, fn)] else r == list
    case Disconnect(s, d) =>
      if x == s && !Free(list, d)
      then exists i: nat :: i < |list| && list[i].dest == d && Free(list[..i], d) && r == list[..i] + list[i + 1..]
      else r == list
    case DisconnectSignal(s) => if x == s then r == [] else r == list
    case DisconnectSlots(d) => Purged(list, d, r)
    case DestroySlots(d) => Purged(list, d, r)
    case CopySlots(d, d') => Doubled(list, d, d', r)
    case _ => r == list
  }

  ghost function SignalsAfter(st: Store, op: Op): set<Address> {
    match op
    case MakeSignal(s) => st.signals.Keys + {s}
    case CopySignal(_, s') => st.signals.Keys + {s'}
    case DestroySignal(s) => st.signals.Keys - {s}
    case _ => st.signals.Keys
  }

  ghost function SlotsAfter(st: Store, op: Op): set<Address> {
    match op
    case MakeSlots(d) => st.slots.Keys + {d}
    case CopySlots(_, d') => st.slots.Keys + {d'}
    case DestroySlots(d) => st.slots.Keys - {d}
    case _ => st.slots.Keys
  }

  lemma {:induction false} FreeExactly(list: seq<Connection>, d: Address)
    ensures Count(list, d) == 0 <==> Free(list, d)
  {
    if list != [] {
      FreeExactly(list[1..], d);
      if Free(list[1..], d) && list[0].dest != d { assert forall i :: 0 < i < |list| ==> list[i] == list[1..][i - 1]; }
      if Free(list, d) { assert forall i :: 0 <= i < |list| - 1 ==> list[1..][i] == list[i + 1]; }
      if !Free(list[1..], d) {
        var i :| 0 <= i < |list[1..]| && list[1..][i].dest == d;
        assert list[i + 1].dest == d;
      }
    }
  }

  lemma {:induction false} DisconnectedEmission(list: seq<Connection>, d: Address)
    requires !Free(list, d)
    ensures exists i: nat :: i < |list| && list[i].dest == d && Free(list[..i], d) && WithoutFirst(list, d) == list[..i] + list[i + 1..]
  {
    var i := FirstPlace(list, d);
    assert list == list[..i] + [list[i]] + list[i + 1..];
    FirstTakenOut(list[..i], list[i], list[i + 1..]);
  }

  lemma {:induction false} FirstPlace(list: seq<Connection>, d: Address) returns (i: nat)
    requires !Free(list, d)
    ensures i < |list| && list[i].dest == d && Free(list[..i], d)
  {
    if list[0].dest == d {
      i := 0;
    } else {
      var k :| 0 <= k < |list| && list[k].dest == d;
      assert list[1..][k - 1] == list[k];
      var j := FirstPlace(list[1..], d);
      i := j + 1;
      assert forall m :: 0 < m < i ==> list[..i][m] == list[1..][..j][m - 1];
    }
  }

  lemma {:induction false} FreeStays(list: seq<Connection>, d: Address, d': Address)
    requires Free(list, d)
    ensures Without(list, d) == list && Redirected(list, d, d') == []
  {
    if list != [] {
      assert forall i :: 0 <= i < |list| - 1 ==> list[1..][i] == list[i + 1];
      FreeStays(list[1..], d, d');
    }
  }

  /** No connection to `d`: disconnecting it or copying it leaves the list as it is. */
  lemma {:induction false} Untouched(list: seq<Connection>, d: Address, d': Address)
    requires Free(list, d)
    ensures Purged(list, d, list) && Doubled(list, d, d', list)
  {
    FreeStays(list, d, d');
    PurgedEmission(list, d);
    DoubledEmission(list, d, d');
    assert list + [] == list;
  }

  lemma {:induction false} PurgedEmission(list: seq<Connection>, d: Address)
    ensures Purged(list, d, Without(list, d))
  {
    var ks := WithoutFrom(list, d, 0);
    assert list[0..] == list;
  }

  lemma {:induction false} DoubledEmission(list: seq<Connection>, d: Address, d': Address)
    ensures Doubled(list, d, d', list + Redirected(list, d, d'))
  {
    var ks := RedirectedFrom(list, d, d', 0);
    assert list[0..] == list;
    assert (list + Redirected(list, d, d'))[|list|..] == Redirected(list, d, d');
  }

  /** Every operation, from linked objects: which are alive afterwards, what each signal that was
      there emits, and that a copied signal emits the same. */
  lemma {:induction false} EmissionsAfter(st: Store, op: Op)
    requires Linked(st) && Possible(st, op)
    ensures Apply(st, op).signals.Keys == SignalsAfter(st, op) && Apply(st, op).slots.Keys == SlotsAfter(st, op)
    ensures forall x :: x in st.signals && x in Apply(st, op).signals ==> Emits(op, x, st.signals[x], Apply(st, op).signals[x])
    ensures op.MakeSignal? ==> Apply(st, op).signals[op.s] == []
    ensures op.CopySignal? ==> Apply(st, op).signals[op.s'] == st.signals[op.s]
  {
    forall x | x in st.signals && x in Apply(st, op).signals ensures Emits(op, x, st.signals[x], Apply(st, op).signals[x]) {
      SignalEmits(st, op, x);
    }
  }

  lemma {:induction false} SignalEmits(st: Store, op: Op, x: Address)
    requires Linked(st) && Possible(st, op) && x in st.signals && x in Apply(st, op).signals
    ensures Emits(op, x, st.signals[x], Apply(st, op).signals[x])
  {
    var list := st.signals[x];
    match op {
      case Disconnect(s, d) =>
        FreeExactly(list, d);
        if !Free(list, d) { DisconnectedEmission(list, d); }
      case DisconnectSlots(d) => AtSender(st, x, d, 0);
      case DestroySlots(d) => AtSender(st, x, d, 0);
      case CopySlots(d, d') => AtSender(st, x, d, d');
      case _ =>
    }
  }

  lemma {:induction false} AtSender(st: Store, x: Address, d: Address, d': Address)
    requires Linked(st) && x in st.signals && d in st.slots
    ensures Purged(st.signals[x], d, Dropped(st.signals, st.slots[d], d)[x])
    ensures Doubled(st.signals[x], d, d', Duplicated(st.signals, st.slots[d], d, d')[x])
  {
    assert Sends(st, x, d) <==> Lists(st, x, d);
    FreeExactly(st.signals[x], d);
    if x in st.slots[d] {
      PurgedEmission(st.signals[x], d);
      DoubledEmission(st.signals[x], d, d');
    } else {
      Untouched(st.signals[x], d, d');
    }
  }
}
