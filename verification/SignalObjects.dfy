/** The sigslot operations as the original runs them: loops over connection lists and sender
    sets that edit the objects in place. Each is shown to do what `SignalSlots.Apply` says. */
module SignalObjects {
  import opened SignalSlots

  lemma {:induction false} Assoc(a: seq<Connection>, b: seq<Connection>, c: seq<Connection>)
    ensures (a + b) + c == a + (b + c)
  {
  }

  lemma {:induction false} Snoc(a: seq<Connection>, c: Connection)
    requires a != []
    ensures (a + [c])[0] == a[0] && (a + [c])[1..] == a[1..] + [c]
  {
  }

  lemma {:induction false} RedirectedSnoc(a: seq<Connection>, c: Connection, from: Address, to: Address)
    ensures Redirected(a + [c], from, to) == Redirected(a, from, to) + if c.dest == from then [Connection(to, c.fn)] else []
  {
    if a == [] {
      assert a + [c] == [c] && [c][1..] == [];
    } else {
      Snoc(a, c);
      RedirectedSnoc(a[1..], c, from, to);
      Assoc(if a[0].dest == from then [Connection(to, a[0].fn)] else [], Redirected(a[1..], from, to),
        if c.dest == from then [Connection(to, c.fn)] else []);
    }
  }

  lemma {:induction false} WithoutSnoc(a: seq<Connection>, c: Connection, d: Address)
    ensures Without(a + [c], d) == Without(a, d) + if c.dest == d then [] else [c]
  {
    if a == [] {
      assert a + [c] == [c] && [c][1..] == [];
    } else {
      Snoc(a, c);
      WithoutSnoc(a[1..], c, d);
      Assoc(if a[0].dest == d then [] else [a[0]], Without(a[1..], d), if c.dest == d then [] else [c]);
    }
  }

  lemma {:induction false} FirstAt(list: seq<Connection>, d: Address, i: nat)
    requires i < |list| && list[i].dest == d && forall k :: 0 <= k < i ==> list[k].dest != d
    ensures WithoutFirst(list, d) == list[..i] + list[i + 1..] && Count(list, d) > 0
  {
    if i > 0 {
      FirstAt(list[1..], d, i - 1);
      assert [list[0]] + list[1..][..i - 1] == list[..i];
    }
  }

  lemma {:induction false} NoneIsCountZero(list: seq<Connection>, d: Address)
    requires forall k :: 0 <= k < |list| ==> list[k].dest != d
    ensures Count(list, d) == 0
  {
    if list != [] { NoneIsCountZero(list[1..], d); }
  }

  lemma {:induction false} SliceStep(all: seq<Connection>, k: nat)
    requires k < |all|
    ensures all[..k] + [all[k]] == all[..k + 1] && all[k..] == [all[k]] + all[k + 1..]
  {
  }

  /** Dropping or passing one connection, between those kept and those still to visit. */
  lemma {:induction false} DropOne(kept: seq<Connection>, c: Connection, rest: seq<Connection>)
    ensures var list := kept + ([c] + rest);
      list[|kept|] == c && list[..|kept|] + list[|kept| + 1..] == kept + rest && list == (kept + [c]) + rest
  {
  }

  /** The loop has dealt with `k` of the connections, of which it keeps `i`. */
  ghost predicate Erasing(all: seq<Connection>, k: nat, d: Address, list: seq<Connection>, i: nat) {
    k <= |all| && i == |Without(all[..k], d)| && list == Without(all[..k], d) + all[k..]
  }

  lemma {:induction false} EraseStep(all: seq<Connection>, k: nat, d: Address, list: seq<Connection>, i: nat)
    requires Erasing(all, k, d, list, i) && i < |list|
    ensures k < |all|
    ensures if list[i].dest == d then Erasing(all, k + 1, d, list[..i] + list[i + 1..], i) else Erasing(all, k + 1, d, list, i + 1)
  {
    SliceStep(all, k);
    WithoutSnoc(all[..k], all[k], d);
    DropOne(Without(all[..k], d), all[k], all[k + 1..]);
  }

  lemma {:induction false} EraseEnds(all: seq<Connection>, k: nat, d: Address, list: seq<Connection>)
    ensures Erasing(all, 0, d, all, 0)
    ensures Erasing(all, k, d, list, |list|) ==> list == Without(all, d)
  {
    assert all[..0] == [] && all[0..] == all && [] + all == all;
    if Erasing(all, k, d, list, |list|) {
      assert all[k..] == [] && all[..k] == all;
      assert Without(all, d) + [] == Without(all, d);
    }
  }

  /** The loop of `slot_disconnect`, which erases while it iterates. */
  method EraseConnections(all: seq<Connection>, d: Address) returns (list: seq<Connection>)
    ensures list == Without(all, d)
  {
    list := all;
    ghost var k := 0;
    EraseEnds(all, 0, d, all);
    var i := 0;
    while i < |list|
      invariant 0 <= i <= |list| && Erasing(all, k, d, list, i)
      decreases |all| - k
    {
      EraseStep(all, k, d, list, i);
      if list[i].dest == d {
        list := list[..i] + list[i + 1..];
      } else {
        i := i + 1;
      }
      k := k + 1;
    }
    EraseEnds(all, k, d, list);
  }

  // ----- appending while iterating -----

  /** The list after `n` rounds of the loop of `slot_duplicate`, which also visits what it appends. */
  function AfterRounds(all: seq<Connection>, from: Address, to: Address, n: nat): seq<Connection> {
    if n == 0 then all
    else
      var list := AfterRounds(all, from, to, n - 1);
      if n - 1 < |list| && list[n - 1].dest == from then list + [Connection(to, list[n - 1].fn)] else list
  }

  /** Whether what the loop appends, it will not duplicate again. */
  predicate Settles(all: seq<Connection>, from: Address, to: Address) {
    from != to || Count(all, from) == 0
  }

  lemma {:induction false} RedirectedDests(list: seq<Connection>, from: Address, to: Address)
    ensures |Redirected(list, from, to)| == Count(list, from)
    ensures forall i :: 0 <= i < |Redirected(list, from, to)| ==> Redirected(list, from, to)[i].dest == to
  {
    if list != [] { RedirectedDests(list[1..], from, to); }
  }

  lemma {:induction false} SettledRounds(all: seq<Connection>, from: Address, to: Address, n: nat)
    requires Settles(all, from, to)
    ensures AfterRounds(all, from, to, n) == all + Redirected(if n < |all| then all[..n] else all, from, to)
  {
    if n == 0 {
      assert all != [] ==> all[..0] == [];
      assert all + [] == all;
    } else {
      SettledRounds(all, from, to, n - 1);
      if n - 1 < |all| {
        assert all[..n - 1] + [all[n - 1]] == all[..n] && (n == |all| ==> all[..n] == all);
        RedirectedSnoc(all[..n - 1], all[n - 1], from, to);
        SettledRound(all, all[n - 1], from, to, Redirected(all[..n - 1], from, to), n - 1);
      } else {
        RedirectedDests(all, from, to);
      }
    }
  }

  lemma {:induction false} SettledRound(all: seq<Connection>, c: Connection, from: Address, to: Address, more: seq<Connection>, k: nat)
    requires k < |all| && all[k] == c
    ensures (all + more)[k] == c && (all + more) + [Connection(to, c.fn)] == all + (more + [Connection(to, c.fn)])
  {
  }

  lemma {:induction false} SomeConnection(list: seq<Connection>, d: Address) returns (i: nat)
    requires Count(list, d) > 0
    ensures i < |list| && list[i].dest == d
  {
    if list[0].dest == d {
      i := 0;
    } else {
      i := SomeConnection(list[1..], d);
      i := i + 1;
    }
  }

  /** With equal targets there is always another connection to duplicate at or after the cursor. */
  lemma {:induction false} StillAhead(all: seq<Connection>, d: Address, n: nat) returns (i: nat)
    requires Count(all, d) > 0
    ensures n <= i < |AfterRounds(all, d, d, n)| && AfterRounds(all, d, d, n)[i].dest == d
  {
    if n == 0 {
      i := SomeConnection(all, d);
    } else {
      i := StillAhead(all, d, n - 1);
      if i == n - 1 { i := |AfterRounds(all, d, d, n - 1)|; }
    }
  }

  /** The cursor reaches the end exactly if the targets differ or nothing is connected to them. */
  lemma DuplicationEndsExactly(all: seq<Connection>, from: Address, to: Address)
    ensures (exists n: nat :: |AfterRounds(all, from, to, n)| <= n) <==> Settles(all, from, to)
  {
    if Settles(all, from, to) {
      var n := |all| + |Redirected(all, from, to)|;
      SettledRounds(all, from, to, n);
      assert |AfterRounds(all, from, to, n)| <= n;
    } else {
      forall n: nat ensures |AfterRounds(all, from, to, n)| > n { var _ := StillAhead(all, from, n); }
    }
  }

  /** The loop of `slot_duplicate` leaves the list followed by one duplicate per connection to the
      old target. */
  method DuplicateConnections(all: seq<Connection>, from: Address, to: Address) returns (list: seq<Connection>)
    requires Settles(all, from, to)
    ensures list == all + Redirected(all, from, to)
  {
    list := all;
    SettledRounds(all, from, to, 0);
    ghost var whole := all + Redirected(all, from, to);
    var i := 0;
    while i < |list|
      invariant 0 <= i && |all| <= |list| && list == AfterRounds(all, from, to, i)
      invariant i >= |all| ==> list == whole
      invariant |list| <= |whole|
      decreases |whole| - i
    {
      SettledRounds(all, from, to, i + 1);
      RedirectedGrows(all, from, to, i + 1);
      if list[i].dest == from {
        list := list + [Connection(to, list[i].fn)];
      }
      i := i + 1;
    }
  }

  lemma {:induction false} RedirectedGrows(all: seq<Connection>, from: Address, to: Address, n: nat)
    ensures n < |all| ==> |Redirected(all[..n], from, to)| <= |Redirected(all, from, to)|
  {
    if n < |all| {
      RedirectedDests(all[..n], from, to);
      RedirectedDests(all, from, to);
      CountConcat(all[..n], all[n..], from);
      assert all[..n] + all[n..] == all;
    }
  }

  lemma CountPrefix(list: seq<Connection>, i: nat)
    requires i < |list|
    ensures forall d :: Count(list[..i + 1], d) == Count(list[..i], d) + if list[i].dest == d then 1 else 0
  {
    assert list[..i + 1] == list[..i] + [list[i]];
    forall d ensures Count(list[..i + 1], d) == Count(list[..i], d) + if list[i].dest == d then 1 else 0 {
      CountConcat(list[..i], [list[i]], d);
      assert [list[i]][1..] == [];
    }
  }

  lemma WithSenderStep(slots: map<Address, set<Address>>, list: seq<Connection>, i: nat, s: Address)
    requires i < |list| && list[i].dest in slots
    ensures WithSender(slots, list[..i + 1], s)
      == WithSender(slots, list[..i], s)[list[i].dest := WithSender(slots, list[..i], s)[list[i].dest] + {s}]
  {
    CountPrefix(list, i);
  }

  class Objects {
    var signals: map<Address, seq<Connection>>
    var slots: map<Address, set<Address>>

    ghost function St(): Store
      reads this
    {
      Store(signals, slots)
    }

    constructor ()
      ensures St() == Store(map[], map[])
    {
      signals := map[];
      slots := map[];
    }

    method ConnectSlot(s: Address, d: Address, fn: nat)
      requires s in signals && d in slots
      modifies this
      ensures St() == Apply(old(St()), Connect(s, d, fn))
    {
      signals := signals[s := signals[s] + [Connection(d, fn)]];
      slots := slots[d := slots[d] + {s}];
    }

    method DisconnectOne(s: Address, d: Address)
      requires s in signals && d in slots
      modifies this
      ensures St() == Apply(old(St()), Disconnect(s, d))
    {
      var list := signals[s];
      var i := 0;
      while i < |list|
        invariant i <= |list| && forall k :: 0 <= k < i ==> list[k].dest != d
      {
        if list[i].dest == d {
          FirstAt(list, d, i);
          signals := signals[s := list[..i] + list[i + 1..]];
          slots := slots[d := slots[d] - {s}];
          return;
        }
        i := i + 1;
      }
      NoneIsCountZero(list, d);
    }

    /** `slot_disconnect`. */
    method SlotDisconnect(s: Address, d: Address)
      requires s in signals
      modifies this`signals
      ensures signals == old(signals)[s := Without(old(signals)[s], d)]
    {
      var list := EraseConnections(signals[s], d);
      signals := signals[s := list];
    }

    /** `slot_duplicate`. */
    method SlotDuplicate(s: Address, from: Address, to: Address)
      requires s in signals && Settles(signals[s], from, to)
      modifies this`signals
      ensures signals == old(signals)[s := old(signals)[s] + Redirected(old(signals)[s], from, to)]
    {
      var list := DuplicateConnections(signals[s], from, to);
      signals := signals[s := list];
    }

    /** `disconnect_all` of a signal: tells every destination, once per connection. */
    method DisconnectAllSlots(s: Address)
      requires Linked(St()) && s in signals
      modifies this
      ensures St() == Apply(old(St()), DisconnectSignal(s))
    {
      NoDanglingLink(St());
      var list := signals[s];
      ghost var before := slots;
      for i := 0 to |list|
        invariant slots.Keys == before.Keys && signals == old(signals)
        invariant forall d :: d in slots ==> slots[d] == if Count(list[..i], d) > 0 then before[d] - {s} else before[d]
      {
        CountPrefix(list, i);
        slots := slots[list[i].dest := slots[list[i].dest] - {s}];
      }
      assert list[..|list|] == list;
      forall d | d in slots ensures slots[d] == before[d] - {s} {
        assert Sends(old(St()), s, d) <==> Lists(old(St()), s, d);
      }
      assert slots == WithoutSender(before, s);
      signals := signals[s := []];
    }

    method DeleteSignal(s: Address)
      requires Linked(St()) && s in signals
      modifies this
      ensures St() == Apply(old(St()), DestroySignal(s))
    {
      DisconnectAllSlots(s);
      signals := signals - {s};
      assert signals == old(signals) - {s};
    }

    /** `disconnect_all` of a slot object: each sender drops all its connections to it. */
    method DisconnectAllSenders(d: Address)
      requires Linked(St()) && d in slots
      modifies this
      ensures St() == Apply(old(St()), DisconnectSlots(d))
    {
      NoDanglingLink(St());
      ghost var before := signals;
      var todo := slots[d];
      while todo != {}
        invariant slots == old(slots) && todo <= slots[d]
        invariant signals == Dropped(before, slots[d] - todo, d)
        decreases todo
      {
        var s :| s in todo;
        assert signals[s] == before[s];
        SlotDisconnect(s, d);
        todo := todo - {s};
        assert signals == Dropped(before, slots[d] - todo, d);
      }
      assert slots[d] - {} == slots[d];
      slots := slots[d := {}];
    }

    method DeleteSlots(d: Address)
      requires Linked(St()) && d in slots
      modifies this
      ensures St() == Apply(old(St()), DestroySlots(d))
    {
      DisconnectAllSenders(d);
      slots := slots - {d};
      assert slots == old(slots) - {d};
    }

    /** The copy constructor of a signal. */
    method CloneSignal(s: Address, s': Address)
      requires Linked(St()) && s in signals && s' !in signals
      modifies this
      ensures St() == Apply(old(St()), CopySignal(s, s'))
    {
      NoDanglingLink(St());
      var list := signals[s];
      ghost var before := slots;
      var clones := [];
      assert slots == WithSender(before, list[..0], s');
      for i := 0 to |list|
        invariant clones == list[..i] && slots == WithSender(before, list[..i], s') && signals == old(signals)
      {
        WithSenderStep(before, list, i, s');
        slots := slots[list[i].dest := slots[list[i].dest] + {s'}];
        clones := clones + [list[i]];
        assert list[..i + 1] == list[..i] + [list[i]];
      }
      assert list[..|list|] == list;
      signals := signals[s' := clones];
    }

    /** The copy constructor of a slot object. */
    method CloneSlots(d: Address, d': Address)
      requires Linked(St()) && d in slots && d' !in slots
      modifies this
      ensures St() == Apply(old(St()), CopySlots(d, d'))
    {
      NoDanglingLink(St());
      ghost var before := signals;
      var todo := slots[d];
      var senders := {};
      while todo != {}
        invariant slots == old(slots) && todo <= slots[d] && senders == slots[d] - todo
        invariant signals == Duplicated(before, senders, d, d')
        decreases todo
      {
        var s :| s in todo;
        assert signals[s] == before[s];
        SlotDuplicate(s, d, d');
        senders := senders + {s};
        todo := todo - {s};
        assert signals == Duplicated(before, senders, d, d');
      }
      assert senders == slots[d];
      slots := slots[d' := senders];
    }
  }
}
