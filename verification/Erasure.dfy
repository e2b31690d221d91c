/** Type-erased function wrappers (function2): a callable is boxed in the wrapper's own buffer if
    it fits there and on the heap otherwise, and a per-type command table moves, copies and
    destroys it. Wrappers are named by their addresses. */
module Erasure {
  import opened Options

  type Address = nat

  /** A callable: its type, which the command table is made for, and which one of that type. */
  datatype Callable = Callable(ty: nat, id: nat)

  /** A constructed box. For the specification, `destroyed` counts how often its destructor
      ran and `owner` is the wrapper it was last made for or handed to. */
  datatype Box = Box(fn: Callable, heap: bool, owner: Address, destroyed: nat)

  /** `cmd_` and `vtable_` of a wrapper: the empty table, or the one of a boxed type. */
  datatype Table = Empty | Inplace(ty: nat) | Allocated(ty: nat)

  /** The union of the buffer and the heap pointer, holding or pointing to a box. */
  datatype Data = Raw | Object(box: nat) | Pointer(box: nat)

  datatype Wrapper = Wrapper(table: Table, data: Data)

  /** `misused` records that a command touched a box after its destruction. */
  datatype State = State(boxes: seq<Box>, wrappers: map<Address, Wrapper>, misused: bool)

  /** Whether a box of type `ty` fits the buffer at this address: size, capacity and alignment. */
  type Fit = (nat, Address) -> bool

  /** `retrieve`: the box a non-empty wrapper's commands act on. */
  function Retrieve(w: Wrapper): Option<nat> {
    match w
    case Wrapper(Inplace(_), Object(b)) => Some(b)
    case Wrapper(Allocated(_), Pointer(b)) => Some(b)
    case _ => None
  }

  // ----- commands -----

  /** `construct`: places a new box of `fn` for wrapper `to`. */
  function Construct(fits: Fit, st: State, to: Address, fn: Callable): State {
    var b := |st.boxes|;
    var w := if fits(fn.ty, to) then Wrapper(Inplace(fn.ty), Object(b)) else Wrapper(Allocated(fn.ty), Pointer(b));
    st.(boxes := st.boxes + [Box(fn, !fits(fn.ty, to), to, 0)], wrappers := st.wrappers[to := w])
  }

  function Misuses(st: State, b: nat): bool {
    b >= |st.boxes| || st.boxes[b].destroyed > 0
  }

  function DestroyBox(st: State, b: nat): State {
    if b >= |st.boxes| then st.(misused := true)
    else State(st.boxes[b := st.boxes[b].(destroyed := st.boxes[b].destroyed + 1)], st.wrappers, st.misused || Misuses(st, b))
  }

  function SetEmpty(st: State, w: Address): State
    requires w in st.wrappers
  {
    st.(wrappers := st.wrappers[w := st.wrappers[w].(table := Empty)])
  }

  function HandOver(st: State, w: Wrapper, to: Address): State {
    if w.data.Pointer? && w.data.box < |st.boxes|
    then st.(boxes := st.boxes[w.data.box := st.boxes[w.data.box].(owner := to)])
    else st
  }

  /** `vtable::move`: op_move, then the source's table becomes the empty one. */
  function Move(fits: Fit, st: State, from: Address, to: Address): State
    requires from in st.wrappers && to in st.wrappers
  {
    var w := st.wrappers[from];
    var moved :=
      match w.table
      case Empty => SetEmpty(st, to)
      case Allocated(ty) =>
        HandOver(st, w, to).(wrappers := st.wrappers[to := Wrapper(Allocated(ty), w.data)])
      case Inplace(_) =>
        match Retrieve(w)
        case None => st.(misused := true)
        case Some(b) =>
          if b >= |st.boxes| then st.(misused := true)
          else DestroyBox(Construct(fits, st, to, st.boxes[b].fn), b);
    SetEmpty(moved, from)
  }

  /** `vtable::copy`. */
  function Copy(fits: Fit, st: State, from: Address, to: Address): State
    requires from in st.wrappers && to in st.wrappers
  {
    var w := st.wrappers[from];
    if w.table == Empty then SetEmpty(st, to)
    else
      match Retrieve(w)
      case None => st.(misused := true)
      case Some(b) =>
        if b >= |st.boxes| then st.(misused := true)
        else Construct(fits, st.(misused := st.misused || Misuses(st, b)), to, st.boxes[b].fn)
  }

  /** `vtable::weak_destroy`: the table is left as it is. */
  function WeakDestroy(st: State, w: Address): State
    requires w in st.wrappers
  {
    if st.wrappers[w].table == Empty then st
    else
      match Retrieve(st.wrappers[w])
      case None => st.(misused := true)
      case Some(b) => DestroyBox(st, b)
  }

  // ----- the wrapper operations -----

  datatype Op =
    | New(w: Address, fn: Option<Callable>)      // None: an empty callable or nullptr
    | MoveNew(from: Address, w: Address)
    | CopyNew(from: Address, w: Address)
    | MoveAssign(from: Address, w: Address)
    | CopyAssign(from: Address, w: Address)
    | Assign(w: Address, fn: Option<Callable>)   // None: operator=(nullptr)
    | Swap(w: Address, other: Address)
    | Delete(w: Address)

  /** Storage for a wrapper that is being constructed. */
  function Fresh(st: State, w: Address): State {
    st.(wrappers := st.wrappers[w := Wrapper(Empty, Raw)])
  }

  /** The temporary `cache` of `swap` lives at an address of its own. */
  predicate Possible(st: State, op: Op, cache: Address) {
    match op
    case New(w, _) => w !in st.wrappers
    case MoveNew(from, w) => from in st.wrappers && w !in st.wrappers
    case CopyNew(from, w) => from in st.wrappers && w !in st.wrappers
    case MoveAssign(from, w) => from in st.wrappers && w in st.wrappers
    case CopyAssign(from, w) => from in st.wrappers && w in st.wrappers
    case Assign(w, _) => w in st.wrappers
    case Swap(w, other) => w in st.wrappers && other in st.wrappers && cache !in st.wrappers
    case Delete(w) => w in st.wrappers
  }

  function Remove(st: State, w: Address): State {
    st.(wrappers := st.wrappers - {w})
  }

  function MoveAssigned(fits: Fit, st: State, from: Address, to: Address): State
    requires from in st.wrappers && to in st.wrappers
  {
    Move(fits, WeakDestroy(st, to), from, to)
  }

  /** The rest of `swap`, once the other wrapper is in the cache. */
  function SwapBack(fits: Fit, st: State, w: Address, other: Address, cache: Address): State
    requires w in st.wrappers && other in st.wrappers && cache in st.wrappers
  {
    var s2 := MoveAssigned(fits, st, w, other);
    var s3 := MoveAssigned(fits, s2, cache, w);
    Remove(WeakDestroy(s3, cache), cache)
  }

  function Apply(fits: Fit, st: State, op: Op, cache: Address): State
    requires Possible(st, op, cache)
  {
    match op
    case New(w, fn) => if fn.None? then Fresh(st, w) else Construct(fits, Fresh(st, w), w, fn.value)
    case MoveNew(from, w) => Move(fits, Fresh(st, w), from, w)
    case CopyNew(from, w) => Copy(fits, Fresh(st, w), from, w)
    case MoveAssign(from, w) => MoveAssigned(fits, st, from, w)
    case CopyAssign(from, w) => Copy(fits, WeakDestroy(st, w), from, w)
    case Assign(w, fn) =>
      if fn.None? then SetEmpty(WeakDestroy(st, w), w) else Construct(fits, WeakDestroy(st, w), w, fn.value)
    case Swap(w, other) =>
      if w == other then st
      else
        var s1 := Move(fits, Fresh(st, cache), other, cache);
        SwapBack(fits, s1, w, other, cache)
    case Delete(w) => Remove(WeakDestroy(st, w), w)
  }

  // ----- ownership -----

  ghost predicate Owns(st: State, w: Address, b: nat) {
    w in st.wrappers && Retrieve(st.wrappers[w]) == Some(b)
  }

  /** A non-empty wrapper owns one live box of the type its table is made for. */
  ghost predicate WrapperOk(st: State, w: Address)
    requires w in st.wrappers
  {
    var x := st.wrappers[w];
    x.table != Empty ==>
      && Retrieve(x).Some? && Retrieve(x).value < |st.boxes|
      && var box := st.boxes[Retrieve(x).value];
        && box.destroyed == 0 && box.owner == w
        && box.fn.ty == x.table.ty && box.heap == x.table.Allocated?
  }

  /** A box that is not destroyed belongs to a wrapper; no box is destroyed twice. */
  ghost predicate BoxOk(st: State, b: nat, hole: int)
    requires b < |st.boxes|
  {
    && st.boxes[b].destroyed <= 1
    && (st.boxes[b].destroyed == 0 ==> st.boxes[b].owner != hole && Owns(st, st.boxes[b].owner, b))
  }

  /** Ownership, except for what is left in the wrapper `hole` (none, if negative). */
  ghost predicate OwnedBut(st: State, hole: int) {
    && !st.misused
    && (forall w :: w in st.wrappers && w != hole ==> WrapperOk(st, w))
    && (forall b :: 0 <= b < |st.boxes| ==> BoxOk(st, b, hole))
  }

  /** Each box is destroyed at most once, never used afterwards, and if it is not destroyed yet
      exactly one wrapper owns it: see `OneOwner`. */
  ghost predicate Owned(st: State) {
    OwnedBut(st, -1)
  }

  lemma OneOwner(st: State, b: nat)
    requires Owned(st) && b < |st.boxes|
    ensures st.boxes[b].destroyed == 0 <==> exists w: Address :: Owns(st, w, b)
    ensures forall v, w :: Owns(st, v, b) && Owns(st, w, b) ==> v == w
  {
    assert BoxOk(st, b, -1);
    forall w: Address | Owns(st, w, b) ensures st.boxes[b].destroyed == 0 && st.boxes[b].owner == w {
      assert WrapperOk(st, w);
    }
  }

  /** What `invoke` runs. */
  function Target(st: State, w: Address): Option<Callable>
    requires w in st.wrappers
  {
    match Retrieve(st.wrappers[w])
    case None => None
    case Some(b) => if b < |st.boxes| then Some(st.boxes[b].fn) else None
  }

  /** Two states agree on everything but `hole`: same wrappers, same targets. */
  ghost predicate SameTargetsBut(a: State, b: State, hole: int) {
    && (forall w :: w != hole ==> (w in a.wrappers <==> w in b.wrappers))
    && (forall w :: w in a.wrappers && w in b.wrappers && w != hole ==> Target(a, w) == Target(b, w))
  }

  lemma FreshOwned(st: State, w: Address)
    requires Owned(st) && w !in st.wrappers
    ensures OwnedBut(Fresh(st, w), w) && Owned(Fresh(st, w))
    ensures SameTargetsBut(st, Fresh(st, w), w) && Target(Fresh(st, w), w) == None
  {
    var st' := Fresh(st, w);
    forall b | 0 <= b < |st.boxes| ensures BoxOk(st', b, w) && BoxOk(st', b, -1) { assert BoxOk(st, b, -1); }
    forall v | v in st.wrappers ensures WrapperOk(st', v) { assert WrapperOk(st, v); }
  }

  /** A construction in a hole fills it. */
  lemma ConstructOwned(fits: Fit, st: State, to: Address, fn: Callable)
    requires OwnedBut(st, to)
    ensures Owned(Construct(fits, st, to, fn))
    ensures SameTargetsBut(st, Construct(fits, st, to, fn), to) && Target(Construct(fits, st, to, fn), to) == Some(fn)
  {
    var st' := Construct(fits, st, to, fn);
    forall b | 0 <= b < |st.boxes| ensures BoxOk(st', b, -1) { assert BoxOk(st, b, to); }
    forall v | v in st.wrappers && v != to ensures WrapperOk(st', v) && Target(st', v) == Target(st, v) {
      assert WrapperOk(st, v);
    }
  }

  /** Destroying the box of a wrapper leaves a hole there. */
  lemma WeakDestroyOwned(st: State, w: Address)
    requires Owned(st) && w in st.wrappers
    ensures OwnedBut(WeakDestroy(st, w), w) && SameTargetsBut(st, WeakDestroy(st, w), w)
    ensures WeakDestroy(st, w).wrappers == st.wrappers
  {
    var st' := WeakDestroy(st, w);
    assert WrapperOk(st, w);
    forall b | 0 <= b < |st.boxes| ensures BoxOk(st', b, w) { assert BoxOk(st, b, -1); }
    forall v | v in st.wrappers && v != w ensures WrapperOk(st', v) && Target(st', v) == Target(st, v) {
      assert WrapperOk(st, v);
    }
  }

  lemma SetEmptyOwned(st: State, w: Address)
    requires OwnedBut(st, w) && w in st.wrappers
    ensures Owned(SetEmpty(st, w)) && SameTargetsBut(st, SetEmpty(st, w), w) && Target(SetEmpty(st, w), w) == None
  {
    var st' := SetEmpty(st, w);
    forall b | 0 <= b < |st.boxes| ensures BoxOk(st', b, -1) { assert BoxOk(st, b, w); }
    forall v | v in st.wrappers && v != w ensures WrapperOk(st', v) { assert WrapperOk(st, v); }
  }

  lemma RemoveOwned(st: State, w: Address)
    requires OwnedBut(st, w)
    ensures Owned(Remove(st, w)) && SameTargetsBut(st, Remove(st, w), w) && w !in Remove(st, w).wrappers
  {
    var st' := Remove(st, w);
    forall b | 0 <= b < |st.boxes| ensures BoxOk(st', b, -1) { assert BoxOk(st, b, w); }
    forall v | v in st.wrappers && v != w ensures WrapperOk(st', v) { assert WrapperOk(st, v); }
  }

  /** The heap pointer changes hands. */
  lemma MoveAllocatedOwned(fits: Fit, st: State, from: Address, to: Address)
    requires OwnedBut(st, to) && from in st.wrappers && to in st.wrappers && from != to
    requires st.wrappers[from].table.Allocated?
    ensures var r := Move(fits, st, from, to);
      && Owned(r) && Target(r, to) == Target(st, from) && Target(r, from) == None
      && r.wrappers.Keys == st.wrappers.Keys
      && forall v :: v in st.wrappers && v != from && v != to ==> Target(r, v) == Target(st, v)
  {
    var r := Move(fits, st, from, to);
    assert WrapperOk(st, from);
    forall b | 0 <= b < |st.boxes| ensures BoxOk(r, b, -1) { assert BoxOk(st, b, to); }
    forall v | v in st.wrappers && v != to && v != from ensures WrapperOk(r, v) && Target(r, v) == Target(st, v) {
      assert WrapperOk(st, v);
    }
  }

  /** The box in the buffer is moved into a new one, perhaps on the heap, and destroyed. */
  lemma MoveInplaceOwned(fits: Fit, st: State, from: Address, to: Address)
    requires OwnedBut(st, to) && from in st.wrappers && to in st.wrappers && from != to
    requires st.wrappers[from].table.Inplace?
    ensures var r := Move(fits, st, from, to);
      && Owned(r) && Target(r, to) == Target(st, from) && Target(r, from) == None
      && r.wrappers.Keys == st.wrappers.Keys
      && forall v :: v in st.wrappers && v != from && v != to ==> Target(r, v) == Target(st, v)
  {
    assert WrapperOk(st, from);
    var b0 := Retrieve(st.wrappers[from]).value;
    var s1 := Construct(fits, st, to, st.boxes[b0].fn);
    ConstructOwned(fits, st, to, st.boxes[b0].fn);
    WeakDestroyOwned(s1, from);
    SetEmptyOwned(WeakDestroy(s1, from), from);
    assert Move(fits, st, from, to) == SetEmpty(WeakDestroy(s1, from), from);
  }

  lemma MoveEmptyOwned(fits: Fit, st: State, from: Address, to: Address)
    requires OwnedBut(st, to) && from in st.wrappers && to in st.wrappers && from != to
    requires st.wrappers[from].table == Empty
    ensures var r := Move(fits, st, from, to);
      && Owned(r) && r == SetEmpty(st, to) && SameTargetsBut(st, r, to) && Target(r, to) == None
  {
    SetEmptyOwned(st, to);
    var s1 := SetEmpty(st, to);
    assert s1.wrappers[from := s1.wrappers[from].(table := Empty)] == s1.wrappers;
  }

  lemma CopyOwned(fits: Fit, st: State, from: Address, to: Address)
    requires OwnedBut(st, to) && from in st.wrappers && to in st.wrappers && from != to
    ensures Owned(Copy(fits, st, from, to)) && SameTargetsBut(st, Copy(fits, st, from, to), to)
    ensures to in Copy(fits, st, from, to).wrappers && Target(Copy(fits, st, from, to), to) == Target(st, from)
  {
    assert WrapperOk(st, from);
    if st.wrappers[from].table == Empty {
      SetEmptyOwned(st, to);
    } else {
      ConstructOwned(fits, st, to, st.boxes[Retrieve(st.wrappers[from]).value].fn);
    }
  }

  // ----- runs -----

  /** The meaning of a state: which callable each wrapper runs, wherever it is stored. */
  function Meaning(st: State): (m: map<Address, Option<Callable>>)
    ensures m.Keys == st.wrappers.Keys
  {
    map w | w in st.wrappers :: Target(st, w)
  }

  /** What the operations mean, with no mention of boxes or storage. */
  function Expected(m: map<Address, Option<Callable>>, op: Op): map<Address, Option<Callable>> {
    match op
    case New(w, fn) => m[w := fn]
    case Assign(w, fn) => m[w := fn]
    case MoveNew(from, w) => if from in m then m[w := m[from]][from := None] else m
    case MoveAssign(from, w) => if from in m then m[w := m[from]][from := None] else m
    case CopyNew(from, w) => if from in m then m[w := m[from]] else m
    case CopyAssign(from, w) => if from in m then m[w := m[from]] else m
    case Swap(w, other) => if w in m && other in m then m[w := m[other]][other := m[w]] else m
    case Delete(w) => m - {w}
  }

  predicate Distinct(op: Op) {
    (op.MoveAssign? || op.CopyAssign?) ==> op.from != op.w
  }

  ghost predicate Does(st: State, op: Op, st': State) {
    Owned(st') && Meaning(st') == Expected(Meaning(st), op)
  }

  lemma {:induction false} MoveOwned(fits: Fit, st: State, from: Address, to: Address)
    requires OwnedBut(st, to) && from in st.wrappers && to in st.wrappers && from != to
    ensures var r := Move(fits, st, from, to);
      && Owned(r) && Target(r, to) == Target(st, from) && Target(r, from) == None
      && r.wrappers.Keys == st.wrappers.Keys
      && forall v :: v in st.wrappers && v != from && v != to ==> Target(r, v) == Target(st, v)
  {
    if st.wrappers[from].table.Allocated? { MoveAllocatedOwned(fits, st, from, to); }
    else if st.wrappers[from].table.Inplace? { MoveInplaceOwned(fits, st, from, to); }
    else { MoveEmptyOwned(fits, st, from, to); }
  }

  /** What a move means, once the wrappers are compared one by one. */
  lemma {:induction false} MeaningMoved(st: State, r: State, from: Address, to: Address)
    requires from in st.wrappers && to in st.wrappers && from != to && r.wrappers.Keys == st.wrappers.Keys
    requires Target(r, to) == Target(st, from) && Target(r, from) == None
    requires forall v :: v in st.wrappers && v != from && v != to ==> Target(r, v) == Target(st, v)
    ensures Meaning(r) == Meaning(st)[to := Meaning(st)[from]][from := None]
  {
  }

  lemma MoveDoes(fits: Fit, st: State, from: Address, to: Address)
    requires OwnedBut(st, to) && from in st.wrappers && to in st.wrappers && from != to
    ensures Owned(Move(fits, st, from, to))
    ensures Meaning(Move(fits, st, from, to)) == Meaning(st)[to := Meaning(st)[from]][from := None]
  {
    MoveOwned(fits, st, from, to);
    MeaningMoved(st, Move(fits, st, from, to), from, to);
  }

  lemma Overwritten(m: map<Address, Option<Callable>>, w: Address, x: Option<Callable>)
    ensures m[w := None][w := x] == m[w := x]
  {
  }

  /** What the wrappers other than a hollow one mean is not affected by its destruction. */
  lemma HollowMeaning(st: State, w: Address, fn: Option<Callable>)
    requires Owned(st) && w in st.wrappers
    ensures OwnedBut(WeakDestroy(st, w), w) && w in WeakDestroy(st, w).wrappers
    ensures Meaning(WeakDestroy(st, w))[w := fn] == Meaning(st)[w := fn]
  {
    WeakDestroyOwned(st, w);
  }

  lemma MoveAssignDoes(fits: Fit, st: State, from: Address, to: Address)
    requires Owned(st) && from in st.wrappers && to in st.wrappers && from != to
    ensures Owned(MoveAssigned(fits, st, from, to))
    ensures Meaning(MoveAssigned(fits, st, from, to)) == Meaning(st)[to := Meaning(st)[from]][from := None]
  {
    WeakDestroyOwned(st, to);
    HollowMeaning(st, to, Target(st, from));
    MoveDoes(fits, WeakDestroy(st, to), from, to);
  }

  lemma DeleteDoes(st: State, w: Address)
    requires Owned(st) && w in st.wrappers
    ensures Does(st, Delete(w), Remove(WeakDestroy(st, w), w))
  {
    WeakDestroyOwned(st, w);
    RemoveOwned(WeakDestroy(st, w), w);
  }

  /** A new wrapper starts as an empty one, in which something may be constructed. */
  lemma FreshDoes(st: State, w: Address)
    requires Owned(st) && w !in st.wrappers
    ensures Owned(Fresh(st, w)) && OwnedBut(Fresh(st, w), w) && w in Fresh(st, w).wrappers
    ensures Meaning(Fresh(st, w)) == Meaning(st)[w := None]
    ensures forall v :: v in st.wrappers ==> Target(Fresh(st, w), v) == Meaning(st)[v]
  {
    FreshOwned(st, w);
    MeaningUpdate(st, Fresh(st, w), w, None);
  }

  lemma MeaningUpdate(a: State, b: State, w: Address, x: Option<Callable>)
    requires SameTargetsBut(a, b, w) && w in b.wrappers && Target(b, w) == x
    ensures Meaning(b) == Meaning(a)[w := x]
  {
  }

  lemma ConstructDoes(fits: Fit, st: State, to: Address, fn: Callable)
    requires OwnedBut(st, to) && to in st.wrappers
    ensures Owned(Construct(fits, st, to, fn))
    ensures Meaning(Construct(fits, st, to, fn)) == Meaning(st)[to := Some(fn)]
  {
    ConstructOwned(fits, st, to, fn);
  }

  lemma CopyDoes(fits: Fit, st: State, from: Address, to: Address)
    requires OwnedBut(st, to) && from in st.wrappers && to in st.wrappers && from != to
    ensures Owned(Copy(fits, st, from, to))
    ensures Meaning(Copy(fits, st, from, to)) == Meaning(st)[to := Target(st, from)]
  {
    CopyOwned(fits, st, from, to);
  }

  /** The three moves of `swap`, in terms of what the wrappers mean. */
  lemma ThreeMoves(m: map<Address, Option<Callable>>, w: Address, other: Address, cache: Address)
    requires w in m && other in m && cache !in m && w != other
    ensures var m1 := m[cache := m[other]][other := None];
      var m2 := m1[other := m1[w]][w := None];
      var m3 := m2[w := m2[cache]][cache := None];
      m3 - {cache} == Expected(m, Swap(w, other))
  {
  }

  /** `cache = std::move(other)`, a move construction. */
  lemma MoveNewDoes(fits: Fit, st: State, from: Address, w: Address)
    requires Owned(st) && from in st.wrappers && w !in st.wrappers
    ensures Does(st, MoveNew(from, w), Move(fits, Fresh(st, w), from, w))
  {
    FreshDoes(st, w);
    MoveDoes(fits, Fresh(st, w), from, w);
    Overwritten(Meaning(st), w, Meaning(st)[from]);
  }

  lemma CopyNewDoes(fits: Fit, st: State, from: Address, w: Address)
    requires Owned(st) && from in st.wrappers && w !in st.wrappers
    ensures Does(st, CopyNew(from, w), Copy(fits, Fresh(st, w), from, w))
  {
    FreshDoes(st, w);
    CopyDoes(fits, Fresh(st, w), from, w);
    Overwritten(Meaning(st), w, Meaning(st)[from]);
  }

  lemma NewDoes(fits: Fit, st: State, w: Address, fn: Callable)
    requires Owned(st) && w !in st.wrappers
    ensures Does(st, New(w, Some(fn)), Construct(fits, Fresh(st, w), w, fn))
  {
    FreshDoes(st, w);
    ConstructDoes(fits, Fresh(st, w), w, fn);
    Overwritten(Meaning(st), w, Some(fn));
  }

  lemma CopyAssignDoes(fits: Fit, st: State, from: Address, w: Address)
    requires Owned(st) && from in st.wrappers && w in st.wrappers && from != w
    ensures Does(st, CopyAssign(from, w), Copy(fits, WeakDestroy(st, w), from, w))
  {
    WeakDestroyOwned(st, w);
    HollowMeaning(st, w, Target(st, from));
    CopyDoes(fits, WeakDestroy(st, w), from, w);
  }

  lemma AssignDoes(fits: Fit, st: State, w: Address, fn: Callable)
    requires Owned(st) && w in st.wrappers
    ensures Does(st, Assign(w, Some(fn)), Construct(fits, WeakDestroy(st, w), w, fn))
  {
    HollowMeaning(st, w, Some(fn));
    ConstructDoes(fits, WeakDestroy(st, w), w, fn);
  }

  lemma ClearDoes(st: State, w: Address)
    requires Owned(st) && w in st.wrappers
    ensures Does(st, Assign(w, None), SetEmpty(WeakDestroy(st, w), w))
  {
    HollowMeaning(st, w, None);
    SetEmptyOwned(WeakDestroy(st, w), w);
  }

  /** The last move of `swap`, and the end of the cache. */
  lemma {:induction false} CacheBackDoes(fits: Fit, st: State, w: Address, cache: Address)
    requires Owned(st) && w in st.wrappers && cache in st.wrappers && w != cache
    ensures cache in MoveAssigned(fits, st, cache, w).wrappers
    ensures var r := Remove(WeakDestroy(MoveAssigned(fits, st, cache, w), cache), cache);
      Owned(r) && Meaning(r) == Meaning(st)[w := Meaning(st)[cache]][cache := None] - {cache}
  {
    MoveAssignDoes(fits, st, cache, w);
    DeleteDoes(MoveAssigned(fits, st, cache, w), cache);
  }

  lemma SwapBackDoes(fits: Fit, st: State, w: Address, other: Address, cache: Address)
    requires Owned(st) && w in st.wrappers && other in st.wrappers && cache in st.wrappers
    requires w != other && w != cache && other != cache
    ensures Owned(SwapBack(fits, st, w, other, cache))
    ensures var m2 := Meaning(st)[other := Meaning(st)[w]][w := None];
      Meaning(SwapBack(fits, st, w, other, cache)) == m2[w := m2[cache]][cache := None] - {cache}
  {
    MoveAssignDoes(fits, st, w, other);
    CacheBackDoes(fits, MoveAssigned(fits, st, w, other), w, cache);
  }

  lemma SwapDoes(fits: Fit, st: State, w: Address, other: Address, cache: Address)
    requires Owned(st) && Possible(st, Swap(w, other), cache) && w != other
    ensures Does(st, Swap(w, other), Apply(fits, st, Swap(w, other), cache))
  {
    MoveNewDoes(fits, st, other, cache);
    SwapBackDoes(fits, Move(fits, Fresh(st, cache), other, cache), w, other, cache);
    ThreeMoves(Meaning(st), w, other, cache);
  }

  /** Every operation on distinct wrappers keeps ownership and means what it says, whichever
      boxes fit in place: a moved-from wrapper is empty, a copy runs the same callable. */
  lemma OpDoes(fits: Fit, st: State, op: Op, cache: Address)
    requires Owned(st) && Possible(st, op, cache) && Distinct(op)
    ensures Does(st, op, Apply(fits, st, op, cache))
  {
    match op {
      case Swap(w, other) =>
        if w != other { SwapDoes(fits, st, w, other, cache); }
        else { assert Meaning(st) == Expected(Meaning(st), op); }
      case Delete(w) => DeleteDoes(st, w);
      case New(w, fn) => if fn.Some? { NewDoes(fits, st, w, fn.value); } else { FreshDoes(st, w); }
      case MoveNew(from, w) => MoveNewDoes(fits, st, from, w);
      case CopyNew(from, w) => CopyNewDoes(fits, st, from, w);
      case Assign(w, fn) => if fn.Some? { AssignDoes(fits, st, w, fn.value); } else { ClearDoes(st, w); }
      case MoveAssign(from, w) => MoveAssignDoes(fits, st, from, w);
      case CopyAssign(from, w) => CopyAssignDoes(fits, st, from, w);
    }
  }

  const INITIAL := State([], map[], false)

  ghost predicate Run(fits: Fit, states: seq<State>, ops: seq<Op>, cache: Address) {
    && |states| == |ops| + 1 && states[0] == INITIAL
    && forall i :: 0 <= i < |ops| ==>
      Possible(states[i], ops[i], cache) && Distinct(ops[i]) && states[i + 1] == Apply(fits, states[i], ops[i], cache)
  }

  function ExpectedAfter(ops: seq<Op>, i: nat): map<Address, Option<Callable>>
    requires i <= |ops|
  {
    if i == 0 then map[] else Expected(ExpectedAfter(ops, i - 1), ops[i - 1])
  }

  lemma {:induction false} RunOwned(fits: Fit, states: seq<State>, ops: seq<Op>, cache: Address, i: nat)
    requires Run(fits, states, ops, cache) && i <= |ops|
    ensures Owned(states[i]) && Meaning(states[i]) == ExpectedAfter(ops, i)
  {
    if i > 0 {
      RunOwned(fits, states, ops, cache, i - 1);
      OpDoes(fits, states[i - 1], ops[i - 1], cache);
    }
  }

  /** Where the boxes are stored never shows: two runs of the same operations with different
      capacities have the same meaning throughout. */
  lemma StorageIsInvisible(fits: Fit, fits': Fit, states: seq<State>, states': seq<State>, ops: seq<Op>, cache: Address, i: nat)
    requires Run(fits, states, ops, cache) && Run(fits', states', ops, cache) && i <= |ops|
    ensures Meaning(states[i]) == Meaning(states'[i])
  {
    RunOwned(fits, states, ops, cache, i);
    RunOwned(fits', states', ops, cache, i);
  }

  /** Once all wrappers are gone, every box ever created has been destroyed exactly once. */
  lemma AllBoxesDestroyed(fits: Fit, states: seq<State>, ops: seq<Op>, cache: Address, b: nat)
    requires Run(fits, states, ops, cache) && states[|ops|].wrappers == map[] && b < |states[|ops|].boxes|
    ensures states[|ops|].boxes[b].destroyed == 1
  {
    RunOwned(fits, states, ops, cache, |ops|);
    assert BoxOk(states[|ops|], b, -1);
  }

  // ----- self-assignment -----

  /** Moving a wrapper onto itself destroys a buffered box twice; it is harmless exactly when
      the wrapper is empty or its box is on the heap, and then leaves it empty. */
  lemma SelfMoveExactly(fits: Fit, st: State, w: Address)
    requires Owned(st) && w in st.wrappers
    ensures Owned(Apply(fits, st, MoveAssign(w, w), 0)) <==> !st.wrappers[w].table.Inplace?
    ensures !st.wrappers[w].table.Inplace? ==> Target(Apply(fits, st, MoveAssign(w, w), 0), w) == None
  {
    assert WrapperOk(st, w);
    WeakDestroyOwned(st, w);
    var hollow := WeakDestroy(st, w);
    var r := Apply(fits, st, MoveAssign(w, w), 0);
    if !st.wrappers[w].table.Inplace? {
      SetEmptyOwned(hollow, w);
      assert r == SetEmpty(hollow, w);
    } else {
      assert r.misused;
    }
  }

  /** Copying a wrapper onto itself reads the box it has just destroyed, unless it is empty. */
  lemma SelfCopyExactly(fits: Fit, st: State, w: Address)
    requires Owned(st) && w in st.wrappers
    ensures Owned(Apply(fits, st, CopyAssign(w, w), 0)) <==> st.wrappers[w].table == Empty
  {
    assert WrapperOk(st, w);
    WeakDestroyOwned(st, w);
    if st.wrappers[w].table == Empty { SetEmptyOwned(st, w); }
  }
}
