/** Where the wrappers of function2 keep their boxes: in a buffer only if the box fits there, on
    the heap only if it did not, and how many boxes each operation makes. */
module ErasurePlacement {
  import opened Options
  import opened Erasure

  /** No box lies in a buffer it does not fit. */
  ghost predicate Placed(fits: Fit, st: State) {
    forall w :: w in st.wrappers && st.wrappers[w].table.Inplace? ==> fits(st.wrappers[w].table.ty, w)
  }

  /** No box was allocated whose type fits at every address. */
  ghost predicate HeapOnlyIfNeeded(fits: Fit, st: State) {
    forall b :: 0 <= b < |st.boxes| && st.boxes[b].heap ==> exists a: Address :: !fits(st.boxes[b].fn.ty, a)
  }

  ghost predicate Sound(fits: Fit, st: State) {
    Placed(fits, st) && HeapOnlyIfNeeded(fits, st)
  }

  lemma {:induction false} ConstructSound(fits: Fit, st: State, to: Address, fn: Callable)
    requires Sound(fits, st)
    ensures Sound(fits, Construct(fits, st, to, fn))
  {
    var st' := Construct(fits, st, to, fn);
    forall b | 0 <= b < |st'.boxes| && st'.boxes[b].heap ensures exists a: Address :: !fits(st'.boxes[b].fn.ty, a) {
      if b < |st.boxes| { assert st'.boxes[b] == st.boxes[b]; }
    }
  }

  lemma {:induction false} DestroySound(fits: Fit, st: State, b: nat)
    requires Sound(fits, st)
    ensures Sound(fits, DestroyBox(st, b))
  {
    var st' := DestroyBox(st, b);
    forall c | 0 <= c < |st'.boxes| && st'.boxes[c].heap ensures exists a: Address :: !fits(st'.boxes[c].fn.ty, a) {
      assert st'.boxes[c].fn == st.boxes[c].fn && st'.boxes[c].heap == st.boxes[c].heap;
    }
  }

  lemma {:induction false} WeakDestroySound(fits: Fit, st: State, w: Address)
    requires Sound(fits, st) && w in st.wrappers
    ensures Sound(fits, WeakDestroy(st, w))
  {
    if Retrieve(st.wrappers[w]).Some? { DestroySound(fits, st, Retrieve(st.wrappers[w]).value); }
  }

  /** The pointer changes hands, and with it the table that goes with the heap. */
  lemma {:induction false} HandOverSound(fits: Fit, st: State, w: Wrapper, to: Address)
    requires Sound(fits, st) && w.table.Allocated?
    ensures Sound(fits, HandOver(st, w, to).(wrappers := st.wrappers[to := w]))
  {
    var st' := HandOver(st, w, to);
    forall c | 0 <= c < |st'.boxes| && st'.boxes[c].heap ensures exists a: Address :: !fits(st'.boxes[c].fn.ty, a) {
      assert st'.boxes[c].fn == st.boxes[c].fn && st'.boxes[c].heap == st.boxes[c].heap;
    }
  }

  lemma {:induction false} MoveSound(fits: Fit, st: State, from: Address, to: Address)
    requires Sound(fits, st) && from in st.wrappers && to in st.wrappers
    ensures Sound(fits, Move(fits, st, from, to))
  {
    var w := st.wrappers[from];
    if w.table.Allocated? {
      HandOverSound(fits, st, w, to);
      assert w == Wrapper(Allocated(w.table.ty), w.data);
    } else if w.table.Inplace? && Retrieve(w).Some? && Retrieve(w).value < |st.boxes| {
      var fn := st.boxes[Retrieve(w).value].fn;
      ConstructSound(fits, st, to, fn);
      DestroySound(fits, Construct(fits, st, to, fn), Retrieve(w).value);
    }
  }

  lemma {:induction false} CopySound(fits: Fit, st: State, from: Address, to: Address)
    requires Sound(fits, st) && from in st.wrappers && to in st.wrappers
    ensures Sound(fits, Copy(fits, st, from, to))
  {
    var w := st.wrappers[from];
    if w.table != Empty && Retrieve(w).Some? && Retrieve(w).value < |st.boxes| {
      var b := Retrieve(w).value;
      ConstructSound(fits, st.(misused := st.misused || Misuses(st, b)), to, st.boxes[b].fn);
    }
  }

  lemma {:induction false} MoveAssignedSound(fits: Fit, st: State, from: Address, to: Address)
    requires Sound(fits, st) && from in st.wrappers && to in st.wrappers
    ensures Sound(fits, MoveAssigned(fits, st, from, to))
  {
    WeakDestroySound(fits, st, to);
    MoveSound(fits, WeakDestroy(st, to), from, to);
  }

  lemma {:induction false} SwapBackSound(fits: Fit, st: State, w: Address, other: Address, cache: Address)
    requires Sound(fits, st) && w in st.wrappers && other in st.wrappers && cache in st.wrappers
    ensures Sound(fits, SwapBack(fits, st, w, other, cache))
  {
    var s2 := MoveAssigned(fits, st, w, other);
    var s3 := MoveAssigned(fits, s2, cache, w);
    MoveAssignedSound(fits, st, w, other);
    MoveAssignedSound(fits, s2, cache, w);
    WeakDestroySound(fits, s3, cache);
  }

  /** Every operation, onto itself or not, respects the buffers. */
  lemma {:induction false} OpSound(fits: Fit, st: State, op: Op, cache: Address)
    requires Sound(fits, st) && Possible(st, op, cache)
    ensures Sound(fits, Apply(fits, st, op, cache))
  {
    match op {
      case New(w, fn) => if fn.Some? { ConstructSound(fits, Fresh(st, w), w, fn.value); }
      case MoveNew(from, w) => MoveSound(fits, Fresh(st, w), from, w);
      case CopyNew(from, w) => CopySound(fits, Fresh(st, w), from, w);
      case MoveAssign(from, w) => MoveAssignedSound(fits, st, from, w);
      case CopyAssign(from, w) =>
        WeakDestroySound(fits, st, w);
        CopySound(fits, WeakDestroy(st, w), from, w);
      case Assign(w, fn) =>
        WeakDestroySound(fits, st, w);
        if fn.Some? { ConstructSound(fits, WeakDestroy(st, w), w, fn.value); }
      case Swap(w, other) =>
        if w != other {
          MoveSound(fits, Fresh(st, cache), other, cache);
          SwapBackSound(fits, Move(fits, Fresh(st, cache), other, cache), w, other, cache);
        }
      case Delete(w) => WeakDestroySound(fits, st, w);
    }
  }

  /** In every run, a box in a buffer fits there, and nothing is allocated that fits everywhere. */
  lemma {:induction false} RunPlaced(fits: Fit, states: seq<State>, ops: seq<Op>, cache: Address, i: nat)
    requires Run(fits, states, ops, cache) && i <= |ops|
    ensures forall w :: w in states[i].wrappers && states[i].wrappers[w].table.Inplace? ==>
      fits(states[i].wrappers[w].table.ty, w)
    ensures forall b :: 0 <= b < |states[i].boxes| && states[i].boxes[b].heap ==>
      exists a: Address :: !fits(states[i].boxes[b].fn.ty, a)
  {
    RunSound(fits, states, ops, cache, i);
  }

  lemma {:induction false} RunSound(fits: Fit, states: seq<State>, ops: seq<Op>, cache: Address, i: nat)
    requires Run(fits, states, ops, cache) && i <= |ops|
    ensures Sound(fits, states[i])
  {
    if i > 0 {
      RunSound(fits, states, ops, cache, i - 1);
      OpSound(fits, states[i - 1], ops[i - 1], cache);
    }
  }

  // ----- boxes made and handed over -----

  /** From `st` to `r` exactly one box was made, of `fn`, for wrapper `w`: in the buffer if it
      fits there and on the heap if it does not. */
  ghost predicate Boxed(fits: Fit, st: State, r: State, w: Address, fn: Callable) {
    && w in r.wrappers && |r.boxes| == |st.boxes| + 1
    && (r.wrappers[w].table == Inplace(fn.ty) <==> fits(fn.ty, w))
    && (r.wrappers[w].table == Allocated(fn.ty) <==> !fits(fn.ty, w))
    && Owns(r, w, |st.boxes|)
    && var box := r.boxes[|st.boxes|];
      box.fn == fn && box.owner == w && box.destroyed == 0 && (box.heap <==> !fits(fn.ty, w))
  }

  /** From `st` to `r` no box was made and `w` took over the one of `from`, wherever it fits. */
  ghost predicate TookOver(st: State, r: State, from: Address, w: Address) {
    && from in st.wrappers && w in r.wrappers && |r.boxes| == |st.boxes|
    && r.wrappers[w] == st.wrappers[from]
    && forall b: nat :: b < |st.boxes| && Owns(st, from, b) ==> Owns(r, w, b) && r.boxes[b].fn == st.boxes[b].fn
  }

  /** The wrapper whose callable the operation takes or copies. */
  function Source(op: Op): Option<Address> {
    match op
    case MoveNew(from, _) => Some(from)
    case MoveAssign(from, _) => Some(from)
    case CopyNew(from, _) => Some(from)
    case CopyAssign(from, _) => Some(from)
    case _ => None
  }

  /** The callable a new box is made of, if the operation makes one. */
  ghost function NewBox(st: State, op: Op, cache: Address): Option<Callable>
    requires Possible(st, op, cache)
  {
    match op
    case New(_, fn) => fn
    case Assign(_, fn) => fn
    case CopyNew(from, _) => if st.wrappers[from].table == Empty then None else Target(st, from)
    case CopyAssign(from, _) => if st.wrappers[from].table == Empty then None else Target(st, from)
    case MoveNew(from, _) => if st.wrappers[from].table.Inplace? then Target(st, from) else None
    case MoveAssign(from, _) => if st.wrappers[from].table.Inplace? then Target(st, from) else None
    case Swap(_, _) => None
    case Delete(_) => None
  }

  lemma {:induction false} ConstructBoxed(fits: Fit, st: State, to: Address, fn: Callable)
    ensures Boxed(fits, st, Construct(fits, st, to, fn), to, fn)
  {
  }

  lemma {:induction false} CopyBoxed(fits: Fit, st: State, from: Address, to: Address)
    requires from in st.wrappers && to in st.wrappers && st.wrappers[from].table != Empty && WrapperOk(st, from)
    ensures Target(st, from).Some? && Boxed(fits, st, Copy(fits, st, from, to), to, Target(st, from).value)
  {
    var b := Retrieve(st.wrappers[from]).value;
    ConstructBoxed(fits, st.(misused := st.misused || Misuses(st, b)), to, st.boxes[b].fn);
  }

  lemma {:induction false} MoveBoxed(fits: Fit, st: State, from: Address, to: Address)
    requires from in st.wrappers && to in st.wrappers && from != to && WrapperOk(st, from)
    ensures st.wrappers[from].table.Inplace? ==>
      Target(st, from).Some? && Boxed(fits, st, Move(fits, st, from, to), to, Target(st, from).value)
    ensures st.wrappers[from].table.Allocated? ==> TookOver(st, Move(fits, st, from, to), from, to)
  {
    if st.wrappers[from].table.Inplace? {
      var b := Retrieve(st.wrappers[from]).value;
      ConstructBoxed(fits, st, to, st.boxes[b].fn);
    }
  }

  /** A new callable, a copy and a move out of a buffer make exactly one box, which lies in the
      buffer if and only if it fits there. A move from the heap makes none: the new owner has
      the same table and the same box. */
  lemma {:induction false} OpPlaces(fits: Fit, st: State, op: Op, cache: Address)
    requires Owned(st) && Possible(st, op, cache) && Distinct(op)
    ensures NewBox(st, op, cache).Some? ==> Boxed(fits, st, Apply(fits, st, op, cache), op.w, NewBox(st, op, cache).value)
    ensures (op.MoveNew? || op.MoveAssign?) && st.wrappers[op.from].table.Allocated? ==>
      TookOver(st, Apply(fits, st, op, cache), op.from, op.w)
  {
    if Source(op).Some? { assert WrapperOk(st, Source(op).value); }
    match op {
      case New(w, fn) => if fn.Some? { ConstructBoxed(fits, Fresh(st, w), w, fn.value); }
      case Assign(w, fn) =>
        assert WrapperOk(st, w);
        if fn.Some? { ConstructBoxed(fits, WeakDestroy(st, w), w, fn.value); }
      case CopyNew(from, w) => if st.wrappers[from].table != Empty { CopyBoxed(fits, Fresh(st, w), from, w); }
      case MoveNew(from, w) => MoveBoxed(fits, Fresh(st, w), from, w);
      case CopyAssign(from, w) =>
        AfterWeakDestroy(st, w, from);
        if st.wrappers[from].table != Empty { CopyBoxed(fits, WeakDestroy(st, w), from, w); }
      case MoveAssign(from, w) =>
        AfterWeakDestroy(st, w, from);
        MoveBoxed(fits, WeakDestroy(st, w), from, w);
      case _ =>
    }
  }

  lemma {:induction false} AfterWeakDestroy(st: State, w: Address, from: Address)
    requires Owned(st) && w in st.wrappers && from in st.wrappers && from != w
    ensures WeakDestroy(st, w).wrappers == st.wrappers && |WeakDestroy(st, w).boxes| == |st.boxes|
    ensures WrapperOk(WeakDestroy(st, w), from) && Target(WeakDestroy(st, w), from) == Target(st, from)
    ensures forall b :: 0 <= b < |st.boxes| ==> WeakDestroy(st, w).boxes[b].fn == st.boxes[b].fn
  {
    WeakDestroyOwned(st, w);
    assert WrapperOk(st, w);
  }
}
