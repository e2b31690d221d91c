/** The wrappers of function2 as the original updates them: tables, buffers and heap pointers
    overwritten in place, one command after the other. */
module ErasureObjects {
  import opened Options
  import opened Erasure

  class Wrappers {
    const fits: Fit
    var boxes: seq<Box>
    var wrappers: map<Address, Wrapper>
    ghost var misused: bool

    ghost function St(): State
      reads this
    {
      State(boxes, wrappers, misused)
    }

    /** What a non-empty wrapper holds is a box, live or not. */
    ghost predicate Formed(w: Address)
      reads this
    {
      w in wrappers && (wrappers[w].table != Empty ==> Retrieve(wrappers[w]).Some? && Retrieve(wrappers[w]).value < |boxes|)
    }

    constructor (fits: Fit)
      ensures Owned(St()) && Meaning(St()) == map[] && this.fits == fits
    {
      this.fits := fits;
      boxes := [];
      wrappers := map[];
      misused := false;
    }

    /** `construct`. */
    method ConstructBox(to: Address, fn: Callable)
      modifies this
      ensures St() == Construct(fits, old(St()), to, fn)
      ensures |boxes| == old(|boxes|) + 1 && to in wrappers
      ensures fits(fn.ty, to) <==> wrappers[to].table == Inplace(fn.ty)
      ensures !fits(fn.ty, to) <==> wrappers[to].table == Allocated(fn.ty)
      ensures boxes[old(|boxes|)].heap <==> !fits(fn.ty, to)
    {
      var inBuffer := fits(fn.ty, to);
      if inBuffer {
        wrappers := wrappers[to := Wrapper(Inplace(fn.ty), Object(|boxes|))];
      } else {
        wrappers := wrappers[to := Wrapper(Allocated(fn.ty), Pointer(|boxes|))];
      }
      boxes := boxes + [Box(fn, !inBuffer, to, 0)];
    }

    method EmptyTable(w: Address)
      requires w in wrappers
      modifies this`wrappers
      ensures St() == SetEmpty(old(St()), w)
    {
      wrappers := wrappers[w := wrappers[w].(table := Empty)];
    }

    method DestroyObject(b: nat)
      requires b < |boxes|
      modifies this`boxes, this`misused
      ensures St() == DestroyBox(old(St()), b)
    {
      misused := misused || Misuses(St(), b);
      boxes := boxes[b := boxes[b].(destroyed := boxes[b].destroyed + 1)];
    }

    /** op_move, then the source's table is emptied. */
    method MoveCommand(from: Address, to: Address)
      requires Formed(from) && to in wrappers
      modifies this
      ensures St() == Move(fits, old(St()), from, to)
    {
      var w := wrappers[from];
      match w.table {
        case Empty => EmptyTable(to);
        case Allocated(ty) =>
          boxes := boxes[w.data.box := boxes[w.data.box].(owner := to)];
          wrappers := wrappers[to := Wrapper(Allocated(ty), w.data)];
        case Inplace(_) =>
          ConstructBox(to, boxes[w.data.box].fn);
          DestroyObject(w.data.box);
      }
      EmptyTable(from);
    }

    /** op_copy. */
    method CopyCommand(from: Address, to: Address)
      requires Formed(from) && to in wrappers
      modifies this
      ensures St() == Copy(fits, old(St()), from, to)
    {
      var w := wrappers[from];
      if w.table == Empty {
        EmptyTable(to);
      } else {
        misused := misused || Misuses(St(), w.data.box);
        ConstructBox(to, boxes[w.data.box].fn);
      }
    }

    /** op_weak_destroy. */
    method WeakDestroyCommand(w: Address)
      requires Formed(w)
      modifies this`boxes, this`misused
      ensures St() == WeakDestroy(old(St()), w)
    {
      if wrappers[w].table != Empty {
        DestroyObject(wrappers[w].data.box);
      }
    }

    /** Construction from a callable, or from an empty one. */
    method NewWrapper(w: Address, fn: Option<Callable>)
      requires Owned(St()) && w !in wrappers
      modifies this
      ensures St() == Apply(fits, old(St()), New(w, fn), 0)
      ensures Does(old(St()), New(w, fn), St())
    {
      if fn.Some? { NewDoes(fits, St(), w, fn.value); } else { FreshDoes(St(), w); }
      wrappers := wrappers[w := Wrapper(Empty, Raw)];
      if fn.Some? { ConstructBox(w, fn.value); }
    }

    method NewFromMove(from: Address, w: Address)
      requires Owned(St()) && from in wrappers && w !in wrappers
      modifies this
      ensures St() == Move(fits, Fresh(old(St()), w), from, w)
      ensures Does(old(St()), MoveNew(from, w), St())
    {
      assert WrapperOk(St(), from);
      FreshDoes(St(), w);
      MoveNewDoes(fits, St(), from, w);
      wrappers := wrappers[w := Wrapper(Empty, Raw)];
      MoveCommand(from, w);
    }

    method NewFromCopy(from: Address, w: Address)
      requires Owned(St()) && from in wrappers && w !in wrappers
      modifies this
      ensures St() == Apply(fits, old(St()), CopyNew(from, w), 0)
      ensures Does(old(St()), CopyNew(from, w), St())
    {
      assert WrapperOk(St(), from);
      FreshDoes(St(), w);
      CopyNewDoes(fits, St(), from, w);
      wrappers := wrappers[w := Wrapper(Empty, Raw)];
      CopyCommand(from, w);
    }

    /** From another wrapper this means what it says; onto itself it is sound exactly if the box
        is not in the buffer. */
    method MoveAssignFrom(from: Address, w: Address)
      requires Owned(St()) && from in wrappers && w in wrappers
      modifies this
      ensures St() == MoveAssigned(fits, old(St()), from, w)
      ensures from != w ==> Does(old(St()), MoveAssign(from, w), St())
      ensures from == w ==> (Owned(St()) <==> !old(wrappers)[w].table.Inplace?)
    {
      assert WrapperOk(St(), from) && WrapperOk(St(), w);
      if from != w { MoveAssignDoes(fits, St(), from, w); } else { SelfMoveExactly(fits, St(), w); }
      WeakDestroyCommand(w);
      MoveCommand(from, w);
    }

    /** Onto itself this is sound exactly if the wrapper is empty. */
    method CopyAssignFrom(from: Address, w: Address)
      requires Owned(St()) && from in wrappers && w in wrappers
      modifies this
      ensures St() == Copy(fits, WeakDestroy(old(St()), w), from, w)
      ensures from != w ==> Does(old(St()), CopyAssign(from, w), St())
      ensures from == w ==> (Owned(St()) <==> old(wrappers)[w].table == Empty)
    {
      assert WrapperOk(St(), from) && WrapperOk(St(), w);
      if from != w { CopyAssignDoes(fits, St(), from, w); } else { SelfCopyExactly(fits, St(), w); }
      WeakDestroyCommand(w);
      CopyCommand(from, w);
    }

    method AssignCallable(w: Address, fn: Option<Callable>)
      requires Owned(St()) && w in wrappers
      modifies this
      ensures St() == Apply(fits, old(St()), Assign(w, fn), 0)
      ensures Does(old(St()), Assign(w, fn), St())
    {
      assert WrapperOk(St(), w);
      if fn.Some? { AssignDoes(fits, St(), w, fn.value); } else { ClearDoes(St(), w); }
      WeakDestroyCommand(w);
      if fn.Some? { ConstructBox(w, fn.value); } else { EmptyTable(w); }
    }

    method DeleteWrapper(w: Address)
      requires Owned(St()) && w in wrappers
      modifies this
      ensures St() == Remove(WeakDestroy(old(St()), w), w)
      ensures Does(old(St()), Delete(w), St())
    {
      assert WrapperOk(St(), w);
      DeleteDoes(St(), w);
      WeakDestroyCommand(w);
      wrappers := wrappers - {w};
    }

    /** `swap`, through a temporary wrapper at the address `cache`. */
    method SwapWith(w: Address, other: Address, cache: Address)
      requires Owned(St()) && w in wrappers && other in wrappers && cache !in wrappers
      modifies this
      ensures St() == Apply(fits, old(St()), Swap(w, other), cache)
      ensures Does(old(St()), Swap(w, other), St())
    {
      OpDoes(fits, St(), Swap(w, other), cache);
      if w == other { return; }
      NewFromMove(other, cache);
      MoveAssignFrom(w, other);
      MoveAssignFrom(cache, w);
      DeleteWrapper(cache);
    }

    /** `invoke`: an empty wrapper throws. */
    method Invoke(w: Address) returns (r: Option<Callable>)
      requires Owned(St()) && w in wrappers
      ensures r == Meaning(St())[w]
    {
      assert WrapperOk(St(), w);
      match wrappers[w].table {
        case Empty => r := None;
        case _ => r := Some(boxes[wrappers[w].data.box].fn);
      }
    }
  }
}
