/** What happens to words that overlap: for any list of different words, un-applying in the same
    order restores every image, for every offset that spares the lowest `low` bytes, exactly if
    the words are pairwise disjoint above those bytes or end together; and the same for every
    image that holds a table naming the words. */
module RelocationOverlap {
  import opened MachineWords
  import opened Sequences
  import opened Relocations
  import opened RelocationTables

  ghost predicate AllWords(fs: seq<Fixup>) {
    forall i :: 0 <= i < |fs| ==> fs[i].width == 4 || fs[i].width == 8
  }

  /** Applying and un-applying in the same order is the identity. */
  ghost predicate Restores(fs: seq<Fixup>, low: nat) {
    forall mem: seq<Byte>, d: int :: AllInside(mem, fs) && Spares(d, low) ==> AddAll(AddAll(mem, fs, d), fs, -d) == mem
  }

  // ----- un-applying in the reverse order -----

  function Reversed(fs: seq<Fixup>): (r: seq<Fixup>)
    ensures |r| == |fs|
    ensures forall i :: 0 <= i < |fs| ==> r[|fs| - 1 - i] == fs[i]
  {
    if fs == [] then [] else Reversed(fs[1..]) + [fs[0]]
  }

  lemma {:induction false} ReversedInside(mem: seq<Byte>, fs: seq<Fixup>)
    requires AllInside(mem, fs)
    ensures AllInside(mem, Reversed(fs))
  {
    forall i | 0 <= i < |fs| ensures Inside(mem, Reversed(fs)[i]) { assert Reversed(fs)[i] == fs[|fs| - 1 - i]; }
  }

  lemma {:induction false} AddAllSnoc(mem: seq<Byte>, fs: seq<Fixup>, f: Fixup, d: int)
    requires AllInside(mem, fs) && Inside(mem, f)
    ensures AllInside(mem, fs + [f]) && AddAll(mem, fs + [f], d) == AddAt(AddAll(mem, fs, d), f, d)
    decreases |fs|
  {
    if fs == [] {
      assert fs + [f] == [f] && [f][1..] == [];
    } else {
      assert (fs + [f])[1..] == fs[1..] + [f];
      AddAllSnoc(AddAt(mem, fs[0], d), fs[1..], f, d);
    }
  }

  /** That always restores the image. */
  lemma {:induction false} ReverseRestores(mem: seq<Byte>, fs: seq<Fixup>, d: int, back: int)
    requires AllInside(mem, fs) && AllInside(mem, Reversed(fs)) && d + back == 0
    ensures AddAll(AddAll(mem, fs, d), Reversed(fs), back) == mem
    decreases |fs|
  {
    if fs != [] {
      var f, rest := fs[0], fs[1..];
      var m1 := AddAt(mem, f, d);
      ReversedInside(m1, rest);
      ReverseRestores(m1, rest, d, back);
      AddAllSnoc(AddAll(m1, rest, d), Reversed(rest), f, back);
      AddTwice(mem, f, d, back);
      AddNothing(mem, f);
    }
  }

  /** So restoring in the same order means that the order of applying does not matter. */
  lemma {:induction false} SameBothWays(mem: seq<Byte>, fs: seq<Fixup>, d: int)
    requires AllInside(mem, fs) && AddAll(AddAll(mem, fs, d), fs, -d) == mem
    ensures AllInside(mem, Reversed(fs)) && AddAll(mem, Reversed(fs), d) == AddAll(mem, fs, d)
  {
    var x := AddAll(mem, fs, d);
    ReversedInside(mem, fs);
    ReverseRestores(x, fs, -d, d);
  }

  // ----- adding a power of 256 -----

  /** One added to a number, least significant byte first; the last carry is lost. */
  function Inc(bs: seq<Byte>): (r: seq<Byte>)
    ensures |r| == |bs|
  {
    if bs == [] then [] else if bs[0] < 255 then [bs[0] + 1] + bs[1..] else [0] + Inc(bs[1..])
  }

  lemma {:induction false} IncValue(bs: seq<Byte>)
    ensures LittleEndian(Inc(bs)) == if LittleEndian(bs) + 1 == Pow256(|bs|) then 0 else LittleEndian(bs) + 1
    decreases |bs|
  {
    LittleEndianBound(bs);
    if bs != [] {
      LittleEndianBound(bs[1..]);
      IncValue(bs[1..]);
      assert Inc(bs)[1..] == if bs[0] < 255 then bs[1..] else Inc(bs[1..]);
    }
  }

  lemma {:induction false} WrapFull(n: nat, width: nat)
    requires (width == 4 || width == 8) && n < Pow256(width)
    ensures Wrap(n + Pow256(width), width) == n
  {
    Pow256Values();
  }

  lemma {:induction false} OneMore(x: int, p: int, y: int)
    ensures x + p * (y + 1) == (x + p * y) + p
  {
  }

  lemma {:induction false} SumPlain(low: seq<Byte>, high: seq<Byte>)
    requires LittleEndian(high) + 1 != Pow256(|high|)
    ensures LittleEndian(low + Inc(high)) == LittleEndian(low + high) + Pow256(|low|)
  {
    LittleSplit(low, high);
    LittleSplit(low, Inc(high));
    IncValue(high);
    OneMore(LittleEndian(low), Pow256(|low|), LittleEndian(high));
  }

  lemma {:induction false} SumFull(low: seq<Byte>, high: seq<Byte>)
    requires LittleEndian(high) + 1 == Pow256(|high|)
    ensures LittleEndian(low + high) + Pow256(|low|) == LittleEndian(low) + Pow256(|low| + |high|)
    ensures LittleEndian(low + Inc(high)) == LittleEndian(low)
  {
    LittleSplit(low, high);
    LittleSplit(low, Inc(high));
    IncValue(high);
    OneMore(LittleEndian(low), Pow256(|low|), LittleEndian(high));
    PowAdd(|low|, |high|);
  }

  lemma {:induction false} PowFull(low: seq<Byte>, high: seq<Byte>, width: nat)
    requires (width == 4 || width == 8) && |low| + |high| == width && LittleEndian(high) + 1 == Pow256(|high|)
    ensures LittleEndian(low + Inc(high)) == Wrap(LittleEndian(low + high) + Pow256(|low|), width)
  {
    SumFull(low, high);
    LowIsSmall(low, high);
    WrapFull(LittleEndian(low), width);
  }

  /** Adding 256^j to a word whose bytes below `j` are `low` and from there on `high`. */
  lemma {:induction false} PowWord(low: seq<Byte>, high: seq<Byte>, width: nat)
    requires (width == 4 || width == 8) && |low| + |high| == width
    ensures LittleEndian(low + Inc(high)) == Wrap(LittleEndian(low + high) + Pow256(|low|), width)
  {
    if LittleEndian(high) + 1 == Pow256(|high|) {
      PowFull(low, high, width);
    } else {
      SumPlain(low, high);
      LittleEndianBound(low + Inc(high));
      WrapSmall(LittleEndian(low + Inc(high)), width);
    }
  }

  lemma {:induction false} LowIsSmall(low: seq<Byte>, high: seq<Byte>)
    ensures LittleEndian(low) < Pow256(|low| + |high|)
  {
    LittleSplit(low, high);
    LittleEndianBound(low + high);
    assert Pow256(|low|) * LittleEndian(high) >= 0;
  }

  lemma {:induction false} PowerAdded(mem: seq<Byte>, out: seq<Byte>, f: Fixup, low: seq<Byte>, high: seq<Byte>)
    requires Inside(mem, f) && Elsewhere(mem, out, f) && |low| + |high| == f.width
    requires mem[f.addr..f.addr + f.width] == low + high && out[f.addr..f.addr + f.width] == low + Inc(high)
    ensures AddAt(mem, f, Pow256(|low|)) == out
  {
    PowWord(low, high, f.width);
    AddedIs(mem, out, f, Pow256(|low|));
  }

  /** Powers beyond its width leave a word as it is. */
  lemma {:induction false} AddBeyond(mem: seq<Byte>, f: Fixup, j: nat)
    requires Inside(mem, f) && f.width == 4 && j >= 4
    ensures AddAt(mem, f, Pow256(j)) == mem
  {
    PowAdd(4, j - 4);
    Pow256Values();
    LittleEndianBound(mem[f.addr..f.addr + 4]);
    Multiple(Word(mem, f), Pow256(j - 4));
    AddedIs(mem, mem, f, Pow256(j));
  }

  lemma {:induction false} Multiple(x: nat, k: nat)
    requires x < 0x1_0000_0000
    ensures Wrap(x + 0x1_0000_0000 * k, 4) == x
  {
  }

  // ----- carries -----

  ghost predicate All(mem: seq<Byte>, lo: nat, hi: nat, b: Byte) {
    hi <= |mem| && forall i :: lo <= i < hi ==> mem[i] == b
  }

  /** The image after a carry from `lo` that `q` takes up; if `q` is the end, it is lost. */
  ghost predicate Carried(mem: seq<Byte>, out: seq<Byte>, lo: nat, q: nat, hi: nat) {
    && |out| == |mem| && lo <= q <= hi <= |mem|
    && All(mem, lo, q, 255) && All(out, lo, q, 0)
    && (q < hi ==> mem[q] < 255 && out[q] as int == mem[q] as int + 1)
    && forall i :: 0 <= i < |mem| && !(lo <= i < q) && !(i == q < hi) ==> out[i] == mem[i]
  }

  lemma {:induction false} IncCarries(bs: seq<Byte>, cs: seq<Byte>, m: nat)
    requires Carried(bs, cs, 0, m, |bs|)
    ensures Inc(bs) == cs
    decreases |bs|
  {
    if bs != [] {
      assert bs == [bs[0]] + bs[1..] && cs == [cs[0]] + cs[1..];
      if m == 0 {
        assert bs[1..] == cs[1..];
      } else {
        IncCarries(bs[1..], cs[1..], m - 1);
      }
    }
  }

  lemma {:induction false} CarriedSlice(mem: seq<Byte>, out: seq<Byte>, lo: nat, q: nat, hi: nat)
    requires Carried(mem, out, lo, q, hi)
    ensures Carried(mem[lo..hi], out[lo..hi], 0, q - lo, hi - lo)
  {
    assert forall i :: 0 <= i < hi - lo ==> mem[lo..hi][i] == mem[lo + i] && out[lo..hi][i] == out[lo + i];
  }

  lemma {:induction false} CarriedParts(mem: seq<Byte>, out: seq<Byte>, a: nat, lo: nat, q: nat, hi: nat)
    requires a <= lo && Carried(mem, out, lo, q, hi)
    ensures mem[a..hi] == mem[a..lo] + mem[lo..hi] && out[a..hi] == mem[a..lo] + out[lo..hi]
  {
    assert out[a..lo] == mem[a..lo];
  }

  function End(f: Fixup): nat { f.addr + f.width }

  lemma {:induction false} AddCarried(mem: seq<Byte>, out: seq<Byte>, h: Fixup, j: nat, stop: nat)
    requires Inside(mem, h) && j < h.width && Carried(mem, out, h.addr + j, stop, End(h))
    ensures AddAt(mem, h, Pow256(j)) == out
  {
    var lo, hi := h.addr + j, End(h);
    CarriedSlice(mem, out, lo, stop, hi);
    IncCarries(mem[lo..hi], out[lo..hi], stop - lo);
    CarriedParts(mem, out, h.addr, lo, stop, hi);
    PowerAdded(mem, out, h, mem[h.addr..lo], mem[lo..hi]);
  }

  // ----- the witness -----

  /** Where the one of two words that ends first ends, and the power that leaves only the last byte
      of `g` before that. */
  function Edge(f: Fixup, g: Fixup): nat { if End(f) < End(g) then End(f) else End(g) }

  function Power(f: Fixup, g: Fixup): nat
    requires g.addr < Edge(f, g)
  {
    Edge(f, g) - 1 - g.addr
  }

  /** How many of the words begin at `addr` and are long enough for the power to matter. */
  function Marks(done: set<Fixup>, addr: nat, j: nat): nat {
    (if j < 4 && Fixup(addr, 4) in done then 1 else 0) + (if Fixup(addr, 8) in done then 1 else 0)
  }

  /** Two overlapping words that end differently; `f` begins first. */
  ghost predicate Crossed(f: Fixup, g: Fixup) {
    && (f.width == 4 || f.width == 8) && (g.width == 4 || g.width == 8)
    && f.addr <= g.addr < End(f) && End(f) != End(g)
  }

  /** A byte of the image in which the words in `done` have been relocated: between the lowest
      affected bytes of `f` and `g` all is set for a carry, elsewhere nothing is. */
  function ByteAt(f: Fixup, g: Fixup, done: set<Fixup>, carry: bool, i: nat): Byte
    requires g.addr < Edge(f, g)
  {
    var j, q := Power(f, g), Edge(f, g);
    if f.addr + j <= i < q - 1 then (if f in done then 0 else 255)
    else if i == q - 1 then (if f in done && g in done then 0 else if f in done || g in done then 255 else 254)
    else 128 + (if i >= j then Marks(done, i - j, j) else 0) + (if i == q && carry then 1 else 0)
  }

  function Picture(n: nat, f: Fixup, g: Fixup, done: set<Fixup>, carry: bool): (r: seq<Byte>)
    requires g.addr < Edge(f, g)
    ensures |r| == n
  {
    seq(n, i requires 0 <= i < n => ByteAt(f, g, done, carry, i))
  }

  /** Whether the byte at the edge has got a carry once `h` is relocated too: it comes from the
      later of the two words, if that does not end there. */
  function NextCarry(f: Fixup, g: Fixup, done: set<Fixup>, carry: bool, h: Fixup): bool {
    if (h == f && g in done) || (h == g && f in done) then End(h) > Edge(f, g) else carry
  }

  ghost predicate Fits(n: nat, f: Fixup, g: Fixup, h: Fixup) {
    && (h.width == 4 || h.width == 8) && End(h) <= n
    && (h == f || h == g || !(f.addr <= h.addr <= g.addr))
  }

  /** How relocating another word changes a byte. */
  lemma {:induction false} ByteOther(f: Fixup, g: Fixup, done: set<Fixup>, carry: bool, h: Fixup, i: nat)
    requires Crossed(f, g) && (h.width == 4 || h.width == 8) && !(f.addr <= h.addr <= g.addr) && h !in done
    ensures ByteAt(f, g, done + {h}, carry, i) as int
      == ByteAt(f, g, done, carry, i) as int + if Power(f, g) < h.width && i == h.addr + Power(f, g) then 1 else 0
    ensures i == h.addr + Power(f, g) ==> ByteAt(f, g, done, carry, i) < 255
  {
    var j := Power(f, g);
    assert forall a: nat, w: nat :: Fixup(a, w) in done + {h} <==> Fixup(a, w) in done || Fixup(a, w) == h;
  }

  lemma {:induction false} OtherCarries(n: nat, f: Fixup, g: Fixup, done: set<Fixup>, carry: bool, h: Fixup)
    requires Crossed(f, g) && Fits(n, f, g, h) && h != f && h != g && h !in done
    ensures var j := Power(f, g);
      var mem, out := Picture(n, f, g, done, carry), Picture(n, f, g, done + {h}, carry);
      if j < h.width then Carried(mem, out, h.addr + j, h.addr + j, End(h)) else mem == out
  {
    var j := Power(f, g);
    var mem, out := Picture(n, f, g, done, carry), Picture(n, f, g, done + {h}, carry);
    forall i | 0 <= i < n
      ensures out[i] as int == mem[i] as int + if j < h.width && i == h.addr + j then 1 else 0
      ensures i == h.addr + j ==> mem[i] < 255
    {
      ByteOther(f, g, done, carry, h, i);
    }
  }

  lemma {:induction false} StepOther(n: nat, f: Fixup, g: Fixup, done: set<Fixup>, carry: bool, h: Fixup)
    requires Crossed(f, g) && Fits(n, f, g, h) && h != f && h != g && h !in done
    ensures AddAt(Picture(n, f, g, done, carry), h, Pow256(Power(f, g))) == Picture(n, f, g, done + {h}, carry)
  {
    var j, mem := Power(f, g), Picture(n, f, g, done, carry);
    OtherCarries(n, f, g, done, carry, h);
    if j < h.width { AddCarried(mem, Picture(n, f, g, done + {h}, carry), h, j, h.addr + j); } else { AddBeyond(mem, h, j); }
  }

  /** How relocating one of the two words changes a byte; `other` is the other one. */
  lemma {:induction false} ByteCrossed(f: Fixup, g: Fixup, done: set<Fixup>, h: Fixup, other: Fixup, i: nat)
    requires Crossed(f, g) && {h, other} == {f, g} && h !in done
    ensures var j, q := Power(f, g), Edge(f, g);
      var x, y := ByteAt(f, g, done, false, i), ByteAt(f, g, done + {h}, NextCarry(f, g, done, false, h), i);
      && (h.addr + j <= i < q - 1 ==> x == 255 && y == 0)
      && (i == q - 1 ==> if other in done then x == 255 && y == 0 else x == 254 && y == 255)
      && (i == q ==> x < 255 && y as int == x as int + if other in done && q < End(h) then 1 else 0)
      && (i < h.addr + j || i > q ==> x == y)
  {
    var j := Power(f, g);
    assert forall a: nat, w: nat :: Fixup(a, w) in done + {h} <==> Fixup(a, w) in done || Fixup(a, w) == h;
  }

  lemma {:induction false} CrossedCarries(n: nat, f: Fixup, g: Fixup, done: set<Fixup>, h: Fixup, other: Fixup)
    requires Crossed(f, g) && {h, other} == {f, g} && Fits(n, f, g, h) && h !in done
    ensures var mem, out := Picture(n, f, g, done, false), Picture(n, f, g, done + {h}, NextCarry(f, g, done, false, h));
      Carried(mem, out, h.addr + Power(f, g), if other in done then Edge(f, g) else Edge(f, g) - 1, End(h))
  {
    var j, q := Power(f, g), Edge(f, g);
    var mem, out := Picture(n, f, g, done, false), Picture(n, f, g, done + {h}, NextCarry(f, g, done, false, h));
    var stop := if other in done then q else q - 1;
    forall i | 0 <= i < n
      ensures h.addr + j <= i < stop ==> mem[i] == 255 && out[i] == 0
      ensures i == stop < End(h) ==> mem[i] < 255 && out[i] as int == mem[i] as int + 1
      ensures !(h.addr + j <= i < stop) && !(i == stop < End(h)) ==> out[i] == mem[i]
    {
      ByteCrossed(f, g, done, h, other, i);
    }
  }

  lemma {:induction false} StepCrossed(n: nat, f: Fixup, g: Fixup, done: set<Fixup>, h: Fixup, other: Fixup)
    requires Crossed(f, g) && {h, other} == {f, g} && Fits(n, f, g, h) && h !in done
    ensures AddAt(Picture(n, f, g, done, false), h, Pow256(Power(f, g)))
      == Picture(n, f, g, done + {h}, NextCarry(f, g, done, false, h))
  {
    CrossedCarries(n, f, g, done, h, other);
    AddCarried(Picture(n, f, g, done, false), Picture(n, f, g, done + {h}, NextCarry(f, g, done, false, h)), h, Power(f, g),
      if other in done then Edge(f, g) else Edge(f, g) - 1);
  }

  function FinalCarry(f: Fixup, g: Fixup, list: seq<Fixup>, done: set<Fixup>, carry: bool): bool {
    if list == [] then carry
    else FinalCarry(f, g, list[1..], done + {list[0]}, NextCarry(f, g, done, carry, list[0]))
  }

  ghost predicate Ready(n: nat, f: Fixup, g: Fixup, list: seq<Fixup>, done: set<Fixup>, carry: bool) {
    && Crossed(f, g) && NoDup(list) && (carry ==> f in done && g in done)
    && forall i :: 0 <= i < |list| ==> Fits(n, f, g, list[i]) && list[i] !in done
  }

  function Members(list: seq<Fixup>): set<Fixup> { set h | h in list }

  /** Relocating a list of words, one after the other. */
  lemma {:induction false} PictureOf(n: nat, f: Fixup, g: Fixup, list: seq<Fixup>, done: set<Fixup>, carry: bool)
    requires Ready(n, f, g, list, done, carry)
    ensures var mem := Picture(n, f, g, done, carry);
      && AllInside(mem, list)
      && AddAll(mem, list, Pow256(Power(f, g))) == Picture(n, f, g, done + Members(list), FinalCarry(f, g, list, done, carry))
    decreases |list|
  {
    if list == [] {
      assert done + Members(list) == done;
    } else {
      var h := list[0];
      if h == f { StepCrossed(n, f, g, done, f, g); }
      else if h == g { StepCrossed(n, f, g, done, g, f); }
      else { StepOther(n, f, g, done, carry, h); }
      assert done + Members(list) == (done + {h}) + Members(list[1..]);
      PictureOf(n, f, g, list[1..], done + {h}, NextCarry(f, g, done, carry, h));
    }
  }

  /** The later of the two words decides. */
  lemma {:induction false} LaterDecides(f: Fixup, g: Fixup, list: seq<Fixup>, done: set<Fixup>, carry: bool, i: int, k: nat)
    requires NoDup(list) && f != g && i < k < |list|
    requires if i >= 0 then {list[i], list[k]} == {f, g} && f !in done && g !in done
             else (list[k] == f && g in done && g !in list) || (list[k] == g && f in done && f !in list)
    ensures FinalCarry(f, g, list, done, carry) == (End(list[k]) > Edge(f, g))
    decreases |list|
  {
    var h := list[0];
    var next := NextCarry(f, g, done, carry, h);
    if k == 0 {
      NoneDecides(f, g, list[1..], done + {h}, next);
    } else {
      assert h == list[k] ==> false;
      assert list[1..][k - 1] == list[k];
      if i > 0 { assert list[1..][i - 1] == list[i] && h != list[i]; }
      LaterDecides(f, g, list[1..], done + {h}, next, i - 1, k - 1);
    }
  }

  lemma {:induction false} NoneDecides(f: Fixup, g: Fixup, list: seq<Fixup>, done: set<Fixup>, carry: bool)
    requires f !in list && g !in list
    ensures FinalCarry(f, g, list, done, carry) == carry
    decreases |list|
  {
    if list != [] { NoneDecides(f, g, list[1..], done + {list[0]}, carry); }
  }

  // ----- the closest pair -----

  function Gap(f: Fixup, g: Fixup): nat { if f.addr <= g.addr then g.addr - f.addr else f.addr - g.addr }

  function Lower(f: Fixup, g: Fixup): Fixup { if f.addr <= g.addr then f else g }
  function Upper(f: Fixup, g: Fixup): Fixup { if f.addr <= g.addr then g else f }

  ghost predicate Closest(fs: seq<Fixup>, low: nat, i: nat, k: nat) {
    && i < k < |fs| && !Apart(fs[i], fs[k], low)
    && forall m, n :: 0 <= m < n < |fs| && !Apart(fs[m], fs[n], low) ==> Gap(fs[i], fs[k]) <= Gap(fs[m], fs[n])
  }

  lemma {:induction false} ClosestPair(fs: seq<Fixup>, low: nat, i: nat, k: nat) returns (i': nat, k': nat)
    requires i < k < |fs| && !Apart(fs[i], fs[k], low)
    ensures Closest(fs, low, i', k')
    decreases Gap(fs[i], fs[k])
  {
    if m, n :| 0 <= m < n < |fs| && !Apart(fs[m], fs[n], low) && Gap(fs[m], fs[n]) < Gap(fs[i], fs[k]) {
      i', k' := ClosestPair(fs, low, m, n);
    } else {
      i', k' := i, k;
    }
  }

  /** No other word begins between, or where, the closest two begin. */
  lemma {:induction false} NothingBetween(fs: seq<Fixup>, low: nat, i: nat, k: nat, m: nat)
    requires low < 4 && Closest(fs, low, i, k) && NoDup(fs) && AllWords(fs) && m < |fs| && m != i && m != k
    ensures !(Lower(fs[i], fs[k]).addr <= fs[m].addr <= Upper(fs[i], fs[k]).addr)
  {
    var x, y, h := fs[i], fs[k], fs[m];
    assert h != x && h != y && x != y;
    assert !Apart(x, h, low) ==> Gap(x, y) <= Gap(x, h) by { if m < i { assert Apart(h, x, low) == Apart(x, h, low); } }
    assert !Apart(y, h, low) ==> Gap(x, y) <= Gap(y, h) by { if m < k { assert Apart(h, y, low) == Apart(y, h, low); } }
  }

  function MaxEnd(fs: seq<Fixup>): (n: nat)
    ensures forall i :: 0 <= i < |fs| ==> End(fs[i]) <= n
  {
    if fs == [] then 0
    else
      var n := MaxEnd(fs[1..]);
      assert forall i :: 1 <= i < |fs| ==> End(fs[i]) == End(fs[1..][i - 1]);
      if End(fs[0]) <= n then n else End(fs[0])
  }

  lemma {:induction false} ClosestReady(fs: seq<Fixup>, low: nat, list: seq<Fixup>, i: nat, k: nat)
    requires low < 4 && Closest(fs, low, i, k) && NoDup(fs) && AllWords(fs) && NoDup(list) && Members(list) == Members(fs)
    ensures Ready(MaxEnd(fs), Lower(fs[i], fs[k]), Upper(fs[i], fs[k]), list, {}, false)
  {
    var f, g := Lower(fs[i], fs[k]), Upper(fs[i], fs[k]);
    forall m | 0 <= m < |list| ensures Fits(MaxEnd(fs), f, g, list[m]) {
      assert list[m] in Members(fs);
      var n :| 0 <= n < |fs| && fs[n] == list[m];
      if n != i && n != k { NothingBetween(fs, low, i, k, n); }
    }
  }

  lemma {:induction false} ReversedMembers(fs: seq<Fixup>)
    ensures Members(Reversed(fs)) == Members(fs)
    ensures NoDup(fs) ==> NoDup(Reversed(fs))
  {
    var r := Reversed(fs);
    forall i | 0 <= i < |fs| ensures r[i] == fs[|fs| - 1 - i] && r[i] in fs && fs[i] in r {
      assert r[|fs| - 1 - i] == fs[i] && r[|fs| - 1 - (|fs| - 1 - i)] == fs[|fs| - 1 - i];
    }
    forall i, k | 0 <= i < k < |r| && NoDup(fs) ensures r[i] != r[k] {
      assert fs[|fs| - 1 - k] != fs[|fs| - 1 - i];
    }
  }

  lemma {:induction false} EdgeDiffers(n: nat, f: Fixup, g: Fixup, done: set<Fixup>)
    requires Crossed(f, g) && Edge(f, g) < n
    ensures Picture(n, f, g, done, true) != Picture(n, f, g, done, false)
  {
    var q := Edge(f, g);
    assert Picture(n, f, g, done, true)[q] == ByteAt(f, g, done, true, q);
    assert Picture(n, f, g, done, false)[q] == ByteAt(f, g, done, false, q);
  }

  /** What relocating all the words in some order makes of the witness; the closest two come at
      places `a` and `b`. */
  lemma {:induction false} InOrder(fs: seq<Fixup>, low: nat, i: nat, k: nat, list: seq<Fixup>, a: nat, b: nat)
    requires low < 4 && Closest(fs, low, i, k) && NoDup(fs) && AllWords(fs) && NoDup(list) && Members(list) == Members(fs)
    requires a < b < |list| && {list[a], list[b]} == {fs[i], fs[k]}
    ensures Crossed(Lower(fs[i], fs[k]), Upper(fs[i], fs[k]))
    ensures var f, g, n := Lower(fs[i], fs[k]), Upper(fs[i], fs[k]), MaxEnd(fs);
      var mem := Picture(n, f, g, {}, false);
      && AllInside(mem, list)
      && AddAll(mem, list, Pow256(Power(f, g))) == Picture(n, f, g, Members(fs), End(list[b]) > Edge(f, g))
  {
    var f, g, n := Lower(fs[i], fs[k]), Upper(fs[i], fs[k]), MaxEnd(fs);
    ClosestReady(fs, low, list, i, k);
    PictureOf(n, f, g, list, {}, false);
    LaterDecides(f, g, list, {}, false, a, b);
    assert {} + Members(list) == Members(fs);
  }

  lemma {:induction false} OrderMatters(fs: seq<Fixup>, low: nat, i: nat, k: nat)
    requires low < 4 && Closest(fs, low, i, k) && NoDup(fs) && AllWords(fs)
    ensures Crossed(Lower(fs[i], fs[k]), Upper(fs[i], fs[k]))
    ensures var f, g := Lower(fs[i], fs[k]), Upper(fs[i], fs[k]);
      var mem, d := Picture(MaxEnd(fs), f, g, {}, false), Pow256(Power(f, g));
      AllInside(mem, fs) && AllInside(mem, Reversed(fs)) && AddAll(mem, fs, d) != AddAll(mem, Reversed(fs), d)
  {
    var f, g, r := Lower(fs[i], fs[k]), Upper(fs[i], fs[k]), Reversed(fs);
    ReversedMembers(fs);
    assert r[|fs| - 1 - k] == fs[k] && r[|fs| - 1 - i] == fs[i];
    InOrder(fs, low, i, k, fs, i, k);
    InOrder(fs, low, i, k, r, |fs| - 1 - k, |fs| - 1 - i);
    EdgeDiffers(MaxEnd(fs), f, g, Members(fs));
  }

  lemma {:induction false} PowerSpares(j: nat, low: nat)
    requires low <= j
    ensures Spares(Pow256(j), low)
  {
    PowAdd(low, j - low);
    ModUnique(Pow256(j), Pow256(low), Pow256(j - low), 0);
  }

  /** If two of the words cross, there is an image that is not restored. */
  lemma {:induction false} CrossingSpoils(fs: seq<Fixup>, low: nat, i: nat, k: nat) returns (mem: seq<Byte>, d: int)
    requires NoDup(fs) && AllWords(fs) && low < 4 && i < k < |fs| && !Apart(fs[i], fs[k], low)
    ensures AllInside(mem, fs) && Spares(d, low) && AddAll(AddAll(mem, fs, d), fs, -d) != mem
  {
    var m, l := ClosestPair(fs, low, i, k);
    OrderMatters(fs, low, m, l);
    var f, g := Lower(fs[m], fs[l]), Upper(fs[m], fs[l]);
    mem, d := Picture(MaxEnd(fs), f, g, {}, false), Pow256(Power(f, g));
    PowerSpares(Power(f, g), low);
    if AddAll(AddAll(mem, fs, d), fs, -d) == mem { SameBothWays(mem, fs, d); }
  }

  /** Exactly the lists of different words that are pairwise disjoint above the spared bytes, or end
      together, are restored in every image. */
  lemma RestoredExactly(fs: seq<Fixup>, low: nat)
    requires NoDup(fs) && AllWords(fs) && low < 4
    ensures Restores(fs, low) <==> AllApart(fs, low)
  {
    if AllApart(fs, low) {
      forall mem: seq<Byte>, d: int | AllInside(mem, fs) && Spares(d, low) ensures AddAll(AddAll(mem, fs, d), fs, -d) == mem {
        AddAllInverse(mem, fs, d, low);
      }
    } else {
      var i, k :| 0 <= i < k < |fs| && !Apart(fs[i], fs[k], low);
      var mem, d := CrossingSpoils(fs, low, i, k);
    }
  }

  // ----- images that hold a table -----

  lemma {:induction false} AddAppend(mem: seq<Byte>, tail: seq<Byte>, f: Fixup, d: int)
    requires Inside(mem, f)
    ensures AddAt(mem + tail, f, d) == AddAt(mem, f, d) + tail
  {
    assert (mem + tail)[f.addr..f.addr + f.width] == mem[f.addr..f.addr + f.width];
    assert (mem + tail)[..f.addr] == mem[..f.addr];
    assert (mem + tail)[f.addr + f.width..] == mem[f.addr + f.width..] + tail;
  }

  lemma {:induction false} AddAllAppend(mem: seq<Byte>, tail: seq<Byte>, fs: seq<Fixup>, d: int)
    requires AllInside(mem, fs)
    ensures AllInside(mem + tail, fs) && AddAll(mem + tail, fs, d) == AddAll(mem, fs, d) + tail
    decreases |fs|
  {
    if fs != [] {
      AddAppend(mem, tail, fs[0], d);
      AddAllAppend(AddAt(mem, fs[0], d), tail, fs[1..], d);
    }
  }

  lemma {:induction false} NamedWords(page: nat, rs: seq<Reloc>)
    ensures AllWords(Named(page, rs).fixups)
    decreases |rs|
  {
    if rs != [] { NamedWords(page, rs[1..]); }
  }

  lemma {:induction false} AllNamedWords(bs: seq<Block>)
    ensures AllWords(AllNamed(bs).fixups)
    decreases |bs|
  {
    if bs != [] {
      NamedWords(bs[0].page, bs[0].relocs);
      AllNamedWords(bs[1..]);
    }
  }

  /** Walking the table of an image with an offset and with its opposite. */
  function ThereAndBack(image: seq<Byte>, pos: nat, limit: nat, d: int): seq<Byte> {
    Walked(Walked(image, pos, limit, d).mem, pos, limit, -d).mem
  }

  lemma {:induction false} HeldBehind(mem: seq<Byte>, bs: seq<Block>)
    requires AllInside(mem, AllNamed(bs).fixups) && BlocksOk(bs)
    ensures Holds(mem + TableBytes(bs), |mem|, |mem + TableBytes(bs)|, bs)
  {
    var image := mem + TableBytes(bs);
    assert image[|mem|..|image|] == TableBytes(bs);
  }

  lemma {:induction false} TableThereAndBack(image: seq<Byte>, pos: nat, limit: nat, bs: seq<Block>, fs: seq<Fixup>, d: int)
    requires Holds(image, pos, limit, bs) && fs == AllNamed(bs).fixups
    ensures AllInside(image, fs) && ThereAndBack(image, pos, limit, d) == AddAll(AddAll(image, fs, d), fs, -d)
  {
    TableApplied(image, pos, limit, bs, d);
    WalkedTwice(image, pos, limit, limit, d, AllNamed(bs));
  }

  lemma {:induction false} AppendDiffers(a: seq<Byte>, b: seq<Byte>, tail: seq<Byte>)
    requires |a| == |b| && a != b
    ensures a + tail != b + tail
  {
    assert (a + tail)[..|a|] == a && (b + tail)[..|a|] == b;
  }

  lemma {:induction false} SpoiledInFront(mem: seq<Byte>, tail: seq<Byte>, fs: seq<Fixup>, d: int)
    requires AllInside(mem, fs) && AddAll(AddAll(mem, fs, d), fs, -d) != mem
    ensures AllInside(mem + tail, fs) && AddAll(AddAll(mem + tail, fs, d), fs, -d) != mem + tail
  {
    AddAllAppend(mem, tail, fs, d);
    AddAllAppend(AddAll(mem, fs, d), tail, fs, -d);
    AppendDiffers(AddAll(AddAll(mem, fs, d), fs, -d), mem, tail);
  }

  /** If two of the words a table names cross, there is an image holding the table that un-applying
      does not restore. */
  lemma {:induction false} TableSpoils(bs: seq<Block>, low: nat, i: nat, k: nat) returns (image: seq<Byte>, pos: nat, d: int)
    requires BlocksOk(bs) && NoDup(AllNamed(bs).fixups) && low < 4
    requires i < k < |AllNamed(bs).fixups| && !Apart(AllNamed(bs).fixups[i], AllNamed(bs).fixups[k], low)
    ensures Holds(image, pos, |image|, bs) && Spares(d, low) && ThereAndBack(image, pos, |image|, d) != image
  {
    var fs, table := AllNamed(bs).fixups, TableBytes(bs);
    AllNamedWords(bs);
    var mem;
    mem, d := CrossingSpoils(fs, low, i, k);
    image, pos := mem + table, |mem|;
    HeldBehind(mem, bs);
    TableThereAndBack(image, pos, |image|, bs, fs, d);
    SpoiledInFront(mem, table, fs, d);
  }

  /** Every image that holds the table is restored. */
  ghost predicate TableRestores(bs: seq<Block>, low: nat) {
    forall image: seq<Byte>, pos: nat, limit: nat, d: int ::
      Holds(image, pos, limit, bs) && Spares(d, low) ==> ThereAndBack(image, pos, limit, d) == image
  }

  /** For every table that names each word once: un-applying what was applied restores every image
      that holds it exactly if the words are pairwise disjoint above the spared bytes or end
      together. */
  lemma TableRestoredExactly(bs: seq<Block>, low: nat)
    requires BlocksOk(bs) && NoDup(AllNamed(bs).fixups) && low < 4
    ensures TableRestores(bs, low) <==> AllApart(AllNamed(bs).fixups, low)
  {
    var fs := AllNamed(bs).fixups;
    if AllApart(fs, low) {
      forall image: seq<Byte>, pos: nat, limit: nat, d: int | Holds(image, pos, limit, bs) && Spares(d, low)
        ensures ThereAndBack(image, pos, limit, d) == image
      {
        TableThereAndBack(image, pos, limit, bs, fs, d);
        AddAllInverse(image, fs, d, low);
      }
    } else {
      var i, k :| 0 <= i < k < |fs| && !Apart(fs[i], fs[k], low);
      var image, pos, d := TableSpoils(bs, low, i, k);
    }
  }

  /** What the launcher can rely on: modules lie at multiples of 64 KiB. */
  lemma LoaderRestoresExactly(bs: seq<Block>)
    requires BlocksOk(bs) && NoDup(AllNamed(bs).fixups)
    ensures (forall image: seq<Byte>, pos: nat, limit: nat, offset: int ::
        Holds(image, pos, limit, bs) && offset % 0x1_0000 == 0 ==> ThereAndBack(image, pos, limit, offset) == image)
      <==> AllApart(AllNamed(bs).fixups, 2)
  {
    Pow256Values();
    TableRestoredExactly(bs, 2);
    forall offset: int ensures Spares(offset, 2) <==> offset % 0x1_0000 == 0 { }
  }

  lemma {:induction false} OwnReverse(f: Fixup, g: Fixup)
    ensures Reversed([f, g, f]) == [f, g, f]
  {
    var fs := [f, g, f];
    var r := Reversed(fs);
    assert r[3 - 1 - 0] == fs[0] && r[3 - 1 - 1] == fs[1] && r[3 - 1 - 2] == fs[2];
  }

  /** A word that is named twice can make up for crossing: this table is its own reverse. */
  lemma NamedTwice(f: Fixup, g: Fixup)
    ensures Restores([f, g, f], 0)
  {
    var fs := [f, g, f];
    OwnReverse(f, g);
    forall mem: seq<Byte>, d: int | AllInside(mem, fs) && Spares(d, 0) ensures AddAll(AddAll(mem, fs, d), fs, -d) == mem {
      ReverseRestores(mem, fs, d, -d);
    }
  }
}
