/** Base relocations of a loaded image ("The .reloc Section" of the Microsoft PE Format
    specification). The table lies in the image itself; applying and un-applying walk it and add
    the load offset to, or subtract it from, 32- and 64-bit words of the same image. */
module Relocations {
  import opened MachineWords

  /** A word to relocate: its address and its width in bytes, 4 or 8. */
  datatype Fixup = Fixup(addr: nat, width: nat)

  predicate Inside(mem: seq<Byte>, f: Fixup) {
    (f.width == 4 || f.width == 8) && f.addr + f.width <= |mem|
  }

  function Wrap(n: int, width: nat): nat
    requires width == 4 || width == 8
  {
    if width == 4 then n % 0x1_0000_0000 else n % 0x1_0000_0000_0000_0000
  }

  function Word(mem: seq<Byte>, f: Fixup): nat
    requires Inside(mem, f)
  {
    LittleEndian(mem[f.addr..f.addr + f.width])
  }

  /** Adds `delta` to a word of the image, wrapping around. */
  function AddAt(mem: seq<Byte>, f: Fixup, delta: int): (r: seq<Byte>)
    requires Inside(mem, f)
    ensures |r| == |mem|
  {
    mem[..f.addr] + LittleBytes(Wrap(Word(mem, f) + delta, f.width), f.width) + mem[f.addr + f.width..]
  }

  predicate AllInside(mem: seq<Byte>, fs: seq<Fixup>) {
    forall i :: 0 <= i < |fs| ==> Inside(mem, fs[i])
  }

  function AddAll(mem: seq<Byte>, fs: seq<Fixup>, delta: int): (r: seq<Byte>)
    requires AllInside(mem, fs)
    ensures |r| == |mem|
    decreases |fs|
  {
    if fs == [] then mem else AddAll(AddAt(mem, fs[0], delta), fs[1..], delta)
  }

  // ----- adding and taking away -----

  /** Adding this offset leaves the lowest `low` bytes of a word as they are. Modules lie at
      multiples of 64 KiB, so the loader's offsets spare two bytes. */
  predicate Spares(delta: int, low: nat) {
    delta % Pow256(low) == 0
  }

  /** Two words that do not overlap but for spared bytes, or that end together: then they are the
      same, or one is the upper half of the other, and a carry leaves neither of them. */
  predicate Apart(f: Fixup, g: Fixup, low: nat) {
    f.addr + f.width <= g.addr + low || g.addr + g.width <= f.addr + low || f.addr + f.width == g.addr + g.width
  }

  ghost predicate AllApart(fs: seq<Fixup>, low: nat) {
    forall i, j :: 0 <= i < j < |fs| ==> Apart(fs[i], fs[j], low)
  }

  lemma {:induction false} WrapAdd(n: int, d: int, e: int, width: nat)
    requires width == 4 || width == 8
    ensures Wrap(Wrap(n + d, width) + e, width) == Wrap(n + d + e, width)
  {
  }

  lemma {:induction false} WrapSmall(n: nat, width: nat)
    requires (width == 4 || width == 8) && n < Pow256(width)
    ensures Wrap(n, width) == n
  {
    Pow256Values();
  }

  lemma {:induction false} WordAfterAdd(mem: seq<Byte>, f: Fixup, d: int)
    requires Inside(mem, f)
    ensures Word(AddAt(mem, f, d), f) == Wrap(Word(mem, f) + d, f.width)
    ensures AddAt(mem, f, d)[..f.addr] == mem[..f.addr]
    ensures AddAt(mem, f, d)[f.addr + f.width..] == mem[f.addr + f.width..]
  {
    var w := Wrap(Word(mem, f) + d, f.width);
    var r := AddAt(mem, f, d);
    Pow256Values();
    ReadLittle(w, f.width);
    assert r[f.addr..f.addr + f.width] == LittleBytes(w, f.width);
  }

  lemma {:induction false} AddTwice(mem: seq<Byte>, f: Fixup, d: int, e: int)
    requires Inside(mem, f)
    ensures AddAt(AddAt(mem, f, d), f, e) == AddAt(mem, f, d + e)
  {
    WordAfterAdd(mem, f, d);
    WrapAdd(Word(mem, f), d, e, f.width);
  }

  /** A word away from the changed one keeps its bytes. */
  lemma {:induction false} OtherWord(mem: seq<Byte>, f: Fixup, d: int, lo: nat, hi: nat)
    requires Inside(mem, f) && lo <= hi <= |mem| && (hi <= f.addr || f.addr + f.width <= lo)
    ensures AddAt(mem, f, d)[lo..hi] == mem[lo..hi]
  {
    var r := AddAt(mem, f, d);
    assert forall i :: lo <= i < hi ==> r[i] == mem[i];
  }

  function NewBytes(mem: seq<Byte>, f: Fixup, d: int): (r: seq<Byte>)
    requires Inside(mem, f)
    ensures |r| == f.width
  {
    LittleBytes(Wrap(Word(mem, f) + d, f.width), f.width)
  }

  lemma {:induction false} ByteAfterAdd(mem: seq<Byte>, f: Fixup, d: int, i: nat)
    requires Inside(mem, f) && i < |mem|
    ensures AddAt(mem, f, d)[i] == if f.addr <= i < f.addr + f.width then NewBytes(mem, f, d)[i - f.addr] else mem[i]
  {
  }

  lemma {:induction false} AddNothing(mem: seq<Byte>, f: Fixup)
    requires Inside(mem, f)
    ensures AddAt(mem, f, 0) == mem
  {
    LittleEndianBound(mem[f.addr..f.addr + f.width]);
    WrapSmall(Word(mem, f), f.width);
    AddedIs(mem, mem, f, 0);
  }

  lemma {:induction false} WrapHigh(x: int, z: int)
    requires 0 <= x < 0x1_0000_0000
    ensures Wrap(x + 0x1_0000_0000 * z, 8) == x + 0x1_0000_0000 * Wrap(z, 4)
  {
  }

  /** The image `out` is `mem` but for the word `f`. */
  ghost predicate Elsewhere(mem: seq<Byte>, out: seq<Byte>, f: Fixup) {
    |out| == |mem| && forall i :: 0 <= i < |mem| && !(f.addr <= i < f.addr + f.width) ==> out[i] == mem[i]
  }

  lemma {:induction false} Reassembled(mem: seq<Byte>, out: seq<Byte>, f: Fixup, bytes: seq<Byte>)
    requires Inside(mem, f) && Elsewhere(mem, out, f) && out[f.addr..f.addr + f.width] == bytes
    ensures mem[..f.addr] + bytes + mem[f.addr + f.width..] == out
  {
    assert out[..f.addr] == mem[..f.addr] && out[f.addr + f.width..] == mem[f.addr + f.width..];
    assert out == out[..f.addr] + bytes + out[f.addr + f.width..];
  }

  lemma {:induction false} AddedIs(mem: seq<Byte>, out: seq<Byte>, f: Fixup, d: int)
    requires Inside(mem, f) && Elsewhere(mem, out, f) && Word(out, f) == Wrap(Word(mem, f) + d, f.width)
    ensures AddAt(mem, f, d) == out
  {
    var bytes := out[f.addr..f.addr + f.width];
    WriteRead(bytes);
    Reassembled(mem, out, f, bytes);
  }

  lemma {:induction false} AtLeastOnce(m: int, a: int, b: int)
    requires m > 0 && a < b
    ensures m * a + m <= m * b
  {
    assert m * (b - a - 1) >= 0;
    assert m * (b - a - 1) == m * b - m * a - m;
  }

  lemma {:induction false} ModUnique(n: int, m: int, k: int, r: int)
    requires m > 0 && n == m * k + r && 0 <= r < m
    ensures n % m == r
  {
    var q := n / m;
    assert n == m * q + n % m;
    if q < k { AtLeastOnce(m, q, k); }
    if q > k { AtLeastOnce(m, k, q); }
  }

  lemma {:induction false} Spread(p: int, q: int, k: int, r: int)
    ensures p * (q * k + r) == (p * q) * k + p * r
  {
    assert p * (q * k) == (p * q) * k;
  }

  lemma {:induction false} ModSplit(x: int, p: int, z: int, q: int)
    requires 0 <= x < p && q > 0 && p * q > 0
    ensures (x + p * z) % (p * q) == x + p * (z % q)
  {
    var k, r, m := z / q, z % q, p * q;
    assert z == q * k + r;
    Spread(p, q, k, r);
    AtLeastOnce(p, r, q);
    assert p * r >= 0;
    ModUnique(x + p * z, m, k, x + p * r);
  }

  lemma {:induction false} TimesAssoc(p: int, q: int)
    ensures 256 * (p * q) == (256 * p) * q
  {
  }

  lemma {:induction false} PowAdd(j: nat, k: nat)
    ensures Pow256(j + k) == Pow256(j) * Pow256(k)
  {
    if j > 0 {
      PowAdd(j - 1, k);
      TimesAssoc(Pow256(j - 1), Pow256(k));
    }
  }

  /** The bytes above the spared ones after adding `delta`: they depend on no others. */
  function NewHigh(mem: seq<Byte>, f: Fixup, delta: int, low: nat): (r: seq<Byte>)
    requires Inside(mem, f) && low < 4
    ensures |r| == f.width - low
  {
    LittleBytes((LittleEndian(mem[f.addr + low..f.addr + f.width]) + delta / Pow256(low)) % Pow256(f.width - low), f.width - low)
  }

  lemma {:induction false} WrapIsMod(n: int, width: nat)
    requires width == 4 || width == 8
    ensures Wrap(n, width) == n % Pow256(width)
  {
    Pow256Values();
  }

  lemma {:induction false} HighValue(x: nat, z: nat, delta: int, low: nat, width: nat)
    requires low < 4 && (width == 4 || width == 8) && Spares(delta, low) && x < Pow256(low)
    ensures Wrap(x + Pow256(low) * z + delta, width)
      == x + Pow256(low) * ((z + delta / Pow256(low)) % Pow256(width - low))
  {
    var p, q, e := Pow256(low), Pow256(width - low), delta / Pow256(low);
    PowAdd(low, width - low);
    ModSplit(x, p, z + e, q);
    Gather(x, p, z, e, delta);
    WrapIsMod(x + p * z + delta, width);
  }

  lemma {:induction false} Gather(x: int, p: int, z: int, e: int, delta: int)
    requires delta == p * e
    ensures x + p * (z + e) == x + p * z + delta
  {
  }

  /** A word of some low bytes, which are spared, and the bytes above them. */
  lemma {:induction false} HighWord(below: seq<Byte>, above: seq<Byte>, high: seq<Byte>, delta: int, width: nat)
    requires |below| < 4 && (width == 4 || width == 8) && |above| == width - |below| && Spares(delta, |below|)
    requires high == LittleBytes((LittleEndian(above) + delta / Pow256(|below|)) % Pow256(|above|), |above|)
    ensures LittleEndian(below + high) == Wrap(LittleEndian(below + above) + delta, width)
  {
    LittleSplit(below, above);
    LittleSplit(below, high);
    LittleEndianBound(below);
    ReadLittle((LittleEndian(above) + delta / Pow256(|below|)) % Pow256(|above|), |above|);
    HighValue(LittleEndian(below), LittleEndian(above), delta, |below|, width);
  }

  lemma {:induction false} HighSlices(mem: seq<Byte>, f: Fixup, low: nat, high: seq<Byte>)
    requires Inside(mem, f) && low < 4 && |high| == f.width - low
    ensures var a, b, c := f.addr, f.addr + low, f.addr + f.width;
      var out := mem[..b] + high + mem[c..];
      mem[a..c] == mem[a..b] + mem[b..c] && out[a..c] == mem[a..b] + high && Elsewhere(mem, out, f)
  {
  }

  lemma {:induction false} HighAdded(mem: seq<Byte>, out: seq<Byte>, f: Fixup, delta: int,
      below: seq<Byte>, above: seq<Byte>, high: seq<Byte>)
    requires Inside(mem, f) && Elsewhere(mem, out, f) && |below| < 4 && |above| == f.width - |below| && Spares(delta, |below|)
    requires mem[f.addr..f.addr + f.width] == below + above && out[f.addr..f.addr + f.width] == below + high
    requires high == LittleBytes((LittleEndian(above) + delta / Pow256(|below|)) % Pow256(|above|), |above|)
    ensures AddAt(mem, f, delta) == out
  {
    HighWord(below, above, high, delta, f.width);
    AddedIs(mem, out, f, delta);
  }

  lemma {:induction false} AddHigh(mem: seq<Byte>, f: Fixup, delta: int, low: nat)
    requires Inside(mem, f) && low < 4 && Spares(delta, low)
    ensures AddAt(mem, f, delta) == mem[..f.addr + low] + NewHigh(mem, f, delta, low) + mem[f.addr + f.width..]
  {
    var a, b, c := f.addr, f.addr + low, f.addr + f.width;
    var high := NewHigh(mem, f, delta, low);
    HighSlices(mem, f, low, high);
    HighAdded(mem, mem[..b] + high + mem[c..], f, delta, mem[a..b], mem[b..c], high);
  }

  lemma {:induction false} ByteAfterHigh(mem: seq<Byte>, f: Fixup, d: int, low: nat, i: nat)
    requires Inside(mem, f) && low < 4 && Spares(d, low) && i < |mem|
    ensures AddAt(mem, f, d)[i]
      == if f.addr + low <= i < f.addr + f.width then NewHigh(mem, f, d, low)[i - f.addr - low] else mem[i]
  {
    AddHigh(mem, f, d, low);
  }

  lemma {:induction false} SpareBefore(mem: seq<Byte>, g: Fixup, e: int, low: nat, f: Fixup)
    requires Inside(mem, f) && Inside(mem, g) && low < 4 && Spares(e, low) && f.addr + f.width <= g.addr + low
    ensures AddAt(mem, g, e)[f.addr..f.addr + f.width] == mem[f.addr..f.addr + f.width]
  {
    AddHigh(mem, g, e, low);
  }

  lemma {:induction false} ByteBefore(mem: seq<Byte>, f: Fixup, d: int, g: Fixup, e: int, low: nat, i: nat)
    requires Inside(mem, f) && Inside(mem, g) && low < 4 && Spares(e, low) && f.addr + f.width <= g.addr + low && i < |mem|
    requires NewHigh(AddAt(mem, f, d), g, e, low) == NewHigh(mem, g, e, low)
    requires NewBytes(AddAt(mem, g, e), f, d) == NewBytes(mem, f, d)
    ensures AddAt(AddAt(mem, f, d), g, e)[i] == AddAt(AddAt(mem, g, e), f, d)[i]
  {
    ByteAfterHigh(AddAt(mem, f, d), g, e, low, i);
    ByteAfterAdd(AddAt(mem, g, e), f, d, i);
    ByteAfterAdd(mem, f, d, i);
    ByteAfterHigh(mem, g, e, low, i);
  }

  /** Words that overlap in bytes the second spares. */
  lemma {:induction false} AddBefore(mem: seq<Byte>, f: Fixup, d: int, g: Fixup, e: int, low: nat)
    requires Inside(mem, f) && Inside(mem, g) && low < 4 && Spares(e, low) && f.addr + f.width <= g.addr + low
    ensures AddAt(AddAt(mem, f, d), g, e) == AddAt(AddAt(mem, g, e), f, d)
  {
    OtherWord(mem, f, d, g.addr + low, g.addr + g.width);
    SpareBefore(mem, g, e, low, f);
    forall i | 0 <= i < |mem| ensures AddAt(AddAt(mem, f, d), g, e)[i] == AddAt(AddAt(mem, g, e), f, d)[i] {
      ByteBefore(mem, f, d, g, e, low, i);
    }
  }

  /** A long word is made of its two halves. */
  lemma {:induction false} TwoHalves(mem: seq<Byte>, a: nat)
    requires a + 8 <= |mem|
    ensures Word(mem, Fixup(a, 8)) == Word(mem, Fixup(a, 4)) + 0x1_0000_0000 * Word(mem, Fixup(a + 4, 4))
    ensures Word(mem, Fixup(a, 4)) < 0x1_0000_0000
  {
    var low, high := mem[a..a + 4], mem[a + 4..a + 8];
    Pow256Values();
    LittleEndianBound(low);
    assert mem[a..a + 8] == low + high;
    LittleSplit(low, high);
  }

  /** Adding to the upper half of a word adds a multiple of 2^32 to the word. */
  lemma {:induction false} HighHalf(mem: seq<Byte>, f: Fixup, e: int)
    requires Inside(mem, f) && f.width == 8
    ensures AddAt(mem, Fixup(f.addr + 4, 4), e) == AddAt(mem, f, 0x1_0000_0000 * e)
  {
    var g := Fixup(f.addr + 4, 4);
    var out := AddAt(mem, g, e);
    assert Word(out, f) == Wrap(Word(mem, f) + 0x1_0000_0000 * e, 8) by {
      TwoHalves(mem, f.addr);
      TwoHalves(out, f.addr);
      WordAfterAdd(mem, g, e);
      OtherWord(mem, g, e, f.addr, f.addr + 4);
      WrapHigh(Word(mem, Fixup(f.addr, 4)), Word(mem, g) + e);
    }
    assert Elsewhere(mem, out, f) by {
      forall i | 0 <= i < |mem| && !(f.addr <= i < f.addr + 8) ensures out[i] == mem[i] { ByteAfterAdd(mem, g, e, i); }
    }
    AddedIs(mem, out, f, 0x1_0000_0000 * e);
  }

  lemma {:induction false} AddHalves(mem: seq<Byte>, f: Fixup, d: int, e: int)
    requires Inside(mem, f) && f.width == 8
    ensures var g := Fixup(f.addr + 4, 4); AddAt(AddAt(mem, f, d), g, e) == AddAt(AddAt(mem, g, e), f, d)
  {
    HighHalf(AddAt(mem, f, d), f, e);
    HighHalf(mem, f, e);
    AddTwice(mem, f, d, 0x1_0000_0000 * e);
    AddTwice(mem, f, 0x1_0000_0000 * e, d);
  }

  lemma {:induction false} AddsCommute(mem: seq<Byte>, f: Fixup, d: int, g: Fixup, e: int, low: nat)
    requires Inside(mem, f) && Inside(mem, g) && low < 4 && Spares(d, low) && Spares(e, low) && Apart(f, g, low)
    ensures AddAt(AddAt(mem, f, d), g, e) == AddAt(AddAt(mem, g, e), f, d)
  {
    if f == g {
      AddTwice(mem, f, d, e);
      AddTwice(mem, f, e, d);
    } else if f.addr + f.width <= g.addr + low {
      AddBefore(mem, f, d, g, e, low);
    } else if g.addr + g.width <= f.addr + low {
      AddBefore(mem, g, e, f, d, low);
    } else if f.width == 8 {
      AddHalves(mem, f, d, e);
    } else {
      AddHalves(mem, g, e, d);
    }
  }

  lemma {:induction false} AddAllCommutes(mem: seq<Byte>, fs: seq<Fixup>, d: int, f: Fixup, e: int, low: nat)
    requires AllInside(mem, fs) && Inside(mem, f) && low < 4 && Spares(d, low) && Spares(e, low)
    requires forall i :: 0 <= i < |fs| ==> Apart(f, fs[i], low)
    ensures AddAt(AddAll(mem, fs, d), f, e) == AddAll(AddAt(mem, f, e), fs, d)
    decreases |fs|
  {
    if fs != [] {
      AddsCommute(mem, f, e, fs[0], d, low);
      AddAllCommutes(AddAt(mem, fs[0], d), fs[1..], d, f, e, low);
    }
  }

  lemma {:induction false} SparesBack(d: int, low: nat)
    requires Spares(d, low)
    ensures Spares(-d, low)
  {
    var p, k := Pow256(low), d / Pow256(low);
    assert d == p * k;
    assert -d == p * (-k) + 0;
    ModUnique(-d, p, -k, 0);
  }

  lemma {:induction false} AddAndTake(mem: seq<Byte>, f: Fixup, d: int)
    requires Inside(mem, f)
    ensures AddAt(AddAt(mem, f, d), f, -d) == mem
  {
    AddTwice(mem, f, d, -d);
    AddNothing(mem, f);
  }

  /** Adding an offset to words that are pairwise disjoint above what it spares, or end together,
      and taking it away again in the same order, restores every byte. */
  lemma {:induction false} AddAllInverse(mem: seq<Byte>, fs: seq<Fixup>, d: int, low: nat)
    requires AllInside(mem, fs) && low < 4 && Spares(d, low) && AllApart(fs, low)
    ensures AddAll(AddAll(mem, fs, d), fs, -d) == mem
    decreases |fs|
  {
    if fs != [] {
      var f, rest := fs[0], fs[1..];
      SparesBack(d, low);
      AddAllCommutes(AddAt(mem, f, d), rest, d, f, -d, low);
      AddAndTake(mem, f, d);
      AddAllInverse(mem, rest, d, low);
    }
  }

  // ----- the table -----

  const ABSOLUTE := 0
  const HIGHLOW := 3
  const DIR64 := 10

  function U16(mem: seq<Byte>, p: nat): nat
    requires p + 2 <= |mem|
  {
    mem[p] as int + 0x100 * mem[p + 1] as int
  }

  function U32(mem: seq<Byte>, p: nat): nat
    requires p + 4 <= |mem|
  {
    mem[p] as int + 0x100 * mem[p + 1] as int + 0x1_0000 * mem[p + 2] as int + 0x100_0000 * mem[p + 3] as int
  }

  lemma {:induction false} ReadU16(mem: seq<Byte>, p: nat)
    requires p + 2 <= |mem|
    ensures U16(mem, p) == LittleEndian(mem[p..p + 2])
  {
    var bytes := mem[p..p + 2];
    assert bytes[1..][1..] == [];
    assert LittleEndian(bytes[1..]) == bytes[1];
  }

  lemma {:induction false} ReadU32(mem: seq<Byte>, p: nat)
    requires p + 4 <= |mem|
    ensures U32(mem, p) == LittleEndian(mem[p..p + 4])
  {
    ReadU16(mem, p);
    ReadU16(mem, p + 2);
    Pow256Values();
    assert mem[p..p + 4] == mem[p..p + 2] + mem[p + 2..p + 4];
    LittleSplit(mem[p..p + 2], mem[p + 2..p + 4]);
  }

  /** The words a walk relocates, in order, and whether it gets to the end. */
  datatype Plan = Plan(fixups: seq<Fixup>, complete: bool)

  /** What one 16-bit entry asks for: its top four bits are the type, the others an offset
      from the block's page. */
  datatype Entry = Skip | Fix(fixup: Fixup) | Unknown

  function EntryAt(mem: seq<Byte>, block: nat, i: nat): Entry
    requires block + 8 + 2 * i + 2 <= |mem|
  {
    var entry := U16(mem, block + 8 + 2 * i);
    var rva := (entry % 0x1000 + U32(mem, block)) % 0x1_0000_0000;
    if entry / 0x1000 == HIGHLOW then Fix(Fixup(rva, 4))
    else if entry / 0x1000 == DIR64 then Fix(Fixup(rva, 8))
    else if entry / 0x1000 == ABSOLUTE then Skip
    else Unknown
  }

  /** The entries from `i` on of the block at `block`, which holds `n`. */
  function BlockPlan(mem: seq<Byte>, block: nat, i: nat, n: nat): Plan
    requires i <= n && block + 8 + 2 * n <= |mem|
    decreases n - i
  {
    if i == n then Plan([], true)
    else
      var rest := BlockPlan(mem, block, i + 1, n);
      match EntryAt(mem, block, i)
      case Fix(f) => rest.(fixups := [f] + rest.fixups)
      case Skip => rest
      case Unknown => Plan([], false)
  }

  /** Every block the walk enters lies below `limit` and holds at least its own header. */
  ghost predicate TableOk(mem: seq<Byte>, pos: nat, end: nat, limit: nat)
    requires limit <= |mem|
    decreases if pos < end then end - pos else 0
  {
    pos < end ==>
      && pos + 8 <= limit
      && var size := U32(mem, pos + 4);
        size != 0 ==>
          && 8 <= size && pos + size <= limit
          && (BlockPlan(mem, pos, 0, (size - 8) / 2).complete ==> TableOk(mem, pos + size, end, limit))
  }

  ghost function TablePlan(mem: seq<Byte>, pos: nat, end: nat, limit: nat): Plan
    requires limit <= |mem| && TableOk(mem, pos, end, limit)
    decreases if pos < end then end - pos else 0
  {
    if pos >= end || U32(mem, pos + 4) == 0 then Plan([], true)
    else
      var size := U32(mem, pos + 4);
      var b := BlockPlan(mem, pos, 0, (size - 8) / 2);
      if !b.complete then b
      else
        var t := TablePlan(mem, pos + size, end, limit);
        Plan(b.fixups + t.fixups, t.complete)
  }

  /** Two images with the same table. */
  ghost predicate SameTable(a: seq<Byte>, b: seq<Byte>, start: nat, limit: nat) {
    |a| == |b| && start <= limit <= |a| && a[start..limit] == b[start..limit]
  }

  lemma SameReads(a: seq<Byte>, b: seq<Byte>, start: nat, limit: nat, p: nat, k: nat)
    requires SameTable(a, b, start, limit) && start <= p && p + k <= limit
    ensures forall i :: p <= i < p + k ==> a[i] == b[i]
  {
    forall i | p <= i < p + k ensures a[i] == b[i] {
      assert a[i] == a[start..limit][i - start] && b[i] == b[start..limit][i - start];
    }
  }

  lemma {:induction false} SameEntry(a: seq<Byte>, b: seq<Byte>, start: nat, limit: nat, block: nat, i: nat)
    requires SameTable(a, b, start, limit) && start <= block && block + 8 + 2 * i + 2 <= limit
    ensures EntryAt(a, block, i) == EntryAt(b, block, i)
  {
    SameReads(a, b, start, limit, block, 4);
    SameReads(a, b, start, limit, block + 8 + 2 * i, 2);
  }

  lemma {:induction false} SameBlockPlan(a: seq<Byte>, b: seq<Byte>, start: nat, limit: nat, block: nat, i: nat, n: nat)
    requires SameTable(a, b, start, limit) && start <= block && i <= n && block + 8 + 2 * n <= limit
    ensures BlockPlan(a, block, i, n) == BlockPlan(b, block, i, n)
    decreases n - i
  {
    if i < n {
      SameEntry(a, b, start, limit, block, i);
      SameBlockPlan(a, b, start, limit, block, i + 1, n);
    }
  }

  /** A table is its first block and the rest. */
  lemma {:induction false} PlanParts(mem: seq<Byte>, pos: nat, end: nat, limit: nat, size: nat, b: Plan)
    requires pos < end && pos + 8 <= limit <= |mem| && size == U32(mem, pos + 4) && 8 <= size && pos + size <= limit
    requires BlockPlan(mem, pos, 0, (size - 8) / 2) == b
    ensures TableOk(mem, pos, end, limit) <==> (b.complete ==> TableOk(mem, pos + size, end, limit))
    ensures TableOk(mem, pos, end, limit) ==>
      TablePlan(mem, pos, end, limit) ==
        if !b.complete then b
        else var t := TablePlan(mem, pos + size, end, limit); Plan(b.fixups + t.fixups, t.complete)
  {
  }

  lemma {:induction false} SameTablePlan(a: seq<Byte>, b: seq<Byte>, start: nat, limit: nat, pos: nat, end: nat)
    requires SameTable(a, b, start, limit) && start <= pos && TableOk(a, pos, end, limit)
    ensures TableOk(b, pos, end, limit) && TablePlan(a, pos, end, limit) == TablePlan(b, pos, end, limit)
    decreases if pos < end then end - pos else 0
  {
    if pos < end {
      SameReads(a, b, start, limit, pos + 4, 4);
      var size := U32(a, pos + 4);
      if size != 0 {
        var plan := BlockPlan(a, pos, 0, (size - 8) / 2);
        SameBlockPlan(a, b, start, limit, pos, 0, (size - 8) / 2);
        PlanParts(a, pos, end, limit, size, plan);
        PlanParts(b, pos, end, limit, size, plan);
        if plan.complete { SameTablePlan(a, b, start, limit, pos + size, end); }
      }
    }
  }

  /** What a relocatable image promises: a well-formed table from `table` to below `limit`, and
      words inside the image that avoid the table. */
  ghost predicate Relocatable(mem: seq<Byte>, table: nat, end: nat, limit: nat) {
    && table <= limit <= |mem| && TableOk(mem, table, end, limit)
    && var fs := TablePlan(mem, table, end, limit).fixups;
      && AllInside(mem, fs)
      && forall i :: 0 <= i < |fs| ==> Avoids(fs[i], table, limit)
  }

  /** Moreover these words are pairwise disjoint above the spared bytes, or end together. */
  ghost predicate Restorable(mem: seq<Byte>, table: nat, end: nat, limit: nat, low: nat) {
    Relocatable(mem, table, end, limit) && AllApart(TablePlan(mem, table, end, limit).fixups, low)
  }

  predicate Avoids(f: Fixup, lo: nat, hi: nat) {
    f.addr + f.width <= lo || hi <= f.addr
  }

  lemma {:induction false} AddAllKeepsTable(mem: seq<Byte>, fs: seq<Fixup>, d: int, lo: nat, hi: nat)
    requires AllInside(mem, fs) && lo <= hi <= |mem|
    requires forall i :: 0 <= i < |fs| ==> Avoids(fs[i], lo, hi)
    ensures AddAll(mem, fs, d)[lo..hi] == mem[lo..hi]
    decreases |fs|
  {
    if fs != [] {
      OtherWord(mem, fs[0], d, lo, hi);
      AddAllKeepsTable(AddAt(mem, fs[0], d), fs[1..], d, lo, hi);
    }
  }

  /** The image after a walk that adds `delta`. */
  ghost function Relocated(mem: seq<Byte>, table: nat, end: nat, limit: nat, delta: int): seq<Byte>
    requires Relocatable(mem, table, end, limit)
  {
    AddAll(mem, TablePlan(mem, table, end, limit).fixups, delta)
  }

  lemma RelocatedKeepsPlan(mem: seq<Byte>, table: nat, end: nat, limit: nat, delta: int)
    requires Relocatable(mem, table, end, limit)
    ensures var r := Relocated(mem, table, end, limit, delta);
      Relocatable(r, table, end, limit) && TablePlan(r, table, end, limit) == TablePlan(mem, table, end, limit)
  {
    var r := Relocated(mem, table, end, limit, delta);
    AddAllKeepsTable(mem, TablePlan(mem, table, end, limit).fixups, delta, table, limit);
    SameTablePlan(mem, r, table, limit, table, end);
  }

  // ----- the walks, on any image -----

  /** How a walk ends: at the end of the table, at an unknown type, or by leaving the image. */
  datatype Outcome = Done | Refused | Fault

  datatype Walk = Walk(mem: seq<Byte>, outcome: Outcome)

  /** The number of entries of a block of this size; for a block shorter than its own header the
      unsigned subtraction wraps around. */
  function Entries(size: nat): nat {
    if size >= 8 then (size - 8) / 2
    else (size - 8 + 0x1_0000_0000_0000_0000) / 2
  }

  /** What a walk does to the words it comes to. */
  type Adder = add: (seq<Byte>, Fixup) -> seq<Byte> | forall mem, f :: |add(mem, f)| == |mem| witness (mem, f) => mem

  function Adding(delta: int): Adder {
    (mem: seq<Byte>, f: Fixup) => if Inside(mem, f) then AddAt(mem, f, delta) else mem
  }

  /** The entries from `i` on, read from the image that is being changed. */
  function WalkEntries(add: Adder, mem: seq<Byte>, block: nat, i: nat, n: nat): (w: Walk)
    requires i <= n
    ensures |w.mem| == |mem|
    decreases n - i
  {
    if i == n then Walk(mem, Done)
    else if block + 8 + 2 * i + 2 > |mem| then Walk(mem, Fault)
    else
      match EntryAt(mem, block, i)
      case Fix(f) => if Inside(mem, f) then WalkEntries(add, add(mem, f), block, i + 1, n) else Walk(mem, Fault)
      case Skip => WalkEntries(add, mem, block, i + 1, n)
      case Unknown => Walk(mem, Refused)
  }

  /** The blocks from `pos` on; a block's size is read again after its entries. */
  function WalkFrom(add: Adder, mem: seq<Byte>, pos: nat, end: nat): (w: Walk)
    ensures |w.mem| == |mem|
    decreases if pos < end then end - pos else 0
  {
    if pos >= end then Walk(mem, Done)
    else if pos + 8 > |mem| then Walk(mem, Fault)
    else if U32(mem, pos + 4) == 0 then Walk(mem, Done)
    else
      var w := WalkEntries(add, mem, pos, 0, Entries(U32(mem, pos + 4)));
      if w.outcome != Done || U32(w.mem, pos + 4) == 0 then w
      else WalkFrom(add, w.mem, pos + U32(w.mem, pos + 4), end)
  }

  /** The whole walk, adding an offset. */
  function Walked(mem: seq<Byte>, table: nat, end: nat, delta: int): Walk {
    WalkFrom(Adding(delta), mem, table, end)
  }

  // ----- what a walk does to a relocatable image -----

  function DoAll(add: Adder, mem: seq<Byte>, fs: seq<Fixup>): (r: seq<Byte>)
    ensures |r| == |mem|
    decreases |fs|
  {
    if fs == [] then mem else DoAll(add, add(mem, fs[0]), fs[1..])
  }

  lemma {:induction false} DoAllConcat(add: Adder, mem: seq<Byte>, fs: seq<Fixup>, gs: seq<Fixup>)
    ensures DoAll(add, mem, fs + gs) == DoAll(add, DoAll(add, mem, fs), gs)
    decreases |fs|
  {
    if fs == [] {
      assert fs + gs == gs;
    } else {
      assert (fs + gs)[0] == fs[0] && (fs + gs)[1..] == fs[1..] + gs;
      DoAllConcat(add, add(mem, fs[0]), fs[1..], gs);
    }
  }

  /** It changes no byte outside the word. */
  ghost predicate Local(add: Adder) {
    forall mem: seq<Byte>, f: Fixup, i: nat :: i < |mem| && !(f.addr <= i < f.addr + f.width) ==> add(mem, f)[i] == mem[i]
  }

  /** Words inside the image that avoid the table. */
  ghost predicate Outside(mem: seq<Byte>, fs: seq<Fixup>, lo: nat, hi: nat) {
    AllInside(mem, fs) && forall i :: 0 <= i < |fs| ==> Avoids(fs[i], lo, hi)
  }

  function Ending(complete: bool): Outcome { if complete then Done else Refused }

  lemma {:induction false} FixAvoids(add: Adder, now: seq<Byte>, f: Fixup, rest: seq<Fixup>, orig: seq<Byte>, lo: nat, hi: nat)
    requires Local(add) && SameTable(now, orig, lo, hi) && Outside(now, [f] + rest, lo, hi)
    ensures Inside(now, f) && SameTable(add(now, f), orig, lo, hi) && Outside(add(now, f), rest, lo, hi)
    ensures DoAll(add, now, [f] + rest) == DoAll(add, add(now, f), rest)
  {
    var fs := [f] + rest;
    assert fs[0] == f && fs[1..] == rest;
    assert forall i :: 0 <= i < |rest| ==> rest[i] == fs[i + 1];
    assert forall i: nat :: lo <= i < hi ==> add(now, f)[i] == now[i];
  }

  /** A walk of a block whose words avoid the table does as planned from the image `orig`, which
      has the same table. */
  lemma {:induction false} EntriesPlanned(add: Adder, orig: seq<Byte>, now: seq<Byte>, block: nat, i: nat, n: nat, lo: nat, hi: nat)
    requires Local(add) && SameTable(now, orig, lo, hi) && lo <= block && i <= n && block + 8 + 2 * n <= hi
    requires Outside(now, BlockPlan(orig, block, i, n).fixups, lo, hi)
    ensures var plan := BlockPlan(orig, block, i, n);
      WalkEntries(add, now, block, i, n) == Walk(DoAll(add, now, plan.fixups), Ending(plan.complete))
    decreases n - i
  {
    if i < n {
      SameEntry(now, orig, lo, hi, block, i);
      match EntryAt(orig, block, i) {
        case Fix(f) => FixPlanned(add, orig, now, block, i, n, lo, hi, f, BlockPlan(orig, block, i + 1, n));
        case Skip => EntriesPlanned(add, orig, now, block, i + 1, n, lo, hi);
        case Unknown =>
      }
    }
  }

  lemma {:induction false} FixPlanned(add: Adder, orig: seq<Byte>, now: seq<Byte>, block: nat, i: nat, n: nat, lo: nat, hi: nat,
      f: Fixup, rest: Plan)
    requires Local(add) && SameTable(now, orig, lo, hi) && lo <= block && i < n && block + 8 + 2 * n <= hi
    requires EntryAt(now, block, i) == Fix(f) && BlockPlan(orig, block, i + 1, n) == rest && Outside(now, [f] + rest.fixups, lo, hi)
    ensures WalkEntries(add, now, block, i, n) == Walk(DoAll(add, now, [f] + rest.fixups), Ending(rest.complete))
    decreases n - i, 0
  {
    FixAvoids(add, now, f, rest.fixups, orig, lo, hi);
    EntriesPlanned(add, orig, add(now, f), block, i + 1, n, lo, hi);
  }

  /** One block of a walk, as it was done: on to the next. */
  lemma {:induction false} WalkOn(add: Adder, mem: seq<Byte>, pos: nat, end: nat, next: seq<Byte>)
    requires pos < end && pos + 8 <= |mem| && U32(mem, pos + 4) != 0
    requires WalkEntries(add, mem, pos, 0, Entries(U32(mem, pos + 4))) == Walk(next, Done) && U32(next, pos + 4) != 0
    ensures WalkFrom(add, mem, pos, end) == WalkFrom(add, next, pos + U32(next, pos + 4), end)
  {
  }

  lemma {:induction false} WalkStops(add: Adder, mem: seq<Byte>, pos: nat, end: nat, w: Walk)
    requires pos < end && pos + 8 <= |mem| && U32(mem, pos + 4) != 0
    requires WalkEntries(add, mem, pos, 0, Entries(U32(mem, pos + 4))) == w && w.outcome != Done
    ensures WalkFrom(add, mem, pos, end) == w
  {
  }

  lemma {:induction false} OutsideParts(mem: seq<Byte>, fs: seq<Fixup>, gs: seq<Fixup>, lo: nat, hi: nat)
    requires Outside(mem, fs + gs, lo, hi)
    ensures Outside(mem, fs, lo, hi) && Outside(mem, gs, lo, hi)
  {
    assert forall i :: 0 <= i < |fs| ==> fs[i] == (fs + gs)[i];
    assert forall i :: 0 <= i < |gs| ==> gs[i] == (fs + gs)[|fs| + i];
  }

  /** The image after a block has the same table. */
  lemma {:induction false} TableAfter(add: Adder, orig: seq<Byte>, now: seq<Byte>, fs: seq<Fixup>, lo: nat, hi: nat)
    requires Local(add) && SameTable(now, orig, lo, hi) && Outside(now, fs, lo, hi)
    ensures SameTable(DoAll(add, now, fs), orig, lo, hi)
    decreases |fs|
  {
    if fs != [] {
      assert fs == [fs[0]] + fs[1..];
      FixAvoids(add, now, fs[0], fs[1..], orig, lo, hi);
      TableAfter(add, orig, add(now, fs[0]), fs[1..], lo, hi);
    }
  }

  /** The same for the whole table. */
  lemma {:induction false} TablePlanned(add: Adder, orig: seq<Byte>, now: seq<Byte>, lo: nat, pos: nat, end: nat, limit: nat)
    requires Local(add) && SameTable(now, orig, lo, limit) && lo <= pos && TableOk(orig, pos, end, limit)
    requires Outside(now, TablePlan(orig, pos, end, limit).fixups, lo, limit)
    ensures var plan := TablePlan(orig, pos, end, limit);
      WalkFrom(add, now, pos, end) == Walk(DoAll(add, now, plan.fixups), Ending(plan.complete))
    decreases if pos < end then end - pos else 0
  {
    if pos < end {
      var size := U32(orig, pos + 4);
      if size == 0 {
        NoBlockPlanned(add, orig, now, lo, pos, end, limit);
      } else {
        var b := BlockPlan(orig, pos, 0, (size - 8) / 2);
        PlanParts(orig, pos, end, limit, size, b);
        if b.complete {
          BlockPlanned(add, orig, now, lo, pos, end, limit, size, b, TablePlan(orig, pos + size, end, limit));
        } else {
          LastBlockPlanned(add, orig, now, lo, pos, end, limit, size, b);
        }
      }
    }
  }

  lemma {:induction false} NoBlockPlanned(add: Adder, orig: seq<Byte>, now: seq<Byte>, lo: nat, pos: nat, end: nat, limit: nat)
    requires SameTable(now, orig, lo, limit) && lo <= pos < end && pos + 8 <= limit && U32(orig, pos + 4) == 0
    ensures WalkFrom(add, now, pos, end) == Walk(now, Done)
  {
    SameReads(now, orig, lo, limit, pos + 4, 4);
  }

  /** The walk of the first block; `size` is the same in both images. */
  lemma {:induction false} BlockWalked(add: Adder, orig: seq<Byte>, now: seq<Byte>, lo: nat, pos: nat, limit: nat, size: nat, b: Plan)
    requires Local(add) && SameTable(now, orig, lo, limit) && lo <= pos && pos + 8 <= limit && size == U32(orig, pos + 4)
    requires 8 <= size && pos + size <= limit && BlockPlan(orig, pos, 0, (size - 8) / 2) == b && Outside(now, b.fixups, lo, limit)
    ensures U32(now, pos + 4) == size
    ensures WalkEntries(add, now, pos, 0, Entries(size)) == Walk(DoAll(add, now, b.fixups), Ending(b.complete))
  {
    SameReads(now, orig, lo, limit, pos + 4, 4);
    EntriesPlanned(add, orig, now, pos, 0, (size - 8) / 2, lo, limit);
  }

  lemma {:induction false} LastBlockPlanned(add: Adder, orig: seq<Byte>, now: seq<Byte>, lo: nat, pos: nat, end: nat, limit: nat,
      size: nat, b: Plan)
    requires Local(add) && SameTable(now, orig, lo, limit) && lo <= pos < end && pos + 8 <= limit && size == U32(orig, pos + 4)
    requires 8 <= size && pos + size <= limit && BlockPlan(orig, pos, 0, (size - 8) / 2) == b && !b.complete
    requires Outside(now, b.fixups, lo, limit)
    ensures WalkFrom(add, now, pos, end) == Walk(DoAll(add, now, b.fixups), Refused)
  {
    BlockWalked(add, orig, now, lo, pos, limit, size, b);
    WalkStops(add, now, pos, end, Walk(DoAll(add, now, b.fixups), Refused));
  }

  /** A block `b` that is not the end. */
  lemma {:induction false} FirstBlockPlanned(add: Adder, orig: seq<Byte>, now: seq<Byte>, lo: nat, pos: nat, end: nat, limit: nat,
      size: nat, b: Plan)
    requires Local(add) && SameTable(now, orig, lo, limit) && lo <= pos < end && pos + 8 <= limit && size == U32(orig, pos + 4)
    requires 8 <= size && pos + size <= limit && BlockPlan(orig, pos, 0, (size - 8) / 2) == b && b.complete
    requires Outside(now, b.fixups, lo, limit)
    ensures SameTable(DoAll(add, now, b.fixups), orig, lo, limit)
    ensures WalkFrom(add, now, pos, end) == WalkFrom(add, DoAll(add, now, b.fixups), pos + size, end)
  {
    var next := DoAll(add, now, b.fixups);
    BlockWalked(add, orig, now, lo, pos, limit, size, b);
    TableAfter(add, orig, now, b.fixups, lo, limit);
    SameReads(next, orig, lo, limit, pos + 4, 4);
    WalkOn(add, now, pos, end, next);
  }

  /** That block, and the rest `t`. */
  lemma {:induction false} BlockPlanned(add: Adder, orig: seq<Byte>, now: seq<Byte>, lo: nat, pos: nat, end: nat, limit: nat,
      size: nat, b: Plan, t: Plan)
    requires Local(add) && SameTable(now, orig, lo, limit) && lo <= pos < end && pos + 8 <= limit && size == U32(orig, pos + 4)
    requires 8 <= size && pos + size <= limit && BlockPlan(orig, pos, 0, (size - 8) / 2) == b && b.complete
    requires TableOk(orig, pos + size, end, limit) && TablePlan(orig, pos + size, end, limit) == t
    requires Outside(now, b.fixups + t.fixups, lo, limit)
    ensures WalkFrom(add, now, pos, end) == Walk(DoAll(add, now, b.fixups + t.fixups), Ending(t.complete))
    decreases end - pos, 0
  {
    var next := DoAll(add, now, b.fixups);
    OutsideParts(now, b.fixups, t.fixups, lo, limit);
    FirstBlockPlanned(add, orig, now, lo, pos, end, limit, size, b);
    TablePlanned(add, orig, next, lo, pos + size, end, limit);
    DoAllConcat(add, now, b.fixups, t.fixups);
  }

  lemma {:induction false} AddingIsLocal(delta: int)
    ensures Local(Adding(delta))
  {
    forall mem: seq<Byte>, f: Fixup, i: nat | i < |mem| && !(f.addr <= i < f.addr + f.width)
      ensures Adding(delta)(mem, f)[i] == mem[i]
    {
      if Inside(mem, f) { ByteAfterAdd(mem, f, delta, i); }
    }
  }

  lemma {:induction false} AddingAll(mem: seq<Byte>, fs: seq<Fixup>, delta: int)
    requires AllInside(mem, fs)
    ensures DoAll(Adding(delta), mem, fs) == AddAll(mem, fs, delta)
    decreases |fs|
  {
    if fs != [] { AddingAll(AddAt(mem, fs[0], delta), fs[1..], delta); }
  }

  /** On a relocatable image a walk relocates exactly the planned words, although it reads the
      table from the image it changes. */
  lemma WalkedAsPlanned(mem: seq<Byte>, table: nat, end: nat, limit: nat, delta: int)
    requires Relocatable(mem, table, end, limit)
    ensures Walked(mem, table, end, delta)
      == Walk(Relocated(mem, table, end, limit, delta), Ending(TablePlan(mem, table, end, limit).complete))
  {
    AddingIsLocal(delta);
    TablePlanned(Adding(delta), mem, mem, table, table, end, limit);
    AddingAll(mem, TablePlan(mem, table, end, limit).fixups, delta);
  }

  lemma {:induction false} TooManyEntries(add: Adder, mem: seq<Byte>, block: nat, i: nat, n: nat)
    requires i <= n && block + 8 + 2 * n > |mem| >= block + 8 + 2 * i
    ensures WalkEntries(add, mem, block, i, n).outcome != Done
    decreases n - i
  {
    if block + 8 + 2 * i + 2 <= |mem| {
      match EntryAt(mem, block, i) {
        case Fix(f) => if Inside(mem, f) { TooManyEntries(add, add(mem, f), block, i + 1, n); }
        case Skip => TooManyEntries(add, mem, block, i + 1, n);
        case Unknown =>
      }
    }
  }

  /** No walk gets past a block that is shorter than its own header, or whose entries reach out of
      the image. */
  lemma BadBlockEndsWalk(mem: seq<Byte>, pos: nat, end: nat, delta: int)
    requires pos < end && pos + 8 <= |mem| < 0x1_0000_0000_0000_0000
    requires var size := U32(mem, pos + 4); 0 < size < 8 || pos + size - size % 2 > |mem|
    ensures Walked(mem, pos, end, delta).outcome != Done
  {
    TooManyEntries(Adding(delta), mem, pos, 0, Entries(U32(mem, pos + 4)));
  }

  lemma {:induction false} WalkedOver(mem: seq<Byte>, table: nat, end: nat, limit: nat, delta: int, plan: Plan, r: seq<Byte>)
    requires Relocatable(mem, table, end, limit) && plan == TablePlan(mem, table, end, limit) && r == AddAll(mem, plan.fixups, delta)
    ensures Walked(mem, table, end, delta) == Walk(r, Ending(plan.complete))
    ensures Relocatable(r, table, end, limit) && TablePlan(r, table, end, limit) == plan
  {
    WalkedAsPlanned(mem, table, end, limit, delta);
    RelocatedKeepsPlan(mem, table, end, limit, delta);
  }

  /** A walk with an offset and one with its opposite go over the same words. */
  lemma {:induction false} WalkedTwice(mem: seq<Byte>, table: nat, end: nat, limit: nat, delta: int, plan: Plan)
    requires Relocatable(mem, table, end, limit) && plan == TablePlan(mem, table, end, limit)
    ensures Walked(mem, table, end, delta).outcome == Ending(plan.complete)
    ensures Walked(Walked(mem, table, end, delta).mem, table, end, -delta)
      == Walk(AddAll(AddAll(mem, plan.fixups, delta), plan.fixups, -delta), Ending(plan.complete))
  {
    var r := AddAll(mem, plan.fixups, delta);
    WalkedOver(mem, table, end, limit, delta, plan, r);
    WalkedOver(r, table, end, limit, -delta, plan, AddAll(r, plan.fixups, -delta));
  }

  /** Relocating by an offset and then by its opposite restores every byte and ends alike, also if
      the walk stops early at an entry of unknown type. */
  lemma {:induction false} RelocationInverse(mem: seq<Byte>, table: nat, end: nat, limit: nat, low: nat, delta: int)
    requires low < 4 && Restorable(mem, table, end, limit, low) && Spares(delta, low)
    ensures var w := Walked(mem, table, end, delta);
      w.outcome != Fault && Walked(w.mem, table, end, -delta) == Walk(mem, w.outcome)
  {
    var plan := TablePlan(mem, table, end, limit);
    AddAllInverse(mem, plan.fixups, delta, low);
    WalkedTwice(mem, table, end, limit, delta, plan);
  }

  // ----- the walks in place -----

  /** Adds to one word of the array, as the casted pointers of the original do. */
  method AddWord(a: array<Byte>, addr: nat, width: nat, delta: int)
    requires Inside(a[..], Fixup(addr, width))
    modifies a
    ensures a[..] == AddAt(old(a[..]), Fixup(addr, width), delta)
  {
    var bytes := LittleBytes(Wrap(LittleEndian(a[addr..addr + width]) + delta, width), width);
    for k := 0 to width
      invariant forall i :: 0 <= i < a.Length ==>
        a[i] == if addr <= i < addr + k then bytes[i - addr] else old(a[i])
    {
      a[addr + k] := bytes[k];
    }
    forall i | 0 <= i < a.Length ensures a[i] == AddAt(old(a[..]), Fixup(addr, width), delta)[i] {
      ByteAfterAdd(old(a[..]), Fixup(addr, width), delta, i);
    }
  }

  /** The inner loop: the `n` entries of one block. */
  method WalkBlock(a: array<Byte>, block: nat, n: nat, delta: int) returns (outcome: Outcome)
    modifies a
    ensures Walk(a[..], outcome) == WalkEntries(Adding(delta), old(a[..]), block, 0, n)
  {
    for i := 0 to n
      invariant WalkEntries(Adding(delta), a[..], block, i, n) == WalkEntries(Adding(delta), old(a[..]), block, 0, n)
    {
      if block + 8 + 2 * i + 2 > a.Length { return Fault; }
      match EntryAt(a[..], block, i) {
        case Fix(f) =>
          if !Inside(a[..], f) { return Fault; }
          AddWord(a, f.addr, f.width, delta);
        case Skip =>
        case Unknown => return Refused;
      }
    }
    return Done;
  }

  /** One round of the loop over the blocks: `size` is how far to go on, zero to stop. */
  method WalkRound(a: array<Byte>, pos: nat, end: nat, delta: int) returns (size: nat, outcome: Outcome)
    requires pos < end
    modifies a
    ensures size == 0 ==> Walk(a[..], outcome) == Walked(old(a[..]), pos, end, delta)
    ensures size > 0 ==> Walked(a[..], pos + size, end, delta) == Walked(old(a[..]), pos, end, delta)
  {
    ghost var mem := a[..];
    if pos + 8 > a.Length { return 0, Fault; }
    size := U32(a[..], pos + 4);
    if size == 0 { return 0, Done; }
    outcome := WalkBlock(a, pos, Entries(size), delta);
    if outcome != Done { return 0, outcome; }
    size := U32(a[..], pos + 4);
    if size != 0 { WalkOn(Adding(delta), mem, pos, end, a[..]); }
  }

  /** The loop over the blocks, common to applying and un-applying. */
  method WalkTable(a: array<Byte>, table: nat, end: nat, delta: int) returns (outcome: Outcome)
    modifies a
    ensures Walk(a[..], outcome) == Walked(old(a[..]), table, end, delta)
  {
    var pos := table;
    while pos < end
      invariant Walked(a[..], pos, end, delta) == Walked(old(a[..]), table, end, delta)
      decreases end - pos
    {
      var size;
      size, outcome := WalkRound(a, pos, end, delta);
      if size == 0 { return; }
      pos := pos + size;
    }
    return Done;
  }

  /** `ApplyRelocations`, with the table's place read from the headers; `Refused` is its false, and
      after a `Fault` there is no result. */
  method ApplyRelocations(a: array<Byte>, table: nat, end: nat, offset: int) returns (outcome: Outcome)
    modifies a
    ensures offset == 0 ==> outcome == Done && a[..] == old(a[..])
    ensures offset != 0 ==> Walk(a[..], outcome) == Walked(old(a[..]), table, end, offset)
  {
    if offset == 0 { return Done; }
    outcome := WalkTable(a, table, end, offset);
  }

  /** `UnapplyRelocations`: adds the offset if `again`, else subtracts it. */
  method UnapplyRelocations(a: array<Byte>, table: nat, end: nat, offset: int, again: bool) returns (outcome: Outcome)
    modifies a
    ensures offset == 0 ==> outcome == Done && a[..] == old(a[..])
    ensures offset != 0 ==> Walk(a[..], outcome) == Walked(old(a[..]), table, end, if again then offset else -offset)
  {
    if offset == 0 { return Done; }
    outcome := WalkTable(a, table, end, if again then offset else -offset);
  }

  /** The dump of a loaded image: what loading applied is taken away, and put back after. */
  method UnapplyUndoesApply(a: array<Byte>, table: nat, end: nat, offset: int, ghost limit: nat, ghost low: nat)
    requires offset != 0 ==> low < 4 && Restorable(a[..], table, end, limit, low) && Spares(offset, low)
    modifies a
    ensures a[..] == old(a[..])
  {
    if offset != 0 { RelocationInverse(a[..], table, end, limit, low, offset); }
    var _ := ApplyRelocations(a, table, end, offset);
    var _ := UnapplyRelocations(a, table, end, offset, false);
  }

  method ReapplyUndoesUnapply(a: array<Byte>, table: nat, end: nat, offset: int, ghost limit: nat, ghost low: nat)
    requires offset != 0 ==> low < 4 && Restorable(a[..], table, end, limit, low) && Spares(offset, low)
    modifies a
    ensures a[..] == old(a[..])
  {
    if offset != 0 {
      SparesBack(offset, low);
      RelocationInverse(a[..], table, end, limit, low, -offset);
    }
    var _ := UnapplyRelocations(a, table, end, offset, false);
    var _ := UnapplyRelocations(a, table, end, offset, true);
  }
}
