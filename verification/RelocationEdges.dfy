/** The walks where the table is not all there is to it: a word outside the image, an empty block
    before the end of the table, and a table that relocates itself. */
module RelocationEdges {
  import opened MachineWords
  import opened Relocations
  import opened RelocationTables

  // ----- a word outside the image -----

  lemma {:induction false} PrefixCons(f: Fixup, rest: seq<Fixup>, k: nat)
    requires 0 < k <= |rest| + 1
    ensures ([f] + rest)[..k] == [f] + rest[..k - 1]
    ensures k <= |rest| ==> ([f] + rest)[k] == rest[k - 1]
  {
  }

  /** One entry that names a word, with the first word outside the image still to come or here. */
  lemma {:induction false} FixFaults(add: Adder, orig: seq<Byte>, now: seq<Byte>, block: nat, i: nat, n: nat, lo: nat, hi: nat,
      f: Fixup, rest: Plan, k: nat)
    requires Local(add) && SameTable(now, orig, lo, hi) && lo <= block && i < n && block + 8 + 2 * n <= hi
    requires EntryAt(now, block, i) == Fix(f) && BlockPlan(orig, block, i + 1, n) == rest && k <= |rest.fixups|
    requires Outside(now, ([f] + rest.fixups)[..k], lo, hi) && !Inside(now, ([f] + rest.fixups)[k])
    ensures WalkEntries(add, now, block, i, n) == Walk(DoAll(add, now, ([f] + rest.fixups)[..k]), Fault)
    decreases n - i, 0
  {
    if k > 0 {
      PrefixCons(f, rest.fixups, k);
      FixAvoids(add, now, f, rest.fixups[..k - 1], orig, lo, hi);
      EntriesFault(add, orig, add(now, f), block, i + 1, n, lo, hi, k - 1);
    }
  }

  lemma {:induction false} EntriesFault(add: Adder, orig: seq<Byte>, now: seq<Byte>, block: nat, i: nat, n: nat, lo: nat, hi: nat, k: nat)
    requires Local(add) && SameTable(now, orig, lo, hi) && lo <= block && i <= n && block + 8 + 2 * n <= hi
    requires var fs := BlockPlan(orig, block, i, n).fixups; k < |fs| && Outside(now, fs[..k], lo, hi) && !Inside(now, fs[k])
    ensures WalkEntries(add, now, block, i, n) == Walk(DoAll(add, now, BlockPlan(orig, block, i, n).fixups[..k]), Fault)
    decreases n - i
  {
    if i < n {
      SameEntry(now, orig, lo, hi, block, i);
      match EntryAt(orig, block, i) {
        case Fix(f) => FixFaults(add, orig, now, block, i, n, lo, hi, f, BlockPlan(orig, block, i + 1, n), k);
        case Skip => EntriesFault(add, orig, now, block, i + 1, n, lo, hi, k);
        case Unknown =>
      }
    }
  }

  /** In the first block. */
  lemma {:induction false} BlockFaults(add: Adder, orig: seq<Byte>, now: seq<Byte>, lo: nat, pos: nat, end: nat, limit: nat,
      size: nat, b: Plan, k: nat)
    requires Local(add) && SameTable(now, orig, lo, limit) && lo <= pos < end && pos + 8 <= limit && size == U32(orig, pos + 4)
    requires 8 <= size && pos + size <= limit && BlockPlan(orig, pos, 0, (size - 8) / 2) == b
    requires k < |b.fixups| && Outside(now, b.fixups[..k], lo, limit) && !Inside(now, b.fixups[k])
    ensures WalkFrom(add, now, pos, end) == Walk(DoAll(add, now, b.fixups[..k]), Fault)
  {
    SameReads(now, orig, lo, limit, pos + 4, 4);
    EntriesFault(add, orig, now, pos, 0, (size - 8) / 2, lo, limit, k);
    WalkStops(add, now, pos, end, Walk(DoAll(add, now, b.fixups[..k]), Fault));
  }

  lemma {:induction false} SplitPrefix(fs: seq<Fixup>, gs: seq<Fixup>, k: nat)
    requires |fs| <= k <= |fs| + |gs|
    ensures (fs + gs)[..k] == fs + gs[..k - |fs|] && (k < |fs| + |gs| ==> (fs + gs)[k] == gs[k - |fs|])
  {
  }

  /** In a later one, after the `m` first words of the other blocks. */
  lemma {:induction false} LaterFaults(add: Adder, orig: seq<Byte>, now: seq<Byte>, lo: nat, pos: nat, end: nat, limit: nat,
      size: nat, b: Plan, t: Plan, m: nat)
    requires Local(add) && SameTable(now, orig, lo, limit) && lo <= pos < end && pos + 8 <= limit && size == U32(orig, pos + 4)
    requires 8 <= size && pos + size <= limit && BlockPlan(orig, pos, 0, (size - 8) / 2) == b && b.complete
    requires TableOk(orig, pos + size, end, limit) && TablePlan(orig, pos + size, end, limit) == t
    requires m < |t.fixups| && Outside(now, b.fixups + t.fixups[..m], lo, limit) && !Inside(now, t.fixups[m])
    ensures WalkFrom(add, now, pos, end) == Walk(DoAll(add, now, b.fixups + t.fixups[..m]), Fault)
    decreases end - pos, 0
  {
    OutsideParts(now, b.fixups, t.fixups[..m], lo, limit);
    FirstBlockPlanned(add, orig, now, lo, pos, end, limit, size, b);
    var next := DoAll(add, now, b.fixups);
    SameLength(now, next, t.fixups[..m], lo, limit);
    TableFaults(add, orig, next, lo, pos + size, end, limit, m);
    DoAllConcat(add, now, b.fixups, t.fixups[..m]);
  }

  lemma {:induction false} SameLength(mem: seq<Byte>, next: seq<Byte>, fs: seq<Fixup>, lo: nat, hi: nat)
    requires |next| == |mem| && Outside(mem, fs, lo, hi)
    ensures Outside(next, fs, lo, hi)
  {
  }

  /** For any walk: up to the first word outside the image it does as planned, and there it faults. */
  lemma {:induction false} TableFaults(add: Adder, orig: seq<Byte>, now: seq<Byte>, lo: nat, pos: nat, end: nat, limit: nat, k: nat)
    requires Local(add) && SameTable(now, orig, lo, limit) && lo <= pos && TableOk(orig, pos, end, limit)
    requires var fs := TablePlan(orig, pos, end, limit).fixups; k < |fs| && Outside(now, fs[..k], lo, limit) && !Inside(now, fs[k])
    ensures WalkFrom(add, now, pos, end) == Walk(DoAll(add, now, TablePlan(orig, pos, end, limit).fixups[..k]), Fault)
    decreases if pos < end then end - pos else 0
  {
    var size := U32(orig, pos + 4);
    var b := BlockPlan(orig, pos, 0, (size - 8) / 2);
    PlanParts(orig, pos, end, limit, size, b);
    if b.complete && k >= |b.fixups| {
      var t := TablePlan(orig, pos + size, end, limit);
      SplitPrefix(b.fixups, t.fixups, k);
      LaterFaults(add, orig, now, lo, pos, end, limit, size, b, t, k - |b.fixups|);
    } else {
      if b.complete { PrefixOf(b.fixups, TablePlan(orig, pos + size, end, limit).fixups, k); }
      BlockFaults(add, orig, now, lo, pos, end, limit, size, b, k);
    }
  }

  lemma {:induction false} PrefixOf(fs: seq<Fixup>, gs: seq<Fixup>, k: nat)
    requires k < |fs|
    ensures (fs + gs)[..k] == fs[..k] && (fs + gs)[k] == fs[k]
  {
  }

  /** A walk over a well-formed table relocates the words up to the first one outside the image, and
      faults there. */
  lemma WordOutsideFaults(mem: seq<Byte>, table: nat, end: nat, limit: nat, delta: int, k: nat)
    requires table <= limit <= |mem| && TableOk(mem, table, end, limit)
    requires var fs := TablePlan(mem, table, end, limit).fixups; k < |fs| && Outside(mem, fs[..k], table, limit) && !Inside(mem, fs[k])
    ensures Walked(mem, table, end, delta) == Walk(AddAll(mem, TablePlan(mem, table, end, limit).fixups[..k], delta), Fault)
  {
    AddingIsLocal(delta);
    TableFaults(Adding(delta), mem, mem, table, table, end, limit, k);
    AddingAll(mem, TablePlan(mem, table, end, limit).fixups[..k], delta);
  }

  // ----- an empty block -----

  lemma {:induction false} FoundWithin(mem: seq<Byte>, pos: nat, stop: nat, end: nat, limit: nat, bs: seq<Block>)
    requires stop + 8 <= limit <= |mem| && stop < end && U32(mem, stop + 4) == 0 && Found(mem, pos, stop, bs)
    ensures TableOk(mem, pos, end, limit) && TablePlan(mem, pos, end, limit) == AllNamed(bs)
    decreases |bs|
  {
    if bs != [] {
      var n := |bs[0].relocs|;
      FoundWithin(mem, pos + 8 + 2 * n, stop, end, limit, bs[1..]);
      assert (8 + 2 * n - 8) / 2 == n;
      PlanParts(mem, pos, end, limit, 8 + 2 * n, Named(bs[0].page, bs[0].relocs));
    }
  }

  /** A block whose size is zero ends the table, whatever stands behind it and however large the
      table is said to be. */
  lemma {:induction false} EmptyBlockEndsTable(mem: seq<Byte>, pos: nat, stop: nat, end: nat, bs: seq<Block>)
    requires pos <= stop < end && stop + 8 <= |mem| && mem[pos..stop] == TableBytes(bs) && BlocksOk(bs)
    requires U32(mem, stop + 4) == 0
    ensures TableOk(mem, pos, end, stop + 8) && TablePlan(mem, pos, end, stop + 8) == AllNamed(bs)
  {
    HeldIsPlaced(mem, pos, stop, bs);
    PlacedIsFound(mem, pos, stop, bs);
    FoundWithin(mem, pos, stop, end, stop + 8, bs);
  }

  // ----- a table that relocates itself -----

  /** A block of one entry that names the block's own size, ten. */
  const SELF: seq<Byte> := [0, 0, 0, 0, 10, 0, 0, 0, 4, 0x30]

  /** The loader reads the size again to get to the next block: with two added it goes twelve bytes
      on, past the end, and with nothing added ten bytes, to one more block outside the image. */
  lemma {:induction false} SizeIsReadAgain(delta: int)
    requires delta == 0 || delta == 2
    ensures Walked(SELF, 0, 11, delta) == Walk(SELF[4 := 10 + delta], if delta == 2 then Done else Fault)
  {
    SelfBlock(delta);
    assert U32(SELF[4 := 10 + delta], 4) == 10 + delta && U32(SELF, 4) == 10;
    SizeDecides(Adding(delta), SELF, SELF[4 := 10 + delta]);
  }

  /** Where the size read after the entries leads to. */
  lemma {:induction false} SizeDecides(add: Adder, mem: seq<Byte>, next: seq<Byte>)
    requires |mem| == 10 == |next| && U32(mem, 4) == 10 && U32(next, 4) in {10, 12}
    requires WalkEntries(add, mem, 0, 0, 1) == Walk(next, Done)
    ensures WalkFrom(add, mem, 0, 11) == Walk(next, if U32(next, 4) == 12 then Done else Fault)
  {
    assert Entries(10) == 1;
    WalkOn(add, mem, 0, 11, next);
    Onward(add, next, U32(next, 4));
  }

  lemma {:induction false} Onward(add: Adder, mem: seq<Byte>, pos: nat)
    requires |mem| == 10 && pos in {10, 12}
    ensures WalkFrom(add, mem, pos, 11) == Walk(mem, if pos == 12 then Done else Fault)
  {
  }

  lemma {:induction false} SelfBlock(delta: int)
    requires 0 <= delta <= 2
    ensures WalkEntries(Adding(delta), SELF, 0, 0, 1) == Walk(SELF[4 := 10 + delta], Done)
  {
    var f := Fixup(4, 4);
    assert U16(SELF, 8) == 0x3004 && U32(SELF, 0) == 0;
    assert EntryAt(SELF, 0, 0) == Fix(f);
    SelfWord(delta);
    assert WalkEntries(Adding(delta), AddAt(SELF, f, delta), 0, 1, 1) == Walk(AddAt(SELF, f, delta), Done);
  }

  lemma {:induction false} SelfWord(delta: int)
    requires 0 <= delta <= 2
    ensures AddAt(SELF, Fixup(4, 4), delta) == SELF[4 := 10 + delta]
  {
    ReadU32(SELF, 4);
    assert Word(SELF, Fixup(4, 4)) == 10;
    Pow256Values();
    WrapSmall(10 + delta, 4);
    var bytes := LittleBytes(10 + delta, 4);
    assert bytes == [10 + delta, 0, 0, 0] by { SmallBytes(10 + delta); }
    assert SELF[..4] + [10 + delta, 0, 0, 0] + SELF[8..] == SELF[4 := 10 + delta];
  }

  lemma {:induction false} SmallBytes(n: nat)
    requires n < 256
    ensures LittleBytes(n, 4) == [n, 0, 0, 0]
  {
    assert LittleBytes(0, 1) == [0] + LittleBytes(0, 0);
    assert LittleBytes(0, 2) == [0] + LittleBytes(0, 1);
    assert LittleBytes(0, 3) == [0] + LittleBytes(0, 2);
  }
}
