/** Relocation tables as "The .reloc Section" of the Microsoft PE Format specification lays them
    out, written without regard to how the loader reads them, and that the loader's walk
    relocates exactly the words such a table names. */
module RelocationTables {
  import opened MachineWords
  import opened Relocations

  /** An entry: four bits of type and twelve of offset. */
  datatype Reloc = Reloc(kind: nat, offset: nat)

  /** A block: the relocations of one page. */
  datatype Block = Block(page: nat, relocs: seq<Reloc>)

  predicate RelocOk(r: Reloc) {
    r.kind < 16 && r.offset < 0x1000
  }

  predicate BlockOk(b: Block) {
    && b.page < 0x1_0000_0000 && 8 + 2 * |b.relocs| < 0x1_0000_0000
    && forall i :: 0 <= i < |b.relocs| ==> RelocOk(b.relocs[i])
  }

  predicate BlocksOk(bs: seq<Block>) {
    forall b :: b in bs ==> BlockOk(b)
  }

  // ----- the bytes -----

  function EntryBytes(r: Reloc): (s: seq<Byte>)
    ensures |s| == 2
  {
    LittleBytes(r.kind * 0x1000 + r.offset, 2)
  }

  function EntriesBytes(rs: seq<Reloc>): (s: seq<Byte>)
    ensures |s| == 2 * |rs|
  {
    if rs == [] then [] else EntryBytes(rs[0]) + EntriesBytes(rs[1..])
  }

  function HeaderBytes(b: Block): (s: seq<Byte>)
    ensures |s| == 8
  {
    LittleBytes(b.page, 4) + LittleBytes(8 + 2 * |b.relocs|, 4)
  }

  function BlockSize(b: Block): nat { 8 + 2 * |b.relocs| }

  function BlockBytes(b: Block): (s: seq<Byte>)
    ensures |s| == BlockSize(b)
  {
    HeaderBytes(b) + EntriesBytes(b.relocs)
  }

  function TableBytes(bs: seq<Block>): seq<Byte> {
    if bs == [] then [] else BlockBytes(bs[0]) + TableBytes(bs[1..])
  }

  // ----- the words -----

  /** Where an entry points to; addresses in an image have 32 bits. */
  function Target(page: nat, r: Reloc): nat {
    (page + r.offset) % 0x1_0000_0000
  }

  /** The words the entries name: 32-bit ones for type 3, 64-bit ones for type 10, none for type
      0; at any other type the loader gives up. */
  function Named(page: nat, rs: seq<Reloc>): Plan {
    if rs == [] then Plan([], true)
    else if rs[0].kind !in {0, 3, 10} then Plan([], false)
    else
      var rest := Named(page, rs[1..]);
      var here := if rs[0].kind == 0 then [] else [Fixup(Target(page, rs[0]), if rs[0].kind == 3 then 4 else 8)];
      Plan(here + rest.fixups, rest.complete)
  }

  /** First one plan and, if that gets to its end, then another. */
  function Then(p: Plan, q: Plan): Plan {
    if p.complete then Plan(p.fixups + q.fixups, q.complete) else p
  }

  function AllNamed(bs: seq<Block>): Plan {
    if bs == [] then Plan([], true) else Then(Named(bs[0].page, bs[0].relocs), AllNamed(bs[1..]))
  }

  // ----- reading the bytes -----

  lemma {:induction false} EntryRead(r: Reloc)
    requires r.kind < 16 && r.offset < 0x1000
    ensures var n := LittleEndian(EntryBytes(r)); n / 0x1000 == r.kind && n % 0x1000 == r.offset
  {
    Pow256Values();
    ReadLittle(r.kind * 0x1000 + r.offset, 2);
  }

  lemma {:induction false} NumberRead(n: nat)
    requires n < 0x1_0000_0000
    ensures LittleEndian(LittleBytes(n, 4)) == n
  {
    Pow256Values();
    ReadLittle(n, 4);
  }

  lemma {:induction false} EntryOf(rs: seq<Reloc>, k: nat)
    requires k < |rs|
    ensures EntriesBytes(rs)[2 * k..2 * k + 2] == EntryBytes(rs[k])
  {
    if k > 0 {
      EntryOf(rs[1..], k - 1);
      assert EntriesBytes(rs)[2 * k..2 * k + 2] == EntriesBytes(rs[1..])[2 * k - 2..2 * k];
    }
  }

  /** A slice of a slice. */
  lemma {:induction false} Slice(mem: seq<Byte>, lo: nat, hi: nat, i: nat, j: nat)
    requires lo <= hi <= |mem| && i <= j <= hi - lo
    ensures mem[lo..hi][i..j] == mem[lo + i..lo + j]
  {
    assert forall k :: i <= k < j ==> mem[lo..hi][k] == mem[lo + k];
    assert |mem[lo..hi][i..j]| == |mem[lo + i..lo + j]|;
    assert forall k :: 0 <= k < j - i ==> mem[lo..hi][i..j][k] == mem[lo..hi][i + k];
  }

  ghost predicate HoldsBlock(mem: seq<Byte>, pos: nat, b: Block) {
    pos + BlockSize(b) <= |mem| && mem[pos..pos + BlockSize(b)] == BlockBytes(b)
  }

  lemma {:induction false} HeaderRead(mem: seq<Byte>, pos: nat, b: Block)
    requires BlockOk(b) && HoldsBlock(mem, pos, b)
    ensures U32(mem, pos) == b.page && U32(mem, pos + 4) == BlockSize(b)
  {
    Slice(mem, pos, pos + BlockSize(b), 0, 4);
    Slice(mem, pos, pos + BlockSize(b), 4, 8);
    assert BlockBytes(b)[0..4] == LittleBytes(b.page, 4);
    assert BlockBytes(b)[4..8] == LittleBytes(BlockSize(b), 4);
    NumberRead(b.page);
    NumberRead(BlockSize(b));
    ReadU32(mem, pos);
    ReadU32(mem, pos + 4);
  }

  lemma {:induction false} EntryHeld(mem: seq<Byte>, pos: nat, b: Block, k: nat)
    requires HoldsBlock(mem, pos, b) && k < |b.relocs|
    ensures U16(mem, pos + 8 + 2 * k) == LittleEndian(EntryBytes(b.relocs[k]))
  {
    Slice(mem, pos, pos + BlockSize(b), 8 + 2 * k, 8 + 2 * k + 2);
    ReadU16(mem, pos + 8 + 2 * k);
    EntryOf(b.relocs, k);
    assert BlockBytes(b)[8 + 2 * k..8 + 2 * k + 2] == EntriesBytes(b.relocs)[2 * k..2 * k + 2];
  }

  function Meant(page: nat, r: Reloc): Entry {
    if r.kind == 3 then Fix(Fixup(Target(page, r), 4))
    else if r.kind == 10 then Fix(Fixup(Target(page, r), 8))
    else if r.kind == 0 then Skip
    else Unknown
  }

  lemma {:induction false} EntryUnderstood(mem: seq<Byte>, pos: nat, b: Block, k: nat)
    requires BlockOk(b) && HoldsBlock(mem, pos, b) && k < |b.relocs|
    ensures EntryAt(mem, pos, k) == Meant(b.page, b.relocs[k])
  {
    HeaderRead(mem, pos, b);
    EntryHeld(mem, pos, b, k);
    EntryRead(b.relocs[k]);
  }

  lemma {:induction false} NamedFix(page: nat, r: Reloc, rs: seq<Reloc>, f: Fixup)
    requires Meant(page, r) == Fix(f)
    ensures Named(page, [r] + rs) == Plan([f] + Named(page, rs).fixups, Named(page, rs).complete)
  {
    assert ([r] + rs)[1..] == rs;
  }

  lemma {:induction false} NamedSkip(page: nat, r: Reloc, rs: seq<Reloc>)
    requires Meant(page, r) == Skip
    ensures Named(page, [r] + rs) == Named(page, rs)
  {
    assert ([r] + rs)[1..] == rs;
    assert [] + Named(page, rs).fixups == Named(page, rs).fixups;
  }

  lemma {:induction false} BlockStep(mem: seq<Byte>, pos: nat, b: Block, i: nat)
    requires BlockOk(b) && HoldsBlock(mem, pos, b) && i < |b.relocs|
    requires BlockPlan(mem, pos, i + 1, |b.relocs|) == Named(b.page, b.relocs[i + 1..])
    ensures BlockPlan(mem, pos, i, |b.relocs|) == Named(b.page, [b.relocs[i]] + b.relocs[i + 1..])
  {
    var r, rs := b.relocs[i], b.relocs[i + 1..];
    EntryUnderstood(mem, pos, b, i);
    match Meant(b.page, r) {
      case Fix(f) => NamedFix(b.page, r, rs, f);
      case Skip => NamedSkip(b.page, r, rs);
      case Unknown =>
    }
  }

  lemma {:induction false} BlockUnderstood(mem: seq<Byte>, pos: nat, b: Block, i: nat)
    requires BlockOk(b) && HoldsBlock(mem, pos, b) && i <= |b.relocs|
    ensures BlockPlan(mem, pos, i, |b.relocs|) == Named(b.page, b.relocs[i..])
    decreases |b.relocs| - i
  {
    if i < |b.relocs| {
      BlockUnderstood(mem, pos, b, i + 1);
      BlockStep(mem, pos, b, i);
      assert b.relocs[i..] == [b.relocs[i]] + b.relocs[i + 1..];
    }
  }

  lemma {:induction false} FirstBlockHeld(mem: seq<Byte>, pos: nat, limit: nat, bs: seq<Block>)
    requires bs != [] && pos <= limit <= |mem| && mem[pos..limit] == TableBytes(bs)
    ensures var next := pos + BlockSize(bs[0]);
      next <= limit && HoldsBlock(mem, pos, bs[0]) && mem[next..limit] == TableBytes(bs[1..])
  {
    var size := BlockSize(bs[0]);
    assert limit - pos == |TableBytes(bs)| == size + |TableBytes(bs[1..])|;
    Slice(mem, pos, limit, 0, size);
    Slice(mem, pos, limit, size, limit - pos);
    assert TableBytes(bs)[0..size] == BlockBytes(bs[0]);
    assert TableBytes(bs)[size..limit - pos] == TableBytes(bs[1..]);
  }

  /** One block of a walk, and the rest. */
  lemma {:induction false} TableStep(mem: seq<Byte>, pos: nat, limit: nat, n: nat, b: Plan, t: Plan)
    requires limit <= |mem| && pos + 8 + 2 * n <= limit && U32(mem, pos + 4) == 8 + 2 * n && BlockPlan(mem, pos, 0, n) == b
    requires TableOk(mem, pos + 8 + 2 * n, limit, limit) && TablePlan(mem, pos + 8 + 2 * n, limit, limit) == t
    ensures TableOk(mem, pos, limit, limit) && TablePlan(mem, pos, limit, limit) == Then(b, t)
  {
    assert (8 + 2 * n - 8) / 2 == n;
    PlanParts(mem, pos, limit, limit, 8 + 2 * n, b);
  }

  /** The loader finds these blocks, one after the other. */
  ghost predicate Found(mem: seq<Byte>, pos: nat, limit: nat, bs: seq<Block>)
    requires limit <= |mem|
    decreases |bs|
  {
    if bs == [] then pos == limit
    else
      var n := |bs[0].relocs|;
      && pos + 8 + 2 * n <= limit && U32(mem, pos + 4) == 8 + 2 * n
      && BlockPlan(mem, pos, 0, n) == Named(bs[0].page, bs[0].relocs)
      && Found(mem, pos + 8 + 2 * n, limit, bs[1..])
  }

  /** These blocks lie in the image, one after the other. */
  ghost predicate Placed(mem: seq<Byte>, pos: nat, limit: nat, bs: seq<Block>)
    requires limit <= |mem|
    decreases |bs|
  {
    if bs == [] then pos == limit
    else pos + BlockSize(bs[0]) <= limit && HoldsBlock(mem, pos, bs[0]) && Placed(mem, pos + BlockSize(bs[0]), limit, bs[1..])
  }

  lemma {:induction false} HeldIsPlaced(mem: seq<Byte>, pos: nat, limit: nat, bs: seq<Block>)
    requires pos <= limit <= |mem| && mem[pos..limit] == TableBytes(bs)
    ensures Placed(mem, pos, limit, bs)
    decreases |bs|
  {
    if bs != [] {
      FirstBlockHeld(mem, pos, limit, bs);
      HeldIsPlaced(mem, pos + BlockSize(bs[0]), limit, bs[1..]);
    }
  }

  lemma {:induction false} FoundCons(mem: seq<Byte>, pos: nat, limit: nat, bs: seq<Block>)
    requires bs != [] && limit <= |mem| && pos + BlockSize(bs[0]) <= limit && BlockOk(bs[0]) && HoldsBlock(mem, pos, bs[0])
    requires Found(mem, pos + BlockSize(bs[0]), limit, bs[1..])
    ensures Found(mem, pos, limit, bs)
  {
    FirstUnderstood(mem, pos, bs[0]);
  }

  lemma {:induction false} PlacedIsFound(mem: seq<Byte>, pos: nat, limit: nat, bs: seq<Block>)
    requires limit <= |mem| && BlocksOk(bs) && Placed(mem, pos, limit, bs)
    ensures Found(mem, pos, limit, bs)
    decreases |bs|
  {
    if bs != [] {
      PlacedIsFound(mem, pos + BlockSize(bs[0]), limit, bs[1..]);
      FoundCons(mem, pos, limit, bs);
    }
  }

  lemma {:induction false} FoundIsPlanned(mem: seq<Byte>, pos: nat, limit: nat, bs: seq<Block>)
    requires limit <= |mem| && Found(mem, pos, limit, bs)
    ensures TableOk(mem, pos, limit, limit) && TablePlan(mem, pos, limit, limit) == AllNamed(bs)
    decreases |bs|
  {
    if bs != [] {
      var n := |bs[0].relocs|;
      FoundIsPlanned(mem, pos + 8 + 2 * n, limit, bs[1..]);
      TableStep(mem, pos, limit, n, Named(bs[0].page, bs[0].relocs), AllNamed(bs[1..]));
    }
  }

  lemma {:induction false} FirstUnderstood(mem: seq<Byte>, pos: nat, b: Block)
    requires BlockOk(b) && HoldsBlock(mem, pos, b)
    ensures U32(mem, pos + 4) == BlockSize(b) && BlockPlan(mem, pos, 0, |b.relocs|) == Named(b.page, b.relocs)
  {
    HeaderRead(mem, pos, b);
    BlockUnderstood(mem, pos, b, 0);
    assert b.relocs[0..] == b.relocs;
  }

  /** Whatever surrounds the table in the image, the loader finds it well-formed and relocates
      exactly the words it names, up to the first entry of another type. */
  lemma {:induction false} TableUnderstood(mem: seq<Byte>, pos: nat, limit: nat, bs: seq<Block>)
    requires pos <= limit <= |mem| && mem[pos..limit] == TableBytes(bs)
    requires BlocksOk(bs)
    ensures TableOk(mem, pos, limit, limit) && TablePlan(mem, pos, limit, limit) == AllNamed(bs)
  {
    HeldIsPlaced(mem, pos, limit, bs);
    PlacedIsFound(mem, pos, limit, bs);
    FoundIsPlanned(mem, pos, limit, bs);
  }

  /** An image that holds this table, and whose words named by it avoid it. */
  ghost predicate Holds(mem: seq<Byte>, pos: nat, limit: nat, bs: seq<Block>) {
    && pos <= limit <= |mem| && mem[pos..limit] == TableBytes(bs)
    && BlocksOk(bs)
    && Outside(mem, AllNamed(bs).fixups, pos, limit)
  }

  /** So relocating an image adds the offset to the words its table names, once for each time it
      names them, and to nothing else. */
  lemma TableApplied(mem: seq<Byte>, pos: nat, limit: nat, bs: seq<Block>, delta: int)
    requires Holds(mem, pos, limit, bs)
    ensures Relocatable(mem, pos, limit, limit) && TablePlan(mem, pos, limit, limit) == AllNamed(bs)
    ensures Walked(mem, pos, limit, delta) == Walk(AddAll(mem, AllNamed(bs).fixups, delta), Ending(AllNamed(bs).complete))
  {
    TableUnderstood(mem, pos, limit, bs);
    WalkedAsPlanned(mem, pos, limit, limit, delta);
  }
}
