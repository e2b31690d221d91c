/** The serializer and the deserializer as they work on streams: recursive methods that append to
    a packer and advance a reader, with loops over arrays and maps. */
module MsgPackStreams {
  import opened MachineWords
  import opened MsgPackFormat
  import opened MsgPackDecoder
  import opened MsgPackRoundTrip

  // ----- the packer's choices -----

  function PackInt(n: int): Enc {
    if -32 <= n < 128 then EFix(n)
    else if 0 <= n then
      EUInt(if n < 0x100 then 1 else if n < 0x1_0000 then 2 else if n < 0x1_0000_0000 then 4 else 8, n)
    else
      EInt(if -0x80 <= n then 1 else if -0x8000 <= n then 2 else if -0x8000_0000 <= n then 4 else 8, n)
  }

  function BlobWidth(n: nat): nat {
    if n < 0x100 then 1 else if n < 0x1_0000 then 2 else 4
  }

  function StrWidth(n: nat): nat {
    if n < 32 then 0 else BlobWidth(n)
  }

  function NestedWidth(n: nat): nat {
    if n < 16 then 0 else if n < 0x1_0000 then 2 else 4
  }

  /** What `BinaryWriter` writes for the floats of a vector. */
  function VecBytes(parts: seq<nat>): seq<Byte> {
    if parts == [] then [] else LittleBytes(parts[0], 4) + VecBytes(parts[1..])
  }

  function PackVec(kind: nat, parts: seq<nat>): Enc {
    var data := VecBytes(parts);
    EExt(if FixExt(|data|) then 0 else 1, kind, data)
  }

  /** The encoding the serializer produces. */
  function Packed(v: Value): Enc
    decreases v
  {
    match v
    case Nil => ENil
    case Bool(b) => EBool(b)
    case Int(n) => PackInt(n)
    case Single(bits) => ESingle(bits)
    case Double(bits) => EDouble(bits)
    case Str(bytes) => EStr(StrWidth(|bytes|), bytes)
    case Bin(bytes) => EBin(BlobWidth(|bytes|), bytes)
    case Arr(items) => EArr(NestedWidth(|items|), PackedItems(items))
    case Map(entries) => EMap(NestedWidth(|entries|), PackedEntries(entries))
    case Vec(kind, parts) => PackVec(kind, parts)
    case FuncRef(kind, data) => EExt(BlobWidth(|data|), kind, data)
  }

  function PackedItems(items: seq<Value>): (r: seq<Enc>)
    ensures |r| == |items|
    decreases items
  {
    if items == [] then [] else [Packed(items[0])] + PackedItems(items[1..])
  }

  function PackedEntries(entries: seq<Entry>): (r: seq<EncEntry>)
    ensures |r| == |entries| && forall i :: 0 <= i < |r| ==> r[i].key == entries[i].key && r[i].width == StrWidth(|r[i].key|)
    decreases entries
  {
    if entries == [] then []
    else [EncEntry(StrWidth(|entries[0].key|), entries[0].key, Packed(entries[0].value))] + PackedEntries(entries[1..])
  }

  function PackedEntry(e: Entry): EncEntry {
    EncEntry(StrWidth(|e.key|), e.key, Packed(e.value))
  }

  /** The values the serializer can write: machine integers, sizes below 2^31, distinct keys.
      Function references are made by the runtime and are not among them. */
  ghost predicate Serializable(v: Value) {
    match v
    case Nil => true
    case Bool(_) => true
    case Int(n) => -0x8000_0000_0000_0000 <= n < 0x1_0000_0000_0000_0000
    case Single(bits) => bits < Pow256(4)
    case Double(bits) => bits < Pow256(8)
    case Str(bytes) => |bytes| < 0x8000_0000
    case Bin(bytes) => |bytes| < 0x8000_0000
    case Arr(items) => |items| < 0x8000_0000 && forall i :: 0 <= i < |items| ==> Serializable(items[i])
    case Map(entries) =>
      && |entries| < 0x8000_0000
      && (forall i, j :: 0 <= i < j < |entries| ==> entries[i].key != entries[j].key)
      && forall i :: 0 <= i < |entries| ==> |entries[i].key| < 0x8000_0000 && Serializable(entries[i].value)
    case Vec(kind, parts) => IsVec(kind) && |parts| == Parts(kind) && forall i :: 0 <= i < |parts| ==> parts[i] < Pow256(4)
    case FuncRef(_, _) => false
  }

  lemma {:induction false} VecBytesBack(parts: seq<nat>)
    requires forall i :: 0 <= i < |parts| ==> parts[i] < Pow256(4)
    ensures |VecBytes(parts)| == 4 * |parts| && Floats(VecBytes(parts), |parts|) == parts
    decreases |parts|
  {
    if parts != [] {
      VecBytesBack(parts[1..]);
      ReadLittle(parts[0], 4);
      assert VecBytes(parts)[..4] == LittleBytes(parts[0], 4) && VecBytes(parts)[4..] == VecBytes(parts[1..]);
    }
  }

  lemma {:induction false} PackedIntIsLegal(n: int)
    requires -0x8000_0000_0000_0000 <= n < 0x1_0000_0000_0000_0000
    ensures Legal(PackInt(n)) && ValueOf(PackInt(n)) == Int(n)
  {
    Pow256Values();
  }

  lemma {:induction false} PackedVecIsLegal(kind: nat, parts: seq<nat>)
    requires Serializable(Vec(kind, parts))
    ensures Legal(PackVec(kind, parts)) && ValueOf(PackVec(kind, parts)) == Vec(kind, parts)
  {
    VecBytesBack(parts);
  }

  lemma {:induction false} PackedScalarIsLegal(v: Value)
    requires Serializable(v) && !v.Arr? && !v.Map? && !v.Vec?
    ensures Legal(Packed(v)) && ValueOf(Packed(v)) == v
  {
    if v.Int? { PackedIntIsLegal(v.n); }
  }

  /** The serializer's encoding is a legal one of the value. */
  lemma {:induction false} PackedIsLegal(v: Value)
    requires Serializable(v)
    ensures Legal(Packed(v)) && ValueOf(Packed(v)) == v
    decreases v
  {
    match v {
      case Arr(items) => PackedItemsAreLegal(items);
      case Map(entries) => PackedEntriesAreLegal(entries);
      case Vec(kind, parts) => PackedVecIsLegal(kind, parts);
      case _ => PackedScalarIsLegal(v);
    }
  }

  lemma {:induction false} PackedItemsAreLegal(items: seq<Value>)
    requires forall i :: 0 <= i < |items| ==> Serializable(items[i])
    ensures forall i :: 0 <= i < |items| ==> Legal(PackedItems(items)[i])
    ensures ItemValues(PackedItems(items)) == items
    decreases items
  {
    if items != [] {
      PackedIsLegal(items[0]);
      PackedItemsAreLegal(items[1..]);
      assert PackedItems(items)[1..] == PackedItems(items[1..]);
      assert forall i :: 1 <= i < |items| ==> PackedItems(items)[i] == PackedItems(items[1..])[i - 1];
    }
  }

  lemma {:induction false} PackedEntriesAreLegal(entries: seq<Entry>)
    requires forall i :: 0 <= i < |entries| ==> Serializable(entries[i].value)
    ensures forall i :: 0 <= i < |entries| ==> Legal(PackedEntries(entries)[i].value)
    ensures EntryValues(PackedEntries(entries)) == entries
    decreases entries
  {
    if entries != [] {
      PackedIsLegal(entries[0].value);
      PackedEntriesAreLegal(entries[1..]);
      assert PackedEntries(entries)[1..] == PackedEntries(entries[1..]);
      assert forall i :: 1 <= i < |entries| ==> PackedEntries(entries)[i] == PackedEntries(entries[1..])[i - 1];
    }
  }

  /** `Deserialize` undoes `Serialize`, to any depth of nesting. */
  lemma SerializeRoundTrip(show: Show, v: Value)
    requires Serializable(v)
    ensures Legal(Packed(v)) && Unpack(show, Bytes(Packed(v))) == Ok(v, [])
  {
    PackedIsLegal(v);
    DecoderUndoesEncoding(show, Packed(v), []);
    assert Bytes(Packed(v)) + [] == Bytes(Packed(v));
  }

  // ----- the serializer -----

  lemma {:induction false} Snoc<T>(a: seq<T>, x: T)
    requires a != []
    ensures (a + [x])[0] == a[0] && (a + [x])[1..] == a[1..] + [x]
  {
  }

  lemma {:induction false} Prefix<T>(s: seq<T>, i: nat)
    requires i < |s|
    ensures s[..i + 1] == s[..i] + [s[i]]
  {
  }

  /** The bytes written for some items, followed by those of one more. */
  lemma {:induction false} ItemBytesSnoc(items: seq<Enc>, e: Enc)
    requires Legal(e) && forall k :: 0 <= k < |items| ==> Legal(items[k])
    ensures ItemBytes(items + [e]) == ItemBytes(items) + Bytes(e)
    decreases items
  {
    if items == [] {
      assert items + [e] == [e] && [e][1..] == [];
      assert ItemBytes([e]) == Bytes(e) + [];
    } else {
      ItemBytesSnoc(items[1..], e);
      Snoc(items, e);
      Assoc(Bytes(items[0]), ItemBytes(items[1..]), Bytes(e));
    }
  }

  ghost predicate AllFit(entries: seq<EncEntry>) {
    forall i :: 0 <= i < |entries| ==> LengthFits(entries[i].width, 32, |entries[i].key|) && Legal(entries[i].value)
  }

  ghost function EntryText(e: EncEntry): seq<Byte>
    requires LengthFits(e.width, 32, |e.key|) && Legal(e.value)
  {
    StrBytes(e.width, e.key) + Bytes(e.value)
  }

  lemma {:induction false} EntryCons(entries: seq<EncEntry>)
    requires entries != [] && AllFit(entries)
    ensures EntryBytes(entries) == EntryText(entries[0]) + EntryBytes(entries[1..])
  {
  }

  lemma {:induction false} EntryBytesSnoc(entries: seq<EncEntry>, e: EncEntry)
    requires AllFit(entries) && LengthFits(e.width, 32, |e.key|) && Legal(e.value)
    ensures EntryBytes(entries + [e]) == EntryBytes(entries) + EntryText(e)
    decreases entries
  {
    if entries == [] {
      assert entries + [e] == [e] && [e][1..] == [];
      assert EntryBytes([e]) == EntryText(e) + [];
    } else {
      EntryBytesSnoc(entries[1..], e);
      Snoc(entries, e);
      EntryCons(entries);
      EntryCons(entries + [e]);
      Assoc(EntryText(entries[0]), EntryBytes(entries[1..]), EntryText(e));
    }
  }

  lemma {:induction false} EntriesFit(entries: seq<Entry>)
    requires forall i :: 0 <= i < |entries| ==> |entries[i].key| < 0x8000_0000
    ensures forall i :: 0 <= i < |entries| ==> LengthFits(PackedEntries(entries)[i].width, 32, |PackedEntries(entries)[i].key|)
  {
  }

  lemma {:induction false} PackedItemAt(items: seq<Value>, i: nat)
    requires i < |items|
    ensures PackedItems(items)[i] == Packed(items[i])
    decreases i
  {
    if i > 0 { PackedItemAt(items[1..], i - 1); }
  }

  lemma {:induction false} PackedEntryAt(entries: seq<Entry>, i: nat)
    requires i < |entries|
    ensures PackedEntries(entries)[i] == PackedEntry(entries[i])
    decreases i
  {
    if i > 0 { PackedEntryAt(entries[1..], i - 1); }
  }

  lemma {:induction false} PackedFit(entries: seq<Entry>)
    requires forall i :: 0 <= i < |entries| ==> |entries[i].key| < 0x8000_0000 && Serializable(entries[i].value)
    ensures AllFit(PackedEntries(entries))
  {
    PackedEntriesAreLegal(entries);
    EntriesFit(entries);
  }

  lemma {:induction false} EntryWritten(stream: seq<Byte>, entries: seq<Entry>, i: nat)
    requires i < |entries| && AllFit(PackedEntries(entries))
    ensures var all, e := PackedEntries(entries), PackedEntry(entries[i]);
      && LengthFits(e.width, 32, |e.key|) && Legal(e.value)
      && (stream + EntryBytes(all[..i])) + EntryText(e) == stream + EntryBytes(all[..i + 1])
  {
    var all := PackedEntries(entries);
    PackedEntryAt(entries, i);
    Prefix(all, i);
    EntryBytesSnoc(all[..i], all[i]);
    Assoc(stream, EntryBytes(all[..i]), EntryText(all[i]));
  }

  class Packer {
    var stream: seq<Byte>

    constructor ()
      ensures stream == []
    {
      stream := [];
    }

    method Write(bytes: seq<Byte>)
      modifies this
      ensures stream == old(stream) + bytes
    {
      stream := stream + bytes;
    }

    /** The packer's own methods for values without parts. */
    method Pack(v: Value)
      requires Serializable(v) && !v.Arr? && !v.Map?
      modifies this
      ensures Legal(Packed(v)) && stream == old(stream) + Bytes(Packed(v))
    {
      PackedIsLegal(v);
      match Packed(v) {
        case ENil => Write([0xC0]);
        case EBool(b) => Write([if b then 0xC3 else 0xC2]);
        case EFix(n) => Write([if n >= 0 then n else n + 256]);
        case EUInt(w, n) => Write([UIntType(w)] + BigEndian(n, w));
        case EInt(w, n) => Write([IntType(w)] + BigEndian(Unsigned(n, w), w));
        case ESingle(bits) => Write([0xCA] + BigEndian(bits, 4));
        case EDouble(bits) => Write([0xCB] + BigEndian(bits, 8));
        case EStr(w, bytes) => Write(StrBytes(w, bytes));
        case EBin(w, bytes) => Write([BinType(w)] + (BigEndian(|bytes|, w) + bytes));
        case EExt(w, kind, data) =>
          if w == 0 { Write([FixExtType(|data|)] + ([kind] + data)); }
          else { Write([ExtType(w)] + (BigEndian(|data|, w) + ([kind] + data))); }
      }
    }

    /** The recursive `Serialize(obj, packer)`. */
    method Serialize(v: Value)
      requires Serializable(v)
      modifies this
      ensures Legal(Packed(v)) && stream == old(stream) + Bytes(Packed(v))
      decreases v
    {
      PackedIsLegal(v);
      if v.Arr? {
        Write(ArrHeader(NestedWidth(|v.items|), |v.items|));
        SerializeItems(v.items);
        Assoc(old(stream), ArrHeader(NestedWidth(|v.items|), |v.items|), ItemBytes(PackedItems(v.items)));
      } else if v.Map? {
        Write(MapHeader(NestedWidth(|v.entries|), |v.entries|));
        SerializeEntries(v.entries);
        Assoc(old(stream), MapHeader(NestedWidth(|v.entries|), |v.entries|), EntryBytes(PackedEntries(v.entries)));
      } else {
        Pack(v);
      }
    }

    method SerializeItems(items: seq<Value>)
      requires forall i :: 0 <= i < |items| ==> Serializable(items[i])
      modifies this
      ensures forall i :: 0 <= i < |items| ==> Legal(PackedItems(items)[i])
      ensures stream == old(stream) + ItemBytes(PackedItems(items))
      decreases items, 0
    {
      PackedItemsAreLegal(items);
      ghost var all := PackedItems(items);
      assert all[..0] == [] && stream + [] == stream;
      for i := 0 to |items|
        invariant stream == old(stream) + ItemBytes(all[..i])
      {
        Serialize(items[i]);
        PackedItemAt(items, i);
        Prefix(all, i);
        ItemBytesSnoc(all[..i], all[i]);
        Assoc(old(stream), ItemBytes(all[..i]), Bytes(all[i]));
      }
      assert all[..|items|] == all;
    }

    method SerializeEntry(e: Entry)
      requires |e.key| < 0x8000_0000 && Serializable(e.value)
      modifies this
      ensures Legal(Packed(e.value)) && stream == old(stream) + EntryText(PackedEntry(e))
      decreases e, 0
    {
      Pack(Str(e.key));
      Serialize(e.value);
      Assoc(old(stream), StrBytes(StrWidth(|e.key|), e.key), Bytes(Packed(e.value)));
    }

    /** One round of the loop over the entries of a dictionary. */
    method SerializeEntryAt(entries: seq<Entry>, i: nat, ghost all: seq<EncEntry>, ghost before: seq<Byte>)
      requires i < |entries| && |entries[i].key| < 0x8000_0000 && Serializable(entries[i].value)
      requires all == PackedEntries(entries) && AllFit(all) && stream == before + EntryBytes(all[..i])
      modifies this
      ensures stream == before + EntryBytes(all[..i + 1])
      decreases entries, 0
    {
      EntryWritten(before, entries, i);
      SerializeEntry(entries[i]);
    }

    /** The loop; `all` are the encoded entries. */
    method SerializeEach(entries: seq<Entry>, ghost all: seq<EncEntry>)
      requires forall i :: 0 <= i < |entries| ==> |entries[i].key| < 0x8000_0000 && Serializable(entries[i].value)
      requires all == PackedEntries(entries) && |all| == |entries| && AllFit(all)
      modifies this
      ensures stream == old(stream) + EntryBytes(all)
      decreases entries, 1
    {
      assert all[..0] == [] && stream + [] == stream;
      for i := 0 to |entries|
        invariant stream == old(stream) + EntryBytes(all[..i])
      {
        SerializeEntryAt(entries, i, all, old(stream));
      }
      assert all[..|entries|] == all;
    }

    method SerializeEntries(entries: seq<Entry>)
      requires forall i :: 0 <= i < |entries| ==> |entries[i].key| < 0x8000_0000 && Serializable(entries[i].value)
      modifies this
      ensures forall i :: 0 <= i < |entries| ==> Legal(PackedEntries(entries)[i].value)
      ensures stream == old(stream) + EntryBytes(PackedEntries(entries))
      decreases entries, 2
    {
      PackedFit(entries);
      SerializeEach(entries, PackedEntries(entries));
    }
  }

  // ----- the deserializer -----

  /** What a read leaves is the end of what it was given. */
  ghost predicate Suffix(rest: seq<Byte>, s: seq<Byte>) {
    |rest| <= |s| && rest == s[|s| - |rest|..]
  }

  lemma {:induction false} LengthSuffix(t: Byte, fixed: nat, w: nat, s: seq<Byte>)
    requires fixed > 0
    ensures ReadLength(t, fixed, w, s).Ok? ==> Suffix(ReadLength(t, fixed, w, s).rest, s)
  {
  }

  lemma {:induction false} SinglesSuffix(s: seq<Byte>, n: nat)
    ensures ReadSingles(s, n).Ok? ==> Suffix(ReadSingles(s, n).rest, s)
    decreases n
  {
    if n > 0 && |s| >= 4 { SinglesSuffix(s[4..], n - 1); }
  }

  lemma {:induction false} SuffixTrans(a: seq<Byte>, b: seq<Byte>, c: seq<Byte>)
    requires Suffix(a, b) && Suffix(b, c)
    ensures Suffix(a, c)
  {
  }

  lemma {:induction false} BytesSuffix(s: seq<Byte>, n: int)
    ensures ReadBytes(s, n).Ok? ==> Suffix(ReadBytes(s, n).rest, s)
  {
  }

  lemma {:induction false} ExtSuffix(s: seq<Byte>, n: int)
    ensures UnpackExt(s, n).Ok? ==> Suffix(UnpackExt(s, n).rest, s)
  {
    if s != [] && UnpackExt(s, n).Ok? {
      assert Suffix(s[1..], s);
      if IsFuncRef(s[0]) {
        BytesSuffix(s[1..], n);
        SuffixTrans(ReadBytes(s[1..], n).rest, s[1..], s);
      } else {
        SinglesSuffix(s[1..], Parts(s[0]));
        SuffixTrans(ReadSingles(s[1..], Parts(s[0])).rest, s[1..], s);
      }
    }
  }

  lemma {:induction false} BlobSuffix(t: Byte, w: nat, s: seq<Byte>, text: bool)
    ensures UnpackBlob(t, w, s, text).Ok? ==> Suffix(UnpackBlob(t, w, s, text).rest, s)
  {
    LengthSuffix(t, 32, w, s);
  }

  lemma {:induction false} LongExtSuffix(t: Byte, w: nat, s: seq<Byte>)
    ensures UnpackScalar(FExt(w), t, s).Ok? ==> Suffix(UnpackScalar(FExt(w), t, s).rest, s)
  {
    LengthSuffix(t, 1, w, s);
    var r := ReadLength(t, 1, w, s);
    if r.Ok? {
      ExtSuffix(r.rest, r.value);
      if UnpackExt(r.rest, r.value).Ok? { SuffixTrans(UnpackExt(r.rest, r.value).rest, r.rest, s); }
    }
  }

  lemma {:induction false} ScalarSuffix(f: Format, t: Byte, s: seq<Byte>)
    requires !f.FArr? && !f.FMap?
    ensures UnpackScalar(f, t, s).Ok? ==> Suffix(UnpackScalar(f, t, s).rest, s)
  {
    match f {
      case FStr(w) => BlobSuffix(t, w, s, true);
      case FBin(w) => BlobSuffix(t, w, s, false);
      case FFixExt(n) => ExtSuffix(s, n);
      case FExt(w) => LongExtSuffix(t, w, s);
      case _ =>
    }
  }

  /** The outcome of a read on the stream. */
  datatype Outcome<T> = Returned(value: T) | Thrown(error: Error)

  /** A read from position `from` behaves as specified and ends at position `to`. */
  ghost predicate Reads<T>(data: seq<Byte>, spec: Result<T>, r: Outcome<T>, to: nat) {
    match spec
    case Ok(v, rest) => r == Returned(v) && to <= |data| && data[to..] == rest
    case Err(e) => r == Thrown(e)
  }

  function WithItems(items: seq<Value>, r: Result<seq<Value>>): Result<seq<Value>> {
    match r
    case Ok(more, rest) => Ok(items + more, rest)
    case Err(e) => Err(e)
  }

  lemma {:induction false} WithNoItems(r: Result<seq<Value>>)
    ensures WithItems([], r) == r
  {
    if r.Ok? { assert [] + r.value == r.value; }
  }

  /** A key and a value. */
  function ReadEntry(show: Show, s: seq<Byte>): Result<Entry> {
    match Unpack(show, s)
    case Err(e) => Err(e)
    case Ok(k, rest) =>
      if k == Nil then Err(NullKey)
      else
        match Unpack(show, rest)
        case Err(e) => Err(e)
        case Ok(v, rest') => Ok(Entry(KeyOf(show, k), v), rest')
  }

  class Reader {
    const data: seq<Byte>
    const show: Show
    var pos: nat

    constructor (data: seq<Byte>, show: Show)
      ensures this.data == data && this.show == show && pos == 0
    {
      this.data := data;
      this.show := show;
      pos := 0;
    }

    method UnpackAny() returns (r: Outcome<Value>)
      requires pos <= |data|
      modifies this
      ensures old(pos) <= pos <= |data|
      ensures Reads(data, Unpack(show, data[old(pos)..]), r, pos)
      decreases |data| - pos, 0
    {
      if pos == |data| { return Thrown(EndOfStream); }
      var t := data[pos];
      assert data[pos..][0] == t && data[pos..][1..] == data[pos + 1..];
      pos := pos + 1;
      r := UnpackFormat(GetUnpacker(t), t);
    }

    /** The unpacker for one format, from just after the type byte. */
    method UnpackFormat(f: Format, t: Byte) returns (r: Outcome<Value>)
      requires pos <= |data|
      modifies this
      ensures old(pos) <= pos <= |data|
      ensures Reads(data, UnpackAs(show, f, t, data[old(pos)..]), r, pos)
      decreases |data| - pos, 3
    {
      if f.FArr? {
        var n := Length(t, f.width);
        if n.Thrown? { return Thrown(n.error); }
        var items := UnpackArray(n.value);
        return if items.Returned? then Returned(Arr(items.value)) else Thrown(items.error);
      } else if f.FMap? {
        var n := Length(t, f.width);
        if n.Thrown? { return Thrown(n.error); }
        var entries := UnpackMap(n.value);
        return if entries.Returned? then Returned(Map(entries.value)) else Thrown(entries.error);
      } else {
        ScalarSuffix(f, t, data[pos..]);
        match UnpackScalar(f, t, data[pos..]) {
          case Ok(v, rest) =>
            pos := |data| - |rest|;
            return Returned(v);
          case Err(e) => return Thrown(e);
        }
      }
    }

    method Length(t: Byte, width: nat) returns (r: Outcome<int>)
      requires pos <= |data|
      modifies this
      ensures old(pos) <= pos <= |data|
      ensures Reads(data, ReadLength(t, 16, width, data[old(pos)..]), r, pos)
    {
      LengthSuffix(t, 16, width, data[pos..]);
      match ReadLength(t, 16, width, data[pos..]) {
        case Ok(n, rest) =>
          pos := |data| - |rest|;
          return Returned(n);
        case Err(e) => return Thrown(e);
      }
    }

    method UnpackArray(length: int) returns (r: Outcome<seq<Value>>)
      requires pos <= |data|
      modifies this
      ensures old(pos) <= pos <= |data|
      ensures Reads(data, UnpackItems(show, data[old(pos)..], length), r, pos)
      decreases |data| - pos, 1
    {
      ghost var start := pos;
      WithNoItems(UnpackItems(show, data[start..], length));
      var items := [];
      var i := 0;
      while i < length
        invariant start <= pos <= |data| && 0 <= i
        invariant UnpackItems(show, data[start..], length) == WithItems(items, UnpackItems(show, data[pos..], length - i))
        decreases length - i
      {
        ItemsStep(show, data[pos..], length - i, items);
        var v := UnpackAny();
        if v.Thrown? { return Thrown(v.error); }
        items := items + [v.value];
        i := i + 1;
      }
      assert items + [] == items;
      return Returned(items);
    }

    /** The body of the loop of `UnpackMap`, up to the assignment. */
    method UnpackEntry() returns (r: Outcome<Entry>)
      requires pos <= |data|
      modifies this
      ensures old(pos) <= pos <= |data|
      ensures Reads(data, ReadEntry(show, data[old(pos)..]), r, pos)
      decreases |data| - pos, 1
    {
      var key := UnpackAny();
      if key.Thrown? { return Thrown(key.error); }
      if key.value == Nil { return Thrown(NullKey); }
      var v := UnpackAny();
      if v.Thrown? { return Thrown(v.error); }
      return Returned(Entry(KeyOf(show, key.value), v.value));
    }

    method UnpackMap(length: int) returns (r: Outcome<seq<Entry>>)
      requires pos <= |data|
      modifies this
      ensures old(pos) <= pos <= |data|
      ensures Reads(data, UnpackEntries(show, data[old(pos)..], length, []), r, pos)
      decreases |data| - pos, 2
    {
      ghost var start := pos;
      var entries := [];
      var i := 0;
      while i < length
        invariant start <= pos <= |data| && 0 <= i
        invariant UnpackEntries(show, data[start..], length, []) == UnpackEntries(show, data[pos..], length - i, entries)
        decreases length - i
      {
        EntriesStep(show, data[pos..], length - i, entries);
        var e := UnpackEntry();
        if e.Thrown? { return Thrown(e.error); }
        entries := SetEntry(entries, e.value.key, e.value.value);
        i := i + 1;
      }
      return Returned(entries);
    }
  }

  /** One round of the map loop, or where it stops. */
  lemma {:induction false} EntriesStep(show: Show, s: seq<Byte>, n: int, entries: seq<Entry>)
    requires n > 0
    ensures UnpackEntries(show, s, n, entries) ==
      match ReadEntry(show, s)
      case Err(e) => Err(e)
      case Ok(e, rest) => UnpackEntries(show, rest, n - 1, SetEntry(entries, e.key, e.value))
  {
  }

  /** One round of the array loop, or where it stops. */
  lemma {:induction false} ItemsStep(show: Show, s: seq<Byte>, n: int, items: seq<Value>)
    requires n > 0
    ensures WithItems(items, UnpackItems(show, s, n)) ==
      match Unpack(show, s)
      case Err(e) => Err(e)
      case Ok(v, rest) => WithItems(items + [v], UnpackItems(show, rest, n - 1))
  {
    var v := Unpack(show, s);
    if v.Ok? {
      var r := UnpackItems(show, v.rest, n - 1);
      if r.Ok? { assert items + ([v.value] + r.value) == (items + [v.value]) + r.value; }
    }
  }
}
