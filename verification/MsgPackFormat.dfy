/** MessagePack as the scripting runtime uses it: values, the legal encodings of each value (the
    "Formats" section of the MessagePack specification), and machine numbers. */
module MsgPackFormat {

  import opened MachineWords

  // ----- numbers -----

  /** The deserializer turns the bytes around before it hands them to `BitConverter`. */
  function Flip(bs: seq<Byte>): (r: seq<Byte>)
    ensures |r| == |bs|
  {
    if bs == [] then [] else Flip(bs[1..]) + [bs[0]]
  }

  /** The `k` bytes of `n` as MessagePack orders them, most significant first. */
  function BigEndian(n: nat, k: nat): (r: seq<Byte>)
    ensures |r| == k
  {
    if k == 0 then [] else BigEndian(n / 256, k - 1) + [n % 256]
  }

  function Signed(n: nat, k: nat): int {
    if 2 * n < Pow256(k) then n else n - Pow256(k)
  }

  function Unsigned(n: int, k: nat): int {
    if n < 0 then n + Pow256(k) else n
  }

  lemma {:induction false} FlipSnoc(bs: seq<Byte>, b: Byte)
    ensures Flip(bs + [b]) == [b] + Flip(bs)
  {
    if bs == [] {
      assert bs + [b] == [b] && [b][1..] == [];
    } else {
      assert (bs + [b])[1..] == bs[1..] + [b];
      FlipSnoc(bs[1..], b);
    }
  }

  lemma {:induction false} FlipBigEndian(n: nat, k: nat)
    ensures Flip(BigEndian(n, k)) == LittleBytes(n, k)
  {
    if k > 0 {
      FlipSnoc(BigEndian(n / 256, k - 1), n % 256);
      FlipBigEndian(n / 256, k - 1);
    }
  }

  lemma {:induction false} ReadBig(n: nat, k: nat)
    requires n < Pow256(k)
    ensures LittleEndian(Flip(BigEndian(n, k))) == n
  {
    FlipBigEndian(n, k);
    ReadLittle(n, k);
  }

  // ----- values -----

  datatype Value =
    | Nil
    | Bool(b: bool)
    | Int(n: int)
    | Single(bits: nat)               // floats as bit patterns
    | Double(bits: nat)
    | Str(bytes: seq<Byte>)
    | Bin(bytes: seq<Byte>)
    | Arr(items: seq<Value>)
    | Map(entries: seq<Entry>)        // in insertion order
    | Vec(kind: nat, parts: seq<nat>) // vectors and quaternions, as float bit patterns
    | FuncRef(kind: nat, data: seq<Byte>)

  datatype Entry = Entry(key: seq<Byte>, value: Value)

  const FUNCREF := 10
  const LOCALFUNCREF := 11

  /** The number of floats in a vector extension of the given type. */
  function Parts(kind: nat): nat {
    if kind == 20 then 2 else if kind == 21 then 3 else if kind == 22 || kind == 23 then 4 else 0
  }

  predicate IsVec(kind: nat) { 20 <= kind <= 23 }
  predicate IsFuncRef(kind: nat) { kind == FUNCREF || kind == LOCALFUNCREF }

  /** Setting a key of an `ExpandoObject`: an existing entry keeps its place. */
  function SetEntry(entries: seq<Entry>, key: seq<Byte>, v: Value): seq<Entry> {
    if entries == [] then [Entry(key, v)]
    else if entries[0].key == key then [Entry(key, v)] + entries[1..]
    else [entries[0]] + SetEntry(entries[1..], key, v)
  }

  lemma {:induction false} SetNewEntry(entries: seq<Entry>, key: seq<Byte>, v: Value)
    requires forall i :: 0 <= i < |entries| ==> entries[i].key != key
    ensures SetEntry(entries, key, v) == entries + [Entry(key, v)]
  {
    if entries != [] { SetNewEntry(entries[1..], key, v); }
  }

  // ----- encodings -----

  /** A legal encoding: a value together with a choice of format for each of its parts.
      `width` is the number of bytes of a length or number, 0 for the fixed formats. */
  datatype Enc =
    | ENil
    | EBool(b: bool)
    | EFix(n: int)                                  // positive and negative fixint
    | EUInt(width: nat, n: int)
    | EInt(width: nat, n: int)
    | ESingle(bits: nat)
    | EDouble(bits: nat)
    | EStr(width: nat, bytes: seq<Byte>)
    | EBin(width: nat, bytes: seq<Byte>)
    | EArr(width: nat, items: seq<Enc>)
    | EMap(width: nat, entries: seq<EncEntry>)
    | EExt(width: nat, kind: nat, data: seq<Byte>)

  /** Keys are strings, in any string format. */
  datatype EncEntry = EncEntry(width: nat, key: seq<Byte>, value: Enc)

  /** The length fits the format; 32-bit lengths are signed for the reader. */
  predicate LengthFits(width: nat, fixed: nat, n: nat) {
    || (width == 0 && n < fixed)
    || (width == 1 && n < 0x100)
    || (width == 2 && n < 0x1_0000)
    || (width == 4 && n < 0x8000_0000)
  }

  predicate FixExt(n: nat) { n == 1 || n == 2 || n == 4 || n == 8 || n == 16 }

  predicate NumberWidth(width: nat) { width == 1 || width == 2 || width == 4 || width == 8 }

  ghost predicate KeysDistinct(entries: seq<EncEntry>) {
    forall i, j :: 0 <= i < j < |entries| ==> entries[i].key != entries[j].key
  }

  ghost predicate Legal(e: Enc) {
    match e
    case ENil => true
    case EBool(_) => true
    case EFix(n) => -32 <= n < 128
    case EUInt(w, n) => NumberWidth(w) && 0 <= n < Pow256(w)
    case EInt(w, n) => NumberWidth(w) && 0 <= Pow256(w) + 2 * n < 2 * Pow256(w)
    case ESingle(bits) => bits < Pow256(4)
    case EDouble(bits) => bits < Pow256(8)
    case EStr(w, bytes) => LengthFits(w, 32, |bytes|)
    case EBin(w, bytes) => w != 0 && LengthFits(w, 0, |bytes|)
    case EArr(w, items) => w != 1 && LengthFits(w, 16, |items|) && forall i :: 0 <= i < |items| ==> Legal(items[i])
    case EMap(w, entries) =>
      && w != 1 && LengthFits(w, 16, |entries|) && KeysDistinct(entries)
      && forall i :: 0 <= i < |entries| ==> LengthFits(entries[i].width, 32, |entries[i].key|) && Legal(entries[i].value)
    case EExt(w, kind, data) =>
      && (if w == 0 then FixExt(|data|) else LengthFits(w, 0, |data|))
      && (IsFuncRef(kind) || (IsVec(kind) && |data| == 4 * Parts(kind)))
  }

  // The type bytes of the formats that are followed by a number or a length of `w` bytes.
  function UIntType(w: nat): Byte { if w == 1 then 0xCC else if w == 2 then 0xCD else if w == 4 then 0xCE else 0xCF }
  function IntType(w: nat): Byte { if w == 1 then 0xD0 else if w == 2 then 0xD1 else if w == 4 then 0xD2 else 0xD3 }
  function StrType(w: nat): Byte { if w == 1 then 0xD9 else if w == 2 then 0xDA else 0xDB }
  function BinType(w: nat): Byte { if w == 1 then 0xC4 else if w == 2 then 0xC5 else 0xC6 }
  function ExtType(w: nat): Byte { if w == 1 then 0xC7 else if w == 2 then 0xC8 else 0xC9 }
  function ArrType(w: nat): Byte { if w == 2 then 0xDC else 0xDD }
  function MapType(w: nat): Byte { if w == 2 then 0xDE else 0xDF }

  function FixExtType(n: nat): Byte
    requires FixExt(n)
  {
    if n == 1 then 0xD4 else if n == 2 then 0xD5 else if n == 4 then 0xD6 else if n == 8 then 0xD7 else 0xD8
  }

  function StrBytes(width: nat, bytes: seq<Byte>): seq<Byte>
    requires LengthFits(width, 32, |bytes|)
  {
    if width == 0 then [0xA0 + |bytes|] + bytes else [StrType(width)] + (BigEndian(|bytes|, width) + bytes)
  }

  /** The bytes of an encoding. */
  ghost function Bytes(e: Enc): seq<Byte>
    requires Legal(e)
    decreases e
  {
    match e
    case ENil => [0xC0]
    case EBool(b) => [if b then 0xC3 else 0xC2]
    case EFix(n) => [if n >= 0 then n else n + 256]
    case EUInt(w, n) => [UIntType(w)] + BigEndian(n, w)
    case EInt(w, n) => [IntType(w)] + BigEndian(Unsigned(n, w), w)
    case ESingle(bits) => [0xCA] + BigEndian(bits, 4)
    case EDouble(bits) => [0xCB] + BigEndian(bits, 8)
    case EStr(w, bytes) => StrBytes(w, bytes)
    case EBin(w, bytes) => [BinType(w)] + (BigEndian(|bytes|, w) + bytes)
    case EArr(w, items) => ArrHeader(w, |items|) + ItemBytes(items)
    case EMap(w, entries) => MapHeader(w, |entries|) + EntryBytes(entries)
    case EExt(w, kind, data) =>
      if w == 0 then [FixExtType(|data|)] + ([kind] + data)
      else [ExtType(w)] + (BigEndian(|data|, w) + ([kind] + data))
  }

  function ArrHeader(width: nat, n: nat): seq<Byte>
    requires width != 1 && LengthFits(width, 16, n)
  {
    if width == 0 then [0x90 + n] else [ArrType(width)] + BigEndian(n, width)
  }

  function MapHeader(width: nat, n: nat): seq<Byte>
    requires width != 1 && LengthFits(width, 16, n)
  {
    if width == 0 then [0x80 + n] else [MapType(width)] + BigEndian(n, width)
  }

  ghost function ItemBytes(items: seq<Enc>): seq<Byte>
    requires forall i :: 0 <= i < |items| ==> Legal(items[i])
    decreases items
  {
    if items == [] then [] else Bytes(items[0]) + ItemBytes(items[1..])
  }

  ghost function EntryBytes(entries: seq<EncEntry>): seq<Byte>
    requires forall i :: 0 <= i < |entries| ==> LengthFits(entries[i].width, 32, |entries[i].key|) && Legal(entries[i].value)
    decreases entries
  {
    if entries == [] then []
    else StrBytes(entries[0].width, entries[0].key) + Bytes(entries[0].value) + EntryBytes(entries[1..])
  }

  /** The floats of a vector extension, as `BinaryReader.ReadSingle` reads them. */
  function Floats(data: seq<Byte>, n: nat): seq<nat>
    requires |data| == 4 * n
  {
    if n == 0 then [] else [LittleEndian(data[..4])] + Floats(data[4..], n - 1)
  }

  /** The value an encoding stands for. */
  function ValueOf(e: Enc): Value
    decreases e
  {
    match e
    case ENil => Nil
    case EBool(b) => Bool(b)
    case EFix(n) => Int(n)
    case EUInt(_, n) => Int(n)
    case EInt(_, n) => Int(n)
    case ESingle(bits) => Single(bits)
    case EDouble(bits) => Double(bits)
    case EStr(_, bytes) => Str(bytes)
    case EBin(_, bytes) => Bin(bytes)
    case EArr(_, items) => Arr(ItemValues(items))
    case EMap(_, entries) => Map(EntryValues(entries))
    case EExt(_, kind, data) =>
      if IsVec(kind) && |data| == 4 * Parts(kind) then Vec(kind, Floats(data, Parts(kind))) else FuncRef(kind, data)
  }

  function ItemValues(items: seq<Enc>): (r: seq<Value>)
    ensures |r| == |items|
    decreases items
  {
    if items == [] then [] else [ValueOf(items[0])] + ItemValues(items[1..])
  }

  function EntryValues(entries: seq<EncEntry>): (r: seq<Entry>)
    ensures |r| == |entries|
    decreases entries
  {
    if entries == [] then [] else [Entry(entries[0].key, ValueOf(entries[0].value))] + EntryValues(entries[1..])
  }
}
