/** The deserializer undoes every legal MessagePack encoding, nested to any depth and followed by
    any bytes; so it undoes the serializer, whose packer picks the shortest formats. */
module MsgPackRoundTrip {
  import opened MachineWords
  import opened MsgPackFormat
  import opened MsgPackDecoder

  // ----- reading back the parts -----

  lemma {:induction false} NumberBack(n: nat, k: nat, suffix: seq<Byte>)
    requires n < Pow256(k)
    ensures ReadNumber(BigEndian(n, k) + suffix, k) == Ok(n, suffix)
  {
    var s := BigEndian(n, k) + suffix;
    assert s[..k] == BigEndian(n, k) && s[k..] == suffix;
    ReadBig(n, k);
  }

  lemma {:induction false} LengthBack(t: Byte, fixed: nat, w: nat, n: nat, suffix: seq<Byte>)
    requires fixed > 0 && w != 0 && LengthFits(w, 0, n)
    ensures ReadLength(t, fixed, w, BigEndian(n, w) + suffix) == Ok(n, suffix)
  {
    Pow256Values();
    NumberBack(n, w, suffix);
  }

  lemma {:induction false} BytesBack(bytes: seq<Byte>, suffix: seq<Byte>)
    ensures ReadBytes(bytes + suffix, |bytes|) == Ok(bytes, suffix)
  {
    var s := bytes + suffix;
    assert s[..|bytes|] == bytes && s[|bytes|..] == suffix;
  }

  lemma {:induction false} Assoc(a: seq<Byte>, b: seq<Byte>, c: seq<Byte>)
    ensures (a + b) + c == a + (b + c)
  {
  }

  /** A type byte and what follows it. */
  lemma {:induction false} HeadTail(t: Byte, body: seq<Byte>)
    ensures ([t] + body)[0] == t && ([t] + body)[1..] == body
  {
  }

  // The type bytes select the unpackers of their formats.

  lemma {:induction false} NumberTypes(w: nat)
    requires NumberWidth(w)
    ensures GetUnpacker(UIntType(w)) == FUInt(w) && GetUnpacker(IntType(w)) == FInt(w)
  {
  }

  lemma {:induction false} BlobTypes(w: nat)
    requires w == 1 || w == 2 || w == 4
    ensures GetUnpacker(StrType(w)) == FStr(w) && GetUnpacker(BinType(w)) == FBin(w) && GetUnpacker(ExtType(w)) == FExt(w)
  {
  }

  lemma {:induction false} NestedTypes(w: nat)
    requires w == 2 || w == 4
    ensures GetUnpacker(ArrType(w)) == FArr(w) && GetUnpacker(MapType(w)) == FMap(w)
  {
  }

  lemma {:induction false} FixExtTypes(n: nat)
    requires FixExt(n)
    ensures GetUnpacker(FixExtType(n)) == FFixExt(n)
  {
  }

  /** How a byte string that begins with a known type byte is unpacked. */
  lemma {:induction false} Dispatched(show: Show, s: seq<Byte>, f: Format, t: Byte, body: seq<Byte>)
    requires s == [t] + body && GetUnpacker(t) == f
    ensures Unpack(show, s) == UnpackAs(show, f, t, body)
  {
    HeadTail(t, body);
  }

  lemma {:induction false} SinglesBack(data: seq<Byte>, n: nat, suffix: seq<Byte>)
    requires |data| == 4 * n
    ensures ReadSingles(data + suffix, n) == Ok(Floats(data, n), suffix)
    decreases n
  {
    var s := data + suffix;
    if n == 0 {
      assert s == suffix;
    } else {
      assert s[..4] == data[..4] && s[4..] == data[4..] + suffix;
      SinglesBack(data[4..], n - 1, suffix);
    }
  }

  lemma {:induction false} ExtBack(kind: nat, data: seq<Byte>, suffix: seq<Byte>)
    requires IsFuncRef(kind) || (IsVec(kind) && |data| == 4 * Parts(kind))
    ensures UnpackExt([kind] + (data + suffix), |data|) == Ok(ValueOf(EExt(0, kind, data)), suffix)
  {
    HeadTail(kind, data + suffix);
    if IsFuncRef(kind) { BytesBack(data, suffix); } else { SinglesBack(data, Parts(kind), suffix); }
  }

  // ----- reading back the formats -----

  lemma {:induction false} UIntBody(show: Show, w: nat, n: int, t: Byte, suffix: seq<Byte>)
    requires Legal(EUInt(w, n))
    ensures UnpackAs(show, FUInt(w), t, BigEndian(n, w) + suffix) == Ok(Int(n), suffix)
  {
    NumberBack(n, w, suffix);
  }

  lemma {:induction false} UIntBack(show: Show, w: nat, n: int, suffix: seq<Byte>)
    requires Legal(EUInt(w, n))
    ensures Unpack(show, Bytes(EUInt(w, n)) + suffix) == Ok(Int(n), suffix)
  {
    var t, body := UIntType(w), BigEndian(n, w) + suffix;
    NumberTypes(w);
    UIntBody(show, w, n, t, suffix);
    Assoc([t], BigEndian(n, w), suffix);
    Dispatched(show, Bytes(EUInt(w, n)) + suffix, FUInt(w), t, body);
  }

  lemma {:induction false} SignedBack(w: nat, n: int)
    requires Legal(EInt(w, n))
    ensures 0 <= Unsigned(n, w) < Pow256(w) && Signed(Unsigned(n, w), w) == n
  {
  }

  lemma {:induction false} IntBody(show: Show, w: nat, n: int, t: Byte, suffix: seq<Byte>)
    requires Legal(EInt(w, n)) && Unsigned(n, w) >= 0
    ensures UnpackAs(show, FInt(w), t, BigEndian(Unsigned(n, w), w) + suffix) == Ok(Int(n), suffix)
  {
    SignedBack(w, n);
    NumberBack(Unsigned(n, w), w, suffix);
  }

  lemma {:induction false} IntBack(show: Show, w: nat, n: int, suffix: seq<Byte>)
    requires Legal(EInt(w, n))
    ensures Unpack(show, Bytes(EInt(w, n)) + suffix) == Ok(Int(n), suffix)
  {
    SignedBack(w, n);
    var t, m := IntType(w), Unsigned(n, w);
    NumberTypes(w);
    IntBody(show, w, n, t, suffix);
    Assoc([t], BigEndian(m, w), suffix);
    Dispatched(show, Bytes(EInt(w, n)) + suffix, FInt(w), t, BigEndian(m, w) + suffix);
  }

  lemma {:induction false} FloatBack(show: Show, e: Enc, suffix: seq<Byte>)
    requires Legal(e) && (e.ESingle? || e.EDouble?)
    ensures Unpack(show, Bytes(e) + suffix) == Ok(ValueOf(e), suffix)
  {
    if e.ESingle? {
      NumberBack(e.bits, 4, suffix);
      Assoc([0xCA], BigEndian(e.bits, 4), suffix);
      Dispatched(show, Bytes(e) + suffix, FSingle, 0xCA, BigEndian(e.bits, 4) + suffix);
    } else {
      NumberBack(e.bits, 8, suffix);
      Assoc([0xCB], BigEndian(e.bits, 8), suffix);
      Dispatched(show, Bytes(e) + suffix, FDouble, 0xCB, BigEndian(e.bits, 8) + suffix);
    }
  }

  lemma {:induction false} BlobBack(t: Byte, w: nat, bytes: seq<Byte>, suffix: seq<Byte>, text: bool)
    requires w != 0 && LengthFits(w, 0, |bytes|)
    ensures UnpackBlob(t, w, BigEndian(|bytes|, w) + (bytes + suffix), text)
      == Ok(if text then Str(bytes) else Bin(bytes), suffix)
  {
    LengthBack(t, 32, w, |bytes|, bytes + suffix);
    BytesBack(bytes, suffix);
  }

  /** A type byte, a length, the contents and what follows. */
  lemma {:induction false} LengthFirst(t: Byte, w: nat, bytes: seq<Byte>, suffix: seq<Byte>, n: nat)
    ensures ([t] + (BigEndian(n, w) + bytes)) + suffix == [t] + (BigEndian(n, w) + (bytes + suffix))
  {
    Assoc([t], BigEndian(n, w) + bytes, suffix);
    Assoc(BigEndian(n, w), bytes, suffix);
  }

  lemma {:induction false} FixStrBack(show: Show, bytes: seq<Byte>, suffix: seq<Byte>)
    requires |bytes| < 32
    ensures Unpack(show, StrBytes(0, bytes) + suffix) == Ok(Str(bytes), suffix)
  {
    var t: Byte := 0xA0 + |bytes|;
    BytesBack(bytes, suffix);
    Assoc([t], bytes, suffix);
    Dispatched(show, StrBytes(0, bytes) + suffix, FStr(0), t, bytes + suffix);
  }

  lemma {:induction false} StrBack(show: Show, w: nat, bytes: seq<Byte>, suffix: seq<Byte>)
    requires LengthFits(w, 32, |bytes|)
    ensures Unpack(show, StrBytes(w, bytes) + suffix) == Ok(Str(bytes), suffix)
  {
    if w == 0 {
      FixStrBack(show, bytes, suffix);
    } else {
      var t := StrType(w);
      BlobTypes(w);
      BlobBack(t, w, bytes, suffix, true);
      LengthFirst(t, w, bytes, suffix, |bytes|);
      Dispatched(show, StrBytes(w, bytes) + suffix, FStr(w), t, BigEndian(|bytes|, w) + (bytes + suffix));
    }
  }

  lemma {:induction false} BinBack(show: Show, w: nat, bytes: seq<Byte>, suffix: seq<Byte>)
    requires Legal(EBin(w, bytes))
    ensures Unpack(show, Bytes(EBin(w, bytes)) + suffix) == Ok(Bin(bytes), suffix)
  {
    var t := BinType(w);
    BlobTypes(w);
    BlobBack(t, w, bytes, suffix, false);
    LengthFirst(t, w, bytes, suffix, |bytes|);
    Dispatched(show, Bytes(EBin(w, bytes)) + suffix, FBin(w), t, BigEndian(|bytes|, w) + (bytes + suffix));
  }

  lemma {:induction false} FixExtBack(show: Show, kind: nat, data: seq<Byte>, suffix: seq<Byte>)
    requires Legal(EExt(0, kind, data))
    ensures Unpack(show, Bytes(EExt(0, kind, data)) + suffix) == Ok(ValueOf(EExt(0, kind, data)), suffix)
  {
    FixExtTypes(|data|);
    ExtBack(kind, data, suffix);
    var body := [kind] + (data + suffix);
    Assoc([FixExtType(|data|)], [kind] + data, suffix);
    Assoc([kind], data, suffix);
    Dispatched(show, Bytes(EExt(0, kind, data)) + suffix, FFixExt(|data|), FixExtType(|data|), body);
  }

  lemma {:induction false} ExtensionBody(show: Show, w: nat, kind: nat, data: seq<Byte>, t: Byte, suffix: seq<Byte>)
    requires Legal(EExt(w, kind, data)) && w != 0
    ensures UnpackAs(show, FExt(w), t, BigEndian(|data|, w) + ([kind] + (data + suffix))) == Ok(ValueOf(EExt(0, kind, data)), suffix)
  {
    ExtBack(kind, data, suffix);
    LengthBack(t, 1, w, |data|, [kind] + (data + suffix));
  }

  lemma {:induction false} ExtensionBack(show: Show, w: nat, kind: nat, data: seq<Byte>, suffix: seq<Byte>)
    requires Legal(EExt(w, kind, data)) && w != 0
    ensures Unpack(show, Bytes(EExt(w, kind, data)) + suffix) == Ok(ValueOf(EExt(0, kind, data)), suffix)
  {
    var t := ExtType(w);
    BlobTypes(w);
    ExtensionBody(show, w, kind, data, t, suffix);
    LengthFirst(t, w, [kind] + data, suffix, |data|);
    Assoc([kind], data, suffix);
    Dispatched(show, Bytes(EExt(w, kind, data)) + suffix, FExt(w), t, BigEndian(|data|, w) + ([kind] + (data + suffix)));
  }

  lemma {:induction false} ArrUnpacked(show: Show, w: nat, t: Byte, s: seq<Byte>, n: nat, body: seq<Byte>)
    requires ReadLength(t, 16, w, s) == Ok(n, body) && UnpackItems(show, body, n).Ok?
    ensures UnpackAs(show, FArr(w), t, s) == Ok(Arr(UnpackItems(show, body, n).value), UnpackItems(show, body, n).rest)
  {
  }

  /** The header of an array leads to its contents. */
  lemma {:induction false} ArrHeaderBack(show: Show, w: nat, n: nat, body: seq<Byte>)
    requires w != 1 && LengthFits(w, 16, n) && UnpackItems(show, body, n).Ok?
    ensures Unpack(show, ArrHeader(w, n) + body) == Ok(Arr(UnpackItems(show, body, n).value), UnpackItems(show, body, n).rest)
  {
    if w == 0 {
      ArrUnpacked(show, 0, 0x90 + n, body, n, body);
      Dispatched(show, ArrHeader(w, n) + body, FArr(0), 0x90 + n, body);
    } else {
      NestedTypes(w);
      Assoc([ArrType(w)], BigEndian(n, w), body);
      LengthBack(ArrType(w), 16, w, n, body);
      ArrUnpacked(show, w, ArrType(w), BigEndian(n, w) + body, n, body);
      Dispatched(show, ArrHeader(w, n) + body, FArr(w), ArrType(w), BigEndian(n, w) + body);
    }
  }

  lemma {:induction false} MapUnpacked(show: Show, w: nat, t: Byte, s: seq<Byte>, n: nat, body: seq<Byte>)
    requires ReadLength(t, 16, w, s) == Ok(n, body) && UnpackEntries(show, body, n, []).Ok?
    ensures UnpackAs(show, FMap(w), t, s) == Ok(Map(UnpackEntries(show, body, n, []).value), UnpackEntries(show, body, n, []).rest)
  {
  }

  /** The header of a map leads to its contents. */
  lemma {:induction false} MapHeaderBack(show: Show, w: nat, n: nat, body: seq<Byte>)
    requires w != 1 && LengthFits(w, 16, n) && UnpackEntries(show, body, n, []).Ok?
    ensures Unpack(show, MapHeader(w, n) + body) == Ok(Map(UnpackEntries(show, body, n, []).value), UnpackEntries(show, body, n, []).rest)
  {
    if w == 0 {
      MapUnpacked(show, 0, 0x80 + n, body, n, body);
      Dispatched(show, MapHeader(w, n) + body, FMap(0), 0x80 + n, body);
    } else {
      NestedTypes(w);
      Assoc([MapType(w)], BigEndian(n, w), body);
      LengthBack(MapType(w), 16, w, n, body);
      MapUnpacked(show, w, MapType(w), BigEndian(n, w) + body, n, body);
      Dispatched(show, MapHeader(w, n) + body, FMap(w), MapType(w), BigEndian(n, w) + body);
    }
  }

  lemma {:induction false} OneByteBack(show: Show, e: Enc, suffix: seq<Byte>)
    requires Legal(e) && (e.ENil? || e.EBool? || e.EFix?)
    ensures Unpack(show, Bytes(e) + suffix) == Ok(ValueOf(e), suffix)
  {
    var t := Bytes(e)[0];
    Dispatched(show, Bytes(e) + suffix, GetUnpacker(t), t, suffix);
  }

  // ----- the main result -----

  /** Every legal encoding, followed by any bytes, decodes to its value and leaves the reader
      exactly at those bytes. */
  lemma {:induction false} DecoderUndoesEncoding(show: Show, e: Enc, suffix: seq<Byte>)
    requires Legal(e)
    ensures Unpack(show, Bytes(e) + suffix) == Ok(ValueOf(e), suffix)
    decreases e
  {
    match e {
      case ENil => OneByteBack(show, e, suffix);
      case EBool(_) => OneByteBack(show, e, suffix);
      case EFix(_) => OneByteBack(show, e, suffix);
      case EUInt(w, n) => UIntBack(show, w, n, suffix);
      case EInt(w, n) => IntBack(show, w, n, suffix);
      case ESingle(_) => FloatBack(show, e, suffix);
      case EDouble(_) => FloatBack(show, e, suffix);
      case EStr(w, bytes) => StrBack(show, w, bytes, suffix);
      case EBin(w, bytes) => BinBack(show, w, bytes, suffix);
      case EExt(w, kind, data) =>
        if w == 0 { FixExtBack(show, kind, data, suffix); } else { ExtensionBack(show, w, kind, data, suffix); }
      case EArr(w, items) =>
        Assoc(ArrHeader(w, |items|), ItemBytes(items), suffix);
        ItemsBack(show, items, suffix);
        ArrHeaderBack(show, w, |items|, ItemBytes(items) + suffix);
      case EMap(w, entries) =>
        Assoc(MapHeader(w, |entries|), EntryBytes(entries), suffix);
        EntriesBack(show, entries, [], suffix);
        assert [] + EntryValues(entries) == EntryValues(entries);
        MapHeaderBack(show, w, |entries|, EntryBytes(entries) + suffix);
    }
  }

  lemma {:induction false} ItemsBack(show: Show, items: seq<Enc>, suffix: seq<Byte>)
    requires forall i :: 0 <= i < |items| ==> Legal(items[i])
    ensures UnpackItems(show, ItemBytes(items) + suffix, |items|) == Ok(ItemValues(items), suffix)
    decreases items
  {
    if items == [] {
      assert ItemBytes(items) + suffix == suffix;
    } else {
      var rest := ItemBytes(items[1..]) + suffix;
      Assoc(Bytes(items[0]), ItemBytes(items[1..]), suffix);
      DecoderUndoesEncoding(show, items[0], rest);
      ItemsBack(show, items[1..], suffix);
    }
  }

  /** One round of the map loop, with a string key. */
  lemma {:induction false} EntryStep(show: Show, s: seq<Byte>, n: nat, done: seq<Entry>, key: seq<Byte>, s1: seq<Byte>, v: Value, s2: seq<Byte>)
    requires n > 0 && Unpack(show, s) == Ok(Str(key), s1) && Unpack(show, s1) == Ok(v, s2)
    ensures UnpackEntries(show, s, n, done) == UnpackEntries(show, s2, n - 1, SetEntry(done, key, v))
  {
  }

  lemma {:induction false} EntryAssoc(a: seq<Entry>, b: seq<Entry>, c: seq<Entry>)
    ensures (a + b) + c == a + (b + c)
  {
  }

  ghost predicate KeysNew(done: seq<Entry>, entries: seq<EncEntry>) {
    forall i, j :: 0 <= i < |done| && 0 <= j < |entries| ==> done[i].key != entries[j].key
  }

  lemma {:induction false} TailKeysNew(done: seq<Entry>, entries: seq<EncEntry>, v: Value)
    requires entries != [] && KeysDistinct(entries) && KeysNew(done, entries)
    ensures KeysDistinct(entries[1..]) && KeysNew(done + [Entry(entries[0].key, v)], entries[1..])
    ensures SetEntry(done, entries[0].key, v) == done + [Entry(entries[0].key, v)]
  {
    SetNewEntry(done, entries[0].key, v);
  }

  lemma {:induction false} EntryBytesSplit(entries: seq<EncEntry>, suffix: seq<Byte>)
    requires entries != []
    requires forall i :: 0 <= i < |entries| ==> LengthFits(entries[i].width, 32, |entries[i].key|) && Legal(entries[i].value)
    ensures EntryBytes(entries) + suffix
      == StrBytes(entries[0].width, entries[0].key) + (Bytes(entries[0].value) + (EntryBytes(entries[1..]) + suffix))
  {
    var e := entries[0];
    Assoc(StrBytes(e.width, e.key) + Bytes(e.value), EntryBytes(entries[1..]), suffix);
    Assoc(StrBytes(e.width, e.key), Bytes(e.value), EntryBytes(entries[1..]) + suffix);
  }

  lemma {:induction false} EntriesBack(show: Show, entries: seq<EncEntry>, done: seq<Entry>, suffix: seq<Byte>)
    requires forall i :: 0 <= i < |entries| ==> LengthFits(entries[i].width, 32, |entries[i].key|) && Legal(entries[i].value)
    requires KeysDistinct(entries) && KeysNew(done, entries)
    ensures UnpackEntries(show, EntryBytes(entries) + suffix, |entries|, done) == Ok(done + EntryValues(entries), suffix)
    decreases entries
  {
    if entries == [] {
      assert EntryBytes(entries) + suffix == suffix && done + [] == done;
    } else {
      var e, v := entries[0], ValueOf(entries[0].value);
      var rest := EntryBytes(entries[1..]) + suffix;
      EntryBytesSplit(entries, suffix);
      StrBack(show, e.width, e.key, Bytes(e.value) + rest);
      DecoderUndoesEncoding(show, e.value, rest);
      EntryStep(show, EntryBytes(entries) + suffix, |entries|, done, e.key, Bytes(e.value) + rest, v, rest);
      TailKeysNew(done, entries, v);
      EntriesBack(show, entries[1..], done + [Entry(e.key, v)], suffix);
      EntryAssoc(done, [Entry(e.key, v)], EntryValues(entries[1..]));
    }
  }
}
