/** The serializer's encoding is the shortest: no legal encoding of the same value, with whatever
    formats for it and its parts, has fewer bytes. */
module MsgPackShortest {
  import opened MachineWords
  import opened MsgPackFormat
  import opened MsgPackDecoder
  import opened MsgPackRoundTrip
  import opened MsgPackStreams

  lemma {:induction false} IntIsShortest(e: Enc)
    requires Legal(e) && (e.EFix? || e.EUInt? || e.EInt?) && Legal(PackInt(e.n))
    ensures |Bytes(PackInt(e.n))| <= |Bytes(e)|
  {
    Pow256Values();
    var p := PackInt(e.n);
    assert |Bytes(p)| == 1 + IntWidth(p) && |Bytes(e)| == 1 + IntWidth(e);
  }

  function IntWidth(e: Enc): nat
    requires e.EFix? || e.EUInt? || e.EInt?
  {
    if e.EFix? then 0 else e.width
  }

  lemma {:induction false} StrIsShortest(w: nat, bytes: seq<Byte>)
    requires LengthFits(w, 32, |bytes|)
    ensures LengthFits(StrWidth(|bytes|), 32, |bytes|)
    ensures |StrBytes(StrWidth(|bytes|), bytes)| <= |StrBytes(w, bytes)|
  {
    var v := StrWidth(|bytes|);
    assert v <= w;
    assert |StrBytes(v, bytes)| == 1 + v + |bytes| && |StrBytes(w, bytes)| == 1 + w + |bytes|;
  }

  lemma {:induction false} BinIsShortest(w: nat, bytes: seq<Byte>)
    requires Legal(EBin(w, bytes))
    ensures Legal(EBin(BlobWidth(|bytes|), bytes))
    ensures |Bytes(EBin(BlobWidth(|bytes|), bytes))| <= |Bytes(EBin(w, bytes))|
  {
    assert BlobWidth(|bytes|) <= w;
  }

  /** The floats of a vector come back from any bytes of that length. */
  lemma {:induction false} FloatsBack(data: seq<Byte>, n: nat)
    requires |data| == 4 * n
    ensures |Floats(data, n)| == n && forall i :: 0 <= i < n ==> Floats(data, n)[i] < Pow256(4)
    decreases n
  {
    if n > 0 {
      FloatsBack(data[4..], n - 1);
      LittleEndianBound(data[..4]);
    }
  }

  lemma {:induction false} VecIsShortest(w: nat, kind: nat, data: seq<Byte>)
    requires Legal(EExt(w, kind, data)) && IsVec(kind) && |data| == 4 * Parts(kind)
    ensures var p := PackVec(kind, Floats(data, Parts(kind)));
      Legal(p) && |Bytes(p)| <= |Bytes(EExt(w, kind, data))|
  {
    var parts := Floats(data, Parts(kind));
    FloatsBack(data, Parts(kind));
    VecBytesBack(parts);
    assert |VecBytes(parts)| == |data|;
  }

  lemma {:induction false} NestedIsShortest(w: nat, n: nat)
    requires w != 1 && LengthFits(w, 16, n)
    ensures NestedWidth(n) != 1 && LengthFits(NestedWidth(n), 16, n)
    ensures |ArrHeader(NestedWidth(n), n)| <= |ArrHeader(w, n)| && |MapHeader(NestedWidth(n), n)| <= |MapHeader(w, n)|
  {
    assert NestedWidth(n) <= w;
  }

  lemma {:induction false} ItemsAreShortest(items: seq<Enc>)
    requires forall i :: 0 <= i < |items| ==> Legal(items[i])
    requires forall i :: 0 <= i < |items| ==> Serializable(ItemValues(items)[i])
    ensures forall i :: 0 <= i < |items| ==> Legal(PackedItems(ItemValues(items))[i])
    ensures |ItemBytes(PackedItems(ItemValues(items)))| <= |ItemBytes(items)|
    decreases items
  {
    PackedItemsAreLegal(ItemValues(items));
    if items != [] {
      var tail := ItemValues(items[1..]);
      assert ItemValues(items)[1..] == tail && forall i :: 0 <= i < |tail| ==> tail[i] == ItemValues(items)[i + 1];
      PackedIsShortest(items[0]);
      ItemsAreShortest(items[1..]);
      assert PackedItems(ItemValues(items)) == [Packed(ValueOf(items[0]))] + PackedItems(tail);
      ItemsCons(Packed(ValueOf(items[0])), PackedItems(tail));
    }
  }

  lemma {:induction false} ItemsCons(e: Enc, es: seq<Enc>)
    requires Legal(e) && forall i :: 0 <= i < |es| ==> Legal(es[i])
    ensures forall i :: 0 <= i < |[e] + es| ==> Legal(([e] + es)[i])
    ensures |ItemBytes([e] + es)| == |Bytes(e)| + |ItemBytes(es)|
  {
    assert ([e] + es)[1..] == es;
  }

  lemma {:induction false} EntriesAreShortest(entries: seq<EncEntry>)
    requires AllFit(entries)
    requires forall i :: 0 <= i < |entries| ==> |entries[i].key| < 0x8000_0000 && Serializable(EntryValues(entries)[i].value)
    ensures AllFit(PackedEntries(EntryValues(entries)))
    ensures |EntryBytes(PackedEntries(EntryValues(entries)))| <= |EntryBytes(entries)|
    decreases entries
  {
    EntryKeys(entries);
    PackedFit(EntryValues(entries));
    if entries != [] {
      var tail := EntryValues(entries[1..]);
      assert EntryValues(entries)[1..] == tail && forall i :: 0 <= i < |tail| ==> tail[i] == EntryValues(entries)[i + 1];
      PackedIsShortest(entries[0].value);
      StrIsShortest(entries[0].width, entries[0].key);
      EntriesAreShortest(entries[1..]);
      var first := PackedEntry(EntryValues(entries)[0]);
      assert PackedEntries(EntryValues(entries)) == [first] + PackedEntries(tail);
      EntriesCons(first, PackedEntries(tail));
    }
  }

  lemma {:induction false} EntryKeys(entries: seq<EncEntry>)
    ensures forall i :: 0 <= i < |entries| ==> EntryValues(entries)[i].key == entries[i].key
    decreases |entries|
  {
    if entries != [] { EntryKeys(entries[1..]); }
  }

  lemma {:induction false} EntriesCons(e: EncEntry, es: seq<EncEntry>)
    requires AllFit([e] + es)
    ensures AllFit(es) && LengthFits(e.width, 32, |e.key|) && Legal(e.value)
    ensures |EntryBytes([e] + es)| == |StrBytes(e.width, e.key)| + |Bytes(e.value)| + |EntryBytes(es)|
  {
    assert ([e] + es)[0] == e && ([e] + es)[1..] == es;
    assert forall i :: 0 <= i < |es| ==> es[i] == ([e] + es)[i + 1];
  }

  /** No legal encoding of a value the serializer can write is shorter than the one it writes. */
  lemma {:induction false} PackedIsShortest(e: Enc)
    requires Legal(e) && Serializable(ValueOf(e))
    ensures Legal(Packed(ValueOf(e))) && |Bytes(Packed(ValueOf(e)))| <= |Bytes(e)|
    decreases e
  {
    PackedIsLegal(ValueOf(e));
    match e {
      case EFix(_) => IntIsShortest(e);
      case EUInt(_, _) => IntIsShortest(e);
      case EInt(_, _) => IntIsShortest(e);
      case EStr(w, bytes) => StrIsShortest(w, bytes);
      case EBin(w, bytes) => BinIsShortest(w, bytes);
      case EArr(w, items) =>
        NestedIsShortest(w, |items|);
        ItemsAreShortest(items);
      case EMap(w, entries) =>
        NestedIsShortest(w, |entries|);
        EntryKeys(entries);
        EntriesAreShortest(entries);
      case EExt(w, kind, data) => VecIsShortest(w, kind, data);
      case _ =>
    }
  }
}
