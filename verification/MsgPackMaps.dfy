/** Maps whose keys repeat or are not strings: what the `ExpandoObject` holds in the end. */
module MsgPackMaps {
  import opened MachineWords
  import opened MsgPackFormat
  import opened MsgPackDecoder
  import opened MsgPackRoundTrip

  /** Entries set one by one, the first ones first. */
  function SetAll(done: seq<Entry>, es: seq<Entry>): seq<Entry>
    decreases |es|
  {
    if es == [] then done else SetAll(SetEntry(done, es[0].key, es[0].value), es[1..])
  }

  // ----- what setting entries means -----

  /** The last entry for its key among `es`. */
  ghost predicate LastOf(es: seq<Entry>, e: Entry) {
    exists j :: 0 <= j < |es| && es[j] == e && forall k :: j < k < |es| ==> es[k].key != e.key
  }

  ghost predicate HasKey(es: seq<Entry>, key: seq<Byte>) {
    exists i :: 0 <= i < |es| && es[i].key == key
  }

  /** Key `a` turns up among `es` before `b` does. */
  ghost predicate Earlier(es: seq<Entry>, a: seq<Byte>, b: seq<Byte>) {
    exists m :: 0 <= m < |es| && es[m].key == a && forall k :: 0 <= k <= m ==> es[k].key != b
  }

  /** `r` holds each key of `es` once, with the value it was given last, in the order in which the
      keys turned up first. */
  ghost predicate Holds(es: seq<Entry>, r: seq<Entry>) {
    && (forall i :: 0 <= i < |r| ==> LastOf(es, r[i]))
    && (forall j :: 0 <= j < |es| ==> HasKey(r, es[j].key))
    && (forall i, j :: 0 <= i < j < |r| ==> Earlier(es, r[i].key, r[j].key))
    && (forall i, j :: 0 <= i < j < |r| ==> r[i].key != r[j].key)
  }

  /** Setting a key overwrites its entry where it stands, or appends one. */
  lemma {:induction false} SetEntryPlace(entries: seq<Entry>, key: seq<Byte>, v: Value) returns (i: nat)
    ensures i <= |entries| && forall j :: 0 <= j < i ==> entries[j].key != key
    ensures i < |entries| ==> entries[i].key == key && SetEntry(entries, key, v) == entries[i := Entry(key, v)]
    ensures i == |entries| ==> SetEntry(entries, key, v) == entries + [Entry(key, v)]
  {
    if entries == [] || entries[0].key == key {
      i := 0;
    } else {
      var j := SetEntryPlace(entries[1..], key, v);
      i := j + 1;
      assert entries == [entries[0]] + entries[1..];
    }
  }

  lemma {:induction false} EarlierGrows(es: seq<Entry>, e: Entry, a: seq<Byte>, b: seq<Byte>)
    requires Earlier(es, a, b)
    ensures Earlier(es + [e], a, b)
  {
    var m :| 0 <= m < |es| && es[m].key == a && forall k :: 0 <= k <= m ==> es[k].key != b;
    assert (es + [e])[m].key == a && forall k :: 0 <= k <= m ==> (es + [e])[k] == es[k];
  }

  lemma {:induction false} LastGrows(es: seq<Entry>, e: Entry, x: Entry)
    requires LastOf(es, x) && x.key != e.key
    ensures LastOf(es + [e], x)
  {
    var j :| 0 <= j < |es| && es[j] == x && forall k :: j < k < |es| ==> es[k].key != x.key;
    assert (es + [e])[j] == x;
  }

  lemma {:induction false} NewestIsLast(es: seq<Entry>, e: Entry)
    ensures LastOf(es + [e], e)
  {
    assert (es + [e])[|es|] == e;
  }

  lemma {:induction false} NewKeyIsLatest(es: seq<Entry>, e: Entry, x: Entry)
    requires LastOf(es, x) && forall k :: 0 <= k < |es| ==> es[k].key != e.key
    ensures Earlier(es + [e], x.key, e.key)
  {
    var j :| 0 <= j < |es| && es[j] == x;
    assert (es + [e])[j] == x && forall k :: 0 <= k <= j ==> (es + [e])[k] == es[k];
  }

  lemma {:induction false} HoldsStep(es: seq<Entry>, r: seq<Entry>, e: Entry)
    requires Holds(es, r)
    ensures Holds(es + [e], SetEntry(r, e.key, e.value))
  {
    var i := SetEntryPlace(r, e.key, e.value);
    if i < |r| { Overwritten(es, r, e, i); } else { Appended(es, r, e); }
  }

  lemma {:induction false} Overwritten(es: seq<Entry>, r: seq<Entry>, e: Entry, i: nat)
    requires Holds(es, r) && i < |r| && r[i].key == e.key
    ensures Holds(es + [e], r[i := e])
  {
    var r' := r[i := e];
    forall k | 0 <= k < |r'| ensures LastOf(es + [e], r'[k]) {
      if k == i { NewestIsLast(es, e); } else { LastGrows(es, e, r[k]); }
    }
    forall j | 0 <= j < |es + [e]| ensures HasKey(r', (es + [e])[j].key) {
      if j < |es| { StillThere(r, r', es[j].key); } else { assert r'[i].key == e.key; }
    }
    forall j, k | 0 <= j < k < |r'| ensures Earlier(es + [e], r'[j].key, r'[k].key) {
      assert r'[j].key == r[j].key && r'[k].key == r[k].key;
      EarlierGrows(es, e, r[j].key, r[k].key);
    }
  }

  lemma {:induction false} StillThere(r: seq<Entry>, r': seq<Entry>, key: seq<Byte>)
    requires HasKey(r, key) && |r| <= |r'| && forall i :: 0 <= i < |r| ==> r'[i].key == r[i].key
    ensures HasKey(r', key)
  {
    var i :| 0 <= i < |r| && r[i].key == key;
    assert r'[i].key == key;
  }

  lemma {:induction false} Appended(es: seq<Entry>, r: seq<Entry>, e: Entry)
    requires Holds(es, r) && forall i :: 0 <= i < |r| ==> r[i].key != e.key
    ensures Holds(es + [e], r + [e])
  {
    var r' := r + [e];
    forall k | 0 <= k < |es| ensures es[k].key != e.key {
      assert HasKey(r, es[k].key);
    }
    forall k | 0 <= k < |r'| ensures LastOf(es + [e], r'[k]) {
      if k == |r| { NewestIsLast(es, e); } else { LastGrows(es, e, r[k]); }
    }
    forall j | 0 <= j < |es + [e]| ensures HasKey(r', (es + [e])[j].key) {
      if j < |es| { StillThere(r, r', es[j].key); } else { assert r'[|r|].key == e.key; }
    }
    forall j, k | 0 <= j < k < |r'| ensures Earlier(es + [e], r'[j].key, r'[k].key) {
      if k < |r| { EarlierGrows(es, e, r[j].key, r[k].key); } else { NewKeyIsLatest(es, e, r[j]); }
    }
  }

  lemma {:induction false} SetAllHolds(before: seq<Entry>, done: seq<Entry>, es: seq<Entry>)
    requires Holds(before, done)
    ensures Holds(before + es, SetAll(done, es))
    decreases |es|
  {
    if es == [] {
      assert before + es == before;
    } else {
      HoldsStep(before, done, es[0]);
      SetAllHolds(before + [es[0]], SetEntry(done, es[0].key, es[0].value), es[1..]);
      assert (before + [es[0]]) + es[1..] == before + es;
    }
  }

  // ----- maps of the stream -----

  lemma {:induction false} OneSet(show: Show, e: EncEntry, rest: seq<Byte>, n: nat, done: seq<Entry>)
    requires n > 0 && LengthFits(e.width, 32, |e.key|) && Legal(e.value)
    ensures UnpackEntries(show, StrBytes(e.width, e.key) + (Bytes(e.value) + rest), n, done)
      == UnpackEntries(show, rest, n - 1, SetEntry(done, e.key, ValueOf(e.value)))
  {
    StrBack(show, e.width, e.key, Bytes(e.value) + rest);
    DecoderUndoesEncoding(show, e.value, rest);
    EntryStep(show, StrBytes(e.width, e.key) + (Bytes(e.value) + rest), n, done, e.key, Bytes(e.value) + rest, ValueOf(e.value), rest);
  }

  /** The map loop on entries with string keys, however often the keys repeat. */
  lemma {:induction false} EntriesSet(show: Show, entries: seq<EncEntry>, done: seq<Entry>, suffix: seq<Byte>)
    requires forall i :: 0 <= i < |entries| ==> LengthFits(entries[i].width, 32, |entries[i].key|) && Legal(entries[i].value)
    ensures UnpackEntries(show, EntryBytes(entries) + suffix, |entries|, done) == Ok(SetAll(done, EntryValues(entries)), suffix)
    decreases |entries|
  {
    if entries == [] {
      assert EntryBytes(entries) + suffix == suffix;
    } else {
      var e, v := entries[0], ValueOf(entries[0].value);
      EntryBytesSplit(entries, suffix);
      OneSet(show, e, EntryBytes(entries[1..]) + suffix, |entries|, done);
      EntriesSet(show, entries[1..], SetEntry(done, e.key, v), suffix);
      ValuesCons(entries);
      SetAllCons(done, Entry(e.key, v), EntryValues(entries[1..]));
    }
  }

  lemma {:induction false} ValuesCons(entries: seq<EncEntry>)
    requires entries != []
    ensures EntryValues(entries) == [Entry(entries[0].key, ValueOf(entries[0].value))] + EntryValues(entries[1..])
  {
  }

  lemma {:induction false} SetAllCons(done: seq<Entry>, e: Entry, es: seq<Entry>)
    ensures SetAll(done, [e] + es) == SetAll(SetEntry(done, e.key, e.value), es)
  {
    assert ([e] + es)[1..] == es;
  }

  /** A map whose keys may repeat is decoded to one entry for each key: the value it was given last,
      in the place where the key turned up first. */
  lemma {:induction false} RepeatedKeys(show: Show, width: nat, entries: seq<EncEntry>, suffix: seq<Byte>)
    requires width != 1 && LengthFits(width, 16, |entries|)
    requires forall i :: 0 <= i < |entries| ==> LengthFits(entries[i].width, 32, |entries[i].key|) && Legal(entries[i].value)
    ensures var r := Unpack(show, MapHeader(width, |entries|) + (EntryBytes(entries) + suffix));
      r.Ok? && r.rest == suffix && r.value.Map? && Holds(EntryValues(entries), r.value.entries)
  {
    EntriesSet(show, entries, [], suffix);
    SetAllHolds([], [], EntryValues(entries));
    assert [] + EntryValues(entries) == EntryValues(entries);
    MapHeaderBack(show, width, |entries|, EntryBytes(entries) + suffix);
  }

  /** A key of any kind: a string is itself, nil throws, and any other value is its `ToString`. */
  lemma {:induction false} KeyOfAnyKind(show: Show, key: Enc, value: Enc, suffix: seq<Byte>)
    requires Legal(key) && Legal(value)
    ensures Unpack(show, [0x81] + (Bytes(key) + (Bytes(value) + suffix))) ==
      match ValueOf(key)
      case Nil => Err(NullKey)
      case Str(text) => Ok(Map([Entry(text, ValueOf(value))]), suffix)
      case _ => Ok(Map([Entry(show(ValueOf(key)), ValueOf(value))]), suffix)
  {
    var body := Bytes(key) + (Bytes(value) + suffix);
    DecoderUndoesEncoding(show, key, Bytes(value) + suffix);
    DecoderUndoesEncoding(show, value, suffix);
    OneEntry(show, body, ValueOf(key), Bytes(value) + suffix, ValueOf(value), suffix);
    Dispatched(show, [0x81] + body, FMap(0), 0x81, body);
  }

  lemma {:induction false} OneEntry(show: Show, s: seq<Byte>, k: Value, s1: seq<Byte>, v: Value, s2: seq<Byte>)
    requires Unpack(show, s) == Ok(k, s1) && Unpack(show, s1) == Ok(v, s2)
    ensures UnpackEntries(show, s, 1, []) ==
      if k == Nil then Err(NullKey) else Ok([Entry(if k.Str? then k.bytes else show(k), v)], s2)
  {
  }
}
