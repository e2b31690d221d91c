/** What the deserializer makes of input that is no legal encoding, and of single formats byte by
    byte: which exception it throws, and where it goes on without one. */
module MsgPackMalformed {
  import opened MachineWords
  import opened MsgPackFormat
  import opened MsgPackDecoder
  import opened MsgPackRoundTrip

  lemma {:induction false} NothingToRead(show: Show)
    ensures Unpack(show, []) == Err(EndOfStream)
  {
  }

  /** Of all type bytes, only 0xC1 selects no unpacker. */
  lemma {:induction false} OnlyC1IsInvalid(show: Show, t: Byte, s: seq<Byte>)
    ensures GetUnpacker(t) == FInvalid <==> t == 0xC1
    ensures Unpack(show, [0xC1] + s) == Err(BadType)
  {
    Dispatched(show, [0xC1] + s, FInvalid, 0xC1, s);
  }

  /** A number cut short: one byte is read by `ReadByte`, more of them are indexed. */
  lemma {:induction false} ShortNumber(show: Show, t: Byte, w: nat, s: seq<Byte>)
    requires (w == 1 && t in [0xCC, 0xD0]) || (w == 2 && t in [0xCD, 0xD1]) || (w == 4 && t in [0xCE, 0xD2, 0xCA])
      || (w == 8 && t in [0xCF, 0xD3, 0xCB])
    requires |s| < w
    ensures Unpack(show, [t] + s) == Err(if w == 1 then EndOfStream else IndexOutOfRange)
  {
    var f := GetUnpacker(t);
    ShortNumberFormat(f, w, t, s);
    Dispatched(show, [t] + s, f, t, s);
  }

  lemma {:induction false} ShortNumberFormat(f: Format, w: nat, t: Byte, s: seq<Byte>)
    requires f == FUInt(w) || f == FInt(w) || (w == 4 && f == FSingle) || (w == 8 && f == FDouble)
    requires |s| < w
    ensures UnpackScalar(f, t, s) == Err(if w == 1 then EndOfStream else IndexOutOfRange)
  {
  }

  // ----- lengths that promise too much or too little -----

  /** The stream ends before a string or a binary does: what is left of it is the value. */
  lemma {:induction false} ShortBlob(show: Show, w: nat, n: nat, bytes: seq<Byte>)
    requires w in [1, 2, 4] && LengthFits(w, 0, n) && |bytes| < n
    ensures Unpack(show, [StrType(w)] + (BigEndian(n, w) + bytes)) == Ok(Str(bytes), [])
    ensures Unpack(show, [BinType(w)] + (BigEndian(n, w) + bytes)) == Ok(Bin(bytes), [])
  {
    var s := BigEndian(n, w) + bytes;
    BlobTypes(w);
    LengthBack(StrType(w), 32, w, n, bytes);
    LengthBack(BinType(w), 32, w, n, bytes);
    Dispatched(show, [StrType(w)] + s, FStr(w), StrType(w), s);
    Dispatched(show, [BinType(w)] + s, FBin(w), BinType(w), s);
  }

  /** A 32-bit length from 0x80000000 on is negative for the reader. */
  lemma {:induction false} NegativeLengthRead(t: Byte, fixed: nat, n: nat, s: seq<Byte>)
    requires fixed > 0 && 0x8000_0000 <= n < 0x1_0000_0000
    ensures ReadLength(t, fixed, 4, BigEndian(n, 4) + s) == Ok(n - 0x1_0000_0000, s)
  {
    Pow256Values();
    NumberBack(n, 4, s);
  }

  /** A negative length throws for strings and binaries. */
  lemma {:induction false} NegativeBlob(show: Show, n: nat, s: seq<Byte>)
    requires 0x8000_0000 <= n < 0x1_0000_0000
    ensures Unpack(show, [0xDB] + (BigEndian(n, 4) + s)) == Err(NegativeLength)
    ensures Unpack(show, [0xC6] + (BigEndian(n, 4) + s)) == Err(NegativeLength)
  {
    NegativeLengthRead(0xDB, 32, n, s);
    NegativeLengthRead(0xC6, 32, n, s);
    Dispatched(show, [0xDB] + (BigEndian(n, 4) + s), FStr(4), 0xDB, BigEndian(n, 4) + s);
    Dispatched(show, [0xC6] + (BigEndian(n, 4) + s), FBin(4), 0xC6, BigEndian(n, 4) + s);
  }

  /** For arrays and maps it reads nothing: they are empty, and the bytes after it come next. */
  lemma {:induction false} NegativeCount(show: Show, n: nat, s: seq<Byte>)
    requires 0x8000_0000 <= n < 0x1_0000_0000
    ensures Unpack(show, [0xDD] + (BigEndian(n, 4) + s)) == Ok(Arr([]), s)
    ensures Unpack(show, [0xDF] + (BigEndian(n, 4) + s)) == Ok(Map([]), s)
  {
    NegativeLengthRead(0xDD, 16, n, s);
    NegativeLengthRead(0xDF, 16, n, s);
    Dispatched(show, [0xDD] + (BigEndian(n, 4) + s), FArr(4), 0xDD, BigEndian(n, 4) + s);
    Dispatched(show, [0xDF] + (BigEndian(n, 4) + s), FMap(4), 0xDF, BigEndian(n, 4) + s);
  }

  /** An array with fewer items than announced throws at the end of the stream. */
  lemma {:induction false} ShortItems(show: Show, items: seq<Enc>, n: int)
    requires forall i :: 0 <= i < |items| ==> Legal(items[i])
    requires n > |items|
    ensures UnpackItems(show, ItemBytes(items), n) == Err(EndOfStream)
    decreases |items|
  {
    if items == [] {
      NothingToRead(show);
    } else {
      DecoderUndoesEncoding(show, items[0], ItemBytes(items[1..]));
      ShortItems(show, items[1..], n - 1);
    }
  }

  lemma {:induction false} ArrFails(show: Show, w: nat, t: Byte, s: seq<Byte>, n: nat, body: seq<Byte>, e: Error)
    requires ReadLength(t, 16, w, s) == Ok(n, body) && UnpackItems(show, body, n) == Err(e)
    ensures UnpackAs(show, FArr(w), t, s) == Err(e)
  {
  }

  lemma {:induction false} ShortArray(show: Show, w: nat, n: nat, items: seq<Enc>)
    requires w != 1 && LengthFits(w, 16, n) && n > |items|
    requires forall i :: 0 <= i < |items| ==> Legal(items[i])
    ensures Unpack(show, ArrHeader(w, n) + ItemBytes(items)) == Err(EndOfStream)
  {
    ShortItems(show, items, n);
    ShortArrayBody(show, w, n, ItemBytes(items));
  }

  lemma {:induction false} ShortArrayBody(show: Show, w: nat, n: nat, body: seq<Byte>)
    requires w != 1 && LengthFits(w, 16, n) && UnpackItems(show, body, n) == Err(EndOfStream)
    ensures Unpack(show, ArrHeader(w, n) + body) == Err(EndOfStream)
  {
    if w == 0 {
      ArrFails(show, 0, 0x90 + n, body, n, body, EndOfStream);
      Dispatched(show, ArrHeader(w, n) + body, FArr(0), 0x90 + n, body);
    } else {
      NestedTypes(w);
      Assoc([ArrType(w)], BigEndian(n, w), body);
      LengthBack(ArrType(w), 16, w, n, body);
      ArrFails(show, w, ArrType(w), BigEndian(n, w) + body, n, body, EndOfStream);
      Dispatched(show, ArrHeader(w, n) + body, FArr(w), ArrType(w), BigEndian(n, w) + body);
    }
  }

  // ----- extensions -----

  /** How an extension is read, whatever its length says: unknown types throw, vectors take the
      floats of their type, and function references what there is up to the length. */
  lemma {:induction false} ExtensionRead(kind: Byte, s: seq<Byte>, n: int)
    ensures UnpackExt([], n) == Err(EndOfStream)
    ensures kind !in [10, 11, 20, 21, 22, 23] <==> UnpackExt([kind] + s, n) == Err(BadExtension)
    ensures kind in [20, 21, 22, 23] ==>
      var bytes := if kind == 20 then 8 else if kind == 21 then 12 else 16;
      UnpackExt([kind] + s, n) ==
        if |s| < bytes then Err(EndOfStream) else Ok(Vec(kind, Floats(s[..bytes], bytes / 4)), s[bytes..])
    ensures kind in [10, 11] ==>
      UnpackExt([kind] + s, n) ==
        if n < 0 then Err(NegativeLength)
        else if n <= |s| then Ok(FuncRef(kind, s[..n]), s[n..]) else Ok(FuncRef(kind, s), [])
  {
    HeadTail(kind, s);
    if kind in [20, 21, 22, 23] {
      SinglesRead(s, Parts(kind));
    }
  }

  lemma {:induction false} SinglesRead(s: seq<Byte>, n: nat)
    ensures ReadSingles(s, n) == if |s| < 4 * n then Err(EndOfStream) else Ok(Floats(s[..4 * n], n), s[4 * n..])
  {
    if |s| >= 4 * n {
      SinglesBack(s[..4 * n], n, s[4 * n..]);
      assert s[..4 * n] + s[4 * n..] == s;
    } else if |s| >= 4 {
      SinglesRead(s[4..], n - 1);
    }
  }

  // ----- the formats byte by byte -----

  lemma {:induction false} BigEndianBytes(a: Byte, b: Byte, c: Byte, d: Byte)
    ensures BigEndian(a, 1) == [a] && BigEndian(256 * a + b, 2) == [a, b]
    ensures BigEndian(0x100_0000 * a + 0x1_0000 * b + 0x100 * c + d, 4) == [a, b, c, d]
  {
    TwoBytes(a, b);
    var n := 0x100_0000 * a + 0x1_0000 * b + 0x100 * c + d;
    assert n % 256 == d && n / 256 == 0x1_0000 * a + 0x100 * b + c;
    var m := n / 256;
    assert m % 256 == c && m / 256 == 256 * a + b;
    assert BigEndian(m, 3) == BigEndian(m / 256, 2) + [c];
    assert BigEndian(n, 4) == BigEndian(m, 3) + [d];
  }

  lemma {:induction false} TwoBytes(a: Byte, b: Byte)
    ensures BigEndian(a, 1) == [a] && BigEndian(256 * a + b, 2) == [a, b]
  {
    assert a % 256 == a && BigEndian(a / 256, 0) == [];
    assert BigEndian(a, 1) == [] + [a];
    assert (256 * a + b) % 256 == b && (256 * a + b) / 256 == a;
    assert BigEndian(256 * a + b, 2) == BigEndian(a, 1) + [b];
  }

  lemma {:induction false} FixNumberKnown(show: Show, a: Byte, s: seq<Byte>)
    ensures a < 0x80 ==> Unpack(show, [a] + s) == Ok(Int(a), s)
    ensures a >= 0xE0 ==> Unpack(show, [a] + s) == Ok(Int(a - 256), s)
  {
    Dispatched(show, [a] + s, GetUnpacker(a), a, s);
  }

  lemma {:induction false} EmptyKnown(show: Show, s: seq<Byte>)
    ensures Unpack(show, [0x90] + s) == Ok(Arr([]), s)
    ensures Unpack(show, [0x80] + s) == Ok(Map([]), s)
  {
    Dispatched(show, [0x90] + s, FArr(0), 0x90, s);
    Dispatched(show, [0x80] + s, FMap(0), 0x80, s);
  }

  /** Known answers for the formats of one byte. */
  lemma {:induction false} OneByteKnown(show: Show, a: Byte, s: seq<Byte>)
    ensures a < 0x80 ==> Unpack(show, [a] + s) == Ok(Int(a), s)
    ensures a >= 0xE0 ==> Unpack(show, [a] + s) == Ok(Int(a - 256), s)
    ensures Unpack(show, [0xC0] + s) == Ok(Nil, s)
    ensures Unpack(show, [0xC2] + s) == Ok(Bool(false), s)
    ensures Unpack(show, [0xC3] + s) == Ok(Bool(true), s)
    ensures Unpack(show, [0x90] + s) == Ok(Arr([]), s)
    ensures Unpack(show, [0x80] + s) == Ok(Map([]), s)
  {
    FixNumberKnown(show, a, s);
    Dispatched(show, [0xC0] + s, FNil, 0xC0, s);
    Dispatched(show, [0xC2] + s, FFalse, 0xC2, s);
    Dispatched(show, [0xC3] + s, FTrue, 0xC3, s);
    EmptyKnown(show, s);
  }

  lemma {:induction false} UIntKnown(show: Show, t: Byte, n: nat, w: nat, s: seq<Byte>)
    requires GetUnpacker(t) == FUInt(w) && Legal(EUInt(w, n))
    ensures Unpack(show, [t] + (BigEndian(n, w) + s)) == Ok(Int(n), s)
  {
    UIntBody(show, w, n, t, s);
    Dispatched(show, [t] + (BigEndian(n, w) + s), FUInt(w), t, BigEndian(n, w) + s);
  }

  lemma {:induction false} IntKnown(show: Show, t: Byte, n: nat, w: nat, s: seq<Byte>)
    requires GetUnpacker(t) == FInt(w) && n < Pow256(w)
    ensures Unpack(show, [t] + (BigEndian(n, w) + s)) == Ok(Int(if 2 * n < Pow256(w) then n else n - Pow256(w)), s)
  {
    NumberBack(n, w, s);
    Dispatched(show, [t] + (BigEndian(n, w) + s), FInt(w), t, BigEndian(n, w) + s);
  }

  lemma {:induction false} SingleKnown(show: Show, n: nat, s: seq<Byte>)
    requires n < Pow256(4)
    ensures Unpack(show, [0xCA] + (BigEndian(n, 4) + s)) == Ok(Single(n), s)
  {
    NumberBack(n, 4, s);
    Dispatched(show, [0xCA] + (BigEndian(n, 4) + s), FSingle, 0xCA, BigEndian(n, 4) + s);
  }

  /** And for those with a number, most significant byte first: of one byte, */
  lemma {:induction false} BytesKnown(show: Show, a: Byte, s: seq<Byte>)
    ensures Unpack(show, [0xCC] + ([a] + s)) == Ok(Int(a), s)
    ensures Unpack(show, [0xD0] + ([a] + s)) == Ok(Int(if a < 128 then a else a - 256), s)
  {
    Pow256Values();
    TwoBytes(a, 0);
    UIntKnown(show, 0xCC, a, 1, s);
    IntKnown(show, 0xD0, a, 1, s);
  }

  /** of two bytes, */
  lemma {:induction false} WordsKnown(show: Show, a: Byte, b: Byte, s: seq<Byte>)
    ensures Unpack(show, [0xCD] + ([a, b] + s)) == Ok(Int(256 * a + b), s)
    ensures Unpack(show, [0xD1] + ([a, b] + s)) == Ok(Int(if a < 128 then 256 * a + b else 256 * a + b - 0x1_0000), s)
  {
    Pow256Values();
    TwoBytes(a, b);
    UIntKnown(show, 0xCD, 256 * a + b, 2, s);
    IntKnown(show, 0xD1, 256 * a + b, 2, s);
  }

  /** and of four, as an unsigned number, a signed one and the bits of a float. */
  lemma {:induction false} DoubleWordsKnown(show: Show, a: Byte, b: Byte, c: Byte, d: Byte, s: seq<Byte>)
    ensures var n := 0x100_0000 * a + 0x1_0000 * b + 0x100 * c + d;
      && Unpack(show, [0xCE] + ([a, b, c, d] + s)) == Ok(Int(n), s)
      && Unpack(show, [0xD2] + ([a, b, c, d] + s)) == Ok(Int(if a < 128 then n else n - 0x1_0000_0000), s)
      && Unpack(show, [0xCA] + ([a, b, c, d] + s)) == Ok(Single(n), s)
  {
    Pow256Values();
    BigEndianBytes(a, b, c, d);
    var n := 0x100_0000 * a + 0x1_0000 * b + 0x100 * c + d;
    FourKnown(show, n, a, [a, b, c, d], s);
  }

  lemma {:induction false} FourKnown(show: Show, n: nat, a: Byte, bytes: seq<Byte>, s: seq<Byte>)
    requires n < Pow256(4) == 0x1_0000_0000 && bytes == BigEndian(n, 4) && (a < 128 <==> 2 * n < 0x1_0000_0000)
    ensures Unpack(show, [0xCE] + (bytes + s)) == Ok(Int(n), s)
    ensures Unpack(show, [0xD2] + (bytes + s)) == Ok(Int(if a < 128 then n else n - 0x1_0000_0000), s)
    ensures Unpack(show, [0xCA] + (bytes + s)) == Ok(Single(n), s)
  {
    UIntKnown(show, 0xCE, n, 4, s);
    IntKnown(show, 0xD2, n, 4, s);
    SingleKnown(show, n, s);
  }

  /** And for those with a length and contents. */
  lemma {:induction false} BlobsKnown(show: Show, bytes: seq<Byte>, s: seq<Byte>)
    requires |bytes| < 32
    ensures Unpack(show, [0xA0 + |bytes|] + (bytes + s)) == Ok(Str(bytes), s)
    ensures Unpack(show, [0xD9] + ([|bytes|] + (bytes + s))) == Ok(Str(bytes), s)
    ensures Unpack(show, [0xC4] + ([|bytes|] + (bytes + s))) == Ok(Bin(bytes), s)
    ensures Unpack(show, [0xC7] + ([|bytes|] + ([10] + (bytes + s)))) == Ok(FuncRef(10, bytes), s)
  {
    FixStrKnown(show, bytes, s);
    TwoBytes(|bytes|, 0);
    BlobKnown(show, 0xD9, FStr(1), bytes, s);
    BlobKnown(show, 0xC4, FBin(1), bytes, s);
    FuncRefKnown(show, bytes, s);
  }

  lemma {:induction false} FixStrKnown(show: Show, bytes: seq<Byte>, s: seq<Byte>)
    requires |bytes| < 32
    ensures Unpack(show, [0xA0 + |bytes|] + (bytes + s)) == Ok(Str(bytes), s)
  {
    BytesBack(bytes, s);
    Dispatched(show, [0xA0 + |bytes|] + (bytes + s), FStr(0), 0xA0 + |bytes|, bytes + s);
  }

  lemma {:induction false} BlobKnown(show: Show, t: Byte, f: Format, bytes: seq<Byte>, s: seq<Byte>)
    requires |bytes| < 32 && GetUnpacker(t) == f && (f == FStr(1) || f == FBin(1))
    ensures Unpack(show, [t] + (BigEndian(|bytes|, 1) + (bytes + s))) == Ok(if f.FStr? then Str(bytes) else Bin(bytes), s)
  {
    BlobBack(t, 1, bytes, s, f.FStr?);
    Dispatched(show, [t] + (BigEndian(|bytes|, 1) + (bytes + s)), f, t, BigEndian(|bytes|, 1) + (bytes + s));
  }

  lemma {:induction false} FuncRefKnown(show: Show, bytes: seq<Byte>, s: seq<Byte>)
    requires |bytes| < 32
    ensures Unpack(show, [0xC7] + (BigEndian(|bytes|, 1) + ([10] + (bytes + s)))) == Ok(FuncRef(10, bytes), s)
  {
    var body := BigEndian(|bytes|, 1) + ([10] + (bytes + s));
    ExtensionBody(show, 1, 10, bytes, 0xC7, s);
    Dispatched(show, [0xC7] + body, FExt(1), 0xC7, body);
  }
}
