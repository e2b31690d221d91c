/** Base64 (section 4 of RFC 4648) as the shared library codes it: whole groups with zero octets,
    then padding written over the end; and a decoding table with entries for the alphabet only. */
module Base64 {
  import opened Options
  import opened MachineWords

  type Sextet = n: int | 0 <= n < 64

  const PAD: char := '='

  /** `encoding_table`. */
  function Symbol(n: Sextet): char {
    if n < 26 then ('A' as int + n) as char
    else if n < 52 then ('a' as int + n - 26) as char
    else if n < 62 then ('0' as int + n - 52) as char
    else if n == 62 then '+'
    else '/'
  }

  predicate IsSymbol(c: char) {
    'A' <= c <= 'Z' || 'a' <= c <= 'z' || '0' <= c <= '9' || c == '+' || c == '/'
  }

  function Number(c: char): Sextet
    requires IsSymbol(c)
  {
    if 'A' <= c <= 'Z' then c as int - 'A' as int
    else if 'a' <= c <= 'z' then c as int - 'a' as int + 26
    else if '0' <= c <= '9' then c as int - '0' as int + 52
    else if c == '+' then 62
    else 63
  }

  /** The alphabet of section 4 of RFC 4648: three runs of consecutive characters and two more. */
  lemma {:induction false} Alphabet(n: Sextet)
    ensures Symbol(0) == 'A' && Symbol(25) == 'Z' && Symbol(26) == 'a' && Symbol(51) == 'z'
    ensures Symbol(52) == '0' && Symbol(61) == '9' && Symbol(62) == '+' && Symbol(63) == '/'
    ensures n < 61 && n != 25 && n != 51 ==> Symbol(n + 1) as int == Symbol(n) as int + 1
  {
  }

  lemma {:induction false} SymbolNumber(n: Sextet, c: char)
    ensures IsSymbol(Symbol(n)) && Number(Symbol(n)) == n && Symbol(n) != PAD
    ensures IsSymbol(c) ==> Symbol(Number(c)) == c
  {
  }

  /** The table has exactly the alphabet and gives each symbol's number. */
  ghost predicate IsTable(table: map<char, int>) {
    (forall c :: c in table <==> IsSymbol(c)) && forall c :: IsSymbol(c) ==> table[c] == Number(c)
  }

  /** `build_decoding_table`: a reverse table with 64 entries. */
  method BuildDecodingTable() returns (table: map<char, int>)
    ensures IsTable(table)
  {
    table := map[];
    for i := 0 to 64
      invariant forall c :: c in table <==> IsSymbol(c) && Number(c) < i
      invariant forall c :: c in table ==> table[c] == Number(c)
    {
      SymbolNumber(i, Symbol(i));
      forall c | IsSymbol(c) && Number(c) == i ensures c == Symbol(i) { SymbolNumber(i, c); }
      table := table[Symbol(i) := i];
    }
  }

  // ----- arithmetic of groups -----

  lemma {:induction false} Multiple(d: int, k: int)
    requires d > 0
    ensures k >= 1 ==> d * k >= d
    ensures k <= -1 ==> d * k <= -d
  {
    if k >= 1 { assert d * (k - 1) >= 0; }
    if k <= -1 { assert d * (-k - 1) >= 0; }
  }

  lemma {:induction false} DivBy(t: int, q: int, r: int, d: int)
    requires 0 <= r < d && t == q * d + r
    ensures t / d == q && t % d == r
  {
    var k := t / d - q;
    assert d * k == r - t % d;
    Multiple(d, k);
  }

  lemma {:induction false} Sextets(n0: int, n1: int, n2: int, n3: int)
    requires 0 <= n0 < 64 && 0 <= n1 < 64 && 0 <= n2 < 64 && 0 <= n3 < 64
    ensures var t := n0 * 0x4_0000 + n1 * 0x1000 + n2 * 0x40 + n3;
      t / 0x4_0000 % 64 == n0 && t / 0x1000 % 64 == n1 && t / 0x40 % 64 == n2 && t % 64 == n3
  {
    var t := n0 * 0x4_0000 + n1 * 0x1000 + n2 * 0x40 + n3;
    DivBy(t, n0, n1 * 0x1000 + n2 * 0x40 + n3, 0x4_0000);
    DivBy(t, n0 * 64 + n1, n2 * 0x40 + n3, 0x1000);
    DivBy(t, n0 * 4096 + n1 * 64 + n2, n3, 0x40);
    DivBy(n0 * 64 + n1, n0, n1, 64);
    DivBy(n0 * 4096 + n1 * 64 + n2, n0 * 64 + n1, n2, 64);
  }

  lemma {:induction false} Octets(a: int, b: int, c: int)
    requires 0 <= a < 256 && 0 <= b < 256 && 0 <= c < 256
    ensures var t := a * 0x1_0000 + b * 0x100 + c;
      t / 0x1_0000 % 256 == a && t / 0x100 % 256 == b && t % 256 == c
  {
    var t := a * 0x1_0000 + b * 0x100 + c;
    DivBy(t, a, b * 0x100 + c, 0x1_0000);
    DivBy(t, a * 256 + b, c, 0x100);
    DivBy(a * 256 + b, a, b, 256);
  }

  // ----- groups -----

  /** The four symbols of three octets: their 24 bits, six at a time. */
  function EncodeGroup(a: Byte, b: Byte, c: Byte): (r: string)
    ensures |r| == 4
  {
    [Symbol(a / 4), Symbol(a % 4 * 16 + b / 16), Symbol(b % 16 * 4 + c / 64), Symbol(c % 64)]
  }

  /** How many groups of three octets a length makes, and how many octets the last one lacks. */
  function Groups(n: nat): nat {
    if n == 0 then 0 else if n <= 3 then 1 else 1 + Groups(n - 3)
  }

  function Missing(n: nat): (r: nat)
    ensures r <= 3
  {
    if n <= 3 then 3 - n else Missing(n - 3)
  }

  lemma {:induction false} GroupCount(n: nat)
    ensures n > 0 ==> Groups(n) > 0 && Missing(n) < 3 && 3 * Groups(n) == n + Missing(n)
  {
    if n > 3 { GroupCount(n - 3); }
  }

  lemma {:induction false} GroupsByDivision(n: nat)
    ensures Groups(n) == (n + 2) / 3
  {
    GroupCount(n);
    if n > 0 { DivBy(n + 2, Groups(n), 2 - Missing(n), 3); }
  }

  /** The encoding, group by group, with the padding in place. */
  function Encoded(data: seq<Byte>): (r: string)
    ensures |r| == 4 * Groups(|data|)
  {
    if data == [] then ""
    else if |data| == 1 then EncodeGroup(data[0], 0, 0)[..2] + [PAD, PAD]
    else if |data| == 2 then EncodeGroup(data[0], data[1], 0)[..3] + [PAD]
    else EncodeGroup(data[0], data[1], data[2]) + Encoded(data[3..])
  }

  /** What the table holds for a character: nothing was ever written outside the alphabet. */
  function Lookup(junk: char -> int, c: char): int {
    if c == PAD then 0 else if IsSymbol(c) then Number(c) else junk(c)
  }

  function DecodeGroup(junk: char -> int, g: string): (r: seq<Byte>)
    requires |g| == 4
    ensures |r| == 3
  {
    var t := Lookup(junk, g[0]) * 0x4_0000 + Lookup(junk, g[1]) * 0x1000 + Lookup(junk, g[2]) * 0x40 + Lookup(junk, g[3]);
    [t / 0x1_0000 % 256, t / 0x100 % 256, t % 256]
  }

  function DecodeGroups(junk: char -> int, s: string, n: nat): (r: seq<Byte>)
    requires |s| == 4 * n
    ensures |r| == 3 * n
    decreases n
  {
    if n == 0 then [] else DecodeGroup(junk, s[..4]) + DecodeGroups(junk, s[4..], n - 1)
  }

  function Padding(s: string): nat
    requires |s| >= 2
  {
    (if s[|s| - 1] == PAD then 1 else 0) + (if s[|s| - 2] == PAD then 1 else 0)
  }

  /** The original returns NULL if the length is not a multiple of four, and looks for padding
      before the start of an empty text. */
  datatype Decoding = BadLength | OutOfBounds | Bytes(value: seq<Byte>)

  function Decoded(junk: char -> int, s: string): Decoding {
    if |s| % 4 != 0 then BadLength
    else if s == [] then OutOfBounds
    else Bytes(DecodeGroups(junk, s, |s| / 4)[..|s| / 4 * 3 - Padding(s)])
  }

  // ----- decoding an encoding -----

  /** The 24 bits of three octets are those of four sextets. */
  lemma {:induction false} SameBits(a: int, b: int, c: int)
    requires 0 <= a < 256 && 0 <= b < 256 && 0 <= c < 256
    ensures a * 0x1_0000 + b * 0x100 + c
      == (a / 4) * 0x4_0000 + (a % 4 * 16 + b / 16) * 0x1000 + (b % 16 * 4 + c / 64) * 0x40 + c % 64
  {
    assert a == a / 4 * 4 + a % 4 && b == b / 16 * 16 + b % 16 && c == c / 64 * 64 + c % 64;
  }

  lemma {:induction false} GroupInverse(junk: char -> int, a: Byte, b: Byte, c: Byte)
    ensures DecodeGroup(junk, EncodeGroup(a, b, c)) == [a, b, c]
  {
    SymbolNumber(a / 4, PAD);
    SymbolNumber(a % 4 * 16 + b / 16, PAD);
    SymbolNumber(b % 16 * 4 + c / 64, PAD);
    SymbolNumber(c % 64, PAD);
    SameBits(a, b, c);
    Octets(a, b, c);
  }

  /** A padding character counts like the symbol of zero. */
  lemma {:induction false} PaddedGroup(junk: char -> int, g: string, h: string)
    requires |g| == |h| == 4 && forall i :: 0 <= i < 4 ==> Lookup(junk, g[i]) == Lookup(junk, h[i])
    ensures DecodeGroup(junk, g) == DecodeGroup(junk, h)
  {
  }

  lemma {:induction false} ZeroOctet(a: Byte, b: Byte)
    ensures EncodeGroup(a, b, 0)[2] == Symbol(b % 16 * 4) && EncodeGroup(a, b, 0)[3] == 'A'
  {
  }

  lemma {:induction false} TwoZeroOctets(a: Byte)
    ensures EncodeGroup(a, 0, 0)[1] == Symbol(a % 4 * 16) && EncodeGroup(a, 0, 0)[2] == EncodeGroup(a, 0, 0)[3] == 'A'
  {
  }

  /** The last group, of one or two octets. */
  lemma {:induction false} ShortGroups(junk: char -> int, a: Byte, b: Byte)
    ensures DecodeGroup(junk, EncodeGroup(a, 0, 0)[..2] + [PAD, PAD]) == [a, 0, 0]
    ensures DecodeGroup(junk, EncodeGroup(a, b, 0)[..3] + [PAD]) == [a, b, 0]
  {
    ZeroOctet(a, b);
    TwoZeroOctets(a);
    GroupInverse(junk, a, 0, 0);
    GroupInverse(junk, a, b, 0);
    PaddedGroup(junk, EncodeGroup(a, 0, 0)[..2] + [PAD, PAD], EncodeGroup(a, 0, 0));
    PaddedGroup(junk, EncodeGroup(a, b, 0)[..3] + [PAD], EncodeGroup(a, b, 0));
  }

  lemma {:induction false} EncodedPadding(data: seq<Byte>)
    requires data != []
    ensures Padding(Encoded(data)) == Missing(|data|)
    decreases |data|
  {
    if |data| > 3 {
      var rest := Encoded(data[3..]);
      EncodedPadding(data[3..]);
      assert Encoded(data) == EncodeGroup(data[0], data[1], data[2]) + rest;
      PaddingOfTail(EncodeGroup(data[0], data[1], data[2]), rest);
    }
  }

  lemma {:induction false} PaddingOfTail(g: string, rest: string)
    requires |rest| >= 2
    ensures Padding(g + rest) == Padding(rest)
  {
  }

  lemma {:induction false} DecodeSplit(junk: char -> int, g: string, rest: string, n: nat)
    requires |g| == 4 && |rest| == 4 * n
    ensures DecodeGroups(junk, g + rest, n + 1) == DecodeGroup(junk, g) + DecodeGroups(junk, rest, n)
  {
    assert (g + rest)[..4] == g && (g + rest)[4..] == rest;
  }

  lemma {:induction false} ShortBack(junk: char -> int, data: seq<Byte>)
    requires 1 <= |data| <= 2
    ensures data <= DecodeGroups(junk, Encoded(data), 1)
  {
    var b: Byte := if |data| == 1 then 0 else data[1];
    ShortGroups(junk, data[0], b);
    DecodeSplit(junk, Encoded(data), "", 0);
    assert Encoded(data) + "" == Encoded(data);
  }

  lemma {:induction false} LongerBack(junk: char -> int, a: Byte, b: Byte, c: Byte, rest: string, n: nat, tail: seq<Byte>)
    requires |rest| == 4 * n && tail <= DecodeGroups(junk, rest, n)
    ensures [a, b, c] + tail <= DecodeGroups(junk, EncodeGroup(a, b, c) + rest, n + 1)
  {
    GroupInverse(junk, a, b, c);
    DecodeSplit(junk, EncodeGroup(a, b, c), rest, n);
  }

  lemma {:induction false} EncodedLonger(data: seq<Byte>)
    requires |data| >= 3
    ensures Encoded(data) == EncodeGroup(data[0], data[1], data[2]) + Encoded(data[3..])
    ensures Groups(|data|) == Groups(|data| - 3) + 1 && data == [data[0], data[1], data[2]] + data[3..]
  {
  }

  lemma {:induction false} EncodedBack(junk: char -> int, data: seq<Byte>)
    ensures data <= DecodeGroups(junk, Encoded(data), Groups(|data|))
    decreases |data|
  {
    if 1 <= |data| <= 2 {
      ShortBack(junk, data);
    } else if |data| >= 3 {
      EncodedBack(junk, data[3..]);
      EncodedLonger(data);
      LongerBack(junk, data[0], data[1], data[2], Encoded(data[3..]), Groups(|data| - 3), data[3..]);
    }
  }

  lemma {:induction false} DecodedBy(junk: char -> int, s: string, n: nat, data: seq<Byte>)
    requires n > 0 && |s| == 4 * n && |data| + Padding(s) == 3 * n && data <= DecodeGroups(junk, s, n)
    ensures Decoded(junk, s) == Bytes(data)
  {
    assert |s| % 4 == 0 && |s| / 4 == n;
    assert DecodeGroups(junk, s, n)[..|data|] == data;
  }

  lemma {:induction false} EncodedLength(data: seq<Byte>)
    ensures |Encoded(data)| == 4 * ((|data| + 2) / 3)
  {
    GroupsByDivision(|data|);
  }

  /** Every non-empty byte string comes back, from a text of the expected length. */
  lemma {:induction false} DecodeUndoesEncode(junk: char -> int, data: seq<Byte>)
    requires data != []
    ensures |Encoded(data)| == 4 * ((|data| + 2) / 3)
    ensures Decoded(junk, Encoded(data)) == Bytes(data)
  {
    EncodedLength(data);
    var s, n := Encoded(data), Groups(|data|);
    assert |data| + Padding(s) == 3 * n && n > 0 by {
      GroupCount(|data|);
      EncodedPadding(data);
    }
    EncodedBack(junk, data);
    DecodedBy(junk, s, n, data);
  }

  // ----- encoding a decoding -----

  /** The last group of a canonical text: unused bits are zero (section 3.5 of RFC 4648). */
  predicate LastGroup(g: string)
    requires |g| == 4
  {
    && IsSymbol(g[0]) && IsSymbol(g[1])
    && if g[3] != PAD then IsSymbol(g[2]) && IsSymbol(g[3])
       else if g[2] != PAD then IsSymbol(g[2]) && Number(g[2]) % 4 == 0
       else Number(g[1]) % 16 == 0
  }

  predicate Canonical(s: string) {
    && s != [] && |s| % 4 == 0
    && if |s| == 4 then LastGroup(s)
       else IsSymbol(s[0]) && IsSymbol(s[1]) && IsSymbol(s[2]) && IsSymbol(s[3]) && Canonical(s[4..])
  }

  /** The octets of four sextets. */
  lemma {:induction false} OctetsOf(n0: int, n1: int, n2: int, n3: int)
    requires 0 <= n0 < 64 && 0 <= n1 < 64 && 0 <= n2 < 64 && 0 <= n3 < 64
    ensures var t := n0 * 0x4_0000 + n1 * 0x1000 + n2 * 0x40 + n3;
      && t / 0x1_0000 % 256 == n0 * 4 + n1 / 16
      && t / 0x100 % 256 == n1 % 16 * 16 + n2 / 4
      && t % 256 == n2 % 4 * 64 + n3
  {
    assert n1 == n1 / 16 * 16 + n1 % 16 && n2 == n2 / 4 * 4 + n2 % 4;
    Octets(n0 * 4 + n1 / 16, n1 % 16 * 16 + n2 / 4, n2 % 4 * 64 + n3);
  }

  /** Taking four sextets apart again. */
  lemma {:induction false} Regroup(n0: int, n1: int, n2: int, n3: int)
    requires 0 <= n0 < 64 && 0 <= n1 < 64 && 0 <= n2 < 64 && 0 <= n3 < 64
    ensures var a, b, c := n0 * 4 + n1 / 16, n1 % 16 * 16 + n2 / 4, n2 % 4 * 64 + n3;
      && 0 <= a < 256 && 0 <= b < 256 && 0 <= c < 256
      && a / 4 == n0 && a % 4 * 16 + b / 16 == n1 && b % 16 * 4 + c / 64 == n2 && c % 64 == n3
  {
    DivBy(n0 * 4 + n1 / 16, n0, n1 / 16, 4);
    DivBy(n1 % 16 * 16 + n2 / 4, n1 % 16, n2 / 4, 16);
    DivBy(n2 % 4 * 64 + n3, n2 % 4, n3, 64);
  }

  lemma {:induction false} NumbersBack(junk: char -> int, g: string, n0: Sextet, n1: Sextet, n2: Sextet, n3: Sextet)
    requires |g| == 4 && Lookup(junk, g[0]) == n0 && Lookup(junk, g[1]) == n1 && Lookup(junk, g[2]) == n2 && Lookup(junk, g[3]) == n3
    ensures var o := DecodeGroup(junk, g); EncodeGroup(o[0], o[1], o[2]) == [Symbol(n0), Symbol(n1), Symbol(n2), Symbol(n3)]
  {
    Regroup(n0, n1, n2, n3);
    var a: Byte, b: Byte, c: Byte := n0 * 4 + n1 / 16, n1 % 16 * 16 + n2 / 4, n2 % 4 * 64 + n3;
    DecodedAs(junk, g, n0, n1, n2, n3, a, b, c);
    EncodedAs(n0, n1, n2, n3, a, b, c);
  }

  lemma {:induction false} DecodedAs(junk: char -> int, g: string, n0: int, n1: int, n2: int, n3: int, a: Byte, b: Byte, c: Byte)
    requires 0 <= n0 < 64 && 0 <= n1 < 64 && 0 <= n2 < 64 && 0 <= n3 < 64
    requires |g| == 4 && Lookup(junk, g[0]) == n0 && Lookup(junk, g[1]) == n1 && Lookup(junk, g[2]) == n2 && Lookup(junk, g[3]) == n3
    requires a == n0 * 4 + n1 / 16 && b == n1 % 16 * 16 + n2 / 4 && c == n2 % 4 * 64 + n3
    ensures DecodeGroup(junk, g) == [a, b, c]
  {
    OctetsOf(n0, n1, n2, n3);
  }

  lemma {:induction false} EncodedAs(n0: Sextet, n1: Sextet, n2: Sextet, n3: Sextet, a: Byte, b: Byte, c: Byte)
    requires a == n0 * 4 + n1 / 16 && b == n1 % 16 * 16 + n2 / 4 && c == n2 % 4 * 64 + n3
    ensures EncodeGroup(a, b, c) == [Symbol(n0), Symbol(n1), Symbol(n2), Symbol(n3)]
  {
    Regroup(n0, n1, n2, n3);
  }

  /** The text `e` repeats every character of `g` but the padding. */
  predicate SameSymbols(e: string, g: string)
    requires |e| == |g| == 4
  {
    forall i :: 0 <= i < 4 && g[i] != PAD ==> e[i] == g[i]
  }

  predicate SymbolsOrPads(g: string) {
    && |g| == 4 && IsSymbol(g[0]) && IsSymbol(g[1])
    && (IsSymbol(g[2]) || g[2] == PAD) && (IsSymbol(g[3]) || g[3] == PAD)
  }

  lemma {:induction false} LookupBack(junk: char -> int, c: char)
    requires IsSymbol(c) || c == PAD
    ensures 0 <= Lookup(junk, c) < 64
    ensures c != PAD ==> Symbol(Lookup(junk, c)) == c
  {
    SymbolNumber(0, c);
  }

  lemma {:induction false} LookupsBack(junk: char -> int, g: string)
    requires SymbolsOrPads(g)
    ensures forall i :: 0 <= i < 4 ==> 0 <= Lookup(junk, g[i]) < 64 && (g[i] != PAD ==> Symbol(Lookup(junk, g[i])) == g[i])
  {
    forall i | 0 <= i < 4
      ensures 0 <= Lookup(junk, g[i]) < 64 && (g[i] != PAD ==> Symbol(Lookup(junk, g[i])) == g[i])
    {
      LookupBack(junk, g[i]);
    }
  }

  lemma {:induction false} SymbolsInverse(junk: char -> int, g: string)
    requires SymbolsOrPads(g)
    ensures var o := DecodeGroup(junk, g); SameSymbols(EncodeGroup(o[0], o[1], o[2]), g)
  {
    LookupsBack(junk, g);
    NumbersBack(junk, g, Lookup(junk, g[0]), Lookup(junk, g[1]), Lookup(junk, g[2]), Lookup(junk, g[3]));
  }

  /** Canonical padding means zero octets. */
  lemma {:induction false} PaddedOctets(junk: char -> int, g: string)
    requires |g| == 4 && LastGroup(g)
    ensures g[3] == PAD ==> DecodeGroup(junk, g)[2] == 0
    ensures g[2] == PAD && g[3] == PAD ==> DecodeGroup(junk, g)[1] == 0
  {
    var n0: int, n1: int := Number(g[0]), Number(g[1]);
    if g[3] == PAD && g[2] != PAD {
      var n2: int := Number(g[2]);
      Octets(n0 * 4 + n1 / 16, n1 % 16 * 16 + n2 / 4, 0);
    } else if g[3] == PAD {
      Octets(n0 * 4 + n1 / 16, 0, 0);
    }
  }

  lemma {:induction false} LastGroupInverse(junk: char -> int, g: string)
    requires |g| == 4 && LastGroup(g)
    ensures Encoded(DecodeGroup(junk, g)[..3 - Padding(g)]) == g
  {
    SymbolsInverse(junk, g);
    PaddedOctets(junk, g);
    SymbolNumber(0, PAD);
    var o := DecodeGroup(junk, g);
    LastGroupText(o, g);
  }

  lemma {:induction false} LastGroupText(o: seq<Byte>, g: string)
    requires |o| == 3 && |g| == 4 && LastGroup(g)
    requires g[3] == PAD ==> o[2] == 0
    requires g[2] == PAD && g[3] == PAD ==> o[1] == 0
    requires SameSymbols(EncodeGroup(o[0], o[1], o[2]), g)
    ensures Encoded(o[..3 - Padding(g)]) == g
  {
    var e := EncodeGroup(o[0], o[1], o[2]);
    if g[3] != PAD {
      assert o[..3] == o && o[3..] == [];
      assert e + Encoded([]) == g;
    } else if g[2] != PAD {
      assert o[..2] == [o[0], o[1]];
      assert e[..3] + [PAD] == g;
    } else {
      assert o[..1] == [o[0]];
      assert e[..2] + [PAD, PAD] == g;
    }
  }

  /** The octets of `n` groups, without those that the padding takes away. */
  function Kept(junk: char -> int, s: string, n: nat): seq<Byte>
    requires n > 0 && |s| == 4 * n
  {
    DecodeGroups(junk, s, n)[..3 * n - Padding(s)]
  }

  lemma {:induction false} KeptOne(junk: char -> int, g: string)
    requires |g| == 4
    ensures Kept(junk, g, 1) == DecodeGroup(junk, g)[..3 - Padding(g)]
  {
    DecodeSplit(junk, g, "", 0);
    assert g + "" == g;
  }

  lemma {:induction false} KeptLonger(junk: char -> int, g: string, rest: string, n: nat)
    requires n > 0 && |g| == 4 && |rest| == 4 * n
    ensures Kept(junk, g + rest, n + 1) == DecodeGroup(junk, g) + Kept(junk, rest, n)
  {
    DecodeSplit(junk, g, rest, n);
    PaddingOfTail(g, rest);
  }

  lemma {:induction false} KeptBackLonger(junk: char -> int, g: string, rest: string, n: nat)
    requires n > 0 && |g| == 4 && |rest| == 4 * n && SymbolsOrPads(g) && PAD !in g
    requires Encoded(Kept(junk, rest, n)) == rest
    ensures Encoded(Kept(junk, g + rest, n + 1)) == g + rest
  {
    SymbolsInverse(junk, g);
    KeptLonger(junk, g, rest, n);
    EncodeLonger(DecodeGroup(junk, g), Kept(junk, rest, n), g);
  }

  lemma {:induction false} KeptBackOne(junk: char -> int, g: string)
    requires |g| == 4 && LastGroup(g)
    ensures Encoded(Kept(junk, g, 1)) == g
  {
    KeptOne(junk, g);
    LastGroupInverse(junk, g);
  }

  lemma {:induction false} CanonicalParts(s: string, n: nat)
    requires n > 1 && |s| == 4 * n && Canonical(s)
    ensures SymbolsOrPads(s[..4]) && PAD !in s[..4] && Canonical(s[4..]) && s == s[..4] + s[4..]
  {
  }

  lemma {:induction false} KeptBack(junk: char -> int, s: string, n: nat)
    requires n > 0 && |s| == 4 * n && Canonical(s)
    ensures Encoded(Kept(junk, s, n)) == s
  {
    if n == 1 {
      KeptBackOne(junk, s);
    } else {
      CanonicalParts(s, n);
      KeptBack(junk, s[4..], n - 1);
      KeptBackLonger(junk, s[..4], s[4..], n - 1);
    }
  }

  lemma {:induction false} DecodedIsKept(junk: char -> int, s: string, n: nat)
    requires n > 0 && |s| == 4 * n
    ensures Decoded(junk, s) == Bytes(Kept(junk, s, n)) && Kept(junk, s, n) != []
  {
    assert |s| % 4 == 0 && |s| / 4 == n;
  }

  /** Every canonical text is the encoding of what it decodes to. */
  lemma {:induction false} EncodeUndoesDecode(junk: char -> int, s: string)
    requires Canonical(s)
    ensures Decoded(junk, s).Bytes? && Encoded(Decoded(junk, s).value) == s
  {
    DecodedIsKept(junk, s, |s| / 4);
    KeptBack(junk, s, |s| / 4);
  }

  lemma {:induction false} EncodeLonger(o: seq<Byte>, tail: seq<Byte>, g: string)
    requires |o| == 3 && |g| == 4
    requires PAD !in g && SameSymbols(EncodeGroup(o[0], o[1], o[2]), g)
    ensures Encoded(o + tail) == g + Encoded(tail)
  {
    assert (o + tail)[3..] == tail;
    assert EncodeGroup(o[0], o[1], o[2]) == g;
  }

  lemma {:induction false} SymbolsOnly(a: Byte, b: Byte, c: Byte)
    ensures forall i :: 0 <= i < 4 ==> IsSymbol(EncodeGroup(a, b, c)[i])
  {
    SymbolNumber(a / 4, PAD);
    SymbolNumber(a % 4 * 16 + b / 16, PAD);
    SymbolNumber(b % 16 * 4 + c / 64, PAD);
    SymbolNumber(c % 64, PAD);
  }

  /** A group whose last symbols are overwritten, with no bits lost. */
  lemma {:induction false} PaddedCanonical(g: string, n: Sextet)
    requires |g| == 4 && forall i :: 0 <= i < 4 ==> IsSymbol(g[i])
    ensures g[1] == Symbol(n) && n % 16 == 0 ==> LastGroup(g[..2] + [PAD, PAD])
    ensures g[2] == Symbol(n) && n % 4 == 0 ==> LastGroup(g[..3] + [PAD])
  {
    SymbolNumber(n, PAD);
  }

  lemma {:induction false} OneIsCanonical(a: Byte)
    ensures LastGroup(Encoded([a]))
  {
    SymbolsOnly(a, 0, 0);
    TwoZeroOctets(a);
    PaddedCanonical(EncodeGroup(a, 0, 0), a % 4 * 16);
  }

  lemma {:induction false} TwoAreCanonical(a: Byte, b: Byte)
    ensures LastGroup(Encoded([a, b]))
  {
    SymbolsOnly(a, b, 0);
    ZeroOctet(a, b);
    PaddedCanonical(EncodeGroup(a, b, 0), b % 16 * 4);
  }

  lemma {:induction false} ShortIsCanonical(data: seq<Byte>)
    requires 1 <= |data| <= 3
    ensures Canonical(Encoded(data))
  {
    if |data| == 1 {
      assert data == [data[0]];
      OneIsCanonical(data[0]);
    } else if |data| == 2 {
      assert data == [data[0], data[1]];
      TwoAreCanonical(data[0], data[1]);
    } else {
      assert Encoded(data) == EncodeGroup(data[0], data[1], data[2]);
    }
  }

  lemma {:induction false} CanonicalLonger(g: string, rest: string)
    requires |g| == 4 && (forall i :: 0 <= i < 4 ==> IsSymbol(g[i])) && Canonical(rest)
    ensures Canonical(g + rest)
  {
    assert (g + rest)[4..] == rest;
  }

  lemma {:induction false} EncodedIsCanonical(data: seq<Byte>)
    requires data != []
    ensures Canonical(Encoded(data))
    decreases |data|
  {
    if |data| <= 3 {
      ShortIsCanonical(data);
    } else {
      EncodedIsCanonical(data[3..]);
      CanonicalLonger(EncodeGroup(data[0], data[1], data[2]), Encoded(data[3..]));
    }
  }

  /** Encoding undoes decoding exactly on the canonical texts. */
  lemma {:induction false} CanonicalExactly(junk: char -> int, s: string)
    requires s != [] && |s| % 4 == 0
    ensures Encoded(Decoded(junk, s).value) == s <==> Canonical(s)
  {
    if Canonical(s) {
      EncodeUndoesDecode(junk, s);
    } else {
      DecodedIsKept(junk, s, |s| / 4);
      EncodedIsCanonical(Decoded(junk, s).value);
    }
  }

  // ----- the loops -----

  /** What the first loop of `base64_encode` writes: missing octets count as zero. */
  function Unpadded(data: seq<Byte>): (r: string)
    ensures |r| == 4 * Groups(|data|)
  {
    if data == [] then ""
    else if |data| == 1 then EncodeGroup(data[0], 0, 0)
    else if |data| == 2 then EncodeGroup(data[0], data[1], 0)
    else EncodeGroup(data[0], data[1], data[2]) + Unpadded(data[3..])
  }

  function Pads(n: nat): string {
    seq(n, _ => PAD)
  }

  function Overwritten(s: string, m: nat): string
    requires m <= |s|
  {
    s[..|s| - m] + Pads(m)
  }

  lemma {:induction false} OverwrittenShort(data: seq<Byte>)
    requires 1 <= |data| <= 3
    ensures Overwritten(Unpadded(data), 3 - |data|) == Encoded(data)
  {
    var e := EncodeGroup(data[0], if |data| > 1 then data[1] else 0, if |data| > 2 then data[2] else 0);
    assert Unpadded(data) == e;
    if |data| == 3 { assert data[3..] == []; }
  }

  lemma {:induction false} OverwrittenTail(g: string, rest: string, m: nat)
    requires m <= |rest|
    ensures Overwritten(g + rest, m) == g + Overwritten(rest, m)
  {
  }

  lemma {:induction false} OverwrittenIsEncoded(data: seq<Byte>)
    requires data != []
    ensures Overwritten(Unpadded(data), Missing(|data|)) == Encoded(data)
    decreases |data|
  {
    if |data| <= 3 {
      OverwrittenShort(data);
    } else {
      OverwrittenIsEncoded(data[3..]);
      OverwrittenTail(EncodeGroup(data[0], data[1], data[2]), Unpadded(data[3..]), Missing(|data| - 3));
    }
  }

  /** `mod_table[n % 3]` is what the last group lacks. */
  lemma {:induction false} ModTable(n: nat)
    requires n > 0
    ensures Missing(n) == [0, 2, 1][n % 3]
  {
    if n > 3 { ModTable(n - 3); }
  }

  lemma {:induction false} OneMoreGroup(done: string, g: string, rest: string, whole: string)
    requires whole == done + (g + rest)
    ensures whole == (done + g) + rest
  {
  }

  lemma {:induction false} UnpaddedStep(todo: seq<Byte>, a: Byte, b: Byte, c: Byte)
    requires todo != [] && a == todo[0]
    requires b == if |todo| > 1 then todo[1] else 0
    requires c == if |todo| > 2 then todo[2] else 0
    ensures Unpadded(todo) == EncodeGroup(a, b, c) + Unpadded(if |todo| > 3 then todo[3..] else [])
  {
    if |todo| == 3 { assert todo[3..] == []; }
  }

  method FourSymbols(a: Byte, b: Byte, c: Byte) returns (g: string)
    ensures g == EncodeGroup(a, b, c)
  {
    var t := a * 0x1_0000 + b * 0x100 + c;
    SameBits(a, b, c);
    Sextets(a / 4, a % 4 * 16 + b / 16, b % 16 * 4 + c / 64, c % 64);
    g := [Symbol(t / 0x4_0000 % 64), Symbol(t / 0x1000 % 64), Symbol(t / 0x40 % 64), Symbol(t % 64)];
  }

  /** Reads up to three octets from `i` on; the result is where the next group starts. */
  method TakeGroup(data: seq<Byte>, i: nat) returns (g: string, next: nat)
    requires i < |data|
    ensures next == (if i + 3 < |data| then i + 3 else |data|)
    ensures |g| == 4 && Unpadded(data[i..]) == g + Unpadded(data[next..])
  {
    next := i + 1;
    var a, b: Byte, c: Byte := data[i], 0, 0;
    if next < |data| { b := data[next]; next := next + 1; }
    if next < |data| { c := data[next]; next := next + 1; }
    g := FourSymbols(a, b, c);
    ghost var todo := data[i..];
    UnpaddedStep(todo, a, b, c);
    assert data[next..] == if |todo| > 3 then todo[3..] else [];
  }

  method PutGroup(out: array<char>, j: nat, g: string)
    requires |g| == 4 && j + 4 <= out.Length
    modifies out
    ensures out[..j + 4] == old(out[..j]) + g
  {
    out[j], out[j + 1], out[j + 2], out[j + 3] := g[0], g[1], g[2], g[3];
    assert out[j..j + 4] == g && out[..j] == old(out[..j]);
    assert out[..j + 4] == out[..j] + out[j..j + 4];
  }

  /** The first loop of `base64_encode`. */
  method FillGroups(data: seq<Byte>, out: array<char>)
    requires out.Length == |Unpadded(data)|
    modifies out
    ensures out[..] == Unpadded(data)
  {
    var i, j := 0, 0;
    while i < |data|
      invariant 0 <= i <= |data| && 0 <= j && j + |Unpadded(data[i..])| == out.Length
      invariant out[..j] + Unpadded(data[i..]) == Unpadded(data)
    {
      ghost var done := out[..j];
      var g, next := TakeGroup(data, i);
      OneMoreGroup(done, g, Unpadded(data[next..]), Unpadded(data));
      PutGroup(out, j, g);
      i, j := next, j + 4;
    }
    assert data[i..] == [] && out[..j] == out[..];
  }

  method Unpad(data: seq<Byte>) returns (out: array<char>)
    ensures out[..] == Unpadded(data) && fresh(out)
  {
    GroupsByDivision(|data|);
    out := new char[4 * ((|data| + 2) / 3)];
    FillGroups(data, out);
  }

  /** The second loop of `base64_encode`. */
  method Pad(out: array<char>, lacking: nat)
    requires lacking <= out.Length
    modifies out
    ensures out[..] == Overwritten(old(out[..]), lacking)
  {
    ghost var raw := out[..];
    for k := 0 to lacking
      invariant out[..] == Overwritten(raw, k)
    {
      out[out.Length - 1 - k] := PAD;
    }
  }

  lemma {:induction false} Padded(data: seq<Byte>, lacking: nat)
    requires lacking == [0, 2, 1][|data| % 3]
    ensures lacking <= |Unpadded(data)| && Overwritten(Unpadded(data), lacking) == Encoded(data)
  {
    if data != [] {
      ModTable(|data|);
      GroupCount(|data|);
      OverwrittenIsEncoded(data);
    }
  }

  /** `base64_encode`. */
  method Encode(data: seq<Byte>) returns (out: array<char>)
    ensures out[..] == Encoded(data)
  {
    var lacking := [0, 2, 1][|data| % 3];
    Padded(data, lacking);
    out := Unpad(data);
    Pad(out, lacking);
  }

  lemma {:induction false} LaterGroup(a: seq<Byte>, b: seq<Byte>, i: nat)
    requires |a| == 3 && i + 3 <= |b|
    ensures (a + b)[i + 3..i + 6] == b[i..i + 3]
  {
  }

  lemma {:induction false} LaterQuad(s: string, i: nat)
    requires i + 8 <= |s|
    ensures s[4..][i..i + 4] == s[i + 4..i + 8]
  {
  }

  lemma {:induction false} GroupAt(junk: char -> int, s: string, n: nat, k: nat)
    requires |s| == 4 * n && k < n
    ensures DecodeGroups(junk, s, n)[3 * k..3 * k + 3] == DecodeGroup(junk, s[4 * k..4 * k + 4])
  {
    if k > 0 {
      GroupAt(junk, s[4..], n - 1, k - 1);
      LaterGroup(DecodeGroup(junk, s[..4]), DecodeGroups(junk, s[4..], n - 1), 3 * (k - 1));
      LaterQuad(s, 4 * (k - 1));
    }
  }

  /** One character's sextet: padding counts as zero, and the table was only written for the
      alphabet, so elsewhere it holds anything. */
  function Entry(junk: char -> int, table: map<char, int>, c: char): int {
    if c == PAD then 0 else if c in table then table[c] else junk(c)
  }

  /** Reads four characters from `4 * k` on. */
  method TakeQuad(junk: char -> int, table: map<char, int>, s: string, i: nat, ghost n: nat, ghost k: nat)
      returns (x: Byte, y: Byte, z: Byte)
    requires IsTable(table) && |s| == 4 * n && i == 4 * k && k < n
    ensures DecodeGroups(junk, s, n)[3 * k..3 * k + 3] == [x, y, z]
  {
    GroupAt(junk, s, n, k);
    var a, b := Entry(junk, table, s[i]), Entry(junk, table, s[i + 1]);
    var c, d := Entry(junk, table, s[i + 2]), Entry(junk, table, s[i + 3]);
    var t := a * 0x4_0000 + b * 0x1000 + c * 0x40 + d;
    x, y, z := t / 0x1_0000 % 256, t / 0x100 % 256, t % 256;
    ghost var g := s[i..i + 4];
    assert a == Lookup(junk, g[0]) && b == Lookup(junk, g[1]) && c == Lookup(junk, g[2]) && d == Lookup(junk, g[3]);
  }

  /** The next octet, if there is room for it. */
  method PutByte(bytes: array<Byte>, j: nat, x: Byte) returns (j': nat)
    requires j <= bytes.Length
    modifies bytes
    ensures j' == if j < bytes.Length then j + 1 else j
    ensures bytes[..j'] == if j < bytes.Length then old(bytes[..j]) + [x] else old(bytes[..j])
  {
    j' := j;
    if j < bytes.Length {
      bytes[j] := x;
      j' := j + 1;
    }
  }

  lemma {:induction false} NextOctet(all: seq<Byte>, p: nat, q: nat, x: Byte)
    requires p <= q < |all| && all[q] == x
    ensures p == q ==> all[..p] + [x] == all[..p + 1]
  {
  }

  /** The conditional writes stop at the shortened length. */
  method TakeQuads(junk: char -> int, table: map<char, int>, s: string, length: nat, ghost n: nat) returns (bytes: array<Byte>)
    requires IsTable(table) && |s| == 4 * n && length <= 3 * n
    ensures bytes[..] == DecodeGroups(junk, s, n)[..length]
  {
    ghost var all := DecodeGroups(junk, s, n);
    bytes := new Byte[length];
    var i, j := 0, 0;
    ghost var k := 0;
    while i < |s|
      invariant 0 <= k <= n && i == 4 * k && j == if 3 * k <= length then 3 * k else length
      invariant bytes[..j] == all[..j]
    {
      var x, y, z := TakeQuad(junk, table, s, i, n, k);
      ThreeOctets(all, 3 * k, x, y, z);
      NextOctet(all, j, 3 * k, x);
      j := PutByte(bytes, j, x);
      NextOctet(all, j, 3 * k + 1, y);
      j := PutByte(bytes, j, y);
      NextOctet(all, j, 3 * k + 2, z);
      j := PutByte(bytes, j, z);
      i, k := i + 4, k + 1;
    }
    assert bytes[..length] == bytes[..];
  }

  lemma {:induction false} ThreeOctets(all: seq<Byte>, p: nat, x: Byte, y: Byte, z: Byte)
    requires p + 3 <= |all| && all[p..p + 3] == [x, y, z]
    ensures all[p] == x && all[p + 1] == y && all[p + 2] == z
  {
    assert all[p] == all[p..p + 3][0] && all[p + 1] == all[p..p + 3][1] && all[p + 2] == all[p..p + 3][2];
  }

  /** The decoder with its global table, which the first call builds. */
  class Decoder {
    const junk: char -> int
    var decodingTable: Option<map<char, int>>

    ghost predicate Valid()
      reads this
    {
      decodingTable.Some? ==> IsTable(decodingTable.value)
    }

    constructor (junk: char -> int)
      ensures Valid() && this.junk == junk && decodingTable == None
    {
      this.junk := junk;
      decodingTable := None;
    }

    /** `base64_decode`. */
    method Decode(s: string) returns (r: Decoding)
      requires Valid()
      modifies this
      ensures Valid() && decodingTable.Some? && r == Decoded(junk, s)
    {
      if decodingTable.None? {
        var table := BuildDecodingTable();
        decodingTable := Some(table);
      }
      if |s| % 4 != 0 { return BadLength; }
      if s == [] { return OutOfBounds; }
      var length := |s| / 4 * 3;
      if s[|s| - 1] == PAD { length := length - 1; }
      if s[|s| - 2] == PAD { length := length - 1; }
      var bytes := TakeQuads(junk, decodingTable.value, s, length, |s| / 4);
      return Bytes(bytes[..]);
    }
  }
}
