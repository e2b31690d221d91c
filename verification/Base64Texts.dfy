/** Base64 by example and by position: the test vectors of section 10 of RFC 4648, what each octet
    of a decoded text is, and which texts are not decoded. */
module Base64Texts {
  import opened MachineWords
  import opened Base64

  /** The test vectors of RFC 4648: "", "f", "fo", "foo", "foob", "fooba" and "foobar". */
  lemma {:induction false} TestVectors()
    ensures Encoded([]) == ""
    ensures Encoded([102]) == "Zg==" && Encoded([102, 111]) == "Zm8=" && Encoded([102, 111, 111]) == "Zm9v"
    ensures Encoded([102, 111, 111, 98]) == "Zm9vYg==" && Encoded([102, 111, 111, 98, 97]) == "Zm9vYmE="
    ensures Encoded([102, 111, 111, 98, 97, 114]) == "Zm9vYmFy"
  {
    ShortVectors();
    LongVectors();
  }

  lemma {:induction false} LongVectors()
    ensures Encoded([102, 111, 111]) == "Zm9v" && Encoded([102, 111, 111, 98]) == "Zm9vYg=="
    ensures Encoded([102, 111, 111, 98, 97]) == "Zm9vYmE=" && Encoded([102, 111, 111, 98, 97, 114]) == "Zm9vYmFy"
  {
    ShortVectors();
    LongGroups();
    Tail([98, 97, 114], []);
    AfterFoo([], "");
    AfterFoo([98], "Yg==");
    AfterFoo([98, 97], "YmE=");
    AfterFoo([98, 97, 114], "YmFy");
  }

  lemma {:induction false} AfterFoo(rest: seq<Byte>, text: string)
    requires Encoded(rest) == text
    ensures Encoded([102, 111, 111] + rest) == "Zm9v" + text
  {
    LongGroups();
    Tail([102, 111, 111], rest);
  }

  lemma {:induction false} ShortVectors()
    ensures Encoded([]) == "" && Encoded([102]) == "Zg==" && Encoded([102, 111]) == "Zm8="
    ensures Encoded([98]) == "Yg==" && Encoded([98, 97]) == "YmE="
  {
  }

  lemma {:induction false} LongGroups()
    ensures EncodeGroup(102, 111, 111) == "Zm9v" && EncodeGroup(98, 97, 114) == "YmFy"
  {
  }

  lemma {:induction false} Tail(first: seq<Byte>, rest: seq<Byte>)
    requires |first| == 3
    ensures Encoded(first + rest) == EncodeGroup(first[0], first[1], first[2]) + Encoded(rest)
  {
    assert (first + rest)[3..] == rest;
  }

  /** The six bits a character stands for; padding counts as zeros. */
  function SixBits(c: char): Sextet
    requires c == PAD || IsSymbol(c)
  {
    if c == PAD then 0 else Number(c)
  }

  ghost predicate Readable(g: string) {
    forall i :: 0 <= i < |g| ==> g[i] == PAD || IsSymbol(g[i])
  }

  ghost predicate SymbolText(s: string) {
    |s| % 4 == 0 && Readable(s)
  }

  /** The three octets of four sextets. */
  lemma {:induction false} DecodedQuad(junk: char -> int, g: string, n0: Sextet, n1: Sextet, n2: Sextet, n3: Sextet)
    requires |g| == 4 && Lookup(junk, g[0]) == n0 && Lookup(junk, g[1]) == n1 && Lookup(junk, g[2]) == n2 && Lookup(junk, g[3]) == n3
    ensures DecodeGroup(junk, g) == [n0 * 4 + n1 / 16, n1 % 16 * 16 + n2 / 4, n2 % 4 * 64 + n3]
  {
    Regroup(n0, n1, n2, n3);
    DecodedAs(junk, g, n0, n1, n2, n3, n0 * 4 + n1 / 16, n1 % 16 * 16 + n2 / 4, n2 % 4 * 64 + n3);
  }

  /** The group at `k`, from the bits of its characters. */
  lemma {:induction false} DecodedAt(junk: char -> int, s: string, n: nat, k: nat) returns (g: string)
    requires SymbolText(s) && |s| == 4 * n && k < n
    ensures |g| == 4 && g == s[4 * k..4 * k + 4]
    ensures Readable(g)
    ensures DecodeGroups(junk, s, n)[3 * k..3 * k + 3] ==
      [SixBits(g[0]) * 4 + SixBits(g[1]) / 16, SixBits(g[1]) % 16 * 16 + SixBits(g[2]) / 4, SixBits(g[2]) % 4 * 64 + SixBits(g[3])]
  {
    g := s[4 * k..4 * k + 4];
    GroupAt(junk, s, n, k);
    DecodedQuad(junk, g, SixBits(g[0]), SixBits(g[1]), SixBits(g[2]), SixBits(g[3]));
  }

  /** Which texts are decoded, to how many octets, and that these are the bits of the characters
      in their order. */
  lemma {:induction false} DecodedTexts(junk: char -> int, s: string)
    ensures Decoded(junk, s) == BadLength <==> |s| % 4 != 0
    ensures Decoded(junk, s) == OutOfBounds <==> s == ""
    ensures |s| % 4 == 0 && s != "" ==>
      Decoded(junk, s).Bytes?
      && |Decoded(junk, s).value| == |s| / 4 * 3 - (if s[|s| - 1] == '=' then 1 else 0) - (if s[|s| - 2] == '=' then 1 else 0)
    ensures SymbolText(s) && s != "" ==>
      forall p :: 0 <= p < |Decoded(junk, s).value| ==> Decoded(junk, s).value[p] == OctetOf(s, p)
  {
    if SymbolText(s) && s != "" {
      forall p | 0 <= p < |Decoded(junk, s).value| ensures Decoded(junk, s).value[p] == OctetOf(s, p) {
        OctetAt(junk, s, p);
      }
    }
  }

  /** Eight of the bits of a text, from the one at `8 * p` on. */
  function OctetOf(s: string, p: nat): int
    requires SymbolText(s) && p < |s| / 4 * 3
  {
    OctetIn(s[p / 3 * 4..p / 3 * 4 + 4], p % 3)
  }

  /** The octet at `r` of a group. */
  function OctetIn(g: string, r: nat): int
    requires |g| == 4 && Readable(g) && r < 3
  {
    if r == 0 then SixBits(g[0]) * 4 + SixBits(g[1]) / 16
    else if r == 1 then SixBits(g[1]) % 16 * 16 + SixBits(g[2]) / 4
    else SixBits(g[2]) % 4 * 64 + SixBits(g[3])
  }

  lemma {:induction false} OctetAt(junk: char -> int, s: string, p: nat)
    requires SymbolText(s) && p < |s| / 4 * 3
    ensures DecodeGroups(junk, s, |s| / 4)[p] == OctetOf(s, p)
  {
    var g := DecodedAt(junk, s, |s| / 4, p / 3);
    AtOffset(DecodeGroups(junk, s, |s| / 4), p, p / 3, p % 3);
  }

  lemma {:induction false} AtOffset(all: seq<Byte>, p: nat, k: nat, r: nat)
    requires p == 3 * k + r < 3 * k + 3 <= |all|
    ensures all[3 * k..3 * k + 3][r] == all[p]
  {
  }
}
