/** What the texts of component identifiers mean to `Parse`, in terms of the text alone: the
    categories before the first bracket, and the numbers behind it, one for each `.` or `]`. */
module ComponentIdTexts {
  import opened ComponentIds

  /** Categories as they stand in a text, with colons in between. */
  function Joined(cats: seq<string>): string
    requires cats != []
  {
    if |cats| == 1 then cats[0] else cats[0] + ":" + Joined(cats[1..])
  }

  ghost predicate AllPrintable(cats: seq<string>) {
    cats != [] && forall k :: 0 <= k < |cats| ==> Printable(cats[k])
  }

  lemma {:induction false} FeedJoined(st: Parser, cats: seq<string>, c: char)
    requires |st.versions| == 4 && !st.overflow && !st.inVersion && st.buf == ""
    requires AllPrintable(cats) && (c == ':' || c == '[' || c == NUL)
    ensures Feed(st, Joined(cats) + [c]) == st.(categories := st.categories + cats, inVersion := c == '[')
    decreases |cats|
  {
    if |cats| == 1 {
      FeedCategory(st, cats[0], c);
      assert cats == [cats[0]];
    } else {
      var st1 := st.(categories := st.categories + [cats[0]]);
      JoinedText(cats, c);
      FeedConcat(st, cats[0] + [':'], Joined(cats[1..]) + [c]);
      FeedCategory(st, cats[0], ':');
      FeedJoined(st1, cats[1..], c);
      assert st1.categories + cats[1..] == st.categories + cats;
    }
  }

  lemma {:induction false} JoinedText(cats: seq<string>, c: char)
    requires |cats| > 1
    ensures Joined(cats) + [c] == (cats[0] + [':']) + (Joined(cats[1..]) + [c])
  {
    assert ":" == [':'];
    Assoc(cats[0] + ":", Joined(cats[1..]), [c]);
  }

  lemma {:induction false} JoinedNoNul(cats: seq<string>)
    requires AllPrintable(cats)
    ensures NoNul(Joined(cats))
    decreases |cats|
  {
    if |cats| > 1 {
      JoinedNoNul(cats[1..]);
      NoNulConcat(cats[0], ":");
      NoNulConcat(cats[0] + ":", Joined(cats[1..]));
    }
  }

  /** A text without a bracket has no version: all four numbers are zero. */
  lemma {:induction false} TextWithoutVersions(cats: seq<string>)
    requires AllPrintable(cats)
    ensures ParseSpec(Joined(cats)) == Parsed(cats, [0, 0, 0, 0])
  {
    JoinedNoNul(cats);
    NoNulIsCString(Joined(cats));
    FeedJoined(START, cats, NUL);
    assert START.categories + cats == cats;
  }

  // ----- the part behind the bracket -----

  /** A piece of the text behind the bracket, with the `.` or `]` it ends with. */
  datatype Piece = Piece(text: string, end: char)

  ghost predicate VersionText(w: string) {
    |w| < 256 && forall i :: 0 <= i < |w| ==> w[i] != '.' && w[i] != ']' && w[i] != NUL
  }

  ghost predicate IsPiece(p: Piece) {
    VersionText(p.text) && (p.end == '.' || p.end == ']')
  }

  ghost predicate ArePieces(ps: seq<Piece>) {
    forall k :: 0 <= k < |ps| ==> IsPiece(ps[k])
  }

  function Pieces(ps: seq<Piece>): string {
    if ps == [] then "" else (ps[0].text + [ps[0].end]) + Pieces(ps[1..])
  }

  /** The first four pieces, as `atoi` reads them, and zeros where there are fewer. */
  function Numbers(ps: seq<Piece>): (r: seq<int>)
    ensures |r| == 4
    ensures forall k :: 0 <= k < 4 ==> r[k] == if k < |ps| then Atoi(ps[k].text) else 0
  {
    seq(4, k requires 0 <= k < 4 => if k < |ps| then Atoi(ps[k].text) else 0)
  }

  /** The parser after some pieces. */
  function AfterPieces(cats: seq<string>, ps: seq<Piece>): Parser {
    Parser(true, "", cats, Numbers(ps), if |ps| < 4 then |ps| else 4, false)
  }

  lemma {:induction false} FeedPiece(cats: seq<string>, before: seq<Piece>, p: Piece)
    requires IsPiece(p)
    ensures Feed(AfterPieces(cats, before), p.text + [p.end]) == AfterPieces(cats, before + [p])
  {
    var st := AfterPieces(cats, before);
    FeedConcat(st, p.text, [p.end]);
    FeedPlain(st, p.text);
    assert st.buf + p.text == p.text;
    FeedOne(st.(buf := p.text), p.end);
    var n := Numbers(before + [p]);
    assert n == if |before| < 4 then Numbers(before)[|before| := Atoi(p.text)] else Numbers(before);
  }

  lemma {:induction false} FeedPieces(cats: seq<string>, before: seq<Piece>, ps: seq<Piece>)
    requires ArePieces(ps)
    ensures Feed(AfterPieces(cats, before), Pieces(ps)) == AfterPieces(cats, before + ps)
    decreases |ps|
  {
    if ps == [] {
      assert before + ps == before;
    } else {
      FeedConcat(AfterPieces(cats, before), ps[0].text + [ps[0].end], Pieces(ps[1..]));
      FeedPiece(cats, before, ps[0]);
      FeedPieces(cats, before + [ps[0]], ps[1..]);
      assert (before + [ps[0]]) + ps[1..] == before + ps;
    }
  }

  lemma {:induction false} FeedTail(cats: seq<string>, ps: seq<Piece>, tail: string)
    requires VersionText(tail)
    ensures var r := Feed(AfterPieces(cats, ps), tail + [NUL]);
      !r.overflow && r.categories == cats && r.versions == Numbers(ps)
  {
    var st := AfterPieces(cats, ps);
    FeedConcat(st, tail, [NUL]);
    FeedPlain(st, tail);
    assert st.buf + tail == tail;
    FeedOne(st.(buf := tail), NUL);
  }

  lemma {:induction false} PiecesNoNul(ps: seq<Piece>)
    requires ArePieces(ps)
    ensures NoNul(Pieces(ps))
    decreases |ps|
  {
    if ps != [] {
      PiecesNoNul(ps[1..]);
      NoNulConcat(ps[0].text, [ps[0].end]);
      NoNulConcat(ps[0].text + [ps[0].end], Pieces(ps[1..]));
    }
  }

  function BracketText(cats: seq<string>, ps: seq<Piece>, tail: string): string
    requires cats != []
  {
    (Joined(cats) + ['[']) + (Pieces(ps) + tail)
  }

  lemma {:induction false} BracketNoNul(cats: seq<string>, ps: seq<Piece>, tail: string)
    requires AllPrintable(cats) && ArePieces(ps) && VersionText(tail)
    ensures NoNul(BracketText(cats, ps, tail))
  {
    JoinedNoNul(cats);
    NoNulConcat(Joined(cats), ['[']);
    PiecesNoNul(ps);
    NoNulConcat(Pieces(ps), tail);
    NoNulConcat(Joined(cats) + ['['], Pieces(ps) + tail);
  }

  /** Behind the bracket each `.` or `]` ends a number. The first four count, missing ones are
      zero, and so is what no `.` or `]` ends. */
  lemma {:induction false} TextWithVersions(cats: seq<string>, ps: seq<Piece>, tail: string)
    requires AllPrintable(cats) && ArePieces(ps) && VersionText(tail)
    ensures ParseSpec(Joined(cats) + "[" + Pieces(ps) + tail) == Parsed(cats, Numbers(ps))
  {
    var s := BracketText(cats, ps, tail);
    assert Joined(cats) + "[" + Pieces(ps) + tail == s;
    BracketNoNul(cats, ps, tail);
    NoNulIsCString(s);
    Assoc(Joined(cats) + ['['], Pieces(ps) + tail, [NUL]);
    Assoc(Pieces(ps), tail, [NUL]);
    FeedConcat(START, Joined(cats) + ['['], Pieces(ps) + (tail + [NUL]));
    FeedJoined(START, cats, '[');
    assert START.categories + cats == cats;
    assert Numbers([]) == [0, 0, 0, 0];
    FeedConcat(AfterPieces(cats, []), Pieces(ps), tail + [NUL]);
    FeedPieces(cats, [], ps);
    assert [] + ps == ps;
    FeedTail(cats, ps, tail);
  }

  // ----- written numbers -----

  /** Numbers as they stand in brackets: dots in between and the closing bracket. */
  function Bracketed(v: seq<Int32>): string {
    if v == [] then "" else Decimal(v[0]) + (if |v| == 1 then "]" else ".") + Bracketed(v[1..])
  }

  function PiecesOf(v: seq<Int32>): seq<Piece> {
    if v == [] then [] else [Piece(Decimal(v[0]), if |v| == 1 then ']' else '.')] + PiecesOf(v[1..])
  }

  lemma {:induction false} PieceTexts(v: seq<Int32>, k: nat)
    ensures |PiecesOf(v)| == |v| && (k < |v| ==> PiecesOf(v)[k].text == Decimal(v[k]))
  {
    if v != [] { PieceTexts(v[1..], if k == 0 then 0 else k - 1); }
  }

  lemma {:induction false} DecimalIsVersionText(n: Int32)
    ensures VersionText(Decimal(n))
  {
    DecimalLength(n);
    var m: int := n;
    var ds := Digits(if m < 0 then -m else m);
    assert forall i :: 0 <= i < |ds| ==> IsDigit(ds[i]);
    assert forall i :: 0 <= i < |Decimal(n)| ==> Decimal(n)[i] == '-' || IsDigit(Decimal(n)[i]);
  }

  lemma {:induction false} BracketedPieces(v: seq<Int32>)
    ensures ArePieces(PiecesOf(v)) && Pieces(PiecesOf(v)) == Bracketed(v)
    decreases |v|
  {
    if v != [] {
      BracketedPieces(v[1..]);
      DecimalIsVersionText(v[0]);
      var p := Piece(Decimal(v[0]), if |v| == 1 then ']' else '.');
      assert PiecesOf(v) == [p] + PiecesOf(v[1..]) && PiecesOf(v)[1..] == PiecesOf(v[1..]);
    }
  }

  /** Any amount of numbers in brackets: the first four are the version, and a shorter one is
      filled up with zeros. */
  lemma {:induction false} TextWithNumbers(cats: seq<string>, v: seq<Int32>)
    requires AllPrintable(cats)
    ensures ParseSpec(Joined(cats) + "[" + Bracketed(v)).Parsed?
    ensures var r := ParseSpec(Joined(cats) + "[" + Bracketed(v));
      r.categories == cats && |r.versions| == 4
      && forall k :: 0 <= k < 4 ==> r.versions[k] == if k < |v| then v[k] else 0
  {
    BracketedPieces(v);
    TextWithVersions(cats, PiecesOf(v), "");
    assert Joined(cats) + "[" + Bracketed(v) + "" == Joined(cats) + "[" + Bracketed(v);
    forall k | 0 <= k < 4 ensures Numbers(PiecesOf(v))[k] == if k < |v| then v[k] else 0 {
      PieceTexts(v, k);
      if k < |v| { AtoiDecimal(v[k]); }
    }
  }

  /** The text ends at the first NUL. */
  lemma {:induction false} NothingBehindNul(s: string, t: string)
    requires NoNul(s)
    ensures ParseSpec(s + [NUL] + t) == ParseSpec(s)
  {
    CutAtNul(s, t);
    NoNulIsCString(s);
  }

  lemma {:induction false} CutAtNul(s: string, t: string)
    requires NoNul(s)
    ensures CString(s + [NUL] + t) == s
    decreases |s|
  {
    if s != [] {
      CutAtNul(s[1..], t);
      assert (s + [NUL] + t)[1..] == s[1..] + [NUL] + t;
    }
  }

  /** A category of 256 characters or more does not fit the buffer, whatever follows. */
  lemma {:induction false} LongCategoryOverflows(cats: seq<string>, long: string, rest: string)
    requires cats == [] || AllPrintable(cats)
    requires NoNul(rest) && |long| == 256
    requires forall i :: 0 <= i < 256 ==> long[i] != ':' && long[i] != '[' && long[i] != NUL
    ensures ParseSpec((if cats == [] then "" else Joined(cats) + ":") + (long + rest)) == Overflow
  {
    var first := if cats == [] then "" else Joined(cats) + [':'];
    if cats != [] {
      JoinedNoNul(cats);
      NoNulConcat(Joined(cats), [':']);
      FeedJoined(START, cats, ':');
    }
    FeedLong(first, START.(categories := START.categories + cats), long, rest);
  }

  /** Neither does a text of that length behind the bracket. */
  lemma {:induction false} LongVersionOverflows(cats: seq<string>, ps: seq<Piece>, long: string, rest: string)
    requires AllPrintable(cats) && ArePieces(ps) && NoNul(rest) && |long| == 256
    requires forall i :: 0 <= i < 256 ==> long[i] != '.' && long[i] != ']' && long[i] != NUL
    ensures ParseSpec((Joined(cats) + "[" + Pieces(ps)) + (long + rest)) == Overflow
  {
    JoinedNoNul(cats);
    NoNulConcat(Joined(cats), ['[']);
    PiecesNoNul(ps);
    NoNulConcat(Joined(cats) + ['['], Pieces(ps));
    FeedConcat(START, Joined(cats) + ['['], Pieces(ps));
    FeedJoined(START, cats, '[');
    assert START.categories + cats == cats;
    assert Numbers([]) == [0, 0, 0, 0];
    FeedPieces(cats, [], ps);
    assert [] + ps == ps;
    FeedLong(Joined(cats) + ['['] + Pieces(ps), AfterPieces(cats, ps), long, rest);
  }

  lemma {:induction false} FeedLong(first: string, st: Parser, long: string, rest: string)
    requires NoNul(first) && NoNul(long) && NoNul(rest) && |long| == 256
    requires |st.versions| == 4 && Feed(START, first) == st && !st.overflow && st.buf == ""
    requires forall i :: 0 <= i < |long| ==> Plain(st, long[i])
    ensures ParseSpec(first + (long + rest)) == Overflow
  {
    NoNulConcat(long, rest);
    NoNulConcat(first, long + rest);
    NoNulIsCString(first + (long + rest));
    Assoc(first, long + rest, [NUL]);
    Assoc(long, rest, [NUL]);
    FeedConcat(START, first, long + (rest + [NUL]));
    FeedConcat(st, long, rest + [NUL]);
    FeedPlain(st, long);
    assert st.buf + long == long;
    FeedOverflow(st.(buf := long), rest + [NUL]);
  }

  // ----- one number -----

  ghost predicate AllDigits(s: string) {
    forall i :: 0 <= i < |s| ==> '0' <= s[i] <= '9'
  }

  /** The value of decimal digits, the last one counting once. */
  function Value(ds: string): int {
    if ds == "" then 0 else 10 * Value(ds[..|ds| - 1]) + (ds[|ds| - 1] as int - '0' as int)
  }

  lemma {:induction false} ScanValue(ds: string, rest: string)
    requires AllDigits(ds) && (rest == "" || !('0' <= rest[0] <= '9'))
    ensures Scan(ds, 0) == Value(ds) && Scan(ds + rest, 0) == Value(ds)
  {
    ScanStops(ds, rest, 0);
    if ds != "" {
      var n := |ds| - 1;
      ScanValue(ds[..n], "");
      ScanSnoc(ds[..n], ds[n], 0);
      assert ds[..n] + [ds[n]] == ds;
    }
  }

  lemma {:induction false} ScanStops(ds: string, rest: string, acc: int)
    requires AllDigits(ds) && (rest == "" || !('0' <= rest[0] <= '9'))
    ensures Scan(ds + rest, acc) == Scan(ds, acc)
    decreases |ds|
  {
    if ds == "" {
      assert ds + rest == rest;
    } else {
      assert (ds + rest)[1..] == ds[1..] + rest;
      ScanStops(ds[1..], rest, 10 * acc + (ds[0] as int - '0' as int));
    }
  }

  /** `atoi` of any text, cut into blanks, a sign or none, digits and a rest that does not go on
      with a digit: the signed value of the digits, which is zero if there are none. */
  lemma {:induction false} AtoiOfText(blanks: string, sign: string, ds: string, rest: string)
    requires forall i :: 0 <= i < |blanks| ==> blanks[i] in [' ', '\t', '\n', 11 as char, 12 as char, '\r']
    requires sign in ["", "-", "+"] && AllDigits(ds)
    requires rest == "" || !('0' <= rest[0] <= '9')
    requires sign == "" && ds == "" && rest != "" ==> rest[0] !in [' ', '\t', '\n', 11 as char, 12 as char, '\r', '-', '+']
    ensures Atoi(blanks + (sign + (ds + rest))) == if sign == "-" then -Value(ds) else Value(ds)
    decreases |blanks|
  {
    var s := blanks + (sign + (ds + rest));
    if blanks != "" {
      assert s[1..] == blanks[1..] + (sign + (ds + rest));
      AtoiOfText(blanks[1..], sign, ds, rest);
    } else {
      ScanValue(ds, rest);
      assert s == sign + (ds + rest);
      if sign == "" { assert s == ds + rest; } else { assert s[1..] == ds + rest; }
    }
  }

  // ----- identifiers of the repository -----

  lemma {:induction false} JoinedThree(a: string, b: string, c: string)
    ensures Joined([a]) == a && Joined([a, b]) == a + ":" + b && Joined([a, b, c]) == a + ":" + b + ":" + c
  {
    assert [a, b][1..] == [b] && [a, b, c][1..] == [b, c] && [b, c][1..] == [c];
    assert Joined([b, c]) == b + ":" + c && Joined([a, b, c]) == (a + ":") + Joined([b, c]);
    Assoc(a + ":" + b, ":", c);
    Assoc(a + ":", b, ":" + c);
    Assoc(b, ":", c);
  }

  lemma {:induction false} BracketedTwo(v: Int32, w: Int32)
    requires 0 <= v < 10 && 0 <= w < 10
    ensures Bracketed([v]) == [DigitChar(v)] + "]" && Bracketed([v, w]) == [DigitChar(v)] + "." + [DigitChar(w)] + "]"
  {
    assert [v][1..] == [] && [v, w][1..] == [w] && [w][1..] == [];
    assert [DigitChar(v)] + "]" + "" == [DigitChar(v)] + "]";
    assert [DigitChar(w)] + "]" + "" == [DigitChar(w)] + "]";
    Assoc([DigitChar(v)] + ".", [DigitChar(w)], "]");
  }

  /** The kinds of identifier in the manifests and tests of the repository. */
  lemma {:induction false} KnownTexts()
    ensures ParseSpec("fx") == Parsed(["fx"], [0, 0, 0, 0])
    ensures ParseSpec("fx[2]") == Parsed(["fx"], [2, 0, 0, 0])
    ensures ParseSpec("net:tcp-server") == Parsed(["net", "tcp-server"], [0, 0, 0, 0])
    ensures ParseSpec("citizen:game:client") == Parsed(["citizen", "game", "client"], [0, 0, 0, 0])
    ensures ParseSpec("a:b[1.2]") == Parsed(["a", "b"], [1, 2, 0, 0])
  {
    KnownFx();
    KnownPlain();
    KnownVersion();
  }

  lemma {:induction false} KnownFx()
    ensures ParseSpec("fx") == Parsed(["fx"], [0, 0, 0, 0])
    ensures ParseSpec("fx[2]") == Parsed(["fx"], [2, 0, 0, 0])
  {
    BracketedTwo(2, 0);
    KnownParse(["fx"], [2]);
    assert "fx" + "[" + ([DigitChar(2)] + "]") == "fx[2]";
  }

  lemma {:induction false} KnownPlain()
    ensures ParseSpec("net:tcp-server") == Parsed(["net", "tcp-server"], [0, 0, 0, 0])
    ensures ParseSpec("citizen:game:client") == Parsed(["citizen", "game", "client"], [0, 0, 0, 0])
  {
    JoinedThree("net", "tcp-server", "");
    JoinedThree("citizen", "game", "client");
    TextWithoutVersions(["net", "tcp-server"]);
    TextWithoutVersions(["citizen", "game", "client"]);
    assert "net" + ":" + "tcp-server" == "net:tcp-server";
    assert "citizen" + ":" + "game" + ":" + "client" == "citizen:game:client";
  }

  lemma {:induction false} KnownVersion()
    ensures ParseSpec("a:b[1.2]") == Parsed(["a", "b"], [1, 2, 0, 0])
  {
    JoinedThree("a", "b", "");
    BracketedTwo(1, 2);
    KnownParse(["a", "b"], [1, 2]);
    assert "a" + ":" + "b" + "[" + ([DigitChar(1)] + "." + [DigitChar(2)] + "]") == "a:b[1.2]";
  }

  lemma {:induction false} KnownParse(cats: seq<string>, v: seq<Int32>)
    requires AllPrintable(cats) && |v| <= 2
    ensures ParseSpec(Joined(cats)) == Parsed(cats, [0, 0, 0, 0])
    ensures ParseSpec(Joined(cats) + "[" + Bracketed(v))
      == Parsed(cats, [if |v| > 0 then v[0] else 0, if |v| > 1 then v[1] else 0, 0, 0])
  {
    TextWithoutVersions(cats);
    TextWithNumbers(cats, v);
  }
}
