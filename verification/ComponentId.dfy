/** Component identifiers `category:subcategory:...[v0.v1.v2.v3]`: printing, parsing with the
    original's fixed 256-byte scratch buffer, and the matching relation between them. */
module ComponentIds {

  type Int32 = n: int | -0x8000_0000 <= n < 0x8000_0000

  datatype Id = Id(categories: seq<string>, versions: seq<Int32>)

  /** `m_versions` is an array of four. */
  ghost predicate Valid(id: Id) {
    |id.versions| == 4
  }

  type ValidId = id: Id | Valid(id) witness Id([], [0, 0, 0, 0])

  const NUL: char := '\0'
  const BUFFER: nat := 256

  // ----- matching -----

  /** `GetCategory`: out of range reads as the empty string. */
  function Category(id: Id, i: nat): string {
    if i < |id.categories| then id.categories[i] else ""
  }

  /** The first differing version decides. */
  function CompareFrom(a: seq<Int32>, b: seq<Int32>, i: nat): int
    requires |a| == |b| == 4 && i <= 4
    decreases 4 - i
  {
    if i == 4 then 0
    else if a[i] < b[i] then -1
    else if a[i] > b[i] then 1
    else CompareFrom(a, b, i + 1)
  }

  ghost predicate Matched(dependency: Id, provider: Id)
    requires Valid(dependency) && Valid(provider)
  {
    && (forall i :: 0 <= i < |dependency.categories| ==> Category(provider, i) == dependency.categories[i])
    && CompareFrom(dependency.versions, provider.versions, 0) <= 0
  }

  method CompareVersion(a: Id, b: Id) returns (c: int)
    requires Valid(a) && Valid(b)
    ensures c == CompareFrom(a.versions, b.versions, 0)
  {
    for i := 0 to 4
      invariant CompareFrom(a.versions, b.versions, 0) == CompareFrom(a.versions, b.versions, i)
    {
      if a.versions[i] < b.versions[i] { return -1; }
      else if a.versions[i] > b.versions[i] { return 1; }
    }
    return 0;
  }

  method IsMatchedBy(dependency: Id, provider: Id) returns (r: bool)
    requires Valid(dependency) && Valid(provider)
    ensures r <==> Matched(dependency, provider)
  {
    for i := 0 to |dependency.categories|
      invariant forall k :: 0 <= k < i ==> Category(provider, k) == dependency.categories[k]
    {
      if Category(provider, i) != Category(dependency, i) { return false; }
    }
    var c := CompareVersion(dependency, provider);
    return c <= 0;
  }

  lemma {:induction false} CompareOrder(a: seq<Int32>, b: seq<Int32>, c: seq<Int32>, i: nat)
    requires |a| == |b| == |c| == 4 && i <= 4
    ensures CompareFrom(a, a, i) == 0
    ensures CompareFrom(a, b, i) <= 0 && CompareFrom(b, c, i) <= 0 ==> CompareFrom(a, c, i) <= 0
    ensures CompareFrom(a, b, i) <= 0 && CompareFrom(b, a, i) <= 0 ==> a[i..] == b[i..]
    decreases 4 - i
  {
    if i < 4 {
      CompareOrder(a, b, c, i + 1);
      assert a[i..] == [a[i]] + a[i + 1..] && b[i..] == [b[i]] + b[i + 1..];
    } else {
      assert a[4..] == [] && b[4..] == [];
    }
  }

  /** `a` is lower at place `i`, the first place where the two differ. */
  ghost predicate FirstLower(a: seq<Int32>, b: seq<Int32>, i: nat)
    requires |a| == |b| == 4 && i < 4
  {
    a[i] < b[i] && forall j :: 0 <= j < i ==> a[j] == b[j]
  }

  /** Versions compare like their places do at the first difference, in either direction. */
  lemma {:induction false} CompareIsLexicographic(a: seq<Int32>, b: seq<Int32>)
    requires |a| == |b| == 4
    ensures CompareFrom(a, b, 0) in {-1, 0, 1}
    ensures CompareFrom(a, b, 0) == -1 <==> exists i: nat :: i < 4 && FirstLower(a, b, i)
    ensures CompareFrom(a, b, 0) == 1 <==> exists i: nat :: i < 4 && FirstLower(b, a, i)
    ensures CompareFrom(a, b, 0) == 0 <==> a == b
  {
    CompareAt(a, b, 0);
  }

  lemma {:induction false} CompareAt(a: seq<Int32>, b: seq<Int32>, i: nat)
    requires |a| == |b| == 4 && i <= 4 && forall j :: 0 <= j < i ==> a[j] == b[j]
    ensures CompareFrom(a, b, i) in {-1, 0, 1}
    ensures CompareFrom(a, b, i) == -1 <==> exists k: nat :: k < 4 && FirstLower(a, b, k)
    ensures CompareFrom(a, b, i) == 1 <==> exists k: nat :: k < 4 && FirstLower(b, a, k)
    ensures CompareFrom(a, b, i) == 0 <==> a == b
    decreases 4 - i
  {
    if i < 4 && a[i] == b[i] {
      CompareAt(a, b, i + 1);
    } else if i < 4 {
      assert FirstLower(a, b, i) || FirstLower(b, a, i);
    }
  }

  /** The dependency's categories stand at the same places of the provider, a missing one reading as
      empty, and the provider's version is the same or higher at the first difference. */
  lemma MatchedExactly(dependency: Id, provider: Id)
    requires Valid(dependency) && Valid(provider)
    ensures Matched(dependency, provider) <==>
      && (forall i :: 0 <= i < |dependency.categories| ==>
            if i < |provider.categories| then provider.categories[i] == dependency.categories[i] else dependency.categories[i] == "")
      && (provider.versions == dependency.versions
          || exists i: nat :: i < 4 && FirstLower(dependency.versions, provider.versions, i))
    ensures !TrailingEmpty(dependency) && Matched(dependency, provider) ==> dependency.categories <= provider.categories
  {
    CompareIsLexicographic(dependency.versions, provider.versions);
    if !TrailingEmpty(dependency) && Matched(dependency, provider) { MatchedCoversCategories(dependency, provider); }
  }

  /** The last category is the empty string, as in the parse of `"a:"`. */
  ghost predicate TrailingEmpty(id: Id) {
    id.categories != [] && id.categories[|id.categories| - 1] == ""
  }

  lemma MatchedCoversCategories(a: Id, b: Id)
    requires Valid(a) && Valid(b) && !TrailingEmpty(a) && Matched(a, b)
    ensures |a.categories| <= |b.categories|
  {
    if a.categories != [] { assert Category(b, |a.categories| - 1) != ""; }
  }

  /** Matching is a partial order on the identifiers without a trailing empty category. */
  lemma MatchingIsPartialOrder(a: Id, b: Id, c: Id)
    requires Valid(a) && Valid(b) && Valid(c)
    requires !TrailingEmpty(a) && !TrailingEmpty(b)
    ensures Matched(a, a)
    ensures Matched(a, b) && Matched(b, c) ==> Matched(a, c)
    ensures Matched(a, b) && Matched(b, a) ==> a == b
  {
    CompareOrder(a.versions, b.versions, c.versions, 0);
    if Matched(a, b) {
      MatchedCoversCategories(a, b);
      if Matched(b, a) {
        MatchedCoversCategories(b, a);
        assert a.categories == b.categories;
        assert a.versions[0..] == a.versions && b.versions[0..] == b.versions;
      }
    }
  }

  /** A match through an intermediate identifier can be lost. */
  ghost predicate ChainsFrom(a: Id)
    requires Valid(a)
  {
    forall b, c :: Valid(b) && Valid(c) && Matched(a, b) && Matched(b, c) ==> Matched(a, c)
  }

  /** Matching chains from `a` exactly when `a` does not end in an empty category: the
      missing category reads as empty, so a shorter identifier can stand in the middle. */
  lemma ChainsExactlyWithoutTrailingEmpty(a: Id)
    requires Valid(a)
    ensures ChainsFrom(a) <==> !TrailingEmpty(a)
  {
    if TrailingEmpty(a) {
      var n := |a.categories| - 1;
      var b := Id(a.categories[..n], a.versions);
      var c := Id(a.categories[..n] + ["x"], a.versions);
      CompareOrder(a.versions, a.versions, a.versions, 0);
      assert Matched(a, b) && Matched(b, c);
      assert Category(c, n) == "x";
      assert !Matched(a, c);
    } else {
      forall b, c | Valid(b) && Valid(c) && Matched(a, b) && Matched(b, c) ensures Matched(a, c) {
        MatchedCoversCategories(a, b);
        CompareOrder(a.versions, b.versions, c.versions, 0);
        forall i | 0 <= i < |a.categories| ensures Category(c, i) == a.categories[i] {
          assert Category(b, i) == b.categories[i];
        }
      }
    }
  }

  // ----- decimal numbers -----

  predicate IsDigit(c: char) { '0' <= c <= '9' }

  function DigitChar(d: int): (c: char)
    requires 0 <= d < 10
    ensures IsDigit(c) && c as int - '0' as int == d
  {
    ('0' as int + d) as char
  }

  function Digits(n: nat): (s: string)
    ensures s != [] && forall i :: 0 <= i < |s| ==> IsDigit(s[i])
  {
    if n < 10 then [DigitChar(n)] else Digits(n / 10) + [DigitChar(n % 10)]
  }

  /** What `<<` prints for an `int`. */
  function Decimal(n: int): string {
    if n < 0 then "-" + Digits(-n) else Digits(n)
  }

  function Scan(s: string, acc: int): int {
    if s == [] || !IsDigit(s[0]) then acc
    else Scan(s[1..], 10 * acc + (s[0] as int - '0' as int))
  }

  predicate IsSpace(c: char) {
    c == ' ' || '\t' <= c <= '\r'
  }

  /** `atoi`: leading blanks, one sign, then digits up to the first other character. */
  function Atoi(s: string): int {
    if s != [] && IsSpace(s[0]) then Atoi(s[1..])
    else if s != [] && s[0] == '-' then -Scan(s[1..], 0)
    else if s != [] && s[0] == '+' then Scan(s[1..], 0)
    else Scan(s, 0)
  }

  lemma {:induction false} ScanSnoc(s: string, c: char, acc: int)
    requires IsDigit(c) && forall i :: 0 <= i < |s| ==> IsDigit(s[i])
    ensures Scan(s + [c], acc) == 10 * Scan(s, acc) + (c as int - '0' as int)
  {
    if s == [] {
      assert (s + [c])[1..] == [];
    } else {
      assert (s + [c])[1..] == s[1..] + [c];
      ScanSnoc(s[1..], c, 10 * acc + (s[0] as int - '0' as int));
    }
  }

  lemma {:induction false} ScanDigits(n: nat)
    ensures Scan(Digits(n), 0) == n
  {
    if n < 10 {
      assert Digits(n)[1..] == [];
    } else {
      ScanDigits(n / 10);
      ScanSnoc(Digits(n / 10), DigitChar(n % 10), 0);
    }
  }

  lemma AtoiDecimal(n: int)
    ensures Atoi(Decimal(n)) == n
  {
    if n < 0 {
      ScanDigits(-n);
      assert Decimal(n)[1..] == Digits(-n);
    } else {
      ScanDigits(n);
      assert IsDigit(Digits(n)[0]);
    }
  }

  function Pow10(k: nat): nat {
    if k == 0 then 1 else 10 * Pow10(k - 1)
  }

  lemma {:induction false} DigitsLength(n: nat, k: nat)
    requires 1 <= k && n < Pow10(k)
    ensures |Digits(n)| <= k
  {
    if n >= 10 {
      DigitsLength(n / 10, k - 1);
    }
  }

  lemma DecimalLength(n: Int32)
    ensures |Decimal(n)| <= 11
  {
    assert Pow10(5) == 100_000;
    assert Pow10(10) == 100_000 * Pow10(5) by { assert Pow10(8) == 1000 * Pow10(5); }
    var m: int := n;
    DigitsLength(if m < 0 then -m else m, 10);
  }

  // ----- printing -----

  function JoinFrom(categories: seq<string>, i: nat): string
    requires i <= |categories|
    decreases |categories| - i
  {
    if i == |categories| then "" else ":" + categories[i] + JoinFrom(categories, i + 1)
  }

  function VersionsFrom(v: seq<Int32>, i: nat): string
    requires i <= |v|
    decreases |v| - i
  {
    if i == |v| then "" else "." + Decimal(v[i]) + VersionsFrom(v, i + 1)
  }

  /** The text `GetString` produces. */
  function Printed(id: Id): string
    requires |id.versions| == 4
  {
    Category(id, 0)
    + JoinFrom(id.categories, if |id.categories| == 0 then 0 else 1)
    + "[" + Decimal(id.versions[0]) + VersionsFrom(id.versions, 1) + "]"
  }

  lemma {:induction false} Assoc(a: string, b: string, c: string)
    ensures (a + b) + c == a + (b + c)
  {
  }

  method PutCategories(start: string, categories: seq<string>) returns (s: string)
    requires categories != []
    ensures s == start + JoinFrom(categories, 1)
  {
    s := start;
    ghost var whole := start + JoinFrom(categories, 1);
    for i := 1 to |categories|
      invariant s + JoinFrom(categories, i) == whole
    {
      Assoc(s, ":" + categories[i], JoinFrom(categories, i + 1));
      s := s + (":" + categories[i]);
    }
    assert s + "" == s;
  }

  method PutVersions(start: string, versions: seq<Int32>) returns (s: string)
    requires |versions| == 4
    ensures s == start + VersionsFrom(versions, 1)
  {
    s := start;
    ghost var whole := start + VersionsFrom(versions, 1);
    for i := 1 to 4
      invariant s + VersionsFrom(versions, i) == whole
    {
      Assoc(s, "." + Decimal(versions[i]), VersionsFrom(versions, i + 1));
      s := s + ("." + Decimal(versions[i]));
    }
    assert s + "" == s;
  }

  method GetString(id: Id) returns (s: string)
    requires Valid(id)
    ensures s == Printed(id)
  {
    s := Category(id, 0);
    if |id.categories| > 0 { s := PutCategories(s, id.categories); } else { assert s + "" == s; }
    s := s + "[" + Decimal(id.versions[0]);
    s := PutVersions(s, id.versions);
    s := s + "]";
  }

  // ----- parsing -----

  /** The local variables of `Parse`; `overflow` records a write past `tempBuf`. */
  datatype Parser = Parser(inVersion: bool, buf: string, categories: seq<string>, versions: seq<int>, next: nat, overflow: bool)

  const START := Parser(false, "", [], [0, 0, 0, 0], 0, false)

  function Step(st: Parser, c: char): (r: Parser)
    requires |st.versions| == 4
    ensures |r.versions| == 4
  {
    if st.overflow || |st.buf| >= BUFFER then st.(overflow := true)
    else if !st.inVersion then
      if c == ':' || c == '[' || c == NUL then
        st.(categories := st.categories + [st.buf], inVersion := c == '[', buf := "")
      else st.(buf := st.buf + [c])
    else if c == '.' || c == ']' then
      st.(versions := if st.next < 4 then st.versions[st.next := Atoi(st.buf)] else st.versions,
          next := if st.next < 4 then st.next + 1 else st.next, buf := "")
    else st.(buf := st.buf + [c])
  }

  function Feed(st: Parser, s: string): (r: Parser)
    requires |st.versions| == 4
    ensures |r.versions| == 4
    decreases |s|
  {
    if s == [] then st else Feed(Step(st, s[0]), s[1..])
  }

  /** A C string ends at its first NUL. */
  function CString(s: string): string {
    if s == [] || s[0] == NUL then [] else [s[0]] + CString(s[1..])
  }

  datatype Parsed = Overflow | Parsed(categories: seq<string>, versions: seq<int>)

  function ParseSpec(s: string): Parsed {
    var st := Feed(START, CString(s) + [NUL]);
    if st.overflow then Overflow else Parsed(st.categories, st.versions)
  }

  method Parse(s: string) returns (r: Parsed)
    ensures r == ParseSpec(s)
  {
    var st := START;
    var p := 0;
    while true
      invariant p <= |s| && |st.versions| == 4
      invariant Feed(st, CString(s[p..]) + [NUL]) == Feed(START, CString(s) + [NUL])
      decreases |s| - p
    {
      var c := if p < |s| then s[p] else NUL;
      ghost var rest := CString(s[p..]) + [NUL];
      st := Step(st, c);
      if c == NUL {
        assert rest == [NUL] && rest[1..] == [];
        break;
      }
      assert s[p..][1..] == s[p + 1..];
      assert rest[1..] == CString(s[p + 1..]) + [NUL];
      p := p + 1;
    }
    r := if st.overflow then Overflow else Parsed(st.categories, st.versions);
  }

  lemma {:induction false} FeedConcat(st: Parser, a: string, b: string)
    requires |st.versions| == 4
    ensures Feed(st, a + b) == Feed(Feed(st, a), b)
    decreases |a|
  {
    if a == [] {
      assert a + b == b;
    } else {
      assert (a + b)[1..] == a[1..] + b;
      FeedConcat(Step(st, a[0]), a[1..], b);
    }
  }

  lemma FeedOne(st: Parser, c: char)
    requires |st.versions| == 4
    ensures Feed(st, [c]) == Step(st, c)
  {
    assert [c][1..] == [];
  }

  predicate Plain(st: Parser, c: char) {
    if st.inVersion then c != '.' && c != ']' else c != ':' && c != '[' && c != NUL
  }

  lemma {:induction false} FeedPlain(st: Parser, w: string)
    requires |st.versions| == 4 && !st.overflow && |st.buf| + |w| <= BUFFER
    requires forall i :: 0 <= i < |w| ==> Plain(st, w[i])
    ensures Feed(st, w) == st.(buf := st.buf + w)
    decreases |w|
  {
    if w == [] {
      assert st.buf + w == st.buf;
    } else {
      var st1 := st.(buf := st.buf + [w[0]]);
      FeedPlain(st1, w[1..]);
      assert st.buf + w == st1.buf + w[1..];
    }
  }

  /** What the original can print and read back: see `RoundTripExactly`. */
  predicate Printable(category: string) {
    |category| < 256 && forall i :: 0 <= i < |category| ==> category[i] != ':' && category[i] != '[' && category[i] != NUL
  }

  lemma FeedCategory(st: Parser, w: string, c: char)
    requires |st.versions| == 4 && !st.overflow && !st.inVersion && st.buf == ""
    requires Printable(w) && (c == ':' || c == '[' || c == NUL)
    ensures Feed(st, w + [c]) == st.(categories := st.categories + [w], inVersion := c == '[')
  {
    FeedConcat(st, w, [c]);
    FeedPlain(st, w);
    assert st.buf + w == w;
    FeedOne(st.(buf := w), c);
  }

  lemma {:induction false} FeedCategories(st: Parser, cats: seq<string>, i: nat)
    requires |st.versions| == 4 && !st.overflow && !st.inVersion && st.buf == ""
    requires i < |cats| && forall k :: 0 <= k < |cats| ==> Printable(cats[k])
    ensures Feed(st, cats[i] + JoinFrom(cats, i + 1) + "[") == st.(categories := st.categories + cats[i..], inVersion := true)
    decreases |cats| - i
  {
    var text := cats[i] + JoinFrom(cats, i + 1) + "[";
    if i + 1 == |cats| {
      assert text == cats[i] + ['['];
      FeedCategory(st, cats[i], '[');
      assert cats[i..] == [cats[i]];
    } else {
      var rest := cats[i + 1] + JoinFrom(cats, i + 2) + "[";
      assert text == (cats[i] + [':']) + rest;
      FeedConcat(st, cats[i] + [':'], rest);
      FeedCategory(st, cats[i], ':');
      var st1 := st.(categories := st.categories + [cats[i]]);
      FeedCategories(st1, cats, i + 1);
      assert st1.categories + cats[i + 1..] == st.categories + cats[i..];
    }
  }

  lemma FeedVersion(st: Parser, v: Int32, c: char)
    requires |st.versions| == 4 && !st.overflow && st.inVersion && st.buf == "" && st.next < 4
    requires c == '.' || c == ']'
    ensures Feed(st, Decimal(v) + [c]) == st.(versions := st.versions[st.next := v], next := st.next + 1)
  {
    DecimalLength(v);
    AtoiDecimal(v);
    FeedConcat(st, Decimal(v), [c]);
    FeedPlain(st, Decimal(v));
    assert st.buf + Decimal(v) == Decimal(v);
    FeedOne(st.(buf := Decimal(v)), c);
  }

  lemma {:induction false} Regrouped(a: string, b: string, c: string, d: string)
    ensures a + (['.'] + b + c) + d == (a + ['.']) + (b + c + d)
  {
  }

  lemma {:induction false} VersionText(v: seq<Int32>, i: nat)
    requires i + 1 < |v|
    ensures Decimal(v[i]) + VersionsFrom(v, i + 1) + "]"
      == (Decimal(v[i]) + ['.']) + (Decimal(v[i + 1]) + VersionsFrom(v, i + 2) + "]")
  {
    Regrouped(Decimal(v[i]), Decimal(v[i + 1]), VersionsFrom(v, i + 2), "]");
  }

  /** The numbers still to come, starting with the one at `next`, fill the version array. */
  lemma {:induction false} FeedVersions(st: Parser, v: seq<Int32>, i: nat)
    requires |st.versions| == 4 == |v| && !st.overflow && st.inVersion && st.buf == "" && st.next == i < 4
    requires forall k :: 0 <= k < i ==> st.versions[k] == v[k]
    ensures Feed(st, Decimal(v[i]) + VersionsFrom(v, i + 1) + "]") == st.(versions := v, next := 4)
    decreases 4 - i
  {
    var st1 := st.(versions := st.versions[i := v[i]], next := i + 1);
    if i == 3 {
      assert Decimal(v[i]) + VersionsFrom(v, i + 1) + "]" == Decimal(v[i]) + [']'];
      FeedVersion(st, v[i], ']');
      assert st1.versions == v;
    } else {
      VersionText(v, i);
      FeedConcat(st, Decimal(v[i]) + ['.'], Decimal(v[i + 1]) + VersionsFrom(v, i + 2) + "]");
      FeedVersion(st, v[i], '.');
      FeedVersions(st1, v, i + 1);
    }
  }

  ghost predicate NoNul(s: string) {
    forall i :: 0 <= i < |s| ==> s[i] != NUL
  }

  lemma {:induction false} NoNulConcat(a: string, b: string)
    requires NoNul(a) && NoNul(b)
    ensures NoNul(a + b)
  {
  }

  lemma {:induction false} NoNulIsCString(s: string)
    requires NoNul(s)
    ensures CString(s) == s
  {
    if s != [] { NoNulIsCString(s[1..]); }
  }

  lemma {:induction false} DecimalNoNul(n: int)
    ensures NoNul(Decimal(n))
  {
    var ds := Digits(if n < 0 then -n else n);
    assert forall i :: 0 <= i < |ds| ==> IsDigit(ds[i]);
    NoNulConcat("-", ds);
  }

  lemma {:induction false} VersionsNoNul(v: seq<Int32>, i: nat)
    requires i <= |v|
    ensures NoNul(VersionsFrom(v, i))
    decreases |v| - i
  {
    if i < |v| {
      VersionsNoNul(v, i + 1);
      DecimalNoNul(v[i]);
      NoNulConcat(".", Decimal(v[i]));
      NoNulConcat("." + Decimal(v[i]), VersionsFrom(v, i + 1));
    }
  }

  lemma {:induction false} JoinNoNul(cats: seq<string>, i: nat)
    requires i <= |cats| && forall k :: 0 <= k < |cats| ==> Printable(cats[k])
    ensures NoNul(JoinFrom(cats, i))
    decreases |cats| - i
  {
    if i < |cats| {
      JoinNoNul(cats, i + 1);
      NoNulConcat(":", cats[i]);
      NoNulConcat(":" + cats[i], JoinFrom(cats, i + 1));
    }
  }

  function Head(cats: seq<string>): string
    requires cats != []
  {
    cats[0] + JoinFrom(cats, 1) + "["
  }

  function Tail(v: seq<Int32>): string
    requires |v| == 4
  {
    Decimal(v[0]) + VersionsFrom(v, 1) + "]"
  }

  lemma {:induction false} PrintedParts(id: Id)
    requires Valid(id) && id.categories != []
    ensures Printed(id) == Head(id.categories) + Tail(id.versions)
  {
    var d, vs := Decimal(id.versions[0]), VersionsFrom(id.versions, 1);
    Assoc(Head(id.categories) + d, vs, "]");
    Assoc(Head(id.categories), d, vs + "]");
    Assoc(d, vs, "]");
  }

  lemma {:induction false} PartsNoNul(id: Id)
    requires Valid(id) && id.categories != [] && forall i :: 0 <= i < |id.categories| ==> Printable(id.categories[i])
    ensures NoNul(Head(id.categories)) && NoNul(Tail(id.versions))
  {
    var cats, v := id.categories, id.versions;
    JoinNoNul(cats, 1);
    NoNulConcat(cats[0], JoinFrom(cats, 1));
    NoNulConcat(cats[0] + JoinFrom(cats, 1), "[");
    VersionsNoNul(v, 1);
    DecimalNoNul(v[0]);
    NoNulConcat(Decimal(v[0]), VersionsFrom(v, 1));
    NoNulConcat(Decimal(v[0]) + VersionsFrom(v, 1), "]");
  }

  lemma FeedHead(cats: seq<string>)
    requires cats != [] && forall i :: 0 <= i < |cats| ==> Printable(cats[i])
    ensures Feed(START, Head(cats)) == START.(categories := cats, inVersion := true)
  {
    FeedCategories(START, cats, 0);
    assert START.categories + cats[0..] == cats;
  }

  lemma {:induction false} FeedParts(cats: seq<string>, v: seq<Int32>)
    requires |v| == 4 && cats != [] && forall i :: 0 <= i < |cats| ==> Printable(cats[i])
    ensures var st := Feed(START, (Head(cats) + Tail(v)) + [NUL]); !st.overflow && st.categories == cats && st.versions == v
  {
    var st := START.(categories := cats, inVersion := true);
    FeedConcat(START, Head(cats), Tail(v));
    FeedHead(cats);
    FeedVersions(st, v, 0);
    FeedConcat(START, Head(cats) + Tail(v), [NUL]);
    FeedOne(st.(versions := v, next := 4), NUL);
  }

  lemma {:induction false} RoundTrip(id: Id)
    requires Valid(id) && id.categories != []
    requires forall i :: 0 <= i < |id.categories| ==> Printable(id.categories[i])
    ensures ParseSpec(Printed(id)) == Parsed(id.categories, id.versions)
  {
    PrintedParts(id);
    PartsNoNul(id);
    NoNulConcat(Head(id.categories), Tail(id.versions));
    NoNulIsCString(Printed(id));
    FeedParts(id.categories, id.versions);
  }

  /** Whatever is parsed has at least one category, and only printable ones. */
  lemma {:induction false} ParsedIsPrintable(st: Parser, s: string)
    requires |st.versions| == 4
    requires forall i :: 0 <= i < |st.categories| ==> Printable(st.categories[i])
    requires !st.inVersion ==> Printable(st.buf) || |st.buf| >= BUFFER
    requires st.inVersion ==> st.categories != []
    requires s != [] && s[|s| - 1] == NUL
    ensures !Feed(st, s).overflow ==> Feed(st, s).categories != []
    ensures !Feed(st, s).overflow ==> forall i :: 0 <= i < |Feed(st, s).categories| ==> Printable(Feed(st, s).categories[i])
    decreases |s|
  {
    if |s| == 1 {
      FeedOne(st, NUL);
    } else if st.overflow || |st.buf| >= BUFFER {
      FeedOverflow(st, s);
    } else {
      ParsedIsPrintable(Step(st, s[0]), s[1..]);
    }
  }

  lemma {:induction false} FeedOverflow(st: Parser, s: string)
    requires |st.versions| == 4 && s != []
    requires st.overflow || |st.buf| >= BUFFER
    ensures Feed(st, s).overflow
    decreases |s|
  {
    FeedOne(st, s[0]);
    if |s| > 1 { FeedOverflow(Step(st, s[0]), s[1..]); }
  }

  /** Printing and parsing give the identifier back exactly when it has a category and
      every category is shorter than the buffer and free of `:`, `[` and NUL. */
  lemma RoundTripExactly(id: Id)
    requires Valid(id)
    ensures ParseSpec(Printed(id)) == Parsed(id.categories, id.versions)
      <==> id.categories != [] && forall i :: 0 <= i < |id.categories| ==> Printable(id.categories[i])
  {
    ParsedIsPrintable(START, CString(Printed(id)) + [NUL]);
    if id.categories != [] && forall i :: 0 <= i < |id.categories| ==> Printable(id.categories[i]) {
      RoundTrip(id);
    }
  }
}
