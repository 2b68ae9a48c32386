/** The Go string helpers the signing and egress code lean on: strings.TrimSpace, Fields and
    Join, and fmt's %q (strconv.Quote). A string is its sequence of runes. */
module Text {

  /** unicode.IsSpace. */
  predicate IsSpace(c: char) {
    var r := c as int;
    || 9 <= r <= 13 || r == 0x20 || r == 0x85 || r == 0xA0 || r == 0x1680 || 0x2000 <= r <= 0x200A
    || r == 0x2028 || r == 0x2029 || r == 0x202F || r == 0x205F || r == 0x3000
  }

  predicate HasPrefix(s: string, p: string) {
    p <= s
  }

  predicate HasSuffix(s: string, p: string) {
    |p| <= |s| && s[|s| - |p|..] == p
  }

  /** strings.TrimPrefix: a text without the prefix is left as it is. */
  function TrimPrefix(s: string, p: string): string {
    if HasPrefix(s, p) then s[|p|..] else s
  }

  predicate Trimmed(s: string) {
    s == "" || (!IsSpace(s[0]) && !IsSpace(s[|s| - 1]))
  }

  function TrimSpace(s: string): (r: string)
    ensures Trimmed(r)
    ensures |r| <= |s|
    ensures forall c :: c in r ==> c in s
    decreases |s|
  {
    if s == "" then ""
    else if IsSpace(s[0]) then TrimSpace(s[1..])
    else if IsSpace(s[|s| - 1]) then TrimSpace(s[..|s| - 1])
    else s
  }

  function LowerChar(c: char): char {
    if 'A' <= c <= 'Z' then (c as int + 32) as char else c
  }

  /** strings.ToLower, on ASCII letters. */
  function Lower(s: string): (r: string)
    ensures |r| == |s|
  {
    seq(|s|, i requires 0 <= i < |s| => LowerChar(s[i]))
  }

  function UpperChar(c: char): char {
    if 'a' <= c <= 'z' then (c as int - 32) as char else c
  }

  /** strings.ToUpper, on ASCII letters. */
  function Upper(s: string): (r: string)
    ensures |r| == |s|
  {
    seq(|s|, i requires 0 <= i < |s| => UpperChar(s[i]))
  }

  /** strings.Join. */
  function Join(xs: seq<string>, sep: string): string {
    if |xs| == 0 then "" else if |xs| == 1 then xs[0] else xs[0] + sep + Join(xs[1..], sep)
  }

  lemma {:induction false} NotInJoin(c: char, xs: seq<string>, sep: string)
    requires c !in sep && forall i :: 0 <= i < |xs| ==> c !in xs[i]
    ensures c !in Join(xs, sep)
  {
    if |xs| <= 1 {
    } else {
      NotInJoin(c, xs[1..], sep);
    }
  }

  /** strings.Fields, with `current` the field being read. */
  function FieldsFrom(s: string, current: string): seq<string> {
    if s == "" then Word(current)
    else if IsSpace(s[0]) then Word(current) + FieldsFrom(s[1..], "")
    else FieldsFrom(s[1..], current + [s[0]])
  }

  function Word(current: string): seq<string> {
    if current == "" then [] else [current]
  }

  function Fields(s: string): seq<string> {
    FieldsFrom(s, "")
  }

  predicate SpaceFree(s: string) {
    forall i :: 0 <= i < |s| ==> !IsSpace(s[i])
  }

  lemma {:induction false} FieldsSkipWord(w: string, rest: string, current: string)
    requires SpaceFree(w)
    ensures FieldsFrom(w + rest, current) == FieldsFrom(rest, current + w)
  {
    if w == "" {
      assert w + rest == rest && current + w == current;
    } else {
      assert (w + rest)[1..] == w[1..] + rest;
      FieldsSkipWord(w[1..], rest, current + [w[0]]);
      assert current + [w[0]] + w[1..] == current + w;
    }
  }

  /** Fields undoes Join on words that are not empty and hold no space. */
  lemma {:induction false} FieldsJoin(xs: seq<string>)
    requires forall i :: 0 <= i < |xs| ==> xs[i] != "" && SpaceFree(xs[i])
    ensures Fields(Join(xs, " ")) == xs
  {
    if |xs| == 1 {
      FieldsSkipWord(xs[0], "", "");
      assert xs[0] + "" == xs[0] && "" + xs[0] == xs[0];
    } else if |xs| > 1 {
      var tail := Join(xs[1..], " ");
      FieldsSkipWord(xs[0], " " + tail, "");
      assert xs[0] + " " + tail == xs[0] + (" " + tail) && "" + xs[0] == xs[0];
      assert (" " + tail)[1..] == tail;
      FieldsJoin(xs[1..]);
      assert [xs[0]] + xs[1..] == xs;
    }
  }

  /** strings.ReplaceAll. */
  function ReplaceAll(s: string, pattern: string, replacement: string): string
    requires pattern != ""
  {
    if |s| < |pattern| then s
    else if pattern <= s then replacement + ReplaceAll(s[|pattern|..], pattern, replacement)
    else [s[0]] + ReplaceAll(s[1..], pattern, replacement)
  }

  /** Replacing one character by another goes character by character. */
  lemma {:induction false} ReplaceAcross(a: string, c: char, b: string, d: char)
    requires c !in a
    ensures ReplaceAll(a + [c] + b, [c], [d]) == a + [d] + ReplaceAll(b, [c], [d])
  {
    var t := a + [c] + b;
    if a == "" {
      assert t == [c] + b && t[1..] == b;
      assert a + [d] + ReplaceAll(b, [c], [d]) == [d] + ReplaceAll(b, [c], [d]);
    } else {
      assert t[0] == a[0] && t[1..] == a[1..] + [c] + b;
      ReplaceAcross(a[1..], c, b, d);
      assert a == [a[0]] + a[1..];
    }
  }

  lemma {:induction false} ReplaceNothing(a: string, c: char, d: char)
    requires c !in a
    ensures ReplaceAll(a, [c], [d]) == a
  {
    if a == "" {
    } else {
      ReplaceNothing(a[1..], c, d);
      assert a == [a[0]] + a[1..];
    }
  }

  // ---- order ----

  /** Lexicographic order. */
  predicate Less(a: seq<int>, b: seq<int>) {
    b != [] && (a == [] || a[0] < b[0] || (a[0] == b[0] && Less(a[1..], b[1..])))
  }

  lemma {:induction false} LessTotal(a: seq<int>, b: seq<int>)
    ensures a == b || Less(a, b) || Less(b, a)
  {
    if a != [] && b != [] && a[0] == b[0] {
      LessTotal(a[1..], b[1..]);
      assert a == [a[0]] + a[1..] && b == [b[0]] + b[1..];
    }
  }

  lemma {:induction false} LessTransitive(a: seq<int>, b: seq<int>, c: seq<int>)
    requires Less(a, b) && Less(b, c)
    ensures Less(a, c)
  {
    if a != [] && a[0] == b[0] == c[0] {
      LessTransitive(a[1..], b[1..], c[1..]);
    }
  }

  lemma {:induction false} LessIrreflexive(a: seq<int>)
    ensures !Less(a, a)
  {
    if a == [] {
    } else {
      LessIrreflexive(a[1..]);
    }
  }

  function Codes(s: string): (r: seq<int>)
    ensures |r| == |s|
  {
    seq(|s|, i requires 0 <= i < |s| => s[i] as int)
  }

  lemma CodesInjective(a: string, b: string)
    requires Codes(a) == Codes(b)
    ensures a == b
  {
    assert forall i :: 0 <= i < |a| ==> a[i] as int == Codes(a)[i] == Codes(b)[i] == b[i] as int;
  }

  /** Go's < on strings. */
  predicate StringLess(a: string, b: string) {
    Less(Codes(a), Codes(b))
  }

  function InsertString(x: string, xs: seq<string>): (r: seq<string>)
    ensures |r| == |xs| + 1
  {
    if xs == [] then [x]
    else if StringLess(xs[0], x) then [xs[0]] + InsertString(x, xs[1..])
    else [x] + xs
  }

  /** sort.Strings. */
  function SortStrings(xs: seq<string>): (r: seq<string>)
    ensures |r| == |xs|
  {
    if xs == [] then [] else InsertString(xs[0], SortStrings(xs[1..]))
  }

  lemma {:induction false} InsertIsAdded(x: string, xs: seq<string>)
    ensures multiset(InsertString(x, xs)) == multiset(xs) + multiset{x}
  {
    if xs == [] {
    } else {
      InsertIsAdded(x, xs[1..]);
      assert xs == [xs[0]] + xs[1..];
    }
  }

  lemma {:induction false} SortIsPermutation(xs: seq<string>)
    ensures multiset(SortStrings(xs)) == multiset(xs)
  {
    if xs == [] {
    } else {
      SortIsPermutation(xs[1..]);
      InsertIsAdded(xs[0], SortStrings(xs[1..]));
      assert xs == [xs[0]] + xs[1..];
    }
  }

  lemma StringsCompare(a: string, b: string)
    ensures a == b || StringLess(a, b) || StringLess(b, a)
    ensures !(StringLess(a, b) && StringLess(b, a)) && !StringLess(a, a)
  {
    LessTotal(Codes(a), Codes(b));
    LessIrreflexive(Codes(a));
    if Codes(a) == Codes(b) {
      CodesInjective(a, b);
    }
    if StringLess(a, b) && StringLess(b, a) {
      LessTransitive(Codes(a), Codes(b), Codes(a));
    }
  }

  /** Insertion does not depend on the order of insertions. */
  lemma {:induction false} InsertCommutes(x: string, y: string, xs: seq<string>)
    ensures InsertString(x, InsertString(y, xs)) == InsertString(y, InsertString(x, xs))
  {
    hide StringLess;
    StringsCompare(x, y);
    if xs == [] {
    } else {
      StringsCompare(x, xs[0]);
      StringsCompare(y, xs[0]);
      LessChains(x, y, xs[0]);
      LessChains(y, x, xs[0]);
      InsertCommutes(x, y, xs[1..]);
    }
  }

  lemma LessChains(x: string, y: string, z: string)
    ensures StringLess(x, y) && StringLess(y, z) ==> StringLess(x, z)
    ensures StringLess(x, z) && StringLess(z, y) ==> StringLess(x, y)
    ensures StringLess(z, x) && StringLess(x, y) ==> StringLess(z, y)
  {
    if StringLess(x, y) && StringLess(y, z) {
      LessTransitive(Codes(x), Codes(y), Codes(z));
    }
    if StringLess(x, z) && StringLess(z, y) {
      LessTransitive(Codes(x), Codes(z), Codes(y));
    }
    if StringLess(z, x) && StringLess(x, y) {
      LessTransitive(Codes(z), Codes(x), Codes(y));
    }
  }

  lemma {:induction false} SortMovesToFront(xs: seq<string>, k: nat)
    requires k < |xs|
    ensures SortStrings(xs) == InsertString(xs[k], SortStrings(xs[..k] + xs[k + 1..]))
    decreases k
  {
    hide InsertString;
    if k == 0 {
      assert xs[..0] + xs[1..] == xs[1..];
    } else {
      SortMovesToFront(xs[1..], k - 1);
      assert xs[1..][..k - 1] + xs[1..][k..] == xs[1..k] + xs[k + 1..];
      var cut := xs[..k] + xs[k + 1..];
      assert cut[0] == xs[0] && cut[1..] == xs[1..k] + xs[k + 1..];
      InsertCommutes(xs[0], xs[k], SortStrings(cut[1..]));
    }
  }

  lemma WithoutOne<T>(xs: seq<T>, k: nat)
    requires k < |xs|
    ensures multiset(xs[..k] + xs[k + 1..]) == multiset(xs) - multiset{xs[k]}
    ensures |xs[..k] + xs[k + 1..]| == |xs| - 1
  {
    assert xs == xs[..k] + [xs[k]] + xs[k + 1..];
  }

  lemma WithoutFirst<T>(xs: seq<T>)
    requires xs != []
    ensures multiset(xs[1..]) == multiset(xs) - multiset{xs[0]} && multiset(xs) == multiset{xs[0]} + multiset(xs[1..])
  {
    assert xs == [xs[0]] + xs[1..];
  }

  lemma SameSize<T>(xs: seq<T>, ys: seq<T>)
    requires multiset(xs) == multiset(ys)
    ensures |xs| == |ys|
  {
    assert |multiset(xs)| == |xs| && |multiset(ys)| == |ys|;
  }

  lemma PositionOf<T>(xs: seq<T>, x: T) returns (k: nat)
    requires x in multiset(xs)
    ensures k < |xs| && xs[k] == x
  {
    k :| 0 <= k < |xs| && xs[k] == x;
  }

  /** A list and one with an element taken out, put back at the front. */
  lemma PutFirst<T>(xs: seq<T>, k: nat, tail: seq<T>) returns (r: seq<T>)
    requires k < |xs| && multiset(tail) == multiset(xs[..k] + xs[k + 1..])
    ensures r == [xs[k]] + tail && r[1..] == tail && multiset(r) == multiset(xs)
  {
    r := [xs[k]] + tail;
    WithoutOne(xs, k);
  }

  /** Sorting forgets the order and nothing else. */
  lemma {:induction false} SortIffPermutation(xs: seq<string>, ys: seq<string>)
    ensures SortStrings(xs) == SortStrings(ys) <==> multiset(xs) == multiset(ys)
    decreases |xs|
  {
    hide InsertString;
    hide StringLess;
    SortIsPermutation(xs);
    SortIsPermutation(ys);
    if multiset(xs) == multiset(ys) {
      SameSize(xs, ys);
      if xs != [] {
        WithoutFirst(xs);
        var k := PositionOf(ys, xs[0]);
        SortMovesToFront(ys, k);
        WithoutOne(ys, k);
        SortIffPermutation(xs[1..], ys[..k] + ys[k + 1..]);
      }
    }
  }

  /** And it sorts: nothing stands behind a greater string. */
  lemma {:induction false} SortIsSorted(xs: seq<string>)
    ensures forall i, j :: 0 <= i < j < |xs| ==> !StringLess(SortStrings(xs)[j], SortStrings(xs)[i])
  {
    if xs == [] {
    } else {
      SortIsSorted(xs[1..]);
      InsertKeepsSorted(xs[0], SortStrings(xs[1..]));
    }
  }

  lemma NotLessChains(x: string, y: string, z: string)
    requires x == y || !StringLess(x, y)
    requires !StringLess(y, z)
    ensures !StringLess(x, z)
  {
    hide StringLess;
    LessChains(x, z, y);
    StringsCompare(y, z);
  }

  lemma {:induction false} InsertKeepsSorted(x: string, xs: seq<string>)
    requires forall i, j :: 0 <= i < j < |xs| ==> !StringLess(xs[j], xs[i])
    ensures forall i, j :: 0 <= i < j < |xs| + 1 ==> !StringLess(InsertString(x, xs)[j], InsertString(x, xs)[i])
  {
    hide StringLess;
    if xs == [] {
    } else if StringLess(xs[0], x) {
      InsertKeepsSorted(x, xs[1..]);
      var r := InsertString(x, xs[1..]);
      InsertIsAdded(x, xs[1..]);
      assert InsertString(x, xs) == [xs[0]] + r;
      StringsCompare(xs[0], x);
      forall j | 0 <= j < |r|
        ensures !StringLess(r[j], xs[0])
      {
        assert r[j] in multiset(r);
        if r[j] != x {
          assert r[j] in multiset(xs[1..]);
          var k := PositionOf(xs[1..], r[j]);
          assert xs[k + 1] == r[j];
        }
      }
    } else {
      StringsCompare(x, x);
      StringsCompare(x, xs[0]);
      forall j | 0 <= j < |xs|
        ensures !StringLess(xs[j], x)
      {
        NotLessChains(xs[j], xs[0], x);
      }
    }
  }

  // ---- single characters ----

  /** The white space of Unicode. */
  lemma SpacesAre(c: char)
    ensures IsSpace(c) <==>
              c as int in {9, 10, 11, 12, 13, 0x20, 0x85, 0xA0, 0x1680, 0x2000, 0x2001, 0x2002, 0x2003, 0x2004, 0x2005,
                           0x2006, 0x2007, 0x2008, 0x2009, 0x200A, 0x2028, 0x2029, 0x202F, 0x205F, 0x3000}
  {
  }

  /** Trimming takes white space off both ends and nothing else. */
  lemma {:induction false} TrimIs(s: string) returns (front: string, back: string)
    ensures s == front + TrimSpace(s) + back && Trimmed(TrimSpace(s))
    ensures (forall i :: 0 <= i < |front| ==> IsSpace(front[i])) && forall i :: 0 <= i < |back| ==> IsSpace(back[i])
    decreases |s|
  {
    hide IsSpace;
    front, back := "", "";
    if s == "" {
    } else if IsSpace(s[0]) {
      front, back := TrimIs(s[1..]);
      front := [s[0]] + front;
    } else if IsSpace(s[|s| - 1]) {
      front, back := TrimIs(s[..|s| - 1]);
      back := back + [s[|s| - 1]];
    }
  }

  const CAPITALS := "ABCDEFGHIJKLMNOPQRSTUVWXYZ"
  const SMALLS := "abcdefghijklmnopqrstuvwxyz"

  /** Case goes letter by letter, and leaves everything else alone. */
  lemma LowerIs(c: char)
    ensures forall i :: 0 <= i < 26 ==> LowerChar(CAPITALS[i]) == SMALLS[i]
    ensures c !in CAPITALS ==> LowerChar(c) == c
  {
    assert forall i :: 0 <= i < 26 ==> CAPITALS[i] as int == 65 + i && SMALLS[i] as int == 97 + i;
    if 'A' <= c <= 'Z' {
      assert CAPITALS[c as int - 65] == c;
    }
  }

  lemma UpperIs(c: char)
    ensures forall i :: 0 <= i < 26 ==> UpperChar(SMALLS[i]) == CAPITALS[i]
    ensures c !in SMALLS ==> UpperChar(c) == c
  {
    assert forall i :: 0 <= i < 26 ==> CAPITALS[i] as int == 65 + i && SMALLS[i] as int == 97 + i;
    if 'a' <= c <= 'z' {
      assert SMALLS[c as int - 97] == c;
    }
  }

  lemma CaseOf(s: string, i: nat)
    requires i < |s|
    ensures Lower(s)[i] == LowerChar(s[i]) && Upper(s)[i] == UpperChar(s[i])
  {
  }

  // ---- strconv.Quote ----

  /** unicode.IsPrint beyond ASCII, whose tables are the library's. */
  type Glyphs = char -> bool

  predicate Printable(g: Glyphs, c: char) {
    if c as int < 0x80 then ' ' <= c <= '~' else g(c)
  }

  function HexDigit(n: nat): (c: char)
    requires n < 16
    ensures '0' <= c <= '9' || 'a' <= c <= 'f'
  {
    if n < 10 then ('0' as int + n) as char else ('a' as int + n - 10) as char
  }

  function Hex4(n: nat): (s: string)
    requires n < 0x10000
    ensures |s| == 4
  {
    [HexDigit(n / 4096), HexDigit(n / 256 % 16), HexDigit(n / 16 % 16), HexDigit(n % 16)]
  }

  function HexValue(c: char): nat {
    if '0' <= c <= '9' then c as int - '0' as int else if 'a' <= c <= 'f' then c as int - 'a' as int + 10 else 0
  }

  lemma HexDigitValue(n: nat)
    requires n < 16
    ensures HexValue(HexDigit(n)) == n
  {
  }

  lemma Nibbles(n: nat)
    requires n < 0x10000
    ensures n == 16 * (16 * (16 * (n / 4096) + n / 256 % 16) + n / 16 % 16) + n % 16
  {
    assert n / 256 == 16 * (n / 4096) + n / 256 % 16;
    assert n / 16 == 16 * (n / 256) + n / 16 % 16;
  }

  /** What four hexadecimal digits stand for. */
  lemma Hex4Value(n: nat)
    requires n < 0x10000
    ensures var h := Hex4(n);
            n == 16 * (16 * (16 * HexValue(h[0]) + HexValue(h[1])) + HexValue(h[2])) + HexValue(h[3])
  {
    hide HexDigit;
    hide HexValue;
    HexDigitValue(n / 4096);
    HexDigitValue(n / 256 % 16);
    HexDigitValue(n / 16 % 16);
    HexDigitValue(n % 16);
    Nibbles(n);
  }

  lemma Hex4Injective(m: nat, n: nat)
    requires m < 0x10000 && n < 0x10000 && Hex4(m) == Hex4(n)
    ensures m == n
  {
    hide Hex4;
    hide HexValue;
    Hex4Value(m);
    Hex4Value(n);
  }

  /** appendEscapedRune. */
  function EscapeRune(g: Glyphs, c: char): (e: string)
    ensures |e| > 0
    ensures e[0] == '\\' || (e == [c] && c != '"' && c != '\\' && Printable(g, c))
    ensures e[0] == '\\' ==> |e| > 1
  {
    var r := c as int;
    if c == '"' || c == '\\' then ['\\', c]
    else if Printable(g, c) then [c]
    else if r == 7 then "\\a"
    else if r == 8 then "\\b"
    else if r == 12 then "\\f"
    else if r == 10 then "\\n"
    else if r == 13 then "\\r"
    else if r == 9 then "\\t"
    else if r == 11 then "\\v"
    else if r < 0x20 || r == 0x7F then "\\x" + Hex4(r)[2..]
    else if r < 0x10000 then "\\u" + Hex4(r)
    else "\\U" + Hex4(r / 0x10000) + Hex4(r % 0x10000)
  }

  function Escape(g: Glyphs, s: string): string {
    if s == "" then "" else EscapeRune(g, s[0]) + Escape(g, s[1..])
  }

  /** fmt's %q. */
  function Quote(g: Glyphs, s: string): string {
    "\"" + Escape(g, s) + "\""
  }

  /** Text that %q prints as it is. */
  predicate Plain(g: Glyphs, s: string) {
    forall i :: 0 <= i < |s| ==> s[i] != '"' && s[i] != '\\' && Printable(g, s[i])
  }

  lemma {:induction false} EscapePlain(g: Glyphs, s: string)
    ensures |Escape(g, s)| >= |s|
    ensures Escape(g, s) == s <==> Plain(g, s)
    ensures |Escape(g, s)| == |s| <==> Plain(g, s)
  {
    if s == "" {
    } else {
      EscapePlain(g, s[1..]);
      var e := EscapeRune(g, s[0]);
      assert s == [s[0]] + s[1..];
      assert Plain(g, s) <==> e == [s[0]] && Plain(g, s[1..]) by {
        assert forall i :: 0 <= i < |s[1..]| ==> s[1..][i] == s[i + 1];
        assert forall i :: 0 < i < |s| ==> s[i] == s[1..][i - 1];
      }
      assert |Escape(g, s)| == |e| + |Escape(g, s[1..])|;
    }
  }

  /** No escape is the front of another, so the runes of an escaped text can be told apart. */
  lemma EscapeRunePrefixFree(g: Glyphs, c: char, x: string, d: char, y: string)
    requires EscapeRune(g, c) + x == EscapeRune(g, d) + y
    ensures c == d && x == y
  {
    var e, f := EscapeRune(g, c), EscapeRune(g, d);
    var t := e + x;
    SameKind(g, c, x, d, y);
    assert |e| == |f|;
    assert e == t[..|e|] == f;
    assert x == t[|e|..] == y;
    SameEscape(g, c, d);
  }

  lemma SameKind(g: Glyphs, c: char, x: string, d: char, y: string)
    requires EscapeRune(g, c) + x == EscapeRune(g, d) + y
    ensures |EscapeRune(g, c)| == |EscapeRune(g, d)|
  {
    var e, f := EscapeRune(g, c), EscapeRune(g, d);
    assert e[0] == (e + x)[0] && f[0] == (f + y)[0];
    if e[0] == '\\' {
      assert e[1] == (e + x)[1] && f[1] == (f + y)[1];
    }
  }

  lemma SameEscape(g: Glyphs, c: char, d: char)
    requires EscapeRune(g, c) == EscapeRune(g, d)
    ensures c == d
  {
    hide Hex4;
    var e := EscapeRune(g, c);
    if |e| == 4 {
      TwoHexDigits(c as int);
      TwoHexDigits(d as int);
      assert e[2..] == Hex4(c as int)[2..] && e[2..] == Hex4(d as int)[2..];
      Hex4Injective(c as int, d as int);
    } else if |e| == 6 {
      assert e[2..] == Hex4(c as int) && e[2..] == Hex4(d as int);
      Hex4Injective(c as int, d as int);
    } else if |e| == 10 {
      SameLongEscape(e, c as int, d as int);
    }
  }

  lemma SameLongEscape(e: string, m: nat, n: nat)
    requires m < 0x110000 && n < 0x110000
    requires e == "\\U" + Hex4(m / 0x10000) + Hex4(m % 0x10000)
    requires e == "\\U" + Hex4(n / 0x10000) + Hex4(n % 0x10000)
    ensures m == n
  {
    hide Hex4;
    assert e[2..6] == Hex4(m / 0x10000) && e[2..6] == Hex4(n / 0x10000);
    assert e[6..] == Hex4(m % 0x10000) && e[6..] == Hex4(n % 0x10000);
    Hex4Injective(m / 0x10000, n / 0x10000);
    Hex4Injective(m % 0x10000, n % 0x10000);
  }

  lemma TwoHexDigits(r: nat)
    requires r < 0x80
    ensures Hex4(r) == "00" + Hex4(r)[2..]
  {
  }

  /** A quoted text ends where it says it ends, whatever follows it. */
  lemma {:induction false} QuotePrefixFree(g: Glyphs, a: string, x: string, b: string, y: string)
    requires Quote(g, a) + x == Quote(g, b) + y
    ensures a == b && x == y
  {
    hide Escape;
    hide EscapeRune;
    var ta, tb := Escape(g, a) + "\"" + x, Escape(g, b) + "\"" + y;
    assert Quote(g, a) + x == "\"" + ta && Quote(g, b) + y == "\"" + tb;
    assert ta == ("\"" + ta)[1..] == tb;
    EscapePrefixFree(g, a, x, b, y);
  }

  lemma {:induction false} EscapePrefixFree(g: Glyphs, a: string, x: string, b: string, y: string)
    requires Escape(g, a) + "\"" + x == Escape(g, b) + "\"" + y
    ensures a == b && x == y
  {
    hide EscapeRune;
    if a == "" || b == "" {
      EscapeStops(g, a, x);
      EscapeStops(g, b, y);
      assert "" + "\"" + x == "\"" + x && "" + "\"" + y == "\"" + y;
      assert a == b;
      assert x == ("\"" + x)[1..] && y == ("\"" + y)[1..];
    } else {
      var ra, rb := Escape(g, a[1..]) + "\"" + x, Escape(g, b[1..]) + "\"" + y;
      assert Escape(g, a) + "\"" + x == EscapeRune(g, a[0]) + ra;
      assert Escape(g, b) + "\"" + y == EscapeRune(g, b[0]) + rb;
      EscapeRunePrefixFree(g, a[0], ra, b[0], rb);
      EscapePrefixFree(g, a[1..], x, b[1..], y);
      assert a == [a[0]] + a[1..] && b == [b[0]] + b[1..];
    }
  }

  lemma EscapeStops(g: Glyphs, a: string, x: string)
    ensures (Escape(g, a) + "\"" + x)[0] == '"' <==> a == ""
  {
    hide EscapeRune;
    if a != "" {
      assert (Escape(g, a) + "\"" + x)[0] == EscapeRune(g, a[0])[0];
    }
  }

  /** %q never prints a line break, whatever it is given. */
  lemma {:induction false} QuoteHasNoBreak(g: Glyphs, s: string)
    ensures '\n' !in Quote(g, s)
  {
    EscapeHasNoBreak(g, s);
  }

  lemma {:induction false} EscapeHasNoBreak(g: Glyphs, s: string)
    ensures '\n' !in Escape(g, s)
  {
    if s == "" {
    } else {
      EscapeHasNoBreak(g, s[1..]);
      assert '\n' !in EscapeRune(g, s[0]);
    }
  }

  const HEX := "0123456789abcdef"

  lemma HexDigitIs(n: nat)
    requires n < 16
    ensures HexDigit(n) == HEX[n]
  {
  }

  /** Four hexadecimal digits, in lower case. */
  lemma Hex4Is(n: nat)
    requires n < 0x10000
    ensures Hex4(n) == [HEX[n / 4096], HEX[n / 256 % 16], HEX[n / 16 % 16], HEX[n % 16]]
  {
    hide HexDigit;
    HexDigitIs(n / 4096);
    HexDigitIs(n / 256 % 16);
    HexDigitIs(n / 16 % 16);
    HexDigitIs(n % 16);
  }

  /** A quoted text is what each of its characters is printed as, in order. */
  lemma {:induction false} EscapeAcross(g: Glyphs, s: string, t: string)
    ensures Escape(g, s + t) == Escape(g, s) + Escape(g, t)
    decreases |s|
  {
    hide EscapeRune;
    if s == "" {
      assert s + t == t;
    } else {
      assert (s + t)[1..] == s[1..] + t;
      EscapeAcross(g, s[1..], t);
    }
  }

  lemma EscapeOne(g: Glyphs, c: char)
    ensures Escape(g, [c]) == EscapeRune(g, c)
  {
    hide EscapeRune;
    assert [c][1..] == "" && Escape(g, "") == "";
  }

  /** How %q prints the characters that have an escape of their own, and those that stand as themselves. */
  lemma EscapeIs(g: Glyphs, c: char)
    ensures c in "\"\\" ==> Escape(g, [c]) == ['\\', c]
    ensures c !in "\"\\" && (if c as int < 0x80 then ' ' <= c <= '~' else g(c)) ==> Escape(g, [c]) == [c]
    ensures 7 <= c as int <= 13 ==> Escape(g, [c]) == ['\\', "abtnvfr"[c as int - 7]]
  {
    EscapeOne(g, c);
    hide Hex4;
    hide Escape;
  }

  /** How %q prints the others: by their code point, in two, four or eight digits. */
  lemma EscapeByCode(g: Glyphs, c: char)
    requires !(7 <= c as int <= 13) && !(if c as int < 0x80 then ' ' <= c <= '~' else g(c))
    ensures c as int < 0x80 ==> Escape(g, [c]) == "\\x" + [HEX[c as int / 16], HEX[c as int % 16]]
    ensures 0x80 <= c as int < 0x10000 ==> Escape(g, [c]) == "\\u" + Hex4(c as int)
    ensures c as int >= 0x10000 ==> Escape(g, [c]) == "\\U" + Hex4(c as int / 0x10000) + Hex4(c as int % 0x10000)
  {
    EscapeOne(g, c);
    hide Hex4;
    hide Escape;
    if c as int < 0x80 {
      Hex4Is(c as int);
      assert c as int / 16 % 16 == c as int / 16;
    }
  }
}
