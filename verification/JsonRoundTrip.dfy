/** The strict parser undoes the canonical printer, so canonical texts and values correspond. */
module JsonRoundTrip {
  import opened Decimal
  import opened Text
  import opened Utf16
  import opened CanonicalJson
  import opened StrictJson

  /** A value as the JavaScript parser holds it. */
  function ToJs(v: Json): Js
    decreases v
  {
    match v
    case Null => JsNull
    case Bool(b) => JsBool(b)
    case Int(i) => JsNum(Encoded(PrintInt(i)))
    case Str(s) => JsStr(Encoded(s))
    case Arr(items) => JsArr(ToJsItems(items))
    case Obj(members) => JsObj(ToJsMembers(members))
  }

  function ToJsItems(items: seq<Json>): (r: seq<Js>)
    ensures |r| == |items|
    decreases items
  {
    seq(|items|, i requires 0 <= i < |items| => ToJs(items[i]))
  }

  function ToJsMembers(ms: seq<Member>): (r: seq<JsMember>)
    ensures |r| == |ms|
    decreases ms
  {
    seq(|ms|, i requires 0 <= i < |ms| => JsMember(Encoded(ms[i].name), ToJs(ms[i].value)))
  }

  // ---------------------------------------------------------------- strings

  predicate Bmp(s: string) {
    forall i :: 0 <= i < |s| ==> s[i] as int < 0x10000
  }

  lemma {:induction false} EncodedBmp(s: string)
    requires Bmp(s)
    ensures |Encoded(s)| == |s| && forall i :: 0 <= i < |s| ==> Encoded(s)[i] == s[i] as int
  {
    if s == "" {
    } else {
      EncodedBmp(s[1..]);
      assert forall i :: 0 < i < |s| ==> s[i] == s[1..][i - 1];
    }
  }

  lemma HexDigitUnit(n: nat)
    requires n < 16
    ensures HexUnit(HexDigit(n) as int) == Some(n)
  {
  }

  /** \u00xx stands for its control character. */
  lemma HexBack(n: nat, t: Units)
    requires n < 0x10000
    ensures HexValue4(Encoded(Hex4(n)) + t) == Some(n)
  {
    hide HexDigit;
    hide HexUnit;
    var h := Hex4(n);
    assert Bmp(h);
    EncodedBmp(h);
    HexDigitUnit(n / 4096);
    HexDigitUnit(n / 256 % 16);
    HexDigitUnit(n / 16 % 16);
    HexDigitUnit(n % 16);
    Nibbles(n);
    var u := Encoded(h) + t;
    assert u[0] == h[0] as int && u[1] == h[1] as int && u[2] == h[2] as int && u[3] == h[3] as int;
  }

  lemma SimpleBack(c: char, e: char, t: Units, out: Units)
    requires c as int < 0x10000 && e as int < 0x10000 && Simple(e as int) == Some(c as int)
    ensures StringRest(Encoded(['\\', e]) + t, out) == StringRest(t, out + CharUnits(c))
  {
    EncodedBmp(['\\', e]);
    var u := Encoded(['\\', e]) + t;
    assert u[0] == 0x5C && u[1] == e as int && u[2..] == t;
  }

  lemma ControlBack(c: char, t: Units, out: Units)
    requires c as int < 0x20
    ensures StringRest(Encoded("\\u" + Hex4(c as int)) + t, out) == StringRest(t, out + CharUnits(c))
  {
    hide HexValue4;
    hide Hex4;
    var h := Encoded(Hex4(c as int));
    EncodedAppend("\\u", Hex4(c as int));
    EncodedBmp("\\u");
    HexBack(c as int, t);
    HexLength(c as int);
    var u := Encoded("\\u" + Hex4(c as int)) + t;
    assert u[0] == 0x5C && u[1] == 0x75 && u[2..] == h + t && u[6..] == t;
  }

  lemma HexLength(n: nat)
    requires n < 0x10000
    ensures |Encoded(Hex4(n))| == 4
  {
    assert Bmp(Hex4(n));
    EncodedBmp(Hex4(n));
  }

  lemma PlainBack(c: char, t: Units, out: Units)
    requires c as int >= 0x20 && c != '"' && c != '\\'
    ensures StringRest(CharUnits(c) + t, out) == StringRest(t, out + CharUnits(c))
  {
    var u := CharUnits(c);
    if |u| == 1 {
      assert (u + t)[1..] == t;
    } else {
      assert (u + t)[1..] == u[1..] + t && (u[1..] + t)[1..] == t;
      assert out + [u[0]] + [u[1]] == out + u;
    }
  }

  /** Every character's escape is read as its own code units. */
  lemma CharBack(c: char, t: Units, out: Units)
    ensures StringRest(Encoded(EscapeChar(c)) + t, out) == StringRest(t, out + CharUnits(c))
  {
    hide StringRest;
    hide Encoded;
    hide Hex4;
    hide CharUnits;
    if EscapeChar(c) == [c] {
      EncodedOne(c);
      PlainBack(c, t, out);
    } else if |EscapeChar(c)| == 2 {
      var e := EscapeChar(c)[1];
      assert EscapeChar(c) == ['\\', e];
      SimpleBack(c, e, t, out);
    } else {
      ControlBack(c, t, out);
    }
  }

  lemma EncodedOne(c: char)
    ensures Encoded([c]) == CharUnits(c)
  {
    assert [c][1..] == "";
  }

  lemma {:induction false} CharsBack(s: string, t: Units, out: Units)
    ensures StringRest(Encoded(EscapeAll(s)) + t, out) == StringRest(t, out + Encoded(s))
  {
    hide StringRest;
    hide CharUnits;
    hide EscapeChar;
    if s == "" {
      assert Encoded(EscapeAll(s)) + t == t && out + Encoded(s) == out;
    } else {
      var head, tail := EscapeChar(s[0]), EscapeAll(s[1..]);
      EncodedAppend(head, tail);
      assert Encoded(EscapeAll(s)) + t == Encoded(head) + (Encoded(tail) + t);
      CharBack(s[0], Encoded(tail) + t, out);
      CharsBack(s[1..], t, out + CharUnits(s[0]));
      assert out + CharUnits(s[0]) + Encoded(s[1..]) == out + Encoded(s);
    }
  }

  const QUOTE: Units := [0x22]

  /** A printed string is read back whole. */
  lemma StringBack(s: string, rest: Units)
    ensures Encoded(StringText(s)) == QUOTE + (Encoded(EscapeAll(s)) + QUOTE)
    ensures StringRest(Encoded(EscapeAll(s)) + QUOTE + rest, []) == Got(Encoded(s), rest)
  {
    hide EscapeAll;
    EncodedAppend("\"" + EscapeAll(s), "\"");
    EncodedAppend("\"", EscapeAll(s));
    EncodedBmp("\"");
    var t := QUOTE + rest;
    assert Encoded(EscapeAll(s)) + QUOTE + rest == Encoded(EscapeAll(s)) + t;
    CharsBack(s, t, []);
    assert [] + Encoded(s) == Encoded(s);
    assert t[0] == 0x22 && t[1..] == rest;
    WellFormedEncoded(s);
  }

  // ---------------------------------------------------------------- numbers

  /** What may follow a value in a canonical text. */
  predicate Delimited(rest: Units) {
    rest == [] || rest[0] == 0x2C || rest[0] == 0x5D || rest[0] == 0x7D
  }

  lemma {:induction false} DigitsCounted(d: Units, rest: Units)
    requires forall i :: 0 <= i < |d| ==> Digit(d[i])
    requires rest == [] || !Digit(rest[0])
    ensures DigitCount(d + rest) == |d|
  {
    if d == [] {
      assert d + rest == rest;
    } else {
      assert (d + rest)[1..] == d[1..] + rest;
      DigitsCounted(d[1..], rest);
    }
  }

  lemma NumeralUnits(n: nat)
    ensures var d := Encoded(Print(n));
            && |d| == |Print(n)| > 0 && (forall i :: 0 <= i < |d| ==> Digit(d[i])) && (d[0] == 0x30 ==> |d| == 1)
  {
    var s := Print(n);
    assert Bmp(s) by {
      assert forall i :: 0 <= i < |s| ==> IsDigit(s[i]);
    }
    EncodedBmp(s);
    assert forall i :: 0 <= i < |s| ==> IsDigit(s[i]);
  }

  lemma NaturalBack(d: Units, rest: Units)
    requires |d| > 0 && (forall i :: 0 <= i < |d| ==> Digit(d[i])) && (d[0] == 0x30 ==> |d| == 1)
    requires Delimited(rest)
    ensures IntegerLength(d + rest) == |d| && !Is(d + rest, '-')
  {
    hide DigitCount;
    DigitsCounted(d, rest);
    assert (d + rest)[0..] == d + rest && (d + rest)[0] == d[0];
  }

  lemma SignedBack(d: Units, rest: Units)
    requires |d| > 0 && (forall i :: 0 <= i < |d| ==> Digit(d[i])) && (d[0] == 0x30 ==> |d| == 1)
    requires Delimited(rest)
    ensures IntegerLength([0x2D] + d + rest) == 1 + |d|
  {
    hide DigitCount;
    DigitsCounted(d, rest);
    var t := [0x2D] + d + rest;
    assert t[1..] == d + rest && (d + rest)[0] == d[0];
  }

  lemma NoFractionNoExponent(rest: Units)
    requires Delimited(rest)
    ensures FractionLength(rest) == 0 && ExponentLength(rest) == 0
  {
  }

  /** An integer's numeral is read back as itself, up to the delimiter. */
  lemma NumberBack(i: int, rest: Units)
    requires Delimited(rest)
    ensures NumberAt(Encoded(PrintInt(i)) + rest) == Got(JsNum(Encoded(PrintInt(i))), rest)
    ensures |Encoded(PrintInt(i))| > 0 && var u := Encoded(PrintInt(i))[0]; u == 0x2D || Digit(u)
  {
    hide FractionLength;
    hide ExponentLength;
    hide IntegerLength;
    hide Print;
    var n: nat := if i < 0 then -i else i;
    var d := Encoded(Print(n));
    NumeralUnits(n);
    var u := Encoded(PrintInt(i));
    if i < 0 {
      EncodedAppend("-", Print(n));
      EncodedBmp("-");
      assert u == [0x2D] + d;
      SignedBack(d, rest);
    } else {
      NaturalBack(d, rest);
    }
    NoFractionNoExponent(rest);
    assert (u + rest)[|u|..] == rest && (u + rest)[..|u|] == u;
  }

  // ---------------------------------------------------------------- values

  /** The first unit of a printed value is no white space and closes nothing. */
  predicate Opens(t: Units) {
    t != [] && !IsWs(t[0]) && t[0] != 0x5D && t[0] != 0x7D
  }

  lemma LiteralUnits()
    ensures Encoded("null") == [0x6E, 0x75, 0x6C, 0x6C]
    ensures Encoded("true") == [0x74, 0x72, 0x75, 0x65]
    ensures Encoded("false") == [0x66, 0x61, 0x6C, 0x73, 0x65]
  {
    hide Encoded;
    EncodedBmp("null");
    EncodedBmp("true");
    EncodedBmp("false");
  }

  lemma MarkUnits()
    ensures Encoded("[") == [0x5B] && Encoded("]") == [0x5D] && Encoded("{") == [0x7B] && Encoded("}") == [0x7D]
    ensures Encoded(",") == [0x2C] && Encoded(":") == [0x3A]
  {
    EncodedOne('[');
    EncodedOne(']');
    EncodedOne('{');
    EncodedOne('}');
    EncodedOne(',');
    EncodedOne(':');
  }

  /** Which part of the parser a text's first unit leads to. */
  lemma ScalarTurn(t: Units)
    requires t != [] && !IsWs(t[0]) && t[0] != 0x7B && t[0] != 0x5B && t[0] != 0x22
    ensures ValueAt(t) == if t[0] == 0x2D || Digit(t[0]) then NumberAt(t) else Literal(t)
  {
    hide NumberAt;
    hide StringRest;
    hide ItemsAt;
    hide MembersAt;
    hide Literal;
    CloserStays(t);
  }

  lemma LiteralRead(t: Units)
    ensures [0x74, 0x72, 0x75, 0x65] <= t ==> Literal(t) == Got(JsBool(true), t[4..])
    ensures [0x66, 0x61, 0x6C, 0x73, 0x65] <= t ==> Literal(t) == Got(JsBool(false), t[5..])
    ensures [0x6E, 0x75, 0x6C, 0x6C] <= t ==> Literal(t) == Got(JsNull, t[4..])
  {
    hide Encoded;
    LiteralUnits();
    assert Encoded("true") <= t ==> t[0] == 0x74;
    assert Encoded("false") <= t ==> t[0] == 0x66;
    assert Encoded("null") <= t ==> t[0] == 0x6E;
  }

  lemma LiteralBack(v: Json, rest: Units)
    requires v.Null? || v.Bool?
    ensures ValueAt(Encoded(Written(v)) + rest) == Got(ToJs(v), rest) && Opens(Encoded(Written(v)))
  {
    hide Encoded;
    hide Literal;
    hide ValueAt;
    hide NumberAt;
    LiteralUnits();
    var u := Encoded(Written(v));
    var t := u + rest;
    assert t[0] == u[0] && t[|u|..] == rest && u <= t;
    ScalarTurn(t);
    LiteralRead(t);
  }

  lemma IntegerBack(i: int, rest: Units)
    requires Delimited(rest)
    ensures ValueAt(Encoded(Written(Int(i))) + rest) == Got(ToJs(Int(i)), rest) && Opens(Encoded(Written(Int(i))))
  {
    hide Encoded;
    hide ValueAt;
    hide NumberAt;
    hide Literal;
    hide PrintInt;
    NumberBack(i, rest);
    var u := Encoded(PrintInt(i));
    assert (u + rest)[0] == u[0];
    ScalarTurn(u + rest);
  }

  lemma TextBack(x: string, rest: Units)
    ensures ValueAt(Encoded(Written(Str(x))) + rest) == Got(ToJs(Str(x)), rest) && Opens(Encoded(Written(Str(x))))
  {
    hide Encoded;
    hide NumberAt;
    hide StringRest;
    hide Literal;
    hide ItemsAt;
    hide MembersAt;
    hide EscapeAll;
    StringBack(x, rest);
    var u := Encoded(StringText(x));
    var body := Encoded(EscapeAll(x)) + QUOTE + rest;
    assert u + rest == QUOTE + body && (u + rest)[1..] == body && (u + rest)[0] == 0x22;
    assert SkipWs(u + rest) == u + rest;
  }

  lemma OpensStays(t: Units, rest: Units)
    requires Opens(t)
    ensures SkipWs(t + rest) == t + rest && !Is(t + rest, ']') && !Is(t + rest, '}')
  {
    assert (t + rest)[0] == t[0];
  }

  lemma CloserStays(t: Units)
    requires t != [] && !IsWs(t[0])
    ensures SkipWs(t) == t
  {
  }

  /** Every written value is read back as itself, and the reader stops where it stops. */
  lemma {:induction false} ValueBack(v: Json, rest: Units)
    requires WellFormed(v) && Delimited(rest)
    ensures ValueAt(Encoded(Written(v)) + rest) == Got(ToJs(v), rest) && Opens(Encoded(Written(v)))
    decreases v, 0
  {
    hide *;
    match v
    case Null => LiteralBack(v, rest);
    case Bool(_) => LiteralBack(v, rest);
    case Int(i) => IntegerBack(i, rest);
    case Str(x) => TextBack(x, rest);
    case Arr(items) =>
      ItemsAreWellFormed(v);
      if items != [] {
        ItemsBack(items, [], rest);
      }
      ArrayBack(items, rest);
    case Obj(members) =>
      ItemsAreWellFormed(v);
      if members != [] {
        NoNames(members);
        MembersBack(members, [], rest);
      }
      ObjectBack(members, rest);
  }

  lemma ItemsAreWellFormed(v: Json)
    requires WellFormed(v)
    ensures v.Arr? ==> forall i :: 0 <= i < |v.items| ==> WellFormed(v.items[i])
    ensures v.Obj? ==> Distinct(v.members) && forall i :: 0 <= i < |v.members| ==> WellFormed(v.members[i].value)
  {
  }

  lemma ArrUnits(items: seq<Json>)
    ensures Encoded(Written(Arr(items))) == [0x5B] + Encoded(WrittenItems(items)) + [0x5D]
  {
    hide Encoded;
    hide WrittenItems;
    EncodedAppend("[" + WrittenItems(items), "]");
    EncodedAppend("[", WrittenItems(items));
    MarkUnits();
  }

  lemma ObjUnits(ms: seq<Member>)
    ensures Encoded(Written(Obj(ms))) == [0x7B] + Encoded(WrittenMembers(ms)) + [0x7D]
  {
    hide Encoded;
    hide WrittenMembers;
    EncodedAppend("{" + WrittenMembers(ms), "}");
    EncodedAppend("{", WrittenMembers(ms));
    MarkUnits();
  }

  lemma ArrayBack(items: seq<Json>, rest: Units)
    requires items != [] ==>
               ItemsAt(Encoded(WrittenItems(items)) + [0x5D] + rest, []) == Got(JsArr([] + ToJsItems(items)), rest)
               && Opens(Encoded(WrittenItems(items)))
    ensures ValueAt(Encoded(Written(Arr(items))) + rest) == Got(ToJs(Arr(items)), rest)
    ensures Opens(Encoded(Written(Arr(items))))
  {
    hide Encoded;
    hide WrittenItems;
    hide ItemsAt;
    hide MembersAt;
    hide SkipWs;
    hide ToJs;
    hide StringRest;
    hide NumberAt;
    hide Literal;
    hide Written;
    ArrUnits(items);
    var inner := Encoded(WrittenItems(items));
    var t := inner + [0x5D] + rest;
    var u := Encoded(Written(Arr(items))) + rest;
    assert u == [0x5B] + t && u[1..] == t && u[0] == 0x5B;
    CloserStays(u);
    ToJsArr(items);
    if items == [] {
      EmptyItems();
      assert t == [0x5D] + rest && t[1..] == rest && t[0] == 0x5D;
      CloserStays(t);
    } else {
      assert t == inner + ([0x5D] + rest);
      OpensStays(inner, [0x5D] + rest);
    }
  }

  lemma ToJsArr(items: seq<Json>)
    ensures ToJs(Arr(items)) == JsArr([] + ToJsItems(items))
    ensures items == [] ==> ToJs(Arr(items)) == JsArr([])
  {
    assert [] + ToJsItems(items) == ToJsItems(items);
  }

  lemma ToJsObj(ms: seq<Member>)
    ensures ToJs(Obj(ms)) == JsObj([] + ToJsMembers(ms))
    ensures ms == [] ==> ToJs(Obj(ms)) == JsObj([])
  {
    assert [] + ToJsMembers(ms) == ToJsMembers(ms);
  }

  lemma EmptyItems()
    ensures Encoded(WrittenItems([])) == [] && Encoded(WrittenMembers([])) == []
  {
  }

  lemma ObjectBack(ms: seq<Member>, rest: Units)
    requires ms != [] ==>
               MembersAt(Encoded(WrittenMembers(ms)) + [0x7D] + rest, []) == Got(JsObj([] + ToJsMembers(ms)), rest)
               && Opens(Encoded(WrittenMembers(ms)))
    ensures ValueAt(Encoded(Written(Obj(ms))) + rest) == Got(ToJs(Obj(ms)), rest)
    ensures Opens(Encoded(Written(Obj(ms))))
  {
    hide Encoded;
    hide WrittenMembers;
    hide ItemsAt;
    hide MembersAt;
    hide SkipWs;
    hide ToJs;
    hide StringRest;
    hide NumberAt;
    hide Literal;
    hide Written;
    ObjUnits(ms);
    var inner := Encoded(WrittenMembers(ms));
    var t := inner + [0x7D] + rest;
    var u := Encoded(Written(Obj(ms))) + rest;
    assert u == [0x7B] + t && u[1..] == t && u[0] == 0x7B;
    CloserStays(u);
    ToJsObj(ms);
    if ms == [] {
      EmptyItems();
      assert t == [0x7D] + rest && t[1..] == rest && t[0] == 0x7D;
      CloserStays(t);
    } else {
      assert t == inner + ([0x7D] + rest);
      OpensStays(inner, [0x7D] + rest);
    }
  }

  /** Items behind one another, then the bracket. */
  lemma {:induction false} ItemsBack(items: seq<Json>, done: seq<Js>, rest: Units)
    requires items != [] && forall i :: 0 <= i < |items| ==> WellFormed(items[i])
    ensures ItemsAt(Encoded(WrittenItems(items)) + [0x5D] + rest, done) == Got(JsArr(done + ToJsItems(items)), rest)
    ensures Opens(Encoded(WrittenItems(items)))
    decreases items, 1
  {
    hide *;
    var more := if |items| == 1 then [] else [0x2C] + Encoded(WrittenItems(items[1..]));
    var after := more + [0x5D] + rest;
    DelimitedTail(more, rest, 0x5D);
    ValueBack(items[0], after);
    if |items| <= 1 {
    } else {
      ItemsBack(items[1..], done + [ToJs(items[0])], rest);
    }
    ItemStep(items, done, rest);
  }

  lemma DelimitedTail(more: Units, rest: Units, close: Unit)
    requires (more == [] || more[0] == 0x2C) && (close == 0x5D || close == 0x7D)
    ensures Delimited(more + [close] + rest)
  {
    assert (more + [close] + rest)[0] == if more == [] then close else more[0];
  }

  lemma ItemsText(items: seq<Json>)
    requires items != []
    ensures WrittenItems(items) == Written(items[0]) + (if |items| == 1 then "" else "," + WrittenItems(items[1..]))
  {
    hide Written;
  }

  lemma ItemsUnits(items: seq<Json>)
    requires items != []
    ensures Encoded(WrittenItems(items))
         == Encoded(Written(items[0])) + (if |items| == 1 then [] else [0x2C] + Encoded(WrittenItems(items[1..])))
  {
    hide Encoded;
    hide Written;
    hide WrittenItems;
    ItemsText(items);
    EncodedAppend(Written(items[0]), if |items| == 1 then "" else "," + WrittenItems(items[1..]));
    MarkUnits();
    if |items| > 1 {
      EncodedAppend(",", WrittenItems(items[1..]));
    }
    EncodedNothing();
  }

  lemma ItemsJs(items: seq<Json>)
    requires items != []
    ensures ToJsItems(items) == [ToJs(items[0])] + ToJsItems(items[1..])
  {
    hide ToJs;
  }

  lemma EncodedNothing()
    ensures Encoded("") == []
  {
  }

  /** What stands after an item or a member: a comma and the next, or the closing unit. */
  lemma TailShape(tail: Units, rest: Units, close: Unit, last: bool)
    requires close == 0x5D || close == 0x7D
    ensures var after := (if last then [] else [0x2C] + tail) + [close] + rest;
            && after != [] && SkipWs(after) == after
            && (last ==> after[0] == close && after[1..] == rest)
            && (!last ==> after[0] == 0x2C && after[1..] == tail + [close] + rest)
  {
    var after := (if last then [] else [0x2C] + tail) + [close] + rest;
    if last {
      assert after == [close] + rest;
    } else {
      assert after == [0x2C] + (tail + [close] + rest);
    }
    CloserStays(after);
  }

  /** ItemsAt, one turn. */
  lemma ItemsTurn(t: Units, done: seq<Js>, v: Js, after: Units)
    requires ValueAt(t) == Got(v, after) && SkipWs(after) == after
    ensures Is(after, ',') ==> ItemsAt(t, done) == ItemsAt(after[1..], done + [v])
    ensures Is(after, ']') ==> ItemsAt(t, done) == Got(JsArr(done + [v]), after[1..])
  {
    hide ValueAt;
    hide SkipWs;
  }

  lemma Reassociated(head: Units, more: Units, close: Unit, rest: Units)
    ensures head + more + [close] + rest == head + (more + [close] + rest)
  {
  }

  lemma Joined<T>(done: seq<T>, one: T, others: seq<T>)
    ensures done + ([one] + others) == done + [one] + others
    ensures others == [] ==> done + ([one] + others) == done + [one]
  {
  }

  lemma ItemStep(items: seq<Json>, done: seq<Js>, rest: Units)
    requires items != []
    requires var more := if |items| == 1 then [] else [0x2C] + Encoded(WrittenItems(items[1..]));
             var after := more + [0x5D] + rest;
             && ValueAt(Encoded(Written(items[0])) + after) == Got(ToJs(items[0]), after)
             && Opens(Encoded(Written(items[0])))
    requires |items| > 1 ==>
               ItemsAt(Encoded(WrittenItems(items[1..])) + [0x5D] + rest, done + [ToJs(items[0])])
               == Got(JsArr(done + [ToJs(items[0])] + ToJsItems(items[1..])), rest)
    ensures ItemsAt(Encoded(WrittenItems(items)) + [0x5D] + rest, done) == Got(JsArr(done + ToJsItems(items)), rest)
    ensures Opens(Encoded(WrittenItems(items)))
  {
    hide Encoded;
    hide Written;
    hide WrittenItems;
    hide ToJs;
    hide ToJsItems;
    hide ValueAt;
    hide SkipWs;
    hide ItemsAt;
    ItemsUnits(items);
    ItemsJs(items);
    var head, tail := Encoded(Written(items[0])), Encoded(WrittenItems(items[1..]));
    var more := if |items| == 1 then [] else [0x2C] + tail;
    var after := more + [0x5D] + rest;
    assert Encoded(WrittenItems(items))[0] == head[0];
    Reassociated(head, more, 0x5D, rest);
    TailShape(tail, rest, 0x5D, |items| == 1);
    ItemsTurn(head + after, done, ToJs(items[0]), after);
    Joined(done, ToJs(items[0]), ToJsItems(items[1..]));
    NoItems(items[1..]);
  }

  lemma NoItems(items: seq<Json>)
    ensures items == [] ==> ToJsItems(items) == []
  {
  }

  // ---------------------------------------------------------------- members

  /** None of the names still to come was read before. */
  ghost predicate Fresh(ms: seq<Member>, done: seq<JsMember>) {
    forall i :: 0 <= i < |ms| ==> !HasName(done, Encoded(ms[i].name))
  }

  lemma NoNames(ms: seq<Member>)
    ensures Fresh(ms, [])
  {
  }

  lemma FreshTail(ms: seq<Member>, done: seq<JsMember>)
    requires ms != [] && Distinct(ms) && Fresh(ms, done)
    ensures Distinct(ms[1..]) && Fresh(ms[1..], done + [JsMember(Encoded(ms[0].name), ToJs(ms[0].value))])
  {
    hide ToJs;
    hide Encoded;
    var all := done + [JsMember(Encoded(ms[0].name), ToJs(ms[0].value))];
    forall i | 0 <= i < |ms[1..]|
      ensures !HasName(all, Encoded(ms[1..][i].name))
    {
      assert ms[1..][i] == ms[i + 1] && ms[0].name != ms[i + 1].name;
      if Encoded(ms[0].name) == Encoded(ms[i + 1].name) {
        EncodedInjective(ms[0].name, ms[i + 1].name);
      }
      assert !HasName(done, Encoded(ms[i + 1].name));
    }
  }

  lemma {:induction false} MembersBack(ms: seq<Member>, done: seq<JsMember>, rest: Units)
    requires ms != [] && Distinct(ms) && Fresh(ms, done) && forall i :: 0 <= i < |ms| ==> WellFormed(ms[i].value)
    ensures MembersAt(Encoded(WrittenMembers(ms)) + [0x7D] + rest, done)
         == Got(JsObj(done + ToJsMembers(ms)), rest)
    ensures Opens(Encoded(WrittenMembers(ms)))
    decreases ms, 1
  {
    hide *;
    var more := if |ms| == 1 then [] else [0x2C] + Encoded(WrittenMembers(ms[1..]));
    var after := more + [0x7D] + rest;
    DelimitedTail(more, rest, 0x7D);
    assert ms[0].value < ms[0];
    ValueBack(ms[0].value, after);
    NameBack(ms, done, Encoded(Written(ms[0].value)) + after);
    if |ms| <= 1 {
    } else {
      FreshTail(ms, done);
      MembersBack(ms[1..], done + [JsMember(Encoded(ms[0].name), ToJs(ms[0].value))], rest);
    }
    MemberStep(ms, done, rest);
  }

  /** A member's name and colon are read back. */
  lemma NameBack(ms: seq<Member>, done: seq<JsMember>, t: Units)
    requires ms != [] && Fresh(ms, done)
    ensures NameAt(Encoded(StringText(ms[0].name)) + [0x3A] + t, done) == Got(Encoded(ms[0].name), t)
    ensures Opens(Encoded(StringText(ms[0].name)))
  {
    hide Encoded;
    hide StringText;
    hide StringRest;
    hide HasName;
    hide SkipWs;
    var x := ms[0].name;
    var colon := [0x3A] + t;
    StringBack(x, colon);
    var body := Encoded(EscapeAll(x)) + QUOTE + colon;
    var u := Encoded(StringText(x)) + [0x3A] + t;
    assert u == QUOTE + body && u[1..] == body && u[0] == 0x22;
    CloserStays(u);
    CloserStays(colon);
    assert colon[1..] == t;
  }

  lemma MembersText(ms: seq<Member>)
    requires ms != []
    ensures WrittenMembers(ms)
         == StringText(ms[0].name) + ":" + Written(ms[0].value)
            + (if |ms| == 1 then "" else "," + WrittenMembers(ms[1..]))
  {
    hide Written;
    hide StringText;
  }

  lemma MembersUnits(ms: seq<Member>)
    requires ms != []
    ensures Encoded(WrittenMembers(ms))
         == Encoded(StringText(ms[0].name)) + [0x3A] + Encoded(Written(ms[0].value))
            + (if |ms| == 1 then [] else [0x2C] + Encoded(WrittenMembers(ms[1..])))
  {
    hide Encoded;
    hide Written;
    hide StringText;
    hide WrittenMembers;
    var name, value := StringText(ms[0].name), Written(ms[0].value);
    MembersText(ms);
    EncodedAppend(name + ":" + value, if |ms| == 1 then "" else "," + WrittenMembers(ms[1..]));
    EncodedAppend(name + ":", value);
    EncodedAppend(name, ":");
    MarkUnits();
    if |ms| > 1 {
      EncodedAppend(",", WrittenMembers(ms[1..]));
    }
    EncodedNothing();
  }

  lemma MembersJs(ms: seq<Member>)
    requires ms != []
    ensures ToJsMembers(ms) == [JsMember(Encoded(ms[0].name), ToJs(ms[0].value))] + ToJsMembers(ms[1..])
  {
    hide ToJs;
    hide Encoded;
  }

  /** MembersAt, one turn. */
  lemma MembersTurn(t: Units, done: seq<JsMember>, name: Units, afterColon: Units, v: Js, after: Units)
    requires NameAt(t, done) == Got(name, afterColon) && ValueAt(afterColon) == Got(v, after) && SkipWs(after) == after
    ensures Is(after, ',') ==> MembersAt(t, done) == MembersAt(after[1..], done + [JsMember(name, v)])
    ensures Is(after, '}') ==> MembersAt(t, done) == Got(JsObj(done + [JsMember(name, v)]), after[1..])
  {
    hide NameAt;
    hide ValueAt;
    hide SkipWs;
  }

  lemma NoMembers(ms: seq<Member>)
    ensures ms == [] ==> ToJsMembers(ms) == []
  {
  }

  lemma MemberStep(ms: seq<Member>, done: seq<JsMember>, rest: Units)
    requires ms != []
    requires var one := JsMember(Encoded(ms[0].name), ToJs(ms[0].value));
             var more := if |ms| == 1 then [] else [0x2C] + Encoded(WrittenMembers(ms[1..]));
             var after := more + [0x7D] + rest;
             && ValueAt(Encoded(Written(ms[0].value)) + after) == Got(ToJs(ms[0].value), after)
             && NameAt(Encoded(StringText(ms[0].name)) + [0x3A] + (Encoded(Written(ms[0].value)) + after), done)
                == Got(Encoded(ms[0].name), Encoded(Written(ms[0].value)) + after)
             && Opens(Encoded(StringText(ms[0].name)))
             && (|ms| > 1 ==>
                   MembersAt(Encoded(WrittenMembers(ms[1..])) + [0x7D] + rest, done + [one])
                   == Got(JsObj(done + [one] + ToJsMembers(ms[1..])), rest))
    ensures MembersAt(Encoded(WrittenMembers(ms)) + [0x7D] + rest, done)
         == Got(JsObj(done + ToJsMembers(ms)), rest)
    ensures Opens(Encoded(WrittenMembers(ms)))
  {
    hide Encoded;
    hide Written;
    hide WrittenMembers;
    hide StringText;
    hide ToJs;
    hide ToJsMembers;
    hide ValueAt;
    hide NameAt;
    hide SkipWs;
    hide MembersAt;
    MembersUnits(ms);
    MembersJs(ms);
    var name, value, tail := Encoded(StringText(ms[0].name)), Encoded(Written(ms[0].value)), Encoded(WrittenMembers(ms[1..]));
    var one := JsMember(Encoded(ms[0].name), ToJs(ms[0].value));
    var more := if |ms| == 1 then [] else [0x2C] + tail;
    var after := more + [0x7D] + rest;
    assert Encoded(WrittenMembers(ms))[0] == name[0];
    Reassociated(name + [0x3A] + value, more, 0x7D, rest);
    assert name + [0x3A] + value + after == name + [0x3A] + (value + after);
    TailShape(tail, rest, 0x7D, |ms| == 1);
    MembersTurn(name + [0x3A] + (value + after), done, Encoded(ms[0].name), value + after, ToJs(ms[0].value), after);
    Joined(done, one, ToJsMembers(ms[1..]));
    NoMembers(ms[1..]);
  }

  // ---------------------------------------------------------------- the theorems

  /** The parser undoes the printer: every value comes back, its dicts in canonical order, and the
      whole text is consumed. */
  lemma ParseSerialize(v: Json)
    requires WellFormed(v)
    ensures Parse(Encoded(Serialize(v))) == Some(ToJs(Canon(v)))
  {
    hide ValueAt;
    hide Encoded;
    hide Written;
    hide Canon;
    hide ToJs;
    hide WellFormed;
    CanonWellFormed(v);
    ValueBack(Canon(v), []);
    var t := Encoded(Written(Canon(v)));
    assert t + [] == t;
  }

  lemma {:induction false} ToJsInjective(v: Json, w: Json)
    requires ToJs(v) == ToJs(w)
    ensures v == w
    decreases v
  {
    hide Encoded;
    hide PrintInt;
    match v
    case Int(i) =>
      EncodedInjective(PrintInt(i), PrintInt(w.i));
      PrintIntInjective(i, w.i);
    case Str(x) =>
      EncodedInjective(x, w.s);
    case Arr(items) =>
      forall i | 0 <= i < |items|
        ensures items[i] == w.items[i]
      {
        assert ToJsItems(items)[i] == ToJsItems(w.items)[i];
        ToJsInjective(items[i], w.items[i]);
      }
    case Obj(members) =>
      forall i | 0 <= i < |members|
        ensures members[i] == w.members[i]
      {
        assert ToJsMembers(members)[i] == ToJsMembers(w.members)[i];
        assert members[i].value < members[i];
        EncodedInjective(members[i].name, w.members[i].name);
        ToJsInjective(members[i].value, w.members[i].value);
      }
    case _ =>
  }

  /** Two values have one canonical text exactly when they are the same value, dicts compared
      without regard to insertion order. */
  lemma SerializeIffSame(v: Json, w: Json)
    requires WellFormed(v) && WellFormed(w)
    ensures Serialize(v) == Serialize(w) <==> SameValue(v, w)
  {
    hide Canon;
    hide Written;
    hide ToJs;
    hide Parse;
    hide Encoded;
    hide SameValue;
    hide WellFormed;
    CanonIffSame(v, w);
    if Serialize(v) == Serialize(w) {
      ParseSerialize(v);
      ParseSerialize(w);
      ToJsInjective(Canon(v), Canon(w));
    }
  }
}
