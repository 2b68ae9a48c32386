/** The canonical text is a shortest one: RFC 8785 section 3.2 allows no white space and no escape
    that could be shorter, so of all texts the strict parser reads as one value in one member order,
    none is shorter than the printer's. */
module JsonShortest {
  import opened Decimal
  import opened Text
  import opened Utf16
  import opened CanonicalJson
  import opened StrictJson
  import opened JsonRoundTrip

  // ---------------------------------------------------------------- strings

  /** The least a code unit takes in a string: itself, a two-character escape, or \uXXXX. */
  function Cost(u: Unit): nat {
    if u >= 0x20 && u != 0x22 && u != 0x5C then 1
    else if u == 0x22 || u == 0x5C || 8 <= u <= 10 || u == 12 || u == 13 then 2
    else 6
  }

  function Costs(t: Units): nat {
    if t == [] then 0 else Cost(t[0]) + Costs(t[1..])
  }

  lemma {:induction false} CostsAppend(a: Units, b: Units)
    ensures Costs(a + b) == Costs(a) + Costs(b)
  {
    if a == [] {
      assert a + b == b;
    } else {
      assert (a + b)[1..] == a[1..] + b;
      CostsAppend(a[1..], b);
    }
  }

  lemma CostsOne(u: Unit)
    ensures Costs([u]) == Cost(u)
  {
    assert [u][1..] == [];
  }

  lemma UnitTakes(t: Units)
    requires UnitAt(t).Got? && t[0] != 0x22
    ensures |t| >= |UnitAt(t).rest| + Cost(UnitAt(t).value)
  {
    hide HexUnit;
  }

  lemma {:induction false} WellFormedTakes(t: Units)
    ensures Costs(ToWellFormed(t)) <= Costs(t)
  {
    if t == [] {
    } else if High(t[0]) && |t| > 1 && Low(t[1]) {
      WellFormedTakes(t[2..]);
      CostsAppend(t[..2], ToWellFormed(t[2..]));
      CostsAppend(t[..2], t[2..]);
      assert t == t[..2] + t[2..];
    } else {
      var u: Unit := if High(t[0]) || Low(t[0]) then 0xFFFD else t[0];
      WellFormedTakes(t[1..]);
      CostsAppend([u], ToWellFormed(t[1..]));
      CostsOne(u);
    }
  }

  lemma {:induction false} StringTakes(t: Units, out: Units)
    requires StringRest(t, out).Got?
    ensures |t| + Costs(out) >= |StringRest(t, out).rest| + 1 + Costs(StringRest(t, out).value)
    decreases |t|
  {
    hide UnitAt;
    hide Costs;
    hide ToWellFormed;
    if t != [] && t[0] == 0x22 {
      WellFormedTakes(out);
    } else {
      var (u, rest) := (UnitAt(t).value, UnitAt(t).rest);
      FirstUnit(t);
      UnitTakes(t);
      StringTakes(rest, out + [u]);
      CostsAppend(out, [u]);
      CostsOne(u);
    }
  }

  lemma FirstUnit(t: Units)
    requires UnitAt(t).Got?
    ensures t != []
  {
  }

  lemma PlainTakes(c: char)
    requires c as int >= 0x20 && c != '"' && c != '\\'
    ensures Costs(CharUnits(c)) == |CharUnits(c)|
  {
    var u := CharUnits(c);
    CostsOne(u[0]);
    if |u| == 2 {
      CostsOne(u[1]);
      CostsAppend([u[0]], [u[1]]);
      assert u == [u[0]] + [u[1]];
    } else {
      assert u == [u[0]];
    }
  }

  /** An escape costs what its character's units must. */
  lemma CharTakes(c: char)
    ensures |Encoded(EscapeChar(c))| == Costs(CharUnits(c))
  {
    hide Hex4;
    var (e, u) := (EscapeChar(c), CharUnits(c));
    if e == [c] {
      EncodedOne(c);
      PlainTakes(c);
    } else {
      CostsOne(c as int);
      assert u == [c as int];
      if |e| == 2 {
        assert Bmp(e);
        EncodedBmp(e);
      } else {
        EncodedAppend("\\u", Hex4(c as int));
        EncodedBmp("\\u");
        HexLength(c as int);
      }
    }
  }

  lemma {:induction false} TextTakes(s: string)
    ensures |Encoded(EscapeAll(s))| == Costs(Encoded(s))
  {
    hide CharUnits;
    hide EscapeChar;
    if s == "" {
    } else {
      CharTakes(s[0]);
      TextTakes(s[1..]);
      EncodedAppend(EscapeChar(s[0]), EscapeAll(s[1..]));
      CostsAppend(CharUnits(s[0]), Encoded(s[1..]));
    }
  }

  /** No text that is read as the string is shorter than the printer's. */
  lemma ShortestString(s: string, t: Units, rest: Units)
    requires StringRest(t, []) == Got(Encoded(s), rest)
    ensures |t| - |rest| >= |Encoded(EscapeAll(s))| + 1
  {
    StringTakes(t, []);
    TextTakes(s);
  }

  /** Which text it is, character by character: section 3.2.2.2 of RFC 8785. */
  lemma CharacterIs(c: char)
    ensures c == '"' ==> EscapeAll([c]) == "\\\""
    ensures c == '\\' ==> EscapeAll([c]) == "\\\\"
    ensures c as int == 8 ==> EscapeAll([c]) == "\\b"
    ensures c as int == 9 ==> EscapeAll([c]) == "\\t"
    ensures c as int == 10 ==> EscapeAll([c]) == "\\n"
    ensures c as int == 12 ==> EscapeAll([c]) == "\\f"
    ensures c as int == 13 ==> EscapeAll([c]) == "\\r"
    ensures c as int < 0x20 && c as int !in {8, 9, 10, 12, 13} ==>
              EscapeAll([c]) == "\\u00" + [if c as int < 16 then '0' else '1', "0123456789abcdef"[c as int % 16]]
    ensures c as int >= 0x20 && c != '"' && c != '\\' ==> EscapeAll([c]) == [c]
  {
    EscapeAllOne(c);
    hide EscapeAll;
    hide Hex4;
    if c as int < 0x20 {
      HexOfControl(c as int);
    }
  }

  lemma EscapeAllOne(c: char)
    ensures EscapeAll([c]) == EscapeChar(c)
  {
    hide EscapeChar;
    assert [c][1..] == "" && EscapeAll("") == "";
  }

  lemma HexOfControl(n: nat)
    requires n < 0x20
    ensures "\\u" + Hex4(n) == "\\u00" + [if n < 16 then '0' else '1', "0123456789abcdef"[n % 16]]
  {
    Hex4Is(n);
    assert n / 4096 == 0 && n / 256 % 16 == 0 && n / 16 % 16 == if n < 16 then 0 else 1;
  }

  lemma {:induction false} CharactersJoined(a: string, b: string)
    ensures EscapeAll(a + b) == EscapeAll(a) + EscapeAll(b)
  {
    hide EscapeChar;
    if a == "" {
      assert a + b == b;
    } else {
      assert (a + b)[1..] == a[1..] + b;
      CharactersJoined(a[1..], b);
    }
  }

  // ---------------------------------------------------------------- values

  /** The least a parsed value takes. */
  function Size(v: Js): nat
    decreases v
  {
    match v
    case JsNull => 4
    case JsBool(b) => if b then 4 else 5
    case JsNum(n) => |n|
    case JsStr(s) => 2 + Costs(s)
    case JsArr(items) => if items == [] then 2 else 1 + Listed(items)
    case JsObj(ms) => if ms == [] then 2 else 1 + ListedMembers(ms)
  }

  /** Each item and the mark behind it. */
  function Listed(items: seq<Js>): nat
    decreases items
  {
    if items == [] then 0 else Listed(items[..|items| - 1]) + Size(items[|items| - 1]) + 1
  }

  function ListedMembers(ms: seq<JsMember>): nat
    decreases ms
  {
    if ms == [] then 0
    else
      var m := ms[|ms| - 1];
      ListedMembers(ms[..|ms| - 1]) + (2 + Costs(m.name)) + 1 + Size(m.value) + 1
  }

  lemma ListedPush(items: seq<Js>, v: Js)
    ensures Listed(items + [v]) == Listed(items) + Size(v) + 1
  {
    assert (items + [v])[..|items|] == items;
  }

  lemma ListedMembersPush(ms: seq<JsMember>, m: JsMember)
    ensures ListedMembers(ms + [m]) == ListedMembers(ms) + (2 + Costs(m.name)) + 1 + Size(m.value) + 1
  {
    assert (ms + [m])[..|ms|] == ms;
  }

  lemma NumberTakes(t: Units)
    requires NumberAt(t).Got?
    ensures |t| >= |NumberAt(t).rest| + Size(NumberAt(t).value)
  {
    hide NumberLength;
  }

  lemma LiteralTakes(t: Units)
    requires Literal(t).Got?
    ensures |t| >= |Literal(t).rest| + Size(Literal(t).value)
  {
    hide Encoded;
    LiteralUnits();
  }

  lemma NameTakes(text: Units, ms: seq<JsMember>)
    requires NameAt(text, ms).Got?
    ensures |text| >= |NameAt(text, ms).rest| + (2 + Costs(NameAt(text, ms).value)) + 1
  {
    hide StringRest;
    hide HasName;
    hide Costs;
    StringTakes(SkipWs(text)[1..], []);
    NoCosts();
  }

  lemma NoCosts()
    ensures Costs([]) == 0
  {
  }

  lemma {:induction false} ValueTakes(text: Units)
    requires ValueAt(text).Got?
    ensures |text| >= |ValueAt(text).rest| + Size(ValueAt(text).value)
    decreases |text|, 0
  {
    hide StringRest;
    hide NumberAt;
    hide Literal;
    hide Costs;
    hide Listed;
    hide ListedMembers;
    hide ItemsAt;
    hide MembersAt;
    hide SkipWs;
    var t := SkipWs(text);
    NoCosts();
    NothingListed();
    if Is(t, '{') {
      var u := SkipWs(t[1..]);
      if !Is(u, '}') {
        MembersTake(u, []);
      }
    } else if Is(t, '[') {
      var u := SkipWs(t[1..]);
      if !Is(u, ']') {
        ItemsTake(u, []);
      }
    } else if Is(t, '"') {
      StringTakes(t[1..], []);
    } else if Is(t, '-') || (t != [] && Digit(t[0])) {
      NumberTakes(t);
    } else {
      LiteralTakes(t);
    }
  }

  lemma NothingListed()
    ensures Listed([]) == 0 && ListedMembers([]) == 0
  {
  }

  lemma {:induction false} ItemsTake(t: Units, items: seq<Js>)
    requires ItemsAt(t, items).Got?
    ensures var r := ItemsAt(t, items);
            r.value.JsArr? && r.value.arr != [] && |t| + Listed(items) >= |r.rest| + Listed(r.value.arr)
    decreases |t|, 1
  {
    hide ValueAt;
    hide Size;
    hide Listed;
    hide SkipWs;
    var (v, rest) := (ValueAt(t).value, ValueAt(t).rest);
    ValueTakes(t);
    ListedPush(items, v);
    var u := SkipWs(rest);
    if Is(u, ',') {
      ItemsTake(u[1..], items + [v]);
    }
  }

  lemma {:induction false} MembersTake(t: Units, ms: seq<JsMember>)
    requires MembersAt(t, ms).Got?
    ensures var r := MembersAt(t, ms);
            r.value.JsObj? && r.value.obj != [] && |t| + ListedMembers(ms) >= |r.rest| + ListedMembers(r.value.obj)
    decreases |t|, 1
  {
    hide ValueAt;
    hide NameAt;
    hide Size;
    hide Costs;
    hide ListedMembers;
    hide SkipWs;
    var (name, afterColon) := (NameAt(t, ms).value, NameAt(t, ms).rest);
    NameTakes(t, ms);
    var (v, rest) := (ValueAt(afterColon).value, ValueAt(afterColon).rest);
    ValueTakes(afterColon);
    ListedMembersPush(ms, JsMember(name, v));
    var u := SkipWs(rest);
    if Is(u, ',') {
      MembersTake(u[1..], ms + [JsMember(name, v)]);
    }
  }

  // ---------------------------------------------------------------- the printer's text

  lemma {:induction false} ListedAppend(a: seq<Js>, b: seq<Js>)
    ensures Listed(a + b) == Listed(a) + Listed(b)
  {
    hide Size;
    if b == [] {
      assert a + b == a;
    } else {
      assert (a + b)[..|a + b| - 1] == a + b[..|b| - 1];
      ListedAppend(a, b[..|b| - 1]);
    }
  }

  lemma {:induction false} ListedMembersAppend(a: seq<JsMember>, b: seq<JsMember>)
    ensures ListedMembers(a + b) == ListedMembers(a) + ListedMembers(b)
  {
    hide Size;
    hide Costs;
    if b == [] {
      assert a + b == a;
    } else {
      assert (a + b)[..|a + b| - 1] == a + b[..|b| - 1];
      ListedMembersAppend(a, b[..|b| - 1]);
    }
  }

  lemma StringWritten(s: string)
    ensures |Encoded(StringText(s))| == 2 + Costs(Encoded(s))
  {
    hide EscapeAll;
    hide Costs;
    StringBack(s, []);
    TextTakes(s);
  }

  /** The printer's text takes no more than it must. */
  lemma {:induction false} WrittenTakes(v: Json)
    ensures |Encoded(Written(v))| == Size(ToJs(v))
    decreases v, 0
  {
    hide Encoded;
    hide StringText;
    hide WrittenItems;
    hide WrittenMembers;
    hide Listed;
    hide ListedMembers;
    hide Costs;
    hide PrintInt;
    hide ToJsItems;
    hide ToJsMembers;
    LiteralUnits();
    MarkUnits();
    match v
    case Str(s) => StringWritten(s);
    case Arr(items) =>
      SameLength(items, []);
      ItemsWritten(items);
      Bracketed("[", WrittenItems(items), "]");
    case Obj(ms) =>
      SameLength([], ms);
      MembersWritten(ms);
      Bracketed("{", WrittenMembers(ms), "}");
    case _ =>
  }

  lemma SameLength(items: seq<Json>, ms: seq<Member>)
    ensures |ToJsItems(items)| == |items| && |ToJsMembers(ms)| == |ms|
  {
  }

  lemma Bracketed(open: string, inner: string, close: string)
    ensures |Encoded(open + inner + close)| == |Encoded(open)| + |Encoded(inner)| + |Encoded(close)|
  {
    hide Encoded;
    EncodedAppend(open + inner, close);
    EncodedAppend(open, inner);
  }

  lemma {:induction false} ItemsWritten(items: seq<Json>)
    ensures |Encoded(WrittenItems(items))| == if items == [] then 0 else Listed(ToJsItems(items)) - 1
    decreases items, 1
  {
    hide Size;
    hide ToJs;
    hide Written;
    if items == [] {
    } else {
      var more := if |items| == 1 then "" else "," + WrittenItems(items[1..]);
      WrittenTakes(items[0]);
      ItemsWritten(items[1..]);
      MarkUnits();
      EncodedAppend(Written(items[0]), more);
      EncodedAppend(",", WrittenItems(items[1..]));
      assert ToJsItems(items) == [ToJs(items[0])] + ToJsItems(items[1..]);
      ListedAppend([ToJs(items[0])], ToJsItems(items[1..]));
      ListedPush([], ToJs(items[0]));
      assert [] + [ToJs(items[0])] == [ToJs(items[0])];
    }
  }

  /** One member, and the mark behind it. */
  lemma MemberWritten(m: Member)
    requires |Encoded(Written(m.value))| == Size(ToJs(m.value))
    ensures |Encoded(StringText(m.name) + ":" + Written(m.value))| + 1
         == ListedMembers([JsMember(Encoded(m.name), ToJs(m.value))])
  {
    hide Size;
    hide ToJs;
    hide Written;
    hide StringText;
    hide Costs;
    var js := JsMember(Encoded(m.name), ToJs(m.value));
    StringWritten(m.name);
    MarkUnits();
    Bracketed(StringText(m.name), ":", Written(m.value));
    ListedMembersPush([], js);
    assert [] + [js] == [js];
  }

  lemma {:induction false} MembersWritten(ms: seq<Member>)
    ensures |Encoded(WrittenMembers(ms))| == if ms == [] then 0 else ListedMembers(ToJsMembers(ms)) - 1
    decreases ms, 1
  {
    hide Size;
    hide ToJs;
    hide Written;
    hide StringText;
    hide Costs;
    if ms == [] {
    } else {
      var m := ms[0];
      var js := JsMember(Encoded(m.name), ToJs(m.value));
      var more := if |ms| == 1 then "" else "," + WrittenMembers(ms[1..]);
      assert m.value < m;
      WrittenTakes(m.value);
      MemberWritten(m);
      MembersWritten(ms[1..]);
      MarkUnits();
      EncodedAppend(StringText(m.name) + ":" + Written(m.value), more);
      EncodedAppend(",", WrittenMembers(ms[1..]));
      assert ToJsMembers(ms) == [js] + ToJsMembers(ms[1..]);
      ListedMembersAppend([js], ToJsMembers(ms[1..]));
    }
  }

  /** Of all texts the strict parser reads as the canonical value, the printer's is a shortest. */
  lemma ShortestText(v: Json, t: Units)
    requires Parse(t) == Some(ToJs(Canon(v)))
    ensures |Encoded(Serialize(v))| <= |t|
  {
    hide ValueAt;
    hide Size;
    hide Canon;
    hide Written;
    hide Encoded;
    ValueTakes(t);
    WrittenTakes(Canon(v));
  }
}
