/** What the strict parser's tokens are, apart from how it reads them: white space, numbers and the
    escapes of a string, after sections 2, 6 and 7 of RFC 8259. */
module JsonTokens {
  import opened Decimal
  import opened Utf16
  import opened StrictJson

  lemma WhiteSpaceIs(u: Unit)
    ensures IsWs(u) <==> u in Encoded(" \t\n\r")
  {
    var ws := " \t\n\r";
    EncodedSmall(ws);
    assert ws[0] == ' ' && ws[1] == '\t' && ws[2] == '\n' && ws[3] == '\r';
  }

  lemma {:induction false} EncodedSmall(s: string)
    requires forall i :: 0 <= i < |s| ==> s[i] as int < 0x80
    ensures |Encoded(s)| == |s| && forall i :: 0 <= i < |s| ==> Encoded(s)[i] == s[i] as int
  {
    if s != "" {
      EncodedSmall(s[1..]);
      assert CharUnits(s[0]) == [s[0] as int];
    }
  }

  // ---------------------------------------------------------------- numbers

  ghost predicate Digits(s: Units) {
    s != [] && forall i :: 0 <= i < |s| ==> '0' as int <= s[i] <= '9' as int
  }

  /** No digit stands behind a leading zero. */
  ghost predicate Whole(s: Units) {
    Digits(s) && (s[0] == '0' as int ==> |s| == 1)
  }

  ghost predicate Fraction(s: Units) {
    s == [] || (s[0] == '.' as int && Digits(s[1..]))
  }

  ghost predicate Exponent(s: Units) {
    || s == []
    || ((s[0] == 'e' as int || s[0] == 'E' as int)
        && (Digits(s[1..]) || (|s| > 1 && (s[1] == '+' as int || s[1] == '-' as int) && Digits(s[2..]))))
  }

  ghost predicate Sign(s: Units) {
    s == [] || s == ['-' as int]
  }

  ghost predicate Made(s: Units, sign: Units, whole: Units, fraction: Units, exponent: Units) {
    s == sign + whole + fraction + exponent && Sign(sign) && Whole(whole) && Fraction(fraction) && Exponent(exponent)
  }

  ghost predicate Number(s: Units) {
    exists sign: Units, whole: Units, fraction: Units, exponent: Units :: Made(s, sign, whole, fraction, exponent)
  }

  /** The digits a text begins with, in one piece or cut short before another digit. */
  lemma DigitsWithin(s: Units, t: Units)
    requires Digits(s) && s <= t
    ensures |s| <= DigitCount(t) && (|s| < DigitCount(t) ==> Digit(t[|s|]))
  {
    assert forall i :: 0 <= i < |s| ==> t[i] == s[i];
  }

  lemma DigitsRead(t: Units)
    ensures DigitCount(t) > 0 ==> Digits(t[..DigitCount(t)])
  {
  }

  /** The fraction is read whole, or what is not taken of it begins with no exponent. */
  lemma FractionWithin(s: Units, t: Units)
    requires Fraction(s) && s <= t
    ensures |s| <= FractionLength(t)
    ensures |s| < FractionLength(t) ==> t[|s|] != 'e' as int && t[|s|] != 'E' as int
  {
    if s != [] {
      assert t[0] == s[0] && s[1..] <= t[1..];
      DigitsWithin(s[1..], t[1..]);
      assert |s| < |t| ==> t[1..][|s| - 1] == t[|s|];
    }
  }

  lemma FractionRead(t: Units)
    ensures Fraction(t[..FractionLength(t)])
  {
    var n := FractionLength(t);
    if n > 0 {
      DigitsRead(t[1..]);
      assert t[..n][1..] == t[1..][..n - 1];
    }
  }

  lemma ExponentWithin(s: Units, t: Units)
    requires Exponent(s) && s <= t
    ensures |s| <= ExponentLength(t)
  {
    if s != [] {
      assert t[0] == s[0] && t[1] == s[1];
      if Digits(s[1..]) {
        assert s[1..] <= t[1..] && Digit(s[1..][0]);
        DigitsWithin(s[1..], t[1..]);
      } else {
        assert s[2..] <= t[2..];
        DigitsWithin(s[2..], t[2..]);
      }
    }
  }

  lemma ExponentRead(t: Units)
    ensures Exponent(t[..ExponentLength(t)])
  {
    var n := ExponentLength(t);
    if n > 0 {
      var signed := Is(t[1..], '+') || Is(t[1..], '-');
      var k := if signed then 2 else 1;
      DigitsRead(t[k..]);
      assert t[..n][k..] == t[k..][..n - k];
    }
  }

  /** The sign and the digits in front. */
  lemma WholeWithin(sign: Units, whole: Units, t: Units)
    requires Sign(sign) && Whole(whole) && sign + whole <= t
    ensures 0 < |sign + whole| <= IntegerLength(t)
    ensures |sign + whole| < IntegerLength(t) ==> Digit(t[|sign + whole|])
  {
    var n := |sign|;
    assert t[n] == (sign + whole)[n] == whole[0];
    assert n > 0 ==> t[0] == (sign + whole)[0] == '-' as int;
    assert Is(t, '-') <==> n == 1;
    assert whole <= t[n..] by {
      assert (sign + whole)[n..] == whole;
    }
    DigitsWithin(whole, t[n..]);
    assert |sign + whole| < |t| ==> t[n..][|whole|] == t[|sign + whole|];
  }

  lemma WholeRead(t: Units) returns (sign: Units, whole: Units)
    requires IntegerLength(t) > 0
    ensures t[..IntegerLength(t)] == sign + whole && Sign(sign) && Whole(whole)
  {
    var n := if Is(t, '-') then 1 else 0;
    sign, whole := t[..n], t[n..IntegerLength(t)];
    var u := t[n..];
    DigitsRead(u);
    assert whole == u[..IntegerLength(t) - n];
  }

  /** What is read is a number. */
  lemma NumberRead(t: Units)
    requires NumberLength(t) > 0
    ensures Number(t[..NumberLength(t)])
  {
    hide IntegerLength;
    hide FractionLength;
    hide ExponentLength;
    hide Whole;
    hide Fraction;
    hide Exponent;
    var i := IntegerLength(t);
    var f := FractionLength(t[i..]);
    var e := ExponentLength(t[i + f..]);
    var sign, whole := WholeRead(t);
    FractionRead(t[i..]);
    ExponentRead(t[i + f..]);
    assert t[..i + f + e] == t[..i] + t[i..][..f] + t[i + f..][..e];
    assert Made(t[..i + f + e], sign, whole, t[i..][..f], t[i + f..][..e]);
  }

  /** What stands behind the digits, as far as it is read. */
  lemma TailWithin(fraction: Units, exponent: Units, t: Units)
    requires Fraction(fraction) && Exponent(exponent) && fraction + exponent <= t
    ensures var f := FractionLength(t); |fraction + exponent| <= f + ExponentLength(t[f..])
  {
    hide FractionLength;
    hide ExponentLength;
    hide Fraction;
    hide Exponent;
    var f, behind := |fraction|, fraction + exponent;
    assert behind[..f] == fraction && behind[f..] == exponent;
    assert fraction <= t && exponent <= t[f..];
    FractionWithin(fraction, t);
    if f < FractionLength(t) {
      assert t[f..][0] == t[f];
      NoExponentThere(exponent, t[f..]);
    } else {
      ExponentWithin(exponent, t[f..]);
    }
  }

  /** And no number that the text begins with is longer. */
  lemma NumberWithin(s: Units, t: Units)
    requires Number(s) && s <= t
    ensures 0 < |s| <= NumberLength(t)
  {
    hide IntegerLength;
    hide FractionLength;
    hide ExponentLength;
    hide Digits;
    hide Sign;
    hide Whole;
    hide Fraction;
    hide Exponent;
    var sign: Units, whole: Units, fraction: Units, exponent: Units :| Made(s, sign, whole, fraction, exponent);
    var i, behind := |sign + whole|, fraction + exponent;
    assert s == sign + whole + behind;
    assert s[..i] == sign + whole && s[i..] == behind;
    assert sign + whole <= t && behind <= t[i..];
    WholeWithin(sign, whole, t);
    if i < IntegerLength(t) {
      assert t[i..][0] == t[i];
      NoDigitFirst(fraction, exponent, t[i..]);
    } else {
      TailWithin(fraction, exponent, t[i..]);
      var f := FractionLength(t[i..]);
      assert t[i..][f..] == t[i + f..];
    }
  }

  lemma FirstUnits(a: Units, b: Units, t: Units)
    requires a + b <= t
    ensures a != [] ==> t != [] && a[0] == t[0]
    ensures a == [] && b != [] ==> t != [] && b[0] == t[0]
  {
    assert a != [] ==> (a + b)[0] == a[0];
    assert a == [] ==> a + b == b;
  }

  lemma NoDigitFirst(fraction: Units, exponent: Units, t: Units)
    requires Fraction(fraction) && Exponent(exponent) && fraction + exponent <= t && t != [] && Digit(t[0])
    ensures fraction == exponent == []
  {
    FirstUnits(fraction, exponent, t);
  }

  lemma NoExponentThere(exponent: Units, t: Units)
    requires Exponent(exponent) && exponent <= t && t != [] && t[0] != 'e' as int && t[0] != 'E' as int
    ensures exponent == []
  {
    FirstUnits(exponent, [], t);
  }

  /** A number token is the longest number the text begins with, and there is none exactly if the
      text begins with no number. */
  lemma LongestNumber(t: Units, n: nat)
    requires n <= |t|
    ensures NumberLength(t) > 0 ==> Number(t[..NumberLength(t)])
    ensures Number(t[..n]) ==> 0 < n <= NumberLength(t)
  {
    hide NumberLength;
    hide Number;
    if NumberLength(t) > 0 {
      NumberRead(t);
    }
    if Number(t[..n]) {
      NumberWithin(t[..n], t);
    }
  }

  // ---------------------------------------------------------------- escapes

  const ESCAPED := "\"\\/bfnrt"
  const MEANT: Units := [0x22, 0x5C, 0x2F, 8, 12, 10, 13, 9]

  /** The escapes of one letter, and no other. */
  lemma EscapesAre(u: Unit)
    ensures forall i :: 0 <= i < 8 ==> Simple(ESCAPED[i] as int) == Some(MEANT[i])
    ensures Simple(u).Some? ==> exists i :: 0 <= i < 8 && u == ESCAPED[i] as int
  {
    assert ESCAPED[0] == '"' && ESCAPED[1] == '\\' && ESCAPED[2] == '/' && ESCAPED[3] == 'b';
    assert ESCAPED[4] == 'f' && ESCAPED[5] == 'n' && ESCAPED[6] == 'r' && ESCAPED[7] == 't';
  }

  const LOWER_HEX := "0123456789abcdef"
  const UPPER_HEX := "0123456789ABCDEF"

  /** Hexadecimal digits, in either case, and no other. */
  lemma HexDigitsAre(u: Unit)
    ensures forall i :: 0 <= i < 16 ==> HexUnit(LOWER_HEX[i] as int) == HexUnit(UPPER_HEX[i] as int) == Some(i)
    ensures HexUnit(u).Some? ==> var i := HexUnit(u).value;
                                 i < 16 && (u == LOWER_HEX[i] as int || u == UPPER_HEX[i] as int)
  {
    assert forall i :: 0 <= i < 10 ==> LOWER_HEX[i] as int == UPPER_HEX[i] as int == 48 + i;
    assert forall i :: 10 <= i < 16 ==> LOWER_HEX[i] as int == 87 + i && UPPER_HEX[i] as int == 55 + i;
  }

  // ---------------------------------------------------------------- what is read

  /** No surrogate stands alone. */
  ghost predicate Paired(s: Units) {
    forall i :: 0 <= i < |s| ==> Stands(s, i)
  }

  /** Throughout a value, numbers are numbers, strings hold no lone surrogate, and no two members of
      one object have one name. */
  ghost predicate Sound(v: Js)
    decreases v
  {
    match v
    case JsNum(n) => Number(n)
    case JsStr(s) => Paired(s)
    case JsArr(items) => forall i :: 0 <= i < |items| ==> Sound(items[i])
    case JsObj(ms) =>
      && (forall i, j :: 0 <= i < j < |ms| ==> ms[i].name != ms[j].name)
      && forall i :: 0 <= i < |ms| ==> Paired(ms[i].name) && Sound(ms[i].value)
    case _ => true
  }

  lemma WellFormedPaired(t: Units)
    ensures Paired(ToWellFormed(t))
  {
    hide ToWellFormed;
    WellFormedIs(t);
    var r := ToWellFormed(t);
    forall i | 0 <= i < |r|
      ensures Stands(r, i)
    {
      assert 0xD800 <= r[i] < 0xDC00 ==> Stands(t, i) && Stands(t, i + 1);
      assert 0xDC00 <= r[i] < 0xE000 ==> Stands(t, i) && Stands(t, i - 1);
    }
  }

  lemma {:induction false} StringPaired(t: Units, out: Units)
    requires StringRest(t, out).Got?
    ensures Paired(StringRest(t, out).value)
    decreases |t|
  {
    hide UnitAt;
    hide ToWellFormed;
    hide Paired;
    if t != [] && t[0] == 0x22 {
      WellFormedPaired(out);
    } else {
      StringPaired(UnitAt(t).rest, out + [UnitAt(t).value]);
    }
  }

  lemma SoundItems(items: seq<Js>, v: Js)
    requires Sound(JsArr(items)) && Sound(v)
    ensures Sound(JsArr(items + [v]))
  {
  }

  lemma SoundMembers(ms: seq<JsMember>, name: Units, v: Js)
    requires Sound(JsObj(ms)) && Sound(v) && Paired(name) && !HasName(ms, name)
    ensures Sound(JsObj(ms + [JsMember(name, v)]))
  {
    hide Paired;
  }

  lemma NothingSound()
    ensures Sound(JsArr([])) && Sound(JsObj([]))
  {
  }

  lemma NumberSound(t: Units)
    requires NumberAt(t).Got?
    ensures Sound(NumberAt(t).value)
  {
    hide Number;
    NumberRead(t);
  }

  lemma NameSound(text: Units, ms: seq<JsMember>)
    requires NameAt(text, ms).Got?
    ensures Paired(NameAt(text, ms).value) && !HasName(ms, NameAt(text, ms).value)
  {
    hide Paired;
    hide HasName;
    hide SkipWs;
    StringPaired(SkipWs(text)[1..], []);
  }

  lemma LiteralSound(t: Units)
    requires Literal(t).Got?
    ensures Sound(Literal(t).value)
  {
  }

  /** Whatever the parser reads is sound. */
  lemma {:induction false} ReadIsSound(text: Units)
    requires ValueAt(text).Got?
    ensures Sound(ValueAt(text).value)
    decreases |text|, 0
  {
    hide StringRest;
    hide NumberAt;
    hide Literal;
    hide ItemsAt;
    hide MembersAt;
    hide SkipWs;
    hide Number;
    hide Paired;
    var t := SkipWs(text);
    NothingSound();
    if Is(t, '{') {
      var u := SkipWs(t[1..]);
      if !Is(u, '}') {
        MembersSound(u, []);
      }
    } else if Is(t, '[') {
      var u := SkipWs(t[1..]);
      if !Is(u, ']') {
        ItemsSound(u, []);
      }
    } else if Is(t, '"') {
      StringPaired(t[1..], []);
    } else if Is(t, '-') || (t != [] && Digit(t[0])) {
      NumberSound(t);
    } else {
      LiteralSound(t);
    }
  }

  lemma {:induction false} ItemsSound(t: Units, items: seq<Js>)
    requires ItemsAt(t, items).Got? && Sound(JsArr(items))
    ensures Sound(ItemsAt(t, items).value)
    decreases |t|, 1
  {
    hide ValueAt;
    hide Sound;
    hide SkipWs;
    var (v, rest) := (ValueAt(t).value, ValueAt(t).rest);
    ReadIsSound(t);
    SoundItems(items, v);
    var u := SkipWs(rest);
    if Is(u, ',') {
      ItemsSound(u[1..], items + [v]);
    }
  }

  lemma {:induction false} MembersSound(t: Units, ms: seq<JsMember>)
    requires MembersAt(t, ms).Got? && Sound(JsObj(ms))
    ensures Sound(MembersAt(t, ms).value)
    decreases |t|, 1
  {
    hide ValueAt;
    hide NameAt;
    hide HasName;
    hide Sound;
    hide SkipWs;
    var (name, afterColon) := (NameAt(t, ms).value, NameAt(t, ms).rest);
    NameSound(t, ms);
    var (v, rest) := (ValueAt(afterColon).value, ValueAt(afterColon).rest);
    ReadIsSound(afterColon);
    SoundMembers(ms, name, v);
    var u := SkipWs(rest);
    if Is(u, ',') {
      MembersSound(u[1..], ms + [JsMember(name, v)]);
    }
  }

  /** A text that is read holds no repeated name, no lone surrogate and no number but JSON's. */
  lemma ParsedIsSound(text: Units)
    requires Parse(text).Some?
    ensures Sound(Parse(text).value)
  {
    hide ValueAt;
    hide Sound;
    ReadIsSound(text);
  }
}
