/** The strict JSON parser of the browser verifier: parseJSON in site/assets/rfc0009.js. First
    what each part reads off the front of the text, then the parser itself with its cursor. */
module StrictJson {
  import opened Decimal
  import opened Utf16

  /** Parsed values: numbers keep their text, a Map keeps its insertion order. */
  datatype Js =
    | JsNull
    | JsBool(b: bool)
    | JsNum(num: Units)
    | JsStr(s: Units)
    | JsArr(arr: seq<Js>)
    | JsObj(obj: seq<JsMember>)

  datatype JsMember = JsMember(name: Units, value: Js)

  /** Something read, and the text after it; None is a thrown Malformed. */
  datatype Read<+T> = Fail | Got(value: T, rest: Units)

  // ---------------------------------------------------------------- tokens

  predicate IsWs(u: Unit) {
    u == 0x20 || u == 9 || u == 10 || u == 13
  }

  function SkipWs(t: Units): (r: Units)
    ensures |r| <= |t|
  {
    if t != [] && IsWs(t[0]) then SkipWs(t[1..]) else t
  }

  lemma SkipNothing()
    ensures SkipWs([]) == []
  {
  }

  lemma SkipOne(text: Units, i: nat)
    requires i < |text|
    ensures text[i..][0] == text[i] && text[i..][1..] == text[i + 1..]
    ensures SkipWs(text[i..]) == if IsWs(text[i]) then SkipWs(text[i + 1..]) else text[i..]
  {
  }

  predicate Digit(u: Unit) {
    0x30 <= u <= 0x39
  }

  /** text[i] === c; past the end text[i] is undefined. */
  predicate Is(t: Units, c: char)
    requires c as int < 0x10000
  {
    t != [] && t[0] == c as int
  }

  /** How many digits a text begins with. */
  function DigitCount(t: Units): (n: nat)
    ensures n <= |t|
    ensures forall i :: 0 <= i < n ==> Digit(t[i])
    ensures n < |t| ==> !Digit(t[n])
  {
    if t != [] && Digit(t[0]) then 1 + DigitCount(t[1..]) else 0
  }

  /** (\.[0-9]+)? */
  function FractionLength(t: Units): (n: nat)
    ensures n <= |t|
  {
    if Is(t, '.') && DigitCount(t[1..]) > 0 then 1 + DigitCount(t[1..]) else 0
  }

  /** ([eE][+-]?[0-9]+)? */
  function ExponentLength(t: Units): (n: nat)
    ensures n <= |t|
  {
    if !Is(t, 'e') && !Is(t, 'E') then 0
    else
      var signed := Is(t[1..], '+') || Is(t[1..], '-');
      var digits := DigitCount(if signed then t[2..] else t[1..]);
      if digits == 0 then 0 else (if signed then 2 else 1) + digits
  }

  /** -?(0|[1-9][0-9]*) */
  function IntegerLength(t: Units): (n: nat)
    ensures n <= |t|
  {
    var sign := if Is(t, '-') then 1 else 0;
    var u := t[sign..];
    if Is(u, '0') then sign + 1
    else if DigitCount(u) > 0 then sign + DigitCount(u)
    else 0
  }

  /** The longest number a text begins with, or 0. */
  function NumberLength(t: Units): (n: nat)
    ensures n <= |t|
  {
    var i := IntegerLength(t);
    if i == 0 then 0
    else
      var f := FractionLength(t[i..]);
      i + f + ExponentLength(t[i + f..])
  }

  function HexUnit(u: Unit): Option<nat> {
    if Digit(u) then Some(u - 0x30)
    else if 0x61 <= u <= 0x66 then Some(u - 0x61 + 10)
    else if 0x41 <= u <= 0x46 then Some(u - 0x41 + 10)
    else None
  }

  /** parseInt of four hexadecimal digits. */
  function HexValue4(t: Units): (r: Option<Unit>)
  {
    if |t| < 4 || exists i :: 0 <= i < 4 && HexUnit(t[i]).None? then None
    else
      var (a, b, c, d) := (HexUnit(t[0]).value, HexUnit(t[1]).value, HexUnit(t[2]).value, HexUnit(t[3]).value);
      HexUnitBound(t[0]);
      HexUnitBound(t[1]);
      HexUnitBound(t[2]);
      HexUnitBound(t[3]);
      Some(16 * (16 * (16 * a + b) + c) + d)
  }

  lemma HexUnitBound(u: Unit)
    requires HexUnit(u).Some?
    ensures HexUnit(u).value < 16
  {
  }

  /** The one-character escapes. */
  function Simple(u: Unit): Option<Unit> {
    if u == 0x22 || u == 0x5C || u == 0x2F then Some(u)
    else if u == 0x62 then Some(8)
    else if u == 0x66 then Some(12)
    else if u == 0x6E then Some(10)
    else if u == 0x72 then Some(13)
    else if u == 0x74 then Some(9)
    else None
  }

  /** One code unit of a string, written as it is or escaped. */
  function UnitAt(t: Units): (r: Read<Unit>)
    ensures r.Got? ==> |r.rest| < |t|
  {
    if t == [] || t[0] < 0x20 then Fail
    else if t[0] != 0x5C then Got(t[0], t[1..])
    else if |t| == 1 then Fail
    else if Simple(t[1]).Some? then Got(Simple(t[1]).value, t[2..])
    else if t[1] != 0x75 || HexValue4(t[2..]).None? then Fail
    else Got(HexValue4(t[2..]).value, t[6..])
  }

  /** The rest of a string after its opening quote, with `out` read so far. */
  function StringRest(t: Units, out: Units): (r: Read<Units>)
    ensures r.Got? ==> |r.rest| < |t|
  {
    if t != [] && t[0] == 0x22 then Got(ToWellFormed(out), t[1..])
    else
      match UnitAt(t)
      case Fail => Fail
      case Got(u, rest) => StringRest(rest, out + [u])
  }

  // ---------------------------------------------------------------- values

  predicate HasName(ms: seq<JsMember>, name: Units) {
    exists i :: 0 <= i < |ms| && ms[i].name == name
  }

  function Literal(t: Units): Read<Js> {
    if Encoded("true") <= t then Got(JsBool(true), t[|Encoded("true")|..])
    else if Encoded("false") <= t then Got(JsBool(false), t[|Encoded("false")|..])
    else if Encoded("null") <= t then Got(JsNull, t[|Encoded("null")|..])
    else Fail
  }

  function NumberAt(t: Units): Read<Js> {
    var n := NumberLength(t);
    if n == 0 then Fail else Got(JsNum(t[..n]), t[n..])
  }

  function ValueAt(text: Units): (r: Read<Js>)
    ensures r.Got? ==> |r.rest| < |text|
    decreases |text|, 0
  {
    var t := SkipWs(text);
    if Is(t, '{') then
      var u := SkipWs(t[1..]);
      if Is(u, '}') then Got(JsObj([]), u[1..]) else MembersAt(u, [])
    else if Is(t, '[') then
      var u := SkipWs(t[1..]);
      if Is(u, ']') then Got(JsArr([]), u[1..]) else ItemsAt(u, [])
    else if Is(t, '"') then
      (match StringRest(t[1..], [])
       case Fail => Fail
       case Got(s, rest) => Got(JsStr(s), rest))
    else if Is(t, '-') || (t != [] && Digit(t[0])) then NumberAt(t)
    else LiteralShortens(t); Literal(t)
  }

  lemma LiteralShortens(t: Units)
    ensures Literal(t).Got? ==> |Literal(t).rest| < |t|
  {
    assert Encoded("true")[0] == 't' as int && Encoded("false")[0] == 'f' as int && Encoded("null")[0] == 'n' as int;
  }

  function ItemsAt(t: Units, items: seq<Js>): (r: Read<Js>)
    ensures r.Got? ==> |r.rest| < |t|
    decreases |t|, 1
  {
    match ValueAt(t)
    case Fail => Fail
    case Got(v, rest) =>
      var u := SkipWs(rest);
      if Is(u, ',') then ItemsAt(u[1..], items + [v])
      else if Is(u, ']') then Got(JsArr(items + [v]), u[1..])
      else Fail
  }

  /** A new member's name, and what follows its colon. */
  function NameAt(text: Units, ms: seq<JsMember>): (r: Read<Units>)
    ensures r.Got? ==> |r.rest| < |text|
  {
    var t := SkipWs(text);
    if !Is(t, '"') then Fail
    else
      match StringRest(t[1..], [])
      case Fail => Fail
      case Got(name, after) =>
        var c := SkipWs(after);
        if HasName(ms, name) || !Is(c, ':') then Fail else Got(name, c[1..])
  }

  function MembersAt(t: Units, ms: seq<JsMember>): (r: Read<Js>)
    ensures r.Got? ==> |r.rest| < |t|
    decreases |t|, 1
  {
    match NameAt(t, ms)
    case Fail => Fail
    case Got(name, afterColon) =>
      match ValueAt(afterColon)
      case Fail => Fail
      case Got(v, rest) =>
        var u := SkipWs(rest);
        var all := ms + [JsMember(name, v)];
        if Is(u, ',') then MembersAt(u[1..], all)
        else if Is(u, '}') then Got(JsObj(all), u[1..])
        else Fail
  }

  /** parseJSON: one value, and nothing but white space after it. */
  function Parse(text: Units): Option<Js> {
    match ValueAt(text)
    case Fail => None
    case Got(v, rest) => if SkipWs(rest) == [] then Some(v) else None
  }

  // ---------------------------------------------------------------- the parser and its cursor

  /** parseJSON's closures over one text and one index. A method answers None where the parser
      throws; otherwise the cursor has moved to what is left. */
  class Parser {
    const text: Units
    var i: nat

    constructor (t: Units)
      ensures text == t && i == 0
    {
      text := t;
      i := 0;
    }

    ghost predicate Inside()
      reads this
    {
      i <= |text|
    }

    function Left(): Units
      requires Inside()
      reads this
    {
      text[i..]
    }

    /** text[i] === c. */
    predicate At(c: char)
      requires Inside() && c as int < 0x10000
      reads this
    {
      i < |text| && text[i] == c as int
    }

    method Ws()
      requires Inside()
      modifies this
      ensures Inside() && i >= old(i)
      ensures Left() == SkipWs(old(Left()))
    {
      hide SkipWs;
      while i < |text| && IsWs(text[i])
        invariant old(i) <= i <= |text|
        invariant SkipWs(text[i..]) == SkipWs(old(text[i..]))
      {
        SkipOne(text, i);
        i := i + 1;
      }
      if i < |text| {
        SkipOne(text, i);
      } else {
        SkipNothing();
        assert text[i..] == [];
      }
    }

    method Number() returns (r: Option<Js>)
      requires Inside()
      modifies this
      ensures Inside() && i >= old(i)
      ensures match NumberAt(old(Left()))
              case Fail => r.None?
              case Got(v, rest) => r == Some(v) && Left() == rest
    {
      hide NumberLength;
      var n := NumberLength(text[i..]);
      if n == 0 {
        return None;
      }
      assert text[i..][n..] == text[i + n..] && text[i..][..n] == text[i..i + n];
      r := Some(JsNum(text[i..i + n]));
      i := i + n;
    }

    /** string(), called with the cursor on the opening quote. */
    method String() returns (r: Option<Units>)
      requires Inside() && At('"')
      modifies this
      ensures Inside() && i > old(i)
      ensures match StringRest(old(Left())[1..], [])
              case Fail => r.None?
              case Got(s, rest) => r == Some(s) && Left() == rest
    {
      hide UnitAt;
      hide ToWellFormed;
      i := i + 1;
      var out: Units := [];
      ghost var start := Left();
      assert start == old(Left())[1..];
      while !At('"')
        invariant old(i) < i <= |text|
        invariant StringRest(Left(), out) == StringRest(start, [])
        decreases |text| - i
      {
        var u := OneUnit();
        if u.None? {
          return None;
        }
        out := out + [u.value];
      }
      assert Left()[1..] == text[i + 1..];
      i := i + 1;
      r := Some(ToWellFormed(out));
    }

    /** One turn of string()'s loop. */
    method OneUnit() returns (r: Option<Unit>)
      requires Inside()
      modifies this
      ensures Inside() && i >= old(i) && (r.Some? ==> i > old(i))
      ensures match UnitAt(old(Left()))
              case Fail => r.None?
              case Got(u, rest) => r == Some(u) && Left() == rest
    {
      hide HexValue4;
      hide Simple;
      if i == |text| || text[i] < 0x20 {
        return None;
      }
      ghost var t := Left();
      assert t[0] == text[i] && t[1..] == text[i + 1..];
      if text[i] != 0x5C {
        i := i + 1;
        return Some(text[i - 1]);
      }
      if i + 1 == |text| {
        return None;
      }
      assert t[1] == text[i + 1] && t[2..] == text[i + 2..];
      var simple := Simple(text[i + 1]);
      if simple.Some? {
        i := i + 2;
        return simple;
      }
      var unit := HexValue4(text[i + 2..]);
      if text[i + 1] != 0x75 || unit.None? {
        return None;
      }
      HexIsThere(text[i + 2..]);
      assert t[6..] == text[i + 6..];
      i := i + 6;
      r := unit;
    }

    method Value() returns (r: Option<Js>)
      requires Inside()
      modifies this
      ensures Inside() && i >= old(i)
      ensures match ValueAt(old(Left()))
              case Fail => r.None?
              case Got(v, rest) => r == Some(v) && Left() == rest
      decreases |text| - i, 2
    {
      hide SkipWs;
      hide StringRest;
      hide NumberAt;
      hide Literal;
      hide ItemsAt;
      hide MembersAt;
      Ws();
      assert Left() != [] ==> Left()[0] == text[i];
      if At('{') {
        r := Object();
      } else if At('[') {
        r := Array();
      } else if At('"') {
        var s := String();
        r := if s.None? then None else Some(JsStr(s.value));
      } else if At('-') || (i < |text| && Digit(text[i])) {
        r := Number();
      } else {
        r := LiteralHere();
      }
    }

    method LiteralHere() returns (r: Option<Js>)
      requires Inside()
      modifies this
      ensures Inside() && i >= old(i)
      ensures match Literal(old(Left()))
              case Fail => r.None?
              case Got(v, rest) => r == Some(v) && Left() == rest
    {
      hide Encoded;
      var t := text[i..];
      for k := 0 to 3
        invariant i == old(i) && t == Left()
        invariant forall j :: 0 <= j < k ==> !(LITERALS[j].0 <= t)
      {
        var (lit, v) := LITERALS[k];
        assert k == 0 ==> (lit, v) == (Encoded("true"), JsBool(true));
        assert k == 1 ==> (lit, v) == (Encoded("false"), JsBool(false)) && !(LITERALS[0].0 <= t);
        assert k == 2 ==> (lit, v) == (Encoded("null"), JsNull) && !(LITERALS[0].0 <= t) && !(LITERALS[1].0 <= t);
        if lit <= t {
          assert t[|lit|..] == text[i + |lit|..];
          i := i + |lit|;
          return Some(v);
        }
      }
      assert !(LITERALS[0].0 <= t) && !(LITERALS[1].0 <= t) && !(LITERALS[2].0 <= t);
      r := None;
    }

    /** What follows an item or a member: a comma, the closing character, or neither. */
    method Separator(close: char) returns (r: Option<bool>)
      requires Inside() && close as int < 0x10000
      modifies this
      ensures Inside() && i >= old(i) && (r.Some? ==> i > old(i))
      ensures var u := SkipWs(old(Left()));
              match r
              case None => !Is(u, ',') && !Is(u, close)
              case Some(true) => Is(u, ',') && Left() == u[1..]
              case Some(false) => !Is(u, ',') && Is(u, close) && Left() == u[1..]
    {
      hide SkipWs;
      Ws();
      assert Left() != [] ==> Left()[0] == text[i] && Left()[1..] == text[i + 1..];
      if At(',') {
        i := i + 1;
        return Some(true);
      }
      if At(close) {
        i := i + 1;
        return Some(false);
      }
      r := None;
    }

    /** Past an opening character, and past the closing one if nothing is between them. */
    method Open(close: char) returns (empty: bool)
      requires Inside() && i < |text| && close as int < 0x10000
      modifies this
      ensures Inside() && i > old(i)
      ensures var u := SkipWs(old(Left())[1..]);
              empty == Is(u, close) && Left() == if empty then u[1..] else u
    {
      hide SkipWs;
      SkipOne(text, i);
      i := i + 1;
      Ws();
      if i < |text| {
        SkipOne(text, i);
      }
      empty := At(close);
      if empty {
        i := i + 1;
      }
    }

    /** array(), with the cursor on the bracket. */
    method Array() returns (r: Option<Js>)
      requires Inside() && At('[')
      modifies this
      ensures Inside() && i > old(i)
      ensures var u := SkipWs(old(Left())[1..]);
              match (if Is(u, ']') then Got(JsArr([]), u[1..]) else ItemsAt(u, []))
              case Fail => r.None?
              case Got(v, rest) => r == Some(v) && Left() == rest
      decreases |text| - i, 1
    {
      hide SkipWs;
      hide ItemsAt;
      hide MembersAt;
      hide ValueAt;
      hide NameAt;
      hide StringRest;
      hide Literal;
      var empty := Open(']');
      if empty {
        return Some(JsArr([]));
      }
      ghost var u := Left();
      var a: seq<Js> := [];
      var more := true;
      while more
        invariant old(i) < i <= |text|
        invariant more ==> ItemsAt(Left(), a) == ItemsAt(u, [])
        invariant !more ==> ItemsAt(u, []) == Got(JsArr(a), Left())
        decreases |text| - i, more
      {
        var one := OneItem(a);
        if one.None? {
          return None;
        }
        a := a + [one.value.0];
        more := one.value.1;
      }
      r := Some(JsArr(a));
    }

    /** One turn of array()'s loop: an item, and whether a comma follows it. */
    method OneItem(ghost a: seq<Js>) returns (r: Option<(Js, bool)>)
      requires Inside()
      modifies this
      ensures Inside() && i >= old(i)
      ensures r.Some? ==> i > old(i)
      ensures match r
              case None => ItemsAt(old(Left()), a).Fail?
              case Some((one, true)) => ItemsAt(old(Left()), a) == ItemsAt(Left(), a + [one])
              case Some((one, false)) => ItemsAt(old(Left()), a) == Got(JsArr(a + [one]), Left())
      decreases |text| - i, 3
    {
      hide SkipWs;
      hide ValueAt;
      var v := Value();
      if v.None? {
        return None;
      }
      var sep := Separator(']');
      r := if sep.None? then None else Some((v.value, sep.value));
    }

    /** object(), with the cursor on the brace. */
    method Object() returns (r: Option<Js>)
      requires Inside() && At('{')
      modifies this
      ensures Inside() && i > old(i)
      ensures var u := SkipWs(old(Left())[1..]);
              match (if Is(u, '}') then Got(JsObj([]), u[1..]) else MembersAt(u, []))
              case Fail => r.None?
              case Got(v, rest) => r == Some(v) && Left() == rest
      decreases |text| - i, 1
    {
      hide SkipWs;
      hide ItemsAt;
      hide MembersAt;
      hide ValueAt;
      hide NameAt;
      hide StringRest;
      hide Literal;
      var empty := Open('}');
      if empty {
        return Some(JsObj([]));
      }
      ghost var u := Left();
      var m: seq<JsMember> := [];
      var more := true;
      while more
        invariant old(i) < i <= |text|
        invariant more ==> MembersAt(Left(), m) == MembersAt(u, [])
        invariant !more ==> MembersAt(u, []) == Got(JsObj(m), Left())
        decreases |text| - i, more
      {
        var one := OneMember(m);
        if one.None? {
          return None;
        }
        m := m + [one.value.0];
        more := one.value.1;
      }
      r := Some(JsObj(m));
    }

    method Colon() returns (found: bool)
      requires Inside()
      modifies this
      ensures Inside() && i >= old(i)
      ensures var u := SkipWs(old(Left())); found == Is(u, ':') && (found ==> Left() == u[1..])
    {
      hide SkipWs;
      Ws();
      assert Left() != [] ==> Left()[0] == text[i] && Left()[1..] == text[i + 1..];
      found := At(':');
      if found {
        i := i + 1;
      }
    }

    /** The front of object()'s loop: a new name and its colon. */
    method Name(m: seq<JsMember>) returns (r: Option<Units>)
      requires Inside()
      modifies this
      ensures Inside() && i >= old(i) && (r.Some? ==> i > old(i))
      ensures match NameAt(old(Left()), m)
              case Fail => r.None?
              case Got(name, rest) => r == Some(name) && Left() == rest
    {
      hide SkipWs;
      hide StringRest;
      hide HasName;
      Ws();
      assert Left() != [] ==> Left()[0] == text[i];
      if !At('"') {
        return None;
      }
      var k := String();
      if k.None? || HasName(m, k.value) {
        return None;
      }
      var colon := Colon();
      r := if colon then k else None;
    }

    /** One turn of object()'s loop: a member, and whether a comma follows it. */
    method OneMember(m: seq<JsMember>) returns (r: Option<(JsMember, bool)>)
      requires Inside()
      modifies this
      ensures Inside() && i >= old(i)
      ensures r.Some? ==> i > old(i)
      ensures match r
              case None => MembersAt(old(Left()), m).Fail?
              case Some((one, true)) => MembersAt(old(Left()), m) == MembersAt(Left(), m + [one])
              case Some((one, false)) => MembersAt(old(Left()), m) == Got(JsObj(m + [one]), Left())
      decreases |text| - i, 3
    {
      hide SkipWs;
      hide ValueAt;
      hide NameAt;
      var k := Name(m);
      if k.None? {
        return None;
      }
      var v := Value();
      if v.None? {
        return None;
      }
      var sep := Separator('}');
      r := if sep.None? then None else Some((JsMember(k.value, v.value), sep.value));
    }
  }

  const LITERALS: seq<(Units, Js)> :=
    [(Encoded("true"), JsBool(true)), (Encoded("false"), JsBool(false)), (Encoded("null"), JsNull)]

  lemma HexIsThere(t: Units)
    requires HexValue4(t).Some?
    ensures |t| >= 4
  {
  }

  /** parseJSON. */
  method ParseJson(text: Units) returns (r: Option<Js>)
    ensures r == Parse(text)
  {
    hide ValueAt;
    hide SkipWs;
    var p := new Parser(text);
    assert p.Left() == text;
    var v := p.Value();
    if v.None? {
      return None;
    }
    p.Ws();
    if p.i != |text| {
      return None;
    }
    return v;
  }
}
