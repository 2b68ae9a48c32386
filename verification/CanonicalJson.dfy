/** The RFC 8785 printer: sdks/python/ags_sdk/jcs.py, on null, booleans, integers, strings,
    arrays and objects. */
module CanonicalJson {
  import opened Decimal
  import opened Text
  import opened Utf16

  /** A Python value; a dict is its members in insertion order, no name twice. */
  datatype Json =
    | Null
    | Bool(b: bool)
    | Int(i: int)
    | Str(s: string)
    | Arr(items: seq<Json>)
    | Obj(members: seq<Member>)

  datatype Member = Member(name: string, value: Json)

  ghost predicate Distinct(ms: seq<Member>) {
    forall i, j :: 0 <= i < j < |ms| ==> ms[i].name != ms[j].name
  }

  /** No dict anywhere holds a name twice. */
  ghost predicate WellFormed(v: Json)
    decreases v
  {
    match v
    case Arr(items) => forall i :: 0 <= i < |items| ==> WellFormed(items[i])
    case Obj(members) => Distinct(members) && forall i :: 0 <= i < |members| ==> WellFormed(members[i].value)
    case _ => true
  }

  // ---------------------------------------------------------------- strings

  /** The body of _serialize_string's loop. */
  function EscapeChar(c: char): (e: string)
    ensures |e| > 0
  {
    if c == '"' then "\\\""
    else if c == '\\' then "\\\\"
    else if c as int == 8 then "\\b"
    else if c as int == 12 then "\\f"
    else if c == '\n' then "\\n"
    else if c == '\r' then "\\r"
    else if c == '\t' then "\\t"
    else if c as int < 0x20 then "\\u" + Hex4(c as int)
    else [c]
  }

  function EscapeAll(s: string): string {
    if s == "" then "" else EscapeChar(s[0]) + EscapeAll(s[1..])
  }

  function StringText(s: string): string {
    "\"" + EscapeAll(s) + "\""
  }

  /** "".join over a list of pieces. */
  function Concat(pieces: seq<string>): string {
    if pieces == [] then "" else Concat(pieces[..|pieces| - 1]) + pieces[|pieces| - 1]
  }

  /** _serialize_string. */
  method SerializeString(value: string) returns (r: string)
    ensures r == StringText(value)
  {
    hide EscapeChar;
    var out := ["\""];
    for i := 0 to |value|
      invariant Concat(out) + EscapeAll(value[i..]) == "\"" + EscapeAll(value)
    {
      assert value[i..][0] == value[i] && value[i..][1..] == value[i + 1..];
      var piece := EscapeChar(value[i]);
      ConcatPush(out, piece);
      assert Concat(out) + (piece + EscapeAll(value[i + 1..])) == Concat(out) + piece + EscapeAll(value[i + 1..]);
      out := out + [piece];
    }
    assert value[|value|..] == "";
    ConcatPush(out, "\"");
    r := Concat(out + ["\""]);
  }

  lemma ConcatPush(pieces: seq<string>, p: string)
    ensures Concat(pieces + [p]) == Concat(pieces) + p
  {
    assert (pieces + [p])[..|pieces|] == pieces;
  }

  // ---------------------------------------------------------------- member order

  /** sorted(items, key=_utf16_sort_key): by the names' UTF-16 code units. */
  predicate Before(a: string, b: string) {
    Less(Encoded(a), Encoded(b))
  }

  /** encode("utf-16-be"): each code unit as its high byte and its low byte. */
  function BigEndian(t: Units): seq<int> {
    if t == [] then [] else [t[0] / 256, t[0] % 256] + BigEndian(t[1..])
  }

  /** The bytes the source compares stand in the order of the code units. */
  lemma {:induction false} BytesInUnitOrder(a: Units, b: Units)
    ensures Less(BigEndian(a), BigEndian(b)) <==> Less(a, b)
    decreases |a|
  {
    if a == [] || b == [] {
    } else {
      var (x, y) := (a[0], b[0]);
      BytesInUnitOrder(a[1..], b[1..]);
      assert BigEndian(a) == [x / 256] + ([x % 256] + BigEndian(a[1..]));
      assert BigEndian(b) == [y / 256] + ([y % 256] + BigEndian(b[1..]));
      LessHeads(x / 256, [x % 256] + BigEndian(a[1..]), y / 256, [y % 256] + BigEndian(b[1..]));
      LessHeads(x % 256, BigEndian(a[1..]), y % 256, BigEndian(b[1..]));
    }
  }

  lemma LessHeads(x: int, a: seq<int>, y: int, b: seq<int>)
    ensures Less([x] + a, [y] + b) <==> x < y || (x == y && Less(a, b))
  {
    assert ([x] + a)[1..] == a && ([y] + b)[1..] == b;
  }

  /** So the names are sorted as jcs.py sorts them. */
  lemma SortedByBytes(a: string, b: string)
    ensures Before(a, b) <==> Less(BigEndian(Encoded(a)), BigEndian(Encoded(b)))
  {
    BytesInUnitOrder(Encoded(a), Encoded(b));
  }

  function Insert(m: Member, ms: seq<Member>): (r: seq<Member>)
    ensures |r| == |ms| + 1
  {
    if ms == [] then [m]
    else if Before(ms[0].name, m.name) then [ms[0]] + Insert(m, ms[1..])
    else [m] + ms
  }

  function Sorted(ms: seq<Member>): (r: seq<Member>)
    ensures |r| == |ms|
  {
    if ms == [] then [] else Insert(ms[0], Sorted(ms[1..]))
  }

  ghost predicate Ascending(ms: seq<Member>) {
    forall i, j :: 0 <= i < j < |ms| ==> Before(ms[i].name, ms[j].name)
  }

  // ---------------------------------------------------------------- values

  /** The value with every dict's members put in canonical order. */
  function Canon(v: Json): Json
    decreases v
  {
    match v
    case Arr(items) => Arr(CanonItems(items))
    case Obj(members) => Obj(Sorted(CanonMembers(members)))
    case _ => v
  }

  function CanonItems(items: seq<Json>): (r: seq<Json>)
    ensures |r| == |items|
    decreases items
  {
    seq(|items|, i requires 0 <= i < |items| => Canon(items[i]))
  }

  function CanonMembers(ms: seq<Member>): (r: seq<Member>)
    ensures |r| == |ms|
    decreases ms
  {
    seq(|ms|, i requires 0 <= i < |ms| => Member(ms[i].name, Canon(ms[i].value)))
  }

  /** The text of a value, its dicts printed in the order they are in. */
  function Written(v: Json): string
    decreases v
  {
    match v
    case Null => "null"
    case Bool(b) => if b then "true" else "false"
    case Int(i) => PrintInt(i)
    case Str(s) => StringText(s)
    case Arr(items) => "[" + WrittenItems(items) + "]"
    case Obj(members) => "{" + WrittenMembers(members) + "}"
  }

  function WrittenItems(items: seq<Json>): string
    decreases items
  {
    if items == [] then ""
    else Written(items[0]) + (if |items| == 1 then "" else "," + WrittenItems(items[1..]))
  }

  function WrittenMembers(ms: seq<Member>): string
    decreases ms
  {
    if ms == [] then ""
    else StringText(ms[0].name) + ":" + Written(ms[0].value) + (if |ms| == 1 then "" else "," + WrittenMembers(ms[1..]))
  }

  /** _serialize. */
  function Serialize(v: Json): string {
    Written(Canon(v))
  }

  // ---------------------------------------------------------------- sorting

  lemma {:induction false} InsertHas(m: Member, ms: seq<Member>)
    ensures forall x :: x in Insert(m, ms) <==> x == m || x in ms
  {
    if ms == [] {
    } else {
      assert ms == [ms[0]] + ms[1..];
      InsertHas(m, ms[1..]);
    }
  }

  lemma {:induction false} SortedHas(ms: seq<Member>)
    ensures forall x :: x in Sorted(ms) <==> x in ms
  {
    if ms == [] {
    } else {
      assert ms == [ms[0]] + ms[1..];
      SortedHas(ms[1..]);
      InsertHas(ms[0], Sorted(ms[1..]));
    }
  }

  lemma {:induction false} InsertAscending(m: Member, ms: seq<Member>)
    requires Ascending(ms) && forall x :: x in ms ==> x.name != m.name
    ensures Ascending(Insert(m, ms))
  {
    hide Before;
    if ms == [] {
    } else {
      NamesCompare(ms[0].name, m.name);
      if Before(ms[0].name, m.name) {
        InsertAscending(m, ms[1..]);
        InsertHas(m, ms[1..]);
        var r := Insert(m, ms[1..]);
        assert forall x :: x in ms[1..] ==> Before(ms[0].name, x.name);
        assert forall j :: 0 <= j < |r| ==> r[j] in r && Before(ms[0].name, r[j].name);
      } else {
        forall j | 0 <= j < |ms|
          ensures Before(m.name, ms[j].name)
        {
          if j > 0 {
            BeforeTransitive(m.name, ms[0].name, ms[j].name);
          }
        }
      }
    }
  }

  lemma NamesCompare(a: string, b: string)
    ensures a == b || Before(a, b) || Before(b, a)
  {
    LessTotal(Encoded(a), Encoded(b));
    if Encoded(a) == Encoded(b) {
      EncodedInjective(a, b);
    }
  }

  lemma BeforeTransitive(a: string, b: string, c: string)
    requires Before(a, b) && Before(b, c)
    ensures Before(a, c)
  {
    LessTransitive(Encoded(a), Encoded(b), Encoded(c));
  }

  lemma NotBeforeItself(a: string)
    ensures !Before(a, a)
  {
    LessIrreflexive(Encoded(a));
  }

  /** Sorting puts distinct names in strictly ascending order. */
  lemma {:induction false} SortedAscending(ms: seq<Member>)
    requires Distinct(ms)
    ensures Ascending(Sorted(ms))
  {
    hide Before;
    if ms == [] {
    } else {
      SortedAscending(ms[1..]);
      SortedHas(ms[1..]);
      InsertAscending(ms[0], Sorted(ms[1..]));
    }
  }

  lemma AscendingIsDistinct(ms: seq<Member>)
    requires Ascending(ms)
    ensures Distinct(ms)
  {
    hide Before;
    forall i, j | 0 <= i < j < |ms|
      ensures ms[i].name != ms[j].name
    {
      NotBeforeItself(ms[i].name);
    }
  }

  /** One ascending list inside another that is no longer is the other. */
  lemma {:induction false} AscendingUnique(a: seq<Member>, b: seq<Member>)
    requires Ascending(a) && Ascending(b) && |a| >= |b| && forall x :: x in a ==> x in b
    ensures a == b
    decreases |a|
  {
    hide Before;
    if a == [] {
    } else {
      assert a[0] in b;
      var j :| 0 <= j < |b| && b[j] == a[0];
      forall x | x in a[1..]
        ensures x in b[j + 1..]
      {
        LaterMember(a, b, j, x);
      }
      AscendingUnique(a[1..], b[j + 1..]);
      assert a == [a[0]] + a[1..] && b == b[..j] + [b[j]] + b[j + 1..];
    }
  }

  lemma LaterMember(a: seq<Member>, b: seq<Member>, j: nat, x: Member)
    requires Ascending(a) && Ascending(b) && j < |b| && a != [] && b[j] == a[0] && x in a[1..] && x in b
    ensures x in b[j + 1..]
  {
    hide Before;
    var i :| 0 <= i < |b| && b[i] == x;
    assert Before(b[j].name, x.name);
    NotBeforeItself(x.name);
    if i < j {
      BeforeTransitive(b[j].name, b[i].name, b[j].name);
      NotBeforeItself(b[j].name);
    }
    assert i > j ==> b[j + 1..][i - j - 1] == x;
  }

  /** Sorting looks at the names alone, so values may be made canonical before or after it. */
  lemma {:induction false} SortedOfCanon(ms: seq<Member>)
    ensures Sorted(CanonMembers(ms)) == CanonMembers(Sorted(ms))
  {
    hide Canon;
    hide Before;
    if ms == [] {
    } else {
      SortedOfCanon(ms[1..]);
      assert CanonMembers(ms)[1..] == CanonMembers(ms[1..]);
      InsertOfCanon(ms[0], Sorted(ms[1..]));
    }
  }

  lemma {:induction false} InsertOfCanon(m: Member, ms: seq<Member>)
    ensures Insert(Member(m.name, Canon(m.value)), CanonMembers(ms)) == CanonMembers(Insert(m, ms))
  {
    hide Canon;
    hide Before;
    if ms == [] {
    } else {
      InsertOfCanon(m, ms[1..]);
      assert CanonMembers(ms)[1..] == CanonMembers(ms[1..]);
    }
  }

  // ---------------------------------------------------------------- _serialize's own equations

  function ItemTexts(items: seq<Json>): (r: seq<string>)
    ensures |r| == |items|
  {
    seq(|items|, i requires 0 <= i < |items| => Serialize(items[i]))
  }

  function MemberTexts(ms: seq<Member>): (r: seq<string>)
    ensures |r| == |ms|
  {
    seq(|ms|, i requires 0 <= i < |ms| => StringText(ms[i].name) + ":" + Serialize(ms[i].value))
  }

  /** _serialize: an array's items joined by commas, a dict's members sorted and joined. */
  lemma SerializeIs(v: Json)
    ensures v.Arr? ==> Serialize(v) == "[" + Join(ItemTexts(v.items), ",") + "]"
    ensures v.Obj? ==> Serialize(v) == "{" + Join(MemberTexts(Sorted(v.members)), ",") + "}"
    ensures v.Str? ==> Serialize(v) == StringText(v.s)
    ensures v.Int? ==> Serialize(v) == PrintInt(v.i)
  {
    hide Sorted;
    hide StringText;
    if v.Arr? {
      ItemsJoined(v.items);
    } else if v.Obj? {
      SortedOfCanon(v.members);
      MembersJoined(Sorted(v.members));
    }
  }

  lemma {:induction false} ItemsJoined(items: seq<Json>)
    ensures WrittenItems(CanonItems(items)) == Join(ItemTexts(items), ",")
  {
    hide Canon;
    hide Written;
    if items == [] {
    } else {
      ItemsJoined(items[1..]);
      assert CanonItems(items)[1..] == CanonItems(items[1..]);
      assert ItemTexts(items)[1..] == ItemTexts(items[1..]);
    }
  }

  lemma {:induction false} MembersJoined(ms: seq<Member>)
    ensures WrittenMembers(CanonMembers(ms)) == Join(MemberTexts(ms), ",")
  {
    hide Canon;
    hide Written;
    hide StringText;
    if ms == [] {
    } else {
      MembersJoined(ms[1..]);
      assert CanonMembers(ms)[1..] == CanonMembers(ms[1..]);
      assert MemberTexts(ms)[1..] == MemberTexts(ms[1..]);
    }
  }

  // ---------------------------------------------------------------- equality of dicts

  /** Python's == on these values: a dict's members match by name, in whatever order. */
  ghost predicate SameValue(v: Json, w: Json)
    decreases v
  {
    match v
    case Arr(items) =>
      w.Arr? && |items| == |w.items| && forall i :: 0 <= i < |items| ==> SameValue(items[i], w.items[i])
    case Obj(members) =>
      w.Obj? && |members| == |w.members| && forall i :: 0 <= i < |members| ==> HasMember(members[i], w.members)
    case _ => v == w
  }

  ghost predicate HasMember(m: Member, ms: seq<Member>)
    decreases m
  {
    exists j :: 0 <= j < |ms| && ms[j].name == m.name && SameValue(m.value, ms[j].value)
  }

  lemma {:induction false} CanonIffSame(v: Json, w: Json)
    requires WellFormed(v) && WellFormed(w)
    ensures Canon(v) == Canon(w) <==> SameValue(v, w)
    decreases v
  {
    hide Sorted;
    match v
    case Arr(items) =>
      if w.Arr? && |items| == |w.items| {
        forall i | 0 <= i < |items|
          ensures CanonItems(items)[i] == CanonItems(w.items)[i] <==> SameValue(items[i], w.items[i])
        {
          CanonIffSame(items[i], w.items[i]);
        }
        assert CanonItems(items) == CanonItems(w.items) <==>
               forall i :: 0 <= i < |items| ==> CanonItems(items)[i] == CanonItems(w.items)[i];
      } else if w.Arr? {
        assert |CanonItems(items)| != |CanonItems(w.items)|;
      }
    case Obj(members) =>
      if w.Obj? && |members| == |w.members| {
        forall i, j | 0 <= i < |members| && 0 <= j < |w.members|
          ensures Canon(members[i].value) == Canon(w.members[j].value)
             <==> SameValue(members[i].value, w.members[j].value)
        {
          assert members[i].value < members[i];
          CanonIffSame(members[i].value, w.members[j].value);
        }
        ObjectsIffSame(members, w.members);
      } else if w.Obj? {
        assert |Sorted(CanonMembers(members))| != |Sorted(CanonMembers(w.members))|;
      }
    case _ =>
  }

  lemma CanonDistinct(ms: seq<Member>)
    ensures Distinct(CanonMembers(ms)) <==> Distinct(ms)
  {
    hide Canon;
    assert forall i :: 0 <= i < |ms| ==> CanonMembers(ms)[i].name == ms[i].name;
  }

  /** A member has its match exactly when its canonical form is there. */
  lemma MatchIsCanon(m: Member, ns: seq<Member>)
    requires forall j :: 0 <= j < |ns| ==> (Canon(m.value) == Canon(ns[j].value) <==> SameValue(m.value, ns[j].value))
    ensures HasMember(m, ns) <==> Member(m.name, Canon(m.value)) in CanonMembers(ns)
  {
    hide Canon;
    hide SameValue;
    var c, b := Member(m.name, Canon(m.value)), CanonMembers(ns);
    if HasMember(m, ns) {
      var j :| 0 <= j < |ns| && ns[j].name == m.name && SameValue(m.value, ns[j].value);
      assert b[j] == c;
    }
    if c in b {
      var j :| 0 <= j < |b| && b[j] == c;
      assert ns[j].name == m.name && SameValue(m.value, ns[j].value);
    }
  }

  lemma SortedIffSubset(a: seq<Member>, b: seq<Member>)
    requires |a| == |b| && Distinct(a) && Distinct(b)
    ensures Sorted(a) == Sorted(b) <==> forall i :: 0 <= i < |a| ==> a[i] in b
  {
    hide Sorted;
    hide Ascending;
    hide Distinct;
    SortedHas(a);
    SortedHas(b);
    SortedAscending(a);
    SortedAscending(b);
    if forall i :: 0 <= i < |a| ==> a[i] in b {
      assert forall x :: x in Sorted(a) ==> x in Sorted(b);
      AscendingUnique(Sorted(a), Sorted(b));
    }
    if Sorted(a) == Sorted(b) {
      assert forall i :: 0 <= i < |a| ==> a[i] in a && a[i] in Sorted(a);
    }
  }

  lemma ObjectsIffSame(ms: seq<Member>, ns: seq<Member>)
    requires |ms| == |ns| && Distinct(ms) && Distinct(ns)
    requires forall i, j :: 0 <= i < |ms| && 0 <= j < |ns| ==>
               (Canon(ms[i].value) == Canon(ns[j].value) <==> SameValue(ms[i].value, ns[j].value))
    ensures Sorted(CanonMembers(ms)) == Sorted(CanonMembers(ns))
       <==> forall i :: 0 <= i < |ms| ==> HasMember(ms[i], ns)
  {
    hide Canon;
    hide SameValue;
    hide HasMember;
    hide Sorted;
    hide Distinct;
    CanonDistinct(ms);
    CanonDistinct(ns);
    SortedIffSubset(CanonMembers(ms), CanonMembers(ns));
    forall i | 0 <= i < |ms|
      ensures HasMember(ms[i], ns) <==> CanonMembers(ms)[i] in CanonMembers(ns)
    {
      MatchIsCanon(ms[i], ns);
    }
  }

  /** Canonical values are well formed values. */
  lemma {:induction false} CanonWellFormed(v: Json)
    requires WellFormed(v)
    ensures WellFormed(Canon(v))
    decreases v
  {
    hide Sorted;
    match v
    case Arr(items) =>
      forall i | 0 <= i < |items|
        ensures WellFormed(CanonItems(items)[i])
      {
        CanonWellFormed(items[i]);
      }
    case Obj(members) =>
      var cs := CanonMembers(members);
      forall i | 0 <= i < |members|
        ensures WellFormed(cs[i].value)
      {
        assert members[i].value < members[i];
        CanonWellFormed(members[i].value);
      }
      CanonDistinct(members);
      SortedHas(cs);
      SortedAscending(cs);
      AscendingIsDistinct(Sorted(cs));
      assert forall i :: 0 <= i < |Sorted(cs)| ==> Sorted(cs)[i] in cs;
    case _ =>
  }
}
