/** The "<len>:<bytes>" field encoding of the evidence chain (pkg/evidence/chain.go)
    and the signing daemon's reader of it (pkg/ags1/signer/purpose.go). */
module LengthPrefix {
  import opened Decimal

  /** What the chain's `write` closure appends for one field. */
  function Field(s: string): (f: string) {
    Print(|s|) + ":" + s
  }

  function Encode(fields: seq<string>): string {
    if fields == [] then "" else Field(fields[0]) + Encode(fields[1..])
  }

  /** One "<len>:<bytes>" off the front of s, with what follows it. */
  function SplitField(s: string): (r: Option<(string, string)>)
    ensures r.Some? ==> |r.value.1| < |s|
  {
    var colon := IndexOf(s, ':');
    if colon <= 0 then None
    else
      var n := Atoi(s[..colon]);
      var rest := s[colon + 1..];
      if n.None? || n.value < 0 || n.value > |rest| then None
      else Some((rest[..n.value], rest[n.value..]))
  }

  /** Reads a field list off the front of s, consuming s exactly. */
  function ParseFields(s: string): (r: Option<seq<string>>)
    decreases |s|
  {
    if s == "" then Some([])
    else
      match SplitField(s)
      case None => None
      case Some((field, rest)) => Prepend([field], ParseFields(rest))
  }

  function Prepend(front: seq<string>, r: Option<seq<string>>): Option<seq<string>> {
    if r.None? then None else Some(front + r.value)
  }

  lemma PrependNothing(r: Option<seq<string>>)
    ensures Prepend([], r) == r
  {
    if r.Some? {
      assert [] + r.value == r.value;
    }
  }

  lemma PrependTwice(a: seq<string>, b: seq<string>, r: Option<seq<string>>)
    ensures Prepend(a, Prepend(b, r)) == Prepend(a + b, r)
  {
    if r.Some? {
      assert a + (b + r.value) == (a + b) + r.value;
    }
  }

  /** parseLengthPrefixed: the same, as the loop that consumes s and appends to out. */
  method ParseLengthPrefixed(input: string) returns (r: Option<seq<string>>)
    ensures r == ParseFields(input)
  {
    hide ParseFields;
    hide Prepend;
    hide Atoi;
    hide IndexOf;
    var s := input;
    var out: seq<string> := [];
    PrependNothing(ParseFields(input));
    while |s| > 0
      invariant ParseFields(input) == Prepend(out, ParseFields(s))
      decreases |s|
    {
      FieldsStep(out, s);
      var colon := IndexOf(s, ':');
      if colon <= 0 {
        return None;
      }
      var n := Atoi(s[..colon]);
      if n.None? || n.value < 0 || n.value > |s| - colon - 1 {
        return None;
      }
      var field, rest := s[colon + 1..][..n.value], s[colon + 1..][n.value..];
      assert SplitField(s) == Some((field, rest));
      out, s := out + [field], rest;
    }
    PrependEmpty(out);
    r := Some(out);
  }

  /** One turn of the loop. */
  lemma FieldsStep(out: seq<string>, s: string)
    requires s != ""
    ensures Prepend(out, ParseFields(s))
         == if SplitField(s).None? then None
            else Prepend(out + [SplitField(s).value.0], ParseFields(SplitField(s).value.1))
  {
    hide SplitField;
    if SplitField(s).Some? {
      PrependTwice(out, [SplitField(s).value.0], ParseFields(SplitField(s).value.1));
    }
  }

  lemma PrependEmpty(out: seq<string>)
    ensures Prepend(out, ParseFields("")) == Some(out)
  {
    assert out + [] == out;
  }

  /** Field lists Go can build at all: a string's length is an int. */
  ghost predicate Encodable(fields: seq<string>) {
    forall i :: 0 <= i < |fields| ==> |fields[i]| <= INT64_MAX
  }

  lemma SplitAfterField(s: string, rest: string)
    requires |s| <= INT64_MAX
    ensures SplitField(Field(s) + rest) == Some((s, rest))
  {
    var t := Field(s) + rest;
    var digits := Print(|s|);
    assert t == digits + [':'] + (s + rest);
    assert ':' !in digits;
    IndexOfAfter(digits, ':', s + rest);
    assert t[..|digits|] == digits && t[|digits| + 1..] == s + rest;
    AtoiPrint(|s|);
  }

  /** Parsing undoes encoding, on every field list and with the input consumed exactly. */
  lemma {:induction false} ParseEncode(fields: seq<string>)
    requires Encodable(fields)
    ensures ParseFields(Encode(fields)) == Some(fields)
  {
    if fields == [] {
    } else {
      SplitAfterField(fields[0], Encode(fields[1..]));
      ParseEncode(fields[1..]);
      assert [fields[0]] + fields[1..] == fields;
    }
  }

  /** The texts that spell a field list behind given length numerals. */
  function Spell(numerals: seq<string>, fields: seq<string>): string
    requires |numerals| == |fields|
  {
    if fields == [] then "" else numerals[0] + ":" + fields[0] + Spell(numerals[1..], fields[1..])
  }

  lemma SplitSpells(s: string)
    requires SplitField(s).Some?
    ensures var (field, rest) := SplitField(s).value;
            var colon := IndexOf(s, ':');
            colon > 0 && s == s[..colon] + ":" + field + rest && Atoi(s[..colon]) == Some(|field|)
  {
    hide Atoi;
  }

  /** Nothing hides after or between the fields: an accepted text is its fields, each behind
      a numeral that Atoi reads as that field's length, and not a byte more. */
  lemma {:induction false} ParseSpells(s: string) returns (numerals: seq<string>)
    requires ParseFields(s).Some?
    ensures |numerals| == |ParseFields(s).value|
    ensures forall i :: 0 <= i < |numerals| ==> Atoi(numerals[i]) == Some(|ParseFields(s).value[i]|)
    ensures s == Spell(numerals, ParseFields(s).value)
    decreases |s|
  {
    hide SplitField;
    hide IndexOf;
    hide Atoi;
    if s == "" {
      numerals := [];
    } else {
      var (field, rest) := SplitField(s).value;
      SplitSpells(s);
      var p := s[..IndexOf(s, ':')];
      var ns := ParseSpells(rest);
      numerals := [p] + ns;
      assert numerals[1..] == ns && ParseFields(s).value[1..] == ParseFields(rest).value;
    }
  }

  /** The encoding is injective, so no value can shift a field boundary. */
  lemma {:induction false} EncodeInjective(a: seq<string>, b: seq<string>)
    requires Encode(a) == Encode(b)
    ensures a == b
  {
    if a == [] || b == [] {
      EncodeNonEmpty(a);
      EncodeNonEmpty(b);
    } else {
      HeadInjective(a[0], Encode(a[1..]), b[0], Encode(b[1..]));
      EncodeInjective(a[1..], b[1..]);
      assert a == [a[0]] + a[1..] && b == [b[0]] + b[1..];
    }
  }

  lemma EncodeNonEmpty(a: seq<string>)
    ensures Encode(a) == "" <==> a == []
  {
  }

  lemma HeadInjective(x: string, xs: string, y: string, ys: string)
    requires Field(x) + xs == Field(y) + ys
    ensures x == y && xs == ys
  {
    var dx, dy := Print(|x|), Print(|y|);
    assert Field(x) + xs == dx + [':'] + (x + xs);
    assert Field(y) + ys == dy + [':'] + (y + ys);
    assert ':' !in dx && ':' !in dy;
    IndexOfAfter(dx, ':', x + xs);
    IndexOfAfter(dy, ':', y + ys);
    var t := Field(x) + xs;
    assert t[..|dx|] == dx && t[..|dy|] == dy;
    PrintInjective(|x|, |y|);
    assert t[|dx| + 1..] == x + xs && t[|dx| + 1..] == y + ys;
    assert (x + xs)[..|x|] == x && (y + ys)[..|x|] == y;
    assert (x + xs)[|x|..] == xs && (y + ys)[|x|..] == ys;
  }

  lemma {:induction false} EncodeAppend(a: seq<string>, b: seq<string>)
    ensures Encode(a + b) == Encode(a) + Encode(b)
  {
    if a == [] {
      assert a + b == b;
    } else {
      EncodeAppend(a[1..], b);
      assert (a + b)[1..] == a[1..] + b && (a + b)[0] == a[0];
      assert Field(a[0]) + (Encode(a[1..]) + Encode(b)) == Field(a[0]) + Encode(a[1..]) + Encode(b);
    }
  }

  // ---------------------------------------------------------------- a text that stops short

  /** Where a text stops short of its last field: the fields before it, what there is of it, and
      how much it still wants. */
  datatype Cut = Cut(fields: seq<string>, begun: string, wants: nat)

  /** The field that t leaves open, if it leaves one open. */
  function OpenField(t: string): (r: Option<Cut>)
    ensures r.Some? ==> r.value.wants > 0
    decreases |t|
  {
    var colon := IndexOf(t, ':');
    if colon <= 0 then None
    else
      var n, rest := Atoi(t[..colon]), t[colon + 1..];
      if n.None? || n.value < 0 then None
      else if n.value > |rest| then Some(Cut([], rest, n.value - |rest|))
      else
        match OpenField(rest[n.value..])
        case None => None
        case Some(cut) => Some(cut.(fields := [rest[..n.value]] + cut.fields))
  }

  /** The fields of t + s, where s closes the field t leaves open. */
  function Closed(cut: Cut, s: string): Option<seq<string>> {
    if cut.wants > |s| then None
    else Prepend(cut.fields + [cut.begun + s[..cut.wants]], ParseFields(s[cut.wants..]))
  }

  lemma NumeralHoldsNoBreak(p: string)
    requires Atoi(p).Some?
    ensures '\n' !in p
  {
    var digits := if |p| > 0 && (p[0] == '-' || p[0] == '+') then p[1..] else p;
    assert AllDigits(digits);
    assert forall i :: 1 <= i < |p| ==> p[i] == p[1..][i - 1];
  }

  lemma ColonOfFront(t: string, s: string)
    requires ':' in t
    ensures IndexOf(t + s, ':') == IndexOf(t, ':')
  {
    var k := IndexOf(t, ':');
    assert t == t[..k] + [':'] + t[k + 1..];
    assert t + s == t[..k] + [':'] + (t[k + 1..] + s);
    IndexOfAfter(t[..k], ':', t[k + 1..] + s);
  }

  lemma ColonPastBreak(t: string, s: string)
    requires ':' !in t && s != "" && s[0] == '\n'
    ensures SplitField(t + s).None?
  {
    var k := IndexOf(t + s, ':');
    if k > 0 {
      assert forall i :: 0 <= i < |t| ==> (t + s)[i] == t[i];
      assert (t + s)[|t|] == '\n';
      assert k > |t|;
      assert (t + s)[..k][|t|] == '\n';
      if Atoi((t + s)[..k]).Some? {
        NumeralHoldsNoBreak((t + s)[..k]);
      }
    }
  }

  lemma PutBefore(field: string, c: Cut, s: string)
    ensures Closed(c.(fields := [field] + c.fields), s) == Prepend([field], Closed(c, s))
  {
    if c.wants <= |s| {
      var closed := c.fields + [c.begun + s[..c.wants]];
      assert ([field] + c.fields) + [c.begun + s[..c.wants]] == [field] + closed;
      PrependTwice([field], closed, ParseFields(s[c.wants..]));
    }
  }

  /** A line break can only stand inside a field, so a text with one in it is a field list exactly
      if what stands before the break leaves a field open and what follows closes it. */
  lemma {:induction false} ParseAcross(t: string, s: string)
    requires s != "" && s[0] == '\n'
    ensures ParseFields(t + s) == if OpenField(t).None? then None else Closed(OpenField(t).value, s)
    decreases |t|
  {
    hide Atoi;
    hide IndexOf;
    var colon := IndexOf(t, ':');
    if colon < 0 {
      ColonPastBreak(t, s);
    } else {
      ColonOfFront(t, s);
      assert (t + s)[..colon] == t[..colon];
      var n, rest := Atoi(t[..colon]), t[colon + 1..];
      assert (t + s)[colon + 1..] == rest + s;
      if colon > 0 && n.Some? && n.value >= 0 {
        if n.value > |rest| {
          if n.value - |rest| <= |s| {
            assert (rest + s)[..n.value] == rest + s[..n.value - |rest|];
            assert (rest + s)[n.value..] == s[n.value - |rest|..];
            assert [] + [rest + s[..n.value - |rest|]] == [rest + s[..n.value - |rest|]];
          }
        } else {
          var field, after := rest[..n.value], rest[n.value..];
          assert (rest + s)[..n.value] == field && (rest + s)[n.value..] == after + s;
          ParseAcross(after, s);
          if OpenField(after).Some? {
            PutBefore(field, OpenField(after).value, s);
          }
        }
      }
    }
  }

  lemma OpenNumeral(n: nat)
    requires 0 < n <= INT64_MAX
    ensures OpenField(Print(n) + ":") == Some(Cut([], "", n))
  {
    hide IndexOf;
    hide Atoi;
    hide Print;
    var t := Print(n) + ":";
    IndexOfAfter(Print(n), ':', "");
    AtoiPrint(n);
    assert t == Print(n) + [':'] + "" && t[..|Print(n)|] == Print(n);
  }

  lemma OpenAfterField(field: string, after: string)
    requires |field| <= INT64_MAX && OpenField(after).Some?
    ensures OpenField(Field(field) + after)
         == Some(OpenField(after).value.(fields := [field] + OpenField(after).value.fields))
  {
    hide IndexOf;
    hide Atoi;
    hide Print;
    var digits := Print(|field|);
    var t := Field(field) + after;
    assert t == digits + [':'] + (field + after);
    IndexOfAfter(digits, ':', field + after);
    AtoiPrint(|field|);
    assert t[..|digits|] == digits && t[|digits| + 1..] == field + after;
    assert (field + after)[..|field|] == field && (field + after)[|field|..] == after;
  }

  /** A field list with a bare length behind it leaves a field of that length open. */
  lemma {:induction false} OpenAfterFields(fields: seq<string>, n: nat)
    requires Encodable(fields) && 0 < n <= INT64_MAX
    ensures OpenField(Encode(fields) + (Print(n) + ":")) == Some(Cut(fields, "", n))
  {
    hide OpenField;
    hide Field;
    hide Print;
    var t := Print(n) + ":";
    if fields == [] {
      OpenNumeral(n);
      assert Encode(fields) + t == t;
    } else {
      var after := Encode(fields[1..]) + t;
      OpenAfterFields(fields[1..], n);
      OpenAfterField(fields[0], after);
      assert Encode(fields) + t == Field(fields[0]) + after;
      assert [fields[0]] + fields[1..] == fields;
    }
  }
}
