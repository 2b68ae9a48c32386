/** Header normalisation: pkg/ags1/canonicalhttp/normalize.go. */
module HeaderValues {
  import opened Text
  import opened Profile

  predicate HasBreak(s: string) {
    '\r' in s || '\n' in s
  }

  /** Every line break, a CRLF counting once, turned into a space. */
  function Unbroken(s: string): (r: string)
    ensures !HasBreak(r)
  {
    if s == "" then ""
    else if "\r\n" <= s then " " + Unbroken(s[2..])
    else if s[0] == '\r' || s[0] == '\n' then " " + Unbroken(s[1..])
    else [s[0]] + Unbroken(s[1..])
  }

  ghost predicate DoubleSpaceAt(s: string, i: int) {
    0 <= i < |s| - 1 && s[i] == ' ' && s[i + 1] == ' '
  }

  ghost predicate HasDoubleSpace(s: string) {
    exists i :: DoubleSpaceAt(s, i)
  }

  /** Every run of spaces made one space. */
  function Squash(s: string): (r: string)
    ensures |r| <= |s| && (forall c :: c in r ==> c in s)
    ensures r == "" <==> s == ""
    ensures s != "" ==> r[0] == s[0]
  {
    if |s| < 2 then s
    else if s[0] == ' ' && s[1] == ' ' then Squash(s[1..])
    else [s[0]] + Squash(s[1..])
  }

  /** The value NormalizeHeaderValue arrives at. */
  function NormalValue(v: string): (r: string)
    ensures !HasBreak(r) && Trimmed(r)
  {
    TrimSpace(if HasBreak(v) then Squash(Unbroken(v)) else v)
  }

  /** NormalizeHeaderValue: it ends, and with a value in which no line break and, if there was
      one, no double space is left. */
  method NormalizeHeaderValue(value: string) returns (r: string)
    ensures r == NormalValue(value)
    ensures HasBreak(value) ==> !HasDoubleSpace(r)
  {
    var v := value;
    if HasBreak(v) {
      v := ReplaceAll(v, "\r\n", " ");
      v := ReplaceAll(v, "\r", " ");
      v := ReplaceAll(v, "\n", " ");
      ThreeReplacements(value);
      while HasDoubleSpaceNow(v)
        invariant Squash(v) == Squash(Unbroken(value))
        decreases |v|
      {
        SquashOfReplaced(v);
        ReplacedIsShorter(v);
        v := ReplaceAll(v, "  ", " ");
      }
      SquashIsIdentity(v);
      TrimKeepsSingle(v);
    }
    r := TrimSpace(v);
  }

  /** strings.Contains(v, "  "). */
  predicate HasDoubleSpaceNow(v: string)
    ensures HasDoubleSpaceNow(v) <==> HasDoubleSpace(v)
  {
    var found := |v| >= 2 && ((v[0] == ' ' && v[1] == ' ') || HasDoubleSpaceNow(v[1..]));
    assert HasDoubleSpace(v) <==> found by {
      if |v| >= 2 {
        assert forall i :: DoubleSpaceAt(v, i) ==> i == 0 || DoubleSpaceAt(v[1..], i - 1);
        assert forall i :: DoubleSpaceAt(v[1..], i) ==> DoubleSpaceAt(v, i + 1);
        assert v[0] == ' ' && v[1] == ' ' ==> DoubleSpaceAt(v, 0);
      }
    }
    found
  }

  lemma ReplaceHead(c: char, x: string, pattern: string, replacement: string)
    requires |pattern| == 1
    ensures ReplaceAll([c] + x, pattern, replacement)
         == (if c == pattern[0] then replacement else [c]) + ReplaceAll(x, pattern, replacement)
  {
    assert ([c] + x)[1..] == x;
    assert pattern <= [c] + x <==> c == pattern[0];
  }

  /** The three replacements together. */
  lemma {:induction false} ThreeReplacements(v: string)
    ensures ReplaceAll(ReplaceAll(ReplaceAll(v, "\r\n", " "), "\r", " "), "\n", " ") == Unbroken(v)
  {
    hide HasBreak;
    if v == "" {
    } else {
      var crlf := "\r\n" <= v;
      var head, tail := if crlf then ' ' else v[0], if crlf then v[2..] else v[1..];
      ThreeReplacements(tail);
      var one := ReplaceAll(tail, "\r\n", " ");
      FirstReplacement(v);
      assert ReplaceAll(v, "\r\n", " ") == [head] + one;
      ReplaceHead(head, one, "\r", " ");
      var two := ReplaceAll(one, "\r", " ");
      ReplaceHead(if head == '\r' then ' ' else head, two, "\n", " ");
    }
  }

  lemma FirstReplacement(v: string)
    requires v != ""
    ensures var crlf := "\r\n" <= v;
            ReplaceAll(v, "\r\n", " ") == [if crlf then ' ' else v[0]] + ReplaceAll(if crlf then v[2..] else v[1..], "\r\n", " ")
  {
    if |v| == 1 {
      assert v[1..] == "" && ReplaceAll("", "\r\n", " ") == "";
      assert v == [v[0]] + "";
    }
  }

  predicate StartsWithSpace(s: string) {
    s != "" && s[0] == ' '
  }

  lemma SquashCons(c: char, x: string)
    ensures Squash([c] + x) == if c == ' ' && StartsWithSpace(x) then Squash(x) else [c] + Squash(x)
  {
    assert ([c] + x)[1..] == x;
  }

  /** One round of replacing double spaces changes no run's collapse. */
  lemma {:induction false} SquashOfReplaced(v: string)
    ensures Squash(ReplaceAll(v, "  ", " ")) == Squash(v)
    ensures StartsWithSpace(ReplaceAll(v, "  ", " ")) <==> StartsWithSpace(v)
    decreases |v|
  {
    hide Squash;
    if |v| < 2 {
    } else {
      if "  " <= v {
        var w := v[2..];
        SquashOfReplaced(w);
        assert v == [' '] + ([' '] + w) && v[0] == ' ' && v[1] == ' ';
        SquashCons(' ', [' '] + w);
        SquashCons(' ', w);
        SquashCons(' ', ReplaceAll(w, "  ", " "));
      } else {
        var w := v[1..];
        SquashOfReplaced(w);
        assert v == [v[0]] + w;
        SquashCons(v[0], w);
        SquashCons(v[0], ReplaceAll(w, "  ", " "));
      }
    }
  }

  lemma {:induction false} ReplacedIsShorter(v: string)
    ensures |ReplaceAll(v, "  ", " ")| <= |v|
    ensures HasDoubleSpaceNow(v) ==> |ReplaceAll(v, "  ", " ")| < |v|
    decreases |v|
  {
    hide HasDoubleSpace;
    if |v| < 2 {
    } else {
      if "  " <= v {
        ReplacedIsShorter(v[2..]);
      } else {
        ReplacedIsShorter(v[1..]);
      }
    }
  }

  lemma {:induction false} SquashIsIdentity(v: string)
    requires !HasDoubleSpaceNow(v)
    ensures Squash(v) == v
  {
    hide HasDoubleSpace;
    if |v| < 2 {
    } else {
      SquashIsIdentity(v[1..]);
      assert v == [v[0]] + v[1..];
    }
  }

  lemma {:induction false} TrimKeepsSingle(v: string)
    requires !HasDoubleSpace(v)
    ensures !HasDoubleSpace(TrimSpace(v))
    decreases |v|
  {
    hide IsSpace;
    if v == "" {
    } else {
      if IsSpace(v[0]) {
        assert forall i :: DoubleSpaceAt(v[1..], i) ==> DoubleSpaceAt(v, i + 1);
        TrimKeepsSingle(v[1..]);
      } else if IsSpace(v[|v| - 1]) {
        var front := v[..|v| - 1];
        assert forall i :: 0 <= i < |front| ==> front[i] == v[i];
        assert forall i :: DoubleSpaceAt(front, i) ==> DoubleSpaceAt(v, i);
        TrimKeepsSingle(front);
      }
    }
  }

  // ---------------------------------------------------------------- whole header sets

  function NormalValues(vs: seq<string>): (r: seq<string>)
    ensures |r| == |vs|
  {
    seq(|vs|, i requires 0 <= i < |vs| => NormalValue(vs[i]))
  }

  predicate Repeated(h: map<string, seq<string>>, name: string) {
    name in h && |h[name]| > 1 && IsSingletonHeader(name)
  }

  /** The headers of the canonical request, given lower-case names. */
  function NormalHeaders(h: map<string, seq<string>>): Outcome<map<string, string>> {
    if exists name :: name in h && Repeated(h, name) then Err(DuplicateHeader)
    else Ok(map name | name in h && h[name] != [] :: Join(NormalValues(h[name]), ", "))
  }

  /** NormalizeHeaders: Go visits the names in any order, and the order does not matter. */
  method NormalizeHeaders(h: map<string, seq<string>>) returns (r: Outcome<map<string, string>>)
    ensures r == NormalHeaders(h)
  {
    hide IsSingletonHeader;
    hide NormalValue;
    var out: map<string, string> := map[];
    var left := h.Keys;
    while left != {}
      invariant left <= h.Keys
      invariant forall name :: name in h && name !in left ==> !Repeated(h, name)
      invariant out == map name | name in h && name !in left && h[name] != [] :: Join(NormalValues(h[name]), ", ")
      decreases |left|
    {
      var name :| name in left;
      var values := h[name];
      left := left - {name};
      if |values| == 0 {
        continue;
      }
      if |values| > 1 && IsSingletonHeader(name) {
        assert Repeated(h, name);
        return Err(DuplicateHeader);
      }
      var cleaned: seq<string> := [];
      for i := 0 to |values|
        invariant cleaned == NormalValues(values)[..i]
      {
        var v := NormalizeHeaderValue(values[i]);
        cleaned := cleaned + [v];
      }
      assert cleaned == NormalValues(values);
      out := out[name := Join(cleaned, ", ")];
    }
    assert out == map name | name in h && h[name] != [] :: Join(NormalValues(h[name]), ", ");
    return Ok(out);
  }

  /** No normalised header carries a line break into the signature base. */
  lemma NormalHeadersHaveNoBreak(h: map<string, seq<string>>, name: string)
    requires NormalHeaders(h).Ok? && name in NormalHeaders(h).value
    ensures !HasBreak(NormalHeaders(h).value[name])
  {
    hide NormalValue;
    NotInJoin('\r', NormalValues(h[name]), ", ");
    NotInJoin('\n', NormalValues(h[name]), ", ");
  }
}
