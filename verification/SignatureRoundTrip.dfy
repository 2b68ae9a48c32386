/** ParseSignatureInput undoes BuildSignatureInput, and exactly when. */
module SignatureRoundTrip {
  import opened Decimal
  import opened Text
  import opened Profile
  import opened SignatureInput

  // ---------------------------------------------------------------- trimming

  lemma {:induction false} TrimEnd(s: string) returns (n: nat)
    requires s != "" && !IsSpace(s[0])
    ensures 0 < n <= |s| && TrimSpace(s) == s[..n] && !IsSpace(s[n - 1])
    ensures forall j :: n <= j < |s| ==> IsSpace(s[j])
    decreases |s|
  {
    hide IsSpace;
    if IsSpace(s[|s| - 1]) {
      var t := s[..|s| - 1];
      assert t != "" && t[0] == s[0];
      n := TrimEnd(t);
      assert s[..n] == t[..n];
    } else {
      n := |s|;
      assert s[..n] == s;
    }
  }

  lemma TrimWhole(s: string)
    requires s != "" && !IsSpace(s[0]) && !IsSpace(s[|s| - 1])
    ensures TrimSpace(s) == s
  {
  }

  // ---------------------------------------------------------------- the label and the component list

  /** A character of a component identifier: none of them means anything to the parser. */
  predicate IdChar(c: char) {
    'a' <= c <= 'z' || c == '-' || c == '@'
  }

  lemma SupportedIsPlain(g: Glyphs, c: string)
    requires IsSupported(c)
    ensures |c| > 0 && (forall i :: 0 <= i < |c| ==> IdChar(c[i])) && Plain(g, c)
  {
    assert forall i :: 0 <= i < |METHOD| ==> IdChar(METHOD[i]);
    assert forall i :: 0 <= i < |AUTHORITY| ==> IdChar(AUTHORITY[i]);
    assert forall i :: 0 <= i < |PATH| ==> IdChar(PATH[i]);
    assert forall i :: 0 <= i < |QUERY| ==> IdChar(QUERY[i]);
    assert forall i :: 0 <= i < |CONTENT_DIGEST| ==> IdChar(CONTENT_DIGEST[i]);
    assert forall i :: 0 <= i < |CONTENT_TYPE| ==> IdChar(CONTENT_TYPE[i]);
    assert forall i :: 0 <= i < |AGENT_ID| ==> IdChar(AGENT_ID[i]);
    assert forall i :: 0 <= i < |TENANT_ID| ==> IdChar(TENANT_ID[i]);
    assert forall i :: 0 <= i < |REQUEST_ID| ==> IdChar(REQUEST_ID[i]);
    assert forall i :: 0 <= i < |VERSION| ==> IdChar(VERSION[i]);
    assert forall i :: 0 <= i < |TRACE_PARENT| ==> IdChar(TRACE_PARENT[i]);
    assert c in [METHOD, AUTHORITY, PATH, QUERY, CONTENT_DIGEST, CONTENT_TYPE, AGENT_ID, TENANT_ID, REQUEST_ID,
                 VERSION, TRACE_PARENT];
  }

  lemma ShownIs(g: Glyphs, c: string)
    requires IsSupported(c)
    ensures Shown(g, c) == "\"" + c + "\"" + (if RequiresStrict(c) then ";sf" else "")
    ensures forall i :: 0 <= i < |c| ==> IdChar(c[i])
    ensures |c| > 0
  {
    hide IsSupported;
    SupportedIsPlain(g, c);
    EscapePlain(g, c);
  }

  /** Each component is read back as itself. */
  lemma ComponentShown(g: Glyphs, c: string)
    requires IsSupported(c)
    ensures Component(Shown(g, c)) == Ok(c)
    ensures Shown(g, c) != "" && SpaceFree(Shown(g, c)) && ')' !in Shown(g, c)
  {
    hide IsSupported;
    hide Shown;
    hide RequiresStrict;
    ShownIs(g, c);
    var name := "\"" + c + "\"";
    var f := Shown(g, c);
    assert ';' !in name;
    assert name[1..|name| - 1] == c;
    if RequiresStrict(c) {
      assert f == name + [';'] + "sf";
      IndexOfAfter(name, ';', "sf");
      assert f[..|name|] == name && f[|name| + 1..] == "sf";
    } else {
      assert f == name;
    }
  }

  lemma {:induction false} ComponentsShown(g: Glyphs, cs: seq<string>)
    requires forall i :: 0 <= i < |cs| ==> IsSupported(cs[i])
    ensures ComponentsOf(ShownAll(g, cs)) == Ok(cs)
  {
    hide IsSupported;
    hide Shown;
    hide Component;
    var n := |cs|;
    if n == 0 {
    } else {
      ComponentsShown(g, cs[..n - 1]);
      assert ShownAll(g, cs)[..n - 1] == ShownAll(g, cs[..n - 1]);
      ComponentShown(g, cs[n - 1]);
      assert cs[..n - 1] + [cs[n - 1]] == cs;
    }
  }

  /** The inner list is read back whole, and the list's closing bracket is where it ends. */
  lemma InnerList(g: Glyphs, cs: seq<string>)
    requires cs != [] && forall i :: 0 <= i < |cs| ==> IsSupported(cs[i])
    ensures ComponentsIn(Join(ShownAll(g, cs), " ")) == Ok(cs)
    ensures ')' !in Join(ShownAll(g, cs), " ")
  {
    hide IsSupported;
    hide Shown;
    hide Component;
    hide Fields;
    hide Join;
    var xs := ShownAll(g, cs);
    forall i | 0 <= i < |xs|
      ensures xs[i] != "" && SpaceFree(xs[i]) && ')' !in xs[i]
    {
      ComponentShown(g, cs[i]);
    }
    NotInJoin(')', xs, " ");
    FieldsJoin(xs);
    ComponentsShown(g, cs);
  }

  lemma SettingsShape(g: Glyphs, p: Params)
    ensures |Settings(g, p)| > 2
    ensures Settings(g, p)[0] == ';' && Settings(g, p)[|Settings(g, p)| - 1] == '"'
  {
    hide Escape;
    hide PrintInt;
  }

  /** The header's front half comes apart where it was put together. */
  lemma FrontComesApart(g: Glyphs, name: string, cs: seq<string>, p: Params)
    requires LegalLabel(name) && cs != [] && forall i :: 0 <= i < |cs| ==> IsSupported(cs[i])
    ensures Parse(name + "=" + ParamText(g, cs, p)) == Assemble(name, Ok(cs), ParamsOf(Settings(g, p)))
  {
    hide IsSupported;
    hide Settings;
    hide ShownAll;
    hide Join;
    hide ParamsOf;
    hide Assemble;
    hide ComponentsIn;
    hide TrimSpace;
    hide IndexOf;
    InnerList(g, cs);
    SettingsShape(g, p);
    var inner, tail := Join(ShownAll(g, cs), " "), Settings(g, p);
    var body := "(" + inner + ")" + tail;
    var t := name + "=" + body;
    assert '=' !in name;
    assert t == name + ['='] + body;
    IndexOfAfter(name, '=', body);
    assert t[..|name|] == name && t[|name| + 1..] == body;
    TrimWhole(t);
    TrimWhole(name);
    TrimWhole(body);
    TrimWhole(tail);
    assert ')' !in "(" + inner;
    assert body == ("(" + inner) + [')'] + tail;
    IndexOfAfter("(" + inner, ')', tail);
    assert body[1..|inner| + 1] == inner && body[|inner| + 2..] == tail;
  }

  // ---------------------------------------------------------------- the parameters

  predicate Quiet(s: string) {
    '"' !in s && ';' !in s
  }

  lemma {:induction false} PiecesSkip(u: string, rest: string, current: string, inQuote: bool)
    requires '"' !in u && (inQuote || ';' !in u)
    ensures Pieces(u + rest, current, inQuote) == Pieces(rest, current + u, inQuote)
  {
    if u == "" {
      assert u + rest == rest && current + u == current;
    } else {
      assert (u + rest)[0] == u[0] && (u + rest)[1..] == u[1..] + rest;
      PiecesSkip(u[1..], rest, current + [u[0]], inQuote);
      assert current + [u[0]] + u[1..] == current + u;
    }
  }

  lemma PiecesQuoted(u: string, rest: string, current: string)
    requires '"' !in u
    ensures Pieces("\"" + u + "\"" + rest, current, false) == Pieces(rest, current + "\"" + u + "\"", false)
  {
    var q := "\"";
    assert q + u + q + rest == q + (u + (q + rest));
    assert (q + (u + (q + rest)))[1..] == u + (q + rest);
    PiecesSkip(u, q + rest, current + q, true);
    assert (q + rest)[1..] == rest;
    assert current + q + u + q == current + q + u + ['"'];
  }

  lemma PiecesNext(u: string, rest: string, current: string)
    requires Quiet(u)
    ensures Pieces(";" + u + rest, current, false) == Piece(current) + Pieces(rest, u, false)
  {
    assert (";" + u + rest)[1..] == u + rest;
    PiecesSkip(u, rest, "", false);
    assert "" + u == u;
  }

  function CreatedPiece(p: Params): string {
    "created=" + PrintInt(p.created)
  }

  lemma PrintIntIsQuiet(i: int)
    ensures Quiet(PrintInt(i)) && SpaceFree(PrintInt(i))
  {
    if i < 0 {
      assert AllDigits(Print(-i));
    } else {
      assert AllDigits(Print(i));
    }
  }

  /** Up to the key id's opening quote the pieces are as printed, whatever the key id is. */
  lemma FirstPieces(g: Glyphs, p: Params)
    ensures Pieces(Settings(g, p), "", false)
         == [CreatedPiece(p)] + Pieces(AfterKeyName(g, p), "keyid=", false)
  {
    hide Pieces;
    hide PrintInt;
    hide Quote;
    hide TrimSpace;
    var first := CreatedPiece(p);
    PrintIntIsQuiet(p.created);
    var rest := ";keyid=" + AfterKeyName(g, p);
    assert Settings(g, p) == ";" + first + rest;
    PiecesNext(first, rest, "");
    PiecesNext("keyid=", AfterKeyName(g, p), first);
    assert rest == ";" + "keyid=" + AfterKeyName(g, p);
    assert !IsSpace(first[|first| - 1]);
    TrimWhole(first);
    TrimNothing();
    assert [] + ([first] + Pieces(AfterKeyName(g, p), "keyid=", false))
        == [first] + Pieces(AfterKeyName(g, p), "keyid=", false);
  }

  lemma TrimNothing()
    ensures TrimSpace("") == ""
  {
  }

  function AfterKeyName(g: Glyphs, p: Params): string {
    Quote(g, p.keyID) + ";nonce=" + Quote(g, p.nonce) + ";tag=" + Quote(g, p.tag)
  }

  function Assigned(key: string, v: string): string {
    key + "=" + "\"" + v + "\""
  }

  /** With a plain key id, nonce and tag the remaining pieces are the other three settings. */
  lemma LaterPieces(g: Glyphs, p: Params)
    requires Plain(g, p.keyID) && Plain(g, p.nonce) && Plain(g, p.tag)
    ensures Pieces(AfterKeyName(g, p), "keyid=", false)
         == [Assigned("keyid", p.keyID), Assigned("nonce", p.nonce), Assigned("tag", p.tag)]
  {
    hide Pieces;
    hide TrimSpace;
    hide Plain;
    hide Escape;
    EscapePlain(g, p.keyID);
    EscapePlain(g, p.nonce);
    EscapePlain(g, p.tag);
    NoQuoteInPlain(g, p.keyID);
    NoQuoteInPlain(g, p.nonce);
    NoQuoteInPlain(g, p.tag);
    var q := "\"";
    var fromTag := q + p.tag + q + "";
    var fromNonce := q + p.nonce + q + (";tag=" + fromTag);
    assert AfterKeyName(g, p) == q + p.keyID + q + (";nonce=" + fromNonce);
    PiecesQuoted(p.keyID, ";nonce=" + fromNonce, "keyid=");
    assert ";nonce=" + fromNonce == ";" + "nonce=" + fromNonce;
    PiecesNext("nonce=", fromNonce, Assigned("keyid", p.keyID));
    PiecesQuoted(p.nonce, ";tag=" + fromTag, "nonce=");
    assert ";tag=" + fromTag == ";" + "tag=" + fromTag;
    PiecesNext("tag=", fromTag, Assigned("nonce", p.nonce));
    PiecesQuoted(p.tag, "", "tag=");
    LastPiece(Assigned("tag", p.tag));
    TrimAssigned("keyid", p.keyID);
    TrimAssigned("nonce", p.nonce);
    TrimAssigned("tag", p.tag);
    assert "keyid=" + q + p.keyID + q == Assigned("keyid", p.keyID);
    assert "nonce=" + q + p.nonce + q == Assigned("nonce", p.nonce);
    assert "tag=" + q + p.tag + q == Assigned("tag", p.tag);
  }

  lemma NoQuoteInPlain(g: Glyphs, s: string)
    requires Plain(g, s)
    ensures '"' !in s
  {
  }

  lemma LastPiece(current: string)
    ensures Pieces("", current, false) == Piece(current)
  {
  }

  lemma TrimAssigned(key: string, v: string)
    requires key != "" && SpaceFree(key)
    ensures TrimSpace(Assigned(key, v)) == Assigned(key, v)
  {
    hide TrimSpace;
    TrimWhole(Assigned(key, v));
  }

  lemma AssignedComesApart(key: string, v: string)
    requires key != "" && SpaceFree(key) && '=' !in key
    ensures var part := Assigned(key, v); var eq := IndexOf(part, '=');
            eq == |key| && TrimSpace(part[..eq]) == key && Unquote(TrimSpace(part[eq + 1..])) == v
  {
    hide TrimSpace;
    hide IndexOf;
    var part, raw := Assigned(key, v), "\"" + v + "\"";
    assert part == key + ['='] + raw;
    IndexOfAfter(key, '=', raw);
    assert part[..|key|] == key && part[|key| + 1..] == raw;
    TrimWhole(key);
    TrimWhole(raw);
    assert raw[1..|raw| - 1] == v;
  }

  lemma CreatedSetting(p: Params)
    ensures Setting(CreatedPiece(p), {}, NOTHING) == Ok(({"created"}, NOTHING.(created := p.created)))
  {
    hide TrimSpace;
    hide IndexOf;
    hide PrintInt;
    hide Atoi;
    var key, raw, part := "created", PrintInt(p.created), CreatedPiece(p);
    assert part == key + ['='] + raw;
    IndexOfAfter(key, '=', raw);
    assert part[..|key|] == key && part[|key| + 1..] == raw;
    TrimWhole(key);
    PrintIntIsQuiet(p.created);
    TrimWhole(raw);
    AtoiPrintInt(p.created);
    assert {} + {key} == {"created"};
  }

  lemma QuotedSettings(p: Params)
    ensures SettingsFrom([Assigned("keyid", p.keyID), Assigned("nonce", p.nonce), Assigned("tag", p.tag)],
                         {"created"}, NOTHING.(created := p.created))
         == Ok(({"created", "keyid", "nonce", "tag"}, p))
  {
    hide TrimSpace;
    hide IndexOf;
    hide Unquote;
    hide Assigned;
    AssignedComesApart("keyid", p.keyID);
    AssignedComesApart("nonce", p.nonce);
    AssignedComesApart("tag", p.tag);
    var a, b, c := Assigned("keyid", p.keyID), Assigned("nonce", p.nonce), Assigned("tag", p.tag);
    var o0 := NOTHING.(created := p.created);
    var o1 := o0.(keyID := p.keyID);
    var o2 := o1.(nonce := p.nonce);
    assert {"created"} + {"keyid"} + {"nonce"} + {"tag"} == {"created", "keyid", "nonce", "tag"};
    assert Setting(a, {"created"}, o0) == Ok(({"created"} + {"keyid"}, o1));
    assert Setting(b, {"created"} + {"keyid"}, o1) == Ok(({"created"} + {"keyid"} + {"nonce"}, o2));
    assert Setting(c, {"created"} + {"keyid"} + {"nonce"}, o2)
        == Ok(({"created"} + {"keyid"} + {"nonce"} + {"tag"}, p));
    SettingsOfThree(a, b, c, {"created"}, o0);
  }

  lemma SettingsOfThree(a: string, b: string, c: string, seen: set<string>, out: Params)
    requires Setting(a, seen, out).Ok?
    requires var (s1, o1) := Setting(a, seen, out).value;
             Setting(b, s1, o1).Ok? && var (s2, o2) := Setting(b, s1, o1).value; Setting(c, s2, o2).Ok?
    ensures var (s1, o1) := Setting(a, seen, out).value;
            var (s2, o2) := Setting(b, s1, o1).value;
            SettingsFrom([a, b, c], seen, out) == Setting(c, s2, o2)
  {
    hide Setting;
    var (s1, o1) := Setting(a, seen, out).value;
    var (s2, o2) := Setting(b, s1, o1).value;
    var (s3, o3) := Setting(c, s2, o2).value;
    assert [a, b, c][1..] == [b, c] && [b, c][1..] == [c] && [c][1..] == [];
    assert SettingsFrom([c], s2, o2) == SettingsFrom([], s3, o3);
    assert SettingsFrom([b, c], s1, o1) == SettingsFrom([c], s2, o2);
  }

  lemma NonceIsPlain(g: Glyphs, n: string)
    requires ValidNonce(n)
    ensures Plain(g, n) && n != ""
  {
  }

  lemma TagIsPlain(g: Glyphs)
    ensures Plain(g, SIGNATURE_TAG)
  {
  }

  /** The four settings are read back as they were printed. */
  lemma SettingsRoundTrip(g: Glyphs, p: Params)
    requires p.keyID != "" && Plain(g, p.keyID) && ValidNonce(p.nonce) && p.tag == SIGNATURE_TAG
    ensures ParamsOf(Settings(g, p)) == Ok(p)
  {
    hide Pieces;
    hide Plain;
    hide Settings;
    hide AfterKeyName;
    hide Assigned;
    hide CreatedPiece;
    hide Setting;
    NonceIsPlain(g, p.nonce);
    TagIsPlain(g);
    SettingsShape(g, p);
    FirstPieces(g, p);
    LaterPieces(g, p);
    CreatedSetting(p);
    QuotedSettings(p);
    var later := [Assigned("keyid", p.keyID), Assigned("nonce", p.nonce), Assigned("tag", p.tag)];
    assert ([CreatedPiece(p)] + later)[1..] == later;
  }

  // ---------------------------------------------------------------- and no other key id is

  function Slashes(n: nat): string {
    seq(n, i => '\\')
  }

  lemma EscapeSlash(g: Glyphs, k: string)
    requires k != "" && k[0] == '\\'
    ensures Escape(g, k) == "\\\\" + Escape(g, k[1..])
  {
  }

  /** A run of backslashes before an escaped text never lets the text and a quote through. */
  lemma {:induction false} BehindSlashes(g: Glyphs, k: string, n: nat)
    requires n > 0
    ensures !(k + "\"" <= Slashes(n) + Escape(g, k))
    decreases |k|
  {
    hide Escape;
    var s, t := k + "\"", Slashes(n) + Escape(g, k);
    assert t[0] == '\\' && s[0] == if k == "" then '"' else k[0];
    if k != "" && k[0] == '\\' {
      BehindSlashes(g, k[1..], n + 1);
      EscapeSlash(g, k);
      assert t[1..] == Slashes(n + 1) + Escape(g, k[1..]) && s[1..] == k[1..] + "\"";
      TailPrefix(s, t);
    }
  }

  lemma TailPrefix(a: string, b: string)
    requires a != "" && b != ""
    ensures a <= b ==> a[1..] <= b[1..]
  {
  }

  /** An escaped text never begins with the text itself and a quote. */
  lemma {:induction false} NoEarlyQuote(g: Glyphs, k: string)
    ensures !(k + "\"" <= Escape(g, k))
  {
    if k == "" {
    } else {
      var e := EscapeRune(g, k[0]);
      var t := e + Escape(g, k[1..]);
      TailPrefix(k + "\"", t);
      assert (k + "\"")[1..] == k[1..] + "\"" && (k + "\"")[0] == k[0] && t[0] == e[0];
      if e == [k[0]] {
        NoEarlyQuote(g, k[1..]);
        assert t[1..] == Escape(g, k[1..]);
      } else if k[0] == '\\' {
        BehindSlashes(g, k[1..], 1);
        assert t[1..] == Slashes(1) + Escape(g, k[1..]);
      }
    }
  }

  predicate QuoteOrSlash(s: string) {
    forall i :: 0 <= i < |s| ==> s[i] == '"' || s[i] == '\\'
  }

  lemma {:induction false} EscapeQuoteOrSlash(g: Glyphs, s: string)
    requires QuoteOrSlash(s)
    ensures QuoteOrSlash(Escape(g, s))
  {
    if s == "" {
    } else {
      EscapeQuoteOrSlash(g, s[1..]);
    }
  }

  lemma {:induction false} EscapeOfFront(g: Glyphs, s: string, n: nat)
    requires n <= |s|
    ensures Escape(g, s[..n]) <= Escape(g, s)
  {
    hide EscapeRune;
    if n > 0 {
      EscapeOfFront(g, s[1..], n - 1);
      assert s[..n][1..] == s[1..][..n - 1];
    } else {
      assert s[..0] == "";
    }
  }

  /** A text that its own quoting begins with has nothing but quotes and backslashes in it. */
  lemma {:induction false} SelfQuoted(g: Glyphs, k: string, n: nat)
    requires n <= |k| && k <= "\"" + Escape(g, k)
    ensures QuoteOrSlash(k[..n])
  {
    hide Escape;
    hide EscapeRune;
    if n == 0 {
    } else {
      SelfQuoted(g, k, n - 1);
      var front := Escape(g, k[..n - 1]);
      EscapeOfFront(g, k, n - 1);
      EscapeQuoteOrSlash(g, k[..n - 1]);
      EscapePlain(g, k[..n - 1]);
      assert k[n - 1] == ("\"" + Escape(g, k))[n - 1];
      if n > 1 {
        assert k[n - 1] == Escape(g, k)[n - 2] == front[n - 2];
      }
      assert k[..n] == k[..n - 1] + [k[n - 1]];
    }
  }

  lemma StrippedIsPlain(g: Glyphs, k: string, w: string, n: nat)
    requires 2 <= n <= |Quote(g, k) + w| && (Quote(g, k) + w)[n - 1] == '"'
    requires (Quote(g, k) + w)[1..n - 1] == k
    ensures Plain(g, k)
  {
    hide Escape;
    hide Plain;
    var v, e := Quote(g, k) + w, Escape(g, k);
    EscapePlain(g, k);
    assert v == "\"" + e + "\"" + w;
    assert forall i :: 0 <= i < |k| ==> k[i] == v[1..n - 1][i] == e[i];
    assert |e| > |k| ==> k + "\"" <= e;
    NoEarlyQuote(g, k);
  }

  lemma SelfQuotedGoesOn(g: Glyphs, k: string, w: string, n: nat)
    requires n <= |Quote(g, k) + w| && (Quote(g, k) + w)[..n] == k && |Escape(g, k)| > |k| > 0
    ensures n < |Quote(g, k) + w|
    ensures var c := (Quote(g, k) + w)[n]; !IsSpace(c) && c != ';'
  {
    hide Escape;
    hide IsSpace;
    var v, e := Quote(g, k) + w, Escape(g, k);
    assert v == "\"" + e + "\"" + w && v[0] == '"';
    assert forall i :: 0 < i < |k| ==> k[i] == v[i] == e[i - 1];
    assert k <= "\"" + e;
    SelfQuoted(g, k, |k|);
    assert k[..|k|] == k;
    EscapeQuoteOrSlash(g, k);
    assert v[n] == e[n - 1];
    NotASeparator(e[n - 1]);
  }

  /** Whatever front of the quoted key id and the rest the parser cuts off at a separator, it is
      the key id only if that was plain. */
  lemma OnlyPlainComesBack(g: Glyphs, k: string, w: string, n: nat)
    requires 0 < n <= |Quote(g, k) + w|
    requires n < |Quote(g, k) + w| ==> var c := (Quote(g, k) + w)[n]; IsSpace(c) || c == ';'
    requires Unquote((Quote(g, k) + w)[..n]) == k
    ensures Plain(g, k)
  {
    hide Escape;
    hide Plain;
    hide IsSpace;
    EscapePlain(g, k);
    if n >= 2 && (Quote(g, k) + w)[n - 1] == '"' {
      StrippedIsPlain(g, k, w, n);
    } else if |Escape(g, k)| > |k| {
      SelfQuotedGoesOn(g, k, w, n);
    }
  }

  lemma NotASeparator(c: char)
    requires c == '"' || c == '\\'
    ensures !IsSpace(c) && c != ';'
  {
  }

  /** The piece being read goes on to a separator or the end, quotes or not. */
  lemma {:induction false} FirstPiece(v: string, current: string, inQuote: bool) returns (m: nat)
    requires current != "" && !IsSpace(current[0])
    ensures m <= |v| && (m < |v| ==> v[m] == ';')
    ensures var parts := Pieces(v, current, inQuote); parts != [] && parts[0] == TrimSpace(current + v[..m])
    decreases |v|
  {
    hide IsSpace;
    hide TrimSpace;
    var n := TrimEnd(current);
    if v == "" || (v[0] == ';' && !inQuote) {
      m := 0;
      assert current + v[..0] == current;
    } else {
      var m' := FirstPiece(v[1..], current + [v[0]], if v[0] == '"' then !inQuote else inQuote);
      m := m' + 1;
      assert v[..m] == [v[0]] + v[1..][..m'];
      assert current + [v[0]] + v[1..][..m'] == current + v[..m];
    }
  }

  /** A key id once read is never read again: a second one is refused. */
  lemma {:induction false} KeyIDStays(parts: seq<string>, seen: set<string>, out: Params)
    requires "keyid" in seen && SettingsFrom(parts, seen, out).Ok?
    ensures SettingsFrom(parts, seen, out).value.1.keyID == out.keyID
    decreases |parts|
  {
    hide TrimSpace;
    hide IndexOf;
    hide Unquote;
    hide Atoi;
    if parts == [] {
    } else {
      var (seen', out') := Setting(parts[0], seen, out).value;
      KeyIDStays(parts[1..], seen', out');
    }
  }

  /** What the keyid piece is read as: a front of the quoted text, up to a separator. */
  lemma KeyIDPiece(v: string) returns (n: nat)
    requires v != "" && v[0] == '"'
    ensures var parts := Pieces(v, "keyid=", false);
            0 < n <= |v| && (n < |v| ==> IsSpace(v[n]) || v[n] == ';') && parts != [] && parts[0] == "keyid=" + v[..n]
    ensures TrimSpace(v[..n]) == v[..n]
  {
    hide IsSpace;
    hide TrimSpace;
    hide Pieces;
    PlainStart();
    var m := FirstPiece(v, "keyid=", false);
    var text := "keyid=" + v[..m];
    var end := TrimEnd(text);
    assert m > 0;
    assert text[6] == '"';
    n := end - 6;
    assert text[..end] == "keyid=" + v[..n];
    assert v[n - 1] == text[end - 1];
    assert n < m ==> v[n] == text[end];
    TrimWhole(v[..n]);
  }

  lemma PlainStart()
    ensures !IsSpace('k') && !IsSpace('"')
  {
  }

  lemma KeyIDSetting(v: string, n: nat, out: Params)
    requires n <= |v| && TrimSpace(v[..n]) == v[..n]
    ensures Setting("keyid=" + v[..n], {"created"}, out)
         == Ok(({"created"} + {"keyid"}, out.(keyID := Unquote(v[..n]))))
  {
    hide TrimSpace;
    hide IndexOf;
    hide Unquote;
    var key, part := "keyid", "keyid=" + v[..n];
    assert part == key + ['='] + v[..n];
    IndexOfAfter(key, '=', v[..n]);
    assert part[..|key|] == key && part[|key| + 1..] == v[..n];
    TrimWhole(key);
  }

  /** The key id is read back only if it is plain. */
  lemma KeyIDReadBack(g: Glyphs, p: Params)
    requires ParamsOf(Settings(g, p)).Ok? && ParamsOf(Settings(g, p)).value.keyID == p.keyID
    ensures Plain(g, p.keyID)
  {
    hide Pieces;
    hide Plain;
    hide Settings;
    hide CreatedPiece;
    hide Setting;
    hide Unquote;
    hide TrimSpace;
    hide Escape;
    SettingsShape(g, p);
    FirstPieces(g, p);
    CreatedSetting(p);
    var w := ";nonce=" + Quote(g, p.nonce) + ";tag=" + Quote(g, p.tag);
    var v := AfterKeyName(g, p);
    assert v == Quote(g, p.keyID) + w;
    var n := KeyIDPiece(v);
    var o0 := NOTHING.(created := p.created);
    KeyIDSetting(v, n, o0);
    var later := Pieces(v, "keyid=", false);
    var parts := [CreatedPiece(p)] + later;
    assert parts[1..] == later;
    assert SettingsFrom(parts, {}, NOTHING) == SettingsFrom(later, {"created"}, o0);
    assert SettingsFrom(later, {"created"}, o0)
        == SettingsFrom(later[1..], {"created"} + {"keyid"}, o0.(keyID := Unquote(v[..n])));
    KeyIDStays(later[1..], {"created"} + {"keyid"}, o0.(keyID := Unquote(v[..n])));
    OnlyPlainComesBack(g, p.keyID, w, n);
  }

  // ---------------------------------------------------------------- the round trip

  /** A built header is read back as the label, components and parameters it was built from
      exactly for the profile's own values and a key id that %q prints as it is. */
  lemma RoundTripIff(g: Glyphs, name: string, cs: seq<string>, p: Params)
    ensures Parse(Build(g, name, cs, p)) == Ok(Input(name, cs, StrictOf(cs), p))
       <==> Legal(name, cs, p) && Plain(g, p.keyID)
  {
    hide Plain;
    hide Parse;
    hide ParamText;
    hide Settings;
    hide ParamsOf;
    hide IsSupported;
    hide ValidNonce;
    if Parse(Build(g, name, cs, p)) == Ok(Input(name, cs, StrictOf(cs), p)) {
      ParseIsClosed(Build(g, name, cs, p));
    }
    if Legal(name, cs, p) {
      TrimWhole(name);
      FrontComesApart(g, name, cs, p);
      if Plain(g, p.keyID) {
        SettingsRoundTrip(g, p);
      } else if ParamsOf(Settings(g, p)).Ok? && ParamsOf(Settings(g, p)).value.keyID == p.keyID {
        KeyIDReadBack(g, p);
      }
    }
  }

  const SAMPLE_NONCE := "AAAAAAAAAAAAAAAAAAAAAA"

  function Sample(keyID: string): Params {
    Params(0, keyID, SAMPLE_NONCE, SIGNATURE_TAG)
  }

  /** The header a request without a body is signed under is read back as what it was built from. */
  predicate Returns(g: Glyphs, p: Params) {
    Parse(Build(g, DEFAULT_LABEL, COVERED_WITHOUT_BODY, p))
    == Ok(Input(DEFAULT_LABEL, COVERED_WITHOUT_BODY, StrictOf(COVERED_WITHOUT_BODY), p))
  }

  lemma SampleIsLegal(keyID: string)
    requires keyID != ""
    ensures Legal(DEFAULT_LABEL, COVERED_WITHOUT_BODY, Sample(keyID))
  {
    assert |SAMPLE_NONCE| == 22;
  }

  /** The key id k1 survives its header; with a quote or a backslash in it, it does not. */
  lemma QuotedKeyIDIsLost(g: Glyphs)
    ensures Returns(g, Sample("k1")) && !Returns(g, Sample("k\"1")) && !Returns(g, Sample("k\\1"))
  {
    hide Parse;
    hide Build;
    SampleIsLegal("k1");
    assert forall c :: c in "k1" ==> Printable(g, c) && c != '"' && c != '\\';
    RoundTripIff(g, DEFAULT_LABEL, COVERED_WITHOUT_BODY, Sample("k1"));
    assert "k\"1"[1] == '"' && "k\\1"[1] == '\\';
    RoundTripIff(g, DEFAULT_LABEL, COVERED_WITHOUT_BODY, Sample("k\"1"));
    RoundTripIff(g, DEFAULT_LABEL, COVERED_WITHOUT_BODY, Sample("k\\1"));
  }
}
