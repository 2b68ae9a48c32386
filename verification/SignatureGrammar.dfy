/** Which Signature-Input headers the strict parser accepts, and what they say, as a grammar apart
    from the parser: pkg/ags1/httpmsig/signature_input.go and the profile it checks against. */
module SignatureGrammar {
  import opened Decimal
  import opened Text
  import opened Profile
  import opened SignatureInput

  // ---------------------------------------------------------------- the profile

  /** The letters and digits, and of the other signs those given. */
  ghost predicate Alphanumeric(c: char, others: string) {
    c in CAPITALS || c in SMALLS || c in "0123456789" || c in others
  }

  lemma AlphabetIs(c: char)
    ensures Alphanumeric(c, "-_") <==> NonceChar(c)
    ensures Alphanumeric(c, "-_.") <==> LabelChar(c)
  {
    CapitalIff(c);
    SmallIff(c);
    DigitIff(c);
  }

  lemma CapitalIff(c: char)
    ensures c in CAPITALS <==> 'A' <= c <= 'Z'
  {
    assert forall i :: 0 <= i < 26 ==> CAPITALS[i] as int == 65 + i;
    if 'A' <= c <= 'Z' {
      assert CAPITALS[c as int - 65] == c;
    }
  }

  lemma SmallIff(c: char)
    ensures c in SMALLS <==> 'a' <= c <= 'z'
  {
    assert forall i :: 0 <= i < 26 ==> SMALLS[i] as int == 97 + i;
    if 'a' <= c <= 'z' {
      assert SMALLS[c as int - 97] == c;
    }
  }

  lemma DigitIff(c: char)
    ensures c in "0123456789" <==> '0' <= c <= '9'
  {
    assert forall i :: 0 <= i < 10 ==> "0123456789"[i] as int == 48 + i;
    if '0' <= c <= '9' {
      assert "0123456789"[c as int - 48] == c;
    }
  }

  /** A nonce is 22 to 64 characters of the URL-safe alphabet. */
  lemma NonceIff(n: string)
    ensures ValidNonce(n) <==> 22 <= |n| <= 64 && forall i :: 0 <= i < |n| ==> Alphanumeric(n[i], "-_")
  {
    forall i | 0 <= i < |n|
      ensures Alphanumeric(n[i], "-_") <==> NonceChar(n[i])
    {
      AlphabetIs(n[i]);
    }
  }

  /** A label is of that alphabet and dots, and is not empty. */
  lemma LabelIff(l: string)
    ensures LegalLabel(l) <==> l != "" && forall i :: 0 <= i < |l| ==> Alphanumeric(l[i], "-_.")
  {
    forall i | 0 <= i < |l|
      ensures Alphanumeric(l[i], "-_.") <==> LabelChar(l[i])
    {
      AlphabetIs(l[i]);
    }
  }

  /** The covered components, in the order they are signed in, and the one that is spelled strictly. */
  lemma CoveredAre(c: string)
    ensures CoveredComponents(false)
         == ["@method", "@authority", "@path", "@query", "x-agent-id", "x-tenant-id", "x-request-id",
             "x-agent-signature-version", "traceparent"]
    ensures CoveredComponents(true)
         == CoveredComponents(false)[..4] + ["content-digest", "content-type"] + CoveredComponents(false)[4..]
    ensures IsSupported(c) <==> c in CoveredComponents(true)
    ensures RequiresStrict(c) <==> c == "content-digest"
    ensures IsSingletonHeader(c)
       <==> c in CoveredComponents(true)[4..] || c == "signature" || c == "signature-input"
  {
  }

  // ---------------------------------------------------------------- the grammar

  /** An item of the component list: a supported name in quotes, the digest's and no other with ;sf. */
  ghost predicate Item(f: string, c: string) {
    && IsSupported(c)
    && if c == "content-digest" then f == "\"" + c + "\";sf" else f == "\"" + c + "\"" || f == "\"" + c + "\";"
  }

  ghost predicate Items(inner: string, cs: seq<string>) {
    var fs := Fields(inner);
    fs != [] && |fs| == |cs| && forall i :: 0 <= i < |fs| ==> Item(fs[i], cs[i])
  }

  /** The text falls apart at its first equals sign. */
  ghost predicate Parted(s: string, l: string, r: string) {
    s == l + "=" + r && '=' !in l
  }

  /** A piece sets the key to the raw text. */
  ghost predicate Sets(part: string, key: string, raw: string) {
    exists k: string, v: string :: Parted(part, k, v) && TrimSpace(k) == key && TrimSpace(v) == raw
  }

  ghost predicate Given(parts: seq<string>, key: string, raw: string) {
    exists i :: 0 <= i < |parts| && Sets(parts[i], key, raw)
  }

  /** One pair of quotes around a value is no part of it. */
  ghost predicate Bare(raw: string, v: string) {
    raw == "\"" + v + "\"" || (raw == v && forall w: string :: raw != "\"" + w + "\"")
  }

  ghost predicate GivenBare(parts: seq<string>, key: string, v: string) {
    exists raw: string :: Given(parts, key, raw) && Bare(raw, v)
  }

  ghost predicate GivenNumber(parts: seq<string>, key: string, n: int) {
    exists raw: string :: Given(parts, key, raw) && Atoi(raw) == Some(n)
  }

  /** The settings, in any order: these four, each once, and no other. */
  ghost predicate FourSettings(settings: string, p: Params) {
    var parts := Pieces(settings, "", false);
    && |parts| == 4 && GivenNumber(parts, "created", p.created)
    && GivenBare(parts, "keyid", p.keyID) && GivenBare(parts, "nonce", p.nonce) && GivenBare(parts, "tag", p.tag)
    && p.keyID != "" && p.nonce != "" && p.tag != ""
  }

  /** The header is label = ( inner ) settings, white space allowed around each. */
  ghost predicate Laid(header: string, l: string, r: string, inner: string, settings: string) {
    && Parted(TrimSpace(header), l, r)
    && TrimSpace(r) == "(" + inner + ")" + settings && ')' !in inner
  }

  // ---------------------------------------------------------------- the parts

  lemma SplitAt(a: string, c: char, b: string)
    requires c !in a
    ensures var s := a + [c] + b; IndexOf(s, c) == |a| && s[..|a|] == a && s[|a| + 1..] == b
  {
    IndexOfAfter(a, c, b);
  }

  lemma SplitIs(s: string, c: char)
    requires c in s
    ensures var i := IndexOf(s, c); i >= 0 && s == s[..i] + [c] + s[i + 1..] && c !in s[..i]
  {
  }

  lemma LabelPart(v: string, name: string, rest: string)
    ensures SplitLabel(v) == Ok((name, rest))
       <==> LegalLabel(name) && exists l: string, r: string :: Parted(v, l, r) && TrimSpace(l) == name && TrimSpace(r) == rest
  {
    hide TrimSpace;
    hide IndexOf;
    EmptyTrims();
    if SplitLabel(v) == Ok((name, rest)) {
      SplitIs(v, '=');
      var i := IndexOf(v, '=');
      assert Parted(v, v[..i], v[i + 1..]);
    }
    forall l: string, r: string | Parted(v, l, r)
      ensures IndexOf(v, '=') == |l| && v[..|l|] == l && v[|l| + 1..] == r
    {
      SplitAt(l, '=', r);
    }
  }

  lemma EmptyTrims()
    ensures TrimSpace("") == ""
  {
  }

  lemma ListPart(v: string, inner: string, settings: string)
    ensures SplitInnerList(v) == Ok((inner, settings))
       <==> exists rest: string :: v == "(" + inner + ")" + rest && ')' !in inner && TrimSpace(rest) == settings
  {
    hide TrimSpace;
    hide IndexOf;
    if SplitInnerList(v) == Ok((inner, settings)) {
      SplitIs(v, ')');
      var i := IndexOf(v, ')');
      assert v[..i] == "(" + inner;
      assert v == "(" + inner + ")" + v[i + 1..];
    }
    forall rest: string | v == "(" + inner + ")" + rest && ')' !in inner
      ensures IndexOf(v, ')') == |inner| + 1 && v[1..|inner| + 1] == inner && v[|inner| + 2..] == rest
    {
      SplitAt("(" + inner, ')', rest);
    }
  }

  /** A quoted name that holds no semicolon, and perhaps something behind one. */
  ghost predicate Quotes(f: string, c: string, behind: string) {
    c != "" && ';' !in c && (f == "\"" + c + "\"" || f == "\"" + c + "\";" + behind)
  }

  /** What each spelling of an item is read as. */
  lemma ItemIs(c: string, behind: string)
    requires c != "" && ';' !in c
    ensures Component("\"" + c + "\"") == Component("\"" + c + "\";")
    ensures Component("\"" + c + "\";" + behind)
         == if !IsSupported(c) then Err(UnsupportedComponent)
            else if behind == "" then if c == "content-digest" then Err(MissingStrict) else Ok(c)
            else if behind == "sf" && c == "content-digest" then Ok(c)
            else Err(Malformed)
  {
    hide IsSupported;
    hide IndexOf;
    var name := "\"" + c + "\"";
    assert name[1..|name| - 1] == c;
    SplitAt(name, ';', behind);
    SplitAt(name, ';', "");
    assert name + [';'] + behind == "\"" + c + "\";" + behind && name + [';'] + "" == "\"" + c + "\";";
  }

  /** And what is no spelling of any is malformed. */
  lemma SomeItem(f: string) returns (c: string, behind: string)
    requires Component(f) != Err(Malformed)
    ensures Quotes(f, c, behind)
  {
    hide IsSupported;
    hide IndexOf;
    var i := IndexOf(f, ';');
    var name := if i >= 0 then f[..i] else f;
    c, behind := name[1..|name| - 1], if i >= 0 then f[i + 1..] else "";
    assert name == "\"" + c + "\"";
    assert forall k :: 0 <= k < |c| ==> c[k] == name[k + 1];
    assert i >= 0 ==> f == "\"" + c + "\";" + f[i + 1..];
  }

  lemma SupportedIsWord(c: string)
    requires IsSupported(c)
    ensures c != "" && ';' !in c
  {
    hide IsSupported;
    CoveredAre(c);
    var cs := CoveredComponents(true);
    assert forall i :: 0 <= i < |cs| ==> cs[i] != "" && ';' !in cs[i];
  }

  lemma ItemIff(f: string, c: string)
    ensures Component(f) == Ok(c) <==> Item(f, c)
  {
    hide IsSupported;
    hide Component;
    if Item(f, c) {
      SupportedIsWord(c);
      Spellings(c, "");
      ItemIs(c, "");
      ItemIs(c, "sf");
    }
    if Component(f) == Ok(c) {
      var d, behind := SomeItem(f);
      Spellings(d, behind);
      ItemIs(d, behind);
      ItemIs(d, "");
      if f == "\"" + d + "\"" {
        assert Component(f) == Component("\"" + d + "\";");
      } else {
        assert behind == "" || behind == "sf";
      }
    }
  }

  lemma Spellings(d: string, behind: string)
    ensures "\"" + d + "\";" + "" == "\"" + d + "\";" && "\"" + d + "\";" + "sf" == "\"" + d + "\";sf"
  {
  }

  lemma {:induction false} ItemsFrom(fs: seq<string>, cs: seq<string>)
    ensures ComponentsOf(fs) == Ok(cs) <==> |fs| == |cs| && forall i :: 0 <= i < |fs| ==> Item(fs[i], cs[i])
    decreases |fs|
  {
    hide Component;
    hide Item;
    hide IsSupported;
    if fs == [] {
    } else {
      var n := |fs| - 1;
      var front := ComponentsOf(fs[..n]);
      if front.Ok? {
        ItemsFrom(fs[..n], front.value);
      }
      if |cs| == |fs| {
        assert cs == cs[..n] + [cs[n]];
        ItemsFrom(fs[..n], cs[..n]);
        ItemIff(fs[n], cs[n]);
      }
    }
  }

  lemma ItemsIff(inner: string, cs: seq<string>)
    ensures ComponentsIn(inner) == Ok(cs) <==> Items(inner, cs)
  {
    hide Fields;
    hide ComponentsOf;
    ItemsFrom(Fields(inner), cs);
  }

  // ---------------------------------------------------------------- the settings

  const KEYS: set<string> := {"created", "keyid", "nonce", "tag"}

  /** The key's field is what the raw text says. */
  ghost predicate Holds(key: string, raw: string, p: Params) {
    && (key == "created" ==> Atoi(raw) == Some(p.created))
    && (key == "keyid" ==> Bare(raw, p.keyID))
    && (key == "nonce" ==> Bare(raw, p.nonce))
    && (key == "tag" ==> Bare(raw, p.tag))
  }

  ghost predicate Same(key: string, p: Params, q: Params) {
    && (key == "created" ==> p.created == q.created)
    && (key == "keyid" ==> p.keyID == q.keyID)
    && (key == "nonce" ==> p.nonce == q.nonce)
    && (key == "tag" ==> p.tag == q.tag)
  }

  /** The key sets its own field and no other. */
  ghost predicate Puts(key: string, raw: string, was: Params, out: Params) {
    Holds(key, raw, out) && forall k: string :: k != key ==> Same(k, was, out)
  }

  lemma BareIs(raw: string, v: string)
    ensures Bare(raw, v) <==> v == Unquote(raw)
  {
    if |raw| >= 2 && raw[0] == '"' && raw[|raw| - 1] == '"' {
      assert raw == "\"" + raw[1..|raw| - 1] + "\"";
    }
    forall w: string
      ensures raw == "\"" + w + "\"" ==> Unquote(raw) == w
    {
      if raw == "\"" + w + "\"" {
        assert raw[1..|raw| - 1] == w;
      }
    }
  }

  lemma SetsOnce(part: string, k: string, v: string)
    requires Parted(part, k, v)
    ensures IndexOf(part, '=') == |k| && part[..|k|] == k && part[|k| + 1..] == v
    ensures forall key: string, raw: string :: Sets(part, key, raw) <==> key == TrimSpace(k) && raw == TrimSpace(v)
  {
    hide IndexOf;
    hide TrimSpace;
    SplitAt(k, '=', v);
    forall k': string, v': string | Parted(part, k', v')
      ensures k' == k && v' == v
    {
      SplitAt(k', '=', v');
    }
  }

  /** What a piece is read as, and what it is refused for. */
  lemma SettingIs(part: string, key: string, raw: string, seen: set<string>, out: Params)
    requires Sets(part, key, raw)
    ensures match Setting(part, seen, out)
            case Ok((seen', out')) => key !in seen && key in KEYS && seen' == seen + {key} && Puts(key, raw, out, out')
            case Err(e) =>
              if key in seen then e == DuplicateParameter
              else if key == "alg" then e == AlgorithmOnTheWire
              else if key in KEYS then key == "created" && Atoi(raw).None? && e == Malformed
              else e == ForbiddenParameter
  {
    hide IndexOf;
    hide TrimSpace;
    hide Atoi;
    hide Unquote;
    hide Bare;
    hide Sets;
    SetsApart(part, key, raw);
    var k: string, v: string :| Parted(part, k, v) && TrimSpace(k) == key && TrimSpace(v) == raw;
    SetsOnce(part, k, v);
    BareIs(raw, Unquote(raw));
  }

  lemma SetsApart(part: string, key: string, raw: string)
    requires Sets(part, key, raw)
    ensures exists k: string, v: string :: Parted(part, k, v) && TrimSpace(k) == key && TrimSpace(v) == raw
  {
  }

  /** A piece without an equals sign is malformed. */
  lemma NoSetting(part: string, seen: set<string>, out: Params)
    requires '=' !in part
    ensures Setting(part, seen, out) == Err(Malformed)
  {
  }

  lemma SomeSetting(part: string, seen: set<string>, out: Params) returns (key: string, raw: string)
    requires '=' in part
    ensures Sets(part, key, raw)
  {
    hide TrimSpace;
    hide IndexOf;
    SplitIs(part, '=');
    var i := IndexOf(part, '=');
    key, raw := TrimSpace(part[..i]), TrimSpace(part[i + 1..]);
    assert Parted(part, part[..i], part[i + 1..]);
  }

  ghost predicate GivenHeld(parts: seq<string>, key: string, p: Params) {
    exists raw: string :: Given(parts, key, raw) && Holds(key, raw, p)
  }

  lemma GivenFirst(parts: seq<string>, key: string, raw: string)
    requires parts != [] && (Sets(parts[0], key, raw) || Given(parts[1..], key, raw))
    ensures Given(parts, key, raw)
  {
    hide Sets;
    if Given(parts[1..], key, raw) {
      var i :| 0 <= i < |parts[1..]| && Sets(parts[1..][i], key, raw);
      assert parts[i + 1] == parts[1..][i];
    }
  }

  lemma GivenLater(parts: seq<string>, key: string, p: Params)
    requires parts != [] && GivenHeld(parts[1..], key, p)
    ensures GivenHeld(parts, key, p)
  {
    hide Given;
    hide Holds;
    var raw :| Given(parts[1..], key, raw) && Holds(key, raw, p);
    GivenFirst(parts, key, raw);
  }

  /** Pieces that are accepted set one key each, none twice and none but the four. */
  lemma {:induction false} Accepted(parts: seq<string>, seen: set<string>, out: Params)
    requires SettingsFrom(parts, seen, out).Ok? && seen <= KEYS
    ensures var (s, o) := SettingsFrom(parts, seen, out).value;
            && seen <= s <= KEYS && |s| == |seen| + |parts|
            && (forall key :: key in s && key !in seen ==> GivenHeld(parts, key, o))
            && forall key :: key in seen ==> Same(key, out, o)
    decreases |parts|
  {
    hide Setting;
    hide Sets;
    hide Given;
    hide Holds;
    hide Same;
    hide KEYS;
    hide GivenHeld;
    if parts == [] {
      SameSelf(out);
    } else {
      var (s, o) := SettingsFrom(parts, seen, out).value;
      var (seen', out') := Setting(parts[0], seen, out).value;
      if '=' !in parts[0] {
        NoSetting(parts[0], seen, out);
      }
      var first, raw := SomeSetting(parts[0], seen, out);
      SettingIs(parts[0], first, raw, seen, out);
      Accepted(parts[1..], seen', out');
      forall key | key in s && key !in seen
        ensures GivenHeld(parts, key, o)
      {
        if key == first {
          GivenFirst(parts, key, raw);
          HoldsStill(key, raw, out', o);
          assert GivenHeld(parts, key, o) by {
            HeldIs(parts, key, raw, o);
          }
        } else {
          GivenLater(parts, key, o);
        }
      }
      forall key | key in seen
        ensures Same(key, out, o)
      {
        SameAcross(key, out, out', o);
      }
    }
  }

  lemma SameSelf(p: Params)
    ensures forall key :: Same(key, p, p)
  {
  }

  lemma SameAcross(key: string, p: Params, q: Params, r: Params)
    requires Same(key, p, q) && Same(key, q, r)
    ensures Same(key, p, r)
  {
  }

  lemma HoldsStill(key: string, raw: string, p: Params, q: Params)
    requires Holds(key, raw, p) && Same(key, p, q)
    ensures Holds(key, raw, q)
  {
  }

  lemma HeldIs(parts: seq<string>, key: string, raw: string, p: Params)
    requires Given(parts, key, raw) && Holds(key, raw, p)
    ensures GivenHeld(parts, key, p)
  {
  }

  /** And pieces that do so are accepted. */
  lemma {:induction false} Accepts(parts: seq<string>, keys: seq<string>, raws: seq<string>, seen: set<string>, out: Params)
    requires |keys| == |parts| == |raws|
    requires forall i :: 0 <= i < |parts| ==> Sets(parts[i], keys[i], raws[i]) && keys[i] in KEYS && keys[i] !in seen
    requires forall i :: 0 <= i < |parts| && keys[i] == "created" ==> Atoi(raws[i]).Some?
    requires forall i, j :: 0 <= i < j < |parts| ==> keys[i] != keys[j]
    ensures SettingsFrom(parts, seen, out).Ok?
    decreases |parts|
  {
    hide Setting;
    hide Sets;
    hide Holds;
    hide Atoi;
    hide KEYS;
    if parts == [] {
    } else {
      SettingIs(parts[0], keys[0], raws[0], seen, out);
      assert Setting(parts[0], seen, out).Ok? by {
        NotAlg();
      }
      var (seen', out') := Setting(parts[0], seen, out).value;
      Accepts(parts[1..], keys[1..], raws[1..], seen', out');
    }
  }

  lemma NotAlg()
    ensures "alg" !in KEYS
  {
  }

  // ---------------------------------------------------------------- the four settings

  lemma AllFour(s: set<string>)
    requires s <= KEYS
    ensures |s| <= 4 && (|s| == 4 <==> s == KEYS)
  {
    assert |KEYS| == 4;
    assert s + (KEYS - s) == KEYS;
    assert |s| + |KEYS - s| == 4;
    if |s| == 4 {
      assert KEYS - s == {};
    }
  }

  /** What the parser makes of the settings is read off four pieces. */
  lemma SettingsRead(settings: string, p: Params)
    requires ParamsOf(settings) == Ok(p)
    ensures FourSettings(settings, p)
  {
    hide Setting;
    hide Pieces;
    hide Given;
    hide Bare;
    hide Atoi;
    var parts := Pieces(settings, "", false);
    Accepted(parts, {}, NOTHING);
    var (s, o) := SettingsFrom(parts, {}, NOTHING).value;
    AllFour(s);
    assert KEYS <= s;
  }

  /** A piece sets one key, to one text. */
  lemma SetsOne(part: string, key: string, raw: string, key': string, raw': string)
    requires Sets(part, key, raw) && Sets(part, key', raw')
    ensures key == key' && raw == raw'
  {
    hide TrimSpace;
    SetsApart(part, key, raw);
    var k: string, v: string :| Parted(part, k, v) && TrimSpace(k) == key && TrimSpace(v) == raw;
    SetsOnce(part, k, v);
  }

  /** Where a key is given. */
  lemma GivenAt(parts: seq<string>, key: string, p: Params) returns (i: nat, raw: string)
    requires GivenHeld(parts, key, p)
    ensures i < |parts| && Sets(parts[i], key, raw) && Holds(key, raw, p)
  {
    hide Sets;
    hide Holds;
    raw :| Given(parts, key, raw) && Holds(key, raw, p);
    i :| 0 <= i < |parts| && Sets(parts[i], key, raw);
  }

  /** Every one of four pieces sets a key of its own, if each key is given. */
  lemma FourGiven(parts: seq<string>, p: Params) returns (keys: seq<string>, raws: seq<string>)
    requires |parts| == 4 && forall key :: key in KEYS ==> GivenHeld(parts, key, p)
    ensures |keys| == |raws| == 4
    ensures forall i :: 0 <= i < 4 ==> Sets(parts[i], keys[i], raws[i]) && keys[i] in KEYS && Holds(keys[i], raws[i], p)
    ensures forall i, j :: 0 <= i < j < 4 ==> keys[i] != keys[j]
  {
    hide Sets;
    hide Holds;
    hide GivenHeld;
    var a, x := GivenAt(parts, "created", p);
    var b, y := GivenAt(parts, "keyid", p);
    var c, z := GivenAt(parts, "nonce", p);
    var d, w := GivenAt(parts, "tag", p);
    Apart(parts, a, "created", x, b, "keyid", y);
    Apart(parts, a, "created", x, c, "nonce", z);
    Apart(parts, a, "created", x, d, "tag", w);
    Apart(parts, b, "keyid", y, c, "nonce", z);
    Apart(parts, b, "keyid", y, d, "tag", w);
    Apart(parts, c, "nonce", z, d, "tag", w);
    keys := seq(4, i => if i == a then "created" else if i == b then "keyid" else if i == c then "nonce" else "tag");
    raws := seq(4, i => if i == a then x else if i == b then y else if i == c then z else w);
  }

  lemma Apart(parts: seq<string>, i: nat, key: string, raw: string, j: nat, key': string, raw': string)
    requires i < |parts| && j < |parts| && Sets(parts[i], key, raw) && Sets(parts[j], key', raw') && key != key'
    ensures i != j
  {
    hide Sets;
    if i == j {
      SetsOne(parts[i], key, raw, key', raw');
    }
  }

  lemma HeldAlike(key: string, raw: string, p: Params, q: Params)
    requires Holds(key, raw, p) && Holds(key, raw, q)
    ensures Same(key, p, q)
  {
    hide Atoi;
    BareIs(raw, p.keyID);
    BareIs(raw, q.keyID);
    BareIs(raw, p.nonce);
    BareIs(raw, q.nonce);
    BareIs(raw, p.tag);
    BareIs(raw, q.tag);
  }

  lemma SettingsRun(parts: seq<string>, p: Params)
    requires |parts| == 4 && forall key :: key in KEYS ==> GivenHeld(parts, key, p)
    ensures SettingsFrom(parts, {}, NOTHING) == Ok((KEYS, p))
  {
    hide Setting;
    hide Sets;
    hide Holds;
    hide Same;
    hide GivenHeld;
    var keys, raws := FourGiven(parts, p);
    forall i | 0 <= i < 4 && keys[i] == "created"
      ensures Atoi(raws[i]).Some?
    {
      CreatedHeld(raws[i], p);
    }
    Accepts(parts, keys, raws, {}, NOTHING);
    Accepted(parts, {}, NOTHING);
    var (s, o) := SettingsFrom(parts, {}, NOTHING).value;
    AllFour(s);
    forall key | key in KEYS
      ensures Same(key, o, p)
    {
      var i, raw := GivenAt(parts, key, o);
      var j, raw' := GivenAt(parts, key, p);
      SetsOne(parts[i], key, raw, keys[i], raws[i]);
      SetsOne(parts[j], key, raw', keys[j], raws[j]);
      assert i == j;
      HeldAlike(key, raw, o, p);
    }
    AllSame(o, p);
  }

  lemma CreatedHeld(raw: string, p: Params)
    requires Holds("created", raw, p)
    ensures Atoi(raw).Some?
  {
  }

  lemma AllSame(p: Params, q: Params)
    requires forall key :: key in KEYS ==> Same(key, p, q)
    ensures p == q
  {
    assert Same("created", p, q) && Same("keyid", p, q) && Same("nonce", p, q) && Same("tag", p, q);
  }

  /** The settings are read exactly if they are the four, each once. */
  lemma SettingsIff(settings: string, p: Params)
    ensures ParamsOf(settings) == Ok(p) <==> FourSettings(settings, p)
  {
    hide Setting;
    hide Given;
    hide Bare;
    hide Atoi;
    hide Pieces;
    hide SettingsFrom;
    if ParamsOf(settings) == Ok(p) {
      SettingsRead(settings, p);
    }
    if FourSettings(settings, p) {
      var parts := Pieces(settings, "", false);
      NoPieces();
      SettingsRun(parts, p);
    }
  }

  lemma NoPieces()
    ensures Pieces("", "", false) == []
  {
  }

  // ---------------------------------------------------------------- the whole header

  /** The header's parts, and what they are read as. */
  ghost predicate Reads(header: string, l: string, r: string, inner: string, settings: string, i: Input) {
    && Laid(header, l, r, inner, settings) && TrimSpace(l) == i.name
    && Items(inner, i.components) && FourSettings(TrimSpace(settings), i.params)
  }

  /** The label, the tag and the nonce have the profile's form, and the strict items are the digest's. */
  ghost predicate Profiled(i: Input) {
    && LegalLabel(i.name) && i.params.tag == "agw-sig-v1" && ValidNonce(i.params.nonce)
    && i.strict == set c | c in i.components && c == "content-digest"
  }

  lemma AcceptedReads(header: string, i: Input) returns (l: string, r: string, inner: string, settings: string)
    requires Parse(header) == Ok(i)
    ensures Reads(header, l, r, inner, settings, i) && Profiled(i)
  {
    hide TrimSpace;
    hide LegalLabel;
    hide ValidNonce;
    hide SplitLabel;
    hide SplitInnerList;
    hide ComponentsIn;
    hide ParamsOf;
    hide Items;
    hide FourSettings;
    var value := TrimSpace(header);
    var (name, rest) := SplitLabel(value).value;
    LabelPart(value, name, rest);
    l, r :| Parted(value, l, r) && TrimSpace(l) == name && TrimSpace(r) == rest;
    var (list, after) := SplitInnerList(rest).value;
    ListPart(rest, list, after);
    inner := list;
    settings :| rest == "(" + inner + ")" + settings && ')' !in inner && TrimSpace(settings) == after;
    ItemsIff(inner, i.components);
    SettingsIff(after, i.params);
  }

  lemma ReadsAccepted(header: string, i: Input, l: string, r: string, inner: string, settings: string)
    requires Reads(header, l, r, inner, settings, i) && Profiled(i)
    ensures Parse(header) == Ok(i)
  {
    hide TrimSpace;
    hide LegalLabel;
    hide ValidNonce;
    hide SplitLabel;
    hide SplitInnerList;
    hide ComponentsIn;
    hide ParamsOf;
    hide Items;
    hide FourSettings;
    var value := TrimSpace(header);
    LabelPart(value, i.name, TrimSpace(r));
    ListPart(TrimSpace(r), inner, TrimSpace(settings));
    ItemsIff(inner, i.components);
    SettingsIff(TrimSpace(settings), i.params);
    assert value != "";
    assert StrictOf(i.components) == i.strict;
    assert Assemble(i.name, Ok(i.components), Ok(i.params)) == Ok(i);
  }

  /** A Signature-Input header is accepted, as i, if and only if it is a label, a list of items and
      the four settings, under the profile's tag and with a nonce of its form. */
  lemma AcceptedIff(header: string, i: Input)
    ensures Parse(header) == Ok(i)
       <==> Profiled(i) && exists l: string, r: string, inner: string, settings: string ::
                             Reads(header, l, r, inner, settings, i)
  {
    hide Reads;
    hide Profiled;
    hide Parse;
    if Parse(header) == Ok(i) {
      var l, r, inner, settings := AcceptedReads(header, i);
    }
    if Profiled(i) && exists l: string, r: string, inner: string, settings: string ::
                        Reads(header, l, r, inner, settings, i) {
      var l: string, r: string, inner: string, settings: string :| Reads(header, l, r, inner, settings, i);
      ReadsAccepted(header, i, l, r, inner, settings);
    }
  }
}
