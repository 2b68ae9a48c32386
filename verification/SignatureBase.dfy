/** The signature base: pkg/ags1/canonicalhttp/signature_base.go and pkg/ags1/digest
    (section 2.5 of RFC 9421). */
module SignatureBase {
  import opened Decimal
  import opened Text
  import opened Profile
  import opened HeaderValues
  import SignatureInput

  /** The normalised view of a request; a request without a body has body "". */
  datatype Request = Request(method_: string, authority: string, path: string, query: string,
                             headers: map<string, string>, body: string) {
    predicate HasBody() {
      body != ""
    }
  }

  /** base64.StdEncoding. */
  datatype Base64 = Base64(encode: string -> string, decode: string -> Option<string>)

  // ---------------------------------------------------------------- Content-Digest

  const DIGEST_PREFIX := "sha-256=:"

  /** digest.Parse: what stands between the prefix and the closing colon. */
  function DigestOf(b64: Base64, value: string): (r: Outcome<string>)
    ensures r.Ok? ==> TrimSpace(value) == DIGEST_PREFIX + r.value + ":"
  {
    var v := TrimSpace(value);
    if !HasPrefix(v, DIGEST_PREFIX) || !HasSuffix(v, ":") || |v| <= |DIGEST_PREFIX| + 1 then Err(InvalidDigest)
    else
      var inner := v[|DIGEST_PREFIX|..|v| - 1];
      assert v[|v| - 1..] == ":";
      assert v == v[..|DIGEST_PREFIX|] + inner + v[|v| - 1..];
      if b64.decode(inner).None? then Err(InvalidDigest) else Ok(inner)
  }

  /** digest.Normalize. */
  function NormalDigest(b64: Base64, value: string): Outcome<string> {
    match DigestOf(b64, value)
    case Err(e) => Err(e)
    case Ok(inner) => Ok(DIGEST_PREFIX + inner + ":")
  }

  /** Normalisation takes off the white space around an accepted value and does nothing else. */
  lemma NormalDigestIsTrim(b64: Base64, value: string)
    requires NormalDigest(b64, value).Ok?
    ensures NormalDigest(b64, value).value == TrimSpace(value)
    ensures NormalDigest(b64, NormalDigest(b64, value).value) == NormalDigest(b64, value)
  {
    var v := TrimSpace(value);
    assert Trimmed(v);
    assert TrimSpace(v) == v;
  }

  // ---------------------------------------------------------------- the covered components

  /** Why a declared list is refused at position i. */
  function FaultFrom(cs: seq<string>, required: seq<string>, i: nat): Option<Fault>
    requires |cs| == |required|
    decreases |cs| - i
  {
    if i >= |cs| then None
    else if cs[i] in cs[..i] then Some(DuplicateComponent)
    else if !IsSupported(cs[i]) then Some(UnsupportedComponent)
    else if cs[i] != required[i] then Some(ComponentMismatch)
    else FaultFrom(cs, required, i + 1)
  }

  function CoverageFault(cs: seq<string>, hasBody: bool): Option<Fault> {
    if |cs| != |CoveredComponents(hasBody)| then Some(ComponentMismatch)
    else FaultFrom(cs, CoveredComponents(hasBody), 0)
  }

  /** ValidateCoveredComponents. */
  method ValidateCoveredComponents(cs: seq<string>, hasBody: bool) returns (fault: Option<Fault>)
    ensures fault == CoverageFault(cs, hasBody)
  {
    hide IsSupported;
    hide CoveredComponents;
    var required := CoveredComponents(hasBody);
    if |cs| != |required| {
      return Some(ComponentMismatch);
    }
    var seen: set<string> := {};
    for i := 0 to |cs|
      invariant forall c :: c in seen <==> c in cs[..i]
      invariant FaultFrom(cs, required, 0) == FaultFrom(cs, required, i)
    {
      var c := cs[i];
      if c in seen {
        return Some(DuplicateComponent);
      }
      seen := seen + {c};
      assert cs[..i + 1] == cs[..i] + [c];
      if !IsSupported(c) {
        return Some(UnsupportedComponent);
      }
      if c != required[i] {
        return Some(ComponentMismatch);
      }
    }
    return None;
  }

  lemma {:induction false} NoFaultFrom(cs: seq<string>, required: seq<string>, i: nat)
    requires |cs| == |required| && i <= |cs| && cs[..i] == required[..i]
    requires forall j, k :: 0 <= j < k < |required| ==> required[j] != required[k]
    requires forall j :: 0 <= j < |required| ==> IsSupported(required[j])
    ensures FaultFrom(cs, required, i).None? <==> cs == required
    decreases |cs| - i
  {
    hide IsSupported;
    if i < |cs| {
      if cs[i] == required[i] {
        assert cs[..i + 1] == cs[..i] + [cs[i]] && required[..i + 1] == required[..i] + [required[i]];
        assert forall j :: 0 <= j < i ==> cs[..i][j] == required[j];
        NoFaultFrom(cs, required, i + 1);
      }
    } else {
      assert cs[..i] == cs && required[..i] == required;
    }
  }

  lemma ProfileIsDistinct(hasBody: bool)
    ensures var r := CoveredComponents(hasBody);
            (forall j, k :: 0 <= j < k < |r| ==> r[j] != r[k]) && forall j :: 0 <= j < |r| ==> IsSupported(r[j])
  {
    var r := CoveredComponents(hasBody);
    assert |METHOD| == 7 && |AUTHORITY| == 10 && |PATH| == 5 && |QUERY| == 6 && |CONTENT_DIGEST| == 14;
    assert |CONTENT_TYPE| == 12 && |AGENT_ID| == 10 && |TENANT_ID| == 11 && |REQUEST_ID| == 12 && |VERSION| == 25;
    assert |TRACE_PARENT| == 11;
    assert AUTHORITY[0] == '@' && AGENT_ID[0] == 'x' && CONTENT_TYPE[0] == 'c' && REQUEST_ID[0] == 'x';
    assert TENANT_ID[0] == 'x' && TRACE_PARENT[0] == 't';
  }

  /** Nothing but the profile's own list for the request's shape is accepted, in its own order. */
  lemma CoverageIsExact(cs: seq<string>, hasBody: bool)
    ensures CoverageFault(cs, hasBody).None? <==> cs == CoveredComponents(hasBody)
  {
    hide IsSupported;
    hide CoveredComponents;
    ProfileIsDistinct(hasBody);
    if |cs| == |CoveredComponents(hasBody)| {
      NoFaultFrom(cs, CoveredComponents(hasBody), 0);
    }
  }

  // ---------------------------------------------------------------- the lines

  /** ResolveComponentValue. */
  function Resolve(b64: Base64, req: Request, c: string): Outcome<string> {
    if c == METHOD then Ok(req.method_)
    else if c == AUTHORITY then Ok(req.authority)
    else if c == PATH then Ok(req.path)
    else if c == QUERY then Ok(req.query)
    else if !IsSupported(c) then Err(UnsupportedComponent)
    else if c !in req.headers then Err(MissingComponent)
    else if c == CONTENT_DIGEST then NormalDigest(b64, req.headers[c])
    else Ok(req.headers[c])
  }

  /** BuildComponentLine. */
  function Line(g: Glyphs, b64: Base64, req: Request, c: string): Outcome<string> {
    match Resolve(b64, req, c)
    case Err(e) => Err(e)
    case Ok(value) => Ok(SignatureInput.Shown(g, c) + ": " + value)
  }

  function Lines(g: Glyphs, b64: Base64, req: Request, cs: seq<string>): (r: Outcome<seq<string>>)
    ensures r.Ok? ==> |r.value| == |cs|
  {
    if cs == [] then Ok([])
    else
      match Lines(g, b64, req, cs[..|cs| - 1])
      case Err(e) => Err(e)
      case Ok(ls) =>
        match Line(g, b64, req, cs[|cs| - 1])
        case Err(e) => Err(e)
        case Ok(l) => Ok(ls + [l])
  }

  /** BuildSignatureParamsLine. */
  function ParamsLine(g: Glyphs, cs: seq<string>, p: Params): string {
    "\"@signature-params\": " + SignatureInput.ParamText(g, cs, p)
  }

  function Base(g: Glyphs, b64: Base64, req: Request, cs: seq<string>, p: Params): Outcome<string> {
    var fault := CoverageFault(cs, req.HasBody());
    if fault.Some? then Err(fault.value)
    else
      match Lines(g, b64, req, cs)
      case Err(e) => Err(e)
      case Ok(ls) => Ok(Join(ls + [ParamsLine(g, cs, p)], "\n"))
  }

  /** BuildSignatureBase. */
  method BuildSignatureBase(g: Glyphs, b64: Base64, req: Request, cs: seq<string>, p: Params)
    returns (r: Outcome<string>)
    ensures r == Base(g, b64, req, cs, p)
  {
    hide Line;
    hide ParamsLine;
    hide CoverageFault;
    hide Join;
    var fault := ValidateCoveredComponents(cs, req.HasBody());
    if fault.Some? {
      return Err(fault.value);
    }
    var lines: seq<string> := [];
    for i := 0 to |cs|
      invariant Lines(g, b64, req, cs[..i]) == Ok(lines)
    {
      assert cs[..i + 1][..i] == cs[..i];
      var line := Line(g, b64, req, cs[i]);
      if line.Err? {
        LinesFaultStays(g, b64, req, cs, i + 1);
        return Err(line.fault);
      }
      lines := lines + [line.value];
    }
    assert cs[..|cs|] == cs;
    lines := lines + [ParamsLine(g, cs, p)];
    return Ok(Join(lines, "\n"));
  }

  lemma {:induction false} LinesFaultStays(g: Glyphs, b64: Base64, req: Request, cs: seq<string>, n: nat)
    requires n <= |cs| && Lines(g, b64, req, cs[..n]).Err?
    ensures Lines(g, b64, req, cs) == Lines(g, b64, req, cs[..n])
    decreases |cs|
  {
    hide Line;
    if n == |cs| {
      assert cs[..n] == cs;
    } else {
      var front := cs[..|cs| - 1];
      assert front[..n] == cs[..n];
      LinesFaultStays(g, b64, req, front, n);
    }
  }

  lemma {:induction false} LineAt(g: Glyphs, b64: Base64, req: Request, cs: seq<string>, i: nat)
    requires Lines(g, b64, req, cs).Ok? && i < |cs|
    ensures Line(g, b64, req, cs[i]) == Ok(Lines(g, b64, req, cs).value[i])
    decreases |cs|
  {
    hide Line;
    if i >= |cs| - 1 {
    } else {
      LineAt(g, b64, req, cs[..|cs| - 1], i);
    }
  }

  // ---------------------------------------------------------------- injectivity

  /** No part of the request can carry a line of its own into the base. */
  ghost predicate OneLine(req: Request) {
    && '\n' !in req.method_ && '\n' !in req.authority && '\n' !in req.path && '\n' !in req.query
    && forall name :: name in req.headers ==> '\n' !in req.headers[name]
  }

  lemma LineHasNoBreak(g: Glyphs, b64: Base64, req: Request, c: string)
    requires OneLine(req) && Line(g, b64, req, c).Ok?
    ensures '\n' !in Line(g, b64, req, c).value
  {
    hide IsSupported;
    hide TrimSpace;
    hide Quote;
    QuoteHasNoBreak(g, c);
    if c == CONTENT_DIGEST && c in req.headers && NormalDigest(b64, req.headers[c]).Ok? {
      NormalDigestIsTrim(b64, req.headers[c]);
    }
  }

  lemma ParamsLineHasNoBreak(g: Glyphs, cs: seq<string>, p: Params)
    ensures '\n' !in ParamsLine(g, cs, p)
  {
    hide Quote;
    hide Join;
    hide PrintInt;
    var shown := SignatureInput.ShownAll(g, cs);
    forall i | 0 <= i < |cs|
      ensures '\n' !in shown[i]
    {
      QuoteHasNoBreak(g, cs[i]);
    }
    NotInJoin('\n', shown, " ");
    QuoteHasNoBreak(g, p.keyID);
    QuoteHasNoBreak(g, p.nonce);
    QuoteHasNoBreak(g, p.tag);
    PrintIntHasNone('\n', p.created);
  }

  lemma PrintIntHasNone(c: char, i: int)
    requires c == '\n' || c == ';'
    ensures c !in PrintInt(i)
  {
    if i < 0 {
      assert AllDigits(Print(-i));
    } else {
      assert AllDigits(Print(i));
    }
  }

  /** Joining with a character no line holds can be undone. */
  lemma {:induction false} JoinInjective(xs: seq<string>, ys: seq<string>)
    requires xs != [] && ys != []
    requires forall i :: 0 <= i < |xs| ==> '\n' !in xs[i]
    requires forall i :: 0 <= i < |ys| ==> '\n' !in ys[i]
    requires Join(xs, "\n") == Join(ys, "\n")
    ensures xs == ys
    decreases |xs|
  {
    hide IndexOf;
    var t := Join(xs, "\n");
    HeadOfJoin(xs);
    HeadOfJoin(ys);
    assert xs[0] == ys[0];
    assert |xs| > 1 <==> |ys| > 1;
    if |xs| <= 1 {
    } else {
      JoinInjective(xs[1..], ys[1..]);
    }
    assert xs == [xs[0]] + xs[1..] && ys == [ys[0]] + ys[1..];
  }

  lemma HeadOfJoin(xs: seq<string>)
    requires xs != [] && '\n' !in xs[0]
    ensures var t := Join(xs, "\n"); var k := IndexOf(t, '\n');
            && (k < 0 <==> (|xs| == 1 || '\n' !in t))
            && (|xs| > 1 ==> k == |xs[0]| && t[..k] == xs[0] && t[k + 1..] == Join(xs[1..], "\n"))
            && (|xs| == 1 ==> t == xs[0])
  {
    if |xs| > 1 {
      var rest := Join(xs[1..], "\n");
      var t := Join(xs, "\n");
      assert t == xs[0] + ['\n'] + rest;
      IndexOfAfter(xs[0], '\n', rest);
      assert t[..|xs[0]|] == xs[0] && t[|xs[0]| + 1..] == rest;
    }
  }

  /** What follows the creation time. */
  function AfterCreated(g: Glyphs, p: Params): string {
    "keyid=" + (Quote(g, p.keyID) + (";nonce=" + (Quote(g, p.nonce) + (";tag=" + (Quote(g, p.tag) + "")))))
  }

  lemma SettingsAre(g: Glyphs, p: Params)
    ensures SignatureInput.Settings(g, p) == ";created=" + (PrintInt(p.created) + [';'] + AfterCreated(g, p))
  {
    hide Quote;
    hide PrintInt;
  }

  lemma AfterCreatedInjective(g: Glyphs, p: Params, q: Params)
    requires AfterCreated(g, p) == AfterCreated(g, q)
    ensures p.keyID == q.keyID && p.nonce == q.nonce && p.tag == q.tag
  {
    hide Quote;
    var a3, b3 := Quote(g, p.tag) + "", Quote(g, q.tag) + "";
    var a2, b2 := Quote(g, p.nonce) + (";tag=" + a3), Quote(g, q.nonce) + (";tag=" + b3);
    var a1, b1 := Quote(g, p.keyID) + (";nonce=" + a2), Quote(g, q.keyID) + (";nonce=" + b2);
    SameTail("keyid=", a1, b1);
    QuotePrefixFree(g, p.keyID, ";nonce=" + a2, q.keyID, ";nonce=" + b2);
    SameTail(";nonce=", a2, b2);
    QuotePrefixFree(g, p.nonce, ";tag=" + a3, q.nonce, ";tag=" + b3);
    SameTail(";tag=", a3, b3);
    QuotePrefixFree(g, p.tag, "", q.tag, "");
  }

  /** The parameter line's settings can be told apart. */
  lemma SettingsInjective(g: Glyphs, p: Params, q: Params)
    requires SignatureInput.Settings(g, p) == SignatureInput.Settings(g, q)
    ensures p == q
  {
    hide SignatureInput.Settings;
    hide AfterCreated;
    hide PrintInt;
    SettingsAre(g, p);
    SettingsAre(g, q);
    var x, y := PrintInt(p.created), PrintInt(q.created);
    var a, b := x + [';'] + AfterCreated(g, p), y + [';'] + AfterCreated(g, q);
    SameTail(";created=", a, b);
    PrintIntHasNone(';', p.created);
    PrintIntHasNone(';', q.created);
    IndexOfAfter(x, ';', AfterCreated(g, p));
    IndexOfAfter(y, ';', AfterCreated(g, q));
    assert a[..|x|] == x && b[..|y|] == y;
    assert a[|x| + 1..] == AfterCreated(g, p) && b[|y| + 1..] == AfterCreated(g, q);
    PrintIntInjective(p.created, q.created);
    AfterCreatedInjective(g, p, q);
  }

  lemma SameTail(pre: string, a: string, b: string)
    requires pre + a == pre + b
    ensures a == b
  {
    assert (pre + a)[|pre|..] == a && (pre + b)[|pre|..] == b;
  }

  /** The covered values two requests with one base have in common. */
  ghost predicate SameCovered(b64: Base64, a: Request, b: Request, cs: seq<string>) {
    forall i :: 0 <= i < |cs| ==> Resolve(b64, a, cs[i]).Ok? && Resolve(b64, b, cs[i]) == Resolve(b64, a, cs[i])
  }

  lemma SameLineSameValue(g: Glyphs, b64: Base64, a: Request, b: Request, c: string)
    requires Line(g, b64, a, c).Ok? && Line(g, b64, b, c) == Line(g, b64, a, c)
    ensures Resolve(b64, a, c).Ok? && Resolve(b64, b, c) == Resolve(b64, a, c)
  {
    hide Resolve;
    hide SignatureInput.Shown;
    SameTail(SignatureInput.Shown(g, c) + ": ", Resolve(b64, a, c).value, Resolve(b64, b, c).value);
  }

  lemma LinesHaveNoBreak(g: Glyphs, b64: Base64, req: Request, cs: seq<string>, p: Params)
    requires OneLine(req) && Lines(g, b64, req, cs).Ok?
    ensures var ls := Lines(g, b64, req, cs).value + [ParamsLine(g, cs, p)];
            forall i :: 0 <= i < |ls| ==> '\n' !in ls[i]
  {
    hide Line;
    hide Lines;
    hide ParamsLine;
    hide OneLine;
    ParamsLineHasNoBreak(g, cs, p);
    forall i | 0 <= i < |cs|
      ensures '\n' !in Lines(g, b64, req, cs).value[i]
    {
      LineAt(g, b64, req, cs, i);
      LineHasNoBreak(g, b64, req, cs[i]);
    }
  }

  /** A base determines what it was built from: the body's presence, the component list, every
      covered value (a content-digest up to the white space around it) and every parameter. */
  lemma BaseInjective(g: Glyphs, b64: Base64, a: Request, b: Request, cs: seq<string>, ds: seq<string>,
                      p: Params, q: Params)
    requires OneLine(a) && OneLine(b)
    requires Base(g, b64, a, cs, p).Ok? && Base(g, b64, b, ds, q) == Base(g, b64, a, cs, p)
    ensures a.HasBody() == b.HasBody() && cs == ds && SameCovered(b64, a, b, cs) && p == q
  {
    hide Line;
    hide Lines;
    hide ParamsLine;
    hide OneLine;
    hide Join;
    hide CoverageFault;
    CoverageIsExact(cs, a.HasBody());
    CoverageIsExact(ds, b.HasBody());
    var xs := Lines(g, b64, a, cs).value + [ParamsLine(g, cs, p)];
    var ys := Lines(g, b64, b, ds).value + [ParamsLine(g, ds, q)];
    LinesHaveNoBreak(g, b64, a, cs, p);
    LinesHaveNoBreak(g, b64, b, ds, q);
    JoinInjective(xs, ys);
    assert |cs| == |ds|;
    assert xs[..|cs|] == Lines(g, b64, a, cs).value && ys[..|cs|] == Lines(g, b64, b, ds).value;
    assert xs[|cs|] == ParamsLine(g, cs, p) && ys[|cs|] == ParamsLine(g, ds, q);
    forall i | 0 <= i < |cs|
      ensures Resolve(b64, a, cs[i]).Ok? && Resolve(b64, b, cs[i]) == Resolve(b64, a, cs[i])
    {
      LineAt(g, b64, a, cs, i);
      LineAt(g, b64, b, ds, i);
      SameLineSameValue(g, b64, a, b, cs[i]);
    }
    ParamsLineInjective(g, cs, p, q);
  }

  lemma ParamsLineInjective(g: Glyphs, cs: seq<string>, p: Params, q: Params)
    requires ParamsLine(g, cs, p) == ParamsLine(g, cs, q)
    ensures p == q
  {
    hide SignatureInput.Settings;
    hide Join;
    hide SignatureInput.ShownAll;
    var front := "\"@signature-params\": " + ("(" + Join(SignatureInput.ShownAll(g, cs), " ") + ")");
    assert ParamsLine(g, cs, p) == front + SignatureInput.Settings(g, p);
    assert ParamsLine(g, cs, q) == front + SignatureInput.Settings(g, q);
    SameTail(front, SignatureInput.Settings(g, p), SignatureInput.Settings(g, q));
    SettingsInjective(g, p, q);
  }

  // ---------------------------------------------------------------- one component at a time

  lemma QueryLine(g: Glyphs, b64: Base64, req: Request, query: string, c: string)
    ensures c != QUERY ==> Line(g, b64, req.(query := query), c) == Line(g, b64, req, c)
    ensures Line(g, b64, req, QUERY) == Ok(SignatureInput.Shown(g, QUERY) + ": " + req.query)
  {
    hide NormalDigest;
    hide SignatureInput.Shown;
    assert |METHOD| == 7 && |AUTHORITY| == 10 && |PATH| == 5 && |QUERY| == 6;
  }

  /** Another query changes the query's own line and no other. */
  lemma {:induction false} QueryLines(g: Glyphs, b64: Base64, req: Request, query: string, cs: seq<string>, k: nat)
    requires Lines(g, b64, req, cs).Ok? && k < |cs|
    requires forall i :: 0 <= i < |cs| ==> (cs[i] == QUERY <==> i == k)
    ensures Lines(g, b64, req.(query := query), cs)
         == Ok(Lines(g, b64, req, cs).value[k := SignatureInput.Shown(g, QUERY) + ": " + query])
    decreases |cs|
  {
    hide Line;
    var n := |cs| - 1;
    var front, other := cs[..n], req.(query := query);
    var ls := Lines(g, b64, req, front).value;
    QueryLine(g, b64, req, query, cs[n]);
    QueryLine(g, b64, other, query, cs[n]);
    var last, queryLine := Line(g, b64, req, cs[n]).value, SignatureInput.Shown(g, QUERY) + ": " + query;
    if k == n {
      OtherLines(g, b64, req, query, front);
      assert (ls + [last])[n := queryLine] == ls + [queryLine];
    } else {
      QueryLines(g, b64, req, query, front, k);
      assert (ls + [last])[k := queryLine] == ls[k := queryLine] + [last];
    }
  }

  lemma {:induction false} OtherLines(g: Glyphs, b64: Base64, req: Request, query: string, cs: seq<string>)
    requires QUERY !in cs
    ensures Lines(g, b64, req.(query := query), cs) == Lines(g, b64, req, cs)
  {
    hide Line;
    if cs == [] {
    } else {
      QueryLine(g, b64, req, query, cs[|cs| - 1]);
      OtherLines(g, b64, req, query, cs[..|cs| - 1]);
    }
  }

  /** Replacing one item changes what is joined, unless by itself. */
  lemma {:induction false} JoinUpdate(xs: seq<string>, k: nat, x: string, sep: string)
    requires k < |xs|
    ensures Join(xs[k := x], sep) == Join(xs, sep) <==> x == xs[k]
  {
    var ys := xs[k := x];
    if |xs| == 1 {
    } else if k == 0 {
      var rest := sep + Join(xs[1..], sep);
      assert ys[1..] == xs[1..];
      assert Join(xs, sep) == xs[0] + rest && Join(ys, sep) == x + rest;
      if x + rest == xs[0] + rest {
        assert |x| == |xs[0]|;
        assert x == (x + rest)[..|x|] == xs[0];
      }
    } else {
      JoinUpdate(xs[1..], k - 1, x, sep);
      assert ys[1..] == xs[1..][k - 1 := x] && ys[0] == xs[0];
      var pre := xs[0] + sep;
      assert Join(xs, sep) == pre + Join(xs[1..], sep) && Join(ys, sep) == pre + Join(ys[1..], sep);
      if Join(xs, sep) == Join(ys, sep) {
        SameTail(pre, Join(xs[1..], sep), Join(ys[1..], sep));
      }
    }
  }

  lemma QueryStandsFourth(hasBody: bool)
    ensures var cs := CoveredComponents(hasBody);
            |cs| > 3 && forall i :: 0 <= i < |cs| ==> (cs[i] == QUERY <==> i == 3)
  {
    ProfileIsDistinct(hasBody);
    assert CoveredComponents(hasBody)[3] == QUERY;
  }

  /** A base tells one query from another, line breaks or not. */
  lemma BaseTellsQuery(g: Glyphs, b64: Base64, req: Request, query: string, cs: seq<string>, p: Params)
    requires Base(g, b64, req, cs, p).Ok?
    ensures Base(g, b64, req.(query := query), cs, p).Ok?
    ensures Base(g, b64, req.(query := query), cs, p) == Base(g, b64, req, cs, p) <==> query == req.query
  {
    hide Line;
    hide Lines;
    hide ParamsLine;
    hide CoverageFault;
    hide CoveredComponents;
    hide Join;
    CoverageIsExact(cs, req.HasBody());
    QueryStandsFourth(req.HasBody());
    QueryLines(g, b64, req, query, cs, 3);
    LineAt(g, b64, req, cs, 3);
    QueryLine(g, b64, req, query, QUERY);
    var front := SignatureInput.Shown(g, QUERY) + ": ";
    var ls := Lines(g, b64, req, cs).value;
    var last := [ParamsLine(g, cs, p)];
    assert ls[3 := front + query] + last == (ls + last)[3 := front + query];
    JoinUpdate(ls + last, 3, front + query, "\n");
    if front + query == front + req.query {
      SameTail(front, query, req.query);
    }
  }
}
