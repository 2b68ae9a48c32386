/** The bytes of AGS1 signing as they stand on the wire: the signature base of section 2.5 of
    RFC 9421 line by line, and the Signature-Input and Signature headers of its section 4. */
module SignatureLayout {
  import opened Decimal
  import opened Text
  import opened Profile
  import opened HeaderValues
  import opened SignatureBase
  import opened SignatureRoundTrip
  import SignatureGrammar
  import SignatureInput
  import SignVerify

  /** A component's name in quotes, the digest's with its parameter. */
  function Named(c: string): string {
    "\"" + c + "\"" + if c == "content-digest" then ";sf" else ""
  }

  function NamedAll(cs: seq<string>): (r: seq<string>)
    ensures |r| == |cs|
  {
    seq(|cs|, i requires 0 <= i < |cs| => Named(cs[i]))
  }

  /** What a component stands for: a part of the request line, or the header of its name. */
  function ValueOf(req: Request, c: string): string {
    if c == "@method" then req.method_
    else if c == "@authority" then req.authority
    else if c == "@path" then req.path
    else if c == "@query" then req.query
    else if c !in req.headers then ""
    else if c == "content-digest" then TrimSpace(req.headers[c])
    else req.headers[c]
  }

  /** The inner list and the four parameters behind it. */
  function Parameters(g: Glyphs, cs: seq<string>, p: Params): string {
    "(" + Join(NamedAll(cs), " ") + ");created=" + PrintInt(p.created) + ";keyid=" + Quote(g, p.keyID)
    + ";nonce=" + Quote(g, p.nonce) + ";tag=" + Quote(g, p.tag)
  }

  /** One line a component, and the parameters' line last. */
  function BaseLines(g: Glyphs, req: Request, cs: seq<string>, p: Params): seq<string> {
    seq(|cs|, i requires 0 <= i < |cs| => Named(cs[i]) + ": " + ValueOf(req, cs[i]))
    + ["\"@signature-params\": " + Parameters(g, cs, p)]
  }

  /** The alphabet of base64. */
  lemma Base64Is(c: char)
    ensures SignVerify.Base64Char(c) <==> SignatureGrammar.Alphanumeric(c, "+/=")
  {
    SignatureGrammar.CapitalIff(c);
    SignatureGrammar.SmallIff(c);
    SignatureGrammar.DigitIff(c);
  }

  lemma NamedIs(g: Glyphs, c: string)
    requires IsSupported(c)
    ensures SignatureInput.Shown(g, c) == Named(c)
  {
    hide IsSupported;
    hide SignatureInput.Shown;
    ShownIs(g, c);
    assert "\"" + c + "\"" + "" == "\"" + c + "\"";
  }

  lemma ParametersAre(g: Glyphs, cs: seq<string>, p: Params)
    requires forall i :: 0 <= i < |cs| ==> IsSupported(cs[i])
    ensures SignatureInput.ParamText(g, cs, p) == Parameters(g, cs, p)
  {
    hide IsSupported;
    hide SignatureInput.Shown;
    hide Named;
    hide Quote;
    hide PrintInt;
    hide Join;
    forall i | 0 <= i < |cs|
      ensures SignatureInput.ShownAll(g, cs)[i] == NamedAll(cs)[i]
    {
      NamedIs(g, cs[i]);
    }
    assert SignatureInput.ShownAll(g, cs) == NamedAll(cs);
    Regrouped("(" + Join(NamedAll(cs), " "), PrintInt(p.created), Quote(g, p.keyID), Quote(g, p.nonce), Quote(g, p.tag));
  }

  lemma Regrouped(front: string, created: string, keyID: string, nonce: string, tag: string)
    ensures front + ")" + (";created=" + created + ";keyid=" + keyID + ";nonce=" + nonce + ";tag=" + tag)
         == front + ");created=" + created + ";keyid=" + keyID + ";nonce=" + nonce + ";tag=" + tag
  {
    assert ")" + ";created=" == ");created=";
  }

  lemma LineIs(g: Glyphs, b64: Base64, req: Request, c: string)
    requires IsSupported(c) && Line(g, b64, req, c).Ok?
    ensures Line(g, b64, req, c).value == Named(c) + ": " + ValueOf(req, c)
  {
    hide IsSupported;
    hide SignatureInput.Shown;
    hide Named;
    hide TrimSpace;
    hide NormalDigest;
    NamedIs(g, c);
    if c == CONTENT_DIGEST && c in req.headers && NormalDigest(b64, req.headers[c]).Ok? {
      NormalDigestIsTrim(b64, req.headers[c]);
    }
  }

  /** The signature base, byte for byte. */
  lemma BaseIs(g: Glyphs, b64: Base64, req: Request, cs: seq<string>, p: Params)
    requires Base(g, b64, req, cs, p).Ok?
    ensures cs == CoveredComponents(req.HasBody())
    ensures Base(g, b64, req, cs, p).value == Join(BaseLines(g, req, cs, p), "\n")
  {
    hide IsSupported;
    hide CoveredComponents;
    hide CoverageFault;
    hide Line;
    hide Lines;
    hide Join;
    hide Named;
    hide ValueOf;
    hide Parameters;
    hide SignatureInput.ParamText;
    CoverageIsExact(cs, req.HasBody());
    ProfileIsDistinct(req.HasBody());
    ParametersAre(g, cs, p);
    var ls := Lines(g, b64, req, cs).value;
    forall i | 0 <= i < |cs|
      ensures ls[i] == Named(cs[i]) + ": " + ValueOf(req, cs[i])
    {
      LineAt(g, b64, req, cs, i);
      LineIs(g, b64, req, cs[i]);
    }
    assert ls + [ParamsLine(g, cs, p)] == BaseLines(g, req, cs, p);
  }

  predicate IsHeader(c: string) {
    c != "@method" && c != "@authority" && c != "@path" && c != "@query"
  }

  lemma {:induction false} LinesOkIff(g: Glyphs, b64: Base64, req: Request, cs: seq<string>)
    ensures Lines(g, b64, req, cs).Ok? <==> forall i :: 0 <= i < |cs| ==> Line(g, b64, req, cs[i]).Ok?
  {
    hide Line;
    if cs == [] {
    } else {
      LinesOkIff(g, b64, req, cs[..|cs| - 1]);
    }
  }

  lemma LineOkIff(g: Glyphs, b64: Base64, req: Request, c: string)
    requires IsSupported(c)
    ensures Line(g, b64, req, c).Ok?
       <==> (IsHeader(c) ==> c in req.headers && (c == "content-digest" ==> DigestOf(b64, req.headers[c]).Ok?))
  {
    hide IsSupported;
    hide DigestOf;
    hide SignatureInput.Shown;
  }

  /** Exactly what a base can be built of: the profile's own list, with every header in it present and
      a digest that parses. */
  lemma BaseIff(g: Glyphs, b64: Base64, req: Request, cs: seq<string>, p: Params)
    ensures Base(g, b64, req, cs, p).Ok?
       <==> && cs == CoveredComponents(req.HasBody())
            && forall c :: c in cs && IsHeader(c) ==>
                 c in req.headers && (c == "content-digest" ==> DigestOf(b64, req.headers[c]).Ok?)
  {
    hide IsSupported;
    hide IsHeader;
    hide CoveredComponents;
    hide CoverageFault;
    hide Line;
    hide Lines;
    hide Join;
    hide ParamsLine;
    hide DigestOf;
    CoverageIsExact(cs, req.HasBody());
    ProfileIsDistinct(req.HasBody());
    LinesOkIff(g, b64, req, cs);
    if cs == CoveredComponents(req.HasBody()) {
      forall i | 0 <= i < |cs|
        ensures Line(g, b64, req, cs[i]).Ok?
           <==> (IsHeader(cs[i]) ==>
                   cs[i] in req.headers && (cs[i] == "content-digest" ==> DigestOf(b64, req.headers[cs[i]]).Ok?))
      {
        LineOkIff(g, b64, req, cs[i]);
      }
    }
  }

  /** The label given, or the profile's own for a blank one. */
  function Labelled(given: string): string {
    if TrimSpace(given) == "" then "sig1" else given
  }

  /** The Signature-Input header. */
  lemma InputHeaderIs(g: Glyphs, label_: string, cs: seq<string>, p: Params)
    requires p.tag != "" && forall i :: 0 <= i < |cs| ==> IsSupported(cs[i])
    ensures SignatureInput.Build(g, label_, cs, p) == Labelled(label_) + "=" + Parameters(g, cs, p)
  {
    hide IsSupported;
    hide SignatureInput.ParamText;
    hide Parameters;
    hide TrimSpace;
    ParametersAre(g, cs, p);
  }

  /** The Signature header. */
  lemma SignatureHeaderIs(b64: Base64, label_: string, signature: string)
    ensures SignVerify.SignatureHeader(b64, label_, signature) == Labelled(label_) + "=:" + b64.encode(signature) + ":"
  {
    hide TrimSpace;
  }

  lemma LabelGiven(given: string)
    ensures Labelled(Chosen(given, "sig1")) == Labelled(given)
  {
    hide TrimSpace;
    SignatureGrammar.EmptyTrims();
    TrimWhole("sig1");
  }

  predicate JsonType(media: string) {
    media == "application/json" || (|media| >= 5 && media[|media| - 5..] == "+json")
  }

  /** A body is canonicalised exactly if its media type, parameters aside, is a JSON type. */
  lemma IsJsonIff(contentType: string)
    ensures var t := Lower(TrimSpace(contentType));
            SignVerify.IsJson(contentType) <==>
              || (';' !in t && JsonType(t))
              || exists media, rest :: t == media + ";" + rest && ';' !in media && JsonType(TrimSpace(media))
  {
    hide TrimSpace;
    hide Lower;
    hide IndexOf;
    var t := Lower(TrimSpace(contentType));
    var i := IndexOf(t, ';');
    if i >= 0 {
      SignatureGrammar.SplitIs(t, ';');
      assert t == t[..i] + ";" + t[i + 1..];
    }
    forall media, rest | t == media + ";" + rest && ';' !in media
      ensures i == |media| && t[..i] == media
    {
      SignatureGrammar.SplitAt(media, ';', rest);
    }
  }

  // ---------------------------------------------------------------- what Sign leaves behind

  function Chosen(given: string, drawn: string): string {
    if given != "" then given else drawn
  }

  /** The request line and headers of a request on the wire, as they are signed. */
  function Covered(w: SignVerify.Wire, headers: map<string, string>, body: string): Request {
    Request(Upper(TrimSpace(w.method_)),
            if TrimSpace(w.host) != "" then Lower(TrimSpace(w.host)) else Lower(TrimSpace(w.urlHost)),
            if w.path == "" then "/" else w.path, "?" + TrimPrefix(w.rawQuery, "?"), headers, body)
  }

  /** The identity headers, and the digest of a body, stand in the request that is sent. */
  ghost predicate Announces(k: SignVerify.Crypto, b64: Base64, u: SignVerify.Wire, si: SignVerify.SignInput,
                            hadBody: bool, d: SignVerify.Drawn)
  {
    && "x-tenant-id" in u.headers && u.headers["x-tenant-id"] == [si.tenant]
    && "x-agent-id" in u.headers && u.headers["x-agent-id"] == [si.agent]
    && "x-request-id" in u.headers && u.headers["x-request-id"] == [Chosen(si.requestID, d.requestID)]
    && "x-agent-signature-version" in u.headers && u.headers["x-agent-signature-version"] == ["1"]
    && "traceparent" in u.headers && u.headers["traceparent"] == [Chosen(si.traceParent, d.traceParent)]
    && (hadBody ==> "content-digest" in u.headers
                    && u.headers["content-digest"] == ["sha-256=:" + b64.encode(k.sha256(u.body)) + ":"])
  }

  const OWN_HEADERS: set<string> :=
    {"x-tenant-id", "x-agent-id", "x-request-id", "x-agent-signature-version", "traceparent", "content-digest",
     "content-type", "signature-input", "signature"}

  lemma PreparedAnnounces(k: SignVerify.Crypto, b64: Base64, w: SignVerify.Wire, si: SignVerify.SignInput,
                          hadBody: bool, body: string, d: SignVerify.Drawn)
    ensures var u := SignVerify.Prepared(k, b64, w, si, hadBody, body, d);
            && Announces(k, b64, u, si, hadBody, d) && u == w.(headers := u.headers, body := body)
            && (forall name :: name !in OWN_HEADERS ==>
                  (name in u.headers <==> name in w.headers) && (name in w.headers ==> u.headers[name] == w.headers[name]))
            && (hadBody ==>
                  SignVerify.Get(u.headers, "content-type") == Chosen(SignVerify.Get(w.headers, "content-type"),
                                                                      "application/json"))
  {
    hide SignVerify.Prepared;
    hide Announces;
    PreparedSets(k, b64, w, si, hadBody, body, d);
    PreparedKeeps(k, b64, w, si, hadBody, body, d);
  }

  lemma PreparedSets(k: SignVerify.Crypto, b64: Base64, w: SignVerify.Wire, si: SignVerify.SignInput,
                     hadBody: bool, body: string, d: SignVerify.Drawn)
    ensures Announces(k, b64, SignVerify.Prepared(k, b64, w, si, hadBody, body, d), si, hadBody, d)
  {
    HeaderNames();
  }

  lemma PreparedKeeps(k: SignVerify.Crypto, b64: Base64, w: SignVerify.Wire, si: SignVerify.SignInput,
                      hadBody: bool, body: string, d: SignVerify.Drawn)
    ensures var u := SignVerify.Prepared(k, b64, w, si, hadBody, body, d);
            && u == w.(headers := u.headers, body := body)
            && (forall name :: name !in OWN_HEADERS ==>
                  (name in u.headers <==> name in w.headers) && (name in w.headers ==> u.headers[name] == w.headers[name]))
            && (hadBody ==>
                  SignVerify.Get(u.headers, "content-type") == Chosen(SignVerify.Get(w.headers, "content-type"),
                                                                      "application/json"))
  {
    hide SignVerify.Digest;
    HeaderNames();
  }

  lemma HeaderNames()
    ensures TENANT_ID != AGENT_ID && REQUEST_ID != TENANT_ID && REQUEST_ID != AGENT_ID && VERSION != TENANT_ID
    ensures VERSION != AGENT_ID && VERSION != REQUEST_ID && TRACE_PARENT != TENANT_ID && TRACE_PARENT != AGENT_ID
    ensures TRACE_PARENT != REQUEST_ID && TRACE_PARENT != VERSION && CONTENT_DIGEST != CONTENT_TYPE
    ensures forall c :: c in [TENANT_ID, AGENT_ID, REQUEST_ID, VERSION, TRACE_PARENT] ==>
              c != CONTENT_DIGEST && c != CONTENT_TYPE
  {
    assert |TENANT_ID| == 11 && |AGENT_ID| == 10 && |REQUEST_ID| == 12 && |VERSION| == 25 && |TRACE_PARENT| == 11;
    assert |CONTENT_DIGEST| == 14 && |CONTENT_TYPE| == 12;
    assert TENANT_ID[0] == 'x' && TRACE_PARENT[0] == 't' && REQUEST_ID[0] == 'x' && CONTENT_TYPE[0] == 'c';
  }

  /** What is signed: the creation time given or the present, the key id given or the key's own, the
      nonce given or drawn, under the profile's tag. */
  function Settled(k: SignVerify.Crypto, si: SignVerify.SignInput, d: SignVerify.Drawn): Params {
    Params(if si.created.Some? then si.created.value else d.now,
           Chosen(si.keyID, k.keyIDOf(k.publicOf(si.privateKey))), Chosen(si.nonce, d.nonce), "agw-sig-v1")
  }

  lemma CoveredIs(w: SignVerify.Wire, body: string)
    requires SignVerify.FromHttp(w, body).Ok?
    ensures SignVerify.FromHttp(w, body).value == Covered(w, SignVerify.FromHttp(w, body).value.headers, body)
  {
    hide TrimSpace;
    hide Lower;
    hide Upper;
    hide NormalHeaders;
    assert "?" + "" == "?";
  }

  /** A request Sign lets through carries its identity, its digest, and a signature over the base of
      exactly the request it is. */
  lemma SignedIs(g: Glyphs, k: SignVerify.Crypto, b64: Base64, w: SignVerify.Wire, si: SignVerify.SignInput,
                 body0: string, d: SignVerify.Drawn)
    requires SignVerify.Signed(g, k, b64, w, si, body0, d).1.Ok?
    ensures var (v, r) := (SignVerify.Signed(g, k, b64, w, si, body0, d).0,
                           SignVerify.Signed(g, k, b64, w, si, body0, d).1.value);
            var u := SignVerify.Prepared(k, b64, w, si, body0 != "", v.body, d);
            var (cs, label_) := (CoveredComponents(body0 != ""), Labelled(si.name));
            && v == w.(headers := v.headers, body := r.body) && Announces(k, b64, v, si, body0 != "", d)
            && NormalHeaders(u.headers).Ok?
            && r.base == Join(BaseLines(g, Covered(w, NormalHeaders(u.headers).value, v.body), cs, Settled(k, si, d)), "\n")
            && "signature-input" in v.headers
            && v.headers["signature-input"] == [label_ + "=" + Parameters(g, cs, Settled(k, si, d))]
            && "signature" in v.headers
            && v.headers["signature"] == [label_ + "=:" + b64.encode(k.sign(si.privateKey, r.base)) + ":"]
            && v.headers == u.headers["signature-input" := v.headers["signature-input"]]
                                     ["signature" := v.headers["signature"]]
  {
    hide SignVerify.FromHttp;
    hide SignVerify.IsJson;
    hide ValidNonce;
    hide Base;
    hide BaseLines;
    hide Parameters;
    hide Covered;
    hide Join;
    hide NormalHeaders;
    hide SignatureInput.Build;
    hide SignVerify.SignatureHeader;
    hide SignVerify.Prepared;
    hide CoveredComponents;
    hide IsSupported;
    var (v, r) := (SignVerify.Signed(g, k, b64, w, si, body0, d).0, SignVerify.Signed(g, k, b64, w, si, body0, d).1.value);
    var u := SignVerify.Prepared(k, b64, w, si, body0 != "", v.body, d);
    var (cs, label_, p) := (CoveredComponents(body0 != ""), Chosen(si.name, "sig1"), Settled(k, si, d));
    PreparedAnnounces(k, b64, w, si, body0 != "", r.body, d);
    CoveredIs(u, r.body);
    HeadersOf(u, r.body);
    SameLine(w, u, NormalHeaders(u.headers).value, r.body);
    BaseIs(g, b64, SignVerify.FromHttp(u, r.body).value, cs, p);
    ProfileIsDistinct(body0 != "");
    LabelGiven(si.name);
    hide Labelled;
    InputHeaderIs(g, label_, cs, p);
    SignatureHeaderIs(b64, label_, k.sign(si.privateKey, r.base));
    StillAnnounces(k, b64, u, si, body0 != "", d, v.headers[SIGNATURE_INPUT], v.headers[SIGNATURE]);
  }

  lemma HeadersOf(u: SignVerify.Wire, body: string)
    requires SignVerify.FromHttp(u, body).Ok?
    ensures NormalHeaders(u.headers).Ok? && SignVerify.FromHttp(u, body).value.headers == NormalHeaders(u.headers).value
  {
    hide NormalHeaders;
  }

  lemma SameLine(w: SignVerify.Wire, u: SignVerify.Wire, headers: map<string, string>, body: string)
    requires u == w.(headers := u.headers, body := u.body)
    ensures Covered(u, headers, body) == Covered(w, headers, body)
  {
  }

  lemma StillAnnounces(k: SignVerify.Crypto, b64: Base64, u: SignVerify.Wire, si: SignVerify.SignInput, hadBody: bool,
                       d: SignVerify.Drawn, x: seq<string>, y: seq<string>)
    requires Announces(k, b64, u, si, hadBody, d)
    ensures Announces(k, b64, u.(headers := u.headers["signature-input" := x]["signature" := y]), si, hadBody, d)
  {
    HeaderNames();
    assert |"signature-input"| == 15 && |"signature"| == 9;
    assert |"x-tenant-id"| == 11 && |"x-agent-id"| == 10 && |"x-request-id"| == 12 && |"content-digest"| == 14;
    assert |"x-agent-signature-version"| == 25 && |"traceparent"| == 11;
  }
}
