/** Signing a request in place and verifying it: pkg/ags1/httpmsig/signer.go, verifier.go and
    signature_header.go. Times are nanoseconds since 1970; the clock, the random values and the
    cryptography are parameters. */
module SignVerify {
  import opened Decimal
  import opened Text
  import opened Profile
  import opened HeaderValues
  import opened SignatureBase
  import SignatureInput
  import SignatureRoundTrip
  import Timestamp

  /** The algorithms Sign and Verify call. */
  datatype Crypto = Crypto(
    sha256: string -> string,
    publicOf: string -> string,
    sign: (string, string) -> string,
    verify: (string, string, string) -> bool,
    canonicalJson: string -> Option<string>,
    keyIDOf: string -> string)

  predicate Base64Char(c: char) {
    'A' <= c <= 'Z' || 'a' <= c <= 'z' || '0' <= c <= '9' || c == '+' || c == '/' || c == '='
  }

  predicate AllBase64(s: string) {
    forall i :: 0 <= i < |s| ==> Base64Char(s[i])
  }

  /** What is taken of base64: decoding undoes encoding, into its own alphabet. */
  ghost predicate Lawful64(b64: Base64) {
    forall b :: b64.decode(b64.encode(b)) == Some(b) && AllBase64(b64.encode(b)) && (b != "" ==> b64.encode(b) != "")
  }

  /** What is taken of Ed25519 and SHA-256: a key's own signatures verify, and the lengths. */
  ghost predicate LawfulCrypto(k: Crypto) {
    && (forall key, m :: |key| == 64 ==> |k.sign(key, m)| == 64 && k.verify(k.publicOf(key), m, k.sign(key, m)))
    && (forall key :: |key| == 64 ==> |k.publicOf(key)| == 32)
    && (forall b :: |k.sha256(b)| == 32)
  }

  // ---------------------------------------------------------------- the request on the wire

  /** The parts of an *http.Request that signing reads or writes; header names are lower-case. */
  datatype Wire = Wire(method_: string, host: string, urlHost: string, path: string, rawQuery: string,
                       headers: map<string, seq<string>>, body: string)

  /** CanonicalQuery: one leading "?" is dropped and one is put back. */
  function CanonicalQuery(raw: string): string {
    var rest := TrimPrefix(raw, "?");
    if rest == "" then "?" else "?" + rest
  }

  /** FromHTTPRequest, with the body it is given. */
  function FromHttp(w: Wire, body: string): Outcome<Request> {
    match NormalHeaders(w.headers)
    case Err(e) => Err(e)
    case Ok(headers) =>
      var h := TrimSpace(w.host);
      Ok(Request(Upper(TrimSpace(w.method_)), Lower(if h != "" then h else TrimSpace(w.urlHost)),
                 if w.path == "" then "/" else w.path, CanonicalQuery(w.rawQuery), headers, body))
  }

  /** http.Header.Get and Set. */
  function Get(h: map<string, seq<string>>, name: string): string {
    if name in h && h[name] != [] then h[name][0] else ""
  }

  function Set(h: map<string, seq<string>>, name: string, value: string): map<string, seq<string>> {
    h[name := [value]]
  }

  predicate IsJson(contentType: string) {
    var lower := Lower(TrimSpace(contentType));
    var i := IndexOf(lower, ';');
    var ct := if i >= 0 then TrimSpace(lower[..i]) else lower;
    ct == "application/json" || HasSuffix(ct, "+json")
  }

  /** digest.Compute. */
  function Digest(k: Crypto, b64: Base64, body: string): string {
    DIGEST_PREFIX + b64.encode(k.sha256(body)) + ":"
  }

  // ---------------------------------------------------------------- signing

  /** SignInput; an absent text is "", an absent time None. */
  datatype SignInput = SignInput(tenant: string, agent: string, requestID: string, traceParent: string,
                                 nonce: string, privateKey: string, keyID: string, created: Option<Int64>, name: string)

  /** What Sign draws when its input leaves it open. */
  datatype Drawn = Drawn(nonce: string, requestID: string, traceParent: string, now: Int64)

  datatype SignResult = SignResult(signatureInput: string, signature: string, base: string, contentDigest: string,
                                   keyID: string, nonce: string, requestID: string, created: Int64, body: string)

  function OrElse(given: string, other: string): string {
    if given != "" then given else other
  }

  /** The identity headers, all set before the base is built. */
  function WithIdentity(h: map<string, seq<string>>, si: SignInput, requestID: string, trace: string)
    : map<string, seq<string>>
  {
    Set(Set(Set(Set(Set(h, TENANT_ID, si.tenant), AGENT_ID, si.agent), REQUEST_ID, requestID),
            VERSION, SIGNATURE_VERSION), TRACE_PARENT, trace)
  }

  function WithDigest(h: map<string, seq<string>>, digest: string): map<string, seq<string>> {
    var h1 := Set(h, CONTENT_DIGEST, digest);
    if Get(h1, CONTENT_TYPE) == "" then Set(h1, CONTENT_TYPE, "application/json") else h1
  }

  function SignatureHeader(b64: Base64, name: string, signature: string): string {
    (if TrimSpace(name) == "" then DEFAULT_LABEL else name) + "=:" + b64.encode(signature) + ":"
  }

  function ParamsFor(k: Crypto, si: SignInput, d: Drawn): Params {
    Params(if si.created.Some? then si.created.value else d.now, OrElse(si.keyID, k.keyIDOf(k.publicOf(si.privateKey))),
           OrElse(si.nonce, d.nonce), SIGNATURE_TAG)
  }

  /** The body that is sent: canonical JSON if it is JSON. */
  function BodyToSend(k: Crypto, w: Wire, body: string): Option<string> {
    if body != "" && IsJson(Get(w.headers, CONTENT_TYPE)) then k.canonicalJson(body) else Some(body)
  }

  /** The request as it stands when the base is built. */
  function Prepared(k: Crypto, b64: Base64, w: Wire, si: SignInput, hadBody: bool, body: string, d: Drawn): Wire {
    var named := WithIdentity(w.headers, si, OrElse(si.requestID, d.requestID), OrElse(si.traceParent, d.traceParent));
    w.(headers := if hadBody then WithDigest(named, Digest(k, b64, body)) else named, body := body)
  }

  /** Sign: the request it leaves behind, and its result. */
  function Signed(g: Glyphs, k: Crypto, b64: Base64, w: Wire, si: SignInput, body0: string, d: Drawn)
    : (Wire, Outcome<SignResult>)
  {
    var p := ParamsFor(k, si, d);
    if |si.privateKey| != 64 then (w, Err(InvalidPrivateKey))
    else if si.tenant == "" || si.agent == "" then (w, Err(MissingHeader))
    else if !ValidNonce(p.nonce) then (w, Err(InvalidNonce))
    else if BodyToSend(k, w, body0).None? then (w, Err(NotJson))
    else
      var body := BodyToSend(k, w, body0).value;
      var u := Prepared(k, b64, w, si, body0 != "", body, d);
      var cs := CoveredComponents(body0 != "");
      match FromHttp(u, body)
      case Err(e) => (u, Err(e))
      case Ok(req) =>
        match Base(g, b64, req, cs, p)
        case Err(e) => (u, Err(e))
        case Ok(base) =>
          var inputHeader := SignatureInput.Build(g, OrElse(si.name, DEFAULT_LABEL), cs, p);
          var header := SignatureHeader(b64, OrElse(si.name, DEFAULT_LABEL), k.sign(si.privateKey, base));
          (u.(headers := Set(Set(u.headers, SIGNATURE_INPUT, inputHeader), SIGNATURE, header)),
           Ok(SignResult(inputHeader, header, base, if body0 != "" then Digest(k, b64, body) else "", p.keyID, p.nonce,
                         OrElse(si.requestID, d.requestID), p.created, body)))
  }

  /** The request Sign mutates. */
  class HttpRequest {
    var wire: Wire

    constructor (w: Wire)
      ensures wire == w
    {
      wire := w;
    }

    method SetHeader(name: string, value: string)
      modifies this
      ensures wire == old(wire).(headers := Set(old(wire).headers, name, value))
    {
      wire := wire.(headers := wire.headers[name := [value]]);
    }

    /** Sign: the body is canonicalised, then digested, then the headers are set, and only then
        is the base built and signed. */
    method Sign(g: Glyphs, k: Crypto, b64: Base64, si: SignInput, body0: string, d: Drawn)
      returns (r: Outcome<SignResult>)
      modifies this
      ensures (wire, r) == Signed(g, k, b64, old(wire), si, body0, d)
    {
      hide FromHttp;
      hide Base;
      hide IsJson;
      hide ValidNonce;
      hide SignatureInput.Build;
      hide SignatureHeader;
      hide CoveredComponents;
      if |si.privateKey| != 64 {
        return Err(InvalidPrivateKey);
      }
      if si.tenant == "" || si.agent == "" {
        return Err(MissingHeader);
      }
      var keyID := si.keyID;
      if keyID == "" {
        keyID := k.keyIDOf(k.publicOf(si.privateKey));
      }
      var nonce := si.nonce;
      if nonce == "" {
        nonce := d.nonce;
      }
      if !ValidNonce(nonce) {
        return Err(InvalidNonce);
      }
      var requestID, trace := OrElse(si.requestID, d.requestID), OrElse(si.traceParent, d.traceParent);
      var created := if si.created.Some? then si.created.value else d.now;
      var body, hasBody := body0, body0 != "";
      if hasBody && IsJson(Get(wire.headers, CONTENT_TYPE)) {
        var canonical := k.canonicalJson(body);
        if canonical.None? {
          return Err(NotJson);
        }
        body := canonical.value;
      }
      var contentDigest := SetAll(k, b64, si, requestID, trace, hasBody, body);
      var req := FromHttp(wire, body);
      if req.Err? {
        return Err(req.fault);
      }
      var components, params := CoveredComponents(hasBody), Params(created, keyID, nonce, SIGNATURE_TAG);
      var base := BuildSignatureBase(g, b64, req.value, components, params);
      if base.Err? {
        return Err(base.fault);
      }
      var signature := k.sign(si.privateKey, base.value);
      var name := OrElse(si.name, DEFAULT_LABEL);
      var inputHeader := SignatureInput.BuildSignatureInput(g, name, components, params);
      var header := SignatureHeader(b64, name, signature);
      SetHeader(SIGNATURE_INPUT, inputHeader);
      SetHeader(SIGNATURE, header);
      r := Ok(SignResult(inputHeader, header, base.value, contentDigest, keyID, nonce, requestID, created, body));
    }

    /** The headers and the body the base will cover. */
    method SetAll(k: Crypto, b64: Base64, si: SignInput, requestID: string, trace: string, hasBody: bool, body: string)
      returns (contentDigest: string)
      modifies this
      ensures contentDigest == if hasBody then Digest(k, b64, body) else ""
      ensures var named := WithIdentity(old(wire).headers, si, requestID, trace);
              wire == old(wire).(headers := if hasBody then WithDigest(named, Digest(k, b64, body)) else named,
                                 body := body)
    {
      hide Digest;
      SetHeader(TENANT_ID, si.tenant);
      SetHeader(AGENT_ID, si.agent);
      SetHeader(REQUEST_ID, requestID);
      SetHeader(VERSION, SIGNATURE_VERSION);
      SetHeader(TRACE_PARENT, trace);
      contentDigest := "";
      if hasBody {
        contentDigest := Digest(k, b64, body);
        SetHeader(CONTENT_DIGEST, contentDigest);
        if Get(wire.headers, CONTENT_TYPE) == "" {
          SetHeader(CONTENT_TYPE, "application/json");
        }
      }
      wire := wire.(body := body);
    }
  }

  // ---------------------------------------------------------------- verifying

  /** ParseSignatureHeader. */
  function ParseSignatureHeader(b64: Base64, header: string): Outcome<(string, string)> {
    var value := TrimSpace(header);
    var i := IndexOf(value, '=');
    if i <= 0 then Err(Malformed)
    else
      var name, encoded := TrimSpace(value[..i]), TrimSpace(value[i + 1..]);
      if |encoded| < 2 || encoded[0] != ':' || encoded[|encoded| - 1] != ':' then Err(Malformed)
      else if encoded[1..|encoded| - 1] == "" then Err(Malformed)
      else
        match b64.decode(encoded[1..|encoded| - 1])
        case None => Err(Malformed)
        case Some(signature) => Ok((name, signature))
  }

  /** ParseHeaders, with MatchLabel. */
  function ParseHeaders(b64: Base64, inputHeader: string, header: string): Outcome<(SignatureInput.Input, string)> {
    match SignatureInput.Parse(inputHeader)
    case Err(e) => Err(e)
    case Ok(input) =>
      match ParseSignatureHeader(b64, header)
      case Err(e) => Err(e)
      case Ok((name, signature)) =>
        if input.name != name then Err(Malformed)
        else if !ValidNonce(input.params.nonce) then Err(InvalidNonce)
        else Ok((input, signature))
  }

  /** The Unix second of Go's zero time, which counts as no time at all. */
  const ZERO_UNIX: int := -62_135_596_800

  /** ValidateTimestamp. */
  function TimestampFault(created: Int64, now: int, maxAge: int, maxSkew: int): Option<Fault> {
    if created == ZERO_UNIX then Some(MissingCreated)
    else if created * Timestamp.SECOND > now + maxSkew then Some(NotYetValid)
    else if now - created * Timestamp.SECOND > maxAge then Some(Expired)
    else None
  }

  /** digest.Validate. */
  function DigestFault(k: Crypto, b64: Base64, body: string, provided: string): Option<Fault> {
    if DigestOf(b64, provided).Err? then Some(DigestOf(b64, provided).fault)
    else if Digest(k, b64, body) != TrimSpace(provided) then Some(DigestMismatch)
    else None
  }

  function BodyFault(k: Crypto, b64: Base64, req: Request): Option<Fault> {
    if !req.HasBody() then None
    else if CONTENT_DIGEST !in req.headers then Some(MissingHeader)
    else DigestFault(k, b64, req.body, req.headers[CONTENT_DIGEST])
  }

  datatype VerifyResult = VerifyResult(keyID: string, nonce: string, created: Int64, components: seq<string>,
                                       base: string)

  function Limit(given: int, seconds: int): int {
    if given <= 0 then seconds * Timestamp.SECOND else given
  }

  /** Verify. */
  function Verify(g: Glyphs, k: Crypto, b64: Base64, req: Request, inputHeader: string, header: string,
                  publicKey: string, now: int, maxAge: int, maxSkew: int): Outcome<VerifyResult>
  {
    match ParseHeaders(b64, inputHeader, header)
    case Err(e) => Err(e)
    case Ok((input, signature)) =>
      var p := input.params;
      var coverage := CoverageFault(input.components, req.HasBody());
      var time := TimestampFault(p.created, now, Limit(maxAge, MAX_AGE_SECONDS), Limit(maxSkew, MAX_SKEW_SECONDS));
      if coverage.Some? then Err(coverage.value)
      else if time.Some? then Err(time.value)
      else if BodyFault(k, b64, req).Some? then Err(BodyFault(k, b64, req).value)
      else
        match Base(g, b64, req, input.components, p)
        case Err(e) => Err(e)
        case Ok(base) =>
          if |publicKey| != 32 then Err(InvalidPublicKey)
          else if |signature| != 64 || !k.verify(publicKey, base, signature) then Err(SignatureInvalid)
          else Ok(VerifyResult(p.keyID, p.nonce, p.created, input.components, base))
  }

  // ---------------------------------------------------------------- what is signed verifies

  /** The verifier sees what the signer signed: the same request line and body, and the same
      covered headers. Everything else may differ. */
  ghost predicate SameSigned(a: Request, b: Request) {
    && a.method_ == b.method_ && a.authority == b.authority && a.path == b.path && a.query == b.query
    && a.body == b.body
    && forall c :: IsSupported(c) && c in a.headers ==> c in b.headers && b.headers[c] == a.headers[c]
  }

  lemma {:induction false} SameLines(g: Glyphs, b64: Base64, a: Request, b: Request, cs: seq<string>)
    requires SameSigned(a, b) && Lines(g, b64, a, cs).Ok?
    ensures Lines(g, b64, b, cs) == Lines(g, b64, a, cs)
    decreases |cs|
  {
    hide IsSupported;
    hide NormalDigest;
    hide SignatureInput.Shown;
    if cs == [] {
    } else {
      SameLines(g, b64, a, b, cs[..|cs| - 1]);
      assert Line(g, b64, a, cs[|cs| - 1]).Ok?;
      assert Line(g, b64, b, cs[|cs| - 1]) == Line(g, b64, a, cs[|cs| - 1]);
    }
  }

  lemma SameBase(g: Glyphs, b64: Base64, a: Request, b: Request, cs: seq<string>, p: Params)
    requires SameSigned(a, b) && Base(g, b64, a, cs, p).Ok?
    ensures Base(g, b64, b, cs, p) == Base(g, b64, a, cs, p)
  {
    hide Lines;
    hide CoverageFault;
    hide ParamsLine;
    hide SameSigned;
    SameLines(g, b64, a, b, cs) by {
      assert Lines(g, b64, a, cs).Ok?;
    }
    assert a.body == b.body by {
      SameBody(a, b);
    }
  }

  lemma SameBody(a: Request, b: Request)
    requires SameSigned(a, b)
    ensures a.body == b.body
  {
  }

  /** The signature header is read back as its label and the signature's bytes. */
  lemma SignatureHeaderRoundTrip(b64: Base64, name: string, signature: string)
    requires Lawful64(b64) && signature != ""
    requires LegalLabel(if TrimSpace(name) == "" then DEFAULT_LABEL else name)
    ensures ParseSignatureHeader(b64, SignatureHeader(b64, name, signature))
         == Ok((if TrimSpace(name) == "" then DEFAULT_LABEL else name, signature))
  {
    hide TrimSpace;
    hide IndexOf;
    var used := if TrimSpace(name) == "" then DEFAULT_LABEL else name;
    var e := b64.encode(signature);
    var rest := ":" + e + ":";
    var t := SignatureHeader(b64, name, signature);
    assert '=' !in used;
    assert t == used + ['='] + rest;
    IndexOfAfter(used, '=', rest);
    assert t[..|used|] == used && t[|used| + 1..] == rest;
    SignatureRoundTrip.TrimWhole(t);
    SignatureRoundTrip.TrimWhole(used);
    SignatureRoundTrip.TrimWhole(rest);
    assert rest[1..|rest| - 1] == e;
  }

  lemma DigestIsNormal(k: Crypto, b64: Base64, body: string)
    requires Lawful64(b64) && LawfulCrypto(k)
    ensures NormalValue(Digest(k, b64, body)) == Digest(k, b64, body)
    ensures DigestFault(k, b64, body, Digest(k, b64, body)).None?
  {
    hide TrimSpace;
    var e, v := b64.encode(k.sha256(body)), Digest(k, b64, body);
    assert k.sha256(body) != "" by {
      assert |k.sha256(body)| == 32;
    }
    assert b64.decode(e) == Some(k.sha256(body)) && AllBase64(e) && e != "";
    NoBreakInBase64(e);
    assert v[0] == 's' && v[|v| - 1] == ':';
    SignatureRoundTrip.TrimWhole(v);
    assert v[|v| - 1..] == ":" && v[|DIGEST_PREFIX|..|v| - 1] == e && v[..|DIGEST_PREFIX|] == DIGEST_PREFIX;
  }

  lemma NoBreakInBase64(e: string)
    requires AllBase64(e)
    ensures !HasBreak(DIGEST_PREFIX + e + ":")
  {
  }

  lemma NamesDiffer(c: string)
    requires IsSupported(c)
    ensures c != SIGNATURE && c != SIGNATURE_INPUT && CONTENT_TYPE != CONTENT_DIGEST
  {
    assert |SIGNATURE| == 9 && |SIGNATURE_INPUT| == 15 && SIGNATURE_INPUT[0] == 's';
    assert |METHOD| == 7 && |AUTHORITY| == 10 && |PATH| == 5 && |QUERY| == 6 && |CONTENT_DIGEST| == 14;
    assert |CONTENT_TYPE| == 12 && |AGENT_ID| == 10 && |TENANT_ID| == 11 && |REQUEST_ID| == 12 && |VERSION| == 25;
    assert |TRACE_PARENT| == 11;
  }

  lemma HeaderOnce(h: map<string, seq<string>>, name: string, value: string)
    requires NormalHeaders(h).Ok? && name in h && h[name] == [value]
    ensures name in NormalHeaders(h).value && NormalHeaders(h).value[name] == NormalValue(value)
  {
    hide NormalValue;
  }

  lemma DigestHeader(h: map<string, seq<string>>, digest: string)
    ensures CONTENT_DIGEST in WithDigest(h, digest) && WithDigest(h, digest)[CONTENT_DIGEST] == [digest]
  {
    assert |CONTENT_TYPE| != |CONTENT_DIGEST|;
  }

  /** The digest the signer sent answers for the body it sent. */
  lemma SentBodyIsAnswered(k: Crypto, b64: Base64, w: Wire, si: SignInput, body: string, d: Drawn)
    requires Lawful64(b64) && LawfulCrypto(k)
    requires FromHttp(Prepared(k, b64, w, si, true, body, d), body).Ok?
    ensures var req := FromHttp(Prepared(k, b64, w, si, true, body, d), body).value;
            CONTENT_DIGEST in req.headers && DigestFault(k, b64, body, req.headers[CONTENT_DIGEST]).None?
  {
    hide WithIdentity;
    hide WithDigest;
    hide Digest;
    hide NormalHeaders;
    hide DigestFault;
    hide TrimSpace;
    hide Upper;
    hide Lower;
    hide CanonicalQuery;
    var u := Prepared(k, b64, w, si, true, body, d);
    var named := WithIdentity(w.headers, si, OrElse(si.requestID, d.requestID), OrElse(si.traceParent, d.traceParent));
    DigestHeader(named, Digest(k, b64, body));
    HeaderOnce(u.headers, CONTENT_DIGEST, Digest(k, b64, body));
    DigestIsNormal(k, b64, body);
  }

  lemma AddedHeader(h: map<string, seq<string>>, name: string, value: string)
    requires NormalHeaders(h).Ok?
    ensures NormalHeaders(Set(h, name, value)).Ok?
    ensures forall c :: c != name && c in NormalHeaders(h).value ==>
              c in NormalHeaders(Set(h, name, value)).value
              && NormalHeaders(Set(h, name, value)).value[c] == NormalHeaders(h).value[c]
  {
    hide NormalValue;
    hide IsSingletonHeader;
    var t := Set(h, name, value);
    forall n | n in t
      ensures !Repeated(t, n)
    {
      assert n in h ==> !Repeated(h, n);
    }
  }

  /** Adding the two signature headers leaves what they sign as it was. */
  lemma SignatureHeadersChangeNothing(u: Wire, body: string, x: string, y: string)
    requires FromHttp(u, body).Ok?
    ensures var v := u.(headers := Set(Set(u.headers, SIGNATURE_INPUT, x), SIGNATURE, y));
            FromHttp(v, body).Ok? && SameSigned(FromHttp(u, body).value, FromHttp(v, body).value)
  {
    hide NormalHeaders;
    hide Set;
    hide IsSupported;
    AddedHeader(u.headers, SIGNATURE_INPUT, x);
    AddedHeader(Set(u.headers, SIGNATURE_INPUT, x), SIGNATURE, y);
    forall c | IsSupported(c)
      ensures c != SIGNATURE && c != SIGNATURE_INPUT
    {
      NamesDiffer(c);
    }
  }

  lemma CoveredTellsBody(a: bool, b: bool)
    requires CoveredComponents(a) == CoveredComponents(b)
    ensures a == b
  {
    assert |COVERED_WITH_BODY| == 11 && |COVERED_WITHOUT_BODY| == 9;
  }

  /** A base is built only over the profile's list for the body actually sent. */
  lemma BaseTellsBody(g: Glyphs, b64: Base64, req: Request, hadBody: bool, p: Params)
    requires Base(g, b64, req, CoveredComponents(hadBody), p).Ok?
    ensures req.HasBody() == hadBody && CoverageFault(CoveredComponents(hadBody), req.HasBody()).None?
  {
    hide Lines;
    hide CoverageFault;
    hide CoveredComponents;
    CoverageIsExact(CoveredComponents(hadBody), req.HasBody());
    CoveredTellsBody(hadBody, req.HasBody());
  }

  /** The parts of Verify that read the headers, given a signer's own two. */
  lemma OwnHeadersParse(g: Glyphs, b64: Base64, name: string, hadBody: bool, p: Params, signature: string)
    requires Lawful64(b64) && signature != ""
    requires LegalLabel(if TrimSpace(name) == "" then DEFAULT_LABEL else name)
    requires p.keyID != "" && Plain(g, p.keyID) && ValidNonce(p.nonce) && p.tag == SIGNATURE_TAG
    ensures var cs := CoveredComponents(hadBody);
            var used := if TrimSpace(name) == "" then DEFAULT_LABEL else name;
            ParseHeaders(b64, SignatureInput.Build(g, name, cs, p), SignatureHeader(b64, name, signature))
            == Ok((SignatureInput.Input(used, cs, SignatureInput.StrictOf(cs), p), signature))
  {
    hide SignatureInput.Parse;
    hide SignatureInput.ParamText;
    hide ParseSignatureHeader;
    hide SignatureHeader;
    hide ValidNonce;
    hide TrimSpace;
    hide LegalLabel;
    hide CoveredComponents;
    hide IsSupported;
    hide Plain;
    hide SignatureInput.StrictOf;
    var cs := CoveredComponents(hadBody);
    var used := if TrimSpace(name) == "" then DEFAULT_LABEL else name;
    ProfileIsDistinct(hadBody);
    CoveredIsNonEmpty(hadBody);
    LegalIsNotBlank(used);
    assert SignatureInput.Build(g, name, cs, p) == SignatureInput.Build(g, used, cs, p);
    SignatureRoundTrip.RoundTripIff(g, used, cs, p);
    SignatureHeaderRoundTrip(b64, name, signature);
  }

  lemma CoveredIsNonEmpty(hadBody: bool)
    ensures CoveredComponents(hadBody) != []
  {
  }

  lemma LegalIsNotBlank(name: string)
    requires LegalLabel(name)
    ensures TrimSpace(name) != ""
  {
    hide TrimSpace;
    SignatureRoundTrip.TrimWhole(name);
  }

  /** The label a header is built with. */
  function LabelUsed(si: SignInput): string {
    var name := OrElse(si.name, DEFAULT_LABEL);
    if TrimSpace(name) == "" then DEFAULT_LABEL else name
  }

  /** Whatever Sign emitted, Verify accepts: for every request it signed, seen with the same
      covered values inside the age and skew window, under a legal label and a plain key id. */
  lemma SignedVerifies(g: Glyphs, k: Crypto, b64: Base64, w: Wire, si: SignInput, body0: string, d: Drawn,
                       seen: Request, now: int, maxAge: int, maxSkew: int)
    requires Lawful64(b64) && LawfulCrypto(k)
    requires Signed(g, k, b64, w, si, body0, d).1.Ok?
    requires var p := ParamsFor(k, si, d);
             && LegalLabel(LabelUsed(si)) && p.keyID != "" && Plain(g, p.keyID)
             && TimestampFault(p.created, now, Limit(maxAge, MAX_AGE_SECONDS), Limit(maxSkew, MAX_SKEW_SECONDS)).None?
    requires var (sent, r) := Signed(g, k, b64, w, si, body0, d);
             FromHttp(sent, r.value.body).Ok? ==> SameSigned(FromHttp(sent, r.value.body).value, seen)
    ensures var (sent, r) := Signed(g, k, b64, w, si, body0, d);
            var p := ParamsFor(k, si, d);
            && FromHttp(sent, r.value.body).Ok?
            && Verify(g, k, b64, seen, r.value.signatureInput, r.value.signature, k.publicOf(si.privateKey),
                      now, maxAge, maxSkew)
               == Ok(VerifyResult(p.keyID, p.nonce, p.created, CoveredComponents(body0 != ""), r.value.base))
  {
    hide Lawful64;
    hide FromHttp;
    hide Base;
    hide BodyToSend;
    hide SignatureInput.Build;
    hide SignatureHeader;
    hide ParseHeaders;
    hide TimestampFault;
    hide CoverageFault;
    hide ValidNonce;
    hide SameSigned;
    hide Prepared;
    hide LegalLabel;
    hide Plain;
    hide CoveredComponents;
    hide TrimSpace;
    hide DigestFault;
    var p, hadBody := ParamsFor(k, si, d), body0 != "";
    var (sent, r) := Signed(g, k, b64, w, si, body0, d);
    var body := BodyToSend(k, w, body0).value;
    var u := Prepared(k, b64, w, si, hadBody, body, d);
    var req, cs := FromHttp(u, body).value, CoveredComponents(hadBody);
    var base := Base(g, b64, req, cs, p).value;
    var signature := k.sign(si.privateKey, base);
    SignatureHeadersChangeNothing(u, body, r.value.signatureInput, r.value.signature);
    var after := FromHttp(sent, body).value;
    SameIsTransitive(req, after, seen);
    BaseTellsBody(g, b64, req, hadBody, p);
    SameBase(g, b64, req, seen, cs, p);
    SameBody(req, seen);
    OwnHeadersParse(g, b64, OrElse(si.name, DEFAULT_LABEL), hadBody, p, signature);
    SentBodyPasses(k, b64, w, si, hadBody, body, d, seen);
  }

  lemma SameIsTransitive(a: Request, b: Request, c: Request)
    requires SameSigned(a, b) && SameSigned(b, c)
    ensures SameSigned(a, c)
  {
    hide IsSupported;
  }

  lemma FromHttpBody(u: Wire, body: string)
    requires FromHttp(u, body).Ok?
    ensures FromHttp(u, body).value.body == body
  {
  }

  lemma SentBodyPasses(k: Crypto, b64: Base64, w: Wire, si: SignInput, hadBody: bool, body: string, d: Drawn,
                       seen: Request)
    requires Lawful64(b64) && LawfulCrypto(k)
    requires FromHttp(Prepared(k, b64, w, si, hadBody, body, d), body).Ok?
    requires SameSigned(FromHttp(Prepared(k, b64, w, si, hadBody, body, d), body).value, seen)
    requires seen.HasBody() == hadBody
    ensures BodyFault(k, b64, seen).None?
  {
    hide FromHttp;
    hide Prepared;
    hide DigestFault;
    hide Lawful64;
    hide IsSupported;
    if hadBody {
      SentBodyIsAnswered(k, b64, w, si, body, d);
      FromHttpBody(Prepared(k, b64, w, si, hadBody, body, d), body);
      DigestIsSupported();
    }
  }

  lemma DigestIsSupported()
    ensures IsSupported(CONTENT_DIGEST)
  {
    assert COVERED_WITH_BODY[4] == CONTENT_DIGEST;
  }

  // ---------------------------------------------------------------- what an accepted signature binds

  /** Two accepted requests with one signed base are the same request as far as the profile goes,
      bodies included, unless the two bodies are themselves a SHA-256 collision. */
  lemma AcceptedBindsBody(g: Glyphs, k: Crypto, b64: Base64, a: Request, b: Request, ah: string, ag: string,
                          bh: string, bg: string, key: string, now: int, later: int, maxAge: int, maxSkew: int)
    requires Lawful64(b64) && OneLine(a) && OneLine(b)
    requires Verify(g, k, b64, a, ah, ag, key, now, maxAge, maxSkew).Ok?
    requires Verify(g, k, b64, b, bh, bg, key, later, maxAge, maxSkew).Ok?
    requires Verify(g, k, b64, a, ah, ag, key, now, maxAge, maxSkew).value.base
          == Verify(g, k, b64, b, bh, bg, key, later, maxAge, maxSkew).value.base
    ensures var va, vb := Verify(g, k, b64, a, ah, ag, key, now, maxAge, maxSkew).value,
                          Verify(g, k, b64, b, bh, bg, key, later, maxAge, maxSkew).value;
            va == vb && SameCovered(b64, a, b, va.components)
    ensures a.body == b.body || (a.body != b.body && k.sha256(a.body) == k.sha256(b.body))
  {
    hide Base;
    hide ParseHeaders;
    hide BodyFault;
    hide CoverageFault;
    hide OneLine;
    hide SameCovered;
    hide Lawful64;
    hide TimestampFault;
    var ia, ib := ParseHeaders(b64, ah, ag).value.0, ParseHeaders(b64, bh, bg).value.0;
    BaseInjective(g, b64, a, b, ia.components, ib.components, ia.params, ib.params);
    CoverageIsExact(ia.components, a.HasBody());
    if a.HasBody() {
      DigestsAgree(k, b64, a, b);
    }
  }

  lemma DigestsAgree(k: Crypto, b64: Base64, a: Request, b: Request)
    requires Lawful64(b64) && a.HasBody() && b.HasBody()
    requires SameCovered(b64, a, b, COVERED_WITH_BODY)
    requires BodyFault(k, b64, a).None? && BodyFault(k, b64, b).None?
    ensures k.sha256(a.body) == k.sha256(b.body)
  {
    hide TrimSpace;
    hide IsSupported;
    hide SameCovered;
    DigestIsCovered(b64, a, b);
    NormalDigestIsTrim(b64, a.headers[CONTENT_DIGEST]);
    NormalDigestIsTrim(b64, b.headers[CONTENT_DIGEST]);
    var ea, eb := b64.encode(k.sha256(a.body)), b64.encode(k.sha256(b.body));
    assert DIGEST_PREFIX + ea + ":" == DIGEST_PREFIX + eb + ":";
    assert (DIGEST_PREFIX + ea + ":")[|DIGEST_PREFIX|..|DIGEST_PREFIX| + |ea|] == ea;
    assert (DIGEST_PREFIX + eb + ":")[|DIGEST_PREFIX|..|DIGEST_PREFIX| + |eb|] == eb;
    assert b64.decode(ea) == Some(k.sha256(a.body)) && b64.decode(eb) == Some(k.sha256(b.body));
  }

  lemma DigestIsCovered(b64: Base64, a: Request, b: Request)
    requires SameCovered(b64, a, b, COVERED_WITH_BODY) && CONTENT_DIGEST in a.headers && CONTENT_DIGEST in b.headers
    ensures NormalDigest(b64, a.headers[CONTENT_DIGEST]).Ok?
    ensures NormalDigest(b64, b.headers[CONTENT_DIGEST]) == NormalDigest(b64, a.headers[CONTENT_DIGEST])
  {
    hide NormalDigest;
    DigestIsSupported();
    assert COVERED_WITH_BODY[4] == CONTENT_DIGEST;
    assert Resolve(b64, a, COVERED_WITH_BODY[4]).Ok?;
    ResolveDigest(b64, a);
    ResolveDigest(b64, b);
  }

  lemma ResolveDigest(b64: Base64, a: Request)
    requires CONTENT_DIGEST in a.headers
    ensures Resolve(b64, a, CONTENT_DIGEST) == NormalDigest(b64, a.headers[CONTENT_DIGEST])
  {
    hide NormalDigest;
    hide IsSupported;
    DigestIsSupported();
    assert CONTENT_DIGEST[0] == 'c';
  }

  // ---------------------------------------------------------------- what acceptance means

  /** The header gives the signature's bytes under this label: "label=:base64:", blanks around the
      parts allowed. */
  ghost predicate Gives(b64: Base64, header: string, name: string, signature: string) {
    exists left: string, right: string, e: string ::
      SpellsSignature(b64, TrimSpace(header), left, right, e, name, signature)
  }

  predicate SpellsSignature(b64: Base64, value: string, left: string, right: string, e: string, name: string,
                            signature: string)
  {
    && value == left + "=" + right && '=' !in left && left != "" && TrimSpace(left) == name
    && TrimSpace(right) == ":" + e + ":" && e != "" && b64.decode(e) == Some(signature)
  }

  lemma SignatureHeaderIff(b64: Base64, header: string, name: string, signature: string)
    ensures ParseSignatureHeader(b64, header) == Ok((name, signature)) <==> Gives(b64, header, name, signature)
  {
    hide TrimSpace;
    hide IndexOf;
    var value := TrimSpace(header);
    if ParseSignatureHeader(b64, header) == Ok((name, signature)) {
      var i := IndexOf(value, '=');
      var left, right := value[..i], value[i + 1..];
      var shown := TrimSpace(right);
      var e := shown[1..|shown| - 1];
      assert value == left + "=" + right;
      assert shown == ":" + e + ":";
      assert SpellsSignature(b64, value, left, right, e, name, signature);
    }
    forall left: string, right: string, e: string | SpellsSignature(b64, value, left, right, e, name, signature)
      ensures ParseSignatureHeader(b64, header) == Ok((name, signature))
    {
      SpelledIsRead(b64, header, left, right, e, name, signature);
    }
  }

  lemma SpelledIsRead(b64: Base64, header: string, left: string, right: string, e: string, name: string, signature: string)
    requires SpellsSignature(b64, TrimSpace(header), left, right, e, name, signature)
    ensures ParseSignatureHeader(b64, header) == Ok((name, signature))
  {
    hide TrimSpace;
    hide IndexOf;
    var value := TrimSpace(header);
    assert value == left + ['='] + right;
    IndexOfAfter(left, '=', right);
    assert value[..|left|] == left && value[|left| + 1..] == right;
    assert (":" + e + ":")[1..|e| + 1] == e;
  }

  /** The creation time lies in the window: not the zero time, at most the skew ahead of now and the
      age behind it, five minutes and one where no positive limit is given. */
  predicate Timely(created: int, now: int, maxAge: int, maxSkew: int) {
    && created != -62_135_596_800
    && created * 1_000_000_000 <= now + (if maxSkew <= 0 then 60_000_000_000 else maxSkew)
    && now - created * 1_000_000_000 <= (if maxAge <= 0 then 300_000_000_000 else maxAge)
  }

  /** A body comes with its own SHA-256. */
  predicate Digested(k: Crypto, b64: Base64, req: Request) {
    req.body != "" ==>
      var e := b64.encode(k.sha256(req.body));
      && "content-digest" in req.headers && TrimSpace(req.headers["content-digest"]) == "sha-256=:" + e + ":"
      && e != "" && b64.decode(e).Some?
  }

  lemma TimelyIff(created: Int64, now: int, maxAge: int, maxSkew: int)
    ensures TimestampFault(created, now, Limit(maxAge, MAX_AGE_SECONDS), Limit(maxSkew, MAX_SKEW_SECONDS)).None?
       <==> Timely(created, now, maxAge, maxSkew)
  {
  }

  lemma DigestedIff(k: Crypto, b64: Base64, req: Request)
    ensures BodyFault(k, b64, req).None? <==> Digested(k, b64, req)
  {
    hide TrimSpace;
    if req.body != "" && CONTENT_DIGEST in req.headers {
      var e := b64.encode(k.sha256(req.body));
      var provided := TrimSpace(req.headers[CONTENT_DIGEST]);
      if provided == DIGEST_PREFIX + e + ":" {
        assert provided[|DIGEST_PREFIX|..|provided| - 1] == e;
        assert provided[|provided| - 1..] == ":";
      }
    }
  }

  /** Acceptance, where both headers parse: one label, the profile's own components, a timely
      signature, the body's digest, and an Ed25519 signature that verifies under the key over the base
      of this request. */
  lemma AcceptedIff(g: Glyphs, k: Crypto, b64: Base64, req: Request, inputHeader: string, header: string,
                    publicKey: string, now: int, maxAge: int, maxSkew: int, input: SignatureInput.Input, name: string,
                    signature: string)
    requires SignatureInput.Parse(inputHeader) == Ok(input) && Gives(b64, header, name, signature)
    ensures Verify(g, k, b64, req, inputHeader, header, publicKey, now, maxAge, maxSkew).Ok?
       <==> && name == input.name && input.components == CoveredComponents(req.HasBody())
            && Timely(input.params.created, now, maxAge, maxSkew) && Digested(k, b64, req)
            && |publicKey| == 32 && |signature| == 64
            && Base(g, b64, req, input.components, input.params).Ok?
            && k.verify(publicKey, Base(g, b64, req, input.components, input.params).value, signature)
  {
    hide Base;
    hide CoverageFault;
    hide TimestampFault;
    hide BodyFault;
    hide ParseSignatureHeader;
    hide Timely;
    hide Digested;
    hide Limit;
    hide Gives;
    SignatureHeaderIff(b64, header, name, signature);
    SignatureInput.ParseIsClosed(inputHeader);
    CoverageIsExact(input.components, req.HasBody());
    TimelyIff(input.params.created, now, maxAge, maxSkew);
    DigestedIff(k, b64, req);
  }

  /** Nothing else is accepted, and what is reported of it is what was signed. */
  lemma AcceptedIsReported(g: Glyphs, k: Crypto, b64: Base64, req: Request, inputHeader: string, header: string,
                           publicKey: string, now: int, maxAge: int, maxSkew: int)
    requires Verify(g, k, b64, req, inputHeader, header, publicKey, now, maxAge, maxSkew).Ok?
    ensures SignatureInput.Parse(inputHeader).Ok?
    ensures exists name: string, signature: string :: Gives(b64, header, name, signature)
    ensures var input := SignatureInput.Parse(inputHeader).value;
            var base := Base(g, b64, req, input.components, input.params);
            base.Ok? && Verify(g, k, b64, req, inputHeader, header, publicKey, now, maxAge, maxSkew)
                        == Ok(VerifyResult(input.params.keyID, input.params.nonce, input.params.created,
                                           input.components, base.value))
  {
    hide Base;
    hide CoverageFault;
    hide TimestampFault;
    hide BodyFault;
    hide ParseSignatureHeader;
    hide Gives;
    var (name, signature) := ParseSignatureHeader(b64, header).value;
    SignatureHeaderIff(b64, header, name, signature);
  }

  // ---------------------------------------------------------------- which queries sign alike

  /** Two raw queries have one canonical form exactly if they differ by at most a leading "?". */
  lemma SameQueryIff(a: string, b: string)
    ensures CanonicalQuery(a) == CanonicalQuery(b) <==> TrimPrefix(a, "?") == TrimPrefix(b, "?")
  {
    var x, y := TrimPrefix(a, "?"), TrimPrefix(b, "?");
    assert "?" + "" == "?";
    assert CanonicalQuery(a) == "?" + x && CanonicalQuery(b) == "?" + y;
    if CanonicalQuery(a) == CanonicalQuery(b) {
      SameTail("?", x, y);
    }
  }

  /** Requests that differ only in their raw query have one signature base exactly if the queries
      differ by at most a leading "?": every other change of the query changes the base. */
  lemma SameBaseIffSameQuery(g: Glyphs, b64: Base64, w: Wire, q: string, body: string, cs: seq<string>, p: Params)
    requires FromHttp(w, body).Ok? && Base(g, b64, FromHttp(w, body).value, cs, p).Ok?
    ensures FromHttp(w.(rawQuery := q), body).Ok?
    ensures var other := Base(g, b64, FromHttp(w.(rawQuery := q), body).value, cs, p);
            && other.Ok?
            && (other == Base(g, b64, FromHttp(w, body).value, cs, p)
                <==> TrimPrefix(q, "?") == TrimPrefix(w.rawQuery, "?"))
  {
    hide Base;
    hide CanonicalQuery;
    hide NormalHeaders;
    hide TrimPrefix;
    var req := FromHttp(w, body).value;
    assert FromHttp(w.(rawQuery := q), body) == Ok(req.(query := CanonicalQuery(q)));
    BaseTellsQuery(g, b64, req, CanonicalQuery(q), cs, p);
    SameQueryIff(q, w.rawQuery);
  }

  /** The raw query of "/p" and "/p?", which is empty for both, and that of "/p??" sign alike. */
  lemma EmptyAndBareMark()
    ensures CanonicalQuery("") == CanonicalQuery("?") && "" != "?"
  {
    assert TrimPrefix("?", "?") == "";
    SameQueryIff("", "?");
  }

  /** So do "/p?x=1" and "/p??x=1". */
  lemma DoubledMark()
    ensures CanonicalQuery("x=1") == CanonicalQuery("?x=1") && "x=1" != "?x=1"
  {
    assert "?x=1"[1..] == "x=1" && |"x=1"| == 3 && |"?x=1"| == 4 && "x=1"[0] == 'x';
    SameQueryIff("x=1", "?x=1");
  }
}
