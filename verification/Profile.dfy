/** The AGS1 wire constants: pkg/ags1/protocol and the nonce rules of pkg/ags1/nonce. */
module Profile {

  type Int64 = i: int | -0x8000_0000_0000_0000 <= i <= 0x7FFF_FFFF_FFFF_FFFF

  const SIGNATURE_TAG := "agw-sig-v1"
  const DEFAULT_LABEL := "sig1"
  const SIGNATURE_VERSION := "1"
  const MAX_AGE_SECONDS: nat := 300
  const MAX_SKEW_SECONDS: nat := 60

  const METHOD := "@method"
  const AUTHORITY := "@authority"
  const PATH := "@path"
  const QUERY := "@query"
  const CONTENT_DIGEST := "content-digest"
  const CONTENT_TYPE := "content-type"
  const AGENT_ID := "x-agent-id"
  const TENANT_ID := "x-tenant-id"
  const REQUEST_ID := "x-request-id"
  const VERSION := "x-agent-signature-version"
  const TRACE_PARENT := "traceparent"
  const SIGNATURE := "signature"
  const SIGNATURE_INPUT := "signature-input"

  const COVERED_WITH_BODY: seq<string> :=
    [METHOD, AUTHORITY, PATH, QUERY, CONTENT_DIGEST, CONTENT_TYPE, AGENT_ID, TENANT_ID, REQUEST_ID, VERSION,
     TRACE_PARENT]

  const COVERED_WITHOUT_BODY: seq<string> :=
    [METHOD, AUTHORITY, PATH, QUERY, AGENT_ID, TENANT_ID, REQUEST_ID, VERSION, TRACE_PARENT]

  function CoveredComponents(hasBody: bool): seq<string> {
    if hasBody then COVERED_WITH_BODY else COVERED_WITHOUT_BODY
  }

  predicate IsSupported(c: string) {
    c in COVERED_WITH_BODY
  }

  predicate RequiresStrict(c: string) {
    c == CONTENT_DIGEST
  }

  /** IsSingletonHeader, on lower-case names. */
  predicate IsSingletonHeader(name: string) {
    name in {AGENT_ID, TENANT_ID, REQUEST_ID, VERSION, TRACE_PARENT, CONTENT_TYPE, CONTENT_DIGEST, SIGNATURE,
             SIGNATURE_INPUT}
  }

  predicate NonceChar(c: char) {
    'A' <= c <= 'Z' || 'a' <= c <= 'z' || '0' <= c <= '9' || c == '-' || c == '_'
  }

  /** nonce.Validate. */
  predicate ValidNonce(n: string) {
    22 <= |n| <= 64 && forall i :: 0 <= i < |n| ==> NonceChar(n[i])
  }

  predicate LabelChar(c: char) {
    'a' <= c <= 'z' || 'A' <= c <= 'Z' || '0' <= c <= '9' || c == '-' || c == '_' || c == '.'
  }

  predicate LegalLabel(l: string) {
    l != "" && forall i :: 0 <= i < |l| ==> LabelChar(l[i])
  }

  /** The signature parameters AGS1 permits. */
  datatype Params = Params(created: Int64, keyID: string, nonce: string, tag: string)

  datatype Fault =
    | Malformed | UnsupportedComponent | MissingStrict | DuplicateParameter | AlgorithmOnTheWire | ForbiddenParameter
    | MissingCreated | MissingKeyID | MissingNonce | MissingTag | InvalidTag | InvalidNonce
    | ComponentMismatch | DuplicateComponent | MissingComponent | InvalidDigest | DigestMismatch
    | DuplicateHeader | MissingHeader | InvalidPrivateKey | InvalidPublicKey | NotJson
    | NotYetValid | Expired | SignatureInvalid

  datatype Outcome<+T> = Ok(value: T) | Err(fault: Fault)
}
