/** Three verifiers of one format: pkg/evidence/verify.go works on decoded structs,
    cmd/agw-verify/main.go and site/assets/rfc0009.js on raw members. */
module VerifierEquivalence {
  import opened Decimal
  import opened LengthPrefix
  import opened Timestamp
  import opened EvidenceChain
  import opened EvidenceVerify

  // ---------------------------------------------------------------- classified lines

  /** An event member's JSON value; numbers are integers by the time a line is classified. */
  datatype Member = MNull | MString(s: string) | MInt(n: int) | MBool(b: bool)

  datatype RawRecord = RawRecord(v: string, seqNo: nat, eventName: string, timestamp: string,
                                 event: map<string, Member>, prevHash: string, hash: string)

  datatype RawCheckpoint = RawCheckpoint(v: string, seqNo: nat, hash: string, count: nat, issuedAt: string,
                                         keyId: string, signature: string)

  datatype RawLine =
    | RawBlank(space: Space)
    | RawMalformed
    | RawRecordLine(rec: RawRecord, pad: Space := Empty)
    | RawCheckpointLine(cp: RawCheckpoint, pad: Space := Empty)

  datatype FieldKind = TString | TInt | TBool | TTime

  datatype FieldSpec = FieldSpec(name: string, kind: FieldKind)

  /** eventFields and EVENT_FIELDS: the hash order, with each member's type. */
  const EVENT_FIELDS: seq<FieldSpec> := [
    FieldSpec("EventID", TString), FieldSpec("TenantID", TString), FieldSpec("AgentID", TString),
    FieldSpec("KeyID", TString), FieldSpec("DecisionID", TString), FieldSpec("RequestID", TString),
    FieldSpec("TraceID", TString), FieldSpec("RouteID", TString), FieldSpec("Action", TString),
    FieldSpec("ResourceType", TString), FieldSpec("ResourceID", TString), FieldSpec("BackendID", TString),
    FieldSpec("Decision", TString), FieldSpec("ReasonCode", TString), FieldSpec("HTTPStatus", TInt),
    FieldSpec("SourceIP", TString), FieldSpec("UserAgent", TString), FieldSpec("StartedAt", TTime),
    FieldSpec("FinishedAt", TTime), FieldSpec("LatencyMS", TInt), FieldSpec("SourceTenant", TString),
    FieldSpec("Federated", TBool), FieldSpec("TrustGrant", TString), FieldSpec("Risk", TString),
    FieldSpec("Producer", TString)]

  const V1_FIELDS: nat := 20

  predicate TypedAs(m: Member, kind: FieldKind) {
    match kind
    case TString => m.MString?
    case TInt => m.MInt?
    case TBool => m.MBool?
    case TTime => m.MString? && Ts(m.s).Ok?
  }

  /** Lines as classification leaves them: right types, accepted timestamps with four-digit UTC
      years, and sequence numbers that fit a uint64. */
  ghost predicate TypedEvent(e: map<string, Member>) {
    forall i :: 0 <= i < |EVENT_FIELDS| ==> TypedField(e, EVENT_FIELDS[i])
  }

  ghost predicate TypedField(e: map<string, Member>, f: FieldSpec) {
    f.name in e && !e[f.name].MNull? ==> TypedAs(e[f.name], f.kind)
  }

  ghost predicate Typed(line: RawLine) {
    match line
    case RawRecordLine(r, _) => r.seqNo < UINT64_LIMIT && Ts(r.timestamp).Ok? && TypedEvent(r.event)
    case RawCheckpointLine(c, _) => TypedCheckpoint(c)
    case _ => true
  }

  ghost predicate TypedCheckpoint(c: RawCheckpoint) {
    c.seqNo < UINT64_LIMIT && c.count < UINT64_LIMIT && Ts(c.issuedAt).Ok?
  }

  // ---------------------------------------------------------------- the reference decodes into a struct

  function Text(e: map<string, Member>, name: string): string {
    if name in e && e[name].MString? then e[name].s else ""
  }

  function Number(e: map<string, Member>, name: string): int {
    if name in e && e[name].MInt? then e[name].n else 0
  }

  function Flag(e: map<string, Member>, name: string): bool {
    name in e && e[name].MBool? && e[name].b
  }

  lemma TsDecodes(s: string)
    requires Ts(s).Ok?
    ensures ValidTimestamp(s) && FourDigitYear(Timestamp.Decode(s)) && Format(Timestamp.Decode(s)) == Ts(s).text
  {
  }

  function Time(e: map<string, Member>, name: string): Moment {
    if name in e && e[name].MString? && Ts(e[name].s).Ok? then
      TsDecodes(e[name].s);
      Timestamp.Decode(e[name].s)
    else ZERO_TIME
  }

  /** json.Unmarshal into GatewayEvent: absent and null members keep the zero value. */
  function DecodeEvent(e: map<string, Member>): Event {
    Event(Text(e, "EventID"), Text(e, "TenantID"), Text(e, "AgentID"), Text(e, "KeyID"),
          Text(e, "DecisionID"), Text(e, "RequestID"), Text(e, "TraceID"), Text(e, "RouteID"), Text(e, "Action"),
          Text(e, "ResourceType"), Text(e, "ResourceID"), Text(e, "BackendID"), Text(e, "Decision"),
          Text(e, "ReasonCode"), Number(e, "HTTPStatus"), Text(e, "SourceIP"), Text(e, "UserAgent"),
          Time(e, "StartedAt"), Time(e, "FinishedAt"), Number(e, "LatencyMS"), Text(e, "SourceTenant"),
          Flag(e, "Federated"), Text(e, "TrustGrant"), Text(e, "Risk"), Text(e, "Producer"))
  }

  function DecodeRecord(r: RawRecord): Record
    requires Ts(r.timestamp).Ok?
  {
    TsDecodes(r.timestamp);
    Record(r.v, r.seqNo, r.eventName, Timestamp.Decode(r.timestamp), DecodeEvent(r.event), r.prevHash, r.hash)
  }

  function DecodeCheckpoint(c: RawCheckpoint): Checkpoint
    requires Ts(c.issuedAt).Ok?
  {
    TsDecodes(c.issuedAt);
    Checkpoint(c.v, c.seqNo, c.hash, c.count, Timestamp.Decode(c.issuedAt), c.keyId, c.signature)
  }

  ghost function DecodeLine(line: RawLine): Line
    requires Typed(line)
  {
    match line
    case RawBlank(space) => Blank(space)
    case RawMalformed => Malformed
    case RawRecordLine(r, pad) => RecordLine(DecodeRecord(r), pad)
    case RawCheckpointLine(c, pad) => CheckpointLine(DecodeCheckpoint(c), pad)
  }

  ghost function DecodeLines(lines: seq<RawLine>): (ls: seq<Line>)
    requires forall i :: 0 <= i < |lines| ==> Typed(lines[i])
    ensures |ls| == |lines|
  {
    seq(|lines|, i requires 0 <= i < |lines| => DecodeLine(lines[i]))
  }

  // ---------------------------------------------------------------- raw hash inputs

  /** eventValue of cmd/agw-verify/main.go, on a typed member. */
  function EventValue(e: map<string, Member>, f: FieldSpec): string {
    var missing := f.name !in e || e[f.name].MNull?;
    match f.kind
    case TString => if missing then "" else Text(e, f.name)
    case TInt => if missing then "0" else PrintInt(Number(e, f.name))
    case TBool => if missing then "false" else PrintBool(Flag(e, f.name))
    case TTime =>
      if missing then "0001-01-01T00:00:00Z"
      else
        match Ts(Text(e, f.name))
        case Ok(text) => text
        case _ => ""
  }

  /** eventValue of site/assets/rfc0009.js. */
  function JsEventValue(e: map<string, Member>, f: FieldSpec): string {
    var absent := f.name !in e || e[f.name] == MNull;
    if f.kind.TString? then if absent then "" else Text(e, f.name)
    else if f.kind.TInt? then if absent then "0" else PrintInt(Number(e, f.name))
    else if f.kind.TBool? then if absent then "false" else if Flag(e, f.name) then "true" else "false"
    else if absent then "0001-01-01T00:00:00Z"
    else
      var t := JsTs(Text(e, f.name));
      if t.Ok? then t.text else ""
  }

  function HashedFieldCount(v: string): nat {
    if v == CHAIN_VERSION_V1 then V1_FIELDS else |EVENT_FIELDS|
  }

  /** The field values a raw verifier hashes, in table order. */
  ghost function Values(e: map<string, Member>, n: nat): (vs: seq<string>)
    requires n <= |EVENT_FIELDS|
    ensures |vs| == n
  {
    seq(n, i requires 0 <= i < n => EventValue(e, EVENT_FIELDS[i]))
  }

  lemma ZeroTimeText()
    ensures Format(ZERO_TIME) == "0001-01-01T00:00:00Z"
  {
    assert FractionText(0) == "";
    var head := Head(1, 1, 1, 0, 0, 0);
    assert head == "0001-01-01T00:00:00";
    assert Format(ZERO_TIME) == head + ("" + "Z");
  }

  /** What the decoded struct holds for a table entry, printed. */
  function StructValue(e: map<string, Member>, f: FieldSpec): string {
    match f.kind
    case TString => Text(e, f.name)
    case TInt => PrintInt(Number(e, f.name))
    case TBool => PrintBool(Flag(e, f.name))
    case TTime => Format(Time(e, f.name))
  }

  lemma ValueIs(e: map<string, Member>, f: FieldSpec)
    requires TypedField(e, f)
    ensures EventValue(e, f) == StructValue(e, f)
  {
    hide Ts;
    hide Format;
    ZeroTimeText();
    if f.kind.TTime? && f.name in e && !e[f.name].MNull? {
      TsDecodes(e[f.name].s);
    }
  }

  /** A member is hashed as what it holds, and one that is absent or null as its type's zero. */
  lemma HashedAs(e: map<string, Member>, name: string, kind: FieldKind)
    requires TypedField(e, FieldSpec(name, kind))
    ensures EventValue(e, FieldSpec(name, kind))
         == match (if name in e then e[name] else MNull)
            case MString(s) => if kind.TTime? then Ts(s).text else s
            case MInt(n) => PrintInt(n)
            case MBool(b) => if b then "true" else "false"
            case MNull => match kind
                          case TString => ""
                          case TInt => "0"
                          case TBool => "false"
                          case TTime => "0001-01-01T00:00:00Z"
  {
    hide Ts;
    hide PrintInt;
  }

  lemma JsValueIs(e: map<string, Member>, f: FieldSpec)
    ensures JsEventValue(e, f) == EventValue(e, f)
  {
    hide Ts;
    hide JsTs;
    JsTsAgrees(Text(e, f.name));
  }

  /** The struct's fields come in table order. */
  lemma StructInTableOrder(e: map<string, Member>, i: nat)
    requires i < |EVENT_FIELDS|
    ensures var d := DecodeEvent(e);
            StructValue(e, EVENT_FIELDS[i]) == if i < V1_FIELDS then EventFieldsV1(d)[i] else EventFieldsV2(d)[i - V1_FIELDS]
  {
    hide Text;
    hide Number;
    hide Flag;
    hide Time;
    hide Format;
    hide PrintInt;
    hide PrintBool;
  }

  /** The table walked over raw members gives the fields the struct gives, in the same order. */
  lemma ValuesAreFields(e: map<string, Member>)
    requires TypedEvent(e)
    ensures Values(e, V1_FIELDS) == EventFieldsV1(DecodeEvent(e))
    ensures Values(e, |EVENT_FIELDS|) == EventFieldsV1(DecodeEvent(e)) + EventFieldsV2(DecodeEvent(e))
  {
    hide EventValue;
    hide StructValue;
    hide DecodeEvent;
    hide EventFieldsV1;
    hide EventFieldsV2;
    forall i | 0 <= i < |EVENT_FIELDS|
      ensures EventValue(e, EVENT_FIELDS[i])
           == if i < V1_FIELDS then EventFieldsV1(DecodeEvent(e))[i] else EventFieldsV2(DecodeEvent(e))[i - V1_FIELDS]
    {
      StructInTableOrder(e, i);
      assert TypedField(e, EVENT_FIELDS[i]);
      ValueIs(e, EVENT_FIELDS[i]);
    }
  }

  ghost function RawInput(r: RawRecord): string
    requires Ts(r.timestamp).Ok?
  {
    r.v + "\n" + Encode([Print(r.seqNo), r.prevHash, r.eventName, Ts(r.timestamp).text]
                        + Values(r.event, HashedFieldCount(r.v)))
  }

  /** The bytes hashed from raw members are the bytes hashed from the decoded struct. */
  lemma RawInputIsRecordInput(r: RawRecord)
    requires Typed(RawRecordLine(r)) && KnownVersion(r.v)
    ensures RawInput(r) == RecordInput(DecodeRecord(r))
  {
    hide Ts;
    hide Format;
    hide Values;
    hide DecodeEvent;
    hide EventFieldsV1;
    hide EventFieldsV2;
    TsDecodes(r.timestamp);
    ValuesAreFields(r.event);
    var four := [Print(r.seqNo), r.prevHash, r.eventName, Ts(r.timestamp).text];
    var d := DecodeEvent(r.event);
    assert four + EventFieldsV1(d) + EventFieldsV2(d) == four + (EventFieldsV1(d) + EventFieldsV2(d));
    assert four + EventFieldsV1(d) + [] == four + EventFieldsV1(d);
  }

  lemma ValuesPush(e: map<string, Member>, i: nat, four: seq<string>)
    requires i < |EVENT_FIELDS|
    ensures four + Values(e, i) + [EventValue(e, EVENT_FIELDS[i])] == four + Values(e, i + 1)
    ensures four + Values(e, 0) == four
  {
    hide EventValue;
  }

  /** hashInput of cmd/agw-verify/main.go. */
  method HashInput(r: RawRecord) returns (b: string)
    requires Typed(RawRecordLine(r))
    ensures b == RawInput(r)
  {
    hide Ts;
    hide EventValue;
    hide Values;
    hide Encode;
    hide Print;
    hide TypedEvent;
    b := HeaderFields(r.v, r.seqNo, r.prevHash, r.eventName, Ts(r.timestamp).text);
    ghost var four := [Print(r.seqNo), r.prevHash, r.eventName, Ts(r.timestamp).text];
    var n := |EVENT_FIELDS|;
    if r.v == CHAIN_VERSION_V1 {
      n := V1_FIELDS;
    }
    ValuesPush(r.event, 0, four);
    for i := 0 to n
      invariant b == r.v + "\n" + Encode(four + Values(r.event, i))
    {
      var v := EventValue(r.event, EVENT_FIELDS[i]);
      b := Write(b, v, r.v + "\n", four + Values(r.event, i));
      ValuesPush(r.event, i, four);
    }
  }

  /** hashInput of site/assets/rfc0009.js; r.ts is the text its own `ts` produced. */
  method JsHashInput(r: RawRecord, t: string) returns (s: string)
    requires Typed(RawRecordLine(r)) && JsTs(r.timestamp) == Ok(t)
    ensures s == RawInput(r)
  {
    hide Ts;
    hide JsTs;
    hide EventValue;
    hide JsEventValue;
    hide Values;
    hide Encode;
    hide Print;
    hide TypedEvent;
    JsTsAgrees(r.timestamp);
    s := HeaderFields(r.v, r.seqNo, r.prevHash, r.eventName, t);
    ghost var four := [Print(r.seqNo), r.prevHash, r.eventName, t];
    var n := if r.v == CHAIN_VERSION_V1 then V1_FIELDS else |EVENT_FIELDS|;
    ValuesPush(r.event, 0, four);
    for i := 0 to n
      invariant s == r.v + "\n" + Encode(four + Values(r.event, i))
    {
      JsValueIs(r.event, EVENT_FIELDS[i]);
      var v := JsEventValue(r.event, EVENT_FIELDS[i]);
      s := Write(s, v, r.v + "\n", four + Values(r.event, i));
      ValuesPush(r.event, i, four);
    }
  }

  /** signingInput, with issuedAt already normalised. */
  function SigningInput(c: RawCheckpoint, issuedAt: string): string {
    CHAIN_VERSION + "/checkpoint\n" + Encode([Print(c.seqNo), c.hash, Print(c.count), issuedAt, c.keyId])
  }

  predicate SignatureValid(suite: Suite, pub: string, c: RawCheckpoint)
  {
    var t := Ts(c.issuedAt);
    t.Ok? && suite.verifies(pub, SigningInput(c, t.text), c.signature)
  }

  predicate JsSignatureValid(suite: Suite, pub: string, c: RawCheckpoint)
  {
    var t := JsTs(c.issuedAt);
    t.Ok? && suite.verifies(pub, SigningInput(c, t.text), c.signature)
  }

  lemma SignatureAgrees(suite: Suite, pub: string, c: RawCheckpoint)
    requires TypedCheckpoint(c)
    ensures SignatureValid(suite, pub, c) == CheckpointVerifies(suite, pub, DecodeCheckpoint(c))
    ensures JsSignatureValid(suite, pub, c) == CheckpointVerifies(suite, pub, DecodeCheckpoint(c))
  {
    hide Ts;
    hide JsTs;
    hide Format;
    TsDecodes(c.issuedAt);
    JsTsAgrees(c.issuedAt);
  }

  ghost function DecodeAnchor(a: Option<RawCheckpoint>): Option<Checkpoint>
    requires a.Some? ==> TypedCheckpoint(a.value)
  {
    match a
    case None => None
    case Some(c) => Some(DecodeCheckpoint(c))
  }

  // ---------------------------------------------------------------- the two raw verifiers

  lemma DecodedAt(lines: seq<RawLine>, i: nat)
    requires forall k :: 0 <= k < |lines| ==> Typed(lines[k])
    requires i < |lines|
    ensures DecodeLines(lines)[i] == DecodeLine(lines[i])
  {
    hide DecodeLine;
    hide Typed;
  }

  lemma DecodeSnoc(lines: seq<RawLine>, i: nat)
    requires forall k :: 0 <= k < |lines| ==> Typed(lines[k])
    requires i < |lines|
    ensures DecodeLines(lines[..i + 1]) == DecodeLines(lines[..i]) + [DecodeLine(lines[i])]
  {
    hide DecodeLine;
    hide DecodeLines;
    hide Typed;
    forall k | 0 <= k <= i
      ensures DecodeLines(lines[..i + 1])[k] == DecodeLine(lines[k])
      ensures k < i ==> DecodeLines(lines[..i])[k] == DecodeLine(lines[k])
    {
      DecodedAt(lines[..i + 1], k);
      if k < i {
        DecodedAt(lines[..i], k);
      }
    }
  }

  lemma StepSnoc(suite: Suite, w: Counter, pub: Option<string>, front: seq<Line>, line: Line)
    ensures Run(suite, w, pub, front + [line]) == Step(suite, w, pub, Run(suite, w, pub, front), line)
  {
    assert (front + [line])[..|front|] == front;
  }

  lemma NothingScanned(suite: Suite, w: Counter, pub: Option<string>)
    ensures Run(suite, w, pub, DecodeLines([])) == START
  {
  }

  /** What one raw line does to the scan, in terms of raw members only. */
  ghost function RawStep(suite: Suite, w: Counter, pub: Option<string>, st: Scan, line: RawLine): Scan
    requires Typed(line)
  {
    match line
    case RawBlank(_) => st
    case RawMalformed => Note(st, true, KMalformed, Succ(w, st.lastSeq))
    case RawCheckpointLine(c, _) =>
      var counted := st.(checkpoints := st.checkpoints + 1, seen := st.seen[c.seqNo := c.hash]);
      if c.v != CHAIN_VERSION || c.seqNo != st.lastSeq || c.hash != st.expected
         || (pub.Some? && !SignatureValid(suite, pub.value, c))
      then Note(counted, true, KCheckpoint, c.seqNo)
      else if pub.Some? then counted.(signedThrough := c.seqNo)
      else counted
    case RawRecordLine(r, _) =>
      if r.v != CHAIN_VERSION && r.v != CHAIN_VERSION_V1 then Note(st, true, KVersion, r.seqNo)
      else
        var s0 := if r.v == CHAIN_VERSION_V1
                  then st.(problems := st.problems + [Problem(KSupersededFormat, r.seqNo)]) else st;
        var s1 := Note(s0, r.seqNo != Succ(w, st.lastSeq), KSequence, r.seqNo);
        var s2 := Note(s1, r.prevHash != st.expected, KChain, r.seqNo);
        var s3 := Note(s2, suite.sha(RawInput(r)) != r.hash, KContent, r.seqNo);
        s3.(records := st.records + 1, lastSeq := r.seqNo, expected := r.hash)
  }

  lemma RawStepIsStep(suite: Suite, w: Counter, pub: Option<string>, st: Scan, line: RawLine)
    requires Typed(line)
    ensures RawStep(suite, w, pub, st, line) == Step(suite, w, pub, st, DecodeLine(line))
  {
    hide Ts;
    hide RawInput;
    hide RecordInput;
    hide CheckpointVerifies;
    hide SignatureValid;
    hide DecodeEvent;
    match line
    case RawRecordLine(r, _) => RawRecordIsStep(suite, w, pub, st, line);
    case RawCheckpointLine(c, _) => RawCheckpointIsStep(suite, w, pub, st, line);
    case _ =>
  }

  lemma RawRecordIsStep(suite: Suite, w: Counter, pub: Option<string>, st: Scan, line: RawLine)
    requires Typed(line) && line.RawRecordLine?
    ensures RawStep(suite, w, pub, st, line) == Step(suite, w, pub, st, DecodeLine(line))
  {
    hide Ts;
    hide RawInput;
    hide RecordInput;
    hide DecodeEvent;
    hide EventValue;
    if KnownVersion(line.rec.v) {
      RawInputIsRecordInput(line.rec);
    }
  }

  lemma RawCheckpointIsStep(suite: Suite, w: Counter, pub: Option<string>, st: Scan, line: RawLine)
    requires Typed(line) && line.RawCheckpointLine?
    ensures RawStep(suite, w, pub, st, line) == Step(suite, w, pub, st, DecodeLine(line))
  {
    hide Ts;
    hide CheckpointVerifies;
    hide SignatureValid;
    if pub.Some? {
      SignatureAgrees(suite, pub.value, line.cp);
    }
  }

  /** Verify of cmd/agw-verify/main.go reports what the reference verifier reports on the decoded log. */
  method AgwVerify(suite: Suite, pub: Option<string>, anchorGiven: Option<RawCheckpoint>, log: seq<RawLine>)
    returns (res: Result)
    requires forall k :: 0 <= k < |log| ==> Typed(log[k])
    requires anchorGiven.Some? ==> TypedCheckpoint(anchorGiven.value)
    ensures res == Verify(suite, Wrapping, pub, DecodeAnchor(anchorGiven), DecodeLines(log))
  {
    hide Ts;
    hide RawInput;
    hide Run;
    hide DecodeLines;
    hide DecodeLine;
    hide Finish;
    hide RecordInput;
    hide Step;
    hide SignatureValid;
    hide CheckpointVerifies;
    NothingScanned(suite, Wrapping, pub);
    var st := START;
    for i := 0 to |log|
      invariant st == Run(suite, Wrapping, pub, DecodeLines(log[..i]))
    {
      DecodeSnoc(log, i);
      StepSnoc(suite, Wrapping, pub, DecodeLines(log[..i]), DecodeLine(log[i]));
      RawStepIsStep(suite, Wrapping, pub, st, log[i]);
      match log[i]
      case RawBlank(_) =>
      case RawMalformed =>
        st := Note(st, true, KMalformed, (st.lastSeq + 1) % UINT64_LIMIT);
      case RawCheckpointLine(c, _) =>
        st := st.(checkpoints := st.checkpoints + 1, seen := st.seen[c.seqNo := c.hash]);
        if c.v != CHAIN_VERSION {
          st := Note(st, true, KCheckpoint, c.seqNo);
        } else if c.seqNo != st.lastSeq {
          st := Note(st, true, KCheckpoint, c.seqNo);
        } else if c.hash != st.expected {
          st := Note(st, true, KCheckpoint, c.seqNo);
        } else if pub.Some? && !SignatureValid(suite, pub.value, c) {
          st := Note(st, true, KCheckpoint, c.seqNo);
        } else if pub.Some? {
          st := st.(signedThrough := c.seqNo);
        }
      case RawRecordLine(r, _) =>
        if r.v == CHAIN_VERSION_V1 {
          st := st.(problems := st.problems + [Problem(KSupersededFormat, r.seqNo)]);
        } else if r.v != CHAIN_VERSION {
          st := Note(st, true, KVersion, r.seqNo);
          continue;
        }
        if r.seqNo != (st.lastSeq + 1) % UINT64_LIMIT {
          st := Note(st, true, KSequence, r.seqNo);
        }
        if r.prevHash != st.expected {
          st := Note(st, true, KChain, r.seqNo);
        }
        var input := HashInput(r);
        if suite.sha(input) != r.hash {
          st := Note(st, true, KContent, r.seqNo);
        }
        st := st.(records := st.records + 1, lastSeq := r.seqNo, expected := r.hash);
    }
    assert log[..|log|] == log;
    if anchorGiven.Some? && pub.Some? {
      SignatureAgrees(suite, pub.value, anchorGiven.value);
    }
    res := FinishRaw(suite, pub, anchorGiven, st);
  }

  /** The checks after the loop; cmd/agw-verify/main.go and site/assets/rfc0009.js write them alike. */
  method FinishRaw(suite: Suite, pub: Option<string>, anchorGiven: Option<RawCheckpoint>, scanned: Scan)
    returns (res: Result)
    requires anchorGiven.Some? ==> TypedCheckpoint(anchorGiven.value)
    ensures res == Finish(suite, pub, DecodeAnchor(anchorGiven), scanned)
  {
    hide Ts;
    hide SignatureValid;
    hide CheckpointVerifies;
    var st, anchor := scanned, anchorGiven;
    if anchor.Some? && pub.Some? {
      SignatureAgrees(suite, pub.value, anchor.value);
      if anchor.value.v != CHAIN_VERSION || !SignatureValid(suite, pub.value, anchor.value) {
        st := Note(st, true, KAnchorInvalid, anchor.value.seqNo);
        anchor := None;
      }
    }
    if anchor.Some? {
      if st.lastSeq < anchor.value.seqNo {
        st := Note(st, true, KRollback, st.lastSeq);
      } else if anchor.value.seqNo !in st.seen {
        st := Note(st, true, KMissingAnchor, anchor.value.seqNo);
      } else if st.seen[anchor.value.seqNo] != anchor.value.hash {
        st := Note(st, true, KForked, anchor.value.seqNo);
      }
    }
    var unanchored := 0;
    if pub.Some? {
      unanchored := if st.lastSeq > st.signedThrough then st.lastSeq - st.signedThrough else 0;
      if st.checkpoints == 0 && st.records > 0 {
        st := Note(st, true, KUnanchored, st.lastSeq);
      }
    }
    res := Result(st.intact, st.records, st.checkpoints, st.lastSeq, st.expected, st.signedThrough, unanchored,
                  st.problems);
  }

  /** verify of site/assets/rfc0009.js: sequence numbers are BigInts, so the successor never wraps. */
  method JsVerify(suite: Suite, pub: Option<string>, anchorGiven: Option<RawCheckpoint>, log: seq<RawLine>)
    returns (res: Result)
    requires forall k :: 0 <= k < |log| ==> Typed(log[k])
    requires anchorGiven.Some? ==> TypedCheckpoint(anchorGiven.value)
    ensures res == Verify(suite, Unbounded, pub, DecodeAnchor(anchorGiven), DecodeLines(log))
  {
    hide Ts;
    hide JsTs;
    hide RawInput;
    hide Run;
    hide DecodeLines;
    hide DecodeLine;
    hide Finish;
    hide RecordInput;
    hide Step;
    hide SignatureValid;
    hide JsSignatureValid;
    hide CheckpointVerifies;
    NothingScanned(suite, Unbounded, pub);
    var st := START;
    for i := 0 to |log|
      invariant st == Run(suite, Unbounded, pub, DecodeLines(log[..i]))
    {
      DecodeSnoc(log, i);
      StepSnoc(suite, Unbounded, pub, DecodeLines(log[..i]), DecodeLine(log[i]));
      RawStepIsStep(suite, Unbounded, pub, st, log[i]);
      match log[i]
      case RawBlank(_) =>
      case RawMalformed =>
        st := Note(st, true, KMalformed, st.lastSeq + 1);
      case RawCheckpointLine(c, _) =>
        if pub.Some? {
          SignatureAgrees(suite, pub.value, c);
        }
        st := st.(checkpoints := st.checkpoints + 1, seen := st.seen[c.seqNo := c.hash]);
        if c.v != CHAIN_VERSION {
          st := Note(st, true, KCheckpoint, c.seqNo);
        } else if c.seqNo != st.lastSeq {
          st := Note(st, true, KCheckpoint, c.seqNo);
        } else if c.hash != st.expected {
          st := Note(st, true, KCheckpoint, c.seqNo);
        } else if pub.Some? && !JsSignatureValid(suite, pub.value, c) {
          st := Note(st, true, KCheckpoint, c.seqNo);
        } else if pub.Some? {
          st := st.(signedThrough := c.seqNo);
        }
      case RawRecordLine(r, _) =>
        JsTsAgrees(r.timestamp);
        if r.v == CHAIN_VERSION_V1 {
          st := st.(problems := st.problems + [Problem(KSupersededFormat, r.seqNo)]);
        } else if r.v != CHAIN_VERSION {
          st := Note(st, true, KVersion, r.seqNo);
          continue;
        }
        if r.seqNo != st.lastSeq + 1 {
          st := Note(st, true, KSequence, r.seqNo);
        }
        if r.prevHash != st.expected {
          st := Note(st, true, KChain, r.seqNo);
        }
        var input := JsHashInput(r, JsTs(r.timestamp).text);
        if suite.sha(input) != r.hash {
          st := Note(st, true, KContent, r.seqNo);
        }
        st := st.(records := st.records + 1, lastSeq := r.seqNo, expected := r.hash);
    }
    assert log[..|log|] == log;
    res := FinishRaw(suite, pub, anchorGiven, st);
  }

  // ---------------------------------------------------------------- when JavaScript agrees with Go

  /** The sequence of the last record whose version is known. */
  ghost function LastSeq(lines: seq<Line>): nat {
    if lines == [] then 0
    else
      match lines[|lines| - 1]
      case RecordLine(r, _) => if KnownVersion(r.version) then r.seqNo else LastSeq(lines[..|lines| - 1])
      case _ => LastSeq(lines[..|lines| - 1])
  }

  /** After the last uint64, the next line is malformed or a record numbered 0. */
  ghost predicate WrapsAt(lines: seq<Line>, i: nat)
    requires i < |lines|
  {
    LastSeq(lines[..i]) == UINT64_LIMIT - 1
    && (lines[i].Malformed? || (lines[i].RecordLine? && KnownVersion(lines[i].rec.version) && lines[i].rec.seqNo == 0))
  }

  ghost predicate Wraps(lines: seq<Line>) {
    exists i :: 0 <= i < |lines| && WrapsAt(lines, i)
  }

  ghost predicate Fits(line: Line) {
    && (line.RecordLine? ==> line.rec.seqNo < UINT64_LIMIT)
    && (line.CheckpointLine? ==> line.cp.seqNo < UINT64_LIMIT)
  }

  /** How the unbounded scan stands to the wrapping one. */
  ghost predicate Related(lines: seq<Line>, g: Scan, j: Scan) {
    && j.(intact := g.intact, problems := g.problems) == g
    && g.lastSeq == LastSeq(lines) < UINT64_LIMIT
    && (!Wraps(lines) ==> j == g)
    && |g.problems| <= |j.problems|
    && (Wraps(lines) ==> |g.problems| < |j.problems| || Problem(KMalformed, UINT64_LIMIT) in j.problems)
    && (forall p :: p in g.problems ==> p.seqNo < UINT64_LIMIT)
  }

  lemma {:induction false} ScansRelated(suite: Suite, pub: Option<string>, lines: seq<Line>)
    requires forall i :: 0 <= i < |lines| ==> Fits(lines[i])
    ensures Related(lines, Run(suite, Wrapping, pub, lines), Run(suite, Unbounded, pub, lines))
  {
    hide Step;
    hide Related;
    if lines == [] {
      NothingRelated();
    } else {
      var last := |lines| - 1;
      var front := lines[..last];
      ScansRelated(suite, pub, front);
      WrapsSnoc(lines);
      assert Fits(lines[last]);
      StepRelated(suite, pub, front, lines, Run(suite, Wrapping, pub, front), Run(suite, Unbounded, pub, front));
    }
  }

  lemma NothingRelated()
    ensures Related([], START, START)
  {
  }

  lemma WrapsSnoc(lines: seq<Line>)
    requires lines != []
    ensures Wraps(lines) <==> Wraps(lines[..|lines| - 1]) || WrapsAt(lines, |lines| - 1)
  {
    var front := lines[..|lines| - 1];
    forall i | 0 <= i < |front|
      ensures WrapsAt(lines, i) <==> WrapsAt(front, i)
    {
      assert lines[..i] == front[..i];
    }
  }

  lemma StepRelated(suite: Suite, pub: Option<string>, front: seq<Line>, lines: seq<Line>, g: Scan, j: Scan)
    requires lines != [] && front == lines[..|lines| - 1] && Related(front, g, j) && Fits(lines[|lines| - 1])
    requires Wraps(lines) <==> Wraps(front) || WrapsAt(lines, |lines| - 1)
    ensures Related(lines, Step(suite, Wrapping, pub, g, lines[|lines| - 1]),
                    Step(suite, Unbounded, pub, j, lines[|lines| - 1]))
  {
    hide CheckpointHolds;
    hide ComputeHash;
    hide Wraps;
    var line := lines[|lines| - 1];
    hide Related;
    match line
    case RecordLine(r, _) =>
      if KnownVersion(r.version) {
        RecordRelated(suite, pub, front, lines, g, j);
      } else {
        QuietRelated(suite, pub, front, lines, g, j);
      }
    case _ => QuietRelated(suite, pub, front, lines, g, j);
  }

  /** Both scans take the same change: the same further problems, and nothing about the numbering. */
  lemma SameChange(front: seq<Line>, lines: seq<Line>, g: Scan, j: Scan, g': Scan, j': Scan, more: seq<Problem>)
    requires Related(front, g, j) && (Wraps(lines) <==> Wraps(front)) && LastSeq(lines) == LastSeq(front)
    requires g'.problems == g.problems + more && j'.problems == j.problems + more && g'.lastSeq == g.lastSeq
    requires j'.(intact := g'.intact, problems := g'.problems) == g' && (j == g ==> j' == g')
    requires forall p :: p in more ==> p.seqNo < UINT64_LIMIT
    ensures Related(lines, g', j')
  {
    hide Wraps;
    hide LastSeq;
  }

  lemma QuietRelated(suite: Suite, pub: Option<string>, front: seq<Line>, lines: seq<Line>, g: Scan, j: Scan)
    requires lines != [] && front == lines[..|lines| - 1] && Related(front, g, j) && Fits(lines[|lines| - 1])
    requires Wraps(lines) <==> Wraps(front) || WrapsAt(lines, |lines| - 1)
    requires lines[|lines| - 1].RecordLine? ==> !KnownVersion(lines[|lines| - 1].rec.version)
    ensures Related(lines, Step(suite, Wrapping, pub, g, lines[|lines| - 1]),
                    Step(suite, Unbounded, pub, j, lines[|lines| - 1]))
  {
    hide CheckpointHolds;
    hide Wraps;
    hide KnownVersion;
    var line := lines[|lines| - 1];
    var g', j' := Step(suite, Wrapping, pub, g, line), Step(suite, Unbounded, pub, j, line);
    if line.Malformed? {
      MalformedRelated(suite, pub, front, lines, g, j);
    } else {
      var more := g'.problems[|g.problems|..];
      assert j'.problems == j.problems + more && g'.problems == g.problems + more;
      hide Related;
      SameChange(front, lines, g, j, g', j', more);
    }
  }

  lemma MalformedRelated(suite: Suite, pub: Option<string>, front: seq<Line>, lines: seq<Line>, g: Scan, j: Scan)
    requires lines != [] && front == lines[..|lines| - 1] && Related(front, g, j) && lines[|lines| - 1].Malformed?
    requires Wraps(lines) <==> Wraps(front) || WrapsAt(lines, |lines| - 1)
    ensures Related(lines, Step(suite, Wrapping, pub, g, lines[|lines| - 1]),
                    Step(suite, Unbounded, pub, j, lines[|lines| - 1]))
  {
    hide Wraps;
    hide KnownVersion;
    var p, q := Problem(KMalformed, Succ(Wrapping, g.lastSeq)), Problem(KMalformed, Succ(Unbounded, j.lastSeq));
    var j' := Step(suite, Unbounded, pub, j, lines[|lines| - 1]);
    assert j'.problems == j.problems + [q];
    assert q in j'.problems;
    assert forall x :: x in j.problems ==> x in j'.problems;
    assert WrapsAt(lines, |lines| - 1) <==> p != q;
  }

  /** The problems a record of a known version adds, in order. */
  ghost function Added(suite: Suite, w: Counter, st: Scan, r: Record): seq<Problem> {
    (if r.version == CHAIN_VERSION_V1 then [Problem(KSupersededFormat, r.seqNo)] else [])
    + (if r.seqNo != Succ(w, st.lastSeq) then [Problem(KSequence, r.seqNo)] else [])
    + ((if r.prevHash != st.expected then [Problem(KChain, r.seqNo)] else [])
       + (if ComputeHash(suite, r) != r.hash then [Problem(KContent, r.seqNo)] else []))
  }

  lemma RecordAdds(suite: Suite, w: Counter, pub: Option<string>, st: Scan, line: Line, r: Record)
    requires line.RecordLine? && r == line.rec && KnownVersion(r.version)
    ensures var t := Step(suite, w, pub, st, line);
            && t.problems == st.problems + Added(suite, w, st, r)
            && t == st.(records := st.records + 1, lastSeq := r.seqNo, expected := r.hash,
                        intact := t.intact, problems := t.problems)
            && (t.intact <==> st.intact && r.seqNo == Succ(w, st.lastSeq) && r.prevHash == st.expected
                              && ComputeHash(suite, r) == r.hash)
  {
    hide ComputeHash;
    hide KnownVersion;
  }

  lemma RecordRelated(suite: Suite, pub: Option<string>, front: seq<Line>, lines: seq<Line>, g: Scan, j: Scan)
    requires lines != [] && front == lines[..|lines| - 1] && Related(front, g, j) && Fits(lines[|lines| - 1])
    requires Wraps(lines) <==> Wraps(front) || WrapsAt(lines, |lines| - 1)
    requires lines[|lines| - 1].RecordLine? && KnownVersion(lines[|lines| - 1].rec.version)
    ensures Related(lines, Step(suite, Wrapping, pub, g, lines[|lines| - 1]),
                    Step(suite, Unbounded, pub, j, lines[|lines| - 1]))
  {
    hide ComputeHash;
    hide Wraps;
    hide KnownVersion;
    hide Step;
    var r := lines[|lines| - 1].rec;
    RecordAdds(suite, Wrapping, pub, g, lines[|lines| - 1], r);
    RecordAdds(suite, Unbounded, pub, j, lines[|lines| - 1], r);
    var gs, js := Added(suite, Wrapping, g, r), Added(suite, Unbounded, j, r);
    var wraps := WrapsAt(lines, |lines| - 1);
    assert wraps <==> (r.seqNo == Succ(Wrapping, g.lastSeq)) != (r.seqNo == Succ(Unbounded, j.lastSeq));
    assert if wraps then |gs| < |js| else gs == js;
    assert forall p :: p in gs ==> p.seqNo == r.seqNo;
  }

  /** Finish appends the same problems to both reports. */
  lemma FinishRelated(suite: Suite, pub: Option<string>, anchor: Option<Checkpoint>, g: Scan, j: Scan)
    requires j.(intact := g.intact, problems := g.problems) == g
    ensures Finish(suite, pub, anchor, j).problems == Finish(suite, pub, anchor, g).problems
            ==> j.problems == g.problems
  {
    hide Finish;
    var more := FinishAdds(suite, pub, anchor, j);
    FinishAddsSame(suite, pub, anchor, g, j);
    FinishAppends(suite, pub, anchor, g);
    FinishAppends(suite, pub, anchor, j);
    assert (j.problems + more)[..|j.problems|] == j.problems && (g.problems + more)[..|g.problems|] == g.problems;
    if j.problems + more == g.problems + more {
      assert |j.problems| == |g.problems|;
    }
  }

  /** The problems the checks after the last line add. */
  ghost function FinishAdds(suite: Suite, pub: Option<string>, anchor: Option<Checkpoint>, st: Scan): seq<Problem> {
    Finish(suite, pub, anchor, st.(problems := [])).problems
  }

  lemma FinishAppends(suite: Suite, pub: Option<string>, anchor: Option<Checkpoint>, st: Scan)
    ensures Finish(suite, pub, anchor, st).problems == st.problems + FinishAdds(suite, pub, anchor, st)
  {
    hide CheckpointVerifies;
  }

  lemma FinishAddsSame(suite: Suite, pub: Option<string>, anchor: Option<Checkpoint>, g: Scan, j: Scan)
    requires j.(intact := g.intact, problems := g.problems) == g
    ensures FinishAdds(suite, pub, anchor, g) == FinishAdds(suite, pub, anchor, j)
  {
    hide CheckpointVerifies;
  }

  /** The JavaScript verifier reports exactly what the Go verifiers report -- counts, intact flag
      and the ordered problems -- if and only if no line after a record numbered 2^64 - 1 is
      malformed or a record numbered 0: Go's uint64 successor wraps to 0 there, a BigInt does not. */
  lemma JavaScriptAgreesIff(suite: Suite, pub: Option<string>, anchor: Option<Checkpoint>, lines: seq<Line>)
    requires forall i :: 0 <= i < |lines| ==> Fits(lines[i])
    ensures Verify(suite, Unbounded, pub, anchor, lines) == Verify(suite, Wrapping, pub, anchor, lines)
            <==> !Wraps(lines)
  {
    hide Wraps;
    hide Finish;
    hide Run;
    ScansRelated(suite, pub, lines);
    FinishRelated(suite, pub, anchor, Run(suite, Wrapping, pub, lines), Run(suite, Unbounded, pub, lines));
  }

  /** Two lines on which they differ: a record numbered 2^64 - 1, then a line that is not a record. */
  lemma JavaScriptDiffers(suite: Suite, r: Record)
    requires r.version == CHAIN_VERSION && r.seqNo == UINT64_LIMIT - 1
    ensures Verify(suite, Unbounded, None, None, [RecordLine(r), Malformed])
         != Verify(suite, Wrapping, None, None, [RecordLine(r), Malformed])
  {
    var lines := [RecordLine(r), Malformed];
    assert lines[..1] == [RecordLine(r)] && lines[..1][..0] == [];
    assert WrapsAt(lines, 1);
    JavaScriptAgreesIff(suite, None, None, lines);
  }
}
