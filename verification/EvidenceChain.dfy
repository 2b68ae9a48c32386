/** Records, checkpoints and the bytes they commit to: pkg/evidence/chain.go.

    A Go string is modelled as its UTF-8 bytes, one char a byte. SHA-256 and the Ed25519 check
    (with its base64 step) are parameters: nothing is assumed of either. */
module EvidenceChain {
  import opened Decimal
  import opened LengthPrefix
  import opened Timestamp

  const CHAIN_VERSION := "agw-evidence-v2"
  const CHAIN_VERSION_V1 := "agw-evidence-v1"

  /** The versions the verifier understands. */
  predicate KnownVersion(v: string) {
    v == CHAIN_VERSION || v == CHAIN_VERSION_V1
  }

  const GENESIS_HASH := Zeros(64)

  /** As many zeros as a SHA-256 digest has hexadecimal digits. */
  lemma GenesisIs()
    ensures GENESIS_HASH == "0000000000000000" + "0000000000000000" + "0000000000000000" + "0000000000000000"
  {
  }

  /** A time.Time in UTC whose year has four digits. */
  type Moment = c: Civil | c.Valid() && FourDigitYear(c) witness ZERO_TIME

  const ZERO_TIME := Civil(Date(1, 1, 1), 0, 0)

  datatype Event = Event(
    eventId: string, tenantId: string, agentId: string, keyId: string,
    decisionId: string, requestId: string, traceId: string,
    routeId: string, action: string, resourceType: string, resourceId: string, backendId: string,
    decision: string, reasonCode: string, httpStatus: int, sourceIp: string, userAgent: string,
    startedAt: Moment, finishedAt: Moment, latencyMs: int,
    sourceTenant: string, federated: bool, trustGrant: string, risk: string, producer: string)

  datatype Record = Record(version: string, seqNo: nat, eventName: string, timestamp: Moment, event: Event,
                           prevHash: string, hash: string)

  datatype Checkpoint = Checkpoint(version: string, seqNo: nat, hash: string, count: nat, issuedAt: Moment,
                                   keyId: string, signature: string)

  /** The library primitives: SHA-256 in hex, and verification of a base64 signature under a key. */
  datatype Suite = Suite(sha: string -> string, verifies: (string, string, string) -> bool)

  function PrintBool(b: bool): string {
    if b then "true" else "false"
  }

  /** The event fields version 1 hashes, in order. */
  function EventFieldsV1(e: Event): (fs: seq<string>)
    ensures |fs| == 20
  {
    [e.eventId, e.tenantId, e.agentId, e.keyId, e.decisionId, e.requestId, e.traceId, e.routeId, e.action,
     e.resourceType, e.resourceId, e.backendId, e.decision, e.reasonCode, PrintInt(e.httpStatus), e.sourceIp,
     e.userAgent, Format(e.startedAt), Format(e.finishedAt), PrintInt(e.latencyMs)]
  }

  /** The fields version 2 added. */
  function EventFieldsV2(e: Event): (fs: seq<string>)
    ensures |fs| == 5
  {
    [e.sourceTenant, PrintBool(e.federated), e.trustGrant, e.risk, e.producer]
  }

  function EffectiveVersion(r: Record): string {
    if r.version == "" then CHAIN_VERSION else r.version
  }

  function RecordFields(r: Record): (fs: seq<string>)
    ensures |fs| == if EffectiveVersion(r) == CHAIN_VERSION_V1 then 24 else 29
  {
    [Print(r.seqNo), r.prevHash, r.eventName, Format(r.timestamp)] + EventFieldsV1(r.event)
    + (if EffectiveVersion(r) == CHAIN_VERSION_V1 then [] else EventFieldsV2(r.event))
  }

  /** The bytes a record's hash covers. */
  function RecordInput(r: Record): string {
    EffectiveVersion(r) + "\n" + Encode(RecordFields(r))
  }

  function CheckpointFields(c: Checkpoint): seq<string> {
    [Print(c.seqNo), c.hash, Print(c.count), Format(c.issuedAt), c.keyId]
  }

  /** The bytes a checkpoint signature covers. */
  function CheckpointInput(c: Checkpoint): string {
    CHAIN_VERSION + "/checkpoint\n" + Encode(CheckpointFields(c))
  }

  function ComputeHash(suite: Suite, r: Record): string {
    suite.sha(RecordInput(r))
  }

  function Link(suite: Suite, r: Record, seqNo: nat, prevHash: string): Record {
    var linked := r.(version := CHAIN_VERSION, seqNo := seqNo, prevHash := prevHash);
    linked.(hash := ComputeHash(suite, linked))
  }

  /** VerifyCheckpoint succeeds. */
  predicate CheckpointVerifies(suite: Suite, pub: string, c: Checkpoint) {
    suite.verifies(pub, CheckpointInput(c), c.signature)
  }

  /** The `write` closure: one field appended to the builder. */
  method Write(b: string, f: string, ghost line: string, ghost fields: seq<string>) returns (r: string)
    requires b == line + Encode(fields)
    ensures r == line + Encode(fields + [f])
  {
    r := b + Field(f);
    EncodeAppend(fields, [f]);
    assert Encode([f]) == Field(f) + Encode([]);
  }

  /** The version line and the four fields every hash input starts with. */
  method HeaderFields(v: string, seqNo: nat, prevHash: string, eventName: string, t: string) returns (b: string)
    ensures b == v + "\n" + Encode([Print(seqNo), prevHash, eventName, t])
  {
    hide Print;
    hide Field;
    ghost var line := v + "\n";
    b := v + "\n";
    b := Write(b, Print(seqNo), line, []);
    b := Write(b, prevHash, line, [] + [Print(seqNo)]);
    b := Write(b, eventName, line, [] + [Print(seqNo)] + [prevHash]);
    b := Write(b, t, line, [] + [Print(seqNo)] + [prevHash] + [eventName]);
    assert [] + [Print(seqNo)] + [prevHash] + [eventName] + [t] == [Print(seqNo), prevHash, eventName, t];
  }

  lemma FieldSlices(r: Record)
    ensures RecordFields(r)[..4] == [Print(r.seqNo), r.prevHash, r.eventName, Format(r.timestamp)]
    ensures RecordFields(r)[4..24] == EventFieldsV1(r.event)
    ensures EffectiveVersion(r) != CHAIN_VERSION_V1 ==> RecordFields(r)[24..] == EventFieldsV2(r.event)
  {
    hide Print;
    hide Format;
    hide EventFieldsV1;
    hide EventFieldsV2;
  }

  /** canonicalRecordInput, appending to its builder field by field. */
  method CanonicalRecordInput(r: Record) returns (b: string)
    ensures b == RecordInput(r)
  {
    hide Encode;
    hide Print;
    hide Field;
    hide Format;
    hide PrintInt;
    hide RecordFields;
    hide EventFieldsV1;
    hide EventFieldsV2;
    FieldSlices(r);
    var version := r.version;
    if version == "" {
      version := CHAIN_VERSION;
    }
    ghost var line := version + "\n";
    ghost var all := RecordFields(r);
    b := HeaderFields(version, r.seqNo, r.prevHash, r.eventName, Format(r.timestamp));
    var fields := EventFieldsV1(r.event);
    for i := 0 to |fields|
      invariant b == line + Encode(all[..4 + i])
    {
      assert fields[i] == all[4..24][i] == all[4 + i];
      assert all[..4 + i] + [fields[i]] == all[..4 + (i + 1)];
      b := Write(b, fields[i], line, all[..4 + i]);
    }

    if version != CHAIN_VERSION_V1 {
      b := WriteV2(b, r.event, line, all[..24]);
      assert all[..24] + all[24..] == all;
    } else {
      assert all[..24] == all;
    }
  }

  method WriteV2(b: string, e: Event, ghost line: string, ghost fields: seq<string>) returns (r: string)
    requires b == line + Encode(fields)
    ensures r == line + Encode(fields + EventFieldsV2(e))
  {
    hide Encode;
    hide Print;
    hide Field;
    var f := EventFieldsV2(e);
    r := Write(b, e.sourceTenant, line, fields);
    r := Write(r, PrintBool(e.federated), line, fields + [f[0]]);
    r := Write(r, e.trustGrant, line, fields + [f[0]] + [f[1]]);
    r := Write(r, e.risk, line, fields + [f[0]] + [f[1]] + [f[2]]);
    r := Write(r, e.producer, line, fields + [f[0]] + [f[1]] + [f[2]] + [f[3]]);
    assert fields + [f[0]] + [f[1]] + [f[2]] + [f[3]] + [f[4]] == fields + f;
  }

  // ---------------------------------------------------------------- injectivity

  /** a and b agree on every field their hashes cover. */
  ghost predicate SameHashed(a: Record, b: Record) {
    && EffectiveVersion(a) == EffectiveVersion(b)
    && a.seqNo == b.seqNo && a.prevHash == b.prevHash && a.eventName == b.eventName && a.timestamp == b.timestamp
    && (if EffectiveVersion(a) == CHAIN_VERSION_V1 then SameV1(a.event, b.event) else a.event == b.event)
  }

  /** The twenty event fields version 1 protects. */
  ghost predicate SameV1(e: Event, f: Event) {
    e.(sourceTenant := f.sourceTenant, federated := f.federated, trustGrant := f.trustGrant, risk := f.risk,
       producer := f.producer) == f
  }

  lemma VersionLine(v: string, x: string, w: string, y: string)
    requires '\n' !in v && '\n' !in w && v + "\n" + x == w + "\n" + y
    ensures v == w && x == y
  {
    IndexOfAfter(v, '\n', x);
    IndexOfAfter(w, '\n', y);
    assert v + ['\n'] + x == v + "\n" + x && w + ['\n'] + y == w + "\n" + y;
    var t := v + "\n" + x;
    assert t[..|v|] == v && t[..|w|] == w;
    assert t[|v| + 1..] == x && t[|w| + 1..] == y;
  }

  lemma EventFieldsV1Injective(e: Event, f: Event)
    requires EventFieldsV1(e) == EventFieldsV1(f)
    ensures SameV1(e, f)
  {
    var a, b := EventFieldsV1(e), EventFieldsV1(f);
    assert forall i :: 0 <= i < 20 ==> a[i] == b[i];
    assert a[14] == b[14] && a[17] == b[17] && a[18] == b[18] && a[19] == b[19];
    PrintIntInjective(e.httpStatus, f.httpStatus);
    PrintIntInjective(e.latencyMs, f.latencyMs);
    FormatInjective(e.startedAt, f.startedAt);
    FormatInjective(e.finishedAt, f.finishedAt);
    assert a[0] == b[0] && a[1] == b[1] && a[2] == b[2] && a[3] == b[3] && a[4] == b[4] && a[5] == b[5];
    assert a[6] == b[6] && a[7] == b[7] && a[8] == b[8] && a[9] == b[9] && a[10] == b[10] && a[11] == b[11];
    assert a[12] == b[12] && a[13] == b[13] && a[15] == b[15] && a[16] == b[16];
  }

  lemma EventFieldsV2Injective(e: Event, f: Event)
    requires SameV1(e, f) && EventFieldsV2(e) == EventFieldsV2(f)
    ensures e == f
  {
    var a, b := EventFieldsV2(e), EventFieldsV2(f);
    assert a[0] == b[0] && a[1] == b[1] && a[2] == b[2] && a[3] == b[3] && a[4] == b[4];
    assert PrintBool(e.federated)[0] == PrintBool(f.federated)[0];
  }

  lemma SameFieldsSameHashed(a: Record, b: Record)
    requires EffectiveVersion(a) == EffectiveVersion(b) && RecordFields(a) == RecordFields(b)
    ensures SameHashed(a, b)
  {
    hide Print;
    hide Format;
    hide PrintInt;
    var x, y := RecordFields(a), RecordFields(b);
    assert x[0] == y[0] && x[1] == y[1] && x[2] == y[2] && x[3] == y[3];
    PrintInjective(a.seqNo, b.seqNo);
    FormatInjective(a.timestamp, b.timestamp);
    assert x[4..24] == EventFieldsV1(a.event) && y[4..24] == EventFieldsV1(b.event);
    EventFieldsV1Injective(a.event, b.event);
    if EffectiveVersion(a) != CHAIN_VERSION_V1 {
      assert x[24..] == EventFieldsV2(a.event) && y[24..] == EventFieldsV2(b.event);
      EventFieldsV2Injective(a.event, b.event);
    }
  }

  /** Records that hash alike byte for byte agree on every hashed field exactly if they are of one
      version: under one version line no value can shift a field boundary. */
  lemma RecordInputIff(a: Record, b: Record)
    requires RecordInput(a) == RecordInput(b)
    ensures SameHashed(a, b) <==> EffectiveVersion(a) == EffectiveVersion(b)
  {
    hide Encode;
    hide RecordFields;
    if EffectiveVersion(a) == EffectiveVersion(b) {
      var line := EffectiveVersion(a) + "\n";
      assert RecordInput(a)[|line|..] == Encode(RecordFields(a));
      assert RecordInput(b)[|line|..] == Encode(RecordFields(b));
      EncodeInjective(RecordFields(a), RecordFields(b));
      SameFieldsSameHashed(a, b);
    }
  }

  /** And they are of one version wherever no version holds a line break, so in particular among
      the versions there are. */
  lemma RecordInputInjective(a: Record, b: Record)
    requires '\n' !in a.version && '\n' !in b.version
    requires RecordInput(a) == RecordInput(b)
    ensures SameHashed(a, b)
  {
    hide Encode;
    hide RecordFields;
    VersionLine(EffectiveVersion(a), Encode(RecordFields(a)), EffectiveVersion(b), Encode(RecordFields(b)));
    RecordInputIff(a, b);
  }

  lemma KnownHasNoBreak(v: string)
    requires KnownVersion(v)
    ensures v != "" && '\n' !in v
  {
    assert '\n' !in CHAIN_VERSION && '\n' !in CHAIN_VERSION_V1;
  }

  /** The fields of the record under any version but the first. */
  function AllFields(r: Record): (fs: seq<string>)
    ensures |fs| == 29
  {
    RecordFields(r.(version := CHAIN_VERSION))
  }

  lemma EncodeOne(s: string)
    ensures Encode([s]) == Print(|s|) + ":" + s
  {
    assert Field(s) + Encode([]) == Field(s);
  }

  lemma EncodeAround(fields: seq<string>, k: nat)
    requires k < |fields|
    ensures Encode(fields) == Encode(fields[..k]) + (Print(|fields[k]|) + ":") + fields[k] + Encode(fields[k + 1..])
  {
    hide Encode;
    assert fields == fields[..k] + ([fields[k]] + fields[k + 1..]);
    EncodeAppend(fields[..k], [fields[k]] + fields[k + 1..]);
    EncodeAppend([fields[k]], fields[k + 1..]);
    EncodeOne(fields[k]);
  }

  /** A field's own bytes stand in the record's hash input, behind the version line. */
  lemma FieldStands(r: Record, k: nat) returns (front: string)
    requires k < |RecordFields(r)|
    ensures RecordInput(r) == front + RecordFields(r)[k] + Encode(RecordFields(r)[k + 1..])
    ensures '\n' in front && |front| > |EffectiveVersion(r)|
  {
    hide Encode;
    hide RecordFields;
    var line, fields := EffectiveVersion(r) + "\n", RecordFields(r);
    EncodeAround(fields, k);
    front := line + (Encode(fields[..k]) + (Print(|fields[k]|) + ":"));
    assert front[|line| - 1] == '\n';
  }

  /** Where a version does hold a line break the fields can be told apart no longer: any two records
      give one hash input once the first names a certain producer and the second a certain version.
      Version 1 does not hash the producer, so there the user agent takes its place. */
  lemma TwoRecordsOneInput(a0: Record, b0: Record) returns (a: Record, b: Record)
    ensures if EffectiveVersion(a0) == CHAIN_VERSION_V1
            then a == a0.(event := a0.event.(userAgent := a.event.userAgent))
                 && b == b0.(version := b.version, event := b0.event.(producer := b.event.producer))
            else a == a0.(event := a0.event.(producer := a.event.producer)) && b == b0.(version := b.version)
    ensures RecordInput(a) == RecordInput(b) && !SameHashed(a, b)
  {
    if EffectiveVersion(a0) == CHAIN_VERSION_V1 {
      a, b := TwoFromVersionOne(a0, b0);
    } else {
      a, b := TwoFromVersionTwo(a0, b0);
    }
  }

  lemma BrokenVersion(b: Record, front: string)
    requires '\n' in front
    ensures EffectiveVersion(b.(version := front)) == front
    ensures RecordInput(b.(version := front)) == front + "\n" + Encode(AllFields(b))
  {
    hide Encode;
    KnownHasNoBreak(CHAIN_VERSION_V1);
  }

  lemma ProducerIsLast(r: Record)
    ensures AllFields(r)[28] == r.event.producer && Encode(AllFields(r)[29..]) == ""
    ensures EffectiveVersion(r) != CHAIN_VERSION_V1 ==> RecordFields(r) == AllFields(r)
  {
    hide Print;
    hide Format;
    hide PrintInt;
    assert AllFields(r)[29..] == [];
  }

  lemma UserAgentStands(r: Record, agent: string)
    ensures var a := r.(event := r.event.(userAgent := agent));
            && EffectiveVersion(a) == EffectiveVersion(r)
            && RecordFields(a)[20] == agent && RecordFields(a)[21..] == RecordFields(r)[21..]
  {
    hide Print;
    hide Format;
    hide PrintInt;
  }

  lemma VersionsDiffer(a: Record, b: Record)
    requires EffectiveVersion(a) != EffectiveVersion(b)
    ensures !SameHashed(a, b)
  {
  }

  lemma TwoFromVersionTwo(a0: Record, b0: Record) returns (a: Record, b: Record)
    requires EffectiveVersion(a0) != CHAIN_VERSION_V1
    ensures a == a0.(event := a0.event.(producer := a.event.producer)) && b == b0.(version := b.version)
    ensures RecordInput(a) == RecordInput(b) && !SameHashed(a, b)
  {
    hide Encode;
    hide RecordFields;
    hide AllFields;
    hide RecordInput;
    hide SameHashed;
    var behind := "\n" + Encode(AllFields(b0));
    a := a0.(event := a0.event.(producer := behind));
    ProducerIsLast(a);
    var front := FieldStands(a, 28);
    b := b0.(version := front);
    BrokenVersion(b0, front);
    VersionsDiffer(a, b);
    assert RecordInput(a) == front + behind + "";
    assert front + behind + "" == front + "\n" + Encode(AllFields(b0));
  }

  lemma TwoFromVersionOne(a0: Record, b0: Record) returns (a: Record, b: Record)
    requires EffectiveVersion(a0) == CHAIN_VERSION_V1
    ensures a == a0.(event := a0.event.(userAgent := a.event.userAgent))
    ensures b == b0.(version := b.version, event := b0.event.(producer := b.event.producer))
    ensures RecordInput(a) == RecordInput(b) && !SameHashed(a, b)
  {
    hide Encode;
    hide RecordFields;
    hide AllFields;
    hide RecordInput;
    hide SameHashed;
    hide Print;
    var tail := Encode(RecordFields(a0)[21..]);
    var b1 := b0.(event := b0.event.(producer := tail));
    var all := AllFields(b1);
    ProducerIsLast(b1);
    EncodeAround(all, 28);
    var start := Encode(all[..28]) + (Print(|tail|) + ":");
    var agent := "\n" + start;
    a := a0.(event := a0.event.(userAgent := agent));
    UserAgentStands(a0, agent);
    var front := FieldStands(a, 20);
    b := b1.(version := front);
    BrokenVersion(b1, front);
    VersionsDiffer(a, b);
    assert RecordInput(a) == front + agent + tail;
    assert Encode(all) == start + tail + "";
    assert front + agent + tail == front + "\n" + (start + tail + "");
  }

  /** A checkpoint's signed bytes determine everything it commits to. */
  lemma CheckpointInputInjective(a: Checkpoint, b: Checkpoint)
    requires CheckpointInput(a) == CheckpointInput(b)
    ensures a.seqNo == b.seqNo && a.hash == b.hash && a.count == b.count && a.issuedAt == b.issuedAt && a.keyId == b.keyId
  {
    var p := CHAIN_VERSION + "/checkpoint\n";
    assert CheckpointInput(a)[|p|..] == Encode(CheckpointFields(a));
    assert CheckpointInput(b)[|p|..] == Encode(CheckpointFields(b));
    var x, y := CheckpointFields(a), CheckpointFields(b);
    EncodeInjective(x, y);
    assert x[0] == y[0] && x[1] == y[1] && x[2] == y[2] && x[3] == y[3] && x[4] == y[4];
    PrintInjective(a.seqNo, b.seqNo);
    PrintInjective(a.count, b.count);
    FormatInjective(a.issuedAt, b.issuedAt);
  }
}
