/** What the signing daemon agrees to sign: pkg/ags1/signer/purpose.go. */
module SignerPurpose {
  import opened Decimal
  import opened LengthPrefix
  import opened Text
  import EvidenceChain
  import Timestamp

  datatype Purpose = PrincipalContext | EvidenceCheckpoint | ReadinessProbe

  const PRINCIPAL_PREFIX := "agw-principal-context-v1\n"
  const CHECKPOINT_PREFIX := "agw-evidence-v2/checkpoint\n"
  const CHECKPOINT_PREFIX_V1 := "agw-evidence-v1/checkpoint\n"
  const PROBE_PREFIX := "agw-readiness-probe-v1\n"
  const PROBE_MESSAGE := PROBE_PREFIX + "readiness"

  const TENANT := "x-agw-verified-tenant-id"
  const AGENT := "x-agw-verified-agent-id"
  const DECISION := "x-agw-decision-id"

  /** ClassifyPurpose: by the message's own leading bytes. */
  function Classify(m: string): Option<Purpose> {
    if HasPrefix(m, PRINCIPAL_PREFIX) then Some(PrincipalContext)
    else if HasPrefix(m, CHECKPOINT_PREFIX) || HasPrefix(m, CHECKPOINT_PREFIX_V1) then Some(EvidenceCheckpoint)
    else if HasPrefix(m, PROBE_PREFIX) then Some(ReadinessProbe)
    else None
  }

  /** What stands in the places of the keys. */
  function KeysIn(fields: seq<string>): set<string> {
    set i | 0 <= i < |fields| && i % 2 == 0 :: fields[i]
  }

  predicate ContextFields(fields: seq<string>) {
    && fields != [] && |fields| % 2 == 0
    && TENANT in KeysIn(fields) && AGENT in KeysIn(fields) && DECISION in KeysIn(fields)
  }

  predicate CheckpointParts(parts: seq<string>) {
    |parts| == 5 && ParseUint(parts[0]).Some? && ParseUint(parts[2]).Some?
  }

  function CheckpointBody(m: string): Option<string> {
    if HasPrefix(m, CHECKPOINT_PREFIX) then Some(m[|CHECKPOINT_PREFIX|..])
    else if HasPrefix(m, CHECKPOINT_PREFIX_V1) then Some(m[|CHECKPOINT_PREFIX_V1|..])
    else None
  }

  /** ValidateForPurpose succeeds. */
  predicate Validates(p: Purpose, m: string) {
    match p
    case PrincipalContext =>
      var fields := ParseFields(TrimPrefix(m, PRINCIPAL_PREFIX));
      fields.Some? && ContextFields(fields.value)
    case EvidenceCheckpoint =>
      var body := CheckpointBody(m);
      body.Some? && ParseFields(body.value).Some? && CheckpointParts(ParseFields(body.value).value)
    case ReadinessProbe => m == PROBE_MESSAGE
  }

  /** ValidateForPurpose. */
  method ValidateForPurpose(p: Purpose, m: string) returns (ok: bool)
    ensures ok == Validates(p, m)
  {
    hide ParseFields;
    hide ParseUint;
    match p {
      case PrincipalContext =>
        var fields := ParseLengthPrefixed(TrimPrefix(m, PRINCIPAL_PREFIX));
        if fields.None? || |fields.value| == 0 || |fields.value| % 2 != 0 {
          return false;
        }
        var present: set<string> := {};
        var i := 0;
        while i < |fields.value|
          invariant 0 <= i <= |fields.value| && i % 2 == 0
          invariant present == KeysIn(fields.value[..i])
        {
          KeysPush(fields.value, i);
          present := present + {fields.value[i]};
          i := i + 2;
        }
        assert fields.value[..i] == fields.value;
        var required := [TENANT, AGENT, DECISION];
        for k := 0 to |required|
          invariant forall j :: 0 <= j < k ==> required[j] in present
        {
          if required[k] !in present {
            return false;
          }
        }
        assert required[0] in present && required[1] in present && required[2] in present;
        return true;
      case EvidenceCheckpoint =>
        var body := CheckpointBody(m);
        if body.None? {
          return false;
        }
        var parts := ParseLengthPrefixed(body.value);
        if parts.None? || |parts.value| != 5 {
          return false;
        }
        return ParseUint(parts.value[0]).Some? && ParseUint(parts.value[2]).Some?;
      case ReadinessProbe =>
        return m == PROBE_MESSAGE;
    }
  }

  lemma KeysPush(fields: seq<string>, i: nat)
    requires i + 2 <= |fields| && i % 2 == 0
    ensures KeysIn(fields[..i + 2]) == KeysIn(fields[..i]) + {fields[i]}
  {
    var a, b := fields[..i], fields[..i + 2];
    forall x
      ensures x in KeysIn(b) <==> x in KeysIn(a) + {fields[i]}
    {
      if x in KeysIn(b) {
        var k :| 0 <= k < |b| && k % 2 == 0 && b[k] == x;
        assert k < i ==> a[k] == x;
      }
      if x in KeysIn(a) {
        var k :| 0 <= k < |a| && k % 2 == 0 && a[k] == x;
        assert b[k] == x;
      }
      assert b[i] == fields[i];
    }
  }

  // ---------------------------------------------------------------- what the chain writer produces

  /** Checkpoints Go can hold at all. */
  ghost predicate FitsGo(c: EvidenceChain.Checkpoint) {
    c.seqNo < UINT64_LIMIT && c.count < UINT64_LIMIT && Encodable(EvidenceChain.CheckpointFields(c))
  }

  lemma ParseUintPrint(n: nat)
    requires n < UINT64_LIMIT
    ensures ParseUint(Print(n)) == Some(n)
  {
    ValuePrint(n);
  }

  lemma CheckpointPrefixIs()
    ensures EvidenceChain.CHAIN_VERSION + "/checkpoint\n" == CHECKPOINT_PREFIX
  {
  }

  lemma PrefixesDiffer(m: string)
    ensures HasPrefix(m, CHECKPOINT_PREFIX) || HasPrefix(m, CHECKPOINT_PREFIX_V1) ==> !HasPrefix(m, PRINCIPAL_PREFIX)
    ensures HasPrefix(m, CHECKPOINT_PREFIX) || HasPrefix(m, CHECKPOINT_PREFIX_V1) ==> !HasPrefix(m, PROBE_PREFIX)
    ensures HasPrefix(m, CHECKPOINT_PREFIX) ==> !HasPrefix(m, CHECKPOINT_PREFIX_V1)
    ensures HasPrefix(m, PRINCIPAL_PREFIX) ==> !HasPrefix(m, PROBE_PREFIX)
  {
    assert PRINCIPAL_PREFIX[4] == 'p' && CHECKPOINT_PREFIX[4] == 'e' && CHECKPOINT_PREFIX_V1[4] == 'e';
    assert PROBE_PREFIX[4] == 'r' && CHECKPOINT_PREFIX[14] == '2' && CHECKPOINT_PREFIX_V1[14] == '1';
    assert HasPrefix(m, CHECKPOINT_PREFIX) ==> m[4] == 'e' && m[14] == '2';
    assert HasPrefix(m, CHECKPOINT_PREFIX_V1) ==> m[4] == 'e' && m[14] == '1';
    assert HasPrefix(m, PRINCIPAL_PREFIX) ==> m[4] == 'p';
    assert HasPrefix(m, PROBE_PREFIX) ==> m[4] == 'r';
  }

  /** Every checkpoint the chain writer asks to have signed is classified as one and validates. */
  lemma CheckpointIsSignable(c: EvidenceChain.Checkpoint)
    requires FitsGo(c)
    ensures Classify(EvidenceChain.CheckpointInput(c)) == Some(EvidenceCheckpoint)
    ensures Validates(EvidenceCheckpoint, EvidenceChain.CheckpointInput(c))
  {
    hide Encode;
    hide ParseFields;
    hide ParseUint;
    hide Print;
    hide Timestamp.Format;
    var m, body := EvidenceChain.CheckpointInput(c), Encode(EvidenceChain.CheckpointFields(c));
    CheckpointPrefixIs();
    assert m == CHECKPOINT_PREFIX + body;
    assert m[|CHECKPOINT_PREFIX|..] == body;
    PrefixesDiffer(m);
    ParseEncode(EvidenceChain.CheckpointFields(c));
    ParseUintPrint(c.seqNo);
    ParseUintPrint(c.count);
  }

  // ---------------------------------------------------------------- and nothing else is

  /** A text that parses as fields is empty or starts with a digit or a sign. */
  lemma FieldsStart(s: string)
    requires s != "" && ParseFields(s).Some?
    ensures IsDigit(s[0]) || s[0] == '-' || s[0] == '+'
  {
    hide IndexOf;
    SplitSpells(s);
    var p := s[..IndexOf(s, ':')];
    assert p[0] == s[0];
    AtoiStart(p);
  }

  lemma AtoiStart(p: string)
    requires Atoi(p).Some?
    ensures p != "" && (IsDigit(p[0]) || p[0] == '-' || p[0] == '+')
  {
  }

  /** The chain's hash inputs, as an evidence key could be asked to sign one. */
  lemma RecordBodyParses(r: EvidenceChain.Record)
    requires Encodable(EvidenceChain.RecordFields(r))
    ensures ParseFields(Encode(EvidenceChain.RecordFields(r))) == Some(EvidenceChain.RecordFields(r))
  {
    ParseEncode(EvidenceChain.RecordFields(r));
  }

  lemma AfterVersionLine(v: string, body: string, p: string)
    requires '\n' !in v && p != "" && p[|p| - 1] == '\n' && '\n' !in p[..|p| - 1]
    requires HasPrefix(v + "\n" + body, p)
    ensures v + "\n" == p && (v + "\n" + body)[|p|..] == body
  {
    var m := v + "\n" + body;
    var w := p[..|p| - 1];
    assert m == p + m[|p|..];
    assert p == w + "\n";
    assert m == w + "\n" + m[|p|..];
    EvidenceChain.VersionLine(v, body, w, m[|p|..]);
  }

  lemma PrefixLines()
    ensures forall p :: p in {PRINCIPAL_PREFIX, CHECKPOINT_PREFIX, CHECKPOINT_PREFIX_V1, PROBE_PREFIX} ==>
              p != "" && p[|p| - 1] == '\n' && '\n' !in p[..|p| - 1]
  {
  }

  lemma EncodeStartsWithDigit(fields: seq<string>)
    requires fields != []
    ensures Encode(fields) != "" && IsDigit(Encode(fields)[0])
  {
    hide Print;
    assert Encode(fields)[0] == Print(|fields[0]|)[0];
  }

  /** A purpose's message is one of its prefixes and a list of fields it accepts. */
  predicate HasFields(p: Purpose, fields: seq<string>) {
    match p
    case PrincipalContext => ContextFields(fields)
    case EvidenceCheckpoint => CheckpointParts(fields)
    case ReadinessProbe => false
  }

  function Prefixes(p: Purpose): set<string> {
    match p
    case PrincipalContext => {PRINCIPAL_PREFIX}
    case EvidenceCheckpoint => {CHECKPOINT_PREFIX, CHECKPOINT_PREFIX_V1}
    case ReadinessProbe => {PROBE_PREFIX}
  }

  /** The daemon signs m for p: it classifies as p and validates. */
  predicate Signable(p: Purpose, m: string) {
    Classify(m) == Some(p) && Validates(p, m)
  }

  lemma SignableIs(p: Purpose, m: string, prefix: string)
    requires prefix in Prefixes(p) && HasPrefix(m, prefix) && !p.ReadinessProbe?
    ensures Signable(p, m)
       <==> ParseFields(m[|prefix|..]).Some? && HasFields(p, ParseFields(m[|prefix|..]).value)
  {
    hide ParseFields;
    hide ContextFields;
    hide CheckpointParts;
    PrefixesDiffer(m);
  }

  lemma SignableHasPrefix(p: Purpose, m: string)
    requires Signable(p, m)
    ensures exists prefix :: prefix in Prefixes(p) && HasPrefix(m, prefix)
  {
    hide Validates;
    if p.EvidenceCheckpoint? {
      assert CHECKPOINT_PREFIX in Prefixes(p) && CHECKPOINT_PREFIX_V1 in Prefixes(p);
    } else if p.PrincipalContext? {
      assert PRINCIPAL_PREFIX in Prefixes(p);
    } else {
      assert PROBE_PREFIX in Prefixes(p);
    }
  }

  /** The fields name each of the keys a principal context must carry, in the place of a key. */
  ghost predicate Names(fields: seq<string>, key: string) {
    exists i :: 0 <= i < |fields| && i % 2 == 0 && fields[i] == key
  }

  /** A numeral of an unsigned 64-bit number. */
  ghost predicate Numeral(s: string) {
    s != "" && (forall i :: 0 <= i < |s| ==> '0' <= s[i] <= '9') && Value(s) < 18_446_744_073_709_551_616
  }

  /** What the daemon signs, spelled out: a principal context of whole pairs that names tenant, agent
      and decision; the five parts of a checkpoint, its sequence number and count being numerals; and
      one probe. */
  lemma SignableIff(m: string, prefix: string, rest: string, fields: seq<string>)
    requires m == prefix + rest
    ensures prefix == "agw-principal-context-v1\n" && ParseFields(rest) == Some(fields) ==>
              (Signable(PrincipalContext, m)
               <==> |fields| % 2 == 0 && Names(fields, "x-agw-verified-tenant-id")
                    && Names(fields, "x-agw-verified-agent-id") && Names(fields, "x-agw-decision-id"))
    ensures (prefix == "agw-evidence-v1/checkpoint\n" || prefix == "agw-evidence-v2/checkpoint\n")
            && ParseFields(rest) == Some(fields) ==>
              (Signable(EvidenceCheckpoint, m) <==> |fields| == 5 && Numeral(fields[0]) && Numeral(fields[2]))
    ensures Signable(ReadinessProbe, m) <==> m == "agw-readiness-probe-v1\nreadiness"
  {
    hide ParseFields;
    hide ContextFields;
    hide CheckpointParts;
    ContextIff(fields);
    PartsIff(fields);
    ProbeIff(m);
    assert m[..|prefix|] == prefix && m[|prefix|..] == rest;
    if prefix == PRINCIPAL_PREFIX {
      SignableIs(PrincipalContext, m, prefix);
    }
    if prefix == CHECKPOINT_PREFIX || prefix == CHECKPOINT_PREFIX_V1 {
      SignableIs(EvidenceCheckpoint, m, prefix);
    }
  }

  lemma ContextIff(fields: seq<string>)
    ensures ContextFields(fields)
       <==> |fields| % 2 == 0 && Names(fields, "x-agw-verified-tenant-id")
            && Names(fields, "x-agw-verified-agent-id") && Names(fields, "x-agw-decision-id")
  {
    forall key: string
      ensures Names(fields, key) <==> key in KeysIn(fields)
    {
    }
  }

  lemma PartsIff(fields: seq<string>)
    ensures CheckpointParts(fields) <==> |fields| == 5 && Numeral(fields[0]) && Numeral(fields[2])
  {
    hide Value;
  }

  lemma ProbeIff(m: string)
    ensures Signable(ReadinessProbe, m) <==> m == "agw-readiness-probe-v1\nreadiness"
  {
    PrefixesDiffer(m);
    assert PROBE_MESSAGE[..|PROBE_PREFIX|] == PROBE_PREFIX;
  }

  /** And nothing that lacks these openings, or whose rest is no list of fields. */
  lemma SignableOpens(p: Purpose, m: string)
    requires Signable(p, m) && !p.ReadinessProbe?
    ensures exists prefix: string, rest: string ::
              && m == prefix + rest && ParseFields(rest).Some?
              && (if p.PrincipalContext? then prefix == "agw-principal-context-v1\n"
                  else prefix == "agw-evidence-v1/checkpoint\n" || prefix == "agw-evidence-v2/checkpoint\n")
  {
    hide ParseFields;
    hide Signable;
    SignableHasPrefix(p, m);
    var prefix :| prefix in Prefixes(p) && HasPrefix(m, prefix);
    SignableIs(p, m, prefix);
    assert m == prefix + m[|prefix|..];
  }

  /** After the prefix, the record's version leaves a field open that the line break and the
      record's own fields close, into a list the purpose accepts. */
  predicate VersionSpells(p: Purpose, prefix: string, r: EvidenceChain.Record) {
    var v, s := EvidenceChain.EffectiveVersion(r), "\n" + Encode(EvidenceChain.RecordFields(r));
    && HasPrefix(v, prefix) && OpenField(v[|prefix|..]).Some?
    && var fields := Closed(OpenField(v[|prefix|..]).value, s);
       fields.Some? && HasFields(p, fields.value)
  }

  /** Without a line break in its version, what follows the prefix is the record's own 24 or 29 fields. */
  lemma PlainVersionFields(r: EvidenceChain.Record, prefix: string)
    requires '\n' !in EvidenceChain.EffectiveVersion(r) && Encodable(EvidenceChain.RecordFields(r))
    requires prefix in {PRINCIPAL_PREFIX, CHECKPOINT_PREFIX, CHECKPOINT_PREFIX_V1, PROBE_PREFIX}
    requires HasPrefix(EvidenceChain.RecordInput(r), prefix)
    ensures EvidenceChain.RecordInput(r)[|prefix|..] == Encode(EvidenceChain.RecordFields(r))
    ensures ParseFields(EvidenceChain.RecordInput(r)[|prefix|..]) == Some(EvidenceChain.RecordFields(r))
    ensures prefix == PRINCIPAL_PREFIX ==> |EvidenceChain.RecordFields(r)| == 29
  {
    hide Encode;
    hide ParseFields;
    hide EvidenceChain.RecordFields;
    var v, body := EvidenceChain.EffectiveVersion(r), Encode(EvidenceChain.RecordFields(r));
    PrefixLines();
    RecordBodyParses(r);
    AfterVersionLine(v, body, prefix);
    if prefix == PRINCIPAL_PREFIX {
      VersionIsNotV1(v, prefix);
    }
  }

  /** With one, the prefix ends inside the version. */
  lemma BrokenVersionPrefix(v: string, body: string, prefix: string)
    requires '\n' in v
    requires prefix in {PRINCIPAL_PREFIX, CHECKPOINT_PREFIX, CHECKPOINT_PREFIX_V1, PROBE_PREFIX}
    requires HasPrefix(v + "\n" + body, prefix)
    ensures HasPrefix(v, prefix)
  {
    var m := v + "\n" + body;
    var i :| 0 <= i < |v| && v[i] == '\n';
    PrefixBreak(prefix);
    assert m[i] == '\n';
    assert forall j :: 0 <= j < |prefix| ==> m[j] == prefix[j];
    assert i >= |prefix| - 1;
    assert m[..|v|] == v;
  }

  lemma PrefixBreak(prefix: string)
    requires prefix in {PRINCIPAL_PREFIX, CHECKPOINT_PREFIX, CHECKPOINT_PREFIX_V1, PROBE_PREFIX}
    ensures forall i :: 0 <= i < |prefix| ==> (prefix[i] == '\n' <==> i == |prefix| - 1)
  {
    PrefixLines();
    assert forall i :: 0 <= i < |prefix| - 1 ==> prefix[..|prefix| - 1][i] == prefix[i];
  }

  /** Exactly which records' hash inputs the daemon would sign, and under which purpose. */
  lemma RecordIsSignableIff(r: EvidenceChain.Record, p: Purpose)
    requires Encodable(EvidenceChain.RecordFields(r))
    ensures Signable(p, EvidenceChain.RecordInput(r)) <==> exists prefix :: prefix in Prefixes(p) && VersionSpells(p, prefix, r)
  {
    hide Signable;
    hide VersionSpells;
    var m := EvidenceChain.RecordInput(r);
    if Signable(p, m) {
      SignableHasPrefix(p, m);
    }
    forall prefix | prefix in Prefixes(p)
      ensures VersionSpells(p, prefix, r) <==> HasPrefix(m, prefix) && Signable(p, m)
    {
      SignableByPrefix(r, p, prefix);
    }
  }

  lemma SignableByPrefix(r: EvidenceChain.Record, p: Purpose, prefix: string)
    requires Encodable(EvidenceChain.RecordFields(r)) && prefix in Prefixes(p)
    ensures VersionSpells(p, prefix, r)
       <==> HasPrefix(EvidenceChain.RecordInput(r), prefix) && Signable(p, EvidenceChain.RecordInput(r))
  {
    hide Encode;
    hide ParseFields;
    hide OpenField;
    hide Closed;
    hide Signable;
    hide ContextFields;
    hide CheckpointParts;
    hide EvidenceChain.RecordFields;
    var v, body := EvidenceChain.EffectiveVersion(r), Encode(EvidenceChain.RecordFields(r));
    var m := EvidenceChain.RecordInput(r);
    if HasPrefix(v, prefix) {
      BreakAfter(v, body, prefix);
    }
    if p.ReadinessProbe? {
      RecordIsNoProbe(r);
      SignableProbe(m);
    } else if HasPrefix(m, prefix) {
      SignableIs(p, m, prefix);
      if '\n' in v {
        BrokenVersionPrefix(v, body, prefix);
        BrokenVersionFields(v, body, prefix);
      } else {
        PlainVersionFields(r, prefix);
        WrongCount(p, EvidenceChain.RecordFields(r));
        PrefixHoldsBreak(v, prefix);
      }
    }
  }

  lemma BrokenVersionFields(v: string, body: string, prefix: string)
    requires HasPrefix(v, prefix)
    ensures var t, s := v[|prefix|..], "\n" + body;
            ParseFields((v + "\n" + body)[|prefix|..]) == if OpenField(t).None? then None else Closed(OpenField(t).value, s)
  {
    hide ParseFields;
    hide OpenField;
    hide Closed;
    var t, s := v[|prefix|..], "\n" + body;
    assert (v + "\n" + body)[|prefix|..] == t + s;
    ParseAcross(t, s);
  }

  lemma SignableProbe(m: string)
    ensures Signable(ReadinessProbe, m) ==> m == PROBE_MESSAGE
  {
  }

  lemma BreakAfter(v: string, body: string, prefix: string)
    requires HasPrefix(v, prefix)
    ensures HasPrefix(v + "\n" + body, prefix)
  {
    assert (v + "\n" + body)[..|v|] == v;
  }

  lemma PrefixHoldsBreak(v: string, prefix: string)
    requires prefix in {PRINCIPAL_PREFIX, CHECKPOINT_PREFIX, CHECKPOINT_PREFIX_V1, PROBE_PREFIX}
    ensures HasPrefix(v, prefix) ==> '\n' in v
  {
    PrefixLines();
    if HasPrefix(v, prefix) {
      assert v[|prefix| - 1] == prefix[|prefix| - 1];
    }
  }

  lemma WrongCount(p: Purpose, fields: seq<string>)
    requires |fields| == 29 || (|fields| == 24 && !p.PrincipalContext?)
    ensures !HasFields(p, fields)
  {
  }

  /** The probe has one line break and no digit after it. */
  lemma RecordIsNoProbe(r: EvidenceChain.Record)
    requires Encodable(EvidenceChain.RecordFields(r))
    ensures EvidenceChain.RecordInput(r) != PROBE_MESSAGE
  {
    hide Encode;
    hide EvidenceChain.RecordFields;
    var v, fields := EvidenceChain.EffectiveVersion(r), EvidenceChain.RecordFields(r);
    var m := EvidenceChain.RecordInput(r);
    EncodeStartsWithDigit(fields);
    assert m[|v|] == '\n' && m[|v| + 1] == Encode(fields)[0];
    assert |PROBE_PREFIX| == 23 && PROBE_MESSAGE[22] == '\n' && PROBE_MESSAGE[23] == 'r';
    if m == PROBE_MESSAGE {
      OneBreak(|v|);
    }
  }

  lemma OneBreak(i: nat)
    requires i < |PROBE_MESSAGE| && PROBE_MESSAGE[i] == '\n'
    ensures i == |PROBE_PREFIX| - 1
  {
    PrefixBreak(PROBE_PREFIX);
    assert '\n' !in "readiness";
    assert forall j :: 0 <= j < |PROBE_PREFIX| ==> PROBE_MESSAGE[j] == PROBE_PREFIX[j];
    assert forall j :: |PROBE_PREFIX| <= j < |PROBE_MESSAGE| ==> PROBE_MESSAGE[j] in "readiness";
  }

  /** So no record without a line break in its version is signable under any purpose. */
  lemma RecordIsNeverSignable(r: EvidenceChain.Record, p: Purpose)
    requires '\n' !in r.version && Encodable(EvidenceChain.RecordFields(r))
    ensures !Signable(p, EvidenceChain.RecordInput(r))
  {
    hide Signable;
    hide VersionSpells;
    hide EvidenceChain.RecordInput;
    hide EvidenceChain.RecordFields;
    RecordIsSignableIff(r, p);
    assert '\n' !in EvidenceChain.CHAIN_VERSION;
    forall prefix | prefix in Prefixes(p)
      ensures !VersionSpells(p, prefix, r)
    {
      SpelledHasBreak(p, prefix, r);
    }
  }

  lemma SpelledHasBreak(p: Purpose, prefix: string, r: EvidenceChain.Record)
    requires prefix in Prefixes(p)
    ensures VersionSpells(p, prefix, r) ==> '\n' in EvidenceChain.EffectiveVersion(r)
  {
    hide Encode;
    hide OpenField;
    hide Closed;
    hide HasFields;
    hide EvidenceChain.RecordFields;
    PrefixHoldsBreak(EvidenceChain.EffectiveVersion(r), prefix);
  }

  /** In particular none that declares a version the verifier knows, or none at all. */
  lemma KnownRecordIsNeverSignable(r: EvidenceChain.Record, p: Purpose)
    requires EvidenceChain.KnownVersion(EvidenceChain.EffectiveVersion(r)) && Encodable(EvidenceChain.RecordFields(r))
    ensures !Signable(p, EvidenceChain.RecordInput(r))
  {
    hide Signable;
    hide EvidenceChain.RecordInput;
    hide EvidenceChain.RecordFields;
    EvidenceChain.KnownHasNoBreak(EvidenceChain.EffectiveVersion(r));
    RecordIsNeverSignable(r, p);
  }

  /** And none the chain writes, whatever event it is given. */
  lemma LinkedRecordIsNeverSignable(suite: EvidenceChain.Suite, r: EvidenceChain.Record, seqNo: nat, prevHash: string,
                                    p: Purpose)
    requires Encodable(EvidenceChain.RecordFields(EvidenceChain.Link(suite, r, seqNo, prevHash)))
    ensures !Signable(p, EvidenceChain.RecordInput(EvidenceChain.Link(suite, r, seqNo, prevHash)))
  {
    hide Signable;
    hide EvidenceChain.RecordInput;
    hide EvidenceChain.RecordFields;
    KnownRecordIsNeverSignable(EvidenceChain.Link(suite, r, seqNo, prevHash), p);
  }

  /** What a version must hold to be signed as a checkpoint: four parts, and the length of all that
      follows it. */
  function CheckpointVersion(rest: string): string {
    CHECKPOINT_PREFIX + (Encode(["1", "", "1", ""]) + (Print(|rest|) + ":"))
  }

  /** Every record has a version under which its hash input would be signed as a checkpoint. */
  lemma BrokenVersionIsSignable(r0: EvidenceChain.Record) returns (r: EvidenceChain.Record)
    requires Encodable(EvidenceChain.AllFields(r0)) && |Encode(EvidenceChain.AllFields(r0))| < INT64_MAX
    ensures r == r0.(version := r.version) && '\n' in r.version
    ensures Signable(EvidenceCheckpoint, EvidenceChain.RecordInput(r))
  {
    hide Encode;
    hide ParseFields;
    hide OpenField;
    hide Print;
    hide Signable;
    hide EvidenceChain.RecordInput;
    hide PrintInt;
    hide Timestamp.Format;
    var parts := ["1", "", "1", ""];
    var s := "\n" + Encode(EvidenceChain.AllFields(r0));
    r := r0.(version := CheckpointVersion(s));
    assert r.version[|CHECKPOINT_PREFIX|..] == Encode(parts) + (Print(|s|) + ":");
    PrefixHoldsBreak(r.version, CHECKPOINT_PREFIX);
    EvidenceChain.KnownHasNoBreak(EvidenceChain.CHAIN_VERSION_V1);
    assert EvidenceChain.RecordFields(r) == EvidenceChain.AllFields(r0);
    OpenAfterFields(parts, |s|);
    OneFieldLeft(parts, s);
    CheckpointOf(parts + [s]);
    assert VersionSpells(EvidenceCheckpoint, CHECKPOINT_PREFIX, r);
    RecordIsSignableIff(r, EvidenceCheckpoint);
  }

  lemma OneFieldLeft(parts: seq<string>, s: string)
    requires s != ""
    ensures Closed(Cut(parts, "", |s|), s) == Some(parts + [s])
  {
    EmptyHasNoFields();
    assert s[|s|..] == "" && "" + s[..|s|] == s;
    assert (parts + [s]) + [] == parts + [s];
  }

  lemma CheckpointOf(parts: seq<string>)
    requires |parts| == 5 && parts[0] == parts[2] == "1"
    ensures CheckpointParts(parts)
  {
    assert Print(1) == "1";
    ParseUintPrint(1);
  }

  /** A record's hash input is no checkpoint either way the daemon might be asked. */
  lemma RecordIsNotCheckpoint(r: EvidenceChain.Record)
    requires '\n' !in r.version && Encodable(EvidenceChain.RecordFields(r))
    ensures !Validates(EvidenceCheckpoint, EvidenceChain.RecordInput(r))
  {
    hide Validates;
    hide EvidenceChain.RecordInput;
    RecordIsNeverSignable(r, EvidenceCheckpoint);
    CheckpointSignable(EvidenceChain.RecordInput(r));
  }

  lemma CheckpointSignable(m: string)
    ensures Validates(EvidenceCheckpoint, m) ==> Signable(EvidenceCheckpoint, m)
  {
    hide ParseFields;
    hide CheckpointParts;
    PrefixesDiffer(m);
  }

  lemma VersionIsNotV1(v: string, p: string)
    requires v + "\n" == p && p == PRINCIPAL_PREFIX
    ensures v != EvidenceChain.CHAIN_VERSION_V1
  {
    assert |PRINCIPAL_PREFIX| == 25 && |EvidenceChain.CHAIN_VERSION_V1| == 15;
  }

  /** Domain separation: no message validates under two purposes. */
  lemma NoTwoPurposes(m: string, p: Purpose, q: Purpose)
    requires Validates(p, m) && Validates(q, m)
    ensures p == q
  {
    hide ParseFields;
    hide ContextFields;
    hide CheckpointParts;
    PrefixesDiffer(m);
    if p.PrincipalContext? || q.PrincipalContext? {
      ContextStart(m);
    }
    assert m == PROBE_MESSAGE ==> HasPrefix(m, PROBE_PREFIX) && m[0] == 'a' by {
      assert PROBE_MESSAGE[..|PROBE_PREFIX|] == PROBE_PREFIX;
    }
  }

  /** A message that validates as a principal context has that prefix or none: what parses as
      fields starts with a digit or a sign, and every prefix starts with a letter. */
  lemma ContextStart(m: string)
    requires Validates(PrincipalContext, m)
    ensures HasPrefix(m, PRINCIPAL_PREFIX)
         || (!HasPrefix(m, CHECKPOINT_PREFIX) && !HasPrefix(m, CHECKPOINT_PREFIX_V1) && !HasPrefix(m, PROBE_PREFIX))
  {
    hide ParseFields;
    if !HasPrefix(m, PRINCIPAL_PREFIX) {
      EmptyHasNoFields();
      FieldsStart(m);
      assert CHECKPOINT_PREFIX[0] == 'a' && CHECKPOINT_PREFIX_V1[0] == 'a' && PROBE_PREFIX[0] == 'a';
    }
  }

  lemma EmptyHasNoFields()
    ensures ParseFields("") == Some([])
  {
  }

  /** What validates is classified the same way, principal contexts exactly when they carry their
      prefix: TrimPrefix lets one without it through, and only classification stops that. */
  lemma ValidatesIffClassified(m: string, p: Purpose)
    requires Validates(p, m)
    ensures Classify(m) == Some(p) <==> (p.PrincipalContext? ==> HasPrefix(m, PRINCIPAL_PREFIX))
    ensures p.PrincipalContext? && !HasPrefix(m, PRINCIPAL_PREFIX) ==> Classify(m).None?
  {
    hide ParseFields;
    hide CheckpointParts;
    hide ContextFields;
    PrefixesDiffer(m);
    if p.PrincipalContext? {
      ContextStart(m);
    } else if p.ReadinessProbe? {
      assert PROBE_MESSAGE[..|PROBE_PREFIX|] == PROBE_PREFIX;
      PrefixesDiffer(m);
    }
  }

  /** A principal context that validates without its prefix. */
  lemma BareContextValidates()
    ensures var m := Encode([TENANT, "t", AGENT, "a", DECISION, "d"]);
            Validates(PrincipalContext, m) && !HasPrefix(m, PRINCIPAL_PREFIX) && Classify(m).None?
  {
    hide Encode;
    hide ParseFields;
    var fields := [TENANT, "t", AGENT, "a", DECISION, "d"];
    ParseEncode(fields);
    EncodeStartsWithDigit(fields);
    var m := Encode(fields);
    assert PRINCIPAL_PREFIX[0] == 'a' && CHECKPOINT_PREFIX[0] == 'a' && CHECKPOINT_PREFIX_V1[0] == 'a';
    assert PROBE_PREFIX[0] == 'a';
    assert fields[0] in KeysIn(fields) && fields[2] in KeysIn(fields) && fields[4] in KeysIn(fields);
  }

  /** Every byte of a signable checkpoint is accounted for: after the prefix stand the five parts
      behind their numerals, and nothing more. */
  lemma CheckpointHidesNothing(m: string) returns (numerals: seq<string>, parts: seq<string>)
    requires Validates(EvidenceCheckpoint, m)
    ensures |parts| == |numerals| == 5 && CheckpointParts(parts)
    ensures forall i :: 0 <= i < 5 ==> Atoi(numerals[i]) == Some(|parts[i]|)
    ensures m == CHECKPOINT_PREFIX + Spell(numerals, parts) || m == CHECKPOINT_PREFIX_V1 + Spell(numerals, parts)
  {
    hide ParseFields;
    hide CheckpointParts;
    hide Spell;
    hide Atoi;
    var body := CheckpointBody(m).value;
    parts := ParseFields(body).value;
    numerals := ParseSpells(body);
    FiveParts(parts);
  }

  lemma FiveParts(parts: seq<string>)
    requires CheckpointParts(parts)
    ensures |parts| == 5
  {
  }
}
