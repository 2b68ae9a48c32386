/** The evidence writer: pkg/evidence/sink.go.

    EvidenceSink is the object with its fields; each of its methods is what runs while `mu` is held.
    The calls themselves -- Write, Checkpoint, the ticker, crashes and restarts, interleaved at
    every lock boundary -- are the state machine of module SinkProtocol. */
module EvidenceSink {
  import opened Decimal
  import opened EvidenceChain
  import opened EvidenceVerify

  /** What the buffered encoder does with one line: writes it, refuses the value, or breaks for good. */
  datatype Io = Fine | Refuses | Breaks

  /** The configuration a sink keeps: `every` is CheckpointEvery, `signs` whether a signer is set. */
  datatype Config = Config(suite: Suite, signs: bool, every: nat, keyId: string)

  /** A sink's fields. `log` is every line encoded, the first `flushed` of which the kernel has;
      `broken` is bufio's sticky error. */
  datatype Sink = Sink(log: seq<Line>, flushed: nat, broken: bool, seqNo: nat, head: string,
                       sinceLastCP: nat, recordsAtCP: nat, cpErr: bool)

  /** One Write: its event, and what the clock, the signer and the disk do during it. */
  datatype Call = Call(eventName: string, at: Moment, event: Event, recordIo: Io,
                       backingOff: bool, intervalElapsed: bool, signing: Signing)

  /** An attempt to sign: the time it is stamped with, the signer's answer, and the encoder's. */
  datatype Signing = Signing(at: Moment, signature: Option<string>, io: Io)

  /** enc.Encode: a broken writer refuses everything after the failure. */
  function Put(s: Sink, line: Line, io: Io): (r: (Sink, bool)) {
    if s.broken then (s, false)
    else if io.Fine? then (s.(log := s.log + [line]), true)
    else (s.(broken := io.Breaks?), false)
  }

  function Commitment(cfg: Config, s: Sink, a: Signing): Checkpoint {
    Checkpoint(CHAIN_VERSION, s.seqNo, s.head, s.seqNo, a.at, cfg.keyId,
               if a.signature.Some? then a.signature.value else "")
  }

  /** writeCheckpointLocked, and whether it succeeded. */
  function PutCheckpoint(cfg: Config, s: Sink, a: Signing): (r: (Sink, bool)) {
    if a.signature.None? then (s, false)
    else
      var (t, ok) := Put(s, CheckpointLine(Commitment(cfg, s, a)), a.io);
      if ok then (t.(sinceLastCP := 0, recordsAtCP := s.seqNo), true) else (t, false)
  }

  predicate CheckpointDue(cfg: Config, s: Sink, c: Call) {
    cfg.signs && !(s.cpErr && c.backingOff) && (s.sinceLastCP >= cfg.every || c.intervalElapsed)
  }

  function NextRecord(cfg: Config, s: Sink, c: Call): Record {
    Link(cfg.suite, Record("", 0, c.eventName, c.at, c.event, "", ""), s.seqNo + 1, s.head)
  }

  function Recorded(cfg: Config, s: Sink, c: Call): Sink {
    var r := NextRecord(cfg, s, c);
    s.(log := s.log + [RecordLine(r)], seqNo := r.seqNo, head := r.hash, sinceLastCP := s.sinceLastCP + 1)
  }

  /** The part of Write under the lock: the record, or None when the encoder failed. */
  function Append(cfg: Config, s: Sink, c: Call): (r: (Sink, Option<Record>)) {
    if s.broken || !c.recordIo.Fine? then (Put(s, Blank(Empty), c.recordIo).0, None)
    else
      var t := Recorded(cfg, s, c);
      if !CheckpointDue(cfg, t, c) then (t, Some(NextRecord(cfg, s, c)))
      else
        var (u, ok) := PutCheckpoint(cfg, t, c.signing);
        (u.(cpErr := !ok), Some(NextRecord(cfg, s, c)))
  }

  /** bw.Flush. */
  function Flush(s: Sink, ok: bool): (r: (Sink, bool)) {
    if s.broken || !ok then (s.(broken := true), false) else (s.(flushed := |s.log|), true)
  }

  datatype CheckpointOutcome = Nothing | Failed | Target(seqNo: nat)

  /** The part of Checkpoint under the lock. */
  function ForceCheckpoint(cfg: Config, s: Sink, a: Signing, flushes: bool): (r: (Sink, CheckpointOutcome)) {
    if !cfg.signs || s.sinceLastCP == 0 then (s, Nothing)
    else
      var (t, ok) := PutCheckpoint(cfg, s, a);
      if !ok then (t.(cpErr := true), Failed)
      else
        var (u, flushed) := Flush(t.(cpErr := false), flushes);
        (u, if flushed then Target(s.seqNo) else Failed)
  }

  /** The state a sink opens with on an existing log. */
  function Reopen(log: seq<Line>): Sink {
    Sink(log, |log|, false, HeadSeq(Records(log)), HeadHash(Records(log)), 0, HeadSeq(Records(log)), false)
  }

  /** What resumeChain can get past: unlike the verifier it trims nothing, so it skips only empty
      lines and decodes a value only with JSON's own white space around it. */
  predicate Resumable(line: Line) {
    !line.Malformed? && !line.Around().OtherSpace? && (line.Blank? ==> line.space.Empty?)
  }

  ghost predicate AllResumable(log: seq<Line>) {
    forall i :: 0 <= i < |log| ==> Resumable(log[i])
  }

  /** resumeChain: the last record's sequence and hash, or an error at a line it cannot decode. */
  method ResumeChain(log: seq<Line>) returns (r: Option<(nat, string)>)
    ensures r.Some? <==> AllResumable(log)
    ensures r.Some? ==> r.value == (HeadSeq(Records(log)), HeadHash(Records(log)))
  {
    var seqNo: nat, head := 0, GENESIS_HASH;
    for i := 0 to |log|
      invariant AllResumable(log[..i])
      invariant seqNo == HeadSeq(Records(log[..i])) && head == HeadHash(Records(log[..i]))
    {
      assert log[..i + 1][..i] == log[..i] && log[..i + 1] == log[..i] + [log[i]];
      match log[i]
      case Blank(space) =>
        if !space.Empty? {
          return None;
        }
      case Malformed =>
        return None;
      case CheckpointLine(_, pad) =>
        if pad.OtherSpace? {
          return None;
        }
      case RecordLine(rec, pad) =>
        if pad.OtherSpace? {
          return None;
        }
        seqNo := rec.seqNo;
        head := rec.hash;
    }
    assert log[..|log|] == log;
    return Some((seqNo, head));
  }

  class EvidenceSink {
    const cfg: Config
    var log: seq<Line>
    var flushed: nat
    var broken: bool
    var seqNo: nat
    var head: string
    var sinceLastCP: nat
    var recordsAtCP: nat
    var cpErr: bool

    function View(): Sink
      reads this
    {
      Sink(log, flushed, broken, seqNo, head, sinceLastCP, recordsAtCP, cpErr)
    }

    /** NewEvidenceSink on a log that resumeChain could read. */
    constructor (cfg: Config, existing: seq<Line>, resumed: (nat, string))
      requires resumed == (HeadSeq(Records(existing)), HeadHash(Records(existing)))
      ensures this.cfg == cfg && View() == Reopen(existing)
    {
      this.cfg := cfg;
      log, flushed, broken := existing, |existing|, false;
      seqNo, head := resumed.0, resumed.1;
      sinceLastCP, recordsAtCP, cpErr := 0, resumed.0, false;
    }

    method Encode(line: Line, io: Io) returns (ok: bool)
      modifies this`log, this`broken
      ensures (View(), ok) == Put(old(View()), line, io)
    {
      if broken {
        return false;
      }
      if io.Fine? {
        log := log + [line];
        return true;
      }
      broken := io.Breaks?;
      return false;
    }

    method WriteCheckpointLocked(a: Signing) returns (ok: bool)
      modifies this
      ensures (View(), ok) == PutCheckpoint(cfg, old(View()), a)
    {
      if a.signature.None? {
        return false;
      }
      ok := Encode(CheckpointLine(Commitment(cfg, View(), a)), a.io);
      if !ok {
        return;
      }
      sinceLastCP := 0;
      recordsAtCP := seqNo;
    }

    method AppendLocked(c: Call) returns (r: Option<Record>)
      modifies this
      ensures (View(), r) == Append(cfg, old(View()), c)
    {
      hide RecordInput;
      hide Commitment;
      var rec := Link(cfg.suite, Record("", 0, c.eventName, c.at, c.event, "", ""), seqNo + 1, head);
      var written := Encode(RecordLine(rec), c.recordIo);
      if !written {
        return None;
      }
      seqNo := rec.seqNo;
      head := rec.hash;
      sinceLastCP := sinceLastCP + 1;
      if CheckpointDue(cfg, View(), c) {
        var ok := WriteCheckpointLocked(c.signing);
        cpErr := !ok;
      }
      return Some(rec);
    }

    method FlushLocked(ok: bool) returns (flushes: bool)
      modifies this
      ensures (View(), flushes) == Flush(old(View()), ok)
    {
      if broken || !ok {
        broken := true;
        return false;
      }
      flushed := |log|;
      return true;
    }

    method CheckpointLocked(a: Signing, flushOk: bool) returns (r: CheckpointOutcome)
      modifies this
      ensures (View(), r) == ForceCheckpoint(cfg, old(View()), a, flushOk)
    {
      if !cfg.signs || sinceLastCP == 0 {
        return Nothing;
      }
      var ok := WriteCheckpointLocked(a);
      if !ok {
        cpErr := true;
        return Failed;
      }
      cpErr := false;
      var target := seqNo;
      var flushes := FlushLocked(flushOk);
      return if flushes then Target(target) else Failed;
    }
  }

  // ---------------------------------------------------------------- the log a sink writes

  /** The checkpoints a signer answers for verify under its public key. */
  ghost predicate Honest(cfg: Config, pub: string, s: Sink, a: Signing) {
    a.signature.Some? ==> CheckpointVerifies(cfg.suite, pub, Commitment(cfg, s, a))
  }

  /** Every line is a record or checkpoint this writer could have written after the lines above it. */
  ghost predicate GoodLog(cfg: Config, pub: string, log: seq<Line>) {
    && SoundLog(cfg.suite, Wrapping, Some(pub), log)
    && |Records(log)| < UINT64_LIMIT && AllResumable(log)
    && forall r :: r in Records(log) ==> r.version == CHAIN_VERSION
  }

  /** The fields agree with the log: seqNo records, and the head is the last one's hash. */
  ghost predicate Consistent(cfg: Config, pub: string, s: Sink) {
    && GoodLog(cfg, pub, s.log) && s.flushed <= |s.log|
    && s.seqNo == |Records(s.log)| && s.head == HeadHash(Records(s.log))
  }

  lemma RecordsAppend(log: seq<Line>, line: Line)
    ensures Records(log + [line]) == Records(log) + (if line.RecordLine? then [line.rec] else [])
  {
    assert (log + [line])[..|log|] == log;
  }

  lemma GoodHeadSeq(cfg: Config, pub: string, log: seq<Line>)
    requires GoodLog(cfg, pub, log)
    ensures HeadSeq(Records(log)) == |Records(log)|
  {
    SeqIsPosition(cfg.suite, Records(log), |Records(log)|);
    assert Records(log)[..|Records(log)|] == Records(log);
  }

  lemma GoodPrefix(cfg: Config, pub: string, log: seq<Line>, k: nat)
    requires GoodLog(cfg, pub, log) && k <= |log|
    ensures GoodLog(cfg, pub, log[..k])
  {
    hide RecordInput;
    hide CheckpointHolds;
    var cut := log[..k];
    RecordsPrefix(log, k);
    forall i | 0 <= i < |Records(cut)|
      ensures Linked(cfg.suite, Wrapping, Records(cut), i)
    {
      assert Linked(cfg.suite, Wrapping, Records(log), i);
      assert Records(cut)[..i] == Records(log)[..i];
    }
    forall j | 0 <= j < k
      ensures CommitsAt(cfg.suite, Some(pub), cut, j)
    {
      assert CommitsAt(cfg.suite, Some(pub), log, j);
      assert cut[..j] == log[..j];
    }
  }

  lemma PutCheckpointKeeps(cfg: Config, pub: string, s: Sink, a: Signing)
    requires Consistent(cfg, pub, s) && Honest(cfg, pub, s, a)
    ensures var t := PutCheckpoint(cfg, s, a).0;
            Consistent(cfg, pub, t) && Records(t.log) == Records(s.log) && s.log <= t.log
  {
    hide CheckpointVerifies;
    hide ComputeHash;
    GoodHeadSeq(cfg, pub, s.log);
    var line := CheckpointLine(Commitment(cfg, s, a));
    RecordsAppend(s.log, line);
    if a.signature.Some? {
      SoundSnoc(cfg.suite, Wrapping, Some(pub), s.log, line);
    }
  }

  lemma RecordedKeeps(cfg: Config, pub: string, s: Sink, c: Call)
    requires Consistent(cfg, pub, s) && s.seqNo + 1 < UINT64_LIMIT
    ensures var t := Recorded(cfg, s, c);
            Consistent(cfg, pub, t) && Records(t.log) == Records(s.log) + [NextRecord(cfg, s, c)]
  {
    hide RecordInput;
    hide CheckpointHolds;
    var r := NextRecord(cfg, s, c);
    GoodHeadSeq(cfg, pub, s.log);
    RecordsAppend(s.log, RecordLine(r));
    LinkSelf(cfg.suite, Record("", 0, c.eventName, c.at, c.event, "", ""), s.seqNo + 1, s.head);
    assert (Records(s.log) + [r])[..|Records(s.log)|] == Records(s.log);
    SoundSnoc(cfg.suite, Wrapping, Some(pub), s.log, RecordLine(r));
  }

  /** Link's hash is the hash of what it returns: the hash is not part of its own input. */
  lemma LinkSelf(suite: Suite, r: Record, seqNo: nat, prevHash: string)
    ensures var l := Link(suite, r, seqNo, prevHash); l.hash == ComputeHash(suite, l)
  {
    var linked := r.(version := CHAIN_VERSION, seqNo := seqNo, prevHash := prevHash);
    var l := Link(suite, r, seqNo, prevHash);
    assert RecordFields(l) == RecordFields(linked);
  }

  /** The locked part of Write keeps the log good whatever the signer and the disk do, and adds
      exactly the record it returns. */
  lemma AppendKeeps(cfg: Config, pub: string, s: Sink, c: Call)
    requires Consistent(cfg, pub, s) && s.seqNo + 1 < UINT64_LIMIT
    requires Honest(cfg, pub, Recorded(cfg, s, c), c.signing)
    ensures var (t, r) := Append(cfg, s, c);
            && Consistent(cfg, pub, t) && s.log <= t.log && t.flushed == s.flushed
            && Records(t.log) == Records(s.log) + (if r.Some? then [r.value] else [])
            && (r.Some? ==> r.value.seqNo == t.seqNo)
  {
    hide RecordInput;
    hide SoundLog;
    if !s.broken && c.recordIo.Fine? {
      RecordedKeeps(cfg, pub, s, c);
      PutCheckpointKeeps(cfg, pub, Recorded(cfg, s, c), c.signing);
    }
    assert Records(s.log) + [] == Records(s.log);
  }

  /** The record a Write makes of its event. */
  ghost function LinkedRecord(cfg: Config, s: Sink, c: Call): Record {
    Link(cfg.suite, Record("", 0, c.eventName, c.at, c.event, "", ""), s.seqNo + 1, s.head)
  }

  /** A checkpoint is asked for: there is a signer, no failed one to wait for, and enough records or
      time have gone by since the last. */
  ghost predicate Triggered(cfg: Config, s: Sink, c: Call) {
    cfg.signs && !(s.cpErr && c.backingOff) && (s.sinceLastCP + 1 >= cfg.every || c.intervalElapsed)
  }

  /** A checkpoint asked for and signed stands right behind the record, and commits to it. */
  lemma CheckpointFollows(cfg: Config, s: Sink, c: Call)
    requires !s.broken && c.recordIo.Fine? && Triggered(cfg, s, c) && c.signing.signature.Some? && c.signing.io.Fine?
    ensures var r := LinkedRecord(cfg, s, c);
            var cp := Checkpoint(CHAIN_VERSION, s.seqNo + 1, r.hash, s.seqNo + 1, c.signing.at, cfg.keyId,
                                 c.signing.signature.value);
            Append(cfg, s, c) == (s.(log := s.log + [RecordLine(r), CheckpointLine(cp)], seqNo := s.seqNo + 1, head := r.hash,
                                     sinceLastCP := 0, recordsAtCP := s.seqNo + 1, cpErr := false), Some(r))
  {
    hide RecordInput;
    var r := LinkedRecord(cfg, s, c);
    var cp := Commitment(cfg, Recorded(cfg, s, c), c.signing);
    assert s.log + [RecordLine(r)] + [CheckpointLine(cp)] == s.log + [RecordLine(r), CheckpointLine(cp)];
  }

  /** A checkpoint asked for that cannot be signed or written leaves the record alone, and an error
      that is kept; one that is not asked for leaves the record alone. */
  lemma RecordAlone(cfg: Config, s: Sink, c: Call)
    requires !s.broken && c.recordIo.Fine?
    requires Triggered(cfg, s, c) ==> c.signing.signature.None? || !c.signing.io.Fine?
    ensures var r := LinkedRecord(cfg, s, c);
            Append(cfg, s, c) == (s.(log := s.log + [RecordLine(r)], seqNo := s.seqNo + 1, head := r.hash,
                                     sinceLastCP := s.sinceLastCP + 1, cpErr := s.cpErr || Triggered(cfg, s, c),
                                     broken := Triggered(cfg, s, c) && c.signing.signature.Some? && c.signing.io.Breaks?),
                                  Some(r))
  {
    hide RecordInput;
  }

  /** A record that cannot be written leaves everything as it was, but for the writer it may break. */
  lemma RecordLost(cfg: Config, s: Sink, c: Call)
    requires s.broken || !c.recordIo.Fine?
    ensures Append(cfg, s, c) == (s.(broken := s.broken || c.recordIo.Breaks?), None)
  {
  }

  /** A write fails exactly if the encoder fails on its own record; the writer breaks exactly at an
      encode that breaks, its own or that of a checkpoint which was due and signed. The signer can do
      neither. */
  lemma AppendFaults(cfg: Config, s: Sink, c: Call)
    ensures var (t, r) := Append(cfg, s, c);
            && (r.None? <==> s.broken || !c.recordIo.Fine?)
            && (t.broken <==>
                  || s.broken || c.recordIo.Breaks?
                  || (c.recordIo.Fine? && CheckpointDue(cfg, Recorded(cfg, s, c), c) && c.signing.signature.Some?
                      && c.signing.io.Breaks?))
  {
    hide RecordInput;
  }

  /** The locked part of Checkpoint keeps the log good and adds no record; its target is the head. */
  lemma ForceCheckpointKeeps(cfg: Config, pub: string, s: Sink, a: Signing, flushes: bool)
    requires Consistent(cfg, pub, s) && Honest(cfg, pub, s, a)
    ensures var (t, outcome) := ForceCheckpoint(cfg, s, a, flushes);
            && Consistent(cfg, pub, t) && Records(t.log) == Records(s.log) && s.log <= t.log
            && s.flushed <= t.flushed
            && (outcome.Target? ==> outcome.seqNo == s.seqNo && t.flushed == |t.log|)
            && (t.broken ==> s.broken || !a.io.Fine? || !flushes)
  {
    hide GoodLog;
    hide Records;
    hide Honest;
    hide Commitment;
    PutCheckpointKeeps(cfg, pub, s, a);
  }

  /** Reopening any prefix of a good log, as after a crash at a line boundary, resumes consistently. */
  lemma ReopenKeeps(cfg: Config, pub: string, log: seq<Line>, k: nat)
    requires GoodLog(cfg, pub, log) && k <= |log|
    ensures AllResumable(log[..k]) && Consistent(cfg, pub, Reopen(log[..k]))
  {
    GoodPrefix(cfg, pub, log, k);
    GoodHeadSeq(cfg, pub, log[..k]);
  }

  /** A log the verifier calls intact can be resumed exactly if every blank line of it is empty and
      no value stands beside a vertical tab or form feed: the verifier trims, resumeChain does not. */
  lemma IntactResumesIff(suite: Suite, pub: Option<string>, anchor: Option<Checkpoint>, log: seq<Line>)
    requires Verify(suite, Wrapping, pub, anchor, log).intact
    ensures AllResumable(log)
       <==> (forall i :: 0 <= i < |log| && log[i].Blank? ==> log[i].space.Empty?)
            && (forall i :: 0 <= i < |log| && !log[i].Blank? ==> !log[i].Around().OtherSpace?)
  {
    hide Verify;
    IntactIff(suite, Wrapping, pub, anchor, log);
  }

  /** A form feed beside any value of any log is unseen by the verifier and stops resumeChain. */
  lemma FormFeedStopsResume(suite: Suite, pub: Option<string>, anchor: Option<Checkpoint>, log: seq<Line>, i: nat)
    requires i < |log| && (log[i].RecordLine? || log[i].CheckpointLine?)
    ensures var padded := log[i := log[i].(pad := OtherSpace)];
            && Verify(suite, Wrapping, pub, anchor, padded) == Verify(suite, Wrapping, pub, anchor, log)
            && !AllResumable(padded)
  {
    hide Verify;
    PaddingUnseen(suite, Wrapping, pub, anchor, log, i, OtherSpace);
    assert !Resumable(log[i := log[i].(pad := OtherSpace)][i]);
  }

  /** One line of white space behind any log leaves the verifier's report as it was, and keeps the
      writer from reopening the log. */
  lemma WhiteSpaceUnseen(suite: Suite, pub: Option<string>, anchor: Option<Checkpoint>, log: seq<Line>)
    ensures Verify(suite, Wrapping, pub, anchor, log + [Blank(JsonSpace)]) == Verify(suite, Wrapping, pub, anchor, log)
    ensures !AllResumable(log + [Blank(JsonSpace)])
  {
    hide Step;
    hide Finish;
    var longer := log + [Blank(JsonSpace)];
    assert longer[..|log|] == log;
    BlankSkipped(suite, pub, Run(suite, Wrapping, pub, log), JsonSpace);
    assert !Resumable(longer[|log|]);
  }

  lemma BlankSkipped(suite: Suite, pub: Option<string>, st: Scan, space: Space)
    ensures Step(suite, Wrapping, pub, st, Blank(space)) == st
  {
  }

  // ---------------------------------------------------------------- agreement with the verifier

  /** The sequence of the last checkpoint in the log. */
  function LastCheckpointSeq(log: seq<Line>): nat {
    if log == [] then 0
    else if log[|log| - 1].CheckpointLine? then log[|log| - 1].cp.seqNo
    else LastCheckpointSeq(log[..|log| - 1])
  }

  lemma {:induction false} SignedThroughIs(cfg: Config, pub: string, log: seq<Line>)
    requires GoodLog(cfg, pub, log)
    ensures Run(cfg.suite, Wrapping, Some(pub), log).signedThrough == LastCheckpointSeq(log)
    ensures LastCheckpointSeq(log) <= |Records(log)|
  {
    hide RecordInput;
    hide CheckpointVerifies;
    if log == [] {
    } else {
      var last := |log| - 1;
      GoodPrefix(cfg, pub, log, last);
      SignedThroughIs(cfg, pub, log[..last]);
      RunMeaning(cfg.suite, Wrapping, Some(pub), log[..last]);
      GoodHeadSeq(cfg, pub, log[..last]);
      assert CommitsAt(cfg.suite, Some(pub), log, last);
    }
  }

  /** What the writer wrote, the verifier accepts without a single problem, and it counts as
      unanchored exactly the records after the last checkpoint. */
  lemma VerifierAccepts(cfg: Config, pub: string, log: seq<Line>)
    requires GoodLog(cfg, pub, log)
    requires HasCheckpoint(log) || Records(log) == []
    ensures var v := Verify(cfg.suite, Wrapping, Some(pub), None, log);
            && v.problems == [] && v.intact
            && v.records == v.headSeq == |Records(log)| && v.signedThrough == LastCheckpointSeq(log)
            && v.unanchored == |Records(log)| - LastCheckpointSeq(log)
  {
    hide RecordInput;
    hide CheckpointVerifies;
    IntactIff(cfg.suite, Wrapping, Some(pub), None, log);
    NoProblemsIff(cfg.suite, Wrapping, Some(pub), None, log);
    RunMeaning(cfg.suite, Wrapping, Some(pub), log);
    SignedThroughIs(cfg, pub, log);
    GoodHeadSeq(cfg, pub, log);
    assert CHAIN_VERSION != CHAIN_VERSION_V1;
  }

  /** A checkpoint of the log, kept by an auditor, never raises a false alarm against any longer
      log the writer goes on to produce. */
  lemma KeptCheckpointStillHeld(cfg: Config, pub: string, log: seq<Line>, j: nat)
    requires GoodLog(cfg, pub, log) && j < |log| && log[j].CheckpointLine?
    ensures Verify(cfg.suite, Wrapping, Some(pub), Some(log[j].cp), log).problems == []
  {
    hide RecordInput;
    hide CheckpointVerifies;
    var a := log[j].cp;
    assert CommitsAt(cfg.suite, Some(pub), log, j);
    CheckpointPins(cfg.suite, Some(pub), log, j);
    GoodHeadSeq(cfg, pub, log);
    var k := LastAt(log, a.seqNo, j);
    CheckpointPins(cfg.suite, Some(pub), log, k);
    assert LastCommitment(log, a.seqNo, a.hash);
    IntactIff(cfg.suite, Wrapping, Some(pub), Some(a), log);
    NoProblemsIff(cfg.suite, Wrapping, Some(pub), Some(a), log);
    assert CHAIN_VERSION != CHAIN_VERSION_V1;
  }

  /** The last line at or after j holding a checkpoint for seqNo. */
  ghost function LastAt(log: seq<Line>, seqNo: nat, j: nat): (k: nat)
    requires j < |log| && CheckpointAt(log, j, seqNo)
    ensures k < |log| && CheckpointAt(log, k, seqNo)
    ensures forall i :: k < i < |log| ==> !CheckpointAt(log, i, seqNo)
    decreases |log| - j
  {
    if forall i :: j < i < |log| ==> !CheckpointAt(log, i, seqNo) then j
    else
      var i :| j < i < |log| && CheckpointAt(log, i, seqNo);
      LastAt(log, seqNo, i)
  }
}
