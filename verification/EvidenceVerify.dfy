/** The evidence verifier: pkg/evidence/verify.go, its declarative meaning, and what an intact
    report is worth. */
module EvidenceVerify {
  import opened Decimal
  import opened EvidenceChain

  /** White space: none, only what JSON skips too, or some with a vertical tab or form feed in it. */
  datatype Space = Empty | JsonSpace | OtherSpace

  /** A line of the log, trimmed and decoded; `pad` is the white space trimmed off around a value. */
  datatype Line =
    | Blank(space: Space)
    | Malformed
    | RecordLine(rec: Record, pad: Space := Empty)
    | CheckpointLine(cp: Checkpoint, pad: Space := Empty)
  {
    /** The white space of the line outside its value. */
    function Around(): Space {
      if Blank? then space else if Malformed? then Empty else pad
    }
  }

  datatype Kind =
    | KMalformed | KCheckpoint | KSupersededFormat | KVersion | KSequence | KChain | KContent
    | KAnchorInvalid | KRollback | KMissingAnchor | KForked | KUnanchored

  datatype Problem = Problem(kind: Kind, seqNo: nat)

  datatype Result = Result(intact: bool, records: nat, checkpoints: nat, headSeq: nat, headHash: string,
                           signedThrough: nat, unanchored: nat, problems: seq<Problem>)

  /** How an implementation counts to the next sequence number: Go's uint64 wraps, JavaScript's
      BigInt does not. */
  datatype Counter = Wrapping | Unbounded

  function Succ(w: Counter, n: nat): (m: nat) {
    if w.Wrapping? then (n + 1) % UINT64_LIMIT else n + 1
  }

  /** The verifier's variables between two lines. */
  datatype Scan = Scan(intact: bool, records: nat, checkpoints: nat, lastSeq: nat, expected: string,
                       signedThrough: nat, seen: map<nat, string>, problems: seq<Problem>)

  const START := Scan(true, 0, 0, 0, GENESIS_HASH, 0, map[], [])

  function Note(st: Scan, when: bool, kind: Kind, seqNo: nat): Scan {
    if when then st.(intact := false, problems := st.problems + [Problem(kind, seqNo)]) else st
  }

  /** verifyCheckpointAgainst returns nil. */
  predicate CheckpointHolds(suite: Suite, pub: Option<string>, cp: Checkpoint, expected: string, lastSeq: nat) {
    && cp.version == CHAIN_VERSION && cp.seqNo == lastSeq && cp.hash == expected
    && (pub.Some? ==> CheckpointVerifies(suite, pub.value, cp))
  }

  function Superseded(st: Scan, r: Record): Scan {
    if r.version == CHAIN_VERSION_V1
    then st.(problems := st.problems + [Problem(KSupersededFormat, r.seqNo)]) else st
  }

  /** One line of the scan. */
  function Step(suite: Suite, w: Counter, pub: Option<string>, st: Scan, line: Line): Scan {
    match line
    case Blank(_) => st
    case Malformed => Note(st, true, KMalformed, Succ(w, st.lastSeq))
    case CheckpointLine(cp, _) =>
      var counted := st.(checkpoints := st.checkpoints + 1, seen := st.seen[cp.seqNo := cp.hash]);
      if !CheckpointHolds(suite, pub, cp, st.expected, st.lastSeq) then Note(counted, true, KCheckpoint, cp.seqNo)
      else if pub.Some? then counted.(signedThrough := cp.seqNo)
      else counted
    case RecordLine(r, _) =>
      if !KnownVersion(r.version) then Note(st, true, KVersion, r.seqNo)
      else
        var s1 := Note(Superseded(st, r), r.seqNo != Succ(w, st.lastSeq), KSequence, r.seqNo);
        var s2 := Note(s1, r.prevHash != st.expected, KChain, r.seqNo);
        var s3 := Note(s2, ComputeHash(suite, r) != r.hash, KContent, r.seqNo);
        s3.(records := st.records + 1, lastSeq := r.seqNo, expected := r.hash)
  }

  function Run(suite: Suite, w: Counter, pub: Option<string>, lines: seq<Line>): Scan {
    if lines == [] then START
    else Step(suite, w, pub, Run(suite, w, pub, lines[..|lines| - 1]), lines[|lines| - 1])
  }

  /** The anchor and coverage checks after the last line. */
  function Finish(suite: Suite, pub: Option<string>, anchor: Option<Checkpoint>, st: Scan): Result {
    var invalid := anchor.Some? && pub.Some?
                   && !(CheckpointVerifies(suite, pub.value, anchor.value) && anchor.value.version == CHAIN_VERSION);
    var s1 := if invalid then Note(st, true, KAnchorInvalid, anchor.value.seqNo) else st;
    var s2 :=
      if anchor.None? || invalid then s1
      else if st.lastSeq < anchor.value.seqNo then Note(s1, true, KRollback, st.lastSeq)
      else if anchor.value.seqNo !in st.seen then Note(s1, true, KMissingAnchor, anchor.value.seqNo)
      else Note(s1, st.seen[anchor.value.seqNo] != anchor.value.hash, KForked, anchor.value.seqNo);
    var unanchored := if pub.Some? && st.lastSeq > st.signedThrough then st.lastSeq - st.signedThrough else 0;
    var s3 := Note(s2, pub.Some? && st.checkpoints == 0 && st.records > 0, KUnanchored, st.lastSeq);
    Result(s3.intact, st.records, st.checkpoints, st.lastSeq, st.expected, st.signedThrough, unanchored, s3.problems)
  }

  function Verify(suite: Suite, w: Counter, pub: Option<string>, anchor: Option<Checkpoint>, lines: seq<Line>): Result {
    Finish(suite, pub, anchor, Run(suite, w, pub, lines))
  }

  lemma RunSnoc(suite: Suite, w: Counter, pub: Option<string>, lines: seq<Line>, i: nat)
    requires i < |lines|
    ensures Run(suite, w, pub, lines[..i + 1]) == Step(suite, w, pub, Run(suite, w, pub, lines[..i]), lines[i])
  {
    assert lines[..i + 1][..i] == lines[..i];
  }

  /** The white space around a value is trimmed before the scan: it changes no report. */
  lemma PaddingUnseen(suite: Suite, w: Counter, pub: Option<string>, anchor: Option<Checkpoint>, lines: seq<Line>,
                      i: nat, pad: Space)
    requires i < |lines| && (lines[i].RecordLine? || lines[i].CheckpointLine?)
    ensures Verify(suite, w, pub, anchor, lines[i := lines[i].(pad := pad)]) == Verify(suite, w, pub, anchor, lines)
  {
    hide Run;
    hide Finish;
    PaddingUnscanned(suite, w, pub, lines, i, pad);
  }

  lemma {:induction false} PaddingUnscanned(suite: Suite, w: Counter, pub: Option<string>, lines: seq<Line>, i: nat,
                                            pad: Space)
    requires i < |lines| && (lines[i].RecordLine? || lines[i].CheckpointLine?)
    ensures Run(suite, w, pub, lines[i := lines[i].(pad := pad)]) == Run(suite, w, pub, lines)
    decreases |lines|
  {
    hide Step;
    var last := |lines| - 1;
    var padded := lines[i := lines[i].(pad := pad)];
    if i == last {
      assert padded[..last] == lines[..last];
      PaddingSkipped(suite, w, pub, Run(suite, w, pub, lines[..last]), lines[i], pad);
    } else {
      PaddingUnscanned(suite, w, pub, lines[..last], i, pad);
      assert padded[..last] == lines[..last][i := lines[i].(pad := pad)];
    }
  }

  lemma PaddingSkipped(suite: Suite, w: Counter, pub: Option<string>, st: Scan, line: Line, pad: Space)
    requires line.RecordLine? || line.CheckpointLine?
    ensures Step(suite, w, pub, st, line.(pad := pad)) == Step(suite, w, pub, st, line)
  {
    hide Note;
    hide ComputeHash;
    hide CheckpointHolds;
  }

  /** VerifyWithAnchor: the scan loop over its own variables. */
  method VerifyWithAnchor(suite: Suite, pub: Option<string>, anchorGiven: Option<Checkpoint>, lines: seq<Line>)
    returns (res: Result)
    ensures res == Verify(suite, Wrapping, pub, anchorGiven, lines)
  {
    hide CheckpointHolds;
    hide CheckpointVerifies;
    hide ComputeHash;
    var intact := true;
    var records: nat, checkpoints: nat, signedThrough: nat, lastSeq: nat := 0, 0, 0, 0;
    var problems: seq<Problem> := [];
    var expected, headSeq, headHash := GENESIS_HASH, 0, GENESIS_HASH;
    var seen: map<nat, string> := map[];

    for i := 0 to |lines|
      invariant headSeq == lastSeq && headHash == expected
      invariant Run(suite, Wrapping, pub, lines[..i])
             == Scan(intact, records, checkpoints, lastSeq, expected, signedThrough, seen, problems)
    {
      RunSnoc(suite, Wrapping, pub, lines, i);
      match lines[i]
      case Blank(_) =>
      case Malformed =>
        problems := problems + [Problem(KMalformed, (lastSeq + 1) % UINT64_LIMIT)];
        intact := false;
      case CheckpointLine(cp, _) =>
        checkpoints := checkpoints + 1;
        seen := seen[cp.seqNo := cp.hash];
        if !CheckpointHolds(suite, pub, cp, expected, lastSeq) {
          problems := problems + [Problem(KCheckpoint, cp.seqNo)];
          intact := false;
          continue;
        }
        if pub.Some? {
          signedThrough := cp.seqNo;
        }
      case RecordLine(rec, _) =>
        if rec.version == CHAIN_VERSION_V1 {
          problems := problems + [Problem(KSupersededFormat, rec.seqNo)];
        } else if rec.version != CHAIN_VERSION {
          problems := problems + [Problem(KVersion, rec.seqNo)];
          intact := false;
          continue;
        }
        if rec.seqNo != (lastSeq + 1) % UINT64_LIMIT {
          problems := problems + [Problem(KSequence, rec.seqNo)];
          intact := false;
        }
        if rec.prevHash != expected {
          problems := problems + [Problem(KChain, rec.seqNo)];
          intact := false;
        }
        var got := ComputeHash(suite, rec);
        if got != rec.hash {
          problems := problems + [Problem(KContent, rec.seqNo)];
          intact := false;
        }
        records := records + 1;
        lastSeq := rec.seqNo;
        expected := rec.hash;
        headSeq := rec.seqNo;
        headHash := rec.hash;
    }
    assert lines[..|lines|] == lines;

    var anchor := anchorGiven;
    if anchor.Some? && pub.Some? {
      if !CheckpointVerifies(suite, pub.value, anchor.value) || anchor.value.version != CHAIN_VERSION {
        problems := problems + [Problem(KAnchorInvalid, anchor.value.seqNo)];
        intact := false;
        anchor := None;
      }
    }
    if anchor.Some? {
      if headSeq < anchor.value.seqNo {
        problems := problems + [Problem(KRollback, headSeq)];
        intact := false;
      } else if anchor.value.seqNo !in seen {
        problems := problems + [Problem(KMissingAnchor, anchor.value.seqNo)];
        intact := false;
      } else if seen[anchor.value.seqNo] != anchor.value.hash {
        problems := problems + [Problem(KForked, anchor.value.seqNo)];
        intact := false;
      }
    }
    var unanchored := 0;
    if pub.Some? {
      if headSeq > signedThrough {
        unanchored := headSeq - signedThrough;
      }
      if checkpoints == 0 && records > 0 {
        problems := problems + [Problem(KUnanchored, headSeq)];
        intact := false;
      }
    }
    res := Result(intact, records, checkpoints, headSeq, headHash, signedThrough, unanchored, problems);
  }

  // ---------------------------------------------------------------- what intact means

  /** The records of a log, in order. */
  function Records(lines: seq<Line>): seq<Record> {
    if lines == [] then []
    else
      var before := Records(lines[..|lines| - 1]);
      match lines[|lines| - 1]
      case RecordLine(r, _) => before + [r]
      case _ => before
  }

  function HeadSeq(rs: seq<Record>): nat {
    if rs == [] then 0 else rs[|rs| - 1].seqNo
  }

  function HeadHash(rs: seq<Record>): string {
    if rs == [] then GENESIS_HASH else rs[|rs| - 1].hash
  }

  /** Record i carries the next number, the hash before it, and its own content's hash. */
  ghost predicate Linked(suite: Suite, w: Counter, rs: seq<Record>, i: nat)
    requires i < |rs|
  {
    && KnownVersion(rs[i].version)
    && rs[i].seqNo == Succ(w, HeadSeq(rs[..i])) && rs[i].prevHash == HeadHash(rs[..i])
    && rs[i].hash == ComputeHash(suite, rs[i])
  }

  ghost predicate Chained(suite: Suite, w: Counter, rs: seq<Record>) {
    forall i :: 0 <= i < |rs| ==> Linked(suite, w, rs, i)
  }

  /** A checkpoint on line j commits to the records above it, under the key. */
  ghost predicate CommitsAt(suite: Suite, pub: Option<string>, lines: seq<Line>, j: nat)
    requires j < |lines|
  {
    lines[j].CheckpointLine? ==>
      var above := Records(lines[..j]);
      CheckpointHolds(suite, pub, lines[j].cp, HeadHash(above), HeadSeq(above))
  }

  ghost predicate SoundLog(suite: Suite, w: Counter, pub: Option<string>, lines: seq<Line>) {
    && Malformed !in lines
    && Chained(suite, w, Records(lines))
    && forall j :: 0 <= j < |lines| ==> CommitsAt(suite, pub, lines, j)
  }

  /** The last checkpoint at a sequence number carries this hash. */
  ghost predicate LastCommitment(lines: seq<Line>, seqNo: nat, hash: string) {
    exists j :: 0 <= j < |lines| && CheckpointAt(lines, j, seqNo) && lines[j].cp.hash == hash
                && forall k :: j < k < |lines| ==> !CheckpointAt(lines, k, seqNo)
  }

  ghost predicate CheckpointAt(lines: seq<Line>, j: nat, seqNo: nat)
    requires j < |lines|
  {
    lines[j].CheckpointLine? && lines[j].cp.seqNo == seqNo
  }

  ghost predicate HasCheckpoint(lines: seq<Line>) {
    exists j :: 0 <= j < |lines| && lines[j].CheckpointLine?
  }

  ghost predicate AnchorHeld(suite: Suite, pub: Option<string>, anchor: Checkpoint, lines: seq<Line>) {
    && (pub.Some? ==> CheckpointVerifies(suite, pub.value, anchor) && anchor.version == CHAIN_VERSION)
    && HeadSeq(Records(lines)) >= anchor.seqNo
    && LastCommitment(lines, anchor.seqNo, anchor.hash)
  }

  lemma {:induction false} RunMeaning(suite: Suite, w: Counter, pub: Option<string>, lines: seq<Line>)
    ensures var st := Run(suite, w, pub, lines);
            && (st.intact <==> SoundLog(suite, w, pub, lines))
            && (st.intact ==> st.lastSeq == HeadSeq(Records(lines)) && st.expected == HeadHash(Records(lines))
                              && st.records == |Records(lines)|)
  {
    hide RecordInput;
    hide CheckpointInput;
    hide SoundLog;
    if lines == [] {
      SoundNil(suite, w, pub);
    } else {
      var last := |lines| - 1;
      var front, line := lines[..last], lines[last];
      RunMeaning(suite, w, pub, front);
      SoundSnoc(suite, w, pub, front, line);
      assert front + [line] == lines;
      if line.RecordLine? {
        assert (Records(front) + [line.rec])[..|Records(front)|] == Records(front);
      }
    }
  }

  lemma SoundNil(suite: Suite, w: Counter, pub: Option<string>)
    ensures SoundLog(suite, w, pub, [])
  {
  }

  lemma {:induction false} SeenMeaning(suite: Suite, w: Counter, pub: Option<string>, lines: seq<Line>)
    ensures var st := Run(suite, w, pub, lines);
            && (st.checkpoints == 0 <==> !HasCheckpoint(lines))
            && (forall n, h :: n in st.seen && st.seen[n] == h <==> LastCommitment(lines, n, h))
  {
    hide Step;
    if lines == [] {
    } else {
      var last := |lines| - 1;
      var front, line := lines[..last], lines[last];
      SeenMeaning(suite, w, pub, front);
      StepCounts(suite, w, pub, Run(suite, w, pub, front), line);
      SeenSnoc(front, line);
      assert front + [line] == lines;
      if HasCheckpoint(front) {
        var j :| 0 <= j < |front| && front[j].CheckpointLine?;
        assert lines[j].CheckpointLine?;
      }
    }
  }

  lemma StepCounts(suite: Suite, w: Counter, pub: Option<string>, st: Scan, line: Line)
    ensures Step(suite, w, pub, st, line).seen
         == if line.CheckpointLine? then st.seen[line.cp.seqNo := line.cp.hash] else st.seen
    ensures Step(suite, w, pub, st, line).checkpoints
         == if line.CheckpointLine? then st.checkpoints + 1 else st.checkpoints
  {
    hide CheckpointHolds;
    hide ComputeHash;
  }

  lemma SoundSnoc(suite: Suite, w: Counter, pub: Option<string>, front: seq<Line>, line: Line)
    ensures SoundLog(suite, w, pub, front + [line]) <==>
            && SoundLog(suite, w, pub, front)
            && !line.Malformed?
            && (line.RecordLine? ==> Linked(suite, w, Records(front) + [line.rec], |Records(front)|))
            && (line.CheckpointLine? ==>
                  CheckpointHolds(suite, pub, line.cp, HeadHash(Records(front)), HeadSeq(Records(front))))
  {
    hide RecordInput;
    hide CheckpointInput;
    var lines := front + [line];
    var rs := Records(front);
    assert lines[..|front|] == front;
    assert Malformed in lines <==> Malformed in front || line.Malformed? by {
      assert lines[|front|] == line;
    }
    forall j | 0 <= j < |front|
      ensures CommitsAt(suite, pub, lines, j) <==> CommitsAt(suite, pub, front, j)
    {
      assert lines[..j] == front[..j];
    }
    if line.RecordLine? {
      var all := rs + [line.rec];
      forall i | 0 <= i < |rs|
        ensures Linked(suite, w, all, i) <==> Linked(suite, w, rs, i)
      {
        assert all[..i] == rs[..i];
      }
    }
    assert CommitsAt(suite, pub, lines, |front|) <==>
           (line.CheckpointLine? ==> CheckpointHolds(suite, pub, line.cp, HeadHash(rs), HeadSeq(rs)));
  }

  lemma SeenSnoc(front: seq<Line>, line: Line)
    ensures forall n, h :: LastCommitment(front + [line], n, h) <==>
              if line.CheckpointLine? && line.cp.seqNo == n then line.cp.hash == h else LastCommitment(front, n, h)
  {
    var lines := front + [line];
    forall n, h
      ensures LastCommitment(lines, n, h) <==>
              if line.CheckpointLine? && line.cp.seqNo == n then line.cp.hash == h else LastCommitment(front, n, h)
    {
      if line.CheckpointLine? && line.cp.seqNo == n {
        assert CheckpointAt(lines, |front|, n);
      } else {
        if LastCommitment(lines, n, h) {
          var j :| 0 <= j < |lines| && CheckpointAt(lines, j, n) && lines[j].cp.hash == h
                   && forall k :: j < k < |lines| ==> !CheckpointAt(lines, k, n);
          assert CheckpointAt(front, j, n);
          assert forall k :: j < k < |front| ==> CheckpointAt(front, k, n) == CheckpointAt(lines, k, n);
        }
        if LastCommitment(front, n, h) {
          var j :| 0 <= j < |front| && CheckpointAt(front, j, n) && front[j].cp.hash == h
                   && forall k :: j < k < |front| ==> !CheckpointAt(front, k, n);
          assert CheckpointAt(lines, j, n);
          assert forall k :: j < k < |front| ==> CheckpointAt(front, k, n) == CheckpointAt(lines, k, n);
        }
      }
    }
  }

  /** The verifier calls a log intact exactly when it is sound, still holds the anchor, and is
      pinned by at least one checkpoint whenever a key is given and it has records. */
  lemma IntactIff(suite: Suite, w: Counter, pub: Option<string>, anchor: Option<Checkpoint>, lines: seq<Line>)
    ensures Verify(suite, w, pub, anchor, lines).intact <==>
            && SoundLog(suite, w, pub, lines)
            && (anchor.Some? ==> AnchorHeld(suite, pub, anchor.value, lines))
            && (pub.Some? && Records(lines) != [] ==> HasCheckpoint(lines))
  {
    hide Run;
    hide SoundLog;
    hide Records;
    hide CheckpointVerifies;
    hide LastCommitment;
    hide HasCheckpoint;
    RunMeaning(suite, w, pub, lines);
    SeenMeaning(suite, w, pub, lines);
    var st := Run(suite, w, pub, lines);
    if st.intact && anchor.Some? {
      var a := anchor.value;
      if a.seqNo in st.seen {
        assert LastCommitment(lines, a.seqNo, st.seen[a.seqNo]);
        assert st.seen[a.seqNo] == a.hash <==> LastCommitment(lines, a.seqNo, a.hash);
      }
    }
  }

  /** A report is free of problems exactly when it is intact and no record is in the old format. */
  lemma NoProblemsIff(suite: Suite, w: Counter, pub: Option<string>, anchor: Option<Checkpoint>, lines: seq<Line>)
    ensures Verify(suite, w, pub, anchor, lines).problems == [] <==>
            && Verify(suite, w, pub, anchor, lines).intact
            && forall r :: r in Records(lines) ==> r.version != CHAIN_VERSION_V1
  {
    QuietRun(suite, w, pub, lines);
  }

  lemma {:induction false} QuietRun(suite: Suite, w: Counter, pub: Option<string>, lines: seq<Line>)
    ensures Run(suite, w, pub, lines).problems == [] <==>
            && Run(suite, w, pub, lines).intact
            && forall r :: r in Records(lines) ==> r.version != CHAIN_VERSION_V1
  {
    hide Step;
    if lines == [] {
    } else {
      var last := |lines| - 1;
      QuietRun(suite, w, pub, lines[..last]);
      QuietStep(suite, w, pub, Run(suite, w, pub, lines[..last]), lines[last],
                forall r :: r in Records(lines[..last]) ==> r.version != CHAIN_VERSION_V1);
      if lines[last].RecordLine? {
        assert lines[last].rec in Records(lines);
        assert forall r :: r in Records(lines) <==> r in Records(lines[..last]) || r == lines[last].rec;
      }
    }
  }

  lemma QuietStep(suite: Suite, w: Counter, pub: Option<string>, st: Scan, line: Line, quiet: bool)
    requires st.problems == [] <==> st.intact && quiet
    ensures var u := Step(suite, w, pub, st, line);
            u.problems == [] <==> u.intact && quiet && (line.RecordLine? ==> line.rec.version != CHAIN_VERSION_V1)
  {
    hide RecordInput;
    hide CheckpointHolds;
    hide ComputeHash;
  }

  // ---------------------------------------------------------------- tamper evidence

  /** SHA-256 maps two different inputs, one from each history, to one digest. */
  ghost predicate Collides(suite: Suite, a: seq<Record>, b: seq<Record>) {
    exists i :: 0 <= i < |a| && i < |b|
                && RecordInput(a[i]) != RecordInput(b[i]) && suite.sha(RecordInput(a[i])) == suite.sha(RecordInput(b[i]))
  }

  lemma SamePrev(a: Record, b: Record)
    requires SameHashed(a, b)
    ensures a.prevHash == b.prevHash
  {
  }

  /** Two chains that share the hash of record n agree on every hashed field of records 0 to n,
      unless they exhibit a SHA-256 collision. */
  lemma {:induction false} SharedHashSharedPast(suite: Suite, w: Counter, a: seq<Record>, b: seq<Record>, n: nat)
    requires Chained(suite, w, a) && Chained(suite, w, b)
    requires n < |a| && n < |b| && a[n].hash == b[n].hash
    ensures Collides(suite, a, b) || forall i :: 0 <= i <= n ==> SameHashed(a[i], b[i]) && a[i].hash == b[i].hash
    decreases n
  {
    hide RecordInput;
    hide CheckpointInput;
    hide SameHashed;
    assert Linked(suite, w, a, n) && Linked(suite, w, b, n);
    if RecordInput(a[n]) == RecordInput(b[n]) {
      KnownHasNoBreak(a[n].version);
      KnownHasNoBreak(b[n].version);
      RecordInputInjective(a[n], b[n]);
      SamePrev(a[n], b[n]);
      if n > 0 {
        assert a[..n][n - 1] == a[n - 1] && b[..n][n - 1] == b[n - 1];
        SharedHashSharedPast(suite, w, a, b, n - 1);
      }
    }
  }

  /** Version 2 hashes every field, so agreeing on the hashed fields and the hash is being equal. */
  lemma SameHashedV2(a: Record, b: Record)
    requires SameHashed(a, b) && a.hash == b.hash && a.version == b.version == CHAIN_VERSION
    ensures a == b
  {
  }

  /** Tamper evidence for whole logs: both verify intact and their records at position n carry one
      hash, so up to n they are one history. */
  lemma TamperEvidence(suite: Suite, pub: Option<string>, x: Option<Checkpoint>, y: Option<Checkpoint>,
                       earlier: seq<Line>, now: seq<Line>, n: nat)
    requires Verify(suite, Wrapping, pub, x, earlier).intact && Verify(suite, Wrapping, pub, y, now).intact
    requires n < |Records(earlier)| && n < |Records(now)| && Records(earlier)[n].hash == Records(now)[n].hash
    ensures Collides(suite, Records(earlier), Records(now))
            || forall i :: 0 <= i <= n ==> SameHashed(Records(earlier)[i], Records(now)[i])
  {
    IntactIff(suite, Wrapping, pub, x, earlier);
    IntactIff(suite, Wrapping, pub, y, now);
    SharedHashSharedPast(suite, Wrapping, Records(earlier), Records(now), n);
  }

  lemma {:induction false} SeqIsPosition(suite: Suite, rs: seq<Record>, n: nat)
    requires Chained(suite, Wrapping, rs) && n <= |rs| < UINT64_LIMIT
    ensures HeadSeq(rs[..n]) == n
  {
    hide RecordInput;
    hide CheckpointInput;
    if n == 0 {
    } else {
      SeqIsPosition(suite, rs, n - 1);
      assert Linked(suite, Wrapping, rs, n - 1);
      assert rs[..n][n - 1] == rs[n - 1];
    }
  }

  lemma {:induction false} RecordsPrefix(lines: seq<Line>, j: nat)
    requires j <= |lines|
    ensures Records(lines[..j]) <= Records(lines)
  {
    if j < |lines| {
      RecordsPrefix(lines[..|lines| - 1], j);
      assert lines[..|lines| - 1][..j] == lines[..j];
    } else {
      assert lines[..j] == lines;
    }
  }

  /** In an intact log a checkpoint at seq n sits after exactly n records and carries the n-th hash. */
  lemma CheckpointPins(suite: Suite, pub: Option<string>, lines: seq<Line>, j: nat)
    requires SoundLog(suite, Wrapping, pub, lines) && |Records(lines)| < UINT64_LIMIT
    requires j < |lines| && lines[j].CheckpointLine?
    ensures var n := lines[j].cp.seqNo;
            n <= |Records(lines)| && lines[j].cp.hash == HeadHash(Records(lines)[..n])
    ensures Chained(suite, Wrapping, Records(lines))
  {
    assert CommitsAt(suite, pub, lines, j);
    var above, rs := Records(lines[..j]), Records(lines);
    RecordsPrefix(lines, j);
    assert above == rs[..|above|];
    SeqIsPosition(suite, rs, |above|);
  }

  /** The auditor's guarantee: a checkpoint kept from an earlier intact log, checked as an anchor
      against a later log that verifies intact, means the later log extends the kept prefix
      unchanged -- for every record the checkpoint covers, in order -- or SHA-256 has collided. */
  lemma AnchoredExtension(suite: Suite, pub: Option<string>, earlier: seq<Line>, kept: nat, now: seq<Line>)
    requires |Records(earlier)| < UINT64_LIMIT && |Records(now)| < UINT64_LIMIT
    requires Verify(suite, Wrapping, pub, None, earlier).intact
    requires kept < |earlier| && earlier[kept].CheckpointLine?
    requires Verify(suite, Wrapping, pub, Some(earlier[kept].cp), now).intact
    ensures var n := earlier[kept].cp.seqNo;
            && n <= |Records(earlier)| && n <= |Records(now)|
            && (Collides(suite, Records(earlier), Records(now))
                || forall i :: 0 <= i < n ==> SameHashed(Records(earlier)[i], Records(now)[i]))
  {
    hide *;
    var j := AnchorFound(suite, pub, earlier[kept].cp, now);
    IntactIff(suite, Wrapping, pub, None, earlier);
    CheckpointPins(suite, pub, earlier, kept);
    CheckpointPins(suite, pub, now, j);
    SharedHeadSharedPast(suite, Records(earlier), Records(now), earlier[kept].cp.seqNo);
  }

  /** An accepted anchor is matched by a checkpoint of the log. */
  lemma AnchorFound(suite: Suite, pub: Option<string>, cp: Checkpoint, lines: seq<Line>) returns (j: nat)
    requires Verify(suite, Wrapping, pub, Some(cp), lines).intact
    ensures j < |lines| && lines[j].CheckpointLine? && lines[j].cp.seqNo == cp.seqNo && lines[j].cp.hash == cp.hash
    ensures SoundLog(suite, Wrapping, pub, lines)
  {
    hide Verify;
    hide SoundLog;
    hide Records;
    hide CheckpointVerifies;
    IntactIff(suite, Wrapping, pub, Some(cp), lines);
    j :| 0 <= j < |lines| && CheckpointAt(lines, j, cp.seqNo) && lines[j].cp.hash == cp.hash;
  }

  lemma SharedHeadSharedPast(suite: Suite, a: seq<Record>, b: seq<Record>, n: nat)
    requires Chained(suite, Wrapping, a) && Chained(suite, Wrapping, b)
    requires n <= |a| && n <= |b| && HeadHash(a[..n]) == HeadHash(b[..n])
    ensures Collides(suite, a, b) || forall i :: 0 <= i < n ==> SameHashed(a[i], b[i])
  {
    hide Chained;
    hide Collides;
    hide SameHashed;
    if n > 0 {
      assert a[..n][n - 1] == a[n - 1] && b[..n][n - 1] == b[n - 1];
      SharedHashSharedPast(suite, Wrapping, a, b, n - 1);
    }
  }

  // ---------------------------------------------------------------- what intact means, spelled out

  /** Record i is of a version there is, numbered behind the one before it, carries that one's hash,
      or 64 zeros, and the SHA-256 of its own bytes. */
  ghost predicate RecordInPlace(suite: Suite, rs: seq<Record>, i: nat)
    requires i < |rs|
  {
    && (rs[i].version == "agw-evidence-v2" || rs[i].version == "agw-evidence-v1")
    && rs[i].seqNo == (if i == 0 then 1 else (rs[i - 1].seqNo + 1) % UINT64_LIMIT)
    && rs[i].prevHash == (if i == 0 then GENESIS_HASH else rs[i - 1].hash)
    && rs[i].hash == suite.sha(RecordInput(rs[i]))
  }

  /** A checkpoint on line j is of the version there is, names the last record above it and its hash,
      and is signed, if there is a key to tell. */
  ghost predicate CheckpointInPlace(suite: Suite, pub: Option<string>, lines: seq<Line>, j: nat)
    requires j < |lines|
  {
    lines[j].CheckpointLine? ==>
      var (cp, above) := (lines[j].cp, Records(lines[..j]));
      && cp.version == "agw-evidence-v2"
      && cp.seqNo == (if above == [] then 0 else above[|above| - 1].seqNo)
      && cp.hash == (if above == [] then GENESIS_HASH else above[|above| - 1].hash)
      && (pub.Some? ==> suite.verifies(pub.value, CheckpointInput(cp), cp.signature))
  }

  /** The kept checkpoint is itself signed and of the version there is, the log has reached it, and
      its last checkpoint for that number carries the same hash. */
  ghost predicate AnchorInPlace(suite: Suite, pub: Option<string>, a: Checkpoint, lines: seq<Line>) {
    && (pub.Some? ==> a.version == "agw-evidence-v2" && suite.verifies(pub.value, CheckpointInput(a), a.signature))
    && a.seqNo <= HeadSeq(Records(lines)) && LastCommitment(lines, a.seqNo, a.hash)
  }

  lemma RecordInPlaceIff(suite: Suite, rs: seq<Record>, i: nat)
    requires i < |rs|
    ensures RecordInPlace(suite, rs, i) <==> Linked(suite, Wrapping, rs, i)
  {
    hide RecordInput;
  }

  lemma CheckpointInPlaceIff(suite: Suite, pub: Option<string>, lines: seq<Line>, j: nat)
    requires j < |lines|
    ensures CheckpointInPlace(suite, pub, lines, j) <==> CommitsAt(suite, pub, lines, j)
  {
    hide Records;
    hide CheckpointInput;
  }

  /** A log is intact exactly if every line decodes and stands in its place, the kept checkpoint is
      held, and a log with records that there is a key for has a checkpoint. */
  lemma IntactSpelled(suite: Suite, pub: Option<string>, anchor: Option<Checkpoint>, lines: seq<Line>)
    ensures Verify(suite, Wrapping, pub, anchor, lines).intact
       <==> && Malformed !in lines
            && (forall i :: 0 <= i < |Records(lines)| ==> RecordInPlace(suite, Records(lines), i))
            && (forall j :: 0 <= j < |lines| ==> CheckpointInPlace(suite, pub, lines, j))
            && (anchor.Some? ==> AnchorInPlace(suite, pub, anchor.value, lines))
            && (pub.Some? && Records(lines) != [] ==> exists j :: 0 <= j < |lines| && lines[j].CheckpointLine?)
  {
    hide Verify;
    hide RecordInPlace;
    hide CheckpointInPlace;
    hide Linked;
    hide CommitsAt;
    hide Records;
    hide LastCommitment;
    hide CheckpointInput;
    IntactIff(suite, Wrapping, pub, anchor, lines);
    forall i | 0 <= i < |Records(lines)|
      ensures RecordInPlace(suite, Records(lines), i) <==> Linked(suite, Wrapping, Records(lines), i)
    {
      RecordInPlaceIff(suite, Records(lines), i);
    }
    forall j | 0 <= j < |lines|
      ensures CheckpointInPlace(suite, pub, lines, j) <==> CommitsAt(suite, pub, lines, j)
    {
      CheckpointInPlaceIff(suite, pub, lines, j);
    }
  }
}
