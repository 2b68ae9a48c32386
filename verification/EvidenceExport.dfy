/** Bundles for auditors: pkg/evidence/export.go. */
module EvidenceExport {
  import opened Decimal
  import opened Timestamp
  import opened EvidenceChain
  import opened EvidenceVerify

  /** What was asked for; an absent bound is the zero value the source tests for. */
  datatype Filter = Filter(tenantId: string, agentId: string, since: Option<Moment>, until: Option<Moment>)

  datatype Bundle = Bundle(version: string, records: seq<Record>, checkpoints: seq<Checkpoint>, firstSeq: nat,
                           lastSeq: nat, prevHash: string, complete: bool, sourceHeadSeq: nat, sourceHeadHash: string)

  predicate Matches(r: Record, f: Filter) {
    && (f.tenantId != "" ==> r.event.tenantId == f.tenantId || r.event.sourceTenant == f.tenantId)
    && (f.agentId != "" ==> r.event.agentId == f.agentId)
    && (f.since.Some? ==> Instant(f.since.value) <= Instant(r.timestamp))
    && (f.until.Some? ==> Instant(r.timestamp) <= Instant(f.until.value))
  }

  function Selected(rs: seq<Record>, f: Filter): seq<Record> {
    if rs == [] then []
    else
      var before := Selected(rs[..|rs| - 1], f);
      if Matches(rs[|rs| - 1], f) then before + [rs[|rs| - 1]] else before
  }

  function Checkpoints(lines: seq<Line>): seq<Checkpoint> {
    if lines == [] then []
    else
      var before := Checkpoints(lines[..|lines| - 1]);
      match lines[|lines| - 1]
      case CheckpointLine(c, _) => before + [c]
      case _ => before
  }

  ghost predicate Consecutive(rs: seq<Record>) {
    forall i :: 0 < i < |rs| ==> Follows(rs, i)
  }

  ghost predicate Follows(rs: seq<Record>, i: nat)
    requires 0 < i < |rs|
  {
    rs[i].seqNo == (rs[i - 1].seqNo + 1) % UINT64_LIMIT
  }

  /** first-1 in uint64. */
  function RangeStart(first: nat): nat {
    (first - 1) % UINT64_LIMIT
  }

  lemma RangeStartIs(first: nat)
    requires first < 18_446_744_073_709_551_616
    ensures RangeStart(first) == if first == 0 then 18_446_744_073_709_551_615 else first - 1
  {
  }

  /** Checkpoints from first - 1 through last, stopping after the first one beyond last. */
  function Relevant(cps: seq<Checkpoint>, first: nat, last: nat): seq<Checkpoint> {
    if cps == [] then []
    else if RangeStart(first) <= cps[0].seqNo <= last then [cps[0]] + Relevant(cps[1..], first, last)
    else if cps[0].seqNo > last then [cps[0]]
    else Relevant(cps[1..], first, last)
  }

  /** What the JSON decoder under readAll gets past: it skips JSON's own white space and no other. */
  predicate Readable(line: Line) {
    !line.Malformed? && !line.Around().OtherSpace?
  }

  ghost predicate AllReadable(lines: seq<Line>) {
    forall i :: 0 <= i < |lines| ==> Readable(lines[i])
  }

  /** readAll: nothing from a log with a line it cannot decode. */
  method ReadAll(lines: seq<Line>)
    returns (ok: bool, records: seq<Record>, checkpoints: seq<Checkpoint>, head: nat, headHash: string)
    ensures ok <==> AllReadable(lines)
    ensures ok ==> records == Records(lines) && checkpoints == Checkpoints(lines)
                   && head == HeadSeq(records) && headHash == HeadHash(records)
  {
    ok, records, checkpoints, head, headHash := true, [], [], 0, GENESIS_HASH;
    for i := 0 to |lines|
      invariant ok && AllReadable(lines[..i])
      invariant records == Records(lines[..i]) && checkpoints == Checkpoints(lines[..i])
      invariant head == HeadSeq(records) && headHash == HeadHash(records)
    {
      assert lines[..i + 1][..i] == lines[..i] && lines[..i + 1] == lines[..i] + [lines[i]];
      match lines[i]
      case Blank(space) =>
        if space.OtherSpace? {
          ok := false;
          return;
        }
      case Malformed =>
        ok := false;
        return;
      case CheckpointLine(c, pad) =>
        if pad.OtherSpace? {
          ok := false;
          return;
        }
        checkpoints := checkpoints + [c];
      case RecordLine(r, pad) =>
        if pad.OtherSpace? {
          ok := false;
          return;
        }
        records := records + [r];
        head := r.seqNo;
        headHash := r.hash;
    }
    assert lines[..|lines|] == lines;
  }

  /** relevantCheckpoints. */
  method RelevantCheckpoints(all: seq<Checkpoint>, records: seq<Record>) returns (out: seq<Checkpoint>)
    ensures out == if records == [] then [] else Relevant(all, records[0].seqNo, records[|records| - 1].seqNo)
  {
    if |records| == 0 {
      return [];
    }
    var first, last := records[0].seqNo, records[|records| - 1].seqNo;
    out := [];
    var i := 0;
    while i < |all|
      invariant i <= |all|
      invariant Relevant(all, first, last) == out + Relevant(all[i..], first, last)
    {
      assert all[i..][1..] == all[i + 1..];
      if RangeStart(first) <= all[i].seqNo <= last {
        out := out + [all[i]];
        i := i + 1;
        continue;
      }
      if all[i].seqNo > last {
        return out + [all[i]];
      }
      i := i + 1;
    }
  }

  /** What Export promises for a log it can read. */
  ghost predicate IsExport(lines: seq<Line>, f: Filter, b: Bundle) {
    && b.version == CHAIN_VERSION && b.records == Selected(Records(lines), f)
    && b.complete == Consecutive(b.records)
    && b.sourceHeadSeq == HeadSeq(Records(lines)) && b.sourceHeadHash == HeadHash(Records(lines))
    && (b.records == [] ==> b.checkpoints == [] && b.prevHash == "")
    && (b.records != [] ==>
          && b.firstSeq == b.records[0].seqNo && b.lastSeq == b.records[|b.records| - 1].seqNo
          && b.prevHash == b.records[0].prevHash
          && b.checkpoints == Relevant(Checkpoints(lines), b.firstSeq, b.lastSeq))
  }

  method Export(lines: seq<Line>, f: Filter) returns (r: Option<Bundle>)
    ensures r.Some? <==> AllReadable(lines)
    ensures r.Some? ==> IsExport(lines, f, r.value)
  {
    hide Matches;
    hide AllReadable;
    hide Consecutive;
    hide Records;
    hide Checkpoints;
    hide Relevant;
    var ok, all, checkpoints, head, headHash := ReadAll(lines);
    NoneConsecutive();
    if !ok {
      return None;
    }
    var selected: seq<Record> := [];
    var prevHash, contiguous := "", true;
    var lastSeq: nat := 0;
    for i := 0 to |all|
      invariant selected == Selected(all[..i], f)
      invariant contiguous == Consecutive(selected)
      invariant selected == [] ==> prevHash == ""
      invariant selected != [] ==> prevHash == selected[0].prevHash && lastSeq == selected[|selected| - 1].seqNo
    {
      assert all[..i + 1][..i] == all[..i];
      if !Matches(all[i], f) {
        continue;
      }
      if |selected| == 0 {
        prevHash := all[i].prevHash;
      } else if all[i].seqNo != (lastSeq + 1) % UINT64_LIMIT {
        contiguous := false;
      }
      ConsecutiveSnoc(selected, all[i]);
      selected := selected + [all[i]];
      lastSeq := all[i].seqNo;
    }
    assert all[..|all|] == all;
    var kept := RelevantCheckpoints(checkpoints, selected);
    var firstSeq: nat, endSeq: nat := 0, 0;
    if |selected| > 0 {
      firstSeq, endSeq := selected[0].seqNo, selected[|selected| - 1].seqNo;
    }
    return Some(Bundle(CHAIN_VERSION, selected, kept, firstSeq, endSeq, prevHash, contiguous, head, headHash));
  }

  lemma NoneConsecutive()
    ensures Consecutive([])
  {
  }

  lemma ConsecutiveSnoc(rs: seq<Record>, r: Record)
    ensures Consecutive(rs + [r]) <==>
            Consecutive(rs) && (rs != [] ==> r.seqNo == (rs[|rs| - 1].seqNo + 1) % UINT64_LIMIT)
  {
    var all := rs + [r];
    forall i | 0 < i < |rs|
      ensures Follows(all, i) <==> Follows(rs, i)
    {
    }
    assert rs != [] ==> (Follows(all, |rs|) <==> r.seqNo == (rs[|rs| - 1].seqNo + 1) % UINT64_LIMIT);
  }

  /** VerifyBundle's checks pass for every record, every link of a complete extract, and every checkpoint. */
  ghost predicate BundleHolds(suite: Suite, b: Bundle, pub: Option<string>) {
    && ContentsHold(suite, b.records, |b.records|)
    && (b.complete ==> LinksHold(b.prevHash, b.records, |b.records|))
    && (pub.Some? ==> SignaturesHold(suite, pub.value, b.checkpoints, |b.checkpoints|))
  }

  ghost predicate ContentsHold(suite: Suite, rs: seq<Record>, n: nat)
    requires n <= |rs|
  {
    forall i :: 0 <= i < n ==> ComputeHash(suite, rs[i]) == rs[i].hash
  }

  ghost predicate LinksHold(prevHash: string, rs: seq<Record>, n: nat)
    requires n <= |rs|
  {
    forall i :: 0 <= i < n ==> rs[i].prevHash == HashBefore(prevHash, rs, i)
  }

  function HashBefore(prevHash: string, rs: seq<Record>, i: nat): string
    requires i <= |rs|
  {
    if i == 0 then prevHash else rs[i - 1].hash
  }

  ghost predicate SignaturesHold(suite: Suite, pub: string, cps: seq<Checkpoint>, n: nat)
    requires n <= |cps|
  {
    forall i :: 0 <= i < n ==> CheckpointVerifies(suite, pub, cps[i])
  }

  lemma ContentsSnoc(suite: Suite, rs: seq<Record>, i: nat)
    requires i < |rs|
    ensures ContentsHold(suite, rs, i + 1) <==> ContentsHold(suite, rs, i) && ComputeHash(suite, rs[i]) == rs[i].hash
  {
    hide ComputeHash;
  }

  lemma LinksSnoc(prevHash: string, rs: seq<Record>, i: nat)
    requires i < |rs|
    ensures LinksHold(prevHash, rs, i + 1) <==> LinksHold(prevHash, rs, i) && rs[i].prevHash == HashBefore(prevHash, rs, i)
  {
    hide HashBefore;
  }

  lemma SignaturesSnoc(suite: Suite, pub: string, cps: seq<Checkpoint>, i: nat)
    requires i < |cps|
    ensures SignaturesHold(suite, pub, cps, i + 1) <==>
            SignaturesHold(suite, pub, cps, i) && CheckpointVerifies(suite, pub, cps[i])
  {
    hide CheckpointVerifies;
  }

  /** The problems of the first n records' contents, in order. */
  function ContentProblems(suite: Suite, rs: seq<Record>, n: nat): seq<Problem>
    requires n <= |rs|
  {
    if n == 0 then []
    else
      ContentProblems(suite, rs, n - 1)
      + if ComputeHash(suite, rs[n - 1]) == rs[n - 1].hash then [] else [Problem(KContent, rs[n - 1].seqNo)]
  }

  function LinkProblems(prevHash: string, rs: seq<Record>, n: nat): seq<Problem>
    requires n <= |rs|
  {
    if n == 0 then []
    else
      LinkProblems(prevHash, rs, n - 1)
      + if rs[n - 1].prevHash == HashBefore(prevHash, rs, n - 1) then [] else [Problem(KChain, rs[n - 1].seqNo)]
  }

  function SignatureProblems(suite: Suite, pub: string, cps: seq<Checkpoint>, n: nat): seq<Problem>
    requires n <= |cps|
  {
    if n == 0 then []
    else
      SignatureProblems(suite, pub, cps, n - 1)
      + if CheckpointVerifies(suite, pub, cps[n - 1]) then [] else [Problem(KCheckpoint, cps[n - 1].seqNo)]
  }

  /** Every altered record, then every broken link if the bundle claims to be complete, then every
      checkpoint that does not verify, if there is a key to verify it with. */
  function BundleProblems(suite: Suite, b: Bundle, pub: Option<string>): seq<Problem> {
    ContentProblems(suite, b.records, |b.records|)
    + (if b.complete then LinkProblems(b.prevHash, b.records, |b.records|) else [])
    + (if pub.Some? then SignatureProblems(suite, pub.value, b.checkpoints, |b.checkpoints|) else [])
  }

  /** VerifyBundle: an error for a bundle of another version, else its problems. */
  method VerifyBundle(suite: Suite, b: Bundle, pub: Option<string>) returns (r: Option<seq<Problem>>)
    ensures r.Some? <==> b.version == CHAIN_VERSION
    ensures r.Some? ==> r.value == BundleProblems(suite, b, pub) && (r.value == [] <==> BundleHolds(suite, b, pub))
  {
    hide ComputeHash;
    hide CheckpointVerifies;
    hide BundleHolds;
    if b.version != CHAIN_VERSION {
      return None;
    }
    var problems: seq<Problem> := [];
    for i := 0 to |b.records|
      invariant problems == ContentProblems(suite, b.records, i)
    {
      if ComputeHash(suite, b.records[i]) != b.records[i].hash {
        problems := problems + [Problem(KContent, b.records[i].seqNo)];
      }
    }
    ghost var contents := problems;
    if b.complete {
      var expected := b.prevHash;
      for i := 0 to |b.records|
        invariant expected == HashBefore(b.prevHash, b.records, i)
        invariant problems == contents + LinkProblems(b.prevHash, b.records, i)
      {
        if b.records[i].prevHash != expected {
          problems := problems + [Problem(KChain, b.records[i].seqNo)];
        }
        expected := b.records[i].hash;
      }
    }
    ghost var links := problems;
    if pub.Some? {
      for i := 0 to |b.checkpoints|
        invariant problems == links + SignatureProblems(suite, pub.value, b.checkpoints, i)
      {
        if !CheckpointVerifies(suite, pub.value, b.checkpoints[i]) {
          problems := problems + [Problem(KCheckpoint, b.checkpoints[i].seqNo)];
        }
      }
    }
    NoProblemsIffHolds(suite, b, pub);
    r := Some(problems);
  }

  lemma {:induction false} ContentProblemsIff(suite: Suite, rs: seq<Record>, n: nat)
    requires n <= |rs|
    ensures ContentProblems(suite, rs, n) == [] <==> ContentsHold(suite, rs, n)
  {
    hide ComputeHash;
    if n == 0 {
    } else {
      ContentProblemsIff(suite, rs, n - 1);
      ContentsSnoc(suite, rs, n - 1);
    }
  }

  lemma {:induction false} LinkProblemsIff(prevHash: string, rs: seq<Record>, n: nat)
    requires n <= |rs|
    ensures LinkProblems(prevHash, rs, n) == [] <==> LinksHold(prevHash, rs, n)
  {
    hide HashBefore;
    if n == 0 {
    } else {
      LinkProblemsIff(prevHash, rs, n - 1);
      LinksSnoc(prevHash, rs, n - 1);
    }
  }

  lemma {:induction false} SignatureProblemsIff(suite: Suite, pub: string, cps: seq<Checkpoint>, n: nat)
    requires n <= |cps|
    ensures SignatureProblems(suite, pub, cps, n) == [] <==> SignaturesHold(suite, pub, cps, n)
  {
    hide CheckpointVerifies;
    if n == 0 {
    } else {
      SignatureProblemsIff(suite, pub, cps, n - 1);
      SignaturesSnoc(suite, pub, cps, n - 1);
    }
  }

  /** No problem is reported exactly when every check passes. */
  lemma NoProblemsIffHolds(suite: Suite, b: Bundle, pub: Option<string>)
    ensures BundleProblems(suite, b, pub) == [] <==> BundleHolds(suite, b, pub)
  {
    hide ContentProblems;
    hide LinkProblems;
    hide SignatureProblems;
    hide ContentsHold;
    hide LinksHold;
    hide SignaturesHold;
    ContentProblemsIff(suite, b.records, |b.records|);
    LinkProblemsIff(b.prevHash, b.records, |b.records|);
    if pub.Some? {
      SignatureProblemsIff(suite, pub.value, b.checkpoints, |b.checkpoints|);
    }
  }

  // ---------------------------------------------------------------- soundness

  lemma {:induction false} SelectedIn(rs: seq<Record>, f: Filter)
    ensures forall r :: r in Selected(rs, f) <==> r in rs && Matches(r, f)
  {
    hide Matches;
    if rs == [] {
    } else {
      SelectedIn(rs[..|rs| - 1], f);
      assert rs == rs[..|rs| - 1] + [rs[|rs| - 1]];
    }
  }

  ghost predicate Increasing(rs: seq<Record>) {
    forall i, j :: 0 <= i < j < |rs| ==> rs[i].seqNo < rs[j].seqNo
  }

  /** Record i is numbered i + 1. */
  ghost predicate Positioned(rs: seq<Record>) {
    forall i :: 0 <= i < |rs| ==> rs[i].seqNo == i + 1
  }

  lemma {:induction false} SelectedIncreasing(rs: seq<Record>, f: Filter)
    requires Positioned(rs)
    ensures Increasing(Selected(rs, f))
    ensures forall r :: r in Selected(rs, f) ==> 1 <= r.seqNo <= |rs| && rs[r.seqNo - 1] == r
  {
    hide Matches;
    if rs == [] {
    } else {
      SelectedIncreasing(rs[..|rs| - 1], f);
    }
  }

  lemma PositionsOf(suite: Suite, rs: seq<Record>)
    requires Chained(suite, Wrapping, rs) && |rs| < UINT64_LIMIT
    ensures Positioned(rs)
  {
    forall i | 0 <= i < |rs|
      ensures rs[i].seqNo == i + 1
    {
      SeqIsPosition(suite, rs, i + 1);
    }
  }

  lemma {:induction false} RunsOn(rs: seq<Record>, i: nat)
    requires Consecutive(rs) && i < |rs| && forall r :: r in rs ==> 1 <= r.seqNo < UINT64_LIMIT
    ensures rs[i].seqNo == rs[0].seqNo + i
  {
    if i == 0 {
    } else {
      RunsOn(rs, i - 1);
      assert Follows(rs, i);
      assert rs[i] in rs && rs[i - 1] in rs;
    }
  }

  /** A complete bundle is exactly one whose records fill the interval from first to last. */
  lemma CompleteIffInterval(rs: seq<Record>)
    requires rs != [] && Increasing(rs) && forall r :: r in rs ==> 1 <= r.seqNo < UINT64_LIMIT
    ensures Consecutive(rs) <==>
            forall n :: rs[0].seqNo <= n <= rs[|rs| - 1].seqNo ==> HasSeq(rs, n)
  {
    if Consecutive(rs) {
      RunsOn(rs, |rs| - 1);
      forall n | rs[0].seqNo <= n <= rs[|rs| - 1].seqNo
        ensures HasSeq(rs, n)
      {
        RunsOn(rs, n - rs[0].seqNo);
      }
    }
    if forall n :: rs[0].seqNo <= n <= rs[|rs| - 1].seqNo ==> HasSeq(rs, n) {
      forall i | 0 < i < |rs|
        ensures Follows(rs, i)
      {
        assert rs[i] in rs && rs[i - 1] in rs;
        assert rs[0].seqNo <= rs[i - 1].seqNo < rs[i].seqNo <= rs[|rs| - 1].seqNo;
        assert HasSeq(rs, rs[i - 1].seqNo + 1);
      }
    }
  }

  ghost predicate HasSeq(rs: seq<Record>, n: nat) {
    exists i :: 0 <= i < |rs| && rs[i].seqNo == n
  }

  lemma {:induction false} CheckpointsSigned(suite: Suite, pub: string, lines: seq<Line>)
    requires forall j :: 0 <= j < |lines| ==> CommitsAt(suite, Some(pub), lines, j)
    ensures forall c :: c in Checkpoints(lines) ==> CheckpointVerifies(suite, pub, c)
  {
    hide CheckpointVerifies;
    if lines == [] {
    } else {
      var front := lines[..|lines| - 1];
      forall j | 0 <= j < |front|
        ensures CommitsAt(suite, Some(pub), front, j)
      {
        assert CommitsAt(suite, Some(pub), lines, j);
        assert front[..j] == lines[..j];
      }
      CheckpointsSigned(suite, pub, front);
      assert CommitsAt(suite, Some(pub), lines, |lines| - 1);
    }
  }

  lemma {:induction false} RelevantIn(cps: seq<Checkpoint>, first: nat, last: nat)
    ensures forall c :: c in Relevant(cps, first, last) ==> c in cps
  {
    if cps == [] {
    } else {
      RelevantIn(cps[1..], first, last);
    }
  }

  lemma SelectedHold(suite: Suite, rs: seq<Record>, f: Filter)
    requires Chained(suite, Wrapping, rs) && |rs| < UINT64_LIMIT
    ensures var sel := Selected(rs, f);
            && ContentsHold(suite, sel, |sel|)
            && (sel != [] && Consecutive(sel) ==> LinksHold(sel[0].prevHash, sel, |sel|))
  {
    hide ComputeHash;
    hide Selected;
    PositionsOf(suite, rs);
    SelectedIncreasing(rs, f);
    var sel := Selected(rs, f);
    forall i | 0 <= i < |sel|
      ensures ComputeHash(suite, sel[i]) == sel[i].hash
      ensures Consecutive(sel) ==> sel[i].prevHash == HashBefore(sel[0].prevHash, sel, i)
    {
      var r := sel[i];
      assert r in sel;
      assert Linked(suite, Wrapping, rs, r.seqNo - 1);
      if Consecutive(sel) && i > 0 {
        var p := sel[i - 1];
        assert p in sel && Follows(sel, i);
        var above := rs[..r.seqNo - 1];
        assert above[|above| - 1] == p;
      }
    }
  }

  /** Export soundness: whatever the filter, the bundle of a log that verifies intact under a key
      is accepted by VerifyBundle under that key, and its completeness flag is true exactly when
      the selected records fill an interval. */
  lemma ExportSound(suite: Suite, pub: Option<string>, anchor: Option<Checkpoint>, lines: seq<Line>, f: Filter, b: Bundle)
    requires |Records(lines)| < UINT64_LIMIT
    requires Verify(suite, Wrapping, pub, anchor, lines).intact
    requires IsExport(lines, f, b)
    ensures b.version == CHAIN_VERSION && BundleHolds(suite, b, pub)
    ensures b.records != [] ==>
              (b.complete <==> forall n :: b.firstSeq <= n <= b.lastSeq ==> HasSeq(b.records, n))
  {
    hide ContentsHold;
    hide LinksHold;
    hide Selected;
    hide Relevant;
    hide Verify;
    hide Records;
    hide Chained;
    hide CommitsAt;
    hide HasSeq;
    hide Consecutive;
    hide SignaturesHold;
    IntactIff(suite, Wrapping, pub, anchor, lines);
    SelectedHold(suite, Records(lines), f);
    if b.records != [] {
      SelectedInterval(suite, Records(lines), f);
    } else {
      NothingHolds(suite, b.prevHash);
    }
    if pub.Some? {
      ExportSigned(suite, pub.value, lines, b);
    }
  }

  /** An intact log can be exported exactly if no line of it holds a vertical tab or form feed
      outside its value: the verifier trims them off, the JSON decoder refuses them. */
  lemma IntactReadableIff(suite: Suite, pub: Option<string>, anchor: Option<Checkpoint>, lines: seq<Line>)
    requires Verify(suite, Wrapping, pub, anchor, lines).intact
    ensures AllReadable(lines) <==> forall i :: 0 <= i < |lines| ==> !lines[i].Around().OtherSpace?
  {
    hide Verify;
    IntactIff(suite, Wrapping, pub, anchor, lines);
  }

  /** A form feed beside any value of any log is unseen by the verifier and stops the export. */
  lemma FormFeedStopsExport(suite: Suite, pub: Option<string>, anchor: Option<Checkpoint>, lines: seq<Line>, i: nat)
    requires i < |lines| && (lines[i].RecordLine? || lines[i].CheckpointLine?)
    ensures var padded := lines[i := lines[i].(pad := OtherSpace)];
            && Verify(suite, Wrapping, pub, anchor, padded) == Verify(suite, Wrapping, pub, anchor, lines)
            && !AllReadable(padded)
  {
    hide Verify;
    PaddingUnseen(suite, Wrapping, pub, anchor, lines, i, OtherSpace);
    assert !Readable(lines[i := lines[i].(pad := OtherSpace)][i]);
  }

  lemma NothingHolds(suite: Suite, prevHash: string)
    ensures ContentsHold(suite, [], 0) && LinksHold(prevHash, [], 0)
  {
  }

  lemma SelectedInterval(suite: Suite, rs: seq<Record>, f: Filter)
    requires Chained(suite, Wrapping, rs) && |rs| < UINT64_LIMIT && Selected(rs, f) != []
    ensures var sel := Selected(rs, f);
            Consecutive(sel) <==> forall n :: sel[0].seqNo <= n <= sel[|sel| - 1].seqNo ==> HasSeq(sel, n)
  {
    hide Selected;
    PositionsOf(suite, rs);
    SelectedIncreasing(rs, f);
    CompleteIffInterval(Selected(rs, f));
  }

  lemma ExportSigned(suite: Suite, pub: string, lines: seq<Line>, b: Bundle)
    requires forall j :: 0 <= j < |lines| ==> CommitsAt(suite, Some(pub), lines, j)
    requires b.checkpoints == [] || b.checkpoints == Relevant(Checkpoints(lines), b.firstSeq, b.lastSeq)
    ensures SignaturesHold(suite, pub, b.checkpoints, |b.checkpoints|)
  {
    hide CheckpointVerifies;
    CheckpointsSigned(suite, pub, lines);
    RelevantIn(Checkpoints(lines), b.firstSeq, b.lastSeq);
  }

  // ---------------------------------------------------------------- which checkpoints are kept

  function InRange(cps: seq<Checkpoint>, first: nat, last: nat): seq<Checkpoint> {
    if cps == [] then []
    else if RangeStart(first) <= cps[0].seqNo <= last then [cps[0]] + InRange(cps[1..], first, last)
    else InRange(cps[1..], first, last)
  }

  function FirstAfter(cps: seq<Checkpoint>, last: nat): seq<Checkpoint> {
    if cps == [] then [] else if cps[0].seqNo > last then [cps[0]] else FirstAfter(cps[1..], last)
  }

  ghost predicate Ordered(cps: seq<Checkpoint>) {
    forall i, j :: 0 <= i < j < |cps| ==> cps[i].seqNo <= cps[j].seqNo
  }

  lemma {:induction false} NoneInRange(cps: seq<Checkpoint>, first: nat, last: nat)
    requires forall c :: c in cps ==> c.seqNo > last
    ensures InRange(cps, first, last) == []
  {
    if cps == [] {
    } else {
      NoneInRange(cps[1..], first, last);
    }
  }

  /** On checkpoints in chain order, those kept are the ones in range and then the first after it. */
  lemma {:induction false} RelevantIs(cps: seq<Checkpoint>, first: nat, last: nat)
    requires Ordered(cps)
    ensures Relevant(cps, first, last) == InRange(cps, first, last) + FirstAfter(cps, last)
  {
    if cps == [] {
    } else {
      RelevantIs(cps[1..], first, last);
      var rest, after := InRange(cps[1..], first, last), FirstAfter(cps[1..], last);
      if RangeStart(first) <= cps[0].seqNo <= last {
        assert [cps[0]] + (rest + after) == ([cps[0]] + rest) + after;
      } else if cps[0].seqNo > last {
        assert forall c :: c in cps ==> c.seqNo > last;
        NoneInRange(cps, first, last);
      }
    }
  }

  lemma {:induction false} CheckpointsOrdered(suite: Suite, pub: Option<string>, lines: seq<Line>)
    requires SoundLog(suite, Wrapping, pub, lines) && |Records(lines)| < UINT64_LIMIT
    ensures Ordered(Checkpoints(lines))
    ensures forall c :: c in Checkpoints(lines) ==> c.seqNo <= |Records(lines)|
  {
    hide RecordInput;
    hide CheckpointVerifies;
    if lines == [] {
    } else {
      var last := |lines| - 1;
      var front := lines[..last];
      assert front + [lines[last]] == lines;
      SoundSnoc(suite, Wrapping, pub, front, lines[last]);
      CheckpointsOrdered(suite, pub, front);
      SeqIsPosition(suite, Records(front), |Records(front)|);
      assert Records(front)[..|Records(front)|] == Records(front);
    }
  }

  /** The kept checkpoints of an intact log's export: in range, plus the one that anchors the tail. */
  lemma ExportKeeps(suite: Suite, pub: Option<string>, anchor: Option<Checkpoint>, lines: seq<Line>, f: Filter, b: Bundle)
    requires |Records(lines)| < UINT64_LIMIT
    requires Verify(suite, Wrapping, pub, anchor, lines).intact
    requires IsExport(lines, f, b) && b.records != []
    ensures b.checkpoints == InRange(Checkpoints(lines), b.firstSeq, b.lastSeq) + FirstAfter(Checkpoints(lines), b.lastSeq)
  {
    IntactIff(suite, Wrapping, pub, anchor, lines);
    CheckpointsOrdered(suite, pub, lines);
    RelevantIs(Checkpoints(lines), b.firstSeq, b.lastSeq);
  }

  /** Which records an export holds: those of the tenant, as home or source, and agent asked for,
      inside the times asked for, where they were asked for. */
  lemma ExportedIff(lines: seq<Line>, f: Filter, b: Bundle, r: Record)
    requires IsExport(lines, f, b)
    ensures r in b.records
       <==> && r in Records(lines)
            && (f.tenantId == "" || f.tenantId == r.event.tenantId || f.tenantId == r.event.sourceTenant)
            && (f.agentId == "" || f.agentId == r.event.agentId)
            && (f.since.None? || Instant(f.since.value) <= Instant(r.timestamp))
            && (f.until.None? || Instant(r.timestamp) <= Instant(f.until.value))
  {
    hide Selected;
    hide Records;
    SelectedIn(Records(lines), f);
  }
}
