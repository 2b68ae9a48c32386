/** Group commit: any number of Write and Checkpoint calls and the ticker, interleaved at every
    lock boundary of pkg/evidence/sink.go, with crashes and restarts in between. */
module SinkProtocol {
  import opened Decimal
  import opened EvidenceChain
  import opened EvidenceVerify
  import opened EvidenceSink

  /** Where a call is. `mark` is how many lines the kernel held when its fsync began. */
  datatype Pc =
    | Appended(rec: Record)                              // in syncThrough, before syncMu
    | Syncing(rec: Record)                               // holds syncMu, its record not yet covered
    | Fsyncing(rec: Record, target: nat, mark: nat)      // holds syncMu, flushed
    | WriteReturns(result: Option<Record>)
    | CheckpointFsyncing(target: nat, mark: nat)
    | Publishing(target: nat)                            // fsync done, about to take syncMu
    | CheckpointReturns(ok: bool)

  /** The sink in memory, what of the file survives a crash, and history: every record some Write
      reported written, whether any disk operation has failed, and how many lines the log had when
      the sink was opened. */
  datatype State = State(sink: Sink, durable: nat, synced: nat, holder: Option<nat>, calls: map<nat, Pc>,
                         acked: set<Record>, fault: bool, atOpen: nat)

  datatype Action =
    | BeginWrite(t: nat, call: Call)
    | TakeSync(t: nat)
    | FlushForSync(t: nat, ok: bool)
    | FinishFsync(t: nat, ok: bool, durable: nat)
    | BeginCheckpoint(t: nat, signing: Signing, flushes: bool)
    | FinishCheckpointFsync(t: nat, ok: bool, durable: nat)
    | Publish(t: nat)
    | Return(t: nat)
    | AutoFlush(upTo: nat)
    | WriteBack(durable: nat)
    | Crash(keeps: nat)

  /** When an action can happen. A successful fsync leaves at least what the kernel held when it
      began on disk; a crash keeps at least what is durable. */
  ghost predicate Enabled(cfg: Config, pub: string, s: State, a: Action) {
    match a
    case BeginWrite(t, c) =>
      && t !in s.calls && s.sink.seqNo + 1 < UINT64_LIMIT
      && Honest(cfg, pub, Recorded(cfg, s.sink, c), c.signing)
    case TakeSync(t) => t in s.calls && s.calls[t].Appended? && s.holder.None?
    case FlushForSync(t, _) => t in s.calls && s.calls[t].Syncing?
    case FinishFsync(t, ok, d) =>
      && t in s.calls && s.calls[t].Fsyncing?
      && s.durable <= d <= s.sink.flushed && (ok ==> s.calls[t].mark <= d)
    case BeginCheckpoint(t, signing, _) => t !in s.calls && Honest(cfg, pub, s.sink, signing)
    case FinishCheckpointFsync(t, ok, d) =>
      && t in s.calls && s.calls[t].CheckpointFsyncing?
      && s.durable <= d <= s.sink.flushed && (ok ==> s.calls[t].mark <= d)
    case Publish(t) => t in s.calls && s.calls[t].Publishing? && s.holder.None?
    case Return(t) => t in s.calls && (s.calls[t].WriteReturns? || s.calls[t].CheckpointReturns?)
    case AutoFlush(k) => !s.sink.broken && s.sink.flushed <= k <= |s.sink.log|
    case WriteBack(d) => s.durable <= d <= s.sink.flushed
    case Crash(k) => s.durable <= k <= s.sink.flushed
  }

  function WriteDone(s: State, t: nat, r: Record): State {
    s.(calls := s.calls[t := WriteReturns(Some(r))], acked := s.acked + {r})
  }

  function WriteFailed(s: State, t: nat): State {
    s.(calls := s.calls[t := WriteReturns(None)], fault := true)
  }

  /** No record stands behind the last checkpoint. */
  predicate EndsSigned(log: seq<Line>) {
    log == [] || log[|log| - 1].CheckpointLine? || (!log[|log| - 1].RecordLine? && EndsSigned(log[..|log| - 1]))
  }

  /** A checkpoint has been written since the log had `atOpen` lines. */
  ghost predicate SignedSince(log: seq<Line>, atOpen: nat) {
    exists j :: atOpen <= j < |log| && log[j].CheckpointLine?
  }

  /** What SignedThrough() reports: a sink takes the log it is opened on for signed, and keeps to that
      until it writes a checkpoint itself. */
  ghost predicate Reports(sink: Sink, atOpen: nat) {
    && atOpen <= |sink.log|
    && sink.recordsAtCP == if SignedSince(sink.log, atOpen) then LastCheckpointSeq(sink.log)
                           else |Records(sink.log[..atOpen])|
  }

  /** The state after an action. */
  ghost function Next(cfg: Config, pub: string, s: State, a: Action): State
    requires Enabled(cfg, pub, s, a)
  {
    match a
    case BeginWrite(t, c) =>
      var (sink, r) := Append(cfg, s.sink, c);
      var u := s.(sink := sink, fault := s.fault || !c.recordIo.Fine? || !c.signing.io.Fine?);
      if r.None? then WriteFailed(u, t) else u.(calls := u.calls[t := Appended(r.value)])
    case TakeSync(t) =>
      var r := s.calls[t].rec;
      if s.synced >= r.seqNo then WriteDone(s, t, r)
      else s.(holder := Some(t), calls := s.calls[t := Syncing(r)])
    case FlushForSync(t, ok) =>
      var r := s.calls[t].rec;
      var (sink, flushes) := Flush(s.sink, ok);
      if flushes then s.(sink := sink, calls := s.calls[t := Fsyncing(r, sink.seqNo, sink.flushed)])
      else WriteFailed(s.(sink := sink, holder := None), t)
    case FinishFsync(t, ok, d) =>
      var pc := s.calls[t];
      var u := s.(durable := d, holder := None);
      if ok then WriteDone(u.(synced := pc.target), t, pc.rec) else WriteFailed(u, t)
    case BeginCheckpoint(t, signing, flushes) =>
      var (sink, outcome) := ForceCheckpoint(cfg, s.sink, signing, flushes);
      var u := s.(sink := sink, fault := s.fault || !signing.io.Fine? || !flushes);
      u.(calls := u.calls[t := match outcome
                               case Nothing => CheckpointReturns(true)
                               case Failed => CheckpointReturns(false)
                               case Target(n) => CheckpointFsyncing(n, sink.flushed)])
    case FinishCheckpointFsync(t, ok, d) =>
      var u := s.(durable := d, fault := s.fault || !ok);
      u.(calls := u.calls[t := if ok then Publishing(s.calls[t].target) else CheckpointReturns(false)])
    case Publish(t) =>
      var target := s.calls[t].target;
      s.(synced := if target > s.synced then target else s.synced, calls := s.calls[t := CheckpointReturns(true)])
    case Return(t) => s.(calls := s.calls - {t})
    case AutoFlush(k) => s.(sink := s.sink.(flushed := k))
    case WriteBack(d) => s.(durable := d)
    case Crash(k) =>
      var log := if k <= |s.sink.log| then s.sink.log[..k] else [];
      s.(sink := Reopen(log), synced := 0, holder := None, calls := map[], atOpen := |log|)
  }

  /** A sink opened on a log that is already on disk, no call under way. */
  ghost predicate Initial(cfg: Config, pub: string, s: State) {
    && GoodLog(cfg, pub, s.sink.log) && s.sink == Reopen(s.sink.log) && s.durable == |s.sink.log|
    && s.synced == 0 && s.holder.None? && s.calls == map[] && s.acked == {} && !s.fault
    && s.atOpen == |s.sink.log|
  }

  /** How many records are on disk whatever happens next. */
  ghost function DurableSeq(s: State): nat {
    RecordsIn(s.sink.log, s.durable)
  }

  ghost function RecordsIn(log: seq<Line>, k: nat): nat {
    if k <= |log| then |Records(log[..k])| else 0
  }

  ghost predicate IsRecord(log: seq<Line>, r: Record) {
    1 <= r.seqNo <= |Records(log)| && Records(log)[r.seqNo - 1] == r
  }

  /** r is in the log at its own position, and on disk. */
  ghost predicate Durable(s: State, r: Record) {
    IsRecord(s.sink.log, r) && r.seqNo <= DurableSeq(s)
  }

  /** What holds of one call at its program point. */
  ghost predicate CallInv(s: State, t: nat)
    requires t in s.calls
  {
    match s.calls[t]
    case Appended(r) => IsRecord(s.sink.log, r)
    case Syncing(r) => IsRecord(s.sink.log, r) && s.holder == Some(t) && s.synced < r.seqNo
    case Fsyncing(r, target, mark) =>
      && IsRecord(s.sink.log, r) && s.holder == Some(t) && s.synced < r.seqNo <= target
      && mark <= s.sink.flushed && target <= RecordsIn(s.sink.log, mark)
    case WriteReturns(None) => s.fault
    case WriteReturns(Some(r)) => r in s.acked
    case CheckpointFsyncing(target, mark) => mark <= s.sink.flushed && target <= RecordsIn(s.sink.log, mark)
    case Publishing(target) => target <= DurableSeq(s)
    case CheckpointReturns(_) => true
  }

  ghost predicate Inv(cfg: Config, pub: string, s: State) {
    && Consistent(cfg, pub, s.sink)
    && s.durable <= s.sink.flushed
    && s.synced <= DurableSeq(s)
    && (forall t :: t in s.calls ==> CallInv(s, t))
    && (s.holder.Some? ==> s.holder.value in s.calls
                           && (s.calls[s.holder.value].Syncing? || s.calls[s.holder.value].Fsyncing?))
    && (forall r :: r in s.acked ==> Durable(s, r))
    && (s.sink.broken ==> s.fault)
    && Reports(s.sink, s.atOpen)
  }

  // ---------------------------------------------------------------- growing logs

  lemma RecordsInMonotone(log: seq<Line>, j: nat, k: nat)
    requires j <= k <= |log|
    ensures RecordsIn(log, j) <= RecordsIn(log, k) <= |Records(log)|
  {
    RecordsPrefix(log[..k], j);
    assert log[..k][..j] == log[..j];
    RecordsPrefix(log, k);
  }

  lemma AllRecords(log: seq<Line>)
    ensures RecordsIn(log, |log|) == |Records(log)|
  {
    assert log[..|log|] == log;
  }

  lemma RecordsInGrows(log: seq<Line>, longer: seq<Line>, k: nat)
    requires log <= longer && k <= |log|
    ensures RecordsIn(longer, k) == RecordsIn(log, k)
  {
    assert longer[..k] == log[..k];
  }

  /** What a call relies on survives any step of another that grows the log and the durable part,
      keeps what is acknowledged, and leaves its hold on syncMu alone. */
  ghost predicate Grows(s: State, u: State) {
    && s.sink.log <= u.sink.log && Records(s.sink.log) <= Records(u.sink.log)
    && s.sink.flushed <= u.sink.flushed <= |u.sink.log| && s.sink.flushed <= |s.sink.log|
    && s.durable <= u.durable <= |u.sink.log| && s.durable <= |s.sink.log|
    && s.acked <= u.acked && (s.fault ==> u.fault)
  }

  lemma CallInvGrows(s: State, u: State, t: nat)
    requires t in s.calls && CallInv(s, t) && t in u.calls && u.calls[t] == s.calls[t] && Grows(s, u)
    requires s.calls[t].Syncing? || s.calls[t].Fsyncing? ==> u.holder == s.holder && u.synced == s.synced
    ensures CallInv(u, t)
  {
    hide Records;
    match s.calls[t]
    case Fsyncing(_, _, mark) => RecordsInGrows(s.sink.log, u.sink.log, mark);
    case CheckpointFsyncing(_, mark) => RecordsInGrows(s.sink.log, u.sink.log, mark);
    case Publishing(_) => DurableGrows(s, u);
    case _ =>
  }

  lemma DurableGrows(s: State, u: State)
    requires Grows(s, u)
    ensures DurableSeq(s) <= DurableSeq(u)
  {
    RecordsInGrows(s.sink.log, u.sink.log, s.durable);
    RecordsInMonotone(u.sink.log, s.durable, u.durable);
  }

  /** A step of call t that grows the log and the disk, holds or takes syncMu only for itself, and
      acknowledges only what is durable, keeps the invariant once it re-establishes it for t. */
  lemma CallStepKeeps(cfg: Config, pub: string, s: State, u: State, t: nat)
    requires Inv(cfg, pub, s) && Grows(s, u) && Consistent(cfg, pub, u.sink) && u.synced <= DurableSeq(u)
    requires t in u.calls && u.calls == s.calls[t := u.calls[t]] && CallInv(u, t)
    requires (u.holder == s.holder && u.synced == s.synced && s.holder != Some(t))
             || ((s.holder == Some(t) || s.holder.None?) && (u.holder.None? || u.holder == Some(t)))
    requires u.holder == Some(t) ==> u.calls[t].Syncing? || u.calls[t].Fsyncing?
    requires u.acked == s.acked || (u.calls[t].WriteReturns? && u.calls[t].result.Some?
                                    && u.acked == s.acked + {u.calls[t].result.value}
                                    && Durable(u, u.calls[t].result.value))
    requires u.durable <= u.sink.flushed && (u.sink.broken ==> u.fault)
    requires Reports(u.sink, u.atOpen)
    ensures Inv(cfg, pub, u)
  {
    hide GoodLog;
    hide Records;
    hide IsRecord;
    hide RecordsIn;
    hide LastCheckpointSeq;
    hide Grows;
    forall c | c in u.calls
      ensures CallInv(u, c)
    {
      if c != t {
        assert CallInv(s, c);
        CallInvGrows(s, u, c);
      }
    }
    forall r | r in s.acked
      ensures Durable(u, r)
    {
      assert Durable(s, r);
      DurableStays(s, u, r);
    }
  }

  lemma DurableStays(s: State, u: State, r: Record)
    requires Grows(s, u) && Durable(s, r)
    ensures Durable(u, r)
  {
    DurableGrows(s, u);
  }

  // ---------------------------------------------------------------- every step keeps the invariant

  /** A checkpoint the sink writes becomes what it reports. */
  lemma CheckpointReports(cfg: Config, s: Sink, a: Signing, atOpen: nat)
    requires Reports(s, atOpen)
    ensures Reports(PutCheckpoint(cfg, s, a).0, atOpen)
  {
    hide Records;
    var line := CheckpointLine(Commitment(cfg, s, a));
    var longer := s.log + [line];
    assert longer[|s.log|] == line && longer[..|s.log|] == s.log;
  }

  lemma RecordReports(cfg: Config, s: Sink, c: Call, atOpen: nat)
    requires Reports(s, atOpen)
    ensures Reports(Recorded(cfg, s, c), atOpen)
  {
    hide Records;
    hide NextRecord;
    var longer := Recorded(cfg, s, c).log;
    assert longer[..|s.log|] == s.log && longer[..atOpen] == s.log[..atOpen];
    if SignedSince(s.log, atOpen) {
      var j :| atOpen <= j < |s.log| && s.log[j].CheckpointLine?;
      assert longer[j].CheckpointLine?;
    }
    if SignedSince(longer, atOpen) {
      var j :| atOpen <= j < |longer| && longer[j].CheckpointLine?;
      assert s.log[j].CheckpointLine?;
    }
  }

  lemma AppendReports(cfg: Config, s: Sink, c: Call, atOpen: nat)
    requires Reports(s, atOpen)
    ensures Reports(Append(cfg, s, c).0, atOpen)
  {
    hide Records;
    hide Recorded;
    hide PutCheckpoint;
    hide NextRecord;
    if !s.broken && c.recordIo.Fine? {
      var t := Recorded(cfg, s, c);
      RecordReports(cfg, s, c, atOpen);
      CheckpointReports(cfg, t, c.signing, atOpen);
    }
  }

  lemma ForcedReports(cfg: Config, s: Sink, a: Signing, flushes: bool, atOpen: nat)
    requires Reports(s, atOpen)
    ensures Reports(ForceCheckpoint(cfg, s, a, flushes).0, atOpen)
  {
    hide Records;
    hide PutCheckpoint;
    CheckpointReports(cfg, s, a, atOpen);
  }

  lemma LastIsRecord(log: seq<Line>, longer: seq<Line>, r: Record)
    requires Records(longer) == Records(log) + [r] && r.seqNo == |Records(longer)|
    ensures IsRecord(longer, r)
  {
  }

  lemma BeginWriteKeeps(cfg: Config, pub: string, s: State, a: Action)
    requires Inv(cfg, pub, s) && Enabled(cfg, pub, s, a) && a.BeginWrite?
    ensures Inv(cfg, pub, Next(cfg, pub, s, a))
  {
    hide GoodLog;
    hide Honest;
    hide LastCheckpointSeq;
    hide Append;
    hide Records;
    hide Recorded;
    var u := Next(cfg, pub, s, a);
    AppendKeeps(cfg, pub, s.sink, a.call);
    AppendFaults(cfg, s.sink, a.call);
    var (sink, r) := Append(cfg, s.sink, a.call);
    assert u.sink == sink;
    if r.Some? {
      LastIsRecord(s.sink.log, sink.log, r.value);
    }
    AppendReports(cfg, s.sink, a.call, s.atOpen);
    DurableGrows(s, u);
    CallStepKeeps(cfg, pub, s, u, a.t);
  }

  lemma TakeSyncKeeps(cfg: Config, pub: string, s: State, a: Action)
    requires Inv(cfg, pub, s) && Enabled(cfg, pub, s, a) && a.TakeSync?
    ensures Inv(cfg, pub, Next(cfg, pub, s, a))
  {
    hide GoodLog;
    hide LastCheckpointSeq;
    hide Records;
    hide RecordsIn;
    DurableGrows(s, Next(cfg, pub, s, a));
    CallStepKeeps(cfg, pub, s, Next(cfg, pub, s, a), a.t);
  }

  lemma FlushKeeps(cfg: Config, pub: string, s: State, a: Action)
    requires Inv(cfg, pub, s) && Enabled(cfg, pub, s, a) && a.FlushForSync?
    ensures Inv(cfg, pub, Next(cfg, pub, s, a))
  {
    hide GoodLog;
    hide LastCheckpointSeq;
    hide Records;
    hide RecordsIn;
    var u := Next(cfg, pub, s, a);
    AllRecords(s.sink.log);
    DurableGrows(s, u);
    CallStepKeeps(cfg, pub, s, u, a.t);
  }

  lemma FinishFsyncKeeps(cfg: Config, pub: string, s: State, a: Action)
    requires Inv(cfg, pub, s) && Enabled(cfg, pub, s, a) && a.FinishFsync?
    ensures Inv(cfg, pub, Next(cfg, pub, s, a))
  {
    hide GoodLog;
    hide LastCheckpointSeq;
    hide Records;
    hide IsRecord;
    hide RecordsIn;
    if a.ok {
      RecordsInMonotone(s.sink.log, s.calls[a.t].mark, a.durable);
    }
    DurableGrows(s, Next(cfg, pub, s, a));
    CallStepKeeps(cfg, pub, s, Next(cfg, pub, s, a), a.t);
  }

  lemma BeginCheckpointKeeps(cfg: Config, pub: string, s: State, a: Action)
    requires Inv(cfg, pub, s) && Enabled(cfg, pub, s, a) && a.BeginCheckpoint?
    ensures Inv(cfg, pub, Next(cfg, pub, s, a))
  {
    hide GoodLog;
    hide Honest;
    hide LastCheckpointSeq;
    hide Records;
    hide ForceCheckpoint;
    var u := Next(cfg, pub, s, a);
    ForceCheckpointKeeps(cfg, pub, s.sink, a.signing, a.flushes);
    AllRecords(u.sink.log);
    ForcedReports(cfg, s.sink, a.signing, a.flushes, s.atOpen);
    var (sink, outcome) := ForceCheckpoint(cfg, s.sink, a.signing, a.flushes);
    assert u.sink == sink;
    if outcome.Target? {
      assert u.calls[a.t] == CheckpointFsyncing(s.sink.seqNo, |sink.log|);
      assert CallInv(u, a.t);
    }
    DurableGrows(s, u);
    CallStepKeeps(cfg, pub, s, u, a.t);
  }

  lemma CheckpointEndKeeps(cfg: Config, pub: string, s: State, a: Action)
    requires Inv(cfg, pub, s) && Enabled(cfg, pub, s, a)
    requires a.FinishCheckpointFsync? || a.Publish?
    ensures Inv(cfg, pub, Next(cfg, pub, s, a))
  {
    hide GoodLog;
    hide LastCheckpointSeq;
    hide Records;
    hide IsRecord;
    hide RecordsIn;
    if a.FinishCheckpointFsync? && a.ok {
      RecordsInMonotone(s.sink.log, s.calls[a.t].mark, a.durable);
    }
    DurableGrows(s, Next(cfg, pub, s, a));
    CallStepKeeps(cfg, pub, s, Next(cfg, pub, s, a), a.t);
  }

  lemma DiskStepKeeps(cfg: Config, pub: string, s: State, a: Action)
    requires Inv(cfg, pub, s) && Enabled(cfg, pub, s, a)
    requires a.Return? || a.AutoFlush? || a.WriteBack?
    ensures Inv(cfg, pub, Next(cfg, pub, s, a))
  {
    hide GoodLog;
    hide LastCheckpointSeq;
    hide Records;
    hide IsRecord;
    hide RecordsIn;
    var u := Next(cfg, pub, s, a);
    DurableGrows(s, u);
    forall c | c in u.calls
      ensures CallInv(u, c)
    {
      CallInvGrows(s, u, c);
    }
  }

  lemma CrashKeeps(cfg: Config, pub: string, s: State, a: Action)
    requires Inv(cfg, pub, s) && Enabled(cfg, pub, s, a) && a.Crash?
    ensures Inv(cfg, pub, Next(cfg, pub, s, a))
  {
    hide RecordInput;
    hide CheckpointHolds;
    var u := Next(cfg, pub, s, a);
    var log, cut := s.sink.log, s.sink.log[..a.keeps];
    ReopenKeeps(cfg, pub, log, a.keeps);
    RecordsPrefix(log, a.keeps);
    RecordsInMonotone(log, s.durable, a.keeps);
    assert cut[..s.durable] == log[..s.durable];
    GoodPrefix(cfg, pub, log, a.keeps);
    OpenedReports(cfg, pub, cut);
  }

  lemma OpenedReports(cfg: Config, pub: string, log: seq<Line>)
    requires GoodLog(cfg, pub, log)
    ensures Reports(Reopen(log), |log|)
  {
    hide GoodLog;
    GoodHeadSeq(cfg, pub, log);
    assert log[..|log|] == log;
  }

  lemma InitialInv(cfg: Config, pub: string, s: State)
    requires Initial(cfg, pub, s)
    ensures Inv(cfg, pub, s)
  {
    hide RecordInput;
    hide CheckpointHolds;
    GoodHeadSeq(cfg, pub, s.sink.log);
    OpenedReports(cfg, pub, s.sink.log);
  }

  lemma StepKeeps(cfg: Config, pub: string, s: State, a: Action)
    requires Inv(cfg, pub, s) && Enabled(cfg, pub, s, a)
    ensures Inv(cfg, pub, Next(cfg, pub, s, a))
  {
    hide Inv;
    hide Enabled;
    hide Next;
    match a
    case BeginWrite(_, _) => BeginWriteKeeps(cfg, pub, s, a);
    case TakeSync(_) => TakeSyncKeeps(cfg, pub, s, a);
    case FlushForSync(_, _) => FlushKeeps(cfg, pub, s, a);
    case FinishFsync(_, _, _) => FinishFsyncKeeps(cfg, pub, s, a);
    case BeginCheckpoint(_, _, _) => BeginCheckpointKeeps(cfg, pub, s, a);
    case FinishCheckpointFsync(_, _, _) | Publish(_) => CheckpointEndKeeps(cfg, pub, s, a);
    case Return(_) | AutoFlush(_) | WriteBack(_) => DiskStepKeeps(cfg, pub, s, a);
    case Crash(_) => CrashKeeps(cfg, pub, s, a);
  }

  // ---------------------------------------------------------------- runs

  /** The actions can happen one after another from s. */
  ghost predicate IsRun(cfg: Config, pub: string, s: State, run: seq<Action>)
    decreases |run|
  {
    run != [] ==> Enabled(cfg, pub, s, run[0]) && IsRun(cfg, pub, Next(cfg, pub, s, run[0]), run[1..])
  }

  ghost function After(cfg: Config, pub: string, s: State, run: seq<Action>): State
    requires IsRun(cfg, pub, s, run)
    decreases |run|
  {
    if run == [] then s else After(cfg, pub, Next(cfg, pub, s, run[0]), run[1..])
  }

  lemma AckedGrows(cfg: Config, pub: string, s: State, a: Action)
    requires Enabled(cfg, pub, s, a)
    ensures s.acked <= Next(cfg, pub, s, a).acked
  {
    hide Append;
    hide ForceCheckpoint;
    hide Reopen;
  }

  lemma {:induction false} RunKeeps(cfg: Config, pub: string, s: State, run: seq<Action>)
    requires Inv(cfg, pub, s) && IsRun(cfg, pub, s, run)
    ensures Inv(cfg, pub, After(cfg, pub, s, run))
    ensures s.acked <= After(cfg, pub, s, run).acked
    decreases |run|
  {
    hide Inv;
    hide Enabled;
    hide Next;
    if run == [] {
    } else {
      StepKeeps(cfg, pub, s, run[0]);
      AckedGrows(cfg, pub, s, run[0]);
      RunKeeps(cfg, pub, Next(cfg, pub, s, run[0]), run[1..]);
    }
  }

  /** Durability: in every interleaving, with any disk and signer failures and any crashes and
      restarts, a record whose Write reported success is on disk, at its own position, in every
      later state -- and what is on disk is what the next crash keeps. */
  lemma AcknowledgedIsDurable(cfg: Config, pub: string, s: State, before: seq<Action>, r: Record, later: seq<Action>)
    requires Initial(cfg, pub, s) && IsRun(cfg, pub, s, before)
    requires r in After(cfg, pub, s, before).acked
    requires IsRun(cfg, pub, After(cfg, pub, s, before), later)
    ensures var u := After(cfg, pub, After(cfg, pub, s, before), later);
            && u.durable <= |u.sink.log|
            && 1 <= r.seqNo <= |Records(u.sink.log[..u.durable])|
            && Records(u.sink.log[..u.durable])[r.seqNo - 1] == r
  {
    InitialInv(cfg, pub, s);
    RunKeeps(cfg, pub, s, before);
    RunKeeps(cfg, pub, After(cfg, pub, s, before), later);
    var u := After(cfg, pub, After(cfg, pub, s, before), later);
    RecordsPrefix(u.sink.log, u.durable);
  }

  /** A call that is returning success has its record acknowledged, hence durable. */
  lemma ReturnedIsAcknowledged(cfg: Config, pub: string, s: State, run: seq<Action>, t: nat)
    requires Initial(cfg, pub, s) && IsRun(cfg, pub, s, run)
    requires var u := After(cfg, pub, s, run); t in u.calls && u.calls[t].WriteReturns? && u.calls[t].result.Some?
    ensures var u := After(cfg, pub, s, run); u.calls[t].result.value in u.acked
  {
    InitialInv(cfg, pub, s);
    RunKeeps(cfg, pub, s, run);
    assert CallInv(After(cfg, pub, s, run), t);
  }

  /** syncedSeq never decreases while a sink lives, and never runs ahead of the disk. */
  lemma SyncedOnlyAdvances(cfg: Config, pub: string, s: State, run: seq<Action>, a: Action)
    requires Initial(cfg, pub, s) && IsRun(cfg, pub, s, run)
    requires Enabled(cfg, pub, After(cfg, pub, s, run), a) && !a.Crash?
    ensures var u := After(cfg, pub, s, run);
            u.synced <= Next(cfg, pub, u, a).synced <= DurableSeq(Next(cfg, pub, u, a))
  {
    hide GoodLog;
    hide Consistent;
    hide Records;
    hide Append;
    hide ForceCheckpoint;
    hide DurableSeq;
    hide IsRecord;
    InitialInv(cfg, pub, s);
    RunKeeps(cfg, pub, s, run);
    var u := After(cfg, pub, s, run);
    StepKeeps(cfg, pub, u, a);
    if a.FinishFsync? {
      assert CallInv(u, a.t);
    }
  }

  /** The disk does what it is asked: every encode, flush and fsync of the action succeeds. The
      signer is unconstrained. */
  predicate DiskWorks(a: Action) {
    match a
    case BeginWrite(_, c) => c.recordIo.Fine? && c.signing.io.Fine?
    case FlushForSync(_, ok) => ok
    case FinishFsync(_, ok, _) => ok
    case BeginCheckpoint(_, signing, flushes) => signing.io.Fine? && flushes
    case FinishCheckpointFsync(_, ok, _) => ok
    case _ => true
  }

  /** A signer that refuses, or is down, for every checkpoint never fails a Write: if the disk
      works throughout, no Write ever returns an error. */
  lemma SignerNeverFailsWrite(cfg: Config, pub: string, s: State, run: seq<Action>, t: nat)
    requires Initial(cfg, pub, s) && IsRun(cfg, pub, s, run)
    requires forall i :: 0 <= i < |run| ==> DiskWorks(run[i])
    requires var u := After(cfg, pub, s, run); t in u.calls && u.calls[t].WriteReturns?
    ensures After(cfg, pub, s, run).calls[t].result.Some?
  {
    InitialInv(cfg, pub, s);
    RunKeeps(cfg, pub, s, run);
    NoFault(cfg, pub, s, run);
    assert CallInv(After(cfg, pub, s, run), t);
  }

  lemma {:induction false} NoFault(cfg: Config, pub: string, s: State, run: seq<Action>)
    requires Inv(cfg, pub, s) && IsRun(cfg, pub, s, run) && !s.fault
    requires forall i :: 0 <= i < |run| ==> DiskWorks(run[i])
    ensures !After(cfg, pub, s, run).fault
    decreases |run|
  {
    hide Inv;
    hide Enabled;
    hide Next;
    if run == [] {
    } else {
      StepKeeps(cfg, pub, s, run[0]);
      assert DiskWorks(run[0]);
      FaultlessStep(cfg, pub, s, run[0]);
      NoFault(cfg, pub, Next(cfg, pub, s, run[0]), run[1..]);
    }
  }

  lemma FaultlessStep(cfg: Config, pub: string, s: State, a: Action)
    requires Inv(cfg, pub, s) && Enabled(cfg, pub, s, a) && !s.fault && DiskWorks(a)
    ensures !Next(cfg, pub, s, a).fault
  {
    hide GoodLog;
    hide Honest;
    hide Append;
    hide ForceCheckpoint;
    if a.BeginWrite? {
      AppendFaults(cfg, s.sink, a.call);
    }
  }

  /** Writer and verifier agree: after any run, every prefix of the log a crash could leave has no
      problem under the writer's key once it has a checkpoint or no records, and its unanchored
      tail is exactly the records after its last checkpoint. */
  lemma WriterVerifierAgree(cfg: Config, pub: string, s: State, run: seq<Action>, k: nat)
    requires Initial(cfg, pub, s) && IsRun(cfg, pub, s, run)
    requires k <= |After(cfg, pub, s, run).sink.log|
    requires var left := After(cfg, pub, s, run).sink.log[..k]; HasCheckpoint(left) || Records(left) == []
    ensures var left := After(cfg, pub, s, run).sink.log[..k];
            var v := Verify(cfg.suite, Wrapping, Some(pub), None, left);
            v.problems == [] && v.headSeq == |Records(left)| && v.unanchored == v.headSeq - LastCheckpointSeq(left)
  {
    InitialInv(cfg, pub, s);
    RunKeeps(cfg, pub, s, run);
    GoodPrefix(cfg, pub, After(cfg, pub, s, run).sink.log, k);
    VerifierAccepts(cfg, pub, After(cfg, pub, s, run).sink.log[..k]);
  }

  /** An auditor who kept a checkpoint that reached the disk never gets a false alarm: whatever
      happens afterwards, the log as any later crash could leave it still verifies against it. */
  lemma KeptAnchorNeverAlarms(cfg: Config, pub: string, s: State, before: seq<Action>, j: nat, later: seq<Action>, k: nat)
    requires Initial(cfg, pub, s) && IsRun(cfg, pub, s, before)
    requires var u := After(cfg, pub, s, before);
             j < u.durable <= |u.sink.log| && u.sink.log[j].CheckpointLine?
    requires IsRun(cfg, pub, After(cfg, pub, s, before), later)
    requires var w := After(cfg, pub, After(cfg, pub, s, before), later); w.durable <= k <= |w.sink.log|
    ensures var kept := After(cfg, pub, s, before).sink.log[j].cp;
            var left := After(cfg, pub, After(cfg, pub, s, before), later).sink.log[..k];
            Verify(cfg.suite, Wrapping, Some(pub), Some(kept), left).problems == []
  {
    InitialInv(cfg, pub, s);
    RunKeeps(cfg, pub, s, before);
    var u := After(cfg, pub, s, before);
    RunKeeps(cfg, pub, u, later);
    DurableLines(cfg, pub, u, later);
    var w := After(cfg, pub, u, later);
    var left := w.sink.log[..k];
    assert left[j] == w.sink.log[..w.durable][j] == u.sink.log[..u.durable][j];
    GoodPrefix(cfg, pub, w.sink.log, k);
    KeptCheckpointStillHeld(cfg, pub, left, j);
  }

  /** Durable lines never change and never go away. */
  lemma {:induction false} DurableLines(cfg: Config, pub: string, s: State, run: seq<Action>)
    requires Inv(cfg, pub, s) && IsRun(cfg, pub, s, run)
    ensures var u := After(cfg, pub, s, run);
            s.durable <= |s.sink.log| && s.durable <= u.durable <= |u.sink.log|
            && s.sink.log[..s.durable] <= u.sink.log[..u.durable]
    decreases |run|
  {
    hide GoodLog;
    if run == [] {
    } else {
      var m := Next(cfg, pub, s, run[0]);
      StepKeeps(cfg, pub, s, run[0]);
      DurableStep(cfg, pub, s, run[0]);
      DurableLines(cfg, pub, m, run[1..]);
    }
  }

  lemma DurableStep(cfg: Config, pub: string, s: State, a: Action)
    requires Inv(cfg, pub, s) && Enabled(cfg, pub, s, a)
    ensures var u := Next(cfg, pub, s, a);
            s.durable <= u.durable <= |u.sink.log| && s.sink.log[..s.durable] == u.sink.log[..s.durable]
  {
    hide GoodLog;
    hide Honest;
    hide Append;
    hide ForceCheckpoint;
    hide Records;
    hide Recorded;
    if a.BeginWrite? {
      AppendKeeps(cfg, pub, s.sink, a.call);
    } else if a.BeginCheckpoint? {
      ForceCheckpointKeeps(cfg, pub, s.sink, a.signing, a.flushes);
    }
  }

  lemma {:induction false} SignedExactly(cfg: Config, pub: string, log: seq<Line>)
    requires GoodLog(cfg, pub, log)
    ensures EndsSigned(log) <==> LastCheckpointSeq(log) == |Records(log)|
  {
    hide RecordInput;
    hide CheckpointVerifies;
    if log == [] {
    } else {
      var last := |log| - 1;
      GoodPrefix(cfg, pub, log, last);
      SignedExactly(cfg, pub, log[..last]);
      SignedThroughIs(cfg, pub, log[..last]);
      GoodHeadSeq(cfg, pub, log[..last]);
      assert CommitsAt(cfg.suite, Some(pub), log, last);
    }
  }

  lemma {:induction false} LastSeqSince(log: seq<Line>, atOpen: nat)
    requires atOpen <= |log| && !SignedSince(log, atOpen)
    ensures LastCheckpointSeq(log) == LastCheckpointSeq(log[..atOpen])
    decreases |log|
  {
    if atOpen == |log| {
      assert log[..atOpen] == log;
    } else {
      var front := log[..|log| - 1];
      assert !log[|log| - 1].CheckpointLine?;
      assert !SignedSince(front, atOpen);
      LastSeqSince(front, atOpen);
      assert front[..atOpen] == log[..atOpen];
    }
  }

  /** After any run, SignedThrough() is what the verifier reports for the whole log if and only if
      the log the sink was opened on had no record behind its last checkpoint, or a checkpoint has
      been written since. */
  lemma SignedThroughAgrees(cfg: Config, pub: string, s: State, run: seq<Action>)
    requires Initial(cfg, pub, s) && IsRun(cfg, pub, s, run)
    ensures var u := After(cfg, pub, s, run);
            && u.atOpen <= |u.sink.log|
            && (u.sink.recordsAtCP == Verify(cfg.suite, Wrapping, Some(pub), None, u.sink.log).signedThrough
                <==> EndsSigned(u.sink.log[..u.atOpen]) || SignedSince(u.sink.log, u.atOpen))
  {
    hide Records;
    hide GoodLog;
    hide EndsSigned;
    hide SignedSince;
    hide LastCheckpointSeq;
    InitialInv(cfg, pub, s);
    RunKeeps(cfg, pub, s, run);
    var u := After(cfg, pub, s, run);
    SignedThroughIs(cfg, pub, u.sink.log);
    GoodPrefix(cfg, pub, u.sink.log, u.atOpen);
    SignedExactly(cfg, pub, u.sink.log[..u.atOpen]);
    if !SignedSince(u.sink.log, u.atOpen) {
      LastSeqSince(u.sink.log, u.atOpen);
    }
  }

  /** The sink just opened on a log. */
  function Opened(log: seq<Line>): State {
    State(Reopen(log), |log|, 0, None, map[], {}, false, |log|)
  }

  /** One record and no checkpoint: the sink opened on that log reports it signed, the verifier does not. */
  lemma UnsignedTailDiffers(cfg: Config, pub: string, c: Call)
    ensures var log := Recorded(cfg, Reopen([]), c).log;
            && Initial(cfg, pub, Opened(log)) && Opened(log).sink.recordsAtCP == 1
            && Verify(cfg.suite, Wrapping, Some(pub), None, log).signedThrough == 0
  {
    hide RecordInput;
    hide NextRecord;
    var empty := Reopen([]);
    assert GoodLog(cfg, pub, []);
    RecordedKeeps(cfg, pub, empty, c);
    var log := Recorded(cfg, empty, c).log;
    GoodHeadSeq(cfg, pub, log);
    SignedThroughIs(cfg, pub, log);
    assert log[..0] == [];
  }

  // ---------------------------------------------------------------- how long the unsigned tail gets

  /** The signer answers every time it is asked. */
  predicate SignerWorks(a: Action) {
    match a
    case BeginWrite(_, c) => c.signing.signature.Some?
    case BeginCheckpoint(_, signing, _) => signing.signature.Some?
    case _ => true
  }

  /** The count of records since the last checkpoint is right, and below what triggers the next. */
  ghost predicate Paced(cfg: Config, sink: Sink) {
    && sink.seqNo == sink.recordsAtCP + sink.sinceLastCP
    && sink.sinceLastCP < cfg.every && !sink.cpErr
  }

  lemma StepPaced(cfg: Config, pub: string, s: State, a: Action)
    requires Inv(cfg, pub, s) && Enabled(cfg, pub, s, a) && Paced(cfg, s.sink) && !s.fault
    requires cfg.signs && DiskWorks(a) && SignerWorks(a)
    ensures Paced(cfg, Next(cfg, pub, s, a).sink)
  {
    hide GoodLog;
    hide Honest;
    hide Append;
    hide Records;
    hide LinkedRecord;
    match a
    case BeginWrite(_, c) =>
      if Triggered(cfg, s.sink, c) {
        CheckpointFollows(cfg, s.sink, c);
      } else {
        RecordAlone(cfg, s.sink, c);
      }
    case Crash(k) => ReopenKeeps(cfg, pub, s.sink.log, k);
    case _ =>
  }

  lemma {:induction false} RunPaced(cfg: Config, pub: string, s: State, run: seq<Action>)
    requires Inv(cfg, pub, s) && IsRun(cfg, pub, s, run) && Paced(cfg, s.sink) && !s.fault
    requires cfg.signs && forall i :: 0 <= i < |run| ==> DiskWorks(run[i]) && SignerWorks(run[i])
    ensures Paced(cfg, After(cfg, pub, s, run).sink)
    decreases |run|
  {
    hide Inv;
    hide Enabled;
    hide Next;
    hide Paced;
    if run == [] {
    } else {
      assert DiskWorks(run[0]) && SignerWorks(run[0]);
      StepKeeps(cfg, pub, s, run[0]);
      FaultlessStep(cfg, pub, s, run[0]);
      StepPaced(cfg, pub, s, run[0]);
      RunPaced(cfg, pub, Next(cfg, pub, s, run[0]), run[1..]);
    }
  }

  /** With a signer and a disk that work, however calls interleave and wherever it crashes, the tail
      an auditor finds unanchored is always shorter than CheckpointEvery, unless it was there before
      and no checkpoint has been written since. */
  lemma UnanchoredStaysShort(cfg: Config, pub: string, s: State, run: seq<Action>)
    requires Initial(cfg, pub, s) && IsRun(cfg, pub, s, run) && cfg.signs && cfg.every > 0
    requires forall i :: 0 <= i < |run| ==> DiskWorks(run[i]) && SignerWorks(run[i])
    ensures After(cfg, pub, s, run).sink.sinceLastCP < cfg.every
    ensures var u := After(cfg, pub, s, run);
            u.atOpen <= |u.sink.log| && (EndsSigned(u.sink.log[..u.atOpen]) || SignedSince(u.sink.log, u.atOpen)
                                         ==> Verify(cfg.suite, Wrapping, Some(pub), None, u.sink.log).unanchored < cfg.every)
  {
    hide EndsSigned;
    hide SignedSince;
    hide IsRun;
    hide After;
    InitialInv(cfg, pub, s);
    InitialPaced(cfg, pub, s);
    RunKeeps(cfg, pub, s, run);
    RunPaced(cfg, pub, s, run);
    SignedThroughAgrees(cfg, pub, s, run);
    UnanchoredIs(cfg, pub, After(cfg, pub, s, run).sink.log);
  }

  lemma InitialPaced(cfg: Config, pub: string, s: State)
    requires Initial(cfg, pub, s) && cfg.every > 0
    ensures Paced(cfg, s.sink)
  {
    hide GoodLog;
    hide Records;
  }

  lemma UnanchoredIs(cfg: Config, pub: string, log: seq<Line>)
    requires GoodLog(cfg, pub, log)
    ensures var v := Verify(cfg.suite, Wrapping, Some(pub), None, log);
            v.signedThrough <= |Records(log)| && v.unanchored == |Records(log)| - v.signedThrough
  {
    hide Run;
    RunMeaning(cfg.suite, Wrapping, Some(pub), log);
    SignedThroughIs(cfg, pub, log);
    GoodHeadSeq(cfg, pub, log);
  }
}
