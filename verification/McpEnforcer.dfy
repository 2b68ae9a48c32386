/** The MCP policy decision core: internal/mcp/enforcer.go, over requests already decoded by
    ParseBatch. Messages may be admitted concurrently: deciding one request, recording one and
    inspecting one response are separate steps, and any of them may interleave. */
module McpEnforcer {
  import opened Decimal
  import opened Text
  import I = Inventory

  const TOOLS_CALL := "tools/call"
  const TOOLS_LIST := "tools/list"
  const RESOURCES_READ := "resources/read"
  const TOOLS_CHANGED := "tool_inventory_changed"

  /** What is read of a JSON-RPC request: an absent id, and a name or uri its parameters do not
      give, are "". */
  datatype Request = Request(id: string, method_: string, name: string, uri: string) {
    function ToolName(): Option<string> {
      if method_ == TOOLS_CALL && name != "" then Some(name) else None
    }

    function ResourceURI(): Option<string> {
      if method_ == RESOURCES_READ && uri != "" then Some(uri) else None
    }
  }

  /** ParseBatch's answer: a message that is no batch is one request. */
  datatype Body = Malformed | Message(requests: seq<Request>, isBatch: bool) {
    predicate WellParsed() {
      Message? && !isBatch ==> |requests| == 1
    }

    /** A client's answer to a server's own request. */
    predicate IsResponse() {
      Message? && !isBatch && |requests| == 1 && requests[0].method_ == ""
    }
  }

  datatype Decision = Allow | Deny(reason: string)

  /** What the authorizer is asked. */
  datatype Query = Query(action: string, resource: string, risk: string)

  datatype Config = Config(pinTools: bool, defaultRisk: string, riskByTool: map<string, string>, backend: string,
                           sha: string -> string)

  /** The reply of a refusal names the ids it answers; None is no reply at all. */
  datatype Verdict = Verdict(forward: bool, reply: Option<seq<string>>)

  /** describe. */
  function Describe(r: Request): (string, string) {
    if r.ToolName().Some? then ("mcp.tool." + r.name, r.name)
    else if r.ResourceURI().Some? then ("mcp.resource.read", r.uri)
    else ("mcp.method." + ReplaceAll(r.method_, "/", "."), r.method_)
  }

  function RiskOf(cfg: Config, r: Request): string {
    if r.ToolName().Some? && r.name in cfg.riskByTool then cfg.riskByTool[r.name] else cfg.defaultRisk
  }

  /** decide. */
  function Decide(cfg: Config, frozen: bool, r: Request, authorizer: Query -> Decision): Decision {
    if r.method_ != TOOLS_CALL && r.method_ != RESOURCES_READ then Allow
    else if r.method_ == TOOLS_CALL && frozen then Deny(TOOLS_CHANGED)
    else authorizer(Query(Describe(r).0, Describe(r).1, RiskOf(cfg, r)))
  }

  function Ids(rs: seq<Request>): seq<string> {
    if rs == [] then []
    else Ids(rs[..|rs| - 1]) + if rs[|rs| - 1].id == "" then [] else [rs[|rs| - 1].id]
  }

  /** errorReply, for a message that parsed: a notification gets no answer, a batch one for each
      of its requests that has an id. */
  function ErrorReply(rs: seq<Request>, isBatch: bool, id: string): Option<seq<string>> {
    if isBatch then (if Ids(rs) == [] then None else Some(Ids(rs)))
    else if id == "" then None
    else Some([id])
  }

  method BuildErrorReply(rs: seq<Request>, isBatch: bool, id: string) returns (reply: Option<seq<string>>)
    ensures reply == ErrorReply(rs, isBatch, id)
  {
    if isBatch {
      var out: seq<string> := [];
      for i := 0 to |rs|
        invariant out == Ids(rs[..i])
      {
        assert rs[..i + 1][..i] == rs[..i];
        if |rs[i].id| == 0 {
          continue;
        }
        out := out + [rs[i].id];
      }
      assert rs[..|rs|] == rs;
      return if |out| == 0 then None else Some(out);
    }
    return if id == "" then None else Some([id]);
  }

  // ---------------------------------------------------------------- steps

  /** How far a message has come. */
  datatype Phase = Deciding(i: nat) | Recording(i: nat) | Ended(verdict: Verdict)

  datatype Flight = Flight(body: Body, phase: Phase)

  /** What has happened, in order. */
  datatype Event =
    | Arrived(h: nat)
    | Permitted(h: nat, i: nat, request: Request)
    | Written(h: nat, i: nat)
    | Forwarded(h: nat, body: Body)
    | Inspected(tools: seq<I.Tool>, changed: bool)
    | Froze

  /** `claimed` counts the responses matched to a tools/list and not yet inspected, `changing` the
      inspections that found a change and have not yet acted on it. */
  datatype State = State(frozen: bool, table: map<string, string>, claimed: nat, changing: nat,
                         pendingLists: set<string>, allowed: nat, denied: nat, changes: nat, flights: map<nat, Flight>, log: seq<Event>)

  datatype Action =
    | Arrive(h: nat, body: Body)
    | DecideNext(h: nat, authorizer: Query -> Decision)
    | RecordNext(h: nat, written: bool)
    | Claim(id: string)
    | Inspect(requested: bool, listing: I.Listing)
    | Freeze

  predicate Enabled(s: State, a: Action) {
    match a
    case Arrive(h, body) => h !in s.flights && body.WellParsed()
    case DecideNext(h, _) => h in s.flights && s.flights[h].body.Message? && s.flights[h].phase.Deciding?
    case RecordNext(h, _) => h in s.flights && s.flights[h].body.Message? && s.flights[h].phase.Recording?
    case Claim(_) => true
    case Inspect(requested, _) => requested || s.claimed > 0
    case Freeze => s.changing > 0
  }

  function Put(s: State, h: nat, phase: Phase, events: seq<Event>): State
    requires h in s.flights
  {
    s.(flights := s.flights[h := s.flights[h].(phase := phase)], log := s.log + events)
  }

  /** The start of Admit. */
  function Arriving(s: State, h: nat, body: Body): State {
    var u := s.(flights := s.flights[h := Flight(body, Deciding(0))], log := s.log + [Arrived(h)]);
    if body.Malformed? then Put(u.(denied := u.denied + 1), h, Ended(Verdict(false, Some(["null"]))), [])
    else if body.IsResponse() then Put(u, h, Ended(Verdict(true, None)), [Forwarded(h, body)])
    else u
  }

  /** One turn of Admit's first loop, or its end. */
  function DecidingStep(cfg: Config, s: State, h: nat, authorizer: Query -> Decision): State
    requires Enabled(s, DecideNext(h, authorizer))
  {
    var (rs, i) := (s.flights[h].body.requests, s.flights[h].phase.i);
    if i >= |rs| then Put(s, h, Recording(0), [])
    else
      match Decide(cfg, s.frozen, rs[i], authorizer)
      case Allow => Put(s, h, Deciding(i + 1), [Permitted(h, i, rs[i])])
      case Deny(_) =>
        Put(s.(denied := s.denied + 1), h, Ended(Verdict(false, ErrorReply(rs, s.flights[h].body.isBatch, rs[i].id))), [])
  }

  /** One turn of Admit's second loop, or its end: the message goes on its way. */
  function RecordingStep(s: State, h: nat, written: bool): State
    requires Enabled(s, RecordNext(h, written))
  {
    var (rs, i) := (s.flights[h].body.requests, s.flights[h].phase.i);
    if i >= |rs| then Put(s, h, Ended(Verdict(true, None)), [Forwarded(h, s.flights[h].body)])
    else if !written then
      Put(s.(denied := s.denied + 1), h, Ended(Verdict(false, ErrorReply(rs, s.flights[h].body.isBatch, rs[i].id))), [])
    else
      var u := s.(allowed := if rs[i].ToolName().Some? then s.allowed + 1 else s.allowed,
                  pendingLists := if rs[i].method_ == TOOLS_LIST && rs[i].id != "" then s.pendingLists + {rs[i].id}
                                  else s.pendingLists);
      Put(u, h, Recording(i + 1), [Written(h, i)])
  }

  /** ObserveResponse's look at the tools/list ids it saw go out. */
  function ClaimingStep(s: State, id: string): State {
    if id in s.pendingLists then s.(pendingLists := s.pendingLists - {id}, claimed := s.claimed + 1) else s
  }

  /** The inventory's answer to a response the caller knows, or has just matched, as a tools/list's. */
  function InspectingStep(cfg: Config, s: State, requested: bool, listing: I.Listing): State
    requires requested || s.claimed > 0
  {
    var u := if requested then s else s.(claimed := s.claimed - 1);
    match I.ObserveIn(cfg.sha, u.table, cfg.backend, listing)
    case (_, Ignored) => u
    case (table, Seen(_, changed, _)) =>
      u.(table := table, log := u.log + [Inspected(listing.value, changed)],
         changing := if changed then u.changing + 1 else u.changing)
  }

  /** What ObserveResponse does about a change. */
  function FreezingStep(cfg: Config, s: State): State
    requires s.changing > 0
  {
    var u := s.(changing := s.changing - 1, changes := s.changes + 1);
    if cfg.pinTools then u.(frozen := true, log := u.log + [Froze]) else u
  }

  function Next(cfg: Config, s: State, a: Action): State
    requires Enabled(s, a)
  {
    match a
    case Arrive(h, body) => Arriving(s, h, body)
    case DecideNext(h, authorizer) => DecidingStep(cfg, s, h, authorizer)
    case RecordNext(h, written) => RecordingStep(s, h, written)
    case Claim(id) => ClaimingStep(s, id)
    case Inspect(requested, listing) => InspectingStep(cfg, s, requested, listing)
    case Freeze => FreezingStep(cfg, s)
  }

  ghost predicate IsRun(cfg: Config, s: State, run: seq<Action>)
    decreases |run|
  {
    run != [] ==> Enabled(s, run[0]) && IsRun(cfg, Next(cfg, s, run[0]), run[1..])
  }

  ghost function After(cfg: Config, s: State, run: seq<Action>): State
    requires IsRun(cfg, s, run)
    decreases |run|
  {
    if run == [] then s else After(cfg, Next(cfg, s, run[0]), run[1..])
  }

  predicate Initial(s: State) {
    s == State(false, map[], 0, 0, {}, 0, 0, 0, map[], [])
  }

  // ---------------------------------------------------------------- what every run keeps

  ghost predicate Happened(log: seq<Event>, e: Event) {
    e in log
  }

  /** Every request of the message was permitted before any was recorded, and each recorded. */
  ghost predicate Cleared(log: seq<Event>, h: nat, body: Body) {
    body.Message? && forall i :: 0 <= i < |body.requests| ==> WrittenAfterPermits(log, h, i, body)
  }

  ghost predicate WrittenAfterPermits(log: seq<Event>, h: nat, i: nat, body: Body)
    requires body.Message?
  {
    exists b :: 0 <= b < |log| && log[b] == Written(h, i) && AllPermitted(log[..b], h, body, |body.requests|)
  }

  ghost predicate AllPermitted(log: seq<Event>, h: nat, body: Body, n: nat)
    requires body.Message?
  {
    forall j :: 0 <= j < n && j < |body.requests| ==> Happened(log, Permitted(h, j, body.requests[j]))
  }

  /** Where a flight stands, as the log tells it. */
  ghost predicate InStep(log: seq<Event>, h: nat, f: Flight) {
    match f.phase
    case Deciding(n) => f.body.Message? && n <= |f.body.requests| && AllPermitted(log, h, f.body, n)
    case Recording(n) =>
      && f.body.Message? && n <= |f.body.requests| && AllPermitted(log, h, f.body, |f.body.requests|)
      && forall i :: 0 <= i < n ==> WrittenAfterPermits(log, h, i, f.body)
    case Ended(_) => true
  }

  /** A forwarded message was a response, or was cleared beforehand. */
  ghost predicate ForwardedSafely(log: seq<Event>, k: nat)
    requires k < |log| && log[k].Forwarded?
  {
    log[k].body.IsResponse() || Cleared(log[..k], log[k].h, log[k].body)
  }

  ghost predicate Safe(s: State) {
    && (forall h :: h in s.flights ==> InStep(s.log, h, s.flights[h]))
    && (forall k :: 0 <= k < |s.log| && s.log[k].Forwarded? ==> ForwardedSafely(s.log, k))
  }

  lemma AllPermittedStays(log: seq<Event>, more: seq<Event>, h: nat, body: Body, n: nat)
    requires body.Message? && AllPermitted(log, h, body, n)
    ensures AllPermitted(log + more, h, body, n)
  {
    forall j | 0 <= j < n && j < |body.requests|
      ensures Happened(log + more, Permitted(h, j, body.requests[j]))
    {
      assert Happened(log, Permitted(h, j, body.requests[j]));
    }
  }

  lemma WrittenStays(log: seq<Event>, more: seq<Event>, h: nat, i: nat, body: Body)
    requires body.Message? && WrittenAfterPermits(log, h, i, body)
    ensures WrittenAfterPermits(log + more, h, i, body)
  {
    hide AllPermitted;
    var b :| 0 <= b < |log| && log[b] == Written(h, i) && AllPermitted(log[..b], h, body, |body.requests|);
    assert (log + more)[b] == log[b] && (log + more)[..b] == log[..b];
  }

  lemma InStepStays(log: seq<Event>, more: seq<Event>, h: nat, f: Flight)
    requires InStep(log, h, f)
    ensures InStep(log + more, h, f)
  {
    hide AllPermitted;
    hide WrittenAfterPermits;
    match f.phase
    case Deciding(n) => AllPermittedStays(log, more, h, f.body, n);
    case Recording(n) =>
      AllPermittedStays(log, more, h, f.body, |f.body.requests|);
      forall i | 0 <= i < n
        ensures WrittenAfterPermits(log + more, h, i, f.body)
      {
        WrittenStays(log, more, h, i, f.body);
      }
    case Ended(_) =>
  }

  lemma ForwardedStays(log: seq<Event>, more: seq<Event>)
    requires forall k :: 0 <= k < |log| && log[k].Forwarded? ==> ForwardedSafely(log, k)
    ensures forall k :: 0 <= k < |log| && (log + more)[k].Forwarded? ==> ForwardedSafely(log + more, k)
  {
    hide Cleared;
    forall k | 0 <= k < |log| && (log + more)[k].Forwarded?
      ensures ForwardedSafely(log + more, k)
    {
      assert (log + more)[k] == log[k] && (log + more)[..k] == log[..k];
      assert ForwardedSafely(log, k);
    }
  }

  /** A step that moves one flight and adds to the log keeps everything else. */
  lemma OneFlightMoves(s: State, u: State, h: nat, more: seq<Event>)
    requires Safe(s) && u.log == s.log + more && u.flights.Keys == s.flights.Keys + {h}
    requires forall g :: g in s.flights && g != h ==> u.flights[g] == s.flights[g]
    requires InStep(u.log, h, u.flights[h])
    requires more == [] || (|more| == 1 && (more[0].Forwarded? ==> ForwardedSafely(u.log, |s.log|)))
    ensures Safe(u)
  {
    hide InStep;
    hide ForwardedSafely;
    forall g | g in u.flights
      ensures InStep(u.log, g, u.flights[g])
    {
      if g != h {
        InStepStays(s.log, more, g, s.flights[g]);
      }
    }
    ForwardedStays(s.log, more);
  }

  lemma NothingPermitted(log: seq<Event>, h: nat, body: Body)
    requires body.Message?
    ensures AllPermitted(log, h, body, 0)
  {
  }

  lemma ArriveKeeps(s: State, h: nat, body: Body)
    requires Safe(s) && Enabled(s, Arrive(h, body))
    ensures Safe(Arriving(s, h, body))
  {
    hide InStep;
    hide ForwardedSafely;
    hide Safe;
    var arrived := s.(flights := s.flights[h := Flight(body, Deciding(0))], log := s.log + [Arrived(h)]);
    var mid := if body.Malformed? then Arriving(s, h, body) else arrived;
    if body.Message? {
      NothingPermitted(mid.log, h, body);
    }
    StartInStep(mid.log, h, mid.flights[h]);
    OneFlightMoves(s, mid, h, [Arrived(h)]);
    if body.IsResponse() {
      var u := Arriving(s, h, body);
      StartInStep(u.log, h, u.flights[h]);
      ResponseIsSafe(u.log, |mid.log|);
      OneFlightMoves(mid, u, h, [Forwarded(h, body)]);
    }
  }

  lemma StartInStep(log: seq<Event>, h: nat, f: Flight)
    requires f.phase.Ended? || (f.body.Message? && f.phase == Deciding(0))
    ensures InStep(log, h, f)
  {
  }

  lemma ResponseIsSafe(log: seq<Event>, k: nat)
    requires k < |log| && log[k].Forwarded? && log[k].body.IsResponse()
    ensures ForwardedSafely(log, k)
  {
  }

  lemma DecidingKeeps(cfg: Config, s: State, h: nat, authorizer: Query -> Decision)
    requires Safe(s) && Enabled(s, DecideNext(h, authorizer))
    ensures Safe(DecidingStep(cfg, s, h, authorizer))
  {
    hide Safe;
    hide AllPermitted;
    hide WrittenAfterPermits;
    hide Decide;
    hide ErrorReply;
    var u := DecidingStep(cfg, s, h, authorizer);
    var f := s.flights[h];
    InStepOf(s, h);
    var more := u.log[|s.log|..];
    assert u.log == s.log + more;
    if u.flights[h].phase.Deciding? {
      OneMorePermitted(s.log, h, f.body, f.phase.i);
    } else if u.flights[h].phase.Recording? {
      assert f.phase.i == |f.body.requests| && u.log == s.log;
    }
    OneFlightMoves(s, u, h, more);
  }

  lemma InStepOf(s: State, h: nat)
    requires Safe(s) && h in s.flights
    ensures InStep(s.log, h, s.flights[h])
  {
  }

  lemma OneMorePermitted(log: seq<Event>, h: nat, body: Body, i: nat)
    requires body.Message? && i < |body.requests| && AllPermitted(log, h, body, i)
    ensures AllPermitted(log + [Permitted(h, i, body.requests[i])], h, body, i + 1)
  {
    var e := Permitted(h, i, body.requests[i]);
    AllPermittedStays(log, [e], h, body, i);
    assert (log + [e])[|log|] == e;
    assert Happened(log + [e], e);
  }

  lemma RecordingKeeps(cfg: Config, s: State, h: nat, written: bool)
    requires Safe(s) && Enabled(s, RecordNext(h, written))
    ensures Safe(RecordingStep(s, h, written))
  {
    hide Safe;
    hide AllPermitted;
    hide WrittenAfterPermits;
    hide ErrorReply;
    var u := RecordingStep(s, h, written);
    var f := s.flights[h];
    InStepOf(s, h);
    var more := u.log[|s.log|..];
    assert u.log == s.log + more;
    if u.flights[h].phase.Recording? {
      AllPermittedStays(s.log, more, h, f.body, |f.body.requests|);
      OneMoreWritten(s.log, h, f.body, f.phase.i);
    } else if more != [] {
      assert more == [Forwarded(h, f.body)] && u.log[..|s.log|] == s.log;
    }
    OneFlightMoves(s, u, h, more);
  }

  lemma OneMoreWritten(log: seq<Event>, h: nat, body: Body, i: nat)
    requires body.Message? && i < |body.requests| && AllPermitted(log, h, body, |body.requests|)
    requires forall j :: 0 <= j < i ==> WrittenAfterPermits(log, h, j, body)
    ensures forall j :: 0 <= j < i + 1 ==> WrittenAfterPermits(log + [Written(h, i)], h, j, body)
  {
    hide AllPermitted;
    hide WrittenAfterPermits;
    var e := Written(h, i);
    forall j | 0 <= j < i + 1
      ensures WrittenAfterPermits(log + [e], h, j, body)
    {
      if j < i {
        WrittenStays(log, [e], h, j, body);
      } else {
        JustWritten(log, h, i, body);
      }
    }
  }

  lemma JustWritten(log: seq<Event>, h: nat, i: nat, body: Body)
    requires body.Message? && AllPermitted(log, h, body, |body.requests|)
    ensures WrittenAfterPermits(log + [Written(h, i)], h, i, body)
  {
    hide AllPermitted;
    var whole := log + [Written(h, i)];
    assert whole[|log|] == Written(h, i) && whole[..|log|] == log;
  }

  /** A step that moves no flight keeps the rest. */
  lemma NoFlightMoves(s: State, u: State, more: seq<Event>)
    requires Safe(s) && u.log == s.log + more && u.flights == s.flights
    requires more == [] || (|more| == 1 && !more[0].Forwarded?)
    ensures Safe(u)
  {
    hide InStep;
    hide ForwardedSafely;
    forall g | g in u.flights
      ensures InStep(u.log, g, u.flights[g])
    {
      InStepStays(s.log, more, g, s.flights[g]);
    }
    ForwardedStays(s.log, more);
  }

  lemma StepKeeps(cfg: Config, s: State, a: Action)
    requires Safe(s) && Enabled(s, a)
    ensures Safe(Next(cfg, s, a))
  {
    hide Safe;
    hide I.ObserveIn;
    match a
    case Arrive(h, body) => ArriveKeeps(s, h, body);
    case DecideNext(h, authorizer) => DecidingKeeps(cfg, s, h, authorizer);
    case RecordNext(h, written) => RecordingKeeps(cfg, s, h, written);
    case Claim(_) => NoFlightMoves(s, Next(cfg, s, a), []);
    case Inspect(_, _) => NoFlightMoves(s, Next(cfg, s, a), Next(cfg, s, a).log[|s.log|..]);
    case Freeze => NoFlightMoves(s, Next(cfg, s, a), Next(cfg, s, a).log[|s.log|..]);
  }

  lemma {:induction false} RunKeeps(cfg: Config, s: State, run: seq<Action>)
    requires Safe(s) && IsRun(cfg, s, run)
    ensures Safe(After(cfg, s, run))
    decreases |run|
  {
    hide Safe;
    hide Next;
    hide Enabled;
    if run == [] {
    } else {
      StepKeeps(cfg, s, run[0]);
      RunKeeps(cfg, Next(cfg, s, run[0]), run[1..]);
    }
  }

  /** Over any authorizer and any failing sink, in every interleaving: a message that reaches the
      server, unless it is a client's response, had each of its requests permitted and then each
      of its requests recorded before it went. */
  lemma ForwardedOnlyIfCleared(cfg: Config, s: State, run: seq<Action>, k: nat)
    requires Initial(s) && IsRun(cfg, s, run)
    requires k < |After(cfg, s, run).log| && After(cfg, s, run).log[k].Forwarded?
    ensures var log := After(cfg, s, run).log;
            log[k].body.IsResponse() || Cleared(log[..k], log[k].h, log[k].body)
    ensures var log := After(cfg, s, run).log;
            (exists r :: r in RequestsOf(log[k].body) && r.method_ == TOOLS_CALL) ==>
              Cleared(log[..k], log[k].h, log[k].body)
  {
    hide IsRun;
    hide After;
    hide Cleared;
    RunKeeps(cfg, s, run);
    assert ForwardedSafely(After(cfg, s, run).log, k);
  }

  // ---------------------------------------------------------------- whose permission it was

  /** What the authorizer is asked about a request that carries authority. */
  function Question(cfg: Config, r: Request): Query {
    if r.method_ == "tools/call" && r.name != "" then
      Query("mcp.tool." + r.name, r.name, if r.name in cfg.riskByTool then cfg.riskByTool[r.name] else cfg.defaultRisk)
    else if r.method_ == "tools/call" then Query("mcp.method.tools.call", "tools/call", cfg.defaultRisk)
    else if r.uri != "" then Query("mcp.resource.read", r.uri, cfg.defaultRisk)
    else Query("mcp.method.resources.read", "resources/read", cfg.defaultRisk)
  }

  /** The request may go: it carries no authority, or the authorizer allows it, and if it is a tool
      call the server's tools are not frozen. */
  predicate Granted(cfg: Config, frozen: bool, r: Request, authorizer: Query -> Decision) {
    && (r.method_ == "tools/call" ==> !frozen)
    && (r.method_ == "tools/call" || r.method_ == "resources/read" ==> authorizer(Question(cfg, r)) == Allow)
  }

  lemma MethodNames()
    ensures ReplaceAll("tools/call", "/", ".") == "tools.call"
    ensures ReplaceAll("resources/read", "/", ".") == "resources.read"
  {
    ReplaceAcross("tools", '/', "call", '.');
    ReplaceNothing("call", '/', '.');
    ReplaceAcross("resources", '/', "read", '.');
    ReplaceNothing("read", '/', '.');
    assert "tools" + ['/'] + "call" == "tools/call" && "tools" + ['.'] + "call" == "tools.call";
    assert "resources" + ['/'] + "read" == "resources/read" && "resources" + ['.'] + "read" == "resources.read";
  }

  lemma DecideIff(cfg: Config, frozen: bool, r: Request, authorizer: Query -> Decision)
    ensures Decide(cfg, frozen, r, authorizer) == Allow <==> Granted(cfg, frozen, r, authorizer)
    ensures !Granted(cfg, frozen, r, authorizer) ==>
              Decide(cfg, frozen, r, authorizer)
              == if r.method_ == "tools/call" && frozen then Deny("tool_inventory_changed") else authorizer(Question(cfg, r))
  {
    hide ReplaceAll;
    MethodNames();
    if r.method_ == TOOLS_CALL || r.method_ == RESOURCES_READ {
      assert "mcp.method." + "tools.call" == "mcp.method.tools.call";
      assert "mcp.method." + "resources.read" == "mcp.method.resources.read";
      assert TOOLS_CALL[0] == 't' && RESOURCES_READ[0] == 'r';
      assert Query(Describe(r).0, Describe(r).1, RiskOf(cfg, r)) == Question(cfg, r);
    }
  }

  /** A request is permitted exactly if it is granted; otherwise its message is refused. */
  lemma DecisionIs(cfg: Config, s: State, h: nat, authorizer: Query -> Decision)
    requires Enabled(s, DecideNext(h, authorizer)) && s.flights[h].phase.i < |s.flights[h].body.requests|
    ensures var (i, u) := (s.flights[h].phase.i, Next(cfg, s, DecideNext(h, authorizer)));
            var r := s.flights[h].body.requests[i];
            if Granted(cfg, s.frozen, r, authorizer) then
              u == s.(flights := s.flights[h := s.flights[h].(phase := Deciding(i + 1))], log := s.log + [Permitted(h, i, r)])
            else
              u.log == s.log && u.denied == s.denied + 1 && u.flights[h].phase.Ended? && !u.flights[h].phase.verdict.forward
  {
    hide Decide;
    hide Granted;
    hide ErrorReply;
    DecideIff(cfg, s.frozen, s.flights[h].body.requests[s.flights[h].phase.i], authorizer);
  }

  /** A request that the sink wrote is counted if it calls a tool and remembered if it lists them; one
      that it could not write ends its message, refused. */
  lemma RecordIs(cfg: Config, s: State, h: nat, written: bool)
    requires Enabled(s, RecordNext(h, written)) && s.flights[h].phase.i < |s.flights[h].body.requests|
    ensures var (i, u) := (s.flights[h].phase.i, Next(cfg, s, RecordNext(h, written)));
            var r := s.flights[h].body.requests[i];
            if written then
              u == s.(flights := s.flights[h := s.flights[h].(phase := Recording(i + 1))], log := s.log + [Written(h, i)],
                      allowed := s.allowed + if r.method_ == "tools/call" && r.name != "" then 1 else 0,
                      pendingLists := s.pendingLists + if r.method_ == "tools/list" && r.id != "" then {r.id} else {})
            else
              u.log == s.log && u.denied == s.denied + 1 && u.flights[h].phase.Ended? && !u.flights[h].phase.verdict.forward
  {
    hide ErrorReply;
  }

  /** The step that made an event of the log: a decision that granted the request. */
  ghost predicate MadeByGrant(cfg: Config, t: State, a: Action, e: Event) {
    && e.Permitted? && a.DecideNext? && a.h == e.h && Enabled(t, a) && t.flights[e.h].phase == Deciding(e.i)
    && e.i < |t.flights[e.h].body.requests| && t.flights[e.h].body.requests[e.i] == e.request
    && Granted(cfg, t.frozen, e.request, a.authorizer)
  }

  /** Or a record that the sink wrote. */
  ghost predicate MadeByWrite(t: State, a: Action, e: Event) {
    e.Written? && a == RecordNext(e.h, true) && Enabled(t, a) && t.flights[e.h].phase == Recording(e.i)
  }

  lemma StepMakes(cfg: Config, s: State, a: Action, k: nat)
    requires Enabled(s, a) && |s.log| <= k < |Next(cfg, s, a).log|
    ensures s.log <= Next(cfg, s, a).log
    ensures var e := Next(cfg, s, a).log[k];
            (e.Permitted? ==> MadeByGrant(cfg, s, a, e)) && (e.Written? ==> MadeByWrite(s, a, e))
  {
    hide I.ObserveIn;
    hide ErrorReply;
    hide Decide;
    hide Granted;
    if a.DecideNext? && s.flights[a.h].phase.i < |s.flights[a.h].body.requests| {
      DecideIff(cfg, s.frozen, s.flights[a.h].body.requests[s.flights[a.h].phase.i], a.authorizer);
    }
  }

  lemma LogGrows(cfg: Config, s: State, a: Action)
    requires Enabled(s, a)
    ensures s.log <= Next(cfg, s, a).log
  {
    hide I.ObserveIn;
    hide ErrorReply;
    hide Decide;
  }

  /** Every permission and every record in the log was made by a step of the run. */
  lemma {:induction false} MadeByStep(cfg: Config, s: State, run: seq<Action>, k: nat) returns (n: nat)
    requires IsRun(cfg, s, run) && |s.log| <= k < |After(cfg, s, run).log|
    ensures n < |run| && IsRun(cfg, s, run[..n])
    ensures var (e, t) := (After(cfg, s, run).log[k], After(cfg, s, run[..n]));
            (e.Permitted? ==> MadeByGrant(cfg, t, run[n], e)) && (e.Written? ==> MadeByWrite(t, run[n], e))
    decreases |run|
  {
    hide Next;
    hide Enabled;
    hide MadeByGrant;
    hide MadeByWrite;
    var u := Next(cfg, s, run[0]);
    LogGrows(cfg, s, run[0]);
    RunGrows(cfg, u, run[1..]);
    if k < |u.log| {
      n := 0;
      StepMakes(cfg, s, run[0], k);
      assert run[..0] == [];
    } else {
      var m := MadeByStep(cfg, u, run[1..], k);
      n := m + 1;
      assert run[..n][0] == run[0] && run[..n][1..] == run[1..][..m];
    }
  }

  lemma {:induction false} RunGrows(cfg: Config, s: State, run: seq<Action>)
    requires IsRun(cfg, s, run)
    ensures s.log <= After(cfg, s, run).log
    decreases |run|
  {
    hide Next;
    hide Enabled;
    if run == [] {
    } else {
      LogGrows(cfg, s, run[0]);
      RunGrows(cfg, Next(cfg, s, run[0]), run[1..]);
    }
  }

  /** Every request of a forwarded message was granted by the authorizer of a step that asked about
      it, and written by the sink: whatever interleaves, nothing goes on the enforcer's word alone. */
  lemma ForwardedIsGranted(cfg: Config, s: State, run: seq<Action>, k: nat, i: nat) returns (n: nat, m: nat)
    requires Initial(s) && IsRun(cfg, s, run)
    requires k < |After(cfg, s, run).log| && After(cfg, s, run).log[k].Forwarded?
    requires var body := After(cfg, s, run).log[k].body; !body.IsResponse() && i < |RequestsOf(body)|
    ensures n < |run| && m < |run| && IsRun(cfg, s, run[..n]) && IsRun(cfg, s, run[..m])
    ensures var e := After(cfg, s, run).log[k];
            && MadeByGrant(cfg, After(cfg, s, run[..n]), run[n], Permitted(e.h, i, RequestsOf(e.body)[i]))
            && MadeByWrite(After(cfg, s, run[..m]), run[m], Written(e.h, i))
  {
    hide IsRun;
    hide After;
    hide MadeByGrant;
    hide MadeByWrite;
    hide AllPermitted;
    ForwardedOnlyIfCleared(cfg, s, run, k);
    var log := After(cfg, s, run).log;
    var (h, body) := (log[k].h, log[k].body);
    var p := PermitOf(log[..k], h, body, i);
    assert WrittenAfterPermits(log[..k], h, i, body);
    var w :| 0 <= w < k && log[..k][w] == Written(h, i) && AllPermitted(log[..k][..w], h, body, |body.requests|);
    n := MadeByStep(cfg, s, run, p);
    m := MadeByStep(cfg, s, run, w);
  }

  function RequestsOf(body: Body): (r: seq<Request>)
    ensures body.Message? ==> r == body.requests
  {
    if body.Message? then body.requests else []
  }

  // ---------------------------------------------------------------- frozen for good

  ghost predicate ToolCallPermitted(e: Event) {
    e.Permitted? && e.request.method_ == TOOLS_CALL
  }

  lemma StepStaysFrozen(cfg: Config, s: State, a: Action)
    requires Enabled(s, a) && s.frozen
    ensures Next(cfg, s, a).frozen && s.log <= Next(cfg, s, a).log
    ensures forall k :: |s.log| <= k < |Next(cfg, s, a).log| ==> !ToolCallPermitted(Next(cfg, s, a).log[k])
  {
    hide I.ObserveIn;
    hide ErrorReply;
    hide Describe;
  }

  /** Once frozen, always frozen, and no tool call is permitted again. */
  lemma {:induction false} NoPermitOnceFrozen(cfg: Config, s: State, run: seq<Action>)
    requires IsRun(cfg, s, run) && s.frozen
    ensures After(cfg, s, run).frozen && s.log <= After(cfg, s, run).log
    ensures forall k :: |s.log| <= k < |After(cfg, s, run).log| ==> !ToolCallPermitted(After(cfg, s, run).log[k])
    decreases |run|
  {
    hide Next;
    hide Enabled;
    if run == [] {
    } else {
      var u := Next(cfg, s, run[0]);
      StepStaysFrozen(cfg, s, run[0]);
      NoPermitOnceFrozen(cfg, u, run[1..]);
      var w := After(cfg, s, run);
      assert w.log[..|u.log|] == u.log;
      assert forall k :: |s.log| <= k < |u.log| ==> w.log[k] == u.log[k];
    }
  }

  /** The flights a log speaks of are the ones that have arrived. */
  ghost predicate Known(s: State) {
    forall k :: 0 <= k < |s.log| && s.log[k].Permitted? ==> s.log[k].h in s.flights
  }

  lemma KnowsMore(s: State, u: State, more: seq<Event>)
    requires Known(s) && s.flights.Keys <= u.flights.Keys && u.log == s.log + more
    requires forall k :: 0 <= k < |more| && more[k].Permitted? ==> more[k].h in u.flights
    ensures Known(u)
  {
    forall k | 0 <= k < |u.log| && u.log[k].Permitted?
      ensures u.log[k].h in u.flights
    {
      if k < |s.log| {
        assert s.log[k] == u.log[k];
      } else {
        assert more[k - |s.log|] == u.log[k];
      }
    }
  }

  lemma ArriveKnows(s: State, h: nat, body: Body)
    requires Known(s) && Enabled(s, Arrive(h, body))
    ensures Known(Arriving(s, h, body)) && s.flights.Keys <= Arriving(s, h, body).flights.Keys
  {
    hide Known;
    var u := Arriving(s, h, body);
    if body.IsResponse() {
      assert u.log == s.log + [Arrived(h), Forwarded(h, body)];
      KnowsMore(s, u, [Arrived(h), Forwarded(h, body)]);
    } else {
      assert u.log == s.log + [Arrived(h)];
      KnowsMore(s, u, [Arrived(h)]);
    }
  }

  lemma FlightKnows(cfg: Config, s: State, a: Action)
    requires Known(s) && Enabled(s, a) && (a.DecideNext? || a.RecordNext?)
    ensures Known(Next(cfg, s, a)) && s.flights.Keys <= Next(cfg, s, a).flights.Keys
  {
    hide Known;
    hide ErrorReply;
    hide Decide;
    var u := Next(cfg, s, a);
    var more := u.log[|s.log|..];
    assert u.log == s.log + more;
    KnowsMore(s, u, more);
  }

  lemma StepKnows(cfg: Config, s: State, a: Action)
    requires Enabled(s, a) && Known(s)
    ensures Known(Next(cfg, s, a)) && s.flights.Keys <= Next(cfg, s, a).flights.Keys
  {
    hide I.ObserveIn;
    hide DecidingStep;
    hide RecordingStep;
    hide Known;
    match a
    case Arrive(h, body) => ArriveKnows(s, h, body);
    case DecideNext(_, _) => FlightKnows(cfg, s, a);
    case RecordNext(_, _) => FlightKnows(cfg, s, a);
    case _ => KnowsMore(s, Next(cfg, s, a), Next(cfg, s, a).log[|s.log|..]);
  }

  lemma {:induction false} RunKnows(cfg: Config, s: State, run: seq<Action>)
    requires IsRun(cfg, s, run) && Known(s)
    ensures Known(After(cfg, s, run))
    decreases |run|
  {
    hide Next;
    hide Enabled;
    hide Known;
    if run == [] {
    } else {
      StepKnows(cfg, s, run[0]);
      RunKnows(cfg, Next(cfg, s, run[0]), run[1..]);
    }
  }

  lemma {:induction false} RunAppend(cfg: Config, s: State, first: seq<Action>, second: seq<Action>)
    requires IsRun(cfg, s, first) && IsRun(cfg, After(cfg, s, first), second)
    ensures IsRun(cfg, s, first + second) && After(cfg, s, first + second) == After(cfg, After(cfg, s, first), second)
    decreases |first|
  {
    hide Next;
    hide Enabled;
    if first == [] {
      assert first + second == second;
    } else {
      assert (first + second)[0] == first[0] && (first + second)[1..] == first[1..] + second;
      RunAppend(cfg, Next(cfg, s, first[0]), first[1..], second);
    }
  }

  /** The rug pull is stopped: from the moment the enforcer is frozen, no message that arrives and
      holds a tools/call is ever forwarded. */
  lemma FrozenForwardsNoToolCall(cfg: Config, s: State, before: seq<Action>, since: seq<Action>, k: nat, i: nat)
    requires Initial(s) && IsRun(cfg, s, before) && After(cfg, s, before).frozen
    requires IsRun(cfg, After(cfg, s, before), since)
    requires var log := After(cfg, After(cfg, s, before), since).log;
             && k < |log| && log[k].Forwarded? && log[k].h !in After(cfg, s, before).flights
             && i < |RequestsOf(log[k].body)|
    ensures RequestsOf(After(cfg, After(cfg, s, before), since).log[k].body)[i].method_ != TOOLS_CALL
  {
    hide IsRun;
    hide After;
    hide Cleared;
    hide AllPermitted;
    var mid := After(cfg, s, before);
    var end := After(cfg, mid, since);
    var h, body := end.log[k].h, end.log[k].body;
    RunAppend(cfg, s, before, since);
    RunKeeps(cfg, s, before + since);
    RunKnows(cfg, s, before);
    NoPermitOnceFrozen(cfg, mid, since);
    assert ForwardedSafely(end.log, k);
    if !body.IsResponse() {
      var a := PermitOf(end.log[..k], h, body, i);
      assert !ToolCallPermitted(end.log[a]);
    }
  }

  lemma PermitOf(log: seq<Event>, h: nat, body: Body, i: nat) returns (a: nat)
    requires Cleared(log, h, body) && i < |body.requests|
    ensures a < |log| && log[a] == Permitted(h, i, body.requests[i])
  {
    assert WrittenAfterPermits(log, h, i, body);
    var b :| 0 <= b < |log| && log[b] == Written(h, i) && AllPermitted(log[..b], h, body, |body.requests|);
    assert Happened(log[..b], Permitted(h, i, body.requests[i]));
    var c :| 0 <= c < b && log[..b][c] == Permitted(h, i, body.requests[i]);
    a := c;
  }

  // ---------------------------------------------------------------- when it freezes

  /** The last list the log shows inspected, if any. */
  function LastInspected(log: seq<Event>): Option<seq<I.Tool>> {
    if log == [] then None
    else if log[|log| - 1].Inspected? then Some(log[|log| - 1].tools)
    else LastInspected(log[..|log| - 1])
  }

  /** The inspection at k found tools whose digest differs from those of the one before it. */
  ghost predicate MarkedRight(cfg: Config, log: seq<Event>, k: nat)
    requires k < |log| && log[k].Inspected?
  {
    && log[k].tools != []
    && (log[k].changed <==>
          LastInspected(log[..k]).Some?
          && cfg.sha(I.Digested(LastInspected(log[..k]).value)) != cfg.sha(I.Digested(log[k].tools)))
  }

  ghost predicate SomeChanged(log: seq<Event>) {
    exists k :: 0 <= k < |log| && log[k].Inspected? && log[k].changed
  }

  /** The inventory is the digest of the last list inspected, and a change found is acted on or
      about to be. */
  ghost predicate Watching(cfg: Config, s: State) {
    && (cfg.backend in s.table <==> LastInspected(s.log).Some?)
    && (LastInspected(s.log).Some? ==>
          LastInspected(s.log).value != [] && s.table[cfg.backend] == cfg.sha(I.Digested(LastInspected(s.log).value)))
    && (forall k :: 0 <= k < |s.log| && s.log[k].Inspected? ==> MarkedRight(cfg, s.log, k))
    && (cfg.pinTools && SomeChanged(s.log) ==> s.frozen || s.changing > 0)
    && (s.frozen ==> cfg.pinTools && SomeChanged(s.log))
    && (s.changing > 0 ==> SomeChanged(s.log))
  }

  lemma MarksStay(cfg: Config, log: seq<Event>, more: seq<Event>)
    requires forall k :: 0 <= k < |log| && log[k].Inspected? ==> MarkedRight(cfg, log, k)
    ensures forall k :: 0 <= k < |log| && (log + more)[k].Inspected? ==> MarkedRight(cfg, log + more, k)
    ensures SomeChanged(log) ==> SomeChanged(log + more)
  {
    hide I.Digested;
    hide LastInspected;
    forall k | 0 <= k < |log| && (log + more)[k].Inspected?
      ensures MarkedRight(cfg, log + more, k)
    {
      assert (log + more)[k] == log[k] && (log + more)[..k] == log[..k];
      assert MarkedRight(cfg, log, k);
    }
    if SomeChanged(log) {
      var k :| 0 <= k < |log| && log[k].Inspected? && log[k].changed;
      assert (log + more)[k] == log[k];
    }
  }

  lemma LastAfter(log: seq<Event>, e: Event)
    ensures LastInspected(log + [e]) == if e.Inspected? then Some(e.tools) else LastInspected(log)
  {
    assert (log + [e])[..|log|] == log;
  }

  /** A step that inspects nothing keeps the watch. */
  lemma OtherStepWatches(cfg: Config, s: State, u: State, more: seq<Event>)
    requires Watching(cfg, s) && u.log == s.log + more && u.table == s.table
    requires more == [] || (|more| == 1 && !more[0].Inspected?)
    requires (u.frozen == s.frozen && u.changing == s.changing)
             || (u.frozen == (s.frozen || cfg.pinTools) && s.changing > 0 && u.changing == s.changing - 1)
    ensures Watching(cfg, u)
  {
    hide I.Digested;
    hide LastInspected;
    hide MarkedRight;
    MarksStay(cfg, s.log, more);
    if more == [] {
      assert u.log == s.log;
    } else {
      assert more == [more[0]];
      LastAfter(s.log, more[0]);
      assert u.log[|s.log|] == more[0];
      if SomeChanged(u.log) {
        var k :| 0 <= k < |u.log| && u.log[k].Inspected? && u.log[k].changed;
        assert k < |s.log| && s.log[k] == u.log[k];
      }
    }
  }

  lemma InspectWatches(cfg: Config, s: State, requested: bool, listing: I.Listing)
    requires Watching(cfg, s) && (requested || s.claimed > 0)
    ensures Watching(cfg, InspectingStep(cfg, s, requested, listing))
  {
    hide I.Digested;
    hide LastInspected;
    hide MarkedRight;
    hide SortStrings;
    var u := InspectingStep(cfg, s, requested, listing);
    if u.log == s.log {
      assert u.log == s.log + [];
      OtherStepWatches(cfg, s, u, []);
    } else {
      var e := u.log[|s.log|];
      assert u.log == s.log + [e] && e.Inspected?;
      MarksStay(cfg, s.log, [e]);
      LastAfter(s.log, e);
      assert u.log[..|s.log|] == s.log;
      InspectedRight(cfg, s, u, e);
      assert e.changed ==> SomeChanged(u.log);
      if SomeChanged(u.log) && !e.changed {
        var k :| 0 <= k < |u.log| && u.log[k].Inspected? && u.log[k].changed;
        assert k < |s.log| && s.log[k] == u.log[k];
      }
    }
  }

  lemma InspectedRight(cfg: Config, s: State, u: State, e: Event)
    requires Watching(cfg, s) && u.log == s.log + [e] && e.Inspected? && e.tools != []
    requires e.changed <==> cfg.backend in s.table && s.table[cfg.backend] != cfg.sha(I.Digested(e.tools))
    ensures MarkedRight(cfg, u.log, |s.log|)
  {
    hide I.Digested;
    hide LastInspected;
    assert u.log[..|s.log|] == s.log;
  }

  lemma StepWatches(cfg: Config, s: State, a: Action)
    requires Watching(cfg, s) && Enabled(s, a)
    ensures Watching(cfg, Next(cfg, s, a))
  {
    hide I.ObserveIn;
    hide ErrorReply;
    hide Decide;
    hide Watching;
    match a
    case Inspect(requested, listing) => InspectWatches(cfg, s, requested, listing);
    case Arrive(h, body) => ArriveWatches(cfg, s, h, body);
    case _ => OtherStepWatches(cfg, s, Next(cfg, s, a), Next(cfg, s, a).log[|s.log|..]);
  }

  lemma ArriveWatches(cfg: Config, s: State, h: nat, body: Body)
    requires Watching(cfg, s) && Enabled(s, Arrive(h, body))
    ensures Watching(cfg, Arriving(s, h, body))
  {
    hide Watching;
    var mid := s.(flights := s.flights[h := Flight(body, Deciding(0))], log := s.log + [Arrived(h)]);
    OtherStepWatches(cfg, s, mid, [Arrived(h)]);
    var u := Arriving(s, h, body);
    if body.IsResponse() {
      OtherStepWatches(cfg, mid, u, [Forwarded(h, body)]);
    } else {
      assert u.log == mid.log + [];
      OtherStepWatches(cfg, mid, u, []);
    }
  }

  lemma {:induction false} RunWatches(cfg: Config, s: State, run: seq<Action>)
    requires Watching(cfg, s) && IsRun(cfg, s, run)
    ensures Watching(cfg, After(cfg, s, run))
    decreases |run|
  {
    hide Watching;
    hide Next;
    hide Enabled;
    if run == [] {
    } else {
      StepWatches(cfg, s, run[0]);
      RunWatches(cfg, Next(cfg, s, run[0]), run[1..]);
    }
  }

  /** The inspection at k advertises other tools than the one before it, as multisets of name,
      description and trimmed schema. */
  ghost predicate Redefines(log: seq<Event>, k: nat) {
    && k < |log| && log[k].Inspected? && LastInspected(log[..k]).Some?
    && multiset(I.Meanings(log[k].tools)) != multiset(I.Meanings(LastInspected(log[..k]).value))
  }

  /** Two different lists hash alike. */
  ghost predicate Collides(cfg: Config, log: seq<Event>, k: nat) {
    && k < |log| && log[k].Inspected? && LastInspected(log[..k]).Some?
    && var (a, b) := (LastInspected(log[..k]).value, log[k].tools);
       I.Digested(a) != I.Digested(b) && cfg.sha(I.Digested(a)) == cfg.sha(I.Digested(b))
  }

  lemma {:induction false} LastNonEmpty(cfg: Config, log: seq<Event>)
    requires forall k :: 0 <= k < |log| && log[k].Inspected? ==> MarkedRight(cfg, log, k)
    requires LastInspected(log).Some?
    ensures LastInspected(log).value != []
    decreases |log|
  {
    hide I.Digested;
    var n := |log| - 1;
    if !log[n].Inspected? {
      var front := log[..n];
      forall k | 0 <= k < |front| && front[k].Inspected?
        ensures MarkedRight(cfg, front, k)
      {
        assert front[..k] == log[..k] && MarkedRight(cfg, log, k);
      }
      LastNonEmpty(cfg, front);
    }
  }

  lemma MarksOfPrefix(cfg: Config, log: seq<Event>, n: nat)
    requires n <= |log| && forall k :: 0 <= k < |log| && log[k].Inspected? ==> MarkedRight(cfg, log, k)
    ensures forall k :: 0 <= k < n && log[..n][k].Inspected? ==> MarkedRight(cfg, log[..n], k)
  {
    hide I.Digested;
    hide LastInspected;
    forall k | 0 <= k < n && log[..n][k].Inspected?
      ensures MarkedRight(cfg, log[..n], k)
    {
      assert log[..n][..k] == log[..k] && MarkedRight(cfg, log, k);
    }
  }

  /** With PinTools, once no inspection is in the middle of acting, the enforcer is frozen exactly
      when some inspected list redefined the tools of the one before it, short of a SHA-256
      collision between the two: listing the same tools in another order never freezes. */
  lemma FrozenIffRedefined(cfg: Config, s: State, run: seq<Action>)
    requires Initial(s) && IsRun(cfg, s, run) && cfg.pinTools && After(cfg, s, run).changing == 0
    requires forall k :: !Collides(cfg, After(cfg, s, run).log, k)
    ensures After(cfg, s, run).frozen <==> exists k :: Redefines(After(cfg, s, run).log, k)
  {
    hide IsRun;
    hide After;
    hide I.Digested;
    hide I.Meanings;
    hide LastInspected;
    hide MarkedRight;
    var u := After(cfg, s, run);
    NothingWatched(cfg, s);
    RunWatches(cfg, s, run);
    forall k | 0 <= k < |u.log| && u.log[k].Inspected?
      ensures u.log[k].changed <==> Redefines(u.log, k)
    {
      assert !Collides(cfg, u.log, k);
      ChangedIffRedefines(cfg, u.log, k);
    }
    if u.frozen {
      var k :| 0 <= k < |u.log| && u.log[k].Inspected? && u.log[k].changed;
      assert Redefines(u.log, k);
    }
    if k: nat :| Redefines(u.log, k) {
      assert u.log[k].changed;
    }
  }

  /** The rug pull end to end: with PinTools, once an inspected list has redefined the tools of the
      one before it and the inspection has acted, no message that arrives and holds a tools/call is
      ever forwarded, or the two lists are a SHA-256 collision. */
  lemma RugPullStopped(cfg: Config, s: State, before: seq<Action>, since: seq<Action>, r: nat, k: nat, i: nat)
    requires Initial(s) && IsRun(cfg, s, before) && cfg.pinTools
    requires After(cfg, s, before).changing == 0 && Redefines(After(cfg, s, before).log, r)
    requires IsRun(cfg, After(cfg, s, before), since)
    requires var log := After(cfg, After(cfg, s, before), since).log;
             && k < |log| && log[k].Forwarded? && log[k].h !in After(cfg, s, before).flights
             && i < |RequestsOf(log[k].body)|
    ensures Collides(cfg, After(cfg, s, before).log, r)
         || RequestsOf(After(cfg, After(cfg, s, before), since).log[k].body)[i].method_ != TOOLS_CALL
  {
    hide IsRun;
    hide After;
    hide Collides;
    hide Redefines;
    hide RequestsOf;
    if !Collides(cfg, After(cfg, s, before).log, r) {
      RedefinedFreezes(cfg, s, before, r);
      FrozenForwardsNoToolCall(cfg, s, before, since, k, i);
    }
  }

  lemma RedefinedFreezes(cfg: Config, s: State, run: seq<Action>, r: nat)
    requires Initial(s) && IsRun(cfg, s, run) && cfg.pinTools && After(cfg, s, run).changing == 0
    requires Redefines(After(cfg, s, run).log, r) && !Collides(cfg, After(cfg, s, run).log, r)
    ensures After(cfg, s, run).frozen
  {
    hide IsRun;
    hide After;
    hide I.Digested;
    hide I.Meanings;
    hide LastInspected;
    hide MarkedRight;
    NothingWatched(cfg, s);
    RunWatches(cfg, s, run);
    ChangedIffRedefines(cfg, After(cfg, s, run).log, r);
  }

  lemma NothingWatched(cfg: Config, s: State)
    requires Initial(s)
    ensures Watching(cfg, s)
  {
  }

  lemma ChangedIffRedefines(cfg: Config, log: seq<Event>, k: nat)
    requires k < |log| && log[k].Inspected? && !Collides(cfg, log, k)
    requires forall j :: 0 <= j < |log| && log[j].Inspected? ==> MarkedRight(cfg, log, j)
    ensures log[k].changed <==> Redefines(log, k)
  {
    hide I.Digested;
    hide I.Meanings;
    hide LastInspected;
    assert MarkedRight(cfg, log, k);
    if LastInspected(log[..k]).Some? {
      MarksOfPrefix(cfg, log, k);
      LastNonEmpty(cfg, log[..k]);
      I.DigestedIff(LastInspected(log[..k]).value, log[k].tools);
    }
  }

  // ---------------------------------------------------------------- the enforcer

  lemma OneMore(cfg: Config, s: State, run: seq<Action>, a: Action)
    requires IsRun(cfg, s, run) && Enabled(After(cfg, s, run), a)
    ensures IsRun(cfg, s, run + [a]) && After(cfg, s, run + [a]) == Next(cfg, After(cfg, s, run), a)
  {
    hide Next;
    hide Enabled;
    var u := After(cfg, s, run);
    assert [a][1..] == [];
    assert IsRun(cfg, Next(cfg, u, a), []);
    assert IsRun(cfg, u, [a]) && After(cfg, u, [a]) == Next(cfg, u, a);
    RunAppend(cfg, s, run, [a]);
  }

  class Enforcer {
    const cfg: Config
    var frozen: bool
    var table: map<string, string>
    var pendingLists: set<string>
    var allowed: nat
    var denied: nat
    var changes: nat
    ghost var claimed: nat
    ghost var changing: nat
    ghost var flights: map<nat, Flight>
    ghost var log: seq<Event>

    constructor (cfg: Config)
      ensures this.cfg == cfg && Initial(View())
    {
      this.cfg := cfg;
      frozen, table, pendingLists, allowed, denied, changes := false, map[], {}, 0, 0, 0;
      claimed, changing, flights, log := 0, 0, map[], [];
    }

    ghost function View(): State
      reads this
    {
      State(frozen, table, claimed, changing, pendingLists, allowed, denied, changes, flights, log)
    }

    predicate AllGranted(frozen: bool, rs: seq<Request>, authorizer: nat -> Query -> Decision) {
      forall i :: 0 <= i < |rs| ==> Granted(cfg, frozen, rs[i], authorizer(i))
    }

    /** Admit, run without interruption: what it does is a run of the steps above, and its verdict
        the one that run ends in. */
    method Admit(h: nat, body: Body, authorizer: nat -> Query -> Decision, sink: nat -> bool)
      returns (v: Verdict, ghost run: seq<Action>)
      requires Enabled(View(), Arrive(h, body))
      modifies this
      ensures IsRun(cfg, old(View()), run) && View() == After(cfg, old(View()), run)
      ensures h in flights && flights[h] == Flight(body, Ended(v))
      ensures v.forward <==> body.IsResponse() || (body.Message? && AllGranted(old(frozen), body.requests, authorizer)
                                                   && forall i :: 0 <= i < |body.requests| ==> sink(i))
    {
      hide IsRun;
      hide After;
      hide Next;
      ghost var s := View();
      run := [Arrive(h, body)];
      StartRun(s, Arrive(h, body));
      ghost var u := Next(cfg, s, Arrive(h, body));
      ArriveIs(s, h, body);
      flights, log := u.flights, u.log;
      if body.Malformed? {
        denied := denied + 1;
        return Verdict(false, Some(["null"])), run;
      }
      if !body.isBatch && body.requests[0].method_ == "" {
        return Verdict(true, None), run;
      }
      var refused: Option<Verdict>;
      refused, run := DecideAll(h, body, authorizer, s, run);
      if refused.Some? {
        return refused.value, run;
      }
      refused, run := RecordAll(h, body, sink, s, run);
      v := if refused.Some? then refused.value else Verdict(true, None);
    }

    lemma StartRun(s: State, a: Action)
      requires Enabled(s, a)
      ensures IsRun(cfg, s, [a]) && After(cfg, s, [a]) == Next(cfg, s, a)
    {
      NoRun(s);
      OneMore(cfg, s, [], a);
      assert [] + [a] == [a];
    }

    lemma NoRun(s: State)
      ensures IsRun(cfg, s, []) && After(cfg, s, []) == s
    {
    }

    lemma ArriveIs(s: State, h: nat, body: Body)
      requires Enabled(s, Arrive(h, body))
      ensures var u := Next(cfg, s, Arrive(h, body));
              && u == s.(flights := u.flights, log := u.log, denied := if body.Malformed? then s.denied + 1 else s.denied)
              && h in u.flights
              && u.flights[h] == Flight(body, if body.Malformed? then Ended(Verdict(false, Some(["null"])))
                                              else if body.IsResponse() then Ended(Verdict(true, None)) else Deciding(0))
    {
    }

    lemma DecideIs(s: State, h: nat, body: Body, i: nat, authorizer: Query -> Decision)
      requires Enabled(s, DecideNext(h, authorizer)) && s.flights[h] == Flight(body, Deciding(i))
      ensures var u := Next(cfg, s, DecideNext(h, authorizer));
              && u == s.(flights := u.flights, log := u.log, denied := u.denied) && h in u.flights
              && (i >= |body.requests| ==> u.flights[h] == Flight(body, Recording(0)) && u.denied == s.denied)
              && (i < |body.requests| ==>
                    match Decide(cfg, s.frozen, body.requests[i], authorizer)
                    case Allow => u.flights[h] == Flight(body, Deciding(i + 1)) && u.denied == s.denied
                    case Deny(_) =>
                      u.flights[h] == Flight(body, Ended(Verdict(false, ErrorReply(body.requests, body.isBatch, body.requests[i].id))))
                      && u.denied == s.denied + 1)
    {
      hide Decide;
      hide ErrorReply;
    }

    /** Admit's first loop: every request is decided before any is forwarded. */
    method DecideAll(h: nat, body: Body, authorizer: nat -> Query -> Decision, ghost s: State, ghost before: seq<Action>)
      returns (refused: Option<Verdict>, ghost run: seq<Action>)
      requires body.Message? && h in flights && flights[h] == Flight(body, Deciding(0))
      requires IsRun(cfg, s, before) && View() == After(cfg, s, before)
      modifies this
      ensures IsRun(cfg, s, run) && View() == After(cfg, s, run) && h in flights
      ensures flights[h] == Flight(body, if refused.Some? then Ended(refused.value) else Recording(0))
      ensures refused.None? <==> AllGranted(old(frozen), body.requests, authorizer)
      ensures refused.Some? ==> !refused.value.forward
    {
      hide IsRun;
      hide After;
      hide Next;
      hide Decide;
      hide Granted;
      run := before;
      for i := 0 to |body.requests|
        invariant IsRun(cfg, s, run) && View() == After(cfg, s, run) && frozen == old(frozen)
        invariant forall k :: 0 <= k < i ==> Granted(cfg, frozen, body.requests[k], authorizer(k))
        invariant h in flights && flights[h] == Flight(body, Deciding(i))
      {
        var d := Decide(cfg, frozen, body.requests[i], authorizer(i));
        DecideIff(cfg, frozen, body.requests[i], authorizer(i));
        ghost var u := Next(cfg, View(), DecideNext(h, authorizer(i)));
        DecideIs(View(), h, body, i, authorizer(i));
        OneMore(cfg, s, run, DecideNext(h, authorizer(i)));
        run := run + [DecideNext(h, authorizer(i))];
        flights, log := u.flights, u.log;
        if d.Deny? {
          denied := denied + 1;
          var reply := BuildErrorReply(body.requests, body.isBatch, body.requests[i].id);
          return Some(Verdict(false, reply)), run;
        }
      }
      ghost var u := Next(cfg, View(), DecideNext(h, authorizer(0)));
      DecideIs(View(), h, body, |body.requests|, authorizer(0));
      OneMore(cfg, s, run, DecideNext(h, authorizer(0)));
      run := run + [DecideNext(h, authorizer(0))];
      flights, log := u.flights, u.log;
      refused := None;
    }

    lemma RecordIs(s: State, h: nat, body: Body, i: nat, written: bool)
      requires Enabled(s, RecordNext(h, written)) && s.flights[h] == Flight(body, Recording(i))
      ensures var u := Next(cfg, s, RecordNext(h, written));
              && h in u.flights
              && (i >= |body.requests| ==>
                    u.flights[h] == Flight(body, Ended(Verdict(true, None))) && u == s.(flights := u.flights, log := u.log))
              && (i < |body.requests| && !written ==>
                    && u == s.(flights := u.flights, log := u.log, denied := s.denied + 1)
                    && u.flights[h] == Flight(body, Ended(Verdict(false, ErrorReply(body.requests, body.isBatch, body.requests[i].id)))))
              && (i < |body.requests| && written ==>
                    var r := body.requests[i];
                    && u.flights[h] == Flight(body, Recording(i + 1))
                    && u == s.(flights := u.flights, log := u.log,
                               allowed := if r.ToolName().Some? then s.allowed + 1 else s.allowed,
                               pendingLists := if r.method_ == TOOLS_LIST && r.id != "" then s.pendingLists + {r.id}
                                               else s.pendingLists))
    {
      hide ErrorReply;
    }

    /** Admit's second loop: every request is recorded before the message is forwarded. */
    method RecordAll(h: nat, body: Body, sink: nat -> bool, ghost s: State, ghost before: seq<Action>)
      returns (refused: Option<Verdict>, ghost run: seq<Action>)
      requires body.Message? && h in flights && flights[h] == Flight(body, Recording(0))
      requires IsRun(cfg, s, before) && View() == After(cfg, s, before)
      modifies this
      ensures IsRun(cfg, s, run) && View() == After(cfg, s, run) && h in flights
      ensures flights[h] == Flight(body, Ended(if refused.Some? then refused.value else Verdict(true, None)))
      ensures refused.None? <==> forall i :: 0 <= i < |body.requests| ==> sink(i)
      ensures refused.Some? ==> !refused.value.forward
    {
      hide IsRun;
      hide After;
      hide Next;
      run := before;
      for i := 0 to |body.requests|
        invariant IsRun(cfg, s, run) && View() == After(cfg, s, run)
        invariant forall k :: 0 <= k < i ==> sink(k)
        invariant h in flights && flights[h] == Flight(body, Recording(i))
      {
        var r := body.requests[i];
        var written := sink(i);
        ghost var u := Next(cfg, View(), RecordNext(h, written));
        RecordIs(View(), h, body, i, written);
        OneMore(cfg, s, run, RecordNext(h, written));
        run := run + [RecordNext(h, written)];
        flights, log := u.flights, u.log;
        if !written {
          denied := denied + 1;
          var reply := BuildErrorReply(body.requests, body.isBatch, r.id);
          return Some(Verdict(false, reply)), run;
        }
        if r.ToolName().Some? {
          allowed := allowed + 1;
        }
        if r.method_ == TOOLS_LIST && |r.id| > 0 {
          pendingLists := pendingLists + {r.id};
        }
      }
      ghost var u := Next(cfg, View(), RecordNext(h, true));
      RecordIs(View(), h, body, |body.requests|, true);
      OneMore(cfg, s, run, RecordNext(h, true));
      run := run + [RecordNext(h, true)];
      flights, log := u.flights, u.log;
      refused := None;
    }

    /** The ids are looked through under the enforcer's own mutex. */
    method ClaimList(id: string) returns (requested: bool)
      modifies this
      ensures View() == ClaimingStep(old(View()), id)
      ensures requested <==> id in old(pendingLists)
    {
      requested := id in pendingLists;
      if requested {
        claimed := claimed + 1;
      }
      pendingLists := pendingLists - {id};
    }

    /** The inventory's answer. */
    method InspectResponse(requested: bool, listing: I.Listing) returns (changed: bool)
      requires requested || claimed > 0
      modifies this
      ensures View() == InspectingStep(cfg, old(View()), requested, listing)
      ensures changing == old(changing) + if changed then 1 else 0
    {
      hide I.ToolSetOf;
      hide I.Inspectable;
      ghost var u := InspectingStep(cfg, View(), requested, listing);
      log, claimed, changing := u.log, u.claimed, u.changing;
      var (t, r) := I.ObserveIn(cfg.sha, table, cfg.backend, listing);
      table := t;
      changed := r.Seen? && r.changed;
    }

    /** ObserveResponse, run without interruption: the claim of a list if the caller does not know
        it, an inspection, and a freeze if it found a change. */
    method ObserveResponse(requested: bool, id: string, listing: I.Listing) returns (ghost run: seq<Action>)
      modifies this
      ensures IsRun(cfg, old(View()), run) && View() == After(cfg, old(View()), run)
      ensures claimed == old(claimed) && changing == old(changing)
      ensures !requested && id !in old(pendingLists) ==> View() == old(View())
    {
      hide IsRun;
      hide After;
      hide InspectingStep;
      hide ClaimingStep;
      ghost var s := View();
      run := [];
      NoRun(s);
      if !requested {
        OneMore(cfg, s, run, Claim(id));
        run := run + [Claim(id)];
        var matched := ClaimList(id);
        ClaimIs(s, id);
        if !matched {
          return;
        }
      }
      InspectIs(View(), requested, listing);
      OneMore(cfg, s, run, Inspect(requested, listing));
      run := run + [Inspect(requested, listing)];
      var changed := InspectResponse(requested, listing);
      if changed {
        OneMore(cfg, s, run, Freeze);
        run := run + [Freeze];
        ghost var w := FreezingStep(cfg, View());
        log, changing := w.log, w.changing;
        changes := changes + 1;
        if cfg.pinTools {
          frozen := true;
        }
      }
    }

    lemma ClaimIs(s: State, id: string)
      ensures var u := ClaimingStep(s, id);
              if id in s.pendingLists then u.claimed == s.claimed + 1 && u.changing == s.changing else u == s
    {
    }

    lemma InspectIs(s: State, requested: bool, listing: I.Listing)
      requires requested || s.claimed > 0
      ensures InspectingStep(cfg, s, requested, listing).claimed == if requested then s.claimed else s.claimed - 1
    {
      hide I.ObserveIn;
    }
  }
}
