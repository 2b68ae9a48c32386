/** One egress request through the proxy: internal/confine/proxy.go and resolve.go.

    The network around it is a World the proxy does not control: a resolver free to answer each
    question differently, a sink and a network that fail as they please, and the registry as it
    stands at the moment it is asked. */
module ConfineProxy {
  import opened Decimal
  import opened Guard
  import opened Policy
  import R = Registry

  datatype World = World(
    parse: string -> Option<Addr>,                 // netip.ParseAddr
    source: Option<Addr>,                          // the caller's address, if it parses
    table: R.Table,                                // the registry when it is asked
    answers: nat -> Option<seq<Addr>>,             // the name server's k-th answer
    records: nat -> bool,                          // whether the k-th evidence write succeeds
    reaches: nat -> bool)                          // whether the k-th dial connects
  {
    /** Registry.Lookup of the caller. */
    function Caller(): R.LookupResult {
      if source.None? then R.Unknown else R.LookupIn(table, source.value)
    }
  }

  /** How a CONNECT goes on once the upstream is reached. */
  datatype Tunnel = CannotHijack | HijackFails | ClientRefused | UpstreamRefused | GreetingFails | Established

  /** A forward request's transport may dial again before it answers or gives up. */
  datatype Kind = Connect(tunnel: Tunnel) | Forward(redials: nat, answered: bool)

  datatype Request = Request(kind: Kind, destination: Option<(string, int)>)

  datatype Outcome = Allow | Deny

  /** What a request does to the outside, in order. */
  datatype Event =
    | Identified(result: R.LookupResult)
    | Asked(host: string, answer: Option<seq<Addr>>)
    | Recorded(outcome: Outcome, ok: bool)
    | Dialed(addr: Addr, port: int, connected: bool)

  function CountAsked(trace: seq<Event>): nat {
    if trace == [] then 0 else (if trace[0].Asked? then 1 else 0) + CountAsked(trace[1..])
  }

  function CountRecords(trace: seq<Event>): nat {
    if trace == [] then 0 else (if trace[0].Recorded? then 1 else 0) + CountRecords(trace[1..])
  }

  /** Whom a connection comes from: the live workload bound to its address, whatever the spelling. */
  lemma CallerIsLive(w: World, id: string)
    requires R.Coherent(w.table)
    ensures (w.Caller().Live? && w.Caller().id.workloadId == id)
       <==> && w.source.Some? && id in w.table.byId && !w.table.byId[id].revoked
            && w.table.byId[id].identity.source == w.source.value.Unmap()
  {
    hide Addr.Unmap;
    if w.source.Some? {
      R.LookupIff(w.table, w.source.value, id);
      if id in w.table.byId {
        assert R.BoundAt(w.table, id);
      }
    }
  }

  /** What the counts say: asked at most once, or nothing recorded. */
  lemma {:induction false} CountsAre(t: seq<Event>)
    ensures CountAsked(t) == 0 <==> forall i :: 0 <= i < |t| ==> !t[i].Asked?
    ensures CountAsked(t) <= 1 <==> forall i, j :: 0 <= i < j < |t| ==> !(t[i].Asked? && t[j].Asked?)
    ensures CountRecords(t) == 0 <==> forall i :: 0 <= i < |t| ==> !t[i].Recorded?
  {
    if t != [] {
      CountsAre(t[1..]);
      assert t == [t[0]] + t[1..];
      assert forall i :: 0 <= i < |t[1..]| ==> t[i + 1] == t[1..][i];
    }
  }

  lemma {:induction false} Counts(t: seq<Event>, u: seq<Event>)
    ensures CountAsked(t + u) == CountAsked(t) + CountAsked(u)
    ensures CountRecords(t + u) == CountRecords(t) + CountRecords(u)
  {
    if t == [] {
      assert t + u == u;
    } else {
      Counts(t[1..], u);
      assert (t + u)[1..] == t[1..] + u;
    }
  }

  class Proxy {
    const policy: map<string, seq<Rule>>
    const permitted: seq<Prefix>
    const failOpen: bool
    var allowed: nat
    var denied: nat

    constructor (policy: map<string, seq<Rule>>, permitted: seq<Prefix>, failOpen: bool)
      ensures this.policy == policy && this.permitted == permitted && this.failOpen == failOpen
      ensures allowed == 0 && denied == 0
    {
      this.policy, this.permitted, this.failOpen := policy, permitted, failOpen;
      allowed, denied := 0, 0;
    }

    /** addr is one of the addresses this request's single resolution produced, or the literal it
        named, and it passed the guard. */
    ghost predicate Vetted(w: World, host: string, addr: Addr, before: seq<Event>) {
      && Check(permitted, addr) == Allowed
      && match w.parse(host)
         case Some(literal) => addr == literal.Unmap()
         case None => exists k :: 0 <= k < |before| && Answers(before[k], host, addr)
    }

    /** The caller was found in the registry, unrevoked, and policy lets that workload reach host:port. */
    ghost predicate Entitled(w: World, host: string, port: int, before: seq<Event>) {
      && w.Caller().Live? && Permitted(w.parse, policy, w.Caller().id.workloadId, host, port)
      && Identified(w.Caller()) in before
    }

    /** What the guard makes of the host: a literal that passes it, or an answer that is not empty
        and every address of which passes. */
    ghost predicate Resolvable(w: World, host: string) {
      match w.parse(host)
      case Some(literal) => Check(permitted, literal) == Allowed
      case None =>
        && w.answers(0).Some? && w.answers(0).value != []
        && forall i :: 0 <= i < |w.answers(0).value| ==> Check(permitted, w.answers(0).value[i]) == Allowed
    }

    ghost function Resolution(w: World, host: string): seq<Addr>
      requires Resolvable(w, host)
    {
      match w.parse(host)
      case Some(literal) => [literal.Unmap()]
      case None => seq(|w.answers(0).value|, i requires 0 <= i < |w.answers(0).value| => w.answers(0).value[i].Unmap())
    }

    /** Everything that has to hold for a request to be let through. */
    ghost predicate Authorized(w: World, r: Request) {
      && r.destination.Some? && w.Caller().Live?
      && Permitted(w.parse, policy, w.Caller().id.workloadId, r.destination.value.0, r.destination.value.1)
      && Resolvable(w, r.destination.value.0)
    }

    /** Every dial of the trace is vetted and entitled, for the request's own port, and its allow
        record was written first; the name was resolved at most once. */
    ghost predicate Safe(w: World, r: Request, trace: seq<Event>) {
      && CountAsked(trace) <= 1
      && forall i :: 0 <= i < |trace| && trace[i].Dialed? ==> SafeDial(w, r, trace, i)
    }

    ghost predicate SafeDial(w: World, r: Request, trace: seq<Event>, i: nat)
      requires i < |trace| && trace[i].Dialed?
    {
      && r.destination.Some? && trace[i].port == r.destination.value.1
      && Vetted(w, r.destination.value.0, trace[i].addr, trace[..i])
      && Entitled(w, r.destination.value.0, trace[i].port, trace[..i])
      && (failOpen || Recorded(Allow, true) in trace[..i])
    }

    /** Resolver.Resolve: ask once, and refuse the name if any answer is refused. */
    method Resolve(w: World, host: string) returns (addrs: Option<seq<Addr>>, trace: seq<Event>)
      ensures addrs.Some? <==> Resolvable(w, host)
      ensures addrs.Some? ==> addrs.value == Resolution(w, host)
      ensures trace == if w.parse(host).Some? then [] else [Asked(host, w.answers(0))]
    {
      hide Check;
      hide Addr.Unmap;
      trace := [];
      var literal := w.parse(host);
      if literal.Some? {
        var v := CheckAddr(permitted, literal.value);
        if !v.Allowed? {
          return None, trace;
        }
        return Some([literal.value.Unmap()]), trace;
      }
      var answer := w.answers(0);
      trace := [Asked(host, answer)];
      if answer.None? || |answer.value| == 0 {
        return None, trace;
      }
      var out: seq<Addr> := [];
      for i := 0 to |answer.value|
        invariant |out| == i && forall k :: 0 <= k < i ==> out[k] == answer.value[k].Unmap()
        invariant forall k :: 0 <= k < i ==> Check(permitted, answer.value[k]) == Allowed
      {
        var ip := answer.value[i].Unmap();
        CheckUnmapped(permitted, answer.value[i]);
        var v := CheckAddr(permitted, ip);
        if !v.Allowed? {
          return None, trace;
        }
        out := out + [ip];
      }
      return Some(out), trace;
    }

    /** What Resolve lets through is vetted, and there is something of it. */
    lemma ResolvedIsVetted(w: World, host: string, trace: seq<Event>)
      requires Resolvable(w, host) && (w.parse(host).None? ==> Asked(host, w.answers(0)) in trace)
      ensures Resolution(w, host) != []
      ensures forall a :: a in Resolution(w, host) ==> Vetted(w, host, a, trace)
    {
      hide Check;
      hide Addr.Unmap;
      if w.parse(host).Some? {
        CheckUnmapped(permitted, w.parse(host).value);
      } else {
        var answer := w.answers(0).value;
        var k :| 0 <= k < |trace| && trace[k] == Asked(host, w.answers(0));
        forall a | a in Resolution(w, host)
          ensures Vetted(w, host, a, trace)
        {
          var i :| 0 <= i < |answer| && answer[i].Unmap() == a;
          CheckUnmapped(permitted, answer[i]);
          assert Answers(trace[k], host, a);
        }
      }
    }

    /** authorize: destination, literal guard, identity, policy, then the resolver's guard. */
    method Authorize(w: World, r: Request) returns (addrs: Option<seq<Addr>>, trace: seq<Event>)
      ensures addrs.Some? <==> Authorized(w, r)
      ensures addrs.Some? ==> addrs.value == Resolution(w, r.destination.value.0)
      ensures CountAsked(trace) <= 1 && CountRecords(trace) == 0
      ensures forall i :: 0 <= i < |trace| ==> !trace[i].Dialed? && !trace[i].Recorded?
      ensures addrs.Some? ==>
                && addrs.value != [] && Entitled(w, r.destination.value.0, r.destination.value.1, trace)
                && forall a :: a in addrs.value ==> Vetted(w, r.destination.value.0, a, trace)
    {
      hide Check;
      hide Permitted;
      hide Vetted;
      hide R.LookupIn;
      trace := [];
      if r.destination.None? {
        return None, trace;
      }
      var (host, port) := r.destination.value;
      var literal := w.parse(host);
      if literal.Some? {
        var v := CheckAddr(permitted, literal.value);
        if !v.Allowed? {
          // The probe is attributed to a workload when it can be.
          trace := if w.source.Some? then [Identified(w.Caller())] else [];
          return None, trace;
        }
      }
      if w.source.None? {
        return None, trace;
      }
      trace := [Identified(w.Caller())];
      if !w.Caller().Live? {
        return None, trace;
      }
      var note := Permits(w.parse, policy, w.Caller().id.workloadId, host, port);
      if note.None? {
        return None, trace;
      }
      var asked: seq<Event>;
      addrs, asked := Resolve(w, host);
      assert trace[1..] == [] && (asked != [] ==> asked[1..] == []);
      Counts(trace, asked);
      trace := trace + asked;
      assert trace[0] == Identified(w.Caller());
      if w.parse(host).None? {
        assert trace[1] == Asked(host, w.answers(0));
      }
      if addrs.Some? {
        ResolvedIsVetted(w, host, trace);
      }
    }

    lemma VettedExtends(w: World, host: string, a: Addr, front: seq<Event>, back: seq<Event>)
      requires Vetted(w, host, a, front)
      ensures Vetted(w, host, a, front + back)
    {
      hide Check;
      if w.parse(host).None? {
        var k :| 0 <= k < |front| && Answers(front[k], host, a);
        assert (front + back)[k] == front[k];
      }
    }

    lemma EntitledExtends(w: World, host: string, port: int, front: seq<Event>, back: seq<Event>)
      requires Entitled(w, host, port, front)
      ensures Entitled(w, host, port, front + back)
    {
      hide Permitted;
      hide R.LookupIn;
      var k :| 0 <= k < |front| && front[k] == Identified(w.Caller());
      assert (front + back)[k] == front[k];
    }

    /** dialValidated: one address after another, in order, until one connects or all have failed.
        It never sees the hostname. */
    method DialValidated(w: World, addrs: seq<Addr>, port: int, dialsBefore: nat) returns (connected: bool, trace: seq<Event>)
      ensures |trace| <= |addrs|
      ensures forall i :: 0 <= i < |trace| ==> trace[i] == Dialed(addrs[i], port, w.reaches(dialsBefore + i))
      ensures forall i :: 0 <= i < |trace| - 1 ==> !trace[i].connected
      ensures connected <==> trace != [] && trace[|trace| - 1].connected
      ensures !connected ==> |trace| == |addrs|
    {
      trace := [];
      for i := 0 to |addrs|
        invariant |trace| == i
        invariant forall k :: 0 <= k < i ==> trace[k] == Dialed(addrs[k], port, w.reaches(dialsBefore + k)) && !trace[k].connected
      {
        var ok := w.reaches(dialsBefore + i);
        trace := trace + [Dialed(addrs[i], port, ok)];
        if ok {
          return true, trace;
        }
      }
      return false, trace;
    }

    lemma {:induction false} NoQuestions(trace: seq<Event>)
      requires forall i :: 0 <= i < |trace| ==> trace[i].Dialed?
      ensures CountAsked(trace) == 0 && CountRecords(trace) == 0
    {
      if trace == [] {
      } else {
        NoQuestions(trace[1..]);
      }
    }

    /** Authorised, recorded, then dialled: the parts put together are safe. */
    lemma DialsAreSafe(w: World, r: Request, before: seq<Event>, dials: seq<Event>, addrs: seq<Addr>)
      requires r.destination.Some?
      requires CountAsked(before) <= 1 && forall i :: 0 <= i < |before| ==> !before[i].Dialed?
      requires Entitled(w, r.destination.value.0, r.destination.value.1, before)
      requires forall a :: a in addrs ==> Vetted(w, r.destination.value.0, a, before)
      requires failOpen || Recorded(Allow, true) in before
      requires forall i :: 0 <= i < |dials| ==>
                 dials[i].Dialed? && dials[i].addr in addrs && dials[i].port == r.destination.value.1
      ensures Safe(w, r, before + dials)
    {
      hide Vetted;
      hide Entitled;
      hide SafeDial;
      NoQuestions(dials);
      Counts(before, dials);
      var trace := before + dials;
      forall i | 0 <= i < |trace| && trace[i].Dialed?
        ensures SafeDial(w, r, trace, i)
      {
        assert i >= |before| && trace[i] == dials[i - |before|];
        LaterDialIsSafe(w, r, before, dials, i - |before|);
      }
    }

    lemma LaterDialIsSafe(w: World, r: Request, before: seq<Event>, dials: seq<Event>, k: nat)
      requires k < |dials| && dials[k].Dialed? && r.destination.Some? && dials[k].port == r.destination.value.1
      requires Entitled(w, r.destination.value.0, r.destination.value.1, before)
      requires Vetted(w, r.destination.value.0, dials[k].addr, before)
      requires failOpen || Recorded(Allow, true) in before
      ensures SafeDial(w, r, before + dials, |before| + k)
    {
      hide Vetted;
      hide Entitled;
      var trace, since := before + dials, dials[..k];
      assert trace[|before| + k] == dials[k] && trace[..|before| + k] == before + since;
      VettedExtends(w, r.destination.value.0, dials[k].addr, before, since);
      EntitledExtends(w, r.destination.value.0, dials[k].port, before, since);
      assert Recorded(Allow, true) in before ==> Recorded(Allow, true) in before + since;
    }

    lemma QuietIsSafe(w: World, r: Request, trace: seq<Event>, deny: Event)
      requires Safe(w, r, trace) && deny.Recorded?
      ensures Safe(w, r, trace + [deny])
    {
      Counts(trace, [deny]);
      assert [deny][1..] == [];
      forall i | 0 <= i < |trace + [deny]| && (trace + [deny])[i].Dialed?
        ensures SafeDial(w, r, trace + [deny], i)
      {
        assert SafeDial(w, r, trace, i);
        assert (trace + [deny])[..i] == trace[..i];
      }
    }

    /** handleConnect and handleHTTP: authorise, record, dial, and only then carry traffic. */
    method Handle(w: World, r: Request) returns (trace: seq<Event>)
      modifies this
      ensures Safe(w, r, trace)
      ensures DialsIn(trace) <==> Authorized(w, r) && (failOpen || w.records(0))
      ensures old(allowed + denied) <= allowed + denied <= old(allowed + denied) + 1
      ensures allowed > old(allowed) ==> exists i :: 0 <= i < |trace| && trace[i].Dialed? && trace[i].connected
    {
      hide Vetted;
      hide Entitled;
      hide Check;
      hide Permitted;
      var addrs: Option<seq<Addr>>;
      addrs, trace := Authorize(w, r);
      var seen := trace;
      if addrs.None? {
        trace := Refuse(w, r, seen, 0);
        return;
      }
      var (host, port) := r.destination.value;
      var recorded := w.records(0);
      var before := seen + [Recorded(Allow, recorded)];
      Counts(seen, [Recorded(Allow, recorded)]);
      assert [Recorded(Allow, recorded)][1..] == [];
      EntitledExtends(w, host, port, seen, [Recorded(Allow, recorded)]);
      forall a | a in addrs.value
        ensures Vetted(w, host, a, before)
      {
        VettedExtends(w, host, a, seen, [Recorded(Allow, recorded)]);
      }
      if !recorded && !failOpen {
        trace := Refuse(w, r, before, 1);
        return;
      }
      assert failOpen || before[|seen|] == Recorded(Allow, true);
      var connected, dials: seq<Event> := false, [];
      var attempts := if r.kind.Forward? then r.kind.redials + 1 else 1;
      for k := 0 to attempts
        invariant forall i :: 0 <= i < |dials| ==> dials[i].Dialed? && dials[i].addr in addrs.value && dials[i].port == port
        invariant k > 0 ==> dials != []
        invariant connected ==> exists i :: 0 <= i < |dials| && dials[i].connected
        invariant allowed == old(allowed) && denied == old(denied)
      {
        var ok, more := DialValidated(w, addrs.value, port, |dials|);
        if ok {
          assert (dials + more)[|dials| + |more| - 1].connected;
        }
        if connected {
          ghost var i :| 0 <= i < |dials| && dials[i].connected;
          assert (dials + more)[i].connected;
        }
        dials, connected := dials + more, connected || ok;
      }
      DialsAreSafe(w, r, before, dials, addrs.value);
      trace := before + dials;
      assert trace[|before|] == dials[0];
      if !connected {
        trace := Refuse(w, r, trace, 1);
        return;
      }
      ghost var i :| 0 <= i < |dials| && dials[i].connected;
      assert trace[|before| + i] == dials[i];
      match r.kind
      case Forward(_, answered) =>
        if answered {
          allowed := allowed + 1;
        } else {
          trace := Refuse(w, r, trace, 1);
        }
      case Connect(CannotHijack) => trace := Refuse(w, r, trace, 1);
      case Connect(ClientRefused) => trace := Refuse(w, r, trace, 1);
      case Connect(UpstreamRefused) => denied := denied + 1;
      case Connect(Established) => allowed := allowed + 1;
      case Connect(_) =>
    }

    /** refuse: counted, and recorded as far as the sink allows. */
    method Refuse(w: World, r: Request, before: seq<Event>, recordsBefore: nat) returns (trace: seq<Event>)
      requires Safe(w, r, before) || (CountAsked(before) <= 1 && forall i :: 0 <= i < |before| ==> !before[i].Dialed?)
      modifies this
      ensures Safe(w, r, trace) && trace == before + [Recorded(Deny, w.records(recordsBefore))]
      ensures DialsIn(trace) <==> DialsIn(before)
      ensures denied == old(denied) + 1 && allowed == old(allowed)
    {
      hide Vetted;
      hide Entitled;
      denied := denied + 1;
      trace := before + [Recorded(Deny, w.records(recordsBefore))];
      assert Safe(w, r, before);
      NoDialAdded(before, Recorded(Deny, w.records(recordsBefore)));
      QuietIsSafe(w, r, before, Recorded(Deny, w.records(recordsBefore)));
    }

    /** Any sequence of requests, each in its own world: every request's trace is safe. */
    method Serve(requests: seq<(World, Request)>) returns (traces: seq<seq<Event>>)
      modifies this
      ensures |traces| == |requests|
      ensures forall i :: 0 <= i < |requests| ==> Safe(requests[i].0, requests[i].1, traces[i])
      ensures allowed + denied <= old(allowed + denied) + |requests|
    {
      hide Safe;
      traces := [];
      for i := 0 to |requests|
        invariant |traces| == i
        invariant forall k :: 0 <= k < i ==> Safe(requests[k].0, requests[k].1, traces[k])
        invariant allowed + denied <= old(allowed + denied) + i
      {
        var t := Handle(requests[i].0, requests[i].1);
        traces := traces + [t];
      }
    }
  }

  /** The trace reaches out to somewhere. */
  ghost predicate DialsIn(trace: seq<Event>) {
    exists i :: 0 <= i < |trace| && trace[i].Dialed?
  }

  lemma NoDialAdded(trace: seq<Event>, e: Event)
    requires !e.Dialed?
    ensures DialsIn(trace + [e]) <==> DialsIn(trace)
  {
    if DialsIn(trace) {
      var i :| 0 <= i < |trace| && trace[i].Dialed?;
      assert (trace + [e])[i] == trace[i];
    }
  }

  /** The event is the name server's answer for host, and addr is one of the addresses in it. */
  ghost predicate Answers(e: Event, host: string, addr: Addr) {
    e.Asked? && e.host == host && e.answer.Some? && exists i :: 0 <= i < |e.answer.value| && e.answer.value[i].Unmap() == addr
  }

  lemma CheckUnmapped(permitted: seq<Prefix>, a: Addr)
    ensures Check(permitted, a) == Check(permitted, a.Unmap())
  {
    hide Structural;
    hide Exempt;
  }

  /** A trace the proxy can produce never dials a never-exempt address. */
  lemma NoDialOutOfBounds(p: Proxy, w: World, r: Request, trace: seq<Event>, entries: seq<Prefix>, i: nat, n: nat)
    requires |p.permitted| == |entries|
    requires forall k :: 0 <= k < |entries| ==> Acceptable(entries[k]) && p.permitted[k] == entries[k].Masked()
    requires p.Safe(w, r, trace) && i < |trace| && trace[i].Dialed? && n < |NEVER_EXEMPT|
    ensures !NEVER_EXEMPT[n].Contains(trace[i].addr.Unmap())
  {
    hide Check;
    hide Acceptable;
    hide Prefix.Contains;
    assert p.SafeDial(w, r, trace, i);
    if NEVER_EXEMPT[n].Contains(trace[i].addr.Unmap()) {
      NeverExemptAlwaysRefused(entries, p.permitted, trace[i].addr, n);
    }
  }
}
