/** The signing daemon: pkg/ags1/signer/daemon.go. Time is in seconds on a clock that never goes
    back; tokens are reals, so rounding is not modelled. Requests may interleave: authorising one
    and counting its signature are two steps, each under the daemon's mutex. */
module SignerDaemon {
  import opened Decimal
  import opened SignerPurpose

  const DEFAULT_RATE := 2000.0
  const DEFAULT_BURST := 4000.0
  const MAX_MESSAGE_BYTES: nat := 65536

  // ---------------------------------------------------------------- the token bucket

  datatype Bucket = Bucket(capacity: real, perSec: real, tokens: real, last: real) {
    ghost predicate Valid() {
      perSec >= 0.0 && 0.0 <= tokens <= capacity
    }
  }

  /** Multiplication by name, so that a proof can go by its laws. */
  function Times(x: real, y: real): real {
    x * y
  }

  function Refilled(b: Bucket, now: real): real {
    var t := b.tokens + Times(now - b.last, b.perSec);
    if t > b.capacity then b.capacity else t
  }

  /** tokenBucket.take. */
  function Taken(b: Bucket, now: real): (Bucket, bool) {
    var t := Refilled(b, now);
    if t < 1.0 then (b.(last := now, tokens := t), false) else (b.(last := now, tokens := t - 1.0), true)
  }

  class TokenBucket {
    const capacity: real
    const perSec: real
    var tokens: real
    var last: real

    constructor (perSec: real, capacity: real, now: real)
      ensures Value() == Bucket(capacity, perSec, capacity, now)
    {
      this.capacity := capacity;
      this.perSec := perSec;
      tokens := capacity;
      last := now;
    }

    function Value(): Bucket
      reads this
    {
      Bucket(capacity, perSec, tokens, last)
    }

    method Take(now: real) returns (ok: bool)
      modifies this
      ensures (Value(), ok) == Taken(old(Value()), now)
    {
      var elapsed := now - last;
      last := now;
      tokens := tokens + Times(elapsed, perSec);
      if tokens > capacity {
        tokens := capacity;
      }
      if tokens < 1.0 {
        return false;
      }
      tokens := tokens - 1.0;
      return true;
    }
  }

  /** The most grants a bucket can still give inside the window [s, t]. */
  ghost function Potential(b: Bucket, s: real, t: real): real {
    if t < b.last then 0.0
    else if s <= b.last then b.tokens + Times(t - b.last, b.perSec)
    else b.capacity + Times(t - s, b.perSec)
  }

  function InWindow(now: real, s: real, t: real): int {
    if s <= now <= t then 1 else 0
  }

  lemma Product(x: real, y: real)
    requires x >= 0.0 && y >= 0.0
    ensures Times(x, y) >= 0.0
  {
  }

  lemma Distribute(x: real, y: real, r: real)
    ensures Times(x + y, r) == Times(x, r) + Times(y, r)
  {
  }

  lemma RefilledBounds(b: Bucket, now: real)
    requires b.Valid() && b.last <= now
    ensures 0.0 <= Refilled(b, now) <= b.capacity && Refilled(b, now) <= b.tokens + Times(now - b.last, b.perSec)
  {
    hide Times;
    Product(now - b.last, b.perSec);
  }

  /** The tokens stay between nothing and the capacity. */
  lemma TakeKeeps(b: Bucket, now: real)
    requires b.Valid() && b.last <= now
    ensures Taken(b, now).0.Valid() && Taken(b, now).0 == b.(last := now, tokens := Taken(b, now).0.tokens)
    ensures Taken(b, now).0.tokens + (if Taken(b, now).1 then 1.0 else 0.0) == Refilled(b, now)
  {
    hide Refilled;
    RefilledBounds(b, now);
  }

  /** A grant inside the window is paid for out of what the bucket could give. */
  lemma TakePays(b: Bucket, now: real, s: real, t: real)
    requires b.Valid() && b.last <= now && s <= t
    ensures Taken(b, now).0.Valid()
    ensures (if Taken(b, now).1 then InWindow(now, s, t) else 0) as real + Potential(Taken(b, now).0, s, t)
         <= Potential(b, s, t)
  {
    hide Taken;
    hide Refilled;
    hide Times;
    TakeKeeps(b, now);
    RefilledBounds(b, now);
    Product(t - s, b.perSec);
    if b.last <= t {
      Product(t - b.last, b.perSec);
    }
    if now <= t {
      Distribute(now - b.last, t - now, b.perSec);
      assert (now - b.last) + (t - now) == t - b.last;
      if s <= now {
        Product(now - s, b.perSec);
        Distribute(now - s, t - now, b.perSec);
        assert (now - s) + (t - now) == t - s;
      }
    }
  }

  // ---------------------------------------------------------------- the daemon's state

  function Name(p: Purpose): string {
    match p
    case PrincipalContext => "principal-context"
    case EvidenceCheckpoint => "evidence-checkpoint"
    case ReadinessProbe => "readiness-probe"
  }

  datatype Grant = Grant(purpose: Purpose, at: real)

  /** The daemon between two steps: `granted` is every signing it has authorised, `pending` those
      whose signature is still being made. */
  datatype State = State(buckets: map<Purpose, Bucket>, signed: map<Purpose, nat>, refused: map<string, nat>,
                         signCount: nat, granted: seq<Grant>, pending: seq<Purpose>)

  function Bump<K>(m: map<K, nat>, k: K): map<K, nat> {
    m[k := (if k in m then m[k] else 0) + 1]
  }

  function Refusal(s: State, key: string): State {
    s.(refused := Bump(s.refused, key))
  }

  /** Why a message is refused before its bucket is asked, and under which name it is counted. */
  function Refused(s: State, declared: string, m: string): Option<string> {
    match Classify(m)
    case None => Some("unknown")
    case Some(p) =>
      if (declared != "" && declared != Name(p)) || p !in s.buckets || !Validates(p, m) then Some(Name(p)) else None
  }

  /** authorizeSigning. */
  function Asked(s: State, declared: string, m: string, now: real): (State, Option<Purpose>) {
    if Refused(s, declared, m).Some? then (Refusal(s, Refused(s, declared, m).value), None)
    else
      var p := Classify(m).value;
      var (b, ok) := Taken(s.buckets[p], now);
      var u := s.(buckets := s.buckets[p := b]);
      if ok then (u.(granted := s.granted + [Grant(p, now)], pending := s.pending + [p]), Some(p))
      else (Refusal(u, Name(p)), None)
  }

  /** A signature made, or not: the counters go up only for one that was. */
  function Finished(s: State, k: nat, ok: bool): State
    requires k < |s.pending|
  {
    var p := s.pending[k];
    var u := s.(pending := s.pending[..k] + s.pending[k + 1..]);
    if ok then u.(signed := Bump(s.signed, p), signCount := s.signCount + 1) else u
  }

  // ---------------------------------------------------------------- runs

  datatype Action =
    | Ask(declared: string, message: string, now: real)
    | Finish(k: nat, ok: bool, now: real)

  predicate Enabled(s: State, a: Action) {
    a.Finish? ==> a.k < |s.pending|
  }

  function Next(s: State, a: Action): State
    requires Enabled(s, a)
  {
    match a
    case Ask(declared, message, now) => Asked(s, declared, message, now).0
    case Finish(k, ok, _) => Finished(s, k, ok)
  }

  /** The clock never goes back: no request is asked at a time before any bucket's last. */
  ghost predicate OnTime(s: State, a: Action) {
    a.Ask? ==> forall p :: p in s.buckets ==> s.buckets[p].last <= a.now
  }

  ghost predicate IsRun(s: State, run: seq<Action>)
    decreases |run|
  {
    run != [] ==> Enabled(s, run[0]) && OnTime(s, run[0]) && IsRun(Next(s, run[0]), run[1..])
  }

  ghost function After(s: State, run: seq<Action>): State
    requires IsRun(s, run)
    decreases |run|
  {
    if run == [] then s else After(Next(s, run[0]), run[1..])
  }

  /** Steps stand in the order of their times. */
  ghost predicate InOrder(run: seq<Action>) {
    forall i, j :: 0 <= i < j < |run| ==> run[i].now <= run[j].now
  }

  function Count(ps: seq<Purpose>, p: Purpose): nat {
    if ps == [] then 0 else Count(ps[..|ps| - 1], p) + if ps[|ps| - 1] == p then 1 else 0
  }

  /** How many of the signings authorised for p fall in the window. */
  function CountIn(gs: seq<Grant>, p: Purpose, s: real, t: real): nat {
    if gs == [] then 0
    else
      var g := gs[|gs| - 1];
      CountIn(gs[..|gs| - 1], p, s, t) + if g.purpose == p && s <= g.at <= t then 1 else 0
  }

  function CountOf(gs: seq<Grant>, p: Purpose): nat {
    if gs == [] then 0 else CountOf(gs[..|gs| - 1], p) + if gs[|gs| - 1].purpose == p then 1 else 0
  }

  function SignedFor(s: State, p: Purpose): nat {
    if p in s.signed then s.signed[p] else 0
  }

  /** Every signature is counted once in the total and once under its purpose, and each was
      authorised before it was made. */
  ghost predicate Accounts(s: State) {
    && s.signCount == SignedFor(s, PrincipalContext) + SignedFor(s, EvidenceCheckpoint) + SignedFor(s, ReadinessProbe)
    && (forall p: Purpose :: SignedFor(s, p) + Count(s.pending, p) <= CountOf(s.granted, p))
    && (forall p :: p in s.buckets ==> s.buckets[p].Valid())
    && (forall i :: 0 <= i < |s.granted| ==> s.granted[i].purpose in s.buckets)
  }

  /** A daemon just started. */
  ghost predicate Initial(s: State) {
    && s.signed == map[] && s.signCount == 0 && s.granted == [] && s.pending == []
    && forall p :: p in s.buckets ==> s.buckets[p].Valid()
  }

  /** NewDaemon's settings: no purposes means all of them, and a rate or burst that is not positive
      means the default. */
  function Started(purposes: set<Purpose>, rate: real, burst: real, now: real): State {
    var served := if purposes == {} then {PrincipalContext, EvidenceCheckpoint, ReadinessProbe} else purposes;
    var (r, b) := (if rate <= 0.0 then DEFAULT_RATE else rate, if burst <= 0.0 then DEFAULT_BURST else burst);
    State(map p | p in served :: Bucket(b, r, b, now), map[], map[], 0, [], [])
  }

  /** What the settings allow a purpose over a span of time: burst + rate * span. */
  function Allowance(rate: real, burst: real, span: real): real {
    (if burst <= 0.0 then 4000.0 else burst) + span * (if rate <= 0.0 then 2000.0 else rate)
  }

  lemma AllowanceIs(rate: real, burst: real, span: real)
    requires span >= 0.0
    ensures Allowance(rate, burst, span)
         == (if burst <= 0.0 then DEFAULT_BURST else burst) + Times(span, if rate <= 0.0 then DEFAULT_RATE else rate)
    ensures Allowance(rate, burst, span) >= 0.0
  {
    Product(span, if rate <= 0.0 then DEFAULT_RATE else rate);
  }

  lemma CountPush(ps: seq<Purpose>, x: Purpose, p: Purpose)
    ensures Count(ps + [x], p) == Count(ps, p) + if x == p then 1 else 0
  {
    assert (ps + [x])[..|ps|] == ps;
  }

  lemma {:induction false} CountRemove(ps: seq<Purpose>, k: nat, p: Purpose)
    requires k < |ps|
    ensures Count(ps[..k] + ps[k + 1..], p) + (if ps[k] == p then 1 else 0) == Count(ps, p)
    decreases |ps|
  {
    var n := |ps| - 1;
    if k == n {
      assert ps[..k] + ps[k + 1..] == ps[..n];
    } else {
      var front, cut := ps[..n], ps[..k] + ps[k + 1..];
      CountRemove(front, k, p);
      assert cut[..|cut| - 1] == front[..k] + front[k + 1..] && cut[|cut| - 1] == ps[n];
    }
  }

  lemma CountOfPush(gs: seq<Grant>, g: Grant, p: Purpose)
    ensures CountOf(gs + [g], p) == CountOf(gs, p) + if g.purpose == p then 1 else 0
  {
    assert (gs + [g])[..|gs|] == gs;
  }

  lemma CountInPush(gs: seq<Grant>, g: Grant, p: Purpose, s: real, t: real)
    ensures CountIn(gs + [g], p, s, t) == CountIn(gs, p, s, t) + if g.purpose == p then InWindow(g.at, s, t) else 0
  {
    assert (gs + [g])[..|gs|] == gs;
  }

  /** Every step keeps the accounts. */
  lemma StepKeeps(s: State, a: Action)
    requires Accounts(s) && Enabled(s, a) && OnTime(s, a)
    ensures Accounts(Next(s, a))
  {
    match a
    case Ask(_, _, _) => AskKeeps(s, a);
    case Finish(_, _, _) => FinishKeeps(s, a);
  }

  lemma AskKeeps(s: State, a: Action)
    requires Accounts(s) && a.Ask? && OnTime(s, a)
    ensures Accounts(Next(s, a))
  {
    hide Validates;
    hide Classify;
    hide Taken;
    hide Count;
    hide CountOf;
    var u := Next(s, a);
    if Refused(s, a.declared, a.message).None? {
      var p := Classify(a.message).value;
      TakePays(s.buckets[p], a.now, 0.0, 0.0);
      forall q: Purpose
        ensures SignedFor(u, q) + Count(u.pending, q) <= CountOf(u.granted, q)
      {
        assert SignedFor(s, q) + Count(s.pending, q) <= CountOf(s.granted, q);
        CountPush(s.pending, p, q);
        CountOfPush(s.granted, Grant(p, a.now), q);
      }
    } else {
      assert forall q: Purpose :: SignedFor(u, q) == SignedFor(s, q);
    }
  }

  lemma FinishKeeps(s: State, a: Action)
    requires Accounts(s) && Enabled(s, a) && a.Finish?
    ensures Accounts(Next(s, a))
  {
    hide Count;
    hide CountOf;
    var u := Next(s, a);
    forall q: Purpose
      ensures SignedFor(u, q) + Count(u.pending, q) <= CountOf(u.granted, q)
    {
      assert SignedFor(s, q) + Count(s.pending, q) <= CountOf(s.granted, q);
      CountRemove(s.pending, a.k, q);
    }
    var p := s.pending[a.k];
    assert forall q: Purpose :: SignedFor(u, q) == SignedFor(s, q) + if a.ok && q == p then 1 else 0;
    assert p == PrincipalContext || p == EvidenceCheckpoint || p == ReadinessProbe;
  }

  /** One step's grants inside a window are paid for by the purpose's bucket. */
  lemma StepPays(s: State, a: Action, p: Purpose, from: real, to: real)
    requires Accounts(s) && Enabled(s, a) && OnTime(s, a) && p in s.buckets && from <= to
    ensures p in Next(s, a).buckets
    ensures (CountIn(Next(s, a).granted, p, from, to) - CountIn(s.granted, p, from, to)) as real
            + Potential(Next(s, a).buckets[p], from, to)
         <= Potential(s.buckets[p], from, to)
  {
    hide Validates;
    hide Classify;
    hide Taken;
    hide CountIn;
    hide Potential;
    if a.Ask? && Refused(s, a.declared, a.message).None? {
      var q := Classify(a.message).value;
      TakePays(s.buckets[q], a.now, from, to);
      CountInPush(s.granted, Grant(q, a.now), p, from, to);
    }
  }

  lemma {:induction false} RunPays(s: State, run: seq<Action>, p: Purpose, from: real, to: real)
    requires Accounts(s) && IsRun(s, run) && p in s.buckets && from <= to
    ensures Accounts(After(s, run)) && p in After(s, run).buckets
    ensures (CountIn(After(s, run).granted, p, from, to) - CountIn(s.granted, p, from, to)) as real
            + Potential(After(s, run).buckets[p], from, to)
         <= Potential(s.buckets[p], from, to)
    decreases |run|
  {
    hide Accounts;
    hide Next;
    hide Enabled;
    hide OnTime;
    hide CountIn;
    hide Potential;
    if run == [] {
    } else {
      StepKeeps(s, run[0]);
      StepPays(s, run[0], p, from, to);
      RunPays(Next(s, run[0]), run[1..], p, from, to);
    }
  }

  lemma PotentialBounds(b: Bucket, from: real, to: real)
    requires b.Valid() && from <= to
    ensures 0.0 <= Potential(b, from, to) <= b.capacity + Times(to - from, b.perSec)
  {
    hide Times;
    Product(to - from, b.perSec);
    if from <= b.last <= to {
      Product(to - b.last, b.perSec);
      Product(b.last - from, b.perSec);
      Distribute(b.last - from, to - b.last, b.perSec);
      assert (b.last - from) + (to - b.last) == to - from;
    }
  }

  /** The rate bound: in every run of interleaved requests and every window, the signings
      authorised for a purpose number at most its burst and its rate times the window. */
  lemma RateBound(s: State, run: seq<Action>, p: Purpose, from: real, to: real)
    requires Initial(s) && IsRun(s, run) && p in s.buckets && from <= to
    ensures CountIn(After(s, run).granted, p, from, to) as real
         <= s.buckets[p].capacity + Times(to - from, s.buckets[p].perSec)
    ensures p in After(s, run).buckets && After(s, run).buckets[p].Valid()
  {
    hide Potential;
    hide IsRun;
    hide After;
    RunPays(s, run, p, from, to);
    PotentialBounds(s.buckets[p], from, to);
    PotentialBounds(After(s, run).buckets[p], from, to);
  }

  /** The same for a daemon as it is configured: whatever its clients ask and in whatever order,
      one purpose is granted at most burst + rate * (to - from) signings between two times. */
  lemma ConfiguredRateBound(purposes: set<Purpose>, rate: real, burst: real, now: real, run: seq<Action>, p: Purpose,
                            from: real, to: real)
    requires from <= to
    requires IsRun(Started(purposes, rate, burst, now), run)
    ensures CountIn(After(Started(purposes, rate, burst, now), run).granted, p, from, to) as real
         <= Allowance(rate, burst, to - from)
  {
    hide IsRun;
    hide After;
    hide CountIn;
    hide Next;
    hide Times;
    hide Allowance;
    var s := Started(purposes, rate, burst, now);
    AllowanceIs(rate, burst, to - from);
    if p in s.buckets {
      RateBound(s, run, p, from, to);
    } else {
      NoneWithoutBucket(s, run, p, from, to);
    }
  }

  lemma NoneWithoutBucket(s: State, run: seq<Action>, p: Purpose, from: real, to: real)
    requires Initial(s) && IsRun(s, run) && p !in s.buckets
    ensures CountIn(After(s, run).granted, p, from, to) == 0
  {
    hide IsRun;
    hide After;
    hide CountIn;
    RunKeeps(s, run);
    SameBuckets(s, run);
    NoneGranted(After(s, run).granted, p, from, to);
  }

  lemma {:induction false} NoneGranted(gs: seq<Grant>, p: Purpose, from: real, to: real)
    requires forall i :: 0 <= i < |gs| ==> gs[i].purpose != p
    ensures CountIn(gs, p, from, to) == 0
  {
    if gs == [] {
    } else {
      NoneGranted(gs[..|gs| - 1], p, from, to);
    }
  }

  lemma {:induction false} SameBuckets(s: State, run: seq<Action>)
    requires IsRun(s, run)
    ensures After(s, run).buckets.Keys == s.buckets.Keys
    decreases |run|
  {
    hide Validates;
    hide Classify;
    hide Taken;
    if run == [] {
    } else {
      SameBuckets(Next(s, run[0]), run[1..]);
    }
  }

  lemma {:induction false} RunKeeps(s: State, run: seq<Action>)
    requires Accounts(s) && IsRun(s, run)
    ensures Accounts(After(s, run))
    decreases |run|
  {
    hide Accounts;
    hide Next;
    hide Enabled;
    hide OnTime;
    if run == [] {
    } else {
      StepKeeps(s, run[0]);
      RunKeeps(Next(s, run[0]), run[1..]);
    }
  }

  /** The counters add up: the total is the sum over the purposes, and no purpose has more
      signatures than were authorised for it. */
  lemma CountersAddUp(s: State, run: seq<Action>)
    requires Initial(s) && IsRun(s, run)
    ensures var u := After(s, run);
            && u.signCount
               == SignedFor(u, PrincipalContext) + SignedFor(u, EvidenceCheckpoint) + SignedFor(u, ReadinessProbe)
            && forall p: Purpose :: SignedFor(u, p) <= CountOf(u.granted, p)
  {
    hide IsRun;
    hide After;
    RunKeeps(s, run);
  }

  // ---------------------------------------------------------------- signatures made

  /** A signature made for p by this step, inside the window. */
  function Made(s: State, a: Action, p: Purpose, from: real, to: real): nat
    requires Enabled(s, a)
  {
    if a.Finish? && a.ok && s.pending[a.k] == p && from <= a.now <= to then 1 else 0
  }

  /** How many signatures a run makes for p inside the window. */
  ghost function MadeIn(s: State, run: seq<Action>, p: Purpose, from: real, to: real): nat
    requires IsRun(s, run)
    decreases |run|
  {
    if run == [] then 0 else Made(s, run[0], p, from, to) + MadeIn(Next(s, run[0]), run[1..], p, from, to)
  }

  /** How many signings for p are authorised and unfinished when time `from` comes. */
  ghost function PendingAt(s: State, run: seq<Action>, p: Purpose, from: real): nat
    requires IsRun(s, run)
    decreases |run|
  {
    if run == [] || from <= run[0].now then Count(s.pending, p) else PendingAt(Next(s, run[0]), run[1..], p, from)
  }

  lemma {:induction false} NoneMadeAfter(s: State, run: seq<Action>, p: Purpose, from: real, to: real)
    requires IsRun(s, run) && forall i :: 0 <= i < |run| ==> to < run[i].now
    ensures MadeIn(s, run, p, from, to) == 0
    decreases |run|
  {
    hide Next;
    hide Enabled;
    hide OnTime;
    if run == [] {
    } else {
      NoneMadeAfter(Next(s, run[0]), run[1..], p, from, to);
    }
  }

  /** A signature made inside the window was pending, or is paid for by the bucket. */
  lemma StepPaysSignature(s: State, a: Action, p: Purpose, from: real, to: real)
    requires Accounts(s) && Enabled(s, a) && OnTime(s, a) && p in s.buckets && from <= a.now <= to
    ensures p in Next(s, a).buckets
    ensures (Made(s, a, p, from, to) + Count(Next(s, a).pending, p)) as real + Potential(Next(s, a).buckets[p], from, to)
         <= Count(s.pending, p) as real + Potential(s.buckets[p], from, to)
  {
    hide Validates;
    hide Classify;
    hide Taken;
    hide Count;
    hide Potential;
    if a.Finish? {
      CountRemove(s.pending, a.k, p);
    } else if Refused(s, a.declared, a.message).None? {
      var q := Classify(a.message).value;
      TakePays(s.buckets[q], a.now, from, to);
      CountPush(s.pending, q, p);
    }
  }

  /** From the window's start on, signatures come out of what was pending and what the bucket
      can still give. */
  lemma {:induction false} SignaturesPaid(s: State, run: seq<Action>, p: Purpose, from: real, to: real)
    requires Accounts(s) && IsRun(s, run) && InOrder(run) && p in s.buckets && from <= to
    requires forall i :: 0 <= i < |run| ==> from <= run[i].now
    ensures MadeIn(s, run, p, from, to) as real <= Count(s.pending, p) as real + Potential(s.buckets[p], from, to)
    decreases |run|
  {
    hide Accounts;
    hide Next;
    hide Enabled;
    hide OnTime;
    hide Count;
    hide Potential;
    hide Made;
    if run == [] || to < run[0].now {
      NoneMadeAfter(s, run, p, from, to);
      BucketIsValid(s, p);
      PotentialBounds(s.buckets[p], from, to);
    } else {
      StepKeeps(s, run[0]);
      StepPaysSignature(s, run[0], p, from, to);
      SignaturesPaid(Next(s, run[0]), run[1..], p, from, to);
    }
  }

  lemma BucketIsValid(s: State, p: Purpose)
    requires Accounts(s) && p in s.buckets
    ensures s.buckets[p].Valid()
  {
  }

  lemma SameSettings(s: State, a: Action, p: Purpose)
    requires Accounts(s) && Enabled(s, a) && OnTime(s, a) && p in s.buckets
    ensures p in Next(s, a).buckets
    ensures Next(s, a).buckets[p].capacity == s.buckets[p].capacity && Next(s, a).buckets[p].perSec == s.buckets[p].perSec
  {
    hide Validates;
    hide Classify;
    hide Refilled;
  }

  /** In every run of interleaved requests and every window, the signatures made for a purpose
      number at most those already authorised when the window opens, its burst, and its rate times
      the window. */
  lemma {:induction false} SignatureBound(s: State, run: seq<Action>, p: Purpose, from: real, to: real)
    requires Accounts(s) && IsRun(s, run) && InOrder(run) && p in s.buckets && from <= to
    ensures MadeIn(s, run, p, from, to) as real
         <= PendingAt(s, run, p, from) as real + s.buckets[p].capacity + Times(to - from, s.buckets[p].perSec)
    decreases |run|
  {
    hide Accounts;
    hide Next;
    hide Enabled;
    hide OnTime;
    hide Count;
    hide Potential;
    hide Times;
    if run == [] || from <= run[0].now {
      SignaturesPaid(s, run, p, from, to);
      BucketIsValid(s, p);
      PotentialBounds(s.buckets[p], from, to);
    } else {
      StepKeeps(s, run[0]);
      SameSettings(s, run[0], p);
      SignatureBound(Next(s, run[0]), run[1..], p, from, to);
    }
  }

  lemma NothingPending(s: State, p: Purpose)
    requires Accounts(s) && p !in s.buckets
    ensures forall k :: 0 <= k < |s.pending| ==> s.pending[k] != p
  {
    hide Count;
    hide CountOf;
    NoneOf(s.granted, p);
    assert SignedFor(s, p) + Count(s.pending, p) <= CountOf(s.granted, p);
    forall k | 0 <= k < |s.pending|
      ensures s.pending[k] != p
    {
      CountRemove(s.pending, k, p);
    }
  }

  lemma {:induction false} NoneOf(gs: seq<Grant>, p: Purpose)
    requires forall i :: 0 <= i < |gs| ==> gs[i].purpose != p
    ensures CountOf(gs, p) == 0
  {
    if gs == [] {
    } else {
      NoneOf(gs[..|gs| - 1], p);
    }
  }

  lemma {:induction false} NoneMadeUnserved(s: State, run: seq<Action>, p: Purpose, from: real, to: real)
    requires Accounts(s) && IsRun(s, run) && p !in s.buckets
    ensures MadeIn(s, run, p, from, to) == 0
    decreases |run|
  {
    hide Accounts;
    hide Next;
    hide OnTime;
    if run == [] {
    } else {
      StepKeeps(s, run[0]);
      NothingPending(s, p);
      SameKeys(s, run[0]);
      NoneMadeUnserved(Next(s, run[0]), run[1..], p, from, to);
    }
  }

  lemma SameKeys(s: State, a: Action)
    requires Enabled(s, a)
    ensures Next(s, a).buckets.Keys == s.buckets.Keys
  {
    hide Validates;
    hide Classify;
    hide Taken;
  }

  lemma StartedAccounts(purposes: set<Purpose>, rate: real, burst: real, now: real)
    ensures Initial(Started(purposes, rate, burst, now)) && Accounts(Started(purposes, rate, burst, now))
  {
  }

  /** The signature bound of a daemon as it is configured. */
  lemma ConfiguredSignatureBound(purposes: set<Purpose>, rate: real, burst: real, now: real, run: seq<Action>,
                                 p: Purpose, from: real, to: real)
    requires from <= to && InOrder(run)
    requires IsRun(Started(purposes, rate, burst, now), run)
    ensures MadeIn(Started(purposes, rate, burst, now), run, p, from, to) as real
         <= PendingAt(Started(purposes, rate, burst, now), run, p, from) as real + Allowance(rate, burst, to - from)
  {
    hide IsRun;
    hide MadeIn;
    hide PendingAt;
    hide Times;
    hide Accounts;
    hide Allowance;
    var s := Started(purposes, rate, burst, now);
    AllowanceIs(rate, burst, to - from);
    StartedAccounts(purposes, rate, burst, now);
    if p in s.buckets {
      SignatureBound(s, run, p, from, to);
    } else {
      NoneMadeUnserved(s, run, p, from, to);
    }
  }

  lemma {:induction false} SignedIsMade(s: State, run: seq<Action>, p: Purpose, from: real, to: real)
    requires IsRun(s, run) && forall i :: 0 <= i < |run| ==> from <= run[i].now <= to
    ensures SignedFor(After(s, run), p) == SignedFor(s, p) + MadeIn(s, run, p, from, to)
    decreases |run|
  {
    hide Validates;
    hide Classify;
    hide Taken;
    hide OnTime;
    if run == [] {
    } else {
      assert SignedFor(Next(s, run[0]), p) == SignedFor(s, p) + Made(s, run[0], p, from, to);
      SignedIsMade(Next(s, run[0]), run[1..], p, from, to);
    }
  }

  /** From its start until any later time, the daemon's counter for a purpose stays within burst
      and rate. */
  lemma CounterBound(purposes: set<Purpose>, rate: real, burst: real, now: real, run: seq<Action>, p: Purpose, to: real)
    requires now <= to && InOrder(run) && forall i :: 0 <= i < |run| ==> now <= run[i].now <= to
    requires IsRun(Started(purposes, rate, burst, now), run)
    ensures SignedFor(After(Started(purposes, rate, burst, now), run), p) as real
         <= Allowance(rate, burst, to - now)
  {
    hide IsRun;
    hide After;
    hide MadeIn;
    hide Next;
    hide Allowance;
    var s := Started(purposes, rate, burst, now);
    ConfiguredSignatureBound(purposes, rate, burst, now, run, p, now, to);
    SignedIsMade(s, run, p, now, to);
    assert PendingAt(s, run, p, now) == Count([], p) == 0;
  }

  /** Nothing is authorised but a message that validates under the purpose its own bytes declare,
      one the daemon serves and the caller did not misname. */
  lemma GrantedIsSignable(s: State, declared: string, m: string, now: real)
    requires Asked(s, declared, m, now).1.Some?
    ensures var p := Asked(s, declared, m, now).1.value;
            && Classify(m) == Some(p) && Validates(p, m) && p in s.buckets && (declared == "" || declared == Name(p))
            && forall q :: Validates(q, m) ==> q == p
  {
    hide Classify;
    hide Taken;
    hide Validates;
    var p := Asked(s, declared, m, now).1.value;
    forall q | Validates(q, m)
      ensures q == p
    {
      NoTwoPurposes(m, q, p);
    }
  }

  /** What a caller may call a purpose. */
  ghost predicate Called(declared: string, p: Purpose) {
    match p
    case PrincipalContext => declared == "principal-context"
    case EvidenceCheckpoint => declared == "evidence-checkpoint"
    case ReadinessProbe => declared == "readiness-probe"
  }

  /** A signing is authorised if and only if the purpose is served, the message signable under it and
      not misnamed, and the bucket, filled up to its capacity since it was last asked, holds a token. */
  lemma AuthorizedIff(s: State, declared: string, m: string, now: real, p: Purpose)
    ensures Asked(s, declared, m, now).1 == Some(p)
       <==> && p in s.buckets && Signable(p, m) && (declared == "" || Called(declared, p))
            && s.buckets[p].capacity >= 1.0
            && s.buckets[p].tokens + (now - s.buckets[p].last) * s.buckets[p].perSec >= 1.0
  {
    hide Classify;
    hide Validates;
    hide Called;
    hide Name;
    NamesDiffer();
    if Classify(m) == Some(p) && p in s.buckets {
      TokenLeft(s.buckets[p], now);
    }
    if Asked(s, declared, m, now).1.Some? {
      assert Refused(s, declared, m).None?;
    }
  }

  lemma TokenLeft(b: Bucket, now: real)
    ensures Taken(b, now).1 <==> b.capacity >= 1.0 && b.tokens + (now - b.last) * b.perSec >= 1.0
  {
  }

  lemma NamesDiffer()
    ensures forall p: Purpose, declared: string :: Called(declared, p) <==> declared == Name(p)
  {
  }

  /** Refusing counts one refusal, under the purpose the message opens with or else as unknown; it
      authorises, counts and forgets nothing, and takes no token. */
  lemma RefusalIs(s: State, declared: string, m: string, now: real, key: string)
    requires Asked(s, declared, m, now).1.None?
    requires match Classify(m) case None => key == "unknown" case Some(p) => Called(key, p)
    ensures var u := Asked(s, declared, m, now).0;
            && u.refused == s.refused[key := 1 + if key in s.refused then s.refused[key] else 0]
            && u.signed == s.signed && u.signCount == s.signCount && u.granted == s.granted && u.pending == s.pending
            && u.buckets.Keys == s.buckets.Keys
            && forall p :: p in s.buckets ==>
                 u.buckets[p] == s.buckets[p] || u.buckets[p] == s.buckets[p].(last := now, tokens := Refilled(s.buckets[p], now))
  {
    hide Classify;
    hide Validates;
    hide Refilled;
    NamesDiffer();
  }

  // ---------------------------------------------------------------- the daemon

  class Daemon {
    var buckets: map<Purpose, TokenBucket>
    var signed: map<Purpose, nat>
    var refused: map<string, nat>
    var signCount: nat
    ghost var granted: seq<Grant>
    ghost var pending: seq<Purpose>

    /** One bucket for each purpose served, no two sharing one. */
    ghost predicate Valid()
      reads this
    {
      forall p, q :: p in buckets && q in buckets && p != q ==> buckets[p] != buckets[q]
    }

    ghost function View(): State
      reads this, buckets.Values
    {
      State(map p | p in buckets :: buckets[p].Value(), signed, refused, signCount, granted, pending)
    }

    /** NewDaemon, once its socket listens. */
    constructor (purposes: set<Purpose>, rate: real, burst: real, now: real)
      ensures Valid() && View() == Started(purposes, rate, burst, now)
    {
      signed, refused, signCount := map[], map[], 0;
      granted, pending := [], [];
      buckets := map[];
      new;
      var served := if purposes == {} then {PrincipalContext, EvidenceCheckpoint, ReadinessProbe} else purposes;
      var r, b := if rate <= 0.0 then DEFAULT_RATE else rate, if burst <= 0.0 then DEFAULT_BURST else burst;
      var left := served;
      while left != {}
        invariant left <= served && buckets.Keys == served - left && Valid()
        invariant forall p :: p in buckets ==> fresh(buckets[p]) && buckets[p].Value() == Bucket(b, r, b, now)
        invariant signed == map[] && refused == map[] && signCount == 0 && granted == [] && pending == []
        decreases |left|
      {
        var p :| p in left;
        var bucket := new TokenBucket(r, b, now);
        left := left - {p};
        buckets := buckets[p := bucket];
      }
      assert View().buckets == Started(purposes, rate, burst, now).buckets;
    }

    method CountRefusal(purpose: string)
      modifies this
      ensures buckets == old(buckets) && View() == Refusal(old(View()), purpose)
    {
      refused := refused[purpose := (if purpose in refused then refused[purpose] else 0) + 1];
    }

    /** authorizeSigning. */
    method AuthorizeSigning(declared: string, message: string, now: real) returns (r: Option<Purpose>)
      requires Valid()
      modifies this, buckets.Values
      ensures Valid() && buckets == old(buckets)
      ensures (View(), r) == Asked(old(View()), declared, message, now)
    {
      hide Classify;
      hide Validates;
      hide Taken;
      hide Bump;
      hide Name;
      var purpose := Classify(message);
      if purpose.None? {
        CountRefusal("unknown");
        return None;
      }
      var p := purpose.value;
      if declared != "" && declared != Name(p) {
        CountRefusal(Name(p));
        return None;
      }
      if p !in buckets {
        CountRefusal(Name(p));
        return None;
      }
      var ok := ValidateForPurpose(p, message);
      if !ok {
        CountRefusal(Name(p));
        return None;
      }
      ok := TakeFrom(p, now);
      if !ok {
        CountRefusal(Name(p));
        return None;
      }
      ghost var taken := View();
      granted := granted + [Grant(p, now)];
      pending := pending + [p];
      assert View().buckets == taken.buckets;
      return purpose;
    }

    method TakeFrom(p: Purpose, now: real) returns (ok: bool)
      requires Valid() && p in buckets
      modifies buckets[p]
      ensures Valid() && buckets == old(buckets) && ok == Taken(old(buckets[p].Value()), now).1
      ensures View() == old(View()).(buckets := old(View()).buckets[p := Taken(old(buckets[p].Value()), now).0])
    {
      hide Taken;
      ok := buckets[p].Take(now);
      assert View().buckets == old(View()).buckets[p := Taken(old(buckets[p].Value()), now).0];
    }

    /** The end of handle's signing branch, with what the signer returned. */
    method CountSignature(p: Purpose, sig: Option<string>)
      requires pending != [] && pending[|pending| - 1] == p
      modifies this
      ensures buckets == old(buckets) && View() == Finished(old(View()), |old(pending)| - 1, sig.Some?)
    {
      ghost var k := |pending| - 1;
      if sig.Some? {
        signCount := signCount + 1;
        signed := signed[p := (if p in signed then signed[p] else 0) + 1];
      }
      pending := pending[..k] + pending[k + 1..];
    }

    /** handle's signing branch, run without interruption: a reply of None is a refusal or a
        signer that failed. */
    method HandleSign(declared: string, message: string, now: real, signer: string -> Option<string>)
      returns (r: Option<string>)
      requires Valid()
      modifies this, buckets.Values
      ensures Valid() && buckets == old(buckets)
      ensures if message == "" || |message| > 0x10000 then r.None? && View() == old(View())
              else
                var (u, p) := Asked(old(View()), declared, message, now);
                r == (if p.Some? then signer(message) else None)
                && View() == if p.None? then u else Finished(u, |u.pending| - 1, signer(message).Some?)
    {
      hide Classify;
      hide Validates;
      hide Taken;
      if |message| == 0 || |message| > MAX_MESSAGE_BYTES {
        return None;
      }
      var purpose := AuthorizeSigning(declared, message, now);
      if purpose.None? {
        return None;
      }
      r := signer(message);
      CountSignature(purpose.value, r);
    }
  }
}
