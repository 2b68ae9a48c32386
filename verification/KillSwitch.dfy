/** The kill switch: any number of tunnel handlers (internal/confine/proxy.go) and Revoke calls
    (internal/confine/registry.go) interleaved step by step, over the registry's own operations. */
module KillSwitch {
  import opened Decimal
  import opened Registry

  /** The remaining calls of a handler that is tearing its tunnel down, in order. */
  datatype Cleanup = Close(conn: nat) | Release(conn: nat)

  /** Where a tunnel handler is. Every state knows its workload; connections are opened on the way. */
  datatype Handler =
    | Authorized(id: string)
    | Dialed(id: string, up: nat)
    | Hijacked(id: string, up: nat, client: nat)
    | ClientTracked(id: string, up: nat, client: nat)
    | BothTracked(id: string, up: nat, client: nat)
    | Piping(id: string, up: nat, client: nat)
    | TearingDown(id: string, todo: seq<Cleanup>)

  /** A Revoke past its critical section, with the connections it has yet to close. */
  datatype Revoker = Revoker(id: string, doomed: set<nat>)

  /** `owner` remembers which workload each connection was opened for; `next` is a fresh connection. */
  datatype State = State(table: Table, open: set<nat>, owner: map<nat, string>, next: nat,
                         handlers: map<nat, Handler>, revokers: map<nat, Revoker>)

  datatype Action =
    | Begin(h: nat, id: string)
    | Dial(h: nat, reached: bool)
    | Hijack(h: nat, ok: bool)
    | TrackClient(h: nat)
    | TrackUpstream(h: nat)
    | Greet(h: nat, ok: bool)
    | PipeEnds(h: nat, clientFirst: bool)
    | CleanUp(h: nat)
    | Revoke(r: nat, id: string)
    | CloseDoomed(r: nat, conn: nat)
    | FinishRevoke(r: nat)
    | Register(given: Identity)

  ghost predicate Enabled(s: State, a: Action) {
    match a
    case Begin(h, id) => h !in s.handlers && id in s.table.byId && !s.table.byId[id].revoked
    case Dial(h, _) => h in s.handlers && s.handlers[h].Authorized?
    case Hijack(h, _) => h in s.handlers && s.handlers[h].Dialed?
    case TrackClient(h) => h in s.handlers && s.handlers[h].Hijacked?
    case TrackUpstream(h) => h in s.handlers && s.handlers[h].ClientTracked?
    case Greet(h, _) => h in s.handlers && s.handlers[h].BothTracked?
    case PipeEnds(h, _) => h in s.handlers && s.handlers[h].Piping?
    case CleanUp(h) => h in s.handlers && s.handlers[h].TearingDown?
    case Revoke(r, _) => r !in s.revokers
    case CloseDoomed(r, c) => r in s.revokers && c in s.revokers[r].doomed
    case FinishRevoke(r) => r in s.revokers && s.revokers[r].doomed == {}
    case Register(_) => true
  }

  function Becomes(s: State, h: nat, pc: Handler): State {
    s.(handlers := s.handlers[h := pc])
  }

  /** A connection opened for a workload. */
  function Opened(s: State, id: string): State {
    s.(open := s.open + {s.next}, owner := s.owner[s.next := id], next := s.next + 1)
  }

  ghost function Next(s: State, a: Action): State
    requires Enabled(s, a)
  {
    match a
    case Begin(h, id) => Becomes(s, h, Authorized(id))
    case Dial(h, reached) =>
      var id := s.handlers[h].id;
      if reached then Becomes(Opened(s, id), h, Dialed(id, s.next)) else Becomes(s, h, TearingDown(id, []))
    case Hijack(h, ok) =>
      var (id, up) := (s.handlers[h].id, s.handlers[h].up);
      if ok then Becomes(Opened(s, id), h, Hijacked(id, up, s.next))
      else Becomes(s, h, TearingDown(id, [Close(up)]))
    case TrackClient(h) =>
      var pc := s.handlers[h];
      (match TrackIn(s.table, pc.id, pc.client)
       case Some(t) => Becomes(s.(table := t), h, ClientTracked(pc.id, pc.up, pc.client))
       case None => Becomes(s, h, TearingDown(pc.id, [Close(pc.client), Close(pc.up)])))
    case TrackUpstream(h) =>
      var pc := s.handlers[h];
      (match TrackIn(s.table, pc.id, pc.up)
       case Some(t) => Becomes(s.(table := t), h, BothTracked(pc.id, pc.up, pc.client))
       case None =>
         Becomes(s, h, TearingDown(pc.id, [Release(pc.client), Close(pc.client), Close(pc.up)])))
    case Greet(h, ok) =>
      var pc := s.handlers[h];
      if ok then Becomes(s, h, Piping(pc.id, pc.up, pc.client))
      else Becomes(s, h, TearingDown(pc.id, [Release(pc.client), Release(pc.up), Close(pc.client), Close(pc.up)]))
    case PipeEnds(h, clientFirst) =>
      var pc := s.handlers[h];
      var closing := if clientFirst then [Close(pc.client), Close(pc.up)] else [Close(pc.up), Close(pc.client)];
      Becomes(s, h, TearingDown(pc.id, closing + [Release(pc.up), Release(pc.client)]))
    case CleanUp(h) =>
      var pc := s.handlers[h];
      if pc.todo == [] then s.(handlers := s.handlers - {h})
      else
        var u := (match pc.todo[0]
                  case Close(c) => s.(open := s.open - {c})
                  case Release(c) => s.(table := ReleaseIn(s.table, pc.id, c)));
        Becomes(u, h, TearingDown(pc.id, pc.todo[1..]))
    case Revoke(r, id) =>
      (match RevokeIn(s.table, id)
       case None => s
       case Some((t, doomed)) => s.(table := t, revokers := s.revokers[r := Revoker(id, doomed)]))
    case CloseDoomed(r, c) =>
      var v := s.revokers[r];
      s.(open := s.open - {c}, revokers := s.revokers[r := v.(doomed := v.doomed - {c})])
    case FinishRevoke(r) => s.(revokers := s.revokers - {r})
    case Register(given) =>
      (match RegisterIn(s.table, given)
       case None => s
       case Some(t) => s.(table := t))
  }

  ghost predicate Initial(s: State) {
    s.table == Table(map[], map[]) && s.open == {} && s.owner == map[] && s.next == 0
    && s.handlers == map[] && s.revokers == map[]
  }

  // ---------------------------------------------------------------- who answers for a connection

  /** The handler is going to track or close c itself. */
  predicate Holds(pc: Handler, c: nat) {
    match pc
    case Dialed(_, up) => c == up
    case Hijacked(_, up, client) => c == up || c == client
    case ClientTracked(_, up, _) => c == up
    case TearingDown(_, todo) => Close(c) in todo
    case _ => false
  }

  /** The connections a handler refers to at all. */
  predicate Mentions(pc: Handler, c: nat) {
    match pc
    case Authorized(_) => false
    case Dialed(_, up) => c == up
    case TearingDown(_, todo) => Close(c) in todo || Release(c) in todo
    case _ => c == pc.up || c == pc.client
  }

  ghost predicate HeldBy(s: State, c: nat, h: nat) {
    h in s.handlers && c in s.owner && s.handlers[h].id == s.owner[c] && Holds(s.handlers[h], c)
  }

  ghost predicate DoomedBy(s: State, c: nat, r: nat) {
    r in s.revokers && c in s.owner && s.revokers[r].id == s.owner[c] && c in s.revokers[r].doomed
  }

  ghost predicate Tracked(s: State, c: nat) {
    c in s.owner && s.owner[c] in s.table.byId && c in s.table.byId[s.owner[c]].conns
  }

  /** An open connection is tracked, about to be closed by a Revoke, or held by a handler. */
  ghost predicate Answered(s: State, c: nat) {
    Tracked(s, c) || (exists r :: DoomedBy(s, c, r)) || (exists h :: HeldBy(s, c, h))
  }

  ghost predicate OwnConns(s: State, h: nat)
    requires h in s.handlers
  {
    forall c :: Mentions(s.handlers[h], c) ==> c in s.owner && s.owner[c] == s.handlers[h].id
  }

  /** A release is never due before the connection it stops tracking is closed, unless the handler
      still has the close ahead of it. */
  ghost predicate ReleasesLast(s: State, h: nat)
    requires h in s.handlers
  {
    s.handlers[h].TearingDown? ==>
      forall c :: Release(c) in s.handlers[h].todo ==> c !in s.open || Close(c) in s.handlers[h].todo
  }

  ghost predicate Inv(s: State) {
    && (forall c :: c in s.open ==> c in s.owner && c < s.next && Answered(s, c))
    && (forall c :: c in s.owner ==> c < s.next)
    && (forall h :: h in s.handlers ==> OwnConns(s, h) && ReleasesLast(s, h))
    && (forall id :: id in s.table.byId && s.table.byId[id].revoked ==> s.table.byId[id].conns == {})
  }

  // ---------------------------------------------------------------- the theorem

  /** Nothing of a revoked workload is still to be closed or tracked: its Revoke has finished and
      every handler of it that opened or is closing a connection has run to its end. */
  ghost predicate Settled(s: State, id: string) {
    && id in s.table.byId && s.table.byId[id].revoked
    && (forall r :: r in s.revokers ==> s.revokers[r].id != id)
    && (forall h :: h in s.handlers && s.handlers[h].id == id ==> Idle(s.handlers[h]))
  }

  /** The handler holds no connection it has yet to track or close. */
  predicate Idle(pc: Handler) {
    match pc
    case Authorized(_) | BothTracked(_, _, _) | Piping(_, _, _) => true
    case TearingDown(_, todo) => forall i :: 0 <= i < |todo| ==> todo[i].Release?
    case _ => false
  }

  ghost predicate IsRun(s: State, run: seq<Action>)
    decreases |run|
  {
    run != [] ==> Enabled(s, run[0]) && IsRun(Next(s, run[0]), run[1..])
  }

  ghost function After(s: State, run: seq<Action>): State
    requires IsRun(s, run)
    decreases |run|
  {
    if run == [] then s else After(Next(s, run[0]), run[1..])
  }

  /** The kill switch works: in every interleaving, once a workload is revoked and its Revoke and
      its handlers' pending steps are done, none of its tunnel connections is open. */
  lemma RevokedMeansClosed(s: State, run: seq<Action>, id: string, c: nat)
    requires Initial(s) && IsRun(s, run)
    requires Settled(After(s, run), id)
    requires c in After(s, run).owner && After(s, run).owner[c] == id
    ensures c !in After(s, run).open
  {
    RunKeeps(s, run);
    var u := After(s, run);
    assert !Tracked(u, c);
    forall h
      ensures !HeldBy(u, c, h)
    {
      assert h in u.handlers && u.handlers[h].id == id ==> Idle(u.handlers[h]);
    }
    assert !Answered(u, c);
  }

  /** Revocation is for good: no later Track for that workload ever succeeds. */
  lemma {:induction false} NeverTrackedAgain(s: State, run: seq<Action>, id: string, conn: nat)
    requires IsRun(s, run) && id in s.table.byId && s.table.byId[id].revoked
    ensures var u := After(s, run);
            id in u.table.byId && u.table.byId[id].revoked && TrackIn(u.table, id, conn).None?
    decreases |run|
  {
    if run == [] {
    } else {
      StaysRevoked(s, run[0], id);
      NeverTrackedAgain(Next(s, run[0]), run[1..], id, conn);
    }
  }

  lemma StaysRevoked(s: State, a: Action, id: string)
    requires Enabled(s, a) && id in s.table.byId && s.table.byId[id].revoked
    ensures id in Next(s, a).table.byId && Next(s, a).table.byId[id].revoked
  {
  }

  lemma {:induction false} RunKeeps(s: State, run: seq<Action>)
    requires IsRun(s, run) && (Initial(s) || Inv(s))
    ensures Inv(After(s, run))
    decreases |run|
  {
    hide Next;
    hide Enabled;
    if run == [] {
    } else {
      assert Inv(s);
      StepKeeps(s, run[0]);
      RunKeeps(Next(s, run[0]), run[1..]);
    }
  }

  // ---------------------------------------------------------------- every step keeps the invariant

  /** Every step of every action keeps the invariant. */
  lemma StepKeeps(s: State, a: Action)
    requires Inv(s) && Enabled(s, a)
    ensures Inv(Next(s, a))
  {
    match a
    case Begin(_, _) => HandlerKeeps(s, a);
    case Dial(_, _) => OpeningKeeps(s, a);
    case Hijack(_, _) => OpeningKeeps(s, a);
    case TrackClient(_) => TrackKeeps(s, a);
    case TrackUpstream(_) => TrackKeeps(s, a);
    case Greet(_, _) => HandlerKeeps(s, a);
    case PipeEnds(_, _) => HandlerKeeps(s, a);
    case CleanUp(_) => CleanUpKeeps(s, a);
    case Revoke(_, _) => RevokeKeeps(s, a);
    case CloseDoomed(_, _) => RevokerKeeps(s, a);
    case FinishRevoke(_) => RevokerKeeps(s, a);
    case Register(_) => RegisterStepKeeps(s, a);
  }

  /** Who answered for c still does, after a step of handler h that leaves c's tracking alone. */
  lemma StillAnswered(s: State, u: State, c: nat, h: nat)
    requires Answered(s, c) && c in u.owner && u.owner[c] == s.owner[c]
    requires Tracked(s, c) ==> Tracked(u, c) || HeldBy(u, c, h)
    requires forall r :: DoomedBy(s, c, r) ==> r in u.revokers && u.revokers[r] == s.revokers[r]
    requires forall g :: g in s.handlers && g != h ==> g in u.handlers && u.handlers[g] == s.handlers[g]
    requires HeldBy(s, c, h) ==> HeldBy(u, c, h) || Tracked(u, c)
    ensures Answered(u, c)
  {
    if !Tracked(s, c) {
      if r :| DoomedBy(s, c, r) {
        assert DoomedBy(u, c, r);
      } else {
        var g :| HeldBy(s, c, g);
        assert g != h ==> HeldBy(u, c, g);
      }
    }
  }

  /** Every handler's own claims, once the one that moved is seen to. */
  ghost predicate HandlersGood(s: State) {
    forall h :: h in s.handlers ==> OwnConns(s, h) && ReleasesLast(s, h)
  }

  ghost predicate AllAnswered(s: State) {
    forall c :: c in s.open ==> Answered(s, c)
  }

  lemma HandlerKeeps(s: State, a: Action)
    requires Inv(s) && Enabled(s, a) && (a.Begin? || a.Greet? || a.PipeEnds?)
    ensures Inv(Next(s, a))
  {
    HandlerGood(s, a);
    HandlerAnswers(s, a);
  }

  lemma HandlerGood(s: State, a: Action)
    requires Inv(s) && Enabled(s, a) && (a.Begin? || a.Greet? || a.PipeEnds?)
    ensures HandlersGood(Next(s, a))
  {
    hide Answered;
    var u := Next(s, a);
    if !a.Begin? {
      assert OwnConns(s, a.h);
      assert forall c :: Mentions(u.handlers[a.h], c) ==> Mentions(s.handlers[a.h], c);
    }
    forall h | h in u.handlers
      ensures OwnConns(u, h) && ReleasesLast(u, h)
    {
      if h != a.h {
        assert OwnConns(s, h) && ReleasesLast(s, h);
      }
    }
  }

  lemma HandlerAnswers(s: State, a: Action)
    requires Inv(s) && Enabled(s, a) && (a.Begin? || a.Greet? || a.PipeEnds?)
    ensures AllAnswered(Next(s, a))
  {
    hide OwnConns;
    hide ReleasesLast;
    hide Answered;
    var u := Next(s, a);
    forall c | c in u.open
      ensures Answered(u, c)
    {
      StillAnswered(s, u, c, a.h);
    }
  }

  lemma OpeningKeeps(s: State, a: Action)
    requires Inv(s) && Enabled(s, a) && (a.Dial? || a.Hijack?)
    ensures Inv(Next(s, a))
  {
    var u := Next(s, a);
    assert OwnConns(s, a.h);
    forall h | h in u.handlers
      ensures OwnConns(u, h) && ReleasesLast(u, h)
    {
      if h != a.h {
        OthersUntouched(s, u, h);
      }
    }
    forall c | c in u.open
      ensures c in u.owner && c < u.next && Answered(u, c)
    {
      if c == s.next {
        assert HeldBy(u, c, a.h);
      } else {
        StillAnswered(s, u, c, a.h);
      }
    }
  }

  lemma OthersUntouched(s: State, u: State, h: nat)
    requires Inv(s) && h in s.handlers && h in u.handlers && u.handlers[h] == s.handlers[h]
    requires forall c :: c in s.owner ==> c in u.owner && u.owner[c] == s.owner[c]
    requires forall c :: c in u.open ==> c in s.open || c !in s.owner
    ensures OwnConns(u, h) && ReleasesLast(u, h)
  {
    assert OwnConns(s, h) && ReleasesLast(s, h);
    if s.handlers[h].TearingDown? {
      forall c | Release(c) in s.handlers[h].todo
        ensures c !in u.open || Close(c) in s.handlers[h].todo
      {
        assert Mentions(s.handlers[h], c);
      }
    }
  }

  lemma TrackerKeeps(s: State, a: Action)
    requires Inv(s) && Enabled(s, a) && (a.TrackClient? || a.TrackUpstream?)
    ensures OwnConns(Next(s, a), a.h) && ReleasesLast(Next(s, a), a.h)
  {
    assert OwnConns(s, a.h);
    assert Mentions(s.handlers[a.h], s.handlers[a.h].client) && Mentions(s.handlers[a.h], s.handlers[a.h].up);
  }

  lemma TrackKeeps(s: State, a: Action)
    requires Inv(s) && Enabled(s, a) && (a.TrackClient? || a.TrackUpstream?)
    ensures Inv(Next(s, a))
  {
    hide Answered;
    var u := Next(s, a);
    TrackerKeeps(s, a);
    TrackAnswers(s, a);
    forall h | h in u.handlers
      ensures OwnConns(u, h) && ReleasesLast(u, h)
    {
      if h != a.h {
        OthersUntouched(s, u, h);
      }
    }
  }

  lemma TrackAnswers(s: State, a: Action)
    requires Inv(s) && Enabled(s, a) && (a.TrackClient? || a.TrackUpstream?)
    ensures AllAnswered(Next(s, a))
  {
    hide OwnConns;
    hide ReleasesLast;
    hide Answered;
    var u := Next(s, a);
    forall c | c in u.open
      ensures Answered(u, c)
    {
      StillAnswered(s, u, c, a.h);
    }
  }

  lemma CleanUpKeeps(s: State, a: Action)
    requires Inv(s) && Enabled(s, a) && a.CleanUp?
    ensures Inv(Next(s, a))
  {
    CleanUpGood(s, a);
    CleanUpAnswers(s, a);
  }

  lemma RestOfTodo(todo: seq<Cleanup>)
    requires todo != []
    ensures forall x :: x in todo[1..] ==> x in todo
    ensures forall x :: x in todo && x != todo[0] ==> x in todo[1..]
  {
  }

  lemma CleanUpGood(s: State, a: Action)
    requires Inv(s) && Enabled(s, a) && a.CleanUp?
    ensures HandlersGood(Next(s, a))
  {
    hide Answered;
    var u := Next(s, a);
    var todo := s.handlers[a.h].todo;
    assert OwnConns(s, a.h) && ReleasesLast(s, a.h);
    if todo != [] {
      RestOfTodo(todo);
    }
    forall h | h in u.handlers
      ensures OwnConns(u, h) && ReleasesLast(u, h)
    {
      if h != a.h {
        OthersUntouched(s, u, h);
      }
    }
  }

  lemma CleanUpAnswers(s: State, a: Action)
    requires Inv(s) && Enabled(s, a) && a.CleanUp?
    ensures AllAnswered(Next(s, a))
  {
    hide OwnConns;
    hide Answered;
    var u := Next(s, a);
    var todo := s.handlers[a.h].todo;
    assert ReleasesLast(s, a.h);
    if todo != [] {
      RestOfTodo(todo);
    }
    forall c | c in u.open
      ensures Answered(u, c)
    {
      StillAnswered(s, u, c, a.h);
    }
  }

  lemma RevokeKeeps(s: State, a: Action)
    requires Inv(s) && Enabled(s, a) && a.Revoke?
    ensures Inv(Next(s, a))
  {
    var u := Next(s, a);
    forall h | h in u.handlers
      ensures OwnConns(u, h) && ReleasesLast(u, h)
    {
      OthersUntouched(s, u, h);
    }
    forall c | c in u.open
      ensures Answered(u, c)
    {
      if Tracked(s, c) {
        assert Tracked(u, c) || DoomedBy(u, c, a.r);
      } else if r :| DoomedBy(s, c, r) {
        assert DoomedBy(u, c, r);
      } else {
        var h :| HeldBy(s, c, h);
        assert HeldBy(u, c, h);
      }
    }
  }

  lemma RevokerKeeps(s: State, a: Action)
    requires Inv(s) && Enabled(s, a) && (a.CloseDoomed? || a.FinishRevoke?)
    ensures Inv(Next(s, a))
  {
    var u := Next(s, a);
    forall h | h in u.handlers
      ensures OwnConns(u, h) && ReleasesLast(u, h)
    {
      OthersUntouched(s, u, h);
    }
    forall c | c in u.open
      ensures Answered(u, c)
    {
      if Tracked(s, c) {
        assert Tracked(u, c);
      } else if r :| DoomedBy(s, c, r) {
        assert DoomedBy(u, c, r);
      } else {
        var h :| HeldBy(s, c, h);
        assert HeldBy(u, c, h);
      }
    }
  }

  lemma RegisterStepKeeps(s: State, a: Action)
    requires Inv(s) && Enabled(s, a) && a.Register?
    ensures Inv(Next(s, a))
  {
    var u := Next(s, a);
    forall h | h in u.handlers
      ensures OwnConns(u, h) && ReleasesLast(u, h)
    {
      OthersUntouched(s, u, h);
    }
    forall c | c in u.open
      ensures Answered(u, c)
    {
      if Tracked(s, c) {
        assert Tracked(u, c);
      } else if r :| DoomedBy(s, c, r) {
        assert DoomedBy(u, c, r);
      } else {
        var h :| HeldBy(s, c, h);
        assert HeldBy(u, c, h);
      }
    }
  }

  // ---------------------------------------------------------------- and it gets there

  /** An upper bound on the steps a handler has left once its pipe ends. */
  function Remaining(pc: Handler): nat {
    match pc
    case Authorized(_) => 13
    case Dialed(_, _) => 12
    case Hijacked(_, _, _) => 11
    case ClientTracked(_, _, _) => 10
    case BothTracked(_, _, _) => 9
    case Piping(_, _, _) => 8
    case TearingDown(_, todo) => |todo| + 1
  }

  /** No handler waits for another: its next step is always possible, and each one brings it
      strictly nearer its end, whatever the registry answers. */
  lemma HandlersFinish(s: State, h: nat)
    requires h in s.handlers
    ensures exists a: Action :: Enabled(s, a) && IsStepOf(a, h)
    ensures forall a: Action :: Enabled(s, a) && IsStepOf(a, h) ==>
              h !in Next(s, a).handlers || Remaining(Next(s, a).handlers[h]) < Remaining(s.handlers[h])
  {
    var a := (match s.handlers[h]
              case Authorized(_) => Dial(h, true)
              case Dialed(_, _) => Hijack(h, true)
              case Hijacked(_, _, _) => TrackClient(h)
              case ClientTracked(_, _, _) => TrackUpstream(h)
              case BothTracked(_, _, _) => Greet(h, true)
              case Piping(_, _, _) => PipeEnds(h, true)
              case TearingDown(_, _) => CleanUp(h));
    assert Enabled(s, a) && IsStepOf(a, h);
  }

  predicate IsStepOf(a: Action, h: nat) {
    (a.Dial? || a.Hijack? || a.TrackClient? || a.TrackUpstream? || a.Greet? || a.PipeEnds? || a.CleanUp?) && a.h == h
  }
}
