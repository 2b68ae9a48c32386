/** Workloads, their live connections and revocation: internal/confine/registry.go. */
module Registry {
  import opened Decimal
  import opened Guard

  datatype Identity = Identity(workloadId: string, source: Addr)

  datatype Workload = Workload(identity: Identity, revoked: bool, conns: set<nat>)

  datatype LookupResult = Unknown | Revoked(id: Identity) | Live(id: Identity)

  /** The registry as a value: states by workload id, and the address each one is bound to. */
  datatype Table = Table(byId: map<string, Workload>, byAddr: map<Addr, string>)

  /** The two indexes describe one set of workloads, each bound to its own unmapped address. */
  ghost predicate Coherent(t: Table) {
    && (forall id :: id in t.byId ==> BoundAt(t, id))
    && (forall a :: a in t.byAddr ==> t.byAddr[a] in t.byId && t.byId[t.byAddr[a]].identity.source == a)
    && (forall id :: id in t.byId && t.byId[id].revoked ==> t.byId[id].conns == {})
  }

  ghost predicate BoundAt(t: Table, id: string)
    requires id in t.byId
  {
    var w := t.byId[id].identity;
    w.workloadId == id && w.source == w.source.Unmap() && w.source in t.byAddr && t.byAddr[w.source] == id
  }

  function RegisterIn(t: Table, id: Identity): Option<Table> {
    var source := id.source.Unmap();
    if id.workloadId == "" || id.source.Invalid? then None
    else if source in t.byAddr && t.byAddr[source] != id.workloadId then None
    else if id.workloadId in t.byId then None
    else Some(Table(t.byId[id.workloadId := Workload(Identity(id.workloadId, source), false, {})],
                    t.byAddr[source := id.workloadId]))
  }

  function LookupIn(t: Table, a: Addr): LookupResult {
    var source := a.Unmap();
    if source !in t.byAddr || t.byAddr[source] !in t.byId then Unknown
    else
      var w := t.byId[t.byAddr[source]];
      if w.revoked then Revoked(w.identity) else Live(w.identity)
  }

  /** Track: the connection joins the workload, unless that is unknown or revoked. */
  function TrackIn(t: Table, id: string, conn: nat): Option<Table> {
    if id !in t.byId || t.byId[id].revoked then None
    else Some(t.(byId := t.byId[id := t.byId[id].(conns := t.byId[id].conns + {conn})]))
  }

  /** The release function Track returned. */
  function ReleaseIn(t: Table, id: string, conn: nat): Table {
    if id !in t.byId then t
    else t.(byId := t.byId[id := t.byId[id].(conns := t.byId[id].conns - {conn})])
  }

  /** Revoke under the lock: the connections it is about to close, or None if there is nothing to do. */
  function RevokeIn(t: Table, id: string): Option<(Table, set<nat>)> {
    if id !in t.byId || t.byId[id].revoked then None
    else
      var w := t.byId[id];
      Some((t.(byId := t.byId[id := w.(revoked := true, conns := {})]), w.conns))
  }

  /** Registration never rebinds: whatever was registered keeps its identity and its address. */
  lemma RegisterKeeps(t: Table, given: Identity)
    requires Coherent(t) && RegisterIn(t, given).Some?
    ensures var u := RegisterIn(t, given).value;
            && Coherent(u)
            && (forall id :: id in t.byId ==> id in u.byId && u.byId[id] == t.byId[id])
            && (forall a :: a in t.byAddr ==> a in u.byAddr && u.byAddr[a] == t.byAddr[a])
            && LookupIn(u, given.source) == Live(Identity(given.workloadId, given.source.Unmap()))
  {
    var u := RegisterIn(t, given).value;
    UnmapTwice(given.source);
    assert given.source.Unmap() !in t.byAddr;
    forall id | id in u.byId
      ensures BoundAt(u, id)
    {
      if id in t.byId {
        assert BoundAt(t, id);
      }
    }
  }

  lemma UnmapTwice(a: Addr)
    ensures a.Unmap().Unmap() == a.Unmap()
  {
  }

  /** A workload is registered if and only if it has an id and an address, and neither is taken. */
  lemma RegisteredIff(t: Table, given: Identity)
    requires Coherent(t)
    ensures RegisterIn(t, given).Some?
       <==> && given.workloadId != "" && !given.source.Invalid? && given.workloadId !in t.byId
            && forall id :: id in t.byId ==> t.byId[id].identity.source != given.source.Unmap()
  {
    hide Addr.Unmap;
    var source := given.source.Unmap();
    forall id | id in t.byId
      ensures BoundAt(t, id)
    {
    }
    if source in t.byAddr {
      assert t.byId[t.byAddr[source]].identity.source == source;
    }
  }

  lemma TrackKeeps(t: Table, id: string, conn: nat)
    requires Coherent(t) && TrackIn(t, id, conn).Some?
    ensures Coherent(TrackIn(t, id, conn).value)
  {
    SameBindings(t, TrackIn(t, id, conn).value);
  }

  lemma ReleaseKeeps(t: Table, id: string, conn: nat)
    requires Coherent(t)
    ensures Coherent(ReleaseIn(t, id, conn))
  {
    SameBindings(t, ReleaseIn(t, id, conn));
  }

  lemma RevokeKeeps(t: Table, id: string)
    requires Coherent(t) && RevokeIn(t, id).Some?
    ensures Coherent(RevokeIn(t, id).value.0)
    ensures forall a :: LookupIn(t, a).Live? && LookupIn(t, a).id.workloadId == id ==>
              LookupIn(RevokeIn(t, id).value.0, a) == Revoked(LookupIn(t, a).id)
  {
    SameBindings(t, RevokeIn(t, id).value.0);
  }

  /** What changes only flags and connections keeps every workload bound where it is. */
  lemma SameBindings(t: Table, u: Table)
    requires Coherent(t) && u.byAddr == t.byAddr && u.byId.Keys == t.byId.Keys
    requires forall id :: id in t.byId ==> u.byId[id].identity == t.byId[id].identity
    requires forall id :: id in u.byId && u.byId[id].revoked ==> u.byId[id].conns == {}
    ensures Coherent(u)
  {
    forall id | id in u.byId
      ensures BoundAt(u, id)
    {
      assert BoundAt(t, id);
    }
  }

  /** Every workload is found at its own address, whatever the spelling, and nothing else is. */
  lemma LookupIff(t: Table, a: Addr, id: string)
    requires Coherent(t)
    ensures (!LookupIn(t, a).Unknown? && LookupIn(t, a).id.workloadId == id)
       <==> id in t.byId && t.byId[id].identity.source == a.Unmap()
  {
    hide Addr.Unmap;
    if id in t.byId {
      assert BoundAt(t, id);
    }
    if a.Unmap() in t.byAddr {
      assert BoundAt(t, t.byAddr[a.Unmap()]);
    }
  }

  class WorkloadState {
    const identity: Identity
    var revoked: bool
    var conns: set<nat>

    constructor (identity: Identity)
      ensures this.identity == identity && View() == Workload(identity, false, {})
    {
      this.identity := identity;
      revoked, conns := false, {};
    }

    function View(): Workload
      reads this
    {
      Workload(identity, revoked, conns)
    }
  }

  /** Both indexes hold the same objects, one per id, filed under its own id. */
  ghost predicate Filed(byId: map<string, WorkloadState>, byAddr: map<Addr, WorkloadState>) {
    && (forall id :: id in byId ==> byId[id].identity.workloadId == id)
    && (forall a :: a in byAddr ==> byAddr[a].identity.workloadId in byId
                                    && byId[byAddr[a].identity.workloadId] == byAddr[a])
    && (forall x, y :: x in byId && y in byId && x != y ==> byId[x] != byId[y])
  }

  lemma FiledPush(byId: map<string, WorkloadState>, byAddr: map<Addr, WorkloadState>, st: WorkloadState)
    requires Filed(byId, byAddr) && st.identity.workloadId !in byId && forall x :: x in byId ==> byId[x] != st
    ensures Filed(byId[st.identity.workloadId := st], byAddr[st.identity.source := st])
  {
  }

  class Registry {
    var byAddr: map<Addr, WorkloadState>
    var byId: map<string, WorkloadState>

    ghost predicate Valid()
      reads this, byId.Values, byAddr.Values
    {
      Filed(byId, byAddr) && Coherent(View())
    }

    ghost function View(): Table
      reads this, byId.Values, byAddr.Values
    {
      Table(map id | id in byId :: byId[id].View(), map a | a in byAddr :: byAddr[a].identity.workloadId)
    }

    constructor ()
      ensures Valid() && View() == Table(map[], map[])
    {
      byAddr, byId := map[], map[];
    }

    method Register(given: Identity) returns (ok: bool)
      requires Valid()
      modifies this
      ensures Valid()
      ensures var r := RegisterIn(old(View()), given);
              ok == r.Some? && View() == if r.Some? then r.value else old(View())
    {
      hide Addr.Unmap;
      hide Coherent;
      if given.workloadId == "" {
        return false;
      }
      if given.source.Invalid? {
        return false;
      }
      var id := given.(source := given.source.Unmap());
      if id.source in byAddr && byAddr[id.source].identity.workloadId != id.workloadId {
        return false;
      }
      if id.workloadId in byId {
        return false;
      }
      ghost var was := View();
      Bind(id);
      RegisterKeeps(was, given);
      return true;
    }

    /** The tail of Register, once nothing stands in the way. */
    method Bind(id: Identity)
      requires Filed(byId, byAddr) && id.workloadId !in byId && id.source !in byAddr
      modifies this
      ensures Filed(byId, byAddr)
      ensures View() == Table(old(View()).byId[id.workloadId := Workload(id, false, {})],
                              old(View()).byAddr[id.source := id.workloadId])
    {
      hide Filed;
      hide Coherent;
      hide WorkloadState.View;
      hide Addr.Unmap;
      var st := new WorkloadState(id);
      assert forall x :: x in byId ==> byId[x] != st;
      FiledPush(byId, byAddr, st);
      byAddr := byAddr[id.source := st];
      byId := byId[id.workloadId := st];
    }

    method Lookup(addr: Addr) returns (r: LookupResult)
      requires Valid()
      ensures r == LookupIn(View(), addr)
    {
      var a := addr.Unmap();
      if a !in byAddr {
        return Unknown;
      }
      var st := byAddr[a];
      if st.revoked {
        return Revoked(st.identity);
      }
      return Live(st.identity);
    }

    method Track(id: string, conn: nat) returns (ok: bool)
      requires Valid()
      modifies byId.Values
      ensures Valid() && byId == old(byId) && byAddr == old(byAddr)
      ensures var r := TrackIn(old(View()), id, conn);
              ok == r.Some? && View() == if r.Some? then r.value else old(View())
    {
      hide Coherent;
      if id !in byId {
        return false;
      }
      var st := byId[id];
      if st.revoked {
        return false;
      }
      ghost var r := TrackIn(View(), id, conn).value;
      TrackKeeps(View(), id, conn);
      st.conns := st.conns + {conn};
      assert View().byId == r.byId && View().byAddr == r.byAddr;
      return true;
    }

    method Release(id: string, conn: nat)
      requires Valid()
      modifies byId.Values
      ensures Valid() && byId == old(byId) && byAddr == old(byAddr)
      ensures View() == ReleaseIn(old(View()), id, conn)
    {
      hide Coherent;
      ghost var r := ReleaseIn(View(), id, conn);
      ReleaseKeeps(View(), id, conn);
      if id in byId {
        var st := byId[id];
        st.conns := st.conns - {conn};
      }
      assert View().byId == r.byId && View().byAddr == r.byAddr;
    }

    method RevokeLocked(id: string) returns (doomed: Option<set<nat>>)
      requires Valid()
      modifies byId.Values
      ensures Valid() && byId == old(byId) && byAddr == old(byAddr)
      ensures match RevokeIn(old(View()), id)
              case None => doomed.None? && View() == old(View())
              case Some((t, d)) => doomed == Some(d) && View() == t
    {
      hide Coherent;
      if id !in byId {
        return None;
      }
      var st := byId[id];
      if st.revoked {
        return None;
      }
      ghost var r := RevokeIn(View(), id).value.0;
      RevokeKeeps(View(), id);
      st.revoked := true;
      doomed := Some(st.conns);
      st.conns := {};
      assert View().byId == r.byId && View().byAddr == r.byAddr;
    }
  }
}
