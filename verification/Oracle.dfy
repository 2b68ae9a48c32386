/** The gym's independent oracle: reconcile in internal/gym/score.go, which asks the product's
    evidence to account for what the world received. */
module Oracle {
  import opened Decimal
  import opened Text

  /** A request the world served; `what` is everything else the ledger keeps of it. */
  datatype Hit = Hit(port: int, what: string)

  /** What reconcile reads of an evidence record. */
  datatype Rec = Rec(eventName: string, decision: string, resourceId: string)

  const CLOSED := "confine.egress.closed"

  /** strings.LastIndex of one character. */
  function LastIndexOf(s: string, c: char): (k: int)
    ensures -1 <= k < |s|
    ensures k >= 0 ==> s[k] == c && c !in s[k + 1..]
    ensures k < 0 ==> c !in s
  {
    if s == "" then -1 else if s[|s| - 1] == c then |s| - 1 else LastIndexOf(s[..|s| - 1], c)
  }

  /** portOf. */
  function PortOf(resource: string): Option<int> {
    var i := LastIndexOf(resource, ':');
    if i < 0 then None else Atoi(resource[i + 1..])
  }

  lemma {:induction false} LastIndexAfter(pre: string, c: char, post: string)
    requires c !in post
    ensures LastIndexOf(pre + [c] + post, c) == |pre|
    decreases |post|
  {
    var s := pre + [c] + post;
    if post == "" {
    } else {
      LastIndexAfter(pre, c, post[..|post| - 1]);
      assert s[..|s| - 1] == pre + [c] + post[..|post| - 1] && s[|s| - 1] == post[|post| - 1];
    }
  }

  /** A port behind any host is read back, however many colons the host has. */
  lemma PortOfPrinted(host: string, port: nat)
    requires port <= INT64_MAX
    ensures PortOf(host + ":" + Print(port)) == Some(port)
  {
    hide Atoi;
    var s, d := host + ":" + Print(port), Print(port);
    assert AllDigits(d);
    LastIndexAfter(host, ':', d);
    assert s == host + [':'] + d && s[|host| + 1..] == d;
    AtoiPrint(port);
  }

  /** A resource names a port only behind a colon, and what follows the last one is read whole. */
  lemma PortOfIff(resource: string, p: int)
    ensures PortOf(resource) == Some(p)
       <==> exists host: string, port: string :: resource == host + ":" + port && ':' !in port && Atoi(port) == Some(p)
  {
    hide Atoi;
    var i := LastIndexOf(resource, ':');
    if i >= 0 {
      assert resource == resource[..i] + ":" + resource[i + 1..];
    }
    forall host: string, port: string | resource == host + ":" + port && ':' !in port
      ensures i == |host| && resource[i + 1..] == port
    {
      LastIndexAfter(host, ':', port);
    }
  }

  /** An allow record that stands for a connection of its own. */
  predicate Counted(r: Rec) {
    r.decision == "allow" && r.eventName != CLOSED
  }

  lemma CountedIs(r: Rec)
    ensures Counted(r) <==> r.decision == "allow" && r.eventName != "confine.egress.closed"
  {
  }

  predicate CountedAt(r: Rec, p: int) {
    Counted(r) && PortOf(r.resourceId) == Some(p)
  }

  function Allows(rs: seq<Rec>): nat {
    if rs == [] then 0 else Allows(rs[..|rs| - 1]) + if Counted(rs[|rs| - 1]) then 1 else 0
  }

  function Denials(rs: seq<Rec>): nat {
    if rs == [] then 0 else Denials(rs[..|rs| - 1]) + if rs[|rs| - 1].decision == "deny" then 1 else 0
  }

  /** Counted allow records whose resource names a port. */
  function Ported(rs: seq<Rec>): nat {
    if rs == [] then 0
    else Ported(rs[..|rs| - 1]) + if Counted(rs[|rs| - 1]) && PortOf(rs[|rs| - 1].resourceId).Some? then 1 else 0
  }

  function AllowsAt(rs: seq<Rec>, p: int): nat {
    if rs == [] then 0 else AllowsAt(rs[..|rs| - 1], p) + if CountedAt(rs[|rs| - 1], p) then 1 else 0
  }

  function HitsAt(hits: seq<Hit>, p: int): nat {
    if hits == [] then 0 else HitsAt(hits[..|hits| - 1], p) + if hits[|hits| - 1].port == p then 1 else 0
  }

  function Excess(a: int, b: int): nat {
    if a > b then a - b else 0
  }

  /** The ports some counted record names. */
  function Ports(rs: seq<Rec>): set<int> {
    set i | 0 <= i < |rs| && Counted(rs[i]) && PortOf(rs[i].resourceId).Some? :: PortOf(rs[i].resourceId).value
  }

  /** The hits no allow record is left for: a port's allow records go to its first hits. */
  function Unrecorded(hits: seq<Hit>, rs: seq<Rec>): seq<Hit> {
    if hits == [] then []
    else
      var (front, hit) := (hits[..|hits| - 1], hits[|hits| - 1]);
      Unrecorded(front, rs) + if HitsAt(front, hit.port) < AllowsAt(rs, hit.port) then [] else [hit]
  }

  ghost function Sum(ports: set<int>, f: int -> int): int {
    if exists p :: p in ports then var p :| p in ports; f(p) + Sum(ports - {p}, f) else 0
  }

  /** The allow records of a port that some hits leave over. */
  ghost function Over(hits: seq<Hit>, rs: seq<Rec>): int -> int {
    p => Excess(AllowsAt(rs, p), HitsAt(hits, p))
  }

  /** Allow records with no hit, over all ports. */
  ghost function Phantoms(hits: seq<Hit>, rs: seq<Rec>): int {
    Sum(Ports(rs), Over(hits, rs))
  }

  function Flat(ranges: seq<seq<Rec>>): seq<Rec> {
    if ranges == [] then [] else Flat(ranges[..|ranges| - 1]) + ranges[|ranges| - 1]
  }

  // ---------------------------------------------------------------- sums over ports

  lemma {:induction false} SumTakes(ports: set<int>, f: int -> int, q: int)
    requires q in ports
    ensures Sum(ports, f) == f(q) + Sum(ports - {q}, f)
    decreases ports
  {
    var p :| p in ports && Sum(ports, f) == f(p) + Sum(ports - {p}, f);
    if p == q {
    } else {
      SumTakes(ports - {p}, f, q);
      SumTakes(ports - {q}, f, p);
      assert ports - {p} - {q} == ports - {q} - {p};
    }
  }

  lemma {:induction false} SumSame(ports: set<int>, f: int -> int, g: int -> int)
    requires forall p :: p in ports ==> f(p) == g(p)
    ensures Sum(ports, f) == Sum(ports, g)
    decreases ports
  {
    if p :| p in ports {
      SumTakes(ports, f, p);
      SumTakes(ports, g, p);
      SumSame(ports - {p}, f, g);
    }
  }

  /** Changing one summand by d changes the sum by d. */
  lemma SumChanges(ports: set<int>, f: int -> int, g: int -> int, q: int, d: int)
    requires q in ports && g(q) == f(q) + d && forall p :: p in ports && p != q ==> g(p) == f(p)
    ensures Sum(ports, g) == Sum(ports, f) + d
  {
    SumTakes(ports, f, q);
    SumTakes(ports, g, q);
    SumSame(ports - {q}, f, g);
  }

  lemma SomePort(ports: set<int>)
    requires ports != {}
    ensures exists p :: p in ports
  {
    assert (forall p :: p !in ports) ==> ports == {};
  }

  // ---------------------------------------------------------------- counting

  lemma AllowsPush(rs: seq<Rec>, r: Rec, p: int)
    ensures AllowsAt(rs + [r], p) == AllowsAt(rs, p) + if CountedAt(r, p) then 1 else 0
    ensures Allows(rs + [r]) == Allows(rs) + if Counted(r) then 1 else 0
    ensures Denials(rs + [r]) == Denials(rs) + if r.decision == "deny" then 1 else 0
    ensures Ported(rs + [r]) == Ported(rs) + if Counted(r) && PortOf(r.resourceId).Some? then 1 else 0
  {
    hide PortOf;
    assert (rs + [r])[..|rs|] == rs;
  }

  lemma PortsPush(rs: seq<Rec>, r: Rec)
    ensures Ports(rs + [r])
         == Ports(rs) + (if Counted(r) && PortOf(r.resourceId).Some? then {PortOf(r.resourceId).value} else {})
  {
    hide PortOf;
    hide Counted;
    var a, b := rs + [r], Ports(rs);
    forall p
      ensures p in Ports(a) <==> p in b || (Counted(r) && PortOf(r.resourceId) == Some(p))
    {
      if p in Ports(a) {
        var i :| 0 <= i < |a| && Counted(a[i]) && PortOf(a[i].resourceId) == Some(p);
        assert i < |rs| ==> rs[i] == a[i];
      }
      if p in b {
        var i :| 0 <= i < |rs| && Counted(rs[i]) && PortOf(rs[i].resourceId) == Some(p);
        assert a[i] == rs[i];
      }
      assert a[|rs|] == r;
    }
  }

  lemma {:induction false} NoPortNoAllows(rs: seq<Rec>, p: int)
    ensures p !in Ports(rs) <==> AllowsAt(rs, p) == 0
  {
    hide PortOf;
    if rs == [] {
    } else {
      var front, r := rs[..|rs| - 1], rs[|rs| - 1];
      NoPortNoAllows(front, p);
      assert front + [r] == rs;
      PortsPush(front, r);
    }
  }

  lemma HitsPush(hits: seq<Hit>, hit: Hit, p: int)
    ensures HitsAt(hits + [hit], p) == HitsAt(hits, p) + if hit.port == p then 1 else 0
  {
    assert (hits + [hit])[..|hits|] == hits;
  }

  lemma NoneUnrecorded(rs: seq<Rec>)
    ensures Unrecorded([], rs) == []
  {
  }

  lemma UnrecordedPush(hits: seq<Hit>, hit: Hit, rs: seq<Rec>)
    ensures Unrecorded(hits + [hit], rs)
         == Unrecorded(hits, rs) + if HitsAt(hits, hit.port) < AllowsAt(rs, hit.port) then [] else [hit]
  {
    assert (hits + [hit])[..|hits|] == hits;
  }

  /** Per port, the unrecorded hits are those beyond the allow records. */
  lemma {:induction false} UnrecordedAt(hits: seq<Hit>, rs: seq<Rec>, p: int)
    ensures HitsAt(Unrecorded(hits, rs), p) == Excess(HitsAt(hits, p), AllowsAt(rs, p))
  {
    hide AllowsAt;
    if hits == [] {
    } else {
      var front, hit := hits[..|hits| - 1], hits[|hits| - 1];
      assert hits == front + [hit];
      UnrecordedAt(front, rs, p);
      HitsPush(front, hit, p);
      if HitsAt(front, hit.port) < AllowsAt(rs, hit.port) {
        assert Unrecorded(hits, rs) == Unrecorded(front, rs);
      } else {
        HitsPush(Unrecorded(front, rs), hit, p);
      }
    }
  }

  lemma OverPush(rs: seq<Rec>, r: Rec, p: int)
    ensures Over([], rs + [r])(p) == Over([], rs)(p) + if CountedAt(r, p) then 1 else 0
    ensures p !in Ports(rs) ==> Over([], rs)(p) == 0
  {
    hide PortOf;
    hide Counted;
    hide Ports;
    AllowsPush(rs, r, p);
    NoPortNoAllows(rs, p);
  }

  lemma PortedStep(rs: seq<Rec>, r: Rec)
    ensures Phantoms([], rs + [r]) - Phantoms([], rs) == Ported(rs + [r]) - Ported(rs)
  {
    hide PortOf;
    hide Counted;
    hide AllowsAt;
    hide Ports;
    hide Ported;
    hide Sum;
    hide Over;
    var f, g := Over([], rs), Over([], rs + [r]);
    PortsPush(rs, r);
    AllowsPush(rs, r, 0);
    forall p
      ensures g(p) == f(p) + if CountedAt(r, p) then 1 else 0
    {
      OverPush(rs, r, p);
    }
    if Counted(r) && PortOf(r.resourceId).Some? {
      var q := PortOf(r.resourceId).value;
      if q in Ports(rs) {
        assert Ports(rs + [r]) == Ports(rs);
        SumChanges(Ports(rs), f, g, q, 1);
      } else {
        OverPush(rs, r, q);
        SumTakes(Ports(rs + [r]), g, q);
        assert Ports(rs + [r]) - {q} == Ports(rs);
        SumSame(Ports(rs), f, g);
      }
    } else {
      assert Ports(rs + [r]) == Ports(rs);
      SumSame(Ports(rs), f, g);
    }
  }

  lemma {:induction false} PortedIsSum(rs: seq<Rec>)
    ensures Phantoms([], rs) == Ported(rs)
  {
    hide PortOf;
    hide Counted;
    if rs == [] {
      assert Ports(rs) == {};
    } else {
      var front, r := rs[..|rs| - 1], rs[|rs| - 1];
      assert rs == front + [r];
      PortedIsSum(front);
      PortedStep(front, r);
    }
  }

  /** Conservation: the hits that are accounted for are exactly the ported, non-close allow
      records that are not phantoms. */
  lemma {:induction false} Conservation(hits: seq<Hit>, rs: seq<Rec>)
    ensures |hits| - |Unrecorded(hits, rs)| == Ported(rs) - Phantoms(hits, rs)
  {
    hide AllowsAt;
    hide Ports;
    hide Ported;
    hide Sum;
    if hits == [] {
      PortedIsSum(rs);
    } else {
      var front, hit := hits[..|hits| - 1], hits[|hits| - 1];
      assert hits == front + [hit];
      Conservation(front, rs);
      var f, g := Over(front, rs), Over(hits, rs);
      forall p
        ensures HitsAt(hits, p) == HitsAt(front, p) + if hit.port == p then 1 else 0
      {
        HitsPush(front, hit, p);
      }
      NoPortNoAllows(rs, hit.port);
      if HitsAt(front, hit.port) < AllowsAt(rs, hit.port) {
        SumChanges(Ports(rs), f, g, hit.port, -1);
      } else {
        SumSame(Ports(rs), f, g);
      }
    }
  }

  // ---------------------------------------------------------------- order does not matter

  lemma {:induction false} HitsByMultiset(a: seq<Hit>, b: seq<Hit>, p: int)
    requires multiset(a) == multiset(b)
    ensures HitsAt(a, p) == HitsAt(b, p)
    decreases |a|
  {
    SameSize(a, b);
    if a == [] {
    } else {
      var n := |a| - 1;
      assert a[n] in a;
      var k := PositionOf(b, a[n]);
      WithoutOne(a, n);
      WithoutOne(b, k);
      assert a[..n] + a[n + 1..] == a[..n];
      HitsByMultiset(a[..n], b[..k] + b[k + 1..], p);
      HitsWithout(b, k, p);
    }
  }

  lemma {:induction false} HitsWithout(b: seq<Hit>, k: nat, p: int)
    requires k < |b|
    ensures HitsAt(b, p) == HitsAt(b[..k] + b[k + 1..], p) + if b[k].port == p then 1 else 0
    decreases |b|
  {
    var n := |b| - 1;
    if k == n {
      assert b[..k] + b[k + 1..] == b[..n];
    } else {
      HitsWithout(b[..n], k, p);
      var cut := b[..k] + b[k + 1..];
      assert cut[..|cut| - 1] == b[..n][..k] + b[..n][k + 1..] && cut[|cut| - 1] == b[n];
    }
  }

  lemma {:induction false} AllowsByMultiset(a: seq<Rec>, b: seq<Rec>, p: int)
    requires multiset(a) == multiset(b)
    ensures AllowsAt(a, p) == AllowsAt(b, p)
    decreases |a|
  {
    hide CountedAt;
    SameSize(a, b);
    if a == [] {
    } else {
      var n := |a| - 1;
      assert a[n] in a;
      var k := PositionOf(b, a[n]);
      WithoutOne(a, n);
      WithoutOne(b, k);
      assert a[..n] + a[n + 1..] == a[..n];
      AllowsByMultiset(a[..n], b[..k] + b[k + 1..], p);
      AllowsWithout(b, k, p);
    }
  }

  lemma {:induction false} AllowsWithout(b: seq<Rec>, k: nat, p: int)
    requires k < |b|
    ensures AllowsAt(b, p) == AllowsAt(b[..k] + b[k + 1..], p) + if CountedAt(b[k], p) then 1 else 0
    decreases |b|
  {
    hide CountedAt;
    var n := |b| - 1;
    if k == n {
      assert b[..k] + b[k + 1..] == b[..n];
    } else {
      AllowsWithout(b[..n], k, p);
      var cut := b[..k] + b[k + 1..];
      assert cut[..|cut| - 1] == b[..n][..k] + b[..n][k + 1..] && cut[|cut| - 1] == b[n];
    }
  }

  /** In whatever order the world's hits and the chains' records are read, each port has as many
      unrecorded hits, and there are as many phantoms in all. */
  lemma OrderIrrelevant(hits: seq<Hit>, hits': seq<Hit>, rs: seq<Rec>, rs': seq<Rec>, p: int)
    requires multiset(hits) == multiset(hits') && multiset(rs) == multiset(rs')
    ensures HitsAt(Unrecorded(hits, rs), p) == HitsAt(Unrecorded(hits', rs'), p)
    ensures Phantoms(hits, rs) == Phantoms(hits', rs')
  {
    hide AllowsAt;
    hide HitsAt;
    hide Unrecorded;
    hide Ports;
    hide Sum;
    forall q
      ensures HitsAt(hits, q) == HitsAt(hits', q)
    {
      HitsByMultiset(hits, hits', q);
    }
    forall q
      ensures AllowsAt(rs, q) == AllowsAt(rs', q)
    {
      AllowsByMultiset(rs, rs', q);
    }
    forall q
      ensures q in Ports(rs) <==> q in Ports(rs')
    {
      NoPortNoAllows(rs, q);
      NoPortNoAllows(rs', q);
    }
    UnrecordedAt(hits, rs, p);
    UnrecordedAt(hits', rs', p);
    assert Ports(rs) == Ports(rs');
    SumSame(Ports(rs), Over(hits, rs), Over(hits', rs'));
  }

  // ---------------------------------------------------------------- reconcile

  class Score {
    var worldRequests: nat
    var allowRecords: nat
    var denyRecords: nat
    var unrecordedEgress: seq<Hit>
    var phantomRecords: int

    constructor ()
      ensures worldRequests == 0 && allowRecords == 0 && denyRecords == 0 && unrecordedEgress == [] && phantomRecords == 0
    {
      worldRequests, allowRecords, denyRecords, unrecordedEgress, phantomRecords := 0, 0, 0, [], 0;
    }

    /** reconcile; a range's chain is None where it cannot be loaded. */
    method Reconcile(hits: seq<Hit>, ranges: seq<Option<seq<Rec>>>) returns (ok: bool)
      modifies this
      ensures worldRequests == |hits|
      ensures ok <==> forall i :: 0 <= i < |ranges| ==> ranges[i].Some?
      ensures ok ==>
                var rs := Flat(Loaded(ranges));
                && allowRecords == old(allowRecords) + Allows(rs) && denyRecords == old(denyRecords) + Denials(rs)
                && unrecordedEgress == old(unrecordedEgress) + Unrecorded(hits, rs)
                && phantomRecords == old(phantomRecords) + Phantoms(hits, rs)
      ensures !ok ==> unrecordedEgress == old(unrecordedEgress) && phantomRecords == old(phantomRecords)
    {
      worldRequests := |hits|;
      var allowsByPort, good := CountRanges(ranges);
      if !good {
        return false;
      }
      ghost var rs := Flat(Loaded(ranges));
      var remaining := TakeHits(hits, allowsByPort, rs);
      AddPhantoms(remaining, hits, rs);
      ok := true;
    }

    /** Every chain in turn, up to the first that cannot be loaded. */
    method CountRanges(ranges: seq<Option<seq<Rec>>>) returns (allowsByPort: map<int, int>, ok: bool)
      modifies this`allowRecords, this`denyRecords
      ensures ok <==> forall i :: 0 <= i < |ranges| ==> ranges[i].Some?
      ensures ok ==>
                var rs := Flat(Loaded(ranges));
                && Indexes(allowsByPort, rs)
                && allowRecords == old(allowRecords) + Allows(rs) && denyRecords == old(denyRecords) + Denials(rs)
    {
      hide Indexes;
      hide Loaded;
      hide Flat;
      hide Allows;
      hide Denials;
      NothingIndexed();
      allowsByPort := map[];
      for i := 0 to |ranges|
        invariant forall j :: 0 <= j < i ==> ranges[j].Some?
        invariant Indexes(allowsByPort, Flat(Loaded(ranges[..i])))
        invariant allowRecords == old(allowRecords) + Allows(Flat(Loaded(ranges[..i])))
        invariant denyRecords == old(denyRecords) + Denials(Flat(Loaded(ranges[..i])))
      {
        if ranges[i].None? {
          return allowsByPort, false;
        }
        LoadedPush(ranges, i);
        allowsByPort := CountRange(ranges[i].value, allowsByPort, Flat(Loaded(ranges[..i])));
      }
      assert ranges[..|ranges|] == ranges;
      ok := true;
    }

    /** One chain's records counted into the index. */
    method CountRange(recs: seq<Rec>, before: map<int, int>, ghost rs: seq<Rec>) returns (allowsByPort: map<int, int>)
      requires Indexes(before, rs)
      modifies this`allowRecords, this`denyRecords
      ensures Indexes(allowsByPort, rs + recs)
      ensures allowRecords == old(allowRecords) + Allows(rs + recs) - Allows(rs)
      ensures denyRecords == old(denyRecords) + Denials(rs + recs) - Denials(rs)
    {
      hide PortOf;
      hide Indexes;
      allowsByPort := before;
      assert rs + [] == rs;
      for k := 0 to |recs|
        invariant Indexes(allowsByPort, rs + recs[..k])
        invariant allowRecords == old(allowRecords) + Allows(rs + recs[..k]) - Allows(rs)
        invariant denyRecords == old(denyRecords) + Denials(rs + recs[..k]) - Denials(rs)
      {
        var r := recs[k];
        assert rs + recs[..k + 1] == rs + recs[..k] + [r];
        AllowsPush(rs + recs[..k], r, 0);
        IndexesPush(allowsByPort, rs + recs[..k], r);
        if r.decision == "allow" {
          if r.eventName == CLOSED {
            continue;
          }
          allowRecords := allowRecords + 1;
          var p := PortOf(r.resourceId);
          if p.Some? {
            allowsByPort := allowsByPort[p.value := (if p.value in allowsByPort then allowsByPort[p.value] else 0) + 1];
          }
        } else if r.decision == "deny" {
          denyRecords := denyRecords + 1;
        }
      }
      assert recs[..|recs|] == recs;
    }

    /** Each hit uses up an allow record of its port, if one is left. */
    method TakeHits(hits: seq<Hit>, before: map<int, int>, ghost rs: seq<Rec>) returns (remaining: map<int, int>)
      requires Indexes(before, rs)
      modifies this`unrecordedEgress
      ensures Remains(remaining, hits, rs)
      ensures unrecordedEgress == old(unrecordedEgress) + Unrecorded(hits, rs)
    {
      hide AllowsAt;
      hide HitsAt;
      hide Remains;
      hide Unrecorded;
      remaining := before;
      NothingTaken(before, rs);
      NoneUnrecorded(rs);
      for i := 0 to |hits|
        invariant Remains(remaining, hits[..i], rs)
        invariant unrecordedEgress == old(unrecordedEgress) + Unrecorded(hits[..i], rs)
      {
        var hit := hits[i];
        assert hits[..i + 1] == hits[..i] + [hit];
        UnrecordedPush(hits[..i], hit, rs);
        RemainsPush(remaining, hits[..i], hit, rs);
        if hit.port in remaining && remaining[hit.port] > 0 {
          remaining := remaining[hit.port := remaining[hit.port] - 1];
          continue;
        }
        unrecordedEgress := unrecordedEgress + [hit];
      }
      assert hits[..|hits|] == hits;
    }

    /** What is left over is phantom; Go visits the ports in any order. */
    method AddPhantoms(remaining: map<int, int>, ghost hits: seq<Hit>, ghost rs: seq<Rec>)
      requires Remains(remaining, hits, rs)
      modifies this`phantomRecords
      ensures phantomRecords == old(phantomRecords) + Phantoms(hits, rs)
    {
      hide AllowsAt;
      hide HitsAt;
      hide Ports;
      ghost var f := Over(hits, rs);
      var left := remaining.Keys;
      while left != {}
        invariant left <= remaining.Keys
        invariant phantomRecords + Sum(left, f) == old(phantomRecords) + Sum(remaining.Keys, f)
        decreases |left|
      {
        SomePort(left);
        var p :| p in left;
        SumTakes(left, f, p);
        left := left - {p};
        if remaining[p] > 0 {
          phantomRecords := phantomRecords + remaining[p];
        }
      }
    }
  }

  function Loaded(ranges: seq<Option<seq<Rec>>>): (r: seq<seq<Rec>>)
    ensures |r| == |ranges|
  {
    seq(|ranges|, i requires 0 <= i < |ranges| => if ranges[i].Some? then ranges[i].value else [])
  }

  lemma LoadedPush(ranges: seq<Option<seq<Rec>>>, i: nat)
    requires i < |ranges| && ranges[i].Some?
    ensures Flat(Loaded(ranges[..i + 1])) == Flat(Loaded(ranges[..i])) + ranges[i].value
  {
    var a := Loaded(ranges[..i + 1]);
    assert a[..i] == Loaded(ranges[..i]) && a[i] == ranges[i].value;
  }

  /** The index holds each named port's allow records. */
  ghost predicate Indexes(m: map<int, int>, rs: seq<Rec>) {
    m.Keys == Ports(rs) && forall p :: p in m ==> m[p] == AllowsAt(rs, p)
  }

  lemma NothingIndexed()
    ensures Indexes(map[], []) && Flat(Loaded([])) == [] && Allows([]) == 0 && Denials([]) == 0
  {
  }

  lemma IndexesPush(m: map<int, int>, rs: seq<Rec>, r: Rec)
    requires Indexes(m, rs)
    ensures var q := PortOf(r.resourceId);
            Indexes(if Counted(r) && q.Some? then m[q.value := (if q.value in m then m[q.value] else 0) + 1] else m, rs + [r])
  {
    hide PortOf;
    hide AllowsAt;
    hide Ports;
    PortsPush(rs, r);
    forall p
      ensures AllowsAt(rs + [r], p) == AllowsAt(rs, p) + if CountedAt(r, p) then 1 else 0
      ensures p !in Ports(rs) <==> AllowsAt(rs, p) == 0
    {
      AllowsPush(rs, r, p);
      NoPortNoAllows(rs, p);
    }
  }

  /** What each named port has left after some hits. */
  ghost predicate Remains(m: map<int, int>, hits: seq<Hit>, rs: seq<Rec>) {
    m.Keys == Ports(rs) && forall p :: p in m ==> m[p] == Excess(AllowsAt(rs, p), HitsAt(hits, p))
  }

  /** One more hit: it is accounted for exactly if its port has a record left. */
  lemma RemainsPush(m: map<int, int>, hits: seq<Hit>, hit: Hit, rs: seq<Rec>)
    requires Remains(m, hits, rs)
    ensures var some := hit.port in m && m[hit.port] > 0;
            && (some <==> HitsAt(hits, hit.port) < AllowsAt(rs, hit.port))
            && Remains(if some then m[hit.port := m[hit.port] - 1] else m, hits + [hit], rs)
  {
    hide AllowsAt;
    hide HitsAt;
    hide Ports;
    NoPortNoAllows(rs, hit.port);
    forall p
      ensures HitsAt(hits + [hit], p) == HitsAt(hits, p) + if hit.port == p then 1 else 0
    {
      HitsPush(hits, hit, p);
    }
  }

  lemma NothingTaken(m: map<int, int>, rs: seq<Rec>)
    requires Indexes(m, rs)
    ensures Remains(m, [], rs)
  {
    hide AllowsAt;
    hide Ports;
  }
}
