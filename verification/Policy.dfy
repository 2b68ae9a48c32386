/** Egress policy: internal/confine/policy.go. A policy that Validate accepted is the map from
    workload id to its rules; an IP literal is what `parse` (netip.ParseAddr) makes of a host. */
module Policy {
  import opened Decimal
  import opened Guard
  import opened Text

  datatype Rule = Rule(host: string, ports: seq<int>, note: string)

  datatype Workload = Workload(id: string, allow: seq<Rule>)

  function NormalHost(r: Rule): string {
    TrimSpace(Lower(r.host))
  }

  /** The host forms Validate admits: a literal with no star, or "*." before a name with a dot in it. */
  predicate ValidHost(host: string) {
    && host != "" && host != "*"
    && (if HasPrefix(host, "*.") then '.' in host[2..] else '*' !in host)
  }

  predicate ValidRule(r: Rule) {
    ValidHost(NormalHost(r)) && forall i :: 0 <= i < |r.ports| ==> 1 <= r.ports[i] <= 65535
  }

  predicate ValidWorkload(w: Workload) {
    && TrimSpace(w.id) != "" && w.id != "*"
    && forall i :: 0 <= i < |w.allow| ==> ValidRule(w.allow[i])
  }

  ghost predicate ValidWorkloads(ws: seq<Workload>) {
    && (forall i :: 0 <= i < |ws| ==> ValidWorkload(ws[i]))
    && (forall i, j :: 0 <= i < j < |ws| ==> ws[i].id != ws[j].id)
  }

  function Normalized(rules: seq<Rule>): (r: seq<Rule>)
    ensures |r| == |rules|
  {
    seq(|rules|, i requires 0 <= i < |rules| => rules[i].(host := NormalHost(rules[i])))
  }

  /** The index of an accepted policy is exactly its workloads with their rules normalised. */
  ghost predicate IsIndex(ws: seq<Workload>, m: map<string, seq<Rule>>) {
    && (forall i :: 0 <= i < |ws| ==> ws[i].id in m && m[ws[i].id] == Normalized(ws[i].allow))
    && (forall id :: id in m ==> exists i :: 0 <= i < |ws| && ws[i].id == id)
  }

  /** Validate: the checks of each workload and rule in turn, building byWorkload. */
  method Validate(version: string, workloads: seq<Workload>) returns (r: Option<map<string, seq<Rule>>>)
    ensures r.Some? <==> version == "1" && workloads != [] && ValidWorkloads(workloads)
    ensures r.Some? ==> IsIndex(workloads, r.value)
  {
    hide ValidHost;
    hide NormalHost;
    if version != "1" || |workloads| == 0 {
      return None;
    }
    var byWorkload: map<string, seq<Rule>> := map[];
    for i := 0 to |workloads|
      invariant ValidWorkloads(workloads[..i]) && IsIndex(workloads[..i], byWorkload)
    {
      var w := workloads[i];
      assert workloads[..i + 1] == workloads[..i] + [w];
      if TrimSpace(w.id) == "" || w.id == "*" {
        assert !ValidWorkload(workloads[i]);
        return None;
      }
      if w.id in byWorkload {
        return None;
      }
      var allow := NormalizeRules(w.allow);
      if allow.None? {
        assert !ValidWorkload(workloads[i]);
        return None;
      }
      byWorkload := byWorkload[w.id := allow.value];
    }
    assert workloads[..|workloads|] == workloads;
    return Some(byWorkload);
  }

  method NormalizeRules(rules: seq<Rule>) returns (r: Option<seq<Rule>>)
    ensures r.Some? <==> forall i :: 0 <= i < |rules| ==> ValidRule(rules[i])
    ensures r.Some? ==> r.value == Normalized(rules)
  {
    hide NormalHost;
    var out: seq<Rule> := [];
    for j := 0 to |rules|
      invariant |out| == j && forall k :: 0 <= k < j ==> ValidRule(rules[k]) && out[k] == rules[k].(host := NormalHost(rules[k]))
    {
      var host := NormalHost(rules[j]);
      if host == "" || host == "*" {
        return None;
      }
      if HasPrefix(host, "*.") {
        if '.' !in host[2..] {
          return None;
        }
      } else if '*' in host {
        return None;
      }
      for p := 0 to |rules[j].ports|
        invariant forall k :: 0 <= k < p ==> 1 <= rules[j].ports[k] <= 65535
      {
        if rules[j].ports[p] < 1 || rules[j].ports[p] > 65535 {
          return None;
        }
      }
      out := out + [rules[j].(host := host)];
    }
    return Some(out);
  }

  predicate HostMatches(parse: string -> Option<Addr>, pattern: string, host: string) {
    if pattern == host then true
    else if HasPrefix(pattern, "*.") then |host| > |pattern| - 1 && HasSuffix(host, pattern[1..])
    else
      match (parse(pattern), parse(host))
      case (Some(pa), Some(ha)) => pa.Unmap() == ha.Unmap()
      case _ => false
  }

  predicate PortMatches(ports: seq<int>, port: int) {
    ports == [] || port in ports
  }

  /** The host Permits compares: one trailing dot dropped, lower case. */
  function AskedHost(host: string): string {
    Lower(if HasSuffix(host, ".") then host[..|host| - 1] else host)
  }

  ghost predicate RulePermits(parse: string -> Option<Addr>, r: Rule, host: string, port: int) {
    HostMatches(parse, r.host, AskedHost(host)) && PortMatches(r.ports, port)
  }

  ghost predicate Permitted(parse: string -> Option<Addr>, policy: map<string, seq<Rule>>, id: string, host: string, port: int) {
    id in policy && exists i :: 0 <= i < |policy[id]| && RulePermits(parse, policy[id][i], host, port)
  }

  /** Permits: the first matching rule's note. */
  method Permits(parse: string -> Option<Addr>, policy: map<string, seq<Rule>>, id: string, host: string, port: int)
    returns (note: Option<string>)
    ensures note.Some? <==> Permitted(parse, policy, id, host, port)
    ensures note.Some? ==> exists i :: 0 <= i < |policy[id]| && policy[id][i].note == note.value
                             && RulePermits(parse, policy[id][i], host, port)
                             && forall k :: 0 <= k < i ==> !RulePermits(parse, policy[id][k], host, port)
  {
    hide HostMatches;
    if id !in policy {
      return None;
    }
    var asked := AskedHost(host);
    var rules := policy[id];
    for i := 0 to |rules|
      invariant forall k :: 0 <= k < i ==> !RulePermits(parse, rules[k], host, port)
    {
      if !HostMatches(parse, rules[i].host, asked) {
        continue;
      }
      if !PortMatches(rules[i].ports, port) {
        continue;
      }
      assert RulePermits(parse, rules[i], host, port);
      return Some(rules[i].note);
    }
    return None;
  }

  // ---------------------------------------------------------------- the rules, spelled out

  /** A name below the pattern's own dotted name, at any depth. */
  ghost predicate Below(name: string, pattern: string) {
    exists front: string, d: string :: pattern == "*." + d && front != "" && name == front + "." + d
  }

  /** The name asked for: one trailing dot is no part of it. */
  lemma AskedIs(name: string)
    ensures AskedHost(name + ".") == Lower(name)
    ensures name == "" || name[|name| - 1] != '.' ==> AskedHost(name) == Lower(name)
  {
    hide Lower;
    assert (name + ".")[..|name|] == name;
  }

  lemma BelowIff(pattern: string, host: string)
    requires HasPrefix(pattern, "*.")
    ensures (|host| > |pattern| - 1 && HasSuffix(host, pattern[1..])) <==> Below(host, pattern)
  {
    assert pattern == "*." + pattern[2..] && pattern[1..] == "." + pattern[2..];
    if |host| > |pattern| - 1 && HasSuffix(host, pattern[1..]) {
      var front := host[..|host| - (|pattern| - 1)];
      assert host == front + pattern[1..] == front + "." + pattern[2..];
      assert Below(host, pattern);
    }
    if Below(host, pattern) {
      var front: string, d: string :| pattern == "*." + d && front != "" && host == front + "." + d;
      assert d == pattern[2..] && host == front + pattern[1..];
      assert host[|front|..] == pattern[1..];
    }
  }

  /** A pattern matches its own text, the names below it if it is a wildcard, and the spellings of
      its address if it is none. */
  lemma MatchesIff(parse: string -> Option<Addr>, pattern: string, host: string)
    ensures HostMatches(parse, pattern, host)
       <==> || pattern == host
            || Below(host, pattern)
            || ((forall d: string :: pattern != "*." + d) && SameAddress(parse, pattern, host))
  {
    if HasPrefix(pattern, "*.") {
      BelowIff(pattern, host);
      assert pattern == "*." + pattern[2..];
    } else {
      forall d: string
        ensures pattern != "*." + d
      {
        assert ("*." + d)[..2] == "*.";
      }
    }
  }

  /** What a workload is permitted: some rule of its own matches the name in lower case without its
      trailing dot, and lists the port or lists none. */
  lemma PermittedIff(parse: string -> Option<Addr>, policy: map<string, seq<Rule>>, id: string, name: string,
                     dotted: bool, port: int)
    requires dotted || name == "" || name[|name| - 1] != '.'
    ensures Permitted(parse, policy, id, if dotted then name + "." else name, port)
       <==> id in policy && (exists i :: 0 <= i < |policy[id]|
                               && (policy[id][i].ports == [] || port in policy[id][i].ports)
                               && HostMatches(parse, policy[id][i].host, Lower(name)))
  {
    hide HostMatches;
    hide Lower;
    hide AskedHost;
    AskedIs(name);
    var host := if dotted then name + "." else name;
    if id in policy {
      forall i | 0 <= i < |policy[id]|
        ensures RulePermits(parse, policy[id][i], host, port)
           <==> (policy[id][i].ports == [] || port in policy[id][i].ports)
                && HostMatches(parse, policy[id][i].host, Lower(name))
      {
      }
    }
  }

  /** The host forms of an accepted policy: no star at all, or one star in front of a dotted name. */
  lemma ValidHostIff(host: string)
    ensures ValidHost(host) <==> host != "" && ('*' !in host || exists d: string :: host == "*." + d && '.' in d)
  {
    if HasPrefix(host, "*.") {
      assert host == "*." + host[2..] && host[0] == '*';
      assert forall d: string :: host == "*." + d ==> d == host[2..];
    } else {
      forall d: string
        ensures host != "*." + d
      {
        assert ("*." + d)[..2] == "*.";
      }
    }
  }

  /** An accepted wildcard permits only names with at least one more label in front of its own
      dotted name: never the apex, never a name that merely ends in the same letters. */
  lemma WildcardNeedsLabel(parse: string -> Option<Addr>, r: Rule, host: string)
    requires ValidRule(r) && HasPrefix(NormalHost(r), "*.")
    requires HostMatches(parse, NormalHost(r), host)
    ensures exists front: string :: front != "" && host == front + "." + NormalHost(r)[2..]
    ensures host != NormalHost(r)[2..]
  {
    var pattern := NormalHost(r);
    assert pattern[0] == '*';
    var front := host[..|host| - (|pattern| - 1)];
    assert pattern[1..] == "." + pattern[2..];
    assert host == front + pattern[1..];
    assert host == front + "." + pattern[2..];
  }

  // ---------------------------------------------------------------- spellings of one address

  /** Two texts that parse to one address, IPv4-mapped spellings being the address they embed. */
  predicate SameAddress(parse: string -> Option<Addr>, a: string, b: string) {
    parse(a).Some? && parse(b).Some? && parse(a).value.Unmap() == parse(b).value.Unmap()
  }

  /** A pattern that is no wildcard matches its own text and every spelling of its address, and
      nothing else. */
  lemma HostMatchesIff(parse: string -> Option<Addr>, pattern: string, host: string)
    requires !HasPrefix(pattern, "*.")
    ensures HostMatches(parse, pattern, host) <==> pattern == host || SameAddress(parse, pattern, host)
  {
  }

  /** An accepted rule that names an address permits an address asked for if and only if the two
      are the same unmapped and the port matches: no spelling is told from another. */
  lemma LiteralPermitsIff(parse: string -> Option<Addr>, r: Rule, host: string, port: int)
    requires ValidRule(r) && !HasPrefix(NormalHost(r), "*.")
    requires parse(NormalHost(r)).Some? && parse(AskedHost(host)).Some?
    ensures RulePermits(parse, r.(host := NormalHost(r)), host, port)
       <==> parse(NormalHost(r)).value.Unmap() == parse(AskedHost(host)).value.Unmap() && PortMatches(r.ports, port)
  {
    hide AskedHost;
    hide NormalHost;
    HostMatchesIff(parse, NormalHost(r), AskedHost(host));
  }

  /** So a workload whose rules hold no wildcard gets one verdict for all spellings of an address. */
  lemma SpellingsShareVerdict(parse: string -> Option<Addr>, policy: map<string, seq<Rule>>, id: string,
                              a: string, b: string, port: int)
    requires id in policy && forall i :: 0 <= i < |policy[id]| ==> !HasPrefix(policy[id][i].host, "*.")
    requires SameAddress(parse, AskedHost(a), AskedHost(b))
    ensures Permitted(parse, policy, id, a, port) <==> Permitted(parse, policy, id, b, port)
  {
    hide AskedHost;
    hide HostMatches;
    forall i | 0 <= i < |policy[id]|
      ensures RulePermits(parse, policy[id][i], a, port) <==> RulePermits(parse, policy[id][i], b, port)
    {
      HostMatchesIff(parse, policy[id][i].host, AskedHost(a));
      HostMatchesIff(parse, policy[id][i].host, AskedHost(b));
    }
  }

  const PLAIN := "140.82.121.4"
  const MAPPED := "::ffff:140.82.121.4"

  /** The comment's own example: a rule for either spelling matches the other. */
  lemma MappedSpellingMatches(parse: string -> Option<Addr>)
    requires parse(PLAIN) == Some(V4(0x8c52_7904)) && parse(MAPPED) == Some(V6(0xffff_8c52_7904))
    ensures PLAIN != MAPPED && HostMatches(parse, PLAIN, MAPPED) && HostMatches(parse, MAPPED, PLAIN)
  {
    assert PLAIN[0] == '1' && MAPPED[0] == ':';
    assert V6(0xffff_8c52_7904).Unmap() == V4(0x8c52_7904);
    HostMatchesIff(parse, PLAIN, MAPPED);
    HostMatchesIff(parse, MAPPED, PLAIN);
  }
}
