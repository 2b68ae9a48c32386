/** The record of what an MCP server advertises: internal/mcp/inventory.go. SHA-256 is a parameter. */
module Inventory {
  import opened Decimal
  import opened LengthPrefix
  import opened Text

  /** One entry of a decoded tools/list result; the schema is its raw JSON text. */
  datatype Tool = Tool(name: string, description: string, schema: string)

  /** What of a tool is compared: two tools with one Meaning are the same advertisement. */
  datatype Meaning = Meaning(name: string, description: string, schema: string)

  function MeaningOf(t: Tool): Meaning {
    Meaning(t.name, t.description, TrimSpace(t.schema))
  }

  function Meanings(tools: seq<Tool>): (r: seq<Meaning>)
    ensures |r| == |tools|
  {
    seq(|tools|, i requires 0 <= i < |tools| => MeaningOf(tools[i]))
  }

  /** A tool's line in the digest: its three parts, each behind its length. */
  function Entry(m: Meaning): string {
    Encode([m.name, m.description, m.schema])
  }

  function Entries(ms: seq<Meaning>): (r: seq<string>)
    ensures |r| == |ms|
  {
    seq(|ms|, i requires 0 <= i < |ms| => Entry(ms[i]))
  }

  const NUL := "\0"

  /** The bytes that are hashed. */
  function Digested(tools: seq<Tool>): string {
    Join(SortStrings(Entries(Meanings(tools))), NUL)
  }

  /** A response's tools; None is a body that does not decode. */
  type Listing = Option<seq<Tool>>

  predicate Inspectable(l: Listing) {
    l.Some? && l.value != []
  }

  datatype ToolSet = ToolSet(digest: string, names: seq<string>, count: nat)

  datatype Observed = Ignored | Seen(tools: ToolSet, changed: bool, previous: string)

  function Names(tools: seq<Tool>): (r: seq<string>)
    ensures |r| == |tools|
  {
    seq(|tools|, i requires 0 <= i < |tools| => tools[i].name)
  }

  function ToolSetOf(sha: string -> string, tools: seq<Tool>): ToolSet {
    ToolSet(sha(Digested(tools)), SortStrings(Names(tools)), |tools|)
  }

  /** Observe on a table of last digests: what it reports, and the table after it. */
  function ObserveIn(sha: string -> string, table: map<string, string>, url: string, l: Listing)
    : (map<string, string>, Observed)
  {
    if !Inspectable(l) then (table, Ignored)
    else
      var tools := ToolSetOf(sha, l.value);
      (table[url := tools.digest],
       if url in table then Seen(tools, table[url] != tools.digest, table[url]) else Seen(tools, false, ""))
  }

  class Inventory {
    var byUrl: map<string, string>

    constructor ()
      ensures byUrl == map[]
    {
      byUrl := map[];
    }

    /** Observe. */
    method Observe(sha: string -> string, url: string, l: Listing) returns (r: Observed)
      modifies this
      ensures (byUrl, r) == ObserveIn(sha, old(byUrl), url, l)
    {
      hide Entry;
      hide Join;
      hide SortStrings;
      hide TrimSpace;
      if l.None? || |l.value| == 0 {
        return Ignored;
      }
      var tools := l.value;
      var entries: seq<string>, names: seq<string> := [], [];
      for i := 0 to |tools|
        invariant entries == Entries(Meanings(tools))[..i] && names == Names(tools)[..i]
      {
        var schema := TrimSpace(tools[i].schema);
        entries := entries + [Entry(Meaning(tools[i].name, tools[i].description, schema))];
        names := names + [tools[i].name];
      }
      assert entries == Entries(Meanings(tools)) && names == Names(tools);
      entries := SortStrings(entries);
      names := SortStrings(names);
      var digest := sha(Join(entries, NUL));
      var tset := ToolSet(digest, names, |names|);
      var seen := url in byUrl;
      var prev := if seen then byUrl[url] else "";
      byUrl := byUrl[url := digest];
      r := if seen then Seen(tset, prev != digest, prev) else Seen(tset, false, "");
    }
  }

  // ---------------------------------------------------------------- what the digest sees

  lemma EntryIs(m: Meaning, rest: string)
    ensures Entry(m) + rest == Field(m.name) + (Field(m.description) + (Field(m.schema) + rest))
    ensures Entry(m) != ""
  {
    hide Field;
    assert Encode([m.schema]) == Field(m.schema) + "";
    assert [m.name, m.description, m.schema][1..] == [m.description, m.schema];
    assert [m.description, m.schema][1..] == [m.schema] && [m.schema][1..] == [];
    EncodeNonEmpty([m.name, m.description, m.schema]);
  }

  /** An entry ends where it ends, whatever follows it. */
  lemma EntryPrefixFree(m: Meaning, x: string, n: Meaning, y: string)
    requires Entry(m) + x == Entry(n) + y
    ensures m == n && x == y
  {
    hide Field;
    hide Entry;
    EntryIs(m, x);
    EntryIs(n, y);
    HeadInjective(m.name, Field(m.description) + (Field(m.schema) + x),
                  n.name, Field(n.description) + (Field(n.schema) + y));
    HeadInjective(m.description, Field(m.schema) + x, n.description, Field(n.schema) + y);
    HeadInjective(m.schema, x, n.schema, y);
  }

  /** The joined entries can be told apart. */
  lemma {:induction false} JoinedEntriesInjective(ms: seq<Meaning>, ns: seq<Meaning>)
    requires ms != [] && ns != [] && Join(Entries(ms), NUL) == Join(Entries(ns), NUL)
    ensures ms == ns
    decreases |ms|
  {
    hide Entry;
    JoinStep(ms);
    JoinStep(ns);
    var x, y := if |ms| == 1 then "" else NUL + Join(Entries(ms[1..]), NUL),
                if |ns| == 1 then "" else NUL + Join(Entries(ns[1..]), NUL);
    EntryPrefixFree(ms[0], x, ns[0], y);
    assert |ms| == 1 <==> |ns| == 1;
    if |ms| <= 1 {
    } else {
      assert x[1..] == Join(Entries(ms[1..]), NUL) && y[1..] == Join(Entries(ns[1..]), NUL);
      JoinedEntriesInjective(ms[1..], ns[1..]);
    }
    assert ms == [ms[0]] + ms[1..] && ns == [ns[0]] + ns[1..];
  }

  lemma JoinStep(ms: seq<Meaning>)
    requires ms != []
    ensures Join(Entries(ms), NUL)
         == Entry(ms[0]) + (if |ms| == 1 then "" else NUL + Join(Entries(ms[1..]), NUL))
  {
    hide Entry;
    assert Entries(ms)[1..] == Entries(ms[1..]);
    if |ms| > 1 {
      assert Entry(ms[0]) + NUL + Join(Entries(ms[1..]), NUL) == Entry(ms[0]) + (NUL + Join(Entries(ms[1..]), NUL));
    }
  }

  lemma EntriesWithoutOne(ms: seq<Meaning>, k: nat)
    requires k < |ms|
    ensures Entries(ms[..k] + ms[k + 1..]) == Entries(ms)[..k] + Entries(ms)[k + 1..]
  {
    hide Entry;
  }

  /** Every list of strings with the entries of some tools is the entries of those tools, reordered. */
  lemma {:induction false} Reordered(xs: seq<string>, ms: seq<Meaning>) returns (ns: seq<Meaning>)
    requires multiset(xs) == multiset(Entries(ms))
    ensures Entries(ns) == xs && multiset(ns) == multiset(ms)
    decreases |xs|
  {
    hide Entry;
    hide Entries;
    SameSize(xs, Entries(ms));
    if xs == [] {
      ns := [];
      NoEntries();
    } else {
      var k := PositionOf(Entries(ms), xs[0]);
      EntriesWithoutOne(ms, k);
      WithoutOne(Entries(ms), k);
      WithoutFirst(xs);
      var tail := Reordered(xs[1..], ms[..k] + ms[k + 1..]);
      ns := PutFirst(ms, k, tail);
      EntryAt(ms, k);
      FirstEntry(ns);
      assert xs == [xs[0]] + xs[1..];
    }
  }

  lemma NoEntries()
    ensures Entries([]) == []
  {
  }

  lemma FirstEntry(ms: seq<Meaning>)
    requires ms != []
    ensures Entries(ms) == [Entry(ms[0])] + Entries(ms[1..])
  {
    hide Entry;
  }

  lemma {:induction false} EntriesOfPermutation(ms: seq<Meaning>, ns: seq<Meaning>)
    requires multiset(ms) == multiset(ns)
    ensures multiset(Entries(ms)) == multiset(Entries(ns))
    decreases |ms|
  {
    hide Entry;
    hide Entries;
    SameSize(ms, ns);
    if ms == [] {
    } else {
      var k := PositionOf(ns, ms[0]);
      EntriesWithoutOne(ns, k);
      WithoutOne(Entries(ns), k);
      WithoutOne(ns, k);
      WithoutFirst(ms);
      EntriesOfPermutation(ms[1..], ns[..k] + ns[k + 1..]);
      FirstEntry(ms);
      EntryAt(ns, k);
    }
  }

  lemma EntryAt(ms: seq<Meaning>, k: nat)
    requires k < |ms|
    ensures Entries(ms)[k] == Entry(ms[k])
  {
    hide Entry;
  }

  /** The hashed bytes of two listings agree exactly when the listings advertise the same tools,
      each as often: order does not matter, and nothing else is lost. */
  lemma DigestedIff(a: seq<Tool>, b: seq<Tool>)
    requires a != [] && b != []
    ensures Digested(a) == Digested(b) <==> multiset(Meanings(a)) == multiset(Meanings(b))
  {
    hide SortStrings;
    hide Join;
    hide Entries;
    hide Meanings;
    var ms, ns := Meanings(a), Meanings(b);
    if multiset(ms) == multiset(ns) {
      EntriesOfPermutation(ms, ns);
      SortIffPermutation(Entries(ms), Entries(ns));
    }
    if Digested(a) == Digested(b) {
      SortIsPermutation(Entries(ms));
      SortIsPermutation(Entries(ns));
      var ps := Reordered(SortStrings(Entries(ms)), ms);
      var qs := Reordered(SortStrings(Entries(ns)), ns);
      SameSize(ps, ms);
      SameSize(qs, ns);
      JoinedEntriesInjective(ps, qs);
    }
  }

  /** Observe reports a change exactly when the advertised tools differ from the last ones as a
      multiset, unless SHA-256 collides on the two; reordering is never a change. */
  lemma ChangedIff(sha: string -> string, table: map<string, string>, url: string, a: seq<Tool>, b: seq<Tool>)
    requires a != [] && b != [] && url in table && table[url] == sha(Digested(a))
    ensures var r := ObserveIn(sha, table, url, Some(b)).1;
            && r.Seen? && r.previous == sha(Digested(a))
            && (multiset(Meanings(a)) == multiset(Meanings(b)) ==> !r.changed)
            && (multiset(Meanings(a)) != multiset(Meanings(b)) ==>
                  r.changed || (Digested(a) != Digested(b) && sha(Digested(a)) == sha(Digested(b))))
  {
    hide Digested;
    hide SortStrings;
    DigestedIff(a, b);
  }
}
