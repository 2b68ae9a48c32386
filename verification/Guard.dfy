/** The structural guard over destination addresses: internal/confine/guard.go.

    Addresses carry no zone. netip's prefix test is "same family and same leading bits". */
module Guard {
  import opened Decimal

  function Pow2(k: nat): (p: nat)
    ensures p > 0
  {
    if k == 0 then 1 else 2 * Pow2(k - 1)
  }

  /** x with its remainder by p cleared. */
  function ClearLow(x: nat, p: nat): nat
    requires p > 0
  {
    ProductIsNat(x / p, p);
    x / p * p
  }

  lemma ProductIsNat(a: nat, b: nat)
    ensures a * b >= 0
  {
  }

  datatype Addr = Invalid | V4(bits: nat) | V6(bits: nat) {
    function Width(): nat {
      if V4? then 32 else if V6? then 128 else 0
    }

    /** A value netip.Addr can hold. */
    ghost predicate WellFormed() {
      Invalid? || bits < Pow2(Width())
    }

    /** Unmap: an IPv4-mapped IPv6 address is the IPv4 address it embeds. */
    function Unmap(): Addr {
      if V6? && bits / 0x1_0000_0000 == 0xffff then V4(bits % 0x1_0000_0000) else this
    }
  }

  /** A prefix ParsePrefix can return: its length fits its family. */
  datatype Prefix = Prefix(addr: Addr, length: nat) {
    ghost predicate WellFormed() {
      !addr.Invalid? && addr.WellFormed() && length <= addr.Width()
    }

    /** The number of host bits. */
    function Free(): nat {
      if length <= addr.Width() then addr.Width() - length else 0
    }

    function Contains(a: Addr): bool {
      && !addr.Invalid? && !a.Invalid? && addr.V4? == a.V4?
      && a.bits / Pow2(Free()) == addr.bits / Pow2(Free())
    }

    /** Masked: the same prefix at its base address. */
    function Masked(): Prefix {
      if addr.Invalid? then this else this.(addr := addr.(bits := ClearLow(addr.bits, Pow2(Free()))))
    }
  }

  function P4(a: nat, b: nat, length: nat): Prefix {
    Prefix(V4(a * 0x100_0000 + b * 0x1_0000), length)
  }

  /** An IPv6 prefix by its first three groups. */
  function P6(a: nat, b: nat, c: nat, length: nat): Prefix {
    Prefix(V6(((a * 0x1_0000 + b) * 0x1_0000 + c) * TWO_80), length)
  }

  const TWO_80: nat := 0x1_0000_0000_0000_0000_0000

  /** What no permit_private entry may reopen. */
  const NEVER_EXEMPT: seq<Prefix> := [
    P4(169, 254, 16), P6(0xfe80, 0, 0, 10), P4(224, 0, 4), P6(0xff00, 0, 0, 8), P4(100, 64, 10),
    P6(0x64, 0xff9b, 0, 96), P6(0x64, 0xff9b, 1, 48), P6(0xfd00, 0xec2, 0, 64)]

  const CGNAT4 := P4(100, 64, 10)
  const NAT64 := P6(0x64, 0xff9b, 0, 96)
  const NAT64_LOCAL := P6(0x64, 0xff9b, 1, 48)
  const METADATA6 := V6((0xfd00 * 0x1_0000 + 0xec2) * 0x1_0000 * TWO_80 + 0x254)

  // Go's own classification helpers, by leading bits.

  predicate IsLoopback(a: Addr) {
    (a.V4? && a.bits / 0x100_0000 == 127) || a == V6(1)
  }

  predicate IsMulticast(a: Addr) {
    (a.V4? && a.bits / 0x1000_0000 == 0xe) || (a.V6? && a.bits / (0x100_0000_0000 * TWO_80) == 0xff)
  }

  predicate IsLinkLocalUnicast(a: Addr) {
    (a.V4? && a.bits / 0x1_0000 == 169 * 256 + 254) || (a.V6? && a.bits / (0x40_0000_0000 * TWO_80) == 0x3fa)
  }

  predicate IsUnspecified(a: Addr) {
    a == V4(0) || a == V6(0)
  }

  predicate IsPrivate(a: Addr) {
    || (a.V4? && (a.bits / 0x100_0000 == 10 || a.bits / 0x10_0000 == 172 * 16 + 1 || a.bits / 0x1_0000 == 192 * 256 + 168))
    || (a.V6? && a.bits / (0x200_0000_0000 * TWO_80) == 0x7e)
  }

  datatype Verdict =
    | Allowed | ErrLoopback | ErrPrivate | ErrLinkLocal | ErrUnspecified | ErrMulticast | ErrCarrierNAT | ErrNAT64

  predicate Exempt(permitted: seq<Prefix>, a: Addr) {
    exists i :: 0 <= i < |permitted| && permitted[i].Contains(a)
  }

  /** The denials that hold unless an exemption is consulted first. */
  function Structural(a: Addr): Verdict {
    if IsLoopback(a) then ErrLoopback
    else if IsMulticast(a) then ErrMulticast
    else if a == METADATA6 then ErrLinkLocal
    else if IsLinkLocalUnicast(a) then ErrLinkLocal
    else if IsUnspecified(a) then ErrUnspecified
    else if IsPrivate(a) then ErrPrivate
    else if CGNAT4.Contains(a) then ErrCarrierNAT
    else if NAT64.Contains(a) || NAT64_LOCAL.Contains(a) then ErrNAT64
    else Allowed
  }

  function Check(permitted: seq<Prefix>, addr: Addr): Verdict {
    if addr.Invalid? then ErrUnspecified
    else if Exempt(permitted, addr.Unmap()) then Allowed
    else Structural(addr.Unmap())
  }

  /** Guard.Check, consulting the exemptions one by one. */
  method CheckAddr(permitted: seq<Prefix>, addr: Addr) returns (v: Verdict)
    ensures v == Check(permitted, addr)
  {
    if addr.Invalid? {
      return ErrUnspecified;
    }
    var a := addr.Unmap();
    for i := 0 to |permitted|
      invariant forall k :: 0 <= k < i ==> !permitted[k].Contains(a)
    {
      if permitted[i].Contains(a) {
        return Allowed;
      }
    }
    return Structural(a);
  }

  function PrefixesOverlap(a: Prefix, b: Prefix): bool {
    a.Contains(b.Masked().addr) || b.Contains(a.Masked().addr)
  }

  function MinimumLength(p: Prefix): nat {
    if p.addr.V6? then 64 else 24
  }

  /** What an accepted permit_private entry satisfies. */
  ghost predicate Acceptable(p: Prefix) {
    && (forall i :: 0 <= i < |NEVER_EXEMPT| ==> !PrefixesOverlap(p.Masked(), NEVER_EXEMPT[i]))
    && p.length >= MinimumLength(p)
  }

  /** NewGuard: each entry is a parsed prefix, or None where ParsePrefix failed. */
  method NewGuard(permitPrivate: seq<Option<Prefix>>) returns (g: Option<seq<Prefix>>)
    ensures g.Some? <==> forall i :: 0 <= i < |permitPrivate| ==> permitPrivate[i].Some? && Acceptable(permitPrivate[i].value)
    ensures g.Some? ==> |g.value| == |permitPrivate|
                        && forall i :: 0 <= i < |g.value| ==> g.value[i] == permitPrivate[i].value.Masked()
  {
    hide PrefixesOverlap;
    var permitted: seq<Prefix> := [];
    for i := 0 to |permitPrivate|
      invariant |permitted| == i
      invariant forall k :: 0 <= k < i ==> permitPrivate[k].Some? && Acceptable(permitPrivate[k].value)
                                           && permitted[k] == permitPrivate[k].value.Masked()
    {
      if permitPrivate[i].None? {
        return None;
      }
      var p := permitPrivate[i].value;
      for j := 0 to |NEVER_EXEMPT|
        invariant forall k :: 0 <= k < j ==> !PrefixesOverlap(p.Masked(), NEVER_EXEMPT[k])
      {
        if PrefixesOverlap(p.Masked(), NEVER_EXEMPT[j]) {
          return None;
        }
      }
      if p.length < MinimumLength(p) {
        return None;
      }
      permitted := permitted + [p.Masked()];
    }
    return Some(permitted);
  }

  // ---------------------------------------------------------------- bit arithmetic

  lemma {:induction false} Pow2Add(j: nat, k: nat)
    ensures Pow2(j + k) == Pow2(j) * Pow2(k)
  {
    if j == 0 {
    } else {
      Pow2Add(j - 1, k);
      assert Pow2(j + k) == 2 * Pow2(j - 1 + k);
    }
  }

  lemma MulLe(a: int, b: int, p: nat)
    requires a <= b
    ensures a * p <= b * p
  {
  }

  lemma DivBounds(x: int, p: nat)
    requires p > 0
    ensures x / p * p <= x < (x / p + 1) * p
  {
  }

  lemma DivUnique(x: int, p: nat, q: int)
    requires p > 0 && q * p <= x < (q + 1) * p
    ensures x / p == q
  {
    var d := x / p;
    DivBounds(x, p);
    if d + 1 <= q {
      MulLe(d + 1, q, p);
    }
    if q + 1 <= d {
      MulLe(q + 1, d, p);
    }
  }

  lemma MulAssoc(a: int, b: int, c: int)
    ensures a * b * c == a * (b * c) == a * c * b
  {
  }

  lemma MulPositive(p: nat, q: nat)
    requires p > 0 && q > 0
    ensures p * q > 0
  {
  }

  lemma DivDiv(x: nat, p: nat, q: nat)
    requires p > 0 && q > 0
    ensures p * q > 0 && x / (p * q) == x / p / q
  {
    MulPositive(p, q);
    var y := x / p;
    var z := y / q;
    DivBounds(x, p);
    DivBounds(y, q);
    MulLe(z * q, y, p);
    MulLe(y + 1, (z + 1) * q, p);
    MulAssoc(z, p, q);
    MulAssoc(z + 1, p, q);
    DivUnique(x, p * q, z);
  }

  lemma MulDiv(y: nat, p: nat)
    requires p > 0
    ensures y * p / p == y
  {
    DivUnique(y * p, p, y);
  }

  /** Dropping more bits of a number that had some cleared sees only the bits that were kept. */
  lemma ClearedBits(x: nat, few: nat, many: nat)
    requires few <= many
    ensures (x / Pow2(few) * Pow2(few)) / Pow2(many) == x / Pow2(many)
  {
    Pow2Add(few, many - few);
    Cleared(x, Pow2(few), Pow2(many - few));
  }

  lemma Cleared(x: nat, p: nat, q: nat)
    requires p > 0 && q > 0
    ensures p * q > 0 && (x / p * p) / (p * q) == x / (p * q)
  {
    var y := x / p;
    DivDiv(x, p, q);
    MulDiv(y, p);
    assert y * p >= 0;
    DivDiv(y * p, p, q);
  }

  /** Storing an exemption masked exempts exactly the addresses it named. */
  lemma MaskedContainsSame(p: Prefix, a: Addr)
    ensures p.Masked().Contains(a) == p.Contains(a)
  {
    if !p.addr.Invalid? {
      ClearedBits(p.addr.bits, p.Free(), p.Free());
    }
  }

  /** The base address of a prefix is its address less the host bits, and lies in it. */
  lemma MaskedIsBase(p: Prefix)
    requires !p.addr.Invalid?
    ensures var m := p.Masked();
            && m.length == p.length && m.addr.V4? == p.addr.V4? && !m.addr.Invalid?
            && m.addr.bits == p.addr.bits - p.addr.bits % Pow2(p.Free()) && p.Contains(m.addr)
  {
    hide Pow2;
    ClearedBits(p.addr.bits, p.Free(), p.Free());
    WithoutRemainder(p.addr.bits, Pow2(p.Free()));
  }

  lemma WithoutRemainder(x: nat, n: nat)
    requires n > 0
    ensures ClearLow(x, n) == x - x % n
  {
  }

  /** Of two prefixes sharing an address, the shorter contains the base of the longer. */
  lemma ShorterContainsBase(short: Prefix, long: Prefix, a: Addr)
    requires short.Contains(a) && long.Contains(a) && long.Free() <= short.Free()
    ensures short.Contains(long.Masked().addr)
  {
    ClearedBits(long.addr.bits, long.Free(), short.Free());
    ClearedBits(a.bits, long.Free(), short.Free());
  }

  lemma ContainsOwnBase(p: Prefix)
    requires !p.addr.Invalid?
    ensures p.Contains(p.Masked().addr)
  {
    ClearedBits(p.addr.bits, p.Free(), p.Free());
  }

  lemma BaseWellFormed(p: Prefix)
    requires p.WellFormed()
    ensures p.Masked().addr.WellFormed()
  {
    var n := Pow2(p.Free());
    assert p.addr.bits / n * n <= p.addr.bits;
  }

  /** The overlap test is exact: it holds precisely when some address lies in both prefixes. */
  lemma OverlapIffShared(a: Prefix, b: Prefix)
    requires a.WellFormed() && b.WellFormed()
    ensures PrefixesOverlap(a, b) <==> exists x: Addr :: x.WellFormed() && a.Contains(x) && b.Contains(x)
  {
    if PrefixesOverlap(a, b) {
      ContainsOwnBase(a);
      ContainsOwnBase(b);
      BaseWellFormed(a);
      BaseWellFormed(b);
      var x := if a.Contains(b.Masked().addr) then b.Masked().addr else a.Masked().addr;
      assert x.WellFormed() && a.Contains(x) && b.Contains(x);
    }
    forall x: Addr | x.WellFormed() && a.Contains(x) && b.Contains(x)
      ensures PrefixesOverlap(a, b)
    {
      SharedOverlaps(a, b, x);
    }
  }

  lemma SharedOverlaps(a: Prefix, b: Prefix, x: Addr)
    requires a.Contains(x) && b.Contains(x)
    ensures PrefixesOverlap(a, b)
  {
    if b.Free() <= a.Free() {
      ShorterContainsBase(a, b, x);
    } else {
      ShorterContainsBase(b, a, x);
    }
  }

  // ---------------------------------------------------------------- the guarantee

  lemma Powers()
    ensures Pow2(16) == 0x1_0000 && Pow2(22) == 0x40_0000 && Pow2(28) == 0x1000_0000
    ensures Pow2(64) == 0x1_0000_0000_0000_0000 && Pow2(80) == TWO_80
    ensures Pow2(118) == 0x40_0000_0000 * TWO_80 && Pow2(120) == 0x100_0000_0000 * TWO_80
    ensures Pow2(121) == 0x200_0000_0000 * TWO_80
  {
    assert Pow2(4) == 16;
    assert Pow2(6) == 64;
    Pow2Add(4, 4);
    Pow2Add(8, 8);
    Pow2Add(16, 6);
    Pow2Add(16, 16);
    Pow2Add(22, 6);
    Pow2Add(32, 32);
    Pow2Add(64, 16);
    Pow2Add(32, 6);
    Pow2Add(38, 80);
    assert Pow2(120) == 4 * Pow2(118);
    assert Pow2(121) == 8 * Pow2(118);
  }

  /** Every range no exemption may reopen is refused by the structural denials. */
  lemma NeverExemptIsDenied(i: nat, a: Addr)
    requires i < |NEVER_EXEMPT| && NEVER_EXEMPT[i].Contains(a)
    ensures Structural(a) != Allowed
  {
    hide Prefix.Contains;
    if i < 4 {
      FirstRanges(i, a);
    } else {
      LaterRanges(i, a);
    }
  }

  /** Link-local and multicast, in both families. */
  lemma FirstRanges(i: nat, a: Addr)
    requires i < 4 && NEVER_EXEMPT[i].Contains(a)
    ensures IsMulticast(a) || IsLinkLocalUnicast(a)
  {
    Powers();
    hide Pow2;
    assert i == 0 ==> a.V4? && a.bits / Pow2(16) == (169 * 0x100_0000 + 254 * 0x1_0000) / Pow2(16);
    assert i == 1 ==> a.V6? && a.bits / Pow2(118) == 0xfe80 * 0x1_0000 * 0x1_0000 * TWO_80 / Pow2(118);
    assert i == 2 ==> a.V4? && a.bits / Pow2(28) == 224 * 0x100_0000 / Pow2(28);
    assert i == 3 ==> a.V6? && a.bits / Pow2(120) == 0xff00 * 0x1_0000 * 0x1_0000 * TWO_80 / Pow2(120);
  }

  /** Carrier NAT, the two NAT64 prefixes, and the metadata range inside the private space. */
  lemma LaterRanges(i: nat, a: Addr)
    requires 4 <= i < 8 && NEVER_EXEMPT[i].Contains(a)
    ensures CGNAT4.Contains(a) || NAT64.Contains(a) || NAT64_LOCAL.Contains(a) || IsPrivate(a)
  {
    Powers();
    hide Pow2;
    if i == 7 {
      assert a.bits / Pow2(64) == (0xfd00 * 0x1_0000 + 0xec2) * 0x1_0000 * TWO_80 / Pow2(64);
      UniqueLocal(a.bits);
    }
  }

  /** fd00:ec2::/64 lies inside fc00::/7. */
  lemma UniqueLocal(n: nat)
    requires n / 0x1_0000_0000_0000_0000 == 0xfd00_0ec2_0000_0000
    ensures n / (0x200_0000_0000 * TWO_80) == 0x7e
  {
  }

  /** The guard: whatever permit_private list NewGuard accepted, an address whose unmapped form
      lies in a never-exempt range is refused. */
  lemma NeverExemptAlwaysRefused(entries: seq<Prefix>, permitted: seq<Prefix>, addr: Addr, i: nat)
    requires |permitted| == |entries|
    requires forall k :: 0 <= k < |entries| ==> Acceptable(entries[k]) && permitted[k] == entries[k].Masked()
    requires i < |NEVER_EXEMPT| && NEVER_EXEMPT[i].Contains(addr.Unmap())
    ensures Check(permitted, addr) != Allowed
  {
    hide Structural;
    var a := addr.Unmap();
    forall k | 0 <= k < |permitted|
      ensures !permitted[k].Contains(a)
    {
      assert Acceptable(entries[k]);
      if permitted[k].Contains(a) {
        SharedOverlaps(entries[k].Masked(), NEVER_EXEMPT[i], a);
      }
    }
    NeverExemptIsDenied(i, a);
  }

  // ---------------------------------------------------------------- what the guard denies

  const METADATA := Prefix(V6(0xfd00_0ec2_0000_0000_0000_0000_0000_0254), 128)

  /** The ranges refused for each reason, unless an exemption covers the address. */
  function Denied(v: Verdict): seq<Prefix> {
    match v
    case ErrLoopback => [P4(127, 0, 8), Prefix(V6(1), 128)]
    case ErrMulticast => [P4(224, 0, 4), P6(0xff00, 0, 0, 8)]
    case ErrLinkLocal => [P4(169, 254, 16), P6(0xfe80, 0, 0, 10), METADATA]
    case ErrUnspecified => [Prefix(V4(0), 32), Prefix(V6(0), 128)]
    case ErrPrivate => [P4(10, 0, 8), P4(172, 16, 12), P4(192, 168, 16), P6(0xfc00, 0, 0, 7)]
    case ErrCarrierNAT => [P4(100, 64, 10)]
    case ErrNAT64 => [P6(0x64, 0xff9b, 0, 96), P6(0x64, 0xff9b, 1, 48)]
    case Allowed => []
  }

  predicate Within(ranges: seq<Prefix>, a: Addr) {
    exists i :: 0 <= i < |ranges| && ranges[i].Contains(a)
  }

  lemma WithinTwo(p: Prefix, q: Prefix, a: Addr)
    ensures Within([p, q], a) <==> p.Contains(a) || q.Contains(a)
    ensures Within([p], a) <==> p.Contains(a)
  {
    hide Prefix.Contains;
    assert [p, q][0] == p && [p, q][1] == q && [p][0] == p;
  }

  lemma WithinMore(p: Prefix, ranges: seq<Prefix>, a: Addr)
    ensures Within([p] + ranges, a) <==> p.Contains(a) || Within(ranges, a)
  {
    hide Prefix.Contains;
    var all := [p] + ranges;
    assert all[0] == p;
    assert forall i :: 0 <= i < |ranges| ==> all[i + 1] == ranges[i];
    assert forall i :: 0 < i < |all| ==> all[i] == ranges[i - 1];
  }

  lemma MorePowers()
    ensures Pow2(0) == 1 && Pow2(20) == 0x10_0000 && Pow2(24) == 0x100_0000 && Pow2(32) == 0x1_0000_0000
  {
    assert Pow2(4) == 16;
    Pow2Add(4, 4);
    Pow2Add(8, 8);
    Pow2Add(16, 4);
    Pow2Add(16, 8);
    Pow2Add(16, 16);
  }

  /** A prefix by its leading bits: q of them, n addresses in all. */
  lemma ContainsIs(p: Prefix, a: Addr, n: nat, q: nat)
    requires !p.addr.Invalid? && n > 0 && Pow2(p.Free()) == n && p.addr.bits / n == q
    ensures p.Contains(a) <==> !a.Invalid? && a.V4? == p.addr.V4? && a.bits / n == q
  {
    hide Pow2;
  }

  lemma LoopbackIs(a: Addr)
    ensures IsLoopback(a) <==> Within(Denied(ErrLoopback), a)
  {
    hide Prefix.Contains;
    hide Within;
    hide Pow2;
    MorePowers();
    WithinTwo(P4(127, 0, 8), Prefix(V6(1), 128), a);
    ContainsIs(P4(127, 0, 8), a, 0x100_0000, 127);
    ContainsIs(Prefix(V6(1), 128), a, 1, 1);
  }

  lemma UnspecifiedIs(a: Addr)
    ensures IsUnspecified(a) <==> Within(Denied(ErrUnspecified), a)
  {
    hide Prefix.Contains;
    hide Within;
    hide Pow2;
    MorePowers();
    WithinTwo(Prefix(V4(0), 32), Prefix(V6(0), 128), a);
    ContainsIs(Prefix(V4(0), 32), a, 1, 0);
    ContainsIs(Prefix(V6(0), 128), a, 1, 0);
  }

  lemma MulticastIs(a: Addr)
    ensures IsMulticast(a) <==> Within(Denied(ErrMulticast), a)
  {
    hide Prefix.Contains;
    hide Within;
    hide Pow2;
    Powers();
    WithinTwo(P4(224, 0, 4), P6(0xff00, 0, 0, 8), a);
    ContainsIs(P4(224, 0, 4), a, 0x1000_0000, 0xe);
    ContainsIs(P6(0xff00, 0, 0, 8), a, 0x100_0000_0000 * TWO_80, 0xff);
  }

  lemma LinkLocalIs(a: Addr)
    ensures a == METADATA6 || IsLinkLocalUnicast(a) <==> Within(Denied(ErrLinkLocal), a)
  {
    hide Prefix.Contains;
    hide Within;
    hide Pow2;
    Powers();
    MorePowers();
    WithinMore(P4(169, 254, 16), [P6(0xfe80, 0, 0, 10), METADATA], a);
    WithinTwo(P6(0xfe80, 0, 0, 10), METADATA, a);
    assert Denied(ErrLinkLocal) == [P4(169, 254, 16)] + [P6(0xfe80, 0, 0, 10), METADATA];
    ContainsIs(P4(169, 254, 16), a, 0x1_0000, 169 * 256 + 254);
    ContainsIs(P6(0xfe80, 0, 0, 10), a, 0x40_0000_0000 * TWO_80, 0x3fa);
    ContainsIs(METADATA, a, 1, METADATA6.bits);
  }

  lemma PrivateIs(a: Addr)
    ensures IsPrivate(a) <==> Within(Denied(ErrPrivate), a)
  {
    hide Prefix.Contains;
    hide Within;
    hide Pow2;
    Powers();
    MorePowers();
    var last := [P4(192, 168, 16), P6(0xfc00, 0, 0, 7)];
    WithinMore(P4(10, 0, 8), [P4(172, 16, 12)] + last, a);
    WithinMore(P4(172, 16, 12), last, a);
    WithinTwo(P4(192, 168, 16), P6(0xfc00, 0, 0, 7), a);
    assert Denied(ErrPrivate) == [P4(10, 0, 8)] + ([P4(172, 16, 12)] + last);
    ContainsIs(P4(10, 0, 8), a, 0x100_0000, 10);
    ContainsIs(P4(172, 16, 12), a, 0x10_0000, 172 * 16 + 1);
    ContainsIs(P4(192, 168, 16), a, 0x1_0000, 192 * 256 + 168);
    ContainsIs(P6(0xfc00, 0, 0, 7), a, 0x200_0000_0000 * TWO_80, 0x7e);
  }

  lemma NatIs(a: Addr)
    ensures CGNAT4.Contains(a) <==> Within(Denied(ErrCarrierNAT), a)
    ensures NAT64.Contains(a) || NAT64_LOCAL.Contains(a) <==> Within(Denied(ErrNAT64), a)
  {
    hide Prefix.Contains;
    WithinTwo(CGNAT4, CGNAT4, a);
    WithinTwo(NAT64, NAT64_LOCAL, a);
  }

  lemma AllRanges(a: Addr)
    ensures IsLoopback(a) <==> Within(Denied(ErrLoopback), a)
    ensures IsMulticast(a) <==> Within(Denied(ErrMulticast), a)
    ensures a == METADATA6 || IsLinkLocalUnicast(a) <==> Within(Denied(ErrLinkLocal), a)
    ensures IsUnspecified(a) <==> Within(Denied(ErrUnspecified), a)
    ensures IsPrivate(a) <==> Within(Denied(ErrPrivate), a)
    ensures CGNAT4.Contains(a) <==> Within(Denied(ErrCarrierNAT), a)
    ensures NAT64.Contains(a) || NAT64_LOCAL.Contains(a) <==> Within(Denied(ErrNAT64), a)
    ensures !Within(Denied(Allowed), a)
  {
    hide Within;
    hide Denied;
    LoopbackIs(a);
    MulticastIs(a);
    LinkLocalIs(a);
    UnspecifiedIs(a);
    PrivateIs(a);
    NatIs(a);
    NothingAllowed(a);
  }

  lemma NothingAllowed(a: Addr)
    ensures !Within(Denied(Allowed), a)
  {
  }

  lemma Interval(x: nat, n: nat, q: nat)
    requires n > 0
    ensures x / n == q <==> q * n <= x < (q + 1) * n
  {
    DivBounds(x, n);
    if q * n <= x < (q + 1) * n {
      DivUnique(x, n, q);
    }
  }

  /** The 32-bit ranges as intervals of numbers, and no two of them meet. */
  lemma Disjoint4(a: Addr)
    requires a.V4?
    ensures IsLoopback(a) <==> 0x7f00_0000 <= a.bits < 0x8000_0000
    ensures IsMulticast(a) <==> 0xe000_0000 <= a.bits < 0xf000_0000
    ensures IsLinkLocalUnicast(a) <==> 0xa9fe_0000 <= a.bits < 0xa9ff_0000
    ensures IsUnspecified(a) <==> a.bits == 0
    ensures CGNAT4.Contains(a) <==> 0x6440_0000 <= a.bits < 0x6480_0000
    ensures !NAT64.Contains(a) && !NAT64_LOCAL.Contains(a)
    ensures IsPrivate(a) <==> 0x0a00_0000 <= a.bits < 0x0b00_0000 || 0xac10_0000 <= a.bits < 0xac20_0000
                              || 0xc0a8_0000 <= a.bits < 0xc0a9_0000
  {
    Powers();
    hide Pow2;
    ContainsIs(CGNAT4, a, 0x40_0000, 401);
    Interval(a.bits, 0x40_0000, 401);
    Interval(a.bits, 0x100_0000, 127);
    Interval(a.bits, 0x1000_0000, 0xe);
    Interval(a.bits, 0x1_0000, 169 * 256 + 254);
    Interval(a.bits, 0x100_0000, 10);
    Interval(a.bits, 0x10_0000, 172 * 16 + 1);
    Interval(a.bits, 0x1_0000, 192 * 256 + 168);
  }

  lemma Disjoint6(a: Addr)
    requires a.V6?
    ensures IsLoopback(a) <==> a.bits == 1
    ensures IsUnspecified(a) <==> a.bits == 0
    ensures IsMulticast(a) <==> 0xff * TWO_120 <= a.bits < 0x100 * TWO_120
    ensures IsLinkLocalUnicast(a) <==> 0xfe8 * TWO_116 <= a.bits < 0xfec * TWO_116
    ensures IsPrivate(a) <==> 0xfc * TWO_120 <= a.bits < 0xfe * TWO_120
    ensures NAT64.Contains(a) || NAT64_LOCAL.Contains(a) ==> 0x64 * TWO_112 <= a.bits < 0x65 * TWO_112
    ensures !CGNAT4.Contains(a)
  {
    Powers();
    MorePowers();
    hide Pow2;
    ContainsIs(NAT64, a, 0x1_0000_0000, 0x64_ff9b_0000_0000_0000_0000);
    ContainsIs(NAT64_LOCAL, a, TWO_80, 0x64_ff9b_0001);
    Interval(a.bits, 0x1_0000_0000, 0x64_ff9b_0000_0000_0000_0000);
    Interval(a.bits, TWO_80, 0x64_ff9b_0001);
    Interval(a.bits, 0x100_0000_0000 * TWO_80, 0xff);
    Interval(a.bits, 0x40_0000_0000 * TWO_80, 0x3fa);
    Interval(a.bits, 0x200_0000_0000 * TWO_80, 0x7e);
  }

  const TWO_112: nat := 0x1_0000_0000 * TWO_80
  const TWO_116: nat := 0x10_0000_0000 * TWO_80
  const TWO_120: nat := 0x100_0000_0000 * TWO_80

  /** No address is in two of the ranges, but for the metadata endpoint, which fc00::/7 holds. */
  lemma OneKind(a: Addr)
    ensures var kinds := [IsLoopback(a), IsMulticast(a), a == METADATA6 || IsLinkLocalUnicast(a), IsUnspecified(a),
                          IsPrivate(a) && a != METADATA6, CGNAT4.Contains(a), NAT64.Contains(a) || NAT64_LOCAL.Contains(a)];
            forall i, j :: 0 <= i < j < |kinds| ==> !(kinds[i] && kinds[j])
  {
    hide IsLoopback;
    hide IsMulticast;
    hide IsLinkLocalUnicast;
    hide IsUnspecified;
    hide IsPrivate;
    hide Prefix.Contains;
    match a
    case V4(_) => Disjoint4(a);
    case V6(_) => Disjoint6(a);
    case Invalid => NoKind(a);
  }

  lemma NoKind(a: Addr)
    requires a.Invalid?
    ensures !IsLoopback(a) && !IsMulticast(a) && a != METADATA6 && !IsLinkLocalUnicast(a) && !IsUnspecified(a)
    ensures !IsPrivate(a) && !CGNAT4.Contains(a) && !NAT64.Contains(a) && !NAT64_LOCAL.Contains(a)
  {
  }

  /** What kind of address each verdict speaks of. */
  predicate IsOf(v: Verdict, a: Addr) {
    match v
    case ErrLoopback => IsLoopback(a)
    case ErrMulticast => IsMulticast(a)
    case ErrLinkLocal => a == METADATA6 || IsLinkLocalUnicast(a)
    case ErrUnspecified => IsUnspecified(a)
    case ErrPrivate => IsPrivate(a)
    case ErrCarrierNAT => CGNAT4.Contains(a)
    case ErrNAT64 => NAT64.Contains(a) || NAT64_LOCAL.Contains(a)
    case Allowed => false
  }

  lemma IsOfRange(v: Verdict, a: Addr)
    ensures IsOf(v, a) <==> Within(Denied(v), a)
  {
    hide Within;
    hide Denied;
    hide Prefix.Contains;
    hide IsLoopback;
    hide IsMulticast;
    hide IsLinkLocalUnicast;
    hide IsUnspecified;
    hide IsPrivate;
    AllRanges(a);
  }

  lemma StructuralIsOf(a: Addr, v: Verdict)
    ensures Structural(a) == v
       <==> if v == Allowed then forall w: Verdict :: !IsOf(w, a)
            else IsOf(v, a) && (v == ErrPrivate ==> a != METADATA6)
  {
    hide IsLoopback;
    hide IsMulticast;
    hide IsLinkLocalUnicast;
    hide IsUnspecified;
    hide IsPrivate;
    hide Prefix.Contains;
    OneKind(a);
    var kinds := [IsLoopback(a), IsMulticast(a), a == METADATA6 || IsLinkLocalUnicast(a), IsUnspecified(a),
                  IsPrivate(a) && a != METADATA6, CGNAT4.Contains(a), NAT64.Contains(a) || NAT64_LOCAL.Contains(a)];
    assert kinds[0] == IsLoopback(a) && kinds[1] == IsMulticast(a) && kinds[4] == (IsPrivate(a) && a != METADATA6);
    assert kinds[2] == (a == METADATA6 || IsLinkLocalUnicast(a)) && kinds[3] == IsUnspecified(a);
    assert kinds[5] == CGNAT4.Contains(a) && kinds[6] == (NAT64.Contains(a) || NAT64_LOCAL.Contains(a));
    if Structural(a) != Allowed {
      assert IsOf(Structural(a), a);
    }
  }

  /** The verdict on an address that no exemption covers: the reason it lies in a range of, and
      Allowed if it lies in none. No two reasons share an address but the metadata endpoint, which
      fc00::/7 holds too. */
  lemma StructuralIff(a: Addr, v: Verdict)
    ensures Structural(a) == v
       <==> if v == Allowed then forall w: Verdict :: !Within(Denied(w), a)
            else Within(Denied(v), a) && (v == ErrPrivate ==> a != METADATA.addr)
  {
    hide Within;
    hide Denied;
    hide IsOf;
    hide Structural;
    StructuralIsOf(a, v);
    forall w: Verdict
      ensures IsOf(w, a) <==> Within(Denied(w), a)
    {
      IsOfRange(w, a);
    }
    assert METADATA.addr == METADATA6;
  }

  /** An address is let through exactly if it is one and, unmapped, lies in an exemption or in no
      denied range. */
  lemma AllowedIff(permitted: seq<Prefix>, a: Addr)
    ensures Check(permitted, a) == Allowed
       <==> !a.Invalid?
            && (Within(permitted, a.Unmap()) || forall v: Verdict :: !Within(Denied(v), a.Unmap()))
  {
    hide Within;
    hide Denied;
    hide Structural;
    ExemptIs(permitted, a.Unmap());
    StructuralIff(a.Unmap(), Allowed);
  }

  /** Where no exemption covers it, it is refused for the reason its range is denied for. */
  lemma VerdictIff(permitted: seq<Prefix>, a: Addr, v: Verdict)
    requires !a.Invalid? && !Within(permitted, a.Unmap()) && v != Allowed
    ensures Check(permitted, a) == v
       <==> Within(Denied(v), a.Unmap()) && (v == ErrPrivate ==> a.Unmap() != METADATA.addr)
  {
    hide Within;
    hide Denied;
    hide Structural;
    ExemptIs(permitted, a.Unmap());
    StructuralIff(a.Unmap(), v);
  }

  lemma ExemptIs(permitted: seq<Prefix>, a: Addr)
    ensures Exempt(permitted, a) <==> Within(permitted, a)
  {
    hide Prefix.Contains;
  }

  /** No mapped spelling is judged differently from the address it embeds. */
  lemma SpellingIrrelevant(permitted: seq<Prefix>, n: nat)
    requires n < 0x1_0000_0000
    ensures Check(permitted, V6(0xffff * 0x1_0000_0000 + n)) == Check(permitted, V4(n))
  {
    assert (0xffff * 0x1_0000_0000 + n) / 0x1_0000_0000 == 0xffff;
    assert V6(0xffff * 0x1_0000_0000 + n).Unmap() == V4(n);
    assert V4(n).Unmap() == V4(n);
  }

  /** Only an IPv4-mapped spelling is unmapped, to the address it embeds. */
  lemma UnmapIs(a: Addr)
    ensures a.Unmap() == if a.V6? && 0xffff_0000_0000 <= a.bits < 0x1_0000_0000_0000 then V4(a.bits - 0xffff_0000_0000) else a
  {
  }

  /** An entry is accepted exactly if it names no more than a /24, or a /64, and no address of it
      lies in a never-exempt range. */
  lemma AcceptableIff(p: Prefix)
    requires p.WellFormed()
    ensures Acceptable(p)
       <==> p.length >= (if p.addr.V4? then 24 else 64)
            && forall i, x: Addr :: 0 <= i < |NEVER_EXEMPT| && x.WellFormed() && p.Contains(x) ==>
                 !NEVER_EXEMPT[i].Contains(x)
  {
    hide Prefix.Contains;
    hide PrefixesOverlap;
    forall i | 0 <= i < |NEVER_EXEMPT|
      ensures PrefixesOverlap(p.Masked(), NEVER_EXEMPT[i])
         <==> exists x: Addr :: x.WellFormed() && p.Contains(x) && NEVER_EXEMPT[i].Contains(x)
    {
      NeverExemptWellFormed(i);
      MaskedWellFormed(p);
      OverlapIffShared(p.Masked(), NEVER_EXEMPT[i]);
      forall x: Addr
        ensures p.Masked().Contains(x) <==> p.Contains(x)
      {
        MaskedContainsSame(p, x);
      }
    }
  }

  lemma MaskedWellFormed(p: Prefix)
    requires p.WellFormed()
    ensures p.Masked().WellFormed()
  {
    BaseWellFormed(p);
  }

  lemma NeverExemptWellFormed(i: nat)
    requires i < |NEVER_EXEMPT|
    ensures NEVER_EXEMPT[i].WellFormed()
  {
    MorePowers();
    Pow2Add(64, 64);
    Powers();
    hide Pow2;
  }

  /** Whatever exemptions were accepted, nothing reaches the link-local, multicast, carrier-NAT and
      NAT64 ranges, nor the metadata endpoint's subnet. */
  lemma NeverReopened(entries: seq<Prefix>, permitted: seq<Prefix>, addr: Addr, v: Verdict)
    requires |permitted| == |entries|
    requires forall k :: 0 <= k < |entries| ==> Acceptable(entries[k]) && permitted[k] == entries[k].Masked()
    requires (v in {ErrLinkLocal, ErrMulticast, ErrCarrierNAT, ErrNAT64} && Within(Denied(v), addr.Unmap()))
             || P6(0xfd00, 0xec2, 0, 64).Contains(addr.Unmap())
    ensures Check(permitted, addr) != Allowed
  {
    hide Prefix.Contains;
    hide Acceptable;
    hide Structural;
    var i := NeverExemptHolds(addr.Unmap(), v);
    NeverExemptAlwaysRefused(entries, permitted, addr, i);
  }

  lemma NeverExemptHolds(a: Addr, v: Verdict) returns (i: nat)
    requires (v in {ErrLinkLocal, ErrMulticast, ErrCarrierNAT, ErrNAT64} && Within(Denied(v), a))
             || P6(0xfd00, 0xec2, 0, 64).Contains(a)
    ensures i < |NEVER_EXEMPT| && NEVER_EXEMPT[i].Contains(a)
  {
    hide Prefix.Contains;
    if METADATA.Contains(a) {
      MetadataInSubnet(a);
    }
    assert NEVER_EXEMPT[0] == P4(169, 254, 16) && NEVER_EXEMPT[1] == P6(0xfe80, 0, 0, 10);
    assert NEVER_EXEMPT[2] == P4(224, 0, 4) && NEVER_EXEMPT[3] == P6(0xff00, 0, 0, 8);
    assert NEVER_EXEMPT[4] == P4(100, 64, 10) && NEVER_EXEMPT[5] == P6(0x64, 0xff9b, 0, 96);
    assert NEVER_EXEMPT[6] == P6(0x64, 0xff9b, 1, 48) && NEVER_EXEMPT[7] == P6(0xfd00, 0xec2, 0, 64);
    i := if NEVER_EXEMPT[0].Contains(a) then 0 else if NEVER_EXEMPT[1].Contains(a) then 1
         else if NEVER_EXEMPT[2].Contains(a) then 2 else if NEVER_EXEMPT[3].Contains(a) then 3
         else if NEVER_EXEMPT[4].Contains(a) then 4 else if NEVER_EXEMPT[5].Contains(a) then 5
         else if NEVER_EXEMPT[6].Contains(a) then 6 else 7;
  }

  lemma MetadataInSubnet(a: Addr)
    requires METADATA.Contains(a)
    ensures P6(0xfd00, 0xec2, 0, 64).Contains(a)
  {
    Powers();
    MorePowers();
    hide Pow2;
  }
}
