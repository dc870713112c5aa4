/** First-fit allocation of addresses from the VPN range. */
module Ipam {
  import opened Wrappers
  import opened Text
  import opened Netip

  datatype AllocError = NoRange | PoolExhausted

  /** The server's built-in range. */
  const VPN_RANGE := "10.10.0.0/16"

  /** The first host addresses are kept back, so many of them. */
  const RESERVED_HOSTS := 2

  /** netip.Addr.Next: the address after the last one is not valid. */
  function Next(a: Option<Addr>): Option<Addr> {
    if a.Some? && a.value + 1 < 0x1_0000_0000 then Some(a.value + 1) else None
  }

  /** The text of an address that need not be valid. */
  function IPText(a: Option<Addr>): string {
    match a
    case None => "invalid IP"
    case Some(v) => AddrText(v)
  }

  predicate ContainsIP(p: Prefix, a: Option<Addr>)
    requires p.Prefix?
  {
    a.Some? && Contains(p, a.value)
  }

  lemma ContainsNext(p: Prefix, a: Option<Addr>)
    requires p.Prefix?
    ensures ContainsIP(p, Next(a)) <==> a.Some? && Network(p) <= a.value + 1 <= Broadcast(p)
  {
    if Next(a).Some? {
      ContainsIsRange(p, Next(a).value);
    }
  }

  lemma InvalidIsNoAddress(a: Addr)
    ensures AddrText(a) != "invalid IP"
  {
    AddrParses(a);
    assert '.' !in "invalid IP";
  }

  lemma IPTextIs(a: Addr, ip: Option<Addr>)
    ensures AddrText(a) == IPText(ip) <==> ip == Some(a)
  {
    if ip.Some? {
      AddrTextInjective(a, ip.value);
    } else {
      InvalidIsNoAddress(a);
    }
  }

  /** The texts are those of the addresses after lo, up to hi. */
  ghost predicate TextsBetween(texts: set<string>, lo: int, hi: int) {
    forall a: Addr :: AddrText(a) in texts <==> lo < a <= hi
  }

  lemma OneMoreText(texts: set<string>, lo: int, ip: Option<Addr>, hi: int)
    requires TextsBetween(texts, lo, hi) && lo <= hi && hi + 1 >= 0
    requires ip.Some? <==> hi + 1 < 0x1_0000_0000
    requires ip.Some? ==> ip.value == hi + 1
    ensures TextsBetween(texts + {IPText(ip)}, lo, hi + 1)
  {
    forall a: Addr
      ensures AddrText(a) in texts + {IPText(ip)} <==> lo < a <= hi + 1
    {
      IPTextIs(a, ip);
    }
  }

  /** The texts of the addresses just after the start of the range. */
  method ReservedIPs(cidr: Prefix) returns (reserved: set<string>)
    requires cidr.Prefix?
    ensures TextsBetween(reserved, cidr.addr, cidr.addr + RESERVED_HOSTS)
  {
    reserved := {};
    var addr: Option<Addr> := Next(Some(cidr.addr));
    for i := 0 to RESERVED_HOSTS
      invariant addr.Some? <==> cidr.addr + i + 1 < 0x1_0000_0000
      invariant addr.Some? ==> addr.value == cidr.addr + i + 1
      invariant TextsBetween(reserved, cidr.addr, cidr.addr + i)
    {
      OneMoreText(reserved, cidr.addr, addr, cidr.addr + i);
      reserved := reserved + {IPText(addr)};
      addr := Next(addr);
    }
  }

  predicate IsReserved(cidr: Prefix, a: Addr)
    requires cidr.Prefix?
  {
    cidr.addr < a <= cidr.addr + RESERVED_HOSTS
  }

  /** Membership is tested on texts. */
  predicate InUse(used: set<string>, a: Addr) { AddrText(a) in used }

  lemma InUseAfter(used: set<string>, a: Addr, b: Addr)
    ensures InUse(used + {AddrText(b)}, a) <==> InUse(used, a) || a == b
  {
    AddrTextInjective(a, b);
  }

  /** May a be handed out? Not the start of the range, not its last address,
      not reserved and not in use. */
  predicate Free(cidr: Prefix, used: set<string>, a: Addr)
    requires cidr.Prefix?
  {
    cidr.addr < a < Broadcast(cidr) && !IsReserved(cidr, a) && !InUse(used, a)
  }

  /** The least free address from `from` on. */
  function FirstFree(cidr: Prefix, used: set<string>, from: Addr): (r: Option<Addr>)
    requires cidr.Prefix?
    ensures r.Some? ==> from <= r.value && Free(cidr, used, r.value)
    ensures forall a: Addr :: from <= a && Free(cidr, used, a) ==> r.Some? && r.value <= a
    decreases Broadcast(cidr) - from
  {
    if from >= Broadcast(cidr) then None
    else if Free(cidr, used, from) then Some(from)
    else FirstFree(cidr, used, from + 1)
  }

  /** What NextFreeIP hands out. */
  function Allocate(cidr: Option<Prefix>, used: set<string>): Result<string, AllocError> {
    if cidr.None? || cidr.value.NoPrefix? then Err(NoRange)
    else
      match FirstFree(cidr.value, used, cidr.value.addr)
      case None => Err(PoolExhausted)
      case Some(a) => Ok(AddrText(a))
  }

  /** The two lookups by text decide whether an address is free. */
  lemma LookupsDecide(cidr: Prefix, used: set<string>, reserved: set<string>, a: Addr)
    requires cidr.Prefix? && TextsBetween(reserved, cidr.addr, cidr.addr + RESERVED_HOSTS)
    requires cidr.addr < a < Broadcast(cidr)
    ensures Free(cidr, used, a) <==> AddrText(a) !in used && AddrText(a) !in reserved
    ensures FirstFree(cidr, used, a) == if Free(cidr, used, a) then Some(a) else FirstFree(cidr, used, a + 1)
  {
  }

  /** Nothing before the candidate is free. */
  ghost predicate Searching(range: Prefix, used: set<string>, candidate: Option<Addr>)
    requires range.Prefix?
  {
    match candidate
    case Some(a) => range.addr < a && FirstFree(range, used, range.addr) == FirstFree(range, used, a)
    case None => range.addr >= Broadcast(range)
  }

  lemma SearchStarts(range: Prefix, used: set<string>)
    requires range.Prefix?
    ensures Searching(range, used, Next(Some(range.addr)))
  {
    RangeFits(range);
  }

  /** A candidate that the loop looks at comes before the last address. */
  lemma SearchGoesOn(range: Prefix, used: set<string>, candidate: Option<Addr>)
    requires range.Prefix? && Searching(range, used, candidate) && ContainsIP(range, Next(candidate))
    ensures candidate.Some? && range.addr < candidate.value < Broadcast(range)
  {
    ContainsNext(range, candidate);
  }

  lemma SearchNext(range: Prefix, used: set<string>, reserved: set<string>, a: Addr)
    requires range.Prefix? && TextsBetween(reserved, range.addr, range.addr + RESERVED_HOSTS)
    requires Searching(range, used, Some(a)) && a < Broadcast(range)
    ensures if AddrText(a) !in used && AddrText(a) !in reserved
            then Allocate(Some(range), used) == Ok(AddrText(a))
            else Searching(range, used, Next(Some(a)))
  {
    LookupsDecide(range, used, reserved, a);
  }

  lemma SearchEnds(range: Prefix, used: set<string>, candidate: Option<Addr>)
    requires range.Prefix? && Searching(range, used, candidate) && !ContainsIP(range, Next(candidate))
    ensures Allocate(Some(range), used) == Err(PoolExhausted)
  {
    RangeFits(range);
    ContainsNext(range, candidate);
  }

  /** The next free address, by trying one after the other. The loop ends even
      when the range reaches up to 255.255.255.255. */
  method NextFreeIP(cidr: Option<Prefix>, used: set<string>) returns (r: Result<string, AllocError>)
    ensures r == Allocate(cidr, used)
  {
    if cidr.None? || cidr.value.NoPrefix? {
      return Err(NoRange);
    }
    var range := cidr.value;
    var reserved := ReservedIPs(range);
    var candidate: Option<Addr> := Next(Some(range.addr));
    SearchStarts(range, used);
    while ContainsIP(range, Next(candidate))
      invariant Searching(range, used, candidate)
      decreases if candidate.None? then 0 else Broadcast(range) - candidate.value
    {
      SearchGoesOn(range, used, candidate);
      SearchNext(range, used, reserved, candidate.value);
      var ip := IPText(candidate);
      if ip !in used && ip !in reserved {
        return Ok(ip);
      }
      candidate := Next(candidate);
    }
    SearchEnds(range, used, candidate);
    return Err(PoolExhausted);
  }

  /** ParseCIDR: an IPv4 range of /29 or larger, masked. Only such texts pass. */
  function ParseCIDR(s: string): Option<Prefix> {
    match ParsePrefix(s)
    case None => None
    case Some(p) => if p.NoPrefix? || p.bits > 29 then None else Some(Masked(p))
  }

  /** A range as ParseCIDR delivers it. */
  predicate IsRange(p: Prefix) {
    p.Prefix? && p.bits <= 29 && Masked(p) == p
  }

  /** s is the text of a range of /29 or larger, and r that range from its first
      address on. */
  ghost predicate TextOfRange(s: string, p: Prefix, r: Prefix) {
    p.Prefix? && s == PrefixText(p) && p.bits <= 29 && r == Prefix(Network(p), p.bits)
  }

  lemma ParsedIsRange(s: string)
    ensures ParseCIDR(s).Some? ==> IsRange(ParseCIDR(s).value)
    ensures forall r :: ParseCIDR(s) == Some(r) <==> exists p :: TextOfRange(s, p, r)
  {
    if ParseCIDR(s).Some? {
      var p := ParsePrefix(s).value;
      MaskedIdempotent(p);
      PrefixRoundTrip(s, p);
      assert TextOfRange(s, p, ParseCIDR(s).value);
    }
    forall p, r | TextOfRange(s, p, r)
      ensures ParseCIDR(s) == Some(r)
    {
      PrefixRoundTrip(s, p);
    }
  }

  const VPN_NETWORK: Addr := 10 * 0x100_0000 + 10 * 0x1_0000

  lemma SmallDigits()
    ensures Digits(0) == "0" && Digits(10) == "10" && Digits(16) == "16"
  {
    assert Digits(1) == "1";
    DigitsSnoc(1, 0);
    DigitsSnoc(1, 6);
  }

  lemma VPNRangeText()
    ensures PrefixText(Prefix(VPN_NETWORK, 16)) == VPN_RANGE
  {
    SmallDigits();
    assert Octets(VPN_NETWORK) == (10, 10, 0, 0);
    assert Dotted(10, 10, 0, 0) == "10.10.0.0";
  }

  lemma AlignedIsMasked(p: Prefix, q: nat)
    requires p.Prefix? && p.addr == Shl(q, 32 - p.bits)
    ensures Masked(p) == p
  {
    ShrOfShl(q, 32 - p.bits);
  }

  lemma VPNNetworkAligned()
    ensures VPN_NETWORK == Shl(2570, 16)
  {
    assert Shl(2570, 8) == 657920;
    ShlAdds(2570, 8, 16);
    assert Shl(657920, 8) == VPN_NETWORK;
  }

  /** The built-in range is usable. */
  lemma VPNRangeIsRange()
    ensures ParseCIDR(VPN_RANGE) == Some(Prefix(VPN_NETWORK, 16)) && IsRange(Prefix(VPN_NETWORK, 16))
  {
    var p := Prefix(VPN_NETWORK, 16);
    VPNRangeText();
    PrefixRoundTrip(VPN_RANGE, p);
    VPNNetworkAligned();
    AlignedIsMasked(p, 2570);
  }

  // What the allocator promises for a range

  /** The addresses that a range can hand out are base+3 up to the address
      before the last: 2^(32-bits) - 4 of them. */
  function Capacity(p: Prefix): (n: nat)
    requires IsRange(p)
    ensures n >= 4
  {
    RangeAtLeast8(p);
    RangeSize(p.bits) - 4
  }

  lemma RangeAtLeast8(p: Prefix)
    requires IsRange(p)
    ensures RangeSize(p.bits) >= 8
  {
    PowerGrows(3, 32 - p.bits);
    assert Pow2(3) == 8;
  }

  lemma {:induction false} PowerGrows(m: nat, n: nat)
    requires m <= n
    ensures Pow2(m) <= Pow2(n)
  {
    if m < n {
      PowerGrows(m, n - 1);
    }
  }

  predicate Allocatable(p: Prefix, a: Addr)
    requires IsRange(p)
  {
    p.addr + RESERVED_HOSTS < a < Broadcast(p)
  }

  lemma AllocatableIs(p: Prefix, a: Addr)
    requires IsRange(p)
    ensures Allocatable(p, a) <==> p.addr + 3 <= a <= p.addr + 2 + Capacity(p)
    ensures Allocatable(p, a) ==> Contains(p, a) && a != Network(p) && a != Broadcast(p)
  {
    RangeFits(p);
    ContainsIsRange(p, a);
  }

  /** Sound, complete and minimal: an address is handed out exactly when one is
      free, and it is the least one that is not the network address, not the
      broadcast address, not reserved and not in use. */
  lemma AllocateExact(p: Prefix, used: set<string>)
    requires IsRange(p)
    ensures var r := Allocate(Some(p), used);
      && (r.Ok? <==> exists a: Addr :: Allocatable(p, a) && !InUse(used, a))
      && (r.Err? ==> r.error == PoolExhausted)
      && (r.Ok? ==> exists a: Addr ::
            && r.value == AddrText(a) && Allocatable(p, a) && !InUse(used, a)
            && forall b: Addr :: Allocatable(p, b) && !InUse(used, b) ==> a <= b)
  {
    RangeFits(p);
    var f := FirstFree(p, used, p.addr);
    forall a: Addr
      ensures Free(p, used, a) <==> Allocatable(p, a) && !InUse(used, a)
    {
    }
    if exists a: Addr :: Allocatable(p, a) && !InUse(used, a) {
      var a: Addr :| Allocatable(p, a) && !InUse(used, a);
      assert Free(p, used, a);
    }
    if f.Some? {
      assert Allocatable(p, f.value);
      forall b: Addr | Allocatable(p, b) && !InUse(used, b)
        ensures f.value <= b
      {
        assert Free(p, used, b);
      }
    }
  }
}
