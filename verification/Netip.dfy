/** IPv4 addresses, prefixes and address:port pairs, as net/netip handles
    them: their text, their masks and the ranges they stand for. */
module Netip {
  import opened Wrappers
  import opened Text

  type Addr = x: int | 0 <= x < 0x1_0000_0000
  type Bits = x: int | 0 <= x <= 32
  type Port = x: int | 0 <= x < 0x1_0000

  /** NoPrefix is the zero netip.Prefix, which is not valid. */
  datatype Prefix = NoPrefix | Prefix(addr: Addr, bits: Bits)

  /** NoAddrPort is the zero netip.AddrPort, which is not valid. */
  datatype AddrPort = NoAddrPort | AddrPort(addr: Addr, port: Port)

  // Ranges

  function Pow2(n: nat): (r: nat)
    ensures r >= 1
  {
    if n == 0 then 1 else 2 * Pow2(n - 1)
  }

  /** How many addresses a prefix of this length covers. */
  function RangeSize(bits: Bits): (r: nat)
    ensures r >= 1
  {
    Pow2(32 - bits)
  }

  /** a with its last n bits dropped. */
  function Shr(a: nat, n: nat): nat {
    if n == 0 then a else Shr(a / 2, n - 1)
  }

  /** a followed by n zero bits. */
  function Shl(a: nat, n: nat): nat {
    if n == 0 then a else 2 * Shl(a, n - 1)
  }

  /** The numbers that agree with q but for their last n bits are a range. */
  lemma {:induction false} ShrIsRange(a: nat, q: nat, n: nat)
    ensures Shr(a, n) == q <==> Shl(q, n) <= a < Shl(q, n) + Pow2(n)
  {
    if n > 0 {
      ShrIsRange(a / 2, q, n - 1);
    }
  }

  lemma {:induction false} ShrOfShl(q: nat, n: nat)
    ensures Shr(Shl(q, n), n) == q
  {
    ShrIsRange(Shl(q, n), q, n);
  }

  lemma {:induction false} ShlAdds(q: nat, m: nat, n: nat)
    requires m <= n
    ensures Shl(q, n) == Shl(Shl(q, n - m), m)
  {
    if m > 0 {
      ShlAdds(q, m - 1, n - 1);
    }
  }

  lemma {:induction false} ShlIsMonotone(q: nat, r: nat, n: nat)
    requires q < r
    ensures Shl(q, n) + Pow2(n) <= Shl(r, n)
  {
    if n > 0 {
      ShlIsMonotone(q, r, n - 1);
    }
  }

  /** p with the bits outside its length cleared. */
  function Masked(p: Prefix): (r: Prefix)
    ensures r.Prefix? <==> p.Prefix?
    ensures p.Prefix? ==> r.bits == p.bits && r.addr <= p.addr
  {
    match p
    case NoPrefix => NoPrefix
    case Prefix(a, b) =>
      var q := Shr(a, 32 - b);
      ShrIsRange(a, q, 32 - b);
      Prefix(Shl(q, 32 - b), b)
  }

  function Network(p: Prefix): Addr
    requires p.Prefix?
  {
    Masked(p).addr
  }

  lemma Pow2At32()
    ensures Shl(1, 32) == Pow2(32) == 0x1_0000_0000
  {
    assert Pow2(8) == 256;
    assert Pow2(16) == 65536;
    assert Pow2(24) == 0x100_0000;
    assert Shl(1, 8) == 256;
    assert Shl(1, 16) == 65536;
    assert Shl(1, 24) == 0x100_0000;
  }

  /** The last address of the range. */
  function Broadcast(p: Prefix): (r: Addr)
    requires p.Prefix?
    ensures r == Network(p) + RangeSize(p.bits) - 1
  {
    RangeFits(p);
    Network(p) + RangeSize(p.bits) - 1
  }

  /** The range of an IPv4 prefix ends within the 32-bit addresses. */
  lemma RangeFits(p: Prefix)
    requires p.Prefix?
    ensures Network(p) + RangeSize(p.bits) <= 0x1_0000_0000
    ensures Network(p) <= p.addr < Network(p) + RangeSize(p.bits)
  {
    var h := 32 - p.bits;
    var q := Shr(p.addr, h);
    ShrIsRange(p.addr, q, h);
    Pow2At32();
    ShlAdds(1, h, 32);
    var top := Shl(1, 32 - h);
    if q >= top {
      if q > top {
        ShlIsMonotone(top, q, h);
      }
    } else {
      ShlIsMonotone(q, top, h);
    }
  }

  /** netip.Prefix.Contains: a and the prefix agree on the masked bits. */
  predicate Contains(p: Prefix, a: Addr)
    requires p.Prefix?
  {
    Shr(a, 32 - p.bits) == Shr(p.addr, 32 - p.bits)
  }

  /** A prefix contains exactly the addresses of its range. */
  lemma ContainsIsRange(p: Prefix, a: Addr)
    requires p.Prefix?
    ensures Contains(p, a) <==> Network(p) <= a <= Broadcast(p)
  {
    ShrIsRange(a, Shr(p.addr, 32 - p.bits), 32 - p.bits);
  }

  lemma MaskedIdempotent(p: Prefix)
    ensures Masked(Masked(p)) == Masked(p)
  {
    if p.Prefix? {
      ShrOfShl(Shr(p.addr, 32 - p.bits), 32 - p.bits);
    }
  }

  // Text

  type Octet = x: int | 0 <= x < 256

  function Compose(w: Octet, x: Octet, y: Octet, z: Octet): Addr {
    w * 0x100_0000 + x * 0x1_0000 + y * 0x100 + z
  }

  function Octets(a: Addr): (Octet, Octet, Octet, Octet) {
    (a / 0x100_0000, a / 0x1_0000 % 256, a / 0x100 % 256, a % 256)
  }

  lemma ComposeOctets(a: Addr)
    ensures var (w, x, y, z) := Octets(a); Compose(w, x, y, z) == a
  {
    var b := a / 0x100;
    var c := b / 0x100;
    assert a / 0x1_0000 == c && a / 0x100_0000 == c / 0x100;
  }

  lemma OctetsOfCompose(w: Octet, x: Octet, y: Octet, z: Octet)
    ensures Octets(Compose(w, x, y, z)) == (w, x, y, z)
  {
    var a := Compose(w, x, y, z);
    assert a / 0x100 == w * 0x1_0000 + x * 0x100 + y;
    assert a / 0x1_0000 == w * 0x100 + x;
    assert a / 0x100_0000 == w;
  }

  function Dotted(w: Octet, x: Octet, y: Octet, z: Octet): string {
    Digits(w) + (['.'] + (Digits(x) + (['.'] + (Digits(y) + (['.'] + Digits(z))))))
  }

  function AddrText(a: Addr): string {
    var (w, x, y, z) := Octets(a);
    Dotted(w, x, y, z)
  }

  /** An octet without a leading zero, followed by c. */
  function ParseOctetUntil(s: string, c: char): Option<(Octet, string)> {
    match SplitOnce(s, c)
    case None => None
    case Some((field, rest)) =>
      match ParseCanonical(field)
      case None => None
      case Some(n) => if n <= 255 then Some((n, rest)) else None
  }

  lemma {:induction false} OctetUntil(s: string, c: char, n: Octet, rest: string)
    requires !IsDigit(c)
    ensures ParseOctetUntil(s, c) == Some((n, rest)) <==> s == Digits(n) + ([c] + rest)
  {
    DigitsAvoid(n, c);
    SplitJoined(Digits(n), c, rest);
    assert Digits(n) + [c] + rest == Digits(n) + ([c] + rest);
    CanonicalRoundTrip(Digits(n), n);
    if ParseOctetUntil(s, c) == Some((n, rest)) {
      CanonicalRoundTrip(SplitOnce(s, c).value.0, n);
    }
  }

  /** Exactly four dotted octets without leading zeros. */
  function ParseAddr(s: string): Option<Addr> {
    match ParseOctetUntil(s, '.')
    case None => None
    case Some((w, r0)) =>
      match ParseOctetUntil(r0, '.')
      case None => None
      case Some((x, r1)) =>
        match ParseOctetUntil(r1, '.')
        case None => None
        case Some((y, r2)) =>
          match ParseCanonical(r2)
          case None => None
          case Some(z) => if z <= 255 then Some(Compose(w, x, y, z)) else None
  }

  lemma DottedParses(w: Octet, x: Octet, y: Octet, z: Octet)
    ensures ParseAddr(Dotted(w, x, y, z)) == Some(Compose(w, x, y, z))
  {
    var r2 := Digits(z);
    var r1 := Digits(y) + (['.'] + r2);
    var r0 := Digits(x) + (['.'] + r1);
    OctetUntil(Dotted(w, x, y, z), '.', w, r0);
    OctetUntil(r0, '.', x, r1);
    OctetUntil(r1, '.', y, r2);
    CanonicalRoundTrip(r2, z);
  }

  lemma {:induction false} DottedJoins(w: Octet, x: Octet, y: Octet, z: Octet)
    ensures Dotted(w, x, y, z) == Digits(w) + "." + Digits(x) + "." + Digits(y) + "." + Digits(z)
  {
  }

  lemma {:induction false} TextOfOctets(a: Addr, w: Octet, x: Octet, y: Octet, z: Octet)
    requires Octets(a) == (w, x, y, z)
    ensures AddrText(a) == Digits(w) + "." + Digits(x) + "." + Digits(y) + "." + Digits(z)
  {
    DottedJoins(w, x, y, z);
  }

  /** An address is written as its four bytes, the most significant first, with
      dots between them. */
  lemma {:induction false} AddressBytes(a: Addr, w: Octet, x: Octet, y: Octet, z: Octet)
    requires a == w * 0x100_0000 + x * 0x1_0000 + y * 0x100 + z
    ensures AddrText(a) == Digits(w) + "." + Digits(x) + "." + Digits(y) + "." + Digits(z)
  {
    assert Octets(a) == (w, x, y, z) by {
      OctetsOfCompose(w, x, y, z);
    }
    TextOfOctets(a, w, x, y, z);
  }

  lemma AddrParses(a: Addr)
    ensures ParseAddr(AddrText(a)) == Some(a)
  {
    var (w, x, y, z) := Octets(a);
    ComposeOctets(a);
    DottedParses(w, x, y, z);
  }

  /** An address has one text, and every text the parser accepts is that of one
      address: membership tested on texts is membership of addresses. */
  lemma AddrRoundTrip(s: string, a: Addr)
    ensures ParseAddr(s) == Some(a) <==> s == AddrText(a)
  {
    AddrParses(a);
    if ParseAddr(s) == Some(a) {
      var (w, r0) := ParseOctetUntil(s, '.').value;
      var (x, r1) := ParseOctetUntil(r0, '.').value;
      var (y, r2) := ParseOctetUntil(r1, '.').value;
      var z := ParseCanonical(r2).value;
      OctetUntil(s, '.', w, r0);
      OctetUntil(r0, '.', x, r1);
      OctetUntil(r1, '.', y, r2);
      CanonicalRoundTrip(r2, z);
      OctetsOfCompose(w, x, y, z);
    }
  }

  lemma AddrTextInjective(a: Addr, b: Addr)
    ensures AddrText(a) == AddrText(b) <==> a == b
  {
    AddrParses(a);
    AddrParses(b);
  }

  lemma AddrTextAvoids(a: Addr, c: char)
    requires !IsDigit(c) && c != '.'
    ensures c !in AddrText(a)
  {
    var (w, x, y, z) := Octets(a);
    DigitsAvoid(w, c);
    DigitsAvoid(x, c);
    DigitsAvoid(y, c);
    DigitsAvoid(z, c);
  }

  /** The zero prefix prints as text that no parser accepts. */
  function PrefixText(p: Prefix): string {
    match p
    case NoPrefix => "invalid Prefix"
    case Prefix(a, b) => AddrText(a) + "/" + Digits(b)
  }

  function ParsePrefix(s: string): Option<Prefix> {
    match SplitOnce(s, '/')
    case None => None
    case Some((left, right)) =>
      match (ParseAddr(left), ParseCanonical(right))
      case (Some(a), Some(b)) => if b <= 32 then Some(Prefix(a, b)) else None
      case _ => None
  }

  lemma PrefixRoundTrip(s: string, p: Prefix)
    requires p.Prefix?
    ensures ParsePrefix(s) == Some(p) <==> s == PrefixText(p)
  {
    AddrTextAvoids(p.addr, '/');
    SplitJoined(AddrText(p.addr), '/', Digits(p.bits));
    AddrParses(p.addr);
    CanonicalRoundTrip(Digits(p.bits), p.bits);
    if ParsePrefix(s) == Some(p) {
      var (left, right) := SplitOnce(s, '/').value;
      AddrRoundTrip(left, p.addr);
      CanonicalRoundTrip(right, p.bits);
    }
  }

  function AddrPortText(e: AddrPort): string {
    match e
    case NoAddrPort => "invalid AddrPort"
    case AddrPort(a, port) => AddrText(a) + ":" + Digits(port)
  }

  function ParseAddrPort(s: string): Option<AddrPort> {
    match SplitOnce(s, ':')
    case None => None
    case Some((left, right)) =>
      match (ParseAddr(left), ParseUint(right))
      case (Some(a), Some(port)) => if port < 0x1_0000 then Some(AddrPort(a, port)) else None
      case _ => None
  }

  lemma AddrPortParses(e: AddrPort)
    requires e.AddrPort?
    ensures ParseAddrPort(AddrPortText(e)) == Some(e)
  {
    AddrTextAvoids(e.addr, ':');
    SplitJoined(AddrText(e.addr), ':', Digits(e.port));
    AddrParses(e.addr);
    ValueOfDigits(e.port);
  }
  /** s is e's address, a colon, and e's port in digits. */
  ghost predicate SpellsEndpoint(s: string, e: AddrPort) {
    e.AddrPort? && exists port :: IsNumber(port, e.port) && s == AddrText(e.addr) + ":" + port
  }

  /** A text is read as an endpoint exactly when it spells it. */
  lemma AddrPortExact(s: string, e: AddrPort)
    ensures ParseAddrPort(s) == Some(e) <==> SpellsEndpoint(s, e)
  {
    if SpellsEndpoint(s, e) {
      var port :| IsNumber(port, e.port) && s == AddrText(e.addr) + ":" + port;
      AddrTextAvoids(e.addr, ':');
      SplitJoined(AddrText(e.addr), ':', port);
      AddrParses(e.addr);
    }
    if ParseAddrPort(s) == Some(e) {
      var (left, right) := SplitOnce(s, ':').value;
      AddrRoundTrip(left, e.addr);
      assert IsNumber(right, e.port) && s == AddrText(e.addr) + ":" + right;
    }
  }

  lemma AddrTextEnds(a: Addr)
    ensures var s := AddrText(a); s != [] && IsDigit(s[0]) && IsDigit(s[|s| - 1])
  {
    var (w, x, y, z) := Octets(a);
    var s := AddrText(a);
    assert s[0] == Digits(w)[0] && s[|s| - 1] == Digits(z)[|Digits(z)| - 1];
  }

  /** There is no white space around the text of an address or an endpoint. */
  lemma AddressTextsAreTrimmed(a: Addr, e: AddrPort)
    ensures TrimSpace(AddrText(a)) == AddrText(a)
    ensures e.AddrPort? ==> AddrPortText(e) != [] && TrimSpace(AddrPortText(e)) == AddrPortText(e)
  {
    AddrTextEnds(a);
    if e.AddrPort? {
      AddrTextEnds(e.addr);
      var s := AddrPortText(e);
      assert s[0] == AddrText(e.addr)[0] && s[|s| - 1] == Digits(e.port)[|Digits(e.port)| - 1];
    }
  }
}
