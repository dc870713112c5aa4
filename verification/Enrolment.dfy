/** What holds over every sequence of requests to the coordination server. */
module Enrolment {
  import opened Wrappers
  import opened Ordering
  import opened Netip
  import opened Ipam
  import opened Machines

  /** The two requests, and the one thing done to the table by hand: README.md
      tells an administrator to delete a row to remove a machine for good. */
  datatype Request =
    | RegisterRequest(row: Machine, now: int)
    | SyncRequest(key: string, endpoint: string, listenPort: int, now: int)
    | DeleteByHand(key: string)

  function Serve(range: Prefix, t: Table, r: Request): Table {
    match r
    case RegisterRequest(row, now) => Register(Some(range), t, row, now).0
    case SyncRequest(key, endpoint, listenPort, now) => Touch(t, key, endpoint, listenPort, now)
    case DeleteByHand(key) => t - {key}
  }

  function ServeAll(range: Prefix, t: Table, requests: seq<Request>): Table {
    if requests == [] then t
    else Serve(range, ServeAll(range, t, requests[..|requests| - 1]), requests[|requests| - 1])
  }

  // Uniqueness

  /** Addresses are unique and within the part of the range for machines. */
  ghost predicate Enrolled(range: Prefix, t: Table)
    requires IsRange(range)
  {
    Sound(t) && forall k :: k in t ==> IsMachineIP(range, t[k].vpnIP)
  }

  ghost predicate IsMachineIP(range: Prefix, ip: string)
    requires IsRange(range)
  {
    exists a: Addr :: Allocatable(range, a) && ip == AddrText(a)
  }

  /** Registering inserts only what the constraints allow. */
  lemma InsertNeverFails(range: Prefix, t: Table, row: Machine, now: int)
    requires IsRange(range)
    ensures Register(Some(range), t, row, now).1 != Err(ConstraintViolated)
  {
    AllocateExact(range, UsedIPs(t));
  }

  /** A new machine's row, when there is an address for it. */
  lemma RegisterNew(range: Prefix, t: Table, row: Machine, now: int)
    requires IsRange(range) && Enrolled(range, t) && row.publicKey !in t
    ensures var (t', r) := Register(Some(range), t, row, now);
      match Allocate(Some(range), UsedIPs(t))
      case Err(e) => t' == t && r == Err(Unallocated(PoolExhausted))
      case Ok(ip) =>
        && r.Ok? && r.value == row.(vpnIP := ip, createdAt := Unix(now), lastSeen := Unix(now))
        && ip !in UsedIPs(t) && t' == t[row.publicKey := r.value]
  {
    AllocateExact(range, UsedIPs(t));
  }

  lemma RegisterNewKeepsEnrolled(range: Prefix, t: Table, row: Machine, now: int)
    requires IsRange(range) && Enrolled(range, t) && row.publicKey !in t
    ensures Enrolled(range, Register(Some(range), t, row, now).0)
  {
    AllocateExact(range, UsedIPs(t));
    RegisterNew(range, t, row, now);
    var r := Register(Some(range), t, row, now).1;
    if r.Ok? {
      InsertKeepsSound(t, r.value);
    }
  }

  /** Registering again changes no address and takes none. */
  lemma RegisterAgain(range: Prefix, t: Table, row: Machine, now: int)
    requires IsRange(range) && Enrolled(range, t) && row.publicKey in t
    ensures var (t', r) := Register(Some(range), t, row, now);
      && Enrolled(range, t') && UsedIPs(t') == UsedIPs(t) && |t'| == |t|
      && r.Ok? && t' == t[row.publicKey := r.value]
      && r.value == row.(vpnIP := t[row.publicKey].vpnIP, createdAt := t[row.publicKey].createdAt, lastSeen := Unix(now))
  {
    var r := Register(Some(range), t, row, now).1;
    UpdateKeepsEnrolled(range, t, row.publicKey, r.value);
  }

  lemma UpdateKeepsEnrolled(range: Prefix, t: Table, k: string, row: Machine)
    requires IsRange(range) && Enrolled(range, t)
    requires k in t && row.publicKey == k && row.vpnIP == t[k].vpnIP
    ensures Enrolled(range, t[k := row]) && UsedIPs(t[k := row]) == UsedIPs(t) && |t[k := row]| == |t|
  {
    UpdateKeepsSound(t, k, row);
    SameIPsSamePlaces(range, t, t[k := row]);
  }

  lemma SameIPsSamePlaces(range: Prefix, t: Table, t': Table)
    requires IsRange(range) && t'.Keys == t.Keys && forall k :: k in t ==> t'[k].vpnIP == t[k].vpnIP
    requires forall k :: k in t ==> IsMachineIP(range, t[k].vpnIP)
    ensures forall k :: k in t' ==> IsMachineIP(range, t'[k].vpnIP)
  {
    forall k | k in t'
      ensures IsMachineIP(range, t'[k].vpnIP)
    {
      assert k in t && IsMachineIP(range, t[k].vpnIP);
    }
  }

  lemma ServeKeepsEnrolled(range: Prefix, t: Table, r: Request)
    requires IsRange(range) && Enrolled(range, t)
    ensures Enrolled(range, Serve(range, t, r))
  {
    match r
    case RegisterRequest(row, now) =>
      if row.publicKey in t {
        RegisterAgain(range, t, row, now);
      } else {
        RegisterNewKeepsEnrolled(range, t, row, now);
      }
    case SyncRequest(key, endpoint, listenPort, now) => TouchKeepsSound(t, key, endpoint, listenPort, now);
    case DeleteByHand(key) => DeleteKeepsEnrolled(range, t, key);
  }

  lemma DeleteKeepsEnrolled(range: Prefix, t: Table, key: string)
    requires IsRange(range) && Enrolled(range, t)
    ensures Enrolled(range, t - {key})
  {
    assert forall k :: k in t - {key} ==> (t - {key})[k] == t[k];
  }

  /** Over every run, no two keys share an address and every address is one
      that may be handed out, rows deleted by hand or not. */
  lemma {:induction false} AlwaysEnrolled(range: Prefix, requests: seq<Request>)
    requires IsRange(range)
    ensures Enrolled(range, ServeAll(range, map[], requests))
  {
    if requests != [] {
      AlwaysEnrolled(range, requests[..|requests| - 1]);
      ServeKeepsEnrolled(range, ServeAll(range, map[], requests[..|requests| - 1]), requests[|requests| - 1]);
    }
  }

  /** A key keeps its address and its creation time for as long as its row is
      not deleted. */
  lemma {:induction false} AddressIsStable(range: Prefix, t: Table, requests: seq<Request>, k: string)
    requires k in t && DeleteByHand(k) !in requests
    ensures var t' := ServeAll(range, t, requests);
      k in t' && t'[k].vpnIP == t[k].vpnIP && t'[k].createdAt == t[k].createdAt
  {
    if requests != [] {
      var n := |requests| - 1;
      assert requests[n] in requests;
      assert forall r :: r in requests[..n] ==> r in requests;
      AddressIsStable(range, t, requests[..n], k);
    }
  }

  // Density

  /** The n addresses in use are the first n after the reserved ones. */
  ghost predicate FirstInUse(range: Prefix, used: set<string>, n: nat)
    requires IsRange(range)
  {
    n <= Capacity(range) && forall a: Addr :: InUse(used, a) <==> range.addr + 3 <= a <= range.addr + 2 + n
  }

  /** n machines have exactly the first n addresses after the reserved ones. */
  ghost predicate Dense(range: Prefix, t: Table)
    requires IsRange(range)
  {
    Enrolled(range, t) && FirstInUse(range, UsedIPs(t), |t|)
  }

  /** With the first n addresses in use, what may still be handed out. */
  lemma DenseAllocates(range: Prefix, used: set<string>, n: nat)
    requires IsRange(range) && FirstInUse(range, used, n)
    ensures n == Capacity(range) ==> Allocate(Some(range), used) == Err(PoolExhausted)
    ensures n < Capacity(range) ==>
      range.addr + 3 + n < 0x1_0000_0000 && Allocate(Some(range), used) == Ok(AddrText(range.addr + 3 + n))
  {
    RangeFits(range);
    AllocateExact(range, used);
    forall a: Addr
      ensures Allocatable(range, a) && !InUse(used, a) <==>
        range.addr + 3 + n <= a <= range.addr + 2 + Capacity(range)
    {
      AllocatableIs(range, a);
    }
    if n < Capacity(range) {
      var least: Addr := range.addr + 3 + n;
      assert Allocatable(range, least) && !InUse(used, least);
    }
  }

  /** The next address joins those in use. */
  lemma NextIsDense(range: Prefix, used: set<string>, n: nat)
    requires IsRange(range) && FirstInUse(range, used, n) && n < Capacity(range)
    requires range.addr + 3 + n < 0x1_0000_0000
    ensures FirstInUse(range, used + {AddrText(range.addr + 3 + n)}, n + 1)
  {
    var used' := used + {AddrText(range.addr + 3 + n)};
    forall a: Addr
      ensures InUse(used', a) <==> range.addr + 3 <= a <= range.addr + 2 + (n + 1)
    {
      InUseAfter(used, a, range.addr + 3 + n);
    }
  }

  /** What a new machine gets, and when there is nothing left. */
  lemma NextAddress(range: Prefix, t: Table, row: Machine, now: int)
    requires IsRange(range) && Dense(range, t) && row.publicKey !in t
    ensures var r := Register(Some(range), t, row, now).1;
      && (r == Err(Unallocated(PoolExhausted)) <==> |t| == Capacity(range))
      && (|t| < Capacity(range) ==>
            r.Ok? && range.addr + 3 + |t| < 0x1_0000_0000 && r.value.vpnIP == AddrText(range.addr + 3 + |t|))
  {
    DenseAllocates(range, UsedIPs(t), |t|);
    RegisterNew(range, t, row, now);
  }

  lemma InsertNextIsDense(range: Prefix, t: Table, row: Machine)
    requires IsRange(range) && Sound(t) && FirstInUse(range, UsedIPs(t), |t|) && |t| < Capacity(range)
    requires row.publicKey !in t && row.vpnIP !in UsedIPs(t)
    requires range.addr + 3 + |t| < 0x1_0000_0000 && row.vpnIP == AddrText(range.addr + 3 + |t|)
    ensures FirstInUse(range, UsedIPs(t[row.publicKey := row]), |t[row.publicKey := row]|)
  {
    InsertKeepsSound(t, row);
    InsertedIPs(t, row.publicKey, row);
    NextIsDense(range, UsedIPs(t), |t|);
  }

  lemma RegisterNewKeepsDense(range: Prefix, t: Table, row: Machine, now: int)
    requires IsRange(range) && Dense(range, t) && row.publicKey !in t
    ensures Dense(range, Register(Some(range), t, row, now).0)
  {
    var r := Register(Some(range), t, row, now).1;
    RegisterNewKeepsEnrolled(range, t, row, now);
    RegisterNew(range, t, row, now);
    NextAddress(range, t, row, now);
    if |t| < Capacity(range) {
      InsertNextIsDense(range, t, r.value);
    }
  }

  lemma RegisterKeepsDense(range: Prefix, t: Table, row: Machine, now: int)
    requires IsRange(range) && Dense(range, t)
    ensures Dense(range, Register(Some(range), t, row, now).0)
  {
    if row.publicKey in t {
      RegisterAgain(range, t, row, now);
    } else {
      RegisterNewKeepsDense(range, t, row, now);
    }
  }

  lemma TouchKeepsDense(range: Prefix, t: Table, key: string, endpoint: string, listenPort: int, now: int)
    requires IsRange(range) && Dense(range, t)
    ensures Dense(range, Touch(t, key, endpoint, listenPort, now))
  {
    TouchKeepsSound(t, key, endpoint, listenPort, now);
    ServeKeepsEnrolled(range, t, SyncRequest(key, endpoint, listenPort, now));
  }

  /** From an empty table, and with no row deleted by hand, the machines always
      hold exactly the first addresses of the range. */
  lemma {:induction false} AlwaysDense(range: Prefix, requests: seq<Request>)
    requires IsRange(range) && forall r :: r in requests ==> !r.DeleteByHand?
    ensures Dense(range, ServeAll(range, map[], requests))
  {
    if requests != [] {
      var n := |requests| - 1;
      assert requests[n] in requests;
      assert forall r :: r in requests[..n] ==> r in requests;
      AlwaysDense(range, requests[..n]);
      var t := ServeAll(range, map[], requests[..n]);
      match requests[n]
      case RegisterRequest(row, now) => RegisterKeepsDense(range, t, row, now);
      case SyncRequest(key, endpoint, listenPort, now) => TouchKeepsDense(range, t, key, endpoint, listenPort, now);
    }
  }

  // Listings

  /** In every reachable table a sync lists exactly the other machines seen at
      or after the cut-off, each once, in the order of their address text and
      no two with the same address. */
  lemma {:induction false} ListingExact(range: Prefix, requests: seq<Request>, key: string, cutoff: int)
    requires IsRange(range)
    ensures var t := ServeAll(range, map[], requests);
      && Sound(t)
      && (forall m :: m in Listing(t, key, cutoff) <==>
            m.publicKey in t && m == t[m.publicKey] && m.publicKey != key && m.lastSeen >= cutoff)
      && (forall i, j :: 0 <= i < j < |Listing(t, key, cutoff)| ==>
            && LexLess(Codes(Listing(t, key, cutoff)[i].vpnIP), Codes(Listing(t, key, cutoff)[j].vpnIP))
            && Listing(t, key, cutoff)[i].vpnIP != Listing(t, key, cutoff)[j].vpnIP
            && Listing(t, key, cutoff)[i].publicKey != Listing(t, key, cutoff)[j].publicKey)
  {
    AlwaysEnrolled(range, requests);
    var t := ServeAll(range, map[], requests);
    var list := Listing(t, key, cutoff);
    SortedDistinct(list, IPRank);
    forall i, j | 0 <= i < j < |list|
      ensures list[i].vpnIP != list[j].vpnIP && list[i].publicKey != list[j].publicKey
      ensures LexLess(Codes(list[i].vpnIP), Codes(list[j].vpnIP))
    {
      assert LexLess(IPRank(list[i]), IPRank(list[j]));
      assert list[i] in Alive(t, key, cutoff) && list[j] in Alive(t, key, cutoff);
    }
  }
}
