/** From the coordination server's table to the device: unique addresses on the
    server are what lets every machine's tunnel be brought up to date. */
module EndToEnd {
  import opened Wrappers
  import opened Sequences
  import opened Text
  import opened Keys
  import opened Netip
  import opened Machines
  import Enrolment
  import opened PeerBook
  import opened Meshd
  import PeerMemory
  import opened ConfigFile
  import opened Device
  import opened History
  import opened Pass
  import opened PassRuns
  import Ipam
  import MeshdRuns
  import SavedFile
  import Wg = WgState

  /** A row of the table as the server sends it. */
  function ToProtocol(m: Machine): ServerPeer {
    ServerPeer(m.publicKey, m.name, m.vpnIP, m.endpoint)
  }

  function ToProtocolList(rows: seq<Machine>): (r: seq<ServerPeer>)
    ensures forall q :: q in r ==> exists m :: m in rows && q == ToProtocol(m)
    ensures forall m :: m in rows ==> ToProtocol(m) in r
  {
    if rows == [] then []
    else
      FrontAndLast(rows);
      ToProtocolList(rows[..|rows| - 1]) + [ToProtocol(rows[|rows| - 1])]
  }

  /** An address text is read as the address it was written for. */
  lemma AddressIsRead(a: Addr)
    ensures ParseAddr(TrimSpace(AddrText(a))) == Some(a)
  {
    AddrParses(a);
    AddressTextsAreTrimmed(a, NoAddrPort);
  }

  /** An endpoint text means the endpoint it was written for. */
  lemma EndpointIsRead(e: AddrPort, f: AddrPort)
    requires e.AddrPort? && MeansEndpoint(AddrPortText(e), f)
    ensures f == e
  {
    AddressTextsAreTrimmed(e.addr, e);
    TrimmedEndpoint(AddrPortText(e), f);
    AddrPortParses(e);
  }

  ghost predicate PairwiseDisjoint(m: PeerMap) {
    forall k, l :: k in m && l in m && k != l ==> ClaimsOf(m[k]) !! ClaimsOf(m[l])
  }

  ghost predicate DisjointFrom(m: PeerMap, n: PeerMap) {
    forall k, l :: k in m && l in n ==> ClaimsOf(m[k]) !! ClaimsOf(n[l])
  }

  /** The list that a sync of `caller` gets from a table. */
  ghost function SyncList(t: Table, caller: string, cutoff: int): seq<ServerPeer>
    requires Sound(t)
  {
    ToProtocolList(Listing(t, caller, cutoff))
  }

  /** An entry of the book that says what a row of the table says. */
  ghost predicate FromRow(t: Table, parseKey: string -> Option<Key>, p: Peer, row: string) {
    && row in t
    && parseKey(row) == Some(p.publicKey) && p.name == t[row].name
    && (exists a: Addr :: IsTrimmed(t[row].vpnIP, AddrText(a)) && p.allowedIPs == [Prefix(a, 32)])
    && MeansEndpoint(t[row].endpoint, p.endpoint)
  }

  /** A live row of another machine that the daemon can read as a peer with
      this key. */
  ghost predicate RowFor(t: Table, caller: string, cutoff: int, parseKey: string -> Option<Key>, k: Key, m: Machine) {
    && m.publicKey in t && m == t[m.publicKey] && m.publicKey != caller && m.lastSeen >= cutoff
    && PeerFromServer(parseKey, ToProtocol(m)).Some?
    && PeerFromServer(parseKey, ToProtocol(m)).value.publicKey == k
  }

  lemma EntryHasRow(t: Table, caller: string, cutoff: int, parseKey: string -> Option<Key>, b: BookState, k: Key)
    returns (m: Machine)
    requires Sound(t)
    requires k in Wanted(b, ServerPeers(parseKey, SyncList(t, caller, cutoff)))
    ensures FromRow(t, parseKey, Wanted(b, ServerPeers(parseKey, SyncList(t, caller, cutoff)))[k], m.publicKey)
    ensures RowFor(t, caller, cutoff, parseKey, k, m)
  {
    var list := SyncList(t, caller, cutoff);
    var entries := ServerPeers(parseKey, list);
    var p :| p in entries && Wanted(b, entries)[k] == p.(source := PeerBook.Synced);
    var q :| q in list && PeerFromServer(parseKey, q) == Some(p);
    m :| m in Listing(t, caller, cutoff) && q == ToProtocol(m);
    assert m in Alive(t, caller, cutoff);
    PeerFromServerExact(parseKey, q, p);
  }

  /** The one prefix an entry claims is its row's address. */
  lemma RowAddress(range: Prefix, t: Table, parseKey: string -> Option<Key>, p: Peer, row: string) returns (a: Addr)
    requires Ipam.IsRange(range) && Enrolment.Enrolled(range, t) && FromRow(t, parseKey, p, row)
    ensures t[row].vpnIP == AddrText(a) && ClaimsOf(p) == {Prefix(a, 32)}
  {
    a :| Ipam.Allocatable(range, a) && t[row].vpnIP == AddrText(a);
    var b: Addr :| IsTrimmed(t[row].vpnIP, AddrText(b)) && p.allowedIPs == [Prefix(b, 32)];
    TrimmedAddress(t[row].vpnIP, b);
    AddressIsRead(a);
    SingleClaim(p, a);
  }

  lemma SingleClaim(p: Peer, a: Addr)
    requires p.allowedIPs == [Prefix(a, 32)]
    ensures ClaimsOf(p) == {Prefix(a, 32)}
  {
    HostMasksToItself(a);
    assert Prefix(a, 32) in p.allowedIPs;
  }

  /** Rows with different keys have different addresses. */
  lemma RowsDisjoint(range: Prefix, t: Table, parseKey: string -> Option<Key>, p: Peer, q: Peer, rowP: string, rowQ: string)
    requires Ipam.IsRange(range) && Enrolment.Enrolled(range, t)
    requires FromRow(t, parseKey, p, rowP) && FromRow(t, parseKey, q, rowQ)
    requires p.publicKey != q.publicKey
    ensures ClaimsOf(p) !! ClaimsOf(q)
  {
    var a := RowAddress(range, t, parseKey, p, rowP);
    var b := RowAddress(range, t, parseKey, q, rowQ);
    assert rowP != rowQ;
  }

  lemma HostMasksToItself(a: Addr)
    ensures Masked(Prefix(a, 32)) == Prefix(a, 32)
  {
  }

  /** In every reachable table, whatever the caller and the cut-off, no two of
      the synced peers with different keys claim the same prefix. */
  lemma {:induction false} SyncedPeersDisjoint(range: Prefix, requests: seq<Enrolment.Request>, caller: string, cutoff: int,
                            parseKey: string -> Option<Key>, b: BookState)
    requires Ipam.IsRange(range)
    ensures var t := Enrolment.ServeAll(range, map[], requests);
      Sound(t) && PairwiseDisjoint(WithServerList(b, ServerPeers(parseKey, SyncList(t, caller, cutoff))).syncedPeers)
  {
    var t := Enrolment.ServeAll(range, map[], requests);
    Enrolment.AlwaysEnrolled(range, requests);
    var m := Wanted(b, ServerPeers(parseKey, SyncList(t, caller, cutoff)));
    forall k, l | k in m && l in m && k != l
      ensures ClaimsOf(m[k]) !! ClaimsOf(m[l])
    {
      var rowK := EntryHasRow(t, caller, cutoff, parseKey, b, k);
      var rowL := EntryHasRow(t, caller, cutoff, parseKey, b, l);
      RowsDisjoint(range, t, parseKey, m[k], m[l], rowK.publicKey, rowL.publicKey);
    }
  }

  /** Disjoint static peers, disjoint from the synced ones, give a target that
      can be reached. */
  lemma TargetDisjoint(d: Core, pub: Key, addr: Prefix)
    requires BookOk(d.book)
    requires PairwiseDisjoint(d.book.staticPeers) && PairwiseDisjoint(d.book.syncedPeers)
    requires DisjointFrom(d.book.staticPeers, d.book.syncedPeers)
    ensures Wg.Disjoint(Target(d, pub, addr).peers)
  {
    var all := d.book.staticPeers + d.book.syncedPeers;
    var peers := Target(d, pub, addr).peers;
    assert PairwiseDisjoint(all);
    TargetKeys(d, pub, addr);
    forall i, j | 0 <= i < j < |peers|
      ensures Wg.Claims(peers[i]) !! Wg.Claims(peers[j])
    {
      var p := Origin(all, pub, d.cfg.keepalive, peers[i]);
      var q := Origin(all, pub, d.cfg.keepalive, peers[j]);
    }
  }

  /** The book's entry for a peer of the target. */
  lemma Origin(all: PeerMap, pub: Key, keepalive: int, q: Wg.Peer) returns (p: Peer)
    requires OwnKeys(all) && q in TunnelPeerList(SortedPeers(all), pub, keepalive)
    ensures p.publicKey in all && all[p.publicKey] == p
    ensures q.publicKey == p.publicKey && Wg.Claims(q) == ClaimsOf(p)
  {
    var list := SortedPeers(all);
    TunnelPeerListExact(list, pub, keepalive);
    p :| p in list && q == TunnelPeer(p, keepalive);
    assert p in all.Values;
    assert TunnelPeer(p, keepalive).allowedIPs == p.allowedIPs;
    assert forall a :: a in Wg.Claims(q) <==> a in ClaimsOf(p);
  }

  /** The peers of a daemon that has taken a reply from a reachable table. */
  lemma {:induction false} SyncedTargetDisjoint(range: Prefix, requests: seq<Enrolment.Request>, caller: string, cutoff: int, w: MeshdRuns.World,
                             d: Core, selfIP: string, interval: int, pub: Key, addr: Prefix)
    requires Ipam.IsRange(range) && BookOk(d.book)
    requires var t := Enrolment.ServeAll(range, map[], requests);
      Sound(t) ==> Separated(TakeReply(d, w.parseKey, Answered(selfIP, SyncList(t, caller, cutoff), interval)).book)
    ensures var t := Enrolment.ServeAll(range, map[], requests);
      && Sound(t)
      && var e := TakeReply(d, w.parseKey, Answered(selfIP, SyncList(t, caller, cutoff), interval));
         BookOk(e.book) && Wg.Disjoint(Target(e, pub, addr).peers)
  {
    var t := Enrolment.ServeAll(range, map[], requests);
    Enrolment.AlwaysEnrolled(range, requests);
    var reply := Answered(selfIP, SyncList(t, caller, cutoff), interval);
    var e := TakeReply(d, w.parseKey, reply);
    TakeReplyBook(d, w.parseKey, reply);
    WithServerListOk(d.book, ServerPeers(w.parseKey, reply.peers));
    SyncedPeersDisjoint(range, requests, caller, cutoff, w.parseKey, d.book);
    TargetDisjoint(e, pub, addr);
  }

  /** The static peers' prefixes are apart from each other and from the synced
      peers': what is left to the person who writes the file. */
  ghost predicate Separated(b: BookState) {
    PairwiseDisjoint(b.staticPeers) && DisjointFrom(b.staticPeers, b.syncedPeers)
  }

  /** For every history of the server: after a sync the synced peers are exactly
      the other live machines that are neither pinned nor blocked, entries that
      cannot be read aside, and each says what its row says. */
  lemma {:induction false} SyncedKeysExact(range: Prefix, requests: seq<Enrolment.Request>, caller: string, cutoff: int,
                        parseKey: string -> Option<Key>, b: BookState, k: Key)
    requires Ipam.IsRange(range) && BookOk(b)
    ensures var t := Enrolment.ServeAll(range, map[], requests);
      && Sound(t)
      && (k in WithServerList(b, ServerPeers(parseKey, SyncList(t, caller, cutoff))).syncedPeers <==>
            !ManualKey(b, k) && exists m :: RowFor(t, caller, cutoff, parseKey, k, m))
      && (k in WithServerList(b, ServerPeers(parseKey, SyncList(t, caller, cutoff))).syncedPeers ==>
            exists m :: RowFor(t, caller, cutoff, parseKey, k, m) && FromRow(t, parseKey,
              WithServerList(b, ServerPeers(parseKey, SyncList(t, caller, cutoff))).syncedPeers[k], m.publicKey))
  {
    Enrolment.AlwaysEnrolled(range, requests);
    var t := Enrolment.ServeAll(range, map[], requests);
    SyncedKeysOf(t, caller, cutoff, parseKey, b, k);
    if k in WithServerList(b, ServerPeers(parseKey, SyncList(t, caller, cutoff))).syncedPeers {
      var m := EntryHasRow(t, caller, cutoff, parseKey, b, k);
    }
  }

  lemma SyncedKeysOf(t: Table, caller: string, cutoff: int, parseKey: string -> Option<Key>, b: BookState, k: Key)
    requires Sound(t) && BookOk(b)
    ensures k in WithServerList(b, ServerPeers(parseKey, SyncList(t, caller, cutoff))).syncedPeers <==>
      !ManualKey(b, k) && exists m :: RowFor(t, caller, cutoff, parseKey, k, m)
  {
    var list := SyncList(t, caller, cutoff);
    var entries := ServerPeers(parseKey, list);
    ServerListExact(b, entries, k);
    if k in Wanted(b, entries) {
      var m := EntryHasRow(t, caller, cutoff, parseKey, b, k);
    }
    forall m | RowFor(t, caller, cutoff, parseKey, k, m)
      ensures Lists(entries, k)
    {
      RowIsListed(t, caller, cutoff, parseKey, k, m);
    }
  }

  lemma RowIsListed(t: Table, caller: string, cutoff: int, parseKey: string -> Option<Key>, k: Key, m: Machine)
    requires Sound(t) && RowFor(t, caller, cutoff, parseKey, k, m)
    ensures Lists(ServerPeers(parseKey, SyncList(t, caller, cutoff)), k)
  {
    assert m in Alive(t, caller, cutoff) && m in Listing(t, caller, cutoff);
    assert ToProtocol(m) in SyncList(t, caller, cutoff);
    assert PeerFromServer(parseKey, ToProtocol(m)).value in ServerPeers(parseKey, SyncList(t, caller, cutoff));
  }

  /** The server lists k, and the book b does not block it. */
  ghost predicate ListedByServer(t: Table, caller: string, cutoff: int, parseKey: string -> Option<Key>, b: BookState, k: Key) {
    k !in b.blockedPeers && exists m :: RowFor(t, caller, cutoff, parseKey, k, m)
  }

  /** A peer on the device is what a row that was listed for its key says. */
  ghost predicate RoutesRow(t: Table, caller: string, cutoff: int, parseKey: string -> Option<Key>, dev: Device, k: Key) {
    exists m, a: Addr :: RowFor(t, caller, cutoff, parseKey, k, m) && RoutedAs(dev, k, m, a)
  }

  /** The device has peer k at m's endpoint, and routes just m's address a to it. */
  ghost predicate RoutedAs(dev: Device, k: Key, m: Machine, a: Addr) {
    && k in dev.peers
    && m.vpnIP == AddrText(a) && Owned(dev, k) == {Prefix(a, 32)}
    && forall e: AddrPort :: e.AddrPort? && m.endpoint == AddrPortText(e) ==> dev.peers[k].endpoint == e
  }

  /** All together: a daemon that takes a reply of a server with any history and
      then updates its tunnel successfully has a device with exactly the static
      peers and the live machines of the server's table, itself and the pinned
      and blocked ones aside, beside the peers of other tools; and each of those
      machines is routed its own address in the table. */
  lemma {:induction false} ServerToDevice(range: Prefix, requests: seq<Enrolment.Request>, caller: string, cutoff: int, w: MeshdRuns.World,
                       curve: Key -> Key, d: Core, pub: Key, selfIP: string, interval: int, l: Link, c: Circumstances,
                       g: Books, k: Key)
    requires Ipam.IsRange(range) && BookOk(d.book) && curve(d.cfg.privateKey) == pub
    requires LinkConsistent(curve, l, g) && Undamaged(g)
    requires var t := Enrolment.ServeAll(range, map[], requests);
      Sound(t) ==>
        var e := TakeReply(d, w.parseKey, Answered(selfIP, SyncList(t, caller, cutoff), interval));
        && Separated(e.book) && PossibleFor(e, pub, l, c) && Ready(curve, e, pub, l, g)
        && UpdateTunnel(curve, e, pub, l, c).1 == UpToDate
    ensures var t := Enrolment.ServeAll(range, map[], requests);
      && Sound(t)
      && var e := TakeReply(d, w.parseKey, Answered(selfIP, SyncList(t, caller, cutoff), interval));
         var m, h := UpdateTunnel(curve, e, pub, l, c).0, UpdateBooks(curve, e, pub, l, c, g);
         && m.tunnel.Some? && h.Some? && DeviceMatches(e, pub, m.tunnel.value.dev, h.value)
         && h.value.damaged == {} && h.value.owed.None?
         && (k in m.tunnel.value.dev.peers.Keys - h.value.others <==>
               k != pub && (k in d.book.staticPeers || ListedByServer(t, caller, cutoff, w.parseKey, d.book, k)))
         && (k in e.book.syncedPeers && k != pub ==> RoutesRow(t, caller, cutoff, w.parseKey, m.tunnel.value.dev, k))
  {
    var t := Enrolment.ServeAll(range, map[], requests);
    Enrolment.AlwaysEnrolled(range, requests);
    var e := TakeReply(d, w.parseKey, Answered(selfIP, SyncList(t, caller, cutoff), interval));
    TakeReplyBook(d, w.parseKey, Answered(selfIP, SyncList(t, caller, cutoff), interval));
    SyncedTargetDisjoint(range, requests, caller, cutoff, w, d, selfIP, interval, pub, e.cfg.address);
    UpdateMakesWhole(curve, e, pub, l, c, g);
    var m, h := UpdateTunnel(curve, e, pub, l, c).0, UpdateBooks(curve, e, pub, l, c, g);
    ListedAreManaged(t, caller, cutoff, w.parseKey, d.book, e, pub, k);
    if k in e.book.syncedPeers && k != pub {
      SyncedIsRouted(range, t, caller, cutoff, w.parseKey, d.book, e, pub, m.tunnel.value.dev, h.value, k);
    }
  }

  lemma ListedAreManaged(t: Table, caller: string, cutoff: int, parseKey: string -> Option<Key>, b: BookState, e: Core, pub: Key, k: Key)
    requires Sound(t) && BookOk(b) && e.book == WithServerList(b, ServerPeers(parseKey, SyncList(t, caller, cutoff)))
    ensures k in ManagedKeys(e.book, pub) <==>
      k != pub && (k in b.staticPeers || ListedByServer(t, caller, cutoff, parseKey, b, k))
  {
    SyncedKeysOf(t, caller, cutoff, parseKey, b, k);
  }

  /** A successful update for a target without overlaps. */
  lemma UpdateMakesWhole(curve: Key -> Key, e: Core, pub: Key, l: Link, c: Circumstances, g: Books)
    requires BookOk(e.book) && curve(e.cfg.privateKey) == pub && Wg.Disjoint(Target(e, pub, e.cfg.address).peers)
    requires LinkConsistent(curve, l, g) && Undamaged(g) && PossibleFor(e, pub, l, c) && Ready(curve, e, pub, l, g)
    requires UpdateTunnel(curve, e, pub, l, c).1 == UpToDate
    ensures var m, h := UpdateTunnel(curve, e, pub, l, c).0, UpdateBooks(curve, e, pub, l, c, g);
      && m.tunnel.Some? && h.Some? && DeviceMatches(e, pub, m.tunnel.value.dev, h.value)
      && h.value.damaged == {} && h.value.owed.None?
      && m.tunnel.value.dev.peers.Keys - h.value.others == ManagedKeys(e.book, pub)
  {
    UpdateConverges(curve, e, pub, l, c, g);
    UpdateDoesNoDamage(curve, e, pub, l, c, g);
    var m, h := UpdateTunnel(curve, e, pub, l, c).0, UpdateBooks(curve, e, pub, l, c, g);
    assert h.Some? && LinkMatches(e, pub, m, h);
    OwnPeers(e, pub, m.tunnel.value.dev, h.value);
  }

  lemma OwnPeers(e: Core, pub: Key, dev: Device, h: Ledger)
    requires DeviceMatches(e, pub, dev, h)
    ensures dev.peers.Keys - h.others == ManagedKeys(e.book, pub)
  {
  }

  lemma SyncedIsRouted(range: Prefix, t: Table, caller: string, cutoff: int, parseKey: string -> Option<Key>,
                       b: BookState, e: Core, pub: Key, dev: Device, h: Ledger, k: Key)
    requires Ipam.IsRange(range) && Enrolment.Enrolled(range, t)
    requires e.book == WithServerList(b, ServerPeers(parseKey, SyncList(t, caller, cutoff)))
    requires BookOk(e.book) && DeviceMatches(e, pub, dev, h) && h.damaged == {}
    requires k in e.book.syncedPeers && k != pub
    ensures RoutesRow(t, caller, cutoff, parseKey, dev, k)
  {
    var m := EntryHasRow(t, caller, cutoff, parseKey, b, k);
    var a := RowAddress(range, t, parseKey, e.book.syncedPeers[k], m.publicKey);
    assert k in Wanted(b, ServerPeers(parseKey, SyncList(t, caller, cutoff)));
    SyncedIsHad(e, pub, dev, h, k);
    HadIsRouted(t, parseKey, dev, e.book.syncedPeers[k], e.cfg.keepalive, m, a);
  }

  lemma SyncedIsHad(e: Core, pub: Key, dev: Device, h: Ledger, k: Key)
    requires BookOk(e.book) && DeviceMatches(e, pub, dev, h) && h.damaged == {}
    requires k in e.book.syncedPeers && k != pub
    ensures HasPeer(dev, e.book.syncedPeers[k], e.cfg.keepalive, {}) && e.book.syncedPeers[k].publicKey == k
  {
  }

  lemma HadIsRouted(t: Table, parseKey: string -> Option<Key>, dev: Device, p: Peer, keepalive: int, m: Machine, a: Addr)
    requires HasPeer(dev, p, keepalive, {}) && FromRow(t, parseKey, p, m.publicKey) && m == t[m.publicKey]
    requires m.vpnIP == AddrText(a) && ClaimsOf(p) == {Prefix(a, 32)}
    ensures RoutedAs(dev, p.publicKey, m, a)
  {
    forall f: AddrPort | f.AddrPort? && m.endpoint == AddrPortText(f)
      ensures dev.peers[p.publicKey].endpoint == f
    {
      EndpointIsRead(f, p.endpoint);
    }
  }

  // Lives with an honest server

  /** The list is what some sync with a server of some history returns. */
  ghost predicate FromHonest(range: Prefix, list: seq<ServerPeer>) {
    exists requests, caller, cutoff :: IsListOf(range, list, requests, caller, cutoff)
  }

  ghost predicate IsListOf(range: Prefix, list: seq<ServerPeer>, requests: seq<Enrolment.Request>, caller: string, cutoff: int) {
    var t := Enrolment.ServeAll(range, map[], requests);
    Sound(t) && list == SyncList(t, caller, cutoff)
  }

  ghost predicate Honest(range: Prefix, x: Conditions) {
    FinalAnswer(x.replies).Answered? ==> FromHonest(range, FinalAnswer(x.replies).peers)
  }

  lemma SubsetDisjoint(m: PeerMap, n: PeerMap)
    requires PairwiseDisjoint(m) && forall k :: k in n ==> k in m && n[k] == m[k]
    ensures PairwiseDisjoint(n)
  {
  }

  /** Taking up an edit takes no synced peer in. */
  lemma EditKeepsDisjoint(d: Core, c: FileConfig)
    requires PairwiseDisjoint(d.book.syncedPeers)
    ensures PairwiseDisjoint(UseEdits(d, c).book.syncedPeers)
  {
    SubsetDisjoint(d.book.syncedPeers, UseEdits(d, c).book.syncedPeers);
  }

  lemma CheckKeepsDisjoint(d: Core, data: Option<FileData>, host: Option<string>)
    requires PairwiseDisjoint(d.book.syncedPeers)
    ensures PairwiseDisjoint(CheckConfig(d, data, host).book.syncedPeers)
  {
    if data.Some? && Parse(data.value, host).Ok? {
      EditKeepsDisjoint(d.(lastRead := data), Parse(data.value, host).value);
    }
  }

  lemma SaveFileKeepsDisjoint(d: Core, data: Option<FileData>, host: Option<string>, writable: bool)
    requires PairwiseDisjoint(d.book.syncedPeers)
    ensures PairwiseDisjoint(SaveFile(d, data, host, writable).0.book.syncedPeers)
  {
    if data.Some? && Parse(data.value, host).Ok? {
      EditKeepsDisjoint(d, Parse(data.value, host).value);
    }
  }

  lemma SaveKeepsDisjoint(d: Core, data: Option<FileData>, host: Option<string>, writable: bool)
    requires PairwiseDisjoint(d.book.syncedPeers)
    ensures PairwiseDisjoint(SaveIfNeeded(d, data, host, writable).0.book.syncedPeers)
  {
    SaveFileKeepsDisjoint(d, data, host, writable);
  }

  lemma AfterSyncBook(w: MeshdRuns.World, d: Core, x: Conditions)
    ensures var (e, synced) := AfterSync(w, d, x);
      && (!synced ==> e.book == d.book)
      && (synced ==>
            && FinalAnswer(x.replies).Answered?
            && e.book == WithServerList(d.book, ServerPeers(w.parseKey, FinalAnswer(x.replies).peers)))
  {
    SyncTakesAnswer(d, w.parseKey, x.replies);
  }

  lemma SyncKeepsDisjoint(range: Prefix, w: MeshdRuns.World, d: Core, x: Conditions)
    requires Ipam.IsRange(range) && PairwiseDisjoint(d.book.syncedPeers) && Honest(range, x)
    ensures PairwiseDisjoint(AfterSync(w, d, x).0.book.syncedPeers)
  {
    AfterSyncBook(w, d, x);
    if AfterSync(w, d, x).1 {
      HonestListDisjoint(range, w, d.book, FinalAnswer(x.replies).peers);
    }
  }

  lemma {:induction false} HonestListDisjoint(range: Prefix, w: MeshdRuns.World, b: BookState, list: seq<ServerPeer>)
    requires Ipam.IsRange(range) && FromHonest(range, list)
    ensures PairwiseDisjoint(WithServerList(b, ServerPeers(w.parseKey, list)).syncedPeers)
  {
    var requests, caller, cutoff :| IsListOf(range, list, requests, caller, cutoff);
    SyncedPeersDisjoint(range, requests, caller, cutoff, w.parseKey, b);
  }

  /** At each update of the pass the static peers' prefixes are apart from each
      other's and from the synced peers'. */
  ghost predicate SeparatedPass(w: MeshdRuns.World, d: Core, x: Conditions) {
    var d1 := CheckConfig(d, x.atCheck, w.host);
    Separated(d1.book) && Separated(AfterSync(w, d1, x).0.book)
  }

  lemma UpdateIsHarmless(curve: Key -> Key, d: Core, pub: Key, l: Link, c: Circumstances, g: Books)
    requires BookOk(d.book) && Separated(d.book) && PairwiseDisjoint(d.book.syncedPeers) && Undamaged(g)
    ensures Undamaged(UpdateBooks(curve, d, pub, l, c, g))
  {
    TargetDisjoint(d, pub, d.cfg.address);
    UpdateDoesNoDamage(curve, d, pub, l, c, g);
  }

  /** With an honest server, and static peers that are apart, a pass damages
      nothing, and the synced peers stay apart. */
  lemma HonestPass(curve: Key -> Key, range: Prefix, w: MeshdRuns.World, d: Core, pub: Key, l: Link, x: Conditions, g: Books)
    requires Ipam.IsRange(range) && BookOk(d.book) && PairwiseDisjoint(d.book.syncedPeers) && Undamaged(g)
    requires Honest(range, x) && SeparatedPass(w, d, x)
    ensures Undamaged(PassBooks(curve, w, d, pub, l, x, g))
    ensures PairwiseDisjoint(BringUpToDate(curve, w, d, pub, l, x).core.book.syncedPeers)
  {
    var d1 := CheckConfig(d, x.atCheck, w.host);
    var l0, g0 := DropDead(l, x.died), DropDeadBooks(g, x.died);
    CheckKeepsDisjoint(d, x.atCheck, w.host);
    CheckKeepsBook(d, x.atCheck, w);
    UpdateIsHarmless(curve, d1, pub, l0, x.first, g0);
    var (l1, o1) := UpdateTunnel(curve, d1, pub, l0, x.first);
    HonestRest(curve, range, w, d1, pub, l1, x, o1, UpdateBooks(curve, d1, pub, l0, x.first, g0));
  }

  lemma HonestRest(curve: Key -> Key, range: Prefix, w: MeshdRuns.World, d1: Core, pub: Key, l1: Link, x: Conditions,
                   o1: Outcome, g1: Books)
    requires Ipam.IsRange(range) && BookOk(d1.book) && PairwiseDisjoint(d1.book.syncedPeers) && Undamaged(g1)
    requires Honest(range, x) && Separated(AfterSync(w, d1, x).0.book)
    ensures Undamaged(RestBooks(curve, w, d1, pub, l1, x, o1, g1))
    ensures PairwiseDisjoint(Rest(curve, w, d1, pub, l1, x, o1).core.book.syncedPeers)
  {
    AfterSyncFacts(w, d1, x);
    SyncKeepsDisjoint(range, w, d1, x);
    var d2 := AfterSync(w, d1, x).0;
    UpdateIsHarmless(curve, d2, pub, l1, x.second, g1);
    RestKeepsDisjoint(curve, w, d1, pub, l1, x, o1);
  }

  lemma RestKeepsDisjoint(curve: Key -> Key, w: MeshdRuns.World, d1: Core, pub: Key, l1: Link, x: Conditions, o1: Outcome)
    requires PairwiseDisjoint(d1.book.syncedPeers) && PairwiseDisjoint(AfterSync(w, d1, x).0.book.syncedPeers)
    ensures PairwiseDisjoint(Rest(curve, w, d1, pub, l1, x, o1).core.book.syncedPeers)
  {
    SaveKeepsDisjoint(AfterSync(w, d1, x).0, x.atSave, w.host, x.writable);
  }

  /** In each turn the server is honest and the static peers are apart. */
  ghost predicate HonestTurns(range: Prefix, curve: Key -> Key, w: MeshdRuns.World, s: MeshdRuns.State, pub: Key, turns: seq<Turn>) {
    turns == [] ||
    (var front, x := turns[..|turns| - 1], turns[|turns| - 1].x;
     && HonestTurns(range, curve, w, s, pub, front)
     && Honest(range, x)
     && SeparatedPass(w, Life(curve, w, s, pub, front).last.core, x))
  }

  lemma HonestTurn(range: Prefix, curve: Key -> Key, w: MeshdRuns.World, m: Moment, pub: Key, turn: Turn)
    requires Ipam.IsRange(range) && m.state.core == m.last.core && BookOk(m.last.core.book)
    requires PairwiseDisjoint(m.last.core.book.syncedPeers) && Undamaged(m.books)
    requires Honest(range, turn.x) && SeparatedPass(w, m.last.core, turn.x)
    ensures var n := NextMoment(curve, w, m, pub, turn);
      Undamaged(n.books) && PairwiseDisjoint(n.last.core.book.syncedPeers)
  {
    var l, g := MeddledLink(m.last.link, turn.meddled), MeddledBooks(curve, m.last.link, turn.meddled, m.books);
    HonestPass(curve, range, w, m.last.core, pub, l, turn.x, g);
  }

  // Lives joined by restarts

  /** The synced entries of a file claim different prefixes. */
  ghost predicate FileApart(c: FileConfig) {
    PairwiseDisjoint(ByKey(Only(c.peers, PeerBook.Synced)))
  }

  lemma OpeningKeepsDisjoint(w: MeshdRuns.World, data: FileData, c: FileConfig, o: Opening)
    requires Parse(data, w.host) == Ok(c) && Opens(w, c, o) && FileApart(c)
    ensures PairwiseDisjoint(OpenedState(w, data, c, o).core.book.syncedPeers)
  {
    OpeningIsStart(w, data, c, o);
    SubsetDisjoint(ByKey(Only(c.peers, PeerBook.Synced)), Started(c).book.syncedPeers);
    var d := CheckConfig(Started(c), o.atCheck, w.host);
    CheckKeepsDisjoint(Started(c), o.atCheck, w.host);
    MakeKeyKeepsDisjoint(d, o.key, o.atSave, w.host, o.writable);
  }

  lemma MakeKeyKeepsDisjoint(d: Core, key: Key, data: Option<FileData>, host: Option<string>, writable: bool)
    requires PairwiseDisjoint(d.book.syncedPeers)
    ensures PairwiseDisjoint(MakeKey(d, key, data, host, writable).0.book.syncedPeers)
  {
    SaveFileKeepsDisjoint(d.(cfg := d.cfg.(privateKey := key), newKey := true), data, host, writable);
  }

  /** A whole life of a daemon with an honest server and static peers that are
      apart: nothing is ever damaged. So, by its books, after each pass whose last
      update succeeded and whose save met no unseen edit the device has exactly
      what the file and the server ask for, every prefix included, and the peers
      of other tools. */
  lemma {:induction false} HonestLife(range: Prefix, curve: Key -> Key, w: MeshdRuns.World, data: FileData, c: FileConfig,
                                      o: Opening, pub: Key, turns: seq<Turn>)
    requires Ipam.IsRange(range) && Parse(data, w.host) == Ok(c) && Opens(w, c, o) && FileApart(c)
    requires var s := OpenedState(w, data, c, o);
      && pub == curve(s.core.cfg.privateKey)
      && PossibleLife(curve, w, s, pub, turns) && HonestTurns(range, curve, w, s, pub, turns)
    ensures var s := OpenedState(w, data, c, o);
      var n := Life(curve, w, s, pub, turns);
      && Undamaged(n.books) && PairwiseDisjoint(n.last.core.book.syncedPeers)
      && (turns != [] && NeverOverReverted(curve, w, s, pub, turns) ==>
            FollowsFile(w, Life(curve, w, s, pub, turns[..|turns| - 1]), n, pub, turns[|turns| - 1].x))
  {
    LifeInOrder(curve, w, data, c, o, pub, turns);
    var s := OpenedState(w, data, c, o);
    if turns == [] {
      OpeningKeepsDisjoint(w, data, c, o);
    } else {
      var front, turn := turns[..|turns| - 1], turns[|turns| - 1];
      HonestLife(range, curve, w, data, c, o, pub, front);
      LifeInOrder(curve, w, data, c, o, pub, front);
      HonestTurn(range, curve, w, Life(curve, w, s, pub, front), pub, turn);
    }
  }

  /** One life of a daemon, from its start to its end. */
  datatype Span = Span(o: Opening, turns: seq<Turn>)

  ghost function SpanStart(w: MeshdRuns.World, data: FileData, span: Span): MeshdRuns.State
    requires Parse(data, w.host).Ok?
  {
    OpenedState(w, data, Parse(data, w.host).value, span.o)
  }

  function PubOf(curve: Key -> Key, s: MeshdRuns.State): Key { curve(s.core.cfg.privateKey) }

  ghost function SpanEnd(curve: Key -> Key, w: MeshdRuns.World, data: FileData, span: Span): Moment
    requires Parse(data, w.host).Ok?
  {
    var s := SpanStart(w, data, span);
    Life(curve, w, s, PubOf(curve, s), span.turns)
  }

  /** The server is honest and the static peers are apart throughout. */
  ghost predicate HonestSpan(range: Prefix, curve: Key -> Key, w: MeshdRuns.World, data: FileData, span: Span) {
    && Parse(data, w.host).Ok? && Opens(w, Parse(data, w.host).value, span.o)
    && var s := SpanStart(w, data, span);
       PossibleLife(curve, w, s, PubOf(curve, s), span.turns) && HonestTurns(range, curve, w, s, PubOf(curve, s), span.turns)
  }

  /** It ends with nothing left to save and nobody's edit unseen. */
  ghost predicate EndsAtRest(curve: Key -> Key, w: MeshdRuns.World, data: FileData, span: Span)
    requires Parse(data, w.host).Ok?
  {
    var s := SpanStart(w, data, span);
    var end := SpanEnd(curve, w, data, span).state;
    NeverOverReverted(curve, w, s, PubOf(curve, s), span.turns) && PeerMemory.Remembering(end) && Parse(end.file, w.host).Ok?
  }

  /** The file that such a life leaves is one that the next may start from. */
  lemma SpanLeavesFileApart(range: Prefix, curve: Key -> Key, w: MeshdRuns.World, data: FileData, span: Span)
    requires Ipam.IsRange(range) && HonestSpan(range, curve, w, data, span) && EndsAtRest(curve, w, data, span)
    requires FileApart(Parse(data, w.host).value)
    ensures FileApart(Parse(SpanEnd(curve, w, data, span).state.file, w.host).value)
  {
    var c, s := Parse(data, w.host).value, SpanStart(w, data, span);
    HonestLife(range, curve, w, data, c, span.o, PubOf(curve, s), span.turns);
    LifeInOrder(curve, w, data, c, span.o, PubOf(curve, s), span.turns);
    RestingFileApart(w, SpanEnd(curve, w, data, span).state);
  }

  lemma RestingFileApart(w: MeshdRuns.World, s: MeshdRuns.State)
    requires MeshdRuns.Invariant(w, s) && PeerMemory.Remembering(s) && Parse(s.file, w.host).Ok?
    requires PairwiseDisjoint(s.core.book.syncedPeers)
    ensures FileApart(Parse(s.file, w.host).value)
  {
    assert Parse(s.file, w.host) == Ok(s.adopted);
    assert s.core.book.syncedPeers == ByKey(Only(s.adopted.peers, PeerBook.Synced));
  }

  /** The file after a number of lives. */
  ghost function FileAfterSpans(curve: Key -> Key, w: MeshdRuns.World, data: FileData, spans: seq<Span>): FileData {
    if spans == [] then data
    else
      var file := FileAfterSpans(curve, w, data, spans[..|spans| - 1]);
      if Parse(file, w.host).Err? then file else SpanEnd(curve, w, file, spans[|spans| - 1]).state.file
  }

  ghost predicate RestingSpans(range: Prefix, curve: Key -> Key, w: MeshdRuns.World, data: FileData, spans: seq<Span>) {
    spans == [] ||
    (var front, span := spans[..|spans| - 1], spans[|spans| - 1];
     var file := FileAfterSpans(curve, w, data, front);
     RestingSpans(range, curve, w, data, front) && HonestSpan(range, curve, w, file, span) && EndsAtRest(curve, w, file, span))
  }

  lemma {:induction false} SpansLeaveFileApart(range: Prefix, curve: Key -> Key, w: MeshdRuns.World, data: FileData, spans: seq<Span>)
    requires Ipam.IsRange(range) && Parse(data, w.host).Ok? && FileApart(Parse(data, w.host).value)
    requires RestingSpans(range, curve, w, data, spans)
    ensures var file := FileAfterSpans(curve, w, data, spans); Parse(file, w.host).Ok? && FileApart(Parse(file, w.host).value)
  {
    if spans != [] {
      var front := spans[..|spans| - 1];
      SpansLeaveFileApart(range, curve, w, data, front);
      SpanLeavesFileApart(range, curve, w, FileAfterSpans(curve, w, data, front), spans[|spans| - 1]);
    }
  }

  /** Lives joined by restarts, from a first file without the server's entries, or
      with ones that are apart: nothing is ever damaged in any of them. */
  lemma {:induction false} HonestLives(range: Prefix, curve: Key -> Key, w: MeshdRuns.World, data: FileData, past: seq<Span>, span: Span)
    requires Ipam.IsRange(range) && Parse(data, w.host).Ok? && FileApart(Parse(data, w.host).value)
    requires RestingSpans(range, curve, w, data, past)
    requires HonestSpan(range, curve, w, FileAfterSpans(curve, w, data, past), span)
    ensures var n := SpanEnd(curve, w, FileAfterSpans(curve, w, data, past), span);
      Undamaged(n.books) && PairwiseDisjoint(n.last.core.book.syncedPeers)
  {
    SpansLeaveFileApart(range, curve, w, data, past);
    var file := FileAfterSpans(curve, w, data, past);
    HonestLife(range, curve, w, file, Parse(file, w.host).value, span.o, PubOf(curve, SpanStart(w, file, span)), span.turns);
  }

  lemma NoEntriesApart(c: FileConfig)
    requires forall p :: p in c.peers ==> p.source != PeerBook.Synced
    ensures FileApart(c)
  {
    SavedFile.OnlyNone(c.peers, PeerBook.Synced);
  }

  // This machine's own address

  /** A registration at any point of a server's history gives the daemon an
      address of the range that no other machine has, with the range's length. */
  lemma {:induction false} RegisteredAddress(range: Prefix, requests: seq<Enrolment.Request>, row: Machine, now: int)
    requires Ipam.IsRange(range)
    ensures var (t, r) := Register(Some(range), Enrolment.ServeAll(range, map[], requests), row, now);
      r.Ok? ==> exists a: Addr ::
        && Ipam.Allocatable(range, a) && r.value.vpnIP == AddrText(a)
        && AssignedAddress(Registered(r.value.vpnIP, PrefixText(range))) == Some(Prefix(a, range.bits))
        && forall k :: k in t && t[k].vpnIP == AddrText(a) ==> k == row.publicKey
  {
    var t := Enrolment.ServeAll(range, map[], requests);
    var (t', r) := Register(Some(range), t, row, now);
    Enrolment.AlwaysEnrolled(range, requests);
    Enrolment.ServeKeepsEnrolled(range, t, Enrolment.RegisterRequest(row, now));
    if r.Ok? {
      RegisteredRow(Some(range), t, row, now);
      var a: Addr :| Ipam.Allocatable(range, a) && t'[row.publicKey].vpnIP == AddrText(a);
      AssignsAddress(a, range);
    }
  }

  lemma RegisteredRow(cidr: Option<Prefix>, t: Table, row: Machine, now: int)
    requires Sound(t) && Register(cidr, t, row, now).1.Ok?
    ensures row.publicKey in Register(cidr, t, row, now).0
    ensures Register(cidr, t, row, now).0[row.publicKey] == Register(cidr, t, row, now).1.value
  {
  }

  lemma AssignsAddress(a: Addr, range: Prefix)
    requires range.Prefix?
    ensures AssignedAddress(Registered(AddrText(a), PrefixText(range))) == Some(Prefix(a, range.bits))
  {
    AddrParses(a);
    PrefixRoundTrip(PrefixText(range), range);
    assert ParsePrefix([]) != Some(range);
  }

  /** With a server of this range every address that a sync brings has the range's
      length, however often the machine is registered or told another. */
  lemma SyncKeepsRange(range: Prefix, d: Core, parseKey: string -> Option<Key>, r: Replies)
    requires range.Prefix? && (d.cfg.address.Prefix? ==> d.cfg.address.bits == range.bits)
    requires r.register1.Registered? ==> r.register1.vpnCIDR == PrefixText(range)
    requires r.register2.Registered? ==> r.register2.vpnCIDR == PrefixText(range)
    ensures var e := SyncServer(d, parseKey, r).0; e.cfg.address.Prefix? ==> e.cfg.address.bits == range.bits
  {
    SyncTakesAnswer(d, parseKey, r);
    AssignsRangeLength(range, r.register1);
    AssignsRangeLength(range, r.register2);
  }

  lemma AssignsRangeLength(range: Prefix, r: RegisterReply)
    requires range.Prefix? && (r.Registered? ==> r.vpnCIDR == PrefixText(range))
    ensures AssignedAddress(r).Some? ==> AssignedAddress(r).value.Prefix? && AssignedAddress(r).value.bits == range.bits
  {
    if AssignedAddress(r).Some? {
      AssignedAddressExact(r, AssignedAddress(r).value);
    }
  }

  /** Once it is registered, and until its row is deleted, every sync confirms a
      machine's address: there is nothing to change and nothing to save for it. */
  lemma {:induction false} SyncKeepsAddress(range: Prefix, before: seq<Enrolment.Request>, since: seq<Enrolment.Request>, k: string, a: Addr,
                         d: Core, parseKey: string -> Option<Key>, list: seq<ServerPeer>, interval: int)
    requires Ipam.IsRange(range)
    requires var t := Enrolment.ServeAll(range, map[], before);
      k in t && t[k].vpnIP == AddrText(a) && d.cfg.address == Prefix(a, range.bits)
    requires Enrolment.DeleteByHand(k) !in since
    ensures var t' := Enrolment.ServeAll(range, Enrolment.ServeAll(range, map[], before), since);
      && k in t'
      && var e := TakeReply(d, parseKey, Answered(t'[k].vpnIP, list, interval));
         e.cfg == d.cfg && e.unsaved == d.unsaved
  {
    Enrolment.AddressIsStable(range, Enrolment.ServeAll(range, map[], before), since, k);
    AddrParses(a);
  }
}
