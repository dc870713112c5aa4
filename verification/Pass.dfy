/** The tunnel's part of a pass: what the device should have, and that it has it
    after the pass. */
module Pass {
  import opened Wrappers
  import opened Sequences
  import opened Keys
  import opened Netip
  import opened PeerBook
  import opened ConfigFile
  import opened Meshd
  import Wg = WgState
  import opened Device
  import opened Reconcile
  import opened Apply
  import opened History
  import MeshdRuns

  // The target

  function TunnelPeer(p: Peer, keepalive: int): Wg.Peer {
    Wg.Peer(p.name, p.publicKey, p.allowedIPs, p.endpoint, keepalive * Wg.SECOND)
  }

  /** The book's peers without this machine itself. */
  function TunnelPeerList(peers: seq<Peer>, pub: Key, keepalive: int): seq<Wg.Peer> {
    if peers == [] then []
    else
      var front, last := peers[..|peers| - 1], peers[|peers| - 1];
      if last.publicKey == pub then TunnelPeerList(front, pub, keepalive)
      else TunnelPeerList(front, pub, keepalive) + [TunnelPeer(last, keepalive)]
  }

  /** What applyPeers wants of the tunnel. */
  ghost function Target(d: Core, pub: Key, addr: Prefix): Wg.Config {
    Wg.Config(Wg.Interface(d.cfg.privateKey, addr, d.cfg.listenPort, d.cfg.mtu),
              TunnelPeerList(TunnelPeers(d.book), pub, d.cfg.keepalive))
  }

  lemma {:induction false} TunnelPeerListExact(peers: seq<Peer>, pub: Key, keepalive: int)
    ensures forall q :: q in TunnelPeerList(peers, pub, keepalive) <==>
      exists p :: p in peers && p.publicKey != pub && q == TunnelPeer(p, keepalive)
  {
    if peers != [] {
      var front, last := peers[..|peers| - 1], peers[|peers| - 1];
      FrontAndLast(peers);
      TunnelPeerListExact(front, pub, keepalive);
      forall q
        ensures q in TunnelPeerList(peers, pub, keepalive) <==>
          exists p :: p in peers && p.publicKey != pub && q == TunnelPeer(p, keepalive)
      {
        if last.publicKey != pub && q == TunnelPeer(last, keepalive) {
          assert last in peers;
        }
      }
    }
  }

  lemma {:induction false} TunnelPeerListUnique(peers: seq<Peer>, pub: Key, keepalive: int)
    requires DistinctKeys(peers)
    ensures Wg.UniqueKeys(TunnelPeerList(peers, pub, keepalive))
  {
    if peers != [] {
      var front, last := peers[..|peers| - 1], peers[|peers| - 1];
      TunnelPeerListUnique(front, pub, keepalive);
      TunnelPeerListExact(front, pub, keepalive);
      var kept := TunnelPeerList(front, pub, keepalive);
      forall i | 0 <= i < |kept|
        ensures kept[i].publicKey != last.publicKey
      {
        assert kept[i] in kept;
        var p :| p in front && kept[i] == TunnelPeer(p, keepalive);
        var j :| 0 <= j < |front| && front[j] == p;
        assert peers[j] == p;
      }
    }
  }

  /** The keys that the device should have. */
  ghost function ManagedKeys(b: BookState, pub: Key): set<Key> {
    b.staticPeers.Keys + b.syncedPeers.Keys - {pub}
  }

  lemma TargetKeys(d: Core, pub: Key, addr: Prefix)
    requires BookOk(d.book)
    ensures Wg.UniqueKeys(Target(d, pub, addr).peers)
    ensures Wg.KeysOf(Target(d, pub, addr).peers) == ManagedKeys(d.book, pub)
  {
    SortedPeersDistinct(d.book.staticPeers + d.book.syncedPeers);
    TunnelPeerListUnique(TunnelPeers(d.book), pub, d.cfg.keepalive);
    TunnelPeerListKeys(d.book.staticPeers + d.book.syncedPeers, pub, d.cfg.keepalive);
  }

  lemma {:induction false} TunnelPeerListKeys(all: PeerMap, pub: Key, keepalive: int)
    requires OwnKeys(all)
    ensures Wg.KeysOf(TunnelPeerList(SortedPeers(all), pub, keepalive)) == all.Keys - {pub}
  {
    var peers := TunnelPeerList(SortedPeers(all), pub, keepalive);
    forall q | q in peers
      ensures q.publicKey in all.Keys - {pub}
    {
      KeyIsListed(all, pub, keepalive, q);
    }
    forall k | k in all.Keys - {pub}
      ensures k in Wg.KeysOf(peers)
    {
      ListedIsPeer(all, pub, keepalive, k);
    }
  }

  lemma {:induction false} KeyIsListed(all: PeerMap, pub: Key, keepalive: int, q: Wg.Peer)
    requires OwnKeys(all) && q in TunnelPeerList(SortedPeers(all), pub, keepalive)
    ensures q.publicKey in all && q.publicKey != pub
  {
    TunnelPeerListExact(SortedPeers(all), pub, keepalive);
    var p :| p in SortedPeers(all) && p.publicKey != pub && q == TunnelPeer(p, keepalive);
    assert p in all.Values;
  }

  lemma {:induction false} ListedIsPeer(all: PeerMap, pub: Key, keepalive: int, k: Key)
    requires OwnKeys(all) && k in all && k != pub
    ensures TunnelPeer(all[k], keepalive) in TunnelPeerList(SortedPeers(all), pub, keepalive)
    ensures all[k].publicKey == k
  {
    TunnelPeerListExact(SortedPeers(all), pub, keepalive);
    assert all[k] in all.Values && all[k] in SortedPeers(all);
  }

  /** The target always has unique keys and never this machine; it can be
      reached unless two of its peers claim a prefix. */
  lemma TargetRealizable(curve: Key -> Key, d: Core, pub: Key, addr: Prefix)
    requires BookOk(d.book) && curve(d.cfg.privateKey) == pub
    ensures Admissible(curve, Target(d, pub, addr))
    ensures Realizable(curve, Target(d, pub, addr)) <==> Wg.Disjoint(Target(d, pub, addr).peers)
  {
    TargetKeys(d, pub, addr);
  }

  /** q is what the tunnel is asked for when the book has p. */
  predicate AsksFor(q: Wg.Peer, p: Peer, keepalive: int) {
    && q.name == p.name && q.publicKey == p.publicKey && q.allowedIPs == p.allowedIPs && q.endpoint == p.endpoint
    && q.keepalive == keepalive * 1_000_000_000
  }

  /** The book has p for the tunnel. */
  ghost predicate ForTunnel(b: BookState, p: Peer) {
    p in b.staticPeers.Values || p in b.syncedPeers.Values
  }

  lemma TunnelPeersAre(b: BookState, p: Peer)
    requires BookOk(b)
    ensures p in TunnelPeers(b) <==> ForTunnel(b, p)
  {
    var all := b.staticPeers + b.syncedPeers;
    assert OwnKeys(all);
    if ForTunnel(b, p) {
      assert all[p.publicKey] == p && p in all.Values;
    }
  }

  /** The list is sorted by key. */
  ghost predicate Ascending(list: seq<Wg.Peer>) {
    forall i, j :: 0 <= i < j < |list| ==> list[i].publicKey < list[j].publicKey
  }

  lemma AscendingSnoc(front: seq<Wg.Peer>, last: Wg.Peer)
    requires Ascending(front) && forall i :: 0 <= i < |front| ==> front[i].publicKey < last.publicKey
    ensures Ascending(front + [last])
  {
  }

  lemma {:induction false} TunnelPeerListSorted(peers: seq<Peer>, pub: Key, keepalive: int)
    requires forall i, j :: 0 <= i < j < |peers| ==> peers[i].publicKey < peers[j].publicKey
    ensures Ascending(TunnelPeerList(peers, pub, keepalive))
  {
    if peers != [] {
      var front, last := peers[..|peers| - 1], peers[|peers| - 1];
      TunnelPeerListSorted(front, pub, keepalive);
      TunnelPeerListExact(front, pub, keepalive);
      var kept := TunnelPeerList(front, pub, keepalive);
      forall i | 0 <= i < |kept|
        ensures kept[i].publicKey < last.publicKey
      {
        assert kept[i] in kept;
        var p :| p in front && kept[i] == TunnelPeer(p, keepalive);
        var j :| 0 <= j < |front| && front[j] == p;
        assert peers[j] == p;
      }
      AscendingSnoc(kept, TunnelPeer(last, keepalive));
    }
  }

  lemma SortedByKey(m: PeerMap)
    requires OwnKeys(m)
    ensures var r := SortedPeers(m); forall i, j :: 0 <= i < j < |r| ==> r[i].publicKey < r[j].publicKey
  {
    var r := SortedPeers(m);
    forall i, j | 0 <= i < j < |r|
      ensures r[i].publicKey < r[j].publicKey
    {
      KeyOrder(r[i].publicKey, r[j].publicKey);
    }
  }

  lemma AskedForAreBooks(d: Core, pub: Key, addr: Prefix, q: Wg.Peer) returns (p: Peer)
    requires BookOk(d.book) && q in Target(d, pub, addr).peers
    ensures ForTunnel(d.book, p) && p.publicKey != pub && AsksFor(q, p, d.cfg.keepalive)
  {
    TunnelPeerListExact(TunnelPeers(d.book), pub, d.cfg.keepalive);
    p :| p in TunnelPeers(d.book) && p.publicKey != pub && q == TunnelPeer(p, d.cfg.keepalive);
    TunnelPeersAre(d.book, p);
  }

  lemma BooksAreAskedFor(d: Core, pub: Key, addr: Prefix, p: Peer) returns (q: Wg.Peer)
    requires BookOk(d.book) && ForTunnel(d.book, p) && p.publicKey != pub
    ensures q in Target(d, pub, addr).peers && AsksFor(q, p, d.cfg.keepalive)
  {
    TunnelPeersAre(d.book, p);
    TunnelPeerListExact(TunnelPeers(d.book), pub, d.cfg.keepalive);
    q := TunnelPeer(p, d.cfg.keepalive);
  }

  /** applyPeers asks for each static and synced peer but this machine, as the
      book has it, and for no other, in the order of their keys. */
  lemma TargetExact(d: Core, pub: Key, addr: Prefix)
    requires BookOk(d.book)
    ensures var want := Target(d, pub, addr);
      && want.iface.privateKey == d.cfg.privateKey && want.iface.listenPort == d.cfg.listenPort
      && want.iface.address == addr && want.iface.mtu == d.cfg.mtu
      && (forall p :: ForTunnel(d.book, p) && p.publicKey != pub ==>
            exists q :: q in want.peers && AsksFor(q, p, d.cfg.keepalive))
      && (forall q :: q in want.peers ==>
            exists p :: ForTunnel(d.book, p) && p.publicKey != pub && AsksFor(q, p, d.cfg.keepalive))
      && Ascending(want.peers)
  {
    var want := Target(d, pub, addr);
    SortedByKey(d.book.staticPeers + d.book.syncedPeers);
    TunnelPeerListSorted(TunnelPeers(d.book), pub, d.cfg.keepalive);
    forall p | ForTunnel(d.book, p) && p.publicKey != pub
      ensures exists q :: q in want.peers && AsksFor(q, p, d.cfg.keepalive)
    {
      var q := BooksAreAskedFor(d, pub, addr, p);
    }
    forall q | q in want.peers
      ensures exists p :: ForTunnel(d.book, p) && p.publicKey != pub && AsksFor(q, p, d.cfg.keepalive)
    {
      var p := AskedForAreBooks(d, pub, addr, q);
    }
  }

  // Keeping the tunnel

  /** The tunnel, if there is one, and the address it was opened with. */
  datatype Link = Link(tunnel: Option<TunnelState>, addr: Prefix)

  const NO_LINK := Link(None, NoPrefix)

  /** ensureTunnel; `opens` says whether a new tunnel could be opened. */
  function EnsureTunnel(l: Link, addr: Prefix, opens: bool): (Link, bool) {
    if l.tunnel.Some? && l.addr == addr then (l, true)
    else if opens then (Link(Some(NEW_TUNNEL), addr), true)
    else (NO_LINK, false)
  }

  /** What an update of the tunnel meets: can a tunnel be opened, in which order
      are peers removed, does the session break down? */
  datatype Circumstances = Circumstances(opens: bool, order: seq<Key>, fault: Option<nat>)

  datatype Outcome = NoAddressYet | NotOpened | NotApplied | UpToDate

  ghost function UpdateTunnel(curve: Key -> Key, d: Core, pub: Key, l: Link, c: Circumstances): (Link, Outcome) {
    if d.cfg.address.NoPrefix? then (l, NoAddressYet)
    else
      var (m, ok) := EnsureTunnel(l, d.cfg.address, c.opens);
      if !ok then (m, NotOpened)
      else
        var (t, applied) := ApplyStep(curve, m.tunnel.value, Target(d, pub, d.cfg.address), c.order, c.fault);
        (Link(Some(t), m.addr), if applied then UpToDate else NotApplied)
  }

  /** The order in c is one the removal loop could take. */
  ghost predicate PossibleOrder(d: Core, pub: Key, l: Link, c: Circumstances) {
    var (m, ok) := EnsureTunnel(l, d.cfg.address, c.opens);
    ok ==> IsRemovalOrder(m.tunnel.value.applied, Target(d, pub, d.cfg.address), c.order)
  }

  // What an update achieves

  /** What is known of a tunnel's history: nothing any more once an update has
      asked for something unsafe after a failure, or another tool has changed
      more than its own peers. A tunnel that is opened anew has new books. */
  type Books = Option<Ledger>

  ghost predicate LinkConsistent(curve: Key -> Key, l: Link, g: Books) {
    l.tunnel.Some? && g.Some? ==> Consistent(curve, l.tunnel.value, g.value)
  }

  /** Does the tunnel live on in an update with this address? */
  predicate LivesOn(l: Link, addr: Prefix) {
    l.tunnel.Some? && l.addr == addr
  }

  /** The tunnel is to be opened, or the target may follow what it owes. */
  ghost predicate Ready(curve: Key -> Key, d: Core, pub: Key, l: Link, g: Books) {
    LivesOn(l, d.cfg.address) ==>
      g.Some? && MayFollow(curve, l.tunnel.value.applied, g.value.owed, Target(d, pub, d.cfg.address))
  }

  /** The books once the tunnel is ensured: new for a new tunnel. */
  function EnsuredBooks(l: Link, addr: Prefix, g: Books): Books {
    if LivesOn(l, addr) then g else Some(CLEAN)
  }

  /** The books after an update. */
  ghost function UpdateBooks(curve: Key -> Key, d: Core, pub: Key, l: Link, c: Circumstances, g: Books): Books {
    if d.cfg.address.NoPrefix? then g
    else
      var (m, ok) := EnsureTunnel(l, d.cfg.address, c.opens);
      if !ok then Some(CLEAN)
      else if !Ready(curve, d, pub, l, g) then None
      else
        Some(Next(curve, m.tunnel.value, EnsuredBooks(l, d.cfg.address, g).value,
                  Attempt(Target(d, pub, d.cfg.address), c.order, c.fault)))
  }

  /** The order in c is one that the update could take, if it is made. */
  ghost predicate PossibleFor(d: Core, pub: Key, l: Link, c: Circumstances) {
    d.cfg.address.Prefix? ==> PossibleOrder(d, pub, l, c)
  }

  /** The device has the peer p, with its endpoint if it has one and this keepalive
      in seconds, and routes to it what it claims; only a damaged peer may lack
      some of that. */
  ghost predicate HasPeer(dev: Device, p: Peer, keepalive: int, damaged: set<Key>) {
    && p.publicKey in dev.peers
    && dev.peers[p.publicKey].keepalive == keepalive
    && (p.endpoint.AddrPort? ==> dev.peers[p.publicKey].endpoint == p.endpoint)
    && Owned(dev, p.publicKey) <= ClaimsOf(p)
    && (p.publicKey !in damaged ==> Owned(dev, p.publicKey) == ClaimsOf(p))
  }

  lemma SecondsOfWhole(n: int)
    ensures Wg.Seconds(n * Wg.SECOND) == n
  {
  }

  lemma SameClaims(p: Peer, keepalive: int)
    ensures Wg.Claims(TunnelPeer(p, keepalive)) == ClaimsOf(p)
  {
    assert TunnelPeer(p, keepalive).allowedIPs == p.allowedIPs;
    assert forall a :: a in Wg.Claims(TunnelPeer(p, keepalive)) <==> a in ClaimsOf(p);
  }

  lemma StandsIsHasPeer(dev: Device, p: Peer, keepalive: int, damaged: set<Key>)
    ensures Stands(dev, TunnelPeer(p, keepalive), damaged) <==> HasPeer(dev, p, keepalive, damaged)
  {
    SecondsOfWhole(keepalive);
    SameClaims(p, keepalive);
  }

  /** The device has exactly the peers it should have and those of other tools,
      as it should have them, and none of Knoten's is blocked. Only peers that
      shared a claim may lack a prefix. */
  ghost predicate DeviceMatches(d: Core, pub: Key, dev: Device, g: Ledger) {
    && dev.privateKey == d.cfg.privateKey
    && dev.listenPort == d.cfg.listenPort
    && dev.peers.Keys == ManagedKeys(d.book, pub) + g.others
    && ManagedKeys(d.book, pub) !! d.book.blockedPeers.Keys + g.others
    && (forall k :: k in d.book.staticPeers && k != pub ==> HasPeer(dev, d.book.staticPeers[k], d.cfg.keepalive, g.damaged))
    && (forall k :: k in d.book.syncedPeers && k != pub ==> HasPeer(dev, d.book.syncedPeers[k], d.cfg.keepalive, g.damaged))
  }

  lemma ReachedMatches(curve: Key -> Key, d: Core, pub: Key, addr: Prefix, t: TunnelState, g: Ledger)
    requires BookOk(d.book) && Reached(curve, t, Target(d, pub, addr), g.damaged, g.others)
    ensures DeviceMatches(d, pub, t.dev, g)
  {
    TargetKeys(d, pub, addr);
    EquivalentKeys(curve, t, Target(d, pub, addr), g);
    forall p | ForTunnel(d.book, p) && p.publicKey != pub
      ensures HasPeer(t.dev, p, d.cfg.keepalive, g.damaged)
    {
      ReachedHasPeer(curve, d, pub, addr, t, g, p);
    }
    assert forall k :: k in d.book.staticPeers ==> ForTunnel(d.book, d.book.staticPeers[k]);
    assert forall k :: k in d.book.syncedPeers ==> ForTunnel(d.book, d.book.syncedPeers[k]);
  }

  lemma ReachedHasPeer(curve: Key -> Key, d: Core, pub: Key, addr: Prefix, t: TunnelState, g: Ledger, p: Peer)
    requires BookOk(d.book) && Reached(curve, t, Target(d, pub, addr), g.damaged, g.others)
    requires ForTunnel(d.book, p) && p.publicKey != pub
    ensures HasPeer(t.dev, p, d.cfg.keepalive, g.damaged)
  {
    TunnelPeersAre(d.book, p);
    TunnelPeerListExact(TunnelPeers(d.book), pub, d.cfg.keepalive);
    assert TunnelPeer(p, d.cfg.keepalive) in Target(d, pub, addr).peers;
    StandsIsHasPeer(t.dev, p, d.cfg.keepalive, g.damaged);
  }

  lemma EquivalentKeys(curve: Key -> Key, t: TunnelState, want: Wg.Config, g: Ledger)
    requires Reached(curve, t, want, g.damaged, g.others)
    ensures g.others !! Wg.KeysOf(want.peers)
  {
  }

  /** There is a tunnel, and by its books its device matches the book. */
  ghost predicate LinkMatches(d: Core, pub: Key, l: Link, g: Books) {
    l.tunnel.Some? && (g.Some? ==> DeviceMatches(d, pub, l.tunnel.value.dev, g.value))
  }

  ghost predicate Owes(g: Books, want: Option<Wg.Config>) {
    g.Some? ==> g.value.owed == want
  }

  /** What an attempt at the target makes of an ensured tunnel. */
  lemma AttemptMatches(curve: Key -> Key, d: Core, pub: Key, t: TunnelState, g: Ledger, e: Event)
    requires BookOk(d.book) && curve(d.cfg.privateKey) == pub
    requires e.Attempt? && e.want == Target(d, pub, d.cfg.address)
    requires Consistent(curve, t, g) && Allowed(curve, t, g, e)
    ensures Consistent(curve, After(curve, t, e), Next(curve, t, g, e))
    ensures Succeeds(curve, t, e) ==> DeviceMatches(d, pub, After(curve, t, e).dev, Next(curve, t, g, e))
  {
    AttemptKeepsConsistent(curve, t, g, e);
    if Succeeds(curve, t, e) {
      ReachedMatches(curve, d, pub, d.cfg.address, After(curve, t, e), Next(curve, t, g, e));
    }
  }

  /** An update of an ensured tunnel that is ready for it. */
  lemma ReadyUpdate(curve: Key -> Key, d: Core, pub: Key, l: Link, c: Circumstances, g: Books)
    requires BookOk(d.book) && curve(d.cfg.privateKey) == pub && d.cfg.address.Prefix?
    requires LinkConsistent(curve, l, g) && PossibleOrder(d, pub, l, c) && Ready(curve, d, pub, l, g)
    requires EnsureTunnel(l, d.cfg.address, c.opens).1
    ensures var (m, o) := UpdateTunnel(curve, d, pub, l, c);
      var h := UpdateBooks(curve, d, pub, l, c, g);
      && m.tunnel.Some? && m.addr == d.cfg.address && h.Some? && LinkConsistent(curve, m, h)
      && (o == UpToDate ==> LinkMatches(d, pub, m, h) && Owes(h, None))
      && (o == NotApplied ==> Owes(h, Some(Target(d, pub, d.cfg.address))))
  {
    var t := EnsureTunnel(l, d.cfg.address, c.opens).0.tunnel.value;
    TargetRealizable(curve, d, pub, d.cfg.address);
    NewTunnelSettled(curve);
    AttemptMatches(curve, d, pub, t, EnsuredBooks(l, d.cfg.address, g).value,
                   Attempt(Target(d, pub, d.cfg.address), c.order, c.fault));
  }

  /** A successful update makes the device match the book, be it a tunnel that
      lives on, one that died, one opened again under a new address, or one that
      failed before. A failed update leaves the tunnel owing the target. All this
      as long as the books are kept, and they are whenever the update was ready. */
  lemma UpdateConverges(curve: Key -> Key, d: Core, pub: Key, l: Link, c: Circumstances, g: Books)
    requires BookOk(d.book) && curve(d.cfg.privateKey) == pub
    requires LinkConsistent(curve, l, g) && PossibleFor(d, pub, l, c)
    ensures var (m, o) := UpdateTunnel(curve, d, pub, l, c);
      var h := UpdateBooks(curve, d, pub, l, c, g);
      && LinkConsistent(curve, m, h)
      && (o == UpToDate ==> LinkMatches(d, pub, m, h) && Owes(h, None) && m.addr == d.cfg.address)
      && (o == NotApplied ==> m.tunnel.Some? && m.addr == d.cfg.address && Owes(h, Some(Target(d, pub, d.cfg.address))))
      && (o == NotOpened ==> m == NO_LINK && h.Some?)
      && (o == NoAddressYet ==> m == l && h == g)
      && (o != NoAddressYet && Ready(curve, d, pub, l, g) ==> h.Some?)
  {
    if d.cfg.address.Prefix? {
      if EnsureTunnel(l, d.cfg.address, c.opens).1 && Ready(curve, d, pub, l, g) {
        ReadyUpdate(curve, d, pub, l, c, g);
      }
    }
  }

  /** A tunnel that does not live on is as good as none: whatever was lost with it
      does no harm, and the books are new. */
  lemma ReopeningForgets(curve: Key -> Key, d: Core, pub: Key, l: Link, c: Circumstances, g: Books)
    requires !LivesOn(l, d.cfg.address) && d.cfg.address.Prefix?
    ensures UpdateTunnel(curve, d, pub, l, c) == UpdateTunnel(curve, d, pub, NO_LINK, c)
    ensures UpdateBooks(curve, d, pub, l, c, g) == UpdateBooks(curve, d, pub, NO_LINK, c, Some(CLEAN))
    ensures UpdateBooks(curve, d, pub, l, c, g).Some?
  {
    assert EnsureTunnel(l, d.cfg.address, c.opens) == EnsureTunnel(NO_LINK, d.cfg.address, c.opens);
    assert EnsuredBooks(l, d.cfg.address, g) == EnsuredBooks(NO_LINK, d.cfg.address, Some(CLEAN)) == Some(CLEAN);
    assert Ready(curve, d, pub, l, g) && Ready(curve, d, pub, NO_LINK, Some(CLEAN));
  }

  /** By the books no peer lacks a prefix. */
  ghost predicate Undamaged(g: Books) {
    g.Some? ==> g.value.damaged == {}
  }

  /** If no two wanted peers claim the same prefix, nothing is damaged. */
  lemma UpdateDoesNoDamage(curve: Key -> Key, d: Core, pub: Key, l: Link, c: Circumstances, g: Books)
    requires BookOk(d.book) && Wg.Disjoint(Target(d, pub, d.cfg.address).peers) && Undamaged(g)
    ensures Undamaged(UpdateBooks(curve, d, pub, l, c, g))
  {
    TargetKeys(d, pub, d.cfg.address);
    var (m, ok) := EnsureTunnel(l, d.cfg.address, c.opens);
    if ok {
      DisjointDoesNoDamage(m.tunnel.value.applied, Target(d, pub, d.cfg.address), {});
    }
  }

  // A whole pass

  /** What one pass meets. No data means that the file could not be read. */
  datatype Conditions = Conditions(
    died: bool,                      // the tunnel was shut down from outside
    atCheck: Option<FileData>,       // the file when it is checked for edits
    first: Circumstances,
    due: bool,                       // a sync is due
    replies: Replies,
    second: Circumstances,
    atSave: Option<FileData>,        // the file when it is saved
    writable: bool)

  function DropDead(l: Link, died: bool): Link {
    if died then NO_LINK else l
  }

  datatype PassResult = PassResult(
    core: Core, link: Link, written: Option<FileData>,
    first: Outcome, synced: bool, second: Outcome)

  /** Does the pass try to sync? */
  predicate Syncs(d: Core, x: Conditions) { UsesServer(d.cfg) && x.due }

  /** The end of a pass: what is worth remembering is saved. */
  ghost function Finished(w: MeshdRuns.World, d: Core, l: Link, x: Conditions, first: Outcome, synced: bool, second: Outcome): PassResult {
    var (e, written) := SaveIfNeeded(d, x.atSave, w.host, x.writable);
    PassResult(e, l, written, first, synced, second)
  }

  /** The daemon after the sync of a pass, and whether one succeeded. */
  function AfterSync(w: MeshdRuns.World, d: Core, x: Conditions): (Core, bool) {
    if Syncs(d, x) then
      var (e, interval) := SyncServer(d, w.parseKey, x.replies);
      (e, interval.Some?)
    else (d, false)
  }

  /** What follows the first update: a sync, if one is due, another update if
      it succeeds, and the save. A tunnel that cannot be opened ends the pass,
      and the daemon. */
  ghost function Rest(curve: Key -> Key, w: MeshdRuns.World, d1: Core, pub: Key, l1: Link, x: Conditions, o1: Outcome): PassResult {
    var (d2, synced) := AfterSync(w, d1, x);
    if o1 == NotOpened then PassResult(d1, l1, None, o1, false, NoAddressYet)
    else if !synced then Finished(w, d2, l1, x, o1, false, NoAddressYet)
    else
      var (l2, o2) := UpdateTunnel(curve, d2, pub, l1, x.second);
      if o2 == NotOpened then PassResult(d2, l2, None, o1, true, o2)
      else Finished(w, d2, l2, x, o1, true, o2)
  }

  /** bringUpToDate. */
  ghost function BringUpToDate(curve: Key -> Key, w: MeshdRuns.World, d: Core, pub: Key, l: Link, x: Conditions): PassResult {
    var d1 := CheckConfig(d, x.atCheck, w.host);
    var (l1, o1) := UpdateTunnel(curve, d1, pub, DropDead(l, x.died), x.first);
    Rest(curve, w, d1, pub, l1, x, o1)
  }

  /** Every removal order in x is one that the update in question could take;
      an update that is not made has none. */
  ghost predicate PossibleOrders(curve: Key -> Key, w: MeshdRuns.World, d: Core, pub: Key, l: Link, x: Conditions) {
    var d1 := CheckConfig(d, x.atCheck, w.host);
    var l0 := DropDead(l, x.died);
    var (l1, o1) := UpdateTunnel(curve, d1, pub, l0, x.first);
    && PossibleFor(d1, pub, l0, x.first)
    && PossibleAfter(w, d1, pub, l1, x, o1)
  }

  ghost predicate PossibleAfter(w: MeshdRuns.World, d1: Core, pub: Key, l1: Link, x: Conditions, o1: Outcome) {
    var (d2, synced) := AfterSync(w, d1, x);
    o1 != NotOpened && synced ==> PossibleFor(d2, pub, l1, x.second)
  }

  /** The books after a pass. */
  ghost function PassBooks(curve: Key -> Key, w: MeshdRuns.World, d: Core, pub: Key, l: Link, x: Conditions, g: Books): Books {
    var d1 := CheckConfig(d, x.atCheck, w.host);
    var l0, g0 := DropDead(l, x.died), DropDeadBooks(g, x.died);
    var (l1, o1) := UpdateTunnel(curve, d1, pub, l0, x.first);
    RestBooks(curve, w, d1, pub, l1, x, o1, UpdateBooks(curve, d1, pub, l0, x.first, g0))
  }

  function DropDeadBooks(g: Books, died: bool): Books {
    if died then Some(CLEAN) else g
  }

  ghost function RestBooks(curve: Key -> Key, w: MeshdRuns.World, d1: Core, pub: Key, l1: Link, x: Conditions,
                           o1: Outcome, g1: Books): Books {
    var (d2, synced) := AfterSync(w, d1, x);
    if o1 == NotOpened || !synced then g1 else UpdateBooks(curve, d2, pub, l1, x.second, g1)
  }

  /** Each update of the pass asks for something that may be asked for, so that
      the books are kept. */
  ghost predicate SafePass(curve: Key -> Key, w: MeshdRuns.World, d: Core, pub: Key, l: Link, x: Conditions, g: Books) {
    var d1 := CheckConfig(d, x.atCheck, w.host);
    var l0, g0 := DropDead(l, x.died), DropDeadBooks(g, x.died);
    var (l1, o1) := UpdateTunnel(curve, d1, pub, l0, x.first);
    && (d1.cfg.address.Prefix? ==> Ready(curve, d1, pub, l0, g0))
    && SafeRest(curve, w, d1, pub, l1, x, o1, UpdateBooks(curve, d1, pub, l0, x.first, g0))
  }

  ghost predicate SafeRest(curve: Key -> Key, w: MeshdRuns.World, d1: Core, pub: Key, l1: Link, x: Conditions,
                           o1: Outcome, g1: Books) {
    var (d2, synced) := AfterSync(w, d1, x);
    o1 != NotOpened && synced ==> Ready(curve, d2, pub, l1, g1)
  }

  /** The books are kept over a safe pass. */
  lemma SafePassKeepsBooks(curve: Key -> Key, w: MeshdRuns.World, d: Core, pub: Key, l: Link, x: Conditions, g: Books)
    requires g.Some? && SafePass(curve, w, d, pub, l, x, g)
    ensures PassBooks(curve, w, d, pub, l, x, g).Some?
  {
    var d1 := CheckConfig(d, x.atCheck, w.host);
    var l0, g0 := DropDead(l, x.died), DropDeadBooks(g, x.died);
    ReadyKeepsBooks(curve, d1, pub, l0, x.first, g0);
    var (l1, o1) := UpdateTunnel(curve, d1, pub, l0, x.first);
    ReadyKeepsBooks(curve, AfterSync(w, d1, x).0, pub, l1, x.second, UpdateBooks(curve, d1, pub, l0, x.first, g0));
  }

  lemma ReadyKeepsBooks(curve: Key -> Key, d: Core, pub: Key, l: Link, c: Circumstances, g: Books)
    requires g.Some?
    ensures d.cfg.address.NoPrefix? || Ready(curve, d, pub, l, g) ==> UpdateBooks(curve, d, pub, l, c, g).Some?
  {
  }

  /** A tunnel that does not live to see the pass's first update, because it died
      or because the machine's address has changed, leaves nothing behind: the
      pass is that of a daemon without a tunnel, and the books are new. */
  lemma ReopeningPass(curve: Key -> Key, w: MeshdRuns.World, d: Core, pub: Key, l: Link, x: Conditions, g: Books)
    requires var d1 := CheckConfig(d, x.atCheck, w.host);
      d1.cfg.address.Prefix? && (x.died || !LivesOn(l, d1.cfg.address))
    ensures BringUpToDate(curve, w, d, pub, l, x) == BringUpToDate(curve, w, d, pub, NO_LINK, x)
    ensures PassBooks(curve, w, d, pub, l, x, g) == PassBooks(curve, w, d, pub, NO_LINK, x, Some(CLEAN))
    ensures !AfterSync(w, CheckConfig(d, x.atCheck, w.host), x).1 ==> PassBooks(curve, w, d, pub, l, x, g).Some?
  {
    var d1 := CheckConfig(d, x.atCheck, w.host);
    ReopeningForgets(curve, d1, pub, DropDead(l, x.died), x.first, DropDeadBooks(g, x.died));
    ReopeningForgets(curve, d1, pub, DropDead(NO_LINK, x.died), x.first, DropDeadBooks(Some(CLEAN), x.died));
  }

  /** The save meets no edit that the check has not seen. */
  predicate QuietSave(w: MeshdRuns.World, d: Core, x: Conditions) {
    x.atSave.None? || x.atSave == CheckConfig(d, x.atCheck, w.host).lastRead
  }

  /** The outcome of the pass's last update. */
  function LastOutcome(r: PassResult): Outcome {
    if r.synced then r.second else r.first
  }

  /** What the pass does to the book's peers and to the settings does not depend
      on whether they can be saved. */
  ghost predicate SameForTunnel(d: Core, e: Core) {
    && d.book.staticPeers == e.book.staticPeers
    && d.book.syncedPeers == e.book.syncedPeers
    && d.book.blockedPeers == e.book.blockedPeers
    && d.cfg.privateKey == e.cfg.privateKey
    && d.cfg.listenPort == e.cfg.listenPort
    && d.cfg.keepalive == e.cfg.keepalive
    && d.cfg.mtu == e.cfg.mtu
  }

  lemma SaveIsSameForTunnel(d: Core, data: Option<FileData>, host: Option<string>, writable: bool)
    requires data.None? || data == d.lastRead
    ensures SameForTunnel(d, SaveIfNeeded(d, data, host, writable).0)
    ensures SaveIfNeeded(d, data, host, writable).0.cfg == d.cfg
  {
  }

  lemma TakeReplyBook(d: Core, parseKey: string -> Option<Key>, reply: SyncReply)
    requires reply.Answered?
    ensures var e := TakeReply(d, parseKey, reply);
      && e.book == WithServerList(d.book, ServerPeers(parseKey, reply.peers))
      && e.lastRead == d.lastRead && e.cfg.privateKey == d.cfg.privateKey
  {
  }

  /** A sync replaces the server's list if it succeeds, and leaves the book
      alone if it fails. */
  lemma SyncBook(d: Core, parseKey: string -> Option<Key>, r: Replies)
    ensures var (e, interval) := SyncServer(d, parseKey, r);
      && (interval.None? ==> e.book == d.book && SameForTunnel(d, e))
      && (BookOk(d.book) ==> BookOk(e.book))
      && (interval.Some? ==> e.cfg.address.Prefix?)
      && e.lastRead == d.lastRead && e.cfg.privateKey == d.cfg.privateKey
  {
    SyncTakesAnswer(d, parseKey, r);
    if SyncServer(d, parseKey, r).1.Some? && BookOk(d.book) {
      WithServerListOk(d.book, ServerPeers(parseKey, FinalAnswer(r).peers));
    }
  }

  lemma MatchesTransfers(d: Core, e: Core, pub: Key, l: Link, g: Books)
    requires SameForTunnel(d, e) && LinkMatches(d, pub, l, g)
    ensures LinkMatches(e, pub, l, g)
  {
  }

  /** What the tunnel is ready for does not depend on the rest. */
  lemma ReadyTransfers(curve: Key -> Key, d: Core, e: Core, pub: Key, l: Link, g: Books)
    requires SameForTunnel(d, e) && (d.cfg.address == e.cfg.address || l.addr == d.cfg.address)
    requires Ready(curve, d, pub, l, g)
    ensures Ready(curve, e, pub, l, g)
  {
    assert Target(d, pub, l.addr) == Target(e, pub, l.addr);
  }

  lemma CheckKeepsBook(d: Core, data: Option<FileData>, w: MeshdRuns.World)
    requires BookOk(d.book)
    ensures BookOk(CheckConfig(d, data, w.host).book)
    ensures CheckConfig(d, data, w.host).cfg.privateKey == d.cfg.privateKey
  {
    if data.Some? && Parse(data.value, w.host).Ok? {
      var c := Parse(data.value, w.host).value;
      MeshdRuns.ParsedEntries(data.value, w);
      WithManualEditsOk(d.book, c.peers, UsesServer(d.cfg));
    }
  }

  /** The book and the tunnel are in order, whether the tunnel owes something
      or not. */
  ghost predicate OnCourse(curve: Key -> Key, pub: Key, d: Core, l: Link, g: Books) {
    BookOk(d.book) && curve(d.cfg.privateKey) == pub && LinkConsistent(curve, l, g)
  }

  lemma AfterSyncFacts(w: MeshdRuns.World, d: Core, x: Conditions)
    ensures var (e, synced) := AfterSync(w, d, x);
      && (!synced ==> SameForTunnel(d, e))
      && (BookOk(d.book) ==> BookOk(e.book))
      && (synced ==> e.cfg.address.Prefix?)
      && e.lastRead == d.lastRead && e.cfg.privateKey == d.cfg.privateKey
  {
    SyncBook(d, w.parseKey, x.replies);
  }

  /** The pass left things in order. If its last update succeeded, the device
      matches what the book was then; a tunnel that owes something owes what that
      book asks for. */
  ghost predicate Arrived(curve: Key -> Key, pub: Key, seen: Core, r: PassResult, g: Books) {
    && OnCourse(curve, pub, r.core, r.link, g)
    && (LastOutcome(r) == UpToDate ==> LinkMatches(seen, pub, r.link, g))
    && (LastOutcome(r) != NoAddressYet && g.Some? ==> Ready(curve, seen, pub, r.link, g))
  }

  lemma SaveKeepsBook(d: Core, data: Option<FileData>, w: MeshdRuns.World, writable: bool)
    requires BookOk(d.book)
    ensures var e := SaveIfNeeded(d, data, w.host, writable).0;
      BookOk(e.book) && e.cfg.privateKey == d.cfg.privateKey
  {
    if data.Some? && Parse(data.value, w.host).Ok? {
      CatchingUpKeepsBook(d, data.value, w);
    }
  }

  lemma CatchingUpKeepsBook(d: Core, data: FileData, w: MeshdRuns.World)
    requires BookOk(d.book) && Parse(data, w.host).Ok?
    ensures var e := CaughtUp(d, data, Parse(data, w.host).value);
      BookOk(e.book) && e.cfg.privateKey == d.cfg.privateKey
  {
    var c := Parse(data, w.host).value;
    MeshdRuns.ParsedEntries(data, w);
    WithManualEditsOk(d.book, c.peers, UsesServer(d.cfg));
  }

  /** The end of a pass. */
  lemma FinishedArrives(curve: Key -> Key, w: MeshdRuns.World, d: Core, pub: Key, l: Link, x: Conditions,
                        first: Outcome, synced: bool, second: Outcome, g: Books)
    requires OnCourse(curve, pub, d, l, g)
    requires (if synced then second else first) == UpToDate ==> LinkMatches(d, pub, l, g)
    requires (if synced then second else first) != NoAddressYet && g.Some? ==> Ready(curve, d, pub, l, g)
    ensures Arrived(curve, pub, d, Finished(w, d, l, x, first, synced, second), g)
  {
    SaveKeepsBook(d, x.atSave, w, x.writable);
  }

  lemma UpdatedReady(curve: Key -> Key, d: Core, pub: Key, l: Link, c: Circumstances, g: Books)
    requires BookOk(d.book) && curve(d.cfg.privateKey) == pub
    requires LinkConsistent(curve, l, g) && PossibleFor(d, pub, l, c)
    ensures var (m, o) := UpdateTunnel(curve, d, pub, l, c);
      var h := UpdateBooks(curve, d, pub, l, c, g);
      o != NoAddressYet ==> (h.Some? ==> Ready(curve, d, pub, m, h)) && (m.tunnel.Some? ==> m.addr == d.cfg.address)
  {
    UpdateConverges(curve, d, pub, l, c, g);
  }

  /** A pass without a sync, or with one that failed. */
  lemma UnsyncedArrives(curve: Key -> Key, w: MeshdRuns.World, d1: Core, d2: Core, pub: Key, l: Link, x: Conditions,
                        o: Outcome, g: Books)
    requires OnCourse(curve, pub, d1, l, g) && BookOk(d2.book) && SameForTunnel(d1, d2)
    requires o == UpToDate ==> LinkMatches(d1, pub, l, g)
    requires o != NoAddressYet ==> (g.Some? ==> Ready(curve, d1, pub, l, g)) && (l.tunnel.Some? ==> l.addr == d1.cfg.address)
    ensures Arrived(curve, pub, d2, Finished(w, d2, l, x, o, false, NoAddressYet), g)
  {
    if o == UpToDate {
      MatchesTransfers(d1, d2, pub, l, g);
    }
    if o != NoAddressYet && l.tunnel.Some? && g.Some? {
      ReadyTransfers(curve, d1, d2, pub, l, g);
    }
    FinishedArrives(curve, w, d2, pub, l, x, o, false, NoAddressYet, g);
  }

  /** The rest of a pass after its first update. */
  lemma RestArrives(curve: Key -> Key, w: MeshdRuns.World, d1: Core, pub: Key, l1: Link, x: Conditions, o1: Outcome, g1: Books)
    requires OnCourse(curve, pub, d1, l1, g1) && o1 != NotOpened
    requires o1 == UpToDate ==> LinkMatches(d1, pub, l1, g1)
    requires o1 != NoAddressYet ==> (g1.Some? ==> Ready(curve, d1, pub, l1, g1)) && (l1.tunnel.Some? ==> l1.addr == d1.cfg.address)
    requires PossibleAfter(w, d1, pub, l1, x, o1)
    ensures Arrived(curve, pub, AfterSync(w, d1, x).0, Rest(curve, w, d1, pub, l1, x, o1), RestBooks(curve, w, d1, pub, l1, x, o1, g1))
  {
    AfterSyncFacts(w, d1, x);
    var (d2, synced) := AfterSync(w, d1, x);
    if !synced {
      UnsyncedArrives(curve, w, d1, d2, pub, l1, x, o1, g1);
    } else {
      UpdateConverges(curve, d2, pub, l1, x.second, g1);
      UpdatedReady(curve, d2, pub, l1, x.second, g1);
      var (l2, o2) := UpdateTunnel(curve, d2, pub, l1, x.second);
      var g2 := UpdateBooks(curve, d2, pub, l1, x.second, g1);
      if o2 != NotOpened {
        FinishedArrives(curve, w, d2, pub, l2, x, o1, true, o2, g2);
      }
    }
  }

  /** After a pass the device has exactly the static and synced peers but this
      machine, and those of other tools, as the book has them, whatever the
      server sent, if the pass's last update succeeded; and if not, the tunnel
      owes them and another pass may try again. It does not matter whether the
      tunnel owed something before. */
  lemma PassConverges(curve: Key -> Key, w: MeshdRuns.World, d: Core, pub: Key, l: Link, x: Conditions, g: Books)
    requires OnCourse(curve, pub, d, l, g) && PossibleOrders(curve, w, d, pub, l, x)
    ensures var seen := AfterSync(w, CheckConfig(d, x.atCheck, w.host), x).0;
      Arrived(curve, pub, seen, BringUpToDate(curve, w, d, pub, l, x), PassBooks(curve, w, d, pub, l, x, g))
  {
    var d1 := CheckConfig(d, x.atCheck, w.host);
    var l0, g0 := DropDead(l, x.died), DropDeadBooks(g, x.died);
    CheckKeepsBook(d, x.atCheck, w);
    UpdateConverges(curve, d1, pub, l0, x.first, g0);
    UpdatedReady(curve, d1, pub, l0, x.first, g0);
    var (l1, o1) := UpdateTunnel(curve, d1, pub, l0, x.first);
    if o1 != NotOpened {
      RestArrives(curve, w, d1, pub, l1, x, o1, UpdateBooks(curve, d1, pub, l0, x.first, g0));
    }
  }

  /** A save that meets no unseen edit changes nothing of this: the device
      matches the book as it is after the pass. */
  lemma QuietPassConverges(curve: Key -> Key, w: MeshdRuns.World, d: Core, pub: Key, l: Link, x: Conditions, g: Books)
    requires OnCourse(curve, pub, d, l, g) && PossibleOrders(curve, w, d, pub, l, x) && QuietSave(w, d, x)
    ensures var r := BringUpToDate(curve, w, d, pub, l, x);
      Arrived(curve, pub, r.core, r, PassBooks(curve, w, d, pub, l, x, g))
  {
    PassConverges(curve, w, d, pub, l, x, g);
    PassCore(curve, w, d, pub, l, x);
    var r := BringUpToDate(curve, w, d, pub, l, x);
    var h := PassBooks(curve, w, d, pub, l, x, g);
    var seen := AfterSync(w, CheckConfig(d, x.atCheck, w.host), x).0;
    if r.first != NotOpened && r.second != NotOpened {
      if LastOutcome(r) == UpToDate {
        MatchesTransfers(seen, r.core, pub, r.link, h);
      }
      if LastOutcome(r) != NoAddressYet && h.Some? {
        ReadyTransfers(curve, seen, r.core, pub, r.link, h);
      }
    }
  }

  /** The core after a pass that gets to its end, or the link if it does not. */
  ghost predicate Ended(seen: Core, r: PassResult) {
    if r.first == NotOpened || r.second == NotOpened then r.link == NO_LINK && LastOutcome(r) == NotOpened
    else SameForTunnel(seen, r.core) && r.core.cfg == seen.cfg
  }

  lemma FinishedEnds(w: MeshdRuns.World, d: Core, l: Link, x: Conditions, first: Outcome, synced: bool, second: Outcome)
    requires (x.atSave.None? || x.atSave == d.lastRead) && first != NotOpened && second != NotOpened
    ensures Ended(d, Finished(w, d, l, x, first, synced, second))
  {
    SaveIsSameForTunnel(d, x.atSave, w.host, x.writable);
  }

  lemma RestEnds(curve: Key -> Key, w: MeshdRuns.World, d1: Core, pub: Key, l1: Link, x: Conditions, o1: Outcome)
    requires x.atSave.None? || x.atSave == d1.lastRead
    requires o1 == NotOpened ==> l1 == NO_LINK
    ensures Ended(AfterSync(w, d1, x).0, Rest(curve, w, d1, pub, l1, x, o1))
  {
    AfterSyncFacts(w, d1, x);
    var (d2, synced) := AfterSync(w, d1, x);
    if o1 != NotOpened {
      if !synced {
        FinishedEnds(w, d2, l1, x, o1, false, NoAddressYet);
      } else {
        var (l2, o2) := UpdateTunnel(curve, d2, pub, l1, x.second);
        if o2 != NotOpened {
          FinishedEnds(w, d2, l2, x, o1, true, o2);
        }
      }
    }
  }

  lemma PassCore(curve: Key -> Key, w: MeshdRuns.World, d: Core, pub: Key, l: Link, x: Conditions)
    requires QuietSave(w, d, x)
    ensures Ended(AfterSync(w, CheckConfig(d, x.atCheck, w.host), x).0, BringUpToDate(curve, w, d, pub, l, x))
  {
    var d1 := CheckConfig(d, x.atCheck, w.host);
    var (l1, o1) := UpdateTunnel(curve, d1, pub, DropDead(l, x.died), x.first);
    RestEnds(curve, w, d1, pub, l1, x, o1);
  }

  /** While the check finds nothing new, a failed update is simply tried again. */
  lemma QuietCheckIsReady(curve: Key -> Key, w: MeshdRuns.World, d: Core, pub: Key, l: Link, g: Books, data: Option<FileData>)
    requires Ready(curve, d, pub, l, g)
    requires data.None? || data == d.lastRead || Parse(data.value, w.host).Err?
    ensures Ready(curve, CheckConfig(d, data, w.host), pub, l, g)
  {
    ReadyTransfers(curve, d, CheckConfig(d, data, w.host), pub, l, g);
  }

  // Pass after pass

  /** Another tool may have changed the device before a pass. */
  datatype Turn = Turn(meddled: Option<Device>, x: Conditions)

  function MeddledLink(l: Link, m: Option<Device>): Link {
    if m.Some? && l.tunnel.Some? then l.(tunnel := Some(l.tunnel.value.(dev := m.value))) else l
  }

  ghost function MeddledBooks(curve: Key -> Key, l: Link, m: Option<Device>, g: Books): Books {
    if m.None? || l.tunnel.None? then g
    else if g.None? || !Allowed(curve, l.tunnel.value, g.value, Meddle(m.value)) then None
    else Some(Next(curve, l.tunnel.value, g.value, Meddle(m.value)))
  }

  lemma MeddlingKeepsCourse(curve: Key -> Key, pub: Key, d: Core, l: Link, m: Option<Device>, g: Books)
    requires OnCourse(curve, pub, d, l, g)
    ensures OnCourse(curve, pub, d, MeddledLink(l, m), MeddledBooks(curve, l, m, g))
  {
    if m.Some? && l.tunnel.Some? && g.Some? && Allowed(curve, l.tunnel.value, g.value, Meddle(m.value)) {
      MeddlingKeepsConsistent(curve, l.tunnel.value, g.value, m.value);
    }
  }

  /** A run of passes, each under its own conditions. */
  ghost function LastPass(curve: Key -> Key, w: MeshdRuns.World, d: Core, pub: Key, l: Link, turns: seq<Turn>): PassResult {
    if turns == [] then PassResult(d, l, None, NoAddressYet, false, NoAddressYet)
    else
      var r, last := LastPass(curve, w, d, pub, l, turns[..|turns| - 1]), turns[|turns| - 1];
      BringUpToDate(curve, w, r.core, pub, MeddledLink(r.link, last.meddled), last.x)
  }

  ghost function LastBooks(curve: Key -> Key, w: MeshdRuns.World, d: Core, pub: Key, l: Link, turns: seq<Turn>, g: Books): Books {
    if turns == [] then g
    else
      var front, last := turns[..|turns| - 1], turns[|turns| - 1];
      var r, h := LastPass(curve, w, d, pub, l, front), LastBooks(curve, w, d, pub, l, front, g);
      PassBooks(curve, w, r.core, pub, MeddledLink(r.link, last.meddled), last.x, MeddledBooks(curve, r.link, last.meddled, h))
  }

  /** The removal orders of each pass are possible ones. */
  ghost predicate PossibleTurns(curve: Key -> Key, w: MeshdRuns.World, d: Core, pub: Key, l: Link, turns: seq<Turn>) {
    turns == [] ||
    (var front, last := turns[..|turns| - 1], turns[|turns| - 1];
     && PossibleTurns(curve, w, d, pub, l, front)
     && var r := LastPass(curve, w, d, pub, l, front);
        PossibleOrders(curve, w, r.core, pub, MeddledLink(r.link, last.meddled), last.x))
  }

  /** Over any number of passes, with edits, dead tunnels, changed addresses,
      other tools, and failed updates, syncs and saves among them: what is on the
      books is right, and if they are kept, then after each pass whose last update
      succeeds the device matches the book that it was updated to. */
  lemma {:induction false} EveryPassConverges(curve: Key -> Key, w: MeshdRuns.World, d: Core, pub: Key, l: Link,
                                              turns: seq<Turn>, g: Books)
    requires OnCourse(curve, pub, d, l, g) && PossibleTurns(curve, w, d, pub, l, turns)
    ensures var r, h := LastPass(curve, w, d, pub, l, turns), LastBooks(curve, w, d, pub, l, turns, g);
      && OnCourse(curve, pub, r.core, r.link, h)
      && (turns != [] ==>
            var before := LastPass(curve, w, d, pub, l, turns[..|turns| - 1]).core;
            var x := turns[|turns| - 1].x;
            && Arrived(curve, pub, AfterSync(w, CheckConfig(before, x.atCheck, w.host), x).0, r, h)
            && (QuietSave(w, before, x) ==> Arrived(curve, pub, r.core, r, h)))
  {
    if turns != [] {
      var front, last := turns[..|turns| - 1], turns[|turns| - 1];
      EveryPassConverges(curve, w, d, pub, l, front, g);
      var r, h := LastPass(curve, w, d, pub, l, front), LastBooks(curve, w, d, pub, l, front, g);
      MeddlingKeepsCourse(curve, pub, r.core, r.link, last.meddled, h);
      var link, books := MeddledLink(r.link, last.meddled), MeddledBooks(curve, r.link, last.meddled, h);
      PassConverges(curve, w, r.core, pub, link, last.x, books);
      if QuietSave(w, r.core, last.x) {
        QuietPassConverges(curve, w, r.core, pub, link, last.x, books);
      }
    }
  }
}
