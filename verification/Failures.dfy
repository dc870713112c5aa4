/** Runs that end badly, from a daemon that has just loaded an ordinary file. */
module Failures {
  import opened Wrappers
  import opened Ordering
  import opened Keys
  import opened Netip
  import opened Text
  import opened PeerBook
  import opened ConfigFile
  import opened Meshd
  import opened SavedFile
  import opened MeshdRuns
  import opened PeerMemory
  import opened Pass
  import PassRuns
  import EndToEnd
  import Overlap
  import Wg = WgState
  import Device
  import Apply

  /** A machine that uses a server, with these peers in its file. */
  function Configured(address: Prefix, peers: seq<Peer>): FileConfig {
    FileConfig("s", "", "", "m", DEFAULT_LISTEN_PORT, DEFAULT_KEEPALIVE, 0, 1, address, peers)
  }

  function FileOf(address: Prefix, peers: seq<Peer>): FileData { Marshal(Configured(address, peers)) }

  lemma {:induction false} ConfiguredIsRead(address: Prefix, peers: seq<Peer>, host: Option<string>)
    requires AcceptablePeers(peers) && NormalPeers(peers) == peers
    ensures Parse(FileOf(address, peers), host) == Ok(Configured(address, peers))
  {
    var c := Configured(address, peers);
    assert TrimSpace("s") == "s";
    assert Utf8Length("m") == 1;
    ValidateExact(c, host);
  }

  /** The daemon that has just loaded it. */
  function JustStarted(address: Prefix, peers: seq<Peer>): State {
    State(Started(Configured(address, peers)), FileOf(address, peers), Configured(address, peers), false)
  }

  // An unset key

  const SELF: Prefix := Prefix(1, 24)

  /** A server's answer with one peer, whose key text stands for 32 zero bytes. */
  function ZeroKeyAnswer(text: string): Replies {
    Replies(NotRegistered, Answered("", [ServerPeer(text, "n", AddrText(2), "")], 30), NotRegistered, NotSynced)
  }

  function ZeroKeyPeer(): Peer { Peer(Synced, "n", ZERO_KEY, [Prefix(2, 32)], NoAddrPort) }

  lemma ZeroKeyIsTaken(parseKey: string -> Option<Key>, text: string)
    requires parseKey(text) == Some(ZERO_KEY)
    ensures PeerFromServer(parseKey, ServerPeer(text, "n", AddrText(2), "")) == Some(ZeroKeyPeer())
  {
    EndToEnd.AddressIsRead(2);
    assert TrimSpace("") == "";
  }

  /** A daemon after a sync that succeeds at once with a list of one. */
  lemma SyncsOne(w: World, d: Core, q: ServerPeer, p: Peer)
    requires PeerFromServer(w.parseKey, q) == Some(p) && d.cfg.address.Prefix? && d.book == EMPTY_BOOK
    ensures var e := SyncServer(d, w.parseKey, Replies(NotRegistered, Answered("", [q], 30), NotRegistered, NotSynced)).0;
      p.publicKey in e.book.syncedPeers && e.book.dirty && e.cfg.serverURL == d.cfg.serverURL && e.lastRead == d.lastRead
  {
    var replies := Replies(NotRegistered, Answered("", [q], 30), NotRegistered, NotSynced);
    SyncTakesAnswer(d, w.parseKey, replies);
    assert q in [q];
    var list := ServerPeers(w.parseKey, [q]);
    assert p in list;
    ServerListExact(d.book, list, p.publicKey);
    assert WithServerList(d.book, list).syncedPeers != map[];
  }

  /** The daemon has that peer. */
  lemma ZeroKeyInBook(w: World, text: string)
    requires w.parseKey(text) == Some(ZERO_KEY)
    ensures var t := Step(w, JustStarted(SELF, []), Sync(ZeroKeyAnswer(text)));
      && Invariant(w, t) && t.core.book.dirty && !t.torn && t.file == FileOf(SELF, [])
      && ZERO_KEY in t.core.book.syncedPeers && UsesServer(t.core.cfg)
  {
    var s := JustStarted(SELF, []);
    ConfiguredIsRead(SELF, [], w.host);
    StartInvariant(w, s.file);
    StepKeepsInvariant(w, s, Sync(ZeroKeyAnswer(text)));
    ZeroKeyIsTaken(w.parseKey, text);
    NothingLoaded();
    SyncsOne(w, s.core, ServerPeer(text, "n", AddrText(2), ""), ZeroKeyPeer());
  }

  /** The server lists one machine whose key is unset. The daemon takes it, saves
      it, and has written a file that it does not accept any more. */
  lemma {:induction false} ZeroKeyIsSaved(w: World, text: string)
    requires w.parseKey(text) == Some(ZERO_KEY)
    ensures var end := Run(w, JustStarted(SELF, []), [Sync(ZeroKeyAnswer(text)), Save(true, true)]);
      end.core.lastRead == Some(end.file) && Parse(end.file, w.host).Err?
  {
    var t := Step(w, JustStarted(SELF, []), Sync(ZeroKeyAnswer(text)));
    ConfiguredIsRead(SELF, [], w.host);
    ZeroKeyInBook(w, text);
    RunOfTwo(w, JustStarted(SELF, []), Sync(ZeroKeyAnswer(text)), Save(true, true));
    ZeroKeyIsWritten(w, t);
  }

  lemma ZeroKeyIsWritten(w: World, t: State)
    requires Invariant(w, t) && t.core.book.dirty && !t.torn && t.file == FileOf(SELF, [])
    requires Parse(t.file, w.host) == Ok(Configured(SELF, []))
    requires ZERO_KEY in t.core.book.syncedPeers && UsesServer(t.core.cfg)
    ensures var end := Step(w, t, Save(true, true)); end.core.lastRead == Some(end.file) && Parse(end.file, w.host).Err?
  {
    SaveThenRestart(w, t);
    ZeroKeyIsAdded(t.core, t.file, Configured(SELF, []));
    SaveWrites(w, t);
  }

  lemma NothingLoaded()
    ensures Started(Configured(SELF, [])).book == EMPTY_BOOK && Started(Configured(NoPrefix, [])).book == EMPTY_BOOK
  {
  }

  lemma ZeroKeyIsAdded(d: Core, file: FileData, disk: FileConfig)
    requires disk.peers == [] && BookOk(d.book) && ZERO_KEY in d.book.syncedPeers
    requires UsesServer(d.cfg) && UsesServer(disk)
    ensures !NoZeroKey(CaughtUp(d, file, disk), disk)
  {
    StillSynced(d, file, disk, ZERO_KEY);
    SyncedIsAdded(CaughtUp(d, file, disk), disk, ZERO_KEY);
  }

  lemma StillSynced(d: Core, file: FileData, disk: FileConfig, k: Key)
    requires disk.peers == [] && BookOk(d.book) && k in d.book.syncedPeers
    ensures BookOk(CaughtUp(d, file, disk).book) && k in CaughtUp(d, file, disk).book.syncedPeers
    ensures CaughtUp(d, file, disk).cfg.serverURL == d.cfg.serverURL
  {
    assert Only(disk.peers, Static) == [] && Only(disk.peers, Blocked) == [];
    WithManualEditsOk(d.book, disk.peers, UsesServer(d.cfg));
  }

  lemma SyncedIsAdded(e: Core, disk: FileConfig, k: Key)
    requires disk.peers == [] && BookOk(e.book) && k in e.book.syncedPeers
    ensures e.book.syncedPeers[k].publicKey == k && e.book.syncedPeers[k] in SavedFile.Added(e, disk)
  {
    var p := e.book.syncedPeers[k];
    assert Manual(disk.peers) == [] && KeysIn([]) == {};
    assert p in e.book.syncedPeers.Values && p in SavedPeers(e.book);
  }

  // Reverted bytes

  /** The server registers the machine and then stops answering. */
  const REGISTERED: Replies := Replies(Registered(AddrText(3), "-"), NotSynced, NotRegistered, NotSynced)

  lemma RegistrationIsOwed(d: Core, parseKey: string -> Option<Key>)
    requires d.cfg.address.NoPrefix?
    ensures var e := SyncServer(d, parseKey, REGISTERED).0;
      NeedsSave(e) && e.lastRead == d.lastRead && e.book == d.book && e.cfg.serverURL == d.cfg.serverURL
  {
    AddrParses(3);
    SyncTakesAnswer(d, parseKey, REGISTERED);
  }

  function PinnedPeer(): Peer { Peer(Static, "p", 5, [Prefix(0, 0)], NoAddrPort) }

  lemma PinnedIsAccepted()
    ensures AcceptablePeers([PinnedPeer()]) && NormalPeers([PinnedPeer()]) == [PinnedPeer()]
    ensures ByKey(Only([PinnedPeer()], Static)) != map[]
  {
    AllIsMasked();
    SingletonIsFine(PinnedPeer());
    SingletonIsIndexed(PinnedPeer());
  }

  lemma SingletonIsIndexed(p: Peer)
    ensures p.publicKey in ByKey(Only([p], p.source))
  {
    assert p in [p] && p in Only([p], p.source);
  }

  lemma ZeroIsMasked()
    ensures Masked(Prefix(0, 0)) == Prefix(0, 0)
  {
    assert Masked(Prefix(0, 0)).addr <= 0;
  }

  /** Six things happen to a daemon that has just started: it checks its file,
      gets an address, finds someone's pinned peer when it saves the address but
      cannot write, and finds it gone when it can. It has written the file
      without the peer, and goes on using it. */
  lemma {:induction false} PinSurvivesItsRemoval(w: World)
    ensures var file, edited := FileOf(NoPrefix, []), FileOf(NoPrefix, [PinnedPeer()]);
      var end := Run(w, JustStarted(NoPrefix, []),
        [Check(true), Sync(REGISTERED)] + [Edit(edited), Save(true, false), Edit(file), Save(true, true)]);
      && end.core.lastRead == Some(end.file) && end.file == Marshal(end.adopted)
      && end.core.book.staticPeers != ByKey(Only(end.adopted.peers, Static))
      && !Invariant(w, end)
  {
    var file, edited := FileOf(NoPrefix, []), FileOf(NoPrefix, [PinnedPeer()]);
    var s := JustStarted(NoPrefix, []);
    var first, rest := [Check(true), Sync(REGISTERED)], [Edit(edited), Save(true, false), Edit(file), Save(true, true)];
    PinnedIsAccepted();
    ConfiguredIsRead(NoPrefix, [], w.host);
    ConfiguredIsRead(NoPrefix, [PinnedPeer()], w.host);
    RegisteredAndOwing(w);
    PassRuns.RunAppend(w, s, first, rest);
    RevertedEditSticks(w, Run(w, s, first), edited);
  }

  lemma {:induction false} RegisteredAndOwing(w: World)
    ensures var t := Run(w, JustStarted(NoPrefix, []), [Check(true), Sync(REGISTERED)]);
      Invariant(w, t) && NeedsSave(t.core) && !t.torn && t.core.lastRead == Some(t.file) && t.file == FileOf(NoPrefix, [])
  {
    var s := JustStarted(NoPrefix, []);
    ConfiguredIsRead(NoPrefix, [], w.host);
    StartInvariant(w, s.file);
    StepKeepsInvariant(w, s, Check(true));
    var t := Step(w, s, Check(true));
    assert UsesServer(t.core.cfg) && t.core.cfg.address.NoPrefix?;
    RegistrationIsOwed(t.core, w.parseKey);
    StepKeepsInvariant(w, t, Sync(REGISTERED));
    RunOfTwo(w, s, Check(true), Sync(REGISTERED));
  }

  // Overlaps

  function Pinned(k: Key): Peer { Peer(Static, "", k, [Prefix(0, 0)], NoAddrPort) }

  /** Two pinned peers with the same prefix pass the check of the file, so that a
      target in which two peers claim it can be asked for. */
  lemma OverlapIsAccepted(k: Key, l: Key, host: Option<string>)
    requires ZERO_KEY != k && k != l && l != ZERO_KEY
    ensures Parse(FileOf(SELF, [Pinned(k), Pinned(l)]), host) == Ok(Configured(SELF, [Pinned(k), Pinned(l)]))
    ensures ClaimsOf(Pinned(k)) == ClaimsOf(Pinned(l)) == {Prefix(0, 0)}
  {
    PinnedIsNormal(k);
    PinnedIsNormal(l);
    assert NormalPeers([Pinned(k), Pinned(l)]) == [Pinned(k), Pinned(l)];
    ConfiguredIsRead(SELF, [Pinned(k), Pinned(l)], host);
    ZeroIsMasked();
    assert Prefix(0, 0) in Pinned(k).allowedIPs && Prefix(0, 0) in Pinned(l).allowedIPs;
  }

  /** A pass that checks the file, and neither syncs nor saves. */
  function PlainTurn(data: FileData, order: seq<Key>): Turn {
    var nobody := Replies(NotRegistered, NotSynced, NotRegistered, NotSynced);
    Turn(None, Conditions(false, Some(data), Circumstances(true, order, None), false, nobody,
                          Circumstances(true, [], None), None, false))
  }

  lemma PlainPass(curve: Key -> Key, w: World, d: Core, pub: Key, l: Link, data: FileData, order: seq<Key>)
    ensures var d1 := CheckConfig(d, Some(data), w.host);
      var (m, o) := UpdateTunnel(curve, d1, pub, l, Circumstances(true, order, None));
      var r := BringUpToDate(curve, w, d, pub, l, PlainTurn(data, order).x);
      r.core == d1 && r.link == m && r.first == o && !r.synced
  {
  }

  /** The tunnel's settings of such a machine, and what it wants for a pinned
      peer. */
  const IFACE: Wg.Interface := Wg.Interface(1, SELF, DEFAULT_LISTEN_PORT, 0)

  function PinnedTunnelPeer(k: Key): Wg.Peer { TunnelPeer(Pinned(k), DEFAULT_KEEPALIVE) }

  /** The daemon follows a file with these pinned peers and has no others. */
  ghost predicate HasPinned(d: Core, file: FileData, peers: seq<Peer>) {
    && d.cfg == Configured(SELF, peers).(peers := d.cfg.peers)
    && d.book.staticPeers == ByKey(peers) && d.book.syncedPeers == map[] && d.book.blockedPeers == map[]
    && d.lastRead == Some(file)
  }

  lemma {:induction false} OnlyPinned(peers: seq<Peer>)
    requires forall p :: p in peers ==> p.source == Static
    ensures Only(peers, Static) == peers && Only(peers, Blocked) == [] && Only(peers, Synced) == []
  {
    OnlyAll(peers, Static);
    OnlyNone(peers, Blocked);
    OnlyNone(peers, Synced);
  }

  /** Such a daemon that reads another such file follows it. */
  lemma ReadsPinned(d: Core, file: FileData, was: seq<Peer>, peers: seq<Peer>, host: Option<string>)
    requires d.cfg == Configured(SELF, was).(peers := d.cfg.peers) && d.book.syncedPeers == map[]
    requires Parse(FileOf(SELF, peers), host) == Ok(Configured(SELF, peers)) && d.lastRead != Some(FileOf(SELF, peers))
    requires forall p :: p in peers ==> p.source == Static
    ensures HasPinned(CheckConfig(d, Some(FileOf(SELF, peers)), host), FileOf(SELF, peers), peers)
  {
    OnlyPinned(peers);
    NewFileIsTaken(d, FileOf(SELF, peers), Configured(SELF, peers), host);
  }

  lemma NewFileIsTaken(d: Core, data: FileData, c: FileConfig, host: Option<string>)
    requires Parse(data, host) == Ok(c) && d.lastRead != Some(data)
    ensures CheckConfig(d, Some(data), host) == UseEdits(d.(lastRead := Some(data)), c)
  {
  }

  lemma JustStartedPinned(peers: seq<Peer>)
    requires forall p :: p in peers ==> p.source == Static
    ensures var d := JustStarted(SELF, peers).core;
      d.cfg == Configured(SELF, peers) && d.book.syncedPeers == map[] && d.lastRead == None
  {
    OnlyPinned(peers);
  }

  lemma OneIsSorted(k: Key)
    ensures SortedPeers(ByKey([Pinned(k)])) == [Pinned(k)]
  {
    assert ByKey([]) == map[];
    assert ByKey([Pinned(k)]) == map[k := Pinned(k)];
    SortedUnique(SortedPeers(ByKey([Pinned(k)])), [Pinned(k)], PeerRank);
  }

  lemma ByKeyOfTwo(k: Key, l: Key)
    requires k != l
    ensures ByKey([Pinned(k), Pinned(l)]) == map[k := Pinned(k), l := Pinned(l)]
  {
    assert [Pinned(k), Pinned(l)][..1] == [Pinned(k)] && [Pinned(k)][..0] == [];
    assert ByKey([]) == map[];
    assert ByKey([Pinned(k)]) == map[k := Pinned(k)];
  }

  lemma TwoAreSorted(k: Key, l: Key)
    requires k < l
    ensures SortedPeers(ByKey([Pinned(k), Pinned(l)])) == [Pinned(k), Pinned(l)]
  {
    ByKeyOfTwo(k, l);
    var m := ByKey([Pinned(k), Pinned(l)]);
    assert m[k] == Pinned(k) && m[l] == Pinned(l);
    assert m.Values == {Pinned(k), Pinned(l)};
    KeyOrder(k, l);
    SortedUnique(SortedPeers(m), [Pinned(k), Pinned(l)], PeerRank);
  }

  lemma TargetOfTwo(d: Core, pub: Key, k: Key, l: Key)
    requires HasPinned(d, FileOf(SELF, [Pinned(k), Pinned(l)]), [Pinned(k), Pinned(l)]) && k < l && pub != k && pub != l
    ensures Target(d, pub, SELF) == Wg.Config(IFACE, [PinnedTunnelPeer(k), PinnedTunnelPeer(l)])
  {
    TwoAreSorted(k, l);
    assert d.book.staticPeers + d.book.syncedPeers == d.book.staticPeers;
    ListOfTwo(pub, k, l);
  }

  lemma {:induction false} ListOfTwo(pub: Key, k: Key, l: Key)
    requires pub != k && pub != l
    ensures TunnelPeerList([Pinned(k), Pinned(l)], pub, DEFAULT_KEEPALIVE) == [PinnedTunnelPeer(k), PinnedTunnelPeer(l)]
  {
    assert [Pinned(k), Pinned(l)][..1] == [Pinned(k)] && [Pinned(k)][..0] == [];
    assert TunnelPeerList([], pub, DEFAULT_KEEPALIVE) == [];
    assert TunnelPeerList([Pinned(k)], pub, DEFAULT_KEEPALIVE) == [PinnedTunnelPeer(k)];
  }

  lemma TargetOfOne(d: Core, pub: Key, k: Key)
    requires HasPinned(d, FileOf(SELF, [Pinned(k)]), [Pinned(k)]) && pub != k
    ensures Target(d, pub, SELF) == Wg.Config(IFACE, [PinnedTunnelPeer(k)])
  {
    OneIsSorted(k);
    assert d.book.staticPeers + d.book.syncedPeers == d.book.staticPeers;
    assert [Pinned(k)][..0] == [];
    assert TunnelPeerList([], pub, DEFAULT_KEEPALIVE) == [];
  }

  lemma PinnedCovers(curve: Key -> Key, k: Key, l: Key)
    requires k != l && curve(1) != k && curve(1) != l
    ensures Overlap.Covers(curve, IFACE, PinnedTunnelPeer(k), PinnedTunnelPeer(l))
  {
    assert Prefix(0, 0) in PinnedTunnelPeer(k).allowedIPs;
    assert Wg.Claims(PinnedTunnelPeer(k)) == Wg.Claims(PinnedTunnelPeer(l)) != {} by {
      assert Masked(Prefix(0, 0)) in Wg.Claims(PinnedTunnelPeer(k));
      assert PinnedTunnelPeer(k).allowedIPs == PinnedTunnelPeer(l).allowedIPs;
    }
  }

  /** An update that opens the tunnel is an Apply to a new one. */
  lemma UpdateOfNewTunnel(curve: Key -> Key, d: Core, pub: Key, addr: Prefix, c: Circumstances)
    requires d.cfg.address == addr && addr.Prefix? && c.opens
    ensures var (u, ok) := Apply.ApplyStep(curve, Apply.NEW_TUNNEL, Target(d, pub, addr), c.order, c.fault);
      UpdateTunnel(curve, d, pub, NO_LINK, c) == (Link(Some(u), addr), if ok then UpToDate else NotApplied)
  {
  }

  lemma FirstUpdate(curve: Key -> Key, d1: Core, k: Key, l: Key)
    requires k < l && curve(1) != k && curve(1) != l
    requires HasPinned(d1, FileOf(SELF, [Pinned(k), Pinned(l)]), [Pinned(k), Pinned(l)])
    ensures UpdateTunnel(curve, d1, curve(1), NO_LINK, Circumstances(true, [], None)) ==
      (Link(Some(Apply.ApplyStep(curve, Apply.NEW_TUNNEL,
                                 Wg.Config(IFACE, [PinnedTunnelPeer(k), PinnedTunnelPeer(l)]), [], None).0), SELF), UpToDate)
  {
    TargetOfTwo(d1, curve(1), k, l);
    PinnedCovers(curve, k, l);
    var (u, ok) := Apply.ApplyStep(curve, Apply.NEW_TUNNEL, Wg.Config(IFACE, [PinnedTunnelPeer(k), PinnedTunnelPeer(l)]), [], None);
    assert ok by {
      Overlap.OverlapSteps(curve, IFACE, PinnedTunnelPeer(k), PinnedTunnelPeer(l));
    }
    UpdateOfNewTunnel(curve, d1, curve(1), SELF, Circumstances(true, [], None));
  }

  /** After the file with both. */
  lemma FirstPass(curve: Key -> Key, w: World, k: Key, l: Key)
    requires ZERO_KEY != k && k < l && curve(1) != k && curve(1) != l
    ensures var both := [Pinned(k), Pinned(l)];
      var r := BringUpToDate(curve, w, JustStarted(SELF, both).core, curve(1), NO_LINK, PlainTurn(FileOf(SELF, both), []).x);
      && r.first == UpToDate && !r.synced && HasPinned(r.core, FileOf(SELF, both), both)
      && r.link == Link(Some(Apply.ApplyStep(curve, Apply.NEW_TUNNEL,
                                             Wg.Config(IFACE, [PinnedTunnelPeer(k), PinnedTunnelPeer(l)]), [], None).0), SELF)
  {
    var both := [Pinned(k), Pinned(l)];
    var d := JustStarted(SELF, both).core;
    OverlapIsAccepted(k, l, w.host);
    JustStartedPinned(both);
    ReadsPinned(d, FileOf(SELF, both), both, both, w.host);
    FirstUpdate(curve, CheckConfig(d, Some(FileOf(SELF, both)), w.host), k, l);
    PlainPass(curve, w, d, curve(1), NO_LINK, FileOf(SELF, both), []);
  }

  lemma OneIsAccepted(k: Key, host: Option<string>)
    requires ZERO_KEY != k
    ensures Parse(FileOf(SELF, [Pinned(k)]), host) == Ok(Configured(SELF, [Pinned(k)]))
  {
    PinnedIsNormal(k);
    SingletonIsFine(Pinned(k));
    ConfiguredIsRead(SELF, [Pinned(k)], host);
  }

  lemma SingletonIsFine(p: Peer)
    requires NormalPeer(p) == p && AcceptablePeer(p)
    ensures NormalPeers([p]) == [p] && AcceptablePeers([p])
  {
  }

  /** A list of the one prefix that Pinned peers have is masked. */
  lemma AllIsMasked()
    ensures MaskAll([Prefix(0, 0)]) == [Prefix(0, 0)]
  {
    ZeroIsMasked();
    assert MaskAll([Prefix(0, 0)])[0] == Prefix(0, 0);
  }

  lemma PinnedIsNormal(k: Key)
    requires ZERO_KEY != k
    ensures NormalPeer(Pinned(k)) == Pinned(k) && AcceptablePeer(Pinned(k))
  {
    AllIsMasked();
  }

  lemma SecondUpdate(curve: Key -> Key, d1: Core, t: Apply.TunnelState, k: Key, l: Key)
    requires k < l && curve(1) != k && curve(1) != l
    requires HasPinned(d1, FileOf(SELF, [Pinned(k)]), [Pinned(k)])
    requires t == Apply.ApplyStep(curve, Apply.NEW_TUNNEL,
                                  Wg.Config(IFACE, [PinnedTunnelPeer(k), PinnedTunnelPeer(l)]), [], None).0
    ensures var (m, o) := UpdateTunnel(curve, d1, curve(1), Link(Some(t), SELF), Circumstances(true, [l], None));
      o == UpToDate && m.tunnel.Some? && Device.Owned(m.tunnel.value.dev, k) == {}
  {
    TargetOfOne(d1, curve(1), k);
    PinnedCovers(curve, k, l);
    var (u, ok) := Apply.ApplyStep(curve, t, Wg.Config(IFACE, [PinnedTunnelPeer(k)]), [l], None);
    assert ok && Device.Owned(u.dev, k) == {} by {
      Overlap.OverlapSteps(curve, IFACE, PinnedTunnelPeer(k), PinnedTunnelPeer(l));
    }
    UpdateOfOpenTunnel(curve, d1, curve(1), t, SELF, Circumstances(true, [l], None));
  }

  /** An update of a tunnel that lives on is an Apply of the target. */
  lemma UpdateOfOpenTunnel(curve: Key -> Key, d: Core, pub: Key, t: Apply.TunnelState, addr: Prefix, c: Circumstances)
    requires d.cfg.address == addr && addr.Prefix?
    ensures var (u, ok) := Apply.ApplyStep(curve, t, Target(d, pub, addr), c.order, c.fault);
      UpdateTunnel(curve, d, pub, Link(Some(t), addr), c) == (Link(Some(u), addr), if ok then UpToDate else NotApplied)
  {
  }

  lemma OtherFile(k: Key, l: Key)
    ensures FileOf(SELF, [Pinned(k)]) != FileOf(SELF, [Pinned(k), Pinned(l)])
  {
    assert |[Pinned(k)]| != |[Pinned(k), Pinned(l)]|;
  }

  /** And after the second has been taken out of the file. */
  lemma SecondPass(curve: Key -> Key, w: World, d: Core, t: Apply.TunnelState, k: Key, l: Key)
    requires ZERO_KEY != k && k < l && curve(1) != k && curve(1) != l
    requires HasPinned(d, FileOf(SELF, [Pinned(k), Pinned(l)]), [Pinned(k), Pinned(l)])
    requires t == Apply.ApplyStep(curve, Apply.NEW_TUNNEL,
                                  Wg.Config(IFACE, [PinnedTunnelPeer(k), PinnedTunnelPeer(l)]), [], None).0
    ensures var one := [Pinned(k)];
      var r := BringUpToDate(curve, w, d, curve(1), Link(Some(t), SELF), PlainTurn(FileOf(SELF, one), [l]).x);
      && r.first == UpToDate && !r.synced && HasPinned(r.core, FileOf(SELF, one), one)
      && r.link.tunnel.Some? && Device.Owned(r.link.tunnel.value.dev, k) == {}
  {
    var one := [Pinned(k)];
    OneIsAccepted(k, w.host);
    OtherFile(k, l);
    ReadsPinned(d, FileOf(SELF, one), [Pinned(k), Pinned(l)], one, w.host);
    SecondUpdate(curve, CheckConfig(d, Some(FileOf(SELF, one)), w.host), t, k, l);
    PlainPass(curve, w, d, curve(1), Link(Some(t), SELF), FileOf(SELF, one), [l]);
  }

  /** A daemon starts with two pinned peers that claim the same prefix, and makes
      a pass; one of them is taken out of the file, and it makes another. Both
      passes report success, and the peer that is left has no prefix. */
  lemma {:induction false} OverlapOutlivesItself(curve: Key -> Key, w: World, k: Key, l: Key)
    requires ZERO_KEY != k && k < l && curve(1) != k && curve(1) != l
    ensures var both, one := [Pinned(k), Pinned(l)], [Pinned(k)];
      var turns := [PlainTurn(FileOf(SELF, both), []), PlainTurn(FileOf(SELF, one), [l])];
      var s := JustStarted(SELF, both);
      var first, second := PassRuns.Life(curve, w, s, curve(1), turns[..1]).last, PassRuns.Life(curve, w, s, curve(1), turns).last;
      && first.first == UpToDate && second.first == UpToDate
      && second.core.book.staticPeers == map[k := Pinned(k)] && second.core.book.syncedPeers == map[]
      && second.link.tunnel.Some? && Device.Owned(second.link.tunnel.value.dev, k) == {}
  {
    var both, one := [Pinned(k), Pinned(l)], [Pinned(k)];
    var s := JustStarted(SELF, both);
    var a, b := PlainTurn(FileOf(SELF, both), []), PlainTurn(FileOf(SELF, one), [l]);
    FirstPass(curve, w, k, l);
    var t := Apply.ApplyStep(curve, Apply.NEW_TUNNEL, Wg.Config(IFACE, [PinnedTunnelPeer(k), PinnedTunnelPeer(l)]), [], None).0;
    var r := BringUpToDate(curve, w, s.core, curve(1), NO_LINK, a.x);
    SecondPass(curve, w, r.core, t, k, l);
    TwoTurns(curve, w, s, curve(1), a, b);
    assert ByKey([]) == map[];
  }

  /** What two turns are. */
  lemma {:induction false} TwoTurns(curve: Key -> Key, w: World, s: State, pub: Key, a: Turn, b: Turn)
    requires a.meddled.None? && b.meddled.None?
    ensures var r := BringUpToDate(curve, w, s.core, pub, NO_LINK, a.x);
      && PassRuns.Life(curve, w, s, pub, [a, b][..1]).last == r
      && PassRuns.Life(curve, w, s, pub, [a, b]).last == BringUpToDate(curve, w, r.core, pub, r.link, b.x)
  {
    assert [a, b][..1] == [a] && [a][..0] == [];
    var m0 := PassRuns.Life(curve, w, s, pub, []);
    var m1 := PassRuns.NextMoment(curve, w, m0, pub, a);
    assert PassRuns.Life(curve, w, s, pub, [a]) == m1;
    PassRuns.PassIsRun(curve, w, PassRuns.Found(s, a.x.atCheck), pub, NO_LINK, a.x);
    assert PassRuns.Life(curve, w, s, pub, [a, b]) == PassRuns.NextMoment(curve, w, m1, pub, b);
  }
}
