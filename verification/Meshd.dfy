/** The daemon's settings, book and file, and the steps that change them. The
    tunnel follows in the module Pass. */
module Meshd {
  import opened Wrappers
  import opened Sequences
  import opened Text
  import opened Keys
  import opened Netip
  import opened PeerBook
  import opened ConfigFile

  datatype Core = Core(
    cfg: FileConfig,             // what is in force, edits included
    book: BookState,
    unsaved: bool,               // the file lacks the current address
    newKey: bool,                // the file lacks the current key
    lastRead: Option<FileData>)  // the bytes that need no second look

  /** A daemon that has just started with the configuration it loaded. */
  function Started(c: FileConfig): Core {
    Core(c, Loaded(EMPTY_BOOK, c.peers, UsesServer(c)), false, false, None)
  }

  // Edits

  /** useEdits: what takes effect without a restart. */
  function UseEdits(d: Core, c: FileConfig): Core {
    d.(book := WithManualEdits(d.book, c.peers, UsesServer(d.cfg)),
       cfg := d.cfg.(listenPort := c.listenPort, keepalive := c.keepalive, name := c.name,
                     address := if UsesServer(d.cfg) then d.cfg.address else c.address))
  }

  /** An edit changes the port, the keepalive and the name, without a server the
      address, and the peers; nothing else, and it leaves open what is to save. */
  lemma EditChangesOnly(d: Core, c: FileConfig)
    ensures var e := UseEdits(d, c);
      && e.cfg.listenPort == c.listenPort && e.cfg.keepalive == c.keepalive && e.cfg.name == c.name
      && (d.cfg.serverURL == [] ==> e.cfg.address == c.address)
      && (d.cfg.serverURL != [] ==> e.cfg.address == d.cfg.address)
      && e.cfg.(listenPort := d.cfg.listenPort, keepalive := d.cfg.keepalive, name := d.cfg.name, address := d.cfg.address) == d.cfg
      && e.unsaved == d.unsaved && e.newKey == d.newKey && e.lastRead == d.lastRead
  {
  }

  /** checkConfig; no data means that the file could not be read. */
  function CheckConfig(d: Core, data: Option<FileData>, host: Option<string>): Core {
    if data.None? || data == d.lastRead then d
    else
      match Parse(data.value, host)
      case Err(_) => d.(lastRead := data)
      case Ok(c) => UseEdits(d.(lastRead := data), c)
  }

  // Saving

  /** The entries of the file that meshd leaves alone. */
  function Manual(list: seq<Peer>): (r: seq<Peer>)
    ensures forall p :: p in r <==> p in list && p.source != Synced
  {
    if list == [] then []
    else
      var front, last := list[..|list| - 1], list[|list| - 1];
      FrontAndLast(list);
      if last.source != Synced then Manual(front) + [last] else Manual(front)
  }

  function KeysIn(list: seq<Peer>): set<Key> {
    set p | p in list :: p.publicKey
  }

  /** The entries of list whose keys are not in s. */
  function NotIn(list: seq<Peer>, s: set<Key>): (r: seq<Peer>)
    ensures forall p :: p in r <==> p in list && p.publicKey !in s
  {
    if list == [] then []
    else
      var front, last := list[..|list| - 1], list[|list| - 1];
      FrontAndLast(list);
      if last.publicKey !in s then NotIn(front, s) + [last] else NotIn(front, s)
  }

  function Merged(onDisk: seq<Peer>, fromServer: seq<Peer>): seq<Peer> {
    Manual(onDisk) + NotIn(fromServer, KeysIn(Manual(onDisk)))
  }

  /** A manual entry of the list has this key. */
  ghost predicate ListsManually(list: seq<Peer>, k: Key) {
    exists p :: p in list && p.source != Synced && p.publicKey == k
  }

  /** out has the entries of onDisk that are not the server's, as they are and in
      their order, and after them the entries of fromServer, in theirs, whose keys
      are not among them. `at` and `bt` tell where they come from. */
  ghost predicate MergedFrom(onDisk: seq<Peer>, fromServer: seq<Peer>, out: seq<Peer>, at: seq<nat>, bt: seq<nat>) {
    && |out| == |at| + |bt|
    && Picks(onDisk, at, out[..|at|]) && Picks(fromServer, bt, out[|at|..])
    && (forall n :: 0 <= n < |onDisk| ==> (n in at <==> onDisk[n].source != Synced))
    && (forall n :: 0 <= n < |fromServer| ==> (n in bt <==> !ListsManually(onDisk, fromServer[n].publicKey)))
  }

  /** Which entries of the list are manual. */
  function ManualMarks(list: seq<Peer>): (r: seq<bool>)
    ensures |r| == |list| && forall n :: 0 <= n < |list| ==> (r[n] <==> list[n].source != Synced)
  {
    if list == [] then [] else ManualMarks(list[..|list| - 1]) + [list[|list| - 1].source != Synced]
  }

  /** Which entries of the list have a key that is not in s. */
  function OtherMarks(list: seq<Peer>, s: set<Key>): (r: seq<bool>)
    ensures |r| == |list| && forall n :: 0 <= n < |list| ==> (r[n] <==> list[n].publicKey !in s)
  {
    if list == [] then [] else OtherMarks(list[..|list| - 1], s) + [list[|list| - 1].publicKey !in s]
  }

  lemma {:induction false} ManualPicksMarked(list: seq<Peer>) returns (at: seq<nat>)
    ensures PicksMarked(list, at, Manual(list), ManualMarks(list))
  {
    if list == [] {
      at := [];
    } else {
      var front, last := list[..|list| - 1], list[|list| - 1];
      FrontAndLast(list);
      at := ManualPicksMarked(front);
      if last.source != Synced {
        MarkedLast(front, last, at, Manual(front), ManualMarks(front));
        at := at + [|front|];
      } else {
        MarkedNot(front, last, at, Manual(front), ManualMarks(front));
      }
    }
  }

  lemma {:induction false} NotInPicksMarked(list: seq<Peer>, s: set<Key>) returns (at: seq<nat>)
    ensures PicksMarked(list, at, NotIn(list, s), OtherMarks(list, s))
  {
    if list == [] {
      at := [];
    } else {
      var front, last := list[..|list| - 1], list[|list| - 1];
      FrontAndLast(list);
      at := NotInPicksMarked(front, s);
      if last.publicKey !in s {
        MarkedLast(front, last, at, NotIn(front, s), OtherMarks(front, s));
        at := at + [|front|];
      } else {
        MarkedNot(front, last, at, NotIn(front, s), OtherMarks(front, s));
      }
    }
  }

  lemma {:induction false} ManualPicks(list: seq<Peer>) returns (at: seq<nat>)
    ensures Picks(list, at, Manual(list))
    ensures forall n :: 0 <= n < |list| ==> (n in at <==> list[n].source != Synced)
  {
    at := ManualPicksMarked(list);
  }

  lemma {:induction false} NotInPicks(list: seq<Peer>, s: set<Key>) returns (at: seq<nat>)
    ensures Picks(list, at, NotIn(list, s))
    ensures forall n :: 0 <= n < |list| ==> (n in at <==> list[n].publicKey !in s)
  {
    at := NotInPicksMarked(list, s);
  }

  lemma {:induction false} ManualKeys(list: seq<Peer>, k: Key)
    ensures k in KeysIn(Manual(list)) <==> ListsManually(list, k)
  {
    if ListsManually(list, k) {
      var p :| p in list && p.source != Synced && p.publicKey == k;
      assert p in Manual(list);
    }
  }

  lemma MergedInOrder(onDisk: seq<Peer>, fromServer: seq<Peer>)
    ensures exists at, bt :: MergedFrom(onDisk, fromServer, Merged(onDisk, fromServer), at, bt)
  {
    var at := ManualPicks(onDisk);
    var bt := NotInPicks(fromServer, KeysIn(Manual(onDisk)));
    var out := Merged(onDisk, fromServer);
    assert out[..|at|] == Manual(onDisk) && out[|at|..] == NotIn(fromServer, KeysIn(Manual(onDisk)));
    forall n | 0 <= n < |fromServer|
      ensures n in bt <==> !ListsManually(onDisk, fromServer[n].publicKey)
    {
      ManualKeys(onDisk, fromServer[n].publicKey);
    }
    assert MergedFrom(onDisk, fromServer, out, at, bt);
  }

  /** What saveFile makes of the configuration on disk. */
  ghost function ToWrite(d: Core, disk: FileConfig): FileConfig {
    var keyed := if d.newKey then disk.(privateKey := d.cfg.privateKey) else disk;
    if UsesServer(d.cfg) && UsesServer(disk) then
      keyed.(address := d.cfg.address, peers := Merged(disk.peers, SavedPeers(d.book)))
    else keyed
  }

  /** saveFile's daemon once it has taken up edits it had not seen. */
  function CaughtUp(d: Core, data: FileData, disk: FileConfig): Core {
    if Some(data) == d.lastRead then d else UseEdits(d, disk)
  }

  /** The daemon after it has written out. */
  function Written(d: Core, out: FileConfig): Core {
    d.(lastRead := Some(Marshal(out)), unsaved := false, newKey := false, book := d.book.(dirty := false))
  }

  /** saveFile, and the file it wrote, if it did. */
  ghost function SaveFile(d: Core, data: Option<FileData>, host: Option<string>, writable: bool): (Core, Option<FileData>) {
    if data.None? then (d, None)
    else
      match Parse(data.value, host)
      case Err(_) => (d, None)
      case Ok(disk) =>
        var e := CaughtUp(d, data.value, disk);
        if !writable then (e, None)
        else
          var out := ToWrite(e, disk);
          (Written(e, out), Some(Marshal(out)))
  }

  predicate NeedsSave(d: Core) { d.unsaved || d.book.dirty }

  ghost function SaveIfNeeded(d: Core, data: Option<FileData>, host: Option<string>, writable: bool): (Core, Option<FileData>) {
    if NeedsSave(d) then SaveFile(d, data, host, writable) else (d, None)
  }

  // Syncing

  /** A peer as the server sends it. */
  datatype ServerPeer = ServerPeer(publicKey: string, name: string, vpnIP: string, endpoint: string)

  datatype RegisterReply = NotRegistered | Registered(vpnIP: string, vpnCIDR: string)

  datatype SyncReply = NotSynced | UnknownMachine | Answered(selfIP: string, peers: seq<ServerPeer>, interval: int)

  /** What the server answers to the requests of one sync, as far as they are
      made: register, sync, and both once more if the machine is not known. */
  datatype Replies = Replies(register1: RegisterReply, sync1: SyncReply, register2: RegisterReply, sync2: SyncReply)

  /** A peer book entry, unless the server sent it in a broken form. Base64 is
      not modelled: parseKey stands for it. */
  function PeerFromServer(parseKey: string -> Option<Key>, p: ServerPeer): (r: Option<Peer>)
    ensures r.Some? ==>
      && r.value.source == Synced && r.value.name == p.name
      && ParseAddr(TrimSpace(p.vpnIP)).Some?
      && r.value.allowedIPs == [Prefix(ParseAddr(TrimSpace(p.vpnIP)).value, 32)]
      && parseKey(p.publicKey) == Some(r.value.publicKey)
  {
    var key := parseKey(p.publicKey);
    var ip := ParseAddr(TrimSpace(p.vpnIP));
    var text := TrimSpace(p.endpoint);
    if key.None? || ip.None? then None
    else if text == [] then Some(Peer(Synced, p.name, key.value, [Prefix(ip.value, 32)], NoAddrPort))
    else
      match ParseAddrPort(text)
      case None => None
      case Some(e) => Some(Peer(Synced, p.name, key.value, [Prefix(ip.value, 32)], e))
  }

  function ServerPeers(parseKey: string -> Option<Key>, list: seq<ServerPeer>): (r: seq<Peer>)
    ensures forall p :: p in r ==> exists q :: q in list && PeerFromServer(parseKey, q) == Some(p)
    ensures forall q :: q in list && PeerFromServer(parseKey, q).Some? ==> PeerFromServer(parseKey, q).value in r
  {
    if list == [] then []
    else
      var front, last := list[..|list| - 1], list[|list| - 1];
      FrontAndLast(list);
      match PeerFromServer(parseKey, last)
      case None => ServerPeers(parseKey, front)
      case Some(p) => ServerPeers(parseKey, front) + [p]
  }

  /** The endpoint that a text means: none if it is blank, and otherwise the one
      that it spells, white space around it aside. */
  ghost predicate MeansEndpoint(text: string, e: AddrPort) {
    if AllSpace(text) then e == NoAddrPort else exists s :: IsTrimmed(text, s) && SpellsEndpoint(s, e)
  }

  /** p is what q means. */
  ghost predicate MeansPeer(parseKey: string -> Option<Key>, q: ServerPeer, p: Peer) {
    && p.source == Synced && p.name == q.name
    && parseKey(q.publicKey) == Some(p.publicKey)
    && (exists a: Addr :: IsTrimmed(q.vpnIP, AddrText(a)) && p.allowedIPs == [Prefix(a, 32)])
    && MeansEndpoint(q.endpoint, p.endpoint)
  }

  lemma {:induction false} TrimmedAddress(s: string, a: Addr)
    ensures ParseAddr(TrimSpace(s)) == Some(a) <==> IsTrimmed(s, AddrText(a))
  {
    AddrRoundTrip(TrimSpace(s), a);
    TrimmedIs(s, AddrText(a));
  }

  lemma {:induction false} TrimmedEndpoint(text: string, e: AddrPort)
    ensures MeansEndpoint(text, e) <==>
      if TrimSpace(text) == [] then e == NoAddrPort else ParseAddrPort(TrimSpace(text)) == Some(e)
  {
    TrimmedToNothing(text);
    AddrPortExact(TrimSpace(text), e);
    TrimSpaceExact(text);
    forall s | IsTrimmed(text, s)
      ensures s == TrimSpace(text)
    {
      TrimmedIs(text, s);
    }
  }

  /** An entry is taken if and only if its key, its address and its endpoint, if
      it has one, can be read, and as what they mean. */
  lemma PeerFromServerExact(parseKey: string -> Option<Key>, q: ServerPeer, p: Peer)
    ensures PeerFromServer(parseKey, q) == Some(p) <==> MeansPeer(parseKey, q, p)
  {
    TrimmedEndpoint(q.endpoint, p.endpoint);
    forall a: Addr
      ensures ParseAddr(TrimSpace(q.vpnIP)) == Some(a) <==> IsTrimmed(q.vpnIP, AddrText(a))
    {
      TrimmedAddress(q.vpnIP, a);
    }
  }

  /** out is what the readable entries of the list mean, in their order. */
  ghost predicate ReadFrom(parseKey: string -> Option<Key>, list: seq<ServerPeer>, out: seq<Peer>, at: seq<nat>) {
    && |out| == |at|
    && (forall i, j :: 0 <= i < j < |at| ==> at[i] < at[j])
    && (forall i :: 0 <= i < |at| ==> at[i] < |list| && MeansPeer(parseKey, list[at[i]], out[i]))
    && NoneLeftOut(parseKey, list, at)
  }

  ghost predicate NoneLeftOut(parseKey: string -> Option<Key>, list: seq<ServerPeer>, at: seq<nat>) {
    forall n :: 0 <= n < |list| && n !in at ==> !exists p :: MeansPeer(parseKey, list[n], p)
  }

  lemma NoneLeftOutSnoc(parseKey: string -> Option<Key>, front: seq<ServerPeer>, last: ServerPeer, at: seq<nat>)
    requires NoneLeftOut(parseKey, front, at)
    ensures NoneLeftOut(parseKey, front + [last], at + [|front|])
  {
    var now := at + [|front|];
    forall n | 0 <= n < |front + [last]| && n !in now
      ensures !exists p :: MeansPeer(parseKey, (front + [last])[n], p)
    {
      assert now[|at|] == |front|;
      assert n in at ==> n in now;
      assert (front + [last])[n] == front[n];
    }
  }

  lemma ReadOneMore(parseKey: string -> Option<Key>, front: seq<ServerPeer>, last: ServerPeer, out: seq<Peer>, at: seq<nat>, p: Peer)
    requires ReadFrom(parseKey, front, out, at) && MeansPeer(parseKey, last, p)
    ensures ReadFrom(parseKey, front + [last], out + [p], at + [|front|])
  {
    NoneLeftOutSnoc(parseKey, front, last, at);
    forall i | 0 <= i < |at|
      ensures (front + [last])[at[i]] == front[at[i]]
    {
    }
  }

  lemma ReadNoMore(parseKey: string -> Option<Key>, front: seq<ServerPeer>, last: ServerPeer, out: seq<Peer>, at: seq<nat>)
    requires ReadFrom(parseKey, front, out, at) && !exists p :: MeansPeer(parseKey, last, p)
    ensures ReadFrom(parseKey, front + [last], out, at)
  {
  }

  lemma {:induction false} ServerPeersInOrder(parseKey: string -> Option<Key>, list: seq<ServerPeer>) returns (at: seq<nat>)
    ensures ReadFrom(parseKey, list, ServerPeers(parseKey, list), at)
  {
    if list == [] {
      at := [];
    } else {
      var front, last := list[..|list| - 1], list[|list| - 1];
      FrontAndLast(list);
      at := ServerPeersInOrder(parseKey, front);
      ServerPeersSnoc(parseKey, front, last);
      at := ReadNext(parseKey, front, last, ServerPeers(parseKey, front), at);
    }
  }

  lemma UnreadableMeansNothing(parseKey: string -> Option<Key>, q: ServerPeer)
    requires PeerFromServer(parseKey, q).None?
    ensures !exists p :: MeansPeer(parseKey, q, p)
  {
    forall p
      ensures !MeansPeer(parseKey, q, p)
    {
      PeerFromServerExact(parseKey, q, p);
    }
  }

  lemma {:induction false} ServerPeersSnoc(parseKey: string -> Option<Key>, front: seq<ServerPeer>, last: ServerPeer)
    ensures PeerFromServer(parseKey, last).None? ==> ServerPeers(parseKey, front + [last]) == ServerPeers(parseKey, front)
    ensures PeerFromServer(parseKey, last).Some? ==>
      ServerPeers(parseKey, front + [last]) == ServerPeers(parseKey, front) + [PeerFromServer(parseKey, last).value]
  {
    FrontOfSnoc(front, last);
  }

  lemma ReadNext(parseKey: string -> Option<Key>, front: seq<ServerPeer>, last: ServerPeer, out: seq<Peer>, was: seq<nat>)
    returns (at: seq<nat>)
    requires ReadFrom(parseKey, front, out, was)
    ensures var p := PeerFromServer(parseKey, last);
      && (p.Some? ==> ReadFrom(parseKey, front + [last], out + [p.value], at))
      && (p.None? ==> ReadFrom(parseKey, front + [last], out, at))
  {
    var p := PeerFromServer(parseKey, last);
    if p.Some? {
      PeerFromServerExact(parseKey, last, p.value);
      ReadOneMore(parseKey, front, last, out, was, p.value);
      at := was + [|front|];
    } else {
      UnreadableMeansNothing(parseKey, last);
      ReadNoMore(parseKey, front, last, out, was);
      at := was;
    }
  }

  function SetAddress(d: Core, p: Prefix): Core {
    d.(cfg := d.cfg.(address := p), unsaved := true)
  }

  /** The address a registration assigns, if the reply makes sense. */
  function AssignedAddress(r: RegisterReply): Option<Prefix> {
    if r.NotRegistered? || r.vpnCIDR == [] then None
    else
      match ParseAddr(r.vpnIP)
      case None => None
      case Some(ip) =>
        var range := ParsePrefix(r.vpnCIDR);
        Some(Prefix(ip, if range.Some? && range.value.Prefix? then range.value.bits else 32))
  }

  /** The length that a range's text gives an address: the range's if it is one,
      else that of a single host. */
  ghost predicate MeansBits(text: string, bits: int) {
    && (forall p: Prefix :: p.Prefix? && text == PrefixText(p) ==> bits == p.bits)
    && ((forall p: Prefix :: p.Prefix? ==> text != PrefixText(p)) ==> bits == 32)
  }

  lemma AssignedAddressExact(r: RegisterReply, a: Prefix)
    ensures AssignedAddress(r) == Some(a) <==>
      r.Registered? && r.vpnCIDR != [] && a.Prefix? && r.vpnIP == AddrText(a.addr) && MeansBits(r.vpnCIDR, a.bits)
  {
    if r.Registered? {
      forall p: Prefix | p.Prefix?
        ensures ParsePrefix(r.vpnCIDR) == Some(p) <==> r.vpnCIDR == PrefixText(p)
      {
        PrefixRoundTrip(r.vpnCIDR, p);
      }
      if a.Prefix? {
        AddrRoundTrip(r.vpnIP, a.addr);
      }
    }
  }

  /** Registers; the flag tells whether that worked. */
  function RegisterOnce(d: Core, r: RegisterReply): (Core, bool) {
    match AssignedAddress(r)
    case None => (d, false)
    case Some(p) => (SetAddress(d, p), true)
  }

  /** Takes up a reply to a sync. */
  function TakeReply(d: Core, parseKey: string -> Option<Key>, reply: SyncReply): Core
    requires reply.Answered?
  {
    var ip := ParseAddr(reply.selfIP);
    var e := if ip.Some? && d.cfg.address.Prefix? && ip.value != d.cfg.address.addr
             then SetAddress(d, Prefix(ip.value, d.cfg.address.bits)) else d;
    e.(book := WithServerList(e.book, ServerPeers(parseKey, reply.peers)))
  }

  /** syncServer, and the interval the server asked for if it succeeded. */
  function SyncServer(d: Core, parseKey: string -> Option<Key>, r: Replies): (Core, Option<int>) {
    var (e, known) := if d.cfg.address.Prefix? then (d, true) else RegisterOnce(d, r.register1);
    if !known then (e, None)
    else if r.sync1.UnknownMachine? then
      var (f, again) := RegisterOnce(e, r.register2);
      if again && r.sync2.Answered? then (TakeReply(f, parseKey, r.sync2), Some(r.sync2.interval)) else (f, None)
    else if r.sync1.Answered? then (TakeReply(e, parseKey, r.sync1), Some(r.sync1.interval))
    else (e, None)
  }

  /** The answer that a sync ends with, if it gets that far. */
  function FinalAnswer(r: Replies): SyncReply {
    if r.sync1.UnknownMachine? then r.sync2 else r.sync1
  }

  /** What a registration changes. */
  lemma RegisterFacts(d: Core, r: RegisterReply)
    ensures var (e, ok) := RegisterOnce(d, r);
      && ok == AssignedAddress(r).Some?
      && e.book == d.book && e.lastRead == d.lastRead
      && e.cfg.(address := d.cfg.address) == d.cfg
      && (e.unsaved || e.cfg.address == d.cfg.address) && (d.unsaved ==> e.unsaved)
      && (ok ==> e.cfg.address == AssignedAddress(r).value && e.cfg.address.Prefix?) && (!ok ==> e == d)
  {
  }

  /** What an answer changes. */
  lemma AnswerFacts(d: Core, parseKey: string -> Option<Key>, reply: SyncReply)
    requires reply.Answered? && d.cfg.address.Prefix?
    ensures var e := TakeReply(d, parseKey, reply);
      && e.book == WithServerList(d.book, ServerPeers(parseKey, reply.peers)) && e.lastRead == d.lastRead
      && e.cfg.(address := d.cfg.address) == d.cfg
      && (e.unsaved || e.cfg.address == d.cfg.address) && (d.unsaved ==> e.unsaved)
      && AddressTold(d.cfg.address, reply.selfIP, e.cfg.address)
  {
  }

  /** The address p becomes q when the server says what it is: that one, with the
      length that it had; a text that is no address changes nothing. */
  predicate AddressTold(p: Prefix, said: string, q: Prefix) {
    && p.Prefix? && q.Prefix? && q.bits == p.bits
    && q.addr == (if ParseAddr(said).Some? then ParseAddr(said).value else p.addr)
  }

  /** The machine's address when it asks for the first time, if it gets so far. */
  function FirstAddress(d: Core, r: Replies): Option<Prefix> {
    if d.cfg.address.Prefix? then Some(d.cfg.address) else AssignedAddress(r.register1)
  }

  /** Its address when it asks for the last time. */
  function LastAddress(d: Core, r: Replies): Option<Prefix> {
    if r.sync1.UnknownMachine? then AssignedAddress(r.register2) else FirstAddress(d, r)
  }

  /** A sync succeeds exactly when the server has answered and every
      registration on the way has worked. Then the book has the list of that
      answer, the machine has the address that the answer names, with the length
      it had or was registered with, and the interval is the answer's. If not,
      the book is as it was, and what registrations brought is kept. */
  lemma SyncTakesAnswer(d: Core, parseKey: string -> Option<Key>, r: Replies)
    ensures var (e, interval) := SyncServer(d, parseKey, r);
      && (interval.Some? <==>
            FinalAnswer(r).Answered? && FirstAddress(d, r).Some? && LastAddress(d, r).Some?)
      && (interval.None? ==>
            && e.book == d.book
            && e.cfg.address == (if FirstAddress(d, r).None? then d.cfg.address
                                 else if LastAddress(d, r).None? then FirstAddress(d, r).value
                                 else LastAddress(d, r).value))
      && (interval.Some? ==>
            && interval.value == FinalAnswer(r).interval
            && e.book == WithServerList(d.book, ServerPeers(parseKey, FinalAnswer(r).peers))
            && AddressTold(LastAddress(d, r).value, FinalAnswer(r).selfIP, e.cfg.address))
      && e.cfg.(address := d.cfg.address) == d.cfg && e.lastRead == d.lastRead
      && (e.cfg.address != d.cfg.address ==> e.unsaved)
  {
    RegisterFacts(d, r.register1);
    var (e, known) := if d.cfg.address.Prefix? then (d, true) else RegisterOnce(d, r.register1);
    if known {
      RegisterFacts(e, r.register2);
      var (f, again) := RegisterOnce(e, r.register2);
      if r.sync1.UnknownMachine? {
        if again && r.sync2.Answered? {
          AnswerFacts(f, parseKey, r.sync2);
        }
      } else if r.sync1.Answered? {
        AnswerFacts(e, parseKey, r.sync1);
      }
    }
  }

  // The key

  /** ensureKey, when the machine has no key yet. */
  ghost function MakeKey(d: Core, key: Key, data: Option<FileData>, host: Option<string>, writable: bool): (Core, Option<FileData>) {
    if d.cfg.privateKey == ZERO_KEY then
      SaveFile(d.(cfg := d.cfg.(privateKey := key), newKey := true), data, host, writable)
    else (d, None)
  }
}
