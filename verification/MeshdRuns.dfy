/** What holds in every run of the daemon, with edits, failures, crashes and
    restarts in any order.

    Two things are tracked that the program does not keep. `adopted` is the
    configuration last taken from or written to the file. `torn` says that a
    save took up an edit it had not seen and then failed to write: only then is
    lastRead older than what is in use. */
module MeshdRuns {
  import opened Wrappers
  import opened Sequences
  import opened Keys
  import opened Netip
  import opened PeerBook
  import opened ConfigFile
  import opened Meshd
  import opened SavedFile

  datatype State = State(core: Core, file: FileData, adopted: FileConfig, torn: bool)

  datatype Event =
    | Edit(data: FileData)
    | Check(readable: bool)
    | Sync(replies: Replies)
    | Save(readable: bool, writable: bool)
    | NewKey(key: Key, readable: bool, writable: bool)
    | Restart

  /** The world outside the daemon that does not change: what the system calls
      this machine, and how base64 text stands for keys. */
  datatype World = World(host: Option<string>, parseKey: string -> Option<Key>)

  function Readable(s: State, readable: bool): Option<FileData> {
    if readable then Some(s.file) else None
  }

  function CheckStep(w: World, s: State, readable: bool): State {
    var core := CheckConfig(s.core, Readable(s, readable), w.host);
    if !readable || Some(s.file) == s.core.lastRead then s.(core := core)
    else
      match Parse(s.file, w.host)
      case Err(_) => s.(core := core, torn := false)
      case Ok(c) => State(core, s.file, c, false)
  }

  /** saveFile run on the daemon d. */
  ghost function SaveStep(w: World, s: State, d: Core, readable: bool, writable: bool): State {
    var (core, written) := SaveFile(d, Readable(s, readable), w.host, writable);
    if !readable || Parse(s.file, w.host).Err? then s.(core := core)
    else if written.Some? then State(core, written.value, written.value.config, false)
    else if Some(s.file) == d.lastRead then s.(core := core)
    else State(core, s.file, Parse(s.file, w.host).value, true)
  }

  ghost function Step(w: World, s: State, e: Event): State {
    match e
    case Edit(data) => s.(file := data)
    case Check(readable) => CheckStep(w, s, readable)
    case Sync(replies) => if UsesServer(s.core.cfg) then s.(core := SyncServer(s.core, w.parseKey, replies).0) else s
    case Save(readable, writable) => if NeedsSave(s.core) then SaveStep(w, s, s.core, readable, writable) else s
    case NewKey(key, readable, writable) =>
      if s.core.cfg.privateKey == ZERO_KEY
      then SaveStep(w, s, s.core.(cfg := s.core.cfg.(privateKey := key), newKey := true), readable, writable)
      else s
    case Restart =>
      match Parse(s.file, w.host)
      case Err(_) => s
      case Ok(c) => State(Started(c), s.file, c, false)
  }

  ghost function Run(w: World, s: State, events: seq<Event>): State {
    if events == [] then s else Step(w, Run(w, s, events[..|events| - 1]), events[|events| - 1])
  }

  lemma {:induction false} RunSnoc(w: World, s: State, events: seq<Event>, e: Event)
    ensures Run(w, s, events + [e]) == Step(w, Run(w, s, events), e)
  {
    FrontOfSnoc(events, e);
  }

  // The invariant

  /** The manual peers and the settings in use are those of c. */
  ghost predicate Follows(d: Core, c: FileConfig) {
    && d.book.staticPeers == ByKey(Only(c.peers, Static))
    && d.book.blockedPeers == ByKey(Only(c.peers, Blocked))
    && d.cfg.listenPort == c.listenPort
    && d.cfg.keepalive == c.keepalive
    && d.cfg.name == c.name
    && (!UsesServer(d.cfg) ==> d.cfg.address == c.address)
  }

  /** c has been through Validate, its unset keys aside. */
  ghost predicate WellFormed(c: FileConfig) {
    Normal(c) == c && DistinctKeys(c.peers) && forall p :: p in c.peers ==> KnownSource(p.source)
  }

  /** If nothing is left to save, c lists the server's peers as the book does. */
  ghost predicate SavedIn(d: Core, c: FileConfig) {
    !d.book.dirty && UsesServer(d.cfg) && UsesServer(c) ==> d.book.syncedPeers == ByKey(Only(c.peers, Synced))
  }

  /** The three maps share no key and hold entries under own keys; the server's
      are such as a server gives, and there are none without one. */
  ghost predicate Orderly(d: Core) {
    && BookOk(d.book)
    && SyncedFromServer(d.book)
    && (!UsesServer(d.cfg) ==> d.book.syncedPeers == map[])
  }

  ghost predicate Good(w: World, d: Core, c: FileConfig) {
    && Orderly(d)
    && WellFormed(c)
    && Follows(d, c)
    && SavedIn(d, c)
  }

  /** What was last read, if it was in order, is what was last adopted. */
  ghost predicate Linked(w: World, s: State) {
    s.core.lastRead.Some? && Parse(s.core.lastRead.value, w.host).Ok? ==>
      Parse(s.core.lastRead.value, w.host) == Ok(s.adopted)
  }

  ghost predicate Invariant(w: World, s: State) {
    Good(w, s.core, s.adopted) && (!s.torn ==> Linked(w, s))
  }

  // Entries

  lemma ParsedEntries(data: FileData, w: World)
    requires Parse(data, w.host).Ok?
    ensures WellFormed(Parse(data, w.host).value)
    ensures forall p :: p in Parse(data, w.host).value.peers && p.source == Synced ==> ServerEntry(p)
  {
    var c := Parse(data, w.host).value;
    ParsedInUse(data, w.host);
    AllNormalIsNormal(c.peers);
    forall p | p in c.peers && p.source == Synced
      ensures ServerEntry(p)
    {
      var i :| 0 <= i < |c.peers| && c.peers[i] == p;
      assert AcceptablePeer(c.peers[i]) && NormalEntry(c.peers[i]);
    }
  }

  lemma {:induction false} ServerEntriesAreNormal(w: World, list: seq<ServerPeer>)
    ensures forall p :: p in ServerPeers(w.parseKey, list) ==> ServerEntry(p)
  {
    forall p | p in ServerPeers(w.parseKey, list)
      ensures ServerEntry(p)
    {
      var q :| q in list && PeerFromServer(w.parseKey, q) == Some(p);
      SingleHostIsNormal(p);
    }
  }

  lemma SingleHostIsNormal(p: Peer)
    requires p.source == Synced && |p.allowedIPs| == 1 && p.allowedIPs[0].Prefix? && p.allowedIPs[0].bits == 32
    ensures ServerEntry(p)
  {
    assert Masked(p.allowedIPs[0]) == p.allowedIPs[0];
    assert MaskAll(p.allowedIPs) == p.allowedIPs;
  }

  // Each step

  lemma StartedGood(w: World, data: FileData)
    requires Parse(data, w.host).Ok?
    ensures Good(w, Started(Parse(data, w.host).value), Parse(data, w.host).value)
  {
    var c := Parse(data, w.host).value;
    ParsedEntries(data, w);
    LoadedOk(EMPTY_BOOK, c.peers, UsesServer(c));
  }

  /** Taking up an edit: the book follows it, and what it says of the server's
      peers is corrected by the next save. */
  lemma UseEditsGood(w: World, d: Core, edited: FileConfig)
    requires Orderly(d) && WellFormed(edited)
    ensures Good(w, UseEdits(d, edited), edited)
  {
    WithManualEditsOk(d.book, edited.peers, UsesServer(d.cfg));
    SameMapsIsEquality(ByKey(Only(edited.peers, Synced)), WithManualEdits(d.book, edited.peers, UsesServer(d.cfg)).syncedPeers);
  }

  lemma {:induction false} ServerListGood(w: World, d: Core, c: FileConfig, list: seq<ServerPeer>)
    requires Good(w, d, c) && UsesServer(d.cfg)
    ensures Good(w, d.(book := WithServerList(d.book, ServerPeers(w.parseKey, list))), c)
  {
    var entries := ServerPeers(w.parseKey, list);
    var b := WithServerList(d.book, entries);
    ServerEntriesAreNormal(w, list);
    WithServerListOk(d.book, entries);
    SameMapsIsEquality(d.book.syncedPeers, b.syncedPeers);
    forall k | k in b.syncedPeers
      ensures ServerEntry(b.syncedPeers[k])
    {
      var p :| p in entries && b.syncedPeers[k] == p.(source := Synced);
      assert ServerEntry(p);
    }
  }

  lemma SetAddressGood(w: World, d: Core, c: FileConfig, p: Prefix)
    requires Good(w, d, c) && UsesServer(d.cfg)
    ensures Good(w, SetAddress(d, p), c)
  {
  }

  lemma RegisterGood(w: World, d: Core, c: FileConfig, r: RegisterReply)
    requires Good(w, d, c) && UsesServer(d.cfg)
    ensures Good(w, RegisterOnce(d, r).0, c) && UsesServer(RegisterOnce(d, r).0.cfg)
  {
  }

  lemma TakeReplyGood(w: World, d: Core, c: FileConfig, reply: SyncReply)
    requires Good(w, d, c) && UsesServer(d.cfg) && reply.Answered?
    ensures Good(w, TakeReply(d, w.parseKey, reply), c)
  {
    var ip := ParseAddr(reply.selfIP);
    if ip.Some? && d.cfg.address.Prefix? && ip.value != d.cfg.address.addr {
      var e := SetAddress(d, Prefix(ip.value, d.cfg.address.bits));
      SetAddressGood(w, d, c, Prefix(ip.value, d.cfg.address.bits));
      ServerListGood(w, e, c, reply.peers);
    } else {
      ServerListGood(w, d, c, reply.peers);
    }
  }

  lemma SyncGood(w: World, d: Core, c: FileConfig, r: Replies)
    requires Good(w, d, c) && UsesServer(d.cfg)
    ensures Good(w, SyncServer(d, w.parseKey, r).0, c)
    ensures SyncServer(d, w.parseKey, r).0.lastRead == d.lastRead
  {
    RegisterGood(w, d, c, r.register1);
    var e := if d.cfg.address.Prefix? then d else RegisterOnce(d, r.register1).0;
    RegisterGood(w, e, c, r.register2);
    if r.sync1.Answered? {
      TakeReplyGood(w, e, c, r.sync1);
    }
    if r.sync2.Answered? {
      TakeReplyGood(w, RegisterOnce(e, r.register2).0, c, r.sync2);
    }
  }

  lemma CheckKeepsInvariant(w: World, s: State, readable: bool)
    requires Invariant(w, s)
    ensures Invariant(w, CheckStep(w, s, readable))
  {
    if readable && Some(s.file) != s.core.lastRead && Parse(s.file, w.host).Ok? {
      ReadRestores(w, s);
    }
  }

  /** A successful save on a daemon that follows the file. */
  lemma WriteGood(w: World, d: Core, disk: FileConfig)
    requires BookOk(d.book) && SyncedFromServer(d.book) && WellFormed(disk) && Follows(d, disk)
    requires !UsesServer(d.cfg) ==> d.book.syncedPeers == map[]
    ensures Good(w, Written(d, ToWrite(d, disk)), ToWrite(d, disk))
  {
    WrittenIsNormal(d, disk);
    if UsesServer(d.cfg) && UsesServer(disk) {
      MergeGood(d, disk);
    }
  }

  lemma MergeGood(d: Core, disk: FileConfig)
    requires BookOk(d.book) && WellFormed(disk) && Follows(d, disk)
    ensures var out := Merged(disk.peers, SavedPeers(d.book));
      && DistinctKeys(out)
      && (forall p :: p in out ==> KnownSource(p.source))
      && ByKey(Only(out, Static)) == d.book.staticPeers
      && ByKey(Only(out, Blocked)) == d.book.blockedPeers
      && ByKey(Only(out, Synced)) == d.book.syncedPeers
  {
    var out := Merged(disk.peers, SavedPeers(d.book));
    ManualMapsKept(d, disk);
    NothingLeftOut(d, disk);
    MergedParts(d, disk);
    SortedPeersByKey(d.book.syncedPeers);
    forall p | p in out
      ensures KnownSource(p.source)
    {
      if p !in Manual(disk.peers) {
        assert p in SavedPeers(d.book);
      }
    }
  }

  /** The manual entries of the written file are those on disk. */
  lemma ManualMapsKept(d: Core, disk: FileConfig)
    requires BookOk(d.book) && DistinctKeys(disk.peers)
    ensures var out := Merged(disk.peers, SavedPeers(d.book));
      Only(out, Static) == Only(disk.peers, Static) && Only(out, Blocked) == Only(disk.peers, Blocked)
  {
    MergedParts(d, disk);
    var out := Merged(disk.peers, SavedPeers(d.book));
    OnlyOfManual(out, Static);
    OnlyOfManual(out, Blocked);
    OnlyOfManual(disk.peers, Static);
    OnlyOfManual(disk.peers, Blocked);
  }

  /** When the file's manual entries are the book's, the merge leaves none of
      the server's peers out. */
  lemma NothingLeftOut(d: Core, disk: FileConfig)
    requires BookOk(d.book) && WellFormed(disk) && Follows(d, disk)
    ensures Meshd.NotIn(SavedPeers(d.book), KeysIn(Manual(disk.peers))) == SavedPeers(d.book)
  {
    forall q | q in Manual(disk.peers)
      ensures q.publicKey !in d.book.syncedPeers
    {
      ManualEntryIsMapped(disk.peers, q);
    }
    assert forall p :: p in SavedPeers(d.book) ==> p.publicKey in d.book.syncedPeers;
    NotInAll(SavedPeers(d.book), KeysIn(Manual(disk.peers)));
  }

  lemma {:induction false} ManualEntryIsMapped(list: seq<Peer>, q: Peer)
    requires q in list && KnownSource(q.source) && q.source != Synced
    ensures q.publicKey in ByKey(Only(list, Static)) || q.publicKey in ByKey(Only(list, Blocked))
  {
    if q.source == Static {
      assert q in Only(list, Static);
    } else {
      assert q in Only(list, Blocked);
    }
  }

  /** The one situation in which a save would write over manual entries that
      the book does not have: an edit taken up by a save that then failed, and
      the file put back to the bytes read before. */
  ghost predicate Reverted(s: State) {
    s.torn && s.core.lastRead == Some(s.file)
  }

  /** The daemon that is about to write follows the file it has read. */
  lemma CaughtUpFollows(w: World, s: State, d: Core)
    requires Invariant(w, s) && Good(w, d, s.adopted) && d.lastRead == s.core.lastRead
    requires Parse(s.file, w.host).Ok? && !Reverted(s)
    ensures Good(w, CaughtUp(d, s.file, Parse(s.file, w.host).value), Parse(s.file, w.host).value)
  {
    ParsedEntries(s.file, w);
    UseEditsGood(w, d, Parse(s.file, w.host).value);
  }

  /** Nothing is read, or nothing in order. */
  lemma NoSaveKeepsInvariant(w: World, s: State, d: Core)
    requires Invariant(w, s) && Good(w, d, s.adopted) && d.lastRead == s.core.lastRead
    ensures Invariant(w, s.(core := d))
  {
    assert Linked(w, s) ==> Linked(w, s.(core := d));
  }

  /** The file is in order but cannot be written. */
  lemma FailingKeepsInvariant(w: World, s: State, d: Core)
    requires Invariant(w, s) && Good(w, d, s.adopted) && d.lastRead == s.core.lastRead
    requires Parse(s.file, w.host).Ok?
    ensures Invariant(w, SaveStep(w, s, d, true, false))
  {
    var disk := Parse(s.file, w.host).value;
    FailingSteps(w, s, d);
    if Some(s.file) == d.lastRead {
      NoSaveKeepsInvariant(w, s, d);
    } else {
      ParsedEntries(s.file, w);
      UseEditsGood(w, d, disk);
    }
  }

  lemma WritingSteps(w: World, s: State, d: Core)
    requires Parse(s.file, w.host).Ok?
    ensures var disk := Parse(s.file, w.host).value;
      var e := CaughtUp(d, s.file, disk);
      SaveStep(w, s, d, true, true) == State(Written(e, ToWrite(e, disk)), Marshal(ToWrite(e, disk)), ToWrite(e, disk), false)
  {
  }

  /** A key that was made is written. */
  lemma KeyIsWritten(w: World, s: State, d: Core)
    requires Parse(s.file, w.host).Ok? && d.newKey
    ensures var t := SaveStep(w, s, d, true, true);
      && t.core == SaveFile(d, Some(s.file), w.host, true).0
      && !t.torn && t.core.lastRead == Some(t.file) && t.file == Marshal(t.adopted)
      && t.core.cfg.privateKey == d.cfg.privateKey && t.adopted.privateKey == d.cfg.privateKey
      && !t.core.newKey && !NeedsSave(t.core)
  {
    WritingSteps(w, s, d);
  }

  lemma FailingSteps(w: World, s: State, d: Core)
    requires Parse(s.file, w.host).Ok?
    ensures var disk := Parse(s.file, w.host).value;
      SaveStep(w, s, d, true, false)
        == if Some(s.file) == d.lastRead then s.(core := d) else State(UseEdits(d, disk), s.file, disk, true)
  {
  }

  /** The file is in order and is written. */
  lemma WritingKeepsInvariant(w: World, s: State, d: Core)
    requires Invariant(w, s) && Good(w, d, s.adopted) && d.lastRead == s.core.lastRead
    requires Parse(s.file, w.host).Ok? && !Reverted(s)
    ensures Invariant(w, SaveStep(w, s, d, true, true))
  {
    var disk := Parse(s.file, w.host).value;
    var e := CaughtUp(d, s.file, disk);
    var out := ToWrite(e, disk);
    CaughtUpFollows(w, s, d);
    WritingSteps(w, s, d);
    WrittenKeepsInvariant(w, e, s.file);
  }

  lemma WrittenKeepsInvariant(w: World, e: Core, file: FileData)
    requires Parse(file, w.host).Ok? && Good(w, e, Parse(file, w.host).value)
    ensures var out := ToWrite(e, Parse(file, w.host).value);
      Invariant(w, State(Written(e, out), Marshal(out), out, false))
  {
    var disk := Parse(file, w.host).value;
    ParsedInUse(file, w.host);
    WriteGood(w, e, disk);
    WrittenIsReadBack(e, disk, w.host);
  }

  lemma SaveKeepsInvariant(w: World, s: State, d: Core, readable: bool, writable: bool)
    requires Invariant(w, s) && Good(w, d, s.adopted) && d.lastRead == s.core.lastRead
    requires readable && writable ==> !Reverted(s)
    ensures Invariant(w, SaveStep(w, s, d, readable, writable))
  {
    if !readable || Parse(s.file, w.host).Err? {
      NoSaveKeepsInvariant(w, s, d);
      assert SaveStep(w, s, d, readable, writable) == s.(core := d);
    } else if writable {
      WritingKeepsInvariant(w, s, d);
    } else {
      FailingKeepsInvariant(w, s, d);
    }
  }

  /** Does the event save over reverted bytes? */
  ghost predicate SavesReverted(s: State, e: Event) {
    match e
    case Save(readable, writable) => readable && writable && NeedsSave(s.core) && Reverted(s)
    case NewKey(_, readable, writable) => readable && writable && s.core.cfg.privateKey == ZERO_KEY && Reverted(s)
    case _ => false
  }

  lemma StepKeepsInvariant(w: World, s: State, e: Event)
    requires Invariant(w, s) && !SavesReverted(s, e)
    ensures Invariant(w, Step(w, s, e))
  {
    match e
    case Edit(_) =>
    case Check(readable) => CheckKeepsInvariant(w, s, readable);
    case Sync(replies) =>
      if UsesServer(s.core.cfg) {
        SyncGood(w, s.core, s.adopted, replies);
      }
    case Save(readable, writable) =>
      if NeedsSave(s.core) {
        SaveKeepsInvariant(w, s, s.core, readable, writable);
      }
    case NewKey(key, readable, writable) =>
      if s.core.cfg.privateKey == ZERO_KEY {
        var d := s.core.(cfg := s.core.cfg.(privateKey := key), newKey := true);
        assert Good(w, d, s.adopted);
        SaveKeepsInvariant(w, s, d, readable, writable);
      }
    case Restart =>
      if Parse(s.file, w.host).Ok? {
        StartedGood(w, s.file);
      }
  }

  ghost predicate NeverReverts(w: World, s: State, events: seq<Event>) {
    forall i :: 0 <= i < |events| ==> !SavesReverted(Run(w, s, events[..i]), events[i])
  }

  /** In every state reachable without saving over reverted bytes, the book's
      manual peers and the settings are those of the file last adopted, the
      three maps share no key and hold their own entries, and if nothing is
      left to save the adopted file lists the server's peers as the book does. */
  lemma {:induction false} RunKeepsInvariant(w: World, s: State, events: seq<Event>)
    requires Invariant(w, s) && NeverReverts(w, s, events)
    ensures Invariant(w, Run(w, s, events))
  {
    if events != [] {
      var n := |events| - 1;
      assert forall i :: 0 <= i < n ==> events[..n][..i] == events[..i];
      RunKeepsInvariant(w, s, events[..n]);
      StepKeepsInvariant(w, Run(w, s, events[..n]), events[n]);
    }
  }

  // Without any assumption

  /** The daemon is orderly and the adopted configuration well-formed, whether
      they go together or not. */
  ghost predicate StillOrderly(s: State) {
    Orderly(s.core) && WellFormed(s.adopted)
  }

  lemma SaveKeepsOrderly(w: World, s: State, d: Core, readable: bool, writable: bool)
    requires StillOrderly(s) && Orderly(d)
    ensures StillOrderly(SaveStep(w, s, d, readable, writable))
  {
    if readable && Parse(s.file, w.host).Ok? {
      var disk := Parse(s.file, w.host).value;
      CatchingUpKeepsOrderly(w, s.file, d);
      var e := CaughtUp(d, s.file, disk);
      if writable {
        WrittenWellFormed(e, disk);
        WritingSteps(w, s, d);
      } else {
        FailingSteps(w, s, d);
      }
    }
  }

  lemma CatchingUpKeepsOrderly(w: World, file: FileData, d: Core)
    requires Orderly(d) && Parse(file, w.host).Ok?
    ensures Orderly(CaughtUp(d, file, Parse(file, w.host).value)) && WellFormed(Parse(file, w.host).value)
  {
    ParsedEntries(file, w);
    UseEditsGood(w, d, Parse(file, w.host).value);
  }

  lemma WrittenWellFormed(e: Core, disk: FileConfig)
    requires Orderly(e) && WellFormed(disk)
    ensures WellFormed(ToWrite(e, disk)) && Orderly(Written(e, ToWrite(e, disk)))
  {
    WrittenIsNormal(e, disk);
    MergedDistinct(e, disk);
  }

  lemma SyncKeepsOrderly(w: World, d: Core, r: Replies)
    requires Orderly(d) && UsesServer(d.cfg)
    ensures Orderly(SyncServer(d, w.parseKey, r).0)
  {
    SyncTakesAnswer(d, w.parseKey, r);
    var (e, interval) := SyncServer(d, w.parseKey, r);
    if interval.Some? {
      TakenListOrderly(w, d, FinalAnswer(r).peers);
    }
  }

  lemma {:induction false} TakenListOrderly(w: World, d: Core, list: seq<ServerPeer>)
    requires Orderly(d)
    ensures var b := WithServerList(d.book, ServerPeers(w.parseKey, list)); BookOk(b) && SyncedFromServer(b)
  {
    var entries := ServerPeers(w.parseKey, list);
    var b := WithServerList(d.book, entries);
    ServerEntriesAreNormal(w, list);
    WithServerListOk(d.book, entries);
    forall k | k in b.syncedPeers
      ensures ServerEntry(b.syncedPeers[k])
    {
      var p :| p in entries && b.syncedPeers[k] == p.(source := Synced);
      assert ServerEntry(p);
    }
  }

  lemma CheckKeepsOrderly(w: World, s: State, readable: bool)
    requires StillOrderly(s)
    ensures StillOrderly(CheckStep(w, s, readable))
  {
    if readable && Some(s.file) != s.core.lastRead && Parse(s.file, w.host).Ok? {
      ReadRestores(w, s);
    }
  }

  /** Reading an edit makes the whole invariant true, whatever was before. */
  lemma ReadRestores(w: World, s: State)
    requires StillOrderly(s) && Some(s.file) != s.core.lastRead && Parse(s.file, w.host).Ok?
    ensures Invariant(w, CheckStep(w, s, true))
  {
    var d := s.core.(lastRead := Some(s.file));
    var c := Parse(s.file, w.host).value;
    ParsedEntries(s.file, w);
    assert Orderly(d);
    UseEditsGood(w, d, c);
    assert CheckStep(w, s, true) == State(UseEdits(d, c), s.file, c, false);
  }

  lemma StepKeepsOrderly(w: World, s: State, e: Event)
    requires StillOrderly(s)
    ensures StillOrderly(Step(w, s, e))
  {
    match e
    case Edit(_) =>
    case Check(readable) => CheckKeepsOrderly(w, s, readable);
    case Sync(replies) =>
      if UsesServer(s.core.cfg) {
        SyncKeepsOrderly(w, s.core, replies);
      }
    case Save(readable, writable) =>
      if NeedsSave(s.core) {
        SaveKeepsOrderly(w, s, s.core, readable, writable);
      }
    case NewKey(key, readable, writable) =>
      if s.core.cfg.privateKey == ZERO_KEY {
        SaveKeepsOrderly(w, s, s.core.(cfg := s.core.cfg.(privateKey := key), newKey := true), readable, writable);
      }
    case Restart =>
      if Parse(s.file, w.host).Ok? {
        StartedGood(w, s.file);
      }
  }

  /** In every state of every run whatever, the three maps share no key and hold
      their entries under own keys, and the next edit that is read makes the
      whole run invariant true again. */
  lemma {:induction false} AlwaysOrderly(w: World, s: State, events: seq<Event>)
    requires StillOrderly(s)
    ensures var t := Run(w, s, events);
      && StillOrderly(t)
      && (Some(t.file) != t.core.lastRead && Parse(t.file, w.host).Ok? ==> Invariant(w, Step(w, t, Check(true))))
  {
    if events != [] {
      var n := |events| - 1;
      AlwaysOrderly(w, s, events[..n]);
      StepKeepsOrderly(w, Run(w, s, events[..n]), events[n]);
    }
    var t := Run(w, s, events);
    if Some(t.file) != t.core.lastRead && Parse(t.file, w.host).Ok? {
      ReadRestores(w, t);
    }
  }

  // Settings

  /** The settings that take effect after a restart only. */
  predicate SameStartSettings(a: FileConfig, b: FileConfig) {
    && a.serverURL == b.serverURL && a.joinToken == b.joinToken && a.tokenFile == b.tokenFile
    && a.mtu == b.mtu && a.privateKey == b.privateKey
  }

  lemma SaveKeepsStartSettings(w: World, s: State, readable: bool, writable: bool)
    ensures SameStartSettings(SaveStep(w, s, s.core, readable, writable).core.cfg, s.core.cfg)
  {
  }

  lemma StepKeepsStartSettings(w: World, s: State, e: Event)
    requires !e.Restart? && s.core.cfg.privateKey != ZERO_KEY
    ensures SameStartSettings(Step(w, s, e).core.cfg, s.core.cfg)
  {
    match e
    case Sync(replies) => SyncTakesAnswer(s.core, w.parseKey, replies);
    case Save(readable, writable) => SaveKeepsStartSettings(w, s, readable, writable);
    case _ =>
  }

  /** Whatever is edited, these settings stay as they were at the start until
      meshd is restarted. */
  lemma {:induction false} SettingsNeedRestart(w: World, s: State, events: seq<Event>)
    requires s.core.cfg.privateKey != ZERO_KEY && forall e :: e in events ==> !e.Restart?
    ensures SameStartSettings(Run(w, s, events).core.cfg, s.core.cfg)
  {
    if events != [] {
      var n := |events| - 1;
      SettingsNeedRestart(w, s, events[..n]);
      StepKeepsStartSettings(w, Run(w, s, events[..n]), events[n]);
    }
  }

  /** A daemon that has just loaded its file. */
  lemma StartInvariant(w: World, data: FileData)
    requires Parse(data, w.host).Ok?
    ensures var c := Parse(data, w.host).value;
      Invariant(w, State(Started(c), data, c, false))
  {
    StartedGood(w, data);
  }
}
