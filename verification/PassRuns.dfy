/** A pass is a run of the file and the daemon: a check, a sync and a save. So
    what holds in every run holds from pass to pass, and the device follows not
    just the book but the file. */
module PassRuns {
  import opened Wrappers
  import opened Keys
  import opened PeerBook
  import opened ConfigFile
  import opened Meshd
  import opened MeshdRuns
  import opened Pass
  import Device
  import History

  /** The events of the pass x that ended as r. */
  function PassEvents(x: Conditions, r: PassResult): seq<Event> {
    [Check(x.atCheck.Some?)]
    + (if r.first != NotOpened && x.due then [Sync(x.replies)] else [])
    + (if r.first == NotOpened || r.second == NotOpened then [] else SaveEvents(x))
  }

  function SaveEvents(x: Conditions): seq<Event> {
    (if x.atSave.Some? then [Edit(x.atSave.value)] else []) + [Save(x.atSave.Some?, x.writable)]
  }

  lemma {:induction false} RunAppend(w: World, s: State, a: seq<Event>, b: seq<Event>)
    ensures Run(w, s, a + b) == Run(w, Run(w, s, a), b)
  {
    if b == [] {
      assert a + b == a;
    } else {
      RunAppend(w, s, a, b[..|b| - 1]);
      assert (a + b)[..|a + b| - 1] == a + b[..|b| - 1];
    }
  }

  lemma {:induction false} RunOfOne(w: World, s: State, e: Event)
    ensures Run(w, s, [e]) == Step(w, s, e)
  {
    RunSnoc(w, s, [], e);
    assert [] + [e] == [e];
  }

  ghost function Checked(w: World, s: State, x: Conditions): State {
    Step(w, s, Check(x.atCheck.Some?))
  }

  ghost function SyncedState(w: World, s: State, x: Conditions): State {
    if x.due then Step(w, s, Sync(x.replies)) else s
  }

  ghost function FileAtSave(s: State, x: Conditions): State {
    if x.atSave.Some? then s.(file := x.atSave.value) else s
  }

  ghost function SavedState(w: World, s: State, x: Conditions): State {
    Step(w, FileAtSave(s, x), Save(x.atSave.Some?, x.writable))
  }

  /** The states that the pass goes through. */
  ghost function PassState(w: World, s: State, x: Conditions, r: PassResult): State {
    var s1 := Checked(w, s, x);
    if r.first == NotOpened then s1
    else
      var s2 := SyncedState(w, s1, x);
      if r.second == NotOpened then s2 else SavedState(w, s2, x)
  }

  lemma {:induction false} RunSave(w: World, s: State, x: Conditions)
    ensures Run(w, s, SaveEvents(x)) == SavedState(w, s, x)
  {
    var save := Save(x.atSave.Some?, x.writable);
    RunOfOne(w, FileAtSave(s, x), save);
    if x.atSave.Some? {
      RunOfOne(w, s, Edit(x.atSave.value));
      RunAppend(w, s, [Edit(x.atSave.value)], [save]);
    } else {
      assert SaveEvents(x) == [save];
    }
  }

  lemma {:induction false} RunOfPass(w: World, s: State, x: Conditions, r: PassResult)
    ensures Run(w, s, PassEvents(x, r)) == PassState(w, s, x, r)
  {
    var check := [Check(x.atCheck.Some?)];
    var sync := if r.first != NotOpened && x.due then [Sync(x.replies)] else [];
    var save := if r.first == NotOpened || r.second == NotOpened then [] else SaveEvents(x);
    var s1 := Checked(w, s, x);
    RunOfOne(w, s, Check(x.atCheck.Some?));
    RunAppend(w, s, check, sync);
    RunOfOne(w, s1, Sync(x.replies));
    var s2 := Run(w, s1, sync);
    assert s2 == if r.first == NotOpened then s1 else SyncedState(w, s1, x);
    RunAppend(w, s, check + sync, save);
    RunSave(w, s2, x);
  }

  /** The file after the pass. */
  ghost function FileAfter(s: State, x: Conditions, r: PassResult): FileData {
    if r.written.Some? then r.written.value
    else if r.first == NotOpened || r.second == NotOpened then s.file
    else FileAtSave(s, x).file
  }

  lemma SyncStates(w: World, s: State, x: Conditions)
    ensures SyncedState(w, s, x) == s.(core := AfterSync(w, s.core, x).0)
  {
  }

  lemma SaveStates(w: World, s: State, x: Conditions)
    ensures var (core, written) := SaveIfNeeded(s.core, x.atSave, w.host, x.writable);
      && SavedState(w, s, x).core == core
      && SavedState(w, s, x).file == if written.Some? then written.value else FileAtSave(s, x).file
  {
  }

  /** The end of a pass that saves. */
  lemma FinishedIsRun(w: World, s: State, l: Link, x: Conditions, first: Outcome, synced: bool, second: Outcome)
    requires first != NotOpened && second != NotOpened
    ensures var r := Finished(w, s.core, l, x, first, synced, second);
      SavedState(w, s, x).core == r.core && SavedState(w, s, x).file == FileAfter(s, x, r)
  {
    SaveStates(w, s, x);
  }

  ghost function RestState(w: World, s: State, x: Conditions, r: PassResult): State {
    var s2 := SyncedState(w, s, x);
    if r.second == NotOpened then s2 else SavedState(w, s2, x)
  }

  lemma RestIsRun(curve: Key -> Key, w: World, s: State, pub: Key, l: Link, x: Conditions, first: Outcome)
    requires first != NotOpened
    ensures var r := Rest(curve, w, s.core, pub, l, x, first);
      && RestState(w, s, x, r).core == r.core
      && RestState(w, s, x, r).file == FileAfter(s, x, r)
      && r.first == first
  {
    SyncStates(w, s, x);
    var s2 := SyncedState(w, s, x);
    var (d2, synced) := AfterSync(w, s.core, x);
    if !synced {
      FinishedIsRun(w, s2, l, x, first, false, NoAddressYet);
    } else {
      var (l2, second) := UpdateTunnel(curve, d2, pub, l, x.second);
      if second != NotOpened {
        FinishedIsRun(w, s2, l2, x, first, true, second);
      }
    }
  }

  /** A pass does to the daemon and to the file what the run of its events does:
      a pass that checks the file as it is, and that may find it edited when it
      saves. */
  lemma {:induction false} PassIsRun(curve: Key -> Key, w: World, s: State, pub: Key, l: Link, x: Conditions)
    requires x.atCheck.Some? ==> x.atCheck.value == s.file
    ensures var r := BringUpToDate(curve, w, s.core, pub, l, x);
      var t := Run(w, s, PassEvents(x, r));
      t.core == r.core && t.file == FileAfter(s, x, r)
  {
    var s1 := Checked(w, s, x);
    assert s1.core == CheckConfig(s.core, x.atCheck, w.host) && s1.file == s.file;
    var (l1, first) := UpdateTunnel(curve, s1.core, pub, DropDead(l, x.died), x.first);
    var r := Rest(curve, w, s1.core, pub, l1, x, first);
    RunOfPass(w, s, x, r);
    if first != NotOpened {
      RestIsRun(curve, w, s1, pub, l1, x, first);
    }
  }

  /** Between passes: the run invariant holds, and no save has failed after it
      took up an edit that the check had not seen. */
  ghost predicate Calm(w: World, s: State) {
    Invariant(w, s) && !s.torn
  }

  /** The save met no edit that the check had not seen, or could write. */
  ghost predicate SeenOrWritten(d1: Core, x: Conditions) {
    x.atSave.None? || x.atSave == d1.lastRead || x.writable
  }

  /** A save that can write, or that meets no unseen edit, is not torn. */
  lemma SaveMends(w: World, s: State, d: Core, readable: bool, writable: bool)
    requires !s.torn && (!readable || Some(s.file) == d.lastRead || writable)
    ensures !SaveStep(w, s, d, readable, writable).torn
  {
  }

  lemma SaveEventMends(w: World, s: State, readable: bool, writable: bool)
    requires !s.torn && (!readable || Some(s.file) == s.core.lastRead || writable)
    ensures !Step(w, s, Save(readable, writable)).torn
  {
    SaveEventIs(w, s, readable, writable);
    SaveMends(w, s, s.core, readable, writable);
  }

  lemma SaveEventIs(w: World, s: State, readable: bool, writable: bool)
    ensures var t := Step(w, s, Save(readable, writable));
      t == s || t == SaveStep(w, s, s.core, readable, writable)
  {
  }

  /** What the save of a pass finds. */
  ghost function AtSave(w: World, s: State, x: Conditions): State {
    FileAtSave(SyncedState(w, Checked(w, s, x), x), x)
  }

  /** The pass does not save over bytes that a torn save has made stale. */
  ghost predicate NoRevertedSave(w: World, s: State, x: Conditions) {
    !SavesReverted(AtSave(w, s, x), Save(x.atSave.Some?, x.writable))
  }

  lemma SyncedKeepsInvariant(w: World, s: State, x: Conditions)
    requires Invariant(w, s)
    ensures Invariant(w, SyncedState(w, s, x)) && SyncedState(w, s, x).torn == s.torn
    ensures SyncedState(w, s, x).core.lastRead == s.core.lastRead
  {
    StepKeepsInvariant(w, s, Sync(x.replies));
    AfterSyncFacts(w, s.core, x);
    SyncStates(w, s, x);
  }

  lemma FileAtSaveKeepsInvariant(w: World, s: State, x: Conditions)
    requires Invariant(w, s)
    ensures Invariant(w, FileAtSave(s, x))
    ensures FileAtSave(s, x).core == s.core && FileAtSave(s, x).torn == s.torn
  {
    StepKeepsInvariant(w, s, Edit(FileAtSave(s, x).file));
  }

  /** Every pass keeps the run invariant, whatever fails in it, unless it saves
      over reverted bytes. */
  lemma {:induction false} PassKeepsInvariant(curve: Key -> Key, w: World, s: State, pub: Key, l: Link, x: Conditions)
    requires Invariant(w, s) && NoRevertedSave(w, s, x) && (x.atCheck.Some? ==> x.atCheck.value == s.file)
    ensures Invariant(w, Run(w, s, PassEvents(x, BringUpToDate(curve, w, s.core, pub, l, x))))
  {
    var r := BringUpToDate(curve, w, s.core, pub, l, x);
    RunOfPass(w, s, x, r);
    StepKeepsInvariant(w, s, Check(x.atCheck.Some?));
    var s1 := Checked(w, s, x);
    SyncedKeepsInvariant(w, s1, x);
    FileAtSaveKeepsInvariant(w, SyncedState(w, s1, x), x);
    StepKeepsInvariant(w, AtSave(w, s, x), Save(x.atSave.Some?, x.writable));
  }

  lemma NotTornNotReverted(s: State, e: Event)
    requires !s.torn
    ensures !SavesReverted(s, e)
  {
  }

  lemma CalmUntilSave(w: World, s: State, x: Conditions)
    requires Calm(w, s)
    ensures Calm(w, AtSave(w, s, x)) && NoRevertedSave(w, s, x)
    ensures AtSave(w, s, x).core.lastRead == Checked(w, s, x).core.lastRead
  {
    var s1 := Checked(w, s, x);
    CheckKeepsCalm(w, s, x.atCheck.Some?);
    SyncedKeepsInvariant(w, s1, x);
    FileAtSaveKeepsInvariant(w, SyncedState(w, s1, x), x);
    NotTornNotReverted(AtSave(w, s, x), Save(x.atSave.Some?, x.writable));
  }

  /** As long as no save has been torn, none saves over reverted bytes, and none
      is torn that can write or that meets no unseen edit. */
  lemma {:induction false} PassStaysCalm(curve: Key -> Key, w: World, s: State, pub: Key, l: Link, x: Conditions)
    requires Calm(w, s) && (x.atCheck.Some? ==> x.atCheck.value == s.file)
    ensures NoRevertedSave(w, s, x)
    ensures SeenOrWritten(CheckConfig(s.core, x.atCheck, w.host), x) ==>
      Calm(w, Run(w, s, PassEvents(x, BringUpToDate(curve, w, s.core, pub, l, x))))
  {
    CalmUntilSave(w, s, x);
    PassKeepsInvariant(curve, w, s, pub, l, x);
    RunOfPass(w, s, x, BringUpToDate(curve, w, s.core, pub, l, x));
    if SeenOrWritten(CheckConfig(s.core, x.atCheck, w.host), x) {
      CheckedCore(w, s, x);
      SaveEventMends(w, AtSave(w, s, x), x.atSave.Some?, x.writable);
      SyncedIsCalm(w, s, x);
    }
  }

  lemma CheckedCore(w: World, s: State, x: Conditions)
    requires x.atCheck.Some? ==> x.atCheck.value == s.file
    ensures Checked(w, s, x).core == CheckConfig(s.core, x.atCheck, w.host)
  {
  }

  lemma SyncedIsCalm(w: World, s: State, x: Conditions)
    requires Calm(w, s)
    ensures !Checked(w, s, x).torn && !SyncedState(w, Checked(w, s, x), x).torn
  {
    CheckKeepsCalm(w, s, x.atCheck.Some?);
    SyncedKeepsInvariant(w, Checked(w, s, x), x);
  }

  // The device follows the file

  /** What the configuration c, together with the server's list in the book b,
      says that the device should have beside the peers of other tools. */
  ghost predicate DeviceFollows(dev: Device.Device, c: FileConfig, b: BookState, pub: Key, g: History.Ledger) {
    && dev.listenPort == c.listenPort
    && (forall p :: p in c.peers && p.source == Static && p.publicKey != pub ==> HasPeer(dev, p, c.keepalive, g.damaged))
    && (forall k :: k in b.syncedPeers && k != pub ==> HasPeer(dev, b.syncedPeers[k], c.keepalive, g.damaged))
    && (forall p :: p in c.peers && p.source == Blocked ==> p.publicKey !in dev.peers.Keys - g.others)
    && (forall k :: k in dev.peers.Keys - g.others ==> StaticIn(c, k) || k in b.syncedPeers)
  }

  ghost predicate StaticIn(c: FileConfig, k: Key) {
    exists p :: p in c.peers && p.source == Static && p.publicKey == k
  }

  lemma ManualEntries(w: World, d: Core, c: FileConfig, p: Peer)
    requires Good(w, d, c) && p in c.peers
    ensures p.source == Static ==> p.publicKey in d.book.staticPeers && d.book.staticPeers[p.publicKey] == p
    ensures p.source == Blocked ==> p.publicKey in d.book.blockedPeers
  {
    var list := Only(c.peers, p.source);
    OnlyKeepsDistinct(c.peers, p.source);
    ByKeyOfDistinct(list, p);
  }

  lemma NoOthersFollow(w: World, d: Core, c: FileConfig, pub: Key, dev: Device.Device, g: History.Ledger, k: Key)
    requires Good(w, d, c) && DeviceMatches(d, pub, dev, g)
    requires k in dev.peers.Keys - g.others && k !in d.book.syncedPeers
    ensures StaticIn(c, k)
  {
    var p := d.book.staticPeers[k];
    assert p in Only(c.peers, Static);
  }

  lemma MatchingFollows(w: World, d: Core, c: FileConfig, pub: Key, dev: Device.Device, g: History.Ledger)
    requires Good(w, d, c) && DeviceMatches(d, pub, dev, g)
    ensures DeviceFollows(dev, c, d.book, pub, g)
  {
    forall p | p in c.peers && p.source == Static && p.publicKey != pub
      ensures HasPeer(dev, p, c.keepalive, g.damaged)
    {
      ManualEntries(w, d, c, p);
    }
    forall p | p in c.peers && p.source == Blocked
      ensures p.publicKey !in dev.peers.Keys - g.others
    {
      ManualEntries(w, d, c, p);
    }
    forall k | k in dev.peers.Keys - g.others && k !in d.book.syncedPeers
      ensures StaticIn(c, k)
    {
      NoOthersFollow(w, d, c, pub, dev, g, k);
    }
  }

  /** By its books the device of r follows c. */
  ghost predicate LinkFollows(r: PassResult, c: FileConfig, pub: Key, g: Books) {
    r.link.tunnel.Some? && (g.Some? ==> DeviceFollows(r.link.tunnel.value.dev, c, r.core.book, pub, g.value))
  }

  /** After a pass whose last update succeeds and whose save meets no unseen
      edit, and if the tunnel's books are kept, the device has every static peer
      as the adopted file lists it, every synced one, none that the file blocks,
      and beside those of other tools no others. It does not matter what failed
      before. */
  lemma {:induction false} DeviceFollowsFile(curve: Key -> Key, w: World, s: State, pub: Key, l: Link, x: Conditions, g: Books)
    requires Invariant(w, s) && NoRevertedSave(w, s, x) && (x.atCheck.Some? ==> x.atCheck.value == s.file)
    requires OnCourse(curve, pub, s.core, l, g) && PossibleOrders(curve, w, s.core, pub, l, x) && QuietSave(w, s.core, x)
    ensures var r := BringUpToDate(curve, w, s.core, pub, l, x);
      var t := Run(w, s, PassEvents(x, r));
      LastOutcome(r) == UpToDate ==> LinkFollows(r, t.adopted, pub, PassBooks(curve, w, s.core, pub, l, x, g))
  {
    var r := BringUpToDate(curve, w, s.core, pub, l, x);
    var t := Run(w, s, PassEvents(x, r));
    var h := PassBooks(curve, w, s.core, pub, l, x, g);
    QuietPassConverges(curve, w, s.core, pub, l, x, g);
    PassIsRun(curve, w, s, pub, l, x);
    PassKeepsInvariant(curve, w, s, pub, l, x);
    if LastOutcome(r) == UpToDate && h.Some? {
      MatchingFollows(w, r.core, t.adopted, pub, r.link.tunnel.value.dev, h.value);
    }
  }

  // A daemon's life

  /** What happens before the first pass: the check, and the saving of a new key
      if there is none. */
  datatype Opening = Opening(atCheck: Option<FileData>, key: Key, atSave: Option<FileData>, writable: bool)

  /** The file as someone last left it, as far as meshd reads it. */
  function Found(s: State, data: Option<FileData>): State {
    if data.Some? then s.(file := data.value) else s
  }

  lemma FoundKeepsInvariant(w: World, s: State, data: Option<FileData>)
    requires Invariant(w, s)
    ensures Invariant(w, Found(s, data)) && Found(s, data).core == s.core && (Calm(w, s) ==> Calm(w, Found(s, data)))
  {
    StepKeepsInvariant(w, s, Edit(Found(s, data).file));
  }

  /** The daemon and the file before a key may be made. */
  ghost function CheckedStart(w: World, data: FileData, c: FileConfig, o: Opening): State {
    Found(Step(w, Found(State(Started(c), data, c, false), o.atCheck), Check(o.atCheck.Some?)), o.atSave)
  }

  ghost function OpenedState(w: World, data: FileData, c: FileConfig, o: Opening): State {
    Step(w, CheckedStart(w, data, c, o), NewKey(o.key, o.atSave.Some?, o.writable))
  }

  /** The daemon gets to its first pass: it had a key or has saved one. */
  ghost predicate Opens(w: World, c: FileConfig, o: Opening) {
    c.privateKey != ZERO_KEY || (o.key != ZERO_KEY && o.atSave.Some? && Parse(o.atSave.value, w.host).Ok? && o.writable)
  }

  lemma CheckedStartCalm(w: World, data: FileData, c: FileConfig, o: Opening)
    requires Parse(data, w.host) == Ok(c)
    ensures var s := CheckedStart(w, data, c, o);
      && Calm(w, s) && s.core == CheckConfig(Started(c), o.atCheck, w.host)
      && s.core.cfg.privateKey == c.privateKey
      && (o.atSave.Some? ==> s.file == o.atSave.value)
  {
    var s0 := State(Started(c), data, c, false);
    StartInvariant(w, data);
    FoundKeepsInvariant(w, s0, o.atCheck);
    var s1 := Found(s0, o.atCheck);
    CheckKeepsCalm(w, s1, o.atCheck.Some?);
    FoundKeepsInvariant(w, Step(w, s1, Check(o.atCheck.Some?)), o.atSave);
    StartedChecks(w, s1, o);
  }

  lemma CheckKeepsCalm(w: World, s: State, readable: bool)
    requires Calm(w, s)
    ensures Calm(w, Step(w, s, Check(readable)))
  {
    StepKeepsInvariant(w, s, Check(readable));
  }

  lemma StartedChecks(w: World, s: State, o: Opening)
    requires o.atCheck.Some? ==> s.file == o.atCheck.value
    ensures var t := Step(w, s, Check(o.atCheck.Some?));
      t.core == CheckConfig(s.core, o.atCheck, w.host) && t.core.cfg.privateKey == s.core.cfg.privateKey
  {
  }

  /** A key that is made and saved. */
  lemma KeyIsSaved(w: World, s: State, key: Key)
    requires Calm(w, s) && s.core.cfg.privateKey == ZERO_KEY && Parse(s.file, w.host).Ok?
    ensures var t := Step(w, s, NewKey(key, true, true));
      && Calm(w, t) && t.core == MakeKey(s.core, key, Some(s.file), w.host, true).0
      && t.core.cfg.privateKey == key && t.file == Marshal(t.adopted) && t.adopted.privateKey == key
  {
    var d := s.core.(cfg := s.core.cfg.(privateKey := key), newKey := true);
    StepKeepsInvariant(w, s, NewKey(key, true, true));
    KeyIsWritten(w, s, d);
  }

  /** The opening is what the daemon's start does, and afterwards there is a key,
      which is in the file if it was made just now. */
  lemma OpeningIsStart(w: World, data: FileData, c: FileConfig, o: Opening)
    requires Parse(data, w.host) == Ok(c) && Opens(w, c, o)
    ensures var s := OpenedState(w, data, c, o);
      && Calm(w, s) && s.core == MakeKey(CheckConfig(Started(c), o.atCheck, w.host), o.key, o.atSave, w.host, o.writable).0
      && s.core.cfg.privateKey == (if c.privateKey == ZERO_KEY then o.key else c.privateKey)
      && (c.privateKey == ZERO_KEY ==> s.file == Marshal(s.adopted) && s.adopted.privateKey == o.key)
  {
    CheckedStartCalm(w, data, c, o);
    if c.privateKey == ZERO_KEY {
      KeyIsSaved(w, CheckedStart(w, data, c, o), o.key);
    }
  }

  datatype Moment = Moment(state: State, last: PassResult, books: Books)

  /** A daemon that has started and then takes the turns. */
  ghost function Life(curve: Key -> Key, w: World, s: State, pub: Key, turns: seq<Turn>): Moment {
    if turns == [] then Moment(s, PassResult(s.core, NO_LINK, None, NoAddressYet, false, NoAddressYet), Some(History.CLEAN))
    else NextMoment(curve, w, Life(curve, w, s, pub, turns[..|turns| - 1]), pub, turns[|turns| - 1])
  }

  ghost function NextMoment(curve: Key -> Key, w: World, m: Moment, pub: Key, turn: Turn): Moment {
    var s := Found(m.state, turn.x.atCheck);
    var l, g := MeddledLink(m.last.link, turn.meddled), MeddledBooks(curve, m.last.link, turn.meddled, m.books);
    var r := BringUpToDate(curve, w, s.core, pub, l, turn.x);
    Moment(Run(w, s, PassEvents(turn.x, r)), r, PassBooks(curve, w, s.core, pub, l, turn.x, g))
  }

  /** The removal orders of each pass are possible ones. */
  ghost predicate PossibleLife(curve: Key -> Key, w: World, s: State, pub: Key, turns: seq<Turn>) {
    turns == [] ||
    (var front, last := turns[..|turns| - 1], turns[|turns| - 1];
     && PossibleLife(curve, w, s, pub, front)
     && var m := Life(curve, w, s, pub, front);
        PossibleOrders(curve, w, m.last.core, pub, MeddledLink(m.last.link, last.meddled), last.x))
  }

  /** No pass saves over reverted bytes. */
  ghost predicate NeverOverReverted(curve: Key -> Key, w: World, s: State, pub: Key, turns: seq<Turn>) {
    turns == [] ||
    (var front, last := turns[..|turns| - 1], turns[|turns| - 1];
     && NeverOverReverted(curve, w, s, pub, front)
     && NoRevertedSave(w, Found(Life(curve, w, s, pub, front).state, last.x.atCheck), last.x))
  }

  /** The daemon is orderly, and what is on the tunnel's books is right. */
  ghost predicate InOrder(curve: Key -> Key, m: Moment, pub: Key) {
    && StillOrderly(m.state) && m.state.core == m.last.core
    && OnCourse(curve, pub, m.last.core, m.last.link, m.books)
  }

  lemma FoundKeepsOrderly(w: World, s: State, data: Option<FileData>)
    requires StillOrderly(s)
    ensures StillOrderly(Found(s, data)) && Found(s, data).core == s.core
  {
  }

  lemma NextInOrder(curve: Key -> Key, w: World, m: Moment, pub: Key, turn: Turn)
    requires InOrder(curve, m, pub)
    requires PossibleOrders(curve, w, m.last.core, pub, MeddledLink(m.last.link, turn.meddled), turn.x)
    ensures InOrder(curve, NextMoment(curve, w, m, pub, turn), pub)
  {
    var s := Found(m.state, turn.x.atCheck);
    var l, g := MeddledLink(m.last.link, turn.meddled), MeddledBooks(curve, m.last.link, turn.meddled, m.books);
    FoundKeepsOrderly(w, m.state, turn.x.atCheck);
    MeddlingKeepsCourse(curve, pub, m.last.core, m.last.link, turn.meddled, m.books);
    PassConverges(curve, w, s.core, pub, l, turn.x, g);
    PassIsRun(curve, w, s, pub, l, turn.x);
    AlwaysOrderly(w, s, PassEvents(turn.x, BringUpToDate(curve, w, s.core, pub, l, turn.x)));
  }

  /** A turn that does not save over reverted bytes keeps the run invariant, and
      unless its save meets an unseen edit the device follows the file if its
      last update succeeded. */
  lemma NextFollows(curve: Key -> Key, w: World, m: Moment, pub: Key, turn: Turn)
    requires InOrder(curve, m, pub) && Invariant(w, m.state)
    requires PossibleOrders(curve, w, m.last.core, pub, MeddledLink(m.last.link, turn.meddled), turn.x)
    requires NoRevertedSave(w, Found(m.state, turn.x.atCheck), turn.x)
    ensures Invariant(w, NextMoment(curve, w, m, pub, turn).state)
    ensures FollowsFile(w, m, NextMoment(curve, w, m, pub, turn), pub, turn.x)
  {
    var s := Found(m.state, turn.x.atCheck);
    var l, g := MeddledLink(m.last.link, turn.meddled), MeddledBooks(curve, m.last.link, turn.meddled, m.books);
    FoundKeepsInvariant(w, m.state, turn.x.atCheck);
    MeddlingKeepsCourse(curve, pub, m.last.core, m.last.link, turn.meddled, m.books);
    PassKeepsInvariant(curve, w, s, pub, l, turn.x);
    if QuietSave(w, s.core, turn.x) {
      DeviceFollowsFile(curve, w, s, pub, l, turn.x, g);
    }
  }

  /** If the pass x from m to n saved quietly and its last update succeeded, the
      device follows the file. */
  ghost predicate FollowsFile(w: World, m: Moment, n: Moment, pub: Key, x: Conditions) {
    QuietSave(w, m.state.core, x) && LastOutcome(n.last) == UpToDate ==> LinkFollows(n.last, n.state.adopted, pub, n.books)
  }

  /** From the start of a daemon, which may have had to make its key, over any
      number of passes whatever, with edits of any kind between and in them,
      failing updates, syncs and saves, dead tunnels and other tools: the daemon
      is orderly and what is on the tunnel's books is right. As long as no pass
      saves over reverted bytes the run invariant holds too, and after each pass
      whose last update succeeded and whose save met no unseen edit the device
      follows the file, by the tunnel's books. */
  lemma {:induction false} LifeInOrder(curve: Key -> Key, w: World, data: FileData, c: FileConfig, o: Opening,
                                       pub: Key, turns: seq<Turn>)
    requires Parse(data, w.host) == Ok(c) && Opens(w, c, o)
    requires var s := OpenedState(w, data, c, o);
      pub == curve(s.core.cfg.privateKey) && PossibleLife(curve, w, s, pub, turns)
    ensures var s := OpenedState(w, data, c, o);
      && InOrder(curve, Life(curve, w, s, pub, turns), pub)
      && (NeverOverReverted(curve, w, s, pub, turns) ==>
            && Invariant(w, Life(curve, w, s, pub, turns).state)
            && (turns != [] ==>
                  FollowsFile(w, Life(curve, w, s, pub, turns[..|turns| - 1]), Life(curve, w, s, pub, turns), pub,
                           turns[|turns| - 1].x)))
  {
    var s := OpenedState(w, data, c, o);
    if turns == [] {
      OpeningIsStart(w, data, c, o);
    } else {
      var front, turn := turns[..|turns| - 1], turns[|turns| - 1];
      LifeInOrder(curve, w, data, c, o, pub, front);
      var m := Life(curve, w, s, pub, front);
      NextInOrder(curve, w, m, pub, turn);
      if NeverOverReverted(curve, w, s, pub, turns) {
        NextFollows(curve, w, m, pub, turn);
      }
    }
  }

  /** When the tunnel does not live to see a pass's first update, its books are
      new, whatever had become of them. */
  lemma BooksAreRegained(curve: Key -> Key, w: World, m: Moment, pub: Key, turn: Turn)
    requires var d1 := CheckConfig(m.state.core, turn.x.atCheck, w.host);
      && d1.cfg.address.Prefix?
      && (turn.x.died || !LivesOn(MeddledLink(m.last.link, turn.meddled), d1.cfg.address))
      && !AfterSync(w, d1, turn.x).1
    ensures NextMoment(curve, w, m, pub, turn).books.Some?
  {
    ReopeningPass(curve, w, m.state.core, pub, MeddledLink(m.last.link, turn.meddled), turn.x,
                  MeddledBooks(curve, m.last.link, turn.meddled, m.books));
  }
}
