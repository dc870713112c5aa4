/** Consequences of the run invariant: what a restart remembers, what a stale
    edit cannot do, and what exactly goes wrong when a save meets reverted
    bytes. */
module PeerMemory {
  import opened Wrappers
  import opened Keys
  import opened PeerBook
  import opened ConfigFile
  import opened Meshd
  import opened SavedFile
  import opened MeshdRuns

  // Restarts

  /** The file is as meshd last left it, and holds the server's list. */
  ghost predicate Remembering(s: State) {
    && !s.torn && !s.core.book.dirty
    && s.core.lastRead == Some(s.file)
    && UsesServer(s.core.cfg) && UsesServer(s.adopted)
  }

  /** A crash and a restart bring back the same book, and so the same peers for
      the tunnel, before any server answers. */
  lemma RestartRemembers(w: World, s: State)
    requires Invariant(w, s) && Remembering(s) && Parse(s.file, w.host).Ok?
    ensures var r := Step(w, s, Restart).core;
      && r.book == s.core.book
      && TunnelPeers(r.book) == TunnelPeers(s.core.book)
      && UsesServer(r.cfg)
      && r.cfg.listenPort == s.core.cfg.listenPort && r.cfg.keepalive == s.core.cfg.keepalive
      && r.cfg.address == s.adopted.address && r.cfg.privateKey == s.adopted.privateKey
  {
    assert Parse(s.file, w.host) == Ok(s.adopted);
    LoadsTheSame(w, s.core, s.adopted);
  }

  /** Loading the configuration that a daemon has saved gives its book. */
  lemma LoadsTheSame(w: World, d: Core, c: FileConfig)
    requires Good(w, d, c) && !d.book.dirty && UsesServer(d.cfg) && UsesServer(c)
    ensures Started(c).book == d.book
  {
  }

  /** The configuration a save works on: what the file says, taken up. */
  ghost predicate SavingWithServer(w: World, s: State) {
    && NeedsSave(s.core) && !Reverted(s)
    && Parse(s.file, w.host).Ok?
    && UsesServer(s.core.cfg) && UsesServer(Parse(s.file, w.host).value)
  }

  /** What a save that can write does. */
  lemma SaveWrites(w: World, s: State)
    requires NeedsSave(s.core) && Parse(s.file, w.host).Ok?
    ensures var disk := Parse(s.file, w.host).value;
      var e := CaughtUp(s.core, s.file, disk);
      Step(w, s, Save(true, true)) == State(Written(e, ToWrite(e, disk)), Marshal(ToWrite(e, disk)), ToWrite(e, disk), false)
  {
    WritingSteps(w, s, s.core);
  }

  lemma WrittenWithServer(s: State, data: FileData, disk: FileConfig)
    requires UsesServer(s.core.cfg) && UsesServer(disk)
    ensures var e := CaughtUp(s.core, data, disk);
      var out := ToWrite(e, disk);
      && UsesServer(e.cfg) && UsesServer(out) && out.address == e.cfg.address
      && Remembering(State(Written(e, out), Marshal(out), out, false))
  {
  }

  /** After any successful save with a server, crashing and starting again gives
      the same book, address, port and keepalive, exactly when no key on the
      saved list is unset; otherwise the new file is not accepted. */
  lemma SaveThenRestart(w: World, s: State)
    requires Invariant(w, s) && SavingWithServer(w, s)
    ensures var saved := Step(w, s, Save(true, true));
      var disk := Parse(s.file, w.host).value;
      && (Parse(saved.file, w.host).Ok? <==> NoZeroKey(CaughtUp(s.core, s.file, disk), disk))
      && (Parse(saved.file, w.host).Ok? ==> Resumes(w, saved))
  {
    var disk := Parse(s.file, w.host).value;
    var e := CaughtUp(s.core, s.file, disk);
    var saved := Step(w, s, Save(true, true));
    CaughtUpFollows(w, s, s.core);
    ParsedInUse(s.file, w.host);
    WrittenIsReadBack(e, disk, w.host);
    StepKeepsInvariant(w, s, Save(true, true));
    SaveWrites(w, s);
    WrittenWithServer(s, s.file, disk);
    if Parse(saved.file, w.host).Ok? {
      RestartRemembers(w, saved);
    }
  }

  /** A restart goes on where meshd stopped. */
  ghost predicate Resumes(w: World, s: State) {
    var r := Step(w, s, Restart).core;
    && r.book == s.core.book
    && TunnelPeers(r.book) == TunnelPeers(s.core.book)
    && r.cfg.address == s.core.cfg.address
    && r.cfg.listenPort == s.core.cfg.listenPort
    && r.cfg.keepalive == s.core.cfg.keepalive
  }

  // The address

  /** An address that a sync has brought gets into the file with the next save,
      and then nothing is left to save. */
  lemma AssignedAddressIsSaved(w: World, s: State, replies: Replies)
    requires UsesServer(s.core.cfg) && Parse(s.file, w.host).Ok? && UsesServer(Parse(s.file, w.host).value)
    ensures var t := Step(w, s, Sync(replies));
      t.core.cfg.address != s.core.cfg.address ==>
        && NeedsSave(t.core)
        && var end := Step(w, t, Save(true, true));
           && end.file == Marshal(end.adopted) && end.adopted.address == t.core.cfg.address
           && end.core.cfg.address == t.core.cfg.address && !NeedsSave(end.core) && !end.core.newKey
  {
    var t := Step(w, s, Sync(replies));
    SyncMarksAddress(s.core, w.parseKey, replies);
    if t.core.cfg.address != s.core.cfg.address {
      SaveWrites(w, t);
      WrittenWithServer(t, t.file, Parse(t.file, w.host).value);
    }
  }

  lemma SyncMarksAddress(d: Core, parseKey: string -> Option<Key>, r: Replies)
    ensures var e := SyncServer(d, parseKey, r).0;
      && (e.cfg.address != d.cfg.address ==> e.unsaved)
      && e.cfg.serverURL == d.cfg.serverURL
  {
    SyncTakesAnswer(d, parseKey, r);
  }

  /** The daemon with a key that it has just made. */
  function WithKey(d: Core, key: Key): Core {
    d.(cfg := d.cfg.(privateKey := key), newKey := true)
  }

  lemma NewKeyIsWriting(w: World, s: State, key: Key)
    requires s.core.cfg.privateKey == ZERO_KEY
    ensures Step(w, s, NewKey(key, true, true)) == SaveStep(w, s, WithKey(s.core, key), true, true)
  {
  }

  /** A machine keeps its identity: a key that was just made is in the file
      before it is used, and a restart comes back with it. */
  lemma NewKeySurvives(w: World, s: State, key: Key)
    requires Invariant(w, s) && !Reverted(s) && s.core.cfg.privateKey == ZERO_KEY && Parse(s.file, w.host).Ok?
    ensures var end := Step(w, s, NewKey(key, true, true));
      && end.file == Marshal(end.adopted) && end.adopted.privateKey == key && end.core.cfg.privateKey == key
      && !end.core.newKey && !NeedsSave(end.core)
      && (Parse(end.file, w.host).Ok? ==> Step(w, end, Restart).core.cfg.privateKey == key)
  {
    StepKeepsInvariant(w, s, NewKey(key, true, true));
    NewKeyIsWriting(w, s, key);
    KeyIsWritten(w, s, WithKey(s.core, key));
    var end := Step(w, s, NewKey(key, true, true));
    if Parse(end.file, w.host).Ok? {
      RestartReadsKey(w, end);
    }
  }

  lemma RestartReadsKey(w: World, s: State)
    requires Linked(w, s) && s.core.lastRead == Some(s.file) && Parse(s.file, w.host).Ok?
    ensures Step(w, s, Restart).core.cfg.privateKey == s.adopted.privateKey
  {
  }

  // Stale edits

  /** k is pinned or blocked in the list. */
  predicate ManuallyListed(list: seq<Peer>, k: Key) {
    exists p :: p in list && p.publicKey == k && (p.source == Static || p.source == Blocked)
  }

  /** Whatever synced entries an edited file has, taking it up changes the
      server's list only by what the file pins or blocks. */
  lemma EditKeepsServerList(d: Core, c: FileConfig, k: Key)
    requires DistinctKeys(c.peers)
    ensures var after := UseEdits(d, c).book.syncedPeers;
      && (k in after <==> k in d.book.syncedPeers && !ManuallyListed(c.peers, k))
      && (k in after ==> after[k] == d.book.syncedPeers[k])
  {
    if ManuallyListed(c.peers, k) {
      var p :| p in c.peers && p.publicKey == k && (p.source == Static || p.source == Blocked);
      ManualEntryIsMapped(c.peers, p);
    }
    var s, t := ByKey(Only(c.peers, Static)), ByKey(Only(c.peers, Blocked));
    assert k in s ==> s[k] in c.peers && s[k].publicKey == k && s[k].source == Static;
    assert k in t ==> t[k] in c.peers && t[k].publicKey == k && t[k].source == Blocked;
  }

  /** The three things that happen when someone saves a file. */
  ghost function EditedAndSaved(w: World, s: State, data: FileData): State {
    Step(w, Step(w, Step(w, s, Edit(data)), Check(true)), Save(true, true))
  }

  /** An old copy of the file cannot bring back an old server list: once meshd
      has seen and saved the edited file, the file lists the server's peers as
      before, minus those it pins or blocks. */
  lemma StaleEditIsCorrected(w: World, s: State, data: FileData, k: Key)
    requires Invariant(w, s) && Parse(data, w.host).Ok? && !Reverted(s.(file := data))
    requires UsesServer(s.core.cfg) && UsesServer(Parse(data, w.host).value)
    ensures var c := Parse(data, w.host).value;
      var end := EditedAndSaved(w, s, data);
      var listed := ByKey(Only(end.adopted.peers, Synced));
      && listed == end.core.book.syncedPeers
      && (k in listed <==> k in s.core.book.syncedPeers && !ManuallyListed(c.peers, k))
      && (k in listed ==> listed[k] == s.core.book.syncedPeers[k])
      && (Parse(end.file, w.host).Ok? ==> Parse(end.file, w.host) == Ok(end.adopted))
  {
    var c := Parse(data, w.host).value;
    var edited := Step(w, s, Edit(data));
    var checked := Step(w, edited, Check(true));
    ParsedEntries(data, w);
    CheckKeepsInvariant(w, edited, true);
    EditKeepsServerList(s.core, c, k);
    CheckTakesEdit(w, s, data);
    SaveAfterCheck(w, checked);
  }

  /** After the check, what the file says is in use. */
  lemma CheckTakesEdit(w: World, s: State, data: FileData)
    requires Invariant(w, s) && Parse(data, w.host).Ok? && !Reverted(s.(file := data))
    ensures var c := Parse(data, w.host).value;
      var checked := CheckStep(w, s.(file := data), true);
      && checked.adopted == c && checked.file == data && !checked.torn
      && checked.core.lastRead == Some(data)
      && checked.core.cfg.serverURL == s.core.cfg.serverURL
      && checked.core.book.syncedPeers == UseEdits(s.core, c).book.syncedPeers
  {
    var c := Parse(data, w.host).value;
    if Some(data) == s.core.lastRead {
      NothingNewToTake(w, s, data);
    } else {
      assert CheckStep(w, s.(file := data), true) == State(UseEdits(s.core.(lastRead := Some(data)), c), data, c, false);
    }
  }

  /** Bytes already read bring no edit. */
  lemma NothingNewToTake(w: World, s: State, data: FileData)
    requires Invariant(w, s) && Parse(data, w.host).Ok? && !s.torn && s.core.lastRead == Some(data)
    ensures s.adopted == Parse(data, w.host).value
    ensures CheckStep(w, s.(file := data), true) == s.(file := data)
    ensures UseEdits(s.core, s.adopted).book.syncedPeers == s.core.book.syncedPeers
  {
    assert Parse(data, w.host) == Ok(s.adopted);
    assert Outside(s.core.book.syncedPeers, s.core.book.staticPeers, s.core.book.blockedPeers) == s.core.book.syncedPeers;
  }

  lemma SaveAfterCheck(w: World, s: State)
    requires Invariant(w, s) && !s.torn && s.core.lastRead == Some(s.file)
    requires Parse(s.file, w.host).Ok? && UsesServer(s.core.cfg) && UsesServer(s.adopted)
    ensures var end := Step(w, s, Save(true, true));
      && end.core.book.syncedPeers == s.core.book.syncedPeers
      && ByKey(Only(end.adopted.peers, Synced)) == end.core.book.syncedPeers
      && (Parse(end.file, w.host).Ok? ==> Parse(end.file, w.host) == Ok(end.adopted))
  {
    assert Parse(s.file, w.host) == Ok(s.adopted);
    StepKeepsInvariant(w, s, Save(true, true));
    var end := Step(w, s, Save(true, true));
    if NeedsSave(s.core) {
      SaveWrites(w, s);
      WrittenWithServer(s, s.file, s.adopted);
    }
    assert Remembering(end);
  }

  // Reverted bytes

  /** Writing over reverted bytes keeps the invariant exactly when the file on
      disk happens to say what is in use. */
  lemma RevertedWriteExact(w: World, s: State, d: Core)
    requires Invariant(w, s) && Reverted(s) && Parse(s.file, w.host).Ok?
    requires Good(w, d, s.adopted) && d.lastRead == s.core.lastRead
    ensures Invariant(w, SaveStep(w, s, d, true, true)) <==> Follows(d, Parse(s.file, w.host).value)
  {
    var disk := Parse(s.file, w.host).value;
    var out := ToWrite(d, disk);
    var end := SaveStep(w, s, d, true, true);
    ParsedEntries(s.file, w);
    WritingSteps(w, s, d);
    if Follows(d, disk) {
      ParsedInUse(s.file, w.host);
      WriteGood(w, d, disk);
      WrittenIsReadBack(d, disk, w.host);
    }
    if Invariant(w, end) {
      ManualMapsKept(d, disk);
    }
  }

  /** The two events that write: a save, */
  lemma RevertedSaveExact(w: World, s: State)
    requires Invariant(w, s) && Reverted(s) && NeedsSave(s.core) && Parse(s.file, w.host).Ok?
    ensures Invariant(w, Step(w, s, Save(true, true))) <==> Follows(s.core, Parse(s.file, w.host).value)
  {
    RevertedWriteExact(w, s, s.core);
    SaveIsWriting(w, s);
  }

  lemma SaveIsWriting(w: World, s: State)
    requires NeedsSave(s.core)
    ensures Step(w, s, Save(true, true)) == SaveStep(w, s, s.core, true, true)
  {
  }

  lemma WithKeyGood(w: World, d: Core, c: FileConfig, key: Key)
    requires Good(w, d, c)
    ensures Good(w, WithKey(d, key), c)
    ensures forall e :: Follows(WithKey(d, key), e) <==> Follows(d, e)
  {
  }

  /** and the saving of a new key. */
  lemma RevertedNewKeyExact(w: World, s: State, key: Key)
    requires Invariant(w, s) && Reverted(s) && s.core.cfg.privateKey == ZERO_KEY && Parse(s.file, w.host).Ok?
    ensures Invariant(w, Step(w, s, NewKey(key, true, true))) <==> Follows(s.core, Parse(s.file, w.host).value)
  {
    WithKeyGood(w, s.core, s.adopted, key);
    RevertedWriteExact(w, s, WithKey(s.core, key));
    NewKeyIsWriting(w, s, key);
  }

  /** How that comes about: with a save pending, someone edits the static peers,
      the save takes up the edit but cannot write, and the edit is undone. The
      next save then leaves meshd using static peers that the file does not
      have, and nothing will make it look again. */
  lemma {:induction false} RevertedEditSticks(w: World, s: State, data: FileData)
    requires Invariant(w, s) && NeedsSave(s.core) && !s.torn && s.core.lastRead == Some(s.file)
    requires Parse(s.file, w.host).Ok? && Parse(data, w.host).Ok?
    requires ByKey(Only(Parse(data, w.host).value.peers, Static)) != ByKey(Only(Parse(s.file, w.host).value.peers, Static))
    ensures var end := Run(w, s, [Edit(data), Save(true, false), Edit(s.file), Save(true, true)]);
      && end.core.lastRead == Some(end.file)
      && end.core.book.staticPeers != ByKey(Only(end.adopted.peers, Static))
      && end.file == Marshal(end.adopted)
  {
    var s2 := Step(w, Step(w, s, Edit(data)), Save(true, false));
    RunOfFour(w, s, Edit(data), Save(true, false), Edit(s.file), Save(true, true));
    FailedSaveTakesEdit(w, s, data);
    SavesUnderOldBytes(w, Step(w, s2, Edit(s.file)));
  }

  lemma FailedSaveTakesEdit(w: World, s: State, data: FileData)
    requires Invariant(w, s) && NeedsSave(s.core)
    requires Parse(data, w.host).Ok? && s.core.lastRead != Some(data)
    ensures var c := Parse(data, w.host).value;
      var after := Step(w, Step(w, s, Edit(data)), Save(true, false));
      && NeedsSave(after.core) && after.core.lastRead == s.core.lastRead
      && BookOk(after.core.book)
      && after.core.book.staticPeers == ByKey(Only(c.peers, Static))
  {
    FailingSave(w, s.(file := data));
    EditStaysPending(s.core, Parse(data, w.host).value);
    ParsedEntries(data, w);
    WithManualEditsOk(s.core.book, Parse(data, w.host).value.peers, UsesServer(s.core.cfg));
  }

  /** A save that takes up an edit and cannot write. */
  lemma FailingSave(w: World, s: State)
    requires NeedsSave(s.core) && Parse(s.file, w.host).Ok? && s.core.lastRead != Some(s.file)
    ensures var c := Parse(s.file, w.host).value;
      Step(w, s, Save(true, false)) == State(UseEdits(s.core, c), s.file, c, true)
  {
    FailingSteps(w, s, s.core);
  }

  lemma EditStaysPending(d: Core, c: FileConfig)
    requires NeedsSave(d)
    ensures NeedsSave(UseEdits(d, c)) && UseEdits(d, c).lastRead == d.lastRead
    ensures UseEdits(d, c).book == WithManualEdits(d.book, c.peers, UsesServer(d.cfg))
    ensures UseEdits(d, c).book.staticPeers == ByKey(Only(c.peers, Static))
  {
  }

  lemma SavesUnderOldBytes(w: World, s: State)
    requires NeedsSave(s.core) && s.core.lastRead == Some(s.file) && Parse(s.file, w.host).Ok? && BookOk(s.core.book)
    ensures var end := Step(w, s, Save(true, true));
      && end.core.lastRead == Some(end.file) && end.file == Marshal(end.adopted)
      && end.core.book.staticPeers == s.core.book.staticPeers
      && ByKey(Only(end.adopted.peers, Static)) == ByKey(Only(Parse(s.file, w.host).value.peers, Static))
  {
    var disk := Parse(s.file, w.host).value;
    SaveWrites(w, s);
    ParsedEntries(s.file, w);
    WritingKeepsStatic(s.core, disk);
  }

  lemma WritingKeepsStatic(d: Core, disk: FileConfig)
    requires BookOk(d.book) && DistinctKeys(disk.peers)
    ensures Written(d, ToWrite(d, disk)).book.staticPeers == d.book.staticPeers
    ensures Only(ToWrite(d, disk).peers, Static) == Only(disk.peers, Static)
  {
    ManualMapsKept(d, disk);
  }

  lemma {:induction false} RunOfTwo(w: World, s: State, a: Event, b: Event)
    ensures Run(w, s, [a, b]) == Step(w, Step(w, s, a), b)
  {
    RunSnoc(w, s, [], a);
    RunSnoc(w, s, [a], b);
    assert [] + [a] == [a] && [a] + [b] == [a, b];
  }

  lemma {:induction false} RunOfFour(w: World, s: State, a: Event, b: Event, c: Event, d: Event)
    ensures Run(w, s, [a, b, c, d]) == Step(w, Step(w, Step(w, Step(w, s, a), b), c), d)
  {
    RunOfTwo(w, s, a, b);
    RunSnoc(w, s, [a, b], c);
    assert [a, b] + [c] == [a, b, c];
    RunSnoc(w, s, [a, b, c], d);
    assert [a, b, c] + [d] == [a, b, c, d];
  }
}
