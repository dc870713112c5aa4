/** Nothing that meshd asks of the device is refused by it: what Validate lets
    through fits the device's fields, over every run. So a pass can fail only
    because a tunnel cannot be opened or a session breaks down. */
module Fitting {
  import opened Wrappers
  import opened Keys
  import opened PeerBook
  import opened ConfigFile
  import opened Meshd
  import opened MeshdRuns
  import opened Pass
  import opened PassRuns
  import Apply

  /** The settings in use fit, and the static peers' prefixes are valid. */
  ghost predicate SettingsFit(d: Core) {
    && 0 <= d.cfg.listenPort <= 65535 && 0 <= d.cfg.keepalive <= 65535
    && forall k :: k in d.book.staticPeers ==> AllValid(d.book.staticPeers[k].allowedIPs)
  }

  lemma ParsedFits(data: FileData, w: World)
    requires Parse(data, w.host).Ok?
    ensures var c := Parse(data, w.host).value;
      && 1 <= c.listenPort <= 65535 && 0 <= c.keepalive <= 65535
      && forall k :: k in ByKey(Only(c.peers, Static)) ==> AllValid(ByKey(Only(c.peers, Static))[k].allowedIPs)
  {
    var c := Parse(data, w.host).value;
    ParsedInUse(data, w.host);
    forall k | k in ByKey(Only(c.peers, Static))
      ensures AllValid(ByKey(Only(c.peers, Static))[k].allowedIPs)
    {
      var p := ByKey(Only(c.peers, Static))[k];
      var i :| 0 <= i < |c.peers| && c.peers[i] == p;
      assert AcceptablePeer(c.peers[i]);
    }
  }

  lemma CheckKeepsFit(w: World, d: Core, data: Option<FileData>)
    requires SettingsFit(d)
    ensures SettingsFit(CheckConfig(d, data, w.host))
  {
    if data.Some? && Parse(data.value, w.host).Ok? {
      ParsedFits(data.value, w);
    }
  }

  lemma SaveKeepsFit(w: World, s: State, d: Core, readable: bool, writable: bool)
    requires SettingsFit(d)
    ensures SettingsFit(SaveStep(w, s, d, readable, writable).core)
  {
    if Parse(s.file, w.host).Ok? {
      ParsedFits(s.file, w);
    }
  }

  lemma SyncKeepsFit(w: World, d: Core, r: Replies)
    requires SettingsFit(d)
    ensures SettingsFit(SyncServer(d, w.parseKey, r).0)
  {
    SyncTakesAnswer(d, w.parseKey, r);
  }

  lemma StepKeepsFit(w: World, s: State, e: Event)
    requires SettingsFit(s.core)
    ensures SettingsFit(Step(w, s, e).core)
  {
    match e
    case Edit(_) =>
    case Check(readable) => CheckKeepsFit(w, s.core, Readable(s, readable));
    case Sync(replies) => SyncKeepsFit(w, s.core, replies);
    case Save(readable, writable) => SaveKeepsFit(w, s, s.core, readable, writable);
    case NewKey(key, readable, writable) =>
      SaveKeepsFit(w, s, s.core.(cfg := s.core.cfg.(privateKey := key), newKey := true), readable, writable);
    case Restart =>
      if Parse(s.file, w.host).Ok? {
        ParsedFits(s.file, w);
      }
  }

  /** Over every run of the daemon the settings fit. */
  lemma {:induction false} RunKeepsFit(w: World, s: State, events: seq<Event>)
    requires SettingsFit(s.core)
    ensures SettingsFit(Run(w, s, events).core)
  {
    if events != [] {
      var n := |events| - 1;
      RunKeepsFit(w, s, events[..n]);
      StepKeepsFit(w, Run(w, s, events[..n]), events[n]);
    }
  }

  lemma TargetFits(d: Core, pub: Key)
    requires Orderly(d) && SettingsFit(d)
    ensures Apply.Fits(Target(d, pub, d.cfg.address))
  {
    forall q | q in Target(d, pub, d.cfg.address).peers
      ensures Apply.Takable(q)
    {
      var p := AskedForAreBooks(d, pub, d.cfg.address, q);
      assert AllValid(p.allowedIPs);
      SecondsOfWhole(d.cfg.keepalive);
    }
  }

  /** Nothing stands in the way of the update. */
  predicate Unhindered(c: Circumstances) { c.opens && c.fault.None? }

  lemma UpdateSucceeds(curve: Key -> Key, d: Core, pub: Key, l: Link, c: Circumstances)
    requires Orderly(d) && SettingsFit(d) && PossibleFor(d, pub, l, c) && Unhindered(c)
    ensures UpdateTunnel(curve, d, pub, l, c).1 == if d.cfg.address.Prefix? then UpToDate else NoAddressYet
  {
    if d.cfg.address.Prefix? {
      var t := EnsureTunnel(l, d.cfg.address, c.opens).0.tunnel.value;
      TargetFits(d, pub);
      TargetKeys(d, pub, d.cfg.address);
      Apply.SucceedsExactly(curve, t, Target(d, pub, d.cfg.address), c.order, c.fault);
    }
  }

  lemma CheckedIsOrderly(w: World, d: Core, data: Option<FileData>)
    requires Orderly(d)
    ensures Orderly(CheckConfig(d, data, w.host))
  {
    if data.Some? && data != d.lastRead && Parse(data.value, w.host).Ok? {
      CatchingUpKeepsOrderly(w, data.value, d);
      UseEditsOrderly(w, d, data.value);
    }
  }

  lemma UseEditsOrderly(w: World, d: Core, data: FileData)
    requires Orderly(d) && Parse(data, w.host).Ok?
    ensures Orderly(UseEdits(d.(lastRead := Some(data)), Parse(data, w.host).value))
  {
    ParsedEntries(data, w);
    UseEditsGood(w, d.(lastRead := Some(data)), Parse(data, w.host).value);
  }

  lemma SyncedIsOrderly(w: World, d: Core, x: Conditions)
    requires Orderly(d) && SettingsFit(d)
    ensures Orderly(AfterSync(w, d, x).0) && SettingsFit(AfterSync(w, d, x).0)
  {
    if UsesServer(d.cfg) {
      SyncKeepsOrderly(w, d, x.replies);
      SyncKeepsFit(w, d, x.replies);
    }
  }

  /** A pass in which tunnels can be opened and no session breaks down leaves the
      tunnel up to date, once there is an address. */
  lemma PassSucceeds(curve: Key -> Key, w: World, d: Core, pub: Key, l: Link, x: Conditions)
    requires Orderly(d) && SettingsFit(d) && PossibleOrders(curve, w, d, pub, l, x)
    requires Unhindered(x.first) && Unhindered(x.second)
    ensures var r := BringUpToDate(curve, w, d, pub, l, x);
      var d1 := CheckConfig(d, x.atCheck, w.host);
      && LastOutcome(r) == (if d1.cfg.address.Prefix? || AfterSync(w, d1, x).1 then UpToDate else NoAddressYet)
      && r.synced == AfterSync(w, d1, x).1
  {
    var d1 := CheckConfig(d, x.atCheck, w.host);
    CheckedIsOrderly(w, d, x.atCheck);
    CheckKeepsFit(w, d, x.atCheck);
    UpdateSucceeds(curve, d1, pub, DropDead(l, x.died), x.first);
    SyncedIsOrderly(w, d1, x);
    var l1 := UpdateTunnel(curve, d1, pub, DropDead(l, x.died), x.first).0;
    var (d2, synced) := AfterSync(w, d1, x);
    AfterSyncFacts(w, d1, x);
    if synced {
      UpdateSucceeds(curve, d2, pub, l1, x.second);
    }
  }

  lemma OpenedFits(w: World, data: FileData, c: FileConfig, o: Opening)
    requires Parse(data, w.host) == Ok(c)
    ensures SettingsFit(OpenedState(w, data, c, o).core)
  {
    ParsedFits(data, w);
    var s := Found(State(Started(c), data, c, false), o.atCheck);
    assert SettingsFit(s.core);
    StepKeepsFit(w, s, Check(o.atCheck.Some?));
    StepKeepsFit(w, CheckedStart(w, data, c, o), NewKey(o.key, o.atSave.Some?, o.writable));
  }

  lemma {:induction false} LifeFits(curve: Key -> Key, w: World, data: FileData, c: FileConfig, o: Opening, pub: Key, turns: seq<Turn>)
    requires Parse(data, w.host) == Ok(c)
    ensures SettingsFit(Life(curve, w, OpenedState(w, data, c, o), pub, turns).state.core)
  {
    var s := OpenedState(w, data, c, o);
    if turns == [] {
      OpenedFits(w, data, c, o);
    } else {
      var front, turn := turns[..|turns| - 1], turns[|turns| - 1];
      LifeFits(curve, w, data, c, o, pub, front);
      var m := Life(curve, w, s, pub, front);
      RunKeepsFit(w, Found(m.state, turn.x.atCheck), PassEvents(turn.x, Life(curve, w, s, pub, turns).last));
    }
  }

  /** Whatever has happened in the life of a daemon, with edits, failures, other
      tools and torn saves: the next pass in which tunnels can be opened and no
      session breaks down leaves the tunnel up to date, if the machine has an
      address or gets one. */
  lemma {:induction false} UnhinderedTurnSucceeds(curve: Key -> Key, w: World, data: FileData, c: FileConfig, o: Opening, pub: Key,
                               turns: seq<Turn>, turn: Turn)
    requires Parse(data, w.host) == Ok(c) && Opens(w, c, o)
    requires var s := OpenedState(w, data, c, o);
      pub == curve(s.core.cfg.privateKey) && PossibleLife(curve, w, s, pub, turns)
      && var m := Life(curve, w, s, pub, turns);
         PossibleOrders(curve, w, m.last.core, pub, MeddledLink(m.last.link, turn.meddled), turn.x)
    requires Unhindered(turn.x.first) && Unhindered(turn.x.second)
    ensures var m := Life(curve, w, OpenedState(w, data, c, o), pub, turns);
      var d1 := CheckConfig(m.last.core, turn.x.atCheck, w.host);
      d1.cfg.address.Prefix? || AfterSync(w, d1, turn.x).1 ==>
        LastOutcome(NextMoment(curve, w, m, pub, turn).last) == UpToDate
  {
    LifeInOrder(curve, w, data, c, o, pub, turns);
    LifeFits(curve, w, data, c, o, pub, turns);
    var m := Life(curve, w, OpenedState(w, data, c, o), pub, turns);
    PassSucceeds(curve, w, m.last.core, pub, MeddledLink(m.last.link, turn.meddled), turn.x);
  }
}
