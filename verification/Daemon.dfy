/** The daemon as it runs: one object whose methods change the settings, the
    book, the tunnel and the timers step by step. Every method is tied to the
    function that specifies it, and what holds over whole runs is proved there.
    The clock, the file, the server and the luck of the moment are parameters. */
module Daemon {
  import opened Wrappers
  import opened Sequences
  import opened Keys
  import opened Netip
  import opened PeerBook
  import opened ConfigFile
  import opened Validation
  import opened Meshd
  import opened Backoff
  import opened Pass
  import BookObject = Book
  import TunnelObject = Tunnel
  import MeshdRuns
  import Wg = WgState
  import Reconcile
  import Apply

  /** Manual entries as they are on disk, then the server's. */
  method MergePeers(onDisk: seq<Peer>, fromServer: seq<Peer>) returns (out: seq<Peer>)
    ensures out == Merged(onDisk, fromServer)
    ensures exists at, bt :: MergedFrom(onDisk, fromServer, out, at, bt)
  {
    MergedInOrder(onDisk, fromServer);
    out := [];
    var manual: set<Key> := {};
    for i := 0 to |onDisk|
      invariant out == Manual(onDisk[..i]) && manual == KeysIn(out)
    {
      NextPrefix(onDisk, i);
      FrontOfSnoc(onDisk[..i], onDisk[i]);
      if onDisk[i].source != Synced {
        out := out + [onDisk[i]];
        manual := manual + {onDisk[i].publicKey};
      }
    }
    assert onDisk[..|onDisk|] == onDisk;
    ghost var kept := out;
    assert kept + NotIn(fromServer[..0], manual) == kept;
    for i := 0 to |fromServer|
      invariant out == kept + NotIn(fromServer[..i], manual)
    {
      NextPrefix(fromServer, i);
      FrontOfSnoc(fromServer[..i], fromServer[i]);
      if fromServer[i].publicKey !in manual {
        Regroup(kept, NotIn(fromServer[..i], manual), [fromServer[i]]);
        out := out + [fromServer[i]];
      }
    }
    assert fromServer[..|fromServer|] == fromServer;
  }

  /** The server's list as peer book entries, broken ones skipped. */
  method ReadServerPeers(parseKey: string -> Option<Key>, list: seq<ServerPeer>) returns (out: seq<Peer>)
    ensures out == ServerPeers(parseKey, list)
    ensures exists at :: ReadFrom(parseKey, list, out, at)
  {
    out := [];
    for i := 0 to |list|
      invariant out == ServerPeers(parseKey, list[..i])
    {
      NextPrefix(list, i);
      FrontOfSnoc(list[..i], list[i]);
      var p := PeerFromServer(parseKey, list[i]);
      if p.Some? {
        out := out + [p.value];
      }
    }
    assert list[..|list|] == list;
    ghost var at := ServerPeersInOrder(parseKey, list);
  }

  class Daemon {
    const host: Option<string>
    const parseKey: string -> Option<Key>
    const curve: Key -> Key
    const http: bool  // a client for the coordination server exists
    const book: BookObject.Book
    var cfg: FileConfig
    var pub: Key
    var tun: TunnelObject.Tunnel?
    var tunAddr: Prefix
    var backoff: int
    var nextSync: int
    var unsaved: bool
    var newKey: bool
    var lastRead: Option<FileData>
    ghost var calls: seq<Call>  // what the calls of SyncIfDue have done so far

    ghost function World(): MeshdRuns.World {
      MeshdRuns.World(host, parseKey)
    }

    ghost function State(): Core
      reads this, book
    {
      Core(cfg, book.State(), unsaved, newKey, lastRead)
    }

    ghost function Tunnel(): Link
      reads this, tun
    {
      if tun == null then Link(None, tunAddr) else Link(Some(tun.State()), tunAddr)
    }

    ghost predicate Valid()
      reads this, book
    {
      && BookOk(book.State())
      && http == UsesServer(cfg)
      && TimersAre(nextSync, backoff, calls)
      && (tun == null ==> tunAddr == NoPrefix)
    }

    constructor (cfg: FileConfig, host: Option<string>, parseKey: string -> Option<Key>, curve: Key -> Key)
      ensures Valid() && fresh(book)
      ensures State() == Core(cfg, EMPTY_BOOK, false, false, None)
      ensures Tunnel() == NO_LINK && nextSync == 0 && calls == []
      ensures this.host == host && this.parseKey == parseKey && this.curve == curve
    {
      this.host, this.parseKey, this.curve := host, parseKey, curve;
      this.cfg := cfg;
      http := UsesServer(cfg);
      book := new BookObject.Book();
      pub, tun, tunAddr := ZERO_KEY, null, NoPrefix;
      backoff, nextSync := MIN_BACKOFF, 0;
      unsaved, newKey, lastRead := false, false, None;
      calls := [];
    }

    /** Puts the configuration's peers in the book. */
    method LoadPeers()
      requires Valid() && DistinctKeys(cfg.peers)
      modifies book
      ensures Valid()
      ensures State() == old(State()).(book := Loaded(old(book.State()), cfg.peers, UsesServer(cfg)))
    {
      book.LoadFromConfig(cfg.peers, UsesServer(cfg));
      LoadedOk(old(book.State()), cfg.peers, UsesServer(cfg));
    }

    // Edits

    method TakeEdits(c: FileConfig)
      requires Valid() && DistinctKeys(c.peers)
      modifies this`cfg, book
      ensures Valid()
      ensures State() == UseEdits(old(State()), c)
    {
      var _ := book.UpdateManualPeers(c.peers, UsesServer(cfg));
      WithManualEditsOk(old(book.State()), c.peers, UsesServer(cfg));
      if c.listenPort != cfg.listenPort {
        cfg := cfg.(listenPort := c.listenPort);
      }
      if c.keepalive != cfg.keepalive {
        cfg := cfg.(keepalive := c.keepalive);
      }
      if !UsesServer(cfg) && c.address != cfg.address {
        cfg := cfg.(address := c.address);
      }
      cfg := cfg.(name := c.name);
    }

    method CheckFile(data: Option<FileData>)
      requires Valid()
      modifies this`cfg, this`lastRead, book
      ensures Valid() && Tunnel() == old(Tunnel())
      ensures State() == CheckConfig(old(State()), data, host)
    {
      if data.None? || data == lastRead {
        return;
      }
      lastRead := data;
      var c := ParseConfig(data.value, host);
      if c.Err? {
        return;
      }
      MeshdRuns.ParsedEntries(data.value, World());
      TakeEdits(c.value);
    }

    // Saving

    /** Writes meshd's parts into the file, and gives back what it wrote. */
    method WriteFile(data: Option<FileData>, writable: bool) returns (written: Option<FileData>)
      requires Valid()
      modifies this`cfg, this`lastRead, this`unsaved, this`newKey, book
      ensures Valid()
      ensures (State(), written) == SaveFile(old(State()), data, host, writable)
    {
      if data.None? {
        return None;
      }
      var parsed := ParseConfig(data.value, host);
      if parsed.Err? {
        return None;
      }
      CatchUp(data.value, parsed.value);
      var out := Compose(parsed.value);
      if !writable {
        return None;
      }
      MarkWritten(out);
      return Some(Marshal(out));
    }

    /** Takes up the file's edits, if they have not been seen. */
    method CatchUp(data: FileData, disk: FileConfig)
      requires Valid() && Parse(data, host) == Ok(disk)
      modifies this`cfg, book
      ensures Valid()
      ensures State() == CaughtUp(old(State()), data, disk)
    {
      MeshdRuns.ParsedEntries(data, World());
      if Some(data) != lastRead {
        TakeEdits(disk);
      }
    }

    method MarkWritten(out: FileConfig)
      requires Valid()
      modifies this`lastRead, this`unsaved, this`newKey, book
      ensures Valid()
      ensures State() == Written(old(State()), out)
    {
      lastRead := Some(Marshal(out));
      unsaved := false;
      newKey := false;
      book.MarkSaved();
    }

    /** The file's configuration with meshd's parts in it. */
    method Compose(disk: FileConfig) returns (out: FileConfig)
      requires Valid()
      ensures out == ToWrite(State(), disk)
    {
      out := disk;
      if newKey {
        out := out.(privateKey := cfg.privateKey);
      }
      if UsesServer(cfg) && UsesServer(disk) {
        var fromServer := book.ServerPeers();
        var peers := MergePeers(disk.peers, fromServer);
        out := out.(address := cfg.address, peers := peers);
      }
    }

    method WriteIfNeeded(data: Option<FileData>, writable: bool) returns (written: Option<FileData>)
      requires Valid()
      modifies this`cfg, this`lastRead, this`unsaved, this`newKey, book
      ensures Valid() && Tunnel() == old(Tunnel())
      ensures (State(), written) == SaveIfNeeded(old(State()), data, host, writable)
    {
      if !unsaved && !book.dirty {
        return None;
      }
      written := WriteFile(data, writable);
    }

    /** Makes a key if the machine has none, and saves it right away. */
    method EnsureKey(generated: Key, data: Option<FileData>, writable: bool) returns (written: Option<FileData>)
      requires Valid()
      modifies this`cfg, this`pub, this`lastRead, this`unsaved, this`newKey, book
      ensures Valid()
      ensures (State(), written) == MakeKey(old(State()), generated, data, host, writable)
      ensures old(cfg.privateKey) != ZERO_KEY || written.Some? ==> pub == curve(cfg.privateKey)
    {
      if cfg.privateKey == ZERO_KEY {
        cfg := cfg.(privateKey := generated);
        newKey := true;
        written := WriteFile(data, writable);
        if written.None? {
          return;
        }
      } else {
        written := None;
      }
      pub := curve(cfg.privateKey);
    }

    /** What Run does before its first pass. Without a saved key it ends there. */
    method StartUp(atCheck: Option<FileData>, generated: Key, atSave: Option<FileData>, writable: bool)
      returns (ok: bool, written: Option<FileData>)
      requires Valid() && DistinctKeys(cfg.peers)
      requires State() == Core(cfg, EMPTY_BOOK, false, false, None)
      modifies this`cfg, this`pub, this`lastRead, this`unsaved, this`newKey, book
      ensures Valid()
      ensures (State(), written) == MakeKey(CheckConfig(Started(old(cfg)), atCheck, host), generated, atSave, host, writable)
      ensures ok == (old(cfg.privateKey) != ZERO_KEY || written.Some?)
      ensures ok ==> pub == curve(cfg.privateKey)
    {
      LoadPeers();
      CheckFile(atCheck);
      ok := cfg.privateKey != ZERO_KEY;
      written := EnsureKey(generated, atSave, writable);
      ok := ok || written.Some?;
    }

    // Syncing

    method UseAddress(p: Prefix)
      requires Valid()
      modifies this`cfg, this`unsaved
      ensures Valid()
      ensures State() == SetAddress(old(State()), p)
    {
      cfg := cfg.(address := p);
      unsaved := true;
    }

    method Register(reply: RegisterReply) returns (ok: bool)
      requires Valid()
      modifies this`cfg, this`unsaved
      ensures Valid()
      ensures (State(), ok) == RegisterOnce(old(State()), reply)
    {
      var p := AssignedAddress(reply);
      if p.None? {
        return false;
      }
      UseAddress(p.value);
      return true;
    }

    method AcceptReply(reply: SyncReply)
      requires Valid() && reply.Answered?
      modifies this`cfg, this`unsaved, book
      ensures Valid()
      ensures State() == TakeReply(old(State()), parseKey, reply)
    {
      var ip := ParseAddr(reply.selfIP);
      if ip.Some? && cfg.address.Prefix? && ip.value != cfg.address.addr {
        UseAddress(Prefix(ip.value, cfg.address.bits));
      }
      var list := ReadServerPeers(parseKey, reply.peers);
      WithServerListOk(book.State(), list);
      book.SetFromServer(list);
    }

    method SyncOnce(r: Replies) returns (interval: Option<int>)
      requires Valid()
      modifies this`cfg, this`unsaved, book
      ensures Valid()
      ensures (State(), interval) == SyncServer(old(State()), parseKey, r)
    {
      if cfg.address.NoPrefix? {
        var ok := Register(r.register1);
        if !ok {
          return None;
        }
      }
      var reply := r.sync1;
      if reply.UnknownMachine? {
        var ok := Register(r.register2);
        if !ok {
          return None;
        }
        reply := r.sync2;
      }
      if !reply.Answered? {
        return None;
      }
      AcceptReply(reply);
      return Some(reply.interval);
    }

    /** Doubles the backoff up to its limit; jitter is what was drawn. */
    method NextBackoff(jitter: int) returns (wait: int)
      requires 0 <= jitter < backoff / 4 + 1
      modifies this`backoff
      ensures backoff == Doubled(old(backoff))
      ensures wait == old(backoff) + jitter && PossibleWait(old(backoff), wait)
    {
      var current := backoff;
      backoff := backoff * 2;
      if backoff > MAX_BACKOFF {
        backoff := MAX_BACKOFF;
      }
      wait := current + jitter;
    }

    /** A sync, unless it is too early for one, and the time of the next: after a
        success by the server's interval, or 30 seconds, and after a failure by
        the backoff. */
    method SyncIfDue(now: int, done: int, r: Replies, jitter: int) returns (synced: bool)
      requires Valid() && 0 <= jitter < backoff / 4 + 1
      modifies this`cfg, this`unsaved, this`backoff, this`nextSync, this`calls, book
      ensures Valid() && Tunnel() == old(Tunnel())
      ensures !http ==>
        State() == old(State()) && !synced && calls == old(calls) && nextSync == old(nextSync)
      ensures http && now < old(nextSync) ==>
        State() == old(State()) && !synced && calls == old(calls) + [TooEarly(now)] && nextSync == old(nextSync)
      ensures http && now >= old(nextSync) ==>
        var (e, interval) := SyncServer(old(State()), parseKey, r);
        && State() == e && synced == interval.Some?
        && (interval.None? ==>
              && calls == old(calls) + [Failed(now, done, nextSync - done)]
              && nextSync == done + BackoffAfter(Outcomes(old(calls))) + jitter)
        && (interval.Some? ==>
              && calls == old(calls) + [Succeeded(now, done, interval.value)]
              && nextSync == done + (if interval.value > 0 then interval.value else 30) * Wg.SECOND)
    {
      if !http {
        return false;
      }
      if now < nextSync {
        Record(TooEarly(now));
        return false;
      }
      var interval := SyncAndPlan(now, done, r, jitter);
      return interval.Some?;
    }

    /** A sync that is due. */
    method SyncAndPlan(now: int, done: int, r: Replies, jitter: int) returns (interval: Option<int>)
      requires Valid() && 0 <= jitter < backoff / 4 + 1 && now >= nextSync
      modifies this`cfg, this`unsaved, this`backoff, this`nextSync, this`calls, book
      ensures Valid()
      ensures (State(), interval) == SyncServer(old(State()), parseKey, r)
      ensures interval.None? ==>
        && calls == old(calls) + [Failed(now, done, nextSync - done)]
        && nextSync == done + BackoffAfter(Outcomes(old(calls))) + jitter
      ensures interval.Some? ==>
        && calls == old(calls) + [Succeeded(now, done, interval.value)]
        && nextSync == done + (if interval.value > 0 then interval.value else 30) * Wg.SECOND
    {
      interval := SyncOnce(r);
      if interval.None? {
        PlanRetry(now, done, jitter);
      } else {
        PlanNext(now, done, interval.value);
      }
    }

    /** The time of the next sync after one that failed. */
    method PlanRetry(now: int, done: int, jitter: int)
      requires Valid() && 0 <= jitter < backoff / 4 + 1 && nextSync <= now
      modifies this`backoff, this`nextSync, this`calls
      ensures Valid() && State() == old(State())
      ensures nextSync == done + BackoffAfter(Outcomes(old(calls))) + jitter
      ensures calls == old(calls) + [Failed(now, done, nextSync - done)]
    {
      var wait := NextBackoff(jitter);
      nextSync := done + wait;
      Record(Failed(now, done, wait));
    }

    /** The time of the next sync after one that succeeded. */
    method PlanNext(now: int, done: int, interval: int)
      requires Valid() && nextSync <= now
      modifies this`backoff, this`nextSync, this`calls
      ensures Valid() && State() == old(State())
      ensures nextSync == done + (if interval > 0 then interval else 30) * Wg.SECOND
      ensures calls == old(calls) + [Succeeded(now, done, interval)]
    {
      var duration := interval * Wg.SECOND;
      if duration <= 0 {
        duration := 30 * Wg.SECOND;
      }
      backoff := MIN_BACKOFF;
      nextSync := done + duration;
      Record(Succeeded(now, done, interval));
    }

    /** Keeps the record of what calls have done. */
    ghost method Record(c: Call)
      requires BookOk(book.State()) && http == UsesServer(cfg) && (tun == null ==> tunAddr == NoPrefix)
      requires PossibleCalls(calls) && MayBeNext(calls, c) && Plans(calls, c, nextSync, backoff)
      modifies this`calls
      ensures Valid() && calls == old(calls) + [c]
    {
      TimersAfter(calls, c, nextSync, backoff);
      calls := calls + [c];
    }

    /** Somebody asks for a sync now. */
    method HurrySync()
      requires Valid()
      modifies this`nextSync, this`calls
      ensures Valid() && State() == old(State()) && Tunnel() == old(Tunnel())
      ensures nextSync == 0 && calls == old(calls) + [Hurried]
    {
      nextSync := 0;
      Record(Hurried);
    }

    // The tunnel

    method CloseTunnel()
      requires Valid()
      modifies this`tun, this`tunAddr
      ensures Valid()
      ensures Tunnel() == NO_LINK && tun == null
    {
      if tun == null {
        return;
      }
      tun := null;
      tunAddr := NoPrefix;
    }

    /** Nothing is left of a tunnel that has died. */
    method DropDeadTunnel(died: bool)
      requires Valid()
      modifies this`tun, this`tunAddr
      ensures Valid() && State() == old(State())
      ensures Tunnel() == DropDead(old(Tunnel()), died)
      ensures tun == null || tun == old(tun)
    {
      if died {
        CloseTunnel();
      }
    }

    /** A tunnel that has this address: the one there is, or a new one. */
    method KeepTunnel(addr: Prefix, opens: bool) returns (ok: bool)
      requires Valid()
      modifies this`tun, this`tunAddr
      ensures Valid() && State() == old(State())
      ensures (Tunnel(), ok) == EnsureTunnel(old(Tunnel()), addr, opens)
      ensures ok ==> tun != null
      ensures tun == old(tun) || tun == null || fresh(tun)
    {
      if tun != null && tunAddr != addr {
        CloseTunnel();
      }
      if tun != null {
        return true;
      }
      if !opens {
        return false;
      }
      tun := new TunnelObject.Tunnel();
      tunAddr := addr;
      return true;
    }

    /** What the tunnel should look like, by the book and the settings. */
    method WantedTunnel(addr: Prefix) returns (want: Wg.Config)
      requires Valid()
      ensures want == Target(State(), pub, addr)
    {
      var peers := book.Peers();
      var list: seq<Wg.Peer> := [];
      for i := 0 to |peers|
        invariant list == TunnelPeerList(peers[..i], pub, cfg.keepalive)
      {
        NextPrefix(peers, i);
        FrontOfSnoc(peers[..i], peers[i]);
        if peers[i].publicKey != pub {
          list := list + [TunnelPeer(peers[i], cfg.keepalive)];
        }
      }
      assert peers[..|peers|] == peers;
      want := Wg.Config(Wg.Interface(cfg.privateKey, addr, cfg.listenPort, cfg.mtu), list);
    }

    /** Makes the tunnel match the book. */
    method ApplyPeers(addr: Prefix, fault: Option<nat>) returns (ok: bool, ghost order: seq<Key>)
      requires Valid() && tun != null
      modifies tun
      ensures Reconcile.IsRemovalOrder(old(tun.applied), Target(State(), pub, addr), order)
      ensures (tun.State(), ok) == Apply.ApplyStep(curve, old(tun.State()), Target(State(), pub, addr), order, fault)
    {
      var want := WantedTunnel(addr);
      var r;
      r, order := tun.Apply(curve, want, fault);
      ok := r.Ok?;
    }

    /** Makes the tunnel match the book, once there is an address. */
    method RefreshTunnel(opens: bool, fault: Option<nat>) returns (o: Outcome, ghost order: seq<Key>)
      requires Valid()
      modifies this`tun, this`tunAddr, tun
      ensures Valid() && State() == old(State())
      ensures PossibleFor(State(), pub, old(Tunnel()), Circumstances(opens, order, fault))
      ensures (Tunnel(), o) == UpdateTunnel(curve, State(), pub, old(Tunnel()), Circumstances(opens, order, fault))
      ensures tun == old(tun) || tun == null || fresh(tun)
    {
      order := [];
      if cfg.address.NoPrefix? {
        return NoAddressYet, order;
      }
      var addr := cfg.address;
      var ok := KeepTunnel(addr, opens);
      if !ok {
        return NotOpened, order;
      }
      ok, order := ApplyPeers(addr, fault);
      return if ok then UpToDate else NotApplied, order;
    }

    // The pass

    /** The sync of a pass, if it is due, and another update if it succeeds. */
    method SyncAndRefresh(now: int, done: int, replies: Replies, jitter: int, opens: bool, fault: Option<nat>, ghost x: Conditions)
      returns (synced: bool, second: Outcome, ghost order: seq<Key>)
      requires Valid() && 0 <= jitter < backoff / 4 + 1
      requires x.due == (now >= nextSync) && x.replies == replies
      modifies this`cfg, this`unsaved, this`backoff, this`nextSync, this`calls, this`tun, this`tunAddr, book, tun
      ensures Valid()
      ensures (State(), synced) == AfterSync(World(), old(State()), x)
      ensures !synced ==> second == NoAddressYet && Tunnel() == old(Tunnel())
      ensures synced ==>
        && (Tunnel(), second) == UpdateTunnel(curve, State(), pub, old(Tunnel()), Circumstances(opens, order, fault))
        && PossibleFor(State(), pub, old(Tunnel()), Circumstances(opens, order, fault))
    {
      second, order := NoAddressYet, [];
      synced := SyncIfDue(now, done, replies, jitter);
      if synced {
        second, order := RefreshTunnel(opens, fault);
      }
    }

    /** What follows the first update of a pass: a sync, if it is due, another
        update if it succeeds, and the save. x is the rest of what the pass
        meets. */
    method FinishPass(now: int, done: int, replies: Replies, jitter: int, opens: bool, fault: Option<nat>,
                      atSave: Option<FileData>, writable: bool, ghost x: Conditions, first: Outcome)
      returns (synced: bool, second: Outcome, written: Option<FileData>, ghost order: seq<Key>)
      requires Valid() && 0 <= jitter < backoff / 4 + 1
      requires x.due == (now >= nextSync) && x.replies == replies && x.atSave == atSave && x.writable == writable
      modifies this, book, tun
      ensures Valid() && pub == old(pub)
      ensures PassResult(State(), Tunnel(), written, first, synced, second)
           == Rest(curve, World(), old(State()), pub, old(Tunnel()), x.(second := Circumstances(opens, order, fault)), first)
      ensures PossibleAfter(World(), old(State()), pub, old(Tunnel()), x.(second := Circumstances(opens, order, fault)), first)
    {
      synced, second, order, written := false, NoAddressYet, [], None;
      if first == NotOpened {
        return;
      }
      synced, second, order := SyncAndRefresh(now, done, replies, jitter, opens, fault, x);
      if second != NotOpened {
        written := WriteIfNeeded(atSave, writable);
      }
    }

    /** The first half of a pass: take up edits and make the tunnel match. */
    method StartPass(died: bool, atCheck: Option<FileData>, opens: bool, fault: Option<nat>)
      returns (first: Outcome, ghost order: seq<Key>)
      requires Valid()
      modifies this`cfg, this`lastRead, this`tun, this`tunAddr, book, tun
      ensures Valid()
      ensures State() == CheckConfig(old(State()), atCheck, host)
      ensures (Tunnel(), first)
           == UpdateTunnel(curve, State(), pub, DropDead(old(Tunnel()), died), Circumstances(opens, order, fault))
      ensures PossibleFor(State(), pub, DropDead(old(Tunnel()), died), Circumstances(opens, order, fault))
      ensures tun == old(tun) || tun == null || fresh(tun)
    {
      DropDeadTunnel(died);
      CheckFile(atCheck);
      first, order := RefreshTunnel(opens, fault);
    }

    /** One pass. The removal orders in x are those its two updates happened to
        take; a tunnel that cannot be opened ends the pass and the daemon. */
    method RunPass(died: bool, atCheck: Option<FileData>, opens1: bool, fault1: Option<nat>,
                   now: int, done: int, replies: Replies, jitter: int, opens2: bool, fault2: Option<nat>,
                   atSave: Option<FileData>, writable: bool)
      returns (first: Outcome, synced: bool, second: Outcome, written: Option<FileData>, ghost x: Conditions)
      requires Valid() && 0 <= jitter < backoff / 4 + 1
      modifies this, book, tun
      ensures Valid() && pub == old(pub)
      ensures x == Conditions(died, atCheck, Circumstances(opens1, x.first.order, fault1), now >= old(nextSync), replies,
                              Circumstances(opens2, x.second.order, fault2), atSave, writable)
      ensures PassResult(State(), Tunnel(), written, first, synced, second)
           == BringUpToDate(curve, World(), old(State()), pub, old(Tunnel()), x)
      ensures PossibleOrders(curve, World(), old(State()), pub, old(Tunnel()), x)
    {
      ghost var order: seq<Key>;
      first, order := StartPass(died, atCheck, opens1, fault1);
      x := Conditions(died, atCheck, Circumstances(opens1, order, fault1), now >= nextSync, replies,
                      Circumstances(opens2, [], fault2), atSave, writable);
      synced, second, written, order := FinishPass(now, done, replies, jitter, opens2, fault2, atSave, writable, x, first);
      x := x.(second := Circumstances(opens2, order, fault2));
    }
  }
}
