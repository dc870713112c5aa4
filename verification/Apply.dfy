/** One Apply, and whole histories of them: counting, skipping, failing and
    trying again. */
module Apply {
  import opened Wrappers
  import opened Sequences
  import opened Keys
  import opened WgState
  import opened Device
  import opened Reconcile
  import opened Convergence
  import opened Retarget

  // Counting

  datatype Changes = Changes(iface: bool, added: nat, updated: nat, removed: nat)

  const NO_CHANGES := Changes(false, 0, 0, 0)

  function Added(before: map<Key, Peer>, peers: seq<Peer>, n: nat): nat
    requires n <= |peers|
  {
    if n == 0 then 0 else Added(before, peers, n - 1) + (if Existed(before, peers, n - 1) then 0 else 1)
  }

  function Updated(before: map<Key, Peer>, peers: seq<Peer>, n: nat): nat
    requires n <= |peers|
  {
    if n == 0 then 0
    else
      Updated(before, peers, n - 1)
      + (if Existed(before, peers, n - 1) && !Skipped(before, peers, n - 1) then 1 else 0)
  }

  function ChangesOf(applied: Config, want: Config): Changes {
    var before := Before(applied.peers);
    Changes(
      want.iface.privateKey != applied.iface.privateKey || want.iface.listenPort != applied.iface.listenPort,
      Added(before, want.peers, |want.peers|),
      Updated(before, want.peers, |want.peers|),
      |before.Keys - KeysOf(want.peers)|)
  }

  /** Wanted keys that were applied with other settings. */
  function ChangedKeys(before: map<Key, Peer>, peers: seq<Peer>): set<Key> {
    set p | p in peers && p.publicKey in before && !SameSettings(p, before[p.publicKey]) :: p.publicKey
  }

  lemma KeysOfSnoc(peers: seq<Peer>, n: nat)
    requires 0 < n <= |peers| && UniqueKeys(peers)
    ensures KeysOf(peers[..n]) == KeysOf(peers[..n - 1]) + {peers[n - 1].publicKey}
    ensures peers[n - 1].publicKey !in KeysOf(peers[..n - 1])
  {
    assert peers[..n] == peers[..n - 1] + [peers[n - 1]];
  }

  lemma NewKeys(before: map<Key, Peer>, peers: seq<Peer>, n: nat)
    requires 0 < n <= |peers| && UniqueKeys(peers)
    ensures |KeysOf(peers[..n]) - before.Keys|
         == |KeysOf(peers[..n - 1]) - before.Keys| + if peers[n - 1].publicKey in before then 0 else 1
    ensures Existed(before, peers, n - 1) <==> peers[n - 1].publicKey in before
  {
    KeysOfSnoc(peers, n);
    SetSnoc(KeysOf(peers[..n - 1]), before.Keys, peers[n - 1].publicKey);
  }

  lemma {:induction false} AddedExact(before: map<Key, Peer>, peers: seq<Peer>, n: nat)
    requires n <= |peers| && UniqueKeys(peers)
    ensures Added(before, peers, n) == |KeysOf(peers[..n]) - before.Keys|
  {
    if n > 0 {
      AddedExact(before, peers, n - 1);
      NewKeys(before, peers, n);
    } else {
      assert KeysOf(peers[..0]) - before.Keys == {};
    }
  }

  lemma SetSnoc(s: set<Key>, t: set<Key>, k: Key)
    requires k !in s
    ensures |(s + {k}) - t| == |s - t| + if k in t then 0 else 1
  {
    if k in t {
      assert (s + {k}) - t == s - t;
    } else {
      assert (s + {k}) - t == (s - t) + {k};
    }
  }

  lemma ChangedKeysSnoc(before: map<Key, Peer>, front: seq<Peer>, p: Peer)
    requires p.publicKey !in KeysOf(front)
    ensures var changed := p.publicKey in before && !SameSettings(p, before[p.publicKey]);
      |ChangedKeys(before, front + [p])| == |ChangedKeys(before, front)| + if changed then 1 else 0
  {
    var changed := p.publicKey in before && !SameSettings(p, before[p.publicKey]);
    var s, t := ChangedKeys(before, front), ChangedKeys(before, front + [p]);
    assert s <= KeysOf(front);
    assert forall q :: q in front + [p] <==> q in front || q == p;
    if changed {
      assert p in front + [p] && p.publicKey in t;
      assert t == s + {p.publicKey};
    } else {
      assert t == s;
    }
  }

  lemma {:induction false} UpdatedExact(before: map<Key, Peer>, peers: seq<Peer>, n: nat)
    requires n <= |peers| && UniqueKeys(peers)
    ensures Updated(before, peers, n) == |ChangedKeys(before, peers[..n])|
  {
    if n > 0 {
      UpdatedExact(before, peers, n - 1);
      NextPrefix(peers, n - 1);
      KeysOfSnoc(peers, n);
      ChangedKeysSnoc(before, peers[..n - 1], peers[n - 1]);
    } else {
      assert ChangedKeys(before, peers[..0]) == {};
    }
  }

  /** The counts are what their names say. */
  lemma ChangesExact(applied: Config, want: Config)
    requires UniqueKeys(want.peers)
    ensures var ch := ChangesOf(applied, want);
      && ch.added == |KeysOf(want.peers) - KeysOf(applied.peers)|
      && ch.updated == |ChangedKeys(Before(applied.peers), want.peers)|
      && ch.removed == |KeysOf(applied.peers) - KeysOf(want.peers)|
  {
    AddedExact(Before(applied.peers), want.peers, |want.peers|);
    UpdatedExact(Before(applied.peers), want.peers, |want.peers|);
    assert want.peers[..|want.peers|] == want.peers;
  }

  /** Both configure the device the same way, whatever their names, order,
      address and MTU. */
  ghost predicate SettingsEquivalent(applied: Config, want: Config) {
    && applied.iface.privateKey == want.iface.privateKey
    && applied.iface.listenPort == want.iface.listenPort
    && KeysOf(applied.peers) == KeysOf(want.peers)
    && forall p :: p in want.peers ==> Unchanged(Before(applied.peers), p)
  }

  /** Nothing is counted exactly when the two configurations are the same to
      the device. */
  lemma NothingCounted(applied: Config, want: Config)
    requires UniqueKeys(want.peers)
    ensures ChangesOf(applied, want) == NO_CHANGES <==> SettingsEquivalent(applied, want)
  {
    ChangesExact(applied, want);
    var before := Before(applied.peers);
    var added, removed := KeysOf(want.peers) - KeysOf(applied.peers), KeysOf(applied.peers) - KeysOf(want.peers);
    var changed := ChangedKeys(before, want.peers);
    if ChangesOf(applied, want) == NO_CHANGES {
      assert added == {} && removed == {} && changed == {};
      forall p | p in want.peers
        ensures Unchanged(before, p)
      {
        assert p.publicKey !in added && p.publicKey !in changed;
      }
      forall k | k in KeysOf(applied.peers)
        ensures k in KeysOf(want.peers)
      {
        assert k !in removed;
      }
    }
    if SettingsEquivalent(applied, want) {
      assert added == {} && removed == {} && changed == {};
    }
  }

  /** The same settings under the same keys, in whatever order, and whatever the
      names. */
  ghost predicate SamePeers(a: seq<Peer>, b: seq<Peer>) {
    EachIn(a, b) && EachIn(b, a)
  }

  ghost predicate EachIn(a: seq<Peer>, b: seq<Peer>) {
    forall p :: p in a ==> exists q :: q in b && SameButName(p, q)
  }

  predicate SameButName(p: Peer, q: Peer) {
    p.publicKey == q.publicKey && p.endpoint == q.endpoint && p.keepalive == q.keepalive && p.allowedIPs == q.allowedIPs
  }

  lemma EachInKeys(a: seq<Peer>, b: seq<Peer>)
    requires EachIn(a, b)
    ensures KeysOf(a) <= KeysOf(b)
  {
    forall k | k in KeysOf(a)
      ensures k in KeysOf(b)
    {
      var p :| p in a && p.publicKey == k;
      var q :| q in b && SameButName(p, q);
    }
  }

  lemma {:induction false} EachInUnchanged(applied: seq<Peer>, want: seq<Peer>)
    requires UniqueKeys(applied) && EachIn(want, applied)
    ensures forall q :: q in want ==> Unchanged(Before(applied), q)
  {
    forall q | q in want
      ensures Unchanged(Before(applied), q)
    {
      var p :| p in applied && SameButName(q, p);
      SameKeySamePeer(applied, p, Before(applied)[q.publicKey]);
    }
  }

  /** Configurations are equivalent exactly when they have the same private key,
      port, and peers; names, order, address and MTU do not count. */
  lemma EquivalentExact(applied: Config, want: Config)
    requires UniqueKeys(applied.peers)
    ensures SettingsEquivalent(applied, want) <==>
      && applied.iface.privateKey == want.iface.privateKey && applied.iface.listenPort == want.iface.listenPort
      && SamePeers(applied.peers, want.peers)
  {
    if SettingsEquivalent(applied, want) {
      EquivalentSamePeers(applied, want);
    }
    if SamePeers(applied.peers, want.peers) {
      EachInKeys(applied.peers, want.peers);
      EachInKeys(want.peers, applied.peers);
      EachInUnchanged(applied.peers, want.peers);
    }
  }

  lemma EquivalentSamePeers(applied: Config, want: Config)
    requires UniqueKeys(applied.peers) && SettingsEquivalent(applied, want)
    ensures SamePeers(applied.peers, want.peers)
  {
    var before := Before(applied.peers);
    forall q | q in want.peers
      ensures exists p :: p in applied.peers && SameButName(q, p)
    {
      assert SameButName(q, before[q.publicKey]);
    }
    forall p | p in applied.peers
      ensures exists q :: q in want.peers && SameButName(p, q)
    {
      assert p.publicKey in KeysOf(want.peers);
      var q :| q in want.peers && q.publicKey == p.publicKey;
      SameKeySamePeer(applied.peers, p, before[q.publicKey]);
      assert SameButName(p, q);
    }
  }

  /** Renaming peers, listing them in another order, and another address or MTU
      are no change: nothing is counted and nothing is sent. */
  lemma NamesDoNotCount(applied: Config, want: Config, order: seq<Key>)
    requires UniqueKeys(applied.peers) && UniqueKeys(want.peers) && IsRemovalOrder(applied, want, order)
    requires applied.iface.privateKey == want.iface.privateKey && applied.iface.listenPort == want.iface.listenPort
    requires SamePeers(applied.peers, want.peers)
    ensures ChangesOf(applied, want) == NO_CHANGES && Script(applied, want, order) == []
  {
    EquivalentExact(applied, want);
    NothingCounted(applied, want);
    EquivalentSendsNothing(applied, want, order);
  }

  lemma EquivalentSendsNothing(applied: Config, want: Config, order: seq<Key>)
    requires UniqueKeys(want.peers) && IsRemovalOrder(applied, want, order)
    requires SettingsEquivalent(applied, want)
    ensures Script(applied, want, order) == []
  {
    var blocks := Blocks(applied.peers, want.peers, order);
    BlocksContents(applied, want, order);
    if blocks != [] {
      SomeBlock(blocks);
    }
  }

  lemma SomeBlock(blocks: seq<Block>)
    requires blocks != []
    ensures (exists p :: Put(p) in blocks) || (exists k :: Drop(k) in blocks)
  {
    match blocks[0]
    case Put(p) => assert Put(p) in blocks;
    case Drop(k) => assert Drop(k) in blocks;
  }

  lemma SendingNothingIsEquivalent(applied: Config, want: Config, order: seq<Key>)
    requires UniqueKeys(want.peers) && IsRemovalOrder(applied, want, order)
    requires Script(applied, want, order) == []
    ensures SettingsEquivalent(applied, want)
  {
    var before := Before(applied.peers);
    var blocks := Blocks(applied.peers, want.peers, order);
    BlocksContents(applied, want, order);
    NoLines(blocks);
    forall p | p in want.peers
      ensures Unchanged(before, p)
    {
      assert Put(p) !in blocks;
    }
    forall k | k in KeysOf(applied.peers)
      ensures k in KeysOf(want.peers)
    {
      assert Drop(k) !in blocks;
    }
    forall k | k in KeysOf(want.peers)
      ensures k in KeysOf(applied.peers)
    {
      var p :| p in want.peers && p.publicKey == k;
      assert Unchanged(before, p);
    }
  }

  lemma {:induction false} NoLines(blocks: seq<Block>)
    ensures Flatten(blocks) == [] <==> blocks == []
  {
    if blocks != [] {
      FlattenSplit(blocks, 0);
    }
  }

  /** Apply sends nothing exactly when it counts nothing. */
  lemma SkipIsExact(applied: Config, want: Config, order: seq<Key>)
    requires UniqueKeys(want.peers) && IsRemovalOrder(applied, want, order)
    ensures ChangesOf(applied, want) == NO_CHANGES <==> Script(applied, want, order) == []
  {
    NothingCounted(applied, want);
    if SettingsEquivalent(applied, want) {
      EquivalentSendsNothing(applied, want, order);
    } else if Script(applied, want, order) == [] {
      SendingNothingIsEquivalent(applied, want, order);
    }
  }

  lemma EquivalentAgrees(dev: Device, applied: Config, want: Config)
    requires SettingsEquivalent(applied, want) && UniqueKeys(applied.peers)
    ensures Agrees(dev, applied) <==> Agrees(dev, want)
  {
    var before := Before(applied.peers);
    forall p | p in applied.peers
      ensures exists q :: q in want.peers && q.publicKey == p.publicKey && SameSettings(q, p)
    {
      assert p.publicKey in KeysOf(want.peers);
      var q :| q in want.peers && q.publicKey == p.publicKey;
      SameKeySamePeer(applied.peers, p, before[q.publicKey]);
    }
    if Agrees(dev, want) {
      forall p | p in applied.peers
        ensures Matches(dev, p)
      {
        var q :| q in want.peers && q.publicKey == p.publicKey && SameSettings(q, p);
        assert Matches(dev, q);
      }
    }
    if Agrees(dev, applied) {
      forall q | q in want.peers
        ensures Matches(dev, q)
      {
        assert Matches(dev, before[q.publicKey]);
      }
    }
  }

  // One Apply

  /** How many lines the device takes before one it refuses. */
  function Understood(cmds: seq<Command>): (n: nat)
    ensures n <= |cmds|
  {
    if cmds == [] || !Accepts(cmds[0]) then 0 else 1 + Understood(cmds[1..])
  }

  /** How far a session gets that breaks down after `fault` lines. */
  function ReachedLine(cmds: seq<Command>, fault: Option<nat>): (n: nat)
    ensures n <= |cmds|
  {
    if fault.Some? && fault.value < Understood(cmds) then fault.value else Understood(cmds)
  }

  predicate Delivered(cmds: seq<Command>, fault: Option<nat>) {
    fault.None? && Understood(cmds) == |cmds|
  }

  datatype TunnelState = TunnelState(dev: Device, applied: Config)

  const NEW_TUNNEL := TunnelState(FRESH_DEVICE, EMPTY_CONFIG)

  /** Apply, and whether it succeeds. */
  function ApplyStep(curve: Key -> Key, t: TunnelState, want: Config, order: seq<Key>, fault: Option<nat>): (TunnelState, bool) {
    if ChangesOf(t.applied, want) == NO_CHANGES then (t, true)
    else
      var script := Script(t.applied, want, order);
      var dev := RunScript(curve, t.dev, script[..ReachedLine(script, fault)]);
      var ok := Delivered(script, fault);
      (TunnelState(dev, if ok then want else t.applied), ok)
  }

  /** The device takes every line about p. */
  predicate Takable(p: Peer) {
    0 <= Seconds(p.keepalive) < 0x1_0000 && forall a :: a in p.allowedIPs ==> a.Prefix?
  }

  /** Every value fits its field. */
  predicate Fits(c: Config) {
    0 <= c.iface.listenPort < 0x1_0000 && forall p :: p in c.peers ==> Takable(p)
  }

  lemma TakableIsAccepted(p: Peer, c: Command)
    requires Takable(p) && c in BlockLines(Put(p))
    ensures Accepts(c)
  {
    if c in AllowedLines(p.allowedIPs) {
      AllowedLinesContents(p.allowedIPs, c);
    }
  }

  lemma {:induction false} AllUnderstood(cmds: seq<Command>)
    requires forall c :: c in cmds ==> Accepts(c)
    ensures Understood(cmds) == |cmds|
  {
    if cmds != [] {
      assert cmds[0] in cmds;
      assert forall c :: c in cmds[1..] ==> c in cmds;
      AllUnderstood(cmds[1..]);
    }
  }

  lemma ScriptIsTaken(applied: Config, want: Config, order: seq<Key>)
    requires Fits(want) && UniqueKeys(want.peers) && IsRemovalOrder(applied, want, order)
    ensures Understood(Script(applied, want, order)) == |Script(applied, want, order)|
  {
    var blocks := Blocks(applied.peers, want.peers, order);
    BlocksContents(applied, want, order);
    forall c | c in Script(applied, want, order)
      ensures Accepts(c)
    {
      if c in Flatten(blocks) {
        var i := FlattenContents(blocks, c);
        if blocks[i].Put? {
          assert Put(blocks[i].peer) in blocks;
          TakableIsAccepted(blocks[i].peer, c);
        }
      }
    }
    AllUnderstood(Script(applied, want, order));
  }

  /** The device refuses nothing that fits: an Apply fails if and only if there is
      something to send and the session breaks down. */
  lemma SucceedsExactly(curve: Key -> Key, t: TunnelState, want: Config, order: seq<Key>, fault: Option<nat>)
    requires Fits(want) && UniqueKeys(want.peers) && IsRemovalOrder(t.applied, want, order)
    ensures ApplyStep(curve, t, want, order, fault).1 <==> fault.None? || SettingsEquivalent(t.applied, want)
  {
    NothingCounted(t.applied, want);
    ScriptIsTaken(t.applied, want, order);
  }

  // What a tunnel is worth

  /** p is configured as wanted, and unless its key is among the damaged it has
      all of its prefixes. */
  ghost predicate Stands(dev: Device, p: Peer, damaged: set<Key>) {
    Configured(dev, p) && (p.publicKey !in damaged ==> Matches(dev, p))
  }

  ghost predicate AgreesBut(dev: Device, c: Config, damaged: set<Key>) {
    && dev.privateKey == c.iface.privateKey
    && dev.listenPort == c.iface.listenPort
    && forall p :: p in c.peers ==> Stands(dev, p, damaged)
  }

  lemma NothingDamaged(dev: Device, c: Config)
    ensures AgreesBut(dev, c, {}) <==> Agrees(dev, c)
  {
    if Agrees(dev, c) {
      forall p | p in c.peers
        ensures Stands(dev, p, {})
      {
        assert Matches(dev, p);
      }
    }
    if AgreesBut(dev, c, {}) {
      forall p | p in c.peers
        ensures Matches(dev, p)
      {
        assert Stands(dev, p, {});
      }
    }
  }

  /** The wanted peers that may lack prefixes after an Apply: those that share a
      claim with another, and those that lacked some before and are not sent. */
  ghost function Damage(applied: Config, want: Config, damaged: set<Key>): set<Key> {
    set p | p in want.peers && DamagedPeer(applied, want, damaged, p) :: p.publicKey
  }

  ghost predicate DamagedPeer(applied: Config, want: Config, damaged: set<Key>, p: Peer) {
    Contested(want.peers, p) || (Unchanged(Before(applied.peers), p) && p.publicKey in damaged)
  }

  lemma DamageExact(applied: Config, want: Config, damaged: set<Key>, p: Peer)
    requires UniqueKeys(want.peers) && p in want.peers
    ensures p.publicKey in Damage(applied, want, damaged) <==> DamagedPeer(applied, want, damaged, p)
  {
    if p.publicKey in Damage(applied, want, damaged) {
      var q :| q in want.peers && DamagedPeer(applied, want, damaged, q) && q.publicKey == p.publicKey;
      SameKeySamePeer(want.peers, p, q);
    }
  }

  /** Without a shared claim there is no new damage, and what is sent again is
      whole again. */
  lemma DisjointDoesNoDamage(applied: Config, want: Config, damaged: set<Key>)
    requires UniqueKeys(want.peers) && Disjoint(want.peers)
    ensures Damage(applied, want, damaged) <= damaged - RewrittenKeys(applied, want)
  {
    DisjointIsUncontested(want.peers);
    forall p | p in want.peers && DamagedPeer(applied, want, damaged, p)
      ensures p.publicKey in damaged - RewrittenKeys(applied, want)
    {
      UnchangedIsNotRewritten(applied, want, p);
    }
  }

  lemma UnchangedIsNotRewritten(applied: Config, want: Config, p: Peer)
    requires UniqueKeys(want.peers) && p in want.peers && Unchanged(Before(applied.peers), p)
    ensures p.publicKey !in RewrittenKeys(applied, want)
  {
    forall q | q in want.peers && !Unchanged(Before(applied.peers), q)
      ensures q.publicKey != p.publicKey
    {
      if q.publicKey == p.publicKey {
        SameKeySamePeer(want.peers, p, q);
      }
    }
  }

  /** Nothing is left to do: the applied peers stand, and the only others on the
      device are the given ones. */
  ghost predicate Settled(curve: Key -> Key, t: TunnelState, damaged: set<Key>, others: set<Key>) {
    && Sane(curve, Session(t.dev, None))
    && UniqueKeys(t.applied.peers)
    && AgreesBut(t.dev, t.applied, damaged)
    && others !! KeysOf(t.applied.peers)
    && t.dev.peers.Keys == KeysOf(t.applied.peers) + others
  }

  /** Keys that neither configuration nor the machine itself accounts for. */
  ghost function Unasked(curve: Key -> Key, want: Config, others: set<Key>): set<Key> {
    others - KeysOf(want.peers) - {curve(want.iface.privateKey)}
  }

  /** Applying want now, or going on trying to, will settle the tunnel. */
  ghost predicate Owing(curve: Key -> Key, t: TunnelState, want: Config, damaged: set<Key>, others: set<Key>) {
    && Sane(curve, Session(t.dev, None))
    && UniqueKeys(t.applied.peers)
    && InterfaceRight(t.dev, t.applied, want)
    && SkippedStand(t.dev, t.applied, want, damaged)
    && others == Unasked(curve, want, others) && others !! KeysOf(t.applied.peers)
    && others <= t.dev.peers.Keys
    && t.dev.peers.Keys <= KeysOf(t.applied.peers) + KeysOf(want.peers) + {curve(want.iface.privateKey)} + others
  }

  ghost predicate SkippedStand(dev: Device, applied: Config, want: Config, damaged: set<Key>) {
    forall p :: p in want.peers && Unchanged(Before(applied.peers), p) ==> Stands(dev, p, damaged)
  }

  lemma NewTunnelSettled(curve: Key -> Key)
    ensures Settled(curve, NEW_TUNNEL, {}, {})
  {
  }

  lemma SettledIsOwing(curve: Key -> Key, t: TunnelState, want: Config, damaged: set<Key>, others: set<Key>)
    requires Settled(curve, t, damaged, others)
    ensures Owing(curve, t, want, damaged, Unasked(curve, want, others))
  {
    var before := Before(t.applied.peers);
    forall p | p in want.peers && Unchanged(before, p)
      ensures Stands(t.dev, p, damaged)
    {
      assert Stands(t.dev, before[p.publicKey], damaged);
    }
  }

  /** The wanted peers stand, and the only others on the device are the given
      ones. */
  ghost predicate Reached(curve: Key -> Key, t: TunnelState, want: Config, damaged: set<Key>, others: set<Key>) {
    && Settled(curve, t, damaged, others)
    && SettingsEquivalent(t.applied, want)
    && AgreesBut(t.dev, want, damaged)
    && t.dev.peers.Keys == KeysOf(want.peers) + others
  }

  lemma SkippingConverges(curve: Key -> Key, t: TunnelState, want: Config, damaged: set<Key>, others: set<Key>)
    requires Admissible(curve, want) && Owing(curve, t, want, damaged, others) && SettingsEquivalent(t.applied, want)
    ensures Reached(curve, t, want, Damage(t.applied, want, damaged), others)
  {
    var now := Damage(t.applied, want, damaged);
    forall q | q in want.peers
      ensures Stands(t.dev, q, now)
    {
      assert Stands(t.dev, q, damaged);
      DamageExact(t.applied, want, damaged, q);
    }
    EquivalentStands(t.dev, t.applied, want, now);
    StandingKeys(t.dev, want, now);
  }

  lemma StandingKeys(dev: Device, c: Config, damaged: set<Key>)
    requires AgreesBut(dev, c, damaged)
    ensures KeysOf(c.peers) <= dev.peers.Keys
  {
    forall k | k in KeysOf(c.peers)
      ensures k in dev.peers
    {
      var p :| p in c.peers && p.publicKey == k;
      assert Stands(dev, p, damaged);
    }
  }

  /** What stands for the wanted peers stands for the equivalent applied ones. */
  lemma EquivalentStands(dev: Device, applied: Config, want: Config, damaged: set<Key>)
    requires SettingsEquivalent(applied, want) && UniqueKeys(applied.peers) && AgreesBut(dev, want, damaged)
    ensures AgreesBut(dev, applied, damaged)
  {
    var before := Before(applied.peers);
    forall p | p in applied.peers
      ensures Stands(dev, p, damaged)
    {
      assert p.publicKey in KeysOf(want.peers);
      var q :| q in want.peers && q.publicKey == p.publicKey;
      SameKeySamePeer(applied.peers, p, before[q.publicKey]);
      assert Stands(dev, q, damaged);
    }
  }

  lemma SendingConverges(curve: Key -> Key, t: TunnelState, want: Config, order: seq<Key>, damaged: set<Key>, others: set<Key>)
    requires Admissible(curve, want) && IsRemovalOrder(t.applied, want, order)
    requires Owing(curve, t, want, damaged, others)
    ensures Reached(curve, TunnelState(RunScript(curve, t.dev, Script(t.applied, want, order)), want), want,
                    Damage(t.applied, want, damaged), others)
  {
    var script := Script(t.applied, want, order);
    var dev := RunScript(curve, t.dev, script);
    ScriptInterface(curve, t.dev, t.applied, want, order);
    forall p | p in want.peers
      ensures Stands(dev, p, Damage(t.applied, want, damaged))
    {
      DamageExact(t.applied, want, damaged, p);
      if Rewritten(t.applied, want, p) {
        RewrittenAfter(curve, t.dev, t.applied, want, order, p);
      } else {
        assert Stands(t.dev, p, damaged);
        UncontestedKept(curve, t.dev, t.applied, want, order, |script|, p);
        assert script[..|script|] == script;
      }
    }
    SendingKeys(curve, t, want, order, damaged, others);
    SelfEquivalent(want);
  }

  lemma SendingKeys(curve: Key -> Key, t: TunnelState, want: Config, order: seq<Key>, damaged: set<Key>, others: set<Key>)
    requires Admissible(curve, want) && IsRemovalOrder(t.applied, want, order)
    requires Owing(curve, t, want, damaged, others)
    ensures RunScript(curve, t.dev, Script(t.applied, want, order)).peers.Keys == KeysOf(want.peers) + others
  {
    ScriptKeys(curve, t.dev, t.applied, want, order);
    forall k | k in KeysOf(want.peers)
      ensures k in RewrittenKeys(t.applied, want) || k in t.dev.peers
    {
      var p :| p in want.peers && p.publicKey == k;
      if Unchanged(Before(t.applied.peers), p) {
        assert Stands(t.dev, p, damaged);
      }
    }
  }

  lemma FailingKeepsOwing(curve: Key -> Key, t: TunnelState, want: Config, order: seq<Key>, n: nat,
                          damaged: set<Key>, others: set<Key>)
    requires Admissible(curve, want) && IsRemovalOrder(t.applied, want, order)
    requires Owing(curve, t, want, damaged, others) && n <= |Script(t.applied, want, order)|
    ensures Owing(curve, t.(dev := RunScript(curve, t.dev, Script(t.applied, want, order)[..n])), want,
                  Damage(t.applied, want, damaged), others)
  {
    var dev := RunScript(curve, t.dev, Script(t.applied, want, order)[..n]);
    InterruptionIsSane(curve, t.dev, t.applied, want, order, n);
    InterruptionKeys(curve, t.dev, t.applied, want, order, n);
    InterruptedInterface(curve, t.dev, t.applied, want, order, n);
    forall p | p in want.peers && Unchanged(Before(t.applied.peers), p)
      ensures Stands(dev, p, Damage(t.applied, want, damaged))
    {
      assert Stands(t.dev, p, damaged);
      DamageExact(t.applied, want, damaged, p);
      UncontestedKept(curve, t.dev, t.applied, want, order, n, p);
    }
    forall k | k in others
      ensures k in dev.peers
    {
      StrangerKept(curve, t.dev, t.applied, want, order, n, k);
    }
  }

  /** A success leaves the wanted peers standing, skipped or not, but for the
      damage that shared claims do; a failure leaves the tunnel owing the same
      configuration. Peers of other tools stay. */
  lemma ApplyConverges(curve: Key -> Key, t: TunnelState, want: Config, order: seq<Key>, fault: Option<nat>,
                       damaged: set<Key>, others: set<Key>)
    requires Admissible(curve, want) && IsRemovalOrder(t.applied, want, order)
    requires Owing(curve, t, want, damaged, others)
    ensures var (u, ok) := ApplyStep(curve, t, want, order, fault);
      && (ok ==> Reached(curve, u, want, Damage(t.applied, want, damaged), others))
      && (!ok ==> Owing(curve, u, want, Damage(t.applied, want, damaged), others))
  {
    if ChangesOf(t.applied, want) == NO_CHANGES {
      NothingCounted(t.applied, want);
      SkippingConverges(curve, t, want, damaged, others);
    } else {
      var script := Script(t.applied, want, order);
      if Delivered(script, fault) {
        assert script[..ReachedLine(script, fault)] == script;
        SendingConverges(curve, t, want, order, damaged, others);
      } else {
        FailingKeepsOwing(curve, t, want, order, ReachedLine(script, fault), damaged, others);
      }
    }
  }

  lemma SelfEquivalent(c: Config)
    requires UniqueKeys(c.peers)
    ensures SettingsEquivalent(c, c)
  {
    var before := Before(c.peers);
    forall p | p in c.peers
      ensures Unchanged(before, p)
    {
      SameKeySamePeer(c.peers, p, before[p.publicKey]);
    }
  }

  /** Owing one configuration is owing another that is safe to ask for next. */
  lemma OwingTransfers(curve: Key -> Key, t: TunnelState, failed: Config, want: Config, damaged: set<Key>, others: set<Key>)
    requires Owing(curve, t, failed, damaged, others) && SafeRetarget(curve, t.applied, failed, want)
    requires want.iface.privateKey == failed.iface.privateKey && UniqueKeys(failed.peers)
    ensures Owing(curve, t, want, damaged, Unasked(curve, want, others))
  {
    forall p | p in want.peers && Unchanged(Before(t.applied.peers), p)
      ensures Stands(t.dev, p, damaged)
    {
      var q :| q in failed.peers && q.publicKey == p.publicKey && Unchanged(Before(t.applied.peers), q);
      assert Stands(t.dev, q, damaged);
    }
  }
}
