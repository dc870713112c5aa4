/** What a script achieves, whole or interrupted. */
module Convergence {
  import opened Wrappers
  import opened Keys
  import opened Netip
  import opened WgState
  import opened Device
  import opened Reconcile

  /** The wanted peers that the script sends. */
  ghost predicate Rewritten(applied: Config, want: Config, p: Peer) {
    p in want.peers && !Unchanged(Before(applied.peers), p)
  }

  ghost function RewrittenClaims(applied: Config, want: Config): set<Prefix> {
    set p, x | p in want.peers && !Unchanged(Before(applied.peers), p) && x in Claims(p) :: x
  }

  /** Each line of a script sets the interface, or is part of the block of a
      rewritten or a removed peer. */
  lemma ScriptContents(applied: Config, want: Config, order: seq<Key>, c: Command)
    requires UniqueKeys(want.peers) && IsRemovalOrder(applied, want, order)
    requires c in Script(applied, want, order)
    ensures c.SetPrivateKey? ==> c.privateKey == want.iface.privateKey && applied.iface.privateKey != want.iface.privateKey
    ensures c.SetListenPort? ==> c.listenPort == want.iface.listenPort && applied.iface.listenPort != want.iface.listenPort
    ensures c.SelectPeer? ==>
      || (exists p :: Rewritten(applied, want, p) && p.publicKey == c.publicKey)
      || c.publicKey in KeysOf(applied.peers) - KeysOf(want.peers)
    ensures c.AllowedIP? ==> Masked(c.prefix) in RewrittenClaims(applied, want)
  {
    var blocks := Blocks(applied.peers, want.peers, order);
    if c in Flatten(blocks) {
      var i := FlattenContents(blocks, c);
      BlockContents(blocks[i], c);
      BlocksContents(applied, want, order);
      assert blocks[i] in blocks;
      match blocks[i]
      case Put(p) => assert Rewritten(applied, want, p);
      case Drop(k) =>
    }
  }

  lemma SameKeySamePeer(peers: seq<Peer>, p: Peer, q: Peer)
    requires UniqueKeys(peers) && p in peers && q in peers && p.publicKey == q.publicKey
    ensures p == q
  {
    var i :| 0 <= i < |peers| && peers[i] == p;
    var j :| 0 <= j < |peers| && peers[j] == q;
  }

  lemma DisjointClaims(peers: seq<Peer>, p: Peer, q: Peer)
    requires Disjoint(peers) && p in peers && q in peers && p != q
    ensures Claims(p) !! Claims(q)
  {
    var i :| 0 <= i < |peers| && peers[i] == p;
    var j :| 0 <= j < |peers| && peers[j] == q;
  }

  /** Another wanted peer claims a prefix of p too. */
  ghost predicate Contested(peers: seq<Peer>, p: Peer) {
    exists q :: q in peers && q.publicKey != p.publicKey && !(Claims(q) !! Claims(p))
  }

  lemma DisjointIsUncontested(peers: seq<Peer>)
    requires UniqueKeys(peers)
    ensures Disjoint(peers) <==> forall p :: p in peers ==> !Contested(peers, p)
  {
    if Disjoint(peers) {
      forall p, q | p in peers && q in peers && p.publicKey != q.publicKey
        ensures Claims(q) !! Claims(p)
      {
        DisjointClaims(peers, q, p);
      }
    }
    if forall p :: p in peers ==> !Contested(peers, p) {
      forall i, j | 0 <= i < j < |peers|
        ensures Claims(peers[i]) !! Claims(peers[j])
      {
        assert peers[i] in peers && peers[j] in peers && !Contested(peers, peers[j]);
      }
    }
  }

  // What a script does not touch

  /** The script neither configures nor removes q, and does not make the device
      q itself. */
  ghost predicate Bystander(curve: Key -> Key, applied: Config, want: Config, q: Key) {
    && q != curve(want.iface.privateKey)
    && q !in KeysOf(applied.peers) - KeysOf(want.peers)
    && forall p :: Rewritten(applied, want, p) ==> p.publicKey != q
  }

  lemma BystanderIsLeftAlone(curve: Key -> Key, applied: Config, want: Config, order: seq<Key>, q: Key)
    requires UniqueKeys(want.peers) && IsRemovalOrder(applied, want, order) && Bystander(curve, applied, want, q)
    ensures LeavesAlone(curve, Script(applied, want, order), q)
  {
    forall c | c in Script(applied, want, order)
      ensures c.SelectPeer? ==> c.publicKey != q
      ensures c.SetPrivateKey? ==> curve(c.privateKey) != q
    {
      ScriptContents(applied, want, order, c);
    }
  }

  /** However far a script gets, a bystander keeps its presence, endpoint and
      keepalive, gains no prefix, and loses only those of rewritten peers. */
  lemma BystanderKept(curve: Key -> Key, dev: Device, applied: Config, want: Config, order: seq<Key>, n: nat, q: Key)
    requires UniqueKeys(want.peers) && IsRemovalOrder(applied, want, order) && Bystander(curve, applied, want, q)
    requires n <= |Script(applied, want, order)|
    ensures var dev' := RunScript(curve, dev, Script(applied, want, order)[..n]);
      && (q in dev'.peers <==> q in dev.peers)
      && (q in dev.peers ==> dev'.peers[q] == dev.peers[q])
      && Owned(dev, q) - RewrittenClaims(applied, want) <= Owned(dev', q) <= Owned(dev, q)
  {
    var script := Script(applied, want, order);
    BystanderIsLeftAlone(curve, applied, want, order, q);
    assert forall c :: c in script[..n] ==> c in script;
    LinesFrame(curve, Session(dev, None), script[..n], q);
    TakenByScript(applied, want, order);
  }

  lemma TakenByScript(applied: Config, want: Config, order: seq<Key>)
    requires UniqueKeys(want.peers) && IsRemovalOrder(applied, want, order)
    ensures Taken(Script(applied, want, order)) <= RewrittenClaims(applied, want)
  {
    forall c | c in Script(applied, want, order) && c.AllowedIP?
      ensures Masked(c.prefix) in RewrittenClaims(applied, want)
    {
      ScriptContents(applied, want, order, c);
    }
  }

  lemma UnchangedIsBystander(curve: Key -> Key, applied: Config, want: Config, p: Peer)
    requires Admissible(curve, want) && p in want.peers && !Rewritten(applied, want, p)
    ensures Bystander(curve, applied, want, p.publicKey)
  {
    forall q | Rewritten(applied, want, q)
      ensures q.publicKey != p.publicKey
    {
      if q.publicKey == p.publicKey {
        SameKeySamePeer(want.peers, p, q);
      }
    }
  }

  /** An unchanged peer that nobody else wants a prefix of loses none. */
  lemma UncontestedIsSafe(applied: Config, want: Config, p: Peer)
    requires UniqueKeys(want.peers) && p in want.peers && !Rewritten(applied, want, p) && !Contested(want.peers, p)
    ensures RewrittenClaims(applied, want) !! Claims(p)
  {
    forall x | x in RewrittenClaims(applied, want)
      ensures x !in Claims(p)
    {
      var q :| q in want.peers && !Unchanged(Before(applied.peers), q) && x in Claims(q);
      if q.publicKey == p.publicKey {
        SameKeySamePeer(want.peers, p, q);
      }
    }
  }

  lemma UncontestedKept(curve: Key -> Key, dev: Device, applied: Config, want: Config, order: seq<Key>, n: nat, p: Peer)
    requires Admissible(curve, want) && IsRemovalOrder(applied, want, order) && n <= |Script(applied, want, order)|
    requires p in want.peers && !Rewritten(applied, want, p)
    ensures var dev' := RunScript(curve, dev, Script(applied, want, order)[..n]);
      && (Configured(dev, p) ==> Configured(dev', p))
      && (Matches(dev, p) && !Contested(want.peers, p) ==> Matches(dev', p))
  {
    UnchangedIsBystander(curve, applied, want, p);
    BystanderKept(curve, dev, applied, want, order, n, p.publicKey);
    if !Contested(want.peers, p) {
      UncontestedIsSafe(applied, want, p);
    }
  }

  // What a whole script does

  lemma {:induction false} InterfaceSet(curve: Key -> Key, dev: Device, applied: Config, want: Config)
    requires Sane(curve, Session(dev, None)) && InterfaceRight(dev, applied, want)
    ensures var s := Exec(curve, Session(dev, None), InterfaceLines(applied.iface, want.iface));
      && s.dev.privateKey == want.iface.privateKey && s.dev.listenPort == want.iface.listenPort
      && Sane(curve, s) && s.selected.None?
      && s.dev.peers == dev.peers - {curve(want.iface.privateKey)}
  {
    var a, w := applied.iface, want.iface;
    var l1 := if w.privateKey != a.privateKey then [SetPrivateKey(w.privateKey)] else [];
    var l2 := if w.listenPort != a.listenPort then [SetListenPort(w.listenPort)] else [];
    ExecConcat(curve, Session(dev, None), l1, l2);
    var s1 := Exec(curve, Session(dev, None), l1);
    if w.privateKey != a.privateKey {
      ExecOne(curve, Session(dev, None), SetPrivateKey(w.privateKey));
    }
    if w.listenPort != a.listenPort {
      ExecOne(curve, s1, SetListenPort(w.listenPort));
    }
  }

  /** The session when the interface has been set and the blocks begin. */
  function Begun(curve: Key -> Key, dev: Device, applied: Config, want: Config): Session {
    Exec(curve, Session(dev, None), InterfaceLines(applied.iface, want.iface))
  }

  /** The blocks leave the interface as it was set, and the device sane. */
  lemma ScriptInterface(curve: Key -> Key, dev: Device, applied: Config, want: Config, order: seq<Key>)
    requires Sane(curve, Session(dev, None)) && InterfaceRight(dev, applied, want)
    ensures var dev' := RunScript(curve, dev, Script(applied, want, order));
      && dev' == Exec(curve, Begun(curve, dev, applied, want), Flatten(Blocks(applied.peers, want.peers, order))).dev
      && dev'.privateKey == want.iface.privateKey && dev'.listenPort == want.iface.listenPort
      && Sane(curve, Session(dev', None))
  {
    var blocks := Blocks(applied.peers, want.peers, order);
    var s0 := Begun(curve, dev, applied, want);
    InterfaceSet(curve, dev, applied, want);
    ExecConcat(curve, Session(dev, None), InterfaceLines(applied.iface, want.iface), Flatten(blocks));
    NoInterfaceLines(blocks);
    InterfaceFrame(curve, s0, Flatten(blocks));
    SaneRun(curve, s0, Flatten(blocks));
  }

  /** A rewritten peer is configured as wanted, whoever else claims its
      prefixes, and owns them all if nobody else does. */
  lemma RewrittenAfter(curve: Key -> Key, dev: Device, applied: Config, want: Config, order: seq<Key>, p: Peer)
    requires Admissible(curve, want) && IsRemovalOrder(applied, want, order)
    requires Sane(curve, Session(dev, None)) && InterfaceRight(dev, applied, want) && Rewritten(applied, want, p)
    ensures var dev' := RunScript(curve, dev, Script(applied, want, order));
      Written(dev, dev', p) && (!Contested(want.peers, p) ==> Matches(dev', p))
  {
    var blocks := Blocks(applied.peers, want.peers, order);
    ScriptInterface(curve, dev, applied, want, order);
    InterfaceSet(curve, dev, applied, want);
    BlocksOneAKey(applied, want, order);
    BlocksContents(applied, want, order);
    assert Put(p) in blocks;
    var i :| 0 <= i < |blocks| && blocks[i] == Put(p);
    BlocksEffect(curve, Begun(curve, dev, applied, want), blocks, i);
    if !Contested(want.peers, p) {
      ClaimsKept(applied, want, order, i);
    }
  }

  lemma ClaimsKept(applied: Config, want: Config, order: seq<Key>, i: nat)
    requires UniqueKeys(want.peers) && IsRemovalOrder(applied, want, order)
    requires i < |Blocks(applied.peers, want.peers, order)| && Blocks(applied.peers, want.peers, order)[i].Put?
    requires !Contested(want.peers, Blocks(applied.peers, want.peers, order)[i].peer)
    ensures KeepsClaims(Blocks(applied.peers, want.peers, order), i)
  {
    var blocks := Blocks(applied.peers, want.peers, order);
    BlocksOneAKey(applied, want, order);
    BlocksContents(applied, want, order);
    forall j | i < j < |blocks|
      ensures BlockClaims(blocks[j]) !! BlockClaims(blocks[i])
    {
      assert blocks[j] in blocks && BlockKey(blocks[i]) != BlockKey(blocks[j]);
      if blocks[j].Put? {
        assert Put(blocks[j].peer) in blocks;
        assert Claims(blocks[j].peer) !! Claims(blocks[i].peer);
      }
    }
  }

  lemma RemovedAfter(curve: Key -> Key, dev: Device, applied: Config, want: Config, order: seq<Key>, k: Key)
    requires Admissible(curve, want) && IsRemovalOrder(applied, want, order)
    requires Sane(curve, Session(dev, None)) && InterfaceRight(dev, applied, want)
    requires k in KeysOf(applied.peers) - KeysOf(want.peers)
    ensures k !in RunScript(curve, dev, Script(applied, want, order)).peers
  {
    var blocks := Blocks(applied.peers, want.peers, order);
    ScriptInterface(curve, dev, applied, want, order);
    InterfaceSet(curve, dev, applied, want);
    BlocksOneAKey(applied, want, order);
    BlocksContents(applied, want, order);
    assert Drop(k) in blocks;
    var i :| 0 <= i < |blocks| && blocks[i] == Drop(k);
    BlocksEffect(curve, Begun(curve, dev, applied, want), blocks, i);
  }

  /** The main result about a whole script: it leads any device on which what
      it does not send is already right to the wanted configuration, for every
      removal order, and it never leaves the device its own peer. */
  lemma ScriptReaches(curve: Key -> Key, dev: Device, applied: Config, want: Config, order: seq<Key>)
    requires Realizable(curve, want) && IsRemovalOrder(applied, want, order)
    requires Sane(curve, Session(dev, None)) && Reconcilable(dev, applied, want)
    ensures Agrees(RunScript(curve, dev, Script(applied, want, order)), want)
    ensures Sane(curve, Session(RunScript(curve, dev, Script(applied, want, order)), None))
  {
    var script := Script(applied, want, order);
    ScriptInterface(curve, dev, applied, want, order);
    DisjointIsUncontested(want.peers);
    forall p | p in want.peers
      ensures Matches(RunScript(curve, dev, script), p)
    {
      if Rewritten(applied, want, p) {
        RewrittenAfter(curve, dev, applied, want, order, p);
      } else {
        UncontestedKept(curve, dev, applied, want, order, |script|, p);
        assert script[..|script|] == script;
      }
    }
  }

  /** The endpoint of every wanted peer afterwards: no command clears one, so a
      peer without its own is left with what the device knew, or with none if it
      is new. */
  lemma EndpointsAfter(curve: Key -> Key, dev: Device, applied: Config, want: Config, order: seq<Key>, p: Peer)
    requires Admissible(curve, want) && IsRemovalOrder(applied, want, order) && p in want.peers
    requires Sane(curve, Session(dev, None)) && Reconcilable(dev, applied, want)
    ensures var dev' := RunScript(curve, dev, Script(applied, want, order));
      p.publicKey in dev'.peers && dev'.peers[p.publicKey].endpoint == EndpointLeft(dev, p)
  {
    var script := Script(applied, want, order);
    if Rewritten(applied, want, p) {
      RewrittenAfter(curve, dev, applied, want, order, p);
    } else {
      UnchangedIsBystander(curve, applied, want, p);
      BystanderKept(curve, dev, applied, want, order, |script|, p.publicKey);
      assert script[..|script|] == script;
    }
  }

  /** Exactly what the script needs of the peers that it skips: their settings
      are right, they own what they claim, and what they own beyond that a
      rewritten peer takes from them. */
  ghost predicate SkippedRight(dev: Device, applied: Config, want: Config) {
    && InterfaceRight(dev, applied, want)
    && forall p :: p in want.peers && Unchanged(Before(applied.peers), p) ==>
         SkippedPeerRight(dev, p, RewrittenClaims(applied, want))
  }

  ghost predicate SkippedPeerRight(dev: Device, p: Peer, taken: set<Prefix>) {
    && p.publicKey in dev.peers
    && dev.peers[p.publicKey].keepalive == Seconds(p.keepalive)
    && (p.endpoint.AddrPort? ==> dev.peers[p.publicKey].endpoint == p.endpoint)
    && Claims(p) <= Owned(dev, p.publicKey) <= Claims(p) + taken
  }

  /** From any device whatever, the script reaches its target if and only if no
      two wanted peers claim the same prefix and what it skips is right. */
  lemma ScriptReachesExactly(curve: Key -> Key, dev: Device, applied: Config, want: Config, order: seq<Key>)
    requires Admissible(curve, want) && IsRemovalOrder(applied, want, order) && Sane(curve, Session(dev, None))
    ensures Agrees(RunScript(curve, dev, Script(applied, want, order)), want)
       <==> Disjoint(want.peers) && SkippedRight(dev, applied, want)
  {
    var dev' := RunScript(curve, dev, Script(applied, want, order));
    if Agrees(dev', want) {
      AgreesDisjoint(dev', want);
      ScriptNeeds(curve, dev, applied, want, order);
    }
    if Disjoint(want.peers) && SkippedRight(dev, applied, want) {
      SkippedRightIsEnough(curve, dev, applied, want, order);
    }
  }

  /** From a device that agrees with the applied configuration, the script
      reaches its target exactly when no two wanted peers claim the same
      prefix. */
  lemma ScriptReachesIffDisjoint(curve: Key -> Key, dev: Device, applied: Config, want: Config, order: seq<Key>)
    requires Admissible(curve, want) && IsRemovalOrder(applied, want, order)
    requires Sane(curve, Session(dev, None)) && Agrees(dev, applied)
    ensures Agrees(RunScript(curve, dev, Script(applied, want, order)), want) <==> Disjoint(want.peers)
  {
    AgreesSkippedRight(dev, applied, want);
    ScriptReachesExactly(curve, dev, applied, want, order);
  }

  lemma ScriptNeeds(curve: Key -> Key, dev: Device, applied: Config, want: Config, order: seq<Key>)
    requires Admissible(curve, want) && IsRemovalOrder(applied, want, order)
    requires Agrees(RunScript(curve, dev, Script(applied, want, order)), want)
    ensures SkippedRight(dev, applied, want)
  {
    var script := Script(applied, want, order);
    assert script[..|script|] == script;
    InterfaceNotSent(curve, dev, applied, want, order);
    forall p | p in want.peers && Unchanged(Before(applied.peers), p)
      ensures SkippedPeerRight(dev, p, RewrittenClaims(applied, want))
    {
      UnchangedIsBystander(curve, applied, want, p);
      BystanderKept(curve, dev, applied, want, order, |script|, p.publicKey);
      assert Matches(RunScript(curve, dev, script), p);
    }
  }

  /** A part of the interface that the script does not set stays as it is. */
  lemma InterfaceNotSent(curve: Key -> Key, dev: Device, applied: Config, want: Config, order: seq<Key>)
    requires UniqueKeys(want.peers) && IsRemovalOrder(applied, want, order)
    ensures var end := RunScript(curve, dev, Script(applied, want, order));
      && (want.iface.privateKey == applied.iface.privateKey ==> end.privateKey == dev.privateKey)
      && (want.iface.listenPort == applied.iface.listenPort ==> end.listenPort == dev.listenPort)
  {
    var script := Script(applied, want, order);
    forall c | c in script
      ensures c.SetPrivateKey? ==> applied.iface.privateKey != want.iface.privateKey
      ensures c.SetListenPort? ==> applied.iface.listenPort != want.iface.listenPort
    {
      ScriptContents(applied, want, order, c);
    }
    InterfaceFrame(curve, Session(dev, None), script);
  }

  lemma SkippedRightIsEnough(curve: Key -> Key, dev: Device, applied: Config, want: Config, order: seq<Key>)
    requires Realizable(curve, want) && IsRemovalOrder(applied, want, order) && Sane(curve, Session(dev, None))
    requires SkippedRight(dev, applied, want)
    ensures Agrees(RunScript(curve, dev, Script(applied, want, order)), want)
  {
    var script := Script(applied, want, order);
    var dev' := RunScript(curve, dev, script);
    assert script[..|script|] == script;
    ScriptInterface(curve, dev, applied, want, order);
    DisjointIsUncontested(want.peers);
    forall p | p in want.peers
      ensures Matches(dev', p)
    {
      if Rewritten(applied, want, p) {
        RewrittenAfter(curve, dev, applied, want, order, p);
      } else {
        assert SkippedPeerRight(dev, p, RewrittenClaims(applied, want));
        UnchangedIsBystander(curve, applied, want, p);
        BystanderKept(curve, dev, applied, want, order, |script|, p.publicKey);
        UncontestedIsSafe(applied, want, p);
        BystanderLosesExactly(curve, dev, applied, want, order, p.publicKey);
      }
    }
  }

  /** A prefix that a rewritten peer claims is not left with a bystander, even
      if other peers claim it too. */
  lemma RewrittenTakes(curve: Key -> Key, dev: Device, applied: Config, want: Config, order: seq<Key>, p: Peer, x: Prefix, q: Key)
    requires Admissible(curve, want) && IsRemovalOrder(applied, want, order)
    requires Sane(curve, Session(dev, None)) && InterfaceRight(dev, applied, want)
    requires Rewritten(applied, want, p) && x in Claims(p) && Bystander(curve, applied, want, q)
    ensures x !in Owned(RunScript(curve, dev, Script(applied, want, order)), q)
  {
    var blocks := Blocks(applied.peers, want.peers, order);
    ScriptInterface(curve, dev, applied, want, order);
    InterfaceSet(curve, dev, applied, want);
    BlocksOneAKey(applied, want, order);
    BlocksContents(applied, want, order);
    assert Put(p) in blocks;
    var i :| 0 <= i < |blocks| && blocks[i] == Put(p);
    OthersBlocks(curve, applied, want, order, q);
    BlockTakes(curve, Begun(curve, dev, applied, want), blocks, i, x, q);
  }

  /** No block is about a bystander. */
  lemma OthersBlocks(curve: Key -> Key, applied: Config, want: Config, order: seq<Key>, q: Key)
    requires UniqueKeys(want.peers) && IsRemovalOrder(applied, want, order) && Bystander(curve, applied, want, q)
    ensures forall b :: b in Blocks(applied.peers, want.peers, order) ==> BlockKey(b) != q
  {
    BlocksContents(applied, want, order);
    forall b | b in Blocks(applied.peers, want.peers, order)
      ensures BlockKey(b) != q
    {
      match b
      case Put(p) => assert Rewritten(applied, want, p);
      case Drop(_) =>
    }
  }

  lemma {:induction false} BlockTakes(curve: Key -> Key, s: Session, blocks: seq<Block>, i: nat, x: Prefix, q: Key)
    requires OneBlockAKey(blocks) && i < |blocks| && Sane(curve, s) && s.selected.None?
    requires blocks[i].Put? && x in Claims(blocks[i].peer) && blocks[i].peer.publicKey != curve(s.dev.privateKey)
    requires forall b :: b in blocks ==> BlockKey(b) != q
    ensures x !in Owned(Exec(curve, s, Flatten(blocks)).dev, q)
  {
    var pre, b, post := blocks[..i], blocks[i], blocks[i + 1..];
    FlattenSplit(blocks, i);
    BlocksBefore(curve, s, blocks, i);
    var s1 := Exec(curve, s, Flatten(pre));
    PeerBlock(curve, s1, b.peer);
    var s2 := Exec(curve, s1, BlockLines(b));
    assert b in blocks && x in Owned(s2.dev, b.peer.publicKey);
    ExecConcat(curve, s, Flatten(pre), BlockLines(b));
    ExecConcat(curve, s, Flatten(pre) + BlockLines(b), Flatten(post));
    OtherBlocks(curve, post, q);
    SelectionForgotten(curve, s2, post);
    LinesFrame(curve, Session(s2.dev, None), Flatten(post), q);
  }

  /** A bystander loses exactly what rewritten peers claim. */
  lemma BystanderLosesExactly(curve: Key -> Key, dev: Device, applied: Config, want: Config, order: seq<Key>, q: Key)
    requires Admissible(curve, want) && IsRemovalOrder(applied, want, order)
    requires Sane(curve, Session(dev, None)) && InterfaceRight(dev, applied, want)
    requires Bystander(curve, applied, want, q)
    ensures Owned(RunScript(curve, dev, Script(applied, want, order)), q) == Owned(dev, q) - RewrittenClaims(applied, want)
  {
    var script := Script(applied, want, order);
    BystanderKept(curve, dev, applied, want, order, |script|, q);
    assert script[..|script|] == script;
    forall x | x in RewrittenClaims(applied, want)
      ensures x !in Owned(RunScript(curve, dev, script), q)
    {
      var p :| p in want.peers && !Unchanged(Before(applied.peers), p) && x in Claims(p);
      RewrittenTakes(curve, dev, applied, want, order, p, x, q);
    }
  }

  /** A device that agrees with the applied configuration has all that is
      needed. */
  lemma AgreesSkippedRight(dev: Device, applied: Config, want: Config)
    requires Agrees(dev, applied)
    ensures SkippedRight(dev, applied, want)
  {
    AgreesReconcilable(dev, applied, want);
    forall p | p in want.peers && Unchanged(Before(applied.peers), p)
      ensures SkippedPeerRight(dev, p, RewrittenClaims(applied, want))
    {
      assert Matches(dev, p);
    }
  }

  /** Exactly the peers no longer wanted and the machine itself are gone, and
      exactly the rewritten peers are new, whoever else is on the device. */
  lemma ScriptKeys(curve: Key -> Key, dev: Device, applied: Config, want: Config, order: seq<Key>)
    requires Admissible(curve, want) && IsRemovalOrder(applied, want, order)
    requires Sane(curve, Session(dev, None)) && InterfaceRight(dev, applied, want)
    ensures RunScript(curve, dev, Script(applied, want, order)).peers.Keys
         == dev.peers.Keys - (KeysOf(applied.peers) - KeysOf(want.peers)) - {curve(want.iface.privateKey)}
            + RewrittenKeys(applied, want)
  {
    var script := Script(applied, want, order);
    var dev' := RunScript(curve, dev, script);
    assert script[..|script|] == script;
    ScriptInterface(curve, dev, applied, want, order);
    forall q
      ensures q in dev'.peers.Keys <==>
        q in dev.peers.Keys - (KeysOf(applied.peers) - KeysOf(want.peers)) - {curve(want.iface.privateKey)}
             + RewrittenKeys(applied, want)
    {
      if q in RewrittenKeys(applied, want) {
        var p :| Rewritten(applied, want, p) && p.publicKey == q;
        RewrittenAfter(curve, dev, applied, want, order, p);
      } else if q in KeysOf(applied.peers) - KeysOf(want.peers) {
        RemovedAfter(curve, dev, applied, want, order, q);
      } else if q != curve(want.iface.privateKey) {
        NotRewritten(applied, want, q);
        BystanderKept(curve, dev, applied, want, order, |script|, q);
      }
    }
  }

  ghost function RewrittenKeys(applied: Config, want: Config): set<Key> {
    set p | p in want.peers && !Unchanged(Before(applied.peers), p) :: p.publicKey
  }

  lemma NotRewritten(applied: Config, want: Config, q: Key)
    requires q !in RewrittenKeys(applied, want)
    ensures forall p :: Rewritten(applied, want, p) ==> p.publicKey != q
  {
    forall p | Rewritten(applied, want, p)
      ensures p.publicKey != q
    {
      assert p.publicKey in RewrittenKeys(applied, want);
    }
  }

  // Peers of other tools

  lemma StrangerIsBystander(curve: Key -> Key, applied: Config, want: Config, q: Key)
    requires q !in KeysOf(applied.peers) && q !in KeysOf(want.peers) && q != curve(want.iface.privateKey)
    ensures Bystander(curve, applied, want, q)
  {
    forall p | Rewritten(applied, want, p)
      ensures p.publicKey != q
    {
      assert p.publicKey in KeysOf(want.peers);
    }
  }

  /** Peers that other tools added keep their settings even if the script is cut
      off after n lines, and lose only prefixes that a rewritten peer claims. */
  lemma StrangerKept(curve: Key -> Key, dev: Device, applied: Config, want: Config, order: seq<Key>, n: nat, q: Key)
    requires UniqueKeys(want.peers) && IsRemovalOrder(applied, want, order)
    requires n <= |Script(applied, want, order)|
    requires q !in KeysOf(applied.peers) && q !in KeysOf(want.peers) && q != curve(want.iface.privateKey)
    ensures var dev' := RunScript(curve, dev, Script(applied, want, order)[..n]);
      && (q in dev'.peers <==> q in dev.peers)
      && (q in dev.peers ==> dev'.peers[q] == dev.peers[q])
      && Owned(dev, q) - RewrittenClaims(applied, want) <= Owned(dev', q) <= Owned(dev, q)
  {
    StrangerIsBystander(curve, applied, want, q);
    BystanderKept(curve, dev, applied, want, order, n, q);
  }

  /** A whole script takes from a stranger exactly what rewritten peers claim. */
  lemma StrangerLosesExactly(curve: Key -> Key, dev: Device, applied: Config, want: Config, order: seq<Key>, q: Key)
    requires Admissible(curve, want) && IsRemovalOrder(applied, want, order)
    requires Sane(curve, Session(dev, None)) && InterfaceRight(dev, applied, want)
    requires q !in KeysOf(applied.peers) && q !in KeysOf(want.peers) && q != curve(want.iface.privateKey)
    ensures Owned(RunScript(curve, dev, Script(applied, want, order)), q) == Owned(dev, q) - RewrittenClaims(applied, want)
  {
    StrangerIsBystander(curve, applied, want, q);
    BystanderLosesExactly(curve, dev, applied, want, order, q);
  }

  // Interrupted scripts

  /** However far a script gets, what it does not send stays right, so the same
      target can still be reached. */
  lemma InterruptionIsHarmless(curve: Key -> Key, dev: Device, applied: Config, want: Config, order: seq<Key>, n: nat)
    requires Realizable(curve, want) && IsRemovalOrder(applied, want, order)
    requires n <= |Script(applied, want, order)|
    requires Reconcilable(dev, applied, want)
    ensures Reconcilable(RunScript(curve, dev, Script(applied, want, order)[..n]), applied, want)
  {
    var dev' := RunScript(curve, dev, Script(applied, want, order)[..n]);
    InterruptedInterface(curve, dev, applied, want, order, n);
    DisjointIsUncontested(want.peers);
    forall p | p in want.peers && Unchanged(Before(applied.peers), p)
      ensures Matches(dev', p)
    {
      UncontestedKept(curve, dev, applied, want, order, n, p);
    }
  }

  lemma InterruptedInterface(curve: Key -> Key, dev: Device, applied: Config, want: Config, order: seq<Key>, n: nat)
    requires UniqueKeys(want.peers) && IsRemovalOrder(applied, want, order)
    requires n <= |Script(applied, want, order)| && InterfaceRight(dev, applied, want)
    ensures InterfaceRight(RunScript(curve, dev, Script(applied, want, order)[..n]), applied, want)
  {
    var script := Script(applied, want, order);
    var part := script[..n];
    assert forall c :: c in part ==> c in script;
    InterfaceFrame(curve, Session(dev, None), part);
    forall c | c in part
      ensures c.SetPrivateKey? ==> applied.iface.privateKey != want.iface.privateKey
      ensures c.SetListenPort? ==> applied.iface.listenPort != want.iface.listenPort
    {
      ScriptContents(applied, want, order, c);
    }
  }

  lemma InterruptionIsSane(curve: Key -> Key, dev: Device, applied: Config, want: Config, order: seq<Key>, n: nat)
    requires n <= |Script(applied, want, order)| && Sane(curve, Session(dev, None))
    ensures Sane(curve, Session(RunScript(curve, dev, Script(applied, want, order)[..n]), None))
  {
    var head, tail := InterfaceLines(applied.iface, want.iface), Flatten(Blocks(applied.peers, want.peers, order));
    var s := Session(dev, None);
    if n <= |head| {
      assert (head + tail)[..n] == head[..n];
      InterfaceSane(curve, s, head[..n]);
    } else {
      var m := n - |head|;
      assert (head + tail)[..n] == head + tail[..m];
      ExecConcat(curve, s, head, tail[..m]);
      InterfaceSane(curve, s, head);
      NoInterfaceLines(Blocks(applied.peers, want.peers, order));
      assert forall c :: c in tail[..m] ==> c in tail;
      SaneRun(curve, Exec(curve, s, head), tail[..m]);
    }
  }

  lemma {:induction false} InterfaceSane(curve: Key -> Key, s: Session, cmds: seq<Command>)
    requires Sane(curve, s) && s.selected.None?
    requires forall c :: c in cmds ==> c.SetPrivateKey? || c.SetListenPort?
    ensures Sane(curve, Exec(curve, s, cmds)) && Exec(curve, s, cmds).selected.None?
    decreases |cmds|
  {
    if cmds != [] {
      assert cmds[0] in cmds;
      assert forall d :: d in cmds[1..] ==> d in cmds;
      StepKeepsSane(curve, s, cmds[0]);
      InterfaceSane(curve, Step(curve, s, cmds[0]), cmds[1..]);
    }
  }

  /** A peer appears only by being selected. */
  lemma {:induction false} NeverSelected(curve: Key -> Key, s: Session, cmds: seq<Command>, q: Key)
    requires forall c :: c in cmds && c.SelectPeer? ==> c.publicKey != q
    requires s.selected != Some(q)
    ensures q in Exec(curve, s, cmds).dev.peers ==> q in s.dev.peers
    decreases |cmds|
  {
    if cmds != [] {
      assert cmds[0] in cmds;
      assert forall d :: d in cmds[1..] ==> d in cmds;
      NeverSelected(curve, Step(curve, s, cmds[0]), cmds[1..], q);
    }
  }

  /** An interrupted script adds no peer beyond the two configurations'. */
  lemma InterruptionKeys(curve: Key -> Key, dev: Device, applied: Config, want: Config, order: seq<Key>, n: nat)
    requires UniqueKeys(want.peers) && IsRemovalOrder(applied, want, order)
    requires n <= |Script(applied, want, order)|
    ensures RunScript(curve, dev, Script(applied, want, order)[..n]).peers.Keys
         <= dev.peers.Keys + KeysOf(applied.peers) + KeysOf(want.peers)
  {
    var part := Script(applied, want, order)[..n];
    forall q | q in RunScript(curve, dev, part).peers && q !in KeysOf(applied.peers) + KeysOf(want.peers)
      ensures q in dev.peers
    {
      forall c | c in part && c.SelectPeer?
        ensures c.publicKey != q
      {
        ScriptContents(applied, want, order, c);
      }
      NeverSelected(curve, Session(dev, None), part, q);
    }
  }
}
