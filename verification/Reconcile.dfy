/** The commands that turn the device from one configuration into another, and
    what running them, or only a part of them, does to the device. */
module Reconcile {
  import opened Wrappers
  import opened Sequences
  import opened Keys
  import opened Netip
  import opened WgState
  import opened Device

  // The script

  /** The peers of the applied configuration by key; a later entry wins. */
  function Before(peers: seq<Peer>): (m: map<Key, Peer>)
    ensures m.Keys == KeysOf(peers)
    ensures forall k :: k in m ==> m[k] in peers && m[k].publicKey == k
  {
    if peers == [] then map[]
    else
      var n := |peers| - 1;
      assert peers == peers[..n] + [peers[n]];
      Before(peers[..n])[peers[n].publicKey := peers[n]]
  }

  function InterfaceLines(applied: Interface, want: Interface): seq<Command> {
    (if want.privateKey != applied.privateKey then [SetPrivateKey(want.privateKey)] else [])
    + (if want.listenPort != applied.listenPort then [SetListenPort(want.listenPort)] else [])
  }

  function AllowedLines(prefixes: seq<Prefix>): seq<Command> {
    if prefixes == [] then []
    else AllowedLines(prefixes[..|prefixes| - 1]) + [AllowedIP(prefixes[|prefixes| - 1])]
  }

  function EndpointLines(e: AddrPort): seq<Command> {
    if e.AddrPort? then [SetEndpoint(e)] else []
  }

  /** The block that configures p, whether the device has it already or not. */
  function PeerLines(p: Peer): seq<Command> {
    [SelectPeer(p.publicKey)] + EndpointLines(p.endpoint)
    + [SetKeepalive(Seconds(p.keepalive)), ReplaceAllowedIPs] + AllowedLines(p.allowedIPs)
  }

  /** The start of a peer block, up to the point where its prefixes are gone. */
  function ClearingLines(p: Peer): seq<Command> {
    [SelectPeer(p.publicKey)] + EndpointLines(p.endpoint) + [SetKeepalive(Seconds(p.keepalive)), ReplaceAllowedIPs]
  }

  lemma ClearingIsPrefix(p: Peer)
    ensures PeerLines(p) == ClearingLines(p) + AllowedLines(p.allowedIPs)
  {
  }

  datatype Block = Put(peer: Peer) | Drop(key: Key)

  function BlockKey(b: Block): Key {
    match b
    case Put(p) => p.publicKey
    case Drop(k) => k
  }

  function BlockLines(b: Block): seq<Command> {
    match b
    case Put(p) => PeerLines(p)
    case Drop(k) => [SelectPeer(k), RemovePeer]
  }

  function Flatten(blocks: seq<Block>): seq<Command> {
    if blocks == [] then [] else Flatten(blocks[..|blocks| - 1]) + BlockLines(blocks[|blocks| - 1])
  }

  /** Is p in the applied configuration, with the same settings? */
  predicate Unchanged(before: map<Key, Peer>, p: Peer) {
    p.publicKey in before && SameSettings(p, before[p.publicKey])
  }

  /** peers[i] was applied before and is not a repetition within peers. */
  predicate Existed(before: map<Key, Peer>, peers: seq<Peer>, i: nat)
    requires i < |peers|
  {
    peers[i].publicKey in before && peers[i].publicKey !in KeysOf(peers[..i])
  }

  predicate Skipped(before: map<Key, Peer>, peers: seq<Peer>, i: nat)
    requires i < |peers|
  {
    Existed(before, peers, i) && SameSettings(peers[i], before[peers[i].publicKey])
  }

  /** The blocks of the first n wanted peers, unchanged ones left out. */
  function PutBlocks(before: map<Key, Peer>, peers: seq<Peer>, n: nat): seq<Block>
    requires n <= |peers|
  {
    if n == 0 then []
    else if Skipped(before, peers, n - 1) then PutBlocks(before, peers, n - 1)
    else PutBlocks(before, peers, n - 1) + [Put(peers[n - 1])]
  }

  function DropBlocks(order: seq<Key>): seq<Block> {
    if order == [] then [] else DropBlocks(order[..|order| - 1]) + [Drop(order[|order| - 1])]
  }

  function Blocks(applied: seq<Peer>, want: seq<Peer>, order: seq<Key>): seq<Block> {
    PutBlocks(Before(applied), want, |want|) + DropBlocks(order)
  }

  /** The whole script, with the removals in the given order. */
  function Script(applied: Config, want: Config, order: seq<Key>): seq<Command> {
    InterfaceLines(applied.iface, want.iface) + Flatten(Blocks(applied.peers, want.peers, order))
  }

  /** An order in which the removal loop may visit what is left to remove. */
  ghost predicate IsRemovalOrder(applied: Config, want: Config, order: seq<Key>) {
    && (forall k :: k in order <==> k in KeysOf(applied.peers) - KeysOf(want.peers))
    && Distinct(order)
  }

  // What a device should look like

  /** p is configured as wanted and owns exactly the prefixes it claims. No
      command clears an endpoint, so a peer without one says nothing about it. */
  ghost predicate Matches(dev: Device, p: Peer) {
    && p.publicKey in dev.peers
    && dev.peers[p.publicKey].keepalive == Seconds(p.keepalive)
    && (p.endpoint.AddrPort? ==> dev.peers[p.publicKey].endpoint == p.endpoint)
    && Owned(dev, p.publicKey) == Claims(p)
  }

  /** p's settings are as wanted, and it owns none but its own prefixes; it may
      lack some of them. */
  ghost predicate Configured(dev: Device, p: Peer) {
    && p.publicKey in dev.peers
    && dev.peers[p.publicKey].keepalive == Seconds(p.keepalive)
    && (p.endpoint.AddrPort? ==> dev.peers[p.publicKey].endpoint == p.endpoint)
    && Owned(dev, p.publicKey) <= Claims(p)
  }

  /** The endpoint that p is left with: its own if it has one, else whatever the
      device knows. */
  function EndpointLeft(dev: Device, p: Peer): AddrPort {
    if p.endpoint.AddrPort? then p.endpoint
    else if p.publicKey in dev.peers then dev.peers[p.publicKey].endpoint
    else NoAddrPort
  }

  ghost predicate Agrees(dev: Device, c: Config) {
    && dev.privateKey == c.iface.privateKey
    && dev.listenPort == c.iface.listenPort
    && forall p :: p in c.peers ==> Matches(dev, p)
  }

  ghost predicate InterfaceRight(dev: Device, applied: Config, want: Config) {
    && (applied.iface.privateKey == want.iface.privateKey ==> dev.privateKey == want.iface.privateKey)
    && (applied.iface.listenPort == want.iface.listenPort ==> dev.listenPort == want.iface.listenPort)
  }

  /** The script from applied to want relies on no more than this: what it does
      not send is already right. */
  ghost predicate Reconcilable(dev: Device, applied: Config, want: Config) {
    && InterfaceRight(dev, applied, want)
    && forall p :: p in want.peers && Unchanged(Before(applied.peers), p) ==> Matches(dev, p)
  }

  /** What meshd makes sure of: keys are unique and the machine is not its own
      peer. */
  ghost predicate Admissible(curve: Key -> Key, c: Config) {
    UniqueKeys(c.peers) && curve(c.iface.privateKey) !in KeysOf(c.peers)
  }

  /** A configuration that some device can agree with: beyond that, no two peers
      claim the same prefix. */
  ghost predicate Realizable(curve: Key -> Key, c: Config) {
    Admissible(curve, c) && Disjoint(c.peers)
  }

  lemma AgreesReconcilable(dev: Device, applied: Config, want: Config)
    requires Agrees(dev, applied)
    ensures Reconcilable(dev, applied, want)
  {
    var before := Before(applied.peers);
    forall p | p in want.peers && Unchanged(before, p)
      ensures Matches(dev, p)
    {
      assert Matches(dev, before[p.publicKey]);
    }
  }

  /** Ownership is a function, so a device agrees only with disjoint claims. */
  lemma AgreesDisjoint(dev: Device, c: Config)
    requires Agrees(dev, c) && UniqueKeys(c.peers)
    ensures Disjoint(c.peers)
  {
    forall i, j | 0 <= i < j < |c.peers|
      ensures Claims(c.peers[i]) !! Claims(c.peers[j])
    {
      assert Matches(dev, c.peers[i]) && Matches(dev, c.peers[j]);
      assert Owned(dev, c.peers[i].publicKey) !! Owned(dev, c.peers[j].publicKey);
    }
  }

  // What lines leave alone

  /** None of the lines selects q or makes the device q itself. */
  ghost predicate LeavesAlone(curve: Key -> Key, cmds: seq<Command>, q: Key) {
    forall c :: c in cmds ==> (c.SelectPeer? ==> c.publicKey != q) && (c.SetPrivateKey? ==> curve(c.privateKey) != q)
  }

  function Taken(cmds: seq<Command>): set<Prefix> {
    set c | c in cmds && c.AllowedIP? :: Masked(c.prefix)
  }

  /** A peer that is never selected keeps its settings, gains no prefix, and
      loses only prefixes that the lines give to others. */
  lemma {:induction false} LinesFrame(curve: Key -> Key, s: Session, cmds: seq<Command>, q: Key)
    requires LeavesAlone(curve, cmds, q) && s.selected != Some(q)
    ensures var t := Exec(curve, s, cmds);
      && t.selected != Some(q)
      && (q in t.dev.peers <==> q in s.dev.peers)
      && (q in s.dev.peers ==> t.dev.peers[q] == s.dev.peers[q])
      && Owned(s.dev, q) - Taken(cmds) <= Owned(t.dev, q) <= Owned(s.dev, q)
    decreases |cmds|
  {
    if cmds != [] {
      var c, rest := cmds[0], cmds[1..];
      assert c in cmds;
      var s1 := Step(curve, s, c);
      StepFrame(curve, s, c, q);
      assert forall d :: d in rest ==> d in cmds;
      LinesFrame(curve, s1, rest, q);
    }
  }

  lemma StepFrame(curve: Key -> Key, s: Session, c: Command, q: Key)
    requires LeavesAlone(curve, [c], q) && s.selected != Some(q)
    ensures var t := Step(curve, s, c);
      && t.selected != Some(q)
      && (q in t.dev.peers <==> q in s.dev.peers)
      && (q in s.dev.peers ==> t.dev.peers[q] == s.dev.peers[q])
      && Owned(t.dev, q) <= Owned(s.dev, q)
      && forall x :: x in Owned(s.dev, q) && x !in Owned(t.dev, q) ==> c.AllowedIP? && x == Masked(c.prefix)
  {
    assert c in [c];
  }

  /** Without a line for it, a field of the interface stays as it is. */
  lemma {:induction false} InterfaceFrame(curve: Key -> Key, s: Session, cmds: seq<Command>)
    ensures (forall c :: c in cmds ==> !c.SetPrivateKey?) ==> Exec(curve, s, cmds).dev.privateKey == s.dev.privateKey
    ensures (forall c :: c in cmds ==> !c.SetListenPort?) ==> Exec(curve, s, cmds).dev.listenPort == s.dev.listenPort
    decreases |cmds|
  {
    if cmds != [] {
      assert cmds[0] in cmds;
      assert forall d :: d in cmds[1..] ==> d in cmds;
      InterfaceFrame(curve, Step(curve, s, cmds[0]), cmds[1..]);
    }
  }

  /** Lines about peers keep the session sane. */
  lemma {:induction false} SaneRun(curve: Key -> Key, s: Session, cmds: seq<Command>)
    requires Sane(curve, s)
    requires forall c :: c in cmds ==> !c.SetPrivateKey?
    ensures Sane(curve, Exec(curve, s, cmds))
    decreases |cmds|
  {
    if cmds != [] {
      assert cmds[0] in cmds;
      assert forall d :: d in cmds[1..] ==> d in cmds;
      StepKeepsSane(curve, s, cmds[0]);
      SaneRun(curve, Step(curve, s, cmds[0]), cmds[1..]);
    }
  }

  // What one block does

  lemma {:induction false} AllowedLinesGive(curve: Key -> Key, s: Session, prefixes: seq<Prefix>, k: Key)
    requires s.selected == Some(k) && k in s.dev.peers
    ensures var t := Exec(curve, s, AllowedLines(prefixes));
      && t.selected == Some(k)
      && t.dev.peers == s.dev.peers
      && Owned(t.dev, k) == Owned(s.dev, k) + set a | a in prefixes :: Masked(a)
  {
    if prefixes != [] {
      var n := |prefixes| - 1;
      var front, last := prefixes[..n], prefixes[n];
      AllowedLinesGive(curve, s, front, k);
      ExecConcat(curve, s, AllowedLines(front), [AllowedIP(last)]);
      var t := Exec(curve, s, AllowedLines(front));
      ExecOne(curve, t, AllowedIP(last));
      assert prefixes == front + [last];
      var u := Step(curve, t, AllowedIP(last));
      assert Owned(u.dev, k) == Owned(t.dev, k) + {Masked(last)};
    }
  }

  lemma {:induction false} ExecOne(curve: Key -> Key, s: Session, c: Command)
    ensures Exec(curve, s, [c]) == Step(curve, s, c)
  {
  }

  /** The device has peer k selected. */
  ghost predicate At(s: Session, k: Key) {
    s.selected == Some(k) && k in s.dev.peers
  }

  lemma {:induction false} EndpointLinesSet(curve: Key -> Key, s: Session, e: AddrPort, k: Key)
    requires At(s, k)
    ensures var t := Exec(curve, s, EndpointLines(e));
      At(t, k) && t.dev.peers[k].endpoint == if e.AddrPort? then e else s.dev.peers[k].endpoint
  {
    if e.AddrPort? {
      ExecOne(curve, s, SetEndpoint(e));
    }
  }

  lemma {:induction false} SettingsLinesSet(curve: Key -> Key, s: Session, n: int, k: Key)
    requires At(s, k)
    ensures var t := Exec(curve, s, [SetKeepalive(n), ReplaceAllowedIPs]);
      && At(t, k) && Owned(t.dev, k) == {}
      && t.dev.peers[k] == s.dev.peers[k].(keepalive := n)
  {
    var two := [SetKeepalive(n), ReplaceAllowedIPs];
    var s1 := Step(curve, s, two[0]);
    assert two[1..] == [ReplaceAllowedIPs];
    ExecOne(curve, s1, ReplaceAllowedIPs);
  }

  /** Whatever the device had, a peer block leaves the peer as wanted. */
  lemma {:induction false} PeerBlock(curve: Key -> Key, s: Session, p: Peer)
    requires p.publicKey != curve(s.dev.privateKey)
    ensures var t := Exec(curve, s, PeerLines(p));
      && t.selected == Some(p.publicKey) && Matches(t.dev, p)
      && t.dev.peers[p.publicKey].endpoint == EndpointLeft(s.dev, p)
  {
    var k := p.publicKey;
    var l1, l2 := [SelectPeer(k)], EndpointLines(p.endpoint);
    var l3, l4 := [SetKeepalive(Seconds(p.keepalive)), ReplaceAllowedIPs], AllowedLines(p.allowedIPs);
    var s1 := Exec(curve, s, l1);
    ExecOne(curve, s, SelectPeer(k));
    var s2 := Exec(curve, s1, l2);
    EndpointLinesSet(curve, s1, p.endpoint, k);
    var s3 := Exec(curve, s2, l3);
    SettingsLinesSet(curve, s2, Seconds(p.keepalive), k);
    AllowedLinesGive(curve, s3, p.allowedIPs, k);
    ExecConcat(curve, s, l1, l2);
    ExecConcat(curve, s, l1 + l2, l3);
    ExecConcat(curve, s, l1 + l2 + l3, l4);
    assert PeerLines(p) == l1 + l2 + l3 + l4;
  }

  lemma {:induction false} DropBlock(curve: Key -> Key, s: Session, k: Key)
    requires Sane(curve, s)
    ensures var t := Exec(curve, s, BlockLines(Drop(k)));
      t.selected == None && k !in t.dev.peers && Owned(t.dev, k) == {}
  {
    var s1 := Select(curve, s.dev, k);
    assert [SelectPeer(k), RemovePeer][1..] == [RemovePeer];
    ExecOne(curve, s1, RemovePeer);
  }

  // How the script is made of blocks

  function BlockClaims(b: Block): set<Prefix> {
    match b
    case Put(p) => Claims(p)
    case Drop(_) => {}
  }

  /** Every key has one block. */
  ghost predicate OneBlockAKey(blocks: seq<Block>) {
    forall i, j :: 0 <= i < j < |blocks| ==> BlockKey(blocks[i]) != BlockKey(blocks[j])
  }

  lemma {:induction false} FlattenSnoc(front: seq<Block>, last: Block)
    ensures Flatten(front + [last]) == Flatten(front) + BlockLines(last)
  {
    FrontOfSnoc(front, last);
  }

  lemma {:induction false} FlattenConcat(a: seq<Block>, b: seq<Block>)
    ensures Flatten(a + b) == Flatten(a) + Flatten(b)
  {
    if b == [] {
      assert a + b == a;
    } else {
      var front, last := b[..|b| - 1], b[|b| - 1];
      FrontAndLast(b);
      Regroup(a, front, [last]);
      FlattenConcat(a, front);
      FlattenSnoc(a + front, last);
      FlattenSnoc(front, last);
      Regroup(Flatten(a), Flatten(front), BlockLines(last));
    }
  }

  lemma {:induction false} FlattenSplit(blocks: seq<Block>, i: nat)
    requires i < |blocks|
    ensures Flatten(blocks) == Flatten(blocks[..i]) + BlockLines(blocks[i]) + Flatten(blocks[i + 1..])
  {
    SplitAround(blocks, i);
    FlattenConcat(blocks[..i] + [blocks[i]], blocks[i + 1..]);
    FlattenSnoc(blocks[..i], blocks[i]);
  }

  lemma {:induction false} FlattenContents(blocks: seq<Block>, c: Command) returns (i: nat)
    requires c in Flatten(blocks)
    ensures i < |blocks| && c in BlockLines(blocks[i])
  {
    var n := |blocks| - 1;
    if c in BlockLines(blocks[n]) {
      i := n;
    } else {
      i := FlattenContents(blocks[..n], c);
    }
  }

  lemma {:induction false} AllowedLinesContents(prefixes: seq<Prefix>, c: Command)
    requires c in AllowedLines(prefixes)
    ensures c.AllowedIP? && c.prefix in prefixes
  {
    var n := |prefixes| - 1;
    if c in AllowedLines(prefixes[..n]) {
      AllowedLinesContents(prefixes[..n], c);
    }
  }

  /** A block is only about its own key and its own claims. */
  lemma BlockContents(b: Block, c: Command)
    requires c in BlockLines(b)
    ensures !c.SetPrivateKey? && !c.SetListenPort?
    ensures c.SelectPeer? ==> c.publicKey == BlockKey(b)
    ensures c.AllowedIP? ==> Masked(c.prefix) in BlockClaims(b)
  {
    if b.Put? && c in AllowedLines(b.peer.allowedIPs) {
      AllowedLinesContents(b.peer.allowedIPs, c);
    }
  }

  /** Lines of blocks about other keys. */
  lemma {:induction false} OtherBlocks(curve: Key -> Key, blocks: seq<Block>, q: Key)
    requires forall i :: 0 <= i < |blocks| ==> BlockKey(blocks[i]) != q
    ensures LeavesAlone(curve, Flatten(blocks), q)
  {
    forall c | c in Flatten(blocks)
      ensures !c.SetPrivateKey? && (c.SelectPeer? ==> c.publicKey != q)
    {
      var i := FlattenContents(blocks, c);
      BlockContents(blocks[i], c);
    }
  }

  /** Lines of blocks that claim other prefixes. */
  lemma {:induction false} OtherClaims(blocks: seq<Block>, claims: set<Prefix>)
    requires forall i :: 0 <= i < |blocks| ==> BlockClaims(blocks[i]) !! claims
    ensures Taken(Flatten(blocks)) !! claims
  {
    forall c | c in Flatten(blocks) && c.AllowedIP?
      ensures Masked(c.prefix) !in claims
    {
      var i := FlattenContents(blocks, c);
      BlockContents(blocks[i], c);
    }
  }

  lemma {:induction false} NoInterfaceLines(blocks: seq<Block>)
    ensures forall c :: c in Flatten(blocks) ==> !c.SetPrivateKey? && !c.SetListenPort?
  {
    forall c | c in Flatten(blocks)
      ensures !c.SetPrivateKey? && !c.SetListenPort?
    {
      var i := FlattenContents(blocks, c);
      BlockContents(blocks[i], c);
    }
  }

  /** Every block selects its own peer first, so what was selected before it
      does not matter. */
  lemma {:induction false} SelectionForgotten(curve: Key -> Key, s: Session, blocks: seq<Block>)
    ensures Exec(curve, s, Flatten(blocks)).dev == Exec(curve, Session(s.dev, None), Flatten(blocks)).dev
  {
    if blocks != [] {
      FlattenSplit(blocks, 0);
      assert Flatten(blocks)[0].SelectPeer?;
    }
  }

  /** The peer is configured as wanted, and without an endpoint of its own it
      keeps the one it had. */
  ghost predicate Written(was: Device, dev: Device, p: Peer) {
    Configured(dev, p) && dev.peers[p.publicKey].endpoint == EndpointLeft(was, p)
  }

  /** No later block claims a prefix of the i-th. */
  ghost predicate KeepsClaims(blocks: seq<Block>, i: nat)
    requires i < |blocks|
  {
    forall j :: i < j < |blocks| ==> BlockClaims(blocks[j]) !! BlockClaims(blocks[i])
  }

  /** The session before the i-th block. */
  lemma {:induction false} BlocksBefore(curve: Key -> Key, s: Session, blocks: seq<Block>, i: nat)
    requires OneBlockAKey(blocks) && i < |blocks| && Sane(curve, s) && s.selected.None?
    ensures var t := Exec(curve, s, Flatten(blocks[..i]));
      var q := BlockKey(blocks[i]);
      && Sane(curve, t) && t.dev.privateKey == s.dev.privateKey
      && (q in t.dev.peers <==> q in s.dev.peers)
      && (q in s.dev.peers ==> t.dev.peers[q] == s.dev.peers[q])
  {
    var pre := blocks[..i];
    NoInterfaceLines(pre);
    InterfaceFrame(curve, s, Flatten(pre));
    SaneRun(curve, s, Flatten(pre));
    OtherBlocks(curve, pre, BlockKey(blocks[i]));
    LinesFrame(curve, s, Flatten(pre), BlockKey(blocks[i]));
  }

  /** What the later blocks leave of the i-th block's peer. */
  lemma BlocksBehind(curve: Key -> Key, s: Session, blocks: seq<Block>, i: nat)
    requires OneBlockAKey(blocks) && i < |blocks|
    ensures var dev := Exec(curve, s, Flatten(blocks[i + 1..])).dev;
      var q := BlockKey(blocks[i]);
      && (q in dev.peers <==> q in s.dev.peers)
      && (q in s.dev.peers ==> dev.peers[q] == s.dev.peers[q])
      && Owned(dev, q) <= Owned(s.dev, q)
      && (KeepsClaims(blocks, i) ==> Owned(s.dev, q) * BlockClaims(blocks[i]) <= Owned(dev, q))
  {
    var post := blocks[i + 1..];
    OtherBlocks(curve, post, BlockKey(blocks[i]));
    SelectionForgotten(curve, s, post);
    LinesFrame(curve, Session(s.dev, None), Flatten(post), BlockKey(blocks[i]));
    if KeepsClaims(blocks, i) {
      OtherClaims(post, BlockClaims(blocks[i]));
    }
  }

  /** After all blocks, each block's peer is as its block says, but for the
      prefixes that later blocks claim. */
  lemma {:induction false} BlocksEffect(curve: Key -> Key, s: Session, blocks: seq<Block>, i: nat)
    requires OneBlockAKey(blocks) && i < |blocks| && Sane(curve, s) && s.selected.None?
    requires blocks[i].Put? ==> BlockKey(blocks[i]) != curve(s.dev.privateKey)
    ensures var dev := Exec(curve, s, Flatten(blocks)).dev;
      && (blocks[i].Drop? ==> blocks[i].key !in dev.peers)
      && (blocks[i].Put? ==> Written(s.dev, dev, blocks[i].peer))
      && (blocks[i].Put? && KeepsClaims(blocks, i) ==> Matches(dev, blocks[i].peer))
  {
    var pre, b, post := blocks[..i], blocks[i], blocks[i + 1..];
    FlattenSplit(blocks, i);
    BlocksBefore(curve, s, blocks, i);
    var s1 := Exec(curve, s, Flatten(pre));
    var s2 := Exec(curve, s1, BlockLines(b));
    match b {
      case Put(p) => PeerBlock(curve, s1, p);
      case Drop(k) => DropBlock(curve, s1, k);
    }
    ExecConcat(curve, s, Flatten(pre), BlockLines(b));
    ExecConcat(curve, s, Flatten(pre) + BlockLines(b), Flatten(post));
    BlocksBehind(curve, s2, blocks, i);
  }

  // Which blocks the script has

  lemma {:induction false} PutBlocksContents(before: map<Key, Peer>, peers: seq<Peer>, n: nat)
    requires n <= |peers| && UniqueKeys(peers)
    ensures forall b :: b in PutBlocks(before, peers, n) ==>
      b.Put? && b.peer in peers[..n] && !Unchanged(before, b.peer)
    ensures forall p :: p in peers[..n] && !Unchanged(before, p) ==> Put(p) in PutBlocks(before, peers, n)
  {
    if n > 0 {
      PutBlocksContents(before, peers, n - 1);
      assert peers[..n] == peers[..n - 1] + [peers[n - 1]];
    }
  }

  lemma {:induction false} PutBlocksOneAKey(before: map<Key, Peer>, peers: seq<Peer>, n: nat)
    requires n <= |peers| && UniqueKeys(peers)
    ensures OneBlockAKey(PutBlocks(before, peers, n))
  {
    if n > 0 {
      PutBlocksOneAKey(before, peers, n - 1);
      PutBlocksContents(before, peers, n - 1);
      var front, last := PutBlocks(before, peers, n - 1), peers[n - 1];
      forall i | 0 <= i < |front|
        ensures BlockKey(front[i]) != last.publicKey
      {
        assert front[i] in front;
      }
    }
  }

  lemma {:induction false} DropBlocksContents(order: seq<Key>)
    ensures |DropBlocks(order)| == |order|
    ensures forall i :: 0 <= i < |order| ==> DropBlocks(order)[i] == Drop(order[i])
  {
    if order != [] {
      DropBlocksContents(order[..|order| - 1]);
    }
  }

  /** The blocks are one for each wanted peer that is new or changed, and one
      for each applied peer that is no longer wanted. */
  lemma BlocksContents(applied: Config, want: Config, order: seq<Key>)
    requires UniqueKeys(want.peers) && IsRemovalOrder(applied, want, order)
    ensures var before := Before(applied.peers);
      var blocks := Blocks(applied.peers, want.peers, order);
      && (forall p :: Put(p) in blocks <==> p in want.peers && !Unchanged(before, p))
      && (forall k :: Drop(k) in blocks <==> k in KeysOf(applied.peers) - KeysOf(want.peers))
  {
    PutBlocksContents(Before(applied.peers), want.peers, |want.peers|);
    assert want.peers[..|want.peers|] == want.peers;
    DropBlocksContents(order);
    var drops := DropBlocks(order);
    forall k
      ensures Drop(k) in drops <==> k in order
    {
      if k in order {
        var i :| 0 <= i < |order| && order[i] == k;
        assert drops[i] == Drop(k);
      }
    }
    assert forall b :: b in drops ==> b.Drop?;
  }

  lemma BlocksOneAKey(applied: Config, want: Config, order: seq<Key>)
    requires UniqueKeys(want.peers) && IsRemovalOrder(applied, want, order)
    ensures OneBlockAKey(Blocks(applied.peers, want.peers, order))
  {
    var before := Before(applied.peers);
    var puts, drops := PutBlocks(before, want.peers, |want.peers|), DropBlocks(order);
    PutBlocksOneAKey(before, want.peers, |want.peers|);
    PutBlocksContents(before, want.peers, |want.peers|);
    DropBlocksContents(order);
    forall i, j | 0 <= i < |puts| && 0 <= j < |drops|
      ensures BlockKey(puts[i]) != BlockKey(drops[j])
    {
      assert puts[i] in puts;
      assert order[j] in order;
    }
  }
}
