/** What an overlap leaves behind: two peers that claim the same prefix, and then
    only one of them. */
module Overlap {
  import opened Wrappers
  import opened Keys
  import opened WgState
  import opened Device
  import opened Reconcile
  import opened Convergence
  import opened Apply
  import opened History

  /** Two peers of which the second claims all that the first does. */
  ghost predicate Covers(curve: Key -> Key, iface: Interface, p: Peer, q: Peer) {
    && 0 <= iface.listenPort < 0x1_0000
    && p.publicKey != q.publicKey
    && curve(iface.privateKey) != p.publicKey && curve(iface.privateKey) != q.publicKey
    && Takable(p) && Takable(q)
    && Claims(p) != {} && Claims(p) <= Claims(q)
  }

  lemma KeysOfTwo(p: Peer, q: Peer)
    ensures KeysOf([p, q]) == {p.publicKey, q.publicKey} && KeysOf([p]) == {p.publicKey}
  {
    assert [p, q][0] in [p, q] && [p, q][1] in [p, q] && p in [p];
  }

  // Both are asked for

  lemma {:induction false} PutsOfTwo(before: map<Key, Peer>, p: Peer, q: Peer)
    requires before == map[] && p.publicKey != q.publicKey
    ensures PutBlocks(before, [p, q], 2) == [Put(p), Put(q)]
  {
    assert PutBlocks(before, [p, q], 0) == [];
    assert PutBlocks(before, [p, q], 1) == [Put(p)];
  }

  lemma BlocksOfTwo(p: Peer, q: Peer)
    requires p.publicKey != q.publicKey
    ensures Blocks([], [p, q], []) == [Put(p), Put(q)]
  {
    PutsOfTwo(Before([]), p, q);
  }

  lemma BothAreTaken(iface: Interface, p: Peer, q: Peer)
    requires 0 <= iface.listenPort < 0x1_0000 && p.publicKey != q.publicKey && Takable(p) && Takable(q)
    ensures Understood(Script(EMPTY_CONFIG, Config(iface, [p, q]), [])) == |Script(EMPTY_CONFIG, Config(iface, [p, q]), [])|
  {
    KeysOfTwo(p, q);
    ScriptIsTaken(EMPTY_CONFIG, Config(iface, [p, q]), []);
  }

  /** On a fresh device the second is left with all it claims, and the first with
      nothing. */
  lemma SecondTakesAll(curve: Key -> Key, iface: Interface, p: Peer, q: Peer)
    requires Covers(curve, iface, p, q)
    ensures var dev := RunScript(curve, FRESH_DEVICE, Script(EMPTY_CONFIG, Config(iface, [p, q]), []));
      Sane(curve, Session(dev, None)) && Owned(dev, p.publicKey) == {} && Owned(dev, q.publicKey) == Claims(q)
  {
    var want := Config(iface, [p, q]);
    var blocks := [Put(p), Put(q)];
    BlocksOfTwo(p, q);
    assert EMPTY_CONFIG.peers == [];
    ScriptInterface(curve, FRESH_DEVICE, EMPTY_CONFIG, want, []);
    InterfaceSet(curve, FRESH_DEVICE, EMPTY_CONFIG, want);
    var s := Begun(curve, FRESH_DEVICE, EMPTY_CONFIG, want);
    BlocksEffect(curve, s, blocks, 0);
    BlocksEffect(curve, s, blocks, 1);
    OneOwner(Exec(curve, s, Flatten(blocks)).dev, p, q);
  }

  lemma OneOwner(dev: Device, p: Peer, q: Peer)
    requires p.publicKey != q.publicKey && Claims(p) <= Claims(q) && Configured(dev, p) && Matches(dev, q)
    ensures Owned(dev, p.publicKey) == {}
  {
    assert Owned(dev, p.publicKey) !! Owned(dev, q.publicKey);
    assert Owned(dev, p.publicKey) <= Owned(dev, q.publicKey);
  }

  lemma BothSucceed(curve: Key -> Key, iface: Interface, p: Peer, q: Peer)
    requires Covers(curve, iface, p, q)
    ensures var (t, ok) := ApplyStep(curve, NEW_TUNNEL, Config(iface, [p, q]), [], None);
      && ok && t.applied == Config(iface, [p, q])
      && Sane(curve, Session(t.dev, None)) && Owned(t.dev, p.publicKey) == {}
  {
    var want := Config(iface, [p, q]);
    var script := Script(EMPTY_CONFIG, want, []);
    KeysOfTwo(p, q);
    NothingCounted(EMPTY_CONFIG, want);
    BothAreTaken(iface, p, q);
    assert script[..|script|] == script;
    SecondTakesAll(curve, iface, p, q);
  }

  // Only the first is asked for

  lemma BeforeOfTwo(p: Peer, q: Peer)
    requires p.publicKey != q.publicKey
    ensures Before([p, q]) == map[p.publicKey := p, q.publicKey := q]
    ensures Unchanged(Before([p, q]), p)
  {
    assert [p, q][..1] == [p] && [p][..0] == [];
    assert Before([]) == map[];
    assert Before([p]) == map[p.publicKey := p];
  }

  lemma DropScript(iface: Interface, p: Peer, q: Peer)
    requires p.publicKey != q.publicKey
    ensures Script(Config(iface, [p, q]), Config(iface, [p]), [q.publicKey]) == BlockLines(Drop(q.publicKey))
  {
    var l := q.publicKey;
    BeforeOfTwo(p, q);
    assert PutBlocks(Before([p, q]), [p], 0) == [];
    assert PutBlocks(Before([p, q]), [p], 1) == [];
    assert DropBlocks([l]) == DropBlocks([]) + [Drop(l)];
    FlattenSnoc([], Drop(l));
    assert InterfaceLines(iface, iface) == [];
  }

  /** The first is skipped, and gains nothing. */
  lemma DropKeepsFirst(curve: Key -> Key, dev: Device, iface: Interface, p: Peer, q: Peer)
    requires p.publicKey != q.publicKey && curve(iface.privateKey) != p.publicKey
    ensures var dev' := RunScript(curve, dev, Script(Config(iface, [p, q]), Config(iface, [p]), [q.publicKey]));
      Owned(dev', p.publicKey) <= Owned(dev, p.publicKey)
  {
    var both, one := Config(iface, [p, q]), Config(iface, [p]);
    var script := Script(both, one, [q.publicKey]);
    KeysOfTwo(p, q);
    BeforeOfTwo(p, q);
    assert p in one.peers;
    UnchangedIsBystander(curve, both, one, p);
    BystanderKept(curve, dev, both, one, [q.publicKey], |script|, p.publicKey);
    assert script[..|script|] == script;
  }

  lemma DropSucceeds(curve: Key -> Key, t: TunnelState, iface: Interface, p: Peer, q: Peer)
    requires p.publicKey != q.publicKey && curve(iface.privateKey) != p.publicKey && t.applied == Config(iface, [p, q])
    ensures var (u, ok) := ApplyStep(curve, t, Config(iface, [p]), [q.publicKey], None);
      ok && u.applied == Config(iface, [p]) && Owned(u.dev, p.publicKey) <= Owned(t.dev, p.publicKey)
  {
    var both, one := Config(iface, [p, q]), Config(iface, [p]);
    var script := Script(both, one, [q.publicKey]);
    KeysOfTwo(p, q);
    NothingCounted(both, one);
    DropScript(iface, p, q);
    AllUnderstood(script);
    assert script[..|script|] == script;
    DropKeepsFirst(curve, t.dev, iface, p, q);
  }

  /** A peer that was applied is skipped from then on, prefixes or not. */
  lemma NeverRepaired(curve: Key -> Key, t: TunnelState, iface: Interface, p: Peer)
    requires t.applied == Config(iface, [p]) && Owned(t.dev, p.publicKey) == {} && Claims(p) != {}
    ensures !Agrees(t.dev, Config(iface, [p]))
    ensures forall order, fault :: ApplyStep(curve, t, Config(iface, [p]), order, fault) == (t, true)
  {
    var one := Config(iface, [p]);
    SelfEquivalent(one);
    NothingCounted(one, one);
    assert p in one.peers;
  }

  /** An overlap does damage that outlasts it. Two peers are asked for, of which
      the second claims all that the first does, and then only the first. Both
      attempts succeed, the second configuration is one that a device could agree
      with, and yet its one peer is without its prefixes; and every later attempt
      at it is skipped. */
  lemma OverlapSteps(curve: Key -> Key, iface: Interface, p: Peer, q: Peer)
    requires Covers(curve, iface, p, q)
    ensures var both, one := Config(iface, [p, q]), Config(iface, [p]);
      var (t, first) := ApplyStep(curve, NEW_TUNNEL, both, [], None);
      var (u, second) := ApplyStep(curve, t, one, [q.publicKey], None);
      && first && second
      && Owned(u.dev, p.publicKey) == {} && !Agrees(u.dev, one)
      && forall order, fault :: ApplyStep(curve, u, one, order, fault) == (u, true)
  {
    BothSucceed(curve, iface, p, q);
    var t := ApplyStep(curve, NEW_TUNNEL, Config(iface, [p, q]), [], None).0;
    DropSucceeds(curve, t, iface, p, q);
    NeverRepaired(curve, ApplyStep(curve, t, Config(iface, [p]), [q.publicKey], None).0, iface, p);
  }

  /** The same as a history. */
  lemma OverlapSpoils(curve: Key -> Key, iface: Interface, p: Peer, q: Peer)
    requires Covers(curve, iface, p, q)
    ensures var both, one := Config(iface, [p, q]), Config(iface, [p]);
      var past := [Attempt(both, [], None), Attempt(one, [q.publicKey], None)];
      var t := Run(curve, NEW_TUNNEL, past);
      && Succeeds(curve, NEW_TUNNEL, past[0]) && Succeeds(curve, Run(curve, NEW_TUNNEL, past[..1]), past[1])
      && Realizable(curve, one) && IsRemovalOrder(EMPTY_CONFIG, both, []) && IsRemovalOrder(both, one, [q.publicKey])
      && Owned(t.dev, p.publicKey) == {} && !Agrees(t.dev, one)
      && forall order, fault :: ApplyStep(curve, t, one, order, fault) == (t, true)
  {
    var past := [Attempt(Config(iface, [p, q]), [], None), Attempt(Config(iface, [p]), [q.publicKey], None)];
    OverlapSteps(curve, iface, p, q);
    RunOfTwo(curve, past[0], past[1]);
    OrdersOfTwo(curve, iface, p, q);
  }

  lemma OrdersOfTwo(curve: Key -> Key, iface: Interface, p: Peer, q: Peer)
    requires Covers(curve, iface, p, q)
    ensures var both, one := Config(iface, [p, q]), Config(iface, [p]);
      Realizable(curve, one) && IsRemovalOrder(EMPTY_CONFIG, both, []) && IsRemovalOrder(both, one, [q.publicKey])
  {
    KeysOfTwo(p, q);
  }

  lemma RunOfTwo(curve: Key -> Key, a: Event, b: Event)
    ensures Run(curve, NEW_TUNNEL, [a, b][..1]) == After(curve, NEW_TUNNEL, a)
    ensures Run(curve, NEW_TUNNEL, [a, b]) == After(curve, After(curve, NEW_TUNNEL, a), b)
  {
    assert [a, b][..1] == [a] && [a][..0] == [];
    assert Run(curve, NEW_TUNNEL, []) == NEW_TUNNEL;
    assert Run(curve, NEW_TUNNEL, [a]) == After(curve, NEW_TUNNEL, a);
  }
}
