/** What happens when the wanted configuration changes after a failed Apply.

    `applied` still describes the configuration before the failure, so the next
    script knows nothing of the lines that did get through. This module says
    exactly when that does no harm. */
module Retarget {
  import opened Wrappers
  import opened Sequences
  import opened Keys
  import opened WgState
  import opened Device
  import opened Reconcile
  import opened Convergence

  /** Everything the script to the new target leaves out, the failed script
      left out as well, and all the failed script may have added is covered. */
  ghost predicate SafeRetarget(curve: Key -> Key, applied: Config, failed: Config, want: Config) {
    && (want.iface.privateKey == applied.iface.privateKey ==> failed.iface.privateKey == applied.iface.privateKey)
    && (want.iface.listenPort == applied.iface.listenPort ==> failed.iface.listenPort == applied.iface.listenPort)
    && (forall p :: p in want.peers && Unchanged(Before(applied.peers), p) ==> StillListed(applied, failed, p))
    && KeysOf(failed.peers) <= KeysOf(applied.peers) + KeysOf(want.peers) + {curve(want.iface.privateKey)}
  }

  /** The failed configuration lists p with its applied settings too. */
  ghost predicate StillListed(applied: Config, failed: Config, p: Peer) {
    exists q :: q in failed.peers && q.publicKey == p.publicKey && Unchanged(Before(applied.peers), q)
  }

  /** The device after n lines of the failed script and all of the next. */
  function Retried(curve: Key -> Key, dev: Device, applied: Config,
                   failed: Config, order1: seq<Key>, n: nat, want: Config, order2: seq<Key>): Device
    requires n <= |Script(applied, failed, order1)|
  {
    RunScript(curve, RunScript(curve, dev, Script(applied, failed, order1)[..n]), Script(applied, want, order2))
  }

  ghost predicate Recovered(dev: Device, want: Config) {
    Agrees(dev, want) && dev.peers.Keys == KeysOf(want.peers)
  }

  /** Wherever the failed script broke off, the next one reaches its target. */
  ghost predicate AlwaysRecovers(curve: Key -> Key, dev: Device, applied: Config, failed: Config, want: Config) {
    forall order1, n: nat, order2 ::
      IsRemovalOrder(applied, failed, order1) && IsRemovalOrder(applied, want, order2)
      && n <= |Script(applied, failed, order1)| ==>
        Recovered(Retried(curve, dev, applied, failed, order1, n, want, order2), want)
  }

  /** The device before the failure, and two realizable targets whose peers all
      have addresses, as Validate demands. */
  ghost predicate Situation(curve: Key -> Key, dev: Device, applied: Config, failed: Config, want: Config) {
    && Sane(curve, Session(dev, None))
    && Agrees(dev, applied)
    && dev.peers.Keys == KeysOf(applied.peers)
    && Realizable(curve, failed)
    && Realizable(curve, want)
    && forall p :: p in want.peers ==> Claims(p) != {}
  }

  lemma SafeIsEnough(curve: Key -> Key, dev: Device, applied: Config, failed: Config, want: Config,
                     order1: seq<Key>, n: nat, order2: seq<Key>)
    requires Situation(curve, dev, applied, failed, want) && SafeRetarget(curve, applied, failed, want)
    requires IsRemovalOrder(applied, failed, order1) && IsRemovalOrder(applied, want, order2)
    requires n <= |Script(applied, failed, order1)|
    ensures Recovered(Retried(curve, dev, applied, failed, order1, n, want, order2), want)
  {
    var part := Script(applied, failed, order1)[..n];
    var mid := RunScript(curve, dev, part);
    AgreesReconcilable(dev, applied, failed);
    InterruptionIsSane(curve, dev, applied, failed, order1, n);
    InterruptionKeys(curve, dev, applied, failed, order1, n);
    StaysReconcilable(curve, dev, applied, failed, want, order1, n);
    ScriptReaches(curve, mid, applied, want, order2);
    ScriptKeys(curve, mid, applied, want, order2);
  }

  lemma StaysReconcilable(curve: Key -> Key, dev: Device, applied: Config, failed: Config, want: Config, order1: seq<Key>, n: nat)
    requires Situation(curve, dev, applied, failed, want) && SafeRetarget(curve, applied, failed, want)
    requires IsRemovalOrder(applied, failed, order1) && n <= |Script(applied, failed, order1)|
    ensures Reconcilable(RunScript(curve, dev, Script(applied, failed, order1)[..n]), applied, want)
  {
    var part := Script(applied, failed, order1)[..n];
    var mid := RunScript(curve, dev, part);
    AgreesReconcilable(dev, applied, failed);
    InterruptionIsHarmless(curve, dev, applied, failed, order1, n);
    forall p | p in want.peers && Unchanged(Before(applied.peers), p)
      ensures Matches(mid, p)
    {
      var q :| q in failed.peers && q.publicKey == p.publicKey && Unchanged(Before(applied.peers), q);
      assert Matches(mid, q);
    }
  }

  // Each part of the condition is needed

  /** A peer the next script leaves alone is not repaired by it. */
  lemma NotRepaired(curve: Key -> Key, mid: Device, applied: Config, want: Config, order2: seq<Key>, p: Peer)
    requires Realizable(curve, want) && IsRemovalOrder(applied, want, order2)
    requires p in want.peers && Unchanged(Before(applied.peers), p) && Claims(p) != {}
    requires p.publicKey !in mid.peers || Owned(mid, p.publicKey) == {}
    ensures !Matches(RunScript(curve, mid, Script(applied, want, order2)), p)
  {
    var script := Script(applied, want, order2);
    UnchangedIsBystander(curve, applied, want, p);
    BystanderKept(curve, mid, applied, want, order2, |script|, p.publicKey);
    assert script[..|script|] == script;
  }

  /** A changed peer is without prefixes for a moment: just after its block
      has cleared them. */
  lemma ClearedOnTheWay(curve: Key -> Key, dev: Device, applied: Config, failed: Config, order1: seq<Key>, q: Peer)
    returns (n: nat)
    requires Realizable(curve, failed) && IsRemovalOrder(applied, failed, order1)
    requires Sane(curve, Session(dev, None)) && Reconcilable(dev, applied, failed)
    requires Rewritten(applied, failed, q)
    ensures n <= |Script(applied, failed, order1)|
    ensures Owned(RunScript(curve, dev, Script(applied, failed, order1)[..n]), q.publicKey) == {}
  {
    var blocks := Blocks(applied.peers, failed.peers, order1);
    BlocksContents(applied, failed, order1);
    assert Put(q) in blocks;
    var i :| 0 <= i < |blocks| && blocks[i] == Put(q);
    var head := InterfaceLines(applied.iface, failed.iface);
    var pre := Flatten(blocks[..i]);
    var block := ClearingLines(q);
    n := |head + pre + block|;
    ScriptUpTo(applied, failed, order1, i, q);
    var s0 := Session(dev, None);
    ExecConcat(curve, s0, head + pre, block);
    ExecConcat(curve, s0, head, pre);
    InterfaceSet(curve, dev, applied, failed);
    NoInterfaceLines(blocks[..i]);
    InterfaceFrame(curve, Exec(curve, s0, head), pre);
    ClearingClears(curve, Exec(curve, s0, head + pre), q);
  }

  lemma ScriptUpTo(applied: Config, want: Config, order: seq<Key>, i: nat, q: Peer)
    requires i < |Blocks(applied.peers, want.peers, order)| && Blocks(applied.peers, want.peers, order)[i] == Put(q)
    ensures var head := InterfaceLines(applied.iface, want.iface);
      var done := head + Flatten(Blocks(applied.peers, want.peers, order)[..i]) + ClearingLines(q);
      |done| <= |Script(applied, want, order)| && Script(applied, want, order)[..|done|] == done
  {
    var blocks := Blocks(applied.peers, want.peers, order);
    var head, pre := InterfaceLines(applied.iface, want.iface), Flatten(blocks[..i]);
    FlattenSplit(blocks, i);
    ClearingIsPrefix(q);
    StartOf(head, pre, ClearingLines(q), AllowedLines(q.allowedIPs), Flatten(blocks[i + 1..]));
  }

  lemma StartOf(a: seq<Command>, b: seq<Command>, c: seq<Command>, d: seq<Command>, e: seq<Command>)
    ensures (a + (b + (c + d) + e))[..|a + b + c|] == a + b + c
  {
    assert a + (b + (c + d) + e) == (a + b + c) + (d + e);
  }

  lemma {:induction false} ClearingClears(curve: Key -> Key, s: Session, p: Peer)
    requires p.publicKey != curve(s.dev.privateKey)
    ensures Owned(Exec(curve, s, ClearingLines(p)).dev, p.publicKey) == {}
  {
    var k := p.publicKey;
    var l1, l2 := [SelectPeer(k)], EndpointLines(p.endpoint);
    ExecOne(curve, s, SelectPeer(k));
    var s1 := Exec(curve, s, l1);
    EndpointLinesSet(curve, s1, p.endpoint, k);
    SettingsLinesSet(curve, Exec(curve, s1, l2), Seconds(p.keepalive), k);
    ExecConcat(curve, s, l1, l2);
    ExecConcat(curve, s, l1 + l2, [SetKeepalive(Seconds(p.keepalive)), ReplaceAllowedIPs]);
  }

  lemma InterfaceNeeded(curve: Key -> Key, dev: Device, applied: Config, failed: Config, want: Config,
                        order1: seq<Key>, order2: seq<Key>)
    requires Situation(curve, dev, applied, failed, want) && AlwaysRecovers(curve, dev, applied, failed, want)
    requires IsRemovalOrder(applied, failed, order1) && IsRemovalOrder(applied, want, order2)
    ensures want.iface.privateKey == applied.iface.privateKey ==> failed.iface.privateKey == applied.iface.privateKey
    ensures want.iface.listenPort == applied.iface.listenPort ==> failed.iface.listenPort == applied.iface.listenPort
  {
    var script := Script(applied, failed, order1);
    assert script[..|script|] == script;
    assert Recovered(Retried(curve, dev, applied, failed, order1, |script|, want, order2), want);
    AgreesReconcilable(dev, applied, failed);
    ScriptReaches(curve, dev, applied, failed, order1);
    InterfaceNotSent(curve, RunScript(curve, dev, script), applied, want, order2);
  }

  lemma ListingNeeded(curve: Key -> Key, dev: Device, applied: Config, failed: Config, want: Config,
                      order1: seq<Key>, order2: seq<Key>, p: Peer)
    requires Situation(curve, dev, applied, failed, want) && AlwaysRecovers(curve, dev, applied, failed, want)
    requires IsRemovalOrder(applied, failed, order1) && IsRemovalOrder(applied, want, order2)
    requires p in want.peers && Unchanged(Before(applied.peers), p)
    ensures StillListed(applied, failed, p)
  {
    if p.publicKey in KeysOf(failed.peers) {
      var q :| q in failed.peers && q.publicKey == p.publicKey;
      if !Unchanged(Before(applied.peers), q) {
        ClearedIsNotRepaired(curve, dev, applied, failed, want, order1, order2, p, q);
      }
    } else {
      DroppedIsNotRepaired(curve, dev, applied, failed, want, order1, order2, p);
    }
  }

  lemma ClearedIsNotRepaired(curve: Key -> Key, dev: Device, applied: Config, failed: Config, want: Config,
                             order1: seq<Key>, order2: seq<Key>, p: Peer, q: Peer)
    requires Situation(curve, dev, applied, failed, want)
    requires IsRemovalOrder(applied, failed, order1) && IsRemovalOrder(applied, want, order2)
    requires p in want.peers && Unchanged(Before(applied.peers), p)
    requires Rewritten(applied, failed, q) && q.publicKey == p.publicKey
    ensures !AlwaysRecovers(curve, dev, applied, failed, want)
  {
    AgreesReconcilable(dev, applied, failed);
    var n := ClearedOnTheWay(curve, dev, applied, failed, order1, q);
    NotRepaired(curve, RunScript(curve, dev, Script(applied, failed, order1)[..n]), applied, want, order2, p);
    assert !Recovered(Retried(curve, dev, applied, failed, order1, n, want, order2), want);
  }

  lemma DroppedIsNotRepaired(curve: Key -> Key, dev: Device, applied: Config, failed: Config, want: Config,
                             order1: seq<Key>, order2: seq<Key>, p: Peer)
    requires Situation(curve, dev, applied, failed, want)
    requires IsRemovalOrder(applied, failed, order1) && IsRemovalOrder(applied, want, order2)
    requires p in want.peers && Unchanged(Before(applied.peers), p) && p.publicKey !in KeysOf(failed.peers)
    ensures !AlwaysRecovers(curve, dev, applied, failed, want)
  {
    var script := Script(applied, failed, order1);
    AgreesReconcilable(dev, applied, failed);
    assert script[..|script|] == script;
    RemovedAfter(curve, dev, applied, failed, order1, p.publicKey);
    NotRepaired(curve, RunScript(curve, dev, script), applied, want, order2, p);
    assert !Recovered(Retried(curve, dev, applied, failed, order1, |script|, want, order2), want);
  }

  lemma CoverNeeded(curve: Key -> Key, dev: Device, applied: Config, failed: Config, want: Config,
                    order1: seq<Key>, order2: seq<Key>, k: Key)
    requires Situation(curve, dev, applied, failed, want) && AlwaysRecovers(curve, dev, applied, failed, want)
    requires IsRemovalOrder(applied, failed, order1) && IsRemovalOrder(applied, want, order2)
    requires k in KeysOf(failed.peers)
    ensures k in KeysOf(applied.peers) + KeysOf(want.peers) + {curve(want.iface.privateKey)}
  {
    var next := Script(applied, want, order2);
    assert next[..|next|] == next;
    if k !in KeysOf(applied.peers) + KeysOf(want.peers) + {curve(want.iface.privateKey)} {
      var script := Script(applied, failed, order1);
      assert Recovered(Retried(curve, dev, applied, failed, order1, |script|, want, order2), want);
      assert script[..|script|] == script;
      AgreesReconcilable(dev, applied, failed);
      ScriptKeys(curve, dev, applied, failed, order1);
      StrangerKept(curve, RunScript(curve, dev, script), applied, want, order2, |next|, k);
    }
  }

  /** A changed target is reached, wherever the failed script broke off,
      exactly when the retarget is safe. */
  lemma RetargetExact(curve: Key -> Key, dev: Device, applied: Config, failed: Config, want: Config)
    requires Situation(curve, dev, applied, failed, want)
    ensures AlwaysRecovers(curve, dev, applied, failed, want) <==> SafeRetarget(curve, applied, failed, want)
  {
    if SafeRetarget(curve, applied, failed, want) {
      forall order1, n: nat, order2 |
        IsRemovalOrder(applied, failed, order1) && IsRemovalOrder(applied, want, order2)
        && n <= |Script(applied, failed, order1)|
        ensures Recovered(Retried(curve, dev, applied, failed, order1, n, want, order2), want)
      {
        SafeIsEnough(curve, dev, applied, failed, want, order1, n, order2);
      }
    }
    if AlwaysRecovers(curve, dev, applied, failed, want) {
      var order1 := SomeOrder(KeysOf(applied.peers) - KeysOf(failed.peers));
      var order2 := SomeOrder(KeysOf(applied.peers) - KeysOf(want.peers));
      InterfaceNeeded(curve, dev, applied, failed, want, order1, order2);
      forall p | p in want.peers && Unchanged(Before(applied.peers), p)
        ensures StillListed(applied, failed, p)
      {
        ListingNeeded(curve, dev, applied, failed, want, order1, order2, p);
      }
      forall k | k in KeysOf(failed.peers)
        ensures k in KeysOf(applied.peers) + KeysOf(want.peers) + {curve(want.iface.privateKey)}
      {
        CoverNeeded(curve, dev, applied, failed, want, order1, order2, k);
      }
    }
  }

  /** On every device: a peer is asked for in addition to those applied, the
      script breaks off, and the peer is no longer wanted. The device may keep it
      for good. */
  lemma ForgottenPeer(curve: Key -> Key, dev: Device, applied: Config, p: Peer)
    requires p.publicKey !in KeysOf(applied.peers)
    requires Situation(curve, dev, applied, applied.(peers := applied.peers + [p]), applied)
    ensures !AlwaysRecovers(curve, dev, applied, applied.(peers := applied.peers + [p]), applied)
  {
    var failed := applied.(peers := applied.peers + [p]);
    assert p in failed.peers && p.publicKey in KeysOf(failed.peers);
    RetargetExact(curve, dev, applied, failed, applied);
  }
}
