/** Whole histories of a tunnel: asked for one configuration after another,
    failing, opened again, and shared with other tools. */
module History {
  import opened Wrappers
  import opened Sequences
  import opened Keys
  import opened Netip
  import opened WgState
  import opened Device
  import opened Reconcile
  import opened Convergence
  import opened Retarget
  import opened Apply

  /** A tunnel is asked for a configuration, dies and is opened again, or is
      changed by another tool. */
  datatype Event = Attempt(want: Config, order: seq<Key>, fault: Option<nat>) | Reopen | Meddle(dev: Device)

  function After(curve: Key -> Key, t: TunnelState, e: Event): TunnelState {
    match e
    case Attempt(want, order, fault) => ApplyStep(curve, t, want, order, fault).0
    case Reopen => NEW_TUNNEL
    case Meddle(dev) => t.(dev := dev)
  }

  predicate Succeeds(curve: Key -> Key, t: TunnelState, e: Event) {
    e.Attempt? && ApplyStep(curve, t, e.want, e.order, e.fault).1
  }

  function Run(curve: Key -> Key, t: TunnelState, events: seq<Event>): TunnelState {
    if events == [] then t else After(curve, Run(curve, t, events[..|events| - 1]), events[|events| - 1])
  }

  // The exact result of an attempt

  /** Other tools leave a device that is not its own peer. */
  ghost predicate SaneMeddling(curve: Key -> Key, events: seq<Event>) {
    forall e :: e in events && e.Meddle? ==> Sane(curve, Session(e.dev, None))
  }

  lemma {:induction false} AlwaysSane(curve: Key -> Key, events: seq<Event>)
    requires SaneMeddling(curve, events)
    ensures Sane(curve, Session(Run(curve, NEW_TUNNEL, events).dev, None))
  {
    if events != [] {
      var front, last := events[..|events| - 1], events[|events| - 1];
      FrontAndLast(events);
      AlwaysSane(curve, front);
      var t := Run(curve, NEW_TUNNEL, front);
      if last.Attempt? && ChangesOf(t.applied, last.want) != NO_CHANGES {
        var script := Script(t.applied, last.want, last.order);
        InterruptionIsSane(curve, t.dev, t.applied, last.want, last.order, ReachedLine(script, last.fault));
      }
    }
  }

  /** After every history, whatever was asked for in it, failed or was done by
      other tools, an attempt that reports success has reached its target if and
      only if no two of its peers claim the same prefix and what it skipped was
      right. */
  lemma {:induction false} SuccessExact(curve: Key -> Key, past: seq<Event>, last: Event)
    requires SaneMeddling(curve, past)
    requires last.Attempt? && Admissible(curve, last.want)
    requires IsRemovalOrder(Run(curve, NEW_TUNNEL, past).applied, last.want, last.order)
    requires Succeeds(curve, Run(curve, NEW_TUNNEL, past), last)
    ensures var t := Run(curve, NEW_TUNNEL, past);
      var u := Run(curve, NEW_TUNNEL, past + [last]);
      && SettingsEquivalent(u.applied, last.want)
      && (Agrees(u.dev, last.want) <==> Disjoint(last.want.peers) && SkippedRight(t.dev, t.applied, last.want))
  {
    var t := Run(curve, NEW_TUNNEL, past);
    FrontOfSnoc(past, last);
    AlwaysSane(curve, past);
    NothingCounted(t.applied, last.want);
    var script := Script(t.applied, last.want, last.order);
    if ChangesOf(t.applied, last.want) == NO_CHANGES {
      EquivalentSendsNothing(t.applied, last.want, last.order);
    } else {
      assert script[..|script|] == script;
      SelfEquivalent(last.want);
    }
    ScriptReachesExactly(curve, t.dev, t.applied, last.want, last.order);
  }

  // The books of a history

  /** What is owed after a failure, which wanted keys may lack prefixes, and
      which keys on the device are those of other tools. */
  datatype Ledger = Ledger(owed: Option<Config>, damaged: set<Key>, others: set<Key>)

  const CLEAN := Ledger(None, {}, {})

  /** The keys that Knoten may have put on the device. */
  function Managed(curve: Key -> Key, applied: Config, owed: Option<Config>): set<Key> {
    match owed
    case None => KeysOf(applied.peers)
    case Some(c) => KeysOf(applied.peers) + KeysOf(c.peers) + {curve(c.iface.privateKey)}
  }

  /** Another tool has left the managed peers and the interface as they were. */
  ghost predicate LeavesManaged(was: Device, dev: Device, managed: set<Key>) {
    && dev.privateKey == was.privateKey && dev.listenPort == was.listenPort
    && forall k :: k in managed ==>
         && (k in dev.peers <==> k in was.peers)
         && (k in was.peers ==> dev.peers[k] == was.peers[k])
         && Owned(dev, k) == Owned(was, k)
  }

  ghost function Next(curve: Key -> Key, t: TunnelState, g: Ledger, e: Event): Ledger {
    match e
    case Attempt(want, _, _) =>
      Ledger(if Succeeds(curve, t, e) then None else Some(want),
             Damage(t.applied, want, g.damaged), Unasked(curve, want, g.others))
    case Reopen => CLEAN
    case Meddle(dev) => g.(others := dev.peers.Keys - Managed(curve, t.applied, g.owed))
  }

  /** After a failure the same configuration is asked for again, or one that is
      safe to ask for instead. */
  ghost predicate MayFollow(curve: Key -> Key, applied: Config, owed: Option<Config>, want: Config) {
    owed.None? || owed.value == want ||
    (SafeRetarget(curve, applied, owed.value, want) && want.iface.privateKey == owed.value.iface.privateKey)
  }

  ghost predicate Allowed(curve: Key -> Key, t: TunnelState, g: Ledger, e: Event) {
    match e
    case Attempt(want, order, _) =>
      Admissible(curve, want) && IsRemovalOrder(t.applied, want, order) && MayFollow(curve, t.applied, g.owed, want)
    case Reopen => true
    case Meddle(dev) =>
      Sane(curve, Session(dev, None)) && LeavesManaged(t.dev, dev, Managed(curve, t.applied, g.owed))
  }

  ghost function Books(curve: Key -> Key, t: TunnelState, g: Ledger, events: seq<Event>): Ledger {
    if events == [] then g
    else
      var front := events[..|events| - 1];
      Next(curve, Run(curve, t, front), Books(curve, t, g, front), events[|events| - 1])
  }

  ghost predicate Persistent(curve: Key -> Key, t: TunnelState, g: Ledger, events: seq<Event>) {
    events != [] ==>
      var front := events[..|events| - 1];
      && Persistent(curve, t, g, front)
      && Allowed(curve, Run(curve, t, front), Books(curve, t, g, front), events[|events| - 1])
  }

  /** The books are right. */
  ghost predicate Consistent(curve: Key -> Key, t: TunnelState, g: Ledger) {
    match g.owed
    case None => Settled(curve, t, g.damaged, g.others)
    case Some(c) => Admissible(curve, c) && Owing(curve, t, c, g.damaged, g.others)
  }

  lemma MayFollowOwes(curve: Key -> Key, t: TunnelState, g: Ledger, want: Config)
    requires Consistent(curve, t, g) && MayFollow(curve, t.applied, g.owed, want)
    ensures Owing(curve, t, want, g.damaged, Unasked(curve, want, g.others))
  {
    if g.owed.None? {
      SettledIsOwing(curve, t, want, g.damaged, g.others);
    } else if g.owed.value != want {
      OwingTransfers(curve, t, g.owed.value, want, g.damaged, g.others);
    }
  }

  lemma AttemptKeepsConsistent(curve: Key -> Key, t: TunnelState, g: Ledger, e: Event)
    requires Consistent(curve, t, g) && Allowed(curve, t, g, e) && e.Attempt?
    ensures var u, h := After(curve, t, e), Next(curve, t, g, e);
      && Consistent(curve, u, h)
      && (Succeeds(curve, t, e) ==> Reached(curve, u, e.want, h.damaged, h.others))
  {
    MayFollowOwes(curve, t, g, e.want);
    ApplyConverges(curve, t, e.want, e.order, e.fault, g.damaged, Unasked(curve, e.want, g.others));
  }

  lemma ManagedStand(was: Device, dev: Device, managed: set<Key>, p: Peer, damaged: set<Key>)
    requires LeavesManaged(was, dev, managed) && p.publicKey in managed && Stands(was, p, damaged)
    ensures Stands(dev, p, damaged)
  {
  }

  lemma MeddlingKeepsSettled(curve: Key -> Key, t: TunnelState, g: Ledger, dev: Device)
    requires Settled(curve, t, g.damaged, g.others) && Sane(curve, Session(dev, None))
    requires LeavesManaged(t.dev, dev, KeysOf(t.applied.peers))
    ensures Settled(curve, t.(dev := dev), g.damaged, dev.peers.Keys - KeysOf(t.applied.peers))
  {
    forall p | p in t.applied.peers
      ensures Stands(dev, p, g.damaged)
    {
      assert p.publicKey in KeysOf(t.applied.peers) && Stands(t.dev, p, g.damaged);
      ManagedStand(t.dev, dev, KeysOf(t.applied.peers), p, g.damaged);
    }
    StandingKeys(dev, t.applied, g.damaged);
  }

  lemma MeddlingKeepsOwing(curve: Key -> Key, t: TunnelState, g: Ledger, c: Config, dev: Device)
    requires Owing(curve, t, c, g.damaged, g.others) && Sane(curve, Session(dev, None))
    requires LeavesManaged(t.dev, dev, Managed(curve, t.applied, Some(c)))
    ensures Owing(curve, t.(dev := dev), c, g.damaged, dev.peers.Keys - Managed(curve, t.applied, Some(c)))
  {
    forall p | p in c.peers && Unchanged(Before(t.applied.peers), p)
      ensures Stands(dev, p, g.damaged)
    {
      assert p.publicKey in KeysOf(c.peers) && Stands(t.dev, p, g.damaged);
      ManagedStand(t.dev, dev, Managed(curve, t.applied, Some(c)), p, g.damaged);
    }
  }

  lemma MeddlingKeepsConsistent(curve: Key -> Key, t: TunnelState, g: Ledger, dev: Device)
    requires Consistent(curve, t, g) && Allowed(curve, t, g, Meddle(dev))
    ensures Consistent(curve, t.(dev := dev), Next(curve, t, g, Meddle(dev)))
  {
    match g.owed
    case None => MeddlingKeepsSettled(curve, t, g, dev);
    case Some(c) => MeddlingKeepsOwing(curve, t, g, c, dev);
  }

  lemma EventKeepsConsistent(curve: Key -> Key, t: TunnelState, g: Ledger, e: Event)
    requires Consistent(curve, t, g) && Allowed(curve, t, g, e)
    ensures Consistent(curve, After(curve, t, e), Next(curve, t, g, e))
  {
    match e
    case Attempt(_, _, _) => AttemptKeepsConsistent(curve, t, g, e);
    case Reopen => NewTunnelSettled(curve);
    case Meddle(dev) => MeddlingKeepsConsistent(curve, t, g, dev);
  }

  lemma {:induction false} BooksStayRight(curve: Key -> Key, t: TunnelState, g: Ledger, events: seq<Event>)
    requires Consistent(curve, t, g) && Persistent(curve, t, g, events)
    ensures Consistent(curve, Run(curve, t, events), Books(curve, t, g, events))
  {
    if events != [] {
      var front := events[..|events| - 1];
      BooksStayRight(curve, t, g, front);
      EventKeepsConsistent(curve, Run(curve, t, front), Books(curve, t, g, front), events[|events| - 1]);
    }
  }

  /** Over every history in which failures are retried, with the same target or
      a safe one, and other tools keep to their own peers: each success leaves
      the device with exactly the peers asked for and those of other tools, each
      configured as wanted, and what Apply remembers is equivalent to the latest
      target. The targets may have claimed the same prefixes; then the peers on
      the books as damaged may lack some, and the others lack none. */
  lemma {:induction false} HistoryConverges(curve: Key -> Key, t: TunnelState, g: Ledger, past: seq<Event>, last: Event)
    requires Consistent(curve, t, g) && Persistent(curve, t, g, past + [last])
    requires Succeeds(curve, Run(curve, t, past), last)
    ensures var u, h := Run(curve, t, past + [last]), Books(curve, t, g, past + [last]);
      && Reached(curve, u, last.want, h.damaged, h.others)
      && (h.damaged == {} ==> Agrees(u.dev, last.want))
  {
    FrontOfSnoc(past, last);
    BooksStayRight(curve, t, g, past);
    AttemptKeepsConsistent(curve, Run(curve, t, past), Books(curve, t, g, past), last);
    NothingDamaged(Run(curve, t, past + [last]).dev, last.want);
  }

  // Peers of other tools

  /** The attempts of a stretch of history in which no other tool and no reopened
      tunnel interferes. */
  ghost predicate OnlyAttempts(curve: Key -> Key, t: TunnelState, events: seq<Event>) {
    events != [] ==>
      var front, last := events[..|events| - 1], events[|events| - 1];
      && OnlyAttempts(curve, t, front)
      && last.Attempt? && UniqueKeys(last.want.peers)
      && IsRemovalOrder(Run(curve, t, front).applied, last.want, last.order)
  }

  /** Nobody in the history asks for k, or is k. */
  ghost predicate NeverAsked(curve: Key -> Key, events: seq<Event>, k: Key) {
    forall e :: e in events && e.Attempt? ==> k !in KeysOf(e.want.peers) && k != curve(e.want.iface.privateKey)
  }

  /** All that is claimed in the history. */
  ghost function ClaimedIn(events: seq<Event>): set<Prefix> {
    set e, p, x | e in events && e.Attempt? && p in e.want.peers && x in Claims(p) :: x
  }

  /** k is as it was, but for prefixes among `claimed` that it may have lost. */
  ghost predicate KeptBut(was: Device, dev: Device, k: Key, claimed: set<Prefix>) {
    && (k in dev.peers <==> k in was.peers)
    && (k in was.peers ==> dev.peers[k] == was.peers[k])
    && Owned(was, k) - claimed <= Owned(dev, k) <= Owned(was, k)
  }

  lemma AttemptKeepsStranger(curve: Key -> Key, t: TunnelState, e: Event, k: Key)
    requires e.Attempt? && UniqueKeys(e.want.peers) && IsRemovalOrder(t.applied, e.want, e.order)
    requires k !in KeysOf(t.applied.peers) && k !in KeysOf(e.want.peers) && k != curve(e.want.iface.privateKey)
    ensures KeptBut(t.dev, After(curve, t, e).dev, k, RewrittenClaims(t.applied, e.want))
    ensures k !in KeysOf(After(curve, t, e).applied.peers)
  {
    if ChangesOf(t.applied, e.want) != NO_CHANGES {
      StrangerKept(curve, t.dev, t.applied, e.want, e.order, ReachedLine(Script(t.applied, e.want, e.order), e.fault), k);
    }
  }

  lemma ClaimedNext(front: seq<Event>, last: Event, applied: Config)
    requires last.Attempt?
    ensures ClaimedIn(front) + RewrittenClaims(applied, last.want) <= ClaimedIn(front + [last])
  {
    assert last in front + [last];
    assert forall e :: e in front ==> e in front + [last];
  }

  /** Over any such stretch, with successes and failures in it, a peer of another
      tool keeps its presence, endpoint and keepalive, gains no prefix, and loses
      at most prefixes that were claimed meanwhile. */
  lemma {:induction false} StrangersOverHistory(curve: Key -> Key, t: TunnelState, events: seq<Event>, k: Key)
    requires OnlyAttempts(curve, t, events) && NeverAsked(curve, events, k) && k !in KeysOf(t.applied.peers)
    ensures KeptBut(t.dev, Run(curve, t, events).dev, k, ClaimedIn(events))
    ensures k !in KeysOf(Run(curve, t, events).applied.peers)
  {
    if events != [] {
      var front, last := events[..|events| - 1], events[|events| - 1];
      FrontAndLast(events);
      StrangersOverHistory(curve, t, front, k);
      var u := Run(curve, t, front);
      AttemptKeepsStranger(curve, u, last, k);
      ClaimedNext(front, last, u.applied);
    }
  }

  /** No target of the history has two peers that claim the same prefix. */
  ghost predicate NeverOverlapping(events: seq<Event>) {
    forall e :: e in events && e.Attempt? ==> UniqueKeys(e.want.peers) && Disjoint(e.want.peers)
  }

  /** Then nothing is ever damaged. */
  lemma {:induction false} NoOverlapNoDamage(curve: Key -> Key, t: TunnelState, g: Ledger, events: seq<Event>)
    requires NeverOverlapping(events) && g.damaged == {}
    ensures Books(curve, t, g, events).damaged == {}
  {
    if events != [] {
      var front, last := events[..|events| - 1], events[|events| - 1];
      FrontAndLast(events);
      NoOverlapNoDamage(curve, t, g, front);
      if last.Attempt? {
        DisjointDoesNoDamage(Run(curve, t, front).applied, last.want, {});
      }
    }
  }

  lemma NextOthers(curve: Key -> Key, t: TunnelState, g: Ledger, e: Event)
    requires !e.Meddle? && g.others == {}
    ensures Next(curve, t, g, e).others == {}
  {
  }

  /** Without meddling, no key stays on the device that is not wanted. */
  lemma {:induction false} NobodyElse(curve: Key -> Key, t: TunnelState, g: Ledger, events: seq<Event>)
    requires (forall e :: e in events ==> !e.Meddle?) && g.others == {}
    ensures Books(curve, t, g, events).others == {}
  {
    if events != [] {
      var front, last := events[..|events| - 1], events[|events| - 1];
      FrontAndLast(events);
      NobodyElse(curve, t, g, front);
      NextOthers(curve, Run(curve, t, front), Books(curve, t, g, front), last);
    }
  }
}
