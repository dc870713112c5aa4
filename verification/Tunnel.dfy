/** The running tunnel: `diff` and `writeTo` as they build the text of a script,
    and the object whose Apply sends it and remembers what it sent. */
module Tunnel {
  import opened Wrappers
  import opened Sequences
  import opened Keys
  import opened Netip
  import opened WgState
  import opened Device
  import opened Reconcile
  import opened Apply
  import opened ScriptText

  /** Appends p's peer block to b. */
  method WriteTo(p: Peer, b: string) returns (r: string)
    ensures r == b + Render(PeerLines(p))
  {
    ghost var lines := [SelectPeer(p.publicKey)];
    RenderOne(SelectPeer(p.publicKey));
    var text := LineText(SelectPeer(p.publicKey)) + ['\n'];
    if p.endpoint.AddrPort? {
      text := Extend(text, lines, SetEndpoint(p.endpoint));
    }
    lines := lines + EndpointLines(p.endpoint);
    text := Extend(text, lines, SetKeepalive(Seconds(p.keepalive)));
    lines := lines + [SetKeepalive(Seconds(p.keepalive))];
    text := Extend(text, lines, ReplaceAllowedIPs);
    lines := lines + [ReplaceAllowedIPs];
    assert lines == ClearingLines(p);
    text := WriteAllowed(p.allowedIPs, text, lines);
    r := b + text;
  }

  /** Appends a line for each prefix. */
  method WriteAllowed(prefixes: seq<Prefix>, text: string, ghost lines: seq<Command>) returns (r: string)
    requires text == Render(lines)
    ensures r == Render(lines + AllowedLines(prefixes))
  {
    r := text;
    assert lines + AllowedLines(prefixes[..0]) == lines;
    for i := 0 to |prefixes|
      invariant r == Render(lines + AllowedLines(prefixes[..i]))
    {
      AllowedNext(lines, prefixes, i);
      r := Extend(r, lines + AllowedLines(prefixes[..i]), AllowedIP(prefixes[i]));
    }
    assert prefixes[..|prefixes|] == prefixes;
  }

  /** Appends one line to the text of the lines so far. */
  method Extend(text: string, ghost lines: seq<Command>, c: Command) returns (r: string)
    requires text == Render(lines)
    ensures r == Render(lines + [c])
  {
    r := text + (LineText(c) + ['\n']);
    RenderSnoc(lines, c);
  }

  lemma RenderOne(c: Command)
    ensures Render([c]) == LineText(c) + ['\n']
  {
    RenderSnoc([], c);
    assert [] + [c] == [c];
    assert [] + (LineText(c) + ['\n']) == LineText(c) + ['\n'];
  }

  lemma AllowedNext(lines: seq<Command>, prefixes: seq<Prefix>, i: nat)
    requires i < |prefixes|
    ensures (lines + AllowedLines(prefixes[..i])) + [AllowedIP(prefixes[i])] == lines + AllowedLines(prefixes[..i + 1])
  {
    var next := prefixes[..i + 1];
    assert next[..|next| - 1] == prefixes[..i];
  }

  /** The text of the first n wanted peers' blocks. */
  function PutText(before: map<Key, Peer>, peers: seq<Peer>, n: nat): string
    requires n <= |peers|
  {
    if n == 0 then []
    else if Skipped(before, peers, n - 1) then PutText(before, peers, n - 1)
    else PutText(before, peers, n - 1) + Render(PeerLines(peers[n - 1]))
  }

  function DropText(order: seq<Key>): string {
    if order == [] then [] else DropText(order[..|order| - 1]) + RemovalText(order[|order| - 1])
  }

  function RemovalText(k: Key): string {
    LineText(SelectPeer(k)) + ['\n'] + (LineText(RemovePeer) + ['\n'])
  }

  lemma TextOfDrop(k: Key)
    ensures Render(BlockLines(Drop(k))) == RemovalText(k)
  {
    RenderOne(SelectPeer(k));
    RenderSnoc([SelectPeer(k)], RemovePeer);
    assert [SelectPeer(k)] + [RemovePeer] == BlockLines(Drop(k));
  }

  lemma {:induction false} TextOfBlocks(front: seq<Block>, last: Block)
    ensures Render(Flatten(front + [last])) == Render(Flatten(front)) + Render(BlockLines(last))
  {
    FlattenSnoc(front, last);
    RenderConcat(Flatten(front), BlockLines(last));
  }

  lemma PutTextNext(before: map<Key, Peer>, peers: seq<Peer>, n: nat)
    requires n < |peers|
    ensures Skipped(before, peers, n) ==>
      && PutBlocks(before, peers, n + 1) == PutBlocks(before, peers, n)
      && PutText(before, peers, n + 1) == PutText(before, peers, n)
    ensures !Skipped(before, peers, n) ==>
      && PutBlocks(before, peers, n + 1) == PutBlocks(before, peers, n) + [Put(peers[n])]
      && PutText(before, peers, n + 1) == PutText(before, peers, n) + Render(PeerLines(peers[n]))
    ensures Added(before, peers, n + 1) == Added(before, peers, n) + if Existed(before, peers, n) then 0 else 1
    ensures Updated(before, peers, n + 1)
         == Updated(before, peers, n) + if Existed(before, peers, n) && !Skipped(before, peers, n) then 1 else 0
  {
  }

  lemma {:induction false} PutTextIs(before: map<Key, Peer>, peers: seq<Peer>, n: nat)
    requires n <= |peers|
    ensures PutText(before, peers, n) == Render(Flatten(PutBlocks(before, peers, n)))
  {
    if n > 0 {
      var m := n - 1;
      PutTextIs(before, peers, m);
      var blocks, text := PutBlocks(before, peers, m), PutText(before, peers, m);
      assert text == Render(Flatten(blocks));
      PutTextNext(before, peers, m);
      if Skipped(before, peers, m) {
        assert PutBlocks(before, peers, n) == blocks;
        assert PutText(before, peers, n) == text;
      } else {
        TextOfBlocks(blocks, Put(peers[m]));
        assert PutBlocks(before, peers, n) == blocks + [Put(peers[m])];
        assert PutText(before, peers, n) == text + Render(BlockLines(Put(peers[m])));
        assert PutText(before, peers, n) == Render(Flatten(blocks + [Put(peers[m])]));
      }
    }
  }

  lemma {:induction false} DropTextIs(order: seq<Key>)
    ensures DropText(order) == Render(Flatten(DropBlocks(order)))
  {
    if order != [] {
      var front, k := order[..|order| - 1], order[|order| - 1];
      DropTextIs(front);
      TextOfBlocks(DropBlocks(front), Drop(k));
      TextOfDrop(k);
    }
  }

  lemma {:induction false} ScriptTextIs(applied: Config, want: Config, order: seq<Key>)
    ensures Render(Script(applied, want, order))
         == Render(InterfaceLines(applied.iface, want.iface))
            + (PutText(Before(applied.peers), want.peers, |want.peers|) + DropText(order))
  {
    var puts, drops := PutBlocks(Before(applied.peers), want.peers, |want.peers|), DropBlocks(order);
    PutTextIs(Before(applied.peers), want.peers, |want.peers|);
    DropTextIs(order);
    FlattenConcat(puts, drops);
    RenderConcat(Flatten(puts), Flatten(drops));
    RenderConcat(InterfaceLines(applied.iface, want.iface), Flatten(puts + drops));
  }

  /** The applied peers by key. */
  method IndexPeers(peers: seq<Peer>) returns (before: map<Key, Peer>)
    ensures before == Before(peers)
  {
    before := map[];
    for i := 0 to |peers|
      invariant before == Before(peers[..i])
    {
      before := before[peers[i].publicKey := peers[i]];
      assert peers[..i + 1][..i] == peers[..i];
    }
    assert peers[..|peers|] == peers;
  }

  method WriteInterface(applied: Interface, want: Interface) returns (text: string, changed: bool)
    ensures text == Render(InterfaceLines(applied, want))
    ensures changed == (want.privateKey != applied.privateKey || want.listenPort != applied.listenPort)
  {
    text, changed := "", false;
    ghost var lines: seq<Command> := [];
    if want.privateKey != applied.privateKey {
      text := Extend(text, lines, SetPrivateKey(want.privateKey));
      lines := lines + [SetPrivateKey(want.privateKey)];
      changed := true;
    }
    if want.listenPort != applied.listenPort {
      text := Extend(text, lines, SetListenPort(want.listenPort));
      lines := lines + [SetListenPort(want.listenPort)];
      changed := true;
    }
    assert lines == InterfaceLines(applied, want);
  }

  lemma NothingSeen(before: map<Key, Peer>, peers: seq<Peer>)
    ensures before == before - KeysOf(peers[..0])
    ensures peers[..|peers|] == peers
  {
    assert KeysOf(peers[..0]) == {};
  }

  /** One turn of the loop over the wanted peers. */
  method WritePeer(p: Peer, text: string, left: map<Key, Peer>, added: nat, updated: nat,
                   ghost before: map<Key, Peer>, ghost peers: seq<Peer>, ghost i: nat)
    returns (text': string, left': map<Key, Peer>, added': nat, updated': nat)
    requires i < |peers| && p == peers[i]
    requires left == before - KeysOf(peers[..i])
    requires text == PutText(before, peers, i)
    requires added == Added(before, peers, i) && updated == Updated(before, peers, i)
    ensures left' == before - KeysOf(peers[..i + 1])
    ensures text' == PutText(before, peers, i + 1)
    ensures added' == Added(before, peers, i + 1) && updated' == Updated(before, peers, i + 1)
  {
    LeftNext(before, peers, i, left);
    PutTextNext(before, peers, i);
    text', left', added', updated' := text, left - {p.publicKey}, added, updated;
    if p.publicKey !in left {
      added' := added + 1;
    } else if SameSettings(p, left[p.publicKey]) {
      assert Skipped(before, peers, i);
      return;
    } else {
      updated' := updated + 1;
    }
    text' := WriteTo(p, text);
  }

  /** Writes the new and the changed peers, and leaves in `left` the applied
      ones that are not wanted. */
  method WritePeers(peers: seq<Peer>, before: map<Key, Peer>)
    returns (text: string, left: map<Key, Peer>, added: nat, updated: nat)
    ensures text == PutText(before, peers, |peers|)
    ensures left == before - KeysOf(peers)
    ensures added == Added(before, peers, |peers|)
    ensures updated == Updated(before, peers, |peers|)
  {
    text, left, added, updated := "", before, 0, 0;
    NothingSeen(before, peers);
    for i := 0 to |peers|
      invariant left == before - KeysOf(peers[..i])
      invariant text == PutText(before, peers, i)
      invariant added == Added(before, peers, i) && updated == Updated(before, peers, i)
    {
      text, left, added, updated := WritePeer(peers[i], text, left, added, updated, before, peers, i);
    }
  }

  /** Removes what is left, in whatever order the map is walked. */
  method WriteRemovals(left: map<Key, Peer>) returns (text: string, removed: nat, ghost order: seq<Key>)
    ensures text == DropText(order)
    ensures removed == |left.Keys|
    ensures Distinct(order) && forall k :: k in order <==> k in left
  {
    text, removed, order := "", 0, [];
    var rest := left.Keys;
    while rest != {}
      invariant rest <= left.Keys
      invariant forall k :: k in order <==> k in left.Keys - rest
      invariant Distinct(order)
      invariant text == DropText(order)
      invariant removed + |rest| == |left.Keys|
      decreases |rest|
    {
      var pub :| pub in rest;
      text := text + RemovalText(pub);
      removed := removed + 1;
      rest := rest - {pub};
      DistinctSnoc(order, pub);
      assert (order + [pub])[..|order|] == order;
      order := order + [pub];
    }
  }

  /** The script from applied to want, as text, and the counts. `order` is how
      the last loop happened to walk the leftover keys. */
  method Diff(applied: Config, want: Config) returns (text: string, ch: Changes, ghost order: seq<Key>)
    ensures IsRemovalOrder(applied, want, order)
    ensures text == Render(Script(applied, want, order))
    ensures ch == ChangesOf(applied, want)
  {
    var head, iface := WriteInterface(applied.iface, want.iface);
    var before := IndexPeers(applied.peers);
    var puts, left, added, updated := WritePeers(want.peers, before);
    var drops, removed;
    drops, removed, order := WriteRemovals(left);
    assert left.Keys == before.Keys - KeysOf(want.peers);
    text := head + (puts + drops);
    ScriptTextIs(applied, want, order);
    ch := Changes(iface, added, updated, removed);
  }

  /** A key is still in `left` exactly when the peer existed. */
  lemma LeftNext(before: map<Key, Peer>, peers: seq<Peer>, i: nat, left: map<Key, Peer>)
    requires i < |peers| && left == before - KeysOf(peers[..i])
    ensures peers[i].publicKey in left <==> Existed(before, peers, i)
    ensures peers[i].publicKey in left ==> left[peers[i].publicKey] == before[peers[i].publicKey]
    ensures left - {peers[i].publicKey} == before - KeysOf(peers[..i + 1])
  {
    NextPrefix(peers, i);
    assert KeysOf(peers[..i + 1]) == KeysOf(peers[..i]) + {peers[i].publicKey};
  }

  function Minus(fault: Option<nat>, i: nat): Option<nat>
    requires fault.Some? ==> i <= fault.value
  {
    if fault.Some? then Some(fault.value - i) else None
  }

  lemma {:induction false} ObeyNext(curve: Key -> Key, s: Session, heard: seq<Option<Command>>, i: nat, fault: Option<nat>)
    requires i < |heard| && heard[i].Some? && (fault.Some? ==> i < fault.value)
    ensures Obey(curve, s, heard[i..], Minus(fault, i))
         == Obey(curve, Step(curve, s, heard[i].value), heard[i + 1..], Minus(fault, i + 1))
  {
    assert heard[i..][1..] == heard[i + 1..];
  }

  /** Whatever was damaged before and whoever else has peers on the device: a
      tunnel that owed want has reached it, or owes it still. */
  ghost predicate Progress(curve: Key -> Key, t: TunnelState, u: TunnelState, want: Config, ok: bool) {
    forall damaged, others :: Owing(curve, t, want, damaged, others) ==>
      && (ok ==> Reached(curve, u, want, Damage(t.applied, want, damaged), others))
      && (!ok ==> Owing(curve, u, want, Damage(t.applied, want, damaged), others))
  }

  lemma ApplyProgress(curve: Key -> Key, t: TunnelState, want: Config, order: seq<Key>, fault: Option<nat>)
    requires Admissible(curve, want) && IsRemovalOrder(t.applied, want, order)
    ensures var (u, ok) := ApplyStep(curve, t, want, order, fault);
      Progress(curve, t, u, want, ok)
  {
    forall damaged, others | Owing(curve, t, want, damaged, others)
      ensures var (u, ok) := ApplyStep(curve, t, want, order, fault);
        && (ok ==> Reached(curve, u, want, Damage(t.applied, want, damaged), others))
        && (!ok ==> Owing(curve, u, want, Damage(t.applied, want, damaged), others))
    {
      ApplyConverges(curve, t, want, order, fault, damaged, others);
    }
  }

  /** Takes the lines in order, up to one that is refused or the session's
      break-down. */
  method WorkThrough(curve: Key -> Key, start: Session, heard: seq<Option<Command>>, fault: Option<nat>)
    returns (s: Session, ok: bool)
    ensures s == Obey(curve, start, heard, fault)
    ensures ok == Complete(heard, fault)
  {
    s := start;
    var i := 0;
    ghost var end := Obey(curve, start, heard, fault);
    assert heard[0..] == heard;
    while i < |heard| && heard[i].Some? && fault != Some(i)
      invariant 0 <= i <= |heard|
      invariant fault.Some? ==> i <= fault.value
      invariant forall j :: 0 <= j < i ==> heard[j].Some?
      invariant end == Obey(curve, s, heard[i..], Minus(fault, i))
    {
      ObeyNext(curve, s, heard, i, fault);
      s := Step(curve, s, heard[i].value);
      i := i + 1;
    }
    ObeyEnds(curve, s, heard, i, fault);
    ok := fault.None? && i == |heard|;
  }

  lemma {:induction false} ObeyEnds(curve: Key -> Key, s: Session, heard: seq<Option<Command>>, i: nat, fault: Option<nat>)
    requires i <= |heard| && (fault.Some? ==> i <= fault.value)
    requires i == |heard| || heard[i].None? || fault == Some(i)
    ensures Obey(curve, s, heard[i..], Minus(fault, i)) == s
  {
  }

  /** The WireGuard device together with what Knoten last sent to it.
      How it is opened is not modelled; what other tools do to it is in History. */
  class Tunnel {
    var dev: Device
    var applied: Config

    ghost function State(): TunnelState
      reads this
    {
      TunnelState(dev, applied)
    }

    constructor ()
      ensures State() == NEW_TUNNEL
    {
      dev, applied := FRESH_DEVICE, EMPTY_CONFIG;
    }

    /** One session with the device; it may break down after `fault` lines. */
    method IpcSet(curve: Key -> Key, text: string, fault: Option<nat>) returns (ok: bool)
      modifies this`dev
      ensures dev == Obey(curve, Session(old(dev), None), ReadScript(text), fault).dev
      ensures ok == Complete(ReadScript(text), fault)
    {
      var heard := ReadScript(text);
      var s;
      s, ok := WorkThrough(curve, Session(dev, None), heard, fault);
      dev := s.dev;
    }

    /** Makes the device match want. Besides the exact effect, the contract
        states what the effect is good for. */
    method Apply(curve: Key -> Key, want: Config, fault: Option<nat>) returns (r: Result<Changes, ()>, ghost order: seq<Key>)
      modifies this
      ensures IsRemovalOrder(old(applied), want, order)
      ensures (State(), r.Ok?) == ApplyStep(curve, old(State()), want, order, fault)
      ensures r.Ok? ==> r.value == ChangesOf(old(applied), want)
      ensures Admissible(curve, want) ==> Progress(curve, old(State()), State(), want, r.Ok?)
    {
      var text, ch;
      text, ch, order := Diff(applied, want);
      ghost var script := Script(applied, want, order);
      ghost var t := State();
      if Admissible(curve, want) {
        ApplyProgress(curve, t, want, order, fault);
      }
      if ch == NO_CHANGES {
        return Ok(ch), order;
      }
      ScriptRoundTrip(script);
      ObeyRuns(curve, Session(dev, None), script, fault);
      CompleteIsDelivered(script, fault);
      var ok := IpcSet(curve, text, fault);
      if !ok {
        return Err(()), order;
      }
      applied := want;
      return Ok(ch), order;
    }
  }
}
