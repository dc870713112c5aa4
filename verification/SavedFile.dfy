/** What saveFile writes: meshd's own parts and nothing else, in a file that
    meshd will read back. */
module SavedFile {
  import opened Wrappers
  import opened Sequences
  import opened Ordering
  import opened Text
  import opened Keys
  import opened PeerBook
  import opened ConfigFile
  import opened Meshd

  // Lists

  lemma {:induction false} OnlyOfConcat(a: seq<Peer>, b: seq<Peer>, s: Source)
    ensures Only(a + b, s) == Only(a, s) + Only(b, s)
  {
    if b == [] {
      assert a + b == a;
    } else {
      var front, last := b[..|b| - 1], b[|b| - 1];
      FrontAndLast(b);
      Regroup(a, front, [last]);
      OnlyOfConcat(a, front, s);
      OnlySnoc(a + front, last, s);
      OnlySnoc(front, last, s);
      Regroup(Only(a, s), Only(front, s), [last]);
    }
  }

  lemma {:induction false} OnlySnoc(front: seq<Peer>, last: Peer, s: Source)
    ensures Only(front + [last], s) == if last.source == s then Only(front, s) + [last] else Only(front, s)
  {
    FrontOfSnoc(front, last);
  }

  lemma {:induction false} OnlyNone(list: seq<Peer>, s: Source)
    requires forall p :: p in list ==> p.source != s
    ensures Only(list, s) == []
  {
    if list != [] {
      FrontAndLast(list);
      OnlyNone(list[..|list| - 1], s);
    }
  }

  lemma {:induction false} OnlyAll(list: seq<Peer>, s: Source)
    requires forall p :: p in list ==> p.source == s
    ensures Only(list, s) == list
  {
    if list != [] {
      var front, last := list[..|list| - 1], list[|list| - 1];
      FrontAndLast(list);
      OnlyAll(front, s);
    }
  }

  /** Taking the manual entries first changes nothing for a manual source. */
  lemma {:induction false} OnlyOfManual(list: seq<Peer>, s: Source)
    requires s != Synced
    ensures Only(Manual(list), s) == Only(list, s)
  {
    if list != [] {
      var front, last := list[..|list| - 1], list[|list| - 1];
      OnlyOfManual(front, s);
      OnlySnoc(Manual(front), last, s);
    }
  }

  lemma {:induction false} ManualOfConcat(a: seq<Peer>, b: seq<Peer>)
    requires forall p :: p in b ==> p.source == Synced
    ensures Manual(a + b) == Manual(a)
  {
    if b == [] {
      assert a + b == a;
    } else {
      var front, last := b[..|b| - 1], b[|b| - 1];
      FrontAndLast(b);
      Regroup(a, front, [last]);
      FrontOfSnoc(a + front, last);
      ManualOfConcat(a, front);
    }
  }

  lemma {:induction false} ManualOfManual(list: seq<Peer>)
    ensures Manual(Manual(list)) == Manual(list)
  {
    if list != [] {
      var front, last := list[..|list| - 1], list[|list| - 1];
      ManualOfManual(front);
      if last.source != Synced {
        FrontOfSnoc(Manual(front), last);
      }
    }
  }

  lemma {:induction false} NotInAll(list: seq<Peer>, s: set<Key>)
    requires forall p :: p in list ==> p.publicKey !in s
    ensures NotIn(list, s) == list
  {
    if list != [] {
      var front, last := list[..|list| - 1], list[|list| - 1];
      FrontAndLast(list);
      NotInAll(front, s);
    }
  }

  /** Leaving entries out keeps a list sorted. */
  lemma {:induction false} NotInSorted(list: seq<Peer>, s: set<Key>)
    requires StrictlySorted(list, PeerRank)
    ensures StrictlySorted(NotIn(list, s), PeerRank)
  {
    if list != [] {
      var front, last := list[..|list| - 1], list[|list| - 1];
      NotInSorted(front, s);
      var kept := NotIn(front, s);
      forall i | 0 <= i < |kept|
        ensures LexLess(PeerRank(kept[i]), PeerRank(last))
      {
        assert kept[i] in front;
        var j :| 0 <= j < |front| && front[j] == kept[i];
        assert list[j] == kept[i];
      }
    }
  }

  lemma {:induction false} ManualDistinct(list: seq<Peer>)
    requires DistinctKeys(list)
    ensures DistinctKeys(Manual(list))
  {
    if list != [] {
      var front, last := list[..|list| - 1], list[|list| - 1];
      ManualDistinct(front);
      var kept := Manual(front);
      forall i | 0 <= i < |kept|
        ensures kept[i].publicKey != last.publicKey
      {
        assert kept[i] in front;
        var j :| 0 <= j < |front| && front[j] == kept[i];
        assert list[j] == kept[i];
      }
    }
  }

  lemma SortedListDistinct(list: seq<Peer>)
    requires StrictlySorted(list, PeerRank)
    ensures DistinctKeys(list)
  {
    SortedDistinct(list, PeerRank);
    forall i, j | 0 <= i < j < |list|
      ensures list[i].publicKey != list[j].publicKey
    {
      assert PeerRank(list[i]) != PeerRank(list[j]);
    }
  }

  lemma ConcatDistinct(a: seq<Peer>, b: seq<Peer>)
    requires DistinctKeys(a) && DistinctKeys(b)
    requires forall p, q :: p in a && q in b ==> p.publicKey != q.publicKey
    ensures DistinctKeys(a + b)
  {
    var c := a + b;
    forall i, j | 0 <= i < j < |c|
      ensures c[i].publicKey != c[j].publicKey
    {
      if i < |a| && j >= |a| {
        assert c[i] in a && c[j] in b;
      }
    }
  }

  // Merging

  /** The entries that a merge adds after the manual ones. */
  ghost function Added(d: Core, disk: FileConfig): seq<Peer> {
    NotIn(SavedPeers(d.book), KeysIn(Manual(disk.peers)))
  }

  /** Keys stay unique: manual entries win. */
  lemma MergedDistinct(d: Core, disk: FileConfig)
    requires OwnKeys(d.book.syncedPeers) && DistinctKeys(disk.peers)
    ensures DistinctKeys(Merged(disk.peers, SavedPeers(d.book)))
    ensures StrictlySorted(Added(d, disk), PeerRank)
  {
    NotInSorted(SavedPeers(d.book), KeysIn(Manual(disk.peers)));
    SortedListDistinct(Added(d, disk));
    ManualDistinct(disk.peers);
    ConcatDistinct(Manual(disk.peers), Added(d, disk));
  }

  /** An entry that Validate leaves as it is. */
  predicate NormalEntry(p: Peer) { NormalPeer(p) == p }

  ghost predicate AllNormal(list: seq<Peer>) {
    forall i :: 0 <= i < |list| ==> NormalEntry(list[i])
  }

  lemma {:induction false} AllNormalIsNormal(list: seq<Peer>)
    ensures AllNormal(list) <==> NormalPeers(list) == list
  {
    assert forall i :: 0 <= i < |list| ==> (NormalPeers(list)[i] == list[i] <==> NormalEntry(list[i]));
  }

  /** The synced entries of the book are as the server, or a file that was
      accepted, gave them. */
  ghost predicate SyncedFromServer(b: BookState) {
    forall k :: k in b.syncedPeers ==> ServerEntry(b.syncedPeers[k])
  }

  /** A synced peer with at least one address, all of them valid and masked. */
  predicate ServerEntry(p: Peer) {
    p.source == Synced && p.allowedIPs != [] && AllValid(p.allowedIPs) && NormalEntry(p)
  }

  lemma MergedNormal(d: Core, disk: FileConfig)
    requires SyncedFromServer(d.book) && NormalPeers(disk.peers) == disk.peers
    ensures NormalPeers(Merged(disk.peers, SavedPeers(d.book))) == Merged(disk.peers, SavedPeers(d.book))
  {
    AllNormalIsNormal(disk.peers);
    var out := Merged(disk.peers, SavedPeers(d.book));
    forall i | 0 <= i < |out|
      ensures NormalEntry(out[i])
    {
      if i < |Manual(disk.peers)| {
        assert out[i] in Manual(disk.peers);
        var j :| 0 <= j < |disk.peers| && disk.peers[j] == out[i];
      } else {
        assert out[i] in Added(d, disk);
        var k :| k in d.book.syncedPeers && d.book.syncedPeers[k] == out[i];
      }
    }
    AllNormalIsNormal(out);
  }

  lemma MergedParts(d: Core, disk: FileConfig)
    requires BookOk(d.book) && DistinctKeys(disk.peers)
    ensures var out := Merged(disk.peers, SavedPeers(d.book));
      && out == Manual(disk.peers) + Added(d, disk)
      && Manual(out) == Manual(disk.peers)
      && Only(out, Synced) == Added(d, disk)
      && StrictlySorted(Added(d, disk), PeerRank)
      && DistinctKeys(out)
  {
    var manual, added := Manual(disk.peers), Added(d, disk);
    MergedDistinct(d, disk);
    assert forall p :: p in added ==> p.source == Synced;
    ManualOfConcat(manual, added);
    ManualOfManual(disk.peers);
    OnlyOfConcat(manual, added, Synced);
    OnlyNone(manual, Synced);
    OnlyAll(added, Synced);
    assert [] + added == added;
  }

  /** rest are, by key, the book's synced peers whose keys no manual entry on disk
      has. */
  ghost predicate ServersPart(b: BookState, disk: seq<Peer>, rest: seq<Peer>) {
    && (forall i, j :: 0 <= i < j < |rest| ==> rest[i].publicKey < rest[j].publicKey)
    && forall p :: p in rest <==> p in b.syncedPeers.Values && !ListsManually(disk, p.publicKey)
  }

  /** out has the entries of the file on disk that are not the server's, as they
      are and in their order, and after them the server's. */
  ghost predicate WellMerged(b: BookState, disk: seq<Peer>, out: seq<Peer>, at: seq<nat>) {
    && |at| <= |out| && Picks(disk, at, out[..|at|])
    && (forall n :: 0 <= n < |disk| ==> (n in at <==> disk[n].source != Synced))
    && ServersPart(b, disk, out[|at|..])
  }

  lemma AddedAreServers(d: Core, disk: FileConfig)
    requires OwnKeys(d.book.syncedPeers) && StrictlySorted(Added(d, disk), PeerRank)
    ensures ServersPart(d.book, disk.peers, Added(d, disk))
  {
    var rest := Added(d, disk);
    forall i, j | 0 <= i < j < |rest|
      ensures rest[i].publicKey < rest[j].publicKey
    {
      KeyOrder(rest[i].publicKey, rest[j].publicKey);
    }
    forall p
      ensures p in rest <==> p in d.book.syncedPeers.Values && !ListsManually(disk.peers, p.publicKey)
    {
      ManualKeys(disk.peers, p.publicKey);
    }
  }

  lemma MergesWell(d: Core, disk: FileConfig)
    requires BookOk(d.book) && DistinctKeys(disk.peers)
    ensures exists at :: WellMerged(d.book, disk.peers, Merged(disk.peers, SavedPeers(d.book)), at)
  {
    var out := Merged(disk.peers, SavedPeers(d.book));
    var at := ManualPicks(disk.peers);
    MergedParts(d, disk);
    AddedAreServers(d, disk);
    assert out[..|at|] == Manual(disk.peers) && out[|at|..] == Added(d, disk);
    assert WellMerged(d.book, disk.peers, out, at);
  }

  /** saveFile writes meshd's parts only: every setting but the address and a
      new key is as on disk, the manual entries are as on disk and in the same
      order, and the server's follow, sorted by key, each key once. */
  lemma WritesOnlyItsParts(d: Core, disk: FileConfig)
    requires BookOk(d.book) && DistinctKeys(disk.peers)
    ensures var out := ToWrite(d, disk);
      && out.(address := disk.address, privateKey := disk.privateKey, peers := disk.peers) == disk
      && out.privateKey == (if d.newKey then d.cfg.privateKey else disk.privateKey)
      && Manual(out.peers) == Manual(disk.peers)
      && DistinctKeys(out.peers)
      && (UsesServer(d.cfg) && UsesServer(disk) ==>
            && out.address == d.cfg.address
            && out.peers == Manual(disk.peers) + Added(d, disk)
            && (exists at :: WellMerged(d.book, disk.peers, out.peers, at))
            && StrictlySorted(Added(d, disk), PeerRank)
            && Only(out.peers, Synced) == Added(d, disk))
      && (!(UsesServer(d.cfg) && UsesServer(disk)) ==> out.address == disk.address && out.peers == disk.peers)
  {
    MergedParts(d, disk);
    MergesWell(d, disk);
  }

  /** No key of the server's list that is about to be written is unset. */
  ghost predicate NoZeroKey(d: Core, disk: FileConfig) {
    UsesServer(d.cfg) && UsesServer(disk) ==> forall p :: p in Added(d, disk) ==> p.publicKey != ZERO_KEY
  }

  lemma AddedIsAcceptable(d: Core, disk: FileConfig, p: Peer)
    requires BookOk(d.book) && SyncedFromServer(d.book) && p in Added(d, disk)
    ensures AcceptablePeer(p) <==> p.publicKey != ZERO_KEY
  {
    var k :| k in d.book.syncedPeers && d.book.syncedPeers[k] == p;
    assert ServerEntry(p);
  }

  lemma ManualIsAcceptable(disk: FileConfig, p: Peer)
    requires AcceptablePeers(disk.peers) && p in Manual(disk.peers)
    ensures AcceptablePeer(p)
  {
    var j :| 0 <= j < |disk.peers| && disk.peers[j] == p;
  }

  lemma ConcatAcceptable(a: seq<Peer>, b: seq<Peer>)
    requires DistinctKeys(a + b)
    requires forall p :: p in a ==> AcceptablePeer(p)
    requires forall p :: p in b ==> (AcceptablePeer(p) <==> p.publicKey != ZERO_KEY)
    ensures AcceptablePeers(a + b) <==> forall p :: p in b ==> p.publicKey != ZERO_KEY
  {
    var c := a + b;
    if AcceptablePeers(c) {
      forall i | 0 <= i < |b|
        ensures b[i].publicKey != ZERO_KEY
      {
        assert b[i] == c[|a| + i] && AcceptablePeer(c[|a| + i]);
      }
    }
    forall i | 0 <= i < |c|
      ensures c[i] in a || c[i] in b
    {
    }
  }

  lemma MergedAcceptable(d: Core, disk: FileConfig)
    requires BookOk(d.book) && SyncedFromServer(d.book) && AcceptablePeers(disk.peers)
    ensures AcceptablePeers(Merged(disk.peers, SavedPeers(d.book)))
       <==> forall p :: p in Added(d, disk) ==> p.publicKey != ZERO_KEY
  {
    MergedDistinct(d, disk);
    forall p | p in Manual(disk.peers)
      ensures AcceptablePeer(p)
    {
      ManualIsAcceptable(disk, p);
    }
    forall p | p in Added(d, disk)
      ensures AcceptablePeer(p) <==> p.publicKey != ZERO_KEY
    {
      AddedIsAcceptable(d, disk, p);
    }
    ConcatAcceptable(Manual(disk.peers), Added(d, disk));
  }

  /** Being in normal form, setting by setting. */
  lemma NormalByParts(c: FileConfig)
    ensures Normal(c) == c <==>
      && TrimSpace(c.serverURL) == c.serverURL && TrimSpace(c.joinToken) == c.joinToken
      && NormalPort(c.listenPort) == c.listenPort && NormalPeers(c.peers) == c.peers
  {
  }

  lemma WrittenSettings(d: Core, disk: FileConfig, host: Option<string>)
    requires AcceptableSettings(disk, host) && TrimSpace(disk.serverURL) == disk.serverURL
    ensures AcceptableSettings(ToWrite(d, disk), host)
  {
    var out := ToWrite(d, disk);
    assert MachineName(out, host) == MachineName(disk, host);
  }

  lemma WrittenIsNormal(d: Core, disk: FileConfig)
    requires SyncedFromServer(d.book) && Normal(disk) == disk
    ensures Normal(ToWrite(d, disk)) == ToWrite(d, disk)
  {
    NormalByParts(disk);
    NormalByParts(ToWrite(d, disk));
    MergedNormal(d, disk);
  }

  lemma WrittenPeersAcceptable(d: Core, disk: FileConfig)
    requires BookOk(d.book) && SyncedFromServer(d.book) && AcceptablePeers(disk.peers)
    ensures AcceptablePeers(ToWrite(d, disk).peers) <==> NoZeroKey(d, disk)
  {
    MergedAcceptable(d, disk);
  }

  /** The file that saveFile writes is read back as it was written, unless it
      contains a peer with an unset key: peerFromServer lets one through, and
      Validate does not. */
  lemma WrittenIsReadBack(d: Core, disk: FileConfig, host: Option<string>)
    requires BookOk(d.book) && SyncedFromServer(d.book) && InUse(disk, host)
    ensures var out := ToWrite(d, disk);
      && Normal(out) == out
      && (Parse(Marshal(out), host).Ok? <==> NoZeroKey(d, disk))
      && (Parse(Marshal(out), host).Ok? ==> Parse(Marshal(out), host) == Ok(out))
  {
    NormalByParts(disk);
    WrittenSettings(d, disk, host);
    WrittenIsNormal(d, disk);
    WrittenPeersAcceptable(d, disk);
    ReadBack(ToWrite(d, disk), host);
  }

  lemma ReadBack(out: FileConfig, host: Option<string>)
    requires Normal(out) == out && AcceptableSettings(out, host)
    ensures Parse(Marshal(out), host).Ok? <==> AcceptablePeers(out.peers)
    ensures Parse(Marshal(out), host).Ok? ==> Parse(Marshal(out), host) == Ok(out)
  {
    ValidateExact(out, host);
  }
}
