/** The list of peers: static and blocked ones are manual, synced ones come from
    the coordination server, and each key belongs to one of them. */
module PeerBook {
  import opened Sequences
  import opened Ordering
  import opened Keys
  import opened Netip

  /** The source tag of a peer in meshd.json, as text may have it. */
  datatype Source = Unset | Static | Synced | Blocked | Unknown(tag: string)

  datatype Peer = Peer(source: Source, name: string, publicKey: Key, allowedIPs: seq<Prefix>, endpoint: AddrPort)

  type PeerMap = map<Key, Peer>

  /** The prefixes that p asks for, each from the first address of its range on. */
  function ClaimsOf(p: Peer): set<Prefix> {
    set a | a in p.allowedIPs :: Masked(a)
  }

  /** `same` does not look at the public key, which is the map key. */
  predicate Same(p: Peer, q: Peer) {
    p.source == q.source && p.name == q.name && p.endpoint == q.endpoint && p.allowedIPs == q.allowedIPs
  }

  function Only(list: seq<Peer>, s: Source): (r: seq<Peer>)
    ensures forall p :: p in r <==> p in list && p.source == s
  {
    if list == [] then []
    else
      var front, last := list[..|list| - 1], list[|list| - 1];
      FrontAndLast(list);
      if last.source == s then Only(front, s) + [last] else Only(front, s)
  }

  /** A later entry for a key replaces an earlier one. */
  function ByKey(list: seq<Peer>): (m: PeerMap)
    ensures OwnKeys(m)
    ensures forall p :: p in list ==> p.publicKey in m
    ensures forall k :: k in m ==> m[k] in list
  {
    if list == [] then map[]
    else
      FrontAndLast(list);
      ByKey(list[..|list| - 1])[list[|list| - 1].publicKey := list[|list| - 1]]
  }

  /** Each entry sits under its own public key. */
  ghost predicate OwnKeys(m: PeerMap) {
    forall k :: k in m ==> m[k].publicKey == k
  }

  ghost predicate DistinctKeys(list: seq<Peer>) {
    forall i, j :: 0 <= i < j < |list| ==> list[i].publicKey != list[j].publicKey
  }

  predicate SameMaps(a: PeerMap, b: PeerMap) {
    a.Keys == b.Keys && forall k :: k in a ==> Same(a[k], b[k])
  }

  /** For maps under own keys, holding the same peers is being equal. */
  lemma SameMapsIsEquality(a: PeerMap, b: PeerMap)
    requires OwnKeys(a) && OwnKeys(b)
    ensures SameMaps(a, b) <==> a == b
  {
    if SameMaps(a, b) {
      forall k | k in a
        ensures k in b && a[k] == b[k]
      {
      }
    }
  }

  lemma {:induction false} ByKeyOfDistinct(list: seq<Peer>, p: Peer)
    requires DistinctKeys(list) && p in list
    ensures ByKey(list)[p.publicKey] == p
  {
    var q := ByKey(list)[p.publicKey];
    var i :| 0 <= i < |list| && list[i] == p;
    var j :| 0 <= j < |list| && list[j] == q;
  }

  lemma {:induction false} OnlyKeepsDistinct(list: seq<Peer>, s: Source)
    requires DistinctKeys(list)
    ensures DistinctKeys(Only(list, s))
  {
    if list != [] {
      var front, last := list[..|list| - 1], list[|list| - 1];
      OnlyKeepsDistinct(front, s);
      var kept := Only(front, s);
      forall i | 0 <= i < |kept|
        ensures kept[i].publicKey != last.publicKey
      {
        assert kept[i] in front;
        var j :| 0 <= j < |front| && front[j] == kept[i];
        assert list[j] == kept[i];
      }
    }
  }

  // The book as a value

  datatype BookState = BookState(staticPeers: PeerMap, blockedPeers: PeerMap, syncedPeers: PeerMap, dirty: bool)

  const EMPTY_BOOK := BookState(map[], map[], map[], false)

  /** Each map is under own keys and holds its own source, and no key is in two
      of them. */
  ghost predicate BookOk(b: BookState) {
    && OwnKeys(b.staticPeers) && OwnKeys(b.blockedPeers) && OwnKeys(b.syncedPeers)
    && b.staticPeers.Keys !! b.blockedPeers.Keys
    && b.staticPeers.Keys !! b.syncedPeers.Keys
    && b.blockedPeers.Keys !! b.syncedPeers.Keys
    && (forall k :: k in b.staticPeers ==> b.staticPeers[k].source == Static)
    && (forall k :: k in b.blockedPeers ==> b.blockedPeers[k].source == Blocked)
    && (forall k :: k in b.syncedPeers ==> b.syncedPeers[k].source == Synced)
  }

  function Loaded(b: BookState, list: seq<Peer>, useServer: bool): BookState {
    BookState(ByKey(Only(list, Static)), ByKey(Only(list, Blocked)),
              if useServer then ByKey(Only(list, Synced)) else map[], b.dirty)
  }

  /** The server's list without the keys that are pinned or blocked, tagged. */
  function Wanted(b: BookState, list: seq<Peer>): (m: PeerMap)
    ensures OwnKeys(m)
    ensures forall k :: k in m ==> k !in b.staticPeers && k !in b.blockedPeers && m[k].source == Synced
    ensures forall k :: k in m ==> exists p :: p in list && m[k] == p.(source := Synced)
    ensures forall p :: p in list && p.publicKey !in b.staticPeers && p.publicKey !in b.blockedPeers ==> p.publicKey in m
  {
    if list == [] then map[]
    else
      var front, last := list[..|list| - 1], list[|list| - 1];
      FrontAndLast(list);
      if last.publicKey in b.staticPeers || last.publicKey in b.blockedPeers then Wanted(b, front)
      else Wanted(b, front)[last.publicKey := last.(source := Synced)]
  }

  function WithServerList(b: BookState, list: seq<Peer>): BookState {
    var next := Wanted(b, list);
    b.(syncedPeers := next, dirty := b.dirty || !SameMaps(b.syncedPeers, next))
  }

  /** m without the keys of s and t. */
  function Outside(m: PeerMap, s: PeerMap, t: PeerMap): PeerMap {
    m - s.Keys - t.Keys
  }

  function WithManualEdits(b: BookState, list: seq<Peer>, useServer: bool): BookState {
    var s, t := ByKey(Only(list, Static)), ByKey(Only(list, Blocked));
    var rest := Outside(b.syncedPeers, s, t);
    BookState(s, t, rest, b.dirty || (useServer && !SameMaps(ByKey(Only(list, Synced)), rest)))
  }

  function ManualChanged(b: BookState, list: seq<Peer>): bool {
    !SameMaps(b.staticPeers, ByKey(Only(list, Static))) || !SameMaps(b.blockedPeers, ByKey(Only(list, Blocked)))
  }

  function PeerRank(p: Peer): seq<int> { KeyBytes(p.publicKey) }

  lemma ValuesInjective(m: PeerMap)
    requires OwnKeys(m)
    ensures Injective(m.Values, PeerRank)
  {
    forall p, q | p in m.Values && q in m.Values && PeerRank(p) == PeerRank(q)
      ensures p == q
    {
      KeyOrder(p.publicKey, q.publicKey);
    }
  }

  /** The entries of m sorted by key. */
  ghost function SortedPeers(m: PeerMap): (r: seq<Peer>)
    ensures OwnKeys(m) ==> StrictlySorted(r, PeerRank) && forall p :: p in r <==> p in m.Values
    ensures forall p :: p in r ==> p in m.Values
  {
    if OwnKeys(m) then
      ValuesInjective(m);
      Enumerate(m.Values, PeerRank)
    else []
  }

  /** What the tunnel should have: static and synced, but not blocked. */
  ghost function TunnelPeers(b: BookState): seq<Peer> {
    SortedPeers(b.staticPeers + b.syncedPeers)
  }

  /** What is saved of the server's list. */
  ghost function SavedPeers(b: BookState): seq<Peer> {
    SortedPeers(b.syncedPeers)
  }

  lemma SortedPeersDistinct(m: PeerMap)
    requires OwnKeys(m)
    ensures DistinctKeys(SortedPeers(m))
  {
    SortedDistinct(SortedPeers(m), PeerRank);
    var r := SortedPeers(m);
    forall i, j | 0 <= i < j < |r|
      ensures r[i].publicKey != r[j].publicKey
    {
      assert PeerRank(r[i]) != PeerRank(r[j]);
    }
  }

  lemma SortedPeersByKey(m: PeerMap)
    requires OwnKeys(m)
    ensures ByKey(SortedPeers(m)) == m
  {
    var r := SortedPeers(m);
    SortedPeersDistinct(m);
    forall k | k in m
      ensures k in ByKey(r) && ByKey(r)[k] == m[k]
    {
      assert m[k] in m.Values && m[k] in r;
      ByKeyOfDistinct(r, m[k]);
    }
    forall k | k in ByKey(r)
      ensures k in m
    {
      assert ByKey(r)[k] in m.Values;
    }
  }

  // What the operations mean

  predicate ManualKey(b: BookState, k: Key) { k in b.staticPeers || k in b.blockedPeers }

  ghost predicate Lists(list: seq<Peer>, k: Key) {
    exists p :: p in list && p.publicKey == k
  }

  /** After a sync the book has the keys that the server listed and the file
      neither pins nor blocks, and has something to save exactly if that, or
      anything before it, was a change. */
  lemma ServerListExact(b: BookState, list: seq<Peer>, k: Key)
    requires OwnKeys(b.syncedPeers)
    ensures var n := WithServerList(b, list);
      && n.staticPeers == b.staticPeers && n.blockedPeers == b.blockedPeers
      && (k in n.syncedPeers <==> Lists(list, k) && !ManualKey(b, k))
      && (n.dirty <==> b.dirty || n.syncedPeers != b.syncedPeers)
  {
    var n := WithServerList(b, list);
    SameMapsIsEquality(b.syncedPeers, n.syncedPeers);
    if k in n.syncedPeers {
      var p :| p in list && n.syncedPeers[k] == p.(source := Synced);
      assert p.publicKey == k;
    }
  }

  /** Of two entries for a key, the server's later one counts. */
  lemma {:induction false} LaterEntryWins(b: BookState, before: seq<Peer>, p: Peer, rest: seq<Peer>)
    requires !ManualKey(b, p.publicKey) && !Lists(rest, p.publicKey)
    ensures p.publicKey in Wanted(b, before + [p] + rest)
    ensures Wanted(b, before + [p] + rest)[p.publicKey] == p.(source := Synced)
  {
    if rest == [] {
      WantedSnoc(b, before, p);
      assert before + [p] + rest == before + [p];
    } else {
      var front, last := rest[..|rest| - 1], rest[|rest| - 1];
      ListsOther(rest, p.publicKey);
      LaterEntryWins(b, before, p, front);
      WantedSnoc(b, before + [p] + front, last);
      SnocInside(before + [p], rest);
    }
  }

  lemma SnocInside(a: seq<Peer>, rest: seq<Peer>)
    requires rest != []
    ensures a + rest == (a + rest[..|rest| - 1]) + [rest[|rest| - 1]]
  {
  }

  lemma ListsOther(list: seq<Peer>, k: Key)
    requires list != [] && !Lists(list, k)
    ensures !Lists(list[..|list| - 1], k) && list[|list| - 1].publicKey != k
  {
    assert list[|list| - 1] in list;
    assert forall p :: p in list[..|list| - 1] ==> p in list;
  }

  lemma {:induction false} WantedSnoc(b: BookState, front: seq<Peer>, last: Peer)
    ensures ManualKey(b, last.publicKey) ==> Wanted(b, front + [last]) == Wanted(b, front)
    ensures !ManualKey(b, last.publicKey) ==>
      Wanted(b, front + [last]) == Wanted(b, front)[last.publicKey := last.(source := Synced)]
  {
    FrontOfSnoc(front, last);
  }

  /** After an edit the book has the file's static and blocked entries, no
      others, and knows whether they changed; and it has something to save if
      the file lists the server's peers differently from it. */
  lemma {:induction false} ManualEditsExact(b: BookState, list: seq<Peer>, useServer: bool, p: Peer)
    requires BookOk(b) && DistinctKeys(list)
    ensures var n := WithManualEdits(b, list, useServer);
      && (p in n.staticPeers.Values <==> p in list && p.source == Static)
      && (p in n.blockedPeers.Values <==> p in list && p.source == Blocked)
      && (p in n.syncedPeers.Values <==> p in b.syncedPeers.Values && !ManualKey(n, p.publicKey))
      && (n.dirty <==> b.dirty || (useServer && ByKey(Only(list, Synced)) != n.syncedPeers))
      && (ManualChanged(b, list) <==> n.staticPeers != b.staticPeers || n.blockedPeers != b.blockedPeers)
  {
    var n := WithManualEdits(b, list, useServer);
    ValuesOfSource(list, Static, p);
    ValuesOfSource(list, Blocked, p);
    SameMapsIsEquality(ByKey(Only(list, Synced)), n.syncedPeers);
    SameMapsIsEquality(b.staticPeers, n.staticPeers);
    SameMapsIsEquality(b.blockedPeers, n.blockedPeers);
    ValuesOutside(b.syncedPeers, n.staticPeers, n.blockedPeers, p);
  }

  lemma {:induction false} ValuesOfSource(list: seq<Peer>, s: Source, p: Peer)
    requires DistinctKeys(list)
    ensures p in ByKey(Only(list, s)).Values <==> p in list && p.source == s
  {
    OnlyKeepsDistinct(list, s);
    if p in Only(list, s) {
      ByKeyOfDistinct(Only(list, s), p);
    }
  }

  lemma ValuesOutside(m: PeerMap, s: PeerMap, t: PeerMap, p: Peer)
    requires OwnKeys(m)
    ensures p in Outside(m, s, t).Values <==> p in m.Values && p.publicKey !in s && p.publicKey !in t
  {
    if p in m.Values && p.publicKey !in s && p.publicKey !in t {
      assert m[p.publicKey] == p && p.publicKey in Outside(m, s, t);
    }
  }

  // What the operations keep

  lemma {:induction false} ManualMaps(list: seq<Peer>)
    requires DistinctKeys(list)
    ensures ByKey(Only(list, Static)).Keys !! ByKey(Only(list, Blocked)).Keys
    ensures ByKey(Only(list, Static)).Keys !! ByKey(Only(list, Synced)).Keys
    ensures ByKey(Only(list, Blocked)).Keys !! ByKey(Only(list, Synced)).Keys
  {
    forall s, t, k | s != t && k in ByKey(Only(list, s)) && k in ByKey(Only(list, t))
      ensures false
    {
      OneSourcePerKey(list, s, t, k);
    }
  }

  lemma {:induction false} OneSourcePerKey(list: seq<Peer>, s: Source, t: Source, k: Key)
    requires DistinctKeys(list) && k in ByKey(Only(list, s)) && k in ByKey(Only(list, t))
    ensures s == t
  {
    var p, q := ByKey(Only(list, s))[k], ByKey(Only(list, t))[k];
    var i :| 0 <= i < |list| && list[i] == p;
    var j :| 0 <= j < |list| && list[j] == q;
  }

  lemma LoadedOk(b: BookState, list: seq<Peer>, useServer: bool)
    requires DistinctKeys(list)
    ensures BookOk(Loaded(b, list, useServer))
  {
    ManualMaps(list);
  }

  lemma WithServerListOk(b: BookState, list: seq<Peer>)
    requires BookOk(b)
    ensures BookOk(WithServerList(b, list))
  {
  }

  lemma WithManualEditsOk(b: BookState, list: seq<Peer>, useServer: bool)
    requires BookOk(b) && DistinctKeys(list)
    ensures BookOk(WithManualEdits(b, list, useServer))
  {
    ManualMaps(list);
  }
}
