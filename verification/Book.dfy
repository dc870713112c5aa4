/** The peer book as meshd holds it: an object whose maps are replaced and
    edited in place. */
module Book {
  import opened Sequences
  import opened Ordering
  import opened Keys
  import opened PeerBook

  // List and map helpers

  method Filter(list: seq<Peer>, s: Source) returns (out: seq<Peer>)
    ensures out == Only(list, s)
  {
    out := [];
    for i := 0 to |list|
      invariant out == Only(list[..i], s)
    {
      NextPrefix(list, i);
      FrontOfSnoc(list[..i], list[i]);
      if list[i].source == s {
        out := out + [list[i]];
      }
    }
    assert list[..|list|] == list;
  }

  method Index(list: seq<Peer>) returns (m: PeerMap)
    ensures m == ByKey(list)
  {
    m := map[];
    for i := 0 to |list|
      invariant m == ByKey(list[..i])
    {
      NextPrefix(list, i);
      FrontOfSnoc(list[..i], list[i]);
      m := m[list[i].publicKey := list[i]];
    }
    assert list[..|list|] == list;
  }

  lemma SubsetOfSameSize(a: set<Key>, b: set<Key>)
    requires a <= b && |a| == |b|
    ensures a == b
  {
    if a != b {
      var x :| x in b && x !in a;
      assert a <= b - {x};
      SubsetIsSmaller(a, b - {x});
    }
  }

  lemma {:induction false} SubsetIsSmaller(a: set<Key>, b: set<Key>)
    requires a <= b
    ensures |a| <= |b|
  {
    if a != {} {
      var x :| x in a;
      SubsetIsSmaller(a - {x}, b - {x});
    }
  }

  /** Compares sizes first, then entry by entry of a. */
  method HoldSamePeers(a: PeerMap, b: PeerMap) returns (r: bool)
    ensures r == SameMaps(a, b)
  {
    assert |a| == |a.Keys| && |b| == |b.Keys|;
    if |a| != |b| {
      return false;
    }
    var rest := a.Keys;
    while rest != {}
      invariant rest <= a.Keys
      invariant forall k :: k in a.Keys - rest ==> k in b && Same(a[k], b[k])
      decreases |rest|
    {
      var k :| k in rest;
      rest := rest - {k};
      if k !in b || !Same(a[k], b[k]) {
        return false;
      }
    }
    assert a.Keys - rest == a.Keys;
    SubsetOfSameSize(a.Keys, b.Keys);
    return true;
  }

  /** The index of a least key in list[from..]. */
  method LeastFrom(list: array<Peer>, from: nat) returns (m: nat)
    requires from < list.Length
    ensures from <= m < list.Length
    ensures forall j :: from <= j < list.Length ==> list[m].publicKey <= list[j].publicKey
  {
    m := from;
    for i := from to list.Length
      invariant from <= m < list.Length
      invariant forall j :: from <= j < i ==> list[m].publicKey <= list[j].publicKey
    {
      if list[i].publicKey < list[m].publicKey {
        m := i;
      }
    }
  }

  method Swap(list: array<Peer>, i: nat, j: nat)
    requires i <= j < list.Length
    modifies list
    ensures list[i] == old(list[j]) && list[j] == old(list[i])
    ensures forall m :: 0 <= m < list.Length && m != i && m != j ==> list[m] == old(list[m])
    ensures multiset(list[..]) == old(multiset(list[..]))
  {
    list[i], list[j] := list[j], list[i];
  }

  /** Sorts in place by key. The library's sort is not modelled, only what it
      promises; the order of keys is that of their bytes. */
  method SortByKey(list: array<Peer>)
    modifies list
    ensures multiset(list[..]) == old(multiset(list[..]))
    ensures forall i, j :: 0 <= i < j < list.Length ==> list[i].publicKey <= list[j].publicKey
  {
    for n := 0 to list.Length
      invariant multiset(list[..]) == old(multiset(list[..]))
      invariant forall i, j :: 0 <= i < n && i < j < list.Length ==> list[i].publicKey <= list[j].publicKey
    {
      var m := LeastFrom(list, n);
      Swap(list, n, m);
    }
  }

  lemma SortedListIs(sorted: seq<Peer>, out: seq<Peer>, m: PeerMap)
    requires OwnKeys(m) && DistinctKeys(out) && (forall p :: p in out <==> p in m.Values)
    requires multiset(sorted) == multiset(out)
    requires forall i, j :: 0 <= i < j < |sorted| ==> sorted[i].publicKey <= sorted[j].publicKey
    ensures sorted == SortedPeers(m)
  {
    forall p
      ensures p in sorted <==> p in m.Values
    {
      assert p in sorted <==> p in multiset(sorted);
      assert p in out <==> p in multiset(out);
    }
    forall i, j | 0 <= i < j < |sorted|
      ensures LexLess(PeerRank(sorted[i]), PeerRank(sorted[j]))
    {
      StillDistinct(sorted, out, i, j);
      KeyOrder(sorted[i].publicKey, sorted[j].publicKey);
    }
    SortedUnique(sorted, SortedPeers(m), PeerRank);
  }

  /** A rearrangement of a list with distinct keys has distinct keys. */
  lemma StillDistinct(sorted: seq<Peer>, out: seq<Peer>, i: nat, j: nat)
    requires DistinctKeys(out) && multiset(sorted) == multiset(out) && i < j < |sorted|
    ensures sorted[i].publicKey != sorted[j].publicKey
  {
    var p, q := sorted[i], sorted[j];
    if p.publicKey == q.publicKey {
      assert p in multiset(out) && q in multiset(out);
      var a :| 0 <= a < |out| && out[a] == p;
      var b :| 0 <= b < |out| && out[b] == q;
      assert a == b;
      TwiceIn(sorted, i, j);
      OnceIn(out, a);
    }
  }

  lemma TwiceIn(s: seq<Peer>, i: nat, j: nat)
    requires i < j < |s| && s[i] == s[j]
    ensures multiset(s)[s[i]] >= 2
  {
    assert s == s[..j] + ([s[j]] + s[j + 1..]);
    assert multiset(s) == multiset(s[..j]) + (multiset{s[j]} + multiset(s[j + 1..]));
    assert s[..j][i] == s[i];
  }

  lemma OnceIn(s: seq<Peer>, i: nat)
    requires i < |s| && DistinctKeys(s)
    ensures multiset(s)[s[i]] == 1
  {
    assert s == s[..i] + ([s[i]] + s[i + 1..]);
    assert multiset(s) == multiset(s[..i]) + (multiset{s[i]} + multiset(s[i + 1..]));
    assert s[i] !in s[..i] && s[i] !in s[i + 1..];
  }

  /** Appends the entries of m, in whatever order the map is walked. */
  method AppendAll(out: seq<Peer>, m: PeerMap) returns (r: seq<Peer>)
    requires OwnKeys(m) && DistinctKeys(out)
    requires forall p :: p in out ==> p.publicKey !in m
    ensures DistinctKeys(r)
    ensures forall p :: p in r <==> p in out || p in m.Values
  {
    r := out;
    var rest := m.Keys;
    while rest != {}
      invariant rest <= m.Keys
      invariant DistinctKeys(r)
      invariant forall p :: p in r <==> p in out || (p in m.Values && p.publicKey !in rest)
      decreases |rest|
    {
      var k :| k in rest;
      forall p | p in r
        ensures p.publicKey != k
      {
      }
      AppendDistinct(r, m[k]);
      assert forall p :: p in m.Values && p.publicKey == k ==> p == m[k];
      rest := rest - {k};
      r := r + [m[k]];
    }
  }

  lemma AppendDistinct(r: seq<Peer>, p: Peer)
    requires DistinctKeys(r) && forall q :: q in r ==> q.publicKey != p.publicKey
    ensures DistinctKeys(r + [p])
  {
    forall i | 0 <= i < |r|
      ensures r[i].publicKey != p.publicKey
    {
      assert r[i] in r;
    }
  }

  class Book {
    var staticPeers: PeerMap
    var blockedPeers: PeerMap
    var syncedPeers: PeerMap
    var dirty: bool

    ghost function State(): BookState
      reads this
    {
      BookState(staticPeers, blockedPeers, syncedPeers, dirty)
    }

    constructor ()
      ensures State() == EMPTY_BOOK
    {
      staticPeers, blockedPeers, syncedPeers, dirty := map[], map[], map[], false;
    }

    method LoadFromConfig(list: seq<Peer>, useServer: bool)
      modifies this
      ensures State() == Loaded(old(State()), list, useServer)
    {
      var l := Filter(list, Static);
      staticPeers := Index(l);
      l := Filter(list, Blocked);
      blockedPeers := Index(l);
      syncedPeers := map[];
      if useServer {
        l := Filter(list, Synced);
        syncedPeers := Index(l);
      }
    }

    method SetFromServer(list: seq<Peer>)
      modifies this
      ensures State() == WithServerList(old(State()), list)
    {
      var next: PeerMap := map[];
      for i := 0 to |list|
        invariant State() == old(State())
        invariant next == Wanted(old(State()), list[..i])
      {
        NextPrefix(list, i);
        FrontOfSnoc(list[..i], list[i]);
        var p := list[i];
        if p.publicKey in staticPeers || p.publicKey in blockedPeers {
          continue;
        }
        next := next[p.publicKey := p.(source := Synced)];
      }
      assert list[..|list|] == list;
      var same := HoldSamePeers(syncedPeers, next);
      if !same {
        dirty := true;
      }
      syncedPeers := next;
    }

    /** Deletes the synced peers that have become static or blocked. */
    method DropManual(s: PeerMap, t: PeerMap)
      modifies this`syncedPeers
      ensures syncedPeers == Outside(old(syncedPeers), s, t)
    {
      var rest := syncedPeers.Keys;
      ghost var all := syncedPeers;
      while rest != {}
        invariant rest <= all.Keys
        invariant forall k :: k in syncedPeers <==> k in all && (k in rest || (k !in s && k !in t))
        invariant forall k :: k in syncedPeers ==> syncedPeers[k] == all[k]
        decreases |rest|
      {
        var k :| k in rest;
        rest := rest - {k};
        if k in s || k in t {
          syncedPeers := syncedPeers - {k};
        }
      }
    }

    method UpdateManualPeers(list: seq<Peer>, useServer: bool) returns (changed: bool)
      modifies this
      ensures State() == WithManualEdits(old(State()), list, useServer)
      ensures changed == ManualChanged(old(State()), list)
    {
      var l := Filter(list, Static);
      var s := Index(l);
      l := Filter(list, Blocked);
      var t := Index(l);
      var sameStatic := HoldSamePeers(staticPeers, s);
      var sameBlocked := HoldSamePeers(blockedPeers, t);
      changed := !sameStatic || !sameBlocked;
      assert changed == ManualChanged(old(State()), list);
      staticPeers, blockedPeers := s, t;
      DropManual(s, t);
      if useServer {
        l := Filter(list, Synced);
        var fromFile := Index(l);
        var same := HoldSamePeers(fromFile, syncedPeers);
        dirty := dirty || !same;
      }
      assert State() == WithManualEdits(old(State()), list, useServer);
    }

    method Peers() returns (r: seq<Peer>)
      requires BookOk(State())
      ensures r == TunnelPeers(State())
    {
      var out := AppendAll([], staticPeers);
      out := AppendAll(out, syncedPeers);
      var a := new Peer[|out|](i requires 0 <= i < |out| => out[i]);
      assert a[..] == out;
      SortByKey(a);
      r := a[..];
      ghost var all := staticPeers + syncedPeers;
      forall p
        ensures p in out <==> p in all.Values
      {
        if p in all.Values {
          var k :| k in all && all[k] == p;
        }
        if p in staticPeers.Values || p in syncedPeers.Values {
          assert p.publicKey in all && all[p.publicKey] == p;
        }
      }
      SortedListIs(r, out, all);
    }

    method ServerPeers() returns (r: seq<Peer>)
      requires BookOk(State())
      ensures r == SavedPeers(State())
    {
      var out := AppendAll([], syncedPeers);
      var a := new Peer[|out|](i requires 0 <= i < |out| => out[i]);
      assert a[..] == out;
      SortByKey(a);
      r := a[..];
      SortedListIs(r, out, syncedPeers);
    }

    method MarkSaved()
      modifies this`dirty
      ensures !dirty
    {
      dirty := false;
    }
  }
}
