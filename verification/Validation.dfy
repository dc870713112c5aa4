/** Validate as it runs: settings first, then peer after peer, normalising as it
    goes and stopping at the first fault. */
module Validation {
  import opened Wrappers
  import opened Text
  import opened Keys
  import opened Netip
  import opened PeerBook
  import opened ConfigFile

  /** Masks the prefixes of the i-th peer, unless one of them is not valid. */
  method MaskPrefixes(prefixes: seq<Prefix>, i: nat) returns (r: Result<seq<Prefix>, ConfigError>)
    ensures r == match FirstInvalid(prefixes, 0)
      case None => Ok(MaskAll(prefixes))
      case Some(j) => Err(BadAllowedIP(i, j))
  {
    var masked := prefixes;
    for j := 0 to |prefixes|
      invariant |masked| == |prefixes|
      invariant forall n :: 0 <= n < j ==> masked[n] == Masked(prefixes[n])
      invariant forall n :: j <= n < |prefixes| ==> masked[n] == prefixes[n]
      invariant FirstInvalid(prefixes, 0) == FirstInvalid(prefixes, j)
    {
      if masked[j].NoPrefix? {
        return Err(BadAllowedIP(i, j));
      }
      masked := masked[j := Masked(masked[j])];
    }
    assert masked == MaskAll(prefixes);
    return Ok(masked);
  }

  /** The index under which a key was seen is where it is listed first. */
  lemma {:induction false} SeenIsFirst(peers: seq<Peer>, k: Key, n: nat, i: nat)
    requires n < i <= |peers| && peers[n].publicKey == k
    requires forall a, b :: 0 <= a < b < i ==> peers[a].publicKey != peers[b].publicKey
    ensures FirstListed(peers, k, i) == Some(n)
  {
  }

  /** `seen` has the keys of the first i peers, which are distinct. */
  ghost predicate Seen(seen: map<Key, nat>, peers: seq<Peer>, i: nat)
    requires i <= |peers|
  {
    && (forall k :: k in seen ==> seen[k] < i && peers[seen[k]].publicKey == k)
    && (forall n :: 0 <= n < i ==> peers[n].publicKey in seen)
    && (forall a, b :: 0 <= a < b < i ==> peers[a].publicKey != peers[b].publicKey)
  }

  /** Checks and normalises the i-th peer. */
  method ValidatePeer(given: seq<Peer>, i: nat, seen: map<Key, nat>) returns (r: Result<Peer, ConfigError>)
    requires i < |given| && Seen(seen, given, i)
    ensures r == match PeerFault(given, i)
      case None => Ok(NormalPeer(given[i]))
      case Some(e) => Err(e)
    ensures r.Ok? ==> given[i].publicKey !in seen
  {
    var p := given[i];
    if p.source == Unset {
      p := p.(source := Static);
    }
    if !KnownSource(p.source) {
      return Err(BadSource(i));
    }
    if p.publicKey == ZERO_KEY {
      return Err(NoPublicKey(i));
    }
    if p.publicKey in seen {
      SeenIsFirst(given, p.publicKey, seen[p.publicKey], i);
      return Err(ListedBefore(i, seen[p.publicKey]));
    }
    assert FirstListed(given, p.publicKey, i) == None;
    if p.source == Blocked {
      return Ok(p);
    }
    if p.allowedIPs == [] {
      return Err(NoAllowedIPs(i));
    }
    var masked := MaskPrefixes(p.allowedIPs, i);
    if masked.Err? {
      return Err(masked.error);
    }
    return Ok(p.(allowedIPs := masked.value));
  }

  method ValidatePeers(given: seq<Peer>) returns (r: Result<seq<Peer>, ConfigError>)
    ensures r == match FirstFault(given, 0)
      case None => Ok(NormalPeers(given))
      case Some(e) => Err(e)
    ensures r.Ok? ==> |r.value| == |given| && forall i :: 0 <= i < |given| ==> Normalised(given[i], r.value[i])
  {
    var peers := given;
    var seen: map<Key, nat> := map[];
    for i := 0 to |given|
      invariant |peers| == |given|
      invariant forall n :: 0 <= n < i ==> peers[n] == NormalPeer(given[n])
      invariant FirstFault(given, 0) == FirstFault(given, i)
      invariant Seen(seen, given, i)
    {
      var p := ValidatePeer(given, i, seen);
      if p.Err? {
        return Err(p.error);
      }
      seen := seen[given[i].publicKey := i];
      peers := peers[i := p.value];
    }
    assert peers == NormalPeers(given);
    FaultlessNormalise(given);
    return Ok(peers);
  }

  method Validate(c: FileConfig, host: Option<string>) returns (r: Result<FileConfig, ConfigError>)
    ensures r == Validated(c, host)
  {
    var n := c.(serverURL := TrimSpace(c.serverURL), joinToken := TrimSpace(c.joinToken));
    if n.listenPort == 0 {
      n := n.(listenPort := DEFAULT_LISTEN_PORT);
    }
    if n.listenPort < 1 || n.listenPort > 65535 {
      return Err(BadListenPort);
    }
    if !ValidName(MachineName(n, host)) {
      return Err(BadName);
    }
    if n.keepalive < 0 || n.keepalive > 65535 {
      return Err(BadKeepalive);
    }
    if !UsesServer(n) && n.address.NoPrefix? {
      return Err(NoAddress);
    }
    var peers := ValidatePeers(n.peers);
    if peers.Err? {
      return Err(peers.error);
    }
    return Ok(n.(peers := peers.value));
  }

  /** parseConfig, the decoding of the text aside. */
  method ParseConfig(data: FileData, host: Option<string>) returns (r: Result<FileConfig, ConfigError>)
    ensures r == Parse(data, host)
  {
    if data.Garbage? {
      return Err(NotJson);
    }
    r := Validate(data.config, host);
  }
}
