/** meshd.json: its settings and peers, what makes it valid, and the form that
    Validate brings it into. */
module ConfigFile {
  import opened Wrappers
  import opened Text
  import opened Keys
  import opened Netip
  import opened PeerBook

  const DEFAULT_LISTEN_PORT := 51820
  const DEFAULT_KEEPALIVE := 25

  datatype FileConfig = FileConfig(
    serverURL: string, joinToken: string, tokenFile: string, name: string,
    listenPort: int, keepalive: int, mtu: int,
    privateKey: Key, address: Prefix, peers: seq<Peer>)

  datatype ConfigError =
    | NotJson
    | BadListenPort
    | BadName
    | BadKeepalive
    | NoAddress
    | BadSource(i: nat)
    | NoPublicKey(i: nat)
    | ListedBefore(i: nat, first: nat)
    | NoAllowedIPs(i: nat)
    | BadAllowedIP(i: nat, j: nat)

  predicate UsesServer(c: FileConfig) { c.serverURL != [] }

  /** The name of this machine; host is what the system says, if anything. */
  function MachineName(c: FileConfig, host: Option<string>): string {
    if TrimSpace(c.name) != [] then TrimSpace(c.name)
    else if host.Some? && TrimSpace(host.value) != [] then TrimSpace(host.value)
    else "unnamed-machine"
  }

  function Utf8Length(s: string): nat {
    if s == [] then 0
    else
      var n := s[|s| - 1] as int;
      Utf8Length(s[..|s| - 1]) + if n < 0x80 then 1 else if n < 0x800 then 2 else if n < 0x1_0000 then 3 else 4
  }

  /** Where s has characters from n on. */
  function From(s: string, n: int): set<int> {
    set i | 0 <= i < |s| && s[i] as int >= n
  }

  lemma FromLast(s: string, n: int)
    requires s != []
    ensures |From(s, n)| == |From(s[..|s| - 1], n)| + if s[|s| - 1] as int >= n then 1 else 0
  {
    var front, last := s[..|s| - 1], |s| - 1;
    assert From(s, n) == if s[last] as int >= n then From(front, n) + {last} else From(front, n);
  }

  /** A character takes one byte, and another one from each of 0x80, 0x800 and
      0x10000 on. */
  lemma {:induction false} Utf8LengthExact(s: string)
    ensures Utf8Length(s) == |s| + |From(s, 0x80)| + |From(s, 0x800)| + |From(s, 0x1_0000)|
  {
    if s == [] {
      assert From(s, 0x80) == From(s, 0x800) == From(s, 0x1_0000) == {};
    } else {
      Utf8LengthExact(s[..|s| - 1]);
      FromLast(s, 0x80);
      FromLast(s, 0x800);
      FromLast(s, 0x1_0000);
    }
  }

  /** At most 64 bytes, none of them a control character. */
  predicate ValidName(s: string) {
    Utf8Length(s) <= 64 && forall i :: 0 <= i < |s| ==> s[i] as int >= 32 && s[i] as int != 127
  }

  // The normal form

  function NormalPort(n: int): int { if n == 0 then DEFAULT_LISTEN_PORT else n }

  function MaskAll(prefixes: seq<Prefix>): (r: seq<Prefix>)
    ensures |r| == |prefixes| && forall i :: 0 <= i < |r| ==> r[i] == Masked(prefixes[i])
  {
    if prefixes == [] then []
    else MaskAll(prefixes[..|prefixes| - 1]) + [Masked(prefixes[|prefixes| - 1])]
  }

  function NormalPeer(p: Peer): Peer {
    var source := if p.source == Unset then Static else p.source;
    if source == Blocked then p else p.(source := source, allowedIPs := MaskAll(p.allowedIPs))
  }

  function NormalPeers(peers: seq<Peer>): (r: seq<Peer>)
    ensures |r| == |peers| && forall i :: 0 <= i < |r| ==> r[i] == NormalPeer(peers[i])
  {
    if peers == [] then []
    else NormalPeers(peers[..|peers| - 1]) + [NormalPeer(peers[|peers| - 1])]
  }

  function Normal(c: FileConfig): FileConfig {
    c.(serverURL := TrimSpace(c.serverURL), joinToken := TrimSpace(c.joinToken),
       listenPort := NormalPort(c.listenPort), peers := NormalPeers(c.peers))
  }

  // What is valid

  predicate KnownSource(s: Source) {
    s == Static || s == Synced || s == Blocked
  }

  predicate AllValid(prefixes: seq<Prefix>) {
    forall j :: 0 <= j < |prefixes| ==> prefixes[j].Prefix?
  }

  predicate AcceptablePeer(p: Peer) {
    && (p.source == Unset || KnownSource(p.source))
    && p.publicKey != ZERO_KEY
    && (p.source != Blocked ==> p.allowedIPs != [] && AllValid(p.allowedIPs))
  }

  ghost predicate AcceptablePeers(peers: seq<Peer>) {
    DistinctKeys(peers) && forall i :: 0 <= i < |peers| ==> AcceptablePeer(peers[i])
  }

  predicate AcceptableSettings(c: FileConfig, host: Option<string>) {
    && 1 <= NormalPort(c.listenPort) <= 65535
    && ValidName(MachineName(c, host))
    && 0 <= c.keepalive <= 65535
    && (TrimSpace(c.serverURL) == [] ==> c.address.Prefix?)
  }

  /** The configurations that meshd uses. */
  ghost predicate Acceptable(c: FileConfig, host: Option<string>) {
    AcceptableSettings(c, host) && AcceptablePeers(c.peers)
  }

  // Validate, step by step

  function FirstInvalid(prefixes: seq<Prefix>, j: nat): Option<nat>
    requires j <= |prefixes|
    decreases |prefixes| - j
  {
    if j == |prefixes| then None
    else if prefixes[j].NoPrefix? then Some(j)
    else FirstInvalid(prefixes, j + 1)
  }

  /** Where among the first n peers k is listed first. */
  function FirstListed(peers: seq<Peer>, k: Key, n: nat): (r: Option<nat>)
    requires n <= |peers|
    ensures r.Some? ==> r.value < n && peers[r.value].publicKey == k
    ensures r.None? ==> forall i :: 0 <= i < n ==> peers[i].publicKey != k
  {
    if n == 0 then None
    else
      var before := FirstListed(peers, k, n - 1);
      if before.Some? then before
      else if peers[n - 1].publicKey == k then Some(n - 1) else None
  }

  /** What is wrong with peers[i], given the ones before it. */
  function PeerFault(peers: seq<Peer>, i: nat): Option<ConfigError>
    requires i < |peers|
  {
    var p := peers[i];
    if p.source != Unset && !KnownSource(p.source) then Some(BadSource(i))
    else if p.publicKey == ZERO_KEY then Some(NoPublicKey(i))
    else if FirstListed(peers, p.publicKey, i).Some? then Some(ListedBefore(i, FirstListed(peers, p.publicKey, i).value))
    else if p.source == Blocked then None
    else if p.allowedIPs == [] then Some(NoAllowedIPs(i))
    else
      match FirstInvalid(p.allowedIPs, 0)
      case None => None
      case Some(j) => Some(BadAllowedIP(i, j))
  }

  /** The first fault from peers[i] on. */
  function FirstFault(peers: seq<Peer>, i: nat): Option<ConfigError>
    requires i <= |peers|
    decreases |peers| - i
  {
    if i == |peers| then None
    else if PeerFault(peers, i).Some? then PeerFault(peers, i)
    else FirstFault(peers, i + 1)
  }

  function SettingsFault(c: FileConfig, host: Option<string>): Option<ConfigError> {
    if !(1 <= NormalPort(c.listenPort) <= 65535) then Some(BadListenPort)
    else if !ValidName(MachineName(c, host)) then Some(BadName)
    else if !(0 <= c.keepalive <= 65535) then Some(BadKeepalive)
    else if TrimSpace(c.serverURL) == [] && c.address.NoPrefix? then Some(NoAddress)
    else None
  }

  function Validated(c: FileConfig, host: Option<string>): Result<FileConfig, ConfigError> {
    if SettingsFault(c, host).Some? then Err(SettingsFault(c, host).value)
    else if FirstFault(c.peers, 0).Some? then Err(FirstFault(c.peers, 0).value)
    else Ok(Normal(c))
  }

  // What Validate amounts to

  lemma {:induction false} FirstInvalidExact(prefixes: seq<Prefix>, j: nat)
    requires j <= |prefixes|
    ensures FirstInvalid(prefixes, j).None? <==> forall i :: j <= i < |prefixes| ==> prefixes[i].Prefix?
    decreases |prefixes| - j
  {
    if j < |prefixes| {
      FirstInvalidExact(prefixes, j + 1);
    }
  }

  lemma PeerFaultExact(peers: seq<Peer>, i: nat)
    requires i < |peers|
    ensures PeerFault(peers, i).None? <==>
      AcceptablePeer(peers[i]) && forall j :: 0 <= j < i ==> peers[j].publicKey != peers[i].publicKey
  {
    FirstInvalidExact(peers[i].allowedIPs, 0);
  }

  lemma {:induction false} FirstFaultExact(peers: seq<Peer>, i: nat)
    requires i <= |peers|
    ensures FirstFault(peers, i).None? <==> forall n :: i <= n < |peers| ==> PeerFault(peers, n).None?
    decreases |peers| - i
  {
    if i < |peers| {
      FirstFaultExact(peers, i + 1);
    }
  }

  /** Validate accepts exactly the acceptable configurations, and gives them in
      normal form. */
  lemma ValidateExact(c: FileConfig, host: Option<string>)
    ensures Validated(c, host).Ok? <==> Acceptable(c, host)
    ensures Validated(c, host).Ok? ==> Validated(c, host).value == Normal(c)
  {
    FirstFaultExact(c.peers, 0);
    forall i | 0 <= i < |c.peers|
      ensures PeerFault(c.peers, i).None? <==>
        AcceptablePeer(c.peers[i]) && forall j :: 0 <= j < i ==> c.peers[j].publicKey != c.peers[i].publicKey
    {
      PeerFaultExact(c.peers, i);
    }
  }

  // The same in the file's own terms

  predicate PortIsFine(n: int) { n == 0 || 1 <= n <= 65535 }

  predicate KeepaliveIsFine(n: int) { 0 <= n <= 65535 }

  /** The given name, else the system's, else a fixed one, without outer white
      space: at most 64 bytes, and no control character. */
  ghost predicate NameIsFine(given: string, host: Option<string>) {
    exists name :: IsName(name, given, host) && Utf8Length(name) <= 64 && NoControls(name)
  }

  ghost predicate IsName(name: string, given: string, host: Option<string>) {
    if !AllSpace(given) then IsTrimmed(given, name)
    else if host.Some? && !AllSpace(host.value) then IsTrimmed(host.value, name)
    else name == "unnamed-machine"
  }

  predicate NoControls(s: string) {
    forall i :: 0 <= i < |s| ==> s[i] as int >= 32 && s[i] as int != 127
  }

  predicate AddressIsFine(c: FileConfig) { AllSpace(c.serverURL) ==> c.address.Prefix? }

  predicate EntryIsFine(p: Peer) {
    && !p.source.Unknown? && p.publicKey != 0
    && (p.source != Blocked ==> p.allowedIPs != [] && forall a :: a in p.allowedIPs ==> a.Prefix?)
  }

  /** The settings are fine, and so are the entries before the i-th, each with a
      key of its own. */
  ghost predicate FineBefore(c: FileConfig, host: Option<string>, i: nat) {
    && PortIsFine(c.listenPort) && NameIsFine(c.name, host) && KeepaliveIsFine(c.keepalive) && AddressIsFine(c)
    && i <= |c.peers|
    && (forall j :: 0 <= j < i ==> EntryIsFine(c.peers[j]))
    && forall j, k :: 0 <= j < k < i ==> c.peers[j].publicKey != c.peers[k].publicKey
  }

  lemma NameOfMachine(c: FileConfig, host: Option<string>, name: string)
    ensures IsName(name, c.name, host) <==> name == MachineName(c, host)
  {
    TrimmedToNothing(c.name);
    TrimmedIs(c.name, name);
    if host.Some? {
      TrimmedToNothing(host.value);
      TrimmedIs(host.value, name);
    }
  }

  lemma ValidNameIs(c: FileConfig, host: Option<string>)
    ensures NameIsFine(c.name, host) <==> ValidName(MachineName(c, host))
  {
    var m := MachineName(c, host);
    NameOfMachine(c, host, m);
    forall name | IsName(name, c.name, host)
      ensures name == m
    {
      NameOfMachine(c, host, name);
    }
  }

  lemma EntryIs(p: Peer)
    ensures EntryIsFine(p) <==> AcceptablePeer(p)
  {
    assert AllValid(p.allowedIPs) <==> forall a :: a in p.allowedIPs ==> a.Prefix?;
  }

  lemma SettingsAre(c: FileConfig, host: Option<string>)
    ensures AcceptableSettings(c, host) <==>
      PortIsFine(c.listenPort) && NameIsFine(c.name, host) && KeepaliveIsFine(c.keepalive) && AddressIsFine(c)
  {
    ValidNameIs(c, host);
    TrimmedToNothing(c.serverURL);
  }

  /** Validate accepts a configuration if and only if nothing in it is at fault. */
  lemma AcceptedExact(c: FileConfig, host: Option<string>)
    ensures Validated(c, host).Ok? <==> FineBefore(c, host, |c.peers|)
  {
    ValidateExact(c, host);
    SettingsAre(c, host);
    forall i | 0 <= i < |c.peers|
      ensures EntryIsFine(c.peers[i]) <==> AcceptablePeer(c.peers[i])
    {
      EntryIs(c.peers[i]);
    }
  }

  /** What an accepted entry p becomes. */
  predicate Normalised(p: Peer, q: Peer) {
    && q.source == (if p.source == Unset then Static else p.source)
    && q.name == p.name && q.publicKey == p.publicKey && q.endpoint == p.endpoint
    && (p.source == Blocked ==> q.allowedIPs == p.allowedIPs)
    && (p.source != Blocked ==>
          && |q.allowedIPs| == |p.allowedIPs|
          && forall j :: 0 <= j < |p.allowedIPs| ==> StartsRange(q.allowedIPs[j], p.allowedIPs[j]))
  }

  /** q is p from the first address of its range on. */
  predicate StartsRange(q: Prefix, p: Prefix) {
    q.Prefix? && p.Prefix? && q.bits == p.bits && q.addr == Network(p)
  }

  lemma {:induction false} FaultlessNormalise(peers: seq<Peer>)
    requires FirstFault(peers, 0).None?
    ensures forall i :: 0 <= i < |peers| ==> Normalised(peers[i], NormalPeers(peers)[i])
  {
    FirstFaultExact(peers, 0);
    forall i | 0 <= i < |peers|
      ensures Normalised(peers[i], NormalPeers(peers)[i])
    {
      PeerFaultExact(peers, i);
    }
  }

  /** An accepted configuration loses the white space around its server URL and
      join token, gets the default port and the default source where it has
      none, and its prefixes masked; all else stays as it is. */
  lemma NormalisedExact(c: FileConfig, host: Option<string>)
    requires Validated(c, host).Ok?
    ensures var n := Validated(c, host).value;
      && IsTrimmed(c.serverURL, n.serverURL) && IsTrimmed(c.joinToken, n.joinToken)
      && n.listenPort == (if c.listenPort == 0 then 51820 else c.listenPort)
      && |n.peers| == |c.peers| && (forall i :: 0 <= i < |c.peers| ==> Normalised(c.peers[i], n.peers[i]))
      && n.(serverURL := c.serverURL, joinToken := c.joinToken, listenPort := c.listenPort, peers := c.peers) == c
  {
    TrimSpaceExact(c.serverURL);
    TrimSpaceExact(c.joinToken);
    FaultlessNormalise(c.peers);
  }

  /** e is what is wrong with c: the first fault in the order of the checks. */
  ghost predicate Explains(e: ConfigError, c: FileConfig, host: Option<string>) {
    match e
    case NotJson => false
    case BadListenPort => !PortIsFine(c.listenPort)
    case BadName => PortIsFine(c.listenPort) && !NameIsFine(c.name, host)
    case BadKeepalive => PortIsFine(c.listenPort) && NameIsFine(c.name, host) && !KeepaliveIsFine(c.keepalive)
    case NoAddress =>
      PortIsFine(c.listenPort) && NameIsFine(c.name, host) && KeepaliveIsFine(c.keepalive) && !AddressIsFine(c)
    case BadSource(i) => FirstAtFault(c, host, i) && c.peers[i].source.Unknown?
    case NoPublicKey(i) => FirstAtFault(c, host, i) && !c.peers[i].source.Unknown? && c.peers[i].publicKey == 0
    case ListedBefore(i, first) => FirstAtFault(c, host, i) && Tagged(c.peers[i]) && SameKeyAt(c.peers, first, i)
    case NoAllowedIPs(i) => FirstAtFault(c, host, i) && LacksPrefixes(c.peers, i) && c.peers[i].allowedIPs == []
    case BadAllowedIP(i, j) => FirstAtFault(c, host, i) && LacksPrefixes(c.peers, i) && FirstInvalidAt(c.peers[i].allowedIPs, j)
  }

  ghost predicate FirstAtFault(c: FileConfig, host: Option<string>, i: nat) {
    FineBefore(c, host, i) && i < |c.peers|
  }

  predicate Tagged(p: Peer) { !p.source.Unknown? && p.publicKey != 0 }

  predicate SameKeyAt(peers: seq<Peer>, first: nat, i: nat) {
    first < i < |peers| && peers[first].publicKey == peers[i].publicKey
  }

  ghost predicate LacksPrefixes(peers: seq<Peer>, i: nat)
    requires i < |peers|
  {
    Tagged(peers[i]) && peers[i].source != Blocked && forall j :: 0 <= j < i ==> peers[j].publicKey != peers[i].publicKey
  }

  predicate FirstInvalidAt(prefixes: seq<Prefix>, j: nat) {
    j < |prefixes| && prefixes[j].NoPrefix? && forall n :: 0 <= n < j ==> prefixes[n].Prefix?
  }

  lemma {:induction false} FirstInvalidIs(prefixes: seq<Prefix>, j: nat, n: nat)
    requires j <= |prefixes| && FirstInvalid(prefixes, j) == Some(n)
    ensures j <= n < |prefixes| && prefixes[n].NoPrefix? && forall i :: j <= i < n ==> prefixes[i].Prefix?
    decreases |prefixes| - j
  {
    if prefixes[j].Prefix? {
      FirstInvalidIs(prefixes, j + 1, n);
    }
  }

  lemma {:induction false} FirstFaultIs(peers: seq<Peer>, i: nat) returns (n: nat)
    requires i <= |peers| && FirstFault(peers, i).Some?
    ensures i <= n < |peers| && PeerFault(peers, n) == FirstFault(peers, i)
    ensures forall j :: i <= j < n ==> PeerFault(peers, j).None?
    decreases |peers| - i
  {
    if PeerFault(peers, i).Some? {
      n := i;
    } else {
      n := FirstFaultIs(peers, i + 1);
    }
  }

  /** The entries before the n-th have no fault. */
  lemma FaultlessAreFine(c: FileConfig, host: Option<string>, n: nat)
    requires AcceptableSettings(c, host) && n <= |c.peers| && forall j :: 0 <= j < n ==> PeerFault(c.peers, j).None?
    ensures FineBefore(c, host, n)
  {
    SettingsAre(c, host);
    forall j | 0 <= j < n
      ensures EntryIsFine(c.peers[j]) && forall k :: 0 <= k < j ==> c.peers[k].publicKey != c.peers[j].publicKey
    {
      PeerFaultExact(c.peers, j);
      EntryIs(c.peers[j]);
    }
  }

  lemma PeerFaultExplains(c: FileConfig, host: Option<string>, i: nat)
    requires FineBefore(c, host, i) && i < |c.peers| && PeerFault(c.peers, i).Some?
    ensures Explains(PeerFault(c.peers, i).value, c, host)
  {
    var p := c.peers[i];
    if Tagged(p) && FirstListed(c.peers, p.publicKey, i).None? && p.source != Blocked && p.allowedIPs != [] {
      FirstInvalidIs(p.allowedIPs, 0, FirstInvalid(p.allowedIPs, 0).value);
    }
  }

  lemma ErrorExplains(c: FileConfig, host: Option<string>)
    requires Validated(c, host).Err?
    ensures Explains(Validated(c, host).error, c, host)
  {
    ValidNameIs(c, host);
    TrimmedToNothing(c.serverURL);
    if SettingsFault(c, host).None? {
      var n := FirstFaultIs(c.peers, 0);
      FaultlessAreFine(c, host, n);
      PeerFaultExplains(c, host, n);
    }
  }

  /** The entry that is at fault, if one is. */
  function EntryOf(e: ConfigError): Option<nat> {
    match e
    case BadSource(i) => Some(i)
    case NoPublicKey(i) => Some(i)
    case ListedBefore(i, _) => Some(i)
    case NoAllowedIPs(i) => Some(i)
    case BadAllowedIP(i, _) => Some(i)
    case _ => None
  }

  lemma FineBeforeFewer(c: FileConfig, host: Option<string>, n: nat, m: nat)
    ensures FineBefore(c, host, n) && m <= n ==> FineBefore(c, host, m)
  {
  }

  lemma ExplainedEntry(c: FileConfig, host: Option<string>, e: ConfigError)
    requires Explains(e, c, host) && EntryOf(e).Some?
    ensures var i := EntryOf(e).value; FineBefore(c, host, i) && i < |c.peers| && !FineBefore(c, host, i + 1)
  {
    var i := EntryOf(e).value;
    if e.BadAllowedIP? {
      assert c.peers[i].allowedIPs[e.j] in c.peers[i].allowedIPs;
    }
    assert FineBefore(c, host, i + 1) ==> EntryIsFine(c.peers[i]);
  }

  lemma ExplainedIsAtFault(c: FileConfig, host: Option<string>, e: ConfigError)
    requires Explains(e, c, host)
    ensures !FineBefore(c, host, |c.peers|)
  {
    if EntryOf(e).Some? {
      ExplainedEntry(c, host, e);
      FineBeforeFewer(c, host, |c.peers|, EntryOf(e).value + 1);
    }
  }

  lemma OneEntryAtFault(c: FileConfig, host: Option<string>, e: ConfigError, f: ConfigError)
    requires Explains(e, c, host) && Explains(f, c, host)
    ensures EntryOf(e) == EntryOf(f)
  {
    if EntryOf(e).Some? && EntryOf(f).Some? {
      var i, j := EntryOf(e).value, EntryOf(f).value;
      ExplainedEntry(c, host, e);
      ExplainedEntry(c, host, f);
      FineBeforeFewer(c, host, j, i + 1);
      FineBeforeFewer(c, host, i, j + 1);
    }
  }

  lemma OneExplanation(c: FileConfig, host: Option<string>, e: ConfigError, f: ConfigError)
    requires Explains(e, c, host) && Explains(f, c, host)
    ensures e == f
  {
    OneEntryAtFault(c, host, e, f);
  }

  /** A configuration is rejected for its first fault, and for no other. */
  lemma FaultExact(c: FileConfig, host: Option<string>, e: ConfigError)
    ensures Validated(c, host) == Err(e) <==> Explains(e, c, host)
  {
    AcceptedExact(c, host);
    if Validated(c, host).Err? {
      ErrorExplains(c, host);
    }
    if Explains(e, c, host) {
      ExplainedIsAtFault(c, host, e);
      OneExplanation(c, host, e, Validated(c, host).error);
    }
  }

  lemma {:induction false} MaskAllIdempotent(prefixes: seq<Prefix>)
    ensures MaskAll(MaskAll(prefixes)) == MaskAll(prefixes)
  {
    forall i | 0 <= i < |prefixes|
      ensures MaskAll(MaskAll(prefixes))[i] == MaskAll(prefixes)[i]
    {
      MaskedIdempotent(prefixes[i]);
    }
  }

  lemma NormalPeerKeepsAcceptable(p: Peer)
    requires AcceptablePeer(p)
    ensures AcceptablePeer(NormalPeer(p)) && KnownSource(NormalPeer(p).source)
    ensures NormalPeer(NormalPeer(p)) == NormalPeer(p)
  {
    MaskAllIdempotent(p.allowedIPs);
    var m := MaskAll(p.allowedIPs);
    assert forall j :: 0 <= j < |m| ==> m[j] == Masked(p.allowedIPs[j]);
  }

  lemma {:induction false} NormalPeersKeepAcceptable(peers: seq<Peer>)
    requires AcceptablePeers(peers)
    ensures AcceptablePeers(NormalPeers(peers))
    ensures NormalPeers(NormalPeers(peers)) == NormalPeers(peers)
    ensures forall p :: p in NormalPeers(peers) ==> KnownSource(p.source)
  {
    var r := NormalPeers(peers);
    forall i | 0 <= i < |peers|
      ensures AcceptablePeer(r[i]) && KnownSource(r[i].source)
      ensures NormalPeers(r)[i] == r[i]
    {
      NormalPeerKeepsAcceptable(peers[i]);
    }
    assert forall i :: 0 <= i < |peers| ==> r[i].publicKey == peers[i].publicKey;
  }

  lemma NormalSettings(c: FileConfig, host: Option<string>)
    requires AcceptableSettings(c, host)
    ensures AcceptableSettings(Normal(c), host)
  {
    TrimSpaceIdempotent(c.serverURL);
  }

  /** What Validate has accepted it accepts again, unchanged. */
  lemma ValidateIdempotent(c: FileConfig, host: Option<string>)
    requires Validated(c, host).Ok?
    ensures Validated(Normal(c), host) == Ok(Normal(c))
  {
    ValidateExact(c, host);
    ValidateExact(Normal(c), host);
    NormalSettings(c, host);
    NormalPeersKeepAcceptable(c.peers);
    TrimSpaceIdempotent(c.serverURL);
    TrimSpaceIdempotent(c.joinToken);
  }

  // The file

  /** The bytes of meshd.json: text that cannot be decoded, or text that decodes
      to a configuration, in one of its many layouts. */
  datatype FileData = Garbage(id: nat) | Json(config: FileConfig, layout: nat)

  /** The layout that marshalConfig writes. */
  const INDENTED := 0

  function Marshal(c: FileConfig): FileData { Json(c, INDENTED) }

  function Parse(data: FileData, host: Option<string>): Result<FileConfig, ConfigError> {
    match data
    case Garbage(_) => Err(NotJson)
    case Json(c, _) => Validated(c, host)
  }

  /** A configuration that was read from a file. */
  ghost predicate InUse(c: FileConfig, host: Option<string>) {
    Acceptable(c, host) && Normal(c) == c
  }

  lemma ParsedInUse(data: FileData, host: Option<string>)
    requires Parse(data, host).Ok?
    ensures InUse(Parse(data, host).value, host)
    ensures forall p :: p in Parse(data, host).value.peers ==> KnownSource(p.source)
  {
    ValidateExact(data.config, host);
    ValidateIdempotent(data.config, host);
    ValidateExact(Normal(data.config), host);
    NormalPeersKeepAcceptable(data.config.peers);
  }

  /** Writing a configuration in use and reading it back gives it again. */
  lemma FileRoundTrip(c: FileConfig, host: Option<string>)
    requires InUse(c, host)
    ensures Parse(Marshal(c), host) == Ok(c)
  {
    ValidateExact(c, host);
  }
}
