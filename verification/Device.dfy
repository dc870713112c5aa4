/** The WireGuard device as an interpreter of configuration lines, after the
    "Configuration Protocol" section of the WireGuard cross-platform document.

    A session has at most one peer selected. Selecting a key creates the peer
    if it is new, `allowed_ip` takes an identical prefix away from any other
    peer, and `remove` deletes the selected peer. As in wireguard-go, a device
    never has itself as a peer: selecting its own public key selects nothing,
    and a new private key drops the peer that has become the device itself.
    The public key of a private key is the parameter `curve`. */
module Device {
  import opened Wrappers
  import opened Keys
  import opened Netip

  datatype Command =
    | SetPrivateKey(privateKey: Key)
    | SetListenPort(listenPort: int)
    | SelectPeer(publicKey: Key)
    | SetEndpoint(endpoint: AddrPort)
    | SetKeepalive(seconds: int)
    | ReplaceAllowedIPs
    | AllowedIP(prefix: Prefix)
    | RemovePeer

  datatype PeerState = PeerState(endpoint: AddrPort, keepalive: int)

  datatype Device = Device(
    privateKey: Key,
    listenPort: int,
    peers: map<Key, PeerState>,
    owner: map<Prefix, Key>)

  datatype Session = Session(dev: Device, selected: Option<Key>)

  const FRESH_DEVICE := Device(ZERO_KEY, 0, map[], map[])

  /** Values outside their 16-bit fields and text that is no address are
      refused, and end the session. */
  predicate Accepts(c: Command) {
    match c
    case SetListenPort(n) => 0 <= n < 0x1_0000
    case SetKeepalive(n) => 0 <= n < 0x1_0000
    case SetEndpoint(e) => e.AddrPort?
    case AllowedIP(p) => p.Prefix?
    case _ => true
  }

  /** The prefixes routed to peer k. */
  function Owned(dev: Device, k: Key): set<Prefix> {
    set x | x in dev.owner && dev.owner[x] == k
  }

  function Released(owner: map<Prefix, Key>, k: Key): map<Prefix, Key> {
    map x | x in owner && owner[x] != k :: owner[x]
  }

  function Without(dev: Device, k: Key): Device {
    dev.(peers := dev.peers - {k}, owner := Released(dev.owner, k))
  }

  function Select(curve: Key -> Key, dev: Device, k: Key): Session {
    if k == curve(dev.privateKey) then Session(dev, None)
    else if k in dev.peers then Session(dev, Some(k))
    else Session(dev.(peers := dev.peers[k := PeerState(NoAddrPort, 0)]), Some(k))
  }

  function Step(curve: Key -> Key, s: Session, c: Command): Session {
    match c
    case SetPrivateKey(k) => Session(Without(s.dev, curve(k)).(privateKey := k), s.selected)
    case SetListenPort(n) => s.(dev := s.dev.(listenPort := n))
    case SelectPeer(k) => Select(curve, s.dev, k)
    case _ => if s.selected.None? then s else PeerStep(s.dev, s.selected.value, c)
  }

  /** A line about the selected peer. */
  function PeerStep(dev: Device, k: Key, c: Command): Session {
    var was := if k in dev.peers then dev.peers[k] else PeerState(NoAddrPort, 0);
    match c
    case SetEndpoint(e) => Session(dev.(peers := dev.peers[k := was.(endpoint := e)]), Some(k))
    case SetKeepalive(n) => Session(dev.(peers := dev.peers[k := was.(keepalive := n)]), Some(k))
    case ReplaceAllowedIPs => Session(dev.(owner := Released(dev.owner, k)), Some(k))
    case AllowedIP(p) => Session(dev.(owner := dev.owner[Masked(p) := k]), Some(k))
    case RemovePeer => Session(Without(dev, k), None)
    case _ => Session(dev, Some(k))
  }

  function Exec(curve: Key -> Key, s: Session, cmds: seq<Command>): Session
    decreases |cmds|
  {
    if cmds == [] then s else Exec(curve, Step(curve, s, cmds[0]), cmds[1..])
  }

  /** One session on dev. */
  function RunScript(curve: Key -> Key, dev: Device, cmds: seq<Command>): Device {
    Exec(curve, Session(dev, None), cmds).dev
  }

  lemma {:induction false} ExecConcat(curve: Key -> Key, s: Session, a: seq<Command>, b: seq<Command>)
    ensures Exec(curve, s, a + b) == Exec(curve, Exec(curve, s, a), b)
    decreases |a|
  {
    if a == [] {
      assert a + b == b;
    } else {
      assert (a + b)[0] == a[0] && (a + b)[1..] == a[1..] + b;
      ExecConcat(curve, Step(curve, s, a[0]), a[1..], b);
    }
  }

  /** The device is not a peer of itself, and a peer that is gone owns nothing. */
  ghost predicate Sane(curve: Key -> Key, s: Session) {
    && curve(s.dev.privateKey) !in s.dev.peers
    && (forall x :: x in s.dev.owner ==> s.dev.owner[x] in s.dev.peers)
    && (s.selected.Some? ==> s.selected.value in s.dev.peers)
  }

  lemma StepKeepsSane(curve: Key -> Key, s: Session, c: Command)
    requires Sane(curve, s)
    requires c.SetPrivateKey? ==> s.selected.None?
    ensures Sane(curve, Step(curve, s, c))
  {
  }
}
