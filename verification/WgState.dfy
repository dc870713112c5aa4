/** The typed description of the tunnel: this machine's interface settings and
    its peers. */
module WgState {
  import opened Keys
  import opened Netip

  /** Durations count nanoseconds. */
  const SECOND := 1_000_000_000

  datatype Interface = Interface(privateKey: Key, address: Prefix, listenPort: int, mtu: int)

  datatype Peer = Peer(name: string, publicKey: Key, allowedIPs: seq<Prefix>, endpoint: AddrPort, keepalive: int)

  datatype Config = Config(iface: Interface, peers: seq<Peer>)

  /** What a new tunnel has been sent: nothing. */
  const EMPTY_CONFIG := Config(Interface(ZERO_KEY, NoPrefix, 0, 0), [])

  /** Would p and q configure the device the same way? */
  predicate SameSettings(p: Peer, q: Peer) {
    && p.endpoint == q.endpoint
    && p.keepalive == q.keepalive
    && p.allowedIPs == q.allowedIPs
  }

  /** Go's division truncates towards zero. */
  function Seconds(duration: int): int {
    if duration >= 0 then duration / SECOND else -((0 - duration) / SECOND)
  }

  /** The prefixes p asks for, as the device tells them apart. */
  function Claims(p: Peer): set<Prefix> {
    set a | a in p.allowedIPs :: Masked(a)
  }

  function KeysOf(peers: seq<Peer>): set<Key> {
    set p | p in peers :: p.publicKey
  }

  ghost predicate UniqueKeys(peers: seq<Peer>) {
    forall i, j :: 0 <= i < j < |peers| ==> peers[i].publicKey != peers[j].publicKey
  }

  /** No prefix is claimed by two peers. */
  ghost predicate Disjoint(peers: seq<Peer>) {
    forall i, j :: 0 <= i < j < |peers| ==> Claims(peers[i]) !! Claims(peers[j])
  }
}
