/** The table of enrolled machines and the two requests that change it, each an
    atomic transaction. Rows are keyed by public key, and addresses are unique. */
module Machines {
  import opened Wrappers
  import opened Ordering
  import opened Netip
  import opened Ipam

  datatype Machine = Machine(
    publicKey: string, name: string, vpnIP: string, endpoint: string,
    listenPort: int, createdAt: int, lastSeen: int)

  type Table = map<string, Machine>

  datatype StoreError = NotFound | Unallocated(cause: AllocError) | ConstraintViolated

  /** Times count nanoseconds; the table keeps whole seconds, rounded down. */
  function Unix(time: int): int { time / 1_000_000_000 }

  function UsedIPs(t: Table): set<string> {
    set k | k in t :: t[k].vpnIP
  }

  /** Every row is found under its own key, and no address is used twice. */
  ghost predicate Sound(t: Table) {
    && (forall k :: k in t ==> t[k].publicKey == k)
    && (forall k, l :: k in t && l in t && t[k].vpnIP == t[l].vpnIP ==> k == l)
  }

  /** INSERT under PRIMARY KEY (public_key) and UNIQUE (vpn_ip). */
  function Insert(t: Table, row: Machine): Result<Table, StoreError> {
    if row.publicKey in t || row.vpnIP in UsedIPs(t) then Err(ConstraintViolated)
    else Ok(t[row.publicKey := row])
  }

  /** RegisterMachine: a known key keeps its row but for what it reports about
      itself; a new one gets the next free address. */
  function Register(cidr: Option<Prefix>, t: Table, request: Machine, now: int): (Table, Result<Machine, StoreError>) {
    if request.publicKey in t then
      var row := t[request.publicKey].(name := request.name, endpoint := request.endpoint,
                                       listenPort := request.listenPort, lastSeen := Unix(now));
      (t[request.publicKey := row], Ok(row))
    else
      match Allocate(cidr, UsedIPs(t))
      case Err(e) => (t, Err(Unallocated(e)))
      case Ok(ip) =>
        var row := Machine(request.publicKey, request.name, ip, request.endpoint, request.listenPort, Unix(now), Unix(now));
        match Insert(t, row)
        case Err(e) => (t, Err(e))
        case Ok(t') => (t', Ok(row))
  }

  /** SQLite compares text by its code points. */
  function Codes(s: string): seq<int> {
    seq(|s|, i requires 0 <= i < |s| => s[i] as int)
  }

  function IPRank(m: Machine): seq<int> { Codes(m.vpnIP) }

  lemma CodesInjective(a: string, b: string)
    requires Codes(a) == Codes(b)
    ensures a == b
  {
    assert |a| == |Codes(a)| == |b|;
    forall i | 0 <= i < |a|
      ensures a[i] == b[i]
    {
      assert Codes(a)[i] == Codes(b)[i];
    }
  }

  /** The rows other than key's that were seen at or after the cut-off. */
  function Alive(t: Table, key: string, cutoff: int): set<Machine> {
    set k | k in t && k != key && t[k].lastSeen >= cutoff :: t[k]
  }

  lemma AliveInjective(t: Table, key: string, cutoff: int)
    requires Sound(t)
    ensures Injective(Alive(t, key, cutoff), IPRank)
  {
    forall x, y | x in Alive(t, key, cutoff) && y in Alive(t, key, cutoff) && IPRank(x) == IPRank(y)
      ensures x == y
    {
      CodesInjective(x.vpnIP, y.vpnIP);
    }
  }

  /** The rows that the peers query returns, ordered by address text. */
  ghost function Listing(t: Table, key: string, cutoff: int): (r: seq<Machine>)
    requires Sound(t)
    ensures StrictlySorted(r, IPRank)
    ensures forall m :: m in r <==> m in Alive(t, key, cutoff)
  {
    AliveInjective(t, key, cutoff);
    Enumerate(Alive(t, key, cutoff), IPRank)
  }

  /** The keys seen at or after the cut-off. */
  function AliveKeys(t: Table, cutoff: int): set<string> {
    set k | k in t && t[k].lastSeen >= cutoff
  }

  lemma {:induction false} AsManyRowsAsKeys(t: Table, keys: set<string>)
    requires Sound(t) && keys <= t.Keys
    ensures |set k | k in keys :: t[k]| == |keys|
  {
    if keys != {} {
      var l :| l in keys;
      var rest := keys - {l};
      AsManyRowsAsKeys(t, rest);
      assert (set k | k in keys :: t[k]) == (set k | k in rest :: t[k]) + {t[l]};
      assert t[l] !in set k | k in rest :: t[k];
    }
  }

  /** A caller's list is as long as the number of live machines, itself aside. */
  lemma ListingLength(t: Table, key: string, cutoff: int)
    requires Sound(t)
    ensures |Listing(t, key, cutoff)| == |AliveKeys(t, cutoff) - {key}|
  {
    var keys := AliveKeys(t, cutoff) - {key};
    AsManyRowsAsKeys(t, keys);
    assert Alive(t, key, cutoff) == set k | k in keys :: t[k];
  }

  /** The table after the caller's row is brought up to date. */
  function Touch(t: Table, key: string, endpoint: string, listenPort: int, now: int): Table {
    if key !in t then t
    else t[key := t[key].(endpoint := endpoint, listenPort := listenPort, lastSeen := Unix(now))]
  }

  /** Updating a row in place keeps the table sound and the addresses in use. */
  lemma UpdateKeepsSound(t: Table, k: string, row: Machine)
    requires Sound(t) && k in t && row.publicKey == k && row.vpnIP == t[k].vpnIP
    ensures Sound(t[k := row]) && UsedIPs(t[k := row]) == UsedIPs(t)
    ensures t[k := row].Keys == t.Keys && |t[k := row]| == |t|
  {
    var t' := t[k := row];
    assert t'.Keys == t.Keys;
    assert |t'| == |t'.Keys| && |t| == |t.Keys|;
    assert forall l :: l in t ==> t'[l].vpnIP == t[l].vpnIP;
  }

  lemma TouchKeepsSound(t: Table, key: string, endpoint: string, listenPort: int, now: int)
    requires Sound(t)
    ensures Sound(Touch(t, key, endpoint, listenPort, now))
    ensures UsedIPs(Touch(t, key, endpoint, listenPort, now)) == UsedIPs(t)
    ensures |Touch(t, key, endpoint, listenPort, now)| == |t|
  {
    if key in t {
      UpdateKeepsSound(t, key, t[key].(endpoint := endpoint, listenPort := listenPort, lastSeen := Unix(now)));
    }
  }

  lemma InsertedIPs(t: Table, k: string, row: Machine)
    requires k !in t
    ensures UsedIPs(t[k := row]) == UsedIPs(t) + {row.vpnIP}
  {
    var t' := t[k := row];
    forall ip
      ensures ip in UsedIPs(t') <==> ip in UsedIPs(t) + {row.vpnIP}
    {
      if ip in UsedIPs(t) {
        var l :| l in t && t[l].vpnIP == ip;
        assert l in t' && t'[l].vpnIP == ip;
      }
      if ip == row.vpnIP {
        assert k in t' && t'[k].vpnIP == ip;
      }
    }
  }

  /** A row that the constraints allow. */
  lemma InsertKeepsSound(t: Table, row: Machine)
    requires Sound(t) && row.publicKey !in t && row.vpnIP !in UsedIPs(t)
    ensures Sound(t[row.publicKey := row])
    ensures |t[row.publicKey := row]| == |t| + 1
  {
    var t' := t[row.publicKey := row];
    assert t'.Keys == t.Keys + {row.publicKey};
    assert |t'| == |t'.Keys| && |t| == |t.Keys|;
    forall k | k in t
      ensures t'[k] == t[k] && t[k].vpnIP != row.vpnIP
    {
      assert t[k].vpnIP in UsedIPs(t);
    }
  }

  // The table as an object

  class Store {
    var machines: Table
    const cidr: Option<Prefix>

    constructor (cidr: Option<Prefix>)
      ensures machines == map[] && this.cidr == cidr
    {
      machines := map[];
      this.cidr := cidr;
    }

    method RegisterMachine(request: Machine, now: int) returns (r: Result<Machine, StoreError>)
      modifies this`machines
      ensures (machines, r) == Register(cidr, old(machines), request, now)
    {
      if request.publicKey in machines {
        var row := machines[request.publicKey].(name := request.name, endpoint := request.endpoint,
                                                listenPort := request.listenPort, lastSeen := Unix(now));
        machines := machines[request.publicKey := row];
        return Ok(row);
      }
      var used := ListUsed();
      var ip := NextFreeIP(cidr, used);
      if ip.Err? {
        return Err(Unallocated(ip.error));
      }
      var row := Machine(request.publicKey, request.name, ip.value, request.endpoint, request.listenPort, Unix(now), Unix(now));
      var inserted := Insert(machines, row);
      if inserted.Err? {
        return Err(inserted.error);
      }
      machines := inserted.value;
      return Ok(row);
    }

    /** The addresses in use, row by row. */
    method ListUsed() returns (used: set<string>)
      ensures used == UsedIPs(machines)
    {
      used := {};
      var rows := machines.Keys;
      while rows != {}
        invariant rows <= machines.Keys
        invariant used == set k | k in machines && k !in rows :: machines[k].vpnIP
        decreases |rows|
      {
        var k :| k in rows;
        rows := rows - {k};
        used := used + {machines[k].vpnIP};
      }
    }

    /** Brings the caller's row up to date and lists the live peers. */
    method Sync(key: string, endpoint: string, listenPort: int, now: int, aliveSince: int)
      returns (r: Result<(Machine, seq<Machine>), StoreError>)
      requires Sound(machines)
      modifies this`machines
      ensures machines == Touch(old(machines), key, endpoint, listenPort, now)
      ensures Sound(machines)
      ensures key !in old(machines) ==> r == Err(NotFound)
      ensures key in old(machines) ==> r == Ok((machines[key], Listing(machines, key, Unix(aliveSince))))
    {
      TouchKeepsSound(machines, key, endpoint, listenPort, now);
      if key !in machines {
        return Err(NotFound);
      }
      machines := machines[key := machines[key].(endpoint := endpoint, listenPort := listenPort, lastSeen := Unix(now))];
      var peers := SelectPeers(key, Unix(aliveSince));
      return Ok((machines[key], peers));
    }

    /** Reads the rows of the peers query one after the other: the database
        hands out the one with the least address text next. */
    method SelectPeers(key: string, cutoff: int) returns (peers: seq<Machine>)
      requires Sound(machines)
      ensures peers == Listing(machines, key, cutoff)
    {
      peers := [];
      var rows := Alive(machines, key, cutoff);
      AliveInjective(machines, key, cutoff);
      ghost var all := rows;
      while rows != {}
        invariant rows <= all
        invariant forall m :: m in peers <==> m in all - rows
        invariant StrictlySorted(peers, IPRank)
        invariant forall x, y :: x in peers && y in rows ==> LexLess(IPRank(x), IPRank(y))
        decreases |rows|
      {
        LeastExistsNow(rows, IPRank);
        var m :| m in rows && forall y :: y in rows && y != m ==> LexLess(IPRank(m), IPRank(y));
        rows := rows - {m};
        peers := peers + [m];
      }
      SortedUnique(peers, Listing(machines, key, cutoff), IPRank);
    }

    /** How many machines there are, and how many were heard of lately. */
    method CountMachines(aliveSince: int) returns (total: nat, alive: nat)
      ensures total == |machines| && alive == |AliveKeys(machines, Unix(aliveSince))|
    {
      var cutoff := Unix(aliveSince);
      ghost var live := AliveKeys(machines, cutoff);
      total, alive := 0, 0;
      var rows := machines.Keys;
      ghost var counted: set<string> := {};
      while rows != {}
        invariant counted !! rows && counted + rows == machines.Keys
        invariant total == |counted| && alive == |live * counted|
        decreases |rows|
      {
        var k :| k in rows;
        CountNext(live, counted, k);
        MoveOver(counted, rows, k);
        rows, counted := rows - {k}, counted + {k};
        total := total + 1;
        if machines[k].lastSeen >= cutoff {
          alive := alive + 1;
        }
      }
      assert live * counted == live;
    }
  }

  lemma MoveOver(counted: set<string>, rows: set<string>, k: string)
    requires counted !! rows && k in rows
    ensures counted + {k} !! rows - {k}
    ensures (counted + {k}) + (rows - {k}) == counted + rows
    ensures |counted + {k}| == |counted| + 1
  {
  }

  lemma CountNext(s: set<string>, counted: set<string>, k: string)
    requires k !in counted
    ensures |s * (counted + {k})| == |s * counted| + if k in s then 1 else 0
  {
    assert s * (counted + {k}) == if k in s then s * counted + {k} else s * counted;
  }
}
