/** Which machines a sync lists, in terms of when they were last heard of. The
    table keeps whole seconds and the cut-off is cut to whole seconds too, so
    the limit is blurred by up to a second, always in the machine's favour. */
module Liveness {
  import opened WgState
  import opened Netip
  import opened Ipam
  import opened Machines
  import opened Enrolment

  const DEFAULT_INTERVAL := 30 * SECOND

  /** A machine heard of at `seen` is listed to one that asks at `asked`. */
  predicate Listed(seen: int, asked: int, timeout: int) {
    Unix(seen) >= Unix(asked - timeout)
  }

  lemma ListedWithinTimeout(seen: int, asked: int, timeout: int)
    ensures asked - timeout <= seen ==> Listed(seen, asked, timeout)
    ensures seen + SECOND <= asked - timeout ==> !Listed(seen, asked, timeout)
  {
  }

  /** Whatever the phase of the clock, silences of up to `gap` keep a machine
      listed throughout. */
  ghost predicate NeverVanishes(gap: int, timeout: int) {
    forall seen: nat, asked :: seen <= asked <= seen + gap ==> Listed(seen, asked, timeout)
  }

  lemma NeverVanishesExact(gap: nat, timeout: int)
    ensures NeverVanishes(gap, timeout) <==> gap <= timeout
  {
    if gap > timeout {
      // Heard of just before a second turns, asked about `gap` later.
      var seen: nat, asked := SECOND - 1, SECOND - 1 + gap;
      assert !Listed(seen, asked, timeout);
      assert seen <= asked <= seen + gap;
    }
  }

  /** How often a machine polls: the server sends whole seconds, and a client
      takes nothing positive to mean the default. */
  function PollInterval(syncInterval: int): int {
    var seconds := Seconds(syncInterval);
    if seconds <= 0 then DEFAULT_INTERVAL else seconds * SECOND
  }

  /** The timings that server.New accepts. */
  predicate ValidTimings(syncInterval: int, peerTimeout: int) {
    0 < syncInterval < peerTimeout
  }

  /** Machines that poll on time, each poll late by no more than `delay`, stay
      listed exactly when the interval they really use and the delay fit in the
      timeout. */
  lemma PollingStaysListed(syncInterval: int, peerTimeout: int, delay: nat)
    requires ValidTimings(syncInterval, peerTimeout)
    ensures NeverVanishes(PollInterval(syncInterval) + delay, peerTimeout)
       <==> PollInterval(syncInterval) + delay <= peerTimeout
    ensures SECOND <= syncInterval && delay <= peerTimeout - syncInterval
       ==> NeverVanishes(PollInterval(syncInterval) + delay, peerTimeout)
    ensures SECOND <= syncInterval ==> PollInterval(syncInterval) <= syncInterval < PollInterval(syncInterval) + SECOND
    ensures syncInterval < SECOND ==> PollInterval(syncInterval) == 30 * SECOND
  {
    NeverVanishesExact(PollInterval(syncInterval) + delay, peerTimeout);
  }

  /** Below one second the promise fails: the interval sent is rounded to zero,
      and clients fall back to 30 seconds. */
  lemma SubSecondIntervalVanishes()
    ensures ValidTimings(SECOND / 2, SECOND) && !NeverVanishes(PollInterval(SECOND / 2), SECOND)
  {
    NeverVanishesExact(PollInterval(SECOND / 2), SECOND);
  }

  // In the table

  predicate Concerns(r: Request, k: string) {
    match r
    case RegisterRequest(row, _) => row.publicKey == k
    case SyncRequest(key, _, _, _) => key == k
    case DeleteByHand(key) => key == k
  }

  function TimeOf(r: Request): int
    requires !r.DeleteByHand?
  {
    r.now
  }

  /** What a request says about where its machine can be reached. */
  function ReportOf(r: Request): (string, int)
    requires !r.DeleteByHand?
  {
    match r
    case RegisterRequest(row, _) => (row.endpoint, row.listenPort)
    case SyncRequest(_, endpoint, listenPort, _) => (endpoint, listenPort)
  }

  /** A machine's row tells when its latest request came, and what it said. */
  lemma {:induction false} LastSeenIsLatest(range: Prefix, requests: seq<Request>, i: nat, k: string)
    requires i < |requests| && Concerns(requests[i], k) && !requests[i].DeleteByHand?
    requires forall j :: i < j < |requests| ==> !Concerns(requests[j], k)
    requires k in ServeAll(range, map[], requests)
    ensures var row := ServeAll(range, map[], requests)[k];
      && row.lastSeen == Unix(TimeOf(requests[i]))
      && row.lastSeen * SECOND <= TimeOf(requests[i]) < row.lastSeen * SECOND + SECOND
      && (row.endpoint, row.listenPort) == ReportOf(requests[i])
  {
    var n := |requests| - 1;
    var front := requests[..n];
    if i < n {
      assert front[i] == requests[i];
      assert !Concerns(requests[n], k);
      LastSeenIsLatest(range, front, i, k);
    }
  }

  /** r registers k. */
  predicate Registers(r: Request, k: string) {
    r.RegisterRequest? && r.row.publicKey == k
  }

  /** A machine has the name that it was last registered with, however often it
      has synced since. */
  lemma {:induction false} NameIsRegistered(range: Prefix, requests: seq<Request>, i: nat, k: string)
    requires i < |requests| && Registers(requests[i], k)
    requires forall j :: i < j < |requests| ==> !Registers(requests[j], k) && requests[j] != DeleteByHand(k)
    requires k in ServeAll(range, map[], requests)
    ensures ServeAll(range, map[], requests)[k].name == requests[i].row.name
  {
    var n := |requests| - 1;
    if i < n {
      var front := requests[..n];
      assert front[i] == requests[i];
      assert !Registers(requests[n], k) && requests[n] != DeleteByHand(k);
      assert forall j :: i < j < n ==> front[j] == requests[j];
      NameIsRegistered(range, front, i, k);
    }
  }

  /** Over every run: a machine is in another machine's list exactly if its
      latest request was no earlier than the cut-off, in whole seconds. So one
      whose latest request is no older than the timeout is in every other
      machine's list, and one silent for a second longer is in nobody's. */
  lemma {:induction false} ListedOverRuns(range: Prefix, requests: seq<Request>, i: nat, k: string, caller: string, asked: int, timeout: int)
    requires IsRange(range)
    requires i < |requests| && Concerns(requests[i], k) && !requests[i].DeleteByHand?
    requires forall j :: i < j < |requests| ==> !Concerns(requests[j], k)
    requires k in ServeAll(range, map[], requests) && caller != k
    ensures var t := ServeAll(range, map[], requests);
      && Sound(t)
      && (t[k] in Listing(t, caller, Unix(asked - timeout)) <==> Listed(TimeOf(requests[i]), asked, timeout))
      && (asked - timeout <= TimeOf(requests[i]) ==> t[k] in Listing(t, caller, Unix(asked - timeout)))
      && (TimeOf(requests[i]) + SECOND <= asked - timeout ==> t[k] !in Listing(t, caller, Unix(asked - timeout)))
  {
    AlwaysEnrolled(range, requests);
    LastSeenIsLatest(range, requests, i, k);
    ListedWithinTimeout(TimeOf(requests[i]), asked, timeout);
  }

  // Polling

  /** The requests come in the order of their times. */
  ghost predicate InOrder(requests: seq<Request>) {
    forall i, j :: 0 <= i < j < |requests| && !requests[i].DeleteByHand? && !requests[j].DeleteByHand? ==>
      TimeOf(requests[i]) <= TimeOf(requests[j])
  }

  /** k's request at i is followed by k's request at j, with none between. */
  ghost predicate NextPoll(requests: seq<Request>, k: string, i: int, j: int) {
    && 0 <= i < j < |requests|
    && Concerns(requests[i], k) && Concerns(requests[j], k)
    && forall m :: i < m < j ==> !Concerns(requests[m], k)
  }

  /** From the first-th request on k polls without being silent for more than
      gap, and nobody deletes it. */
  ghost predicate Polls(requests: seq<Request>, k: string, first: nat, gap: int) {
    && (forall i :: first <= i < |requests| && Concerns(requests[i], k) ==> !requests[i].DeleteByHand?)
    && forall i, j :: first <= i && NextPoll(requests, k, i, j) ==> TimeOf(requests[j]) - TimeOf(requests[i]) <= gap
  }

  /** The latest request of k's among the first n. */
  lemma {:induction false} LatestPoll(requests: seq<Request>, k: string, first: nat, n: nat) returns (i: nat)
    requires first < n <= |requests| && Concerns(requests[first], k)
    ensures first <= i < n && Concerns(requests[i], k) && forall m :: i < m < n ==> !Concerns(requests[m], k)
  {
    if Concerns(requests[n - 1], k) {
      i := n - 1;
    } else {
      i := LatestPoll(requests, k, first, n - 1);
    }
  }

  /** k's first request after the n-th. */
  lemma {:induction false} EarliestPoll(requests: seq<Request>, k: string, n: nat, last: nat) returns (j: nat)
    requires n <= last < |requests| && Concerns(requests[last], k)
    ensures n <= j <= last && Concerns(requests[j], k) && forall m :: n <= m < j ==> !Concerns(requests[m], k)
    decreases last - n
  {
    if Concerns(requests[n], k) {
      j := n;
    } else {
      j := EarliestPoll(requests, k, n + 1, last);
    }
  }

  /** At another machine's request between two polls of k, k is not long gone. */
  lemma HeardOfLately(requests: seq<Request>, k: string, gap: int, first: nat, n: nat, last: nat) returns (i: nat)
    requires InOrder(requests) && Polls(requests, k, first, gap)
    requires first < n < last < |requests| && Concerns(requests[first], k) && Concerns(requests[last], k)
    requires !Concerns(requests[n], k) && !requests[n].DeleteByHand?
    ensures first <= i < n && Concerns(requests[i], k) && forall m :: i < m <= n ==> !Concerns(requests[m], k)
    ensures TimeOf(requests[n]) - TimeOf(requests[i]) <= gap
  {
    i := LatestPoll(requests, k, first, n);
    var j := EarliestPoll(requests, k, n, last);
    assert NextPoll(requests, k, i, j);
  }

  /** The table when the n-th request has been served, and the cut-off of its
      listing. */
  function TableAt(range: Prefix, requests: seq<Request>, n: nat): Table
    requires n < |requests|
  {
    ServeAll(range, map[], requests[..n + 1])
  }

  /** Machines that keep polling are in every list: at any sync of another
      machine between two polls of k, k is listed, provided that it is enrolled
      and that its silences fit in the timeout. */
  lemma PollersAreListed(range: Prefix, requests: seq<Request>, k: string, gap: int, timeout: int, first: nat, n: nat, last: nat)
    requires IsRange(range) && InOrder(requests) && Polls(requests, k, first, gap) && gap <= timeout
    requires first < n < last < |requests| && Concerns(requests[first], k) && Concerns(requests[last], k)
    requires requests[n].SyncRequest? && requests[n].key != k && k in TableAt(range, requests, n)
    ensures var t := TableAt(range, requests, n);
      Sound(t) && t[k] in Listing(t, requests[n].key, Unix(requests[n].now - timeout))
  {
    var i := HeardOfLately(requests, k, gap, first, n, last);
    var served := requests[..n + 1];
    assert served[i] == requests[i] && served[n] == requests[n];
    assert forall j :: i < j < |served| ==> served[j] == requests[j];
    ListedOverRuns(range, served, i, k, requests[n].key, requests[n].now, timeout);
  }

  /** With the intervals that the server sends: polls that come on time, late by
      no more than what is left of the timeout, keep a machine in every list. */
  lemma TimelyPollersAreListed(range: Prefix, requests: seq<Request>, k: string, syncInterval: int, peerTimeout: int,
                               delay: nat, first: nat, n: nat, last: nat)
    requires ValidTimings(syncInterval, peerTimeout) && SECOND <= syncInterval && delay <= peerTimeout - syncInterval
    requires IsRange(range) && InOrder(requests) && Polls(requests, k, first, PollInterval(syncInterval) + delay)
    requires first < n < last < |requests| && Concerns(requests[first], k) && Concerns(requests[last], k)
    requires requests[n].SyncRequest? && requests[n].key != k && k in TableAt(range, requests, n)
    ensures var t := TableAt(range, requests, n);
      Sound(t) && t[k] in Listing(t, requests[n].key, Unix(requests[n].now - peerTimeout))
  {
    PollersAreListed(range, requests, k, PollInterval(syncInterval) + delay, peerTimeout, first, n, last);
  }
}
