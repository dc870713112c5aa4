/** A healthy daemon's own schedule keeps its machine in everybody's list. */
module Schedule {
  import opened WgState
  import opened Netip
  import opened Ipam
  import opened Machines
  import opened Enrolment
  import opened Backoff
  import opened Liveness

  /** A sync that succeeded: begun at `now`, served by the server in between, and
      ended at `done` with this interval in seconds. */
  datatype Success = Success(now: int, served: int, done: int, interval: int)

  /** Every sync takes at most `lag`, and begins at most `slack` after the one
      before it has made it due. */
  ghost predicate OnSchedule(syncs: seq<Success>, interval: int, lag: nat, slack: nat) {
    && (forall i :: 0 <= i < |syncs| ==> TakesAtMost(syncs[i], lag) && syncs[i].interval == interval)
    && forall i :: 0 < i < |syncs| ==> DueWithin(syncs[i - 1], syncs[i], slack)
  }

  predicate TakesAtMost(s: Success, lag: nat) {
    s.now <= s.served <= s.done <= s.now + lag
  }

  predicate DueWithin(s: Success, next: Success, slack: nat) {
    next.now <= NextDue(s.done, s.interval) + slack
  }

  /** The requests of k's from the first-th on are those of the syncs, in their
      order: the i-th sync is the request at at[i]. */
  ghost predicate Traces(requests: seq<Request>, k: string, first: nat, syncs: seq<Success>, at: seq<nat>) {
    && |at| == |syncs| > 0 && at[0] == first
    && (forall i, j :: 0 <= i < j < |at| ==> at[i] < at[j])
    && (forall i :: 0 <= i < |at| ==> at[i] < |requests| && IsSync(requests[at[i]], k, syncs[i].served))
    && forall m :: first <= m < |requests| && Concerns(requests[m], k) ==> m in at
  }

  predicate IsSync(r: Request, k: string, served: int) {
    r.SyncRequest? && r.key == k && r.now == served
  }

  /** Between two syncs in a row the server hears nothing for at most the
      interval, the slack, and the length of both. */
  lemma GapBetween(s: Success, next: Success, interval: int, lag: nat, slack: nat)
    requires TakesAtMost(s, lag) && TakesAtMost(next, lag) && DueWithin(s, next, slack) && s.interval == interval
    ensures next.served - s.served <= NextDue(0, interval) + 2 * lag + slack
  {
  }

  /** Requests of k's in a row are syncs in a row. */
  lemma PollsAreInARow(requests: seq<Request>, k: string, first: nat, syncs: seq<Success>, at: seq<nat>, i: int, j: int)
    returns (n: nat)
    requires Traces(requests, k, first, syncs, at) && first <= i && NextPoll(requests, k, i, j)
    ensures n + 1 < |at| && at[n] == i && at[n + 1] == j
  {
    var a :| 0 <= a < |at| && at[a] == i;
    var b :| 0 <= b < |at| && at[b] == j;
    n := a;
    if b > a + 1 {
      assert at[a] < at[a + 1] < at[b] && Concerns(requests[at[a + 1]], k);
      assert false;
    }
  }

  lemma SchedulePolls(requests: seq<Request>, k: string, first: nat, syncs: seq<Success>, at: seq<nat>,
                      interval: int, lag: nat, slack: nat)
    requires Traces(requests, k, first, syncs, at) && OnSchedule(syncs, interval, lag, slack)
    ensures Polls(requests, k, first, NextDue(0, interval) + 2 * lag + slack)
  {
    forall i, j | first <= i && NextPoll(requests, k, i, j)
      ensures TimeOf(requests[j]) - TimeOf(requests[i]) <= NextDue(0, interval) + 2 * lag + slack
    {
      var n := PollsAreInARow(requests, k, first, syncs, at, i, j);
      assert IsSync(requests[at[n]], k, syncs[n].served) && IsSync(requests[at[n + 1]], k, syncs[n + 1].served);
      assert DueWithin(syncs[n + 1 - 1], syncs[n + 1], slack);
      GapBetween(syncs[n], syncs[n + 1], interval, lag, slack);
    }
    forall m | first <= m < |requests| && Concerns(requests[m], k)
      ensures !requests[m].DeleteByHand?
    {
      var i :| 0 <= i < |at| && at[i] == m;
      assert IsSync(requests[at[i]], k, syncs[i].served);
    }
  }

  /** A healthy daemon stays listed: if its syncs succeed, with the interval that
      the server sends, take no longer than `lag` and start no later than `slack`
      after they are due, and if that fits in what the timeout leaves beyond the
      interval, then its machine is in the list of every sync by another machine
      from its first to its last. */
  lemma HealthyDaemonIsListed(range: Prefix, requests: seq<Request>, k: string, syncs: seq<Success>, at: seq<nat>,
                              syncInterval: int, peerTimeout: int, lag: nat, slack: nat, n: nat)
    requires ValidTimings(syncInterval, peerTimeout) && SECOND <= syncInterval
    requires 2 * lag + slack <= peerTimeout - syncInterval
    requires IsRange(range) && InOrder(requests) && |at| > 0
    requires Traces(requests, k, at[0], syncs, at) && OnSchedule(syncs, Seconds(syncInterval), lag, slack)
    requires at[0] < n < at[|at| - 1] && requests[n].SyncRequest? && requests[n].key != k
    requires k in TableAt(range, requests, n)
    ensures var t := TableAt(range, requests, n);
      Sound(t) && t[k] in Listing(t, requests[n].key, Unix(requests[n].now - peerTimeout))
  {
    SchedulePolls(requests, k, at[0], syncs, at, Seconds(syncInterval), lag, slack);
    assert NextDue(0, Seconds(syncInterval)) == PollInterval(syncInterval);
    var last := at[|at| - 1];
    assert IsSync(requests[at[0]], k, syncs[0].served) && IsSync(requests[last], k, syncs[|at| - 1].served);
    TimelyPollersAreListed(range, requests, k, syncInterval, peerTimeout, 2 * lag + slack, at[0], n, last);
  }
}
