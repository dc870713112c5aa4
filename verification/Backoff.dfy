/** How long meshd waits before it tries to sync again after failures. */
module Backoff {
  import opened Sequences
  import opened WgState

  const MIN_BACKOFF := 1 * SECOND
  const MAX_BACKOFF := 60 * SECOND

  function Doubled(backoff: int): int {
    if backoff * 2 > MAX_BACKOFF then MAX_BACKOFF else backoff * 2
  }

  /** The stored backoff after a history of syncs, true meaning success. */
  function BackoffAfter(history: seq<bool>): int {
    if history == [] then MIN_BACKOFF
    else if history[|history| - 1] then MIN_BACKOFF
    else Doubled(BackoffAfter(history[..|history| - 1]))
  }

  lemma {:induction false} AfterOneMore(history: seq<bool>, success: bool)
    ensures BackoffAfter(history + [success]) == if success then MIN_BACKOFF else Doubled(BackoffAfter(history))
  {
    FrontOfSnoc(history, success);
  }

  /** When the next sync is due after one that ended at `done` and got this
      interval in seconds; without a positive one it is the default. */
  function NextDue(done: int, interval: int): int {
    done + if interval <= 0 then 30 * SECOND else interval * SECOND
  }

  // Runs of syncIfDue

  /** What a call of syncIfDue did at `now`: nothing, because it was too early, or
      a sync that ended at `done`, failing, with a wait to follow, or with the
      interval the server asks for. In between someone may ask for a sync now. */
  datatype Call =
    | TooEarly(now: int)
    | Failed(now: int, done: int, wait: int)
    | Succeeded(now: int, done: int, interval: int)
    | Hurried

  predicate IsSync(c: Call) { c.Failed? || c.Succeeded? }

  /** When the next sync is due after the calls; at first, at once. */
  function NextSync(calls: seq<Call>): int {
    if calls == [] then 0
    else
      match calls[|calls| - 1]
      case TooEarly(_) => NextSync(calls[..|calls| - 1])
      case Failed(_, done, wait) => done + wait
      case Succeeded(_, done, interval) => NextDue(done, interval)
      case Hurried => 0
  }

  /** The outcomes of the syncs among the calls. */
  function Outcomes(calls: seq<Call>): seq<bool> {
    if calls == [] then []
    else
      var front, last := calls[..|calls| - 1], calls[|calls| - 1];
      if IsSync(last) then Outcomes(front) + [last.Succeeded?] else Outcomes(front)
  }

  /** The call is one that may follow the given ones: it syncs exactly when that is
      due, and waits after a failure as the backoff has it. */
  predicate MayBeNext(calls: seq<Call>, c: Call) {
    match c
    case TooEarly(now) => now < NextSync(calls)
    case Failed(now, _, wait) => NextSync(calls) <= now && PossibleWait(BackoffAfter(Outcomes(calls)), wait)
    case Succeeded(now, _, _) => NextSync(calls) <= now
    case Hurried => true
  }

  predicate PossibleCalls(calls: seq<Call>) {
    calls == [] || (PossibleCalls(calls[..|calls| - 1]) && MayBeNext(calls[..|calls| - 1], calls[|calls| - 1]))
  }

  lemma {:induction false} PossibleAt(calls: seq<Call>, n: nat)
    requires PossibleCalls(calls) && n < |calls|
    ensures MayBeNext(calls[..n], calls[n])
  {
    if n < |calls| - 1 {
      PossibleAt(calls[..|calls| - 1], n);
      assert calls[..|calls| - 1][..n] == calls[..n];
    }
  }

  /** The timers are those of a daemon that has made these calls. */
  predicate TimersAre(nextSync: int, backoff: int, calls: seq<Call>) {
    PossibleCalls(calls) && nextSync == NextSync(calls) && backoff == BackoffAfter(Outcomes(calls))
  }

  /** The timers that the call leaves. */
  predicate Plans(calls: seq<Call>, c: Call, nextSync: int, backoff: int) {
    match c
    case TooEarly(_) => nextSync == NextSync(calls) && backoff == BackoffAfter(Outcomes(calls))
    case Failed(_, done, wait) => nextSync == done + wait && backoff == Doubled(BackoffAfter(Outcomes(calls)))
    case Succeeded(_, done, interval) => nextSync == NextDue(done, interval) && backoff == MIN_BACKOFF
    case Hurried => nextSync == 0 && backoff == BackoffAfter(Outcomes(calls))
  }

  lemma {:induction false} TimersAfter(calls: seq<Call>, c: Call, nextSync: int, backoff: int)
    requires PossibleCalls(calls) && MayBeNext(calls, c) && Plans(calls, c, nextSync, backoff)
    ensures TimersAre(nextSync, backoff, calls + [c])
  {
    FrontOfSnoc(calls, c);
    CallsSnoc(calls, c);
    AfterOneMore(Outcomes(calls), c.Succeeded?);
  }

  lemma {:induction false} CallsSnoc(calls: seq<Call>, c: Call)
    ensures NextSync(calls + [c]) == match c
      case TooEarly(_) => NextSync(calls)
      case Failed(_, done, wait) => done + wait
      case Succeeded(_, done, interval) => NextDue(done, interval)
      case Hurried => 0
    ensures Outcomes(calls + [c]) == if IsSync(c) then Outcomes(calls) + [c.Succeeded?] else Outcomes(calls)
  {
    FrontOfSnoc(calls, c);
  }

  /** No sync ends before it begins. */
  predicate ClockRuns(calls: seq<Call>) {
    forall i :: 0 <= i < |calls| && IsSync(calls[i]) ==> calls[i].now <= calls[i].done
  }

  /** Nobody asks for a sync between the i-th call and the n-th. */
  predicate Unhurried(calls: seq<Call>, i: nat, n: nat) {
    forall m :: i < m < n && m < |calls| ==> !calls[m].Hurried?
  }

  /** When the next sync is due never moves to an earlier time. */
  lemma {:induction false} DueStays(calls: seq<Call>, i: nat, n: nat)
    requires PossibleCalls(calls) && ClockRuns(calls) && i < n <= |calls| && Unhurried(calls, i, n)
    ensures NextSync(calls[..i + 1]) <= NextSync(calls[..n])
  {
    if i + 1 < n {
      DueStays(calls, i, n - 1);
      assert calls[..n] == calls[..n - 1] + [calls[n - 1]];
      CallsSnoc(calls[..n - 1], calls[n - 1]);
      PossibleAt(calls, n - 1);
      if calls[n - 1].Failed? {
        WaitIsPositive(calls[..n - 1], calls[n - 1]);
      }
    }
  }

  lemma WaitIsPositive(calls: seq<Call>, c: Call)
    requires c.Failed? && MayBeNext(calls, c)
    ensures c.wait > 0
  {
    WaitsAreBounded(Outcomes(calls), c.wait);
  }

  /** After a success with the interval n the next sync, whether it succeeds or
      fails, begins n seconds after its end at the earliest, or 30 seconds if n is
      not positive; calls before that time do nothing; and one from then on
      syncs, unless another has. */
  lemma {:induction false} SyncsAreSpaced(calls: seq<Call>, i: nat, n: nat)
    requires PossibleCalls(calls) && ClockRuns(calls) && i < n < |calls| && calls[i].Succeeded? && Unhurried(calls, i, n)
    ensures var due := calls[i].done + (if calls[i].interval > 0 then calls[i].interval else 30) * 1_000_000_000;
      && (IsSync(calls[n]) ==> calls[n].now >= due)
      && (calls[n].TooEarly? && (forall m :: i < m < n ==> !IsSync(calls[m])) ==> calls[n].now < due)
  {
    DueStays(calls, i, n);
    assert calls[..i + 1] == calls[..i] + [calls[i]];
    CallsSnoc(calls[..i], calls[i]);
    if forall m :: i < m < n ==> !IsSync(calls[m]) {
      DueUnchanged(calls, i, n);
    }
    PossibleAt(calls, n);
  }

  lemma {:induction false} DueUnchanged(calls: seq<Call>, i: nat, n: nat)
    requires i < n <= |calls| && Unhurried(calls, i, n) && forall m :: i < m < n ==> !IsSync(calls[m])
    ensures NextSync(calls[..n]) == NextSync(calls[..i + 1])
  {
    if i + 1 < n {
      DueUnchanged(calls, i, n - 1);
      assert calls[..n] == calls[..n - 1] + [calls[n - 1]];
      CallsSnoc(calls[..n - 1], calls[n - 1]);
    }
  }

  /** How many of the latest syncs failed, one after the other. */
  function FailuresInARow(history: seq<bool>): nat {
    if history == [] || history[|history| - 1] then 0 else 1 + FailuresInARow(history[..|history| - 1])
  }

  function TwoToThe(k: nat): nat {
    if k == 0 then 1 else 2 * TwoToThe(k - 1)
  }

  function Min(a: int, b: int): int { if a < b then a else b }

  /** After k failures in a row the backoff is min(2^k, 60) seconds, whatever
      came before them. */
  lemma {:induction false} BackoffIsExponential(history: seq<bool>)
    ensures BackoffAfter(history) == Min(TwoToThe(FailuresInARow(history)), 60) * SECOND
  {
    if history != [] && !history[|history| - 1] {
      BackoffIsExponential(history[..|history| - 1]);
    }
  }

  /** The waits that follow a failure when `current` is stored: jitter is drawn
      from 0 up to and including a quarter of it. */
  predicate PossibleWait(current: int, wait: int) {
    current <= wait <= current + current / 4
  }

  /** Every wait over every history: at least the stored backoff, never above
      75 seconds, and there is always a jitter to draw. */
  lemma {:induction false} WaitsAreBounded(history: seq<bool>, wait: int)
    requires PossibleWait(BackoffAfter(history), wait)
    ensures MIN_BACKOFF <= BackoffAfter(history) <= wait
    ensures 4 * wait <= 5 * BackoffAfter(history) && wait <= 75 * SECOND
    ensures BackoffAfter(history) / 4 + 1 > 0
  {
    BackoffIsExponential(history);
    PowersArePositive(FailuresInARow(history));
  }

  lemma {:induction false} PowersArePositive(k: nat)
    ensures TwoToThe(k) >= 1
  {
    if k > 0 {
      PowersArePositive(k - 1);
    }
  }
}
