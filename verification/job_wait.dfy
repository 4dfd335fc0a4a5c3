/** Waiting for a Kubernetes job: a polling loop against a clock and an arbitrary cluster. */
module JobWait {
  import opened Wrappers

  const HTTP_NOT_FOUND := 404
  const CHECK_INTERVAL: nat := 5
  const RUN_JOB_TIMEOUT: nat := 10 * 60

  /** What one read of the job shows. A missing spec counts as a missing backoff limit. */
  datatype Reading =
    | ApiError(status: int)
    | NoStatus
    | Job(succeeded: Option<int>, failed: Option<int>, backoffLimit: Option<int>)

  /** The clock at the top of the k-th round, and the reading of that round if there is one. */
  datatype Cluster = Cluster(clock: nat -> real, reading: nat -> Reading)

  datatype Ending = Completed | TimeoutError | PodError(failed: int) | ApiException(status: int)

  datatype Outcome = Outcome(ending: Ending, polls: nat)

  predicate Complete(r: Reading) {
    r.Job? && r.succeeded.Some? && r.succeeded.value >= 1
  }

  predicate BackoffExceeded(r: Reading) {
    r.Job? && r.failed.Some? && r.backoffLimit.Some? && r.failed.value > r.backoffLimit.value
  }

  /** The readings on which the loop sleeps and goes on. */
  predicate Undecided(r: Reading) {
    match r
    case ApiError(status) => status == HTTP_NOT_FOUND
    case NoStatus => true
    case Job(_, _, _) => !Complete(r) && !BackoffExceeded(r)
  }

  /** The clock never runs backwards and a sleep lasts at least the interval. */
  ghost predicate Paced(c: Cluster, start: real, interval: int) {
    && start <= c.clock(0)
    && forall k: nat :: c.clock(k) + interval as real <= c.clock(k + 1)
  }

  lemma {:induction false} RoundsTakeTime(c: Cluster, start: real, interval: int, k: nat)
    requires Paced(c, start, interval)
    ensures start + (k * interval) as real <= c.clock(k)
  {
    if k > 0 {
      RoundsTakeTime(c, start, interval, k - 1);
      assert c.clock(k - 1) + interval as real <= c.clock((k - 1) + 1);
      assert k * interval == (k - 1) * interval + interval;
    }
  }

  lemma MulAtLeast(k: nat, m: int)
    requires 0 < m
    ensures k <= k * m
  {
    assert k * m == k + k * (m - 1);
  }

  /** A round begun within the timeout has a number within timeout / interval. */
  lemma RoundInTime(c: Cluster, start: real, timeout: int, interval: int, k: nat)
    requires Paced(c, start, interval) && 0 < interval
    requires c.clock(k) - start <= timeout as real
    ensures k * interval <= timeout && k <= timeout
  {
    RoundsTakeTime(c, start, interval, k);
    assert (k * interval) as real <= timeout as real;
    MulAtLeast(k, interval);
  }

  /** What the loop has decided at its end, said without the loop: round n is the first that is late or read
      something decisive, and everything before was in time and undecided. */
  ghost predicate Decides(c: Cluster, start: real, timeout: int, n: nat, o: Outcome) {
    && (forall k | 0 <= k < n :: c.clock(k) - start <= timeout as real && Undecided(c.reading(k)))
    && match o.ending
       case TimeoutError => c.clock(n) - start > timeout as real && o.polls == n
       case Completed => c.clock(n) - start <= timeout as real && o.polls == n + 1 && Complete(c.reading(n))
       case PodError(failed) =>
         && c.clock(n) - start <= timeout as real && o.polls == n + 1
         && !Complete(c.reading(n)) && BackoffExceeded(c.reading(n)) && failed == c.reading(n).failed.value
       case ApiException(status) =>
         && c.clock(n) - start <= timeout as real && o.polls == n + 1
         && c.reading(n) == ApiError(status) && status != HTTP_NOT_FOUND
  }

  /** How a wait ends; the decisive round is determined by the clock and the readings. */
  ghost predicate Ends(c: Cluster, start: real, timeout: int, o: Outcome) {
    exists n: nat :: Decides(c, start, timeout, n, o)
  }

  method Wait(c: Cluster, start: real, timeout: int, interval: int) returns (o: Outcome)
    requires 0 < interval && Paced(c, start, interval)
    ensures Ends(c, start, timeout, o)
    ensures o.polls > 0 ==> (o.polls - 1) * interval <= timeout
  {
    var polls: nat := 0;
    while true
      invariant forall k | 0 <= k < polls :: c.clock(k) - start <= timeout as real && Undecided(c.reading(k))
      invariant polls > 0 ==> (polls - 1) * interval <= timeout && polls - 1 <= timeout
      decreases timeout + 1 - polls
    {
      ghost var n := polls;
      if c.clock(polls) - start > timeout as real {
        o := Outcome(TimeoutError, polls);
        assert Decides(c, start, timeout, n, o);
        return;
      }
      RoundInTime(c, start, timeout, interval, polls);
      var reading := c.reading(polls);
      polls := polls + 1;
      match reading
      case ApiError(status) =>
        if status != HTTP_NOT_FOUND {
          o := Outcome(ApiException(status), polls);
          assert Decides(c, start, timeout, n, o);
          return;
        }
      case NoStatus =>
      case Job(succeeded, failed, backoffLimit) =>
        if succeeded.Some? && succeeded.value >= 1 {
          o := Outcome(Completed, polls);
          assert Decides(c, start, timeout, n, o);
          return;
        }
        if failed.Some? && backoffLimit.Some? && failed.value > backoffLimit.value {
          o := Outcome(PodError(failed.value), polls);
          assert Decides(c, start, timeout, n, o);
          return;
        }
    }
  }

  /** Clock and readings leave one outcome only. */
  lemma OneEnding(c: Cluster, start: real, timeout: int, o1: Outcome, o2: Outcome)
    requires Ends(c, start, timeout, o1) && Ends(c, start, timeout, o2)
    ensures o1 == o2
  {
    var n1: nat :| Decides(c, start, timeout, n1, o1);
    var n2: nat :| Decides(c, start, timeout, n2, o2);
    assert n1 == n2;
  }

  /** At most floor(timeout / interval) + 1 reads, whatever the job does. */
  lemma PollBound(c: Cluster, start: real, timeout: nat, interval: int, o: Outcome)
    requires 0 < interval && Paced(c, start, interval) && Ends(c, start, timeout, o)
    ensures o.polls <= timeout / interval + 1
  {
    if o.polls > 0 {
      RoundInTime(c, start, timeout, interval, o.polls - 1);
      DivideBound(o.polls - 1, timeout, interval);
    }
  }

  lemma DivideBound(k: nat, t: nat, m: int)
    requires 0 < m && k * m <= t
    ensures k <= t / m
  {
    var q := t / m;
    assert t < (q + 1) * m;
    if q < k {
      MulMonotone(q + 1, k, m);
    }
  }

  lemma MulMonotone(a: int, b: int, m: int)
    requires a <= b && 0 < m
    ensures a * m <= b * m
  {
    assert (b - a) * m >= 0;
  }

  /** A job that never gets a status, on a clock that only sleeps. */
  function Idle(interval: int): Cluster {
    Cluster((k: nat) => (k * interval) as real, (k: nat) => NoStatus)
  }

  lemma IdleIsPaced(interval: int)
    ensures Paced(Idle(interval), 0.0, interval)
  {
    forall k: nat
      ensures Idle(interval).clock(k) + interval as real <= Idle(interval).clock(k + 1)
    {
      assert (k + 1) * interval == k * interval + interval;
    }
  }

  lemma IdleRound(interval: int, timeout: nat, k: nat)
    requires 0 < interval
    ensures k <= timeout / interval ==> Idle(interval).clock(k) <= timeout as real
    ensures k > timeout / interval ==> Idle(interval).clock(k) > timeout as real
  {
    var q := timeout / interval;
    if k <= q {
      MulMonotone(k, q, interval);
    } else {
      MulMonotone(q + 1, k, interval);
      assert (q + 1) * interval == q * interval + interval;
    }
  }

  /** The bound is exact: such a job is read that often. */
  lemma PollBoundIsReached(timeout: nat, interval: int)
    requires 0 < interval
    ensures Paced(Idle(interval), 0.0, interval)
    ensures Ends(Idle(interval), 0.0, timeout, Outcome(TimeoutError, timeout / interval + 1))
  {
    var c, n := Idle(interval), timeout / interval + 1;
    IdleIsPaced(interval);
    forall k: nat
      ensures k < n ==> c.clock(k) - 0.0 <= timeout as real
    {
      IdleRound(interval, timeout, k);
    }
    IdleRound(interval, timeout, n);
    assert Decides(c, 0.0, timeout, n, Outcome(TimeoutError, n));
  }

  /** `run_job` waits ten minutes at five-second intervals: 121 reads at most, and no fewer if nothing happens. */
  lemma RunJobPolls(c: Cluster, start: real, o: Outcome)
    requires Paced(c, start, CHECK_INTERVAL) && Ends(c, start, RUN_JOB_TIMEOUT, o)
    ensures o.polls <= 121
    ensures exists idle: Cluster ::
      Paced(idle, 0.0, CHECK_INTERVAL) && Ends(idle, 0.0, RUN_JOB_TIMEOUT, Outcome(TimeoutError, 121))
  {
    PollBound(c, start, RUN_JOB_TIMEOUT, CHECK_INTERVAL, o);
    PollBoundIsReached(RUN_JOB_TIMEOUT, CHECK_INTERVAL);
  }

  /** Every read takes at most `read` and every sleep at most the interval, which it has to last at least (Paced);
      nothing else takes time. */
  ghost predicate Prompt(c: Cluster, start: real, interval: int, read: real) {
    && c.clock(0) == start
    && forall k: nat :: c.clock(k + 1) <= c.clock(k) + read + interval as real
  }

  /** A timeout is reported late by at most one read and one sleep. */
  lemma TimeoutIsPrompt(c: Cluster, start: real, timeout: nat, interval: int, read: real, o: Outcome)
    requires 0 < interval && Prompt(c, start, interval, read)
    requires Ends(c, start, timeout, o) && o.ending == TimeoutError
    ensures timeout as real < c.clock(o.polls) - start <= timeout as real + interval as real + read
  {
    var n: nat :| Decides(c, start, timeout, n, o);
    assert n > 0;
    assert c.clock((n - 1) + 1) <= c.clock(n - 1) + read + interval as real;
  }

  /** The job has been seen to succeed. */
  ghost predicate Succeeded(r: Reading) {
    r.Job? && r.succeeded.Some? && r.succeeded.value >= 1
  }

  /** The job has not succeeded, and more of its pods have failed than its limit allows. */
  ghost predicate Failed(r: Reading) {
    && r.Job? && (r.succeeded.Some? ==> r.succeeded.value < 1)
    && r.failed.Some? && r.backoffLimit.Some? && r.failed.value > r.backoffLimit.value
  }

  /** Not there yet (404), no status yet, or neither of the two above: nothing to end the wait. */
  ghost predicate Open(r: Reading) {
    r == ApiError(404) || r == NoStatus || (r.Job? && !Succeeded(r) && !Failed(r))
  }

  /** Every reading is one of the four, and only the open ones are waited out. */
  lemma ReadingsByKind(r: Reading)
    ensures Undecided(r) <==> Open(r)
    ensures Complete(r) <==> Succeeded(r)
    ensures Failed(r) <==> !Complete(r) && BackoffExceeded(r)
  {
  }

  /** From elapsed time `since` on, every reading of the job is of the given kind. */
  ghost predicate ForGood(c: Cluster, start: real, since: real, kind: Reading -> bool) {
    forall k: nat | since <= c.clock(k) - start :: kind(c.reading(k))
  }

  /** Before it, every reading is of that kind or open. */
  ghost predicate NothingElse(c: Cluster, start: real, since: real, kind: Reading -> bool) {
    forall k: nat | c.clock(k) - start < since :: kind(c.reading(k)) || Open(c.reading(k))
  }

  /** Round n is still in time if the round before it was undecided. */
  lemma UndecidedMeansEarly(
      c: Cluster, start: real, timeout: nat, interval: int, read: real, since: real, kind: Reading -> bool, n: nat)
    requires 0 < interval && Prompt(c, start, interval, read) && ForGood(c, start, since, kind)
    requires forall r | kind(r) :: !Open(r)
    requires since <= timeout as real - interval as real - read
    requires n > 0 ==> Open(c.reading(n - 1))
    ensures c.clock(n) - start <= timeout as real
  {
    if n > 0 {
      assert c.clock(n - 1) - start < since;
      assert c.clock((n - 1) + 1) <= c.clock(n - 1) + read + interval as real;
    }
  }

  /** What lasts from one read and one interval before the timeout on decides the wait. */
  lemma LastingIsSeen(
      c: Cluster, start: real, timeout: nat, interval: int, read: real, since: real, kind: Reading -> bool, o: Outcome)
    returns (n: nat)
    requires 0 < interval && Prompt(c, start, interval, read)
    requires since <= timeout as real - interval as real - read
    requires ForGood(c, start, since, kind) && NothingElse(c, start, since, kind)
    requires forall r | kind(r) :: !Open(r)
    requires Ends(c, start, timeout, o)
    ensures Decides(c, start, timeout, n, o) && o.ending != TimeoutError && kind(c.reading(n))
  {
    n :| Decides(c, start, timeout, n, o);
    if n > 0 {
      ReadingsByKind(c.reading(n - 1));
    }
    UndecidedMeansEarly(c, start, timeout, interval, read, since, kind, n);
    ReadingsByKind(c.reading(n));
    assert kind(c.reading(n)) || Open(c.reading(n));
  }

  /** A job that has succeeded for good one read and one interval before the timeout is seen to succeed. */
  lemma SuccessIsSeen(c: Cluster, start: real, timeout: nat, interval: int, read: real, since: real, o: Outcome)
    requires 0 < interval && Prompt(c, start, interval, read)
    requires since <= timeout as real - interval as real - read
    requires ForGood(c, start, since, r => Succeeded(r)) && NothingElse(c, start, since, r => Succeeded(r))
    requires Ends(c, start, timeout, o)
    ensures o.ending == Completed
  {
    var n := LastingIsSeen(c, start, timeout, interval, read, since, r => Succeeded(r), o);
    ReadingsByKind(c.reading(n));
  }

  /** A job that has failed for good by then is seen to fail. */
  lemma FailureIsSeen(c: Cluster, start: real, timeout: nat, interval: int, read: real, since: real, o: Outcome)
    requires 0 < interval && Prompt(c, start, interval, read)
    requires since <= timeout as real - interval as real - read
    requires ForGood(c, start, since, r => Failed(r)) && NothingElse(c, start, since, r => Failed(r))
    requires Ends(c, start, timeout, o)
    ensures o.polls > 0 && o.ending == PodError(c.reading(o.polls - 1).failed.value)
  {
    var n := LastingIsSeen(c, start, timeout, interval, read, since, r => Failed(r), o);
    ReadingsByKind(c.reading(n));
  }

  /** An error of the API is passed on at once, unless it is a 404, which is waited out. */
  lemma OtherErrorsEndTheWait(c: Cluster, start: real, timeout: nat, n: nat, status: int, o: Outcome)
    requires Ends(c, start, timeout, o)
    requires forall k | 0 <= k <= n :: c.clock(k) - start <= timeout as real
    requires (forall k | 0 <= k < n :: Open(c.reading(k))) && c.reading(n) == ApiError(status)
    ensures if status == 404 then o.polls > n + 1 || o.ending == TimeoutError
            else o == Outcome(ApiException(status), n + 1)
  {
    var m: nat :| Decides(c, start, timeout, m, o);
    ReadingsByKind(c.reading(m));
    ReadingsByKind(c.reading(n));
  }
}
