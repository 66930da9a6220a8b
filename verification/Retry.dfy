/** How often a failing step is attempted, as `_failure_attempts` in `impl/lnpl/backend.py` predicts
    it at compile time. */
module Retry {
  import opened Wrappers
  import opened Text
  import opened Workflow
  import opened Attempts

  function BackoffSum(attempts: nat): nat {
    if attempts == 0 then 0 else BackoffSum(attempts - 1) + BackoffMs(attempts)
  }

  // ---- The loop ------------------------------------------------------------------------

  // What the loop reads: the clock before the step, each attempt's cost, the budget, the deadline.
  datatype Budget = Budget(start: int, cost: int, retry: int, timeout: Option<int>)

  /** The clock when attempt `k` has failed. */
  function ClockAt(b: Budget, k: nat): int
    requires k >= 1
  {
    b.start + k * b.cost + BackoffSum(k - 1)
  }

  /** No attempt follows attempt `k`. */
  predicate Stops(b: Budget, k: nat)
    requires k >= 1
  {
    || k >= MAX_STEP_ATTEMPTS
    || k > b.retry
    || (b.timeout.Some? && ClockAt(b, k) + BackoffMs(k) >= b.timeout.value)
  }

  function LastAttempt(b: Budget, k: nat): (last: nat)
    requires 1 <= k <= MAX_STEP_ATTEMPTS
    ensures k <= last <= MAX_STEP_ATTEMPTS && Stops(b, last)
    ensures forall j :: k <= j < last ==> !Stops(b, j)
    decreases MAX_STEP_ATTEMPTS - k
  {
    if Stops(b, k) then k else LastAttempt(b, k + 1)
  }

  lemma ClockSteps(b: Budget, k: nat)
    requires k >= 1
    ensures ClockAt(b, 1) == b.start + b.cost
    ensures ClockAt(b, k + 1) == ClockAt(b, k) + BackoffMs(k) + b.cost
  {
    assert (k + 1) * b.cost == k * b.cost + b.cost;
  }

  // ---- What the loop gives -------------------------------------------------------------

  /** The result is the first attempt that stops. */
  lemma FirstStop(b: Budget, k: nat)
    requires 1 <= k <= MAX_STEP_ATTEMPTS && Stops(b, k)
    requires forall j :: 1 <= j < k ==> !Stops(b, j)
    ensures LastAttempt(b, 1) == k
  {
  }

  /** Without a timeout: the initial attempt and the declared budget, under the ceiling. */
  lemma AttemptsWithoutTimeout(start: int, cost: int, retry: int)
    requires retry >= 0
    ensures LastAttempt(Budget(start, cost, retry, None), 1)
         == if retry + 1 < MAX_STEP_ATTEMPTS then retry + 1 else MAX_STEP_ATTEMPTS
  {
    var b := Budget(start, cost, retry, None);
    FirstStop(b, if retry + 1 < MAX_STEP_ATTEMPTS then retry + 1 else MAX_STEP_ATTEMPTS);
  }

  /** A budget that stops wherever another one does gives no more attempts. */
  lemma StopsEarlier(b: Budget, c: Budget)
    requires forall k :: 1 <= k <= MAX_STEP_ATTEMPTS && Stops(c, k) ==> Stops(b, k)
    ensures LastAttempt(b, 1) <= LastAttempt(c, 1)
  {
    assert Stops(b, LastAttempt(c, 1));
  }

  predicate NoLater(s: Option<int>, t: Option<int>) {
    t.None? || (s.Some? && s.value <= t.value)
  }

  lemma ClockAscends(b: Budget, c: Budget, k: nat)
    requires k >= 1 && b.start >= c.start && b.cost >= c.cost
    ensures ClockAt(b, k) >= ClockAt(c, k)
  {
    assert k * b.cost >= k * c.cost by { assert k * (b.cost - c.cost) >= 0; }
  }

  /** More retries, a later deadline, fewer steps before and a cheaper attempt never mean fewer
      attempts. */
  lemma AttemptsMonotone(b: Budget, c: Budget)
    requires b.retry <= c.retry && NoLater(b.timeout, c.timeout) && b.start >= c.start && b.cost >= c.cost
    ensures LastAttempt(b, 1) <= LastAttempt(c, 1)
  {
    forall k | 1 <= k <= MAX_STEP_ATTEMPTS && Stops(c, k) ensures Stops(b, k) {
      ClockAscends(b, c, k);
    }
    StopsEarlier(b, c);
  }

  lemma {:induction false} BackoffSumFrom5(k: nat)
    requires k >= 4
    ensures BackoffSum(k) == 1500 + 1000 * (k - 4)
  {
    if k == 4 {
      assert BackoffMs(1) == 100 && BackoffMs(2) == 200 && BackoffMs(3) == 400 && BackoffMs(4) == 800;
      assert BackoffSum(3) == 700;
    } else {
      BackoffSumFrom5(k - 1);
      Pow2Grows(k - 1);
    }
  }

  lemma {:induction false} Pow2Grows(n: nat)
    requires n >= 4
    ensures Pow2(n) >= 16
  {
    if n == 4 {
      assert Pow2(3) == 8;
    } else {
      Pow2Grows(n - 1);
    }
  }

  lemma BackoffTaken(b: Budget, k: nat)
    requires k >= 1 && b.timeout.Some? && b.start >= 0 && b.cost >= 0 && !Stops(b, k)
    ensures BackoffSum(k) <= ClockAt(b, k) + BackoffMs(k) < b.timeout.value
  {
    assert BackoffSum(k) == BackoffSum(k - 1) + BackoffMs(k);
    hide BackoffMs, BackoffSum;
    assert k * b.cost >= 0;
  }

  /** With a deadline every backoff taken ends before it, so the number of attempts is bounded
      by the deadline. */
  lemma BackoffsFitTheDeadline(b: Budget)
    requires b.timeout.Some? && b.start >= 0 && b.cost >= 0
    ensures forall j :: 1 <= j < LastAttempt(b, 1) ==> ClockAt(b, j) + BackoffMs(j) < b.timeout.value
    ensures var k := LastAttempt(b, 1); k >= 5 ==> 1500 + 1000 * (k - 5) < b.timeout.value
  {
    hide BackoffMs, BackoffSum, ClockAt, LastAttempt;
    var k := LastAttempt(b, 1);
    forall j | 1 <= j < k ensures ClockAt(b, j) + BackoffMs(j) < b.timeout.value {
      BackoffTaken(b, j);
    }
    if k >= 5 {
      BackoffTaken(b, k - 1);
      BackoffSumFrom5(k - 1);
    }
  }

  /** The clock when the backoff after attempt `k` is over. */
  function AfterBackoff(b: Budget, k: nat): int {
    b.start + k * b.cost + BackoffSum(k)
  }

  lemma BackoffEnds(b: Budget, k: nat)
    requires k >= 1
    ensures AfterBackoff(b, k) == ClockAt(b, k) + BackoffMs(k)
  {
  }

  lemma {:induction false} BackoffsGrow(b: Budget, j: nat, k: nat)
    requires j <= k && b.cost >= 0
    ensures AfterBackoff(b, j) <= AfterBackoff(b, k)
  {
    if j < k {
      BackoffsGrow(b, j, k - 1);
      assert k * b.cost == (k - 1) * b.cost + b.cost;
    }
  }

  /** Attempt `n` is made exactly if the last backoff before it ends in time. */
  lemma ReachedExactly(b: Budget, n: nat)
    requires 1 <= n <= MAX_STEP_ATTEMPTS && b.cost >= 0 && b.timeout.Some?
    requires n <= LastAttempt(b.(timeout := None), 1)
    ensures n <= LastAttempt(b, 1) <==> n == 1 || AfterBackoff(b, n - 1) < b.timeout.value
  {
    hide AfterBackoff, BackoffSum, BackoffMs, ClockAt, LastAttempt;
    var free := b.(timeout := None);
    if n > 1 {
      BackoffEnds(b, n - 1);
      if AfterBackoff(b, n - 1) < b.timeout.value {
        forall j | 1 <= j < n ensures !Stops(b, j) {
          BackoffEnds(b, j);
          BackoffsGrow(b, j, n - 1);
          assert !Stops(free, j);
        }
        assert Stops(b, LastAttempt(b, 1));
      } else {
        assert Stops(b, n - 1);
      }
    }
  }

  // ---- The loop in milliseconds --------------------------------------------------------

  /** The backoff behind a number of failed attempts: 100, 200, 400 and 800 ms, a second each from then on. */
  function Waited(attempts: nat): nat {
    if attempts == 0 then 0
    else if attempts == 1 then 100
    else if attempts == 2 then 300
    else if attempts == 3 then 700
    else 1500 + 1000 * (attempts - 4)
  }

  lemma BackoffsAre(k: nat)
    ensures BackoffSum(k) == Waited(k)
  {
    if k >= 4 {
      BackoffSumFrom5(k);
    } else {
      assert BackoffMs(1) == 100 && BackoffMs(2) == 200 && BackoffMs(3) == 400;
      assert BackoffSum(0) == 0 && BackoffSum(1) == 100 && BackoffSum(2) == 300;
    }
  }

  /** The loop in plain numbers: whether it goes past attempt `m` is a matter of the clock alone. */
  lemma ReachesInMillis(b: Budget, m: nat)
    requires b.retry >= 1 && 1 <= m < 100 && m <= b.retry && b.cost >= 0
    ensures LastAttempt(b, 1) > m
       <==> b.timeout.None? || b.start + m * b.cost + Waited(m) < b.timeout.value
  {
    hide BackoffSum, LastAttempt, Waited;
    AttemptsWithoutTimeout(b.start, b.cost, b.retry);
    assert b.(timeout := None) == Budget(b.start, b.cost, b.retry, None);
    BackoffsAre(m);
    if b.timeout.Some? {
      ReachedExactly(b, m + 1);
    }
  }

  lemma BudgetBounds(b: Budget)
    requires b.retry >= 1 && b.cost >= 0
    ensures LastAttempt(b, 1) <= if b.retry < 100 then b.retry + 1 else 100
    ensures b.timeout.None? ==> LastAttempt(b, 1) == if b.retry < 100 then b.retry + 1 else 100
  {
    hide BackoffSum, LastAttempt, ClockAt;
    AttemptsWithoutTimeout(b.start, b.cost, b.retry);
    AttemptsMonotone(b, Budget(b.start, b.cost, b.retry, None));
  }

  lemma InPlainNumbers(effects: seq<Effect>, failAt: nat, stepsBefore: nat, retry: int, timeout: Option<int>,
                       attempts: nat)
    requires failAt < |effects|
    requires attempts == if retry <= 0 || !AllIdempotent(effects) then 1
                         else LastAttempt(Budget(STEP_COST_MS * stepsBefore, MissCost(effects[failAt]), retry,
                                                 timeout), 1)
    ensures var safe := forall k :: 0 <= k < |effects| ==>
              !effects[k].NetworkCall? && !effects[k].EventEmit?
              && !(effects[k].RepositoryCall? && effects[k].op.Create?);
            var most := if retry <= 0 || !safe then 1 else if retry < 100 then retry + 1 else 100;
            var failing := effects[failAt];
            var cost := if failing.RepositoryCall? && !failing.op.Query? && !failing.op.Create? then 1 else 0;
            && 1 <= attempts <= most
            && (timeout.None? ==> attempts == most)
            && forall m :: timeout.Some? && 1 <= m < most ==>
                 (attempts > m <==> 5 * stepsBefore + m * cost + Waited(m) < timeout.value)
  {
    hide LastAttempt, Waited, Stops;
    if retry >= 1 && AllIdempotent(effects) {
      var b := Budget(STEP_COST_MS * stepsBefore, MissCost(effects[failAt]), retry, timeout);
      BudgetBounds(b);
      forall m | 1 <= m < 100 && m <= retry
        ensures LastAttempt(b, 1) > m <==> b.timeout.None? || b.start + m * b.cost + Waited(m) < b.timeout.value
      {
        ReachesInMillis(b, m);
      }
    }
  }

  /** `_failure_attempts`: the step is retryable only if every effect it owns is idempotent. */
  method FailureAttempts(effects: seq<Effect>, failAt: nat, stepsBefore: nat, retry: int, timeout: Option<int>)
    returns (attempts: nat)
    requires failAt < |effects|
    ensures var safe := forall k :: 0 <= k < |effects| ==>
              !effects[k].NetworkCall? && !effects[k].EventEmit?
              && !(effects[k].RepositoryCall? && effects[k].op.Create?);
            var most := if retry <= 0 || !safe then 1 else if retry < 100 then retry + 1 else 100;
            var failing := effects[failAt];
            var cost := if failing.RepositoryCall? && !failing.op.Query? && !failing.op.Create? then 1 else 0;
            && 1 <= attempts <= most
            && (timeout.None? ==> attempts == most)
            && forall m :: timeout.Some? && 1 <= m < most ==>
                 (attempts > m <==> 5 * stepsBefore + m * cost + Waited(m) < timeout.value)
    ensures attempts == if retry <= 0 || !AllIdempotent(effects) then 1
                        else LastAttempt(Budget(STEP_COST_MS * stepsBefore, MissCost(effects[failAt]), retry,
                                                timeout), 1)
  {
    InPlainNumbers(effects, failAt, stepsBefore, retry, timeout,
                   if retry <= 0 || !AllIdempotent(effects) then 1
                   else LastAttempt(Budget(STEP_COST_MS * stepsBefore, MissCost(effects[failAt]), retry, timeout), 1));
    hide Waited;
    if retry <= 0 {
      return 1;
    }
    for k := 0 to |effects|
      invariant forall j :: 0 <= j < k ==> Idempotent(effects[j])
    {
      if !Idempotent(effects[k]) {
        return 1;
      }
    }
    var perAttempt := MissCost(effects[failAt]);
    var clock := STEP_COST_MS * stepsBefore;
    ghost var b := Budget(clock, perAttempt, retry, timeout);
    attempts := 1;
    ClockSteps(b, 1);
    hide ClockAt, BackoffMs;
    while true
      invariant 1 <= attempts <= MAX_STEP_ATTEMPTS
      invariant clock + perAttempt == ClockAt(b, attempts)
      invariant LastAttempt(b, 1) == LastAttempt(b, attempts)
      decreases MAX_STEP_ATTEMPTS - attempts
    {
      clock := clock + perAttempt;
      if attempts >= MAX_STEP_ATTEMPTS {
        return attempts;
      }
      if attempts > retry {
        return attempts;
      }
      if timeout.Some? && clock + BackoffMs(attempts) >= timeout.value {
        return attempts;
      }
      clock := clock + BackoffMs(attempts);
      ClockSteps(b, attempts);
      attempts := attempts + 1;
    }
  }
}
