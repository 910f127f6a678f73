/** The login rate limiter's answers, from a key's own failures alone (src/admin/loginRateLimiter.ts). */
module LoginHistory {
  import opened Seqs
  import opened LoginRateLimiter
  import opened LoginRateLimiterProperties

  /** The times of the key's failures since its last success. */
  function FailuresOf(ops: seq<Op>, key: string): seq<int> {
    if ops == [] then []
    else
      var before, op := FailuresOf(ops[..|ops| - 1], key), ops[|ops| - 1];
      match op
      case Check(_, _) => before
      case Failure(k, now) => if k == key then before + [now] else before
      case Success(k, _) => if k == key then [] else before
  }

  /** How long the n-th failure in a row locks the key, in milliseconds: nothing, then 30 seconds doubling up to 15 minutes. */
  function LockMs(n: nat): int {
    if n < 5 then 0
    else if n == 5 then 30_000
    else if n == 6 then 60_000
    else if n == 7 then 120_000
    else if n == 8 then 240_000
    else if n == 9 then 480_000
    else 900_000
  }

  /** How many failures in a row, each at most 15 minutes after the one before, these times end with. */
  function InARow(times: seq<int>): nat {
    if times == [] then 0
    else
      var front, last := times[..|times| - 1], times[|times| - 1];
      if front != [] && last - front[|front| - 1] <= 900_000 then InARow(front) + 1 else 1
  }

  /** Until when they lock the key: the latest end of the lockouts in that row. */
  function LockedUntil(times: seq<int>): int {
    if times == [] then 0
    else
      var front, last := times[..|times| - 1], times[|times| - 1];
      var before := if InARow(times) > 1 then LockedUntil(front) else 0;
      if InARow(times) >= 5 && last + LockMs(InARow(times)) > before then last + LockMs(InARow(times)) else before
  }

  lemma LockoutIs(n: nat)
    requires n >= 5
    ensures Lockout(n) == LockMs(n)
  {
    Pow2Values();
    assert Pow2(5) == 2 * Pow2(4);
    if n >= 10 {
      Pow2Grows(5, n - 5);
    }
    hide Pow2;
  }

  /** What a limiter that never sweeps holds of a key. */
  predicate Holds(entries: Table, key: string, times: seq<int>) {
    && (key in entries <==> times != [])
    && (key in entries ==>
          && entries[key].failures == InARow(times) && entries[key].lastFailureAt == times[|times| - 1]
          && entries[key].lockedUntil == LockedUntil(times))
  }

  lemma {:induction false} InARowPositive(times: seq<int>)
    ensures times != [] ==> InARow(times) >= 1
  {
  }

  lemma FailureHolds(st: State, key: string, times: seq<int>, now: int)
    requires Holds(st.entries, key, times)
    ensures Holds(Failed(st, key, now).entries, key, times + [now])
  {
    InitOfPush(times, now);
    InARowPositive(times);
    if InARow(times + [now]) >= 5 {
      LockoutIs(InARow(times + [now]));
    }
    hide Lockout, LockMs;
  }

  lemma OtherKeyHolds(st: State, op: Op, key: string, times: seq<int>)
    requires Holds(st.entries, key, times) && (op.Check? || op.key != key)
    ensures Holds(UnsweptStep(st, op).entries, key, times)
  {
    hide AfterFailure;
  }

  lemma {:induction false} HistoryHolds(ops: seq<Op>, key: string)
    ensures Holds(UnsweptRun(ops).entries, key, FailuresOf(ops, key))
  {
    if ops != [] {
      var front, op := ops[..|ops| - 1], ops[|ops| - 1];
      HistoryHolds(front, key);
      hide Holds;
      if op.Check? || op.key != key {
        OtherKeyHolds(UnsweptRun(front), op, key, FailuresOf(front, key));
      } else if op.Failure? {
        FailureHolds(UnsweptRun(front), key, FailuresOf(front, key), op.now);
      } else {
        assert Holds(Succeeded(UnsweptRun(front), key).entries, key, []) by {
          SuccessHolds(UnsweptRun(front), key);
        }
      }
    }
  }

  lemma SuccessHolds(st: State, key: string)
    ensures Holds(Succeeded(st, key).entries, key, [])
  {
  }

  /**
   * In every run, sweeps and all other keys included, a check of a key is
   * blocked exactly until its own failures since its last success end to lock
   * it, and is told exactly the time left.
   */
  lemma AnswersFollowHistory(ops: seq<Op>, key: string, now: int)
    requires Clocked(ops) && Clock(ops) <= now
    ensures var decision, until := Checked(Run(ops), key, now).1, LockedUntil(FailuresOf(ops, key));
            && (decision.Blocked? <==> now < until)
            && (decision.Blocked? ==> decision.retryAfterMs == until - now)
  {
    ClockIsNonNegative(ops);
    SweepIsUnobservable(ops, Check(key, now));
    HistoryHolds(ops, key);
    assert Answer(Run(ops), Check(key, now)) == Some(Checked(Run(ops), key, now).1);
    hide Run, UnsweptRun, LockedUntil, FailuresOf;
  }

  // ---------------------------------------------------------------------------
  // What is kept in memory
  // ---------------------------------------------------------------------------

  /** A check forgets an entry at most every five minutes, and then exactly when it is idle for over an hour and not locked. */
  lemma SweptExactly(st: State, key: string, now: int, other: string)
    requires other in st.entries
    ensures var due, e := now - st.lastSweepAt >= 300_000, st.entries[other];
            && (other in Checked(st, key, now).0.entries
                <==> !(due && now - e.lastFailureAt > 3_600_000 && now >= e.lockedUntil))
            && Checked(st, key, now).0.lastSweepAt == if due then now else st.lastSweepAt
  {
  }
}
