/** Runs of the login rate limiter (src/admin/loginRateLimiter.ts). */
module LoginRateLimiterProperties {
  import opened Seqs
  import opened LoginRateLimiter

  datatype Op =
    | Check(key: string, now: int)
    | Failure(key: string, now: int)
    | Success(key: string, now: int)

  function Step(st: State, op: Op): State {
    match op
    case Check(key, now) => Checked(st, key, now).0
    case Failure(key, now) => Failed(st, key, now)
    case Success(key, _) => Succeeded(st, key)
  }

  function Answer(st: State, op: Op): Option<Decision> {
    match op
    case Check(key, now) => Some(Checked(st, key, now).1)
    case _ => None
  }

  function Run(ops: seq<Op>): State {
    if ops == [] then FRESH else Step(Run(ops[..|ops| - 1]), ops[|ops| - 1])
  }

  /** A clock that starts at zero or later and never runs backwards. */
  predicate Clocked(ops: seq<Op>) {
    ops == [] || (Clocked(ops[..|ops| - 1]) && Clock(ops[..|ops| - 1]) <= ops[|ops| - 1].now)
  }

  function Clock(ops: seq<Op>): int {
    if ops == [] then 0 else ops[|ops| - 1].now
  }

  lemma {:induction false} ClockIsNonNegative(ops: seq<Op>)
    requires Clocked(ops)
    ensures Clock(ops) >= 0
  {
    if ops != [] {
      ClockIsNonNegative(ops[..|ops| - 1]);
    }
  }

  // ---------------------------------------------------------------------------
  // Sweeping is unobservable
  // ---------------------------------------------------------------------------

  /** The same limiter without `maybeSweep`. */
  function UnsweptStep(st: State, op: Op): State {
    match op
    case Check(key, now) => Looked(st, key, now).0
    case Failure(key, now) => Failed(st, key, now)
    case Success(key, _) => Succeeded(st, key)
  }

  function UnsweptAnswer(st: State, op: Op): Option<Decision> {
    match op
    case Check(key, now) => Some(Looked(st, key, now).1)
    case _ => None
  }

  function UnsweptRun(ops: seq<Op>): State {
    if ops == [] then FRESH else UnsweptStep(UnsweptRun(ops[..|ops| - 1]), ops[|ops| - 1])
  }

  /** An entry that no later check or failure can tell from an absent one. */
  predicate Forgotten(e: RateLimitEntry, now: int) {
    now - e.lastFailureAt > WINDOW_MS && now >= e.lockedUntil
  }

  ghost predicate SameButForgotten(swept: Table, unswept: Table, now: int) {
    && (forall k | k in swept :: k in unswept && unswept[k] == swept[k])
    && (forall k | k in unswept :: k in swept || Forgotten(unswept[k], now))
  }

  lemma StepKeepsSame(st: State, un: State, op: Op, clock: int)
    requires SameButForgotten(st.entries, un.entries, clock) && clock <= op.now
    ensures SameButForgotten(Step(st, op).entries, UnsweptStep(un, op).entries, op.now)
    ensures Answer(st, op) == UnsweptAnswer(un, op)
  {
    if op.Check? {
      assert SameButForgotten(Swept(st, op.now).entries, un.entries, op.now);
    } else if op.Failure? && op.key !in st.entries && op.key in un.entries {
      assert AfterFailure(Some(un.entries[op.key]), op.now) == AfterFailure(None, op.now);
    }
  }

  lemma {:induction false} SweepKeepsSame(ops: seq<Op>)
    requires Clocked(ops)
    ensures SameButForgotten(Run(ops).entries, UnsweptRun(ops).entries, Clock(ops))
  {
    if ops != [] {
      SweepKeepsSame(ops[..|ops| - 1]);
      StepKeepsSame(Run(ops[..|ops| - 1]), UnsweptRun(ops[..|ops| - 1]), ops[|ops| - 1], Clock(ops[..|ops| - 1]));
    }
  }

  /** Over every run every check is answered as a limiter that never sweeps answers it. */
  lemma SweepIsUnobservable(ops: seq<Op>, op: Op)
    requires Clocked(ops) && Clock(ops) <= op.now
    ensures Answer(Run(ops), op) == UnsweptAnswer(UnsweptRun(ops), op)
  {
    SweepKeepsSame(ops);
    StepKeepsSame(Run(ops), UnsweptRun(ops), op, Clock(ops));
  }

  /** A blocked key that only waits is allowed again exactly when the time it was told has passed. */
  lemma RetryAfterIsExact(st: State, key: string, now: int, later: int)
    requires Checked(st, key, now).1.Blocked? && now <= later
    ensures var (after, decision) := Checked(st, key, now);
            Checked(after, key, later).1.Allowed? <==> later >= now + decision.retryAfterMs
  {
    var lockedUntil := Swept(st, now).entries[key].lockedUntil;
    assert Checked(st, key, now).0.entries[key].lockedUntil == lockedUntil;
  }

  // ---------------------------------------------------------------------------
  // A lockout is never shortened
  // ---------------------------------------------------------------------------

  /** No lockout outlives its last failure by more than the cap. */
  ghost predicate Capped(entries: Table, clock: int) {
    forall k | k in entries :: 0 <= entries[k].lastFailureAt <= clock && entries[k].lockedUntil <= entries[k].lastFailureAt + MAX_LOCKOUT_MS
  }

  lemma {:induction false} LockoutsAreCapped(ops: seq<Op>)
    requires Clocked(ops)
    ensures Capped(Run(ops).entries, Clock(ops))
  {
    ClockIsNonNegative(ops);
    if ops != [] {
      LockoutsAreCapped(ops[..|ops| - 1]);
    }
  }

  /** At any point of any run, recording a failure keeps or extends the lockout in force. */
  lemma FailureNeverShortens(ops: seq<Op>, key: string, now: int)
    requires Clocked(ops) && Clock(ops) <= now && IsBlocked(Run(ops), key, now)
    ensures Failed(Run(ops), key, now).entries[key].lockedUntil >= Run(ops).entries[key].lockedUntil
  {
    LockoutsAreCapped(ops);
  }

  // ---------------------------------------------------------------------------
  // Nine failures a window
  // ---------------------------------------------------------------------------

  /** One recorded failure of the key: when, and the count it brought the entry to. */
  datatype Mark = Mark(at: int, count: nat)

  /** The failures recorded for `key` since its last success. */
  function Marks(ops: seq<Op>, key: string): seq<Mark> {
    if ops == [] then []
    else
      var front, op := ops[..|ops| - 1], ops[|ops| - 1];
      if op.key != key || op.Check? then Marks(front, key)
      else if op.Success? then []
      else Marks(front, key) + [Mark(op.now, Run(ops).entries[key].failures)]
  }

  /** Every failure of `key` is recorded at a time the limiter allows. */
  predicate Obedient(ops: seq<Op>, key: string) {
    ops == [] || (
      && Obedient(ops[..|ops| - 1], key)
      && var op := ops[|ops| - 1];
         op.Failure? && op.key == key ==> !IsBlocked(Run(ops[..|ops| - 1]), key, op.now))
  }

  function LockAfter(count: nat): int {
    if count < MAX_FAILURES_BEFORE_LOCKOUT then 0 else Lockout(count)
  }

  predicate Follows(m: Mark, next: Mark) {
    && m.at + LockAfter(m.count) <= next.at
    && next.count == if next.at - m.at <= WINDOW_MS then m.count + 1 else 1
  }

  predicate Chained(marks: seq<Mark>) {
    forall i {:trigger marks[i]} :: 0 <= i < |marks| - 1 ==> Follows(marks[i], marks[i + 1])
  }

  /** What the entry (or its absence) says about the last recorded failure. */
  predicate Reflects(entries: Table, key: string, marks: seq<Mark>, clock: int) {
    if key in entries then
      && marks != []
      && var m, e := marks[|marks| - 1], entries[key];
         && e.lastFailureAt == m.at <= clock && e.failures == m.count >= 1
         && (m.count >= MAX_FAILURES_BEFORE_LOCKOUT ==> e.lockedUntil >= m.at + LockAfter(m.count))
    else
      marks != [] ==> clock - marks[|marks| - 1].at > WINDOW_MS
  }

  lemma {:induction false} MarksChain(ops: seq<Op>, key: string)
    requires Clocked(ops) && Obedient(ops, key)
    ensures Chained(Marks(ops, key)) && Reflects(Run(ops).entries, key, Marks(ops, key), Clock(ops))
  {
    ClockIsNonNegative(ops);
    if ops != [] {
      var front, op := ops[..|ops| - 1], ops[|ops| - 1];
      MarksChain(front, key);
      if op.Failure? && op.key == key && Marks(front, key) != [] {
        var m := Marks(front, key)[|Marks(front, key)| - 1];
        assert LockAfter(m.count) <= WINDOW_MS;
        assert Follows(m, Mark(op.now, Run(ops).entries[key].failures));
      }
    }
  }

  lemma Pow2Values()
    ensures Pow2(0) == 1 && Pow2(1) == 2 && Pow2(2) == 4 && Pow2(3) == 8 && Pow2(4) == 16
  {
  }

  lemma {:induction false} Pow2Grows(m: nat, n: nat)
    requires m <= n
    ensures Pow2(m) <= Pow2(n)
  {
    if m < n {
      Pow2Grows(m, n - 1);
    }
  }

  lemma LockAtLeast(count: nat, floor: nat)
    requires MAX_FAILURES_BEFORE_LOCKOUT <= floor <= count
    ensures LockAfter(count) >= LockAfter(floor)
  {
    Pow2Grows(floor - MAX_FAILURES_BEFORE_LOCKOUT, count - MAX_FAILURES_BEFORE_LOCKOUT);
  }

  lemma {:induction false} MarksOrdered(marks: seq<Mark>, i: nat, j: nat)
    requires Chained(marks) && i <= j < |marks|
    ensures marks[i].at <= marks[j].at
  {
    if i < j {
      MarksOrdered(marks, i, j - 1);
      assert Follows(marks[j - 1], marks[j]);
    }
  }

  /** Within one window the counts rise by one a failure. */
  lemma {:induction false} CountsRise(marks: seq<Mark>, i: nat, j: nat)
    requires Chained(marks) && i <= j < |marks| && marks[j].at - marks[i].at <= WINDOW_MS
    ensures marks[j].count == marks[i].count + (j - i)
  {
    if i < j {
      MarksOrdered(marks, i, j - 1);
      MarksOrdered(marks, j - 1, j);
      CountsRise(marks, i, j - 1);
      assert Follows(marks[j - 1], marks[j]);
      hide LockAfter, Chained;
    }
  }

  /** Within a window that starts with failure `i`, the wait after failure `m` is at least the lockout of its count. */
  lemma GapAt(marks: seq<Mark>, i: nat, m: nat, j: nat)
    requires Chained(marks) && i + 4 <= m < j < |marks| && marks[i].count >= 1
    requires marks[j].at - marks[i].at <= WINDOW_MS
    ensures marks[m].at + LockAfter(m - i + 1) <= marks[m + 1].at
  {
    assert MAX_FAILURES_BEFORE_LOCKOUT == 5;
    hide *;
    NextFollows(marks, m);
    MarksOrdered(marks, m, j);
    CountsRise(marks, i, m);
    LockAtLeast(marks[m].count, m - i + 1);
  }

  lemma NextFollows(marks: seq<Mark>, m: nat)
    requires Chained(marks) && m + 1 < |marks|
    ensures marks[m].at + LockAfter(marks[m].count) <= marks[m + 1].at
  {
    assert Follows(marks[m], marks[m + 1]);
    hide LockAfter;
  }

  lemma LockoutsAddUp(marks: seq<Mark>, i: nat)
    requires Chained(marks) && i + 9 < |marks| && marks[i].count >= 1
    ensures marks[i + 9].at - marks[i].at > WINDOW_MS
  {
    if marks[i + 9].at - marks[i].at <= WINDOW_MS {
      MarksOrdered(marks, i, i + 4);
      LockoutValues();
      assert forall n: nat | 5 <= n :: LockAfter(n) == Lockout(n);
      hide Chained, Lockout;
      GapAt(marks, i, i + 4, i + 9);
      GapAt(marks, i, i + 5, i + 9);
      GapAt(marks, i, i + 6, i + 9);
      GapAt(marks, i, i + 7, i + 9);
      GapAt(marks, i, i + 8, i + 9);
    }
  }

  lemma LockoutValues()
    ensures Lockout(5) == 30_000 && Lockout(6) == 60_000 && Lockout(7) == 120_000 && Lockout(8) == 240_000 && Lockout(9) == 480_000
  {
    Pow2Values();
    hide Pow2;
  }

  lemma {:induction false} CountsArePositive(ops: seq<Op>, key: string, i: nat)
    requires i < |Marks(ops, key)|
    ensures Marks(ops, key)[i].count >= 1
  {
    var front := ops[..|ops| - 1];
    if i < |Marks(front, key)| {
      CountsArePositive(front, key, i);
    }
  }

  /**
   * In every run in which the key's failures are recorded only when allowed,
   * ten of them without a success span more than 15 minutes, however many
   * checks, sweeps and other keys come between.
   */
  lemma AtMostNineFailuresPerWindow(ops: seq<Op>, key: string, i: nat)
    requires Clocked(ops) && Obedient(ops, key) && i + 9 < |Marks(ops, key)|
    ensures Marks(ops, key)[i + 9].at - Marks(ops, key)[i].at > WINDOW_MS
  {
    MarksChain(ops, key);
    CountsArePositive(ops, key, i);
    LockoutsAddUp(Marks(ops, key), i);
  }

  /** The entry after failures recorded at these times, all for one key. */
  function EntryAfter(times: seq<int>): Option<RateLimitEntry> {
    if times == [] then None else Some(AfterFailure(EntryAfter(times[..|times| - 1]), times[|times| - 1]))
  }

  function FailuresAt(key: string, times: seq<int>): seq<Op> {
    if times == [] then [] else FailuresAt(key, times[..|times| - 1]) + [Failure(key, times[|times| - 1])]
  }

  /** One more failure of a run of failures, allowed at its time. */
  lemma OneMoreFailure(key: string, times: seq<int>, now: int)
    requires Clocked(FailuresAt(key, times)) && Obedient(FailuresAt(key, times), key)
    requires Find(Run(FailuresAt(key, times)).entries, key) == EntryAfter(times)
    requires Clock(FailuresAt(key, times)) <= now && (EntryAfter(times).Some? ==> EntryAfter(times).value.lockedUntil <= now)
    ensures var more := FailuresAt(key, times + [now]);
            && Clocked(more) && Obedient(more, key) && Clock(more) == now
            && Find(Run(more).entries, key) == EntryAfter(times + [now]) == Some(AfterFailure(EntryAfter(times), now))
            && Marks(more, key) == Marks(FailuresAt(key, times), key) + [Mark(now, AfterFailure(EntryAfter(times), now).failures)]
  {
    InitOfPush(times, now);
    InitOfPush(FailuresAt(key, times), Failure(key, now));
  }

  /** These failures are allowed, all in one window from time 0 on, and leave an unaudited entry. */
  predicate Reached(key: string, times: seq<int>, count: nat, last: int, lockedUntil: int) {
    var ops := FailuresAt(key, times);
    && count >= 1 && Clocked(ops) && Obedient(ops, key) && Clock(ops) == last
    && Find(Run(ops).entries, key) == EntryAfter(times) == Some(RateLimitEntry(count, last, lockedUntil, 0))
    && |Marks(ops, key)| == count && Marks(ops, key)[0].at == 0 && Marks(ops, key)[count - 1].at == last
  }

  lemma FirstFailure(key: string)
    ensures Reached(key, [] + [0], 1, 0, 0)
  {
    OneMoreFailure(key, [], 0);
    assert Marks([], key) == [] && AfterFailure(None, 0) == RateLimitEntry(1, 0, 0, 0);
    hide FailuresAt, Clocked, Obedient, Run, Marks, Find;
  }

  lemma NextFailure(key: string, times: seq<int>, count: nat, last: int, lockedUntil: int, now: int, lock: int)
    requires Reached(key, times, count, last, lockedUntil) && 0 <= now - last <= WINDOW_MS && lockedUntil <= now
    requires lock == if count + 1 >= MAX_FAILURES_BEFORE_LOCKOUT then now + Lockout(count + 1) else lockedUntil
    ensures Reached(key, times + [now], count + 1, now, lock)
  {
    var e := RateLimitEntry(count, last, lockedUntil, 0);
    assert Pow2(0) > 0;
    assert AfterFailure(Some(e), now) == RateLimitEntry(count + 1, now, lock, 0) by {
      hide Pow2, Reached;
    }
    OneMoreFailure(key, times, now);
    hide EntryAfter, FailuresAt, Clocked, Obedient, Run, Marks, Find, AfterFailure;
  }

  /** Nine failures within one window do occur: the bound is exact. */
  lemma NineFailuresAreReachable(key: string)
    ensures var ops := FailuresAt(key, [] + [0] + [0] + [0] + [0] + [0] + [30_000] + [90_000] + [210_000] + [450_000]);
            && Clocked(ops) && Obedient(ops, key)
            && |Marks(ops, key)| == 9 && Marks(ops, key)[8].at - Marks(ops, key)[0].at <= WINDOW_MS
  {
    var four := [] + [0] + [0] + [0] + [0];
    var nine := four + [0] + [30_000] + [90_000] + [210_000] + [450_000];
    ReachesNine(key);
    assert Reached(key, nine, 9, 450_000, 930_000);
    hide FailuresAt, Clocked, Obedient, Run, Marks, Find, EntryAfter;
  }

  lemma ReachesNine(key: string)
    ensures var four := [] + [0] + [0] + [0] + [0];
            Reached(key, four + [0] + [30_000] + [90_000] + [210_000] + [450_000], 9, 450_000, 930_000)
  {
    assert WINDOW_MS == 900_000 && MAX_FAILURES_BEFORE_LOCKOUT == 5;
    hide *;
    FirstFailure(key);
    LockoutValues();
    NextFailure(key, [] + [0], 1, 0, 0, 0, 0);
    NextFailure(key, [] + [0] + [0], 2, 0, 0, 0, 0);
    NextFailure(key, [] + [0] + [0] + [0], 3, 0, 0, 0, 0);
    var four := [] + [0] + [0] + [0] + [0];
    NextFailure(key, four, 4, 0, 0, 0, 30_000);
    NextFailure(key, four + [0], 5, 0, 30_000, 30_000, 90_000);
    NextFailure(key, four + [0] + [30_000], 6, 30_000, 90_000, 90_000, 210_000);
    NextFailure(key, four + [0] + [30_000] + [90_000], 7, 90_000, 210_000, 210_000, 450_000);
    NextFailure(key, four + [0] + [30_000] + [90_000] + [210_000], 8, 210_000, 450_000, 450_000, 930_000);
  }

  // ---------------------------------------------------------------------------
  // One audit per lockout window
  // ---------------------------------------------------------------------------

  predicate IsBlockedCheck(st: State, op: Op, key: string) {
    op.Check? && op.key == key && IsBlocked(st, key, op.now)
  }

  /** The key's lockout window is still the same after a step. */
  predicate SameWindow(before: State, after: State, key: string) {
    key in before.entries && key in after.entries && before.entries[key].lockedUntil == after.entries[key].lockedUntil
  }

  /** Some check of the key's current lockout window was already blocked. */
  predicate AlreadyBlocked(ops: seq<Op>, key: string) {
    ops != [] &&
      var front, op := ops[..|ops| - 1], ops[|ops| - 1];
      SameWindow(Run(front), Run(ops), key) && (AlreadyBlocked(front, key) || IsBlockedCheck(Run(front), op, key))
  }

  lemma {:induction false} AuditedMeansBlockedBefore(ops: seq<Op>, key: string)
    requires Clocked(ops)
    ensures key in Run(ops).entries ==>
              var e := Run(ops).entries[key];
              0 <= e.lockedUntil && (e.lockedUntil > 0 ==> (e.auditedLockedUntil == e.lockedUntil <==> AlreadyBlocked(ops, key)))
  {
    ClockIsNonNegative(ops);
    if ops != [] {
      AuditedMeansBlockedBefore(ops[..|ops| - 1], key);
    }
  }

  /** A blocked check is reported as the first one exactly when no earlier check of the same lockout window was blocked. */
  lemma FirstBlockedExactlyOnce(ops: seq<Op>, key: string, now: int)
    requires Clocked(ops) && Clock(ops) <= now && Checked(Run(ops), key, now).1.Blocked?
    ensures Checked(Run(ops), key, now).1.firstBlocked <==> !AlreadyBlocked(ops, key)
    ensures AlreadyBlocked(ops + [Check(key, now)], key)
  {
    ClockIsNonNegative(ops);
    AuditedMeansBlockedBefore(ops, key);
    InitOfPush(ops, Check(key, now));
  }
}
