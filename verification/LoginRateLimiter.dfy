/** In-memory brute-force protection for the login endpoints (src/admin/loginRateLimiter.ts). */
module LoginRateLimiter {
  import opened Seqs

  const MAX_FAILURES_BEFORE_LOCKOUT := 5
  const WINDOW_MS := 15 * 60_000
  const BASE_LOCKOUT_MS := 30_000
  const MAX_LOCKOUT_MS := 15 * 60_000
  const ENTRY_TTL_MS := 60 * 60_000
  const SWEEP_INTERVAL_MS := 5 * 60_000

  datatype RateLimitEntry = RateLimitEntry(failures: nat, lastFailureAt: int, lockedUntil: int, auditedLockedUntil: int)

  datatype Decision = Allowed | Blocked(retryAfterMs: int, firstBlocked: bool)

  type Table = map<string, RateLimitEntry>

  datatype State = State(entries: Table, lastSweepAt: int)

  const FRESH := State(map[], 0)

  function Pow2(n: nat): (r: nat)
    ensures r > 0
  {
    if n == 0 then 1 else 2 * Pow2(n - 1)
  }

  function Lockout(failures: nat): int
    requires failures >= MAX_FAILURES_BEFORE_LOCKOUT
  {
    var backoff := BASE_LOCKOUT_MS * Pow2(failures - MAX_FAILURES_BEFORE_LOCKOUT);
    if backoff < MAX_LOCKOUT_MS then backoff else MAX_LOCKOUT_MS
  }

  function Find(entries: Table, key: string): Option<RateLimitEntry> {
    if key in entries then Some(entries[key]) else None
  }

  predicate WithinWindow(existing: Option<RateLimitEntry>, now: int) {
    existing.Some? && now - existing.value.lastFailureAt <= WINDOW_MS
  }

  function AfterFailure(existing: Option<RateLimitEntry>, now: int): RateLimitEntry {
    var within := WithinWindow(existing, now);
    var failures := (if within then existing.value.failures else 0) + 1;
    var kept := if within then existing.value.lockedUntil else 0;
    var lockedUntil :=
      if failures >= MAX_FAILURES_BEFORE_LOCKOUT && now + Lockout(failures) > kept then now + Lockout(failures) else kept;
    RateLimitEntry(failures, now, lockedUntil,
      if within && lockedUntil == existing.value.lockedUntil then existing.value.auditedLockedUntil else 0)
  }

  predicate Stale(e: RateLimitEntry, now: int) {
    now - e.lastFailureAt > ENTRY_TTL_MS && now >= e.lockedUntil
  }

  function Swept(st: State, now: int): State {
    if now - st.lastSweepAt < SWEEP_INTERVAL_MS then st
    else State(map k | k in st.entries && !Stale(st.entries[k], now) :: st.entries[k], now)
  }

  predicate IsBlocked(st: State, key: string, now: int) {
    key in st.entries && now < st.entries[key].lockedUntil
  }

  /** The look-up half of `check`, after the sweep. */
  function Looked(st: State, key: string, now: int): (r: (State, Decision)) {
    if !IsBlocked(st, key, now) then (st, Allowed)
    else
      var e := st.entries[key];
      (st.(entries := st.entries[key := e.(auditedLockedUntil := e.lockedUntil)]),
       Blocked(e.lockedUntil - now, e.auditedLockedUntil != e.lockedUntil))
  }

  function Checked(st: State, key: string, now: int): (State, Decision) {
    Looked(Swept(st, now), key, now)
  }

  function Failed(st: State, key: string, now: int): State {
    st.(entries := st.entries[key := AfterFailure(Find(st.entries, key), now)])
  }

  function Succeeded(st: State, key: string): State {
    st.(entries := st.entries - {key})
  }

  class Limiter {
    var entries: Table
    var lastSweepAt: int

    ghost function Abs(): State
      reads this
    {
      State(entries, lastSweepAt)
    }

    constructor ()
      ensures Abs() == FRESH
    {
      entries, lastSweepAt := map[], 0;
    }

    method Check(key: string, now: int) returns (decision: Decision)
      modifies this
      ensures (Abs(), decision) == Checked(old(Abs()), key, now)
    {
      MaybeSweep(now);
      if key !in entries || now >= entries[key].lockedUntil {
        return Allowed;
      }
      var entry := entries[key];
      var firstBlocked := entry.auditedLockedUntil != entry.lockedUntil;
      if firstBlocked {
        entries := entries[key := entry.(auditedLockedUntil := entry.lockedUntil)];
      } else {
        assert entries[key := entry.(auditedLockedUntil := entry.lockedUntil)] == entries;
      }
      decision := Blocked(entry.lockedUntil - now, firstBlocked);
    }

    method RecordFailure(key: string, now: int)
      modifies this`entries
      ensures Abs() == Failed(old(Abs()), key, now)
    {
      var existing := Find(entries, key);
      var withinWindow := existing.Some? && now - existing.value.lastFailureAt <= WINDOW_MS;
      var failures := (if withinWindow then existing.value.failures else 0) + 1;
      var lockedUntil := if withinWindow then existing.value.lockedUntil else 0;
      if failures >= MAX_FAILURES_BEFORE_LOCKOUT {
        var lockoutMs := Lockout(failures);
        lockedUntil := if lockedUntil >= now + lockoutMs then lockedUntil else now + lockoutMs;
      }
      var audited := if withinWindow && lockedUntil == existing.value.lockedUntil then existing.value.auditedLockedUntil else 0;
      entries := entries[key := RateLimitEntry(failures, now, lockedUntil, audited)];
    }

    method RecordSuccess(key: string)
      modifies this`entries
      ensures Abs() == Succeeded(old(Abs()), key)
    {
      entries := entries - {key};
    }

    method MaybeSweep(now: int)
      modifies this
      ensures Abs() == Swept(old(Abs()), now)
    {
      if now - lastSweepAt < SWEEP_INTERVAL_MS {
        return;
      }
      lastSweepAt := now;
      var left := entries.Keys;
      while left != {}
        invariant lastSweepAt == now && left <= old(entries).Keys
        invariant entries == map k | k in old(entries) && (k in left || !Stale(old(entries)[k], now)) :: old(entries)[k]
        decreases left
      {
        var key :| key in left;
        var entry := entries[key];
        if now - entry.lastFailureAt > ENTRY_TTL_MS && now >= entry.lockedUntil {
          entries := entries - {key};
        }
        left := left - {key};
      }
    }
  }
}
