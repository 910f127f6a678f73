/** The throughput bins of src/admin/adminOverviewRoutes.ts: the CSV export's and the dashboard's. */
module TimeBins {
  import opened Seqs

  const NUM_TICKS := 14

  // ---------------------------------------------------------------------------
  // Counting in windows that tile a span
  // ---------------------------------------------------------------------------

  /** How many of `values` lie in [lo, hi). */
  function CountIn(values: seq<int>, lo: int, hi: int): (r: nat)
    ensures r <= |values|
  {
    if values == [] then 0
    else CountIn(values[..|values| - 1], lo, hi) + if lo <= values[|values| - 1] < hi then 1 else 0
  }

  /** The counts of the first `n` windows [edges(i), edges(i + 1)) together. */
  function CountInWindows(values: seq<int>, edges: int -> int, n: nat): nat {
    if n == 0 then 0 else CountInWindows(values, edges, n - 1) + CountIn(values, edges(n - 1), edges(n))
  }

  lemma {:induction false} CountJoins(values: seq<int>, a: int, b: int, c: int)
    requires a <= b <= c
    ensures CountIn(values, a, b) + CountIn(values, b, c) == CountIn(values, a, c)
  {
    if values != [] {
      CountJoins(values[..|values| - 1], a, b, c);
    }
  }

  lemma {:induction false} NothingInEmptySpan(values: seq<int>, a: int)
    ensures CountIn(values, a, a) == 0
  {
    if values != [] {
      NothingInEmptySpan(values[..|values| - 1], a);
    }
  }

  lemma {:induction false} EdgesAscend(edges: int -> int, n: nat)
    requires forall i | 0 <= i < n :: edges(i) <= edges(i + 1)
    ensures edges(0) <= edges(n)
  {
    if n > 0 {
      EdgesAscend(edges, n - 1);
      assert edges(n - 1) <= edges(n - 1 + 1);
    }
  }

  /** Windows with ascending edges count every value of the span exactly once. */
  lemma {:induction false} WindowsTile(values: seq<int>, edges: int -> int, n: nat)
    requires forall i | 0 <= i < n :: edges(i) <= edges(i + 1)
    ensures CountInWindows(values, edges, n) == CountIn(values, edges(0), edges(n))
  {
    if n == 0 {
      NothingInEmptySpan(values, edges(0));
    } else {
      WindowsTile(values, edges, n - 1);
      EdgesAscend(edges, n - 1);
      assert edges(n - 1) <= edges(n - 1 + 1);
      CountJoins(values, edges(0), edges(n - 1), edges(n));
    }
  }

  lemma {:induction false} CountPush(values: seq<int>, v: int, lo: int, hi: int)
    ensures CountIn(values + [v], lo, hi) == CountIn(values, lo, hi) + if lo <= v < hi then 1 else 0
  {
    InitOfPush(values, v);
  }

  lemma {:induction false} CountAll(values: seq<int>, lo: int, hi: int)
    requires forall i | 0 <= i < |values| :: lo <= values[i] < hi
    ensures CountIn(values, lo, hi) == |values|
  {
    if values != [] {
      CountAll(values[..|values| - 1], lo, hi);
    }
  }

  // ---------------------------------------------------------------------------
  // The CSV export: 14 windows from the start of the period to its end
  // ---------------------------------------------------------------------------

  datatype Bin = Bin(windowStart: int, windowEnd: int, count: nat)

  predicate Counted(u: int, since: Option<int>, before: Option<int>, end: int) {
    (if before.Some? then u < end else u <= end) && (since.None? || u >= since.value)
  }

  function CountedIn(since: Option<int>, before: Option<int>, end: int): int -> bool {
    (u: int) => Counted(u, since, before, end)
  }

  /** `reduce` with `Math.min`. */
  function Least(values: seq<int>, from: int): (r: int)
    ensures r <= from && forall i | 0 <= i < |values| :: r <= values[i]
  {
    if values == [] then from
    else
      var before, v := Least(values[..|values| - 1], from), values[|values| - 1];
      if v < before then v else before
  }

  /** `start + Math.floor(index * (end - start) / NUM_TICKS)`. */
  function Edge(start: int, end: int, index: int): int {
    start + index * (end - start) / NUM_TICKS
  }

  /** The window at `index` holds `u`; only the last one includes its end. */
  predicate InWindow(start: int, end: int, index: nat, u: int) {
    var windowEnd := Edge(start, end, index + 1);
    u >= Edge(start, end, index) && (u < windowEnd || (index == NUM_TICKS - 1 && u == windowEnd))
  }

  function WindowFilter(start: int, end: int, index: nat): int -> bool {
    (u: int) => InWindow(start, end, index, u)
  }

  function BinAt(updates: seq<int>, start: int, end: int, index: nat): Bin {
    Bin(Edge(start, end, index), Edge(start, end, index + 1), |Filter(WindowFilter(start, end, index), updates)|)
  }

  function BinsOf(updates: seq<int>, start: int, end: int, n: nat): (r: seq<Bin>)
    ensures |r| == n
  {
    if n == 0 then [] else BinsOf(updates, start, end, n - 1) + [BinAt(updates, start, end, n - 1)]
  }

  function PeriodEnd(before: Option<int>, now: int): int {
    if before.Some? then before.value else now
  }

  function Updates(updatedAts: seq<int>, since: Option<int>, before: Option<int>, now: int): seq<int> {
    Filter(CountedIn(since, before, PeriodEnd(before, now)), updatedAts)
  }

  function PeriodStart(updates: seq<int>, since: Option<int>, end: int): int {
    if since.Some? then since.value else Least(updates, end - 1000)
  }

  method ThroughputBins(updatedAts: seq<int>, since: Option<int>, before: Option<int>, now: int)
    returns (total: nat, bins: seq<Bin>)
    ensures var updates, end := Updates(updatedAts, since, before, now), PeriodEnd(before, now);
            && total == |updates|
            && bins == if since.None? && updates == [] then [] else BinsOf(updates, PeriodStart(updates, since, end), end, NUM_TICKS)
  {
    var end := if before.Some? then before.value else now;
    var updates := Filter(CountedIn(since, before, end), updatedAts);
    total := |updates|;
    bins := [];
    if since.Some? || |updates| > 0 {
      var start := if since.Some? then since.value else Least(updates, end - 1000);
      hide Edge, InWindow, Filter;
      for index := 0 to NUM_TICKS
        invariant bins == BinsOf(updates, start, end, index)
      {
        var windowStart := Edge(start, end, index);
        var windowEnd := Edge(start, end, index + 1);
        bins := bins + [Bin(windowStart, windowEnd, |Filter(WindowFilter(start, end, index), updates)|)];
      }
    }
  }

  /** The edges as half-open windows: the last one reaches just past the end. */
  function OpenEdges(start: int, end: int): int -> int {
    (index: int) => if index == NUM_TICKS then end + 1 else Edge(start, end, index)
  }

  lemma EdgesMeet(start: int, end: int, index: int)
    requires start <= end
    ensures Edge(start, end, 0) == start && Edge(start, end, NUM_TICKS) == end
    ensures Edge(start, end, index) <= Edge(start, end, index + 1)
  {
    assert (index + 1) * (end - start) == index * (end - start) + (end - start);
  }

  lemma {:induction false} WindowCount(updates: seq<int>, start: int, end: int, index: nat)
    requires start <= end && index < NUM_TICKS
    ensures |Filter(WindowFilter(start, end, index), updates)|
         == CountIn(updates, OpenEdges(start, end)(index), OpenEdges(start, end)(index + 1))
  {
    if updates != [] {
      WindowCount(updates[..|updates| - 1], start, end, index);
      EdgesMeet(start, end, index);
      hide Edge;
    }
  }

  function TotalCount(bins: seq<Bin>): nat {
    if bins == [] then 0 else TotalCount(bins[..|bins| - 1]) + bins[|bins| - 1].count
  }

  lemma {:induction false} BinsCountWindows(updates: seq<int>, start: int, end: int, n: nat)
    requires start <= end && n <= NUM_TICKS
    ensures TotalCount(BinsOf(updates, start, end, n)) == CountInWindows(updates, OpenEdges(start, end), n)
  {
    if n > 0 {
      BinsCountWindows(updates, start, end, n - 1);
      WindowCount(updates, start, end, n - 1);
      InitOfPush(BinsOf(updates, start, end, n - 1), BinAt(updates, start, end, n - 1));
    }
  }

  lemma {:induction false} NoUpdatesNoCounts(start: int, end: int, n: nat)
    ensures TotalCount(BinsOf([], start, end, n)) == 0
  {
    if n > 0 {
      NoUpdatesNoCounts(start, end, n - 1);
      InitOfPush(BinsOf([], start, end, n - 1), BinAt([], start, end, n - 1));
    }
  }

  lemma UpdatesInPeriod(updatedAts: seq<int>, since: Option<int>, before: Option<int>, now: int)
    ensures var updates, end := Updates(updatedAts, since, before, now), PeriodEnd(before, now);
            && (forall i | 0 <= i < |updates| :: PeriodStart(updates, since, end) <= updates[i] <= end)
            && (updates == [] || PeriodStart(updates, since, end) <= end)
  {
    var updates, end := Updates(updatedAts, since, before, now), PeriodEnd(before, now);
    forall i | 0 <= i < |updates| ensures Counted(updates[i], since, before, end) {
      FilterMember(CountedIn(since, before, end), updatedAts, updates[i]);
    }
    assert updates == [] || Counted(updates[0], since, before, end);
  }

  /** The export's bins account for every update of the period once, and its windows follow each other from start to end. */
  lemma ExportBinsTile(updatedAts: seq<int>, since: Option<int>, before: Option<int>, now: int, index: nat)
    requires index < NUM_TICKS
    ensures var updates, end := Updates(updatedAts, since, before, now), PeriodEnd(before, now);
            var start := PeriodStart(updates, since, end);
            && TotalCount(BinsOf(updates, start, end, NUM_TICKS)) == |updates|
            && (start <= end ==>
                  && Edge(start, end, 0) == start && Edge(start, end, NUM_TICKS) == end
                  && Edge(start, end, index) <= Edge(start, end, index + 1))
  {
    hide *;
    var updates, end := Updates(updatedAts, since, before, now), PeriodEnd(before, now);
    var start := PeriodStart(updates, since, end);
    UpdatesInPeriod(updatedAts, since, before, now);
    if start <= end {
      forall k | 0 <= k < NUM_TICKS ensures OpenEdges(start, end)(k) <= OpenEdges(start, end)(k + 1) {
        OpenEdgesAscend(start, end, k);
      }
      OpenEdgesAscend(start, end, 0);
      BinsCountWindows(updates, start, end, NUM_TICKS);
      WindowsTile(updates, OpenEdges(start, end), NUM_TICKS);
      CountAll(updates, start, end + 1);
      EdgesMeet(start, end, index);
    } else {
      NoUpdatesNoCounts(start, end, NUM_TICKS);
    }
  }

  lemma OpenEdgesAscend(start: int, end: int, index: int)
    requires start <= end && 0 <= index < NUM_TICKS
    ensures OpenEdges(start, end)(index) <= OpenEdges(start, end)(index + 1)
    ensures OpenEdges(start, end)(0) == start && OpenEdges(start, end)(NUM_TICKS) == end + 1
  {
    EdgesMeet(start, end, index);
  }

  /** An update in the period, which ends just before `before` or with `now`, and starts with `since` if that is given. */
  predicate InPeriod(u: int, since: Option<int>, before: Option<int>, now: int) {
    && (before.Some? ==> u < before.value) && (before.None? ==> u <= now)
    && (since.Some? ==> since.value <= u)
  }

  /** The updates of the period are counted each as often as it is given, and no others. */
  lemma {:induction false} UpdatesExactly(updatedAts: seq<int>, since: Option<int>, before: Option<int>, now: int, u: int)
    ensures multiset(Updates(updatedAts, since, before, now))[u]
         == if InPeriod(u, since, before, now) then multiset(updatedAts)[u] else 0
  {
    if updatedAts != [] {
      UpdatesExactly(updatedAts[..|updatedAts| - 1], since, before, now, u);
      InitLast(updatedAts);
    }
  }

  lemma {:induction false} LeastIsOne(values: seq<int>, from: int)
    ensures Least(values, from) == from || Least(values, from) in values
  {
    if values != [] {
      LeastIsOne(values[..|values| - 1], from);
      InitLast(values);
    }
  }

  lemma {:induction false} BinsAt(updates: seq<int>, start: int, end: int, n: nat, i: nat)
    requires i < n
    ensures BinsOf(updates, start, end, n)[i] == BinAt(updates, start, end, i)
  {
    if i < n - 1 {
      BinsAt(updates, start, end, n - 1, i);
    }
  }

  lemma FloorIs(x: int)
    ensures 14 * (x / NUM_TICKS) <= x < 14 * (x / NUM_TICKS) + 14
  {
  }

  /**
   * The export's window `i` of fourteen: it starts and ends at the i-th and the
   * next fourteenth of the period, rounded down, and counts the updates from its
   * start to before its end, the last window also those at its end. The period
   * ends with `before` or now; it starts with `since`, or else with the earliest
   * update or a second before its end, whichever comes first.
   */
  lemma ExportWindow(updatedAts: seq<int>, since: Option<int>, before: Option<int>, now: int, i: nat)
    requires i < 14
    ensures var updates, end := Updates(updatedAts, since, before, now), PeriodEnd(before, now);
            var start := PeriodStart(updates, since, end);
            var bins := BinsOf(updates, start, end, 14);
            && end == (if before.Some? then before.value else now)
            && (since.Some? ==> start == since.value)
            && (since.None? ==> start <= end - 1000 && (start == end - 1000 || start in updates) && forall u | u in updates :: start <= u)
            && 14 * (bins[i].windowStart - start) <= i * (end - start) < 14 * (bins[i].windowStart - start) + 14
            && 14 * (bins[i].windowEnd - start) <= (i + 1) * (end - start) < 14 * (bins[i].windowEnd - start) + 14
            && (start <= end ==> bins[i].count == CountIn(updates, bins[i].windowStart, if i == 13 then end + 1 else bins[i].windowEnd))
  {
    var updates, end := Updates(updatedAts, since, before, now), PeriodEnd(before, now);
    var start := PeriodStart(updates, since, end);
    if since.None? {
      LeastIsOne(updates, end - 1000);
    }
    BinsAt(updates, start, end, 14, i);
    FloorIs(i * (end - start));
    FloorIs((i + 1) * (end - start));
    if start <= end {
      WindowCount(updates, start, end, i);
    }
    hide Updates, Least, BinsOf, CountIn, InWindow;
  }

  // ---------------------------------------------------------------------------
  // The dashboard: updates in each of the last 14 polling intervals
  // ---------------------------------------------------------------------------

  /** The earliest update time that bin `index` counts: its age is below (14 - index) intervals. */
  function Tick(now: int, interval: int, index: int): int {
    now - (NUM_TICKS - index) * interval + 1
  }

  lemma TickStep(now: int, interval: int, index: int)
    ensures Tick(now, interval, index + 1) == Tick(now, interval, index) + interval
  {
    assert (NUM_TICKS - index) * interval == (NUM_TICKS - (index + 1)) * interval + interval;
  }

  lemma {:induction false} ProductAscends(a: int, b: int, m: int)
    requires a <= b && m >= 0
    ensures a * m <= b * m
    decreases b - a
  {
    if a < b {
      ProductAscends(a, b - 1, m);
      assert b * m == (b - 1) * m + m;
    }
  }

  lemma QuotientIs(age: int, interval: int, k: int)
    requires interval > 0
    ensures age / interval == k <==> k * interval <= age < k * interval + interval
  {
    var q := age / interval;
    assert age == q * interval + age % interval;
    if q < k {
      ProductAscends(q + 1, k, interval);
      assert (q + 1) * interval == q * interval + interval;
    } else if q > k {
      ProductAscends(k + 1, q, interval);
      assert (k + 1) * interval == k * interval + interval;
    }
  }

  /** Bin `index` counts an update exactly when the loop finds that bin for its age. */
  lemma BinOfAge(now: int, interval: int, updatedAt: int, index: int)
    requires 0 <= index < NUM_TICKS
    ensures var age := now - updatedAt;
            Tick(now, interval, index) <= updatedAt < Tick(now, interval, index + 1)
            <==> 0 <= age < NUM_TICKS * interval && index == NUM_TICKS - 1 - age / interval
  {
    var k, age := NUM_TICKS - 1 - index, now - updatedAt;
    TickStep(now, interval, index);
    if interval > 0 {
      QuotientIs(age, interval, k);
      ProductAscends(0, k, interval);
      ProductAscends(k + 1, NUM_TICKS, interval);
      assert Tick(now, interval, index + 1) == now - k * interval + 1;
      assert (k + 1) * interval == k * interval + interval;
    }
  }

  lemma CountsOneMore(before: seq<int>, v: int, now: int, interval: int, index: int)
    requires 0 <= index < NUM_TICKS
    ensures CountIn(before + [v], Tick(now, interval, index), Tick(now, interval, index + 1))
         == CountIn(before, Tick(now, interval, index), Tick(now, interval, index + 1))
            + if 0 <= now - v < NUM_TICKS * interval && index == NUM_TICKS - 1 - (now - v) / interval then 1 else 0
  {
    CountPush(before, v, Tick(now, interval, index), Tick(now, interval, index + 1));
    BinOfAge(now, interval, v, index);
  }

  method ComputeThroughput(updatedAts: seq<int>, pollingIntervalMs: int, now: int) returns (bins: array<nat>)
    ensures bins.Length == NUM_TICKS
    ensures forall k | 0 <= k < NUM_TICKS ::
              bins[k] == CountIn(updatedAts, Tick(now, pollingIntervalMs, k), Tick(now, pollingIntervalMs, k + 1))
  {
    bins := new nat[NUM_TICKS](_ => 0);
    hide Tick;
    var totalMs := NUM_TICKS * pollingIntervalMs;
    for i := 0 to |updatedAts|
      invariant forall k | 0 <= k < NUM_TICKS ::
                  bins[k] == CountIn(updatedAts[..i], Tick(now, pollingIntervalMs, k), Tick(now, pollingIntervalMs, k + 1))
    {
      assert updatedAts[..i + 1] == updatedAts[..i] + [updatedAts[i]];
      forall k | 0 <= k < NUM_TICKS {
        CountsOneMore(updatedAts[..i], updatedAts[i], now, pollingIntervalMs, k);
      }
      hide CountIn;
      var age := now - updatedAts[i];
      if age < 0 || age >= totalMs {
        continue;
      }
      var bin := NUM_TICKS - 1 - age / pollingIntervalMs;
      if 0 <= bin < NUM_TICKS {
        bins[bin] := bins[bin] + 1;
      }
    }
    assert updatedAts[..|updatedAts|] == updatedAts;
  }

  function Ticks(now: int, interval: int): int -> int {
    (index: int) => Tick(now, interval, index)
  }

  lemma {:induction false} SumOfBins(updatedAts: seq<int>, now: int, interval: int, counts: seq<int>)
    requires forall k | 0 <= k < |counts| :: counts[k] == CountIn(updatedAts, Tick(now, interval, k), Tick(now, interval, k + 1))
    ensures Sum(counts) == CountInWindows(updatedAts, Ticks(now, interval), |counts|)
  {
    hide Tick;
    if counts != [] {
      SumOfBins(updatedAts, now, interval, counts[..|counts| - 1]);
    }
  }

  /** The dashboard's bins count every update of age at least 0 and below 14 intervals exactly once. */
  lemma DashboardBinsTile(updatedAts: seq<int>, now: int, interval: int, counts: seq<int>)
    requires interval >= 0 && |counts| == 14
    requires forall k | 0 <= k < NUM_TICKS :: counts[k] == CountIn(updatedAts, Tick(now, interval, k), Tick(now, interval, k + 1))
    ensures Sum(counts) == CountIn(updatedAts, now - 14 * interval + 1, now + 1)
  {
    SumOfBins(updatedAts, now, interval, counts);
    forall k | 0 <= k < NUM_TICKS ensures Ticks(now, interval)(k) <= Ticks(now, interval)(k + 1) {
      TickStep(now, interval, k);
    }
    WindowsTile(updatedAts, Ticks(now, interval), NUM_TICKS);
    assert Tick(now, interval, 0) == now - NUM_TICKS * interval + 1 && Tick(now, interval, NUM_TICKS) == now + 1;
  }
}
