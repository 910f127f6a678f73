/** What the log-stream replay guarantees (src/admin/logStreamReplay.ts). */
module LogStreamReplayProperties {
  import opened Seqs
  import opened AgentEventBus
  import opened ReplayCandidates
  import opened LogStreamReplay

  // ---------------------------------------------------------------------------
  // The selection against an eager, oldest-first reference
  // ---------------------------------------------------------------------------

  function LineEntries(codec: Codec, cycle: Cycle, lines: seq<string>): seq<Entry> {
    if lines == [] then []
    else LineEntries(codec, cycle, lines[..|lines| - 1]) + [LineEntry(codec, cycle, lines[|lines| - 1])]
  }

  /** The first `n` events that are not skipped, oldest first. */
  function KeptEvents(codec: Codec, events: seq<Event>, n: nat, skipped: set<nat>): seq<Entry>
    requires n <= |events|
  {
    if n == 0 then []
    else if n - 1 in skipped then KeptEvents(codec, events, n - 1, skipped)
    else KeptEvents(codec, events, n - 1, skipped) + [EventEntry(codec, events[n - 1])]
  }

  /** All persisted history, oldest first: cycle by cycle, log lines before events, without buffered copies. */
  function OldestFirst(codec: Codec, cycles: seq<Cycle>, n: nat, copies: set<nat>): seq<Entry>
    requires n <= |cycles|
  {
    if n == 0 then []
    else
      var cycle := cycles[n - 1];
      OldestFirst(codec, cycles, n - 1, copies)
      + LineEntries(codec, cycle, LogLines(cycle.agentLogs))
      + KeptEvents(codec, cycle.agentEvents, |cycle.agentEvents|, Skipped(cycles, n - 1, copies))
  }

  /** Keep only the last entry carrying each key. */
  function KeepLast(s: seq<Entry>): seq<Entry> {
    if s == [] then []
    else if s[0].key in Keys(s[1..]) then KeepLast(s[1..])
    else [s[0]] + KeepLast(s[1..])
  }

  lemma {:induction false} KeysCons(e: Entry, s: seq<Entry>)
    ensures Keys([e] + s) == {e.key} + Keys(s)
  {
    if s == [] {
      assert [e] + s == [] + [e];
      InitOfPush<Entry>([], e);
    } else {
      var front, last := s[..|s| - 1], s[|s| - 1];
      KeysCons(e, front);
      InitLast(s);
      AppendAssociative([e], front, [last]);
      InitOfPush([e] + front, last);
    }
  }

  lemma {:induction false} KeepLastOfReverse(s: seq<Entry>)
    ensures Keys(Reverse(s)) == Keys(s)
    ensures KeepLast(Reverse(s)) == Reverse(KeepFirst(s))
  {
    if s != [] {
      var front, e := s[..|s| - 1], s[|s| - 1];
      KeepLastOfReverse(front);
      InitLast(s);
      ReversePush(front, e);
      ReversePush(KeepFirst(front), e);
      KeysCons(e, Reverse(front));
      TailOfCons(e, Reverse(front));
    }
  }

  lemma {:induction false} LinesReversed(codec: Codec, cycle: Cycle, lines: seq<string>, older: Chain)
    ensures Reverse(Entries(LinesThen(codec, cycle, lines, older)))
         == Reverse(Entries(older)) + LineEntries(codec, cycle, lines)
  {
    if lines == [] {
      AppendNothing(Reverse(Entries(older)));
    } else {
      var front, e := lines[..|lines| - 1], LineEntry(codec, cycle, lines[|lines| - 1]);
      LinesReversed(codec, cycle, front, older);
      ReversePush(Entries(LinesThen(codec, cycle, front, older)), e);
      AppendAssociative(Reverse(Entries(older)), LineEntries(codec, cycle, front), [e]);
    }
  }

  lemma {:induction false} EventsReversed(codec: Codec, events: seq<Event>, n: nat, skipped: set<nat>, older: Chain)
    requires n <= |events|
    ensures Reverse(Entries(EventsThen(codec, events, n, skipped, older)))
         == Reverse(Entries(older)) + KeptEvents(codec, events, n, skipped)
  {
    if n == 0 {
      AppendNothing(Reverse(Entries(older)));
    } else {
      var e := EventEntry(codec, events[n - 1]);
      EventsReversed(codec, events, n - 1, skipped, older);
      ReversePush(Entries(EventsThen(codec, events, n - 1, skipped, older)), e);
      AppendAssociative(Reverse(Entries(older)), KeptEvents(codec, events, n - 1, skipped), [e]);
    }
  }

  lemma {:induction false} HistoryReversed(codec: Codec, cycles: seq<Cycle>, n: nat, copies: set<nat>)
    requires n <= |cycles|
    ensures Reverse(Entries(History(codec, cycles, n, copies))) == OldestFirst(codec, cycles, n, copies)
  {
    hide LogLines;
    if n > 0 {
      HistoryReversed(codec, cycles, n - 1, copies);
      var cycle, lines := cycles[n - 1], LogLines(cycles[n - 1].agentLogs);
      LinesReversed(codec, cycle, lines, History(codec, cycles, n - 1, copies));
      EventsReversed(codec, cycle.agentEvents, |cycle.agentEvents|, Skipped(cycles, n - 1, copies),
                     LogThenOlder(codec, cycles, n - 1, lines, copies));
    }
  }

  lemma {:induction false} LiveReversed(codec: Codec, live: seq<Event>, first: nat, n: nat, older: Chain)
    requires first <= n <= |live|
    ensures Reverse(Entries(LiveThen(codec, live, first, n, older)))
         == Reverse(Entries(older)) + EventEntries(codec, live, first, n)
  {
    if n == first {
      AppendNothing(Reverse(Entries(older)));
    } else {
      var e := EventEntry(codec, live[n - 1]);
      LiveReversed(codec, live, first, n - 1, older);
      ReversePush(Entries(LiveThen(codec, live, first, n - 1, older)), e);
      AppendAssociative(Reverse(Entries(older)), EventEntries(codec, live, first, n - 1), [e]);
    }
  }

  /** The candidates in the order the log was produced: history, then the buffer, or only what follows the cursor. */
  ghost function Candidates(codec: Codec, cycles: seq<Cycle>, live: seq<Event>, resumeAfter: Option<nat>): seq<Entry>
    requires resumeAfter.Some? ==> resumeAfter.value < |live|
  {
    match resumeAfter
    case Some(c) => EventEntries(codec, live, c + 1, |live|)
    case None => OldestFirst(codec, cycles, |cycles|, NewestCopies(cycles, live)) + EventEntries(codec, live, 0, |live|)
  }

  lemma CandidatesReversed(codec: Codec, cycles: seq<Cycle>, live: seq<Event>, resumeAfter: Option<nat>)
    requires resumeAfter.Some? ==> resumeAfter.value < |live|
    ensures var source := Source(codec, live, resumeAfter, cycles, NewestCopies(cycles, live));
            Reverse(Entries(source.All())) == Candidates(codec, cycles, live, resumeAfter)
  {
    var source := Source(codec, live, resumeAfter, cycles, NewestCopies(cycles, live));
    LiveReversed(codec, live, First(resumeAfter), |live|, source.Older());
    HistoryReversed(codec, cycles, |cycles|, source.copies);
    AppendNothing(EventEntries(codec, live, First(resumeAfter), |live|));
  }

  /** The lazy, early-exiting selection equals the eager one. */
  lemma LazyEqualsEager(codec: Codec, cycles: seq<Cycle>, buffered: seq<Event>, lastEventId: Option<Id>)
    ensures var live := LastN(buffered, 500);
            var resumeAfter := ResumePoint(EventEntries(codec, live, 0, |live|), lastEventId);
            var all := Candidates(codec, cycles, live, resumeAfter);
            Selected(codec, cycles, buffered, lastEventId).entries
            == LastN(KeepLast(LastN(all, 1000)), 500)
  {
    var source := SourceOf(codec, cycles, buffered, lastEventId);
    CandidatesReversed(codec, cycles, source.live, source.resumeAfter);
    var newest := FirstN(Entries(source.All()), REPLAY_SCAN_LIMIT);
    ReverseFirst(Entries(source.All()), REPLAY_SCAN_LIMIT);
    KeepLastOfReverse(newest);
    ReverseFirst(KeepFirst(newest), LOG_STREAM_REPLAY_LIMIT);
  }

  // ---------------------------------------------------------------------------
  // Nothing is replayed twice, and nothing buffered is lost
  // ---------------------------------------------------------------------------

  lemma {:induction false} FirstDistinct(s: seq<Entry>, n: nat)
    requires DistinctKeys(s)
    ensures DistinctKeys(FirstN(s, n))
    decreases |s|
  {
    if |s| > n {
      FirstDistinct(s[..|s| - 1], n);
      TakeTake(s, |s| - 1, n);
    }
  }

  lemma ReplayedOnce(all: seq<Entry>)
    ensures DistinctKeys(Chosen(all))
  {
    KeepFirstKeys(FirstN(all, REPLAY_SCAN_LIMIT));
    FirstDistinct(KeepFirst(FirstN(all, REPLAY_SCAN_LIMIT)), LOG_STREAM_REPLAY_LIMIT);
  }

  lemma {:induction false} KeysAppend(a: seq<Entry>, b: seq<Entry>)
    ensures Keys(a + b) == Keys(a) + Keys(b)
    decreases |b|
  {
    if b == [] {
      AppendNothing(a);
    } else {
      KeysAppend(a, b[..|b| - 1]);
      AppendFromLast(a, b);
    }
  }

  /** What is read first is always among the chosen, as long as it fits the replay limit. */
  lemma ChosenStartsWith(newer: seq<Entry>, older: seq<Entry>) returns (rest: seq<Entry>)
    requires |newer| <= LOG_STREAM_REPLAY_LIMIT
    ensures Chosen(newer + older) == KeepFirst(newer) + rest
  {
    var more := FirstN(older, REPLAY_SCAN_LIMIT - |newer|);
    assert FirstN(newer + older, REPLAY_SCAN_LIMIT) == newer + more;
    var added := KeepFirstGrows(newer, more);
    rest := FirstN(added, LOG_STREAM_REPLAY_LIMIT - |KeepFirst(newer)|);
    assert FirstN(KeepFirst(newer) + added, LOG_STREAM_REPLAY_LIMIT) == KeepFirst(newer) + rest;
  }

  /** Entries of the buffer that a replay must carry: all of it, or what follows the resume cursor. */
  ghost function Owed(source: Source): seq<Entry>
    requires First(source.resumeAfter) <= |source.live|
  {
    EventEntries(source.codec, source.live, First(source.resumeAfter), |source.live|)
  }

  /**
   * The replay ends with the buffered entries it owes, one per key and in
   * publication order; a resumed replay holds nothing else.
   */
  lemma ReplayEndsWithBuffer(codec: Codec, cycles: seq<Cycle>, buffered: seq<Event>, lastEventId: Option<Id>)
    returns (older: seq<Entry>)
    ensures var source := SourceOf(codec, cycles, buffered, lastEventId);
            var entries := Selected(codec, cycles, buffered, lastEventId).entries;
            && First(source.resumeAfter) <= |source.live|
            && entries == older + KeepLast(Owed(source))
            && Keys(Owed(source)) <= Keys(entries)
            && (source.resumeAfter.Some? ==> older == [])
  {
    var source := SourceOf(codec, cycles, buffered, lastEventId);
    LiveThenEntries(codec, source.live, First(source.resumeAfter), |source.live|, source.Older());
    older := EndsWithNewest(Owed(source), Entries(source.Older()));
  }

  lemma EndsWithNewest(owed: seq<Entry>, past: seq<Entry>) returns (older: seq<Entry>)
    requires |owed| <= LOG_STREAM_REPLAY_LIMIT
    ensures Reverse(Chosen(Reverse(owed) + past)) == older + KeepLast(owed)
    ensures Keys(owed) <= Keys(Reverse(Chosen(Reverse(owed) + past)))
    ensures past == [] ==> older == []
  {
    hide *;
    var newest := KeepFirst(Reverse(owed));
    var rest := ChosenStartsWith(Reverse(owed), past);
    older := Reverse(rest);
    ReverseAppend(newest, rest);
    ReverseTwice(owed);
    KeepLastOfReverse(Reverse(owed));
    KeepFirstKeys(Reverse(owed));
    KeepLastOfReverse(newest);
    KeysAppend(older, Reverse(newest));
    if past == [] {
      AppendNothing(Reverse(owed));
      ChosenWhole(Reverse(owed));
      assert |newest + rest| == |newest| + |rest|;
    }
  }

  /** Few enough candidates are all read. */
  lemma ChosenWhole(all: seq<Entry>)
    requires |all| <= LOG_STREAM_REPLAY_LIMIT
    ensures Chosen(all) == KeepFirst(all)
  {
  }

  lemma ReverseAppend(a: seq<Entry>, b: seq<Entry>)
    ensures Reverse(a + b) == Reverse(b) + Reverse(a)
  {
  }

  lemma ReverseTwice(s: seq<Entry>)
    ensures Reverse(Reverse(s)) == s
  {
  }

  // ---------------------------------------------------------------------------
  // Distinct keys
  // ---------------------------------------------------------------------------

  lemma {:induction false} DistinctAppend(a: seq<Entry>, b: seq<Entry>)
    ensures DistinctKeys(a + b) <==> DistinctKeys(a) && DistinctKeys(b) && Keys(a) !! Keys(b)
    decreases |b|
  {
    if b == [] {
      AppendNothing(a);
    } else {
      var front, e := b[..|b| - 1], b[|b| - 1];
      DistinctAppend(a, front);
      KeysAppend(a, front);
      AppendFromLast(a, b);
    }
  }

  lemma {:induction false} DistinctReverse(s: seq<Entry>)
    requires DistinctKeys(s)
    ensures DistinctKeys(Reverse(s))
  {
    if s != [] {
      var front, e := s[..|s| - 1], s[|s| - 1];
      DistinctReverse(front);
      KeepLastOfReverse(front);
      InitLast(s);
      ReversePush(front, e);
      DistinctAppend([e], Reverse(front));
      OneKey(e);
    }
  }

  lemma OneKey(e: Entry)
    ensures Keys([e]) == {e.key} && DistinctKeys([e])
  {
    assert [e][..0] == [];
  }

  lemma KeepLastDistinct(s: seq<Entry>)
    requires DistinctKeys(s)
    ensures KeepLast(s) == s
  {
    DistinctReverse(s);
    KeepFirstDistinct(Reverse(s));
    KeepLastOfReverse(Reverse(s));
    ReverseTwice(s);
  }

  lemma {:induction false} OnePlace(s: seq<Entry>, i: nat, j: nat)
    requires DistinctKeys(s) && i < |s| && j < |s| && s[i].key == s[j].key
    ensures i == j
  {
    var front := s[..|s| - 1];
    if i < |front| && j < |front| {
      OnePlace(front, i, j);
    } else if i < |front| {
      KeyOf(front, i);
    } else if j < |front| {
      KeyOf(front, j);
    }
  }

  lemma {:induction false} KeyOf(s: seq<Entry>, i: nat)
    requires i < |s|
    ensures s[i].key in Keys(s)
  {
    if i < |s| - 1 {
      KeyOf(s[..|s| - 1], i);
    }
  }

  lemma ReplayDistinct(codec: Codec, cycles: seq<Cycle>, buffered: seq<Event>, lastEventId: Option<Id>)
    ensures DistinctKeys(Selected(codec, cycles, buffered, lastEventId).entries)
    ensures |Selected(codec, cycles, buffered, lastEventId).entries| <= LOG_STREAM_REPLAY_LIMIT
  {
    var all := Entries(SourceOf(codec, cycles, buffered, lastEventId).All());
    ReplayedOnce(all);
    DistinctReverse(Chosen(all));
  }

  // ---------------------------------------------------------------------------
  // Accounting
  // ---------------------------------------------------------------------------

  lemma {:induction false} LiveThenCount(codec: Codec, live: seq<Event>, first: nat, n: nat, older: Chain)
    requires first <= n <= |live|
    ensures Length(LiveThen(codec, live, first, n, older)) == n - first + Length(older)
  {
    if n > first {
      LiveThenCount(codec, live, first, n - 1, older);
    }
  }

  /**
   * A fresh replay with the buffer within its cap: every distinct record is
   * either examined or reported as omitted, and the clamp at zero never acts.
   */
  lemma FreshReplayAccounts(codec: Codec, cycles: seq<Cycle>, buffered: seq<Event>, lastEventId: Option<Id>)
    requires |buffered| <= LIVE_BUFFER_MAX
    ensures var source := SourceOf(codec, cycles, buffered, lastEventId);
            var summary := Selected(codec, cycles, buffered, lastEventId).summary;
            var records := |buffered| + HistoryRecords(cycles, |cycles|) - |source.copies|;
            && 0 <= Unread(source, |buffered|)
            && (!summary.resumed ==>
                  && |Entries(source.All())| == records
                  && Examined(Entries(source.All()), 0) + summary.omitted == records)
            && (summary.resumed ==>
                  && summary.omitted == 0
                  && Examined(Entries(source.All()), 0) == |buffered| - First(source.resumeAfter))
  {
    var source := SourceOf(codec, cycles, buffered, lastEventId);
    hide LogLines, LogStreamReplay.CopyPositions;
    LiveThenCount(codec, source.live, First(source.resumeAfter), |source.live|, source.Older());
    CopiesInRange(cycles, source.live);
    HistoryCount(codec, cycles, |cycles|, source.copies);
    var all := Entries(source.All());
    if source.resumeAfter.Some? {
      ShortNeverSettles(all, 0);
    }
  }

  lemma CopiesInRange(cycles: seq<Cycle>, live: seq<Event>)
    ensures var copies := NewestCopies(cycles, live);
            if cycles == [] then copies == {} else forall i | i in copies :: i < |cycles[|cycles| - 1].agentEvents|
  {
  }

  lemma {:induction false} ShortNeverSettles(all: seq<Entry>, k: nat)
    requires k <= |all| < LOG_STREAM_REPLAY_LIMIT
    ensures Examined(all, k) == |all|
    decreases |all| - k
  {
    if k < |all| {
      ShortNeverSettles(all, k + 1);
    }
  }

  /** Stream positions whose event a replay can see: those still buffered, and the first `n` persisted ones. */
  ghost function Held(at: seq<nat>, n: nat, base: nat, size: nat): set<nat>
    requires n <= |at|
    decreases n, size
  {
    if n > 0 then Held(at, n - 1, base, size) + {at[n - 1]}
    else if size <= base then {}
    else Held(at, 0, base, size - 1) + {size - 1}
  }

  lemma {:induction false} HeldMember(at: seq<nat>, n: nat, base: nat, size: nat, p: nat)
    requires n <= |at|
    ensures p in Held(at, n, base, size) <==> base <= p < size || exists i :: 0 <= i < n && at[i] == p
    decreases n, size
  {
    if n > 0 {
      HeldMember(at, n - 1, base, size, p);
    } else if size > base {
      HeldMember(at, 0, base, size - 1, p);
    }
  }

  predicate AscendingBelow(at: seq<nat>, size: nat) {
    && (forall i, j :: 0 <= i < j < |at| ==> at[i] < at[j])
    && (forall i: nat | i < |at| :: at[i] < size)
  }

  lemma AlreadyHeld(at: seq<nat>, n: nat, base: nat, size: nat)
    requires n < |at| && base <= size && AscendingBelow(at, size)
    ensures at[n] in Held(at, n, base, size) <==> at[n] >= base
  {
    HeldMember(at, n, base, size, at[n]);
  }

  /** The first `n` persisted events that are buffered too. */
  ghost function Shared(at: seq<nat>, n: nat, base: nat): (r: set<nat>)
    requires n <= |at|
    ensures forall i | i in r :: i < n
  {
    if n == 0 then {} else Shared(at, n - 1, base) + if at[n - 1] >= base then {n - 1} else {}
  }

  lemma {:induction false} SharedMember(at: seq<nat>, n: nat, base: nat, i: nat)
    requires n <= |at|
    ensures i in Shared(at, n, base) <==> i < n && at[i] >= base
  {
    if n > 0 {
      SharedMember(at, n - 1, base, i);
    }
  }

  /** One more persisted event is either held newly or shared. */
  lemma OneMoreHeld(at: seq<nat>, n: nat, base: nat, size: nat)
    requires n < |at| && base <= size && AscendingBelow(at, size)
    ensures |Held(at, n + 1, base, size)| == |Held(at, n, base, size)| + if at[n] >= base then 0 else 1
  {
    AlreadyHeld(at, n, base, size);
    hide AscendingBelow;
    var before := Held(at, n, base, size);
    assert Held(at, n + 1, base, size) == before + {at[n]};
    hide Held;
    assert at[n] >= base ==> before + {at[n]} == before;
  }

  lemma OneMoreShared(at: seq<nat>, n: nat, base: nat)
    requires n < |at|
    ensures |Shared(at, n + 1, base)| == |Shared(at, n, base)| + if at[n] >= base then 1 else 0
  {
    var before := Shared(at, n, base);
    assert n !in before;
    assert Shared(at, n + 1, base) == before + if at[n] >= base then {n} else {};
    hide Shared;
    assert before + {} == before;
  }

  lemma {:induction false} HeldSize(at: seq<nat>, n: nat, base: nat, size: nat)
    requires n <= |at| && base <= size && AscendingBelow(at, size)
    ensures |Held(at, n, base, size)| == n + size - base - |Shared(at, n, base)|
    decreases n
  {
    hide *;
    if n > 0 {
      HeldSize(at, n - 1, base, size);
      OneMoreHeld(at, n - 1, base, size);
      OneMoreShared(at, n - 1, base);
    } else {
      RangeSize(at, base, size);
      NothingShared(at, base);
    }
  }

  lemma NothingShared(at: seq<nat>, base: nat)
    ensures Shared(at, 0, base) == {}
  {
  }

  lemma {:induction false} RangeSize(at: seq<nat>, base: nat, size: nat)
    requires base <= size
    ensures |Held(at, 0, base, size)| == size - base
  {
    if size > base {
      RangeSize(at, base, size - 1);
      HeldMember(at, 0, base, size - 1, size - 1);
    }
  }

  /**
   * When the newest cycle persisted some of the task's event stream and the
   * buffer holds that stream's end, a fresh replay counts each event of the
   * stream it can see once, however many places hold it, exactly when no
   * persisted event that left the buffer is mistaken for one held there.
   */
  lemma EachRecordCountsOnce(codec: Codec, cycles: seq<Cycle>, buffered: seq<Event>, lastEventId: Option<Id>,
                             stream: seq<Event>, at: seq<nat>)
    requires cycles != [] && |buffered| <= LIVE_BUFFER_MAX && |buffered| <= |stream|
    requires buffered == stream[|stream| - |buffered|..]
    requires PersistedFrom(stream, cycles[|cycles| - 1].agentEvents, at)
    requires !Selected(codec, cycles, buffered, lastEventId).summary.resumed
    ensures var source := SourceOf(codec, cycles, buffered, lastEventId);
            var summary := Selected(codec, cycles, buffered, lastEventId).summary;
            var newest := cycles[|cycles| - 1];
            Examined(Entries(source.All()), 0) + summary.omitted
            == HistoryRecords(cycles, |cycles| - 1) + |LogLines(newest.agentLogs)|
               + |Held(at, |at|, |stream| - |buffered|, |stream|)|
            <==> forall i: nat | i < |newest.agentEvents| :: !Mistaken(stream, newest.agentEvents, at, buffered, i)
  {
    hide *;
    var newest, base := cycles[|cycles| - 1], |stream| - |buffered|;
    FreshReplayAccounts(codec, cycles, buffered, lastEventId);
    SourceParts(codec, cycles, buffered, lastEventId);
    CopiesAgainstShared(stream, newest.agentEvents, at, buffered);
    HeldSize(at, |at|, base, |stream|);
  }

  lemma SourceParts(codec: Codec, cycles: seq<Cycle>, buffered: seq<Event>, lastEventId: Option<Id>)
    requires cycles != [] && |buffered| <= LIVE_BUFFER_MAX
    ensures var newest := cycles[|cycles| - 1];
            && SourceOf(codec, cycles, buffered, lastEventId).copies == CopyPositions(newest.agentEvents, buffered)
            && HistoryRecords(cycles, |cycles|)
               == HistoryRecords(cycles, |cycles| - 1) + |newest.agentEvents| + |LogLines(newest.agentLogs)|
  {
  }

  lemma CopiesAgainstShared(stream: seq<Event>, events: seq<Event>, at: seq<nat>, live: seq<Event>)
    requires PersistedFrom(stream, events, at)
    requires |live| <= |stream| && live == stream[|stream| - |live|..]
    ensures |CopyPositions(events, live)| == |Shared(at, |at|, |stream| - |live|)|
       <==> forall i: nat | i < |events| :: !Mistaken(stream, events, at, live, i)
    ensures AscendingBelow(at, |stream|) && |at| == |events|
  {
    CopiesAreExact(stream, events, at, live);
    var base := |stream| - |live|;
    var held := set i: nat | i < |events| && at[i] >= base;
    SharedSet(at, base);
    assert AscendingBelow(at, |stream|);
    hide Shared, CopyPositions, Mistaken, PersistedFrom, AscendingBelow;
    SubsetSize(held, CopyPositions(events, live));
  }

  lemma SharedSet(at: seq<nat>, base: nat)
    ensures Shared(at, |at|, base) == set i: nat | i < |at| && at[i] >= base
  {
    forall i: nat {
      SharedMember(at, |at|, base, i);
    }
    hide Shared;
  }

  lemma SubsetSize(a: set<nat>, b: set<nat>)
    requires a <= b
    ensures |a| <= |b| && (|a| == |b| <==> a == b)
  {
    assert b == a + (b - a);
  }

  /** Two equal events in the stream make a persisted one count as held in the buffer although it is not. */
  lemma EqualEventsMiscount()
    ensures exists stream, at, events, live ::
              && PersistedFrom(stream, events, at) && |live| <= |stream| && live == stream[|stream| - |live|..]
              && CopyPositions(events, live) != set i: nat | i < |events| && at[i] >= |stream| - |live|
  {
    var e := Event("t", 1, "now", "x", JsonAbsent);
    var stream, at, events, live := [e, e], [0], [e], [e];
    assert stream[1..] == live;
    IdentityMember(live, 1, EventIdentity(e).value);
    PrefixMember(live, 1, 0);
    assert EventIdentity(live[0]) == Some(EventIdentity(e).value);
    assert 0 in CopyPositions(events, live);
    assert 0 !in set i: nat | i < |events| && at[i] >= |stream| - |live|;
    assert PersistedFrom(stream, events, at);
  }
}
