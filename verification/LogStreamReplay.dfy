/** Bounded history replay for the task-scoped log stream (src/admin/logStreamReplay.ts). */
module LogStreamReplay {
  import opened Seqs
  import opened Text
  import opened AgentEventBus
  import opened ReplayCandidates

  const LOG_STREAM_REPLAY_LIMIT: nat := 500
  const REPLAY_SCAN_LIMIT: nat := 1000

  datatype Replay = Replay(entries: seq<Entry>, summary: Summary)

  // ---------------------------------------------------------------------------
  // De-duplication and bounds, on candidates listed newest first
  // ---------------------------------------------------------------------------

  function Keys(s: seq<Entry>): set<Key> {
    if s == [] then {} else Keys(s[..|s| - 1]) + {s[|s| - 1].key}
  }

  /** Keep only the first entry carrying each key. */
  function KeepFirst(s: seq<Entry>): (r: seq<Entry>)
    ensures |r| <= |s|
  {
    if s == [] then []
    else
      var kept, e := KeepFirst(s[..|s| - 1]), s[|s| - 1];
      if e.key in Keys(s[..|s| - 1]) then kept else kept + [e]
  }

  lemma KeepPush(s: seq<Entry>, e: Entry)
    ensures Keys(s + [e]) == Keys(s) + {e.key}
    ensures KeepFirst(s + [e]) == if e.key in Keys(s) then KeepFirst(s) else KeepFirst(s) + [e]
  {
    InitOfPush(s, e);
  }

  predicate DistinctKeys(s: seq<Entry>) {
    s == [] || (s[|s| - 1].key !in Keys(s[..|s| - 1]) && DistinctKeys(s[..|s| - 1]))
  }

  /** No key is lost and none survives twice. */
  lemma {:induction false} KeepFirstKeys(s: seq<Entry>)
    ensures Keys(KeepFirst(s)) == Keys(s)
    ensures DistinctKeys(KeepFirst(s))
  {
    if s != [] {
      var front, e := s[..|s| - 1], s[|s| - 1];
      KeepFirstKeys(front);
      InitOfPush(KeepFirst(front), e);
    }
  }

  lemma {:induction false} KeepFirstDistinct(s: seq<Entry>)
    requires DistinctKeys(s)
    ensures KeepFirst(s) == s
  {
    if s != [] {
      KeepFirstDistinct(s[..|s| - 1]);
      InitLast(s);
    }
  }

  /** Reading on only adds entries at the end. */
  lemma {:induction false} KeepFirstGrows(read: seq<Entry>, more: seq<Entry>) returns (added: seq<Entry>)
    ensures KeepFirst(read + more) == KeepFirst(read) + added
    decreases |more|
  {
    if more == [] {
      AppendNothing(read);
      added := [];
      AppendNothing(KeepFirst(read));
    } else {
      var front, e := more[..|more| - 1], more[|more| - 1];
      var before := KeepFirstGrows(read, front);
      assert more == front + [e];
      AppendAssociative(read, front, [e]);
      KeepPush(read + front, e);
      added := if e.key in Keys(read + front) then before else before + [e];
      AppendAssociative(KeepFirst(read), before, [e]);
    }
  }

  /** Of the newest candidates keep the first entry of each key, and of those the newest. */
  function Chosen(all: seq<Entry>): seq<Entry> {
    FirstN(KeepFirst(FirstN(all, REPLAY_SCAN_LIMIT)), LOG_STREAM_REPLAY_LIMIT)
  }

  /** The selection needs no further candidate after having read these. */
  predicate Settled(read: seq<Entry>) {
    |read| == REPLAY_SCAN_LIMIT || |KeepFirst(read)| == LOG_STREAM_REPLAY_LIMIT
  }

  /** How many candidates, newest first, are read before the selection is settled or none are left. */
  function Examined(all: seq<Entry>, k: nat): (n: nat)
    requires k <= |all|
    ensures k <= n <= |all|
    decreases |all| - k
  {
    if k == |all| || Settled(all[..k]) then k else Examined(all, k + 1)
  }

  /** The early exit loses nothing: what the read candidates settle is the reference choice. */
  lemma EarlyExitSound(read: seq<Entry>, unread: seq<Entry>)
    requires |read| <= REPLAY_SCAN_LIMIT && |KeepFirst(read)| <= LOG_STREAM_REPLAY_LIMIT
    requires unread == [] || Settled(read)
    ensures KeepFirst(read) == Chosen(read + unread)
  {
    if unread == [] {
      AppendNothing(read);
    } else if |read| == REPLAY_SCAN_LIMIT {
      assert FirstN(read + unread, REPLAY_SCAN_LIMIT) == read;
    } else {
      var more := FirstN(unread, REPLAY_SCAN_LIMIT - |read|);
      assert FirstN(read + unread, REPLAY_SCAN_LIMIT) == read + more;
      var added := KeepFirstGrows(read, more);
      assert FirstN(KeepFirst(read) + added, LOG_STREAM_REPLAY_LIMIT) == KeepFirst(read);
    }
  }

  // ---------------------------------------------------------------------------
  // The resume cursor
  // ---------------------------------------------------------------------------

  /** Entries of the events at positions `from` up to `to`. */
  function EventEntries(codec: Codec, events: seq<Event>, from: nat, to: nat): (r: seq<Entry>)
    requires from <= to <= |events|
    ensures |r| == to - from
  {
    if to == from then [] else EventEntries(codec, events, from, to - 1) + [EventEntry(codec, events[to - 1])]
  }

  predicate IsMatch(entries: seq<Entry>, lastEventId: Option<Id>, i: nat) {
    i < |entries| && lastEventId == Some(entries[i].id)
  }

  /** Positions whose id the cursor names, in order. */
  function Matches(entries: seq<Entry>, lastEventId: Option<Id>, n: nat): (r: seq<nat>)
    requires n <= |entries|
    ensures forall a :: 0 <= a < |r| ==> r[a] < n && IsMatch(entries, lastEventId, r[a])
    ensures forall i: nat | i < n && IsMatch(entries, lastEventId, i) :: i in r
    ensures forall a, b :: 0 <= a < b < |r| ==> r[a] < r[b]
  {
    if n == 0 then []
    else Matches(entries, lastEventId, n - 1) + (if lastEventId == Some(entries[n - 1].id) then [n - 1] else [])
  }

  /** A cursor is resumed only when it names exactly one buffered record. */
  function ResumePoint(entries: seq<Entry>, lastEventId: Option<Id>): (r: Option<nat>)
    ensures r.Some? ==> IsMatch(entries, lastEventId, r.value)
    ensures r.Some? ==> forall i: nat | IsMatch(entries, lastEventId, i) :: i == r.value
    ensures r.None? ==> forall i: nat | IsMatch(entries, lastEventId, i) :: exists j: nat :: j != i && IsMatch(entries, lastEventId, j)
  {
    var matches := Matches(entries, lastEventId, |entries|);
    assert forall i: nat | IsMatch(entries, lastEventId, i) :: i in matches;
    if |matches| == 1 then Some(matches[0])
    else
      assert |matches| >= 2 ==> matches[0] < matches[1] && matches[0] in matches && matches[1] in matches;
      None
  }

  // ---------------------------------------------------------------------------
  // Persisted copies of buffered events
  // ---------------------------------------------------------------------------

  function EventPrefix(e: Event): string {
    Decimal(e.cycleNumber) + "|" + e.timestamp + "|" + e.kind
  }

  /** Raw identity of an event; none when its payload cannot be serialized. */
  function EventIdentity(e: Event): Option<string> {
    match e.data
    case JsonText(text) => Some(EventPrefix(e) + "|" + text)
    case JsonAbsent => Some(EventPrefix(e) + "|")
    case Unserializable(_) => None
  }

  /** Identities of the first `k` events. */
  function IdentitiesOf(live: seq<Event>, k: nat): set<string>
    requires k <= |live|
  {
    if k == 0 then {}
    else
      var before := IdentitiesOf(live, k - 1);
      match EventIdentity(live[k - 1]) case None => before case Some(d) => before + {d}
  }

  /** Prefixes of the first `k` events that have an identity. */
  function PrefixesOf(live: seq<Event>, k: nat): set<string>
    requires k <= |live|
  {
    if k == 0 then {}
    else PrefixesOf(live, k - 1) + (if EventIdentity(live[k - 1]).Some? then {EventPrefix(live[k - 1])} else {})
  }

  lemma {:induction false} IdentityMember(live: seq<Event>, k: nat, d: string)
    requires k <= |live|
    ensures d in IdentitiesOf(live, k) <==> exists j :: 0 <= j < k && EventIdentity(live[j]) == Some(d)
  {
    if k > 0 {
      IdentityMember(live, k - 1, d);
    }
  }

  lemma {:induction false} PrefixMember(live: seq<Event>, k: nat, j: nat)
    requires j < k <= |live| && EventIdentity(live[j]).Some?
    ensures EventPrefix(live[j]) in PrefixesOf(live, k)
  {
    if j < k - 1 {
      PrefixMember(live, k - 1, j);
    }
  }

  predicate IsCopy(e: Event, live: seq<Event>) {
    && EventIdentity(e).Some?
    && EventPrefix(e) in PrefixesOf(live, |live|)
    && EventIdentity(e).value in IdentitiesOf(live, |live|)
  }

  function WindowStart(events: seq<Event>, live: seq<Event>): nat {
    if |events| > |live| then |events| - |live| else 0
  }

  /** Positions among the cycle's last `|live|` events that hold a copy of a buffered event. */
  ghost function CopyPositions(events: seq<Event>, live: seq<Event>): set<nat> {
    set i: nat | WindowStart(events, live) <= i < |events| && IsCopy(events[i], live)
  }

  ghost function NewestCopies(cycles: seq<Cycle>, live: seq<Event>): set<nat> {
    if cycles == [] then {} else CopyPositions(cycles[|cycles| - 1].agentEvents, live)
  }

  method BufferedCopyPositions(events: seq<Event>, liveEvents: seq<Event>) returns (copies: set<nat>)
    ensures copies == CopyPositions(events, liveEvents)
  {
    copies := {};
    if |liveEvents| == 0 || |events| == 0 {
      return;
    }
    var prefixes: set<string>, identities: set<string> := {}, {};
    for k := 0 to |liveEvents|
      invariant prefixes == PrefixesOf(liveEvents, k)
      invariant identities == IdentitiesOf(liveEvents, k)
    {
      var identity := EventIdentity(liveEvents[k]);
      if identity.Some? {
        prefixes := prefixes + {EventPrefix(liveEvents[k])};
        identities := identities + {identity.value};
      }
    }
    var start := WindowStart(events, liveEvents);
    for index := start to |events|
      invariant copies == set i: nat | start <= i < index && IsCopy(events[i], liveEvents)
    {
      var event := events[index];
      var identity := EventIdentity(event);
      if EventPrefix(event) in prefixes && identity.Some? && identity.value in identities {
        copies := copies + {index};
      }
    }
  }

  /** `at[i]` is where the i-th persisted event was published in the task's event stream. */
  ghost predicate PersistedFrom(stream: seq<Event>, events: seq<Event>, at: seq<nat>) {
    && |at| == |events|
    && (forall i, j :: 0 <= i < j < |at| ==> at[i] < at[j])
    && (forall i :: 0 <= i < |at| ==> at[i] < |stream| && stream[at[i]] == events[i] && EventIdentity(events[i]).Some?)
  }

  /** A persisted event that left the buffer still looks like a copy of one held there. */
  ghost predicate Mistaken(stream: seq<Event>, events: seq<Event>, at: seq<nat>, live: seq<Event>, i: nat)
    requires |at| == |events|
  {
    WindowStart(events, live) <= i < |events| && at[i] < |stream| - |live| && IsCopy(events[i], live)
  }

  lemma {:induction false} PositionsLeaveRoom(at: seq<nat>, i: nat, n: nat)
    requires i < |at| && forall a, b :: 0 <= a < b < |at| ==> at[a] < at[b]
    requires forall a :: 0 <= a < |at| ==> at[a] < n
    ensures |at| - i <= n - at[i]
    decreases |at| - i
  {
    if i + 1 < |at| {
      PositionsLeaveRoom(at, i + 1, n);
    }
  }

  /** A persisted event that the buffer still holds is always found. */
  lemma HeldIsFound(stream: seq<Event>, events: seq<Event>, at: seq<nat>, live: seq<Event>, i: nat)
    requires PersistedFrom(stream, events, at)
    requires |live| <= |stream| && live == stream[|stream| - |live|..]
    requires i < |events| && at[i] >= |stream| - |live|
    ensures i in CopyPositions(events, live)
  {
    var k := at[i] - (|stream| - |live|);
    PositionsLeaveRoom(at, i, |stream|);
    assert live[k] == events[i];
    IdentityMember(live, |live|, EventIdentity(events[i]).value);
    PrefixMember(live, |live|, k);
    hide EventIdentity, EventPrefix, IdentitiesOf, PrefixesOf;
  }

  /**
   * With the buffer a suffix of the stream, the copies found are the persisted events the buffer still holds, exactly when
   * none that has left it is mistaken for one.
   */
  lemma CopiesAreExact(stream: seq<Event>, events: seq<Event>, at: seq<nat>, live: seq<Event>)
    requires PersistedFrom(stream, events, at)
    requires |live| <= |stream| && live == stream[|stream| - |live|..]
    ensures CopyPositions(events, live) == (set i: nat | i < |events| && at[i] >= |stream| - |live|)
       <==> forall i: nat | i < |events| :: !Mistaken(stream, events, at, live, i)
    ensures (set i: nat | i < |events| && at[i] >= |stream| - |live|) <= CopyPositions(events, live)
  {
    var held := set i: nat | i < |events| && at[i] >= |stream| - |live|;
    forall i | i in held ensures i in CopyPositions(events, live) {
      HeldIsFound(stream, events, at, live, i);
    }
    hide IsCopy, PersistedFrom;
    forall i: nat | i < |events|
      ensures Mistaken(stream, events, at, live, i) <==> i in CopyPositions(events, live) && i !in held
    {
    }
    hide Mistaken;
  }

  ghost predicate DistinctIdentities(stream: seq<Event>) {
    forall i, j :: 0 <= i < j < |stream| && EventIdentity(stream[i]).Some? ==> EventIdentity(stream[i]) != EventIdentity(stream[j])
  }

  /** In particular no event is mistaken when no two events of the stream have the same identity. */
  lemma DistinctNeverMistaken(stream: seq<Event>, events: seq<Event>, at: seq<nat>, live: seq<Event>, i: nat)
    requires PersistedFrom(stream, events, at) && DistinctIdentities(stream)
    requires |live| <= |stream| && live == stream[|stream| - |live|..]
    ensures !Mistaken(stream, events, at, live, i)
  {
    var base := |stream| - |live|;
    if i < |events| && at[i] < base {
      var d := EventIdentity(events[i]).value;
      IdentityMember(live, |live|, d);
      forall k | 0 <= k < |live| ensures EventIdentity(live[k]) != Some(d) {
        assert stream[base + k] == live[k];
      }
    }
  }

  // ---------------------------------------------------------------------------
  // Counting
  // ---------------------------------------------------------------------------

  function HistoryRecords(cycles: seq<Cycle>, n: nat): nat
    requires n <= |cycles|
  {
    if n == 0 then 0
    else HistoryRecords(cycles, n - 1) + |cycles[n - 1].agentEvents| + |LogLines(cycles[n - 1].agentLogs)|
  }

  method CountHistoryRecords(cycles: seq<Cycle>) returns (total: nat)
    ensures total == HistoryRecords(cycles, |cycles|)
  {
    total := 0;
    for c := 0 to |cycles|
      invariant total == HistoryRecords(cycles, c)
    {
      total := total + |cycles[c].agentEvents|;
      var logs := Trim(cycles[c].agentLogs);
      var end := |logs|;
      ScanStart(cycles[c].agentLogs);
      while end > 0
        invariant -1 <= end <= |logs|
        invariant total + |LinesBefore(logs, end)| == HistoryRecords(cycles, c + 1)
      {
        ScanStep(logs, end);
        if NonBlank(LineAt(logs, end)) {
          total := total + 1;
        }
        end := LastLineFeed(logs, end - 1);
      }
    }
  }

  ghost function Below(positions: set<nat>, n: nat): set<nat> {
    set i | i in positions && i < n
  }

  lemma {:induction false} EventsThenCount(codec: Codec, events: seq<Event>, n: nat, skipped: set<nat>, older: Chain)
    requires n <= |events|
    ensures Length(EventsThen(codec, events, n, skipped, older)) == n - |Below(skipped, n)| + Length(older)
  {
    if n == 0 {
      assert Below(skipped, 0) == {};
    } else {
      EventsThenCount(codec, events, n - 1, skipped, older);
      if n - 1 in skipped {
        assert Below(skipped, n) == Below(skipped, n - 1) + {n - 1};
      } else {
        assert Below(skipped, n) == Below(skipped, n - 1);
      }
    }
  }

  lemma {:induction false} LinesThenCount(codec: Codec, cycle: Cycle, lines: seq<string>, older: Chain)
    ensures Length(LinesThen(codec, cycle, lines, older)) == |lines| + Length(older)
  {
    if lines != [] {
      LinesThenCount(codec, cycle, lines[..|lines| - 1], older);
    }
  }

  lemma {:induction false} HistoryCount(codec: Codec, cycles: seq<Cycle>, n: nat, copies: set<nat>)
    requires n <= |cycles|
    requires if cycles == [] then copies == {} else forall i | i in copies :: i < |cycles[|cycles| - 1].agentEvents|
    ensures Length(History(codec, cycles, n, copies)) == HistoryRecords(cycles, n) - if n == |cycles| then |copies| else 0
  {
    hide LogLines;
    if n > 0 {
      HistoryCount(codec, cycles, n - 1, copies);
      var events, lines := cycles[n - 1].agentEvents, LogLines(cycles[n - 1].agentLogs);
      var skipped := Skipped(cycles, n - 1, copies);
      LinesThenCount(codec, cycles[n - 1], lines, History(codec, cycles, n - 1, copies));
      EventsThenCount(codec, events, |events|, skipped, LogThenOlder(codec, cycles, n - 1, lines, copies));
      assert Below(skipped, |events|) == skipped;
    }
  }

  lemma {:induction false} LiveThenEntries(codec: Codec, live: seq<Event>, first: nat, n: nat, older: Chain)
    requires first <= n <= |live|
    ensures Entries(LiveThen(codec, live, first, n, older))
         == Reverse(EventEntries(codec, live, first, n)) + Entries(older)
  {
    if n == first {
      AppendNothing(Entries(older));
    } else {
      LiveThenEntries(codec, live, first, n - 1, older);
      var entries, e := EventEntries(codec, live, first, n - 1), EventEntry(codec, live[n - 1]);
      ReversePush(entries, e);
      AppendAssociative([e], Reverse(entries), Entries(older));
    }
  }

  // ---------------------------------------------------------------------------
  // Selection
  // ---------------------------------------------------------------------------

  /** Everything the selection derives from its inputs before it reads a candidate. */
  ghost function SourceOf(codec: Codec, cycles: seq<Cycle>, buffered: seq<Event>, lastEventId: Option<Id>): Source {
    var live := LastN(buffered, LOG_STREAM_REPLAY_LIMIT);
    Source(codec, live, ResumePoint(EventEntries(codec, live, 0, |live|), lastEventId), cycles, NewestCopies(cycles, live))
  }

  /** The candidates run out before either bound is met. */
  predicate Exhausted(all: seq<Entry>) {
    Examined(all, 0) == |all| && !Settled(all)
  }

  /** Older records not read; `max(0, ...)` in the source. */
  ghost function Unread(source: Source, bufferedCount: nat): int {
    bufferedCount + HistoryRecords(source.cycles, |source.cycles|) - |source.copies| - Examined(Entries(source.All()), 0)
  }

  ghost function OmittedOf(source: Source, bufferedCount: nat): nat {
    var unread := Unread(source, bufferedCount);
    if source.resumeAfter.Some? || Exhausted(Entries(source.All())) || unread < 0 then 0 else unread
  }

  /** The reference replay. */
  ghost function Selected(codec: Codec, cycles: seq<Cycle>, buffered: seq<Event>, lastEventId: Option<Id>): Replay {
    var source := SourceOf(codec, cycles, buffered, lastEventId);
    var entries := Reverse(Chosen(Entries(source.All())));
    Replay(entries, Summary(source.resumeAfter.Some?, |entries|, OmittedOf(source, |buffered|), LOG_STREAM_REPLAY_LIMIT))
  }

  /** The selection loop's state after reading `read` of all candidates. */
  ghost predicate Progress(all: seq<Entry>, read: seq<Entry>, newestFirst: seq<Entry>, keys: set<Key>) {
    && newestFirst == KeepFirst(read) && keys == Keys(read)
    && |read| <= REPLAY_SCAN_LIMIT && |newestFirst| <= LOG_STREAM_REPLAY_LIMIT
    && |read| <= |all| && Examined(all, 0) == Examined(all, |read|)
  }

  lemma ReadOneMore(all: seq<Entry>, read: seq<Entry>, e: Entry, rest: seq<Entry>, newestFirst: seq<Entry>, keys: set<Key>)
    requires Progress(all, read, newestFirst, keys) && all == read + [e] + rest
    requires |newestFirst| < LOG_STREAM_REPLAY_LIMIT && |read| < REPLAY_SCAN_LIMIT
    ensures Progress(all, read + [e], if e.key in keys then newestFirst else newestFirst + [e], keys + {e.key})
  {
    assert all[..|read|] == read;
    KeepPush(read, e);
  }

  lemma StopReading(all: seq<Entry>, read: seq<Entry>, rest: seq<Entry>, newestFirst: seq<Entry>, keys: set<Key>)
    requires Progress(all, read, newestFirst, keys) && all == read + rest
    requires rest == [] || |newestFirst| == LOG_STREAM_REPLAY_LIMIT || |read| == REPLAY_SCAN_LIMIT
    ensures newestFirst == Chosen(all) && |read| == Examined(all, 0)
    ensures Exhausted(all) <==> rest == [] && |newestFirst| < LOG_STREAM_REPLAY_LIMIT && |read| < REPLAY_SCAN_LIMIT
  {
    EarlyExitSound(read, rest);
    assert all[..|read|] == read;
    if rest == [] {
      AppendNothing(read);
    }
  }

  /** Pull candidates newest first until enough were kept, enough were read, or none are left. */
  method CollectNewest(source: Source) returns (newestFirst: seq<Entry>, examined: nat, exhausted: bool)
    ensures newestFirst == Chosen(Entries(source.All()))
    ensures examined == Examined(Entries(source.All()), 0)
    ensures exhausted <==> Exhausted(Entries(source.All()))
  {
    var candidates := new CandidateGenerator(source);
    ghost var all := Entries(source.All());
    newestFirst, examined, exhausted := [], 0, false;
    var keys: set<Key> := {};
    assert Progress(all, [], [], {});
    hide *;
    while |newestFirst| < LOG_STREAM_REPLAY_LIMIT && examined < REPLAY_SCAN_LIMIT && !exhausted
      invariant candidates.Valid() && candidates.source == source
      invariant examined == |candidates.pulled| <= |all|
      invariant Progress(all, candidates.pulled, newestFirst, keys)
      invariant exhausted ==> candidates.pulled == all && |newestFirst| < LOG_STREAM_REPLAY_LIMIT && examined < REPLAY_SCAN_LIMIT
      decreases |all| - examined, !exhausted
    {
      ghost var read := candidates.pulled;
      var candidate := candidates.Next();
      if candidate.None? {
        exhausted := true;
      } else {
        var e := candidate.value;
        var rest := candidates.Unpulled();
        ReadOneMore(all, read, e, rest, newestFirst, keys);
        examined := examined + 1;
        if e.key !in keys {
          newestFirst := newestFirst + [e];
        }
        keys := keys + {e.key};
      }
    }
    var rest := candidates.Unpulled();
    StopReading(all, candidates.pulled, rest, newestFirst, keys);
  }

  /** The lazy newest-first selection is the reference replay. */
  method SelectLogStreamReplay(codec: Codec, cycles: seq<Cycle>, buffered: seq<Event>, lastEventId: Option<Id>)
    returns (replay: Replay)
    ensures replay == Selected(codec, cycles, buffered, lastEventId)
  {
    var liveEvents := LastN(buffered, LOG_STREAM_REPLAY_LIMIT);
    var live := EventEntries(codec, liveEvents, 0, |liveEvents|);
    var resumeAfter := ResumePoint(live, lastEventId);
    var copies := {};
    if cycles != [] {
      copies := BufferedCopyPositions(cycles[|cycles| - 1].agentEvents, liveEvents);
    }
    var newestFirst, examined, exhausted := CollectNewest(Source(codec, liveEvents, resumeAfter, cycles, copies));
    var resumed := resumeAfter.Some?;
    var omitted := 0;
    if !resumed && !exhausted {
      var total := CountHistoryRecords(cycles);
      var left := |buffered| + total - |copies| - examined;
      omitted := if left < 0 then 0 else left;
    }
    replay := Replay(Reverse(newestFirst), Summary(resumed, |newestFirst|, omitted, LOG_STREAM_REPLAY_LIMIT));
  }
}
