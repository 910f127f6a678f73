/** Publication order across the hand-off, and the one resume that breaks it (src/admin/adminStreamRoutes.ts). */
module AdminStreamOrder {
  import opened Seqs
  import opened AgentEventBus
  import opened ReplayCandidates
  import opened LogStreamReplay
  import opened LogStreamReplayProperties
  import opened AdminStreamRoutes
  import opened AdminStreamProperties

  // ---------------------------------------------------------------------------
  // Stretches of the buffer
  // ---------------------------------------------------------------------------

  lemma {:induction false} EntriesSplit(codec: Codec, events: seq<Event>, from: nat, mid: nat, to: nat)
    requires from <= mid <= to <= |events|
    ensures EventEntries(codec, events, from, to) == EventEntries(codec, events, from, mid) + EventEntries(codec, events, mid, to)
  {
    if mid == to {
      AppendNothing(EventEntries(codec, events, from, mid));
    } else {
      EntriesSplit(codec, events, from, mid, to - 1);
      AppendAssociative(EventEntries(codec, events, from, mid), EventEntries(codec, events, mid, to - 1), [EventEntry(codec, events[to - 1])]);
    }
  }

  lemma {:induction false} EntriesShift(codec: Codec, before: seq<Event>, events: seq<Event>, to: nat)
    requires to <= |events|
    ensures EventEntries(codec, before + events, |before|, |before| + to) == EventEntries(codec, events, 0, to)
  {
    if to > 0 {
      EntriesShift(codec, before, events, to - 1);
    }
  }

  /** With the buffer never cleared, the queue is the end of the buffer. */
  lemma PendingEndsBuffer(scope: Scope, buffers: Buffers, sys: System, published: seq<Event>) returns (older: seq<Event>)
    requires Waiting(scope, buffers, sys, published, true)
    ensures BufferOf(sys.buffers, scope.taskId) == older + sys.conn.pending
  {
    LastNSuffix(BufferOf(buffers, scope.taskId), published, LIVE_BUFFER_MAX);
    if |published| >= LIVE_BUFFER_MAX {
      older := [];
      AppendNothing(sys.conn.pending);
    } else {
      older := LastN(BufferOf(buffers, scope.taskId), LIVE_BUFFER_MAX - |published|);
    }
  }

  // ---------------------------------------------------------------------------
  // What the client has received when the stream goes live
  // ---------------------------------------------------------------------------

  /** The buffer and the queue at the hand-off: the queue is the buffer from position `p` on. */
  datatype HandOff = HandOff(codec: Codec, window: seq<Event>, p: nat, first: nat)
  {
    predicate WellFormed() {
      p <= |window| && first <= |window|
    }

    function Part(from: nat, to: nat): seq<Entry>
      requires from <= to <= |window|
    {
      EventEntries(codec, window, from, to)
    }

    /** Pending events that the replay, resumed past them, left out. */
    function Late(): seq<Entry>
      requires WellFormed()
    {
      if first > p then Part(p, first) else []
    }
  }

  /** Draining the queue after a replay that ends with the buffer from `first` on. */
  lemma DrainAdds(h: HandOff, out: seq<Entry>)
    requires h.WellFormed() && |out| + |h.window| <= MAX_EMITTED_KEYS
    requires DistinctKeys(h.Part(0, |h.window|)) && Keys(h.Part(h.first, |h.window|)) <= Keys(out)
    requires h.first > h.p ==> Keys(h.Part(h.p, h.first)) !! Keys(out)
    ensures WrittenAll(out, h.Part(h.p, |h.window|)) == out + h.Late()
  {
    hide EventEntries;
    if h.first <= h.p {
      EntriesSplit(h.codec, h.window, h.first, h.p, |h.window|);
      KeysAppend(h.Part(h.first, h.p), h.Part(h.p, |h.window|));
      WrittenAllSeen(out, h.Part(h.p, |h.window|));
      AppendNothing(out);
    } else {
      DrainLate(h, out);
    }
  }

  lemma DrainLate(h: HandOff, out: seq<Entry>)
    requires h.p < h.first <= |h.window| && |out| + |h.window| <= MAX_EMITTED_KEYS
    requires DistinctKeys(h.Part(0, |h.window|)) && Keys(h.Part(h.first, |h.window|)) <= Keys(out)
    requires Keys(h.Part(h.p, h.first)) !! Keys(out)
    ensures WrittenAll(out, h.Part(h.p, |h.window|)) == out + h.Part(h.p, h.first)
  {
    hide EventEntries;
    var n := |h.window|;
    var late, replayed := h.Part(h.p, h.first), h.Part(h.first, n);
    EntriesSplit(h.codec, h.window, h.p, h.first, n);
    EntriesSplit(h.codec, h.window, 0, h.p, n);
    DistinctAppend(h.Part(0, h.p), h.Part(h.p, n));
    DistinctAppend(late, replayed);
    WrittenAllAppend(out, late, replayed);
    WrittenAllFresh(out, late);
    KeysAppend(out, late);
    WrittenAllSeen(out + late, replayed);
  }

  /** `h` describes the state in which the cycles arrive, and no key occurs twice in it. */
  ghost predicate Meets(h: HandOff, scope: Scope, waiting: System, read: Step)
    requires read.CyclesRead?
  {
    var n := |h.window|;
    && h.codec == scope.codec && h.window == BufferOf(waiting.buffers, scope.taskId)
    && |waiting.conn.pending| <= n && h.p == n - |waiting.conn.pending|
    && h.first == First(ResumePoint(h.Part(0, n), read.lastEventId))
    && DistinctKeys(h.Part(0, n))
    && NoticeAt(scope, waiting, read).key !in Keys(ReplayAt(scope, waiting, read).entries) + Keys(h.Part(0, n))
  }

  /** The stream goes live without an entry that throws. */
  ghost predicate GoesLive(scope: Scope, waiting: System, read: Step) {
    Next(scope, waiting, read).conn.streaming && AllPrint(scope.codec, HeldBack(scope, waiting.conn))
  }

  /**
   * With distinct keys: the notice, then older history (none when resumed),
   * then the buffer from the resume point, then whatever was published while
   * waiting but lies at or before the cursor.
   */
  lemma OutputAtHandOff(scope: Scope, waiting: System, read: Step, h: HandOff) returns (older: seq<Entry>)
    requires read.CyclesRead? && Open(waiting.conn) && !waiting.conn.streaming && waiting.conn.sent == []
    requires GoesLive(scope, waiting, read)
    requires Meets(h, scope, waiting, read) && |h.window| <= LIVE_BUFFER_MAX
    requires HeldBack(scope, waiting.conn) == h.Part(h.p, |h.window|)
    ensures h.WellFormed()
    ensures Next(scope, waiting, read).conn.sent
         == [NoticeAt(scope, waiting, read)] + older + h.Part(h.first, |h.window|) + h.Late()
    ensures h.first > 0 ==> older == []
    ensures DistinctKeys(Next(scope, waiting, read).conn.sent)
  {
    var owed := h.Part(h.first, |h.window|);
    var notice, entries := NoticeAt(scope, waiting, read), ReplayAt(scope, waiting, read).entries;
    older := ReplayOverBuffer(scope, waiting, read, h);
    ReplayDistinct(scope.codec, read.cycles, h.window, read.lastEventId);
    StartedOutput(scope, waiting, read);
    assert h.p <= |h.window| && DistinctKeys(h.Part(0, |h.window|))
        && notice.key !in Keys(entries) + Keys(h.Part(0, |h.window|)) && DistinctKeys(entries);
    assert |entries| <= LOG_STREAM_REPLAY_LIMIT;
    hide *;
    StartWith(notice, entries);
    AppendAssociative([notice], older, owed);
    LateApart(h, notice, entries, older);
    DrainAdds(h, [notice] + entries);
    LateDistinct(h, [notice] + entries);
  }

  /** With distinct keys the replay is older history followed by the buffer from the resume point. */
  lemma ReplayOverBuffer(scope: Scope, waiting: System, read: Step, h: HandOff) returns (older: seq<Entry>)
    requires read.CyclesRead? && Meets(h, scope, waiting, read) && |h.window| <= LIVE_BUFFER_MAX
    ensures h.WellFormed() && (h.first > 0 ==> older == [])
    ensures ReplayAt(scope, waiting, read).entries == older + h.Part(h.first, |h.window|)
  {
    FirstInWindow(h, read.lastEventId);
    older := ReplayEndsWithBuffer(scope.codec, read.cycles, h.window, read.lastEventId);
    EntriesSplit(h.codec, h.window, 0, h.first, |h.window|);
    DistinctAppend(h.Part(0, h.first), h.Part(h.first, |h.window|));
    KeepLastDistinct(h.Part(h.first, |h.window|));
  }

  lemma StartedOutput(scope: Scope, waiting: System, read: Step)
    requires read.CyclesRead? && Open(waiting.conn) && !waiting.conn.streaming && waiting.conn.sent == []
    requires GoesLive(scope, waiting, read)
    ensures Next(scope, waiting, read).conn.sent
         == WrittenAll(WrittenAll(Written([], NoticeAt(scope, waiting, read)), ReplayAt(scope, waiting, read).entries),
                       HeldBack(scope, waiting.conn))
  {
    var noticed, entries := Written([], NoticeAt(scope, waiting, read)), ReplayAt(scope, waiting, read).entries;
    var replayed := WriteAll(scope.codec, noticed, entries);
    hide Selected, EventEntries;
    assert !waiting.conn.failed && !replayed.threw;
    var k := WriteAllStops(scope.codec, noticed, entries);
    assert entries[..k] == entries;
    AllPrintWritten(scope.codec, replayed.sent, HeldBack(scope, waiting.conn));
    hide WriteAll, WrittenAll, AllPrint;
  }

  lemma StartWith(notice: Entry, entries: seq<Entry>)
    requires DistinctKeys(entries) && notice.key !in Keys(entries)
    ensures WrittenAll(Written([], notice), entries) == [notice] + entries
    ensures DistinctKeys([notice] + entries)
  {
    assert Remembered([]) == [];
    OneKey(notice);
    assert Written([], notice) == [notice];
    hide *;
    WrittenAllFresh([notice], entries);
    DistinctAppend([notice], entries);
  }

  lemma LateApart(h: HandOff, notice: Entry, entries: seq<Entry>, older: seq<Entry>)
    requires h.WellFormed() && DistinctKeys(h.Part(0, |h.window|))
    requires entries == older + h.Part(h.first, |h.window|) && (h.first > 0 ==> older == [])
    requires notice.key !in Keys(entries) + Keys(h.Part(0, |h.window|))
    ensures h.first > h.p ==> Keys(h.Part(h.p, h.first)) !! Keys([notice] + entries)
    ensures h.first > h.p ==> DistinctKeys(h.Part(h.p, h.first))
    ensures Keys(h.Part(h.first, |h.window|)) <= Keys([notice] + entries)
  {
    var n := |h.window|;
    KeysAppend([notice], entries);
    OneKey(notice);
    KeysAppend(older, h.Part(h.first, n));
    if h.first > h.p {
      hide Keys, DistinctKeys, EventEntries;
      EntriesSplit(h.codec, h.window, 0, h.p, n);
      EntriesSplit(h.codec, h.window, h.p, h.first, n);
      DistinctAppend(h.Part(0, h.p), h.Part(h.p, n));
      DistinctAppend(h.Part(h.p, h.first), h.Part(h.first, n));
      KeysAppend(h.Part(0, h.p), h.Part(h.p, n));
      KeysAppend(h.Part(h.p, h.first), h.Part(h.first, n));
      AppendNothing(h.Part(h.first, n));
    }
  }

  lemma LateDistinct(h: HandOff, out: seq<Entry>)
    requires h.WellFormed() && DistinctKeys(out)
    requires h.first > h.p ==> Keys(h.Part(h.p, h.first)) !! Keys(out) && DistinctKeys(h.Part(h.p, h.first))
    ensures DistinctKeys(out + h.Late())
  {
    DistinctAppend(out, h.Late());
  }

  // ---------------------------------------------------------------------------
  // Order
  // ---------------------------------------------------------------------------

  /** The entry of event `i` stands at position `x` of the output. */
  ghost predicate At(codec: Codec, events: seq<Event>, out: seq<Entry>, i: nat, x: nat) {
    i < |events| && x < |out| && out[x] == EventEntry(codec, events[i])
  }

  /** Of two events that are received, the one published first is received first. */
  ghost predicate InPublicationOrder(codec: Codec, events: seq<Event>, out: seq<Entry>) {
    forall i, j, x, y | i < j && At(codec, events, out, i, x) && At(codec, events, out, j, y) :: x < y
  }

  /** Where an event stands in an output that ends with the events from `from` on. */
  lemma PlaceOf(codec: Codec, events: seq<Event>, from: nat, start: seq<Entry>, out: seq<Entry>, i: nat, x: nat)
    requires from <= |events| && out == start + EventEntries(codec, events, from, |events|)
    requires DistinctKeys(out) && Keys(EventEntries(codec, events, 0, from)) !! Keys(out)
    requires At(codec, events, out, i, x)
    ensures i >= from && x == |start| + i - from
  {
    KeyOf(out, x);
    assert out[x].key == EventEntry(codec, events[i]).key && i < |events|;
    hide *;
    if i < from {
      EntryAt(codec, events, 0, from, i);
      KeyOf(EventEntries(codec, events, 0, from), i);
    } else {
      EntryAt(codec, events, from, |events|, i - from);
      AppendAt(start, EventEntries(codec, events, from, |events|), i - from);
      OnePlace(out, x, |start| + i - from);
    }
  }

  lemma {:induction false} EntryAt(codec: Codec, events: seq<Event>, from: nat, to: nat, k: nat)
    requires from <= to <= |events| && k < to - from
    ensures EventEntries(codec, events, from, to)[k] == EventEntry(codec, events[from + k])
  {
    if from + k < to - 1 {
      EntryAt(codec, events, from, to - 1, k);
    }
  }

  lemma AppendAt(a: seq<Entry>, b: seq<Entry>, k: nat)
    requires k < |b|
    ensures (a + b)[|a| + k] == b[k]
  {
  }

  lemma InOrderFrom(codec: Codec, events: seq<Event>, from: nat, start: seq<Entry>, out: seq<Entry>)
    requires from <= |events| && out == start + EventEntries(codec, events, from, |events|)
    requires DistinctKeys(out) && Keys(EventEntries(codec, events, 0, from)) !! Keys(out)
    ensures InPublicationOrder(codec, events, out)
  {
    hide Keys, DistinctKeys, EventEntries, At;
    forall i, j, x, y | i < j && At(codec, events, out, i, x) && At(codec, events, out, j, y) ensures x < y {
      PlaceOf(codec, events, from, start, out, i, x);
      PlaceOf(codec, events, from, start, out, j, y);
    }
  }

  /** The buffer and the events published since the replay, from `from` on. */
  lemma EntriesTo(h: HandOff, live: seq<Event>, from: nat)
    requires from <= |h.window|
    ensures var all := h.window + live;
            && EventEntries(h.codec, all, from, |all|) == h.Part(from, |h.window|) + EventEntries(h.codec, live, 0, |live|)
            && EventEntries(h.codec, all, 0, from) == h.Part(0, from)
  {
    hide EventEntries;
    EntriesSplit(h.codec, h.window + live, from, |h.window|, |h.window + live|);
    EntriesShift(h.codec, h.window, live, |live|);
    EntriesOfPrefix(h.codec, h.window, live, from, |h.window|);
    EntriesOfPrefix(h.codec, h.window, live, 0, from);
  }

  /** What is left out at the start has keys of its own. */
  lemma LeftOutApart(h: HandOff, live: seq<Event>, from: nat, start: seq<Entry>)
    requires from <= |h.window| && DistinctKeys(EventEntries(h.codec, h.window + live, 0, |h.window + live|))
    requires from > 0 ==> Keys(start) !! Keys(h.Part(0, |h.window|))
    ensures var all := h.window + live;
            Keys(EventEntries(h.codec, all, 0, from)) !! Keys(start + EventEntries(h.codec, all, from, |all|))
  {
    var all := h.window + live;
    var left, rest := EventEntries(h.codec, all, 0, from), EventEntries(h.codec, all, from, |all|);
    if from == 0 {
      assert left == [];
    } else {
      EntriesTo(h, live, from);
      EntriesSplit(h.codec, all, 0, from, |all|);
      EntriesSplit(h.codec, h.window, 0, from, |h.window|);
      hide EventEntries, Keys, DistinctKeys;
      DistinctAppend(left, rest);
      KeysAppend(start, rest);
      KeysAppend(h.Part(0, from), h.Part(from, |h.window|));
    }
  }

  /**
   * The events of the buffer and those published later are received in
   * publication order exactly when the resume cursor was published before the
   * listener attached, or is the last event of the buffer, or there is none.
   */
  lemma InOrderExactly(h: HandOff, live: seq<Event>, start: seq<Entry>, out: seq<Entry>)
    requires h.WellFormed() && DistinctKeys(out) && DistinctKeys(EventEntries(h.codec, h.window + live, 0, |h.window + live|))
    requires out == start + h.Part(h.first, |h.window|) + h.Late() + EventEntries(h.codec, live, 0, |live|)
    requires h.first > 0 ==> Keys(start) !! Keys(h.Part(0, |h.window|))
    ensures InPublicationOrder(h.codec, h.window + live, out) <==> h.first <= h.p || h.first == |h.window|
  {
    var n, lives := |h.window|, EventEntries(h.codec, live, 0, |live|);
    if h.p < h.first < n {
      assert h.Late() == h.Part(h.p, h.first);
      LateStandsAfter(h, live, start, out);
    } else {
      var from := if h.first <= h.p then h.first else h.p;
      assert out == start + (h.Part(from, n) + lives) by {
        hide EventEntries;
        RestInOrder(h, start, lives);
      }
      hide *;
      EntriesTo(h, live, from);
      LeftOutApart(h, live, from, start);
      InOrderFrom(h.codec, h.window + live, from, start, out);
    }
  }

  lemma RestInOrder(h: HandOff, start: seq<Entry>, lives: seq<Entry>)
    requires h.WellFormed() && (h.first <= h.p || h.first == |h.window|)
    ensures start + h.Part(h.first, |h.window|) + h.Late() + lives
         == start + (h.Part(if h.first <= h.p then h.first else h.p, |h.window|) + lives)
  {
    if h.first <= h.p {
      AppendNothing(start + h.Part(h.first, |h.window|));
      AppendAssociative(start, h.Part(h.first, |h.window|), lives);
    } else {
      assert h.Part(h.first, |h.window|) == [];
      AppendNothing(start);
      AppendAssociative(start, h.Part(h.p, |h.window|), lives);
    }
  }

  /** The cursor's successor is received before the first event published while waiting. */
  lemma LateStandsAfter(h: HandOff, live: seq<Event>, start: seq<Entry>, out: seq<Entry>)
    requires h.p < h.first < |h.window|
    requires out == start + h.Part(h.first, |h.window|) + h.Part(h.p, h.first) + EventEntries(h.codec, live, 0, |live|)
    ensures !InPublicationOrder(h.codec, h.window + live, out)
  {
    hide *;
    var a, b, all := h.Part(h.first, |h.window|), h.Part(h.p, h.first), h.window + live;
    PartStarts(h, h.first, |h.window|);
    PartStarts(h, h.p, h.first);
    AppendKeeps(h.window, live, h.first);
    AppendKeeps(h.window, live, h.p);
    PartsAt(start, a, b, EventEntries(h.codec, live, 0, |live|));
    Reordered(h.codec, all, out, h.p, h.first, |start| + |a|, |start|);
  }

  lemma PartStarts(h: HandOff, from: nat, to: nat)
    requires from < to <= |h.window|
    ensures h.Part(from, to) != [] && h.Part(from, to)[0] == EventEntry(h.codec, h.window[from])
  {
    EntryAt(h.codec, h.window, from, to, 0);
  }

  lemma AppendKeeps(a: seq<Event>, b: seq<Event>, i: nat)
    requires i < |a|
    ensures (a + b)[i] == a[i]
  {
  }

  lemma PartsAt(start: seq<Entry>, a: seq<Entry>, b: seq<Entry>, rest: seq<Entry>)
    requires a != [] && b != []
    ensures var out := start + a + b + rest;
            |out| >= |start| + |a| + |b| && out[|start|] == a[0] && out[|start| + |a|] == b[0]
  {
  }

  lemma Reordered(codec: Codec, events: seq<Event>, out: seq<Entry>, i: nat, j: nat, x: nat, y: nat)
    requires i < j < |events| && y <= x < |out|
    requires out[x] == EventEntry(codec, events[i]) && out[y] == EventEntry(codec, events[j])
    ensures !InPublicationOrder(codec, events, out)
  {
    assert At(codec, events, out, i, x) && At(codec, events, out, j, y);
    hide At;
  }

  /** The task's events have keys of their own, and those published since the replay share none with it. */
  ghost predicate LiveApart(h: HandOff, started: Conn, live: seq<Event>) {
    && DistinctKeys(EventEntries(h.codec, h.window + live, 0, |h.window + live|))
    && Keys(EventEntries(h.codec, live, 0, |live|)) !! Keys(started.sent)
  }

  /**
   * A whole run with distinct keys, printing entries and no clearing. The
   * client receives the notice, the replay, what the resumed replay left out,
   * and everything published since, once each; and the events of the buffer
   * and all later ones arrive in publication order exactly when the resume
   * cursor does not lie among those published while waiting, short of the
   * buffer's end.
   */
  lemma OrderedHandOff(scope: Scope, buffers: Buffers, before: seq<Step>, read: Step, after: seq<Step>, h: HandOff)
    returns (older: seq<Entry>)
    requires Bounded(buffers) && NoRead(before) && NoClear(scope, before) && read.CyclesRead?
    requires Open(Handed(scope, buffers, before, read, after))
    requires var waiting, live := Run(scope, System(buffers, ATTACHED), before), PublishedIn(scope, after);
             && GoesLive(scope, waiting, read) && AllPrint(scope.codec, EventEntries(scope.codec, live, 0, |live|))
             && Meets(h, scope, waiting, read) && LiveApart(h, Next(scope, waiting, read).conn, live)
    ensures h.WellFormed() && (h.first > 0 ==> older == [])
    ensures var waiting, live := Run(scope, System(buffers, ATTACHED), before), PublishedIn(scope, after);
            var out := Output(scope.codec, Handed(scope, buffers, before, read, after).sent);
            && out == [NoticeAt(scope, waiting, read)] + older + h.Part(h.first, |h.window|) + h.Late()
                      + EventEntries(scope.codec, live, 0, |live|)
            && (InPublicationOrder(scope.codec, h.window + live, out) <==> h.first <= h.p || h.first == |h.window|)
  {
    var live := PublishedIn(scope, after);
    var lives := EventEntries(scope.codec, live, 0, |live|);
    var waiting := Run(scope, System(buffers, ATTACHED), before);
    var started := Next(scope, waiting, read);
    RunAtRead(scope, buffers, before, read, after);
    OpenEarlier(scope, started, after);
    OpenEarlierStep(scope, waiting, read);
    WaitingHoldsNewest(scope, buffers, before);
    hide Run, PublishedIn, Next, NoRead, Bounded, Handed;
    HeldEndsWindow(scope, buffers, waiting, PublishedIn(scope, before), read, h);
    var notice := NoticeAt(scope, waiting, read);
    assert started.conn.streaming && h.codec == scope.codec && AllPrint(scope.codec, HeldBack(scope, waiting.conn));
    assert notice.key !in Keys(h.Part(0, |h.window|));
    hide *;
    StreamingWritesAll(scope, started, after);
    StartedCarriesHeld(scope, waiting, read);
    older := OutputAtHandOff(scope, waiting, read, h);
    WholeOutput(h, live, notice, older, started.conn);
  }

  /** What was written at the hand-off, with everything published since. */
  lemma WholeOutput(h: HandOff, live: seq<Event>, notice: Entry, older: seq<Entry>, started: Conn)
    requires h.WellFormed() && DistinctKeys(started.sent) && LiveApart(h, started, live)
    requires started.sent == [notice] + older + h.Part(h.first, |h.window|) + h.Late()
    requires h.first > 0 ==> older == []
    requires notice.key !in Keys(h.Part(0, |h.window|))
    requires AllPrint(h.codec, started.sent) && AllPrint(h.codec, EventEntries(h.codec, live, 0, |live|))
    ensures var out := Output(h.codec, WrittenAll(started.sent, EventEntries(h.codec, live, 0, |live|)));
            && out == started.sent + EventEntries(h.codec, live, 0, |live|)
            && (InPublicationOrder(h.codec, h.window + live, out) <==> h.first <= h.p || h.first == |h.window|)
  {
    var lives := EventEntries(h.codec, live, 0, |live|);
    hide *;
    LiveWritten(h, live, started);
    NoticeAlone(notice, older, h.Part(0, |h.window|), h.first);
    InOrderExactly(h, live, [notice] + older, started.sent + lives);
  }

  lemma NoticeAlone(notice: Entry, older: seq<Entry>, window: seq<Entry>, first: nat)
    requires (first > 0 ==> older == []) && notice.key !in Keys(window)
    ensures first > 0 ==> Keys([notice] + older) !! Keys(window)
  {
    hide *;
    OneKey(notice);
    AppendNothing([notice]);
  }

  lemma LiveWritten(h: HandOff, live: seq<Event>, started: Conn)
    requires DistinctKeys(started.sent) && LiveApart(h, started, live)
    requires AllPrint(h.codec, started.sent) && AllPrint(h.codec, EventEntries(h.codec, live, 0, |live|))
    ensures var lives := EventEntries(h.codec, live, 0, |live|);
            && Output(h.codec, WrittenAll(started.sent, lives)) == started.sent + lives
            && DistinctKeys(started.sent + lives)
            && DistinctKeys(EventEntries(h.codec, h.window + live, 0, |h.window + live|))
  {
    var lives := EventEntries(h.codec, live, 0, |live|);
    assert DistinctKeys(EventEntries(h.codec, h.window + live, 0, |h.window + live|)) && Keys(lives) !! Keys(started.sent);
    hide *;
    LiveDistinct(h, live);
    WrittenAllFresh(started.sent, lives);
    DistinctAppend(started.sent, lives);
    OutputOfPrinting(h.codec, started.sent, lives);
  }

  lemma LiveDistinct(h: HandOff, live: seq<Event>)
    requires DistinctKeys(EventEntries(h.codec, h.window + live, 0, |h.window + live|))
    ensures DistinctKeys(EventEntries(h.codec, live, 0, |live|))
  {
    hide EventEntries, DistinctKeys;
    EntriesTo(h, live, 0);
    DistinctAppend(h.Part(0, |h.window|), EventEntries(h.codec, live, 0, |live|));
  }

  lemma OutputOfPrinting(codec: Codec, a: seq<Entry>, b: seq<Entry>)
    requires AllPrint(codec, a) && AllPrint(codec, b)
    ensures Output(codec, a + b) == a + b
  {
    hide Prints;
    assert forall e | e in a + b :: e in a || e in b;
    FilterAll(Printing(codec), a + b);
  }

  /** With the buffer never cleared, what was held back is the end of the buffer. */
  lemma HeldEndsWindow(scope: Scope, buffers: Buffers, waiting: System, published: seq<Event>, read: Step, h: HandOff)
    requires read.CyclesRead? && Waiting(scope, buffers, waiting, published, true) && Meets(h, scope, waiting, read)
    ensures HeldBack(scope, waiting.conn) == h.Part(h.p, |h.window|) && |h.window| <= LIVE_BUFFER_MAX
    ensures waiting.conn == ATTACHED.(pending := waiting.conn.pending)
  {
    var held := PendingEndsBuffer(scope, buffers, waiting, published);
    EntriesShift(scope.codec, held, waiting.conn.pending, |waiting.conn.pending|);
    hide EventEntries, DistinctKeys, Keys, ResumePoint, Selected;
  }

  lemma FirstInWindow(h: HandOff, lastEventId: Option<Id>)
    ensures First(ResumePoint(h.Part(0, |h.window|), lastEventId)) <= |h.window|
  {
  }

  // ---------------------------------------------------------------------------
  // What the entries say
  // ---------------------------------------------------------------------------

  /** The entries say these events, in order. */
  predicate Say(entries: seq<Entry>, events: seq<Event>, from: nat, to: nat)
    requires from <= to <= |events|
  {
    |entries| == to - from && forall i | 0 <= i < |entries| :: entries[i].body == EventBody(events[from + i])
  }

  lemma EntriesSay(codec: Codec, events: seq<Event>, from: nat, to: nat)
    requires from <= to <= |events|
    ensures Say(EventEntries(codec, events, from, to), events, from, to)
  {
    forall i | 0 <= i < to - from ensures EventEntries(codec, events, from, to)[i].body == EventBody(events[from + i]) {
      EntryAt(codec, events, from, to, i);
    }
  }

  /**
   * What a client receives over a whole run as `OrderedHandOff` takes it: the
   * notice about the replay, older history, the buffered events after the
   * cursor, those published while waiting that the cursor passed over, and every
   * later event, each saying what was published.
   */
  lemma ReceivedInOrder(scope: Scope, buffers: Buffers, before: seq<Step>, read: Step, after: seq<Step>, h: HandOff)
    returns (notice: Entry, older: seq<Entry>, owed: seq<Entry>, late: seq<Entry>, lives: seq<Entry>)
    requires Bounded(buffers) && NoRead(before) && NoClear(scope, before) && read.CyclesRead?
    requires Open(Handed(scope, buffers, before, read, after))
    requires var waiting, live := Run(scope, System(buffers, ATTACHED), before), PublishedIn(scope, after);
             && GoesLive(scope, waiting, read) && AllPrint(scope.codec, EventEntries(scope.codec, live, 0, |live|))
             && Meets(h, scope, waiting, read) && LiveApart(h, Next(scope, waiting, read).conn, live)
    ensures h.WellFormed() && (h.first > 0 ==> older == [])
    ensures var waiting, live := Run(scope, System(buffers, ATTACHED), before), PublishedIn(scope, after);
            && Output(scope.codec, Handed(scope, buffers, before, read, after).sent) == [notice] + older + owed + late + lives
            && notice.body == Notice(read.connectedAt, scope.taskId, ReplayAt(scope, waiting, read).summary)
            && Say(owed, h.window, h.first, |h.window|)
            && Say(late, h.window, h.p, if h.first > h.p then h.first else h.p)
            && Say(lives, live, 0, |live|)
  {
    var waiting, live := Run(scope, System(buffers, ATTACHED), before), PublishedIn(scope, after);
    older := OrderedHandOff(scope, buffers, before, read, after, h);
    notice, lives := NoticeAt(scope, waiting, read), EventEntries(scope.codec, live, 0, |live|);
    owed, late := h.Part(h.first, |h.window|), h.Late();
    assert notice.body == Notice(read.connectedAt, scope.taskId, ReplayAt(scope, waiting, read).summary);
    assert late == if h.first > h.p then h.Part(h.p, h.first) else [];
    EntriesSay(scope.codec, live, 0, |live|);
    EntriesSay(h.codec, h.window, h.first, |h.window|);
    if h.first > h.p {
      EntriesSay(h.codec, h.window, h.p, h.first);
    }
    hide *;
  }

  // ---------------------------------------------------------------------------
  // The one resume that reorders
  // ---------------------------------------------------------------------------

  lemma RunPush(scope: Scope, sys: System, steps: seq<Step>, step: Step)
    ensures Run(scope, sys, steps + [step]) == Next(scope, Run(scope, sys, steps), step)
  {
    InitOfPush(steps, step);
  }

  lemma TwoPublished(scope: Scope, a: Event, b: Event)
    requires a.taskId == b.taskId == scope.taskId
    ensures var waiting := Run(scope, System(map[], ATTACHED), [Publish(a), Publish(b)]);
            waiting.conn == ATTACHED.(pending := [a, b]) && BufferOf(waiting.buffers, scope.taskId) == [a, b]
  {
    RunPush(scope, System(map[], ATTACHED), [], Publish(a));
    RunPush(scope, System(map[], ATTACHED), [Publish(a)], Publish(b));
    assert [] + [Publish(a)] == [Publish(a)] && [Publish(a)] + [Publish(b)] == [Publish(a), Publish(b)];
    assert [] + [a] == [a] && [a] + [b] == [a, b];
  }

  lemma TwoEntries(codec: Codec, a: Event, b: Event)
    ensures var ea, eb := EventEntry(codec, a), EventEntry(codec, b);
            && EventEntries(codec, [a, b], 0, 1) == [ea] && EventEntries(codec, [a, b], 1, 2) == [eb]
            && EventEntries(codec, [a, b], 0, 2) == [ea, eb]
            && Keys([ea, eb]) == {ea.key, eb.key} && (ea.key != eb.key ==> DistinctKeys([ea, eb]))
  {
    var ea, eb := EventEntry(codec, a), EventEntry(codec, b);
    TwoKeys(ea, eb);
    hide Keys, DistinctKeys;
  }

  lemma TwoKeys(x: Entry, y: Entry)
    ensures Keys([x, y]) == {x.key, y.key} && (x.key != y.key ==> DistinctKeys([x, y]))
  {
    OneKey(x);
    OneKey(y);
    KeysAppend([x], [y]);
    DistinctAppend([x], [y]);
    assert [x] + [y] == [x, y];
    hide *;
  }

  lemma ResumeAtFirst(entries: seq<Entry>, id: Id)
    requires |entries| == 2 && entries[0].id == id && entries[1].id != id
    ensures ResumePoint(entries, Some(id)) == Some(0)
  {
    assert IsMatch(entries, Some(id), 0) && !IsMatch(entries, Some(id), 1);
  }

  /**
   * A cursor naming the first of two events published while the cycles were
   * awaited: the client receives them swapped.
   */
  lemma ResumeInsideWindowReorders(scope: Scope, a: Event, b: Event, connectedAt: string) returns (notice: Entry)
    requires a.taskId == b.taskId == scope.taskId
    requires Prints(scope.codec, EventEntry(scope.codec, a)) && Prints(scope.codec, EventEntry(scope.codec, b))
    requires EventEntry(scope.codec, a).id != EventEntry(scope.codec, b).id
    requires forall summary :: Hello(scope, connectedAt, summary).key !in {EventEntry(scope.codec, a).key, EventEntry(scope.codec, b).key}
    ensures var cursor := EventEntry(scope.codec, a).id;
            var steps := [Publish(a), Publish(b)] + [CyclesRead([], Some(cursor), connectedAt)];
            var out := Output(scope.codec, Run(scope, System(map[], ATTACHED), steps).conn.sent);
            out == [notice] + [EventEntry(scope.codec, b)] + [EventEntry(scope.codec, a)]
  {
    var ea, eb := EventEntry(scope.codec, a), EventEntry(scope.codec, b);
    var before, read := [Publish(a), Publish(b)], CyclesRead([], Some(ea.id), connectedAt);
    var waiting := Run(scope, System(map[], ATTACHED), before);
    var h := HandOff(scope.codec, [a, b], 0, 1);
    TwoPublished(scope, a, b);
    RunPush(scope, System(map[], ATTACHED), before, read);
    MeetsSecond(scope, waiting, a, b, connectedAt);
    ReplayOfSecond(scope.codec, a, b);
    notice := NoticeAt(scope, waiting, read);
    assert h.Late() == h.Part(0, 1) && Open(waiting.conn) && Prints(scope.codec, notice) && Prints(scope.codec, ea) && Prints(scope.codec, eb);
    assert HeldBack(scope, waiting.conn) == h.Part(0, 2);
    assert ReplayAt(scope, waiting, read).entries == [eb];
    hide *;
    TwoEntries(scope.codec, a, b);
    SecondGoesLive(scope, waiting, read, ea, eb);
    var older := OutputAtHandOff(scope, waiting, read, h);
    AppendNothing([notice]);
    OutputOfThree(scope.codec, notice, eb, ea);
  }

  lemma OutputOfThree(codec: Codec, x: Entry, y: Entry, z: Entry)
    requires Prints(codec, x) && Prints(codec, y) && Prints(codec, z)
    ensures Output(codec, [x] + [y] + [z]) == [x] + [y] + [z]
  {
    hide Prints;
    FilterAll(Printing(codec), [x] + [y] + [z]);
  }

  lemma SecondGoesLive(scope: Scope, waiting: System, read: Step, ea: Entry, eb: Entry)
    requires Prints(scope.codec, ea) && Prints(scope.codec, eb)
    requires read.CyclesRead? && Open(waiting.conn) && !waiting.conn.streaming && !waiting.conn.failed && waiting.conn.sent == []
    requires ReplayAt(scope, waiting, read).entries == [eb] && HeldBack(scope, waiting.conn) == [ea, eb]
    ensures GoesLive(scope, waiting, read)
  {
    var replayed, held := ReplayAt(scope, waiting, read).entries, HeldBack(scope, waiting.conn);
    hide *;
    GoesLiveExactly(scope, waiting, read);
    assert forall e | e in replayed :: e == eb;
    assert forall e | e in held :: e == ea || e == eb;
    AllLive(scope, waiting, read);
  }

  lemma AllLive(scope: Scope, waiting: System, read: Step)
    requires Next(scope, waiting, read).conn.streaming
    requires forall e | e in HeldBack(scope, waiting.conn) :: Prints(scope.codec, e)
    ensures GoesLive(scope, waiting, read)
  {
    hide Next;
  }

  lemma MeetsSecond(scope: Scope, waiting: System, a: Event, b: Event, connectedAt: string)
    requires EventEntry(scope.codec, a).id != EventEntry(scope.codec, b).id
    requires forall summary :: Hello(scope, connectedAt, summary).key !in {EventEntry(scope.codec, a).key, EventEntry(scope.codec, b).key}
    requires waiting.conn == ATTACHED.(pending := [a, b]) && BufferOf(waiting.buffers, scope.taskId) == [a, b]
    ensures Meets(HandOff(scope.codec, [a, b], 0, 1), scope, waiting,
                  CyclesRead([], Some(EventEntry(scope.codec, a).id), connectedAt))
  {
    var ea, eb := EventEntry(scope.codec, a), EventEntry(scope.codec, b);
    hide EventEntries;
    TwoEntries(scope.codec, a, b);
    ResumeAtFirst([ea, eb], ea.id);
    ReplayOfSecond(scope.codec, a, b);
    hide Selected, ResumePoint, Keys, DistinctKeys;
  }

  lemma ReplayOfSecond(codec: Codec, a: Event, b: Event)
    requires EventEntry(codec, a).id != EventEntry(codec, b).id
    ensures var ea, eb := EventEntry(codec, a), EventEntry(codec, b);
            && Selected(codec, [], [a, b], Some(ea.id)).entries == [eb]
            && Keys(Selected(codec, [], [a, b], Some(ea.id)).entries) == {eb.key}
  {
    var ea, eb := EventEntry(codec, a), EventEntry(codec, b);
    TwoEntries(codec, a, b);
    ResumeAtFirst([ea, eb], ea.id);
    OneKey(eb);
    KeepLastDistinct([eb]);
    hide EventEntries, Selected, KeepLast, Keys, ResumePoint;
    var none := ReplayEndsWithBuffer(codec, [], [a, b], Some(ea.id));
    AppendNothing([eb]);
  }
}
