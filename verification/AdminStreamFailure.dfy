/** The hand-off that an event which does not print brings to an end (src/admin/adminStreamRoutes.ts). */
module AdminStreamFailure {
  import opened Seqs
  import opened AgentEventBus
  import opened ReplayCandidates
  import opened LogStreamReplay
  import opened LogStreamReplayProperties
  import opened AdminStreamRoutes
  import opened AdminStreamProperties
  import opened AdminStreamOrder

  // ---------------------------------------------------------------------------
  // Only the buffer can bring it about
  // ---------------------------------------------------------------------------

  predicate Serializes(events: seq<Event>) {
    forall e | e in events :: !e.data.Unserializable?
  }

  /** Cycles as they are read back: their events have been through `JSON.stringify` and `JSON.parse`. */
  predicate Stored(cycles: seq<Cycle>) {
    forall c | c in cycles :: Serializes(c.agentEvents)
  }

  lemma PrintAppend(codec: Codec, a: seq<Entry>, b: seq<Entry>)
    requires AllPrint(codec, a) && AllPrint(codec, b)
    ensures AllPrint(codec, a + b)
  {
    hide Prints;
  }

  lemma {:induction false} LinesPrint(codec: Codec, cycle: Cycle, lines: seq<string>)
    ensures AllPrint(codec, LineEntries(codec, cycle, lines))
  {
    if lines != [] {
      LinesPrint(codec, cycle, lines[..|lines| - 1]);
      PrintAppend(codec, LineEntries(codec, cycle, lines[..|lines| - 1]), [LineEntry(codec, cycle, lines[|lines| - 1])]);
    }
  }

  lemma {:induction false} KeptPrint(codec: Codec, events: seq<Event>, n: nat, skipped: set<nat>)
    requires n <= |events| && Serializes(events)
    ensures AllPrint(codec, KeptEvents(codec, events, n, skipped))
  {
    if n > 0 {
      KeptPrint(codec, events, n - 1, skipped);
      assert events[n - 1] in events;
      PrintAppend(codec, KeptEvents(codec, events, n - 1, skipped), [EventEntry(codec, events[n - 1])]);
    }
  }

  lemma {:induction false} HistoryPrints(codec: Codec, cycles: seq<Cycle>, n: nat, copies: set<nat>)
    requires n <= |cycles| && Stored(cycles)
    ensures AllPrint(codec, OldestFirst(codec, cycles, n, copies))
  {
    if n > 0 {
      var cycle := cycles[n - 1];
      assert cycle in cycles;
      hide LogLines;
      HistoryPrints(codec, cycles, n - 1, copies);
      LinesPrint(codec, cycle, LogLines(cycle.agentLogs));
      KeptPrint(codec, cycle.agentEvents, |cycle.agentEvents|, Skipped(cycles, n - 1, copies));
      hide AllPrint, KeptEvents, LineEntries;
      PrintAppend(codec, OldestFirst(codec, cycles, n - 1, copies), LineEntries(codec, cycle, LogLines(cycle.agentLogs)));
      PrintAppend(codec, OldestFirst(codec, cycles, n - 1, copies) + LineEntries(codec, cycle, LogLines(cycle.agentLogs)),
                  KeptEvents(codec, cycle.agentEvents, |cycle.agentEvents|, Skipped(cycles, n - 1, copies)));
    }
  }

  lemma {:induction false} KeepLastMember(s: seq<Entry>, e: Entry)
    requires e in KeepLast(s)
    ensures e in s
  {
    if s != [] && e in KeepLast(s[1..]) {
      KeepLastMember(s[1..], e);
    }
  }

  lemma LastNMember(s: seq<Entry>, n: nat, e: Entry)
    requires e in LastN(s, n)
    ensures e in s
  {
  }

  /** An entry of the replay that does not print is one the buffer owes. */
  lemma FailingIsOwed(codec: Codec, cycles: seq<Cycle>, buffered: seq<Event>, lastEventId: Option<Id>, e: Entry)
    requires Stored(cycles) && e in Selected(codec, cycles, buffered, lastEventId).entries && !Prints(codec, e)
    ensures e in Owed(SourceOf(codec, cycles, buffered, lastEventId))
  {
    var live := LastN(buffered, LOG_STREAM_REPLAY_LIMIT);
    var resumeAfter := ResumePoint(EventEntries(codec, live, 0, |live|), lastEventId);
    var all := Candidates(codec, cycles, live, resumeAfter);
    LazyEqualsEager(codec, cycles, buffered, lastEventId);
    assert SourceOf(codec, cycles, buffered, lastEventId) == Source(codec, live, resumeAfter, cycles, NewestCopies(cycles, live));
    hide *;
    LastNMember(KeepLast(LastN(all, REPLAY_SCAN_LIMIT)), LOG_STREAM_REPLAY_LIMIT, e);
    KeepLastMember(LastN(all, REPLAY_SCAN_LIMIT), e);
    LastNMember(all, REPLAY_SCAN_LIMIT, e);
    FailingCandidate(codec, cycles, live, resumeAfter, e);
  }

  lemma FailingCandidate(codec: Codec, cycles: seq<Cycle>, live: seq<Event>, resumeAfter: Option<nat>, e: Entry)
    requires Stored(cycles) && (resumeAfter.Some? ==> resumeAfter.value < |live|)
    requires e in Candidates(codec, cycles, live, resumeAfter) && !Prints(codec, e)
    ensures First(resumeAfter) <= |live| && e in Owed(Source(codec, live, resumeAfter, cycles, NewestCopies(cycles, live)))
  {
    if resumeAfter.None? {
      var history := OldestFirst(codec, cycles, |cycles|, NewestCopies(cycles, live));
      HistoryPrints(codec, cycles, |cycles|, NewestCopies(cycles, live));
      assert e !in history;
      FromEither(history, EventEntries(codec, live, 0, |live|), e);
    }
    hide Prints, EventEntries, OldestFirst, NewestCopies;
  }

  lemma FromEither(a: seq<Entry>, b: seq<Entry>, e: Entry)
    requires e in a + b
    ensures e in a || e in b
  {
  }

  lemma DistinctMember(older: seq<Entry>, newer: seq<Entry>, e: Entry)
    requires DistinctKeys(older + newer) && e in older + newer && e.key in Keys(newer)
    ensures e in newer
  {
    if e in older {
      KeyIn(older, e);
      DistinctAppend(older, newer);
    }
  }

  /**
   * With stored cycles the buffer decides: the stream goes live exactly when
   * the newest record of each key among the buffered events after the cursor
   * prints, but for one carrying the notice's own key.
   */
  lemma GoesLiveByBuffer(scope: Scope, waiting: System, read: Step)
    requires read.CyclesRead? && Open(waiting.conn) && !waiting.conn.streaming && !waiting.conn.failed && waiting.conn.sent == []
    requires Stored(read.cycles)
    ensures var source := SourceOf(scope.codec, read.cycles, BufferOf(waiting.buffers, scope.taskId), read.lastEventId);
            Next(scope, waiting, read).conn.streaming <==>
              forall e | e in KeepLast(Owed(source)) && e.key != NoticeAt(scope, waiting, read).key :: Prints(scope.codec, e)
  {
    var buffered := BufferOf(waiting.buffers, scope.taskId);
    var owed := Owed(SourceOf(scope.codec, read.cycles, buffered, read.lastEventId));
    var entries := ReplayAt(scope, waiting, read).entries;
    GoesLiveExactly(scope, waiting, read);
    ReplayDistinct(scope.codec, read.cycles, buffered, read.lastEventId);
    var older := ReplayEndsWithBuffer(scope.codec, read.cycles, buffered, read.lastEventId);
    assert Selected(scope.codec, read.cycles, buffered, read.lastEventId).entries == entries == older + KeepLast(owed);
    hide *;
    KeepLastKeys(owed);
    forall e | e in entries && !Prints(scope.codec, e) ensures e in KeepLast(owed) {
      FailingIsOwed(scope.codec, read.cycles, buffered, read.lastEventId, e);
      KeyIn(owed, e);
      DistinctMember(older, KeepLast(owed), e);
    }
    assert forall e | e in KeepLast(owed) :: e in older + KeepLast(owed);
  }

  lemma {:induction false} KeepLastKeys(s: seq<Entry>)
    ensures Keys(KeepLast(s)) == Keys(s)
  {
    if s != [] {
      KeepLastKeys(s[1..]);
      assert s == [s[0]] + s[1..];
      KeysCons(s[0], s[1..]);
      KeysCons(s[0], KeepLast(s[1..]));
    }
  }

  // ---------------------------------------------------------------------------
  // An event that does
  // ---------------------------------------------------------------------------

  /** A replay with an entry that does not print: nothing more is taken for writing, whatever is published. */
  lemma UnprintableReplayIsSilent(scope: Scope, waiting: System, read: Step, after: seq<Step>, e: Entry)
    requires read.CyclesRead? && Open(waiting.conn) && !waiting.conn.streaming && !waiting.conn.failed && waiting.conn.sent == []
    requires e in ReplayAt(scope, waiting, read).entries && e.key != NoticeAt(scope, waiting, read).key && !Prints(scope.codec, e)
    ensures var started := Next(scope, waiting, read);
            && started.conn.failed && !started.conn.streaming
            && Run(scope, started, after).conn.sent == started.conn.sent
  {
    GoesLiveExactly(scope, waiting, read);
    SilentAfterFailure(scope, Next(scope, waiting, read), after);
    hide Selected, Run, Next;
  }

  lemma OnePublished(scope: Scope, e: Event)
    requires e.taskId == scope.taskId
    ensures var waiting := Run(scope, System(map[], ATTACHED), [] + [Publish(e)]);
            waiting.conn == ATTACHED.(pending := [e]) && BufferOf(waiting.buffers, scope.taskId) == [e]
  {
    RunPush(scope, System(map[], ATTACHED), [], Publish(e));
    assert [] + [e] == [e];
  }

  /** Published while the cycles are awaited, such an event is in the replay. */
  lemma ReplayOfOne(codec: Codec, e: Event)
    ensures EventEntry(codec, e) in Selected(codec, [], [e], None).entries
  {
    var older := ReplayEndsWithBuffer(codec, [], [e], None);
    NoCursor(EventEntries(codec, [e], 0, 1));
    assert EventEntries(codec, [e], 0, 1) == [EventEntry(codec, e)] by {
      assert EventEntries(codec, [e], 0, 0) == [];
    }
    OneKey(EventEntry(codec, e));
    KeepLastDistinct([EventEntry(codec, e)]);
    hide Selected, EventEntries, KeepLast, ResumePoint;
  }

  lemma NoCursor(entries: seq<Entry>)
    ensures ResumePoint(entries, None).None?
  {
  }

  lemma EventEndsHandOff(scope: Scope, e: Event, connectedAt: string, after: seq<Step>)
    requires e.taskId == scope.taskId && !Prints(scope.codec, EventEntry(scope.codec, e))
    requires forall summary :: Hello(scope, connectedAt, summary).key != EventEntry(scope.codec, e).key
    ensures var end := Run(scope, System(map[], ATTACHED), [] + [Publish(e)] + [CyclesRead([], None, connectedAt)]);
            && end.conn.failed && !end.conn.streaming && Run(scope, end, after).conn.sent == end.conn.sent
  {
    var waiting, read := Run(scope, System(map[], ATTACHED), [] + [Publish(e)]), CyclesRead([], None, connectedAt);
    OnePublished(scope, e);
    RunPush(scope, System(map[], ATTACHED), [] + [Publish(e)], read);
    ReplayOfOne(scope.codec, e);
    assert Open(waiting.conn) && EventEntry(scope.codec, e) in ReplayAt(scope, waiting, read).entries;
    hide Run, Selected, EventEntries, Next;
    UnprintableReplayIsSilent(scope, waiting, read, after, EventEntry(scope.codec, e));
  }

  /** A payload that does not serialize, such as a big integer. */
  const BIG := Event("task", 1, "now", "tool.result", Unserializable(0))

  /** Keys by the kind of entry, and nothing redacted. */
  const KINDS :=
    Codec((body: Body) => Key(if body.EventBody? then "event" else "other"), (key: Key) => Id(key.text), (event: Event) => false)

  /**
   * One event with such a payload, published while the cycles are awaited: the
   * handler fails before the stream is live, and no later event is taken.
   */
  lemma UnprintableEventEndsHandOff(after: seq<Step>)
    ensures var scope := Scope(KINDS, "task");
            var end := Run(scope, System(map[], ATTACHED), [] + [Publish(BIG)] + [CyclesRead([], None, "now")]);
            && end.conn.failed && !end.conn.streaming && Run(scope, end, after).conn.sent == end.conn.sent
  {
    var scope := Scope(KINDS, "task");
    assert !Prints(scope.codec, EventEntry(scope.codec, BIG));
    assert forall summary :: Hello(scope, "now", summary).key == Key("other");
    assert EventEntry(scope.codec, BIG).key == Key("event") != Key("other");
    hide *;
    EventEndsHandOff(scope, BIG, "now", after);
  }
}
