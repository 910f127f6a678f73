/** What the entries a client receives say, field by field (src/admin/adminStreamRoutes.ts, src/admin/logStreamReplay.ts). */
module AdminStreamContents {
  import opened Seqs
  import opened AgentEventBus
  import opened ReplayCandidates
  import opened LogStreamReplay
  import opened LogStreamReplayProperties
  import opened AdminStreamRoutes
  import opened AdminStreamProperties
  import opened AdminStreamOrder

  // ---------------------------------------------------------------------------
  // Keys and ids belong to what an entry says
  // ---------------------------------------------------------------------------

  ghost predicate AllKeyed(codec: Codec, entries: seq<Entry>) {
    forall x | x in entries :: x.key == codec.key(x.body) && x.id == codec.id(codec.key(x.body))
  }

  lemma KeyedAppend(codec: Codec, a: seq<Entry>, b: seq<Entry>)
    requires AllKeyed(codec, a) && AllKeyed(codec, b)
    ensures AllKeyed(codec, a + b)
  {
  }

  lemma {:induction false} LinesKeyed(codec: Codec, cycle: Cycle, lines: seq<string>)
    ensures AllKeyed(codec, LineEntries(codec, cycle, lines))
  {
    if lines != [] {
      LinesKeyed(codec, cycle, lines[..|lines| - 1]);
      KeyedAppend(codec, LineEntries(codec, cycle, lines[..|lines| - 1]), [LineEntry(codec, cycle, lines[|lines| - 1])]);
    }
  }

  lemma {:induction false} KeptKeyed(codec: Codec, events: seq<Event>, n: nat, skipped: set<nat>)
    requires n <= |events|
    ensures AllKeyed(codec, KeptEvents(codec, events, n, skipped))
  {
    if n > 0 {
      KeptKeyed(codec, events, n - 1, skipped);
      KeyedAppend(codec, KeptEvents(codec, events, n - 1, skipped), [EventEntry(codec, events[n - 1])]);
    }
  }

  lemma {:induction false} HistoryKeyed(codec: Codec, cycles: seq<Cycle>, n: nat, copies: set<nat>)
    requires n <= |cycles|
    ensures AllKeyed(codec, OldestFirst(codec, cycles, n, copies))
  {
    if n > 0 {
      var cycle := cycles[n - 1];
      hide LogLines;
      HistoryKeyed(codec, cycles, n - 1, copies);
      var lines := LineEntries(codec, cycle, LogLines(cycle.agentLogs));
      var events := KeptEvents(codec, cycle.agentEvents, |cycle.agentEvents|, Skipped(cycles, n - 1, copies));
      LinesKeyed(codec, cycle, LogLines(cycle.agentLogs));
      KeptKeyed(codec, cycle.agentEvents, |cycle.agentEvents|, Skipped(cycles, n - 1, copies));
      hide AllKeyed, KeptEvents, LineEntries;
      KeyedAppend(codec, OldestFirst(codec, cycles, n - 1, copies), lines);
      KeyedAppend(codec, OldestFirst(codec, cycles, n - 1, copies) + lines, events);
    }
  }

  lemma {:induction false} EventsKeyed(codec: Codec, events: seq<Event>, from: nat, to: nat)
    requires from <= to <= |events|
    ensures AllKeyed(codec, EventEntries(codec, events, from, to))
  {
    if from < to {
      EventsKeyed(codec, events, from, to - 1);
      KeyedAppend(codec, EventEntries(codec, events, from, to - 1), [EventEntry(codec, events[to - 1])]);
    }
  }

  lemma {:induction false} KeepLastIsPart(s: seq<Entry>)
    ensures forall e | e in KeepLast(s) :: e in s
  {
    if s != [] {
      KeepLastIsPart(s[1..]);
    }
  }

  lemma LastNIsPart(s: seq<Entry>, n: nat)
    ensures forall e | e in LastN(s, n) :: e in s
  {
  }

  /** Whatever a replay holds is among its candidates. */
  lemma ReplayIsPart(codec: Codec, cycles: seq<Cycle>, buffered: seq<Event>, lastEventId: Option<Id>)
    returns (live: seq<Event>, resumeAfter: Option<nat>)
    ensures live == LastN(buffered, 500) && (resumeAfter.Some? ==> resumeAfter.value < |live|)
    ensures forall e | e in Selected(codec, cycles, buffered, lastEventId).entries :: e in Candidates(codec, cycles, live, resumeAfter)
  {
    live := LastN(buffered, LOG_STREAM_REPLAY_LIMIT);
    resumeAfter := ResumePoint(EventEntries(codec, live, 0, |live|), lastEventId);
    var all := Candidates(codec, cycles, live, resumeAfter);
    LazyEqualsEager(codec, cycles, buffered, lastEventId);
    LastNIsPart(KeepLast(LastN(all, REPLAY_SCAN_LIMIT)), LOG_STREAM_REPLAY_LIMIT);
    KeepLastIsPart(LastN(all, REPLAY_SCAN_LIMIT));
    LastNIsPart(all, REPLAY_SCAN_LIMIT);
    hide Selected, EventEntries, Candidates, ResumePoint, KeepLast;
  }

  lemma CandidatesKeyed(codec: Codec, cycles: seq<Cycle>, live: seq<Event>, resumeAfter: Option<nat>)
    requires resumeAfter.Some? ==> resumeAfter.value < |live|
    ensures AllKeyed(codec, Candidates(codec, cycles, live, resumeAfter))
  {
    match resumeAfter
    case Some(c) => EventsKeyed(codec, live, c + 1, |live|);
    case None => {
      EventsKeyed(codec, live, 0, |live|);
      HistoryKeyed(codec, cycles, |cycles|, NewestCopies(cycles, live));
      hide AllKeyed, OldestFirst, EventEntries;
      KeyedAppend(codec, OldestFirst(codec, cycles, |cycles|, NewestCopies(cycles, live)), EventEntries(codec, live, 0, |live|));
    }
  }

  lemma ReplayKeyed(codec: Codec, cycles: seq<Cycle>, buffered: seq<Event>, lastEventId: Option<Id>)
    ensures AllKeyed(codec, Selected(codec, cycles, buffered, lastEventId).entries)
  {
    var live, resumeAfter := ReplayIsPart(codec, cycles, buffered, lastEventId);
    CandidatesKeyed(codec, cycles, live, resumeAfter);
    hide Selected, Candidates;
  }

  lemma WriteAllKeyed(codec: Codec, sent: seq<Entry>, entries: seq<Entry>)
    requires AllKeyed(codec, sent) && AllKeyed(codec, entries)
    ensures AllKeyed(codec, WriteAll(codec, sent, entries).sent)
  {
    var k := WriteAllStops(codec, sent, entries);
    forall x | x in WrittenAll(sent, entries[..k]) ensures x in sent || x in entries {
      WrittenMember(sent, entries[..k], x);
    }
    hide WriteAll, WrittenAll;
  }

  /** In every run each entry taken carries the key of what it says, and the id of that key. */
  lemma {:induction false} EverythingIsKeyed(scope: Scope, buffers: Buffers, steps: seq<Step>)
    ensures AllKeyed(scope.codec, Run(scope, System(buffers, ATTACHED), steps).conn.sent)
  {
    if steps != [] {
      var front, step := steps[..|steps| - 1], steps[|steps| - 1];
      EverythingIsKeyed(scope, buffers, front);
      var sys := Run(scope, System(buffers, ATTACHED), front);
      hide Run, WriteAll, EventEntries, AllKeyed, Written;
      match step
      case Publish(e) => OneMoreKeyed(scope.codec, sys.conn.sent, EventBody(e));
      case CyclesRead(cycles, lastEventId, connectedAt) =>
        var replay := Selected(scope.codec, cycles, BufferOf(sys.buffers, scope.taskId), lastEventId);
        ReplayKeyed(scope.codec, cycles, BufferOf(sys.buffers, scope.taskId), lastEventId);
        hide Selected;
        OneMoreKeyed(scope.codec, sys.conn.sent, Notice(connectedAt, scope.taskId, replay.summary));
        var noticed := Written(sys.conn.sent, Hello(scope, connectedAt, replay.summary));
        WriteAllKeyed(scope.codec, noticed, replay.entries);
        EventsKeyed(scope.codec, sys.conn.pending, 0, |sys.conn.pending|);
        WriteAllKeyed(scope.codec, WriteAll(scope.codec, noticed, replay.entries).sent,
                      EventEntries(scope.codec, sys.conn.pending, 0, |sys.conn.pending|));
      case _ =>
    }
  }

  lemma OneMoreKeyed(codec: Codec, sent: seq<Entry>, body: Body)
    requires AllKeyed(codec, sent)
    ensures AllKeyed(codec, Written(sent, ReplayEntry(codec, body)))
  {
    hide Remembered;
  }
}
