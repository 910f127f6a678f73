/** What each turn does to a stream connection, and whose events it takes (src/admin/adminStreamRoutes.ts). */
module AdminStreamTurns {
  import opened Seqs
  import opened AgentEventBus
  import opened ReplayCandidates
  import opened LogStreamReplay
  import opened LogStreamReplayProperties
  import opened AdminStreamRoutes
  import opened AdminStreamProperties
  import opened AdminStreamContents

  // ---------------------------------------------------------------------------
  // One event, one entry
  // ---------------------------------------------------------------------------

  /** An entry is taken exactly when none of the last 5000 taken has its key; what cannot be printed throws then. */
  lemma WrittenExactly(codec: Codec, sent: seq<Entry>, e: Entry)
    ensures var seen := exists i :: 0 <= i < |sent| && |sent| - i <= 5000 && sent[i].key == e.key;
            && Written(sent, e) == (if seen then sent else sent + [e])
            && (Throws(codec, sent, e) <==> !seen && e.body.EventBody? && e.body.event.data.Unserializable? && !codec.prints(e.body.event))
  {
    var memory, from := Remembered(sent), |sent| - |Remembered(sent)|;
    if i :| 0 <= i < |sent| && |sent| - i <= 5000 && sent[i].key == e.key {
      KeyAt(sent, i);
      assert memory[i - from] == e.key;
    }
    if e.key in memory {
      var k :| 0 <= k < |memory| && memory[k] == e.key;
      KeyAt(sent, from + k);
      assert sent[from + k].key == e.key;
    }
  }

  /**
   * An event of another task, or one that comes after the connection closed, is
   * ignored. Before the stream is live it joins the queue, which keeps the
   * newest 500; afterwards it is written, while the socket can be written to.
   */
  lemma DeliveredExactly(scope: Scope, conn: Conn, e: Event)
    requires |conn.pending| <= 500
    ensures var after := Delivered(scope, conn, e);
            if conn.closed || e.taskId != scope.taskId then after == conn
            else if conn.streaming then
              after == conn.(sent := if conn.writable then Written(conn.sent, ReplayEntry(scope.codec, EventBody(e))) else conn.sent)
            else after == conn.(pending := LastN(conn.pending + [e], 500))
    ensures ListenerThrows(scope, conn, e)
       <==> && !conn.closed && e.taskId == scope.taskId && conn.streaming && conn.writable
            && Throws(scope.codec, conn.sent, ReplayEntry(scope.codec, EventBody(e)))
  {
    hide Written, Throws;
  }

  /** The other turns: clearing forgets one task's buffer, a failed read closes what has not started, an ended socket takes no more. */
  lemma TurnsExactly(scope: Scope, sys: System, step: Step)
    requires !step.CyclesRead?
    ensures var after := Next(scope, sys, step);
            match step
            case Publish(e) => after.conn == Delivered(scope, sys.conn, e)
              && BufferOf(after.buffers, e.taskId) == LastN(BufferOf(sys.buffers, e.taskId) + [e], 500)
              && forall t | t != e.taskId :: BufferOf(after.buffers, t) == BufferOf(sys.buffers, t)
            case ClearBuffer(taskId) => after.conn == sys.conn
              && forall t :: BufferOf(after.buffers, t) == if t == taskId then [] else BufferOf(sys.buffers, t)
            case CyclesFailed => after.buffers == sys.buffers && after.conn.sent == sys.conn.sent
              && (after.conn.closed <==> sys.conn.closed || !(sys.conn.streaming || sys.conn.failed))
            case SocketEnded => after.buffers == sys.buffers && !after.conn.writable
              && after.conn.closed == sys.conn.closed && after.conn.sent == sys.conn.sent
            case Closed => after.buffers == sys.buffers && after.conn.closed && !after.conn.writable && after.conn.sent == sys.conn.sent
            case _ => true
  {
    hide Delivered;
  }

  /** A closed connection stays closed and takes nothing more, whatever happens. */
  lemma {:induction false} ClosedIsFinal(scope: Scope, sys: System, steps: seq<Step>)
    requires sys.conn.closed
    ensures Run(scope, sys, steps).conn.closed && Run(scope, sys, steps).conn.sent == sys.conn.sent
  {
    if steps != [] {
      ClosedIsFinal(scope, sys, steps[..|steps| - 1]);
    }
  }

  /** On a socket that takes no more, what was held back is dropped. */
  lemma HeldNeedsSocket(scope: Scope, waiting: System, read: Step)
    requires read.CyclesRead? && !waiting.conn.closed && !waiting.conn.streaming && !waiting.conn.failed && !waiting.conn.writable
    ensures var started := Next(scope, waiting, read).conn;
            && started.sent == WriteAll(scope.codec, Written(waiting.conn.sent, NoticeAt(scope, waiting, read)),
                                        ReplayAt(scope, waiting, read).entries).sent
            && (started.streaming ==> started.pending == [])
  {
    hide Selected, WriteAll, Written, EventEntries;
  }

  /** The notice tells who connected when, and what the replay holds. */
  lemma NoticeExactly(scope: Scope, waiting: System, read: Step)
    requires read.CyclesRead?
    ensures var notice, replay := NoticeAt(scope, waiting, read), ReplayAt(scope, waiting, read);
            && notice.body == Notice(read.connectedAt, scope.taskId, replay.summary)
            && replay.summary.replayed == |replay.entries| && replay.summary.limit == 500
            && (replay.summary.omitted > 0 ==> !replay.summary.resumed)
  {
  }

  // ---------------------------------------------------------------------------
  // No other task's events
  // ---------------------------------------------------------------------------

  /** Each task's buffer holds events of that task. */
  ghost predicate Sorted(buffers: Buffers) {
    forall t | t in buffers :: forall e | e in buffers[t] :: e.taskId == t
  }

  /** The entry says an event of this task, or one persisted with the cycles some read step brought, or no event. */
  ghost predicate Ours(scope: Scope, steps: seq<Step>, x: Entry) {
    x.body.EventBody? ==>
      || x.body.event.taskId == scope.taskId
      || exists k, c :: 0 <= k < |steps| && steps[k].CyclesRead? && 0 <= c < |steps[k].cycles|
           && x.body.event in steps[k].cycles[c].agentEvents
  }

  ghost predicate OursAll(scope: Scope, steps: seq<Step>, entries: seq<Entry>) {
    forall x | x in entries :: Ours(scope, steps, x)
  }

  lemma OursGrows(scope: Scope, steps: seq<Step>, step: Step, entries: seq<Entry>)
    requires OursAll(scope, steps, entries)
    ensures OursAll(scope, steps + [step], entries)
  {
    forall x | x in entries ensures Ours(scope, steps + [step], x) {
      if k, c :| 0 <= k < |steps| && steps[k].CyclesRead? && 0 <= c < |steps[k].cycles| && x.body.EventBody?
                 && x.body.event in steps[k].cycles[c].agentEvents
      {
        assert (steps + [step])[k] == steps[k];
      }
    }
  }

  lemma SortedPush(buffers: Buffers, e: Event)
    requires Sorted(buffers)
    ensures Sorted(Pushed(buffers, e))
  {
    var after := Pushed(buffers, e);
    forall t: string, x: Event | t in after && x in after[t] ensures x.taskId == t {
      if t == e.taskId {
        LastNIn(BufferOf(buffers, t) + [e], LIVE_BUFFER_MAX, x);
      }
    }
  }

  lemma LastNIn(s: seq<Event>, n: nat, x: Event)
    requires x in LastN(s, n)
    ensures x in s
  {
  }

  lemma {:induction false} KeptOurs(codec: Codec, events: seq<Event>, n: nat, skipped: set<nat>)
    requires n <= |events|
    ensures forall x | x in KeptEvents(codec, events, n, skipped) :: x.body.EventBody? && x.body.event in events
  {
    if n > 0 {
      KeptOurs(codec, events, n - 1, skipped);
      assert events[n - 1] in events;
    }
  }

  lemma {:induction false} LinesSayNoEvent(codec: Codec, cycle: Cycle, lines: seq<string>)
    ensures forall x | x in LineEntries(codec, cycle, lines) :: !x.body.EventBody?
  {
    if lines != [] {
      LinesSayNoEvent(codec, cycle, lines[..|lines| - 1]);
    }
  }

  /** The event is persisted with one of the first `n` cycles. */
  predicate PersistedIn(cycles: seq<Cycle>, n: nat, e: Event) {
    exists c :: 0 <= c < n && c < |cycles| && e in cycles[c].agentEvents
  }

  lemma {:induction false} HistoryOurs(codec: Codec, cycles: seq<Cycle>, n: nat, copies: set<nat>, x: Entry)
    requires n <= |cycles| && x in OldestFirst(codec, cycles, n, copies) && x.body.EventBody?
    ensures PersistedIn(cycles, n, x.body.event)
  {
    if n > 0 {
      var cycle := cycles[n - 1];
      hide LogLines;
      LinesSayNoEvent(codec, cycle, LogLines(cycle.agentLogs));
      KeptOurs(codec, cycle.agentEvents, |cycle.agentEvents|, Skipped(cycles, n - 1, copies));
      hide KeptEvents, LineEntries;
      if x in OldestFirst(codec, cycles, n - 1, copies) {
        HistoryOurs(codec, cycles, n - 1, copies, x);
      }
    }
  }

  lemma {:induction false} EventsOurs(codec: Codec, events: seq<Event>, from: nat, to: nat)
    requires from <= to <= |events|
    ensures forall x | x in EventEntries(codec, events, from, to) :: x.body.EventBody? && x.body.event in events
  {
    if from < to {
      EventsOurs(codec, events, from, to - 1);
      assert events[to - 1] in events;
    }
  }

  lemma ReplayOurs(codec: Codec, cycles: seq<Cycle>, buffered: seq<Event>, lastEventId: Option<Id>, x: Entry)
    requires x in Selected(codec, cycles, buffered, lastEventId).entries && x.body.EventBody?
    ensures x.body.event in buffered || PersistedIn(cycles, |cycles|, x.body.event)
  {
    var live, resumeAfter := ReplayIsPart(codec, cycles, buffered, lastEventId);
    var from := if resumeAfter.Some? then resumeAfter.value + 1 else 0;
    EventsOurs(codec, live, from, |live|);
    if x in EventEntries(codec, live, from, |live|) {
      LastNIn(buffered, 500, x.body.event);
    } else {
      HistoryOurs(codec, cycles, |cycles|, NewestCopies(cycles, live), x);
    }
    hide Selected, EventEntries, OldestFirst, NewestCopies, LastN;
  }

  lemma ReadOurs(scope: Scope, steps: seq<Step>, sys: System, read: Step)
    requires read.CyclesRead? && Sorted(sys.buffers) && OursAll(scope, steps, sys.conn.sent)
    requires forall e | e in sys.conn.pending :: e.taskId == scope.taskId
    ensures OursAll(scope, steps + [read], Next(scope, sys, read).conn.sent)
  {
    var all, buffered := steps + [read], BufferOf(sys.buffers, scope.taskId);
    var replay := Selected(scope.codec, read.cycles, buffered, read.lastEventId);
    OursGrows(scope, steps, read, sys.conn.sent);
    forall x | x in replay.entries ensures Ours(scope, all, x) {
      if x.body.EventBody? {
        ReplayOurs(scope.codec, read.cycles, buffered, read.lastEventId, x);
        assert all[|steps|] == read;
      }
    }
    EventsOurs(scope.codec, sys.conn.pending, 0, |sys.conn.pending|);
    var noticed := Written(sys.conn.sent, Hello(scope, read.connectedAt, replay.summary));
    WriteAllOurs(scope, all, noticed, replay.entries);
    WriteAllOurs(scope, all, WriteAll(scope.codec, noticed, replay.entries).sent,
                 EventEntries(scope.codec, sys.conn.pending, 0, |sys.conn.pending|));
    hide Selected, WriteAll, EventEntries, Remembered;
  }

  lemma WriteAllOurs(scope: Scope, steps: seq<Step>, sent: seq<Entry>, entries: seq<Entry>)
    requires OursAll(scope, steps, sent) && OursAll(scope, steps, entries)
    ensures OursAll(scope, steps, WriteAll(scope.codec, sent, entries).sent)
  {
    var k := WriteAllStops(scope.codec, sent, entries);
    forall x | x in WrittenAll(sent, entries[..k]) ensures x in sent || x in entries {
      WrittenMember(sent, entries[..k], x);
    }
    hide WriteAll, WrittenAll, Ours;
  }

  /**
   * In every run a connection only ever takes events of its own task, and those
   * persisted with the cycles it was given.
   */
  lemma {:induction false} OnlyThisTask(scope: Scope, buffers: Buffers, steps: seq<Step>)
    requires Sorted(buffers)
    ensures var end := Run(scope, System(buffers, ATTACHED), steps);
            && Sorted(end.buffers) && OursAll(scope, steps, end.conn.sent)
            && forall e | e in end.conn.pending :: e.taskId == scope.taskId
  {
    if steps != [] {
      var front, step := steps[..|steps| - 1], steps[|steps| - 1];
      OnlyThisTask(scope, buffers, front);
      InitLast(steps);
      var sys := Run(scope, System(buffers, ATTACHED), front);
      hide Run, OursAll, Sorted, WriteAll, EventEntries;
      StepOurs(scope, front, sys, step);
    }
  }

  lemma StepOurs(scope: Scope, steps: seq<Step>, sys: System, step: Step)
    requires Sorted(sys.buffers) && OursAll(scope, steps, sys.conn.sent)
    requires forall e | e in sys.conn.pending :: e.taskId == scope.taskId
    ensures var end := Next(scope, sys, step);
            && Sorted(end.buffers) && OursAll(scope, steps + [step], end.conn.sent)
            && forall e | e in end.conn.pending :: e.taskId == scope.taskId
  {
    OursGrows(scope, steps, step, sys.conn.sent);
    hide Ours;
    match step
    case Publish(e) => {
      SortedPush(sys.buffers, e);
      PublishOurs(scope, steps + [step], sys.conn, e);
      hide Pushed, Sorted;
    }
    case CyclesRead(cycles, lastEventId, connectedAt) => {
      ReadOurs(scope, steps, sys, step);
      StartedPending(scope, sys.conn, Selected(scope.codec, cycles, BufferOf(sys.buffers, scope.taskId), lastEventId), connectedAt);
      hide Started, Sorted, Selected;
    }
    case ClearBuffer(t) =>
    case _ =>
  }

  lemma StartedPending(scope: Scope, conn: Conn, replay: Replay, connectedAt: string)
    ensures Started(scope, conn, replay, connectedAt).pending in {conn.pending, []}
  {
    hide WriteAll, EventEntries, Written;
  }

  lemma PublishOurs(scope: Scope, steps: seq<Step>, conn: Conn, e: Event)
    requires OursAll(scope, steps, conn.sent) && forall x | x in conn.pending :: x.taskId == scope.taskId
    ensures OursAll(scope, steps, Delivered(scope, conn, e).sent)
    ensures forall x | x in Delivered(scope, conn, e).pending :: x.taskId == scope.taskId
  {
    hide Remembered;
  }
}
