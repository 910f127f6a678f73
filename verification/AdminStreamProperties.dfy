/** Gapless hand-off from replay to live streaming, over every interleaving (src/admin/adminStreamRoutes.ts). */
module AdminStreamProperties {
  import opened Seqs
  import opened AgentEventBus
  import opened ReplayCandidates
  import opened LogStreamReplay
  import opened LogStreamReplayProperties
  import opened AdminStreamRoutes

  // ---------------------------------------------------------------------------
  // Writing
  // ---------------------------------------------------------------------------

  lemma {:induction false} KeysInOrderMember(out: seq<Entry>, k: Key)
    ensures k in KeysInOrder(out) <==> k in Keys(out)
  {
    if out != [] {
      KeysInOrderMember(out[..|out| - 1], k);
      assert KeysInOrder(out)[|out| - 1] == out[|out| - 1].key;
      assert forall x :: x in KeysInOrder(out) <==> x in KeysInOrder(out[..|out| - 1]) || x == out[|out| - 1].key;
    }
  }

  lemma WrittenKeys(out: seq<Entry>, e: Entry)
    ensures Keys(Written(out, e)) == Keys(out) + {e.key}
  {
    KeysInOrderMember(out, e.key);
    KeepPush(out, e);
  }

  /** Whatever is offered for writing has its key in the output, now or already. */
  lemma {:induction false} WrittenAllKeys(out: seq<Entry>, entries: seq<Entry>)
    ensures Keys(WrittenAll(out, entries)) == Keys(out) + Keys(entries)
  {
    if entries != [] {
      WrittenAllKeys(out, entries[..|entries| - 1]);
      WrittenKeys(WrittenAll(out, entries[..|entries| - 1]), entries[|entries| - 1]);
    }
  }

  /** Entries with keys of their own are appended as they are. */
  lemma {:induction false} WrittenAllFresh(out: seq<Entry>, entries: seq<Entry>)
    requires DistinctKeys(entries) && Keys(entries) !! Keys(out)
    ensures WrittenAll(out, entries) == out + entries
  {
    if entries == [] {
      AppendNothing(out);
    } else {
      var front, e := entries[..|entries| - 1], entries[|entries| - 1];
      WrittenAllFresh(out, front);
      KeysAppend(out, front);
      KeysInOrderMember(out + front, e.key);
      InitLast(entries);
      AppendAssociative(out, front, [e]);
    }
  }

  lemma {:induction false} RememberedEverything(out: seq<Entry>, k: Key)
    requires |out| <= MAX_EMITTED_KEYS
    ensures k in Remembered(out) <==> k in Keys(out)
  {
    KeysInOrderMember(out, k);
  }

  /** Entries whose keys were all written recently leave the output as it is. */
  lemma {:induction false} WrittenAllSeen(out: seq<Entry>, entries: seq<Entry>)
    requires |out| <= MAX_EMITTED_KEYS && Keys(entries) <= Keys(out)
    ensures WrittenAll(out, entries) == out
  {
    if entries != [] {
      WrittenAllSeen(out, entries[..|entries| - 1]);
      RememberedEverything(out, entries[|entries| - 1].key);
    }
  }

  lemma {:induction false} WrittenAllAppend(out: seq<Entry>, a: seq<Entry>, b: seq<Entry>)
    ensures WrittenAll(out, a + b) == WrittenAll(WrittenAll(out, a), b)
    decreases |b|
  {
    if b == [] {
      AppendNothing(a);
    } else {
      WrittenAllAppend(out, a, b[..|b| - 1]);
      AppendFromLast(a, b);
    }
  }

  // ---------------------------------------------------------------------------
  // No key twice within the memory, over every run
  // ---------------------------------------------------------------------------

  /** Two writes of one key are more than 5000 writes apart. */
  ghost predicate KeysSpaced(out: seq<Entry>) {
    forall i, j :: 0 <= i < j < |out| && out[i].key == out[j].key ==> j - i > 5000
  }

  lemma {:induction false} KeyAt(out: seq<Entry>, i: nat)
    requires i < |out|
    ensures KeysInOrder(out)[i] == out[i].key
  {
    if i < |out| - 1 {
      KeyAt(out[..|out| - 1], i);
    }
  }

  lemma WrittenSpaced(out: seq<Entry>, e: Entry)
    requires KeysSpaced(out)
    ensures KeysSpaced(Written(out, e))
  {
    if e.key !in Remembered(out) {
      var memory := Remembered(out);
      forall i | |out| - |memory| <= i < |out| ensures out[i].key != e.key {
        KeyAt(out, i);
        assert memory[i - (|out| - |memory|)] == out[i].key;
      }
    }
  }

  lemma {:induction false} WrittenAllSpaced(out: seq<Entry>, entries: seq<Entry>)
    requires KeysSpaced(out)
    ensures KeysSpaced(WrittenAll(out, entries))
  {
    if entries != [] {
      WrittenAllSpaced(out, entries[..|entries| - 1]);
      WrittenSpaced(WrittenAll(out, entries[..|entries| - 1]), entries[|entries| - 1]);
    }
  }

  /** Writing until an entry throws is writing a beginning of the entries. */
  lemma {:induction false} WriteAllStops(codec: Codec, sent: seq<Entry>, entries: seq<Entry>) returns (k: nat)
    ensures k <= |entries| && WriteAll(codec, sent, entries).sent == WrittenAll(sent, entries[..k])
    ensures !WriteAll(codec, sent, entries).threw ==> k == |entries|
  {
    if entries == [] {
      k := 0;
    } else {
      var front := entries[..|entries| - 1];
      k := WriteAllStops(codec, sent, front);
      hide Written, Throws;
      if WriteAll(codec, sent, front).threw {
        TakeTake(entries, |entries| - 1, k);
      } else {
        assert front[..k] == front;
        k := |entries|;
        assert entries[..k] == entries;
      }
    }
  }

  lemma WriteAllSpaced(codec: Codec, sent: seq<Entry>, entries: seq<Entry>)
    requires KeysSpaced(sent)
    ensures KeysSpaced(WriteAll(codec, sent, entries).sent)
  {
    var k := WriteAllStops(codec, sent, entries);
    WrittenAllSpaced(sent, entries[..k]);
  }

  /** In every run no key is taken again while it is among the last 5000 taken. */
  lemma {:induction false} NoKeyTwiceInMemory(scope: Scope, buffers: Buffers, steps: seq<Step>)
    ensures KeysSpaced(Run(scope, System(buffers, ATTACHED), steps).conn.sent)
  {
    if steps != [] {
      NoKeyTwiceInMemory(scope, buffers, steps[..|steps| - 1]);
      var sys, step := Run(scope, System(buffers, ATTACHED), steps[..|steps| - 1]), steps[|steps| - 1];
      hide KeysSpaced, Written, WriteAll, Run, EventEntries;
      match step
      case Publish(e) => WrittenSpaced(sys.conn.sent, EventEntry(scope.codec, e));
      case CyclesRead(cycles, lastEventId, connectedAt) =>
        var replay := Selected(scope.codec, cycles, BufferOf(sys.buffers, scope.taskId), lastEventId);
        hide Selected;
        var noticed := Written(sys.conn.sent, Hello(scope, connectedAt, replay.summary));
        WrittenSpaced(sys.conn.sent, Hello(scope, connectedAt, replay.summary));
        WriteAllSpaced(scope.codec, noticed, replay.entries);
        WriteAllSpaced(scope.codec, WriteAll(scope.codec, noticed, replay.entries).sent,
                       EventEntries(scope.codec, sys.conn.pending, 0, |sys.conn.pending|));
      case _ =>
    }
  }

  // ---------------------------------------------------------------------------
  // Before the cycles arrive
  // ---------------------------------------------------------------------------

  ghost predicate NoRead(steps: seq<Step>) {
    forall s | s in steps :: !s.CyclesRead?
  }

  ghost predicate NoClear(scope: Scope, steps: seq<Step>) {
    forall s | s in steps :: s != ClearBuffer(scope.taskId)
  }

  ghost predicate Open(conn: Conn) {
    !conn.closed && conn.writable
  }

  lemma PushedBuffer(buffers: Buffers, e: Event, taskId: string)
    ensures BufferOf(Pushed(buffers, e), taskId)
         == if e.taskId == taskId then LastN(BufferOf(buffers, taskId) + [e], LIVE_BUFFER_MAX) else BufferOf(buffers, taskId)
  {
  }

  /** The state while the cycles are awaited, `published` being the task's events since the listener attached. */
  ghost predicate Waiting(scope: Scope, buffers: Buffers, sys: System, published: seq<Event>, intact: bool) {
    && sys.conn == ATTACHED.(pending := LastN(published, MAX_PENDING))
    && |BufferOf(sys.buffers, scope.taskId)| <= LIVE_BUFFER_MAX
    && (intact ==> BufferOf(sys.buffers, scope.taskId) == LastN(BufferOf(buffers, scope.taskId) + published, LIVE_BUFFER_MAX))
  }

  lemma WaitingPublish(scope: Scope, buffers: Buffers, sys: System, published: seq<Event>, intact: bool, e: Event)
    requires Waiting(scope, buffers, sys, published, intact)
    ensures Waiting(scope, buffers, Next(scope, sys, Publish(e)),
                    if e.taskId == scope.taskId then published + [e] else published, intact)
  {
    PushedBuffer(sys.buffers, e, scope.taskId);
    LastNPush(published, e, MAX_PENDING);
    LastNShift(published, e, MAX_PENDING);
    LastNPush(BufferOf(buffers, scope.taskId) + published, e, LIVE_BUFFER_MAX);
    AppendAssociative(BufferOf(buffers, scope.taskId), published, [e]);
  }

  lemma LastNShift(s: seq<Event>, e: Event, n: nat)
    requires n > 0
    ensures (if |LastN(s, n)| >= n then LastN(s, n)[1..] else LastN(s, n)) + [e] == LastN(s + [e], n)
  {
  }

  /** While waiting, the queue holds the newest 500 events published since the listener attached. */
  lemma {:induction false} WaitingHoldsNewest(scope: Scope, buffers: Buffers, steps: seq<Step>)
    requires NoRead(steps) && Bounded(buffers)
    requires Open(Run(scope, System(buffers, ATTACHED), steps).conn)
    ensures Waiting(scope, buffers, Run(scope, System(buffers, ATTACHED), steps), PublishedIn(scope, steps), NoClear(scope, steps))
  {
    if steps == [] {
      AppendNothing(BufferOf(buffers, scope.taskId));
    } else {
      var front, step := steps[..|steps| - 1], steps[|steps| - 1];
      assert step in steps && forall s | s in front :: s in steps;
      var before := Run(scope, System(buffers, ATTACHED), front);
      WaitingHoldsNewest(scope, buffers, front);
      hide Waiting, Started, Delivered;
      if step.Publish? {
        WaitingPublish(scope, buffers, before, PublishedIn(scope, front), NoClear(scope, front), step.event);
        assert NoClear(scope, front) == NoClear(scope, steps) by { InitLast(steps); }
      } else {
        WaitingOther(scope, buffers, before, PublishedIn(scope, front), NoClear(scope, front), step);
        assert NoClear(scope, steps) == (NoClear(scope, front) && step != ClearBuffer(scope.taskId)) by { InitLast(steps); }
      }
    }
  }

  lemma WaitingOther(scope: Scope, buffers: Buffers, sys: System, published: seq<Event>, intact: bool, step: Step)
    requires Waiting(scope, buffers, sys, published, intact)
    requires !step.Publish? && !step.CyclesRead? && Open(Next(scope, sys, step).conn)
    ensures Waiting(scope, buffers, Next(scope, sys, step), published, intact && step != ClearBuffer(scope.taskId))
  {
  }

  // ---------------------------------------------------------------------------
  // After the cycles arrived
  // ---------------------------------------------------------------------------

  lemma {:induction false} RunAppend(scope: Scope, sys: System, a: seq<Step>, b: seq<Step>)
    ensures Run(scope, sys, a + b) == Run(scope, Run(scope, sys, a), b)
    decreases |b|
  {
    if b == [] {
      AppendNothing(a);
    } else {
      RunAppend(scope, sys, a, b[..|b| - 1]);
      AppendFromLast(a, b);
    }
  }

  lemma EventEntriesPush(codec: Codec, events: seq<Event>, e: Event)
    ensures EventEntries(codec, events + [e], 0, |events| + 1) == EventEntries(codec, events, 0, |events|) + [EventEntry(codec, e)]
  {
    EntriesOfPrefix(codec, events, [e], 0, |events|);
  }

  lemma {:induction false} EntriesOfPrefix(codec: Codec, events: seq<Event>, more: seq<Event>, from: nat, to: nat)
    requires from <= to <= |events|
    ensures EventEntries(codec, events + more, from, to) == EventEntries(codec, events, from, to)
  {
    if from < to {
      EntriesOfPrefix(codec, events, more, from, to - 1);
    }
  }

  lemma StreamingStep(scope: Scope, sys: System, step: Step)
    requires Open(Next(scope, sys, step).conn)
    ensures Open(sys.conn)
    ensures var heard := step.Publish? && step.event.taskId == scope.taskId;
            sys.conn.streaming ==>
              && (heard ==> Next(scope, sys, step).conn == sys.conn.(sent := Written(sys.conn.sent, EventEntry(scope.codec, step.event))))
              && (!heard ==> Next(scope, sys, step).conn == sys.conn)
  {
  }

  /** While streaming, every published event of the task is offered for writing as it arrives. */
  lemma {:induction false} StreamingWritesAll(scope: Scope, sys: System, steps: seq<Step>)
    requires sys.conn.streaming && Open(Run(scope, sys, steps).conn)
    ensures var events := PublishedIn(scope, steps);
            Run(scope, sys, steps).conn == sys.conn.(sent := WrittenAll(sys.conn.sent, EventEntries(scope.codec, events, 0, |events|)))
  {
    if steps != [] {
      var front, step := steps[..|steps| - 1], steps[|steps| - 1];
      hide Next, Written, WrittenAll, EventEntries;
      StreamingStep(scope, Run(scope, sys, front), step);
      StreamingWritesAll(scope, sys, front);
      if step.Publish? && step.event.taskId == scope.taskId {
        WriteOneMore(scope.codec, sys.conn.sent, PublishedIn(scope, front), step.event);
      }
    }
  }

  lemma WriteOneMore(codec: Codec, out: seq<Entry>, events: seq<Event>, e: Event)
    ensures WrittenAll(out, EventEntries(codec, events + [e], 0, |events| + 1))
         == Written(WrittenAll(out, EventEntries(codec, events, 0, |events|)), EventEntry(codec, e))
  {
    EventEntriesPush(codec, events, e);
    InitOfPush(EventEntries(codec, events, 0, |events|), EventEntry(codec, e));
  }

  // ---------------------------------------------------------------------------
  // The hand-off
  // ---------------------------------------------------------------------------

  ghost function Handed(scope: Scope, buffers: Buffers, before: seq<Step>, read: Step, after: seq<Step>): Conn {
    Run(scope, System(buffers, ATTACHED), before + [read] + after).conn
  }

  /** A run cut at the turn in which the cycles arrive. */
  lemma RunAtRead(scope: Scope, buffers: Buffers, before: seq<Step>, read: Step, after: seq<Step>)
    ensures var waiting := Run(scope, System(buffers, ATTACHED), before);
            Handed(scope, buffers, before, read, after) == Run(scope, Next(scope, waiting, read), after).conn
  {
    RunAppend(scope, System(buffers, ATTACHED), before + [read], after);
    InitOfPush(before, read);
  }

  // ---------------------------------------------------------------------------
  // Entries that do not print
  // ---------------------------------------------------------------------------

  ghost predicate AllPrint(codec: Codec, entries: seq<Entry>) {
    forall e | e in entries :: Prints(codec, e)
  }

  /** The replay a connection is sent when its cycles arrive. */
  ghost function ReplayAt(scope: Scope, waiting: System, read: Step): Replay
    requires read.CyclesRead?
  {
    Selected(scope.codec, read.cycles, BufferOf(waiting.buffers, scope.taskId), read.lastEventId)
  }

  ghost function NoticeAt(scope: Scope, waiting: System, read: Step): Entry
    requires read.CyclesRead?
  {
    Hello(scope, read.connectedAt, ReplayAt(scope, waiting, read).summary)
  }

  function HeldBack(scope: Scope, conn: Conn): seq<Entry> {
    EventEntries(scope.codec, conn.pending, 0, |conn.pending|)
  }

  /** Few enough entries with keys of their own throw exactly when one that is not taken already does not print. */
  lemma {:induction false} ThrowsExactly(codec: Codec, sent: seq<Entry>, entries: seq<Entry>)
    requires DistinctKeys(entries) && |sent| + |entries| <= MAX_EMITTED_KEYS
    ensures WriteAll(codec, sent, entries).threw
       <==> exists e :: e in entries && e.key !in Keys(sent) && !Prints(codec, e)
    ensures |WriteAll(codec, sent, entries).sent| <= |sent| + |entries|
    ensures Keys(WriteAll(codec, sent, entries).sent) <= Keys(sent) + Keys(entries)
  {
    if entries != [] {
      var front, e := entries[..|entries| - 1], entries[|entries| - 1];
      InitLast(entries);
      ThrowsExactly(codec, sent, front);
      var before := WriteAll(codec, sent, front);
      WrittenKeys(before.sent, e);
      RememberedEverything(before.sent, e.key);
      if !before.threw {
        var k := WriteAllStops(codec, sent, front);
        assert front[..k] == front;
        WrittenAllKeys(sent, front);
      }
      hide Remembered, Prints, Keys, DistinctKeys;
    }
  }

  /** The stream goes live exactly when every entry of the replay, but one carrying the notice's own key, prints. */
  lemma GoesLiveExactly(scope: Scope, waiting: System, read: Step)
    requires read.CyclesRead? && Open(waiting.conn) && !waiting.conn.streaming && !waiting.conn.failed && waiting.conn.sent == []
    ensures var started, notice := Next(scope, waiting, read).conn, NoticeAt(scope, waiting, read);
            && (started.streaming <==>
                  forall e | e in ReplayAt(scope, waiting, read).entries && e.key != notice.key :: Prints(scope.codec, e))
            && (started.failed <==> !started.streaming)
  {
    var entries, notice := ReplayAt(scope, waiting, read).entries, NoticeAt(scope, waiting, read);
    ReplayDistinct(scope.codec, read.cycles, BufferOf(waiting.buffers, scope.taskId), read.lastEventId);
    assert DistinctKeys(entries) && |entries| <= LOG_STREAM_REPLAY_LIMIT;
    OneKey(notice);
    hide *;
    NoticeTaken(notice);
    StartedWhen(scope, waiting, read);
    ThrowsExactly(scope.codec, [notice], entries);
  }

  lemma NoticeTaken(notice: Entry)
    ensures Written([], notice) == [notice]
  {
    assert Remembered([]) == [];
    AppendNothing([notice]);
  }

  lemma StartedWhen(scope: Scope, waiting: System, read: Step)
    requires read.CyclesRead? && Open(waiting.conn) && !waiting.conn.streaming && !waiting.conn.failed && waiting.conn.sent == []
    ensures var started := Next(scope, waiting, read).conn;
            var noticed := Written([], NoticeAt(scope, waiting, read));
            && (started.streaming <==> !WriteAll(scope.codec, noticed, ReplayAt(scope, waiting, read).entries).threw)
            && (started.failed <==> !started.streaming)
  {
    hide Selected, WriteAll, Written, EventEntries;
  }

  lemma FailedStep(scope: Scope, sys: System, step: Step)
    requires sys.conn.failed && !sys.conn.streaming
    ensures var after := Next(scope, sys, step).conn; after.failed && !after.streaming && after.sent == sys.conn.sent
  {
  }

  /** After a replay that threw the client receives nothing more, whatever is published. */
  lemma {:induction false} SilentAfterFailure(scope: Scope, sys: System, steps: seq<Step>)
    requires sys.conn.failed && !sys.conn.streaming
    ensures var after := Run(scope, sys, steps).conn; after.failed && !after.streaming && after.sent == sys.conn.sent
  {
    if steps != [] {
      SilentAfterFailure(scope, sys, steps[..|steps| - 1]);
      FailedStep(scope, Run(scope, sys, steps[..|steps| - 1]), steps[|steps| - 1]);
      hide Next;
    }
  }

  lemma {:induction false} AllPrintWritten(codec: Codec, sent: seq<Entry>, entries: seq<Entry>)
    requires AllPrint(codec, entries)
    ensures WriteAll(codec, sent, entries) == Writing(WrittenAll(sent, entries), false)
  {
    if entries != [] {
      InitLast(entries);
      AllPrintWritten(codec, sent, entries[..|entries| - 1]);
      hide Written, Prints, Remembered;
    }
  }

  /** Everything taken prints, if everything offered without throwing did. */
  lemma {:induction false} NotThrownPrints(codec: Codec, sent: seq<Entry>, entries: seq<Entry>)
    requires AllPrint(codec, sent) && !WriteAll(codec, sent, entries).threw
    ensures AllPrint(codec, WriteAll(codec, sent, entries).sent)
  {
    if entries != [] {
      NotThrownPrints(codec, sent, entries[..|entries| - 1]);
      hide Remembered, Prints;
    }
  }

  lemma {:induction false} KeyTaken(s: seq<Entry>, k: Key) returns (e: Entry)
    requires k in Keys(s)
    ensures e in s && e.key == k
  {
    var front, last := s[..|s| - 1], s[|s| - 1];
    InitLast(s);
    if last.key == k {
      e := last;
    } else {
      e := KeyTaken(front, k);
    }
  }

  lemma {:induction false} KeyIn(s: seq<Entry>, e: Entry)
    requires e in s
    ensures e.key in Keys(s)
  {
    InitLast(s);
    if e != s[|s| - 1] {
      KeyIn(s[..|s| - 1], e);
    }
  }

  lemma {:induction false} WrittenMember(sent: seq<Entry>, entries: seq<Entry>, e: Entry)
    requires e in WrittenAll(sent, entries)
    ensures e in sent || e in entries
  {
    if entries != [] {
      InitLast(entries);
      if e in WrittenAll(sent, entries[..|entries| - 1]) {
        WrittenMember(sent, entries[..|entries| - 1], e);
      }
    }
  }

  /** A key that was taken, and only by entries that print, has reached the client. */
  lemma TakenIsReceived(codec: Codec, sent: seq<Entry>, k: Key)
    requires k in Keys(sent) && forall e | e in sent && e.key == k :: Prints(codec, e)
    ensures k in Keys(Output(codec, sent))
  {
    var e := KeyTaken(sent, k);
    FilterMember(Printing(codec), sent, e);
    KeyIn(Output(codec, sent), e);
  }

  // ---------------------------------------------------------------------------
  // The drain
  // ---------------------------------------------------------------------------

  /** The position of the first entry that throws, `seen` being the keys taken before. */
  function FirstThrowing(codec: Codec, seen: set<Key>, entries: seq<Entry>): (k: nat)
    ensures k <= |entries|
  {
    if entries == [] then 0
    else
      var front, e := entries[..|entries| - 1], entries[|entries| - 1];
      var before := FirstThrowing(codec, seen, front);
      if before < |front| then before
      else if Prints(codec, e) || e.key in seen + Keys(front) then |entries|
      else |front|
  }

  /** That entry does not print and has a key of its own; each one before it prints or is left out as seen. */
  lemma {:induction false} FirstThrowingMeans(codec: Codec, seen: set<Key>, entries: seq<Entry>)
    ensures var k := FirstThrowing(codec, seen, entries);
            && (k < |entries| ==> !Prints(codec, entries[k]) && entries[k].key !in seen + Keys(entries[..k]))
            && forall i | 0 <= i < k :: Prints(codec, entries[i]) || entries[i].key in seen + Keys(entries[..i])
  {
    if entries != [] {
      var front := entries[..|entries| - 1];
      FirstThrowingMeans(codec, seen, front);
      var k := FirstThrowing(codec, seen, front);
      TakeTake(entries, |entries| - 1, k);
      forall i | 0 <= i < k ensures Prints(codec, entries[i]) || entries[i].key in seen + Keys(entries[..i]) {
        TakeTake(entries, |entries| - 1, i);
      }
      hide Prints, Keys;
    }
  }

  lemma TakenKeys(codec: Codec, sent: seq<Entry>, entries: seq<Entry>)
    requires !WriteAll(codec, sent, entries).threw
    ensures Keys(WriteAll(codec, sent, entries).sent) == Keys(sent) + Keys(entries)
  {
    var k := WriteAllStops(codec, sent, entries);
    assert entries[..k] == entries;
    WrittenAllKeys(sent, entries);
    hide WriteAll, WrittenAll, Keys;
  }

  /** Writing reaches the client with exactly the keys of the entries before the first that throws. */
  lemma {:induction false} WritingStops(codec: Codec, sent: seq<Entry>, entries: seq<Entry>)
    requires AllPrint(codec, sent) && |sent| + |entries| <= MAX_EMITTED_KEYS
    ensures var k, after := FirstThrowing(codec, Keys(sent), entries), WriteAll(codec, sent, entries);
            && (after.threw <==> k < |entries|) && |after.sent| <= |sent| + |entries|
            && Keys(Output(codec, after.sent)) == Keys(sent) + Keys(entries[..k])
  {
    if entries == [] {
      OutputOfAll(codec, sent);
    } else {
      var front, e := entries[..|entries| - 1], entries[|entries| - 1];
      InitLast(entries);
      KeepPush(front, e);
      var k, before := FirstThrowing(codec, Keys(sent), front), WriteAll(codec, sent, front);
      FirstThrowingPush(codec, Keys(sent), front, e);
      WriteAllPush(codec, sent, front, e);
      hide *;
      WritingStops(codec, sent, front);
      TakeTake(entries, |entries| - 1, k);
      WholeTake(front);
      WholeTake(entries);
      if !before.threw {
        TakenKeys(codec, sent, front);
        WriteOneEntry(codec, before.sent, e);
      }
    }
  }

  lemma WholeTake(s: seq<Entry>)
    ensures s[..|s|] == s && (s != [] ==> |s[..|s| - 1]| == |s| - 1)
  {
  }

  lemma FirstThrowingPush(codec: Codec, seen: set<Key>, front: seq<Entry>, e: Entry)
    ensures FirstThrowing(codec, seen, front + [e])
         == if FirstThrowing(codec, seen, front) < |front| then FirstThrowing(codec, seen, front)
            else if Prints(codec, e) || e.key in seen + Keys(front) then |front| + 1 else |front|
  {
    InitOfPush(front, e);
    hide Prints, Keys;
  }

  lemma WriteAllPush(codec: Codec, sent: seq<Entry>, front: seq<Entry>, e: Entry)
    ensures var before := WriteAll(codec, sent, front);
            WriteAll(codec, sent, front + [e])
            == if before.threw then before else Writing(Written(before.sent, e), Throws(codec, before.sent, e))
  {
    InitOfPush(front, e);
    hide Written, Throws;
  }

  /** One entry more, everything taken before being remembered. */
  lemma WriteOneEntry(codec: Codec, before: seq<Entry>, e: Entry)
    requires |before| < MAX_EMITTED_KEYS
    ensures var output := Keys(Output(codec, before));
            && (Throws(codec, before, e) <==> e.key !in Keys(before) && !Prints(codec, e))
            && |Written(before, e)| <= |before| + 1
            && Keys(Output(codec, Written(before, e))) == if e.key !in Keys(before) && Prints(codec, e) then output + {e.key} else output
  {
    RememberedEverything(before, e.key);
    FilterPush(Printing(codec), before, e);
    KeepPush(Output(codec, before), e);
    hide Remembered, Prints, Keys, Filter;
  }

  lemma OutputOfAll(codec: Codec, sent: seq<Entry>)
    requires AllPrint(codec, sent)
    ensures Output(codec, sent) == sent
  {
    hide Prints;
    FilterAll(Printing(codec), sent);
  }

  /** How many of the events held back are written before one throws. */
  ghost function Drained(scope: Scope, waiting: System, read: Step): (k: nat)
    requires read.CyclesRead?
    ensures k <= |HeldBack(scope, waiting.conn)|
  {
    FirstThrowing(scope.codec, {NoticeAt(scope, waiting, read).key} + Keys(ReplayAt(scope, waiting, read).entries),
                  HeldBack(scope, waiting.conn))
  }

  /**
   * What a client has received when the stream has gone live: the notice, the
   * replay, and of what was held back exactly the keys before the first entry
   * that throws. The queue is emptied exactly when none does.
   */
  lemma DrainExactly(scope: Scope, waiting: System, read: Step)
    requires read.CyclesRead? && Open(waiting.conn) && !waiting.conn.streaming && waiting.conn.sent == []
    requires |waiting.conn.pending| <= MAX_PENDING && Next(scope, waiting, read).conn.streaming
    ensures var started, held, k := Next(scope, waiting, read).conn, HeldBack(scope, waiting.conn), Drained(scope, waiting, read);
            && Keys(Output(scope.codec, started.sent))
               == {NoticeAt(scope, waiting, read).key} + Keys(ReplayAt(scope, waiting, read).entries) + Keys(held[..k])
            && started.pending == (if k == |held| then [] else waiting.conn.pending)
  {
    var notice, entries := NoticeAt(scope, waiting, read), ReplayAt(scope, waiting, read).entries;
    var replayed := WriteAll(scope.codec, [notice], entries);
    ReplayDistinct(scope.codec, read.cycles, BufferOf(waiting.buffers, scope.taskId), read.lastEventId);
    assert DistinctKeys(entries) && |entries| <= LOG_STREAM_REPLAY_LIMIT && AllPrint(scope.codec, [notice]);
    OneKey(notice);
    NoticeTaken(notice);
    assert |HeldBack(scope, waiting.conn)| <= MAX_PENDING;
    DrainedConn(scope, waiting, read);
    hide *;
    ThrowsExactly(scope.codec, [notice], entries);
    NotThrownPrints(scope.codec, [notice], entries);
    TakenKeys(scope.codec, [notice], entries);
    DrainOf(scope, waiting, read, replayed);
  }

  lemma DrainedConn(scope: Scope, waiting: System, read: Step)
    requires read.CyclesRead? && Open(waiting.conn) && !waiting.conn.streaming && waiting.conn.sent == []
    requires Next(scope, waiting, read).conn.streaming
    ensures var started := Next(scope, waiting, read).conn;
            var replayed := WriteAll(scope.codec, Written([], NoticeAt(scope, waiting, read)), ReplayAt(scope, waiting, read).entries);
            var drained := WriteAll(scope.codec, replayed.sent, HeldBack(scope, waiting.conn));
            && !replayed.threw && started.sent == drained.sent
            && started.pending == (if drained.threw then waiting.conn.pending else [])
  {
    hide Selected, WriteAll, Written, EventEntries;
  }

  lemma DrainOf(scope: Scope, waiting: System, read: Step, replayed: Writing)
    requires read.CyclesRead? && AllPrint(scope.codec, replayed.sent) && |replayed.sent| + |HeldBack(scope, waiting.conn)| <= MAX_EMITTED_KEYS
    requires Keys(replayed.sent) == {NoticeAt(scope, waiting, read).key} + Keys(ReplayAt(scope, waiting, read).entries)
    ensures var drained := WriteAll(scope.codec, replayed.sent, HeldBack(scope, waiting.conn));
            var held, k := HeldBack(scope, waiting.conn), Drained(scope, waiting, read);
            && Keys(Output(scope.codec, drained.sent)) == Keys(replayed.sent) + Keys(held[..k])
            && (drained.threw <==> k < |held|)
  {
    WritingStops(scope.codec, replayed.sent, HeldBack(scope, waiting.conn));
    hide WriteAll, Output, Keys, AllPrint, FirstThrowing, Selected, HeldBack;
  }

  // ---------------------------------------------------------------------------
  // The hand-off as a whole
  // ---------------------------------------------------------------------------

  /**
   * Every interleaving, with or without clearing and resuming, in which the
   * stream goes live. Of the newest 500 events published between attaching and
   * the replay, a client still connected has received the key of each before
   * the first that throws in the drain, so of all when all print; and of the
   * events published since, the key of each that prints, unless an event that
   * does not print shares it.
   */
  lemma GaplessHandOff(scope: Scope, buffers: Buffers, before: seq<Step>, read: Step, after: seq<Step>)
    requires Bounded(buffers) && NoRead(before) && read.CyclesRead?
    requires Open(Handed(scope, buffers, before, read, after))
    requires Next(scope, Run(scope, System(buffers, ATTACHED), before), read).conn.streaming
    ensures var newest, live := LastN(PublishedIn(scope, before), MAX_PENDING), PublishedIn(scope, after);
            var out := Output(scope.codec, Handed(scope, buffers, before, read, after).sent);
            var held, lives := EventEntries(scope.codec, newest, 0, |newest|), EventEntries(scope.codec, live, 0, |live|);
            var k := Drained(scope, Run(scope, System(buffers, ATTACHED), before), read);
            && k <= |held| && Keys(held[..k]) <= Keys(out) && (AllPrint(scope.codec, held) ==> k == |held|)
            && forall e | e in lives && (forall x | x in held + lives && x.key == e.key :: Prints(scope.codec, x)) :: e.key in Keys(out)
  {
    var waiting := Run(scope, System(buffers, ATTACHED), before);
    var started := Next(scope, waiting, read);
    var live := PublishedIn(scope, after);
    var lives := EventEntries(scope.codec, live, 0, |live|);
    RunAtRead(scope, buffers, before, read, after);
    OpenEarlier(scope, started, after);
    OpenEarlierStep(scope, waiting, read);
    WaitingHoldsNewest(scope, buffers, before);
    WaitingConn(scope, buffers, waiting, PublishedIn(scope, before), NoClear(scope, before));
    hide Run, PublishedIn, Next, Waiting, Selected, Keys, Output, FirstThrowing, AllPrint, Bounded, NoRead, Prints, EventEntries;
    assert Open(waiting.conn) && !waiting.conn.streaming && waiting.conn.sent == [] && |waiting.conn.pending| <= MAX_PENDING;
    DrainExactly(scope, waiting, read);
    if AllPrint(scope.codec, HeldBack(scope, waiting.conn)) {
      DrainedAll(scope, waiting, read);
    }
    StreamingWritesAll(scope, started, after);
    StartedMembers(scope, waiting, read);
    OutputGrows(scope.codec, started.conn.sent, lives);
    var held := HeldBack(scope, waiting.conn);
    forall e: Entry | e in lives && (forall x: Entry | x in held + lives && x.key == e.key :: Prints(scope.codec, x))
      ensures e.key in Keys(Output(scope.codec, WrittenAll(started.conn.sent, lives)))
    {
      KeyIn(lives, e);
      LiveReceived(scope.codec, started.conn.sent, held, lives, e.key);
    }
  }

  lemma DrainedAll(scope: Scope, waiting: System, read: Step)
    requires read.CyclesRead? && AllPrint(scope.codec, HeldBack(scope, waiting.conn))
    ensures Drained(scope, waiting, read) == |HeldBack(scope, waiting.conn)|
  {
    var held, seen := HeldBack(scope, waiting.conn), {NoticeAt(scope, waiting, read).key} + Keys(ReplayAt(scope, waiting, read).entries);
    FirstThrowingMeans(scope.codec, seen, held);
    hide FirstThrowing, Prints, Keys, HeldBack, Selected;
  }

  /** What was taken by the hand-off and does not print was held back. */
  lemma StartedMembers(scope: Scope, waiting: System, read: Step)
    requires read.CyclesRead? && Open(waiting.conn) && !waiting.conn.streaming && waiting.conn.sent == []
    requires Next(scope, waiting, read).conn.streaming
    ensures forall x | x in Next(scope, waiting, read).conn.sent :: Prints(scope.codec, x) || x in HeldBack(scope, waiting.conn)
  {
    var notice, entries, held := NoticeAt(scope, waiting, read), ReplayAt(scope, waiting, read).entries, HeldBack(scope, waiting.conn);
    assert AllPrint(scope.codec, [notice]);
    NoticeTaken(notice);
    DrainedConn(scope, waiting, read);
    hide Next, Prints, Selected, HeldBack, Written;
    NotThrownPrints(scope.codec, [notice], entries);
    var replayed := WriteAll(scope.codec, [notice], entries);
    var k := WriteAllStops(scope.codec, replayed.sent, held);
    forall x | x in Next(scope, waiting, read).conn.sent ensures Prints(scope.codec, x) || x in held {
      WrittenMember(replayed.sent, held[..k], x);
    }
    hide WriteAll, WrittenAll;
  }

  lemma OutputGrows(codec: Codec, sent: seq<Entry>, more: seq<Entry>)
    ensures Keys(Output(codec, sent)) <= Keys(Output(codec, WrittenAll(sent, more)))
  {
    hide Keys, Prints;
    forall k | k in Keys(Output(codec, sent)) ensures k in Keys(Output(codec, WrittenAll(sent, more))) {
      var e := KeyTaken(Output(codec, sent), k);
      FilterMember(Printing(codec), sent, e);
      WrittenKeeps(sent, more);
      FilterMember(Printing(codec), WrittenAll(sent, more), e);
      KeyIn(Output(codec, WrittenAll(sent, more)), e);
    }
  }
  lemma WaitingConn(scope: Scope, buffers: Buffers, sys: System, published: seq<Event>, intact: bool)
    requires Waiting(scope, buffers, sys, published, intact)
    ensures sys.conn == ATTACHED.(pending := LastN(published, MAX_PENDING))
  {
  }

  /** Going live without an entry that throws leaves only entries that print, those held back among them. */
  lemma StartedCarriesHeld(scope: Scope, waiting: System, read: Step)
    requires read.CyclesRead? && Open(waiting.conn) && !waiting.conn.streaming && waiting.conn.sent == []
    requires Next(scope, waiting, read).conn.streaming && AllPrint(scope.codec, HeldBack(scope, waiting.conn))
    ensures var sent := Next(scope, waiting, read).conn.sent;
            AllPrint(scope.codec, sent) && Keys(HeldBack(scope, waiting.conn)) <= Keys(sent)
  {
    var replay, notice := ReplayAt(scope, waiting, read), NoticeAt(scope, waiting, read);
    var noticed := Written([], notice);
    var replayed := WriteAll(scope.codec, noticed, replay.entries);
    var held := HeldBack(scope, waiting.conn);
    assert AllPrint(scope.codec, noticed);
    hide Selected, EventEntries;
    assert !replayed.threw && !waiting.conn.closed && !waiting.conn.failed;
    NotThrownPrints(scope.codec, noticed, replay.entries);
    AllPrintWritten(scope.codec, replayed.sent, held);
    NotThrownPrints(scope.codec, replayed.sent, held);
    WrittenAllKeys(replayed.sent, held);
    assert Next(scope, waiting, read).conn.sent == WriteAll(scope.codec, replayed.sent, held).sent;
    hide WriteAll, WrittenAll, AllPrint, Keys, Prints;
  }

  lemma {:induction false} WrittenKeeps(sent: seq<Entry>, more: seq<Entry>)
    ensures forall e | e in sent :: e in WrittenAll(sent, more)
  {
    if more != [] {
      WrittenKeeps(sent, more[..|more| - 1]);
    }
  }

  lemma LiveReceived(codec: Codec, sent: seq<Entry>, held: seq<Entry>, lives: seq<Entry>, k: Key)
    requires forall x | x in sent :: Prints(codec, x) || x in held
    requires k in Keys(lives) && forall x | x in held + lives && x.key == k :: Prints(codec, x)
    ensures k in Keys(Output(codec, WrittenAll(sent, lives)))
  {
    hide Keys, Prints, Output;
    WrittenAllKeys(sent, lives);
    forall e | e in WrittenAll(sent, lives) && e.key == k ensures Prints(codec, e) {
      WrittenMember(sent, lives, e);
      assert e in held ==> e in held + lives;
      assert e in lives ==> e in held + lives;
    }
    TakenIsReceived(codec, WrittenAll(sent, lives), k);
  }

  lemma {:induction false} OpenEarlier(scope: Scope, sys: System, steps: seq<Step>)
    requires Open(Run(scope, sys, steps).conn)
    ensures Open(sys.conn)
  {
    if steps != [] {
      OpenEarlierStep(scope, Run(scope, sys, steps[..|steps| - 1]), steps[|steps| - 1]);
      OpenEarlier(scope, sys, steps[..|steps| - 1]);
    }
  }

  lemma OpenEarlierStep(scope: Scope, sys: System, step: Step)
    requires Open(Next(scope, sys, step).conn)
    ensures Open(sys.conn)
  {
  }
}
