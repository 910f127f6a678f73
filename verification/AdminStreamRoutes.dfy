/** One task-scoped `/logs/stream` connection, interleaved with the event bus (src/admin/adminStreamRoutes.ts). */
module AdminStreamRoutes {
  import opened Seqs
  import opened AgentEventBus
  import opened ReplayCandidates
  import opened LogStreamReplay

  const MAX_EMITTED_KEYS: nat := 5000
  const MAX_PENDING: nat := 500

  // ---------------------------------------------------------------------------
  // Writing with a bounded memory of emitted keys
  // ---------------------------------------------------------------------------

  function KeysInOrder(sent: seq<Entry>): (r: seq<Key>)
    ensures |r| == |sent|
  {
    if sent == [] then [] else KeysInOrder(sent[..|sent| - 1]) + [sent[|sent| - 1].key]
  }

  /** The keys the connection remembers: those of the last 5000 entries it took, oldest first. */
  function Remembered(sent: seq<Entry>): seq<Key> {
    LastN(KeysInOrder(sent), MAX_EMITTED_KEYS)
  }

  /** The entries taken for writing: those whose key is not remembered. */
  function Written(sent: seq<Entry>, e: Entry): seq<Entry> {
    if e.key in Remembered(sent) then sent else sent + [e]
  }

  function WrittenAll(sent: seq<Entry>, entries: seq<Entry>): seq<Entry> {
    if entries == [] then sent else Written(WrittenAll(sent, entries[..|entries| - 1]), entries[|entries| - 1])
  }

  /** Only the entry of an event whose payload does not serialize can fail to print. */
  predicate Prints(codec: Codec, e: Entry) {
    e.body.EventBody? && e.body.event.data.Unserializable? ==> codec.prints(e.body.event)
  }

  /** An entry that does not print is remembered before it throws. */
  predicate Throws(codec: Codec, sent: seq<Entry>, e: Entry) {
    e.key !in Remembered(sent) && !Prints(codec, e)
  }

  datatype Writing = Writing(sent: seq<Entry>, threw: bool)

  /** Writing entry after entry, up to the first that throws. */
  function WriteAll(codec: Codec, sent: seq<Entry>, entries: seq<Entry>): Writing {
    if entries == [] then Writing(sent, false)
    else
      var before, e := WriteAll(codec, sent, entries[..|entries| - 1]), entries[|entries| - 1];
      if before.threw then before else Writing(Written(before.sent, e), Throws(codec, before.sent, e))
  }

  function Printing(codec: Codec): Entry -> bool {
    (e: Entry) => Prints(codec, e)
  }

  /** What reaches the client of the entries taken. */
  function Output(codec: Codec, sent: seq<Entry>): seq<Entry> {
    Filter(Printing(codec), sent)
  }

  // ---------------------------------------------------------------------------
  // The connection and the bus it listens to
  // ---------------------------------------------------------------------------

  /** `streaming` is whether `writeLiveEvent` is set, `failed` whether the handler threw before that. */
  datatype Conn = Conn(
    closed: bool, writable: bool, streaming: bool, failed: bool, pending: seq<Event>, sent: seq<Entry>)

  /** A connection that has just attached its listener. */
  const ATTACHED := Conn(false, true, false, false, [], [])

  /** A connection's fixed parameters. */
  datatype Scope = Scope(codec: Codec, taskId: string)

  function Delivered(scope: Scope, conn: Conn, event: Event): Conn {
    if conn.closed || event.taskId != scope.taskId then conn
    else if !conn.streaming then
      conn.(pending := (if |conn.pending| >= MAX_PENDING then conn.pending[1..] else conn.pending) + [event])
    else if !conn.writable then conn
    else conn.(sent := Written(conn.sent, EventEntry(scope.codec, event)))
  }

  function Hello(scope: Scope, connectedAt: string, summary: Summary): Entry {
    ReplayEntry(scope.codec, Notice(connectedAt, scope.taskId, summary))
  }

  /** Whether delivering the event throws into whoever published it. */
  predicate ListenerThrows(scope: Scope, conn: Conn, event: Event) {
    && !conn.closed && event.taskId == scope.taskId && conn.streaming && conn.writable
    && Throws(scope.codec, conn.sent, EventEntry(scope.codec, event))
  }

  /**
   * The persisted cycles have arrived: replay, go live, drain what was held back, all in one turn. An entry that throws
   * in the replay ends the handler before the stream is live; one that throws in the drain ends it afterwards.
   */
  ghost function Started(scope: Scope, conn: Conn, replay: Replay, connectedAt: string): Conn {
    if conn.closed || conn.streaming || conn.failed then conn
    else
      var replayed := WriteAll(scope.codec, Written(conn.sent, Hello(scope, connectedAt, replay.summary)), replay.entries);
      if replayed.threw then conn.(failed := true, sent := replayed.sent)
      else
        var held := EventEntries(scope.codec, conn.pending, 0, |conn.pending|);
        var drained := if conn.writable then WriteAll(scope.codec, replayed.sent, held) else replayed;
        conn.(streaming := true, pending := if drained.threw then conn.pending else [], sent := drained.sent)
  }

  datatype System = System(buffers: Buffers, conn: Conn)

  /** Everything that can happen between two turns of the event loop. */
  datatype Step =
    | Publish(event: Event)
    | ClearBuffer(taskId: string)
    | CyclesRead(cycles: seq<Cycle>, lastEventId: Option<Id>, connectedAt: string)
    | CyclesFailed
    | SocketEnded
    | Closed

  ghost function Next(scope: Scope, sys: System, step: Step): System {
    match step
    case Publish(e) => System(Pushed(sys.buffers, e), Delivered(scope, sys.conn, e))
    case ClearBuffer(t) => sys.(buffers := Cleared(sys.buffers, t))
    case CyclesRead(cycles, lastEventId, connectedAt) =>
      var replay := Selected(scope.codec, cycles, BufferOf(sys.buffers, scope.taskId), lastEventId);
      sys.(conn := Started(scope, sys.conn, replay, connectedAt))
    case CyclesFailed => if sys.conn.streaming || sys.conn.failed then sys else sys.(conn := sys.conn.(closed := true))
    case SocketEnded => sys.(conn := sys.conn.(writable := false))
    case Closed => sys.(conn := sys.conn.(closed := true, writable := false))
  }

  ghost function Run(scope: Scope, sys: System, steps: seq<Step>): System {
    if steps == [] then sys else Next(scope, Run(scope, sys, steps[..|steps| - 1]), steps[|steps| - 1])
  }

  /** The events of the connection's task published by these steps, in order. */
  function PublishedIn(scope: Scope, steps: seq<Step>): seq<Event> {
    if steps == [] then []
    else
      var before, last := PublishedIn(scope, steps[..|steps| - 1]), steps[|steps| - 1];
      if last.Publish? && last.event.taskId == scope.taskId then before + [last.event] else before
  }

  // ---------------------------------------------------------------------------
  // The handler's object
  // ---------------------------------------------------------------------------

  class LogStream {
    const scope: Scope
    var closed: bool
    var writable: bool
    var streaming: bool
    var failed: bool
    var pendingLiveEvents: seq<Event>
    var emittedKeys: seq<Key>
    var out: seq<Entry>
    ghost var sent: seq<Entry>

    ghost predicate Valid()
      reads this
    {
      emittedKeys == Remembered(sent) && out == Output(scope.codec, sent)
    }

    ghost function Abs(): Conn
      reads this
    {
      Conn(closed, writable, streaming, failed, pendingLiveEvents, sent)
    }

    constructor (scope: Scope)
      ensures Valid() && Abs() == ATTACHED && this.scope == scope
    {
      this.scope := scope;
      closed, writable, streaming, failed := false, true, false, false;
      pendingLiveEvents, emittedKeys, out, sent := [], [], [], [];
    }

    /** The key is remembered first; `threw` is whether the entry then does not print. */
    method WriteEntry(entry: Entry) returns (threw: bool)
      requires Valid()
      modifies this`emittedKeys, this`out, this`sent
      ensures Valid() && sent == Written(old(sent), entry)
      ensures threw == Throws(scope.codec, old(sent), entry)
    {
      if entry.key in emittedKeys {
        return false;
      }
      RememberOneMore(sent, entry);
      FilterPush(Printing(scope.codec), sent, entry);
      if |emittedKeys| >= MAX_EMITTED_KEYS {
        emittedKeys := emittedKeys[1..];
      }
      emittedKeys := emittedKeys + [entry.key];
      sent := sent + [entry];
      if !Prints(scope.codec, entry) {
        return true;
      }
      out := out + [entry];
      threw := false;
    }

    method WriteEntries(entries: seq<Entry>) returns (threw: bool)
      requires Valid()
      modifies this`emittedKeys, this`out, this`sent
      ensures Valid() && Writing(sent, threw) == WriteAll(scope.codec, old(sent), entries)
    {
      threw := false;
      hide Written, Throws, Output, Remembered;
      for i := 0 to |entries|
        invariant Valid() && !threw && Writing(sent, false) == WriteAll(scope.codec, old(sent), entries[..i])
      {
        TakeTake(entries, i + 1, i);
        threw := WriteEntry(entries[i]);
        if threw {
          ThrownStays(scope.codec, old(sent), entries, i + 1);
          return;
        }
      }
      assert entries[..|entries|] == entries;
    }

    /** `threw` is whether an exception leaves the listener. */
    method EventListener(event: Event) returns (threw: bool)
      requires Valid()
      modifies this
      ensures Valid() && Abs() == Delivered(scope, old(Abs()), event)
      ensures threw == ListenerThrows(scope, old(Abs()), event)
    {
      threw := false;
      if closed || event.taskId != scope.taskId {
        return;
      }
      if streaming {
        if writable {
          threw := WriteEntry(EventEntry(scope.codec, event));
        }
      } else {
        if |pendingLiveEvents| >= MAX_PENDING {
          pendingLiveEvents := pendingLiveEvents[1..];
        }
        pendingLiveEvents := pendingLiveEvents + [event];
      }
    }

    /** The handler's continuation after the one `await`, run without interleaving to its end or to where it throws. */
    method CyclesArrived(bus: EventBus, cycles: seq<Cycle>, lastEventId: Option<Id>, connectedAt: string)
      requires Valid() && !streaming && !failed
      modifies this
      ensures Valid()
      ensures Abs() == Started(scope, old(Abs()),
                Selected(scope.codec, cycles, BufferOf(bus.buffers, scope.taskId), lastEventId), connectedAt)
    {
      hide Selected, Remembered, Written, WriteAll, EventEntries, BufferOf, Output;
      if closed {
        return;
      }
      var buffered := bus.GetTaskEventBuffer(scope.taskId);
      var replay := SelectLogStreamReplay(scope.codec, cycles, buffered, lastEventId);
      var threw := WriteEntry(Hello(scope, connectedAt, replay.summary));
      threw := WriteEntries(replay.entries);
      if threw {
        failed := true;
        return;
      }
      streaming := true;
      if writable {
        threw := WriteEntries(EventEntries(scope.codec, pendingLiveEvents, 0, |pendingLiveEvents|));
        if threw {
          return;
        }
      }
      pendingLiveEvents := [];
    }

    method Cleanup()
      modifies this`closed, this`writable
      ensures Abs() == old(Abs()).(closed := true, writable := false)
    {
      closed, writable := true, false;
    }
  }

  lemma {:induction false} ThrownStays(codec: Codec, sent: seq<Entry>, entries: seq<Entry>, i: nat)
    requires i <= |entries| && WriteAll(codec, sent, entries[..i]).threw
    ensures WriteAll(codec, sent, entries) == WriteAll(codec, sent, entries[..i])
  {
    hide Written, Throws;
    if i < |entries| {
      TakeTake(entries, |entries| - 1, i);
      ThrownStays(codec, sent, entries[..|entries| - 1], i);
    } else {
      assert entries[..i] == entries;
    }
  }

  lemma RememberOneMore(sent: seq<Entry>, e: Entry)
    ensures Remembered(sent + [e])
         == (if |Remembered(sent)| >= MAX_EMITTED_KEYS then Remembered(sent)[1..] else Remembered(sent)) + [e.key]
  {
    InitOfPush(sent, e);
  }

  /** A publisher pushes to the buffer and then emits, in one turn. */
  method PublishEvent(bus: EventBus, stream: LogStream, event: Event) returns (threw: bool)
    requires stream.Valid()
    modifies bus, stream
    ensures stream.Valid()
    ensures System(bus.buffers, stream.Abs())
         == Next(stream.scope, old(System(bus.buffers, stream.Abs())), Publish(event))
    ensures threw == ListenerThrows(stream.scope, old(stream.Abs()), event)
  {
    bus.PushToTaskBuffer(event);
    threw := stream.EventListener(event);
  }
}
