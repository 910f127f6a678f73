/** The shared event bus's per-task live buffers (src/agents/agentEventBus.ts). */
module AgentEventBus {
  import opened Seqs

  /** What `JSON.stringify` makes of an event payload: a text, nothing (undefined), or an exception. */
  datatype Json = JsonText(text: string) | JsonAbsent | Unserializable(handle: int)

  datatype Event = Event(taskId: string, cycleNumber: nat, timestamp: string, kind: string, data: Json)

  type Buffers = map<string, seq<Event>>

  const LIVE_BUFFER_MAX: nat := 500

  function BufferOf(buffers: Buffers, taskId: string): seq<Event> {
    if taskId in buffers then buffers[taskId] else []
  }

  ghost predicate Bounded(buffers: Buffers) {
    forall t | t in buffers :: |buffers[t]| <= LIVE_BUFFER_MAX
  }

  function Pushed(buffers: Buffers, e: Event): Buffers {
    buffers[e.taskId := LastN(BufferOf(buffers, e.taskId) + [e], LIVE_BUFFER_MAX)]
  }

  function Cleared(buffers: Buffers, taskId: string): Buffers {
    buffers - {taskId}
  }

  function PushedAll(buffers: Buffers, events: seq<Event>): Buffers {
    if events == [] then buffers else Pushed(PushedAll(buffers, events[..|events| - 1]), events[|events| - 1])
  }

  function OfTask(taskId: string, events: seq<Event>): seq<Event> {
    Filter((e: Event) => e.taskId == taskId, events)
  }

  lemma OfTaskPush(taskId: string, events: seq<Event>, e: Event)
    ensures OfTask(taskId, events + [e]) == if e.taskId == taskId then OfTask(taskId, events) + [e] else OfTask(taskId, events)
  {
    FilterPush((x: Event) => x.taskId == taskId, events, e);
  }

  /**
   * Pushes of any interleaved tasks leave each task with the newest 500 of its
   * own events, appended after what it held before.
   */
  lemma {:induction false} BufferHoldsNewest(buffers: Buffers, events: seq<Event>, taskId: string)
    requires Bounded(buffers)
    ensures Bounded(PushedAll(buffers, events))
    ensures BufferOf(PushedAll(buffers, events), taskId)
         == LastN(BufferOf(buffers, taskId) + OfTask(taskId, events), LIVE_BUFFER_MAX)
  {
    if events == [] {
      assert OfTask(taskId, events) == [];
      assert BufferOf(buffers, taskId) + [] == BufferOf(buffers, taskId);
    } else {
      var front, e := events[..|events| - 1], events[|events| - 1];
      BufferHoldsNewest(buffers, front, taskId);
      BufferHoldsNewest(buffers, front, e.taskId);
      OfTaskPush(taskId, front, e);
      assert events == front + [e];
      if e.taskId == taskId {
        var all := BufferOf(buffers, taskId) + OfTask(taskId, front);
        LastNPush(all, e, LIVE_BUFFER_MAX);
        AppendAssociative(BufferOf(buffers, taskId), OfTask(taskId, front), [e]);
      } else {
        assert OfTask(taskId, events) == OfTask(taskId, front);
      }
    }
  }

  class EventBus {
    var buffers: Buffers

    constructor ()
      ensures buffers == map[]
    {
      buffers := map[];
    }

    method GetTaskEventBuffer(taskId: string) returns (events: seq<Event>)
      ensures events == BufferOf(buffers, taskId)
    {
      if taskId in buffers {
        events := buffers[taskId];
      } else {
        events := [];
      }
    }

    method ClearTaskEventBuffer(taskId: string)
      modifies this
      ensures buffers == Cleared(old(buffers), taskId)
    {
      buffers := map t | t in buffers && t != taskId :: buffers[t];
    }

    method PushToTaskBuffer(event: Event)
      modifies this
      ensures buffers == Pushed(old(buffers), event)
    {
      var buf := [];
      if event.taskId in buffers {
        buf := buffers[event.taskId];
      }
      buf := buf + [event];
      if |buf| > LIVE_BUFFER_MAX {
        buf := buf[|buf| - LIVE_BUFFER_MAX..];
      }
      buffers := buffers[event.taskId := buf];
    }
  }
}
