/** Task de-duplication and its interplay with visibility (src/admin/adminTaskRoutes.ts). */
module AdminTaskRoutes {
  import opened Seqs

  /** `externalChangeId` is "" when the task has none; times are in milliseconds. */
  datatype Task = Task(
    taskId: string, ticketSourceIntegrationId: Option<string>, ticketSourceLabel: Option<string>,
    projectId: Option<string>, ticketId: string, externalChangeId: string, updatedAt: int, createdAt: int)

  datatype TicketKey = TicketKey(source: Option<string>, projectId: Option<string>, ticketId: string)

  datatype ChangeKey = ChangeKey(projectId: Option<string>, changeId: string)

  function TicketKeyOf(task: Task): TicketKey {
    var source := if task.ticketSourceIntegrationId.Some? then task.ticketSourceIntegrationId else task.ticketSourceLabel;
    TicketKey(source, task.projectId, task.ticketId)
  }

  function ChangeKeyOf(task: Task): ChangeKey {
    ChangeKey(task.projectId, task.externalChangeId)
  }

  predicate Newer(a: Task, b: Task) {
    b.updatedAt > a.updatedAt || (b.updatedAt == a.updatedAt && b.createdAt > a.createdAt)
  }

  predicate PickLatest(a: Option<Task>, b: Task) {
    a.None? || Newer(a.value, b)
  }

  // ---------------------------------------------------------------------------
  // Specification: one winner per ticket key, one winner per change key
  // ---------------------------------------------------------------------------

  /** The ticket keys in the order they first occur, which is the order the map holds them in. */
  function FirstKeys(tasks: seq<Task>): seq<TicketKey> {
    if tasks == [] then []
    else
      var before, key := FirstKeys(tasks[..|tasks| - 1]), TicketKeyOf(tasks[|tasks| - 1]);
      if key in before then before else before + [key]
  }

  /** The newest of the tasks that satisfy `p`, the earliest listed among equals. */
  function Latest(p: Task -> bool, tasks: seq<Task>): Option<Task> {
    if tasks == [] then None
    else
      var before, task := Latest(p, tasks[..|tasks| - 1]), tasks[|tasks| - 1];
      if p(task) && PickLatest(before, task) then Some(task) else before
  }

  function HasTicket(key: TicketKey): Task -> bool {
    (task: Task) => TicketKeyOf(task) == key
  }

  function HasChange(key: ChangeKey): Task -> bool {
    (task: Task) => task.externalChangeId != "" && ChangeKeyOf(task) == key
  }

  function LatestOfEach(tasks: seq<Task>, keys: seq<TicketKey>): seq<Task> {
    if keys == [] then []
    else
      var before, latest := LatestOfEach(tasks, keys[..|keys| - 1]), Latest(HasTicket(keys[|keys| - 1]), tasks);
      if latest.Some? then before + [latest.value] else before
  }

  /** What the first pass keeps. */
  function Winners(tasks: seq<Task>): seq<Task> {
    LatestOfEach(tasks, FirstKeys(tasks))
  }

  predicate WinsItsChange(winners: seq<Task>, task: Task) {
    task.externalChangeId == "" || Latest(HasChange(ChangeKeyOf(task)), winners) == Some(task)
  }

  /** What both passes keep of the first pass's winners. */
  function Survivors(winners: seq<Task>): seq<Task> {
    Filter(task => WinsItsChange(winners, task), winners)
  }

  function Deduplicated(tasks: seq<Task>): seq<Task> {
    Survivors(Winners(tasks))
  }

  // ---------------------------------------------------------------------------
  // The two loops
  // ---------------------------------------------------------------------------

  lemma FirstKeysPush(tasks: seq<Task>, task: Task)
    ensures FirstKeys(tasks + [task])
         == if TicketKeyOf(task) in FirstKeys(tasks) then FirstKeys(tasks) else FirstKeys(tasks) + [TicketKeyOf(task)]
  {
    InitOfPush(tasks, task);
  }

  lemma LatestPush(p: Task -> bool, tasks: seq<Task>, task: Task)
    ensures Latest(p, tasks + [task])
         == if p(task) && PickLatest(Latest(p, tasks), task) then Some(task) else Latest(p, tasks)
  {
    InitOfPush(tasks, task);
  }

  lemma {:induction false} LatestExists(tasks: seq<Task>, key: TicketKey)
    ensures Latest(HasTicket(key), tasks).Some? <==> key in FirstKeys(tasks)
  {
    if tasks != [] {
      LatestExists(tasks[..|tasks| - 1], key);
    }
  }

  function Lookup<K(==), V>(m: map<K, V>, key: K): Option<V> {
    if key in m then Some(m[key]) else None
  }

  /** The first pass's map after these tasks. */
  ghost predicate MapsTickets(byTicket: map<TicketKey, Task>, tasks: seq<Task>) {
    forall key :: Lookup(byTicket, key) == Latest(HasTicket(key), tasks)
  }

  lemma MapsTicketsPush(byTicket: map<TicketKey, Task>, tasks: seq<Task>, task: Task)
    requires MapsTickets(byTicket, tasks)
    ensures var key := TicketKeyOf(task);
            MapsTickets(if PickLatest(Lookup(byTicket, key), task) then byTicket[key := task] else byTicket, tasks + [task])
  {
    forall key {
      LatestPush(HasTicket(key), tasks, task);
    }
    hide Latest, PickLatest;
  }

  /** The second pass's map after these winners. */
  ghost predicate MapsChanges(byChangeId: map<ChangeKey, Task>, tasks: seq<Task>) {
    forall key :: Lookup(byChangeId, key) == Latest(HasChange(key), tasks)
  }

  lemma MapsChangesPush(byChangeId: map<ChangeKey, Task>, tasks: seq<Task>, task: Task)
    requires MapsChanges(byChangeId, tasks)
    ensures var key := ChangeKeyOf(task);
            MapsChanges(if task.externalChangeId != "" && PickLatest(Lookup(byChangeId, key), task)
                        then byChangeId[key := task] else byChangeId, tasks + [task])
  {
    forall key {
      LatestPush(HasChange(key), tasks, task);
    }
    hide Latest, PickLatest;
  }

  /** The values of the map in its order, as the first pass leaves them. */
  method ByTicket(tasks: seq<Task>) returns (values: seq<Task>)
    ensures values == Winners(tasks)
  {
    var order: seq<TicketKey> := [];
    var byTicket: map<TicketKey, Task> := map[];
    for i := 0 to |tasks|
      invariant order == FirstKeys(tasks[..i])
      invariant MapsTickets(byTicket, tasks[..i])
    {
      var task := tasks[i];
      assert tasks[..i + 1] == tasks[..i] + [task];
      FirstKeysPush(tasks[..i], task);
      MapsTicketsPush(byTicket, tasks[..i], task);
      var key := TicketKeyOf(task);
      LatestExists(tasks[..i], key);
      assert Lookup(byTicket, key) == Latest(HasTicket(key), tasks[..i]);
      hide FirstKeys, Latest, MapsTickets;
      if PickLatest(Lookup(byTicket, key), task) {
        if key !in byTicket {
          order := order + [key];
        }
        byTicket := byTicket[key := task];
      }
    }
    assert tasks[..|tasks|] == tasks;
    values := [];
    hide Latest, FirstKeys;
    for i := 0 to |order|
      invariant values == LatestOfEach(tasks, order[..i])
    {
      LatestExists(tasks, order[i]);
      TakeTake(order, i + 1, i);
      assert Lookup(byTicket, order[i]) == Latest(HasTicket(order[i]), tasks);
      values := values + [byTicket[order[i]]];
    }
    assert order[..|order|] == order;
  }

  method DeduplicateByTicket(tasks: seq<Task>) returns (kept: seq<Task>)
    ensures kept == Deduplicated(tasks)
  {
    var values := ByTicket(tasks);
    hide Winners;
    var byChangeId: map<ChangeKey, Task> := map[];
    assert MapsChanges(byChangeId, values[..0]);
    hide MapsChanges, PickLatest, Filter;
    for i := 0 to |values|
      invariant MapsChanges(byChangeId, values[..i])
    {
      var task := values[i];
      assert values[..i + 1] == values[..i] + [task];
      MapsChangesPush(byChangeId, values[..i], task);
      if task.externalChangeId != "" {
        var key := ChangeKeyOf(task);
        if PickLatest(Lookup(byChangeId, key), task) {
          byChangeId := byChangeId[key := task];
        }
      }
    }
    assert values[..|values|] == values;
    var wins := (task: Task) => WinsItsChange(values, task);
    kept := [];
    FilterNone(wins);
    for i := 0 to |values|
      invariant kept == Filter(wins, values[..i])
    {
      var task := values[i];
      FilterPush(wins, values[..i], task);
      assert values[..i + 1] == values[..i] + [task];
      WinsAt(byChangeId, values, task);
      if task.externalChangeId == "" || Lookup(byChangeId, ChangeKeyOf(task)) == Some(task) {
        kept := kept + [task];
      }
    }
  }

  lemma WinsAt(byChangeId: map<ChangeKey, Task>, values: seq<Task>, task: Task)
    requires MapsChanges(byChangeId, values)
    ensures WinsItsChange(values, task) <==> task.externalChangeId == "" || Lookup(byChangeId, ChangeKeyOf(task)) == Some(task)
  {
    hide Latest, Lookup;
  }

  lemma FilterNone(p: Task -> bool)
    ensures Filter(p, []) == []
  {
  }

  // ---------------------------------------------------------------------------
  // Read scoping
  // ---------------------------------------------------------------------------

  datatype ReadScope = AllResources | NoGrant | Projects(ids: set<string>)

  function InProjects(ids: set<string>): Option<string> -> bool {
    (projectId: Option<string>) => projectId.Some? && projectId.value in ids
  }

  function SeenTasks(visible: Option<string> -> bool): Task -> bool {
    (task: Task) => visible(task.projectId)
  }

  /** `scope` is `None` when no permissions are attached to the request. */
  function FilterTasksByReadScope(scope: Option<ReadScope>, tasks: seq<Task>): seq<Task> {
    match scope
    case None => tasks
    case Some(AllResources) => tasks
    case Some(NoGrant) => []
    case Some(Projects(ids)) => Filter(SeenTasks(InProjects(ids)), tasks)
  }
}
