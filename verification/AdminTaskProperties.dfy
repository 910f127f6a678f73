/** What task de-duplication guarantees (src/admin/adminTaskRoutes.ts). */
module AdminTaskProperties {
  import opened Seqs
  import opened AdminTaskRoutes

  // ---------------------------------------------------------------------------
  // One latest task
  // ---------------------------------------------------------------------------

  /** The latest task is the first, among those that qualify, that no qualifying task is newer than. */
  lemma {:induction false} LatestIsFirstNewest(p: Task -> bool, tasks: seq<Task>) returns (i: nat)
    ensures Latest(p, tasks).None? ==> forall t | t in tasks :: !p(t)
    ensures Latest(p, tasks).Some? ==> i < |tasks| && tasks[i] == Latest(p, tasks).value && p(tasks[i])
    ensures Latest(p, tasks).Some? ==> forall t | t in tasks && p(t) :: !Newer(tasks[i], t)
    ensures Latest(p, tasks).Some? ==> forall j | 0 <= j < i && p(tasks[j]) :: Newer(tasks[j], tasks[i])
  {
    if tasks == [] {
      i := 0;
    } else {
      var front, task := tasks[..|tasks| - 1], tasks[|tasks| - 1];
      i := LatestIsFirstNewest(p, front);
      InitLast(tasks);
      if p(task) && PickLatest(Latest(p, front), task) {
        i := |front|;
      }
    }
  }

  /** Restricting the list to `v` does not disturb a choice made entirely inside `v`, and empties one made outside it. */
  lemma {:induction false} LatestWithin(p: Task -> bool, v: Task -> bool, tasks: seq<Task>)
    ensures (forall t | p(t) :: v(t)) ==> Latest(p, Filter(v, tasks)) == Latest(p, tasks)
    ensures (forall t | p(t) :: !v(t)) ==> Latest(p, Filter(v, tasks)) == None
  {
    if tasks != [] {
      var front, task := tasks[..|tasks| - 1], tasks[|tasks| - 1];
      LatestWithin(p, v, front);
      LatestPush(p, Filter(v, front), task);
    }
  }

  // ---------------------------------------------------------------------------
  // The first pass keeps one task per ticket
  // ---------------------------------------------------------------------------

  predicate DistinctTickets(tasks: seq<Task>) {
    tasks == [] ||
    (TicketKeyOf(tasks[|tasks| - 1]) !in FirstKeys(tasks[..|tasks| - 1]) && DistinctTickets(tasks[..|tasks| - 1]))
  }

  lemma {:induction false} KeyListed(tasks: seq<Task>, task: Task)
    requires task in tasks
    ensures TicketKeyOf(task) in FirstKeys(tasks)
  {
    InitLast(tasks);
    if task in tasks[..|tasks| - 1] {
      KeyListed(tasks[..|tasks| - 1], task);
    }
  }

  lemma {:induction false} DistinctTicketsAt(tasks: seq<Task>, i: nat, j: nat)
    requires DistinctTickets(tasks) && i < j < |tasks|
    ensures TicketKeyOf(tasks[i]) != TicketKeyOf(tasks[j])
  {
    var front := tasks[..|tasks| - 1];
    if j < |tasks| - 1 {
      DistinctTicketsAt(front, i, j);
    } else {
      KeyListed(front, front[i]);
    }
  }

  lemma {:induction false} FilteredKeys(p: Task -> bool, tasks: seq<Task>, key: TicketKey)
    ensures key in FirstKeys(Filter(p, tasks)) ==> key in FirstKeys(tasks)
  {
    if tasks != [] {
      var front, task := tasks[..|tasks| - 1], tasks[|tasks| - 1];
      FilteredKeys(p, front, key);
      FirstKeysPush(Filter(p, front), task);
    }
  }

  lemma {:induction false} FilteredStayDistinct(p: Task -> bool, tasks: seq<Task>)
    requires DistinctTickets(tasks)
    ensures DistinctTickets(Filter(p, tasks))
  {
    if tasks != [] {
      var front, task := tasks[..|tasks| - 1], tasks[|tasks| - 1];
      FilteredStayDistinct(p, front);
      FilteredKeys(p, front, TicketKeyOf(task));
      InitOfPush(Filter(p, front), task);
    }
  }

  lemma {:induction false} FirstKeysDistinct(tasks: seq<Task>)
    ensures Distinct(FirstKeys(tasks))
  {
    if tasks != [] {
      var front, task := tasks[..|tasks| - 1], tasks[|tasks| - 1];
      FirstKeysDistinct(front);
      InitOfPush(FirstKeys(front), TicketKeyOf(task));
    }
  }

  lemma {:induction false} LatestOfEachKeys(tasks: seq<Task>, keys: seq<TicketKey>)
    requires Distinct(keys) && forall key | key in keys :: key in FirstKeys(tasks)
    ensures FirstKeys(LatestOfEach(tasks, keys)) == keys && DistinctTickets(LatestOfEach(tasks, keys))
  {
    if keys != [] {
      var front, key := keys[..|keys| - 1], keys[|keys| - 1];
      InitLast(keys);
      LatestOfEachKeys(tasks, front);
      LatestExists(tasks, key);
      var i := LatestIsFirstNewest(HasTicket(key), tasks);
      FirstKeysPush(LatestOfEach(tasks, front), tasks[i]);
      InitOfPush(LatestOfEach(tasks, front), tasks[i]);
    }
  }

  lemma WinnersDistinct(tasks: seq<Task>)
    ensures DistinctTickets(Winners(tasks))
  {
    FirstKeysDistinct(tasks);
    LatestOfEachKeys(tasks, FirstKeys(tasks));
  }

  lemma {:induction false} LatestOfEachMember(tasks: seq<Task>, keys: seq<TicketKey>, task: Task)
    ensures task in LatestOfEach(tasks, keys) <==>
            TicketKeyOf(task) in keys && Latest(HasTicket(TicketKeyOf(task)), tasks) == Some(task)
  {
    if keys != [] {
      var front, key := keys[..|keys| - 1], keys[|keys| - 1];
      InitLast(keys);
      LatestOfEachMember(tasks, front, task);
      var _ := LatestIsFirstNewest(HasTicket(key), tasks);
    }
  }

  /** A task survives the first pass exactly when it is the latest for its ticket. */
  lemma WinnerMember(tasks: seq<Task>, task: Task)
    ensures task in Winners(tasks) <==> Latest(HasTicket(TicketKeyOf(task)), tasks) == Some(task)
  {
    LatestOfEachMember(tasks, FirstKeys(tasks), task);
    LatestExists(tasks, TicketKeyOf(task));
  }

  /** Exactly which tasks are kept: the latest of their ticket, and of those the latest of their change. */
  lemma KeptExactly(tasks: seq<Task>, task: Task)
    ensures task in Deduplicated(tasks) <==>
            && Latest(HasTicket(TicketKeyOf(task)), tasks) == Some(task)
            && (task.externalChangeId != "" ==> Latest(HasChange(ChangeKeyOf(task)), Winners(tasks)) == Some(task))
  {
    WinnerMember(tasks, task);
    var winners := Winners(tasks);
    FilterMember((t: Task) => WinsItsChange(winners, t), winners, task);
  }

  // ---------------------------------------------------------------------------
  // Main results
  // ---------------------------------------------------------------------------

  lemma KeptDistinct(tasks: seq<Task>)
    ensures DistinctTickets(Deduplicated(tasks))
  {
    WinnersDistinct(tasks);
    var winners := Winners(tasks);
    FilteredStayDistinct((t: Task) => WinsItsChange(winners, t), winners);
  }

  /** No two kept tasks share a ticket key, and no two share a change key. */
  lemma OnePerTicketAndChange(tasks: seq<Task>, i: nat, j: nat)
    requires i < j < |Deduplicated(tasks)|
    ensures var a, b := Deduplicated(tasks)[i], Deduplicated(tasks)[j];
            && TicketKeyOf(a) != TicketKeyOf(b)
            && (a.externalChangeId != "" ==> ChangeKeyOf(a) != ChangeKeyOf(b))
  {
    var kept := Deduplicated(tasks);
    KeptDistinct(tasks);
    DistinctTicketsAt(kept, i, j);
    assert kept[i] in kept && kept[j] in kept;
    KeptExactly(tasks, kept[i]);
    KeptExactly(tasks, kept[j]);
  }

  /** Every task is matched by a kept one of its project that is at least as recent. */
  lemma Dominated(tasks: seq<Task>, task: Task) returns (w: Task)
    requires task in tasks
    ensures w in Deduplicated(tasks) && w in tasks && w.projectId == task.projectId && !Newer(w, task)
  {
    var winners := Winners(tasks);
    var i := LatestIsFirstNewest(HasTicket(TicketKeyOf(task)), tasks);
    w := tasks[i];
    WinnerMember(tasks, w);
    if w.externalChangeId != "" {
      var k := LatestIsFirstNewest(HasChange(ChangeKeyOf(w)), winners);
      WinnerMember(tasks, winners[k]);
      w := winners[k];
      var _ := LatestIsFirstNewest(HasTicket(TicketKeyOf(w)), tasks);
    }
    KeptExactly(tasks, w);
  }

  lemma {:induction false} LatestOfEachPush(tasks: seq<Task>, keys: seq<TicketKey>, task: Task)
    requires TicketKeyOf(task) !in keys
    ensures LatestOfEach(tasks + [task], keys) == LatestOfEach(tasks, keys)
  {
    if keys != [] {
      InitLast(keys);
      LatestOfEachPush(tasks, keys[..|keys| - 1], task);
      LatestPush(HasTicket(keys[|keys| - 1]), tasks, task);
    }
  }

  /** The first pass leaves a list with distinct tickets as it is. */
  lemma {:induction false} NothingToMerge(tasks: seq<Task>)
    requires DistinctTickets(tasks)
    ensures Winners(tasks) == tasks
  {
    if tasks != [] {
      var front, task := tasks[..|tasks| - 1], tasks[|tasks| - 1];
      var key := TicketKeyOf(task);
      InitLast(tasks);
      NothingToMerge(front);
      LatestOfEachPush(front, FirstKeys(front), task);
      LatestExists(front, key);
      LatestPush(HasTicket(key), front, task);
      InitOfPush(FirstKeys(front), key);
    }
  }

  /** De-duplicating twice is de-duplicating once. */
  lemma Idempotent(tasks: seq<Task>)
    ensures Deduplicated(Deduplicated(tasks)) == Deduplicated(tasks)
  {
    var kept := Deduplicated(tasks);
    KeptDistinct(tasks);
    NothingToMerge(kept);
    forall t | t in kept ensures WinsItsChange(kept, t) {
      KeptExactly(tasks, t);
      if t.externalChangeId != "" {
        var i := LatestIsFirstNewest(HasChange(ChangeKeyOf(t)), kept);
        assert kept[i] in kept;
        KeptExactly(tasks, kept[i]);
      }
    }
    FilterAll((t: Task) => WinsItsChange(kept, t), kept);
  }

  // ---------------------------------------------------------------------------
  // De-duplicating before or after a visibility filter
  // ---------------------------------------------------------------------------

  function SeenKeys(visible: Option<string> -> bool): TicketKey -> bool {
    (key: TicketKey) => visible(key.projectId)
  }

  lemma {:induction false} KeysCommute(visible: Option<string> -> bool, tasks: seq<Task>)
    ensures FirstKeys(Filter(SeenTasks(visible), tasks)) == Filter(SeenKeys(visible), FirstKeys(tasks))
  {
    if tasks != [] {
      var front, task := tasks[..|tasks| - 1], tasks[|tasks| - 1];
      var key := TicketKeyOf(task);
      KeysCommute(visible, front);
      FirstKeysPush(Filter(SeenTasks(visible), front), task);
      FilterMember(SeenKeys(visible), FirstKeys(front), key);
      FilterPush(SeenKeys(visible), FirstKeys(front), key);
    }
  }

  lemma {:induction false} LatestOfEachCommutes(visible: Option<string> -> bool, tasks: seq<Task>, keys: seq<TicketKey>)
    ensures LatestOfEach(Filter(SeenTasks(visible), tasks), Filter(SeenKeys(visible), keys))
         == Filter(SeenTasks(visible), LatestOfEach(tasks, keys))
  {
    if keys != [] {
      var front, key := keys[..|keys| - 1], keys[|keys| - 1];
      LatestOfEachCommutes(visible, tasks, front);
      LatestWithin(HasTicket(key), SeenTasks(visible), tasks);
      var i := LatestIsFirstNewest(HasTicket(key), tasks);
      InitOfPush(Filter(SeenKeys(visible), front), key);
      if Latest(HasTicket(key), tasks).Some? {
        FilterPush(SeenTasks(visible), LatestOfEach(tasks, front), tasks[i]);
      }
    }
  }

  lemma {:induction false} FiltersCommute(p: Task -> bool, q: Task -> bool, v: Task -> bool, tasks: seq<Task>)
    requires forall t | v(t) :: p(t) == q(t)
    ensures Filter(q, Filter(v, tasks)) == Filter(v, Filter(p, tasks))
  {
    if tasks != [] {
      var front, task := tasks[..|tasks| - 1], tasks[|tasks| - 1];
      FiltersCommute(p, q, v, front);
      FilterPush(q, Filter(v, front), task);
      FilterPush(v, Filter(p, front), task);
    }
  }

  /** It does not matter whether tasks are de-duplicated before or after hiding what the caller may not read. */
  lemma DeduplicationCommutesWithVisibility(visible: Option<string> -> bool, tasks: seq<Task>)
    ensures Deduplicated(Filter(SeenTasks(visible), tasks)) == Filter(SeenTasks(visible), Deduplicated(tasks))
  {
    var winners, seen := Winners(tasks), Filter(SeenTasks(visible), Winners(tasks));
    KeysCommute(visible, tasks);
    LatestOfEachCommutes(visible, tasks, FirstKeys(tasks));
    forall t: Task | visible(t.projectId) ensures WinsItsChange(winners, t) == WinsItsChange(seen, t) {
      LatestWithin(HasChange(ChangeKeyOf(t)), SeenTasks(visible), winners);
    }
    FiltersCommute((t: Task) => WinsItsChange(winners, t), (t: Task) => WinsItsChange(seen, t), SeenTasks(visible), winners);
  }

  /** In particular for a caller's `task.read` scope. */
  lemma ScopedListsAgree(scope: Option<ReadScope>, tasks: seq<Task>)
    ensures Deduplicated(FilterTasksByReadScope(scope, tasks)) == FilterTasksByReadScope(scope, Deduplicated(tasks))
  {
    if scope.Some? && scope.value.Projects? {
      DeduplicationCommutesWithVisibility(InProjects(scope.value.ids), tasks);
    }
  }

  // ---------------------------------------------------------------------------
  // In the tasks' own fields
  // ---------------------------------------------------------------------------

  /** Updated later, or at the same time and created later. */
  predicate LaterThan(a: Task, b: Task) {
    a.updatedAt > b.updatedAt || (a.updatedAt == b.updatedAt && a.createdAt > b.createdAt)
  }

  /** One ticket: same number and project, and same source, which is the integration if the task names one, else the label. */
  predicate SameTicket(a: Task, b: Task) {
    && a.ticketId == b.ticketId && a.projectId == b.projectId
    && match (a.ticketSourceIntegrationId, b.ticketSourceIntegrationId)
       case (Some(x), Some(y)) => x == y
       case (Some(x), None) => b.ticketSourceLabel == Some(x)
       case (None, Some(y)) => a.ticketSourceLabel == Some(y)
       case (None, None) => a.ticketSourceLabel == b.ticketSourceLabel
  }

  lemma TicketKeysAgreeExactly(a: Task, b: Task)
    ensures TicketKeyOf(a) == TicketKeyOf(b) <==> SameTicket(a, b)
  {
  }

  /** One change of one project. */
  predicate SameChange(a: Task, b: Task) {
    a.externalChangeId != "" && a.externalChangeId == b.externalChangeId && a.projectId == b.projectId
  }

  /**
   * A kept task is as late as every other of its ticket, and earlier in the list
   * than any that is just as late; and as late as every kept or superseded
   * winner of its change.
   */
  lemma KeptIsLatest(tasks: seq<Task>, task: Task) returns (i: nat)
    requires task in Deduplicated(tasks)
    ensures i < |tasks| && tasks[i] == task
    ensures forall j | 0 <= j < |tasks| && SameTicket(tasks[j], task) ::
              !LaterThan(tasks[j], task) && (j < i ==> LaterThan(task, tasks[j]))
    ensures forall t | t in Winners(tasks) && SameChange(t, task) :: !LaterThan(t, task)
  {
    KeptExactly(tasks, task);
    i := LatestIsFirstNewest(HasTicket(TicketKeyOf(task)), tasks);
    forall j | 0 <= j < |tasks| && SameTicket(tasks[j], task)
      ensures !LaterThan(tasks[j], task) && (j < i ==> LaterThan(task, tasks[j]))
    {
      TicketKeysAgreeExactly(tasks[j], task);
      assert tasks[j] in tasks;
    }
    var winners := Winners(tasks);
    if task.externalChangeId != "" {
      var k := LatestIsFirstNewest(HasChange(ChangeKeyOf(task)), winners);
    }
    hide Winners, Latest, Deduplicated;
  }

  /** Every task is matched by a kept one of its project that is as late, and by no later one of its own ticket. */
  lemma SupersededOnlyByLater(tasks: seq<Task>, task: Task) returns (w: Task)
    requires task in tasks
    ensures w in Deduplicated(tasks) && w.projectId == task.projectId && !LaterThan(task, w)
  {
    w := Dominated(tasks, task);
    hide Deduplicated;
  }

  /** A task is dropped only for another one, of its ticket or of its change, that it is not later than. */
  lemma DroppedForOne(tasks: seq<Task>, task: Task)
    requires task in tasks && task !in Deduplicated(tasks)
    ensures exists t :: t in tasks && t != task && !LaterThan(task, t) && (SameTicket(t, task) || SameChange(t, task))
  {
    KeptExactly(tasks, task);
    var i := LatestIsFirstNewest(HasTicket(TicketKeyOf(task)), tasks);
    if tasks[i] != task {
      TicketKeysAgreeExactly(tasks[i], task);
      assert tasks[i] in tasks && !LaterThan(task, tasks[i]) && SameTicket(tasks[i], task);
    } else {
      WinnerMember(tasks, task);
      var winners := Winners(tasks);
      var k := LatestIsFirstNewest(HasChange(ChangeKeyOf(task)), winners);
      WinnerMember(tasks, winners[k]);
      var m := LatestIsFirstNewest(HasTicket(TicketKeyOf(winners[k])), tasks);
      assert winners[k] in tasks && SameChange(winners[k], task) && !LaterThan(task, winners[k]);
    }
    hide Winners, Latest, Deduplicated;
  }
}
