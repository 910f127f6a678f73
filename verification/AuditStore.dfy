/** The append-only audit log the export reads (src/state/stores/auditStore.ts). */
module AuditStore {
  import opened Seqs

  /** What a caller appends; `integrationId` is the one named in the details, `details` the masked JSON text. */
  datatype Fields = Fields(
    actorUserId: Option<string>, actorName: string, action: string, targetType: Option<string>, targetId: Option<string>,
    integrationId: Option<string>, details: string, createdAt: int)

  datatype Entry = Entry(id: nat, fields: Fields)

  datatype Filters = Filters(
    action: Option<string>, actorName: Option<string>, targetType: Option<string>, integrationId: Option<string>,
    createdFrom: Option<int>, createdBefore: Option<int>)

  const MAX_LIMIT := 200

  predicate Matches(f: Filters, e: Entry) {
    && (f.action.Some? ==> e.fields.action == f.action.value)
    && (f.actorName.Some? ==> e.fields.actorName == f.actorName.value)
    && (f.targetType.Some? ==> e.fields.targetType == f.targetType)
    && (f.integrationId.Some? ==> e.fields.targetId == f.integrationId || e.fields.integrationId == f.integrationId)
    && (f.createdFrom.Some? ==> e.fields.createdAt >= f.createdFrom.value)
    && (f.createdBefore.Some? ==> e.fields.createdAt < f.createdBefore.value)
  }

  function Where(f: Filters): Entry -> bool {
    (e: Entry) => Matches(f, e)
  }

  function WhereUpTo(f: Filters, maxId: nat): Entry -> bool {
    (e: Entry) => Matches(f, e) && e.id <= maxId
  }

  /** The entries a query bounded by `maxId` counts. */
  function UpTo(f: Filters, maxId: nat, log: seq<Entry>): seq<Entry> {
    Filter(WhereUpTo(f, maxId), log)
  }

  /** Newest first: by creation time, then by id. */
  predicate Before(a: Entry, b: Entry) {
    a.fields.createdAt > b.fields.createdAt || (a.fields.createdAt == b.fields.createdAt && a.id > b.id)
  }

  function Insert(s: seq<Entry>, e: Entry): (r: seq<Entry>)
    ensures |r| == |s| + 1
  {
    if s != [] && Before(e, s[|s| - 1]) then Insert(s[..|s| - 1], e) + [s[|s| - 1]] else s + [e]
  }

  function Ordered(s: seq<Entry>): (r: seq<Entry>)
    ensures |r| == |s|
  {
    if s == [] then [] else Insert(Ordered(s[..|s| - 1]), s[|s| - 1])
  }

  /** Ids are assigned from 1 upwards and never reused. */
  predicate WellNumbered(log: seq<Entry>) {
    && (forall i | 0 <= i < |log| :: log[i].id > 0)
    && (forall i, j | 0 <= i < j < |log| :: log[i].id < log[j].id)
  }

  /** The id of the newest entry, 0 for an empty log. */
  function LatestId(log: seq<Entry>): nat {
    if log == [] then 0 else log[|log| - 1].id
  }

  function Appended(log: seq<Entry>, more: seq<Fields>): (r: seq<Entry>)
    ensures |r| == |log| + |more|
  {
    if more == [] then log
    else
      var before := Appended(log, more[..|more| - 1]);
      before + [Entry(LatestId(before) + 1, more[|more| - 1])]
  }

  lemma {:induction false} AppendedExtends(log: seq<Entry>, more: seq<Fields>)
    requires WellNumbered(log)
    ensures log <= Appended(log, more) && WellNumbered(Appended(log, more))
  {
    if more != [] {
      AppendedExtends(log, more[..|more| - 1]);
    }
  }

  /** Nothing appended after an id was read can match a query bounded by that id. */
  lemma {:induction false} AppendsAreInvisible(f: Filters, maxId: nat, log: seq<Entry>, later: seq<Entry>)
    requires log <= later && WellNumbered(later) && maxId <= LatestId(log)
    ensures UpTo(f, maxId, later) == UpTo(f, maxId, log)
    decreases |later|
  {
    if |later| == |log| {
      assert later == log;
    } else {
      AppendsAreInvisible(f, maxId, log, later[..|later| - 1]);
      assert log != [] ==> later[|log| - 1] == log[|log| - 1];
    }
  }

  /** A query bounded by an id that was already assigned counts the same entries whatever is appended. */
  lemma SnapshotIsStable(f: Filters, maxId: nat, log: seq<Entry>, more: seq<Fields>)
    requires WellNumbered(log) && maxId <= LatestId(log)
    ensures UpTo(f, maxId, Appended(log, more)) == UpTo(f, maxId, log)
    ensures maxId <= LatestId(Appended(log, more))
  {
    AppendedExtends(log, more);
    var later := Appended(log, more);
    AppendsAreInvisible(f, maxId, log, later);
    assert log != [] ==> later[|log| - 1] == log[|log| - 1];
  }

  /** `offset` and `limit` applied to an ordered result. */
  function Page(s: seq<Entry>, limit: int, offset: int): seq<Entry> {
    var count := if limit < 1 then 1 else if limit > MAX_LIMIT then MAX_LIMIT else limit;
    var from := if offset < 0 then 0 else if offset > |s| then |s| else offset;
    Slice(s, from, if from + count > |s| then |s| else from + count)
  }

  class Store {
    var log: seq<Entry>
    /** What the other requests append while this one waits for the n-th time. */
    const others: nat -> seq<Fields>
    var waits: nat

    ghost predicate Valid()
      reads this
    {
      WellNumbered(log)
    }

    constructor (others: nat -> seq<Fields>)
      ensures Valid() && log == [] && this.others == others && waits == 0
    {
      log, waits := [], 0;
      this.others := others;
    }

    method Append(fields: Fields) returns (entry: Entry)
      requires Valid()
      modifies this`log
      ensures Valid()
      ensures entry == Entry(LatestId(old(log)) + 1, fields) && log == old(log) + [entry]
    {
      entry := Entry(LatestId(log) + 1, fields);
      log := log + [entry];
    }

    /** One `await`: other requests run until this one resumes. */
    method Wait()
      requires Valid()
      modifies this
      ensures Valid() && waits == old(waits) + 1
      ensures log == Appended(old(log), others(old(waits)))
    {
      hide WellNumbered, LatestId;
      var more := others(waits);
      waits := waits + 1;
      for i := 0 to |more|
        invariant Valid()
        invariant waits == old(waits) + 1
        invariant log == Appended(old(log), more[..i])
      {
        InitOfPush(more[..i], more[i]);
        assert more[..i + 1] == more[..i] + [more[i]];
        var _ := Append(more[i]);
      }
      assert more[..|more|] == more;
    }

    method GetLatestAuditId() returns (id: Option<nat>)
      requires Valid()
      modifies this
      ensures Valid() && waits == old(waits) + 1
      ensures id == if old(log) == [] then None else Some(LatestId(old(log)))
      ensures log == Appended(old(log), others(old(waits)))
    {
      id := if log == [] then None else Some(LatestId(log));
      Wait();
    }

    /** Two queries, the page and then the count, each awaited. */
    method ListAuditEntries(f: Filters, maxId: nat, limit: int, offset: int) returns (entries: seq<Entry>, total: nat)
      requires Valid()
      modifies this
      ensures Valid() && waits == old(waits) + 2
      ensures log == Appended(Appended(old(log), others(old(waits))), others(old(waits) + 1))
      ensures entries == Page(Ordered(UpTo(f, maxId, old(log))), limit, offset)
      ensures total == |UpTo(f, maxId, Appended(old(log), others(old(waits))))|
      ensures maxId <= LatestId(old(log)) ==>
                && total == |UpTo(f, maxId, old(log))|
                && UpTo(f, maxId, log) == UpTo(f, maxId, old(log)) && maxId <= LatestId(log)
    {
      entries := Page(Ordered(UpTo(f, maxId, log)), limit, offset);
      ghost var log0 := log;
      Wait();
      total := |UpTo(f, maxId, log)|;
      ghost var log1 := log;
      Wait();
      if maxId <= LatestId(log0) {
        SnapshotIsStable(f, maxId, log0, others(old(waits)));
        SnapshotIsStable(f, maxId, log1, others(old(waits) + 1));
      }
    }
  }

  // ---------------------------------------------------------------------------
  // The order is a strict order of the same entries
  // ---------------------------------------------------------------------------

  predicate NewestFirst(s: seq<Entry>) {
    forall i, j | 0 <= i < j < |s| :: Before(s[i], s[j])
  }

  lemma {:induction false} InsertAdds(s: seq<Entry>, e: Entry)
    ensures multiset(Insert(s, e)) == multiset(s) + multiset{e}
  {
    if s != [] && Before(e, s[|s| - 1]) {
      InsertAdds(s[..|s| - 1], e);
      InitLast(s);
    }
  }

  lemma {:induction false} InsertKeepsOrder(s: seq<Entry>, e: Entry)
    requires NewestFirst(s) && forall i | 0 <= i < |s| :: s[i].id != e.id
    ensures NewestFirst(Insert(s, e))
  {
    if s != [] && Before(e, s[|s| - 1]) {
      var front, last := s[..|s| - 1], s[|s| - 1];
      InsertKeepsOrder(front, e);
      InsertAdds(front, e);
      var r := Insert(front, e);
      forall i | 0 <= i < |r| ensures Before(r[i], last) {
        assert r[i] in multiset(front) + multiset{e};
      }
    }
  }

  /** The result lists exactly the given entries, each as often as given, newest first without ties. */
  lemma {:induction false} OrderedIsExact(s: seq<Entry>)
    requires forall i, j | 0 <= i < j < |s| :: s[i].id != s[j].id
    ensures NewestFirst(Ordered(s)) && multiset(Ordered(s)) == multiset(s)
  {
    if s != [] {
      var front, last := s[..|s| - 1], s[|s| - 1];
      OrderedIsExact(front);
      InitLast(s);
      var r := Ordered(front);
      forall i | 0 <= i < |r| ensures r[i].id != last.id {
        assert r[i] in multiset(front);
      }
      InsertKeepsOrder(r, last);
      InsertAdds(r, last);
    }
  }

  /** The page order in the entries' own fields: later creation first, and among equal times the higher id. */
  lemma OrderedByTimeThenId(s: seq<Entry>, i: nat, j: nat)
    requires forall i, j | 0 <= i < j < |s| :: s[i].id != s[j].id
    requires i < j < |s|
    ensures var a, b := Ordered(s)[i], Ordered(s)[j];
            a.fields.createdAt > b.fields.createdAt || (a.fields.createdAt == b.fields.createdAt && a.id > b.id)
  {
    OrderedIsExact(s);
    hide Ordered;
  }

  /** A query's filters, each as given: absent ones let everything through. */
  lemma CountedExactly(f: Filters, maxId: nat, log: seq<Entry>, e: Entry)
    ensures e in UpTo(f, maxId, log)
       <==> && e in log && e.id <= maxId
            && f.action in {None, Some(e.fields.action)} && f.actorName in {None, Some(e.fields.actorName)}
            && f.targetType in {None, e.fields.targetType}
            && f.integrationId in {None, e.fields.targetId, e.fields.integrationId}
            && (f.createdFrom == None || f.createdFrom.value <= e.fields.createdAt)
            && (f.createdBefore == None || e.fields.createdAt < f.createdBefore.value)
  {
    FilterMember(WhereUpTo(f, maxId), log, e);
  }

  lemma {:induction false} SliceAt(s: seq<Entry>, from: nat, to: nat, k: nat)
    requires to <= |s| && k < to - from
    ensures Slice(s, from, to)[k] == s[from + k]
  {
    if from + k < to - 1 {
      SliceAt(s, from, to - 1, k);
    }
  }

  /** A page holds what is asked for from its offset on, at least one entry and at most 200, as far as there are any. */
  lemma PageIs(s: seq<Entry>, limit: int, offset: nat)
    requires 1 <= limit <= 200 && offset <= |s|
    ensures |Page(s, limit, offset)| == if |s| - offset < limit then |s| - offset else limit
    ensures forall k | 0 <= k < |Page(s, limit, offset)| :: Page(s, limit, offset)[k] == s[offset + k]
    ensures forall big | big > 200 :: Page(s, big, offset) == Page(s, 200, offset)
    ensures forall small | small < 1 :: Page(s, small, offset) == Page(s, 1, offset)
    ensures forall early | early < 0 :: Page(s, limit, early) == Page(s, limit, 0)
  {
    forall k | 0 <= k < |Page(s, limit, offset)| ensures Page(s, limit, offset)[k] == s[offset + k] {
      SliceAt(s, offset, offset + |Page(s, limit, offset)|, k);
    }
    hide Slice;
  }
}
