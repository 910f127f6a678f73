/** Exporting the audit log (src/admin/adminAuditRoutes.ts). */
module AdminAuditRoutes {
  import opened Seqs
  import opened Text
  import opened AuditStore
  import Csv

  const EXPORT_PAGE_SIZE := 200
  const MAX_EXPORT_ENTRIES := 50_000

  function MaxId(snapshotId: Option<nat>): nat {
    if snapshotId.Some? then snapshotId.value else 0
  }

  method LoadExportEntries(store: Store, f: Filters, snapshotId: Option<nat>) returns (result: Option<seq<Entry>>)
    requires store.Valid() && MaxId(snapshotId) <= LatestId(store.log)
    modifies store
    ensures store.Valid()
    ensures var all := Ordered(UpTo(f, MaxId(snapshotId), old(store.log)));
            result == if |all| > MAX_EXPORT_ENTRIES then None else Some(all)
  {
    hide UpTo, Ordered, Appended, LatestId, WellNumbered, Slice;
    var maxId := MaxId(snapshotId);
    ghost var matching := UpTo(f, maxId, store.log);
    ghost var all := Ordered(matching);
    var entries, total := store.ListAuditEntries(f, maxId, EXPORT_PAGE_SIZE, 0);
    if total > MAX_EXPORT_ENTRIES {
      return None;
    }
    var offset := |entries|;
    while |entries| < total
      invariant store.Valid() && maxId <= LatestId(store.log)
      invariant UpTo(f, maxId, store.log) == matching
      invariant offset == |entries| <= |all| == total
      invariant entries == Slice(all, 0, offset)
      decreases total - |entries|
    {
      var page, _ := store.ListAuditEntries(f, maxId, EXPORT_PAGE_SIZE, offset);
      if |page| == 0 {
        break;
      }
      SliceJoin(all, 0, offset, offset + |page|);
      entries := entries + page;
      offset := offset + |page|;
    }
    SliceFromStart(all, |all|);
    assert all[..|all|] == all;
    return Some(entries);
  }

  lemma {:induction false} LatestBoundsAll(f: Filters, log: seq<Entry>, maxId: nat)
    requires WellNumbered(log) && LatestId(log) <= maxId
    ensures UpTo(f, maxId, log) == Filter(Where(f), log)
  {
    if log != [] {
      LatestBoundsAll(f, log[..|log| - 1], maxId);
    }
  }

  /**
   * An export holds exactly the entries that match when the snapshot id is read, whatever other requests append while
   * it pages through them; none at all when there are more than the limit.
   */
  method ExportEntries(store: Store, f: Filters) returns (result: Option<seq<Entry>>)
    requires store.Valid()
    modifies store
    ensures store.Valid()
    ensures var all := Ordered(Filter(Where(f), old(store.log)));
            result == if |all| > 50_000 then None else Some(all)
  {
    ghost var log0 := store.log;
    var snapshotId := store.GetLatestAuditId();
    SnapshotIsStable(f, LatestId(log0), log0, store.others(old(store.waits)));
    LatestBoundsAll(f, log0, LatestId(log0));
    result := LoadExportEntries(store, f, snapshotId);
  }

  lemma {:induction false} FilterKeepsNumbering(p: Entry -> bool, log: seq<Entry>)
    requires WellNumbered(log)
    ensures WellNumbered(Filter(p, log))
  {
    if log != [] {
      var front, last := log[..|log| - 1], log[|log| - 1];
      FilterKeepsNumbering(p, front);
      var kept := Filter(p, front);
      forall i | 0 <= i < |kept| ensures kept[i].id < last.id {
        FilterMember(p, front, kept[i]);
      }
    }
  }

  /** Every matching entry is exported once, nothing else is, and newer entries come first. */
  lemma ExportIsExact(f: Filters, log: seq<Entry>, e: Entry)
    requires WellNumbered(log)
    ensures var all := Ordered(Filter(Where(f), log));
            && NewestFirst(all)
            && multiset(all)[e] == if e in log && Matches(f, e) then 1 else 0
  {
    var kept := Filter(Where(f), log);
    FilterKeepsNumbering(Where(f), log);
    OrderedIsExact(kept);
    FilterMember(Where(f), log, e);
    assert e in multiset(kept) <==> e in kept;
    NumberedOnce(kept, e);
  }

  lemma {:induction false} NumberedOnce(log: seq<Entry>, e: Entry)
    requires WellNumbered(log)
    ensures multiset(log)[e] <= 1
  {
    if log != [] {
      InitLast(log);
      NumberedOnce(log[..|log| - 1], e);
      if e == log[|log| - 1] {
        assert e !in log[..|log| - 1];
      }
    }
  }

  // ---------------------------------------------------------------------------
  // The CSV file
  // ---------------------------------------------------------------------------

  datatype Shown = Shown(text: string)

  const COLUMNS := 8

  function Header(): (r: seq<string>)
    ensures |r| == COLUMNS
  {
    ["id", "createdAt", "actorUserId", "actorName", "action", "targetType", "targetId", "details"]
  }

  function OrEmpty(value: Option<string>): string {
    if value.Some? then value.value else ""
  }

  /** `iso` prints a time. */
  function AuditRow(e: Entry, iso: int -> Shown): (r: seq<string>)
    ensures |r| == COLUMNS
  {
    [Decimal(e.id), iso(e.fields.createdAt).text, OrEmpty(e.fields.actorUserId), e.fields.actorName, e.fields.action,
     OrEmpty(e.fields.targetType), OrEmpty(e.fields.targetId), e.fields.details]
  }

  function AuditTable(entries: seq<Entry>, iso: int -> Shown): (r: seq<seq<string>>)
    ensures |r| == |entries| + 1 && r[0] == Header()
    ensures forall i | 0 <= i < |r| :: |r[i]| == COLUMNS
  {
    if entries == [] then [Header()]
    else AuditTable(entries[..|entries| - 1], iso) + [AuditRow(entries[|entries| - 1], iso)]
  }

  lemma {:induction false} AuditTableAt(entries: seq<Entry>, iso: int -> Shown, i: nat)
    requires i < |entries|
    ensures AuditTable(entries, iso)[i + 1] == AuditRow(entries[i], iso)
  {
    if i < |entries| - 1 {
      AuditTableAt(entries[..|entries| - 1], iso, i);
    }
  }

  function AuditCsv(entries: seq<Entry>, iso: int -> Shown): string {
    Csv.PrintTable(AuditTable(entries, iso))
  }

  /**
   * Reading an export gives one record per entry, in order, under the header: the id as it is, every other column
   * guarded, whatever characters the values contain.
   */
  lemma AuditCsvReadsBack(entries: seq<Entry>, iso: int -> Shown, i: nat, j: nat)
    requires i < |entries| && j < COLUMNS
    ensures Csv.ReadCsv(AuditCsv(entries, iso)).Some?
    ensures var records := Csv.ReadCsv(AuditCsv(entries, iso)).value;
            && |records| == |entries| + 1
            && records[0] == Header()
            && |records[i + 1]| == COLUMNS
            && records[i + 1][0] == Decimal(entries[i].id)
            && records[i + 1][j] == Csv.Guarded(AuditRow(entries[i], iso)[j])
            && !Csv.LooksLikeFormula(records[i + 1][j])
  {
    hide Header, AuditRow, Csv.Guarded, Csv.LooksLikeFormula, Csv.ReadCsv, Csv.PrintTable, Csv.GuardedTable, Csv.GuardedRow;
    var table := AuditTable(entries, iso);
    Csv.RoundTrip(table);
    Csv.NoCellIsFormula(table, i + 1, j);
    AuditTableAt(entries, iso, i);
    Csv.GuardedAt(table, i + 1, 0);
    HeaderIsPlain(table);
    IdIsPlain(entries[i], iso);
  }

  lemma IdIsPlain(e: Entry, iso: int -> Shown)
    ensures AuditRow(e, iso)[0] == Decimal(e.id) && Csv.Guarded(Decimal(e.id)) == Decimal(e.id)
  {
    PlainCell(Decimal(e.id));
  }

  lemma PlainCell(value: string)
    requires value != "" && !IsWhitespace(value[0]) && !Csv.IsFormulaStart(value[0])
    ensures Csv.Guarded(value) == value
  {
  }

  lemma HeaderIsPlain(table: seq<seq<string>>)
    requires table != [] && table[0] == Header()
    ensures Csv.GuardedTable(table)[0] == Header()
  {
    var h, g := Header(), Csv.GuardedTable(table)[0];
    hide Csv.Guarded, Csv.GuardedTable, Csv.GuardedRow;
    forall j | 0 <= j < |h| ensures |g| == |h| && g[j] == h[j] {
      Csv.GuardedAt(table, 0, j);
      HeaderStarts(j);
      hide Header;
      PlainCell(h[j]);
    }
  }

  lemma HeaderStarts(j: nat)
    requires j < COLUMNS
    ensures var h := Header()[j]; h != "" && 'a' <= h[0] <= 'z' && !IsWhitespace(h[0]) && !Csv.IsFormulaStart(h[0])
  {
    var h := Header()[j];
    assert h != "" && 'a' <= h[0] <= 'z';
    hide Header;
  }

  /** The file in the entries' own fields: the header as it is, and of each entry its eight columns, each guarded. */
  lemma AuditCsvColumns(entries: seq<Entry>, iso: int -> Shown, i: nat)
    requires i < |entries|
    ensures Csv.ReadCsv(AuditCsv(entries, iso)).Some?
    ensures var records, e := Csv.ReadCsv(AuditCsv(entries, iso)).value, entries[i].fields;
            && |records| == |entries| + 1
            && records[0] == ["id", "createdAt", "actorUserId", "actorName", "action", "targetType", "targetId", "details"]
            && |records[i + 1]| == 8
            && records[i + 1][0] == Decimal(entries[i].id)
            && records[i + 1][1] == Csv.Guarded(iso(e.createdAt).text)
            && records[i + 1][2] == Csv.Guarded(if e.actorUserId.Some? then e.actorUserId.value else "")
            && records[i + 1][3] == Csv.Guarded(e.actorName)
            && records[i + 1][4] == Csv.Guarded(e.action)
            && records[i + 1][5] == Csv.Guarded(if e.targetType.Some? then e.targetType.value else "")
            && records[i + 1][6] == Csv.Guarded(if e.targetId.Some? then e.targetId.value else "")
            && records[i + 1][7] == Csv.Guarded(e.details)
  {
    hide AuditCsv, Csv.Guarded, Csv.LooksLikeFormula, Csv.ReadCsv;
    AuditCsvReadsBack(entries, iso, i, 0);
    AuditCsvReadsBack(entries, iso, i, 1);
    AuditCsvReadsBack(entries, iso, i, 2);
    AuditCsvReadsBack(entries, iso, i, 3);
    AuditCsvReadsBack(entries, iso, i, 4);
    AuditCsvReadsBack(entries, iso, i, 5);
    AuditCsvReadsBack(entries, iso, i, 6);
    AuditCsvReadsBack(entries, iso, i, 7);
  }

  /** An exported entry matches what was asked for, in its own fields, and newer entries precede older ones. */
  lemma ExportedInFields(f: Filters, log: seq<Entry>, i: nat, j: nat)
    requires WellNumbered(log) && i < j < |Ordered(Filter(Where(f), log))|
    ensures var a, b := Ordered(Filter(Where(f), log))[i], Ordered(Filter(Where(f), log))[j];
            a.fields.createdAt > b.fields.createdAt || (a.fields.createdAt == b.fields.createdAt && a.id > b.id)
  {
    FilterKeepsNumbering(Where(f), log);
    OrderedByTimeThenId(Filter(Where(f), log), i, j);
    hide Ordered, Filter;
  }
}
