/** Model usage restricted to the projects a caller may read (filterModelUsageSummary in src/admin/adminOverviewRoutes.ts). */
module ModelUsage {
  import opened Seqs

  datatype Tokens = Tokens(input: int, output: int, cached: int, cacheWrite: int)

  /** What is summed: runs, cost, tokens, and runs whose tokens were measured. */
  datatype Usage = Usage(runCount: int, usd: real, tokens: Tokens, runCountWithTokens: int)

  datatype Bucket = Active | Watching | Done | Failed

  datatype Entry = Entry(modelId: Option<string>, bucket: Bucket, usage: Usage)

  datatype Project = Project(projectId: Option<string>, projectName: Option<string>, bucket: Bucket, models: seq<Entry>)

  datatype Summary = Summary(
    byModel: seq<Entry>, perProject: seq<Project>, totalRuns: int, totalUsd: real, totalTokens: Tokens,
    sinceEpochSeconds: Option<int>)

  // ---------------------------------------------------------------------------
  // Adding up
  // ---------------------------------------------------------------------------

  const NO_TOKENS := Tokens(0, 0, 0, 0)
  const NO_USAGE := Usage(0, 0.0, NO_TOKENS, 0)

  function AddTokens(a: Tokens, b: Tokens): Tokens {
    Tokens(a.input + b.input, a.output + b.output, a.cached + b.cached, a.cacheWrite + b.cacheWrite)
  }

  function Add(a: Usage, b: Usage): Usage {
    Usage(a.runCount + b.runCount, a.usd + b.usd, AddTokens(a.tokens, b.tokens), a.runCountWithTokens + b.runCountWithTokens)
  }

  function UsageOf(entries: seq<Entry>): Usage {
    if entries == [] then NO_USAGE else Add(UsageOf(entries[..|entries| - 1]), entries[|entries| - 1].usage)
  }

  // ---------------------------------------------------------------------------
  // Keys
  // ---------------------------------------------------------------------------

  function BucketName(bucket: Bucket): string {
    match bucket
    case Active => "active"
    case Watching => "watching"
    case Done => "done"
    case Failed => "failed"
  }

  function ModelName(e: Entry): string {
    if e.modelId.Some? then e.modelId.value else ""
  }

  function KeyOf(e: Entry): string {
    ModelName(e) + "\0" + BucketName(e.bucket)
  }

  lemma LastOfKey(a: string, s: string)
    requires '\0' !in s
    ensures var x := a + "\0" + s;
            && (s == "" ==> x[|x| - 1] == '\0' && x[..|x| - 1] == a)
            && (s != "" ==> x[|x| - 1] == s[|s| - 1] != '\0' && x[..|x| - 1] == a + "\0" + s[..|s| - 1])
  {
    if s != "" {
      assert s[|s| - 1] in s;
    }
  }

  /** What follows the last NUL of a text is determined by the text. */
  lemma {:induction false} CutAtLastNul(a: string, s: string, b: string, t: string)
    requires '\0' !in s && '\0' !in t && a + "\0" + s == b + "\0" + t
    ensures a == b && s == t
    decreases |s|
  {
    LastOfKey(a, s);
    LastOfKey(b, t);
    if s != "" && t != "" {
      CutAtLastNul(a, s[..|s| - 1], b, t[..|t| - 1]);
      InitLast(s);
      InitLast(t);
    }
  }

  /** Two entries are merged exactly when they name the same model, an unresolved one counting as "", in the same bucket. */
  lemma KeysAgreeExactly(a: Entry, b: Entry)
    ensures KeyOf(a) == KeyOf(b)
       <==> a.bucket == b.bucket && (a.modelId == b.modelId || {a.modelId, b.modelId} == {None, Some("")})
  {
    if KeyOf(a) == KeyOf(b) {
      CutAtLastNul(ModelName(a), BucketName(a.bucket), ModelName(b), BucketName(b.bucket));
      assert BucketName(a.bucket)[0] == BucketName(b.bucket)[0];
    }
  }

  // ---------------------------------------------------------------------------
  // One entry per key
  // ---------------------------------------------------------------------------

  function FirstKeys(entries: seq<Entry>): seq<string> {
    if entries == [] then []
    else
      var before, key := FirstKeys(entries[..|entries| - 1]), KeyOf(entries[|entries| - 1]);
      if key in before then before else before + [key]
  }

  function HasKey(key: string): Entry -> bool {
    (e: Entry) => KeyOf(e) == key
  }

  /** An entry with the usage of a further one added; the further one itself when there is none yet. */
  function Absorb(existing: Option<Entry>, e: Entry): Entry {
    if existing.Some? then existing.value.(usage := Add(existing.value.usage, e.usage)) else e
  }

  /** The first entry with the key, carrying the usage of all of them. */
  function Merged(entries: seq<Entry>, key: string): Option<Entry> {
    if entries == [] then None
    else
      var before, e := Merged(entries[..|entries| - 1], key), entries[|entries| - 1];
      if KeyOf(e) == key then Some(Absorb(before, e)) else before
  }

  function MergedEach(entries: seq<Entry>, keys: seq<string>): seq<Entry> {
    if keys == [] then []
    else
      var before, merged := MergedEach(entries, keys[..|keys| - 1]), Merged(entries, keys[|keys| - 1]);
      if merged.Some? then before + [merged.value] else before
  }

  function Aggregated(entries: seq<Entry>): seq<Entry> {
    MergedEach(entries, FirstKeys(entries))
  }

  /** `sort` by descending run count; equal counts keep their order. */
  function Insert(s: seq<Entry>, e: Entry): seq<Entry> {
    if s != [] && s[|s| - 1].usage.runCount < e.usage.runCount then Insert(s[..|s| - 1], e) + [s[|s| - 1]] else s + [e]
  }

  function SortedByRuns(s: seq<Entry>): seq<Entry> {
    if s == [] then [] else Insert(SortedByRuns(s[..|s| - 1]), s[|s| - 1])
  }

  // ---------------------------------------------------------------------------
  // The loops
  // ---------------------------------------------------------------------------

  function ReadableIn(projectIds: set<string>): Project -> bool {
    (p: Project) => p.projectId.Some? && p.projectId.value in projectIds
  }

  function ModelsOf(projects: seq<Project>): seq<Entry> {
    if projects == [] then [] else ModelsOf(projects[..|projects| - 1]) + projects[|projects| - 1].models
  }

  lemma FirstKeysPush(entries: seq<Entry>, e: Entry)
    ensures FirstKeys(entries + [e])
         == if KeyOf(e) in FirstKeys(entries) then FirstKeys(entries) else FirstKeys(entries) + [KeyOf(e)]
  {
    InitOfPush(entries, e);
  }

  lemma MergedPush(entries: seq<Entry>, e: Entry, key: string)
    ensures Merged(entries + [e], key)
         == if KeyOf(e) == key then Some(Absorb(Merged(entries, key), e)) else Merged(entries, key)
  {
    InitOfPush(entries, e);
  }

  lemma {:induction false} MergedExists(entries: seq<Entry>, key: string)
    ensures Merged(entries, key).Some? <==> key in FirstKeys(entries)
  {
    if entries != [] {
      MergedExists(entries[..|entries| - 1], key);
    }
  }

  function Lookup(m: map<string, Entry>, key: string): Option<Entry> {
    if key in m then Some(m[key]) else None
  }

  /** The insertion-ordered map of the loop: its keys in order, and its contents. */
  ghost predicate Holds(order: seq<string>, aggregated: map<string, Entry>, entries: seq<Entry>) {
    && order == FirstKeys(entries)
    && (forall key :: Lookup(aggregated, key) == Merged(entries, key))
  }

  lemma HoldsOneMore(order: seq<string>, aggregated: map<string, Entry>, entries: seq<Entry>, e: Entry)
    requires Holds(order, aggregated, entries)
    ensures var key := KeyOf(e);
            Holds(if key in aggregated then order else order + [key],
                  aggregated[key := Absorb(Lookup(aggregated, key), e)], entries + [e])
  {
    var key := KeyOf(e);
    FirstKeysPush(entries, e);
    MergedExists(entries, key);
    assert Lookup(aggregated, key) == Merged(entries, key);
    forall k {
      MergedPush(entries, e, k);
    }
    hide FirstKeys, Merged, KeyOf, Absorb;
  }

  method Aggregate(order: seq<string>, aggregated: map<string, Entry>, models: seq<Entry>, ghost before: seq<Entry>)
    returns (order': seq<string>, aggregated': map<string, Entry>)
    requires Holds(order, aggregated, before)
    ensures Holds(order', aggregated', before + models)
  {
    order', aggregated' := order, aggregated;
    AppendNothing(before);
    hide Holds, KeyOf, Add;
    for j := 0 to |models|
      invariant Holds(order', aggregated', before + models[..j])
    {
      var model := models[j];
      assert models[..j + 1] == models[..j] + [model];
      AppendAssociative(before, models[..j], [model]);
      HoldsOneMore(order', aggregated', before + models[..j], model);
      var key := KeyOf(model);
      if key in aggregated' {
        var existing := aggregated'[key];
        aggregated' := aggregated'[key := existing.(usage := Add(existing.usage, model.usage))];
      } else {
        order' := order' + [key];
        aggregated' := aggregated'[key := model];
      }
    }
    assert models[..|models|] == models;
  }

  method FilterModelUsageSummary(summary: Summary, projectIds: set<string>) returns (r: Summary)
    ensures r.perProject == Filter(ReadableIn(projectIds), summary.perProject)
    ensures r.byModel == SortedByRuns(Aggregated(ModelsOf(r.perProject)))
    ensures UsageOf(r.byModel) == UsageOf(ModelsOf(r.perProject))
    ensures var total := UsageOf(ModelsOf(r.perProject));
            r.totalRuns == total.runCount && r.totalUsd == total.usd && r.totalTokens == total.tokens
    ensures r.sinceEpochSeconds == summary.sinceEpochSeconds
  {
    var perProject := Filter(ReadableIn(projectIds), summary.perProject);
    var order: seq<string>, aggregated: map<string, Entry> := [], map[];
    for i := 0 to |perProject|
      invariant Holds(order, aggregated, ModelsOf(perProject[..i]))
    {
      hide Holds;
      TakeTake(perProject, i + 1, i);
      order, aggregated := Aggregate(order, aggregated, perProject[i].models, ModelsOf(perProject[..i]));
    }
    assert perProject[..|perProject|] == perProject;
    var entries := ModelsOf(perProject);
    var values: seq<Entry> := [];
    for i := 0 to |order|
      invariant values == MergedEach(entries, order[..i])
    {
      TakeTake(order, i + 1, i);
      MergedExists(entries, order[i]);
      values := values + [aggregated[order[i]]];
    }
    assert order[..|order|] == order;
    var byModel := SortedByRuns(values);
    var total := UsageOf(byModel);
    ByModelConserves(entries);
    r := Summary(byModel, perProject, total.runCount, total.usd, total.tokens, summary.sinceEpochSeconds);
  }

  // ---------------------------------------------------------------------------
  // Conservation
  // ---------------------------------------------------------------------------

  lemma {:induction false} FirstKeysDistinct(entries: seq<Entry>)
    ensures Distinct(FirstKeys(entries))
  {
    if entries != [] {
      var front, e := entries[..|entries| - 1], entries[|entries| - 1];
      FirstKeysDistinct(front);
      InitOfPush(FirstKeys(front), KeyOf(e));
    }
  }

  /** A merged entry carries the usage of exactly the entries with its key. */
  lemma {:induction false} MergedSums(entries: seq<Entry>, key: string)
    ensures Merged(entries, key).None? ==> Filter(HasKey(key), entries) == []
    ensures Merged(entries, key).Some? ==>
              KeyOf(Merged(entries, key).value) == key
              && Merged(entries, key).value.usage == UsageOf(Filter(HasKey(key), entries))
  {
    if entries != [] {
      var front, e := entries[..|entries| - 1], entries[|entries| - 1];
      MergedSums(front, key);
      InitOfPush(Filter(HasKey(key), front), e);
      assert KeyOf(e) == key && Merged(front, key).Some? ==>
          KeyOf(Merged(entries, key).value) == KeyOf(Merged(front, key).value);
    }
  }

  lemma AddRearranges(a: Usage, b: Usage, c: Usage)
    ensures Add(a, Add(b, c)) == Add(Add(a, b), c) && Add(Add(a, b), c) == Add(Add(a, c), b)
  {
  }

  lemma UsagePush(entries: seq<Entry>, e: Entry)
    ensures UsageOf(entries + [e]) == Add(UsageOf(entries), e.usage)
  {
    InitOfPush(entries, e);
  }

  lemma {:induction false} MergedEachPush(entries: seq<Entry>, e: Entry, keys: seq<string>)
    requires Distinct(keys) && forall key | key in keys :: key in FirstKeys(entries)
    ensures UsageOf(MergedEach(entries + [e], keys))
         == if KeyOf(e) in keys then Add(UsageOf(MergedEach(entries, keys)), e.usage) else UsageOf(MergedEach(entries, keys))
  {
    if keys != [] {
      InitLast(keys);
      hide KeyOf, FirstKeys, Merged, Add, UsageOf, MergedEach;
      var front, key := keys[..|keys| - 1], keys[|keys| - 1];
      MergedEachPush(entries, e, front);
      MergedExists(entries, key);
      MergedPush(entries, e, key);
      MergedEachLast(entries, keys);
      MergedEachLast(entries + [e], keys);
      AddRearranges(UsageOf(MergedEach(entries, front)), Merged(entries, key).value.usage, e.usage);
    }
  }

  lemma MergedEachLast(entries: seq<Entry>, keys: seq<string>)
    requires keys != [] && Merged(entries, keys[|keys| - 1]).Some?
    ensures var front, merged := keys[..|keys| - 1], Merged(entries, keys[|keys| - 1]).value;
            UsageOf(MergedEach(entries, keys)) == Add(UsageOf(MergedEach(entries, front)), merged.usage)
  {
    UsagePush(MergedEach(entries, keys[..|keys| - 1]), Merged(entries, keys[|keys| - 1]).value);
    hide Merged, UsageOf;
  }

  lemma {:induction false} AggregationConserves(entries: seq<Entry>)
    ensures UsageOf(Aggregated(entries)) == UsageOf(entries)
  {
    if entries != [] {
      var front, e := entries[..|entries| - 1], entries[|entries| - 1];
      AggregationConserves(front);
      InitLast(entries);
      FirstKeysDistinct(front);
      FirstKeysPush(front, e);
      MergedEachPush(front, e, FirstKeys(front));
      if KeyOf(e) !in FirstKeys(front) {
        MergedExists(front, KeyOf(e));
        MergedPush(front, e, KeyOf(e));
        InitOfPush(FirstKeys(front), KeyOf(e));
        InitOfPush(MergedEach(entries, FirstKeys(front)), e);
      }
    }
  }

  // ---------------------------------------------------------------------------
  // The reported list
  // ---------------------------------------------------------------------------

  lemma {:induction false} InsertAdds(s: seq<Entry>, e: Entry)
    ensures multiset(Insert(s, e)) == multiset(s) + multiset{e}
    ensures UsageOf(Insert(s, e)) == Add(UsageOf(s), e.usage)
  {
    UsagePush(s, e);
    if s != [] && s[|s| - 1].usage.runCount < e.usage.runCount {
      var front, last := s[..|s| - 1], s[|s| - 1];
      InsertAdds(front, e);
      InitLast(s);
      UsagePush(Insert(front, e), last);
      AddRearranges(UsageOf(front), e.usage, last.usage);
      hide Add;
    }
  }

  predicate Descending(s: seq<Entry>) {
    forall i, j | 0 <= i < j < |s| :: s[i].usage.runCount >= s[j].usage.runCount
  }

  predicate OnePerKey(s: seq<Entry>) {
    s == [] || (Lacks(s[..|s| - 1], KeyOf(s[|s| - 1])) && OnePerKey(s[..|s| - 1]))
  }

  predicate Lacks(s: seq<Entry>, key: string) {
    forall e | e in s :: KeyOf(e) != key
  }

  lemma InsertMember(s: seq<Entry>, e: Entry, x: Entry)
    ensures x in Insert(s, e) <==> x in s || x == e
  {
    InsertAdds(s, e);
    assert x in Insert(s, e) <==> x in multiset(s) + multiset{e};
  }

  lemma {:induction false} InsertDescends(s: seq<Entry>, e: Entry)
    requires Descending(s)
    ensures Descending(Insert(s, e))
  {
    if s != [] && s[|s| - 1].usage.runCount < e.usage.runCount {
      var front, last := s[..|s| - 1], s[|s| - 1];
      InsertDescends(front, e);
      var r := Insert(front, e);
      forall i | 0 <= i < |r| ensures r[i].usage.runCount >= last.usage.runCount {
        InsertMember(front, e, r[i]);
      }
    }
  }

  lemma {:induction false} InsertOnePerKey(s: seq<Entry>, e: Entry)
    requires OnePerKey(s) && Lacks(s, KeyOf(e))
    ensures OnePerKey(Insert(s, e))
  {
    if s != [] && s[|s| - 1].usage.runCount < e.usage.runCount {
      hide KeyOf;
      var front, last := s[..|s| - 1], s[|s| - 1];
      InitLast(s);
      InsertOnePerKey(front, e);
      forall x | x in Insert(front, e) ensures KeyOf(x) != KeyOf(last) {
        InsertMember(front, e, x);
      }
      InitOfPush(Insert(front, e), last);
    } else {
      InitOfPush(s, e);
    }
  }

  lemma {:induction false} SortingPermutes(s: seq<Entry>)
    ensures multiset(SortedByRuns(s)) == multiset(s) && UsageOf(SortedByRuns(s)) == UsageOf(s)
  {
    if s != [] {
      hide Add;
      SortingPermutes(s[..|s| - 1]);
      InitLast(s);
      InsertAdds(SortedByRuns(s[..|s| - 1]), s[|s| - 1]);
    }
  }

  lemma {:induction false} SortingDescends(s: seq<Entry>)
    ensures Descending(SortedByRuns(s))
  {
    if s != [] {
      SortingDescends(s[..|s| - 1]);
      InsertDescends(SortedByRuns(s[..|s| - 1]), s[|s| - 1]);
    }
  }

  lemma {:induction false} SortingKeepsKeys(s: seq<Entry>)
    requires OnePerKey(s)
    ensures OnePerKey(SortedByRuns(s))
  {
    if s != [] {
      hide KeyOf;
      var front := s[..|s| - 1];
      SortingKeepsKeys(front);
      SortingPermutes(front);
      forall x | x in SortedByRuns(front) ensures x in front {
        assert x in multiset(front);
      }
      InsertOnePerKey(SortedByRuns(front), s[|s| - 1]);
    }
  }

  lemma {:induction false} AggregatedEntries(entries: seq<Entry>, keys: seq<string>)
    requires Distinct(keys) && forall key | key in keys :: key in FirstKeys(entries)
    ensures OnePerKey(MergedEach(entries, keys))
    ensures forall e | e in MergedEach(entries, keys) :: KeyOf(e) in keys && Merged(entries, KeyOf(e)) == Some(e)
  {
    if keys != [] {
      var front, key := keys[..|keys| - 1], keys[|keys| - 1];
      InitLast(keys);
      AggregatedEntries(entries, front);
      MergedSums(entries, key);
      MergedExists(entries, key);
      InitOfPush(MergedEach(entries, front), Merged(entries, key).value);
      hide KeyOf, FirstKeys, Merged;
    }
  }

  /**
   * The list by model and the totals conserve usage: one entry per model and bucket, in descending run order, each
   * carrying the usage of all kept entries with its key, and together exactly the usage of all kept entries.
   */
  lemma ByModelConserves(entries: seq<Entry>)
    ensures var byModel := SortedByRuns(Aggregated(entries));
            && UsageOf(byModel) == UsageOf(entries)
            && OnePerKey(byModel) && Descending(byModel)
            && (forall e | e in byModel :: e.usage == UsageOf(Filter(HasKey(KeyOf(e)), entries)))
            && (forall e | e in entries :: exists m :: m in byModel && KeyOf(m) == KeyOf(e))
  {
    var list, byModel := Aggregated(entries), SortedByRuns(Aggregated(entries));
    AggregationConserves(entries);
    FirstKeysDistinct(entries);
    AggregatedEntries(entries, FirstKeys(entries));
    SortingPermutes(list);
    SortingDescends(list);
    SortingKeepsKeys(list);
    assert forall e :: e in byModel <==> e in multiset(list);
    forall e | e in byModel ensures e.usage == UsageOf(Filter(HasKey(KeyOf(e)), entries)) {
      assert e in list;
      MergedSums(entries, KeyOf(e));
    }
    forall e | e in entries ensures exists m :: m in byModel && KeyOf(m) == KeyOf(e) {
      EveryKeyKept(entries, FirstKeys(entries), e);
    }
  }

  lemma {:induction false} KeyListed(entries: seq<Entry>, e: Entry)
    requires e in entries
    ensures KeyOf(e) in FirstKeys(entries)
  {
    InitLast(entries);
    if e in entries[..|entries| - 1] {
      KeyListed(entries[..|entries| - 1], e);
    }
  }

  lemma EveryKeyKept(entries: seq<Entry>, keys: seq<string>, e: Entry)
    requires e in entries && keys == FirstKeys(entries)
    ensures exists m :: m in MergedEach(entries, keys) && KeyOf(m) == KeyOf(e)
  {
    KeyListed(entries, e);
    MergedExists(entries, KeyOf(e));
    MergedSums(entries, KeyOf(e));
    MergedIsListed(entries, keys, KeyOf(e));
  }

  lemma {:induction false} MergedIsListed(entries: seq<Entry>, keys: seq<string>, key: string)
    requires key in keys && Merged(entries, key).Some?
    ensures Merged(entries, key).value in MergedEach(entries, keys)
  {
    InitLast(keys);
    if key in keys[..|keys| - 1] {
      MergedIsListed(entries, keys[..|keys| - 1], key);
    }
  }

  // ---------------------------------------------------------------------------
  // What is counted
  // ---------------------------------------------------------------------------

  /** How often the projects list an entry. */
  function Listed(projects: seq<Project>, e: Entry): nat {
    if projects == [] then 0 else Listed(projects[..|projects| - 1], e) + multiset(projects[|projects| - 1].models)[e]
  }

  /** Every entry of every project is counted, as often as it is listed. */
  lemma {:induction false} EveryModelIsCounted(projects: seq<Project>, e: Entry)
    ensures multiset(ModelsOf(projects))[e] == Listed(projects, e)
  {
    if projects != [] {
      EveryModelIsCounted(projects[..|projects| - 1], e);
    }
  }

  /** Only projects the caller may read are kept, in order; one without an id is not. */
  lemma ReadableExactly(projects: seq<Project>, ids: set<string>, p: Project)
    ensures p in Filter(ReadableIn(ids), projects) <==> p in projects && exists id :: id in ids && p.projectId == Some(id)
  {
    FilterMember(ReadableIn(ids), projects, p);
  }

  function Runs(entries: seq<Entry>): seq<int> {
    if entries == [] then [] else Runs(entries[..|entries| - 1]) + [entries[|entries| - 1].usage.runCount]
  }

  function MeasuredRuns(entries: seq<Entry>): seq<int> {
    if entries == [] then [] else MeasuredRuns(entries[..|entries| - 1]) + [entries[|entries| - 1].usage.runCountWithTokens]
  }

  function InputTokens(entries: seq<Entry>): seq<int> {
    if entries == [] then [] else InputTokens(entries[..|entries| - 1]) + [entries[|entries| - 1].usage.tokens.input]
  }

  function OutputTokens(entries: seq<Entry>): seq<int> {
    if entries == [] then [] else OutputTokens(entries[..|entries| - 1]) + [entries[|entries| - 1].usage.tokens.output]
  }

  function CachedTokens(entries: seq<Entry>): seq<int> {
    if entries == [] then [] else CachedTokens(entries[..|entries| - 1]) + [entries[|entries| - 1].usage.tokens.cached]
  }

  function CacheWrites(entries: seq<Entry>): seq<int> {
    if entries == [] then [] else CacheWrites(entries[..|entries| - 1]) + [entries[|entries| - 1].usage.tokens.cacheWrite]
  }

  function Cost(entries: seq<Entry>): real {
    if entries == [] then 0.0 else Cost(entries[..|entries| - 1]) + entries[|entries| - 1].usage.usd
  }

  /** The usage of a list is the sum of each of its fields. */
  lemma {:induction false} UsageIsSums(entries: seq<Entry>)
    ensures UsageOf(entries)
         == Usage(Sum(Runs(entries)), Cost(entries),
                  Tokens(Sum(InputTokens(entries)), Sum(OutputTokens(entries)), Sum(CachedTokens(entries)), Sum(CacheWrites(entries))),
                  Sum(MeasuredRuns(entries)))
  {
    if entries != [] {
      UsageIsSums(entries[..|entries| - 1]);
    }
  }
}
