/**
 * The engine selection over a run of boots, launcher runs, integration changes and saves (AgentEngineStateStore and
 * initializeAgentEngineState in src/agents/agentEngines.ts, the routes in src/admin/adminAgentEngineRoutes.ts and
 * src/admin/adminIntegrationRoutes.ts).
 */
module AgentEngineSelection {
  import opened Seqs
  import opened AgentEngines

  datatype File = Requested | Installed | Forced | InUse

  const ENGINES := "Agent engines "
  const REQUESTED_BY := "requested in the admin UI; "
  const USED_BY := "used by integrations; "
  const LAUNCHER := "scripts/start.sh "
  const BUILDS := "builds these images."
  const NEVER_PRUNES := "never prunes these images."

  const REQUESTED_HEADER := (ENGINES + REQUESTED_BY) + (LAUNCHER + BUILDS)
  const IN_USE_HEADER := (ENGINES + USED_BY) + (LAUNCHER + NEVER_PRUNES)

  /** Texts by file; a missing file has no entry. */
  type Files = map<File, string>

  datatype Integration = Integration(id: string, provider: string, name: string, enabled: bool)

  // ---------------------------------------------------------------------------
  // What each operation makes of the files
  // ---------------------------------------------------------------------------

  function RequestedIn(files: Files): Option<seq<Engine>> {
    if Requested in files then Some(NormalizeRequestedEngines(Elements(Parsed(files[Requested])))) else None
  }

  function InstalledIn(files: Files): Option<seq<Engine>> {
    if Installed in files then Some(Parsed(files[Installed])) else None
  }

  function WithRequested(files: Files, engines: set<Engine>): Files {
    files[Requested := Rendered(REQUESTED_HEADER, NormalizeRequestedEngines(engines))]
  }

  /** The engines among the integrations' providers. */
  function Used(integrations: seq<Integration>): set<Engine> {
    if integrations == [] then {}
    else
      var before, engine := Used(integrations[..|integrations| - 1]), EngineNamed(integrations[|integrations| - 1].provider);
      if engine.Some? then before + {engine.value} else before
  }

  function Recorded(files: Files, integrations: seq<Integration>, added: string): Files {
    var recorded := files[InUse := Rendered(IN_USE_HEADER, SortEngines(Used(integrations)))];
    var engine, requested := EngineNamed(added), RequestedIn(recorded);
    if engine.Some? && requested.Some? && engine.value !in requested.value
    then WithRequested(recorded, Elements(requested.value) + {engine.value}) else recorded
  }

  function Seeded(files: Files, engines: set<Engine>): Files {
    if Requested in files then files else WithRequested(files, engines)
  }

  function InstalledSet(files: Files): set<Engine> {
    var installed := InstalledIn(files);
    if installed.Some? then Elements(installed.value) else {}
  }

  predicate Unavailable(provider: string, installed: Option<seq<Engine>>) {
    var engine := EngineNamed(provider);
    installed.Some? && engine.Some? && engine.value != DEFAULT_AGENT_ENGINE && engine.value !in installed.value
  }

  function IsMissing(installed: Option<seq<Engine>>): Integration -> bool {
    (i: Integration) => i.enabled && Unavailable(i.provider, installed)
  }

  lemma RequestedReadsBack(files: Files, engines: set<Engine>)
    ensures var files' := WithRequested(files, engines);
            && RequestedIn(files') == Some(NormalizeRequestedEngines(engines))
            && Elements(RequestedIn(files').value) == {DEFAULT_AGENT_ENGINE} + engines
            && DEFAULT_AGENT_ENGINE in RequestedIn(files').value
            && files'[Requested] == Rendered(REQUESTED_HEADER, RequestedIn(files').value)
  {
    hide NormalizeRequestedEngines, Elements, Parsed, Rendered;
    assert OneLine(REQUESTED_HEADER) by {
      HeadersAreOneLine();
    }
    SelectionRoundTrip(REQUESTED_HEADER, engines);
    NormalizedIsCanonical(engines);
  }

  lemma EnginesIsOneLine()
    ensures OneLine(ENGINES)
  {
  }

  lemma RequestedByIsOneLine()
    ensures OneLine(REQUESTED_BY)
  {
  }

  lemma UsedByIsOneLine()
    ensures OneLine(USED_BY)
  {
  }

  lemma LauncherIsOneLine()
    ensures OneLine(LAUNCHER)
  {
  }

  lemma BuildsIsOneLine()
    ensures OneLine(BUILDS)
  {
  }

  lemma NeverPrunesIsOneLine()
    ensures OneLine(NEVER_PRUNES)
  {
  }

  lemma JoinedIsOneLine(a: string, b: string)
    requires OneLine(a) && OneLine(b)
    ensures OneLine(a + b)
  {
  }

  lemma HeadersAreOneLine()
    ensures OneLine(REQUESTED_HEADER) && OneLine(IN_USE_HEADER)
  {
    hide OneLine;
    EnginesIsOneLine();
    RequestedByIsOneLine();
    UsedByIsOneLine();
    LauncherIsOneLine();
    BuildsIsOneLine();
    NeverPrunesIsOneLine();
    JoinedIsOneLine(ENGINES, REQUESTED_BY);
    JoinedIsOneLine(ENGINES, USED_BY);
    JoinedIsOneLine(LAUNCHER, BUILDS);
    JoinedIsOneLine(LAUNCHER, NEVER_PRUNES);
    JoinedIsOneLine(ENGINES + REQUESTED_BY, LAUNCHER + BUILDS);
    JoinedIsOneLine(ENGINES + USED_BY, LAUNCHER + NEVER_PRUNES);
  }

  // ---------------------------------------------------------------------------
  // The store
  // ---------------------------------------------------------------------------

  class AgentEngineStateStore {
    var files: Files

    constructor (files: Files)
      ensures this.files == files
    {
      this.files := files;
    }

    method ReadRequested() returns (requested: Option<seq<Engine>>)
      ensures requested == RequestedIn(files)
    {
      if Requested in files {
        var parsed := ParseEngineList(files[Requested]);
        return Some(NormalizeRequestedEngines(Elements(parsed)));
      }
      return None;
    }

    method ReadInstalled() returns (installed: Option<seq<Engine>>)
      ensures installed == InstalledIn(files)
    {
      if Installed in files {
        var parsed := ParseEngineList(files[Installed]);
        return Some(parsed);
      }
      return None;
    }

    method WriteList(name: File, header: string, engines: seq<Engine>)
      modifies this
      ensures files == old(files)[name := Rendered(header, engines)]
    {
      files := files[name := Rendered(header, engines)];
    }

    method WriteRequested(engines: set<Engine>) returns (normalized: seq<Engine>)
      modifies this
      ensures normalized == NormalizeRequestedEngines(engines) && files == WithRequested(old(files), engines)
    {
      normalized := NormalizeRequestedEngines(engines);
      WriteList(Requested, REQUESTED_HEADER, normalized);
    }

    method RecordIntegrationUsage(integrations: seq<Integration>, addedEngine: string)
      modifies this
      ensures files == Recorded(old(files), integrations, addedEngine)
    {
      WriteList(InUse, IN_USE_HEADER, SortEngines(Used(integrations)));
      var added := EngineNamed(addedEngine);
      if added.None? {
        return;
      }
      var requested := ReadRequested();
      if requested.Some? && added.value !in requested.value {
        var _ := WriteRequested(Elements(requested.value) + {added.value});
      }
    }

    method SeedRequested(engines: set<Engine>) returns (requested: seq<Engine>)
      modifies this
      ensures files == Seeded(old(files), engines) && RequestedIn(files) == Some(requested)
    {
      var existing := ReadRequested();
      if existing.Some? {
        return existing.value;
      }
      requested := WriteRequested(engines);
      RequestedReadsBack(old(files), engines);
    }

    /** Boot; the engines of enabled integrations that are not installed are reported as missing. */
    method InitializeAgentEngineState(integrations: seq<Integration>)
      returns (requested: seq<Engine>, missing: seq<Integration>)
      modifies this
      ensures System(files, integrations) == Next(System(old(files), integrations), Boot(true, Everything))
      ensures RequestedIn(Seeded(old(files), Used(integrations) + InstalledSet(old(files)))) == Some(requested)
      ensures missing == Filter(IsMissing(InstalledIn(old(files))), integrations)
    {
      var used := Used(integrations);
      var installed := ReadInstalled();
      requested := SeedRequested(used + if installed.Some? then Elements(installed.value) else {});
      RecordIntegrationUsage(integrations, "");
      missing := Filter(IsMissing(installed), integrations);
    }
  }

  // ---------------------------------------------------------------------------
  // Saving a selection
  // ---------------------------------------------------------------------------

  /** The integrations of one engine: names the caller may see, and how many are hidden. */
  datatype EngineUsage = EngineUsage(visible: seq<string>, hidden: nat)

  function UsageOf(all: seq<Integration>, visibleIds: set<string>, engine: Engine): EngineUsage {
    if all == [] then EngineUsage([], 0)
    else
      var before, i := UsageOf(all[..|all| - 1], visibleIds, engine), all[|all| - 1];
      if EngineNamed(i.provider) != Some(engine) then before
      else if i.id in visibleIds then before.(visible := before.visible + [i.name])
      else before.(hidden := before.hidden + 1)
  }

  method IntegrationsByEngine(all: seq<Integration>, visibleIds: set<string>) returns (grouped: map<Engine, EngineUsage>)
    ensures grouped.Keys == Used(all)
    ensures forall engine | engine in grouped :: grouped[engine] == UsageOf(all, visibleIds, engine)
  {
    grouped := map[];
    for k := 0 to |all|
      invariant grouped.Keys == Used(all[..k])
      invariant forall engine | engine in grouped :: grouped[engine] == UsageOf(all[..k], visibleIds, engine)
      invariant forall engine | engine !in grouped :: UsageOf(all[..k], visibleIds, engine) == EngineUsage([], 0)
    {
      TakeTake(all, k + 1, k);
      var integration := all[k];
      var engine := EngineNamed(integration.provider);
      hide EngineNamed;
      if engine.Some? {
        var usage := if engine.value in grouped then grouped[engine.value] else EngineUsage([], 0);
        if integration.id in visibleIds {
          usage := usage.(visible := usage.visible + [integration.name]);
        } else {
          usage := usage.(hidden := usage.hidden + 1);
        }
        grouped := grouped[engine.value := usage];
      }
    }
    assert all[..|all|] == all;
  }

  function Chosen(raw: seq<string>): set<Engine> {
    if raw == [] then {}
    else
      var before, engine := Chosen(raw[..|raw| - 1]), EngineNamed(raw[|raw| - 1]);
      if engine.Some? then before + {engine.value} else before
  }

  function IsUnknown(): string -> bool {
    (value: string) => EngineNamed(value).None?
  }

  datatype PutResult =
    | Unknown(values: seq<string>)
    | StillUsed(blocked: map<Engine, EngineUsage>)
    | Saved(requested: seq<Engine>, added: seq<Engine>, removed: seq<Engine>)

  /** The engines in use that a selection would drop; the default engine is never dropped. */
  function Dropped(integrations: seq<Integration>, next: set<Engine>): set<Engine> {
    Used(integrations) - {DEFAULT_AGENT_ENGINE} - next
  }

  /** The selection before a save; the default engine alone while none was saved. */
  function Previous(files: Files): seq<Engine> {
    var requested := RequestedIn(files);
    if requested.Some? then requested.value else [DEFAULT_AGENT_ENGINE]
  }

  function NotIn(engines: seq<Engine>): Engine -> bool {
    (e: Engine) => e !in engines
  }

  method PutSelection(store: AgentEngineStateStore, raw: seq<string>, integrations: seq<Integration>, visibleIds: set<string>)
    returns (r: PutResult)
    modifies store
    ensures r.Unknown? <==> Filter(IsUnknown(), raw) != []
    ensures r.Unknown? ==> r.values == Filter(IsUnknown(), raw)
    ensures r.StillUsed? <==> Filter(IsUnknown(), raw) == [] && Dropped(integrations, Chosen(raw)) != {}
    ensures r.StillUsed? ==> r.blocked.Keys == Dropped(integrations, Chosen(raw))
    ensures r.StillUsed? ==> forall e | e in r.blocked :: r.blocked[e] == UsageOf(integrations, visibleIds, e)
    ensures r.Saved? ==> r.requested == NormalizeRequestedEngines(Chosen(raw))
    ensures r.Saved? ==> forall e :: e in r.added <==> e in r.requested && e !in Previous(old(store.files))
    ensures r.Saved? ==> forall e :: e in r.removed <==> e in Previous(old(store.files)) && e !in r.requested
    ensures store.files == if r.Saved? then WithRequested(old(store.files), Chosen(raw)) else old(store.files)
  {
    hide Filter, Chosen, Used, UsageOf, RequestedIn, WithRequested, NormalizeRequestedEngines, Elements;
    var unknown := Filter(IsUnknown(), raw);
    if |unknown| > 0 {
      return Unknown(unknown);
    }
    var nextSet := Chosen(raw);
    var usage := IntegrationsByEngine(integrations, visibleIds);
    var blocked := map e | e in usage && e != DEFAULT_AGENT_ENGINE && e !in nextSet :: usage[e];
    assert blocked.Keys == Dropped(integrations, nextSet);
    if |blocked| > 0 {
      return StillUsed(blocked);
    }
    var existing := store.ReadRequested();
    var previous := if existing.Some? then existing.value else [DEFAULT_AGENT_ENGINE];
    var requested := store.WriteRequested(nextSet);
    r := Saved(requested, Filter(NotIn(previous), requested), Filter(NotIn(requested), previous));
    forall e {
      FilterMember(NotIn(previous), requested, e);
    }
    forall e {
      FilterMember(NotIn(requested), previous, e);
    }
  }

  // ---------------------------------------------------------------------------
  // Runs
  // ---------------------------------------------------------------------------

  datatype System = System(files: Files, integrations: seq<Integration>)

  /** How far recording gets before it fails, which the routes only log: nothing, the usage list, or everything. */
  datatype Recording = Nothing | UsageOnly | Everything

  /** `seeded` is false when boot fails before it has a selection. */
  datatype Step =
    | Boot(seeded: bool, recording: Recording)
    | Launch(installed: Option<string>, forced: Option<string>)
    | Create(integration: Integration, recording: Recording)
    | Delete(id: string, recording: Recording)
    | Save(raw: seq<string>)

  function Reported(files: Files, name: File, text: Option<string>): Files {
    if text.Some? then files[name := text.value] else files - {name}
  }

  predicate HasId(integrations: seq<Integration>, id: string) {
    exists i | i in integrations :: i.id == id
  }

  function Without(id: string): Integration -> bool {
    (i: Integration) => i.id != id
  }

  function Record(files: Files, integrations: seq<Integration>, added: string, recording: Recording): Files {
    match recording
    case Nothing => files
    case UsageOnly => Recorded(files, integrations, "")
    case Everything => Recorded(files, integrations, added)
  }

  /** The save is refused for an unknown engine, and while it would drop an engine in use. */
  predicate Accepted(integrations: seq<Integration>, raw: seq<string>) {
    Filter(IsUnknown(), raw) == [] && Dropped(integrations, Chosen(raw)) == {}
  }

  predicate CanCreate(sys: System, i: Integration) {
    !Unavailable(i.provider, InstalledIn(sys.files)) && !HasId(sys.integrations, i.id)
  }

  function Next(sys: System, step: Step): System {
    match step
    case Boot(seeded, recording) =>
      if !seeded then sys
      else
        var files := Seeded(sys.files, Used(sys.integrations) + InstalledSet(sys.files));
        sys.(files := Record(files, sys.integrations, "", recording))
    case Launch(installed, forced) =>
      sys.(files := Reported(Reported(sys.files, Installed, installed), Forced, forced))
    case Create(integration, recording) =>
      if !CanCreate(sys, integration) then sys
      else
        var integrations := sys.integrations + [integration];
        System(Record(sys.files, integrations, integration.provider, recording), integrations)
    case Delete(id, recording) =>
      var integrations := Filter(Without(id), sys.integrations);
      if !HasId(sys.integrations, id) then sys
      else System(Record(sys.files, integrations, "", recording), integrations)
    case Save(raw) =>
      if Accepted(sys.integrations, raw) then sys.(files := WithRequested(sys.files, Chosen(raw))) else sys
  }

  function Run(sys: System, steps: seq<Step>): System {
    if steps == [] then sys else Next(Run(sys, steps[..|steps| - 1]), steps[|steps| - 1])
  }

  // ---------------------------------------------------------------------------
  // The selection covers what is in use
  // ---------------------------------------------------------------------------

  /** A selection, once there is one, is the canonical text of a list with the default engine and every engine in use. */
  predicate Covers(sys: System) {
    Requested in sys.files ==>
      var list := RequestedIn(sys.files).value;
      && sys.files[Requested] == Rendered(REQUESTED_HEADER, list)
      && DEFAULT_AGENT_ENGINE in list
      && Used(sys.integrations) <= Elements(list)
  }

  /** The usage list, once there is one, is the canonical text of exactly the engines in use. */
  predicate UsageExact(sys: System) {
    InUse in sys.files ==> sys.files[InUse] == Rendered(IN_USE_HEADER, SortEngines(Used(sys.integrations)))
  }

  /** Creating an integration is the only step whose recording the selection depends on. */
  predicate CreationRecorded(step: Step) {
    step.Create? ==> step.recording == Everything
  }

  predicate UsageRecorded(step: Step) {
    step.Create? || step.Delete? ==> step.recording != Nothing
  }

  lemma {:induction false} UsedPush(integrations: seq<Integration>, i: Integration)
    ensures Used(integrations + [i])
         == Used(integrations) + if EngineNamed(i.provider).Some? then {EngineNamed(i.provider).value} else {}
  {
    InitOfPush(integrations, i);
  }

  lemma {:induction false} FewerUsed(integrations: seq<Integration>, p: Integration -> bool)
    ensures Used(Filter(p, integrations)) <= Used(integrations)
  {
    if integrations != [] {
      var front, last := integrations[..|integrations| - 1], integrations[|integrations| - 1];
      FewerUsed(front, p);
      UsedPush(Filter(p, front), last);
      hide EngineNamed;
    }
  }

  /** What each kind of step makes of the selection and of the usage list. */
  lemma RecordedReads(files: Files, integrations: seq<Integration>, added: string)
    ensures var after, engine := Recorded(files, integrations, added), EngineNamed(added);
            && InUse in after && after[InUse] == Rendered(IN_USE_HEADER, SortEngines(Used(integrations)))
            && (Requested in after <==> Requested in files)
            && (Requested in files && (engine.None? || engine.value in RequestedIn(files).value) ==>
                  after[Requested] == files[Requested] && RequestedIn(after) == RequestedIn(files))
            && (Requested in files && engine.Some? && engine.value !in RequestedIn(files).value ==>
                  after == WithRequested(files[InUse := after[InUse]], Elements(RequestedIn(files).value) + {engine.value}))
  {
    hide EngineNamed, NormalizeRequestedEngines, Parsed, Elements, Rendered, SortEngines, Used;
  }

  lemma SavedCovers(files: Files, engines: set<Engine>, integrations: seq<Integration>)
    ensures Covers(System(WithRequested(files, engines), integrations))
       <==> Used(integrations) <= {DEFAULT_AGENT_ENGINE} + engines
  {
    RequestedReadsBack(files, engines);
    hide Rendered, RequestedIn, Used;
  }

  /** Booting neither loses nor repairs a selection that exists. */
  lemma BootKeeps(sys: System, seeded: bool, recording: Recording)
    ensures Requested in sys.files ==> (Covers(Next(sys, Boot(seeded, recording))) <==> Covers(sys))
    ensures Requested !in sys.files ==> Covers(Next(sys, Boot(seeded, recording)))
  {
    var engines := Used(sys.integrations) + InstalledSet(sys.files);
    SavedCovers(sys.files, engines, sys.integrations);
    var files := Seeded(sys.files, engines);
    EmptyNamesNothing();
    RecordedReads(files, sys.integrations, "");
    hide Used, Recorded, Rendered, EngineNamed, NormalizeRequestedEngines;
  }

  lemma EmptyNamesNothing()
    ensures EngineNamed("").None?
  {
  }

  /** A creation keeps the selection covering exactly when it is recorded, or there is nothing to add to a selection. */
  lemma CreationExactly(sys: System, i: Integration, recording: Recording)
    requires Covers(sys) && CanCreate(sys, i)
    ensures Covers(Next(sys, Create(i, recording)))
       <==> || recording == Everything
            || Requested !in sys.files
            || EngineNamed(i.provider).None?
            || EngineNamed(i.provider).value in RequestedIn(sys.files).value
  {
    var files, integrations := sys.files, sys.integrations + [i];
    assert Next(sys, Create(i, recording)) == System(Record(files, integrations, i.provider, recording), integrations) by {
      hide Record, CanCreate;
    }
    match recording
    case Nothing => SelectionKept(sys, files, i);
    case UsageOnly => {
      RecordedKeepsSelection(files, integrations, "");
      SelectionKept(sys, Recorded(files, integrations, ""), i);
      hide Recorded;
    }
    case Everything => {
      RecordedCovers(sys, i);
      hide Recorded;
    }
    hide CanCreate, Covers;
  }

  lemma RecordedKeepsSelection(files: Files, integrations: seq<Integration>, added: string)
    requires EngineNamed(added).None? || Requested !in files || EngineNamed(added).value in RequestedIn(files).value
    ensures var after := Recorded(files, integrations, added);
            && (Requested in after <==> Requested in files)
            && (Requested in files ==> after[Requested] == files[Requested])
  {
    RecordedReads(files, integrations, added);
    hide EngineNamed, RequestedIn, Recorded, Rendered, Used;
  }

  /** With the selection's text unchanged, a new integration is covered exactly when it adds nothing. */
  lemma SelectionKept(sys: System, after: Files, i: Integration)
    requires Covers(sys) && (Requested in after <==> Requested in sys.files)
    requires Requested in sys.files ==> after[Requested] == sys.files[Requested]
    ensures Covers(System(after, sys.integrations + [i]))
       <==> || Requested !in sys.files || EngineNamed(i.provider).None?
            || EngineNamed(i.provider).value in RequestedIn(sys.files).value
  {
    UsedPush(sys.integrations, i);
    assert RequestedIn(after) == RequestedIn(sys.files);
    hide Used, Rendered, EngineNamed, RequestedIn;
  }

  lemma RecordedCovers(sys: System, i: Integration)
    requires Covers(sys)
    ensures Covers(System(Recorded(sys.files, sys.integrations + [i], i.provider), sys.integrations + [i]))
  {
    var integrations, engine := sys.integrations + [i], EngineNamed(i.provider);
    var after := Recorded(sys.files, integrations, i.provider);
    if Requested in sys.files && engine.Some? && engine.value !in RequestedIn(sys.files).value {
      var list := RequestedIn(sys.files).value;
      RecordedReads(sys.files, integrations, i.provider);
      UsedPush(sys.integrations, i);
      assert Used(sys.integrations) <= Elements(list) by {
        hide Rendered, RequestedIn, Used;
      }
      hide *;
      SavedCovers(sys.files[InUse := after[InUse]], Elements(list) + {engine.value}, integrations);
    } else {
      RecordedKeepsSelection(sys.files, integrations, i.provider);
      SelectionKept(sys, after, i);
      hide *;
    }
  }

  lemma DeletionKeeps(sys: System, id: string, recording: Recording)
    requires Covers(sys)
    ensures Covers(Next(sys, Delete(id, recording)))
  {
    var integrations := Filter(Without(id), sys.integrations);
    FewerUsed(sys.integrations, Without(id));
    EmptyNamesNothing();
    RecordedReads(sys.files, integrations, "");
    hide Used, Recorded, Rendered, EngineNamed, NormalizeRequestedEngines, Parsed, Filter;
  }

  /** The save guard is exact: it refuses known engines exactly when the selection would drop one in use. */
  lemma GuardExactly(sys: System, raw: seq<string>)
    requires Filter(IsUnknown(), raw) == []
    ensures Accepted(sys.integrations, raw) <==> Covers(sys.(files := WithRequested(sys.files, Chosen(raw))))
  {
    SavedCovers(sys.files, Chosen(raw), sys.integrations);
    var used := Used(sys.integrations);
    assert used - {DEFAULT_AGENT_ENGINE} - Chosen(raw) == {} <==> used <= {DEFAULT_AGENT_ENGINE} + Chosen(raw);
  }

  lemma StepKeeps(sys: System, step: Step)
    requires Covers(sys) && CreationRecorded(step)
    ensures Covers(Next(sys, step))
  {
    hide Record, CanCreate, Covers, Recorded, Seeded, WithRequested, Accepted, HasId;
    match step
    case Boot(seeded, recording) => BootKeeps(sys, seeded, recording);
    case Launch(installed, forced) => LaunchKeeps(sys, installed, forced);
    case Create(i, recording) => {
      if CanCreate(sys, i) {
        CreationExactly(sys, i, recording);
      }
    }
    case Delete(id, recording) => DeletionKeeps(sys, id, recording);
    case Save(raw) => SaveKeeps(sys, raw);
  }

  lemma LaunchKeeps(sys: System, installed: Option<string>, forced: Option<string>)
    requires Covers(sys)
    ensures Covers(Next(sys, Launch(installed, forced)))
  {
    hide Rendered, Parsed, Used;
  }

  lemma SaveKeeps(sys: System, raw: seq<string>)
    requires Covers(sys)
    ensures Covers(Next(sys, Save(raw)))
  {
    if Accepted(sys.integrations, raw) {
      GuardExactly(sys, raw);
    }
    hide WithRequested, Covers;
  }

  /**
   * From an instance without a selection, whatever integrations it has: after any run whose creations are recorded, a
   * selection is canonical and holds the default engine and every engine some integration uses.
   */
  lemma {:induction false} SelectionCoversUse(start: System, steps: seq<Step>)
    requires Requested !in start.files
    requires forall i | 0 <= i < |steps| :: CreationRecorded(steps[i])
    ensures Covers(Run(start, steps))
  {
    if steps != [] {
      SelectionCoversUse(start, steps[..|steps| - 1]);
      StepKeeps(Run(start, steps[..|steps| - 1]), steps[|steps| - 1]);
    }
  }

  lemma RecordingIsExact(files: Files, integrations: seq<Integration>, added: string, recording: Recording)
    ensures recording != Nothing ==> UsageExact(System(Record(files, integrations, added, recording), integrations))
  {
    RecordedReads(files, integrations, "");
    RecordedReads(files, integrations, added);
    hide Rendered, Recorded, Used, SortEngines, EngineNamed, RequestedIn;
  }

  lemma StepKeepsUsage(sys: System, step: Step)
    requires UsageExact(sys) && UsageRecorded(step)
    ensures UsageExact(Next(sys, step))
  {
    hide UsageExact, CanCreate, HasId, Recorded, Rendered, Used, SortEngines, InstalledSet, Accepted;
    match step
    case Boot(seeded, recording) => {
      var files := Seeded(sys.files, Used(sys.integrations) + InstalledSet(sys.files));
      RecordingIsExact(files, sys.integrations, "", recording);
      if recording == Nothing {
        SameUsage(sys, files);
      }
    }
    case Create(i, recording) => RecordingIsExact(sys.files, sys.integrations + [i], i.provider, recording);
    case Delete(id, recording) => RecordingIsExact(sys.files, Filter(Without(id), sys.integrations), "", recording);
    case Launch(installed, forced) => SameUsage(sys, Next(sys, step).files);
    case Save(raw) => SameUsage(sys, Next(sys, step).files);
  }

  lemma SameUsage(sys: System, files: Files)
    requires UsageExact(sys) && (InUse in files <==> InUse in sys.files) && (InUse in files ==> files[InUse] == sys.files[InUse])
    ensures UsageExact(sys.(files := files))
  {
  }

  /**
   * After any run whose creations and deletions reach the usage list, the launcher reads from it exactly the engines in
   * use, so it prunes none of them.
   */
  lemma {:induction false} UsageListIsExact(start: System, steps: seq<Step>)
    requires InUse !in start.files
    requires forall i | 0 <= i < |steps| :: UsageRecorded(steps[i])
    ensures UsageExact(Run(start, steps))
    ensures InUse in Run(start, steps).files ==>
              Elements(Parsed(Run(start, steps).files[InUse])) == Used(Run(start, steps).integrations)
  {
    var end := Run(start, steps);
    if steps != [] {
      UsageListIsExact(start, steps[..|steps| - 1]);
      StepKeepsUsage(Run(start, steps[..|steps| - 1]), steps[|steps| - 1]);
    }
    var used := Used(end.integrations);
    HeadersAreOneLine();
    ListRoundTrip(IN_USE_HEADER, SortEngines(used));
    SortedElements(used);
    SortedElements(Elements(SortEngines(used)));
    hide Rendered, Parsed, SortEngines, Next, Used, OneLine, Elements;
  }

  lemma SortedElements(engines: set<Engine>)
    ensures Elements(SortEngines(engines)) == engines
  {
    forall e {
      SortedHas(engines, e);
    }
  }

  /** Without recording, a created integration's engine can be missing from the selection, and no boot adds it. */
  lemma UnrecordedCreationIsNotRepaired(sys: System, i: Integration, seeded: bool)
    requires Covers(sys) && CanCreate(sys, i) && Requested in sys.files
    requires EngineNamed(i.provider).Some? && EngineNamed(i.provider).value !in RequestedIn(sys.files).value
    ensures !Covers(Next(Next(sys, Create(i, Nothing)), Boot(seeded, Everything)))
  {
    CreationExactly(sys, i, Nothing);
    BootKeeps(Next(sys, Create(i, Nothing)), seeded, Everything);
  }
}
