/**
 * What each engine operation does, in terms of engine names, integrations and lists
 * (src/agents/agentEngines.ts, src/admin/adminAgentEngineRoutes.ts, src/admin/adminIntegrationRoutes.ts).
 */
module AgentEngineEffects {
  import opened Seqs
  import opened Text
  import opened AgentEngines
  import opened AgentEngineSelection

  // ---------------------------------------------------------------------------
  // Names and lists
  // ---------------------------------------------------------------------------

  lemma NamesExactly(value: string, e: Engine)
    ensures EngineNamed(value) == Some(e) <==> value == Name(e)
  {
    NameNames(e);
    hide Name;
  }

  /** A line names an engine once a comment is off it: everything from the first `#` up to a line terminator. */
  lemma CommentIsCut(before: string, comment: string, rest: string)
    requires '#' !in before && OneLine(comment) && (rest == "" || IsLineTerminator(rest[0]))
    ensures EngineOnLine(before) == EngineNamed(Trim(before))
    ensures EngineOnLine(before + "#" + comment + rest) == EngineNamed(Trim(before + rest))
  {
    hide EngineNamed, Trim, IsWhitespace;
    var st := Before("");
    NothingToStrip("", before);
    AppendNothing(before);
    StripAppend(st, before + "#" + comment, rest);
    StripAppend(st, before + "#", comment);
    StripAppend(st, before, "#");
    StripOne(Before(before), '#');
    CommentGoes(before, comment);
    if rest == "" {
      AppendNothing(before);
    } else {
      assert rest == [rest[0]] + rest[1..];
      StripAppend(Inside(before), [rest[0]], rest[1..]);
      StripOne(Inside(before), rest[0]);
      AfterKeeps(before + [rest[0]], rest[1..]);
      AppendAssociative(before, [rest[0]], rest[1..]);
    }
    hide StripFrom;
  }

  lemma TerminatorIs(c: char)
    ensures IsLineTerminator(c) <==> c in {'\n', '\r', 0x2028 as char, 0x2029 as char}
  {
  }

  /** An engine is on a list exactly when some line of the text names it; the list is in catalog order, without repeats. */
  lemma ParsedExactly(text: string, e: Engine)
    ensures e in Parsed(text) <==> exists line :: line in SplitLines(text) && EngineOnLine(line) == Some(e)
    ensures Parsed(text) == Filter(IsOneOf(Elements(Parsed(text))), [Copilot, Claude, Aider, Goose, Codex, Gemini, OpenCode, Cursor])
  {
    var found := EnginesOn(SplitLines(text));
    EnginesOnMember(SplitLines(text), e);
    SortedHas(found, e);
    forall x {
      SortedHas(found, x);
    }
    assert Elements(SortEngines(found)) == found;
    hide SplitLines, EngineOnLine, EnginesOn;
  }

  lemma {:induction false} EnginesOnMember(lines: seq<string>, e: Engine)
    ensures e in EnginesOn(lines) <==> exists line :: line in lines && EngineOnLine(line) == Some(e)
  {
    if lines != [] {
      InitLast(lines);
      EnginesOnMember(lines[..|lines| - 1], e);
      hide EngineOnLine;
    }
  }

  /** The written file: the header as a comment, each engine's name, and a final break. */
  lemma WrittenText(engines: set<Engine>)
    ensures WithRequested(map[], engines)[Requested]
         == JoinLines(["# " + (("Agent engines " + "requested in the admin UI; ") + ("scripts/start.sh " + "builds these images."))]
                      + Names(NormalizeRequestedEngines(engines)) + [""])
  {
  }

  /** The list of engines in use, likewise. */
  lemma UsageText(integrations: seq<Integration>)
    ensures Recorded(map[], integrations, "")[InUse]
         == JoinLines(["# " + (("Agent engines " + "used by integrations; ") + ("scripts/start.sh " + "never prunes these images."))]
                      + Names(SortEngines(Used(integrations))) + [""])
  {
    EmptyNamesNothing();
    hide EngineNamed, JoinLines, Names, SortEngines, Used;
  }

  // ---------------------------------------------------------------------------
  // Engines in use
  // ---------------------------------------------------------------------------

  lemma {:induction false} UsedExactly(integrations: seq<Integration>, e: Engine)
    ensures e in Used(integrations) <==> exists i :: i in integrations && i.provider == Name(e)
  {
    if integrations != [] {
      var front, last := integrations[..|integrations| - 1], integrations[|integrations| - 1];
      InitLast(integrations);
      UsedExactly(front, e);
      NamesExactly(last.provider, e);
      hide EngineNamed, Name;
    }
  }

  function OnEngine(e: Engine): Integration -> bool {
    (i: Integration) => i.provider == Name(e)
  }

  function VisibleOn(e: Engine, visibleIds: set<string>): Integration -> bool {
    (i: Integration) => i.provider == Name(e) && i.id in visibleIds
  }

  /** An engine's usage: the names of its visible integrations in order, and how many of its integrations are hidden. */
  lemma {:induction false} UsageExactly(all: seq<Integration>, visibleIds: set<string>, e: Engine)
    ensures var usage, shown := UsageOf(all, visibleIds, e), Filter(VisibleOn(e, visibleIds), all);
            && |usage.visible| == |shown| && (forall k | 0 <= k < |shown| :: usage.visible[k] == shown[k].name)
            && |usage.visible| + usage.hidden == |Filter(OnEngine(e), all)|
  {
    if all != [] {
      UsageExactly(all[..|all| - 1], visibleIds, e);
      NamesExactly(all[|all| - 1].provider, e);
      hide EngineNamed, Name;
    }
  }

  /** An integration is reported missing exactly when it is enabled and its engine, not the default one, is known not to be installed. */
  lemma MissingExactly(files: Files, integrations: seq<Integration>, i: Integration)
    ensures i in Filter(IsMissing(InstalledIn(files)), integrations)
       <==> && i in integrations && i.enabled && Installed in files
            && exists e :: e != Copilot && i.provider == Name(e) && e !in Parsed(files[Installed])
  {
    FilterMember(IsMissing(InstalledIn(files)), integrations, i);
    forall e {
      NamesExactly(i.provider, e);
    }
    hide Parsed, EngineNamed, Name, Filter;
  }

  // ---------------------------------------------------------------------------
  // Selections
  // ---------------------------------------------------------------------------

  lemma {:induction false} ChosenExactly(raw: seq<string>, e: Engine)
    ensures e in Chosen(raw) <==> Name(e) in raw
  {
    if raw != [] {
      InitLast(raw);
      ChosenExactly(raw[..|raw| - 1], e);
      NamesExactly(raw[|raw| - 1], e);
      hide EngineNamed, Name;
    }
  }

  /** What a saved set reads back as: the default engine and the set, and nothing else. */
  lemma SavedHolds(files: Files, engines: set<Engine>, e: Engine)
    ensures Requested in WithRequested(files, engines)
    ensures e in RequestedIn(WithRequested(files, engines)).value <==> e == Copilot || e in engines
    ensures forall name | name != Requested :: name in WithRequested(files, engines) <==> name in files
    ensures forall name | name != Requested && name in files :: WithRequested(files, engines)[name] == files[name]
  {
    RequestedReadsBack(files, engines);
    var list := RequestedIn(WithRequested(files, engines)).value;
    assert e in list <==> e in Elements(list);
    hide NormalizeRequestedEngines, Parsed, Rendered, RequestedIn;
  }

  /** What a save is compared with: the selection saved before, or the default engine alone. */
  lemma PreviousHolds(files: Files, engines: set<Engine>, e: Engine)
    ensures e in Previous(WithRequested(files, engines)) <==> e == Copilot || e in engines
    ensures Requested !in files ==> Previous(files) == [Copilot]
  {
    SavedHolds(files, engines, e);
    hide WithRequested;
  }

  /** A save is refused for a value that names no engine, and while an engine other than the default is in use and left out. */
  lemma AcceptedExactly(integrations: seq<Integration>, raw: seq<string>)
    ensures Accepted(integrations, raw)
       <==> && (forall value | value in raw :: exists e :: value == Name(e))
            && (forall i, e | i in integrations && i.provider == Name(e) :: e == Copilot || Name(e) in raw)
  {
    AllKnown(raw);
    NothingDropped(integrations, raw);
    hide Filter, Dropped, Chosen;
  }

  lemma AllKnown(raw: seq<string>)
    ensures Filter(IsUnknown(), raw) == [] <==> forall value | value in raw :: exists e :: value == Name(e)
  {
    var unknown := Filter(IsUnknown(), raw);
    forall value: string
      ensures value in unknown <==> value in raw && !exists e :: value == Name(e)
    {
      FilterMember(IsUnknown(), raw, value);
      KnownExactly(value);
    }
    assert unknown != [] ==> unknown[0] in unknown;
    hide EngineNamed, Name, Filter;
  }

  lemma KnownExactly(value: string)
    ensures EngineNamed(value).Some? <==> exists e :: value == Name(e)
  {
    if EngineNamed(value).Some? {
      NamesExactly(value, EngineNamed(value).value);
    }
    if e :| value == Name(e) {
      NamesExactly(value, e);
    }
    hide EngineNamed, Name;
  }

  lemma NothingDropped(integrations: seq<Integration>, raw: seq<string>)
    ensures Dropped(integrations, Chosen(raw)) == {}
       <==> forall i, e | i in integrations && i.provider == Name(e) :: e == Copilot || Name(e) in raw
  {
    forall e: Engine
      ensures e in Used(integrations) <==> exists i :: i in integrations && i.provider == Name(e)
      ensures e in Chosen(raw) <==> Name(e) in raw
    {
      UsedExactly(integrations, e);
      ChosenExactly(raw, e);
    }
    var dropped := Dropped(integrations, Chosen(raw));
    hide Used, Chosen, Name;
    if dropped == {} {
      forall i, e | i in integrations && i.provider == Name(e) ensures e == Copilot || Name(e) in raw {
        assert e in Used(integrations) && e !in dropped;
      }
    } else {
      var e :| e in dropped;
      assert e in Used(integrations);
    }
  }

  /** What a boot, a creation, a deletion, a save and a launcher run do. */
  lemma StepsDo(sys: System, step: Step)
    ensures var after := Next(sys, step);
            match step
            case Boot(seeded, recording) =>
              && after.integrations == sys.integrations
              && (!seeded ==> after == sys)
              && (seeded && Requested !in sys.files ==>
                    forall e :: e in RequestedIn(after.files).value
                      <==> || e == Copilot || (exists i :: i in sys.integrations && i.provider == Name(e))
                           || (Installed in sys.files && e in Parsed(sys.files[Installed])))
            case Launch(installed, forced) =>
              && after.integrations == sys.integrations
              && (Installed in after.files <==> installed.Some?) && (installed.Some? ==> after.files[Installed] == installed.value)
              && (Forced in after.files <==> forced.Some?) && (forced.Some? ==> after.files[Forced] == forced.value)
              && (Requested in after.files <==> Requested in sys.files)
              && (Requested in sys.files ==> after.files[Requested] == sys.files[Requested])
              && (InUse in after.files <==> InUse in sys.files)
              && (InUse in sys.files ==> after.files[InUse] == sys.files[InUse])
            case Create(i, recording) =>
              var refused :=
                || (exists k :: k in sys.integrations && k.id == i.id)
                || (Installed in sys.files && exists e :: e != Copilot && i.provider == Name(e) && e !in Parsed(sys.files[Installed]));
              after.integrations == (if refused then sys.integrations else sys.integrations + [i]) && (refused ==> after == sys)
            case Delete(id, recording) =>
              && (forall k :: k in after.integrations <==> k in sys.integrations && k.id != id)
              && ((forall k | k in sys.integrations :: k.id != id) ==> after == sys)
            case Save(raw) =>
              && after.integrations == sys.integrations
              && after.files == if Accepted(sys.integrations, raw) then WithRequested(sys.files, Chosen(raw)) else sys.files
  {
    match step
    case Boot(seeded, recording) => BootDoes(sys, seeded, recording);
    case Launch(installed, forced) => {
      hide Parsed;
    }
    case Create(i, recording) => {
      forall e {
        NamesExactly(i.provider, e);
      }
      hide Parsed, EngineNamed, Name, Record;
    }
    case Delete(id, recording) => {
      forall k {
        FilterMember(Without(id), sys.integrations, k);
      }
      hide Record, Filter;
    }
    case Save(raw) => {
      hide Accepted, WithRequested;
    }
  }

  lemma BootDoes(sys: System, seeded: bool, recording: Recording)
    ensures var after := Next(sys, Boot(seeded, recording));
            && after.integrations == sys.integrations
            && (!seeded ==> after == sys)
            && (seeded && Requested !in sys.files ==>
                  forall e :: e in RequestedIn(after.files).value
                    <==> || e == Copilot || (exists i :: i in sys.integrations && i.provider == Name(e))
                         || (Installed in sys.files && e in Parsed(sys.files[Installed])))
  {
    if seeded && Requested !in sys.files {
      var engines := Used(sys.integrations) + InstalledSet(sys.files);
      var files := Seeded(sys.files, engines);
      EmptyNamesNothing();
      RecordedKeepsSelection(files, sys.integrations, "");
      var after := Next(sys, Boot(seeded, recording));
      assert Requested in files && Requested in after.files && after.files[Requested] == files[Requested] by {
        hide RequestedIn, Recorded, Used, InstalledSet;
      }
      assert RequestedIn(after.files) == RequestedIn(files);
      assert files == WithRequested(sys.files, engines);
      forall e: Engine
        ensures e in RequestedIn(after.files).value
          <==> || e == Copilot || (exists i :: i in sys.integrations && i.provider == Name(e))
               || (Installed in sys.files && e in Parsed(sys.files[Installed]))
      {
        UsedExactly(sys.integrations, e);
        SavedHolds(sys.files, engines, e);
        hide RequestedIn, Recorded, Used, Parsed, Name, WithRequested, Next, Seeded;
      }
    }
    hide RequestedIn, Record, Used, Seeded;
  }
}
