/** Agent engine lists and the files they are kept in (src/agents/agentEngines.ts). */
module AgentEngines {
  import opened Seqs
  import opened Text

  datatype Engine = Copilot | Claude | Aider | Goose | Codex | Gemini | OpenCode | Cursor

  const AGENT_ENGINES := [Copilot, Claude, Aider, Goose, Codex, Gemini, OpenCode, Cursor]
  const DEFAULT_AGENT_ENGINE := Copilot

  function Name(engine: Engine): string {
    match engine
    case Copilot => "copilot"
    case Claude => "claude"
    case Aider => "aider"
    case Goose => "goose"
    case Codex => "codex"
    case Gemini => "gemini"
    case OpenCode => "opencode"
    case Cursor => "cursor"
  }

  /** The engine a text names, if any. */
  function EngineNamed(value: string): (r: Option<Engine>)
    ensures r.Some? ==> Name(r.value) == value
  {
    if value == "copilot" then Some(Copilot)
    else if value == "claude" then Some(Claude)
    else if value == "aider" then Some(Aider)
    else if value == "goose" then Some(Goose)
    else if value == "codex" then Some(Codex)
    else if value == "gemini" then Some(Gemini)
    else if value == "opencode" then Some(OpenCode)
    else if value == "cursor" then Some(Cursor)
    else None
  }

  function IsOneOf(engines: set<Engine>): Engine -> bool {
    (engine: Engine) => engine in engines
  }

  function SortEngines(engines: set<Engine>): seq<Engine> {
    Filter(IsOneOf(engines), AGENT_ENGINES)
  }

  /** Catalog order with the default engine always present. */
  function NormalizeRequestedEngines(engines: set<Engine>): seq<Engine> {
    SortEngines({DEFAULT_AGENT_ENGINE} + engines)
  }

  function Elements(engines: seq<Engine>): set<Engine> {
    set e | e in engines
  }

  // ---------------------------------------------------------------------------
  // Reading a list
  // ---------------------------------------------------------------------------

  /** What `.` in a regular expression does not match. */
  predicate IsLineTerminator(c: char) {
    c == '\n' || c == '\r' || c as int == 0x2028 || c as int == 0x2029
  }

  // A `#` and everything after it, up to the first line terminator, is removed; only the first such comment is.
  datatype Uncommented = Before(kept: string) | Inside(kept: string) | After(kept: string)

  function StripStep(st: Uncommented, c: char): Uncommented {
    match st
    case Before(kept) => if c == '#' then Inside(kept) else Before(kept + [c])
    case Inside(kept) => if IsLineTerminator(c) then After(kept + [c]) else Inside(kept)
    case After(kept) => After(kept + [c])
  }

  function StripFrom(st: Uncommented, s: string): Uncommented {
    if s == "" then st else StripStep(StripFrom(st, s[..|s| - 1]), s[|s| - 1])
  }

  function EngineOnLine(line: string): Option<Engine> {
    EngineNamed(Trim(StripFrom(Before(""), line).kept))
  }

  function EnginesOn(lines: seq<string>): set<Engine> {
    if lines == [] then {}
    else
      var before, engine := EnginesOn(lines[..|lines| - 1]), EngineOnLine(lines[|lines| - 1]);
      if engine.Some? then before + {engine.value} else before
  }

  function Parsed(text: string): seq<Engine> {
    SortEngines(EnginesOn(SplitLines(text)))
  }

  method ParseEngineList(text: string) returns (engines: seq<Engine>)
    ensures engines == Parsed(text)
  {
    var lines := SplitLines(text);
    var found: set<Engine> := {};
    for i := 0 to |lines|
      invariant found == EnginesOn(lines[..i])
    {
      TakeTake(lines, i + 1, i);
      var engine := EngineOnLine(lines[i]);
      if engine.Some? {
        found := found + {engine.value};
      }
    }
    assert lines[..|lines|] == lines;
    engines := SortEngines(found);
  }

  // ---------------------------------------------------------------------------
  // Writing a list
  // ---------------------------------------------------------------------------

  function Names(engines: seq<Engine>): (r: seq<string>)
    ensures |r| == |engines|
  {
    if engines == [] then [] else Names(engines[..|engines| - 1]) + [Name(engines[|engines| - 1])]
  }

  /** The header as a comment, one engine per line, and a final line break. */
  function Rendered(header: string, engines: seq<Engine>): string {
    JoinLines(["# " + header] + Names(engines) + [""])
  }

  // ---------------------------------------------------------------------------
  // Canonical lists
  // ---------------------------------------------------------------------------

  /** Sorting keeps the elements. */
  lemma SortedHas(engines: set<Engine>, e: Engine)
    ensures e in SortEngines(engines) <==> e in engines
  {
    InCatalog(e);
    FilterMember(IsOneOf(engines), AGENT_ENGINES, e);
  }

  lemma InCatalog(e: Engine)
    ensures e in AGENT_ENGINES
  {
    assert AGENT_ENGINES[0] == Copilot && AGENT_ENGINES[1] == Claude && AGENT_ENGINES[2] == Aider && AGENT_ENGINES[3] == Goose;
    assert AGENT_ENGINES[4] == Codex && AGENT_ENGINES[5] == Gemini && AGENT_ENGINES[6] == OpenCode && AGENT_ENGINES[7] == Cursor;
  }

  /** A normalized list is the canonical list of its own elements, and holds the default engine. */
  lemma NormalizedIsCanonical(engines: set<Engine>)
    ensures var list := NormalizeRequestedEngines(engines);
            && Elements(list) == {DEFAULT_AGENT_ENGINE} + engines
            && DEFAULT_AGENT_ENGINE in list
            && NormalizeRequestedEngines(Elements(list)) == list
  {
    hide SortEngines;
    forall e {
      SortedHas({DEFAULT_AGENT_ENGINE} + engines, e);
    }
    var all := {DEFAULT_AGENT_ENGINE} + engines;
    assert Elements(NormalizeRequestedEngines(engines)) == all;
    assert {DEFAULT_AGENT_ENGINE} + all == all;
  }

  // ---------------------------------------------------------------------------
  // Round trip
  // ---------------------------------------------------------------------------

  lemma {:induction false} NothingToStrip(kept: string, s: string)
    requires '#' !in s
    ensures StripFrom(Before(kept), s) == Before(kept + s)
  {
    if s == "" {
      AppendNothing(kept);
    } else {
      var front := s[..|s| - 1];
      InitLast(s);
      NothingToStrip(kept, front);
      AppendAssociative(kept, front, [s[|s| - 1]]);
    }
  }

  lemma NameIsPlain(e: Engine)
    ensures var name := Name(e);
            && '#' !in name && '\n' !in name && name != ""
            && !IsWhitespace(name[0]) && !IsWhitespace(name[|name| - 1])
  {
  }

  lemma NameNames(e: Engine)
    ensures EngineNamed(Name(e)) == Some(e)
  {
  }

  lemma PlainIsTrimmed(s: string)
    requires s != "" && !IsWhitespace(s[0]) && !IsWhitespace(s[|s| - 1])
    ensures Trim(s) == s && DropCr(s) == s
  {
  }

  lemma NameReadsBack(e: Engine)
    ensures EngineOnLine(Name(e)) == Some(e) && IsLine(Name(e))
  {
    NameIsPlain(e);
    NameNames(e);
    hide Name, EngineNamed, IsWhitespace;
    NothingToStrip("", Name(e));
    AppendNothing(Name(e));
    PlainIsTrimmed(Name(e));
  }

  lemma BlankNamesNothing()
    ensures EngineOnLine("") == None
  {
    assert Trim("") == "";
  }

  predicate OneLine(text: string) {
    forall c | c in text :: !IsLineTerminator(c)
  }

  lemma {:induction false} CommentGoes(kept: string, comment: string)
    requires OneLine(comment)
    ensures StripFrom(Inside(kept), comment) == Inside(kept)
  {
    if comment != "" {
      CommentGoes(kept, comment[..|comment| - 1]);
    }
  }

  lemma {:induction false} StripAppend(st: Uncommented, a: string, b: string)
    ensures StripFrom(st, a + b) == StripFrom(StripFrom(st, a), b)
    decreases |b|
  {
    if b == "" {
      AppendNothing(a);
    } else {
      var front, c := b[..|b| - 1], b[|b| - 1];
      StripAppend(st, a, front);
      AppendFromLast(a, b);
    }
  }

  lemma StripOne(st: Uncommented, c: char)
    ensures StripFrom(st, [c]) == StripStep(st, c)
  {
    InitOfPush("", c);
  }

  lemma {:induction false} AfterKeeps(kept: string, s: string)
    ensures StripFrom(After(kept), s) == After(kept + s)
  {
    if s == "" {
      AppendNothing(kept);
    } else {
      var front := s[..|s| - 1];
      InitLast(s);
      AfterKeeps(kept, front);
      AppendAssociative(kept, front, [s[|s| - 1]]);
    }
  }

  /** A comment names no engine as long as no line terminator the splitter leaves in place follows on its line. */
  lemma CommentNamesNothing(comment: string)
    requires OneLine(comment)
    ensures EngineOnLine("#" + comment) == None
  {
    StripAppend(Before(""), "#", comment);
    StripOne(Before(""), '#');
    CommentGoes("", comment);
    BlankNamesNothing();
  }

  /** What follows such a terminator, a lone carriage return for one, is read as if the comment were not there. */
  lemma CommentEndsAtTerminator(comment: string, t: char, rest: string)
    requires OneLine(comment) && IsLineTerminator(t)
    ensures EngineOnLine("#" + comment + [t] + rest) == EngineNamed(Trim([t] + rest))
  {
    hide EngineNamed, Trim, IsWhitespace;
    var st := Before("");
    StripAppend(st, "#" + comment + [t], rest);
    StripAppend(st, "#" + comment, [t]);
    StripAppend(st, "#", comment);
    StripOne(st, '#');
    CommentGoes("", comment);
    StripOne(Inside(""), t);
    AppendNothing([t]);
    AfterKeeps([t], rest);
    hide EngineNamed, StripFrom, IsLineTerminator;
  }

  lemma {:induction false} NamesReadBack(engines: seq<Engine>)
    ensures EnginesOn(Names(engines)) == Elements(engines)
    ensures forall i | 0 <= i < |engines| :: IsLine(Names(engines)[i])
  {
    if engines != [] {
      var front, last := engines[..|engines| - 1], engines[|engines| - 1];
      InitLast(engines);
      NamesReadBack(front);
      NameReadsBack(last);
      InitOfPush(Names(front), Name(last));
      assert Elements(engines) == Elements(front) + {last};
      hide Name, EngineOnLine, IsLine;
    }
  }

  lemma {:induction false} EnginesOnAppend(a: seq<string>, b: seq<string>)
    ensures EnginesOn(a + b) == EnginesOn(a) + EnginesOn(b)
    decreases |b|
  {
    if b == [] {
      AppendNothing(a);
    } else {
      var front, last := b[..|b| - 1], b[|b| - 1];
      EnginesOnAppend(a, front);
      AppendFromLast(a, b);
    }
  }

  lemma OneLineOnly(line: string)
    ensures EnginesOn([line]) == if EngineOnLine(line).Some? then {EngineOnLine(line).value} else {}
  {
    InitOfPush([], line);
  }

  lemma HeaderIsComment(header: string)
    requires OneLine(header)
    ensures EngineOnLine("# " + header) == None && IsLine("# " + header)
  {
    var head := "# " + header;
    assert head == "#" + (" " + header);
    CommentNamesNothing(" " + header);
    hide EngineOnLine, StripFrom;
    assert forall c | c in head :: c == '#' || c == ' ' || c in header;
    assert head[|head| - 1] in head;
  }

  /** Reading a written list gives its elements in catalog order. */
  lemma ListRoundTrip(header: string, engines: seq<Engine>)
    requires OneLine(header)
    ensures Parsed(Rendered(header, engines)) == SortEngines(Elements(engines))
  {
    var head, names := "# " + header, Names(engines);
    HeaderIsComment(header);
    NamesReadBack(engines);
    BlankNamesNothing();
    assert IsLine("");
    hide EngineOnLine, IsLine, Names, EnginesOn, JoinLines, SplitLines, SortEngines;
    var lines := [head] + names + [""];
    forall i | 0 <= i < |lines| ensures IsLine(lines[i]) {
      assert 0 < i <= |names| ==> lines[i] == names[i - 1];
    }
    SplitJoin(lines);
    EnginesOnAppend([head] + names, [""]);
    EnginesOnAppend([head], names);
    OneLineOnly(head);
    OneLineOnly("");
  }

  /** A saved selection reads back as it was normalized. */
  lemma SelectionRoundTrip(header: string, engines: set<Engine>)
    requires OneLine(header)
    ensures NormalizeRequestedEngines(Elements(Parsed(Rendered(header, NormalizeRequestedEngines(engines)))))
         == NormalizeRequestedEngines(engines)
  {
    hide SortEngines, Parsed;
    var list := NormalizeRequestedEngines(engines);
    ListRoundTrip(header, list);
    NormalizedIsCanonical(engines);
    forall e {
      SortedHas(Elements(list), e);
    }
    assert Elements(SortEngines(Elements(list))) == Elements(list);
  }
}
