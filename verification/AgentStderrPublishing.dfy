/** What each stderr line becomes, and what of it viewers and the task buffer get (src/agents/agentStderrPipeline.ts). */
module AgentStderrPublishing {
  import opened Seqs
  import opened Text
  import opened AgentEventBus
  import opened AgentStderrPipeline

  // ---------------------------------------------------------------------------
  // Line by line, whatever throws
  // ---------------------------------------------------------------------------

  /**
   * What a non-empty line gives viewers: the event it parses to, unless `onEvent`
   * throws on it; and its plain event when it does not parse or a handler threw.
   */
  function Shown(env: Env, line: string): seq<Event> {
    var parsed, plain := env.parse(line), env.plainEvent(line);
    if parsed.None? || env.onEventThrows(parsed.value) then [plain]
    else if env.listenerThrows(parsed.value) then [parsed.value, plain]
    else [parsed.value]
  }

  function Kept(env: Env, line: string): seq<Event> {
    if env.parse(line).Some? then [env.parse(line).value] else []
  }

  function Logged(env: Env, line: string): seq<string> {
    var parsed := env.parse(line);
    if parsed.None? || env.onEventThrows(parsed.value) || env.listenerThrows(parsed.value) then [line] else []
  }

  lemma LineShown(env: Env, st: State, line: string)
    requires line != ""
    ensures LineProcessed(env, st, line)
         == State(st.buffer, st.plain + Logged(env, line), st.events + Kept(env, line), st.published + Shown(env, line))
    ensures LinePublished(env, line) == Shown(env, line)
  {
  }

  /** An exception leaves the pipeline exactly when a listener throws on the plain event of a line. */
  lemma AbortsExactly(env: Env, line: string)
    ensures Aborts(env, line) <==> line != "" && Logged(env, line) == [line] && env.listenerThrows(env.plainEvent(line))
  {
  }

  /** Of the lines a chunk completes those are processed that no such line precedes. */
  lemma {:induction false} ReachedExactly(env: Env, lines: seq<string>) returns (k: nat)
    ensures k <= |lines| && Reached(env, lines) == lines[..k]
    ensures forall i | 0 <= i < k - 1 :: !Aborts(env, lines[i])
    ensures k < |lines| ==> k > 0 && Aborts(env, lines[k - 1])
    ensures Stopped(env, lines) <==> k > 0 && Aborts(env, lines[k - 1])
  {
    hide Aborts;
    if lines == [] {
      k := 0;
    } else {
      var front, last := lines[..|lines| - 1], lines[|lines| - 1];
      k := ReachedExactly(env, front);
      TakeTake(lines, |lines| - 1, k);
      if !Stopped(env, front) {
        WholeFront(front, k);
        InitLast(lines);
        assert k == |front| && Reached(env, lines) == front + [last];
        k := |lines|;
        assert lines[..k] == lines;
      }
    }
  }

  lemma WholeFront(front: seq<string>, k: nat)
    requires k == |front|
    ensures front[..k] == front
  {
  }

  function ShownAll(env: Env, lines: seq<string>): seq<Event> {
    if lines == [] then [] else ShownAll(env, lines[..|lines| - 1]) + Shown(env, lines[|lines| - 1])
  }

  function KeptAll(env: Env, lines: seq<string>): seq<Event> {
    if lines == [] then [] else KeptAll(env, lines[..|lines| - 1]) + Kept(env, lines[|lines| - 1])
  }

  function LoggedAll(env: Env, lines: seq<string>): seq<string> {
    if lines == [] then [] else LoggedAll(env, lines[..|lines| - 1]) + Logged(env, lines[|lines| - 1])
  }

  predicate NoneEmpty(lines: seq<string>) {
    lines == [] || (NoneEmpty(lines[..|lines| - 1]) && lines[|lines| - 1] != "")
  }

  lemma {:induction false} LinesShown(env: Env, st: State, lines: seq<string>)
    requires NoneEmpty(lines)
    ensures LinesProcessed(env, st, lines)
         == State(st.buffer, st.plain + LoggedAll(env, lines), st.events + KeptAll(env, lines), st.published + ShownAll(env, lines))
    decreases |lines|
  {
    if lines == [] {
      AppendNothing(st.plain);
      AppendNothing(st.events);
      AppendNothing(st.published);
    } else {
      var front, line := lines[..|lines| - 1], lines[|lines| - 1];
      LinesShown(env, st, front);
      hide Shown, Kept, Logged, LineProcessed;
      LineShown(env, LinesProcessed(env, st, front), line);
      AppendAssociative(st.plain, LoggedAll(env, front), Logged(env, line));
      AppendAssociative(st.events, KeptAll(env, front), Kept(env, line));
      AppendAssociative(st.published, ShownAll(env, front), Shown(env, line));
    }
  }

  lemma {:induction false} FilteredNoneEmpty(lines: seq<string>)
    ensures NoneEmpty(Filter(IsNonEmpty(), lines))
  {
    if lines != [] {
      FilteredNoneEmpty(lines[..|lines| - 1]);
      InitOfPush(Filter(IsNonEmpty(), lines[..|lines| - 1]), lines[|lines| - 1]);
    }
  }

  /** A whole run, whatever its chunks and whatever throws: what the lines it handles become, one after the other. */
  lemma RunShowsLines(env: Env, chunks: seq<string>)
    ensures var after, handled := Flushed(env, ConsumedAll(env, EMPTY, chunks)), HandledLines(env, chunks);
            && after.plain == LoggedAll(env, handled) && after.events == KeptAll(env, handled)
            && after.published == ShownAll(env, handled)
  {
    var reached, rest := ReachedIn(env, chunks), Split(Flatten(chunks)).rest;
    ConsumedInRun(env, chunks);
    LinesLeaveBuffer(env, EMPTY, reached, rest);
    InitOfPush(reached, rest);
    EmptyLinesIgnored(env, EMPTY, reached + [rest]);
    FilteredNoneEmpty(reached + [rest]);
    LinesShown(env, EMPTY, HandledLines(env, chunks));
    AfterFlush(env, LinesProcessed(env, EMPTY, reached), rest);
    Unprefixed(LoggedAll(env, HandledLines(env, chunks)));
    Unprefixed(KeptAll(env, HandledLines(env, chunks)));
    Unprefixed(ShownAll(env, HandledLines(env, chunks)));
    hide Split, LinesProcessed, ReachedIn, Filter, Aborts, Shown, Kept, Logged;
  }

  lemma Unprefixed<T>(s: seq<T>)
    ensures [] + s == s
  {
  }

  lemma {:induction false} ShownMember(env: Env, lines: seq<string>, x: Event)
    ensures x in ShownAll(env, lines) <==> exists line :: line in lines && x in Shown(env, line)
  {
    if lines != [] {
      var front, last := lines[..|lines| - 1], lines[|lines| - 1];
      ShownMember(env, front, x);
      InitLast(lines);
      hide Shown;
    }
  }

  /**
   * Over a whole run an event is published exactly when some handled line parses
   * to it and `onEvent` does not throw on it, or it is the plain event of a
   * handled line that does not parse or one of whose handlers throws.
   */
  lemma PublishedExactly(env: Env, chunks: seq<string>, x: Event)
    ensures x in Flushed(env, ConsumedAll(env, EMPTY, chunks)).published
       <==> exists line :: line in HandledLines(env, chunks) &&
              match env.parse(line)
              case None => x == env.plainEvent(line)
              case Some(e) =>
                || (x == e && !env.onEventThrows(e))
                || (x == env.plainEvent(line) && (env.onEventThrows(e) || env.listenerThrows(e)))
  {
    RunShowsLines(env, chunks);
    ShownMember(env, HandledLines(env, chunks), x);
    hide HandledLines, ShownAll, KeptAll, LoggedAll, Flushed, ConsumedAll;
  }

  // ---------------------------------------------------------------------------
  // When nothing throws
  // ---------------------------------------------------------------------------

  ghost predicate NeverThrows(env: Env) {
    forall e :: !env.onEventThrows(e) && !env.listenerThrows(e)
  }

  function Parses(env: Env): string -> bool {
    (line: string) => env.parse(line).Some?
  }

  function Unparsed(env: Env): string -> bool {
    (line: string) => env.parse(line).None?
  }

  lemma ShownAlone(env: Env, line: string)
    requires NeverThrows(env)
    ensures Shown(env, line) == [if env.parse(line).Some? then env.parse(line).value else env.plainEvent(line)]
    ensures Logged(env, line) == (if env.parse(line).None? then [line] else [])
  {
  }

  lemma {:induction false} OneEach(env: Env, lines: seq<string>)
    requires NeverThrows(env)
    ensures |ShownAll(env, lines)| == |lines|
    ensures forall k | 0 <= k < |lines| ::
              ShownAll(env, lines)[k] == if env.parse(lines[k]).Some? then env.parse(lines[k]).value else env.plainEvent(lines[k])
  {
    if lines != [] {
      OneEach(env, lines[..|lines| - 1]);
      ShownAlone(env, lines[|lines| - 1]);
      hide Shown, NeverThrows;
    }
  }

  lemma {:induction false} UnparsedLogged(env: Env, lines: seq<string>)
    requires NeverThrows(env)
    ensures LoggedAll(env, lines) == Filter(Unparsed(env), lines)
  {
    if lines != [] {
      UnparsedLogged(env, lines[..|lines| - 1]);
      ShownAlone(env, lines[|lines| - 1]);
      AppendNothing(LoggedAll(env, lines[..|lines| - 1]));
      hide Logged, NeverThrows;
    }
  }

  lemma {:induction false} ParsedKept(env: Env, lines: seq<string>)
    ensures |KeptAll(env, lines)| == |Filter(Parses(env), lines)|
    ensures forall k | 0 <= k < |KeptAll(env, lines)| :: Some(KeptAll(env, lines)[k]) == env.parse(Filter(Parses(env), lines)[k])
  {
    if lines != [] {
      ParsedKept(env, lines[..|lines| - 1]);
      AppendNothing(KeptAll(env, lines[..|lines| - 1]));
    }
  }

  lemma {:induction false} NothingStops(env: Env, lines: seq<string>)
    requires NeverThrows(env)
    ensures !Stopped(env, lines) && NothingDropped(env, lines)
  {
    if lines != [] {
      NothingStops(env, lines[..|lines| - 1]);
    }
  }

  lemma {:induction false} AllAreHandled(env: Env, chunks: seq<string>)
    requires NeverThrows(env)
    ensures AllHandled(env, "", chunks)
  {
    if chunks != [] {
      AllAreHandled(env, chunks[..|chunks| - 1]);
      NothingStops(env, Completes("", chunks));
    }
  }

  /**
   * When nothing throws, every non-empty line of the text is published once, in
   * order, as the event it parses to or else as its plain event; the events are
   * those of the lines that parse and the log holds the others.
   */
  lemma EveryLineIsPublished(env: Env, chunks: seq<string>)
    requires NeverThrows(env)
    ensures var after, lines := Flushed(env, ConsumedAll(env, EMPTY, chunks)), LinesOf(Flatten(chunks));
            && |after.published| == |lines|
            && (forall k | 0 <= k < |lines| ::
                  after.published[k] == if env.parse(lines[k]).Some? then env.parse(lines[k]).value else env.plainEvent(lines[k]))
            && after.plain == Filter(Unparsed(env), lines)
            && |after.events| == |Filter(Parses(env), lines)|
            && forall k | 0 <= k < |after.events| :: Some(after.events[k]) == env.parse(Filter(Parses(env), lines)[k])
  {
    var lines := LinesOf(Flatten(chunks));
    AllAreHandled(env, chunks);
    EveryLineHandledExactly(env, chunks);
    RunShowsLines(env, chunks);
    OneEach(env, lines);
    UnparsedLogged(env, lines);
    ParsedKept(env, lines);
    hide LinesOf, HandledLines, ShownAll, KeptAll, LoggedAll, Flushed, ConsumedAll, Filter;
  }

  // ---------------------------------------------------------------------------
  // The task buffers
  // ---------------------------------------------------------------------------

  /** What the bus holds after these chunks, chunk by chunk as the pipeline leaves it. */
  function BusAfter(env: Env, buffers: Buffers, chunks: seq<string>): Buffers {
    if chunks == [] then buffers
    else
      var front, chunk := chunks[..|chunks| - 1], chunks[|chunks| - 1];
      var complete := Split(ConsumedAll(env, EMPTY, front).buffer + chunk).complete;
      PushedAll(BusAfter(env, buffers, front), LinesPublished(env, Reached(env, complete)))
  }

  lemma {:induction false} PublishedGrows(env: Env, st: State, lines: seq<string>)
    ensures LinesProcessed(env, st, lines).published == st.published + LinesPublished(env, lines)
    decreases |lines|
  {
    if lines == [] {
      AppendNothing(st.published);
    } else {
      var front, line := lines[..|lines| - 1], lines[|lines| - 1];
      PublishedGrows(env, st, front);
      AppendAssociative(st.published, LinesPublished(env, front), LinePublished(env, line));
      AppendNothing(st.published + LinesPublished(env, front));
      hide PublishedOf;
    }
  }

  lemma {:induction false} BusFollows(env: Env, buffers: Buffers, chunks: seq<string>)
    ensures BusAfter(env, buffers, chunks) == PushedAll(buffers, ConsumedAll(env, EMPTY, chunks).published)
  {
    if chunks != [] {
      var front, chunk := chunks[..|chunks| - 1], chunks[|chunks| - 1];
      BusFollows(env, buffers, front);
      var before := ConsumedAll(env, EMPTY, front);
      var lines := Split(before.buffer + chunk);
      PublishedGrows(env, before.(buffer := lines.rest), Reached(env, lines.complete));
      PushedAllAppend(buffers, before.published, LinesPublished(env, Reached(env, lines.complete)));
      hide Split, Reached, LinesProcessed, LinesPublished, PushedAll;
    }
  }

  /** After a run and its flush each task's buffer is the newest 500 of what it held followed by what the run published for it. */
  lemma BufferHoldsPublished(env: Env, buffers: Buffers, chunks: seq<string>, taskId: string)
    requires Bounded(buffers)
    ensures var read := ConsumedAll(env, EMPTY, chunks);
            var bus := PushedAll(BusAfter(env, buffers, chunks), LinePublished(env, read.buffer));
            BufferOf(bus, taskId) == LastN(BufferOf(buffers, taskId) + OfTask(taskId, Flushed(env, read).published), 500)
  {
    var read := ConsumedAll(env, EMPTY, chunks);
    BusFollows(env, buffers, chunks);
    FlushPublishes(env, read);
    PushedAllAppend(buffers, read.published, LinePublished(env, read.buffer));
    BufferHoldsNewest(buffers, Flushed(env, read).published, taskId);
    hide BusAfter, ConsumedAll, Flushed, PushedAll, LinePublished;
  }

  lemma FlushPublishes(env: Env, read: State)
    ensures Flushed(env, read).published == read.published + LinePublished(env, read.buffer)
  {
    AppendNothing(read.published);
  }
}
