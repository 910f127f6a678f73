/** The stderr line-buffering pipeline (src/agents/agentStderrPipeline.ts). */
module AgentStderrPipeline {
  import opened Seqs
  import opened Text
  import opened AgentEventBus

  /**
   * What the pipeline cannot decide itself: whether a line parses to a
   * `__ve_event` record, the `stderr.line` event made for a plain line, and
   * whether `onEvent` or a bus listener throws while handling an event, be it
   * a structured one or the one made for a plain line.
   */
  datatype Env = Env(
    parse: string -> Option<Event>,
    plainEvent: string -> Event,
    onEventThrows: Event -> bool,
    listenerThrows: Event -> bool)

  /** `published` is everything pushed to the task buffer and emitted so far. */
  datatype State = State(buffer: string, plain: seq<string>, events: seq<Event>, published: seq<Event>)

  const EMPTY := State("", [], [], [])

  predicate Structured(env: Env, line: string) {
    env.parse(line).Some?
  }

  /** A structured line whose handlers throw is caught by the same `try` and handled as plain output too. */
  predicate Doubled(env: Env, line: string) {
    match env.parse(line)
    case None => false
    case Some(e) => env.onEventThrows(e) || env.listenerThrows(e)
  }

  function EventsOf(env: Env, line: string): seq<Event> {
    match env.parse(line)
    case None => []
    case Some(e) => [e]
  }

  function PlainOf(env: Env, line: string): seq<string> {
    if Structured(env, line) && !Doubled(env, line) then [] else [line]
  }

  function PublishedOf(env: Env, line: string): seq<Event> {
    match env.parse(line)
    case None => [env.plainEvent(line)]
    case Some(e) =>
      (if env.onEventThrows(e) then [] else [e]) + (if Doubled(env, line) then [env.plainEvent(line)] else [])
  }

  /** What processing these lines pushes to the bus. */
  function LinesPublished(env: Env, lines: seq<string>): seq<Event> {
    if lines == [] then []
    else LinesPublished(env, lines[..|lines| - 1]) + LinePublished(env, lines[|lines| - 1])
  }

  function LinePublished(env: Env, line: string): seq<Event> {
    if line == "" then [] else PublishedOf(env, line)
  }

  function LineProcessed(env: Env, st: State, line: string): State {
    if line == "" then st
    else st.(plain := st.plain + PlainOf(env, line),
             events := st.events + EventsOf(env, line),
             published := st.published + PublishedOf(env, line))
  }

  function LinesProcessed(env: Env, st: State, lines: seq<string>): State
    decreases |lines|
  {
    if lines == [] then st else LineProcessed(env, LinesProcessed(env, st, lines[..|lines| - 1]), lines[|lines| - 1])
  }

  /** A line handled as plain output whose event makes a listener throw: nothing catches that. */
  predicate Aborts(env: Env, line: string) {
    line != "" && PlainOf(env, line) != [] && env.listenerThrows(env.plainEvent(line))
  }

  predicate Stopped(env: Env, lines: seq<string>) {
    lines != [] && (Stopped(env, lines[..|lines| - 1]) || Aborts(env, lines[|lines| - 1]))
  }

  /** The lines of one chunk that are processed: those up to and including the first that aborts. */
  function Reached(env: Env, lines: seq<string>): seq<string> {
    if lines == [] then []
    else
      var front := lines[..|lines| - 1];
      if Stopped(env, front) then Reached(env, front) else Reached(env, front) + [lines[|lines| - 1]]
  }

  function Consumed(env: Env, st: State, chunk: string): State {
    var lines := Split(st.buffer + chunk);
    LinesProcessed(env, st.(buffer := lines.rest), Reached(env, lines.complete))
  }

  function ConsumedAll(env: Env, st: State, chunks: seq<string>): State
    decreases |chunks|
  {
    if chunks == [] then st else Consumed(env, ConsumedAll(env, st, chunks[..|chunks| - 1]), chunks[|chunks| - 1])
  }

  /** The buffer is only emptied when its line does not abort. */
  function Flushed(env: Env, st: State): State {
    if st.buffer == "" then st
    else LineProcessed(env, st, st.buffer).(buffer := if Aborts(env, st.buffer) then st.buffer else "")
  }

  lemma {:induction false} LinesProcessedAppend(env: Env, st: State, a: seq<string>, b: seq<string>)
    ensures LinesProcessed(env, st, a + b) == LinesProcessed(env, LinesProcessed(env, st, a), b)
    decreases |b|
  {
    if b == [] {
      AppendNothing(a);
    } else {
      LinesProcessedAppend(env, st, a, b[..|b| - 1]);
      assert (a + b)[..|a + b| - 1] == a + b[..|b| - 1];
    }
  }

  lemma {:induction false} LinesLeaveBuffer(env: Env, st: State, lines: seq<string>, buffer: string)
    ensures LinesProcessed(env, st.(buffer := buffer), lines) == LinesProcessed(env, st, lines).(buffer := buffer)
    decreases |lines|
  {
    if lines != [] {
      LinesLeaveBuffer(env, st, lines[..|lines| - 1], buffer);
    }
  }

  // ---------------------------------------------------------------------------
  // Chunks
  // ---------------------------------------------------------------------------

  predicate Unbroken(s: string) {
    Split(s) == Lines([], s)
  }

  /** What consuming a text would leave if no line aborted the rest of its chunk. */
  function Ideal(env: Env, st: State, text: string): State {
    var lines := Split(st.buffer + text);
    LinesProcessed(env, st.(buffer := lines.rest), lines.complete)
  }

  lemma IdealTwice(env: Env, st: State, x: string, y: string)
    ensures Ideal(env, Ideal(env, st, x), y) == Ideal(env, st, x + y)
    ensures Ideal(env, st, x).buffer == Split(st.buffer + x).rest && Unbroken(Ideal(env, st, x).buffer)
  {
    hide Split, LinesProcessed;
    var first := Split(st.buffer + x);
    RestIsUnbroken(st.buffer + x);
    LinesLeaveBuffer(env, st, first.complete, first.rest);
    var second := Split(first.rest + y);
    SplitAppend(st.buffer + x, y);
    AppendAssociative(st.buffer, x, y);
    LinesProcessedAppend(env, st, first.complete, second.complete);
    LinesLeaveBuffer(env, st, first.complete + second.complete, second.rest);
    var processed := LinesProcessed(env, st, first.complete);
    LinesLeaveBuffer(env, processed, second.complete, second.rest);
    assert Ideal(env, st, x).(buffer := second.rest) == processed.(buffer := second.rest);
  }

  /** No non-empty line follows one that aborts. */
  predicate NothingDropped(env: Env, lines: seq<string>) {
    lines == [] ||
    (NothingDropped(env, lines[..|lines| - 1]) && (Stopped(env, lines[..|lines| - 1]) ==> lines[|lines| - 1] == ""))
  }

  /** How many entries a line adds to the event and plain lists together. */
  function Records(env: Env, line: string): nat {
    if line == "" then 0 else |EventsOf(env, line)| + |PlainOf(env, line)|
  }

  function RecordsIn(env: Env, lines: seq<string>): nat {
    if lines == [] then 0 else RecordsIn(env, lines[..|lines| - 1]) + Records(env, lines[|lines| - 1])
  }

  lemma {:induction false} RecordsAdded(env: Env, st: State, lines: seq<string>)
    ensures var after := LinesProcessed(env, st, lines);
            |after.events| + |after.plain| == |st.events| + |st.plain| + RecordsIn(env, lines)
    decreases |lines|
  {
    if lines != [] {
      RecordsAdded(env, st, lines[..|lines| - 1]);
    }
  }

  /** Stopping at an aborting line matters exactly when it drops something. */
  lemma {:induction false} DroppingShows(env: Env, st: State, lines: seq<string>)
    ensures NothingDropped(env, lines) ==> LinesProcessed(env, st, Reached(env, lines)) == LinesProcessed(env, st, lines)
    ensures RecordsIn(env, Reached(env, lines)) <= RecordsIn(env, lines)
    ensures !NothingDropped(env, lines) ==> RecordsIn(env, Reached(env, lines)) < RecordsIn(env, lines)
    decreases |lines|
  {
    if lines != [] {
      var front, last := lines[..|lines| - 1], lines[|lines| - 1];
      DroppingShows(env, st, front);
      InitOfPush(Reached(env, front), last);
      assert last != "" ==> Records(env, last) > 0;
      hide Stopped, EventsOf, PlainOf;
    }
  }

  /** The lines the last of these chunks completes. */
  function Completes(buffer: string, chunks: seq<string>): seq<string>
    requires chunks != []
  {
    Split(Split(buffer + Flatten(chunks[..|chunks| - 1])).rest + chunks[|chunks| - 1]).complete
  }

  /** In no chunk does a non-empty line follow one that aborts. */
  predicate AllHandled(env: Env, buffer: string, chunks: seq<string>) {
    chunks == [] ||
    (AllHandled(env, buffer, chunks[..|chunks| - 1]) && NothingDropped(env, Completes(buffer, chunks)))
  }

  lemma {:induction false} BufferAlong(env: Env, st: State, chunks: seq<string>)
    requires Unbroken(st.buffer)
    ensures ConsumedAll(env, st, chunks).buffer == Split(st.buffer + Flatten(chunks)).rest
    ensures Unbroken(ConsumedAll(env, st, chunks).buffer)
    decreases |chunks|
  {
    if chunks == [] {
      AppendNothing(st.buffer);
    } else {
      var front, last := chunks[..|chunks| - 1], chunks[|chunks| - 1];
      BufferAlong(env, st, front);
      var before := ConsumedAll(env, st, front);
      var lines := Split(before.buffer + last);
      LinesLeaveBuffer(env, before, Reached(env, lines.complete), lines.rest);
      RestIsUnbroken(before.buffer + last);
      SplitAppend(st.buffer + Flatten(front), last);
      AppendAssociative(st.buffer, Flatten(front), last);
      hide Split, LinesProcessed, Reached;
    }
  }

  /** One more chunk, against consuming it without any line aborting. */
  lemma OneMoreChunk(env: Env, st: State, chunk: string)
    ensures NothingDropped(env, Split(st.buffer + chunk).complete) ==> Consumed(env, st, chunk) == Ideal(env, st, chunk)
    ensures var after, ideal := Consumed(env, st, chunk), Ideal(env, st, chunk);
            |after.events| + |after.plain| <= |ideal.events| + |ideal.plain|
            && (!NothingDropped(env, Split(st.buffer + chunk).complete) ==>
                  |after.events| + |after.plain| < |ideal.events| + |ideal.plain|)
  {
    var lines := Split(st.buffer + chunk);
    var start := st.(buffer := lines.rest);
    hide Split;
    DroppingShows(env, start, lines.complete);
    RecordsAdded(env, start, lines.complete);
    RecordsAdded(env, start, Reached(env, lines.complete));
    hide LinesProcessed, Reached, NothingDropped, RecordsIn;
  }

  /** What consuming a text ideally adds does not depend on what was there before. */
  lemma IdealAdds(env: Env, a: State, b: State, text: string)
    requires a.buffer == b.buffer
    ensures var x, y := Ideal(env, a, text), Ideal(env, b, text);
            |x.events| + |x.plain| + |b.events| + |b.plain| == |y.events| + |y.plain| + |a.events| + |a.plain|
  {
    var lines := Split(a.buffer + text);
    RecordsAdded(env, a.(buffer := lines.rest), lines.complete);
    RecordsAdded(env, b.(buffer := lines.rest), lines.complete);
  }

  /** Consuming in these chunks handles every line exactly when in none of them a line is dropped. */
  lemma {:induction false} HandledExactly(env: Env, st: State, chunks: seq<string>)
    requires Unbroken(st.buffer)
    ensures ConsumedAll(env, st, chunks) == Ideal(env, st, Flatten(chunks)) <==> AllHandled(env, st.buffer, chunks)
    ensures var after, ideal := ConsumedAll(env, st, chunks), Ideal(env, st, Flatten(chunks));
            |after.events| + |after.plain| <= |ideal.events| + |ideal.plain|
            && (!AllHandled(env, st.buffer, chunks) ==> |after.events| + |after.plain| < |ideal.events| + |ideal.plain|)
    decreases |chunks|
  {
    if chunks == [] {
      AppendNothing(st.buffer);
    } else {
      var front, last := chunks[..|chunks| - 1], chunks[|chunks| - 1];
      HandledExactly(env, st, front);
      BufferAlong(env, st, front);
      var before, ideal := ConsumedAll(env, st, front), Ideal(env, st, Flatten(front));
      IdealTwice(env, st, Flatten(front), last);
      OneMoreChunk(env, before, last);
      IdealAdds(env, before, ideal, last);
      hide Ideal, Consumed, NothingDropped, Split;
    }
  }

  /** A text cut after every character. */
  function Characters(text: string): seq<string> {
    if text == "" then [] else Characters(text[..|text| - 1]) + [[text[|text| - 1]]]
  }

  /** Cut after every character, no chunk completes two lines. */
  lemma {:induction false} CharactersHandled(env: Env, buffer: string, text: string)
    requires Unbroken(buffer)
    ensures Flatten(Characters(text)) == text && AllHandled(env, buffer, Characters(text))
  {
    if text != "" {
      var front, c := text[..|text| - 1], text[|text| - 1];
      CharactersHandled(env, buffer, front);
      InitLast(text);
      InitOfPush(Characters(front), [c]);
      var rest := Split(buffer + front).rest;
      RestIsUnbroken(buffer + front);
      InitOfPush(rest, c);
      var completed := Split(rest + [c]).complete;
      assert completed == [] || completed == [DropCr(rest)];
      assert |completed| == 1 ==> completed[..0] == [];
    }
  }

  /**
   * Every way of cutting a text into chunks leaves the state that consuming it whole leaves, exactly when no non-empty
   * line of it follows one that aborts.
   */
  lemma ChunkingInvariance(env: Env, st: State, text: string)
    requires Unbroken(st.buffer)
    ensures (forall chunks | Flatten(chunks) == text :: ConsumedAll(env, st, chunks) == Consumed(env, st, text))
            <==> NothingDropped(env, Split(st.buffer + text).complete)
  {
    var lines := Split(st.buffer + text).complete;
    OneMoreChunk(env, st, text);
    if NothingDropped(env, lines) {
      forall chunks | Flatten(chunks) == text ensures ConsumedAll(env, st, chunks) == Consumed(env, st, text) {
        PartsHandled(env, st.buffer, chunks);
        HandledExactly(env, st, chunks);
      }
    } else {
      CharactersHandled(env, st.buffer, text);
      HandledExactly(env, st, Characters(text));
      assert ConsumedAll(env, st, Characters(text)) != Consumed(env, st, text);
    }
  }

  lemma {:induction false} DroppedInPart(env: Env, a: seq<string>, b: seq<string>)
    ensures Stopped(env, a + b) <==> Stopped(env, a) || Stopped(env, b)
    ensures NothingDropped(env, a + b) ==> NothingDropped(env, a) && NothingDropped(env, b)
    decreases |b|
  {
    if b == [] {
      AppendNothing(a);
    } else {
      var front, last := b[..|b| - 1], b[|b| - 1];
      DroppedInPart(env, a, front);
      AppendFromLast(a, b);
      hide Aborts;
    }
  }

  /** Where the whole text drops nothing, no chunk of it does. */
  lemma {:induction false} PartsHandled(env: Env, buffer: string, chunks: seq<string>)
    requires Unbroken(buffer) && NothingDropped(env, Split(buffer + Flatten(chunks)).complete)
    ensures AllHandled(env, buffer, chunks)
    decreases |chunks|
  {
    if chunks != [] {
      var front, last := chunks[..|chunks| - 1], chunks[|chunks| - 1];
      SplitAppend(buffer + Flatten(front), last);
      AppendAssociative(buffer, Flatten(front), last);
      DroppedInPart(env, Split(buffer + Flatten(front)).complete, Completes(buffer, chunks));
      PartsHandled(env, buffer, front);
    }
  }

  // ---------------------------------------------------------------------------
  // Whole runs
  // ---------------------------------------------------------------------------

  function IsNonEmpty(): string -> bool {
    (line: string) => line != ""
  }

  /** The non-empty lines of a text, in order. */
  function LinesOf(text: string): seq<string> {
    Filter(IsNonEmpty(), SplitLines(text))
  }

  /** The lines the chunks complete that are processed. */
  function ReachedIn(env: Env, chunks: seq<string>): seq<string> {
    if chunks == [] then [] else ReachedIn(env, chunks[..|chunks| - 1]) + Reached(env, Completes("", chunks))
  }

  /** The non-empty lines handled by a run that consumes these chunks and flushes. */
  function HandledLines(env: Env, chunks: seq<string>): seq<string> {
    Filter(IsNonEmpty(), ReachedIn(env, chunks) + [Split(Flatten(chunks)).rest])
  }

  lemma {:induction false} EmptyLinesIgnored(env: Env, st: State, lines: seq<string>)
    ensures LinesProcessed(env, st, lines) == LinesProcessed(env, st, Filter(IsNonEmpty(), lines))
    decreases |lines|
  {
    if lines != [] {
      EmptyLinesIgnored(env, st, lines[..|lines| - 1]);
      InitOfPush(Filter(IsNonEmpty(), lines[..|lines| - 1]), lines[|lines| - 1]);
    }
  }

  lemma {:induction false} LinesAccounted(env: Env, st: State, lines: seq<string>)
    requires forall line | line in lines :: line != ""
    ensures var after := LinesProcessed(env, st, lines);
            && after.buffer == st.buffer
            && after.events == st.events + FlatMap((line: string) => EventsOf(env, line), lines)
            && after.plain == st.plain + FlatMap((line: string) => PlainOf(env, line), lines)
            && after.published == st.published + FlatMap((line: string) => PublishedOf(env, line), lines)
    decreases |lines|
  {
    if lines == [] {
      AppendNothing(st.events);
      AppendNothing(st.plain);
      AppendNothing(st.published);
    } else {
      var front, line := lines[..|lines| - 1], lines[|lines| - 1];
      assert line in lines && forall l | l in front :: l in lines;
      LinesAccounted(env, st, front);
      AppendAssociative(st.events, FlatMap((l: string) => EventsOf(env, l), front), EventsOf(env, line));
      AppendAssociative(st.plain, FlatMap((l: string) => PlainOf(env, l), front), PlainOf(env, line));
      AppendAssociative(st.published, FlatMap((l: string) => PublishedOf(env, l), front), PublishedOf(env, line));
      hide EventsOf, PlainOf, PublishedOf;
    }
  }

  lemma {:induction false} ConsumedInRun(env: Env, chunks: seq<string>)
    ensures ConsumedAll(env, EMPTY, chunks)
         == LinesProcessed(env, EMPTY, ReachedIn(env, chunks)).(buffer := Split(Flatten(chunks)).rest)
  {
    if chunks != [] {
      var front, last := chunks[..|chunks| - 1], chunks[|chunks| - 1];
      ConsumedInRun(env, front);
      SplitAppend(Flatten(front), last);
      AppendNothing(Flatten(front));
      var processed, rest := LinesProcessed(env, EMPTY, ReachedIn(env, front)), Split(Flatten(front)).rest;
      var lines := Split(rest + last);
      LinesLeaveBuffer(env, processed, Reached(env, lines.complete), lines.rest);
      LinesProcessedAppend(env, EMPTY, ReachedIn(env, front), Reached(env, lines.complete));
      assert processed.(buffer := rest).(buffer := lines.rest) == processed.(buffer := lines.rest);
      hide Split, LinesProcessed, Reached;
    }
  }

  /**
   * A run, whatever its chunks: the lines it handles turn into events, plain lines and published events one after the
   * other and in full, and the buffer ends up empty unless the last line aborts.
   */
  lemma RunHandlesLinesInOrder(env: Env, chunks: seq<string>)
    ensures var after, handled := Flushed(env, ConsumedAll(env, EMPTY, chunks)), HandledLines(env, chunks);
            && after.events == FlatMap((line: string) => EventsOf(env, line), handled)
            && after.plain == FlatMap((line: string) => PlainOf(env, line), handled)
            && after.published == FlatMap((line: string) => PublishedOf(env, line), handled)
            && var rest := Split(Flatten(chunks)).rest; after.buffer == if Aborts(env, rest) then rest else ""
  {
    var reached, rest := ReachedIn(env, chunks), Split(Flatten(chunks)).rest;
    ConsumedInRun(env, chunks);
    LinesLeaveBuffer(env, EMPTY, reached, rest);
    InitOfPush(reached, rest);
    EmptyLinesIgnored(env, EMPTY, reached + [rest]);
    forall line | line in HandledLines(env, chunks) ensures line != "" {
      FilterMember(IsNonEmpty(), reached + [rest], line);
    }
    LinesAccounted(env, EMPTY, HandledLines(env, chunks));
    AfterFlush(env, LinesProcessed(env, EMPTY, reached), rest);
    hide Split, LinesProcessed, ReachedIn, Filter, FlatMap, Aborts;
  }

  lemma AfterFlush(env: Env, st: State, rest: string)
    ensures Flushed(env, st.(buffer := rest))
         == LineProcessed(env, st, rest).(buffer := if Aborts(env, rest) then rest else "")
  {
  }

  lemma {:induction false} ReachedLines(env: Env, lines: seq<string>)
    ensures var reached, all := Filter(IsNonEmpty(), Reached(env, lines)), Filter(IsNonEmpty(), lines);
            && |reached| <= |all|
            && (NothingDropped(env, lines) ==> reached == all)
            && (!NothingDropped(env, lines) ==> |reached| < |all|)
  {
    if lines != [] {
      var front, last := lines[..|lines| - 1], lines[|lines| - 1];
      ReachedLines(env, front);
      FilterPush(IsNonEmpty(), Reached(env, front), last);
    }
  }

  lemma {:induction false} ReachedInRun(env: Env, chunks: seq<string>)
    ensures var reached := Filter(IsNonEmpty(), ReachedIn(env, chunks));
            var all := Filter(IsNonEmpty(), Split(Flatten(chunks)).complete);
            && |reached| <= |all|
            && (AllHandled(env, "", chunks) ==> reached == all)
            && (!AllHandled(env, "", chunks) ==> |reached| < |all|)
  {
    if chunks != [] {
      var front, last := chunks[..|chunks| - 1], chunks[|chunks| - 1];
      ReachedInRun(env, front);
      AppendNothing(Flatten(front));
      SplitAppend(Flatten(front), last);
      ReachedLines(env, Completes("", chunks));
      FilterAppend(IsNonEmpty(), ReachedIn(env, front), Reached(env, Completes("", chunks)));
      FilterAppend(IsNonEmpty(), Split(Flatten(front)).complete, Completes("", chunks));
      hide Split, Filter, Reached, NothingDropped;
    }
  }

  /** A run handles every non-empty line of its text exactly when no chunk drops one. */
  lemma EveryLineHandledExactly(env: Env, chunks: seq<string>)
    ensures HandledLines(env, chunks) == LinesOf(Flatten(chunks)) <==> AllHandled(env, "", chunks)
  {
    ReachedInRun(env, chunks);
    FilterPush(IsNonEmpty(), ReachedIn(env, chunks), Split(Flatten(chunks)).rest);
    FilterPush(IsNonEmpty(), Split(Flatten(chunks)).complete, Split(Flatten(chunks)).rest);
    hide Filter, ReachedIn, AllHandled, Split;
  }

  /**
   * Every non-empty line becomes exactly one structured event or one plain line, exactly when no chunk drops a line
   * after one that aborts and no line's own handlers throw.
   */
  lemma ExactlyOneRecordPerLine(env: Env, chunks: seq<string>)
    ensures var handled, lines := HandledLines(env, chunks), LinesOf(Flatten(chunks));
            handled == lines && (forall line | line in lines :: |EventsOf(env, line)| + |PlainOf(env, line)| == 1)
            <==> AllHandled(env, "", chunks) && (forall line | line in lines :: !Doubled(env, line))
  {
    EveryLineHandledExactly(env, chunks);
    var lines := LinesOf(Flatten(chunks));
    hide HandledLines, LinesOf, AllHandled;
    forall line | line in lines ensures |EventsOf(env, line)| + |PlainOf(env, line)| == 1 <==> !Doubled(env, line) {
    }
  }

  // ---------------------------------------------------------------------------
  // Listeners that throw
  // ---------------------------------------------------------------------------

  lemma SplitOne(c: char)
    requires c != '\n'
    ensures Split([c]) == Lines([], [c])
  {
    InitOfPush("", c);
  }

  /** A listener that throws on a structured event makes its line both an event and a plain line. */
  lemma ThrowingListenerDoublesALine(e: Event, plain: Event)
    requires plain != e
    ensures var env := Env(_ => Some(e), _ => plain, _ => false, x => x == e);
            var after := Flushed(env, ConsumedAll(env, EMPTY, ["a"]));
            after == State("", ["a"], [e], [e, plain])
  {
    var env := Env(_ => Some(e), _ => plain, _ => false, x => x == e);
    SplitOne('a');
    AppendNothing("a");
    InitOfPush([], "a");
    assert Consumed(env, EMPTY, "a") == EMPTY.(buffer := "a");
    assert ConsumedAll(env, EMPTY, []) == EMPTY;
  }

  lemma SplitTwoLines()
    ensures Split("a\nb\n") == Lines(["a", "b"], "") && Split("a\n") == Lines(["a"], "") && Split("b\n") == Lines(["b"], "")
  {
    SplitOne('a');
    SplitOne('b');
    assert "a\n"[..1] == "a" && "b\n"[..1] == "b" && "a\nb"[..2] == "a\n" && "a\nb\n"[..3] == "a\nb";
    assert Split("a\n") == Read(Split("a"), '\n');
    assert Split("b\n") == Read(Split("b"), '\n');
    assert Split("a\nb") == Read(Split("a\n"), 'b');
    assert Split("a\nb\n") == Read(Split("a\nb"), '\n');
  }

  lemma OnePlainLine(env: Env, st: State, line: string)
    requires line != "" && env.parse(line).None?
    ensures LinesProcessed(env, st, [line])
         == st.(plain := st.plain + [line], published := st.published + [env.plainEvent(line)])
    ensures Reached(env, [line]) == [line] && Stopped(env, [line]) == env.listenerThrows(env.plainEvent(line))
  {
    InitOfPush([], line);
    AppendNothing(st.events);
  }

  lemma OneChunk(env: Env, st: State, chunks: seq<string>, chunk: string)
    ensures ConsumedAll(env, st, chunks + [chunk]) == Consumed(env, ConsumedAll(env, st, chunks), chunk)
  {
    InitOfPush(chunks, chunk);
  }

  /** A chunk of complete lines of which only the first is reached, and that one is plain. */
  lemma ConsumePlain(env: Env, st: State, chunk: string, line: string, lines: seq<string>)
    requires st.buffer == "" && Split(chunk) == Lines(lines, "") && Reached(env, lines) == [line]
    requires line != "" && env.parse(line).None?
    ensures Consumed(env, st, chunk) == st.(plain := st.plain + [line], published := st.published + [env.plainEvent(line)])
  {
    AppendNothing(chunk);
    OnePlainLine(env, st, line);
    hide Split, LinesProcessed, Reached;
  }

  lemma ReachedFirst(env: Env, a: string, b: string)
    requires a != "" && env.parse(a).None? && env.listenerThrows(env.plainEvent(a))
    ensures Reached(env, [a, b]) == [a]
  {
    OnePlainLine(env, EMPTY, a);
    InitOfPush([a], b);
    assert [a] + [b] == [a, b];
    hide Aborts;
  }

  lemma SecondLineDropped(env: Env, both: string, first: string, second: string, a: string, b: string)
    requires Split(both) == Lines([a, b], "") && Split(first) == Lines([a], "") && Split(second) == Lines([b], "")
    requires a != "" && b != "" && env.parse(a).None? && env.parse(b).None? && env.listenerThrows(env.plainEvent(a))
    ensures ConsumedAll(env, EMPTY, [] + [both]).plain == [] + [a]
    ensures ConsumedAll(env, EMPTY, [] + [first] + [second]).plain == [] + [a] + [b]
  {
    ReachedFirst(env, a, b);
    OnePlainLine(env, EMPTY, a);
    OnePlainLine(env, EMPTY, b);
    var none: seq<string> := [];
    assert ConsumedAll(env, EMPTY, none) == EMPTY;
    hide *;
    OneChunk(env, EMPTY, none, both);
    OneChunk(env, EMPTY, none, first);
    OneChunk(env, EMPTY, none + [first], second);
    ConsumePlain(env, EMPTY, both, a, [a, b]);
    ConsumePlain(env, EMPTY, first, a, [a]);
    ConsumePlain(env, Consumed(env, EMPTY, first), second, b, [b]);
  }

  /** A listener that throws on a plain line's event loses the rest of the chunk, unless it comes in a chunk of its own. */
  lemma ThrowingListenerDropsALine(env: Env)
    requires env.parse("a").None? && env.parse("b").None? && env.listenerThrows(env.plainEvent("a"))
    ensures ConsumedAll(env, EMPTY, [] + ["a\nb\n"]).plain == [] + ["a"]
    ensures ConsumedAll(env, EMPTY, [] + ["a\n"] + ["b\n"]).plain == [] + ["a"] + ["b"]
  {
    hide *;
    SplitTwoLines();
    SecondLineDropped(env, "a\nb\n", "a\n", "b\n", "a", "b");
  }

  class Pipeline {
    const env: Env
    const bus: EventBus
    var buffer: string
    var plainLogLines: seq<string>
    var agentEvents: seq<Event>
    ghost var published: seq<Event>

    ghost function Abs(): State
      reads this
    {
      State(buffer, plainLogLines, agentEvents, published)
    }

    constructor (env: Env, bus: EventBus)
      ensures this.env == env && this.bus == bus && Abs() == EMPTY
    {
      this.env, this.bus := env, bus;
      buffer, plainLogLines, agentEvents, published := "", [], [], [];
    }

    /** `threw` is whether the last emit threw, which nothing in the pipeline catches. */
    method ProcessLine(line: string) returns (threw: bool)
      modifies this`plainLogLines, this`agentEvents, this`published, bus
      ensures Abs() == LineProcessed(env, old(Abs()), line)
      ensures bus.buffers == PushedAll(old(bus.buffers), LinePublished(env, line))
      ensures threw == Aborts(env, line)
    {
      if line == "" {
        return false;
      }
      ghost var sent := [];
      var handled := false;
      threw := false;
      match env.parse(line) {
        case None =>
        case Some(e) =>
          agentEvents := agentEvents + [e];
          if !env.onEventThrows(e) {
            bus.PushToTaskBuffer(e);
            sent := [e];
            handled := !env.listenerThrows(e);
          }
      }
      assert bus.buffers == PushedAll(old(bus.buffers), sent);
      if !handled {
        plainLogLines := plainLogLines + [line];
        var stderrEvent := env.plainEvent(line);
        bus.PushToTaskBuffer(stderrEvent);
        PushedAllAppend(old(bus.buffers), sent, [stderrEvent]);
        sent := sent + [stderrEvent];
        threw := env.listenerThrows(stderrEvent);
      }
      assert sent == PublishedOf(env, line);
      published := published + sent;
    }

    method ConsumeChunk(chunk: string) returns (threw: bool)
      modifies this, bus
      ensures Abs() == Consumed(env, old(Abs()), chunk)
      ensures bus.buffers
           == PushedAll(old(bus.buffers), LinesPublished(env, Reached(env, Split(old(buffer) + chunk).complete)))
      ensures threw == Stopped(env, Split(old(buffer) + chunk).complete)
    {
      var lines := Split(buffer + chunk);
      buffer := lines.rest;
      var complete := lines.complete;
      ghost var start := Abs();
      threw := false;
      hide LineProcessed, LinePublished, Aborts, Split;
      for i := 0 to |complete|
        invariant !threw && !Stopped(env, complete[..i]) && Reached(env, complete[..i]) == complete[..i]
        invariant Abs() == LinesProcessed(env, start, complete[..i])
        invariant bus.buffers == PushedAll(old(bus.buffers), LinesPublished(env, complete[..i]))
      {
        ProcessLineExtends(env, start, old(bus.buffers), complete, i);
        ReachedExtends(env, complete, i);
        threw := ProcessLine(complete[i]);
        if threw {
          StoppedStays(env, complete, i + 1);
          return true;
        }
      }
      assert complete[..|complete|] == complete;
    }

    method Flush() returns (threw: bool)
      modifies this, bus
      ensures Abs() == Flushed(env, old(Abs()))
      ensures bus.buffers == PushedAll(old(bus.buffers), LinePublished(env, old(buffer)))
      ensures threw == Aborts(env, old(buffer))
    {
      if buffer == "" {
        return false;
      }
      threw := ProcessLine(buffer);
      if threw {
        return;
      }
      buffer := "";
    }
  }

  lemma ReachedExtends(env: Env, lines: seq<string>, i: nat)
    requires i < |lines| && !Stopped(env, lines[..i])
    ensures Reached(env, lines[..i + 1]) == Reached(env, lines[..i]) + [lines[i]]
    ensures Stopped(env, lines[..i + 1]) == Aborts(env, lines[i])
    ensures lines[..i + 1] == lines[..i] + [lines[i]]
  {
    TakeTake(lines, i + 1, i);
  }

  lemma {:induction false} StoppedStays(env: Env, lines: seq<string>, i: nat)
    requires i <= |lines| && Stopped(env, lines[..i])
    ensures Stopped(env, lines) && Reached(env, lines) == Reached(env, lines[..i])
  {
    if i < |lines| {
      TakeTake(lines, |lines| - 1, i);
      StoppedStays(env, lines[..|lines| - 1], i);
    } else {
      assert lines[..i] == lines;
    }
  }

  lemma ProcessLineExtends(env: Env, st: State, buffers: Buffers, lines: seq<string>, i: nat)
    requires i < |lines|
    ensures LinesProcessed(env, st, lines[..i + 1])
         == LineProcessed(env, LinesProcessed(env, st, lines[..i]), lines[i])
    ensures PushedAll(buffers, LinesPublished(env, lines[..i + 1]))
         == PushedAll(PushedAll(buffers, LinesPublished(env, lines[..i])), LinePublished(env, lines[i]))
  {
    TakeTake(lines, i + 1, i);
    PushedAllAppend(buffers, LinesPublished(env, lines[..i]), LinePublished(env, lines[i]));
  }

  lemma {:induction false} PushedAllAppend(buffers: Buffers, a: seq<Event>, b: seq<Event>)
    ensures PushedAll(buffers, a + b) == PushedAll(PushedAll(buffers, a), b)
    decreases |b|
  {
    if b == [] {
      AppendNothing(a);
    } else {
      var front, e := b[..|b| - 1], b[|b| - 1];
      hide Pushed;
      PushedAllAppend(buffers, a, front);
      AppendFromLast(a, b);
    }
  }
}
