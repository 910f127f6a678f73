/**
 * The candidates a log-stream replay draws from, and the generator that yields
 * them newest first (src/admin/logStreamReplay.ts).
 */
module ReplayCandidates {
  import opened Seqs
  import opened Text
  import opened AgentEventBus

  /** What one stream entry says. `Notice` covers the lines the server writes itself. */
  datatype Body =
    | EventBody(event: Event)
    | LineBody(timestamp: string, taskId: string, line: string)
    | Notice(timestamp: string, taskId: string, summary: Summary)

  /** The deduplication key of an entry, and the compact id hashed from it. */
  datatype Key = Key(text: string)
  datatype Id = Id(text: string)

  /**
   * Normalization, key building and hashing, none of which this model
   * interprets; and, of an event whose payload does not serialize, whether its
   * entry prints because redaction removed what does not.
   */
  datatype Codec = Codec(key: Body -> Key, id: Key -> Id, prints: Event -> bool)

  datatype Entry = Entry(body: Body, key: Key, id: Id)

  datatype Cycle = Cycle(taskId: string, createdAt: string, agentLogs: string, agentEvents: seq<Event>)

  datatype Summary = Summary(resumed: bool, replayed: nat, omitted: nat, limit: nat)

  function ReplayEntry(codec: Codec, body: Body): Entry {
    Entry(body, codec.key(body), codec.id(codec.key(body)))
  }

  function EventEntry(codec: Codec, event: Event): Entry {
    ReplayEntry(codec, EventBody(event))
  }

  // ---------------------------------------------------------------------------
  // Log lines, scanned from the end
  // ---------------------------------------------------------------------------

  predicate NonBlank(line: string) {
    |Trim(line)| > 0
  }

  /** The reference: trim the log, split it at line breaks, drop blank lines; oldest first. */
  function LogLines(text: string): seq<string> {
    Filter(NonBlank, SplitLines(Trim(text)))
  }

  /** Every piece of `s` between line feeds without its carriage return, the last piece included. */
  function Contents(s: string): seq<string> {
    Split(s).complete + [DropCr(Split(s).rest)]
  }

  /** The lines a backwards scan standing at `end` has still to yield, oldest first. */
  function LinesBefore(logs: string, end: int): seq<string>
    requires end <= |logs|
  {
    if end <= 0 then [] else Filter(NonBlank, Contents(logs[..end]))
  }

  /** `lastIndexOf("\n", from)`. */
  function LastLineFeed(s: string, from: int): (i: int)
    requires -1 <= from < |s|
    ensures -1 <= i <= from
    decreases from + 1
  {
    if from < 0 || s[from] == '\n' then from else LastLineFeed(s, from - 1)
  }

  function LineAt(logs: string, end: int): string
    requires 0 < end <= |logs|
  {
    DropCr(Slice(logs, LastLineFeed(logs, end - 1) + 1, end))
  }

  /** Cutting at the last line feed takes exactly the last piece off. */
  lemma {:induction false} CutLastLine(logs: string, end: int)
    requires 0 < end <= |logs|
    ensures var i := LastLineFeed(logs, end - 1);
            Split(logs[..end]) == Lines(if i < 0 then [] else Contents(logs[..i]), Slice(logs, i + 1, end))
    decreases end
  {
    SplitPush(logs, end - 1);
    if logs[end - 1] != '\n' && end > 1 {
      CutLastLine(logs, end - 1);
    }
  }

  lemma ScanStep(logs: string, end: int)
    requires 0 < end <= |logs|
    ensures var rest, line := LinesBefore(logs, LastLineFeed(logs, end - 1)), LineAt(logs, end);
            LinesBefore(logs, end) == if NonBlank(line) then rest + [line] else rest
  {
    var i := LastLineFeed(logs, end - 1);
    var before := if i < 0 then [] else Contents(logs[..i]);
    CutLastLine(logs, end);
    FilterPush(NonBlank, before, LineAt(logs, end));
    if i == 0 {
      FilterOne(NonBlank, "");
      assert before == [""];
    }
  }

  /** Started at the end of the trimmed log, the backwards scan yields exactly the reference's lines. */
  lemma ScanStart(text: string)
    ensures LinesBefore(Trim(text), |Trim(text)|) == LogLines(text)
  {
    var logs := Trim(text);
    assert logs[..|logs|] == logs;
    if logs == "" {
      FilterOne(NonBlank, "");
      assert SplitLines(logs) == [""];
    } else {
      assert DropCr(Split(logs).rest) == Split(logs).rest;
    }
  }

  // ---------------------------------------------------------------------------
  // All candidates, newest first, each loop continuing with what is older
  // ---------------------------------------------------------------------------

  datatype Chain = End | Link(head: Entry, tail: Chain)

  function Length(chain: Chain): nat {
    match chain
    case End => 0
    case Link(_, tail) => 1 + Length(tail)
  }

  function Entries(chain: Chain): (r: seq<Entry>)
    ensures |r| == Length(chain)
  {
    match chain
    case End => []
    case Link(head, tail) => [head] + Entries(tail)
  }

  function LineEntry(codec: Codec, cycle: Cycle, line: string): Entry {
    ReplayEntry(codec, LineBody(cycle.createdAt, cycle.taskId, line))
  }

  function LinesThen(codec: Codec, cycle: Cycle, lines: seq<string>, older: Chain): Chain {
    if lines == [] then older
    else Link(LineEntry(codec, cycle, lines[|lines| - 1]), LinesThen(codec, cycle, lines[..|lines| - 1], older))
  }

  /** The first `n` events, newest first, without those at skipped positions. */
  function EventsThen(codec: Codec, events: seq<Event>, n: nat, skipped: set<nat>, older: Chain): Chain
    requires n <= |events|
  {
    if n == 0 then older
    else if n - 1 in skipped then EventsThen(codec, events, n - 1, skipped, older)
    else Link(EventEntry(codec, events[n - 1]), EventsThen(codec, events, n - 1, skipped, older))
  }

  function Skipped(cycles: seq<Cycle>, c: nat, copies: set<nat>): set<nat> {
    if c == |cycles| - 1 then copies else {}
  }

  /** Cycle `c` without its events: its log lines, then all older cycles. */
  function LogThenOlder(codec: Codec, cycles: seq<Cycle>, c: nat, lines: seq<string>, copies: set<nat>): Chain
    requires c < |cycles|
    decreases c, 1
  {
    LinesThen(codec, cycles[c], lines, History(codec, cycles, c, copies))
  }

  /** Entries of the first `n` cycles. */
  function History(codec: Codec, cycles: seq<Cycle>, n: nat, copies: set<nat>): Chain
    requires n <= |cycles|
    decreases n, 0
  {
    if n == 0 then End
    else
      var cycle := cycles[n - 1];
      EventsThen(codec, cycle.agentEvents, |cycle.agentEvents|, Skipped(cycles, n - 1, copies),
                 LogThenOlder(codec, cycles, n - 1, LogLines(cycle.agentLogs), copies))
  }

  /** The buffered events from position `first` up to `n`. */
  function LiveThen(codec: Codec, live: seq<Event>, first: nat, n: nat, older: Chain): Chain
    requires n <= |live|
  {
    if n <= first then older
    else Link(EventEntry(codec, live[n - 1]), LiveThen(codec, live, first, n - 1, older))
  }

  function First(resumeAfter: Option<nat>): nat {
    if resumeAfter.Some? then resumeAfter.value + 1 else 0
  }

  // ---------------------------------------------------------------------------
  // The generator, resumable at each yield
  // ---------------------------------------------------------------------------

  datatype Cursor =
    | AtLive(n: nat)                                // live[..n] not yet examined
    | AtCycle(c: nat)                               // cycles[..c] not yet entered
    | AtEvents(c: nat, n: nat)                      // inside cycle c, events[..n] left
    | AtLines(c: nat, logs: string, end: int)       // inside cycle c, scanning its log

  function Then(yielded: Option<Entry>, rest: Chain): Chain {
    if yielded.Some? then Link(yielded.value, rest) else rest
  }

  /** The generator's arguments. */
  datatype Source = Source(
    codec: Codec, live: seq<Event>, resumeAfter: Option<nat>, cycles: seq<Cycle>, copies: set<nat>)
  {
    /** Persisted candidates: none for a resumed replay. */
    function Older(): Chain {
      if resumeAfter.Some? then End else History(codec, cycles, |cycles|, copies)
    }

    /** Everything a replay may draw from, newest first. */
    function All(): Chain {
      LiveThen(codec, live, First(resumeAfter), |live|, Older())
    }

    predicate ValidAt(at: Cursor) {
      match at
      case AtLive(n) => n <= |live|
      case AtCycle(c) => c <= |cycles|
      case AtEvents(c, n) => c < |cycles| && n <= |cycles[c].agentEvents|
      case AtLines(c, logs, end) => c < |cycles| && -1 <= end <= |logs|
    }

    /** What is still to be yielded from `at` on, newest first. */
    ghost function Remaining(at: Cursor): Chain
      requires ValidAt(at)
    {
      match at
      case AtLive(n) => LiveThen(codec, live, First(resumeAfter), n, Older())
      case AtCycle(c) => History(codec, cycles, c, copies)
      case AtEvents(c, n) =>
        EventsThen(codec, cycles[c].agentEvents, n, Skipped(cycles, c, copies),
                   LogThenOlder(codec, cycles, c, LogLines(cycles[c].agentLogs), copies))
      case AtLines(c, logs, end) => LogThenOlder(codec, cycles, c, LinesBefore(logs, end), copies)
    }

    /** One turn of the nested loops: yield, skip, or move on to the next loop. */
    function Turn(at: Cursor): (r: (Cursor, Option<Entry>))
      requires ValidAt(at)
      ensures ValidAt(r.0)
    {
      match at
      case AtLive(n) =>
        if n > First(resumeAfter) then (AtLive(n - 1), Some(EventEntry(codec, live[n - 1])))
        else (AtCycle(if resumeAfter.Some? then 0 else |cycles|), None)
      case AtCycle(c) =>
        if c == 0 then (at, None) else (AtEvents(c - 1, |cycles[c - 1].agentEvents|), None)
      case AtEvents(c, n) =>
        if n == 0 then
          var logs := Trim(cycles[c].agentLogs);
          (AtLines(c, logs, |logs|), None)
        else if n - 1 in Skipped(cycles, c, copies) then
          (AtEvents(c, n - 1), None)
        else
          (AtEvents(c, n - 1), Some(EventEntry(codec, cycles[c].agentEvents[n - 1])))
      case AtLines(c, logs, end) =>
        if end <= 0 then
          (AtCycle(c), None)
        else
          var line := LineAt(logs, end);
          (AtLines(c, logs, LastLineFeed(logs, end - 1)),
           if NonBlank(line) then Some(LineEntry(codec, cycles[c], line)) else None)
    }

    function Stage(at: Cursor): nat {
      match at
      case AtLive(_) => 3 * |cycles| + 3
      case AtCycle(c) => 3 * c
      case AtEvents(c, _) => 3 * c + 2
      case AtLines(c, _, _) => 3 * c + 1
    }

    function Left(at: Cursor): nat
      requires ValidAt(at)
    {
      match at
      case AtLive(n) => n
      case AtCycle(_) => 0
      case AtEvents(_, n) => n
      case AtLines(_, _, end) => end + 1
    }

    /** Each turn takes exactly the entry it yields off what remains. */
    lemma TurnTakesNewest(at: Cursor)
      requires ValidAt(at)
      ensures Remaining(at) == Then(Turn(at).1, Remaining(Turn(at).0))
    {
      hide Text.Trim, LogLines, LineAt;
      match at
      case AtLive(n) =>
      case AtCycle(c) =>
      case AtEvents(c, n) => EventsTurn(c, n);
      case AtLines(c, logs, end) =>
        if end > 0 {
          LineTurn(codec, cycles[c], logs, end, History(codec, cycles, c, copies));
          hide LinesThen, LinesBefore, History;
        }
    }

    lemma EventsTurn(c: nat, n: nat)
      requires ValidAt(AtEvents(c, n))
      ensures var (next, yielded) := Turn(AtEvents(c, n)); Remaining(AtEvents(c, n)) == Then(yielded, Remaining(next))
    {
      hide Text.Trim, LogLines, LinesBefore, LineAt;
      if n == 0 {
        ScanStart(cycles[c].agentLogs);
      }
    }

    /** Each turn gets nearer to the end. */
    lemma TurnDescends(at: Cursor)
      requires ValidAt(at) && at != AtCycle(0)
      ensures var next := Turn(at).0; Stage(next) < Stage(at) || (Stage(next) == Stage(at) && Left(next) < Left(at))
    {
    }
  }

  lemma LineTurn(codec: Codec, cycle: Cycle, logs: string, end: int, older: Chain)
    requires 0 < end <= |logs|
    ensures var line, rest := LineAt(logs, end), LinesBefore(logs, LastLineFeed(logs, end - 1));
            LinesThen(codec, cycle, LinesBefore(logs, end), older)
              == Then(if NonBlank(line) then Some(LineEntry(codec, cycle, line)) else None,
                      LinesThen(codec, cycle, rest, older))
  {
    ScanStep(logs, end);
    InitOfPush(LinesBefore(logs, LastLineFeed(logs, end - 1)), LineAt(logs, end));
  }

  class CandidateGenerator {
    const source: Source
    var at: Cursor
    ghost var pulled: seq<Entry>

    ghost predicate Valid()
      reads this
    {
      source.ValidAt(at) && Entries(source.All()) == pulled + Entries(source.Remaining(at))
    }

    constructor (source: Source)
      ensures Valid() && this.source == source && pulled == []
    {
      this.source, pulled := source, [];
      at := AtLive(|source.live|);
      new;
      AppendNothing(Entries(source.All()));
    }

    lemma Unpulled() returns (rest: seq<Entry>)
      requires Valid()
      ensures Entries(source.All()) == pulled + rest
    {
      rest := Entries(source.Remaining(at));
    }

    /** The candidate after those pulled so far, or none once every candidate was yielded. */
    method Next() returns (r: Option<Entry>)
      requires Valid()
      modifies this
      ensures Valid()
      ensures r.None? ==> pulled == old(pulled) == Entries(source.All())
      ensures r.Some? ==> pulled == old(pulled) + [r.value]
    {
      r := None;
      ghost var before := source.Remaining(at);
      while r.None? && at != AtCycle(0)
        invariant source.ValidAt(at) && before == Then(r, source.Remaining(at))
        invariant pulled == old(pulled)
        decreases r.None?, source.Stage(at), source.Left(at)
      {
        source.TurnTakesNewest(at);
        source.TurnDescends(at);
        var (next, yielded) := source.Turn(at);
        at, r := next, yielded;
      }
      if r.Some? {
        AppendAssociative(pulled, [r.value], Entries(source.Remaining(at)));
        pulled := pulled + [r.value];
      } else {
        AppendNothing(pulled);
      }
    }
  }
}
