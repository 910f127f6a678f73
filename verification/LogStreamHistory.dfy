/** The replay written out over what is persisted and buffered (src/admin/logStreamReplay.ts). */
module LogStreamHistory {
  import opened Seqs
  import opened Text
  import opened AgentEventBus
  import opened ReplayCandidates
  import opened LogStreamReplay
  import opened LogStreamReplayProperties

  /** Each content with its key and the id of that key. */
  function Told(codec: Codec, bodies: seq<Body>): (r: seq<Entry>)
    ensures |r| == |bodies|
  {
    if bodies == [] then []
    else
      var body := bodies[|bodies| - 1];
      Told(codec, bodies[..|bodies| - 1]) + [Entry(body, codec.key(body), codec.id(codec.key(body)))]
  }

  lemma {:induction false} ToldAppend(codec: Codec, a: seq<Body>, b: seq<Body>)
    ensures Told(codec, a + b) == Told(codec, a) + Told(codec, b)
    decreases |b|
  {
    if b == [] {
      AppendNothing(a);
      AppendNothing(Told(codec, a));
    } else {
      var front, body := b[..|b| - 1], b[|b| - 1];
      ToldAppend(codec, a, front);
      AppendFromLast(a, b);
      AppendAssociative(Told(codec, a), Told(codec, front), [Entry(body, codec.key(body), codec.id(codec.key(body)))]);
    }
  }

  /** A cycle's log: a line each, at the cycle's time. */
  function LineBodies(cycle: Cycle, lines: seq<string>): seq<Body> {
    if lines == [] then []
    else LineBodies(cycle, lines[..|lines| - 1]) + [LineBody(cycle.createdAt, cycle.taskId, lines[|lines| - 1])]
  }

  /** The first `n` events but those at the positions left out. */
  function EventBodies(events: seq<Event>, n: nat, leftOut: set<nat>): seq<Body>
    requires n <= |events|
  {
    if n == 0 then []
    else EventBodies(events, n - 1, leftOut) + if n - 1 in leftOut then [] else [EventBody(events[n - 1])]
  }

  /** The lines of a log: trimmed, cut at line breaks, without those that hold nothing but whitespace. */
  function LogOf(text: string): seq<string> {
    Filter((line: string) => exists k :: 0 <= k < |line| && !IsWhitespace(line[k]), SplitLines(Trim(text)))
  }

  /** The first `n` cycles, oldest first, each its log and then its events; of the newest of all, not the copies. */
  function CycleBodies(cycles: seq<Cycle>, n: nat, copies: set<nat>): seq<Body>
    requires n <= |cycles|
  {
    if n == 0 then []
    else
      var cycle := cycles[n - 1];
      CycleBodies(cycles, n - 1, copies) + LineBodies(cycle, LogOf(cycle.agentLogs))
      + EventBodies(cycle.agentEvents, |cycle.agentEvents|, if n == |cycles| then copies else {})
  }

  lemma {:induction false} TrimmedAway(s: string)
    ensures Trim(s) != "" <==> exists k :: 0 <= k < |s| && !IsWhitespace(s[k])
  {
    StartTrimmedAway(s);
    EndTrimmedAway(TrimStart(s));
    StartKeeps(s);
  }

  lemma {:induction false} StartTrimmedAway(s: string)
    ensures TrimStart(s) != "" <==> exists k :: 0 <= k < |s| && !IsWhitespace(s[k])
  {
    if s != "" && IsWhitespace(s[0]) {
      StartTrimmedAway(s[1..]);
      if k :| 0 <= k < |s| && !IsWhitespace(s[k]) {
        assert s[1..][k - 1] == s[k];
      }
      var tail := s[1..];
      if k :| 0 <= k < |tail| && !IsWhitespace(tail[k]) {
        assert s[k + 1] == tail[k];
      }
    }
  }

  lemma StartKeeps(s: string)
    ensures TrimStart(s) != "" ==> !IsWhitespace(TrimStart(s)[0])
  {
  }

  lemma {:induction false} EndTrimmedAway(s: string)
    ensures TrimEnd(s) != "" <==> exists k :: 0 <= k < |s| && !IsWhitespace(s[k])
  {
    if s != "" && IsWhitespace(s[|s| - 1]) {
      EndTrimmedAway(s[..|s| - 1]);
      if k :| 0 <= k < |s| && !IsWhitespace(s[k]) {
        assert s[..|s| - 1][k] == s[k];
      }
      var front := s[..|s| - 1];
      if k :| 0 <= k < |front| && !IsWhitespace(front[k]) {
        assert s[k] == front[k];
      }
    }
  }

  lemma {:induction false} FilterAlike(p: string -> bool, q: string -> bool, s: seq<string>)
    requires forall x :: p(x) == q(x)
    ensures Filter(p, s) == Filter(q, s)
  {
    if s != [] {
      FilterAlike(p, q, s[..|s| - 1]);
    }
  }

  lemma LogLinesExactly(text: string)
    ensures LogLines(text) == LogOf(text)
  {
    forall line ensures NonBlank(line) == exists k :: 0 <= k < |line| && !IsWhitespace(line[k]) {
      TrimmedAway(line);
    }
    FilterAlike(NonBlank, (line: string) => exists k :: 0 <= k < |line| && !IsWhitespace(line[k]), SplitLines(Trim(text)));
    hide SplitLines, Trim;
  }

  lemma {:induction false} LinesTold(codec: Codec, cycle: Cycle, lines: seq<string>)
    ensures LineEntries(codec, cycle, lines) == Told(codec, LineBodies(cycle, lines))
  {
    if lines != [] {
      LinesTold(codec, cycle, lines[..|lines| - 1]);
      InitOfPush(LineBodies(cycle, lines[..|lines| - 1]), LineBody(cycle.createdAt, cycle.taskId, lines[|lines| - 1]));
    }
  }

  lemma {:induction false} EventsTold(codec: Codec, events: seq<Event>, n: nat, leftOut: set<nat>)
    requires n <= |events|
    ensures KeptEvents(codec, events, n, leftOut) == Told(codec, EventBodies(events, n, leftOut))
  {
    if n > 0 {
      EventsTold(codec, events, n - 1, leftOut);
      AppendNothing(EventBodies(events, n - 1, leftOut));
      InitOfPush(EventBodies(events, n - 1, leftOut), EventBody(events[n - 1]));
    }
  }

  lemma {:induction false} CyclesTold(codec: Codec, cycles: seq<Cycle>, n: nat, copies: set<nat>)
    requires n <= |cycles|
    ensures OldestFirst(codec, cycles, n, copies) == Told(codec, CycleBodies(cycles, n, copies))
  {
    hide LogLines, LogOf, LineEntries, KeptEvents, LineBodies, EventBodies, Told;
    if n == 0 {
      NothingTold(codec);
    } else {
      var cycle := cycles[n - 1];
      var leftOut := if n == |cycles| then copies else {};
      LogLinesExactly(cycle.agentLogs);
      CyclesTold(codec, cycles, n - 1, copies);
      LinesTold(codec, cycle, LogOf(cycle.agentLogs));
      EventsTold(codec, cycle.agentEvents, |cycle.agentEvents|, leftOut);
      var before, lines := CycleBodies(cycles, n - 1, copies), LineBodies(cycle, LogOf(cycle.agentLogs));
      var events := EventBodies(cycle.agentEvents, |cycle.agentEvents|, leftOut);
      assert CycleBodies(cycles, n, copies) == before + lines + events;
      assert OldestFirst(codec, cycles, n, copies) == Told(codec, before) + Told(codec, lines) + Told(codec, events);
      hide *;
      ToldAppend(codec, before, lines);
      ToldAppend(codec, before + lines, events);
    }
  }

  lemma NothingTold(codec: Codec)
    ensures Told(codec, []) == []
  {
  }

  lemma {:induction false} BufferTold(codec: Codec, events: seq<Event>, from: nat, to: nat)
    requires from <= to <= |events|
    ensures EventEntries(codec, events, from, to) == Told(codec, EventBodies(events[from..to], to - from, {}))
  {
    if from < to {
      BufferTold(codec, events, from, to - 1);
      Extends(codec, events[from..to - 1], events[from..to], events[to - 1], to - 1 - from);
      hide Told, EventBodies;
    }
  }

  lemma Extends(codec: Codec, a: seq<Event>, b: seq<Event>, e: Event, n: nat)
    requires |a| == n && |b| == n + 1 && b[n] == e && forall k | 0 <= k < n :: a[k] == b[k]
    ensures Told(codec, EventBodies(b, n + 1, {})) == Told(codec, EventBodies(a, n, {})) + [EventEntry(codec, e)]
  {
    SameEvents(a, b, n);
    InitOfPush(EventBodies(b, n, {}), EventBody(e));
  }

  lemma {:induction false} SameEvents(a: seq<Event>, b: seq<Event>, n: nat)
    requires n <= |a| && n <= |b| && forall k | 0 <= k < n :: a[k] == b[k]
    ensures EventBodies(a, n, {}) == EventBodies(b, n, {})
  {
    if n > 0 {
      SameEvents(a, b, n - 1);
    }
  }

  /** The cursor names exactly one buffered record: `c`. */
  ghost predicate Resumes(codec: Codec, live: seq<Event>, lastEventId: Option<Id>, c: nat) {
    && c < |live| && lastEventId == Some(codec.id(codec.key(EventBody(live[c]))))
    && forall i | 0 <= i < |live| && lastEventId == Some(codec.id(codec.key(EventBody(live[i])))) :: i == c
  }

  lemma {:induction false} BufferIds(codec: Codec, events: seq<Event>, to: nat)
    requires to <= |events|
    ensures forall i | 0 <= i < to :: EventEntries(codec, events, 0, to)[i].id == codec.id(codec.key(EventBody(events[i])))
  {
    if to > 0 {
      BufferIds(codec, events, to - 1);
    }
  }

  lemma ResumesExactly(codec: Codec, live: seq<Event>, lastEventId: Option<Id>, c: nat)
    ensures ResumePoint(EventEntries(codec, live, 0, |live|), lastEventId) == Some(c) <==> Resumes(codec, live, lastEventId, c)
  {
    var entries := EventEntries(codec, live, 0, |live|);
    BufferIds(codec, live, |live|);
    forall i: nat ensures IsMatch(entries, lastEventId, i) <==> i < |live| && lastEventId == Some(codec.id(codec.key(EventBody(live[i])))) {
    }
    hide EventEntries, Matches;
    var at := ResumePoint(entries, lastEventId);
    if Resumes(codec, live, lastEventId, c) {
      assert IsMatch(entries, lastEventId, c);
    }
  }

  /** Of these contents the newest 1000, of those the last one of each key, and of those the newest 500. */
  function Newest(codec: Codec, bodies: seq<Body>): seq<Entry> {
    LastN(KeepLast(LastN(Told(codec, bodies), 1000)), 500)
  }

  /** The buffered events after the `c`-th. */
  function After(live: seq<Event>, c: nat): seq<Body>
    requires c < |live|
  {
    EventBodies(live[c + 1..], |live| - c - 1, {})
  }

  /** All cycles and then the buffer, without the persisted copies of buffered events. */
  ghost function Everything(cycles: seq<Cycle>, live: seq<Event>): seq<Body> {
    CycleBodies(cycles, |cycles|, NewestCopies(cycles, live)) + EventBodies(live, |live|, {})
  }

  /**
   * The whole replay, from what is persisted and buffered: of the newest 500
   * buffered events those after the cursor, when it names exactly one of them;
   * otherwise all cycles and then the buffer; bounded as `Newest` says.
   */
  lemma ReplayInFull(codec: Codec, cycles: seq<Cycle>, buffered: seq<Event>, lastEventId: Option<Id>, c: nat)
    ensures var live, replay := LastN(buffered, 500), Selected(codec, cycles, buffered, lastEventId);
            && replay.summary.replayed == |replay.entries| && replay.summary.limit == 500
            && (Resumes(codec, live, lastEventId, c) ==>
                  && replay.summary.resumed && replay.summary.omitted == 0 && c < |live|
                  && replay.entries == Newest(codec, After(live, c)))
            && ((forall i :: !Resumes(codec, live, lastEventId, i)) ==>
                  !replay.summary.resumed && replay.entries == Newest(codec, Everything(cycles, live)))
  {
    var live := LastN(buffered, 500);
    var point := ResumePoint(EventEntries(codec, live, 0, |live|), lastEventId);
    assert Resumes(codec, live, lastEventId, c) ==> c < |live|;
    hide *;
    SummaryOf(codec, cycles, buffered, lastEventId);
    ResumesExactly(codec, live, lastEventId, c);
    ReplayFrom(codec, cycles, buffered, lastEventId);
    if point.Some? {
      ResumesExactly(codec, live, lastEventId, point.value);
    }
  }

  lemma ReplayFrom(codec: Codec, cycles: seq<Cycle>, buffered: seq<Event>, lastEventId: Option<Id>)
    ensures var live := LastN(buffered, 500);
            var point := ResumePoint(EventEntries(codec, live, 0, |live|), lastEventId);
            Selected(codec, cycles, buffered, lastEventId).entries
            == Newest(codec, if point.Some? then After(live, point.value) else Everything(cycles, live))
  {
    var live := LastN(buffered, 500);
    var point := ResumePoint(EventEntries(codec, live, 0, |live|), lastEventId);
    CandidatesTold(codec, cycles, live, point);
    LazyEqualsEager(codec, cycles, buffered, lastEventId);
    hide Told, KeepLast, After, Everything, ResumePoint, Selected, EventEntries, Candidates;
  }

  lemma CandidatesTold(codec: Codec, cycles: seq<Cycle>, live: seq<Event>, point: Option<nat>)
    requires point.Some? ==> point.value < |live|
    ensures Candidates(codec, cycles, live, point)
         == Told(codec, if point.Some? then After(live, point.value) else Everything(cycles, live))
  {
    hide Told, CycleBodies, EventBodies, OldestFirst, NewestCopies, EventEntries;
    if point.Some? {
      BufferTold(codec, live, point.value + 1, |live|);
      assert live[point.value + 1..|live|] == live[point.value + 1..];
    } else {
      CyclesTold(codec, cycles, |cycles|, NewestCopies(cycles, live));
      BufferTold(codec, live, 0, |live|);
      assert live[0..|live|] == live;
      ToldAppend(codec, CycleBodies(cycles, |cycles|, NewestCopies(cycles, live)), EventBodies(live, |live|, {}));
    }
  }

  lemma SummaryOf(codec: Codec, cycles: seq<Cycle>, buffered: seq<Event>, lastEventId: Option<Id>)
    ensures var live, replay := LastN(buffered, 500), Selected(codec, cycles, buffered, lastEventId);
            var point := ResumePoint(EventEntries(codec, live, 0, |live|), lastEventId);
            && replay.summary.replayed == |replay.entries| && replay.summary.limit == 500
            && replay.summary.resumed == point.Some? && (point.Some? ==> replay.summary.omitted == 0)
  {
  }
}
