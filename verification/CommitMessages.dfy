/** How commit messages are read (agent-worker/src/commitUtils.ts, and git's notion of subject and body). */
module CommitMessages {
  import opened Seqs
  import opened Text

  const KEY := "Change-Id:"

  /** Where `^` and `$` match with the `m` flag. */
  predicate IsTerminator(c: char) {
    c == '\n' || c == '\r' || c as int == 0x2028 || c as int == 0x2029
  }

  predicate IsHex(c: char) {
    '0' <= c <= '9' || 'a' <= c <= 'f'
  }

  predicate AllHex(s: string) {
    s == "" || (IsHex(s[|s| - 1]) && AllHex(s[..|s| - 1]))
  }

  predicate AllWhitespace(s: string) {
    s == "" || (IsWhitespace(s[|s| - 1]) && AllWhitespace(s[..|s| - 1]))
  }

  /** What `I[0-9a-f]*` has matched so far. */
  predicate IsIdPrefix(s: string) {
    if |s| <= 1 then s == "I" else IsHex(s[|s| - 1]) && IsIdPrefix(s[..|s| - 1])
  }

  predicate IsChangeId(s: string) {
    |s| == 41 && IsIdPrefix(s)
  }

  // ---------------------------------------------------------------------------
  // /^Change-Id:\s+(I[0-9a-f]{40})\s*$/m, one character at a time
  // ---------------------------------------------------------------------------

  datatype Scan =
    | Skipping                      // inside a line that cannot match any more
    | InKey(n: nat)                 // at a line start, the first n characters of the key matched
    | InGap(lineStart: bool)        // key and at least one whitespace character matched
    | InId(id: string)
    | InTail(id: string)            // id complete, only whitespace since
    | Found(id: string)

  function Restart(lineStart: bool, c: char): Scan {
    if IsTerminator(c) then InKey(0)
    else if lineStart && c == KEY[0] then InKey(1)
    else Skipping
  }

  function Advance(st: Scan, c: char): Scan {
    match st
    case Skipping => Restart(false, c)
    case InKey(n) =>
      if n < |KEY| then if c == KEY[n] then InKey(n + 1) else Restart(n == 0, c)
      else if IsWhitespace(c) then InGap(IsTerminator(c))
      else Restart(false, c)
    case InGap(lineStart) =>
      if IsWhitespace(c) then InGap(IsTerminator(c))
      else if c == 'I' then InId("I")
      else Restart(lineStart, c)
    case InId(id) =>
      if !IsHex(c) then Restart(false, c)
      else if |id| < 40 then InId(id + [c])
      else InTail(id + [c])
    case InTail(id) =>
      if IsTerminator(c) then Found(id) else if IsWhitespace(c) then st else Restart(false, c)
    case Found(_) => st
  }

  function ScanFrom(st: Scan, s: string): Scan {
    if s == "" then st else Advance(ScanFrom(st, s[..|s| - 1]), s[|s| - 1])
  }

  function Accepted(st: Scan): Option<string> {
    match st
    case InTail(id) => Some(id)
    case Found(id) => Some(id)
    case _ => None
  }

  /** The Change-Id a body carries: the first match of the pattern. */
  function ChangeIdIn(body: string): Option<string> {
    Accepted(ScanFrom(InKey(0), body))
  }

  lemma {:induction false} ScanAppend(st: Scan, a: string, b: string)
    ensures ScanFrom(st, a + b) == ScanFrom(ScanFrom(st, a), b)
    decreases |b|
  {
    if b == "" {
      AppendNothing(a);
    } else {
      ScanAppend(st, a, b[..|b| - 1]);
      AppendFromLast(a, b);
    }
  }

  lemma ScanPush(st: Scan, s: string, c: char)
    ensures ScanFrom(st, s + [c]) == Advance(ScanFrom(st, s), c)
  {
    InitOfPush(s, c);
  }

  /** The states a scan can be in. */
  predicate Sane(st: Scan) {
    match st
    case InKey(n) => n <= |KEY|
    case InId(id) => |id| <= 40 && IsIdPrefix(id)
    case InTail(id) => IsChangeId(id)
    case Found(id) => IsChangeId(id)
    case _ => true
  }

  lemma AdvanceSane(st: Scan, c: char)
    requires Sane(st)
    ensures Sane(Advance(st, c))
  {
    if st.InId? {
      InitOfPush(st.id, c);
    }
  }

  lemma {:induction false} ScanSane(st: Scan, s: string)
    requires Sane(st)
    ensures Sane(ScanFrom(st, s))
  {
    if s != "" {
      ScanSane(st, s[..|s| - 1]);
      AdvanceSane(ScanFrom(st, s[..|s| - 1]), s[|s| - 1]);
    }
  }

  // ---------------------------------------------------------------------------
  // The scan decides the pattern
  // ---------------------------------------------------------------------------

  /** A match of the pattern inside `s`, at a line start and up to a line end. */
  datatype Match = Match(pre: string, gap: string, id: string, blank: string, post: string) {
    function Text(): string {
      pre + KEY + gap + id + blank + post
    }

    predicate IsOne() {
      && (pre == "" || IsTerminator(pre[|pre| - 1]))
      && gap != "" && AllWhitespace(gap)
      && IsChangeId(id)
      && AllWhitespace(blank)
      && (post == "" || IsTerminator(post[0]))
    }
  }

  lemma {:induction false} GapScanned(st: Scan, gap: string)
    requires gap != "" && AllWhitespace(gap) && (st == InKey(|KEY|) || st.InGap?)
    ensures ScanFrom(st, gap).InGap?
  {
    if |gap| > 1 {
      GapScanned(st, gap[..|gap| - 1]);
    } else {
      assert gap[..0] == "";
    }
  }

  lemma {:induction false} IdScanned(lineStart: bool, id: string)
    requires IsIdPrefix(id) && |id| <= 41
    ensures ScanFrom(InGap(lineStart), id) == if |id| <= 40 then InId(id) else InTail(id)
  {
    if |id| > 1 {
      IdScanned(lineStart, id[..|id| - 1]);
      InitLast(id);
    } else {
      assert id[..0] == "" && id == "I";
    }
  }

  lemma {:induction false} BlankScanned(id: string, blank: string)
    requires AllWhitespace(blank)
    ensures ScanFrom(InTail(id), blank) in {InTail(id), Found(id)}
  {
    if blank != "" {
      BlankScanned(id, blank[..|blank| - 1]);
    }
  }

  lemma {:induction false} FoundStays(id: string, s: string)
    ensures ScanFrom(Found(id), s) == Found(id)
  {
    if s != "" {
      FoundStays(id, s[..|s| - 1]);
    }
  }

  lemma {:induction false} KeyScanned(st: Scan, n: nat)
    requires 1 <= n <= |KEY| && (st == InKey(0) || st == InGap(true))
    ensures ScanFrom(st, KEY[..n]) == InKey(n)
  {
    if n > 1 {
      KeyScanned(st, n - 1);
    }
    TakeTake(KEY, n, n - 1);
    assert KEY[..0] == "";
  }

  /** After a line break a scan has found its match or starts a line. */
  lemma AfterBreak(st: Scan, c: char)
    requires IsTerminator(c)
    ensures Advance(st, c).Found? || Advance(st, c) == InKey(0) || Advance(st, c) == InGap(true)
    ensures Accepted(st).None? ==> !Advance(st, c).Found?
    ensures Accepted(st).Some? ==> Advance(st, c) == Found(Accepted(st).value)
  {
  }

  /** From a line start, the key, a gap, an id and the end of the line are accepted. */
  lemma LineAccepted(st: Scan, m: Match)
    requires (st == InKey(0) || st == InGap(true)) && m.IsOne()
    ensures Accepted(ScanFrom(st, KEY + m.gap + m.id + m.blank + m.post)) == Some(m.id)
  {
    KeyScanned(st, |KEY|);
    assert KEY[..|KEY|] == KEY;
    ScanAppend(st, KEY, m.gap);
    GapScanned(InKey(|KEY|), m.gap);
    var gapped := ScanFrom(InKey(|KEY|), m.gap);
    ScanAppend(st, KEY + m.gap, m.id);
    IdScanned(gapped.lineStart, m.id);
    ScanAppend(st, KEY + m.gap + m.id, m.blank);
    BlankScanned(m.id, m.blank);
    ScanAppend(st, KEY + m.gap + m.id + m.blank, m.post);
    PostAccepted(ScanFrom(InTail(m.id), m.blank), m.id, m.post);
  }

  lemma PostAccepted(st: Scan, id: string, post: string)
    requires st in {InTail(id), Found(id)} && (post == "" || IsTerminator(post[0]))
    ensures Accepted(ScanFrom(st, post)) == Some(id)
  {
    if post != "" {
      assert post == [post[0]] + post[1..];
      ScanAppend(st, [post[0]], post[1..]);
      assert [post[0]][..0] == "";
      assert ScanFrom(st, [post[0]]) == Found(id);
      FoundStays(id, post[1..]);
    }
  }

  /** Completeness: a body with a match of the pattern has a Change-Id. */
  lemma MatchIsFound(m: Match)
    requires m.IsOne()
    ensures ChangeIdIn(m.Text()).Some?
    ensures ChangeIdIn(m.pre).None? ==> ChangeIdIn(m.Text()) == Some(m.id)
  {
    var rest := KEY + m.gap + m.id + m.blank + m.post;
    MatchText(m);
    ScanAppend(InKey(0), m.pre, rest);
    var st := ScanFrom(InKey(0), m.pre);
    if m.pre != "" {
      AfterBreak(ScanFrom(InKey(0), m.pre[..|m.pre| - 1]), m.pre[|m.pre| - 1]);
    }
    if st.Found? {
      FoundStays(st.id, rest);
    } else {
      LineAccepted(st, m);
    }
  }

  lemma MatchText(m: Match)
    ensures m.Text() == m.pre + (KEY + m.gap + m.id + m.blank + m.post)
  {
    AppendAssociative(m.pre, KEY, m.gap);
    AppendAssociative(m.pre, KEY + m.gap, m.id);
    AppendAssociative(m.pre, KEY + m.gap + m.id, m.blank);
    AppendAssociative(m.pre, KEY + m.gap + m.id + m.blank, m.post);
  }

  /** What the scan's state says about the text read so far. */
  ghost predicate Explains(st: Scan, s: string, m: Match) {
    && (m.pre == "" || IsTerminator(m.pre[|m.pre| - 1])) && AllWhitespace(m.gap) && AllWhitespace(m.blank)
    && ChangeIdIn(m.pre).None?
    && match st
       case Skipping => true
       case InKey(n) => n <= |KEY| && s == m.pre + KEY[..n]
       case InGap(lineStart) => m.gap != "" && s == m.pre + KEY + m.gap && (lineStart <==> IsTerminator(m.gap[|m.gap| - 1]))
       case InId(id) => m.gap != "" && m.id == id && s == m.pre + KEY + m.gap + m.id
       case InTail(id) => m.gap != "" && m.id == id && m.post == "" && s == m.pre + KEY + m.gap + m.id + m.blank
       case Found(id) => m.gap != "" && m.id == id && m.post != "" && IsTerminator(m.post[0]) && s == m.Text()
  }

  /** A new match attempt begins after a line break. */
  lemma ExplainRestart(s: string, lineStart: bool, c: char) returns (next: Match)
    requires ChangeIdIn(s).None? && (lineStart ==> s == "" || IsTerminator(s[|s| - 1]))
    requires IsTerminator(c) ==> ChangeIdIn(s + [c]).None?
    ensures Explains(Restart(lineStart, c), s + [c], next)
  {
    if IsTerminator(c) {
      next := Match(s + [c], "", "", "", "");
      InitOfPush(s, c);
      assert KEY[..0] == "";
      AppendNothing(s + [c]);
    } else if lineStart && c == KEY[0] {
      next := Match(s, "", "", "", "");
      assert KEY[..1] == [c];
    } else {
      next := Match("", "", "", "", "");
    }
  }

  lemma KeyPush(pre: string, n: nat)
    requires n < |KEY|
    ensures pre + KEY[..n] + [KEY[n]] == pre + KEY[..n + 1]
  {
    AppendAssociative(pre, KEY[..n], [KEY[n]]);
    SlicePush(KEY, 0, n);
    assert KEY[0..n] == KEY[..n] && KEY[0..n + 1] == KEY[..n + 1];
  }

  lemma ExplainKey(n: nat, s: string, c: char, m: Match) returns (next: Match)
    requires InKey(n) == ScanFrom(InKey(0), s) && Explains(InKey(n), s, m)
    ensures Explains(Advance(InKey(n), c), s + [c], next)
  {
    if n < |KEY| && c == KEY[n] {
      next := m;
      ExplainInKey(n, s, c, m);
    } else if n == |KEY| && IsWhitespace(c) {
      next := ExplainAfterKey(s, c, m);
    } else {
      ScanPush(InKey(0), s, c);
      assert KEY[..0] == "";
      AppendNothing(m.pre);
      hide ScanFrom, AllWhitespace;
      next := ExplainRestart(s, n == 0, c);
    }
  }

  lemma ExplainInKey(n: nat, s: string, c: char, m: Match)
    requires Explains(InKey(n), s, m) && n < |KEY| && c == KEY[n]
    ensures Explains(Advance(InKey(n), c), s + [c], m)
  {
    assert Advance(InKey(n), c) == InKey(n + 1);
    KeyPush(m.pre, n);
    hide ScanFrom, AllWhitespace, Accepted, Advance, KEY;
  }

  lemma ExplainAfterKey(s: string, c: char, m: Match) returns (next: Match)
    requires Explains(InKey(|KEY|), s, m) && IsWhitespace(c)
    ensures Explains(Advance(InKey(|KEY|), c), s + [c], next)
  {
    next := m.(gap := [c]);
    assert Advance(InKey(|KEY|), c) == InGap(IsTerminator(c));
    assert AllWhitespace([c]) by {
      assert [c][..0] == "";
    }
    WholeSlice(KEY);
    hide ScanFrom, AllWhitespace, Accepted, Advance, KEY, IsWhitespace;
  }

  lemma WholeSlice(s: string)
    ensures s[..|s|] == s
  {
  }

  lemma ExplainGap(lineStart: bool, s: string, c: char, m: Match) returns (next: Match)
    requires InGap(lineStart) == ScanFrom(InKey(0), s) && Explains(InGap(lineStart), s, m)
    ensures Explains(Advance(InGap(lineStart), c), s + [c], next)
  {
    ScanPush(InKey(0), s, c);
    if IsWhitespace(c) {
      next := m.(gap := m.gap + [c]);
      InitOfPush(m.gap, c);
      AppendAssociative(m.pre + KEY, m.gap, [c]);
    } else if c == 'I' {
      next := m.(id := "I");
    } else {
      assert s[|s| - 1] == m.gap[|m.gap| - 1];
      next := ExplainRestart(s, lineStart, c);
    }
  }

  lemma PushOnto(head: string, text: string, c: char)
    ensures head + text + [c] == head + (text + [c]) == head + (text + [c]) + ""
  {
    AppendAssociative(head, text, [c]);
    AppendNothing(head + (text + [c]));
  }

  lemma ExplainHex(id: string, s: string, c: char, m: Match)
    requires Explains(InId(id), s, m) && IsHex(c)
    ensures Explains(Advance(InId(id), c), s + [c], Match(m.pre, m.gap, id + [c], "", ""))
  {
    PushOnto(m.pre + KEY + m.gap, id, c);
    hide ChangeIdIn, ScanFrom, IsTerminator, IsWhitespace;
  }

  lemma ExplainId(id: string, s: string, c: char, m: Match) returns (next: Match)
    requires InId(id) == ScanFrom(InKey(0), s) && Explains(InId(id), s, m)
    ensures Explains(Advance(InId(id), c), s + [c], next)
  {
    if IsHex(c) {
      hide *;
      ExplainHex(id, s, c, m);
      next := Match(m.pre, m.gap, id + [c], "", "");
    } else {
      ScanPush(InKey(0), s, c);
      next := ExplainRestart(s, false, c);
    }
  }

  lemma ExplainTail(id: string, s: string, c: char, m: Match) returns (next: Match)
    requires InTail(id) == ScanFrom(InKey(0), s) && Explains(InTail(id), s, m)
    ensures Explains(Advance(InTail(id), c), s + [c], next)
  {
    if IsTerminator(c) {
      next := m.(post := [c]);
    } else if IsWhitespace(c) {
      next := m.(blank := m.blank + [c]);
      InitOfPush(m.blank, c);
      AppendAssociative(m.pre + KEY + m.gap + m.id, m.blank, [c]);
    } else {
      next := Match("", "", "", "", "");
    }
  }

  lemma ExplainFound(id: string, s: string, c: char, m: Match) returns (next: Match)
    requires Explains(Found(id), s, m)
    ensures Explains(Found(id), s + [c], next)
  {
    next := m.(post := m.post + [c]);
    AppendAssociative(m.pre + KEY + m.gap + m.id + m.blank, m.post, [c]);
  }

  lemma ExplainStep(st: Scan, s: string, c: char, m: Match) returns (next: Match)
    requires st == ScanFrom(InKey(0), s) && Explains(st, s, m)
    ensures Explains(Advance(st, c), s + [c], next)
  {
    match st
    case Skipping =>
      ScanPush(InKey(0), s, c);
      next := ExplainRestart(s, false, c);
    case InKey(n) => next := ExplainKey(n, s, c, m);
    case InGap(lineStart) => next := ExplainGap(lineStart, s, c, m);
    case InId(id) => next := ExplainId(id, s, c, m);
    case InTail(id) => next := ExplainTail(id, s, c, m);
    case Found(id) => next := ExplainFound(id, s, c, m);
  }

  lemma {:induction false} ScanExplained(s: string) returns (m: Match)
    ensures Explains(ScanFrom(InKey(0), s), s, m)
  {
    if s == "" {
      m := Match("", "", "", "", "");
      assert KEY[..0] == "";
    } else {
      var front, c := s[..|s| - 1], s[|s| - 1];
      var before := ScanExplained(front);
      ScanSane(InKey(0), front);
      m := ExplainStep(ScanFrom(InKey(0), front), front, c, before);
      InitLast(s);
    }
  }

  /** Soundness: a Change-Id is read only from a match of the pattern, and from the first one. */
  lemma FoundIsFirstMatch(body: string) returns (m: Match)
    requires ChangeIdIn(body).Some?
    ensures m.IsOne() && m.Text() == body && m.id == ChangeIdIn(body).value && ChangeIdIn(m.pre).None?
  {
    m := ScanExplained(body);
    ScanSane(InKey(0), body);
    AppendNothing(m.pre + KEY + m.gap + m.id + m.blank);
  }

  // ---------------------------------------------------------------------------
  // Appending a line
  // ---------------------------------------------------------------------------

  /** A body's Change-Id survives whatever is appended on new lines. */
  lemma AppendedLineKeepsId(body: string, line: string)
    requires ChangeIdIn(body).Some?
    ensures ChangeIdIn(body + "\n" + line) == ChangeIdIn(body)
  {
    ScanPush(InKey(0), body, '\n');
    AfterBreak(ScanFrom(InKey(0), body), '\n');
    ScanAppend(InKey(0), body + "\n", line);
    FoundStays(ChangeIdIn(body).value, line);
  }

  /** A body without one, then a break: the appended Change-Id line decides. */
  lemma AppendedIdDecides(body: string, id: string)
    requires ChangeIdIn(body).None?
    ensures ChangeIdIn(body + "\n" + ("Change-Id: " + id)) == ChangeIdIn("Change-Id: " + id)
  {
    var line := "Change-Id: " + id;
    ScanPush(InKey(0), body, '\n');
    AfterBreak(ScanFrom(InKey(0), body), '\n');
    ScanAppend(InKey(0), body + "\n", line);
    IdLineFromLineStart(ScanFrom(InKey(0), body + "\n"), id);
  }

  lemma IdLineFromLineStart(st: Scan, id: string)
    requires st == InKey(0) || st == InGap(true)
    ensures ScanFrom(st, "Change-Id: " + id) == ScanFrom(InKey(0), "Change-Id: " + id)
  {
    assert "Change-Id: " == KEY + " ";
    AppendAssociative(KEY, " ", id);
    ScanAppend(st, KEY, " " + id);
    ScanAppend(InKey(0), KEY, " " + id);
    KeyScanned(st, |KEY|);
    KeyScanned(InKey(0), |KEY|);
    assert KEY[..|KEY|] == KEY;
  }

  /** A well-formed Change-Id on a line of its own is read back. */
  lemma IdLineReadsBack(id: string)
    requires IsChangeId(id)
    ensures ChangeIdIn("Change-Id: " + id) == Some(id)
  {
    var m := Match("", " ", id, "", "");
    assert " "[..0] == "";
    MatchIsFound(m);
    AppendNothing(KEY + " " + id);
    assert "" + KEY == KEY && KEY + " " == "Change-Id: ";
  }

  lemma {:induction false} TrailingWhitespaceIgnored(s: string)
    ensures ChangeIdIn(TrimEnd(s)) == ChangeIdIn(s)
  {
    if s != "" && IsWhitespace(s[|s| - 1]) {
      TrailingWhitespaceIgnored(s[..|s| - 1]);
    }
  }

  // ---------------------------------------------------------------------------
  // The characters of the pattern
  // ---------------------------------------------------------------------------

  lemma {:induction false} IdPrefixIs(s: string)
    ensures IsIdPrefix(s) <==> s != "" && s[0] == 'I' && forall k | 1 <= k < |s| :: '0' <= s[k] <= '9' || 'a' <= s[k] <= 'f'
  {
    if |s| > 1 {
      IdPrefixIs(s[..|s| - 1]);
    }
  }

  /** A Change-Id is an `I` and forty lower-case hexadecimal digits. */
  lemma ChangeIdIs(s: string)
    ensures IsChangeId(s) <==> |s| == 41 && s[0] == 'I' && forall k | 1 <= k < 41 :: '0' <= s[k] <= '9' || 'a' <= s[k] <= 'f'
  {
    IdPrefixIs(s);
  }

  /** Lines end at the four line terminators of ECMAScript. */
  lemma TerminatorIs(c: char)
    ensures IsTerminator(c) <==> c in {'\n', '\r', 0x2028 as char, 0x2029 as char}
  {
  }

  lemma {:induction false} SpaceIs(s: string)
    ensures AllWhitespace(s) <==> forall k | 0 <= k < |s| :: IsWhitespace(s[k])
  {
    if s != "" {
      SpaceIs(s[..|s| - 1]);
    }
  }
}
