/** Change-Id injection is conservative, total exactly for usable ids, and then idempotent (agent-worker/src/commitUtils.ts). */
module CommitUtilsProperties {
  import opened Seqs
  import opened Text
  import opened CommitMessages
  import opened CommitCleanup
  import opened CommitUtils

  // ---------------------------------------------------------------------------
  // Reading an appended line
  // ---------------------------------------------------------------------------

  /** A message that starts with something visible. */
  predicate Begins(s: string) {
    s != "" && !IsWhitespace(s[0])
  }

  lemma {:induction false} CutAppend(st: Cut, a: string, b: string)
    ensures CutFrom(st, a + b) == CutFrom(CutFrom(st, a), b)
    decreases |b|
  {
    if b == "" {
      AppendNothing(a);
    } else {
      CutAppend(st, a, b[..|b| - 1]);
      AppendFromLast(a, b);
    }
  }

  lemma {:induction false} BodyGrows(text: string, s: string)
    ensures CutFrom(Body(text), s) == Body(text + s)
  {
    if s == "" {
      AppendNothing(text);
    } else {
      BodyGrows(text, s[..|s| - 1]);
      InitLast(s);
      AppendAssociative(text, s[..|s| - 1], [s[|s| - 1]]);
    }
  }

  lemma BetweenToBody(line: string)
    requires line != "" && !IsWhitespace(line[0])
    ensures CutFrom(Between, line) == Body(line)
  {
    assert line == [line[0]] + line[1..];
    CutAppend(Between, [line[0]], line[1..]);
    assert [line[0]][..0] == "";
    BodyGrows([line[0]], line[1..]);
  }

  /** How the two readers of a message's structure relate. */
  predicate Agree(cut: Cut, trailer: Trailer) {
    && (trailer.OneBreak? ==> cut == Subject(true) || cut.Between? || cut.Body?)
    && (trailer.TwoBreaks? ==> cut.Between? || cut.Body?)
    && (trailer.InToken? || trailer.AfterColon? || trailer.Seen? ==> cut.Body?)
    && !cut.Leading?
  }

  lemma {:induction false} ReadersAgree(s: string)
    requires Begins(s)
    ensures Agree(CutFrom(Leading, s), TrailerFrom(NoBreak, s))
  {
    if |s| > 1 {
      ReadersAgree(s[..|s| - 1]);
    } else {
      assert s[..|s| - 1] == "" && s[|s| - 1] == s[0];
      assert TrailerFrom(NoBreak, s) == TrailerStep(NoBreak, s[0]) == NoBreak;
    }
  }

  /** The text of a message's body, as far as it was read; none while the message has no body. */
  function BodyStart(message: string): Option<string> {
    match CutFrom(Leading, message)
    case Body(text) => Some(text)
    case _ => None
  }

  /** A line added to a message that has a body goes to its end, on a new line. */
  lemma AddedLineInBody(message: string, line: string) returns (sep: string)
    ensures WithLine(message, line) == message + sep + line && sep in {"\n", "\n\n"}
    ensures BodyStart(message).Some? ==> BodyStart(WithLine(message, line)) == Some(BodyStart(message).value + sep + line)
  {
    sep := if HasTrailerBlock(message) then "\n" else "\n\n";
    var cut := CutFrom(Leading, message);
    CutAppend(Leading, message + sep, line);
    CutAppend(Leading, message, sep);
    if cut.Body? {
      BodyGrows(cut.text, sep);
      BodyGrows(cut.text + sep, line);
    }
  }

  /** One added to a message without a body becomes the whole body. */
  lemma AddedLineIsBody(message: string, line: string)
    requires Begins(message) && Begins(line) && BodyStart(message).None?
    ensures BodyStart(WithLine(message, line)) == Some(line)
  {
    ReadersAgree(message);
    CutAppend(Leading, message + "\n\n", line);
    CutAppend(Leading, message, "\n\n");
    SeparatorOpensBody(CutFrom(Leading, message), message);
    BetweenToBody(line);
  }

  lemma SeparatorOpensBody(cut: Cut, message: string)
    requires cut.Subject? || cut.Between?
    ensures CutFrom(cut, "\n\n") == Between
  {
    assert "\n\n"[..1] == "\n" && "\n"[..0] == "";
    assert CutFrom(cut, "\n") == CutStep(cut, '\n');
  }

  /** Trailing whitespace of a message does not affect the Change-Id read from it. */
  lemma {:induction false} TrimmedMessageReads(message: string)
    requires Begins(message)
    ensures ChangeIdOf(TrimEnd(message)) == ChangeIdOf(message)
  {
    if IsWhitespace(message[|message| - 1]) {
      var front, c := message[..|message| - 1], message[|message| - 1];
      TrimmedMessageReads(front);
      ReadersAgree(front);
      match CutFrom(Leading, front)
      case Body(text) =>
        TrailingWhitespaceIgnored(text);
        TrailingWhitespaceIgnored(text + [c]);
        InitOfPush(text, c);
      case _ =>
    }
  }

  lemma ReadThroughStart(message: string)
    ensures ChangeIdOf(message) == if BodyStart(message).Some? then ChangeIdIn(BodyStart(message).value) else None
  {
    match CutFrom(Leading, message)
    case Body(text) => TrailingWhitespaceIgnored(text);
    case _ =>
  }

  lemma TwoBreaks(text: string, line: string)
    ensures text + "\n\n" + line == text + "\n" + ("\n" + line)
  {
    assert "\n\n" == "\n" + "\n";
    AppendAssociative(text, "\n", "\n");
    AppendAssociative(text + "\n", "\n", line);
  }

  /** Adding a line of any kind keeps an existing Change-Id. */
  lemma AddedLineKeepsId(message: string, line: string)
    requires ChangeIdOf(message).Some?
    ensures ChangeIdOf(WithLine(message, line)) == ChangeIdOf(message)
  {
    hide *;
    var sep := AddedLineInBody(message, line);
    ReadThroughStart(message);
    ReadThroughStart(WithLine(message, line));
    var text := BodyStart(message).value;
    AppendedLineKeepsId(text, line);
    AppendedLineKeepsId(text, "\n" + line);
    TwoBreaks(text, line);
  }

  lemma BrokenBody(text: string)
    requires ChangeIdIn(text).None?
    ensures ChangeIdIn(text + "\n").None?
  {
    ScanPush(InKey(0), text, '\n');
    AfterBreak(ScanFrom(InKey(0), text), '\n');
  }

  lemma IdLineBegins(id: string)
    ensures Begins("Change-Id: " + id)
  {
    assert ("Change-Id: " + id)[0] == 'C';
  }

  /** Adding a Change-Id line to a message without one: the line decides what is read. */
  lemma AddedIdDecides(message: string, id: string)
    requires Begins(message) && ChangeIdOf(message).None?
    ensures ChangeIdOf(WithLine(message, "Change-Id: " + id)) == ChangeIdIn("Change-Id: " + id)
  {
    hide *;
    var line := "Change-Id: " + id;
    IdLineBegins(id);
    ReadThroughStart(message);
    ReadThroughStart(WithLine(message, line));
    if BodyStart(message).Some? {
      var sep := AddedLineInBody(message, line);
      var text := BodyStart(message).value;
      AppendedIdDecides(text, id);
      BrokenBody(text);
      AppendedIdDecides(text + "\n", id);
      OneMoreBreak(text);
    } else {
      AddedLineIsBody(message, line);
    }
  }

  lemma OneMoreBreak(text: string)
    ensures text + "\n" + "\n" == text + "\n\n"
  {
    assert "\n\n" == "\n" + "\n";
    AppendAssociative(text, "\n", "\n");
  }

  // ---------------------------------------------------------------------------
  // Reading a message git has cleaned or JavaScript has trimmed
  // ---------------------------------------------------------------------------

  predicate Bodyless(cut: Cut) {
    cut.Subject? || cut.Between?
  }

  lemma CutOne(cut: Cut, c: char)
    ensures CutFrom(cut, [c]) == CutStep(cut, c)
  {
    InitOfPush("", c);
  }

  lemma CutPush(cut: Cut, s: string, c: char)
    ensures CutFrom(cut, s + [c]) == CutStep(CutFrom(cut, s), c)
  {
    InitOfPush(s, c);
  }

  lemma CutBreaks(cut: Cut)
    ensures CutFrom(cut, "") == cut && CutFrom(cut, "\n") == CutStep(cut, '\n')
    ensures CutFrom(cut, "\n\n") == CutStep(CutStep(cut, '\n'), '\n')
  {
    assert "\n"[..0] == "" && "\n\n"[..1] == "\n";
  }

  lemma {:induction false} BlanksInCut(cut: Cut, spaces: string)
    requires Bodyless(cut) && AllGitSpace(spaces)
    ensures CutFrom(cut, spaces) == cut
         || (cut.Subject? && CutFrom(cut, spaces) == Subject(cut.blank))
  {
    if spaces != "" {
      BlanksInCut(cut, spaces[..|spaces| - 1]);
    }
  }

  /** Where reading a text stands against reading what is kept of it. */
  ghost predicate CutAlike(full: Cut, kept: Cut, cl: Cleaning) {
    match kept
    case Body(text) => full.Body? && CleanFrom(NEW, full.text) == Cleaning(text, cl.breaks, cl.spaces) && text != ""
    case Leading => false
    case _ =>
      && (kept == Subject(false) || kept.Between?)
      && full == CutFrom(CutFrom(kept, Gap(cl)), cl.spaces) && Bodyless(full)
  }

  lemma CutAlikeBreak(full: Cut, kept: Cut, cl: Cleaning)
    requires CutAlike(full, kept, cl) && cl.kept != "" && AllGitSpace(cl.spaces)
    ensures CutAlike(CutStep(full, '\n'), kept, CleanStep(cl, '\n'))
  {
    if kept.Body? {
      CleanPush(NEW, full.text, '\n');
    } else {
      CutBreaks(kept);
      CutBreaks(CutFrom(kept, Gap(cl)));
      BlanksInCut(CutFrom(kept, Gap(cl)), cl.spaces);
      CutBreaks(CutFrom(kept, Gap(CleanStep(cl, '\n'))));
    }
  }

  lemma CutAlikeSpace(full: Cut, kept: Cut, cl: Cleaning, c: char)
    requires CutAlike(full, kept, cl) && IsGitSpace(c)
    ensures CutAlike(CutStep(full, c), kept, CleanStep(cl, c))
  {
    if kept.Body? {
      BodySpace(full, kept, cl, c);
      hide *;
    } else {
      SubjectSpace(full, kept, cl, c);
      hide *;
    }
  }

  lemma BodySpace(full: Cut, kept: Cut, cl: Cleaning, c: char)
    requires CutAlike(full, kept, cl) && IsGitSpace(c) && kept.Body?
    ensures CutAlike(CutStep(full, c), kept, CleanStep(cl, c))
  {
    CleanPush(NEW, full.text, c);
    hide CleanFrom, CutFrom, Gap, IsWhitespace;
  }

  lemma SubjectSpace(full: Cut, kept: Cut, cl: Cleaning, c: char)
    requires CutAlike(full, kept, cl) && IsGitSpace(c) && !kept.Body?
    ensures CutAlike(CutStep(full, c), kept, CleanStep(cl, c))
  {
    CutPush(CutFrom(kept, Gap(cl)), cl.spaces, c);
    assert Bodyless(CutStep(full, c));
    assert Gap(CleanStep(cl, c)) == Gap(cl) && CleanStep(cl, c).spaces == cl.spaces + [c];
    hide CleanFrom, CutFrom, Gap, CutStep, CleanStep;
  }

  lemma CutAlikeInBody(full: Cut, kept: Cut, cl: Cleaning, c: char)
    requires CutAlike(full, kept, cl) && kept.Body? && cl.kept != "" && c != '\n' && !IsGitSpace(c)
    ensures CutAlike(CutStep(full, c), Body(kept.text + Gap(cl) + cl.spaces + [c]), CleanStep(cl, c))
  {
    CleanPush(NEW, full.text, c);
  }

  lemma CutAlikeAtBody(full: Cut, kept: Cut, cl: Cleaning, c: char)
    requires CutAlike(full, kept, cl) && !kept.Body? && c != '\n' && !IsGitSpace(c)
    ensures CutAlike(CutStep(full, c), CutStep(full, c), CleanStep(cl, c))
  {
    CutBreaks(CutStep(full, c));
    CleanPush(NEW, "", c);
    AppendNothing([c]);
  }

  lemma CutAlikeOther(full: Cut, kept: Cut, cl: Cleaning, c: char)
    requires CutAlike(full, kept, cl) && cl.kept != "" && c != '\n' && !IsGitSpace(c) && kept == CutFrom(Leading, cl.kept)
    ensures CutAlike(CutStep(full, c), CutFrom(Leading, CleanStep(cl, c).kept), CleanStep(cl, c))
  {
    CutPush(Leading, cl.kept + Gap(cl) + cl.spaces, c);
    CutAppend(Leading, cl.kept + Gap(cl), cl.spaces);
    CutAppend(Leading, cl.kept, Gap(cl));
    if kept.Body? {
      CutAlikeInBody(full, kept, cl, c);
      BodyGrows(kept.text, Gap(cl));
      BodyGrows(kept.text + Gap(cl), cl.spaces);
      BodyStep(kept.text + Gap(cl) + cl.spaces, c);
    } else {
      CutAlikeAtBody(full, kept, cl, c);
    }
    hide CutFrom, CutStep, CleanFrom, Gap;
  }

  lemma BodyStep(text: string, c: char)
    ensures CutStep(Body(text), c) == Body(text + [c])
  {
  }

  lemma {:induction false} CutCleaned(message: string)
    requires Begins(message)
    ensures var cl := CleanFrom(NEW, message);
            cl.kept != "" && CutAlike(CutFrom(Leading, message), CutFrom(Leading, cl.kept), cl)
  {
    var front, c := message[..|message| - 1], message[|message| - 1];
    if |message| == 1 {
      CleanPush(NEW, "", c);
      CutPush(Leading, "", c);
      assert "" + [c] == [c] == message;
      CutBreaks(Subject(false));
    } else {
      CutCleaned(front);
      var cl := CleanFrom(NEW, front);
      var full, kept := CutFrom(Leading, front), CutFrom(Leading, cl.kept);
      SpacesAreBlank(NEW, front);
      if c == '\n' {
        CutAlikeBreak(full, kept, cl);
      } else if IsGitSpace(c) {
        CutAlikeSpace(full, kept, cl, c);
      } else {
        CutAlikeOther(full, kept, cl, c);
      }
      hide CutAlike, CutStep;
    }
  }

  /** Cleaning a message neither adds, nor loses, nor changes the Change-Id read from it. */
  lemma CleanedMessageReads(message: string)
    requires Begins(message)
    ensures ChangeIdOf(Cleaned(message)) == ChangeIdOf(message)
  {
    var cl := CleanFrom(NEW, message);
    CutCleaned(message);
    ReadThroughStart(message);
    ReadThroughStart(cl.kept);
    if BodyStart(cl.kept).Some? {
      CleanedReadsAlike(BodyStart(message).value);
    }
    hide ChangeIdIn, ChangeIdOf, CleanFrom, CutFrom;
  }

  lemma {:induction false} TrimmedStartCut(message: string)
    ensures CutFrom(Leading, TrimStart(message)) == CutFrom(Leading, message)
  {
    if message != "" && IsWhitespace(message[0]) {
      TrimmedStartCut(message[1..]);
      assert message == [message[0]] + message[1..];
      CutAppend(Leading, [message[0]], message[1..]);
      CutOne(Leading, message[0]);
    }
  }

  predicate NotBlank(message: string) {
    Trim(message) != ""
  }

  lemma TrimmedReads(message: string)
    requires NotBlank(message)
    ensures Begins(Trim(message)) && ChangeIdOf(Trim(message)) == ChangeIdOf(message)
  {
    TrimmedStartCut(message);
    TrimmedMessageReads(TrimStart(message));
  }

  // ---------------------------------------------------------------------------
  // One message
  // ---------------------------------------------------------------------------

  lemma FootedBegins(message: string, footer: string)
    requires Begins(message)
    ensures Begins(Footed(message, footer))
  {
  }

  /** A message's own id survives the footer, whatever the footer is. */
  lemma FootedKeepsId(message: string, footer: string)
    requires ChangeIdOf(message).Some?
    ensures ChangeIdOf(Footed(message, footer)) == ChangeIdOf(message)
  {
    hide ChangeIdOf, WithLine;
    if footer != "" && !Includes(message, footer) {
      AddedLineKeepsId(message, footer);
    }
  }

  /** An id that can be read back from its line; an empty one is never written. */
  predicate Usable(id: string) {
    id != "" && ChangeIdIn("Change-Id: " + id).Some?
  }

  /** The Change-Id a message ends up with: the one it carries once it has its footer, else the one wanted if it reads back. */
  function FinalId(message: string, footer: string, desired: string): Option<string> {
    var footed := ChangeIdOf(Footed(Trim(message), footer));
    if footed.Some? || desired == "" then footed else ChangeIdIn("Change-Id: " + desired)
  }

  lemma AmendedReads(message: string, footer: string, desired: string)
    requires NotBlank(message)
    ensures ChangeIdOf(Amended(message, footer, desired)) == FinalId(message, footer, desired)
  {
    var current := Trim(message);
    var footed := Footed(current, footer);
    TrimmedReads(message);
    FootedBegins(current, footer);
    NewMessageReads(footed, desired);
    var amended := NewMessage(current, footer, desired);
    assert Begins(amended);
    CleanedMessageReads(amended);
    hide ChangeIdOf, ChangeIdIn, Cleaned, Footed, WithLine, Begins, Trim;
  }

  lemma NewMessageReads(footed: string, desired: string)
    requires Begins(footed)
    ensures ChangeIdOf(if desired != "" then WithLine(footed, "Change-Id: " + desired) else footed)
         == if ChangeIdOf(footed).Some? || desired == "" then ChangeIdOf(footed) else ChangeIdIn("Change-Id: " + desired)
  {
    hide ChangeIdOf, ChangeIdIn, WithLine, Begins;
    if desired != "" {
      if ChangeIdOf(footed).Some? {
        AddedLineKeepsId(footed, "Change-Id: " + desired);
      } else {
        AddedIdDecides(footed, desired);
      }
    }
  }

  lemma NewMessageExtends(current: string, footer: string, desired: string) returns (tail: string)
    ensures NewMessage(current, footer, desired) == current + tail
    ensures desired == "" && Includes(current, footer) ==> tail == ""
    ensures desired != "" || (!Includes(current, footer) && Visible(footer) > 0) ==> Visible(tail) > 0
  {
    var footed := Footed(current, footer);
    var a, b := "", "";
    if footer != "" && !Includes(current, footer) {
      a := (if HasTrailerBlock(current) then "\n" else "\n\n") + footer;
      AppendAssociative(current, if HasTrailerBlock(current) then "\n" else "\n\n", footer);
      VisibleAppend(if HasTrailerBlock(current) then "\n" else "\n\n", footer);
    } else {
      AppendNothing(current);
      assert footer == "" ==> Includes(current, footer) by {
        assert EndsWith(current, "");
      }
    }
    if desired != "" {
      var line := "Change-Id: " + desired;
      b := (if HasTrailerBlock(footed) then "\n" else "\n\n") + line;
      AppendAssociative(footed, if HasTrailerBlock(footed) then "\n" else "\n\n", line);
      VisibleAppend(if HasTrailerBlock(footed) then "\n" else "\n\n", line);
      IdLineVisible(desired);
    } else {
      AppendNothing(footed);
      assert Includes(current, "");
    }
    tail := a + b;
    AppendAssociative(current, a, b);
    AppendNothing(a);
    VisibleAppend(a, b);
  }

  lemma IdLineVisible(id: string)
    ensures Visible("Change-Id: " + id) > 0
  {
    VisibleAppend("Change-Id: ", id);
    VisibleAppend("C", "hange-Id: ");
    assert "C" + "hange-Id: " == "Change-Id: ";
    assert "C"[..0] == "" && Visible("C") == 1;
  }

  /** What a message is after the amend: untouched, or its cleaned text followed by what was added. */
  lemma AmendedExtends(message: string, footer: string, desired: string) returns (added: string)
    ensures Amended(message, footer, desired) == message
         || Amended(message, footer, desired) == Cleaned(Trim(message)) + added
  {
    var tail := NewMessageExtends(Trim(message), footer, desired);
    CleanAppend(NEW, Trim(message), tail);
    added := KeptGrows(CleanFrom(NEW, Trim(message)), tail);
    hide CleanFrom, Trim, NewMessage;
  }

  /** Amending a message again leaves it as it is exactly when it needs no id and has its footer. */
  lemma AmendedAgain(message: string, footer: string, desired: string)
    requires footer == "" || NotBlank(footer)
    ensures Amended(message, footer, desired) == message <==> desired == "" && Includes(Trim(message), footer)
  {
    var current := Trim(message);
    var tail := NewMessageExtends(current, footer, desired);
    NothingVisible(footer);
    if desired == "" && Includes(current, footer) {
      AppendNothing(current);
    } else {
      assert footer == "" ==> Includes(current, footer) by {
        assert EndsWith(current, "");
      }
      CleaningKeepsVisible(current + tail);
      VisibleAppend(current, tail);
      TrimStartKeepsVisible(message);
      TrimEndKeepsVisible(TrimStart(message));
      assert Visible(current + tail) > Visible(message);
    }
    hide Visible, Includes, Footed, Cleaned, NewMessage, TrimStart, TrimEnd;
  }

  // ---------------------------------------------------------------------------
  // A whole range of commits
  // ---------------------------------------------------------------------------

  lemma {:induction false} RewrittenAt(sha1: string -> Digest, taskId: string, options: Options, commits: seq<Commit>, n: nat, i: nat)
    requires i < n <= |commits|
    ensures Rewritten(sha1, taskId, options, commits, n)[i]
         == commits[i].(repoKey := DEFAULT_REPO_KEY,
                        message := Amended(commits[i].message, Footer(options), WantedId(sha1, taskId, options, commits[i], i)))
  {
    hide Amended, WantedId, Footer;
    if i < n - 1 {
      RewrittenAt(sha1, taskId, options, commits, n - 1, i);
    }
  }

  predicate Rewrites(options: Options, commits: seq<Commit>) {
    exists k :: 0 <= k < |commits| && NeedsRewrite(commits[k], options)
  }

  /** A range is rewritten as a whole or not at all; in a range left alone every commit has an id. */
  lemma InjectedShape(sha1: string -> Digest, taskId: string, options: Options, commits: seq<Commit>, i: nat)
    requires i < |commits|
    ensures var after := Injected(sha1, taskId, options, commits)[i];
            if Rewrites(options, commits) then
              after == commits[i].(repoKey := DEFAULT_REPO_KEY,
                                   message := Amended(commits[i].message, Footer(options),
                                                      WantedId(sha1, taskId, options, commits[i], i)))
            else after == commits[i] && !NeedsRewrite(commits[i], options)
  {
    RewrittenAt(sha1, taskId, options, commits, |commits|, i);
    hide Amended, WantedId, Footer, Rewritten, NeedsRewrite;
  }

  ghost predicate NoneBlank(commits: seq<Commit>) {
    forall i | 0 <= i < |commits| :: NotBlank(commits[i].message)
  }

  /** Injection of commit `i`, whether or not the range is rewritten: which Change-Id it carries, and what stays of its text. */
  lemma InjectedAt(sha1: string -> Digest, taskId: string, options: Options, commits: seq<Commit>, i: nat)
    requires i < |commits| && NotBlank(commits[i].message)
    ensures var before, after := commits[i].message, Injected(sha1, taskId, options, commits)[i].message;
            && (after == before || exists added :: after == Cleaned(Trim(before)) + added)
            && ChangeIdOf(after) == FinalId(before, Footer(options), DesiredId(sha1, taskId, options, commits[i], i))
            && (ChangeIdOf(before).Some? ==> ChangeIdOf(after) == ChangeIdOf(before))
  {
    var c, footer := commits[i], Footer(options);
    var wanted := WantedId(sha1, taskId, options, c, i);
    InjectedShape(sha1, taskId, options, commits, i);
    AmendedReads(c.message, footer, wanted);
    var added := AmendedExtends(c.message, footer, wanted);
    TrimmedReads(c.message);
    if ChangeIdOf(c.message).Some? {
      FootedKeepsId(Trim(c.message), footer);
    }
    assert NeedsRewrite(c, options) || ChangeIdOf(c.message).Some?;
    hide Amended, DesiredId, Footer, NeedsRewrite, ChangeIdOf, ChangeIdIn, Injected, Cleaned, Trim, Footed, Rewrites;
  }

  /**
   * After injection every commit carries a Change-Id exactly when each one carries one with its footer on, or is given
   * one that can be read back.
   */
  lemma InjectionIsTotalExactly(sha1: string -> Digest, taskId: string, options: Options, commits: seq<Commit>)
    requires NoneBlank(commits)
    ensures var after := Injected(sha1, taskId, options, commits);
            (forall i | 0 <= i < |commits| :: ChangeIdOf(after[i].message).Some?)
            <==> forall i | 0 <= i < |commits| ::
                   || ChangeIdOf(Footed(Trim(commits[i].message), Footer(options))).Some?
                   || Usable(DesiredId(sha1, taskId, options, commits[i], i))
  {
    forall i | 0 <= i < |commits|
      ensures ChangeIdOf(Injected(sha1, taskId, options, commits)[i].message).Some?
         <==> || ChangeIdOf(Footed(Trim(commits[i].message), Footer(options))).Some?
              || Usable(DesiredId(sha1, taskId, options, commits[i], i))
    {
      InjectedAt(sha1, taskId, options, commits, i);
      hide ChangeIdOf, ChangeIdIn, Injected, DesiredId, Footer, Footed, Trim;
    }
    hide ChangeIdOf, Injected, DesiredId, Footer, Footed, Trim, Usable;
  }

  // ---------------------------------------------------------------------------
  // A second injection
  // ---------------------------------------------------------------------------

  /** The footer is found in the stored message, so that it is not added again. */
  predicate FooterStays(message: string, footer: string, wanted: string) {
    Includes(Trim(Amended(message, footer, wanted)), footer)
  }

  /** Nothing is left to add to a message: it has an id or is given none, and its footer is found. */
  predicate Settled(message: string, footer: string, desired: string) {
    && (FinalId(message, footer, desired).Some? || desired == "")
    && FooterStays(message, footer, if ChangeIdOf(message).Some? then "" else desired)
  }

  /** Collecting commits anew may change the key an id is derived from, but not whether there is one. */
  lemma DesiredAgain(sha1: string -> Digest, taskId: string, options: Options, c: Commit, again: Commit, i: nat)
    ensures DesiredId(sha1, taskId, options, again, i) == "" <==> DesiredId(sha1, taskId, options, c, i) == ""
  {
  }

  lemma {:induction false} IncludesGrows(s: string, t: string, f: string)
    requires Includes(s, f)
    ensures Includes(s + t, f)
    decreases |t|
  {
    if t == "" {
      AppendNothing(s);
    } else {
      IncludesGrows(s, t[..|t| - 1], f);
      assert (s + t)[..|s + t| - 1] == s + t[..|t| - 1];
    }
  }

  lemma {:induction false} EndsWithAppended(s: string, f: string)
    ensures EndsWith(s + f, f)
  {
    if f == "" {
      assert EndsWith(s + f, "");
    } else {
      EndsWithAppended(s, f[..|f| - 1]);
      assert (s + f)[..|s + f| - 1] == s + f[..|f| - 1];
    }
  }

  lemma {:induction false} EndsWithMeans(s: string, f: string) returns (a: string)
    requires EndsWith(s, f)
    ensures s == a + f
  {
    if f == "" {
      a := s;
      AppendNothing(s);
    } else {
      a := EndsWithMeans(s[..|s| - 1], f[..|f| - 1]);
      InitLast(s);
      InitLast(f);
      AppendAssociative(a, f[..|f| - 1], [f[|f| - 1]]);
    }
  }

  lemma {:induction false} IncludesMeans(s: string, f: string) returns (a: string, b: string)
    requires Includes(s, f)
    ensures s == a + f + b
  {
    if EndsWith(s, f) {
      a := EndsWithMeans(s, f);
      b := "";
      AppendNothing(a + f);
    } else {
      a, b := IncludesMeans(s[..|s| - 1], f);
      InitLast(s);
      AppendAssociative(a + f, b, [s[|s| - 1]]);
      b := b + [s[|s| - 1]];
    }
  }

  lemma IncludedBetween(a: string, f: string, b: string)
    ensures Includes(a + f + b, f)
  {
    EndsWithAppended(a, f);
    IncludesGrows(a + f, b, f);
  }

  // ---------------------------------------------------------------------------
  // The footer in the body and in the message
  // ---------------------------------------------------------------------------

  /** A body is the end of its message. */
  lemma {:induction false} BodyAtEnd(message: string) returns (pre: string)
    requires BodyStart(message).Some?
    ensures message == pre + BodyStart(message).value && Begins(BodyStart(message).value)
  {
    var front, c := message[..|message| - 1], message[|message| - 1];
    InitLast(message);
    if BodyStart(front).Some? {
      pre := BodyAtEnd(front);
      AppendAssociative(pre, BodyStart(front).value, [c]);
    } else {
      pre := front;
    }
  }

  lemma {:induction false} TrimEndOfEnd(pre: string, text: string)
    requires Begins(text)
    ensures TrimEnd(pre + text) == pre + TrimEnd(text)
    decreases |text|
  {
    var front := text[..|text| - 1];
    assert (pre + text)[..|pre + text| - 1] == pre + front;
    if IsWhitespace(text[|text| - 1]) {
      assert |text| > 1;
      TrimEndOfEnd(pre, front);
    }
  }

  /** What the trimmed body includes, the trimmed message includes. */
  lemma BodyIncluded(message: string, f: string)
    requires Includes(BodyOf(message), f)
    ensures Includes(Trim(message), f)
  {
    TrimmedStartCut(message);
    if BodyStart(message).Some? {
      var pre := BodyAtEnd(TrimStart(message));
      var text := BodyStart(message).value;
      TrimEndOfEnd(pre, text);
      var a, b := IncludesMeans(TrimEnd(text), f);
      AppendAssociative(pre, a + f, b);
      AppendAssociative(pre, a, f);
      IncludedBetween(pre + a, f, b);
    } else {
      var a, b := IncludesMeans("", f);
      assert f == "";
      assert EndsWith(Trim(message), "");
    }
  }

  lemma LeftAloneSettled(c: Commit, options: Options, desired: string)
    requires !NeedsRewrite(c, options) && (Footer(options) == "" || NotBlank(Footer(options)))
    requires NotBlank(c.message)
    ensures Settled(c.message, Footer(options), desired)
  {
    var footer := Footer(options);
    assert Includes(Trim(c.message), footer) by {
      if options.ticketFooterLine.Some? {
        BodyIncluded(c.message, footer);
      } else {
        assert EndsWith(Trim(c.message), "");
      }
    }
    TrimmedReads(c.message);
    FootedKeepsId(Trim(c.message), footer);
    AmendedAgain(c.message, footer, "");
    hide ChangeIdOf, ChangeIdIn, Trim, Amended, Includes, Footed, BodyOf;
  }

  lemma InjectedTwice(sha1: string -> Digest, taskId: string, options: Options, commits: seq<Commit>, i: nat)
    requires i < |commits| && NotBlank(commits[i].message)
    requires Footer(options) == "" || NotBlank(Footer(options))
    ensures var once := Injected(sha1, taskId, options, commits);
            var twice := Injected(sha1, taskId, options, once);
            twice[i] == once[i]
            <==> Settled(commits[i].message, Footer(options), DesiredId(sha1, taskId, options, commits[i], i))
  {
    var c, footer, desired := commits[i], Footer(options), DesiredId(sha1, taskId, options, commits[i], i);
    var once := Injected(sha1, taskId, options, commits);
    InjectedShape(sha1, taskId, options, commits, i);
    InjectedShape(sha1, taskId, options, once, i);
    InjectedAt(sha1, taskId, options, commits, i);
    DesiredAgain(sha1, taskId, options, c, once[i], i);
    if !Rewrites(options, commits) {
      LeftAloneSettled(c, options, desired);
      assert once == commits;
    } else if !Rewrites(options, once) {
      assert FinalId(c.message, footer, desired).Some?;
      assert Includes(Trim(once[i].message), footer) by {
        if options.ticketFooterLine.Some? {
          BodyIncluded(once[i].message, footer);
        } else {
          assert EndsWith(Trim(once[i].message), "");
        }
      }
    } else {
      AmendedAgain(once[i].message, footer, WantedId(sha1, taskId, options, once[i], i));
    }
    hide Amended, DesiredId, ChangeIdOf, Injected, Rewrites, Includes, FinalId, Trim, BodyOf;
  }

  /** A second injection changes nothing exactly when the first one left nothing to add to any commit. */
  lemma InjectionIsIdempotentExactly(sha1: string -> Digest, taskId: string, options: Options, commits: seq<Commit>)
    requires NoneBlank(commits) && (Footer(options) == "" || NotBlank(Footer(options)))
    ensures var once := Injected(sha1, taskId, options, commits);
            Injected(sha1, taskId, options, once) == once
            <==> forall i | 0 <= i < |commits| ::
                   Settled(commits[i].message, Footer(options), DesiredId(sha1, taskId, options, commits[i], i))
  {
    var once := Injected(sha1, taskId, options, commits);
    var twice := Injected(sha1, taskId, options, once);
    forall i | 0 <= i < |commits|
      ensures twice[i] == once[i]
         <==> Settled(commits[i].message, Footer(options), DesiredId(sha1, taskId, options, commits[i], i))
    {
      InjectedTwice(sha1, taskId, options, commits, i);
    }
    hide Injected, Settled, DesiredId;
    if forall i | 0 <= i < |commits| :: twice[i] == once[i] {
      assert twice == once;
    }
  }

  // ---------------------------------------------------------------------------
  // Which id, and which key
  // ---------------------------------------------------------------------------

  /** An id in Gerrit's format is usable and is the one read back. */
  lemma WellFormedIdIsUsable(id: string)
    requires IsChangeId(id)
    ensures Usable(id) && ChangeIdIn("Change-Id: " + id) == Some(id)
  {
    IdLineReadsBack(id);
  }

  /** The id a task's earlier run recorded for commit `i`, if its repository can be looked up. */
  function RecordedId(options: Options, i: nat): Option<string> {
    if options.perRepoChangeIds.Some? && Truthy(options.repoKeyForLookup)
    then ResolveExistingChangeId(options.perRepoChangeIds.value, options.repoKeyForLookup.value, i) else None
  }

  /**
   * A commit with an id keeps it. One without, with its footer on or off, gets, of well-formed candidates, the one recorded
   * for its index, else the legacy id if it is the first commit, else the derived one.
   */
  lemma IdPrecedence(sha1: string -> Digest, taskId: string, options: Options, commits: seq<Commit>, i: nat, id: string)
    requires i < |commits| && NotBlank(commits[i].message) && Sha1Shaped(sha1) && IsChangeId(id)
    ensures var message := commits[i].message;
            var before, after := ChangeIdOf(message), ChangeIdOf(Injected(sha1, taskId, options, commits)[i].message);
            var without := ChangeIdOf(Footed(Trim(message), Footer(options))).None?;
            var recorded, legacy := RecordedId(options, i), options.existingChangeId;
            && (before.Some? ==> after == before)
            && (without && recorded == Some(id) ==> after == Some(id))
            && (without && recorded.None? && i == 0 && legacy == Some(id) ==> after == Some(id))
            && (without && recorded.None? && (i > 0 || !Truthy(legacy)) ==>
                  after == Some(DeriveChangeId(sha1, taskId, commits[i].repoKey, i, commits[i].subject)))
  {
    DerivedIdIsWellFormed(sha1, taskId, commits[i].repoKey, i, commits[i].subject);
    WellFormedIdIsUsable(DeriveChangeId(sha1, taskId, commits[i].repoKey, i, commits[i].subject));
    WellFormedIdIsUsable(id);
    InjectedAt(sha1, taskId, options, commits, i);
    hide ChangeIdIn, ChangeIdOf, Injected, DeriveChangeId, ResolveExistingChangeId, IsIdPrefix, Footed, Trim, Cleaned;
  }

  /** Every digest is 40 lower-case hexadecimal digits. */
  ghost predicate Sha1Shaped(sha1: string -> Digest) {
    forall x :: |sha1(x).hex| == 40 && AllHex(sha1(x).hex)
  }

  lemma {:induction false} HexMakesId(hex: string)
    requires AllHex(hex)
    ensures IsIdPrefix("I" + hex)
  {
    if hex != "" {
      HexMakesId(hex[..|hex| - 1]);
      assert ("I" + hex)[..|hex|] == "I" + hex[..|hex| - 1];
    }
  }

  lemma DerivedIdIsWellFormed(sha1: string -> Digest, taskId: string, repoKey: string, index: nat, subject: string)
    requires Sha1Shaped(sha1)
    ensures IsChangeId(DeriveChangeId(sha1, taskId, repoKey, index, subject))
  {
    HexMakesId(sha1(DeriveInput(taskId, repoKey, index, subject)).hex);
  }

  /** A prior id stored as the empty string is neither used nor replaced: its commit stays without a Change-Id. */
  lemma EmptyPriorIdLeavesCommitWithout(sha1: string -> Digest, taskId: string, c: Commit)
    requires NotBlank(c.message) && ChangeIdOf(c.message).None?
    ensures var options := Options(None, Some("repo"), Some(map["repo" := Indexed(map[Decimal(0) := ""])]), None);
            ChangeIdOf(Injected(sha1, taskId, options, [c])[0].message).None?
  {
    var options := Options(None, Some("repo"), Some(map["repo" := Indexed(map[Decimal(0) := ""])]), None);
    InjectedAt(sha1, taskId, options, [c], 0);
    TrimmedReads(c.message);
    assert DesiredId(sha1, taskId, options, c, 0) == "";
    hide ChangeIdOf, Injected, Trim, DesiredId, Cleaned;
  }

  /** Commits keep their repository keys exactly when nothing is rewritten or all have the default key already. */
  lemma KeysSurviveExactly(sha1: string -> Digest, taskId: string, options: Options, commits: seq<Commit>)
    ensures (forall i | 0 <= i < |commits| :: Injected(sha1, taskId, options, commits)[i].repoKey == commits[i].repoKey)
       <==> !Rewrites(options, commits) || forall i | 0 <= i < |commits| :: commits[i].repoKey == DEFAULT_REPO_KEY
  {
    var after := Injected(sha1, taskId, options, commits);
    forall i | 0 <= i < |commits|
      ensures after[i].repoKey == if Rewrites(options, commits) then DEFAULT_REPO_KEY else commits[i].repoKey
    {
      InjectedShape(sha1, taskId, options, commits, i);
    }
    hide Injected, Rewrites;
  }

  /** Two commits of which one belongs to a submodule, and a footer neither body has: that one is no longer the submodule's. */
  lemma RewriteForgetsRepository(sha1: string -> Digest, taskId: string, footer: string)
    requires footer != ""
    ensures var commits := [Commit("lib", "s", "s"), Commit(DEFAULT_REPO_KEY, "t", "t")];
            var after := Injected(sha1, taskId, Options(None, None, None, Some(footer)), commits);
            && after[0].repoKey == DEFAULT_REPO_KEY != commits[0].repoKey
            && after[1].repoKey == DEFAULT_REPO_KEY
  {
    var commits := [Commit("lib", "s", "s"), Commit(DEFAULT_REPO_KEY, "t", "t")];
    var options := Options(None, None, None, Some(footer));
    NoBodyInOneCharacter('s');
    assert NeedsRewrite(commits[0], options);
    InjectedShape(sha1, taskId, options, commits, 0);
    InjectedShape(sha1, taskId, options, commits, 1);
    hide Injected, Amended, WantedId, ChangeIdOf, NeedsRewrite, BodyOf;
  }

  lemma NoBodyInOneCharacter(c: char)
    ensures BodyOf([c]) == ""
  {
    CutOne(Leading, c);
  }
}
