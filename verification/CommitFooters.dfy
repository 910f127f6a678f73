/** Which ticket footers are found again in the messages stored with them (agent-worker/src/commitUtils.ts). */
module CommitFooters {
  import opened Seqs
  import opened Text
  import opened CommitMessages
  import opened CommitCleanup
  import opened CommitUtils
  import opened CommitUtilsProperties

  // ---------------------------------------------------------------------------
  // Which footers stay
  // ---------------------------------------------------------------------------

  /** Text that starts with something visible is cleaned the same wherever it stands. */
  lemma {:induction false} CleanedAnywhere(cl: Cleaning, text: string)
    requires Begins(text)
    ensures var alone := CleanFrom(NEW, text);
            && alone.kept != ""
            && CleanFrom(cl, text) == Cleaning(cl.kept + Gap(cl) + cl.spaces + alone.kept, alone.breaks, alone.spaces)
  {
    var before := cl.kept + Gap(cl) + cl.spaces;
    var front, c := text[..|text| - 1], text[|text| - 1];
    if |text| == 1 {
      assert text == [c] && front == "";
    } else {
      CleanedAnywhere(cl, front);
      var alone := CleanFrom(NEW, front);
      AppendAssociative(before, alone.kept, Gap(alone));
      AppendAssociative(before, alone.kept + Gap(alone), alone.spaces);
      AppendAssociative(before, alone.kept + Gap(alone) + alone.spaces, [c]);
      hide IsWhitespace;
    }
  }

  lemma {:induction false} TrimStartBefore(a: string, f: string) returns (kept: string)
    requires Begins(f)
    ensures TrimStart(a + f) == kept + f
  {
    if a == "" {
      kept := "";
      AppendNothing(f);
    } else if IsWhitespace(a[0]) {
      kept := TrimStartBefore(a[1..], f);
      assert (a + f)[1..] == a[1..] + f;
    } else {
      kept := a;
    }
  }

  predicate Ends(s: string) {
    s != "" && !IsWhitespace(s[|s| - 1])
  }

  lemma {:induction false} TrimEndAfter(f: string, b: string) returns (kept: string)
    requires Ends(f)
    ensures TrimEnd(f + b) == f + kept
    decreases |b|
  {
    if b == "" {
      kept := "";
      AppendNothing(f);
    } else {
      assert (f + b)[..|f + b| - 1] == f + b[..|b| - 1];
      if IsWhitespace(b[|b| - 1]) {
        kept := TrimEndAfter(f, b[..|b| - 1]);
      } else {
        kept := b;
      }
    }
  }

  /** Trimming does not cut into text with visible ends. */
  lemma IncludedAfterTrim(a: string, f: string, b: string)
    requires Begins(f) && Ends(f)
    ensures Includes(Trim(a + f + b), f)
  {
    AppendAssociative(a, f, b);
    var x := TrimStartBefore(a, f + b);
    AppendAssociative(x, f, b);
    var y := TrimEndAfter(x + f, b);
    IncludedBetween(x, f, y);
  }

  lemma NewMessageIncludes(current: string, footer: string, wanted: string) returns (a: string, b: string)
    ensures NewMessage(current, footer, wanted) == a + footer + b
  {
    var footed := Footed(current, footer);
    if footer != "" && !Includes(current, footer) {
      a, b := current + (if HasTrailerBlock(current) then "\n" else "\n\n"), "";
      AppendNothing(footed);
    } else {
      assert footer == "" ==> Includes(current, footer) by {
        assert EndsWith(current, "");
      }
      a, b := IncludesMeans(current, footer);
    }
    if wanted != "" {
      var sep := if HasTrailerBlock(footed) then "\n" else "\n\n";
      AppendAssociative(a + footer, b, sep);
      AppendAssociative(a + footer, b + sep, "Change-Id: " + wanted);
      b := b + sep + ("Change-Id: " + wanted);
    }
  }

  /** A footer in the form git stores is found again, so that it is never added twice. */
  lemma TidyFooterStays(message: string, footer: string, wanted: string)
    requires Begins(footer) && Ends(footer) && CleanFrom(NEW, footer) == Cleaning(footer, 0, "")
    ensures FooterStays(message, footer, wanted)
  {
    var current := Trim(message);
    var amended := NewMessage(current, footer, wanted);
    var a, b := NewMessageIncludes(current, footer, wanted);
    if amended == current {
      IncludedBetween(a, footer, b);
    } else {
      CleanAppend(NEW, a + footer, b);
      CleanAppend(NEW, a, footer);
      var cl := CleanFrom(NEW, a);
      CleanedAnywhere(cl, footer);
      var added := KeptGrows(CleanFrom(cl, footer), b);
      IncludedAfterTrim(cl.kept + Gap(cl) + cl.spaces, footer, added);
    }
    hide Trim, NewMessage, CleanFrom, Includes;
  }

  // ---------------------------------------------------------------------------
  // A footer that git changes
  // ---------------------------------------------------------------------------

  /** A footer in that form, such as the one the ticket formatter gives, or none. */
  predicate TidyFooter(footer: string) {
    footer == "" || (Begins(footer) && Ends(footer) && CleanFrom(NEW, footer) == Cleaning(footer, 0, ""))
  }

  lemma TidyFooterSettles(message: string, footer: string, desired: string)
    requires TidyFooter(footer)
    ensures Settled(message, footer, desired) <==> FinalId(message, footer, desired).Some? || desired == ""
    ensures footer == "" || NotBlank(footer)
  {
    var wanted := if ChangeIdOf(message).Some? then "" else desired;
    if footer == "" {
      assert EndsWith(Trim(Amended(message, "", wanted)), "");
    } else {
      TidyFooterStays(message, footer, wanted);
      AppendNothing(footer);
      var kept := TrimStartBefore("", footer);
      var rest := TrimEndAfter(footer, "");
    }
    hide Amended, FinalId, ChangeIdOf;
  }

  /** With such a footer a second injection changes nothing exactly when no commit was given an id that cannot be read back. */
  lemma TidyInjectionIsIdempotentExactly(sha1: string -> Digest, taskId: string, options: Options, commits: seq<Commit>)
    requires NoneBlank(commits) && TidyFooter(Footer(options))
    ensures var once := Injected(sha1, taskId, options, commits);
            Injected(sha1, taskId, options, once) == once
            <==> forall i | 0 <= i < |commits| ::
                   var desired := DesiredId(sha1, taskId, options, commits[i], i);
                   FinalId(commits[i].message, Footer(options), desired).Some? || desired == ""
  {
    TidyFooterSettles("", Footer(options), "");
    InjectionIsIdempotentExactly(sha1, taskId, options, commits);
    forall i | 0 <= i < |commits| {
      TidyFooterSettles(commits[i].message, Footer(options), DesiredId(sha1, taskId, options, commits[i], i));
    }
    hide Injected, Settled, DesiredId, FinalId, TidyFooter;
  }

  // ---------------------------------------------------------------------------
  // One-line footers, exactly
  // ---------------------------------------------------------------------------

  /** A footer of one line that starts with something visible, as the ticket formatter makes them. */
  predicate FooterLine(footer: string) {
    Begins(footer) && '\n' !in footer
  }

  lemma IncludesLength(s: string, f: string)
    requires Includes(s, f)
    ensures |f| <= |s|
  {
    var a, b := IncludesMeans(s, f);
  }

  /** A line is found on one side of a break or on the other. */
  lemma IncludesBreak(a: string, b: string, f: string)
    requires f != "" && '\n' !in f
    ensures Includes(a + "\n" + b, f) <==> Includes(a, f) || Includes(b, f)
  {
    hide Includes;
    if Includes(a + "\n" + b, f) {
      var x, y := IncludesMeans(a + "\n" + b, f);
      OneSide(a, b, x, f, y);
    }
    if Includes(a, f) {
      IncludesGrows(a, "\n", f);
      IncludesGrows(a + "\n", b, f);
    }
    if Includes(b, f) {
      IncludesLater(a + "\n", b, f);
    }
  }

  lemma IncludesLater(a: string, b: string, f: string)
    requires Includes(b, f)
    ensures Includes(a + b, f)
  {
    var x, y := IncludesMeans(b, f);
    AppendAssociative(a, x + f, y);
    AppendAssociative(a, x, f);
    IncludedBetween(a + x, f, y);
  }

  lemma OneSide(a: string, b: string, x: string, f: string, y: string)
    requires a + "\n" + b == x + f + y && f != "" && '\n' !in f
    ensures Includes(a, f) || Includes(b, f)
  {
    var s := a + "\n" + b;
    assert s[|a|] == '\n';
    if |x| + |f| <= |a| {
      assert a == s[..|a|] && (x + f + y)[..|a|] == x + f + y[..|a| - |x| - |f|];
      IncludedBetween(x, f, y[..|a| - |x| - |f|]);
    } else if |x| > |a| {
      assert b == s[|a| + 1..] && (x + f + y)[|a| + 1..] == x[|a| + 1..] + f + y;
      IncludedBetween(x[|a| + 1..], f, y);
    }
  }

  predicate IsGap(gap: string) {
    gap == "\n" || gap == "\n\n"
  }

  lemma IncludesAcross(a: string, gap: string, b: string, f: string)
    requires f != "" && '\n' !in f && IsGap(gap)
    ensures Includes(a + gap + b, f) <==> Includes(a, f) || Includes(b, f)
  {
    hide Includes;
    IncludesBreak(a, b, f);
    if gap == "\n\n" {
      AppendAssociative(a, "\n", "\n");
      assert "\n" + "\n" == "\n\n";
      IncludesBreak(a + "\n", b, f);
      IncludesBreak(a, "", f);
      AppendNothing(a + "\n");
      if Includes("", f) {
        IncludesLength("", f);
      }
    }
  }

  /** Cleaning one line takes the blanks off its end. */
  lemma {:induction false} LineCleaned(f: string)
    requires FooterLine(f)
    ensures var cl := CleanFrom(NEW, f);
            cl.breaks == 0 && f == cl.kept + cl.spaces && Begins(cl.kept) && !IsGitSpace(cl.kept[|cl.kept| - 1])
    ensures CleanFrom(NEW, f).kept == f <==> !IsGitSpace(f[|f| - 1])
  {
    var front, c := f[..|f| - 1], f[|f| - 1];
    InitLast(f);
    if |f| == 1 {
      assert front == "";
    } else {
      LineCleaned(front);
      AppendAssociative(CleanFrom(NEW, front).kept, CleanFrom(NEW, front).spaces, [c]);
    }
  }

  /** Text after a break is cleaned by itself. */
  lemma LineAppended(x: string, gap: string, text: string)
    requires CleanFrom(NEW, x).kept != "" && CleanFrom(NEW, x).breaks == 0 && IsGap(gap) && Begins(text)
    ensures Cleaned(x + gap + text) == Cleaned(x) + gap + Cleaned(text)
    ensures CleanFrom(NEW, x + gap + text).breaks == CleanFrom(NEW, text).breaks
  {
    var cl := CleanFrom(NEW, x);
    CleanAppend(NEW, x + gap, text);
    CleanAppend(NEW, x, gap);
    GapRead(cl, gap);
    CleanedAnywhere(CleanFrom(cl, gap), text);
    AppendNothing(cl.kept + gap);
    hide CleanFrom;
  }

  lemma GapRead(cl: Cleaning, gap: string)
    requires cl.kept != "" && cl.breaks == 0 && IsGap(gap)
    ensures var after := CleanFrom(cl, gap); after.kept == cl.kept && Gap(after) == gap && after.spaces == ""
  {
    assert "\n"[..0] == "" && "\n\n"[..1] == "\n";
  }

  /** A line found in a text is found in the cleaned text, unless it ends in a blank. */
  lemma CleaningKeepsLine(s: string, f: string)
    requires FooterLine(f) && !IsGitSpace(f[|f| - 1]) && Includes(s, f)
    ensures Includes(Cleaned(s), f)
  {
    hide Includes;
    var a, b := IncludesMeans(s, f);
    CleanAppend(NEW, a + f, b);
    CleanAppend(NEW, a, f);
    var cl := CleanFrom(NEW, a);
    CleanedAnywhere(cl, f);
    LineCleaned(f);
    var added := KeptGrows(CleanFrom(cl, f), b);
    IncludedBetween(cl.kept + Gap(cl) + cl.spaces, f, added);
    hide CleanFrom;
  }

  /** What has been read, without the blanks and breaks that will not be kept. */
  function View(cl: Cleaning): string {
    cl.kept + Gap(cl) + cl.spaces
  }

  /** A line found in what is left of a text was there before. */
  lemma {:induction false} ViewAddsNoLine(s: string, f: string)
    requires FooterLine(f)
    ensures EndsWith(View(CleanFrom(NEW, s)), f) ==> EndsWith(s, f)
    ensures Includes(View(CleanFrom(NEW, s)), f) ==> Includes(s, f)
  {
    if s != "" {
      var front, c := s[..|s| - 1], s[|s| - 1];
      var cl := CleanFrom(NEW, front);
      ViewAddsNoLine(front, f);
      if c == '\n' {
        BreakEndsNoLine(cl, f);
        ViewKept(cl, f);
      } else {
        ViewPush(cl, c);
        InitOfPush(View(cl), c);
        if |f| > 1 {
          ViewAddsNoLine(front, f[..|f| - 1]);
        } else {
          assert f[..|f| - 1] == "";
        }
      }
      hide CleanStep, Gap, View;
    } else {
      AppendNothing("");
    }
  }

  lemma ViewPush(cl: Cleaning, c: char)
    requires c != '\n'
    ensures View(CleanStep(cl, c)) == View(cl) + [c]
  {
    if IsGitSpace(c) {
      AppendAssociative(cl.kept + Gap(cl), cl.spaces, [c]);
    } else {
      AppendNothing(View(cl) + [c]);
    }
  }

  lemma BreakEndsNoLine(cl: Cleaning, f: string)
    requires FooterLine(f)
    ensures !EndsWith(View(CleanStep(cl, '\n')), f)
  {
    var view := View(CleanStep(cl, '\n'));
    if cl.kept == "" {
      assert view == "";
    } else {
      assert view[|view| - 1] == '\n' && f[|f| - 1] != '\n';
    }
  }

  lemma ViewKept(cl: Cleaning, f: string)
    requires FooterLine(f)
    ensures Includes(View(CleanStep(cl, '\n')), f) ==> Includes(View(cl), f)
  {
    var gap := Gap(CleanStep(cl, '\n'));
    AppendNothing(cl.kept + gap);
    if cl.kept != "" {
      IncludesAcross(cl.kept, gap, "", f);
      if Includes("", f) {
        IncludesLength("", f);
      }
      if Includes(cl.kept, f) {
        IncludesGrows(cl.kept, Gap(cl), f);
        IncludesGrows(cl.kept + Gap(cl), cl.spaces, f);
      }
    }
    hide Includes;
  }

  lemma CleaningAddsNoLine(s: string, f: string)
    requires FooterLine(f) && Includes(Cleaned(s), f)
    ensures Includes(s, f)
  {
    hide Includes, CleanFrom;
    var cl := CleanFrom(NEW, s);
    ViewAddsNoLine(s, f);
    IncludesGrows(cl.kept, Gap(cl), f);
    IncludesGrows(cl.kept + Gap(cl), cl.spaces, f);
  }

  /** A message with its ends trimmed stays whole when it is read. */
  lemma {:induction false} TrimmedCleaned(s: string)
    requires s != "" && !IsWhitespace(s[|s| - 1])
    ensures CleanFrom(NEW, s).breaks == 0 && CleanFrom(NEW, s).kept != "" && CleanFrom(NEW, s).spaces == ""
  {
  }

  lemma {:induction false} CleanedBegins(s: string)
    requires Begins(s)
    ensures Begins(Cleaned(s))
  {
    var front := s[..|s| - 1];
    if |s| > 1 {
      CleanedBegins(front);
    } else {
      assert front == "" && CleanFrom(NEW, s) == CleanStep(NEW, s[0]);
    }
  }

  lemma TrimOfBeginning(s: string)
    requires Begins(s)
    ensures Trim(s) == TrimEnd(s)
  {
  }

  /** The Change-Id line as it is stored. */
  function StoredIdLine(wanted: string): string {
    Trim(Cleaned("Change-Id: " + wanted))
  }

  /** Whether git and the next `trim` leave the end of a footer line as it is, with an id line after it and without. */
  predicate KeepsItsEnd(footer: string, wanted: string)
    requires footer != ""
  {
    var last := footer[|footer| - 1];
    if wanted == "" then !IsWhitespace(last) else !IsGitSpace(last)
  }

  /** The footer is found after the amend, in terms of what goes into it. */
  predicate FooterFound(message: string, footer: string, wanted: string)
    requires footer != ""
  {
    || KeepsItsEnd(footer, wanted)
    || Includes(Cleaned(Trim(message)), footer)
    || (wanted == "" && Includes(Trim(message), footer))
    || (wanted != "" && Includes(StoredIdLine(wanted), footer))
  }

  /** The message with its footer, cleaned. */
  lemma FootedCleaned(current: string, footer: string)
    requires Begins(current) && !IsWhitespace(current[|current| - 1]) && FooterLine(footer)
    ensures var cl := CleanFrom(NEW, Footed(current, footer)); cl.breaks == 0 && cl.kept != ""
    ensures Includes(Cleaned(Footed(current, footer)), footer)
       <==> !IsGitSpace(footer[|footer| - 1]) || Includes(Cleaned(current), footer)
  {
    hide Includes, CleanFrom;
    TrimmedCleaned(current);
    LineCleaned(footer);
    if Includes(current, footer) {
      if !IsGitSpace(footer[|footer| - 1]) {
        CleaningKeepsLine(current, footer);
      }
    } else {
      var gap := if HasTrailerBlock(current) then "\n" else "\n\n";
      var kept := Cleaned(footer);
      LineAppended(current, gap, footer);
      IncludesAcross(Cleaned(current), gap, kept, footer);
      if Includes(kept, footer) {
        IncludesLength(kept, footer);
      }
      IncludesItself(footer);
    }
  }

  lemma IncludesItself(f: string)
    ensures Includes(f, f)
  {
    AppendNothing(f);
    IncludedBetween("", f, "");
  }

  /** With an id line after it. */
  lemma FoundBeforeId(current: string, footer: string, wanted: string)
    requires Begins(current) && !IsWhitespace(current[|current| - 1]) && FooterLine(footer) && wanted != ""
    ensures Includes(Trim(Cleaned(NewMessage(current, footer, wanted))), footer)
       <==> || !IsGitSpace(footer[|footer| - 1]) || Includes(Cleaned(current), footer)
            || Includes(StoredIdLine(wanted), footer)
  {
    hide Includes, CleanFrom;
    var footed, line := Footed(current, footer), "Change-Id: " + wanted;
    var gap := if HasTrailerBlock(footed) then "\n" else "\n\n";
    FootedCleaned(current, footer);
    FootedBegins(current, footer);
    IdLineBegins(wanted);
    LineAppended(footed, gap, line);
    CleanedBegins(footed);
    CleanedBegins(line);
    TrimOfBeginning(Cleaned(line));
    TrimOfBeginning(Cleaned(footed) + gap + Cleaned(line));
    TrimEndOfEnd(Cleaned(footed) + gap, Cleaned(line));
    IncludesAcross(Cleaned(footed), gap, StoredIdLine(wanted), footer);
  }

  /** At the end of the message. */
  lemma FoundAtEnd(current: string, footer: string)
    requires Begins(current) && !IsWhitespace(current[|current| - 1]) && FooterLine(footer) && !Includes(current, footer)
    ensures Includes(Trim(Cleaned(NewMessage(current, footer, ""))), footer)
       <==> !IsWhitespace(footer[|footer| - 1]) || Includes(Cleaned(current), footer)
  {
    hide Includes, CleanFrom;
    var gap := if HasTrailerBlock(current) then "\n" else "\n\n";
    var kept := Cleaned(footer);
    TrimmedCleaned(current);
    LineAppended(current, gap, footer);
    LineCleaned(footer);
    CleanedBegins(current);
    TrimOfBeginning(Cleaned(current) + gap + kept);
    TrimEndOfEnd(Cleaned(current) + gap, kept);
    IncludesAcross(Cleaned(current), gap, TrimEnd(kept), footer);
    TrimmedFooter(footer);
  }

  lemma TrimmedFooter(footer: string)
    requires FooterLine(footer)
    ensures Includes(TrimEnd(Cleaned(footer)), footer) <==> !IsWhitespace(footer[|footer| - 1])
  {
    LineCleaned(footer);
    var kept := Cleaned(footer);
    TrimEndShorter(kept);
    IncludesItself(footer);
    if Includes(TrimEnd(kept), footer) {
      IncludesLength(TrimEnd(kept), footer);
    }
    hide Includes, CleanFrom;
  }

  lemma TrimEndShorter(s: string)
    requires s != ""
    ensures |TrimEnd(s)| <= |s| && (TrimEnd(s) == s <==> !IsWhitespace(s[|s| - 1])) && (TrimEnd(s) != s ==> |TrimEnd(s)| < |s|)
  {
  }

  /**
   * A one-line footer is found again in the message stored with it exactly when
   * its end survives, or it already stands in the message as git cleans it, or
   * in the Change-Id line, or nothing is amended as the message has it.
   */
  lemma FooterStaysExactly(message: string, footer: string, wanted: string)
    requires NotBlank(message) && FooterLine(footer)
    ensures FooterStays(message, footer, wanted) <==> FooterFound(message, footer, wanted)
  {
    var current := Trim(message);
    TrimmedReads(message);
    if wanted != "" {
      NewMessageDiffers(current, footer, wanted);
      FoundBeforeId(current, footer, wanted);
    } else if !Includes(current, footer) {
      NewMessageDiffers(current, footer, wanted);
      FoundAtEnd(current, footer);
    }
    hide Includes, Cleaned, Trim, NewMessage, StoredIdLine;
  }

  lemma NewMessageDiffers(current: string, footer: string, wanted: string)
    requires wanted != "" || (footer != "" && !Includes(current, footer))
    ensures NewMessage(current, footer, wanted) != current
  {
  }

  /**
   * With a one-line footer, or none, a second injection changes nothing exactly
   * when every commit has an id or was given none that fails to read back, and
   * the footer is found among what went into it.
   */
  lemma OneLineInjectionIsIdempotentExactly(sha1: string -> Digest, taskId: string, options: Options, commits: seq<Commit>)
    requires NoneBlank(commits) && (Footer(options) == "" || FooterLine(Footer(options)))
    ensures var once, footer := Injected(sha1, taskId, options, commits), Footer(options);
            Injected(sha1, taskId, options, once) == once
            <==> forall i | 0 <= i < |commits| ::
                   var message, desired := commits[i].message, DesiredId(sha1, taskId, options, commits[i], i);
                   && (FinalId(message, footer, desired).Some? || desired == "")
                   && (footer == "" || FooterFound(message, footer, if ChangeIdOf(message).Some? then "" else desired))
  {
    var footer := Footer(options);
    assert footer == "" || NotBlank(footer) by {
      if footer != "" {
        BeginsNotBlank(footer);
      }
    }
    InjectionIsIdempotentExactly(sha1, taskId, options, commits);
    forall i | 0 <= i < |commits| {
      OneLineSettles(commits[i].message, footer, DesiredId(sha1, taskId, options, commits[i], i));
    }
    hide Injected, Settled, DesiredId, FinalId, FooterFound, NotBlank;
  }

  lemma OneLineSettles(message: string, footer: string, desired: string)
    requires NotBlank(message) && (footer == "" || FooterLine(footer))
    ensures Settled(message, footer, desired)
       <==> && (FinalId(message, footer, desired).Some? || desired == "")
            && (footer == "" || FooterFound(message, footer, if ChangeIdOf(message).Some? then "" else desired))
  {
    var wanted := if ChangeIdOf(message).Some? then "" else desired;
    if footer == "" {
      assert EndsWith(Trim(Amended(message, "", wanted)), "");
    } else {
      FooterStaysExactly(message, footer, wanted);
    }
    hide Amended, FinalId, ChangeIdOf, FooterFound;
  }

  lemma BeginsNotBlank(s: string)
    requires Begins(s)
    ensures NotBlank(s) && Visible(s) > 0
  {
    AppendNothing(s);
    TrimOfBeginning(s);
    TrimEndOfEnd("", s);
    TrimEndNotEmpty(s);
    NothingVisible(s);
  }

  lemma {:induction false} TrimEndNotEmpty(s: string)
    requires Begins(s)
    ensures TrimEnd(s) != ""
  {
    if |s| > 1 && IsWhitespace(s[|s| - 1]) {
      TrimEndNotEmpty(s[..|s| - 1]);
    }
  }

  // ---------------------------------------------------------------------------
  // Footers that are added on every run
  // ---------------------------------------------------------------------------

  /** A footer that is neither in the message nor in the id line, and whose end is lost, is added and not found again. */
  lemma FooterLost(message: string, footer: string, wanted: string)
    requires NotBlank(message) && FooterLine(footer) && !Includes(Trim(message), footer)
    requires !KeepsItsEnd(footer, wanted) && (wanted != "" ==> !Includes(StoredIdLine(wanted), footer))
    ensures var after := Amended(message, footer, wanted);
            !Includes(Trim(after), footer) && NotBlank(after) && Visible(after) >= Visible(message) + Visible(footer)
  {
    if Includes(Cleaned(Trim(message)), footer) {
      CleaningAddsNoLine(Trim(message), footer);
    }
    FooterStaysExactly(message, footer, wanted);
    VisibleAdded(message, footer, wanted);
    NothingVisible(message);
    NothingVisible(Amended(message, footer, wanted));
    hide Includes, Cleaned, Trim, Amended, KeepsItsEnd, StoredIdLine, Visible;
  }

  lemma VisibleAdded(message: string, footer: string, wanted: string)
    requires footer != "" && !Includes(Trim(message), footer)
    ensures Visible(Amended(message, footer, wanted)) >= Visible(message) + Visible(footer)
  {
    var current := Trim(message);
    NewMessageDiffers(current, footer, wanted);
    var amended := NewMessage(current, footer, wanted);
    CleaningKeepsVisible(amended);
    TrimStartKeepsVisible(message);
    TrimEndKeepsVisible(TrimStart(message));
    VisibleWithLine(current, footer);
    if wanted != "" {
      VisibleWithLine(Footed(current, footer), "Change-Id: " + wanted);
    }
    hide Includes, Cleaned, Visible, WithLine;
  }

  lemma VisibleWithLine(message: string, line: string)
    ensures Visible(WithLine(message, line)) >= Visible(message) + Visible(line)
  {
    var gap := if HasTrailerBlock(message) then "\n" else "\n\n";
    VisibleAppend(message + gap, line);
    VisibleAppend(message, gap);
    hide HasTrailerBlock;
  }

  function InjectedTimes(sha1: string -> Digest, taskId: string, options: Options, commits: seq<Commit>, n: nat): (r: seq<Commit>)
    ensures |r| == |commits|
  {
    if n == 0 then commits else Injected(sha1, taskId, options, InjectedTimes(sha1, taskId, options, commits, n - 1))
  }

  /** No id the commit can be given makes an id line that holds the footer. */
  ghost predicate NotInIdLines(sha1: string -> Digest, taskId: string, options: Options, c: Commit, i: nat) {
    forall key ::
      var desired := DesiredId(sha1, taskId, options, c.(repoKey := key), i);
      desired != "" ==> !Includes(StoredIdLine(desired), Footer(options))
  }

  /** The footer is still not found in the commit's message, and was added `n` times. */
  predicate AddedTimes(c: Commit, after: Commit, footer: string, n: nat) {
    && after == c.(repoKey := after.repoKey, message := after.message)
    && NotBlank(after.message) && !Includes(Trim(after.message), footer)
    && Visible(after.message) >= Visible(c.message) + n * Visible(footer)
  }

  /** A footer line whose blank at the end git takes off, and that no Change-Id line of the commit holds. */
  ghost predicate Loses(sha1: string -> Digest, taskId: string, options: Options, c: Commit, i: nat) {
    var footer := Footer(options);
    FooterLine(footer) && IsGitSpace(footer[|footer| - 1]) && NotInIdLines(sha1, taskId, options, c, i)
  }

  /**
   * A one-line footer ending in a blank, standing neither in the trimmed
   * message of a commit nor in its Change-Id line, is added by every injection.
   */
  lemma {:induction false} InjectionRepeatsFooter(sha1: string -> Digest, taskId: string, options: Options,
                                                  commits: seq<Commit>, i: nat, n: nat)
    requires i < |commits| && Loses(sha1, taskId, options, commits[i], i)
    requires NotBlank(commits[i].message) && !Includes(Trim(commits[i].message), Footer(options))
    ensures AddedTimes(commits[i], InjectedTimes(sha1, taskId, options, commits, n)[i], Footer(options), n)
  {
    hide AddedTimes, Loses, Injected, NotBlank, Includes, Trim, Footer;
    if n == 0 {
      NothingAdded(commits[i], Footer(options));
    } else {
      var before := InjectedTimes(sha1, taskId, options, commits, n - 1);
      InjectionRepeatsFooter(sha1, taskId, options, commits, i, n - 1);
      FooterAddedAgain(sha1, taskId, options, before, commits[i], i, n - 1);
    }
  }

  lemma NothingAdded(c: Commit, footer: string)
    requires NotBlank(c.message) && !Includes(Trim(c.message), footer)
    ensures AddedTimes(c, c, footer, 0)
  {
    hide NotBlank, Includes, Trim, Visible;
  }

  lemma FooterAddedAgain(sha1: string -> Digest, taskId: string, options: Options, before: seq<Commit>, c: Commit, i: nat, n: nat)
    requires i < |before| && AddedTimes(c, before[i], Footer(options), n) && Loses(sha1, taskId, options, c, i)
    ensures AddedTimes(c, Injected(sha1, taskId, options, before)[i], Footer(options), n + 1)
  {
    var footer, wanted := Footer(options), WantedId(sha1, taskId, options, before[i], i);
    if Includes(BodyOf(before[i].message), footer) {
      BodyIncluded(before[i].message, footer);
    }
    assert NeedsRewrite(before[i], options);
    InjectedShape(sha1, taskId, options, before, i);
    assert wanted != "" ==> !Includes(StoredIdLine(wanted), footer) by {
      assert wanted != "" ==> wanted == DesiredId(sha1, taskId, options, c.(repoKey := before[i].repoKey), i);
      hide DesiredId, Includes, StoredIdLine;
    }
    FooterLost(before[i].message, footer, wanted);
    TimesOneMore(n, Visible(footer));
    hide Includes, StoredIdLine, Trim, Amended, Visible, BodyOf, ChangeIdOf, DesiredId, NotInIdLines, NotBlank;
  }

  lemma TimesOneMore(n: nat, v: nat)
    ensures (n + 1) * v == n * v + v
  {
  }

  /** Such a footer, from a ticket address with a blank at its end. */
  lemma FooterEndingInBlankIsRepeated()
    ensures var once := Amended("m", "T: u ", "");
            var twice := Amended(once, "T: u ", "");
            && !FooterStays("m", "T: u ", "")
            && Visible(twice) > Visible(once) > Visible("m")
  {
    var footer := "T: u ";
    assert FooterLine(footer) && !KeepsItsEnd(footer, "") && Begins("m");
    BeginsNotBlank("m");
    BeginsNotBlank(footer);
    OneCharacter();
    if Includes(Trim("m"), footer) {
      IncludesLength(Trim("m"), footer);
    }
    hide *;
    FooterLost("m", footer, "");
    FooterLost(Amended("m", footer, ""), footer, "");
    StaysMeans("m", footer);
  }

  lemma OneCharacter()
    ensures |Trim("m")| <= 1
  {
  }

  lemma StaysMeans(message: string, footer: string)
    ensures FooterStays(message, footer, "") <==> Includes(Trim(Amended(message, footer, "")), footer)
  {
  }
}
