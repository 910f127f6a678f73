/** Subject, body and stored form of a commit message as texts (git, and agent-worker/src/commitUtils.ts). */
module CommitBodies {
  import opened Seqs
  import opened Text
  import opened CommitMessages
  import opened CommitCleanup
  import opened CommitUtils
  import opened CommitUtilsProperties
  import opened CommitFooters

  // ---------------------------------------------------------------------------
  // The body is what follows the first blank line
  // ---------------------------------------------------------------------------

  /** Starts and ends with something other than a blank, and has no line of blanks in it. */
  predicate OneParagraph(s: string) {
    && s != "" && !IsWhitespace(s[0]) && s[|s| - 1] !in {' ', '\t', '\r', '\n'}
    && NoBlankLine(s)
  }

  predicate NoBlankLine(s: string) {
    forall i, j | 0 <= i < j < |s| && s[i] == '\n' && s[j] == '\n' :: exists k :: i < k < j && s[k] !in {' ', '\t', '\r'}
  }

  /** The last line so far is blank and is not the first. */
  ghost predicate OnBlankLine(s: string) {
    exists i :: 0 <= i < |s| && s[i] == '\n' && forall k | i < k < |s| :: s[k] in {' ', '\t', '\r'}
  }

  lemma NoBlankLineInFront(s: string)
    requires s != "" && NoBlankLine(s)
    ensures NoBlankLine(s[..|s| - 1])
  {
    var front := s[..|s| - 1];
    forall i, j | 0 <= i < j < |front| && front[i] == '\n' && front[j] == '\n'
      ensures exists k :: i < k < j && front[k] !in {' ', '\t', '\r'}
    {
      assert s[i] == '\n' && s[j] == '\n';
      var k :| i < k < j && s[k] !in {' ', '\t', '\r'};
      assert front[k] == s[k];
    }
  }

  lemma OnBlankLinePush(s: string, c: char)
    ensures OnBlankLine(s + [c]) <==> c == '\n' || (c in {' ', '\t', '\r'} && OnBlankLine(s))
  {
    var all := s + [c];
    if c == '\n' {
      assert all[|s|] == '\n';
    }
    if OnBlankLine(s) && c in {' ', '\t', '\r'} {
      var i :| 0 <= i < |s| && s[i] == '\n' && forall k | i < k < |s| :: s[k] in {' ', '\t', '\r'};
      assert all[i] == '\n';
    }
    if OnBlankLine(all) && c != '\n' {
      var i :| 0 <= i < |all| && all[i] == '\n' && forall k | i < k < |all| :: all[k] in {' ', '\t', '\r'};
      assert all[|s|] == c && s[i] == '\n' && forall k | i < k < |s| :: s[k] == all[k];
    }
  }

  /** A text without a blank line is all subject. */
  lemma {:induction false} SubjectRead(s: string)
    requires s != "" && !IsWhitespace(s[0]) && NoBlankLine(s)
    ensures CutFrom(Leading, s) == Subject(OnBlankLine(s))
  {
    var front, c := s[..|s| - 1], s[|s| - 1];
    hide NoBlankLine, OnBlankLine, IsWhitespace;
    InitLast(s);
    OnBlankLinePush(front, c);
    if front == "" {
      NothingYet();
      FirstRead(c);
    } else {
      NoBlankLineInFront(s);
      SubjectRead(front);
      if OnBlankLine(front) {
        NotTwice(front, c);
      }
    }
  }

  lemma NothingYet()
    ensures !OnBlankLine("")
  {
  }

  lemma FirstRead(c: char)
    requires !IsWhitespace(c)
    ensures CutStep(CutFrom(Leading, ""), c) == Subject(false) && c !in {' ', '\t', '\r', '\n'}
  {
  }

  lemma NotTwice(front: string, c: char)
    requires NoBlankLine(front + [c]) && OnBlankLine(front)
    ensures c != '\n'
  {
    var i :| 0 <= i < |front| && front[i] == '\n' && forall k | i < k < |front| :: front[k] in {' ', '\t', '\r'};
    var s := front + [c];
    assert s[i] == '\n' && s[|front|] == c && forall k | i < k < |front| :: s[k] == front[k];
  }

  lemma {:induction false} BlanksRead(spaces: string)
    requires forall c | c in spaces :: c in {' ', '\t', '\r'}
    ensures CutFrom(Subject(true), spaces) == Subject(true)
  {
    if spaces != "" {
      var front := spaces[..|spaces| - 1];
      InitLast(spaces);
      assert forall c | c in front :: c in spaces;
      assert spaces[|spaces| - 1] in spaces;
      BlanksRead(front);
    }
  }

  lemma {:induction false} WhitespaceRead(space: string)
    requires forall c | c in space :: IsWhitespace(c)
    ensures CutFrom(Between, space) == Between
  {
    if space != "" {
      InitLast(space);
      WhitespaceRead(space[..|space| - 1]);
    }
  }

  lemma {:induction false} BodyRead(st: Cut, body: string)
    requires st == Between && body != "" && !IsWhitespace(body[0])
    ensures CutFrom(st, body) == Body(body)
  {
    var front := body[..|body| - 1];
    InitLast(body);
    if |body| == 1 {
      assert front == "" && CutFrom(st, front) == Between;
    } else {
      BodyRead(st, front);
    }
  }

  /** The body of a message is what follows its first blank line, without the whitespace around it; no blank line, no body. */
  lemma BodyExactly(subject: string, spaces: string, space: string, body: string)
    requires OneParagraph(subject) && (forall c | c in spaces :: c in {' ', '\t', '\r'}) && (forall c | c in space :: IsWhitespace(c))
    requires body != "" && !IsWhitespace(body[0])
    ensures BodyOf(subject) == ""
    ensures BodyOf(subject + "\n" + spaces + "\n" + space + body) == TrimEnd(body)
  {
    SubjectRead(subject);
    assert !OnBlankLine(subject);
    var st := Subject(false);
    CutAppend(Leading, subject + "\n" + spaces + "\n" + space, body);
    CutAppend(Leading, subject + "\n" + spaces + "\n", space);
    CutPush(Leading, subject + "\n" + spaces, '\n');
    CutAppend(Leading, subject + "\n", spaces);
    CutPush(Leading, subject, '\n');
    BlanksRead(spaces);
    WhitespaceRead(space);
    BodyRead(Between, body);
    hide CutFrom, TrimEnd, NoBlankLine, OnBlankLine, IsWhitespace;
  }

  // ---------------------------------------------------------------------------
  // What git stores, as a normal form
  // ---------------------------------------------------------------------------

  /** No line ends in a blank, no two lines in a row are empty, and the text neither starts nor ends with a break. */
  predicate IsClean(s: string) {
    && (s != "" ==> s[0] != '\n' && s[|s| - 1] !in {'\n', ' ', '\t', '\r'})
    && (forall k | 0 <= k < |s| - 1 :: s[k + 1] == '\n' ==> s[k] !in {' ', '\t', '\r'})
    && (forall k | 0 <= k < |s| - 2 :: !(s[k] == '\n' && s[k + 1] == '\n' && s[k + 2] == '\n'))
  }

  lemma Spaced(spaces: string)
    requires AllGitSpace(spaces)
    ensures forall k | 0 <= k < |spaces| :: spaces[k] in {' ', '\t', '\r'}
  {
  }

  /** Appending what was held back and a character that is not blank keeps a text clean. */
  lemma CleanGrows(kept: string, gap: string, spaces: string, c: char)
    requires IsClean(kept) && (gap == "" || (kept != "" && IsGap(gap))) && AllGitSpace(spaces) && c != '\n' && !IsGitSpace(c)
    ensures IsClean(kept + gap + spaces + [c])
  {
    var s := kept + gap + spaces + [c];
    var m, n := |kept|, |kept| + |gap|;
    Spaced(spaces);
    assert forall k | 0 <= k < m :: s[k] == kept[k];
    assert forall k | m <= k < n :: s[k] == gap[k - m] == '\n';
    assert forall k | n <= k < |s| - 1 :: s[k] == spaces[k - n];
    assert s[|s| - 1] == c;
    hide IsGitSpace, AllGitSpace;
  }

  lemma {:induction false} CleanedIsClean(s: string)
    ensures IsClean(Cleaned(s)) && AllGitSpace(CleanFrom(NEW, s).spaces)
  {
    if s != "" {
      var cl, c := CleanFrom(NEW, s[..|s| - 1]), s[|s| - 1];
      CleanedIsClean(s[..|s| - 1]);
      if c != '\n' && !IsGitSpace(c) {
        CleanGrows(cl.kept, Gap(cl), cl.spaces, c);
      } else {
        InitOfPush(cl.spaces, c);
      }
      hide IsClean;
    }
  }

  /** Text that starts visibly, and is clean but for its end. */
  predicate CleanSoFar(s: string) {
    && s != "" && s[0] !in {'\n', ' ', '\t', '\r'}
    && (forall k | 0 <= k < |s| - 1 :: s[k + 1] == '\n' ==> s[k] !in {' ', '\t', '\r'})
    && (forall k | 0 <= k < |s| - 2 :: !(s[k] == '\n' && s[k + 1] == '\n' && s[k + 2] == '\n'))
  }

  /** What the cleaner holds of such a text: all of it, and how it ends. */
  predicate HeldWhole(cl: Cleaning, s: string) {
    && s != "" && View(cl) == s && cl.kept != "" && cl.breaks <= 2
    && (cl.spaces == "" <==> s[|s| - 1] !in {' ', '\t', '\r'})
    && (cl.spaces == "" ==>
          && (cl.breaks >= 1 <==> s[|s| - 1] == '\n')
          && (cl.breaks >= 2 <==> |s| >= 2 && s[|s| - 1] == '\n' && s[|s| - 2] == '\n'))
  }

  lemma CleanFront(s: string)
    requires CleanSoFar(s) && |s| > 1
    ensures CleanSoFar(s[..|s| - 1])
    ensures s[|s| - 1] == '\n' ==> s[|s| - 2] !in {' ', '\t', '\r'} && (|s| > 2 ==> s[|s| - 2] != '\n' || s[|s| - 3] != '\n')
  {
    var n := |s|;
    if s[n - 1] == '\n' && n > 2 {
      var k := n - 3;
      assert s[k + 1] == s[n - 2] && s[k + 2] == s[n - 1];
    }
    assert s[n - 2 + 1] == s[n - 1];
  }

  lemma HeldBreak(cl: Cleaning, s: string)
    requires HeldWhole(cl, s) && s[|s| - 1] !in {' ', '\t', '\r'}
    requires |s| > 1 ==> s[|s| - 1] != '\n' || s[|s| - 2] != '\n'
    ensures HeldWhole(CleanStep(cl, '\n'), s + ['\n'])
  {
    BreakView(cl);
    InitOfPush(s, '\n');
    hide View;
  }

  lemma HeldOther(cl: Cleaning, s: string, c: char)
    requires HeldWhole(cl, s) && c != '\n'
    ensures HeldWhole(CleanStep(cl, c), s + [c])
  {
    ViewPush(cl, c);
    InitOfPush(s, c);
    hide View;
  }

  lemma HeldFirst(c: char)
    requires c !in {'\n', ' ', '\t', '\r'}
    ensures HeldWhole(CleanStep(NEW, c), [c])
  {
  }

  lemma {:induction false} CleanKept(s: string)
    requires CleanSoFar(s)
    ensures HeldWhole(CleanFrom(NEW, s), s)
  {
    var front, c := s[..|s| - 1], s[|s| - 1];
    InitLast(s);
    if front == "" {
      HeldFirst(c);
      NothingRead(NEW);
      assert s == [c];
    } else {
      CleanFront(s);
      CleanKept(front);
      if c == '\n' {
        HeldBreak(CleanFrom(NEW, front), front);
      } else {
        HeldOther(CleanFrom(NEW, front), front, c);
      }
    }
    hide HeldWhole, CleanSoFar, CleanStep;
  }

  lemma BreakView(cl: Cleaning)
    requires cl.kept != "" && cl.breaks <= 1 && cl.spaces == ""
    ensures View(CleanStep(cl, '\n')) == View(cl) + ['\n']
  {
    AppendNothing(cl.kept);
    AppendNothing(cl.kept + Gap(cl));
    AppendAssociative(cl.kept, "\n", "\n");
    assert "\n" + "\n" == "\n\n";
  }

  /** Git stores a clean text as it is, and every text as a clean one. */
  lemma CleanTextsStay(s: string)
    ensures IsClean(Cleaned(s))
    ensures IsClean(s) && (s != "" ==> s[0] !in {' ', '\t', '\r'}) ==> Cleaned(s) == s
  {
    CleanedIsClean(s);
    if IsClean(s) && s != "" && s[0] !in {' ', '\t', '\r'} {
      CleanKept(s);
      WholeKept(CleanFrom(NEW, s), s);
    }
  }

  lemma WholeKept(cl: Cleaning, s: string)
    requires HeldWhole(cl, s) && s[|s| - 1] !in {'\n', ' ', '\t', '\r'}
    ensures cl.kept == s
  {
    AppendNothing(cl.kept);
  }

  /** Nothing else is changed: blanks before a break, a third break in a row, and breaks at either end are what is dropped. */
  lemma CleaningDrops(a: string, c: char, b: string)
    requires c in {' ', '\t', '\r'}
    ensures Cleaned(a + ([c] + "\n") + b) == Cleaned(a + "\n" + b)
    ensures Cleaned(a + "\n\n\n" + b) == Cleaned(a + "\n\n" + b)
    ensures Cleaned("\n" + b) == Cleaned(b)
    ensures Cleaned(a + "\n") == Cleaned(a) && Cleaned(a + [c]) == Cleaned(a)
  {
    var cl := CleanFrom(NEW, a);
    CleanAppend(NEW, a + ([c] + "\n"), b);
    CleanAppend(NEW, a, [c] + "\n");
    CleanAppend(NEW, a + "\n", b);
    CleanAppend(NEW, a + "\n\n\n", b);
    CleanAppend(NEW, a, "\n\n\n");
    CleanAppend(NEW, a + "\n\n", b);
    CleanAppend(NEW, a, "\n\n");
    CleanAppend(NEW, "\n", b);
    CleanPush(NEW, a, '\n');
    CleanPush(NEW, a, c);
    BreaksRead(cl, c);
    BreaksRead(NEW, c);
    ManyBreaksAlike(Cleaning(cl.kept, cl.breaks + 3, ""), Cleaning(cl.kept, cl.breaks + 2, ""), b);
    ManyBreaksAlike(Cleaning("", 1, ""), NEW, b);
    hide CleanFrom;
  }

  lemma BreaksRead(cl: Cleaning, c: char)
    requires c in {' ', '\t', '\r'}
    ensures CleanFrom(cl, [c] + "\n") == Cleaning(cl.kept, cl.breaks + 1, "")
    ensures CleanFrom(cl, "\n") == Cleaning(cl.kept, cl.breaks + 1, "")
    ensures CleanFrom(cl, "\n\n") == Cleaning(cl.kept, cl.breaks + 2, "")
    ensures CleanFrom(cl, "\n\n\n") == Cleaning(cl.kept, cl.breaks + 3, "")
  {
    hide CleanFrom, CleanStep;
    BreakRead(cl);
    OneBlankRead(cl, c);
    CleanAppend(cl, [c], "\n");
    BreakRead(CleanFrom(cl, [c]));
    BreakRead(CleanFrom(cl, "\n"));
    BreakRead(CleanFrom(cl, "\n\n"));
    assert "\n\n" == "\n" + "\n" && "\n\n\n" == "\n\n" + "\n";
    CleanAppend(cl, "\n", "\n");
    CleanAppend(cl, "\n\n", "\n");
  }

  lemma BreakRead(cl: Cleaning)
    ensures CleanFrom(cl, "\n") == Cleaning(cl.kept, cl.breaks + 1, "")
  {
    NothingRead(cl);
    CleanPush(cl, "", '\n');
    assert "" + ['\n'] == "\n";
    hide CleanFrom;
  }

  lemma OneBlankRead(cl: Cleaning, c: char)
    requires c in {' ', '\t', '\r'}
    ensures CleanFrom(cl, [c]) == Cleaning(cl.kept, cl.breaks, cl.spaces + [c])
  {
    NothingRead(cl);
    CleanPush(cl, "", c);
    assert "" + [c] == [c];
    hide CleanFrom;
  }

  lemma NothingRead(cl: Cleaning)
    ensures CleanFrom(cl, "") == cl
  {
  }

  /** Beyond the second break, and before any text, it does not matter how many breaks were read. */
  lemma {:induction false} ManyBreaksAlike(x: Cleaning, y: Cleaning, b: string)
    requires x.kept == y.kept && x.spaces == y.spaces && (x.kept == "" || (x.breaks >= 2 && y.breaks >= 2))
    ensures CleanFrom(x, b).kept == CleanFrom(y, b).kept && CleanFrom(x, b).spaces == CleanFrom(y, b).spaces
    ensures var u, v := CleanFrom(x, b), CleanFrom(y, b); u.kept == "" || u.breaks == v.breaks || (u.breaks >= 2 && v.breaks >= 2)
  {
    if b != "" {
      ManyBreaksAlike(x, y, b[..|b| - 1]);
    }
  }
}
