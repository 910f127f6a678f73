/** What git does to a message it is given with `-m`: trailing blanks and surplus blank lines go. */
module CommitCleanup {
  import opened Seqs
  import opened Text
  import opened CommitMessages

  /** What git counts as blank within a line. */
  predicate IsGitSpace(c: char) {
    c == ' ' || c == '\t' || c == '\r'
  }

  /** The text kept so far, and the line breaks and blanks read since. */
  datatype Cleaning = Cleaning(kept: string, breaks: nat, spaces: string)

  const NEW := Cleaning("", 0, "")

  /** The breaks that are kept when more text follows: none at the start, no more than one blank line elsewhere. */
  function Gap(cl: Cleaning): string {
    if cl.kept == "" || cl.breaks == 0 then "" else if cl.breaks == 1 then "\n" else "\n\n"
  }

  function CleanStep(cl: Cleaning, c: char): Cleaning {
    if c == '\n' then Cleaning(cl.kept, cl.breaks + 1, "")
    else if IsGitSpace(c) then cl.(spaces := cl.spaces + [c])
    else Cleaning(cl.kept + Gap(cl) + cl.spaces + [c], 0, "")
  }

  function CleanFrom(cl: Cleaning, s: string): Cleaning {
    if s == "" then cl else CleanStep(CleanFrom(cl, s[..|s| - 1]), s[|s| - 1])
  }

  function Cleaned(s: string): string {
    CleanFrom(NEW, s).kept
  }

  lemma CleanPush(cl: Cleaning, s: string, c: char)
    ensures CleanFrom(cl, s + [c]) == CleanStep(CleanFrom(cl, s), c)
  {
    InitOfPush(s, c);
  }

  lemma {:induction false} CleanAppend(cl: Cleaning, a: string, b: string)
    ensures CleanFrom(cl, a + b) == CleanFrom(CleanFrom(cl, a), b)
    decreases |b|
  {
    if b == "" {
      AppendNothing(a);
    } else {
      var front, c := b[..|b| - 1], b[|b| - 1];
      hide CleanStep;
      CleanAppend(cl, a, front);
      InitLast(b);
      AppendAssociative(a, front, [c]);
      CleanPush(cl, a + front, c);
    }
  }

  /** What is kept only ever grows. */
  lemma {:induction false} KeptGrows(cl: Cleaning, s: string) returns (added: string)
    ensures CleanFrom(cl, s).kept == cl.kept + added
  {
    if s == "" {
      added := "";
      AppendNothing(cl.kept);
    } else {
      var front, c := s[..|s| - 1], s[|s| - 1];
      added := KeptGrows(cl, front);
      var before := CleanFrom(cl, front);
      if c != '\n' && !IsGitSpace(c) {
        AppendAssociative(cl.kept, added, Gap(before));
        AppendAssociative(cl.kept, added + Gap(before), before.spaces);
        AppendAssociative(cl.kept, added + Gap(before) + before.spaces, [c]);
        added := added + Gap(before) + before.spaces + [c];
      }
    }
  }

  // ---------------------------------------------------------------------------
  // Nothing visible is lost
  // ---------------------------------------------------------------------------

  /** How many characters are not whitespace. */
  function Visible(s: string): nat {
    if s == "" then 0 else Visible(s[..|s| - 1]) + if IsWhitespace(s[|s| - 1]) then 0 else 1
  }

  lemma {:induction false} VisibleAppend(a: string, b: string)
    ensures Visible(a + b) == Visible(a) + Visible(b)
    decreases |b|
  {
    if b == "" {
      AppendNothing(a);
    } else {
      var front, c := b[..|b| - 1], b[|b| - 1];
      VisibleAppend(a, front);
      AppendFromLast(a, b);
      hide IsWhitespace;
    }
  }

  predicate AllGitSpace(s: string) {
    s == "" || (IsGitSpace(s[|s| - 1]) && AllGitSpace(s[..|s| - 1]))
  }

  lemma {:induction false} SpacesAreBlank(cl: Cleaning, s: string)
    requires AllGitSpace(cl.spaces)
    ensures AllGitSpace(CleanFrom(cl, s).spaces)
  {
    if s != "" {
      var before, c := CleanFrom(cl, s[..|s| - 1]), s[|s| - 1];
      SpacesAreBlank(cl, s[..|s| - 1]);
      InitOfPush(before.spaces, c);
    }
  }

  lemma {:induction false} BlankIsInvisible(s: string)
    requires AllGitSpace(s)
    ensures Visible(s) == 0
  {
    if s != "" {
      BlankIsInvisible(s[..|s| - 1]);
    }
  }

  lemma GapIsInvisible(cl: Cleaning)
    ensures Visible(Gap(cl)) == 0
  {
    assert "\n"[..0] == "" && "\n\n"[..1] == "\n";
    assert Visible("\n") == 0;
  }

  lemma VisibleStep(cl: Cleaning, c: char)
    requires AllGitSpace(cl.spaces)
    ensures Visible(CleanStep(cl, c).kept) == Visible(cl.kept) + if IsWhitespace(c) then 0 else 1
  {
    if c != '\n' && !IsGitSpace(c) {
      BlankIsInvisible(cl.spaces);
      GapIsInvisible(cl);
      VisibleAppend(cl.kept, Gap(cl));
      VisibleAppend(cl.kept + Gap(cl), cl.spaces);
      InitOfPush(cl.kept + Gap(cl) + cl.spaces, c);
      hide IsWhitespace;
    }
  }

  lemma {:induction false} CleaningKeepsVisible(s: string)
    ensures Visible(Cleaned(s)) == Visible(s)
  {
    if s != "" {
      var front := s[..|s| - 1];
      CleaningKeepsVisible(front);
      SpacesAreBlank(NEW, front);
      VisibleStep(CleanFrom(NEW, front), s[|s| - 1]);
      hide CleanStep, IsWhitespace;
    }
  }

  lemma {:induction false} TrimStartKeepsVisible(s: string)
    ensures Visible(TrimStart(s)) == Visible(s)
  {
    if s != "" && IsWhitespace(s[0]) {
      TrimStartKeepsVisible(s[1..]);
      assert s == [s[0]] + s[1..];
      VisibleAppend([s[0]], s[1..]);
      assert [s[0]][..0] == "";
    }
  }

  lemma {:induction false} TrimEndKeepsVisible(s: string)
    ensures Visible(TrimEnd(s)) == Visible(s)
  {
    if s != "" && IsWhitespace(s[|s| - 1]) {
      TrimEndKeepsVisible(s[..|s| - 1]);
    }
  }

  lemma {:induction false} NothingVisible(s: string)
    ensures Visible(s) == 0 <==> Trim(s) == ""
  {
    TrimStartKeepsVisible(s);
    TrimEndKeepsVisible(TrimStart(s));
    var t := Trim(s);
    if t != "" {
      assert Visible(t) > 0;
    }
  }

  // ---------------------------------------------------------------------------
  // Change-Ids are read alike before and after
  // ---------------------------------------------------------------------------

  lemma {:induction false} SpacesBeforeBreak(st: Scan, spaces: string)
    requires AllGitSpace(spaces)
    ensures Advance(ScanFrom(st, spaces), '\n') == Advance(st, '\n')
  {
    if spaces != "" {
      SpacesBeforeBreak(st, spaces[..|spaces| - 1]);
      SpaceBeforeBreak(ScanFrom(st, spaces[..|spaces| - 1]), spaces[|spaces| - 1]);
    }
  }

  lemma SpaceBeforeBreak(st: Scan, c: char)
    requires IsGitSpace(c)
    ensures Advance(Advance(st, c), '\n') == Advance(st, '\n')
  {
  }

  lemma ThirdBreak(st: Scan)
    ensures Advance(Advance(Advance(st, '\n'), '\n'), '\n') == Advance(Advance(st, '\n'), '\n')
  {
  }

  lemma ScanBreaks(st: Scan)
    ensures ScanFrom(st, "") == st && ScanFrom(st, "\n") == Advance(st, '\n')
    ensures ScanFrom(st, "\n\n") == Advance(Advance(st, '\n'), '\n')
  {
    assert "\n"[..0] == "" && "\n\n"[..1] == "\n";
  }

  /** Where a scan stands after a text, seen from where it stands after what is kept of it. */
  function ScanOver(cl: Cleaning): Scan {
    ScanFrom(ScanFrom(ScanFrom(InKey(0), cl.kept), Gap(cl)), cl.spaces)
  }

  lemma ScanOverBreak(cl: Cleaning)
    requires AllGitSpace(cl.spaces)
    ensures ScanOver(CleanStep(cl, '\n')) == Advance(ScanOver(cl), '\n')
  {
    var st := ScanFrom(InKey(0), cl.kept);
    SpacesBeforeBreak(ScanFrom(st, Gap(cl)), cl.spaces);
    ScanBreaks(st);
    ScanBreaks(ScanFrom(st, Gap(cl)));
    ThirdBreak(st);
    ScanBreaks(ScanFrom(st, Gap(CleanStep(cl, '\n'))));
    hide Advance;
    if cl.kept == "" {
      assert Advance(InKey(0), '\n') == InKey(0) by {
        StartsAgain();
      }
    }
  }

  lemma StartsAgain()
    ensures Advance(InKey(0), '\n') == InKey(0)
  {
  }

  lemma ScanOverOther(cl: Cleaning, c: char)
    requires c != '\n'
    ensures ScanOver(CleanStep(cl, c)) == Advance(ScanOver(cl), c)
  {
    hide Advance;
    if IsGitSpace(c) {
      ScanPush(ScanFrom(ScanFrom(InKey(0), cl.kept), Gap(cl)), cl.spaces, c);
    } else {
      var text := cl.kept + Gap(cl) + cl.spaces;
      ScanPush(InKey(0), text, c);
      ScanAppend(InKey(0), cl.kept + Gap(cl), cl.spaces);
      ScanAppend(InKey(0), cl.kept, Gap(cl));
      ScanBreaks(ScanFrom(InKey(0), text + [c]));
    }
  }

  lemma {:induction false} ScanCleaned(s: string)
    ensures ScanOver(CleanFrom(NEW, s)) == ScanFrom(InKey(0), s)
  {
    if s == "" {
      ScanBreaks(InKey(0));
    } else {
      var front, c := s[..|s| - 1], s[|s| - 1];
      ScanCleaned(front);
      var before := CleanFrom(NEW, front);
      SpacesAreBlank(NEW, front);
      hide Advance, ScanOver, CleanStep;
      if c == '\n' {
        ScanOverBreak(before);
      } else {
        ScanOverOther(before, c);
      }
    }
  }

  lemma {:induction false} BlankKeepsAnswer(st: Scan, w: string)
    requires AllWhitespace(w)
    ensures Accepted(ScanFrom(st, w)) == Accepted(st)
  {
    if w != "" {
      BlankKeepsAnswer(st, w[..|w| - 1]);
    }
  }

  lemma {:induction false} SpacesAreWhitespace(s: string)
    requires AllGitSpace(s)
    ensures AllWhitespace(s)
  {
    if s != "" {
      SpacesAreWhitespace(s[..|s| - 1]);
    }
  }

  lemma GapIsWhitespace(cl: Cleaning)
    ensures AllWhitespace(Gap(cl))
  {
    assert "\n"[..0] == "" && "\n\n"[..1] == "\n";
    assert AllWhitespace("\n");
  }

  /** Cleaning a text neither adds, nor loses, nor changes the Change-Id read from it. */
  lemma CleanedReadsAlike(s: string)
    ensures ChangeIdIn(Cleaned(s)) == ChangeIdIn(s)
  {
    var cl := CleanFrom(NEW, s);
    ScanCleaned(s);
    SpacesAreBlank(NEW, s);
    SpacesAreWhitespace(cl.spaces);
    GapIsWhitespace(cl);
    BlankKeepsAnswer(ScanFrom(InKey(0), cl.kept), Gap(cl));
    BlankKeepsAnswer(ScanFrom(ScanFrom(InKey(0), cl.kept), Gap(cl)), cl.spaces);
    hide ScanFrom, CleanFrom, Accepted;
  }
}
