/** Where a line is joined to a message's trailers (agent-worker/src/commitUtils.ts). */
module CommitTrailers {
  import opened Seqs
  import opened Text
  import opened CommitMessages
  import opened CommitCleanup
  import opened CommitUtils
  import opened CommitUtilsProperties
  import opened CommitFooters

  // ---------------------------------------------------------------------------
  // /\n\n[A-Za-z][A-Za-z0-9-]*: / as a shape, against the scan for it
  // ---------------------------------------------------------------------------

  /** A letter followed by letters, digits and hyphens. */
  predicate IsToken(token: string) {
    && token != "" && ('A' <= token[0] <= 'Z' || 'a' <= token[0] <= 'z')
    && forall k | 0 <= k < |token| ::
         'A' <= token[k] <= 'Z' || 'a' <= token[k] <= 'z' || '0' <= token[k] <= '9' || token[k] == '-'
  }

  /** A blank line, a token, a colon and a space, somewhere in the message. */
  ghost predicate HasTrailer(message: string, pre: string, token: string, post: string) {
    IsToken(token) && message == pre + "\n\n" + token + ": " + post
  }

  /** What the scan's state says of the text read. */
  ghost predicate Reads(st: Trailer, s: string, pre: string, token: string, post: string) {
    match st
    case NoBreak => true
    case OneBreak => s == pre + "\n"
    case TwoBreaks => s == pre + "\n\n"
    case InToken => IsToken(token) && s == pre + "\n\n" + token
    case AfterColon => IsToken(token) && s == pre + "\n\n" + token + ":"
    case Seen => HasTrailer(s, pre, token, post)
  }

  lemma ReadsBreak(st: Trailer, s: string, pre: string, token: string, post: string) returns (pre': string, post': string)
    requires Reads(st, s, pre, token, post)
    ensures Reads(TrailerStep(st, '\n'), s + ['\n'], pre', token, post')
  {
    pre', post' := s, post;
    if st.Seen? {
      pre', post' := pre, post + ['\n'];
      AppendAssociative(pre + "\n\n" + token + ": ", post, ['\n']);
    } else if st.OneBreak? {
      pre' := pre;
      AppendAssociative(pre, "\n", "\n");
    } else if st.TwoBreaks? {
      pre' := pre + "\n";
      AppendAssociative(pre, "\n", "\n");
      AppendAssociative(pre + "\n", "\n", "\n");
      assert "\n" + "\n" == "\n\n";
    }
  }

  lemma TokenGrows(token: string, c: char)
    requires IsToken(token) && (IsLetter(c) || '0' <= c <= '9' || c == '-')
    ensures IsToken(token + [c])
  {
  }

  lemma ReadsOther(st: Trailer, s: string, pre: string, token: string, post: string, c: char) returns (token': string, post': string)
    requires Reads(st, s, pre, token, post) && c != '\n'
    ensures Reads(TrailerStep(st, c), s + [c], pre, token', post')
  {
    token', post' := token, post;
    if st.Seen? {
      post' := post + [c];
      AppendAssociative(pre + "\n\n" + token + ": ", post, [c]);
    } else if st.TwoBreaks? && IsLetter(c) {
      token' := [c];
    } else if st.InToken? && (IsLetter(c) || '0' <= c <= '9' || c == '-') {
      token' := token + [c];
      TokenGrows(token, c);
      AppendAssociative(pre + "\n\n", token, [c]);
    } else if st.AfterColon? && c == ' ' {
      post' := "";
      AppendAssociative(pre + "\n\n" + token, ":", " ");
      assert ":" + " " == ": ";
      AppendNothing(pre + "\n\n" + token + ": ");
    }
  }

  lemma {:induction false} ScanReads(s: string) returns (pre: string, token: string, post: string)
    ensures Reads(TrailerFrom(NoBreak, s), s, pre, token, post)
  {
    if s == "" {
      pre, token, post := "", "", "";
    } else {
      var front, c := s[..|s| - 1], s[|s| - 1];
      pre, token, post := ScanReads(front);
      InitLast(s);
      hide Reads, TrailerStep;
      if c == '\n' {
        pre, post := ReadsBreak(TrailerFrom(NoBreak, front), front, pre, token, post);
      } else {
        token, post := ReadsOther(TrailerFrom(NoBreak, front), front, pre, token, post, c);
      }
    }
  }

  lemma TrailerPush(st: Trailer, s: string, c: char)
    ensures TrailerFrom(st, s + [c]) == TrailerStep(TrailerFrom(st, s), c)
  {
    InitOfPush(s, c);
  }

  lemma {:induction false} TrailerAppend(st: Trailer, a: string, b: string)
    ensures TrailerFrom(st, a + b) == TrailerFrom(TrailerFrom(st, a), b)
    decreases |b|
  {
    if b == "" {
      AppendNothing(a);
    } else {
      TrailerAppend(st, a, b[..|b| - 1]);
      AppendFromLast(a, b);
      hide TrailerStep;
    }
  }

  lemma {:induction false} SeenStays(s: string)
    ensures TrailerFrom(Seen, s) == Seen
  {
    if s != "" {
      SeenStays(s[..|s| - 1]);
    }
  }

  lemma {:induction false} TokenRead(st: Trailer, token: string)
    requires IsToken(token) && (st == TwoBreaks || st == Seen)
    ensures TrailerFrom(st, token) == if st.Seen? then Seen else InToken
  {
    var front, c := token[..|token| - 1], token[|token| - 1];
    if |token| == 1 {
      assert front == "";
    } else {
      TokenRead(st, front);
    }
  }

  lemma PairRead(st: Trailer, x: char, y: char)
    ensures TrailerFrom(st, [x, y]) == TrailerStep(TrailerStep(st, x), y)
  {
    assert [x, y] == ([] + [x]) + [y];
    TrailerPush(st, [] + [x], y);
    TrailerPush(st, [], x);
  }

  lemma TrailerIsSeen(message: string, pre: string, token: string, post: string)
    requires HasTrailer(message, pre, token, post)
    ensures HasTrailerBlock(message)
  {
    var st := TrailerFrom(NoBreak, pre);
    TrailerAppend(NoBreak, pre + "\n\n" + token + ": ", post);
    TrailerAppend(NoBreak, pre + "\n\n" + token, ": ");
    TrailerAppend(NoBreak, pre + "\n\n", token);
    TrailerAppend(NoBreak, pre, "\n\n");
    PairRead(st, '\n', '\n');
    var broken := TrailerStep(TrailerStep(st, '\n'), '\n');
    TokenRead(broken, token);
    PairRead(TrailerFrom(broken, token), ':', ' ');
    SeenStays(post);
    hide TrailerFrom, IsToken;
  }

  /** The scan finds a trailer block exactly when the message has one. */
  lemma TrailerBlockExactly(message: string)
    ensures HasTrailerBlock(message) <==> exists pre, token, post :: HasTrailer(message, pre, token, post)
  {
    if HasTrailerBlock(message) {
      var pre, token, post := ScanReads(message);
      assert HasTrailer(message, pre, token, post);
    }
    if pre, token, post :| HasTrailer(message, pre, token, post) {
      TrailerIsSeen(message, pre, token, post);
    }
    hide HasTrailer, HasTrailerBlock;
  }

  // ---------------------------------------------------------------------------
  // The amended message, written out
  // ---------------------------------------------------------------------------

  /** One break before a line that joins a trailer block, a blank line before one that does not. */
  ghost function Joint(text: string): string {
    if exists pre, token, post :: HasTrailer(text, pre, token, post) then "\n" else "\n\n"
  }

  lemma JointExactly(text: string, line: string)
    ensures WithLine(text, line) == text + Joint(text) + line && IsGap(Joint(text))
  {
    TrailerBlockExactly(text);
    hide HasTrailer, HasTrailerBlock;
  }

  /** The message with its footer, if one is wanted and missing. */
  ghost function WithFooter(current: string, footer: string): string {
    if footer != "" && !(exists a, b :: current == a + footer + b) then current + Joint(current) + footer else current
  }

  lemma IncludesExactly(s: string, f: string)
    ensures Includes(s, f) <==> exists a, b :: s == a + f + b
  {
    if Includes(s, f) {
      var a, b := IncludesMeans(s, f);
    }
    if a, b :| s == a + f + b {
      IncludedBetween(a, f, b);
    }
    hide Includes;
  }

  lemma FootedIs(current: string, footer: string)
    ensures Footed(current, footer) == WithFooter(current, footer)
  {
    IncludesExactly(current, footer);
    JointExactly(current, footer);
    hide Includes, WithLine, Joint;
  }

  /**
   * The stored message: what was there, cleaned; the footer, if it is wanted
   * and missing; the Change-Id, if one is wanted. Each is joined by one break to
   * a text that has a trailer block, and set off by a blank line from any other.
   */
  lemma AmendedText(message: string, footer: string, wanted: string)
    requires NotBlank(message) && (footer == "" || FooterLine(footer))
    ensures var current := Trim(message);
            var footed := WithFooter(current, footer);
            && Cleaned(footed) == (if footed == current then Cleaned(current) else Cleaned(current) + Joint(current) + Cleaned(footer))
            && Amended(message, footer, wanted)
               == if wanted != "" then Cleaned(footed) + Joint(footed) + Cleaned("Change-Id: " + wanted)
                  else if footed == current then message else Cleaned(footed)
  {
    var current := Trim(message);
    var footed := WithFooter(current, footer);
    TrimmedReads(message);
    FootedIs(current, footer);
    TrimmedCleaned(current);
    assert Shape(footed) by {
      FootedShape(current, footer);
    }
    if footed != current {
      JointExactly(current, footer);
      LineAppended(current, Joint(current), footer);
    }
    if wanted != "" {
      JointExactly(footed, "Change-Id: " + wanted);
      IdLineBegins(wanted);
      LineAppended(footed, Joint(footed), "Change-Id: " + wanted);
      NewMessageDiffers(current, footer, wanted);
    }
    hide Cleaned, CleanFrom, Joint, WithLine, Trim, Footed, HasTrailer, FooterLine;
  }

  /** Text that a line can be appended to. */
  predicate Shape(text: string) {
    CleanFrom(NEW, text).breaks == 0 && CleanFrom(NEW, text).kept != ""
  }

  lemma FootedShape(current: string, footer: string)
    requires Begins(current) && !IsWhitespace(current[|current| - 1]) && (footer == "" || FooterLine(footer))
    ensures Shape(WithFooter(current, footer))
  {
    FootedIs(current, footer);
    if footer == "" {
      TrimmedCleaned(current);
    } else {
      FootedCleaned(current, footer);
    }
    hide Footed, CleanFrom, Joint, FooterLine;
  }
}
