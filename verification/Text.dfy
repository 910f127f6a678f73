/** Text primitives the source takes from JavaScript: `trim`, `/\s/`, and splitting at line breaks. */
module Text {
  import opened Seqs

  /** The characters `trim()` removes and `\s` matches. */
  predicate IsWhitespace(c: char) {
    var n := c as int;
    9 <= n <= 13 || n == 32 || n == 0xA0 || n == 0x1680 || 0x2000 <= n <= 0x200A
    || n == 0x2028 || n == 0x2029 || n == 0x202F || n == 0x205F || n == 0x3000 || n == 0xFEFF
  }

  function TrimStart(s: string): (r: string)
    ensures r == "" || !IsWhitespace(r[0])
  {
    if s != "" && IsWhitespace(s[0]) then TrimStart(s[1..]) else s
  }

  function TrimEnd(s: string): (r: string)
    ensures r == "" || (s != "" && r[0] == s[0] && !IsWhitespace(r[|r| - 1]))
  {
    if s != "" && IsWhitespace(s[|s| - 1]) then TrimEnd(s[..|s| - 1]) else s
  }

  function Trim(s: string): (r: string)
    ensures r == "" || (!IsWhitespace(r[0]) && !IsWhitespace(r[|r| - 1]))
  {
    TrimEnd(TrimStart(s))
  }

  /** The line without the one carriage return that belongs to a CRLF break. */
  function DropCr(line: string): string {
    if line != "" && line[|line| - 1] == '\r' then line[..|line| - 1] else line
  }

  /** A text read so far: the lines a break has ended, and what follows the last break. */
  datatype Lines = Lines(complete: seq<string>, rest: string)

  function Read(lines: Lines, c: char): Lines {
    if c == '\n' then Lines(lines.complete + [DropCr(lines.rest)], "")
    else lines.(rest := lines.rest + [c])
  }

  /** `split(/\r?\n/)`, with the last piece apart. */
  function Split(s: string): Lines {
    if s == "" then Lines([], "") else Read(Split(s[..|s| - 1]), s[|s| - 1])
  }

  /** `split(/\r?\n/)`. */
  function SplitLines(s: string): (r: seq<string>)
    ensures |r| > 0
  {
    Split(s).complete + [Split(s).rest]
  }

  lemma SplitPush(s: string, n: nat)
    requires n < |s|
    ensures Split(s[..n + 1]) == Read(Split(s[..n]), s[n])
  {
    TakeTake(s, n + 1, n);
  }

  /** What follows the last break holds no break. */
  lemma {:induction false} RestIsUnbroken(s: string)
    ensures Split(Split(s).rest) == Lines([], Split(s).rest)
  {
    if s != "" && s[|s| - 1] != '\n' {
      RestIsUnbroken(s[..|s| - 1]);
      var rest := Split(s[..|s| - 1]).rest;
      assert (rest + [s[|s| - 1]])[..|rest|] == rest;
    }
  }

  /**
   * Splitting commutes with cutting the text anywhere, even between '\r' and
   * '\n', provided the unfinished last line is carried into the next piece.
   */
  lemma {:induction false} SplitAppend(x: string, y: string)
    ensures Split(x + y).complete == Split(x).complete + Split(Split(x).rest + y).complete
    ensures Split(x + y).rest == Split(Split(x).rest + y).rest
    decreases |y|
  {
    var rest := Split(x).rest;
    if y == "" {
      RestIsUnbroken(x);
      assert x + y == x && rest + y == rest;
    } else {
      var front, c := y[..|y| - 1], y[|y| - 1];
      SplitAppend(x, front);
      assert (x + y)[..|x + y| - 1] == x + front && (rest + y)[..|rest + y| - 1] == rest + front;
      var mid := Split(rest + front);
      AppendAssociative(Split(x).complete, mid.complete, [DropCr(mid.rest)]);
    }
  }

  /** `join("\n")`. */
  function JoinLines(lines: seq<string>): string {
    if lines == [] then ""
    else if |lines| == 1 then lines[0]
    else JoinLines(lines[..|lines| - 1]) + "\n" + lines[|lines| - 1]
  }

  /** A line that splitting does not break or shorten. */
  predicate IsLine(line: string) {
    '\n' !in line && DropCr(line) == line
  }

  lemma {:induction false} ReadUnbroken(s: string, line: string)
    requires '\n' !in line
    ensures Split(s + line) == Lines(Split(s).complete, Split(s).rest + line)
    decreases |line|
  {
    if line == "" {
      AppendNothing(s);
      AppendNothing(Split(s).rest);
    } else {
      var front, c := line[..|line| - 1], line[|line| - 1];
      InitLast(line);
      ReadUnbroken(s, front);
      AppendAssociative(s, front, [c]);
      AppendAssociative(Split(s).rest, front, [c]);
      InitOfPush(s + front, c);
    }
  }

  /** Splitting undoes joining. */
  lemma {:induction false} SplitJoin(lines: seq<string>)
    requires lines != [] && forall i | 0 <= i < |lines| :: IsLine(lines[i])
    ensures Split(JoinLines(lines)) == Lines(lines[..|lines| - 1], lines[|lines| - 1])
    ensures SplitLines(JoinLines(lines)) == lines
  {
    var front, last := lines[..|lines| - 1], lines[|lines| - 1];
    InitLast(lines);
    if |lines| == 1 {
      ReadUnbroken("", last);
      AppendNothing(last);
    } else {
      SplitJoin(front);
      var joined := JoinLines(front);
      InitOfPush(joined, '\n');
      InitLast(front);
      ReadUnbroken(joined + "\n", last);
      AppendNothing(last);
    }
  }

  /** Decimal digits of a number, as template literals print it. */
  function Decimal(n: nat): (r: string)
    ensures |r| > 0
    ensures forall k :: 0 <= k < |r| ==> '0' <= r[k] <= '9'
  {
    if n < 10 then [Digit(n)] else Decimal(n / 10) + [Digit(n % 10)]
  }

  function Digit(d: nat): (c: char)
    requires d < 10
    ensures '0' <= c <= '9'
  {
    '0' + d as char
  }

  lemma {:induction false} DecimalInjective(m: nat, n: nat)
    requires Decimal(m) == Decimal(n)
    ensures m == n
  {
    var a, b := Decimal(m), Decimal(n);
    assert a[|a| - 1] == Digit(m % 10) && b[|b| - 1] == Digit(n % 10);
    assert m % 10 == n % 10;
    if m >= 10 && n >= 10 {
      assert a[..|a| - 1] == Decimal(m / 10) && b[..|b| - 1] == Decimal(n / 10);
      DecimalInjective(m / 10, n / 10);
    }
  }

  lemma {:induction false} CancelPrefix(p: string, a: string, b: string)
    requires p + a == p + b
    ensures a == b
  {
    assert |a| == |b|;
    forall k | 0 <= k < |a| ensures a[k] == b[k] {
      assert (p + a)[|p| + k] == a[k];
    }
  }

  predicate Lacks(s: string, c: char) {
    forall k :: 0 <= k < |s| ==> s[k] != c
  }

  lemma SeparatorAfter(a: string, c: char, s: string)
    ensures (a + [c] + s)[|a|] == c
    ensures forall k :: 0 <= k < |a| ==> (a + [c] + s)[k] == a[k]
  {
  }

  /** Texts without a character, each followed by it, are told apart. */
  lemma SplitAtSeparator(a: string, s: string, b: string, t: string, c: char)
    requires a + [c] + s == b + [c] + t && Lacks(a, c) && Lacks(b, c)
    ensures a == b && s == t
  {
    SeparatorAfter(a, c, s);
    SeparatorAfter(b, c, t);
    assert |a| == |b|;
    assert a == b;
    CancelPrefix(a + [c], s, t);
  }

  /** The whitespace of ECMAScript: tab to carriage return, the spaces, the separators and the byte order mark. */
  lemma WhitespaceIs(c: char)
    ensures IsWhitespace(c)
       <==> || c in {'\t', '\n', 11 as char, 12 as char, '\r', ' ', 0xA0 as char, 0x1680 as char}
            || 0x2000 as char <= c <= 0x200A as char
            || c in {0x2028 as char, 0x2029 as char, 0x202F as char, 0x205F as char, 0x3000 as char, 0xFEFF as char}
  {
  }

  predicate AllSpace(s: string) {
    forall k :: 0 <= k < |s| ==> IsWhitespace(s[k])
  }

  /** Trimming takes the whitespace off both ends, and nothing else. */
  lemma TrimExactly(before: string, text: string, after: string)
    requires AllSpace(before) && AllSpace(after) && text != "" && !IsWhitespace(text[0]) && !IsWhitespace(text[|text| - 1])
    ensures Trim(before + text + after) == text && Trim(before) == ""
  {
    StartTrimmed(before, text + after);
    StartTrimmed(before, "");
    EndTrimmed(text, after);
    EndTrimmed("", "");
    AppendAssociative(before, text, after);
    AppendNothing(before);
  }

  lemma {:induction false} StartTrimmed(before: string, rest: string)
    requires AllSpace(before) && (rest == "" || !IsWhitespace(rest[0]))
    ensures TrimStart(before + rest) == rest
  {
    if before != "" {
      assert (before + rest)[1..] == before[1..] + rest;
      assert forall k :: 0 <= k < |before[1..]| ==> before[1..][k] == before[k + 1];
      StartTrimmed(before[1..], rest);
    } else {
      AppendNothing(rest);
    }
  }

  lemma {:induction false} EndTrimmed(text: string, after: string)
    requires AllSpace(after) && (text == "" || !IsWhitespace(text[|text| - 1]))
    ensures TrimEnd(text + after) == text
    decreases |after|
  {
    if after != "" {
      AppendFromLast(text, after);
      EndTrimmed(text, after[..|after| - 1]);
    } else {
      AppendNothing(text);
    }
  }

  /**
   * Where a text is cut: at a line feed, or at a carriage return and a line
   * feed, which then both go; what comes before and after is cut on its own.
   */
  lemma CutAtBreak(line: string, rest: string)
    requires '\n' !in line && (line == "" || line[|line| - 1] != '\r')
    ensures SplitLines(line) == [line]
    ensures SplitLines(line + "\n" + rest) == [line] + SplitLines(rest)
    ensures SplitLines(line + "\r\n" + rest) == [line] + SplitLines(rest)
  {
    LineAlone(line);
    BreakReads(line, line);
    BreakCuts(line, line, rest);
    CarriageIsUnbroken(line);
    BreakReads(line + "\r", line);
    BreakCuts(line + "\r", line, rest);
    assert line + "\r\n" == line + "\r" + "\n";
    hide *;
  }

  lemma LineAlone(line: string)
    requires '\n' !in line && (line == "" || line[|line| - 1] != '\r')
    ensures SplitLines(line) == [line] && DropCr(line) == line
  {
    ReadUnbroken("", line);
    AppendNothing(line);
  }

  lemma BreakCuts(text: string, line: string, rest: string)
    requires Split(text + "\n") == Lines([line], "")
    ensures SplitLines(text + "\n" + rest) == [line] + SplitLines(rest)
  {
    SplitAppend(text + "\n", rest);
    AppendNothing(rest);
    AppendAssociative([line], Split(rest).complete, [Split(rest).rest]);
    hide Split;
  }

  lemma CarriageIsUnbroken(line: string)
    requires '\n' !in line
    ensures '\n' !in line + "\r" && DropCr(line + "\r") == line
  {
    assert (line + "\r")[..|line|] == line;
  }

  lemma BreakReads(text: string, line: string)
    requires '\n' !in text && DropCr(text) == line
    ensures Split(text + "\n") == Lines([line], "")
  {
    ReadUnbroken("", text);
    AppendNothing(text);
    InitOfPush(text, '\n');
    assert [] + [line] == [line];
  }
}
