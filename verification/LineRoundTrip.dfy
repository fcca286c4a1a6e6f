/**
 What prefixing does to the lines of a message: line for line, the prefix and nothing else.
 */
module LineRoundTrip {
  import opened LinePrefixer
  import opened Sequences

  predicate IsTerminator(t: string) {
    t == "\r\n" || t == "\n" || t == "\r"
  }

  /** The two line terminators a platform writes. */
  predicate IsNewLine(t: string) {
    t == "\r\n" || t == "\n"
  }

  function PrefixAll(lines: seq<string>, prefix: string): seq<string> {
    if lines == [] then [] else [prefix + lines[0]] + PrefixAll(lines[1..], prefix)
  }

  function StripAll(lines: seq<string>, n: nat): seq<string> {
    if lines == [] then [] else [if n <= |lines[0]| then lines[0][n..] else lines[0]] + StripAll(lines[1..], n)
  }

  predicate AllNoBreaks(lines: seq<string>) {
    forall i :: 0 <= i < |lines| ==> NoBreaks(lines[i])
  }

  // ---------------------------------------------------------------- reading lines

  lemma {:induction false} LineEndOf(line: string, rest: string)
    requires NoBreaks(line) && (rest == "" || IsBreak(rest[0]))
    ensures LineEnd(line + rest) == |line|
  {
    if line == "" {
      assert line + rest == rest;
    } else {
      assert (line + rest)[1..] == line[1..] + rest && (line + rest)[0] == line[0];
      LineEndOf(line[1..], rest);
    }
  }

  lemma NextLineOf(line: string, t: string, rest: string)
    requires NoBreaks(line) && IsTerminator(t) && (t == "\r" ==> rest == "" || rest[0] != '\n')
    ensures LineEnd(line + (t + rest)) == |line| && NextLine(line + (t + rest)) == |line| + |t|
  {
    LineEndOf(line, t + rest);
    var s, n := line + (t + rest), |line|;
    assert s[n] == t[0];
    if n + 1 < |s| {
      assert s[n + 1] == (t + rest)[1];
    }
  }

  lemma Parts(line: string, t: string, rest: string)
    ensures (line + (t + rest))[..|line|] == line && (line + (t + rest))[|line| + |t|..] == rest
  {}

  lemma LinesFrom(s: string, line: string, rest: string, e: nat, n: nat)
    requires LineEnd(s) == e && NextLine(s) == n && e < n <= |s| && s[..e] == line && s[n..] == rest
    ensures Lines(s) == [line] + Lines(rest)
  {}

  lemma LinesOfBroken(line: string, t: string, rest: string)
    requires NoBreaks(line) && IsTerminator(t) && (t == "\r" ==> rest == "" || rest[0] != '\n')
    ensures Lines(line + (t + rest)) == [line] + Lines(rest)
  {
    NextLineOf(line, t, rest);
    Parts(line, t, rest);
    LinesFrom(line + (t + rest), line, rest, |line|, |line| + |t|);
  }

  lemma LinesOfOne(line: string)
    requires NoBreaks(line) && line != ""
    ensures Lines(line) == [line]
  {
    LineEndOf(line, "");
    assert line + "" == line && line[..|line|] == line && line[|line|..] == "";
  }

  lemma {:induction false} LinesHaveNoBreaks(s: string)
    ensures AllNoBreaks(Lines(s))
    decreases |s|
  {
    if s != "" {
      LinesHaveNoBreaks(s[NextLine(s)..]);
    }
  }

  /** Only a terminated last line can be empty. */
  lemma {:induction false} LastLineNotEmpty(s: string)
    requires s != ""
    ensures Lines(s) != [] && (Terminator(s) == "" ==> Lines(s)[|Lines(s)| - 1] != "")
    decreases |s|
  {
    var rest := s[NextLine(s)..];
    if rest != "" {
      LastLineNotEmpty(rest);
      assert rest[|rest| - 1] == s[|s| - 1];
    }
  }

  // ---------------------------------------------------------------- the prefixed message

  predicate Joinable(lines: seq<string>, prefix: string, newLine: string) {
    lines != [] && AllNoBreaks(lines) && NoBreaks(prefix) && IsNewLine(newLine)
  }

  lemma LinesOfJoinedOne(line: string, prefix: string, t: string)
    requires NoBreaks(prefix) && NoBreaks(line) && (t == "" || IsTerminator(t)) && (t == "" ==> prefix + line != "")
    ensures Lines(prefix + line + t) == [prefix + line]
  {
    if t == "" {
      assert prefix + line + t == prefix + line;
      LinesOfOne(prefix + line);
    } else {
      assert t + "" == t;
      LinesOfBroken(prefix + line, t, "");
    }
  }

  lemma {:induction false} LinesOfJoined(lines: seq<string>, prefix: string, newLine: string, t: string)
    requires Joinable(lines, prefix, newLine) && (t == "" || IsTerminator(t))
    requires t == "" ==> prefix + lines[|lines| - 1] != ""
    ensures Lines(Joined(lines, prefix, newLine) + t) == PrefixAll(lines, prefix)
  {
    if |lines| == 1 {
      LinesOfJoinedOne(lines[0], prefix, t);
    } else {
      var first, rest := prefix + lines[0], lines[1..];
      LinesOfJoined(rest, prefix, newLine, t);
      PlusAssociates(first, newLine + Joined(rest, prefix, newLine), t);
      PlusAssociates(newLine, Joined(rest, prefix, newLine), t);
      LinesOfBroken(first, newLine, Joined(rest, prefix, newLine) + t);
    }
  }

  /** How joined lines end: never with a carriage return, and with no line break if their last line is not empty. */
  predicate EndsWell(s: string, lastLine: string) {
    && (s != "" ==> s[|s| - 1] != '\r')
    && (lastLine != "" ==> s != "" && !IsBreak(s[|s| - 1]))
  }

  lemma {:induction false} JoinedEndsWell(lines: seq<string>, prefix: string, newLine: string)
    requires Joinable(lines, prefix, newLine)
    ensures EndsWell(Joined(lines, prefix, newLine), prefix + lines[|lines| - 1])
  {
    if |lines| == 1 {
      var line := prefix + lines[0];
      assert NoBreaks(line);
    } else {
      JoinedEndsWell(lines[1..], prefix, newLine);
      EndsWellAfter(prefix + lines[0], newLine, Joined(lines[1..], prefix, newLine), prefix + lines[|lines| - 1]);
    }
  }

  lemma EndsWellAfter(first: string, newLine: string, rest: string, lastLine: string)
    requires IsNewLine(newLine) && EndsWell(rest, lastLine)
    ensures EndsWell(first + (newLine + rest), lastLine)
  {}

  lemma TerminatorAfter(s: string, t: string, lastLine: string)
    requires EndsWell(s, lastLine) && (t == "" || IsTerminator(t)) && (t == "" ==> lastLine != "")
    ensures Terminator(s + t) == t
  {}

  /**
   Each line of the message comes out with the prefix in front and nothing else changed, no line is added or lost,
   and the message's own final line terminator, or its absence, is preserved.
   */
  lemma PrefixedLines(input: string, prefix: string, newLine: string)
    requires input != "" && NoBreaks(prefix) && IsNewLine(newLine)
    ensures Lines(Prefixed(input, prefix, newLine)) == PrefixAll(Lines(input), prefix)
    ensures Terminator(Prefixed(input, prefix, newLine)) == Terminator(input)
  {
    var lines, t := Lines(input), Terminator(input);
    LinesHaveNoBreaks(input);
    LastLineNotEmpty(input);
    LinesOfJoined(lines, prefix, newLine, t);
    JoinedEndsWell(lines, prefix, newLine);
    TerminatorAfter(Joined(lines, prefix, newLine), t, prefix + lines[|lines| - 1]);
  }

  // ---------------------------------------------------------------- and back

  lemma {:induction false} StripPrefixes(lines: seq<string>, prefix: string)
    ensures StripAll(PrefixAll(lines, prefix), |prefix|) == lines
  {
    if lines != [] {
      StripPrefixes(lines[1..], prefix);
      assert (prefix + lines[0])[|prefix|..] == lines[0];
      var all := PrefixAll(lines, prefix);
      assert all[0] == prefix + lines[0] && all[1..] == PrefixAll(lines[1..], prefix);
    }
  }

  predicate OnlyLineFeeds(s: string) {
    forall i :: 0 <= i < |s| ==> s[i] != '\r'
  }

  lemma JoinedFirst(line: string, rest: seq<string>)
    requires rest != []
    ensures Joined([line] + rest, "", "\n") == line + ("\n" + Joined(rest, "", "\n"))
  {}

  lemma TerminatorOfRest(line: string, rest: string)
    requires rest != "" && OnlyLineFeeds(line + ("\n" + rest))
    ensures Terminator(line + ("\n" + rest)) == Terminator(rest)
  {}

  lemma JoinNext(line: string, rest: string, joined: string)
    requires NoBreaks(line) && rest != "" && OnlyLineFeeds(line + ("\n" + rest))
    requires joined == Joined(Lines(rest), "", "\n") && joined + Terminator(rest) == rest
    ensures Joined(Lines(line + ("\n" + rest)), "", "\n") + Terminator(line + ("\n" + rest)) == line + ("\n" + rest)
  {
    LinesOfBroken(line, "\n", rest);
    LastLineNotEmpty(rest);
    JoinedFirst(line, Lines(rest));
    TerminatorOfRest(line, rest);
    PlusAssociates(line, "\n" + joined, Terminator(rest));
    PlusAssociates("\n", joined, Terminator(rest));
  }

  lemma CutAt(s: string, e: nat)
    requires e < |s| && s[e] == '\n'
    ensures s == s[..e] + ("\n" + s[e + 1..])
  {}

  lemma FirstBreakIsLineFeed(s: string)
    requires OnlyLineFeeds(s) && NextLine(s) < |s|
    ensures s == s[..LineEnd(s)] + ("\n" + s[NextLine(s)..]) && OnlyLineFeeds(s[NextLine(s)..])
  {
    var e := LineEnd(s);
    assert s[e] != '\r';
    assert e < |s| && s[e] == '\n' && NextLine(s) == e + 1;
    CutAt(s, e);
  }

  lemma {:induction false} JoinLines(s: string)
    requires OnlyLineFeeds(s)
    ensures Joined(Lines(s), "", "\n") + Terminator(s) == s
    decreases |s|
  {
    if s != "" {
      if NextLine(s) == |s| {
        JoinLastLine(s);
      } else {
        FirstBreakIsLineFeed(s);
        var rest := s[NextLine(s)..];
        JoinLines(rest);
        JoinNext(s[..LineEnd(s)], rest, Joined(Lines(rest), "", "\n"));
      }
    }
  }

  lemma JoinedOne(line: string)
    ensures Joined([line], "", "\n") == line
  {}

  lemma CutAtEnd(s: string, e: nat)
    requires e + 1 == |s| && s[e] == '\n'
    ensures s == s[..e] + "\n" && Terminator(s) == (if e > 0 && s[e - 1] == '\r' then "\r\n" else "\n")
  {}

  lemma JoinLastLine(s: string)
    requires s != "" && OnlyLineFeeds(s) && NextLine(s) == |s|
    ensures Joined(Lines(s), "", "\n") + Terminator(s) == s
  {
    var e := LineEnd(s);
    assert Lines(s) == [s[..e]];
    JoinedOne(s[..e]);
    if e < |s| {
      assert s[e] != '\r' && e + 1 == |s|;
      CutAtEnd(s, e);
    } else {
      assert s[..e] == s && !IsBreak(s[|s| - 1]);
    }
  }

  /** Where only line feeds are used, taking the prefixes off again gives the message back. */
  lemma StripUndoesPrefix(input: string, prefix: string)
    requires input != "" && NoBreaks(prefix) && OnlyLineFeeds(input)
    ensures
      var output := Prefixed(input, prefix, "\n");
      Joined(StripAll(Lines(output), |prefix|), "", "\n") + Terminator(output) == input
  {
    PrefixedLines(input, prefix, "\n");
    StripPrefixes(Lines(input), prefix);
    JoinLines(input);
  }

  // ---------------------------------------------------------------- the output, line by line

  /** A message without a line break, empty or not, and one with a line break at its end. */
  lemma PrefixedOneLine(line: string, t: string, prefix: string, newLine: string)
    requires NoBreaks(line) && IsTerminator(t)
    ensures Prefixed(line, prefix, newLine) == prefix + line
    ensures Prefixed(line + t, prefix, newLine) == prefix + line + t
  {
    OneLineUnbroken(line, prefix, newLine);
    LinesOfBroken(line, t, "");
    assert t + "" == t;
    assert Lines(line + t) == [line] && Terminator(line + t) == t;
  }

  lemma OneLineUnbroken(line: string, prefix: string, newLine: string)
    requires NoBreaks(line)
    ensures Prefixed(line, prefix, newLine) == prefix + line
  {
    if line == "" {
      assert prefix + line == prefix;
    } else {
      LinesOfOne(line);
      assert Terminator(line) == "";
    }
  }

  lemma TerminatorOfLast(line: string, t: string, rest: string)
    requires IsTerminator(t) && rest != "" && (t == "\r" ==> rest[0] != '\n')
    ensures Terminator(line + (t + rest)) == Terminator(rest)
  {}

  lemma JoinedMore(line: string, rest: seq<string>, prefix: string, newLine: string)
    requires rest != []
    ensures Joined([line] + rest, prefix, newLine) == prefix + line + (newLine + Joined(rest, prefix, newLine))
  {}

  /**
   Whatever line break the message has between two lines, the platform's own takes its place, and each line starts with
   the prefix; with PrefixedOneLine this gives the output for every message.
   */
  lemma PrefixedMoreLines(line: string, t: string, rest: string, prefix: string, newLine: string)
    requires NoBreaks(line) && IsTerminator(t) && rest != "" && (t == "\r" ==> rest[0] != '\n')
    ensures Prefixed(line + (t + rest), prefix, newLine) == prefix + line + newLine + Prefixed(rest, prefix, newLine)
  {
    LinesOfBroken(line, t, rest);
    LastLineNotEmpty(rest);
    JoinedMore(line, Lines(rest), prefix, newLine);
    TerminatorOfLast(line, t, rest);
    var joined := Joined(Lines(rest), prefix, newLine);
    PlusAssociates(prefix + line, newLine + joined, Terminator(rest));
    PlusAssociates(newLine, joined, Terminator(rest));
    PlusAssociates(prefix + line, newLine, Prefixed(rest, prefix, newLine));
  }
}
