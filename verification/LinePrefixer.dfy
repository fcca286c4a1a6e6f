/**
 The trace target that puts a prefix in front of every line of a message: it reads the message line by line, and
 writes the platform's line terminator between lines and the message's own one at the end.
 */
module LinePrefixer {
  import opened Wrappers

  // ---------------------------------------------------------------- lines

  predicate IsBreak(c: char) {
    c == '\r' || c == '\n'
  }

  predicate NoBreaks(s: string) {
    forall i :: 0 <= i < |s| ==> !IsBreak(s[i])
  }

  /** Where the first line of s ends. */
  function LineEnd(s: string): (n: nat)
    ensures n <= |s| && NoBreaks(s[..n]) && (n < |s| ==> IsBreak(s[n]))
  {
    if s == [] || IsBreak(s[0]) then 0
    else
      assert s[..1 + LineEnd(s[1..])] == [s[0]] + s[1..][..LineEnd(s[1..])];
      1 + LineEnd(s[1..])
  }

  /** Where the line after it starts: a carriage return with a line feed is one terminator. */
  function NextLine(s: string): (n: nat)
    ensures n <= |s| && (s != [] ==> n > 0)
  {
    var e := LineEnd(s);
    if e == |s| then e
    else if s[e] == '\r' && e + 1 < |s| && s[e + 1] == '\n' then e + 2
    else e + 1
  }

  function Lines(s: string): seq<string>
    decreases |s|
  {
    if s == [] then [] else [s[..LineEnd(s)]] + Lines(s[NextLine(s)..])
  }

  class StringReader {
    const text: string
    var position: nat

    ghost predicate Valid()
      reads this
    {
      position <= |text|
    }

    constructor (text: string)
      ensures Valid() && Remaining() == text
    {
      this.text, position := text, 0;
    }

    ghost function Remaining(): string
      requires Valid()
      reads this
    {
      text[position..]
    }

    method ReadLine() returns (line: Option<string>)
      requires Valid()
      modifies this
      ensures Valid()
      ensures line.None? <==> old(Lines(Remaining())) == []
      ensures line.Some? ==> old(Lines(Remaining())) == [line.value] + Lines(Remaining())
      ensures line.Some? ==> position > old(position)
    {
      var rest := text[position..];
      if rest == [] {
        return None;
      }
      line := Some(rest[..LineEnd(rest)]);
      position := position + NextLine(rest);
      assert text[position..] == rest[NextLine(rest)..];
    }
  }

  // ---------------------------------------------------------------- prefixing

  predicate EndsWith(s: string, end: string) {
    |end| <= |s| && s[|s| - |end|..] == end
  }

  /** The line terminator s ends with, if any. */
  function Terminator(s: string): string {
    if s == "" || !IsBreak(s[|s| - 1]) then ""
    else if s[|s| - 1] == '\n' && |s| > 1 && s[|s| - 2] == '\r' then "\r\n"
    else [s[|s| - 1]]
  }

  /** The lines, each with the prefix in front, with a line terminator between them. */
  function Joined(lines: seq<string>, prefix: string, newLine: string): string {
    if lines == [] then ""
    else if |lines| == 1 then prefix + lines[0]
    else prefix + lines[0] + (newLine + Joined(lines[1..], prefix, newLine))
  }

  function Prefixed(input: string, prefix: string, newLine: string): string {
    if input == "" then prefix else Joined(Lines(input), prefix, newLine) + Terminator(input)
  }

  lemma {:induction false} JoinedPlus(lines: seq<string>, line: string, prefix: string, newLine: string)
    ensures Joined(lines + [line], prefix, newLine)
         == (if lines == [] then "" else Joined(lines, prefix, newLine) + newLine) + prefix + line
  {
    if |lines| > 1 {
      assert (lines + [line])[1..] == lines[1..] + [line];
      JoinedPlus(lines[1..], line, prefix, newLine);
    } else if |lines| == 1 {
      assert (lines + [line])[1..] == [line];
    }
  }

  /** The order matters: the longer sequence is looked for first. */
  const END_OF_LINE_CHAR_SEQUENCES: seq<string> := ["\r\n", "\n", "\r"]

  predicate FirstEnding(s: string, endings: seq<string>, i: nat)
    requires i <= |endings|
  {
    (forall k :: 0 <= k < i ==> !EndsWith(s, endings[k])) && (i < |endings| ==> EndsWith(s, endings[i]))
  }

  method FindTerminator(input: string, endings: seq<string>) returns (terminator: string)
    requires endings == END_OF_LINE_CHAR_SEQUENCES
    ensures terminator == Terminator(input)
  {
    for i := 0 to |endings|
      invariant forall k :: 0 <= k < i ==> !EndsWith(input, endings[k])
    {
      if EndsWith(input, endings[i]) {
        TerminatorIs(input, endings, i);
        return endings[i];
      }
    }
    TerminatorIs(input, endings, |endings|);
    return "";
  }

  lemma TerminatorIs(s: string, endings: seq<string>, i: nat)
    requires endings == END_OF_LINE_CHAR_SEQUENCES && i <= 3 && FirstEnding(s, endings, i)
    ensures Terminator(s) == if i < 3 then endings[i] else ""
  {
    EndsWithPair(s);
    EndsWithOne(s, "\n");
    EndsWithOne(s, "\r");
    assert endings[0] == "\r\n" && endings[1] == "\n" && endings[2] == "\r";
  }

  lemma EndsWithPair(s: string)
    ensures EndsWith(s, "\r\n") <==> |s| > 1 && s[|s| - 2] == '\r' && s[|s| - 1] == '\n'
  {}

  lemma EndsWithOne(s: string, c: string)
    requires |c| == 1
    ensures EndsWith(s, c) <==> s != "" && s[|s| - 1] == c[0]
  {}

  /** After some lines have been read, what is written, and what remains to be read. */
  ghost predicate Midway(all: seq<string>, read: seq<string>, rest: seq<string>, result: string, prefix: string,
                         newLine: string)
  {
    all == read + rest && result == Joined(read, prefix, newLine)
  }

  lemma MidwayNext(all: seq<string>, read: seq<string>, line: string, rest: seq<string>, result: string, prefix: string,
                   newLine: string)
    requires Midway(all, read, [line] + rest, result, prefix, newLine)
    ensures Midway(all, read + [line], rest, (if read == [] then result else result + newLine) + prefix + line,
                   prefix, newLine)
  {
    JoinedPlus(read, line, prefix, newLine);
  }

  lemma MidwayEnd(all: seq<string>, read: seq<string>, result: string, prefix: string, newLine: string)
    requires Midway(all, read, [], result, prefix, newLine)
    ensures result == Joined(all, prefix, newLine)
  {
    assert read + [] == read;
  }

  method PrefixEveryLine(input: string, prefix: string, newLine: string) returns (result: string)
    ensures result == Prefixed(input, prefix, newLine)
  {
    if input == "" {
      return prefix;
    }
    result := "";
    var reader := new StringReader(input);
    var isFirstLine := true;
    ghost var all, read: seq<string> := Lines(input), [];
    assert Midway(all, read, all, result, prefix, newLine);
    while true
      invariant reader.Valid() && fresh(reader) && (isFirstLine <==> read == [])
      invariant Midway(all, read, Lines(reader.Remaining()), result, prefix, newLine)
      decreases |reader.text| - reader.position
    {
      ghost var before := result;
      var line := reader.ReadLine();
      if line.None? {
        break;
      }
      MidwayNext(all, read, line.value, Lines(reader.Remaining()), before, prefix, newLine);
      if isFirstLine {
        isFirstLine := false;
      } else {
        result := result + newLine;
      }
      result := result + prefix;
      result := result + line.value;
      read := read + [line.value];
    }
    MidwayEnd(all, read, result, prefix, newLine);
    var terminator := FindTerminator(input, END_OF_LINE_CHAR_SEQUENCES);
    result := result + terminator;
  }
}
