/** Splitting text at newlines and joining it again. */
module Text {

  ghost predicate OneLine(s: string) {
    forall i :: 0 <= i < |s| ==> s[i] != '\n'
  }

  ghost predicate Lines(lines: seq<string>) {
    forall i :: 0 <= i < |lines| ==> OneLine(lines[i])
  }

  function Split(text: string): (lines: seq<string>)
    ensures lines != []
    ensures Lines(lines)
  {
    if text == "" then [""] else Push(text[0], Split(text[1..]))
  }

  /** The lines of a text with one more character in front. */
  function Push(c: char, lines: seq<string>): (longer: seq<string>)
    requires lines != []
    ensures longer != []
    ensures Lines(lines) ==> Lines(longer)
  {
    if c == '\n' then [""] + lines else [[c] + lines[0]] + lines[1..]
  }

  function Join(lines: seq<string>): string
    requires lines != []
  {
    if |lines| == 1 then lines[0] else lines[0] + "\n" + Join(lines[1..])
  }

  function Final(lines: seq<string>): string
    requires lines != []
  {
    lines[|lines| - 1]
  }

  function Init(lines: seq<string>): seq<string>
    requires lines != []
  {
    lines[..|lines| - 1]
  }

  lemma {:induction false} JoinInvertsSplit(text: string)
    ensures Join(Split(text)) == text
  {
    if text != "" {
      JoinInvertsSplit(text[1..]);
      var rest := Split(text[1..]);
      var lines := Split(text);
      if text[0] == '\n' {
        assert lines[1..] == rest;
      } else if |rest| > 1 {
        assert lines[1..] == rest[1..];
      }
    }
  }

  lemma SplitOfCons(c: char, text: string)
    ensures Split([c] + text) == Push(c, Split(text))
  {
    assert ([c] + text)[1..] == text;
  }

  lemma {:induction false} SplitOfLine(line: string, text: string)
    requires OneLine(line)
    ensures Split(line) == [line]
    ensures Split(line + "\n" + text) == [line] + Split(text)
  {
    if line == "" {
      SplitOfCons('\n', text);
      assert line + "\n" + text == ['\n'] + text;
    } else {
      SplitOfLine(line[1..], text);
      SplitOfCons(line[0], line[1..] + "\n" + text);
      assert line == [line[0]] + line[1..];
      assert line + "\n" + text == [line[0]] + (line[1..] + "\n" + text);
    }
  }

  lemma {:induction false} SplitInvertsJoin(lines: seq<string>)
    requires lines != [] && Lines(lines)
    ensures Split(Join(lines)) == lines
  {
    if |lines| == 1 {
      SplitOfLine(lines[0], "");
    } else {
      SplitInvertsJoin(lines[1..]);
      SplitOfLine(lines[0], Join(lines[1..]));
    }
  }

  /** Text that arrives after `text` only continues its last line. */
  lemma {:induction false} SplitContinues(text: string, more: string)
    ensures Split(text + more) == Init(Split(text)) + Split(Final(Split(text)) + more)
  {
    if text == "" {
      assert text + more == more;
    } else {
      var c, tail := text[0], text[1..];
      SplitContinues(tail, more);
      assert text + more == [c] + (tail + more);
      SplitOfCons(c, tail + more);
      PushContinues(c, Split(tail), more);
    }
  }

  lemma PushContinues(c: char, lines: seq<string>, more: string)
    requires lines != []
    ensures Push(c, Init(lines) + Split(Final(lines) + more))
         == Init(Push(c, lines)) + Split(Final(Push(c, lines)) + more)
  {
    if c == '\n' {
      assert Init([""] + lines) == [""] + Init(lines);
    } else if |lines| > 1 {
      PushIntoFirst(c, lines, Split(Final(lines) + more));
    } else {
      assert Init(lines) == [] && Init(Push(c, lines)) == [];
      assert Final(Push(c, lines)) + more == [c] + (Final(lines) + more);
      SplitOfCons(c, Final(lines) + more);
    }
  }

  lemma PushIntoFirst(c: char, lines: seq<string>, last: seq<string>)
    requires |lines| > 1 && last != [] && c != '\n'
    ensures Final(Push(c, lines)) == Final(lines)
    ensures Push(c, Init(lines) + last) == Init(Push(c, lines)) + last
  {
    var first, middle := [[c] + lines[0]], Init(lines)[1..];
    assert Init(Push(c, lines)) == first + middle;
    var joined := Init(lines) + last;
    assert joined[0] == lines[0] && joined[1..] == middle + last;
    assert first + (middle + last) == (first + middle) + last;
  }

  lemma CompleteAndHeld(text: string, more: string)
    ensures var s, t := Split(text + more), Split(Final(Split(text)) + more);
            Init(s) == Init(Split(text)) + Init(t) && Final(s) == Final(t)
  {
    SplitContinues(text, more);
  }
}
