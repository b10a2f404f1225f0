/** The development runner's line prefixer: output arrives in arbitrary chunks and leaves line by line. */
module LineForwarder {
  import opened Text

  // The width of the longer label, `worker`.
  const PREFIX_WIDTH: nat := 6

  function PadEnd(tag: string, width: nat): (padded: string)
    ensures |padded| == if |tag| < width then width else |tag|
    ensures tag <= padded && forall i :: |tag| <= i < |padded| ==> padded[i] == ' '
    decreases width - |tag|
  {
    if |tag| < width then PadEnd(tag + " ", width) else tag
  }

  function Prefixed(tag: string, line: string): string {
    "[" + PadEnd(tag, PREFIX_WIDTH) + "] " + line + "\n"
  }

  function PrefixedAll(tag: string, lines: seq<string>): seq<string> {
    seq(|lines|, i requires 0 <= i < |lines| => Prefixed(tag, lines[i]))
  }

  /** The reference: what a whole text should produce, wherever it was cut. */
  function WholeText(tag: string, text: string): seq<string> {
    var lines := Split(text);
    PrefixedAll(tag, if Final(lines) == "" then Init(lines) else lines)
  }

  lemma PrefixedAllConcat(tag: string, a: seq<string>, b: seq<string>)
    ensures PrefixedAll(tag, a + b) == PrefixedAll(tag, a) + PrefixedAll(tag, b)
  {
  }

  function Concat(chunks: seq<string>): string {
    if chunks == [] then "" else Concat(chunks[..|chunks| - 1]) + chunks[|chunks| - 1]
  }

  class Forwarder {
    const tag: string
    var buffered: string
    var written: seq<string>
    ghost var received: string

    constructor (tag: string)
      ensures this.tag == tag && Valid()
      ensures received == "" && written == []
    {
      this.tag := tag;
      buffered, written, received := "", [], "";
    }

    /** All complete lines received are written; the rest is held and has no newline. */
    ghost predicate Valid()
      reads this
    {
      && written == PrefixedAll(tag, Init(Split(received)))
      && buffered == Final(Split(received))
      && OneLine(buffered)
    }

    method OnData(chunk: string)
      requires Valid()
      modifies this
      ensures Valid() && received == old(received) + chunk
      ensures old(written) <= written
    {
      CompleteAndHeld(received, chunk);
      ghost var before := Init(Split(received));
      received := received + chunk;
      buffered := buffered + chunk;
      var lines := Split(buffered);
      buffered := lines[|lines| - 1];
      lines := lines[..|lines| - 1];
      WriteAll(lines);
      PrefixedAllConcat(tag, before, lines);
    }

    method WriteAll(lines: seq<string>)
      modifies this`written
      ensures written == old(written) + PrefixedAll(tag, lines)
    {
      for i := 0 to |lines|
        invariant written == old(written) + PrefixedAll(tag, lines[..i])
      {
        written := written + [Prefixed(tag, lines[i])];
      }
      assert lines[..|lines|] == lines;
    }

    method OnEnd()
      requires Valid()
      modifies this
      ensures written == WholeText(tag, received)
      ensures received == old(received) && buffered == old(buffered)
    {
      ghost var lines := Split(received);
      if |buffered| > 0 {
        written := written + [Prefixed(tag, buffered)];
        assert lines == Init(lines) + [buffered];
      }
    }
  }

  /** Whatever the chunking, the stream writes what its whole text would write. */
  method Forward(tag: string, chunks: seq<string>) returns (written: seq<string>)
    ensures written == WholeText(tag, Concat(chunks))
  {
    var f := new Forwarder(tag);
    for i := 0 to |chunks|
      invariant f.tag == tag && f.Valid() && fresh(f)
      invariant f.received == Concat(chunks[..i])
    {
      f.OnData(chunks[i]);
      assert chunks[..i + 1][..i] == chunks[..i];
    }
    assert chunks[..|chunks|] == chunks;
    f.OnEnd();
    written := f.written;
  }

  /** The lines written and the text held make up exactly what was received, and nothing complete is held. */
  lemma HeldTextReassembles(text: string)
    ensures var lines := Split(text);
            text == Join(Init(lines) + [Final(lines)]) && OneLine(Final(lines))
  {
    JoinInvertsSplit(text);
    assert Init(Split(text)) + [Final(Split(text))] == Split(text);
  }

  /** What is written for a line: the label in brackets, blanks up to six characters, the line, and a newline. */
  lemma WrittenLine(tag: string, lines: seq<string>, i: nat)
    requires i < |lines| && |tag| <= 6
    ensures var written := PrefixedAll(tag, lines);
            && |written| == |lines|
            && written[i] == "[" + tag + seq(6 - |tag|, _ => ' ') + "] " + lines[i] + "\n"
  {
    var padded := PadEnd(tag, PREFIX_WIDTH);
    assert padded == tag + seq(6 - |tag|, _ => ' ');
  }

  /** A whole text given as lines comes out as those lines, each prefixed once. */
  lemma WholeTextOfLines(tag: string, lines: seq<string>)
    requires Lines(lines)
    ensures WholeText(tag, Concat(seq(|lines|, i requires 0 <= i < |lines| => lines[i] + "\n")))
         == PrefixedAll(tag, lines)
  {
    var ended := seq(|lines|, i requires 0 <= i < |lines| => lines[i] + "\n");
    SplitOfEndedLines(lines, ended);
    assert Init(lines + [""]) == lines;
  }

  lemma {:induction false} SplitOfEndedLines(lines: seq<string>, ended: seq<string>)
    requires Lines(lines) && |ended| == |lines|
    requires forall i :: 0 <= i < |lines| ==> ended[i] == lines[i] + "\n"
    ensures Split(Concat(ended)) == lines + [""]
  {
    if lines != [] {
      var n := |lines| - 1;
      SplitOfEndedLines(lines[..n], ended[..n]);
      SplitContinues(Concat(ended[..n]), ended[n]);
      SplitOfLine(lines[n], "");
      assert lines[n] + "\n" + "" == "" + ended[n];
      assert Init(lines[..n] + [""]) == lines[..n];
      assert lines == lines[..n] + [lines[n]];
    }
  }
}
