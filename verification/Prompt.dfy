/** Questions to the user. */
module Prompt {
  import opened Wrappers
  import Text

  datatype YesNoQuit = Yes | No | Quit

  /** What the user types, line by line; at its end, reading gives empty lines. */
  class Input {
    var lines: seq<string>

    constructor (lines: seq<string>)
      ensures this.lines == lines
    {
      this.lines := lines;
    }

    method ReadLine() returns (line: string)
      modifies this
      ensures line == if old(lines) == [] then "" else old(lines)[0]
      ensures lines == if old(lines) == [] then [] else old(lines)[1..]
    {
      line := if lines == [] then "" else lines[0];
      lines := if lines == [] then [] else lines[1..];
    }
  }

  function Normalised(line: string): string {
    var t := Text.Trim(line);
    seq(|t|, i requires 0 <= i < |t| => Text.Lower(t[i]))
  }

  /** The answer a line gives, if it is one. An empty line means yes. */
  function Answer(line: string): Option<YesNoQuit> {
    var t := Normalised(line);
    if t == "" || t == "y" then Some(Yes)
    else if t == "n" then Some(No)
    else if t == "q" then Some(Quit)
    else None
  }

  /** The first answer among the lines, yes when there is none left, and the lines after it. */
  function Ask(lines: seq<string>): (YesNoQuit, seq<string>)
    decreases |lines|
  {
    if lines == [] then (Yes, [])
    else
      match Answer(lines[0])
      case Some(a) => (a, lines[1..])
      case None => Ask(lines[1..])
  }

  lemma {:induction false} EmptyMeansYes()
    ensures Answer("") == Some(Yes)
  {
    assert Text.Trim("") == "";
    assert Normalised("") == "";
  }

  /** Ask until a line is an answer. */
  method ContinueSkipOrQuit(input: Input) returns (answer: YesNoQuit)
    modifies input
    ensures (answer, input.lines) == Ask(old(input.lines))
  {
    EmptyMeansYes();
    while true
      invariant Ask(input.lines) == Ask(old(input.lines))
      decreases |input.lines|
    {
      var response := input.ReadLine();
      var parsed := Answer(response);
      if parsed.Some? {
        return parsed.value;
      }
    }
  }

  /** The question is always answered by one of the lines given, or by their end. */
  lemma {:induction false} AskedOnce(lines: seq<string>)
    ensures var (a, rest) := Ask(lines);
            || (a.Yes? && rest == [] && forall i | 0 <= i < |lines| :: Answer(lines[i]).None?)
            || (exists n :: 0 <= n < |lines| && Answer(lines[n]) == Some(a) && rest == lines[n + 1..]
                            && forall i | 0 <= i < n :: Answer(lines[i]).None?)
    decreases |lines|
  {
    hide Answer;
    if lines != [] {
      match Answer(lines[0])
      case Some(a) =>
        assert Answer(lines[0]) == Some(a) && lines[1..] == lines[0 + 1..];
      case None =>
        AskedOnce(lines[1..]);
        var (a, rest) := Ask(lines[1..]);
        if n :| && 0 <= n < |lines[1..]| && Answer(lines[1..][n]) == Some(a)
                && rest == lines[1..][n + 1..]
                && forall i | 0 <= i < n :: Answer(lines[1..][i]).None? {
          assert lines[1..][n + 1..] == lines[(n + 1) + 1..];
          assert forall i | 0 < i <= n :: lines[i] == lines[1..][i - 1];
          assert Answer(lines[n + 1]) == Some(a);
        } else {
          assert forall i | 0 < i < |lines| :: lines[i] == lines[1..][i - 1];
        }
    }
  }

  /** `line` is one letter, small or capital, between blanks. */
  predicate IsLetter(line: string, small: char, capital: char) {
    exists i :: 0 <= i < |line| && line[i] in {small, capital}
                && Text.Blank(line[..i]) && Text.Blank(line[i + 1..])
  }

  lemma {:induction false} LowerLetter(c: char, small: char, capital: char)
    requires 'a' <= small <= 'z' && capital == small - 'a' + 'A'
    ensures Text.Lower(c) == small <==> c in {small, capital}
    ensures !Text.IsWhitespace(small) && !Text.IsWhitespace(capital)
  {
  }

  lemma {:induction false} LetterTrimmed(line: string, c: char)
    requires !Text.IsWhitespace(c)
    ensures Text.Trim(line) == [c] <==>
            exists i :: 0 <= i < |line| && line[i] == c
                        && Text.Blank(line[..i]) && Text.Blank(line[i + 1..])
  {
    hide Text.Trim, Text.IsWhitespace, Text.Blank;
    if i :| 0 <= i < |line| && line[i] == c
            && Text.Blank(line[..i]) && Text.Blank(line[i + 1..]) {
      assert line == line[..i] + [c] + line[i + 1..];
      Text.TrimFramed(line[..i], [c], line[i + 1..]);
    }
    if Text.Trim(line) == [c] {
      Text.TrimIsFramed(line);
      var i, j :| Text.Frames(line, i, [c], j);
      assert line[i..j][0] == line[i];
    }
  }

  lemma {:induction false} LetterNormalised(line: string, small: char, capital: char)
    requires 'a' <= small <= 'z' && capital == small - 'a' + 'A'
    ensures IsLetter(line, small, capital) <==> Normalised(line) == [small]
  {
    hide Text.Trim, Text.Blank, Text.IsWhitespace, Text.Lower;
    var t := Text.Trim(line);
    LowerLetter(small, small, capital);
    LetterTrimmed(line, small);
    LetterTrimmed(line, capital);
    assert IsLetter(line, small, capital) <==> t == [small] || t == [capital];
    LowerLetter(capital, small, capital);
    if Normalised(line) == [small] {
      assert |t| == 1 && Text.Lower(t[0]) == Normalised(line)[0];
      LowerLetter(t[0], small, capital);
    }
  }

  /** What each line means to the question: an empty or blank one and a `y` are yes, an `n` is no, a `q`
      is quit, small or capital and with blanks around; any other is passed over. At the end of the
      input the answer is yes. */
  lemma {:induction false} LineAnswers(line: string, rest: seq<string>)
    ensures Ask([line] + rest) ==
            if Text.Blank(line) || IsLetter(line, 'y', 'Y') then (Yes, rest)
            else if IsLetter(line, 'n', 'N') then (No, rest)
            else if IsLetter(line, 'q', 'Q') then (Quit, rest)
            else Ask(rest)
    ensures Ask([]) == (Yes, [])
  {
    Text.TrimEmpty(line);
    LetterNormalised(line, 'y', 'Y');
    LetterNormalised(line, 'n', 'N');
    LetterNormalised(line, 'q', 'Q');
    assert Normalised(line) == "" <==> Text.Trim(line) == "";
    hide IsLetter, Normalised, Text.Trim, Text.Blank;
    assert ['y'] == "y" && ['n'] == "n" && ['q'] == "q";
    assert "n"[0] != "y"[0] && "q"[0] != "y"[0] && "q"[0] != "n"[0];
    assert ([line] + rest)[1..] == rest;
  }
}
