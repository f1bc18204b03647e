/**
 Single-quoting a value for a POSIX shell.

 The reader follows sections 2.2.1 and 2.2.2 of the Shell Command Language: outside quotes a backslash keeps the
 next character, inside single quotes every character is literal up to the closing quote, and a blank or newline ends
 the word. Where no word begins there is no argument, which is not the same as an empty one.
 */
module ShellQuote {
  import opened Options

  /** `value.replace('\'', "'\\''")`. */
  function ReplaceQuotes(s: string): string {
    if s == "" then "" else (if s[0] == '\'' then "'\\''" else [s[0]]) + ReplaceQuotes(s[1..])
  }

  function ShellSingleQuote(value: string): string {
    "'" + ReplaceQuotes(value) + "'"
  }

  predicate IsBlank(c: char) {
    c == ' ' || c == '\t' || c == '\n'
  }

  /** Characters that are special outside quotes and that this reader does not interpret. */
  predicate IsSpecial(c: char) {
    c in "|&;<>()$`\"*?[#~=%"
  }

  /** Read one word: its value and the unread rest; `None` for input the reader does not cover. */
  function ReadWord(s: string, quoted: bool): (r: Option<(string, string)>)
    ensures r.Some? ==> EndsWord(r.value.1) && |r.value.1| <= |s| && (quoted || !EndsWord(s) ==> |r.value.1| < |s|)
    decreases |s|
  {
    if quoted then
      if s == "" then None
      else if s[0] == '\'' then ReadWord(s[1..], false)
      else Literal(s[0], ReadWord(s[1..], true))
    else
      if s == "" || IsBlank(s[0]) then Some(("", s))
      else if s[0] == '\'' then ReadWord(s[1..], true)
      else if s[0] == '\\' then if |s| == 1 || s[1] == '\n' then None else Literal(s[1], ReadWord(s[2..], false))
      else if IsSpecial(s[0]) then None
      else Literal(s[0], ReadWord(s[1..], false))
  }

  function Literal(c: char, word: Option<(string, string)>): Option<(string, string)> {
    if word.None? then None else Some(([c] + word.value.0, word.value.1))
  }

  /** What stands after the word: nothing, or a blank. */
  predicate EndsWord(rest: string) {
    rest == "" || IsBlank(rest[0])
  }

  /** Inside quotes, `'\''` closes the quotes, keeps a quote and opens them again. */
  lemma EscapedQuoteIsOneQuote(inner: string)
    ensures ReadWord("'\\''" + inner, true) == Literal('\'', ReadWord(inner, true))
  {
    var s := "'\\''" + inner;
    assert s[1..] == "\\''" + inner && s[1..][2..] == s[3..] && s[3..][1..] == inner;
    assert s[3..][0] == '\'';
    assert ReadWord(s[3..], false) == ReadWord(inner, true);
  }

  lemma {:induction false} ReadsBackInsideQuotes(value: string, rest: string)
    requires EndsWord(rest)
    ensures ReadWord(ReplaceQuotes(value) + "'" + rest, true) == Some((value, rest))
  {
    var s := ReplaceQuotes(value) + "'" + rest;
    if value == "" {
      assert s[1..] == rest;
    } else {
      var inner := ReplaceQuotes(value[1..]) + "'" + rest;
      ReadsBackInsideQuotes(value[1..], rest);
      assert value == [value[0]] + value[1..];
      if value[0] == '\'' {
        assert s == "'\\''" + inner;
        EscapedQuoteIsOneQuote(inner);
      } else {
        assert s[1..] == inner;
      }
    }
  }

  /** The next argument of a command line: none where no word begins, which an empty word is not. */
  datatype Argument = NoArgument | Argument(value: string, rest: string) | NotCovered

  function ReadArgument(s: string): Argument {
    if EndsWord(s) then NoArgument
    else
      var word := ReadWord(s, false);
      if word.None? then NotCovered else Argument(word.value.0, word.value.1)
  }

  /** The quoted form followed by a blank or the end is read as exactly one argument, the original, empty or not. */
  lemma QuotedReadsBack(value: string, rest: string)
    requires EndsWord(rest)
    ensures ReadArgument(ShellSingleQuote(value) + rest) == Argument(value, rest)
  {
    var s := ShellSingleQuote(value) + rest;
    assert s[0] == '\'';
    assert s[1..] == ReplaceQuotes(value) + "'" + rest;
    ReadsBackInsideQuotes(value, rest);
  }

  lemma QuotingIsInjective(a: string, b: string)
    requires ShellSingleQuote(a) == ShellSingleQuote(b)
    ensures a == b
  {
    QuotedReadsBack(a, "");
    QuotedReadsBack(b, "");
    assert ShellSingleQuote(a) + "" == ShellSingleQuote(b) + "";
  }

  // ---------------------------------------------------------------------
  // Whole command lines
  // ---------------------------------------------------------------------

  /** All arguments of a line, or `None` if the reader does not cover it. */
  function ReadArguments(s: string): Option<seq<string>>
    decreases |s|
  {
    if s == "" then Some([])
    else if IsBlank(s[0]) then ReadArguments(s[1..])
    else
      match ReadArgument(s)
      case Argument(value, rest) =>
        var others := ReadArguments(rest);
        if others.None? then None else Some([value] + others.value)
      case _ => None
  }

  /** The quoted values, each after a blank. */
  function CommandLine(values: seq<string>): string {
    if values == [] then "" else " " + ShellSingleQuote(values[0]) + CommandLine(values[1..])
  }

  lemma ReadsPastBlank(s: string)
    ensures ReadArguments(" " + s) == ReadArguments(s)
  {
    assert (" " + s)[1..] == s;
  }

  lemma ReadsOneMore(s: string, value: string, rest: string, others: seq<string>)
    requires ReadArgument(s) == Argument(value, rest) && ReadArguments(rest) == Some(others)
    ensures ReadArguments(s) == Some([value] + others)
  {
  }

  /** A line of quoted values is read as just those arguments: none is dropped, split, joined or changed. */
  lemma {:induction false} CommandLineReadsBack(values: seq<string>)
    ensures ReadArguments(CommandLine(values)) == Some(values)
  {
    if values == [] {
    } else {
      var rest := CommandLine(values[1..]);
      var quoted := ShellSingleQuote(values[0]) + rest;
      CommandLineReadsBack(values[1..]);
      assert ReadArgument(quoted) == Argument(values[0], rest) by { QuotedReadsBack(values[0], rest); }
      ReadsOneMore(quoted, values[0], rest, values[1..]);
      ReadsPastBlank(quoted);
      assert CommandLine(values) == " " + quoted;
      assert [values[0]] + values[1..] == values;
    }
  }
}
