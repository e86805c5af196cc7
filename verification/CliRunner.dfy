/**
 * tests/acceptance/CliRunner.hpp: the string helpers the acceptance tests use to build a shell
 * command line (single-quoting an argument, escaping double quotes in the text fed on standard
 * input) and to look for text in the captured output.
 */
module CliRunner {

  /** How escapeShellArg writes one character: a single quote closes, escapes and reopens. */
  function QuoteChar(c: char): string
  {
    if c == '\'' then "'\\''" else [c]
  }

  function QuoteChars(s: string): string
    decreases |s|
  {
    if s == [] then "" else QuoteChars(s[..|s| - 1]) + QuoteChar(s[|s| - 1])
  }

  /** escapeShellArg: the argument between single quotes, each ' inside written as '\''. */
  method EscapeShellArg(arg: string) returns (r: string)
    ensures r == "'" + QuoteChars(arg) + "'"
  {
    r := "'";
    for i := 0 to |arg|
      invariant r == "'" + QuoteChars(arg[..i])
    {
      QuoteCharsSnoc(arg, i);
      if arg[i] == '\'' {
        r := r + "'\\''";
      } else {
        r := r + [arg[i]];
      }
    }
    assert arg[..|arg|] == arg;
    r := r + "'";
  }

  lemma QuoteCharsSnoc(s: string, i: nat)
    requires i < |s|
    ensures QuoteChars(s[..i + 1]) == QuoteChars(s[..i]) + QuoteChar(s[i])
  {
    assert s[..i + 1][..i] == s[..i];
  }

  function Count(s: string, c: char): nat
    decreases |s|
  {
    if s == [] then 0 else Count(s[..|s| - 1], c) + (if s[|s| - 1] == c then 1 else 0)
  }

  /** Each ' costs three extra characters; every other character is copied. */
  lemma {:induction false} QuoteCharsLength(s: string)
    ensures |QuoteChars(s)| == |s| + 3 * Count(s, '\'')
    decreases |s|
  {
    if s != [] {
      QuoteCharsLength(s[..|s| - 1]);
    }
  }

  /** The length of escapeShellArg's result: the input, two quotes, and three per single quote. */
  lemma EscapeShellArgLength(arg: string)
    ensures |"'" + QuoteChars(arg) + "'"| == |arg| + 2 + 3 * Count(arg, '\'')
  {
    QuoteCharsLength(arg);
  }

  /**
   * How a POSIX shell reads a word made of single-quoted parts and backslash escapes: inside
   * quotes every character but ' is literal and ' ends the quotes; outside, ' opens quotes and a
   * backslash takes the next character literally.
   */
  function ShellRead(t: string, quoted: bool): string
    decreases |t|
  {
    if t == [] then ""
    else if quoted then
      if t[0] == '\'' then ShellRead(t[1..], false) else [t[0]] + ShellRead(t[1..], true)
    else if t[0] == '\'' then ShellRead(t[1..], true)
    else if t[0] == '\\' && |t| >= 2 then [t[1]] + ShellRead(t[2..], false)
    else [t[0]] + ShellRead(t[1..], false)
  }

  /** QuoteChars written from the front: one character's quoting before the rest's. */
  lemma {:induction false} QuoteCharsCons(c: char, s: string)
    ensures QuoteChars([c] + s) == QuoteChar(c) + QuoteChars(s)
    decreases |s|
  {
    if s == [] {
      assert [c] + s == [c];
      assert [c][..0] == [];
    } else {
      var init := s[..|s| - 1];
      assert ([c] + s)[..|s|] == [c] + init;
      assert ([c] + s)[|s|] == s[|s| - 1];
      QuoteCharsCons(c, init);
    }
  }

  /** Inside quotes, the shell reads the quoted characters back, up to what follows them. */
  lemma {:induction false} ShellReadQuoted(s: string, tail: string)
    ensures ShellRead(QuoteChars(s) + tail, true) == s + ShellRead(tail, true)
    decreases |s|
  {
    if s == [] {
      assert QuoteChars(s) + tail == tail;
    } else {
      var c, rest := s[0], s[1..];
      assert [c] + rest == s;
      QuoteCharsCons(c, rest);
      var x := QuoteChars(rest) + tail;
      var t := QuoteChar(c) + x;
      assert QuoteChars(s) + tail == t;
      ShellReadQuoted(rest, tail);
      if c == '\'' {
        ShellReadEscapedQuote(x);
      } else {
        assert t[1..] == x;
      }
    }
  }

  /** Inside quotes, '\'' reads as one single quote and leaves the shell inside quotes again. */
  lemma ShellReadEscapedQuote(x: string)
    ensures ShellRead("'\\''" + x, true) == "'" + ShellRead(x, true)
  {
    var t := "'\\''" + x;
    var u := t[1..];
    assert u == "\\''" + x;
    var w := u[2..];
    assert w == "'" + x;
    assert w[1..] == x;
    assert ShellRead(w, false) == ShellRead(x, true);
    assert ShellRead(u, false) == [u[1]] + ShellRead(w, false);
    assert ShellRead(t, true) == ShellRead(u, false);
  }

  /** The shell reads escapeShellArg's result back as the original argument, whatever it holds. */
  lemma ShellReadsEscaped(arg: string)
    ensures ShellRead("'" + QuoteChars(arg) + "'", false) == arg
  {
    var t := "'" + QuoteChars(arg) + "'";
    assert t[1..] == QuoteChars(arg) + "'";
    ShellReadQuoted(arg, "'");
    assert ShellRead("'", true) == "";
  }

  /** How escapeQuotes writes one character: " becomes \", everything else is copied. */
  function EscapeChar(c: char): string
  {
    if c == '"' then "\\\"" else [c]
  }

  function EscapeChars(s: string): string
    decreases |s|
  {
    if s == [] then "" else EscapeChars(s[..|s| - 1]) + EscapeChar(s[|s| - 1])
  }

  /** escapeQuotes: every " preceded by a backslash, every other character copied. */
  method EscapeQuotes(input: string) returns (r: string)
    ensures r == EscapeChars(input)
  {
    r := "";
    for i := 0 to |input|
      invariant r == EscapeChars(input[..i])
    {
      assert input[..i + 1][..i] == input[..i];
      if input[i] == '"' {
        r := r + "\\\"";
      } else {
        r := r + [input[i]];
      }
    }
    assert input[..|input|] == input;
  }

  /** Text without a double quote is left as it is. */
  lemma {:induction false} EscapeCharsIdentity(s: string)
    requires '"' !in s
    ensures EscapeChars(s) == s
    decreases |s|
  {
    if s != [] {
      assert s[|s| - 1] in s;
      assert '"' !in s[..|s| - 1] by {
        assert forall i :: 0 <= i < |s| - 1 ==> s[..|s| - 1][i] == s[i];
      }
      EscapeCharsIdentity(s[..|s| - 1]);
      assert s[..|s| - 1] + [s[|s| - 1]] == s;
    }
  }

  /** Dropping the backslash of every \" pair, scanning from the left. */
  function Unescape(t: string): string
    decreases |t|
  {
    if t == [] then ""
    else if |t| >= 2 && t[0] == '\\' && t[1] == '"' then "\"" + Unescape(t[2..])
    else [t[0]] + Unescape(t[1..])
  }

  /** EscapeChars written from the front: one character's escape before the rest's. */
  lemma {:induction false} EscapeCharsCons(c: char, s: string)
    ensures EscapeChars([c] + s) == EscapeChar(c) + EscapeChars(s)
    decreases |s|
  {
    if s == [] {
      assert [c] + s == [c];
      assert [c][..0] == [];
    } else {
      var init := s[..|s| - 1];
      assert ([c] + s)[..|s|] == [c] + init;
      assert ([c] + s)[|s|] == s[|s| - 1];
      EscapeCharsCons(c, init);
    }
  }

  /** An escaped text never starts with a double quote: a " is always written after a backslash. */
  lemma EscapeCharsHead(s: string)
    requires s != []
    ensures EscapeChars(s) != [] && EscapeChars(s)[0] != '"'
  {
    EscapeCharsCons(s[0], s[1..]);
    assert [s[0]] + s[1..] == s;
  }

  /**
   * Removing the escapes gives the input back. Unescape is the inverse escapeQuotes is written
   * for, not how a shell reads a double-quoted word: see DoubleQuotedRead and EscapeQuotesShellGap.
   */
  lemma {:induction false} UnescapeEscaped(s: string)
    ensures Unescape(EscapeChars(s)) == s
    decreases |s|
  {
    if s == [] {
    } else {
      var c := s[0];
      var rest := s[1..];
      assert [c] + rest == s;
      EscapeCharsCons(c, rest);
      UnescapeEscaped(rest);
      var t := EscapeChar(c) + EscapeChars(rest);
      if c == '"' {
        assert t[2..] == EscapeChars(rest);
      } else {
        assert t[1..] == EscapeChars(rest);
        if c == '\\' && rest != [] {
          EscapeCharsHead(rest);
          assert t[1] == EscapeChars(rest)[0];
        }
      }
    }
  }

  /**
   * How a POSIX shell reads the inside of a double-quoted word, up to the closing quote: a
   * backslash before \, ", $ or ` takes that character literally, any other backslash is kept,
   * and an unescaped " ends the word.
   */
  function DoubleQuotedRead(t: string): string
    decreases |t|
  {
    if t == [] || t[0] == '"' then ""
    else if t[0] == '\\' && |t| >= 2 && t[1] in "\\\"$`" then [t[1]] + DoubleQuotedRead(t[2..])
    else [t[0]] + DoubleQuotedRead(t[1..])
  }

  /**
   * escapeQuotes leaves backslashes alone, so a here-string input holding a backslash followed by
   * a quote does not reach the program intact: the two characters \" are written as \\", which
   * the shell reads as one backslash followed by the closing quote.
   */
  lemma EscapeQuotesShellGap()
    ensures EscapeChars("\\\"") == "\\\\\""
    ensures DoubleQuotedRead(EscapeChars("\\\"")) == "\\" != "\\\""
  {
  }

  /** pattern occurs in text at position j. */
  predicate MatchAt(text: string, pattern: string, j: nat)
  {
    j + |pattern| <= |text| && text[j..j + |pattern|] == pattern
  }

  /** The index of the first occurrence of pattern in text at or after from, or -1 (std::string::find). */
  function FindFrom(text: string, pattern: string, from: nat): (k: int)
    requires from <= |text|
    ensures k == -1 || (from <= k && MatchAt(text, pattern, k))
    ensures k == -1 ==> forall j: nat :: from <= j ==> !MatchAt(text, pattern, j)
    decreases |text| - from
  {
    if from + |pattern| > |text| then -1
    else if text[from..from + |pattern|] == pattern then from
    else FindFrom(text, pattern, from + 1)
  }

  /** Whether pattern occurs in text. */
  ghost predicate Occurs(text: string, pattern: string)
  {
    exists j: nat :: MatchAt(text, pattern, j)
  }

  class CliRunner {
    /** The output captured from the last run. */
    var output: string

    /** outputContains: the text occurs somewhere in the captured output. */
    function OutputContains(s: string): (b: bool)
      reads this
      ensures b <==> Occurs(output, s)
    {
      FindFrom(output, s, 0) != -1
    }
  }
}
