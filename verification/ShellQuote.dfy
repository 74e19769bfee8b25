/**
 The single-quoting of arguments that the node agent puts into shell scripts
 (backend/internal/nodeagent/executor_shell.go), read back by the quoting rules of the shell:
 POSIX.1-2017 XCU sections 2.2.1 (escape character) and 2.2.2 (single-quotes), with words separated
 by blanks as in section 2.3.
 */
module ShellQuote {
  import opened Options

  // ----- the quoting

  /** Every occurrence of one character replaced by a string. */
  function ReplaceAll(s: string, old_: char, new_: string): string {
    if s == "" then ""
    else (if s[0] == old_ then new_ else [s[0]]) + ReplaceAll(s[1..], old_, new_)
  }

  function Shq(s: string): string { "'" + ReplaceAll(s, '\'', "'\\''") + "'" }

  // ----- the shell's reading

  datatype Mode = Plain | AfterBackslash | InQuotes

  /** word is None between words; a word may be empty when it has been quoted. */
  datatype Reader = Reader(done: seq<string>, word: Option<string>, mode: Mode) | Other

  predicate Blank(c: char) { c == ' ' || c == '\t' }

  /** Unquoted characters that mean more to the shell than themselves: section 2.2 lists them. */
  predicate Special(c: char) { c in "|&;<>()$`\"\n*?[#~=%" }

  function Longer(word: Option<string>, more: string): Option<string> {
    Some((if word.Some? then word.value else "") + more)
  }

  function EndWord(done: seq<string>, word: Option<string>): seq<string> {
    if word.Some? then done + [word.value] else done
  }

  function Step(r: Reader, c: char): Reader {
    match r
    case Other => Other
    case Reader(done, word, InQuotes) =>
      if c == '\'' then Reader(done, word, Plain) else Reader(done, Longer(word, [c]), InQuotes)
    case Reader(done, word, AfterBackslash) =>
      if c == '\n' then Reader(done, word, Plain) else Reader(done, Longer(word, [c]), Plain)
    case Reader(done, word, Plain) =>
      if c == '\'' then Reader(done, Longer(word, ""), InQuotes)
      else if c == '\\' then Reader(done, word, AfterBackslash)
      else if Blank(c) then Reader(EndWord(done, word), None, Plain)
      else if Special(c) then Other
      else Reader(done, Longer(word, [c]), Plain)
  }

  function Run(r: Reader, s: string): Reader
    decreases |s|
  {
    if s == "" then r else Run(Step(r, s[0]), s[1..])
  }

  /** The words of a line that is nothing but words; None when it is more, or a quote is left open. */
  function Read(s: string): Option<seq<string>> {
    var r := Run(Reader([], None, Plain), s);
    if r.Reader? && r.mode == Plain then Some(EndWord(r.done, r.word)) else None
  }

  // ----- reading back

  lemma {:induction false} RunAppend(r: Reader, a: string, b: string)
    ensures Run(r, a + b) == Run(Run(r, a), b)
    decreases |a|
  {
    if a == "" {
      assert a + b == b;
    } else {
      assert (a + b)[1..] == a[1..] + b;
      RunAppend(Step(r, a[0]), a[1..], b);
    }
  }

  /** Leave the quotes, one escaped quote, enter them again. */
  lemma QuoteInQuotes(done: seq<string>, w: string)
    ensures Run(Reader(done, Some(w), InQuotes), "'\\''") == Reader(done, Some(w + "'"), InQuotes)
  {
    var r := Reader(done, Some(w), InQuotes);
    var q := "'\\''";
    assert q[1..] == "\\''" && q[1..][1..] == "''" && q[1..][1..][1..] == "'" && q[1..][1..][1..][1..] == "";
    assert Step(r, q[0]) == r.(mode := Plain);
    assert Step(r.(mode := Plain), '\\') == r.(mode := AfterBackslash);
    assert Step(r.(mode := AfterBackslash), '\'') == Reader(done, Some(w + "'"), Plain);
    assert w + "'" + "" == w + "'";
  }

  /** Inside quotes the replaced text reads as the text, and the reader is inside quotes again. */
  lemma {:induction false} InsideQuotes(done: seq<string>, w: string, s: string)
    ensures Run(Reader(done, Some(w), InQuotes), ReplaceAll(s, '\'', "'\\''")) == Reader(done, Some(w + s), InQuotes)
    decreases |s|
  {
    var r := Reader(done, Some(w), InQuotes);
    if s == "" {
      assert w + s == w;
    } else {
      var first := if s[0] == '\'' then "'\\''" else [s[0]];
      RunAppend(r, first, ReplaceAll(s[1..], '\'', "'\\''"));
      if s[0] == '\'' {
        QuoteInQuotes(done, w);
      }
      assert Run(r, first) == Reader(done, Some(w + [s[0]]), InQuotes);
      InsideQuotes(done, w + [s[0]], s[1..]);
      assert w + [s[0]] + s[1..] == w + s;
    }
  }

  /**
   Anywhere outside quotes, a quoted string adds exactly itself to the word being read, whatever
   characters it holds: nothing in it ends the word, is expanded or is lost.
   */
  lemma QuotedAddsItself(done: seq<string>, word: Option<string>, s: string)
    ensures Run(Reader(done, word, Plain), Shq(s)) == Reader(done, Longer(word, s), Plain)
  {
    var r, body := Reader(done, word, Plain), ReplaceAll(s, '\'', "'\\''");
    var w := if word.Some? then word.value else "";
    assert w + "" == w;
    assert Run(r, "'") == Reader(done, Some(w), InQuotes);
    RunAppend(r, "'", body);
    InsideQuotes(done, w, s);
    RunAppend(r, "'" + body, "'");
    assert Run(Reader(done, Some(w + s), InQuotes), "'") == Reader(done, Some(w + s), Plain);
  }

  /** A quoted string reads as one word, the string. */
  lemma QuoteReadsBack(s: string)
    ensures Read(Shq(s)) == Some([s])
  {
    QuotedAddsItself([], None, s);
    assert "" + s == s;
    assert [] + [s] == [s];
  }

  function QuotedWords(args: seq<string>): string {
    if args == [] then "" else if |args| == 1 then Shq(args[0])
    else Shq(args[0]) + " " + QuotedWords(args[1..])
  }

  lemma {:induction false} WordsAfter(done: seq<string>, args: seq<string>)
    requires args != []
    ensures Run(Reader(done, None, Plain), QuotedWords(args)) ==
            Reader(done + args[..|args| - 1], Some(args[|args| - 1]), Plain)
    decreases |args|
  {
    var r := Reader(done, None, Plain);
    QuotedAddsItself(done, None, args[0]);
    assert "" + args[0] == args[0];
    if |args| == 1 {
      assert done + args[..0] == done;
    } else {
      var first := Shq(args[0]);
      RunAppend(r, first, " " + QuotedWords(args[1..]));
      assert first + (" " + QuotedWords(args[1..])) == QuotedWords(args);
      RunAppend(Reader(done, Some(args[0]), Plain), " ", QuotedWords(args[1..]));
      assert Run(Reader(done, Some(args[0]), Plain), " ") == Reader(done + [args[0]], None, Plain);
      WordsAfter(done + [args[0]], args[1..]);
      assert done + [args[0]] + args[1..][..|args| - 2] == done + args[..|args| - 1];
    }
  }

  /** A line of quoted arguments reads as those arguments: as many, in order, each unchanged. */
  lemma ArgumentsReadBack(args: seq<string>)
    ensures Read(QuotedWords(args)) == Some(args)
  {
    if args != [] {
      WordsAfter([], args);
      assert [] + args[..|args| - 1] + [args[|args| - 1]] == args;
    }
  }
}
