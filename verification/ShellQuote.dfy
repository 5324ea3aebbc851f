/**
 Quoting a value for the shell script that starts a packaged server, against a reader of shell words
 (sections 2.2 and 2.3 of the POSIX Shell Command Language).
 */
module ShellQuote {
  import opened Wrappers

  const QUOTE: char := '\''

  /** Every single quote becomes: close, escaped quote, open. */
  function Escape(value: string): string {
    if value == "" then ""
    else (if value[0] == QUOTE then "'\\''" else [value[0]]) + Escape(value[1..])
  }

  function Quote(value: string): string {
    "'" + Escape(value) + "'"
  }

  /** Characters that stand for themselves outside quotes, wherever they occur. */
  predicate Literal(c: char) {
    'a' <= c <= 'z' || 'A' <= c <= 'Z' || '0' <= c <= '9' || c == '-' || c == '_' || c == '.' || c == '/'
  }

  datatype Mode = Between | Unquoted | Quoted

  /**
   The words of a simple command that ends with a newline, reading from the given mode with the
   characters of the current word read so far. None for everything this reader does not know:
   operators, expansions, globs, double quotes, comments, a quote that is never closed.
   */
  function Words(s: string, mode: Mode, word: string): Option<seq<string>>
    decreases |s|
  {
    if s == "" then None
    else if mode == Quoted then
      if s[0] == QUOTE then Words(s[1..], Unquoted, word) else Words(s[1..], Quoted, word + [s[0]])
    else if s[0] == '\n' then Some(if mode == Between then [] else [word])
    else if s[0] == ' ' || s[0] == '\t' then
      if mode == Between then Words(s[1..], Between, "")
      else
        match Words(s[1..], Between, "")
        case None => None
        case Some(more) => Some([word] + more)
    else
      var soFar := if mode == Between then "" else word;
      if s[0] == QUOTE then Words(s[1..], Quoted, soFar)
      else if s[0] == '\\' then
        if |s| < 2 then None
        else if s[1] == '\n' then Words(s[2..], mode, word)
        else Words(s[2..], Unquoted, soFar + [s[1]])
      else if Literal(s[0]) then Words(s[1..], Unquoted, soFar + [s[0]])
      else None
  }

  lemma {:induction false} EscapedReadsBack(value: string, rest: string, word: string)
    ensures Words(Escape(value) + "'" + rest, Quoted, word) == Words(rest, Unquoted, word + value)
    decreases |value|
  {
    var s := Escape(value) + "'" + rest;
    if value == "" {
      assert s == "'" + rest;
      assert word + value == word;
    } else {
      var c, more := value[0], Escape(value[1..]) + "'" + rest;
      EscapedReadsBack(value[1..], rest, word + [c]);
      assert word + [c] + value[1..] == word + value;
      if c == QUOTE {
        assert s == "'\\''" + more;
        EscapedQuote(more, word);
      } else {
        assert s == [c] + more;
      }
    }
  }

  lemma EscapedQuote(more: string, word: string)
    ensures Words("'\\''" + more, Quoted, word) == Words(more, Quoted, word + [QUOTE])
  {
    var s := "'\\''" + more;
    assert s[1..] == "\\''" + more;
    assert s[1..][2..] == "'" + more;
    assert s[1..][2..][1..] == more;
    assert Words(s, Quoted, word) == Words("\\''" + more, Unquoted, word);
    assert Words("\\''" + more, Unquoted, word) == Words("'" + more, Unquoted, word + [QUOTE]);
  }

  /** A quoted value is one word, the value itself, whatever characters it has. */
  lemma QuotedIsOneWord(value: string, rest: string)
    ensures Words(Quote(value) + rest, Between, "") == Words(rest, Unquoted, value)
  {
    assert (Quote(value) + rest)[1..] == Escape(value) + "'" + rest;
    EscapedReadsBack(value, rest, "");
    assert "" + value == value;
  }

  /** The command line of the start script runs node with the entry path as its single argument. */
  lemma StartScriptRunsEntry(entry: string)
    ensures Words("exec node -- " + Quote(entry) + "\n", Between, "") == Some(["exec", "node", "--", entry])
  {
    hide Words, Quote;
    var quoted := Quote(entry) + "\n";
    QuotedIsOneWord(entry, "\n");
    LineEnds(entry);
    var dashes := "--" + " " + quoted;
    PlainWord("--", quoted);
    var node := "node" + " " + dashes;
    PlainWord("node", dashes);
    PlainWord("exec", node);
    assert "exec" + " " + node == "exec node -- " + Quote(entry) + "\n";
    assert ["exec"] + (["node"] + (["--"] + [entry])) == ["exec", "node", "--", entry];
  }

  lemma LineEnds(word: string)
    ensures Words("\n", Unquoted, word) == Some([word])
  {
  }

  lemma {:induction false} PlainTail(plain: string, rest: string, word: string)
    requires forall i :: 0 <= i < |plain| ==> Literal(plain[i])
    ensures Words(plain + " " + rest, Unquoted, word)
         == match Words(rest, Between, "") case None => None case Some(more) => Some([word + plain] + more)
    decreases |plain|
  {
    if plain == "" {
      assert plain + " " + rest == " " + rest;
      assert word + plain == word;
    } else {
      assert (plain + " " + rest)[1..] == plain[1..] + " " + rest;
      PlainTail(plain[1..], rest, word + [plain[0]]);
      assert word + [plain[0]] + plain[1..] == word + plain;
    }
  }

  lemma PlainWord(plain: string, rest: string)
    requires plain != "" && forall i :: 0 <= i < |plain| ==> Literal(plain[i])
    ensures Words(plain + " " + rest, Between, "")
         == match Words(rest, Between, "") case None => None case Some(more) => Some([plain] + more)
  {
    var s := plain + " " + rest;
    assert s[0] == plain[0] && s[1..] == plain[1..] + " " + rest;
    assert "" + [plain[0]] == [plain[0]];
    assert Literal(plain[0]);
    assert Words(s, Between, "") == Words(s[1..], Unquoted, [plain[0]]);
    PlainTail(plain[1..], rest, [plain[0]]);
    assert [plain[0]] + plain[1..] == plain;
  }
}
