/** Quoting arguments for a POSIX shell, and reading them back. */
module ShellQuote {
  import opened Wrappers

  /** `value.replace('\'', "'\"'\"'")`. */
  function Escape(value: string): string {
    if value == [] then []
    else (if value[0] == '\'' then "'\"'\"'" else [value[0]]) + Escape(value[1..])
  }

  function Quote(value: string): string { "'" + Escape(value) + "'" }

  /** The quoted values joined by single spaces. */
  function JoinQuoted(values: seq<string>): string {
    if values == [] then ""
    else if |values| == 1 then Quote(values[0])
    else Quote(values[0]) + " " + JoinQuoted(values[1..])
  }

  const CAPTURE_WORDS: seq<string> :=
    ["tar", "--create", "--file=-", "--zstd", "--numeric-owner", "--one-file-system", "--"]

  /** Plain words, each followed by a space. */
  function Spaced(words: seq<string>): string {
    if words == [] then "" else words[0] + " " + Spaced(words[1..])
  }

  function RemoteCommand(roots: seq<string>): string { Spaced(CAPTURE_WORDS) + JoinQuoted(roots) }

  /******* A shell's word splitting *******/

  datatype Mode = Plain | InSingle | InDouble

  /** Characters that stand for themselves outside quotes; anything else is not taken for a word. */
  predicate IsLiteral(c: char) {
    'a' <= c <= 'z' || 'A' <= c <= 'Z' || '0' <= c <= '9' || c == '-' || c == '=' || c == '_' || c == '/' || c == '.'
  }

  /** Words of a simple command (sections 2.2 and 2.3 of the Shell Command Language).  `word` is
      the word being read, if one has begun; `None` is returned for text that is not a plain
      list of words or whose quoting does not close. */
  function Words(s: string, mode: Mode, word: Option<string>, done: seq<string>): Option<seq<string>>
    decreases |s|
  {
    var current := if word.Some? then word.value else "";
    if s == [] then
      if mode != Plain then None else Some(if word.Some? then done + [current] else done)
    else
      var c, rest := s[0], s[1..];
      match mode
      case InSingle => // section 2.2.2: everything up to the next single quote is literal
        if c == '\'' then Words(rest, Plain, Some(current), done) else Words(rest, InSingle, Some(current + [c]), done)
      case InDouble => // section 2.2.3: all but the dollar sign, backquote and backslash
        if c == '"' then Words(rest, Plain, Some(current), done)
        else if c in "$`\\" then None
        else Words(rest, InDouble, Some(current + [c]), done)
      case Plain =>
        if c == '\'' then Words(rest, InSingle, Some(current), done)
        else if c == '"' then Words(rest, InDouble, Some(current), done)
        else if c == ' ' then Words(rest, Plain, None, if word.Some? then done + [current] else done)
        else if c == '\\' then (if rest == [] then None else Words(rest[1..], Plain, Some(current + [rest[0]]), done))
        else if IsLiteral(c) then Words(rest, Plain, Some(current + [c]), done)
        else None
  }

  /** Inside the quotes, an escaped value reads back as itself. */
  lemma {:induction false} EscapedReadsBack(value: string, rest: string, word: string, done: seq<string>)
    ensures Words(Escape(value) + "'" + rest, InSingle, Some(word), done) == Words(rest, Plain, Some(word + value), done)
    decreases |value|
  {
    if value == [] {
      assert Escape(value) + "'" + rest == "'" + rest && ("'" + rest)[1..] == rest;
      assert word + value == word;
    } else {
      var tail := Escape(value[1..]) + "'" + rest;
      var c := value[0];
      assert value == [c] + value[1..];
      EscapedReadsBack(value[1..], rest, word + [c], done);
      assert (word + [c]) + value[1..] == word + value;
      if c == '\'' {
        QuoteInsideQuotes(tail, word, done);
        assert Escape(value) + "'" + rest == "'\"'\"'" + tail;
      } else {
        assert Escape(value) + "'" + rest == [c] + tail && ([c] + tail)[1..] == tail;
      }
    }
  }

  /** The escape of a single quote: leave the quotes, quote it doubly, come back. */
  lemma QuoteInsideQuotes(tail: string, word: string, done: seq<string>)
    ensures Words("'\"'\"'" + tail, InSingle, Some(word), done) == Words(tail, InSingle, Some(word + ['\'']), done)
  {
    var s0 := "'\"'\"'" + tail;
    var s1, s2, s3, s4 := "\"'\"'" + tail, "'\"'" + tail, "\"'" + tail, "'" + tail;
    assert s0[1..] == s1 && s1[1..] == s2 && s2[1..] == s3 && s3[1..] == s4 && s4[1..] == tail;
    assert Words(s0, InSingle, Some(word), done) == Words(s1, Plain, Some(word), done);
    assert Words(s1, Plain, Some(word), done) == Words(s2, InDouble, Some(word), done);
    assert Words(s2, InDouble, Some(word), done) == Words(s3, InDouble, Some(word + ['\'']), done);
    assert Words(s3, InDouble, Some(word + ['\'']), done) == Words(s4, Plain, Some(word + ['\'']), done);
  }

  lemma QuotedWord(value: string, rest: string, done: seq<string>)
    ensures Words(Quote(value) + rest, Plain, None, done) == Words(rest, Plain, Some(value), done)
  {
    var inner := Escape(value) + "'" + rest;
    assert Quote(value) + rest == "'" + inner && ("'" + inner)[1..] == inner;
    EscapedReadsBack(value, rest, "", done);
    assert "" + value == value;
  }

  /** A shell reads the joined quoted values back as exactly those values, whatever they are. */
  lemma {:induction false} QuotingRoundTrip(values: seq<string>, done: seq<string>)
    ensures Words(JoinQuoted(values), Plain, None, done) == Some(done + values)
    decreases |values|
  {
    if values == [] {
      assert done + values == done;
    } else if |values| == 1 {
      LastQuotedWord(values[0], done);
      assert values == [values[0]];
    } else {
      var more := JoinQuoted(values[1..]);
      assert JoinQuoted(values) == Quote(values[0]) + (" " + more);
      NextQuotedWord(values[0], more, done);
      QuotingRoundTrip(values[1..], done + [values[0]]);
      assert (done + [values[0]]) + values[1..] == done + values;
    }
  }

  lemma LastQuotedWord(value: string, done: seq<string>)
    ensures Words(Quote(value), Plain, None, done) == Some(done + [value])
  {
    QuotedWord(value, "", done);
    assert Quote(value) + "" == Quote(value);
  }

  lemma NextQuotedWord(value: string, more: string, done: seq<string>)
    ensures Words(Quote(value) + (" " + more), Plain, None, done) == Words(more, Plain, None, done + [value])
  {
    QuotedWord(value, " " + more, done);
    SpaceEndsWord(value, more, done);
  }

  lemma SpaceEndsWord(word: string, rest: string, done: seq<string>)
    ensures Words(" " + rest, Plain, Some(word), done) == Words(rest, Plain, None, done + [word])
  {
    assert (" " + rest)[1..] == rest;
  }

  predicate IsPlainText(s: string) {
    forall i | 0 <= i < |s| :: IsLiteral(s[i])
  }

  lemma {:induction false} PlainWord(w: string, rest: string, word: string, done: seq<string>)
    requires IsPlainText(w)
    ensures Words(w + " " + rest, Plain, Some(word), done) == Words(rest, Plain, None, done + [word + w])
    decreases |w|
  {
    if w == [] {
      assert w + " " + rest == " " + rest && (" " + rest)[1..] == rest;
      assert word + w == word;
    } else {
      var s := w + " " + rest;
      assert s[0] == w[0] && s[1..] == w[1..] + " " + rest;
      PlainWord(w[1..], rest, word + [w[0]], done);
      assert (word + [w[0]]) + w[1..] == word + w;
    }
  }

  lemma FirstPlainWord(w: string, rest: string, done: seq<string>)
    requires IsPlainText(w) && w != []
    ensures Words(w + " " + rest, Plain, None, done) == Words(rest, Plain, None, done + [w])
  {
    var s := w + " " + rest;
    assert s[0] == w[0] && s[1..] == w[1..] + " " + rest;
    PlainWord(w[1..], rest, [w[0]], done);
    assert [w[0]] + w[1..] == w && "" + [w[0]] == [w[0]];
  }

  lemma {:induction false} PlainWords(words: seq<string>, rest: string, done: seq<string>)
    requires forall i | 0 <= i < |words| :: words[i] != [] && IsPlainText(words[i])
    ensures Words(Spaced(words) + rest, Plain, None, done) == Words(rest, Plain, None, done + words)
    decreases |words|
  {
    if words == [] {
      assert Spaced(words) + rest == rest && done + words == done;
    } else {
      var more := Spaced(words[1..]) + rest;
      assert Spaced(words) + rest == words[0] + " " + more;
      FirstPlainWord(words[0], more, done);
      PlainWords(words[1..], rest, done + [words[0]]);
      assert (done + [words[0]]) + words[1..] == done + words;
    }
  }

  /** The capture command runs `tar` on exactly the given roots, after the option terminator. */
  lemma CaptureCommandNamesTheRoots(roots: seq<string>)
    ensures Words(RemoteCommand(roots), Plain, None, []) == Some(CAPTURE_WORDS + roots)
  {
    CaptureWordsArePlain();
    CommandReadsBack(CAPTURE_WORDS, roots);
  }

  lemma CaptureWordsArePlain()
    ensures forall i | 0 <= i < |CAPTURE_WORDS| :: CAPTURE_WORDS[i] != [] && IsPlainText(CAPTURE_WORDS[i])
  {
    var w := CAPTURE_WORDS;
    assert IsPlainText(w[0]) && IsPlainText(w[1]) && IsPlainText(w[2]) && IsPlainText(w[3]);
    assert IsPlainText(w[4]) && IsPlainText(w[5]) && IsPlainText(w[6]);
  }

  lemma CommandReadsBack(words: seq<string>, roots: seq<string>)
    requires forall i | 0 <= i < |words| :: words[i] != [] && IsPlainText(words[i])
    ensures Words(Spaced(words) + JoinQuoted(roots), Plain, None, []) == Some(words + roots)
  {
    PlainWords(words, JoinQuoted(roots), []);
    assert [] + words == words;
    QuotingRoundTrip(roots, words);
  }
}
