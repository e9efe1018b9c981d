/**
 Quoting a value for a POSIX shell, against the shell's own word splitting:
 sections 2.2.1 (backslash) and 2.2.2 (single quotes) of the Shell Command
 Language. Anything the shell would interpret is not a word list.
 */
module QuoteShell {
  import opened Wrappers
  import opened Strings

  function QuoteForShell(value: string): string { "'" + ReplaceAll(value, "'", "'\\''") + "'" }

  function QuotedEach(values: seq<string>): (r: seq<string>)
    ensures |r| == |values|
  {
    if values == [] then [] else [QuoteForShell(values[0])] + QuotedEach(values[1..])
  }

  function QuotedList(values: seq<string>): string { Join(QuotedEach(values), " ") }

  // ---------------------------------------------------------------- the shell's reading

  const NUL: char := '\0'

  predicate Blank(c: char) { c == ' ' || c == '\t' }

  /** Unquoted, these start operators, expansions or comments, end the command, or cannot be passed at all. */
  predicate Special(c: char) { c in "|&;<>()$`\"*?[]#~!{}\n" || c == NUL }

  function Finished(word: Option<string>): seq<string> {
    match word
    case Some(w) => [w]
    case None => []
  }

  /** The words of `text`, `word` being the one under way; None when the shell would do more than split. */
  function Words(text: string, word: Option<string>, quoted: bool): Option<seq<string>>
    decreases |text|
  {
    if text == "" then (if quoted then None else Some(Finished(word)))
    else
      var c, rest, w := text[0], text[1..], word.GetOr("");
      if quoted then
        if c == '\'' then Words(rest, Some(w), false)
        else if c == NUL then None
        else Words(rest, Some(w + [c]), true)
      else if c == '\'' then Words(rest, Some(w), true)
      else if c == '\\' then
        if rest == "" || rest[0] == NUL then None
        else if rest[0] == '\n' then Words(rest[1..], word, false)
        else Words(rest[1..], Some(w + [rest[0]]), false)
      else if Blank(c) then
        match Words(rest, None, false)
        case Some(words) => Some(Finished(word) + words)
        case None => None
      else if Special(c) then None
      else Words(rest, Some(w + [c]), false)
  }

  function Tokenize(text: string): Option<seq<string>> { Words(text, None, false) }

  // ---------------------------------------------------------------- round trips

  /** Inside the quotes the shell reads the escaped value back, and stops at a NUL. */
  lemma {:induction false} ReadsEscapedValue(value: string, rest: string, w: string)
    ensures Words(ReplaceAll(value, "'", "'\\''") + ("'" + rest), Some(w), true)
         == if NUL in value then None else Words(rest, Some(w + value), false)
    decreases |value|
  {
    var escaped := ReplaceAll(value, "'", "'\\''");
    var text := escaped + ("'" + rest);
    if value == "" {
      assert text == "'" + rest && text[1..] == rest;
      assert w + "" == w;
    } else {
      var tail := ReplaceAll(value[1..], "'", "'\\''") + ("'" + rest);
      assert w + [value[0]] + value[1..] == w + value by { assert value == [value[0]] + value[1..]; }
      ReadsEscapedValue(value[1..], rest, w + [value[0]]);
      if value[0] == '\'' {
        assert "'" <= value;
        assert text == "'\\''" + tail;
        ReadsEscapedQuote(tail, w);
      } else {
        assert "'"[0] == '\'' && !("'" <= value);
        assert text[1..] == tail;
      }
    }
  }

  lemma {:induction false} ReadsEscapedQuote(tail: string, w: string)
    ensures Words("'\\''" + tail, Some(w), true) == Words(tail, Some(w + "'"), true)
  {
    var text := "'\\''" + tail;
    assert text[1..] == "\\''" + tail;
    assert text[1..][1..] == "''" + tail && text[1..][1..][1..] == "'" + tail && ("'" + tail)[1..] == tail;
    assert Words("'" + tail, Some(w + "'"), false) == Words(tail, Some(w + "'"), true);
    assert Words("\\''" + tail, Some(w), false) == Words("'" + tail, Some(w + "'"), false);
  }

  lemma {:induction false} ReadsQuotedValue(value: string, rest: string)
    ensures Words(QuoteForShell(value) + rest, None, false) == if NUL in value then None else Words(rest, Some(value), false)
  {
    var escaped := ReplaceAll(value, "'", "'\\''");
    var text := QuoteForShell(value) + rest;
    assert text[1..] == escaped + ("'" + rest);
    ReadsEscapedValue(value, rest, "");
    assert "" + value == value;
  }

  /** A quoted value is one word, the value itself, for exactly the values a shell can pass. */
  lemma {:induction false} QuotedIsOneWordIffNulFree(value: string)
    ensures Tokenize(QuoteForShell(value)) == Some([value]) <==> NUL !in value
  {
    var escaped := ReplaceAll(value, "'", "'\\''");
    assert QuoteForShell(value)[1..] == escaped + ("'" + "");
    ReadsEscapedValue(value, "", "");
    assert "" + value == value;
  }

  /** The values a shell can pass as arguments. */
  predicate Passable(values: seq<string>) { forall value <- values :: NUL !in value }

  lemma {:induction false} QuotedThenMore(value: string, more: string)
    ensures Tokenize(QuoteForShell(value) + (" " + more))
         == if NUL in value then None
            else match Tokenize(more) case Some(words) => Some([value] + words) case None => None
  {
    var rest := " " + more;
    ReadsQuotedValue(value, rest);
    assert rest[1..] == more;
  }

  lemma {:induction false} QuotedListGrows(values: seq<string>)
    requires |values| > 1
    ensures QuotedList(values) == QuoteForShell(values[0]) + (" " + QuotedList(values[1..]))
  {
    assert QuotedEach(values)[1..] == QuotedEach(values[1..]);
    Reassociate(QuoteForShell(values[0]), " ", QuotedList(values[1..]));
  }

  /** Quoted values joined by spaces come back as the same list, for exactly the lists a shell can pass. */
  lemma {:induction false} QuotedListRoundTripIffPassable(values: seq<string>)
    ensures Tokenize(QuotedList(values)) == if Passable(values) then Some(values) else None
    decreases |values|
  {
    if |values| == 1 {
      ReadsQuotedValue(values[0], "");
      assert QuoteForShell(values[0]) + "" == QuoteForShell(values[0]);
      assert values == [values[0]] && (values[0] in values);
    } else if values != [] {
      var others := values[1..];
      assert values == [values[0]] + others;
      assert Passable(values) <==> NUL !in values[0] && Passable(others);
      QuotedListRoundTripIffPassable(others);
      QuotedThenMore(values[0], QuotedList(others));
      QuotedListGrows(values);
    }
  }

  lemma {:induction false} RemoveCommandText(list: string)
    ensures "rm -f " + list == "rm" + (" " + ("-f " + list)) && "-f " + list == "-f" + (" " + list)
  {
  }

  /** The command the prune step sends: options first, then every victim as one argument. */
  lemma {:induction false} RemoveCommandRoundTrip(victims: seq<string>)
    requires Passable(victims)
    ensures Tokenize("rm -f " + QuotedList(victims)) == Some(["rm", "-f"] + victims)
  {
    QuotedListRoundTripIffPassable(victims);
    PlainWordThen("rm", "-f " + QuotedList(victims));
    PlainWordThen("-f", QuotedList(victims));
    RemoveCommandText(QuotedList(victims));
    assert ["rm"] + (["-f"] + victims) == ["rm", "-f"] + victims;
  }

  /** A program and one argument, both quoted. */
  lemma {:induction false} QuotedPair(program: string, argument: string)
    requires NUL !in program && NUL !in argument
    ensures Tokenize(QuoteForShell(program) + (" " + QuoteForShell(argument))) == Some([program, argument])
  {
    QuotedIsOneWordIffNulFree(argument);
    QuotedThenMore(program, QuoteForShell(argument));
    assert [program] + [argument] == [program, argument];
  }

  predicate PlainChar(c: char) { !Special(c) && !Blank(c) && c != '\'' && c != '\\' }

  lemma {:induction false} ReadsPlainChars(word: string, rest: string, w: string)
    requires forall c <- word :: PlainChar(c)
    ensures Words(word + (" " + rest), Some(w), false) == Words(" " + rest, Some(w + word), false)
    decreases |word|
  {
    if word == "" {
      assert word + (" " + rest) == " " + rest && w + word == w;
    } else {
      assert word[0] in word && (word + (" " + rest))[1..] == word[1..] + (" " + rest);
      ReadsPlainChars(word[1..], rest, w + [word[0]]);
      assert w + [word[0]] + word[1..] == w + word;
    }
  }

  /** An unquoted word without anything special stands for itself. */
  lemma {:induction false} PlainWordThen(word: string, rest: string)
    requires word != "" && forall c <- word :: PlainChar(c)
    ensures Tokenize(word + (" " + rest)) == match Tokenize(rest) case Some(words) => Some([word] + words) case None => None
  {
    var text := word + (" " + rest);
    assert word[0] in word;
    assert text[1..] == word[1..] + (" " + rest) && (" " + rest)[1..] == rest;
    assert "" + [word[0]] == [word[0]] && [word[0]] + word[1..] == word;
    ReadsPlainChars(word[1..], rest, "" + [word[0]]);
    assert Words(text, None, false) == Words(text[1..], Some("" + [word[0]]), false);
  }
}
