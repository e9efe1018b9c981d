/** A share's cfg file: what the parser's line-anchored pattern extracts from any text, and the file emhttpd writes. */
module ShareCfg {
  import opened Wrappers

  type Entry = (string, string)

  type Cfg = map<string, string>

  predicate WordChar(c: char) { 'A' <= c <= 'Z' || 'a' <= c <= 'z' || '0' <= c <= '9' || c == '_' }

  predicate WordKey(key: string) { key != "" && forall c <- key :: WordChar(c) }

  /** The places `^` matches after, in a multi-line pattern. */
  predicate LineEnd(c: char) { c == '\n' || c == '\r' || c == '\U{2028}' || c == '\U{2029}' }

  function WordPrefix(text: string): (r: string)
    ensures r <= text && forall c <- r :: WordChar(c)
  {
    if text != "" && WordChar(text[0]) then [text[0]] + WordPrefix(text[1..]) else ""
  }

  /** The characters before the first quote, if there is one. */
  function UntilQuote(text: string): (r: Option<string>)
    ensures r.Some? ==> '"' !in r.value && |r.value| < |text|
  {
    if text == "" then None
    else if text[0] == '"' then Some("")
    else
      match UntilQuote(text[1..])
      case Some(rest) => Some([text[0]] + rest)
      case None => None
  }

  datatype Match = Match(entry: Entry, rest: string)

  /** One match of `key="value"` at the start of `text`; the value may span lines. */
  function MatchEntry(text: string): (r: Option<Match>)
    ensures r.Some? ==> |r.value.rest| < |text| && WordKey(r.value.entry.0) && '"' !in r.value.entry.1
  {
    var key := WordPrefix(text);
    if key == "" || !("=\"" <= text[|key|..]) then None
    else
      var body := text[|key| + 2..];
      match UntilQuote(body)
      case None => None
      case Some(value) => Some(Match((key, value), body[|value| + 1..]))
  }

  /** All matches in order, each search going on where the last match ended. */
  function Matches(text: string, lineStart: bool): (r: seq<Entry>)
    ensures forall entry <- r :: WordKey(entry.0) && '"' !in entry.1
    decreases |text|
  {
    if text == "" then []
    else
      match (if lineStart then MatchEntry(text) else None)
      case Some(found) => [found.entry] + Matches(found.rest, false)
      case None => Matches(text[1..], LineEnd(text[0]))
  }

  /** A later entry overwrites an earlier one. */
  function AsMap(entries: seq<Entry>): Cfg {
    if entries == [] then map[]
    else
      var last := entries[|entries| - 1];
      AsMap(entries[..|entries| - 1])[last.0 := last.1]
  }

  function Parsed(text: string): Cfg { AsMap(Matches(text, true)) }

  method ParseShareCfg(text: string) returns (cfg: Cfg)
    ensures cfg == Parsed(text)
  {
    cfg := map[];
    var matches := Matches(text, true);
    for i := 0 to |matches|
      invariant cfg == AsMap(matches[..i])
    {
      cfg := cfg[matches[i].0 := matches[i].1];
      assert matches[..i + 1][..i] == matches[..i];
    }
    assert matches[..|matches|] == matches;
  }

  /** No value that comes out of a cfg file holds a quote. */
  predicate QuoteFree(cfg: Cfg) { forall key <- cfg :: '"' !in cfg[key] }

  lemma {:induction false} AsMapHolds(entries: seq<Entry>, key: string)
    requires key in AsMap(entries)
    ensures (key, AsMap(entries)[key]) in entries
  {
    var last, before := entries[|entries| - 1], entries[..|entries| - 1];
    if key != last.0 { AsMapHolds(before, key); }
  }

  lemma {:induction false} ParsedIsQuoteFree(text: string)
    ensures QuoteFree(Parsed(text))
  {
    forall key <- Parsed(text) ensures '"' !in Parsed(text)[key] { AsMapHolds(Matches(text, true), key); }
  }

  /** An entry counts only at the start of a line: a text without line ends yields at most one. */
  lemma {:induction false} OneEntryPerLine(text: string)
    requires forall c <- text :: !LineEnd(c)
    ensures Matches(text, false) == [] && |Matches(text, true)| <= 1
    decreases |text|
  {
    if text != "" {
      assert text[0] in text;
      OneEntryPerLine(text[1..]);
      match MatchEntry(text)
      case Some(found) =>
        MatchLeavesATail(text);
        OneEntryPerLine(found.rest);
      case None =>
    }
  }

  lemma {:induction false} MatchLeavesATail(text: string)
    requires MatchEntry(text).Some?
    ensures forall c <- MatchEntry(text).value.rest :: c in text
  {
    var rest := MatchEntry(text).value.rest;
    var key := WordPrefix(text);
    var body := text[|key| + 2..];
    forall c <- rest ensures c in text {
      assert c in body;
    }
  }

  /** Where the character classes of the pattern begin and end, by code point. */
  lemma {:induction false} ClassesByCodePoint(c: char)
    ensures var n := c as int; WordChar(c) <==> 65 <= n < 91 || 97 <= n < 123 || 48 <= n < 58 || n == 95
    ensures var n := c as int; LineEnd(c) <==> n == 10 || n == 13 || n == 8232 || n == 8233
  {
  }

  // ---------------------------------------------------------------- the file emhttpd writes

  const HEADER := "# Generated settings:\n"

  function Line(entry: Entry): string { entry.0 + ("=\"" + (entry.1 + "\"\n")) }

  function Lines(entries: seq<Entry>): string { if entries == [] then "" else Line(entries[0]) + Lines(entries[1..]) }

  function Printed(entries: seq<Entry>): string { HEADER + Lines(entries) }

  predicate Printable(entries: seq<Entry>) { forall entry <- entries :: WordKey(entry.0) && '"' !in entry.1 }

  lemma {:induction false} ReadsKey(key: string, rest: string)
    requires (forall c <- key :: WordChar(c)) && rest != "" && !WordChar(rest[0])
    ensures WordPrefix(key + rest) == key
    decreases |key|
  {
    if key == "" {
      assert key + rest == rest;
    } else {
      assert key[0] in key && (key + rest)[1..] == key[1..] + rest;
      ReadsKey(key[1..], rest);
      assert key == [key[0]] + key[1..];
    }
  }

  lemma {:induction false} ReadsQuotedValue(value: string, rest: string)
    requires '"' !in value
    ensures UntilQuote(value + ("\"" + rest)) == Some(value)
    decreases |value|
  {
    if value == "" {
      assert value + ("\"" + rest) == "\"" + rest;
    } else {
      assert value[0] in value && (value + ("\"" + rest))[1..] == value[1..] + ("\"" + rest);
      ReadsQuotedValue(value[1..], rest);
      assert value == [value[0]] + value[1..];
    }
  }

  lemma {:induction false} ReadsEntry(entry: Entry, rest: string)
    requires WordKey(entry.0) && '"' !in entry.1
    ensures MatchEntry(Line(entry) + rest) == Some(Match(entry, "\n" + rest))
  {
    var (key, value) := entry;
    var body := value + ("\"" + ("\n" + rest));
    var text := Line(entry) + rest;
    assert text == key + ("=\"" + body);
    ReadsKey(key, "=\"" + body);
    assert text[|key|..] == "=\"" + body && text[|key| + 2..] == body;
    ReadsQuotedValue(value, "\n" + rest);
    assert body[|value| + 1..] == "\n" + rest;
  }

  lemma {:induction false} PrintableRest(entries: seq<Entry>)
    requires Printable(entries) && entries != []
    ensures Printable(entries[1..])
  {
    forall entry <- entries[1..] ensures WordKey(entry.0) && '"' !in entry.1 { assert entry in entries; }
  }

  lemma {:induction false} ReadsFirstLine(entry: Entry, rest: string)
    requires WordKey(entry.0) && '"' !in entry.1
    ensures Matches(Line(entry) + rest, true) == [entry] + Matches(rest, true)
  {
    ReadsEntry(entry, rest);
    assert ("\n" + rest)[1..] == rest;
    assert Matches("\n" + rest, false) == Matches(rest, true);
    assert Line(entry) + rest != "";
  }

  lemma {:induction false} ReadsLines(entries: seq<Entry>)
    requires Printable(entries)
    ensures Matches(Lines(entries), true) == entries
  {
    if entries != [] {
      assert entries[0] in entries;
      ReadsFirstLine(entries[0], Lines(entries[1..]));
      PrintableRest(entries);
      ReadsLines(entries[1..]);
      assert entries == [entries[0]] + entries[1..];
    }
  }

  lemma {:induction false} SkipsToLineEnd(line: string, rest: string)
    requires forall c <- line :: !LineEnd(c)
    ensures Matches(line + ("\n" + rest), false) == Matches(rest, true)
    decreases |line|
  {
    if line == "" {
      assert line + ("\n" + rest) == "\n" + rest && ("\n" + rest)[1..] == rest;
    } else {
      assert line[0] in line && (line + ("\n" + rest))[1..] == line[1..] + ("\n" + rest);
      SkipsToLineEnd(line[1..], rest);
    }
  }

  lemma {:induction false} HeaderIsAComment(rest: string)
    ensures HEADER + rest == "#" + (" Generated settings:" + ("\n" + rest))
  {
  }

  lemma {:induction false} SkipsHeader(rest: string)
    ensures Matches(HEADER + rest, true) == Matches(rest, true)
  {
    var comment := " Generated settings:" + ("\n" + rest);
    HeaderIsAComment(rest);
    SkipsToLineEnd(" Generated settings:", rest);
    assert ("#" + comment)[0] == '#' && ("#" + comment)[1..] == comment;
    assert WordPrefix("#" + comment) == "";
  }

  /** The parser reads back the file emhttpd writes, comment line and all. */
  lemma {:induction false} FileRoundTrip(entries: seq<Entry>)
    requires Printable(entries)
    ensures Parsed(Printed(entries)) == AsMap(entries)
  {
    ReadsLines(entries);
    SkipsHeader(Lines(entries));
  }

  // ---------------------------------------------------------------- storing entries

  function Without(entries: seq<Entry>, key: string): seq<Entry> {
    if entries == [] then []
    else (if entries[0].0 == key then [] else [entries[0]]) + Without(entries[1..], key)
  }

  function PutAll(entries: seq<Entry>, fields: seq<Entry>): seq<Entry>
    decreases |fields|
  {
    if fields == [] then entries
    else PutAll(Without(entries, fields[0].0) + [fields[0]], fields[1..])
  }

  lemma {:induction false} AsMapConcatenation(a: seq<Entry>, b: seq<Entry>)
    ensures AsMap(a + b) == AsMap(a) + AsMap(b)
    decreases |b|
  {
    if b == [] {
      assert a + b == a;
    } else {
      var before := b[..|b| - 1];
      AsMapConcatenation(a, before);
      assert (a + b)[..|a + b| - 1] == a + before;
    }
  }

  lemma {:induction false} AsMapOfOne(entry: Entry)
    ensures AsMap([entry]) == map[entry.0 := entry.1]
  {
    assert [entry][..0] == [] && AsMap([]) == map[];
  }

  lemma {:induction false} AsMapFromFirst(first: Entry, rest: seq<Entry>)
    ensures AsMap([first] + rest) == map[first.0 := first.1] + AsMap(rest)
  {
    AsMapConcatenation([first], rest);
    AsMapOfOne(first);
  }

  lemma {:induction false} ForgetTheKey(first: Entry, rest: Cfg, key: string)
    ensures (map[first.0 := first.1] + rest) - {key}
         == if first.0 == key then rest - {key} else map[first.0 := first.1] + (rest - {key})
  {
  }

  lemma {:induction false} WithoutForgetsOnlyTheKey(entries: seq<Entry>, key: string)
    ensures AsMap(Without(entries, key)) == AsMap(entries) - {key}
  {
    if entries != [] {
      var first, rest := entries[0], entries[1..];
      WithoutForgetsOnlyTheKey(rest, key);
      assert entries == [first] + rest;
      AsMapFromFirst(first, rest);
      ForgetTheKey(first, AsMap(rest), key);
      if first.0 == key {
        assert Without(entries, key) == Without(rest, key);
      } else {
        AsMapFromFirst(first, Without(rest, key));
      }
    }
  }

  lemma {:induction false} WithoutIsPrintable(entries: seq<Entry>, key: string)
    requires Printable(entries)
    ensures Printable(Without(entries, key))
  {
    if entries != [] {
      assert entries[0] in entries;
      PrintableRest(entries);
      WithoutIsPrintable(entries[1..], key);
    }
  }

  lemma {:induction false} StoredFirst(before: Cfg, field: Entry, after: Cfg)
    ensures (before - {field.0}) + map[field.0 := field.1] + after == before + (map[field.0 := field.1] + after)
  {
  }

  /** Storing fields changes exactly those keys. */
  lemma {:induction false} PutAllStores(entries: seq<Entry>, fields: seq<Entry>)
    ensures AsMap(PutAll(entries, fields)) == AsMap(entries) + AsMap(fields)
    decreases |fields|
  {
    if fields != [] {
      var first, rest := fields[0], fields[1..];
      var kept := Without(entries, first.0);
      WithoutForgetsOnlyTheKey(entries, first.0);
      PutAllStores(kept + [first], rest);
      AsMapConcatenation(kept, [first]);
      assert fields == [first] + rest;
      AsMapFromFirst(first, rest);
      AsMapOfOne(first);
      StoredFirst(AsMap(entries), first, AsMap(rest));
    }
  }

  lemma {:induction false} PutAllIsPrintable(entries: seq<Entry>, fields: seq<Entry>)
    requires Printable(entries) && Printable(fields)
    ensures Printable(PutAll(entries, fields))
    decreases |fields|
  {
    if fields != [] {
      assert fields[0] in fields;
      WithoutIsPrintable(entries, fields[0].0);
      PrintableRest(fields);
      PutAllIsPrintable(Without(entries, fields[0].0) + [fields[0]], fields[1..]);
    }
  }
}
