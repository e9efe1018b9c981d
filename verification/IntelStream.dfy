/**
 The brace scanner over `intel_gpu_top -J` output: top-level objects with
 arbitrary text between them inside an array that is never closed, the last
 object usually cut short.
 */
module IntelStream {
  import opened Wrappers

  datatype Scan = Scan(depth: nat, inString: bool, escaped: bool, objectStart: nat)

  const FRESH := Scan(0, false, false, 0)

  /** One character; the flag says that a top-level object may have closed. */
  function ScanCharacter(s: Scan, c: char, index: nat): (Scan, bool) {
    if s.inString then
      var escaped := !s.escaped && c == '\\';
      (s.(escaped := escaped, inString := !(c == '"' && !escaped)), false)
    else if c == '"' then (s.(inString := true), false)
    else if c == '{' then (s.(objectStart := if s.depth == 0 then index else s.objectStart, depth := s.depth + 1), false)
    else if c == '}' then CloseBrace(s)
    else (s, false)
  }

  function CloseBrace(s: Scan): (Scan, bool) {
    var depth := if s.depth == 0 then 0 else s.depth - 1;
    (s.(depth := depth), depth == 0)
  }

  /** The half-open span of one sliced object. */
  datatype Span = Span(start: nat, end: nat)

  datatype Walked = Walked(scan: Scan, spans: seq<Span>)

  /** Scans `text`, whose first character has index `at`. */
  function Walk(s: Scan, text: string, at: nat): Walked
    decreases |text|
  {
    if text == "" then Walked(s, [])
    else
      var (next, closed) := ScanCharacter(s, text[0], at);
      var rest := Walk(next, text[1..], at + 1);
      Walked(rest.scan, (if closed then [Span(next.objectStart, at + 1)] else []) + rest.spans)
  }

  lemma {:induction false} WalkConcatenation(s: Scan, a: string, b: string, at: nat)
    ensures var first := Walk(s, a, at);
            var second := Walk(first.scan, b, at + |a|);
            Walk(s, a + b, at) == Walked(second.scan, first.spans + second.spans)
    decreases |a|
  {
    if a == "" {
      assert a + b == b;
    } else {
      assert (a + b)[1..] == a[1..] + b;
      var (next, closed) := ScanCharacter(s, a[0], at);
      WalkConcatenation(next, a[1..], b, at + 1);
      var first := Walk(next, a[1..], at + 1);
      var second := Walk(first.scan, b, at + |a|);
      var here: seq<Span> := if closed then [Span(next.objectStart, at + 1)] else [];
      assert here + (first.spans + second.spans) == (here + first.spans) + second.spans;
      assert Walk(s, a + b, at) == Walked(second.scan, here + (first.spans + second.spans));
    }
  }

  function Cut(raw: string, span: Span): string {
    if span.start <= span.end <= |raw| then raw[span.start..span.end] else ""
  }

  function Texts(raw: string, spans: seq<Span>): seq<string> {
    seq(|spans|, i requires 0 <= i < |spans| => Cut(raw, spans[i]))
  }

  /** The object texts the scanner slices out of `raw`, in order. */
  function Slices(raw: string): seq<string> { Texts(raw, Walk(FRESH, raw, 0).spans) }

  function Parsed<V>(texts: seq<string>, parse: string -> Option<V>): seq<V> {
    if texts == [] then []
    else
      var before := Parsed(texts[..|texts| - 1], parse);
      match parse(texts[|texts| - 1])
      case Some(v) => before + [v]
      case None => before
  }

  /** The scan record the loop writes. */
  class BraceScan {
    var depth: nat
    var inString: bool
    var escaped: bool
    var objectStart: nat

    constructor ()
      ensures State() == FRESH
    {
      depth, inString, escaped, objectStart := 0, false, false, 0;
    }

    function State(): Scan
      reads this
    {
      Scan(depth, inString, escaped, objectStart)
    }

    method Advance(c: char, index: nat) returns (closed: bool)
      modifies this
      ensures (State(), closed) == ScanCharacter(old(State()), c, index)
    {
      closed := false;
      if inString {
        escaped := !escaped && c == '\\';
        if c == '"' && !escaped {
          inString := false;
        }
        return;
      }
      if c == '"' {
        inString := true;
      } else if c == '{' {
        objectStart := if depth == 0 then index else objectStart;
        depth := depth + 1;
      } else if c == '}' {
        depth := if depth == 0 then 0 else depth - 1;
        closed := depth == 0;
      }
    }
  }

  lemma {:induction false} WalkAppend(s: Scan, text: string, c: char, at: nat)
    ensures var before := Walk(s, text, at);
            var (next, closed) := ScanCharacter(before.scan, c, at + |text|);
            Walk(s, text + [c], at)
              == Walked(next, before.spans + (if closed then [Span(next.objectStart, at + |text| + 1)] else []))
  {
    WalkConcatenation(s, text, [c], at);
    var (next, closed) := ScanCharacter(Walk(s, text, at).scan, c, at + |text|);
    assert [c][1..] == "" && Walk(next, "", at + |text| + 1) == Walked(next, []);
    var span: seq<Span> := if closed then [Span(next.objectStart, at + |text| + 1)] else [];
    assert span + [] == span;
  }

  lemma {:induction false} WalkOneMore(raw: string, index: nat)
    requires index < |raw|
    ensures var before := Walk(FRESH, raw[..index], 0);
            var (next, closed) := ScanCharacter(before.scan, raw[index], index);
            Walk(FRESH, raw[..index + 1], 0)
              == Walked(next, before.spans + (if closed then [Span(next.objectStart, index + 1)] else []))
  {
    WalkAppend(FRESH, raw[..index], raw[index], 0);
    assert raw[..index + 1] == raw[..index] + [raw[index]];
  }

  lemma {:induction false} ParsedOneMore<V>(raw: string, spans: seq<Span>, span: Span, parse: string -> Option<V>)
    ensures var before := Parsed(Texts(raw, spans), parse);
            Parsed(Texts(raw, spans + [span]), parse)
              == match parse(Cut(raw, span)) case Some(v) => before + [v] case None => before
  {
    var texts := Texts(raw, spans);
    assert Texts(raw, spans + [span]) == texts + [Cut(raw, span)];
    assert (texts + [Cut(raw, span)])[..|texts|] == texts;
  }

  method ParseIntelObjects<V>(raw: string, parse: string -> Option<V>) returns (objects: seq<V>)
    ensures objects == Parsed(Slices(raw), parse)
  {
    var scan := new BraceScan();
    objects := [];
    ghost var spans: seq<Span> := [];
    for index := 0 to |raw|
      invariant Walk(FRESH, raw[..index], 0) == Walked(scan.State(), spans)
      invariant scan.objectStart <= index
      invariant objects == Parsed(Texts(raw, spans), parse)
    {
      WalkOneMore(raw, index);
      var closed := scan.Advance(raw[index], index);
      if closed {
        var span := Span(scan.objectStart, index + 1);
        var value := parse(raw[scan.objectStart..index + 1]);
        ParsedOneMore(raw, spans, span, parse);
        spans := spans + [span];
        if value.Some? {
          objects := objects + [value.value];
        }
      } else {
        assert spans + [] == spans;
      }
    }
    assert raw[..|raw|] == raw;
  }

  // ---------------------------------------------------------------- the stream printer

  /**
   JSON as printed with any layout: a gap is whatever stands between two values
   (white space, commas), a body is a string literal's text between its quotes,
   escapes included.
   */
  datatype Json = Scalar(text: string) | Text(body: string) | Array(items: Items) | Object(members: Members)
  datatype Items = NoItem(gap: string) | Item(gap: string, value: Json, rest: Items)
  datatype Members = NoMember(gap: string) | Member(gap: string, key: string, colon: string, value: Json, rest: Members)

  function Print(v: Json): string {
    match v
    case Scalar(text) => text
    case Text(body) => "\"" + body + "\""
    case Array(items) => "[" + PrintItems(items) + "]"
    case Object(members) => "{" + PrintMembers(members) + "}"
  }

  function PrintItems(items: Items): string {
    match items
    case NoItem(gap) => gap
    case Item(gap, value, rest) => gap + Print(value) + PrintItems(rest)
  }

  function PrintMembers(members: Members): string {
    match members
    case NoMember(gap) => gap
    case Member(gap, key, colon, value, rest) =>
      gap + ("\"" + key + "\"") + colon + Print(value) + PrintMembers(rest)
  }

  /** Free of quotes and braces. */
  predicate Plain(s: string) { '"' !in s && '{' !in s && '}' !in s }

  /** The text between a literal's quotes holds no `\"`, or an even number of them and no brace. */
  predicate TameBody(body: string) { '"' !in body || (!Odd(Quotes(body)) && '{' !in body && '}' !in body) }

  /** Layout and scalars are plain, and string literals are tame. */
  predicate Tame(v: Json) {
    match v
    case Scalar(text) => Plain(text)
    case Text(body) => TameBody(body)
    case Array(items) => TameItems(items)
    case Object(members) => TameMembers(members)
  }

  predicate TameItems(items: Items) {
    match items
    case NoItem(gap) => Plain(gap)
    case Item(gap, value, rest) => Plain(gap) && Tame(value) && TameItems(rest)
  }

  predicate TameMembers(members: Members) {
    match members
    case NoMember(gap) => Plain(gap)
    case Member(gap, key, colon, value, rest) =>
      Plain(gap) && TameBody(key) && Plain(colon) && Tame(value) && TameMembers(rest)
  }

  /** A stream: gaps and objects, then a gap and a cut object. */
  datatype Stream = Last(gap: string, cut: string) | Next(gap: string, members: Members, rest: Stream)

  function PrintStream(stream: Stream): string {
    match stream
    case Last(gap, cut) => gap + cut
    case Next(gap, members, rest) => gap + Print(Object(members)) + PrintStream(rest)
  }

  function ObjectTexts(stream: Stream): seq<string> {
    match stream
    case Last(_, _) => []
    case Next(_, members, rest) => [Print(Object(members))] + ObjectTexts(rest)
  }

  ghost predicate TameStream(stream: Stream) {
    match stream
    case Last(gap, cut) =>
      Plain(gap) && exists members :: TameMembers(members) && cut <= Print(Object(members)) && cut != Print(Object(members))
    case Next(gap, members, rest) => Plain(gap) && TameMembers(members) && TameStream(rest)
  }

  // ---------------------------------------------------------------- scanning undoes printing

  ghost predicate Passes(s: Scan, text: string, at: nat) { Walk(s, text, at) == Walked(s, []) }

  lemma {:induction false} PassesConcatenation(s: Scan, a: string, b: string, at: nat)
    requires Passes(s, a, at) && Passes(s, b, at + |a|)
    ensures Passes(s, a + b, at)
  {
    WalkConcatenation(s, a, b, at);
  }

  lemma {:induction false} PlainPasses(s: Scan, text: string, at: nat)
    requires Plain(text) && !s.inString
    ensures Passes(s, text, at)
  {
    if text != "" {
      assert text[0] in text;
      PlainPasses(s, text[1..], at + 1);
    }
  }

  lemma {:induction false} BodyEndsAtItsQuote(s: Scan, body: string, at: nat)
    requires '"' !in body && s.inString
    ensures Walk(s, body + "\"", at) == Walked(s.(inString := false, escaped := false), [])
    decreases |body|
  {
    var text := body + "\"";
    if body == "" {
      assert text == "\"" && text[1..] == "";
    } else {
      assert body[0] in body && text[1..] == body[1..] + "\"";
      BodyEndsAtItsQuote(ScanCharacter(s, body[0], at).0, body[1..], at + 1);
    }
  }

  lemma {:induction false} BracelessTextKeepsDepth(s: Scan, text: string, at: nat)
    requires '{' !in text && '}' !in text
    ensures var walked := Walk(s, text, at);
            walked.spans == [] && walked.scan.depth == s.depth && walked.scan.objectStart == s.objectStart
    decreases |text|
  {
    if text != "" {
      assert text[0] in text;
      BracelessTextKeepsDepth(ScanCharacter(s, text[0], at).0, text[1..], at + 1);
    }
  }

  lemma {:induction false} LiteralPasses(s: Scan, body: string, at: nat)
    requires TameBody(body) && !s.inString && !s.escaped
    ensures Passes(s, "\"" + body + "\"", at)
  {
    var text := "\"" + body + "\"";
    var inside := s.(inString := true);
    assert text[1..] == body + "\"";
    if '"' in body {
      StringModeIsQuoteParity(inside, body, at + 1);
      BracelessTextKeepsDepth(inside, body, at + 1);
      WalkAppend(inside, body, '"', at + 1);
    } else {
      BodyEndsAtItsQuote(inside, body, at + 1);
    }
  }

  /** Below the top level a value is invisible: the scan comes back to where it was and slices nothing. */
  lemma {:induction false} ValuePasses(s: Scan, v: Json, at: nat)
    requires Tame(v) && s.depth > 0 && !s.inString && !s.escaped
    ensures Passes(s, Print(v), at)
    decreases v, 0
  {
    match v
    case Scalar(text) => PlainPasses(s, text, at);
    case Text(body) => LiteralPasses(s, body, at);
    case Array(items) =>
      PlainPasses(s, "[", at);
      ItemsPass(s, items, at + 1);
      PassesConcatenation(s, "[", PrintItems(items), at);
      var text := "[" + PrintItems(items);
      PlainPasses(s, "]", at + |text|);
      PassesConcatenation(s, text, "]", at);
    case Object(members) => ObjectWalk(s, members, at);
  }

  lemma {:induction false} ItemsPass(s: Scan, items: Items, at: nat)
    requires TameItems(items) && s.depth > 0 && !s.inString && !s.escaped
    ensures Passes(s, PrintItems(items), at)
    decreases items, 0
  {
    PlainPasses(s, items.gap, at);
    match items
    case NoItem(gap) =>
    case Item(gap, value, rest) =>
      ValuePasses(s, value, at + |gap|);
      PassesConcatenation(s, gap, Print(value), at);
      var text := gap + Print(value);
      ItemsPass(s, rest, at + |text|);
      PassesConcatenation(s, text, PrintItems(rest), at);
  }

  lemma {:induction false} MembersPass(s: Scan, members: Members, at: nat)
    requires TameMembers(members) && s.depth > 0 && !s.inString && !s.escaped
    ensures Passes(s, PrintMembers(members), at)
    decreases members, 0
  {
    PlainPasses(s, members.gap, at);
    match members
    case NoMember(gap) =>
    case Member(gap, key, colon, value, rest) =>
      var name := "\"" + key + "\"";
      LiteralPasses(s, key, at + |gap|);
      PassesConcatenation(s, gap, name, at);
      PlainPasses(s, colon, at + |gap + name|);
      PassesConcatenation(s, gap + name, colon, at);
      ValuePasses(s, value, at + |gap + name + colon|);
      PassesConcatenation(s, gap + name + colon, Print(value), at);
      MembersPass(s, rest, at + |gap + name + colon + Print(value)|);
      PassesConcatenation(s, gap + name + colon + Print(value), PrintMembers(rest), at);
  }

  /** The text up to the closing brace leaves the scan one level deeper and slices nothing. */
  lemma {:induction false} ObjectOpens(s: Scan, members: Members, at: nat)
    requires TameMembers(members) && !s.inString && !s.escaped
    ensures Walk(s, "{" + PrintMembers(members), at)
         == Walked(s.(depth := s.depth + 1, objectStart := if s.depth == 0 then at else s.objectStart), [])
    decreases members, 1
  {
    var inner := ScanCharacter(s, '{', at).0;
    var text := "{" + PrintMembers(members);
    assert text[1..] == PrintMembers(members);
    MembersPass(inner, members, at + 1);
  }

  /** A whole object: invisible below the top level, one span at it. */
  lemma {:induction false} ObjectWalk(s: Scan, members: Members, at: nat)
    requires TameMembers(members) && !s.inString && !s.escaped
    ensures var text := Print(Object(members));
            Walk(s, text, at) == if s.depth == 0 then Walked(s.(objectStart := at), [Span(at, at + |text|)])
                                 else Walked(s, [])
    decreases members, 2
  {
    ObjectOpens(s, members, at);
    var text := "{" + PrintMembers(members);
    WalkConcatenation(s, text, "}", at);
    var inner := Walk(s, text, at).scan;
    var (next, closed) := ScanCharacter(inner, '}', at + |text|);
    assert "}"[1..] == "" && Walk(next, "", at + |text| + 1) == Walked(next, []);
    var span: seq<Span> := if closed then [Span(next.objectStart, at + |text| + 1)] else [];
    assert [] + (span + []) == span;
  }

  /** Cutting an object short leaves it unclosed, so nothing is sliced. */
  lemma {:induction false} CutObjectIsDropped(s: Scan, members: Members, cut: string, at: nat)
    requires TameMembers(members) && s.depth == 0 && !s.inString && !s.escaped
    requires cut <= Print(Object(members)) && cut != Print(Object(members))
    ensures Walk(s, cut, at).spans == []
  {
    var text := "{" + PrintMembers(members);
    assert Print(Object(members)) == text + "}";
    assert cut == text[..|cut|] && text == cut + text[|cut|..];
    ObjectOpens(s, members, at);
    WalkConcatenation(s, cut, text[|cut|..], at);
  }

  lemma {:induction false} SliceAfter(before: string, whole: string, rest: string, later: seq<Span>)
    ensures var raw := before + whole + rest;
            Texts(raw, [Span(|before|, |before + whole|)] + later) == [whole] + Texts(raw, later)
  {
    var raw := before + whole + rest;
    assert raw[|before|..|before + whole|] == whole;
  }

  lemma {:induction false} Reassociate(a: string, b: string, c: string, d: string)
    ensures a + (b + c + d) == a + b + c + d
  {
  }

  lemma {:induction false} StreamSlices(s: Scan, stream: Stream, before: string)
    requires TameStream(stream) && s.depth == 0 && !s.inString && !s.escaped
    ensures Texts(before + PrintStream(stream), Walk(s, PrintStream(stream), |before|).spans) == ObjectTexts(stream)
    decreases stream
  {
    var at := |before|;
    PlainPasses(s, stream.gap, at);
    match stream
    case Last(gap, cut) =>
      var members :| TameMembers(members) && cut <= Print(Object(members)) && cut != Print(Object(members));
      CutObjectIsDropped(s, members, cut, at + |gap|);
      WalkConcatenation(s, gap, cut, at);
    case Next(gap, members, rest) =>
      var whole := Print(Object(members));
      StreamHead(s, gap, members, PrintStream(rest), before);
      StreamSlices(s.(objectStart := at + |gap|), rest, before + gap + whole);
      var later := Walk(s.(objectStart := at + |gap|), PrintStream(rest), |before + gap + whole|).spans;
      SliceAfter(before + gap, whole, PrintStream(rest), later);
      Reassociate(before, gap, whole, PrintStream(rest));
  }

  lemma {:induction false} StreamHead(s: Scan, gap: string, members: Members, rest: string, before: string)
    requires Plain(gap) && TameMembers(members) && s.depth == 0 && !s.inString && !s.escaped
    ensures var whole := Print(Object(members));
            var later := Walk(s.(objectStart := |before + gap|), rest, |before + gap + whole|);
            Walk(s, gap + whole + rest, |before|)
              == Walked(later.scan, [Span(|before + gap|, |before + gap + whole|)] + later.spans)
  {
    var at := |before|;
    var whole := Print(Object(members));
    PlainPasses(s, gap, at);
    ObjectWalk(s, members, at + |gap|);
    WalkConcatenation(s, gap, whole, at);
    WalkConcatenation(s, gap + whole, rest, at);
    var span := Span(at + |gap|, at + |gap| + |whole|);
    assert [] + [span] == [span];
  }

  /**
   The scanner undoes the printer: whatever the layout and nesting, and wherever
   the last object is cut, exactly the complete objects are sliced, in order,
   and handed to the parser.
   */
  lemma {:induction false} ScannerInvertsPrinter<V>(stream: Stream, parse: string -> Option<V>)
    requires TameStream(stream)
    ensures Slices(PrintStream(stream)) == ObjectTexts(stream)
    ensures Parsed(Slices(PrintStream(stream)), parse) == Parsed(ObjectTexts(stream), parse)
  {
    StreamSlices(FRESH, stream, "");
    assert "" + PrintStream(stream) == PrintStream(stream);
  }

  // ---------------------------------------------------------------- escaped quotes

  /** A scanner that looks at `escaped` before it overwrites it, as section 7 of RFC 8259 needs. */
  function ReferenceStep(s: Scan, c: char, index: nat): (Scan, bool) {
    if s.inString then
      (s.(escaped := !s.escaped && c == '\\', inString := !(c == '"' && !s.escaped)), false)
    else ScanCharacter(s, c, index)
  }

  function ReferenceScan(s: Scan, text: string, at: nat): Scan
    decreases |text|
  {
    if text == "" then s else ReferenceScan(ReferenceStep(s, text[0], at).0, text[1..], at + 1)
  }

  /** Somewhere a quote inside a string literal is escaped. */
  predicate HasEscapedQuote(s: Scan, text: string, at: nat)
    decreases |text|
  {
    text != "" && ((s.inString && s.escaped && text[0] == '"')
                   || HasEscapedQuote(ReferenceStep(s, text[0], at).0, text[1..], at + 1))
  }

  /**
   The scanner follows the reference through every prefix of a text exactly when
   no string literal in it contains an escaped quote.
   */
  lemma {:induction false} ScannerIsRightIffNoEscapedQuote(s: Scan, text: string, at: nat)
    ensures (forall n | 0 <= n <= |text| :: Walk(s, text[..n], at).scan == ReferenceScan(s, text[..n], at))
       <==> !HasEscapedQuote(s, text, at)
    decreases |text|
  {
    if text == "" {
      assert forall n | 0 <= n <= |text| :: text[..n] == "";
    } else if s.inString && s.escaped && text[0] == '"' {
      var one := text[..1];
      assert one[0] == text[0] && one[1..] == "";
      assert ReferenceScan(s, one, at) == ReferenceStep(s, text[0], at).0;
      assert Walk(s, one, at).scan == ScanCharacter(s, text[0], at).0;
    } else {
      var next := ReferenceStep(s, text[0], at).0;
      assert ScanCharacter(s, text[0], at).0 == next;
      ScannerIsRightIffNoEscapedQuote(next, text[1..], at + 1);
      forall n | 0 <= n <= |text|
        ensures n > 0 ==> Walk(s, text[..n], at).scan == Walk(next, text[1..][..n - 1], at + 1).scan
        ensures n > 0 ==> ReferenceScan(s, text[..n], at) == ReferenceScan(next, text[1..][..n - 1], at + 1)
        ensures n == 0 ==> text[..n] == ""
      {
        if n > 0 { assert text[..n][0] == text[0] && text[..n][1..] == text[1..][..n - 1]; }
      }
      forall n | 0 <= n <= |text[1..]| ensures text[1..][..n] == text[1..][..(n + 1) - 1] {}
      if forall n | 0 <= n <= |text| :: Walk(s, text[..n], at).scan == ReferenceScan(s, text[..n], at) {
        forall n | 0 <= n <= |text[1..]|
          ensures Walk(next, text[1..][..n], at + 1).scan == ReferenceScan(next, text[1..][..n], at + 1)
        {
          assert Walk(s, text[..n + 1], at).scan == ReferenceScan(s, text[..n + 1], at);
        }
      }
    }
  }

  function Quotes(text: string): nat {
    if text == "" then 0 else (if text[0] == '"' then 1 else 0) + Quotes(text[1..])
  }

  predicate Odd(n: int) { n % 2 == 1 }

  lemma {:induction false} QuotesAdd(a: string, b: string)
    ensures Quotes(a + b) == Quotes(a) + Quotes(b)
  {
    if a == "" {
      assert a + b == b;
    } else {
      assert (a + b)[1..] == a[1..] + b;
      QuotesAdd(a[1..], b);
    }
  }

  /** Every quote, escaped or not, switches string mode: at the end it is on after an odd number of them. */
  lemma {:induction false} StringModeIsQuoteParity(s: Scan, text: string, at: nat)
    ensures Walk(s, text, at).scan.inString <==> (s.inString != Odd(Quotes(text)))
    decreases |text|
  {
    if text != "" {
      var next := ScanCharacter(s, text[0], at).0;
      assert next.inString <==> (s.inString != (text[0] == '"'));
      StringModeIsQuoteParity(next, text[1..], at + 1);
    }
  }

  /** A slice ends at a brace read outside string mode. */
  lemma {:induction false} SlicesEndOutsideStrings(s: Scan, text: string, at: nat, span: Span)
    requires span in Walk(s, text, at).spans
    ensures at < span.end <= at + |text| && !Walk(s, text[..span.end - 1 - at], at).scan.inString
    decreases |text|
  {
    var (next, closed) := ScanCharacter(s, text[0], at);
    if closed && span == Span(next.objectStart, at + 1) {
      assert text[..0] == "";
    } else {
      SlicesEndOutsideStrings(next, text[1..], at + 1, span);
      var n := span.end - 1 - at;
      assert text[..n][1..] == text[1..][..n - 1] && text[..n][0] == text[0];
    }
  }

  /** Wherever an object with an odd number of quotes stands outside string mode, no slice ends where it does. */
  lemma {:induction false} OddObjectIsNeverSliced(before: string, body: string, after: string, span: Span)
    requires !Odd(Quotes(before)) && Odd(Quotes(body + "}"))
    requires span in Walk(FRESH, before + (body + "}") + after, 0).spans
    ensures span.end != |before + (body + "}")|
  {
    var text := before + (body + "}") + after;
    SlicesEndOutsideStrings(FRESH, text, 0, span);
    if span.end == |before + (body + "}")| {
      assert text[..span.end - 1] == before + body;
      QuotesAdd(before, body);
      QuotesAdd(body, "}");
      assert Quotes("}") == 0 by { assert "}"[1..] == ""; }
      StringModeIsQuoteParity(FRESH, before + body, 0);
    }
  }

  /** The escaped quotes in a value's string literals. */
  function BodyQuotes(v: Json): nat {
    match v
    case Scalar(text) => 0
    case Text(body) => Quotes(body)
    case Array(items) => ItemQuotes(items)
    case Object(members) => MemberQuotes(members)
  }

  function ItemQuotes(items: Items): nat {
    match items
    case NoItem(_) => 0
    case Item(_, value, rest) => BodyQuotes(value) + ItemQuotes(rest)
  }

  function MemberQuotes(members: Members): nat {
    match members
    case NoMember(_) => 0
    case Member(_, key, _, value, rest) => Quotes(key) + BodyQuotes(value) + MemberQuotes(rest)
  }

  /** Layout and scalars are free of quotes; literals may hold any. */
  predicate QuoteFreeLayout(v: Json) {
    match v
    case Scalar(text) => '"' !in text
    case Text(_) => true
    case Array(items) => QuoteFreeItems(items)
    case Object(members) => QuoteFreeMembers(members)
  }

  predicate QuoteFreeItems(items: Items) {
    match items
    case NoItem(gap) => '"' !in gap
    case Item(gap, value, rest) => '"' !in gap && QuoteFreeLayout(value) && QuoteFreeItems(rest)
  }

  predicate QuoteFreeMembers(members: Members) {
    match members
    case NoMember(gap) => '"' !in gap
    case Member(gap, _, colon, value, rest) =>
      '"' !in gap && '"' !in colon && QuoteFreeLayout(value) && QuoteFreeMembers(rest)
  }

  lemma {:induction false} NoQuotes(text: string)
    requires '"' !in text
    ensures Quotes(text) == 0
  {
    if text != "" {
      assert text[0] in text;
      NoQuotes(text[1..]);
    }
  }

  lemma {:induction false} LiteralQuotes(body: string)
    ensures Quotes("\"" + body + "\"") == Quotes(body) + 2
  {
    QuotesAdd("\"" + body, "\"");
    QuotesAdd("\"", body);
    assert "\""[1..] == "" && Quotes("\"") == 1;
  }

  lemma {:induction false} BracketQuotes(open: string, text: string, close: string)
    requires '"' !in open && '"' !in close
    ensures Quotes(open + text + close) == Quotes(text)
  {
    NoQuotes(open);
    NoQuotes(close);
    QuotesAdd(open + text, close);
    QuotesAdd(open, text);
  }

  /** A printed value holds an odd number of quotes exactly when its literals hold an odd number of escaped ones. */
  lemma {:induction false} PrintedQuotes(v: Json)
    requires QuoteFreeLayout(v)
    ensures Odd(Quotes(Print(v))) <==> Odd(BodyQuotes(v))
    decreases v
  {
    match v
    case Scalar(text) => NoQuotes(text);
    case Text(body) => LiteralQuotes(body);
    case Array(items) =>
      BracketQuotes("[", PrintItems(items), "]");
      PrintedItemQuotes(items);
    case Object(members) =>
      BracketQuotes("{", PrintMembers(members), "}");
      PrintedMemberQuotes(members);
  }

  lemma {:induction false} PrintedItemQuotes(items: Items)
    requires QuoteFreeItems(items)
    ensures Odd(Quotes(PrintItems(items))) <==> Odd(ItemQuotes(items))
    decreases items
  {
    NoQuotes(items.gap);
    match items
    case NoItem(_) =>
    case Item(gap, value, rest) =>
      PrintedQuotes(value);
      PrintedItemQuotes(rest);
      QuotesAdd(gap + Print(value), PrintItems(rest));
      QuotesAdd(gap, Print(value));
  }

  lemma {:induction false} PrintedMemberQuotes(members: Members)
    requires QuoteFreeMembers(members)
    ensures Odd(Quotes(PrintMembers(members))) <==> Odd(MemberQuotes(members))
    decreases members
  {
    NoQuotes(members.gap);
    match members
    case NoMember(_) =>
    case Member(gap, key, colon, value, rest) =>
      var name := "\"" + key + "\"";
      PrintedQuotes(value);
      PrintedMemberQuotes(rest);
      NoQuotes(colon);
      LiteralQuotes(key);
      QuotesAdd(gap + name + colon + Print(value), PrintMembers(rest));
      QuotesAdd(gap + name + colon, Print(value));
      QuotesAdd(gap + name, colon);
      QuotesAdd(gap, name);
  }

  /**
   A caller can tell beforehand: after a text that leaves the scan outside
   strings, an object whose literals hold an odd number of escaped quotes is
   never sliced whole, whatever follows; no slice even ends where it ends.
   */
  lemma {:induction false} OddlyEscapedObjectIsLost(before: string, members: Members, after: string)
    requires !Odd(Quotes(before)) && QuoteFreeMembers(members) && Odd(MemberQuotes(members))
    ensures var text := Print(Object(members));
            forall span <- Walk(FRESH, before + text + after, 0).spans :: span.end != |before + text|
  {
    var text := Print(Object(members));
    PrintedQuotes(Object(members));
    forall span <- Walk(FRESH, before + text + after, 0).spans ensures span.end != |before + text| {
      OddObjectIsNeverSliced(before, "{" + PrintMembers(members), after, span);
    }
  }

  // ---------------------------------------------------------------- which objects are sliced whole

  /** The brace depth after `text`, never under zero, counting only braces with an even number of quotes before them. */
  function BraceDepth(text: string): nat
    decreases |text|
  {
    if text == "" then 0
    else
      var before, c := text[..|text| - 1], text[|text| - 1];
      var depth := BraceDepth(before);
      if Odd(Quotes(before)) then depth
      else if c == '{' then depth + 1
      else if c == '}' && depth > 0 then depth - 1
      else depth
  }

  /** Position `i` holds an opening brace that the scanner takes for the start of an object. */
  predicate OpensAt(text: string, i: nat)
    requires i < |text|
  {
    text[i] == '{' && !Odd(Quotes(text[..i])) && BraceDepth(text[..i]) == 0
  }

  /** Even quotes, depth zero at the end, and no start of an object but the first character. */
  predicate Whole(text: string) {
    && !Odd(Quotes(text)) && BraceDepth(text) == 0
    && OpensOnce(text)
  }

  predicate OpensOnce(text: string) { forall i | 0 < i < |text| :: !OpensAt(text, i) }

  lemma {:induction false} OpensOnceAppend(text: string, c: char)
    requires text != ""
    ensures OpensOnce(text + [c]) <==> OpensOnce(text) && !OpensAt(text + [c], |text|)
  {
    var longer := text + [c];
    forall i | 0 < i < |text| ensures OpensAt(longer, i) <==> OpensAt(text, i) {
      assert longer[..i] == text[..i];
    }
    if OpensOnce(longer) {
      forall i | 0 < i < |text| ensures !OpensAt(text, i) { assert !OpensAt(longer, i); }
    }
  }

  predicate Outside(s: Scan) { s.depth == 0 && !s.inString }

  lemma {:induction false} BraceDepthAppend(text: string, c: char)
    ensures BraceDepth(text + [c]) == if Odd(Quotes(text)) then BraceDepth(text)
                                      else if c == '{' then BraceDepth(text) + 1
                                      else if c == '}' && BraceDepth(text) > 0 then BraceDepth(text) - 1
                                      else BraceDepth(text)
  {
    assert (text + [c])[..|text|] == text;
  }

  lemma {:induction false} DepthIsBraceDepth(s: Scan, text: string, at: nat)
    requires Outside(s)
    ensures Walk(s, text, at).scan.depth == BraceDepth(text)
    decreases |text|
  {
    if text != "" {
      var before, c := text[..|text| - 1], text[|text| - 1];
      assert text == before + [c];
      DepthIsBraceDepth(s, before, at);
      StringModeIsQuoteParity(s, before, at);
      WalkAppend(s, before, c, at);
      BraceDepthAppend(before, c);
    }
  }

  /** After an opening brace, the recorded start is that brace until another one starts an object. */
  lemma {:induction false} StartIsKeptIff(s: Scan, text: string, at: nat)
    requires Outside(s) && text != "" && text[0] == '{'
    ensures Walk(s, text, at).scan.objectStart == at <==> OpensOnce(text)
    ensures Walk(s, text, at).scan.objectStart >= at
    decreases |text|
  {
    var before, c := text[..|text| - 1], text[|text| - 1];
    assert text == before + [c];
    WalkAppend(s, before, c, at);
    if before == "" {
      assert Walk(s, before, at).scan == s;
    } else {
      StartIsKeptIff(s, before, at);
      DepthIsBraceDepth(s, before, at);
      StringModeIsQuoteParity(s, before, at);
      OpensOnceAppend(before, c);
      assert text[..|before|] == before && before[0] == text[0];
    }
  }

  lemma {:induction false} SpansEndWithin(s: Scan, text: string, at: nat, span: Span)
    requires span in Walk(s, text, at).spans
    ensures at < span.end <= at + |text|
  {
    SlicesEndOutsideStrings(s, text, at, span);
  }

  lemma {:induction false} BracedIsSlicedIff(s: Scan, body: string, at: nat)
    requires Outside(s)
    ensures var text := "{" + body + "}";
            Span(at, at + |text|) in Walk(s, text, at).spans <==> Whole(text)
  {
    var begun, text := "{" + body, "{" + body + "}";
    WalkAppend(s, begun, '}', at);
    assert text == begun + ['}'];
    StringModeIsQuoteParity(s, begun, at);
    QuotesAdd(begun, "}");
    NoQuotes("}");
    DepthIsBraceDepth(s, text, at);
    StartIsKeptIff(s, text, at);
    if Span(at, at + |text|) in Walk(s, begun, at).spans { SpansEndWithin(s, begun, at, Span(at, at + |text|)); }
  }

  /** The spans that end with a middle part come from it alone. */
  lemma {:induction false} SpanOfMiddle(s: Scan, a: string, b: string, c: string, start: nat)
    requires b != ""
    ensures Span(start, |a + b|) in Walk(s, a + b + c, 0).spans
       <==> Span(start, |a + b|) in Walk(Walk(s, a, 0).scan, b, |a|).spans
  {
    var span := Span(start, |a + b|);
    var first := Walk(s, a, 0);
    var second := Walk(first.scan, b, |a|);
    var third := Walk(second.scan, c, |a + b|);
    WalkConcatenation(s, a + b, c, 0);
    WalkConcatenation(s, a, b, 0);
    assert Walk(s, a + b + c, 0).spans == (first.spans + second.spans) + third.spans;
    if span in first.spans { SpansEndWithin(s, a, 0, span); }
    if span in third.spans { SpansEndWithin(second.scan, c, |a + b|, span); }
  }

  /**
   After any text that leaves the scan outside strings and objects, and whatever
   follows, an object is sliced whole exactly when its text is `Whole`: escaped
   quotes or not, whatever its literals hold.
   */
  lemma {:induction false} ObjectIsSlicedIff(before: string, members: Members, after: string)
    requires !Odd(Quotes(before)) && BraceDepth(before) == 0
    ensures var text := Print(Object(members));
            Span(|before|, |before + text|) in Walk(FRESH, before + text + after, 0).spans <==> Whole(text)
  {
    var text := Print(Object(members));
    DepthIsBraceDepth(FRESH, before, 0);
    StringModeIsQuoteParity(FRESH, before, 0);
    BracedIsSlicedIff(Walk(FRESH, before, 0).scan, PrintMembers(members), |before|);
    SpanOfMiddle(FRESH, before, text, after, |before|);
  }

  lemma {:induction false} ScanUpToTheEscapedQuote(rest: string)
    ensures var s := Scan(1, false, false, 0);
            Walk(FRESH, "{" + ("\"a\"" + (":" + ("\"x\\\"" + rest))), 0) == Walk(s, rest, 9)
  {
    var s := Scan(1, false, false, 0);
    assert "{"[1..] == "" && Walk(FRESH, "{", 0) == Walked(s, []);
    LiteralPasses(s, "a", 1);
    PlainPasses(s, ":", 4);
    LiteralPasses(s, "x\\", 5);
    Skip(Scan(1, false, false, 0), "\"x\\\"", rest, 5);
    Skip(s, ":", "\"x\\\"" + rest, 4);
    Skip(s, "\"a\"", ":" + ("\"x\\\"" + rest), 1);
    WalkConcatenation(FRESH, "{", "\"a\"" + (":" + ("\"x\\\"" + rest)), 0);
    var tail := Walk(s, rest, 9);
    assert [] + tail.spans == tail.spans;
  }

  lemma {:induction false} Skip(s: Scan, a: string, b: string, at: nat)
    requires Passes(s, a, at)
    ensures Walk(s, a + b, at) == Walk(s, b, at + |a|)
  {
    WalkConcatenation(s, a, b, at);
    var tail := Walk(s, b, at + |a|);
    assert [] + tail.spans == tail.spans;
  }

  /** The quote meant to end the literal opens a new one, which swallows the closing brace. */
  lemma {:induction false} ScanAfterTheEscapedQuote(s: Scan)
    requires s == Scan(1, false, false, 0)
    ensures Walk(s, "y\"}", 9).spans == []
  {
    var quoted := s.(inString := true);
    assert "}"[1..] == "" && Walk(quoted, "}", 11) == Walked(quoted, []);
    assert "\"}"[1..] == "}" && Walk(s, "\"}", 10) == Walked(quoted, []);
    assert "y\"}"[1..] == "\"}";
  }

  /** `{"a":"x\"y"}` is one complete object, and the scanner slices nothing. */
  lemma {:induction false} EscapedQuoteLosesTheObject()
    ensures Slices("{\"a\":\"x\\\"y\"}") == []
  {
    assert "{\"a\":\"x\\\"y\"}" == "{" + ("\"a\"" + (":" + ("\"x\\\"" + "y\"}")));
    ScanUpToTheEscapedQuote("y\"}");
    ScanAfterTheEscapedQuote(Scan(1, false, false, 0));
  }
}
