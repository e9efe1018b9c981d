/**
 Redaction of printed JSON: the structured channel replaces secrets in the text
 `JSON.stringify` prints, not in the string values it prints.
 */
module RedactJson {
  import opened Wrappers
  import opened Strings
  import opened Redact
  import Json

  // ---------------------------------------------------------------- escaping by character

  function Chars(units: seq<Json.Unit>): (r: string)
    ensures |r| == |units|
  {
    seq(|units|, i requires 0 <= i < |units| => if Json.Surrogate(units[i]) then '?' else units[i] as char)
  }

  /** A character outside the surrogate range, as `JSON.stringify` prints it in a literal. */
  function EscapeChar(c: char): (r: string) {
    if c as int < 0x10000 then Chars(Json.EscapeUnit(c as int)) else [c]
  }

  function Escape(text: string): string {
    if text == "" then "" else EscapeChar(text[0]) + Escape(text[1..])
  }

  predicate SelfPrinting(text: string) { forall c <- text :: EscapeChar(c) == [c] }

  /** An escape is longer than its character and starts with a backslash; no marker starts inside it. */
  lemma {:induction false} EscapesStartWithBackslash(c: char)
    ensures EscapeChar(c) != [c] ==>
              && |EscapeChar(c)| > 1 && EscapeChar(c)[0] == '\\'
              && forall d | 0 < d < |EscapeChar(c)| :: EscapeChar(c)[d] != '['
    ensures EscapeChar(c) == [c] ==> c != '\\' && c != '"'
  {
    if c as int < 0x10000 {
      var u: Json.Unit := c as int;
      var e := Json.EscapeUnit(u);
      assert !Json.Surrogate(u);
      if e != [u] {
        assert forall d | 0 < d < |e| :: e[d] != 91 && !Json.Surrogate(e[d]);
      }
    }
  }

  lemma {:induction false} EscapeConcatenation(a: string, b: string)
    ensures Escape(a + b) == Escape(a) + Escape(b)
  {
    if a == "" {
      assert a + b == b;
    } else {
      assert (a + b)[1..] == a[1..] + b;
      EscapeConcatenation(a[1..], b);
      Reassociate(EscapeChar(a[0]), Escape(a[1..]), Escape(b));
    }
  }

  lemma {:induction false} SelfPrintingIff(text: string)
    ensures |Escape(text)| >= |text|
    ensures SelfPrinting(text) ==> Escape(text) == text
    ensures !SelfPrinting(text) ==> |Escape(text)| > |text| && '\\' in Escape(text)
  {
    if text != "" {
      EscapesStartWithBackslash(text[0]);
      SelfPrintingIff(text[1..]);
      assert text == [text[0]] + text[1..];
      if EscapeChar(text[0]) != [text[0]] { assert EscapeChar(text[0])[0] == '\\'; }
    }
  }

  // ---------------------------------------------------------------- redacting a value through its print

  /** Laid over an escape sequence after its backslash, the secret agrees with it wherever they meet. */
  ghost predicate MeetsEscape(secret: string) { exists c, d :: MeetsEscapeAt(secret, c, d) }

  ghost predicate MeetsEscapeAt(secret: string, c: char, d: int) {
    && EscapeChar(c) != [c] && 0 < d < |EscapeChar(c)|
    && (EscapeChar(c)[d..] <= secret || secret <= EscapeChar(c)[d..])
  }

  function Replaced(text: string, secret: string): string
    requires secret != ""
  {
    ReplaceAll(text, secret, REDACTED)
  }

  /** Replacing in the print of any string value is printing the replaced value. */
  ghost predicate Commutes(secret: string)
    requires secret != ""
  {
    forall value :: Replaced(Escape(value), secret) == Escape(Replaced(value, secret))
  }

  lemma {:induction false} MatchOfPrint(value: string, secret: string)
    requires SelfPrinting(secret) && secret <= Escape(value)
    ensures secret <= value
  {
    if secret != "" {
      assert value != "";
      EscapesStartWithBackslash(value[0]);
      EscapesStartWithBackslash(secret[0]);
      assert Escape(value)[0] == EscapeChar(value[0])[0];
      assert EscapeChar(value[0]) == [value[0]];
      assert Escape(value)[1..] == Escape(value[1..]);
      assert forall c <- secret[1..] :: c in secret;
      MatchOfPrint(value[1..], secret[1..]);
      assert secret == [secret[0]] + secret[1..] && value == [value[0]] + value[1..];
    }
  }

  lemma {:induction false} SkipsUnmatched(before: string, after: string, secret: string, marker: string)
    requires secret != "" && forall d | 0 <= d < |before| :: !(secret <= before[d..] + after)
    ensures ReplaceAll(before + after, secret, marker) == before + ReplaceAll(after, secret, marker)
    decreases |before|
  {
    if before == "" {
      assert before + after == after;
    } else {
      assert before[0..] == before;
      assert (before + after)[1..] == before[1..] + after;
      forall d | 0 <= d < |before[1..]| ensures !(secret <= before[1..][d..] + after) {
        assert before[1..][d..] == before[d + 1..];
      }
      SkipsUnmatched(before[1..], after, secret, marker);
    }
  }

  lemma {:induction false} PrefixesCompare(a: string, b: string, prefix: string)
    requires prefix <= a + b
    ensures prefix <= a || a <= prefix
  {
    if |prefix| <= |a| {
      assert prefix == (a + b)[..|prefix|] == a[..|prefix|];
    } else {
      assert a == (a + b)[..|a|] == prefix[..|a|];
    }
  }

  lemma {:induction false} MatchMeetsEscape(c: char, after: string, secret: string, d: int)
    requires SelfPrinting(secret) && secret != ""
    requires EscapeChar(c) != [c] && 0 <= d < |EscapeChar(c)| && secret <= EscapeChar(c)[d..] + after
    ensures MeetsEscapeAt(secret, c, d)
  {
    EscapesStartWithBackslash(c);
    EscapesStartWithBackslash(secret[0]);
    assert secret[0] in secret && secret[0] == EscapeChar(c)[d];
    PrefixesCompare(EscapeChar(c)[d..], after, secret);
  }

  lemma {:induction false} UnmatchedHead(value: string, secret: string, marker: string)
    requires secret != "" && SelfPrinting(secret) && !MeetsEscape(secret)
    requires value != "" && !(secret <= value)
    ensures ReplaceAll(Escape(value), secret, marker)
         == EscapeChar(value[0]) + ReplaceAll(Escape(value[1..]), secret, marker)
    ensures Escape(ReplaceAll(value, secret, marker))
         == EscapeChar(value[0]) + Escape(ReplaceAll(value[1..], secret, marker))
  {
    var e, after := EscapeChar(value[0]), Escape(value[1..]);
    forall d | 0 <= d < |e| ensures !(secret <= e[d..] + after) {
      if e == [value[0]] {
        assert e[d..] + after == Escape(value);
        if secret <= Escape(value) { MatchOfPrint(value, secret); }
      } else if secret <= e[d..] + after {
        MatchMeetsEscape(value[0], after, secret, d);
      }
    }
    SkipsUnmatched(e, after, secret, marker);
    var replaced := ReplaceAll(value, secret, marker);
    assert replaced[0] == value[0] && replaced[1..] == ReplaceAll(value[1..], secret, marker);
  }

  lemma {:induction false} PrintOfReplaced(value: string, secret: string, marker: string)
    requires secret != "" && SelfPrinting(secret) && !MeetsEscape(secret) && Escape(marker) == marker
    ensures ReplaceAll(Escape(value), secret, marker) == Escape(ReplaceAll(value, secret, marker))
    decreases |value|
  {
    if value == "" {
    } else if secret <= value {
      var rest := value[|secret|..];
      assert value == secret + rest;
      EscapeConcatenation(secret, rest);
      SelfPrintingIff(secret);
      assert Escape(value)[|secret|..] == Escape(rest);
      PrintOfReplaced(rest, secret, marker);
      EscapeConcatenation(marker, ReplaceAll(rest, secret, marker));
    } else {
      UnmatchedHead(value, secret, marker);
      PrintOfReplaced(value[1..], secret, marker);
    }
  }

  lemma {:induction false} PlainPrintsItself(text: string)
    requires forall c <- text :: ' ' <= c <= '~' && c != '\\' && c != '"'
    ensures Escape(text) == text && '\\' !in text
  {
    forall c <- text ensures EscapeChar(c) == [c] {
      var e := Json.EscapeUnit(c as int);
      assert e == [c as int];
    }
    SelfPrintingIff(text);
  }

  lemma {:induction false} MarkerPrintsItself()
    ensures Escape(REDACTED) == REDACTED && '\\' !in REDACTED
  {
    var marker := REDACTED;
    assert forall i | 0 <= i < |marker| :: ' ' <= marker[i] <= '~' && marker[i] != '\\' && marker[i] != '"';
    PlainPrintsItself(marker);
  }

  lemma {:induction false} OccursLater(text: string, secret: string)
    requires Contains(text, secret) && !(secret <= text)
    ensures |text| >= |secret| && text != "" && Contains(text[1..], secret)
  {
    var i: nat :| OccursAt(secret, text, i);
    assert text[0..] == text;
    assert text[1..][i - 1..] == text[i..];
    assert OccursAt(secret, text[1..], i - 1);
  }

  lemma {:induction false} ReplacementIsLong(text: string, secret: string, marker: string)
    requires secret != "" && marker != "" && Contains(text, secret)
    ensures |ReplaceAll(text, secret, marker)| >= |marker|
    ensures |ReplaceAll(text, secret, marker)| == |marker| ==> text == secret
    decreases |text|
  {
    if secret <= text {
      assert text == secret + text[|secret|..];
      ReplacementIsNotEmpty(text[|secret|..], secret, marker);
    } else {
      OccursLater(text, secret);
      ReplacementIsLong(text[1..], secret, marker);
    }
  }

  lemma {:induction false} ReplacementIsNotEmpty(text: string, secret: string, marker: string)
    requires secret != "" && marker != ""
    ensures text != "" ==> ReplaceAll(text, secret, marker) != ""
  {
  }

  lemma {:induction false} OnlyTheSecretBecomesTheMarker(text: string, secret: string, marker: string)
    requires secret != "" && marker != "" && text != secret && text != marker
    ensures ReplaceAll(text, secret, marker) != marker
  {
    if Contains(text, secret) {
      ReplacementIsLong(text, secret, marker);
    } else {
      NothingToReplace(text, secret, marker);
    }
  }

  /** The value that is an escaped secret becomes the marker; its print does not. */
  lemma {:induction false} EscapedSecretIsNotJustTheMarker(secret: string, marker: string)
    requires secret != "" && !SelfPrinting(secret) && marker != "" && '\\' !in marker
    ensures ReplaceAll(secret, secret, marker) == marker && ReplaceAll(Escape(secret), secret, marker) != marker
  {
    SelfPrintingIff(secret);
    assert secret[|secret|..] == "";
    OnlyTheSecretBecomesTheMarker(Escape(secret), secret, marker);
  }

  lemma {:induction false} ReplacingChanges(text: string, secret: string, marker: string)
    requires secret != "" && marker != "" && secret[0] != marker[0] && Contains(text, secret)
    ensures ReplaceAll(text, secret, marker) != text
    decreases |text|
  {
    if secret <= text {
      assert ReplaceAll(text, secret, marker)[0] == marker[0];
    } else {
      OccursLater(text, secret);
      ReplacingChanges(text[1..], secret, marker);
      assert ReplaceAll(text, secret, marker)[1..] == ReplaceAll(text[1..], secret, marker);
    }
  }

  /** What the secret holds beyond its first `met` characters. */
  function Beyond(secret: string, met: nat): string { if met <= |secret| then secret[met..] else "" }

  /** The escaped character, then what the secret holds beyond the escape. */
  function MeetingValue(secret: string, c: char, d: int): string
    requires 0 < d < |EscapeChar(c)|
  {
    [c] + Beyond(secret, |EscapeChar(c)| - d)
  }

  lemma {:induction false} OverlapCompletes(e: string, secret: string, d: int)
    requires secret != "" && 0 < d < |e| && (e[d..] <= secret || secret <= e[d..])
    ensures OccursAt(secret, e + Beyond(secret, |e| - d), d) && secret[0] == e[d]
  {
    var rest := Beyond(secret, |e| - d);
    assert (e + rest)[d..] == e[d..] + rest;
    if e[d..] <= secret { assert e[d..] + rest == secret; }
  }

  lemma {:induction false} MeetingPrint(secret: string, c: char, d: int)
    requires secret != "" && SelfPrinting(secret) && MeetsEscapeAt(secret, c, d)
    ensures Escape(MeetingValue(secret, c, d)) == EscapeChar(c) + Beyond(secret, |EscapeChar(c)| - d)
  {
    var value, rest := MeetingValue(secret, c, d), Beyond(secret, |EscapeChar(c)| - d);
    assert value[0] == c && value[1..] == rest;
    assert forall x <- rest :: x in secret;
    SelfPrintingIff(rest);
  }

  lemma {:induction false} MeetingValueIsKept(secret: string, c: char, d: int, marker: string)
    requires secret != "" && SelfPrinting(secret) && MeetsEscapeAt(secret, c, d)
    ensures ReplaceAll(MeetingValue(secret, c, d), secret, marker) == MeetingValue(secret, c, d)
  {
    var value := MeetingValue(secret, c, d);
    assert value[0] == c && secret[0] in secret && secret[0] != c;
    assert |value| <= |secret|;
    assert ReplaceAll(value[1..], secret, marker) == value[1..];
  }

  /** A secret that meets an escape is replaced inside it: the backslash is left before the marker. */
  lemma {:induction false} MeetingSecretIsReplaced(secret: string, c: char, d: int, marker: string)
    requires secret != "" && SelfPrinting(secret) && MeetsEscapeAt(secret, c, d)
    requires marker != "" && marker[0] == '['
    ensures var value := MeetingValue(secret, c, d);
            ReplaceAll(Escape(value), secret, marker) != Escape(ReplaceAll(value, secret, marker))
  {
    var printed := Escape(MeetingValue(secret, c, d));
    EscapesStartWithBackslash(c);
    MeetingPrint(secret, c, d);
    OverlapCompletes(EscapeChar(c), secret, d);
    assert OccursAt(secret, printed, d);
    ReplacingChanges(printed, secret, marker);
    MeetingValueIsKept(secret, c, d, marker);
  }

  /** Exactly the secrets for which redacting the print of a string value is printing the redacted value. */
  lemma {:induction false} CommutesIff(secret: string)
    requires secret != ""
    ensures Commutes(secret) <==> SelfPrinting(secret) && !MeetsEscape(secret)
  {
    if !SelfPrinting(secret) {
      MarkerPrintsItself();
      EscapedSecretIsNotJustTheMarker(secret, REDACTED);
      assert Replaced(Escape(secret), secret) != Escape(Replaced(secret, secret));
    } else if MeetsEscape(secret) {
      var c, d :| MeetsEscapeAt(secret, c, d);
      var value := MeetingValue(secret, c, d);
      MeetingSecretIsReplaced(secret, c, d, REDACTED);
      assert Replaced(Escape(value), secret) != Escape(Replaced(value, secret));
    } else {
      MarkerPrintsItself();
      forall value ensures Replaced(Escape(value), secret) == Escape(Replaced(value, secret)) {
        PrintOfReplaced(value, secret, REDACTED);
      }
    }
  }

  lemma {:induction false} PrintHasNoControls(value: string, i: nat)
    requires i < |Escape(value)|
    ensures Escape(value)[i] >= ' '
  {
    var e := EscapeChar(value[0]);
    if i < |e| {
      EscapedHasNoControls(value[0], i);
    } else {
      PrintHasNoControls(value[1..], i - |e|);
    }
  }

  lemma {:induction false} EscapedHasNoControls(c: char, i: nat)
    requires i < |EscapeChar(c)|
    ensures EscapeChar(c)[i] >= ' '
  {
    if c as int < 0x10000 {
      var e := Json.EscapeUnit(c as int);
      assert e[i] >= 32;
    }
  }

  /** A secret with a control character is never found in a print, so whatever holds it keeps it. */
  lemma {:induction false} ControlSecretsSurvive(value: string, secret: string, i: nat)
    requires i < |secret| && secret[i] < ' '
    ensures Replaced(Escape(value), secret) == Escape(value)
  {
    var text := Escape(value);
    forall at: nat ensures !OccursAt(secret, text, at) {
      if OccursAt(secret, text, at) {
        assert text[at + i] == text[at..][i] == secret[i];
        PrintHasNoControls(value, at + i);
      }
    }
    NothingToReplace(text, secret, REDACTED);
  }

  const ESCAPE_LETTERS := "0123456789abcdefnrtu"

  lemma {:induction false} EscapesUseTheseLetters(c: char, d: int)
    requires EscapeChar(c) != [c] && 0 < d < |EscapeChar(c)|
    ensures EscapeChar(c)[d] in ESCAPE_LETTERS || EscapeChar(EscapeChar(c)[d]) != [EscapeChar(c)[d]]
  {
    var u: Json.Unit := c as int;
    var e := Json.EscapeUnit(u);
    assert !Json.Surrogate(u);
    if e[d] == u {
      assert EscapeChar(c)[d] == c;
    } else {
      HexDigitsAreLetters(e[d]);
      assert EscapeChar(c)[d] == e[d] as char;
    }
  }

  lemma {:induction false} HexDigitsAreLetters(u: Json.Unit)
    requires 48 <= u < 58 || 97 <= u < 103 || u == 110 || u == 114 || u == 116 || u == 117
    ensures u as char in ESCAPE_LETTERS
  {
    var letters := ESCAPE_LETTERS;
    var at := if u < 58 then u - 48 else if u < 103 then u - 87 else if u == 110 then 16
              else if u == 114 then 17 else if u == 116 then 18 else 19;
    assert letters[at] == u as char;
  }

  lemma {:induction false} MeetingStartsWithLetter(secret: string, c: char, d: int)
    requires secret != "" && SelfPrinting(secret) && MeetsEscapeAt(secret, c, d)
    ensures secret[0] in ESCAPE_LETTERS
  {
    EscapesUseTheseLetters(c, d);
    assert secret[0] in secret && secret[0] == EscapeChar(c)[d];
  }

  /** The simple hypothesis: nothing to escape, and a first character no escape sequence uses. */
  lemma {:induction false} PlainSecretsCommute(secret: string)
    requires secret != "" && SelfPrinting(secret) && secret[0] !in ESCAPE_LETTERS
    ensures Commutes(secret)
  {
    if MeetsEscape(secret) {
      var c, d :| MeetsEscapeAt(secret, c, d);
      MeetingStartsWithLetter(secret, c, d);
    }
    CommutesIff(secret);
  }

  /** No string literal goes on with a backslash and then an opening bracket. */
  lemma {:induction false} BackslashBeforeMarkerIsUnreadable(text: seq<Json.Unit>)
    requires |text| >= 2 && text[0] == Json.BACKSLASH && text[1] == 91
    ensures Json.ReadString(text) == None
  {
    assert Json.LongForm(91) == None;
    assert Json.ReadUnit(text) == None;
  }

  lemma {:induction false} SecretAtTheEnd(before: char, secret: string, marker: string)
    requires |secret| == 1 && before != secret[0]
    ensures ReplaceAll([before] + secret, secret, marker) == [before] + marker
  {
    var text := [before] + secret;
    assert text[1..] == secret && secret[1..] == "" && text[0] != secret[0];
    assert ReplaceAll("", secret, marker) == "" && ReplaceAll(secret, secret, marker) == marker + "";
  }

  lemma {:induction false} LineFeedPrintsAsLetter()
    ensures Escape("\n") == ['\\'] + "n"
  {
    assert Json.EscapeUnit(10) == [92, 110];
    assert EscapeChar('\n') == ['\\', 'n'];
    assert "\n"[1..] == "";
  }

  /** The text can stop being JSON: the secret `n` takes the letter of an escaped line feed and leaves its backslash. */
  lemma {:induction false} OneLetterBreaksTheText(rest: string)
    ensures Replaced(Escape("\n"), "n") == ['\\'] + REDACTED
    ensures Json.ReadString(Json.Units(['\\'] + REDACTED + rest)) == None
  {
    LineFeedPrintsAsLetter();
    SecretAtTheEnd('\\', "n", REDACTED);
    var text := ['\\'] + REDACTED + rest;
    assert text[0] == '\\' && text[1] == '[';
    BackslashBeforeMarkerIsUnreadable(Json.Units(text));
  }

  // ---------------------------------------------------------------- whole JSON texts

  /** Any JSON text: what stands outside the string literals, and the strings of the literals, keys and values alike. */
  datatype Structure = End(syntax: string) | Next(syntax: string, value: string, rest: Structure)

  function Print(t: Structure): string {
    match t
    case End(syntax) => syntax
    case Next(syntax, value, rest) => syntax + "\"" + (Escape(value) + "\"" + Print(rest))
  }

  function RedactValues(t: Structure, secrets: seq<string>): Structure
    requires "" !in secrets
  {
    match t
    case End(_) => t
    case Next(syntax, value, rest) => Next(syntax, RedactAll(value, secrets), RedactValues(rest, secrets))
  }

  ghost predicate InSyntax(t: Structure, secret: string) {
    Contains(t.syntax, secret) || (t.Next? && InSyntax(t.rest, secret))
  }

  ghost predicate InValues(t: Structure, secret: string) {
    t.Next? && (Contains(t.value, secret) || InValues(t.rest, secret))
  }

  lemma {:induction false} MatchBeforeQuote(a: string, b: string, secret: string)
    requires '"' !in secret
    ensures secret <= a + "\"" + b <==> secret <= a
  {
    var text := a + "\"" + b;
    if secret <= text {
      assert text[|a|] == '"' && forall i | 0 <= i < |secret| :: text[i] == secret[i] && secret[i] in secret;
      assert secret == text[..|secret|] == a[..|secret|];
    }
  }

  /** A secret without a quote is replaced on both sides of a quote separately. */
  lemma {:induction false} QuoteSplitsReplacement(a: string, b: string, secret: string, marker: string)
    requires secret != "" && '"' !in secret
    ensures ReplaceAll(a + "\"" + b, secret, marker) == ReplaceAll(a, secret, marker) + "\"" + ReplaceAll(b, secret, marker)
    decreases |a|
  {
    var text := a + "\"" + b;
    MatchBeforeQuote(a, b, secret);
    if a == "" {
      assert text == "\"" + b && text[1..] == b;
    } else if secret <= a {
      assert text[|secret|..] == a[|secret|..] + "\"" + b;
      QuoteSplitsReplacement(a[|secret|..], b, secret, marker);
    } else {
      assert text[1..] == a[1..] + "\"" + b;
      QuoteSplitsReplacement(a[1..], b, secret, marker);
    }
  }

  lemma {:induction false} OneSecret(t: Structure, secret: string)
    requires secret != "" && Commutes(secret) && !InSyntax(t, secret)
    ensures Replaced(Print(t), secret) == Print(RedactValues(t, [secret]))
    decreases t
  {
    NothingToReplace(t.syntax, secret, REDACTED);
    match t
    case End(_) =>
    case Next(syntax, value, rest) =>
      QuotesAreEscaped(secret);
      QuoteSplitsReplacement(syntax, Escape(value) + "\"" + Print(rest), secret, REDACTED);
      QuoteSplitsReplacement(Escape(value), Print(rest), secret, REDACTED);
      OneSecret(rest, secret);
      RedactOne(value, secret);
  }

  lemma {:induction false} QuotesAreEscaped(secret: string)
    requires secret != "" && Commutes(secret)
    ensures '"' !in secret
  {
    CommutesIff(secret);
    EscapesStartWithBackslash('"');
  }

  lemma {:induction false} RedactOne(value: string, secret: string)
    requires secret != ""
    ensures RedactAll(value, [secret]) == Replaced(value, secret)
  {
    assert [secret][1..] == [] && RedactAll(Replaced(value, secret), []) == Replaced(value, secret);
  }

  lemma {:induction false} RedactValuesInTurn(t: Structure, secrets: seq<string>)
    requires secrets != [] && "" !in secrets
    ensures secrets[0] in secrets
    ensures RedactValues(t, secrets) == RedactValues(RedactValues(t, [secrets[0]]), secrets[1..])
    decreases t
  {
    assert secrets[0] in secrets;
    if t.Next? {
      RedactOne(t.value, secrets[0]);
      RedactValuesInTurn(t.rest, secrets);
    }
  }

  lemma {:induction false} SyntaxIsKept(t: Structure, secrets: seq<string>, secret: string)
    requires "" !in secrets
    ensures InSyntax(RedactValues(t, secrets), secret) <==> InSyntax(t, secret)
    decreases t
  {
    if t.Next? { SyntaxIsKept(t.rest, secrets, secret); }
  }

  lemma {:induction false} NothingRegistered(t: Structure)
    ensures RedactValues(t, []) == t
    decreases t
  {
    if t.Next? { NothingRegistered(t.rest); }
  }

  /**
   The redacted text is the print of the same structure with every string
   redacted, so it stays parseable, when each secret commutes with printing and
   none stands in the syntax between the literals.
   */
  lemma {:induction false} StructureIsKept(t: Structure, secrets: seq<string>)
    requires "" !in secrets
    requires forall secret <- secrets :: secret != "" && Commutes(secret) && !InSyntax(t, secret)
    ensures RedactAll(Print(t), secrets) == Print(RedactValues(t, secrets))
    decreases |secrets|
  {
    if secrets == [] {
      NothingRegistered(t);
    } else {
      assert secrets[0] in secrets;
      OneSecret(t, secrets[0]);
      var next := RedactValues(t, [secrets[0]]);
      forall secret <- secrets[1..] ensures secret != "" && Commutes(secret) && !InSyntax(next, secret) {
        assert secret in secrets;
        SyntaxIsKept(t, [secrets[0]], secret);
      }
      StructureIsKept(next, secrets[1..]);
      RedactValuesInTurn(t, secrets);
    }
  }

  /** And no string of it contains a secret that cannot be laid over the marker. */
  lemma {:induction false} ValuesAreClean(t: Structure, secrets: seq<string>, secret: string)
    requires "" !in secrets && secret in secrets && !OverlapsMarker(secret)
    ensures !InValues(RedactValues(t, secrets), secret)
    decreases t
  {
    if t.Next? {
      NothingComesBack(t.value, secrets, secret);
      ValuesAreClean(t.rest, secrets, secret);
    }
  }
}
