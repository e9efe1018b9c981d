/** Literal secret replacement: every registered value becomes the marker, one secret after another. */
module Redact {
  import opened Wrappers
  import opened Strings

  const REDACTED := "[redacted]"

  function RedactAll(text: string, secrets: seq<string>): string
    requires "" !in secrets
    decreases |secrets|
  {
    if secrets == [] then text
    else
      assert secrets[0] in secrets;
      RedactAll(ReplaceAll(text, secrets[0], REDACTED), secrets[1..])
  }

  function Registered(values: seq<Option<string>>): (r: seq<string>)
    ensures "" !in r
    ensures forall secret :: secret in r <==> Some(secret) in values && secret != ""
  {
    if values == [] then []
    else
      (match values[0]
       case Some(secret) => if secret == "" then [] else [secret]
       case None => [])
      + Registered(values[1..])
  }

  /** The module state and the loop over it. */
  class SecretValues {
    var configuredSecrets: seq<string>

    ghost predicate Valid()
      reads this
    {
      "" !in configuredSecrets
    }

    constructor ()
      ensures Valid() && configuredSecrets == []
    {
      configuredSecrets := [];
    }

    method RegisterSecretValues(values: seq<Option<string>>)
      modifies this
      ensures Valid() && configuredSecrets == Registered(values)
    {
      configuredSecrets := Registered(values);
    }

    method ClearSecretValues()
      modifies this
      ensures Valid() && configuredSecrets == []
    {
      configuredSecrets := [];
    }

    method RedactConfiguredValues(text: string) returns (result: string)
      requires Valid()
      ensures result == RedactAll(text, configuredSecrets)
    {
      result := text;
      for i := 0 to |configuredSecrets|
        invariant RedactAll(result, configuredSecrets[i..]) == RedactAll(text, configuredSecrets)
      {
        var secret := configuredSecrets[i];
        assert secret in configuredSecrets && configuredSecrets[i..][1..] == configuredSecrets[i + 1..];
        SplitThenJoinReplaces(result, secret, REDACTED);
        result := Join(Split(result, secret), REDACTED);
      }
    }
  }

  // ---------------------------------------------------------------- when a secret can survive

  /** Laid over the marker with its start at position `d`, the secret meets it and agrees wherever they meet. */
  ghost predicate MeetsAt(secret: string, d: int) {
    && -|secret| < d < |REDACTED|
    && forall i :: 0 <= i < |secret| && 0 <= d + i < |REDACTED| ==> secret[i] == REDACTED[d + i]
  }

  ghost predicate OverlapsMarker(secret: string) { exists d :: MeetsAt(secret, d) }

  /** What an output starts with is either untouched text or runs into a marker. */
  lemma {:induction false} PrefixIsOldOrMeetsMarker(text: string, target: string, secret: string, j: int)
    requires target != "" && 0 <= j <= |secret|
    requires secret[j..] <= ReplaceAll(text, target, REDACTED)
    ensures secret[j..] <= text || OverlapsMarker(secret)
    decreases |text|
  {
    var output := ReplaceAll(text, target, REDACTED);
    if |text| < |target| || j == |secret| {
    } else if target <= text {
      forall i | 0 <= i < |secret| && 0 <= -j + i < |REDACTED|
        ensures secret[i] == REDACTED[-j + i]
      {
        assert secret[j..][i - j] == output[i - j];
      }
      assert MeetsAt(secret, -j);
    } else {
      assert secret[j..][0] == output[0];
      assert secret[j + 1..] == secret[j..][1..] && output[1..] == ReplaceAll(text[1..], target, REDACTED);
      PrefixIsOldOrMeetsMarker(text[1..], target, secret, j + 1);
      if secret[j + 1..] <= text[1..] {
        assert secret[j..] == [text[0]] + secret[j + 1..];
        assert text == [text[0]] + text[1..];
      }
    }
  }

  lemma {:induction false} OccurrenceInMarker(secret: string, rest: string, i: nat)
    requires i < |REDACTED| && secret != "" && OccursAt(secret, REDACTED + rest, i)
    ensures OverlapsMarker(secret)
  {
    var text := REDACTED + rest;
    forall k | 0 <= k < |secret| && 0 <= i + k < |REDACTED|
      ensures secret[k] == REDACTED[i + k]
    {
      assert text[i..][k] == text[i + k];
    }
    assert MeetsAt(secret, i);
  }

  /** A replacement neither leaves its own secret nor creates another, unless that secret overlaps the marker. */
  lemma {:induction false} ReplacementCreatesNothing(text: string, target: string, secret: string, i: nat)
    requires target != "" && secret != ""
    requires OccursAt(secret, ReplaceAll(text, target, REDACTED), i)
    ensures OverlapsMarker(secret) || (secret != target && Contains(text, secret))
    decreases |text|
  {
    var output := ReplaceAll(text, target, REDACTED);
    if |text| < |target| {
      assert OccursAt(secret, text, i);
    } else if target <= text {
      var after := text[|target|..];
      if i < |REDACTED| {
        OccurrenceInMarker(secret, ReplaceAll(after, target, REDACTED), i);
      } else {
        assert output[i..] == ReplaceAll(after, target, REDACTED)[i - |REDACTED|..];
        ReplacementCreatesNothing(after, target, secret, i - |REDACTED|);
        ContainsInTail(text, |target|, secret);
      }
    } else if i == 0 {
      assert output[0..] == output && secret[0..] == secret;
      PrefixIsOldOrMeetsMarker(text, target, secret, 0);
      assert text[0..] == text;
      assert secret <= text ==> OccursAt(secret, text, 0);
    } else {
      assert output[i..] == ReplaceAll(text[1..], target, REDACTED)[i - 1..];
      ReplacementCreatesNothing(text[1..], target, secret, i - 1);
      ContainsInTail(text, 1, secret);
    }
  }

  lemma {:induction false} NothingComesBack(text: string, secrets: seq<string>, secret: string)
    requires "" !in secrets && secret != "" && !OverlapsMarker(secret)
    requires secret in secrets || !Contains(text, secret)
    ensures !Contains(RedactAll(text, secrets), secret)
    decreases |secrets|
  {
    if secrets != [] {
      assert secrets[0] in secrets;
      var next := ReplaceAll(text, secrets[0], REDACTED);
      if Contains(next, secret) {
        var i: nat :| OccursAt(secret, next, i);
        ReplacementCreatesNothing(text, secrets[0], secret, i);
      }
      NothingComesBack(next, secrets[1..], secret);
    }
  }

  // ---------------------------------------------------------------- completeness

  /** No output contains `secret`, whatever the text and whatever else is registered. */
  ghost predicate AlwaysRemoved(secret: string) {
    forall text, secrets :: "" !in secrets && secret in secrets ==> !Contains(RedactAll(text, secrets), secret)
  }

  /** Redaction of a secret is complete exactly when the secret cannot be laid over the marker. */
  lemma {:induction false} CompleteIffNoOverlap(secret: string)
    requires secret != ""
    ensures AlwaysRemoved(secret) <==> !OverlapsMarker(secret)
  {
    if OverlapsMarker(secret) {
      var text, secrets := OverlapSurvives(secret);
      assert Contains(RedactAll(text, secrets), secret);
    } else {
      forall text, secrets | "" !in secrets && secret in secrets
        ensures !Contains(RedactAll(text, secrets), secret)
      {
        NothingComesBack(text, secrets, secret);
      }
    }
  }

  lemma {:induction false} OverlapsAreBracketsOrParts(secret: string, d: int)
    requires secret != "" && MeetsAt(secret, d)
    ensures '[' in secret || ']' in secret || Contains("redacted", secret)
  {
    if d <= 0 < d + |secret| {
      assert secret[-d] == '[';
    } else if d <= 9 < d + |secret| {
      assert secret[9 - d] == ']';
    } else {
      var word := "redacted";
      assert forall k :: 0 <= k < 8 ==> word[k] == REDACTED[k + 1];
      forall k | 0 <= k < |secret| ensures secret[k] == word[d - 1..][k] { assert secret[k] == REDACTED[d + k]; }
      assert OccursAt(secret, word, d - 1);
    }
  }

  /** The simple hypothesis: no bracket in the secret, and the secret not a part of the word between them. */
  lemma {:induction false} PlainSecretsAreRemoved(secret: string)
    requires secret != "" && '[' !in secret && ']' !in secret && !Contains("redacted", secret)
    ensures AlwaysRemoved(secret)
  {
    if OverlapsMarker(secret) {
      var d :| MeetsAt(secret, d);
      OverlapsAreBracketsOrParts(secret, d);
    }
    CompleteIffNoOverlap(secret);
  }

  /** Every registered value is removed, and redacting again changes nothing. */
  lemma {:induction false} RedactionIsComplete(text: string, values: seq<Option<string>>)
    requires forall secret <- Registered(values) :: !OverlapsMarker(secret)
    ensures var output := RedactAll(text, Registered(values));
            && (forall secret <- Registered(values) :: !Contains(output, secret))
            && RedactAll(output, Registered(values)) == output
  {
    var secrets := Registered(values);
    forall secret <- secrets ensures !Contains(RedactAll(text, secrets), secret) {
      NothingComesBack(text, secrets, secret);
    }
    NothingToRedact(RedactAll(text, secrets), secrets);
  }

  lemma {:induction false} NothingToRedact(text: string, secrets: seq<string>)
    requires "" !in secrets && forall secret <- secrets :: !Contains(text, secret)
    ensures RedactAll(text, secrets) == text
    decreases |secrets|
  {
    if secrets != [] {
      assert secrets[0] in secrets;
      NothingToReplace(text, secrets[0], REDACTED);
      forall secret <- secrets[1..] ensures !Contains(text, secret) { assert secret in secrets; }
      NothingToRedact(text, secrets[1..]);
    }
  }

  // ---------------------------------------------------------------- why the condition is needed

  function Repeat(c: char, n: nat): (r: string)
    ensures |r| == n && forall i :: 0 <= i < n ==> r[i] == c
  {
    seq(n, _ => c)
  }

  /**
   A secret that overlaps the marker survives: a second secret, a run of one
   character, is replaced between the secret's two outer pieces and the marker
   completes it.
   */
  lemma {:induction false} OverlapSurvives(secret: string) returns (text: string, secrets: seq<string>)
    requires secret != "" && OverlapsMarker(secret)
    ensures "" !in secrets && secret in secrets && Contains(RedactAll(text, secrets), secret)
  {
    var d :| MeetsAt(secret, d);
    var x := if d < 0 then secret[..-d] else "";
    var y := if d + |secret| > |REDACTED| then secret[|REDACTED| - d..] else "";
    var last := if x == "" then 'a' else x[|x| - 1];
    var c :| c in {'b', 'c', 'd', 'e'} && c != secret[0] && c != secret[|secret| - 1] && c != last;
    var run := Repeat(c, |secret|);
    text, secrets := x + run + y, [secret, run];
    RunHidesNothing(secret, x, y, c);
    NothingToReplace(text, secret, REDACTED);
    RunIsReplaced(x, y, c, |secret|);
    MarkerCompletes(secret, d, x, y);
    var output := x + REDACTED + y;
    assert secrets[1..] == [run] && [run][1..] == [];
    assert RedactAll(output, []) == output && RedactAll(text, [run]) == output;
  }

  lemma {:induction false} MarkerCompletes(secret: string, d: int, x: string, y: string)
    requires secret != "" && MeetsAt(secret, d)
    requires x == if d < 0 then secret[..-d] else ""
    requires y == if d + |secret| > |REDACTED| then secret[|REDACTED| - d..] else ""
    ensures Contains(x + REDACTED + y, secret)
  {
    var output := x + REDACTED + y;
    var at := if d < 0 then 0 else d;
    forall k | 0 <= k < |secret| ensures at + k < |output| && secret[k] == output[at + k] {
      if d + k < 0 {
        assert output[k] == x[k];
      } else if d + k < |REDACTED| {
        assert output[at + k] == REDACTED[d + k];
      } else {
        assert output[at + k] == y[d + k - |REDACTED|];
      }
    }
    assert OccursAt(secret, output, at);
  }

  lemma {:induction false} OccurrenceMeetsRun(secret: string, x: string, y: string, c: char, i: nat)
    requires |x| < |secret| && |y| < |secret| && OccursAt(secret, x + Repeat(c, |secret|) + y, i)
    ensures secret[0] == c || secret[|secret| - 1] == c
  {
    var text := x + Repeat(c, |secret|) + y;
    assert text[i] == text[i..][0] == secret[0];
    assert text[i + |secret| - 1] == text[i..][|secret| - 1] == secret[|secret| - 1];
  }

  lemma {:induction false} RunHidesNothing(secret: string, x: string, y: string, c: char)
    requires |x| < |secret| && |y| < |secret| && c != secret[0] && c != secret[|secret| - 1]
    ensures !Contains(x + Repeat(c, |secret|) + y, secret)
  {
    forall i: nat ensures !OccursAt(secret, x + Repeat(c, |secret|) + y, i) {
      if OccursAt(secret, x + Repeat(c, |secret|) + y, i) {
        OccurrenceMeetsRun(secret, x, y, c, i);
      }
    }
  }

  lemma {:induction false} RunStartsLater(x: string, y: string, c: char, n: nat)
    requires 0 < |x| < n && x[|x| - 1] != c
    ensures !(Repeat(c, n) <= x + Repeat(c, n) + y)
  {
    assert (x + Repeat(c, n) + y)[|x| - 1] == x[|x| - 1] && Repeat(c, n)[|x| - 1] == c;
  }

  lemma {:induction false} FirstOfThree(x: string, middle: string, y: string)
    requires x != ""
    ensures (x + middle + y)[1..] == x[1..] + middle + y && x + middle + y == [x[0]] + (x[1..] + middle + y)
  {
  }

  lemma {:induction false} RunIsReplaced(x: string, y: string, c: char, n: nat)
    requires |x| < n && |y| < n && (x != "" ==> x[|x| - 1] != c)
    ensures ReplaceAll(x + Repeat(c, n) + y, Repeat(c, n), REDACTED) == x + REDACTED + y
    decreases |x|
  {
    var run := Repeat(c, n);
    var text := x + run + y;
    if x == "" {
      assert text == run + y && text[n..] == y;
    } else {
      RunStartsLater(x, y, c, n);
      FirstOfThree(x, run, y);
      FirstOfThree(x, REDACTED, y);
      RunIsReplaced(x[1..], y, c, n);
    }
  }

  /** Each part of the simple hypothesis is needed: one secret alone survives its own redaction. */
  lemma {:induction false} EachHypothesisIsNeeded()
    ensures Contains(RedactAll("red", ["red"]), "red")
    ensures Contains(RedactAll("]xx", ["]x"]), "]x")
    ensures Contains(RedactAll("xx[", ["x["]), "x[")
  {
    SurvivesAlone("red", "", 1);
    SurvivesAlone("]x", "x", 9);
    assert "]x" + "x" == "]xx";
    assert "xx["[1..] == "x[" && "x["[2..] == "" && "xx["[1] != "x["[1];
    assert ReplaceAll("", "x[", REDACTED) == "" && ReplaceAll("x[", "x[", REDACTED) == REDACTED + "";
    var output := ReplaceAll("xx[", "x[", REDACTED);
    assert output == "x" + REDACTED;
    assert ["x["][1..] == [] && RedactAll("xx[", ["x["]) == output;
    assert OccursAt("x[", output, 0);
  }

  lemma {:induction false} SurvivesAlone(secret: string, y: string, at: nat)
    requires secret != "" && |y| < |secret| && OccursAt(secret, REDACTED + y, at)
    ensures Contains(RedactAll(secret + y, [secret]), secret)
  {
    var text := secret + y;
    assert text[|secret|..] == y && ReplaceAll(y, secret, REDACTED) == y;
    assert ReplaceAll(text, secret, REDACTED) == REDACTED + y;
    assert [secret][1..] == [] && RedactAll(text, [secret]) == REDACTED + y;
  }
}
