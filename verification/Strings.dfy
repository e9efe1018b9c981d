/** `split`, `join` and replace-all, as JavaScript defines them for a non-empty separator. */
module Strings {
  /** `part` stands at position `i` of `text`. */
  predicate OccursAt(part: string, text: string, i: nat) { i <= |text| && part <= text[i..] }

  ghost predicate Contains(text: string, part: string) { exists i: nat :: OccursAt(part, text, i) }

  function Split(text: string, separator: string): (r: seq<string>)
    requires separator != ""
    ensures r != []
    decreases |text|
  {
    if |text| < |separator| then [text]
    else if separator <= text then [""] + Split(text[|separator|..], separator)
    else
      var rest := Split(text[1..], separator);
      [[text[0]] + rest[0]] + rest[1..]
  }

  function Join(parts: seq<string>, glue: string): string {
    if parts == [] then ""
    else if |parts| == 1 then parts[0]
    else parts[0] + glue + Join(parts[1..], glue)
  }

  /** Every occurrence of `target`, left to right and without overlap, becomes `marker`. */
  function ReplaceAll(text: string, target: string, marker: string): string
    requires target != ""
    decreases |text|
  {
    if |text| < |target| then text
    else if target <= text then marker + ReplaceAll(text[|target|..], target, marker)
    else [text[0]] + ReplaceAll(text[1..], target, marker)
  }

  lemma {:induction false} ContainsInTail(text: string, n: nat, part: string)
    requires n <= |text|
    ensures Contains(text[n..], part) ==> Contains(text, part)
  {
    if Contains(text[n..], part) {
      var i: nat :| OccursAt(part, text[n..], i);
      assert text[n..][i..] == text[n + i..];
      assert OccursAt(part, text, n + i);
    }
  }

  lemma {:induction false} NothingToReplace(text: string, target: string, marker: string)
    requires target != "" && !Contains(text, target)
    ensures ReplaceAll(text, target, marker) == text
    decreases |text|
  {
    if |text| >= |target| {
      assert text[0..] == text;
      assert !OccursAt(target, text, 0);
      ContainsInTail(text, 1, target);
      NothingToReplace(text[1..], target, marker);
    }
  }

  lemma {:induction false} SplitThenJoinReplaces(text: string, target: string, marker: string)
    requires target != ""
    ensures Join(Split(text, target), marker) == ReplaceAll(text, target, marker)
    decreases |text|
  {
    if |text| < |target| {
    } else if target <= text {
      SplitThenJoinReplaces(text[|target|..], target, marker);
      var rest := Split(text[|target|..], target);
      assert ([""] + rest)[1..] == rest;
      assert "" + marker == marker;
    } else {
      SplitThenJoinReplaces(text[1..], target, marker);
      JoinPrepend(text[0], Split(text[1..], target), marker);
    }
  }

  lemma {:induction false} JoinPrepend(c: char, parts: seq<string>, glue: string)
    requires parts != []
    ensures Join([[c] + parts[0]] + parts[1..], glue) == [c] + Join(parts, glue)
  {
    var longer := [[c] + parts[0]] + parts[1..];
    if |parts| > 1 {
      assert longer[1..] == parts[1..];
      assert ([c] + parts[0]) + glue + Join(parts[1..], glue) == [c] + (parts[0] + glue + Join(parts[1..], glue));
    }
  }

  lemma {:induction false} Reassociate(a: string, b: string, c: string)
    ensures a + b + c == a + (b + c)
  {
  }

  /** Splitting a join gives the parts back when no part contains the one-character separator. */
  lemma {:induction false} SplitUndoesJoin(parts: seq<string>, c: char)
    requires parts != []
    requires forall part <- parts :: c !in part
    ensures Split(Join(parts, [c]), [c]) == parts
    decreases |parts|
  {
    assert parts[0] in parts;
    if |parts| == 1 {
      SplitWithoutSeparator(parts[0], c);
      assert parts == [parts[0]];
    } else {
      forall part <- parts[1..] ensures c !in part { assert part in parts; }
      SplitUndoesJoin(parts[1..], c);
      SplitAfterPart(parts[0], c, Join(parts[1..], [c]));
      assert parts == [parts[0]] + parts[1..];
      Reassociate(parts[0], [c], Join(parts[1..], [c]));
    }
  }

  lemma {:induction false} SplitWithoutSeparator(text: string, c: char)
    requires c !in text
    ensures Split(text, [c]) == [text]
    decreases |text|
  {
    if text != "" {
      assert text[0] in text && [c][0] == c;
      SplitWithoutSeparator(text[1..], c);
      assert text == [text[0]] + text[1..];
    }
  }

  lemma {:induction false} SplitAfterPart(part: string, c: char, rest: string)
    requires c !in part
    ensures Split(part + ([c] + rest), [c]) == [part] + Split(rest, [c])
    decreases |part|
  {
    var text := part + ([c] + rest);
    if part == "" {
      assert text == [c] + rest && text[1..] == rest;
    } else {
      assert part[0] in part && text[0] == part[0] && text[1..] == part[1..] + ([c] + rest);
      assert [c][0] == c;
      SplitAfterPart(part[1..], c, rest);
      var tail := Split(text[1..], [c]);
      assert tail[0] == part[1..] && tail[1..] == Split(rest, [c]);
      assert part == [part[0]] + part[1..];
    }
  }
}
