/** Capping serialized JSON at the rendering limit, over UTF-16 code units. */
module TruncateOutput {
  import opened Wrappers
  import opened Json
  import Decimal

  const MAX_OUTPUT_CHARS := 30_000
  const TRUNCATED_HEAD_CHARS := 20_000
  const MIN_HEAD_CHARS := 1_000
  const TRUNCATION_HINT := Units("Narrow the selection, add filters, or page the data to fit under the output cap.")

  /** No ECMAScript string is longer. */
  const MAX_STRING := 9_007_199_254_740_991

  function Head(serialized: seq<Unit>, headLength: nat): seq<Unit> {
    if headLength <= |serialized| then serialized[..headLength] else serialized
  }

  function Envelope(serialized: seq<Unit>, headLength: nat): (r: seq<Member>)
    ensures |r| == 4 && r[1].value.Int? && r[3].value.Text?
    ensures r[3].value.text <= serialized && r[1].value.number + |r[3].value.text| == |serialized|
  {
    var head := Head(serialized, headLength);
    [Member(Units("truncated"), Bool(true)),
     Member(Units("dropped_chars"), Int(|serialized| - |head|)),
     Member(Units("hint"), Text(TRUNCATION_HINT)),
     Member(Units("partial_json_head"), Text(head))]
  }

  /** The value a client reads under a name. */
  function ValueOf(members: seq<Member>, key: seq<Unit>): Option<Value> {
    if members == [] then None
    else if members[0].key == key then Some(members[0].value)
    else ValueOf(members[1..], key)
  }

  /** What a client finds in the parsed output: the flag, the head, the number of units missing after it, and the advice. */
  ghost predicate ReadsAsEnvelope(members: seq<Member>, serialized: seq<Unit>, head: seq<Unit>)
    requires |head| <= |serialized|
  {
    && ValueOf(members, Units("truncated")) == Some(Bool(true))
    && ValueOf(members, Units("dropped_chars")) == Some(Int(|serialized| - |head|))
    && ValueOf(members, Units("hint")) == Some(Text(TRUNCATION_HINT))
    && ValueOf(members, Units("partial_json_head")) == Some(Text(head))
  }

  lemma {:induction false} ValueOfFour(members: seq<Member>, i: nat)
    requires |members| == 4 && i < 4
    requires forall j | 0 <= j < i :: |members[j].key| != |members[i].key|
    ensures ValueOf(members, members[i].key) == Some(members[i].value)
  {
    var key := members[i].key;
    ValueOfNext(members, key);
    ValueOfNext(members[1..], key);
    ValueOfNext(members[1..][1..], key);
    ValueOfNext(members[1..][1..][1..], key);
  }

  lemma {:induction false} ValueOfNext(members: seq<Member>, key: seq<Unit>)
    requires members != []
    ensures ValueOf(members, key) == if members[0].key == key then Some(members[0].value) else ValueOf(members[1..], key)
  {
  }

  lemma {:induction false} EnvelopeReads(serialized: seq<Unit>, headLength: nat)
    requires headLength <= |serialized|
    ensures ReadsAsEnvelope(Envelope(serialized, headLength), serialized, serialized[..headLength])
  {
    var e := Envelope(serialized, headLength);
    assert |Units("truncated")| == 9 && |Units("dropped_chars")| == 13 && |Units("hint")| == 4;
    assert |Units("partial_json_head")| == 17;
    ValueOfFour(e, 0);
    ValueOfFour(e, 1);
    ValueOfFour(e, 2);
    ValueOfFour(e, 3);
    assert e[2].key == Units("hint") && e[2].value == Text(TRUNCATION_HINT);
  }

  function RenderEnvelope(serialized: seq<Unit>, headLength: nat): seq<Unit> {
    Stringify(Envelope(serialized, headLength))
  }

  lemma {:induction false} SizeBoundOfMember(member: Member, rest: seq<Member>)
    ensures SizeBound([member] + rest) == 6 * |member.key| + 9 + ValueBound(member.value) + SizeBound(rest)
  {
    assert ([member] + rest)[1..] == rest;
  }

  lemma {:induction false} SizeBoundOfFour(a: Member, b: Member, c: Member, d: Member)
    ensures SizeBound([a, b, c, d])
         == 6 * (|a.key| + |b.key| + |c.key| + |d.key|) + 38
          + ValueBound(a.value) + ValueBound(b.value) + ValueBound(c.value) + ValueBound(d.value)
  {
    SizeBoundOfMember(d, []);
    SizeBoundOfMember(c, [d]);
    SizeBoundOfMember(b, [c, d]);
    SizeBoundOfMember(a, [b, c, d]);
    assert [a] + [b, c, d] == [a, b, c, d] && [b] + [c, d] == [b, c, d] && [c] + [d] == [c, d] && [d] + [] == [d];
  }

  lemma {:induction false} CountsPrintInSixteenDigits(n: nat)
    requires n <= MAX_STRING
    ensures |Decimal.Digits(n)| <= 16
  {
    assert Decimal.Pow10(4) == 10_000;
    assert Decimal.Pow10(8) == 100_000_000;
    assert Decimal.Pow10(12) == 1_000_000_000_000;
    assert Decimal.Pow10(16) == 10_000_000_000_000_000;
    Decimal.DigitCount(n, 16);
  }

  /** Everything but the head takes at most 801 units, whatever the number dropped. */
  lemma {:induction false} EnvelopeIsBounded(serialized: seq<Unit>, headLength: nat)
    requires |serialized| <= MAX_STRING
    ensures |RenderEnvelope(serialized, headLength)| <= |Escape(Head(serialized, headLength))| + 801
    ensures |RenderEnvelope(serialized, headLength)| <= 6 * headLength + 801
  {
    var e := Envelope(serialized, headLength);
    EscapingGrowsAtMostSixfold(TRUNCATION_HINT);
    EscapingGrowsAtMostSixfold(Head(serialized, headLength));
    StringifyIsBounded(e);
    SizeBoundOfFour(e[0], e[1], e[2], e[3]);
    assert e == [e[0], e[1], e[2], e[3]];
    CountsPrintInSixteenDigits(|serialized| - |Head(serialized, headLength)|);
  }

  /** The lengths the loop may try. */
  predicate Tried(length: int) { length == 20_000 || length == 10_000 || length == 5_000 || length == 2_500 }

  predicate Fits(serialized: seq<Unit>, headLength: nat) {
    |RenderEnvelope(serialized, headLength)| <= MAX_OUTPUT_CHARS
  }

  /** On JSON text the loop halves at most once. */
  lemma {:induction false} JsonTextKeepsTenThousand(serialized: seq<Unit>)
    requires |serialized| <= MAX_STRING && JsonText(serialized)
    ensures Fits(serialized, 10_000)
  {
    EnvelopeIsBounded(serialized, 10_000);
    if |serialized| >= 10_000 {
      JsonTextAtMostDoubles(serialized, 10_000);
    } else {
      assert serialized[..|serialized|] == serialized;
      JsonTextAtMostDoubles(serialized, |serialized|);
    }
  }

  /**
   A short text comes back as it is. A long one becomes a JSON text of at most
   30,000 units whose head is the longest of the tried lengths that fits, never
   under 2,500 units, and for JSON text never under 10,000; the number dropped and
   the head account for the whole text.
   */
  method TruncateJsonPayload(serialized: seq<Unit>) returns (output: seq<Unit>, ghost headLength: nat)
    requires |serialized| <= MAX_STRING
    ensures |output| <= 30_000
    ensures |serialized| <= 30_000 ==> output == serialized
    ensures |serialized| > 30_000 ==>
              && Tried(headLength)
              && forall longer: nat :: Tried(longer) && headLength < longer ==> !Fits(serialized, longer)
    ensures |serialized| > 30_000 && JsonText(serialized) ==> headLength >= 10_000
    ensures |serialized| > 30_000 ==>
              && Parse(output).Some? && |Parse(output).value| == 4
              && ReadsAsEnvelope(Parse(output).value, serialized, serialized[..headLength])
  {
    headLength := 0;
    if |serialized| <= MAX_OUTPUT_CHARS {
      return serialized, 0;
    }
    var length := TRUNCATED_HEAD_CHARS;
    output := RenderEnvelope(serialized, length);
    while |output| > MAX_OUTPUT_CHARS && length > MIN_HEAD_CHARS
      invariant Tried(length)
      invariant output == RenderEnvelope(serialized, length)
      invariant forall longer: nat :: Tried(longer) && length < longer ==> !Fits(serialized, longer)
      decreases length
    {
      EnvelopeIsBounded(serialized, length);
      assert !Fits(serialized, length);
      length := length / 2;
      output := RenderEnvelope(serialized, length);
    }
    headLength := length;
    if JsonText(serialized) {
      JsonTextKeepsTenThousand(serialized);
    }
    ParseUndoesStringify(Envelope(serialized, length));
    EnvelopeReads(serialized, length);
  }

  lemma {:induction false} PrintedTextIsLong(key: seq<Unit>, text: seq<Unit>)
    ensures |PrintMembers([Member(key, Text(text))])| >= |Escape(text)|
  {
  }

  lemma {:induction false} PrintedTailIsShorter(first: Member, rest: seq<Member>)
    requires rest != []
    ensures |PrintMembers([first] + rest)| >= |PrintMembers(rest)|
  {
    assert ([first] + rest)[1..] == rest;
  }

  lemma {:induction false} EscapedHeadFits(serialized: seq<Unit>, headLength: nat)
    ensures |Escape(Head(serialized, headLength))| < |RenderEnvelope(serialized, headLength)|
  {
    var e := Envelope(serialized, headLength);
    var a, b, c, d := e[0], e[1], e[2], e[3];
    PrintedTextIsLong(d.key, Head(serialized, headLength));
    PrintedTailIsShorter(c, [d]);
    PrintedTailIsShorter(b, [c, d]);
    PrintedTailIsShorter(a, [b, c, d]);
    assert [a] + [b, c, d] == e && [b] + [c, d] == [b, c, d] && [c] + [d] == [c, d];
  }

  /** On arbitrary text the smallest head is needed: of long NUL text, which is no JSON, no longer head fits. */
  lemma {:induction false} NulTextNeedsTheSmallestHead(serialized: seq<Unit>, headLength: nat)
    requires MAX_OUTPUT_CHARS < |serialized| <= MAX_STRING
    requires forall i :: 0 <= i < |serialized| ==> serialized[i] == 0
    requires Tried(headLength)
    ensures Fits(serialized, headLength) <==> headLength == 2_500
  {
    EnvelopeIsBounded(serialized, headLength);
    EscapedHeadFits(serialized, headLength);
    SixfoldIsReached(Head(serialized, headLength));
  }

  /** On JSON text one halving can be needed: of the long print of a string of backslashes only 10,000 units fit. */
  lemma {:induction false} BackslashesNeedOneHalving(text: seq<Unit>, headLength: nat)
    requires forall i :: 0 <= i < |text| ==> text[i] == BACKSLASH
    requires MAX_OUTPUT_CHARS < |Quoted(text)| <= MAX_STRING && Tried(headLength)
    ensures Fits(Quoted(text), headLength) <==> headLength <= 10_000
  {
    DoublingIsReached(text);
    DoublingIsReached(Head(Quoted(text), headLength));
    EnvelopeIsBounded(Quoted(text), headLength);
    EscapedHeadFits(Quoted(text), headLength);
  }
}
