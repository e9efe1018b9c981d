/**
 JSON text over UTF-16 code units, as `JSON.stringify(value, null, 2)` prints a
 flat object and as RFC 8259 reads one back.
 */
module Json {
  import opened Wrappers
  import Decimal

  type Unit = u: int | 0 <= u < 0x10000

  const QUOTE: Unit := 34
  const BACKSLASH: Unit := 92

  function Units(text: string): (r: seq<Unit>)
    ensures |r| == |text|
  {
    seq(|text|, i requires 0 <= i < |text| => (text[i] as int) % 0x10000)
  }

  // ---------------------------------------------------------------- string literals

  predicate Surrogate(u: Unit) { 0xD800 <= u < 0xE000 }

  /** A lead unit with its trail unit: printed as it stands. */
  predicate StartsWithPair(s: seq<Unit>) { |s| >= 2 && 0xD800 <= s[0] < 0xDC00 <= s[1] < 0xE000 }

  function HexDigit(d: nat): Unit
    requires d < 16
  {
    if d < 10 then 48 + d else 87 + d
  }

  function ShortEscape(u: Unit): Option<Unit> {
    if u == 8 then Some(98)
    else if u == 9 then Some(116)
    else if u == 10 then Some(110)
    else if u == 12 then Some(102)
    else if u == 13 then Some(114)
    else if u == QUOTE || u == BACKSLASH then Some(u)
    else None
  }

  function EscapeUnit(u: Unit): (r: seq<Unit>)
    ensures 1 <= |r| <= 6
  {
    match ShortEscape(u)
    case Some(letter) => [BACKSLASH, letter]
    case None =>
      if u < 32 || Surrogate(u) then
        [BACKSLASH, 117, HexDigit(u / 4096), HexDigit(u / 256 % 16), HexDigit(u / 16 % 16), HexDigit(u % 16)]
      else [u]
  }

  /** Which form each unit takes: the seven short escapes, six-unit escapes for other controls and lone surrogates. */
  lemma {:induction false} EscapeForms(u: Unit)
    ensures EscapeUnit(8) == [92, 98] && EscapeUnit(9) == [92, 116] && EscapeUnit(10) == [92, 110]
    ensures EscapeUnit(12) == [92, 102] && EscapeUnit(13) == [92, 114]
    ensures EscapeUnit(34) == [92, 34] && EscapeUnit(92) == [92, 92]
    ensures u < 32 && u !in [8, 9, 10, 12, 13] ==>
              EscapeUnit(u) == [92, 117, 48, 48, 48 + u / 16, if u % 16 < 10 then 48 + u % 16 else 87 + u % 16]
    ensures 0xD800 <= u < 0xE000 <==> u >= 32 && |EscapeUnit(u)| == 6
    ensures u >= 32 && u != 34 && u != 92 && !(0xD800 <= u < 0xE000) ==> EscapeUnit(u) == [u]
  {
  }

  /** A surrogate is printed as it stands exactly when it is half of a pair. */
  lemma {:induction false} PairsArePrinted(lead: Unit, trail: Unit)
    requires 0xD800 <= lead < 0xE000 && 0xD800 <= trail < 0xE000
    ensures Escape([lead, trail]) == [lead, trail] <==> lead < 0xDC00 <= trail
  {
    var s := [lead, trail];
    assert s[1..] == [trail] && [trail][1..] == [] && s[2..] == [];
    EscapeForms(lead);
    if lead < 0xDC00 <= trail {
      assert StartsWithPair(s) && s[..2] == s;
    } else {
      assert !StartsWithPair(s) && !StartsWithPair([trail]);
      assert |EscapeUnit(lead)| == 6;
    }
  }

  function Escape(s: seq<Unit>): seq<Unit>
    decreases |s|
  {
    if s == [] then []
    else if StartsWithPair(s) then s[..2] + Escape(s[2..])
    else EscapeUnit(s[0]) + Escape(s[1..])
  }

  lemma {:induction false} EscapingGrowsAtMostSixfold(s: seq<Unit>)
    ensures |s| <= |Escape(s)| <= 6 * |s|
    decreases |s|
  {
    if s == [] {
    } else if StartsWithPair(s) {
      EscapingGrowsAtMostSixfold(s[2..]);
    } else {
      EscapingGrowsAtMostSixfold(s[1..]);
    }
  }

  /** On arbitrary text the bound is reached: NUL characters grow exactly sixfold. */
  lemma {:induction false} SixfoldIsReached(s: seq<Unit>)
    requires forall i :: 0 <= i < |s| ==> s[i] == 0
    ensures |Escape(s)| == 6 * |s|
    decreases |s|
  {
    if s != [] {
      SixfoldIsReached(s[1..]);
    }
  }

  /** What `JSON.stringify(value, null, 2)` can print: no control unit but the line feed, no lone surrogate. */
  predicate JsonText(s: seq<Unit>)
    decreases |s|
  {
    if s == [] then true
    else if StartsWithPair(s) then JsonText(s[2..])
    else (s[0] == 10 || s[0] >= 32) && !Surrogate(s[0]) && JsonText(s[1..])
  }

  /** JSON text at most doubles; a head of it may also end in half a pair, which is escaped. */
  lemma {:induction false} JsonTextAtMostDoubles(s: seq<Unit>, n: nat)
    requires JsonText(s) && n <= |s|
    ensures |Escape(s[..n])| <= 2 * n + (if JsonText(s[..n]) then 0 else 4)
    decreases |s|
  {
    if n == 0 {
    } else if StartsWithPair(s) && n >= 2 {
      assert s[..n][2..] == s[2..][..n - 2] && s[..n][..2] == s[..2];
      JsonTextAtMostDoubles(s[2..], n - 2);
    } else if StartsWithPair(s) {
      assert s[..1][1..] == [];
    } else {
      assert s[..n][1..] == s[1..][..n - 1];
      JsonTextAtMostDoubles(s[1..], n - 1);
    }
  }

  /** Quotes and backslashes reach that bound, and their escapes are quotes and backslashes again. */
  lemma {:induction false} DoublingIsReached(s: seq<Unit>)
    requires forall i :: 0 <= i < |s| ==> s[i] == QUOTE || s[i] == BACKSLASH
    ensures |Escape(s)| == 2 * |s|
    ensures forall i :: 0 <= i < |Escape(s)| ==> Escape(s)[i] == QUOTE || Escape(s)[i] == BACKSLASH
    decreases |s|
  {
    if s != [] {
      DoublingIsReached(s[1..]);
      assert EscapeUnit(s[0]) == [BACKSLASH, s[0]];
    }
  }

  lemma {:induction false} JsonTextConcatenation(a: seq<Unit>, b: seq<Unit>)
    requires JsonText(a) && JsonText(b)
    ensures JsonText(a + b)
    decreases |a|
  {
    if a == [] {
      assert a + b == b;
    } else if StartsWithPair(a) {
      assert (a + b)[2..] == a[2..] + b;
      JsonTextConcatenation(a[2..], b);
    } else {
      assert (a + b)[1..] == a[1..] + b;
      JsonTextConcatenation(a[1..], b);
    }
  }

  lemma {:induction false} AsciiIsJsonText(s: seq<Unit>)
    requires forall i :: 0 <= i < |s| ==> s[i] == 10 || 32 <= s[i] < 128
    ensures JsonText(s)
    decreases |s|
  {
    if s != [] {
      AsciiIsJsonText(s[1..]);
    }
  }

  lemma {:induction false} EscapedUnitIsJsonText(u: Unit)
    ensures JsonText(EscapeUnit(u))
  {
    if ShortEscape(u) == None && u >= 32 && !Surrogate(u) {
      assert EscapeUnit(u)[1..] == [];
    } else {
      AsciiIsJsonText(EscapeUnit(u));
    }
  }

  lemma {:induction false} EscapeIsJsonText(s: seq<Unit>)
    ensures JsonText(Escape(s))
    decreases |s|
  {
    if s == [] {
    } else if StartsWithPair(s) {
      EscapeIsJsonText(s[2..]);
      assert s[..2][2..] == [];
      JsonTextConcatenation(s[..2], Escape(s[2..]));
    } else {
      EscapeIsJsonText(s[1..]);
      EscapedUnitIsJsonText(s[0]);
      JsonTextConcatenation(EscapeUnit(s[0]), Escape(s[1..]));
    }
  }

  datatype Read<+T> = Read(value: T, rest: seq<Unit>)

  function HexValue(u: Unit): Option<nat> {
    if 48 <= u < 58 then Some(u - 48)
    else if 97 <= u < 103 then Some(u - 87)
    else if 65 <= u < 71 then Some(u - 55)
    else None
  }

  function ReadHex(t: seq<Unit>): (r: Option<Read<Unit>>)
    ensures r.Some? ==> |r.value.rest| + 4 == |t|
  {
    if |t| < 4 then None
    else
      match (HexValue(t[0]), HexValue(t[1]), HexValue(t[2]), HexValue(t[3]))
      case (Some(a), Some(b), Some(c), Some(d)) => Some(Read(HexNumber(a, b, c, d), t[4..]))
      case _ => None
  }

  function HexNumber(a: nat, b: nat, c: nat, d: nat): Unit {
    if a < 16 && b < 16 && c < 16 && d < 16 then a * 4096 + b * 256 + c * 16 + d else 0
  }

  function LongForm(letter: Unit): Option<Unit> {
    if letter == 98 then Some(8)
    else if letter == 116 then Some(9)
    else if letter == 110 then Some(10)
    else if letter == 102 then Some(12)
    else if letter == 114 then Some(13)
    else if letter == QUOTE || letter == BACKSLASH || letter == 47 then Some(letter)
    else None
  }

  /** One possibly escaped unit of a string literal, section 7 of RFC 8259. */
  function ReadUnit(t: seq<Unit>): (r: Option<Read<Unit>>)
    ensures r.Some? ==> |r.value.rest| < |t|
  {
    if t == [] || t[0] == QUOTE || t[0] < 32 then None
    else if t[0] != BACKSLASH then Some(Read(t[0], t[1..]))
    else if |t| < 2 then None
    else if t[1] == 117 then ReadHex(t[2..])
    else
      match LongForm(t[1])
      case Some(u) => Some(Read(u, t[2..]))
      case None => None
  }

  /** The rest of a string literal after its opening quote, through its closing quote. */
  function ReadString(t: seq<Unit>): (r: Option<Read<seq<Unit>>>)
    ensures r.Some? ==> |r.value.rest| < |t|
    decreases |t|
  {
    if t == [] then None
    else if t[0] == QUOTE then Some(Read([], t[1..]))
    else
      match ReadUnit(t)
      case None => None
      case Some(first) =>
        match ReadString(first.rest)
        case None => None
        case Some(others) => Some(Read([first.value] + others.value, others.rest))
  }

  lemma {:induction false} HexDigitsMakeTheUnit(u: Unit)
    ensures u / 4096 < 16 && u == u / 4096 * 4096 + u / 256 % 16 * 256 + u / 16 % 16 * 16 + u % 16
  {
    assert u / 256 == u / 4096 * 16 + u / 256 % 16;
    assert u / 16 == u / 256 * 16 + u / 16 % 16;
  }

  lemma {:induction false} ReadsFourHexDigits(a: nat, b: nat, c: nat, d: nat, rest: seq<Unit>)
    requires a < 16 && b < 16 && c < 16 && d < 16
    ensures ReadHex([HexDigit(a), HexDigit(b), HexDigit(c), HexDigit(d)] + rest) == Some(Read(HexNumber(a, b, c, d), rest))
  {
    var t := [HexDigit(a), HexDigit(b), HexDigit(c), HexDigit(d)] + rest;
    assert t[4..] == rest;
    assert HexValue(t[0]) == Some(a) && HexValue(t[1]) == Some(b);
    assert HexValue(t[2]) == Some(c) && HexValue(t[3]) == Some(d);
  }

  lemma {:induction false} ReadsEscapedUnit(u: Unit, rest: seq<Unit>)
    ensures var t := EscapeUnit(u) + rest;
            t[0] != QUOTE && ReadUnit(t) == Some(Read(u, rest))
  {
    var t := EscapeUnit(u) + rest;
    assert t[|EscapeUnit(u)|..] == rest;
    if ShortEscape(u) == None && (u < 32 || Surrogate(u)) {
      HexDigitsMakeTheUnit(u);
      ReadsFourHexDigits(u / 4096, u / 256 % 16, u / 16 % 16, u % 16, rest);
      assert t[2..] == [HexDigit(u / 4096), HexDigit(u / 256 % 16), HexDigit(u / 16 % 16), HexDigit(u % 16)] + rest;
    }
  }

  lemma {:induction false} ReadsPair(lead: Unit, trail: Unit, s: seq<Unit>, t: seq<Unit>, rest: seq<Unit>)
    requires ReadString(t) == Some(Read(s, rest)) && Surrogate(lead) && Surrogate(trail)
    ensures ReadString([lead, trail] + t) == Some(Read([lead, trail] + s, rest))
  {
    ReadsPlainHead(trail, s, t, rest);
    ReadsPlainHead(lead, [trail] + s, [trail] + t, rest);
    assert [lead, trail] + t == [lead] + ([trail] + t);
    assert [lead, trail] + s == [lead] + ([trail] + s);
  }

  lemma {:induction false} Reassociate(a: seq<Unit>, b: seq<Unit>, c: seq<Unit>)
    ensures (a + b) + c == a + (b + c)
  {
  }

  lemma {:induction false} ReadsEscapedHead(u: Unit, s: seq<Unit>, t: seq<Unit>, rest: seq<Unit>)
    requires ReadString(t) == Some(Read(s, rest))
    ensures ReadString(EscapeUnit(u) + t) == Some(Read([u] + s, rest))
  {
    ReadsEscapedUnit(u, t);
  }

  lemma {:induction false} ReadsPlainHead(u: Unit, s: seq<Unit>, t: seq<Unit>, rest: seq<Unit>)
    requires ReadString(t) == Some(Read(s, rest)) && u >= 32 && u != QUOTE && u != BACKSLASH
    ensures ReadString([u] + t) == Some(Read([u] + s, rest))
  {
    assert ([u] + t)[1..] == t;
  }

  /** What is escaped is read back, whatever the text: quotes, controls, pairs cut in half. */
  lemma {:induction false} StringRoundTrip(s: seq<Unit>, rest: seq<Unit>)
    ensures ReadString(Escape(s) + ([QUOTE] + rest)) == Some(Read(s, rest))
    decreases |s|
  {
    var end := [QUOTE] + rest;
    if s == [] {
      assert Escape(s) + end == end && end[1..] == rest;
    } else if StartsWithPair(s) {
      StringRoundTrip(s[2..], rest);
      ReadsPair(s[0], s[1], s[2..], Escape(s[2..]) + end, rest);
      assert s[..2] == [s[0], s[1]] && s == [s[0], s[1]] + s[2..];
      Reassociate([s[0], s[1]], Escape(s[2..]), end);
    } else {
      StringRoundTrip(s[1..], rest);
      ReadsEscapedHead(s[0], s[1..], Escape(s[1..]) + end, rest);
      Reassociate(EscapeUnit(s[0]), Escape(s[1..]), end);
      assert s == [s[0]] + s[1..];
    }
  }

  // ---------------------------------------------------------------- flat objects

  datatype Value = Bool(holds: bool) | Int(number: nat) | Text(text: seq<Unit>)

  datatype Member = Member(key: seq<Unit>, value: Value)

  function DigitUnits(digits: seq<Decimal.Digit>): (r: seq<Unit>)
    ensures |r| == |digits|
  {
    seq(|digits|, i requires 0 <= i < |digits| => digits[i] as int + 48)
  }

  function Quoted(s: seq<Unit>): seq<Unit> { [QUOTE] + (Escape(s) + [QUOTE]) }

  function PrintValue(value: Value): seq<Unit> {
    match value
    case Bool(holds) => if holds then [116, 114, 117, 101] else [102, 97, 108, 115, 101]
    case Int(number) => DigitUnits(Decimal.Digits(number))
    case Text(text) => Quoted(text)
  }

  /** A member on its own line, two spaces in. */
  function PrintMember(member: Member): seq<Unit> {
    [10, 32, 32] + (Quoted(member.key) + ([58, 32] + PrintValue(member.value)))
  }

  function PrintMembers(members: seq<Member>): seq<Unit>
    requires members != []
  {
    PrintMember(members[0]) + (if |members| == 1 then [10, 125] else [44] + PrintMembers(members[1..]))
  }

  /** `JSON.stringify(object, null, 2)` of an object with these members. */
  function Stringify(members: seq<Member>): seq<Unit> {
    if members == [] then [123, 125] else [123] + PrintMembers(members)
  }

  predicate Blank(u: Unit) { u == 32 || u == 9 || u == 10 || u == 13 }

  function SkipBlanks(t: seq<Unit>): (r: seq<Unit>)
    ensures |r| <= |t|
  {
    if t != [] && Blank(t[0]) then SkipBlanks(t[1..]) else t
  }

  predicate DigitUnit(u: Unit) { 48 <= u < 58 }

  function ReadDigits(t: seq<Unit>): (r: Read<seq<Decimal.Digit>>)
    ensures |r.rest| + |r.value| == |t|
  {
    if t != [] && DigitUnit(t[0]) then
      var others := ReadDigits(t[1..]);
      Read([t[0] - 48] + others.value, others.rest)
    else Read([], t)
  }

  /** An integer without a sign; a leading zero must stand alone. */
  function ReadNumber(t: seq<Unit>): (r: Option<Read<Value>>)
    ensures r.Some? ==> |r.value.rest| < |t|
  {
    var digits := ReadDigits(t);
    if digits.value == [] || (|digits.value| > 1 && digits.value[0] == 0) then None
    else Some(Read(Int(Decimal.Number(digits.value)), digits.rest))
  }

  function ReadValue(t: seq<Unit>): (r: Option<Read<Value>>)
    ensures r.Some? ==> |r.value.rest| < |t|
  {
    if t != [] && t[0] == QUOTE then
      match ReadString(t[1..])
      case Some(text) => Some(Read(Text(text.value), text.rest))
      case None => None
    else if [116, 114, 117, 101] <= t then Some(Read(Bool(true), t[4..]))
    else if [102, 97, 108, 115, 101] <= t then Some(Read(Bool(false), t[5..]))
    else ReadNumber(t)
  }

  function ReadMember(t: seq<Unit>): (r: Option<Read<Member>>)
    ensures r.Some? ==> |r.value.rest| < |t|
  {
    var start := SkipBlanks(t);
    if start == [] || start[0] != QUOTE then None
    else
      match ReadString(start[1..])
      case None => None
      case Some(key) =>
        var colon := SkipBlanks(key.rest);
        if colon == [] || colon[0] != 58 then None
        else
          match ReadValue(SkipBlanks(colon[1..]))
          case None => None
          case Some(value) => Some(Read(Member(key.value, value.value), value.rest))
  }

  /** Members through the closing brace, after which only blanks may follow. */
  function ReadMembers(t: seq<Unit>): Option<seq<Member>>
    decreases |t|
  {
    match ReadMember(t)
    case None => None
    case Some(first) =>
      var next := SkipBlanks(first.rest);
      if next != [] && next[0] == 44 then
        match ReadMembers(next[1..])
        case Some(others) => Some([first.value] + others)
        case None => None
      else if next != [] && next[0] == 125 && SkipBlanks(next[1..]) == [] then Some([first.value])
      else None
  }

  /** A JSON text holding one flat object, sections 2 to 7 of RFC 8259; None when it is malformed. */
  function Parse(t: seq<Unit>): Option<seq<Member>> {
    var start := SkipBlanks(t);
    if start == [] || start[0] != 123 then None
    else
      var body := SkipBlanks(start[1..]);
      if body != [] && body[0] == 125 then (if SkipBlanks(body[1..]) == [] then Some([]) else None)
      else ReadMembers(start[1..])
  }

  // ---------------------------------------------------------------- printing and reading

  lemma {:induction false} ReadsDigits(digits: seq<Decimal.Digit>, rest: seq<Unit>)
    requires rest != [] && !DigitUnit(rest[0])
    ensures ReadDigits(DigitUnits(digits) + rest) == Read(digits, rest)
    decreases |digits|
  {
    var t := DigitUnits(digits) + rest;
    if digits == [] {
      assert t == rest;
    } else {
      assert t[1..] == DigitUnits(digits[1..]) + rest;
      ReadsDigits(digits[1..], rest);
      assert digits == [digits[0]] + digits[1..];
    }
  }

  lemma {:induction false} ReadsInteger(number: nat, rest: seq<Unit>)
    requires rest != [] && !DigitUnit(rest[0])
    ensures ReadValue(DigitUnits(Decimal.Digits(number)) + rest) == Some(Read(Int(number), rest))
  {
    var digits := Decimal.Digits(number);
    ReadsDigits(digits, rest);
    Decimal.NumberOfDigits(number);
    Decimal.NoLeadingZero(number);
    assert (DigitUnits(digits) + rest)[0] == digits[0] as int + 48;
  }

  lemma {:induction false} ReadsQuoted(s: seq<Unit>, rest: seq<Unit>)
    ensures var t := Quoted(s) + rest; t[0] == QUOTE && ReadString(t[1..]) == Some(Read(s, rest))
  {
    StringRoundTrip(s, rest);
    var t := Quoted(s) + rest;
    assert t[1..] == (Escape(s) + [QUOTE]) + rest;
    Reassociate(Escape(s), [QUOTE], rest);
  }

  lemma {:induction false} ReadsValue(value: Value, rest: seq<Unit>)
    requires rest != [] && !DigitUnit(rest[0])
    ensures ReadValue(PrintValue(value) + rest) == Some(Read(value, rest))
  {
    match value
    case Bool(holds) =>
      var t := PrintValue(value) + rest;
      assert t[|PrintValue(value)|..] == rest;
    case Int(number) => ReadsInteger(number, rest);
    case Text(text) => ReadsQuoted(text, rest);
  }

  lemma {:induction false} SkipsIndent(t: seq<Unit>)
    requires t != [] && !Blank(t[0])
    ensures SkipBlanks([10, 32, 32] + t) == t
  {
    var all := [10, 32, 32] + t;
    assert all[1..] == [32, 32] + t && all[1..][1..] == [32] + t && all[1..][1..][1..] == t;
    assert SkipBlanks([32] + t) == t;
  }

  lemma {:induction false} SkipsSpace(t: seq<Unit>)
    requires t != [] && !Blank(t[0])
    ensures SkipBlanks(([58, 32] + t)[1..]) == t
  {
    var after := ([58, 32] + t)[1..];
    assert after[0] == 32 && after[1..] == t;
  }

  lemma {:induction false} PrintedValueStarts(value: Value)
    ensures PrintValue(value) != [] && !Blank(PrintValue(value)[0])
  {
  }

  lemma {:induction false} ReadsMember(member: Member, rest: seq<Unit>)
    requires rest != [] && !DigitUnit(rest[0])
    ensures ReadMember(PrintMember(member) + rest) == Some(Read(member, rest))
  {
    var value := PrintValue(member.value) + rest;
    var colon := [58, 32] + value;
    var key := Quoted(member.key) + colon;
    PrintMemberThen(member, rest);
    SkipsIndent(key);
    ReadsQuoted(member.key, colon);
    assert SkipBlanks(colon) == colon;
    PrintedValueStarts(member.value);
    assert value[0] == PrintValue(member.value)[0];
    SkipsSpace(value);
    ReadsValue(member.value, rest);
  }

  lemma {:induction false} PrintMemberThen(member: Member, rest: seq<Unit>)
    ensures PrintMember(member) + rest
         == [10, 32, 32] + (Quoted(member.key) + ([58, 32] + (PrintValue(member.value) + rest)))
  {
  }

  lemma {:induction false} ReadsLastMember(member: Member)
    ensures ReadMembers(PrintMember(member) + [10, 125]) == Some([member])
  {
    ReadsMember(member, [10, 125]);
    assert [10, 125][1..] == [125] && [125][1..] == [];
  }

  lemma {:induction false} ReadsMemberBefore(member: Member, others: seq<Member>, t: seq<Unit>)
    requires ReadMembers(t) == Some(others)
    ensures ReadMembers(PrintMember(member) + ([44] + t)) == Some([member] + others)
  {
    var rest := [44] + t;
    ReadsMember(member, rest);
    assert SkipBlanks(rest) == rest && rest[1..] == t;
  }

  lemma {:induction false} ReadsMembers(members: seq<Member>)
    requires members != []
    ensures ReadMembers(PrintMembers(members)) == Some(members)
    decreases |members|
  {
    if |members| == 1 {
      ReadsLastMember(members[0]);
      assert members == [members[0]];
    } else {
      ReadsMembers(members[1..]);
      ReadsMemberBefore(members[0], members[1..], PrintMembers(members[1..]));
      assert members == [members[0]] + members[1..];
    }
  }

  /** A printed object goes on with the first key's opening quote. */
  lemma {:induction false} FirstKeyFollows(members: seq<Member>)
    requires members != []
    ensures var body := SkipBlanks(PrintMembers(members)); body != [] && body[0] == QUOTE
  {
    var rest := if |members| == 1 then [10, 125] else [44] + PrintMembers(members[1..]);
    PrintMemberThen(members[0], rest);
    SkipsIndent(Quoted(members[0].key) + ([58, 32] + (PrintValue(members[0].value) + rest)));
  }

  /** Parsing undoes printing for every flat object. */
  lemma {:induction false} ParseUndoesStringify(members: seq<Member>)
    ensures Parse(Stringify(members)) == Some(members)
  {
    var t := Stringify(members);
    assert SkipBlanks(t) == t;
    if members == [] {
      assert t[1..] == [125] && [125][1..] == [];
    } else {
      assert t[1..] == PrintMembers(members);
      ReadsMembers(members);
      FirstKeyFollows(members);
    }
  }

  // ---------------------------------------------------------------- size

  function ValueBound(value: Value): nat {
    match value
    case Bool(_) => 5
    case Int(number) => |Decimal.Digits(number)|
    case Text(text) => |Escape(text)| + 2
  }

  function SizeBound(members: seq<Member>): nat {
    if members == [] then 2 else 6 * |members[0].key| + 9 + ValueBound(members[0].value) + SizeBound(members[1..])
  }

  lemma {:induction false} StringifyIsBounded(members: seq<Member>)
    ensures |Stringify(members)| <= SizeBound(members)
    decreases |members|
  {
    if members != [] {
      StringifyIsBounded(members[1..]);
      EscapingGrowsAtMostSixfold(members[0].key);
    }
  }

  // ---------------------------------------------------------------- what is printed

  lemma {:induction false} QuotedIsJsonText(s: seq<Unit>)
    ensures JsonText(Quoted(s))
  {
    EscapeIsJsonText(s);
    AsciiIsJsonText([QUOTE]);
    JsonTextConcatenation(Escape(s), [QUOTE]);
    JsonTextConcatenation([QUOTE], Escape(s) + [QUOTE]);
  }

  lemma {:induction false} PrintedMemberIsJsonText(member: Member)
    ensures JsonText(PrintMember(member))
  {
    var value := PrintValue(member.value);
    if member.value.Text? {
      QuotedIsJsonText(member.value.text);
    } else {
      AsciiIsJsonText(value);
    }
    AsciiIsJsonText([58, 32]);
    JsonTextConcatenation([58, 32], value);
    QuotedIsJsonText(member.key);
    JsonTextConcatenation(Quoted(member.key), [58, 32] + value);
    AsciiIsJsonText([10, 32, 32]);
    JsonTextConcatenation([10, 32, 32], Quoted(member.key) + ([58, 32] + value));
  }

  lemma {:induction false} PrintedMembersAreJsonText(members: seq<Member>)
    requires members != []
    ensures JsonText(PrintMembers(members))
    decreases |members|
  {
    PrintedMemberIsJsonText(members[0]);
    if |members| == 1 {
      AsciiIsJsonText([10, 125]);
      JsonTextConcatenation(PrintMember(members[0]), [10, 125]);
    } else {
      PrintedMembersAreJsonText(members[1..]);
      AsciiIsJsonText([44]);
      JsonTextConcatenation([44], PrintMembers(members[1..]));
      JsonTextConcatenation(PrintMember(members[0]), [44] + PrintMembers(members[1..]));
    }
  }

  /** Whatever the strings hold, what is printed is JSON text. */
  lemma {:induction false} StringifyIsJsonText(members: seq<Member>)
    ensures JsonText(Stringify(members))
  {
    if members == [] {
      AsciiIsJsonText([123, 125]);
    } else {
      AsciiIsJsonText([123]);
      PrintedMembersAreJsonText(members);
      JsonTextConcatenation([123], PrintMembers(members));
    }
  }
}
