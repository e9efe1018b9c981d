/**
 `encodeURIComponent`, form bodies made with it, and the reader at the other
 end: percent-decoding (section 2.1 of RFC 3986) and UTF-8 (RFC 3629). A string
 is a sequence of Unicode scalar values; encoding a lone surrogate throws.
 */
module FormEncoding {
  import opened Wrappers
  import opened Strings

  type Byte = b: int | 0 <= b < 256

  // ---------------------------------------------------------------- UTF-8

  function Utf8Char(c: char): seq<Byte> {
    var n := c as int;
    if n < 0x80 then [n]
    else if n < 0x800 then [0xC0 + n / 64, 0x80 + n % 64]
    else if n < 0x10000 then [0xE0 + n / 64 / 64, 0x80 + n / 64 % 64, 0x80 + n % 64]
    else [0xF0 + n / 64 / 64 / 64, 0x80 + n / 64 / 64 % 64, 0x80 + n / 64 % 64, 0x80 + n % 64]
  }

  function Utf8(s: string): seq<Byte> { if s == "" then [] else Utf8Char(s[0]) + Utf8(s[1..]) }

  predicate Continues(b: Byte) { 0x80 <= b < 0xC0 }

  /** Six more bits from a continuation byte. */
  function Extend(high: int, b: Byte): int { high * 64 + (b as int - 0x80) }

  /** The scalar value `n`, refused when a shorter form exists or when it is none. */
  function Scalar(n: int, least: int): Option<char> {
    if least <= n && (0 <= n < 0xD800 || 0xE000 <= n < 0x110000) then Some(n as char) else None
  }

  datatype Read = Read(c: char, rest: seq<Byte>)

  function Finish(c: Option<char>, rest: seq<Byte>): Option<Read> {
    match c
    case Some(value) => Some(Read(value, rest))
    case None => None
  }

  function ReadChar(bytes: seq<Byte>): (r: Option<Read>)
    ensures r.Some? ==> |r.value.rest| < |bytes|
  {
    if bytes == [] then None
    else if bytes[0] < 0x80 then Finish(Scalar(bytes[0], 0), bytes[1..])
    else if 0xC0 <= bytes[0] < 0xE0 && |bytes| >= 2 && Continues(bytes[1]) then
      Finish(Scalar(Extend(bytes[0] as int - 0xC0, bytes[1]), 0x80), bytes[2..])
    else if 0xE0 <= bytes[0] < 0xF0 && |bytes| >= 3 && Continues(bytes[1]) && Continues(bytes[2]) then
      Finish(Scalar(Extend(Extend(bytes[0] as int - 0xE0, bytes[1]), bytes[2]), 0x800), bytes[3..])
    else if 0xF0 <= bytes[0] && |bytes| >= 4 && Continues(bytes[1]) && Continues(bytes[2]) && Continues(bytes[3]) then
      Finish(Scalar(Extend(Extend(Extend(bytes[0] as int - 0xF0, bytes[1]), bytes[2]), bytes[3]), 0x10000),
             bytes[4..])
    else None
  }

  function Utf8Decode(bytes: seq<Byte>): Option<string>
    decreases |bytes|
  {
    if bytes == [] then Some("")
    else
      match ReadChar(bytes)
      case None => None
      case Some(first) =>
        match Utf8Decode(first.rest)
        case Some(others) => Some([first.c] + others)
        case None => None
  }

  lemma {:induction false} ReadsChar(c: char, rest: seq<Byte>)
    ensures ReadChar(Utf8Char(c) + rest) == Some(Read(c, rest))
  {
    var n := c as int;
    assert Extend(n / 64, 0x80 + n % 64) == n;
    var bytes := Utf8Char(c) + rest;
    assert bytes[|Utf8Char(c)|..] == rest;
    if n >= 0x10000 {
      assert Extend(n / 64 / 64 / 64, bytes[1]) == n / 64 / 64;
      assert Extend(n / 64 / 64, bytes[2]) == n / 64;
    } else if n >= 0x800 {
      assert Extend(n / 64 / 64, bytes[1]) == n / 64;
    }
  }

  lemma {:induction false} Utf8RoundTrip(s: string)
    ensures Utf8Decode(Utf8(s)) == Some(s)
  {
    if s != "" {
      Utf8RoundTrip(s[1..]);
      ReadsChar(s[0], Utf8(s[1..]));
      assert s == [s[0]] + s[1..];
    }
  }

  // ---------------------------------------------------------------- percent-encoding

  predicate Alphanumeric(c: char) { 'A' <= c <= 'Z' || 'a' <= c <= 'z' || '0' <= c <= '9' }

  /** What `encodeURIComponent` leaves alone. */
  predicate Unreserved(c: char) { Alphanumeric(c) || c in "-_.!~*'()" }

  function HexDigit(d: nat): char
    requires d < 16
  {
    if d < 10 then '0' + d as char else 'A' + (d - 10) as char
  }

  function HexValue(c: char): Option<nat> {
    if '0' <= c <= '9' then Some(c as int - '0' as int)
    else if 'A' <= c <= 'F' then Some(c as int - 'A' as int + 10)
    else if 'a' <= c <= 'f' then Some(c as int - 'a' as int + 10)
    else None
  }

  function Percent(b: Byte): string { ['%', HexDigit(b / 16), HexDigit(b % 16)] }

  function Percents(bytes: seq<Byte>): string { if bytes == [] then "" else Percent(bytes[0]) + Percents(bytes[1..]) }

  function EncodeChar(c: char): string { if Unreserved(c) then [c] else Percents(Utf8Char(c)) }

  function EncodeURIComponent(s: string): string {
    if s == "" then "" else EncodeChar(s[0]) + EncodeURIComponent(s[1..])
  }

  function PercentDecode(text: string): Option<seq<Byte>>
    decreases |text|
  {
    if text == "" then Some([])
    else if text[0] == '%' then
      if |text| < 3 then None
      else
        match (HexValue(text[1]), HexValue(text[2]), PercentDecode(text[3..]))
        case (Some(high), Some(low), Some(rest)) => Some([(high * 16 + low) % 256] + rest)
        case _ => None
    else if text[0] as int >= 0x80 then None
    else
      match PercentDecode(text[1..])
      case Some(rest) => Some([text[0] as int] + rest)
      case None => None
  }

  function DecodeURIComponent(text: string): Option<string> {
    match PercentDecode(text)
    case Some(bytes) => Utf8Decode(bytes)
    case None => None
  }

  function Prepend(bytes: seq<Byte>, rest: Option<seq<Byte>>): Option<seq<Byte>> {
    match rest
    case Some(more) => Some(bytes + more)
    case None => None
  }

  lemma {:induction false} HexRoundTrip(d: nat)
    requires d < 16
    ensures HexValue(HexDigit(d)) == Some(d)
  {
  }

  lemma {:induction false} ReadsPercent(b: Byte, text: string)
    ensures PercentDecode(Percent(b) + text) == Prepend([b], PercentDecode(text))
  {
    HexRoundTrip(b / 16);
    HexRoundTrip(b % 16);
    assert (Percent(b) + text)[3..] == text;
  }

  lemma {:induction false} PrependTwice(a: seq<Byte>, b: seq<Byte>, rest: Option<seq<Byte>>)
    ensures Prepend(a, Prepend(b, rest)) == Prepend(a + b, rest)
    ensures Prepend([], rest) == rest
  {
    if rest.Some? { assert a + (b + rest.value) == (a + b) + rest.value && [] + rest.value == rest.value; }
  }

  lemma {:induction false} ReadsPercents(bytes: seq<Byte>, text: string)
    ensures PercentDecode(Percents(bytes) + text) == Prepend(bytes, PercentDecode(text))
    decreases |bytes|
  {
    if bytes == [] {
      assert Percents(bytes) + text == text;
      PrependTwice([], [], PercentDecode(text));
    } else {
      ReadsPercents(bytes[1..], text);
      ReadsPercent(bytes[0], Percents(bytes[1..]) + text);
      Reassociate(Percent(bytes[0]), Percents(bytes[1..]), text);
      assert bytes == [bytes[0]] + bytes[1..];
      PrependTwice([bytes[0]], bytes[1..], PercentDecode(text));
    }
  }

  lemma {:induction false} ReadsEncodedChar(c: char, text: string)
    ensures PercentDecode(EncodeChar(c) + text) == Prepend(Utf8Char(c), PercentDecode(text))
  {
    if Unreserved(c) {
      assert ([c] + text)[1..] == text;
    } else {
      ReadsPercents(Utf8Char(c), text);
    }
  }

  lemma {:induction false} DecodesToUtf8(s: string)
    ensures PercentDecode(EncodeURIComponent(s)) == Some(Utf8(s))
  {
    if s != "" {
      DecodesToUtf8(s[1..]);
      ReadsEncodedChar(s[0], EncodeURIComponent(s[1..]));
    }
  }

  /** Decoding undoes encoding for every well-formed string. */
  lemma {:induction false} ComponentRoundTrip(s: string)
    ensures DecodeURIComponent(EncodeURIComponent(s)) == Some(s)
  {
    DecodesToUtf8(s);
    Utf8RoundTrip(s);
  }

  /** The alphabet of an encoded value. */
  predicate Encoded(c: char) { Unreserved(c) || c == '%' }

  lemma {:induction false} PercentsAreEncoded(bytes: seq<Byte>)
    ensures forall c <- Percents(bytes) :: Encoded(c)
  {
    if bytes != [] { PercentsAreEncoded(bytes[1..]); }
  }

  lemma {:induction false} ComponentIsEncoded(s: string)
    ensures forall c <- EncodeURIComponent(s) :: Encoded(c)
  {
    if s != "" {
      ComponentIsEncoded(s[1..]);
      PercentsAreEncoded(Utf8Char(s[0]));
    }
  }

  // ---------------------------------------------------------------- form bodies

  type Pair = (string, string)

  function EncodePair(pair: Pair): string { pair.0 + "=" + EncodeURIComponent(pair.1) }

  function Pieces(pairs: seq<Pair>): (r: seq<string>)
    ensures |r| == |pairs|
  {
    if pairs == [] then [] else [EncodePair(pairs[0])] + Pieces(pairs[1..])
  }

  function EncodePairs(pairs: seq<Pair>): string { Join(Pieces(pairs), "&") }

  function ParsePiece(piece: string): Option<Pair> {
    var parts := Split(piece, "=");
    if |parts| != 2 then None
    else
      match DecodeURIComponent(parts[1])
      case Some(value) => Some((parts[0], value))
      case None => None
  }

  function ParsePieces(pieces: seq<string>): Option<seq<Pair>> {
    if pieces == [] then Some([])
    else
      match (ParsePiece(pieces[0]), ParsePieces(pieces[1..]))
      case (Some(pair), Some(others)) => Some([pair] + others)
      case _ => None
  }

  function ParseForm(text: string): Option<seq<Pair>> { ParsePieces(Split(text, "&")) }

  /** A key that needs no encoding, as every form key here is. */
  predicate PlainKey(key: string) { '&' !in key && '=' !in key }

  lemma {:induction false} PieceHasNoAmpersand(pair: Pair)
    requires PlainKey(pair.0)
    ensures '&' !in EncodePair(pair)
  {
    ComponentIsEncoded(pair.1);
    assert !Encoded('&');
    var value := EncodeURIComponent(pair.1);
    assert '&' !in value;
    assert EncodePair(pair) == pair.0 + ("=" + value);
  }

  predicate PlainKeys(pairs: seq<Pair>) { forall pair <- pairs :: PlainKey(pair.0) }

  lemma {:induction false} PlainKeysRest(pairs: seq<Pair>)
    requires PlainKeys(pairs) && pairs != []
    ensures PlainKey(pairs[0].0) && PlainKeys(pairs[1..])
  {
    assert pairs[0] in pairs;
    forall pair <- pairs[1..] ensures PlainKey(pair.0) { assert pair in pairs; }
  }

  lemma {:induction false} PiecesHaveNoAmpersand(pairs: seq<Pair>)
    requires PlainKeys(pairs)
    ensures forall piece <- Pieces(pairs) :: '&' !in piece
  {
    if pairs != [] {
      PlainKeysRest(pairs);
      PieceHasNoAmpersand(pairs[0]);
      PiecesHaveNoAmpersand(pairs[1..]);
    }
  }

  lemma {:induction false} PieceRoundTrip(pair: Pair)
    requires PlainKey(pair.0)
    ensures ParsePiece(EncodePair(pair)) == Some(pair)
  {
    var value := EncodeURIComponent(pair.1);
    ComponentIsEncoded(pair.1);
    assert !Encoded('=');
    assert '=' !in value;
    Reassociate(pair.0, "=", value);
    SplitAfterPart(pair.0, '=', value);
    SplitWithoutSeparator(value, '=');
    assert ['='] == "=";
    ComponentRoundTrip(pair.1);
  }

  lemma {:induction false} ReadsFirstPiece(pair: Pair, pieces: seq<string>, others: seq<Pair>)
    requires PlainKey(pair.0) && ParsePieces(pieces) == Some(others)
    ensures ParsePieces([EncodePair(pair)] + pieces) == Some([pair] + others)
  {
    PieceRoundTrip(pair);
    assert ([EncodePair(pair)] + pieces)[1..] == pieces;
  }

  lemma {:induction false} PiecesRoundTrip(pairs: seq<Pair>)
    requires PlainKeys(pairs)
    ensures ParsePieces(Pieces(pairs)) == Some(pairs)
  {
    if pairs != [] {
      PlainKeysRest(pairs);
      PiecesRoundTrip(pairs[1..]);
      ReadsFirstPiece(pairs[0], Pieces(pairs[1..]), pairs[1..]);
      assert pairs == [pairs[0]] + pairs[1..];
    }
  }

  /** Splitting a body at its ampersands gives back one piece per pair. */
  lemma {:induction false} BodySplits(pairs: seq<Pair>)
    requires pairs != [] && PlainKeys(pairs)
    ensures Split(EncodePairs(pairs), "&") == Pieces(pairs)
  {
    PiecesHaveNoAmpersand(pairs);
    SplitUndoesJoin(Pieces(pairs), '&');
    assert ['&'] == "&";
  }

  /** A form body read back is the pairs it was made from: any values, in order, repeats included. */
  lemma {:induction false} FormRoundTrip(pairs: seq<Pair>)
    requires pairs != [] && PlainKeys(pairs)
    ensures ParseForm(EncodePairs(pairs)) == Some(pairs)
  {
    BodySplits(pairs);
    PiecesRoundTrip(pairs);
  }
}
