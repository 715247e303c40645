/** The incident cursor: base64url (section 5 of RFC 4648, no padding) of the time, a bar and the id. */
module Cursor {
  import opened Basics

  const BAR: byte := 124
  const MINUS: byte := 45
  const ZERO_DIGIT: byte := 48

  // ---- base64url -----------------------------------------------------------------------------

  type Sextet = s: int | 0 <= s < 64

  function ToSextets(b: seq<byte>): seq<Sextet> {
    if |b| == 0 then []
    else
      var b0 := b[0] as int;
      if |b| == 1 then [b0 / 4, b0 % 4 * 16]
      else
        var b1 := b[1] as int;
        if |b| == 2 then [b0 / 4, b0 % 4 * 16 + b1 / 16, b1 % 16 * 4]
        else
          var b2 := b[2] as int;
          [b0 / 4, b0 % 4 * 16 + b1 / 16, b1 % 16 * 4 + b2 / 64, b2 % 64] + ToSextets(b[3..])
  }

  function Join(high: int, scale: int, low: int): byte
    requires 0 <= high * scale + low < 256
  {
    (high * scale + low) as byte
  }

  /** Left-over bits of a short last group are ignored; a group of one is an error. */
  function FromSextets(s: seq<Sextet>): Option<seq<byte>> {
    if |s| == 0 then Some([])
    else if |s| == 1 then None
    else
      var b0 := Join(s[0], 4, s[1] / 16);
      if |s| == 2 then Some([b0])
      else
        var b1 := Join(s[1] % 16, 16, s[2] / 4);
        if |s| == 3 then Some([b0, b1])
        else
          var b2 := Join(s[2] % 4, 64, s[3]);
          match FromSextets(s[4..])
          case None => None
          case Some(rest) => Some([b0, b1, b2] + rest)
  }

  function LetterOf(s: Sextet): char {
    if s < 26 then ('A' as int + s) as char
    else if s < 52 then ('a' as int + s - 26) as char
    else if s < 62 then ('0' as int + s - 52) as char
    else if s == 62 then '-'
    else '_'
  }

  function SextetOf(c: char): Option<Sextet> {
    if 'A' <= c <= 'Z' then Some(c as int - 'A' as int)
    else if 'a' <= c <= 'z' then Some(c as int - 'a' as int + 26)
    else if '0' <= c <= '9' then Some(c as int - '0' as int + 52)
    else if c == '-' then Some(62)
    else if c == '_' then Some(63)
    else None
  }

  function Letters(s: seq<Sextet>): string {
    seq(|s|, i requires 0 <= i < |s| => LetterOf(s[i]))
  }

  /** The decoder skips line breaks and rejects every other foreign character, padding included. */
  function Sextets(text: string): Option<seq<Sextet>> {
    if text == "" then Some([])
    else if text[0] == '\r' || text[0] == '\n' then Sextets(text[1..])
    else
      match SextetOf(text[0])
      case None => None
      case Some(s) =>
        match Sextets(text[1..])
        case None => None
        case Some(rest) => Some([s] + rest)
  }

  function EncodeBase64(b: seq<byte>): string {
    Letters(ToSextets(b))
  }

  function DecodeBase64(text: string): Option<seq<byte>> {
    match Sextets(text)
    case None => None
    case Some(s) => FromSextets(s)
  }

  lemma TwoBytes(x: int, y: int)
    requires 0 <= x < 256 && 0 <= y < 256
    ensures x / 4 * 4 + (x % 4 * 16 + y / 16) / 16 == x
    ensures (x % 4 * 16 + y / 16) % 16 == y / 16
  {
  }

  lemma {:induction false} SextetsRoundTrip(b: seq<byte>)
    ensures FromSextets(ToSextets(b)) == Some(b)
  {
    if |b| >= 1 {
      var b0 := b[0] as int;
      if |b| == 1 {
        TwoBytes(b0, 0);
        assert b == [b[0]];
      } else {
        var b1 := b[1] as int;
        TwoBytes(b0, b1);
        if |b| == 2 {
          assert b == [b[0], b[1]];
        } else {
          var b2 := b[2] as int;
          SextetsRoundTrip(b[3..]);
          assert ToSextets(b)[4..] == ToSextets(b[3..]);
          assert b == [b[0], b[1], b[2]] + b[3..];
        }
      }
    }
  }

  lemma LetterRoundTrip(s: Sextet)
    ensures SextetOf(LetterOf(s)) == Some(s) && LetterOf(s) != '\r' && LetterOf(s) != '\n'
  {
  }

  lemma {:induction false} LettersRoundTrip(s: seq<Sextet>)
    ensures Sextets(Letters(s)) == Some(s)
  {
    if s != [] {
      LetterRoundTrip(s[0]);
      LettersRoundTrip(s[1..]);
      assert Letters(s)[1..] == Letters(s[1..]);
      assert s == [s[0]] + s[1..];
    }
  }

  lemma Base64RoundTrip(b: seq<byte>)
    ensures DecodeBase64(EncodeBase64(b)) == Some(b)
  {
    LettersRoundTrip(ToSextets(b));
    SextetsRoundTrip(b);
  }

  lemma FullGroup(b: seq<byte>, rest: seq<byte>)
    requires |b| == 3
    ensures EncodeBase64(b + rest) == EncodeBase64(b) + EncodeBase64(rest)
  {
    assert (b + rest)[3..] == rest;
    assert ToSextets(b[3..]) == [];
    assert ToSextets(b + rest) == ToSextets(b) + ToSextets(rest);
    assert Letters(ToSextets(b) + ToSextets(rest)) == Letters(ToSextets(b)) + Letters(ToSextets(rest));
  }

  /** The test vectors of section 10 of RFC 4648 without their padding, and the two letters that differ
      from plain base64. */
  lemma Base64Vectors()
    ensures EncodeBase64([102]) == "Zg" && EncodeBase64([102, 111]) == "Zm8" && EncodeBase64([102, 111, 111]) == "Zm9v"
    ensures EncodeBase64([102, 111, 111, 98]) == "Zm9vYg" && EncodeBase64([102, 111, 111, 98, 97, 114]) == "Zm9vYmFy"
    ensures EncodeBase64([251, 239, 190]) == "----" && EncodeBase64([255, 255, 255]) == "____"
  {
    assert ToSextets([102, 111, 111]) == [25, 38, 61, 47];
    assert ToSextets([98, 97, 114]) == [24, 38, 5, 50];
    assert ToSextets([251, 239, 190]) == [62, 62, 62, 62];
    assert ToSextets([255, 255, 255]) == [63, 63, 63, 63];
    FullGroup([102, 111, 111], [98]);
    FullGroup([102, 111, 111], [98, 97, 114]);
    assert [102, 111, 111] + [98] == [102, 111, 111, 98];
    assert [102, 111, 111] + [98, 97, 114] == [102, 111, 111, 98, 97, 114];
  }

  // ---- the time ------------------------------------------------------------------------------

  function Digits(n: nat): (text: seq<byte>)
    ensures text != []
  {
    if n < 10 then [ZERO_DIGIT + n as byte] else Digits(n / 10) + [ZERO_DIGIT + (n % 10) as byte]
  }

  function ParseDigits(text: seq<byte>): Option<int> {
    if text == [] then None
    else
      var last := text[|text| - 1];
      if !(ZERO_DIGIT <= last < ZERO_DIGIT + 10) then None
      else if |text| == 1 then Some((last - ZERO_DIGIT) as int)
      else
        match ParseDigits(text[..|text| - 1])
        case None => None
        case Some(n) => Some(n * 10 + (last - ZERO_DIGIT) as int)
  }

  function FormatTime(t: Time): seq<byte> {
    if t < 0 then [MINUS] + Digits(-t) else Digits(t)
  }

  function ParseTime(text: seq<byte>): Option<Time> {
    if text != [] && text[0] == MINUS then
      match ParseDigits(text[1..])
      case None => None
      case Some(n) => Some(-n)
    else
      match ParseDigits(text)
      case None => None
      case Some(n) => Some(n)
  }

  lemma {:induction false} DigitsRoundTrip(n: nat)
    ensures ParseDigits(Digits(n)) == Some(n)
    ensures forall i :: 0 <= i < |Digits(n)| ==> ZERO_DIGIT <= Digits(n)[i] < ZERO_DIGIT + 10
  {
    if n >= 10 {
      DigitsRoundTrip(n / 10);
      assert Digits(n)[..|Digits(n)| - 1] == Digits(n / 10);
    }
  }

  lemma TimeRoundTrip(t: Time)
    ensures ParseTime(FormatTime(t)) == Some(t) && BAR !in FormatTime(t)
  {
    DigitsRoundTrip(if t < 0 then -t else t);
    if t < 0 {
      assert FormatTime(t)[1..] == Digits(-t);
    } else {
      assert FormatTime(t)[0] != MINUS;
    }
  }

  // ---- the cursor ----------------------------------------------------------------------------

  function FirstBar(b: seq<byte>): (i: nat)
    ensures i <= |b| && BAR !in b[..i] && (i < |b| ==> b[i] == BAR)
  {
    if b == [] || b[0] == BAR then 0 else 1 + FirstBar(b[1..])
  }

  lemma {:induction false} BarAfter(text: seq<byte>, rest: seq<byte>)
    requires BAR !in text
    ensures FirstBar(text + [BAR] + rest) == |text|
  {
    if text != [] {
      assert (text + [BAR] + rest)[1..] == text[1..] + [BAR] + rest;
      BarAfter(text[1..], rest);
    }
  }

  function EncodeCursor(updatedAt: Time, id: Id): string {
    EncodeBase64(FormatTime(updatedAt) + [BAR] + id.bytes)
  }

  function DecodeCursor(cursor: string): Result<(Time, Id)> {
    match DecodeBase64(cursor)
    case None => Failure(InvalidCursor)
    case Some(raw) =>
      var i := FirstBar(raw);
      if i == |raw| then Failure(InvalidCursor)
      else
        match ParseTime(raw[..i])
        case None => Failure(InvalidCursor)
        case Some(t) => if raw[i + 1..] == [] then Failure(InvalidCursor) else Success((t, Id(raw[i + 1..])))
  }

  /** A cursor decodes to what was encoded exactly when the id is not empty; ids may contain bars. */
  lemma CursorRoundTrip(updatedAt: Time, id: Id)
    ensures DecodeCursor(EncodeCursor(updatedAt, id)) == Success((updatedAt, id)) <==> id != NO_ID
    ensures id == NO_ID ==> DecodeCursor(EncodeCursor(updatedAt, id)) == Failure(InvalidCursor)
    ensures EncodeCursor(updatedAt, id) != ""
  {
    var text := FormatTime(updatedAt);
    var raw := text + [BAR] + id.bytes;
    Base64RoundTrip(raw);
    TimeRoundTrip(updatedAt);
    BarAfter(text, id.bytes);
    assert raw[..|text|] == text && raw[|text| + 1..] == id.bytes;
  }
}
