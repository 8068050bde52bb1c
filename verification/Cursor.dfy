/** Cursors: an offset written as text and put in base64. */
module Cursor {
  import opened Common
  import opened Base64

  // ---------- cursors ----------

  const PREFIX := "offset:"

  function AsciiByte(c: char): Byte
    requires c as int < 128
  {
    c as int
  }

  predicate Ascii(s: string) {
    forall i :: 0 <= i < |s| ==> s[i] as int < 128
  }

  function Bytes(s: string): seq<Byte>
    requires Ascii(s)
  {
    seq(|s|, i requires 0 <= i < |s| => AsciiByte(s[i]))
  }

  /** The text of ASCII bytes. */
  function Text(bytes: seq<Byte>): Option<string> {
    if forall i :: 0 <= i < |bytes| ==> bytes[i] < 128 then
      Some(seq(|bytes|, i requires 0 <= i < |bytes| => (bytes[i] % 128) as char))
    else None
  }

  predicate IsDigit(c: char) {
    '0' <= c <= '9'
  }

  /** Digits, with single underscores allowed between them. */
  function DigitsValue(s: string): Option<nat> {
    if s == "" || !IsDigit(s[|s| - 1]) then None
    else
      var digit, before := s[|s| - 1] as int - 48, s[..|s| - 1];
      if before == "" then Some(digit)
      else
        var higher := DigitsValue(if before[|before| - 1] == '_' then before[..|before| - 1] else before);
        if higher.Some? then Some(10 * higher.value + digit) else None
  }

  function Trimmed(s: string): string {
    if s != "" && IsAsciiSpace(s[0]) then Trimmed(s[1..])
    else if s != "" && IsAsciiSpace(s[|s| - 1]) then Trimmed(s[..|s| - 1])
    else s
  }

  /** What int() makes of ASCII text: spaces around, an optional sign, then digits. */
  function ParsedInt(s: string): Option<int> {
    var t := Trimmed(s);
    if t != "" && (t[0] == '-' || t[0] == '+') then
      var magnitude := DigitsValue(t[1..]);
      if magnitude.None? then None else Some(if t[0] == '-' then 0 - magnitude.value as int else magnitude.value as int)
    else
      var value := DigitsValue(t);
      if value.None? then None else Some(value.value as int)
  }

  function CursorText(offset: nat): (text: string)
    ensures Ascii(text) && text == PREFIX + Decimal(offset)
  {
    CursorTextAscii(offset);
    PREFIX + Decimal(offset)
  }

  lemma {:induction false} CursorTextAscii(offset: nat)
    ensures Ascii(PREFIX + Decimal(offset))
  {
    DecimalNonempty(offset);
    var text := PREFIX + Decimal(offset);
    forall i | 0 <= i < |text| ensures text[i] as int < 128 {
      if i >= |PREFIX| {
        assert text[i] in Decimal(offset);
      }
    }
  }

  function EncodeCursor(offset: nat): string {
    Encode(Bytes(CursorText(offset)))
  }

  /** None for a cursor that is not valid. */
  function DecodeCursor(cursor: Option<string>): Option<nat> {
    if cursor.None? || cursor.value == "" then Some(0)
    else if !Ascii(cursor.value) then None
    else
      var bytes := Decode(cursor.value);
      var text := if bytes.Some? then Text(bytes.value) else None;
      if text.None? || !(PREFIX <= text.value) then None
      else
        var offset := ParsedInt(text.value[|PREFIX|..]);
        if offset.None? then None else Some(if offset.value < 0 then 0 else offset.value)
  }

  lemma {:induction false} DigitsOfDecimal(n: nat)
    ensures DigitsValue(Decimal(n)) == Some(n)
  {
    var s := Decimal(n);
    if n < 10 {
    } else {
      DigitsOfDecimal(n / 10);
      DecimalNonempty(n / 10);
      var before := s[..|s| - 1];
      assert before == Decimal(n / 10);
      assert before[|before| - 1] in before;
    }
  }

  lemma {:induction false} IntOfDecimal(n: nat)
    ensures ParsedInt(Decimal(n)) == Some(n)
  {
    var s := Decimal(n);
    DecimalNonempty(n);
    assert s[0] in s && s[|s| - 1] in s;
    assert Trimmed(s) == s;
    DigitsOfDecimal(n);
  }

  lemma {:induction false} TextOfBytes(s: string)
    requires Ascii(s)
    ensures Text(Bytes(s)) == Some(s)
  {
    var bytes := Bytes(s);
    assert forall i :: 0 <= i < |s| ==> bytes[i] == s[i] as int;
    var text := seq(|bytes|, i requires 0 <= i < |bytes| => (bytes[i] % 128) as char);
    assert text == s;
  }

  lemma {:induction false} EncodeNonempty(bytes: seq<Byte>)
    requires bytes != []
    ensures Encode(bytes) != "" && Ascii(Encode(bytes))
    decreases |bytes|
  {
    if |bytes| > 3 {
      EncodeNonempty(bytes[3..]);
    }
  }

  /** Decoding a cursor gives back the offset it was made from. */
  lemma {:induction false} CursorRoundTrip(offset: nat)
    ensures DecodeCursor(Some(EncodeCursor(offset))) == Some(offset)
    ensures Ascii("offset:" + Decimal(offset)) && EncodeCursor(offset) == Encode(Bytes("offset:" + Decimal(offset)))
  {
    var text := CursorText(offset);
    EncodeNonempty(Bytes(text));
    DecodeEncode(Bytes(text));
    TextOfBytes(text);
    assert text[|PREFIX|..] == Decimal(offset);
    IntOfDecimal(offset);
  }

  // ---------- cursors that were not made by the tool ----------

  /** What a cursor made of any ASCII text is read as: what int() makes of the part after the prefix, but not less than
      zero, and nothing without the prefix. */
  lemma {:induction false} ForeignCursor(text: string)
    requires text != "" && Ascii(text)
    ensures DecodeCursor(Some(Encode(Bytes(text)))) ==
            if |text| >= 7 && text[..7] == "offset:" && ParsedInt(text[7..]).Some?
            then Some(if ParsedInt(text[7..]).value < 0 then 0 else ParsedInt(text[7..]).value) else None
  {
    EncodeNonempty(Bytes(text));
    DecodeEncode(Bytes(text));
    TextOfBytes(text);
    assert PREFIX <= text <==> |text| >= 7 && text[..7] == "offset:";
  }

  lemma {:induction false} SignedIsTrimmed(sign: char, n: nat)
    requires !IsAsciiSpace(sign)
    ensures Trimmed([sign] + Decimal(n)) == [sign] + Decimal(n)
  {
    DecimalNonempty(n);
    var s := Decimal(n);
    var t := [sign] + s;
    assert s[|s| - 1] in s;
    assert t[0] == sign && t[|t| - 1] == s[|s| - 1];
  }

  lemma {:induction false} SignedIs(sign: char, n: nat)
    requires sign == '-' || sign == '+'
    ensures ParsedInt([sign] + Decimal(n)) == Some(if sign == '-' then 0 - n as int else n)
  {
    SignedIsTrimmed(sign, n);
    DigitsOfDecimal(n);
    assert ([sign] + Decimal(n))[1..] == Decimal(n);
  }

  /** Signed numerals are read with their sign. */
  lemma {:induction false} SignedDecimal(n: nat)
    ensures ParsedInt(Decimal(n)) == Some(n) && ParsedInt("-" + Decimal(n)) == Some(0 - n as int)
    ensures ParsedInt("+" + Decimal(n)) == Some(n)
  {
    IntOfDecimal(n);
    SignedIs('-', n);
    SignedIs('+', n);
  }
}
