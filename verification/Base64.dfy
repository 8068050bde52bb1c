/** The URL-safe base64 of section 5 of RFC 4648, with a decoder that skips what is not in the alphabet. */
module Base64 {
  import opened Common

  type Byte = b: int | 0 <= b < 256
  type Sextet = v: int | 0 <= v < 64

  function Symbol(v: Sextet): char {
    if v < 26 then (v + 65) as char
    else if v < 52 then (v + 71) as char
    else if v < 62 then (v - 4) as char
    else if v == 62 then '-' else '_'
  }

  /** The decoder also takes the standard alphabet's last two symbols. */
  function Value(c: char): Option<Sextet> {
    if 'A' <= c <= 'Z' then Some(c as int - 65)
    else if 'a' <= c <= 'z' then Some(c as int - 71)
    else if '0' <= c <= '9' then Some(c as int + 4)
    else if c == '-' || c == '+' then Some(62)
    else if c == '_' || c == '/' then Some(63)
    else None
  }

  lemma {:induction false} ValueOfSymbol(v: Sextet)
    ensures Value(Symbol(v)) == Some(v) && Symbol(v) != '='
  {
    if v < 26 {
      assert (v + 65) as char as int == v + 65;
    } else if v < 52 {
      assert (v + 71) as char as int == v + 71;
    } else if v < 62 {
      assert (v - 4) as char as int == v - 4;
    }
  }

  /** The symbols of three bytes; a missing byte counts as zero. */
  function Quad(a: Byte, b: Byte, c: Byte): (symbols: string)
    ensures |symbols| == 4
  {
    [Symbol(a / 4), Symbol(a % 4 * 16 + b / 16), Symbol(b % 16 * 4 + c / 64), Symbol(c % 64)]
  }

  function Encode(bytes: seq<Byte>): string {
    if bytes == [] then ""
    else if |bytes| == 1 then Quad(bytes[0], 0, 0)[..2] + "=="
    else if |bytes| == 2 then Quad(bytes[0], bytes[1], 0)[..3] + "="
    else Quad(bytes[0], bytes[1], bytes[2]) + Encode(bytes[3..])
  }

  /** The place in the group of four, the bits left over, the pads seen there, the bytes so far, and whether padding has
      ended the text. */
  datatype Decoder = Decoder(place: nat, left: nat, pads: nat, out: seq<Byte>, done: bool)

  const START := Decoder(0, 0, 0, [], false)

  function Feed(d: Decoder, c: char): Decoder {
    if d.done then d
    else if c == '=' then
      if d.place < 2 then d
      else d.(pads := d.pads + 1, done := d.place + d.pads + 1 >= 4)
    else
      match Value(c)
      case None => d
      case Some(v) =>
        if d.place == 0 then Decoder(1, v, 0, d.out, false)
        else if d.place == 1 then Decoder(2, v % 16, 0, d.out + [(d.left * 4 + v / 16) % 256], false)
        else if d.place == 2 then Decoder(3, v % 4, 0, d.out + [(d.left * 16 + v / 4) % 256], false)
        else Decoder(0, 0, 0, d.out + [(d.left * 64 + v) % 256], false)
  }

  function FeedAll(d: Decoder, s: string): Decoder
    decreases |s|
  {
    if s == "" then d else FeedAll(Feed(d, s[0]), s[1..])
  }

  function Decode(s: string): Option<seq<Byte>> {
    var d := FeedAll(START, s);
    if d.done || d.place == 0 then Some(d.out) else None
  }

  // ---------- decoding undoes encoding ----------

  lemma {:induction false} FeedTwo(out: seq<Byte>, a: Byte, b: Byte)
    ensures Feed(Feed(START.(out := out), Symbol(a / 4)), Symbol(a % 4 * 16 + b / 16))
         == Decoder(2, b / 16, 0, out + [a], false)
  {
    ValueOfSymbol(a / 4);
    ValueOfSymbol(a % 4 * 16 + b / 16);
    assert a / 4 * 4 + (a % 4 * 16 + b / 16) / 16 == a;
  }

  lemma {:induction false} FeedThird(out: seq<Byte>, b: Byte, c: Byte)
    ensures Feed(Decoder(2, b / 16, 0, out, false), Symbol(b % 16 * 4 + c / 64))
            == Decoder(3, c / 64, 0, out + [b], false)
  {
    ValueOfSymbol(b % 16 * 4 + c / 64);
    assert b / 16 * 16 + (b % 16 * 4 + c / 64) / 4 == b;
  }

  lemma {:induction false} FeedFourth(out: seq<Byte>, c: Byte)
    ensures Feed(Decoder(3, c / 64, 0, out, false), Symbol(c % 64)) == START.(out := out + [c])
  {
    ValueOfSymbol(c % 64);
  }

  lemma {:induction false} FeedAllFour(d: Decoder, s: string, rest: string)
    requires |s| == 4
    ensures FeedAll(d, s + rest) == FeedAll(Feed(Feed(Feed(Feed(d, s[0]), s[1]), s[2]), s[3]), rest)
  {
    var t := s + rest;
    assert t[1..][1..] == t[2..] && t[2..][1..] == t[3..] && t[3..][1..] == t[4..] == rest;
    assert FeedAll(d, t) == FeedAll(Feed(d, t[0]), t[1..]);
    assert t[1..][0] == s[1] && t[2..][0] == s[2] && t[3..][0] == s[3];
    assert FeedAll(Feed(Feed(d, s[0]), s[1]), t[2..]) == FeedAll(Feed(Feed(Feed(d, s[0]), s[1]), s[2]), t[3..]);
  }

  lemma {:induction false} FeedGroup(out: seq<Byte>, a: Byte, b: Byte, c: Byte, rest: string)
    ensures FeedAll(START.(out := out), Quad(a, b, c) + rest) == FeedAll(START.(out := out + [a, b, c]), rest)
  {
    FeedAllFour(START.(out := out), Quad(a, b, c), rest);
    FeedTwo(out, a, b);
    FeedThird(out + [a], b, c);
    FeedFourth(out + [a] + [b], c);
    assert out + [a] + [b] + [c] == out + [a, b, c];
  }

  lemma {:induction false} FeedLastOne(out: seq<Byte>, a: Byte)
    ensures var d := FeedAll(START.(out := out), Quad(a, 0, 0)[..2] + "=="); d.done && d.out == out + [a]
  {
    var s := Quad(a, 0, 0)[..2] + "==";
    FeedAllFour(START.(out := out), s, "");
    assert s + "" == s;
    FeedTwo(out, a, 0);
  }

  lemma {:induction false} FeedLastTwo(out: seq<Byte>, a: Byte, b: Byte)
    ensures var d := FeedAll(START.(out := out), Quad(a, b, 0)[..3] + "="); d.done && d.out == out + [a, b]
  {
    var s := Quad(a, b, 0)[..3] + "=";
    FeedAllFour(START.(out := out), s, "");
    assert s + "" == s;
    FeedTwo(out, a, b);
    FeedThird(out + [a], b, 0);
    assert out + [a] + [b] == out + [a, b];
  }

  lemma {:induction false} FeedEncoded(out: seq<Byte>, bytes: seq<Byte>)
    ensures var d := FeedAll(START.(out := out), Encode(bytes)); (d.done || d.place == 0) && d.out == out + bytes
    decreases |bytes|
  {
    if |bytes| == 1 {
      FeedLastOne(out, bytes[0]);
      assert bytes == [bytes[0]];
    } else if |bytes| == 2 {
      FeedLastTwo(out, bytes[0], bytes[1]);
      assert bytes == [bytes[0], bytes[1]];
    } else if |bytes| > 2 {
      var group := [bytes[0], bytes[1], bytes[2]];
      FeedGroup(out, bytes[0], bytes[1], bytes[2], Encode(bytes[3..]));
      FeedEncoded(out + group, bytes[3..]);
      assert out + group + bytes[3..] == out + bytes;
    }
  }

  lemma {:induction false} DecodeEncode(bytes: seq<Byte>)
    ensures Decode(Encode(bytes)) == Some(bytes)
  {
    FeedEncoded([], bytes);
    assert [] + bytes == bytes;
  }

  // ---------- the encoding itself ----------

  /** The symbols are the letters, upper and then lower case, the digits, the dash and the underscore, as in table 2 of
      RFC 4648. */
  lemma {:induction false} AlphabetIs(v: Sextet)
    ensures v < 26 ==> Symbol(v) as int == 'A' as int + v
    ensures 26 <= v < 52 ==> Symbol(v) as int == 'a' as int + v - 26
    ensures 52 <= v < 62 ==> Symbol(v) as int == '0' as int + v - 52
    ensures Symbol(62) == '-' && Symbol(63) == '_'
  {
  }

  /** The values of four symbols, read as one number in base 64, are three bytes, read as one in base 256. */
  lemma {:induction false} QuadIsNumber(a: Byte, b: Byte, c: Byte)
    ensures var q := Quad(a, b, c);
            && (forall i :: 0 <= i < 4 ==> Value(q[i]).Some?)
            && Value(q[0]).value * 262144 + Value(q[1]).value * 4096 + Value(q[2]).value * 64 + Value(q[3]).value
               == a * 65536 + b * 256 + c
  {
    ValueOfSymbol(a / 4);
    ValueOfSymbol(a % 4 * 16 + b / 16);
    ValueOfSymbol(b % 16 * 4 + c / 64);
    ValueOfSymbol(c % 64);
  }

  /** Two of the examples of section 10 of RFC 4648. */
  lemma {:induction false} Examples()
    ensures Encode([102]) == "Zg==" && Encode([102, 111]) == "Zm8=" && Encode([102, 111, 111]) == "Zm9v"
  {
    assert [102, 111, 111][3..] == [];
    assert Encode([]) == "";
  }
}
