/** The standard padded base64 alphabet (section 4 of RFC 4648), with the strict decoder the
    transport uses: canonical padding, no stray trailing bits, no other characters. */
module Base64 {
  import opened Wrappers
  import opened JsonValues

  type sextet = x: int | 0 <= x < 64

  function Letter(v: sextet): char {
    if v < 26 then ('A' as int + v) as char
    else if v < 52 then ('a' as int + v - 26) as char
    else if v < 62 then ('0' as int + v - 52) as char
    else if v == 62 then '+'
    else '/'
  }

  function Value(c: char): (v: Option<int>)
    ensures v.Some? ==> 0 <= v.value < 64
  {
    if 'A' <= c <= 'Z' then Some(c as int - 'A' as int)
    else if 'a' <= c <= 'z' then Some(c as int - 'a' as int + 26)
    else if '0' <= c <= '9' then Some(c as int - '0' as int + 52)
    else if c == '+' then Some(62)
    else if c == '/' then Some(63)
    else None
  }

  function Encode(b: Bytes): string {
    if |b| == 0 then ""
    else if |b| == 1 then [Letter(b[0] / 4), Letter(b[0] % 4 * 16), '=', '=']
    else if |b| == 2 then
      [Letter(b[0] / 4), Letter(b[0] % 4 * 16 + b[1] / 16), Letter(b[1] % 16 * 4), '=']
    else
      [Letter(b[0] / 4), Letter(b[0] % 4 * 16 + b[1] / 16),
       Letter(b[1] % 16 * 4 + b[2] / 64), Letter(b[2] % 64)] + Encode(b[3..])
  }

  /** Four letters without padding. */
  function DecodeFull(a: char, b: char, c: char, d: char): Option<Bytes> {
    match (Value(a), Value(b), Value(c), Value(d))
    case (Some(w), Some(x), Some(y), Some(z)) =>
      Some([w * 4 + x / 16, x % 16 * 16 + y / 4, y % 4 * 64 + z])
    case _ => None
  }

  /** The last four characters, which may carry one or two padding signs. */
  function DecodeLast(a: char, b: char, c: char, d: char): Option<Bytes> {
    if d != '=' then DecodeFull(a, b, c, d)
    else if c != '=' then
      match (Value(a), Value(b), Value(c))
      case (Some(w), Some(x), Some(y)) =>
        if y % 4 == 0 then Some([w * 4 + x / 16, x % 16 * 16 + y / 4]) else None
      case _ => None
    else
      match (Value(a), Value(b))
      case (Some(w), Some(x)) => if x % 16 == 0 then Some([w * 4 + x / 16]) else None
      case _ => None
  }

  function Decode(s: string): Option<Bytes> {
    if |s| == 0 then Some([])
    else if |s| < 4 then None
    else if |s| == 4 then DecodeLast(s[0], s[1], s[2], s[3])
    else
      match (DecodeFull(s[0], s[1], s[2], s[3]), Decode(s[4..]))
      case (Some(head), Some(tail)) => Some(head + tail)
      case _ => None
  }

  /** The alphabet of table 1 in RFC 4648: A to Z, a to z, 0 to 9, + and /. */
  lemma LettersAreStandard(v: sextet)
    ensures Letter(0) == 'A' && Letter(25) == 'Z' && Letter(26) == 'a' && Letter(51) == 'z'
    ensures Letter(52) == '0' && Letter(61) == '9' && Letter(62) == '+' && Letter(63) == '/'
    ensures v !in {25, 51, 61, 62, 63} ==> Letter(v + 1) as int == Letter(v) as int + 1
  {
  }

  /** Three bytes and the four letters they become are one number, most significant part first; one byte
      is followed by twelve zero bits and two padding signs there, two bytes by six and one. */
  lemma GroupsAreNumbers(b: Bytes)
    requires b != []
    ensures var s := Encode(b);
            && |s| >= 4 && Value(s[0]).Some? && Value(s[1]).Some?
            && var high := Value(s[0]).value * 64 + Value(s[1]).value;
               if |b| == 1 then s[2..] == "==" && high == (b[0] as int) * 16
               else
                 && Value(s[2]).Some?
                 && var middle := high * 64 + Value(s[2]).value;
                    if |b| == 2 then s[3..] == "=" && middle == (b[0] as int * 256 + b[1]) * 4
                    else
                      && Value(s[3]).Some? && s[4..] == Encode(b[3..])
                      && middle * 64 + Value(s[3]).value == (b[0] as int * 256 + b[1]) * 256 + b[2]
  {
    hide Letter, Value;
    LetterRoundTrip(b[0] / 4);
    if |b| == 1 {
      LetterRoundTrip(b[0] % 4 * 16);
    } else {
      LetterRoundTrip(b[0] % 4 * 16 + b[1] / 16);
      if |b| == 2 {
        LetterRoundTrip(b[1] % 16 * 4);
      } else {
        LetterRoundTrip(b[1] % 16 * 4 + b[2] / 64);
        LetterRoundTrip(b[2] % 64);
        assert Encode(b)[4..] == Encode(b[3..]);
      }
    }
  }

  lemma LetterRoundTrip(v: sextet)
    ensures Value(Letter(v)) == Some(v) && Letter(v) != '='
  {
  }

  lemma ValueRoundTrip(c: char)
    requires Value(c).Some?
    ensures Letter(Value(c).value) == c && c != '='
  {
  }

  lemma EncodedLengthStep(b: Bytes)
    requires |b| >= 3
    ensures |Encode(b)| == 4 + |Encode(b[3..])|
  {
  }

  lemma {:induction false} EncodedLength(b: Bytes)
    ensures |Encode(b)| == (|b| + 2) / 3 * 4
  {
    if |b| >= 3 {
      EncodedLength(b[3..]);
      EncodedLengthStep(b);
      assert (|b| + 2) / 3 == (|b[3..]| + 2) / 3 + 1;
    }
  }

  lemma PlainPrepend(a: sextet, b: sextet, c: sextet, d: sextet, rest: string)
    requires IsPlain(rest)
    ensures IsPlain([Letter(a), Letter(b), Letter(c), Letter(d)] + rest)
  {
  }

  /** JSON never escapes a base64 text. */
  lemma {:induction false} EncodedIsPlain(b: Bytes)
    ensures IsPlain(Encode(b))
  {
    if |b| >= 3 {
      EncodedIsPlain(b[3..]);
      PlainPrepend(b[0] / 4, b[0] % 4 * 16 + b[1] / 16, b[1] % 16 * 4 + b[2] / 64, b[2] % 64, Encode(b[3..]));
    }
  }

  /** The high part of one byte, then the low part of it beside the high part of the next. */
  lemma Rejoin(x: byte, low: int, scale: int, above: int)
    requires (low == 4 && scale == 16) || (low == 16 && scale == 4) || (low == 64 && scale == 1)
    requires 0 <= above < scale
    ensures 0 <= x / low && 0 <= x % low * scale + above < 64
    ensures (x % low * scale + above) / scale == x % low
    ensures (x % low * scale + above) % scale == above
  {
  }

  lemma DecodeOne(x: byte)
    ensures DecodeLast(Letter(x / 4), Letter(x % 4 * 16), '=', '=') == Some([x])
  {
    LetterRoundTrip(x / 4);
    LetterRoundTrip(x % 4 * 16);
    Rejoin(x, 4, 16, 0);
  }

  lemma DecodeTwo(x: byte, y: byte)
    ensures DecodeLast(Letter(x / 4), Letter(x % 4 * 16 + y / 16), Letter(y % 16 * 4), '=') == Some([x, y])
  {
    LetterRoundTrip(x / 4);
    LetterRoundTrip(x % 4 * 16 + y / 16);
    LetterRoundTrip(y % 16 * 4);
    Rejoin(x, 4, 16, y / 16);
    Rejoin(y, 16, 4, 0);
  }

  lemma DecodeThree(x: byte, y: byte, z: byte)
    ensures DecodeFull(Letter(x / 4), Letter(x % 4 * 16 + y / 16), Letter(y % 16 * 4 + z / 64), Letter(z % 64))
            == Some([x, y, z])
  {
    LetterRoundTrip(x / 4);
    LetterRoundTrip(x % 4 * 16 + y / 16);
    LetterRoundTrip(y % 16 * 4 + z / 64);
    LetterRoundTrip(z % 64);
    Rejoin(x, 4, 16, y / 16);
    Rejoin(y, 16, 4, z / 64);
  }

  lemma DecodePrepend(a: char, b: char, c: char, d: char, rest: string)
    requires d != '='
    requires DecodeFull(a, b, c, d).Some? && Decode(rest).Some?
    ensures Decode([a, b, c, d] + rest) == Some(DecodeFull(a, b, c, d).value + Decode(rest).value)
  {
    var s := [a, b, c, d] + rest;
    assert s[4..] == rest;
    if rest == "" {
      assert DecodeFull(a, b, c, d).value + [] == DecodeFull(a, b, c, d).value;
    }
  }

  lemma DecodeAlone(a: char, b: char, c: char, d: char)
    ensures Decode([a, b, c, d]) == DecodeLast(a, b, c, d)
  {
  }

  lemma DecodeShort1(x: byte)
    ensures Decode(Encode([x])) == Some([x])
  {
    DecodeOne(x);
    DecodeAlone(Letter(x / 4), Letter(x % 4 * 16), '=', '=');
  }

  lemma DecodeShort2(x: byte, y: byte)
    ensures Decode(Encode([x, y])) == Some([x, y])
  {
    DecodeTwo(x, y);
    DecodeAlone(Letter(x / 4), Letter(x % 4 * 16 + y / 16), Letter(y % 16 * 4), '=');
  }

  lemma DecodeStep(x: byte, y: byte, z: byte, rest: Bytes)
    requires Decode(Encode(rest)) == Some(rest)
    ensures Decode(Encode([x, y, z] + rest)) == Some([x, y, z] + rest)
  {
    var b := [x, y, z] + rest;
    assert b[3..] == rest;
    var s, t, u, v := Letter(x / 4), Letter(x % 4 * 16 + y / 16), Letter(y % 16 * 4 + z / 64), Letter(z % 64);
    assert Encode(b) == [s, t, u, v] + Encode(rest);
    DecodeThree(x, y, z);
    LetterRoundTrip(z % 64);
    DecodePrepend(s, t, u, v, Encode(rest));
  }

  /** Decoding undoes encoding. */
  lemma {:induction false} DecodeEncode(b: Bytes)
    ensures Decode(Encode(b)) == Some(b)
  {
    if |b| == 0 {
    } else if |b| == 1 {
      DecodeShort1(b[0]);
      assert b == [b[0]];
    } else if |b| == 2 {
      DecodeShort2(b[0], b[1]);
      assert b == [b[0], b[1]];
    } else {
      DecodeEncode(b[3..]);
      DecodeStep(b[0], b[1], b[2], b[3..]);
      assert b == [b[0], b[1], b[2]] + b[3..];
    }
  }

  lemma FullGroup(a: char, b: char, c: char, d: char)
    requires DecodeFull(a, b, c, d).Some?
    ensures var g := DecodeFull(a, b, c, d).value;
            |g| == 3 && Encode(g) == [a, b, c, d]
  {
    var g := DecodeFull(a, b, c, d).value;
    var w, x, y, z := Value(a).value, Value(b).value, Value(c).value, Value(d).value;
    assert g[0] / 4 == w && g[0] % 4 * 16 + g[1] / 16 == x;
    assert g[1] % 16 * 4 + g[2] / 64 == y && g[2] % 64 == z;
    ValueRoundTrip(a);
    ValueRoundTrip(b);
    ValueRoundTrip(c);
    ValueRoundTrip(d);
    assert g[3..] == [];
  }

  lemma LastGroup(a: char, b: char, c: char, d: char)
    requires DecodeLast(a, b, c, d).Some?
    ensures Encode(DecodeLast(a, b, c, d).value) == [a, b, c, d]
  {
    var g := DecodeLast(a, b, c, d).value;
    if d != '=' {
      FullGroup(a, b, c, d);
    } else {
      ValueRoundTrip(a);
      ValueRoundTrip(b);
      var w, x := Value(a).value, Value(b).value;
      if c != '=' {
        ValueRoundTrip(c);
        assert g[0] / 4 == w && g[0] % 4 * 16 + g[1] / 16 == x && g[1] % 16 * 4 == Value(c).value;
      } else {
        assert g[0] / 4 == w && g[0] % 4 * 16 == x;
      }
    }
  }

  lemma PrependGroup(a: char, b: char, c: char, d: char, tail: Bytes)
    requires DecodeFull(a, b, c, d).Some?
    ensures Encode(DecodeFull(a, b, c, d).value + tail) == [a, b, c, d] + Encode(tail)
  {
    FullGroup(a, b, c, d);
    var head := DecodeFull(a, b, c, d).value;
    assert (head + tail)[3..] == tail && head[3..] == [];
  }

  lemma EncodeDecodeLast(s: string)
    requires |s| == 4 && Decode(s).Some?
    ensures Encode(Decode(s).value) == s
  {
    DecodeAlone(s[0], s[1], s[2], s[3]);
    LastGroup(s[0], s[1], s[2], s[3]);
    assert s == [s[0], s[1], s[2], s[3]];
  }

  lemma DecodeSplit(a: char, b: char, c: char, d: char, rest: string)
    requires rest != "" && Decode([a, b, c, d] + rest).Some?
    ensures DecodeFull(a, b, c, d).Some? && Decode(rest).Some?
    ensures Decode([a, b, c, d] + rest).value == DecodeFull(a, b, c, d).value + Decode(rest).value
  {
    assert ([a, b, c, d] + rest)[4..] == rest;
  }

  lemma EncodeDecodeStep(a: char, b: char, c: char, d: char, rest: string)
    requires rest != "" && Decode([a, b, c, d] + rest).Some?
    ensures Decode(rest).Some?
    ensures Encode(Decode(rest).value) == rest
            ==> Encode(Decode([a, b, c, d] + rest).value) == [a, b, c, d] + rest
  {
    DecodeSplit(a, b, c, d, rest);
    PrependGroup(a, b, c, d, Decode(rest).value);
  }

  /** No two texts decode to the same bytes: only the canonical encoding is accepted. */
  lemma {:induction false} EncodeDecode(s: string)
    requires Decode(s).Some?
    ensures Encode(Decode(s).value) == s
  {
    if |s| == 4 {
      EncodeDecodeLast(s);
    } else if |s| > 4 {
      assert s == [s[0], s[1], s[2], s[3]] + s[4..];
      EncodeDecodeStep(s[0], s[1], s[2], s[3], s[4..]);
      EncodeDecode(s[4..]);
    }
  }
}
