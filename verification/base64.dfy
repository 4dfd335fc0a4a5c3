/** Base64 (section 4 of RFC 4648) as Python's `b64encode` prints it and as its lenient `b64decode` reads it:
    characters outside the alphabet are skipped, and a complete padding ends the input. */
module Base64 {
  import opened Wrappers

  type Byte = x: int | 0 <= x < 256
  type Bytes = seq<Byte>

  function Symbol(v: int): char
    requires 0 <= v < 64
  {
    if v < 26 then ('A' as int + v) as char
    else if v < 52 then ('a' as int + v - 26) as char
    else if v < 62 then ('0' as int + v - 52) as char
    else if v == 62 then '+' else '/'
  }

  function Sextet(c: char): Option<int> {
    if 'A' <= c <= 'Z' then Some(c as int - 'A' as int)
    else if 'a' <= c <= 'z' then Some(c as int - 'a' as int + 26)
    else if '0' <= c <= '9' then Some(c as int - '0' as int + 52)
    else if c == '+' then Some(62) else if c == '/' then Some(63) else None
  }

  function Encode(t: Bytes): string {
    if |t| == 0 then ""
    else if |t| == 1 then [Symbol(t[0] / 4), Symbol(t[0] % 4 * 16), '=', '=']
    else if |t| == 2 then [Symbol(t[0] / 4), Symbol(t[0] % 4 * 16 + t[1] / 16), Symbol(t[1] % 16 * 4), '=']
    else
      [Symbol(t[0] / 4), Symbol(t[0] % 4 * 16 + t[1] / 16), Symbol(t[1] % 16 * 4 + t[2] / 64), Symbol(t[2] % 64)]
      + Encode(t[3..])
  }

  /** The decoder between two characters: the position in the current quad, the bits left over, the padding seen. */
  datatype Position = Position(quad: int, left: int, pads: nat, out: Bytes)

  ghost predicate InRange(d: Position) {
    match d.quad
    case 0 => d.left == 0
    case 1 => 0 <= d.left < 64
    case 2 => 0 <= d.left < 16
    case 3 => 0 <= d.left < 4
    case _ => false
  }

  type Decoder = d: Position | InRange(d) witness Position(0, 0, 0, [])

  function Push(d: Decoder, v: int): (d': Decoder)
    requires 0 <= v < 64
  {
    match d.quad
    case 0 => Position(1, v, 0, d.out)
    case 1 => Position(2, v % 16, 0, d.out + [d.left * 4 + v / 16])
    case 2 => Position(3, v % 4, 0, d.out + [d.left * 16 + v / 4])
    case _ => Position(0, 0, 0, d.out + [d.left * 64 + v])
  }

  function DecodeFrom(s: string, d: Decoder): Option<Bytes> {
    if s == "" then (if d.quad == 0 then Some(d.out) else None)
    else if s[0] == '=' then
      if d.quad >= 2 && d.quad + d.pads + 1 >= 4 then Some(d.out)
      else DecodeFrom(s[1..], if d.quad >= 2 then d.(pads := d.pads + 1) else d)
    else
      match Sextet(s[0])
      case None => DecodeFrom(s[1..], d)
      case Some(v) => DecodeFrom(s[1..], Push(d, v))
  }

  /** None stands for the errors `b64decode` raises: a character that is not ASCII, or wrong padding. */
  function Decode(s: string): Option<Bytes> {
    if exists c | c in s :: c as int >= 128 then None else DecodeFrom(s, Position(0, 0, 0, []))
  }

  lemma DecodeSymbol(v: int, rest: string, d: Decoder)
    requires 0 <= v < 64
    ensures DecodeFrom([Symbol(v)] + rest, d) == DecodeFrom(rest, Push(d, v))
  {
    assert Sextet(Symbol(v)) == Some(v);
    assert ([Symbol(v)] + rest)[1..] == rest;
  }

  lemma DecodePadding(rest: string, d: Decoder)
    requires d.quad >= 2
    ensures DecodeFrom(['='] + rest, d) ==
            if d.quad + d.pads + 1 >= 4 then Some(d.out) else DecodeFrom(rest, d.(pads := d.pads + 1))
  {
    assert (['='] + rest)[1..] == rest;
  }

  lemma SplitByte(a: Byte)
    ensures 0 <= a / 4 < 64 && 0 <= a / 16 < 16 && 0 <= a / 64 < 4
    ensures a / 4 * 4 + a % 4 == a && a / 16 * 16 + a % 16 == a && a / 64 * 64 + a % 64 == a
  {
  }

  /** The first symbol of a quad and the high part of the second give back the first byte. */
  lemma FirstByte(a: Byte, high: int, rest: string, out: Bytes)
    requires 0 <= high < 16
    ensures DecodeFrom([Symbol(a / 4)] + ([Symbol(a % 4 * 16 + high)] + rest), Position(0, 0, 0, out))
         == DecodeFrom(rest, Position(2, high, 0, out + [a]))
  {
    SplitByte(a);
    var v1 := a % 4 * 16 + high;
    assert v1 / 16 == a % 4 && v1 % 16 == high;
    DecodeSymbol(a / 4, [Symbol(v1)] + rest, Position(0, 0, 0, out));
    DecodeSymbol(v1, rest, Position(1, a / 4, 0, out));
  }

  lemma SecondByte(b: Byte, high: int, rest: string, out: Bytes)
    requires 0 <= high < 4
    ensures DecodeFrom([Symbol(b % 16 * 4 + high)] + rest, Position(2, b / 16, 0, out))
         == DecodeFrom(rest, Position(3, high, 0, out + [b]))
  {
    SplitByte(b);
    var v2 := b % 16 * 4 + high;
    assert v2 / 4 == b % 16 && v2 % 4 == high;
    DecodeSymbol(v2, rest, Position(2, b / 16, 0, out));
  }

  lemma ThirdByte(c: Byte, rest: string, out: Bytes)
    ensures DecodeFrom([Symbol(c % 64)] + rest, Position(3, c / 64, 0, out))
         == DecodeFrom(rest, Position(0, 0, 0, out + [c]))
  {
    SplitByte(c);
    DecodeSymbol(c % 64, rest, Position(3, c / 64, 0, out));
  }

  lemma DecodeOne(a: Byte, out: Bytes, rest: string)
    ensures DecodeFrom(Encode([a]) + rest, Position(0, 0, 0, out)) == Some(out + [a])
  {
    var tail := ['='] + (['='] + rest);
    FirstByte(a, 0, tail, out);
    assert Encode([a]) + rest == [Symbol(a / 4)] + ([Symbol(a % 4 * 16 + 0)] + tail);
    DecodePadding(['='] + rest, Position(2, 0, 0, out + [a]));
    DecodePadding(rest, Position(2, 0, 1, out + [a]));
  }

  lemma DecodeTwo(a: Byte, b: Byte, out: Bytes, rest: string)
    ensures DecodeFrom(Encode([a, b]) + rest, Position(0, 0, 0, out)) == Some(out + [a, b])
  {
    SplitByte(b);
    var tail := [Symbol(b % 16 * 4 + 0)] + (['='] + rest);
    FirstByte(a, b / 16, tail, out);
    SecondByte(b, 0, ['='] + rest, out + [a]);
    DecodePadding(rest, Position(3, 0, 0, out + [a] + [b]));
    assert Encode([a, b]) + rest == [Symbol(a / 4)] + ([Symbol(a % 4 * 16 + b / 16)] + tail);
    assert out + [a] + [b] == out + [a, b];
  }

  lemma FourSymbols(s0: char, s1: char, s2: char, s3: char, rest: string)
    ensures [s0, s1, s2, s3] + rest == [s0] + ([s1] + ([s2] + ([s3] + rest)))
  {
  }

  lemma DecodeThree(a: Byte, b: Byte, c: Byte, rest: string, out: Bytes)
    ensures DecodeFrom([Symbol(a / 4), Symbol(a % 4 * 16 + b / 16), Symbol(b % 16 * 4 + c / 64), Symbol(c % 64)] + rest,
                       Position(0, 0, 0, out))
         == DecodeFrom(rest, Position(0, 0, 0, out + [a, b, c]))
  {
    SplitByte(b);
    SplitByte(c);
    var tail3 := [Symbol(c % 64)] + rest;
    var tail2 := [Symbol(b % 16 * 4 + c / 64)] + tail3;
    FirstByte(a, b / 16, tail2, out);
    SecondByte(b, c / 64, tail3, out + [a]);
    ThirdByte(c, rest, out + [a] + [b]);
    FourSymbols(Symbol(a / 4), Symbol(a % 4 * 16 + b / 16), Symbol(b % 16 * 4 + c / 64), Symbol(c % 64), rest);
    assert out + [a] + [b] + [c] == out + [a, b, c];
  }

  lemma DecodeQuad(t: Bytes, out: Bytes, rest: string)
    requires |t| >= 3
    ensures DecodeFrom(Encode(t) + rest, Position(0, 0, 0, out))
         == DecodeFrom(Encode(t[3..]) + rest, Position(0, 0, 0, out + [t[0], t[1], t[2]]))
  {
    var a, b, c := t[0], t[1], t[2];
    var quad := [Symbol(a / 4), Symbol(a % 4 * 16 + b / 16), Symbol(b % 16 * 4 + c / 64), Symbol(c % 64)];
    assert Encode(t) + rest == quad + (Encode(t[3..]) + rest);
    DecodeThree(a, b, c, Encode(t[3..]) + rest, out);
  }

  lemma FirstThree(t: Bytes, out: Bytes)
    requires |t| >= 3
    ensures out + [t[0], t[1], t[2]] + t[3..] == out + t
  {
  }

  lemma DecodeShort(t: Bytes, out: Bytes, rest: string)
    requires |t| < 3 && (|t| == 0 ==> rest == "")
    ensures DecodeFrom(Encode(t) + rest, Position(0, 0, 0, out)) == Some(out + t)
  {
    if |t| == 0 {
      assert out + t == out;
    } else if |t| == 1 {
      assert t == [t[0]];
      DecodeOne(t[0], out, rest);
    } else {
      assert t == [t[0], t[1]];
      DecodeTwo(t[0], t[1], out, rest);
    }
  }

  lemma {:induction false} DecodeEncodeFrom(t: Bytes, out: Bytes, rest: string)
    requires |t| % 3 == 0 ==> rest == ""
    ensures DecodeFrom(Encode(t) + rest, Position(0, 0, 0, out)) == Some(out + t)
    decreases |t|
  {
    if |t| < 3 {
      DecodeShort(t, out, rest);
    } else {
      var out' := out + [t[0], t[1], t[2]];
      DecodeEncodeFrom(t[3..], out', rest);
      FirstThree(t, out);
      DecodeQuad(t, out, rest);
    }
  }

  /** The characters an encoding is made of. */
  predicate Printed(c: char) {
    Sextet(c) != None || c == '='
  }

  lemma {:induction false} EncodePrints(t: Bytes)
    ensures forall c | c in Encode(t) :: Printed(c)
    decreases |t|
  {
    if |t| >= 3 {
      EncodePrints(t[3..]);
    }
  }

  /** Decoding undoes encoding, for every byte string. */
  lemma DecodeEncode(t: Bytes)
    ensures Decode(Encode(t)) == Some(t)
  {
    EncodePrints(t);
    DecodeEncodeFrom(t, [], "");
    assert Encode(t) + "" == Encode(t);
    assert [] + t == t;
  }

  /** The test vectors in section 10 of RFC 4648. */
  lemma TestVectors()
    ensures Encode([102]) == "Zg==" && Encode([102, 111]) == "Zm8=" && Encode([102, 111, 111]) == "Zm9v"
    ensures Encode([102, 111, 111, 98, 97, 114]) == "Zm9vYmFy"
    ensures Encode([251, 240]) == "+/A="
  {
    assert [102, 111, 111, 98, 97, 114][3..] == [98, 97, 114];
  }

  predicate Alphabet(c: char) {
    'A' <= c <= 'Z' || 'a' <= c <= 'z' || '0' <= c <= '9' || c == '+' || c == '/'
  }

  // What the lenient decoder makes of other texts.

  lemma {:induction false} SkipFrom(a: string, c: char, b: string, d: Decoder)
    requires !Alphabet(c) && c != '='
    ensures DecodeFrom(a + [c] + b, d) == DecodeFrom(a + b, d)
    decreases |a|
  {
    if a == "" {
      assert a + [c] + b == [c] + b && a + b == b;
      assert ([c] + b)[1..] == b;
    } else {
      assert (a + [c] + b)[1..] == a[1..] + [c] + b && (a + b)[1..] == a[1..] + b;
      if a[0] == '=' {
        SkipFrom(a[1..], c, b, if d.quad >= 2 then d.(pads := d.pads + 1) else d);
      } else if Sextet(a[0]) == None {
        SkipFrom(a[1..], c, b, d);
      } else {
        SkipFrom(a[1..], c, b, Push(d, Sextet(a[0]).value));
      }
    }
  }

  /** An ASCII character outside the alphabet makes no difference, wherever it stands. */
  lemma ForeignCharacterIsSkipped(a: string, c: char, b: string)
    requires !Alphabet(c) && c != '=' && c as int < 128
    ensures Decode(a + [c] + b) == Decode(a + b)
  {
    SkipFrom(a, c, b, Position(0, 0, 0, []));
    if x :| x in a + [c] + b && x as int >= 128 {
      assert x in a + b;
    }
    if x :| x in a + b && x as int >= 128 {
      assert x in a + [c] + b;
    }
  }

  /** One that is not ASCII makes the text malformed. */
  lemma NonAsciiIsRefused(a: string, c: char, b: string)
    requires c as int >= 128
    ensures Decode(a + [c] + b) == None
  {
    var s := a + [c] + b;
    assert s[|a|] == c;
    assert c in s;
  }

  lemma {:induction false} WholeFrom(s: string, d: Decoder)
    requires forall c | c in s :: Alphabet(c)
    ensures DecodeFrom(s, d).Some? <==> (d.quad + |s|) % 4 == 0
    decreases |s|
  {
    if s != "" {
      assert s[0] in s && Sextet(s[0]).Some?;
      WholeFrom(s[1..], Push(d, Sextet(s[0]).value));
    }
  }

  /** Without padding exactly the texts of whole quads can be decoded. */
  lemma UnpaddedDecodesIffWhole(s: string)
    requires forall c | c in s :: Alphabet(c)
    ensures Decode(s).Some? <==> |s| % 4 == 0
  {
    WholeFrom(s, Position(0, 0, 0, []));
  }

  /** A complete padding ends the input, whatever follows it. */
  lemma CompletePaddingEnds(t: Bytes, rest: string)
    requires |t| % 3 != 0 && forall c | c in rest :: c as int < 128
    ensures Decode(Encode(t) + rest) == Some(t)
  {
    EncodePrints(t);
    DecodeEncodeFrom(t, [], rest);
    assert [] + t == t;
  }
}
