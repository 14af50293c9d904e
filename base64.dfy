/**
  The base64 encoding of section 4 of RFC 4648: the 64-character alphabet of
  its table 1, output in groups of four characters, and the final quantum
  padded with '='. The decoder is the strict one section 3.5 allows: it
  rejects characters outside the alphabet, padding anywhere but at the end,
  and padded quanta whose unused bits are not zero, so that every accepted
  text is the encoding of exactly one octet sequence.
*/
module Base64 {
  import opened Wrappers
  import opened Octets

  /** The value of one base64 character: six bits. */
  type sextet = x: int | 0 <= x < 64

  const Pad: char := '='

  /** The character that stands for `v` in table 1 of RFC 4648. */
  function DigitChar(v: sextet): (c: char)
    ensures c != Pad
    ensures DigitValue(c) == Some(v)
  {
    if v < 26 then ('A' as int + v) as char
    else if v < 52 then ('a' as int + (v - 26)) as char
    else if v < 62 then ('0' as int + (v - 52)) as char
    else if v == 62 then '+'
    else '/'
  }

  /** The value a character stands for, or None when it is not in the alphabet. */
  function DigitValue(c: char): (r: Option<sextet>)
  {
    if 'A' <= c <= 'Z' then Some(c as int - 'A' as int)
    else if 'a' <= c <= 'z' then Some(c as int - 'a' as int + 26)
    else if '0' <= c <= '9' then Some(c as int - '0' as int + 52)
    else if c == '+' then Some(62)
    else if c == '/' then Some(63)
    else None
  }

  /** Every character of the alphabet is the digit of the value it stands for, and the pad is none. */
  lemma DigitValueInverse(c: char)
    ensures DigitValue(c).Some? ==> DigitChar(DigitValue(c).value) == c
    ensures DigitValue(Pad).None?
  {
  }

  /** A full 24-bit group: three octets become four characters. */
  function EncodeGroup(x: octet, y: octet, z: octet): (s: string)
  {
    [ DigitChar(x as int / 4),
      DigitChar(x as int % 4 * 16 + y as int / 16),
      DigitChar(y as int % 16 * 4 + z as int / 64),
      DigitChar(z as int % 64) ]
  }

  /** A final quantum of sixteen bits: three characters and one pad. */
  function EncodeFinal2(x: octet, y: octet): (s: string)
  {
    [ DigitChar(x as int / 4),
      DigitChar(x as int % 4 * 16 + y as int / 16),
      DigitChar(y as int % 16 * 4),
      Pad ]
  }

  /** A final quantum of eight bits: two characters and two pads. */
  function EncodeFinal1(x: octet): (s: string)
  {
    [ DigitChar(x as int / 4),
      DigitChar(x as int % 4 * 16),
      Pad,
      Pad ]
  }

  /** The base64 text of `b`: four characters for every started group of three octets. */
  function Encode(b: seq<octet>): (s: string)
    ensures |s| == 4 * ((|b| + 2) / 3)
    decreases |b|
  {
    if |b| == 0 then ""
    else if |b| == 1 then EncodeFinal1(b[0])
    else if |b| == 2 then EncodeFinal2(b[0], b[1])
    else EncodeGroup(b[0], b[1], b[2]) + Encode(b[3..])
  }

  /** Four values back to the three octets they carry. */
  function DecodeGroup(a: sextet, b: sextet, c: sextet, d: sextet): (g: seq<octet>)
  {
    [ (a * 4 + b / 16) as octet,
      (b % 16 * 16 + c / 4) as octet,
      (c % 4 * 64 + d) as octet ]
  }

  /**
    One quantum of four characters. Only the `last` quantum may carry padding,
    and then the bits the padding leaves unused must be zero.
  */
  function DecodeQuantum(q: string, last: bool): (r: Option<seq<octet>>)
    requires |q| == 4
    ensures r.Some? ==> 1 <= |r.value| <= 3 && (!last ==> |r.value| == 3)
  {
    var a, b, c, d := DigitValue(q[0]), DigitValue(q[1]), DigitValue(q[2]), DigitValue(q[3]);
    if a.None? || b.None? then None
    else if c.Some? && d.Some? then Some(DecodeGroup(a.value, b.value, c.value, d.value))
    else if !last then None
    else if c.Some? && q[3] == Pad && c.value % 4 == 0 then
      Some([ (a.value * 4 + b.value / 16) as octet, (b.value % 16 * 16 + c.value / 4) as octet ])
    else if q[2] == Pad && q[3] == Pad && b.value % 16 == 0 then
      Some([ (a.value * 4 + b.value / 16) as octet ])
    else None
  }

  /** The octets a base64 text stands for, or None when the text is not a canonical encoding. */
  function Decode(s: string): (r: Option<seq<octet>>)
    decreases |s|
  {
    if |s| == 0 then Some([])
    else if |s| < 4 then None
    else match DecodeQuantum(s[..4], |s| == 4)
      case None => None
      case Some(g) =>
        match Decode(s[4..])
        case None => None
        case Some(rest) => Some(g + rest)
  }

  /** Splitting `hi * k + lo` at a power of two `k` gives back its two parts. */
  lemma DivModParts(hi: int, lo: int, k: int)
    requires k == 4 || k == 16 || k == 64
    requires 0 <= lo < k
    ensures (hi * k + lo) / k == hi && (hi * k + lo) % k == lo
  {
  }

  /** The values of the first two characters of a quantum carry the first octet and the top bits of the second. */
  lemma FirstTwoDigits(x: int, y: int)
    requires 0 <= x < 256 && 0 <= y < 256
    ensures var b: int := x % 4 * 16 + y / 16;
            0 <= b < 64 && x / 4 * 4 + b / 16 == x && b % 16 == y / 16
  {
    DivModParts(x % 4, y / 16, 16);
  }

  /** The three octets a group of values `a`, `b`, `c`, `d` carries. */
  lemma GroupOfOctets(x: octet, y: octet, z: octet, a: sextet, b: sextet, c: sextet, d: sextet)
    requires a * 4 + b / 16 == x as int && b % 16 * 16 + c / 4 == y as int && c % 4 * 64 + d == z as int
    ensures DecodeGroup(a, b, c, d) == [x, y, z]
  {
  }

  lemma GroupRoundTrip(x: octet, y: octet, z: octet, last: bool)
    ensures DecodeQuantum(EncodeGroup(x, y, z), last) == Some([x, y, z])
  {
    var xi, yi, zi := x as int, y as int, z as int;
    FirstTwoDigits(xi, yi);
    var b, c := xi % 4 * 16 + yi / 16, yi % 16 * 4 + zi / 64;
    DivModParts(yi % 16, zi / 64, 4);
    assert b % 16 * 16 + c / 4 == yi;
    assert c % 4 * 64 + zi % 64 == zi;
    GroupOfOctets(x, y, z, xi / 4, b, c, zi % 64);
    var q := EncodeGroup(x, y, z);
    assert DigitValue(q[0]) == Some(xi / 4);
    assert DigitValue(q[1]) == Some(b);
    assert DigitValue(q[2]) == Some(c);
    assert DigitValue(q[3]) == Some(zi % 64);
  }

  lemma Final2RoundTrip(x: octet, y: octet)
    ensures DecodeQuantum(EncodeFinal2(x, y), true) == Some([x, y])
  {
    var xi, yi := x as int, y as int;
    FirstTwoDigits(xi, yi);
    var b, c := xi % 4 * 16 + yi / 16, yi % 16 * 4;
    DivModParts(yi % 16, 0, 4);
    assert b % 16 * 16 + c / 4 == yi;
    var q := EncodeFinal2(x, y);
    assert DigitValue(q[0]) == Some(xi / 4);
    assert DigitValue(q[1]) == Some(b);
    assert DigitValue(q[2]) == Some(c);
  }

  lemma Final1RoundTrip(x: octet)
    ensures DecodeQuantum(EncodeFinal1(x), true) == Some([x])
  {
    var xi := x as int;
    FirstTwoDigits(xi, 0);
    var q := EncodeFinal1(x);
    assert DigitValue(q[0]) == Some(xi / 4);
    assert DigitValue(q[1]) == Some(xi % 4 * 16);
  }

  /** Decoding a text that starts with a well-formed quantum decodes that quantum, then the rest. */
  lemma DecodeCons(q: string, rest: string, g: seq<octet>, r: seq<octet>)
    requires |q| == 4 && DecodeQuantum(q, rest == []) == Some(g) && Decode(rest) == Some(r)
    ensures Decode(q + rest) == Some(g + r)
  {
    var s := q + rest;
    assert s[..4] == q && s[4..] == rest;
  }

  /** A text of one quantum decodes as that final quantum does. */
  lemma DecodeSingle(q: string, g: seq<octet>)
    requires |q| == 4 && DecodeQuantum(q, true) == Some(g)
    ensures Decode(q) == Some(g)
  {
    DecodeCons(q, [], g, []);
    assert q + [] == q;
    assert g + [] == g;
  }

  lemma DecodeFinal1(x: octet)
    ensures Decode(EncodeFinal1(x)) == Some([x])
  {
    Final1RoundTrip(x);
    DecodeSingle(EncodeFinal1(x), [x]);
  }

  lemma DecodeFinal2(x: octet, y: octet)
    ensures Decode(EncodeFinal2(x, y)) == Some([x, y])
  {
    Final2RoundTrip(x, y);
    DecodeSingle(EncodeFinal2(x, y), [x, y]);
  }

  lemma DecodeGroupThen(x: octet, y: octet, z: octet, rest: string, r: seq<octet>)
    requires Decode(rest) == Some(r)
    ensures Decode(EncodeGroup(x, y, z) + rest) == Some([x, y, z] + r)
  {
    GroupRoundTrip(x, y, z, rest == []);
    DecodeCons(EncodeGroup(x, y, z), rest, [x, y, z], r);
  }

  lemma DecodeEncodeOne(b: seq<octet>)
    requires |b| == 1
    ensures Decode(Encode(b)) == Some(b)
  {
    DecodeFinal1(b[0]);
    assert Encode(b) == EncodeFinal1(b[0]);
    assert [b[0]] == b;
  }

  lemma DecodeEncodeTwo(b: seq<octet>)
    requires |b| == 2
    ensures Decode(Encode(b)) == Some(b)
  {
    DecodeFinal2(b[0], b[1]);
    assert Encode(b) == EncodeFinal2(b[0], b[1]);
    assert [b[0], b[1]] == b;
  }

  lemma EncodeStep(b: seq<octet>)
    requires |b| >= 3
    ensures Encode(b) == EncodeGroup(b[0], b[1], b[2]) + Encode(b[3..])
  {
  }

  lemma DecodeEncodeStep(b: seq<octet>, encodedTail: string)
    requires |b| >= 3 && encodedTail == Encode(b[3..]) && Decode(encodedTail) == Some(b[3..])
    ensures Decode(Encode(b)) == Some(b)
  {
    EncodeStep(b);
    DecodeGroupThen(b[0], b[1], b[2], encodedTail, b[3..]);
    assert [b[0], b[1], b[2]] + b[3..] == b;
  }

  /** Decoding recovers every octet sequence from its encoding (RFC 4648 section 4, read backwards). */
  lemma {:induction false} DecodeEncode(b: seq<octet>)
    ensures Decode(Encode(b)) == Some(b)
    decreases |b|
  {
    if |b| == 1 {
      DecodeEncodeOne(b);
    } else if |b| == 2 {
      DecodeEncodeTwo(b);
    } else if |b| >= 3 {
      DecodeEncode(b[3..]);
      DecodeEncodeStep(b, Encode(b[3..]));
    }
  }

  /** The first octet of a quantum and the top bits of the second give back its first two values. */
  lemma FirstTwoValues(a: sextet, b: sextet)
    ensures var x: int := a * 4 + b / 16;
            0 <= x < 256 && x / 4 == a && x % 4 * 16 + b % 16 == b
  {
    DivModParts(a, b / 16, 4);
  }

  /** The group of three octets whose digit values are `a`, `b`, `c`, `d`. */
  lemma GroupOfValues(x: octet, y: octet, z: octet, a: sextet, b: sextet, c: sextet, d: sextet)
    requires x as int / 4 == a && x as int % 4 * 16 + y as int / 16 == b
    requires y as int % 16 * 4 + z as int / 64 == c && z as int % 64 == d
    ensures EncodeGroup(x, y, z) == [DigitChar(a), DigitChar(b), DigitChar(c), DigitChar(d)]
  {
  }

  lemma GroupReencodes(a: sextet, b: sextet, c: sextet, d: sextet)
    ensures var g := DecodeGroup(a, b, c, d);
            EncodeGroup(g[0], g[1], g[2]) == [DigitChar(a), DigitChar(b), DigitChar(c), DigitChar(d)]
  {
    var g := DecodeGroup(a, b, c, d);
    FirstTwoValues(a, b);
    var y: int := (b as int) % 16 * 16 + c / 4;
    DivModParts(b % 16, c / 4, 16);
    assert y % 16 * 4 + c % 4 == c;
    var z: int := (c as int) % 4 * 64 + d;
    DivModParts(c % 4, d, 64);
    assert g[1] as int == y && g[2] as int == z;
    GroupOfValues(g[0], g[1], g[2], a, b, c, d);
  }

  lemma Final2Reencodes(a: sextet, b: sextet, c: sextet)
    requires c % 4 == 0
    ensures EncodeFinal2((a * 4 + b / 16) as octet, ((b as int) % 16 * 16 + c / 4) as octet)
            == [DigitChar(a), DigitChar(b), DigitChar(c), Pad]
  {
    FirstTwoValues(a, b);
    DivModParts(b % 16, c / 4, 16);
  }

  lemma Final1Reencodes(a: sextet, b: sextet)
    requires b % 16 == 0
    ensures EncodeFinal1((a * 4 + b / 16) as octet) == [DigitChar(a), DigitChar(b), Pad, Pad]
  {
    FirstTwoValues(a, b);
  }

  lemma QuantumReencodes(q: string, last: bool)
    requires |q| == 4 && DecodeQuantum(q, last).Some?
    ensures var g := DecodeQuantum(q, last).value;
            if |g| == 3 then EncodeGroup(g[0], g[1], g[2]) == q
            else if |g| == 2 then last && EncodeFinal2(g[0], g[1]) == q
            else last && EncodeFinal1(g[0]) == q
  {
    DigitValueInverse(q[0]);
    DigitValueInverse(q[1]);
    DigitValueInverse(q[2]);
    DigitValueInverse(q[3]);
    var a, b := DigitValue(q[0]).value, DigitValue(q[1]).value;
    if DigitValue(q[2]).Some? && DigitValue(q[3]).Some? {
      GroupReencodes(a, b, DigitValue(q[2]).value, DigitValue(q[3]).value);
    } else if DigitValue(q[2]).Some? && q[3] == Pad && DigitValue(q[2]).value % 4 == 0 {
      Final2Reencodes(a, b, DigitValue(q[2]).value);
    } else {
      Final1Reencodes(a, b);
    }
    assert q == [q[0], q[1], q[2], q[3]];
  }

  /** Every text the decoder accepts is the encoding of what it decodes to: base64 texts and octet sequences correspond one to one. */
  lemma {:induction false} EncodeDecode(s: string)
    requires Decode(s).Some?
    ensures Encode(Decode(s).value) == s
    decreases |s|
  {
    if |s| > 0 {
      var q := s[..4];
      var g := DecodeQuantum(q, |s| == 4).value;
      QuantumReencodes(q, |s| == 4);
      if |s| == 4 {
        assert Decode(s).value == g + [];
        assert g + [] == g;
      } else {
        var rest := Decode(s[4..]).value;
        EncodeDecode(s[4..]);
        var b := g + rest;
        assert b[..3] == g && b[3..] == rest;
        assert s == q + s[4..];
      }
    }
  }

  /** The test vectors of section 10 of RFC 4648. */
  lemma TestVectors()
    ensures Encode([]) == ""
    ensures Encode([102]) == "Zg=="
    ensures Encode([102, 111]) == "Zm8="
    ensures Encode([102, 111, 111]) == "Zm9v"
    ensures Encode([102, 111, 111, 98]) == "Zm9vYg=="
    ensures Encode([102, 111, 111, 98, 97]) == "Zm9vYmE="
    ensures Encode([102, 111, 111, 98, 97, 114]) == "Zm9vYmFy"
  {
  }

  /** The longest test vector of section 10 of RFC 4648, read back. */
  lemma TestVectorDecodes()
    ensures Decode("Zm9vYmFy") == Some([102, 111, 111, 98, 97, 114])
  {
    TestVectors();
    DecodeEncode([102, 111, 111, 98, 97, 114]);
  }
}
