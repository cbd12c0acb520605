/**
 * The standard base 64 encoding of section 4 of RFC 4648 as Go's
 * base64.StdEncoding.DecodeString reads it: carriage returns and line feeds are
 * skipped anywhere, the input must come in complete quanta of four characters,
 * '=' may only pad the final quantum ("xx==" or "xxx="), and the unused low bits
 * of a padded quantum are ignored (Go's non-strict mode).
 */
module Base64 {
  import opened Wrappers
  import opened Text

  /** The 6-bit value of a character of the standard alphabet. */
  function CharValue(c: char): (v: Option<int>)
    ensures v.Some? ==> 0 <= v.value < 64
    ensures c == '=' || c == ':' || c == '\n' || c == '\r' ==> v.None?
  {
    if 'A' <= c <= 'Z' then Some(c as int - 'A' as int)
    else if 'a' <= c <= 'z' then Some(c as int - 'a' as int + 26)
    else if '0' <= c <= '9' then Some(c as int - '0' as int + 52)
    else if c == '+' then Some(62)
    else if c == '/' then Some(63)
    else None
  }

  /** The alphabet character for a 6-bit value. */
  function CharOf(v: int): (c: char)
    requires 0 <= v < 64
    ensures CharValue(c) == Some(v)
  {
    if v < 26 then ('A' as int + v) as char
    else if v < 52 then ('a' as int + v - 26) as char
    else if v < 62 then ('0' as int + v - 52) as char
    else if v == 62 then '+'
    else '/'
  }

  /** The input with every '\r' and '\n' removed, as Go's decoder skips them. */
  function StripNewlines(s: string): (t: string)
    ensures '\r' !in t && '\n' !in t
    ensures '\r' !in s && '\n' !in s ==> t == s
  {
    if s == [] then []
    else if s[0] == '\r' || s[0] == '\n' then StripNewlines(s[1..])
    else assert s == [s[0]] + s[1..]; [s[0]] + StripNewlines(s[1..])
  }

  /** A quantum of four alphabet characters: three bytes. */
  function DecodeFull(a: char, b: char, c: char, d: char): Option<Bytes>
  {
    match (CharValue(a), CharValue(b), CharValue(c), CharValue(d))
    case (Some(va), Some(vb), Some(vc), Some(vd)) =>
      Some([(va * 4 + vb / 16) as byte, ((vb % 16) * 16 + vc / 4) as byte, ((vc % 4) * 64 + vd) as byte])
    case _ => None
  }

  /** The final quantum, which may carry one or two '=' pad characters. */
  function DecodeFinal(a: char, b: char, c: char, d: char): Option<Bytes>
  {
    if c == '=' && d == '=' then
      match (CharValue(a), CharValue(b))
      case (Some(va), Some(vb)) => Some([(va * 4 + vb / 16) as byte])
      case _ => None
    else if d == '=' then
      match (CharValue(a), CharValue(b), CharValue(c))
      case (Some(va), Some(vb), Some(vc)) => Some([(va * 4 + vb / 16) as byte, ((vb % 16) * 16 + vc / 4) as byte])
      case _ => None
    else DecodeFull(a, b, c, d)
  }

  /** Decodes a newline-free input quantum by quantum. */
  function DecodeQuanta(t: string): Option<Bytes>
    decreases |t|
  {
    if |t| == 0 then Some([])
    else if |t| < 4 then None
    else if |t| == 4 then DecodeFinal(t[0], t[1], t[2], t[3])
    else
      match (DecodeFull(t[0], t[1], t[2], t[3]), DecodeQuanta(t[4..]))
      case (Some(head), Some(rest)) => Some(head + rest)
      case _ => None
  }

  /** base64.StdEncoding.DecodeString; None is the CorruptInputError. */
  function StdDecode(s: string): Option<Bytes>
  {
    DecodeQuanta(StripNewlines(s))
  }

  /** Three bytes as one full quantum of four alphabet characters. */
  function EncodeFull(x: byte, y: byte, z: byte): (q: string)
    ensures |q| == 4 && forall i | 0 <= i < 4 :: CharValue(q[i]).Some?
  {
    [CharOf(x as int / 4), CharOf((x as int % 4) * 16 + y as int / 16),
     CharOf((y as int % 16) * 4 + z as int / 64), CharOf(z as int % 64)]
  }

  /** base64.StdEncoding.EncodeToString: padded quanta of the standard alphabet. */
  function StdEncode(b: Bytes): (s: string)
    ensures |s| % 4 == 0
    ensures forall i | 0 <= i < |s| :: s[i] == '=' || CharValue(s[i]).Some?
    decreases |b|
  {
    if |b| == 0 then ""
    else if |b| == 1 then
      var x := b[0] as int;
      [CharOf(x / 4), CharOf((x % 4) * 16), '=', '=']
    else if |b| == 2 then
      var x, y := b[0] as int, b[1] as int;
      [CharOf(x / 4), CharOf((x % 4) * 16 + y / 16), CharOf((y % 16) * 4), '=']
    else
      var head := EncodeFull(b[0], b[1], b[2]);
      var rest := StdEncode(b[3..]);
      OutputAppend(head, rest);
      QuantumLength(|rest|);
      head + rest
  }

  /** One more quantum keeps the length a multiple of four. */
  lemma QuantumLength(n: int)
    requires n % 4 == 0
    ensures (4 + n) % 4 == 0
  {
  }

  /** Two runs of alphabet and pad characters make one. */
  lemma OutputAppend(a: string, b: string)
    requires forall i | 0 <= i < |a| :: a[i] == '=' || CharValue(a[i]).Some?
    requires forall i | 0 <= i < |b| :: b[i] == '=' || CharValue(b[i]).Some?
    ensures forall i | 0 <= i < |a + b| :: (a + b)[i] == '=' || CharValue((a + b)[i]).Some?
  {
  }

  /** The first decoded byte takes six bits from the first character and two from the second. */
  lemma FirstByte(x: int, y: int)
    requires 0 <= x < 256 && 0 <= y < 256
    ensures (x / 4) * 4 + ((x % 4) * 16 + y / 16) / 16 == x
  {
    assert ((x % 4) * 16 + y / 16) / 16 == x % 4;
  }

  /** The second decoded byte takes four bits from the second character and four from the third. */
  lemma SecondByte(x: int, y: int, z: int)
    requires 0 <= x < 256 && 0 <= y < 256 && 0 <= z < 256
    ensures (((x % 4) * 16 + y / 16) % 16) * 16 + ((y % 16) * 4 + z / 64) / 4 == y
  {
    assert ((x % 4) * 16 + y / 16) % 16 == y / 16;
    assert ((y % 16) * 4 + z / 64) / 4 == y % 16;
  }

  /** The third decoded byte takes two bits from the third character and six from the fourth. */
  lemma ThirdByte(y: int, z: int)
    requires 0 <= y < 256 && 0 <= z < 256
    ensures (((y % 16) * 4 + z / 64) % 4) * 64 + z % 64 == z
  {
    assert ((y % 16) * 4 + z / 64) % 4 == z / 64;
  }

  lemma {:induction false} FullQuantumRoundTrip(x: byte, y: byte, z: byte)
    ensures var q := EncodeFull(x, y, z); DecodeFull(q[0], q[1], q[2], q[3]) == Some([x, y, z])
  {
    FirstByte(x as int, y as int);
    SecondByte(x as int, y as int, z as int);
    ThirdByte(y as int, z as int);
  }

  lemma {:induction false} OneBytePaddedRoundTrip(x: byte)
    ensures DecodeFinal(CharOf(x as int / 4), CharOf((x as int % 4) * 16), '=', '=') == Some([x])
  {
    FirstByte(x as int, 0);
  }

  lemma {:induction false} TwoBytesPaddedRoundTrip(x: byte, y: byte)
    ensures DecodeFinal(CharOf(x as int / 4), CharOf((x as int % 4) * 16 + y as int / 16),
                        CharOf((y as int % 16) * 4), '=')
         == Some([x, y])
  {
    FirstByte(x as int, y as int);
    SecondByte(x as int, y as int, 0);
  }

  /** Decoding what the encoder wrote gives the bytes back. */
  lemma {:induction false} DecodeEncode(b: Bytes)
    ensures StdDecode(StdEncode(b)) == Some(b)
  {
    var s := StdEncode(b);
    assert '\r' !in s && '\n' !in s by {
      assert CharValue('\r').None? && CharValue('\n').None?;
    }
    QuantaRoundTrip(b);
  }

  lemma {:induction false} QuantaRoundTrip(b: Bytes)
    ensures DecodeQuanta(StdEncode(b)) == Some(b)
    decreases |b|
  {
    if |b| == 1 {
      OneByteRoundTrip(b);
    } else if |b| == 2 {
      TwoBytesRoundTrip(b);
    } else if |b| == 3 {
      ThreeBytesRoundTrip(b);
    } else if |b| > 3 {
      QuantaRoundTrip(b[3..]);
      QuantumStep(b[0], b[1], b[2], b[3..]);
      FirstThree(b);
    }
  }

  lemma FirstThree(b: Bytes)
    requires |b| > 3
    ensures b == [b[0], b[1], b[2]] + b[3..]
  {
  }

  lemma {:induction false} OneByteRoundTrip(b: Bytes)
    requires |b| == 1
    ensures DecodeQuanta(StdEncode(b)) == Some(b)
  {
    OneBytePaddedRoundTrip(b[0]);
    assert b == [b[0]];
  }

  lemma {:induction false} TwoBytesRoundTrip(b: Bytes)
    requires |b| == 2
    ensures DecodeQuanta(StdEncode(b)) == Some(b)
  {
    TwoBytesPaddedRoundTrip(b[0], b[1]);
    assert b == [b[0], b[1]];
  }

  lemma {:induction false} ThreeBytesRoundTrip(b: Bytes)
    requires |b| == 3
    ensures DecodeQuanta(StdEncode(b)) == Some(b)
  {
    var q := EncodeFull(b[0], b[1], b[2]);
    FullQuantumRoundTrip(b[0], b[1], b[2]);
    assert b[3..] == [] && StdEncode(b[3..]) == "";
    assert StdEncode(b) == q + "" == q;
    assert q[2] != '=' && q[3] != '=' by { assert CharValue('=').None?; }
    assert DecodeFinal(q[0], q[1], q[2], q[3]) == DecodeFull(q[0], q[1], q[2], q[3]);
    assert b == [b[0], b[1], b[2]];
  }

  lemma {:induction false} QuantumStep(x: byte, y: byte, z: byte, tail: Bytes)
    requires |tail| > 0 && DecodeQuanta(StdEncode(tail)) == Some(tail)
    ensures DecodeQuanta(StdEncode([x, y, z] + tail)) == Some([x, y, z] + tail)
  {
    var b := [x, y, z] + tail;
    assert |b| > 3 && b[0] == x && b[1] == y && b[2] == z && b[3..] == tail;
    EncodeSplits(b);
    FullQuantumRoundTrip(x, y, z);
    DecodeSplits(StdEncode(b), [x, y, z], tail);
  }

  /** Past three bytes, the encoding is a full quantum followed by the encoding of the rest. */
  lemma EncodeSplits(b: Bytes)
    requires |b| > 3
    ensures var s, q := StdEncode(b), EncodeFull(b[0], b[1], b[2]);
      |s| > 4 && s[0] == q[0] && s[1] == q[1] && s[2] == q[2] && s[3] == q[3] && s[4..] == StdEncode(b[3..])
  {
    var q, rest := EncodeFull(b[0], b[1], b[2]), StdEncode(b[3..]);
    assert StdEncode(b) == q + rest;
    assert |rest| > 0;
    assert (q + rest)[4..] == rest;
  }

  /** An input longer than one quantum decodes as its first quantum followed by the rest. */
  lemma DecodeSplits(s: string, head: Bytes, rest: Bytes)
    requires |s| > 4 && DecodeFull(s[0], s[1], s[2], s[3]) == Some(head) && DecodeQuanta(s[4..]) == Some(rest)
    ensures DecodeQuanta(s) == Some(head + rest)
  {
  }

  /** The encoder never writes the ':' that separates the parts of a share string. */
  lemma NoColonInEncoding(b: Bytes)
    ensures ':' !in StdEncode(b)
  {
    assert CharValue(':').None?;
  }
}
