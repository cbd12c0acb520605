/**
 * Go's encoding/hex as the vault uses it: EncodeToString writes a wrapped file key
 * into the index (lower-case digits, two per byte), DecodeString reads it back and
 * fails on an odd length or on a character that is not a hexadecimal digit.
 */
module Hex {
  import opened Wrappers
  import opened Text

  /** The value of a hexadecimal digit in either case. */
  function DigitValue(c: char): (v: Option<int>)
    ensures v.Some? ==> 0 <= v.value < 16
  {
    if '0' <= c <= '9' then Some(c as int - '0' as int)
    else if 'a' <= c <= 'f' then Some(c as int - 'a' as int + 10)
    else if 'A' <= c <= 'F' then Some(c as int - 'A' as int + 10)
    else None
  }

  /** The lower-case digit for a value below 16. */
  function Digit(v: int): (c: char)
    requires 0 <= v < 16
    ensures DigitValue(c) == Some(v)
  {
    if v < 10 then ('0' as int + v) as char else ('a' as int + v - 10) as char
  }

  /** hex.EncodeToString */
  function Encode(b: Bytes): (s: string)
    ensures |s| == 2 * |b|
    ensures forall i | 0 <= i < |s| :: DigitValue(s[i]).Some?
  {
    if b == [] then ""
    else [Digit(b[0] as int / 16), Digit(b[0] as int % 16)] + Encode(b[1..])
  }

  /** hex.DecodeString: None for an odd length or a non-digit character. */
  function Decode(s: string): (r: Option<Bytes>)
    ensures r.Some? ==> 2 * |r.value| == |s|
    ensures r.Some? <==> |s| % 2 == 0 && forall i | 0 <= i < |s| :: DigitValue(s[i]).Some?
    decreases |s|
  {
    if s == [] then Some([])
    else if |s| == 1 then None
    else
      match (DigitValue(s[0]), DigitValue(s[1]), Decode(s[2..]))
      case (Some(hi), Some(lo), Some(rest)) => Some([(hi * 16 + lo) as byte] + rest)
      case _ =>
        assert forall i | 0 <= i < |s| - 2 :: s[2..][i] == s[i + 2];
        None
  }

  /** Decoding what EncodeToString wrote gives the bytes back. */
  lemma {:induction false} DecodeEncode(b: Bytes)
    ensures Decode(Encode(b)) == Some(b)
  {
    if b != [] {
      DecodeEncode(b[1..]);
      var s := Encode(b);
      assert s[2..] == Encode(b[1..]);
      assert [b[0]] + b[1..] == b;
    }
  }
}
