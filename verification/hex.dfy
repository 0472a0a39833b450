/** Lower-case hexadecimal text, as produced by Go's `hex.EncodeToString`:
    each byte becomes two characters, high nibble first. The digests that
    `HashAAT` and `HashRequest` return are in this form. */
module Hex {
  import opened Wrappers
  import opened Types

  predicate IsHexDigit(c: char) {
    '0' <= c <= '9' || 'a' <= c <= 'f'
  }

  /** Text made only of lower-case hexadecimal digits. */
  predicate IsLowerHex(s: string) {
    forall i | 0 <= i < |s| :: IsHexDigit(s[i])
  }

  /** The digit for a nibble. */
  function DigitOf(n: int): (c: char)
    requires 0 <= n < 16
    ensures IsHexDigit(c)
    ensures DigitValue(c) == Some(n)
  {
    if n < 10 then ('0' as int + n) as char else ('a' as int + n - 10) as char
  }

  /** The nibble a digit stands for, if it is a lower-case hex digit. */
  function DigitValue(c: char): (r: Option<int>)
    ensures r.Some? <==> IsHexDigit(c)
    ensures r.Some? ==> 0 <= r.value < 16
  {
    if '0' <= c <= '9' then Some(c as int - '0' as int)
    else if 'a' <= c <= 'f' then Some(c as int - 'a' as int + 10)
    else None
  }

  /** Hex encoding of a byte string. */
  function Encode(b: Bytes): (s: string)
    ensures |s| == 2 * |b|
    ensures IsLowerHex(s)
  {
    if |b| == 0 then []
    else [DigitOf(b[0] as int / 16), DigitOf(b[0] as int % 16)] + Encode(b[1..])
  }

  /** Hex decoding; `None` for text of odd length or with a character that is
      not a lower-case hex digit. */
  function Decode(s: string): (r: Option<Bytes>)
    ensures r.Some? ==> 2 * |r.value| == |s|
    decreases |s|
  {
    if |s| == 0 then Some([])
    else if |s| == 1 then None
    else
      var hi, lo, rest := DigitValue(s[0]), DigitValue(s[1]), Decode(s[2..]);
      if hi.Some? && lo.Some? && rest.Some? then Some([(hi.value * 16 + lo.value) as uint8] + rest.value)
      else None
  }

  /** The two digits written for a byte read back as that byte. */
  lemma DecodeByte(x: uint8)
    ensures DigitValue(DigitOf(x as int / 16)) == Some(x as int / 16)
    ensures DigitValue(DigitOf(x as int % 16)) == Some(x as int % 16)
    ensures ((x as int / 16) * 16 + x as int % 16) as uint8 == x
  {
  }

  /** Decoding reads two digits, then the rest. */
  lemma DecodeStep(s: string, hi: int, lo: int, rest: Bytes)
    requires |s| >= 2
    requires DigitValue(s[0]) == Some(hi) && DigitValue(s[1]) == Some(lo)
    requires Decode(s[2..]) == Some(rest)
    ensures Decode(s) == Some([(hi * 16 + lo) as uint8] + rest)
  {
  }

  /** Decoding undoes encoding. */
  lemma {:induction false} DecodeEncode(b: Bytes)
    ensures Decode(Encode(b)) == Some(b)
  {
    if |b| > 0 {
      var hi, lo := b[0] as int / 16, b[0] as int % 16;
      var tail := Encode(b[1..]);
      var s := Encode(b);
      assert s == [DigitOf(hi), DigitOf(lo)] + tail;
      assert s[0] == DigitOf(hi) && s[1] == DigitOf(lo) && s[2..] == tail;
      DecodeEncode(b[1..]);
      DecodeByte(b[0]);
      assert DigitValue(s[0]) == Some(hi) && DigitValue(s[1]) == Some(lo);
      assert Decode(s[2..]) == Some(b[1..]);
      DecodeStep(s, hi, lo, b[1..]);
      assert [b[0]] + b[1..] == b;
    }
  }

  /** Distinct byte strings have distinct encodings. */
  lemma EncodeInjective(a: Bytes, b: Bytes)
    requires Encode(a) == Encode(b)
    ensures a == b
  {
    DecodeEncode(a);
    DecodeEncode(b);
  }
}
