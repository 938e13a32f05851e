/** Percent-encoding of stream names and the host name in request lines and
    headers (section 2.2 of RFC 1738): letters, digits and `-_.~` are sent
    as they are, every other byte as `%` and two upper-case hex digits.
    Strings are C strings of bytes: sequences of characters below 256 with
    no NUL. The main definitions read each `char` as an unsigned byte, the
    reading under which the encoding is correct; the end of the module
    models the source as written on a target whose `char` is signed, the
    AVR and MSP430 compilers the firmware is built with, where bytes of
    0x80 and above are encoded wrongly. */
module M2xEncode {
  import Common

  /** A C string: byte-valued characters, no terminating NUL inside. */
  predicate IsCString(s: string) {
    forall i :: 0 <= i < |s| ==> 0 < s[i] as int < 256
  }

  /** The characters `print_encoded_string` sends unchanged. */
  predicate IsUnreserved(c: char) {
    ('A' <= c <= 'Z') || ('a' <= c <= 'z') || ('0' <= c <= '9') || c == '-' || c == '_' || c == '.' || c == '~'
  }

  /** `TO_HEX`: a digit value 0..15 as an upper-case hex digit. */
  function ToHex(t: int): (c: char)
    requires 0 <= t < 16
    ensures IsUpperHex(c) && HexValue(c) == t
  {
    if t > 9 then (t - 10 + 'A' as int) as char else (t + '0' as int) as char
  }

  predicate IsUpperHex(c: char) {
    ('0' <= c <= '9') || ('A' <= c <= 'F')
  }

  /** The value of a hex digit, as a decoder reads it. */
  function HexValue(c: char): int {
    if '0' <= c <= '9' then c as int - '0' as int
    else if 'A' <= c <= 'F' then c as int - 'A' as int + 10
    else if 'a' <= c <= 'f' then c as int - 'a' as int + 10
    else 0
  }

  /** The encoding of one byte of the string, reading it as an unsigned
      byte. */
  function EncodeChar(c: char): (r: string)
    requires 0 <= c as int < 256
    ensures IsUnreserved(c) ==> r == [c]
    ensures !IsUnreserved(c) ==>
              |r| == 3 && r[0] == '%' && IsUpperHex(r[1]) && IsUpperHex(r[2])
              && HexValue(r[1]) * 16 + HexValue(r[2]) == c as int
  {
    if IsUnreserved(c) then [c] else ['%', ToHex(c as int / 16), ToHex(c as int % 16)]
  }

  /** The whole output of `print_encoded_string`. */
  function PercentEncode(s: string): (r: string)
    requires IsCString(s)
    ensures |r| >= |s|
    ensures forall i :: 0 <= i < |r| ==> IsUnreserved(r[i]) || r[i] == '%' || IsUpperHex(r[i])
    decreases |s|
  {
    if |s| == 0 then [] else EncodeChar(s[0]) + PercentEncode(s[1..])
  }

  /** `print_encoded_string`: prints the encoding of `str` character by
      character and returns the number of bytes printed. */
  method PrintEncodedString(str: string) returns (out: string, bytes: int)
    requires IsCString(str)
    ensures out == PercentEncode(str)
    ensures bytes == |out|
  {
    out := [];
    bytes := 0;
    var i := 0;
    while i < |str|
      invariant 0 <= i <= |str|
      invariant out + PercentEncode(str[i..]) == PercentEncode(str)
      invariant bytes == |out|
    {
      assert str[i..][1..] == str[i + 1..];
      var e := EncodeChar(str[i]);
      out := out + e;
      bytes := bytes + |e|;
      i := i + 1;
    }
  }

  /** Percent-decoding: a `%` followed by two hex digits stands for the byte
      they spell; everything else stands for itself. */
  function PercentDecode(s: string): string
    decreases |s|
  {
    if |s| >= 3 && s[0] == '%' then [(HexValue(s[1]) * 16 + HexValue(s[2])) as char] + PercentDecode(s[3..])
    else if |s| == 0 then []
    else [s[0]] + PercentDecode(s[1..])
  }

  /** Decoding the encoded string gives back the string: the encoding loses
      nothing, so two names never share an encoded form. */
  lemma {:induction false} DecodeEncode(s: string)
    requires IsCString(s)
    ensures PercentDecode(PercentEncode(s)) == s
    decreases |s|
  {
    if |s| > 0 {
      var e := EncodeChar(s[0]);
      var rest := PercentEncode(s[1..]);
      DecodeEncode(s[1..]);
      assert PercentEncode(s) == e + rest;
      if IsUnreserved(s[0]) {
        assert (e + rest)[1..] == rest;
      } else {
        assert (e + rest)[3..] == rest;
      }
    }
  }

  /** Two C strings with the same encoding are equal. */
  lemma {:induction false} EncodeInjective(s: string, t: string)
    requires IsCString(s) && IsCString(t)
    requires PercentEncode(s) == PercentEncode(t)
    ensures s == t
  {
    DecodeEncode(s);
    DecodeEncode(t);
  }

  /** The encoding of a concatenation is the concatenation of encodings:
      each byte is encoded on its own. */
  lemma {:induction false} EncodeAppend(s: string, t: string)
    requires IsCString(s) && IsCString(t)
    ensures IsCString(s + t)
    ensures PercentEncode(s + t) == PercentEncode(s) + PercentEncode(t)
    decreases |s|
  {
    if |s| > 0 {
      assert (s + t)[1..] == s[1..] + t;
      EncodeAppend(s[1..], t);
    } else {
      assert s + t == t;
    }
  }

  // ---------------------------------------------------------------------
  // The same encoding, as the source computes it on a target where `char`
  // is signed (as on AVR and MSP430 compilers): a byte of 0x80 or above
  // reads as a negative value, and C's `/` and `%` truncate toward zero.

  /** C's `/` and `%` on a negative dividend and a positive divisor. */
  function CDiv(a: int, b: int): int
    requires b > 0
  {
    if a >= 0 then a / b else -((-a) / b)
  }

  function CRem(a: int, b: int): int
    requires b > 0
  {
    a - b * CDiv(a, b)
  }

  /** `TO_HEX` on any value from the two divisions: a negative one is
      shifted below `'0'`. */
  function ToHexAsWritten(t: int): char
    requires -15 <= t < 16
  {
    if t > 9 then (t - 10 + 'A' as int) as char else (t + '0' as int) as char
  }

  /** One byte encoded as the source does on a signed-char target. */
  function EncodeCharAsWritten(c: char): (r: string)
    requires 0 <= c as int < 256
    ensures |r| == if IsUnreserved(c) then 1 else 3
  {
    var v := Common.SignedChar(c);
    assert -128 <= v < 128;
    if IsUnreserved(c) then [c] else ['%', ToHexAsWritten(CDiv(v, 16)), ToHexAsWritten(CRem(v, 16))]
  }

  /** On 7-bit input the signed-char encoding is the intended one. */
  lemma {:induction false} AsWrittenAgreesOnAscii(c: char)
    requires 0 <= c as int < 128
    ensures EncodeCharAsWritten(c) == EncodeChar(c)
  {
  }

  /** A byte of 0x80 or above is encoded wrongly on a signed-char target:
      0xFF comes out as `%0/` rather than `%FF`, and the result does not
      decode to the byte. */
  lemma {:induction false} HighByteMisencoded()
    ensures EncodeCharAsWritten(0xFF as char) == "%0/"
    ensures EncodeChar(0xFF as char) == "%FF"
    ensures PercentDecode(EncodeCharAsWritten(0xFF as char)) != [0xFF as char]
  {
    assert CDiv(-1, 16) == 0;
    assert CRem(-1, 16) == -1;
    assert ToHexAsWritten(-1) == '/';
    assert ToHex(15) == 'F';
    var e := EncodeCharAsWritten(0xFF as char);
    assert e[1..][1..][1..] == [];
    assert PercentDecode(e) == [(HexValue('0') * 16 + HexValue('/')) as char];
  }

  /** The whole output of `print_encoded_string` on a signed-char target. */
  function PercentEncodeAsWritten(s: string): (r: string)
    requires IsCString(s)
    ensures |r| >= |s|
    decreases |s|
  {
    if |s| == 0 then [] else EncodeCharAsWritten(s[0]) + PercentEncodeAsWritten(s[1..])
  }

  /** Every byte of 0x80 or above is encoded wrongly: its first hex digit
      comes out at or below `'0'`, where the intended one is `'8'` to `'F'`. */
  lemma {:induction false} HighByteEncodedWrongly(c: char)
    requires 128 <= c as int < 256
    ensures EncodeCharAsWritten(c)[1] <= '0' < '8' <= EncodeChar(c)[1]
  {
    var v := Common.SignedChar(c);
    assert -128 <= v < 0;
    assert -8 <= CDiv(v, 16) <= 0;
    assert 8 <= c as int / 16;
  }

  /** The signed-char encoding of a whole string is the intended one exactly
      when every byte is below 0x80, and it is always as long. */
  lemma {:induction false} AsWrittenAgreesExactlyOnAscii(s: string)
    requires IsCString(s)
    ensures |PercentEncodeAsWritten(s)| == |PercentEncode(s)|
    ensures PercentEncodeAsWritten(s) == PercentEncode(s)
            <==> forall i :: 0 <= i < |s| ==> s[i] as int < 128
    decreases |s|
  {
    if |s| > 0 {
      var c := s[0];
      var a, e := EncodeCharAsWritten(c), EncodeChar(c);
      var ra, re := PercentEncodeAsWritten(s[1..]), PercentEncode(s[1..]);
      AsWrittenAgreesExactlyOnAscii(s[1..]);
      assert |a| == |e|;
      assert PercentEncodeAsWritten(s) == a + ra;
      assert PercentEncode(s) == e + re;
      if c as int < 128 {
        AsWrittenAgreesOnAscii(c);
        assert a + ra == e + re <==> ra == re by {
          if a + ra == e + re {
            assert ra == (a + ra)[|a|..];
          }
        }
        assert (forall i :: 0 <= i < |s| ==> s[i] as int < 128)
               <==> (forall i :: 0 <= i < |s[1..]| ==> s[1..][i] as int < 128) by {
          if forall i :: 0 <= i < |s[1..]| ==> s[1..][i] as int < 128 {
            forall i | 0 <= i < |s| ensures s[i] as int < 128 {
              if i > 0 {
                assert s[i] == s[1..][i - 1];
              }
            }
          }
        }
      } else {
        HighByteEncodedWrongly(c);
        assert (a + ra)[1] != (e + re)[1];
      }
    }
  }

  /** A name holding the byte 0xFF is sent as `%0/`, which decodes to a
      different byte. */
  lemma {:induction false} HighByteStringMisencoded()
    ensures PercentEncodeAsWritten([0xFF as char]) == "%0/"
    ensures PercentDecode(PercentEncodeAsWritten([0xFF as char])) != [0xFF as char]
  {
    HighByteMisencoded();
    assert PercentEncodeAsWritten([0xFF as char]) == EncodeCharAsWritten(0xFF as char) + [];
  }
}
