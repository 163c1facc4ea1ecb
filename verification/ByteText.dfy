/** The byte, hexadecimal and decimal conversions of packages/host-message/src/bytes.ts. */
module ByteText {
  import opened Prelude

  // ----- Decimal text -----

  predicate IsDigit(c: char) {
    '0' <= c <= '9'
  }

  predicate AllDigits(s: string) {
    forall i :: 0 <= i < |s| ==> IsDigit(s[i])
  }

  /** The pattern ^\d+$. */
  predicate IsNumeral(s: string) {
    s != "" && AllDigits(s)
  }

  function DigitChar(n: nat): (c: char)
    requires n < 10
    ensures IsDigit(c) && DigitValue(c) == n
  {
    ('0' as int + n) as char
  }

  function DigitValue(c: char): (n: nat)
    requires IsDigit(c)
    ensures n < 10
  {
    c as int - '0' as int
  }

  /** String(n) of a whole number. */
  function ToDecimal(n: nat): (s: string)
    ensures IsNumeral(s)
  {
    if n < 10 then [DigitChar(n)] else ToDecimal(n / 10) + [DigitChar(n % 10)]
  }

  /** Number.parseInt of a digit string; 0 for the empty string. */
  function ParseDecimal(s: string): nat
    requires AllDigits(s)
  {
    if s == "" then 0
    else 10 * ParseDecimal(s[..|s| - 1]) + DigitValue(s[|s| - 1])
  }

  /** String.padStart with zeros. */
  function PadZeros(s: string, width: nat): (padded: string)
    ensures |padded| == Max(|s|, width)
  {
    Repeat(Max(0, width - |s|), '0') + s
  }

  lemma {:induction false} ParseToDecimal(n: nat)
    ensures ParseDecimal(ToDecimal(n)) == n
  {
    if n >= 10 {
      ParseToDecimal(n / 10);
      var s := ToDecimal(n);
      assert s[..|s| - 1] == ToDecimal(n / 10);
    }
  }

  /** Leading zeros do not change the number a numeral denotes. */
  lemma {:induction false} ParseLeadingZeros(k: nat, s: string)
    requires AllDigits(s)
    ensures AllDigits(Repeat(k, '0') + s)
    ensures ParseDecimal(Repeat(k, '0') + s) == ParseDecimal(s)
    decreases k + |s|
  {
    var t := Repeat(k, '0') + s;
    if s != "" {
      assert t[..|t| - 1] == Repeat(k, '0') + s[..|s| - 1];
      ParseLeadingZeros(k, s[..|s| - 1]);
    } else if k > 0 {
      assert t[..|t| - 1] == Repeat(k - 1, '0') + s;
      ParseLeadingZeros(k - 1, s);
    }
  }

  // ----- Hexadecimal text -----

  /** The upper-case hexadecimal digit of a nibble. */
  function HexChar(n: nat): (c: char)
    requires n < 16
    ensures HexValue(c) == Some(n) && IsUpperHexChar(c)
    ensures IsDigit(c) <==> n < 10
    ensures IsDigit(c) ==> DigitValue(c) == n
  {
    if n < 10 then DigitChar(n) else ('A' as int + (n - 10)) as char
  }

  /** Number.toString(16) of a nibble. */
  function LowerHexChar(n: nat): (c: char)
    requires n < 16
    ensures HexValue(c) == Some(n)
  {
    if n < 10 then DigitChar(n) else ('a' as int + (n - 10)) as char
  }

  function HexValue(c: char): (r: Option<nat>)
    ensures r.Some? ==> r.value < 16
  {
    if IsDigit(c) then Some(c as int - '0' as int)
    else if 'A' <= c <= 'F' then Some(c as int - 'A' as int + 10)
    else if 'a' <= c <= 'f' then Some(c as int - 'a' as int + 10)
    else None
  }

  predicate IsUpperHexChar(c: char) {
    IsDigit(c) || 'A' <= c <= 'F'
  }

  predicate IsUpperHex(s: string) {
    forall i :: 0 <= i < |s| ==> IsUpperHexChar(s[i])
  }

  predicate IsHexPairs(s: string) {
    |s| % 2 == 0 && forall i :: 0 <= i < |s| ==> HexValue(s[i]).Some?
  }

  /** Character i of the upper-case hexadecimal text of some bytes. */
  function HexCharAt(bytes: Bytes, i: nat): (c: char)
    requires i < 2 * |bytes|
    ensures IsUpperHexChar(c)
  {
    if i % 2 == 0 then HexChar(bytes[i / 2] / 16) else HexChar(bytes[i / 2] % 16)
  }

  function BytesToHex(bytes: Bytes): (s: string)
    ensures |s| == 2 * |bytes|
    ensures IsUpperHex(s)
  {
    seq(2 * |bytes|, i requires 0 <= i < 2 * |bytes| => HexCharAt(bytes, i))
  }

  function HexByteAt(s: string, i: nat): Byte
    requires IsHexPairs(s) && i < |s| / 2
  {
    16 * HexValue(s[2 * i]).value + HexValue(s[2 * i + 1]).value
  }

  function HexToBytes(s: string): (r: Option<Bytes>)
    ensures r.Some? <==> IsHexPairs(s)
    ensures r.Some? ==> |r.value| == |s| / 2
  {
    if IsHexPairs(s) then Some(seq(|s| / 2, i requires 0 <= i < |s| / 2 => HexByteAt(s, i))) else None
  }

  /** hexToBytes as the source runs it: the output buffer is filled byte by byte. */
  method HexToBytesInPlace(s: string) returns (r: Option<array<Byte>>)
    ensures r.Some? <==> HexToBytes(s).Some?
    ensures r.Some? ==> fresh(r.value) && r.value[..] == HexToBytes(s).value
  {
    if !IsHexPairs(s) {
      return None;
    }
    var result := new Byte[|s| / 2];
    var index := 0;
    while index < result.Length
      invariant 0 <= index <= result.Length
      invariant forall k :: 0 <= k < index ==> result[k] == HexByteAt(s, k)
    {
      result[index] := 16 * HexValue(s[2 * index]).value + HexValue(s[2 * index + 1]).value;
      index := index + 1;
    }
    assert result[..] == HexToBytes(s).value;
    return Some(result);
  }

  lemma HexOfBytes(bytes: Bytes)
    ensures HexToBytes(BytesToHex(bytes)) == Some(bytes)
  {
    var s := BytesToHex(bytes);
    assert IsHexPairs(s);
    forall i | 0 <= i < |bytes|
      ensures HexByteAt(s, i) == bytes[i]
    {
      assert s[2 * i] == HexCharAt(bytes, 2 * i) && s[2 * i + 1] == HexCharAt(bytes, 2 * i + 1);
      assert (2 * i) / 2 == i && (2 * i + 1) / 2 == i;
    }
    assert HexToBytes(s).value == bytes;
  }

  /** Parsing then printing gives the text back exactly when it is upper-case. */
  lemma BytesOfHex(s: string)
    requires IsHexPairs(s)
    ensures BytesToHex(HexToBytes(s).value) == s <==> IsUpperHex(s)
  {
    var bytes := HexToBytes(s).value;
    if IsUpperHex(s) {
      forall i | 0 <= i < |s|
        ensures BytesToHex(bytes)[i] == s[i]
      {
        HexCharOfText(s, i);
      }
    }
  }

  /** Character i of the printed form of parsed text is the upper-case form of character i. */
  lemma HexCharOfText(s: string, i: nat)
    requires IsHexPairs(s) && i < |s|
    ensures HexCharAt(HexToBytes(s).value, i) == HexChar(HexValue(s[i]).value)
    ensures IsUpperHexChar(s[i]) ==> HexChar(HexValue(s[i]).value) == s[i]
  {
    var j := i / 2;
    var high, low := HexValue(s[2 * j]).value, HexValue(s[2 * j + 1]).value;
    assert HexToBytes(s).value[j] == HexByteAt(s, j) == 16 * high + low;
    assert (16 * high + low) / 16 == high && (16 * high + low) % 16 == low;
    if i % 2 == 0 {
      assert i == 2 * j;
    } else {
      assert i == 2 * j + 1;
    }
  }

  // ----- Length prefixes -----

  datatype LengthEncoding = AsciiLength | BcdLength

  /** Character codes of an ASCII text. */
  function AsciiBytes(s: string): (bytes: Bytes)
    requires forall i :: 0 <= i < |s| ==> s[i] as int < 128
    ensures |bytes| == |s|
  {
    seq(|s|, i requires 0 <= i < |s| => s[i] as int)
  }

  /** String.fromCharCode of bytes. */
  function CharsOf(bytes: Bytes): (s: string)
    ensures |s| == |bytes|
  {
    seq(|bytes|, i requires 0 <= i < |bytes| => bytes[i] as char)
  }

  function EvenDigits(digits: string): (s: string)
    ensures |s| % 2 == 0
  {
    if |digits| % 2 == 0 then digits else "0" + digits
  }

  /** Number of bytes a decimal length prefix of `width` digits takes on the wire. */
  function PrefixBytes(width: nat, encoding: LengthEncoding): nat {
    if encoding.AsciiLength? then width else (width + 1) / 2
  }

  /** encodeDecimalLength; None when the value does not fit `width` digits. */
  function EncodeDecimalLength(value: nat, width: nat, encoding: LengthEncoding): (r: Option<Bytes>)
    ensures r.Some? ==> |r.value| == PrefixBytes(width, encoding)
  {
    var digits := PadZeros(ToDecimal(value), width);
    if |digits| > width then None
    else if encoding.AsciiLength? then Some(AsciiBytes(digits))
    else
      assert IsHexPairs(EvenDigits(digits));
      HexToBytes(EvenDigits(digits))
  }

  /** String.slice(-n) for a positive n. */
  function LastChars(s: string, n: nat): string {
    if n <= |s| then s[|s| - n..] else s
  }

  function DecodeDecimalLength(bytes: Bytes, width: nat, encoding: LengthEncoding): Option<nat> {
    var digits := if encoding.AsciiLength? then CharsOf(bytes) else LastChars(BytesToHex(bytes), width);
    if IsNumeral(digits) then Some(ParseDecimal(digits)) else None
  }

  lemma CharsOfAscii(s: string)
    requires forall i :: 0 <= i < |s| ==> s[i] as int < 128
    ensures CharsOf(AsciiBytes(s)) == s
  {
  }

  lemma DigitsAreUpperHex(s: string)
    requires AllDigits(s)
    ensures IsUpperHex(s)
    ensures |s| % 2 == 0 ==> IsHexPairs(s) && BytesToHex(HexToBytes(s).value) == s
  {
    if |s| % 2 == 0 {
      BytesOfHex(s);
    }
  }

  /** A length prefix that fits its width is read back, in both encodings. */
  lemma DecimalLengthRoundTrip(value: nat, width: nat, encoding: LengthEncoding)
    requires width > 0
    requires EncodeDecimalLength(value, width, encoding).Some?
    ensures DecodeDecimalLength(EncodeDecimalLength(value, width, encoding).value, width, encoding) == Some(value)
  {
    var plain := ToDecimal(value);
    var digits := PadZeros(plain, width);
    ParseToDecimal(value);
    ParseLeadingZeros(width - |plain|, plain);
    assert Repeat(width - |plain|, '0') + plain == digits;
    if encoding.AsciiLength? {
      CharsOfAscii(digits);
    } else {
      DigitsAreUpperHex(EvenDigits(digits));
      assert LastChars(EvenDigits(digits), width) == digits;
    }
  }
}
