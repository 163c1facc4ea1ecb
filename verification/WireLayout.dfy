/**
 * What the encoders put on the wire, byte by byte: the digits of a length, the declared length of a frame, the parts
 * of a packed field, and what a field's bytes are read as. Nothing here rests on reading being the inverse of writing.
 */
module WireLayout {
  import opened Prelude
  import opened ByteText
  import opened FieldCodecs
  import opened FieldWire
  import Framing

  // ----- Decimal digits -----

  /** The digit of a number with weight ten to the k. */
  function DigitOf(n: nat, k: nat): (d: nat)
    ensures d < 10
  {
    (n / Framing.PowerOfTen(k)) % 10
  }

  lemma TenfoldQuotient(n: nat, p: nat)
    requires p > 0
    ensures (n / 10) / p == n / (10 * p)
  {
    var q, r := n / (10 * p), n % (10 * p);
    assert n == 10 * (p * q) + r;
    assert n / 10 == p * q + r / 10 && r / 10 < p;
    Quotient(n / 10, p, q, r / 10);
  }

  lemma Quotient(n: nat, p: nat, q: nat, r: nat)
    requires n == p * q + r && r < p
    ensures n / p == q
  {
    var d := n / p;
    assert p * d <= n < p * d + p;
    assert d < q ==> p * (d + 1) <= p * q;
    assert d > q ==> p * d >= p * (q + 1);
  }

  /** A padded numeral holds the digits of its number, the weightiest first. */
  lemma {:induction false} NumeralDigits(n: nat, width: nat, i: nat)
    requires |ToDecimal(n)| <= width && i < width
    ensures PadZeros(ToDecimal(n), width)[i] == DigitChar(DigitOf(n, width - 1 - i))
    decreases n
  {
    hide DigitOf, PadZeros, ToDecimal;
    var k := width - 1 - i;
    PaddedNumeral(n, width, i);
    if k == 0 {
      LastDigit(n);
    } else {
      DigitOfTenth(n, k);
      if n >= 10 {
        NumeralDigits(n / 10, width - 1, i);
      }
    }
  }

  lemma PaddedNumeral(n: nat, width: nat, i: nat)
    requires |ToDecimal(n)| <= width && i < width
    ensures i == width - 1 ==> PadZeros(ToDecimal(n), width)[i] == DigitChar(n % 10)
    ensures i < width - 1 && n < 10 ==> PadZeros(ToDecimal(n), width)[i] == '0'
    ensures i < width - 1 && n >= 10 ==>
              && |ToDecimal(n / 10)| <= width - 1
              && PadZeros(ToDecimal(n), width)[i] == PadZeros(ToDecimal(n / 10), width - 1)[i]
  {
  }

  lemma LastDigit(n: nat)
    ensures DigitOf(n, 0) == n % 10
  {
  }

  lemma DigitOfTenth(n: nat, k: nat)
    requires k > 0
    ensures DigitOf(n, k) == DigitOf(n / 10, k - 1)
    ensures n < 10 ==> DigitOf(n, k) == 0
  {
    var p := Framing.PowerOfTen(k - 1);
    TenfoldQuotient(n, p);
    assert n < 10 ==> n / 10 == 0 && 0 / p == 0;
  }

  /** The hexadecimal digits have their usual values, in either case. */
  lemma HexDigits(n: nat)
    requires n < 16
    ensures HexChar(n) == "0123456789ABCDEF"[n] && LowerHexChar(n) == "0123456789abcdef"[n]
    ensures HexValue("0123456789ABCDEF"[n]) == HexValue("0123456789abcdef"[n]) == Some(n)
    ensures n < 10 ==> DigitChar(n) == "0123456789"[n] && DigitValue("0123456789"[n]) == n
  {
  }

  /** Half byte number j, the high half of a byte first. */
  function HalfByte(bytes: Bytes, j: nat): (n: nat)
    requires j < 2 * |bytes|
    ensures n < 16
  {
    if j % 2 == 0 then bytes[j / 2] / 16 else bytes[j / 2] % 16
  }

  lemma ParsedNibbles(s: string, j: nat)
    requires IsHexPairs(s) && j < |s|
    ensures HexValue(s[j]) == Some(HalfByte(HexToBytes(s).value, j))
  {
    hide HexValue;
    var i := j / 2;
    var high, low := HexValue(s[2 * i]).value, HexValue(s[2 * i + 1]).value;
    assert HexToBytes(s).value[i] == HexByteAt(s, i);
    HalvesOf(high, low);
    assert j == 2 * i || j == 2 * i + 1;
  }

  lemma HalvesOf(high: nat, low: nat)
    requires high < 16 && low < 16
    ensures (16 * high + low) / 16 == high && (16 * high + low) % 16 == low
  {
  }

  // ----- Lengths -----

  /** The bytes hold the lowest `digits` decimal digits of a number, one a byte or two, the weightiest first. */
  predicate HoldsDigits(bytes: Bytes, n: nat, digits: nat, encoding: LengthEncoding) {
    if encoding.AsciiLength? then
      && |bytes| == digits
      && forall i | 0 <= i < digits :: bytes[i] == 48 + DigitOf(n, digits - 1 - i)
    else
      && |bytes| == (digits + 1) / 2
      && forall j | digits % 2 <= j < 2 * |bytes| :: HalfByte(bytes, j) == DigitOf(n, 2 * |bytes| - 1 - j)
  }

  /** The same, where half a byte left over in front is zero. */
  predicate HoldsNumber(bytes: Bytes, n: nat, digits: nat, encoding: LengthEncoding) {
    && HoldsDigits(bytes, n, digits, encoding)
    && (encoding.BcdLength? && digits % 2 == 1 ==> HalfByte(bytes, 0) == 0)
  }

  lemma NumberIsUnique(a: Bytes, b: Bytes, n: nat, digits: nat, encoding: LengthEncoding)
    requires HoldsNumber(a, n, digits, encoding) && HoldsNumber(b, n, digits, encoding)
    ensures a == b
  {
    hide DigitOf, HalfByte;
    if encoding.BcdLength? {
      forall j | 0 <= j < 2 * |a|
        ensures HalfByte(a, j) == HalfByte(b, j)
      {
      }
      NibblesAreBytes(a, b);
    }
  }

  lemma NibblesAreBytes(a: Bytes, b: Bytes)
    requires |a| == |b| && forall j | 0 <= j < 2 * |a| :: HalfByte(a, j) == HalfByte(b, j)
    ensures a == b
  {
    forall i | 0 <= i < |a|
      ensures a[i] == b[i]
    {
      assert HalfByte(a, 2 * i) == HalfByte(b, 2 * i) && HalfByte(a, 2 * i + 1) == HalfByte(b, 2 * i + 1);
    }
  }

  lemma NumeralHolds(n: nat, width: nat)
    requires width > 0 && |ToDecimal(n)| <= width
    ensures
      var digits := PadZeros(ToDecimal(n), width);
      HoldsNumber(AsciiBytes(digits), n, width, AsciiLength)
    ensures
      var even := EvenDigits(PadZeros(ToDecimal(n), width));
      IsHexPairs(even) && HoldsNumber(HexToBytes(even).value, n, width, BcdLength)
  {
    var digits := PadZeros(ToDecimal(n), width);
    PaddedIsNumeral(n, width);
    AsciiHolds(digits, n);
    BcdHolds(digits, n);
  }

  lemma PaddedIsNumeral(n: nat, width: nat)
    requires width > 0 && |ToDecimal(n)| <= width
    ensures
      var digits := PadZeros(ToDecimal(n), width);
      |digits| == width && Spells(digits, n)
  {
    hide DigitOf, ToDecimal;
    var digits := PadZeros(ToDecimal(n), width);
    forall i | 0 <= i < width
      ensures digits[i] == DigitChar(DigitOf(n, width - 1 - i))
    {
      NumeralDigits(n, width, i);
    }
  }

  predicate Spells(digits: string, n: nat) {
    forall i | 0 <= i < |digits| :: digits[i] == DigitChar(DigitOf(n, |digits| - 1 - i))
  }

  lemma AsciiHolds(digits: string, n: nat)
    requires Spells(digits, n)
    ensures HoldsNumber(AsciiBytes(digits), n, |digits|, AsciiLength)
  {
    hide DigitOf;
  }

  lemma BcdHolds(digits: string, n: nat)
    requires Spells(digits, n)
    ensures
      var even := EvenDigits(digits);
      IsHexPairs(even) && HoldsNumber(HexToBytes(even).value, n, |digits|, BcdLength)
  {
    hide DigitOf, HexToBytes, HalfByte;
    var even := EvenDigits(digits);
    assert IsHexPairs(even);
    forall j | 0 <= j < |even|
      ensures HexValue(even[j]) == Some(HalfByte(HexToBytes(even).value, j))
    {
      ParsedNibbles(even, j);
    }
  }

  /**
   * The prefix of a length up to ten to the width holds the digits of that length, and no other length has one.
   */
  lemma PrefixHoldsLength(n: nat, width: nat, encoding: LengthEncoding)
    requires width > 0
    ensures EncodeDecimalLength(n, width, encoding).Some? <==> n < Framing.PowerOfTen(width)
    ensures n < Framing.PowerOfTen(width) ==>
              HoldsNumber(EncodeDecimalLength(n, width, encoding).value, n, width, encoding)
  {
    hide HoldsNumber, ToDecimal;
    Framing.DecimalWidth(n, width);
    if |ToDecimal(n)| <= width {
      NumeralHolds(n, width);
    }
  }

  /**
   * A frame is its header, the digits of the declared number and the payload. The declared number counts the payload,
   * and each of the two parts in front of it exactly when its flag says so.
   */
  lemma FrameLayout(o: Framing.FrameOptions, payload: Bytes) returns (declared: nat)
    requires o.Accepted() && Framing.EncodeFrame(o, payload).Ok?
    ensures !o.lengthIncludesFixedHeader && !o.lengthIncludesLengthField ==> declared == |payload|
    ensures o.lengthIncludesFixedHeader && !o.lengthIncludesLengthField ==> declared == |o.fixedHeader| + |payload|
    ensures !o.lengthIncludesFixedHeader && o.lengthIncludesLengthField ==> declared == o.lengthBytes + |payload|
    ensures o.lengthIncludesFixedHeader && o.lengthIncludesLengthField ==>
              declared == |Framing.EncodeFrame(o, payload).value|
    ensures
      var frame := Framing.EncodeFrame(o, payload).value;
      var start, end := |o.fixedHeader|, |o.fixedHeader| + o.lengthBytes;
      && end <= |frame| && frame[..start] == o.fixedHeader && frame[end..] == payload
      && HoldsNumber(frame[start..end], declared,
                     if o.encoding.AsciiLength? then o.lengthBytes else 2 * o.lengthBytes, o.encoding)
  {
    hide HoldsNumber, ToDecimal;
    declared := |payload| + o.IncludedOverhead();
    var frame := Framing.EncodeFrame(o, payload).value;
    var field := Framing.EncodeLength(o, declared).value;
    NumeralHolds(declared, o.Digits());
    assert frame == o.fixedHeader + field + payload;
    assert frame[|o.fixedHeader|..o.PrefixLength()] == field;
  }

  /** The number a complete frame declares is the one its payload has by the two flags. */
  lemma DecodedFrameLength(o: Framing.FrameOptions, bytes: Bytes) returns (declared: nat)
    requires o.Accepted() && Framing.DecodeFrame(o, bytes).Complete?
    ensures
      var frame := Framing.DecodeFrame(o, bytes);
      && frame.payload == bytes[o.PrefixLength()..frame.consumed]
      && (o.lengthIncludesFixedHeader && o.lengthIncludesLengthField ==> declared == frame.consumed)
      && (o.lengthIncludesFixedHeader && !o.lengthIncludesLengthField ==> declared == |o.fixedHeader| + |frame.payload|)
      && (!o.lengthIncludesFixedHeader && o.lengthIncludesLengthField ==> declared == o.lengthBytes + |frame.payload|)
      && (!o.lengthIncludesFixedHeader && !o.lengthIncludesLengthField ==> declared == |frame.payload|)
    ensures Framing.DecodeLength(bytes[|o.fixedHeader|..o.PrefixLength()], o.encoding) == Some(declared)
  {
    declared := Framing.DecodeLength(bytes[|o.fixedHeader|..o.PrefixLength()], o.encoding).value;
  }

  /**
   * What a decoder says to bytes that do and do not begin with a frame: too few bytes are incomplete, a wrong header, a
   * length that is no number, does not cover what it is to count, or exceeds the limit is invalid.
   */
  lemma FrameIsReadAs(o: Framing.FrameOptions, bytes: Bytes)
    requires o.Accepted()
    ensures
      var start, end := |o.fixedHeader|, |o.fixedHeader| + o.lengthBytes;
      var answer := Framing.DecodeFrame(o, bytes);
      if |bytes| < end then answer == Framing.Incomplete
      else if bytes[..start] != o.fixedHeader then answer == Framing.Invalid
      else match Framing.DecodeLength(bytes[start..end], o.encoding)
        case None => answer == Framing.Invalid
        case Some(declared) =>
          var counted := match (o.lengthIncludesFixedHeader, o.lengthIncludesLengthField)
                         case (false, false) => 0
                         case (true, false) => |o.fixedHeader|
                         case (false, true) => o.lengthBytes
                         case (true, true) => end;
          var total := end + declared - counted;
          if declared < counted || total > o.maxFrameBytes then answer == Framing.Invalid
          else if |bytes| < total then answer == Framing.Incomplete
          else answer == Framing.Complete(bytes[end..total], total)
  {
    hide Framing.DecodeLength;
  }

  /**
   * A length field is read as n exactly when it holds the digits of n; an ASCII one may open with a byte-order mark.
   */
  lemma LengthIsReadIff(bytes: Bytes, encoding: LengthEncoding, n: nat)
    ensures
      var field := if encoding.AsciiLength? then Framing.StripByteOrderMark(bytes) else bytes;
      var width := if encoding.AsciiLength? then |field| else 2 * |field|;
      Framing.DecodeLength(bytes, encoding) == Some(n)
      <==> field != [] && n < Framing.PowerOfTen(width) && HoldsDigits(field, n, width, encoding)
  {
    hide DigitOf, HalfByte, ToDecimal, ParseDecimal, BytesToHex;
    var field := if encoding.AsciiLength? then Framing.StripByteOrderMark(bytes) else bytes;
    var width := if encoding.AsciiLength? then |field| else 2 * |field|;
    var text := Framing.LengthText(bytes, encoding);
    TextHoldsDigits(field, text, n, width, encoding);
    if field != [] {
      SpelledIff(text, n);
    }
  }

  /** A length prefix is read as n exactly when it holds the digits of n; half a byte left over is not looked at. */
  lemma PrefixIsReadIff(bytes: Bytes, n: nat, width: nat, encoding: LengthEncoding)
    requires width > 0 && |bytes| == PrefixBytes(width, encoding)
    ensures DecodeDecimalLength(bytes, width, encoding) == Some(n)
            <==> n < Framing.PowerOfTen(width) && HoldsDigits(bytes, n, width, encoding)
  {
    hide DigitOf, HalfByte, ToDecimal, ParseDecimal, BytesToHex;
    var text := if encoding.AsciiLength? then CharsOf(bytes) else LastChars(BytesToHex(bytes), width);
    TextHoldsDigits(bytes, text, n, width, encoding);
    SpelledIff(text, n);
  }

  /** A digit string of some width is a numeral for n exactly when it holds the digits of n. */
  lemma SpelledIff(s: string, n: nat)
    requires s != ""
    ensures IsNumeral(s) && ParseDecimal(s) == n <==> n < Framing.PowerOfTen(|s|) && Spells(s, n)
  {
    hide DigitOf, ToDecimal, ParseDecimal, PadZeros;
    if IsNumeral(s) && ParseDecimal(s) == n {
      Framing.ParseBound(s);
      Framing.DecimalWidth(n, |s|);
      Framing.NumeralIsPadded(s);
      PaddedIsNumeral(n, |s|);
    }
    if n < Framing.PowerOfTen(|s|) && Spells(s, n) {
      Framing.DecimalWidth(n, |s|);
      PaddedIsNumeral(n, |s|);
      var t := PadZeros(ToDecimal(n), |s|);
      assert forall i | 0 <= i < |s| :: s[i] == DigitChar(DigitOf(n, |s| - 1 - i)) == t[i];
      assert s == t;
      PaddedIsParsed(n, |s|);
    }
  }

  lemma PaddedIsParsed(n: nat, width: nat)
    requires width > 0
    ensures
      var s := PadZeros(ToDecimal(n), width);
      IsNumeral(s) && ParseDecimal(s) == n
  {
    hide ToDecimal, ParseDecimal;
    var plain := ToDecimal(n);
    ParseToDecimal(n);
    ParseLeadingZeros(Max(0, width - |plain|), plain);
  }

  lemma TextHoldsDigits(bytes: Bytes, text: string, n: nat, width: nat, encoding: LengthEncoding)
    requires |bytes| == PrefixBytes(width, encoding)
    requires text == if encoding.AsciiLength? then CharsOf(bytes) else LastChars(BytesToHex(bytes), width)
    ensures |text| == width
    ensures Spells(text, n) <==> HoldsDigits(bytes, n, width, encoding)
  {
    hide DigitOf, HalfByte, BytesToHex;
    if encoding.BcdLength? {
      HexTextHoldsDigits(bytes, text, n, width);
    }
  }

  lemma HexTextHoldsDigits(bytes: Bytes, text: string, n: nat, width: nat)
    requires |bytes| == (width + 1) / 2 && text == LastChars(BytesToHex(bytes), width)
    ensures Spells(text, n) <==> HoldsDigits(bytes, n, width, BcdLength)
  {
    hide DigitOf, HalfByte, BytesToHex, Spells;
    var printed := BytesToHex(bytes);
    EvenWidth(width);
    HexTextSpells(bytes, printed, n, width % 2);
  }

  lemma EvenWidth(width: nat)
    ensures 2 * ((width + 1) / 2) == width + width % 2
  {
  }

  lemma HexTextSpells(bytes: Bytes, printed: string, n: nat, front: nat)
    requires printed == BytesToHex(bytes) && front <= |printed|
    ensures Spells(printed[front..], n) <==>
            forall j | front <= j < |printed| :: HalfByte(bytes, j) == DigitOf(n, |printed| - 1 - j)
  {
    hide DigitOf, HalfByte, BytesToHex, HexChar;
    var text := printed[front..];
    forall j | front <= j < |printed|
      ensures text[j - front] == DigitChar(DigitOf(n, |printed| - 1 - j))
              <==> HalfByte(bytes, j) == DigitOf(n, |printed| - 1 - j)
    {
      PrintedNibbles(bytes, j);
      DigitOfNibble(HalfByte(bytes, j), DigitOf(n, |printed| - 1 - j));
    }
    if Spells(text, n) {
      forall j | front <= j < |printed|
        ensures HalfByte(bytes, j) == DigitOf(n, |printed| - 1 - j)
      {
        assert text[j - front] == DigitChar(DigitOf(n, |text| - 1 - (j - front)));
      }
    }
    if forall j | front <= j < |printed| :: HalfByte(bytes, j) == DigitOf(n, |printed| - 1 - j) {
      forall i | 0 <= i < |text|
        ensures text[i] == DigitChar(DigitOf(n, |text| - 1 - i))
      {
        assert HalfByte(bytes, front + i) == DigitOf(n, |printed| - 1 - (front + i));
      }
    }
  }

  lemma DigitOfNibble(nibble: nat, digit: nat)
    requires nibble < 16 && digit < 10
    ensures HexChar(nibble) == DigitChar(digit) <==> nibble == digit
  {
  }

  lemma PrintedNibbles(bytes: Bytes, j: nat)
    requires j < 2 * |bytes|
    ensures BytesToHex(bytes)[j] == HexChar(HalfByte(bytes, j))
  {
    assert BytesToHex(bytes)[j] == HexCharAt(bytes, j);
  }
}
