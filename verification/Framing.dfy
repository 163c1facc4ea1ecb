/**
 * Length-prefixed frames: packages/kiosk-host-native-channel/src/framing.ts.
 *
 * A frame is a fixed header, a decimal length of `lengthBytes` bytes in ASCII or packed BCD, and the payload.
 * Whether the header and the length field count towards the declared length is configurable.
 */
module Framing {
  import opened Prelude
  import opened ByteText

  datatype FrameOptions = FrameOptions(
    fixedHeader: Bytes,
    lengthBytes: int,
    encoding: LengthEncoding,
    lengthIncludesFixedHeader: bool,
    lengthIncludesLengthField: bool,
    maxFrameBytes: int)
  {
    /** The options normalizeOptions lets through. */
    predicate Accepted() {
      && 1 <= lengthBytes <= (if encoding.AsciiLength? then 9 else 6)
      && |fixedHeader| + lengthBytes < maxFrameBytes
    }

    function PrefixLength(): nat
      requires Accepted()
    {
      |fixedHeader| + lengthBytes
    }

    function IncludedOverhead(): nat
      requires Accepted()
    {
      (if lengthIncludesFixedHeader then |fixedHeader| else 0) + (if lengthIncludesLengthField then lengthBytes else 0)
    }

    /** Decimal digits the length field holds. */
    function Digits(): nat
      requires Accepted()
    {
      if encoding.AsciiLength? then lengthBytes else 2 * lengthBytes
    }
  }

  datatype EncodeError = FrameTooLarge | LengthOverflow

  datatype Decoded =
    | Incomplete
    | Complete(payload: Bytes, consumed: int)
    | Invalid

  // ----- The length field -----

  function EncodeLength(o: FrameOptions, value: nat): (r: Result<Bytes, EncodeError>)
    requires o.Accepted()
    ensures r.Ok? ==> |r.value| == o.lengthBytes
  {
    var digits := PadZeros(ToDecimal(value), o.Digits());
    if |digits| != o.Digits() then Err(LengthOverflow)
    else if o.encoding.AsciiLength? then Ok(AsciiBytes(digits))
    else
      assert IsHexPairs(digits);
      Ok(HexToBytes(digits).value)
  }

  const BYTE_ORDER_MARK: Bytes := [0xEF, 0xBB, 0xBF]

  /** TextDecoder drops a leading UTF-8 byte-order mark. */
  function StripByteOrderMark(bytes: Bytes): Bytes {
    if BYTE_ORDER_MARK <= bytes then bytes[3..] else bytes
  }

  /** The decimal text a length field stands for. */
  function LengthText(bytes: Bytes, encoding: LengthEncoding): string {
    if encoding.AsciiLength? then CharsOf(StripByteOrderMark(bytes)) else BytesToHex(bytes)
  }

  function DecodeLength(bytes: Bytes, encoding: LengthEncoding): Option<nat> {
    var text := LengthText(bytes, encoding);
    if IsNumeral(text) then Some(ParseDecimal(text)) else None
  }

  /** The BCD branch of decodeLength as the source runs it, two nibbles at a time. */
  method DecodeBcdLength(bytes: Bytes) returns (r: Option<nat>)
    requires bytes != []
    ensures r == DecodeLength(bytes, BcdLength)
  {
    hide PadZeros, ToDecimal, HexToBytes;
    var text := BytesToHex(bytes);
    var value: nat := 0;
    var index := 0;
    while index < |bytes|
      invariant 0 <= index <= |bytes|
      invariant AllDigits(text[..2 * index])
      invariant value == ParseDecimal(text[..2 * index])
    {
      var high: nat, low: nat := bytes[index] / 16, bytes[index] % 16;
      NibblesAt(bytes, index);
      if high > 9 || low > 9 {
        assert !IsDigit(text[2 * index]) || !IsDigit(text[2 * index + 1]);
        return None;
      }
      AppendDigits(text, 2 * index);
      value := value * 100 + high * 10 + low;
      index := index + 1;
    }
    assert text[..2 * index] == text;
    return Some(value);
  }

  lemma NibblesAt(bytes: Bytes, index: nat)
    requires index < |bytes|
    ensures BytesToHex(bytes)[2 * index] == HexChar(bytes[index] / 16)
    ensures BytesToHex(bytes)[2 * index + 1] == HexChar(bytes[index] % 16)
  {
    assert BytesToHex(bytes)[2 * index] == HexCharAt(bytes, 2 * index);
    assert BytesToHex(bytes)[2 * index + 1] == HexCharAt(bytes, 2 * index + 1);
    assert (2 * index) / 2 == index && (2 * index + 1) / 2 == index;
  }

  lemma AppendDigits(text: string, k: nat)
    requires k + 2 <= |text| && AllDigits(text[..k]) && IsDigit(text[k]) && IsDigit(text[k + 1])
    ensures AllDigits(text[..k + 2])
    ensures ParseDecimal(text[..k + 2]) == 100 * ParseDecimal(text[..k]) + 10 * DigitValue(text[k])
        + DigitValue(text[k + 1])
  {
    assert text[..k + 2][..k + 1] == text[..k + 1];
    assert text[..k + 1][..k] == text[..k];
  }

  lemma LengthRoundTrip(o: FrameOptions, value: nat)
    requires o.Accepted() && EncodeLength(o, value).Ok?
    ensures DecodeLength(EncodeLength(o, value).value, o.encoding) == Some(value)
  {
    hide ToDecimal, ParseDecimal, HexToBytes, AsciiBytes, LengthText;
    var plain := ToDecimal(value);
    var digits := PadZeros(plain, o.Digits());
    ParseToDecimal(value);
    ParseLeadingZeros(o.Digits() - |plain|, plain);
    assert Repeat(o.Digits() - |plain|, '0') + plain == digits;
    LengthTextOfDigits(digits, o.encoding);
  }

  /** The bytes of a digit string stand for that string. */
  lemma LengthTextOfDigits(digits: string, encoding: LengthEncoding)
    requires IsNumeral(digits)
    ensures encoding.AsciiLength? ==> LengthText(AsciiBytes(digits), AsciiLength) == digits
    ensures encoding.BcdLength? && |digits| % 2 == 0 ==>
              IsHexPairs(digits) && LengthText(HexToBytes(digits).value, BcdLength) == digits
  {
    if encoding.AsciiLength? {
      var bytes := AsciiBytes(digits);
      assert bytes[0] == digits[0] as int;
      assert !(BYTE_ORDER_MARK <= bytes);
      CharsOfAscii(digits);
    } else {
      DigitsAreUpperHex(digits);
    }
  }

  // ----- Frames -----

  function EncodeFrame(o: FrameOptions, payload: Bytes): (r: Result<Bytes, EncodeError>)
    requires o.Accepted()
    ensures r.Ok? ==> |r.value| == o.PrefixLength() + |payload| <= o.maxFrameBytes
  {
    if o.PrefixLength() + |payload| > o.maxFrameBytes then Err(FrameTooLarge)
    else
      var length :- EncodeLength(o, |payload| + o.IncludedOverhead());
      Ok(o.fixedHeader + length + payload)
  }

  /** encodeFrame as the source runs it: header, length and payload are copied into one buffer. */
  method EncodeFrameInPlace(o: FrameOptions, payload: Bytes) returns (r: Result<array<Byte>, EncodeError>)
    requires o.Accepted()
    ensures r.Ok? <==> EncodeFrame(o, payload).Ok?
    ensures r.Ok? ==> fresh(r.value) && r.value[..] == EncodeFrame(o, payload).value
    ensures r.Err? ==> r.error == EncodeFrame(o, payload).error
  {
    hide EncodeLength;
    var total := o.PrefixLength() + |payload|;
    if total > o.maxFrameBytes {
      return Err(FrameTooLarge);
    }
    var length := EncodeLength(o, |payload| + o.IncludedOverhead());
    if length.Err? {
      return Err(length.error);
    }
    var result := new Byte[total];
    CopyInto(result, o.fixedHeader, 0);
    CopyInto(result, length.value, |o.fixedHeader|);
    CopyInto(result, payload, o.PrefixLength());
    assert result[..] == o.fixedHeader + length.value + payload;
    return Ok(result);
  }

  /** Uint8Array.set. */
  method CopyInto(target: array<Byte>, source: Bytes, offset: nat)
    requires offset + |source| <= target.Length
    modifies target
    ensures target[..] == old(target[..offset]) + source + old(target[offset + |source|..])
  {
    forall i | 0 <= i < |source| {
      target[offset + i] := source[i];
    }
  }

  function DecodeFrame(o: FrameOptions, bytes: Bytes): (r: Decoded)
    requires o.Accepted()
    ensures r.Complete? ==> 0 < r.consumed <= |bytes| && r.consumed == o.PrefixLength() + |r.payload|
  {
    if |bytes| < o.PrefixLength() then Incomplete
    else if !(o.fixedHeader <= bytes) then Invalid
    else
      var declared := DecodeLength(bytes[|o.fixedHeader|..o.PrefixLength()], o.encoding);
      if declared.None? then Invalid
      else
        var payloadBytes := declared.value - o.IncludedOverhead();
        var total := o.PrefixLength() + payloadBytes;
        if payloadBytes < 0 || total > o.maxFrameBytes then Invalid
        else if |bytes| < total then Incomplete
        else Complete(bytes[o.PrefixLength()..total], total)
  }

  /** A frame is read back whatever bytes follow it, and is consumed exactly. */
  lemma FrameRoundTrip(o: FrameOptions, payload: Bytes, rest: Bytes)
    requires o.Accepted() && EncodeFrame(o, payload).Ok?
    ensures
      var frame := EncodeFrame(o, payload).value;
      DecodeFrame(o, frame + rest) == Complete(payload, |frame|)
  {
    hide EncodeLength, DecodeLength;
    var frame := EncodeFrame(o, payload).value;
    var value := |payload| + o.IncludedOverhead();
    LengthRoundTrip(o, value);
    var bytes := frame + rest;
    assert bytes[|o.fixedHeader|..o.PrefixLength()] == EncodeLength(o, value).value;
    assert bytes[o.PrefixLength()..|frame|] == payload;
  }

  /** No frame is a prefix of another frame's bytes: a cut frame is never complete and never invalid. */
  lemma CutFrameIsIncomplete(o: FrameOptions, payload: Bytes, k: nat)
    requires o.Accepted() && EncodeFrame(o, payload).Ok?
    requires k < |EncodeFrame(o, payload).value|
    ensures DecodeFrame(o, EncodeFrame(o, payload).value[..k]) == Incomplete
  {
    hide EncodeLength, DecodeLength;
    var frame := EncodeFrame(o, payload).value;
    if k >= o.PrefixLength() {
      var value := |payload| + o.IncludedOverhead();
      LengthRoundTrip(o, value);
      assert frame[..k][|o.fixedHeader|..o.PrefixLength()] == EncodeLength(o, value).value;
    }
  }

  // ----- When encoding fails -----

  function PowerOfTen(n: nat): (p: nat)
    ensures p > 0
  {
    if n == 0 then 1 else 10 * PowerOfTen(n - 1)
  }

  lemma {:induction false} DecimalWidth(value: nat, width: nat)
    requires width > 0
    ensures |ToDecimal(value)| <= width <==> value < PowerOfTen(width)
    decreases width
  {
    if width == 1 {
      assert PowerOfTen(1) == 10;
      if value >= 10 {
        assert |ToDecimal(value)| >= 2;
      }
    } else {
      assert PowerOfTen(width - 1) >= 1 && PowerOfTen(width) == 10 * PowerOfTen(width - 1);
      if value >= 10 {
        DecimalWidth(value / 10, width - 1);
      }
    }
  }

  /** encode throws exactly when the frame is over the limit or its length has too many digits. */
  lemma EncodeSucceedsIff(o: FrameOptions, payload: Bytes)
    requires o.Accepted()
    ensures EncodeFrame(o, payload).Ok? <==>
            && o.PrefixLength() + |payload| <= o.maxFrameBytes
            && |payload| + o.IncludedOverhead() < PowerOfTen(o.Digits())
  {
    DecimalWidth(|payload| + o.IncludedOverhead(), o.Digits());
  }

  // ----- Decoding then encoding -----

  lemma {:induction false} ParseBound(s: string)
    requires AllDigits(s)
    ensures ParseDecimal(s) < PowerOfTen(|s|)
  {
    if s != "" {
      ParseBound(s[..|s| - 1]);
    }
  }

  /** A digit string is determined by its width and its value. */
  lemma {:induction false} NumeralIsUnique(s: string, t: string)
    requires AllDigits(s) && AllDigits(t) && |s| == |t| && ParseDecimal(s) == ParseDecimal(t)
    ensures s == t
  {
    if s != "" {
      var n := |s| - 1;
      assert DigitValue(s[n]) == DigitValue(t[n]) && ParseDecimal(s[..n]) == ParseDecimal(t[..n]);
      NumeralIsUnique(s[..n], t[..n]);
      assert s == s[..n] + [s[n]] && t == t[..n] + [t[n]];
    }
  }

  lemma NumeralIsPadded(s: string)
    requires IsNumeral(s)
    ensures PadZeros(ToDecimal(ParseDecimal(s)), |s|) == s
  {
    var value := ParseDecimal(s);
    var plain := ToDecimal(value);
    ParseBound(s);
    DecimalWidth(value, |s|);
    ParseToDecimal(value);
    ParseLeadingZeros(|s| - |plain|, plain);
    assert Repeat(|s| - |plain|, '0') + plain == PadZeros(plain, |s|);
    NumeralIsUnique(PadZeros(plain, |s|), s);
  }

  lemma {:induction false} HexTextIsInjective(bytes: Bytes)
    requires AllDigits(BytesToHex(bytes))
    ensures IsHexPairs(BytesToHex(bytes)) && HexToBytes(BytesToHex(bytes)).value == bytes
  {
    HexOfBytes(bytes);
  }

  /**
   * A length field that decodes is exactly the field encoding its value again,
   * unless it is an ASCII field that opens with a byte-order mark.
   */
  lemma LengthFieldIsCanonical(o: FrameOptions, field: Bytes)
    requires o.Accepted() && |field| == o.lengthBytes && DecodeLength(field, o.encoding).Some?
    ensures EncodeLength(o, DecodeLength(field, o.encoding).value) == Ok(field)
            <==> !(o.encoding.AsciiLength? && BYTE_ORDER_MARK <= field)
  {
    var value := DecodeLength(field, o.encoding).value;
    var text := LengthText(field, o.encoding);
    if o.encoding.AsciiLength? && BYTE_ORDER_MARK <= field {
      var digits := PadZeros(ToDecimal(value), o.Digits());
      if |digits| == o.Digits() {
        assert AsciiBytes(digits)[0] == digits[0] as int;
        assert field[0] == 0xEF;
      }
    } else {
      NumeralIsPadded(text);
      if o.encoding.AsciiLength? {
        assert AsciiBytes(text) == field;
      } else {
        HexTextIsInjective(field);
      }
    }
  }

  /** Decoding then encoding gives the consumed bytes back, under the same condition. */
  lemma DecodedFrameReencodes(o: FrameOptions, bytes: Bytes)
    requires o.Accepted() && DecodeFrame(o, bytes).Complete?
    ensures
      var frame := DecodeFrame(o, bytes);
      EncodeFrame(o, frame.payload) == Ok(bytes[..frame.consumed])
      <==> !(o.encoding.AsciiLength? && BYTE_ORDER_MARK <= bytes[|o.fixedHeader|..o.PrefixLength()])
  {
    hide EncodeLength, DecodeLength;
    var frame := DecodeFrame(o, bytes);
    var h, p := |o.fixedHeader|, o.PrefixLength();
    var field := bytes[h..p];
    LengthFieldIsCanonical(o, field);
    var consumed := bytes[..frame.consumed];
    assert consumed == o.fixedHeader + field + frame.payload;
    var encoded := EncodeFrame(o, frame.payload);
    if encoded == Ok(consumed) {
      assert encoded.value[h..p] == EncodeLength(o, |frame.payload| + o.IncludedOverhead()).value;
      assert consumed[h..p] == field;
    }
  }
}
