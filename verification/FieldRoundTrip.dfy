/**
  When one packed field reads back as itself.

  `validateField` accepts field definitions that lose information. `Recoverable` is the exact
  condition, in terms a caller can check before packing: text case, digit parity, and how the
  padding meets the encoded bytes.
 */
module FieldRoundTrip {
  import opened Prelude
  import opened ByteText
  import opened FieldCodecs
  import opened FieldWire

  /** Whether the reader learns how many BCD digits there are, from the definition or the prefix. */
  predicate DigitCountKnown(field: Field)
    requires field.encoding.Bcd?
  {
    field.encoding.digitCount.Some? || (field.length.Variable? && field.length.unit.DigitUnit?)
  }

  /** The edge of the value that stripping eats into does not hold the pad byte. */
  predicate EdgeSurvives(padding: Padding, bytes: Bytes) {
    bytes == [] || (if padding.left then bytes[0] else bytes[|bytes| - 1]) != padding.byte
  }

  /** Hexadecimal digit i of an endless run of the pad byte. */
  function PadDigit(pad: Byte, i: nat): char {
    if i % 2 == 0 then HexChar(pad / 16) else HexChar(pad % 16)
  }

  /**
    Fill that is never stripped is harmless only to a BCD field with an odd digit count, whose
    reader cuts the text: the fill stands on the side that is cut, or the value is pad digits throughout.
   */
  predicate FillIsCut(encoding: Encoding, padding: Padding, value: Value)
    requires encoding.Bcd? && value.Text?
  {
    && encoding.digitCount.Some?
    && encoding.digitCount.value % 2 == 1
    && (padding.left != encoding.padRight ||
        forall i :: 0 <= i < |value.text| ==>
          value.text[i] == PadDigit(padding.byte, if padding.left then i else i + 1))
  }

  /** The exact condition under which a field that packs also reads back. */
  predicate Recoverable(field: Field, value: Value) {
    var encoded := EncodeValue(field.encoding, value);
    && encoded.Ok?
    && (field.encoding.AsciiHex? ==>
          && IsUpperHex(value.text)
          && (field.length.Variable? && field.length.unit.DigitUnit? ==> value.text == ""))
    && (field.encoding.Bcd? && !DigitCountKnown(field) ==> |value.text| % 2 == 0)
    && (field.padding.Some? ==>
          if field.padding.value.strip then EdgeSurvives(field.padding.value, encoded.value.bytes)
          else field.length.Fixed? && |encoded.value.bytes| < field.length.bytes ==>
            field.encoding.Bcd? && FillIsCut(field.encoding, field.padding.value, value))
  }

  // ----- Stripping -----

  /** Bytes with k pad bytes on the padded side. */
  function Filled(padding: Padding, bytes: Bytes, k: nat): Bytes {
    if padding.left then Repeat(k, padding.byte) + bytes else bytes + Repeat(k, padding.byte)
  }

  lemma {:induction false} StripLeftFill(k: nat, pad: Byte, bytes: Bytes)
    ensures StripLeft(Repeat(k, pad) + bytes, pad) == StripLeft(bytes, pad)
  {
    if k == 0 {
      assert Repeat(k, pad) + bytes == bytes;
    } else {
      var all := Repeat(k, pad) + bytes;
      assert all[1..] == Repeat(k - 1, pad) + bytes;
      StripLeftFill(k - 1, pad, bytes);
    }
  }

  lemma {:induction false} StripRightFill(k: nat, pad: Byte, bytes: Bytes)
    ensures StripRight(bytes + Repeat(k, pad), pad) == StripRight(bytes, pad)
  {
    if k == 0 {
      assert bytes + Repeat(k, pad) == bytes;
    } else {
      var all := bytes + Repeat(k, pad);
      assert all[..|all| - 1] == bytes + Repeat(k - 1, pad);
      StripRightFill(k - 1, pad, bytes);
    }
  }

  lemma {:induction false} StripShortens(bytes: Bytes, pad: Byte)
    ensures |StripLeft(bytes, pad)| <= |bytes| && |StripRight(bytes, pad)| <= |bytes|
    ensures bytes != [] && bytes[0] == pad ==> |StripLeft(bytes, pad)| < |bytes|
    ensures bytes != [] && bytes[|bytes| - 1] == pad ==> |StripRight(bytes, pad)| < |bytes|
  {
    if bytes != [] {
      StripShortens(bytes[1..], pad);
      StripShortens(bytes[..|bytes| - 1], pad);
    }
  }

  /** The bytes the decoder sees for an encoded value that was filled with k pad bytes. */
  lemma StrippedFill(field: Field, bytes: Bytes, k: nat)
    requires field.padding.Some? && field.padding.value.strip
    ensures StripPadding(field, Filled(field.padding.value, bytes, k)) == StripPadding(field, bytes)
    ensures EdgeSurvives(field.padding.value, bytes) ==> StripPadding(field, bytes) == bytes
    ensures !EdgeSurvives(field.padding.value, bytes) ==> |StripPadding(field, bytes)| < |bytes|
  {
    StripLeftFill(k, field.padding.value.byte, bytes);
    StripRightFill(k, field.padding.value.byte, bytes);
    StripShortens(bytes, field.padding.value.byte);
  }

  // ----- Decoding what was encoded -----

  /** The bytes are the digits of the text in hexadecimal, with the pad nibble on its side. */
  predicate HoldsDigits(encoding: Encoding, bytes: Bytes, text: string)
    requires encoding.Bcd?
  {
    && 2 * |bytes| == |text| + |text| % 2
    && (if encoding.padRight then BytesToHex(bytes)[..|text|] else BytesToHex(bytes)[|text| % 2..]) == text
  }

  lemma DigitOfPairs(padded: string, i: nat)
    requires IsHexPairs(padded) && i < |padded| && IsDigit(padded[i])
    ensures BytesToHex(HexToBytes(padded).value)[i] == padded[i]
  {
    HexCharOfText(padded, i);
  }

  lemma BcdHexText(encoding: Encoding, text: string)
    requires encoding.Bcd? && EncodeBcd(encoding, text).Ok?
    ensures HoldsDigits(encoding, EncodeBcd(encoding, text).value.bytes, text)
  {
    var padded := BcdDigits(encoding, text);
    var offset := if encoding.padRight then 0 else |text| % 2;
    var h := BytesToHex(HexToBytes(padded).value);
    assert padded[offset..offset + |text|] == text;
    forall i | 0 <= i < |text|
      ensures h[offset..offset + |text|][i] == text[i]
    {
      assert padded[offset..offset + |text|][i] == padded[offset + i];
      DigitOfPairs(padded, offset + i);
    }
    assert h[offset..offset + |text|] == text;
  }

  lemma BcdDecodesOwnBytes(encoding: Encoding, text: string, logicalLength: Option<nat>)
    requires encoding.Bcd? && EncodeBcd(encoding, text).Ok?
    requires logicalLength.Some? ==> logicalLength.value == |text|
    ensures DecodeBcd(encoding, EncodeBcd(encoding, text).value.bytes, logicalLength) == Ok(text)
            <==> logicalLength.Some? || encoding.digitCount.Some? || |text| % 2 == 0
  {
    BcdHexText(encoding, text);
    var h := BytesToHex(EncodeBcd(encoding, text).value.bytes);
    assert |text| % 2 == 0 ==> h[..|text|] == h && h[0..] == h;
    assert LastChars(h, |text|) == h[|h| - |text|..];
  }

  /** Equal hexadecimal text means equal bytes. */
  lemma HexIsInjective(a: Bytes, b: Bytes)
    requires BytesToHex(a) == BytesToHex(b)
    ensures a == b
  {
    HexOfBytes(a);
    HexOfBytes(b);
  }

  lemma CharsAreInjective(a: Bytes, b: Bytes)
    requires CharsOf(a) == CharsOf(b)
    ensures a == b
  {
    forall i | 0 <= i < |a|
      ensures a[i] == b[i]
    {
      assert CharsOf(a)[i] == a[i] as char && CharsOf(b)[i] == b[i] as char;
    }
  }

  /** The encoded bytes decode to their value exactly for upper-case hex and a countable BCD value. */
  lemma DecodesOwnBytes(encoding: Encoding, value: Value, logicalLength: Option<nat>)
    requires EncodeValue(encoding, value).Ok?
    requires encoding.Bcd? && logicalLength.Some? ==> logicalLength.value == |value.text|
    ensures DecodeValue(encoding, EncodeValue(encoding, value).value.bytes, logicalLength) == Ok(value)
            <==> && (encoding.AsciiHex? ==> IsUpperHex(value.text))
                 && (encoding.Bcd? ==>
                       logicalLength.Some? || encoding.digitCount.Some? || |value.text| % 2 == 0)
  {
    match encoding
    case Ascii => CharsOfAscii(value.text);
    case Binary =>
    case AsciiHex => BytesOfHex(value.text);
    case Bcd(_, _, _) => BcdDecodesOwnBytes(encoding, value.text, logicalLength);
  }

  lemma OtherAscii(value: Value, bytes: Bytes)
    requires EncodeValue(Ascii, value).Ok? && bytes != EncodeValue(Ascii, value).value.bytes
    ensures DecodeValue(Ascii, bytes, None) != Ok(value)
  {
    hide IsAscii;
    var own := EncodeValue(Ascii, value).value.bytes;
    AsciiIsRead(value);
    if DecodeValue(Ascii, bytes, None) == Ok(value) {
      CharsAreInjective(bytes, own);
    }
  }

  lemma AsciiIsRead(value: Value)
    requires EncodeValue(Ascii, value).Ok?
    ensures CharsOf(EncodeValue(Ascii, value).value.bytes) == value.text
  {
    CharsOfAscii(value.text);
  }

  lemma OtherHex(value: Value, bytes: Bytes)
    requires EncodeValue(AsciiHex, value).Ok? && bytes != EncodeValue(AsciiHex, value).value.bytes
    ensures DecodeValue(AsciiHex, bytes, None) != Ok(value)
  {
    hide HexCharAt, BytesToHex, HexToBytes;
    var own := EncodeValue(AsciiHex, value).value.bytes;
    if BytesToHex(bytes) == value.text {
      BytesOfHex(value.text);
      HexIsInjective(bytes, own);
    }
  }

  /** An even text keeps every hexadecimal digit, so the bytes are determined. */
  lemma OtherEvenBcd(encoding: Encoding, text: string, bytes: Bytes, logicalLength: Option<nat>)
    requires encoding.Bcd? && EncodeBcd(encoding, text).Ok? && |text| % 2 == 0
    requires logicalLength.Some? ==> logicalLength.value == |text|
    requires bytes != EncodeBcd(encoding, text).value.bytes
    ensures DecodeBcd(encoding, bytes, logicalLength) != Ok(text)
  {
    var own := EncodeBcd(encoding, text).value.bytes;
    BcdHexText(encoding, text);
    var h := BytesToHex(own);
    hide HexCharAt, BytesToHex, EncodeBcd;
    assert h[0..] == h[..|text|] == h;
    if DecodeBcd(encoding, bytes, logicalLength) == Ok(text) {
      assert BytesToHex(bytes) == text;
      HexIsInjective(bytes, own);
    }
  }

  /** An odd text has more digits than fewer bytes can hold, and whole bytes never give an odd text. */
  lemma OtherOddBcd(encoding: Encoding, text: string, bytes: Bytes, logicalLength: Option<nat>)
    requires encoding.Bcd? && EncodeBcd(encoding, text).Ok? && |text| % 2 == 1
    requires logicalLength.Some? ==> logicalLength.value == |text|
    requires |bytes| < |EncodeBcd(encoding, text).value.bytes| || (logicalLength.None? && encoding.digitCount.None?)
    ensures DecodeBcd(encoding, bytes, logicalLength) != Ok(text)
  {
    hide HexCharAt, BytesToHex, HexToBytes, BcdDigits;
  }

  /** Bytes other than the encoded ones never decode to the value, unless an odd digit count cuts them. */
  lemma OtherBytesDecodeDifferently(encoding: Encoding, value: Value, bytes: Bytes, logicalLength: Option<nat>)
    requires EncodeValue(encoding, value).Ok?
    requires encoding.Bcd? && logicalLength.Some? ==> logicalLength.value == |value.text|
    requires bytes != EncodeValue(encoding, value).value.bytes
    requires encoding.Bcd? && |value.text| % 2 == 1 ==>
               || |bytes| < |EncodeValue(encoding, value).value.bytes|
               || (logicalLength.None? && encoding.digitCount.None?)
    ensures DecodeValue(encoding, bytes, logicalLength) != Ok(value)
  {
    hide EncodeBcd, DecodeBcd, IsAscii, CharsOf, AsciiBytes, BytesToHex, HexToBytes;
    match encoding
    case Ascii => OtherAscii(value, bytes);
    case Binary =>
    case AsciiHex => OtherHex(value, bytes);
    case Bcd(_, _, _) =>
      if |value.text| % 2 == 0 {
        OtherEvenBcd(encoding, value.text, bytes, logicalLength);
      } else {
        OtherOddBcd(encoding, value.text, bytes, logicalLength);
      }
  }

  // ----- Fill that is not stripped -----

  /** Hexadecimal digit i of fill put before or after some bytes. */
  lemma HexOfFilled(left: Bytes, right: Bytes, i: nat)
    requires i < 2 * |left + right|
    ensures BytesToHex(left + right)[i] ==
            if i < 2 * |left| then BytesToHex(left)[i] else BytesToHex(right)[i - 2 * |left|]
  {
    assert i >= 2 * |left| ==> (i - 2 * |left|) / 2 == i / 2 - |left| && (i - 2 * |left|) % 2 == i % 2;
    assert (left + right)[i / 2] == if i < 2 * |left| then left[i / 2] else right[i / 2 - |left|];
  }

  lemma HexOfRepeat(k: nat, pad: Byte, i: nat)
    requires i < 2 * k
    ensures BytesToHex(Repeat(k, pad))[i] == PadDigit(pad, i)
  {
  }

  lemma HexConcat(left: Bytes, right: Bytes)
    ensures BytesToHex(left + right) == BytesToHex(left) + BytesToHex(right)
  {
    forall i | 0 <= i < 2 * |left + right|
      ensures BytesToHex(left + right)[i] == (BytesToHex(left) + BytesToHex(right))[i]
    {
      HexOfFilled(left, right, i);
    }
  }

  /** Digit j that an odd digit count keeps of filled BCD bytes. */
  function KeptDigit(encoding: Encoding, padding: Padding, text: string, k: nat, j: nat): char
    requires encoding.Bcd? && j < |text|
  {
    if padding.left != encoding.padRight then text[j]
    else if padding.left then (if j < 2 * k then PadDigit(padding.byte, j) else text[j - 2 * k])
    else if 2 * k + j < |text| then text[2 * k + j]
    else PadDigit(padding.byte, j + 1)
  }

  lemma PadDigitPeriod(pad: Byte, i: nat, j: nat)
    requires i % 2 == j % 2
    ensures PadDigit(pad, i) == PadDigit(pad, j)
  {
  }

  /** Digit j of an odd text in the hexadecimal form of its own bytes. */
  lemma OwnDigit(encoding: Encoding, own: Bytes, text: string, j: nat)
    requires encoding.Bcd? && |text| % 2 == 1 && HoldsDigits(encoding, own, text) && j < |text|
    ensures 2 * |own| == |text| + 1
    ensures BytesToHex(own)[if encoding.padRight then j else j + 1] == text[j]
  {
    hide BytesToHex;
    var h := BytesToHex(own);
    if encoding.padRight {
      assert h[..|text|][j] == h[j];
    } else {
      assert h[1..][j] == h[j + 1];
    }
  }

  lemma FillDigitLeft(padding: Padding, own: Bytes, k: nat, at: nat)
    requires at < 2 * k
    ensures BytesToHex(Repeat(k, padding.byte) + own)[at] == PadDigit(padding.byte, at)
  {
    HexOfFilled(Repeat(k, padding.byte), own, at);
    HexOfRepeat(k, padding.byte, at);
  }

  lemma OwnDigitLeft(padding: Padding, own: Bytes, k: nat, at: nat)
    requires at < 2 * |own|
    ensures BytesToHex(Repeat(k, padding.byte) + own)[2 * k + at] == BytesToHex(own)[at]
  {
    HexOfFilled(Repeat(k, padding.byte), own, 2 * k + at);
  }

  lemma KeptDigitLeft(encoding: Encoding, padding: Padding, text: string, own: Bytes, k: nat, j: nat)
    requires encoding.Bcd? && |text| % 2 == 1 && HoldsDigits(encoding, own, text) && j < |text| && padding.left
    ensures BytesToHex(Filled(padding, own, k))[(if encoding.padRight then 0 else 2 * k + 1) + j]
            == KeptDigit(encoding, padding, text, k, j)
  {
    OwnDigit(encoding, own, text, j);
    hide BytesToHex, PadDigit, HoldsDigits;
    if !encoding.padRight {
      OwnDigitLeft(padding, own, k, j + 1);
    } else if j < 2 * k {
      FillDigitLeft(padding, own, k, j);
    } else {
      OwnDigit(encoding, own, text, j - 2 * k);
      OwnDigitLeft(padding, own, k, j - 2 * k);
    }
  }

  /** Fill behind the bytes of an odd text: its digits alternate from the text's end on. */
  lemma FillDigitRight(padding: Padding, own: Bytes, k: nat, at: nat)
    requires 2 * |own| <= at < 2 * |own| + 2 * k
    ensures BytesToHex(own + Repeat(k, padding.byte))[at] == PadDigit(padding.byte, at)
  {
    HexConcat(own, Repeat(k, padding.byte));
    HexOfRepeat(k, padding.byte, at - 2 * |own|);
    assert (at - 2 * |own|) % 2 == at % 2;
    PadDigitPeriod(padding.byte, at - 2 * |own|, at);
  }

  lemma OwnDigitRight(padding: Padding, own: Bytes, k: nat, at: nat)
    requires at < 2 * |own|
    ensures BytesToHex(own + Repeat(k, padding.byte))[at] == BytesToHex(own)[at]
  {
    HexOfFilled(own, Repeat(k, padding.byte), at);
  }

  lemma KeptDigitRight(encoding: Encoding, padding: Padding, text: string, own: Bytes, k: nat, j: nat)
    requires encoding.Bcd? && |text| % 2 == 1 && HoldsDigits(encoding, own, text) && j < |text| && !padding.left
    ensures BytesToHex(Filled(padding, own, k))[(if encoding.padRight then 0 else 2 * k + 1) + j]
            == KeptDigit(encoding, padding, text, k, j)
  {
    OwnDigit(encoding, own, text, j);
    hide BytesToHex, PadDigit, HoldsDigits;
    if encoding.padRight {
      OwnDigitRight(padding, own, k, j);
    } else if 2 * k + j < |text| {
      OwnDigit(encoding, own, text, 2 * k + j);
      OwnDigitRight(padding, own, k, 2 * k + 1 + j);
    } else {
      FillDigitRight(padding, own, k, 2 * k + 1 + j);
      PadDigitPeriod(padding.byte, 2 * k + 1 + j, j + 1);
    }
  }

  lemma KeptDigitAt(encoding: Encoding, padding: Padding, text: string, own: Bytes, k: nat, j: nat)
    requires encoding.Bcd? && |text| % 2 == 1 && HoldsDigits(encoding, own, text) && j < |text|
    ensures var h := BytesToHex(Filled(padding, own, k));
            h[(if encoding.padRight then 0 else 2 * k + 1) + j] == KeptDigit(encoding, padding, text, k, j)
  {
    hide BytesToHex, KeptDigit;
    if padding.left {
      KeptDigitLeft(encoding, padding, text, own, k, j);
    } else {
      KeptDigitRight(encoding, padding, text, own, k, j);
    }
  }

  lemma KeptDigits(encoding: Encoding, padding: Padding, text: string, own: Bytes, k: nat)
    requires encoding.Bcd? && |text| % 2 == 1 && HoldsDigits(encoding, own, text)
    ensures var kept := KeepDigits(encoding, BytesToHex(Filled(padding, own, k)), |text|);
            |kept| == |text| && forall j :: 0 <= j < |text| ==> kept[j] == KeptDigit(encoding, padding, text, k, j)
  {
    var h := BytesToHex(Filled(padding, own, k));
    var start := if encoding.padRight then 0 else 2 * k + 1;
    assert KeepDigits(encoding, h, |text|) == h[start..start + |text|];
    forall j | 0 <= j < |text|
      ensures h[start..start + |text|][j] == KeptDigit(encoding, padding, text, k, j)
    {
      KeptDigitAt(encoding, padding, text, own, k, j);
    }
  }

  /** The text is what an odd count keeps of its own filled bytes. */
  predicate KeepsItself(encoding: Encoding, padding: Padding, text: string, k: nat)
    requires encoding.Bcd?
  {
    forall j {:trigger KeptDigit(encoding, padding, text, k, j)} :: 0 <= j < |text| ==>
      text[j] == KeptDigit(encoding, padding, text, k, j)
  }

  /** A text cut from its own fill repeats 2k places further on, so it is pad digits throughout. */
  lemma {:induction false} PadDigitsOnly(encoding: Encoding, padding: Padding, text: string, k: nat, i: nat)
    requires encoding.Bcd? && padding.left == encoding.padRight
    requires k > 0 && i < |text| && KeepsItself(encoding, padding, text, k)
    ensures text[i] == PadDigit(padding.byte, if padding.left then i else i + 1)
    decreases if padding.left then i else |text| - i
  {
    assert text[i] == KeptDigit(encoding, padding, text, k, i);
    if padding.left && i >= 2 * k {
      PadDigitsOnly(encoding, padding, text, k, i - 2 * k);
    }
    if !padding.left && 2 * k + i < |text| {
      PadDigitsOnly(encoding, padding, text, k, i + 2 * k);
    }
  }

  lemma KeepsItselfIffCut(encoding: Encoding, padding: Padding, text: string, k: nat)
    requires encoding.Bcd? && k > 0 && |text| % 2 == 1 && encoding.digitCount == Some(|text|)
    ensures KeepsItself(encoding, padding, text, k) <==> FillIsCut(encoding, padding, Text(text))
  {
    if KeepsItself(encoding, padding, text, k) && padding.left == encoding.padRight {
      forall i | 0 <= i < |text|
        ensures text[i] == PadDigit(padding.byte, if padding.left then i else i + 1)
      {
        PadDigitsOnly(encoding, padding, text, k, i);
      }
    }
  }

  lemma UnstrippedFill(encoding: Encoding, padding: Padding, text: string, k: nat)
    requires encoding.Bcd? && EncodeBcd(encoding, text).Ok? && k > 0
    requires encoding.digitCount.Some? && |text| % 2 == 1
    ensures DecodeBcd(encoding, Filled(padding, EncodeBcd(encoding, text).value.bytes, k), encoding.digitCount)
              == Ok(text)
            <==> FillIsCut(encoding, padding, Text(text))
  {
    var own := EncodeBcd(encoding, text).value.bytes;
    BcdHexText(encoding, text);
    KeptDigits(encoding, padding, text, own, k);
    var kept := KeepDigits(encoding, BytesToHex(Filled(padding, own, k)), |text|);
    assert kept == text <==> KeepsItself(encoding, padding, text, k);
    KeepsItselfIffCut(encoding, padding, text, k);
  }

  // ----- The field round trip -----

  /** The reader of a fixed field decodes all of its bytes. */
  lemma FixedRead(field: Field, value: Value, wire: Bytes, rest: Bytes)
    requires field.length.Fixed? && PackField(field, value) == Ok(wire)
    ensures var logicalLength := if field.encoding.Bcd? then field.encoding.digitCount else None;
            UnpackField(field, wire + rest) == FieldRead(Ok(value), |wire|)
            <==> DecodeValue(field.encoding, StripPadding(field, wire), logicalLength) == Ok(value)
  {
    hide EncodeValue, DecodeValue, StripPadding, PadBytes;
    assert (wire + rest)[0..|wire|] == wire;
  }

  /** The wire of a fixed field is the encoded bytes and their fill. */
  lemma FixedWire(field: Field, value: Value, wire: Bytes)
    requires field.length.Fixed? && PackField(field, value) == Ok(wire)
    ensures EncodeValue(field.encoding, value).Ok? && |wire| == field.length.bytes
    ensures var own := EncodeValue(field.encoding, value).value.bytes;
            && |own| <= |wire|
            && (|own| == |wire| ==> wire == own)
            && (|own| < |wire| ==>
                  field.padding.Some? && wire == Filled(field.padding.value, own, |wire| - |own|))
  {
    hide EncodeValue, ValueAllowed;
  }

  lemma FixedRoundTrip(field: Field, value: Value, wire: Bytes, rest: Bytes)
    requires field.length.Fixed? && PackField(field, value) == Ok(wire)
    ensures UnpackField(field, wire + rest) == FieldRead(Ok(value), |wire|) <==> Recoverable(field, value)
  {
    hide PackField, UnpackField, DecodeValue, StripLeft, StripRight, ValueAllowed;
    FixedRead(field, value, wire, rest);
    FixedWire(field, value, wire);
    var logicalLength := if field.encoding.Bcd? then field.encoding.digitCount else None;
    var own := EncodeValue(field.encoding, value).value.bytes;
    var k := |wire| - |own|;
    var seen := StripPadding(field, wire);
    DecodesOwnBytes(field.encoding, value, logicalLength);
    if field.padding.Some? && field.padding.value.strip {
      StrippedFill(field, own, k);
      assert k == 0 ==> Filled(field.padding.value, own, k) == own;
      if seen != own {
        OtherBytesDecodeDifferently(field.encoding, value, seen, logicalLength);
      }
    } else if k > 0 {
      FilledDecodes(field.encoding, field.padding.value, value, k);
    }
  }

  /** Fill that is not stripped is only survived by being cut. */
  lemma FilledDecodes(encoding: Encoding, padding: Padding, value: Value, k: nat)
    requires EncodeValue(encoding, value).Ok? && k > 0
    ensures var logicalLength := if encoding.Bcd? then encoding.digitCount else None;
            DecodeValue(encoding, Filled(padding, EncodeValue(encoding, value).value.bytes, k), logicalLength)
                == Ok(value)
            <==> encoding.Bcd? && FillIsCut(encoding, padding, value)
  {
    hide FillIsCut, KeepDigits;
    var logicalLength := if encoding.Bcd? then encoding.digitCount else None;
    var own := EncodeValue(encoding, value).value.bytes;
    if encoding.Bcd? && encoding.digitCount.Some? && |value.text| % 2 == 1 {
      UnstrippedFill(encoding, padding, value.text, k);
    } else {
      assert Filled(padding, own, k) != own;
      OtherBytesDecodeDifferently(encoding, value, Filled(padding, own, k), logicalLength);
      EvenIsNeverCut(encoding, padding, value);
    }
  }

  lemma EvenIsNeverCut(encoding: Encoding, padding: Padding, value: Value)
    requires EncodeValue(encoding, value).Ok?
    requires encoding.Bcd? ==> encoding.digitCount.None? || |value.text| % 2 == 0
    ensures encoding.Bcd? ==> !FillIsCut(encoding, padding, value)
  {
  }

  /** The reader finds the declared length in front of the body. */
  lemma VariableRead(field: Field, value: Value, wire: Bytes, rest: Bytes)
    requires field.length.Variable? && PackField(field, value) == Ok(wire)
    ensures var encoded := EncodeValue(field.encoding, value).value;
            var digits := field.length.unit.DigitUnit?;
            var declared := if digits then encoded.logicalLength else |encoded.bytes|;
            var skip := PrefixBytes(field.length.Width(), field.length.prefix);
            && |wire| == skip + |encoded.bytes|
            && wire[skip..] == encoded.bytes
            && UnpackField(field, wire + rest) ==
               UnpackBody(field, wire + rest, skip,
                 if digits && field.encoding.Bcd? then (declared + 1) / 2 else declared,
                 if digits then Some(declared) else None)
  {
    hide EncodeValue, EncodeDecimalLength, DecodeDecimalLength, UnpackBody, ValueAllowed;
    var encoded := EncodeValue(field.encoding, value).value;
    var declared := if field.length.unit.DigitUnit? then encoded.logicalLength else |encoded.bytes|;
    var prefix := EncodeDecimalLength(declared, field.length.Width(), field.length.prefix).value;
    DecimalLengthRoundTrip(declared, field.length.Width(), field.length.prefix);
    assert wire == prefix + encoded.bytes;
    assert (wire + rest)[..|prefix|] == prefix;
  }

  lemma VariableRoundTrip(field: Field, value: Value, wire: Bytes, rest: Bytes)
    requires field.length.Variable? && PackField(field, value) == Ok(wire)
    ensures UnpackField(field, wire + rest) == FieldRead(Ok(value), |wire|) <==> Recoverable(field, value)
  {
    VariableRead(field, value, wire, rest);
    var encoded := EncodeValue(field.encoding, value).value;
    var own := encoded.bytes;
    var digits := field.length.unit.DigitUnit?;
    var logicalLength := if digits then Some(encoded.logicalLength) else None;
    var skip := |wire| - |own|;
    if !(field.encoding.AsciiHex? && digits && own != []) {
      assert (wire + rest)[skip..skip + |own|] == own;
      DecodesOwnBytes(field.encoding, value, logicalLength);
      var seen := StripPadding(field, own);
      if field.padding.Some? && field.padding.value.strip {
        StrippedFill(field, own, 0);
      }
      if seen != own {
        OtherBytesDecodeDifferently(field.encoding, value, seen, logicalLength);
      }
    }
  }

  /** Main result: a packed field reads back as itself, whatever follows it, exactly when it is recoverable. */
  lemma RoundTrip(field: Field, value: Value, rest: Bytes)
    requires PackField(field, value).Ok?
    ensures var wire := PackField(field, value).value;
            UnpackField(field, wire + rest) == FieldRead(Ok(value), |wire|) <==> Recoverable(field, value)
  {
    var wire := PackField(field, value).value;
    if field.length.Fixed? {
      FixedRoundTrip(field, value, wire, rest);
    } else {
      VariableRoundTrip(field, value, wire, rest);
    }
  }

  /** A cut inside a variable field leaves the prefix incomplete, or a body shorter than it declares. */
  lemma VariableTruncation(field: Field, value: Value, k: nat)
    requires field.length.Variable? && PackField(field, value).Ok?
    requires field.encoding.AsciiHex? && field.length.unit.DigitUnit? ==> value.text == ""
    requires k < |PackField(field, value).value|
    ensures UnpackField(field, PackField(field, value).value[..k]).result == Err(Truncated)
  {
    hide EncodeDecimalLength, DecodeDecimalLength, ValueAllowed, DecodeValue, StripPadding;
    var wire := PackField(field, value).value;
    var encoded := EncodeValue(field.encoding, value).value;
    var declared := if field.length.unit.DigitUnit? then encoded.logicalLength else |encoded.bytes|;
    var prefix := EncodeDecimalLength(declared, field.length.Width(), field.length.prefix).value;
    DecimalLengthRoundTrip(declared, field.length.Width(), field.length.prefix);
    if k >= |prefix| {
      assert wire[..k][..|prefix|] == prefix;
    }
  }

  /** A packed recoverable field cut anywhere is reported as truncated. */
  lemma Truncation(field: Field, value: Value, k: nat)
    requires PackField(field, value).Ok? && Recoverable(field, value)
    requires k < |PackField(field, value).value|
    ensures UnpackField(field, PackField(field, value).value[..k]).result == Err(Truncated)
  {
    if field.length.Variable? {
      VariableTruncation(field, value, k);
    } else {
      hide EncodeValue, PadBytes, ValueAllowed, DecodeValue, Recoverable;
    }
  }
}
