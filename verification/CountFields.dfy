/**
 * The count field of a repeating group: it is packed as a numeral, and its reader accepts any numeral of the same
 * number. `CountRecoverable` is the exact condition under which that succeeds, in terms known before packing.
 */
module CountFields {
  import opened Prelude
  import opened ByteText
  import opened FieldCodecs
  import opened FieldWire
  import opened FieldRoundTrip

  /** What a group makes of its count: a numeral denoting n. */
  predicate CountsTo(result: Result<Value, Failure>, n: nat) {
    result.Ok? && result.value.Text? && IsNumeral(result.value.text) && ParseDecimal(result.value.text) == n
  }

  // ----- The condition -----

  /** Fill bytes that are shown to the reader as zeros. */
  function ZeroByte(encoding: Encoding): Byte {
    if encoding.Ascii? then '0' as int else 0
  }

  /** The reader cuts the text to its known odd number of digits. */
  predicate CutsToLength(field: Field, text: string) {
    field.encoding.Bcd? && DigitCountKnown(field) && |text| % 2 == 1
  }

  predicate Strips(field: Field) {
    field.padding.Some? && field.padding.value.strip
  }

  /** How many digits the reader is shown. */
  function ShownWidth(field: Field, text: string, own: Bytes): nat {
    var bytes := if field.length.Fixed? && !Strips(field) then field.length.bytes else |own|;
    if CutsToLength(field, text) then |text| else if field.encoding.Ascii? then bytes else 2 * bytes
  }

  /**
   * The count fields a repeating group can rely on for n items. The edge of the numeral survives stripping; a nibble
   * that completes it is a leading zero; fill that is not stripped is cut off again or consists of leading zeros; and
   * the validation allows the numeral with the zeros it is shown with. Only 0 may be followed by zeros.
   */
  predicate CountRecoverable(field: Field, n: nat) {
    var text := ToDecimal(n);
    var encoded := EncodeValue(field.encoding, Text(text));
    && encoded.Ok?
    && !(field.encoding.AsciiHex? && field.length.Variable? && field.length.unit.DigitUnit?)
    && (Strips(field) ==> EdgeSurvives(field.padding.value, encoded.value.bytes))
    && (field.encoding.Bcd? && !DigitCountKnown(field) && |text| % 2 == 1 ==>
          field.encoding.padNibble == 0 && (field.encoding.padRight ==> n == 0))
    && (field.padding.Some? && !Strips(field) && field.length.Fixed? && |encoded.value.bytes| < field.length.bytes ==>
          if CutsToLength(field, text) then FillIsCut(field.encoding, field.padding.value, Text(text))
          else field.padding.value.byte == ZeroByte(field.encoding) && (field.padding.value.left || n == 0))
    && ValueAllowed(field, Text(PadZeros(text, ShownWidth(field, text, encoded.value.bytes))))
  }

  // ----- Numerals with leading zeros -----

  predicate AllZeros(text: string) {
    forall i | 0 <= i < |text| :: text[i] == '0'
  }

  /** The text is the numeral of n behind zeros. */
  predicate Counts(n: nat, text: string) {
    |text| >= |ToDecimal(n)| && text == PadZeros(ToDecimal(n), |text|)
  }

  lemma {:induction false} LeadingZero(n: nat)
    ensures ToDecimal(n)[0] == '0' <==> n == 0
    ensures n == 0 ==> ToDecimal(n) == "0"
  {
    if n >= 10 {
      LeadingZero(n / 10);
    }
  }

  lemma {:induction false} SameDigits(a: string, b: string)
    requires AllDigits(a) && AllDigits(b) && |a| == |b| && ParseDecimal(a) == ParseDecimal(b)
    ensures a == b
  {
    if a != "" {
      var k := |a| - 1;
      assert DigitValue(a[k]) == DigitValue(b[k]) && ParseDecimal(a[..k]) == ParseDecimal(b[..k]);
      SameDigits(a[..k], b[..k]);
      assert a == a[..k] + [a[k]] && b == b[..k] + [b[k]];
    }
  }

  lemma CountsIsNumeral(n: nat, text: string)
    requires Counts(n, text)
    ensures IsNumeral(text) && ParseDecimal(text) == n
  {
    ParseToDecimal(n);
    ParseLeadingZeros(|text| - |ToDecimal(n)|, ToDecimal(n));
  }

  lemma LongNumeralCounts(n: nat, text: string)
    requires IsNumeral(text) && |text| >= |ToDecimal(n)| && ParseDecimal(text) == n
    ensures Counts(n, text)
  {
    var s := ToDecimal(n);
    ParseToDecimal(n);
    ParseLeadingZeros(|text| - |s|, s);
    hide ParseDecimal, ToDecimal;
    SameDigits(text, PadZeros(s, |text|));
  }

  lemma ShortNumeralDiffers(n: nat, text: string)
    requires IsNumeral(text) && |text| < |ToDecimal(n)|
    ensures ParseDecimal(text) != n
  {
    var s := ToDecimal(n);
    ParseToDecimal(n);
    ParseLeadingZeros(|s| - |text|, text);
    LeadingZero(n);
    var longer := PadZeros(text, |s|);
    hide ParseDecimal, ToDecimal, PadZeros;
    if ParseDecimal(text) == n {
      SameDigits(longer, s);
    }
  }

  /** A numeral denotes n exactly when it is the numeral of n behind zeros. */
  lemma NumeralCounts(n: nat, text: string)
    ensures IsNumeral(text) && ParseDecimal(text) == n <==> Counts(n, text)
  {
    if Counts(n, text) {
      CountsIsNumeral(n, text);
    } else if IsNumeral(text) && |text| >= |ToDecimal(n)| {
      if ParseDecimal(text) == n { LongNumeralCounts(n, text); }
    } else if IsNumeral(text) {
      ShortNumeralDiffers(n, text);
    }
  }

  /** Only zeros may stand before a numeral, and only 0 may have something, namely zeros, behind it. */
  lemma PlacedNumeral(n: nat, before: string, after: string)
    ensures Counts(n, before + ToDecimal(n) + after)
            <==> AllZeros(before) && (after == "" || (n == 0 && AllZeros(after)))
  {
    var s := ToDecimal(n);
    LeadingZero(n);
    hide ToDecimal;
    var all := before + s + after;
    var m := |before| + |after|;
    if Counts(n, all) {
      assert all == Repeat(m, '0') + s;
      assert forall i | 0 <= i < |before| :: before[i] == all[i];
      if after != "" {
        assert all[|before|] == s[0];
        assert forall i | 0 <= i < |after| :: after[i] == all[|before| + |s| + i];
      }
    }
  }

  // ----- The text a count field shows -----

  /** The text that decoding makes of the bytes, whether it consists of digits or not. */
  function TextShown(encoding: Encoding, bytes: Bytes, logicalLength: Option<nat>): string
    requires !encoding.Binary?
  {
    match encoding
    case Ascii => CharsOf(bytes)
    case AsciiHex => BytesToHex(bytes)
    case Bcd(digitCount, _, _) =>
      KeepDigits(encoding, BytesToHex(bytes),
                 if logicalLength.Some? then logicalLength.value else digitCount.GetOr(2 * |bytes|))
  }

  lemma DecodedCounts(encoding: Encoding, bytes: Bytes, logicalLength: Option<nat>, n: nat)
    requires !encoding.Binary?
    ensures
      var text := TextShown(encoding, bytes, logicalLength);
      var decoded := DecodeValue(encoding, bytes, logicalLength);
      && (Counts(n, text) ==> decoded == Ok(Text(text)))
      && (CountsTo(decoded, n) <==> Counts(n, text))
  {
    var text := TextShown(encoding, bytes, logicalLength);
    NumeralCounts(n, text);
    hide ParseDecimal, BytesToHex, KeepDigits, Counts;
    if encoding.Ascii? && Counts(n, text) {
      forall i | 0 <= i < |bytes| ensures bytes[i] <= 127 {
        assert text[i] == bytes[i] as char && IsDigit(text[i]);
      }
    }
  }

  /** The two characters or the one that a fill byte shows. */
  function FillText(encoding: Encoding, pad: Byte, k: nat): string {
    if encoding.Ascii? then Repeat(k, pad as char) else BytesToHex(Repeat(k, pad))
  }

  lemma ZeroFill(encoding: Encoding, pad: Byte, k: nat)
    requires k > 0
    ensures AllZeros(FillText(encoding, pad, k)) <==> pad == ZeroByte(encoding)
  {
    var text := FillText(encoding, pad, k);
    if encoding.Ascii? {
      assert text[0] == pad as char;
    } else {
      assert text[0] == HexChar(pad / 16) && text[1] == HexChar(pad % 16);
      ZeroDigit(pad / 16);
      ZeroDigit(pad % 16);
      if pad == 0 {
        forall i | 0 <= i < |text| ensures text[i] == '0' {
          HexOfRepeat(k, pad, i);
        }
      }
    }
  }

  lemma ZeroDigit(nibble: nat)
    requires nibble < 16
    ensures HexChar(nibble) == '0' <==> nibble == 0
  {
  }

  /** The nibble that completes an odd numeral and is shown, because the reader does not know the number of digits. */
  predicate ShowsNibble(field: Field, text: string) {
    field.encoding.Bcd? && !DigitCountKnown(field) && |text| % 2 == 1
  }

  function NibbleBefore(field: Field, text: string): string {
    if ShowsNibble(field, text) && !field.encoding.padRight then [HexChar(field.encoding.padNibble)] else ""
  }

  function NibbleAfter(field: Field, text: string): string {
    if ShowsNibble(field, text) && field.encoding.padRight then [HexChar(field.encoding.padNibble)] else ""
  }

  /** All digits of the bytes. */
  function Whole(encoding: Encoding, bytes: Bytes): string {
    if encoding.Ascii? then CharsOf(bytes) else BytesToHex(bytes)
  }

  lemma OddBcdText(encoding: Encoding, text: string)
    requires encoding.Bcd? && EncodeBcd(encoding, text).Ok? && |text| % 2 == 1
    ensures
      var nibble := [HexChar(encoding.padNibble)];
      BytesToHex(EncodeBcd(encoding, text).value.bytes) == if encoding.padRight then text + nibble else nibble + text
  {
    var padded := BcdDigits(encoding, text);
    var h := BytesToHex(HexToBytes(padded).value);
    var nibble := [HexChar(encoding.padNibble)];
    var expected := if encoding.padRight then text + nibble else nibble + text;
    forall i | 0 <= i < |padded| ensures h[i] == expected[i] {
      HexCharOfText(padded, i);
    }
    assert h == expected;
  }

  lemma EvenText(encoding: Encoding, text: string)
    requires (encoding.Bcd? || encoding.AsciiHex?) && AllDigits(text) && |text| % 2 == 0
    requires EncodeValue(encoding, Text(text)).Ok?
    ensures BytesToHex(EncodeValue(encoding, Text(text)).value.bytes) == text
  {
    DigitsAreUpperHex(text);
    hide HexByteAt, HexCharAt, BytesToHex;
  }

  lemma OwnText(field: Field, text: string)
    requires IsNumeral(text) && EncodeValue(field.encoding, Text(text)).Ok? && !CutsToLength(field, text)
    ensures !field.encoding.Binary?
    ensures Whole(field.encoding, EncodeValue(field.encoding, Text(text)).value.bytes)
            == NibbleBefore(field, text) + text + NibbleAfter(field, text)
  {
    EncodedLength(field.encoding, text);
    if field.encoding.Ascii? {
      CharsOfAscii(text);
    } else if |text| % 2 == 0 {
      EvenText(field.encoding, text);
      hide EncodeValue, BytesToHex;
    } else {
      OddBcdText(field.encoding, text);
      hide EncodeBcd, BytesToHex;
    }
  }

  lemma WholeFilled(encoding: Encoding, padding: Padding, own: Bytes, k: nat)
    ensures Whole(encoding, Filled(padding, own, k)) ==
            if padding.left then FillText(encoding, padding.byte, k) + Whole(encoding, own)
            else Whole(encoding, own) + FillText(encoding, padding.byte, k)
  {
    HexConcat(Repeat(k, padding.byte), own);
    HexConcat(own, Repeat(k, padding.byte));
    hide BytesToHex;
    if encoding.Ascii? {
      var fill := Repeat(k, padding.byte);
      assert CharsOf(fill + own) == CharsOf(fill) + CharsOf(own) && CharsOf(own + fill) == CharsOf(own) + CharsOf(fill);
      assert CharsOf(fill) == Repeat(k, padding.byte as char);
    }
  }

  // ----- Reading a packed count -----

  /** The bytes behind the length prefix. */
  function BodyOf(field: Field, text: string): Bytes
    requires PackField(field, Text(text)).Ok?
  {
    if field.length.Fixed? then PackField(field, Text(text)).value
    else EncodeValue(field.encoding, Text(text)).value.bytes
  }

  /** What the reader knows about the number of digits. */
  function LengthKnown(field: Field, text: string): Option<nat> {
    if field.length.Fixed? then (if field.encoding.Bcd? then field.encoding.digitCount else None)
    else if field.length.unit.DigitUnit? then Some(|text|)
    else None
  }

  function Judged(field: Field, decoded: Result<Value, Failure>): Result<Value, Failure> {
    if decoded.Ok? && !decoded.value.Items? && !ValueAllowed(field, decoded.value) then Err(ValidationFailed)
    else decoded
  }

  lemma BodyRead(field: Field, text: string, rest: Bytes)
    requires PackField(field, Text(text)).Ok? && text != ""
    requires !(field.encoding.AsciiHex? && field.length.Variable? && field.length.unit.DigitUnit?)
    ensures
      var wire := PackField(field, Text(text)).value;
      var seen := StripPadding(field, BodyOf(field, text));
      UnpackField(field, wire + rest)
        == FieldRead(Judged(field, DecodeValue(field.encoding, seen, LengthKnown(field, text))), |wire|)
  {
    hide DecodeValue, StripPadding, ValueAllowed, PadBytes;
    var wire := PackField(field, Text(text)).value;
    DecodedIsNoGroup(field.encoding, StripPadding(field, BodyOf(field, text)), LengthKnown(field, text));
    if field.length.Fixed? {
      assert (wire + rest)[0..|wire|] == wire;
    } else {
      VariableRead(field, Text(text), wire, rest);
      EncodedLength(field.encoding, text);
      var own := EncodeValue(field.encoding, Text(text)).value.bytes;
      var skip := |wire| - |own|;
      hide EncodeDecimalLength, DecodeDecimalLength, EncodeValue, PackField, UnpackField;
      assert (wire + rest)[skip..skip + |own|] == own by { assert wire[skip..] == own; }
    }
  }

  lemma DecodedIsNoGroup(encoding: Encoding, bytes: Bytes, logicalLength: Option<nat>)
    ensures
      var decoded := DecodeValue(encoding, bytes, logicalLength);
      decoded.Ok? ==> !decoded.value.Items?
  {
    hide DecodeBcd;
  }

  lemma EncodedLength(encoding: Encoding, text: string)
    requires EncodeValue(encoding, Text(text)).Ok?
    ensures
      var encoded := EncodeValue(encoding, Text(text)).value;
      && encoded.logicalLength == |text| && !encoding.Binary?
      && (encoding.Ascii? ==> |encoded.bytes| == |text|)
      && (!encoding.Ascii? ==> 2 * |encoded.bytes| == |text| + |text| % 2)
      && (encoding.AsciiHex? ==> |text| % 2 == 0)
      && (encoding.Bcd? && encoding.digitCount.Some? ==> encoding.digitCount.value == |text|)
  {
  }

  /** What is stripped away is missing: fewer digits than the numeral has are never its number. */
  lemma StrippedDiffers(field: Field, n: nat)
    requires PackField(field, Text(ToDecimal(n))).Ok? && Strips(field)
    requires !EdgeSurvives(field.padding.value, EncodeValue(field.encoding, Text(ToDecimal(n))).value.bytes)
    ensures !field.encoding.Binary?
    ensures
      var text := ToDecimal(n);
      !Counts(n, TextShown(field.encoding, StripPadding(field, BodyOf(field, text)), LengthKnown(field, text)))
  {
    var text := ToDecimal(n);
    var own := EncodeValue(field.encoding, Text(text)).value.bytes;
    EncodedLength(field.encoding, text);
    StrippedBody(field, text);
    hide EncodeValue, StripPadding, PackField, BytesToHex;
  }

  /** Fill is stripped with whatever of the edge looks like it. */
  lemma StrippedBody(field: Field, text: string)
    requires PackField(field, Text(text)).Ok? && Strips(field)
    ensures
      var own := EncodeValue(field.encoding, Text(text)).value.bytes;
      var seen := StripPadding(field, BodyOf(field, text));
      && (EdgeSurvives(field.padding.value, own) ==> seen == own)
      && (!EdgeSurvives(field.padding.value, own) ==> |seen| < |own|)
  {
    var own := EncodeValue(field.encoding, Text(text)).value.bytes;
    var body := BodyOf(field, text);
    BodyIsFilled(field, text);
    hide EncodeValue, StripPadding, PackField, Filled;
    StrippedFill(field, own, |body| - |own|);
  }

  lemma BodyIsFilled(field: Field, text: string)
    requires PackField(field, Text(text)).Ok?
    ensures
      var own := EncodeValue(field.encoding, Text(text)).value.bytes;
      var body := BodyOf(field, text);
      && |own| <= |body| && (field.length.Variable? || field.padding.None? ==> body == own)
      && (field.padding.Some? ==> body == Filled(field.padding.value, own, |body| - |own|))
      && (field.length.Fixed? ==> |body| == field.length.bytes)
  {
    hide EncodeValue, ValueAllowed;
  }

  /** The bytes the decoder sees, and how much fill is among them. */
  function Seen(field: Field, text: string): Bytes
    requires PackField(field, Text(text)).Ok?
  {
    StripPadding(field, BodyOf(field, text))
  }

  /** Nothing of the numeral is stripped away. */
  predicate Survives(field: Field, text: string) {
    Strips(field) && EncodeValue(field.encoding, Text(text)).Ok? ==>
      EdgeSurvives(field.padding.value, EncodeValue(field.encoding, Text(text)).value.bytes)
  }

  lemma SeenBytes(field: Field, text: string)
    requires PackField(field, Text(text)).Ok? && Survives(field, text)
    ensures
      var own := EncodeValue(field.encoding, Text(text)).value.bytes;
      var seen := Seen(field, text);
      && |own| <= |seen| && (field.padding.None? || Strips(field) || field.length.Variable? ==> seen == own)
      && (field.padding.Some? ==> seen == Filled(field.padding.value, own, |seen| - |own|))
      && (if field.length.Fixed? && !Strips(field) then |seen| == field.length.bytes else seen == own)
      && (|seen| == |own| ==> seen == own)
  {
    BodyIsFilled(field, text);
    if Strips(field) {
      StrippedBody(field, text);
      hide EncodeValue, PackField, StripPadding;
    } else {
      hide EncodeValue, PackField;
    }
  }

  lemma CutLength(encoding: Encoding, seen: Bytes, logicalLength: Option<nat>, text: string)
    requires encoding.Bcd? && |text| % 2 == 1 && |text| <= 2 * |seen|
    requires logicalLength == Some(|text|) || (logicalLength.None? && encoding.digitCount == Some(|text|))
    ensures |TextShown(encoding, seen, logicalLength)| == |text|
  {
    hide BytesToHex;
  }

  lemma SameLengthCounts(n: nat, shown: string)
    requires |shown| == |ToDecimal(n)|
    ensures Counts(n, shown) <==> shown == ToDecimal(n)
  {
    assert PadZeros(ToDecimal(n), |shown|) == ToDecimal(n);
  }

  /** Decoding to a numeral means showing it. */
  lemma DecodesWhatItShows(encoding: Encoding, bytes: Bytes, logicalLength: Option<nat>, text: string)
    requires encoding.Bcd? && AllDigits(text)
    ensures DecodeBcd(encoding, bytes, logicalLength) == Ok(text) <==> TextShown(encoding, bytes, logicalLength) == text
  {
    hide BytesToHex, KeepDigits;
  }

  /** The text is cut to the numeral's length: it is the numeral, or it does not count. */
  lemma CutText(field: Field, n: nat)
    requires
      var text := ToDecimal(n);
      PackField(field, Text(text)).Ok? && Survives(field, text) && CutsToLength(field, text)
    ensures
      var text := ToDecimal(n);
      var own := EncodeValue(field.encoding, Text(text)).value.bytes;
      var shown := TextShown(field.encoding, Seen(field, text), LengthKnown(field, text));
      && |shown| == |text|
      && (|Seen(field, text)| > |own| ==> field.padding.Some?)
      && (Counts(n, shown) <==>
            (|Seen(field, text)| > |own| ==> FillIsCut(field.encoding, field.padding.value, Text(text))))
  {
    var text := ToDecimal(n);
    var own := EncodeValue(field.encoding, Text(text)).value.bytes;
    var seen, known := Seen(field, text), LengthKnown(field, text);
    SeenBytes(field, text);
    EncodedLength(field.encoding, text);
    hide PackField, Seen, BytesToHex, FillIsCut, ToDecimal, Filled, Survives, TextShown, DecodeBcd, EncodeBcd, Counts;
    CutLength(field.encoding, seen, known, text);
    SameLengthCounts(n, TextShown(field.encoding, seen, known));
    DecodesWhatItShows(field.encoding, seen, known, text);
    if |seen| > |own| {
      UnstrippedFill(field.encoding, field.padding.value, text, |seen| - |own|);
    } else {
      BcdDecodesOwnBytes(field.encoding, text, known);
    }
  }

  lemma ShownIsWhole(field: Field, text: string, seen: Bytes)
    requires EncodeValue(field.encoding, Text(text)).Ok? && !CutsToLength(field, text) && !field.encoding.Binary?
    ensures TextShown(field.encoding, seen, LengthKnown(field, text)) == Whole(field.encoding, seen)
  {
    EncodedLength(field.encoding, text);
    hide EncodeValue, BytesToHex;
  }

  /** What stands before and behind the numeral when the text is shown as a whole. */
  function Before(field: Field, text: string, k: int): string {
    if k > 0 && field.padding.Some? && field.padding.value.left
    then FillText(field.encoding, field.padding.value.byte, k) + NibbleBefore(field, text)
    else NibbleBefore(field, text)
  }

  function Behind(field: Field, text: string, k: int): string {
    if k > 0 && field.padding.Some? && !field.padding.value.left
    then NibbleAfter(field, text) + FillText(field.encoding, field.padding.value.byte, k)
    else NibbleAfter(field, text)
  }

  lemma Regroup(fill: string, before: string, text: string, after: string)
    ensures fill + (before + text + after) == fill + before + text + after
    ensures (before + text + after) + fill == before + text + (after + fill)
  {
  }

  lemma WholeAround(field: Field, text: string, own: Bytes, seen: Bytes)
    requires |own| <= |seen| && (|seen| == |own| ==> seen == own)
    requires if field.padding.Some? then seen == Filled(field.padding.value, own, |seen| - |own|) else seen == own
    requires Whole(field.encoding, own) == NibbleBefore(field, text) + text + NibbleAfter(field, text)
    ensures
      var k := |seen| - |own|;
      Whole(field.encoding, seen) == Before(field, text, k) + text + Behind(field, text, k)
  {
    hide Filled, Whole, FillText, NibbleBefore, NibbleAfter;
    if |seen| > |own| {
      var k := |seen| - |own|;
      WholeFilled(field.encoding, field.padding.value, own, k);
      var fill := FillText(field.encoding, field.padding.value.byte, k);
      Regroup(fill, NibbleBefore(field, text), text, NibbleAfter(field, text));
    }
  }

  /** The text is shown as a whole: the numeral with its nibble and the fill around it. */
  lemma WholeText(field: Field, n: nat)
    requires
      var text := ToDecimal(n);
      PackField(field, Text(text)).Ok? && Survives(field, text) && !CutsToLength(field, text)
    ensures !field.encoding.Binary?
    ensures
      var text := ToDecimal(n);
      var k := |Seen(field, text)| - |EncodeValue(field.encoding, Text(text)).value.bytes|;
      TextShown(field.encoding, Seen(field, text), LengthKnown(field, text))
        == Before(field, text, k) + text + Behind(field, text, k)
  {
    var text := ToDecimal(n);
    var own := EncodeValue(field.encoding, Text(text)).value.bytes;
    var seen := Seen(field, text);
    SeenBytes(field, text);
    OwnText(field, text);
    ShownIsWhole(field, text, seen);
    hide PackField, Seen, EncodeValue, ToDecimal, NibbleBefore, NibbleAfter, Filled, Whole, TextShown, Survives,
      CutsToLength, Before, Behind;
    WholeAround(field, text, own, seen);
  }

  /** Exactly when only zeros stand around the numeral. */
  lemma ZerosAround(field: Field, text: string, k: int)
    requires k > 0 ==> field.padding.Some?
    ensures
      AllZeros(Before(field, text, k)) <==>
        && (ShowsNibble(field, text) && !field.encoding.padRight ==> field.encoding.padNibble == 0)
        && (k > 0 && field.padding.value.left ==> field.padding.value.byte == ZeroByte(field.encoding))
    ensures
      AllZeros(Behind(field, text, k)) <==>
        && (ShowsNibble(field, text) && field.encoding.padRight ==> field.encoding.padNibble == 0)
        && (k > 0 && !field.padding.value.left ==> field.padding.value.byte == ZeroByte(field.encoding))
    ensures
      Behind(field, text, k) == "" <==>
        !(ShowsNibble(field, text) && field.encoding.padRight) && !(k > 0 && !field.padding.value.left)
  {
    NibbleZeros(field, text);
    if k > 0 {
      ZeroFill(field.encoding, field.padding.value.byte, k);
      var fill := FillText(field.encoding, field.padding.value.byte, k);
      AllZerosJoin(fill, NibbleBefore(field, text));
      AllZerosJoin(NibbleAfter(field, text), fill);
      assert fill != "";
    }
    hide ZeroByte, FillText, ShowsNibble, NibbleBefore, NibbleAfter, AllZeros;
  }

  lemma NibbleZeros(field: Field, text: string)
    ensures AllZeros(NibbleBefore(field, text)) <==>
              (ShowsNibble(field, text) && !field.encoding.padRight ==> field.encoding.padNibble == 0)
    ensures AllZeros(NibbleAfter(field, text)) <==>
              (ShowsNibble(field, text) && field.encoding.padRight ==> field.encoding.padNibble == 0)
    ensures NibbleAfter(field, text) == "" <==> !(ShowsNibble(field, text) && field.encoding.padRight)
  {
    if ShowsNibble(field, text) {
      ZeroDigit(field.encoding.padNibble);
      assert [HexChar(field.encoding.padNibble)][0] == HexChar(field.encoding.padNibble);
    }
  }

  lemma AllZerosJoin(a: string, b: string)
    ensures AllZeros(a + b) <==> AllZeros(a) && AllZeros(b)
  {
    var all := a + b;
    assert forall i | 0 <= i < |a| :: a[i] == all[i];
    assert forall i | 0 <= i < |b| :: b[i] == all[|a| + i];
  }

  // ----- Main result -----

  lemma ShownCounts(field: Field, n: nat)
    requires
      var text := ToDecimal(n);
      PackField(field, Text(text)).Ok? && Survives(field, text)
    ensures
      var text := ToDecimal(n);
      var own := EncodeValue(field.encoding, Text(text)).value.bytes;
      var shown := TextShown(field.encoding, Seen(field, text), LengthKnown(field, text));
      && |shown| == ShownWidth(field, text, own)
      && (|Seen(field, text)| > |own| ==> field.padding.Some?)
      && (Counts(n, shown) <==>
            if CutsToLength(field, text)
            then |Seen(field, text)| > |own| ==> FillIsCut(field.encoding, field.padding.value, Text(text))
            else
              && (ShowsNibble(field, text) ==> field.encoding.padNibble == 0 && (field.encoding.padRight ==> n == 0))
              && (|Seen(field, text)| > |own| ==>
                    field.padding.value.byte == ZeroByte(field.encoding) && (field.padding.value.left || n == 0)))
  {
    var text := ToDecimal(n);
    var own := EncodeValue(field.encoding, Text(text)).value.bytes;
    var seen := Seen(field, text);
    SeenBytes(field, text);
    if CutsToLength(field, text) {
      CutText(field, n);
      hide Counts, Seen, TextShown, PackField, Filled, EncodeValue, ToDecimal, FillIsCut, Survives;
    } else {
      var k := |seen| - |own|;
      WholeText(field, n);
      ShownIsWhole(field, text, seen);
      PlacedNumeral(n, Before(field, text, k), Behind(field, text, k));
      ZerosAround(field, text, k);
      hide Counts, Seen, PackField, Filled, EncodeValue, ToDecimal, Before, Behind, ZeroByte, Survives, ShowsNibble,
        AllZeros;
    }
  }

  lemma DigitsMistaken(field: Field, text: string, rest: Bytes)
    requires PackField(field, Text(text)).Ok? && text != ""
    requires field.encoding.AsciiHex? && field.length.Variable? && field.length.unit.DigitUnit?
    ensures
      var read := UnpackField(field, PackField(field, Text(text)).value + rest);
      read.result.Ok? ==> read.consumed > |PackField(field, Text(text)).value|
  {
    hide DecodeValue, StripPadding, ValueAllowed;
    VariableRead(field, Text(text), PackField(field, Text(text)).value, rest);
    EncodedLength(field.encoding, text);
    hide PackField, UnpackField, EncodeValue, EncodeDecimalLength, DecodeDecimalLength;
  }

  /** A packed count reads back as its number, consuming exactly its own bytes, if and only if it is recoverable. */
  lemma CountReadsBackIff(field: Field, n: nat, rest: Bytes)
    requires PackField(field, Text(ToDecimal(n))).Ok?
    ensures
      var wire := PackField(field, Text(ToDecimal(n))).value;
      var read := UnpackField(field, wire + rest);
      read.consumed == |wire| && CountsTo(read.result, n) <==> CountRecoverable(field, n)
  {
    var text := ToDecimal(n);
    var known := LengthKnown(field, text);
    if field.encoding.AsciiHex? && field.length.Variable? && field.length.unit.DigitUnit? {
      DigitsMistaken(field, text, rest);
    } else {
      BodyRead(field, text, rest);
      EncodedLength(field.encoding, text);
      DecodedCounts(field.encoding, Seen(field, text), known, n);
      var shown := TextShown(field.encoding, Seen(field, text), known);
      if Survives(field, text) {
        ShownCounts(field, n);
        SeenBytes(field, text);
        hide Seen, PackField, UnpackField, EncodeValue, DecodeValue, TextShown, ValueAllowed, ToDecimal, PadZeros,
          ZeroByte, FillIsCut, Filled;
        assert Counts(n, shown) ==> shown == PadZeros(text, |shown|);
      } else {
        StrippedDiffers(field, n);
        hide Seen, PackField, UnpackField, EncodeValue, DecodeValue, TextShown, ValueAllowed, ToDecimal;
      }
    }
  }

  /** A packed count reads back as some numeral of the same number, whatever follows it. */
  lemma CountRoundTrip(field: Field, n: nat, rest: Bytes)
    requires PackField(field, Text(ToDecimal(n))).Ok? && CountRecoverable(field, n)
    ensures
      var wire := PackField(field, Text(ToDecimal(n))).value;
      var read := UnpackField(field, wire + rest);
      && read.consumed == |wire| && CountsTo(read.result, n)
      && read.result == UnpackField(field, wire).result
  {
    var wire := PackField(field, Text(ToDecimal(n))).value;
    CountReadsBackIff(field, n, rest);
    BodyRead(field, ToDecimal(n), rest);
    BodyRead(field, ToDecimal(n), []);
    assert wire + [] == wire;
  }

  lemma CountTruncation(field: Field, n: nat, k: nat)
    requires PackField(field, Text(ToDecimal(n))).Ok? && CountRecoverable(field, n)
    requires k < |PackField(field, Text(ToDecimal(n))).value|
    ensures UnpackField(field, PackField(field, Text(ToDecimal(n))).value[..k]).result == Err(Truncated)
  {
    if field.length.Variable? {
      VariableTruncation(field, Text(ToDecimal(n)), k);
    } else {
      hide EncodeValue, PadBytes, ValueAllowed, DecodeValue, CountRecoverable;
    }
  }
}
