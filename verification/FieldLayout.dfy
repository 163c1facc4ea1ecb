/**
 * A field on the wire, from both sides: which bytes a value is packed to, which value bytes are read as, and which
 * failure is reported otherwise. The relations are stated on single characters, half bytes and digits.
 */
module FieldLayout {
  import opened Prelude
  import opened ByteText
  import opened FieldCodecs
  import opened FieldWire
  import opened WireLayout
  import Framing

  // ----- Encoded values -----

  /** The bytes stand for the value, character by character or half byte by half byte. */
  predicate Encodes(encoding: Encoding, value: Value, body: Bytes) {
    match encoding
    case Ascii =>
      value.Text? && |body| == |value.text|
      && forall i | 0 <= i < |body| :: body[i] < 128 && value.text[i] == body[i] as char
    case Binary => value == Raw(body)
    case AsciiHex =>
      value.Text? && 2 * |body| == |value.text|
      && forall j | 0 <= j < |value.text| :: HexValue(value.text[j]) == Some(HalfByte(body, j))
    case Bcd(digitCount, padRight, padNibble) =>
      && value.Text? && 2 * |body| == |value.text| + |value.text| % 2
      && (digitCount.Some? ==> |value.text| == digitCount.value)
      && var front := if padRight then 0 else |value.text| % 2;
      && (|value.text| % 2 == 1 ==> HalfByte(body, if padRight then |value.text| else 0) == padNibble)
      && forall j | front <= j < front + |value.text| ::
           HalfByte(body, j) < 10 && value.text[j - front] == DigitChar(HalfByte(body, j))
  }

  /** Characters of a text, bytes of anything else. */
  function LogicalLength(value: Value): nat {
    match value
    case Text(text) => |text|
    case Raw(bytes) => |bytes|
    case Items(items) => |items|
  }

  lemma EncodingIsUnique(encoding: Encoding, value: Value, a: Bytes, b: Bytes)
    requires Encodes(encoding, value, a) && Encodes(encoding, value, b)
    ensures a == b
  {
    hide HalfByte;
    match encoding
    case Ascii =>
      assert forall i | 0 <= i < |a| :: a[i] as char == b[i] as char;
    case Binary =>
    case AsciiHex =>
      assert forall j | 0 <= j < 2 * |a| :: HexValue(value.text[j]) == Some(HalfByte(a, j));
      NibblesAreBytes(a, b);
    case Bcd(_, padRight, _) =>
      forall j | 0 <= j < 2 * |a|
        ensures HalfByte(a, j) == HalfByte(b, j)
      {
        var front := if padRight then 0 else |value.text| % 2;
        if front <= j < front + |value.text| {
          assert DigitChar(HalfByte(a, j)) == DigitChar(HalfByte(b, j));
          DigitOfNibble(HalfByte(a, j), HalfByte(b, j));
        }
      }
      NibblesAreBytes(a, b);
  }

  /** A value is encoded exactly when bytes stand for it, and to these. */
  lemma EncodedIff(encoding: Encoding, value: Value, body: Bytes)
    ensures Encodes(encoding, value, body)
            <==> EncodeValue(encoding, value) == Ok(Encoded(body, LogicalLength(value)))
    ensures EncodeValue(encoding, value).Ok? ==>
              EncodeValue(encoding, value).value.logicalLength == LogicalLength(value)
  {
    hide Encodes;
    if EncodeValue(encoding, value).Ok? {
      EncodedHolds(encoding, value);
      if Encodes(encoding, value, body) {
        EncodingIsUnique(encoding, value, body, EncodeValue(encoding, value).value.bytes);
      }
    } else if Encodes(encoding, value, body) {
      EncodableIsEncoded(encoding, value, body);
    }
  }

  lemma EncodedHolds(encoding: Encoding, value: Value)
    requires EncodeValue(encoding, value).Ok?
    ensures Encodes(encoding, value, EncodeValue(encoding, value).value.bytes)
    ensures EncodeValue(encoding, value).value.logicalLength == LogicalLength(value)
  {
    hide HalfByte, HexToBytes;
    var body := EncodeValue(encoding, value).value.bytes;
    match encoding
    case Ascii =>
    case Binary =>
    case AsciiHex =>
      forall j | 0 <= j < |value.text|
        ensures HexValue(value.text[j]) == Some(HalfByte(body, j))
      {
        ParsedNibbles(value.text, j);
      }
    case Bcd(_, _, _) => BcdEncodes(encoding, value);
  }

  lemma BcdEncodes(encoding: Encoding, value: Value)
    requires encoding.Bcd? && EncodeValue(encoding, value).Ok?
    ensures Encodes(encoding, value, EncodeValue(encoding, value).value.bytes)
  {
    hide HalfByte, HexToBytes, HexValue, LowerHexChar;
    var body := EncodeValue(encoding, value).value.bytes;
    PackedDigits(encoding, value.text, body);
  }

  lemma PackedDigits(encoding: Encoding, text: string, body: Bytes)
    requires encoding.Bcd? && AllDigits(text)
    requires IsHexPairs(BcdDigits(encoding, text)) && HexToBytes(BcdDigits(encoding, text)).value == body
    ensures
      var front := if encoding.padRight then 0 else |text| % 2;
      && (|text| % 2 == 1 ==> HalfByte(body, if encoding.padRight then |text| else 0) == encoding.padNibble)
      && forall j | front <= j < front + |text| ::
           HalfByte(body, j) < 10 && text[j - front] == DigitChar(HalfByte(body, j))
  {
    hide HalfByte, HexToBytes, HexValue, LowerHexChar;
    var digits := BcdDigits(encoding, text);
    forall j | 0 <= j < |digits|
      ensures HexValue(digits[j]) == Some(HalfByte(body, j))
    {
      ParsedNibbles(digits, j);
    }
    var front := if encoding.padRight then 0 else |text| % 2;
    forall j | front <= j < front + |text|
      ensures HalfByte(body, j) < 10 && text[j - front] == DigitChar(HalfByte(body, j))
    {
      assert digits[j] == text[j - front] && IsDigit(digits[j]);
      DigitHasItsValue(digits[j], HalfByte(body, j));
    }
  }

  lemma DigitHasItsValue(c: char, n: nat)
    requires IsDigit(c) && HexValue(c) == Some(n)
    ensures n < 10 && c == DigitChar(n)
  {
  }

  lemma EncodableIsEncoded(encoding: Encoding, value: Value, body: Bytes)
    requires Encodes(encoding, value, body)
    ensures EncodeValue(encoding, value).Ok?
  {
    hide HalfByte, HexToBytes;
    match encoding
    case Ascii =>
    case Binary =>
    case AsciiHex =>
    case Bcd(_, padRight, _) =>
      var front := if padRight then 0 else |value.text| % 2;
      forall i | 0 <= i < |value.text|
        ensures IsDigit(value.text[i])
      {
        var j := i + front;
        assert HalfByte(body, j) < 10 && value.text[j - front] == DigitChar(HalfByte(body, j));
      }
  }

  // ----- Packed fields -----

  /** What a field's validation and its blank rule let through. */
  predicate Within(field: Field, value: Value) {
    match value
    case Items(_) => false
    case Raw(_) =>
      field.validation.Some? ==> WithinLengths(field.validation.value, LogicalLength(value))
    case Text(text) =>
      && (text == "" ==> field.allowBlank)
      && (field.validation.Some? ==>
            var rules := field.validation.value;
            && WithinLengths(rules, LogicalLength(value))
            && (rules.allowedValues.Some? ==> text in rules.allowedValues.value)
            && (rules.pattern.Some? ==> rules.pattern.value(text)))
  }

  predicate WithinLengths(rules: Validation, length: nat) {
    && !(rules.minLength.Some? && length < rules.minLength.value)
    && !(rules.maxLength.Some? && length > rules.maxLength.value)
  }

  lemma WithinIff(field: Field, value: Value)
    requires !value.Items?
    ensures ValueAllowed(field, value) <==> Within(field, value)
  {
  }

  /** Bytes of a length prefix: two digits for LLVAR, three for LLLVAR, one or two of them a byte. */
  function PrefixSize(rule: LengthRule): nat
    requires rule.Variable?
  {
    match (rule.prefix, rule.long)
    case (AsciiLength, false) => 2
    case (AsciiLength, true) => 3
    case (BcdLength, false) => 1
    case (BcdLength, true) => 2
  }

  /** The wire of a packed field: a padded body, or a prefix that counts the body's bytes or the value's characters. */
  predicate LaidOut(field: Field, value: Value, body: Bytes, wire: Bytes) {
    match field.length
    case Fixed(length) =>
      && |wire| == length && |body| <= length
      && (|body| < length ==> field.padding.Some?)
      && var left := field.padding.Some? && field.padding.value.left;
      var start := if left then length - |body| else 0;
      && wire[start..start + |body|] == body
      && forall i | 0 <= i < length :: i < start || start + |body| <= i ==> wire[i] == field.padding.value.byte
    case Variable(long, maxLength, prefix, unit) =>
      var counted := if unit.DigitUnit? then LogicalLength(value) else |body|;
      var size := PrefixSize(field.length);
      && counted <= maxLength && counted < (if long then 1000 else 100)
      && |wire| == size + |body| && wire[size..] == body
      && HoldsNumber(wire[..size], counted, if long then 3 else 2, prefix)
  }

  /** A value is packed exactly when it is within its rules and some bytes stand for it, and then as laid out. */
  lemma PackedIff(field: Field, value: Value, wire: Bytes)
    ensures PackField(field, value) == Ok(wire)
            <==> Within(field, value) && exists body :: Encodes(field.encoding, value, body)
                                                        && LaidOut(field, value, body, wire)
  {
    hide Encodes, LaidOut, EncodeValue;
    var encoded := EncodeValue(field.encoding, value);
    forall body
      ensures Encodes(field.encoding, value, body) <==> encoded == Ok(Encoded(body, LogicalLength(value)))
    {
      EncodedIff(field.encoding, value, body);
    }
    if encoded.Ok? && !value.Items? {
      EncodedIff(field.encoding, value, encoded.value.bytes);
      LaidOutIff(field, value, encoded.value.bytes, wire);
    }
  }

  lemma LaidOutIff(field: Field, value: Value, body: Bytes, wire: Bytes)
    requires EncodeValue(field.encoding, value) == Ok(Encoded(body, LogicalLength(value))) && !value.Items?
    ensures PackField(field, value) == Ok(wire) <==> Within(field, value) && LaidOut(field, value, body, wire)
  {
    hide EncodeValue, HoldsNumber;
    if field.length.Fixed? {
      PaddedIff(field, value, body, wire);
    } else {
      PrefixedIff(field, value, body, wire);
    }
  }

  lemma PaddedIff(field: Field, value: Value, body: Bytes, wire: Bytes)
    requires field.length.Fixed?
    ensures PadBytes(field, body, field.length.bytes) == Ok(wire) <==> LaidOut(field, value, body, wire)
  {
    hide PadBytes, LaidOut;
    PaddedIsLaidOut(field, value, body);
    if LaidOut(field, value, body, wire) {
      LayoutIsUnique(field, value, body, wire, PadBytes(field, body, field.length.bytes).value);
    }
  }

  lemma PaddedIsLaidOut(field: Field, value: Value, body: Bytes)
    requires field.length.Fixed?
    ensures
      var padded := PadBytes(field, body, field.length.bytes);
      if padded.Ok? then LaidOut(field, value, body, padded.value)
      else forall wire :: !LaidOut(field, value, body, wire)
  {
    var padded := PadBytes(field, body, field.length.bytes);
    var start := if field.padding.Some? && field.padding.value.left then field.length.bytes - |body| else 0;
    if padded.Ok? {
      assert padded.value[start..start + |body|] == body;
    }
  }

  lemma LayoutIsUnique(field: Field, value: Value, body: Bytes, a: Bytes, b: Bytes)
    requires field.length.Fixed? && LaidOut(field, value, body, a) && LaidOut(field, value, body, b)
    ensures a == b
  {
    var length := field.length.bytes;
    var start := if field.padding.Some? && field.padding.value.left then length - |body| else 0;
    forall i | 0 <= i < length
      ensures a[i] == b[i]
    {
      if start <= i < start + |body| {
        assert a[i] == a[start..start + |body|][i - start] && b[i] == b[start..start + |body|][i - start];
      }
    }
  }

  lemma PrefixedIff(field: Field, value: Value, body: Bytes, wire: Bytes)
    requires EncodeValue(field.encoding, value) == Ok(Encoded(body, LogicalLength(value))) && !value.Items?
    requires field.length.Variable?
    ensures PackField(field, value) == Ok(wire) <==> Within(field, value) && LaidOut(field, value, body, wire)
  {
    hide EncodeValue, HoldsNumber, EncodeDecimalLength;
    var rule := field.length;
    var counted := if rule.unit.DigitUnit? then LogicalLength(value) else |body|;
    var digits, bytes := rule.Width(), PrefixBytes(rule.Width(), rule.prefix);
    assert bytes == PrefixSize(rule);
    PrefixHoldsLength(counted, digits, rule.prefix);
    Powers();
    var prefix := EncodeDecimalLength(counted, digits, rule.prefix);
    if LaidOut(field, value, body, wire) {
      NumberIsUnique(wire[..bytes], prefix.value, counted, digits, rule.prefix);
      assert wire == wire[..bytes] + wire[bytes..];
    }
  }

  lemma Powers()
    ensures Framing.PowerOfTen(2) == 100 && Framing.PowerOfTen(3) == 1000
  {
    assert Framing.PowerOfTen(0) == 1 && Framing.PowerOfTen(1) == 10;
  }

  // ----- What bytes are read as -----

  /** Padding to strip is gone from its side, and nothing else is. */
  predicate Stripped(field: Field, bytes: Bytes, kept: Bytes) {
    if field.padding.None? || !field.padding.value.strip then kept == bytes
    else
      var pad := field.padding.value.byte;
      && |kept| <= |bytes|
      && var gone := |bytes| - |kept|;
      if field.padding.value.left then
        && kept == bytes[gone..] && (kept != [] ==> kept[0] != pad)
        && forall i | 0 <= i < gone :: bytes[i] == pad
      else
        && kept == bytes[..|kept|] && (kept != [] ==> kept[|kept| - 1] != pad)
        && forall i | |kept| <= i < |bytes| :: bytes[i] == pad
  }

  lemma {:induction false} StrippedLeft(bytes: Bytes, pad: Byte)
    ensures
      var kept := StripLeft(bytes, pad);
      && |kept| <= |bytes| && kept == bytes[|bytes| - |kept|..] && (kept != [] ==> kept[0] != pad)
      && forall i | 0 <= i < |bytes| - |kept| :: bytes[i] == pad
  {
    if bytes != [] && bytes[0] == pad {
      StrippedLeft(bytes[1..], pad);
      var kept := StripLeft(bytes, pad);
      forall i | 0 <= i < |bytes| - |kept|
        ensures bytes[i] == pad
      {
        assert i > 0 ==> bytes[i] == bytes[1..][i - 1];
      }
    }
  }

  lemma {:induction false} StrippedRight(bytes: Bytes, pad: Byte)
    ensures
      var kept := StripRight(bytes, pad);
      && |kept| <= |bytes| && kept == bytes[..|kept|] && (kept != [] ==> kept[|kept| - 1] != pad)
      && forall i | |kept| <= i < |bytes| :: bytes[i] == pad
  {
    if bytes != [] && bytes[|bytes| - 1] == pad {
      StrippedRight(bytes[..|bytes| - 1], pad);
    }
  }

  /** Stripping keeps the one part of the bytes that satisfies the relation. */
  lemma StrippedIff(field: Field, bytes: Bytes, kept: Bytes)
    ensures Stripped(field, bytes, kept) <==> kept == StripPadding(field, bytes)
  {
    if field.padding.Some? {
      var pad := field.padding.value.byte;
      StrippedLeft(bytes, pad);
      StrippedRight(bytes, pad);
    }
  }

  /** The half bytes of a BCD field that are digits: an odd count leaves one out, on the padded side. */
  predicate KeptDigits(encoding: Encoding, bytes: Bytes, count: nat, front: nat, end: nat)
    requires encoding.Bcd?
  {
    if count % 2 == 0 then front == 0 && end == 2 * |bytes|
    else if encoding.padRight then front == 0 && end == (if count <= 2 * |bytes| then count else 2 * |bytes|)
    else end == 2 * |bytes| && front == (if count <= 2 * |bytes| then 2 * |bytes| - count else 0)
  }

  /** The value that bytes are read as, for a field that counts digits or not. */
  predicate ReadAs(encoding: Encoding, bytes: Bytes, counted: Option<nat>, value: Value) {
    match encoding
    case Ascii =>
      value.Text? && |value.text| == |bytes|
      && forall i | 0 <= i < |bytes| :: bytes[i] < 128 && value.text[i] == bytes[i] as char
    case Binary => value == Raw(bytes)
    case AsciiHex =>
      value.Text? && |value.text| == 2 * |bytes|
      && forall j | 0 <= j < 2 * |bytes| :: value.text[j] == HexChar(HalfByte(bytes, j))
    case Bcd(digitCount, padRight, _) =>
      var count := CountOf(encoding, bytes, counted);
      && value.Text? && |value.text| <= 2 * |bytes|
      && var front := Front(encoding, bytes, count, |value.text|);
      && KeptDigits(encoding, bytes, count, front, front + |value.text|)
      && forall j | front <= j < front + |value.text| ::
           HalfByte(bytes, j) < 10 && value.text[j - front] == DigitChar(HalfByte(bytes, j))
  }

  lemma ReadIff(encoding: Encoding, bytes: Bytes, counted: Option<nat>, value: Value)
    ensures DecodeValue(encoding, bytes, counted) == Ok(value) <==> ReadAs(encoding, bytes, counted, value)
    ensures DecodeValue(encoding, bytes, counted).Err? ==> DecodeValue(encoding, bytes, counted).error == DecodeFailed
  {
    hide HalfByte;
    match encoding
    case Ascii =>
      if ReadAs(encoding, bytes, counted, value) {
        assert value.text == CharsOf(bytes);
      }
    case Binary =>
    case AsciiHex =>
      forall j | 0 <= j < 2 * |bytes|
        ensures BytesToHex(bytes)[j] == HexChar(HalfByte(bytes, j))
      {
        PrintedNibbles(bytes, j);
      }
      if ReadAs(encoding, bytes, counted, value) {
        assert value.text == BytesToHex(bytes);
      }
    case Bcd(_, _, _) =>
      BcdReadIff(encoding, bytes, counted, value);
  }

  /** The first kept half byte. */
  function Front(encoding: Encoding, bytes: Bytes, count: nat, kept: nat): int
    requires encoding.Bcd?
  {
    if count % 2 == 0 || encoding.padRight then 0 else 2 * |bytes| - kept
  }

  /** How many digits a BCD field is read for. */
  function CountOf(encoding: Encoding, bytes: Bytes, counted: Option<nat>): nat
    requires encoding.Bcd?
  {
    if counted.Some? then counted.value
    else if encoding.digitCount.Some? then encoding.digitCount.value
    else 2 * |bytes|
  }

  lemma BcdReadIff(encoding: Encoding, bytes: Bytes, counted: Option<nat>, value: Value)
    requires encoding.Bcd?
    ensures DecodeValue(encoding, bytes, counted) == Ok(value) <==> ReadAs(encoding, bytes, counted, value)
  {
    hide DecodeValue, ReadAs, KeepDigits, AllDigits;
    BcdDecodes(encoding, bytes, counted);
    var digits := KeepDigits(encoding, BytesToHex(bytes), CountOf(encoding, bytes, counted));
    KeptHalfBytes(encoding, bytes, CountOf(encoding, bytes, counted));
    if AllDigits(digits) {
      DigitsAreRead(encoding, bytes, counted, digits,
        Front(encoding, bytes, CountOf(encoding, bytes, counted), |digits|));
    }
    if ReadAs(encoding, bytes, counted, value) {
      ReadIsKept(encoding, bytes, counted, value);
    }
  }

  lemma BcdDecodes(encoding: Encoding, bytes: Bytes, counted: Option<nat>)
    requires encoding.Bcd?
    ensures
      var digits := KeepDigits(encoding, BytesToHex(bytes), CountOf(encoding, bytes, counted));
      DecodeValue(encoding, bytes, counted) == if AllDigits(digits) then Ok(Text(digits)) else Err(DecodeFailed)
  {
    hide KeepDigits, BytesToHex;
  }

  lemma ReadIsKept(encoding: Encoding, bytes: Bytes, counted: Option<nat>, value: Value)
    requires encoding.Bcd? && ReadAs(encoding, bytes, counted, value)
    ensures
      var digits := KeepDigits(encoding, BytesToHex(bytes), CountOf(encoding, bytes, counted));
      value.Text? && value.text == digits && AllDigits(digits)
  {
    hide HalfByte, BytesToHex, KeepDigits, AllDigits, HexChar;
    var count := CountOf(encoding, bytes, counted);
    var digits := KeepDigits(encoding, BytesToHex(bytes), count);
    KeptHalfBytes(encoding, bytes, count);
    var front := Front(encoding, bytes, count, |value.text|);
    KeptLength(encoding, bytes, count, |value.text|, |digits|);
    SameDigits(bytes, digits, value.text, front);
  }

  /** The count determines how many half bytes are kept. */
  lemma KeptLength(encoding: Encoding, bytes: Bytes, count: nat, a: nat, b: nat)
    requires encoding.Bcd?
    requires a <= 2 * |bytes| && b <= 2 * |bytes|
    requires 0 <= Front(encoding, bytes, count, a) && 0 <= Front(encoding, bytes, count, b)
    requires KeptDigits(encoding, bytes, count, Front(encoding, bytes, count, a), Front(encoding, bytes, count, a) + a)
    requires KeptDigits(encoding, bytes, count, Front(encoding, bytes, count, b), Front(encoding, bytes, count, b) + b)
    ensures a == b
  {
  }

  lemma SameDigits(bytes: Bytes, printed: string, digits: string, front: nat)
    requires |printed| == |digits| && front + |digits| <= 2 * |bytes|
    requires forall j | front <= j < front + |digits| :: printed[j - front] == HexChar(HalfByte(bytes, j))
    requires forall j | front <= j < front + |digits| ::
               HalfByte(bytes, j) < 10 && digits[j - front] == DigitChar(HalfByte(bytes, j))
    ensures printed == digits && AllDigits(digits)
  {
    hide HalfByte, HexChar;
    forall i | 0 <= i < |digits|
      ensures printed[i] == digits[i] && IsDigit(digits[i])
    {
      var n := HalfByte(bytes, front + i);
      assert printed[front + i - front] == HexChar(n) && digits[front + i - front] == DigitChar(n);
      DigitOfNibble(n, n);
    }
  }

  lemma DigitsAreRead(encoding: Encoding, bytes: Bytes, counted: Option<nat>, digits: string, front: nat)
    requires encoding.Bcd? && AllDigits(digits) && front + |digits| <= 2 * |bytes|
    requires
      var count := CountOf(encoding, bytes, counted);
      front == Front(encoding, bytes, count, |digits|) && KeptDigits(encoding, bytes, count, front, front + |digits|)
    requires forall j | front <= j < front + |digits| :: digits[j - front] == HexChar(HalfByte(bytes, j))
    ensures ReadAs(encoding, bytes, counted, Text(digits))
  {
    hide HalfByte;
    forall j | front <= j < front + |digits|
      ensures HalfByte(bytes, j) < 10 && digits[j - front] == DigitChar(HalfByte(bytes, j))
    {
      assert IsDigit(digits[j - front]);
    }
  }

  lemma KeptHalfBytes(encoding: Encoding, bytes: Bytes, count: nat)
    requires encoding.Bcd?
    ensures
      var digits := KeepDigits(encoding, BytesToHex(bytes), count);
      var front := Front(encoding, bytes, count, |digits|);
      && 0 <= front && front + |digits| <= 2 * |bytes|
      && KeptDigits(encoding, bytes, count, front, front + |digits|)
      && forall j | front <= j < front + |digits| :: digits[j - front] == HexChar(HalfByte(bytes, j))
  {
    hide HalfByte, BytesToHex;
    var text := BytesToHex(bytes);
    var digits := KeepDigits(encoding, text, count);
    var front := Front(encoding, bytes, count, |digits|);
    assert digits == text[front..front + |digits|];
    forall j | front <= j < front + |digits|
      ensures digits[j - front] == HexChar(HalfByte(bytes, j))
    {
      PrintedNibbles(bytes, j);
    }
  }

  // ----- Read fields -----

  /** The answer to a body of `size` bytes after `skip`, with or without a count of digits. */
  ghost predicate BodyRead(field: Field, rest: Bytes, skip: nat, size: nat, counted: Option<nat>, read: FieldRead) {
    if |rest| < skip + size then read == FieldRead(Err(Truncated), skip)
    else
      && read.consumed == skip + size
      && var raw := rest[skip..skip + size];
      && (read.result.Ok? ==>
            Within(field, read.result.value) && exists kept | Stripped(field, raw, kept) ::
              ReadAs(field.encoding, kept, counted, read.result.value))
      && (forall kept, value | Stripped(field, raw, kept) && ReadAs(field.encoding, kept, counted, value) ::
            read.result == if Within(field, value) then Ok(value) else Err(ValidationFailed))
      && (read.result.Err? ==> read.result.error.DecodeFailed? || read.result.error.ValidationFailed?)
  }

  lemma BodyIsRead(field: Field, rest: Bytes, skip: nat, size: nat, counted: Option<nat>)
    requires skip <= |rest|
    ensures BodyRead(field, rest, skip, size, counted, UnpackBody(field, rest, skip, size, counted))
  {
    hide Stripped, ReadAs, StripPadding, DecodeValue, Within, ValueAllowed;
    if |rest| >= skip + size {
      var raw := rest[skip..skip + size];
      var kept := StripPadding(field, raw);
      forall other
        ensures Stripped(field, raw, other) <==> other == kept
      {
        StrippedIff(field, raw, other);
      }
      var decoded := DecodeValue(field.encoding, kept, counted);
      forall value
        ensures decoded == Ok(value) <==> ReadAs(field.encoding, kept, counted, value)
        ensures decoded.Err? ==> decoded.error == DecodeFailed
      {
        ReadIff(field.encoding, kept, counted, value);
      }
      DecodedIsNoGroup(field.encoding, kept, counted);
      if decoded.Ok? {
        WithinIff(field, decoded.value);
        assert Stripped(field, raw, kept) && ReadAs(field.encoding, kept, counted, decoded.value);
      } else {
        ReadIff(field.encoding, kept, counted, Raw([]));
      }
    }
  }

  lemma DecodedIsNoGroup(encoding: Encoding, bytes: Bytes, counted: Option<nat>)
    ensures DecodeValue(encoding, bytes, counted).Ok? ==> !DecodeValue(encoding, bytes, counted).value.Items?
  {
  }

  /** A field of fixed width is read from that many bytes. */
  lemma FixedIsRead(field: Field, rest: Bytes)
    requires field.length.Fixed?
    ensures BodyRead(field, rest, 0, field.length.bytes,
                     if field.encoding.Bcd? then field.encoding.digitCount else None, UnpackField(field, rest))
  {
    BodyIsRead(field, rest, 0, field.length.bytes,
               if field.encoding.Bcd? then field.encoding.digitCount else None);
  }

  /**
   * A field with a prefix is read from as many bytes, or digits two a byte, as the prefix says; a cut or malformed
   * prefix, and one beyond the field's limit, have each their own failure.
   */
  lemma VariableIsRead(field: Field, rest: Bytes, n: nat)
    requires field.length.Variable?
    ensures
      var read := UnpackField(field, rest);
      var digits, size := if field.length.long then 3 else 2, PrefixSize(field.length);
      var packed := field.length.unit.DigitUnit? && field.encoding.Bcd?;
      && (|rest| < size ==> read == FieldRead(Err(Truncated), 0))
      && (|rest| >= size && read.result != Err(InvalidLengthPrefix) ==>
            exists m: nat | m < (if field.length.long then 1000 else 100) ::
              HoldsDigits(rest[..size], m, digits, field.length.prefix))
      && (|rest| >= size && n < (if field.length.long then 1000 else 100)
          && HoldsDigits(rest[..size], n, digits, field.length.prefix) ==>
            if n > field.length.maxLength then read == FieldRead(Err(LimitExceeded), size)
            else BodyRead(field, rest, size, if packed then (n + 1) / 2 else n,
                          if field.length.unit.DigitUnit? then Some(n) else None, read))
  {
    hide BodyRead, HoldsDigits, UnpackBody, DecodeDecimalLength;
    var digits, size := field.length.Width(), PrefixSize(field.length);
    if |rest| >= size {
      Powers();
      var declared := DecodeDecimalLength(rest[..size], digits, field.length.prefix);
      PrefixIsReadIff(rest[..size], declared.GetOr(0), digits, field.length.prefix);
      PrefixIsReadIff(rest[..size], n, digits, field.length.prefix);
      var packed := field.length.unit.DigitUnit? && field.encoding.Bcd?;
      BodyIsRead(field, rest, size, if packed then (n + 1) / 2 else n,
                 if field.length.unit.DigitUnit? then Some(n) else None);
    }
  }
}
