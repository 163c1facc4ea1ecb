/** Field values and the built-in encodings of packages/host-message/src/field-codecs.ts. */
module FieldCodecs {
  import opened Prelude
  import opened ByteText

  type Nibble = n: int | 0 <= n < 16

  /** A host field value: text, raw bytes, or the items of a repeating group. */
  datatype Value = Text(text: string) | Raw(bytes: Bytes) | Items(items: seq<FieldSet>)

  type FieldSet = map<string, Value>

  /** The failure codes the two message codecs report. */
  datatype Failure =
    | Truncated
    | DecodeFailed
    | ValidationFailed
    | InvalidLengthPrefix
    | LimitExceeded
    | Overflow
    | LengthMismatch
    | FieldMissing
    | ProfileInvalid
    | TrailingBytes
    | MtiInvalid
    | BitmapInvalid
    | UndefinedDataElement
    | RequiredFieldMissing
    | ForbiddenField
  {
    /** canReturnPartial of packages/host-message/src/failures.ts. */
    predicate CanReturnPartial() {
      Truncated? || DecodeFailed? || ValidationFailed? || InvalidLengthPrefix?
    }
  }

  datatype Encoding =
    | Ascii
    | Binary
    | AsciiHex
    | Bcd(digitCount: Option<nat>, padRight: bool, padNibble: Nibble)

  datatype Encoded = Encoded(bytes: Bytes, logicalLength: nat)

  predicate IsAscii(s: string) {
    forall i :: 0 <= i < |s| ==> s[i] as int < 128
  }

  /** A BCD value filled up to whole bytes with the pad nibble. */
  function BcdDigits(encoding: Encoding, value: string): (s: string)
    requires encoding.Bcd?
    ensures |s| == |value| + |value| % 2
  {
    var pad := [LowerHexChar(encoding.padNibble)];
    if |value| % 2 == 0 then value
    else if encoding.padRight then value + pad
    else pad + value
  }

  function EncodeBcd(encoding: Encoding, value: string): (r: Result<Encoded, Failure>)
    requires encoding.Bcd?
    ensures r.Ok? ==> 2 * |r.value.bytes| == |value| + |value| % 2 && r.value.logicalLength == |value|
    ensures r.Ok? ==> AllDigits(value) && (encoding.digitCount.Some? ==> |value| == encoding.digitCount.value)
  {
    if !AllDigits(value) then Err(DecodeFailed)
    else if encoding.digitCount.Some? && |value| != encoding.digitCount.value then Err(ValidationFailed)
    else
      var bytes := HexToBytes(BcdDigits(encoding, value));
      if bytes.Some? then Ok(Encoded(bytes.value, |value|)) else Err(DecodeFailed)
  }

  /** The digits decodeBcd keeps of the hexadecimal text, for a known digit count. */
  function KeepDigits(encoding: Encoding, digits: string, length: nat): string
    requires encoding.Bcd?
  {
    if length % 2 == 0 then digits
    else if encoding.padRight then (if length <= |digits| then digits[..length] else digits)
    else LastChars(digits, length)
  }

  function DecodeBcd(encoding: Encoding, bytes: Bytes, logicalLength: Option<nat>): Result<string, Failure>
    requires encoding.Bcd?
  {
    var length :=
      if logicalLength.Some? then logicalLength.value else encoding.digitCount.GetOr(2 * |bytes|);
    var digits := KeepDigits(encoding, BytesToHex(bytes), length);
    if AllDigits(digits) then Ok(digits) else Err(DecodeFailed)
  }

  function EncodeValue(encoding: Encoding, value: Value): (r: Result<Encoded, Failure>)
  {
    match encoding
    case Ascii =>
      if !value.Text? then Err(ValidationFailed)
      else if !IsAscii(value.text) then Err(DecodeFailed)
      else Ok(Encoded(AsciiBytes(value.text), |value.text|))
    case Binary =>
      if value.Raw? then Ok(Encoded(value.bytes, |value.bytes|)) else Err(ValidationFailed)
    case AsciiHex =>
      if !value.Text? then Err(ValidationFailed)
      else
        var bytes := HexToBytes(value.text);
        if bytes.Some? then Ok(Encoded(bytes.value, |value.text|)) else Err(DecodeFailed)
    case Bcd(_, _, _) =>
      if value.Text? then EncodeBcd(encoding, value.text) else Err(ValidationFailed)
  }

  function DecodeValue(encoding: Encoding, bytes: Bytes, logicalLength: Option<nat>): Result<Value, Failure> {
    match encoding
    case Ascii =>
      if exists i :: 0 <= i < |bytes| && bytes[i] > 127 then Err(DecodeFailed) else Ok(Text(CharsOf(bytes)))
    case Binary => Ok(Raw(bytes))
    case AsciiHex => Ok(Text(BytesToHex(bytes)))
    case Bcd(_, _, _) =>
      var digits := DecodeBcd(encoding, bytes, logicalLength);
      if digits.Ok? then Ok(Text(digits.value)) else Err(digits.error)
  }
}
