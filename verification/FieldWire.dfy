/** One field on the wire: packages/host-message/src/field-wire.ts. */
module FieldWire {
  import opened Prelude
  import opened ByteText
  import opened FieldCodecs

  datatype LengthUnit = ByteUnit | DigitUnit

  /** Fixed width, or an LLVAR/LLLVAR prefix counting bytes or digits. */
  datatype LengthRule =
    | Fixed(bytes: nat)
    | Variable(long: bool, maxLength: nat, prefix: LengthEncoding, unit: LengthUnit)
  {
    function Width(): nat
      requires Variable?
    {
      if long then 3 else 2
    }
  }

  datatype Padding = Padding(byte: Byte, left: bool, strip: bool)

  /** Length bounds, an allowed list, and a pattern taken as any predicate on strings. */
  datatype Validation = Validation(
    allowedValues: Option<seq<string>>,
    minLength: Option<int>,
    maxLength: Option<int>,
    pattern: Option<string -> bool>)

  datatype Field = Field(
    dataElement: Option<nat>,
    encoding: Encoding,
    length: LengthRule,
    allowBlank: bool,
    padding: Option<Padding>,
    validation: Option<Validation>)

  /** validateValue: the source's undefined result is `true`. */
  predicate ValueAllowed(field: Field, value: Value)
    requires !value.Items?
  {
    var logicalLength := if value.Text? then |value.text| else |value.bytes|;
    && (!field.allowBlank && value.Text? ==> value.text != "")
    && (field.validation.Some? ==>
          var v := field.validation.value;
          && (v.minLength.Some? ==> v.minLength.value <= logicalLength)
          && (v.maxLength.Some? ==> logicalLength <= v.maxLength.value)
          && (value.Text? && v.allowedValues.Some? ==> value.text in v.allowedValues.value)
          && (value.Text? && v.pattern.Some? ==> v.pattern.value(value.text)))
  }

  function PadBytes(field: Field, bytes: Bytes, length: nat): (r: Result<Bytes, Failure>)
    ensures r.Ok? ==> |r.value| == length
  {
    if |bytes| == length then Ok(bytes)
    else if |bytes| > length then Err(Overflow)
    else if field.padding.None? then Err(LengthMismatch)
    else
      var fill := Repeat(length - |bytes|, field.padding.value.byte);
      Ok(if field.padding.value.left then fill + bytes else bytes + fill)
  }

  function StripLeft(bytes: Bytes, pad: Byte): Bytes {
    if bytes != [] && bytes[0] == pad then StripLeft(bytes[1..], pad) else bytes
  }

  function StripRight(bytes: Bytes, pad: Byte): Bytes {
    if bytes != [] && bytes[|bytes| - 1] == pad then StripRight(bytes[..|bytes| - 1], pad) else bytes
  }

  function StripPadding(field: Field, bytes: Bytes): Bytes {
    if field.padding.None? || !field.padding.value.strip then bytes
    else if field.padding.value.left then StripLeft(bytes, field.padding.value.byte)
    else StripRight(bytes, field.padding.value.byte)
  }

  /** stripPadding as the source runs it, moving the two ends of a window. */
  method StripPaddingInPlace(field: Field, bytes: Bytes) returns (stripped: Bytes)
    ensures stripped == StripPadding(field, bytes)
  {
    if field.padding.None? || !field.padding.value.strip {
      return bytes;
    }
    var pad := field.padding.value.byte;
    var start, end := 0, |bytes|;
    if field.padding.value.left {
      while start < end && bytes[start] == pad
        invariant 0 <= start <= end == |bytes|
        invariant StripLeft(bytes, pad) == StripLeft(bytes[start..], pad)
      {
        assert bytes[start..][1..] == bytes[start + 1..];
        start := start + 1;
      }
    } else {
      assert bytes[..end] == bytes;
      while end > start && bytes[end - 1] == pad
        invariant start == 0 <= end <= |bytes|
        invariant StripRight(bytes, pad) == StripRight(bytes[..end], pad)
      {
        assert bytes[..end][..end - 1] == bytes[..end - 1];
        end := end - 1;
      }
    }
    stripped := bytes[start..end];
    assert bytes[start..end] == (if field.padding.value.left then bytes[start..] else bytes[..end]);
  }

  function PackField(field: Field, value: Value): (r: Result<Bytes, Failure>)
    ensures r.Ok? && field.length.Fixed? ==> |r.value| == field.length.bytes
  {
    if value.Items? || !ValueAllowed(field, value) then Err(ValidationFailed)
    else
      var encoded :- EncodeValue(field.encoding, value);
      match field.length
      case Fixed(length) => PadBytes(field, encoded.bytes, length)
      case Variable(_, maxLength, encoding, unit) =>
        var logicalLength := if unit.DigitUnit? then encoded.logicalLength else |encoded.bytes|;
        if logicalLength > maxLength then Err(LimitExceeded)
        else
          var prefix := EncodeDecimalLength(logicalLength, field.length.Width(), encoding);
          if prefix.None? then Err(LimitExceeded) else Ok(prefix.value + encoded.bytes)
  }

  /** What unpackWireField reports, and how far it moved the cursor. */
  datatype FieldRead = FieldRead(result: Result<Value, Failure>, consumed: nat)

  /** Reading the body: `wireLength` bytes after a prefix of `skip` bytes. */
  function UnpackBody(field: Field, rest: Bytes, skip: nat, wireLength: nat, logicalLength: Option<nat>): (r: FieldRead)
    requires skip <= |rest|
    ensures skip <= r.consumed <= |rest|
  {
    if wireLength > |rest| - skip then FieldRead(Err(Truncated), skip)
    else
      var raw := rest[skip..skip + wireLength];
      var decoded := DecodeValue(field.encoding, StripPadding(field, raw), logicalLength);
      FieldRead(
        if decoded.Ok? && !ValueAllowed(field, decoded.value) then Err(ValidationFailed) else decoded,
        skip + wireLength)
  }

  /** unpackWireField on the bytes the cursor has left. */
  function UnpackField(field: Field, rest: Bytes): (r: FieldRead)
    ensures r.consumed <= |rest|
  {
    match field.length
    case Fixed(length) =>
      UnpackBody(field, rest, 0, length, if field.encoding.Bcd? then field.encoding.digitCount else None)
    case Variable(_, maxLength, encoding, unit) =>
      var skip := PrefixBytes(field.length.Width(), encoding);
      if skip > |rest| then FieldRead(Err(Truncated), 0)
      else
        var declared := DecodeDecimalLength(rest[..skip], field.length.Width(), encoding);
        if declared.None? then FieldRead(Err(InvalidLengthPrefix), skip)
        else if declared.value > maxLength then FieldRead(Err(LimitExceeded), skip)
        else
          UnpackBody(field, rest, skip,
            if unit.DigitUnit? && field.encoding.Bcd? then (declared.value + 1) / 2 else declared.value,
            if unit.DigitUnit? then declared else None)
  }

  /** The cursor of packages/host-message/src/bytes.ts over one message. */
  class ByteCursor {
    const source: Bytes
    var position: nat

    ghost predicate Valid()
      reads this
    {
      position <= |source|
    }

    function Remaining(): Bytes
      requires Valid()
      reads this
    {
      source[position..]
    }

    constructor (source: Bytes)
      ensures Valid() && this.source == source && position == 0
    {
      this.source := source;
      position := 0;
    }

    /** Returns the next bytes and moves past them, or leaves the cursor where it is. */
    method Read(length: int) returns (value: Option<Bytes>)
      requires Valid()
      modifies this
      ensures Valid()
      ensures value.Some? <==> 0 <= length <= |old(Remaining())|
      ensures value.Some? ==> value.value == old(Remaining())[..length] && position == old(position) + length
      ensures value.None? ==> position == old(position)
    {
      if length < 0 || length > |source| - position {
        return None;
      }
      value := Some(source[position..position + length]);
      position := position + length;
    }
  }

  /** The body of unpackWireField as the source runs it: read, strip, decode, validate. */
  method ReadBody(cursor: ByteCursor, field: Field, ghost rest: Bytes, ghost skip: nat,
                  wireLength: nat, logicalLength: Option<nat>)
    returns (result: Result<Value, Failure>)
    requires cursor.Valid() && skip <= |rest| && cursor.Remaining() == rest[skip..]
    modifies cursor
    ensures cursor.Valid()
    ensures result == UnpackBody(field, rest, skip, wireLength, logicalLength).result
    ensures skip + cursor.position ==
            old(cursor.position) + UnpackBody(field, rest, skip, wireLength, logicalLength).consumed
  {
    var raw := cursor.Read(wireLength);
    if raw.None? {
      return Err(Truncated);
    }
    assert raw.value == rest[skip..skip + wireLength];
    var stripped := StripPaddingInPlace(field, raw.value);
    result := DecodeValue(field.encoding, stripped, logicalLength);
    if result.Ok? && !ValueAllowed(field, result.value) {
      result := Err(ValidationFailed);
    }
  }

  /** unpackWireField as the source runs it: the cursor moves past the prefix, then past the body. */
  method UnpackWireField(cursor: ByteCursor, field: Field) returns (result: Result<Value, Failure>)
    requires cursor.Valid()
    modifies cursor
    ensures cursor.Valid()
    ensures result == UnpackField(field, old(cursor.Remaining())).result
    ensures cursor.position == old(cursor.position) + UnpackField(field, old(cursor.Remaining())).consumed
  {
    hide UnpackBody, DecodeDecimalLength;
    ghost var rest := cursor.Remaining();
    if field.length.Fixed? {
      result := ReadBody(cursor, field, rest, 0, field.length.bytes,
                         if field.encoding.Bcd? then field.encoding.digitCount else None);
      return;
    }
    var skip := PrefixBytes(field.length.Width(), field.length.prefix);
    var prefix := cursor.Read(skip);
    if prefix.None? {
      return Err(Truncated);
    }
    var declared := DecodeDecimalLength(prefix.value, field.length.Width(), field.length.prefix);
    if declared.None? {
      return Err(InvalidLengthPrefix);
    }
    if declared.value > field.length.maxLength {
      return Err(LimitExceeded);
    }
    var digits := field.length.unit.DigitUnit?;
    result := ReadBody(cursor, field, rest, skip,
                       if digits && field.encoding.Bcd? then (declared.value + 1) / 2 else declared.value,
                       if digits then declared else None);
  }
}
