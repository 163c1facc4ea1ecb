/**
 * A complete decode uses up the message: whatever is appended to a message that decodes completely makes it fail, for
 * fixed-field and for ISO messages. What a decoder read from the first bytes of a message it reads again from a longer
 * one.
 */
module TrailingBytes {
  import opened Prelude
  import opened ByteText
  import opened FieldCodecs
  import opened FieldWire
  import opened FieldRoundTrip
  import opened FixedField
  import opened FixedFieldRoundTrip
  import opened Bitmap
  import opened Iso8583
  import IsoRoundTrip

  // ----- A longer message reads the same -----

  lemma BodyStays(field: Field, rest: Bytes, more: Bytes, skip: nat, wireLength: nat, logicalLength: Option<nat>)
    requires skip + wireLength <= |rest|
    ensures UnpackBody(field, rest + more, skip, wireLength, logicalLength)
         == UnpackBody(field, rest, skip, wireLength, logicalLength)
  {
    hide DecodeValue, StripPadding, ValueAllowed;
    assert (rest + more)[skip..skip + wireLength] == rest[skip..skip + wireLength];
  }

  lemma FieldStays(field: Field, rest: Bytes, more: Bytes)
    requires UnpackField(field, rest).result.Ok?
    ensures UnpackField(field, rest + more) == UnpackField(field, rest)
  {
    hide DecodeValue, StripPadding, ValueAllowed, DecodeDecimalLength;
    match field.length
    case Fixed(length) =>
      BodyStays(field, rest, more, 0, length, if field.encoding.Bcd? then field.encoding.digitCount else None);
    case Variable(_, maxLength, encoding, unit) =>
      var skip := PrefixBytes(field.length.Width(), encoding);
      assert (rest + more)[..skip] == rest[..skip];
      var declared := DecodeDecimalLength(rest[..skip], field.length.Width(), encoding);
      BodyStays(field, rest, more, skip,
        if unit.DigitUnit? && field.encoding.Bcd? then (declared.value + 1) / 2 else declared.value,
        if unit.DigitUnit? then declared else None);
  }

  lemma ScalarStays(field: Field, key: string, bytes: Bytes, more: Bytes, offset: nat, fields: FieldSet,
      kept: FieldSet)
    requires offset <= |bytes| && UnpackScalar(field, key, bytes, offset, fields, kept).Next?
    ensures UnpackScalar(field, key, bytes + more, offset, fields, kept)
         == UnpackScalar(field, key, bytes, offset, fields, kept)
  {
    hide UnpackField;
    assert (bytes + more)[offset..] == bytes[offset..] + more;
    FieldStays(field, bytes[offset..], more);
  }

  lemma {:induction false} ItemStays(fieldsById: map<string, Field>, ids: seq<string>, bytes: Bytes, more: Bytes,
      offset: nat, item: FieldSet, kept: FieldSet)
    requires offset <= |bytes| && UnpackItem(fieldsById, ids, bytes, offset, item, kept).Next?
    ensures UnpackItem(fieldsById, ids, bytes + more, offset, item, kept)
         == UnpackItem(fieldsById, ids, bytes, offset, item, kept)
    decreases |ids|
  {
    hide UnpackScalar;
    if ids != [] {
      ScalarStays(fieldsById[ids[0]], ids[0], bytes, more, offset, item, kept);
      var step := UnpackScalar(fieldsById[ids[0]], ids[0], bytes, offset, item, kept);
      ItemStays(fieldsById, ids[1..], bytes, more, step.offset, step.fields, kept);
    }
  }

  lemma {:induction false} ItemsStay(fieldsById: map<string, Field>, ids: seq<string>, n: nat, bytes: Bytes,
      more: Bytes, offset: nat, kept: FieldSet)
    requires offset <= |bytes| && UnpackItems(fieldsById, ids, n, bytes, offset, kept).ItemsRead?
    ensures UnpackItems(fieldsById, ids, n, bytes + more, offset, kept)
         == UnpackItems(fieldsById, ids, n, bytes, offset, kept)
    decreases n
  {
    hide UnpackItem;
    if n > 0 {
      ItemStays(fieldsById, ids, bytes, more, offset, map[], kept);
      ItemsStay(fieldsById, ids, n - 1, bytes, more, UnpackItem(fieldsById, ids, bytes, offset, map[], kept).offset,
        kept);
    }
  }

  lemma GroupStays(ctx: Context, use: Use, bytes: Bytes, more: Bytes, offset: nat, fields: FieldSet)
    requires use.GroupUse? && offset <= |bytes| && UnpackGroup(ctx, use, bytes, offset, fields).Next?
    ensures UnpackGroup(ctx, use, bytes + more, offset, fields) == UnpackGroup(ctx, use, bytes, offset, fields)
  {
    hide UnpackField, UnpackItems, ParseDecimal;
    var field := ctx.fieldsById[use.countFieldId];
    assert (bytes + more)[offset..] == bytes[offset..] + more;
    var count := UnpackField(field, bytes[offset..]);
    FieldStays(field, bytes[offset..], more);
    ItemsStay(ctx.fieldsById, use.itemFieldIds, ParseDecimal(count.result.value.text), bytes, more,
      offset + count.consumed, fields[use.countFieldId := count.result.value]);
  }

  /** Only a use at the tail asks where the message ends. */
  lemma UseStays(ctx: Context, use: Use, bytes: Bytes, more: Bytes, offset: nat, fields: FieldSet)
    requires offset <= |bytes| && !use.IsTrailing() && UnpackUse(ctx, use, bytes, offset, fields).Next?
    ensures UnpackUse(ctx, use, bytes + more, offset, fields) == UnpackUse(ctx, use, bytes, offset, fields)
  {
    hide UnpackScalar, UnpackGroup;
    if use.IsForbidden() {
    } else if use.GroupUse? {
      GroupStays(ctx, use, bytes, more, offset, fields);
    } else {
      ScalarStays(ctx.fieldsById[use.fieldId], use.fieldId, bytes, more, offset, fields, fields);
    }
  }

  predicate NoTail(uses: seq<Use>) {
    forall k :: 0 <= k < |uses| ==> !uses[k].IsTrailing()
  }

  lemma {:induction false} UsesStay(ctx: Context, uses: seq<Use>, bytes: Bytes, more: Bytes, offset: nat,
      fields: FieldSet)
    requires offset <= |bytes| && NoTail(uses) && UnpackUses(ctx, uses, bytes, offset, fields).Next?
    ensures UnpackUses(ctx, uses, bytes + more, offset, fields) == UnpackUses(ctx, uses, bytes, offset, fields)
    decreases |uses|
  {
    hide UnpackUse;
    if uses != [] {
      UseStays(ctx, uses[0], bytes, more, offset, fields);
      var step := UnpackUse(ctx, uses[0], bytes, offset, fields);
      assert NoTail(uses[1..]) by { assert forall k :: 0 <= k < |uses[1..]| ==> uses[1..][k] == uses[k + 1]; }
      UsesStay(ctx, uses[1..], bytes, more, step.offset, step.fields);
    }
  }

  // ----- Fixed-field messages -----

  /** Whatever follows a message that decodes completely, when no use is optional at the tail, is reported. */
  lemma CompleteUsesAll(ctx: Context, bytes: Bytes, rest: Bytes, allowPartial: bool, allowLater: bool)
    requires NoTail(ctx.uses) && rest != [] && UnpackMessage(ctx, bytes, allowPartial).Complete?
    ensures UnpackMessage(ctx, bytes + rest, allowLater) == Failed(TrailingBytes)
  {
    hide UnpackUses;
    UsesStay(ctx, ctx.uses, bytes, rest, 0, map[]);
  }

  /** No message is the beginning of another one. */
  lemma NeitherIsThePrefix(ctx: Context, bytes: Bytes, longer: Bytes, allowPartial: bool, allowLater: bool)
    requires NoTail(ctx.uses) && bytes <= longer
    requires UnpackMessage(ctx, bytes, allowPartial).Complete? && UnpackMessage(ctx, longer, allowLater).Complete?
    ensures bytes == longer
  {
    hide UnpackMessage;
    if bytes != longer {
      assert longer == bytes + longer[|bytes|..];
      CompleteUsesAll(ctx, bytes, longer[|bytes|..], allowPartial, allowLater);
    }
  }

  /** The message has all of its tail: only forbidden uses are absent. */
  predicate FullTail(uses: seq<Use>, fields: FieldSet) {
    forall k :: 0 <= k < |uses| ==> Contributes(uses[k], fields) || uses[k].IsForbidden()
  }

  lemma {:induction false} UsesThenMore(ctx: Context, uses: seq<Use>, fields: FieldSet, bytes: Bytes, offset: nat,
      got: FieldSet)
    requires PackUses(ctx, uses, fields).Ok? && WellFormed(ctx, uses, fields) && FullTail(uses, fields)
    requires At(bytes, offset, PackUses(ctx, uses, fields).value)
    requires offset + |PackUses(ctx, uses, fields).value| < |bytes|
    ensures UnpackUses(ctx, uses, bytes, offset, got)
         == Next(Decoded(ctx, uses, fields, got), offset + |PackUses(ctx, uses, fields).value|)
    decreases |uses|
  {
    hide PackUse, UnpackUse, UseRecoverable, DecodedUse, SomethingWritten;
    if uses != [] {
      var head := PackUse(ctx, uses[0], fields).value;
      var tail := PackUses(ctx, uses[1..], fields).value;
      AtSplit(bytes, offset, head, tail);
      UseRoundTrip(ctx, uses[0], fields, bytes, offset, got);
      assert FullTail(uses[1..], fields) by {
        assert forall k :: 0 <= k < |uses[1..]| ==> uses[1..][k] == uses[k + 1];
      }
      UsesThenMore(ctx, uses[1..], fields, bytes, offset + |head|, DecodedUse(ctx, uses[0], fields, got));
    }
  }

  /** A packed message with its whole tail, if it has one, tolerates nothing behind it. */
  lemma PackedThenMore(ctx: Context, fields: FieldSet, rest: Bytes, allowPartial: bool)
    requires PackMessage(ctx, fields).Ok? && WellFormed(ctx, ctx.uses, fields) && FullTail(ctx.uses, fields)
    requires rest != []
    ensures UnpackMessage(ctx, PackMessage(ctx, fields).value + rest, allowPartial) == Failed(TrailingBytes)
  {
    hide PackUses, UnpackUses, WellFormed, FullTail;
    var wire := PackMessage(ctx, fields).value;
    assert At(wire + rest, 0, wire) by { assert (wire + rest)[0..|wire|] == wire; }
    UsesThenMore(ctx, ctx.uses, fields, wire + rest, 0, map[]);
  }

  // ----- ISO 8583 -----

  lemma BitmapPartStays(encoding: BitmapEncoding, bytes: Bytes, more: Bytes, offset: nat)
    requires offset <= |bytes| && ReadBitmapPart(encoding, bytes, offset).BitmapRead?
    ensures ReadBitmapPart(encoding, bytes + more, offset) == ReadBitmapPart(encoding, bytes, offset)
  {
    hide HexToBytes;
    var n := if encoding.BinaryBitmap? then 8 else 16;
    assert (bytes + more)[offset..offset + n] == bytes[offset..offset + n];
  }

  lemma BitmapsStay(encoding: BitmapEncoding, bytes: Bytes, more: Bytes, offset: nat)
    requires offset <= |bytes| && ReadBitmaps(encoding, bytes, offset).BitmapRead?
    ensures ReadBitmaps(encoding, bytes + more, offset) == ReadBitmaps(encoding, bytes, offset)
  {
    hide ReadBitmapPart;
    BitmapPartStays(encoding, bytes, more, offset);
    var primary := ReadBitmapPart(encoding, bytes, offset);
    if primary.bitmap[0] & 0x80 != 0 {
      BitmapPartStays(encoding, bytes, more, primary.offset);
    }
  }

  lemma {:induction false} ElementsStay(ctx: IsoContext, entries: seq<Entry>, elements: seq<nat>, bytes: Bytes,
      more: Bytes, offset: nat, fields: FieldSet)
    requires offset <= |bytes| && AllDefined(entries, elements)
    requires UnpackElements(ctx, entries, elements, bytes, offset, fields).Next?
    ensures UnpackElements(ctx, entries, elements, bytes + more, offset, fields)
         == UnpackElements(ctx, entries, elements, bytes, offset, fields)
    decreases |elements|
  {
    hide UnpackScalar, EntryOf;
    if elements != [] {
      var id := EntryOf(entries, elements[0]).value.fieldId;
      ScalarStays(ctx.fieldsById[id], id, bytes, more, offset, fields, fields);
      var step := UnpackScalar(ctx.fieldsById[id], id, bytes, offset, fields, fields);
      ElementsStay(ctx, entries, elements[1..], bytes, more, step.offset, step.fields);
    }
  }

  lemma IsoStepStays(ctx: IsoContext, bytes: Bytes, more: Bytes)
    requires UnpackIsoStep(ctx, bytes).Next?
    ensures UnpackIsoStep(ctx, bytes + more) == UnpackIsoStep(ctx, bytes)
    ensures UnpackIsoStep(ctx, bytes).offset <= |bytes|
  {
    hide UnpackElements, ReadBitmaps, ReadElements, DecodeMti, AllDefined, AllRequired, IsoUses;
    var mtiLength := MtiLength(ctx.mtiEncoding);
    assert (bytes + more)[..mtiLength] == bytes[..mtiLength];
    BitmapsStay(ctx.bitmapEncoding, bytes, more, mtiLength);
    var read := ReadBitmaps(ctx.bitmapEncoding, bytes, mtiLength);
    ElementsStay(ctx, IsoUses(ctx, ctx.uses).value, ReadElements(read.bitmap), bytes, more, read.offset, map[]);
  }

  /** Whatever follows an ISO message that decodes completely is reported. */
  lemma CompleteIsoUsesAll(ctx: IsoContext, bytes: Bytes, rest: Bytes, allowPartial: bool, allowLater: bool)
    requires rest != [] && UnpackIso(ctx, bytes, allowPartial).Complete?
    ensures UnpackIso(ctx, bytes + rest, allowLater) == Failed(TrailingBytes)
  {
    hide UnpackIsoStep;
    IsoStepStays(ctx, bytes, rest);
  }

  lemma NeitherIsoIsThePrefix(ctx: IsoContext, bytes: Bytes, longer: Bytes, allowPartial: bool, allowLater: bool)
    requires bytes <= longer
    requires UnpackIso(ctx, bytes, allowPartial).Complete? && UnpackIso(ctx, longer, allowLater).Complete?
    ensures bytes == longer
  {
    hide UnpackIso;
    if bytes != longer {
      assert longer == bytes + longer[|bytes|..];
      CompleteIsoUsesAll(ctx, bytes, longer[|bytes|..], allowPartial, allowLater);
    }
  }

  /** A packed ISO message tolerates nothing behind it. */
  lemma PackedIsoThenMore(ctx: IsoContext, fields: FieldSet, rest: Bytes, allowPartial: bool)
    requires IsoRoundTrip.Accepted(ctx) && PackIso(ctx, fields).Ok? && rest != []
    requires IsoRoundTrip.EntriesRecoverable(ctx.fieldsById, SortedPresent(ctx, fields).value, fields)
    ensures UnpackIso(ctx, PackIso(ctx, fields).value + rest, allowPartial) == Failed(TrailingBytes)
  {
    hide PackIso, UnpackIso, IsoRoundTrip.Accepted, IsoRoundTrip.EntriesRecoverable, SortedPresent;
    IsoRoundTrip.MessageRoundTrip(ctx, fields, allowPartial);
    CompleteIsoUsesAll(ctx, PackIso(ctx, fields).value, rest, allowPartial, allowPartial);
  }
}
