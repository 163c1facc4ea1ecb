/**
 * The round trip of ISO messages as an equivalence: a message comes back unchanged exactly when each of its values
 * meets the condition of its field. ExactMessages does the same for fixed-field messages.
 */
module ExactRoundTrip {
  import opened Prelude
  import opened ByteText
  import opened FieldCodecs
  import opened FieldWire
  import opened FieldRoundTrip
  import opened FixedField
  import opened FixedFieldRoundTrip
  import opened Bitmap
  import Iso8583
  import IsoRoundTrip

  /** Hexadecimal text behind a prefix that counts digits: its reader takes the digits for bytes. */
  predicate CountsHexDigits(field: Field) {
    field.encoding.AsciiHex? && field.length.Variable? && field.length.unit.DigitUnit?
  }

  predicate MiscountsHex(field: Field, value: Value) {
    CountsHexDigits(field) && value.Text? && value.text != ""
  }

  /** All other fields consume exactly what was written for them, recoverable or not. */
  lemma ConsumesItsWire(field: Field, value: Value, rest: Bytes)
    requires PackField(field, value).Ok? && !MiscountsHex(field, value)
    requires UnpackField(field, PackField(field, value).value + rest).result.Ok?
    ensures UnpackField(field, PackField(field, value).value + rest).consumed == |PackField(field, value).value|
  {
    var wire := PackField(field, value).value;
    hide DecodeValue, StripPadding, ValueAllowed, PadBytes;
    if field.length.Variable? {
      VariableRead(field, value, wire, rest);
      hide EncodeDecimalLength, DecodeDecimalLength, HexToBytes;
    }
  }

  /** Decoding to a text takes at least the bytes the text is encoded in. */
  lemma DecodingNeedsItsBytes(encoding: Encoding, value: Value, bytes: Bytes, logicalLength: Option<nat>)
    requires EncodeValue(encoding, value).Ok? && DecodeValue(encoding, bytes, logicalLength) == Ok(value)
    ensures |bytes| >= |EncodeValue(encoding, value).value.bytes|
  {
    hide IsAscii, IsHexPairs, AllDigits;
    if encoding.Bcd? {
      hide BytesToHex, EncodeBcd;
      assert |KeepDigits(encoding, BytesToHex(bytes), |value.text|)| <= 2 * |bytes|;
    }
  }

  lemma StrippingShortens(field: Field, bytes: Bytes)
    ensures |StripPadding(field, bytes)| <= |bytes|
  {
    if field.padding.Some? {
      StripShortens(bytes, field.padding.value.byte);
    }
  }

  lemma BodyNeedsItsBytes(field: Field, value: Value, rest: Bytes, skip: nat, wireLength: nat,
      logicalLength: Option<nat>)
    requires EncodeValue(field.encoding, value).Ok? && skip <= |rest|
    requires UnpackBody(field, rest, skip, wireLength, logicalLength).result == Ok(value)
    ensures UnpackBody(field, rest, skip, wireLength, logicalLength).consumed
            >= skip + |EncodeValue(field.encoding, value).value.bytes|
  {
    hide EncodeValue, DecodeValue, StripPadding, ValueAllowed;
    var raw := rest[skip..skip + wireLength];
    StrippingShortens(field, raw);
    DecodingNeedsItsBytes(field.encoding, value, StripPadding(field, raw), logicalLength);
  }

  /** Wherever the reader returns a value, it consumed at least what packing the value writes. */
  lemma ReadingNeedsTheWire(field: Field, value: Value, rest: Bytes)
    requires PackField(field, value).Ok? && UnpackField(field, rest).result == Ok(value)
    ensures UnpackField(field, rest).consumed >= |PackField(field, value).value|
  {
    hide EncodeValue, DecodeValue, StripPadding, ValueAllowed, UnpackBody, EncodeDecimalLength, DecodeDecimalLength;
    if field.length.Fixed? {
      assert UnpackField(field, rest).consumed == field.length.bytes by { FixedConsumes(field, rest); }
    } else {
      var digits := field.length.unit.DigitUnit?;
      var skip := PrefixBytes(field.length.Width(), field.length.prefix);
      var declared := DecodeDecimalLength(rest[..skip], field.length.Width(), field.length.prefix).value;
      BodyNeedsItsBytes(field, value, rest, skip,
                        if digits && field.encoding.Bcd? then (declared + 1) / 2 else declared,
                        if digits then Some(declared) else None);
    }
  }

  lemma FixedConsumes(field: Field, rest: Bytes)
    requires field.length.Fixed? && UnpackField(field, rest).result.Ok?
    ensures UnpackField(field, rest).consumed == field.length.bytes
  {
    hide DecodeValue, StripPadding, ValueAllowed;
  }

  /**
   * A value that is not recoverable is not what the reader returns, unless the reader takes digits for bytes and
   * thereby reads past the value's end.
   */
  lemma LostValue(field: Field, value: Value, rest: Bytes)
    requires PackField(field, value).Ok? && !Recoverable(field, value)
    ensures var wire := PackField(field, value).value;
            var read := UnpackField(field, wire + rest);
            read.result == Ok(value) ==> MiscountsHex(field, value) && read.consumed > |wire|
  {
    RoundTrip(field, value, rest);
    hide UnpackField, PackField, Recoverable, MiscountsHex;
    var read := UnpackField(field, PackField(field, value).value + rest);
    if read.result == Ok(value) {
      ReadingNeedsTheWire(field, value, PackField(field, value).value + rest);
      if !MiscountsHex(field, value) {
        ConsumesItsWire(field, value, rest);
      }
    }
  }

  // ----- ISO 8583 -----

  predicate DistinctIds(entries: seq<Iso8583.Entry>) {
    forall i, j :: 0 <= i < j < |entries| ==> entries[i].fieldId != entries[j].fieldId
  }

  /** What was decoded stays, unless a later element has the same field. */
  lemma {:induction false} ElementsKeep(
    ctx: Iso8583.IsoContext, entries: seq<Iso8583.Entry>, todo: seq<Iso8583.Entry>, bytes: Bytes, offset: nat,
        got: FieldSet,
    key: string)
    requires offset <= |bytes| && IsoRoundTrip.Resolved(entries, todo)
        && Iso8583.AllDefined(entries, Iso8583.Elements(todo))
    requires key in got && forall i :: 0 <= i < |todo| ==> todo[i].fieldId != key
    ensures
      var step := Iso8583.UnpackElements(ctx, entries, Iso8583.Elements(todo), bytes, offset, got);
      step.Next? ==> key in step.fields && step.fields[key] == got[key]
    decreases |todo|
  {
    hide UnpackField, Iso8583.EntryOf;
    if todo != [] {
      IsoRoundTrip.ResolvedDefined(entries, todo);
      IsoRoundTrip.ResolvedDefined(entries, todo[1..]);
      var id := todo[0].fieldId;
      if id in ctx.fieldsById {
        var step := UnpackScalar(ctx.fieldsById[id], id, bytes, offset, got, got);
        if step.Next? {
          ElementsKeep(ctx, entries, todo[1..], bytes, step.offset, step.fields, key);
        }
      }
    }
  }

  /** Some entry is missing from the decoded fields, or has another value there. */
  ghost predicate Misses(todo: seq<Iso8583.Entry>, fields: FieldSet, decoded: FieldSet) {
    exists i :: 0 <= i < |todo| && todo[i].fieldId in fields &&
      (todo[i].fieldId !in decoded || decoded[todo[i].fieldId] != fields[todo[i].fieldId])
  }

  lemma MissesLater(todo: seq<Iso8583.Entry>, fields: FieldSet, decoded: FieldSet)
    requires todo != [] && Misses(todo[1..], fields, decoded)
    ensures Misses(todo, fields, decoded)
  {
    var i :| 0 <= i < |todo[1..]| && todo[1..][i].fieldId in fields &&
      (todo[1..][i].fieldId !in decoded || decoded[todo[1..][i].fieldId] != fields[todo[1..][i].fieldId]);
    assert todo[i + 1] == todo[1..][i];
  }

  lemma TailConditions(ctx: Iso8583.IsoContext, todo: seq<Iso8583.Entry>, fields: FieldSet)
    requires todo != [] && DistinctIds(todo)
    requires todo[0].fieldId in ctx.fieldsById && todo[0].fieldId in fields
    ensures DistinctIds(todo[1..])
    ensures Recoverable(ctx.fieldsById[todo[0].fieldId], fields[todo[0].fieldId])
            && IsoRoundTrip.EntriesRecoverable(ctx.fieldsById, todo[1..], fields)
            ==> IsoRoundTrip.EntriesRecoverable(ctx.fieldsById, todo, fields)
  {
    hide Recoverable;
    assert forall i :: 0 <= i < |todo[1..]| ==> todo[1..][i] == todo[i + 1];
    assert forall i :: 0 < i < |todo| ==> todo[i] == todo[1..][i - 1];
  }

  /** Entries that find fewer bytes than packing them writes end in a failure or in a loss. */
  lemma {:induction false} ElementsStarve(
    ctx: Iso8583.IsoContext, entries: seq<Iso8583.Entry>, todo: seq<Iso8583.Entry>, fields: FieldSet,
    bytes: Bytes, offset: nat, got: FieldSet)
    requires IsoRoundTrip.Resolved(entries, todo) && Iso8583.AllDefined(entries, Iso8583.Elements(todo))
    requires Iso8583.PackEntries(ctx.fieldsById, todo, fields).Ok? && DistinctIds(todo)
    requires offset <= |bytes| < offset + |Iso8583.PackEntries(ctx.fieldsById, todo, fields).value|
    ensures
      var step := Iso8583.UnpackElements(ctx, entries, Iso8583.Elements(todo), bytes, offset, got);
      step.Next? ==> Misses(todo, fields, step.fields)
    decreases |todo|
  {
    hide UnpackField, PackField, Recoverable, Iso8583.EntryOf, IsoRoundTrip.EntriesRecoverable;
    var id := todo[0].fieldId;
    var head := PackField(ctx.fieldsById[id], fields[id]).value;
    IsoRoundTrip.ResolvedDefined(entries, todo);
    IsoRoundTrip.ResolvedDefined(entries, todo[1..]);
    TailConditions(ctx, todo, fields);
    var first := UnpackScalar(ctx.fieldsById[id], id, bytes, offset, got, got);
    if first.Next? {
      if first.fields[id] == fields[id] {
        ReadingNeedsTheWire(ctx.fieldsById[id], fields[id], bytes[offset..]);
        ElementsStarve(ctx, entries, todo[1..], fields, bytes, first.offset, first.fields);
        var step := Iso8583.UnpackElements(ctx, entries, Iso8583.Elements(todo), bytes, offset, got);
        if step.Next? {
          MissesLater(todo, fields, step.fields);
        }
      } else {
        LaterIds(todo);
        ElementsKeep(ctx, entries, todo[1..], bytes, first.offset, first.fields, id);
      }
    }
  }

  lemma {:induction false} ElementsLost(
    ctx: Iso8583.IsoContext, entries: seq<Iso8583.Entry>, todo: seq<Iso8583.Entry>, fields: FieldSet,
    bytes: Bytes, offset: nat, got: FieldSet)
    requires IsoRoundTrip.Resolved(entries, todo) && Iso8583.AllDefined(entries, Iso8583.Elements(todo))
    requires Iso8583.PackEntries(ctx.fieldsById, todo, fields).Ok? && DistinctIds(todo) && offset <= |bytes|
    requires bytes[offset..] == Iso8583.PackEntries(ctx.fieldsById, todo, fields).value
    requires !IsoRoundTrip.EntriesRecoverable(ctx.fieldsById, todo, fields)
    ensures
      var step := Iso8583.UnpackElements(ctx, entries, Iso8583.Elements(todo), bytes, offset, got);
      step.Next? ==> Misses(todo, fields, step.fields)
    decreases |todo|
  {
    hide UnpackField, PackField, Recoverable, Iso8583.EntryOf, MiscountsHex, IsoRoundTrip.EntriesRecoverable;
    assert todo != [] by { NoEntries(ctx, fields); }
    var id := todo[0].fieldId;
    var head := PackField(ctx.fieldsById[id], fields[id]).value;
    var tail := Iso8583.PackEntries(ctx.fieldsById, todo[1..], fields).value;
    assert At(bytes, offset, head + tail);
    AtSplit(bytes, offset, head, tail);
    IsoRoundTrip.ResolvedDefined(entries, todo);
    IsoRoundTrip.ResolvedDefined(entries, todo[1..]);
    TailConditions(ctx, todo, fields);
    var first := UnpackScalar(ctx.fieldsById[id], id, bytes, offset, got, got);
    if Recoverable(ctx.fieldsById[id], fields[id]) {
      ScalarRoundTrip(ctx.fieldsById[id], id, fields[id], bytes, offset, got, got);
      ElementsLost(ctx, entries, todo[1..], fields, bytes, offset + |head|, first.fields);
    } else {
      LostValue(ctx.fieldsById[id], fields[id], bytes[offset + |head|..]);
      if first.Next? && first.fields[id] == fields[id] {
        ElementsStarve(ctx, entries, todo[1..], fields, bytes, first.offset, first.fields);
      } else if first.Next? {
        LaterIds(todo);
        ElementsKeep(ctx, entries, todo[1..], bytes, first.offset, first.fields, id);
      }
    }
    var step := Iso8583.UnpackElements(ctx, entries, Iso8583.Elements(todo), bytes, offset, got);
    if step.Next? && Misses(todo[1..], fields, step.fields) {
      MissesLater(todo, fields, step.fields);
    }
  }

  lemma NoEntries(ctx: Iso8583.IsoContext, fields: FieldSet)
    ensures IsoRoundTrip.EntriesRecoverable(ctx.fieldsById, [], fields)
  {
  }

  lemma LaterIds(todo: seq<Iso8583.Entry>)
    requires todo != [] && DistinctIds(todo)
    ensures forall i :: 0 <= i < |todo[1..]| ==> todo[1..][i].fieldId != todo[0].fieldId
  {
  }

  lemma SortedIdsDistinct(ctx: Iso8583.IsoContext, fields: FieldSet)
    requires IsoRoundTrip.Accepted(ctx) && Iso8583.SortedPresent(ctx, fields).Ok?
    ensures DistinctIds(Iso8583.SortedPresent(ctx, fields).value)
  {
    hide Iso8583.SortedPresent, Iso8583.IsoUses;
    IsoRoundTrip.SortedPresentFacts(ctx, fields);
    var entries, sorted := Iso8583.IsoUses(ctx, ctx.uses).value, Iso8583.SortedPresent(ctx, fields).value;
    forall i, j | 0 <= i < j < |sorted|
      ensures sorted[i].fieldId != sorted[j].fieldId
    {
      assert sorted[i] in entries && sorted[j] in entries;
      assert Iso8583.Elements(sorted)[i] < Iso8583.Elements(sorted)[j];
      assert sorted[i] != sorted[j];
    }
  }

  /**
   * Main result: a packed ISO message decodes to exactly its present fields if and only if every present value is
   * recoverable.
   */
  lemma IsoMessageRestoredIff(ctx: Iso8583.IsoContext, fields: FieldSet, allowPartial: bool)
    requires IsoRoundTrip.Accepted(ctx) && Iso8583.PackIso(ctx, fields).Ok?
    ensures
      Iso8583.UnpackIso(ctx, Iso8583.PackIso(ctx, fields).value, allowPartial)
        == Complete(IsoRoundTrip.PresentFields(ctx, fields))
      <==> IsoRoundTrip.EntriesRecoverable(ctx.fieldsById, Iso8583.SortedPresent(ctx, fields).value, fields)
  {
    hide Iso8583.SortedPresent, Iso8583.PackHeader, IsoRoundTrip.EntriesRecoverable, Iso8583.UnpackIsoStep,
      Iso8583.PackEntries,
      Iso8583.UnpackElements, IsoRoundTrip.Accepted;
    var sorted := Iso8583.SortedPresent(ctx, fields).value;
    if IsoRoundTrip.EntriesRecoverable(ctx.fieldsById, sorted, fields) {
      IsoRoundTrip.MessageRoundTrip(ctx, fields, allowPartial);
    } else {
      var bytes := Iso8583.PackIso(ctx, fields).value;
      var header := Iso8583.PackHeader(ctx, sorted);
      var body := Iso8583.PackEntries(ctx.fieldsById, sorted, fields).value;
      assert At(bytes, 0, header + body);
      AtSplit(bytes, 0, header, body);
      IsoRoundTrip.HeaderRoundTrip(ctx, fields, bytes);
      IsoRoundTrip.AcceptedHasEntries(ctx);
      IsoRoundTrip.PresentIsResolved(ctx, fields);
      SortedIdsDistinct(ctx, fields);
      var entries := Iso8583.IsoUses(ctx, ctx.uses).value;
      assert bytes[|header|..] == body;
      ElementsLost(ctx, entries, sorted, fields, bytes, |header|, map[]);
      var step := Iso8583.UnpackElements(ctx, entries, Iso8583.Elements(sorted), bytes, |header|, map[]);
      if step.Next? {
        MissesPresentFields(ctx, fields, step.fields);
      }
    }
  }

  lemma MissesPresentFields(ctx: Iso8583.IsoContext, fields: FieldSet, decoded: FieldSet)
    requires IsoRoundTrip.Accepted(ctx) && Iso8583.SortedPresent(ctx, fields).Ok?
    requires Misses(Iso8583.SortedPresent(ctx, fields).value, fields, decoded)
    ensures decoded != IsoRoundTrip.PresentFields(ctx, fields)
  {
    hide Iso8583.SortedPresent, IsoRoundTrip.Accepted;
    var sorted := Iso8583.SortedPresent(ctx, fields).value;
    IsoRoundTrip.ValuesArePresentFields(ctx, fields);
    var i :| 0 <= i < |sorted| && sorted[i].fieldId in fields &&
      (sorted[i].fieldId !in decoded || decoded[sorted[i].fieldId] != fields[sorted[i].fieldId]);
    IsoRoundTrip.ValuesHold(sorted, fields, sorted[i].fieldId);
  }
}
