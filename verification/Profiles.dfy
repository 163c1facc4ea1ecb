/** Profile acceptance: packages/host-message/src/registries.ts. */
module Profiles {
  import opened Prelude
  import opened ByteText
  import opened FieldCodecs
  import opened FieldWire
  import opened FixedField
  import opened Iso8583
  import IsoRoundTrip
  import FixedFieldRoundTrip
  import opened Bitmap

  datatype CodecId = FixedFieldCodec | IsoCodec

  datatype Definition = Definition(id: string, field: Field)

  datatype Message = Message(id: string, uses: seq<Use>, mti: Option<string>)

  datatype Profile = Profile(
    id: string, version: string, codec: CodecId, maxMessageBytes: int,
    definitions: seq<Definition>, messages: seq<Message>)

  datatype Limits = Limits(maxMessageBytes: int, maxFixedFields: int, maxRepeatItems: int)

  // ----- Acceptance, stated over the whole profile -----

  predicate FieldAccepted(field: Field, limits: Limits) {
    (if field.length.Fixed? then field.length.bytes else field.length.maxLength) <= limits.maxMessageBytes
  }

  predicate DefinitionsAccepted(definitions: seq<Definition>, limits: Limits) {
    && (forall i :: 0 <= i < |definitions| ==>
          var d := definitions[i];
          && d.id != "" && FieldAccepted(d.field, limits)
          && (d.field.dataElement.Some? ==> 2 <= d.field.dataElement.value <= 128))
    && (forall i, j :: 0 <= i < j < |definitions| ==>
          && definitions[i].id != definitions[j].id
          && (definitions[i].field.dataElement.Some? ==>
                definitions[i].field.dataElement != definitions[j].field.dataElement))
  }

  /** The field table of a profile. */
  function Table(definitions: seq<Definition>): map<string, Field> {
    if definitions == [] then map[]
    else
      var last := definitions[|definitions| - 1];
      Table(definitions[..|definitions| - 1])[last.id := last.field]
  }

  predicate UseAccepted(codec: CodecId, use: Use, fields: map<string, Field>, limits: Limits) {
    match use
    case ScalarUse(id, _) => id in fields && (codec.IsoCodec? ==> fields[id].dataElement.Some?)
    case GroupUse(_, countId, itemIds, maxItems, _, _, _) =>
      && codec.FixedFieldCodec? && 0 < maxItems <= limits.maxRepeatItems
      && countId in fields && forall k :: 0 <= k < |itemIds| ==> itemIds[k] in fields
  }

  /** No scalar is used twice. */
  predicate ScalarsDistinct(uses: seq<Use>) {
    forall i, j :: 0 <= i < j < |uses| && uses[i].ScalarUse? && uses[j].ScalarUse? ==>
      uses[i].fieldId != uses[j].fieldId
  }

  /** Scalars after an optional-trailing scalar are optional-trailing; groups are not looked at. */
  predicate TailAccepted(uses: seq<Use>) {
    forall i, j :: 0 <= i < j < |uses| && uses[i].ScalarUse? && uses[j].ScalarUse? && uses[i].IsTrailing() ==>
      uses[j].IsTrailing()
  }

  predicate MessageAccepted(codec: CodecId, message: Message, fields: map<string, Field>, limits: Limits) {
    && message.id != ""
    && (forall k :: 0 <= k < |message.uses| ==> UseAccepted(codec, message.uses[k], fields, limits))
    && ScalarsDistinct(message.uses)
    && (codec.FixedFieldCodec? ==> TailAccepted(message.uses))
    && (codec.IsoCodec? ==> message.mti.Some? && IsoRoundTrip.FourDigits(message.mti.value))
  }

  predicate ProfileAccepted(profile: Profile, limits: Limits) {
    && profile.id != "" && profile.version != ""
    && 0 < profile.maxMessageBytes <= limits.maxMessageBytes
    && |profile.definitions| <= limits.maxFixedFields
    && DefinitionsAccepted(profile.definitions, limits)
    && (forall k :: 0 <= k < |profile.messages| ==>
          MessageAccepted(profile.codec, profile.messages[k], Table(profile.definitions), limits))
    && (forall i, j :: 0 <= i < j < |profile.messages| ==> profile.messages[i].id != profile.messages[j].id)
  }

  // ----- The validation loops of the source -----

  lemma {:induction false} TableKeys(definitions: seq<Definition>, id: string)
    ensures id in Table(definitions) <==> exists i :: 0 <= i < |definitions| && definitions[i].id == id
    ensures id in Table(definitions) ==>
              exists i :: 0 <= i < |definitions| && definitions[i].id == id
                  && definitions[i].field == Table(definitions)[id]
  {
    if definitions != [] {
      var front := definitions[..|definitions| - 1];
      TableKeys(front, id);
      assert forall i :: 0 <= i < |front| ==> front[i] == definitions[i];
      assert forall i :: 0 <= i < |definitions| ==> i == |definitions| - 1 || definitions[i] == front[i];
    }
  }

  /** One more definition keeps the table acceptable when it is itself acceptable and new. */
  lemma DefinitionsPush(definitions: seq<Definition>, k: nat, limits: Limits)
    requires k < |definitions| && DefinitionsAccepted(definitions[..k], limits)
    ensures var d := definitions[k];
            DefinitionsAccepted(definitions[..k + 1], limits) <==>
              && d.id != "" && d.id !in Table(definitions[..k]) && FieldAccepted(d.field, limits)
              && (d.field.dataElement.Some? ==>
                    && 2 <= d.field.dataElement.value <= 128
                    && forall i :: 0 <= i < k ==> definitions[i].field.dataElement != d.field.dataElement)
  {
    hide FieldAccepted, Table;
    var front, next := definitions[..k], definitions[..k + 1];
    TableKeys(front, definitions[k].id);
    assert forall i :: 0 <= i < k ==> front[i] == next[i] == definitions[i];
    assert next[k] == definitions[k];
  }

  lemma RejectedPrefix(definitions: seq<Definition>, k: nat, limits: Limits)
    requires k <= |definitions|
    ensures DefinitionsAccepted(definitions, limits) ==> DefinitionsAccepted(definitions[..k], limits)
  {
    hide FieldAccepted;
  }

  method ValidateDefinitions(definitions: seq<Definition>, limits: Limits)
    returns (accepted: bool, fields: map<string, Field>)
    ensures accepted <==> DefinitionsAccepted(definitions, limits)
    ensures accepted ==> fields == Table(definitions)
  {
    hide DefinitionsAccepted, FieldAccepted;
    fields := map[];
    var elements: set<nat> := {};
    var k := 0;
    assert DefinitionsAccepted(definitions[..0], limits) by { NoDefinitions(limits); assert definitions[..0] == []; }
    while k < |definitions|
      invariant 0 <= k <= |definitions|
      invariant fields == Table(definitions[..k])
      invariant DefinitionsAccepted(definitions[..k], limits)
      invariant forall e :: e in elements <==>
                  exists i :: 0 <= i < k && definitions[i].field.dataElement == Some(e)
    {
      var d := definitions[k];
      assert definitions[..k + 1][..k] == definitions[..k];
      DefinitionsPush(definitions, k, limits);
      RejectedPrefix(definitions, k + 1, limits);
      if d.id == "" || d.id in fields {
        return false, fields;
      }
      fields := fields[d.id := d.field];
      if d.field.dataElement.Some? {
        var element := d.field.dataElement.value;
        if element < 2 || element > 128 || element in elements {
          return false, fields;
        }
        elements := elements + {element};
      }
      if !FieldAccepted(d.field, limits) {
        return false, fields;
      }
      k := k + 1;
    }
    assert definitions[..k] == definitions;
    return true, fields;
  }

  lemma NoDefinitions(limits: Limits)
    ensures DefinitionsAccepted([], limits)
  {
  }

  method ValidateMessage(codec: CodecId, message: Message, fields: map<string, Field>, limits: Limits)
    returns (accepted: bool)
    ensures accepted <==> MessageAccepted(codec, message, fields, limits)
  {
    if message.id == "" {
      return false;
    }
    var used: set<string> := {};
    var optionalTail := false;
    var k := 0;
    while k < |message.uses|
      invariant 0 <= k <= |message.uses|
      invariant forall i :: 0 <= i < k ==> UseAccepted(FixedFieldCodec, message.uses[i], fields, limits)
      invariant codec.IsoCodec? ==> forall i :: 0 <= i < k ==> message.uses[i].ScalarUse?
      invariant ScalarsDistinct(message.uses[..k])
      invariant codec.FixedFieldCodec? ==> TailAccepted(message.uses[..k])
      invariant forall id :: id in used <==>
                  exists i :: 0 <= i < k && message.uses[i].ScalarUse? && message.uses[i].fieldId == id
      invariant optionalTail <==>
                  exists i :: 0 <= i < k && message.uses[i].ScalarUse? && message.uses[i].IsTrailing()
    {
      var use := message.uses[k];
      if use.ScalarUse? {
        if use.fieldId !in fields || use.fieldId in used {
          return false;
        }
        used := used + {use.fieldId};
        optionalTail := optionalTail || use.IsTrailing();
        if codec.FixedFieldCodec? && optionalTail && !use.IsTrailing() {
          return false;
        }
      } else if !UseAccepted(codec, use, fields, limits) {
        return false;
      }
      k := k + 1;
    }
    assert message.uses[..k] == message.uses;
    if codec.IsoCodec? {
      if message.mti.None? || !IsoRoundTrip.FourDigits(message.mti.value) {
        return false;
      }
      return forall i :: 0 <= i < |message.uses| ==> UseAccepted(codec, message.uses[i], fields, limits);
    }
    return true;
  }

  method ValidateProfile(profile: Profile, limits: Limits) returns (accepted: bool)
    ensures accepted <==> ProfileAccepted(profile, limits)
  {
    if profile.id == "" || profile.version == "" {
      return false;
    }
    if profile.maxMessageBytes <= 0 || profile.maxMessageBytes > limits.maxMessageBytes {
      return false;
    }
    if |profile.definitions| > limits.maxFixedFields {
      return false;
    }
    var ok, fields := ValidateDefinitions(profile.definitions, limits);
    if !ok {
      return false;
    }
    var ids: set<string> := {};
    var k := 0;
    while k < |profile.messages|
      invariant 0 <= k <= |profile.messages|
      invariant forall i :: 0 <= i < k ==> MessageAccepted(profile.codec, profile.messages[i], fields, limits)
      invariant forall i, j :: 0 <= i < j < k ==> profile.messages[i].id != profile.messages[j].id
      invariant forall id :: id in ids <==> exists i :: 0 <= i < k && profile.messages[i].id == id
    {
      var message := profile.messages[k];
      if message.id == "" || message.id in ids {
        return false;
      }
      ids := ids + {message.id};
      var good := ValidateMessage(profile.codec, message, fields, limits);
      if !good {
        return false;
      }
      k := k + 1;
    }
    return true;
  }

  // ----- What acceptance buys -----

  function IsoContextOf(profile: Profile, message: Message, mtiEncoding: MtiEncoding,
                        bitmapEncoding: BitmapEncoding, limits: Limits): IsoContext
  {
    IsoContext(Table(profile.definitions), message.uses, message.mti, mtiEncoding, bitmapEncoding,
               profile.maxMessageBytes, limits.maxMessageBytes)
  }

  function ContextOf(profile: Profile, message: Message, limits: Limits): Context {
    Context(Table(profile.definitions), message.uses, profile.maxMessageBytes, limits.maxMessageBytes,
            limits.maxRepeatItems)
  }

  lemma ElementsDetermineFields(definitions: seq<Definition>, limits: Limits, a: string, b: string)
    requires DefinitionsAccepted(definitions, limits)
    requires a in Table(definitions) && b in Table(definitions) && a != b
    requires Table(definitions)[a].dataElement.Some?
    ensures 2 <= Table(definitions)[a].dataElement.value <= 128
    ensures Table(definitions)[a].dataElement != Table(definitions)[b].dataElement
  {
    TableKeys(definitions, a);
    TableKeys(definitions, b);
    var i :| 0 <= i < |definitions| && definitions[i].id == a && definitions[i].field == Table(definitions)[a];
    var j :| 0 <= j < |definitions| && definitions[j].id == b && definitions[j].field == Table(definitions)[b];
    if j < i {
      assert definitions[j].field.dataElement.Some? ==>
          definitions[j].field.dataElement != definitions[i].field.dataElement;
    }
  }

  lemma {:induction false} IsoEntries(ctx: IsoContext, uses: seq<Use>)
    requires forall k :: 0 <= k < |uses| ==>
               && uses[k].ScalarUse? && uses[k].fieldId in ctx.fieldsById
               && ctx.fieldsById[uses[k].fieldId].dataElement.Some?
    ensures IsoUses(ctx, uses).Ok? && |IsoUses(ctx, uses).value| == |uses|
    ensures forall k :: 0 <= k < |uses| ==>
              && IsoUses(ctx, uses).value[k].fieldId == uses[k].fieldId
              && IsoUses(ctx, uses).value[k].element == ctx.fieldsById[uses[k].fieldId].dataElement.value
  {
    if uses != [] {
      assert forall k :: 0 <= k < |uses[1..]| ==> uses[1..][k] == uses[k + 1];
      IsoEntries(ctx, uses[1..]);
    }
  }

  /** Every message of an accepted ISO profile is in the domain of the ISO round trip. */
  lemma AcceptedIsoProfile(profile: Profile, limits: Limits, k: nat, mtiEncoding: MtiEncoding,
      bitmapEncoding: BitmapEncoding)
    requires ProfileAccepted(profile, limits) && profile.codec.IsoCodec? && k < |profile.messages|
    ensures IsoRoundTrip.Accepted(IsoContextOf(profile, profile.messages[k], mtiEncoding, bitmapEncoding, limits))
  {
    var message := profile.messages[k];
    var ctx := IsoContextOf(profile, message, mtiEncoding, bitmapEncoding, limits);
    var table := Table(profile.definitions);
    forall i | 0 <= i < |message.uses|
      ensures message.uses[i].ScalarUse? && message.uses[i].fieldId in table
      ensures table[message.uses[i].fieldId].dataElement.Some?
    {
      assert UseAccepted(profile.codec, message.uses[i], table, limits);
    }
    IsoEntries(ctx, ctx.uses);
    var entries := IsoUses(ctx, ctx.uses).value;
    forall i | 0 <= i < |entries|
      ensures 2 <= entries[i].element <= 128
    {
      TableKeys(profile.definitions, message.uses[i].fieldId);
    }
    forall i, j | 0 <= i < j < |entries|
      ensures entries[i].element != entries[j].element && entries[i].fieldId != entries[j].fieldId
    {
      ElementsDetermineFields(profile.definitions, limits, message.uses[i].fieldId, message.uses[j].fieldId);
    }
  }

  // ----- What acceptance does not buy -----

  function PaddedField(): Field {
    Field(None, Ascii, Fixed(2), false, Some(Padding(0x20, false, false)), None)
  }

  function LossyProfile(): Profile {
    Profile("p", "1", FixedFieldCodec, 8, [Definition("name", PaddedField())],
            [Message("m", [ScalarUse("name", Some(Required))], None)])
  }

  /** An accepted profile whose packed message decodes completely, but to a different value. */
  lemma AcceptedProfileCanLoseValues()
    ensures var limits := Limits(64, 4, 4);
            var profile := LossyProfile();
            var ctx := ContextOf(profile, profile.messages[0], limits);
            && ProfileAccepted(profile, limits)
            && PackMessage(ctx, map["name" := Text("A")]) == Ok([0x41, 0x20])
            && UnpackMessage(ctx, [0x41, 0x20], false) == Complete(map["name" := Text("A ")])
  {
    var limits := Limits(64, 4, 4);
    var profile := LossyProfile();
    var ctx := ContextOf(profile, profile.messages[0], limits);
    var definitions := profile.definitions;
    assert definitions[..0] == [];
    assert Table(definitions) == map["name" := PaddedField()];
    assert UseAccepted(FixedFieldCodec, profile.messages[0].uses[0], Table(definitions), limits);
    var fields: FieldSet := map["name" := Text("A")];
    var wire: Bytes := [0x41, 0x20];
    assert AsciiBytes("A") == [0x41];
    assert AsciiBytes("A") + Repeat(1, PaddedField().padding.value.byte) == wire;
    assert PadBytes(PaddedField(), AsciiBytes("A"), 2) == Ok(wire);
    assert PackField(PaddedField(), Text("A")) == Ok(wire);
    assert PackUses(ctx, [], fields) == Ok([]);
    assert ctx.uses[1..] == [];
    assert wire + [] == wire;
    assert PackUses(ctx, ctx.uses, fields) == Ok(wire);
    assert wire[0..] == wire && wire[0..0 + 2] == wire;
    assert CharsOf(wire) == "A ";
    assert UnpackField(PaddedField(), wire) == FieldRead(Ok(Text("A ")), 2);
    assert UnpackUses(ctx, ctx.uses, wire, 0, map[])
        == UnpackUses(ctx, ctx.uses[1..], wire, 2, map["name" := Text("A ")]);
  }
}
