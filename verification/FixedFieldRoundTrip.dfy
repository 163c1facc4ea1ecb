/** Round trip and truncation of fixed-field messages, over every definition and every field set. */
module FixedFieldRoundTrip {
  import opened Prelude
  import opened ByteText
  import opened FieldCodecs
  import opened FieldWire
  import opened FieldRoundTrip
  import opened CountFields
  import opened FixedField

  // ----- The domain of the round trip -----

  /** The use writes something for these fields. */
  predicate Contributes(use: Use, fields: FieldSet) {
    !use.IsForbidden() && use.Key() in fields
  }

  /** Every field of every item reads back as itself. */
  predicate ItemsRecoverable(fieldsById: map<string, Field>, ids: seq<string>, items: seq<FieldSet>) {
    forall i, k :: 0 <= i < |items| && 0 <= k < |ids| && ids[k] in fieldsById && ids[k] in items[i] ==>
      Recoverable(fieldsById[ids[k]], items[i][ids[k]])
  }

  predicate UseRecoverable(ctx: Context, use: Use, fields: FieldSet)
    requires use.Key() in fields
  {
    var value := fields[use.Key()];
    match use
    case ScalarUse(id, _) =>
      id in ctx.fieldsById ==> Recoverable(ctx.fieldsById[id], value)
    case GroupUse(_, countId, ids, _, _, _, _) =>
      value.Items? ==>
        && (countId in ctx.fieldsById ==> CountRecoverable(ctx.fieldsById[countId], |value.items|))
        && ItemsRecoverable(ctx.fieldsById, ids, value.items)
  }

  /** The use writes at least one byte: a group its count, a scalar unless its field is zero bytes wide. */
  predicate Writes(ctx: Context, use: Use, fields: FieldSet) {
    && Contributes(use, fields)
    && (use.ScalarUse? && use.fieldId in ctx.fieldsById ==> ctx.fieldsById[use.fieldId].length != Fixed(0))
  }

  predicate SomethingWritten(ctx: Context, uses: seq<Use>, fields: FieldSet) {
    exists k :: 0 <= k < |uses| && Writes(ctx, uses[k], fields)
  }

  /**
    Which field sets read back: present uses are recoverable, and the decoder, which skips an optional-trailing
    use exactly at the end of the message, skips exactly the absent ones.
   */
  predicate WellFormed(ctx: Context, uses: seq<Use>, fields: FieldSet) {
    uses == [] ||
    (&& (if Contributes(uses[0], fields)
         then UseRecoverable(ctx, uses[0], fields) && (uses[0].IsTrailing() ==> SomethingWritten(ctx, uses, fields))
         else uses[0].IsForbidden() || (uses[0].IsTrailing() && !SomethingWritten(ctx, uses, fields)))
     && WellFormed(ctx, uses[1..], fields))
  }

  // ----- What the decoder should return -----

  /** An item reduced to the fields of its group. */
  function Project(item: FieldSet, ids: seq<string>): FieldSet {
    map id | id in ids && id in item :: item[id]
  }

  function ProjectAll(items: seq<FieldSet>, ids: seq<string>): seq<FieldSet> {
    seq(|items|, i requires 0 <= i < |items| => Project(items[i], ids))
  }

  /** The text of a count field as the decoder sees it: the numeral, possibly with leading zeros. */
  function CountText(field: Field, n: nat): Value {
    var wire := PackField(field, Text(ToDecimal(n)));
    if wire.Err? then Text("")
    else
      var read := UnpackField(field, wire.value).result;
      if read.Ok? then read.value else Text("")
  }

  /** The decoded fields after one more use. */
  function DecodedUse(ctx: Context, use: Use, fields: FieldSet, decoded: FieldSet): FieldSet {
    if !Contributes(use, fields) then decoded
    else if use.ScalarUse? then decoded[use.fieldId := fields[use.fieldId]]
    else if !fields[use.id].Items? || use.countFieldId !in ctx.fieldsById then decoded
    else
      var items := fields[use.id].items;
      decoded[use.countFieldId := CountText(ctx.fieldsById[use.countFieldId], |items|)]
             [use.id := Items(ProjectAll(items, use.itemFieldIds))]
  }

  function Decoded(ctx: Context, uses: seq<Use>, fields: FieldSet, decoded: FieldSet): FieldSet {
    if uses == [] then decoded
    else Decoded(ctx, uses[1..], fields, DecodedUse(ctx, uses[0], fields, decoded))
  }

  // ----- Items -----

  /** `wire` stands in `bytes` at `offset`. */
  predicate At(bytes: Bytes, offset: nat, wire: Bytes) {
    offset + |wire| <= |bytes| && bytes[offset..offset + |wire|] == wire
  }

  lemma AtSplit(bytes: Bytes, offset: nat, left: Bytes, right: Bytes)
    requires At(bytes, offset, left + right)
    ensures At(bytes, offset, left) && At(bytes, offset + |left|, right)
    ensures bytes[offset..] == left + bytes[offset + |left|..]
  {
    var all := bytes[offset..offset + |left + right|];
    assert bytes[offset..offset + |left|] == all[..|left|];
    assert bytes[offset + |left|..offset + |left| + |right|] == all[|left|..];
    assert all == left + right;
  }

  lemma ScalarRoundTrip(field: Field, key: string, value: Value, bytes: Bytes, offset: nat, fields: FieldSet,
      kept: FieldSet)
    requires PackField(field, value).Ok? && Recoverable(field, value)
    requires At(bytes, offset, PackField(field, value).value)
    ensures UnpackScalar(field, key, bytes, offset, fields, kept) ==
            Next(fields[key := value], offset + |PackField(field, value).value|)
  {
    hide UnpackField, Recoverable;
    var wire := PackField(field, value).value;
    assert wire + [] == wire;
    AtSplit(bytes, offset, wire, []);
    RoundTrip(field, value, bytes[offset + |wire|..]);
  }

  lemma {:induction false} ItemRoundTrip(
    fieldsById: map<string, Field>, ids: seq<string>, item: FieldSet, bytes: Bytes, offset: nat, got: FieldSet,
        kept: FieldSet)
    requires PackItem(fieldsById, ids, item).Ok?
    requires ItemsRecoverable(fieldsById, ids, [item])
    requires At(bytes, offset, PackItem(fieldsById, ids, item).value)
    ensures UnpackItem(fieldsById, ids, bytes, offset, got, kept) ==
            Next(got + Project(item, ids), offset + |PackItem(fieldsById, ids, item).value|)
    decreases |ids|
  {
    hide UnpackScalar, PackField, Recoverable, ItemsRecoverable, At;
    if ids == [] {
      assert got + Project(item, ids) == got;
    } else {
      var field := fieldsById[ids[0]];
      var head := PackField(field, item[ids[0]]).value;
      var tail := PackItem(fieldsById, ids[1..], item).value;
      AtSplit(bytes, offset, head, tail);
      FirstRecoverable(fieldsById, ids, item);
      ScalarRoundTrip(field, ids[0], item[ids[0]], bytes, offset, got, kept);
      ItemsRecoverableTail(fieldsById, ids, item);
      ItemRoundTrip(fieldsById, ids[1..], item, bytes, offset + |head|, got[ids[0] := item[ids[0]]], kept);
      assert got[ids[0] := item[ids[0]]] + Project(item, ids[1..]) == got + Project(item, ids);
    }
  }

  lemma FirstRecoverable(fieldsById: map<string, Field>, ids: seq<string>, item: FieldSet)
    requires ids != [] && ItemsRecoverable(fieldsById, ids, [item])
    requires ids[0] in fieldsById && ids[0] in item
    ensures Recoverable(fieldsById[ids[0]], item[ids[0]])
  {
    assert [item][0] == item;
  }

  lemma ItemsRecoverableTail(fieldsById: map<string, Field>, ids: seq<string>, item: FieldSet)
    requires ids != [] && ItemsRecoverable(fieldsById, ids, [item])
    ensures ItemsRecoverable(fieldsById, ids[1..], [item])
  {
    hide Recoverable;
    forall i, k | 0 <= i < 1 && 0 <= k < |ids[1..]| && ids[1..][k] in fieldsById && ids[1..][k] in [item][i]
      ensures Recoverable(fieldsById[ids[1..][k]], [item][i][ids[1..][k]])
    {
      assert ids[1..][k] == ids[k + 1];
    }
  }

  lemma ItemsRecoverableSplit(fieldsById: map<string, Field>, ids: seq<string>, items: seq<FieldSet>)
    requires items != [] && ItemsRecoverable(fieldsById, ids, items)
    ensures ItemsRecoverable(fieldsById, ids, [items[0]]) && ItemsRecoverable(fieldsById, ids, items[1..])
  {
    hide Recoverable;
    forall i, k | 0 <= i < |items[1..]| && 0 <= k < |ids| && ids[k] in fieldsById && ids[k] in items[1..][i]
      ensures Recoverable(fieldsById[ids[k]], items[1..][i][ids[k]])
    {
      assert items[1..][i] == items[i + 1];
    }
  }

  lemma {:induction false} ItemsRoundTrip(
    fieldsById: map<string, Field>, ids: seq<string>, items: seq<FieldSet>, bytes: Bytes, offset: nat, kept: FieldSet)
    requires PackItems(fieldsById, ids, items).Ok? && ItemsRecoverable(fieldsById, ids, items)
    requires At(bytes, offset, PackItems(fieldsById, ids, items).value)
    ensures UnpackItems(fieldsById, ids, |items|, bytes, offset, kept) ==
            ItemsRead(ProjectAll(items, ids), offset + |PackItems(fieldsById, ids, items).value|)
  {
    hide UnpackItem, PackItem, ItemsRecoverable, Project, At;
    if items == [] {
    } else {
      var head := PackItem(fieldsById, ids, items[0]).value;
      var tail := PackItems(fieldsById, ids, items[1..]).value;
      AtSplit(bytes, offset, head, tail);
      ItemsRecoverableSplit(fieldsById, ids, items);
      ItemRoundTrip(fieldsById, ids, items[0], bytes, offset, map[], kept);
      ItemsRoundTrip(fieldsById, ids, items[1..], bytes, offset + |head|, kept);
      assert map[] + Project(items[0], ids) == Project(items[0], ids);
      assert ProjectAll(items, ids) == [Project(items[0], ids)] + ProjectAll(items[1..], ids);
    }
  }

  // ----- Uses -----

  /** The parts of a packed group. */
  lemma GroupParts(ctx: Context, use: Use, fields: FieldSet) returns (count: Bytes, items: Bytes, fill: Bytes)
    requires use.GroupUse? && use.id in fields && PackGroup(ctx, use, fields).Ok?
    ensures fields[use.id].Items? && use.countFieldId in ctx.fieldsById
    ensures |fields[use.id].items| <= use.maxItems && |fields[use.id].items| <= ctx.maxRepeatItems
    ensures PackField(ctx.fieldsById[use.countFieldId], Text(ToDecimal(|fields[use.id].items|))) == Ok(count)
    ensures PackItems(ctx.fieldsById, use.itemFieldIds, fields[use.id].items) == Ok(items)
    ensures |fill| == if use.fixedArea.Some? then use.fixedArea.value - |items| else 0
    ensures PackGroup(ctx, use, fields).value == count + (items + fill)
  {
    hide PackField, PackItems;
    var value := fields[use.id].items;
    count := PackField(ctx.fieldsById[use.countFieldId], Text(ToDecimal(|value|))).value;
    items := PackItems(ctx.fieldsById, use.itemFieldIds, value).value;
    fill := [];
    if use.fixedArea.Some? {
      fill := Repeat(use.fixedArea.value - |items|, use.padByte.GetOr(0x20));
    } else {
      assert items + fill == items;
    }
  }

  lemma GroupRoundTrip(ctx: Context, use: Use, fields: FieldSet, bytes: Bytes, offset: nat, got: FieldSet)
    requires use.GroupUse? && use.id in fields && PackGroup(ctx, use, fields).Ok?
    requires UseRecoverable(ctx, use, fields)
    requires At(bytes, offset, PackGroup(ctx, use, fields).value)
    ensures UnpackGroup(ctx, use, bytes, offset, got) ==
            Next(DecodedUse(ctx, use, fields, got), offset + |PackGroup(ctx, use, fields).value|)
  {
    hide UnpackField, PackField, Recoverable, CountRecoverable, ItemsRecoverable, PackItems, UnpackItems;
    var count, items, fill := GroupParts(ctx, use, fields);
    var value := fields[use.id].items;
    var field := ctx.fieldsById[use.countFieldId];
    AtSplit(bytes, offset, count, items + fill);
    AtSplit(bytes, offset + |count|, items, fill);
    CountRoundTrip(field, |value|, bytes[offset + |count|..]);
    var withCount := got[use.countFieldId := CountText(field, |value|)];
    ItemsRoundTrip(ctx.fieldsById, use.itemFieldIds, value, bytes, offset + |count|, withCount);
  }

  lemma UseRoundTrip(ctx: Context, use: Use, fields: FieldSet, bytes: Bytes, offset: nat, got: FieldSet)
    requires PackUse(ctx, use, fields).Ok? && offset <= |bytes|
    requires At(bytes, offset, PackUse(ctx, use, fields).value)
    requires if Contributes(use, fields)
             then UseRecoverable(ctx, use, fields) && (use.IsTrailing() ==> offset < |bytes|)
             else use.IsForbidden() || (use.IsTrailing() && offset == |bytes|)
    ensures UnpackUse(ctx, use, bytes, offset, got) ==
            Next(DecodedUse(ctx, use, fields, got), offset + |PackUse(ctx, use, fields).value|)
  {
    hide UnpackField, PackField, Recoverable, CountRecoverable, ItemsRecoverable, UnpackGroup, PackGroup, UnpackScalar;
    if Contributes(use, fields) {
      if use.GroupUse? {
        GroupRoundTrip(ctx, use, fields, bytes, offset, got);
      } else {
        ScalarRoundTrip(ctx.fieldsById[use.fieldId], use.fieldId, fields[use.fieldId], bytes, offset, got, got);
      }
    } else if use.GroupUse? {
      AbsentGroupIsEmpty(ctx, use, fields);
    }
  }

  lemma AbsentGroupIsEmpty(ctx: Context, use: Use, fields: FieldSet)
    requires use.GroupUse? && use.id !in fields && PackGroup(ctx, use, fields).Ok?
    ensures PackGroup(ctx, use, fields) == Ok([])
  {
  }

  /** A packed count field is never empty. */
  lemma CountOccupies(ctx: Context, use: Use, fields: FieldSet)
    requires use.GroupUse? && use.id in fields && PackGroup(ctx, use, fields).Ok?
    ensures PackGroup(ctx, use, fields).value != []
  {
    var count, items, fill := GroupParts(ctx, use, fields);
    var field := ctx.fieldsById[use.countFieldId];
    var s := ToDecimal(|fields[use.id].items|);
    FieldOccupies(field, Text(s));
  }

  lemma FieldOccupies(field: Field, value: Value)
    requires PackField(field, value).Ok?
    ensures field.length != Fixed(0) <==> PackField(field, value).value != []
    ensures value.Text? && value.text != "" ==> PackField(field, value).value != []
  {
  }

  lemma UseOccupies(ctx: Context, use: Use, fields: FieldSet)
    requires PackUse(ctx, use, fields).Ok?
    ensures PackUse(ctx, use, fields).value != [] <==> Writes(ctx, use, fields)
  {
    hide PackField, PackGroup;
    if use.GroupUse? {
      if use.id in fields {
        CountOccupies(ctx, use, fields);
      } else {
        AbsentGroupIsEmpty(ctx, use, fields);
      }
    } else if Contributes(use, fields) {
      FieldOccupies(ctx.fieldsById[use.fieldId], fields[use.fieldId]);
    }
  }

  /** Bytes are written exactly when some use writes. */
  lemma {:induction false} UsesOccupy(ctx: Context, uses: seq<Use>, fields: FieldSet)
    requires PackUses(ctx, uses, fields).Ok?
    ensures PackUses(ctx, uses, fields).value != [] <==> SomethingWritten(ctx, uses, fields)
  {
    hide PackUse, Writes;
    if uses != [] {
      UseOccupies(ctx, uses[0], fields);
      UsesOccupy(ctx, uses[1..], fields);
      if SomethingWritten(ctx, uses[1..], fields) {
        var k :| 0 <= k < |uses[1..]| && Writes(ctx, uses[1..][k], fields);
        assert uses[k + 1] == uses[1..][k];
      }
      if SomethingWritten(ctx, uses, fields) && !Writes(ctx, uses[0], fields) {
        var k :| 0 <= k < |uses| && Writes(ctx, uses[k], fields);
        assert uses[1..][k - 1] == uses[k];
      }
    }
  }

  lemma {:induction false} UsesRoundTrip(
    ctx: Context, uses: seq<Use>, fields: FieldSet, bytes: Bytes, offset: nat, got: FieldSet)
    requires PackUses(ctx, uses, fields).Ok? && WellFormed(ctx, uses, fields)
    requires offset <= |bytes| && bytes[offset..] == PackUses(ctx, uses, fields).value
    ensures UnpackUses(ctx, uses, bytes, offset, got) == Next(Decoded(ctx, uses, fields, got), |bytes|)
    decreases |uses|
  {
    hide PackUse, UnpackUse, UseRecoverable, DecodedUse, SomethingWritten;
    if uses != [] {
      var head := PackUse(ctx, uses[0], fields).value;
      var tail := PackUses(ctx, uses[1..], fields).value;
      assert At(bytes, offset, head + tail);
      AtSplit(bytes, offset, head, tail);
      UsesOccupy(ctx, uses, fields);
      UseRoundTrip(ctx, uses[0], fields, bytes, offset, got);
      UsesRoundTrip(ctx, uses[1..], fields, bytes, offset + |head|, DecodedUse(ctx, uses[0], fields, got));
    }
  }

  /** Main result: a packed, well-formed message decodes completely, with or without partial results allowed. */
  lemma MessageRoundTrip(ctx: Context, fields: FieldSet, allowPartial: bool)
    requires PackMessage(ctx, fields).Ok? && WellFormed(ctx, ctx.uses, fields)
    ensures UnpackMessage(ctx, PackMessage(ctx, fields).value, allowPartial) ==
            Complete(Decoded(ctx, ctx.uses, fields, map[]))
  {
    UsesRoundTrip(ctx, ctx.uses, fields, PackMessage(ctx, fields).value, 0, map[]);
  }

  // ----- Exactly the packed fields -----

  /** The keys a use may write into the decoded field set. */
  function Keys(use: Use): set<string> {
    if use.ScalarUse? then {use.fieldId} else {use.countFieldId, use.id}
  }

  /** Scalar, group and count identifiers do not collide. */
  predicate DistinctKeys(uses: seq<Use>) {
    && (forall k :: 0 <= k < |uses| && uses[k].GroupUse? ==> uses[k].countFieldId != uses[k].id)
    && (forall j, k :: 0 <= j < k < |uses| ==> Keys(uses[j]) !! Keys(uses[k]))
  }

  function AllKeys(uses: seq<Use>): set<string> {
    set k, key | 0 <= k < |uses| && key in Keys(uses[k]) :: key
  }

  /** The keys of the uses that contribute. */
  function WrittenKeys(uses: seq<Use>, fields: FieldSet): set<string> {
    set k, key | 0 <= k < |uses| && Contributes(uses[k], fields) && key in Keys(uses[k]) :: key
  }

  /** A contributing use is back: its value, or its items and a count denoting their number. */
  predicate Restored(use: Use, fields: FieldSet, decoded: FieldSet) {
    Contributes(use, fields) ==>
      && use.Key() in decoded
      && (use.ScalarUse? ==> decoded[use.fieldId] == fields[use.fieldId])
      && (use.GroupUse? ==>
            && fields[use.id].Items?
            && decoded[use.id] == Items(ProjectAll(fields[use.id].items, use.itemFieldIds))
            && use.countFieldId in decoded
            && CountsTo(Ok(decoded[use.countFieldId]), |fields[use.id].items|))
  }

  predicate SubMap(a: FieldSet, b: FieldSet) {
    forall key :: key in a ==> key in b && a[key] == b[key]
  }

  lemma DecodedUseEffect(ctx: Context, use: Use, fields: FieldSet, got: FieldSet)
    requires PackUse(ctx, use, fields).Ok? && DistinctKeys([use])
    requires Contributes(use, fields) ==> UseRecoverable(ctx, use, fields)
    ensures Restored(use, fields, DecodedUse(ctx, use, fields, got))
    ensures DecodedUse(ctx, use, fields, got).Keys == got.Keys + WrittenKeys([use], fields)
    ensures forall key :: key in got && key !in Keys(use) ==> DecodedUse(ctx, use, fields, got)[key] == got[key]
  {
    hide UnpackField, PackField, Recoverable, CountRecoverable, ItemsRecoverable, PackItems;
    assert [use][0] == use;
    if Contributes(use, fields) {
      assert WrittenKeys([use], fields) == Keys(use);
      if use.GroupUse? {
        var count, items, fill := GroupParts(ctx, use, fields);
        CountRoundTrip(ctx.fieldsById[use.countFieldId], |fields[use.id].items|, []);
      }
    } else {
      assert WrittenKeys([use], fields) == {};
    }
  }

  lemma KeysSplit(uses: seq<Use>, fields: FieldSet)
    requires uses != [] && DistinctKeys(uses)
    ensures DistinctKeys([uses[0]]) && DistinctKeys(uses[1..])
    ensures Keys(uses[0]) !! AllKeys(uses[1..])
    ensures AllKeys(uses) == Keys(uses[0]) + AllKeys(uses[1..])
    ensures WrittenKeys(uses, fields) == WrittenKeys([uses[0]], fields) + WrittenKeys(uses[1..], fields)
  {
    hide Keys;
    forall key
      ensures key in AllKeys(uses) <==> key in Keys(uses[0]) + AllKeys(uses[1..])
      ensures key in WrittenKeys(uses, fields)
              <==> key in WrittenKeys([uses[0]], fields) + WrittenKeys(uses[1..], fields)
    {
      assert forall k :: 0 < k < |uses| ==> uses[k] == uses[1..][k - 1];
      assert [uses[0]][0] == uses[0];
    }
  }

  lemma RestoredInSuper(use: Use, fields: FieldSet, a: FieldSet, b: FieldSet)
    requires Restored(use, fields, a) && SubMap(a, b)
    ensures Restored(use, fields, b)
  {
  }

  /** What one use decoded is still there after the uses that follow it. */
  lemma {:induction false} DecodedKeeps(ctx: Context, uses: seq<Use>, fields: FieldSet, got: FieldSet)
    requires PackUses(ctx, uses, fields).Ok? && WellFormed(ctx, uses, fields) && DistinctKeys(uses)
    requires got.Keys !! AllKeys(uses)
    ensures SubMap(got, Decoded(ctx, uses, fields, got))
    ensures Decoded(ctx, uses, fields, got).Keys == got.Keys + WrittenKeys(uses, fields)
    ensures forall k :: 0 <= k < |uses| ==> Restored(uses[k], fields, Decoded(ctx, uses, fields, got))
  {
    hide PackUse, UseRecoverable, DecodedUse, DistinctKeys, AllKeys, WrittenKeys, Restored;
    if uses == [] {
      assert WrittenKeys(uses, fields) == {} by { NoKeys(fields); }
    } else {
      KeysSplit(uses, fields);
      DecodedUseEffect(ctx, uses[0], fields, got);
      var next := DecodedUse(ctx, uses[0], fields, got);
      WrittenAreKeys(uses[0], fields);
      DecodedKeeps(ctx, uses[1..], fields, next);
      var all := Decoded(ctx, uses, fields, got);
      RestoredInSuper(uses[0], fields, next, all);
      forall k | 0 <= k < |uses|
        ensures Restored(uses[k], fields, all)
      {
        assert k > 0 ==> uses[k] == uses[1..][k - 1];
      }
    }
  }

  lemma NoKeys(fields: FieldSet)
    ensures WrittenKeys([], fields) == {}
  {
  }

  lemma WrittenAreKeys(use: Use, fields: FieldSet)
    ensures WrittenKeys([use], fields) <= Keys(use)
  {
  }

  /**
    Main result: the decoded message holds exactly the scalars and the group items that were packed,
    each group with a count field denoting its number of items.
   */
  lemma MessageRestored(ctx: Context, fields: FieldSet, allowPartial: bool)
    requires PackMessage(ctx, fields).Ok? && WellFormed(ctx, ctx.uses, fields) && DistinctKeys(ctx.uses)
    ensures var outcome := UnpackMessage(ctx, PackMessage(ctx, fields).value, allowPartial);
            && outcome.Complete?
            && outcome.fields.Keys == WrittenKeys(ctx.uses, fields)
            && forall k :: 0 <= k < |ctx.uses| ==> Restored(ctx.uses[k], fields, outcome.fields)
  {
    MessageRoundTrip(ctx, fields, allowPartial);
    DecodedKeeps(ctx, ctx.uses, fields, map[]);
  }

  // ----- Truncated messages -----

  /** `short` ends strictly inside the wire form that starts at `offset`. */
  predicate CutInside(short: Bytes, offset: nat, wire: Bytes) {
    offset <= |short| < offset + |wire| && short[offset..] == wire[..|short| - offset]
  }

  /** A cut falls in the first part, or after it and in the second. */
  lemma CutSplit(short: Bytes, offset: nat, left: Bytes, right: Bytes)
    requires CutInside(short, offset, left + right)
    ensures CutInside(short, offset, left) ||
            (At(short, offset, left) && CutInside(short, offset + |left|, right))
  {
    if |short| < offset + |left| {
      assert (left + right)[..|short| - offset] == left[..|short| - offset];
    } else {
      var rest := short[offset..];
      assert rest[..|left|] == left && rest[|left|..] == right[..|short| - offset - |left|];
      assert short[offset..offset + |left|] == rest[..|left|];
      assert short[offset + |left|..] == rest[|left|..];
    }
  }

  lemma ScalarTruncated(field: Field, key: string, value: Value, short: Bytes, offset: nat, fields: FieldSet,
      kept: FieldSet)
    requires PackField(field, value).Ok? && Recoverable(field, value)
    requires CutInside(short, offset, PackField(field, value).value)
    ensures var step := UnpackScalar(field, key, short, offset, fields, kept);
            step.Soft? && step.fields == kept && step.failure == Truncated
  {
    hide UnpackField, PackField, Recoverable;
    Truncation(field, value, |short| - offset);
  }

  lemma {:induction false} ItemTruncated(
    fieldsById: map<string, Field>, ids: seq<string>, item: FieldSet, short: Bytes, offset: nat, got: FieldSet,
        kept: FieldSet)
    requires PackItem(fieldsById, ids, item).Ok? && ItemsRecoverable(fieldsById, ids, [item])
    requires CutInside(short, offset, PackItem(fieldsById, ids, item).value)
    ensures var step := UnpackItem(fieldsById, ids, short, offset, got, kept);
            step.Soft? && step.fields == kept && step.failure == Truncated
    decreases |ids|
  {
    hide UnpackScalar, PackField, Recoverable;
    if ids != [] {
      var field := fieldsById[ids[0]];
      var head := PackField(field, item[ids[0]]).value;
      var tail := PackItem(fieldsById, ids[1..], item).value;
      CutSplit(short, offset, head, tail);
      assert [item][0] == item;
      if CutInside(short, offset, head) {
        ScalarTruncated(field, ids[0], item[ids[0]], short, offset, got, kept);
      } else {
        ScalarRoundTrip(field, ids[0], item[ids[0]], short, offset, got, kept);
        ItemsRecoverableTail(fieldsById, ids, item);
        ItemTruncated(fieldsById, ids[1..], item, short, offset + |head|, got[ids[0] := item[ids[0]]], kept);
      }
    }
  }

  lemma {:induction false} ItemsTruncated(
    fieldsById: map<string, Field>, ids: seq<string>, items: seq<FieldSet>, short: Bytes, offset: nat, kept: FieldSet)
    requires PackItems(fieldsById, ids, items).Ok? && ItemsRecoverable(fieldsById, ids, items)
    requires CutInside(short, offset, PackItems(fieldsById, ids, items).value)
    ensures var read := UnpackItems(fieldsById, ids, |items|, short, offset, kept);
            read.ItemsStop? && read.step.Soft? && read.step.fields == kept && read.step.failure == Truncated
  {
    hide UnpackItem, PackItem, ItemsRecoverable;
    if items != [] {
      var head := PackItem(fieldsById, ids, items[0]).value;
      var tail := PackItems(fieldsById, ids, items[1..]).value;
      CutSplit(short, offset, head, tail);
      ItemsRecoverableSplit(fieldsById, ids, items);
      if CutInside(short, offset, head) {
        ItemTruncated(fieldsById, ids, items[0], short, offset, map[], kept);
      } else {
        ItemRoundTrip(fieldsById, ids, items[0], short, offset, map[], kept);
        ItemsTruncated(fieldsById, ids, items[1..], short, offset + |head|, kept);
      }
    }
  }

  /** The fields a group cut inside its wire form leaves behind: possibly its count. */
  function CountedOnly(ctx: Context, use: Use, fields: FieldSet, got: FieldSet): FieldSet
    requires use.GroupUse? && use.id in fields && fields[use.id].Items? && use.countFieldId in ctx.fieldsById
  {
    got[use.countFieldId := CountText(ctx.fieldsById[use.countFieldId], |fields[use.id].items|)]
  }

  lemma GroupTruncated(ctx: Context, use: Use, fields: FieldSet, short: Bytes, offset: nat, got: FieldSet)
    requires use.GroupUse? && use.id in fields && PackGroup(ctx, use, fields).Ok?
    requires UseRecoverable(ctx, use, fields)
    requires CutInside(short, offset, PackGroup(ctx, use, fields).value)
    ensures fields[use.id].Items? && use.countFieldId in ctx.fieldsById
    ensures var step := UnpackGroup(ctx, use, short, offset, got);
            && step.Soft? && step.failure == Truncated
            && (step.fields == got || step.fields == CountedOnly(ctx, use, fields, got))
  {
    hide UnpackField, PackField, Recoverable, CountRecoverable, ItemsRecoverable, PackItems, UnpackItems;
    var count, items, fill := GroupParts(ctx, use, fields);
    var value := fields[use.id].items;
    var field := ctx.fieldsById[use.countFieldId];
    CutSplit(short, offset, count, items + fill);
    if CutInside(short, offset, count) {
      CountTruncation(field, |value|, |short| - offset);
    } else {
      assert short[offset..] == count + short[offset + |count|..];
      CountRoundTrip(field, |value|, short[offset + |count|..]);
      CutSplit(short, offset + |count|, items, fill);
      var withCount := CountedOnly(ctx, use, fields, got);
      if CutInside(short, offset + |count|, items) {
        ItemsTruncated(ctx.fieldsById, use.itemFieldIds, value, short, offset + |count|, withCount);
      } else {
        ItemsRoundTrip(ctx.fieldsById, use.itemFieldIds, value, short, offset + |count|, withCount);
      }
    }
  }

  lemma UseTruncated(ctx: Context, use: Use, fields: FieldSet, short: Bytes, offset: nat, got: FieldSet)
    requires PackUse(ctx, use, fields).Ok? && !use.IsTrailing()
    requires Contributes(use, fields) && UseRecoverable(ctx, use, fields) && DistinctKeys([use])
    requires got.Keys !! Keys(use)
    requires CutInside(short, offset, PackUse(ctx, use, fields).value)
    ensures var step := UnpackUse(ctx, use, short, offset, got);
            step.Soft? && step.failure == Truncated && SubMap(step.fields, DecodedUse(ctx, use, fields, got))
  {
    hide UnpackField, PackField, Recoverable, CountRecoverable, ItemsRecoverable, UnpackGroup, PackGroup, UnpackScalar;
    if use.GroupUse? {
      GroupTruncated(ctx, use, fields, short, offset, got);
      assert [use][0] == use;
    } else {
      ScalarTruncated(ctx.fieldsById[use.fieldId], use.fieldId, fields[use.fieldId], short, offset, got, got);
    }
  }

  lemma {:induction false} UsesTruncated(
    ctx: Context, uses: seq<Use>, fields: FieldSet, short: Bytes, offset: nat, got: FieldSet)
    requires PackUses(ctx, uses, fields).Ok? && WellFormed(ctx, uses, fields) && DistinctKeys(uses)
    requires forall k :: 0 <= k < |uses| ==> !uses[k].IsTrailing()
    requires got.Keys !! AllKeys(uses)
    requires CutInside(short, offset, PackUses(ctx, uses, fields).value)
    ensures var step := UnpackUses(ctx, uses, short, offset, got);
            step.Soft? && step.failure == Truncated && SubMap(step.fields, Decoded(ctx, uses, fields, got))
    decreases |uses|
  {
    hide PackUse, UnpackUse, UseRecoverable, DecodedUse, DistinctKeys, AllKeys, WrittenKeys, Keys, Contributes;
    if uses != [] {
      var head := PackUse(ctx, uses[0], fields).value;
      var tail := PackUses(ctx, uses[1..], fields).value;
      CutSplit(short, offset, head, tail);
      KeysSplit(uses, fields);
      DecodedUseEffect(ctx, uses[0], fields, got);
      WrittenAreKeys(uses[0], fields);
      var next := DecodedUse(ctx, uses[0], fields, got);
      DecodedKeeps(ctx, uses[1..], fields, next);
      if CutInside(short, offset, head) {
        if !Contributes(uses[0], fields) {
          SilentUse(ctx, uses[0], fields);
          assert false;
        }
        UseTruncated(ctx, uses[0], fields, short, offset, got);
      } else {
        UseRoundTrip(ctx, uses[0], fields, short, offset, got);
        UsesTruncated(ctx, uses[1..], fields, short, offset + |head|, next);
      }
    }
  }

  lemma SilentUse(ctx: Context, use: Use, fields: FieldSet)
    requires PackUse(ctx, use, fields).Ok? && !Contributes(use, fields)
    ensures PackUse(ctx, use, fields).value == []
  {
  }

  /**
    Main result: a strict prefix of a packed message without optional-trailing uses never decodes
    completely. It fails, or where partial results are allowed yields one whose fields all agree
    with the whole message.
   */
  lemma TruncatedMessage(ctx: Context, fields: FieldSet, k: nat, allowPartial: bool)
    requires PackMessage(ctx, fields).Ok? && WellFormed(ctx, ctx.uses, fields) && DistinctKeys(ctx.uses)
    requires forall i :: 0 <= i < |ctx.uses| ==> !ctx.uses[i].IsTrailing()
    requires k < |PackMessage(ctx, fields).value|
    ensures var whole := PackMessage(ctx, fields).value;
            var full := UnpackMessage(ctx, whole, allowPartial);
            var outcome := UnpackMessage(ctx, whole[..k], allowPartial);
            && full.Complete?
            && (!allowPartial ==> outcome == Failed(Truncated))
            && (allowPartial ==>
                  && outcome.Partial? && outcome.failure == Truncated
                  && outcome.consumedBytes <= outcome.receivedBytes == k
                  && SubMap(outcome.fields, full.fields))
  {
    var whole := PackMessage(ctx, fields).value;
    assert whole[..k][0..] == whole[..k];
    UsesTruncated(ctx, ctx.uses, fields, whole[..k], 0, map[]);
    MessageRoundTrip(ctx, fields, allowPartial);
  }

  // ----- What the domain shuts out -----

  /** A complete decode holds every scalar that is neither forbidden nor optional-trailing. */
  lemma {:induction false} CompleteHasPlainScalars(
    ctx: Context, uses: seq<Use>, bytes: Bytes, offset: nat, got: FieldSet, k: nat)
    requires offset <= |bytes| && k < |uses| && UnpackUses(ctx, uses, bytes, offset, got).Next?
    requires uses[k].ScalarUse? && !uses[k].IsForbidden() && !uses[k].IsTrailing()
    ensures uses[k].fieldId in UnpackUses(ctx, uses, bytes, offset, got).fields
    decreases |uses|
  {
    hide UnpackField, UnpackGroup;
    var step := UnpackUse(ctx, uses[0], bytes, offset, got);
    if k > 0 {
      CompleteHasPlainScalars(ctx, uses[1..], bytes, step.offset, step.fields, k - 1);
    } else {
      KeysStay(ctx, uses[1..], bytes, step.offset, step.fields, uses[0].fieldId);
    }
  }

  lemma ItemsStay(ctx: Context, use: Use, bytes: Bytes, offset: nat, got: FieldSet, key: string)
    requires offset <= |bytes| && key in got && UnpackUse(ctx, use, bytes, offset, got).Next?
    ensures key in UnpackUse(ctx, use, bytes, offset, got).fields
  {
    hide UnpackField, UnpackItems;
  }

  lemma {:induction false} KeysStay(ctx: Context, uses: seq<Use>, bytes: Bytes, offset: nat, got: FieldSet, key: string)
    requires offset <= |bytes| && key in got && UnpackUses(ctx, uses, bytes, offset, got).Next?
    ensures key in UnpackUses(ctx, uses, bytes, offset, got).fields
    decreases |uses|
  {
    hide UnpackUse;
    if uses != [] {
      ItemsStay(ctx, uses[0], bytes, offset, got, key);
      var step := UnpackUse(ctx, uses[0], bytes, offset, got);
      KeysStay(ctx, uses[1..], bytes, step.offset, step.fields, key);
    }
  }

  /**
    An absent scalar that is merely optional makes every round trip fail: packing skips it, but the
    decoder always reads it, so the result never holds exactly the packed fields.
   */
  lemma AbsentOptionalIsNeverRestored(ctx: Context, fields: FieldSet, k: nat, allowPartial: bool)
    requires PackMessage(ctx, fields).Ok? && DistinctKeys(ctx.uses) && k < |ctx.uses|
    requires ctx.uses[k].ScalarUse? && ctx.uses[k].presence == Some(Optional) && ctx.uses[k].fieldId !in fields
    ensures var outcome := UnpackMessage(ctx, PackMessage(ctx, fields).value, allowPartial);
            !(outcome.Complete? && outcome.fields.Keys == WrittenKeys(ctx.uses, fields))
  {
    var bytes := PackMessage(ctx, fields).value;
    var outcome := UnpackMessage(ctx, bytes, allowPartial);
    if outcome.Complete? {
      CompleteHasPlainScalars(ctx, ctx.uses, bytes, 0, map[], k);
      var key := ctx.uses[k].fieldId;
      forall j | 0 <= j < |ctx.uses| && Contributes(ctx.uses[j], fields)
        ensures key !in Keys(ctx.uses[j])
      {
        assert key in Keys(ctx.uses[k]);
        if j < k {
          assert Keys(ctx.uses[j]) !! Keys(ctx.uses[k]);
        } else if k < j {
          assert Keys(ctx.uses[k]) !! Keys(ctx.uses[j]);
        }
      }
      assert key !in WrittenKeys(ctx.uses, fields);
    }
  }
}
