/**
 * When bytes are a message, and of which fields. A relation says how the fields of a message lie in its bytes, one
 * after another; the decoder answers completely exactly when it holds, and a partial result holds what lies before
 * the failure.
 */
module MessageReading {
  import opened Prelude
  import opened ByteText
  import opened FieldCodecs
  import opened FieldWire
  import opened FixedField
  import opened FixedFieldRoundTrip
  import ExactMessages

  // ----- How fields lie in bytes -----

  /** The bytes from one place to another are read as the value. */
  predicate FieldAt(fieldsById: map<string, Field>, id: string, bytes: Bytes, from: nat, to: nat, fields: FieldSet) {
    && from <= to <= |bytes| && id in fieldsById && id in fields
    && UnpackField(fieldsById[id], bytes[from..]) == FieldRead(Ok(fields[id]), to - from)
  }

  /** The fields of one item lie one after another. */
  predicate ItemAt(
    fieldsById: map<string, Field>, ids: seq<string>, bytes: Bytes, from: nat, to: nat, item: FieldSet)
    decreases |ids|
  {
    if ids == [] then from == to
    else exists mid: nat | mid <= |bytes| ::
      FieldAt(fieldsById, ids[0], bytes, from, mid, item) && ItemAt(fieldsById, ids[1..], bytes, mid, to, item)
  }

  predicate ItemsAt(
    fieldsById: map<string, Field>, ids: seq<string>, bytes: Bytes, from: nat, to: nat, items: seq<FieldSet>)
    decreases |items|
  {
    if items == [] then from == to
    else exists mid: nat | mid <= |bytes| ::
      && ItemAt(fieldsById, ids, bytes, from, mid, items[0]) && items[0].Keys == Set(ids)
      && ItemsAt(fieldsById, ids, bytes, mid, to, items[1..])
  }

  function Set(ids: seq<string>): set<string> {
    set id | id in ids
  }

  /** A group: its count, then as many items, within both limits and within a fixed area, which the group fills. */
  predicate GroupAt(ctx: Context, use: Use, bytes: Bytes, from: nat, to: nat, fields: FieldSet)
    requires use.GroupUse?
  {
    && use.countFieldId in fields && use.id in fields && fields[use.id].Items?
    && var items := fields[use.id].items;
    && |items| <= use.maxItems && |items| <= ctx.maxRepeatItems
    && fields[use.countFieldId].Text?
    && var count := fields[use.countFieldId].text;
    && IsNumeral(count) && ParseDecimal(count) == |items|
    && exists mid: nat, end: nat | mid <= |bytes| && end <= |bytes| ::
         && FieldAt(ctx.fieldsById, use.countFieldId, bytes, from, mid, fields)
         && ItemsAt(ctx.fieldsById, use.itemFieldIds, bytes, mid, end, items)
         && end <= to <= |bytes| && to == if use.fixedArea.Some? then mid + use.fixedArea.value else end
  }

  /** A use that is forbidden, or optional at the tail of a message that ends before it, has no bytes and no value. */
  predicate UseAt(ctx: Context, use: Use, bytes: Bytes, from: nat, to: nat, fields: FieldSet) {
    if use.IsForbidden() || (use.IsTrailing() && from == |bytes|) then from == to && Keys(use) !! fields.Keys
    else if use.ScalarUse? then FieldAt(ctx.fieldsById, use.fieldId, bytes, from, to, fields)
    else GroupAt(ctx, use, bytes, from, to, fields)
  }

  predicate UsesAt(ctx: Context, uses: seq<Use>, bytes: Bytes, from: nat, to: nat, fields: FieldSet)
    decreases |uses|
  {
    if uses == [] then from == to
    else exists mid: nat | mid <= |bytes| ::
      UseAt(ctx, uses[0], bytes, from, mid, fields) && UsesAt(ctx, uses[1..], bytes, mid, to, fields)
  }

  // ----- What the decoder accepts lies in the bytes -----

  /** A part of a field set. */
  function Part(fields: FieldSet, keys: set<string>): (part: FieldSet)
    ensures part.Keys == fields.Keys * keys
  {
    map key | key in fields && key in keys :: fields[key]
  }

  lemma {:induction false} ItemIsAt(
    fieldsById: map<string, Field>, ids: seq<string>, bytes: Bytes, from: nat, got: FieldSet, kept: FieldSet)
    requires ExactMessages.Distinct(ids) && from <= |bytes| && UnpackItem(fieldsById, ids, bytes, from, got, kept).Next?
    ensures
      var step := UnpackItem(fieldsById, ids, bytes, from, got, kept);
      && ItemAt(fieldsById, ids, bytes, from, step.offset, step.fields)
      && step.fields.Keys == got.Keys + Set(ids)
      && forall key | key in got && key !in ids :: step.fields[key] == got[key]
    decreases |ids|
  {
    hide UnpackField;
    if ids != [] {
      var step := UnpackScalar(fieldsById[ids[0]], ids[0], bytes, from, got, kept);
      assert ids == [ids[0]] + ids[1..];
      ItemIsAt(fieldsById, ids[1..], bytes, step.offset, step.fields, kept);
      var last := UnpackItem(fieldsById, ids, bytes, from, got, kept);
      assert FieldAt(fieldsById, ids[0], bytes, from, step.offset, last.fields);
    }
  }

  lemma {:induction false} ItemsAreAt(
    fieldsById: map<string, Field>, ids: seq<string>, n: nat, bytes: Bytes, from: nat, kept: FieldSet)
    requires ExactMessages.Distinct(ids) && from <= |bytes|
    requires UnpackItems(fieldsById, ids, n, bytes, from, kept).ItemsRead?
    ensures
      var read := UnpackItems(fieldsById, ids, n, bytes, from, kept);
      ItemsAt(fieldsById, ids, bytes, from, read.offset, read.items)
    decreases n
  {
    hide UnpackItem, ItemAt;
    if n > 0 {
      ItemIsAt(fieldsById, ids, bytes, from, map[], kept);
      var step := UnpackItem(fieldsById, ids, bytes, from, map[], kept);
      ItemsAreAt(fieldsById, ids, n - 1, bytes, step.offset, kept);
      var items := UnpackItems(fieldsById, ids, n, bytes, from, kept).items;
      assert items[0] == step.fields && items[0].Keys == Set(ids);
      assert items[1..] == UnpackItems(fieldsById, ids, n - 1, bytes, step.offset, kept).items;
    }
  }

  // ----- What lies in the bytes the decoder accepts -----

  lemma PartNothing(item: FieldSet, got: FieldSet)
    ensures got + Part(item, Set([])) == got
  {
  }

  lemma PartWhole(item: FieldSet, keys: set<string>)
    requires item.Keys <= keys
    ensures map[] + Part(item, keys) == item
  {
  }

  lemma PartFirst(item: FieldSet, ids: seq<string>, got: FieldSet)
    requires ids != [] && ids[0] in item
    ensures got[ids[0] := item[ids[0]]] + Part(item, Set(ids[1..])) == got + Part(item, Set(ids))
  {
    assert ids == [ids[0]] + ids[1..];
  }

  lemma {:induction false} ItemIsRead(
    fieldsById: map<string, Field>, ids: seq<string>, bytes: Bytes, from: nat, to: nat, item: FieldSet,
    got: FieldSet, kept: FieldSet)
    requires from <= |bytes| && ItemAt(fieldsById, ids, bytes, from, to, item)
    ensures UnpackItem(fieldsById, ids, bytes, from, got, kept) == Next(got + Part(item, Set(ids)), to)
    decreases |ids|
  {
    hide UnpackField, Part, Set;
    if ids == [] {
      PartNothing(item, got);
    } else {
      var mid: nat :| mid <= |bytes| && FieldAt(fieldsById, ids[0], bytes, from, mid, item)
        && ItemAt(fieldsById, ids[1..], bytes, mid, to, item);
      ItemIsRead(fieldsById, ids[1..], bytes, mid, to, item, got[ids[0] := item[ids[0]]], kept);
      PartFirst(item, ids, got);
    }
  }

  lemma {:induction false} ItemsAreRead(
    fieldsById: map<string, Field>, ids: seq<string>, bytes: Bytes, from: nat, to: nat, items: seq<FieldSet>,
    kept: FieldSet)
    requires from <= |bytes| && ItemsAt(fieldsById, ids, bytes, from, to, items)
    ensures UnpackItems(fieldsById, ids, |items|, bytes, from, kept) == ItemsRead(items, to)
    decreases |items|
  {
    hide UnpackItem, ItemAt, Part, Set;
    if items != [] {
      var mid: nat :| mid <= |bytes| && ItemAt(fieldsById, ids, bytes, from, mid, items[0])
        && ItemsAt(fieldsById, ids, bytes, mid, to, items[1..]);
      ItemIsRead(fieldsById, ids, bytes, from, mid, items[0], map[], kept);
      PartWhole(items[0], Set(ids));
      ItemsAreRead(fieldsById, ids, bytes, mid, to, items[1..], kept);
      assert items == [items[0]] + items[1..];
    }
  }

  // ----- Groups and uses -----

  lemma AreaIsAt(ctx: Context, use: Use, n: nat, bytes: Bytes, mid: nat, fields: FieldSet) returns (end: nat)
    requires use.GroupUse? && mid <= |bytes| && ExactMessages.Distinct(use.itemFieldIds)
    requires UnpackGroupBody(ctx, use, n, bytes, mid, fields).Next?
    ensures
      var step := UnpackGroupBody(ctx, use, n, bytes, mid, fields);
      && use.id in step.fields && step.fields[use.id].Items? && |step.fields[use.id].items| == n
      && step.fields == fields[use.id := step.fields[use.id]]
      && ItemsAt(ctx.fieldsById, use.itemFieldIds, bytes, mid, end, step.fields[use.id].items)
      && mid <= end <= step.offset
      && step.offset == if use.fixedArea.Some? then mid + use.fixedArea.value else end
  {
    hide UnpackItems, ItemsAt;
    ItemsAreAt(ctx.fieldsById, use.itemFieldIds, n, bytes, mid, fields);
    end := UnpackItems(ctx.fieldsById, use.itemFieldIds, n, bytes, mid, fields).offset;
  }

  /** A group that was read lies in its bytes. */
  lemma GroupIsAt(ctx: Context, use: Use, bytes: Bytes, from: nat, got: FieldSet)
    requires use.GroupUse? && from <= |bytes| && UnpackGroup(ctx, use, bytes, from, got).Next?
    requires ExactMessages.Distinct(use.itemFieldIds) && use.countFieldId != use.id
    ensures
      var step := UnpackGroup(ctx, use, bytes, from, got);
      && GroupAt(ctx, use, bytes, from, step.offset, step.fields)
      && Agree(got, step.fields, use) && step.fields.Keys == got.Keys + Keys(use)
  {
    hide UnpackField, UnpackGroupBody, ItemsAt, ParseDecimal;
    var count := UnpackField(ctx.fieldsById[use.countFieldId], bytes[from..]);
    var mid := from + count.consumed;
    var text := count.result.value.text;
    var withCount := got[use.countFieldId := count.result.value];
    var end := AreaIsAt(ctx, use, ParseDecimal(text), bytes, mid, withCount);
    var fields := UnpackGroup(ctx, use, bytes, from, got).fields;
    assert FieldAt(ctx.fieldsById, use.countFieldId, bytes, from, mid, fields);
  }

  /** Nothing but the keys of the use differs. */
  ghost predicate Agree(a: FieldSet, b: FieldSet, use: Use) {
    forall key | key !in Keys(use) :: (key in a <==> key in b) && (key in a ==> a[key] == b[key])
  }

  lemma UseIsAt(ctx: Context, use: Use, bytes: Bytes, from: nat, got: FieldSet)
    requires from <= |bytes| && UnpackUse(ctx, use, bytes, from, got).Next? && SoundUse(use)
    requires got.Keys !! Keys(use)
    ensures
      var step := UnpackUse(ctx, use, bytes, from, got);
      && UseAt(ctx, use, bytes, from, step.offset, step.fields)
      && Agree(got, step.fields, use) && step.fields.Keys <= got.Keys + Keys(use)
  {
    hide UnpackField, UnpackGroup, GroupAt;
    if use.GroupUse? && !(use.IsTrailing() && from == |bytes|) {
      GroupIsAt(ctx, use, bytes, from, got);
    }
  }

  /** A group's two keys, and the fields of its items, differ. */
  predicate SoundUse(use: Use) {
    use.GroupUse? ==> ExactMessages.Distinct(use.itemFieldIds) && use.countFieldId != use.id
  }

  predicate SoundUses(uses: seq<Use>) {
    DistinctKeys(uses) && forall k | 0 <= k < |uses| :: SoundUse(uses[k])
  }

  /** Where a use lies depends on its own keys only. */
  lemma UseStaysAt(ctx: Context, use: Use, bytes: Bytes, from: nat, to: nat, a: FieldSet, b: FieldSet)
    requires UseAt(ctx, use, bytes, from, to, a)
    requires forall key | key in Keys(use) :: (key in a <==> key in b) && (key in a ==> a[key] == b[key])
    ensures UseAt(ctx, use, bytes, from, to, b)
  {
    hide UnpackField, ItemsAt, ParseDecimal;
    if use.GroupUse? && !(use.IsTrailing() && from == |bytes|) {
      assert use.id in Keys(use) && use.countFieldId in Keys(use);
      var mid: nat, end: nat :| mid <= |bytes| && end <= |bytes|
        && FieldAt(ctx.fieldsById, use.countFieldId, bytes, from, mid, a)
        && ItemsAt(ctx.fieldsById, use.itemFieldIds, bytes, mid, end, a[use.id].items)
        && end <= to <= |bytes| && to == if use.fixedArea.Some? then mid + use.fixedArea.value else end;
      assert FieldAt(ctx.fieldsById, use.countFieldId, bytes, from, mid, b);
    } else if use.ScalarUse? {
      assert use.fieldId in Keys(use);
    }
  }

  lemma LaterUses(uses: seq<Use>)
    requires uses != [] && SoundUses(uses)
    ensures SoundUse(uses[0]) && SoundUses(uses[1..]) && Keys(uses[0]) !! AllKeys(uses[1..])
    ensures AllKeys(uses) == Keys(uses[0]) + AllKeys(uses[1..])
  {
    hide Keys;
    var rest := uses[1..];
    assert forall k | 0 <= k < |rest| :: rest[k] == uses[k + 1];
    forall key | key in AllKeys(uses)
      ensures key in Keys(uses[0]) + AllKeys(rest)
    {
      var k :| 0 <= k < |uses| && key in Keys(uses[k]);
      assert k > 0 ==> rest[k - 1] == uses[k];
    }
    forall key | key in AllKeys(rest)
      ensures key in AllKeys(uses) && key !in Keys(uses[0])
    {
      var k :| 0 <= k < |rest| && key in Keys(rest[k]);
      assert rest[k] == uses[k + 1];
    }
  }

  lemma GroupIsRead(ctx: Context, use: Use, bytes: Bytes, from: nat, to: nat, fields: FieldSet, got: FieldSet)
    requires use.GroupUse? && from <= |bytes| && GroupAt(ctx, use, bytes, from, to, fields)
    requires use.countFieldId != use.id
    ensures UnpackGroup(ctx, use, bytes, from, got) == Next(got + Part(fields, Keys(use)), to)
  {
    hide UnpackField, UnpackItems, ItemsAt, ParseDecimal;
    var items := fields[use.id].items;
    var mid: nat, end: nat :| mid <= |bytes| && end <= |bytes|
      && FieldAt(ctx.fieldsById, use.countFieldId, bytes, from, mid, fields)
      && ItemsAt(ctx.fieldsById, use.itemFieldIds, bytes, mid, end, items)
      && end <= to <= |bytes| && to == if use.fixedArea.Some? then mid + use.fixedArea.value else end;
    var withCount := got[use.countFieldId := fields[use.countFieldId]];
    ItemsAreRead(ctx.fieldsById, use.itemFieldIds, bytes, mid, end, items, withCount);
    assert withCount[use.id := Items(items)] == got + Part(fields, Keys(use));
  }

  lemma UseIsRead(ctx: Context, use: Use, bytes: Bytes, from: nat, to: nat, fields: FieldSet, got: FieldSet)
    requires from <= |bytes| && UseAt(ctx, use, bytes, from, to, fields) && SoundUse(use)
    ensures UnpackUse(ctx, use, bytes, from, got) == Next(got + Part(fields, Keys(use)), to)
  {
    hide UnpackField, UnpackGroup, GroupAt;
    if use.IsForbidden() || (use.IsTrailing() && from == |bytes|) {
      assert got + Part(fields, Keys(use)) == got;
    } else if use.GroupUse? {
      GroupIsRead(ctx, use, bytes, from, to, fields, got);
    } else {
      assert got + Part(fields, Keys(use)) == got[use.fieldId := fields[use.fieldId]];
    }
  }

  // ----- Messages -----

  lemma {:induction false} UsesAreAt(ctx: Context, uses: seq<Use>, bytes: Bytes, from: nat, got: FieldSet)
    requires from <= |bytes| && UnpackUses(ctx, uses, bytes, from, got).Next? && SoundUses(uses)
    requires got.Keys !! AllKeys(uses)
    ensures
      var step := UnpackUses(ctx, uses, bytes, from, got);
      UsesAt(ctx, uses, bytes, from, step.offset, step.fields) && step.fields.Keys <= got.Keys + AllKeys(uses)
    decreases |uses|
  {
    hide UnpackUse, UseAt, Keys, SoundUse, SoundUses, AllKeys;
    if uses != [] {
      LaterUses(uses);
      UseIsAt(ctx, uses[0], bytes, from, got);
      var step := UnpackUse(ctx, uses[0], bytes, from, got);
      UsesAreAt(ctx, uses[1..], bytes, step.offset, step.fields);
      var last := UnpackUses(ctx, uses, bytes, from, got);
      forall key | key in Keys(uses[0])
        ensures (key in step.fields <==> key in last.fields)
        ensures key in step.fields ==> step.fields[key] == last.fields[key]
      {
        ExactMessages.UsesKeep(ctx, uses[1..], bytes, step.offset, step.fields, key);
      }
      UseStaysAt(ctx, uses[0], bytes, from, step.offset, step.fields, last.fields);
    }
  }

  lemma {:induction false} UsesAreRead(
    ctx: Context, uses: seq<Use>, bytes: Bytes, from: nat, to: nat, fields: FieldSet, got: FieldSet)
    requires from <= |bytes| && UsesAt(ctx, uses, bytes, from, to, fields) && SoundUses(uses)
    ensures UnpackUses(ctx, uses, bytes, from, got) == Next(got + Part(fields, AllKeys(uses)), to)
    decreases |uses|
  {
    hide UnpackUse, UseAt, Keys, SoundUse, SoundUses, AllKeys, Part;
    if uses == [] {
      PartNone(fields, got);
    } else {
      LaterUses(uses);
      var mid: nat :| mid <= |bytes| && UseAt(ctx, uses[0], bytes, from, mid, fields)
        && UsesAt(ctx, uses[1..], bytes, mid, to, fields);
      UseIsRead(ctx, uses[0], bytes, from, mid, fields, got);
      UsesAreRead(ctx, uses[1..], bytes, mid, to, fields, got + Part(fields, Keys(uses[0])));
      PartSum(fields, Keys(uses[0]), AllKeys(uses[1..]), got);
    }
  }

  lemma PartNone(fields: FieldSet, got: FieldSet)
    ensures got + Part(fields, AllKeys([])) == got
  {
  }

  lemma PartSum(fields: FieldSet, a: set<string>, b: set<string>, got: FieldSet)
    ensures got + Part(fields, a) + Part(fields, b) == got + Part(fields, a + b)
  {
  }

  /**
   * Bytes decode completely to some fields exactly when the fields lie in them one after another, up to the last byte,
   * with every count and limit kept, and nothing else is in the result.
   */
  lemma CompleteIff(ctx: Context, bytes: Bytes, allowPartial: bool, fields: FieldSet)
    requires SoundUses(ctx.uses)
    ensures UnpackMessage(ctx, bytes, allowPartial) == Complete(fields) <==>
            UsesAt(ctx, ctx.uses, bytes, 0, |bytes|, fields) && fields.Keys <= AllKeys(ctx.uses)
  {
    hide UnpackUses, UsesAt, SoundUses, AllKeys;
    var step := UnpackUses(ctx, ctx.uses, bytes, 0, map[]);
    if step.Next? {
      UsesAreAt(ctx, ctx.uses, bytes, 0, map[]);
    }
    if UsesAt(ctx, ctx.uses, bytes, 0, |bytes|, fields) {
      UsesAreRead(ctx, ctx.uses, bytes, 0, |bytes|, fields, map[]);
      if fields.Keys <= AllKeys(ctx.uses) {
        PartWhole(fields, AllKeys(ctx.uses));
      }
    }
  }

  // ----- Partial results -----

  /** What a group keeps when it fails: nothing, or its count. */
  lemma GroupFails(ctx: Context, use: Use, bytes: Bytes, from: nat, got: FieldSet)
    requires use.GroupUse? && from <= |bytes| && UnpackGroup(ctx, use, bytes, from, got).Soft?
    ensures
      var kept := UnpackGroup(ctx, use, bytes, from, got).fields;
      kept == got || (use.countFieldId in kept && kept == got[use.countFieldId := kept[use.countFieldId]])
  {
    hide UnpackField, ParseDecimal;
    if use.countFieldId in ctx.fieldsById {
      var count := UnpackField(ctx.fieldsById[use.countFieldId], bytes[from..]);
      if count.result.Ok? && count.result.value.Text? && IsNumeral(count.result.value.text) {
        ItemsFail(ctx.fieldsById, use.itemFieldIds, ParseDecimal(count.result.value.text), bytes,
          from + count.consumed, got[use.countFieldId := count.result.value]);
      }
    }
  }

  lemma {:induction false} ItemFails(
    fieldsById: map<string, Field>, ids: seq<string>, bytes: Bytes, from: nat, got: FieldSet, kept: FieldSet)
    requires from <= |bytes|
    ensures
      var step := UnpackItem(fieldsById, ids, bytes, from, got, kept);
      (step.Soft? ==> step.fields == kept) && (step.Hard? ==> step.failure == ProfileInvalid)
    decreases |ids|
  {
    hide UnpackField;
    if ids != [] && ids[0] in fieldsById {
      var step := UnpackScalar(fieldsById[ids[0]], ids[0], bytes, from, got, kept);
      if step.Next? {
        ItemFails(fieldsById, ids[1..], bytes, step.offset, step.fields, kept);
      }
    }
  }

  lemma {:induction false} ItemsFail(
    fieldsById: map<string, Field>, ids: seq<string>, n: nat, bytes: Bytes, from: nat, kept: FieldSet)
    requires from <= |bytes|
    ensures
      var read := UnpackItems(fieldsById, ids, n, bytes, from, kept);
      read.ItemsStop? ==>
        (read.step.Soft? ==> read.step.fields == kept) && (read.step.Hard? ==> read.step.failure == ProfileInvalid)
    decreases n
  {
    hide UnpackItem;
    if n > 0 {
      ItemFails(fieldsById, ids, bytes, from, map[], kept);
      var step := UnpackItem(fieldsById, ids, bytes, from, map[], kept);
      if step.Next? {
        ItemsFail(fieldsById, ids, n - 1, bytes, step.offset, kept);
      }
    }
  }

  /** The use at which decoding stops, and what is known of its failure. */
  predicate FailsAt(ctx: Context, use: Use, bytes: Bytes, at: nat, end: nat, fields: FieldSet, failure: Failure) {
    && at <= end <= |bytes| && !use.IsForbidden() && !(use.IsTrailing() && at == |bytes|)
    && (use.ScalarUse? ==>
          && use.fieldId in ctx.fieldsById
          && UnpackField(ctx.fieldsById[use.fieldId], bytes[at..]) == FieldRead(Err(failure), end - at))
  }

  /** The uses before the failing one lie in the bytes with the values of the result, which holds no more. */
  lemma {:induction false} StopIsAt(ctx: Context, uses: seq<Use>, bytes: Bytes, from: nat, got: FieldSet)
    returns (m: nat, at: nat)
    requires from <= |bytes| && UnpackUses(ctx, uses, bytes, from, got).Soft? && SoundUses(uses)
    requires got.Keys !! AllKeys(uses)
    ensures
      var step := UnpackUses(ctx, uses, bytes, from, got);
      && m < |uses| && UsesAt(ctx, uses[..m], bytes, from, at, step.fields)
      && FailsAt(ctx, uses[m], bytes, at, step.offset, step.fields, step.failure)
      && step.fields.Keys <= got.Keys + AllKeys(uses[..m]) + (if uses[m].GroupUse? then {uses[m].countFieldId} else {})
      && (forall key | key in got :: key in step.fields && step.fields[key] == got[key])
    decreases |uses|
  {
    hide UnpackUse, UseAt, Keys, SoundUse, SoundUses, AllKeys, FailsAt;
    LaterUses(uses);
    var step := UnpackUse(ctx, uses[0], bytes, from, got);
    var last := UnpackUses(ctx, uses, bytes, from, got);
    if step.Soft? {
      m, at := 0, from;
      UseFails(ctx, uses[0], bytes, from, got);
    } else {
      UseIsAt(ctx, uses[0], bytes, from, got);
      m, at := StopIsAt(ctx, uses[1..], bytes, step.offset, step.fields);
      m := m + 1;
      FirstUses(uses, m);
      UseBefore(ctx, uses, m, bytes, from, got, step, last);
    }
  }

  lemma UseFails(ctx: Context, use: Use, bytes: Bytes, from: nat, got: FieldSet)
    requires from <= |bytes| && UnpackUse(ctx, use, bytes, from, got).Soft? && got.Keys !! Keys(use)
    ensures
      var step := UnpackUse(ctx, use, bytes, from, got);
      && FailsAt(ctx, use, bytes, from, step.offset, step.fields, step.failure)
      && step.fields.Keys <= got.Keys + (if use.GroupUse? then {use.countFieldId} else {})
      && (forall key | key in got :: key in step.fields && step.fields[key] == got[key])
  {
    hide UnpackField, UnpackGroup;
    if use.GroupUse? {
      GroupFails(ctx, use, bytes, from, got);
    }
  }

  lemma FirstUses(uses: seq<Use>, m: nat)
    requires 0 < m <= |uses|
    ensures uses[..m][0] == uses[0] && uses[..m][1..] == uses[1..][..m - 1]
    ensures AllKeys(uses[..m]) == Keys(uses[0]) + AllKeys(uses[1..][..m - 1])
  {
    hide Keys;
    var some, rest := uses[..m], uses[1..][..m - 1];
    assert some[1..] == rest;
    assert forall k | 0 <= k < |rest| :: rest[k] == some[k + 1];
    forall key | key in AllKeys(some)
      ensures key in Keys(uses[0]) + AllKeys(rest)
    {
      var k :| 0 <= k < |some| && key in Keys(some[k]);
      assert k > 0 ==> rest[k - 1] == some[k];
    }
    assert some[0] == uses[0];
  }

  /** A use that was read stays where it is in the final result. */
  lemma UseBefore(ctx: Context, uses: seq<Use>, m: nat, bytes: Bytes, from: nat, got: FieldSet, step: Step, last: Step)
    requires 0 < m < |uses| && from <= |bytes| && SoundUses(uses) && got.Keys !! AllKeys(uses)
    requires step == UnpackUse(ctx, uses[0], bytes, from, got) && step.Next? && last.Soft?
    requires UseAt(ctx, uses[0], bytes, from, step.offset, step.fields)
    requires step.fields.Keys <= got.Keys + Keys(uses[0])
    requires forall key | key in step.fields :: key in last.fields && last.fields[key] == step.fields[key]
    requires last.fields.Keys <= step.fields.Keys + AllKeys(uses[1..][..m - 1])
               + (if uses[m].GroupUse? then {uses[m].countFieldId} else {})
    ensures UseAt(ctx, uses[0], bytes, from, step.offset, last.fields)
  {
    hide UseAt, UnpackUse, SoundUse;
    LaterUses(uses);
    assert uses[m] == uses[1..][m - 1];
    assert uses[m].GroupUse? ==> uses[m].countFieldId in Keys(uses[m]);
    forall key | key in Keys(uses[0])
      ensures key in last.fields ==> key in step.fields
    {
      assert key !in AllKeys(uses[1..]);
      assert key !in Keys(uses[1..][m - 1]);
      assert forall k | 0 <= k < m - 1 :: uses[1..][..m - 1][k] == uses[1..][k];
    }
    UseStaysAt(ctx, uses[0], bytes, from, step.offset, step.fields, last.fields);
  }

  /** The failures with which a decoder may hand out what it has: cut input, and values that are not acceptable. */
  const PARTIAL: set<Failure> := {Truncated, DecodeFailed, ValidationFailed, InvalidLengthPrefix}

  /** Failures of the profile and of group limits. */
  lemma UseFailsHard(ctx: Context, use: Use, bytes: Bytes, from: nat, got: FieldSet)
    requires from <= |bytes| && UnpackUse(ctx, use, bytes, from, got).Hard?
    ensures UnpackUse(ctx, use, bytes, from, got).failure in {ProfileInvalid, LimitExceeded}
  {
    hide UnpackField, UnpackItems, ParseDecimal;
    if use.GroupUse? && use.countFieldId in ctx.fieldsById {
      var count := UnpackField(ctx.fieldsById[use.countFieldId], bytes[from..]);
      if count.result.Ok? && count.result.value.Text? && IsNumeral(count.result.value.text) {
        ItemsFail(ctx.fieldsById, use.itemFieldIds, ParseDecimal(count.result.value.text), bytes,
          from + count.consumed, got[use.countFieldId := count.result.value]);
      }
    }
  }

  lemma {:induction false} UsesFailHard(ctx: Context, uses: seq<Use>, bytes: Bytes, from: nat, got: FieldSet)
    requires from <= |bytes| && UnpackUses(ctx, uses, bytes, from, got).Hard?
    ensures UnpackUses(ctx, uses, bytes, from, got).failure in {ProfileInvalid, LimitExceeded}
    decreases |uses|
  {
    hide UnpackUse;
    var step := UnpackUse(ctx, uses[0], bytes, from, got);
    if step.Next? {
      UsesFailHard(ctx, uses[1..], bytes, step.offset, step.fields);
    } else {
      UseFailsHard(ctx, uses[0], bytes, from, got);
    }
  }

  /** Allowing partial results changes exactly the answers that fail with one of those failures. */
  lemma PartialIff(ctx: Context, bytes: Bytes)
    ensures
      var strict, lenient := UnpackMessage(ctx, bytes, false), UnpackMessage(ctx, bytes, true);
      && !strict.Partial?
      && (lenient.Partial? <==> strict.Failed? && strict.failure in PARTIAL)
      && (lenient.Partial? ==> lenient.failure == strict.failure && lenient.receivedBytes == |bytes|)
      && (!lenient.Partial? ==> lenient == strict)
  {
    hide UnpackUses;
    if UnpackUses(ctx, ctx.uses, bytes, 0, map[]).Hard? {
      UsesFailHard(ctx, ctx.uses, bytes, 0, map[]);
    }
  }

  /**
   * A partial result holds the fields before the failing one, where they lie in the bytes, and nothing else but the
   * count of a group that failed in its items.
   */
  lemma PartialHolds(ctx: Context, bytes: Bytes) returns (m: nat, at: nat)
    requires SoundUses(ctx.uses) && UnpackMessage(ctx, bytes, true).Partial?
    ensures
      var partial := UnpackMessage(ctx, bytes, true);
      && m < |ctx.uses| && UsesAt(ctx, ctx.uses[..m], bytes, 0, at, partial.fields)
      && FailsAt(ctx, ctx.uses[m], bytes, at, partial.consumedBytes, partial.fields, partial.failure)
      && partial.fields.Keys <=
         AllKeys(ctx.uses[..m]) + (if ctx.uses[m].GroupUse? then {ctx.uses[m].countFieldId} else {})
  {
    hide UnpackUses, UsesAt, SoundUses, AllKeys, FailsAt;
    m, at := StopIsAt(ctx, ctx.uses, bytes, 0, map[]);
  }
}
