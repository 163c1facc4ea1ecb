/** The fixed-field message codec: packages/host-message/src/fixed-field-codec.ts. */
module FixedField {
  import opened Prelude
  import opened ByteText
  import opened FieldCodecs
  import opened FieldWire

  datatype Presence = Required | Optional | OptionalTrailing | Forbidden

  datatype Use =
    | ScalarUse(fieldId: string, presence: Option<Presence>)
    | GroupUse(
        id: string, countFieldId: string, itemFieldIds: seq<string>, maxItems: int,
        fixedArea: Option<int>, padByte: Option<Byte>, trailing: bool)
  {
    predicate IsForbidden() {
      ScalarUse? && presence == Some(Forbidden)
    }

    predicate IsTrailing() {
      if ScalarUse? then presence == Some(OptionalTrailing) else trailing
    }

    predicate MayBeAbsent() {
      ScalarUse? && (presence == Some(Optional) || presence == Some(OptionalTrailing))
    }

    function Key(): string {
      if ScalarUse? then fieldId else id
    }
  }

  /** A resolved message definition with the limits both directions apply. */
  datatype Context = Context(
    fieldsById: map<string, Field>, uses: seq<Use>,
    profileMaxBytes: int, serviceMaxBytes: int, maxRepeatItems: int)

  // ----- Packing -----

  function PackScalar(fieldsById: map<string, Field>, fieldId: string, value: Value): Result<Bytes, Failure> {
    if fieldId !in fieldsById then Err(ProfileInvalid) else PackField(fieldsById[fieldId], value)
  }

  function PackItem(fieldsById: map<string, Field>, ids: seq<string>, item: FieldSet): Result<Bytes, Failure> {
    if ids == [] then Ok([])
    else if ids[0] !in fieldsById || ids[0] !in item then Err(FieldMissing)
    else
      var head :- PackField(fieldsById[ids[0]], item[ids[0]]);
      var tail :- PackItem(fieldsById, ids[1..], item);
      Ok(head + tail)
  }

  function PackItems(fieldsById: map<string, Field>, ids: seq<string>, items: seq<FieldSet>): Result<Bytes, Failure> {
    if items == [] then Ok([])
    else
      var head :- PackItem(fieldsById, ids, items[0]);
      var tail :- PackItems(fieldsById, ids, items[1..]);
      Ok(head + tail)
  }

  /** The item area, filled up to its fixed size when it has one. */
  function PackArea(use: Use, items: Bytes): Result<Bytes, Failure>
    requires use.GroupUse?
  {
    if use.fixedArea.None? then Ok(items)
    else if |items| > use.fixedArea.value then Err(LimitExceeded)
    else Ok(items + Repeat(use.fixedArea.value - |items|, use.padByte.GetOr(0x20)))
  }

  function PackGroup(ctx: Context, use: Use, fields: FieldSet): Result<Bytes, Failure>
    requires use.GroupUse?
  {
    if use.id !in fields && use.trailing then Ok([])
    else if use.id !in fields || !fields[use.id].Items? then Err(ValidationFailed)
    else
      var items := fields[use.id].items;
      if |items| > use.maxItems || |items| > ctx.maxRepeatItems then Err(LimitExceeded)
      else if use.countFieldId !in ctx.fieldsById then Err(ProfileInvalid)
      else
        var count :- PackField(ctx.fieldsById[use.countFieldId], Text(ToDecimal(|items|)));
        var body :- PackItems(ctx.fieldsById, use.itemFieldIds, items);
        var area :- PackArea(use, body);
        Ok(count + area)
  }

  function PackUse(ctx: Context, use: Use, fields: FieldSet): Result<Bytes, Failure> {
    if use.GroupUse? then PackGroup(ctx, use, fields)
    else if use.IsForbidden() then Ok([])
    else if use.fieldId !in fields then (if use.MayBeAbsent() then Ok([]) else Err(FieldMissing))
    else PackScalar(ctx.fieldsById, use.fieldId, fields[use.fieldId])
  }

  function PackUses(ctx: Context, uses: seq<Use>, fields: FieldSet): Result<Bytes, Failure> {
    if uses == [] then Ok([])
    else
      var head :- PackUse(ctx, uses[0], fields);
      var tail :- PackUses(ctx, uses[1..], fields);
      Ok(head + tail)
  }

  function PackMessage(ctx: Context, fields: FieldSet): Result<Bytes, Failure> {
    var bytes :- PackUses(ctx, ctx.uses, fields);
    if |bytes| > ctx.profileMaxBytes || |bytes| > ctx.serviceMaxBytes then Err(LimitExceeded) else Ok(bytes)
  }

  // ----- Unpacking -----

  /** Progress of the decoder: on with the next use, a failure that may yield a partial result, or a hard one. */
  datatype Step =
    | Next(fields: FieldSet, offset: nat)
    | Soft(fields: FieldSet, failure: Failure, offset: nat)
    | Hard(failure: Failure)

  datatype Outcome =
    | Complete(fields: FieldSet)
    | Partial(fields: FieldSet, failure: Failure, consumedBytes: nat, receivedBytes: nat)
    | Failed(failure: Failure)

  /** One scalar, stored under `key`; the partial result of a failure is `kept`. */
  function UnpackScalar(
    field: Field, key: string, bytes: Bytes, offset: nat, fields: FieldSet, kept: FieldSet): (s: Step)
    requires offset <= |bytes|
    ensures s.Next? || s.Soft? ==> offset <= s.offset <= |bytes|
  {
    var read := UnpackField(field, bytes[offset..]);
    if read.result.Ok? then Next(fields[key := read.result.value], offset + read.consumed)
    else Soft(kept, read.result.error, offset + read.consumed)
  }

  /** One item: its fields in order, collected in `item`; failures report `kept`. */
  function UnpackItem(
    fieldsById: map<string, Field>, ids: seq<string>, bytes: Bytes, offset: nat, item: FieldSet,
    kept: FieldSet): (s: Step)
    requires offset <= |bytes|
    ensures s.Next? || s.Soft? ==> offset <= s.offset <= |bytes|
    decreases |ids|
  {
    if ids == [] then Next(item, offset)
    else if ids[0] !in fieldsById then Hard(ProfileInvalid)
    else
      var step := UnpackScalar(fieldsById[ids[0]], ids[0], bytes, offset, item, kept);
      if step.Next? then UnpackItem(fieldsById, ids[1..], bytes, step.offset, step.fields, kept) else step
  }

  datatype ItemsRead = ItemsRead(items: seq<FieldSet>, offset: nat) | ItemsStop(step: Step)

  function UnpackItems(
    fieldsById: map<string, Field>, ids: seq<string>, n: nat, bytes: Bytes, offset: nat, kept: FieldSet): (r: ItemsRead)
    requires offset <= |bytes|
    ensures r.ItemsRead? ==> offset <= r.offset <= |bytes| && |r.items| == n
    ensures r.ItemsStop? ==> !r.step.Next? && (r.step.Soft? ==> offset <= r.step.offset <= |bytes|)
    decreases n
  {
    if n == 0 then ItemsRead([], offset)
    else
      var step := UnpackItem(fieldsById, ids, bytes, offset, map[], kept);
      if !step.Next? then ItemsStop(step)
      else
        var rest := UnpackItems(fieldsById, ids, n - 1, bytes, step.offset, kept);
        if rest.ItemsRead? then ItemsRead([step.fields] + rest.items, rest.offset) else rest
  }

  /** Skips what is left of the fixed area, then stores the items. */
  function SkipArea(use: Use, bytes: Bytes, areaStart: nat, read: ItemsRead, fields: FieldSet): (s: Step)
    requires use.GroupUse? && read.ItemsRead? && areaStart <= read.offset <= |bytes|
    ensures s.Next? || s.Soft? ==> read.offset <= s.offset <= |bytes|
  {
    var padding := if use.fixedArea.Some? then use.fixedArea.value - (read.offset - areaStart) else 0;
    if padding < 0 then Hard(LimitExceeded)
    else if padding > |bytes| - read.offset then Soft(fields, Truncated, read.offset)
    else Next(fields[use.id := Items(read.items)], read.offset + padding)
  }

  /** Everything after the count field. */
  function UnpackGroupBody(ctx: Context, use: Use, n: nat, bytes: Bytes, offset: nat, fields: FieldSet): (s: Step)
    requires use.GroupUse? && offset <= |bytes|
    ensures s.Next? || s.Soft? ==> offset <= s.offset <= |bytes|
  {
    var read := UnpackItems(ctx.fieldsById, use.itemFieldIds, n, bytes, offset, fields);
    if read.ItemsStop? then read.step else SkipArea(use, bytes, offset, read, fields)
  }

  function UnpackGroup(ctx: Context, use: Use, bytes: Bytes, offset: nat, fields: FieldSet): (s: Step)
    requires use.GroupUse? && offset <= |bytes|
    ensures s.Next? || s.Soft? ==> offset <= s.offset <= |bytes|
  {
    if use.countFieldId !in ctx.fieldsById then Hard(ProfileInvalid)
    else
      var count := UnpackField(ctx.fieldsById[use.countFieldId], bytes[offset..]);
      var at := offset + count.consumed;
      if count.result.Err? then Soft(fields, count.result.error, at)
      else if !count.result.value.Text? || !IsNumeral(count.result.value.text) then Soft(fields, ValidationFailed, at)
      else
        var n := ParseDecimal(count.result.value.text);
        if n > use.maxItems || n > ctx.maxRepeatItems then Hard(LimitExceeded)
        else UnpackGroupBody(ctx, use, n, bytes, at, fields[use.countFieldId := count.result.value])
  }

  function UnpackUse(ctx: Context, use: Use, bytes: Bytes, offset: nat, fields: FieldSet): (s: Step)
    requires offset <= |bytes|
    ensures s.Next? || s.Soft? ==> offset <= s.offset <= |bytes|
  {
    if use.IsForbidden() || (offset == |bytes| && use.IsTrailing()) then Next(fields, offset)
    else if use.GroupUse? then UnpackGroup(ctx, use, bytes, offset, fields)
    else if use.fieldId !in ctx.fieldsById then Hard(ProfileInvalid)
    else UnpackScalar(ctx.fieldsById[use.fieldId], use.fieldId, bytes, offset, fields, fields)
  }

  function UnpackUses(ctx: Context, uses: seq<Use>, bytes: Bytes, offset: nat, fields: FieldSet): (s: Step)
    requires offset <= |bytes|
    ensures s.Next? || s.Soft? ==> offset <= s.offset <= |bytes|
    decreases |uses|
  {
    if uses == [] then Next(fields, offset)
    else
      var step := UnpackUse(ctx, uses[0], bytes, offset, fields);
      if step.Next? then UnpackUses(ctx, uses[1..], bytes, step.offset, step.fields) else step
  }

  /** The decode result for the step the decoder stopped at. */
  function Finish(step: Step, received: nat, allowPartial: bool): Outcome {
    match step
    case Next(fields, offset) => if offset != received then Failed(TrailingBytes) else Complete(fields)
    case Soft(fields, failure, offset) =>
      if allowPartial && failure.CanReturnPartial() then Partial(fields, failure, offset, received)
      else Failed(failure)
    case Hard(failure) => Failed(failure)
  }

  function UnpackMessage(ctx: Context, bytes: Bytes, allowPartial: bool): Outcome {
    Finish(UnpackUses(ctx, ctx.uses, bytes, 0, map[]), |bytes|, allowPartial)
  }

  // ----- The codec as the source runs it -----

  /** Concatenation of the parts pushed so far. */
  function Concat(parts: seq<Bytes>): Bytes {
    if parts == [] then [] else Concat(parts[..|parts| - 1]) + parts[|parts| - 1]
  }

  lemma ConcatPush(parts: seq<Bytes>, part: Bytes)
    ensures Concat(parts + [part]) == Concat(parts) + part
  {
    assert (parts + [part])[..|parts|] == parts;
  }

  /** concatBytes of packages/host-message/src/bytes.ts: fills one buffer part by part. */
  method ConcatBytes(parts: seq<Bytes>) returns (result: Bytes)
    ensures result == Concat(parts)
  {
    result := [];
    var k := 0;
    while k < |parts|
      invariant 0 <= k <= |parts|
      invariant result == Concat(parts[..k])
    {
      ConcatPush(parts[..k], parts[k]);
      assert parts[..k + 1] == parts[..k] + [parts[k]];
      result := result + parts[k];
      k := k + 1;
    }
    assert parts[..k] == parts;
  }

  /** A result with a prefix already written. */
  function After(written: Bytes, rest: Result<Bytes, Failure>): Result<Bytes, Failure> {
    if rest.Ok? then Ok(written + rest.value) else rest
  }

  lemma AfterPart(parts: seq<Bytes>, part: Bytes, rest: Result<Bytes, Failure>)
    ensures After(Concat(parts), After(part, rest)) == After(Concat(parts + [part]), rest)
  {
    ConcatPush(parts, part);
    assert rest.Ok? ==> Concat(parts) + (part + rest.value) == Concat(parts) + part + rest.value;
  }

  lemma AfterNothing(rest: Result<Bytes, Failure>)
    ensures After(Concat([]), rest) == rest
  {
    assert rest.Ok? ==> [] + rest.value == rest.value;
  }

  /** Items already read, in front of the ones still to read. */
  function WithItems(items: seq<FieldSet>, rest: ItemsRead): ItemsRead {
    if rest.ItemsRead? then ItemsRead(items + rest.items, rest.offset) else rest
  }

  lemma WithItemsStep(items: seq<FieldSet>, item: FieldSet, rest: ItemsRead)
    ensures WithItems(items, WithItems([item], rest)) == WithItems(items + [item], rest)
  {
    assert rest.ItemsRead? ==> items + ([item] + rest.items) == items + [item] + rest.items;
  }

  class FixedFieldMessageCodec {
    constructor () {
    }

    method PackItemLoop(fieldsById: map<string, Field>, ids: seq<string>, item: FieldSet)
      returns (r: Result<Bytes, Failure>)
      ensures r == PackItem(fieldsById, ids, item)
    {
      hide PackField, Concat;
      var parts: seq<Bytes> := [];
      AfterNothing(PackItem(fieldsById, ids, item));
      assert ids[0..] == ids;
      var k := 0;
      while k < |ids|
        invariant 0 <= k <= |ids|
        invariant PackItem(fieldsById, ids, item) == After(Concat(parts), PackItem(fieldsById, ids[k..], item))
      {
        assert ids[k..][0] == ids[k] && ids[k..][1..] == ids[k + 1..];
        if ids[k] !in fieldsById || ids[k] !in item {
          return Err(FieldMissing);
        }
        var packed := PackField(fieldsById[ids[k]], item[ids[k]]);
        if packed.Err? {
          return packed;
        }
        AfterPart(parts, packed.value, PackItem(fieldsById, ids[k + 1..], item));
        parts := parts + [packed.value];
        k := k + 1;
      }
      var bytes := ConcatBytes(parts);
      assert bytes + [] == bytes;
      return Ok(bytes);
    }

    method PackItemsLoop(ctx: Context, use: Use, items: seq<FieldSet>) returns (r: Result<Bytes, Failure>)
      requires use.GroupUse?
      ensures r == PackItems(ctx.fieldsById, use.itemFieldIds, items)
    {
      hide PackItem, Concat;
      var parts: seq<Bytes> := [];
      AfterNothing(PackItems(ctx.fieldsById, use.itemFieldIds, items));
      assert items[0..] == items;
      var k := 0;
      while k < |items|
        invariant 0 <= k <= |items|
        invariant PackItems(ctx.fieldsById, use.itemFieldIds, items)
                  == After(Concat(parts), PackItems(ctx.fieldsById, use.itemFieldIds, items[k..]))
      {
        assert items[k..][0] == items[k] && items[k..][1..] == items[k + 1..];
        var packed := PackItemLoop(ctx.fieldsById, use.itemFieldIds, items[k]);
        if packed.Err? {
          return packed;
        }
        AfterPart(parts, packed.value, PackItems(ctx.fieldsById, use.itemFieldIds, items[k + 1..]));
        parts := parts + [packed.value];
        k := k + 1;
      }
      var bytes := ConcatBytes(parts);
      assert bytes + [] == bytes;
      return Ok(bytes);
    }

    method PackGroupLoop(ctx: Context, use: Use, fields: FieldSet) returns (r: Result<Bytes, Failure>)
      requires use.GroupUse?
      ensures r == PackGroup(ctx, use, fields)
    {
      if use.id !in fields && use.trailing {
        return Ok([]);
      }
      if use.id !in fields || !fields[use.id].Items? {
        return Err(ValidationFailed);
      }
      var items := fields[use.id].items;
      if |items| > use.maxItems || |items| > ctx.maxRepeatItems {
        return Err(LimitExceeded);
      }
      if use.countFieldId !in ctx.fieldsById {
        return Err(ProfileInvalid);
      }
      var count := PackField(ctx.fieldsById[use.countFieldId], Text(ToDecimal(|items|)));
      if count.Err? {
        return count;
      }
      var body := PackItemsLoop(ctx, use, items);
      if body.Err? {
        return body;
      }
      var area := PackArea(use, body.value);
      return if area.Ok? then Ok(count.value + area.value) else area;
    }

    method Pack(ctx: Context, fields: FieldSet) returns (r: Result<Bytes, Failure>)
      ensures r == PackMessage(ctx, fields)
    {
      hide PackField, PackGroup, Concat;
      var parts: seq<Bytes> := [];
      AfterNothing(PackUses(ctx, ctx.uses, fields));
      assert ctx.uses[0..] == ctx.uses;
      var k := 0;
      while k < |ctx.uses|
        invariant 0 <= k <= |ctx.uses|
        invariant PackUses(ctx, ctx.uses, fields) == After(Concat(parts), PackUses(ctx, ctx.uses[k..], fields))
      {
        var use := ctx.uses[k];
        assert ctx.uses[k..][0] == use && ctx.uses[k..][1..] == ctx.uses[k + 1..];
        var packed: Result<Bytes, Failure>;
        if use.GroupUse? {
          packed := PackGroupLoop(ctx, use, fields);
        } else if use.IsForbidden() {
          packed := Ok([]);
        } else if use.fieldId !in fields {
          packed := if use.MayBeAbsent() then Ok([]) else Err(FieldMissing);
        } else {
          packed := PackScalar(ctx.fieldsById, use.fieldId, fields[use.fieldId]);
        }
        if packed.Err? {
          return packed;
        }
        AfterPart(parts, packed.value, PackUses(ctx, ctx.uses[k + 1..], fields));
        parts := parts + [packed.value];
        k := k + 1;
      }
      var bytes := ConcatBytes(parts);
      assert bytes + [] == bytes;
      if |bytes| > ctx.profileMaxBytes || |bytes| > ctx.serviceMaxBytes {
        return Err(LimitExceeded);
      }
      return Ok(bytes);
    }

    /** One call of unpackWireField and what the two loops do with its result. */
    method ReadScalar(field: Field, key: string, cursor: ByteCursor, fields: FieldSet, kept: FieldSet)
      returns (step: Step)
      requires cursor.Valid()
      modifies cursor
      ensures cursor.Valid()
      ensures step == UnpackScalar(field, key, cursor.source, old(cursor.position), fields, kept)
      ensures !step.Hard? && cursor.position == step.offset
    {
      var decoded := UnpackWireField(cursor, field);
      return if decoded.Ok? then Next(fields[key := decoded.value], cursor.position)
        else Soft(kept, decoded.error, cursor.position);
    }

    method UnpackItemLoop(fieldsById: map<string, Field>, ids: seq<string>, cursor: ByteCursor, kept: FieldSet)
      returns (step: Step)
      requires cursor.Valid()
      modifies cursor
      ensures cursor.Valid()
      ensures step == UnpackItem(fieldsById, ids, cursor.source, old(cursor.position), map[], kept)
      ensures step.Next? ==> cursor.position == step.offset
    {
      hide UnpackScalar;
      var item: FieldSet := map[];
      var k := 0;
      assert ids[0..] == ids;
      while k < |ids|
        invariant 0 <= k <= |ids| && cursor.Valid()
        invariant UnpackItem(fieldsById, ids, cursor.source, old(cursor.position), map[], kept)
                  == UnpackItem(fieldsById, ids[k..], cursor.source, cursor.position, item, kept)
      {
        assert ids[k..][0] == ids[k] && ids[k..][1..] == ids[k + 1..];
        if ids[k] !in fieldsById {
          return Hard(ProfileInvalid);
        }
        step := ReadScalar(fieldsById[ids[k]], ids[k], cursor, item, kept);
        if !step.Next? {
          return;
        }
        item := step.fields;
        k := k + 1;
      }
      return Next(item, cursor.position);
    }

    method UnpackItemsLoop(ctx: Context, use: Use, n: nat, cursor: ByteCursor, kept: FieldSet)
      returns (read: ItemsRead)
      requires use.GroupUse? && cursor.Valid()
      modifies cursor
      ensures cursor.Valid()
      ensures read == UnpackItems(ctx.fieldsById, use.itemFieldIds, n, cursor.source, old(cursor.position), kept)
      ensures read.ItemsRead? ==> cursor.position == read.offset
    {
      hide UnpackItem;
      var items: seq<FieldSet> := [];
      ghost var whole := UnpackItems(ctx.fieldsById, use.itemFieldIds, n, cursor.source, cursor.position, kept);
      assert whole == WithItems([], whole);
      var k := 0;
      while k < n
        invariant 0 <= k <= n && cursor.Valid()
        invariant whole == WithItems(items,
          UnpackItems(ctx.fieldsById, use.itemFieldIds, n - k, cursor.source, cursor.position, kept))
      {
        var step := UnpackItemLoop(ctx.fieldsById, use.itemFieldIds, cursor, kept);
        if !step.Next? {
          return ItemsStop(step);
        }
        WithItemsStep(items, step.fields,
          UnpackItems(ctx.fieldsById, use.itemFieldIds, n - k - 1, cursor.source, cursor.position, kept));
        items := items + [step.fields];
        k := k + 1;
      }
      assert items + [] == items;
      return ItemsRead(items, cursor.position);
    }

    method UnpackGroupBodyLoop(ctx: Context, use: Use, n: nat, cursor: ByteCursor, fields: FieldSet)
      returns (step: Step)
      requires use.GroupUse? && cursor.Valid()
      modifies cursor
      ensures cursor.Valid()
      ensures step == UnpackGroupBody(ctx, use, n, cursor.source, old(cursor.position), fields)
      ensures step.Next? ==> cursor.position == step.offset
    {
      var areaStart := cursor.position;
      var read := UnpackItemsLoop(ctx, use, n, cursor, fields);
      if read.ItemsStop? {
        return read.step;
      }
      if use.fixedArea.Some? {
        var padding := use.fixedArea.value - (cursor.position - areaStart);
        if padding < 0 {
          return Hard(LimitExceeded);
        }
        var skipped := cursor.Read(padding);
        if skipped.None? {
          return Soft(fields, Truncated, cursor.position);
        }
      }
      return Next(fields[use.id := Items(read.items)], cursor.position);
    }

    /** unpackGroup: `Next` stands for the source's undefined result. */
    method UnpackGroupLoop(ctx: Context, use: Use, cursor: ByteCursor, output: FieldSet) returns (step: Step)
      requires use.GroupUse? && cursor.Valid()
      modifies cursor
      ensures cursor.Valid()
      ensures step == UnpackGroup(ctx, use, cursor.source, old(cursor.position), output)
      ensures step.Next? ==> cursor.position == step.offset
    {
      hide UnpackField, UnpackGroupBody;
      if use.countFieldId !in ctx.fieldsById {
        return Hard(ProfileInvalid);
      }
      var count := UnpackWireField(cursor, ctx.fieldsById[use.countFieldId]);
      if count.Err? {
        return Soft(output, count.error, cursor.position);
      }
      if !count.value.Text? || !IsNumeral(count.value.text) {
        return Soft(output, ValidationFailed, cursor.position);
      }
      var n := ParseDecimal(count.value.text);
      if n > use.maxItems || n > ctx.maxRepeatItems {
        return Hard(LimitExceeded);
      }
      step := UnpackGroupBodyLoop(ctx, use, n, cursor, output[use.countFieldId := count.value]);
    }

    method Unpack(ctx: Context, bytes: Bytes, allowPartial: bool) returns (outcome: Outcome)
      ensures outcome == UnpackMessage(ctx, bytes, allowPartial)
    {
      hide UnpackScalar, UnpackGroup;
      var cursor := new ByteCursor(bytes);
      var fields: FieldSet := map[];
      var k := 0;
      assert ctx.uses[0..] == ctx.uses;
      while k < |ctx.uses|
        invariant 0 <= k <= |ctx.uses| && cursor.Valid() && cursor.source == bytes
        invariant UnpackUses(ctx, ctx.uses, bytes, 0, map[])
                  == UnpackUses(ctx, ctx.uses[k..], bytes, cursor.position, fields)
      {
        var use := ctx.uses[k];
        assert ctx.uses[k..][0] == use && ctx.uses[k..][1..] == ctx.uses[k + 1..];
        var step := Next(fields, cursor.position);
        if use.IsForbidden() || (cursor.position == |bytes| && use.IsTrailing()) {
        } else if use.GroupUse? {
          step := UnpackGroupLoop(ctx, use, cursor, fields);
        } else if use.fieldId !in ctx.fieldsById {
          step := Hard(ProfileInvalid);
        } else {
          step := ReadScalar(ctx.fieldsById[use.fieldId], use.fieldId, cursor, fields, fields);
        }
        if !step.Next? {
          return Finish(step, |bytes|, allowPartial);
        }
        fields := step.fields;
        k := k + 1;
      }
      return Finish(Next(fields, cursor.position), |bytes|, allowPartial);
    }
  }
}
