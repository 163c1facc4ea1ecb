/**
 * When a message can be packed, and what is packed where. Conditions are on the uses, the given values and the limits;
 * the wire of a message is the wire of its uses in order, and that of a group its count, its items and the fill.
 */
module MessagePacking {
  import opened Prelude
  import opened ByteText
  import opened FieldCodecs
  import opened FieldWire
  import opened FixedField
  import opened Iso8583
  import opened Bitmap
  import opened IsoRoundTrip
  import opened WireLayout

  // ----- Several wires -----

  /** Everything packed so far went well, or the first failure. */
  predicate AllOk(results: seq<Result<Bytes, Failure>>) {
    forall k | 0 <= k < |results| :: results[k].Ok?
  }

  function Values(results: seq<Result<Bytes, Failure>>): (parts: seq<Bytes>)
    requires AllOk(results)
    ensures |parts| == |results|
  {
    seq(|results|, k requires 0 <= k < |results| => results[k].value)
  }

  /** The wires one after another, or the failure of the first that has none. */
  predicate Joins(results: seq<Result<Bytes, Failure>>, joined: Result<Bytes, Failure>) {
    if AllOk(results) then joined == Ok(Concat(Values(results)))
    else exists k | 0 <= k < |results| :: AllOk(results[..k]) && results[k].Err? && joined == results[k]
  }

  lemma {:induction false} ConcatFirst(parts: seq<Bytes>)
    requires parts != []
    ensures Concat(parts) == parts[0] + Concat(parts[1..])
  {
    if |parts| > 1 {
      var n := |parts| - 1;
      ConcatFirst(parts[..n]);
      assert parts[..n][1..] == parts[1..][..n - 1];
    }
  }

  lemma JoinsWhenAllOk(results: seq<Result<Bytes, Failure>>, joined: Result<Bytes, Failure>)
    requires Joins(results, joined)
    ensures joined.Ok? <==> AllOk(results)
  {
  }

  lemma JoinsNothing()
    ensures Joins([], Ok([]))
  {
  }

  lemma JoinsMore(first: Result<Bytes, Failure>, rest: seq<Result<Bytes, Failure>>, joined: Result<Bytes, Failure>)
    requires Joins(rest, joined)
    ensures Joins([first] + rest, if first.Err? then first else After(first.value, joined))
  {
    var all := [first] + rest;
    assert all[..0] == [];
    if first.Ok? && AllOk(rest) {
      assert AllOk(all);
      ConcatFirst(Values(all));
      assert Values(all)[1..] == Values(rest);
    } else if first.Ok? {
      var k :| 0 <= k < |rest| && AllOk(rest[..k]) && rest[k].Err? && joined == rest[k];
      assert all[..k + 1] == [first] + rest[..k] && all[k + 1] == rest[k];
    } else {
      assert all[0].Err? && AllOk(all[..0]);
    }
  }

  // ----- Fixed-field messages -----

  /** The fields of an item, in order. */
  function FieldResults(fieldsById: map<string, Field>, ids: seq<string>, item: FieldSet)
    : (results: seq<Result<Bytes, Failure>>)
    ensures |results| == |ids|
  {
    seq(|ids|, j requires 0 <= j < |ids| =>
      if ids[j] in fieldsById && ids[j] in item then PackField(fieldsById[ids[j]], item[ids[j]]) else Err(FieldMissing))
  }

  lemma {:induction false} ItemJoins(fieldsById: map<string, Field>, ids: seq<string>, item: FieldSet)
    ensures Joins(FieldResults(fieldsById, ids, item), PackItem(fieldsById, ids, item))
  {
    hide PackField, Joins;
    if ids == [] {
      JoinsNothing();
    } else {
      var all, rest := FieldResults(fieldsById, ids, item), FieldResults(fieldsById, ids[1..], item);
      assert all == [all[0]] + rest;
      ItemJoins(fieldsById, ids[1..], item);
      JoinsMore(all[0], rest, PackItem(fieldsById, ids[1..], item));
    }
  }

  function ItemResults(fieldsById: map<string, Field>, ids: seq<string>, items: seq<FieldSet>)
    : (results: seq<Result<Bytes, Failure>>)
    ensures |results| == |items|
  {
    seq(|items|, i requires 0 <= i < |items| => PackItem(fieldsById, ids, items[i]))
  }

  lemma {:induction false} ItemsJoin(fieldsById: map<string, Field>, ids: seq<string>, items: seq<FieldSet>)
    ensures Joins(ItemResults(fieldsById, ids, items), PackItems(fieldsById, ids, items))
  {
    hide PackItem, Joins;
    if items == [] {
      JoinsNothing();
    } else {
      var all, rest := ItemResults(fieldsById, ids, items), ItemResults(fieldsById, ids, items[1..]);
      assert all == [all[0]] + rest;
      ItemsJoin(fieldsById, ids, items[1..]);
      JoinsMore(all[0], rest, PackItems(fieldsById, ids, items[1..]));
    }
  }

  /** Every item of a group has every field of the group, with a value that can be packed. */
  predicate ItemsCanBePacked(fieldsById: map<string, Field>, ids: seq<string>, items: seq<FieldSet>) {
    forall i, j | 0 <= i < |items| && 0 <= j < |ids| :: FieldCanBePacked(fieldsById, ids[j], items[i])
  }

  predicate FieldCanBePacked(fieldsById: map<string, Field>, id: string, item: FieldSet) {
    id in fieldsById && id in item && PackField(fieldsById[id], item[id]).Ok?
  }

  lemma ItemPacksIff(fieldsById: map<string, Field>, ids: seq<string>, item: FieldSet)
    ensures PackItem(fieldsById, ids, item).Ok? <==>
            forall j | 0 <= j < |ids| :: FieldCanBePacked(fieldsById, ids[j], item)
  {
    hide PackField, PackItem, Joins;
    var results := FieldResults(fieldsById, ids, item);
    ItemJoins(fieldsById, ids, item);
    JoinsWhenAllOk(results, PackItem(fieldsById, ids, item));
    forall j | 0 <= j < |ids|
      ensures results[j].Ok? <==> FieldCanBePacked(fieldsById, ids[j], item)
    {
    }
  }

  lemma ItemsPackIff(fieldsById: map<string, Field>, ids: seq<string>, items: seq<FieldSet>)
    ensures PackItems(fieldsById, ids, items).Ok? <==> ItemsCanBePacked(fieldsById, ids, items)
  {
    hide PackItem, PackItems, Joins, FieldCanBePacked;
    var results := ItemResults(fieldsById, ids, items);
    ItemsJoin(fieldsById, ids, items);
    JoinsWhenAllOk(results, PackItems(fieldsById, ids, items));
    forall i | 0 <= i < |items|
      ensures results[i].Ok? <==> forall j | 0 <= j < |ids| :: FieldCanBePacked(fieldsById, ids[j], items[i])
    {
      ItemPacksIff(fieldsById, ids, items[i]);
    }
  }

  /** What a use asks of the given fields. */
  predicate CanBePacked(ctx: Context, use: Use, fields: FieldSet) {
    match use
    case ScalarUse(id, presence) =>
      || presence == Some(Forbidden)
      || (id !in fields && presence in {Some(Optional), Some(OptionalTrailing)})
      || (id in fields && id in ctx.fieldsById && PackField(ctx.fieldsById[id], fields[id]).Ok?)
    case GroupUse(id, countFieldId, itemFieldIds, maxItems, fixedArea, _, trailing) =>
      if id !in fields then trailing
      else
        && fields[id].Items? && countFieldId in ctx.fieldsById
        && var items := fields[id].items;
        && |items| <= maxItems && |items| <= ctx.maxRepeatItems
        && PackField(ctx.fieldsById[countFieldId], Text(ToDecimal(|items|))).Ok?
        && ItemsCanBePacked(ctx.fieldsById, itemFieldIds, items)
        && var packed := PackItems(ctx.fieldsById, itemFieldIds, items);
        && (fixedArea.Some? ==> packed.Ok? && |packed.value| <= fixedArea.value)
  }

  lemma UsePacksIff(ctx: Context, use: Use, fields: FieldSet)
    ensures PackUse(ctx, use, fields).Ok? <==> CanBePacked(ctx, use, fields)
  {
    hide PackField, PackItems, ItemsCanBePacked, ToDecimal;
    if use.GroupUse? && use.id in fields && fields[use.id].Items? {
      ItemsPackIff(ctx.fieldsById, use.itemFieldIds, fields[use.id].items);
    }
  }

  /** The failures of presence and of limits. */
  lemma UseFailsAs(ctx: Context, use: Use, fields: FieldSet)
    ensures use.ScalarUse? && use.fieldId !in fields && use.presence in {None, Some(Required)} ==>
              PackUse(ctx, use, fields) == Err(FieldMissing)
    ensures use.GroupUse? && !use.trailing && use.id !in fields ==> PackUse(ctx, use, fields) == Err(ValidationFailed)
    ensures use.GroupUse? && use.id in fields && fields[use.id].Items?
            && |fields[use.id].items| > Min(use.maxItems, ctx.maxRepeatItems) ==>
              PackUse(ctx, use, fields) == Err(LimitExceeded)
  {
  }

  function Min(a: int, b: int): int {
    if a < b then a else b
  }

  function UseResults(ctx: Context, uses: seq<Use>, fields: FieldSet): (results: seq<Result<Bytes, Failure>>)
    ensures |results| == |uses|
  {
    seq(|uses|, k requires 0 <= k < |uses| => PackUse(ctx, uses[k], fields))
  }

  lemma {:induction false} UsesJoin(ctx: Context, uses: seq<Use>, fields: FieldSet)
    ensures Joins(UseResults(ctx, uses, fields), PackUses(ctx, uses, fields))
  {
    hide PackUse, Joins;
    if uses == [] {
      JoinsNothing();
    } else {
      var all, rest := UseResults(ctx, uses, fields), UseResults(ctx, uses[1..], fields);
      assert all == [all[0]] + rest;
      UsesJoin(ctx, uses[1..], fields);
      JoinsMore(all[0], rest, PackUses(ctx, uses[1..], fields));
    }
  }

  /**
   * A message is packed exactly when each of its uses can be and their wires together are within both limits; the
   * wires then stand in the order of the uses.
   */
  lemma MessagePacksIff(ctx: Context, fields: FieldSet) returns (wires: seq<Bytes>)
    ensures (forall k | 0 <= k < |ctx.uses| :: CanBePacked(ctx, ctx.uses[k], fields)) ==>
              |wires| == |ctx.uses| && forall k | 0 <= k < |wires| :: PackUse(ctx, ctx.uses[k], fields) == Ok(wires[k])
    ensures PackMessage(ctx, fields).Ok? <==>
            && (forall k | 0 <= k < |ctx.uses| :: CanBePacked(ctx, ctx.uses[k], fields))
            && |Concat(wires)| <= Min(ctx.profileMaxBytes, ctx.serviceMaxBytes)
    ensures PackMessage(ctx, fields).Ok? ==> PackMessage(ctx, fields).value == Concat(wires)
  {
    hide PackUse, PackUses, CanBePacked, Joins;
    forall k | 0 <= k < |ctx.uses|
      ensures PackUse(ctx, ctx.uses[k], fields).Ok? <==> CanBePacked(ctx, ctx.uses[k], fields)
    {
      UsePacksIff(ctx, ctx.uses[k], fields);
    }
    UsesJoin(ctx, ctx.uses, fields);
    var results := UseResults(ctx, ctx.uses, fields);
    JoinsWhenAllOk(results, PackUses(ctx, ctx.uses, fields));
    wires := [];
    if AllOk(results) {
      wires := Values(results);
      JoinedIsConcat(results, PackUses(ctx, ctx.uses, fields));
      forall k | 0 <= k < |ctx.uses|
        ensures PackUse(ctx, ctx.uses[k], fields) == Ok(wires[k])
      {
        assert results[k].Ok?;
      }
    } else {
      var k :| 0 <= k < |results| && results[k].Err?;
      assert !CanBePacked(ctx, ctx.uses[k], fields);
    }
  }

  lemma JoinedIsConcat(results: seq<Result<Bytes, Failure>>, joined: Result<Bytes, Failure>)
    requires Joins(results, joined) && AllOk(results)
    ensures joined == Ok(Concat(Values(results)))
  {
  }

  /** A packed group is its count, the fields of its items, and the fill of a fixed area, spaces unless told. */
  lemma GroupLayout(ctx: Context, use: Use, fields: FieldSet)
    returns (count: Bytes, items: seq<seq<Bytes>>, fill: Bytes)
    requires use.GroupUse? && use.id in fields && fields[use.id].Items? && PackUse(ctx, use, fields).Ok?
    ensures use.countFieldId in ctx.fieldsById
    ensures PackField(ctx.fieldsById[use.countFieldId], Text(ToDecimal(|fields[use.id].items|))) == Ok(count)
    ensures |items| == |fields[use.id].items|
    ensures forall i | 0 <= i < |items| :: |items[i]| == |use.itemFieldIds|
    ensures ItemsCanBePacked(ctx.fieldsById, use.itemFieldIds, fields[use.id].items)
    ensures forall i, j | 0 <= i < |items| && 0 <= j < |use.itemFieldIds| ::
              FieldCanBePacked(ctx.fieldsById, use.itemFieldIds[j], fields[use.id].items[i]) &&
              PackField(ctx.fieldsById[use.itemFieldIds[j]], fields[use.id].items[i][use.itemFieldIds[j]])
              == Ok(items[i][j])
    ensures forall k | 0 <= k < |fill| :: fill[k] == if use.padByte.Some? then use.padByte.value else 32
    ensures use.fixedArea.None? ==> fill == []
    ensures use.fixedArea.Some? ==> |Concat(ConcatEach(items))| + |fill| == use.fixedArea.value
    ensures PackUse(ctx, use, fields).value == count + (Concat(ConcatEach(items)) + fill)
  {
    hide PackField, PackItems, ToDecimal, ItemsCanBePacked, Concat, ConcatEach;
    ItemsPackIff(ctx.fieldsById, use.itemFieldIds, fields[use.id].items);
    var body;
    items, body := ItemsLayout(ctx.fieldsById, use.itemFieldIds, fields[use.id].items);
    count := PackField(ctx.fieldsById[use.countFieldId], Text(ToDecimal(|fields[use.id].items|))).value;
    fill := if use.fixedArea.Some? then Repeat(use.fixedArea.value - |body|, use.padByte.GetOr(0x20)) else [];
    assert body + [] == body;
  }

  function ConcatEach(items: seq<seq<Bytes>>): (wires: seq<Bytes>)
    ensures |wires| == |items|
  {
    seq(|items|, i requires 0 <= i < |items| => Concat(items[i]))
  }

  lemma ItemsLayout(fieldsById: map<string, Field>, ids: seq<string>, values: seq<FieldSet>)
    returns (items: seq<seq<Bytes>>, body: Bytes)
    requires PackItems(fieldsById, ids, values).Ok?
    ensures ItemsCanBePacked(fieldsById, ids, values)
    ensures |items| == |values| && forall i | 0 <= i < |items| :: |items[i]| == |ids|
    ensures forall i, j | 0 <= i < |items| && 0 <= j < |ids| ::
              FieldCanBePacked(fieldsById, ids[j], values[i]) &&
              PackField(fieldsById[ids[j]], values[i][ids[j]]) == Ok(items[i][j])
    ensures PackItems(fieldsById, ids, values) == Ok(body) && body == Concat(ConcatEach(items))
  {
    hide PackField, PackItem, PackItems, Concat;
    ItemsPackIff(fieldsById, ids, values);
    items := seq(|values|, i requires 0 <= i < |values| =>
      seq(|ids|, j requires 0 <= j < |ids| && FieldCanBePacked(fieldsById, ids[j], values[i]) =>
        PackField(fieldsById[ids[j]], values[i][ids[j]]).value));
    body := PackItems(fieldsById, ids, values).value;
    ItemsJoin(fieldsById, ids, values);
    forall i | 0 <= i < |values|
      ensures PackItem(fieldsById, ids, values[i]) == Ok(Concat(items[i]))
    {
      ItemJoins(fieldsById, ids, values[i]);
      assert Values(FieldResults(fieldsById, ids, values[i])) == items[i];
    }
    assert Values(ItemResults(fieldsById, ids, values)) == ConcatEach(items);
  }

  // ----- ISO messages -----

  /** What a use of an ISO message asks of the given fields. */
  predicate IsoCanBePacked(ctx: IsoContext, use: Use, fields: FieldSet)
    requires use.ScalarUse?
  {
    && (use.fieldId in fields ==>
          && use.presence != Some(Forbidden) && use.fieldId in ctx.fieldsById
          && PackField(ctx.fieldsById[use.fieldId], fields[use.fieldId]).Ok?)
    && (use.fieldId !in fields ==> use.presence != Some(Required))
  }

  /** What it asks of presence alone. */
  predicate IsoPresenceOk(use: Use, fields: FieldSet)
    requires use.ScalarUse?
  {
    if use.fieldId in fields then use.presence != Some(Forbidden) else use.presence != Some(Required)
  }

  lemma {:induction false} UsesHaveEntries(ctx: IsoContext, uses: seq<Use>)
    requires IsoUses(ctx, uses).Ok?
    ensures |IsoUses(ctx, uses).value| == |uses|
    ensures forall k | 0 <= k < |uses| ::
              && uses[k].ScalarUse? && uses[k].fieldId in ctx.fieldsById
              && IsoUses(ctx, uses).value[k].fieldId == uses[k].fieldId
              && IsoUses(ctx, uses).value[k].presence == uses[k].presence.GetOr(Optional)
  {
    if uses != [] {
      UsesHaveEntries(ctx, uses[1..]);
      var entries, rest := IsoUses(ctx, uses).value, IsoUses(ctx, uses[1..]).value;
      assert entries == [entries[0]] + rest && uses == [uses[0]] + uses[1..];
      assert forall k | 0 < k < |uses| :: uses[k] == uses[1..][k - 1] && entries[k] == rest[k - 1];
    }
  }

  predicate EntryPresenceOk(entry: Entry, fields: FieldSet) {
    if entry.fieldId in fields then !entry.presence.Forbidden? else !entry.presence.Required?
  }

  lemma {:induction false} PresentIff(entries: seq<Entry>, fields: FieldSet)
    ensures PresentEntries(entries, fields).Ok? <==>
            forall k | 0 <= k < |entries| :: EntryPresenceOk(entries[k], fields)
    ensures PresentEntries(entries, fields).Err? ==>
              PresentEntries(entries, fields) in {Err(ForbiddenField), Err(FieldMissing)}
  {
    if entries != [] {
      PresentIff(entries[1..], fields);
      assert forall k | 0 < k < |entries| :: entries[k] == entries[1..][k - 1];
    }
  }

  /** The values of the entries, in order. */
  function EntryResults(fieldsById: map<string, Field>, entries: seq<Entry>, fields: FieldSet)
    : (results: seq<Result<Bytes, Failure>>)
    ensures |results| == |entries|
  {
    seq(|entries|, k requires 0 <= k < |entries| =>
      if entries[k].fieldId in fieldsById && entries[k].fieldId in fields
      then PackField(fieldsById[entries[k].fieldId], fields[entries[k].fieldId])
      else Err(ProfileInvalid))
  }

  lemma {:induction false} EntriesJoin(fieldsById: map<string, Field>, entries: seq<Entry>, fields: FieldSet)
    ensures Joins(EntryResults(fieldsById, entries, fields), PackEntries(fieldsById, entries, fields))
  {
    hide PackField, Joins;
    if entries == [] {
      JoinsNothing();
    } else {
      var all, rest := EntryResults(fieldsById, entries, fields), EntryResults(fieldsById, entries[1..], fields);
      assert all == [all[0]] + rest;
      EntriesJoin(fieldsById, entries[1..], fields);
      JoinsMore(all[0], rest, PackEntries(fieldsById, entries[1..], fields));
    }
  }

  /** The presence rules of an ISO message hold, or packing reports a violation. */
  lemma IsoPresenceIff(ctx: IsoContext, fields: FieldSet)
    requires Accepted(ctx)
    ensures |IsoUses(ctx, ctx.uses).value| == |ctx.uses| && forall k | 0 <= k < |ctx.uses| :: ctx.uses[k].ScalarUse?
    ensures SortedPresent(ctx, fields).Ok? <==> forall k | 0 <= k < |ctx.uses| :: IsoPresenceOk(ctx.uses[k], fields)
    ensures SortedPresent(ctx, fields).Err? ==>
              PackIso(ctx, fields) in {Err(ForbiddenField), Err(FieldMissing)}
  {
    hide PresentEntries, SortEntries, IsoUses, PackEntries, PackHeader;
    AcceptedHasEntries(ctx);
    UsesHaveEntries(ctx, ctx.uses);
    var entries := IsoUses(ctx, ctx.uses).value;
    PresentIff(entries, fields);
    forall k | 0 <= k < |ctx.uses|
      ensures IsoPresenceOk(ctx.uses[k], fields) <==> EntryPresenceOk(entries[k], fields)
    {
    }
  }

  /**
   * An ISO message is packed exactly when every use is satisfied and the whole is within both limits. What follows the
   * header is the wires of the present fields, by ascending data element.
   */
  lemma IsoPacksIff(ctx: IsoContext, fields: FieldSet) returns (sorted: seq<Entry>, wires: seq<Bytes>)
    requires Accepted(ctx)
    ensures forall k | 0 <= k < |ctx.uses| :: ctx.uses[k].ScalarUse?
    ensures PackIso(ctx, fields).Ok? <==>
            && (forall k | 0 <= k < |ctx.uses| :: IsoCanBePacked(ctx, ctx.uses[k], fields))
            && |PackHeader(ctx, sorted)| + |Concat(wires)| <= Min(ctx.profileMaxBytes, ctx.serviceMaxBytes)
    ensures ctx.mti.Some?
    ensures PackIso(ctx, fields).Ok? ==>
              && PackIso(ctx, fields).value == PackHeader(ctx, sorted) + Concat(wires)
              && SortedPresent(ctx, fields) == Ok(sorted) && |wires| == |sorted|
              && forall k | 0 <= k < |sorted| ::
                   && sorted[k].fieldId in ctx.fieldsById && sorted[k].fieldId in fields
                   && PackField(ctx.fieldsById[sorted[k].fieldId], fields[sorted[k].fieldId]) == Ok(wires[k])
                   && (k > 0 ==> sorted[k - 1].element < sorted[k].element)
  {
    hide SortedPresent, PackHeader, PackEntries, Joins, PackField, Accepted, IsoUses;
    AcceptedHasEntries(ctx);
    IsoPresenceIff(ctx, fields);
    sorted, wires := [], [];
    if SortedPresent(ctx, fields).Ok? {
      sorted := SortedPresent(ctx, fields).value;
      var results := EntryResults(ctx.fieldsById, sorted, fields);
      EntriesJoin(ctx.fieldsById, sorted, fields);
      JoinsWhenAllOk(results, PackEntries(ctx.fieldsById, sorted, fields));
      EntriesPackIff(ctx, fields, sorted);
      SortedAscends(ctx, fields, sorted);
      if AllOk(results) {
        wires := Values(results);
        JoinedIsConcat(results, PackEntries(ctx.fieldsById, sorted, fields));
        forall k | 0 <= k < |sorted|
          ensures sorted[k].fieldId in ctx.fieldsById && sorted[k].fieldId in fields
          ensures PackField(ctx.fieldsById[sorted[k].fieldId], fields[sorted[k].fieldId]) == Ok(wires[k])
        {
          assert results[k].Ok?;
        }
      }
    } else {
      var k :| 0 <= k < |ctx.uses| && !IsoPresenceOk(ctx.uses[k], fields);
      assert !IsoCanBePacked(ctx, ctx.uses[k], fields);
    }
  }

  lemma SortedAscends(ctx: IsoContext, fields: FieldSet, sorted: seq<Entry>)
    requires Accepted(ctx) && SortedPresent(ctx, fields) == Ok(sorted)
    ensures forall k | 0 < k < |sorted| :: sorted[k - 1].element < sorted[k].element
  {
    hide SortedPresent, Accepted, IsoUses;
    SortedPresentFacts(ctx, fields);
    forall k | 0 < k < |sorted|
      ensures sorted[k - 1].element < sorted[k].element
    {
      assert Elements(sorted)[k - 1] < Elements(sorted)[k];
    }
  }

  lemma EntriesPackIff(ctx: IsoContext, fields: FieldSet, sorted: seq<Entry>)
    requires Accepted(ctx) && SortedPresent(ctx, fields) == Ok(sorted)
    ensures forall k | 0 <= k < |ctx.uses| :: ctx.uses[k].ScalarUse?
    ensures AllOk(EntryResults(ctx.fieldsById, sorted, fields)) <==>
            forall k | 0 <= k < |ctx.uses| :: IsoCanBePacked(ctx, ctx.uses[k], fields)
  {
    hide SortedPresent, PackField, Accepted, IsoUses;
    AcceptedHasEntries(ctx);
    IsoPresenceIff(ctx, fields);
    UsesHaveEntries(ctx, ctx.uses);
    SortedPresentFacts(ctx, fields);
    var entries := IsoUses(ctx, ctx.uses).value;
    var results := EntryResults(ctx.fieldsById, sorted, fields);
    if AllOk(results) {
      forall k | 0 <= k < |ctx.uses|
        ensures IsoCanBePacked(ctx, ctx.uses[k], fields)
      {
        assert IsoPresenceOk(ctx.uses[k], fields);
        if ctx.uses[k].fieldId in fields {
          assert entries[k] in sorted;
          var i :| 0 <= i < |sorted| && sorted[i] == entries[k];
          assert results[i].Ok?;
        }
      }
    }
    if forall k | 0 <= k < |ctx.uses| :: IsoCanBePacked(ctx, ctx.uses[k], fields) {
      forall i | 0 <= i < |sorted|
        ensures results[i].Ok?
      {
        assert sorted[i] in entries;
        var k :| 0 <= k < |entries| && entries[k] == sorted[i];
        assert IsoCanBePacked(ctx, ctx.uses[k], fields);
      }
    }
  }

  /**
   * The header of an ISO message: the type, one digit a byte or two, and 8 or 16 bytes of bitmap, raw or as upper-case
   * hexadecimal text. Data element e is bit e, counted from the highest bit of the first byte.
   */
  lemma HeaderLayout(ctx: IsoContext, fields: FieldSet) returns (mti: Bytes, bitmap: Bits)
    requires Accepted(ctx) && SortedPresent(ctx, fields).Ok?
    ensures
      var sorted := SortedPresent(ctx, fields).value;
      var second := exists k | 0 <= k < |sorted| :: sorted[k].element > 64;
      && PackHeader(ctx, sorted) ==
         mti + (if ctx.bitmapEncoding.BinaryBitmap? then ToWire(bitmap) else AsciiBytes(BytesToHex(ToWire(bitmap))))
      && |bitmap| == (if second then 16 else 8)
      && forall e | 1 <= e <= 8 * |bitmap| ::
           IsSet(bitmap, e) <==> (e == 1 && second) || exists k | 0 <= k < |sorted| :: sorted[k].element == e
    ensures ctx.mtiEncoding.AsciiMti? ==>
              |mti| == 4 && forall i | 0 <= i < 4 :: ctx.mti.value[i] == mti[i] as char
    ensures ctx.mtiEncoding.BcdMti? ==>
              |mti| == 2 && forall j | 0 <= j < 4 :: HexValue(ctx.mti.value[j]) == Some(HalfByte(mti, j))
  {
    hide SortedPresent, ByteOf, HalfByte, HexToBytes, BytesToHex, IsoUses, IsSet, HasElement;
    var sorted := SortedPresent(ctx, fields).value;
    mti := EncodeMti(ctx.mti.value, ctx.mtiEncoding);
    bitmap := BitmapOf(Announced(sorted), BitmapLength(sorted));
    BitmapHolds(Announced(sorted), BitmapLength(sorted));
    forall e | 1 <= e <= 8 * |bitmap|
      ensures IsSet(bitmap, e) <==>
              (e == 1 && HasSecondary(sorted)) || exists k | 0 <= k < |sorted| :: sorted[k].element == e
    {
      SetIsHeld(bitmap, e);
      ElementIsListed(sorted, e);
    }
    if ctx.mtiEncoding.BcdMti? {
      assert IsHexPairs(ctx.mti.value);
      forall j | 0 <= j < 4
        ensures HexValue(ctx.mti.value[j]) == Some(HalfByte(mti, j))
      {
        ParsedNibbles(ctx.mti.value, j);
      }
    }
  }

  const MASKS: seq<bv8> := [0x80, 0x40, 0x20, 0x10, 0x08, 0x04, 0x02, 0x01]

  /** Bit e of a bitmap, the highest bit of a byte first. */
  predicate IsSet(bitmap: Bits, e: nat)
    requires 1 <= e <= 8 * |bitmap|
  {
    bitmap[(e - 1) / 8] & MASKS[(e - 1) % 8] != 0
  }

  lemma SetIsHeld(bitmap: Bits, e: nat)
    requires 1 <= e <= 8 * |bitmap|
    ensures IsSet(bitmap, e) <==> HasElement(bitmap, e)
  {
    MaskOf((e - 1) % 8);
  }

  lemma MaskOf(k: nat)
    requires k < 8
    ensures MASKS[k] == 0x80 >> k
  {
    var shifted: seq<bv8> := [0x80 >> 0, 0x80 >> 1, 0x80 >> 2, 0x80 >> 3, 0x80 >> 4, 0x80 >> 5, 0x80 >> 6, 0x80 >> 7];
    assert MASKS == shifted;
    assert shifted[k] == 0x80 >> k;
  }

  lemma ElementIsListed(sorted: seq<Entry>, e: nat)
    ensures e in ElementSet(sorted) <==> exists k | 0 <= k < |sorted| :: sorted[k].element == e
  {
    assert forall k | 0 <= k < |sorted| :: Elements(sorted)[k] == sorted[k].element;
  }
}
