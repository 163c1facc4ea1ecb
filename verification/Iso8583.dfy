/** The ISO 8583 message codec: packages/host-message/src/iso8583-codec.ts. */
module Iso8583 {
  import opened Prelude
  import opened ByteText
  import opened FieldCodecs
  import opened FieldWire
  import opened FixedField
  import opened Bitmap

  datatype MtiEncoding = AsciiMti | BcdMti
  datatype BitmapEncoding = BinaryBitmap | HexBitmap

  datatype IsoContext = IsoContext(
    fieldsById: map<string, Field>, uses: seq<Use>, mti: Option<string>,
    mtiEncoding: MtiEncoding, bitmapEncoding: BitmapEncoding,
    profileMaxBytes: int, serviceMaxBytes: int)

  /** The source treats an empty message type like a missing one. */
  predicate LacksMti(ctx: IsoContext) {
    ctx.mti.None? || ctx.mti.value == ""
  }

  /** A scalar use with the data element of its field. */
  datatype Entry = Entry(fieldId: string, presence: Presence, element: nat)

  /** isoUses: an undefined presence means optional. */
  function IsoUses(ctx: IsoContext, uses: seq<Use>): Result<seq<Entry>, Failure> {
    if uses == [] then Ok([])
    else if !uses[0].ScalarUse? || uses[0].fieldId !in ctx.fieldsById
            || ctx.fieldsById[uses[0].fieldId].dataElement.None? then Err(ProfileInvalid)
    else
      var rest :- IsoUses(ctx, uses[1..]);
      var entry := Entry(uses[0].fieldId, uses[0].presence.GetOr(Optional),
                         ctx.fieldsById[uses[0].fieldId].dataElement.value);
      Ok([entry] + rest)
  }

  // ----- Packing -----

  /** The entries that have a value, or the first violation of a presence rule. */
  function PresentEntries(entries: seq<Entry>, fields: FieldSet): Result<seq<Entry>, Failure> {
    if entries == [] then Ok([])
    else
      var entry := entries[0];
      var given := entry.fieldId in fields;
      if entry.presence.Forbidden? && given then Err(ForbiddenField)
      else if entry.presence.Required? && !given then Err(FieldMissing)
      else
        var rest :- PresentEntries(entries[1..], fields);
        Ok(if given then [entry] + rest else rest)
  }

  function InsertEntry(entry: Entry, sorted: seq<Entry>): (r: seq<Entry>)
    ensures multiset(r) == multiset(sorted) + multiset{entry}
  {
    if sorted == [] then [entry]
    else if entry.element <= sorted[0].element then [entry] + sorted
    else
      assert sorted == [sorted[0]] + sorted[1..];
      [sorted[0]] + InsertEntry(entry, sorted[1..])
  }

  /** present.sort by data element. */
  function SortEntries(entries: seq<Entry>): (r: seq<Entry>)
    ensures multiset(r) == multiset(entries)
  {
    if entries == [] then []
    else
      assert entries == [entries[0]] + entries[1..];
      InsertEntry(entries[0], SortEntries(entries[1..]))
  }

  function Elements(entries: seq<Entry>): (r: seq<nat>)
    ensures |r| == |entries|
  {
    seq(|entries|, i requires 0 <= i < |entries| => entries[i].element)
  }

  function ElementSet(entries: seq<Entry>): set<nat> {
    set e | e in Elements(entries)
  }

  predicate HasSecondary(entries: seq<Entry>) {
    exists i :: 0 <= i < |entries| && entries[i].element > 64
  }

  function BitmapLength(entries: seq<Entry>): nat {
    if HasSecondary(entries) then 16 else 8
  }

  /** The elements a bitmap announces: the present ones, and 1 when a second bitmap follows. */
  function Announced(entries: seq<Entry>): set<nat> {
    (if HasSecondary(entries) then {1} else {}) + ElementSet(entries)
  }

  function ByteOf(elements: set<nat>, index: nat): bv8 {
    (if 8 * index + 1 in elements then 0x80 else 0) |
    (if 8 * index + 2 in elements then 0x40 else 0) |
    (if 8 * index + 3 in elements then 0x20 else 0) |
    (if 8 * index + 4 in elements then 0x10 else 0) |
    (if 8 * index + 5 in elements then 0x08 else 0) |
    (if 8 * index + 6 in elements then 0x04 else 0) |
    (if 8 * index + 7 in elements then 0x02 else 0) |
    (if 8 * index + 8 in elements then 0x01 else 0)
  }

  /** The bitmap of the given length announcing these elements. */
  function BitmapOf(elements: set<nat>, length: nat): (bitmap: Bits)
    ensures |bitmap| == length
  {
    seq(length, i requires 0 <= i < length => ByteOf(elements, i))
  }

  function EncodeMti(mti: string, encoding: MtiEncoding): Bytes {
    if encoding.AsciiMti? then (if IsAscii(mti) then AsciiBytes(mti) else [])
    else HexToBytes(mti).GetOr([])
  }

  function EncodeBitmap(bitmap: Bits, encoding: BitmapEncoding): Bytes {
    if encoding.BinaryBitmap? then ToWire(bitmap) else AsciiBytes(BytesToHex(ToWire(bitmap)))
  }

  function PackEntries(fieldsById: map<string, Field>, entries: seq<Entry>, fields: FieldSet): Result<Bytes, Failure> {
    if entries == [] then Ok([])
    else if entries[0].fieldId !in fieldsById || entries[0].fieldId !in fields then Err(ProfileInvalid)
    else
      var head :- PackField(fieldsById[entries[0].fieldId], fields[entries[0].fieldId]);
      var tail :- PackEntries(fieldsById, entries[1..], fields);
      Ok(head + tail)
  }

  function PackHeader(ctx: IsoContext, present: seq<Entry>): Bytes
    requires ctx.mti.Some?
  {
    EncodeMti(ctx.mti.value, ctx.mtiEncoding) +
    EncodeBitmap(BitmapOf(Announced(present), BitmapLength(present)), ctx.bitmapEncoding)
  }

  /** The present entries in wire order. */
  function SortedPresent(ctx: IsoContext, fields: FieldSet): Result<seq<Entry>, Failure> {
    var entries :- IsoUses(ctx, ctx.uses);
    var present :- PresentEntries(entries, fields);
    Ok(SortEntries(present))
  }

  function PackIso(ctx: IsoContext, fields: FieldSet): Result<Bytes, Failure> {
    if LacksMti(ctx) then Err(ProfileInvalid)
    else
      var present :- SortedPresent(ctx, fields);
      var body :- PackEntries(ctx.fieldsById, present, fields);
      var bytes := PackHeader(ctx, present) + body;
      if |bytes| > ctx.profileMaxBytes || |bytes| > ctx.serviceMaxBytes then Err(LimitExceeded) else Ok(bytes)
  }

  // ----- Unpacking -----

  function DecodeMti(bytes: Bytes, encoding: MtiEncoding): string {
    if encoding.AsciiMti? then CharsOf(bytes) else BytesToHex(bytes)
  }

  datatype BitmapRead = BitmapRead(bitmap: Bits, offset: nat) | BitmapStop(step: Step)

  /** One of the two bitmaps. */
  function ReadBitmapPart(encoding: BitmapEncoding, bytes: Bytes, offset: nat): (r: BitmapRead)
    requires offset <= |bytes|
    ensures r.BitmapRead? ==> |r.bitmap| == 8 && offset <= r.offset <= |bytes|
    ensures r.BitmapStop? ==> !r.step.Next? && (r.step.Soft? ==> r.step == Soft(map[], Truncated, offset))
  {
    var wireLength := if encoding.BinaryBitmap? then 8 else 16;
    if wireLength > |bytes| - offset then BitmapStop(Soft(map[], Truncated, offset))
    else
      var raw := bytes[offset..offset + wireLength];
      if encoding.BinaryBitmap? then BitmapRead(FromWire(raw), offset + wireLength)
      else
        var decoded := HexToBytes(CharsOf(raw));
        if decoded.None? then BitmapStop(Hard(BitmapInvalid))
        else BitmapRead(FromWire(decoded.value), offset + wireLength)
  }

  function ReadBitmaps(encoding: BitmapEncoding, bytes: Bytes, offset: nat): (r: BitmapRead)
    requires offset <= |bytes|
    ensures r.BitmapRead? ==> |r.bitmap| in {8, 16} && offset <= r.offset <= |bytes|
    ensures r.BitmapStop? ==> !r.step.Next? && (r.step.Soft? ==> r.step.offset <= |bytes|)
  {
    var primary := ReadBitmapPart(encoding, bytes, offset);
    if primary.BitmapStop? || primary.bitmap[0] & 0x80 == 0 then primary
    else
      var secondary := ReadBitmapPart(encoding, bytes, primary.offset);
      if secondary.BitmapStop? then secondary
      else BitmapRead(primary.bitmap + secondary.bitmap, secondary.offset)
  }

  /** The last entry for an element, as `new Map` keeps it. */
  function EntryOf(entries: seq<Entry>, element: nat): Option<Entry> {
    if entries == [] then None
    else
      var later := EntryOf(entries[1..], element);
      if later.Some? then later else if entries[0].element == element then Some(entries[0]) else None
  }

  predicate AllDefined(entries: seq<Entry>, elements: seq<nat>) {
    forall i :: 0 <= i < |elements| ==> EntryOf(entries, elements[i]).Some?
  }

  predicate AllRequired(entries: seq<Entry>, elements: seq<nat>) {
    forall i :: 0 <= i < |entries| && entries[i].presence.Required? ==> entries[i].element in elements
  }

  function UnpackElements(
    ctx: IsoContext, entries: seq<Entry>, elements: seq<nat>, bytes: Bytes, offset: nat, fields: FieldSet): (s: Step)
    requires offset <= |bytes| && AllDefined(entries, elements)
    ensures s.Next? || s.Soft? ==> offset <= s.offset <= |bytes|
    decreases |elements|
  {
    if elements == [] then Next(fields, offset)
    else
      var entry := EntryOf(entries, elements[0]).value;
      if entry.fieldId !in ctx.fieldsById then Hard(ProfileInvalid)
      else if entry.presence.Forbidden? then Hard(ForbiddenField)
      else
        var step := UnpackScalar(ctx.fieldsById[entry.fieldId], entry.fieldId, bytes, offset, fields, fields);
        if step.Next? then UnpackElements(ctx, entries, elements[1..], bytes, step.offset, step.fields) else step
  }

  /** Everything after the header. */
  function UnpackPresent(ctx: IsoContext, elements: seq<nat>, bytes: Bytes, offset: nat): (s: Step)
    requires offset <= |bytes|
    ensures s.Next? || s.Soft? ==> offset <= s.offset <= |bytes|
  {
    var entries := IsoUses(ctx, ctx.uses);
    if entries.Err? then Hard(entries.error)
    else if !AllDefined(entries.value, elements) then Hard(UndefinedDataElement)
    else if !AllRequired(entries.value, elements) then Hard(RequiredFieldMissing)
    else UnpackElements(ctx, entries.value, elements, bytes, offset, map[])
  }

  function MtiLength(encoding: MtiEncoding): nat {
    if encoding.AsciiMti? then 4 else 2
  }

  function UnpackIsoStep(ctx: IsoContext, bytes: Bytes): (s: Step)
    ensures s.Soft? ==> s.offset <= |bytes|
  {
    var mtiLength := MtiLength(ctx.mtiEncoding);
    if LacksMti(ctx) then Hard(ProfileInvalid)
    else if mtiLength > |bytes| then Soft(map[], Truncated, 0)
    else if DecodeMti(bytes[..mtiLength], ctx.mtiEncoding) != ctx.mti.value then Hard(MtiInvalid)
    else
      var read := ReadBitmaps(ctx.bitmapEncoding, bytes, mtiLength);
      if read.BitmapStop? then read.step
      else UnpackPresent(ctx, ReadElements(read.bitmap), bytes, read.offset)
  }

  function UnpackIso(ctx: IsoContext, bytes: Bytes, allowPartial: bool): Outcome {
    Finish(UnpackIsoStep(ctx, bytes), |bytes|, allowPartial)
  }

  // ----- The codec as the source runs it -----

  lemma ByteBits(elements: set<nat>, index: nat, k: nat)
    requires k < 8
    ensures Bit(ByteOf(elements, index), k) <==> 8 * index + k + 1 in elements
  {
  }

  lemma BitmapHolds(elements: set<nat>, length: nat)
    ensures Holds(BitmapOf(elements, length), elements)
  {
    forall e | 1 <= e <= 8 * length
      ensures HasElement(BitmapOf(elements, length), e) <==> e in elements
    {
      ByteBits(elements, (e - 1) / 8, (e - 1) % 8);
    }
  }

  lemma SameBits(a: bv8, b: bv8)
    requires forall k :: 0 <= k < 8 ==> (Bit(a, k) <==> Bit(b, k))
    ensures a == b
  {
    assert Bit(a, 0) <==> Bit(b, 0);
    assert Bit(a, 1) <==> Bit(b, 1);
    assert Bit(a, 2) <==> Bit(b, 2);
    assert Bit(a, 3) <==> Bit(b, 3);
    assert Bit(a, 4) <==> Bit(b, 4);
    assert Bit(a, 5) <==> Bit(b, 5);
    assert Bit(a, 6) <==> Bit(b, 6);
    assert Bit(a, 7) <==> Bit(b, 7);
  }

  /** A bitmap is determined by the elements it holds. */
  lemma HoldsIsUnique(a: Bits, b: Bits, elements: set<nat>)
    requires |a| == |b| && Holds(a, elements) && Holds(b, elements)
    ensures a == b
  {
    hide Bit;
    forall i | 0 <= i < |a|
      ensures a[i] == b[i]
    {
      forall k | 0 <= k < 8
        ensures Bit(a[i], k) <==> Bit(b[i], k)
      {
        var e := 8 * i + k + 1;
        assert (e - 1) / 8 == i && (e - 1) % 8 == k;
        assert HasElement(a, e) <==> e in elements;
        assert HasElement(b, e) <==> e in elements;
      }
      SameBits(a[i], b[i]);
    }
  }

  class Iso8583MessageCodec {
    constructor () {
    }

    /** The bitmap buffer, with bit 1 announcing a second half and one bit set per present entry. */
    method BuildBitmap(present: seq<Entry>) returns (bitmap: Bits)
      requires forall i :: 0 <= i < |present| ==> 2 <= present[i].element <= 128
      ensures bitmap == BitmapOf(Announced(present), BitmapLength(present))
    {
      hide HasElement;
      var hasSecondary := exists i :: 0 <= i < |present| && present[i].element > 64;
      var buffer := new bv8[if hasSecondary then 16 else 8](_ => 0);
      EmptyHoldsNothing(buffer[..]);
      ghost var announced: set<nat> := {};
      if hasSecondary {
        SetBitmapBit(buffer, 1);
        announced := {1};
      }
      var k := 0;
      while k < |present|
        invariant 0 <= k <= |present|
        invariant buffer.Length == BitmapLength(present)
        invariant Holds(buffer[..], announced + ElementSet(present[..k]))
      {
        ElementsPush(present, k);
        ghost var before := buffer[..];
        SetBitmapBit(buffer, present[k].element);
        HoldsPush(before, buffer[..], announced + ElementSet(present[..k]), present[k].element);
        assert announced + ElementSet(present[..k + 1])
            == (announced + ElementSet(present[..k])) + {present[k].element};
        k := k + 1;
      }
      assert present[..k] == present;
      BitmapHolds(Announced(present), BitmapLength(present));
      HoldsIsUnique(buffer[..], BitmapOf(Announced(present), BitmapLength(present)), Announced(present));
      return buffer[..];
    }

    lemma EmptyHoldsNothing(bitmap: Bits)
      requires forall i :: 0 <= i < |bitmap| ==> bitmap[i] == 0
      ensures Holds(bitmap, {})
    {
    }

    lemma HoldsPush(before: Bits, after: Bits, elements: set<nat>, element: nat)
      requires |before| == |after| && Holds(before, elements)
      requires forall e :: 1 <= e <= 8 * |after| ==>
                 (HasElement(after, e) <==> e == element || HasElement(before, e))
      ensures Holds(after, elements + {element})
    {
    }

    lemma ElementsPush(present: seq<Entry>, k: nat)
      requires k < |present|
      ensures ElementSet(present[..k + 1]) == ElementSet(present[..k]) + {present[k].element}
    {
      assert Elements(present[..k + 1]) == Elements(present[..k]) + [present[k].element];
    }

    /** The presence checks of pack, entry by entry. */
    method CollectPresent(entries: seq<Entry>, fields: FieldSet) returns (r: Result<seq<Entry>, Failure>)
      ensures r == PresentEntries(entries, fields)
    {
      var present: seq<Entry> := [];
      var k := 0;
      assert entries[0..] == entries;
      ghost var whole := PresentEntries(entries, fields);
      assert whole.Ok? ==> [] + whole.value == whole.value;
      while k < |entries|
        invariant 0 <= k <= |entries|
        invariant var rest := PresentEntries(entries[k..], fields);
                  whole == if rest.Ok? then Ok(present + rest.value) else rest
      {
        var entry := entries[k];
        assert entries[k..][0] == entry && entries[k..][1..] == entries[k + 1..];
        var given := entry.fieldId in fields;
        if entry.presence.Forbidden? && given {
          return Err(ForbiddenField);
        }
        if entry.presence.Required? && !given {
          return Err(FieldMissing);
        }
        ghost var rest := PresentEntries(entries[k + 1..], fields);
        if given {
          assert rest.Ok? ==> present + ([entry] + rest.value) == present + [entry] + rest.value;
          present := present + [entry];
        }
        k := k + 1;
      }
      assert present + [] == present;
      return Ok(present);
    }

    method Pack(ctx: IsoContext, fields: FieldSet) returns (r: Result<Bytes, Failure>)
      requires forall id :: id in ctx.fieldsById && ctx.fieldsById[id].dataElement.Some? ==>
                 2 <= ctx.fieldsById[id].dataElement.value <= 128
      ensures r == PackIso(ctx, fields)
    {
      hide PackField, Concat, EncodeBitmap, BitmapOf, EncodeMti, SortEntries, PresentEntries, Announced, IsoUses;
      if LacksMti(ctx) {
        return Err(ProfileInvalid);
      }
      var entries := IsoUses(ctx, ctx.uses);
      if entries.Err? {
        return Err(entries.error);
      }
      var present := CollectPresent(entries.value, fields);
      if present.Err? {
        return Err(present.error);
      }
      var sorted := SortEntries(present.value);
      PresentInRange(ctx, ctx.uses, fields);
      var bitmap := BuildBitmap(sorted);
      var header := EncodeMti(ctx.mti.value, ctx.mtiEncoding) + EncodeBitmap(bitmap, ctx.bitmapEncoding);
      var parts: seq<Bytes> := [];
      AfterNothing(PackEntries(ctx.fieldsById, sorted, fields));
      assert sorted[0..] == sorted;
      var k := 0;
      while k < |sorted|
        invariant 0 <= k <= |sorted|
        invariant PackEntries(ctx.fieldsById, sorted, fields)
                  == After(Concat(parts), PackEntries(ctx.fieldsById, sorted[k..], fields))
      {
        assert sorted[k..][0] == sorted[k] && sorted[k..][1..] == sorted[k + 1..];
        if sorted[k].fieldId !in ctx.fieldsById || sorted[k].fieldId !in fields {
          return Err(ProfileInvalid);
        }
        var packed := PackField(ctx.fieldsById[sorted[k].fieldId], fields[sorted[k].fieldId]);
        if packed.Err? {
          return packed;
        }
        AfterPart(parts, packed.value, PackEntries(ctx.fieldsById, sorted[k + 1..], fields));
        parts := parts + [packed.value];
        k := k + 1;
      }
      var body := ConcatBytes(parts);
      assert body + [] == body;
      var bytes := header + body;
      if |bytes| > ctx.profileMaxBytes || |bytes| > ctx.serviceMaxBytes {
        return Err(LimitExceeded);
      }
      return Ok(bytes);
    }

    method UnpackElementsLoop(ctx: IsoContext, entries: seq<Entry>, elements: seq<nat>, cursor: ByteCursor)
      returns (step: Step)
      requires cursor.Valid() && AllDefined(entries, elements)
      modifies cursor
      ensures cursor.Valid()
      ensures step == UnpackElements(ctx, entries, elements, cursor.source, old(cursor.position), map[])
    {
      hide UnpackScalar, EntryOf;
      var codec := new FixedFieldMessageCodec();
      var fields: FieldSet := map[];
      var k := 0;
      assert elements[0..] == elements;
      while k < |elements|
        invariant 0 <= k <= |elements| && cursor.Valid() && AllDefined(entries, elements[k..])
        invariant UnpackElements(ctx, entries, elements, cursor.source, old(cursor.position), map[])
                  == UnpackElements(ctx, entries, elements[k..], cursor.source, cursor.position, fields)
      {
        assert elements[k..][0] == elements[k] && elements[k..][1..] == elements[k + 1..];
        var entry := EntryOf(entries, elements[k]).value;
        if entry.fieldId !in ctx.fieldsById {
          return Hard(ProfileInvalid);
        }
        if entry.presence.Forbidden? {
          return Hard(ForbiddenField);
        }
        step := codec.ReadScalar(ctx.fieldsById[entry.fieldId], entry.fieldId, cursor, fields, fields);
        if !step.Next? {
          return;
        }
        fields := step.fields;
        k := k + 1;
      }
      return Next(fields, cursor.position);
    }

    method ReadBitmapPartFrom(encoding: BitmapEncoding, cursor: ByteCursor) returns (read: BitmapRead)
      requires cursor.Valid()
      modifies cursor
      ensures cursor.Valid()
      ensures read == ReadBitmapPart(encoding, cursor.source, old(cursor.position))
      ensures read.BitmapRead? ==> cursor.position == read.offset
    {
      var wireLength := if encoding.BinaryBitmap? then 8 else 16;
      ghost var start := cursor.position;
      var raw := cursor.Read(wireLength);
      if raw.None? {
        return BitmapStop(Soft(map[], Truncated, cursor.position));
      }
      assert raw.value == cursor.source[start..start + wireLength];
      if encoding.BinaryBitmap? {
        return BitmapRead(FromWire(raw.value), cursor.position);
      }
      var decoded := HexToBytes(CharsOf(raw.value));
      return if decoded.None? then BitmapStop(Hard(BitmapInvalid))
        else BitmapRead(FromWire(decoded.value), cursor.position);
    }

    method Unpack(ctx: IsoContext, bytes: Bytes, allowPartial: bool) returns (outcome: Outcome)
      ensures outcome == UnpackIso(ctx, bytes, allowPartial)
    {
      hide UnpackElements, ReadBitmapPart, HasElement;
      if LacksMti(ctx) {
        return Failed(ProfileInvalid);
      }
      var cursor := new ByteCursor(bytes);
      var rawMti := cursor.Read(MtiLength(ctx.mtiEncoding));
      if rawMti.None? {
        return Finish(Soft(map[], Truncated, 0), |bytes|, allowPartial);
      }
      assert cursor.source[0..][..MtiLength(ctx.mtiEncoding)] == bytes[..MtiLength(ctx.mtiEncoding)];
      if DecodeMti(rawMti.value, ctx.mtiEncoding) != ctx.mti.value {
        return Failed(MtiInvalid);
      }
      var read := ReadBitmapPartFrom(ctx.bitmapEncoding, cursor);
      if read.BitmapRead? && read.bitmap[0] & 0x80 != 0 {
        var secondary := ReadBitmapPartFrom(ctx.bitmapEncoding, cursor);
        read := if secondary.BitmapStop? then secondary
          else BitmapRead(read.bitmap + secondary.bitmap, secondary.offset);
      }
      assert read == ReadBitmaps(ctx.bitmapEncoding, bytes, MtiLength(ctx.mtiEncoding));
      if read.BitmapStop? {
        return Finish(read.step, |bytes|, allowPartial);
      }
      var elements := ReadBitmapElements(read.bitmap);
      var entries := IsoUses(ctx, ctx.uses);
      if entries.Err? {
        return Failed(entries.error);
      }
      if !AllDefined(entries.value, elements) {
        return Failed(UndefinedDataElement);
      }
      if !AllRequired(entries.value, elements) {
        return Failed(RequiredFieldMissing);
      }
      var step := UnpackElementsLoop(ctx, entries.value, elements, cursor);
      return Finish(step, |bytes|, allowPartial);
    }
  }

  /** Entries taken from the field table have its data elements. */
  predicate EntriesInRange(entries: seq<Entry>) {
    forall i :: 0 <= i < |entries| ==> 2 <= entries[i].element <= 128
  }

  lemma {:induction false} UsesInRange(ctx: IsoContext, uses: seq<Use>)
    requires forall id :: id in ctx.fieldsById && ctx.fieldsById[id].dataElement.Some? ==>
               2 <= ctx.fieldsById[id].dataElement.value <= 128
    requires IsoUses(ctx, uses).Ok?
    ensures EntriesInRange(IsoUses(ctx, uses).value)
  {
    if uses != [] {
      UsesInRange(ctx, uses[1..]);
    }
  }

  lemma {:induction false} PresentAreEntries(entries: seq<Entry>, fields: FieldSet)
    requires PresentEntries(entries, fields).Ok?
    ensures forall e :: e in PresentEntries(entries, fields).value <==> e in entries && e.fieldId in fields
    ensures forall e :: e in PresentEntries(entries, fields).value ==> !e.presence.Forbidden?
    ensures forall e :: e in entries && e.presence.Required? ==> e.fieldId in fields
  {
    if entries != [] {
      PresentAreEntries(entries[1..], fields);
    }
  }

  lemma SortedAreEntries(entries: seq<Entry>)
    ensures forall e :: e in SortEntries(entries) <==> e in entries
  {
    forall e
      ensures e in SortEntries(entries) <==> e in entries
    {
      assert e in multiset(SortEntries(entries)) <==> e in multiset(entries);
    }
  }

  lemma PresentInRange(ctx: IsoContext, uses: seq<Use>, fields: FieldSet)
    requires forall id :: id in ctx.fieldsById && ctx.fieldsById[id].dataElement.Some? ==>
               2 <= ctx.fieldsById[id].dataElement.value <= 128
    requires IsoUses(ctx, uses).Ok? && PresentEntries(IsoUses(ctx, uses).value, fields).Ok?
    ensures EntriesInRange(SortEntries(PresentEntries(IsoUses(ctx, uses).value, fields).value))
  {
    var entries := IsoUses(ctx, uses).value;
    var present := PresentEntries(entries, fields).value;
    UsesInRange(ctx, uses);
    PresentAreEntries(entries, fields);
    SortedAreEntries(present);
    forall i | 0 <= i < |SortEntries(present)|
      ensures 2 <= SortEntries(present)[i].element <= 128
    {
      assert SortEntries(present)[i] in present;
    }
  }
}
