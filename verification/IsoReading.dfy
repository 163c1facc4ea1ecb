/**
 * When bytes are an ISO message, and of which fields: the type, the bitmap and the fields it announces lie in them one
 * after another, and the presence rules hold. The decoder answers completely exactly then.
 */
module IsoReading {
  import opened Prelude
  import opened ByteText
  import opened FieldCodecs
  import opened FieldWire
  import opened FixedField
  import opened Bitmap
  import opened Iso8583
  import opened IsoRoundTrip
  import opened WireLayout
  import opened MessageReading
  import opened MessagePacking
  import FixedFieldRoundTrip

  // ----- The header -----

  /** The type as it stands in the bytes, one digit a byte or two. */
  predicate MtiAt(mti: string, encoding: MtiEncoding, bytes: Bytes, at: nat) {
    match encoding
    case AsciiMti => at == 4 <= |bytes| && |mti| == 4 && forall i | 0 <= i < 4 :: bytes[i] as char == mti[i]
    case BcdMti => at == 2 <= |bytes| && |mti| == 4 && forall j | 0 <= j < 4 :: HexChar(HalfByte(bytes, j)) == mti[j]
  }

  /** Eight bytes of bitmap, raw or as hexadecimal text of either case. */
  predicate PartAt(part: Bits, encoding: BitmapEncoding, bytes: Bytes, from: nat, to: nat) {
    && |part| == 8 && to <= |bytes|
    && match encoding
       case BinaryBitmap => to == from + 8 && forall i | 0 <= i < 8 :: bytes[from + i] as bv8 == part[i]
       case HexBitmap =>
         to == from + 16 && forall i | 0 <= i < 8 ::
           && HexValue(bytes[from + 2 * i] as char).Some? && HexValue(bytes[from + 2 * i + 1] as char).Some?
           && part[i] == (16 * HexValue(bytes[from + 2 * i] as char).value
                          + HexValue(bytes[from + 2 * i + 1] as char).value) as bv8
  }

  /** One part, or two where the first bit of the first is set. */
  predicate BitmapAt(bitmap: Bits, encoding: BitmapEncoding, bytes: Bytes, from: nat, to: nat) {
    |bitmap| in {8, 16} &&
    var mid := from + if encoding.BinaryBitmap? then 8 else 16;
    && PartAt(bitmap[..8], encoding, bytes, from, mid)
    && (IsSet(bitmap, 1) <==> |bitmap| == 16)
    && if |bitmap| == 8 then to == mid else PartAt(bitmap[8..], encoding, bytes, mid, to)
  }

  lemma MtiIff(mti: string, encoding: MtiEncoding, bytes: Bytes, at: nat)
    requires FourDigits(mti)
    ensures MtiAt(mti, encoding, bytes, at) <==>
            at == MtiLength(encoding) <= |bytes| && DecodeMti(bytes[..at], encoding) == mti
  {
    hide HalfByte, BytesToHex, HexChar;
    if at <= |bytes| && encoding.BcdMti? && at == 2 {
      forall j | 0 <= j < 4
        ensures BytesToHex(bytes[..at])[j] == HexChar(HalfByte(bytes, j))
      {
        PrintedNibbles(bytes[..at], j);
        HalfByteOfPart(bytes, at, j);
      }
    }
  }

  lemma HalfByteOfPart(bytes: Bytes, at: nat, j: nat)
    requires at <= |bytes| && j < 2 * at
    ensures HalfByte(bytes[..at], j) == HalfByte(bytes, j)
  {
  }

  lemma PartIff(part: Bits, encoding: BitmapEncoding, bytes: Bytes, from: nat, to: nat)
    requires from <= |bytes|
    ensures ReadBitmapPart(encoding, bytes, from) == BitmapRead(part, to) <==> PartAt(part, encoding, bytes, from, to)
  {
    if encoding.BinaryBitmap? {
      if from + 8 <= |bytes| {
        BinaryPartIff(part, bytes, from);
      }
    } else if from + 16 <= |bytes| {
      HexPartIff(part, bytes, from);
    }
  }

  lemma BinaryPartIff(part: Bits, bytes: Bytes, from: nat)
    requires from + 8 <= |bytes|
    ensures FromWire(bytes[from..from + 8]) == part
            <==> |part| == 8 && forall i | 0 <= i < 8 :: bytes[from + i] as bv8 == part[i]
  {
    var wire := FromWire(bytes[from..from + 8]);
    assert forall i | 0 <= i < 8 :: wire[i] == bytes[from + i] as bv8;
  }

  lemma HexPartIff(part: Bits, bytes: Bytes, from: nat)
    requires from + 16 <= |bytes|
    ensures
      var decoded := HexToBytes(CharsOf(bytes[from..from + 16]));
      decoded.Some? && FromWire(decoded.value) == part <==> PartAt(part, HexBitmap, bytes, from, from + 16)
  {
    var raw := bytes[from..from + 16];
    var text := CharsOf(raw);
    forall i | 0 <= i < 8
      ensures text[2 * i] == bytes[from + 2 * i] as char && text[2 * i + 1] == bytes[from + 2 * i + 1] as char
    {
      assert raw[2 * i] == bytes[from + 2 * i] && raw[2 * i + 1] == bytes[from + 2 * i + 1];
    }
    HexPairsIff(text);
    var decoded := HexToBytes(text);
    if decoded.Some? {
      var wire := FromWire(decoded.value);
      forall i | 0 <= i < 8
        ensures wire[i] == (16 * HexValue(text[2 * i]).value + HexValue(text[2 * i + 1]).value) as bv8
      {
        assert decoded.value[i] == HexByteAt(text, i);
      }
      if PartAt(part, HexBitmap, bytes, from, from + 16) {
        assert wire == part;
      }
    }
  }

  lemma HexPairsIff(text: string)
    requires |text| == 16
    ensures IsHexPairs(text) <==>
            forall i | 0 <= i < 8 :: HexValue(text[2 * i]).Some? && HexValue(text[2 * i + 1]).Some?
  {
    hide HexValue;
    if forall i | 0 <= i < 8 :: HexValue(text[2 * i]).Some? && HexValue(text[2 * i + 1]).Some? {
      forall k | 0 <= k < 16
        ensures HexValue(text[k]).Some?
      {
        assert HexValue(text[2 * (k / 2)]).Some? && HexValue(text[2 * (k / 2) + 1]).Some?;
        assert k == 2 * (k / 2) || k == 2 * (k / 2) + 1;
      }
    }
  }

  lemma BitmapIff(bitmap: Bits, encoding: BitmapEncoding, bytes: Bytes, from: nat, to: nat)
    requires from <= |bytes|
    ensures ReadBitmaps(encoding, bytes, from) == BitmapRead(bitmap, to)
            <==> BitmapAt(bitmap, encoding, bytes, from, to)
  {
    hide ReadBitmapPart, PartAt;
    var mid := from + if encoding.BinaryBitmap? then 8 else 16;
    if |bitmap| in {8, 16} {
      var first, second := bitmap[..8], bitmap[8..];
      assert bitmap == first + second;
      PartIff(first, encoding, bytes, from, mid);
      if mid <= |bytes| {
        PartIff(second, encoding, bytes, mid, to);
      }
      FirstBit(bitmap);
      SplitAtEight(bitmap);
    }
    PartEnds(encoding, bytes, from);
  }

  lemma FirstBit(bitmap: Bits)
    requires |bitmap| >= 8
    ensures IsSet(bitmap, 1) <==> bitmap[..8][0] & 0x80 != 0
  {
  }

  lemma SplitAtEight(bitmap: Bits)
    requires |bitmap| in {8, 16}
    ensures forall a: Bits, b: Bits :: |a| == 8 && a + b == bitmap ==> a == bitmap[..8] && b == bitmap[8..]
  {
  }

  lemma PartEnds(encoding: BitmapEncoding, bytes: Bytes, from: nat)
    requires from <= |bytes|
    ensures
      var read := ReadBitmapPart(encoding, bytes, from);
      read.BitmapRead? ==> read.offset == from + (if encoding.BinaryBitmap? then 8 else 16) && |read.bitmap| == 8
  {
  }

  // ----- The fields -----

  /** The fields of some entries lie one after another. */
  predicate EntriesAt(
    fieldsById: map<string, Field>, todo: seq<Entry>, bytes: Bytes, from: nat, to: nat, fields: FieldSet)
    decreases |todo|
  {
    if todo == [] then from == to
    else exists mid: nat | mid <= |bytes| ::
      FieldAt(fieldsById, todo[0].fieldId, bytes, from, mid, fields)
      && EntriesAt(fieldsById, todo[1..], bytes, mid, to, fields)
  }

  function Ids(entries: seq<Entry>): set<string> {
    set entry | entry in entries :: entry.fieldId
  }

  lemma FirstId(todo: seq<Entry>)
    requires todo != []
    ensures Ids(todo) == {todo[0].fieldId} + Ids(todo[1..])
  {
    assert todo == [todo[0]] + todo[1..];
  }

  lemma {:induction false} EntriesAreRead(
    ctx: IsoContext, entries: seq<Entry>, todo: seq<Entry>, bytes: Bytes, from: nat, to: nat, fields: FieldSet,
    got: FieldSet)
    requires Resolved(entries, todo) && AllDefined(entries, Elements(todo)) && from <= |bytes|
    requires EntriesAt(ctx.fieldsById, todo, bytes, from, to, fields)
    ensures UnpackElements(ctx, entries, Elements(todo), bytes, from, got) == Next(got + Part(fields, Ids(todo)), to)
    decreases |todo|
  {
    hide UnpackField, EntryOf, Part, Ids;
    if todo == [] {
      NoIds(fields, got);
    } else {
      var id := todo[0].fieldId;
      var mid: nat :| mid <= |bytes| && FieldAt(ctx.fieldsById, id, bytes, from, mid, fields)
        && EntriesAt(ctx.fieldsById, todo[1..], bytes, mid, to, fields);
      ResolvedDefined(entries, todo);
      ResolvedDefined(entries, todo[1..]);
      EntriesAreRead(ctx, entries, todo[1..], bytes, mid, to, fields, got[id := fields[id]]);
      PartOfFirst(fields, todo, got);
    }
  }

  lemma NoIds(fields: FieldSet, got: FieldSet)
    ensures got + Part(fields, Ids([])) == got
  {
  }

  lemma PartOfFirst(fields: FieldSet, todo: seq<Entry>, got: FieldSet)
    requires todo != [] && todo[0].fieldId in fields
    ensures got[todo[0].fieldId := fields[todo[0].fieldId]] + Part(fields, Ids(todo[1..]))
         == got + Part(fields, Ids(todo))
  {
    FirstId(todo);
  }

  predicate OwnIds(todo: seq<Entry>) {
    forall i, j | 0 <= i < j < |todo| :: todo[i].fieldId != todo[j].fieldId
  }

  lemma {:induction false} EntriesAreAt(
    ctx: IsoContext, entries: seq<Entry>, todo: seq<Entry>, bytes: Bytes, from: nat, got: FieldSet)
    requires Resolved(entries, todo) && AllDefined(entries, Elements(todo)) && from <= |bytes| && OwnIds(todo)
    requires UnpackElements(ctx, entries, Elements(todo), bytes, from, got).Next?
    ensures
      var step := UnpackElements(ctx, entries, Elements(todo), bytes, from, got);
      && EntriesAt(ctx.fieldsById, todo, bytes, from, step.offset, step.fields)
      && step.fields.Keys == got.Keys + Ids(todo)
      && forall key | key in got && key !in Ids(todo) :: step.fields[key] == got[key]
    decreases |todo|
  {
    hide UnpackField, EntryOf, Ids;
    if todo == [] {
      NoEntryHasNoId();
    } else {
      var id := todo[0].fieldId;
      FirstId(todo);
      ResolvedDefined(entries, todo);
      ResolvedDefined(entries, todo[1..]);
      OtherIds(todo);
      var step := UnpackScalar(ctx.fieldsById[id], id, bytes, from, got, got);
      EntriesAreAt(ctx, entries, todo[1..], bytes, step.offset, step.fields);
      var last := UnpackElements(ctx, entries, Elements(todo), bytes, from, got);
      assert FieldAt(ctx.fieldsById, id, bytes, from, step.offset, last.fields);
    }
  }

  lemma NoEntryHasNoId()
    ensures Ids([]) == {}
  {
  }

  lemma OtherIds(todo: seq<Entry>)
    requires todo != [] && OwnIds(todo)
    ensures OwnIds(todo[1..]) && todo[0].fieldId !in Ids(todo[1..])
  {
    var rest := todo[1..];
    assert forall i | 0 <= i < |rest| :: rest[i] == todo[i + 1];
  }

  // ----- Messages -----

  /** The entries a bitmap announces, by ascending data element. */
  predicate Announces(bitmap: Bits, entries: seq<Entry>, todo: seq<Entry>) {
    && (forall k | 0 <= k < |todo| :: todo[k] in entries)
    && (forall k | 0 < k < |todo| :: todo[k - 1].element < todo[k].element)
    && (forall k | 0 <= k < |todo| :: 2 <= todo[k].element <= 8 * |bitmap| && IsSet(bitmap, todo[k].element))
    && (forall e | 2 <= e <= 8 * |bitmap| && IsSet(bitmap, e) :: e in Elements(todo))
  }

  /** Type, bitmap and announced fields lie one after another up to the last byte, and the presence rules hold. */
  predicate MessageAt(
    ctx: IsoContext, entries: seq<Entry>, bytes: Bytes, head: nat, bitmap: Bits, body: nat, todo: seq<Entry>,
    fields: FieldSet)
    requires ctx.mti.Some?
  {
    && MtiAt(ctx.mti.value, ctx.mtiEncoding, bytes, head)
    && BitmapAt(bitmap, ctx.bitmapEncoding, bytes, head, body)
    && Announces(bitmap, entries, todo)
    && (forall k | 0 <= k < |todo| :: !todo[k].presence.Forbidden?)
    && (forall k | 0 <= k < |entries| && entries[k].presence.Required? :: entries[k] in todo)
    && EntriesAt(ctx.fieldsById, todo, bytes, body, |bytes|, fields)
    && fields.Keys == Ids(todo)
  }

  /** What a bitmap announces is what the decoder lists. */
  lemma AnnouncedIsListed(bitmap: Bits, entries: seq<Entry>, todo: seq<Entry>)
    requires bitmap != []
    ensures Announces(bitmap, entries, todo) <==>
            ReadElements(bitmap) == Elements(todo) && forall k | 0 <= k < |todo| :: todo[k] in entries
  {
    hide Announces, ReadElements;
    if Announces(bitmap, entries, todo) {
      AnnouncedAscends(bitmap, entries, todo);
    }
    if ReadElements(bitmap) == Elements(todo) && forall k | 0 <= k < |todo| :: todo[k] in entries {
      ListedIsAnnounced(bitmap, entries, todo);
    }
  }

  lemma AnnouncedAscends(bitmap: Bits, entries: seq<Entry>, todo: seq<Entry>)
    requires bitmap != [] && Announces(bitmap, entries, todo)
    ensures ReadElements(bitmap) == Elements(todo) && forall k | 0 <= k < |todo| :: todo[k] in entries
  {
    hide HasElement, IsSet;
    ElementsAreAscending(bitmap, 2);
    SetIsListed(bitmap);
    var elements := Elements(todo);
    assert forall k | 0 <= k < |todo| :: elements[k] == todo[k].element;
    StepsAscend(elements);
    hide ReadElements, Elements;
    forall e
      ensures e in ReadElements(bitmap) <==> e in elements
    {
      if e in elements {
        var k :| 0 <= k < |todo| && elements[k] == e;
        assert todo[k].element == e;
      }
    }
    AscendingIsUnique(ReadElements(bitmap), elements);
  }

  lemma ListedIsAnnounced(bitmap: Bits, entries: seq<Entry>, todo: seq<Entry>)
    requires bitmap != [] && ReadElements(bitmap) == Elements(todo)
    requires forall k | 0 <= k < |todo| :: todo[k] in entries
    ensures Announces(bitmap, entries, todo)
  {
    hide HasElement, IsSet;
    ElementsAreAscending(bitmap, 2);
    SetIsListed(bitmap);
    var elements := Elements(todo);
    hide ReadElements;
    forall k | 0 <= k < |todo|
      ensures todo[k].element == elements[k] && elements[k] in ReadElements(bitmap)
      ensures k > 0 ==> todo[k - 1].element < todo[k].element
    {
      assert k > 0 ==> elements[k - 1] < elements[k];
    }
  }

  lemma {:induction false} StepsAscend(elements: seq<nat>)
    requires forall k | 0 < k < |elements| :: elements[k - 1] < elements[k]
    ensures Ascending(elements)
  {
    if elements != [] {
      var n := |elements| - 1;
      StepsAscend(elements[..n]);
      forall i, j | 0 <= i < j < |elements|
        ensures elements[i] < elements[j]
      {
        if j == n && i < n - 1 {
          assert elements[..n][i] < elements[..n][n - 1];
        } else if j < n {
          assert elements[..n][i] < elements[..n][j];
        }
      }
    }
  }

  /** A defined element has one entry, and the decoder finds it. */
  lemma TodoIsResolved(entries: seq<Entry>, todo: seq<Entry>)
    requires DistinctEntries(entries)
    requires forall k | 0 <= k < |todo| :: todo[k] in entries && !todo[k].presence.Forbidden?
    ensures Resolved(entries, todo) && AllDefined(entries, Elements(todo))
  {
    hide OnePerElement;
    DistinctIsOnePerElement(entries);
    forall k | 0 <= k < |todo|
      ensures EntryOf(entries, todo[k].element) == Some(todo[k])
    {
      EntryIsFound(entries, todo[k]);
    }
    ResolvedDefined(entries, todo);
  }

  lemma {:induction false} FoundEntry(entries: seq<Entry>, element: nat)
    ensures
      var found := EntryOf(entries, element);
      found.Some? ==> found.value in entries && found.value.element == element
  {
    if entries != [] {
      FoundEntry(entries[1..], element);
    }
  }

  /** The entries of some defined elements. */
  function EntriesOf(entries: seq<Entry>, elements: seq<nat>): (todo: seq<Entry>)
    requires AllDefined(entries, elements)
    ensures |todo| == |elements|
  {
    seq(|elements|, i requires 0 <= i < |elements| => EntryOf(entries, elements[i]).value)
  }

  lemma {:induction false} ReadMeansPermitted(
    ctx: IsoContext, entries: seq<Entry>, elements: seq<nat>, bytes: Bytes, from: nat, got: FieldSet, i: nat)
    requires from <= |bytes| && AllDefined(entries, elements) && i < |elements|
    requires UnpackElements(ctx, entries, elements, bytes, from, got).Next?
    ensures !EntryOf(entries, elements[i]).value.presence.Forbidden?
    decreases |elements|
  {
    hide UnpackScalar, EntryOf;
    if i > 0 {
      var entry := EntryOf(entries, elements[0]).value;
      var step := UnpackScalar(ctx.fieldsById[entry.fieldId], entry.fieldId, bytes, from, got, got);
      ReadMeansPermitted(ctx, entries, elements[1..], bytes, step.offset, step.fields, i - 1);
    }
  }

  /** Required elements are announced exactly when required entries are. */
  lemma RequiredIff(entries: seq<Entry>, todo: seq<Entry>)
    requires DistinctEntries(entries) && forall k | 0 <= k < |todo| :: todo[k] in entries
    ensures AllRequired(entries, Elements(todo)) <==>
            forall k | 0 <= k < |entries| && entries[k].presence.Required? :: entries[k] in todo
  {
    forall k | 0 <= k < |entries|
      ensures entries[k] in todo <==> entries[k].element in Elements(todo)
    {
      if entries[k] in todo {
        var i :| 0 <= i < |todo| && todo[i] == entries[k];
        assert Elements(todo)[i] == entries[k].element;
      }
      if entries[k].element in Elements(todo) {
        var i :| 0 <= i < |todo| && Elements(todo)[i] == entries[k].element;
        assert todo[i] in entries;
      }
    }
  }

  lemma MessageIsComplete(
    ctx: IsoContext, bytes: Bytes, allowPartial: bool, head: nat, bitmap: Bits, body: nat, todo: seq<Entry>,
    fields: FieldSet)
    requires Accepted(ctx)
    requires MessageAt(ctx, IsoUses(ctx, ctx.uses).value, bytes, head, bitmap, body, todo, fields)
    ensures UnpackIso(ctx, bytes, allowPartial) == Complete(fields)
  {
    hide IsoUses, MtiAt, BitmapAt, Announces, EntriesAt, UnpackElements, ReadBitmaps, DistinctEntries, ReadElements;
    hide AllRequired, AllDefined, Resolved, DecodeMti, Ids;
    var entries := IsoUses(ctx, ctx.uses).value;
    MtiIff(ctx.mti.value, ctx.mtiEncoding, bytes, head);
    BitmapIff(bitmap, ctx.bitmapEncoding, bytes, head, body);
    AnnouncedIsListed(bitmap, entries, todo);
    TodoIsResolved(entries, todo);
    RequiredIff(entries, todo);
    EntriesAreRead(ctx, entries, todo, bytes, body, |bytes|, fields, map[]);
    PartWhole(fields, Ids(todo));
    FourIsNotNothing(ctx);
  }

  lemma FourIsNotNothing(ctx: IsoContext)
    requires Accepted(ctx)
    ensures !LacksMti(ctx)
  {
  }

  /** The entries the decoder went through. */
  lemma ListedTodo(entries: seq<Entry>, bitmap: Bits) returns (todo: seq<Entry>)
    requires bitmap != [] && AllDefined(entries, ReadElements(bitmap))
    ensures Announces(bitmap, entries, todo) && ReadElements(bitmap) == Elements(todo)
    ensures todo == EntriesOf(entries, ReadElements(bitmap)) && forall k | 0 <= k < |todo| :: todo[k] in entries
  {
    hide EntryOf, ReadElements, DistinctEntries, Announces;
    var elements := ReadElements(bitmap);
    todo := EntriesOf(entries, elements);
    forall i | 0 <= i < |elements|
      ensures todo[i] in entries && todo[i].element == elements[i]
    {
      FoundEntry(entries, elements[i]);
    }
    assert Elements(todo) == elements;
    AnnouncedIsListed(bitmap, entries, todo);
  }

  lemma TodoHasOwnIds(entries: seq<Entry>, bitmap: Bits, todo: seq<Entry>)
    requires DistinctEntries(entries) && Announces(bitmap, entries, todo)
    ensures OwnIds(todo)
  {
    hide OnePerElement, IsSet;
    DistinctIsOnePerElement(entries);
    assert forall k | 0 <= k < |todo| :: Elements(todo)[k] == todo[k].element;
    StepsAscend(Elements(todo));
    forall i, j | 0 <= i < j < |todo|
      ensures todo[i].fieldId != todo[j].fieldId
    {
      assert Elements(todo)[i] < Elements(todo)[j];
      assert todo[i] in entries && todo[j] in entries;
    }
  }

  lemma CompleteIsMessage(ctx: IsoContext, bytes: Bytes, allowPartial: bool)
    returns (head: nat, bitmap: Bits, body: nat, todo: seq<Entry>)
    requires Accepted(ctx) && UnpackIso(ctx, bytes, allowPartial).Complete?
    ensures MessageAt(ctx, IsoUses(ctx, ctx.uses).value, bytes, head, bitmap, body, todo,
                      UnpackIso(ctx, bytes, allowPartial).fields)
  {
    hide IsoUses, MtiAt, BitmapAt, Announces, EntriesAt, UnpackElements, ReadBitmaps, DistinctEntries, ReadElements;
    hide AllRequired, AllDefined, Resolved, DecodeMti, Ids, EntriesOf;
    var entries := IsoUses(ctx, ctx.uses).value;
    head := MtiLength(ctx.mtiEncoding);
    var read := ReadBitmaps(ctx.bitmapEncoding, bytes, head);
    bitmap, body := read.bitmap, read.offset;
    MtiIff(ctx.mti.value, ctx.mtiEncoding, bytes, head);
    BitmapIff(bitmap, ctx.bitmapEncoding, bytes, head, body);
    todo := ListedTodo(entries, bitmap);
    TodoHasOwnIds(entries, bitmap, todo);
    RequiredIff(entries, todo);
    forall k | 0 <= k < |todo|
      ensures !todo[k].presence.Forbidden?
    {
      PermittedAt(ctx, entries, ReadElements(bitmap), bytes, body, k);
    }
    TodoIsResolved(entries, todo);
    EntriesAreAt(ctx, entries, todo, bytes, body, map[]);
  }

  lemma PermittedAt(ctx: IsoContext, entries: seq<Entry>, elements: seq<nat>, bytes: Bytes, from: nat, k: nat)
    requires from <= |bytes| && AllDefined(entries, elements) && k < |elements|
    requires UnpackElements(ctx, entries, elements, bytes, from, map[]).Next?
    ensures !EntriesOf(entries, elements)[k].presence.Forbidden?
  {
    hide EntryOf, UnpackElements;
    ReadMeansPermitted(ctx, entries, elements, bytes, from, map[], k);
  }

  /** The bytes are a message of these fields. */
  ghost predicate IsMessage(ctx: IsoContext, bytes: Bytes, fields: FieldSet)
    requires Accepted(ctx)
  {
    exists head, bitmap, body, todo ::
      MessageAt(ctx, IsoUses(ctx, ctx.uses).value, bytes, head, bitmap, body, todo, fields)
  }

  /** Bytes decode completely to some fields exactly when they are a message of these fields. */
  lemma CompleteIff(ctx: IsoContext, bytes: Bytes, allowPartial: bool, fields: FieldSet)
    requires Accepted(ctx)
    ensures UnpackIso(ctx, bytes, allowPartial) == Complete(fields) <==> IsMessage(ctx, bytes, fields)
  {
    AcceptedHasEntries(ctx);
    assert ctx.mti.Some?;
    hide UnpackIso, Accepted, MessageAt;
    if UnpackIso(ctx, bytes, allowPartial) == Complete(fields) {
      var head, bitmap, body, todo := CompleteIsMessage(ctx, bytes, allowPartial);
    }
    if IsMessage(ctx, bytes, fields) {
      var head, bitmap, body, todo :|
        MessageAt(ctx, IsoUses(ctx, ctx.uses).value, bytes, head, bitmap, body, todo, fields);
      MessageIsComplete(ctx, bytes, allowPartial, head, bitmap, body, todo, fields);
    }
  }

  // ----- Refusals and partial results -----

  /** Another type, an element without a use and a missing required element are refused, in this order. */
  lemma Refusals(ctx: IsoContext, bytes: Bytes, head: nat, bitmap: Bits, body: nat, allowPartial: bool)
    requires Accepted(ctx) && head == MtiLength(ctx.mtiEncoding) <= |bytes|
    ensures
      var answer := UnpackIso(ctx, bytes, allowPartial);
      var entries := IsoUses(ctx, ctx.uses).value;
      var right := MtiAt(ctx.mti.value, ctx.mtiEncoding, bytes, head);
      && (!right ==> answer == Failed(MtiInvalid))
      && (right && BitmapAt(bitmap, ctx.bitmapEncoding, bytes, head, body) ==>
            if exists e | 2 <= e <= 8 * |bitmap| :: IsSet(bitmap, e) && !IsElement(entries, e)
            then answer == Failed(UndefinedDataElement)
            else (exists k | 0 <= k < |entries| ::
                    entries[k].presence.Required? && !IsSetIn(bitmap, entries[k].element)) ==>
              answer == Failed(RequiredFieldMissing))
  {
    hide IsoUses, MtiAt, BitmapAt, UnpackElements, ReadBitmaps, DistinctEntries, DecodeMti, IsElement, IsSet;
    MtiIff(ctx.mti.value, ctx.mtiEncoding, bytes, head);
    BitmapIff(bitmap, ctx.bitmapEncoding, bytes, head, body);
    FourIsNotNothing(ctx);
    var entries := IsoUses(ctx, ctx.uses).value;
    if bitmap != [] {
      DefinedIff(entries, bitmap);
      RequiredIsSet(entries, bitmap);
    }
  }

  /** Sixteen bytes of which one is no hexadecimal digit. */
  predicate BadPartAt(bytes: Bytes, from: nat) {
    from + 16 <= |bytes| && exists k | from <= k < from + 16 :: HexValue(bytes[k] as char).None?
  }

  /** Hexadecimal bitmaps with another character in either half are refused. */
  lemma BadBitmapIsRefused(ctx: IsoContext, bytes: Bytes, head: nat, first: Bits, allowPartial: bool)
    requires Accepted(ctx) && ctx.bitmapEncoding.HexBitmap? && MtiAt(ctx.mti.value, ctx.mtiEncoding, bytes, head)
    requires BadPartAt(bytes, head)
             || (PartAt(first, HexBitmap, bytes, head, head + 16) && IsSet(first, 1) && BadPartAt(bytes, head + 16))
    ensures UnpackIso(ctx, bytes, allowPartial) == Failed(BitmapInvalid)
  {
    hide IsoUses, MtiAt, UnpackPresent, DistinctEntries, DecodeMti, PartAt, ReadBitmapPart, BadPartAt;
    MtiIff(ctx.mti.value, ctx.mtiEncoding, bytes, head);
    FourIsNotNothing(ctx);
    if BadPartAt(bytes, head) {
      BadPartStops(bytes, head);
    } else {
      PartIff(first, HexBitmap, bytes, head, head + 16);
      assert IsSet(first, 1) <==> first[0] & 0x80 != 0;
      BadPartStops(bytes, head + 16);
    }
  }

  lemma BadPartStops(bytes: Bytes, from: nat)
    requires BadPartAt(bytes, from)
    ensures from <= |bytes| && ReadBitmapPart(HexBitmap, bytes, from) == BitmapStop(Hard(BitmapInvalid))
  {
    var k :| from <= k < from + 16 && HexValue(bytes[k] as char).None?;
    var text := CharsOf(bytes[from..from + 16]);
    assert text[k - from] == bytes[k] as char;
    assert !IsHexPairs(text);
  }

  predicate IsElement(entries: seq<Entry>, element: nat) {
    exists entry | entry in entries :: entry.element == element
  }

  predicate IsSetIn(bitmap: Bits, e: nat) {
    2 <= e <= 8 * |bitmap| && IsSet(bitmap, e)
  }

  lemma DefinedIff(entries: seq<Entry>, bitmap: Bits)
    requires bitmap != []
    ensures AllDefined(entries, ReadElements(bitmap)) <==>
            forall e | 2 <= e <= 8 * |bitmap| && IsSet(bitmap, e) :: IsElement(entries, e)
  {
    hide IsSet, HasElement, EntryOf;
    SetIsListed(bitmap);
    var elements := ReadElements(bitmap);
    forall e: nat
      ensures EntryOf(entries, e).Some? <==> IsElement(entries, e)
    {
      FoundEntry(entries, e);
      if EntryOf(entries, e).None? {
        NotFound(entries, e);
      }
    }
    if forall e | 2 <= e <= 8 * |bitmap| && IsSet(bitmap, e) :: IsElement(entries, e) {
      assert forall i | 0 <= i < |elements| :: elements[i] in elements && IsElement(entries, elements[i]);
    }
  }

  lemma {:induction false} NotFound(entries: seq<Entry>, element: nat)
    requires EntryOf(entries, element).None?
    ensures !IsElement(entries, element)
  {
    if entries != [] {
      NotFound(entries[1..], element);
      assert entries == [entries[0]] + entries[1..];
    }
  }

  lemma SetIsListed(bitmap: Bits)
    requires bitmap != []
    ensures forall e :: e in ReadElements(bitmap) <==> 2 <= e <= 8 * |bitmap| && IsSet(bitmap, e)
  {
    hide HasElement, IsSet;
    ElementsAreAscending(bitmap, 2);
    forall e | 2 <= e <= 8 * |bitmap|
      ensures IsSet(bitmap, e) <==> e in ReadElements(bitmap)
    {
      SetIsHeld(bitmap, e);
    }
  }

  lemma RequiredIsSet(entries: seq<Entry>, bitmap: Bits)
    requires bitmap != []
    ensures AllRequired(entries, ReadElements(bitmap)) <==>
            forall k | 0 <= k < |entries| && entries[k].presence.Required? :: IsSetIn(bitmap, entries[k].element)
  {
    hide IsSet, ReadElements;
    SetIsListed(bitmap);
  }

  lemma {:induction false} ElementsFailHard(
    ctx: IsoContext, entries: seq<Entry>, elements: seq<nat>, bytes: Bytes, from: nat, got: FieldSet)
    requires from <= |bytes| && AllDefined(entries, elements)
    requires UnpackElements(ctx, entries, elements, bytes, from, got).Hard?
    ensures UnpackElements(ctx, entries, elements, bytes, from, got).failure in {ProfileInvalid, ForbiddenField}
    decreases |elements|
  {
    hide UnpackField, EntryOf;
    var entry := EntryOf(entries, elements[0]).value;
    if entry.fieldId in ctx.fieldsById && !entry.presence.Forbidden? {
      var step := UnpackScalar(ctx.fieldsById[entry.fieldId], entry.fieldId, bytes, from, got, got);
      ElementsFailHard(ctx, entries, elements[1..], bytes, step.offset, step.fields);
    }
  }

  lemma {:induction false} EntriesFail(ctx: IsoContext, uses: seq<Use>)
    ensures IsoUses(ctx, uses).Err? ==> IsoUses(ctx, uses).error == ProfileInvalid
  {
    if uses != [] {
      EntriesFail(ctx, uses[1..]);
    }
  }

  /** Allowing partial results changes exactly the answers that fail with a failure that may be partial. */
  lemma PartialIff(ctx: IsoContext, bytes: Bytes)
    ensures
      var strict, lenient := UnpackIso(ctx, bytes, false), UnpackIso(ctx, bytes, true);
      && !strict.Partial?
      && (lenient.Partial? <==> strict.Failed? && strict.failure in PARTIAL)
      && (lenient.Partial? ==> lenient.failure == strict.failure && lenient.receivedBytes == |bytes|)
      && (!lenient.Partial? ==> lenient == strict)
  {
    hide UnpackIsoStep;
    StepFailsHard(ctx, bytes);
  }

  lemma StepFailsHard(ctx: IsoContext, bytes: Bytes)
    ensures UnpackIsoStep(ctx, bytes).Hard? ==> UnpackIsoStep(ctx, bytes).failure !in PARTIAL
  {
    hide DecodeMti, UnpackElements, IsoUses, ReadElements, AllDefined, AllRequired, HexToBytes, FromWire;
    EntriesFail(ctx, ctx.uses);
    if MtiLength(ctx.mtiEncoding) <= |bytes| {
      var read := ReadBitmaps(ctx.bitmapEncoding, bytes, MtiLength(ctx.mtiEncoding));
      if read.BitmapRead? && IsoUses(ctx, ctx.uses).Ok? {
        PresentFailsHard(ctx, ReadElements(read.bitmap), bytes, read.offset);
      }
    }
  }

  lemma PresentFailsHard(ctx: IsoContext, elements: seq<nat>, bytes: Bytes, from: nat)
    requires from <= |bytes| && IsoUses(ctx, ctx.uses).Ok?
    ensures UnpackPresent(ctx, elements, bytes, from).Hard? ==>
              UnpackPresent(ctx, elements, bytes, from).failure !in PARTIAL
  {
    hide UnpackElements, IsoUses, AllDefined, AllRequired;
    var entries := IsoUses(ctx, ctx.uses).value;
    if AllDefined(entries, elements) {
      if UnpackElements(ctx, entries, elements, bytes, from, map[]).Hard? {
        ElementsFailHard(ctx, entries, elements, bytes, from, map[]);
      }
    }
  }
}
