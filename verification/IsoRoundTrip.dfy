/** Round trip and truncation of ISO 8583 messages, over every accepted definition and every field set. */
module IsoRoundTrip {
  import opened Prelude
  import opened ByteText
  import opened FieldCodecs
  import opened FieldWire
  import opened FieldRoundTrip
  import opened FixedField
  import opened FixedFieldRoundTrip
  import opened Bitmap
  import opened Iso8583

  predicate FourDigits(mti: string) {
    |mti| == 4 && AllDigits(mti)
  }

  predicate DistinctEntries(entries: seq<Entry>) {
    forall i, j :: 0 <= i < j < |entries| ==>
      entries[i].element != entries[j].element && entries[i].fieldId != entries[j].fieldId
  }

  /** What an accepted ISO profile guarantees: a four-digit type, elements 2..128, nothing twice. */
  predicate Accepted(ctx: IsoContext) {
    && ctx.mti.Some? && FourDigits(ctx.mti.value)
    && IsoUses(ctx, ctx.uses).Ok?
    && EntriesInRange(IsoUses(ctx, ctx.uses).value)
    && DistinctEntries(IsoUses(ctx, ctx.uses).value)
  }

  predicate EntriesRecoverable(fieldsById: map<string, Field>, entries: seq<Entry>, fields: FieldSet) {
    forall i :: 0 <= i < |entries| && entries[i].fieldId in fieldsById && entries[i].fieldId in fields ==>
      Recoverable(fieldsById[entries[i].fieldId], fields[entries[i].fieldId])
  }

  /** The values of the present entries. */
  function Values(entries: seq<Entry>, fields: FieldSet): FieldSet {
    if entries == [] then map[]
    else if entries[0].fieldId !in fields then Values(entries[1..], fields)
    else map[entries[0].fieldId := fields[entries[0].fieldId]] + Values(entries[1..], fields)
  }

  // ----- The present entries, sorted -----

  predicate SortedByElement(entries: seq<Entry>) {
    forall i, j :: 0 <= i < j < |entries| ==> entries[i].element <= entries[j].element
  }

  lemma {:induction false} InsertKeepsOrder(entry: Entry, sorted: seq<Entry>)
    requires SortedByElement(sorted)
    ensures SortedByElement(InsertEntry(entry, sorted))
  {
    if sorted != [] && entry.element > sorted[0].element {
      InsertKeepsOrder(entry, sorted[1..]);
      var rest := InsertEntry(entry, sorted[1..]);
      forall i | 0 <= i < |rest|
        ensures sorted[0].element <= rest[i].element
      {
        assert rest[i] in multiset(rest);
        assert rest[i] == entry || rest[i] in sorted[1..];
      }
    }
  }

  lemma {:induction false} SortOrders(entries: seq<Entry>)
    ensures SortedByElement(SortEntries(entries))
  {
    if entries != [] {
      SortOrders(entries[1..]);
      InsertKeepsOrder(entries[0], SortEntries(entries[1..]));
    }
  }

  /** Among distinct entries the element determines the entry, and each occurs once. */
  predicate OnePerElement(entries: seq<Entry>) {
    && (forall a, b :: a in entries && b in entries && a.element == b.element ==> a == b)
    && (forall a, b :: a in entries && b in entries && a.fieldId == b.fieldId ==> a == b)
    && forall e :: e in entries ==> multiset(entries)[e] == 1
  }

  lemma {:induction false} DistinctIsOnePerElement(entries: seq<Entry>)
    requires DistinctEntries(entries)
    ensures OnePerElement(entries)
  {
    if entries != [] {
      var rest := entries[1..];
      assert entries == [entries[0]] + rest;
      forall i, j | 0 <= i < j < |rest|
        ensures rest[i].element != rest[j].element && rest[i].fieldId != rest[j].fieldId
      {
        assert rest[i] == entries[i + 1] && rest[j] == entries[j + 1];
      }
      DistinctIsOnePerElement(rest);
      forall k | 0 <= k < |rest|
        ensures rest[k].element != entries[0].element && rest[k].fieldId != entries[0].fieldId
      {
        assert rest[k] == entries[k + 1];
      }
      assert entries[0] !in rest;
      assert entries[0] !in multiset(rest);
      assert multiset(entries) == multiset{entries[0]} + multiset(rest);
    }
  }

  /** Present entries occur as often as among all entries. */
  lemma {:induction false} PresentMultiplicity(entries: seq<Entry>, fields: FieldSet)
    requires PresentEntries(entries, fields).Ok?
    ensures multiset(PresentEntries(entries, fields).value) <= multiset(entries)
  {
    if entries != [] {
      PresentMultiplicity(entries[1..], fields);
      assert entries == [entries[0]] + entries[1..];
    }
  }

  /** Sorting entries of distinct elements orders them strictly. */
  lemma SortedStrictly(entries: seq<Entry>, sorted: seq<Entry>)
    requires OnePerElement(entries) && SortedByElement(sorted)
    requires multiset(sorted) <= multiset(entries)
    ensures Ascending(Elements(sorted))
  {
    forall i, j | 0 <= i < j < |sorted|
      ensures Elements(sorted)[i] < Elements(sorted)[j]
    {
      if sorted[i].element == sorted[j].element {
        assert sorted[i] in multiset(sorted) && sorted[j] in multiset(sorted);
        assert sorted[i] in entries && sorted[j] in entries;
        TwiceIsTwo(sorted, i, j);
        assert false;
      }
    }
  }

  /** What the decoder relies on about the sorted present entries. */
  lemma SortedPresentFacts(ctx: IsoContext, fields: FieldSet)
    requires Accepted(ctx) && SortedPresent(ctx, fields).Ok?
    ensures var entries := IsoUses(ctx, ctx.uses).value;
            var sorted := SortedPresent(ctx, fields).value;
            && (forall e :: e in sorted <==> e in entries && e.fieldId in fields)
            && (forall e :: e in sorted ==> !e.presence.Forbidden?)
            && (forall e :: e in entries && e.presence.Required? ==> e in sorted)
            && OnePerElement(entries)
            && Ascending(Elements(sorted)) && EntriesInRange(sorted)
  {
    hide OnePerElement, SortedByElement, SortEntries, PresentEntries, IsoUses, DistinctEntries;
    var entries := IsoUses(ctx, ctx.uses).value;
    var present := PresentEntries(entries, fields).value;
    var sorted := SortEntries(present);
    PresentAreEntries(entries, fields);
    SortedAreEntries(present);
    DistinctIsOnePerElement(entries);
    PresentMultiplicity(entries, fields);
    SortOrders(present);
    SortedStrictly(entries, sorted);
    forall i | 0 <= i < |sorted|
      ensures 2 <= sorted[i].element <= 128
    {
      assert sorted[i] in entries;
    }
  }

  lemma TwiceIsTwo(entries: seq<Entry>, i: nat, j: nat)
    requires i < j < |entries| && entries[i] == entries[j]
    ensures multiset(entries)[entries[i]] >= 2
  {
    var left, right := entries[..j], entries[j..];
    assert entries == left + right;
    assert left[i] == entries[i] && right[0] == entries[j];
    assert entries[i] in multiset(left) && entries[i] in multiset(right);
  }

  lemma {:induction false} EntryIsFound(entries: seq<Entry>, entry: Entry)
    requires entry in entries
    requires forall a :: a in entries && a.element == entry.element ==> a == entry
    ensures EntryOf(entries, entry.element) == Some(entry)
  {
    if entry in entries[1..] {
      EntryIsFound(entries[1..], entry);
    } else {
      assert entries[0] == entry;
      NoEntryIsFound(entries[1..], entry.element);
    }
  }

  lemma {:induction false} NoEntryIsFound(entries: seq<Entry>, element: nat)
    requires forall a :: a in entries ==> a.element != element
    ensures EntryOf(entries, element).None?
  {
    if entries != [] {
      NoEntryIsFound(entries[1..], element);
      assert entries[0] in entries;
    }
  }

  // ----- The header -----

  lemma MtiRoundTrip(mti: string, encoding: MtiEncoding)
    requires FourDigits(mti)
    ensures |EncodeMti(mti, encoding)| == MtiLength(encoding)
    ensures DecodeMti(EncodeMti(mti, encoding), encoding) == mti
  {
    if encoding.AsciiMti? {
      CharsOfAscii(mti);
    } else {
      DigitsAreUpperHex(mti);
    }
  }

  lemma EncodedBitmapSplits(a: Bits, b: Bits, encoding: BitmapEncoding)
    ensures EncodeBitmap(a + b, encoding) == EncodeBitmap(a, encoding) + EncodeBitmap(b, encoding)
  {
    assert ToWire(a + b) == ToWire(a) + ToWire(b);
    if encoding.HexBitmap? {
      HexConcat(ToWire(a), ToWire(b));
      var x, y := BytesToHex(ToWire(a)), BytesToHex(ToWire(b));
      assert AsciiBytes(x + y) == AsciiBytes(x) + AsciiBytes(y);
    }
  }

  function BitmapWire(encoding: BitmapEncoding): nat {
    if encoding.BinaryBitmap? then 8 else 16
  }

  lemma BitmapPartRoundTrip(bitmap: Bits, encoding: BitmapEncoding, bytes: Bytes, offset: nat)
    requires |bitmap| == 8 && At(bytes, offset, EncodeBitmap(bitmap, encoding))
    ensures |EncodeBitmap(bitmap, encoding)| == BitmapWire(encoding)
    ensures ReadBitmapPart(encoding, bytes, offset) == BitmapRead(bitmap, offset + BitmapWire(encoding))
  {
    WireRoundTrip(bitmap);
    if encoding.HexBitmap? {
      CharsOfAscii(BytesToHex(ToWire(bitmap)));
      HexOfBytes(ToWire(bitmap));
    }
  }

  /** The bitmaps of a message announce their second half truthfully. */
  predicate WellAnnounced(bitmap: Bits) {
    |bitmap| in {8, 16} && (bitmap[0] & 0x80 != 0 <==> |bitmap| == 16)
  }

  lemma BitmapsRoundTrip(bitmap: Bits, encoding: BitmapEncoding, bytes: Bytes, offset: nat)
    requires WellAnnounced(bitmap) && At(bytes, offset, EncodeBitmap(bitmap, encoding))
    ensures ReadBitmaps(encoding, bytes, offset) == BitmapRead(bitmap, offset + |EncodeBitmap(bitmap, encoding)|)
  {
    var first, second := bitmap[..8], bitmap[8..];
    assert bitmap == first + second;
    EncodedBitmapSplits(first, second, encoding);
    AtSplit(bytes, offset, EncodeBitmap(first, encoding), EncodeBitmap(second, encoding));
    BitmapPartRoundTrip(first, encoding, bytes, offset);
    if |bitmap| == 16 {
      BitmapPartRoundTrip(second, encoding, bytes, offset + BitmapWire(encoding));
    }
  }

  lemma BitmapsTruncated(bitmap: Bits, encoding: BitmapEncoding, short: Bytes, offset: nat)
    requires WellAnnounced(bitmap) && CutInside(short, offset, EncodeBitmap(bitmap, encoding))
    ensures var read := ReadBitmaps(encoding, short, offset);
            read.BitmapStop? && read.step.Soft? && read.step.fields == map[] && read.step.failure == Truncated
  {
    var first, second := bitmap[..8], bitmap[8..];
    assert bitmap == first + second;
    EncodedBitmapSplits(first, second, encoding);
    CutSplit(short, offset, EncodeBitmap(first, encoding), EncodeBitmap(second, encoding));
    assert |EncodeBitmap(first, encoding)| == BitmapWire(encoding);
    if At(short, offset, EncodeBitmap(first, encoding)) {
      BitmapPartRoundTrip(first, encoding, short, offset);
      assert |second| == 8;
    }
  }

  /** Bit 1 of a built bitmap is set exactly when it has a second half. */
  lemma BuiltIsWellAnnounced(present: seq<Entry>)
    requires EntriesInRange(present)
    ensures WellAnnounced(BitmapOf(Announced(present), BitmapLength(present)))
  {
    var bitmap := BitmapOf(Announced(present), BitmapLength(present));
    ByteBits(Announced(present), 0, 0);
    assert Bit(bitmap[0], 0) <==> 1 in Announced(present);
    forall e | e in Elements(present)
      ensures e != 1
    {
    }
  }

  lemma SecondaryMeansLarge(entries: seq<Entry>)
    ensures HasSecondary(entries) <==> exists e :: e in Elements(entries) && e > 64
  {
    forall i | 0 <= i < |entries|
      ensures entries[i].element in Elements(entries)
    {
      assert Elements(entries)[i] == entries[i].element;
    }
  }

  /**
    Main result: the bitmap read back lists the present elements in ascending order, and a second
    bitmap is written exactly when one of them exceeds 64.
   */
  lemma BitmapListsPresent(ctx: IsoContext, fields: FieldSet)
    requires Accepted(ctx) && SortedPresent(ctx, fields).Ok?
    ensures var sorted := SortedPresent(ctx, fields).value;
            var bitmap := BitmapOf(Announced(sorted), BitmapLength(sorted));
            && ReadElements(bitmap) == Elements(sorted)
            && Ascending(Elements(sorted))
            && (|bitmap| == 16 <==> exists e :: e in Elements(sorted) && e > 64)
            && |bitmap| in {8, 16}
  {
    hide HasElement, SortedPresent, ByteOf, Accepted;
    var sorted := SortedPresent(ctx, fields).value;
    SortedPresentFacts(ctx, fields);
    var bitmap := BitmapOf(Announced(sorted), BitmapLength(sorted));
    BitmapHolds(Announced(sorted), BitmapLength(sorted));
    SecondaryMeansLarge(sorted);
    ReadingGivesElements(bitmap, Elements(sorted), if HasSecondary(sorted) then {1} else {});
  }

  lemma HeaderRoundTrip(ctx: IsoContext, fields: FieldSet, bytes: Bytes)
    requires Accepted(ctx) && SortedPresent(ctx, fields).Ok?
    requires At(bytes, 0, PackHeader(ctx, SortedPresent(ctx, fields).value))
    ensures var sorted := SortedPresent(ctx, fields).value;
            UnpackIsoStep(ctx, bytes) == UnpackPresent(ctx, Elements(sorted), bytes, |PackHeader(ctx, sorted)|)
  {
    hide UnpackPresent, ReadBitmaps, SortedPresent, EncodeBitmap, BitmapOf;
    var sorted := SortedPresent(ctx, fields).value;
    SortedPresentFacts(ctx, fields);
    var bitmap := BitmapOf(Announced(sorted), BitmapLength(sorted));
    var mti := EncodeMti(ctx.mti.value, ctx.mtiEncoding);
    AtSplit(bytes, 0, mti, EncodeBitmap(bitmap, ctx.bitmapEncoding));
    MtiRoundTrip(ctx.mti.value, ctx.mtiEncoding);
    assert bytes[..|mti|] == bytes[0..0 + |mti|];
    BuiltIsWellAnnounced(sorted);
    BitmapsRoundTrip(bitmap, ctx.bitmapEncoding, bytes, |mti|);
    BitmapListsPresent(ctx, fields);
  }

  lemma HeaderTruncated(ctx: IsoContext, fields: FieldSet, short: Bytes)
    requires Accepted(ctx) && SortedPresent(ctx, fields).Ok?
    requires CutInside(short, 0, PackHeader(ctx, SortedPresent(ctx, fields).value))
    ensures var step := UnpackIsoStep(ctx, short);
            step.Soft? && step.fields == map[] && step.failure == Truncated
  {
    hide UnpackPresent, ReadBitmaps, SortedPresent, EncodeBitmap, BitmapOf;
    var sorted := SortedPresent(ctx, fields).value;
    SortedPresentFacts(ctx, fields);
    var bitmap := BitmapOf(Announced(sorted), BitmapLength(sorted));
    var mti := EncodeMti(ctx.mti.value, ctx.mtiEncoding);
    CutSplit(short, 0, mti, EncodeBitmap(bitmap, ctx.bitmapEncoding));
    MtiRoundTrip(ctx.mti.value, ctx.mtiEncoding);
    BuiltIsWellAnnounced(sorted);
    if At(short, 0, mti) {
      assert short[..|mti|] == short[0..0 + |mti|];
      BitmapsTruncated(bitmap, ctx.bitmapEncoding, short, |mti|);
    }
  }

  // ----- The body -----

  lemma EntriesRecoverableTail(fieldsById: map<string, Field>, entries: seq<Entry>, fields: FieldSet)
    requires entries != [] && EntriesRecoverable(fieldsById, entries, fields)
    ensures EntriesRecoverable(fieldsById, entries[1..], fields)
  {
    hide Recoverable;
    forall i | 0 <= i < |entries[1..]| && entries[1..][i].fieldId in fieldsById && entries[1..][i].fieldId in fields
      ensures Recoverable(fieldsById[entries[1..][i].fieldId], fields[entries[1..][i].fieldId])
    {
      assert entries[1..][i] == entries[i + 1];
    }
  }

  /** The remaining elements each find their own, permitted entry. */
  predicate Resolved(entries: seq<Entry>, todo: seq<Entry>) {
    forall i :: 0 <= i < |todo| ==>
      EntryOf(entries, todo[i].element) == Some(todo[i]) && !todo[i].presence.Forbidden?
  }

  lemma ResolvedDefined(entries: seq<Entry>, todo: seq<Entry>)
    requires Resolved(entries, todo)
    ensures AllDefined(entries, Elements(todo))
    ensures todo != [] ==> Resolved(entries, todo[1..]) && Elements(todo)[1..] == Elements(todo[1..])
  {
    if todo != [] {
      forall i | 0 <= i < |todo[1..]|
        ensures EntryOf(entries, todo[1..][i].element) == Some(todo[1..][i]) && !todo[1..][i].presence.Forbidden?
      {
        assert todo[1..][i] == todo[i + 1];
      }
    }
  }

  lemma {:induction false} ValuesHold(entries: seq<Entry>, fields: FieldSet, id: string)
    ensures id in Values(entries, fields) <==>
            id in fields && exists i :: 0 <= i < |entries| && entries[i].fieldId == id
    ensures id in Values(entries, fields) ==> Values(entries, fields)[id] == fields[id]
  {
    if entries != [] {
      ValuesHold(entries[1..], fields, id);
      assert forall i :: 0 < i < |entries| ==> entries[i] == entries[1..][i - 1];
      if exists i :: 0 <= i < |entries[1..]| && entries[1..][i].fieldId == id {
        var i :| 0 <= i < |entries[1..]| && entries[1..][i].fieldId == id;
        assert entries[i + 1].fieldId == id;
      }
    }
  }

  lemma ValuesPush(todo: seq<Entry>, fields: FieldSet, got: FieldSet)
    requires todo != [] && todo[0].fieldId in fields
    ensures got[todo[0].fieldId := fields[todo[0].fieldId]] + Values(todo[1..], fields) == got + Values(todo, fields)
  {
  }

  lemma {:induction false} ElementsRoundTrip(
    ctx: IsoContext, entries: seq<Entry>, todo: seq<Entry>, fields: FieldSet, bytes: Bytes, offset: nat, got: FieldSet)
    requires Resolved(entries, todo) && AllDefined(entries, Elements(todo))
    requires PackEntries(ctx.fieldsById, todo, fields).Ok? && EntriesRecoverable(ctx.fieldsById, todo, fields)
    requires At(bytes, offset, PackEntries(ctx.fieldsById, todo, fields).value)
    ensures UnpackElements(ctx, entries, Elements(todo), bytes, offset, got) ==
            Next(got + Values(todo, fields), offset + |PackEntries(ctx.fieldsById, todo, fields).value|)
    decreases |todo|
  {
    hide UnpackScalar, PackField, Recoverable, EntryOf;
    if todo == [] {
      assert got + Values(todo, fields) == got;
    } else {
      var id := todo[0].fieldId;
      var head := PackField(ctx.fieldsById[id], fields[id]).value;
      AtSplit(bytes, offset, head, PackEntries(ctx.fieldsById, todo[1..], fields).value);
      ScalarRoundTrip(ctx.fieldsById[id], id, fields[id], bytes, offset, got, got);
      ResolvedDefined(entries, todo);
      ResolvedDefined(entries, todo[1..]);
      EntriesRecoverableTail(ctx.fieldsById, todo, fields);
      ElementsRoundTrip(ctx, entries, todo[1..], fields, bytes, offset + |head|, got[id := fields[id]]);
      ValuesPush(todo, fields, got);
    }
  }

  lemma {:induction false} ElementsTruncated(
    ctx: IsoContext, entries: seq<Entry>, todo: seq<Entry>, fields: FieldSet, short: Bytes, offset: nat, got: FieldSet)
    requires Resolved(entries, todo) && AllDefined(entries, Elements(todo))
    requires PackEntries(ctx.fieldsById, todo, fields).Ok? && EntriesRecoverable(ctx.fieldsById, todo, fields)
    requires CutInside(short, offset, PackEntries(ctx.fieldsById, todo, fields).value)
    requires SubMap(got, fields)
    ensures var step := UnpackElements(ctx, entries, Elements(todo), short, offset, got);
            && step.Soft? && step.failure == Truncated
            && SubMap(step.fields, got + Values(todo, fields))
    decreases |todo|
  {
    hide UnpackScalar, PackField, Recoverable, EntryOf;
    if todo != [] {
      var id := todo[0].fieldId;
      var head := PackField(ctx.fieldsById[id], fields[id]).value;
      CutSplit(short, offset, head, PackEntries(ctx.fieldsById, todo[1..], fields).value);
      ResolvedDefined(entries, todo);
      if CutInside(short, offset, head) {
        ScalarTruncated(ctx.fieldsById[id], id, fields[id], short, offset, got, got);
        forall key | key in got
          ensures (got + Values(todo, fields))[key] == got[key]
        {
          ValuesHold(todo, fields, key);
        }
      } else {
        ScalarRoundTrip(ctx.fieldsById[id], id, fields[id], short, offset, got, got);
        ResolvedDefined(entries, todo[1..]);
        EntriesRecoverableTail(ctx.fieldsById, todo, fields);
        ElementsTruncated(ctx, entries, todo[1..], fields, short, offset + |head|, got[id := fields[id]]);
        ValuesPush(todo, fields, got);
      }
    }
  }

  /** Presence rules hold for the bitmap of a packed message. */
  lemma PresentIsResolved(ctx: IsoContext, fields: FieldSet)
    requires Accepted(ctx) && SortedPresent(ctx, fields).Ok?
    ensures var entries := IsoUses(ctx, ctx.uses).value;
            var sorted := SortedPresent(ctx, fields).value;
            Resolved(entries, sorted) && AllDefined(entries, Elements(sorted)) && AllRequired(entries, Elements(sorted))
  {
    hide SortedPresent, IsoUses;
    SortedPresentFacts(ctx, fields);
    var entries := IsoUses(ctx, ctx.uses).value;
    var sorted := SortedPresent(ctx, fields).value;
    forall i | 0 <= i < |sorted|
      ensures EntryOf(entries, sorted[i].element) == Some(sorted[i])
    {
      assert sorted[i] in sorted;
      EntryIsFound(entries, sorted[i]);
    }
    forall i | 0 <= i < |entries| && entries[i].presence.Required?
      ensures entries[i].element in Elements(sorted)
    {
      assert entries[i] in sorted;
      var k :| 0 <= k < |sorted| && sorted[k] == entries[i];
      assert Elements(sorted)[k] == entries[i].element;
    }
  }

  // ----- Main results -----

  /** The fields an ISO message restores: those of its uses that have a value. */
  function PresentFields(ctx: IsoContext, fields: FieldSet): FieldSet {
    map k | 0 <= k < |ctx.uses| && ctx.uses[k].ScalarUse? && ctx.uses[k].fieldId in fields
      :: ctx.uses[k].fieldId := fields[ctx.uses[k].fieldId]
  }

  lemma {:induction false} UsesAreEntries(ctx: IsoContext, uses: seq<Use>, id: string)
    requires IsoUses(ctx, uses).Ok?
    ensures (exists i :: 0 <= i < |IsoUses(ctx, uses).value| && IsoUses(ctx, uses).value[i].fieldId == id)
            <==> exists k :: 0 <= k < |uses| && uses[k].ScalarUse? && uses[k].fieldId == id
  {
    if uses != [] {
      UsesAreEntries(ctx, uses[1..], id);
      var entries, rest := IsoUses(ctx, uses).value, IsoUses(ctx, uses[1..]).value;
      assert entries == [entries[0]] + rest && uses == [uses[0]] + uses[1..];
      assert forall i :: 0 <= i < |rest| ==> rest[i] == entries[i + 1];
      assert forall k :: 0 <= k < |uses[1..]| ==> uses[1..][k] == uses[k + 1];
      assert entries[0].fieldId == uses[0].fieldId;
    }
  }

  lemma ValuesArePresentFields(ctx: IsoContext, fields: FieldSet)
    requires Accepted(ctx) && SortedPresent(ctx, fields).Ok?
    ensures Values(SortedPresent(ctx, fields).value, fields) == PresentFields(ctx, fields)
  {
    hide SortedPresent, IsoUses, Values, OnePerElement;
    var sorted := SortedPresent(ctx, fields).value;
    var entries := IsoUses(ctx, ctx.uses).value;
    SortedPresentFacts(ctx, fields);
    forall id
      ensures id in Values(sorted, fields) <==> id in PresentFields(ctx, fields)
      ensures id in Values(sorted, fields) ==> Values(sorted, fields)[id] == fields[id]
    {
      UsesAreEntries(ctx, ctx.uses, id);
      ValuesHold(sorted, fields, id);
      if id in Values(sorted, fields) {
        var i :| 0 <= i < |sorted| && sorted[i].fieldId == id;
        assert sorted[i] in entries;
      }
      if id in PresentFields(ctx, fields) {
        var i :| 0 <= i < |entries| && entries[i].fieldId == id;
        assert entries[i] in sorted;
      }
    }
  }

  lemma AcceptedHasEntries(ctx: IsoContext)
    requires Accepted(ctx)
    ensures IsoUses(ctx, ctx.uses).Ok? && !LacksMti(ctx)
  {
  }

  /** Main result: both type encodings, both bitmap encodings; exactly the present fields come back. */
  lemma MessageRoundTrip(ctx: IsoContext, fields: FieldSet, allowPartial: bool)
    requires Accepted(ctx) && PackIso(ctx, fields).Ok?
    requires EntriesRecoverable(ctx.fieldsById, SortedPresent(ctx, fields).value, fields)
    ensures UnpackIso(ctx, PackIso(ctx, fields).value, allowPartial) == Complete(PresentFields(ctx, fields))
  {
    hide SortedPresent, PackHeader, EntriesRecoverable, UnpackIsoStep, PackEntries, UnpackElements, Accepted;
    var bytes := PackIso(ctx, fields).value;
    var sorted := SortedPresent(ctx, fields).value;
    var header := PackHeader(ctx, sorted);
    var body := PackEntries(ctx.fieldsById, sorted, fields).value;
    assert At(bytes, 0, header + body);
    AtSplit(bytes, 0, header, body);
    HeaderRoundTrip(ctx, fields, bytes);
    AcceptedHasEntries(ctx);
    PresentIsResolved(ctx, fields);
    ElementsRoundTrip(ctx, IsoUses(ctx, ctx.uses).value, sorted, fields, bytes, |header|, map[]);
    ValuesArePresentFields(ctx, fields);
    assert map[] + Values(sorted, fields) == Values(sorted, fields);
  }

  /**
    Main result: a strict prefix of a packed ISO message never decodes completely. It fails, or where
    partial results are allowed yields one whose fields all agree with the whole message.
   */
  lemma TruncatedMessage(ctx: IsoContext, fields: FieldSet, k: nat, allowPartial: bool)
    requires Accepted(ctx) && PackIso(ctx, fields).Ok?
    requires EntriesRecoverable(ctx.fieldsById, SortedPresent(ctx, fields).value, fields)
    requires k < |PackIso(ctx, fields).value|
    ensures var outcome := UnpackIso(ctx, PackIso(ctx, fields).value[..k], allowPartial);
            && (!allowPartial ==> outcome == Failed(Truncated))
            && (allowPartial ==>
                  && outcome.Partial? && outcome.failure == Truncated
                  && outcome.consumedBytes <= outcome.receivedBytes == k
                  && SubMap(outcome.fields, PresentFields(ctx, fields)))
  {
    hide SortedPresent, PackHeader, EntriesRecoverable, UnpackIsoStep, PackEntries, UnpackElements, Accepted;
    var bytes := PackIso(ctx, fields).value;
    var short := bytes[..k];
    var sorted := SortedPresent(ctx, fields).value;
    var header := PackHeader(ctx, sorted);
    var body := PackEntries(ctx.fieldsById, sorted, fields).value;
    assert short[0..] == (header + body)[..k];
    CutSplit(short, 0, header, body);
    if CutInside(short, 0, header) {
      HeaderTruncated(ctx, fields, short);
    } else {
      HeaderRoundTrip(ctx, fields, short);
      AcceptedHasEntries(ctx);
      PresentIsResolved(ctx, fields);
      ElementsTruncated(ctx, IsoUses(ctx, ctx.uses).value, sorted, fields, short, |header|, map[]);
      ValuesArePresentFields(ctx, fields);
      assert map[] + Values(sorted, fields) == Values(sorted, fields);
    }
  }
}
