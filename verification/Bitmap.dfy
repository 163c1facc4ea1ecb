/** ISO 8583 bitmaps: setting and reading presence bits, packages/host-message/src/iso8583-codec.ts. */
module Bitmap {
  import opened Prelude

  /** Bitmaps are kept as machine bytes, so that the source's bit operations are available. */
  type Bits = seq<bv8>

  predicate Bit(b: bv8, k: nat)
    requires k < 8
  {
    b & (0x80 >> k) != 0
  }

  function SetBit(b: bv8, k: nat): bv8
    requires k < 8
  {
    b | (0x80 >> k)
  }

  lemma SetBitSetsOne(b: bv8, k: nat, j: nat)
    requires k < 8 && j < 8
    ensures Bit(SetBit(b, k), j) <==> j == k || Bit(b, j)
  {
  }

  /** The wire bytes of a bitmap. */
  function ToWire(bitmap: Bits): (bytes: Bytes)
    ensures |bytes| == |bitmap|
  {
    seq(|bitmap|, i requires 0 <= i < |bitmap| => bitmap[i] as int)
  }

  function FromWire(bytes: Bytes): (bitmap: Bits)
    ensures |bitmap| == |bytes|
  {
    seq(|bytes|, i requires 0 <= i < |bytes| => bytes[i] as bv8)
  }

  lemma WireRoundTrip(bitmap: Bits)
    ensures FromWire(ToWire(bitmap)) == bitmap
  {
  }

  /** The bit of a data element, numbered from 1. */
  predicate HasElement(bitmap: Bits, element: nat)
    requires 1 <= element <= 8 * |bitmap|
  {
    Bit(bitmap[(element - 1) / 8], (element - 1) % 8)
  }

  /** The bitmap holds exactly these elements. */
  predicate Holds(bitmap: Bits, elements: set<nat>) {
    forall e :: 1 <= e <= 8 * |bitmap| ==> (HasElement(bitmap, e) <==> e in elements)
  }

  /** setBitmapBit: one bit of the buffer is set in place. */
  method SetBitmapBit(bitmap: array<bv8>, element: nat)
    requires 1 <= element <= 8 * bitmap.Length
    modifies bitmap
    ensures forall e :: 1 <= e <= 8 * bitmap.Length ==>
              (HasElement(bitmap[..], e) <==> e == element || HasElement(old(bitmap[..]), e))
  {
    var index := (element - 1) / 8;
    var mask := (element - 1) % 8;
    ghost var before := bitmap[..];
    bitmap[index] := SetBit(bitmap[index], mask);
    forall e | 1 <= e <= 8 * bitmap.Length
      ensures HasElement(bitmap[..], e) <==> e == element || HasElement(before, e)
    {
      if (e - 1) / 8 == index {
        SetBitSetsOne(before[index], mask, (e - 1) % 8);
      }
    }
  }

  /** Elements from `from` on whose bit is set, in ascending order. */
  function ElementsFrom(bitmap: Bits, from: nat): (elements: seq<nat>)
    requires 1 <= from <= 8 * |bitmap| + 1
    ensures forall i :: 0 <= i < |elements| ==> from <= elements[i] <= 8 * |bitmap|
    decreases 8 * |bitmap| + 1 - from
  {
    if from > 8 * |bitmap| then []
    else (if HasElement(bitmap, from) then [from] else []) + ElementsFrom(bitmap, from + 1)
  }

  /** readBitmapElements: element 1 only announces the second bitmap. */
  function ReadElements(bitmap: Bits): seq<nat>
    requires bitmap != []
  {
    ElementsFrom(bitmap, 2)
  }

  method ReadBitmapElements(bitmap: Bits) returns (result: seq<nat>)
    requires bitmap != []
    ensures result == ReadElements(bitmap)
  {
    hide HasElement;
    result := [];
    var element := 2;
    while element <= 8 * |bitmap|
      invariant 2 <= element <= 8 * |bitmap| + 1
      invariant ReadElements(bitmap) == result + ElementsFrom(bitmap, element)
    {
      ghost var rest := ElementsFrom(bitmap, element + 1);
      if HasElement(bitmap, element) {
        assert result + ([element] + rest) == (result + [element]) + rest;
        result := result + [element];
      } else {
        assert [] + rest == rest;
      }
      element := element + 1;
    }
  }

  predicate Ascending(elements: seq<nat>) {
    forall i, j :: 0 <= i < j < |elements| ==> elements[i] < elements[j]
  }

  lemma {:induction false} ElementsAreAscending(bitmap: Bits, from: nat)
    requires 1 <= from <= 8 * |bitmap| + 1
    ensures Ascending(ElementsFrom(bitmap, from))
    ensures forall e :: from <= e <= 8 * |bitmap| ==>
              (e in ElementsFrom(bitmap, from) <==> HasElement(bitmap, e))
    decreases 8 * |bitmap| + 1 - from
  {
    hide HasElement;
    if from <= 8 * |bitmap| {
      ElementsAreAscending(bitmap, from + 1);
    }
  }

  /** Ascending sequences with the same members are equal. */
  lemma {:induction false} AscendingIsUnique(a: seq<nat>, b: seq<nat>)
    requires Ascending(a) && Ascending(b)
    requires forall e :: e in a <==> e in b
    ensures a == b
  {
    assert b != [] ==> b[0] in a;
    assert a != [] ==> a[0] in b;
    if a != [] {
      assert a[0] == b[0];
      forall e
        ensures e in a[1..] <==> e in b[1..]
      {
        assert e in a[1..] <==> e in a && e != a[0];
        assert e in b[1..] <==> e in b && e != b[0];
      }
      AscendingIsUnique(a[1..], b[1..]);
    }
  }

  /** Reading a bitmap gives back the ascending elements it was made for. */
  lemma ReadingGivesElements(bitmap: Bits, elements: seq<nat>, announced: set<nat>)
    requires bitmap != [] && Ascending(elements) && announced <= {1}
    requires forall i :: 0 <= i < |elements| ==> 2 <= elements[i] <= 8 * |bitmap|
    requires Holds(bitmap, announced + set e | e in elements)
    ensures ReadElements(bitmap) == elements
  {
    ElementsAreAscending(bitmap, 2);
    forall e
      ensures e in ReadElements(bitmap) <==> e in elements
    {
      if 2 <= e <= 8 * |bitmap| {
        assert HasElement(bitmap, e) <==> e in announced + set e | e in elements;
      }
    }
    AscendingIsUnique(ReadElements(bitmap), elements);
  }
}
