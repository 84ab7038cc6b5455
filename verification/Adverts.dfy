/**
  Maps with typed fields and an open tail, written through the sorting
  builder: token claims, COSE headers and peer adverts; and the bytes a peer
  advert's signature covers.
 */
module Adverts {
  import opened Common
  import opened Cbor
  import opened CdeOrder
  import opened Value
  import opened Schema
  import opened SchemaItems
  import opened SchemaForms
  import opened SchemaSound
  import opened SchemaRoundTrip
  import opened SchemaEncoder
  import opened Tables
  import opened Wire

  // --- open maps are inverse to their decoders, both ways ------------------------------------

  /**
    A sound table round-trips exactly the well-formed values, among them those
    whose tail avoids the typed names, and re-encodes every accepted input.
   */
  lemma SoundTableBijective(sh: Shape, v: Val, s: Bytes, t: Bytes)
    requires Sound(sh)
    ensures DecodeShape(sh, Enc(sh, v, false) + t) == Ok((v, t)) <==> WF(sh, v)
    ensures DecodeShape(sh, s) == Ok((v, t)) ==> WF(sh, v) && s == Enc(sh, v, false) + t
  {
    hide DecodeShape, Enc, WF, Good, Sorted, Tidy;
    RoundTripIff(sh, v, t);
    if WF(sh, v) { SortedTidy(sh, v); }
    if DecodeShape(sh, s) == Ok((v, t)) {
      ReencodesIff(sh, s);
      SortedTidy(sh, v);
    }
  }

  /** Token claims: fifteen typed fields interleaved with an open tail. */
  lemma TokenClaimsBijective(claims: Val, s: Bytes, t: Bytes)
    ensures DecodeShape(TOKEN_CLAIMS, Enc(TOKEN_CLAIMS, claims, false) + t) == Ok((claims, t)) <==> WF(TOKEN_CLAIMS, claims)
    ensures DecodeShape(TOKEN_CLAIMS, s) == Ok((claims, t)) ==> WF(TOKEN_CLAIMS, claims) && s == Enc(TOKEN_CLAIMS, claims, false) + t
  {
    hide DecodeShape, Enc, WF, TOKEN_CLAIMS;
    TokenClaimsSound();
    SoundTableBijective(TOKEN_CLAIMS, claims, s, t);
  }

  /** COSE headers, whose tail mixes integer and text labels. */
  lemma HeadersBijective(headers: Val, s: Bytes, t: Bytes)
    ensures DecodeShape(HEADERS, Enc(HEADERS, headers, false) + t) == Ok((headers, t)) <==> WF(HEADERS, headers)
    ensures DecodeShape(HEADERS, s) == Ok((headers, t)) ==> WF(HEADERS, headers) && s == Enc(HEADERS, headers, false) + t
  {
    hide DecodeShape, Enc, WF, HEADERS;
    HeadersSound();
    SoundTableBijective(HEADERS, headers, s, t);
  }

  /** The text label "1" and the integer label 1 may stand side by side, and stay apart. */
  lemma TextOneIsNotOne(alg: int, v: CborValue)
    requires -I64 <= alg < I64 && Normal(v)
    ensures var headers := Record([Present(Num(alg)), Absent], [Item(TextLabel(Ascii("1")), Any(v))]);
            WF(HEADERS, headers) && DecodeShape(HEADERS, Enc(HEADERS, headers, false)) == Ok((headers, []))
  {
    NameIsText("1");
    hide Ascii, ValidUtf8, Normal, DecodeShape, Enc, WF, HEADERS;
    var headers := Record([Present(Num(alg)), Absent], [Item(TextLabel(Ascii("1")), Any(v))]);
    BothLabelsFormed(alg, TextLabel(Ascii("1")), v);
    HeadersBijective(headers, [], []);
    assert Enc(HEADERS, headers, false) + [] == Enc(HEADERS, headers, false);
  }

  lemma BothLabelsFormed(alg: int, l: Label, v: CborValue)
    requires -I64 <= alg < I64 && Normal(v) && l.TextLabel? && ValidLabel(true, l)
    ensures WF(HEADERS, Record([Present(Num(alg)), Absent], [Item(l, Any(v))]))
  {
    hide ValidLabel, Normal;
    var headers := Record([Present(Num(alg)), Absent], [Item(l, Any(v))]);
    var fields, slots := HEADERS.fields, headers.slots;
    assert SlotItems(fields[1..][1..], slots[1..][1..]) == [];
    assert SlotItems(fields[1..], slots[1..]) == [];
    var items := RecordItems(HEADERS, headers);
    assert items == [Item(IntLabel(1), Num(alg)), Item(l, Any(v))];
    OneIsValid();
    assert WFItem(HEADERS, items[0]) && WFItem(HEADERS, items[1]);
  }

  lemma OneIsValid()
    ensures ValidLabel(true, IntLabel(1))
  {
  }

  // --- what an advert's signature covers -----------------------------------------------------------

  const SIGNING_CONTEXT: Bytes := Ascii("wire-mesh/peer-advert/v1\0")

  const UNSIGNED_ROWS: seq<Row> := [
    Req("device", DEVICE_ID),
    Req("addresses", ListShape(TextShape)),
    Req("identity-key", IDENTITY_KEY),
    Req("snapshot-seconds", IntShape)
  ]
  const UNSIGNED: Shape := OpenTable(UNSIGNED_ROWS)

  const SIGNATURE: nat := 2

  predicate IsAdvert(v: Val) {
    WFRecord(PEER_ADVERT, v)
  }

  /** An advert without its signature. */
  function Unsigned(v: Val): Val
    requires v.Record? && |v.slots| == 5
  {
    Record([v.slots[0], v.slots[1], v.slots[3], v.slots[4]], v.extra)
  }

  /** `peer_advert_signing_input`. */
  function SigningInput(v: Val): Bytes
    requires v.Record? && |v.slots| == 5
  {
    SIGNING_CONTEXT + Enc(UNSIGNED, Unsigned(v), false)
  }

  lemma UnsignedSound()
    ensures Sound(UNSIGNED) && DistinctFields(PEER_ADVERT.fields) && DistinctFields(UNSIGNED.fields)
  {
    IdentityKeySound();
    OpenTableSound(UNSIGNED_ROWS);
    ClimbingAscends(UNSIGNED_ROWS);
    ClimbingAscends(PEER_ADVERT_ROWS);
  }

  /** Where the unsigned table's field `j` is in the full one. */
  function Place(j: nat): nat {
    if j < SIGNATURE then j else j + 1
  }

  lemma UnsignedFields()
    ensures |PEER_ADVERT.fields| == 5 && |UNSIGNED.fields| == 4
    ensures forall j :: 0 <= j < 4 ==> UNSIGNED.fields[j] == PEER_ADVERT.fields[Place(j)]
    ensures PEER_ADVERT.fields[SIGNATURE] == Field(Key("signature"), BytesShape, Required)
    ensures forall i :: 0 <= i < 5 ==> PEER_ADVERT.fields[i].presence.Required?
  {
    hide Ascii, IDENTITY_KEY;
  }

  /** Any other key is read by the same reader in both tables. */
  lemma SameReader(l: Label)
    requires l != Key("signature")
    ensures ShapeFor(PEER_ADVERT, l) == ShapeFor(UNSIGNED, l)
    ensures HasField(PEER_ADVERT.fields, l) <==> HasField(UNSIGNED.fields, l)
  {
    UnsignedFields();
    UnsignedSound();
    assert PEER_ADVERT.tail == UNSIGNED.tail;
    hide Ascii, PEER_ADVERT, UNSIGNED, Sound;
    var i, j := FieldIndex(PEER_ADVERT.fields, l), FieldIndex(UNSIGNED.fields, l);
    if j < 4 {
      FieldFound(PEER_ADVERT.fields, Place(j));
    } else {
      forall k | 0 <= k < 5
        ensures PEER_ADVERT.fields[k].key != l
      {
        if k != SIGNATURE { assert PEER_ADVERT.fields[k] == UNSIGNED.fields[if k < SIGNATURE then k else k - 1]; }
      }
    }
  }

  lemma {:induction false} SlotItemsAll(fields: seq<Field>, slots: seq<Slot>)
    requires |fields| == |slots| && forall i :: 0 <= i < |slots| ==> slots[i].Present?
    ensures |SlotItems(fields, slots)| == |fields|
    ensures forall i :: 0 <= i < |fields| ==> SlotItems(fields, slots)[i] == Item(fields[i].key, slots[i].val)
  {
    if fields != [] {
      SlotItemsAll(fields[1..], slots[1..]);
      forall i | 0 <= i < |fields|
        ensures SlotItems(fields, slots)[i] == Item(fields[i].key, slots[i].val)
      {
        if i > 0 { assert fields[i] == fields[1..][i - 1] && slots[i] == slots[1..][i - 1]; }
      }
    }
  }

  lemma AdvertSlots(v: Val)
    requires IsAdvert(v)
    ensures v.Record? && |v.slots| == 5 && forall i :: 0 <= i < 5 ==> v.slots[i].Present?
  {
    UnsignedFields();
    hide PEER_ADVERT, WFItems;
  }

  /** The entry the signature contributes. */
  function SignatureItem(v: Val): Item
    requires v.Record? && |v.slots| == 5 && v.slots[SIGNATURE].Present?
  {
    Item(Key("signature"), v.slots[SIGNATURE].val)
  }

  lemma SignatureWritten(v: Val)
    requires IsAdvert(v)
    ensures v.Record? && |v.slots| == 5 && v.slots[SIGNATURE].Present? && PEER_ADVERT.StructShape? && |PEER_ADVERT.fields| == 5
    ensures SignatureItem(v) in RecordItems(PEER_ADVERT, v)
  {
    UnsignedFields();
    AdvertSlots(v);
    hide Ascii, PEER_ADVERT, WFItems;
    var sig := SignatureItem(v);
    assert FromSlot(PEER_ADVERT.fields, v.slots, sig, SIGNATURE);
    SlotItemsElements(PEER_ADVERT.fields, v.slots, sig);
  }

  /** The two tables' slots hold the same entries, but for the signature. */
  lemma UnsignedSlots(full: seq<Field>, fewer: seq<Field>, v: Val, it: Item)
    requires v.Record? && |v.slots| == |full| == 5 && |fewer| == 4 && DistinctFields(full)
    requires forall j :: 0 <= j < 4 ==> fewer[j] == full[Place(j)]
    requires full[SIGNATURE].key == Key("signature")
    ensures it in SlotItems(fewer, Unsigned(v).slots) <==> it in SlotItems(full, v.slots) && it.key != Key("signature")
  {
    hide Ascii, SlotItems;
    var u := Unsigned(v);
    SlotItemsElements(full, v.slots, it);
    SlotItemsElements(fewer, u.slots, it);
    FieldFound(full, SIGNATURE);
    if i: nat :| FromSlot(full, v.slots, it, i) {
      if i != SIGNATURE {
        assert FromSlot(fewer, u.slots, it, if i < SIGNATURE then i else i - 1);
      }
    }
    if j: nat :| FromSlot(fewer, u.slots, it, j) {
      assert FromSlot(full, v.slots, it, Place(j));
      FieldFound(full, Place(j));
    }
  }

  lemma TailUnsigned(v: Val, it: Item)
    requires IsAdvert(v) && v.Record? && it in v.extra
    ensures it.key != Key("signature")
  {
    UnsignedFields();
    UnsignedSound();
    hide Ascii, WFItems;
    FieldFound(PEER_ADVERT.fields, SIGNATURE);
  }

  /** The unsigned advert has every entry but the signature. */
  lemma UnsignedItems(v: Val, it: Item)
    requires IsAdvert(v)
    ensures v.Record? && |v.slots| == 5 && v.slots[SIGNATURE].Present?
    ensures SignatureItem(v) in RecordItems(PEER_ADVERT, v)
    ensures |UNSIGNED.fields| == 4
    ensures it in RecordItems(UNSIGNED, Unsigned(v)) <==> it in RecordItems(PEER_ADVERT, v) && it.key != Key("signature")
  {
    SignatureWritten(v);
    UnsignedFields();
    UnsignedSound();
    if it in v.extra { TailUnsigned(v, it); }
    UnsignedSlots(PEER_ADVERT.fields, UNSIGNED.fields, v, it);
    hide Ascii, PEER_ADVERT, UNSIGNED, IsAdvert, Sound, SlotItems, DistinctFields;
  }

  lemma UnsignedFormed(v: Val)
    requires IsAdvert(v)
    ensures v.Record? && |v.slots| == 5 && WFRecord(UNSIGNED, Unsigned(v))
  {
    AdvertSlots(v);
    UnsignedFields();
    var u := Unsigned(v);
    var items := RecordItems(UNSIGNED, u);
    assert PEER_ADVERT.labels == UNSIGNED.labels;
    hide Ascii, PEER_ADVERT, UNSIGNED, WF;
    forall i | 0 <= i < |items|
      ensures WFItem(UNSIGNED, items[i])
    {
      UnsignedItems(v, items[i]);
      AdvertItemFormed(v, items[i]);
      SameReader(items[i].key);
    }
    forall j | 0 <= j < |u.extra|
      ensures !HasField(UNSIGNED.fields, u.extra[j].key)
    {
      FieldFound4(u.extra[j].key);
      SameReader(u.extra[j].key);
    }
    SlotItemsAll(PEER_ADVERT.fields, v.slots);
    SlotItemsAll(UNSIGNED.fields, u.slots);
  }

  lemma FieldFound4(l: Label)
    requires !HasField(PEER_ADVERT.fields, l)
    ensures l != Key("signature")
  {
    UnsignedFields();
    UnsignedSound();
    hide Ascii;
    FieldFound(PEER_ADVERT.fields, SIGNATURE);
  }

  lemma AdvertItemFormed(v: Val, it: Item)
    requires IsAdvert(v) && it in RecordItems(PEER_ADVERT, v)
    ensures WFItem(PEER_ADVERT, it)
  {
    hide Ascii, WFItem;
    var i :| 0 <= i < |RecordItems(PEER_ADVERT, v)| && RecordItems(PEER_ADVERT, v)[i] == it;
    assert WFItems(PEER_ADVERT, RecordItems(PEER_ADVERT, v));
  }

  /** Two adverts share a signing input exactly when they agree on everything but the signature. */
  lemma SigningInputInjective(v: Val, w: Val)
    requires IsAdvert(v) && IsAdvert(w)
    ensures v.Record? && w.Record? && |v.slots| == |w.slots| == 5
    ensures SigningInput(v) == SigningInput(w) <==>
            v.extra == w.extra && forall i :: 0 <= i < 5 && i != SIGNATURE ==> v.slots[i] == w.slots[i]
  {
    AdvertSlots(v);
    AdvertSlots(w);
    SigningInputDecides(v, w);
    SameUnsigned(v, w);
    hide *;
  }

  /** The context is fixed and the rest decodes back. */
  lemma SigningInputDecides(v: Val, w: Val)
    requires IsAdvert(v) && IsAdvert(w)
    ensures v.Record? && w.Record? && |v.slots| == |w.slots| == 5
    ensures SigningInput(v) == SigningInput(w) <==> Unsigned(v) == Unsigned(w)
  {
    UnsignedFormed(v);
    UnsignedFormed(w);
    hide Ascii, Enc, WFRecord, UNSIGNED, IsAdvert, Unsigned;
    if SigningInput(v) == SigningInput(w) {
      SplitEqual(SIGNING_CONTEXT, SIGNING_CONTEXT, Enc(UNSIGNED, Unsigned(v), false), Enc(UNSIGNED, Unsigned(w), false));
      SoundStructReads(Unsigned(v));
      SoundStructReads(Unsigned(w));
    }
  }

  lemma SameUnsigned(v: Val, w: Val)
    requires v.Record? && w.Record? && |v.slots| == |w.slots| == 5
    ensures Unsigned(v) == Unsigned(w) <==>
            v.extra == w.extra && forall i :: 0 <= i < 5 && i != SIGNATURE ==> v.slots[i] == w.slots[i]
  {
    var a, b := Unsigned(v).slots, Unsigned(w).slots;
    assert a == [v.slots[0], v.slots[1], v.slots[3], v.slots[4]] && b == [w.slots[0], w.slots[1], w.slots[3], w.slots[4]];
    if a == b {
      assert a[0] == b[0] && a[1] == b[1] && a[2] == b[2] && a[3] == b[3];
    }
  }

  lemma SoundStructReads(u: Val)
    requires WFRecord(UNSIGNED, u)
    ensures DecodeShape(UNSIGNED, Enc(UNSIGNED, u, false) + []) == Ok((u, []))
  {
    UnsignedSound();
    assert WF(UNSIGNED, u);
    hide DecodeShape, Enc, UNSIGNED;
    SoundTableBijective(UNSIGNED, u, [], []);
  }

  /** The signed bytes are the wire encoding with exactly the signature entry removed. */
  lemma SigningInputRemovesOne(v: Val) returns (before: seq<Item>, after: seq<Item>)
    requires IsAdvert(v)
    ensures v.Record? && |v.slots| == 5 && v.slots[SIGNATURE].Present?
    ensures Enc(PEER_ADVERT, v, false) == EncMap(PEER_ADVERT, before + [SignatureItem(v)] + after, false)
    ensures SigningInput(v) == SIGNING_CONTEXT + EncMap(PEER_ADVERT, before + after, false)
  {
    hide *;
    UnsignedItems(v, Item(Key("signature"), Unit));
    BuiltBytes(v);
    var items := RecordItems(PEER_ADVERT, v);
    var sorted := Sort(ITEM_KEY, items);
    SortElements(ITEM_KEY, items);
    var k :| 0 <= k < |sorted| && sorted[k] == SignatureItem(v);
    before, after := sorted[..k], sorted[k + 1..];
    assert sorted == before + [SignatureItem(v)] + after;
    SigningInputWithout(v, sorted, k);
  }

  lemma SigningInputWithout(v: Val, sorted: seq<Item>, k: nat)
    requires IsAdvert(v) && v.Record? && |v.slots| == 5 && v.slots[SIGNATURE].Present? && |PEER_ADVERT.fields| == 5
    requires sorted == Sort(ITEM_KEY, RecordItems(PEER_ADVERT, v)) && k < |sorted| && sorted[k] == SignatureItem(v)
    ensures SigningInput(v) == SIGNING_CONTEXT + EncMap(PEER_ADVERT, sorted[..k] + sorted[k + 1..], false)
  {
    hide *;
    BuiltBytes(v);
    AdvertKeys(v);
    SortAscending(ITEM_KEY, RecordItems(PEER_ADVERT, v));
    AscendingLabels(sorted);
    RemovedSorted(v, sorted, k);
    SignatureKey(v);
    RemovedReaders(sorted, k);
    SameEncMap(sorted[..k] + sorted[k + 1..]);
  }

  lemma SignatureKey(v: Val)
    requires v.Record? && |v.slots| == 5 && v.slots[SIGNATURE].Present?
    ensures SignatureItem(v).key == Key("signature")
  {
  }

  lemma AdvertKeys(v: Val)
    requires IsAdvert(v)
    ensures DistinctKeys(ITEM_KEY, RecordItems(PEER_ADVERT, v)) && DistinctLabels(RecordItems(PEER_ADVERT, v))
    ensures v.Record? && |v.slots| == 5 && |UNSIGNED.fields| == 4
    ensures DistinctKeys(ITEM_KEY, RecordItems(UNSIGNED, Unsigned(v)))
  {
    UnsignedFields();
    UnsignedFormed(v);
    UnsignedSound();
    hide PEER_ADVERT, UNSIGNED, WFRecord, Ascii;
    RecordItemsDistinct(PEER_ADVERT, v);
    RecordItemsDistinct(UNSIGNED, Unsigned(v));
  }

  lemma BuiltBytes(v: Val)
    requires IsAdvert(v)
    ensures v.Record? && |v.slots| == 5 && PEER_ADVERT.StructShape? && UNSIGNED.StructShape?
    ensures |UNSIGNED.fields| == 4 && |PEER_ADVERT.fields| == 5
    ensures Enc(PEER_ADVERT, v, false) == EncMap(PEER_ADVERT, Sort(ITEM_KEY, RecordItems(PEER_ADVERT, v)), false)
    ensures SigningInput(v) == SIGNING_CONTEXT + EncMap(UNSIGNED, Sort(ITEM_KEY, RecordItems(UNSIGNED, Unsigned(v))), false)
  {
    AdvertSlots(v);
    UnsignedFields();
    hide Ascii, EncMap, Sort, RecordItems, Fields;
  }

  lemma RemovedSorted(v: Val, sorted: seq<Item>, k: nat)
    requires IsAdvert(v) && v.Record? && |v.slots| == 5 && v.slots[SIGNATURE].Present? && |UNSIGNED.fields| == 4
    requires sorted == Sort(ITEM_KEY, RecordItems(PEER_ADVERT, v)) && k < |sorted| && sorted[k] == SignatureItem(v)
    ensures sorted[..k] + sorted[k + 1..] == Sort(ITEM_KEY, RecordItems(UNSIGNED, Unsigned(v)))
  {
    AdvertKeys(v);
    hide Ascii, PEER_ADVERT, UNSIGNED, WFRecord, RecordItems, Sort, CdeLess, EncodeLabel;
    SortElements(ITEM_KEY, RecordItems(PEER_ADVERT, v));
    SortAscending(ITEM_KEY, RecordItems(PEER_ADVERT, v));
    var rest := sorted[..k] + sorted[k + 1..];
    AscendingLabels(sorted);
    RestOrdered(sorted, k);
    forall it
      ensures it in rest <==> it in RecordItems(UNSIGNED, Unsigned(v))
    {
      UnsignedItems(v, it);
      RestHas(sorted, k, it);
    }
    SortIs(ITEM_KEY, RecordItems(UNSIGNED, Unsigned(v)), rest);
  }

  lemma RestOrdered(sorted: seq<Item>, k: nat)
    requires k < |sorted| && Ascending(ITEM_KEY, sorted)
    ensures Ascending(ITEM_KEY, sorted[..k] + sorted[k + 1..])
  {
    hide CdeLess, EncodeLabel;
    var rest := sorted[..k] + sorted[k + 1..];
    forall i, j | 0 <= i < j < |rest|
      ensures CdeLess(ITEM_KEY(rest[i]), ITEM_KEY(rest[j]))
    {
      var m, n := if i < k then i else i + 1, if j < k then j else j + 1;
      assert rest[i] == sorted[m] && rest[j] == sorted[n];
    }
  }

  lemma RestHas(sorted: seq<Item>, k: nat, it: Item)
    requires k < |sorted| && DistinctLabels(sorted)
    ensures it in sorted[..k] + sorted[k + 1..] <==> it in sorted && it.key != sorted[k].key
  {
    var rest := sorted[..k] + sorted[k + 1..];
    if it in rest {
      var i :| 0 <= i < |rest| && rest[i] == it;
      assert it == sorted[if i < k then i else i + 1];
    }
    if it in sorted && it.key != sorted[k].key {
      var i :| 0 <= i < |sorted| && sorted[i] == it;
      assert it == rest[if i < k then i else i - 1];
    }
  }

  predicate NoSignature(items: seq<Item>) {
    forall i :: 0 <= i < |items| ==> items[i].key != Key("signature")
  }

  lemma RemovedReaders(sorted: seq<Item>, k: nat)
    requires k < |sorted| && DistinctLabels(sorted) && sorted[k].key == Key("signature")
    ensures NoSignature(sorted[..k] + sorted[k + 1..])
  {
    var rest := sorted[..k] + sorted[k + 1..];
    forall i | 0 <= i < |rest|
      ensures rest[i].key != Key("signature")
    {
      var m := if i < k then i else i + 1;
      assert rest[i] == sorted[m];
    }
  }

  lemma {:induction false} SameEncItems(items: seq<Item>)
    requires NoSignature(items)
    ensures EncItems(PEER_ADVERT, items, false) == EncItems(UNSIGNED, items, false)
  {
    hide Ascii, PEER_ADVERT, UNSIGNED, Enc;
    if items != [] {
      SameReader(items[0].key);
      SameEncItems(items[1..]);
    }
  }

  lemma SameEncMap(items: seq<Item>)
    requires NoSignature(items)
    ensures EncMap(PEER_ADVERT, items, false) == EncMap(UNSIGNED, items, false)
  {
    hide PEER_ADVERT, UNSIGNED, EncItems;
    SameEncItems(items);
  }
}
