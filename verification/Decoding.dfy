/**
  The decoders as the code runs them: loops over a moving position that fill
  slots, track key order and, for unions, look ahead and rewind.  They are
  proved to compute the decoding functions.
 */
module Decoding {
  import opened Common
  import opened Cbor
  import opened CdeOrder
  import opened Value
  import opened Schema
  import opened SchemaItems
  import opened SchemaForms
  import opened SchemaSound
  import opened CanonicalMaps
  import opened Decoders

  const ENTRY_KEY: Entry -> Bytes := (e: Entry) => EncodeValue(e.key)

  /** What was read already, followed by what remains to be read. */
  function Prepend<T>(done: seq<T>, r: Decoded<(seq<T>, Bytes)>): Decoded<(seq<T>, Bytes)> {
    match r
    case Ok((rest, u)) => Ok((done + rest, u))
    case Err(e) => Err(e)
  }

  /** Every entry read so far sorts no later than the last key accepted. */
  predicate Bounded<T(!new)>(key: T -> Bytes, es: seq<T>, prev: Previous) {
    && (es != [] ==> prev.After?)
    && forall i :: 0 <= i < |es| ==> key(es[i]) == prev.key || CdeLess(key(es[i]), prev.key)
  }

  lemma BoundedNext<T(!new)>(key: T -> Bytes, es: seq<T>, prev: Previous, e: T)
    requires Bounded(key, es, prev) && Before(prev, key(e))
    ensures forall i :: 0 <= i < |es| ==> CdeLess(key(es[i]), key(e))
    ensures Bounded(key, es + [e], After(key(e)))
  {
    hide CdeLess;
    forall i | 0 <= i < |es|
      ensures CdeLess(key(es[i]), key(e))
    {
      if key(es[i]) != prev.key { CdeTransitive(key(es[i]), prev.key, key(e)); }
    }
  }

  // --- values ------------------------------------------------------------------------------

  lemma ItemsUnfold(s: Bytes, n: nat, done: seq<CborValue>)
    ensures Prepend(done, DecodeItems(s, n)) ==
            if n == 0 then Ok((done, s))
            else match DecodeValue(s)
                 case Ok((v, t)) => Prepend(done + [v], DecodeItems(t, n - 1))
                 case Err(e) => Err(e)
  {
    hide DecodeValue;
    if n == 0 {
      assert done + [] == done;
    } else if DecodeValue(s).Ok? {
      var (v, t) := DecodeValue(s).value;
      if DecodeItems(t, n - 1).Ok? {
        assert done + ([v] + DecodeItems(t, n - 1).value.0) == done + [v] + DecodeItems(t, n - 1).value.0;
      }
    }
  }

  lemma EntriesUnfold(s: Bytes, n: nat, prev: Previous, done: seq<Entry>)
    ensures Prepend(done, DecodeEntries(s, n, prev)) ==
            if n == 0 then Ok((done, s))
            else match DecodeEntry(s, prev)
                 case Ok((e, t)) => Prepend(done + [e], DecodeEntries(t, n - 1, After(EncodeValue(e.key))))
                 case Err(e) => Err(e)
  {
    hide DecodeEntry;
    if n == 0 {
      assert done + [] == done;
    } else if DecodeEntry(s, prev).Ok? {
      var (e, t) := DecodeEntry(s, prev).value;
      var rest := DecodeEntries(t, n - 1, After(EncodeValue(e.key)));
      if rest.Ok? {
        assert done + ([e] + rest.value.0) == done + [e] + rest.value.0;
      }
    }
  }

  lemma PrependNothing<T>(r: Decoded<(seq<T>, Bytes)>)
    ensures Prepend([], r) == r
  {
    if r.Ok? { assert [] + r.value.0 == r.value.0; }
  }

  /** `CborValue::decode_strict`. */
  method DecodeStrict(d: Decoder) returns (r: Decoded<CborValue>)
    requires d.Valid()
    modifies d
    ensures d.Valid() && old(d.pos) <= d.pos && (r.Ok? ==> old(d.pos) < d.pos)
    ensures Tracks(DecodeValue(old(d.Rest())), r, d.Rest())
    decreases |d.input| - d.pos, 2
  {
    hide ReadUint, ReadInt, ReadBytes, ReadText, ReadCount, DecodeItems, DecodeEntries;
    if d.pos == |d.input| { return Err(Malformed); }
    var first := d.input[d.pos];
    assert first == d.Rest()[0];
    if first == 0xF6 || first == 0xF4 || first == 0xF5 {
      d.pos := d.pos + 1;
      return Ok(if first == 0xF6 then Null else Bool(first == 0xF5));
    }
    if first % 32 > 27 { return Err(UnexpectedType); }
    match first / 32 {
      case 0 =>
        var v := d.UintValue();
        return if v.Err? then Err(v.error) else Ok(UInt(v.value));
      case 1 =>
        var v := d.IntValue();
        return if v.Err? then Err(v.error) else Ok(Int(v.value));
      case 2 =>
        var v := d.BytesValue();
        return if v.Err? then Err(v.error) else Ok(ByteString(v.value));
      case 3 =>
        var v := d.TextValue();
        return if v.Err? then Err(v.error) else Ok(Text(v.value));
      case 4 =>
        var n := d.DefiniteCount(4);
        if n.Err? { return Err(n.error); }
        var items := DecodeArray(d, n.value);
        return if items.Err? then Err(items.error) else Ok(Array(items.value));
      case 5 =>
        var n := d.DefiniteCount(5);
        if n.Err? { return Err(n.error); }
        var entries := DecodeMap(d, n.value);
        return if entries.Err? then Err(entries.error) else Ok(Map(entries.value));
      case _ => return Err(UnexpectedType);
    }
  }

  method DecodeArray(d: Decoder, n: nat) returns (r: Decoded<seq<CborValue>>)
    requires d.Valid()
    modifies d
    ensures d.Valid() && old(d.pos) <= d.pos
    ensures Tracks(DecodeItems(old(d.Rest()), n), r, d.Rest())
    decreases |d.input| - d.pos, 3
  {
    hide DecodeValue, DecodeItems;
    ghost var s := d.Rest();
    var items: seq<CborValue> := [];
    PrependNothing(DecodeItems(s, n));
    for i := 0 to n
      invariant d.Valid() && old(d.pos) <= d.pos
      invariant DecodeItems(s, n) == Prepend(items, DecodeItems(d.Rest(), n - i))
    {
      ItemsUnfold(d.Rest(), n - i, items);
      var v := DecodeStrict(d);
      if v.Err? { return Err(v.error); }
      items := items + [v.value];
    }
    ItemsUnfold(d.Rest(), 0, items);
    return Ok(items);
  }

  method DecodeMap(d: Decoder, n: nat) returns (r: Decoded<seq<Entry>>)
    requires d.Valid()
    modifies d
    ensures d.Valid() && old(d.pos) <= d.pos
    ensures Tracks(DecodeEntries(old(d.Rest()), n, First), r, d.Rest())
    decreases |d.input| - d.pos, 3
  {
    hide DecodeValue, DecodeEntries, EncodeValue, CdeLess, Bounded, ContentsOf, Ascending;
    ghost var s := d.Rest();
    var order := new KeyOrder();
    var entries := new CanonicalMap<Entry>(ENTRY_KEY);
    PrependNothing(DecodeEntries(s, n, First));
    BoundedNone(order.prev);
    for i := 0 to n
      invariant d.Valid() && old(d.pos) <= d.pos && fresh(order)
      invariant fresh(entries) && entries.key == ENTRY_KEY && entries.Valid()
      invariant Bounded(ENTRY_KEY, entries.entries, order.prev)
      invariant DecodeEntries(s, n, First) == Prepend(entries.entries, DecodeEntries(d.Rest(), n - i, order.prev))
    {
      EntriesUnfold(d.Rest(), n - i, order.prev, entries.entries);
      ghost var prev := order.prev;
      var key := DecodeStrict(d);
      if key.Err? { return Err(key.error); }
      var ordered := order.Push(EncodeValue(key.value));
      if ordered.Err? { return Err(ordered.error); }
      var value := DecodeStrict(d);
      if value.Err? { return Err(value.error); }
      var e := Entry(key.value, value.value);
      BoundedNext(ENTRY_KEY, entries.entries, prev, e);
      InsertAtEnd(ENTRY_KEY, e, entries.entries);
      AbsentKey(ENTRY_KEY, entries.entries, ENTRY_KEY(e));
      var inserted := entries.Insert(e);
      match inserted {
        case Err(error) => return Err(error);
        case Ok(_) =>
      }
    }
    EntriesUnfold(d.Rest(), 0, order.prev, entries.entries);
    return Ok(entries.entries);
  }

  /** A key that sorts after all others is not there yet. */
  lemma AbsentKey<T(!new)>(key: T -> Bytes, es: seq<T>, k: Bytes)
    requires forall i :: 0 <= i < |es| ==> CdeLess(key(es[i]), k)
    ensures k !in ContentsOf(key, es)
  {
    hide CdeLess;
    CdeTrichotomy(k, k);
    if k in ContentsOf(key, es) { ContentsFrom(key, es, k); }
  }

  lemma BoundedNone(prev: Previous)
    ensures Bounded(ENTRY_KEY, [], prev) && Bounded(ITEM_KEY, [], prev)
  {
  }

  // --- tables --------------------------------------------------------------------------------

  lemma ListUnfold(elem: Shape, s: Bytes, n: nat, done: seq<Val>)
    ensures Prepend(done, DecodeList(elem, s, n)) ==
            if n == 0 then Ok((done, s))
            else match DecodeShape(elem, s)
                 case Ok((v, t)) => Prepend(done + [v], DecodeList(elem, t, n - 1))
                 case Err(e) => Err(e)
  {
    hide DecodeShape;
    if n == 0 {
      assert done + [] == done;
    } else if DecodeShape(elem, s).Ok? {
      var (v, t) := DecodeShape(elem, s).value;
      if DecodeList(elem, t, n - 1).Ok? {
        assert done + ([v] + DecodeList(elem, t, n - 1).value.0) == done + [v] + DecodeList(elem, t, n - 1).value.0;
      }
    }
  }

  lemma TupleUnfold(elems: seq<Shape>, s: Bytes, done: seq<Val>)
    ensures Prepend(done, DecodeTuple(elems, s)) ==
            if elems == [] then Ok((done, s))
            else match DecodeShape(elems[0], s)
                 case Ok((v, t)) => Prepend(done + [v], DecodeTuple(elems[1..], t))
                 case Err(e) => Err(e)
  {
    hide DecodeShape;
    if elems == [] {
      assert done + [] == done;
    } else if DecodeShape(elems[0], s).Ok? {
      var (v, t) := DecodeShape(elems[0], s).value;
      if DecodeTuple(elems[1..], t).Ok? {
        assert done + ([v] + DecodeTuple(elems[1..], t).value.0) == done + [v] + DecodeTuple(elems[1..], t).value.0;
      }
    }
  }

  lemma FieldsUnfold(st: Shape, s: Bytes, n: nat, prev: Previous, done: seq<Item>)
    requires st.StructShape?
    ensures Prepend(done, DecodeFields(st, s, n, prev)) ==
            if n == 0 then Ok((done, s))
            else match DecodeItem(st, s, prev)
                 case Ok((it, t)) => Prepend(done + [it], DecodeFields(st, t, n - 1, After(EncodeLabel(it.key))))
                 case Err(e) => Err(e)
  {
    hide DecodeItem, EncodeLabel;
    if n == 0 {
      assert done + [] == done;
    } else if DecodeItem(st, s, prev).Ok? {
      var (it, t) := DecodeItem(st, s, prev).value;
      var rest := DecodeFields(st, t, n - 1, After(EncodeLabel(it.key)));
      if rest.Ok? {
        assert done + ([it] + rest.value.0) == done + [it] + rest.value.0;
      }
    }
  }

  /** Slots and tail hold exactly what the entries read so far say. */
  predicate Filled(st: Shape, items: seq<Item>, slots: seq<Slot>, extra: seq<Item>)
    requires st.StructShape?
  {
    && |slots| == |st.fields|
    && (forall i :: 0 <= i < |slots| ==> slots[i] == Lookup(items, st.fields[i].key))
    && extra == Rest(st.fields, items)
  }

  lemma {:induction false} LookupAppend(items: seq<Item>, it: Item, l: Label)
    ensures Lookup(items + [it], l) ==
            if Lookup(items, l).Present? then Lookup(items, l) else if it.key == l then Present(it.val) else Absent
  {
    if items == [] {
      assert items + [it] == [it];
    } else {
      LookupAppend(items[1..], it, l);
      assert (items + [it])[1..] == items[1..] + [it];
    }
  }

  lemma {:induction false} RestAppend(fields: seq<Field>, items: seq<Item>, it: Item)
    ensures Rest(fields, items + [it]) == Rest(fields, items) + (if HasField(fields, it.key) then [] else [it])
  {
    if items == [] {
      assert items + [it] == [it];
      assert Rest(fields, [it][1..]) == [];
    } else {
      RestAppend(fields, items[1..], it);
      assert (items + [it])[1..] == items[1..] + [it];
    }
  }

  /** A key that sorts after everything read was not read before, and its tail entry goes last. */
  lemma FreshKey(st: Shape, items: seq<Item>, prev: Previous, it: Item)
    requires st.StructShape? && Bounded(ITEM_KEY, items, prev) && Before(prev, EncodeLabel(it.key))
    ensures Lookup(items, it.key).Absent?
    ensures InsertItem(Rest(st.fields, items), it) == Ok(Rest(st.fields, items) + [it])
    ensures Bounded(ITEM_KEY, items + [it], After(EncodeLabel(it.key)))
  {
    hide CdeLess, EncodeLabel, InsertItem;
    BoundedNext(ITEM_KEY, items, prev, it);
    LookupFound(items, it.key);
    if HasKey(items, it.key) {
      var i :| 0 <= i < |items| && items[i].key == it.key;
      assert CdeLess(ITEM_KEY(items[i]), ITEM_KEY(it));
      CdeTrichotomy(ITEM_KEY(it), ITEM_KEY(it));
    }
    var rest := Rest(st.fields, items);
    RestElements(st.fields, items);
    forall i | 0 <= i < |rest|
      ensures CdeLess(ITEM_KEY(rest[i]), ITEM_KEY(it))
    {
      assert rest[i] in items;
    }
    InsertLast(rest, it);
  }

  lemma FilledField(st: Shape, items: seq<Item>, slots: seq<Slot>, extra: seq<Item>, it: Item)
    requires st.StructShape? && Filled(st, items, slots, extra) && DistinctFields(st.fields)
    requires HasField(st.fields, it.key) && Lookup(items, it.key).Absent?
    ensures var i := FieldIndex(st.fields, it.key);
            slots[i].Absent? && Filled(st, items + [it], slots[i := Present(it.val)], extra)
  {
    var k := FieldIndex(st.fields, it.key);
    RestAppend(st.fields, items, it);
    forall i | 0 <= i < |slots|
      ensures slots[k := Present(it.val)][i] == Lookup(items + [it], st.fields[i].key)
    {
      LookupAppend(items, it, st.fields[i].key);
    }
  }

  lemma FilledTail(st: Shape, items: seq<Item>, slots: seq<Slot>, extra: seq<Item>, it: Item)
    requires st.StructShape? && Filled(st, items, slots, extra) && !HasField(st.fields, it.key)
    ensures Filled(st, items + [it], slots, extra + [it])
  {
    RestAppend(st.fields, items, it);
    forall i | 0 <= i < |slots|
      ensures slots[i] == Lookup(items + [it], st.fields[i].key)
    {
      LookupAppend(items, it, st.fields[i].key);
    }
  }

  /** The `ok_or(MissingField)` lines after the key loop. */
  method Finish(st: Shape, slots: seq<Slot>, extra: seq<Item>, ghost items: seq<Item>) returns (r: Decoded<Val>)
    requires st.StructShape? && Filled(st, items, slots, extra)
    ensures r == Assemble(st, items)
  {
    var filled: seq<Slot> := [];
    for i := 0 to |st.fields|
      invariant |filled| == i
      invariant forall j :: 0 <= j < i ==> filled[j] == SlotFor(st.fields[j], items)
      invariant forall j :: 0 <= j < i && filled[j].Absent? ==> st.fields[j].presence.Optional?
    {
      var f := st.fields[i];
      var slot := slots[i];
      if slot.Absent? && f.presence.Required? {
        assert SlotsFor(st.fields, items)[i].Absent?;
        return Err(MissingField);
      }
      filled := filled + [if slot.Absent? && f.presence.Implied? then Present(Unit) else slot];
    }
    assert filled == SlotsFor(st.fields, items);
    return Ok(Record(filled, extra));
  }

  /** A `*_from` function: map head, key loop, missing fields. */
  method DecodeStruct(d: Decoder, st: Shape) returns (r: Decoded<Val>)
    requires d.Valid() && st.StructShape? && GoodStruct(st)
    modifies d
    ensures d.Valid() && old(d.pos) <= d.pos && (r.Ok? ==> old(d.pos) < d.pos)
    ensures Tracks(DecodeShape(st, old(d.Rest())), r, d.Rest())
    decreases |d.input| - d.pos, st, 1
  {
    hide ReadCount, DecodeFields, DecodeItem, Assemble, EncodeLabel, Bounded, Filled, GoodStruct, ContentsOf, Ascending;
    var n := d.DefiniteCount(5);
    if n.Err? { return Err(n.error); }
    ghost var s := d.Rest();
    ghost var items: seq<Item> := [];
    var order := new KeyOrder();
    var slots := seq(|st.fields|, _ => Absent);
    var extra := new CanonicalMap<Item>(ITEM_KEY);
    PrependNothing(DecodeFields(st, s, n.value, First));
    BoundedNone(order.prev);
    FilledNone(st);
    for i := 0 to n.value
      invariant d.Valid() && old(d.pos) < d.pos && fresh(order)
      invariant fresh(extra) && extra.key == ITEM_KEY && extra.Valid()
      invariant Bounded(ITEM_KEY, items, order.prev) && Filled(st, items, slots, extra.entries)
      invariant DecodeFields(st, s, n.value, First) == Prepend(items, DecodeFields(st, d.Rest(), n.value - i, order.prev))
    {
      FieldsUnfold(st, d.Rest(), n.value - i, order.prev, items);
      var it;
      slots, it := DecodeOne(d, st, order, slots, extra, items);
      if it.Err? { return Err(it.error); }
      items := items + [it.value];
    }
    FieldsUnfold(st, d.Rest(), 0, order.prev, items);
    r := Finish(st, slots, extra.entries, items);
  }

  lemma FilledNone(st: Shape)
    requires st.StructShape?
    ensures Filled(st, [], seq(|st.fields|, _ => Absent), [])
  {
  }

  function SetOnce(slot: Slot, v: Val): Decoded<Slot> {
    if slot.Present? then Err(DuplicateKey) else Ok(Present(v))
  }

  /** One turn of the key loop: a key in order, then its value into its slot or the tail. */
  method DecodeOne(d: Decoder, st: Shape, order: KeyOrder, slots: seq<Slot>, extra: CanonicalMap<Item>, ghost items: seq<Item>)
    returns (slots': seq<Slot>, r: Decoded<Item>)
    requires d.Valid() && st.StructShape? && GoodStruct(st) && extra.key == ITEM_KEY && extra.Valid()
    requires Bounded(ITEM_KEY, items, order.prev) && Filled(st, items, slots, extra.entries)
    modifies d, order, extra
    ensures d.Valid() && old(d.pos) <= d.pos && (r.Ok? ==> old(d.pos) < d.pos)
    ensures Tracks(DecodeItem(st, old(d.Rest()), old(order.prev)), r, d.Rest())
    ensures r.Ok? ==> order.prev == After(EncodeLabel(r.value.key)) && Bounded(ITEM_KEY, items + [r.value], order.prev)
    ensures r.Ok? ==> extra.Valid() && Filled(st, items + [r.value], slots', extra.entries)
    decreases |d.input| - d.pos, st, 0
  {
    hide ReadLabel, DecodeShape, EncodeLabel, Bounded, Filled, CdeLess, InsertItem, Lookup, Good, GoodField, ContentsOf, Ascending;
    slots' := slots;
    FilledParts(st, items, slots, extra.entries);
    var key := d.LabelKey(st.labels);
    if key.Err? { r := Err(key.error); return; }
    ghost var prev := order.prev;
    var ordered := order.Push(EncodeLabel(key.value));
    if ordered.Err? { r := Err(ordered.error); return; }
    var reader := ShapeFor(st, key.value);
    if reader.No? { r := Err(UnknownKey); return; }
    GoodShapeFor(st, key.value);
    var v := DecodeTable(d, reader.value);
    if v.Err? { r := Err(v.error); return; }
    var it := Item(key.value, v.value);
    FreshKey(st, items, prev, it);
    var i := FieldIndex(st.fields, key.value);
    if i < |st.fields| {
      FilledField(st, items, slots, extra.entries, it);
      match SetOnce(slots[i], v.value) {
        case Err(e) => r := Err(e); return;
        case Ok(slot) => slots' := slots[i := slot];
      }
    } else {
      FilledTail(st, items, slots, extra.entries, it);
      TableInsertion(extra.entries, it);
      var inserted := extra.Insert(it);
      match inserted {
        case Err(e) => r := Err(e); return;
        case Ok(_) =>
      }
    }
    r := Ok(it);
  }

  lemma FilledParts(st: Shape, items: seq<Item>, slots: seq<Slot>, extra: seq<Item>)
    requires st.StructShape? && Filled(st, items, slots, extra)
    ensures |slots| == |st.fields| && extra == Rest(st.fields, items)
  {
  }

  /** The first pass of `frame_from` and `manage_params_from`. */
  method ScanTag(d: Decoder, disc: Bytes) returns (r: Decoded<Bytes>)
    requires d.Valid()
    modifies d
    ensures d.Valid() && r == Scan(disc, old(d.Rest()))
  {
    hide ReadCount, ReadText, Skip, TextItem, CdeLess;
    var n := d.DefiniteCount(5);
    if n.Err? { return Err(n.error); }
    ghost var s := d.Rest();
    var keys := new MapDecoder(n.value);
    var found: Opt<Bytes> := No;
    while keys.remaining > 0
      invariant d.Valid() && fresh(keys) && fresh(keys.order)
      invariant ScanFields(disc, s, n.value, First, No) == ScanFields(disc, d.Rest(), keys.remaining, keys.order.prev, found)
      decreases keys.remaining
    {
      var key := keys.NextKey(d);
      if key.Err? { return Err(key.error); }
      if key.value == Yes(disc) {
        if found.Yes? { return Err(DuplicateKey); }
        var tag := d.TextValue();
        if tag.Err? { return Err(tag.error); }
        found := Yes(tag.value);
      } else {
        var skipped := d.SkipItem();
        if skipped.Err? { return Err(skipped.error); }
      }
    }
    match found
    case No => return Err(MissingField);
    case Yes(tag) => return Ok(tag);
  }

  /** The untyped arm of `manage_params_from`. */
  method DecodeUntyped(d: Decoder) returns (r: Decoded<seq<Item>>)
    requires d.Valid()
    modifies d
    ensures d.Valid() && old(d.pos) <= d.pos
    ensures match ReadCount(old(d.Rest()), 5)
            case Err(e) => r == Err(e)
            case Ok((n, t)) => Tracks(DecodeFree(t, n, []), r, d.Rest())
  {
    hide ReadCount, ReadText, DecodeValue, InsertItem, ContentsOf, Ascending;
    var n := d.DefiniteCount(5);
    if n.Err? { return Err(n.error); }
    ghost var s := d.Rest();
    var entries := new CanonicalMap<Item>(ITEM_KEY);
    for i := 0 to n.value
      invariant d.Valid() && old(d.pos) <= d.pos
      invariant fresh(entries) && entries.key == ITEM_KEY && entries.Valid()
      invariant DecodeFree(s, n.value, []) == DecodeFree(d.Rest(), n.value - i, entries.entries)
    {
      var key := d.TextValue();
      if key.Err? { return Err(key.error); }
      var value := DecodeStrict(d);
      if value.Err? { return Err(value.error); }
      var it := Item(TextLabel(key.value), Any(value.value));
      TableInsertion(entries.entries, it);
      var inserted := entries.Insert(it);
      if inserted.Err? { return Err(inserted.error); }
    }
    return Ok(entries.entries);
  }

  method DecodeLeaf(d: Decoder, sh: Shape) returns (r: Decoded<Val>)
    requires d.Valid() && Leaf(sh)
    modifies d
    ensures d.Valid() && old(d.pos) <= d.pos && (r.Ok? ==> old(d.pos) < d.pos)
    ensures Tracks(DecodeShape(sh, old(d.Rest())), r, d.Rest())
  {
    hide ReadUint, ReadInt, ReadBytes, ReadText, DecodeValue;
    match sh {
      case UintShape =>
        var v := d.UintValue();
        return if v.Err? then Err(v.error) else Ok(Num(v.value));
      case IntShape =>
        var v := d.IntValue();
        return if v.Err? then Err(v.error) else Ok(Num(v.value));
      case BytesShape =>
        var b := d.BytesValue();
        return if b.Err? then Err(b.error) else Ok(Blob(b.value));
      case SizedShape(n) =>
        var b := d.BytesValue();
        return if b.Err? then Err(b.error) else if |b.value| == n then Ok(Blob(b.value)) else Err(InvalidLength);
      case TextShape =>
        var x := d.TextValue();
        return if x.Err? then Err(x.error) else Ok(Str(x.value));
      case EnumShape(allowed) =>
        var x := d.TextValue();
        return if x.Err? then Err(x.error) else if x.value in allowed then Ok(Str(x.value)) else Err(Malformed);
      case LiteralShape(text) =>
        var x := d.TextValue();
        return if x.Err? then Err(x.error) else if x.value == text then Ok(Unit) else Err(BadLiteral);
      case NullableBytesShape =>
        if d.pos == |d.input| { return Err(Malformed); }
        assert d.input[d.pos] == d.Rest()[0];
        if d.input[d.pos] == 0xF6 {
          d.pos := d.pos + 1;
          return Ok(NoBytes);
        }
        var b := d.BytesValue();
        return if b.Err? then Err(b.error) else Ok(Blob(b.value));
      case AnyShape =>
        var v := DecodeStrict(d);
        return if v.Err? then Err(v.error) else Ok(Any(v.value));
    }
  }

  method DecodeListLoop(d: Decoder, elem: Shape, n: nat) returns (r: Decoded<seq<Val>>)
    requires d.Valid() && Good(elem)
    modifies d
    ensures d.Valid() && old(d.pos) <= d.pos
    ensures Tracks(DecodeList(elem, old(d.Rest()), n), r, d.Rest())
    decreases |d.input| - d.pos, elem, 3
  {
    hide DecodeShape, DecodeList, Good;
    ghost var s := d.Rest();
    var vs: seq<Val> := [];
    PrependNothing(DecodeList(elem, s, n));
    for i := 0 to n
      invariant d.Valid() && old(d.pos) <= d.pos
      invariant DecodeList(elem, s, n) == Prepend(vs, DecodeList(elem, d.Rest(), n - i))
    {
      ListUnfold(elem, d.Rest(), n - i, vs);
      var v := DecodeTable(d, elem);
      if v.Err? { return Err(v.error); }
      vs := vs + [v.value];
    }
    ListUnfold(elem, d.Rest(), 0, vs);
    return Ok(vs);
  }

  method DecodeTupleLoop(d: Decoder, elems: seq<Shape>) returns (r: Decoded<seq<Val>>)
    requires d.Valid() && forall i :: 0 <= i < |elems| ==> Good(elems[i])
    modifies d
    ensures d.Valid() && old(d.pos) <= d.pos
    ensures Tracks(DecodeTuple(elems, old(d.Rest())), r, d.Rest())
    decreases |d.input| - d.pos, elems, 3
  {
    hide DecodeShape, DecodeTuple, Good;
    ghost var s := d.Rest();
    var vs: seq<Val> := [];
    PrependNothing(DecodeTuple(elems, s));
    assert elems[0..] == elems;
    for i := 0 to |elems|
      invariant d.Valid() && old(d.pos) <= d.pos
      invariant DecodeTuple(elems, s) == Prepend(vs, DecodeTuple(elems[i..], d.Rest()))
    {
      TupleUnfold(elems[i..], d.Rest(), vs);
      assert elems[i..][0] == elems[i] && elems[i..][1..] == elems[i + 1..];
      var v := DecodeTable(d, elems[i]);
      if v.Err? { return Err(v.error); }
      vs := vs + [v.value];
    }
    TupleUnfold([], d.Rest(), vs);
    return Ok(vs);
  }

  /** Any reader of the schema. */
  method DecodeTable(d: Decoder, sh: Shape) returns (r: Decoded<Val>)
    requires d.Valid() && Good(sh)
    modifies d
    ensures d.Valid() && old(d.pos) <= d.pos && (r.Ok? ==> old(d.pos) < d.pos)
    ensures Tracks(DecodeShape(sh, old(d.Rest())), r, d.Rest())
    decreases |d.input| - d.pos, sh, 2
  {
    if Leaf(sh) {
      r := DecodeLeaf(d, sh);
      return;
    }
    hide ReadCount, DecodeList, DecodeTuple, DecodeFields, Scan, DecodeFree, Assemble, OutcomeOf;
    match sh {
      case ListShape(elem) =>
        var n := d.DefiniteCount(4);
        if n.Err? { return Err(n.error); }
        var vs := DecodeListLoop(d, elem, n.value);
        return if vs.Err? then Err(vs.error) else Ok(List(vs.value));
      case TupleShape(elems) =>
        var n := d.DefiniteCount(4);
        if n.Err? { return Err(n.error); }
        if n.value != |elems| { return Err(WrongArity); }
        var vs := DecodeTupleLoop(d, elems);
        return if vs.Err? then Err(vs.error) else Ok(List(vs.value));
      case StructShape(_, _, _) =>
        r := DecodeStruct(d, sh);
      case UnionShape(disc, cases, open) =>
        r := DecodeUnion(d, sh);
      case OutcomeShape(st) =>
        OutcomeGood();
        var v := DecodeStruct(d, st);
        if v.Err? { return v; }
        r := OutcomeOf(v.value);
    }
  }

  /** Two passes over the same map: find the discriminant, rewind, decode the case it names. */
  method DecodeUnion(d: Decoder, sh: Shape) returns (r: Decoded<Val>)
    requires d.Valid() && sh.UnionShape? && Good(sh)
    modifies d
    ensures d.Valid() && old(d.pos) <= d.pos && (r.Ok? ==> old(d.pos) < d.pos)
    ensures Tracks(DecodeShape(sh, old(d.Rest())), r, d.Rest())
    decreases |d.input| - d.pos, sh, 1
  {
    hide ReadCount, DecodeFields, Scan, DecodeFree, Assemble, FindCase;
    var start := d.pos;
    var tag := ScanTag(d, sh.disc);
    d.pos := start;
    if tag.Err? { return Err(tag.error); }
    match FindCase(sh.cases, tag.value) {
      case Yes(c) =>
        CaseSmaller(sh, c, tag.value);
        FoundCaseGood(sh.disc, sh.cases, tag.value);
        var v := DecodeStruct(d, c);
        return if v.Err? then v else Ok(Tagged(tag.value, v.value));
      case No =>
        if !sh.open { return Err(BadLiteral); }
        var entries := DecodeUntyped(d);
        return if entries.Err? then Err(entries.error) else Ok(Free(entries.value));
    }
  }
}
