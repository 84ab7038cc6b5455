/**
  The hand-written codecs of wire-mesh-wire as one table-driven codec.

  Every `*_from` decoder of the crate is the same loop over a table of keys,
  readers and missing-field rules, and every `Encode` impl writes the same
  table; a `Shape` is such a table.  `DecodeShape` runs the loops, `Enc` writes
  the bytes: as the code does (`canon == false`: closed structs in table order,
  structs with an open tail through the sorting builder), or with every map
  sorted (`canon == true`, the reference).
 */
module Schema {
  import opened Common
  import opened Cbor
  import opened CdeOrder
  import opened Value

  /** `HeaderLabel`; ordinary structs use only texts. */
  datatype Label = IntLabel(i: int) | TextLabel(text: Bytes)

  /** `Implied`: a literal the decoder checks if present but does not ask for. */
  datatype Presence = Required | Optional | Implied

  datatype Shape =
    | UintShape
    | IntShape
    | BytesShape
    | SizedShape(size: nat)
    | TextShape
    | EnumShape(allowed: seq<Bytes>)
    | LiteralShape(text: Bytes)
    | NullableBytesShape
    | AnyShape
    | ListShape(elem: Shape)
    | TupleShape(elems: seq<Shape>)
    | StructShape(fields: seq<Field>, tail: Tail, labels: bool)
    | UnionShape(disc: Bytes, cases: seq<Case>, open: bool)
    | OutcomeShape(outcome: Shape)

  datatype Field = Field(key: Label, shape: Shape, presence: Presence)

  datatype Tail = Closed | Open(shape: Shape)

  datatype Case = Case(tag: Bytes, shape: Shape)

  /** What the decoders return. */
  datatype Val =
    | Num(i: int)
    | Blob(bytes: Bytes)
    | Str(text: Bytes)
    | Unit
    | NoBytes
    | Any(value: CborValue)
    | List(items: seq<Val>)
    | Record(slots: seq<Slot>, extra: seq<Item>)
    | Tagged(tag: Bytes, body: Val)
    | Free(entries: seq<Item>)
    | Okay(results: seq<Item>)
    | Failed(code: Bytes, message: Slot)

  datatype Slot = Absent | Present(val: Val)

  datatype Item = Item(key: Label, val: Val)

  // --- labels ---------------------------------------------------------------------------

  function EncodeLabel(l: Label): Bytes {
    match l
    case IntLabel(i) => IntBytes(i)
    case TextLabel(t) => TextItem(t)
  }

  predicate ValidLabel(labels: bool, l: Label) {
    match l
    case IntLabel(i) => labels && -I64 <= i < I64
    case TextLabel(t) => TextValue(t)
  }

  /** `text_key`, or `HeaderLabel::decode_strict` where `labels`. */
  function ReadLabel(labels: bool, s: Bytes): (r: Decoded<(Label, Bytes)>)
    ensures r.Ok? ==> |r.value.1| < |s|
  {
    if labels && StartsWith(s, 0) then
      var (v, t) :- ReadUint(s);
      if v < I64 then Ok((IntLabel(v), t)) else Err(Constraint)
    else if labels && StartsWith(s, 1) then
      var (v, t) :- ReadInt(s);
      Ok((IntLabel(v), t))
    else
      var (x, t) :- ReadText(s);
      Ok((TextLabel(x), t))
  }

  const ITEM_KEY: Item -> Bytes := (it: Item) => EncodeLabel(it.key)

  // --- tables ------------------------------------------------------------------------------

  function FieldIndex(fields: seq<Field>, l: Label): (i: nat)
    ensures i <= |fields|
    ensures i < |fields| ==> fields[i].key == l
    ensures forall j :: 0 <= j < i ==> fields[j].key != l
  {
    if fields == [] then 0 else if fields[0].key == l then 0 else 1 + FieldIndex(fields[1..], l)
  }

  predicate HasField(fields: seq<Field>, l: Label) {
    FieldIndex(fields, l) < |fields|
  }

  /** The reader a key selects: its field's, else the open tail's, else none. */
  function ShapeFor(st: Shape, l: Label): (r: Opt<Shape>)
    requires st.StructShape?
    ensures r.Yes? ==> r.value < st
  {
    var i := FieldIndex(st.fields, l);
    if i < |st.fields| then
      assert st.fields[i] in st.fields;
      Yes(st.fields[i].shape)
    else
      match st.tail
      case Closed => No
      case Open(sh) => Yes(sh)
  }

  function FindCase(cases: seq<Case>, tag: Bytes): (r: Opt<Shape>)
    ensures r.Yes? ==> exists i :: 0 <= i < |cases| && cases[i] == Case(tag, r.value)
  {
    if cases == [] then No
    else if cases[0].tag == tag then assert cases[0] == Case(tag, cases[0].shape); Yes(cases[0].shape)
    else
      var r := FindCase(cases[1..], tag);
      assert r.Yes? ==> exists i :: 0 <= i < |cases| && cases[i] == Case(tag, r.value) by {
        if r.Yes? {
          var i :| 0 <= i < |cases[1..]| && cases[1..][i] == Case(tag, r.value);
          assert cases[i + 1] == Case(tag, r.value);
        }
      }
      r
  }

  // --- decoding --------------------------------------------------------------------------------

  function DecodeShape(sh: Shape, s: Bytes): (r: Decoded<(Val, Bytes)>)
    ensures r.Ok? ==> |r.value.1| < |s|
    decreases |s|, sh, 0
  {
    match sh
    case UintShape =>
      var (v, t) :- ReadUint(s);
      Ok((Num(v), t))
    case IntShape =>
      var (v, t) :- ReadInt(s);
      Ok((Num(v), t))
    case BytesShape =>
      var (b, t) :- ReadBytes(s);
      Ok((Blob(b), t))
    case SizedShape(n) =>
      var (b, t) :- ReadBytes(s);
      if |b| == n then Ok((Blob(b), t)) else Err(InvalidLength)
    case TextShape =>
      var (x, t) :- ReadText(s);
      Ok((Str(x), t))
    case EnumShape(allowed) =>
      var (x, t) :- ReadText(s);
      if x in allowed then Ok((Str(x), t)) else Err(Malformed)
    case LiteralShape(text) =>
      var (x, t) :- ReadText(s);
      if x == text then Ok((Unit, t)) else Err(BadLiteral)
    case NullableBytesShape =>
      if s == [] then Err(Malformed)
      else if s[0] == 0xF6 then Ok((NoBytes, s[1..]))
      else
        var (b, t) :- ReadBytes(s);
        Ok((Blob(b), t))
    case AnyShape =>
      var (v, t) :- DecodeValue(s);
      Ok((Any(v), t))
    case ListShape(elem) =>
      var (n, t) :- ReadCount(s, 4);
      var (vs, u) :- DecodeList(elem, t, n);
      Ok((List(vs), u))
    case TupleShape(elems) =>
      var (n, t) :- ReadCount(s, 4);
      if n != |elems| then Err(WrongArity)
      else
        var (vs, u) :- DecodeTuple(elems, t);
        Ok((List(vs), u))
    case StructShape(_, _, _) =>
      var (n, t) :- ReadCount(s, 5);
      var (items, u) :- DecodeFields(sh, t, n, First);
      var v :- Assemble(sh, items);
      Ok((v, u))
    case UnionShape(disc, cases, open) =>
      var tag :- Scan(disc, s);
      match FindCase(cases, tag) {
        case Yes(c) =>
          assert c < sh by { CaseSmaller(sh, c, tag); }
          var (v, t) :- DecodeShape(c, s);
          Ok((Tagged(tag, v), t))
        case No =>
          if !open then Err(BadLiteral)
          else
            var (n, t) :- ReadCount(s, 5);
            var (items, u) :- DecodeFree(t, n, []);
            Ok((Free(items), u))
      }
    case OutcomeShape(st) =>
      if !st.StructShape? then Err(Malformed)
      else
        var (n, t) :- ReadCount(s, 5);
        var (items, u) :- DecodeFields(st, t, n, First);
        var v :- Assemble(st, items);
        var o :- OutcomeOf(v);
        Ok((o, u))
  }

  lemma CaseSmaller(sh: Shape, c: Shape, tag: Bytes)
    requires sh.UnionShape? && FindCase(sh.cases, tag) == Yes(c)
    ensures c < sh
  {
    var i :| 0 <= i < |sh.cases| && sh.cases[i] == Case(tag, c);
    assert sh.cases[i] in sh.cases;
  }

  function DecodeList(elem: Shape, s: Bytes, n: nat): (r: Decoded<(seq<Val>, Bytes)>)
    ensures r.Ok? ==> |r.value.1| <= |s| && |r.value.0| == n
    decreases |s|, elem, n
  {
    if n == 0 then Ok(([], s))
    else
      var (v, t) :- DecodeShape(elem, s);
      var (vs, u) :- DecodeList(elem, t, n - 1);
      Ok(([v] + vs, u))
  }

  function DecodeTuple(elems: seq<Shape>, s: Bytes): (r: Decoded<(seq<Val>, Bytes)>)
    ensures r.Ok? ==> |r.value.1| <= |s| && |r.value.0| == |elems|
    decreases |s|, elems, 1
  {
    if elems == [] then Ok(([], s))
    else
      var (v, t) :- DecodeShape(elems[0], s);
      var (vs, u) :- DecodeTuple(elems[1..], t);
      Ok(([v] + vs, u))
  }

  /** One key, in order, and the value its reader reads. */
  function DecodeItem(st: Shape, s: Bytes, prev: Previous): (r: Decoded<(Item, Bytes)>)
    requires st.StructShape?
    ensures r.Ok? ==> |r.value.1| < |s|
    decreases |s|, st, 1
  {
    var (l, t) :- ReadLabel(st.labels, s);
    var _ :- CheckKey(prev, EncodeLabel(l));
    match ShapeFor(st, l)
    case No => Err(UnknownKey)
    case Yes(sh) =>
      var (v, u) :- DecodeShape(sh, t);
      Ok((Item(l, v), u))
  }

  /** The key loop of a decoder. */
  function DecodeFields(st: Shape, s: Bytes, n: nat, prev: Previous): (r: Decoded<(seq<Item>, Bytes)>)
    requires st.StructShape?
    ensures r.Ok? ==> |r.value.1| <= |s| && |r.value.0| == n
    decreases |s|, st, 2
  {
    if n == 0 then Ok(([], s))
    else
      var (it, t) :- DecodeItem(st, s, prev);
      var (items, u) :- DecodeFields(st, t, n - 1, After(EncodeLabel(it.key)));
      Ok(([it] + items, u))
  }

  function Lookup(items: seq<Item>, l: Label): Slot {
    if items == [] then Absent else if items[0].key == l then Present(items[0].val) else Lookup(items[1..], l)
  }

  function SlotFor(f: Field, items: seq<Item>): Slot {
    var s := Lookup(items, f.key);
    if s.Absent? && f.presence.Implied? then Present(Unit) else s
  }

  function Rest(fields: seq<Field>, items: seq<Item>): seq<Item> {
    if items == [] then []
    else (if HasField(fields, items[0].key) then [] else [items[0]]) + Rest(fields, items[1..])
  }

  predicate Complete(fields: seq<Field>, slots: seq<Slot>)
    requires |fields| == |slots|
  {
    forall i :: 0 <= i < |fields| && slots[i].Absent? ==> fields[i].presence.Optional?
  }

  function SlotsFor(fields: seq<Field>, items: seq<Item>): (r: seq<Slot>)
    ensures |r| == |fields|
    ensures forall i :: 0 <= i < |fields| ==> r[i] == SlotFor(fields[i], items)
  {
    seq(|fields|, i requires 0 <= i < |fields| => SlotFor(fields[i], items))
  }

  /** The `ok_or(MissingField)` tail of a decoder, and the slots and open tail it returns. */
  function Assemble(st: Shape, items: seq<Item>): Decoded<Val>
    requires st.StructShape?
  {
    var slots := SlotsFor(st.fields, items);
    if Complete(st.fields, slots) then Ok(Record(slots, Rest(st.fields, items))) else Err(MissingField)
  }

  /**
    First pass of a two-pass decoder: find the discriminant among the keys,
    skipping every other value unchecked.
   */
  function Scan(disc: Bytes, s: Bytes): Decoded<Bytes> {
    var (n, t) :- ReadCount(s, 5);
    var found :- ScanFields(disc, t, n, First, No);
    match found
    case No => Err(MissingField)
    case Yes(tag) => Ok(tag)
  }

  function ScanFields(disc: Bytes, s: Bytes, n: nat, prev: Previous, found: Opt<Bytes>): Decoded<Opt<Bytes>>
    decreases n
  {
    if n == 0 then Ok(found)
    else
      var (x, t) :- ReadText(s);
      var _ :- CheckKey(prev, TextItem(x));
      if x == disc then
        if found.Yes? then Err(DuplicateKey)
        else
          var (tag, u) :- ReadText(t);
          ScanFields(disc, u, n - 1, After(TextItem(x)), Yes(tag))
      else
        var u :- Skip(t);
        ScanFields(disc, u, n - 1, After(TextItem(x)), found)
  }

  /** `CanonicalMap::insert`, on the entries it keeps. */
  function InsertItem(acc: seq<Item>, it: Item): Decoded<seq<Item>> {
    if exists i :: 0 <= i < |acc| && ITEM_KEY(acc[i]) == ITEM_KEY(it) then Err(DuplicateKey)
    else Ok(Insert(ITEM_KEY, it, acc))
  }

  /** The catch-all arm of `manage_params_from`: keys are not checked for order again. */
  function DecodeFree(s: Bytes, n: nat, acc: seq<Item>): (r: Decoded<(seq<Item>, Bytes)>)
    ensures r.Ok? ==> |r.value.1| <= |s|
    decreases n
  {
    if n == 0 then Ok((acc, s))
    else
      var (x, t) :- ReadText(s);
      var (v, u) :- DecodeValue(t);
      var acc' :- InsertItem(acc, Item(TextLabel(x), Any(v)));
      DecodeFree(u, n - 1, acc')
  }

  // --- manage outcomes ----------------------------------------------------------------------------

  /** A name of the schema as bytes; all of them are ASCII, where this is the identity. */
  function Ascii(name: string): (r: Bytes)
    ensures |r| == |name|
    ensures forall i :: 0 <= i < |name| ==> r[i] == name[i] as int % 128
  {
    seq(|name|, i requires 0 <= i < |name| => name[i] as int % 128)
  }

  const OUTCOME: Shape := StructShape([Field(TextLabel(Ascii("result")), TextShape, Required)], Open(AnyShape), false)
  const CODE: Label := TextLabel(Ascii("code"))
  const MESSAGE: Label := TextLabel(Ascii("message"))
  const RESULT: Label := TextLabel(Ascii("result"))

  predicate TextSlot(s: Slot) {
    s.Present? && s.val.Any? && s.val.value.Text?
  }

  function MessageOf(s: Slot): Slot
    requires s.Absent? || TextSlot(s)
  {
    if s.Absent? then Absent else Present(Str(s.val.value.text))
  }

  /** The `match result` tail of `manage_outcome_from`. */
  function OutcomeOf(v: Val): Decoded<Val> {
    if !v.Record? || |v.slots| != 1 || !v.slots[0].Present? || !v.slots[0].val.Str? then Err(MissingField)
    else
      var result, extra := v.slots[0].val.text, v.extra;
      if result == Ascii("ok") then Ok(Okay(extra))
      else if result == Ascii("error") then
        var code, message := Lookup(extra, CODE), Lookup(extra, MESSAGE);
        if code.Absent? then Err(MissingField)
        else if !TextSlot(code) then Err(Constraint)
        else if message.Present? && !TextSlot(message) then Err(Constraint)
        else if exists i :: 0 <= i < |extra| && extra[i].key != CODE && extra[i].key != MESSAGE then Err(UnknownKey)
        else Ok(Failed(code.val.value.text, MessageOf(message)))
      else Err(BadLiteral)
  }

  function MessageItems(message: Slot): seq<Item> {
    if message.Present? && message.val.Str? then [Item(MESSAGE, Any(Text(message.val.text)))] else []
  }

  /** The map an outcome is written as, in the order its encoder writes it. */
  function OutcomeItems(v: Val): seq<Item> {
    match v
    case Okay(results) => [Item(RESULT, Str(Ascii("ok")))] + results
    case Failed(code, message) =>
      [Item(CODE, Any(Text(code))), Item(RESULT, Str(Ascii("error")))] + MessageItems(message)
    case _ => []
  }

  // --- encoding ---------------------------------------------------------------------------------------

  function SlotItems(fields: seq<Field>, slots: seq<Slot>): seq<Item>
    requires |fields| == |slots|
  {
    if fields == [] then []
    else (if slots[0].Present? then [Item(fields[0].key, slots[0].val)] else []) + SlotItems(fields[1..], slots[1..])
  }

  function RecordItems(st: Shape, v: Val): seq<Item>
    requires st.StructShape? && v.Record? && |v.slots| == |st.fields|
  {
    SlotItems(st.fields, v.slots) + v.extra
  }

  /** Does the encoder assemble this struct through `CdeMapBuilder`? */
  predicate Built(st: Shape)
    requires st.StructShape?
  {
    st.tail.Open? && st.fields != []
  }

  function Enc(sh: Shape, v: Val, canon: bool): Bytes
    decreases sh, 3, 0
  {
    match sh
    case UintShape => if v.Num? && v.i >= 0 then HeadBytes(0, v.i) else []
    case IntShape => if v.Num? then IntBytes(v.i) else []
    case BytesShape => if v.Blob? then BytesItem(v.bytes) else []
    case SizedShape(_) => if v.Blob? then BytesItem(v.bytes) else []
    case TextShape => if v.Str? then TextItem(v.text) else []
    case EnumShape(_) => if v.Str? then TextItem(v.text) else []
    case LiteralShape(text) => TextItem(text)
    case NullableBytesShape => if v.Blob? then BytesItem(v.bytes) else [0xF6]
    case AnyShape => if v.Any? then EncodeValue(v.value) else []
    case ListShape(elem) =>
      if v.List? then HeadBytes(4, |v.items|) + EncList(elem, v.items, canon) else []
    case TupleShape(elems) =>
      if v.List? && |v.items| == |elems| then HeadBytes(4, |elems|) + EncTuple(elems, v.items, canon) else []
    case StructShape(_, _, _) =>
      if v.Record? && |v.slots| == |sh.fields| then
        EncMap(sh, if canon || Built(sh) then Sort(ITEM_KEY, RecordItems(sh, v)) else RecordItems(sh, v), canon)
      else []
    case UnionShape(disc, cases, _) =>
      if v.Tagged? then
        match FindCase(cases, v.tag)
        case Yes(c) => assert c < sh by { CaseSmaller(sh, c, v.tag); } Enc(c, v.body, canon)
        case No => []
      else if v.Free? then HeadBytes(5, |v.entries|) + EncFree(v.entries)
      else []
    case OutcomeShape(st) =>
      if !st.StructShape? then []
      else EncMap(st, if canon || v.Okay? then Sort(ITEM_KEY, OutcomeItems(v)) else OutcomeItems(v), canon)
  }

  function EncList(elem: Shape, vs: seq<Val>, canon: bool): Bytes
    decreases elem, 4, |vs|
  {
    if vs == [] then [] else Enc(elem, vs[0], canon) + EncList(elem, vs[1..], canon)
  }

  function EncTuple(elems: seq<Shape>, vs: seq<Val>, canon: bool): Bytes
    requires |elems| == |vs|
    decreases elems, 1, 0
  {
    if elems == [] then [] else Enc(elems[0], vs[0], canon) + EncTuple(elems[1..], vs[1..], canon)
  }

  /** A map head and its entries, in the given order. */
  function EncMap(st: Shape, items: seq<Item>, canon: bool): Bytes
    requires st.StructShape?
    decreases st, 2, 0
  {
    HeadBytes(5, |items|) + EncItems(st, items, canon)
  }

  function EncItem(st: Shape, it: Item, canon: bool): Bytes
    requires st.StructShape?
    decreases st, 0, 0
  {
    EncodeLabel(it.key) +
    match ShapeFor(st, it.key)
    case Yes(sh) => Enc(sh, it.val, canon)
    case No => []
  }

  function EncItems(st: Shape, items: seq<Item>, canon: bool): Bytes
    requires st.StructShape?
    decreases st, 1, |items|
  {
    if items == [] then [] else EncItem(st, items[0], canon) + EncItems(st, items[1..], canon)
  }

  function EncFree(items: seq<Item>): Bytes {
    if items == [] then []
    else
      EncodeLabel(items[0].key) + (if items[0].val.Any? then EncodeValue(items[0].val.value) else []) + EncFree(items[1..])
  }
}
