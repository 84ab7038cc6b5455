/**
  Which tables are well formed, and which values a decoder can return for a
  table: the domain of the codec theorems.
 */
module SchemaForms {
  import opened Common
  import opened Cbor
  import opened CdeOrder
  import opened Value
  import opened Schema
  import opened SchemaItems

  // --- tables ---------------------------------------------------------------------------

  predicate NoImplied(fields: seq<Field>) {
    forall i :: 0 <= i < |fields| ==> !fields[i].presence.Implied?
  }

  predicate Good(sh: Shape)
    decreases sh, 1
  {
    match sh
    case LiteralShape(x) => TextValue(x)
    case ListShape(elem) => Good(elem)
    case TupleShape(elems) => |elems| < U64 && forall i :: 0 <= i < |elems| ==> Good(elems[i])
    case StructShape(fields, _, _) => GoodStruct(sh) && NoImplied(fields)
    case UnionShape(disc, cases, _) => TextValue(disc) && forall i :: 0 <= i < |cases| ==> GoodCase(disc, cases[i])
    case OutcomeShape(st) => st == OUTCOME
    case _ => true
  }

  predicate GoodField(labels: bool, f: Field)
    decreases f, 0
  {
    ValidLabel(labels, f.key) && Good(f.shape)
  }

  predicate GoodTail(t: Tail)
    decreases t, 0
  {
    match t
    case Closed => true
    case Open(sh) => Good(sh)
  }

  predicate GoodStruct(st: Shape)
    decreases st, 0
  {
    && st.StructShape?
    && (forall i :: 0 <= i < |st.fields| ==> GoodField(st.labels, st.fields[i]))
    && DistinctFields(st.fields)
    && GoodTail(st.tail)
  }

  /** A case of a two-pass union: a text-keyed struct holding the discriminant as a literal. */
  predicate GoodCase(disc: Bytes, c: Case)
    decreases c, 0
  {
    TextValue(c.tag) && GoodStruct(c.shape) && HoldsLiteral(c.shape, disc, c.tag)
  }

  predicate HoldsLiteral(st: Shape, disc: Bytes, tag: Bytes)
    requires st.StructShape?
  {
    && !st.labels
    && HasField(st.fields, TextLabel(disc))
    && st.fields[FieldIndex(st.fields, TextLabel(disc))].shape == LiteralShape(tag)
    && !st.fields[FieldIndex(st.fields, TextLabel(disc))].presence.Optional?
    && forall i :: 0 <= i < |st.fields| && st.fields[i].presence.Implied? ==> st.fields[i].key == TextLabel(disc)
  }

  lemma FoundCaseGood(disc: Bytes, cases: seq<Case>, tag: Bytes)
    requires forall i :: 0 <= i < |cases| ==> GoodCase(disc, cases[i])
    requires FindCase(cases, tag).Yes?
    ensures GoodCase(disc, Case(tag, FindCase(cases, tag).value))
  {
  }

  lemma GoodShapeFor(st: Shape, l: Label)
    requires GoodStruct(st) && ShapeFor(st, l).Yes?
    ensures Good(ShapeFor(st, l).value)
  {
    var i := FieldIndex(st.fields, l);
    if i < |st.fields| {
      assert GoodField(st.labels, st.fields[i]);
    }
  }

  // --- values ------------------------------------------------------------------------------

  predicate WF(sh: Shape, v: Val)
    decreases sh, 3
  {
    match sh
    case UintShape => v.Num? && 0 <= v.i < U64
    case IntShape => v.Num? && -I64 <= v.i < I64
    case BytesShape => v.Blob? && |v.bytes| < U64
    case SizedShape(n) => v.Blob? && |v.bytes| == n < U64
    case TextShape => v.Str? && TextValue(v.text)
    case EnumShape(allowed) => v.Str? && TextValue(v.text) && v.text in allowed
    case LiteralShape(_) => v.Unit?
    case NullableBytesShape => v.NoBytes? || (v.Blob? && |v.bytes| < U64)
    case AnyShape => v.Any? && Normal(v.value)
    case ListShape(elem) => v.List? && |v.items| < U64 && forall i :: 0 <= i < |v.items| ==> WF(elem, v.items[i])
    case TupleShape(elems) =>
      v.List? && |v.items| == |elems| < U64 && forall i :: 0 <= i < |elems| ==> WF(elems[i], v.items[i])
    case StructShape(_, _, _) => WFRecord(sh, v)
    case UnionShape(disc, cases, open) =>
      if v.Tagged? then
        match FindCase(cases, v.tag)
        case Yes(c) => assert c < sh by { CaseSmaller(sh, c, v.tag); } WF(c, v.body)
        case No => false
      else v.Free? && open && WFFree(disc, cases, v.entries)
    case OutcomeShape(_) => WFOutcome(v)
  }

  /** An entry a struct decoder can read. */
  predicate WFItem(st: Shape, it: Item)
    requires st.StructShape?
    decreases st, 0
  {
    ValidLabel(st.labels, it.key) &&
    match ShapeFor(st, it.key)
    case Yes(sh) => WF(sh, it.val)
    case No => false
  }

  predicate WFItems(st: Shape, items: seq<Item>)
    requires st.StructShape?
    decreases st, 1
  {
    forall i :: 0 <= i < |items| ==> WFItem(st, items[i])
  }

  /** Every field present that must be, the tail ascending and clear of the field names. */
  predicate WFRecord(st: Shape, v: Val)
    requires st.StructShape?
    decreases st, 2
  {
    && v.Record? && |v.slots| == |st.fields|
    && Complete(st.fields, v.slots)
    && Ascending(ITEM_KEY, v.extra)
    && (forall j :: 0 <= j < |v.extra| ==> !HasField(st.fields, v.extra[j].key))
    && |RecordItems(st, v)| < U64
    && WFItems(st, RecordItems(st, v))
  }

  predicate FreeItem(it: Item) {
    it.key.TextLabel? && TextValue(it.key.text) && it.val.Any? && Normal(it.val.value)
  }

  predicate WFFree(disc: Bytes, cases: seq<Case>, items: seq<Item>) {
    && |items| < U64
    && (forall i :: 0 <= i < |items| ==> FreeItem(items[i]))
    && Ascending(ITEM_KEY, items)
    && TextSlot(Lookup(items, TextLabel(disc)))
    && FindCase(cases, Lookup(items, TextLabel(disc)).val.value.text).No?
  }

  predicate WFOutcome(v: Val) {
    match v
    case Okay(results) =>
      && |results| + 1 < U64 && Ascending(ITEM_KEY, results)
      && forall i :: 0 <= i < |results| ==> FreeItem(results[i]) && results[i].key != RESULT
    case Failed(code, message) =>
      TextValue(code) && (message.Present? ==> message.val.Str? && TextValue(message.val.text))
    case _ => false
  }
}
