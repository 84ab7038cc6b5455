/**
  `Frame::decode_bytes` and `Frame::encode_to_vec`: on which frames they are
  inverse to each other.  The two disagree exactly on manage requests that
  carry a `pty.kill` or `proc.signal` command.
 */
module Frames {
  import opened Common
  import opened Cbor
  import opened CdeOrder
  import opened Value
  import opened Schema
  import opened SchemaItems
  import opened SchemaForms
  import opened SchemaCanonical
  import opened SchemaSound
  import opened SchemaRoundTrip
  import opened SchemaEncoder
  import opened Tables
  import opened Wire

  function DecodeFrame(b: Bytes): Decoded<Val> {
    var (v, t) :- DecodeShape(FRAME, b);
    if t == [] then Ok(v) else Err(TrailingBytes)
  }

  function EncodeFrame(f: Val): Bytes {
    Enc(FRAME, f, false)
  }

  /** What the encoder can be asked for: any value of the `Frame` type. */
  predicate IsFrame(f: Val) {
    WF(FRAME, f)
  }

  // --- the schema is well formed ------------------------------------------------------------

  lemma SignalCaseGood(tag: Name)
    ensures var rows := [VerbIs(tag), Req("session", UintShape), Req("signal", IntShape)];
            GoodCase(Ascii("verb"), Case(Ascii(tag), Table(rows)))
  {
    var rows := [VerbIs(tag), Req("session", UintShape), Req("signal", IntShape)];
    SignalFieldsDistinct(tag);
    CaseGood("verb", tag, rows, 0);
  }

  lemma SignalFieldsDistinct(tag: Name)
    ensures DistinctFields(Fields([VerbIs(tag), Req("session", UintShape), Req("signal", IntShape)]))
  {
    var fields := Fields([VerbIs(tag), Req("session", UintShape), Req("signal", IntShape)]);
    assert |fields[0].key.text| == 4 && |fields[1].key.text| == 7 && |fields[2].key.text| == 6;
  }

  /** Every command parameter table is well formed, and all but the first two are in order. */
  lemma ParamCases(i: nat)
    requires i < |PARAM_CASES|
    ensures GoodCase(Ascii("verb"), PARAM_CASES[i])
    ensures i >= 2 ==> Sorted(PARAM_CASES[i].shape)
  {
    hide GoodCase, Sorted, Ascii, Table;
    if i < 2 {
      SignalCaseGood("pty.kill");
      SignalCaseGood("proc.signal");
    } else if i < 9 {
      PtySpawnSound(); PtyWriteSound(); PtyResizeSound(); ProcSpawnSound(); ProcKillSound(); ExecListSound(); WebrtcOfferSound();
    } else {
      WebrtcAnswerSound(); WebrtcIceCandidateSound(); ThresholdCommitSound(); ThresholdSignSound(); ThresholdAbortSound();
      ThresholdKeygenRound1Sound(); ThresholdKeygenRound2Sound(); ThresholdKeygenConfirmSound();
    }
  }

  lemma ParamsGood()
    ensures Good(PARAMS)
  {
    hide GoodCase, Ascii, Table;
    NameIsText("verb");
    forall i | 0 <= i < |PARAM_CASES|
      ensures GoodCase(Ascii("verb"), PARAM_CASES[i])
    {
      ParamCases(i);
    }
  }

  lemma CommandGood()
    ensures Good(COMMAND)
  {
    hide Good;
    ParamsGood();
    ClimbingAscends(COMMAND_ROWS);
    GoodText();
    RowsGood(COMMAND_ROWS);
    TableGoodUnfold(COMMAND_ROWS);
  }

  lemma GoodText()
    ensures Good(TextShape) && Good(UintShape)
  {
  }

  lemma TableGoodUnfold(rows: seq<Row>)
    requires GoodStruct(Table(rows)) && forall i :: 0 <= i < |rows| ==> !rows[i].presence.Implied?
    ensures Good(Table(rows))
  {
    hide GoodStruct;
  }

  lemma ManageRequestGood()
    ensures GoodCase(Ascii("type"), MANAGE_REQUEST)
  {
    hide Good, Sorted, Ascii, COMMAND, COSE_SIGN1, SCOPE;
    CommandGood();
    CoseSign1Sound();
    ScopeSound();
    GoodText();
    ClimbingAscends(MANAGE_REQUEST_ROWS);
    CaseGood("type", "manage-request", MANAGE_REQUEST_ROWS, 0);
  }

  /** Every frame table is well formed, and all but the first are in order. */
  lemma FrameCases(i: nat)
    requires i < |FRAME_CASES|
    ensures GoodCase(Ascii("type"), FRAME_CASES[i])
    ensures i >= 1 ==> Sorted(FRAME_CASES[i].shape)
  {
    hide GoodCase, Sorted, Ascii, Table;
    if i < 1 {
      ManageRequestGood();
    } else if i < 10 {
      HandshakeSound(); PingSound(); PongSound(); CloseSound(); GossipSound(); CandidatesSound(); SyncPunchSound();
      ObservedAddressSound(); RelayOfferSound();
    } else if i < 19 {
      RelayConnectSound(); RelayDataSound(); RelayInboundSound(); CoordinatorSound(); ManageResponseSound();
      RevocationAnnounceSound(); StreamDataSound(); StreamAckSound(); StreamEndSound();
    } else {
      DataHaveSound(); DataRequestSound(); DataEntriesSound(); BulkDataSound(); BulkAckSound(); BulkEndSound();
      SecureHelloSound(); SecureDataSound();
    }
  }

  lemma FrameGood()
    ensures Good(FRAME)
  {
    hide GoodCase, Ascii, Table;
    NameIsText("type");
    forall i | 0 <= i < |FRAME_CASES|
      ensures GoodCase(Ascii("type"), FRAME_CASES[i])
    {
      FrameCases(i);
    }
  }

  // --- which frames are written out of order ------------------------------------------------------

  predicate SignalParams(p: Val) {
    p.Tagged? && (p.tag == Ascii("pty.kill") || p.tag == Ascii("proc.signal"))
  }

  predicate SignalCommand(c: Val) {
    c.Record? && |c.slots| == 2 && c.slots[1].Present? && SignalParams(c.slots[1].val)
  }

  /** A manage request whose command is `pty.kill` or `proc.signal`. */
  predicate SendsSignal(f: Val) {
    && f.Tagged? && f.tag == Ascii("manage-request") && f.body.Record? && |f.body.slots| == 5
    && f.body.slots[3].Present? && SignalCommand(f.body.slots[3].val)
  }

  function SignalRows(tag: Name): seq<Row> {
    [VerbIs(tag), Req("session", UintShape), Req("signal", IntShape)]
  }

  lemma SignalItems(tag: Name, v: Val)
    requires WFRecord(Table(SignalRows(tag)), v)
    ensures var st := Table(SignalRows(tag));
            && |v.slots| == 3 && v.slots[0].Present? && v.slots[1].Present? && v.slots[2].Present?
            && RecordItems(st, v) == [Item(Key("verb"), v.slots[0].val), Item(Key("session"), v.slots[1].val), Item(Key("signal"), v.slots[2].val)]
  {
    hide Ascii, WF, WFItems;
    var st := Table(SignalRows(tag));
    ClosedHasNoTail(st, v);
    assert |st.fields| == 3;
    assert forall i :: 0 <= i < 3 ==> !st.fields[i].presence.Optional?;
    ThreeSlots(st.fields, v.slots);
  }

  lemma ThreeSlots(fields: seq<Field>, slots: seq<Slot>)
    requires |fields| == |slots| == 3 && slots[0].Present? && slots[1].Present? && slots[2].Present?
    ensures SlotItems(fields, slots) ==
            [Item(fields[0].key, slots[0].val), Item(fields[1].key, slots[1].val), Item(fields[2].key, slots[2].val)]
  {
    assert SlotItems(fields[1..][1..][1..], slots[1..][1..][1..]) == [];
    assert SlotItems(fields[1..][1..], slots[1..][1..]) == [Item(fields[2].key, slots[2].val)];
  }

  lemma SessionAfterSignal()
    ensures CdeLess(EncodeLabel(Key("signal")), EncodeLabel(Key("session")))
    ensures !CdeLess(EncodeLabel(Key("session")), EncodeLabel(Key("signal")))
  {
    PrecedesOrders("signal", "session");
    CdeTrichotomy(EncodeLabel(Key("signal")), EncodeLabel(Key("session")));
  }

  lemma SignalUntidy(tag: Name, v: Val)
    requires WFRecord(Table(SignalRows(tag)), v)
    ensures !Tidy(Table(SignalRows(tag)), v)
  {
    SignalItems(tag, v);
    hide Ascii, WF, WFRecord, CdeLess, EncodeLabel, RecordItems;
    SessionAfterSignal();
    var items := RecordItems(Table(SignalRows(tag)), v);
    assert !CdeLess(ITEM_KEY(items[1]), ITEM_KEY(items[2]));
  }

  lemma SignalCasesFound()
    ensures FindCase(PARAM_CASES, Ascii("pty.kill")) == Yes(Table(SignalRows("pty.kill")))
    ensures FindCase(PARAM_CASES, Ascii("proc.signal")) == Yes(Table(SignalRows("proc.signal")))
  {
    assert |Ascii("pty.kill")| == 8 && |Ascii("proc.signal")| == 11;
    hide Ascii, Table;
    assert PARAM_CASES[1..][0] == PROC_SIGNAL;
  }

  lemma UnionUnfold(sh: Shape, v: Val)
    requires sh.UnionShape? && v.Tagged? && WF(sh, v)
    ensures FindCase(sh.cases, v.tag).Yes?
    ensures var c := FindCase(sh.cases, v.tag).value;
            WF(c, v.body) && (Tidy(sh, v) <==> Tidy(c, v.body))
  {
  }

  lemma OtherParamsSorted(tag: Bytes)
    requires tag != Ascii("pty.kill") && tag != Ascii("proc.signal") && FindCase(PARAM_CASES, tag).Yes?
    ensures Sorted(FindCase(PARAM_CASES, tag).value)
  {
    hide Ascii, Table, Sorted, FindCase, GoodCase;
    var c := FindCase(PARAM_CASES, tag).value;
    var i :| 0 <= i < |PARAM_CASES| && PARAM_CASES[i] == Case(tag, c);
    assert PARAM_CASES[0] == PTY_KILL && PARAM_CASES[1] == PROC_SIGNAL;
    ParamCases(i);
  }

  lemma ParamsTidy(p: Val)
    requires WF(PARAMS, p)
    ensures Tidy(PARAMS, p) <==> !SignalParams(p)
  {
    if p.Tagged? {
      hide *;
      UnionUnfold(PARAMS, p);
      SignalCasesFound();
      TaggedParamsTidy(p);
    }
  }

  lemma TaggedParamsTidy(p: Val)
    requires p.Tagged? && FindCase(PARAM_CASES, p.tag).Yes?
    requires WF(FindCase(PARAM_CASES, p.tag).value, p.body)
    ensures Tidy(FindCase(PARAM_CASES, p.tag).value, p.body) <==> !SignalParams(p)
  {
    hide Ascii, Table, Sorted, FindCase, Tidy, PARAM_CASES;
    SignalCasesFound();
    if p.tag == Ascii("pty.kill") {
      SignalUntidy("pty.kill", p.body);
    } else if p.tag == Ascii("proc.signal") {
      SignalUntidy("proc.signal", p.body);
    } else {
      OtherParamsSorted(p.tag);
      SortedTidy(FindCase(PARAM_CASES, p.tag).value, p.body);
    }
  }

  lemma CommandTidy(c: Val)
    requires WF(COMMAND, c)
    ensures Tidy(COMMAND, c) <==> !SignalCommand(c)
  {
    TableTidy(COMMAND_ROWS, c);
    CommandSlot(c);
    hide Ascii, Tidy, WF, Table;
    ParamsTidy(c.slots[1].val);
    TextTidy(c.slots[0].val);
  }

  lemma TextTidy(v: Val)
    ensures Tidy(TextShape, v) && Tidy(UintShape, v)
  {
  }

  lemma CommandSlot(c: Val)
    requires WF(COMMAND, c)
    ensures c.Record? && |c.slots| == 2 && c.slots[1].Present? && WF(PARAMS, c.slots[1].val)
  {
    hide Ascii, PARAMS;
    ClimbingAscends(COMMAND_ROWS);
    SlotFormed(COMMAND_ROWS, c, 1);
  }

  /** A required field of a well-formed record is present and well formed. */
  lemma SlotFormed(rows: seq<Row>, v: Val, i: nat)
    requires WFRecord(Table(rows), v) && i < |rows| && DistinctFields(Fields(rows))
    ensures v.Record? && |v.slots| == |rows|
    ensures !rows[i].presence.Optional? ==> v.slots[i].Present?
    ensures v.slots[i].Present? ==> WF(rows[i].shape, v.slots[i].val)
  {
    hide Ascii, WF;
    var st := Table(rows);
    FieldFound(st.fields, i);
    if v.slots[i].Present? {
      var it := Item(st.fields[i].key, v.slots[i].val);
      assert FromSlot(st.fields, v.slots, it, i);
      SlotItemsElements(st.fields, v.slots, it);
      assert it in RecordItems(st, v);
      var j :| 0 <= j < |RecordItems(st, v)| && RecordItems(st, v)[j] == it;
      assert WFItem(st, it);
    }
  }

  lemma RequestTidy(v: Val)
    requires WFRecord(Table(MANAGE_REQUEST_ROWS), v)
    ensures |v.slots| == 5 && v.slots[3].Present?
    ensures Tidy(Table(MANAGE_REQUEST_ROWS), v) <==> !SignalCommand(v.slots[3].val)
  {
    hide Ascii, Tidy, WF, Table, Sorted, Good, COSE_SIGN1, COMMAND, SCOPE;
    var rows := MANAGE_REQUEST_ROWS;
    TableTidy(rows, v);
    ClimbingAscends(rows);
    SlotFormed(rows, v, 3);
    CommandTidy(v.slots[3].val);
    LiteralTidy(Ascii("manage-request"), v.slots[0]);
    SortedSlotTidy(rows, v, 1, SCOPE);
    SortedSlotTidy(rows, v, 2, COSE_SIGN1);
    SortedSlotTidy(rows, v, 4, UintShape);
    assert Tidy(rows[3].shape, v.slots[3].val) <==> !SignalCommand(v.slots[3].val);
  }

  lemma LiteralTidy(x: Bytes, s: Slot)
    ensures s.Present? ==> Tidy(LiteralShape(x), s.val)
  {
  }

  lemma SortedSlotTidy(rows: seq<Row>, v: Val, i: nat, sh: Shape)
    requires WFRecord(Table(rows), v) && i < |rows| && Climbing(rows)
    requires rows[i].shape == sh && (sh == SCOPE || sh == COSE_SIGN1 || sh == UintShape)
    ensures v.Record? && |v.slots| == |rows| && (v.slots[i].Present? ==> Tidy(sh, v.slots[i].val))
  {
    hide Ascii, Tidy, WF, Table, Sorted, Good, COSE_SIGN1, SCOPE, Climbing;
    ClimbingAscends(rows);
    SlotFormed(rows, v, i);
    ScopeSound();
    CoseSign1Sound();
    UintSorted();
    if v.slots[i].Present? { SortedTidy(sh, v.slots[i].val); }
  }

  lemma UintSorted()
    ensures Sorted(UintShape)
  {
  }

  lemma RequestFound()
    ensures FindCase(FRAME_CASES, Ascii("manage-request")) == Yes(Table(MANAGE_REQUEST_ROWS))
  {
    hide Ascii, Table;
  }

  /** A frame is written in canonical order exactly when it does not send a signal. */
  lemma FrameTidy(f: Val)
    requires IsFrame(f)
    ensures Tidy(FRAME, f) <==> !SendsSignal(f)
  {
    hide Ascii, Table, Sorted, FindCase, WFRecord, SignalCommand, FRAME_CASES, Tidy, WF;
    FrameIsTagged(f);
    UnionUnfold(FRAME, f);
    RequestFound();
    if f.tag == Ascii("manage-request") {
      RequestFormed(f.body);
      RequestTidy(f.body);
    } else {
      OtherFramesSorted(f.tag);
      SortedTidy(FindCase(FRAME_CASES, f.tag).value, f.body);
    }
  }

  lemma FrameIsTagged(f: Val)
    requires IsFrame(f)
    ensures f.Tagged?
  {
    hide FRAME_CASES;
  }

  lemma RequestFormed(v: Val)
    requires WF(Table(MANAGE_REQUEST_ROWS), v)
    ensures WFRecord(Table(MANAGE_REQUEST_ROWS), v) && v.Record?
  {
    hide Ascii, MANAGE_REQUEST_ROWS;
  }

  lemma OtherFramesSorted(tag: Bytes)
    requires tag != Ascii("manage-request") && FindCase(FRAME_CASES, tag).Yes?
    ensures Sorted(FindCase(FRAME_CASES, tag).value)
  {
    hide Ascii, Table, Sorted, FindCase, GoodCase;
    var c := FindCase(FRAME_CASES, tag).value;
    var i :| 0 <= i < |FRAME_CASES| && FRAME_CASES[i] == Case(tag, c);
    assert FRAME_CASES[0] == MANAGE_REQUEST;
    FrameCases(i);
  }

  // --- a signal frame is refused ----------------------------------------------------------------------

  /**
    A key loop that gets through entries written in order reaches the next one:
    if the whole loop succeeds on `items` as written, so does reading item `k`.
   */
  lemma {:induction false} LoopReaches(st: Shape, items: seq<Item>, k: nat, prev: Previous, t: Bytes) returns (p: Previous, rest: Bytes)
    requires st.StructShape? && GoodStruct(st) && WFItems(st, items) && k < |items|
    requires forall i :: 0 <= i < k ==> TidyItem(st, items[i])
    requires DecodeFields(st, EncItems(st, items, false) + t, |items|, prev).Ok?
    ensures DecodeItem(st, EncItem(st, items[k], false) + rest, p).Ok?
    decreases k
  {
    hide DecodeItem, EncItem, WFItem, TidyItem, GoodStruct;
    var tail := EncItems(st, items[1..], false);
    Associate(EncItem(st, items[0], false), tail, t);
    FieldsStep(st, EncItems(st, items, false) + t, |items|, prev);
    if k == 0 {
      return prev, tail + t;
    }
    assert WFItem(st, items[0]) && TidyItem(st, items[0]);
    ItemReadsBack(st, items[0], prev, tail + t);
    p, rest := LoopReaches(st, items[1..], k - 1, After(EncodeLabel(items[0].key)), t);
  }

  lemma ItemReadsBack(st: Shape, it: Item, prev: Previous, rest: Bytes)
    requires st.StructShape? && GoodStruct(st) && WFItem(st, it) && TidyItem(st, it)
    requires DecodeItem(st, EncItem(st, it, false) + rest, prev).Ok?
    ensures DecodeItem(st, EncItem(st, it, false) + rest, prev) == Ok((it, rest))
  {
    hide DecodeShape, Enc, WF, GoodStruct, Tidy;
    var sh := ShapeFor(st, it.key).value;
    GoodShapeFor(st, it.key);
    EncodesCanonically(sh, it.val);
    assert EncItem(st, it, false) == EncItem(st, it, true);
    ItemBefore(st, it, prev, Enc(sh, it.val, false), rest);
    ItemRoundTrip(st, it, prev, rest);
  }

  lemma ItemBefore(st: Shape, it: Item, prev: Previous, body: Bytes, rest: Bytes)
    requires st.StructShape? && ValidLabel(st.labels, it.key)
    requires DecodeItem(st, EncodeLabel(it.key) + body + rest, prev).Ok?
    ensures ShapeFor(st, it.key).Yes? && DecodeShape(ShapeFor(st, it.key).value, body + rest).Ok?
    ensures Before(prev, EncodeLabel(it.key))
  {
    hide DecodeShape, EncodeLabel, ReadLabel, ValidLabel, ShapeFor, DecodeItem;
    Associate(EncodeLabel(it.key), body, rest);
    LabelReader(st.labels, it.key, [], body + rest);
    ItemStep(st, EncodeLabel(it.key) + body + rest, prev);
  }

  /** Reading the value of a field, if its entry was read. */
  lemma FieldReaches(rows: seq<Row>, v: Val, i: nat, prev: Previous, rest: Bytes)
    requires Climbing(rows) && i < |rows|
    requires DecodeItem(Table(rows), EncItem(Table(rows), Item(Key(rows[i].name), v), false) + rest, prev).Ok?
    ensures DecodeShape(rows[i].shape, Enc(rows[i].shape, v, false) + rest).Ok?
  {
    hide DecodeShape, Enc, DecodeItem, EncodeLabel, Climbing, Ascii, ValidUtf8;
    var st := Table(rows);
    ClimbingAscends(rows);
    FieldFound(st.fields, i);
    NameIsText(rows[i].name);
    ItemBefore(st, Item(Key(rows[i].name), v), prev, Enc(rows[i].shape, v, false), rest);
  }

  /**
    A closed record was read from its own encoding: then so was the value of its
    first present field that is not known to be in order.
   */
  lemma TableReaches(rows: seq<Row>, v: Val, i: nat, t: Bytes) returns (rest: Bytes)
    requires Climbing(rows) && GoodStruct(Table(rows)) && WFRecord(Table(rows), v)
    requires i < |rows| && v.slots[i].Present?
    requires forall j :: 0 <= j < i && v.slots[j].Present? ==> Tidy(rows[j].shape, v.slots[j].val)
    requires DecodeShape(Table(rows), Enc(Table(rows), v, false) + t).Ok?
    ensures DecodeShape(rows[i].shape, Enc(rows[i].shape, v.slots[i].val, false) + rest).Ok?
  {
    hide Ascii, DecodeShape, Enc, WF, GoodStruct, DecodeFields, EncItems, WFItem, Climbing;
    var st := Table(rows);
    StructLoops(st, v, t);
    ClosedHasNoTail(st, v);
    var items := RecordItems(st, v);
    assert items == SlotItems(st.fields, v.slots);
    ClimbingAscends(rows);
    var k := SlotPosition(st.fields, v.slots, i);
    forall j | 0 <= j < k
      ensures TidyItem(st, items[j])
    {
      var m := SlotBefore(st.fields, v.slots, i, j);
      FieldFound(st.fields, m);
    }
    var p, r := LoopReaches(st, items, k, First, t);
    FieldReaches(rows, v.slots[i].val, i, p, r);
    rest := r;
  }

  /** Where a present slot's entry is among the written entries. */
  function SlotPosition(fields: seq<Field>, slots: seq<Slot>, i: nat): (k: nat)
    requires |fields| == |slots| && i < |fields| && slots[i].Present?
    ensures k < |SlotItems(fields, slots)| && SlotItems(fields, slots)[k] == Item(fields[i].key, slots[i].val)
  {
    if i == 0 then 0 else (if slots[0].Present? then 1 else 0) + SlotPosition(fields[1..], slots[1..], i - 1)
  }

  /** Entries before it come from earlier slots. */
  lemma {:induction false} SlotBefore(fields: seq<Field>, slots: seq<Slot>, i: nat, j: nat) returns (m: nat)
    requires |fields| == |slots| && i < |fields| && slots[i].Present? && j < SlotPosition(fields, slots, i)
    ensures m < i && slots[m].Present? && SlotItems(fields, slots)[j] == Item(fields[m].key, slots[m].val)
    decreases i
  {
    if slots[0].Present? {
      if j == 0 { return 0; }
      m := SlotBefore(fields[1..], slots[1..], i - 1, j - 1);
      m := m + 1;
    } else {
      m := SlotBefore(fields[1..], slots[1..], i - 1, j);
      m := m + 1;
    }
  }

  lemma StructLoops(st: Shape, v: Val, t: Bytes)
    requires st.StructShape? && !Built(st) && WFRecord(st, v)
    requires DecodeShape(st, Enc(st, v, false) + t).Ok?
    ensures DecodeFields(st, EncItems(st, RecordItems(st, v), false) + t, |RecordItems(st, v)|, First).Ok?
  {
    hide DecodeFields, EncItems, ReadCount, Assemble, WFItems;
    CountedReads(5, |RecordItems(st, v)|, EncItems(st, RecordItems(st, v), false), t);
  }

  lemma ThreeItems(st: Shape, a: Item, b: Item, c: Item)
    requires st.StructShape?
    ensures EncItems(st, [a, b, c], false) == EncItem(st, a, false) + (EncItem(st, b, false) + EncItem(st, c, false))
  {
    hide EncItem;
    assert [a, b, c][1..] == [b, c] && [b, c][1..] == [c] && [c][1..] == [];
    assert EncItems(st, [c], false) == EncItem(st, c, false) + [];
  }

  /** What the encoder writes for the two maps, entry by entry. */
  lemma SignalEntries(tag: Name, v: Val)
    requires WFRecord(Table(SignalRows(tag)), v)
    ensures |v.slots| == 3 && v.slots[0].Present? && v.slots[1].Present? && v.slots[2].Present?
    ensures v.slots[1].val.Num? && v.slots[2].val.Num? && 0 <= v.slots[1].val.i < U64
    ensures var st := Table(SignalRows(tag));
            && EncItem(st, Item(Key("verb"), v.slots[0].val), false) == TextItem(Ascii("verb")) + TextItem(Ascii(tag))
            && EncItem(st, Item(Key("session"), v.slots[1].val), false) == TextItem(Ascii("session")) + HeadBytes(0, v.slots[1].val.i)
            && EncItem(st, Item(Key("signal"), v.slots[2].val), false) == TextItem(Ascii("signal")) + IntBytes(v.slots[2].val.i)
  {
    SignalItems(tag, v);
    SignalFieldsDistinct(tag);
    hide Ascii, HeadBytes, TextItem, IntBytes, WFRecord, DistinctFields, EncItem, Table;
    var rows := SignalRows(tag);
    SlotFormed(rows, v, 1); SlotFormed(rows, v, 2);
    EntryBytes(rows, 0, v.slots[0].val); EntryBytes(rows, 1, v.slots[1].val); EntryBytes(rows, 2, v.slots[2].val);
  }

  lemma EntryBytes(rows: seq<Row>, i: nat, v: Val)
    requires i < |rows| && DistinctFields(Fields(rows))
    ensures EncItem(Table(rows), Item(Key(rows[i].name), v), false) == TextItem(Ascii(rows[i].name)) + Enc(rows[i].shape, v, false)
  {
    hide Ascii, TextItem, Enc;
    FieldFound(Fields(rows), i);
  }

  lemma StructBytes(st: Shape, v: Val)
    requires st.StructShape? && !Built(st) && v.Record? && |v.slots| == |st.fields|
    ensures Enc(st, v, false) == HeadBytes(5, |RecordItems(st, v)|) + EncItems(st, RecordItems(st, v), false)
  {
    hide EncItems, HeadBytes;
  }

  /** The third key of a written `pty.kill` or `proc.signal` map is refused by the first pass already. */
  lemma SignalScanFails(tag: Name, v: Val, t: Bytes)
    requires WFRecord(Table(SignalRows(tag)), v)
    ensures Scan(Ascii("verb"), Enc(Table(SignalRows(tag)), v, false) + t).Err?
  {
    var st := Table(SignalRows(tag));
    SignalItems(tag, v);
    SignalEntries(tag, v);
    StructBytes(st, v);
    NameIsText(tag);
    hide *;
    var a, b, c := Item(Key("verb"), v.slots[0].val), Item(Key("session"), v.slots[1].val), Item(Key("signal"), v.slots[2].val);
    ThreeItems(st, a, b, c);
    SignalScanSteps(Ascii(tag), v.slots[1].val.i, v.slots[2].val.i, t);
    ScanFailsInside(Ascii("verb"), 3, EncItems(st, [a, b, c], false), t);
  }

  lemma ScanFailsInside(disc: Bytes, n: nat, body: Bytes, t: Bytes)
    requires n < U64 && ScanFields(disc, body + t, n, First, No).Err?
    ensures Scan(disc, HeadBytes(5, n) + body + t).Err?
  {
    hide ScanFields, HeadBytes, ReadCount;
    CountedReads(5, n, body, t);
  }

  lemma SignalScanSteps(tag: Bytes, session: nat, signal: int, t: Bytes)
    requires TextValue(tag) && session < U64
    ensures var body := TextItem(Ascii("verb")) + TextItem(tag)
            + (TextItem(Ascii("session")) + HeadBytes(0, session)
            + (TextItem(Ascii("signal")) + IntBytes(signal)));
            ScanFields(Ascii("verb"), body + t, 3, First, No).Err?
  {
    assert |Ascii("verb")| == 4 && |Ascii("session")| == 7;
    NameIsText("session");
    hide Ascii, HeadBytes, TextItem, IntBytes, ScanFields, ValidUtf8;
    var s3 := TextItem(Ascii("signal")) + IntBytes(signal);
    var s2 := TextItem(Ascii("session")) + HeadBytes(0, session) + s3;
    Associate(TextItem(Ascii("verb")) + TextItem(tag), s2, t);
    ScanFirst("verb", tag, s2 + t, 2);
    Associate(TextItem(Ascii("session")) + HeadBytes(0, session), s3, t);
    ScanSession(session, tag, s3 + t);
    Associate(TextItem(Ascii("signal")), IntBytes(signal), t);
    ScanSignal(tag, IntBytes(signal) + t);
  }

  lemma ScanSignal(tag: Bytes, rest: Bytes)
    ensures ScanFields(Ascii("verb"), TextItem(Ascii("signal")) + rest, 1, After(TextItem(Ascii("session"))), Yes(tag)).Err?
  {
    NameIsText("signal");
    SessionAfterSignal();
    hide Ascii, HeadBytes, TextItem, ReadText, Skip, CdeLess;
    TextReader(Ascii("signal"), [], rest);
  }

  /** The first pass on a map that starts with its discriminant. */
  lemma ScanFirst(disc: Name, tag: Bytes, rest: Bytes, n: nat)
    requires TextValue(tag)
    ensures ScanFields(Ascii(disc), TextItem(Ascii(disc)) + TextItem(tag) + rest, n + 1, First, No)
         == ScanFields(Ascii(disc), rest, n, After(TextItem(Ascii(disc))), Yes(tag))
  {
    NameIsText(disc);
    hide Ascii, HeadBytes, TextItem, ReadText, Skip;
    Associate(TextItem(Ascii(disc)), TextItem(tag), rest);
    TextReader(Ascii(disc), [], TextItem(tag) + rest);
    TextReader(tag, [], rest);
  }

  lemma ScanSession(session: nat, tag: Bytes, rest: Bytes)
    requires session < U64 && TextValue(Ascii("session")) && Ascii("session") != Ascii("verb")
    ensures var r := ScanFields(Ascii("verb"), TextItem(Ascii("session")) + HeadBytes(0, session) + rest, 2, After(TextItem(Ascii("verb"))), Yes(tag));
            r.Ok? ==> r == ScanFields(Ascii("verb"), rest, 1, After(TextItem(Ascii("session"))), Yes(tag))
  {
    hide Ascii, HeadBytes, TextItem, ReadText, Skip;
    Associate(TextItem(Ascii("session")), HeadBytes(0, session), rest);
    TextReader(Ascii("session"), [], HeadBytes(0, session) + rest);
    UintReader(session, [], rest);
    SkipInt(HeadBytes(0, session) + rest);
  }

  lemma ParamsRefused(p: Val, t: Bytes)
    requires WF(PARAMS, p) && SignalParams(p)
    ensures DecodeShape(PARAMS, Enc(PARAMS, p, false) + t).Err?
  {
    hide Ascii, Table, FindCase, PARAM_CASES, Scan, WFRecord, SignalRows;
    SignalCasesFound();
    if p.tag == Ascii("pty.kill") {
      SignalScanFails("pty.kill", p.body, t);
    } else {
      SignalScanFails("proc.signal", p.body, t);
    }
  }

  lemma CommandRefused(c: Val, t: Bytes)
    requires WF(COMMAND, c) && SignalCommand(c)
    ensures DecodeShape(COMMAND, Enc(COMMAND, c, false) + t).Err?
  {
    CommandSlot(c);
    CommandFormed(c);
    TextTidy(c.slots[0].val);
    CommandTable();
    hide *;
    if DecodeShape(COMMAND, Enc(COMMAND, c, false) + t).Ok? {
      var rest := TableReaches(COMMAND_ROWS, c, 1, t);
      ParamsRefused(c.slots[1].val, rest);
    }
  }

  lemma CommandFormed(c: Val)
    requires WF(COMMAND, c)
    ensures WFRecord(Table(COMMAND_ROWS), c)
  {
    hide Ascii, COMMAND_ROWS, PARAMS;
  }

  lemma CommandTable()
    ensures COMMAND == Table(COMMAND_ROWS) && Climbing(COMMAND_ROWS) && GoodStruct(COMMAND)
    ensures |COMMAND_ROWS| == 2 && COMMAND_ROWS[0].shape == TextShape && COMMAND_ROWS[1].shape == PARAMS
  {
    CommandGood();
    hide Ascii, PARAMS, Table;
  }

  lemma RequestTable()
    ensures Climbing(MANAGE_REQUEST_ROWS) && GoodStruct(Table(MANAGE_REQUEST_ROWS))
    ensures |MANAGE_REQUEST_ROWS| == 5 && MANAGE_REQUEST_ROWS[3].shape == COMMAND
  {
    ManageRequestGood();
    hide Ascii, COMMAND, COSE_SIGN1, SCOPE, Table;
  }

  lemma RequestRefused(v: Val, t: Bytes)
    requires WFRecord(Table(MANAGE_REQUEST_ROWS), v) && |v.slots| == 5 && v.slots[3].Present? && SignalCommand(v.slots[3].val)
    ensures DecodeShape(Table(MANAGE_REQUEST_ROWS), Enc(Table(MANAGE_REQUEST_ROWS), v, false) + t).Err?
  {
    RequestTable();
    EarlierSlotsTidy(v);
    ClimbingAscends(MANAGE_REQUEST_ROWS);
    SlotFormed(MANAGE_REQUEST_ROWS, v, 3);
    hide *;
    if DecodeShape(Table(MANAGE_REQUEST_ROWS), Enc(Table(MANAGE_REQUEST_ROWS), v, false) + t).Ok? {
      var rest := TableReaches(MANAGE_REQUEST_ROWS, v, 3, t);
      CommandRefused(v.slots[3].val, rest);
    }
  }

  lemma EarlierSlotsTidy(v: Val)
    requires WFRecord(Table(MANAGE_REQUEST_ROWS), v) && |v.slots| == 5
    ensures |MANAGE_REQUEST_ROWS| == 5
    ensures forall j :: 0 <= j < 3 && v.slots[j].Present? ==> Tidy(MANAGE_REQUEST_ROWS[j].shape, v.slots[j].val)
  {
    hide Ascii, Tidy, WF, Table, Sorted, Good, COSE_SIGN1, COMMAND, SCOPE;
    LiteralTidy(Ascii("manage-request"), v.slots[0]);
    SortedSlotTidy(MANAGE_REQUEST_ROWS, v, 1, SCOPE);
    SortedSlotTidy(MANAGE_REQUEST_ROWS, v, 2, COSE_SIGN1);
  }

  lemma {:induction false} ScanKeeps(disc: Bytes, s: Bytes, n: nat, prev: Previous, tag: Bytes)
    requires ScanFields(disc, s, n, prev, Yes(tag)).Ok?
    ensures ScanFields(disc, s, n, prev, Yes(tag)) == Ok(Yes(tag))
    decreases n
  {
    hide ReadText, Skip, TextItem;
    if n > 0 {
      var (x, t) := ReadText(s).value;
      ScanKeeps(disc, Skip(t).value, n - 1, After(TextItem(x)), tag);
    }
  }

  /** A written closed map starts with its first field, if that is always written. */
  lemma TableStarts(rows: seq<Row>, v: Val) returns (rest: Bytes, n: nat)
    requires rows != [] && !rows[0].presence.Optional? && DistinctFields(Fields(rows)) && WFRecord(Table(rows), v)
    ensures v.slots[0].Present? && n + 1 < U64
    ensures Enc(Table(rows), v, false)
         == HeadBytes(5, n + 1) + (TextItem(Ascii(rows[0].name)) + Enc(rows[0].shape, v.slots[0].val, false) + rest)
  {
    hide Ascii, HeadBytes, TextItem, WF, WFItems, Enc, EncItem, DistinctFields;
    var st := Table(rows);
    var items := RecordItems(st, v);
    StructBytes(st, v);
    assert st.fields[0].presence == rows[0].presence && v.slots[0].Present?;
    assert items[0] == Item(Key(rows[0].name), v.slots[0].val);
    EntryBytes(rows, 0, v.slots[0].val);
    rest, n := EncItems(st, items[1..], false), |items| - 1;
  }

  /** A written manage request starts with its `type`. */
  lemma RequestStarts(v: Val) returns (rest: Bytes, n: nat)
    requires WFRecord(Table(MANAGE_REQUEST_ROWS), v)
    ensures Enc(Table(MANAGE_REQUEST_ROWS), v, false)
         == HeadBytes(5, n + 1) + (TextItem(Ascii("type")) + TextItem(Ascii("manage-request")) + rest)
    ensures n + 1 < U64
  {
    ClimbingAscends(MANAGE_REQUEST_ROWS);
    assert MANAGE_REQUEST_ROWS[0] == TypeIs("manage-request");
    hide *;
    rest, n := TableStarts(MANAGE_REQUEST_ROWS, v);
    LiteralBytes(Ascii("manage-request"), v.slots[0].val);
  }

  lemma LiteralBytes(x: Bytes, v: Val)
    ensures Enc(LiteralShape(x), v, false) == TextItem(x)
  {
  }

  /** No strict decoder accepts a signal frame this encoder writes. */
  lemma SignalFrameRefused(f: Val)
    requires IsFrame(f) && SendsSignal(f)
    ensures DecodeFrame(EncodeFrame(f)).Err?
  {
    RequestFound();
    SignalBody(f);
    var s := EncodeFrame(f);
    var rest, n := RequestStarts(f.body);
    hide *;
    assert s + [] == s;
    RequestRefused(f.body, []);
    ScanSettles(s, rest, n);
    UnionRefused(s);
  }

  lemma UnionBytes(sh: Shape, v: Val)
    requires sh.UnionShape? && v.Tagged? && FindCase(sh.cases, v.tag).Yes?
    ensures Enc(sh, v, false) == Enc(FindCase(sh.cases, v.tag).value, v.body, false)
  {
  }

  lemma SignalBody(f: Val)
    requires IsFrame(f) && SendsSignal(f)
    ensures f.body.Record? && WFRecord(Table(MANAGE_REQUEST_ROWS), f.body) && |f.body.slots| == 5
    ensures f.body.slots[3].Present? && SignalCommand(f.body.slots[3].val)
    ensures EncodeFrame(f) == Enc(Table(MANAGE_REQUEST_ROWS), f.body, false)
  {
    hide Ascii, FRAME_CASES, FindCase, MANAGE_REQUEST_ROWS, SignalCommand, Table, WF, WFRecord, Enc;
    RequestFound();
    UnionUnfold(FRAME, f);
    UnionBytes(FRAME, f);
    RequestFormed(f.body);
  }

  lemma ScanSettles(s: Bytes, rest: Bytes, n: nat)
    requires n + 1 < U64 && s == HeadBytes(5, n + 1) + (TextItem(Ascii("type")) + TextItem(Ascii("manage-request")) + rest)
    ensures Scan(Ascii("type"), s).Ok? ==> Scan(Ascii("type"), s) == Ok(Ascii("manage-request"))
  {
    hide *;
    NameIsText("manage-request");
    var body := TextItem(Ascii("type")) + TextItem(Ascii("manage-request")) + rest;
    CountedReads(5, n + 1, body, []);
    assert HeadBytes(5, n + 1) + body + [] == s && body + [] == body;
    ScanFirst("type", Ascii("manage-request"), rest, n);
    if Scan(Ascii("type"), s).Ok? {
      ScanUnfold(Ascii("type"), s);
      ScanKeeps(Ascii("type"), rest, n, After(TextItem(Ascii("type"))), Ascii("manage-request"));
    }
  }

  lemma ScanUnfold(disc: Bytes, s: Bytes)
    requires Scan(disc, s).Ok?
    ensures ReadCount(s, 5).Ok?
    ensures ScanFields(disc, ReadCount(s, 5).value.1, ReadCount(s, 5).value.0, First, No) == Ok(Yes(Scan(disc, s).value))
  {
    hide ScanFields, ReadCount;
  }

  lemma UnionRefused(s: Bytes)
    requires Scan(Ascii("type"), s).Ok? ==> Scan(Ascii("type"), s) == Ok(Ascii("manage-request"))
    requires FindCase(FRAME_CASES, Ascii("manage-request")) == Yes(Table(MANAGE_REQUEST_ROWS))
    requires DecodeShape(Table(MANAGE_REQUEST_ROWS), s).Err?
    ensures DecodeFrame(s).Err?
  {
    hide Ascii, FRAME_CASES, FindCase, MANAGE_REQUEST_ROWS, Scan, Table;
  }

  // --- the theorems ------------------------------------------------------------------------------------

  /** Encoding then decoding gives the frame back exactly when it is a frame and sends no signal. */
  lemma FrameRoundTrip(f: Val)
    ensures DecodeFrame(EncodeFrame(f)) == Ok(f) <==> IsFrame(f) && !SendsSignal(f)
    ensures IsFrame(f) && SendsSignal(f) ==> DecodeFrame(EncodeFrame(f)).Err?
  {
    if IsFrame(f) && SendsSignal(f) { SignalFrameRefused(f); }
    hide DecodeShape, Enc, WF, FRAME, SendsSignal, Tidy;
    FrameGood();
    if IsFrame(f) { FrameTidy(f); }
    RoundTripIff(FRAME, f, []);
    assert EncodeFrame(f) + [] == EncodeFrame(f);
  }

  /** Accepted bytes re-encode to themselves exactly when they hold no signal command. */
  lemma FrameCanonical(b: Bytes)
    requires DecodeFrame(b).Ok?
    ensures var f := DecodeFrame(b).value;
            && IsFrame(f) && b == Enc(FRAME, f, true)
            && (EncodeFrame(f) == b <==> !SendsSignal(f))
  {
    hide DecodeShape, Enc, WF, FRAME, SendsSignal, Tidy;
    FrameGood();
    ReencodesIff(FRAME, b);
    ShapeSound(FRAME, b);
    var f := DecodeFrame(b).value;
    FrameTidy(f);
    assert Enc(FRAME, f, false) + [] == Enc(FRAME, f, false) && Enc(FRAME, f, true) + [] == Enc(FRAME, f, true);
  }

  /** Decoding is injective: no frame has two accepted encodings. */
  lemma FrameDecodingInjective(b: Bytes, c: Bytes)
    requires DecodeFrame(b).Ok? && DecodeFrame(b) == DecodeFrame(c)
    ensures b == c
  {
    hide DecodeFrame, Enc;
    FrameCanonical(b);
    FrameCanonical(c);
  }

  /** Every frame has an accepted encoding, signals included: the one with its maps sorted. */
  lemma FrameDecodingOnto(f: Val)
    requires IsFrame(f)
    ensures DecodeFrame(Enc(FRAME, f, true)) == Ok(f)
  {
    hide DecodeShape, Enc, WF, FRAME;
    FrameGood();
    ShapeRoundTrip(FRAME, f, []);
    assert Enc(FRAME, f, true) + [] == Enc(FRAME, f, true);
  }

  // --- such frames exist ------------------------------------------------------------------------------------

  lemma {:induction false} SlotItemsShort(fields: seq<Field>, slots: seq<Slot>)
    requires |fields| == |slots|
    ensures |SlotItems(fields, slots)| <= |slots|
  {
    if fields != [] { SlotItemsShort(fields[1..], slots[1..]); }
  }

  predicate Fits(row: Row, slot: Slot) {
    match slot
    case Present(v) => WF(row.shape, v)
    case Absent => row.presence.Optional?
  }

  /** A closed record is well formed if each of its slots is. */
  lemma RecordFormed(rows: seq<Row>, slots: seq<Slot>)
    requires |slots| == |rows| < U64 && DistinctFields(Fields(rows))
    requires forall i :: 0 <= i < |rows| ==> Fits(rows[i], slots[i])
    ensures WFRecord(Table(rows), Record(slots, []))
  {
    hide Ascii, WF, ValidUtf8, DistinctFields;
    var st, v := Table(rows), Record(slots, []);
    SlotItemsShort(st.fields, slots);
    forall i | 0 <= i < |rows| && slots[i].Absent?
      ensures st.fields[i].presence.Optional?
    {
      assert Fits(rows[i], slots[i]);
    }
    var items := RecordItems(st, v);
    assert items == SlotItems(st.fields, slots);
    forall j | 0 <= j < |items|
      ensures WFItem(st, items[j])
    {
      SlotItemsElements(st.fields, slots, items[j]);
      var i: nat :| FromSlot(st.fields, slots, items[j], i);
      FieldFound(st.fields, i);
      NameIsText(rows[i].name);
      assert Fits(rows[i], slots[i]);
    }
  }

  const KILL: Val := Tagged(Ascii("pty.kill"), Record([Present(Unit), Present(Num(1)), Present(Num(9))], []))
  const KILL_COMMAND: Val := Record([Present(Str(Ascii("exec:pty"))), Present(KILL)], [])
  const NODE_SCOPE: Val := Record([Present(Str(Ascii("node"))), Absent], [])
  const KILL_REQUEST: Val := Record([Present(Unit), Present(NODE_SCOPE), Absent, Present(KILL_COMMAND), Present(Num(7))], [])

  /** A frame that kills terminal session 1 with signal 9. */
  const KILL_FRAME: Val := Tagged(Ascii("manage-request"), KILL_REQUEST)

  lemma UnionFormed(sh: Shape, tag: Bytes, rows: seq<Row>, body: Val)
    requires sh.UnionShape? && FindCase(sh.cases, tag) == Yes(Table(rows)) && WFRecord(Table(rows), body)
    ensures WF(sh, Tagged(tag, body))
  {
    hide FindCase, WFRecord, Table;
    TableFormed(rows, body);
  }

  lemma TableFormed(rows: seq<Row>, v: Val)
    requires WFRecord(Table(rows), v)
    ensures WF(Table(rows), v)
  {
  }

  lemma LeavesFit(tag: Name)
    ensures Fits(VerbIs(tag), Present(Unit)) && Fits(TypeIs(tag), Present(Unit))
    ensures Fits(Req("session", UintShape), Present(Num(1))) && Fits(Req("signal", IntShape), Present(Num(9)))
    ensures Fits(Req("request-id", UintShape), Present(Num(7)))
  {
    hide Ascii;
  }

  lemma KillFormed()
    ensures WF(PARAMS, KILL)
  {
    SignalFieldsDistinct("pty.kill");
    LeavesFit("pty.kill");
    SignalCasesFound();
    var rows, slots := SignalRows("pty.kill"), [Present(Unit), Present(Num(1)), Present(Num(9))];
    hide Ascii, PARAM_CASES, FindCase, WFRecord, Fits, DistinctFields, WF, Table;
    RecordFormed(rows, slots);
    UnionFormed(PARAMS, Ascii("pty.kill"), rows, Record(slots, []));
  }

  lemma KillCommandFormed()
    ensures WF(COMMAND, KILL_COMMAND)
  {
    ClimbingAscends(COMMAND_ROWS);
    hide Ascii, ValidUtf8, PARAMS, KILL, WFRecord, DistinctFields, Table;
    var slots := [Present(Str(Ascii("exec:pty"))), Present(KILL)];
    CommandFits();
    hide Fits, Climbing;
    RecordFormed(COMMAND_ROWS, slots);
    TableFormed(COMMAND_ROWS, KILL_COMMAND);
  }

  lemma CommandFits()
    ensures |COMMAND_ROWS| == 2
    ensures Fits(COMMAND_ROWS[0], Present(Str(Ascii("exec:pty")))) && Fits(COMMAND_ROWS[1], Present(KILL))
  {
    KillFormed();
    NameIsText("exec:pty");
    hide Ascii, ValidUtf8, PARAMS, KILL;
  }

  lemma NodeScopeFormed()
    ensures WF(SCOPE, NODE_SCOPE)
  {
    ClimbingAscends(SCOPE_ROWS);
    NameIsText("node");
    hide Ascii, ValidUtf8, WFRecord, DistinctFields, Table;
    RecordFormed(SCOPE_ROWS, [Present(Str(Ascii("node"))), Absent]);
    TableFormed(SCOPE_ROWS, NODE_SCOPE);
  }

  lemma KillRequestFormed()
    ensures WFRecord(Table(MANAGE_REQUEST_ROWS), KILL_REQUEST)
  {
    KillCommandFormed();
    NodeScopeFormed();
    ClimbingAscends(MANAGE_REQUEST_ROWS);
    LeavesFit("manage-request");
    RequestFits();
    hide *;
    RecordFormed(MANAGE_REQUEST_ROWS, KILL_REQUEST.slots);
    KillSlots();
  }

  lemma KillSlots()
    ensures KILL_REQUEST == Record(KILL_REQUEST.slots, [])
  {
    hide Ascii;
  }

  lemma RequestFits()
    ensures KILL_REQUEST.Record? && |KILL_REQUEST.slots| == |MANAGE_REQUEST_ROWS| < U64
    ensures forall i :: 0 <= i < 5 ==> Fits(MANAGE_REQUEST_ROWS[i], KILL_REQUEST.slots[i])
  {
    KillCommandFormed();
    NodeScopeFormed();
    LeavesFit("manage-request");
    hide Ascii, WF, COMMAND, SCOPE, COSE_SIGN1, KILL_COMMAND, NODE_SCOPE;
  }

  /** The concrete frame: encodable, and refused by the decoder when encoded. */
  lemma KillFrameRefused()
    ensures IsFrame(KILL_FRAME) && SendsSignal(KILL_FRAME) && DecodeFrame(EncodeFrame(KILL_FRAME)).Err?
  {
    KillRequestFormed();
    RequestFound();
    hide Ascii, WF, DecodeFrame, EncodeFrame, FRAME_CASES, FindCase, MANAGE_REQUEST_ROWS, WFRecord, Table;
    UnionFormed(FRAME, Ascii("manage-request"), MANAGE_REQUEST_ROWS, KILL_REQUEST);
    FrameRoundTrip(KILL_FRAME);
  }
}
