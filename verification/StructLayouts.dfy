/**
  The structures inside frames, field by field: closed ones, and those with an
  open tail, whose entries and tail are written in key order.
 */
module StructLayouts {
  import opened Common
  import opened Cbor
  import opened CdeOrder
  import opened Value
  import opened Schema
  import opened SchemaItems
  import opened SchemaForms
  import opened SchemaSound
  import opened SchemaRoundTrip
  import opened Tables
  import opened Wire
  import opened Frames
  import opened Adverts
  import opened Encoding
  import opened Layouts

  // --- closed structures --------------------------------------------------------------------

  /** An identity key: an algorithm and its key. */
  lemma IdentityKeyLayout(v: Val)
    ensures WF(IDENTITY_KEY, v) <==>
            && v.Record? && |v.slots| == 2 && v.extra == []
            && IntIn(v.slots[0]) && BytesIn(v.slots[1])
    ensures WF(IDENTITY_KEY, v) ==>
              Enc(IDENTITY_KEY, v, true) == MapBytes([IntEntry("alg", v.slots[0]), BytesEntry("public-key", v.slots[1])])
  {
    hide Ascii, MapBytes, WF, Enc, SlotFits, RowPart, Table, UintIn, IntIn, BytesIn, SizedIn, TextIn,
         PartIn, UintEntry, IntEntry, BytesEntry, TextEntry, WordEntry, PartEntry;
    var rows := IDENTITY_KEY_ROWS;
    TableLayout(rows, v);
    if v.Record? && |v.slots| == 2 {
      IntRow(rows[0], v.slots[0]); BytesRow(rows[1], v.slots[1]);
      assert RowsFit(rows, v) ==> RowParts(rows, v.slots) == [
        IntEntry("alg", v.slots[0]), BytesEntry("public-key", v.slots[1])
      ];
    }
  }

  /** A capability scope: a kind and perhaps a path. */
  lemma ScopeLayout(v: Val)
    ensures WF(SCOPE, v) <==>
            && v.Record? && |v.slots| == 2 && v.extra == []
            && TextIn(v.slots[0]) && (v.slots[1].Absent? || TextIn(v.slots[1]))
    ensures WF(SCOPE, v) ==>
              Enc(SCOPE, v, true) == MapBytes([TextEntry("kind", v.slots[0]), TextEntry("path", v.slots[1])])
  {
    hide Ascii, MapBytes, WF, Enc, SlotFits, RowPart, Table, UintIn, IntIn, BytesIn, SizedIn, TextIn,
         PartIn, UintEntry, IntEntry, BytesEntry, TextEntry, WordEntry, PartEntry;
    var rows := SCOPE_ROWS;
    TableLayout(rows, v);
    if v.Record? && |v.slots| == 2 {
      TextRow(rows[0], v.slots[0]); TextRow(rows[1], v.slots[1]);
      assert RowsFit(rows, v) ==> RowParts(rows, v.slots) == [
        TextEntry("kind", v.slots[0]), TextEntry("path", v.slots[1])
      ];
    }
  }

  /** An address to try. */
  lemma WireCandidateLayout(v: Val)
    ensures WF(WIRE_CANDIDATE, v) <==>
            && v.Record? && |v.slots| == 3 && v.extra == []
            && PartIn(CANDIDATE_KIND, v.slots[0]) && TextIn(v.slots[1]) && UintIn(v.slots[2])
    ensures WF(WIRE_CANDIDATE, v) ==>
              Enc(WIRE_CANDIDATE, v, true) == MapBytes([PartEntry("kind", CANDIDATE_KIND, v.slots[0]),
                                                        TextEntry("address", v.slots[1]),
                                                        UintEntry("priority", v.slots[2])])
  {
    hide Ascii, MapBytes, WF, Enc, SlotFits, RowPart, Table, UintIn, IntIn, BytesIn, SizedIn, TextIn,
         PartIn, UintEntry, IntEntry, BytesEntry, TextEntry, WordEntry, PartEntry;
    var rows := WIRE_CANDIDATE_ROWS;
    TableLayout(rows, v);
    if v.Record? && |v.slots| == 3 {
      PartRow(rows[0], v.slots[0]); TextRow(rows[1], v.slots[1]); UintRow(rows[2], v.slots[2]);
      assert RowsFit(rows, v) ==> RowParts(rows, v.slots) == [
        PartEntry("kind", CANDIDATE_KIND, v.slots[0]), TextEntry("address", v.slots[1]),
        UintEntry("priority", v.slots[2])
      ];
    }
  }

  /** An ICE candidate. */
  lemma IceCandidateLayout(v: Val)
    ensures WF(ICE_CANDIDATE, v) <==>
            && v.Record? && |v.slots| == 4 && v.extra == []
            && (v.slots[0].Absent? || TextIn(v.slots[0])) && TextIn(v.slots[1])
            && (v.slots[2].Absent? || UintIn(v.slots[2])) && (v.slots[3].Absent? || TextIn(v.slots[3]))
    ensures WF(ICE_CANDIDATE, v) ==>
              Enc(ICE_CANDIDATE, v, true) == MapBytes([TextEntry("sdp-mid", v.slots[0]),
                                                       TextEntry("candidate", v.slots[1]),
                                                       UintEntry("sdp-m-line-index", v.slots[2]),
                                                       TextEntry("username-fragment", v.slots[3])])
  {
    hide Ascii, MapBytes, WF, Enc, SlotFits, RowPart, Table, UintIn, IntIn, BytesIn, SizedIn, TextIn,
         PartIn, UintEntry, IntEntry, BytesEntry, TextEntry, WordEntry, PartEntry;
    var rows := ICE_CANDIDATE_ROWS;
    TableLayout(rows, v);
    if v.Record? && |v.slots| == 4 {
      TextRow(rows[0], v.slots[0]); TextRow(rows[1], v.slots[1]); UintRow(rows[2], v.slots[2]);
      TextRow(rows[3], v.slots[3]);
      assert RowsFit(rows, v) ==> RowParts(rows, v.slots) == [
        TextEntry("sdp-mid", v.slots[0]), TextEntry("candidate", v.slots[1]), UintEntry("sdp-m-line-index", v.slots[2]),
        TextEntry("username-fragment", v.slots[3])
      ];
    }
  }

  /** What a threshold signature is about. */
  lemma SubjectLayout(v: Val)
    ensures WF(SUBJECT, v) <==>
            && v.Record? && |v.slots| == 3 && v.extra == []
            && TextIn(v.slots[0]) && BytesIn(v.slots[1]) && BytesIn(v.slots[2])
    ensures WF(SUBJECT, v) ==>
              Enc(SUBJECT, v, true) == MapBytes([TextEntry("kind", v.slots[0]), BytesEntry("payload", v.slots[1]),
                                                 BytesEntry("protected", v.slots[2])])
  {
    hide Ascii, MapBytes, WF, Enc, SlotFits, RowPart, Table, UintIn, IntIn, BytesIn, SizedIn, TextIn,
         PartIn, UintEntry, IntEntry, BytesEntry, TextEntry, WordEntry, PartEntry;
    var rows := SUBJECT_ROWS;
    TableLayout(rows, v);
    if v.Record? && |v.slots| == 3 {
      TextRow(rows[0], v.slots[0]); BytesRow(rows[1], v.slots[1]); BytesRow(rows[2], v.slots[2]);
      assert RowsFit(rows, v) ==> RowParts(rows, v.slots) == [
        TextEntry("kind", v.slots[0]), BytesEntry("payload", v.slots[1]), BytesEntry("protected", v.slots[2])
      ];
    }
  }

  /** The commitments of one signer. */
  lemma CommitmentLayout(v: Val)
    ensures WF(COMMITMENT, v) <==>
            && v.Record? && |v.slots| == 3 && v.extra == []
            && BytesIn(v.slots[0]) && BytesIn(v.slots[1]) && SizedIn(32, v.slots[2])
    ensures WF(COMMITMENT, v) ==>
              Enc(COMMITMENT, v, true) == MapBytes([BytesEntry("hiding", v.slots[0]), BytesEntry("binding", v.slots[1]),
                                                    BytesEntry("participant", v.slots[2])])
  {
    hide Ascii, MapBytes, WF, Enc, SlotFits, RowPart, Table, UintIn, IntIn, BytesIn, SizedIn, TextIn,
         PartIn, UintEntry, IntEntry, BytesEntry, TextEntry, WordEntry, PartEntry;
    var rows := COMMITMENT_ROWS;
    TableLayout(rows, v);
    if v.Record? && |v.slots| == 3 {
      BytesRow(rows[0], v.slots[0]); BytesRow(rows[1], v.slots[1]); SizedRow(rows[2], 32, v.slots[2]);
      assert RowsFit(rows, v) ==> RowParts(rows, v.slots) == [
        BytesEntry("hiding", v.slots[0]), BytesEntry("binding", v.slots[1]), BytesEntry("participant", v.slots[2])
      ];
    }
  }

  /** A command: its verb and its parameters. */
  lemma CommandLayout(v: Val)
    ensures WF(COMMAND, v) <==>
            && v.Record? && |v.slots| == 2 && v.extra == []
            && TextIn(v.slots[0]) && PartIn(PARAMS, v.slots[1])
    ensures WF(COMMAND, v) ==>
              Enc(COMMAND, v, true) == MapBytes([TextEntry("verb", v.slots[0]), PartEntry("params", PARAMS, v.slots[1])])
  {
    hide Ascii, MapBytes, WF, Enc, SlotFits, RowPart, Table, UintIn, IntIn, BytesIn, SizedIn, TextIn,
         PartIn, UintEntry, IntEntry, BytesEntry, TextEntry, WordEntry, PartEntry, PARAMS;
    var rows := COMMAND_ROWS;
    TableLayout(rows, v);
    if v.Record? && |v.slots| == 2 {
      TextRow(rows[0], v.slots[0]); PartRow(rows[1], v.slots[1]);
      assert RowsFit(rows, v) ==> RowParts(rows, v.slots) == [
        TextEntry("verb", v.slots[0]), PartEntry("params", PARAMS, v.slots[1])
      ];
    }
  }

  lemma CandidateKindLayout(v: Val)
    ensures WF(CANDIDATE_KIND, v) <==>
            v.Str? && TextValue(v.text) && (v.text == Ascii("host") || v.text == Ascii("server-reflexive") || v.text == Ascii("relayed"))
    ensures WF(CANDIDATE_KIND, v) ==> Enc(CANDIDATE_KIND, v, true) == TextItem(v.text)
  {
    hide Ascii, ValidUtf8;
  }

  // --- structures with an open tail ----------------------------------------------------------

  predicate AdvertFields(v: Val)
    requires v.Record? && |v.slots| == 5
  {
    && SizedIn(32, v.slots[0]) && PartIn(ListShape(TextShape), v.slots[1]) && BytesIn(v.slots[2])
    && PartIn(IDENTITY_KEY, v.slots[3]) && IntIn(v.slots[4])
  }

  function AdvertParts(v: Val): seq<seq<Pair>>
    requires v.Record? && |v.slots| == 5
  {
    [
      BytesEntry("device", v.slots[0]), PartEntry("addresses", ListShape(TextShape), v.slots[1]),
      BytesEntry("signature", v.slots[2]), PartEntry("identity-key", IDENTITY_KEY, v.slots[3]),
      IntEntry("snapshot-seconds", v.slots[4])
    ]
  }

  lemma AdvertRows(v: Val)
    requires v.Record? && |v.slots| == 5
    ensures |PEER_ADVERT_ROWS| == 5 && Climbing(PEER_ADVERT_ROWS)
    ensures RowsFit(PEER_ADVERT_ROWS, v) <==> AdvertFields(v)
    ensures AdvertFields(v) ==> RowParts(PEER_ADVERT_ROWS, v.slots) == AdvertParts(v)
  {
    hide Ascii, WF, Enc, SlotFits, RowPart, UintIn, IntIn, BytesIn, SizedIn, TextIn, PartIn, UintEntry, IntEntry, BytesEntry, TextEntry,
         WordEntry, PartEntry;
    var rows := PEER_ADVERT_ROWS;
    SizedRow(rows[0], 32, v.slots[0]); PartRow(rows[1], v.slots[1]); BytesRow(rows[2], v.slots[2]);
    PartRow(rows[3], v.slots[3]); IntRow(rows[4], v.slots[4]);
  }

  const ADVERT_NAMES: seq<Name> := ["device", "addresses", "signature", "identity-key", "snapshot-seconds"]

  lemma AdvertNames()
    ensures |ADVERT_NAMES| == |PEER_ADVERT_ROWS| == 5 && Climbing(PEER_ADVERT_ROWS)
    ensures forall i :: 0 <= i < 5 ==> ADVERT_NAMES[i] == PEER_ADVERT_ROWS[i].name
  {
  }

  /** A peer advert: five fields and a tail. */
  lemma PeerAdvertLayout(v: Val)
    ensures WF(PEER_ADVERT, v) <==>
            && v.Record? && |v.slots| == 5 && AdvertFields(v) && FreeTail(ADVERT_NAMES, v.extra)
            && |Gather(AdvertParts(v) + [TailPairs(v.extra)])| < U64
    ensures WF(PEER_ADVERT, v) ==> Enc(PEER_ADVERT, v, true) == SortedMapBytes(AdvertParts(v) + [TailPairs(v.extra)])
  {
    hide Ascii, SortedMapBytes, WF, Enc, SlotFits, RowPart, OpenTable, TailFits, FreeTail, TailPairs, Gather, AdvertFields, AdvertParts,
         ADVERT_NAMES, PEER_ADVERT_ROWS, Climbing;
    AdvertNames();
    OpenLayout(PEER_ADVERT_ROWS, v);
    if v.Record? && |v.slots| == 5 {
      TailNames(PEER_ADVERT_ROWS, ADVERT_NAMES, v.extra);
      AdvertRows(v);
    }
  }

  predicate FirstClaims(v: Val)
    requires v.Record? && |v.slots| == 15
  {
    && PartIn(SCOPE, v.slots[0]) && SizedIn(32, v.slots[1]) && SizedIn(32, v.slots[2])
    && (v.slots[3].Absent? || BytesIn(v.slots[3])) && UintIn(v.slots[4]) && BytesIn(v.slots[5])
    && TextIn(v.slots[6]) && (v.slots[7].Absent? || BytesIn(v.slots[7]))
  }

  function FirstClaimParts(v: Val): seq<seq<Pair>>
    requires v.Record? && |v.slots| == 15
  {
    [
      PartEntry("scope", SCOPE, v.slots[0]), BytesEntry("bearer", v.slots[1]), BytesEntry("issuer", v.slots[2]),
      BytesEntry("parent", v.slots[3]), UintEntry("expires", v.slots[4]), BytesEntry("token-id", v.slots[5]),
      TextEntry("capability", v.slots[6]), BytesEntry("conditions", v.slots[7])
    ]
  }

  lemma FirstClaimRows(v: Val)
    requires v.Record? && |v.slots| == 15
    ensures |TOKEN_CLAIMS_ROWS| == 15
    ensures (forall i :: 0 <= i < 8 ==> SlotFits(TOKEN_CLAIMS_ROWS[i], v.slots[i])) <==> FirstClaims(v)
    ensures FirstClaims(v) ==> RowParts(TOKEN_CLAIMS_ROWS, v.slots)[0..8] == FirstClaimParts(v)
  {
    hide Ascii, WF, Enc, SlotFits, RowPart, UintIn, IntIn, BytesIn, SizedIn, TextIn,
         PartIn, UintEntry, IntEntry, BytesEntry, TextEntry, WordEntry, PartEntry;
    var rows := TOKEN_CLAIMS_ROWS;
    PartRow(rows[0], v.slots[0]); SizedRow(rows[1], 32, v.slots[1]); SizedRow(rows[2], 32, v.slots[2]);
    BytesRow(rows[3], v.slots[3]); UintRow(rows[4], v.slots[4]); BytesRow(rows[5], v.slots[5]);
    TextRow(rows[6], v.slots[6]); BytesRow(rows[7], v.slots[7]);
  }

  predicate OtherClaims(v: Val)
    requires v.Record? && |v.slots| == 15
  {
    && PartIn(IDENTITY_KEY, v.slots[8]) && (v.slots[9].Absent? || UintIn(v.slots[9]))
    && (v.slots[10].Absent? || UintIn(v.slots[10])) && (v.slots[11].Absent? || BytesIn(v.slots[11]))
    && (v.slots[12].Absent? || TextIn(v.slots[12])) && (v.slots[13].Absent? || TextIn(v.slots[13]))
    && (v.slots[14].Absent? || UintIn(v.slots[14]))
  }

  function OtherClaimParts(v: Val): seq<seq<Pair>>
    requires v.Record? && |v.slots| == 15
  {
    [
      PartEntry("issuer-key", IDENTITY_KEY, v.slots[8]), UintEntry("not-before", v.slots[9]),
      UintEntry("valid-until", v.slots[10]), BytesEntry("authorised-by", v.slots[11]),
      TextEntry("grants-capability", v.slots[12]), TextEntry("requests-capability", v.slots[13]),
      UintEntry("delegations-remaining", v.slots[14])
    ]
  }

  lemma OtherClaimRows(v: Val)
    requires v.Record? && |v.slots| == 15
    ensures |TOKEN_CLAIMS_ROWS| == 15
    ensures (forall i :: 8 <= i < 15 ==> SlotFits(TOKEN_CLAIMS_ROWS[i], v.slots[i])) <==> OtherClaims(v)
    ensures OtherClaims(v) ==> RowParts(TOKEN_CLAIMS_ROWS, v.slots)[8..15] == OtherClaimParts(v)
  {
    hide Ascii, WF, Enc, SlotFits, RowPart, UintIn, IntIn, BytesIn, SizedIn, TextIn,
         PartIn, UintEntry, IntEntry, BytesEntry, TextEntry, WordEntry, PartEntry;
    var rows := TOKEN_CLAIMS_ROWS;
    PartRow(rows[8], v.slots[8]); UintRow(rows[9], v.slots[9]); UintRow(rows[10], v.slots[10]);
    BytesRow(rows[11], v.slots[11]); TextRow(rows[12], v.slots[12]); TextRow(rows[13], v.slots[13]);
    UintRow(rows[14], v.slots[14]);
  }

  const CLAIM_NAMES: seq<Name> := [
    "scope", "bearer", "issuer", "parent", "expires", "token-id", "capability", "conditions", "issuer-key",
    "not-before", "valid-until", "authorised-by", "grants-capability", "requests-capability", "delegations-remaining"
  ]

  lemma ClaimNames()
    ensures |CLAIM_NAMES| == |TOKEN_CLAIMS_ROWS| == 15 && Climbing(TOKEN_CLAIMS_ROWS)
    ensures forall i :: 0 <= i < 15 ==> CLAIM_NAMES[i] == TOKEN_CLAIMS_ROWS[i].name
  {
  }

  /** Token claims: fifteen fields, eight of which may be absent, and a tail. */
  lemma TokenClaimsLayout(v: Val)
    ensures WF(TOKEN_CLAIMS, v) <==>
            && v.Record? && |v.slots| == 15 && FirstClaims(v) && OtherClaims(v) && FreeTail(CLAIM_NAMES, v.extra)
            && |Gather(FirstClaimParts(v) + OtherClaimParts(v) + [TailPairs(v.extra)])| < U64
    ensures WF(TOKEN_CLAIMS, v) ==>
              Enc(TOKEN_CLAIMS, v, true) == SortedMapBytes(FirstClaimParts(v) + OtherClaimParts(v) + [TailPairs(v.extra)])
  {
    hide Ascii, SortedMapBytes, WF, Enc, SlotFits, RowPart, OpenTable, TailFits, FreeTail, TailPairs, Gather, FirstClaims, OtherClaims,
         FirstClaimParts, OtherClaimParts, CLAIM_NAMES, TOKEN_CLAIMS_ROWS, Climbing;
    var rows := TOKEN_CLAIMS_ROWS;
    ClaimNames();
    OpenLayout(rows, v);
    if v.Record? && |v.slots| == 15 {
      TailNames(rows, CLAIM_NAMES, v.extra);
      FirstClaimRows(v);
      OtherClaimRows(v);
      var parts := RowParts(rows, v.slots);
      assert parts == parts[0..8] + parts[8..15];
    }
  }

  /** What an advert's signature covers: the other four fields and the tail. */
  lemma UnsignedLayout(v: Val)
    ensures WF(UNSIGNED, v) <==>
            && v.Record? && |v.slots| == 4
            && SizedIn(32, v.slots[0]) && PartIn(ListShape(TextShape), v.slots[1])
            && PartIn(IDENTITY_KEY, v.slots[2]) && IntIn(v.slots[3])
            && FreeTail(["device", "addresses", "identity-key", "snapshot-seconds"], v.extra)
            && |Gather([BytesEntry("device", v.slots[0]), PartEntry("addresses", ListShape(TextShape), v.slots[1]),
                        PartEntry("identity-key", IDENTITY_KEY, v.slots[2]), IntEntry("snapshot-seconds", v.slots[3]),
                        TailPairs(v.extra)])| < U64
    ensures WF(UNSIGNED, v) ==>
              Enc(UNSIGNED, v, true) == SortedMapBytes([BytesEntry("device", v.slots[0]), PartEntry("addresses", ListShape(TextShape), v.slots[1]),
                PartEntry("identity-key", IDENTITY_KEY, v.slots[2]), IntEntry("snapshot-seconds", v.slots[3]),
                TailPairs(v.extra)])
  {
    hide Ascii, SortedMapBytes, WF, Enc, SlotFits, RowPart, OpenTable, TailFits, FreeTail, TailPairs, Gather,
         UintIn, IntIn, BytesIn, SizedIn, TextIn,
         PartIn, UintEntry, IntEntry, BytesEntry, TextEntry, WordEntry, PartEntry;
    var rows := UNSIGNED_ROWS;
    OpenLayout(rows, v);
    if v.Record? && |v.slots| == 4 {
      TailNames(rows, ["device", "addresses", "identity-key", "snapshot-seconds"], v.extra);
      SizedRow(rows[0], 32, v.slots[0]); PartRow(rows[1], v.slots[1]); PartRow(rows[2], v.slots[2]);
      IntRow(rows[3], v.slots[3]);
      assert RowsFit(rows, v) ==> RowParts(rows, v.slots) + [TailPairs(v.extra)] == [
        BytesEntry("device", v.slots[0]), PartEntry("addresses", ListShape(TextShape), v.slots[1]),
        PartEntry("identity-key", IDENTITY_KEY, v.slots[2]), IntEntry("snapshot-seconds", v.slots[3]),
        TailPairs(v.extra)
      ];
    }
  }

  /** A tail of integer or text labels other than 1 and 4. */
  predicate HeaderTail(extra: seq<Item>) {
    && Ascending(ITEM_KEY, extra)
    && forall j :: 0 <= j < |extra| ==>
         && (match extra[j].key case IntLabel(i) => -I64 <= i < I64 && i != 1 && i != 4 case TextLabel(x) => TextValue(x))
         && extra[j].val.Any? && Normal(extra[j].val.value)
  }

  function HeaderParts(v: Val): seq<seq<Pair>>
    requires v.Record? && |v.slots| == 2
  {
    [
      if v.slots[0].Present? && v.slots[0].val.Num? then [(IntBytes(1), IntBytes(v.slots[0].val.i))] else [],
      if v.slots[1].Present? && v.slots[1].val.Blob? then [(IntBytes(4), BytesItem(v.slots[1].val.bytes))] else [],
      TailPairs(v.extra)
    ]
  }

  /** COSE headers: the algorithm under 1, the key id under 4, both optional, and a tail. */
  lemma HeadersLayout(v: Val)
    ensures WF(HEADERS, v) <==>
            && v.Record? && |v.slots| == 2 && (v.slots[0].Absent? || IntIn(v.slots[0])) && (v.slots[1].Absent? || BytesIn(v.slots[1]))
            && HeaderTail(v.extra) && |Gather(HeaderParts(v))| < U64
    ensures WF(HEADERS, v) ==> Enc(HEADERS, v, true) == SortedMapBytes(HeaderParts(v))
  {
    HeaderFields();
    HeadersUnfold(v);
    if v.Record? && |v.slots| == 2 { HeaderRows(v); }
    hide *;
    OpenValues(HEADERS, v);
    if WF(HEADERS, v) { OpenWritten(HEADERS, v); }
  }

  lemma HeaderFields()
    ensures HEADERS.StructShape? && IsOpen(HEADERS) && HEADERS.labels
    ensures HEADERS.fields == [Field(IntLabel(1), IntShape, Optional), Field(IntLabel(4), BytesShape, Optional)]
  {
  }

  lemma HeadersUnfold(v: Val)
    ensures WF(HEADERS, v) <==> WFRecord(HEADERS, v)
    ensures FieldsFit(HEADERS.fields, v) ==> v.Record? && |v.slots| == 2
  {
    hide WFRecord;
  }

  lemma HeaderRows(v: Val)
    requires v.Record? && |v.slots| == 2
    ensures |HEADERS.fields| == 2
    ensures FieldsFit(HEADERS.fields, v) <==>
            (v.slots[0].Absent? || IntIn(v.slots[0])) && (v.slots[1].Absent? || BytesIn(v.slots[1]))
    ensures FieldsFit(HEADERS.fields, v) ==> FieldParts(HEADERS.fields, v.slots) + [TailPairs(v.extra)] == HeaderParts(v)
    ensures TailFits(HEADERS.fields, HEADERS.labels, v.extra) <==> HeaderTail(v.extra)
  {
    hide Normal, ValidUtf8, Ascending, IntBytes, BytesItem, TailPairs;
    var fields := HEADERS.fields;
    assert |fields| == 2 && fields[0] == Field(IntLabel(1), IntShape, Optional) && fields[1] == Field(IntLabel(4), BytesShape, Optional);
    assert FieldsFit(fields, v) <==> FieldFits(fields[0], v.slots[0]) && FieldFits(fields[1], v.slots[1]);
  }

  /** A signed object: protected bytes, headers, a payload or none, and a signature. */
  lemma CoseSign1Layout(v: Val)
    ensures WF(COSE_SIGN1, v) <==>
            && v.List? && |v.items| == 4 && BytesIn(Present(v.items[0])) && WF(HEADERS, v.items[1])
            && (v.items[2] == NoBytes || BytesIn(Present(v.items[2]))) && BytesIn(Present(v.items[3]))
    ensures WF(COSE_SIGN1, v) ==>
              Enc(COSE_SIGN1, v, true) ==
              HeadBytes(4, 4)
              + (BytesItem(v.items[0].bytes) + (Enc(HEADERS, v.items[1], true)
              + ((if v.items[2].Blob? then BytesItem(v.items[2].bytes) else [0xF6]) + BytesItem(v.items[3].bytes))))
  {
    hide HEADERS, HeadBytes, BytesItem;
    var elems := COSE_SIGN1.elems;
    assert elems == [BytesShape, HEADERS, NullableBytesShape, BytesShape];
    if v.List? && |v.items| == 4 {
      assert WF(COSE_SIGN1, v) <==> WF(elems[0], v.items[0]) && WF(elems[1], v.items[1]) && WF(elems[2], v.items[2]) && WF(elems[3], v.items[3]);
      FourItems(elems, v.items);
    }
  }

  lemma FourItems(elems: seq<Shape>, vs: seq<Val>)
    requires |elems| == 4 && |vs| == 4
    ensures EncTuple(elems, vs, true) ==
            Enc(elems[0], vs[0], true) + (Enc(elems[1], vs[1], true) + (Enc(elems[2], vs[2], true) + Enc(elems[3], vs[3], true)))
  {
    hide Enc;
    assert EncTuple(elems[1..][1..][1..][1..], vs[1..][1..][1..][1..], true) == [];
    assert EncTuple(elems[1..][1..][1..], vs[1..][1..][1..], true) == Enc(elems[3], vs[3], true);
    assert EncTuple(elems[1..][1..], vs[1..][1..], true) == Enc(elems[2], vs[2], true) + Enc(elems[3], vs[3], true);
  }

  // --- outcomes ---------------------------------------------------------------------------------

  /** An outcome: `ok` with any results, or `error` with a code and perhaps a message. */
  lemma OutcomeLayout(v: Val)
    ensures WF(OutcomeShape(OUTCOME), v) <==>
            || (v.Okay? && FreeTail(["result"], v.results) && |v.results| + 1 < U64)
            || (v.Failed? && TextValue(v.code) && (v.message.Absent? || TextIn(v.message)))
    ensures WF(OutcomeShape(OUTCOME), v) && v.Okay? ==>
              Enc(OutcomeShape(OUTCOME), v, true) == SortedMapBytes([WordEntry("result", "ok"), TailPairs(v.results)])
    ensures WF(OutcomeShape(OUTCOME), v) && v.Failed? ==>
              Enc(OutcomeShape(OUTCOME), v, true) ==
              MapBytes([TextEntry("code", Present(Str(v.code))), WordEntry("result", "error"), TextEntry("message", v.message)])
  {
    OutcomeUnfold(v);
    hide *;
    if WFOutcome(v) {
      if v.Okay? { OkayWritten(v); }
      if v.Failed? { FailedWritten(v); }
    }
  }

  lemma OutcomeUnfold(v: Val)
    ensures WF(OutcomeShape(OUTCOME), v) <==> WFOutcome(v)
    ensures WFOutcome(v) <==>
            || (v.Okay? && FreeTail(["result"], v.results) && |v.results| + 1 < U64)
            || (v.Failed? && TextValue(v.code) && (v.message.Absent? || TextIn(v.message)))
    ensures WFOutcome(v) ==> v.Okay? || v.Failed?
    ensures Enc(OutcomeShape(OUTCOME), v, true) == EncMap(OUTCOME, Sort(ITEM_KEY, OutcomeItems(v)), true)
  {
    hide Ascii, Ascending, Normal, ValidUtf8, Sort, EncMap;
    assert ["result"][0] == "result";
  }

  lemma OutcomeBody(it: Item)
    ensures it.key == RESULT && it.val.Str? ==> ItemBody(OUTCOME, it, true) == TextItem(it.val.text)
    ensures it.key != RESULT && it.val.Any? ==> ItemBody(OUTCOME, it, true) == EncodeValue(it.val.value)
  {
    hide Ascii, TextItem, EncodeValue;
  }

  lemma OkayWritten(v: Val)
    requires v.Okay? && WFOutcome(v)
    ensures EncMap(OUTCOME, Sort(ITEM_KEY, OutcomeItems(v)), true) == SortedMapBytes([WordEntry("result", "ok"), TailPairs(v.results)])
  {
    hide Ascii, TextItem, EncodeValue, Sort, Concat, HeadBytes, EncItems, ItemBody, Ascending, FreeItem;
    var items, parts := OutcomeItems(v), [WordEntry("result", "ok"), TailPairs(v.results)];
    OutcomeBody(items[0]);
    forall j | 0 <= j < |v.results|
      ensures v.results[j].val.Any? && ItemBody(OUTCOME, v.results[j], true) == EncodeValue(v.results[j].val.value)
    {
      assert FreeItem(v.results[j]);
      FreeItemParts(v.results[j]);
      OutcomeBody(v.results[j]);
    }
    TwoParts(parts[0], parts[1]);
    assert Pairs(OUTCOME, items, true) == parts[0] + parts[1];
    SortPairs(OUTCOME, items, true);
    ConcatPairs(OUTCOME, Sort(ITEM_KEY, items), true);
    SortElements(ITEM_KEY, items);
  }

  lemma TwoParts(a: seq<Pair>, b: seq<Pair>)
    ensures Gather([a, b]) == a + b
  {
    assert [a, b][1..] == [b] && [b][1..] == [];
    assert Gather([b]) == b + Gather([]);
    assert Gather([a, b]) == a + Gather([b]);
  }

  lemma ThreeParts(a: seq<Pair>, b: seq<Pair>, c: seq<Pair>)
    ensures Gather([a, b, c]) == a + b + c
  {
    assert [a, b, c][1..] == [b, c];
    TwoParts(b, c);
  }

  lemma FailedWritten(v: Val)
    requires v.Failed? && WFOutcome(v)
    ensures EncMap(OUTCOME, Sort(ITEM_KEY, OutcomeItems(v)), true) ==
            MapBytes([TextEntry("code", Present(Str(v.code))), WordEntry("result", "error"), TextEntry("message", v.message)])
  {
    hide Ascii, TextItem, Sort, Concat, HeadBytes, EncItems, ItemBody, Ascending, EncodeLabel, CdeLess, ValidUtf8;
    var items := OutcomeItems(v);
    FailedAscends(v);
    SortFixed(ITEM_KEY, items);
    KeysApart();
    NameLabels();
    var a, b, c := TextEntry("code", Present(Str(v.code))), WordEntry("result", "error"), TextEntry("message", v.message);
    ThreeParts(a, b, c);
    OutcomeBody(items[0]);
    OutcomeBody(items[1]);
    if |items| == 3 { OutcomeBody(items[2]); }
    assert Pairs(OUTCOME, items, true) == a + b + c;
    ConcatPairs(OUTCOME, items, true);
  }

  lemma FailedAscends(v: Val)
    requires v.Failed? && WFOutcome(v)
    ensures Ascending(ITEM_KEY, OutcomeItems(v))
  {
    OutcomeKeys();
    hide Ascii, CdeLess, EncodeLabel, ValidUtf8;
  }

  lemma NameLabels()
    ensures EncodeLabel(CODE) == TextItem(Ascii("code")) && EncodeLabel(RESULT) == TextItem(Ascii("result"))
    ensures EncodeLabel(MESSAGE) == TextItem(Ascii("message"))
  {
    hide Ascii, TextItem;
  }

  lemma KeysApart()
    ensures CODE != RESULT && MESSAGE != RESULT
  {
    assert |Ascii("code")| == 4 && |Ascii("result")| == 6 && |Ascii("message")| == 7;
  }

  // --- maps and lists ---------------------------------------------------------------------------------

  /** Parameters of a handshake: any text keys, any values. */
  lemma AnyMapLayout(v: Val)
    ensures WF(ANY_MAP, v) <==> v.Record? && v.slots == [] && FreeTail([], v.extra) && |v.extra| < U64
    ensures WF(ANY_MAP, v) ==> Enc(ANY_MAP, v, true) == SortedMapBytes([TailPairs(v.extra)])
  {
    assert ANY_MAP.StructShape? && ANY_MAP.fields == [] && IsOpen(ANY_MAP);
    if v.Record? && v.slots == [] {
      var none := FieldParts(ANY_MAP.fields, v.slots);
      assert none + [TailPairs(v.extra)] == [TailPairs(v.extra)];
      assert [TailPairs(v.extra)][1..] == [];
      assert Gather([TailPairs(v.extra)]) == TailPairs(v.extra);
      hide Enc, SortedMapBytes, Normal, ValidUtf8, Ascending;
      OpenValues(ANY_MAP, v);
      if WFRecord(ANY_MAP, v) { OpenWritten(ANY_MAP, v); }
    }
  }

  function TextPairs(extra: seq<Item>): (r: seq<Pair>)
    ensures |r| == |extra|
    ensures forall j :: 0 <= j < |extra| ==>
              r[j] == (EncodeLabel(extra[j].key), if extra[j].val.Str? then TextItem(extra[j].val.text) else [])
  {
    seq(|extra|, j requires 0 <= j < |extra| =>
      (EncodeLabel(extra[j].key), if extra[j].val.Str? then TextItem(extra[j].val.text) else []))
  }

  predicate NamedText(it: Item) {
    it.key.TextLabel? && TextValue(it.key.text) && it.val.Str? && TextValue(it.val.text)
  }

  /** An environment: text keys, ascending, with texts. */
  lemma TextMapLayout(v: Val)
    ensures WF(TEXT_MAP, v) <==>
            && v.Record? && v.slots == [] && |v.extra| < U64 && Ascending(ITEM_KEY, v.extra)
            && forall j :: 0 <= j < |v.extra| ==> NamedText(v.extra[j])
    ensures WF(TEXT_MAP, v) ==> Enc(TEXT_MAP, v, true) == HeadBytes(5, |v.extra|) + Concat(TextPairs(v.extra))
  {
    TextMapUnfold(v);
    hide *;
    if v.Record? && v.slots == [] {
      if forall j :: 0 <= j < |v.extra| ==> NamedText(v.extra[j]) { TextMapWritten(v.extra); }
    }
  }

  lemma TextMapUnfold(v: Val)
    ensures WF(TEXT_MAP, v) <==>
            && v.Record? && v.slots == [] && |v.extra| < U64 && Ascending(ITEM_KEY, v.extra)
            && forall j :: 0 <= j < |v.extra| ==> NamedText(v.extra[j])
    ensures v.Record? && v.slots == [] && Ascending(ITEM_KEY, v.extra) ==>
              Enc(TEXT_MAP, v, true) == HeadBytes(5, |v.extra|) + EncItems(TEXT_MAP, v.extra, true)
  {
    hide ValidUtf8, Ascending, HeadBytes, EncItems, Sort, NamedText, WFItem;
    var st := TEXT_MAP;
    assert st.StructShape? && st.fields == [];
    if v.Record? && v.slots == [] {
      assert RecordItems(st, v) == v.extra;
      forall j | 0 <= j < |v.extra| ensures WFItem(st, v.extra[j]) <==> NamedText(v.extra[j]) { TextMapItem(v.extra[j]); }
      if Ascending(ITEM_KEY, v.extra) { SortFixed(ITEM_KEY, v.extra); }
    }
  }

  lemma TextMapWritten(items: seq<Item>)
    requires forall j :: 0 <= j < |items| ==> NamedText(items[j])
    ensures EncItems(TEXT_MAP, items, true) == Concat(TextPairs(items))
  {
    hide Concat, EncItems, ItemBody, EncodeLabel, TextItem, ValidUtf8;
    forall j | 0 <= j < |items| ensures ItemBody(TEXT_MAP, items[j], true) == TextItem(items[j].val.text) { TextMapItem(items[j]); }
    assert Pairs(TEXT_MAP, items, true) == TextPairs(items);
    ConcatPairs(TEXT_MAP, items, true);
  }

  lemma TextMapItem(it: Item)
    ensures WFItem(TEXT_MAP, it) <==> NamedText(it)
    ensures NamedText(it) ==> ItemBody(TEXT_MAP, it, true) == TextItem(it.val.text)
  {
    hide ValidUtf8, TextItem;
  }

  function Flat(parts: seq<Bytes>): Bytes {
    if parts == [] then [] else parts[0] + Flat(parts[1..])
  }

  /** A list: its length, then its elements. */
  lemma ListLayout(elem: Shape, v: Val, parts: seq<Bytes>)
    requires v.List? && |parts| == |v.items| && forall i :: 0 <= i < |parts| ==> parts[i] == Enc(elem, v.items[i], true)
    ensures WF(ListShape(elem), v) <==> |v.items| < U64 && forall i :: 0 <= i < |v.items| ==> WF(elem, v.items[i])
    ensures Enc(ListShape(elem), v, true) == HeadBytes(4, |v.items|) + Flat(parts)
  {
    hide Enc, WF, HeadBytes, Flat;
    ListUnfold(elem, v);
    FlatIs(elem, v.items, parts);
  }

  lemma ListUnfold(elem: Shape, v: Val)
    requires v.List?
    ensures WF(ListShape(elem), v) <==> |v.items| < U64 && forall i :: 0 <= i < |v.items| ==> WF(elem, v.items[i])
    ensures Enc(ListShape(elem), v, true) == HeadBytes(4, |v.items|) + EncList(elem, v.items, true)
  {
    hide EncList, HeadBytes;
  }

  lemma {:induction false} FlatIs(elem: Shape, vs: seq<Val>, parts: seq<Bytes>)
    requires |parts| == |vs| && forall i :: 0 <= i < |parts| ==> parts[i] == Enc(elem, vs[i], true)
    ensures EncList(elem, vs, true) == Flat(parts)
  {
    hide Enc;
    if vs != [] { FlatIs(elem, vs[1..], parts[1..]); }
  }
}
