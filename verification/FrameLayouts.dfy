/**
  Every frame, field by field: which values it takes and which bytes it is,
  without its table.  Each lemma says for all bytes when they are accepted as
  that frame, and what they are decoded to.
 */
module FrameLayouts {
  import opened Common
  import opened Cbor
  import opened Schema
  import opened SchemaForms
  import opened Tables
  import opened Wire
  import opened Frames
  import opened Encoding
  import opened Layouts

  // --- every tag selects its own table ------------------------------------------------------

  lemma LinkFrames()
    ensures |LINK_FRAMES| == 9
    ensures LINK_FRAMES[0] == MANAGE_REQUEST && LINK_FRAMES[1] == HANDSHAKE && LINK_FRAMES[2] == PING
    ensures LINK_FRAMES[3] == PONG && LINK_FRAMES[4] == CLOSE && LINK_FRAMES[5] == GOSSIP
    ensures LINK_FRAMES[6] == CANDIDATES && LINK_FRAMES[7] == SYNC_PUNCH && LINK_FRAMES[8] == OBSERVED_ADDRESS
  {
    hide Ascii, Table, MANAGE_REQUEST, HANDSHAKE, PING, PONG, CLOSE, GOSSIP, CANDIDATES, SYNC_PUNCH, OBSERVED_ADDRESS;
  }

  lemma MeshFrames()
    ensures |MESH_FRAMES| == 9
    ensures MESH_FRAMES[0] == RELAY_OFFER && MESH_FRAMES[1] == RELAY_CONNECT && MESH_FRAMES[2] == RELAY_DATA
    ensures MESH_FRAMES[3] == RELAY_INBOUND && MESH_FRAMES[4] == COORDINATOR && MESH_FRAMES[5] == MANAGE_RESPONSE
    ensures MESH_FRAMES[6] == REVOCATION_ANNOUNCE && MESH_FRAMES[7] == STREAM_DATA && MESH_FRAMES[8] == STREAM_ACK
  {
    hide Ascii, Table, RELAY_OFFER, RELAY_CONNECT, RELAY_DATA, RELAY_INBOUND, COORDINATOR, MANAGE_RESPONSE,
         REVOCATION_ANNOUNCE, STREAM_DATA, STREAM_ACK;
  }

  lemma DataFrames()
    ensures |DATA_FRAMES| == 9
    ensures DATA_FRAMES[0] == STREAM_END && DATA_FRAMES[1] == DATA_HAVE && DATA_FRAMES[2] == DATA_REQUEST
    ensures DATA_FRAMES[3] == DATA_ENTRIES && DATA_FRAMES[4] == BULK_DATA && DATA_FRAMES[5] == BULK_ACK
    ensures DATA_FRAMES[6] == BULK_END && DATA_FRAMES[7] == SECURE_HELLO && DATA_FRAMES[8] == SECURE_DATA
  {
    hide Ascii, Table, STREAM_END, DATA_HAVE, DATA_REQUEST, DATA_ENTRIES, BULK_DATA, BULK_ACK, BULK_END, SECURE_HELLO,
         SECURE_DATA;
  }

  lemma FramesJoined()
    ensures |FRAME_CASES| == 27
    ensures forall i :: 0 <= i < 9 ==> i < |LINK_FRAMES| && FRAME_CASES[i] == LINK_FRAMES[i]
    ensures forall i :: 0 <= i < 9 ==> i < |MESH_FRAMES| && FRAME_CASES[i + 9] == MESH_FRAMES[i]
    ensures forall i :: 0 <= i < 9 ==> i < |DATA_FRAMES| && FRAME_CASES[i + 18] == DATA_FRAMES[i]
  {
    hide Ascii, Table, LINK_FRAMES, MESH_FRAMES, DATA_FRAMES;
    LinkFrames();
    MeshFrames();
    DataFrames();
  }

  lemma ManageRequestCase()
    ensures MANAGE_REQUEST.tag == Ascii("manage-request") && MANAGE_REQUEST.shape == Table(MANAGE_REQUEST_ROWS)
  {
    hide Ascii, Table, MANAGE_REQUEST_ROWS;
  }

  lemma HandshakeCase()
    ensures HANDSHAKE.tag == Ascii("handshake") && HANDSHAKE.shape == Table(HANDSHAKE_ROWS)
  {
    hide Ascii, Table, HANDSHAKE_ROWS;
  }

  lemma PingCase()
    ensures PING.tag == Ascii("ping") && PING.shape == Table(PING_ROWS)
  {
    hide Ascii, Table, PING_ROWS;
  }

  lemma PongCase()
    ensures PONG.tag == Ascii("pong") && PONG.shape == Table(PONG_ROWS)
  {
    hide Ascii, Table, PONG_ROWS;
  }

  lemma CloseCase()
    ensures CLOSE.tag == Ascii("close") && CLOSE.shape == Table(CLOSE_ROWS)
  {
    hide Ascii, Table, CLOSE_ROWS;
  }

  lemma GossipCase()
    ensures GOSSIP.tag == Ascii("gossip") && GOSSIP.shape == Table(GOSSIP_ROWS)
  {
    hide Ascii, Table, GOSSIP_ROWS;
  }

  lemma CandidatesCase()
    ensures CANDIDATES.tag == Ascii("candidates") && CANDIDATES.shape == Table(CANDIDATES_ROWS)
  {
    hide Ascii, Table, CANDIDATES_ROWS;
  }

  lemma SyncPunchCase()
    ensures SYNC_PUNCH.tag == Ascii("sync-punch") && SYNC_PUNCH.shape == Table(SYNC_PUNCH_ROWS)
  {
    hide Ascii, Table, SYNC_PUNCH_ROWS;
  }

  lemma ObservedAddressCase()
    ensures OBSERVED_ADDRESS.tag == Ascii("observed-address") && OBSERVED_ADDRESS.shape == Table(OBSERVED_ADDRESS_ROWS)
  {
    hide Ascii, Table, OBSERVED_ADDRESS_ROWS;
  }

  lemma RelayOfferCase()
    ensures RELAY_OFFER.tag == Ascii("relay-offer") && RELAY_OFFER.shape == Table(RELAY_OFFER_ROWS)
  {
    hide Ascii, Table, RELAY_OFFER_ROWS;
  }

  lemma RelayConnectCase()
    ensures RELAY_CONNECT.tag == Ascii("relay-connect") && RELAY_CONNECT.shape == Table(RELAY_CONNECT_ROWS)
  {
    hide Ascii, Table, RELAY_CONNECT_ROWS;
  }

  lemma RelayDataCase()
    ensures RELAY_DATA.tag == Ascii("relay-data") && RELAY_DATA.shape == Table(RELAY_DATA_ROWS)
  {
    hide Ascii, Table, RELAY_DATA_ROWS;
  }

  lemma RelayInboundCase()
    ensures RELAY_INBOUND.tag == Ascii("relay-inbound") && RELAY_INBOUND.shape == Table(RELAY_INBOUND_ROWS)
  {
    hide Ascii, Table, RELAY_INBOUND_ROWS;
  }

  lemma CoordinatorCase()
    ensures COORDINATOR.tag == Ascii("coordinator") && COORDINATOR.shape == Table(COORDINATOR_ROWS)
  {
    hide Ascii, Table, COORDINATOR_ROWS;
  }

  lemma ManageResponseCase()
    ensures MANAGE_RESPONSE.tag == Ascii("manage-response") && MANAGE_RESPONSE.shape == Table(MANAGE_RESPONSE_ROWS)
  {
    hide Ascii, Table, MANAGE_RESPONSE_ROWS;
  }

  lemma RevocationAnnounceCase()
    ensures REVOCATION_ANNOUNCE.tag == Ascii("revocation-announce") && REVOCATION_ANNOUNCE.shape == Table(REVOCATION_ANNOUNCE_ROWS)
  {
    hide Ascii, Table, REVOCATION_ANNOUNCE_ROWS;
  }

  lemma StreamDataCase()
    ensures STREAM_DATA.tag == Ascii("stream-data") && STREAM_DATA.shape == Table(STREAM_DATA_ROWS)
  {
    hide Ascii, Table, STREAM_DATA_ROWS;
  }

  lemma StreamAckCase()
    ensures STREAM_ACK.tag == Ascii("stream-ack") && STREAM_ACK.shape == Table(STREAM_ACK_ROWS)
  {
    hide Ascii, Table, STREAM_ACK_ROWS;
  }

  lemma StreamEndCase()
    ensures STREAM_END.tag == Ascii("stream-end") && STREAM_END.shape == Table(STREAM_END_ROWS)
  {
    hide Ascii, Table, STREAM_END_ROWS;
  }

  lemma DataHaveCase()
    ensures DATA_HAVE.tag == Ascii("data-have") && DATA_HAVE.shape == Table(DATA_HAVE_ROWS)
  {
    hide Ascii, Table, DATA_HAVE_ROWS;
  }

  lemma DataRequestCase()
    ensures DATA_REQUEST.tag == Ascii("data-request") && DATA_REQUEST.shape == Table(DATA_REQUEST_ROWS)
  {
    hide Ascii, Table, DATA_REQUEST_ROWS;
  }

  lemma DataEntriesCase()
    ensures DATA_ENTRIES.tag == Ascii("data-entries") && DATA_ENTRIES.shape == Table(DATA_ENTRIES_ROWS)
  {
    hide Ascii, Table, DATA_ENTRIES_ROWS;
  }

  lemma BulkDataCase()
    ensures BULK_DATA.tag == Ascii("bulk-data") && BULK_DATA.shape == Table(BULK_DATA_ROWS)
  {
    hide Ascii, Table, BULK_DATA_ROWS;
  }

  lemma BulkAckCase()
    ensures BULK_ACK.tag == Ascii("bulk-ack") && BULK_ACK.shape == Table(BULK_ACK_ROWS)
  {
    hide Ascii, Table, BULK_ACK_ROWS;
  }

  lemma BulkEndCase()
    ensures BULK_END.tag == Ascii("bulk-end") && BULK_END.shape == Table(BULK_END_ROWS)
  {
    hide Ascii, Table, BULK_END_ROWS;
  }

  lemma SecureHelloCase()
    ensures SECURE_HELLO.tag == Ascii("secure-hello") && SECURE_HELLO.shape == Table(SECURE_HELLO_ROWS)
  {
    hide Ascii, Table, SECURE_HELLO_ROWS;
  }

  lemma SecureDataCase()
    ensures SECURE_DATA.tag == Ascii("secure-data") && SECURE_DATA.shape == Table(SECURE_DATA_ROWS)
  {
    hide Ascii, Table, SECURE_DATA_ROWS;
  }

  function FrameMark(k: nat): int {
    if k == 0 then 30964212
    else if k == 1 then 20477413
    else if k == 2 then 10123111
    else if k == 3 then 10221415
    else if k == 4 then 12270053
    else if k == 5 then 14415088
    else if k == 6 then 22573811
    else if k == 7 then 22966760
    else if k == 8 then 35174899
    else if k == 9 then 24736498
    else if k == 10 then 28930548
    else if k == 11 then 22641249
    else if k == 12 then 28931940
    else if k == 13 then 24901618
    else if k == 14 then 33061349
    else if k == 15 then 41513445
    else if k == 16 then 24984161
    else if k == 17 then 22884843
    else if k == 18 then 22886244
    else if k == 19 then 20478821
    else if k == 20 then 26769908
    else if k == 21 then 26768115
    else if k == 22 then 20806241
    else if k == 23 then 18706923
    else if k == 24 then 18708324
    else if k == 25 then 26834543
    else 24738401
  }

  lemma LinkFramesMarked(k: nat)
    requires k < 9
    ensures |LINK_FRAMES| == 9 && Mark(LINK_FRAMES[k].tag) == FrameMark(k)
  {
    hide Ascii, Table, Mark, LINK_FRAMES, MANAGE_REQUEST, HANDSHAKE, PING, PONG, CLOSE, GOSSIP, CANDIDATES, SYNC_PUNCH,
         OBSERVED_ADDRESS;
    LinkFrames();
    if k == 0 {
      ManageRequestCase();
      MarkOf("manage-request", 'a', 's', 't');
    }     else if k == 1 {
      HandshakeCase();
      MarkOf("handshake", 'a', 'k', 'e');
    }     else if k == 2 {
      PingCase();
      MarkOf("ping", 'i', 'n', 'g');
    }     else if k == 3 {
      PongCase();
      MarkOf("pong", 'o', 'n', 'g');
    }     else if k == 4 {
      CloseCase();
      MarkOf("close", 'l', 's', 'e');
    }     else if k == 5 {
      GossipCase();
      MarkOf("gossip", 'o', 'i', 'p');
    }     else if k == 6 {
      CandidatesCase();
      MarkOf("candidates", 'a', 'e', 's');
    }     else if k == 7 {
      SyncPunchCase();
      MarkOf("sync-punch", 'y', 'c', 'h');
    }     else {
      ObservedAddressCase();
      MarkOf("observed-address", 'b', 's', 's');
    }
  }

  lemma MeshFramesMarked(k: nat)
    requires k < 9
    ensures |MESH_FRAMES| == 9 && Mark(MESH_FRAMES[k].tag) == FrameMark(k + 9)
  {
    hide Ascii, Table, Mark, MESH_FRAMES, RELAY_OFFER, RELAY_CONNECT, RELAY_DATA, RELAY_INBOUND, COORDINATOR,
         MANAGE_RESPONSE, REVOCATION_ANNOUNCE, STREAM_DATA, STREAM_ACK;
    MeshFrames();
    if k == 0 {
      RelayOfferCase();
      MarkOf("relay-offer", 'e', 'e', 'r');
    }     else if k == 1 {
      RelayConnectCase();
      MarkOf("relay-connect", 'e', 'c', 't');
    }     else if k == 2 {
      RelayDataCase();
      MarkOf("relay-data", 'e', 't', 'a');
    }     else if k == 3 {
      RelayInboundCase();
      MarkOf("relay-inbound", 'e', 'n', 'd');
    }     else if k == 4 {
      CoordinatorCase();
      MarkOf("coordinator", 'o', 'o', 'r');
    }     else if k == 5 {
      ManageResponseCase();
      MarkOf("manage-response", 'a', 's', 'e');
    }     else if k == 6 {
      RevocationAnnounceCase();
      MarkOf("revocation-announce", 'e', 'c', 'e');
    }     else if k == 7 {
      StreamDataCase();
      MarkOf("stream-data", 't', 't', 'a');
    }     else {
      StreamAckCase();
      MarkOf("stream-ack", 't', 'c', 'k');
    }
  }

  lemma DataFramesMarked(k: nat)
    requires k < 9
    ensures |DATA_FRAMES| == 9 && Mark(DATA_FRAMES[k].tag) == FrameMark(k + 18)
  {
    hide Ascii, Table, Mark, DATA_FRAMES, STREAM_END, DATA_HAVE, DATA_REQUEST, DATA_ENTRIES, BULK_DATA, BULK_ACK,
         BULK_END, SECURE_HELLO, SECURE_DATA;
    DataFrames();
    if k == 0 {
      StreamEndCase();
      MarkOf("stream-end", 't', 'n', 'd');
    }     else if k == 1 {
      DataHaveCase();
      MarkOf("data-have", 'a', 'v', 'e');
    }     else if k == 2 {
      DataRequestCase();
      MarkOf("data-request", 'a', 's', 't');
    }     else if k == 3 {
      DataEntriesCase();
      MarkOf("data-entries", 'a', 'e', 's');
    }     else if k == 4 {
      BulkDataCase();
      MarkOf("bulk-data", 'u', 't', 'a');
    }     else if k == 5 {
      BulkAckCase();
      MarkOf("bulk-ack", 'u', 'c', 'k');
    }     else if k == 6 {
      BulkEndCase();
      MarkOf("bulk-end", 'u', 'n', 'd');
    }     else if k == 7 {
      SecureHelloCase();
      MarkOf("secure-hello", 'e', 'l', 'o');
    }     else {
      SecureDataCase();
      MarkOf("secure-data", 'e', 't', 'a');
    }
  }

  lemma FrameMarked(k: nat)
    requires k < 27
    ensures |FRAME_CASES| == 27 && Mark(FRAME_CASES[k].tag) == FrameMark(k)
  {
    hide *;
    FramesJoined();
    if k < 9 {
      LinkFramesMarked(k);
    } else if k < 18 {
      MeshFramesMarked(k - 9);
      assert FRAME_CASES[k] == MESH_FRAMES[k - 9];
    } else {
      DataFramesMarked(k - 18);
      assert FRAME_CASES[k] == DATA_FRAMES[k - 18];
    }
  }

  lemma FrameMarksDiffer(i: nat, k: nat)
    requires i < k < 27
    ensures FrameMark(i) != FrameMark(k)
  {
  }

  lemma FrameFound(k: nat)
    requires k < 27
    ensures |FRAME_CASES| == 27 && FindCase(FRAME_CASES, FRAME_CASES[k].tag) == Yes(FRAME_CASES[k].shape)
  {
    hide *;
    FrameMarked(k);
    forall i | 0 <= i < k
      ensures FRAME_CASES[i].tag != FRAME_CASES[k].tag
    {
      FrameMarked(i);
      FrameMarksDiffer(i, k);
    }
    FoundAt(FRAME_CASES, k);
  }

  lemma ManageRequestFound()
    ensures FindCase(FRAME_CASES, Ascii("manage-request")) == Yes(Table(MANAGE_REQUEST_ROWS))
  {
    hide *;
    FramesJoined();
    LinkFrames();
    ManageRequestCase();
    FrameFound(0);
    assert FRAME_CASES[0] == LINK_FRAMES[0];
  }

  lemma HandshakeFound()
    ensures FindCase(FRAME_CASES, Ascii("handshake")) == Yes(Table(HANDSHAKE_ROWS))
  {
    hide *;
    FramesJoined();
    LinkFrames();
    HandshakeCase();
    FrameFound(1);
    assert FRAME_CASES[1] == LINK_FRAMES[1];
  }

  lemma PingFound()
    ensures FindCase(FRAME_CASES, Ascii("ping")) == Yes(Table(PING_ROWS))
  {
    hide *;
    FramesJoined();
    LinkFrames();
    PingCase();
    FrameFound(2);
    assert FRAME_CASES[2] == LINK_FRAMES[2];
  }

  lemma PongFound()
    ensures FindCase(FRAME_CASES, Ascii("pong")) == Yes(Table(PONG_ROWS))
  {
    hide *;
    FramesJoined();
    LinkFrames();
    PongCase();
    FrameFound(3);
    assert FRAME_CASES[3] == LINK_FRAMES[3];
  }

  lemma CloseFound()
    ensures FindCase(FRAME_CASES, Ascii("close")) == Yes(Table(CLOSE_ROWS))
  {
    hide *;
    FramesJoined();
    LinkFrames();
    CloseCase();
    FrameFound(4);
    assert FRAME_CASES[4] == LINK_FRAMES[4];
  }

  lemma GossipFound()
    ensures FindCase(FRAME_CASES, Ascii("gossip")) == Yes(Table(GOSSIP_ROWS))
  {
    hide *;
    FramesJoined();
    LinkFrames();
    GossipCase();
    FrameFound(5);
    assert FRAME_CASES[5] == LINK_FRAMES[5];
  }

  lemma CandidatesFound()
    ensures FindCase(FRAME_CASES, Ascii("candidates")) == Yes(Table(CANDIDATES_ROWS))
  {
    hide *;
    FramesJoined();
    LinkFrames();
    CandidatesCase();
    FrameFound(6);
    assert FRAME_CASES[6] == LINK_FRAMES[6];
  }

  lemma SyncPunchFound()
    ensures FindCase(FRAME_CASES, Ascii("sync-punch")) == Yes(Table(SYNC_PUNCH_ROWS))
  {
    hide *;
    FramesJoined();
    LinkFrames();
    SyncPunchCase();
    FrameFound(7);
    assert FRAME_CASES[7] == LINK_FRAMES[7];
  }

  lemma ObservedAddressFound()
    ensures FindCase(FRAME_CASES, Ascii("observed-address")) == Yes(Table(OBSERVED_ADDRESS_ROWS))
  {
    hide *;
    FramesJoined();
    LinkFrames();
    ObservedAddressCase();
    FrameFound(8);
    assert FRAME_CASES[8] == LINK_FRAMES[8];
  }

  lemma RelayOfferFound()
    ensures FindCase(FRAME_CASES, Ascii("relay-offer")) == Yes(Table(RELAY_OFFER_ROWS))
  {
    hide *;
    FramesJoined();
    MeshFrames();
    RelayOfferCase();
    FrameFound(9);
    assert FRAME_CASES[0 + 9] == MESH_FRAMES[0];
  }

  lemma RelayConnectFound()
    ensures FindCase(FRAME_CASES, Ascii("relay-connect")) == Yes(Table(RELAY_CONNECT_ROWS))
  {
    hide *;
    FramesJoined();
    MeshFrames();
    RelayConnectCase();
    FrameFound(10);
    assert FRAME_CASES[1 + 9] == MESH_FRAMES[1];
  }

  lemma RelayDataFound()
    ensures FindCase(FRAME_CASES, Ascii("relay-data")) == Yes(Table(RELAY_DATA_ROWS))
  {
    hide *;
    FramesJoined();
    MeshFrames();
    RelayDataCase();
    FrameFound(11);
    assert FRAME_CASES[2 + 9] == MESH_FRAMES[2];
  }

  lemma RelayInboundFound()
    ensures FindCase(FRAME_CASES, Ascii("relay-inbound")) == Yes(Table(RELAY_INBOUND_ROWS))
  {
    hide *;
    FramesJoined();
    MeshFrames();
    RelayInboundCase();
    FrameFound(12);
    assert FRAME_CASES[3 + 9] == MESH_FRAMES[3];
  }

  lemma CoordinatorFound()
    ensures FindCase(FRAME_CASES, Ascii("coordinator")) == Yes(Table(COORDINATOR_ROWS))
  {
    hide *;
    FramesJoined();
    MeshFrames();
    CoordinatorCase();
    FrameFound(13);
    assert FRAME_CASES[4 + 9] == MESH_FRAMES[4];
  }

  lemma ManageResponseFound()
    ensures FindCase(FRAME_CASES, Ascii("manage-response")) == Yes(Table(MANAGE_RESPONSE_ROWS))
  {
    hide *;
    FramesJoined();
    MeshFrames();
    ManageResponseCase();
    FrameFound(14);
    assert FRAME_CASES[5 + 9] == MESH_FRAMES[5];
  }

  lemma RevocationAnnounceFound()
    ensures FindCase(FRAME_CASES, Ascii("revocation-announce")) == Yes(Table(REVOCATION_ANNOUNCE_ROWS))
  {
    hide *;
    FramesJoined();
    MeshFrames();
    RevocationAnnounceCase();
    FrameFound(15);
    assert FRAME_CASES[6 + 9] == MESH_FRAMES[6];
  }

  lemma StreamDataFound()
    ensures FindCase(FRAME_CASES, Ascii("stream-data")) == Yes(Table(STREAM_DATA_ROWS))
  {
    hide *;
    FramesJoined();
    MeshFrames();
    StreamDataCase();
    FrameFound(16);
    assert FRAME_CASES[7 + 9] == MESH_FRAMES[7];
  }

  lemma StreamAckFound()
    ensures FindCase(FRAME_CASES, Ascii("stream-ack")) == Yes(Table(STREAM_ACK_ROWS))
  {
    hide *;
    FramesJoined();
    MeshFrames();
    StreamAckCase();
    FrameFound(17);
    assert FRAME_CASES[8 + 9] == MESH_FRAMES[8];
  }

  lemma StreamEndFound()
    ensures FindCase(FRAME_CASES, Ascii("stream-end")) == Yes(Table(STREAM_END_ROWS))
  {
    hide *;
    FramesJoined();
    DataFrames();
    StreamEndCase();
    FrameFound(18);
    assert FRAME_CASES[0 + 18] == DATA_FRAMES[0];
  }

  lemma DataHaveFound()
    ensures FindCase(FRAME_CASES, Ascii("data-have")) == Yes(Table(DATA_HAVE_ROWS))
  {
    hide *;
    FramesJoined();
    DataFrames();
    DataHaveCase();
    FrameFound(19);
    assert FRAME_CASES[1 + 18] == DATA_FRAMES[1];
  }

  lemma DataRequestFound()
    ensures FindCase(FRAME_CASES, Ascii("data-request")) == Yes(Table(DATA_REQUEST_ROWS))
  {
    hide *;
    FramesJoined();
    DataFrames();
    DataRequestCase();
    FrameFound(20);
    assert FRAME_CASES[2 + 18] == DATA_FRAMES[2];
  }

  lemma DataEntriesFound()
    ensures FindCase(FRAME_CASES, Ascii("data-entries")) == Yes(Table(DATA_ENTRIES_ROWS))
  {
    hide *;
    FramesJoined();
    DataFrames();
    DataEntriesCase();
    FrameFound(21);
    assert FRAME_CASES[3 + 18] == DATA_FRAMES[3];
  }

  lemma BulkDataFound()
    ensures FindCase(FRAME_CASES, Ascii("bulk-data")) == Yes(Table(BULK_DATA_ROWS))
  {
    hide *;
    FramesJoined();
    DataFrames();
    BulkDataCase();
    FrameFound(22);
    assert FRAME_CASES[4 + 18] == DATA_FRAMES[4];
  }

  lemma BulkAckFound()
    ensures FindCase(FRAME_CASES, Ascii("bulk-ack")) == Yes(Table(BULK_ACK_ROWS))
  {
    hide *;
    FramesJoined();
    DataFrames();
    BulkAckCase();
    FrameFound(23);
    assert FRAME_CASES[5 + 18] == DATA_FRAMES[5];
  }

  lemma BulkEndFound()
    ensures FindCase(FRAME_CASES, Ascii("bulk-end")) == Yes(Table(BULK_END_ROWS))
  {
    hide *;
    FramesJoined();
    DataFrames();
    BulkEndCase();
    FrameFound(24);
    assert FRAME_CASES[6 + 18] == DATA_FRAMES[6];
  }

  lemma SecureHelloFound()
    ensures FindCase(FRAME_CASES, Ascii("secure-hello")) == Yes(Table(SECURE_HELLO_ROWS))
  {
    hide *;
    FramesJoined();
    DataFrames();
    SecureHelloCase();
    FrameFound(25);
    assert FRAME_CASES[7 + 18] == DATA_FRAMES[7];
  }

  lemma SecureDataFound()
    ensures FindCase(FRAME_CASES, Ascii("secure-data")) == Yes(Table(SECURE_DATA_ROWS))
  {
    hide *;
    FramesJoined();
    DataFrames();
    SecureDataCase();
    FrameFound(26);
    assert FRAME_CASES[8 + 18] == DATA_FRAMES[8];
  }

  // --- the frames, one by one -----------------------------------------------------------------

  /** `manage-request`: a scope, a command, its number and, if there is one, a token. */
  lemma ManageRequestFrame(b: Bytes, v: Val)
    ensures DecodeFrame(b) == Ok(Tagged(Ascii("manage-request"), v)) <==>
            && v.Record? && |v.slots| == 5 && v.extra == []
            && v.slots[0] == Present(Unit) && PartIn(SCOPE, v.slots[1])
            && (v.slots[2].Absent? || PartIn(COSE_SIGN1, v.slots[2])) && PartIn(COMMAND, v.slots[3])
            && UintIn(v.slots[4])
            && b == MapBytes([WordEntry("type", "manage-request"), PartEntry("scope", SCOPE, v.slots[1]),
                              PartEntry("token", COSE_SIGN1, v.slots[2]), PartEntry("command", COMMAND, v.slots[3]),
                              UintEntry("request-id", v.slots[4])])
  {
    hide Ascii, FRAME_CASES, DecodeFrame, MapBytes, WF, Enc, SlotFits, RowPart, Table, UintIn, IntIn, BytesIn, SizedIn, TextIn,
         PartIn, UintEntry, IntEntry, BytesEntry, TextEntry, WordEntry, PartEntry;
    ManageRequestFound();
    var rows := MANAGE_REQUEST_ROWS;
    FrameLayout("manage-request", rows, b, v);
    if v.Record? && |v.slots| == 5 {
      WordRow(rows[0], "manage-request", v.slots[0]); PartRow(rows[1], v.slots[1]); PartRow(rows[2], v.slots[2]);
      PartRow(rows[3], v.slots[3]); UintRow(rows[4], v.slots[4]);
      assert RowsFit(rows, v) ==> RowParts(rows, v.slots) == [
        WordEntry("type", "manage-request"), PartEntry("scope", SCOPE, v.slots[1]),
        PartEntry("token", COSE_SIGN1, v.slots[2]), PartEntry("command", COMMAND, v.slots[3]),
        UintEntry("request-id", v.slots[4])
      ];
    }
  }

  /** `handshake`: a version, the domains and, if there are any, parameters. */
  lemma HandshakeFrame(b: Bytes, v: Val)
    ensures DecodeFrame(b) == Ok(Tagged(Ascii("handshake"), v)) <==>
            && v.Record? && |v.slots| == 4 && v.extra == []
            && v.slots[0] == Present(Unit) && (v.slots[1].Absent? || PartIn(ANY_MAP, v.slots[1]))
            && PartIn(ListShape(TextShape), v.slots[2]) && UintIn(v.slots[3])
            && b == MapBytes([WordEntry("type", "handshake"), PartEntry("params", ANY_MAP, v.slots[1]),
                              PartEntry("domains", ListShape(TextShape), v.slots[2]), UintEntry("version", v.slots[3])])
  {
    hide Ascii, FRAME_CASES, DecodeFrame, MapBytes, WF, Enc, SlotFits, RowPart, Table, UintIn, IntIn, BytesIn, SizedIn, TextIn,
         PartIn, UintEntry, IntEntry, BytesEntry, TextEntry, WordEntry, PartEntry;
    HandshakeFound();
    var rows := HANDSHAKE_ROWS;
    FrameLayout("handshake", rows, b, v);
    if v.Record? && |v.slots| == 4 {
      WordRow(rows[0], "handshake", v.slots[0]); PartRow(rows[1], v.slots[1]); PartRow(rows[2], v.slots[2]);
      UintRow(rows[3], v.slots[3]);
      assert RowsFit(rows, v) ==> RowParts(rows, v.slots) == [
        WordEntry("type", "handshake"), PartEntry("params", ANY_MAP, v.slots[1]),
        PartEntry("domains", ListShape(TextShape), v.slots[2]), UintEntry("version", v.slots[3])
      ];
    }
  }

  /** `ping`: nothing else. */
  lemma PingFrame(b: Bytes, v: Val)
    ensures DecodeFrame(b) == Ok(Tagged(Ascii("ping"), v)) <==>
            && v.Record? && |v.slots| == 1 && v.extra == []
            && v.slots[0] == Present(Unit)
            && b == MapBytes([WordEntry("type", "ping")])
  {
    hide Ascii, FRAME_CASES, DecodeFrame, MapBytes, WF, Enc, SlotFits, RowPart, Table, UintIn, IntIn, BytesIn, SizedIn, TextIn,
         PartIn, UintEntry, IntEntry, BytesEntry, TextEntry, WordEntry, PartEntry;
    PingFound();
    var rows := PING_ROWS;
    FrameLayout("ping", rows, b, v);
    if v.Record? && |v.slots| == 1 {
      WordRow(rows[0], "ping", v.slots[0]);
      assert RowsFit(rows, v) ==> RowParts(rows, v.slots) == [
        WordEntry("type", "ping")
      ];
    }
  }

  /** `pong`: nothing else. */
  lemma PongFrame(b: Bytes, v: Val)
    ensures DecodeFrame(b) == Ok(Tagged(Ascii("pong"), v)) <==>
            && v.Record? && |v.slots| == 1 && v.extra == []
            && v.slots[0] == Present(Unit)
            && b == MapBytes([WordEntry("type", "pong")])
  {
    hide Ascii, FRAME_CASES, DecodeFrame, MapBytes, WF, Enc, SlotFits, RowPart, Table, UintIn, IntIn, BytesIn, SizedIn, TextIn,
         PartIn, UintEntry, IntEntry, BytesEntry, TextEntry, WordEntry, PartEntry;
    PongFound();
    var rows := PONG_ROWS;
    FrameLayout("pong", rows, b, v);
    if v.Record? && |v.slots| == 1 {
      WordRow(rows[0], "pong", v.slots[0]);
      assert RowsFit(rows, v) ==> RowParts(rows, v.slots) == [
        WordEntry("type", "pong")
      ];
    }
  }

  /** `close`: a reason, if there is one. */
  lemma CloseFrame(b: Bytes, v: Val)
    ensures DecodeFrame(b) == Ok(Tagged(Ascii("close"), v)) <==>
            && v.Record? && |v.slots| == 2 && v.extra == []
            && v.slots[0] == Present(Unit) && (v.slots[1].Absent? || TextIn(v.slots[1]))
            && b == MapBytes([WordEntry("type", "close"), TextEntry("reason", v.slots[1])])
  {
    hide Ascii, FRAME_CASES, DecodeFrame, MapBytes, WF, Enc, SlotFits, RowPart, Table, UintIn, IntIn, BytesIn, SizedIn, TextIn,
         PartIn, UintEntry, IntEntry, BytesEntry, TextEntry, WordEntry, PartEntry;
    CloseFound();
    var rows := CLOSE_ROWS;
    FrameLayout("close", rows, b, v);
    if v.Record? && |v.slots| == 2 {
      WordRow(rows[0], "close", v.slots[0]); TextRow(rows[1], v.slots[1]);
      assert RowsFit(rows, v) ==> RowParts(rows, v.slots) == [
        WordEntry("type", "close"), TextEntry("reason", v.slots[1])
      ];
    }
  }

  /** `gossip`: the adverts of some peers. */
  lemma GossipFrame(b: Bytes, v: Val)
    ensures DecodeFrame(b) == Ok(Tagged(Ascii("gossip"), v)) <==>
            && v.Record? && |v.slots| == 2 && v.extra == []
            && v.slots[0] == Present(Unit) && PartIn(ListShape(PEER_ADVERT), v.slots[1])
            && b == MapBytes([WordEntry("type", "gossip"), PartEntry("peers", ListShape(PEER_ADVERT), v.slots[1])])
  {
    hide Ascii, FRAME_CASES, DecodeFrame, MapBytes, WF, Enc, SlotFits, RowPart, Table, UintIn, IntIn, BytesIn, SizedIn, TextIn,
         PartIn, UintEntry, IntEntry, BytesEntry, TextEntry, WordEntry, PartEntry;
    GossipFound();
    var rows := GOSSIP_ROWS;
    FrameLayout("gossip", rows, b, v);
    if v.Record? && |v.slots| == 2 {
      WordRow(rows[0], "gossip", v.slots[0]); PartRow(rows[1], v.slots[1]);
      assert RowsFit(rows, v) ==> RowParts(rows, v.slots) == [
        WordEntry("type", "gossip"), PartEntry("peers", ListShape(PEER_ADVERT), v.slots[1])
      ];
    }
  }

  /** Without one of the fields it must have it is refused. */
  lemma GossipLacking(v: Val)
    requires v.Record? && |v.slots| == 2
    requires v.slots[0] == Present(Unit) && (v.slots[1].Absent? || PartIn(ListShape(PEER_ADVERT), v.slots[1]))
    requires v.slots[1].Absent?
    ensures DecodeFrame(MapBytes([WordEntry("type", "gossip"), PartEntry("peers", ListShape(PEER_ADVERT), v.slots[1])])) == Err(MissingField)
  {
    hide Ascii, FRAME_CASES, DecodeFrame, MapBytes, WF, Enc, SlotFits, RowPart, Table, UintIn, IntIn, BytesIn, SizedIn, TextIn,
         PartIn, UintEntry, IntEntry, BytesEntry, TextEntry, WordEntry, PartEntry;
    GossipFound();
    var rows := GOSSIP_ROWS;
    WordRow(rows[0], "gossip", v.slots[0]); PartRow(rows[1], v.slots[1]);
    assert RowParts(rows, v.slots) == [
      WordEntry("type", "gossip"), PartEntry("peers", ListShape(PEER_ADVERT), v.slots[1])
    ];
    assert PartsFit(rows, v.slots);
    var i := 1;
    FrameIncomplete("gossip", rows, v.slots, 0, i);
  }

  /** `candidates`: addresses to try. */
  lemma CandidatesFrame(b: Bytes, v: Val)
    ensures DecodeFrame(b) == Ok(Tagged(Ascii("candidates"), v)) <==>
            && v.Record? && |v.slots| == 2 && v.extra == []
            && v.slots[0] == Present(Unit) && PartIn(ListShape(WIRE_CANDIDATE), v.slots[1])
            && b == MapBytes([WordEntry("type", "candidates"),
                              PartEntry("candidates", ListShape(WIRE_CANDIDATE), v.slots[1])])
  {
    hide Ascii, FRAME_CASES, DecodeFrame, MapBytes, WF, Enc, SlotFits, RowPart, Table, UintIn, IntIn, BytesIn, SizedIn, TextIn,
         PartIn, UintEntry, IntEntry, BytesEntry, TextEntry, WordEntry, PartEntry;
    CandidatesFound();
    var rows := CANDIDATES_ROWS;
    FrameLayout("candidates", rows, b, v);
    if v.Record? && |v.slots| == 2 {
      WordRow(rows[0], "candidates", v.slots[0]); PartRow(rows[1], v.slots[1]);
      assert RowsFit(rows, v) ==> RowParts(rows, v.slots) == [
        WordEntry("type", "candidates"), PartEntry("candidates", ListShape(WIRE_CANDIDATE), v.slots[1])
      ];
    }
  }

  /** `sync-punch`: a nonce and a deadline. */
  lemma SyncPunchFrame(b: Bytes, v: Val)
    ensures DecodeFrame(b) == Ok(Tagged(Ascii("sync-punch"), v)) <==>
            && v.Record? && |v.slots| == 3 && v.extra == []
            && v.slots[0] == Present(Unit) && UintIn(v.slots[1]) && UintIn(v.slots[2])
            && b == MapBytes([WordEntry("type", "sync-punch"), UintEntry("nonce", v.slots[1]),
                              UintEntry("deadline-unix-ms", v.slots[2])])
  {
    hide Ascii, FRAME_CASES, DecodeFrame, MapBytes, WF, Enc, SlotFits, RowPart, Table, UintIn, IntIn, BytesIn, SizedIn, TextIn,
         PartIn, UintEntry, IntEntry, BytesEntry, TextEntry, WordEntry, PartEntry;
    SyncPunchFound();
    var rows := SYNC_PUNCH_ROWS;
    FrameLayout("sync-punch", rows, b, v);
    if v.Record? && |v.slots| == 3 {
      WordRow(rows[0], "sync-punch", v.slots[0]); UintRow(rows[1], v.slots[1]); UintRow(rows[2], v.slots[2]);
      assert RowsFit(rows, v) ==> RowParts(rows, v.slots) == [
        WordEntry("type", "sync-punch"), UintEntry("nonce", v.slots[1]), UintEntry("deadline-unix-ms", v.slots[2])
      ];
    }
  }

  /** `observed-address`: the address seen. */
  lemma ObservedAddressFrame(b: Bytes, v: Val)
    ensures DecodeFrame(b) == Ok(Tagged(Ascii("observed-address"), v)) <==>
            && v.Record? && |v.slots| == 2 && v.extra == []
            && v.slots[0] == Present(Unit) && TextIn(v.slots[1])
            && b == MapBytes([WordEntry("type", "observed-address"), TextEntry("address", v.slots[1])])
  {
    hide Ascii, FRAME_CASES, DecodeFrame, MapBytes, WF, Enc, SlotFits, RowPart, Table, UintIn, IntIn, BytesIn, SizedIn, TextIn,
         PartIn, UintEntry, IntEntry, BytesEntry, TextEntry, WordEntry, PartEntry;
    ObservedAddressFound();
    var rows := OBSERVED_ADDRESS_ROWS;
    FrameLayout("observed-address", rows, b, v);
    if v.Record? && |v.slots| == 2 {
      WordRow(rows[0], "observed-address", v.slots[0]); TextRow(rows[1], v.slots[1]);
      assert RowsFit(rows, v) ==> RowParts(rows, v.slots) == [
        WordEntry("type", "observed-address"), TextEntry("address", v.slots[1])
      ];
    }
  }

  /** `relay-offer`: the addresses offered. */
  lemma RelayOfferFrame(b: Bytes, v: Val)
    ensures DecodeFrame(b) == Ok(Tagged(Ascii("relay-offer"), v)) <==>
            && v.Record? && |v.slots| == 2 && v.extra == []
            && v.slots[0] == Present(Unit) && PartIn(ListShape(TextShape), v.slots[1])
            && b == MapBytes([WordEntry("type", "relay-offer"), PartEntry("addresses", ListShape(TextShape), v.slots[1])])
  {
    hide Ascii, FRAME_CASES, DecodeFrame, MapBytes, WF, Enc, SlotFits, RowPart, Table, UintIn, IntIn, BytesIn, SizedIn, TextIn,
         PartIn, UintEntry, IntEntry, BytesEntry, TextEntry, WordEntry, PartEntry;
    RelayOfferFound();
    var rows := RELAY_OFFER_ROWS;
    FrameLayout("relay-offer", rows, b, v);
    if v.Record? && |v.slots| == 2 {
      WordRow(rows[0], "relay-offer", v.slots[0]); PartRow(rows[1], v.slots[1]);
      assert RowsFit(rows, v) ==> RowParts(rows, v.slots) == [
        WordEntry("type", "relay-offer"), PartEntry("addresses", ListShape(TextShape), v.slots[1])
      ];
    }
  }

  /** `relay-connect`: the target and perhaps the source. */
  lemma RelayConnectFrame(b: Bytes, v: Val)
    ensures DecodeFrame(b) == Ok(Tagged(Ascii("relay-connect"), v)) <==>
            && v.Record? && |v.slots| == 3 && v.extra == []
            && v.slots[0] == Present(Unit) && (v.slots[1].Absent? || SizedIn(32, v.slots[1]))
            && SizedIn(32, v.slots[2])
            && b == MapBytes([WordEntry("type", "relay-connect"), BytesEntry("source-device", v.slots[1]),
                              BytesEntry("target-device", v.slots[2])])
  {
    hide Ascii, FRAME_CASES, DecodeFrame, MapBytes, WF, Enc, SlotFits, RowPart, Table, UintIn, IntIn, BytesIn, SizedIn, TextIn,
         PartIn, UintEntry, IntEntry, BytesEntry, TextEntry, WordEntry, PartEntry;
    RelayConnectFound();
    var rows := RELAY_CONNECT_ROWS;
    FrameLayout("relay-connect", rows, b, v);
    if v.Record? && |v.slots| == 3 {
      WordRow(rows[0], "relay-connect", v.slots[0]); SizedRow(rows[1], 32, v.slots[1]);
      SizedRow(rows[2], 32, v.slots[2]);
      assert RowsFit(rows, v) ==> RowParts(rows, v.slots) == [
        WordEntry("type", "relay-connect"), BytesEntry("source-device", v.slots[1]),
        BytesEntry("target-device", v.slots[2])
      ];
    }
  }

  /** `relay-data`: a payload and perhaps its ends. */
  lemma RelayDataFrame(b: Bytes, v: Val)
    ensures DecodeFrame(b) == Ok(Tagged(Ascii("relay-data"), v)) <==>
            && v.Record? && |v.slots| == 4 && v.extra == []
            && v.slots[0] == Present(Unit) && BytesIn(v.slots[1])
            && (v.slots[2].Absent? || SizedIn(32, v.slots[2])) && (v.slots[3].Absent? || SizedIn(32, v.slots[3]))
            && b == MapBytes([WordEntry("type", "relay-data"), BytesEntry("payload", v.slots[1]),
                              BytesEntry("to-device", v.slots[2]), BytesEntry("from-device", v.slots[3])])
  {
    hide Ascii, FRAME_CASES, DecodeFrame, MapBytes, WF, Enc, SlotFits, RowPart, Table, UintIn, IntIn, BytesIn, SizedIn, TextIn,
         PartIn, UintEntry, IntEntry, BytesEntry, TextEntry, WordEntry, PartEntry;
    RelayDataFound();
    var rows := RELAY_DATA_ROWS;
    FrameLayout("relay-data", rows, b, v);
    if v.Record? && |v.slots| == 4 {
      WordRow(rows[0], "relay-data", v.slots[0]); BytesRow(rows[1], v.slots[1]); SizedRow(rows[2], 32, v.slots[2]);
      SizedRow(rows[3], 32, v.slots[3]);
      assert RowsFit(rows, v) ==> RowParts(rows, v.slots) == [
        WordEntry("type", "relay-data"), BytesEntry("payload", v.slots[1]), BytesEntry("to-device", v.slots[2]),
        BytesEntry("from-device", v.slots[3])
      ];
    }
  }

  /** `relay-inbound`: the source and perhaps the target. */
  lemma RelayInboundFrame(b: Bytes, v: Val)
    ensures DecodeFrame(b) == Ok(Tagged(Ascii("relay-inbound"), v)) <==>
            && v.Record? && |v.slots| == 3 && v.extra == []
            && v.slots[0] == Present(Unit) && SizedIn(32, v.slots[1])
            && (v.slots[2].Absent? || SizedIn(32, v.slots[2]))
            && b == MapBytes([WordEntry("type", "relay-inbound"), BytesEntry("source-device", v.slots[1]),
                              BytesEntry("target-device", v.slots[2])])
  {
    hide Ascii, FRAME_CASES, DecodeFrame, MapBytes, WF, Enc, SlotFits, RowPart, Table, UintIn, IntIn, BytesIn, SizedIn, TextIn,
         PartIn, UintEntry, IntEntry, BytesEntry, TextEntry, WordEntry, PartEntry;
    RelayInboundFound();
    var rows := RELAY_INBOUND_ROWS;
    FrameLayout("relay-inbound", rows, b, v);
    if v.Record? && |v.slots| == 3 {
      WordRow(rows[0], "relay-inbound", v.slots[0]); SizedRow(rows[1], 32, v.slots[1]);
      SizedRow(rows[2], 32, v.slots[2]);
      assert RowsFit(rows, v) ==> RowParts(rows, v.slots) == [
        WordEntry("type", "relay-inbound"), BytesEntry("source-device", v.slots[1]),
        BytesEntry("target-device", v.slots[2])
      ];
    }
  }

  /** `coordinator`: a term, the coordinator and perhaps a capacity hint. */
  lemma CoordinatorFrame(b: Bytes, v: Val)
    ensures DecodeFrame(b) == Ok(Tagged(Ascii("coordinator"), v)) <==>
            && v.Record? && |v.slots| == 4 && v.extra == []
            && UintIn(v.slots[0]) && v.slots[1] == Present(Unit) && SizedIn(32, v.slots[2])
            && (v.slots[3].Absent? || UintIn(v.slots[3]))
            && b == MapBytes([UintEntry("term", v.slots[0]), WordEntry("type", "coordinator"),
                              BytesEntry("coordinator", v.slots[2]), UintEntry("capacity-hint", v.slots[3])])
  {
    hide Ascii, FRAME_CASES, DecodeFrame, MapBytes, WF, Enc, SlotFits, RowPart, Table, UintIn, IntIn, BytesIn, SizedIn, TextIn,
         PartIn, UintEntry, IntEntry, BytesEntry, TextEntry, WordEntry, PartEntry;
    CoordinatorFound();
    var rows := COORDINATOR_ROWS;
    FrameLayout("coordinator", rows, b, v);
    if v.Record? && |v.slots| == 4 {
      UintRow(rows[0], v.slots[0]); WordRow(rows[1], "coordinator", v.slots[1]); SizedRow(rows[2], 32, v.slots[2]);
      UintRow(rows[3], v.slots[3]);
      assert RowsFit(rows, v) ==> RowParts(rows, v.slots) == [
        UintEntry("term", v.slots[0]), WordEntry("type", "coordinator"), BytesEntry("coordinator", v.slots[2]),
        UintEntry("capacity-hint", v.slots[3])
      ];
    }
  }

  /** Without one of the fields it must have it is refused. */
  lemma CoordinatorLacking(v: Val)
    requires v.Record? && |v.slots| == 4
    requires (v.slots[0].Absent? || UintIn(v.slots[0])) && v.slots[1] == Present(Unit)
    requires (v.slots[2].Absent? || SizedIn(32, v.slots[2])) && (v.slots[3].Absent? || UintIn(v.slots[3]))
    requires v.slots[0].Absent? || v.slots[2].Absent?
    ensures DecodeFrame(MapBytes([UintEntry("term", v.slots[0]), WordEntry("type", "coordinator"),
                                  BytesEntry("coordinator", v.slots[2]), UintEntry("capacity-hint", v.slots[3])])) == Err(MissingField)
  {
    hide Ascii, FRAME_CASES, DecodeFrame, MapBytes, WF, Enc, SlotFits, RowPart, Table, UintIn, IntIn, BytesIn, SizedIn, TextIn,
         PartIn, UintEntry, IntEntry, BytesEntry, TextEntry, WordEntry, PartEntry;
    CoordinatorFound();
    var rows := COORDINATOR_ROWS;
    UintRow(rows[0], v.slots[0]); WordRow(rows[1], "coordinator", v.slots[1]); SizedRow(rows[2], 32, v.slots[2]);
    UintRow(rows[3], v.slots[3]);
    assert RowParts(rows, v.slots) == [
      UintEntry("term", v.slots[0]), WordEntry("type", "coordinator"), BytesEntry("coordinator", v.slots[2]),
      UintEntry("capacity-hint", v.slots[3])
    ];
    assert PartsFit(rows, v.slots);
    var i := if v.slots[0].Absent? then 0 else 2;
    FrameIncomplete("coordinator", rows, v.slots, 1, i);
  }

  /** `manage-response`: an outcome and the number of its request. */
  lemma ManageResponseFrame(b: Bytes, v: Val)
    ensures DecodeFrame(b) == Ok(Tagged(Ascii("manage-response"), v)) <==>
            && v.Record? && |v.slots| == 3 && v.extra == []
            && v.slots[0] == Present(Unit) && PartIn(OutcomeShape(OUTCOME), v.slots[1]) && UintIn(v.slots[2])
            && b == MapBytes([WordEntry("type", "manage-response"),
                              PartEntry("outcome", OutcomeShape(OUTCOME), v.slots[1]),
                              UintEntry("request-id", v.slots[2])])
  {
    hide Ascii, FRAME_CASES, DecodeFrame, MapBytes, WF, Enc, SlotFits, RowPart, Table, UintIn, IntIn, BytesIn, SizedIn, TextIn,
         PartIn, UintEntry, IntEntry, BytesEntry, TextEntry, WordEntry, PartEntry;
    ManageResponseFound();
    var rows := MANAGE_RESPONSE_ROWS;
    FrameLayout("manage-response", rows, b, v);
    if v.Record? && |v.slots| == 3 {
      WordRow(rows[0], "manage-response", v.slots[0]); PartRow(rows[1], v.slots[1]); UintRow(rows[2], v.slots[2]);
      assert RowsFit(rows, v) ==> RowParts(rows, v.slots) == [
        WordEntry("type", "manage-response"), PartEntry("outcome", OutcomeShape(OUTCOME), v.slots[1]),
        UintEntry("request-id", v.slots[2])
      ];
    }
  }

  /** Without one of the fields it must have it is refused. */
  lemma ManageResponseLacking(v: Val)
    requires v.Record? && |v.slots| == 3
    requires v.slots[0] == Present(Unit) && (v.slots[1].Absent? || PartIn(OutcomeShape(OUTCOME), v.slots[1]))
    requires (v.slots[2].Absent? || UintIn(v.slots[2]))
    requires v.slots[1].Absent? || v.slots[2].Absent?
    ensures DecodeFrame(MapBytes([WordEntry("type", "manage-response"),
                                  PartEntry("outcome", OutcomeShape(OUTCOME), v.slots[1]),
                                  UintEntry("request-id", v.slots[2])])) == Err(MissingField)
  {
    hide Ascii, FRAME_CASES, DecodeFrame, MapBytes, WF, Enc, SlotFits, RowPart, Table, UintIn, IntIn, BytesIn, SizedIn, TextIn,
         PartIn, UintEntry, IntEntry, BytesEntry, TextEntry, WordEntry, PartEntry;
    ManageResponseFound();
    var rows := MANAGE_RESPONSE_ROWS;
    WordRow(rows[0], "manage-response", v.slots[0]); PartRow(rows[1], v.slots[1]); UintRow(rows[2], v.slots[2]);
    assert RowParts(rows, v.slots) == [
      WordEntry("type", "manage-response"), PartEntry("outcome", OutcomeShape(OUTCOME), v.slots[1]),
      UintEntry("request-id", v.slots[2])
    ];
    assert PartsFit(rows, v.slots);
    var i := if v.slots[1].Absent? then 1 else 2;
    FrameIncomplete("manage-response", rows, v.slots, 0, i);
  }

  /** `revocation-announce`: signed entries. */
  lemma RevocationAnnounceFrame(b: Bytes, v: Val)
    ensures DecodeFrame(b) == Ok(Tagged(Ascii("revocation-announce"), v)) <==>
            && v.Record? && |v.slots| == 2 && v.extra == []
            && v.slots[0] == Present(Unit) && PartIn(ListShape(COSE_SIGN1), v.slots[1])
            && b == MapBytes([WordEntry("type", "revocation-announce"),
                              PartEntry("entries", ListShape(COSE_SIGN1), v.slots[1])])
  {
    hide Ascii, FRAME_CASES, DecodeFrame, MapBytes, WF, Enc, SlotFits, RowPart, Table, UintIn, IntIn, BytesIn, SizedIn, TextIn,
         PartIn, UintEntry, IntEntry, BytesEntry, TextEntry, WordEntry, PartEntry;
    RevocationAnnounceFound();
    var rows := REVOCATION_ANNOUNCE_ROWS;
    FrameLayout("revocation-announce", rows, b, v);
    if v.Record? && |v.slots| == 2 {
      WordRow(rows[0], "revocation-announce", v.slots[0]); PartRow(rows[1], v.slots[1]);
      assert RowsFit(rows, v) ==> RowParts(rows, v.slots) == [
        WordEntry("type", "revocation-announce"), PartEntry("entries", ListShape(COSE_SIGN1), v.slots[1])
      ];
    }
  }

  /** `stream-data`: bytes of a channel, numbered. */
  lemma StreamDataFrame(b: Bytes, v: Val)
    ensures DecodeFrame(b) == Ok(Tagged(Ascii("stream-data"), v)) <==>
            && v.Record? && |v.slots| == 5 && v.extra == []
            && UintIn(v.slots[0]) && v.slots[1] == Present(Unit) && BytesIn(v.slots[2]) && TextIn(v.slots[3])
            && UintIn(v.slots[4])
            && b == MapBytes([UintEntry("seq", v.slots[0]), WordEntry("type", "stream-data"),
                              BytesEntry("bytes", v.slots[2]), TextEntry("channel", v.slots[3]),
                              UintEntry("session", v.slots[4])])
  {
    hide Ascii, FRAME_CASES, DecodeFrame, MapBytes, WF, Enc, SlotFits, RowPart, Table, UintIn, IntIn, BytesIn, SizedIn, TextIn,
         PartIn, UintEntry, IntEntry, BytesEntry, TextEntry, WordEntry, PartEntry;
    StreamDataFound();
    var rows := STREAM_DATA_ROWS;
    FrameLayout("stream-data", rows, b, v);
    if v.Record? && |v.slots| == 5 {
      UintRow(rows[0], v.slots[0]); WordRow(rows[1], "stream-data", v.slots[1]); BytesRow(rows[2], v.slots[2]);
      TextRow(rows[3], v.slots[3]); UintRow(rows[4], v.slots[4]);
      assert RowsFit(rows, v) ==> RowParts(rows, v.slots) == [
        UintEntry("seq", v.slots[0]), WordEntry("type", "stream-data"), BytesEntry("bytes", v.slots[2]),
        TextEntry("channel", v.slots[3]), UintEntry("session", v.slots[4])
      ];
    }
  }

  /** `stream-ack`: how far, and how much more. */
  lemma StreamAckFrame(b: Bytes, v: Val)
    ensures DecodeFrame(b) == Ok(Tagged(Ascii("stream-ack"), v)) <==>
            && v.Record? && |v.slots| == 4 && v.extra == []
            && v.slots[0] == Present(Unit) && UintIn(v.slots[1]) && UintIn(v.slots[2]) && UintIn(v.slots[3])
            && b == MapBytes([WordEntry("type", "stream-ack"), UintEntry("window", v.slots[1]),
                              UintEntry("ack-seq", v.slots[2]), UintEntry("session", v.slots[3])])
  {
    hide Ascii, FRAME_CASES, DecodeFrame, MapBytes, WF, Enc, SlotFits, RowPart, Table, UintIn, IntIn, BytesIn, SizedIn, TextIn,
         PartIn, UintEntry, IntEntry, BytesEntry, TextEntry, WordEntry, PartEntry;
    StreamAckFound();
    var rows := STREAM_ACK_ROWS;
    FrameLayout("stream-ack", rows, b, v);
    if v.Record? && |v.slots| == 4 {
      WordRow(rows[0], "stream-ack", v.slots[0]); UintRow(rows[1], v.slots[1]); UintRow(rows[2], v.slots[2]);
      UintRow(rows[3], v.slots[3]);
      assert RowsFit(rows, v) ==> RowParts(rows, v.slots) == [
        WordEntry("type", "stream-ack"), UintEntry("window", v.slots[1]), UintEntry("ack-seq", v.slots[2]),
        UintEntry("session", v.slots[3])
      ];
    }
  }

  /** `stream-end`: a session and perhaps how it ended. */
  lemma StreamEndFrame(b: Bytes, v: Val)
    ensures DecodeFrame(b) == Ok(Tagged(Ascii("stream-end"), v)) <==>
            && v.Record? && |v.slots| == 4 && v.extra == []
            && v.slots[0] == Present(Unit) && UintIn(v.slots[1]) && (v.slots[2].Absent? || IntIn(v.slots[2]))
            && (v.slots[3].Absent? || IntIn(v.slots[3]))
            && b == MapBytes([WordEntry("type", "stream-end"), UintEntry("session", v.slots[1]),
                              IntEntry("exit-code", v.slots[2]), IntEntry("exit-signal", v.slots[3])])
  {
    hide Ascii, FRAME_CASES, DecodeFrame, MapBytes, WF, Enc, SlotFits, RowPart, Table, UintIn, IntIn, BytesIn, SizedIn, TextIn,
         PartIn, UintEntry, IntEntry, BytesEntry, TextEntry, WordEntry, PartEntry;
    StreamEndFound();
    var rows := STREAM_END_ROWS;
    FrameLayout("stream-end", rows, b, v);
    if v.Record? && |v.slots| == 4 {
      WordRow(rows[0], "stream-end", v.slots[0]); UintRow(rows[1], v.slots[1]); IntRow(rows[2], v.slots[2]);
      IntRow(rows[3], v.slots[3]);
      assert RowsFit(rows, v) ==> RowParts(rows, v.slots) == [
        WordEntry("type", "stream-end"), UintEntry("session", v.slots[1]), IntEntry("exit-code", v.slots[2]),
        IntEntry("exit-signal", v.slots[3])
      ];
    }
  }

  /** `data-have`: a peer and its head. */
  lemma DataHaveFrame(b: Bytes, v: Val)
    ensures DecodeFrame(b) == Ok(Tagged(Ascii("data-have"), v)) <==>
            && v.Record? && |v.slots| == 3 && v.extra == []
            && SizedIn(32, v.slots[0]) && v.slots[1] == Present(Unit) && UintIn(v.slots[2])
            && b == MapBytes([BytesEntry("peer", v.slots[0]), WordEntry("type", "data-have"),
                              UintEntry("head-seq", v.slots[2])])
  {
    hide Ascii, FRAME_CASES, DecodeFrame, MapBytes, WF, Enc, SlotFits, RowPart, Table, UintIn, IntIn, BytesIn, SizedIn, TextIn,
         PartIn, UintEntry, IntEntry, BytesEntry, TextEntry, WordEntry, PartEntry;
    DataHaveFound();
    var rows := DATA_HAVE_ROWS;
    FrameLayout("data-have", rows, b, v);
    if v.Record? && |v.slots| == 3 {
      SizedRow(rows[0], 32, v.slots[0]); WordRow(rows[1], "data-have", v.slots[1]); UintRow(rows[2], v.slots[2]);
      assert RowsFit(rows, v) ==> RowParts(rows, v.slots) == [
        BytesEntry("peer", v.slots[0]), WordEntry("type", "data-have"), UintEntry("head-seq", v.slots[2])
      ];
    }
  }

  /** Without one of the fields it must have it is refused. */
  lemma DataHaveLacking(v: Val)
    requires v.Record? && |v.slots| == 3
    requires (v.slots[0].Absent? || SizedIn(32, v.slots[0])) && v.slots[1] == Present(Unit)
    requires (v.slots[2].Absent? || UintIn(v.slots[2]))
    requires v.slots[0].Absent? || v.slots[2].Absent?
    ensures DecodeFrame(MapBytes([BytesEntry("peer", v.slots[0]), WordEntry("type", "data-have"),
                                  UintEntry("head-seq", v.slots[2])])) == Err(MissingField)
  {
    hide Ascii, FRAME_CASES, DecodeFrame, MapBytes, WF, Enc, SlotFits, RowPart, Table, UintIn, IntIn, BytesIn, SizedIn, TextIn,
         PartIn, UintEntry, IntEntry, BytesEntry, TextEntry, WordEntry, PartEntry;
    DataHaveFound();
    var rows := DATA_HAVE_ROWS;
    SizedRow(rows[0], 32, v.slots[0]); WordRow(rows[1], "data-have", v.slots[1]); UintRow(rows[2], v.slots[2]);
    assert RowParts(rows, v.slots) == [
      BytesEntry("peer", v.slots[0]), WordEntry("type", "data-have"), UintEntry("head-seq", v.slots[2])
    ];
    assert PartsFit(rows, v.slots);
    var i := if v.slots[0].Absent? then 0 else 2;
    FrameIncomplete("data-have", rows, v.slots, 1, i);
  }

  /** `data-request`: a peer and where to start. */
  lemma DataRequestFrame(b: Bytes, v: Val)
    ensures DecodeFrame(b) == Ok(Tagged(Ascii("data-request"), v)) <==>
            && v.Record? && |v.slots| == 3 && v.extra == []
            && SizedIn(32, v.slots[0]) && v.slots[1] == Present(Unit) && UintIn(v.slots[2])
            && b == MapBytes([BytesEntry("peer", v.slots[0]), WordEntry("type", "data-request"),
                              UintEntry("from-seq", v.slots[2])])
  {
    hide Ascii, FRAME_CASES, DecodeFrame, MapBytes, WF, Enc, SlotFits, RowPart, Table, UintIn, IntIn, BytesIn, SizedIn, TextIn,
         PartIn, UintEntry, IntEntry, BytesEntry, TextEntry, WordEntry, PartEntry;
    DataRequestFound();
    var rows := DATA_REQUEST_ROWS;
    FrameLayout("data-request", rows, b, v);
    if v.Record? && |v.slots| == 3 {
      SizedRow(rows[0], 32, v.slots[0]); WordRow(rows[1], "data-request", v.slots[1]); UintRow(rows[2], v.slots[2]);
      assert RowsFit(rows, v) ==> RowParts(rows, v.slots) == [
        BytesEntry("peer", v.slots[0]), WordEntry("type", "data-request"), UintEntry("from-seq", v.slots[2])
      ];
    }
  }

  /** `data-entries`: a peer, where they start and the entries. */
  lemma DataEntriesFrame(b: Bytes, v: Val)
    ensures DecodeFrame(b) == Ok(Tagged(Ascii("data-entries"), v)) <==>
            && v.Record? && |v.slots| == 4 && v.extra == []
            && SizedIn(32, v.slots[0]) && v.slots[1] == Present(Unit) && PartIn(ListShape(BytesShape), v.slots[2])
            && UintIn(v.slots[3])
            && b == MapBytes([BytesEntry("peer", v.slots[0]), WordEntry("type", "data-entries"),
                              PartEntry("entries", ListShape(BytesShape), v.slots[2]), UintEntry("from-seq", v.slots[3])])
  {
    hide Ascii, FRAME_CASES, DecodeFrame, MapBytes, WF, Enc, SlotFits, RowPart, Table, UintIn, IntIn, BytesIn, SizedIn, TextIn,
         PartIn, UintEntry, IntEntry, BytesEntry, TextEntry, WordEntry, PartEntry;
    DataEntriesFound();
    var rows := DATA_ENTRIES_ROWS;
    FrameLayout("data-entries", rows, b, v);
    if v.Record? && |v.slots| == 4 {
      SizedRow(rows[0], 32, v.slots[0]); WordRow(rows[1], "data-entries", v.slots[1]); PartRow(rows[2], v.slots[2]);
      UintRow(rows[3], v.slots[3]);
      assert RowsFit(rows, v) ==> RowParts(rows, v.slots) == [
        BytesEntry("peer", v.slots[0]), WordEntry("type", "data-entries"),
        PartEntry("entries", ListShape(BytesShape), v.slots[2]), UintEntry("from-seq", v.slots[3])
      ];
    }
  }

  /** `bulk-data`: bytes of a transfer, numbered. */
  lemma BulkDataFrame(b: Bytes, v: Val)
    ensures DecodeFrame(b) == Ok(Tagged(Ascii("bulk-data"), v)) <==>
            && v.Record? && |v.slots| == 4 && v.extra == []
            && UintIn(v.slots[0]) && v.slots[1] == Present(Unit) && BytesIn(v.slots[2]) && SizedIn(16, v.slots[3])
            && b == MapBytes([UintEntry("seq", v.slots[0]), WordEntry("type", "bulk-data"),
                              BytesEntry("bytes", v.slots[2]), BytesEntry("transfer-id", v.slots[3])])
  {
    hide Ascii, FRAME_CASES, DecodeFrame, MapBytes, WF, Enc, SlotFits, RowPart, Table, UintIn, IntIn, BytesIn, SizedIn, TextIn,
         PartIn, UintEntry, IntEntry, BytesEntry, TextEntry, WordEntry, PartEntry;
    BulkDataFound();
    var rows := BULK_DATA_ROWS;
    FrameLayout("bulk-data", rows, b, v);
    if v.Record? && |v.slots| == 4 {
      UintRow(rows[0], v.slots[0]); WordRow(rows[1], "bulk-data", v.slots[1]); BytesRow(rows[2], v.slots[2]);
      SizedRow(rows[3], 16, v.slots[3]);
      assert RowsFit(rows, v) ==> RowParts(rows, v.slots) == [
        UintEntry("seq", v.slots[0]), WordEntry("type", "bulk-data"), BytesEntry("bytes", v.slots[2]),
        BytesEntry("transfer-id", v.slots[3])
      ];
    }
  }

  /** `bulk-ack`: how far, and how much more. */
  lemma BulkAckFrame(b: Bytes, v: Val)
    ensures DecodeFrame(b) == Ok(Tagged(Ascii("bulk-ack"), v)) <==>
            && v.Record? && |v.slots| == 4 && v.extra == []
            && v.slots[0] == Present(Unit) && UintIn(v.slots[1]) && UintIn(v.slots[2]) && SizedIn(16, v.slots[3])
            && b == MapBytes([WordEntry("type", "bulk-ack"), UintEntry("window", v.slots[1]),
                              UintEntry("ack-seq", v.slots[2]), BytesEntry("transfer-id", v.slots[3])])
  {
    hide Ascii, FRAME_CASES, DecodeFrame, MapBytes, WF, Enc, SlotFits, RowPart, Table, UintIn, IntIn, BytesIn, SizedIn, TextIn,
         PartIn, UintEntry, IntEntry, BytesEntry, TextEntry, WordEntry, PartEntry;
    BulkAckFound();
    var rows := BULK_ACK_ROWS;
    FrameLayout("bulk-ack", rows, b, v);
    if v.Record? && |v.slots| == 4 {
      WordRow(rows[0], "bulk-ack", v.slots[0]); UintRow(rows[1], v.slots[1]); UintRow(rows[2], v.slots[2]);
      SizedRow(rows[3], 16, v.slots[3]);
      assert RowsFit(rows, v) ==> RowParts(rows, v.slots) == [
        WordEntry("type", "bulk-ack"), UintEntry("window", v.slots[1]), UintEntry("ack-seq", v.slots[2]),
        BytesEntry("transfer-id", v.slots[3])
      ];
    }
  }

  /** `bulk-end`: a transfer and its digest. */
  lemma BulkEndFrame(b: Bytes, v: Val)
    ensures DecodeFrame(b) == Ok(Tagged(Ascii("bulk-end"), v)) <==>
            && v.Record? && |v.slots| == 3 && v.extra == []
            && v.slots[0] == Present(Unit) && BytesIn(v.slots[1]) && SizedIn(16, v.slots[2])
            && b == MapBytes([WordEntry("type", "bulk-end"), BytesEntry("digest", v.slots[1]),
                              BytesEntry("transfer-id", v.slots[2])])
  {
    hide Ascii, FRAME_CASES, DecodeFrame, MapBytes, WF, Enc, SlotFits, RowPart, Table, UintIn, IntIn, BytesIn, SizedIn, TextIn,
         PartIn, UintEntry, IntEntry, BytesEntry, TextEntry, WordEntry, PartEntry;
    BulkEndFound();
    var rows := BULK_END_ROWS;
    FrameLayout("bulk-end", rows, b, v);
    if v.Record? && |v.slots| == 3 {
      WordRow(rows[0], "bulk-end", v.slots[0]); BytesRow(rows[1], v.slots[1]); SizedRow(rows[2], 16, v.slots[2]);
      assert RowsFit(rows, v) ==> RowParts(rows, v.slots) == [
        WordEntry("type", "bulk-end"), BytesEntry("digest", v.slots[1]), BytesEntry("transfer-id", v.slots[2])
      ];
    }
  }

  /** `secure-hello`: two keys, a nonce, the peer and a signature over them. */
  lemma SecureHelloFrame(b: Bytes, v: Val)
    ensures DecodeFrame(b) == Ok(Tagged(Ascii("secure-hello"), v)) <==>
            && v.Record? && |v.slots| == 6 && v.extra == []
            && v.slots[0] == Present(Unit) && SizedIn(16, v.slots[1]) && BytesIn(v.slots[2])
            && SizedIn(32, v.slots[3]) && PartIn(IDENTITY_KEY, v.slots[4]) && SizedIn(65, v.slots[5])
            && b == MapBytes([WordEntry("type", "secure-hello"), BytesEntry("nonce", v.slots[1]),
                              BytesEntry("signature", v.slots[2]), BytesEntry("to-device", v.slots[3]),
                              PartEntry("identity-key", IDENTITY_KEY, v.slots[4]),
                              BytesEntry("ephemeral-key", v.slots[5])])
  {
    hide Ascii, FRAME_CASES, DecodeFrame, MapBytes, WF, Enc, SlotFits, RowPart, Table, UintIn, IntIn, BytesIn, SizedIn, TextIn,
         PartIn, UintEntry, IntEntry, BytesEntry, TextEntry, WordEntry, PartEntry;
    SecureHelloFound();
    var rows := SECURE_HELLO_ROWS;
    FrameLayout("secure-hello", rows, b, v);
    if v.Record? && |v.slots| == 6 {
      WordRow(rows[0], "secure-hello", v.slots[0]); SizedRow(rows[1], 16, v.slots[1]); BytesRow(rows[2], v.slots[2]);
      SizedRow(rows[3], 32, v.slots[3]); PartRow(rows[4], v.slots[4]); SizedRow(rows[5], 65, v.slots[5]);
      assert RowsFit(rows, v) ==> RowParts(rows, v.slots) == [
        WordEntry("type", "secure-hello"), BytesEntry("nonce", v.slots[1]), BytesEntry("signature", v.slots[2]),
        BytesEntry("to-device", v.slots[3]), PartEntry("identity-key", IDENTITY_KEY, v.slots[4]),
        BytesEntry("ephemeral-key", v.slots[5])
      ];
    }
  }

  /** `secure-data`: a counter and a ciphertext. */
  lemma SecureDataFrame(b: Bytes, v: Val)
    ensures DecodeFrame(b) == Ok(Tagged(Ascii("secure-data"), v)) <==>
            && v.Record? && |v.slots| == 3 && v.extra == []
            && v.slots[0] == Present(Unit) && UintIn(v.slots[1]) && BytesIn(v.slots[2])
            && b == MapBytes([WordEntry("type", "secure-data"), UintEntry("counter", v.slots[1]),
                              BytesEntry("ciphertext", v.slots[2])])
  {
    hide Ascii, FRAME_CASES, DecodeFrame, MapBytes, WF, Enc, SlotFits, RowPart, Table, UintIn, IntIn, BytesIn, SizedIn, TextIn,
         PartIn, UintEntry, IntEntry, BytesEntry, TextEntry, WordEntry, PartEntry;
    SecureDataFound();
    var rows := SECURE_DATA_ROWS;
    FrameLayout("secure-data", rows, b, v);
    if v.Record? && |v.slots| == 3 {
      WordRow(rows[0], "secure-data", v.slots[0]); UintRow(rows[1], v.slots[1]); BytesRow(rows[2], v.slots[2]);
      assert RowsFit(rows, v) ==> RowParts(rows, v.slots) == [
        WordEntry("type", "secure-data"), UintEntry("counter", v.slots[1]), BytesEntry("ciphertext", v.slots[2])
      ];
    }
  }
}
