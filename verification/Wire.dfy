/**
  The schema of wire-mesh-wire as tables: every frame, every command parameter
  map and the structures inside them, keys in the order the encoders write
  them.  All but two are in key order: `pty.kill` and `proc.signal` write
  `session` before `signal`.
 */
module Wire {
  import opened Cbor
  import opened CdeOrder
  import opened Value
  import opened Schema
  import opened SchemaItems
  import opened SchemaForms
  import opened SchemaSound
  import opened Tables

  function Req(name: Name, shape: Shape): Row {
    Row(name, shape, Required)
  }

  function May(name: Name, shape: Shape): Row {
    Row(name, shape, Optional)
  }

  /** Frame decoders check `type` if present; the first pass asked for it. */
  function TypeIs(tag: Name): Row {
    Row("type", LiteralShape(Ascii(tag)), Implied)
  }

  function VerbIs(tag: Name): Row {
    Row("verb", LiteralShape(Ascii(tag)), Required)
  }

  // --- shared structures -----------------------------------------------------------------

  const DEVICE_ID: Shape := SizedShape(32)
  const ANY_MAP: Shape := StructShape([], Open(AnyShape), false)
  const TEXT_MAP: Shape := StructShape([], Open(TextShape), false)
  const CANDIDATE_KIND: Shape := EnumShape([Ascii("host"), Ascii("server-reflexive"), Ascii("relayed")])

  const IDENTITY_KEY_ROWS: seq<Row> := [Req("alg", IntShape), Req("public-key", BytesShape)]
  const IDENTITY_KEY: Shape := Table(IDENTITY_KEY_ROWS)
  const SCOPE_ROWS: seq<Row> := [Req("kind", TextShape), May("path", TextShape)]
  const SCOPE: Shape := Table(SCOPE_ROWS)
  const WIRE_CANDIDATE_ROWS: seq<Row> := [
    Req("kind", CANDIDATE_KIND),
    Req("address", TextShape),
    Req("priority", UintShape)
  ]
  const WIRE_CANDIDATE: Shape := Table(WIRE_CANDIDATE_ROWS)
  const ICE_CANDIDATE_ROWS: seq<Row> := [
    May("sdp-mid", TextShape),
    Req("candidate", TextShape),
    May("sdp-m-line-index", UintShape),
    May("username-fragment", TextShape)
  ]
  const ICE_CANDIDATE: Shape := Table(ICE_CANDIDATE_ROWS)
  const SUBJECT_ROWS: seq<Row> := [Req("kind", TextShape), Req("payload", BytesShape), Req("protected", BytesShape)]
  const SUBJECT: Shape := Table(SUBJECT_ROWS)
  const COMMITMENT_ROWS: seq<Row> := [
    Req("hiding", BytesShape),
    Req("binding", BytesShape),
    Req("participant", DEVICE_ID)
  ]
  const COMMITMENT: Shape := Table(COMMITMENT_ROWS)

  /** COSE headers: integer labels 1 (algorithm) and 4 (key id), and an open tail of either label kind. */
  const HEADERS: Shape := StructShape([
    Field(IntLabel(1), IntShape, Optional),
    Field(IntLabel(4), BytesShape, Optional)
  ], Open(AnyShape), true)
  const COSE_SIGN1: Shape := TupleShape([BytesShape, HEADERS, NullableBytesShape, BytesShape])

  // The sorting builder orders these; they are listed in key order here.

  const PEER_ADVERT_ROWS: seq<Row> := [
    Req("device", DEVICE_ID),
    Req("addresses", ListShape(TextShape)),
    Req("signature", BytesShape),
    Req("identity-key", IDENTITY_KEY),
    Req("snapshot-seconds", IntShape)
  ]
  const PEER_ADVERT: Shape := OpenTable(PEER_ADVERT_ROWS)

  const TOKEN_CLAIMS_ROWS: seq<Row> := [
    Req("scope", SCOPE),
    Req("bearer", DEVICE_ID),
    Req("issuer", DEVICE_ID),
    May("parent", BytesShape),
    Req("expires", UintShape),
    Req("token-id", BytesShape),
    Req("capability", TextShape),
    May("conditions", BytesShape),
    Req("issuer-key", IDENTITY_KEY),
    May("not-before", UintShape),
    May("valid-until", UintShape),
    May("authorised-by", BytesShape),
    May("grants-capability", TextShape),
    May("requests-capability", TextShape),
    May("delegations-remaining", UintShape)
  ]
  const TOKEN_CLAIMS: Shape := OpenTable(TOKEN_CLAIMS_ROWS)

  // --- command parameters --------------------------------------------------------------------

  const PTY_KILL_ROWS: seq<Row> := [VerbIs("pty.kill"), Req("session", UintShape), Req("signal", IntShape)]
  const PTY_KILL: Case := Case(Ascii("pty.kill"), Table(PTY_KILL_ROWS))
  const PROC_SIGNAL_ROWS: seq<Row> := [VerbIs("proc.signal"), Req("session", UintShape), Req("signal", IntShape)]
  const PROC_SIGNAL: Case := Case(Ascii("proc.signal"), Table(PROC_SIGNAL_ROWS))
  const PTY_SPAWN_ROWS: seq<Row> := [
    May("cwd", TextShape),
    Req("env", TEXT_MAP),
    Req("argv", ListShape(TextShape)),
    Req("cols", UintShape),
    Req("rows", UintShape),
    VerbIs("pty.spawn"),
    May("shell", TextShape)
  ]
  const PTY_SPAWN: Case := Case(Ascii("pty.spawn"), Table(PTY_SPAWN_ROWS))
  const PTY_WRITE_ROWS: seq<Row> := [VerbIs("pty.write"), Req("bytes", BytesShape), Req("session", UintShape)]
  const PTY_WRITE: Case := Case(Ascii("pty.write"), Table(PTY_WRITE_ROWS))
  const PTY_RESIZE_ROWS: seq<Row> := [
    Req("cols", UintShape),
    Req("rows", UintShape),
    VerbIs("pty.resize"),
    Req("session", UintShape)
  ]
  const PTY_RESIZE: Case := Case(Ascii("pty.resize"), Table(PTY_RESIZE_ROWS))
  const PROC_SPAWN_ROWS: seq<Row> := [
    May("cwd", TextShape),
    Req("env", TEXT_MAP),
    Req("argv", ListShape(TextShape)),
    VerbIs("proc.spawn")
  ]
  const PROC_SPAWN: Case := Case(Ascii("proc.spawn"), Table(PROC_SPAWN_ROWS))
  const PROC_KILL_ROWS: seq<Row> := [VerbIs("proc.kill"), Req("session", UintShape)]
  const PROC_KILL: Case := Case(Ascii("proc.kill"), Table(PROC_KILL_ROWS))
  const EXEC_LIST_ROWS: seq<Row> := [VerbIs("exec.list")]
  const EXEC_LIST: Case := Case(Ascii("exec.list"), Table(EXEC_LIST_ROWS))
  const WEBRTC_OFFER_ROWS: seq<Row> := [
    Req("sdp", TextShape),
    VerbIs("webrtc.offer"),
    Req("negotiation-id", UintShape)
  ]
  const WEBRTC_OFFER: Case := Case(Ascii("webrtc.offer"), Table(WEBRTC_OFFER_ROWS))
  const WEBRTC_ANSWER_ROWS: seq<Row> := [
    Req("sdp", TextShape),
    VerbIs("webrtc.answer"),
    Req("negotiation-id", UintShape)
  ]
  const WEBRTC_ANSWER: Case := Case(Ascii("webrtc.answer"), Table(WEBRTC_ANSWER_ROWS))
  const WEBRTC_ICE_CANDIDATE_ROWS: seq<Row> := [
    VerbIs("webrtc.ice-candidate"),
    May("candidate", ICE_CANDIDATE),
    Req("negotiation-id", UintShape)
  ]
  const WEBRTC_ICE_CANDIDATE: Case := Case(Ascii("webrtc.ice-candidate"), Table(WEBRTC_ICE_CANDIDATE_ROWS))
  const THRESHOLD_COMMIT_ROWS: seq<Row> := [
    VerbIs("threshold.commit"),
    Req("group", DEVICE_ID),
    Req("subject", SUBJECT),
    Req("deadline", UintShape),
    Req("session-id", UintShape)
  ]
  const THRESHOLD_COMMIT: Case := Case(Ascii("threshold.commit"), Table(THRESHOLD_COMMIT_ROWS))
  const THRESHOLD_SIGN_ROWS: seq<Row> := [
    VerbIs("threshold.sign"),
    Req("session-id", UintShape),
    Req("commitments", ListShape(COMMITMENT))
  ]
  const THRESHOLD_SIGN: Case := Case(Ascii("threshold.sign"), Table(THRESHOLD_SIGN_ROWS))
  const THRESHOLD_ABORT_ROWS: seq<Row> := [
    VerbIs("threshold.abort"),
    May("reason", TextShape),
    Req("session-id", UintShape)
  ]
  const THRESHOLD_ABORT: Case := Case(Ascii("threshold.abort"), Table(THRESHOLD_ABORT_ROWS))
  const THRESHOLD_KEYGEN_ROUND1_ROWS: seq<Row> := [
    VerbIs("threshold.keygen-round1"),
    Req("threshold", UintShape),
    Req("commitment", ListShape(BytesShape)),
    Req("session-id", UintShape),
    Req("participants", ListShape(DEVICE_ID)),
    May("existing-group-key", BytesShape),
    May("proof-of-knowledge", BytesShape)
  ]
  const THRESHOLD_KEYGEN_ROUND1: Case := Case(Ascii("threshold.keygen-round1"), Table(THRESHOLD_KEYGEN_ROUND1_ROWS))
  const THRESHOLD_KEYGEN_ROUND2_ROWS: seq<Row> := [
    VerbIs("threshold.keygen-round2"),
    Req("share", BytesShape),
    Req("session-id", UintShape)
  ]
  const THRESHOLD_KEYGEN_ROUND2: Case := Case(Ascii("threshold.keygen-round2"), Table(THRESHOLD_KEYGEN_ROUND2_ROWS))
  const THRESHOLD_KEYGEN_CONFIRM_ROWS: seq<Row> := [
    VerbIs("threshold.keygen-confirm"),
    Req("group-key", BytesShape),
    Req("session-id", UintShape),
    Req("transcript-digest", BytesShape)
  ]
  const THRESHOLD_KEYGEN_CONFIRM: Case := Case(Ascii("threshold.keygen-confirm"), Table(THRESHOLD_KEYGEN_CONFIRM_ROWS))

  const EXEC_PARAMS: seq<Case> := [
    PTY_KILL,
    PROC_SIGNAL,
    PTY_SPAWN,
    PTY_WRITE,
    PTY_RESIZE,
    PROC_SPAWN,
    PROC_KILL,
    EXEC_LIST
  ]
  const WEBRTC_PARAMS: seq<Case> := [
    WEBRTC_OFFER,
    WEBRTC_ANSWER,
    WEBRTC_ICE_CANDIDATE
  ]
  const THRESHOLD_PARAMS: seq<Case> := [
    THRESHOLD_COMMIT,
    THRESHOLD_SIGN,
    THRESHOLD_ABORT,
    THRESHOLD_KEYGEN_ROUND1,
    THRESHOLD_KEYGEN_ROUND2,
    THRESHOLD_KEYGEN_CONFIRM
  ]
  const PARAM_CASES: seq<Case> := EXEC_PARAMS + WEBRTC_PARAMS + THRESHOLD_PARAMS
  const PARAMS: Shape := UnionShape(Ascii("verb"), PARAM_CASES, true)

  const COMMAND_ROWS: seq<Row> := [Req("verb", TextShape), Req("params", PARAMS)]
  const COMMAND: Shape := Table(COMMAND_ROWS)

  // --- frames ------------------------------------------------------------------------------------

  const MANAGE_REQUEST_ROWS: seq<Row> := [
    TypeIs("manage-request"),
    Req("scope", SCOPE),
    May("token", COSE_SIGN1),
    Req("command", COMMAND),
    Req("request-id", UintShape)
  ]
  const MANAGE_REQUEST: Case := Case(Ascii("manage-request"), Table(MANAGE_REQUEST_ROWS))
  const HANDSHAKE_ROWS: seq<Row> := [
    TypeIs("handshake"),
    May("params", ANY_MAP),
    Req("domains", ListShape(TextShape)),
    Req("version", UintShape)
  ]
  const HANDSHAKE: Case := Case(Ascii("handshake"), Table(HANDSHAKE_ROWS))
  const PING_ROWS: seq<Row> := [TypeIs("ping")]
  const PING: Case := Case(Ascii("ping"), Table(PING_ROWS))
  const PONG_ROWS: seq<Row> := [TypeIs("pong")]
  const PONG: Case := Case(Ascii("pong"), Table(PONG_ROWS))
  const CLOSE_ROWS: seq<Row> := [TypeIs("close"), May("reason", TextShape)]
  const CLOSE: Case := Case(Ascii("close"), Table(CLOSE_ROWS))
  const GOSSIP_ROWS: seq<Row> := [TypeIs("gossip"), Req("peers", ListShape(PEER_ADVERT))]
  const GOSSIP: Case := Case(Ascii("gossip"), Table(GOSSIP_ROWS))
  const CANDIDATES_ROWS: seq<Row> := [TypeIs("candidates"), Req("candidates", ListShape(WIRE_CANDIDATE))]
  const CANDIDATES: Case := Case(Ascii("candidates"), Table(CANDIDATES_ROWS))
  const SYNC_PUNCH_ROWS: seq<Row> := [
    TypeIs("sync-punch"),
    Req("nonce", UintShape),
    Req("deadline-unix-ms", UintShape)
  ]
  const SYNC_PUNCH: Case := Case(Ascii("sync-punch"), Table(SYNC_PUNCH_ROWS))
  const OBSERVED_ADDRESS_ROWS: seq<Row> := [TypeIs("observed-address"), Req("address", TextShape)]
  const OBSERVED_ADDRESS: Case := Case(Ascii("observed-address"), Table(OBSERVED_ADDRESS_ROWS))
  const RELAY_OFFER_ROWS: seq<Row> := [TypeIs("relay-offer"), Req("addresses", ListShape(TextShape))]
  const RELAY_OFFER: Case := Case(Ascii("relay-offer"), Table(RELAY_OFFER_ROWS))
  const RELAY_CONNECT_ROWS: seq<Row> := [
    TypeIs("relay-connect"),
    May("source-device", DEVICE_ID),
    Req("target-device", DEVICE_ID)
  ]
  const RELAY_CONNECT: Case := Case(Ascii("relay-connect"), Table(RELAY_CONNECT_ROWS))
  const RELAY_DATA_ROWS: seq<Row> := [
    TypeIs("relay-data"),
    Req("payload", BytesShape),
    May("to-device", DEVICE_ID),
    May("from-device", DEVICE_ID)
  ]
  const RELAY_DATA: Case := Case(Ascii("relay-data"), Table(RELAY_DATA_ROWS))
  const RELAY_INBOUND_ROWS: seq<Row> := [
    TypeIs("relay-inbound"),
    Req("source-device", DEVICE_ID),
    May("target-device", DEVICE_ID)
  ]
  const RELAY_INBOUND: Case := Case(Ascii("relay-inbound"), Table(RELAY_INBOUND_ROWS))
  const COORDINATOR_ROWS: seq<Row> := [
    Req("term", UintShape),
    TypeIs("coordinator"),
    Req("coordinator", DEVICE_ID),
    May("capacity-hint", UintShape)
  ]
  const COORDINATOR: Case := Case(Ascii("coordinator"), Table(COORDINATOR_ROWS))
  const MANAGE_RESPONSE_ROWS: seq<Row> := [
    TypeIs("manage-response"),
    Req("outcome", OutcomeShape(OUTCOME)),
    Req("request-id", UintShape)
  ]
  const MANAGE_RESPONSE: Case := Case(Ascii("manage-response"), Table(MANAGE_RESPONSE_ROWS))
  const REVOCATION_ANNOUNCE_ROWS: seq<Row> := [TypeIs("revocation-announce"), Req("entries", ListShape(COSE_SIGN1))]
  const REVOCATION_ANNOUNCE: Case := Case(Ascii("revocation-announce"), Table(REVOCATION_ANNOUNCE_ROWS))
  const STREAM_DATA_ROWS: seq<Row> := [
    Req("seq", UintShape),
    TypeIs("stream-data"),
    Req("bytes", BytesShape),
    Req("channel", TextShape),
    Req("session", UintShape)
  ]
  const STREAM_DATA: Case := Case(Ascii("stream-data"), Table(STREAM_DATA_ROWS))
  const STREAM_ACK_ROWS: seq<Row> := [
    TypeIs("stream-ack"),
    Req("window", UintShape),
    Req("ack-seq", UintShape),
    Req("session", UintShape)
  ]
  const STREAM_ACK: Case := Case(Ascii("stream-ack"), Table(STREAM_ACK_ROWS))
  const STREAM_END_ROWS: seq<Row> := [
    TypeIs("stream-end"),
    Req("session", UintShape),
    May("exit-code", IntShape),
    May("exit-signal", IntShape)
  ]
  const STREAM_END: Case := Case(Ascii("stream-end"), Table(STREAM_END_ROWS))
  const DATA_HAVE_ROWS: seq<Row> := [Req("peer", DEVICE_ID), TypeIs("data-have"), Req("head-seq", UintShape)]
  const DATA_HAVE: Case := Case(Ascii("data-have"), Table(DATA_HAVE_ROWS))
  const DATA_REQUEST_ROWS: seq<Row> := [Req("peer", DEVICE_ID), TypeIs("data-request"), Req("from-seq", UintShape)]
  const DATA_REQUEST: Case := Case(Ascii("data-request"), Table(DATA_REQUEST_ROWS))
  const DATA_ENTRIES_ROWS: seq<Row> := [
    Req("peer", DEVICE_ID),
    TypeIs("data-entries"),
    Req("entries", ListShape(BytesShape)),
    Req("from-seq", UintShape)
  ]
  const DATA_ENTRIES: Case := Case(Ascii("data-entries"), Table(DATA_ENTRIES_ROWS))
  const BULK_DATA_ROWS: seq<Row> := [
    Req("seq", UintShape),
    TypeIs("bulk-data"),
    Req("bytes", BytesShape),
    Req("transfer-id", SizedShape(16))
  ]
  const BULK_DATA: Case := Case(Ascii("bulk-data"), Table(BULK_DATA_ROWS))
  const BULK_ACK_ROWS: seq<Row> := [
    TypeIs("bulk-ack"),
    Req("window", UintShape),
    Req("ack-seq", UintShape),
    Req("transfer-id", SizedShape(16))
  ]
  const BULK_ACK: Case := Case(Ascii("bulk-ack"), Table(BULK_ACK_ROWS))
  const BULK_END_ROWS: seq<Row> := [TypeIs("bulk-end"), Req("digest", BytesShape), Req("transfer-id", SizedShape(16))]
  const BULK_END: Case := Case(Ascii("bulk-end"), Table(BULK_END_ROWS))
  const SECURE_HELLO_ROWS: seq<Row> := [
    TypeIs("secure-hello"),
    Req("nonce", SizedShape(16)),
    Req("signature", BytesShape),
    Req("to-device", DEVICE_ID),
    Req("identity-key", IDENTITY_KEY),
    Req("ephemeral-key", SizedShape(65))
  ]
  const SECURE_HELLO: Case := Case(Ascii("secure-hello"), Table(SECURE_HELLO_ROWS))
  const SECURE_DATA_ROWS: seq<Row> := [
    TypeIs("secure-data"),
    Req("counter", UintShape),
    Req("ciphertext", BytesShape)
  ]
  const SECURE_DATA: Case := Case(Ascii("secure-data"), Table(SECURE_DATA_ROWS))

  const LINK_FRAMES: seq<Case> := [
    MANAGE_REQUEST,
    HANDSHAKE,
    PING,
    PONG,
    CLOSE,
    GOSSIP,
    CANDIDATES,
    SYNC_PUNCH,
    OBSERVED_ADDRESS
  ]
  const MESH_FRAMES: seq<Case> := [
    RELAY_OFFER,
    RELAY_CONNECT,
    RELAY_DATA,
    RELAY_INBOUND,
    COORDINATOR,
    MANAGE_RESPONSE,
    REVOCATION_ANNOUNCE,
    STREAM_DATA,
    STREAM_ACK
  ]
  const DATA_FRAMES: seq<Case> := [
    STREAM_END,
    DATA_HAVE,
    DATA_REQUEST,
    DATA_ENTRIES,
    BULK_DATA,
    BULK_ACK,
    BULK_END,
    SECURE_HELLO,
    SECURE_DATA
  ]
  const FRAME_CASES: seq<Case> := LINK_FRAMES + MESH_FRAMES + DATA_FRAMES
  const FRAME: Shape := UnionShape(Ascii("type"), FRAME_CASES, false)

  // --- the tables are well formed, and all but two in order --------------------------------------------

  predicate SoundCase(disc: Name, c: Case) {
    GoodCase(Ascii(disc), c) && Sorted(c.shape)
  }

  lemma IdentityKeySound()
    ensures Sound(IDENTITY_KEY)
  {
    TableSound(IDENTITY_KEY_ROWS);
  }

  lemma ScopeSound()
    ensures Sound(SCOPE)
  {
    TableSound(SCOPE_ROWS);
  }

  lemma WireCandidateSound()
    ensures Sound(WIRE_CANDIDATE)
  {
    TableSound(WIRE_CANDIDATE_ROWS);
  }

  lemma IceCandidateSound()
    ensures Sound(ICE_CANDIDATE)
  {
    TableSound(ICE_CANDIDATE_ROWS);
  }

  lemma SubjectSound()
    ensures Sound(SUBJECT)
  {
    TableSound(SUBJECT_ROWS);
  }

  lemma CommitmentSound()
    ensures Sound(COMMITMENT)
  {
    TableSound(COMMITMENT_ROWS);
  }

  lemma AnyMapSound()
    ensures Sound(ANY_MAP) && Sound(TEXT_MAP)
  {
  }

  lemma TextMapSound()
    ensures Sound(TEXT_MAP)
  {
    AnyMapSound();
  }

  lemma HeadersSound()
    ensures Sound(HEADERS)
  {
  }

  lemma CoseSign1Sound()
    ensures Sound(COSE_SIGN1)
  {
    HeadersSound();
  }

  lemma PeerAdvertSound()
    ensures Sound(PEER_ADVERT)
  {
    IdentityKeySound();
    OpenTableSound(PEER_ADVERT_ROWS);
  }

  lemma TokenClaimsSound()
    ensures Sound(TOKEN_CLAIMS)
  {
    hide Sound, Ascii, Table, OpenTable, SCOPE, IDENTITY_KEY;
    IdentityKeySound();
    ScopeSound();
    LeavesSound();
    OpenTableSound(TOKEN_CLAIMS_ROWS);
  }

  lemma LeavesSound()
    ensures Sound(UintShape) && Sound(BytesShape) && Sound(TextShape) && Sound(DEVICE_ID)
  {
  }

  lemma PtySpawnSound()
    ensures SoundCase("verb", PTY_SPAWN)
  {
    TextMapSound();
    CaseSorted("verb", "pty.spawn", PTY_SPAWN_ROWS, 5);
  }

  lemma PtyWriteSound()
    ensures SoundCase("verb", PTY_WRITE)
  {
    CaseSorted("verb", "pty.write", PTY_WRITE_ROWS, 0);
  }

  lemma PtyResizeSound()
    ensures SoundCase("verb", PTY_RESIZE)
  {
    CaseSorted("verb", "pty.resize", PTY_RESIZE_ROWS, 2);
  }

  lemma ProcSpawnSound()
    ensures SoundCase("verb", PROC_SPAWN)
  {
    TextMapSound();
    CaseSorted("verb", "proc.spawn", PROC_SPAWN_ROWS, 3);
  }

  lemma ProcKillSound()
    ensures SoundCase("verb", PROC_KILL)
  {
    CaseSorted("verb", "proc.kill", PROC_KILL_ROWS, 0);
  }

  lemma ExecListSound()
    ensures SoundCase("verb", EXEC_LIST)
  {
    CaseSorted("verb", "exec.list", EXEC_LIST_ROWS, 0);
  }

  lemma WebrtcOfferSound()
    ensures SoundCase("verb", WEBRTC_OFFER)
  {
    CaseSorted("verb", "webrtc.offer", WEBRTC_OFFER_ROWS, 1);
  }

  lemma WebrtcAnswerSound()
    ensures SoundCase("verb", WEBRTC_ANSWER)
  {
    CaseSorted("verb", "webrtc.answer", WEBRTC_ANSWER_ROWS, 1);
  }

  lemma WebrtcIceCandidateSound()
    ensures SoundCase("verb", WEBRTC_ICE_CANDIDATE)
  {
    IceCandidateSound();
    CaseSorted("verb", "webrtc.ice-candidate", WEBRTC_ICE_CANDIDATE_ROWS, 0);
  }

  lemma ThresholdCommitSound()
    ensures SoundCase("verb", THRESHOLD_COMMIT)
  {
    SubjectSound();
    CaseSorted("verb", "threshold.commit", THRESHOLD_COMMIT_ROWS, 0);
  }

  lemma ThresholdSignSound()
    ensures SoundCase("verb", THRESHOLD_SIGN)
  {
    CommitmentSound();
    CaseSorted("verb", "threshold.sign", THRESHOLD_SIGN_ROWS, 0);
  }

  lemma ThresholdAbortSound()
    ensures SoundCase("verb", THRESHOLD_ABORT)
  {
    CaseSorted("verb", "threshold.abort", THRESHOLD_ABORT_ROWS, 0);
  }

  lemma ThresholdKeygenRound1Sound()
    ensures SoundCase("verb", THRESHOLD_KEYGEN_ROUND1)
  {
    CaseSorted("verb", "threshold.keygen-round1", THRESHOLD_KEYGEN_ROUND1_ROWS, 0);
  }

  lemma ThresholdKeygenRound2Sound()
    ensures SoundCase("verb", THRESHOLD_KEYGEN_ROUND2)
  {
    CaseSorted("verb", "threshold.keygen-round2", THRESHOLD_KEYGEN_ROUND2_ROWS, 0);
  }

  lemma ThresholdKeygenConfirmSound()
    ensures SoundCase("verb", THRESHOLD_KEYGEN_CONFIRM)
  {
    CaseSorted("verb", "threshold.keygen-confirm", THRESHOLD_KEYGEN_CONFIRM_ROWS, 0);
  }

  lemma HandshakeSound()
    ensures SoundCase("type", HANDSHAKE)
  {
    AnyMapSound();
    CaseSorted("type", "handshake", HANDSHAKE_ROWS, 0);
  }

  lemma PingSound()
    ensures SoundCase("type", PING)
  {
    CaseSorted("type", "ping", PING_ROWS, 0);
  }

  lemma PongSound()
    ensures SoundCase("type", PONG)
  {
    CaseSorted("type", "pong", PONG_ROWS, 0);
  }

  lemma CloseSound()
    ensures SoundCase("type", CLOSE)
  {
    CaseSorted("type", "close", CLOSE_ROWS, 0);
  }

  lemma GossipSound()
    ensures SoundCase("type", GOSSIP)
  {
    PeerAdvertSound();
    CaseSorted("type", "gossip", GOSSIP_ROWS, 0);
  }

  lemma CandidatesSound()
    ensures SoundCase("type", CANDIDATES)
  {
    WireCandidateSound();
    CaseSorted("type", "candidates", CANDIDATES_ROWS, 0);
  }

  lemma SyncPunchSound()
    ensures SoundCase("type", SYNC_PUNCH)
  {
    CaseSorted("type", "sync-punch", SYNC_PUNCH_ROWS, 0);
  }

  lemma ObservedAddressSound()
    ensures SoundCase("type", OBSERVED_ADDRESS)
  {
    CaseSorted("type", "observed-address", OBSERVED_ADDRESS_ROWS, 0);
  }

  lemma RelayOfferSound()
    ensures SoundCase("type", RELAY_OFFER)
  {
    CaseSorted("type", "relay-offer", RELAY_OFFER_ROWS, 0);
  }

  lemma RelayConnectSound()
    ensures SoundCase("type", RELAY_CONNECT)
  {
    CaseSorted("type", "relay-connect", RELAY_CONNECT_ROWS, 0);
  }

  lemma RelayDataSound()
    ensures SoundCase("type", RELAY_DATA)
  {
    CaseSorted("type", "relay-data", RELAY_DATA_ROWS, 0);
  }

  lemma RelayInboundSound()
    ensures SoundCase("type", RELAY_INBOUND)
  {
    CaseSorted("type", "relay-inbound", RELAY_INBOUND_ROWS, 0);
  }

  lemma CoordinatorSound()
    ensures SoundCase("type", COORDINATOR)
  {
    CaseSorted("type", "coordinator", COORDINATOR_ROWS, 1);
  }

  lemma ManageResponseSound()
    ensures SoundCase("type", MANAGE_RESPONSE)
  {
    CaseSorted("type", "manage-response", MANAGE_RESPONSE_ROWS, 0);
  }

  lemma RevocationAnnounceSound()
    ensures SoundCase("type", REVOCATION_ANNOUNCE)
  {
    CoseSign1Sound();
    CaseSorted("type", "revocation-announce", REVOCATION_ANNOUNCE_ROWS, 0);
  }

  lemma StreamDataSound()
    ensures SoundCase("type", STREAM_DATA)
  {
    CaseSorted("type", "stream-data", STREAM_DATA_ROWS, 1);
  }

  lemma StreamAckSound()
    ensures SoundCase("type", STREAM_ACK)
  {
    CaseSorted("type", "stream-ack", STREAM_ACK_ROWS, 0);
  }

  lemma StreamEndSound()
    ensures SoundCase("type", STREAM_END)
  {
    CaseSorted("type", "stream-end", STREAM_END_ROWS, 0);
  }

  lemma DataHaveSound()
    ensures SoundCase("type", DATA_HAVE)
  {
    CaseSorted("type", "data-have", DATA_HAVE_ROWS, 1);
  }

  lemma DataRequestSound()
    ensures SoundCase("type", DATA_REQUEST)
  {
    CaseSorted("type", "data-request", DATA_REQUEST_ROWS, 1);
  }

  lemma DataEntriesSound()
    ensures SoundCase("type", DATA_ENTRIES)
  {
    CaseSorted("type", "data-entries", DATA_ENTRIES_ROWS, 1);
  }

  lemma BulkDataSound()
    ensures SoundCase("type", BULK_DATA)
  {
    CaseSorted("type", "bulk-data", BULK_DATA_ROWS, 1);
  }

  lemma BulkAckSound()
    ensures SoundCase("type", BULK_ACK)
  {
    CaseSorted("type", "bulk-ack", BULK_ACK_ROWS, 0);
  }

  lemma BulkEndSound()
    ensures SoundCase("type", BULK_END)
  {
    CaseSorted("type", "bulk-end", BULK_END_ROWS, 0);
  }

  lemma SecureHelloSound()
    ensures SoundCase("type", SECURE_HELLO)
  {
    IdentityKeySound();
    CaseSorted("type", "secure-hello", SECURE_HELLO_ROWS, 0);
  }

  lemma SecureDataSound()
    ensures SoundCase("type", SECURE_DATA)
  {
    CaseSorted("type", "secure-data", SECURE_DATA_ROWS, 0);
  }

}
