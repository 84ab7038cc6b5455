/**
  The parameters of every command, field by field, in the same way.
 */
module ParamLayouts {
  import opened Common
  import opened Cbor
  import opened Schema
  import opened SchemaForms
  import opened Tables
  import opened Wire
  import opened Frames
  import opened Encoding
  import opened Layouts

  // --- every tag selects its own table ------------------------------------------------------

  lemma ExecParams()
    ensures |EXEC_PARAMS| == 8
    ensures EXEC_PARAMS[0] == PTY_KILL && EXEC_PARAMS[1] == PROC_SIGNAL && EXEC_PARAMS[2] == PTY_SPAWN
    ensures EXEC_PARAMS[3] == PTY_WRITE && EXEC_PARAMS[4] == PTY_RESIZE && EXEC_PARAMS[5] == PROC_SPAWN
    ensures EXEC_PARAMS[6] == PROC_KILL && EXEC_PARAMS[7] == EXEC_LIST
  {
    hide Ascii, Table, PTY_KILL, PROC_SIGNAL, PTY_SPAWN, PTY_WRITE, PTY_RESIZE, PROC_SPAWN, PROC_KILL, EXEC_LIST;
  }

  lemma WebrtcParams()
    ensures |WEBRTC_PARAMS| == 3
    ensures WEBRTC_PARAMS[0] == WEBRTC_OFFER && WEBRTC_PARAMS[1] == WEBRTC_ANSWER && WEBRTC_PARAMS[2] == WEBRTC_ICE_CANDIDATE
  {
    hide Ascii, Table, WEBRTC_OFFER, WEBRTC_ANSWER, WEBRTC_ICE_CANDIDATE;
  }

  lemma ThresholdParams()
    ensures |THRESHOLD_PARAMS| == 6
    ensures THRESHOLD_PARAMS[0] == THRESHOLD_COMMIT && THRESHOLD_PARAMS[1] == THRESHOLD_SIGN && THRESHOLD_PARAMS[2] == THRESHOLD_ABORT
    ensures THRESHOLD_PARAMS[3] == THRESHOLD_KEYGEN_ROUND1 && THRESHOLD_PARAMS[4] == THRESHOLD_KEYGEN_ROUND2 && THRESHOLD_PARAMS[5] == THRESHOLD_KEYGEN_CONFIRM
  {
    hide Ascii, Table, THRESHOLD_COMMIT, THRESHOLD_SIGN, THRESHOLD_ABORT, THRESHOLD_KEYGEN_ROUND1,
         THRESHOLD_KEYGEN_ROUND2, THRESHOLD_KEYGEN_CONFIRM;
  }

  lemma ParamsJoined()
    ensures |PARAM_CASES| == 17
    ensures forall i :: 0 <= i < 8 ==> i < |EXEC_PARAMS| && PARAM_CASES[i] == EXEC_PARAMS[i]
    ensures forall i :: 0 <= i < 3 ==> i < |WEBRTC_PARAMS| && PARAM_CASES[i + 8] == WEBRTC_PARAMS[i]
    ensures forall i :: 0 <= i < 6 ==> i < |THRESHOLD_PARAMS| && PARAM_CASES[i + 11] == THRESHOLD_PARAMS[i]
  {
    hide Ascii, Table, EXEC_PARAMS, WEBRTC_PARAMS, THRESHOLD_PARAMS;
    ExecParams();
    WebrtcParams();
    ThresholdParams();
  }

  lemma PtyKillCase()
    ensures PTY_KILL.tag == Ascii("pty.kill") && PTY_KILL.shape == Table(PTY_KILL_ROWS)
  {
    hide Ascii, Table, PTY_KILL_ROWS;
  }

  lemma ProcSignalCase()
    ensures PROC_SIGNAL.tag == Ascii("proc.signal") && PROC_SIGNAL.shape == Table(PROC_SIGNAL_ROWS)
  {
    hide Ascii, Table, PROC_SIGNAL_ROWS;
  }

  lemma PtySpawnCase()
    ensures PTY_SPAWN.tag == Ascii("pty.spawn") && PTY_SPAWN.shape == Table(PTY_SPAWN_ROWS)
  {
    hide Ascii, Table, PTY_SPAWN_ROWS;
  }

  lemma PtyWriteCase()
    ensures PTY_WRITE.tag == Ascii("pty.write") && PTY_WRITE.shape == Table(PTY_WRITE_ROWS)
  {
    hide Ascii, Table, PTY_WRITE_ROWS;
  }

  lemma PtyResizeCase()
    ensures PTY_RESIZE.tag == Ascii("pty.resize") && PTY_RESIZE.shape == Table(PTY_RESIZE_ROWS)
  {
    hide Ascii, Table, PTY_RESIZE_ROWS;
  }

  lemma ProcSpawnCase()
    ensures PROC_SPAWN.tag == Ascii("proc.spawn") && PROC_SPAWN.shape == Table(PROC_SPAWN_ROWS)
  {
    hide Ascii, Table, PROC_SPAWN_ROWS;
  }

  lemma ProcKillCase()
    ensures PROC_KILL.tag == Ascii("proc.kill") && PROC_KILL.shape == Table(PROC_KILL_ROWS)
  {
    hide Ascii, Table, PROC_KILL_ROWS;
  }

  lemma ExecListCase()
    ensures EXEC_LIST.tag == Ascii("exec.list") && EXEC_LIST.shape == Table(EXEC_LIST_ROWS)
  {
    hide Ascii, Table, EXEC_LIST_ROWS;
  }

  lemma WebrtcOfferCase()
    ensures WEBRTC_OFFER.tag == Ascii("webrtc.offer") && WEBRTC_OFFER.shape == Table(WEBRTC_OFFER_ROWS)
  {
    hide Ascii, Table, WEBRTC_OFFER_ROWS;
  }

  lemma WebrtcAnswerCase()
    ensures WEBRTC_ANSWER.tag == Ascii("webrtc.answer") && WEBRTC_ANSWER.shape == Table(WEBRTC_ANSWER_ROWS)
  {
    hide Ascii, Table, WEBRTC_ANSWER_ROWS;
  }

  lemma WebrtcIceCandidateCase()
    ensures WEBRTC_ICE_CANDIDATE.tag == Ascii("webrtc.ice-candidate") && WEBRTC_ICE_CANDIDATE.shape == Table(WEBRTC_ICE_CANDIDATE_ROWS)
  {
    hide Ascii, Table, WEBRTC_ICE_CANDIDATE_ROWS;
  }

  lemma ThresholdCommitCase()
    ensures THRESHOLD_COMMIT.tag == Ascii("threshold.commit") && THRESHOLD_COMMIT.shape == Table(THRESHOLD_COMMIT_ROWS)
  {
    hide Ascii, Table, THRESHOLD_COMMIT_ROWS;
  }

  lemma ThresholdSignCase()
    ensures THRESHOLD_SIGN.tag == Ascii("threshold.sign") && THRESHOLD_SIGN.shape == Table(THRESHOLD_SIGN_ROWS)
  {
    hide Ascii, Table, THRESHOLD_SIGN_ROWS;
  }

  lemma ThresholdAbortCase()
    ensures THRESHOLD_ABORT.tag == Ascii("threshold.abort") && THRESHOLD_ABORT.shape == Table(THRESHOLD_ABORT_ROWS)
  {
    hide Ascii, Table, THRESHOLD_ABORT_ROWS;
  }

  lemma ThresholdKeygenRound1Case()
    ensures THRESHOLD_KEYGEN_ROUND1.tag == Ascii("threshold.keygen-round1") && THRESHOLD_KEYGEN_ROUND1.shape == Table(THRESHOLD_KEYGEN_ROUND1_ROWS)
  {
    hide Ascii, Table, THRESHOLD_KEYGEN_ROUND1_ROWS;
  }

  lemma ThresholdKeygenRound2Case()
    ensures THRESHOLD_KEYGEN_ROUND2.tag == Ascii("threshold.keygen-round2") && THRESHOLD_KEYGEN_ROUND2.shape == Table(THRESHOLD_KEYGEN_ROUND2_ROWS)
  {
    hide Ascii, Table, THRESHOLD_KEYGEN_ROUND2_ROWS;
  }

  lemma ThresholdKeygenConfirmCase()
    ensures THRESHOLD_KEYGEN_CONFIRM.tag == Ascii("threshold.keygen-confirm") && THRESHOLD_KEYGEN_CONFIRM.shape == Table(THRESHOLD_KEYGEN_CONFIRM_ROWS)
  {
    hide Ascii, Table, THRESHOLD_KEYGEN_CONFIRM_ROWS;
  }

  function ParamMark(k: nat): int {
    if k == 0 then 18691692
    else if k == 1 then 24948972
    else if k == 2 then 20790254
    else if k == 3 then 20789861
    else if k == 4 then 22887781
    else if k == 5 then 22854638
    else if k == 6 then 20756076
    else if k == 7 then 20855284
    else if k == 8 then 26833650
    else if k == 9 then 28930802
    else if k == 10 then 43612773
    else if k == 11 then 35271924
    else if k == 12 then 31077358
    else if k == 13 then 33175924
    else if k == 14 then 49951281
    else if k == 15 then 49951282
    else 52050285
  }

  lemma ExecParamsMarked(k: nat)
    requires k < 8
    ensures |EXEC_PARAMS| == 8 && Mark(EXEC_PARAMS[k].tag) == ParamMark(k)
  {
    hide Ascii, Table, Mark, EXEC_PARAMS, PTY_KILL, PROC_SIGNAL, PTY_SPAWN, PTY_WRITE, PTY_RESIZE, PROC_SPAWN,
         PROC_KILL, EXEC_LIST;
    ExecParams();
    if k == 0 {
      PtyKillCase();
      MarkOf("pty.kill", 't', 'l', 'l');
    }     else if k == 1 {
      ProcSignalCase();
      MarkOf("proc.signal", 'r', 'a', 'l');
    }     else if k == 2 {
      PtySpawnCase();
      MarkOf("pty.spawn", 't', 'w', 'n');
    }     else if k == 3 {
      PtyWriteCase();
      MarkOf("pty.write", 't', 't', 'e');
    }     else if k == 4 {
      PtyResizeCase();
      MarkOf("pty.resize", 't', 'z', 'e');
    }     else if k == 5 {
      ProcSpawnCase();
      MarkOf("proc.spawn", 'r', 'w', 'n');
    }     else if k == 6 {
      ProcKillCase();
      MarkOf("proc.kill", 'r', 'l', 'l');
    }     else {
      ExecListCase();
      MarkOf("exec.list", 'x', 's', 't');
    }
  }

  lemma WebrtcParamsMarked(k: nat)
    requires k < 3
    ensures |WEBRTC_PARAMS| == 3 && Mark(WEBRTC_PARAMS[k].tag) == ParamMark(k + 8)
  {
    hide Ascii, Table, Mark, WEBRTC_PARAMS, WEBRTC_OFFER, WEBRTC_ANSWER, WEBRTC_ICE_CANDIDATE;
    WebrtcParams();
    if k == 0 {
      WebrtcOfferCase();
      MarkOf("webrtc.offer", 'e', 'e', 'r');
    }     else if k == 1 {
      WebrtcAnswerCase();
      MarkOf("webrtc.answer", 'e', 'e', 'r');
    }     else {
      WebrtcIceCandidateCase();
      MarkOf("webrtc.ice-candidate", 'e', 't', 'e');
    }
  }

  lemma ThresholdParamsMarked(k: nat)
    requires k < 6
    ensures |THRESHOLD_PARAMS| == 6 && Mark(THRESHOLD_PARAMS[k].tag) == ParamMark(k + 11)
  {
    hide Ascii, Table, Mark, THRESHOLD_PARAMS, THRESHOLD_COMMIT, THRESHOLD_SIGN, THRESHOLD_ABORT,
         THRESHOLD_KEYGEN_ROUND1, THRESHOLD_KEYGEN_ROUND2, THRESHOLD_KEYGEN_CONFIRM;
    ThresholdParams();
    if k == 0 {
      ThresholdCommitCase();
      MarkOf("threshold.commit", 'h', 'i', 't');
    }     else if k == 1 {
      ThresholdSignCase();
      MarkOf("threshold.sign", 'h', 'g', 'n');
    }     else if k == 2 {
      ThresholdAbortCase();
      MarkOf("threshold.abort", 'h', 'r', 't');
    }     else if k == 3 {
      ThresholdKeygenRound1Case();
      MarkOf("threshold.keygen-round1", 'h', 'd', '1');
    }     else if k == 4 {
      ThresholdKeygenRound2Case();
      MarkOf("threshold.keygen-round2", 'h', 'd', '2');
    }     else {
      ThresholdKeygenConfirmCase();
      MarkOf("threshold.keygen-confirm", 'h', 'r', 'm');
    }
  }

  lemma ParamMarked(k: nat)
    requires k < 17
    ensures |PARAM_CASES| == 17 && Mark(PARAM_CASES[k].tag) == ParamMark(k)
  {
    hide *;
    ParamsJoined();
    if k < 8 {
      ExecParamsMarked(k);
    } else if k < 11 {
      WebrtcParamsMarked(k - 8);
      assert PARAM_CASES[k] == WEBRTC_PARAMS[k - 8];
    } else {
      ThresholdParamsMarked(k - 11);
      assert PARAM_CASES[k] == THRESHOLD_PARAMS[k - 11];
    }
  }

  lemma ParamMarksDiffer(i: nat, k: nat)
    requires i < k < 17
    ensures ParamMark(i) != ParamMark(k)
  {
  }

  lemma ParamFound(k: nat)
    requires k < 17
    ensures |PARAM_CASES| == 17 && FindCase(PARAM_CASES, PARAM_CASES[k].tag) == Yes(PARAM_CASES[k].shape)
  {
    hide *;
    ParamMarked(k);
    forall i | 0 <= i < k
      ensures PARAM_CASES[i].tag != PARAM_CASES[k].tag
    {
      ParamMarked(i);
      ParamMarksDiffer(i, k);
    }
    FoundAt(PARAM_CASES, k);
  }

  lemma PtyKillFound()
    ensures FindCase(PARAM_CASES, Ascii("pty.kill")) == Yes(Table(PTY_KILL_ROWS))
  {
    hide *;
    ParamsJoined();
    ExecParams();
    PtyKillCase();
    ParamFound(0);
    assert PARAM_CASES[0] == EXEC_PARAMS[0];
  }

  lemma ProcSignalFound()
    ensures FindCase(PARAM_CASES, Ascii("proc.signal")) == Yes(Table(PROC_SIGNAL_ROWS))
  {
    hide *;
    ParamsJoined();
    ExecParams();
    ProcSignalCase();
    ParamFound(1);
    assert PARAM_CASES[1] == EXEC_PARAMS[1];
  }

  lemma PtySpawnFound()
    ensures FindCase(PARAM_CASES, Ascii("pty.spawn")) == Yes(Table(PTY_SPAWN_ROWS))
  {
    hide *;
    ParamsJoined();
    ExecParams();
    PtySpawnCase();
    ParamFound(2);
    assert PARAM_CASES[2] == EXEC_PARAMS[2];
  }

  lemma PtyWriteFound()
    ensures FindCase(PARAM_CASES, Ascii("pty.write")) == Yes(Table(PTY_WRITE_ROWS))
  {
    hide *;
    ParamsJoined();
    ExecParams();
    PtyWriteCase();
    ParamFound(3);
    assert PARAM_CASES[3] == EXEC_PARAMS[3];
  }

  lemma PtyResizeFound()
    ensures FindCase(PARAM_CASES, Ascii("pty.resize")) == Yes(Table(PTY_RESIZE_ROWS))
  {
    hide *;
    ParamsJoined();
    ExecParams();
    PtyResizeCase();
    ParamFound(4);
    assert PARAM_CASES[4] == EXEC_PARAMS[4];
  }

  lemma ProcSpawnFound()
    ensures FindCase(PARAM_CASES, Ascii("proc.spawn")) == Yes(Table(PROC_SPAWN_ROWS))
  {
    hide *;
    ParamsJoined();
    ExecParams();
    ProcSpawnCase();
    ParamFound(5);
    assert PARAM_CASES[5] == EXEC_PARAMS[5];
  }

  lemma ProcKillFound()
    ensures FindCase(PARAM_CASES, Ascii("proc.kill")) == Yes(Table(PROC_KILL_ROWS))
  {
    hide *;
    ParamsJoined();
    ExecParams();
    ProcKillCase();
    ParamFound(6);
    assert PARAM_CASES[6] == EXEC_PARAMS[6];
  }

  lemma ExecListFound()
    ensures FindCase(PARAM_CASES, Ascii("exec.list")) == Yes(Table(EXEC_LIST_ROWS))
  {
    hide *;
    ParamsJoined();
    ExecParams();
    ExecListCase();
    ParamFound(7);
    assert PARAM_CASES[7] == EXEC_PARAMS[7];
  }

  lemma WebrtcOfferFound()
    ensures FindCase(PARAM_CASES, Ascii("webrtc.offer")) == Yes(Table(WEBRTC_OFFER_ROWS))
  {
    hide *;
    ParamsJoined();
    WebrtcParams();
    WebrtcOfferCase();
    ParamFound(8);
    assert PARAM_CASES[0 + 8] == WEBRTC_PARAMS[0];
  }

  lemma WebrtcAnswerFound()
    ensures FindCase(PARAM_CASES, Ascii("webrtc.answer")) == Yes(Table(WEBRTC_ANSWER_ROWS))
  {
    hide *;
    ParamsJoined();
    WebrtcParams();
    WebrtcAnswerCase();
    ParamFound(9);
    assert PARAM_CASES[1 + 8] == WEBRTC_PARAMS[1];
  }

  lemma WebrtcIceCandidateFound()
    ensures FindCase(PARAM_CASES, Ascii("webrtc.ice-candidate")) == Yes(Table(WEBRTC_ICE_CANDIDATE_ROWS))
  {
    hide *;
    ParamsJoined();
    WebrtcParams();
    WebrtcIceCandidateCase();
    ParamFound(10);
    assert PARAM_CASES[2 + 8] == WEBRTC_PARAMS[2];
  }

  lemma ThresholdCommitFound()
    ensures FindCase(PARAM_CASES, Ascii("threshold.commit")) == Yes(Table(THRESHOLD_COMMIT_ROWS))
  {
    hide *;
    ParamsJoined();
    ThresholdParams();
    ThresholdCommitCase();
    ParamFound(11);
    assert PARAM_CASES[0 + 11] == THRESHOLD_PARAMS[0];
  }

  lemma ThresholdSignFound()
    ensures FindCase(PARAM_CASES, Ascii("threshold.sign")) == Yes(Table(THRESHOLD_SIGN_ROWS))
  {
    hide *;
    ParamsJoined();
    ThresholdParams();
    ThresholdSignCase();
    ParamFound(12);
    assert PARAM_CASES[1 + 11] == THRESHOLD_PARAMS[1];
  }

  lemma ThresholdAbortFound()
    ensures FindCase(PARAM_CASES, Ascii("threshold.abort")) == Yes(Table(THRESHOLD_ABORT_ROWS))
  {
    hide *;
    ParamsJoined();
    ThresholdParams();
    ThresholdAbortCase();
    ParamFound(13);
    assert PARAM_CASES[2 + 11] == THRESHOLD_PARAMS[2];
  }

  lemma ThresholdKeygenRound1Found()
    ensures FindCase(PARAM_CASES, Ascii("threshold.keygen-round1")) == Yes(Table(THRESHOLD_KEYGEN_ROUND1_ROWS))
  {
    hide *;
    ParamsJoined();
    ThresholdParams();
    ThresholdKeygenRound1Case();
    ParamFound(14);
    assert PARAM_CASES[3 + 11] == THRESHOLD_PARAMS[3];
  }

  lemma ThresholdKeygenRound2Found()
    ensures FindCase(PARAM_CASES, Ascii("threshold.keygen-round2")) == Yes(Table(THRESHOLD_KEYGEN_ROUND2_ROWS))
  {
    hide *;
    ParamsJoined();
    ThresholdParams();
    ThresholdKeygenRound2Case();
    ParamFound(15);
    assert PARAM_CASES[4 + 11] == THRESHOLD_PARAMS[4];
  }

  lemma ThresholdKeygenConfirmFound()
    ensures FindCase(PARAM_CASES, Ascii("threshold.keygen-confirm")) == Yes(Table(THRESHOLD_KEYGEN_CONFIRM_ROWS))
  {
    hide *;
    ParamsJoined();
    ThresholdParams();
    ThresholdKeygenConfirmCase();
    ParamFound(16);
    assert PARAM_CASES[5 + 11] == THRESHOLD_PARAMS[5];
  }

  // --- the commands, one by one ---------------------------------------------------------------

  /** `pty.kill`: a session and a signal, sorted. */
  lemma PtyKillParams(b: Bytes, v: Val, t: Bytes)
    ensures DecodeShape(PARAMS, b) == Ok((Tagged(Ascii("pty.kill"), v), t)) <==>
            && v.Record? && |v.slots| == 3 && v.extra == []
            && v.slots[0] == Present(Unit) && UintIn(v.slots[1]) && IntIn(v.slots[2])
            && b == SortedMapBytes([WordEntry("verb", "pty.kill"), UintEntry("session", v.slots[1]),
                                    IntEntry("signal", v.slots[2])]) + t
  {
    hide Ascii, PARAM_CASES, DecodeShape, SortedMapBytes, WF, Enc, SlotFits, RowPart, Table, UintIn, IntIn, BytesIn, SizedIn, TextIn,
         PartIn, UintEntry, IntEntry, BytesEntry, TextEntry, WordEntry, PartEntry;
    PtyKillFound();
    var rows := PTY_KILL_ROWS;
    SignalFieldsDistinct("pty.kill");
    UnsortedParamLayout("pty.kill", rows, b, v, t);
    if v.Record? && |v.slots| == 3 {
      WordRow(rows[0], "pty.kill", v.slots[0]); UintRow(rows[1], v.slots[1]); IntRow(rows[2], v.slots[2]);
      assert RowsFit(rows, v) ==> RowParts(rows, v.slots) == [
        WordEntry("verb", "pty.kill"), UintEntry("session", v.slots[1]), IntEntry("signal", v.slots[2])
      ];
    }
  }

  /** `proc.signal`: a session and a signal, sorted. */
  lemma ProcSignalParams(b: Bytes, v: Val, t: Bytes)
    ensures DecodeShape(PARAMS, b) == Ok((Tagged(Ascii("proc.signal"), v), t)) <==>
            && v.Record? && |v.slots| == 3 && v.extra == []
            && v.slots[0] == Present(Unit) && UintIn(v.slots[1]) && IntIn(v.slots[2])
            && b == SortedMapBytes([WordEntry("verb", "proc.signal"), UintEntry("session", v.slots[1]),
                                    IntEntry("signal", v.slots[2])]) + t
  {
    hide Ascii, PARAM_CASES, DecodeShape, SortedMapBytes, WF, Enc, SlotFits, RowPart, Table, UintIn, IntIn, BytesIn, SizedIn, TextIn,
         PartIn, UintEntry, IntEntry, BytesEntry, TextEntry, WordEntry, PartEntry;
    ProcSignalFound();
    var rows := PROC_SIGNAL_ROWS;
    SignalFieldsDistinct("proc.signal");
    UnsortedParamLayout("proc.signal", rows, b, v, t);
    if v.Record? && |v.slots| == 3 {
      WordRow(rows[0], "proc.signal", v.slots[0]); UintRow(rows[1], v.slots[1]); IntRow(rows[2], v.slots[2]);
      assert RowsFit(rows, v) ==> RowParts(rows, v.slots) == [
        WordEntry("verb", "proc.signal"), UintEntry("session", v.slots[1]), IntEntry("signal", v.slots[2])
      ];
    }
  }

  /** `pty.spawn`: what to run, where and in what window. */
  lemma PtySpawnParams(b: Bytes, v: Val, t: Bytes)
    ensures DecodeShape(PARAMS, b) == Ok((Tagged(Ascii("pty.spawn"), v), t)) <==>
            && v.Record? && |v.slots| == 7 && v.extra == []
            && (v.slots[0].Absent? || TextIn(v.slots[0])) && PartIn(TEXT_MAP, v.slots[1])
            && PartIn(ListShape(TextShape), v.slots[2]) && UintIn(v.slots[3]) && UintIn(v.slots[4])
            && v.slots[5] == Present(Unit) && (v.slots[6].Absent? || TextIn(v.slots[6]))
            && b == MapBytes([TextEntry("cwd", v.slots[0]), PartEntry("env", TEXT_MAP, v.slots[1]),
                              PartEntry("argv", ListShape(TextShape), v.slots[2]), UintEntry("cols", v.slots[3]),
                              UintEntry("rows", v.slots[4]), WordEntry("verb", "pty.spawn"),
                              TextEntry("shell", v.slots[6])]) + t
  {
    hide Ascii, PARAM_CASES, DecodeShape, MapBytes, WF, Enc, SlotFits, RowPart, Table, UintIn, IntIn, BytesIn, SizedIn, TextIn,
         PartIn, UintEntry, IntEntry, BytesEntry, TextEntry, WordEntry, PartEntry;
    PtySpawnFound();
    var rows := PTY_SPAWN_ROWS;
    ParamLayout("pty.spawn", rows, b, v, t);
    if v.Record? && |v.slots| == 7 {
      TextRow(rows[0], v.slots[0]); PartRow(rows[1], v.slots[1]); PartRow(rows[2], v.slots[2]);
      UintRow(rows[3], v.slots[3]); UintRow(rows[4], v.slots[4]); WordRow(rows[5], "pty.spawn", v.slots[5]);
      TextRow(rows[6], v.slots[6]);
      assert RowsFit(rows, v) ==> RowParts(rows, v.slots) == [
        TextEntry("cwd", v.slots[0]), PartEntry("env", TEXT_MAP, v.slots[1]),
        PartEntry("argv", ListShape(TextShape), v.slots[2]), UintEntry("cols", v.slots[3]),
        UintEntry("rows", v.slots[4]), WordEntry("verb", "pty.spawn"), TextEntry("shell", v.slots[6])
      ];
    }
  }

  /** Without one of the fields it must have it is refused. */
  lemma PtySpawnLacking(v: Val)
    requires v.Record? && |v.slots| == 7
    requires (v.slots[0].Absent? || TextIn(v.slots[0])) && (v.slots[1].Absent? || PartIn(TEXT_MAP, v.slots[1]))
    requires (v.slots[2].Absent? || PartIn(ListShape(TextShape), v.slots[2]))
    requires (v.slots[3].Absent? || UintIn(v.slots[3])) && (v.slots[4].Absent? || UintIn(v.slots[4]))
    requires v.slots[5] == Present(Unit) && (v.slots[6].Absent? || TextIn(v.slots[6]))
    requires v.slots[1].Absent? || v.slots[2].Absent? || v.slots[3].Absent? || v.slots[4].Absent?
    ensures DecodeShape(PARAMS, MapBytes([TextEntry("cwd", v.slots[0]), PartEntry("env", TEXT_MAP, v.slots[1]),
                                          PartEntry("argv", ListShape(TextShape), v.slots[2]),
                                          UintEntry("cols", v.slots[3]), UintEntry("rows", v.slots[4]),
                                          WordEntry("verb", "pty.spawn"), TextEntry("shell", v.slots[6])])) == Err(MissingField)
  {
    hide Ascii, PARAM_CASES, DecodeShape, MapBytes, WF, Enc, SlotFits, RowPart, Table, UintIn, IntIn, BytesIn, SizedIn, TextIn,
         PartIn, UintEntry, IntEntry, BytesEntry, TextEntry, WordEntry, PartEntry;
    PtySpawnFound();
    var rows := PTY_SPAWN_ROWS;
    TextRow(rows[0], v.slots[0]); PartRow(rows[1], v.slots[1]); PartRow(rows[2], v.slots[2]);
    UintRow(rows[3], v.slots[3]); UintRow(rows[4], v.slots[4]); WordRow(rows[5], "pty.spawn", v.slots[5]);
    TextRow(rows[6], v.slots[6]);
    assert RowParts(rows, v.slots) == [
      TextEntry("cwd", v.slots[0]), PartEntry("env", TEXT_MAP, v.slots[1]),
      PartEntry("argv", ListShape(TextShape), v.slots[2]), UintEntry("cols", v.slots[3]), UintEntry("rows", v.slots[4]),
      WordEntry("verb", "pty.spawn"), TextEntry("shell", v.slots[6])
    ];
    assert PartsFit(rows, v.slots);
    var i := if v.slots[1].Absent? then 1 else if v.slots[2].Absent? then 2 else if v.slots[3].Absent? then 3 else 4;
    ParamIncomplete("pty.spawn", rows, v.slots, 5, i);
  }

  /** `pty.write`: a session and bytes. */
  lemma PtyWriteParams(b: Bytes, v: Val, t: Bytes)
    ensures DecodeShape(PARAMS, b) == Ok((Tagged(Ascii("pty.write"), v), t)) <==>
            && v.Record? && |v.slots| == 3 && v.extra == []
            && v.slots[0] == Present(Unit) && BytesIn(v.slots[1]) && UintIn(v.slots[2])
            && b == MapBytes([WordEntry("verb", "pty.write"), BytesEntry("bytes", v.slots[1]),
                              UintEntry("session", v.slots[2])]) + t
  {
    hide Ascii, PARAM_CASES, DecodeShape, MapBytes, WF, Enc, SlotFits, RowPart, Table, UintIn, IntIn, BytesIn, SizedIn, TextIn,
         PartIn, UintEntry, IntEntry, BytesEntry, TextEntry, WordEntry, PartEntry;
    PtyWriteFound();
    var rows := PTY_WRITE_ROWS;
    ParamLayout("pty.write", rows, b, v, t);
    if v.Record? && |v.slots| == 3 {
      WordRow(rows[0], "pty.write", v.slots[0]); BytesRow(rows[1], v.slots[1]); UintRow(rows[2], v.slots[2]);
      assert RowsFit(rows, v) ==> RowParts(rows, v.slots) == [
        WordEntry("verb", "pty.write"), BytesEntry("bytes", v.slots[1]), UintEntry("session", v.slots[2])
      ];
    }
  }

  /** `pty.resize`: a session and its new size. */
  lemma PtyResizeParams(b: Bytes, v: Val, t: Bytes)
    ensures DecodeShape(PARAMS, b) == Ok((Tagged(Ascii("pty.resize"), v), t)) <==>
            && v.Record? && |v.slots| == 4 && v.extra == []
            && UintIn(v.slots[0]) && UintIn(v.slots[1]) && v.slots[2] == Present(Unit) && UintIn(v.slots[3])
            && b == MapBytes([UintEntry("cols", v.slots[0]), UintEntry("rows", v.slots[1]),
                              WordEntry("verb", "pty.resize"), UintEntry("session", v.slots[3])]) + t
  {
    hide Ascii, PARAM_CASES, DecodeShape, MapBytes, WF, Enc, SlotFits, RowPart, Table, UintIn, IntIn, BytesIn, SizedIn, TextIn,
         PartIn, UintEntry, IntEntry, BytesEntry, TextEntry, WordEntry, PartEntry;
    PtyResizeFound();
    var rows := PTY_RESIZE_ROWS;
    ParamLayout("pty.resize", rows, b, v, t);
    if v.Record? && |v.slots| == 4 {
      UintRow(rows[0], v.slots[0]); UintRow(rows[1], v.slots[1]); WordRow(rows[2], "pty.resize", v.slots[2]);
      UintRow(rows[3], v.slots[3]);
      assert RowsFit(rows, v) ==> RowParts(rows, v.slots) == [
        UintEntry("cols", v.slots[0]), UintEntry("rows", v.slots[1]), WordEntry("verb", "pty.resize"),
        UintEntry("session", v.slots[3])
      ];
    }
  }

  /** `proc.spawn`: what to run and where. */
  lemma ProcSpawnParams(b: Bytes, v: Val, t: Bytes)
    ensures DecodeShape(PARAMS, b) == Ok((Tagged(Ascii("proc.spawn"), v), t)) <==>
            && v.Record? && |v.slots| == 4 && v.extra == []
            && (v.slots[0].Absent? || TextIn(v.slots[0])) && PartIn(TEXT_MAP, v.slots[1])
            && PartIn(ListShape(TextShape), v.slots[2]) && v.slots[3] == Present(Unit)
            && b == MapBytes([TextEntry("cwd", v.slots[0]), PartEntry("env", TEXT_MAP, v.slots[1]),
                              PartEntry("argv", ListShape(TextShape), v.slots[2]), WordEntry("verb", "proc.spawn")]) + t
  {
    hide Ascii, PARAM_CASES, DecodeShape, MapBytes, WF, Enc, SlotFits, RowPart, Table, UintIn, IntIn, BytesIn, SizedIn, TextIn,
         PartIn, UintEntry, IntEntry, BytesEntry, TextEntry, WordEntry, PartEntry;
    ProcSpawnFound();
    var rows := PROC_SPAWN_ROWS;
    ParamLayout("proc.spawn", rows, b, v, t);
    if v.Record? && |v.slots| == 4 {
      TextRow(rows[0], v.slots[0]); PartRow(rows[1], v.slots[1]); PartRow(rows[2], v.slots[2]);
      WordRow(rows[3], "proc.spawn", v.slots[3]);
      assert RowsFit(rows, v) ==> RowParts(rows, v.slots) == [
        TextEntry("cwd", v.slots[0]), PartEntry("env", TEXT_MAP, v.slots[1]),
        PartEntry("argv", ListShape(TextShape), v.slots[2]), WordEntry("verb", "proc.spawn")
      ];
    }
  }

  /** `proc.kill`: a session. */
  lemma ProcKillParams(b: Bytes, v: Val, t: Bytes)
    ensures DecodeShape(PARAMS, b) == Ok((Tagged(Ascii("proc.kill"), v), t)) <==>
            && v.Record? && |v.slots| == 2 && v.extra == []
            && v.slots[0] == Present(Unit) && UintIn(v.slots[1])
            && b == MapBytes([WordEntry("verb", "proc.kill"), UintEntry("session", v.slots[1])]) + t
  {
    hide Ascii, PARAM_CASES, DecodeShape, MapBytes, WF, Enc, SlotFits, RowPart, Table, UintIn, IntIn, BytesIn, SizedIn, TextIn,
         PartIn, UintEntry, IntEntry, BytesEntry, TextEntry, WordEntry, PartEntry;
    ProcKillFound();
    var rows := PROC_KILL_ROWS;
    ParamLayout("proc.kill", rows, b, v, t);
    if v.Record? && |v.slots| == 2 {
      WordRow(rows[0], "proc.kill", v.slots[0]); UintRow(rows[1], v.slots[1]);
      assert RowsFit(rows, v) ==> RowParts(rows, v.slots) == [
        WordEntry("verb", "proc.kill"), UintEntry("session", v.slots[1])
      ];
    }
  }

  /** `exec.list`: nothing else. */
  lemma ExecListParams(b: Bytes, v: Val, t: Bytes)
    ensures DecodeShape(PARAMS, b) == Ok((Tagged(Ascii("exec.list"), v), t)) <==>
            && v.Record? && |v.slots| == 1 && v.extra == []
            && v.slots[0] == Present(Unit)
            && b == MapBytes([WordEntry("verb", "exec.list")]) + t
  {
    hide Ascii, PARAM_CASES, DecodeShape, MapBytes, WF, Enc, SlotFits, RowPart, Table, UintIn, IntIn, BytesIn, SizedIn, TextIn,
         PartIn, UintEntry, IntEntry, BytesEntry, TextEntry, WordEntry, PartEntry;
    ExecListFound();
    var rows := EXEC_LIST_ROWS;
    ParamLayout("exec.list", rows, b, v, t);
    if v.Record? && |v.slots| == 1 {
      WordRow(rows[0], "exec.list", v.slots[0]);
      assert RowsFit(rows, v) ==> RowParts(rows, v.slots) == [
        WordEntry("verb", "exec.list")
      ];
    }
  }

  /** `webrtc.offer`: a description and the negotiation. */
  lemma WebrtcOfferParams(b: Bytes, v: Val, t: Bytes)
    ensures DecodeShape(PARAMS, b) == Ok((Tagged(Ascii("webrtc.offer"), v), t)) <==>
            && v.Record? && |v.slots| == 3 && v.extra == []
            && TextIn(v.slots[0]) && v.slots[1] == Present(Unit) && UintIn(v.slots[2])
            && b == MapBytes([TextEntry("sdp", v.slots[0]), WordEntry("verb", "webrtc.offer"),
                              UintEntry("negotiation-id", v.slots[2])]) + t
  {
    hide Ascii, PARAM_CASES, DecodeShape, MapBytes, WF, Enc, SlotFits, RowPart, Table, UintIn, IntIn, BytesIn, SizedIn, TextIn,
         PartIn, UintEntry, IntEntry, BytesEntry, TextEntry, WordEntry, PartEntry;
    WebrtcOfferFound();
    var rows := WEBRTC_OFFER_ROWS;
    ParamLayout("webrtc.offer", rows, b, v, t);
    if v.Record? && |v.slots| == 3 {
      TextRow(rows[0], v.slots[0]); WordRow(rows[1], "webrtc.offer", v.slots[1]); UintRow(rows[2], v.slots[2]);
      assert RowsFit(rows, v) ==> RowParts(rows, v.slots) == [
        TextEntry("sdp", v.slots[0]), WordEntry("verb", "webrtc.offer"), UintEntry("negotiation-id", v.slots[2])
      ];
    }
  }

  /** `webrtc.answer`: a description and the negotiation. */
  lemma WebrtcAnswerParams(b: Bytes, v: Val, t: Bytes)
    ensures DecodeShape(PARAMS, b) == Ok((Tagged(Ascii("webrtc.answer"), v), t)) <==>
            && v.Record? && |v.slots| == 3 && v.extra == []
            && TextIn(v.slots[0]) && v.slots[1] == Present(Unit) && UintIn(v.slots[2])
            && b == MapBytes([TextEntry("sdp", v.slots[0]), WordEntry("verb", "webrtc.answer"),
                              UintEntry("negotiation-id", v.slots[2])]) + t
  {
    hide Ascii, PARAM_CASES, DecodeShape, MapBytes, WF, Enc, SlotFits, RowPart, Table, UintIn, IntIn, BytesIn, SizedIn, TextIn,
         PartIn, UintEntry, IntEntry, BytesEntry, TextEntry, WordEntry, PartEntry;
    WebrtcAnswerFound();
    var rows := WEBRTC_ANSWER_ROWS;
    ParamLayout("webrtc.answer", rows, b, v, t);
    if v.Record? && |v.slots| == 3 {
      TextRow(rows[0], v.slots[0]); WordRow(rows[1], "webrtc.answer", v.slots[1]); UintRow(rows[2], v.slots[2]);
      assert RowsFit(rows, v) ==> RowParts(rows, v.slots) == [
        TextEntry("sdp", v.slots[0]), WordEntry("verb", "webrtc.answer"), UintEntry("negotiation-id", v.slots[2])
      ];
    }
  }

  /** `webrtc.ice-candidate`: the negotiation and perhaps a candidate. */
  lemma WebrtcIceCandidateParams(b: Bytes, v: Val, t: Bytes)
    ensures DecodeShape(PARAMS, b) == Ok((Tagged(Ascii("webrtc.ice-candidate"), v), t)) <==>
            && v.Record? && |v.slots| == 3 && v.extra == []
            && v.slots[0] == Present(Unit) && (v.slots[1].Absent? || PartIn(ICE_CANDIDATE, v.slots[1]))
            && UintIn(v.slots[2])
            && b == MapBytes([WordEntry("verb", "webrtc.ice-candidate"),
                              PartEntry("candidate", ICE_CANDIDATE, v.slots[1]), UintEntry("negotiation-id", v.slots[2])]) + t
  {
    hide Ascii, PARAM_CASES, DecodeShape, MapBytes, WF, Enc, SlotFits, RowPart, Table, UintIn, IntIn, BytesIn, SizedIn, TextIn,
         PartIn, UintEntry, IntEntry, BytesEntry, TextEntry, WordEntry, PartEntry;
    WebrtcIceCandidateFound();
    var rows := WEBRTC_ICE_CANDIDATE_ROWS;
    ParamLayout("webrtc.ice-candidate", rows, b, v, t);
    if v.Record? && |v.slots| == 3 {
      WordRow(rows[0], "webrtc.ice-candidate", v.slots[0]); PartRow(rows[1], v.slots[1]); UintRow(rows[2], v.slots[2]);
      assert RowsFit(rows, v) ==> RowParts(rows, v.slots) == [
        WordEntry("verb", "webrtc.ice-candidate"), PartEntry("candidate", ICE_CANDIDATE, v.slots[1]),
        UintEntry("negotiation-id", v.slots[2])
      ];
    }
  }

  /** `threshold.commit`: a group, a subject, a deadline and the session. */
  lemma ThresholdCommitParams(b: Bytes, v: Val, t: Bytes)
    ensures DecodeShape(PARAMS, b) == Ok((Tagged(Ascii("threshold.commit"), v), t)) <==>
            && v.Record? && |v.slots| == 5 && v.extra == []
            && v.slots[0] == Present(Unit) && SizedIn(32, v.slots[1]) && PartIn(SUBJECT, v.slots[2])
            && UintIn(v.slots[3]) && UintIn(v.slots[4])
            && b == MapBytes([WordEntry("verb", "threshold.commit"), BytesEntry("group", v.slots[1]),
                              PartEntry("subject", SUBJECT, v.slots[2]), UintEntry("deadline", v.slots[3]),
                              UintEntry("session-id", v.slots[4])]) + t
  {
    hide Ascii, PARAM_CASES, DecodeShape, MapBytes, WF, Enc, SlotFits, RowPart, Table, UintIn, IntIn, BytesIn, SizedIn, TextIn,
         PartIn, UintEntry, IntEntry, BytesEntry, TextEntry, WordEntry, PartEntry;
    ThresholdCommitFound();
    var rows := THRESHOLD_COMMIT_ROWS;
    ParamLayout("threshold.commit", rows, b, v, t);
    if v.Record? && |v.slots| == 5 {
      WordRow(rows[0], "threshold.commit", v.slots[0]); SizedRow(rows[1], 32, v.slots[1]); PartRow(rows[2], v.slots[2]);
      UintRow(rows[3], v.slots[3]); UintRow(rows[4], v.slots[4]);
      assert RowsFit(rows, v) ==> RowParts(rows, v.slots) == [
        WordEntry("verb", "threshold.commit"), BytesEntry("group", v.slots[1]),
        PartEntry("subject", SUBJECT, v.slots[2]), UintEntry("deadline", v.slots[3]),
        UintEntry("session-id", v.slots[4])
      ];
    }
  }

  /** `threshold.sign`: the commitments and the session. */
  lemma ThresholdSignParams(b: Bytes, v: Val, t: Bytes)
    ensures DecodeShape(PARAMS, b) == Ok((Tagged(Ascii("threshold.sign"), v), t)) <==>
            && v.Record? && |v.slots| == 3 && v.extra == []
            && v.slots[0] == Present(Unit) && UintIn(v.slots[1]) && PartIn(ListShape(COMMITMENT), v.slots[2])
            && b == MapBytes([WordEntry("verb", "threshold.sign"), UintEntry("session-id", v.slots[1]),
                              PartEntry("commitments", ListShape(COMMITMENT), v.slots[2])]) + t
  {
    hide Ascii, PARAM_CASES, DecodeShape, MapBytes, WF, Enc, SlotFits, RowPart, Table, UintIn, IntIn, BytesIn, SizedIn, TextIn,
         PartIn, UintEntry, IntEntry, BytesEntry, TextEntry, WordEntry, PartEntry;
    ThresholdSignFound();
    var rows := THRESHOLD_SIGN_ROWS;
    ParamLayout("threshold.sign", rows, b, v, t);
    if v.Record? && |v.slots| == 3 {
      WordRow(rows[0], "threshold.sign", v.slots[0]); UintRow(rows[1], v.slots[1]); PartRow(rows[2], v.slots[2]);
      assert RowsFit(rows, v) ==> RowParts(rows, v.slots) == [
        WordEntry("verb", "threshold.sign"), UintEntry("session-id", v.slots[1]),
        PartEntry("commitments", ListShape(COMMITMENT), v.slots[2])
      ];
    }
  }

  /** `threshold.abort`: the session and perhaps a reason. */
  lemma ThresholdAbortParams(b: Bytes, v: Val, t: Bytes)
    ensures DecodeShape(PARAMS, b) == Ok((Tagged(Ascii("threshold.abort"), v), t)) <==>
            && v.Record? && |v.slots| == 3 && v.extra == []
            && v.slots[0] == Present(Unit) && (v.slots[1].Absent? || TextIn(v.slots[1])) && UintIn(v.slots[2])
            && b == MapBytes([WordEntry("verb", "threshold.abort"), TextEntry("reason", v.slots[1]),
                              UintEntry("session-id", v.slots[2])]) + t
  {
    hide Ascii, PARAM_CASES, DecodeShape, MapBytes, WF, Enc, SlotFits, RowPart, Table, UintIn, IntIn, BytesIn, SizedIn, TextIn,
         PartIn, UintEntry, IntEntry, BytesEntry, TextEntry, WordEntry, PartEntry;
    ThresholdAbortFound();
    var rows := THRESHOLD_ABORT_ROWS;
    ParamLayout("threshold.abort", rows, b, v, t);
    if v.Record? && |v.slots| == 3 {
      WordRow(rows[0], "threshold.abort", v.slots[0]); TextRow(rows[1], v.slots[1]); UintRow(rows[2], v.slots[2]);
      assert RowsFit(rows, v) ==> RowParts(rows, v.slots) == [
        WordEntry("verb", "threshold.abort"), TextEntry("reason", v.slots[1]), UintEntry("session-id", v.slots[2])
      ];
    }
  }

  /** `threshold.keygen-round1`: a commitment, the participants, the threshold and, by kind of ceremony, a proof or the existing key. */
  lemma ThresholdKeygenRound1Params(b: Bytes, v: Val, t: Bytes)
    ensures DecodeShape(PARAMS, b) == Ok((Tagged(Ascii("threshold.keygen-round1"), v), t)) <==>
            && v.Record? && |v.slots| == 7 && v.extra == []
            && v.slots[0] == Present(Unit) && UintIn(v.slots[1]) && PartIn(ListShape(BytesShape), v.slots[2])
            && UintIn(v.slots[3]) && PartIn(ListShape(DEVICE_ID), v.slots[4])
            && (v.slots[5].Absent? || BytesIn(v.slots[5])) && (v.slots[6].Absent? || BytesIn(v.slots[6]))
            && b == MapBytes([WordEntry("verb", "threshold.keygen-round1"), UintEntry("threshold", v.slots[1]),
                              PartEntry("commitment", ListShape(BytesShape), v.slots[2]),
                              UintEntry("session-id", v.slots[3]),
                              PartEntry("participants", ListShape(DEVICE_ID), v.slots[4]),
                              BytesEntry("existing-group-key", v.slots[5]), BytesEntry("proof-of-knowledge", v.slots[6])]) + t
  {
    hide Ascii, PARAM_CASES, DecodeShape, MapBytes, WF, Enc, SlotFits, RowPart, Table, UintIn, IntIn, BytesIn, SizedIn, TextIn,
         PartIn, UintEntry, IntEntry, BytesEntry, TextEntry, WordEntry, PartEntry;
    ThresholdKeygenRound1Found();
    var rows := THRESHOLD_KEYGEN_ROUND1_ROWS;
    ParamLayout("threshold.keygen-round1", rows, b, v, t);
    if v.Record? && |v.slots| == 7 {
      WordRow(rows[0], "threshold.keygen-round1", v.slots[0]); UintRow(rows[1], v.slots[1]);
      PartRow(rows[2], v.slots[2]); UintRow(rows[3], v.slots[3]); PartRow(rows[4], v.slots[4]);
      BytesRow(rows[5], v.slots[5]); BytesRow(rows[6], v.slots[6]);
      assert RowsFit(rows, v) ==> RowParts(rows, v.slots) == [
        WordEntry("verb", "threshold.keygen-round1"), UintEntry("threshold", v.slots[1]),
        PartEntry("commitment", ListShape(BytesShape), v.slots[2]), UintEntry("session-id", v.slots[3]),
        PartEntry("participants", ListShape(DEVICE_ID), v.slots[4]), BytesEntry("existing-group-key", v.slots[5]),
        BytesEntry("proof-of-knowledge", v.slots[6])
      ];
    }
  }

  /** Without one of the fields it must have it is refused. */
  lemma ThresholdKeygenRound1Lacking(v: Val)
    requires v.Record? && |v.slots| == 7
    requires v.slots[0] == Present(Unit) && (v.slots[1].Absent? || UintIn(v.slots[1]))
    requires (v.slots[2].Absent? || PartIn(ListShape(BytesShape), v.slots[2]))
    requires (v.slots[3].Absent? || UintIn(v.slots[3]))
    requires (v.slots[4].Absent? || PartIn(ListShape(DEVICE_ID), v.slots[4]))
    requires (v.slots[5].Absent? || BytesIn(v.slots[5])) && (v.slots[6].Absent? || BytesIn(v.slots[6]))
    requires v.slots[1].Absent? || v.slots[2].Absent? || v.slots[3].Absent? || v.slots[4].Absent?
    ensures DecodeShape(PARAMS, MapBytes([WordEntry("verb", "threshold.keygen-round1"),
                                          UintEntry("threshold", v.slots[1]),
                                          PartEntry("commitment", ListShape(BytesShape), v.slots[2]),
                                          UintEntry("session-id", v.slots[3]),
                                          PartEntry("participants", ListShape(DEVICE_ID), v.slots[4]),
                                          BytesEntry("existing-group-key", v.slots[5]),
                                          BytesEntry("proof-of-knowledge", v.slots[6])])) == Err(MissingField)
  {
    hide Ascii, PARAM_CASES, DecodeShape, MapBytes, WF, Enc, SlotFits, RowPart, Table, UintIn, IntIn, BytesIn, SizedIn, TextIn,
         PartIn, UintEntry, IntEntry, BytesEntry, TextEntry, WordEntry, PartEntry;
    ThresholdKeygenRound1Found();
    var rows := THRESHOLD_KEYGEN_ROUND1_ROWS;
    WordRow(rows[0], "threshold.keygen-round1", v.slots[0]); UintRow(rows[1], v.slots[1]); PartRow(rows[2], v.slots[2]);
    UintRow(rows[3], v.slots[3]); PartRow(rows[4], v.slots[4]); BytesRow(rows[5], v.slots[5]);
    BytesRow(rows[6], v.slots[6]);
    assert RowParts(rows, v.slots) == [
      WordEntry("verb", "threshold.keygen-round1"), UintEntry("threshold", v.slots[1]),
      PartEntry("commitment", ListShape(BytesShape), v.slots[2]), UintEntry("session-id", v.slots[3]),
      PartEntry("participants", ListShape(DEVICE_ID), v.slots[4]), BytesEntry("existing-group-key", v.slots[5]),
      BytesEntry("proof-of-knowledge", v.slots[6])
    ];
    assert PartsFit(rows, v.slots);
    var i := if v.slots[1].Absent? then 1 else if v.slots[2].Absent? then 2 else if v.slots[3].Absent? then 3 else 4;
    ParamIncomplete("threshold.keygen-round1", rows, v.slots, 0, i);
  }

  /** `threshold.keygen-round2`: a share and the session. */
  lemma ThresholdKeygenRound2Params(b: Bytes, v: Val, t: Bytes)
    ensures DecodeShape(PARAMS, b) == Ok((Tagged(Ascii("threshold.keygen-round2"), v), t)) <==>
            && v.Record? && |v.slots| == 3 && v.extra == []
            && v.slots[0] == Present(Unit) && BytesIn(v.slots[1]) && UintIn(v.slots[2])
            && b == MapBytes([WordEntry("verb", "threshold.keygen-round2"), BytesEntry("share", v.slots[1]),
                              UintEntry("session-id", v.slots[2])]) + t
  {
    hide Ascii, PARAM_CASES, DecodeShape, MapBytes, WF, Enc, SlotFits, RowPart, Table, UintIn, IntIn, BytesIn, SizedIn, TextIn,
         PartIn, UintEntry, IntEntry, BytesEntry, TextEntry, WordEntry, PartEntry;
    ThresholdKeygenRound2Found();
    var rows := THRESHOLD_KEYGEN_ROUND2_ROWS;
    ParamLayout("threshold.keygen-round2", rows, b, v, t);
    if v.Record? && |v.slots| == 3 {
      WordRow(rows[0], "threshold.keygen-round2", v.slots[0]); BytesRow(rows[1], v.slots[1]);
      UintRow(rows[2], v.slots[2]);
      assert RowsFit(rows, v) ==> RowParts(rows, v.slots) == [
        WordEntry("verb", "threshold.keygen-round2"), BytesEntry("share", v.slots[1]),
        UintEntry("session-id", v.slots[2])
      ];
    }
  }

  /** `threshold.keygen-confirm`: the digest, the key and the session. */
  lemma ThresholdKeygenConfirmParams(b: Bytes, v: Val, t: Bytes)
    ensures DecodeShape(PARAMS, b) == Ok((Tagged(Ascii("threshold.keygen-confirm"), v), t)) <==>
            && v.Record? && |v.slots| == 4 && v.extra == []
            && v.slots[0] == Present(Unit) && BytesIn(v.slots[1]) && UintIn(v.slots[2]) && BytesIn(v.slots[3])
            && b == MapBytes([WordEntry("verb", "threshold.keygen-confirm"), BytesEntry("group-key", v.slots[1]),
                              UintEntry("session-id", v.slots[2]), BytesEntry("transcript-digest", v.slots[3])]) + t
  {
    hide Ascii, PARAM_CASES, DecodeShape, MapBytes, WF, Enc, SlotFits, RowPart, Table, UintIn, IntIn, BytesIn, SizedIn, TextIn,
         PartIn, UintEntry, IntEntry, BytesEntry, TextEntry, WordEntry, PartEntry;
    ThresholdKeygenConfirmFound();
    var rows := THRESHOLD_KEYGEN_CONFIRM_ROWS;
    ParamLayout("threshold.keygen-confirm", rows, b, v, t);
    if v.Record? && |v.slots| == 4 {
      WordRow(rows[0], "threshold.keygen-confirm", v.slots[0]); BytesRow(rows[1], v.slots[1]);
      UintRow(rows[2], v.slots[2]); BytesRow(rows[3], v.slots[3]);
      assert RowsFit(rows, v) ==> RowParts(rows, v.slots) == [
        WordEntry("verb", "threshold.keygen-confirm"), BytesEntry("group-key", v.slots[1]),
        UintEntry("session-id", v.slots[2]), BytesEntry("transcript-digest", v.slots[3])
      ];
    }
  }
}
