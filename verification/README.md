# wire-mesh, verified

A Dafny model of the parts of wire-mesh that are hardest to get right, and
proofs about it: the algebra of proactive resharing, the canonical CBOR codec,
and the key ceremony and signing protocols as step machines.  Check it with
`dafny verify dfyconfig.toml`.

## What is modelled

**Resharing** (`Modular`, `Lagrange`, `Duplicates`, `Group`, `Reshare`,
`ReshareProofs`).  Scalars are integers modulo a prime, with inverses computed
by extended Euclid.  Points are an abstract group with a base point of that
order.  The main result ranges over every field, every polynomial, every
committee and every run of reshares: the secret and the group key survive.

**The codec** (`Cbor` to `Transport`).  Every `*_from` decoder of
wire-mesh-wire is one loop over keys, readers and missing-field rules, so a
`Shape` is such a table, `DecodeShape` runs it and `Enc` writes it: closed maps
in the order the code writes them, maps with an open tail sorted, and, for
comparison, everything sorted.  `Wire` holds the tables of all frames and
command parameters.  `Decoder`, `Decoding`, `Encoding` and `CanonicalMap` are
the position-moving, slot-filling, appending and binary-searching forms the
code has, proved against the functions.  `FrameLayouts`, `ParamLayouts` and
`StructLayouts` say for every frame, command and structure which bytes are
accepted, key by key and without the tables; `Refusals` says what is refused as
what.

**Ceremonies and signing** (`Transcript`, `TranscriptShapes`, `Ceremony`,
`CeremonyPrograms`, `CeremonyProgress`, `Mailbox`, `Signing`, `Coordinator`).  Devices run
straight-line programs of sends, awaits and local checks against mailboxes;
dishonest devices put anything into mailboxes under their own name at any time.
Runs are sequences of steps and results hold in every state of every run.

**Scopes** (`Scope`).  Capability narrowing on path segments.  `Common` holds the
few types all parts share.

## Where the code does not do what it says

- `pty.kill` and `proc.signal` write `session` before `signal`, but `signal` is
  the shorter key.  Such a manage request is refused by the decoder of this very
  crate.  `Frames.FrameRoundTrip` and `Frames.FrameCanonical` prove that these
  two commands are the only exception.
- The weight loop promises an error for duplicated identifiers.  It skips equal
  entries, so it never reports one, and weights can come out wrong:
  `Duplicates.InterpolatesIff` says exactly when.  The takeover check refuses a
  reshare exactly where they matter (`Duplicates.TakeoverWithRepeats`).
- A reshare's transcript concatenates commitments without counts.  It binds its
  content unless two different survivor counts give the same number of blocks,
  and for all such shapes it does not (`TranscriptShapes.ShapesCollideIff`).
- Combining received shares checks each against its own embedded commitment
  only, neither its identifier nor the broadcast commitment
  (`ReshareProofs.KeyPackageConsistentIff`).
- The comment on aborting says that recalled state is discarded too.  The code
  discards the nonce (`Signing.Participant.HandleAbort`).  A sign right
  after uses the leftover state up and releases nothing (`Signing.SignAfterAbort`),
  but a new commit may have stored its nonce in between.
- A share is meant to be over the message its nonce was authorised for.  Nonces
  and states are stored separately, so they can come from two commits;
  `Signing.MessageBoundIff` and `Signing.DispatchBindsMessages` say exactly when
  they do.
- A mailbox keeps one waker per peer, so a second task waiting for a peer
  displaces the first (`Mailbox.NoLostWakeup`).  The ceremonies await each peer
  from one task.
- The key order is called that of section 4.2.1 of RFC 8949.  It is the
  length-first order of section 4.2.3.  They agree on text keys, and on header
  labels unless the one of the smaller major type has the longer encoding
  (`Labels.LabelOrdersAgreeIff`).

## Model

| member | source | states |
|---|---|---|
| `Lagrange.LagrangeCoefficientAtZero` | rust/crates/wire-mesh-threshold/src/lagrange.rs:71-103 | The loop returns the interpolation weight of `x_i` at zero; an empty list and a stranger are reported, and `DuplicatedIdentifier` never is, because the accumulated denominator is never zero |
| `Lagrange.DenominatorNonZero` | rust/crates/wire-mesh-threshold/src/lagrange.rs:82-102 | For every list of non-zero identifiers the product of differences the loop accumulates is not zero modulo the prime |
| `Lagrange.WeightsSumToOne` | rust/crates/wire-mesh-threshold/src/lagrange.rs:71-103 | The weights of any duplicate-free list sum to one modulo the prime |
| `Lagrange.InterpolationAtZero` | rust/crates/wire-mesh-threshold/src/lagrange.rs:68-103 | For every duplicate-free list S and polynomial of degree below its length, the weighted values sum to the value at zero |
| `Lagrange.SubsetsAgree` | rust/crates/wire-mesh-threshold/src/lagrange.rs:68-103 | Any two large enough duplicate-free lists reconstruct the same value |
| `Duplicates.InterpolatesIff` | rust/crates/wire-mesh-threshold/src/lagrange.rs:29-34 | For every list, repeats allowed, each identifier dealing once with the weight the loop gives it: every polynomial with at most as many coefficients as distinct identifiers is interpolated if and only if the weights are those without the repeats, that is, if and only if at every identifier the two products over the repeated entries alone are congruent |
| `Duplicates.WeightUnharmedIff` | rust/crates/wire-mesh-threshold/src/lagrange.rs:82-103 | The same for one identifier: exactly when repeats leave its weight as it should be |
| `Duplicates.OneRepeat` | rust/crates/wire-mesh-threshold/src/lagrange.rs:82-94 | A single repeated entry does harm if and only if the list has another identifier |
| `Duplicates.RepeatsThatCancel` | rust/crates/wire-mesh-threshold/src/lagrange.rs:82-94 | Repeats can cancel out: in [1, 1, 1, 2] every weight is right |
| `Duplicates.OneTwoTwo` | rust/crates/wire-mesh-threshold/src/lagrange.rs:82-94 | In [1, 2, 2] the weight of 1 is 4 instead of 2, and no constant polynomial but zero comes out right |
| `Duplicates.TakeoverWithRepeats` | rust/crates/wire-mesh-threshold/src/keygen_network.rs:875-906 | A reshare over a survivor list with repeats, commitments merged by device in any order: the takeover check passes if and only if the weights of that list interpolate the old polynomial |
| `Duplicates.RepeatRefused` | rust/crates/wire-mesh-threshold/src/keygen_network.rs:894-906 | With one of two survivors listed twice the reshare is refused as a takeover unless the other one has a zero share |
| `Groups.EvalPointsOfCommit` | rust/crates/wire-mesh-threshold/src/reshare.rs:264-277 | Evaluating a commitment in the exponent at x gives the polynomial value at x times the base point |
| `Reshare.Round1Reshare` | rust/crates/wire-mesh-threshold/src/reshare.rs:128-160 | Succeeds exactly when the dealer is a survivor, its weighted share is not zero, and 2 <= t <= n <= 65535 with distinct identifiers; it then commits to and deals, to each new identifier, its value of the weighted share plus fresh coefficients |
| `Reshare.SplitAcceptsIff` | rust/crates/wire-mesh-threshold/src/reshare.rs:144-151 | The committee parameters in numbers: 2 <= t <= n <= 65535, identifiers distinct |
| `Reshare.CombineSurvivorCommitments` | rust/crates/wire-mesh-threshold/src/reshare.rs:172-219 | Column by column sum of equally long commitments; empty input, different lengths and an identity coefficient are errors |
| `Reshare.CombineReceivedShares` | rust/crates/wire-mesh-threshold/src/reshare.rs:288-312 | Sums the received shares if each verifies against its own embedded commitment, else fails |
| `ReshareProofs.CombinedCommitment` | rust/crates/wire-mesh-threshold/src/reshare.rs:172-219 | The coefficient-wise sum of survivor commitments is the commitment to the summed polynomial |
| `ReshareProofs.ReshareKeepsConstant` | rust/crates/wire-mesh-threshold/src/reshare.rs:128-160 | Polynomials dealt by at least T distinct survivors sum to one with the old secret as constant term |
| `ReshareProofs.TakeoverCheckExact` | rust/crates/wire-mesh-threshold/src/keygen_network.rs:894-906 | The derived group key equals the old one if and only if the dealt constants sum to the old secret |
| `ReshareProofs.HonestReshareAccepted` | rust/crates/wire-mesh-threshold/src/keygen_network.rs:894-906 | An honest reshare never fails the takeover check |
| `ReshareProofs.MemberShareMatches` | rust/crates/wire-mesh-threshold/src/reshare.rs:268-312 | When each received share is for this identifier and carries its dealer's broadcast commitment, the combined share times the base point is the published verifying share |
| `ReshareProofs.KeyPackageConsistentIff` | rust/crates/wire-mesh-threshold/src/reshare.rs:288-312 | For verified shares in general: consistent with a verifying share if and only if their own commitments evaluate and add up to it |
| `ReshareProofs.MisaddressedShareAccepted` | rust/crates/wire-mesh-threshold/src/reshare.rs:288-312 | A whole family of shares for another identifier that verify and are accepted although the resulting share is not the published one |
| `ReshareProofs.ReshareStepKeeps` | rust/crates/wire-mesh-threshold/src/reshare.rs:128-160 | One reshare, any survivors, committee, threshold and fresh coefficients: the new shares lie on one polynomial below the new threshold with the old secret, and the key is unchanged |
| `ReshareProofs.ReshareRunKeeps` | rust/crates/wire-mesh-threshold/src/reshare.rs:128-160 | The same after any number of successive reshares |
| `ReshareProofs.QuorumReconstructs` | rust/crates/wire-mesh-threshold/src/reshare.rs:4-11 | Any threshold-many members interpolate to the secret |
| `ReshareProofs.SecretSurvivesEveryRun` | rust/crates/wire-mesh-threshold/src/reshare.rs:1-11 | After any run of reshares any quorum of the last committee reconstructs the first secret |
| `ReshareProofs.RunReshare` | rust/crates/wire-mesh-threshold/src/reshare.rs:128-312 | Dealing by every survivor and combining by every new member, as loops: the result is a reshare step, so it holds the same secret; it succeeds if and only if there are survivors, the committee parameters are accepted, and no weighted share, fresh coefficient or summed coefficient is zero |
| `Cbor.PushHead` | rust/crates/wire-mesh-wire/src/strict.rs:218-239 | Appends exactly the minimal head for every 64-bit argument, keeping the top three bits of the major byte |
| `Cbor.SignedHeadLen` | rust/crates/wire-mesh-wire/src/strict.rs:43-50 | The signed head width is the length of the signed encoding for every 64-bit value, the minimum included |
| `Cbor.HeadRoundTrip` | rust/crates/wire-mesh-wire/src/strict.rs:30-60 | Reading a minimal head back gives major type, argument and width |
| `Cbor.HeadForms` | rust/crates/wire-mesh-wire/src/strict.rs:218-240 | The five forms of a head, bit by bit: major type and argument, most significant byte first |
| `Cbor.HeadCanonical` | rust/crates/wire-mesh-wire/src/strict.rs:53-60 | A head of minimal width is the only minimal head of its argument |
| `Cbor.TextReader` | rust/crates/wire-mesh-wire/src/strict.rs:90-125 | The text reader accepts exactly the minimal encodings of valid texts and stops after them |
| `Utf8.ValidIff` | rust/crates/wire-mesh-wire/src/strict.rs:90-126 | A text is valid exactly when it encodes some sequence of Unicode scalar values |
| `Cbor.IntReader` | rust/crates/wire-mesh-wire/src/strict.rs:164-183 | The signed integer reader accepts exactly the minimal encodings of 64-bit signed values |
| `CdeOrder.TextOrdersAgree` | rust/crates/wire-mesh-wire/src/strict.rs:24-28 | On text keys the length-first order of the code is the bytewise order of section 4.2.1 of RFC 8949 |
| `CdeOrder.LexLessMeans` | rust/crates/wire-mesh-wire/src/strict.rs:24-28 | The bytewise order: a proper prefix, or the smaller byte at the first difference |
| `CdeOrder.CdeLessMeans` | rust/crates/wire-mesh-wire/src/strict.rs:24-28 | The order of keys: shorter first, else the smaller byte at the first difference |
| `CdeOrder.CheckKeyExact` | rust/crates/wire-mesh-wire/src/strict.rs:260-275 | A key is in order, a repetition or misplaced, and is told so |
| `CdeOrder.HeadsMonotone` | rust/crates/wire-mesh-wire/src/strict.rs:31-39 | Minimal heads grow strictly with their argument across all five widths |
| `Labels.LabelOrdersAgreeIff` | rust/crates/wire-mesh-wire/src/value.rs:99-143 | For all header labels: the length-first order of the code and the bytewise order of section 4.2.1 of RFC 8949 agree on a pair if and only if neither label has the smaller major type and the longer encoding |
| `Labels.LabelOrdersDiffer` | rust/crates/wire-mesh-wire/src/strict.rs:24-28 | Two pairs on which they differ: 24 with the empty text, and 24 with -1 |
| `CdeOrder.SortAscending` | rust/crates/wire-mesh-wire/src/value.rs:290-306 | The builder's sort turns distinct keys into strictly ascending ones |
| `CdeOrder.SortPermutes` | rust/crates/wire-mesh-wire/src/value.rs:290-306 | The builder's sort loses and invents nothing |
| `CdeOrder.AscendingUnique` | rust/crates/wire-mesh-wire/src/value.rs:153-221 | A strictly ascending sequence is determined by its elements |
| `Value.ValueCanonical` | rust/crates/wire-mesh-wire/src/value.rs:340-383 | Every byte string strict decoding accepts is the encoding of the value it returns, followed by the rest, and the value is in normal form |
| `Value.ValueRoundTrip` | rust/crates/wire-mesh-wire/src/value.rs:386-416 | Every normal value followed by anything decodes to itself and stops exactly at what follows, through nested arrays and maps |
| `Value.ValueRoundTripIff` | rust/crates/wire-mesh-wire/src/value.rs:318-416 | The values that survive encoding and decoding are exactly those in normal form |
| `Value.ValueHead` | rust/crates/wire-mesh-wire/src/value.rs:386-425 | The major type and argument of every kind of value, false, true and null included |
| `Value.EncodingsPrefixFree` | rust/crates/wire-mesh-wire/src/value.rs:386-416 | No encoding of a normal value is a prefix of another |
| `Value.SkipAgrees` | rust/crates/wire-mesh-wire/src/frame.rs:230-232 | Where strict decoding succeeds, the unchecked skip ends at the same place |
| `CanonicalMaps.CanonicalMap.Search` | rust/crates/wire-mesh-wire/src/value.rs:184-215 | Binary search finds the entry or its place, and reports presence in the map exactly |
| `CanonicalMaps.CanonicalMap.Insert` | rust/crates/wire-mesh-wire/src/value.rs:194-206 | Refuses a present key unchanged, else adds it to the finite map; entries stay ascending |
| `CanonicalMaps.TableInsertion` | rust/crates/wire-mesh-wire/src/value.rs:194-206 | The insertion the table decoders are specified with is this one |
| `CanonicalMaps.CanonicalMap.Remove` | rust/crates/wire-mesh-wire/src/value.rs:184-191 | Removes the key from the finite map and returns what it held |
| `CanonicalMaps.CanonicalMap.Get` | rust/crates/wire-mesh-wire/src/value.rs:209-215 | Looks up the finite map |
| `CanonicalMaps.FromIter` | rust/crates/wire-mesh-wire/src/value.rs:426-442 | Ascending, holding for each key its last value |
| `CanonicalMaps.CanonicalUnique` | rust/crates/wire-mesh-wire/src/value.rs:151-155 | Equal contents are equal sequences, whatever the order of insertion |
| `Decoders.Decoder.UintValue` | rust/crates/wire-mesh-wire/src/strict.rs:147-160 | Reads what the unsigned reader reads from the remaining input and moves past it |
| `Decoders.Decoder.IntValue` | rust/crates/wire-mesh-wire/src/strict.rs:164-183 | The same for signed integers |
| `Decoders.Decoder.BytesValue` | rust/crates/wire-mesh-wire/src/strict.rs:127-144 | The same for byte strings |
| `Decoders.Decoder.TextValue` | rust/crates/wire-mesh-wire/src/strict.rs:90-125 | The same for texts and text keys |
| `Decoders.Decoder.DefiniteCount` | rust/crates/wire-mesh-wire/src/strict.rs:62-87 | The same for array and map heads; indefinite lengths are refused |
| `Decoders.Decoder.LabelKey` | rust/crates/wire-mesh-wire/src/value.rs:99-143 | The same for header labels |
| `Decoders.KeyOrder.Push` | rust/crates/wire-mesh-wire/src/strict.rs:245-271 | Accepts a key only strictly after the last accepted one, telling duplicates from misordering |
| `Decoders.MapDecoder.NextKey` | rust/crates/wire-mesh-wire/src/strict.rs:277-300 | The next key in order, none when exhausted |
| `Decoding.DecodeStrict` | rust/crates/wire-mesh-wire/src/value.rs:340-383 | The recursive position-moving decoder computes strict decoding |
| `Decoding.DecodeStruct` | rust/crates/wire-mesh-wire/src/management.rs:274-296 | A key loop that fills slots once, keeps the open tail sorted and then asks for missing fields computes the table decoder |
| `Decoding.ScanTag` | rust/crates/wire-mesh-wire/src/frame.rs:218-236 | The first pass finds the discriminant wherever it sorts, or fails |
| `Decoding.DecodeUntyped` | rust/crates/wire-mesh-wire/src/management.rs:219-229 | The untyped arm, which does not check order again |
| `Decoding.DecodeUnion` | rust/crates/wire-mesh-wire/src/frame.rs:218-271 | Scan, rewind and dispatch computes the two-pass decoder |
| `Decoding.DecodeTable` | rust/crates/wire-mesh-wire/src/frame.rs:218-271 | Any reader of the schema computes its table's decoding function |
| `Encoding.WriteValue` | rust/crates/wire-mesh-wire/src/value.rs:386-416 | Appends the encoding of the value |
| `Encoding.CdeMapBuilder.Write` | rust/crates/wire-mesh-wire/src/value.rs:285-306 | Writes the collected entries as one map in key order |
| `Encoding.SortPairs` | rust/crates/wire-mesh-wire/src/value.rs:261-306 | Sorting encoded entries is encoding sorted entries |
| `Encoding.WriteBuilt` | rust/crates/wire-mesh-wire/src/tokens.rs:261-294 | Typed fields and tail pushed to the builder come out as one sorted map |
| `Encoding.WriteStruct` | rust/crates/wire-mesh-wire/src/management.rs:249-266 | A closed map is written in the order of its fields, an open one sorted |
| `Encoding.WriteOutcome` | rust/crates/wire-mesh-wire/src/management.rs:320-356 | Success goes through the builder, an error in its fixed order |
| `Encoding.WriteTable` | rust/crates/wire-mesh-wire/src/frame.rs:174-210 | Any writer of the schema appends its table's encoding |
| `SchemaSound.ShapeSound` | rust/crates/wire-mesh-wire/src/strict.rs:245-300 | For every well-formed table: accepted input is the sorted encoding of the value read, through nested maps, open tails and both two-pass dispatches |
| `SchemaSound.FreeSound` | rust/crates/wire-mesh-wire/src/management.rs:219-229 | The untyped second pass reads ascending entries because the first pass checked the same bytes |
| `SchemaSound.OutcomeKept` | rust/crates/wire-mesh-wire/src/management.rs:364-414 | Pulling `code` and `message` out of the tail loses nothing |
| `SchemaCanonical.ScanSees` | rust/crates/wire-mesh-wire/src/frame.rs:218-236 | The first pass, skipping values unchecked, reports exactly the discriminant the second pass reads |
| `SchemaItems.AssembleKeeps` | rust/crates/wire-mesh-wire/src/management.rs:274-296 | Slots and tail, read back as sorted entries, are exactly the entries read |
| `SchemaRoundTrip.ShapeRoundTrip` | rust/crates/wire-mesh-wire/src/strict.rs:277-300 | For every well-formed table: the sorted encoding of any value, followed by anything, decodes to the value and stops there |
| `SchemaEncoder.EncodesCanonically` | rust/crates/wire-mesh-wire/src/frame.rs:174-210 | What the encoders write is the sorted encoding if and only if every closed map in the value is written in ascending key order |
| `SchemaEncoder.RoundTripIff` | rust/crates/wire-mesh-wire/src/frame.rs:136-151 | A value survives encoding and decoding if and only if it is well formed and its closed maps are written in order |
| `SchemaEncoder.ReencodesIff` | rust/crates/wire-mesh-wire/src/frame.rs:136-151 | What was decoded re-encodes to the same bytes if and only if its closed maps are written in order |
| `SchemaEncoder.SortedEncodingsPrefixFree` | rust/crates/wire-mesh-wire/src/frame.rs:136-151 | Sorted encodings of distinct values never share a prefix |
| `Wire.DataHaveSound` | rust/crates/wire-mesh-wire/src/data.rs:18-66 | Well formed and in key order, with `peer` before the discriminant |
| `Wire.CoordinatorSound` | rust/crates/wire-mesh-wire/src/transport.rs:819-876 | Well formed and in key order, `term` before the discriminant and an optional last field |
| `Wire.GossipSound` | rust/crates/wire-mesh-wire/src/transport.rs:285-333 | Well formed and in key order, with a list of open peer adverts inside |
| `Wire.ManageResponseSound` | rust/crates/wire-mesh-wire/src/management.rs:419-466 | Well formed and in key order, with an outcome inside |
| `Wire.PtySpawnSound` | rust/crates/wire-mesh-wire/src/exec.rs:20-93 | Well formed and in key order, with the verb after shorter keys |
| `Wire.ThresholdKeygenRound1Sound` | rust/crates/wire-mesh-wire/src/threshold.rs:290-381 | Well formed and in key order, two optional byte strings last |
| `Frames.FrameCases` | rust/crates/wire-mesh-wire/src/frame.rs:237-271 | All twenty-seven frame tables are well formed; all but the manage request, which depends on its parameters, are in key order |
| `Frames.ParamCases` | rust/crates/wire-mesh-wire/src/management.rs:194-231 | All seventeen parameter tables are well formed; all but `pty.kill` and `proc.signal` are in key order |
| `Frames.SignalUntidy` | rust/crates/wire-mesh-wire/src/exec.rs:189-213 | A `pty.kill` or `proc.signal` map is never written in key order |
| `Frames.FrameTidy` | rust/crates/wire-mesh-wire/src/exec.rs:189-338 | A frame is written in key order if and only if it is not a manage request with one of those two commands |
| `Frames.FrameCanonical` | rust/crates/wire-mesh-wire/src/frame.rs:136-151 | Accepted bytes are the sorted encoding of a frame; they re-encode to themselves if and only if the frame sends no signal |
| `Frames.FrameRoundTrip` | rust/crates/wire-mesh-wire/src/frame.rs:136-151 | Encoding then decoding returns the frame if and only if it is a well-formed frame that sends no signal; one that does is refused |
| `Frames.SignalFrameRefused` | rust/crates/wire-mesh-wire/src/exec.rs:189-235 | Every frame that sends a signal is refused by the decoder as this encoder writes it |
| `Frames.KillFrameRefused` | rust/crates/wire-mesh-wire/src/exec.rs:189-235 | A concrete frame of that kind |
| `Frames.FrameDecodingInjective` | rust/crates/wire-mesh-wire/src/frame.rs:136-151 | No frame has two accepted encodings |
| `Frames.FrameDecodingOnto` | rust/crates/wire-mesh-wire/src/frame.rs:136-151 | Every frame has an accepted encoding |
| `Transport.DecodeBytes` | rust/crates/wire-mesh-wire/src/frame.rs:136-151 | Accepts exactly the canonical encodings of frames with nothing after them |
| `Transport.EncodeToVec` | rust/crates/wire-mesh-wire/src/frame.rs:149-151 | Writes the frame's encoding, which reads back if and only if the frame sends no signal |
| `FrameLayouts.ManageRequestFrame` | rust/crates/wire-mesh-wire/src/management.rs:249-296 | Which bytes are accepted as `manage-request` and what they decode to, keys and kinds of value spelled out: a scope, a command, its number and, if there is one, a token |
| `FrameLayouts.HandshakeFrame` | rust/crates/wire-mesh-wire/src/handshake.rs:175-240 | Which bytes are accepted as `handshake` and what they decode to, keys and kinds of value spelled out: a version, the domains and, if there are any, parameters |
| `FrameLayouts.PingFrame` | rust/crates/wire-mesh-wire/src/transport.rs:21-48 | Which bytes are accepted as `ping` and what they decode to, keys and kinds of value spelled out: nothing else |
| `FrameLayouts.PongFrame` | rust/crates/wire-mesh-wire/src/transport.rs:65-92 | Which bytes are accepted as `pong` and what they decode to, keys and kinds of value spelled out: nothing else |
| `FrameLayouts.CloseFrame` | rust/crates/wire-mesh-wire/src/transport.rs:104-137 | Which bytes are accepted as `close` and what they decode to, keys and kinds of value spelled out: a reason, if there is one |
| `FrameLayouts.GossipFrame` | rust/crates/wire-mesh-wire/src/transport.rs:293-335 | Which bytes are accepted as `gossip` and what they decode to, keys and kinds of value spelled out: the adverts of some peers |
| `FrameLayouts.GossipLacking` | rust/crates/wire-mesh-wire/src/transport.rs:293-335 | Without a field it must have, `gossip` is refused as missing a field |
| `FrameLayouts.CandidatesFrame` | rust/crates/wire-mesh-wire/src/transport.rs:445-487 | Which bytes are accepted as `candidates` and what they decode to, keys and kinds of value spelled out: addresses to try |
| `FrameLayouts.SyncPunchFrame` | rust/crates/wire-mesh-wire/src/transport.rs:501-537 | Which bytes are accepted as `sync-punch` and what they decode to, keys and kinds of value spelled out: a nonce and a deadline |
| `FrameLayouts.ObservedAddressFrame` | rust/crates/wire-mesh-wire/src/transport.rs:549-583 | Which bytes are accepted as `observed-address` and what they decode to, keys and kinds of value spelled out: the address seen |
| `FrameLayouts.RelayOfferFrame` | rust/crates/wire-mesh-wire/src/transport.rs:595-637 | Which bytes are accepted as `relay-offer` and what they decode to, keys and kinds of value spelled out: the addresses offered |
| `FrameLayouts.RelayConnectFrame` | rust/crates/wire-mesh-wire/src/transport.rs:653-691 | Which bytes are accepted as `relay-connect` and what they decode to, keys and kinds of value spelled out: the target and perhaps the source |
| `FrameLayouts.RelayDataFrame` | rust/crates/wire-mesh-wire/src/transport.rs:710-755 | Which bytes are accepted as `relay-data` and what they decode to, keys and kinds of value spelled out: a payload and perhaps its ends |
| `FrameLayouts.RelayInboundFrame` | rust/crates/wire-mesh-wire/src/transport.rs:770-808 | Which bytes are accepted as `relay-inbound` and what they decode to, keys and kinds of value spelled out: the source and perhaps the target |
| `FrameLayouts.CoordinatorFrame` | rust/crates/wire-mesh-wire/src/transport.rs:829-872 | Which bytes are accepted as `coordinator` and what they decode to, keys and kinds of value spelled out: a term, the coordinator and perhaps a capacity hint |
| `FrameLayouts.CoordinatorLacking` | rust/crates/wire-mesh-wire/src/transport.rs:829-872 | Without a field it must have, `coordinator` is refused as missing a field |
| `FrameLayouts.ManageResponseFrame` | rust/crates/wire-mesh-wire/src/management.rs:428-466 | Which bytes are accepted as `manage-response` and what they decode to, keys and kinds of value spelled out: an outcome and the number of its request |
| `FrameLayouts.ManageResponseLacking` | rust/crates/wire-mesh-wire/src/management.rs:428-466 | Without a field it must have, `manage-response` is refused as missing a field |
| `FrameLayouts.RevocationAnnounceFrame` | rust/crates/wire-mesh-wire/src/management.rs:592-636 | Which bytes are accepted as `revocation-announce` and what they decode to, keys and kinds of value spelled out: signed entries |
| `FrameLayouts.StreamDataFrame` | rust/crates/wire-mesh-wire/src/streaming.rs:39-83 | Which bytes are accepted as `stream-data` and what they decode to, keys and kinds of value spelled out: bytes of a channel, numbered |
| `FrameLayouts.StreamAckFrame` | rust/crates/wire-mesh-wire/src/streaming.rs:102-142 | Which bytes are accepted as `stream-ack` and what they decode to, keys and kinds of value spelled out: how far, and how much more |
| `FrameLayouts.StreamEndFrame` | rust/crates/wire-mesh-wire/src/streaming.rs:159-205 | Which bytes are accepted as `stream-end` and what they decode to, keys and kinds of value spelled out: a session and perhaps how it ended |
| `FrameLayouts.DataHaveFrame` | rust/crates/wire-mesh-wire/src/data.rs:27-63 | Which bytes are accepted as `data-have` and what they decode to, keys and kinds of value spelled out: a peer and its head |
| `FrameLayouts.DataHaveLacking` | rust/crates/wire-mesh-wire/src/data.rs:27-63 | Without a field it must have, `data-have` is refused as missing a field |
| `FrameLayouts.DataRequestFrame` | rust/crates/wire-mesh-wire/src/data.rs:78-114 | Which bytes are accepted as `data-request` and what they decode to, keys and kinds of value spelled out: a peer and where to start |
| `FrameLayouts.DataEntriesFrame` | rust/crates/wire-mesh-wire/src/data.rs:134-184 | Which bytes are accepted as `data-entries` and what they decode to, keys and kinds of value spelled out: a peer, where they start and the entries |
| `FrameLayouts.BulkDataFrame` | rust/crates/wire-mesh-wire/src/bulk.rs:37-77 | Which bytes are accepted as `bulk-data` and what they decode to, keys and kinds of value spelled out: bytes of a transfer, numbered |
| `FrameLayouts.BulkAckFrame` | rust/crates/wire-mesh-wire/src/bulk.rs:99-139 | Which bytes are accepted as `bulk-ack` and what they decode to, keys and kinds of value spelled out: how far, and how much more |
| `FrameLayouts.BulkEndFrame` | rust/crates/wire-mesh-wire/src/bulk.rs:158-209 | Which bytes are accepted as `bulk-end` and what they decode to, keys and kinds of value spelled out: a transfer and its digest |
| `FrameLayouts.SecureHelloFrame` | rust/crates/wire-mesh-wire/src/secure_channel.rs:36-102 | Which bytes are accepted as `secure-hello` and what they decode to, keys and kinds of value spelled out: two keys, a nonce, the peer and a signature over them |
| `FrameLayouts.SecureDataFrame` | rust/crates/wire-mesh-wire/src/secure_channel.rs:116-152 | Which bytes are accepted as `secure-data` and what they decode to, keys and kinds of value spelled out: a counter and a ciphertext |
| `ParamLayouts.PtyKillParams` | rust/crates/wire-mesh-wire/src/exec.rs:201-232 | The same for the parameters of `pty.kill`: a session and a signal, sorted |
| `ParamLayouts.ProcSignalParams` | rust/crates/wire-mesh-wire/src/exec.rs:304-335 | The same for the parameters of `proc.signal`: a session and a signal, sorted |
| `ParamLayouts.PtySpawnParams` | rust/crates/wire-mesh-wire/src/exec.rs:34-92 | The same for the parameters of `pty.spawn`: what to run, where and in what window |
| `ParamLayouts.PtySpawnLacking` | rust/crates/wire-mesh-wire/src/exec.rs:34-92 | Without a field they must have, they are refused as missing a field |
| `ParamLayouts.PtyWriteParams` | rust/crates/wire-mesh-wire/src/exec.rs:106-137 | The same for the parameters of `pty.write`: a session and bytes |
| `ParamLayouts.PtyResizeParams` | rust/crates/wire-mesh-wire/src/exec.rs:152-187 | The same for the parameters of `pty.resize`: a session and its new size |
| `ParamLayouts.ProcSpawnParams` | rust/crates/wire-mesh-wire/src/exec.rs:247-291 | The same for the parameters of `proc.spawn`: what to run and where |
| `ParamLayouts.ProcKillParams` | rust/crates/wire-mesh-wire/src/exec.rs:347-374 | The same for the parameters of `proc.kill`: a session |
| `ParamLayouts.ExecListParams` | rust/crates/wire-mesh-wire/src/exec.rs:384-403 | The same for the parameters of `exec.list`: nothing else |
| `ParamLayouts.WebrtcOfferParams` | rust/crates/wire-mesh-wire/src/webrtc.rs:25-56 | The same for the parameters of `webrtc.offer`: a description and the negotiation |
| `ParamLayouts.WebrtcAnswerParams` | rust/crates/wire-mesh-wire/src/webrtc.rs:70-101 | The same for the parameters of `webrtc.answer`: a description and the negotiation |
| `ParamLayouts.WebrtcIceCandidateParams` | rust/crates/wire-mesh-wire/src/webrtc.rs:120-154 | The same for the parameters of `webrtc.ice-candidate`: the negotiation and perhaps a candidate |
| `ParamLayouts.ThresholdCommitParams` | rust/crates/wire-mesh-wire/src/threshold.rs:134-175 | The same for the parameters of `threshold.commit`: a group, a subject, a deadline and the session |
| `ParamLayouts.ThresholdSignParams` | rust/crates/wire-mesh-wire/src/threshold.rs:190-231 | The same for the parameters of `threshold.sign`: the commitments and the session |
| `ParamLayouts.ThresholdAbortParams` | rust/crates/wire-mesh-wire/src/threshold.rs:246-280 | The same for the parameters of `threshold.abort`: the session and perhaps a reason |
| `ParamLayouts.ThresholdKeygenRound1Params` | rust/crates/wire-mesh-wire/src/threshold.rs:303-382 | The same for the parameters of `threshold.keygen-round1`: a commitment, the participants, the threshold and, by kind of ceremony, a proof or the existing key |
| `ParamLayouts.ThresholdKeygenRound1Lacking` | rust/crates/wire-mesh-wire/src/threshold.rs:303-382 | Without a field they must have, they are refused as missing a field |
| `ParamLayouts.ThresholdKeygenRound2Params` | rust/crates/wire-mesh-wire/src/threshold.rs:397-428 | The same for the parameters of `threshold.keygen-round2`: a share and the session |
| `ParamLayouts.ThresholdKeygenConfirmParams` | rust/crates/wire-mesh-wire/src/threshold.rs:445-511 | The same for the parameters of `threshold.keygen-confirm`: the digest, the key and the session |
| `StructLayouts.IdentityKeyLayout` | rust/crates/wire-mesh-wire/src/identity.rs:38-72 | An identity key: which values it takes and which bytes it is |
| `StructLayouts.ScopeLayout` | rust/crates/wire-mesh-wire/src/tokens.rs:176-213 | The same for a capability scope |
| `StructLayouts.WireCandidateLayout` | rust/crates/wire-mesh-wire/src/transport.rs:390-433 | An address to try |
| `StructLayouts.IceCandidateLayout` | rust/crates/wire-mesh-wire/src/webrtc.rs:168-254 | An ICE candidate |
| `StructLayouts.SubjectLayout` | rust/crates/wire-mesh-wire/src/threshold.rs:26-64 | A threshold subject |
| `StructLayouts.CommitmentLayout` | rust/crates/wire-mesh-wire/src/threshold.rs:75-116 | The commitments of one signer |
| `StructLayouts.CommandLayout` | rust/crates/wire-mesh-wire/src/management.rs:38-72 | A command and its parameters |
| `StructLayouts.CandidateKindLayout` | rust/crates/wire-mesh-wire/src/transport.rs:355-378 | The three kinds of candidate |
| `StructLayouts.PeerAdvertLayout` | rust/crates/wire-mesh-wire/src/transport.rs:226-280 | A peer advert: five required fields and the tail, written in key order |
| `StructLayouts.TokenClaimsLayout` | rust/crates/wire-mesh-wire/src/tokens.rs:538-661 | Token claims: seven required and eight optional fields and the tail, written in key order |
| `StructLayouts.HeadersLayout` | rust/crates/wire-mesh-wire/src/tokens.rs:261-324 | COSE headers: labels 1 and 4, both optional, and a tail of either kind of label |
| `StructLayouts.CoseSign1Layout` | rust/crates/wire-mesh-wire/src/tokens.rs:402-456 | A signed object: four parts, the payload possibly null |
| `StructLayouts.OutcomeLayout` | rust/crates/wire-mesh-wire/src/management.rs:320-414 | `ok` with results, or `error` with a code and perhaps a message |
| `StructLayouts.UnsignedLayout` | rust/crates/wire-mesh-wire/src/transport.rs:191-207 | What the signature of an advert covers: the other four fields and the tail |
| `StructLayouts.AnyMapLayout` | rust/crates/wire-mesh-wire/src/handshake.rs:175-240 | The parameters of a handshake: any text keys, any values |
| `StructLayouts.TextMapLayout` | rust/crates/wire-mesh-wire/src/exec.rs:34-61 | An environment: ascending text keys with texts |
| `Refusals.NonMinimalRefused` | rust/crates/wire-mesh-wire/src/strict.rs:53-185 | Every reader refuses a head wider than its argument needs as non-minimal |
| `Refusals.IndefiniteRefused` | rust/crates/wire-mesh-wire/src/strict.rs:66-88 | Arrays and maps of indefinite length are refused as such |
| `Refusals.OutOfRangeRefused` | rust/crates/wire-mesh-wire/src/strict.rs:164-185 | Numbers beyond the signed range are refused as out of range by signed readers |
| `Refusals.OtherKindRefused` | rust/crates/wire-mesh-wire/src/strict.rs:90-185 | A value of another kind is refused for its kind |
| `Refusals.WrongValueRefused` | rust/crates/wire-mesh-wire/src/identity.rs:113-123 | Wrong lengths, wrong words and wrong arities are told apart |
| `Refusals.UnknownKeyRefused` | rust/crates/wire-mesh-wire/src/transport.rs:853-872 | A key no field has is refused as unknown |
| `Refusals.KeyOutOfOrderRefused` | rust/crates/wire-mesh-wire/src/strict.rs:260-275 | Repeated and misplaced keys are told apart |
| `Refusals.UnknownTypeRefused` | rust/crates/wire-mesh-wire/src/frame.rs:218-271 | A map with an unknown `type` is refused for it |
| `Refusals.NoTypeRefused` | rust/crates/wire-mesh-wire/src/frame.rs:218-235 | A map without a `type` is refused for that |
| `Refusals.TrailingRefused` | rust/crates/wire-mesh-wire/src/frame.rs:136-148 | A frame with anything after it is refused for that |
| `Refusals.OutcomeRefused` | rust/crates/wire-mesh-wire/src/management.rs:364-414 | Unknown results, missing or ill-typed codes and surplus entries are told apart |
| `Adverts.TokenClaimsBijective` | rust/crates/wire-mesh-wire/src/tokens.rs:538-661 | Claims survive encoding and decoding if and only if they are well formed, which asks of the open tail that it avoids the fifteen typed names; accepted bytes re-encode to themselves |
| `Adverts.HeadersBijective` | rust/crates/wire-mesh-wire/src/tokens.rs:261-324 | The same for COSE headers with integer and text labels |
| `Adverts.TextOneIsNotOne` | rust/crates/wire-mesh-wire/src/tokens.rs:225-259 | Integer label 1 and text label "1" stand side by side and stay apart |
| `Adverts.SigningInputInjective` | rust/crates/wire-mesh-wire/src/transport.rs:186-224 | Two adverts have one signing input if and only if they agree on every field but the signature and on the tail |
| `Adverts.SigningInputRemovesOne` | rust/crates/wire-mesh-wire/src/transport.rs:186-236 | The signed bytes are the wire encoding with exactly the signature entry removed |
| `Transport.PeerAdvertSigningInput` | rust/crates/wire-mesh-wire/src/transport.rs:191-224 | Computes that signing input through the builder |
| `Transport.SigningInputIsNoFrame` | rust/crates/wire-mesh-wire/src/transport.rs:209-225 | What is signed starts with the context and is never an accepted frame |
| `Transport.ContextBytes` | rust/crates/wire-mesh-wire/src/transport.rs:151 | The context, byte by byte |
| `Transcript.TranscriptDigest` | rust/crates/wire-mesh-threshold/src/dkg.rs:146-157 | Feeds the hasher the entries in order and the key, with no lengths or counts |
| `Transcript.KeyLast` | rust/crates/wire-mesh-threshold/src/reshare.rs:251-262 | The last 32 bytes hashed are the group key |
| `Transcript.EntryFed` | rust/crates/wire-mesh-threshold/src/reshare.rs:251-262 | Each entry is hashed after those before it, its identifier and then its body |
| `Transcript.FreshTranscriptInjective` | rust/crates/wire-mesh-threshold/src/dkg.rs:128-157 | With prefix-free, non-empty package encodings the hashed string determines every package, their number and the key |
| `Transcript.ReshareTranscriptInjective` | rust/crates/wire-mesh-threshold/src/reshare.rs:251-262 | The hashed string determines every commitment and the key, unless two different survivor counts give the same number of hashed blocks |
| `TranscriptShapes.ShapesCollideIff` | rust/crates/wire-mesh-threshold/src/reshare.rs:251-262 | m survivors with d points and n with e points, identifiers in order, can hash alike from different commitments or keys if and only if m and n differ, m (d + 1) equals n (e + 1), and there are identifiers for that many survivors |
| `TranscriptShapes.ReshareTranscriptAmbiguous` | rust/crates/wire-mesh-threshold/src/reshare.rs:251-262 | The smallest such case for any points: one survivor with three points against two with one each, identifiers ascending |
| `Ceremony.StepKeeps` | rust/crates/wire-mesh-threshold/src/keygen_network.rs:520-660 | Every step keeps: records match programs, confirms match outcomes, what was received from an honest device is what it sent, and a key is held only with shares the library accepted |
| `Ceremony.OutcomeChecked` | rust/crates/wire-mesh-threshold/src/keygen_network.rs:607-620 | In every run, an honest member with a key holds a package of every dealer and a share of every other dealer that the library accepted together, the ones honest dealers sent |
| `Ceremony.RefusedSharesFail` | rust/crates/wire-mesh-threshold/src/keygen_network.rs:616-617 | A member whose shares the library refuses fails at that point, without a key |
| `Ceremony.Agreement` | rust/crates/wire-mesh-threshold/src/keygen_network.rs:540-662 | In every run with any equivocating peers: if one honest member returns a key, every other honest member derived it from the same packages, and in a reshare it is the existing key |
| `CeremonyPrograms.FreshAgreement` | rust/crates/wire-mesh-threshold/src/dkg.rs:146-175 | Agreement for fresh key generation |
| `CeremonyPrograms.ReshareAgreement` | rust/crates/wire-mesh-threshold/src/keygen_network.rs:876-968 | Agreement for joining a reshare, with the existing group key |
| `CeremonyPrograms.FreshChoreography` | rust/crates/wire-mesh-threshold/src/keygen_network.rs:553-661 | The fresh program sends and awaits what the others await and send, round by round |
| `CeremonyPrograms.ReshareChoreography` | rust/crates/wire-mesh-threshold/src/keygen_network.rs:757-968 | The same for survivors dealing beside members that join |
| `CeremonyProgress.NoDeadlock` | rust/crates/wire-mesh-threshold/src/keygen_network.rs:386-465 | When all are honest, some step is enabled until every device has finished |
| `CeremonyProgress.EveryRunCompletes` | rust/crates/wire-mesh-threshold/src/keygen_network.rs:553-661 | Every all-honest run can be continued until it has a fixed number of steps, and then every device has finished |
| `CeremonyProgress.AllFinishAlike` | rust/crates/wire-mesh-threshold/src/keygen_network.rs:553-661 | And each member that finished has succeeded, with everyone's own packages and their group key |
| `CeremonyPrograms.FreshCompletes` | rust/crates/wire-mesh-threshold/src/keygen_network.rs:540-662 | For N devices that is exactly 6 N (N - 1) sends and awaits and two local stages each |
| `CeremonyPrograms.ReshareCompletes` | rust/crates/wire-mesh-threshold/src/keygen_network.rs:702-968 | The same for an all-honest reshare |
| `Mailbox.PerDeviceCollector.Deliver` | rust/crates/wire-mesh-threshold/src/keygen_network.rs:250-259 | Buffers the value and wakes exactly the waiter parked for that peer |
| `Mailbox.PerDeviceCollector.Fail` | rust/crates/wire-mesh-threshold/src/keygen_network.rs:261-270 | Records the failure and wakes every registered waker |
| `Mailbox.PerDeviceCollector.PollFrom` | rust/crates/wire-mesh-threshold/src/keygen_network.rs:288-308 | A buffered value first, else the failure, else parks |
| `Mailbox.NoLostWakeup` | rust/crates/wire-mesh-threshold/src/keygen_network.rs:209-308 | For every waiter parked after any run: the next delivery from its peer wakes it if and only if no other poll for that peer has parked since; then nothing is buffered or failed, and a failure wakes it too |
| `Mailbox.SleepsThrough` | rust/crates/wire-mesh-threshold/src/keygen_network.rs:305-306 | Two tasks waiting for one peer: the first sleeps through the delivery |
| `Mailbox.ReturnedOnce` | rust/crates/wire-mesh-threshold/src/keygen_network.rs:250-308 | No delivery is returned twice in any run |
| `Mailbox.NewestReturned` | rust/crates/wire-mesh-threshold/src/keygen_network.rs:250-259 | The newest delivery from a peer is what the next poll for it returns |
| `Mailbox.FailureReported` | rust/crates/wire-mesh-threshold/src/keygen_network.rs:261-270 | After a failure a poll with nothing buffered reports its reason |
| `Mailbox.BufferedStays` | rust/crates/wire-mesh-threshold/src/keygen_network.rs:288-308 | A buffered value is what the peer's next poll returns, whatever happened elsewhere, failures included |
| `Signing.InMemoryNonceStore.Persist` | rust/crates/wire-mesh-threshold/src/nonce_store.rs:99-106 | One nonce pair per session; a second is refused and the first kept |
| `Signing.InMemoryNonceStore.Take` | rust/crates/wire-mesh-threshold/src/nonce_store.rs:108-113 | Returned and removed at once |
| `Signing.InMemoryNonceStore.Discard` | rust/crates/wire-mesh-threshold/src/nonce_store.rs:115-119 | Removed without being returned |
| `Signing.Participant.HandleCommit` | rust/crates/wire-mesh-threshold/src/network.rs:374-408 | Succeeds exactly when in time, for a known group, authorised, without a stored nonce and with commitments that split; if only splitting fails, the nonce stays stored and no state is filed |
| `Signing.Participant.HandleSign` | rust/crates/wire-mesh-threshold/src/network.rs:415-443 | Takes the state, then the nonce: once the package is built the nonce is gone, whatever the library answers; releases a share of that nonce over that state, or nothing, and tells each failure apart |
| `Signing.Participant.HandleAbort` | rust/crates/wire-mesh-threshold/src/network.rs:445-451 | Drops the nonce and keeps the session's state |
| `Signing.SignAfterAbort` | rust/crates/wire-mesh-threshold/src/network.rs:445-451 | A sign right after an abort uses up the state left behind and releases nothing |
| `Signing.NonceBacksOneShare` | rust/crates/wire-mesh-threshold/src/signing.rs:90-120 | In every run of commits, signs and aborts, each round in its two critical sections, a nonce pair backs at most one released share |
| `Signing.AttemptUsesNonce` | rust/crates/wire-mesh-threshold/src/signing.rs:111-120 | An attempt to sign uses the nonce up, so the session can be committed to again; only a package that cannot be built leaves it |
| `Signing.TakenForGood` | rust/crates/wire-mesh-threshold/src/nonce_store.rs:108-113 | In every run, once a request has taken a nonce no later state stores it |
| `Signing.MessageBoundIff` | rust/crates/wire-mesh-threshold/src/signing.rs:102-120 | For every share of every run, where its request took its state and its nonce, and which commits had filed and stored them: they are the same commit if and only if no commit stored a nonce on the session after the first stored its own and before the nonce was taken; the share is over the message its nonce was authorised for if and only if the two commits carry the same message |
| `Signing.DispatchBindsMessages` | rust/crates/wire-mesh-threshold/src/network.rs:581-650 | With requests handled one at a time, a share is under the nonce of the commit whose message it signs if and only if the last commit request to store a nonce on the session could split its commitments |
| `Signing.OvertakenRequest` | rust/crates/wire-mesh-threshold/src/network.rs:622-650 | A run in which they differ: an abort and a new commit while a sign is being handled |
| `Signing.UnfiledNonce` | rust/crates/wire-mesh-threshold/src/network.rs:608-615 | Another: after an abort, a sign between a commit storing its nonce and filing its state |
| `Signing.StrandedNonce` | rust/crates/wire-mesh-threshold/src/network.rs:395-398 | The same with one request at a time, when splitting the commitments fails |
| `Coordinator.NetworkThresholdCoordinator.CommitRound` | rust/crates/wire-mesh-threshold/src/network.rs:183-236 | Returns the commitments each participant that answered for itself sent, under its identifier, all of them and nothing else, and remembers whom each identifier belongs to; fails exactly on a transport error |
| `Coordinator.LastRemembered` | rust/crates/wire-mesh-threshold/src/network.rs:226-227 | Of participants with one identifier the last that answered is remembered |
| `Coordinator.NetworkThresholdCoordinator.SignRound` | rust/crates/wire-mesh-threshold/src/network.rs:238-312 | Keeps exactly the shares in envelopes that name this session, this group and the asked device, each under the identifier asked; the lookup is consumed; exactly when it fails, and how |
| `Coordinator.SessionSound` | rust/crates/wire-mesh-threshold/src/network.rs:183-312 | Over both rounds: the commitments are the participants' own, the shares have distinct signers that answered both rounds, and none is missing |
| `Coordinator.ThresholdIdentity.SignSubject` | rust/crates/wire-mesh-threshold/src/identity.rs:156-194 | A session number of its own, the quorum check between the rounds, and only matching shares; exactly when it succeeds, and what is remembered afterwards: a failed quorum check leaves the session's lookup behind |
| `Coordinator.SessionsDistinct` | rust/crates/wire-mesh-threshold/src/identity.rs:157-160 | Two calls share a session number if and only if they are a whole number of counter wraps apart |
| `Coordinator.UnwrapShares` | rust/crates/wire-mesh-threshold/src/signing.rs:218-243 | Succeeds exactly when every envelope verifies, is for this session and group, from a known issuer and holds a share |
| `Coordinator.LastShareWins` | rust/crates/wire-mesh-threshold/src/signing.rs:218-243 | Under each identifier is the share of the last envelope from it, and nothing else |
| `Coordinator.NoShareLost` | rust/crates/wire-mesh-threshold/src/signing.rs:218-243 | From different issuers every share arrives under its issuer's identifier |
| `Scope.WithinIffSegments` | rust/crates/wire-mesh-wire/src/tokens.rs:153-175 | Narrowing: same kind, the segments of the parent start those of the child, and none of them is `.` or `..` |
| `Scope.RelativeNeverNarrows` | rust/crates/wire-mesh-wire/src/tokens.rs:163-175 | With `.` or `..` among the segments of either path nothing narrows a parent with a path |
| `Scope.SplitUnique` | rust/crates/wire-mesh-wire/src/tokens.rs:171-175 | Splitting gives the only segments without a slash that join to the path |
| `Scope.WithinTransitive` | rust/crates/wire-mesh-wire/src/tokens.rs:136-167 | Narrowing is transitive |
| `Scope.ChainNarrows` | rust/crates/wire-mesh-wire/src/tokens.rs:136-167 | Along a delegation chain of any length the leaf narrows the root |
| `Scope.PrefixIsNotEnough` | rust/crates/wire-mesh-wire/src/tokens.rs:145-146 | `/workbook` is not within `/work` |
| `Scope.RelativeParentExcluded` | rust/crates/wire-mesh-wire/src/tokens.rs:169-174 | A child without relative segments never extends a parent that has one |

## Left out

- FROST signing equations, the internals of DKG parts 1 to 3, Ed25519, ES256 and random numbers: library code; the ceremony takes the library's answers as functions of what a device has received.
- SHA-256 is a constructor, so digests of distinct inputs differ; `identifier_for_device` is taken injective where a result needs it.
- Share envelopes and capability tokens are taken as already verified or not; signatures are not modelled.
- Transcript.FreshTranscriptInjective: the package encoding of the FROST library is any prefix-free set of non-empty strings.
- Reshare.Round1Reshare: the fresh coefficients are a parameter; nothing is said about their distribution.
- Ceremony.Agreement: a send and its delivery are one step; lost acknowledgements are a delivery followed by a break.
- Ceremony.StepKeeps: session numbers are left out of messages, because handlers turn away any other session without a change of state.
- CeremonyProgress.NoDeadlock: that an enabled step is eventually taken is left to the executor.
- Signing.MessageBoundIff: deadlines and the content policy are one authorised-or-not answer per request.
- Coordinator.NetworkThresholdCoordinator.CommitRound: what a request carries is left out; what comes back is any function of the device.
- Coordinator.ThresholdIdentity.SignSubject: participants are taken distinct, which the code leaves to its caller; the aggregate signature itself is left out.
- Decoders.Decoder.SkipItem: skipping an item is library code; the method takes its result from the specification of that library.
- TranscriptShapes.ShapesCollideIff: any 32 bytes count as an encoded point; which of them the curve accepts is not modelled.
- Decoders.Decoder.DefiniteCount: recursion depth and allocation of very large counts are not modelled.
- Decoding.DecodeTable: error payloads are dropped; error kinds are kept, the missing-field and unknown-key names are not.
- Standalone frame decoders, which do not ask for `type`: canonical form is stated for whole frames.
- Frame validation of domains, verbs and scopes after decoding, and capability-verb syntax.
- Record types outside frames (handle claims, revocation claims, room notices, peer identities): more tables of the same kind.
- Wall-clock time, transport, storage durability and the wasm and TypeScript packages.
