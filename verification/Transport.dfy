/**
  The entry points of the codec: whole frames from and to bytes, and the bytes
  a peer advert signs.
 */
module Transport {
  import opened Common
  import opened Cbor
  import opened CdeOrder
  import opened Value
  import opened Schema
  import opened SchemaForms
  import opened Tables
  import opened Wire
  import opened Frames
  import opened Adverts
  import opened Decoders
  import opened Decoding
  import opened Encoding

  /** `Frame::decode_bytes`: accepts exactly the canonical encodings of frames, and nothing after them. */
  method DecodeBytes(bytes: Bytes) returns (r: Decoded<Val>)
    ensures r == DecodeFrame(bytes)
    ensures r.Ok? ==> IsFrame(r.value) && bytes == Enc(FRAME, r.value, true)
    ensures r.Err? ==> forall f :: IsFrame(f) ==> bytes != Enc(FRAME, f, true)
  {
    FrameGood();
    hide Enc, WF, FRAME, DecodeShape, Good;
    var d := new Decoder(bytes);
    var frame := DecodeTable(d, FRAME);
    if frame.Ok? && d.pos != |bytes| {
      r := Err(TrailingBytes);
    } else {
      r := frame;
    }
    assert r == DecodeFrame(bytes);
    if r.Ok? {
      FrameCanonical(bytes);
    } else {
      forall f | IsFrame(f)
        ensures bytes != Enc(FRAME, f, true)
      {
        FrameDecodingOnto(f);
      }
    }
  }

  /** `Frame::encode_to_vec`: readable by a peer exactly when the frame sends no signal. */
  method EncodeToVec(f: Val) returns (bytes: Bytes)
    requires IsFrame(f)
    ensures bytes == EncodeFrame(f)
    ensures DecodeFrame(bytes) == Ok(f) <==> !SendsSignal(f)
  {
    FrameGood();
    FrameRoundTrip(f);
    hide Enc, WF, FRAME, DecodeShape, Good, SendsSignal;
    var w := new Writer();
    WriteTable(w, FRAME, f);
    assert [] + EncodeFrame(f) == EncodeFrame(f);
    return w.buf;
  }

  /** `peer_advert_signing_input`. */
  method PeerAdvertSigningInput(advert: Val) returns (bytes: Bytes)
    requires IsAdvert(advert)
    ensures advert.Record? && |advert.slots| == 5 && bytes == SigningInput(advert)
  {
    UnsignedFormed(advert);
    UnsignedGood();
    SigningInputIs(advert);
    hide *;
    var w := new Writer();
    WriteStruct(w, UNSIGNED, Unsigned(advert));
    NothingBefore(w.buf, Enc(UNSIGNED, Unsigned(advert), false));
    return SIGNING_CONTEXT + w.buf;
  }

  /** What is signed starts with the fixed words, then the map; no frame starts so. */
  lemma SigningInputIsNoFrame(advert: Val)
    requires advert.Record? && |advert.slots| == 5
    ensures SIGNING_CONTEXT <= SigningInput(advert) && DecodeFrame(SigningInput(advert)).Err?
  {
    SigningInputIs(advert);
    ContextBytes();
    var s := SigningInput(advert);
    hide SIGNING_CONTEXT, SigningInput, Enc;
    assert s[0] == SIGNING_CONTEXT[0];
    NotAMap(s);
  }

  lemma NotAMap(s: Bytes)
    requires s != [] && s[0] / 32 != 5
    ensures DecodeFrame(s).Err?
  {
    hide FRAME_CASES;
    assert ReadCount(s, 5).Err?;
  }

  /** The context of a peer advert's signature, byte by byte. */
  lemma ContextBytes()
    ensures SIGNING_CONTEXT == [119, 105, 114, 101, 45, 109, 101, 115, 104, 47, 112, 101, 101, 114, 45, 97, 100, 118, 101, 114, 116, 47, 118, 49, 0]
  {
  }

  lemma NothingBefore(buf: Bytes, bytes: Bytes)
    requires buf == [] + bytes
    ensures buf == bytes
  {
  }

  lemma SigningInputIs(advert: Val)
    requires advert.Record? && |advert.slots| == 5
    ensures SigningInput(advert) == SIGNING_CONTEXT + Enc(UNSIGNED, Unsigned(advert), false)
  {
  }

  lemma UnsignedGood()
    ensures UNSIGNED.StructShape? && GoodStruct(UNSIGNED)
  {
    UnsignedSound();
  }
}
