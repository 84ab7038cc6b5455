/**
  Header labels, which are integers or texts: exactly when the code's
  length-first key order and the bytewise order of section 4.2.1 of RFC 8949
  put two of them the same way round.
 */
module Labels {
  import opened Common
  import opened Cbor
  import opened CdeOrder
  import opened Value
  import opened Schema

  /** The CBOR major type of a label. */
  function Major(l: Label): nat {
    match l
    case IntLabel(i) => if i >= 0 then 0 else 1
    case TextLabel(_) => 3
  }

  /** The argument of its head. */
  function Argument(l: Label): nat {
    match l
    case IntLabel(i) => if i >= 0 then i else -1 - i
    case TextLabel(x) => |x|
  }

  function Body(l: Label): Bytes {
    match l
    case IntLabel(_) => []
    case TextLabel(x) => x
  }

  lemma LabelParts(l: Label)
    requires ValidLabel(true, l)
    ensures EncodeLabel(l) == HeadBytes(Major(l), Argument(l)) + Body(l) && Argument(l) < U64
    ensures EncodeLabel(l) != [] && EncodeLabel(l)[0] / 32 == Major(l)
  {
    HeadStarts(Major(l), Argument(l), Body(l));
    hide HeadBytes;
    if l.IntLabel? {
      assert HeadBytes(Major(l), Argument(l)) + [] == HeadBytes(Major(l), Argument(l));
    }
  }

  /** Encodings of one major type are no shorter for a larger argument. */
  lemma LongerArgument(l: Label, m: Label)
    requires Major(l) == Major(m) && Argument(l) < Argument(m)
    ensures |EncodeLabel(l)| <= |EncodeLabel(m)|
  {
  }

  /** Labels of one major type with different arguments: both orders follow the argument. */
  lemma ArgumentDecides(l: Label, m: Label)
    requires ValidLabel(true, l) && ValidLabel(true, m) && Major(l) == Major(m) && Argument(l) < Argument(m)
    ensures LexLess(EncodeLabel(l), EncodeLabel(m)) && CdeLess(EncodeLabel(l), EncodeLabel(m))
    ensures !LexLess(EncodeLabel(m), EncodeLabel(l)) && !CdeLess(EncodeLabel(m), EncodeLabel(l))
  {
    LabelParts(l);
    LabelParts(m);
    LongerArgument(l, m);
    hide HeadBytes, EncodeLabel, MinimalHeadLen;
    HeadsMonotone(Major(l), Argument(l), Argument(m), Body(l), Body(m));
    LexTrichotomy(EncodeLabel(l), EncodeLabel(m));
    CdeTrichotomy(EncodeLabel(l), EncodeLabel(m));
  }

  /** Of different major types, the smaller is always first bytewise. */
  lemma MajorDecides(l: Label, m: Label)
    requires ValidLabel(true, l) && ValidLabel(true, m) && Major(l) < Major(m)
    ensures LexLess(EncodeLabel(l), EncodeLabel(m)) && !LexLess(EncodeLabel(m), EncodeLabel(l))
    ensures CdeLess(EncodeLabel(l), EncodeLabel(m)) <==> |EncodeLabel(l)| <= |EncodeLabel(m)|
    ensures CdeLess(EncodeLabel(m), EncodeLabel(l)) <==> |EncodeLabel(m)| < |EncodeLabel(l)|
  {
    LabelParts(l);
    LabelParts(m);
    hide HeadBytes, EncodeLabel, MinimalHeadLen;
    assert EncodeLabel(l)[0] < EncodeLabel(m)[0];
  }

  /** Both orders put the two labels the same way round. */
  predicate OrderedAlike(l: Label, m: Label) {
    && (CdeLess(EncodeLabel(l), EncodeLabel(m)) <==> LexLess(EncodeLabel(l), EncodeLabel(m)))
    && (CdeLess(EncodeLabel(m), EncodeLabel(l)) <==> LexLess(EncodeLabel(m), EncodeLabel(l)))
  }

  /** The smaller major type has the longer encoding. */
  predicate Crossed(l: Label, m: Label) {
    Major(l) < Major(m) && |EncodeLabel(l)| > |EncodeLabel(m)|
  }

  /** Equal arguments in one major type: one integer, or two texts of one length. */
  lemma SameArgument(l: Label, m: Label)
    requires ValidLabel(true, l) && ValidLabel(true, m) && Major(l) == Major(m) && Argument(l) == Argument(m)
    ensures OrderedAlike(l, m)
  {
    LabelParts(l);
    LabelParts(m);
    hide HeadBytes, EncodeLabel, MinimalHeadLen;
    assert |Body(l)| == |Body(m)|;
  }

  /**
    For all header labels: the two orders agree on a pair unless the label of
    the smaller major type has the longer encoding, and then they never do.
   */
  lemma LabelOrdersAgreeIff(l: Label, m: Label)
    requires ValidLabel(true, l) && ValidLabel(true, m)
    ensures OrderedAlike(l, m) <==> !Crossed(l, m) && !Crossed(m, l)
  {
    hide EncodeLabel, ValidLabel;
    if Major(l) < Major(m) {
      MajorDecides(l, m);
    } else if Major(m) < Major(l) {
      MajorDecides(m, l);
    } else if Argument(l) < Argument(m) {
      ArgumentDecides(l, m);
    } else if Argument(m) < Argument(l) {
      ArgumentDecides(m, l);
    } else {
      SameArgument(l, m);
    }
  }

  /** The integer 24 comes before the empty text bytewise and after it length-first; so it does with -1. */
  lemma LabelOrdersDiffer()
    ensures CdeLess(TextItem([]), IntBytes(24)) && LexLess(IntBytes(24), TextItem([]))
    ensures CdeLess(IntBytes(-1), IntBytes(24)) && LexLess(IntBytes(24), IntBytes(-1))
  {
    MajorDecides(IntLabel(24), TextLabel([]));
    MajorDecides(IntLabel(24), IntLabel(-1));
  }
}
