/**
  The echo-broadcast transcript of a key ceremony: what is hashed, that the
  hashed string determines what went in, and the comparison peers make.
  SHA-256 is modelled as a constructor, so distinct inputs have distinct
  digests.
 */
module Transcript {
  import opened Common

  /** A digest; `Other` is any 32 bytes nobody has a preimage for. */
  datatype Digest = Sha256(preimage: Bytes) | Other(n: nat)

  /** Serialized identifiers, group keys and curve points are 32 bytes. */
  type Block = b: Bytes | |b| == 32 witness seq(32, _ => 0)

  class Hasher {
    var fed: Bytes

    constructor ()
      ensures fed == []
    {
      fed := [];
    }

    method Update(bytes: Bytes)
      modifies this
      ensures fed == old(fed) + bytes
    {
      fed := fed + bytes;
    }

    function Finalize(): Digest
      reads this
    {
      Sha256(fed)
    }
  }

  /** One identifier and the serialized package or commitment filed under it. */
  datatype Entry = Entry(id: Block, body: Bytes)

  /** What the hasher is fed: entries in identifier order, then the group key, with no lengths or counts. */
  function Fed(entries: seq<Entry>, key: Block): Bytes {
    if entries == [] then key else entries[0].id + entries[0].body + Fed(entries[1..], key)
  }

  /** `transcript_digest`. */
  method TranscriptDigest(entries: seq<Entry>, key: Block) returns (digest: Digest)
    ensures digest == Sha256(Fed(entries, key))
  {
    var hasher := new Hasher();
    assert entries[0..] == entries;
    for i := 0 to |entries|
      invariant fresh(hasher) && hasher.fed + Fed(entries[i..], key) == Fed(entries, key)
    {
      ghost var before, rest := hasher.fed, Fed(entries[i + 1..], key);
      FedNext(entries, key, i);
      hasher.Update(entries[i].id);
      hasher.Update(entries[i].body);
      hide Fed;
      Feeding(before, entries[i].id, entries[i].body, rest);
    }
    hasher.Update(key);
    return hasher.Finalize();
  }

  lemma FedNext(entries: seq<Entry>, key: Block, i: nat)
    requires i < |entries|
    ensures Fed(entries[i..], key) == entries[i].id + entries[i].body + Fed(entries[i + 1..], key)
  {
    assert entries[i..][0] == entries[i] && entries[i..][1..] == entries[i + 1..];
  }

  lemma Feeding(before: Bytes, id: Bytes, body: Bytes, rest: Bytes)
    ensures before + id + body + rest == before + (id + body + rest)
  {
  }

  /** The last 32 bytes fed are the group key. */
  lemma {:induction false} KeyLast(entries: seq<Entry>, key: Block)
    ensures |Fed(entries, key)| >= 32 && Fed(entries, key)[|Fed(entries, key)| - 32..] == key
    decreases |entries|
  {
    if entries != [] {
      KeyLast(entries[1..], key);
      var rest := Fed(entries[1..], key);
      assert Fed(entries, key)[|Fed(entries, key)| - 32..] == rest[|rest| - 32..];
    }
  }

  lemma Shifted(front: Bytes, rest: Bytes, at: nat, n: nat)
    requires at + n <= |rest|
    ensures (front + rest)[|front| + at..|front| + at + n] == rest[at..at + n]
  {
  }

  /** This much of the string comes before the i-th entry. */
  function Offset(entries: seq<Entry>, i: nat): nat
    requires i <= |entries|
  {
    if i == 0 then 0 else 32 + |entries[0].body| + Offset(entries[1..], i - 1)
  }

  /** Each entry is fed after those before it: its identifier, then its body. */
  lemma {:induction false} EntryFed(entries: seq<Entry>, key: Block, i: nat)
    requires i < |entries|
    ensures var at, s, n := Offset(entries, i), Fed(entries, key), |entries[i].body|;
            at + 32 + n <= |s| && s[at..at + 32] == entries[i].id && s[at + 32..at + 32 + n] == entries[i].body
    decreases i
  {
    var front, rest := entries[0].id + entries[0].body, Fed(entries[1..], key);
    assert Fed(entries, key) == front + rest;
    if i > 0 {
      EntryFed(entries[1..], key, i - 1);
      var at := Offset(entries[1..], i - 1);
      assert Offset(entries, i) == |front| + at;
      hide Fed, Offset;
      Shifted(front, rest, at, 32);
      Shifted(front, rest, at + 32, |entries[i].body|);
    }
  }

  /** `confirm_matches`. */
  predicate ConfirmMatches(ownDigest: Digest, ownKey: Block, peerDigest: Digest, peerKey: Bytes) {
    ownDigest == peerDigest && ownKey == peerKey
  }

  // --- fresh ceremonies: package encodings that say where they end ---------------------------

  ghost predicate PrefixFree(valid: Bytes -> bool) {
    forall x, y :: valid(x) && valid(y) && x <= y ==> x == y
  }

  predicate Packages(valid: Bytes -> bool, entries: seq<Entry>) {
    forall i :: 0 <= i < |entries| ==> valid(entries[i].body) && entries[i].body != []
  }

  /** Of two prefix-free encodings at the head of one string, both are the same. */
  lemma SameHead(valid: Bytes -> bool, x: Bytes, y: Bytes, s: Bytes, t: Bytes)
    requires PrefixFree(valid) && valid(x) && valid(y) && x + s == y + t
    ensures x == y && s == t
  {
    var whole := x + s;
    assert x == whole[..|x|] && y == whole[..|y|];
    assert |x| <= |y| ==> x <= y;
    assert |y| <= |x| ==> y <= x;
    assert s == whole[|x|..] && t == whole[|y|..];
  }

  lemma Regroup(a: Bytes, b: Bytes, c: Bytes)
    ensures a + b + c == a + (b + c)
  {
  }

  lemma SplitBlock(a: Block, b: Block, s: Bytes, t: Bytes)
    requires a + s == b + t
    ensures a == b && s == t
  {
    assert a == (a + s)[..32] && b == (b + t)[..32];
    assert s == (a + s)[32..] && t == (b + t)[32..];
  }

  lemma FedLong(entries: seq<Entry>, key: Block)
    ensures |Fed(entries, key)| >= 32
    ensures entries != [] && entries[0].body != [] ==> |Fed(entries, key)| > 32
    decreases |entries|
  {
    if entries != [] { FedLong(entries[1..], key); }
  }

  /** The hashed string of a fresh ceremony determines every package, their number and the group key. */
  lemma {:induction false} FreshTranscriptInjective(valid: Bytes -> bool, a: seq<Entry>, b: seq<Entry>, k: Block, l: Block)
    requires PrefixFree(valid) && Packages(valid, a) && Packages(valid, b) && Fed(a, k) == Fed(b, l)
    ensures a == b && k == l
    decreases |a|
  {
    FedLong(a, k);
    FedLong(b, l);
    if a != [] && b != [] {
      var ra, rb := Fed(a[1..], k), Fed(b[1..], l);
      Regroup(a[0].id, a[0].body, ra);
      Regroup(b[0].id, b[0].body, rb);
      SplitBlock(a[0].id, b[0].id, a[0].body + ra, b[0].body + rb);
      SameHead(valid, a[0].body, b[0].body, ra, rb);
      FreshTranscriptInjective(valid, a[1..], b[1..], k, l);
      assert a == [a[0]] + a[1..] && b == [b[0]] + b[1..];
    }
  }

  // --- reshares: bare concatenations of points ---------------------------------------------------

  /** A survivor's commitment: `serialize_whole` writes its points with no count. */
  datatype Commitment = Commitment(id: Block, points: seq<Block>)

  function Whole(points: seq<Block>): Bytes {
    if points == [] then [] else points[0] + Whole(points[1..])
  }

  function Entries(cs: seq<Commitment>): (r: seq<Entry>)
    ensures |r| == |cs| && forall i :: 0 <= i < |cs| ==> r[i] == Entry(cs[i].id, Whole(cs[i].points))
  {
    seq(|cs|, i requires 0 <= i < |cs| => Entry(cs[i].id, Whole(cs[i].points)))
  }

  /** All commitments have `degree` points, which combining them checks. */
  predicate Uniform(cs: seq<Commitment>, degree: nat) {
    forall i :: 0 <= i < |cs| ==> |cs[i].points| == degree
  }

  lemma {:induction false} WholeLength(points: seq<Block>)
    ensures |Whole(points)| == 32 * |points|
  {
    if points != [] { WholeLength(points[1..]); }
  }

  lemma {:induction false} WholeInjective(x: seq<Block>, y: seq<Block>)
    requires |x| == |y| && Whole(x) == Whole(y)
    ensures x == y
  {
    if x != [] {
      SplitBlock(x[0], y[0], Whole(x[1..]), Whole(y[1..]));
      WholeInjective(x[1..], y[1..]);
      assert x == [x[0]] + x[1..] && y == [y[0]] + y[1..];
    }
  }

  lemma {:induction false} FedLength(cs: seq<Commitment>, key: Block, degree: nat)
    requires Uniform(cs, degree)
    ensures |Fed(Entries(cs), key)| == |cs| * (32 * (degree + 1)) + 32
    decreases |cs|
  {
    if cs != [] {
      assert Entries(cs)[1..] == Entries(cs[1..]);
      WholeLength(cs[0].points);
      FedLength(cs[1..], key, degree);
    }
  }

  lemma SameDegree(n: nat, d: nat, e: nat)
    requires n > 0 && n * (32 * (d + 1)) == n * (32 * (e + 1))
    ensures d == e
  {
    assert n * (32 * (d + 1)) - n * (32 * (e + 1)) == 32 * n * (d - e);
  }

  /**
    The hashed string of a reshare determines every commitment and the key
    unless two different survivor counts give the same number of blocks.
   */
  lemma ReshareTranscriptInjective(a: seq<Commitment>, b: seq<Commitment>, k: Block, l: Block, d: nat, e: nat)
    requires Uniform(a, d) && Uniform(b, e) && Fed(Entries(a), k) == Fed(Entries(b), l)
    requires |a| == |b| || |a| * (d + 1) != |b| * (e + 1)
    ensures a == b && k == l
  {
    FedLength(a, k, d);
    FedLength(b, l, e);
    BlockCount(|a|, d);
    BlockCount(|b|, e);
    if a != [] { SameDegree(|a|, d, e); }
    SameShapeInjective(a, b, k, l, d);
  }

  lemma BlockCount(n: nat, d: nat)
    ensures n * (32 * (d + 1)) == 32 * (n * (d + 1))
  {
  }

  lemma {:induction false} SameShapeInjective(a: seq<Commitment>, b: seq<Commitment>, k: Block, l: Block, d: nat)
    requires |a| == |b| && Uniform(a, d) && (a != [] ==> Uniform(b, d)) && Fed(Entries(a), k) == Fed(Entries(b), l)
    ensures a == b && k == l
    decreases |a|
  {
    if a != [] {
      assert Entries(a)[1..] == Entries(a[1..]) && Entries(b)[1..] == Entries(b[1..]);
      var ra, rb := Fed(Entries(a[1..]), k), Fed(Entries(b[1..]), l);
      var x, y := Whole(a[0].points), Whole(b[0].points);
      Regroup(a[0].id, x, ra);
      Regroup(b[0].id, y, rb);
      SplitBlock(a[0].id, b[0].id, x + ra, y + rb);
      WholeLength(a[0].points);
      WholeLength(b[0].points);
      assert x == (x + ra)[..|x|] && y == (y + rb)[..|y|];
      assert ra == (x + ra)[|x|..] && rb == (y + rb)[|y|..];
      WholeInjective(a[0].points, b[0].points);
      SameShapeInjective(a[1..], b[1..], k, l, d);
      assert a == [a[0]] + a[1..] && b == [b[0]] + b[1..];
    }
  }
}
