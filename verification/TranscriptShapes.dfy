/**
  Exactly which shapes of reshare transcript can be confused: `m` survivors
  with `d` points each against `n` survivors with `e` points each.
 */
module TranscriptShapes {
  import opened Common
  import opened Transcript
  import Cbor

  // --- identifiers as numbers --------------------------------------------------------------

  /** The scalar a serialized identifier stands for: little-endian. */
  function Number(s: Bytes): nat {
    if s == [] then 0 else s[0] + 256 * Number(s[1..])
  }

  function Digits(v: nat, k: nat): (r: Bytes)
    ensures |r| == k
  {
    if k == 0 then [] else [v % 256] + Digits(v / 256, k - 1)
  }

  lemma {:induction false} NumberOfDigits(v: nat, k: nat)
    requires v < Cbor.Pow256(k)
    ensures Number(Digits(v, k)) == v
  {
    if k > 0 {
      NumberOfDigits(v / 256, k - 1);
      assert Digits(v, k)[1..] == Digits(v / 256, k - 1);
    }
  }

  /** Identifiers are non-zero scalars below the group order `p`, and a map lists them in order. */
  predicate Ordered(p: nat, cs: seq<Commitment>) {
    && (forall i :: 0 <= i < |cs| ==> 0 < Number(cs[i].id) < p)
    && forall i, j :: 0 <= i < j < |cs| ==> Number(cs[i].id) < Number(cs[j].id)
  }

  /** What `m` survivors with `d` points each can broadcast. */
  predicate Family(p: nat, cs: seq<Commitment>, m: nat, d: nat) {
    |cs| == m && Uniform(cs, d) && Ordered(p, cs)
  }

  /** There are only so many identifiers. */
  lemma {:induction false} OrderedGrows(p: nat, cs: seq<Commitment>, i: nat)
    requires Ordered(p, cs) && i < |cs|
    ensures i < Number(cs[i].id)
  {
    hide Number;
    if i > 0 { OrderedGrows(p, cs, i - 1); }
  }

  lemma FamilyFits(p: nat, cs: seq<Commitment>, m: nat, d: nat)
    requires 0 < p && Family(p, cs, m, d)
    ensures m < p
  {
    hide Number;
    if m > 0 { OrderedGrows(p, cs, m - 1); }
  }

  // --- one string of blocks, cut in two ways -------------------------------------------------

  // Products and quotients go by name, to keep arithmetic out of the proofs about rows.

  function Times(j: nat, w: nat): nat {
    j * w
  }

  function Lane(i: nat, w: nat): nat
    requires w > 0
  {
    i / w
  }

  lemma NextRow(j: nat, w: nat)
    ensures Times(j + 1, w) == Times(j, w) + w
  {
  }

  lemma {:induction false} RowFits(j: nat, m: nat, w: nat)
    requires j < m
    ensures Times(j + 1, w) == Times(j, w) + w && Times(j + 1, w) <= Times(m, w)
  {
    hide Times;
    NextRow(j, w);
    if j + 1 < m {
      RowFits(j, m - 1, w);
      NextRow(m - 1, w);
    }
  }

  /** Row `j` of the blocks: an identifier and `d` points. */
  function Row(blocks: seq<Block>, m: nat, d: nat, j: nat): (c: Commitment)
    requires |blocks| == Times(m, d + 1) && j < m
    ensures |c.points| == d
  {
    RowFits(j, m, d + 1);
    Commitment(blocks[Times(j, d + 1)], blocks[Times(j, d + 1) + 1..Times(j + 1, d + 1)])
  }

  function Rows(blocks: seq<Block>, m: nat, d: nat): (cs: seq<Commitment>)
    requires |blocks| == Times(m, d + 1)
    ensures |cs| == m && forall j :: 0 <= j < m ==> cs[j] == Row(blocks, m, d, j)
  {
    seq(m, j requires 0 <= j < m => Row(blocks, m, d, j))
  }

  lemma {:induction false} WholeAppend(x: seq<Block>, y: seq<Block>)
    ensures Whole(x + y) == Whole(x) + Whole(y)
  {
    if x == [] {
      assert x + y == y;
    } else {
      WholeAppend(x[1..], y);
      assert (x + y)[1..] == x[1..] + y;
      Regroup(x[0], Whole(x[1..]), Whole(y));
    }
  }

  /** However the blocks are cut into rows, the hasher is fed the same string. */
  lemma {:induction false} RowsFed(blocks: seq<Block>, m: nat, d: nat, j: nat, key: Block)
    requires |blocks| == Times(m, d + 1) && j <= m
    ensures Times(j, d + 1) <= |blocks|
    ensures Fed(Entries(Rows(blocks, m, d)[j..]), key) == Whole(blocks[Times(j, d + 1)..]) + key
    decreases m - j
  {
    hide Whole, Times;
    var cs := Rows(blocks, m, d);
    if j == m {
      assert cs[j..] == [] && blocks[Times(j, d + 1)..] == [];
      NothingFed(key);
    } else {
      RowFits(j, m, d + 1);
      RowsFed(blocks, m, d, j + 1, key);
      assert cs[j..][1..] == cs[j + 1..];
      RowOnString(cs[j..], blocks, Times(j, d + 1), Times(j + 1, d + 1), key);
    }
  }

  /** One row in front of the rest. */
  lemma RowOnString(cs: seq<Commitment>, blocks: seq<Block>, lo: nat, hi: nat, key: Block)
    requires cs != [] && lo < hi <= |blocks| && cs[0] == Commitment(blocks[lo], blocks[lo + 1..hi])
    requires Fed(Entries(cs[1..]), key) == Whole(blocks[hi..]) + key
    ensures Fed(Entries(cs), key) == Whole(blocks[lo..]) + key
  {
    hide Fed, Entries, Whole;
    RowFed(cs, key);
    var points, rest := blocks[lo + 1..hi], blocks[hi..];
    assert blocks[lo..] == [blocks[lo]] + (points + rest);
    WholeCons(blocks[lo], points + rest);
    WholeAppend(points, rest);
    Reassociate(blocks[lo], Whole(points), Whole(rest), key);
  }

  lemma NothingFed(key: Block)
    ensures Fed(Entries([]), key) == Whole([]) + key
  {
    assert [] + key == key;
  }

  lemma RowFed(cs: seq<Commitment>, key: Block)
    requires cs != []
    ensures Fed(Entries(cs), key) == cs[0].id + Whole(cs[0].points) + Fed(Entries(cs[1..]), key)
  {
    assert Entries(cs)[1..] == Entries(cs[1..]);
  }

  lemma WholeCons(b: Block, rest: seq<Block>)
    ensures Whole([b] + rest) == b + Whole(rest)
  {
    assert ([b] + rest)[1..] == rest;
  }

  lemma Reassociate(a: Bytes, b: Bytes, c: Bytes, d: Bytes)
    ensures a + b + (c + d) == a + (b + c) + d
  {
  }

  lemma NoRows(w: nat)
    ensures Times(0, w) == 0
  {
  }

  lemma SameString(blocks: seq<Block>, m: nat, d: nat, n: nat, e: nat, key: Block)
    requires |blocks| == Times(m, d + 1) == Times(n, e + 1)
    ensures Fed(Entries(Rows(blocks, m, d)), key) == Fed(Entries(Rows(blocks, n, e)), key)
  {
    hide Fed, Entries, Whole, Rows, Times;
    RowsFed(blocks, m, d, 0, key);
    RowsFed(blocks, n, e, 0, key);
    NoRows(d + 1);
    NoRows(e + 1);
    assert Rows(blocks, m, d)[0..] == Rows(blocks, m, d) && Rows(blocks, n, e)[0..] == Rows(blocks, n, e);
  }

  // --- blocks that are in order either way ------------------------------------------------------

  /** Block `i` is numbered by the short row it is in, so both cuts list identifiers in order. */
  function Numbered(count: nat, w: nat): (blocks: seq<Block>)
    requires w > 0
    ensures |blocks| == count && forall i :: 0 <= i < count ==> blocks[i] == Digits(Lane(i, w) + 1, 32)
  {
    seq(count, i requires 0 <= i < count => Digits(Lane(i, w) + 1, 32))
  }

  lemma LaneGrows(x: nat, y: nat, w: nat)
    requires w > 0 && x + w <= y
    ensures Lane(x, w) < Lane(y, w)
  {
    var q, r := x / w, y / w;
    assert x == w * q + x % w && y == w * r + y % w;
    Ratio(w, q + 1, r);
  }

  lemma Ratio(w: int, q: int, r: int)
    requires w > 0 && w * q < w * r + w
    ensures q <= r
  {
    if q > r { ScaleGrows(w, q, r); }
  }

  lemma ScaleGrows(w: int, q: int, r: int)
    requires w > 0 && q > r
    ensures w * q >= w * r + w
  {
    var gap := q - r - 1;
    assert q == r + 1 + gap;
    assert w * (r + 1 + gap) == w * r + w + w * gap;
  }

  lemma LaneBelow(x: nat, n: nat, w: nat)
    requires w > 0 && x < Times(n, w)
    ensures Lane(x, w) < n
  {
    var q := x / w;
    assert x == w * q + x % w;
    Ratio(w, q + 1, n);
  }

  lemma NumberedId(p: nat, n: nat, w: nat, i: nat)
    requires 0 < p <= Cbor.Pow256(32) && w > 0 && n < p && i < Times(n, w)
    ensures Number(Numbered(Times(n, w), w)[i]) == Lane(i, w) + 1 < p
  {
    hide Times, Lane, Number, Digits, Cbor.Pow256;
    LaneBelow(i, n, w);
    NumberOfDigits(Lane(i, w) + 1, 32);
  }

  /** Rows at least as long as the numbering's start at ever larger numbers. */
  lemma NumberedFamily(p: nat, m: nat, d: nat, n: nat, e: nat)
    requires 0 < p <= Cbor.Pow256(32) && Times(m, d + 1) == Times(n, e + 1) && n < p && e <= d
    ensures Family(p, Rows(Numbered(Times(n, e + 1), e + 1), m, d), m, d)
  {
    hide Number, Numbered, Digits, Times, Lane, Cbor.Pow256;
    var blocks := Numbered(Times(n, e + 1), e + 1);
    var cs := Rows(blocks, m, d);
    forall j | 0 <= j < m
      ensures 0 < Number(cs[j].id) < p
    {
      RowNumber(p, m, d, n, e, j);
    }
    forall i, j | 0 <= i < j < m
      ensures Number(cs[i].id) < Number(cs[j].id)
    {
      RowNumber(p, m, d, n, e, i);
      RowNumber(p, m, d, n, e, j);
      RowFits(i, j, d + 1);
      LaneGrows(Times(i, d + 1), Times(j, d + 1), e + 1);
    }
  }

  lemma RowNumber(p: nat, m: nat, d: nat, n: nat, e: nat, j: nat)
    requires 0 < p <= Cbor.Pow256(32) && Times(m, d + 1) == Times(n, e + 1) && n < p && j < m
    ensures Number(Rows(Numbered(Times(n, e + 1), e + 1), m, d)[j].id) == Lane(Times(j, d + 1), e + 1) + 1 < p
  {
    hide Number, Numbered, Digits, Times, Lane, Cbor.Pow256;
    RowFits(j, m, d + 1);
    NumberedId(p, n, e + 1, Times(j, d + 1));
  }

  // --- the exact condition -------------------------------------------------------------------------

  /** Different commitments or keys, one hashed string. */
  ghost predicate Confused(p: nat, m: nat, d: nat, n: nat, e: nat,
                           a: seq<Commitment>, b: seq<Commitment>, k: Block, l: Block) {
    Family(p, a, m, d) && Family(p, b, n, e) && (a != b || k != l) && Fed(Entries(a), k) == Fed(Entries(b), l)
  }

  ghost predicate CanCollide(p: nat, m: nat, d: nat, n: nat, e: nat) {
    exists a, b, k, l :: Confused(p, m, d, n, e, a, b, k, l)
  }

  lemma LongerRowsCollide(p: nat, m: nat, d: nat, n: nat, e: nat, key: Block)
    requires 0 < p <= Cbor.Pow256(32) && m != n && Times(m, d + 1) == Times(n, e + 1) && n < p && e <= d
    ensures var blocks := Numbered(Times(n, e + 1), e + 1);
            Confused(p, m, d, n, e, Rows(blocks, m, d), Rows(blocks, n, e), key, key)
  {
    hide Numbered, Ordered, Uniform, Fed, Entries;
    NumberedFamily(p, m, d, n, e);
    NumberedFamily(p, n, e, n, e);
    SameString(Numbered(Times(n, e + 1), e + 1), m, d, n, e, key);
  }

  lemma ConfusedSwaps(p: nat, m: nat, d: nat, n: nat, e: nat, a: seq<Commitment>, b: seq<Commitment>, k: Block, l: Block)
    requires Confused(p, m, d, n, e, a, b, k, l)
    ensures Confused(p, n, e, m, d, b, a, l, k)
  {
  }

  /**
    Two shapes of reshare can produce one hashed string from different
    commitments exactly when the survivor counts differ, the numbers of hashed
    blocks do not, and there are identifiers for that many survivors.
   */
  lemma ShapesCollideIff(p: nat, m: nat, d: nat, n: nat, e: nat)
    requires 0 < p <= Cbor.Pow256(32)
    ensures CanCollide(p, m, d, n, e) <==> m != n && m * (d + 1) == n * (e + 1) && m < p && n < p
  {
    hide Fed, Entries, Numbered, Rows, Ordered;
    if CanCollide(p, m, d, n, e) {
      var a, b, k, l :| Confused(p, m, d, n, e, a, b, k, l);
      FamilyFits(p, a, m, d);
      FamilyFits(p, b, n, e);
      if m == n || m * (d + 1) != n * (e + 1) { ReshareTranscriptInjective(a, b, k, l, d, e); }
    }
    if m != n && m * (d + 1) == n * (e + 1) && m < p && n < p {
      var key: Block := Digits(0, 32);
      if e <= d {
        LongerRowsCollide(p, m, d, n, e, key);
      } else {
        LongerRowsCollide(p, n, e, m, d, key);
        var blocks := Numbered(Times(m, d + 1), d + 1);
        ConfusedSwaps(p, n, e, m, d, Rows(blocks, n, e), Rows(blocks, m, d), key, key);
      }
    }
  }

  /** The smallest case, for any blocks: one survivor with three points, and two with one. */
  lemma ReshareTranscriptAmbiguous(p: nat, id: Block, x: Block, q: Block, y: Block, key: Block)
    requires 0 < Number(id) < Number(q) < p
    ensures Confused(p, 1, 3, 2, 1, [Commitment(id, [x, q, y])], [Commitment(id, [x]), Commitment(q, [y])], key, key)
  {
    var blocks := [id, x, q, y];
    FourBlocks(id, x, q, y);
    hide Number, Row, Rows;
    assert Rows(blocks, 1, 3) == [Commitment(id, [x, q, y])];
    assert Rows(blocks, 2, 1) == [Commitment(id, [x]), Commitment(q, [y])];
    SameString(blocks, 1, 3, 2, 1, key);
  }

  lemma FourBlocks(id: Block, x: Block, q: Block, y: Block)
    ensures Times(1, 4) == Times(2, 2) == 4
    ensures var blocks := [id, x, q, y];
            && Row(blocks, 1, 3, 0) == Commitment(id, [x, q, y])
            && Row(blocks, 2, 1, 0) == Commitment(id, [x]) && Row(blocks, 2, 1, 1) == Commitment(q, [y])
  {
    var blocks := [id, x, q, y];
    assert Times(0, 2) == 0 && Times(1, 2) == 2 && Times(2, 2) == 4 && Times(0, 4) == 0 && Times(1, 4) == 4;
    assert blocks[0 + 1..2] == [x];
    assert blocks[2 + 1..4] == [y];
    assert blocks[0 + 1..4] == [x, q, y];
  }
}
