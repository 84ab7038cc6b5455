/**
  The key order of wire-mesh-wire `strict.rs` and `value.rs`: encoded length
  first, then bytewise; the sort `CdeMapBuilder::write` performs; and the
  relation to the plain bytewise order.
 */
module CdeOrder {
  import opened Common
  import opened Cbor

  predicate LexLess(a: Bytes, b: Bytes) {
    if b == [] then false
    else if a == [] then true
    else if a[0] != b[0] then a[0] < b[0]
    else LexLess(a[1..], b[1..])
  }

  /** `cde_order(a, b) == Less`. */
  predicate CdeLess(a: Bytes, b: Bytes) {
    |a| < |b| || (|a| == |b| && LexLess(a, b))
  }

  /** The first place where two strings differ. */
  predicate DiffersAt(a: Bytes, b: Bytes, i: nat) {
    i < |a| && i < |b| && a[..i] == b[..i] && a[i] < b[i]
  }

  /** Bytewise order: a proper prefix, or the smaller byte at the first difference. */
  lemma {:induction false} LexLessMeans(a: Bytes, b: Bytes)
    ensures LexLess(a, b) <==> a < b || exists i: nat :: DiffersAt(a, b, i)
  {
    if a != [] && b != [] {
      LexLessMeans(a[1..], b[1..]);
      assert a == [a[0]] + a[1..] && b == [b[0]] + b[1..];
      if a[0] < b[0] { assert DiffersAt(a, b, 0); }
      if i: nat :| DiffersAt(a, b, i) {
        if i > 0 {
          assert a[0] == a[..i][0] == b[..i][0] == b[0];
          assert a[1..][..i - 1] == a[..i][1..] == b[..i][1..] == b[1..][..i - 1];
          assert DiffersAt(a[1..], b[1..], i - 1);
        }
      }
      if a[0] == b[0] {
        if i: nat :| DiffersAt(a[1..], b[1..], i) {
          assert a[..i + 1] == [a[0]] + a[1..][..i] && b[..i + 1] == [b[0]] + b[1..][..i];
          assert DiffersAt(a, b, i + 1);
        }
      }
    }
  }

  /** The order of keys: shorter first, else the smaller byte at the first difference. */
  lemma CdeLessMeans(a: Bytes, b: Bytes)
    ensures CdeLess(a, b) <==> |a| < |b| || (|a| == |b| && exists i: nat :: DiffersAt(a, b, i))
  {
    LexLessMeans(a, b);
  }

  lemma {:induction false} LexTrichotomy(a: Bytes, b: Bytes)
    ensures LexLess(a, b) || a == b || LexLess(b, a)
    ensures !(LexLess(a, b) && LexLess(b, a)) && !LexLess(a, a)
  {
    if a != [] && b != [] && a[0] == b[0] {
      LexTrichotomy(a[1..], b[1..]);
      LexTrichotomy(a[1..], a[1..]);
      assert a == [a[0]] + a[1..] && b == [b[0]] + b[1..];
    } else if a != [] {
      LexTrichotomy(a[1..], a[1..]);
    }
  }

  lemma {:induction false} LexTransitive(a: Bytes, b: Bytes, c: Bytes)
    requires LexLess(a, b) && LexLess(b, c)
    ensures LexLess(a, c)
  {
    if a != [] && a[0] == b[0] == c[0] {
      LexTransitive(a[1..], b[1..], c[1..]);
    }
  }

  lemma CdeTrichotomy(a: Bytes, b: Bytes)
    ensures CdeLess(a, b) || a == b || CdeLess(b, a)
    ensures !(CdeLess(a, b) && CdeLess(b, a)) && !CdeLess(a, a)
  {
    LexTrichotomy(a, b);
    LexTrichotomy(a, a);
  }

  lemma CdeTransitive(a: Bytes, b: Bytes, c: Bytes)
    requires CdeLess(a, b) && CdeLess(b, c)
    ensures CdeLess(a, c)
  {
    if |a| == |b| == |c| {
      LexTransitive(a, b, c);
    }
  }

  // --- the two orders on text keys ----------------------------------------------------

  lemma {:induction false} LexSamePrefix(p: Bytes, a: Bytes, b: Bytes)
    ensures LexLess(p + a, p + b) <==> LexLess(a, b)
  {
    if p == [] {
      assert p + a == a && p + b == b;
    } else {
      LexSamePrefix(p[1..], a, b);
      assert (p + a)[1..] == p[1..] + a && (p + b)[1..] == p[1..] + b;
    }
  }

  /** A difference inside equally long prefixes decides, whatever follows. */
  lemma {:induction false} LexPrefixDecides(p: Bytes, q: Bytes, a: Bytes, b: Bytes)
    requires |p| == |q| && LexLess(p, q)
    ensures LexLess(p + a, q + b)
  {
    if p[0] == q[0] {
      LexPrefixDecides(p[1..], q[1..], a, b);
      assert (p + a)[1..] == p[1..] + a && (q + b)[1..] == q[1..] + b;
    }
  }

  lemma {:induction false} BigEndianMonotone(u: nat, v: nat, k: nat)
    requires u < v < Pow256(k)
    ensures LexLess(BigEndian(u, k), BigEndian(v, k))
  {
    var hu, hv := BigEndian(u / 256, k - 1), BigEndian(v / 256, k - 1);
    if u / 256 < v / 256 {
      BigEndianMonotone(u / 256, v / 256, k - 1);
      LexPrefixDecides(hu, hv, [u % 256], [v % 256]);
    } else {
      LexSamePrefix(hu, [u % 256], [v % 256]);
    }
  }

  /** Minimal heads of one major type grow strictly with their argument, across all five widths. */
  lemma HeadsMonotone(major: nat, m: nat, n: nat, a: Bytes, b: Bytes)
    requires major < 8 && m < n < U64
    ensures LexLess(HeadBytes(major, m) + a, HeadBytes(major, n) + b)
  {
    PowTable();
    var p, q := HeadBytes(major, m), HeadBytes(major, n);
    assert (p + a)[0] == p[0] && (q + b)[0] == q[0];
    if p[0] == q[0] {
      var k := |p| - 1;
      BigEndianMonotone(m, n, k);
      assert p[1..] == BigEndian(m, k) && q[1..] == BigEndian(n, k);
      LexSamePrefix([p[0]], p[1..], q[1..]);
      assert p == [p[0]] + p[1..] && q == [q[0]] + q[1..];
      LexPrefixDecides(p, q, a, b);
    }
  }

  /**
    On text keys the code's length-first order is the bytewise order of encodings
    that section 4.2.1 of RFC 8949 asks for.
   */
  lemma TextOrdersAgree(x: Bytes, y: Bytes)
    requires |x| < U64 && |y| < U64
    ensures CdeLess(TextItem(x), TextItem(y)) <==> LexLess(TextItem(x), TextItem(y))
  {
    if |x| < |y| {
      HeadsMonotone(3, |x|, |y|, x, y);
    } else if |y| < |x| {
      HeadsMonotone(3, |y|, |x|, y, x);
      LexTrichotomy(TextItem(x), TextItem(y));
    }
  }

  // --- sorting by encoded key -------------------------------------------------------------

  // Entries of any type are ordered by an encoded-key function `key`.

  predicate Ascending<T(!new)>(key: T -> Bytes, es: seq<T>) {
    forall i, j :: 0 <= i < j < |es| ==> CdeLess(key(es[i]), key(es[j]))
  }

  predicate DistinctKeys<T(!new)>(key: T -> Bytes, es: seq<T>) {
    forall i, j :: 0 <= i < j < |es| ==> key(es[i]) != key(es[j])
  }

  function Insert<T>(key: T -> Bytes, e: T, es: seq<T>): seq<T> {
    if es == [] || !CdeLess(key(es[0]), key(e)) then [e] + es else [es[0]] + Insert(key, e, es[1..])
  }

  /** The stable sort `CdeMapBuilder::write` performs. */
  function Sort<T>(key: T -> Bytes, es: seq<T>): seq<T> {
    if es == [] then [] else Insert(key, es[0], Sort(key, es[1..]))
  }

  lemma {:induction false} InsertAdds<T>(key: T -> Bytes, e: T, es: seq<T>)
    ensures multiset(Insert(key, e, es)) == multiset(es) + multiset{e}
  {
    if !(es == [] || !CdeLess(key(es[0]), key(e))) {
      InsertAdds(key, e, es[1..]);
      assert es == [es[0]] + es[1..];
    }
  }

  /** Sorting permutes. */
  lemma {:induction false} SortPermutes<T>(key: T -> Bytes, es: seq<T>)
    ensures multiset(Sort(key, es)) == multiset(es)
  {
    if es != [] {
      SortPermutes(key, es[1..]);
      InsertAdds(key, es[0], Sort(key, es[1..]));
      assert es == [es[0]] + es[1..];
    }
  }

  lemma SortElements<T(!new)>(key: T -> Bytes, es: seq<T>)
    ensures |Sort(key, es)| == |es|
    ensures forall e :: e in Sort(key, es) <==> e in es
  {
    SortPermutes(key, es);
    SameElements(Sort(key, es), es);
  }

  lemma SameElements<T(!new)>(a: seq<T>, b: seq<T>)
    requires multiset(a) == multiset(b)
    ensures |a| == |b|
    ensures forall e :: e in a <==> e in b
  {
    assert |multiset(a)| == |a| && |multiset(b)| == |b|;
    forall e
      ensures e in a <==> e in b
    {
      assert e in a <==> e in multiset(a);
      assert e in b <==> e in multiset(b);
    }
  }

  /** An entry that sorts after all others is inserted at the end. */
  lemma {:induction false} InsertAtEnd<T(!new)>(key: T -> Bytes, e: T, es: seq<T>)
    requires forall i :: 0 <= i < |es| ==> CdeLess(key(es[i]), key(e))
    ensures Insert(key, e, es) == es + [e]
  {
    if es != [] {
      InsertAtEnd(key, e, es[1..]);
      assert es + [e] == [es[0]] + (es[1..] + [e]);
    }
  }

  lemma {:induction false} InsertAscending<T(!new)>(key: T -> Bytes, e: T, es: seq<T>)
    requires Ascending(key, es) && forall i :: 0 <= i < |es| ==> key(es[i]) != key(e)
    ensures Ascending(key, Insert(key, e, es))
  {
    if es == [] || !CdeLess(key(es[0]), key(e)) {
      forall j | 0 <= j < |es|
        ensures CdeLess(key(e), key(es[j]))
      {
        CdeTrichotomy(key(es[0]), key(e));
        if j > 0 {
          CdeTransitive(key(e), key(es[0]), key(es[j]));
        }
      }
    } else {
      InsertAscending(key, e, es[1..]);
      InsertAdds(key, e, es[1..]);
      var tail := Insert(key, e, es[1..]);
      forall j | 0 <= j < |tail|
        ensures CdeLess(key(es[0]), key(tail[j]))
      {
        assert tail[j] in multiset(tail);
        assert tail[j] == e || tail[j] in es[1..];
      }
    }
  }

  /** Sorting distinct keys gives strictly ascending ones. */
  lemma {:induction false} SortAscending<T(!new)>(key: T -> Bytes, es: seq<T>)
    requires DistinctKeys(key, es)
    ensures Ascending(key, Sort(key, es))
  {
    if es != [] {
      var rest := es[1..];
      SortAscending(key, rest);
      SortElements(key, rest);
      forall i | 0 <= i < |Sort(key, rest)|
        ensures key(Sort(key, rest)[i]) != key(es[0])
      {
        assert Sort(key, rest)[i] in rest;
      }
      InsertAscending(key, es[0], Sort(key, rest));
    }
  }

  /** Strictly ascending sequences are determined by their elements. */
  lemma {:induction false} AscendingUnique<T(!new)>(key: T -> Bytes, a: seq<T>, b: seq<T>)
    requires Ascending(key, a) && Ascending(key, b) && forall e :: e in a <==> e in b
    ensures a == b
  {
    assert b != [] ==> b[0] in a;
    if a != [] {
      assert a[0] in b;
      HeadsCoincide(key, a, b);
      forall e
        ensures e in a[1..] <==> e in b[1..]
      {
        TailElements(key, a, e);
        TailElements(key, b, e);
      }
      AscendingUnique(key, a[1..], b[1..]);
      assert a == [a[0]] + a[1..] && b == [b[0]] + b[1..];
    }
  }

  lemma HeadsCoincide<T(!new)>(key: T -> Bytes, a: seq<T>, b: seq<T>)
    requires a != [] && b != [] && Ascending(key, a) && Ascending(key, b) && a[0] in b && b[0] in a
    ensures a[0] == b[0]
  {
    CdeTrichotomy(key(a[0]), key(b[0]));
  }

  lemma TailElements<T(!new)>(key: T -> Bytes, a: seq<T>, e: T)
    requires a != [] && Ascending(key, a)
    ensures e in a[1..] <==> e in a && e != a[0]
  {
    CdeTrichotomy(key(a[0]), key(a[0]));
    if e in a[1..] {
      var i :| 0 <= i < |a[1..]| && a[1..][i] == e;
      assert a[i + 1] == e;
    }
  }

  lemma AscendingDistinct<T(!new)>(key: T -> Bytes, es: seq<T>)
    requires Ascending(key, es)
    ensures DistinctKeys(key, es)
  {
    forall i, j | 0 <= i < j < |es|
      ensures key(es[i]) != key(es[j])
    {
      CdeTrichotomy(key(es[i]), key(es[i]));
    }
  }

  /** Sorting depends only on which entries there are. */
  lemma SortIs<T(!new)>(key: T -> Bytes, es: seq<T>, target: seq<T>)
    requires Ascending(key, target) && DistinctKeys(key, es) && forall e :: e in es <==> e in target
    ensures Sort(key, es) == target
  {
    SortAscending(key, es);
    SortElements(key, es);
    AscendingUnique(key, Sort(key, es), target);
  }

  lemma SortFixed<T(!new)>(key: T -> Bytes, es: seq<T>)
    requires Ascending(key, es)
    ensures Sort(key, es) == es
  {
    AscendingDistinct(key, es);
    SortIs(key, es, es);
  }

  // --- key order while decoding --------------------------------------------------------------

  datatype Previous = First | After(key: Bytes)

  /** `KeyOrder::push`. */
  function CheckKey(prev: Previous, key: Bytes): Decoded<()> {
    if prev.First? || CdeLess(prev.key, key) then Ok(())
    else if prev.key == key then Err(DuplicateKey)
    else Err(UnsortedMapKeys)
  }

  /** A key after another is in order, the same again, or out of order, and is told so. */
  lemma CheckKeyExact(prev: Previous, key: Bytes)
    ensures CheckKey(prev, key).Ok? <==> prev.First? || CdeLess(prev.key, key)
    ensures CheckKey(prev, key) == Err(DuplicateKey) <==> prev == After(key)
    ensures CheckKey(prev, key) == Err(UnsortedMapKeys) <==> prev.After? && CdeLess(key, prev.key)
  {
    if prev.After? { CdeTrichotomy(prev.key, key); }
  }

  predicate Before(prev: Previous, key: Bytes) {
    prev.First? || CdeLess(prev.key, key)
  }

  /** Each entry sorts after its predecessor. */
  predicate AscendingFrom<T(!new)>(key: T -> Bytes, prev: Previous, es: seq<T>)
    decreases |es|
  {
    es == [] || (Before(prev, key(es[0])) && AscendingFrom(key, After(key(es[0])), es[1..]))
  }

  lemma {:induction false} AscendingFromIff<T(!new)>(key: T -> Bytes, prev: Previous, es: seq<T>)
    ensures AscendingFrom(key, prev, es) <==> Ascending(key, es) && forall i :: 0 <= i < |es| ==> Before(prev, key(es[i]))
    decreases |es|
  {
    if es != [] {
      var k, tail := After(key(es[0])), es[1..];
      AscendingFromIff(key, k, tail);
      if AscendingFrom(key, prev, es) {
        forall i | 0 <= i < |es|
          ensures Before(prev, key(es[i]))
        {
          if i > 0 {
            assert tail[i - 1] == es[i] && Before(k, key(es[i]));
            if prev.After? { CdeTransitive(prev.key, key(es[0]), key(es[i])); }
          }
        }
        forall i, j | 0 <= i < j < |es|
          ensures CdeLess(key(es[i]), key(es[j]))
        {
          assert es[j] == tail[j - 1] && Before(k, key(tail[j - 1]));
          if i > 0 { assert es[i] == tail[i - 1]; }
        }
      }
    }
  }

  lemma AscendingIff<T(!new)>(key: T -> Bytes, es: seq<T>)
    ensures AscendingFrom(key, First, es) <==> Ascending(key, es)
  {
    AscendingFromIff(key, First, es);
  }
}
