/**
  `CanonicalMap`: a vector kept in ascending key order by binary search.  It is
  proved to behave as a finite map keyed by encoded bytes, and to have one
  representation per content.
 */
module CanonicalMaps {
  import opened Common
  import opened Cbor
  import opened CdeOrder
  import opened Schema

  /** The finite map a sequence of entries stands for; a later entry replaces an earlier one. */
  function ContentsOf<E>(key: E -> Bytes, es: seq<E>): map<Bytes, E> {
    if es == [] then map[] else ContentsOf(key, es[..|es| - 1])[key(es[|es| - 1]) := es[|es| - 1]]
  }

  lemma {:induction false} ContentsHas<E(!new)>(key: E -> Bytes, es: seq<E>, i: nat)
    requires Ascending(key, es) && i < |es|
    ensures key(es[i]) in ContentsOf(key, es) && ContentsOf(key, es)[key(es[i])] == es[i]
  {
    var front, last := es[..|es| - 1], es[|es| - 1];
    if i < |es| - 1 {
      ContentsHas(key, front, i);
      CdeTrichotomy(key(last), key(last));
    }
  }

  lemma {:induction false} ContentsFrom<E(!new)>(key: E -> Bytes, es: seq<E>, k: Bytes)
    requires k in ContentsOf(key, es)
    ensures exists i :: 0 <= i < |es| && key(es[i]) == k && ContentsOf(key, es)[k] == es[i]
  {
    var front, last := es[..|es| - 1], es[|es| - 1];
    if k == key(last) {
      assert key(es[|es| - 1]) == k;
    } else {
      ContentsFrom(key, front, k);
      var i :| 0 <= i < |front| && key(front[i]) == k && ContentsOf(key, front)[k] == front[i];
      assert es[i] == front[i];
    }
  }

  lemma ContentsElements<E(!new)>(key: E -> Bytes, es: seq<E>, e: E)
    requires Ascending(key, es)
    ensures e in es <==> key(e) in ContentsOf(key, es) && ContentsOf(key, es)[key(e)] == e
  {
    if e in es {
      var i :| 0 <= i < |es| && es[i] == e;
      ContentsHas(key, es, i);
    }
    if key(e) in ContentsOf(key, es) { ContentsFrom(key, es, key(e)); }
  }

  /** Equal contents, equal vectors: the order of insertion leaves no trace. */
  lemma CanonicalUnique<E(!new)>(key: E -> Bytes, a: seq<E>, b: seq<E>)
    requires Ascending(key, a) && Ascending(key, b) && ContentsOf(key, a) == ContentsOf(key, b)
    ensures a == b
  {
    forall e
      ensures e in a <==> e in b
    {
      ContentsElements(key, a, e);
      ContentsElements(key, b, e);
    }
    AscendingUnique(key, a, b);
  }

  /** Contents of ascending vectors are decided entry by entry. */
  lemma ContentsAre<E(!new)>(key: E -> Bytes, es: seq<E>, m: map<Bytes, E>)
    requires Ascending(key, es)
    requires forall i :: 0 <= i < |es| ==> key(es[i]) in m && m[key(es[i])] == es[i]
    requires forall k :: k in m ==> exists i :: 0 <= i < |es| && key(es[i]) == k
    ensures ContentsOf(key, es) == m
  {
    forall k
      ensures k in ContentsOf(key, es) <==> k in m
      ensures k in m && k in ContentsOf(key, es) ==> m[k] == ContentsOf(key, es)[k]
    {
      if k in m {
        var i :| 0 <= i < |es| && key(es[i]) == k;
        ContentsHas(key, es, i);
      }
      if k in ContentsOf(key, es) { ContentsFrom(key, es, k); }
    }
  }

  // --- editing ascending vectors -----------------------------------------------------------

  /** `pos` is where `k` is, or where it would go. */
  predicate Splits<E(!new)>(key: E -> Bytes, es: seq<E>, k: Bytes, pos: nat) {
    && pos <= |es|
    && (forall i :: 0 <= i < pos ==> CdeLess(key(es[i]), k))
    && (forall i :: pos <= i < |es| ==> key(es[i]) == k || CdeLess(k, key(es[i])))
  }

  /** `Vec::insert`. */
  function Spliced<E>(es: seq<E>, e: E, pos: nat): (r: seq<E>)
    requires pos <= |es|
    ensures |r| == |es| + 1 && r[pos] == e
    ensures forall i :: 0 <= i < pos ==> r[i] == es[i]
    ensures forall i :: pos < i < |r| ==> r[i] == es[i - 1]
  {
    es[..pos] + [e] + es[pos..]
  }

  lemma InsertedAscends<E(!new)>(key: E -> Bytes, es: seq<E>, e: E, pos: nat)
    requires Ascending(key, es) && Splits(key, es, key(e), pos) && (pos < |es| ==> key(es[pos]) != key(e))
    ensures Ascending(key, Spliced(es, e, pos))
    ensures key(e) !in ContentsOf(key, es)
    ensures ContentsOf(key, Spliced(es, e, pos)) == ContentsOf(key, es)[key(e) := e]
  {
    hide CdeLess, ContentsOf, Spliced;
    NotAfter(key, es, key(e), pos);
    if key(e) in ContentsOf(key, es) {
      ContentsFrom(key, es, key(e));
      var i :| 0 <= i < |es| && key(es[i]) == key(e);
      CdeTrichotomy(key(e), key(e));
    }
    var r := Spliced(es, e, pos);
    forall i, j | 0 <= i < j < |r|
      ensures CdeLess(key(r[i]), key(r[j]))
    {
      if i < pos < j { CdeTransitive(key(es[i]), key(e), key(es[j - 1])); }
    }
    InsertedContents(key, es, e, pos);
  }

  /** Only the entry at `pos` can carry the key itself. */
  lemma NotAfter<E(!new)>(key: E -> Bytes, es: seq<E>, k: Bytes, pos: nat)
    requires Ascending(key, es) && Splits(key, es, k, pos) && (pos < |es| ==> key(es[pos]) != k)
    ensures forall i :: pos <= i < |es| ==> CdeLess(k, key(es[i]))
  {
    forall i | pos <= i < |es|
      ensures CdeLess(k, key(es[i]))
    {
      if i > pos { CdeTransitive(k, key(es[pos]), key(es[i])); }
    }
  }

  lemma InsertedContents<E(!new)>(key: E -> Bytes, es: seq<E>, e: E, pos: nat)
    requires Ascending(key, es) && pos <= |es| && key(e) !in ContentsOf(key, es)
    requires Ascending(key, Spliced(es, e, pos))
    ensures ContentsOf(key, Spliced(es, e, pos)) == ContentsOf(key, es)[key(e) := e]
  {
    hide CdeLess, ContentsOf, Spliced, Ascending;
    var r, m := Spliced(es, e, pos), ContentsOf(key, es)[key(e) := e];
    forall i | 0 <= i < |r|
      ensures key(r[i]) in m && m[key(r[i])] == r[i]
    {
      if i < pos { ContentsHas(key, es, i); }
      if i > pos { ContentsHas(key, es, i - 1); }
    }
    forall k | k in m
      ensures exists i :: 0 <= i < |r| && key(r[i]) == k
    {
      if k == key(e) {
        assert key(r[pos]) == k;
      } else {
        ContentsFrom(key, es, k);
        var j :| 0 <= j < |es| && key(es[j]) == k;
        assert key(r[if j < pos then j else j + 1]) == k;
      }
    }
    ContentsAre(key, r, m);
  }

  /** Splicing at the searched position is insertion by scanning. */
  lemma {:induction false} SplicedIsInsert<E(!new)>(key: E -> Bytes, es: seq<E>, e: E, pos: nat)
    requires Splits(key, es, key(e), pos) && (pos < |es| ==> key(es[pos]) != key(e))
    ensures CdeOrder.Insert(key, e, es) == Spliced(es, e, pos)
    decreases |es|
  {
    if pos == 0 {
      if es != [] { CdeTrichotomy(key(es[0]), key(e)); }
      assert Spliced(es, e, 0) == [e] + es;
    } else {
      SplicedIsInsert(key, es[1..], e, pos - 1);
      assert Spliced(es, e, pos) == [es[0]] + Spliced(es[1..], e, pos - 1);
    }
  }

  /** The insertion the table decoders are specified with is `CanonicalMap::insert`. */
  lemma TableInsertion(acc: seq<Item>, it: Item)
    requires Ascending(ITEM_KEY, acc)
    ensures InsertItem(acc, it) ==
            if ITEM_KEY(it) in ContentsOf(ITEM_KEY, acc) then Err(DuplicateKey) else Ok(CdeOrder.Insert(ITEM_KEY, it, acc))
  {
    hide ContentsOf, CdeLess, EncodeLabel;
    if ITEM_KEY(it) in ContentsOf(ITEM_KEY, acc) { ContentsFrom(ITEM_KEY, acc, ITEM_KEY(it)); }
    forall i | 0 <= i < |acc|
      ensures ITEM_KEY(acc[i]) in ContentsOf(ITEM_KEY, acc)
    {
      ContentsHas(ITEM_KEY, acc, i);
    }
  }

  /** `Vec::remove`. */
  function Cut<E>(es: seq<E>, pos: nat): (r: seq<E>)
    requires pos < |es|
    ensures |r| == |es| - 1
    ensures forall i :: 0 <= i < |r| ==> r[i] == es[if i < pos then i else i + 1]
  {
    es[..pos] + es[pos + 1..]
  }

  lemma RemovedAscends<E(!new)>(key: E -> Bytes, es: seq<E>, pos: nat)
    requires Ascending(key, es) && pos < |es|
    ensures Ascending(key, Cut(es, pos))
    ensures ContentsOf(key, Cut(es, pos)) == ContentsOf(key, es) - {key(es[pos])}
  {
    hide CdeLess, ContentsOf, Cut;
    var r := Cut(es, pos);
    forall i, j | 0 <= i < j < |r|
      ensures CdeLess(key(r[i]), key(r[j]))
    {
    }
    RemovedContents(key, es, pos);
  }

  lemma RemovedContents<E(!new)>(key: E -> Bytes, es: seq<E>, pos: nat)
    requires Ascending(key, es) && pos < |es| && Ascending(key, Cut(es, pos))
    ensures ContentsOf(key, Cut(es, pos)) == ContentsOf(key, es) - {key(es[pos])}
  {
    hide CdeLess, ContentsOf, Cut, Ascending;
    AscendingDistinct(key, es);
    var r, m := Cut(es, pos), ContentsOf(key, es) - {key(es[pos])};
    forall i | 0 <= i < |r|
      ensures key(r[i]) in m && m[key(r[i])] == r[i]
    {
      ContentsHas(key, es, if i < pos then i else i + 1);
    }
    forall k | k in m
      ensures exists i :: 0 <= i < |r| && key(r[i]) == k
    {
      ContentsFrom(key, es, k);
      var j :| 0 <= j < |es| && key(es[j]) == k;
      assert key(r[if j < pos then j else j - 1]) == k;
    }
    ContentsAre(key, r, m);
  }

  lemma ReplacedContents<E(!new)>(key: E -> Bytes, es: seq<E>, pos: nat, e: E)
    requires Ascending(key, es) && pos < |es| && key(e) == key(es[pos])
    ensures Ascending(key, es[pos := e])
    ensures ContentsOf(key, es[pos := e]) == ContentsOf(key, es)[key(e) := e]
  {
    hide CdeLess;
    var r, m := es[pos := e], ContentsOf(key, es)[key(e) := e];
    forall i, j | 0 <= i < j < |r|
      ensures CdeLess(key(r[i]), key(r[j]))
    {
      assert CdeLess(key(es[i]), key(es[j]));
    }
    forall i | 0 <= i < |r|
      ensures key(r[i]) in m && m[key(r[i])] == r[i]
    {
      ContentsHas(key, es, i);
      if i != pos {
        CdeTrichotomy(key(e), key(e));
        if i < pos { assert CdeLess(key(es[i]), key(es[pos])); } else { assert CdeLess(key(es[pos]), key(es[i])); }
      }
    }
    forall k | k in m
      ensures exists i :: 0 <= i < |r| && key(r[i]) == k
    {
      if k == key(e) {
        assert key(r[pos]) == k;
      } else {
        ContentsFrom(key, es, k);
        var j :| 0 <= j < |es| && key(es[j]) == k;
        assert key(r[j]) == k;
      }
    }
    ContentsAre(key, r, m);
  }

  // --- the class ------------------------------------------------------------------------------

  class CanonicalMap<E(!new)> {
    const key: E -> Bytes
    var entries: seq<E>

    ghost predicate Valid()
      reads this
    {
      Ascending(key, entries)
    }

    /** The finite map this vector stands for. */
    ghost function Contents(): map<Bytes, E>
      reads this
    {
      ContentsOf(key, entries)
    }

    constructor (encoded: E -> Bytes)
      ensures Valid() && key == encoded && entries == [] && Contents() == map[]
    {
      key, entries := encoded, [];
    }

    /** `binary_search_by` on the encoded keys. */
    method Search(k: Bytes) returns (found: bool, pos: nat)
      requires Valid()
      ensures Splits(key, entries, k, pos)
      ensures found == (k in Contents()) && found == (pos < |entries| && key(entries[pos]) == k)
      ensures found ==> Contents()[k] == entries[pos]
    {
      hide CdeLess, ContentsOf;
      var lo, hi := 0, |entries|;
      while lo < hi
        invariant 0 <= lo <= hi <= |entries|
        invariant forall i :: 0 <= i < lo ==> CdeLess(key(entries[i]), k)
        invariant forall i :: hi <= i < |entries| ==> CdeLess(k, key(entries[i]))
      {
        var mid := (lo + hi) / 2;
        CdeTrichotomy(key(entries[mid]), k);
        if key(entries[mid]) == k {
          FoundAt(mid);
          return true, mid;
        }
        if CdeLess(key(entries[mid]), k) {
          BelowMiddle(mid, k);
          lo := mid + 1;
        } else {
          AboveMiddle(mid, k);
          hi := mid;
        }
      }
      pos := lo;
      found := false;
      Missing(k, pos);
    }

    lemma FoundAt(mid: nat)
      requires Valid() && mid < |entries|
      ensures Splits(key, entries, key(entries[mid]), mid)
      ensures key(entries[mid]) in Contents() && Contents()[key(entries[mid])] == entries[mid]
    {
      ContentsHas(key, entries, mid);
    }

    lemma BelowMiddle(mid: nat, k: Bytes)
      requires Valid() && mid < |entries| && CdeLess(key(entries[mid]), k)
      ensures forall i :: 0 <= i <= mid ==> CdeLess(key(entries[i]), k)
    {
      hide CdeLess;
      forall i | 0 <= i < mid
        ensures CdeLess(key(entries[i]), k)
      {
        CdeTransitive(key(entries[i]), key(entries[mid]), k);
      }
    }

    lemma AboveMiddle(mid: nat, k: Bytes)
      requires Valid() && mid < |entries| && CdeLess(k, key(entries[mid]))
      ensures forall i :: mid <= i < |entries| ==> CdeLess(k, key(entries[i]))
    {
      hide CdeLess;
      forall i | mid < i < |entries|
        ensures CdeLess(k, key(entries[i]))
      {
        CdeTransitive(k, key(entries[mid]), key(entries[i]));
      }
    }

    lemma Missing(k: Bytes, pos: nat)
      requires Valid() && pos <= |entries|
      requires forall i :: 0 <= i < pos ==> CdeLess(key(entries[i]), k)
      requires forall i :: pos <= i < |entries| ==> CdeLess(k, key(entries[i]))
      ensures k !in Contents() && (pos < |entries| ==> key(entries[pos]) != k)
    {
      hide CdeLess;
      CdeTrichotomy(k, k);
      if k in Contents() {
        ContentsFrom(key, entries, k);
      }
    }

    /** Refuses a key that is present, and otherwise adds it. */
    method Insert(e: E) returns (r: Decoded<()>)
      requires Valid()
      modifies this
      ensures Valid()
      ensures key(e) in old(Contents()) ==> r == Err(DuplicateKey) && entries == old(entries)
      ensures key(e) !in old(Contents()) ==> r == Ok(()) && Contents() == old(Contents())[key(e) := e]
      ensures key(e) !in old(Contents()) ==> entries == CdeOrder.Insert(key, e, old(entries))
    {
      hide CdeLess, ContentsOf, Splits, Ascending;
      var found, pos := Search(key(e));
      if found { return Err(DuplicateKey); }
      SplitsInRange(key, entries, key(e), pos);
      InsertedAscends(key, entries, e, pos);
      SplicedIsInsert(key, entries, e, pos);
      entries := Spliced(entries, e, pos);
      return Ok(());
    }

    method Remove(k: Bytes) returns (r: Opt<E>)
      requires Valid()
      modifies this
      ensures Valid() && Contents() == old(Contents()) - {k}
      ensures r == if k in old(Contents()) then Yes(old(Contents())[k]) else No
    {
      hide CdeLess, ContentsOf, Splits, Ascending;
      var found, pos := Search(k);
      if !found {
        assert Contents() - {k} == Contents();
        return No;
      }
      var e := entries[pos];
      RemovedAscends(key, entries, pos);
      entries := Cut(entries, pos);
      return Yes(e);
    }

    method Get(k: Bytes) returns (r: Opt<E>)
      requires Valid()
      ensures r == if k in Contents() then Yes(Contents()[k]) else No
    {
      var found, pos := Search(k);
      return if found then Yes(entries[pos]) else No;
    }

    /** One step of `from_iter`: the last value for a key is kept. */
    method Put(e: E)
      requires Valid()
      modifies this
      ensures Valid() && Contents() == old(Contents())[key(e) := e]
    {
      hide CdeLess, ContentsOf, Splits, Ascending;
      var found, pos := Search(key(e));
      if found {
        ReplacedContents(key, entries, pos, e);
        entries := entries[pos := e];
      } else {
        SplitsInRange(key, entries, key(e), pos);
        InsertedAscends(key, entries, e, pos);
        entries := Spliced(entries, e, pos);
      }
    }
  }

  lemma SplitsInRange<E(!new)>(key: E -> Bytes, es: seq<E>, k: Bytes, pos: nat)
    requires Splits(key, es, k, pos)
    ensures pos <= |es|
  {
  }

  /** `FromIterator`: ascending, and holding for each key its last value. */
  method FromIter<E(!new)>(key: E -> Bytes, list: seq<E>) returns (m: CanonicalMap<E>)
    ensures fresh(m) && m.key == key && m.Valid() && m.Contents() == ContentsOf(key, list)
  {
    hide Ascending;
    m := new CanonicalMap(key);
    for i := 0 to |list|
      invariant fresh(m) && m.key == key && m.Valid() && m.Contents() == ContentsOf(key, list[..i])
    {
      m.Put(list[i]);
      assert list[..i + 1][..i] == list[..i] && list[..i + 1][i] == list[i];
    }
    assert list[..|list|] == list;
  }
}
