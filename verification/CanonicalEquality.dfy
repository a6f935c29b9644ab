/** Canonical text and structural equality agree, which is what lets a digest of the
    canonical text stand for the arguments themselves. */
module CanonicalEquality {
  import opened Texts
  import opened Json
  import opened Canonical

  /** The i-th sorted member carries the i-th sorted key and that key's value. */
  lemma SortedMember(ms: seq<Member>, i: nat)
    requires DistinctKeys(ms) && i < |ms|
    ensures |SortMembers(ms)| == |SortKeys(Keys(ms))| == |ms|
    ensures var k := SortKeys(Keys(ms))[i];
            Has(ms, k) && SortMembers(ms)[i] == Member(k, Get(ms, k))
  {
    assert |multiset(SortMembers(ms))| == |ms| && |multiset(SortKeys(Keys(ms)))| == |ms|;
    KeysOfSortMembers(ms);
    var m := SortMembers(ms)[i];
    assert m in multiset(SortMembers(ms));
    var j :| 0 <= j < |ms| && ms[j] == m;
    GetIsTheMember(ms, j);
  }

  lemma SortedLengths(ms: seq<Member>)
    ensures |SortMembers(ms)| == |SortKeys(Keys(ms))| == |ms|
  {
    assert |multiset(SortMembers(ms))| == |ms| && |multiset(SortKeys(Keys(ms)))| == |ms|;
  }

  lemma GetWellFormed(ms: seq<Member>, key: Text)
    requires WellFormed(Obj(ms)) && Has(ms, key)
    ensures WellFormed(Get(ms, key)) && Get(ms, key) < Obj(ms)
  {
    var i :| 0 <= i < |ms| && ms[i] == Member(key, Get(ms, key));
    assert WellFormed(ms[i].value);
  }

  /** Structural equality is equality of the key-sorted values. */
  lemma {:induction false} DeepEqualIsSortedEquality(a: Json, b: Json)
    requires WellFormed(a) && WellFormed(b)
    ensures DeepEqual(a, b) <==> Normalize(a) == Normalize(b)
    decreases a, 2
  {
    match (a, b)
    case (Arr(xs), Arr(ys)) => DeepEqualItems(xs, ys);
    case (Obj(ms), Obj(ns)) => DeepEqualMembers(ms, ns);
    case _ =>
  }

  lemma {:induction false} DeepEqualItems(xs: seq<Json>, ys: seq<Json>)
    requires WellFormed(Arr(xs)) && WellFormed(Arr(ys))
    ensures DeepEqual(Arr(xs), Arr(ys)) <==> NormalizeItems(xs) == NormalizeItems(ys)
    decreases Arr(xs), 0
  {
    forall i | 0 <= i < |xs| && |xs| == |ys|
      ensures DeepEqual(xs[i], ys[i]) <==> NormalizeItems(xs)[i] == NormalizeItems(ys)[i]
    {
      DeepEqualIsSortedEquality(xs[i], ys[i]);
      NormalizeItemsAt(xs, i);
      NormalizeItemsAt(ys, i);
    }
  }

  lemma {:induction false} SameEntryIsSortedEquality(ms: seq<Member>, ns: seq<Member>, i: nat)
    requires WellFormed(Obj(ms)) && WellFormed(Obj(ns)) && i < |ms| == |ns|
    ensures |SortMembers(ms)| == |SortKeys(Keys(ms))| == |SortMembers(ns)| == |SortKeys(Keys(ns))| == |ms|
    ensures SameEntry(ms, ns, i)
       <==> NormalizeMembers(SortMembers(ms))[i] == NormalizeMembers(SortMembers(ns))[i]
    decreases Obj(ms), 0
  {
    SortedMember(ms, i);
    SortedMember(ns, i);
    NormalizeMembersAt(SortMembers(ms), i);
    NormalizeMembersAt(SortMembers(ns), i);
    var k := SortKeys(Keys(ms))[i];
    GetWellFormed(ms, k);
    if k == SortKeys(Keys(ns))[i] {
      GetWellFormed(ns, k);
      DeepEqualIsSortedEquality(Get(ms, k), Get(ns, k));
    }
  }

  lemma {:induction false} DeepEqualMembers(ms: seq<Member>, ns: seq<Member>)
    requires WellFormed(Obj(ms)) && WellFormed(Obj(ns))
    ensures DeepEqual(Obj(ms), Obj(ns))
       <==> NormalizeMembers(SortMembers(ms)) == NormalizeMembers(SortMembers(ns))
    decreases Obj(ms), 1
  {
    SortedLengths(ms);
    SortedLengths(ns);
    var left, right := NormalizeMembers(SortMembers(ms)), NormalizeMembers(SortMembers(ns));
    if |ms| == |ns| {
      forall i | 0 <= i < |ms| ensures SameEntry(ms, ns, i) <==> left[i] == right[i] {
        SameEntryIsSortedEquality(ms, ns, i);
      }
    }
  }

  /** Members in canonical order stay where they are when sorted again. */
  lemma {:induction false} SortMembersFixed(ms: seq<Member>)
    requires Ascending(Keys(ms))
    ensures SortMembers(ms) == ms
  {
    if ms != [] {
      assert Keys(ms[1..]) == Keys(ms)[1..];
      SortMembersFixed(ms[1..]);
      assert |ms| > 1 ==> AtMost(Keys(ms)[0], Keys(ms)[1]);
      assert InsertMember(ms[0], ms[1..]) == [ms[0]] + ms[1..];
    }
  }

  lemma {:induction false} KeysOfNormalizedMembers(ms: seq<Member>)
    ensures Keys(NormalizeMembers(ms)) == Keys(ms)
  {
    if ms != [] {
      KeysOfNormalizedMembers(ms[1..]);
    }
  }

  /** Sorting keys changes neither the printed text nor, a second time, the value. */
  lemma {:induction false} CanonicalOfSorted(v: Json)
    ensures Canonicalize(Normalize(v)) == Canonicalize(v) && Normalize(Normalize(v)) == Normalize(v)
    decreases Size(v), 1
  {
    match v
    case Arr(items) => CanonicalOfSortedItems(items);
    case Obj(ms) =>
      var sorted := SortMembers(ms);
      CanonicalOfSortedMembers(sorted);
      KeysOfNormalizedMembers(sorted);
      KeysOfSortMembers(ms);
      SortKeysAscends(Keys(ms));
      SortMembersFixed(NormalizeMembers(sorted));
    case _ =>
  }

  lemma {:induction false} CanonicalOfSortedItems(items: seq<Json>)
    ensures JoinItems(NormalizeItems(items)) == JoinItems(items)
    ensures NormalizeItems(NormalizeItems(items)) == NormalizeItems(items)
    decreases ItemsSize(items), 3, |items|
  {
    if items != [] {
      CanonicalOfSorted(items[0]);
      CanonicalOfSortedItems(items[1..]);
      assert NormalizeItems(items)[1..] == NormalizeItems(items[1..]);
    }
  }

  lemma {:induction false} CanonicalOfSortedMembers(ms: seq<Member>)
    ensures JoinMembers(NormalizeMembers(ms)) == JoinMembers(ms)
    ensures NormalizeMembers(NormalizeMembers(ms)) == NormalizeMembers(ms)
    decreases MembersSize(ms), 3, |ms|
  {
    if ms != [] {
      CanonicalOfSorted(ms[0].value);
      CanonicalOfSortedMembers(ms[1..]);
      assert NormalizeMembers(ms)[1..] == NormalizeMembers(ms[1..]);
    }
  }

  /** The canonical texts of two JSON values are equal exactly when the values are
      structurally equal. */
  lemma CanonicalTextIffDeepEqual(a: Json, b: Json)
    requires WellFormed(a) && WellFormed(b)
    ensures Canonicalize(a) == Canonicalize(b) <==> DeepEqual(a, b)
  {
    DeepEqualIsSortedEquality(a, b);
    if Canonicalize(a) == Canonicalize(b) {
      CanonicalTextIsInjective(a, b);
    } else {
      CanonicalOfSorted(a);
      CanonicalOfSorted(b);
    }
  }

  /** A value that was read back from canonical text prints to the same text again. */
  lemma RereadingIsStable(v: Json, suffix: Text)
    requires Delimited(suffix)
    ensures var r := ReadValue(Canonicalize(v) + suffix);
            r.Some? && r.value.1 == suffix && Canonicalize(r.value.0) == Canonicalize(v)
  {
    ReadCanonical(v, suffix);
    CanonicalOfSorted(v);
  }

  /** Structural equality may be replaced by equality of key-sorted values, so it is an
      equivalence on well-formed values. */
  lemma DeepEqualIsAnEquivalence(a: Json, b: Json, c: Json)
    requires WellFormed(a) && WellFormed(b) && WellFormed(c)
    ensures DeepEqual(a, a)
    ensures DeepEqual(a, b) ==> DeepEqual(b, a)
    ensures DeepEqual(a, b) && DeepEqual(b, c) ==> DeepEqual(a, c)
  {
    DeepEqualIsSortedEquality(a, a);
    DeepEqualIsSortedEquality(a, b);
    DeepEqualIsSortedEquality(b, a);
    DeepEqualIsSortedEquality(b, c);
    DeepEqualIsSortedEquality(a, c);
  }
}
