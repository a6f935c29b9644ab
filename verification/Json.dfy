/** JSON values as `JSON.parse` produces them, and the matcher's structural equality.
    An object is the ordered list of its own keys; numbers are integers. */
module Json {
  import opened Wrappers
  import opened Texts

  datatype Json =
    | Null
    | Bool(b: bool)
    | Num(n: int)
    | Str(s: Text)
    | Arr(items: seq<Json>)
    | Obj(members: seq<Member>)

  datatype Member = Member(key: Text, value: Json)

  function Keys(ms: seq<Member>): (ks: seq<Text>)
    ensures |ks| == |ms| && forall i | 0 <= i < |ms| :: ks[i] == ms[i].key
  {
    if ms == [] then [] else [ms[0].key] + Keys(ms[1..])
  }

  predicate Has(ms: seq<Member>, key: Text) {
    exists i | 0 <= i < |ms| :: ms[i].key == key
  }

  /** Property access on an object whose key is present. */
  function Get(ms: seq<Member>, key: Text): (v: Json)
    requires Has(ms, key)
    ensures exists i | 0 <= i < |ms| :: ms[i] == Member(key, v)
  {
    if ms[0].key == key then
      assert ms[0] == Member(key, ms[0].value);
      ms[0].value
    else
      assert Has(ms[1..], key) by {
        var i :| 0 <= i < |ms| && ms[i].key == key;
        assert ms[1..][i - 1] == ms[i];
      }
      Get(ms[1..], key)
  }

  /** Property access; an absent key reads as `undefined`. */
  function Lookup(ms: seq<Member>, key: Text): Option<Json> {
    if Has(ms, key) then Some(Get(ms, key)) else None
  }

  ghost predicate DistinctKeys(ms: seq<Member>) {
    forall i, j | 0 <= i < j < |ms| :: ms[i].key != ms[j].key
  }

  /** No object, at any nesting, repeats a key. */
  ghost predicate WellFormed(v: Json) {
    match v
    case Arr(items) => forall i | 0 <= i < |items| :: WellFormed(items[i])
    case Obj(ms) => DistinctKeys(ms) && forall i | 0 <= i < |ms| :: WellFormed(ms[i].value)
    case _ => true
  }

  /** The matcher's structural equality: arrays in order, objects in any key order. */
  predicate DeepEqual(a: Json, b: Json)
    decreases a, 1
  {
    match (a, b)
    case (Arr(xs), Arr(ys)) =>
      |xs| == |ys| && forall i | 0 <= i < |xs| :: DeepEqual(xs[i], ys[i])
    case (Obj(ms), Obj(ns)) =>
      && |SortKeys(Keys(ms))| == |SortKeys(Keys(ns))|
      && forall i | 0 <= i < |SortKeys(Keys(ms))| :: SameEntry(ms, ns, i)
    case _ => a == b
  }

  /** The i-th sorted keys agree, and so do the values found under that key. */
  predicate SameEntry(ms: seq<Member>, ns: seq<Member>, i: nat)
    requires i < |SortKeys(Keys(ms))| && i < |SortKeys(Keys(ns))|
    decreases Obj(ms), 0
  {
    var key := SortKeys(Keys(ms))[i];
    && key == SortKeys(Keys(ns))[i]
    && (SortedKeysPresent(ms, i); SortedKeysPresent(ns, i);
        assert Get(ms, key) < Obj(ms);
        DeepEqual(Get(ms, key), Get(ns, key)))
  }

  lemma SortedKeysPresent(ms: seq<Member>, i: nat)
    requires i < |SortKeys(Keys(ms))|
    ensures Has(ms, SortKeys(Keys(ms))[i])
  {
    var k := SortKeys(Keys(ms))[i];
    assert k in multiset(SortKeys(Keys(ms)));
    assert k in Keys(ms);
    var j :| 0 <= j < |Keys(ms)| && Keys(ms)[j] == k;
    assert ms[j].key == k;
  }

  lemma {:induction false} GetIsTheMember(ms: seq<Member>, i: nat)
    requires i < |ms| && DistinctKeys(ms)
    ensures Has(ms, ms[i].key) && Get(ms, ms[i].key) == ms[i].value
  {
    var j :| 0 <= j < |ms| && ms[j] == Member(ms[i].key, Get(ms, ms[i].key));
    assert i < j || j < i || i == j;
  }

  lemma {:induction false} LookupConcat(a: seq<Member>, b: seq<Member>, key: Text)
    ensures Lookup(a + b, key) == if Has(a, key) then Lookup(a, key) else Lookup(b, key)
  {
    if a == [] {
      assert a + b == b;
    } else {
      assert (a + b)[0] == a[0] && (a + b)[1..] == a[1..] + b;
      LookupConcat(a[1..], b, key);
      LookupStep(a, key);
      LookupStep(a + b, key);
    }
  }

  lemma LookupStep(ms: seq<Member>, key: Text)
    requires ms != []
    ensures Lookup(ms, key) == if ms[0].key == key then Some(ms[0].value) else Lookup(ms[1..], key)
    ensures Has(ms, key) <==> ms[0].key == key || Has(ms[1..], key)
  {
    if Has(ms, key) && ms[0].key != key {
      var i :| 0 <= i < |ms| && ms[i].key == key;
      assert ms[1..][i - 1] == ms[i];
    }
    if Has(ms[1..], key) {
      var i :| 0 <= i < |ms[1..]| && ms[1..][i].key == key;
      assert ms[i + 1].key == key;
    }
  }
}
