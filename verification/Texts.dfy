/** An optional value, as `T | null` and `T | undefined` are used in the gateway. */
module Wrappers {
  datatype Option<+T> = None | Some(value: T)

  datatype Result<+T, +E> = Ok(value: T) | Err(error: E)
}

/** Strings as the gateway's runtime sees them: sequences of UTF-16 code units,
    which may contain surrogates that are not paired. */
module Texts {
  type CodeUnit = x: int | 0 <= x < 0x1_0000
  type Text = seq<CodeUnit>

  /** The code units of an ASCII literal. */
  function Ascii(s: string): Text
    requires forall i | 0 <= i < |s| :: s[i] as int < 0x80
  {
    seq(|s|, i requires 0 <= i < |s| => s[i] as int)
  }

  /** The `<=` of the runtime on strings: lexicographic by code unit. */
  predicate AtMost(a: Text, b: Text) {
    a == [] || (b != [] && (a[0] < b[0] || (a[0] == b[0] && AtMost(a[1..], b[1..]))))
  }

  lemma AtMostReflexive(a: Text)
    ensures AtMost(a, a)
  {}

  lemma AtMostTotal(a: Text, b: Text)
    ensures AtMost(a, b) || AtMost(b, a)
  {}

  lemma {:induction false} AtMostTransitive(a: Text, b: Text, c: Text)
    requires AtMost(a, b) && AtMost(b, c)
    ensures AtMost(a, c)
  {
    if a != [] && a[0] == b[0] && b[0] == c[0] {
      AtMostTransitive(a[1..], b[1..], c[1..]);
    }
  }

  /** Sorted as `Array.prototype.sort` leaves an array of strings. */
  ghost predicate Ascending(ks: seq<Text>) {
    forall i, j | 0 <= i < j < |ks| :: AtMost(ks[i], ks[j])
  }

  function InsertKey(k: Text, ks: seq<Text>): (r: seq<Text>)
    ensures multiset(r) == multiset(ks) + multiset{k}
  {
    if ks == [] || AtMost(k, ks[0]) then [k] + ks
    else
      assert ks == [ks[0]] + ks[1..];
      [ks[0]] + InsertKey(k, ks[1..])
  }

  function SortKeys(ks: seq<Text>): (r: seq<Text>)
    ensures multiset(r) == multiset(ks)
  {
    if ks == [] then []
    else
      assert ks == [ks[0]] + ks[1..];
      InsertKey(ks[0], SortKeys(ks[1..]))
  }

  lemma {:induction false} InsertKeyAscends(k: Text, ks: seq<Text>)
    requires Ascending(ks)
    ensures Ascending(InsertKey(k, ks))
  {
    var r := InsertKey(k, ks);
    if ks == [] {
    } else if AtMost(k, ks[0]) {
      forall j | 0 <= j < |ks| ensures AtMost(k, ks[j]) {
        if j > 0 { AtMostTransitive(k, ks[0], ks[j]); }
      }
    } else {
      AtMostTotal(k, ks[0]);
      InsertKeyAscends(k, ks[1..]);
      forall j | 0 < j < |r| ensures AtMost(ks[0], r[j]) {
        assert r[j] in multiset(InsertKey(k, ks[1..]));
        assert r[j] == k || r[j] in ks[1..];
      }
    }
  }

  lemma {:induction false} SortKeysAscends(ks: seq<Text>)
    ensures Ascending(SortKeys(ks))
  {
    if ks != [] {
      SortKeysAscends(ks[1..]);
      InsertKeyAscends(ks[0], SortKeys(ks[1..]));
    }
  }
}
