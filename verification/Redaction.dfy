/** The copy of tool arguments that is stored and displayed: secrets masked, size bounded. */
module Redaction {
  import opened Texts
  import opened Json
  import Canonical

  const MAX_STRING_LENGTH := 1024
  const MAX_DEPTH := 8
  const MAX_ENTRIES := 200

  const REDACTED: Json := Str(Ascii("[REDACTED]"))
  const TRUNCATED: Json := Str(Ascii("[TRUNCATED]"))

  /** The key under which an object's overflow is noted, and the head of the cut mark. */
  const ELLIPSIS: Text := [0x2026]
  const CUT_MARK: Text := ELLIPSIS + Ascii("[truncated]")

  // ---------------------------------------------------------------- sensitive keys

  /** The alternatives of the sensitive-key pattern, in lower case. Longer alternatives
      that contain one of these (`authorization`, `password`, `client_secret`) add nothing. */
  function SensitiveWords(): seq<Text> {
    [ Ascii("pass"), Ascii("secret"), Ascii("token"), Ascii("credential"), Ascii("auth"),
      Ascii("cookie"), Ascii("session"), Ascii("bearer"), Ascii("signature"),
      Ascii("apikey"), Ascii("api-key"), Ascii("api_key"),
      Ascii("accesskey"), Ascii("access-key"), Ascii("access_key"),
      Ascii("privatekey"), Ascii("private-key"), Ascii("private_key") ]
  }

  function Lower(t: Text): (r: Text)
    ensures |r| == |t|
  {
    seq(|t|, i requires 0 <= i < |t| => if 0x41 <= t[i] <= 0x5a then t[i] + 0x20 else t[i])
  }

  predicate FoundFrom(t: Text, word: Text, i: nat)
    decreases |t| - i
  {
    i + |word| <= |t| && (t[i..i + |word|] == word || FoundFrom(t, word, i + 1))
  }

  predicate AnyFound(t: Text, words: seq<Text>) {
    words != [] && (FoundFrom(t, words[0], 0) || AnyFound(t, words[1..]))
  }

  predicate IsSensitiveKey(key: Text) {
    AnyFound(Lower(key), SensitiveWords())
  }

  lemma {:induction false} NothingFoundInShortText(t: Text, words: seq<Text>)
    requires forall w | 0 <= w < |words| :: |t| < |words[w]|
    ensures !AnyFound(t, words)
  {
    if words != [] {
      NothingFoundInShortText(t, words[1..]);
    }
  }

  /** A key too short to hold any of the words, such as the overflow key, is not sensitive. */
  lemma ShortKeysAreNotSensitive(key: Text)
    requires |key| < 4
    ensures !IsSensitiveKey(key)
  {
    NothingFoundInShortText(Lower(key), SensitiveWords());
  }

  // ---------------------------------------------------------------- the redacted copy

  function Truncate(s: Text): Text {
    if |s| <= MAX_STRING_LENGTH then s else s[..MAX_STRING_LENGTH] + CUT_MARK
  }

  /** Assignment to a property: an existing key keeps its place. */
  function Put(ms: seq<Member>, key: Text, v: Json): seq<Member> {
    if ms == [] then [Member(key, v)]
    else if ms[0].key == key then [Member(key, v)] + ms[1..]
    else [ms[0]] + Put(ms[1..], key, v)
  }

  lemma {:induction false} PutNew(ms: seq<Member>, key: Text, v: Json)
    requires !Has(ms, key)
    ensures Put(ms, key, v) == ms + [Member(key, v)]
  {
    if ms != [] {
      assert ms[0].key != key;
      HasInTail(ms, key);
      PutNew(ms[1..], key, v);
      assert ms == [ms[0]] + ms[1..];
    }
  }

  lemma {:induction false} PutOld(ms: seq<Member>, key: Text, v: Json)
    requires Has(ms, key)
    ensures |Put(ms, key, v)| == |ms|
    ensures forall i | 0 <= i < |ms| ::
              Put(ms, key, v)[i] == ms[i] || (Put(ms, key, v)[i] == Member(key, v) && ms[i].key == key)
  {
    if ms[0].key != key {
      HasInTail(ms, key);
      PutOld(ms[1..], key, v);
      var rest := Put(ms[1..], key, v);
      forall i | 0 < i < |ms|
        ensures ([ms[0]] + rest)[i] == ms[i] || (([ms[0]] + rest)[i] == Member(key, v) && ms[i].key == key)
      {
        assert ([ms[0]] + rest)[i] == rest[i - 1] && ms[1..][i - 1] == ms[i];
      }
    }
  }

  /** Rebuilding a list of members with new keys, one assignment at a time. */
  lemma PutNext(all: seq<Member>, n: nat)
    requires n < |all| && DistinctKeys(all)
    ensures Put(all[..n], all[n].key, all[n].value) == all[..n + 1]
  {
    PutNew(all[..n], all[n].key, all[n].value);
  }

  lemma HasInTail(ms: seq<Member>, key: Text)
    requires ms != [] && ms[0].key != key
    ensures Has(ms, key) <==> Has(ms[1..], key)
  {
    if Has(ms, key) {
      var i :| 0 <= i < |ms| && ms[i].key == key;
      assert ms[1..][i - 1].key == key;
    }
    if Has(ms[1..], key) {
      var i :| 0 <= i < |ms[1..]| && ms[1..][i].key == key;
      assert ms[i + 1].key == key;
    }
  }

  function Room(depth: nat): nat {
    if depth > MAX_DEPTH then 0 else 1 + MAX_DEPTH - depth
  }

  function Head<T>(s: seq<T>): (r: seq<T>)
    ensures |r| <= MAX_ENTRIES && r <= s
  {
    if |s| <= MAX_ENTRIES then s else s[..MAX_ENTRIES]
  }

  /** What `redactValue` makes of a value found at a depth. */
  function Redacted(v: Json, depth: nat): Json
    decreases Room(depth), 0
  {
    if depth > MAX_DEPTH then TRUNCATED
    else match v
      case Str(s) => Str(Truncate(s))
      case Arr(items) => Arr(RedactedItems(Head(items), depth + 1))
      case Obj(ms) =>
        var entries := RedactedEntries(Head(ms), depth);
        Obj(if |ms| > MAX_ENTRIES then Put(entries, ELLIPSIS, TRUNCATED) else entries)
      case _ => v
  }

  function RedactedItems(items: seq<Json>, depth: nat): (r: seq<Json>)
    ensures |r| == |items| && forall i | 0 <= i < |items| :: r[i] == Redacted(items[i], depth)
    decreases Room(depth), 1, |items|
  {
    if items == [] then [] else [Redacted(items[0], depth)] + RedactedItems(items[1..], depth)
  }

  /** One entry of an object found at a depth. */
  function RedactedEntry(m: Member, depth: nat): Member
    requires depth <= MAX_DEPTH
    decreases Room(depth + 1), 2
  {
    Member(m.key, if IsSensitiveKey(m.key) then REDACTED else Redacted(m.value, depth + 1))
  }

  function RedactedEntries(ms: seq<Member>, depth: nat): (r: seq<Member>)
    requires depth <= MAX_DEPTH
    ensures |r| == |ms| && forall i | 0 <= i < |ms| :: r[i] == RedactedEntry(ms[i], depth)
    decreases Room(depth + 1), 3, |ms|
  {
    if ms == [] then [] else [RedactedEntry(ms[0], depth)] + RedactedEntries(ms[1..], depth)
  }

  /** The members of the redacted copy of an object. */
  function RedactedMembers(ms: seq<Member>, depth: nat): seq<Member>
    requires depth <= MAX_DEPTH
  {
    Redacted(Obj(ms), depth).members
  }

  // ---------------------------------------------------------------- the loop in the source

  method RedactValue(v: Json, depth: nat) returns (r: Json)
    requires WellFormed(v)
    ensures r == Redacted(v, depth)
    decreases Room(depth), 0
  {
    if depth > MAX_DEPTH {
      return TRUNCATED;
    }
    match v {
      case Str(s) => r := Str(Truncate(s));
      case Arr(items) =>
        var out := RedactItems(Head(items), depth + 1);
        r := Arr(out);
      case Obj(ms) =>
        var out := RedactObject(ms, depth);
        r := Obj(out);
      case _ => r := v;
    }
  }

  method RedactItems(items: seq<Json>, depth: nat) returns (out: seq<Json>)
    requires forall i | 0 <= i < |items| :: WellFormed(items[i])
    ensures out == RedactedItems(items, depth)
    decreases Room(depth), 1
  {
    ghost var all := RedactedItems(items, depth);
    out := [];
    for i := 0 to |items|
      invariant out == all[..i]
    {
      var x := RedactValue(items[i], depth);
      assert x == all[i];
      out := out + [x];
    }
  }

  method RedactObject(ms: seq<Member>, depth: nat) returns (result: seq<Member>)
    requires depth <= MAX_DEPTH && WellFormed(Obj(ms))
    ensures result == RedactedMembers(ms, depth)
    decreases Room(depth + 1), 2
  {
    ghost var all := RedactedEntries(Head(ms), depth);
    DistinctPrefix(ms, depth);
    result := [];
    var count := 0;
    while count < |ms|
      invariant count <= |ms| && count <= MAX_ENTRIES
      invariant result == all[..count]
    {
      if count >= MAX_ENTRIES {
        assert all[..count] == all;
        result := Put(result, ELLIPSIS, TRUNCATED);
        return;
      }
      var m := ms[count];
      var value := REDACTED;
      if !IsSensitiveKey(m.key) {
        value := RedactValue(m.value, depth + 1);
      }
      assert all[count] == Member(m.key, value);
      PutNext(all, count);
      result := Put(result, m.key, value);
      count := count + 1;
    }
  }

  lemma DistinctPrefix(ms: seq<Member>, depth: nat)
    requires depth <= MAX_DEPTH && DistinctKeys(ms)
    ensures DistinctKeys(RedactedEntries(Head(ms), depth))
  {
    var out := RedactedEntries(Head(ms), depth);
    forall i, j | 0 <= i < j < |out| ensures out[i].key != out[j].key {
      assert ms[i].key != ms[j].key;
    }
  }

  // ---------------------------------------------------------------- noninterference

  /** The two values differ at most in what stands under sensitive keys. */
  ghost predicate SameButSecrets(a: Json, b: Json) {
    match (a, b)
    case (Arr(xs), Arr(ys)) =>
      |xs| == |ys| && forall i | 0 <= i < |xs| :: SameButSecrets(xs[i], ys[i])
    case (Obj(ms), Obj(ns)) =>
      && |ms| == |ns|
      && forall i | 0 <= i < |ms| ::
           && ms[i].key == ns[i].key
           && (IsSensitiveKey(ms[i].key) || SameButSecrets(ms[i].value, ns[i].value))
    case _ => a == b
  }

  /** Nothing in the value is cut, apart from what stands under sensitive keys. */
  ghost predicate Fits(v: Json, depth: nat) {
    && depth <= MAX_DEPTH
    && match v
       case Str(s) => |s| <= MAX_STRING_LENGTH
       case Arr(items) =>
         |items| <= MAX_ENTRIES && forall i | 0 <= i < |items| :: Fits(items[i], depth + 1)
       case Obj(ms) =>
         && |ms| <= MAX_ENTRIES
         && forall i | 0 <= i < |ms| :: IsSensitiveKey(ms[i].key) || Fits(ms[i].value, depth + 1)
       case _ => true
  }

  /** Values under sensitive keys never reach the redacted copy, at any nesting. */
  lemma {:induction false} RedactionHidesSecrets(a: Json, b: Json, depth: nat)
    requires SameButSecrets(a, b)
    ensures Redacted(a, depth) == Redacted(b, depth)
    decreases Room(depth), 1
  {
    if depth <= MAX_DEPTH {
      match (a, b)
      case (Arr(xs), Arr(ys)) => ItemsHideSecrets(Head(xs), Head(ys), depth + 1);
      case (Obj(ms), Obj(ns)) => EntriesHideSecrets(Head(ms), Head(ns), depth);
      case _ =>
    }
  }

  lemma {:induction false} ItemsHideSecrets(xs: seq<Json>, ys: seq<Json>, depth: nat)
    requires SameButSecrets(Arr(xs), Arr(ys))
    ensures RedactedItems(xs, depth) == RedactedItems(ys, depth)
    decreases Room(depth), 2
  {
    forall i | 0 <= i < |xs| ensures Redacted(xs[i], depth) == Redacted(ys[i], depth) {
      RedactionHidesSecrets(xs[i], ys[i], depth);
    }
  }

  lemma {:induction false} EntriesHideSecrets(ms: seq<Member>, ns: seq<Member>, depth: nat)
    requires depth <= MAX_DEPTH && SameButSecrets(Obj(ms), Obj(ns))
    ensures RedactedEntries(ms, depth) == RedactedEntries(ns, depth)
    decreases Room(depth + 1), 2
  {
    forall i | 0 <= i < |ms| ensures RedactedEntry(ms[i], depth) == RedactedEntry(ns[i], depth) {
      if !IsSensitiveKey(ms[i].key) {
        RedactionHidesSecrets(ms[i].value, ns[i].value, depth + 1);
      }
    }
  }

  /** Where nothing is cut, redaction loses the secrets and nothing else. */
  lemma {:induction false} RedactionKeepsTheRest(a: Json, b: Json, depth: nat)
    requires Fits(a, depth) && Fits(b, depth)
    requires Redacted(a, depth) == Redacted(b, depth)
    ensures SameButSecrets(a, b)
    decreases Room(depth)
  {
    match (a, b)
    case (Arr(xs), Arr(ys)) =>
      var left, right := RedactedItems(xs, depth + 1), RedactedItems(ys, depth + 1);
      assert left == right;
      forall i | 0 <= i < |xs| ensures SameButSecrets(xs[i], ys[i]) {
        assert left[i] == right[i];
        RedactionKeepsTheRest(xs[i], ys[i], depth + 1);
      }
    case (Obj(ms), Obj(ns)) =>
      var left, right := RedactedEntries(ms, depth), RedactedEntries(ns, depth);
      assert left == right;
      forall i | 0 <= i < |ms|
        ensures ms[i].key == ns[i].key
        ensures IsSensitiveKey(ms[i].key) || SameButSecrets(ms[i].value, ns[i].value)
      {
        assert left[i] == right[i];
        if !IsSensitiveKey(ms[i].key) {
          RedactionKeepsTheRest(ms[i].value, ns[i].value, depth + 1);
        }
      }
    case _ =>
  }

  /** Redacted copies of two values that fit are equal exactly when the values differ only
      in secrets. */
  lemma RedactionIsExactlySecretBlind(a: Json, b: Json)
    requires Fits(a, 0) && Fits(b, 0)
    ensures Redacted(a, 0) == Redacted(b, 0) <==> SameButSecrets(a, b)
  {
    if SameButSecrets(a, b) {
      RedactionHidesSecrets(a, b, 0);
    } else if Redacted(a, 0) == Redacted(b, 0) {
      RedactionKeepsTheRest(a, b, 0);
    }
  }

  // ---------------------------------------------------------------- idempotence

  lemma MarkersAreFixed(depth: nat)
    ensures Redacted(TRUNCATED, depth) == TRUNCATED && Redacted(REDACTED, MAX_DEPTH) == REDACTED
    ensures depth <= MAX_DEPTH ==> RedactedEntry(Member(ELLIPSIS, TRUNCATED), depth) == Member(ELLIPSIS, TRUNCATED)
  {
    ShortKeysAreNotSensitive(ELLIPSIS);
  }

  lemma TruncateIsIdempotent(s: Text)
    ensures Truncate(Truncate(s)) == Truncate(s) && |Truncate(s)| <= MAX_STRING_LENGTH + |CUT_MARK|
  {
    if |s| > MAX_STRING_LENGTH {
      assert Truncate(s)[..MAX_STRING_LENGTH] == s[..MAX_STRING_LENGTH];
    }
  }

  lemma FixedEntries(ms: seq<Member>, depth: nat)
    requires depth <= MAX_DEPTH && forall i | 0 <= i < |ms| :: RedactedEntry(ms[i], depth) == ms[i]
    ensures RedactedEntries(ms, depth) == ms
  {}

  /** Redacting a redacted copy changes nothing. */
  lemma {:induction false} RedactionIsIdempotent(v: Json, depth: nat)
    ensures Redacted(Redacted(v, depth), depth) == Redacted(v, depth)
    decreases Room(depth), 1
  {
    if depth > MAX_DEPTH {
    } else if v.Str? {
      TruncateIsIdempotent(v.s);
    } else if v.Arr? {
      ItemsAreFixed(Head(v.items), depth + 1);
      var out := RedactedItems(Head(v.items), depth + 1);
      assert Head(out) == out;
    } else if v.Obj? {
      EntriesAreFixed(v.members, depth);
    }
  }

  lemma {:induction false} ItemsAreFixed(items: seq<Json>, depth: nat)
    ensures RedactedItems(RedactedItems(items, depth), depth) == RedactedItems(items, depth)
    decreases Room(depth), 2
  {
    var out := RedactedItems(items, depth);
    forall i | 0 <= i < |out| ensures Redacted(out[i], depth) == out[i] {
      RedactionIsIdempotent(items[i], depth);
    }
  }

  lemma {:induction false} EntryIsFixed(m: Member, depth: nat)
    requires depth <= MAX_DEPTH
    ensures RedactedEntry(RedactedEntry(m, depth), depth) == RedactedEntry(m, depth)
    decreases Room(depth + 1), 2
  {
    if !IsSensitiveKey(m.key) {
      RedactionIsIdempotent(m.value, depth + 1);
    }
  }

  lemma OverflowIsFixed(entries: seq<Member>, depth: nat)
    requires depth <= MAX_DEPTH && |entries| == MAX_ENTRIES
    requires forall i | 0 <= i < |entries| :: RedactedEntry(entries[i], depth) == entries[i]
    ensures var out := Put(entries, ELLIPSIS, TRUNCATED);
            Redacted(Obj(out), depth) == Obj(out)
  {
    if Has(entries, ELLIPSIS) {
      OverwrittenMarkerIsFixed(entries, depth);
    } else {
      PutNew(entries, ELLIPSIS, TRUNCATED);
      AppendedMarkerIsFixed(entries, depth);
    }
  }

  lemma OverwrittenMarkerIsFixed(entries: seq<Member>, depth: nat)
    requires depth <= MAX_DEPTH && |entries| == MAX_ENTRIES && Has(entries, ELLIPSIS)
    requires forall i | 0 <= i < |entries| :: RedactedEntry(entries[i], depth) == entries[i]
    ensures var out := Put(entries, ELLIPSIS, TRUNCATED);
            Redacted(Obj(out), depth) == Obj(out)
  {
    var out := Put(entries, ELLIPSIS, TRUNCATED);
    MarkersAreFixed(depth);
    PutOld(entries, ELLIPSIS, TRUNCATED);
    forall i | 0 <= i < |out| ensures RedactedEntry(out[i], depth) == out[i] {
      if out[i] != entries[i] { assert out[i] == Member(ELLIPSIS, TRUNCATED); }
    }
    FixedEntries(out, depth);
    assert Head(out) == out;
  }

  lemma AppendedMarkerIsFixed(entries: seq<Member>, depth: nat)
    requires depth <= MAX_DEPTH && |entries| == MAX_ENTRIES && !Has(entries, ELLIPSIS)
    requires forall i | 0 <= i < |entries| :: RedactedEntry(entries[i], depth) == entries[i]
    ensures var out := entries + [Member(ELLIPSIS, TRUNCATED)];
            Redacted(Obj(out), depth) == Obj(out)
  {
    assert Head(entries + [Member(ELLIPSIS, TRUNCATED)]) == entries;
    FixedEntries(entries, depth);
    PutNew(entries, ELLIPSIS, TRUNCATED);
  }

  lemma {:induction false} EntriesAreFixed(ms: seq<Member>, depth: nat)
    requires depth <= MAX_DEPTH
    ensures Redacted(Obj(RedactedMembers(ms, depth)), depth) == Redacted(Obj(ms), depth)
    decreases Room(depth), 0
  {
    var entries := RedactedEntries(Head(ms), depth);
    forall i | 0 <= i < |entries| ensures RedactedEntry(entries[i], depth) == entries[i] {
      EntryIsFixed(ms[i], depth);
    }
    if |ms| > MAX_ENTRIES {
      OverflowIsFixed(entries, depth);
    } else {
      FixedEntries(entries, depth);
    }
  }

  // ---------------------------------------------------------------- bounds

  /** Limits on a redacted value found at a depth. */
  ghost predicate WithinLimits(v: Json, depth: nat) {
    match v
    case Str(s) => |s| <= 1036
    case Arr(items) =>
      && depth <= MAX_DEPTH && |items| <= 200
      && forall i | 0 <= i < |items| :: WithinLimits(items[i], depth + 1)
    case Obj(ms) =>
      && depth <= MAX_DEPTH && |ms| <= 201
      && forall i | 0 <= i < |ms| :: WithinLimits(ms[i].value, depth + 1)
    case _ => true
  }

  /** Every sensitive key, at any nesting, carries the mask. */
  ghost predicate Masked(v: Json) {
    match v
    case Arr(items) => forall i | 0 <= i < |items| :: Masked(items[i])
    case Obj(ms) =>
      forall i | 0 <= i < |ms| ::
        if IsSensitiveKey(ms[i].key) then ms[i].value == REDACTED else Masked(ms[i].value)
    case _ => true
  }

  /** The redacted copy is bounded in depth, width and string length, is fully masked, and
      is again a value without repeated keys. */
  lemma {:induction false} RedactionIsBounded(v: Json, depth: nat)
    requires WellFormed(v)
    ensures WithinLimits(Redacted(v, depth), depth)
    ensures Masked(Redacted(v, depth))
    ensures WellFormed(Redacted(v, depth))
    decreases Room(depth), 1
  {
    if depth <= MAX_DEPTH {
      match v
      case Str(s) => TruncateIsIdempotent(s);
      case Arr(items) =>
        forall i | 0 <= i < |Head(items)|
          ensures WithinLimits(Redacted(items[i], depth + 1), depth + 1)
          ensures Masked(Redacted(items[i], depth + 1)) && WellFormed(Redacted(items[i], depth + 1))
        {
          RedactionIsBounded(items[i], depth + 1);
        }
      case Obj(ms) => EntriesAreBounded(ms, depth);
      case _ =>
    }
  }

  ghost predicate GoodEntry(m: Member, depth: nat) {
    && WithinLimits(m.value, depth + 1) && WellFormed(m.value)
    && if IsSensitiveKey(m.key) then m.value == REDACTED else Masked(m.value)
  }

  lemma {:induction false} EntryIsBounded(m: Member, depth: nat)
    requires depth <= MAX_DEPTH && WellFormed(m.value)
    ensures GoodEntry(RedactedEntry(m, depth), depth)
    decreases Room(depth + 1), 2
  {
    if !IsSensitiveKey(m.key) {
      RedactionIsBounded(m.value, depth + 1);
    }
  }

  lemma PutKeepsKeysDistinct(ms: seq<Member>, key: Text, v: Json)
    requires DistinctKeys(ms)
    ensures DistinctKeys(Put(ms, key, v))
  {
    if Has(ms, key) {
      PutOld(ms, key, v);
    } else {
      PutNew(ms, key, v);
    }
  }

  lemma OverflowKeepsBounds(entries: seq<Member>, depth: nat)
    requires |entries| <= 200 && forall i | 0 <= i < |entries| :: GoodEntry(entries[i], depth)
    ensures var out := Put(entries, ELLIPSIS, TRUNCATED);
            |out| <= 201 && forall i | 0 <= i < |out| :: GoodEntry(out[i], depth)
  {
    ShortKeysAreNotSensitive(ELLIPSIS);
    var marker := Member(ELLIPSIS, TRUNCATED);
    assert GoodEntry(marker, depth);
    if Has(entries, ELLIPSIS) {
      PutOld(entries, ELLIPSIS, TRUNCATED);
    } else {
      PutNew(entries, ELLIPSIS, TRUNCATED);
    }
  }

  lemma {:induction false} EntriesAreBounded(ms: seq<Member>, depth: nat)
    requires depth <= MAX_DEPTH && WellFormed(Obj(ms))
    ensures var out := RedactedMembers(ms, depth);
            && |out| <= 201 && DistinctKeys(out)
            && forall i | 0 <= i < |out| :: GoodEntry(out[i], depth)
    decreases Room(depth), 0
  {
    var entries := RedactedEntries(Head(ms), depth);
    forall i | 0 <= i < |entries| ensures GoodEntry(entries[i], depth) {
      EntryIsBounded(ms[i], depth);
    }
    DistinctPrefix(ms, depth);
    OverflowKeepsBounds(entries, depth);
    PutKeepsKeysDistinct(entries, ELLIPSIS, TRUNCATED);
  }

  /** The largest number of JSON nodes a redacted value at a depth may have. */
  function NodeBound(depth: nat): nat
    decreases Room(depth)
  {
    if depth > MAX_DEPTH then 1 else 1 + 201 * NodeBound(depth + 1)
  }

  lemma {:induction false} SumOfSizes(ms: seq<Member>, bound: nat)
    requires forall i | 0 <= i < |ms| :: Canonical.Size(ms[i].value) <= bound
    ensures Canonical.MembersSize(ms) <= |ms| * bound
  {
    if ms != [] {
      SumOfSizes(ms[1..], bound);
      assert |ms| * bound == bound + |ms[1..]| * bound;
    }
  }

  lemma {:induction false} SumOfItemSizes(items: seq<Json>, bound: nat)
    requires forall i | 0 <= i < |items| :: Canonical.Size(items[i]) <= bound
    ensures Canonical.ItemsSize(items) <= |items| * bound
  {
    if items != [] {
      SumOfItemSizes(items[1..], bound);
      assert |items| * bound == bound + |items[1..]| * bound;
    }
  }

  /** A value within the limits has at most `NodeBound` nodes. */
  lemma {:induction false} LimitsBoundTheNodes(v: Json, depth: nat)
    requires WithinLimits(v, depth)
    ensures Canonical.Size(v) <= NodeBound(depth)
    decreases Room(depth), 0
  {
    match v
    case Arr(items) =>
      var bound := NodeBound(depth + 1);
      forall i | 0 <= i < |items| ensures Canonical.Size(items[i]) <= bound {
        LimitsBoundTheNodes(items[i], depth + 1);
      }
      SumOfItemSizes(items, bound);
      Scaled(|items|, 201, bound);
    case Obj(ms) =>
      var bound := NodeBound(depth + 1);
      forall i | 0 <= i < |ms| ensures Canonical.Size(ms[i].value) <= bound {
        LimitsBoundTheNodes(ms[i].value, depth + 1);
      }
      SumOfSizes(ms, bound);
      Scaled(|ms|, 201, bound);
    case _ =>
  }

  lemma Scaled(n: nat, m: nat, bound: nat)
    requires n <= m
    ensures n * bound <= m * bound
  {}
}
