/** The canonical text, told by the characters that stand in it. */
module CanonicalTexts {
  import opened Texts
  import opened Json
  import opened Canonical
  import CanonicalEquality

  // ---------------------------------------------------------------- the order of keys

  /** One text is a beginning of the other, or the first unit in which they differ decides. */
  ghost predicate ComesFirst(a: Text, b: Text) {
    a <= b || exists i: nat :: FirstDifference(a, b, i) && a[i] < b[i]
  }

  ghost predicate FirstDifference(a: Text, b: Text, i: nat) {
    i < |a| && i < |b| && a[..i] == b[..i] && a[i] != b[i]
  }

  lemma LaterDifference(a: Text, b: Text, i: nat)
    requires FirstDifference(a, b, i) && i > 0
    ensures a[0] == b[0]
  {
    assert a[..i][0] == b[..i][0];
  }

  lemma {:induction false} AtMostExactly(a: Text, b: Text)
    ensures AtMost(a, b) <==> ComesFirst(a, b)
  {
    if a != [] && b != [] {
      AtMostExactly(a[1..], b[1..]);
      if a[0] != b[0] {
        assert FirstDifference(a, b, 0);
        forall i: nat | FirstDifference(a, b, i) ensures i == 0 {
          if i > 0 { LaterDifference(a, b, i); }
        }
      } else {
        SameHead(a, b);
      }
    }
  }

  lemma SameHead(a: Text, b: Text)
    requires a != [] && b != [] && a[0] == b[0]
    ensures ComesFirst(a, b) <==> ComesFirst(a[1..], b[1..])
  {
    assert a == [a[0]] + a[1..] && b == [b[0]] + b[1..];
    assert a <= b <==> a[1..] <= b[1..];
    if i: nat :| FirstDifference(a, b, i) && a[i] < b[i] {
      assert a[1..][..i - 1] == a[..i][1..] && b[1..][..i - 1] == b[..i][1..];
      assert FirstDifference(a[1..], b[1..], i - 1);
    }
    if i: nat :| FirstDifference(a[1..], b[1..], i) && a[1..][i] < b[1..][i] {
      assert a[..i + 1] == [a[0]] + a[1..][..i] && b[..i + 1] == [b[0]] + b[1..][..i];
      assert FirstDifference(a, b, i + 1);
    }
  }

  lemma {:induction false} AtMostBothWays(a: Text, b: Text)
    requires AtMost(a, b) && AtMost(b, a)
    ensures a == b
  {
    if a != [] {
      AtMostBothWays(a[1..], b[1..]);
      assert a == [a[0]] + a[1..] && b == [b[0]] + b[1..];
    }
  }

  /** The members are arranged by their keys. */
  ghost predicate InKeyOrder(ms: seq<Member>) {
    forall i, j | 0 <= i < j < |ms| :: ComesFirst(ms[i].key, ms[j].key)
  }

  ghost predicate Sorted(ms: seq<Member>) {
    forall i, j | 0 <= i < j < |ms| :: AtMost(ms[i].key, ms[j].key)
  }

  ghost predicate OnePerKey(ms: seq<Member>) {
    forall m, n | m in ms && n in ms && m.key == n.key :: m == n
  }

  lemma SortedIsInOrder(ms: seq<Member>)
    ensures Sorted(SortMembers(ms))
  {
    var sorted := SortMembers(ms);
    KeysOfSortMembers(ms);
    SortKeysAscends(Keys(ms));
    forall i, j | 0 <= i < j < |sorted| ensures AtMost(sorted[i].key, sorted[j].key) {
      assert AtMost(Keys(sorted)[i], Keys(sorted)[j]);
    }
  }

  lemma InKeyOrderExactly(ms: seq<Member>)
    ensures InKeyOrder(ms) <==> Sorted(ms)
  {
    forall i, j | 0 <= i < j < |ms| ensures AtMost(ms[i].key, ms[j].key) <==> ComesFirst(ms[i].key, ms[j].key) {
      AtMostExactly(ms[i].key, ms[j].key);
    }
  }

  /** There is one arrangement by keys, and the sort finds it. */
  lemma ArrangedExactly(ms: seq<Member>, ns: seq<Member>)
    requires DistinctKeys(ms) && multiset(ns) == multiset(ms)
    ensures InKeyOrder(ns) <==> ns == SortMembers(ms)
  {
    SortedIsInOrder(ms);
    InKeyOrderExactly(ns);
    if InKeyOrder(ns) {
      OneMemberPerKey(ms);
      SameMembers(ms, ns);
      SameArrangement(ns, SortMembers(ms));
    }
  }

  lemma SameMembers(ms: seq<Member>, ns: seq<Member>)
    requires multiset(ns) == multiset(ms)
    ensures forall m :: m in ns <==> m in ms
  {
    forall m ensures m in ns <==> m in ms {
      assert m in multiset(ns) <==> m in multiset(ms);
    }
  }

  lemma OneMemberPerKey(ms: seq<Member>)
    requires DistinctKeys(ms)
    ensures OnePerKey(ms)
  {
    forall m, n | m in ms && n in ms && m.key == n.key ensures m == n {
      var i :| 0 <= i < |ms| && ms[i] == m;
      var j :| 0 <= j < |ms| && ms[j] == n;
      assert i < j || j < i || i == j;
    }
  }

  lemma TailsMatch<T>(xs: seq<T>, ys: seq<T>)
    requires xs != [] && ys != [] && xs[0] == ys[0] && multiset(xs) == multiset(ys)
    ensures multiset(xs[1..]) == multiset(ys[1..])
  {
    assert xs == [xs[0]] + xs[1..] && ys == [ys[0]] + ys[1..];
    assert multiset(xs[1..]) == multiset(xs) - multiset{xs[0]};
    assert multiset(ys[1..]) == multiset(ys) - multiset{ys[0]};
  }

  lemma TailIsSorted(ms: seq<Member>)
    requires ms != [] && Sorted(ms)
    ensures Sorted(ms[1..])
  {
    forall i, j | 0 <= i < j < |ms[1..]| ensures AtMost(ms[1..][i].key, ms[1..][j].key) {
      assert AtMost(ms[i + 1].key, ms[j + 1].key);
    }
  }

  lemma TailHasOnePerKey(ms: seq<Member>)
    requires ms != [] && OnePerKey(ms)
    ensures OnePerKey(ms[1..])
  {
    forall m, n | m in ms[1..] && n in ms[1..] && m.key == n.key ensures m == n {
      assert m in ms && n in ms;
    }
  }

  lemma FirstKeyIsLeast(ms: seq<Member>, m: Member)
    requires Sorted(ms) && m in ms
    ensures AtMost(ms[0].key, m.key)
  {
    var i :| 0 <= i < |ms| && ms[i] == m;
    if i == 0 { AtMostReflexive(m.key); }
  }

  lemma {:induction false} SameArrangement(ms: seq<Member>, ns: seq<Member>)
    requires multiset(ms) == multiset(ns) && OnePerKey(ms) && Sorted(ms) && Sorted(ns)
    ensures ms == ns
  {
    assert |multiset(ms)| == |ms| && |multiset(ns)| == |ns|;
    if ms != [] {
      SameMembers(ms, ns);
      assert ms[0] in ms && ns[0] in ns;
      FirstKeyIsLeast(ms, ns[0]);
      FirstKeyIsLeast(ns, ms[0]);
      AtMostBothWays(ms[0].key, ns[0].key);
      TailsMatch(ms, ns);
      TailIsSorted(ms);
      TailIsSorted(ns);
      TailHasOnePerKey(ms);
      SameArrangement(ms[1..], ns[1..]);
    }
  }

  // ---------------------------------------------------------------- numbers

  /** The number that a text of decimal digits stands for. */
  function ValueOf(digits: Text): int {
    if digits == [] then 0 else 10 * ValueOf(digits[..|digits| - 1]) + (digits[|digits| - 1] as int - 0x30)
  }

  /** Decimal digits without a needless zero in front. */
  ghost predicate IsPlain(digits: Text, n: int) {
    && digits != [] && ValueOf(digits) == n && (forall i | 0 <= i < |digits| :: 0x30 <= digits[i] <= 0x39)
    && (|digits| > 1 ==> digits[0] != 0x30)
  }

  lemma {:induction false} DigitsArePlain(n: nat)
    ensures IsPlain(Digits(n), n)
  {
    if n >= 10 {
      DigitsArePlain(n / 10);
      var t := Digits(n);
      assert t[..|t| - 1] == Digits(n / 10);
    } else {
      assert Digits(n)[..0] == [];
    }
  }

  /** A number is its sign, if it is negative, and its plain digits. */
  lemma DecimalExactly(n: int)
    ensures n >= 0 ==> IsPlain(Decimal(n), n)
    ensures n < 0 ==> Decimal(n)[..1] == Ascii("-") && IsPlain(Decimal(n)[1..], -n)
  {
    DigitsArePlain(if n < 0 then -n else n);
  }

  // ---------------------------------------------------------------- string literals

  /** The unit is one half of a surrogate pair. */
  ghost predicate IsHalf(s: Text, i: nat)
    requires i < |s|
  {
    || (0xD800 <= s[i] <= 0xDBFF && i + 1 < |s| && 0xDC00 <= s[i + 1] <= 0xDFFF)
    || (0xDC00 <= s[i] <= 0xDFFF && i > 0 && 0xD800 <= s[i - 1] <= 0xDBFF)
  }

  /** The value of a hexadecimal digit in small letters. */
  ghost predicate IsHexDigit(u: CodeUnit, value: int) {
    0 <= value < 16 && u == Ascii("0123456789abcdef")[value]
  }

  /** The text is `\u` and the four hexadecimal digits of the unit. */
  ghost predicate IsHexText(u: CodeUnit, t: Text, a: int, b: int, c: int, d: int) {
    && |t| == 6 && t[..2] == Ascii("\\u") && u == 4096 * a + 256 * b + 16 * c + d
    && IsHexDigit(t[2], a) && IsHexDigit(t[3], b) && IsHexDigit(t[4], c) && IsHexDigit(t[5], d)
  }

  /** How a unit that is not half of a pair is written in a string literal. */
  ghost predicate IsWritten(u: CodeUnit, t: Text) {
    if u == 0x22 then t == Ascii("\\\"")
    else if u == 0x5C then t == Ascii("\\\\")
    else if u == 0x08 then t == Ascii("\\b")
    else if u == 0x09 then t == Ascii("\\t")
    else if u == 0x0A then t == Ascii("\\n")
    else if u == 0x0C then t == Ascii("\\f")
    else if u == 0x0D then t == Ascii("\\r")
    else if u < 0x20 || 0xD800 <= u <= 0xDFFF then
      exists a, b, c, d :: IsHexText(u, t, a, b, c, d)
    else t == [u]
  }

  lemma EscapeIsWritten(u: CodeUnit)
    ensures IsWritten(u, EscapeUnit(u))
  {
    if EscapeUnit(u) == HexEscape(u) {
      HexDigitsOf(u);
      HexDigitIsSmall(u / 0x1000);
      HexDigitIsSmall(u / 0x100 % 0x10);
      HexDigitIsSmall(u / 0x10 % 0x10);
      HexDigitIsSmall(u % 0x10);
      assert IsHexText(u, HexEscape(u), u / 0x1000, u / 0x100 % 0x10, u / 0x10 % 0x10, u % 0x10);
    }
  }

  lemma HexDigitIsSmall(d: nat)
    requires d < 16
    ensures IsHexDigit(Hex(d), d)
  {}

  function Concat(parts: seq<Text>): Text {
    if parts == [] then [] else parts[0] + Concat(parts[1..])
  }

  /** Each unit of the text has its part of the literal: halves of pairs stand for themselves. */
  ghost predicate ArePartsFrom(s: Text, from: nat, parts: seq<Text>)
    requires from <= |s|
  {
    && |parts| == |s| - from
    && forall i | from <= i < |s| ::
         if IsHalf(s, i) then parts[i - from] == [s[i]] else IsWritten(s[i], parts[i - from])
  }

  lemma HexTextIsTheEscape(u: CodeUnit, t: Text, a: int, b: int, c: int, d: int)
    requires IsHexText(u, t, a, b, c, d)
    ensures t == HexEscape(u)
  {
    HexDigitIsSmall(a);
    HexDigitIsSmall(b);
    HexDigitIsSmall(c);
    HexDigitIsSmall(d);
    FourPlaces(a, b, c, d, u);
    assert t == t[..2] + [t[2], t[3], t[4], t[5]];
  }

  lemma FourPlaces(a: int, b: int, c: int, d: int, u: int)
    requires 0 <= a < 16 && 0 <= b < 16 && 0 <= c < 16 && 0 <= d < 16 && u == 4096 * a + 256 * b + 16 * c + d
    ensures u / 0x1000 == a && u / 0x100 % 0x10 == b && u / 0x10 % 0x10 == c && u % 0x10 == d
  {
    assert u / 0x100 == 16 * a + b && u / 0x10 == 256 * a + 16 * b + c;
  }

  lemma IsWrittenOneWay(u: CodeUnit, t: Text)
    requires IsWritten(u, t)
    ensures t == EscapeUnit(u)
  {
    if EscapeUnit(u) == HexEscape(u) {
      var a, b, c, d :| IsHexText(u, t, a, b, c, d);
      HexTextIsTheEscape(u, t, a, b, c, d);
    }
  }

  lemma PartsAfter(s: Text, from: nat, parts: seq<Text>, k: nat)
    requires from + k <= |s| && ArePartsFrom(s, from, parts)
    ensures ArePartsFrom(s, from + k, parts[k..])
  {
    forall i | from + k <= i < |s|
      ensures if IsHalf(s, i) then parts[k..][i - (from + k)] == [s[i]] else IsWritten(s[i], parts[k..][i - (from + k)])
    {
      assert parts[k..][i - (from + k)] == parts[i - from];
    }
  }

  lemma EscapeOfPair(rest: Text)
    requires |rest| >= 2 && IsHigh(rest[0]) && IsLow(rest[1])
    ensures Escape(rest) == [rest[0]] + ([rest[1]] + Escape(rest[2..]))
  {
    PairSplits(rest);
    Regroup3([rest[0]], [rest[1]], Escape(rest[2..]));
  }

  lemma PairSplits(rest: Text)
    requires |rest| >= 2
    ensures rest[..2] == [rest[0]] + [rest[1]]
  {}

  lemma ConcatOfTwo(parts: seq<Text>)
    requires |parts| >= 2
    ensures Concat(parts) == parts[0] + (parts[1] + Concat(parts[2..]))
  {
    assert parts[1..][1..] == parts[2..];
  }

  lemma PairFirst(s: Text, from: nat, parts: seq<Text>)
    requires from < |s| && ArePartsFrom(s, from, parts) && IsHalf(s, from) && IsHigh(s[from])
    requires |parts| >= 2 && from + 2 <= |s| && Concat(parts[2..]) == Escape(s[from + 2..])
    ensures Concat(parts) == Escape(s[from..])
  {
    assert IsHalf(s, from + 1);
    EscapeOfPair(s[from..]);
    ConcatOfTwo(parts);
    assert s[from..][2..] == s[from + 2..];
  }

  lemma UnitFirst(s: Text, from: nat, parts: seq<Text>)
    requires from < |s| && ArePartsFrom(s, from, parts) && !IsHalf(s, from)
    requires Concat(parts[1..]) == Escape(s[from + 1..])
    ensures Concat(parts) == Escape(s[from..])
  {
    IsWrittenOneWay(s[from], parts[0]);
    assert s[from..][1..] == s[from + 1..];
  }

  /** A literal is the sequence of its parts, which its text determines. */
  lemma {:induction false} EscapedFrom(s: Text, from: nat, parts: seq<Text>)
    requires from <= |s| && ArePartsFrom(s, from, parts)
    requires from < |s| && IsHalf(s, from) ==> IsHigh(s[from])
    ensures Concat(parts) == Escape(s[from..])
    decreases |s| - from
  {
    if from < |s| && IsHalf(s, from) {
      PartsAfter(s, from, parts, 2);
      EscapedFrom(s, from + 2, parts[2..]);
      PairFirst(s, from, parts);
    } else if from < |s| {
      PartsAfter(s, from, parts, 1);
      EscapedFrom(s, from + 1, parts[1..]);
      UnitFirst(s, from, parts);
    }
  }

  /** A string literal is the parts of its text between quotation marks. */
  lemma QuoteExactly(s: Text, parts: seq<Text>)
    requires ArePartsFrom(s, 0, parts)
    ensures Quote(s) == Ascii("\"") + Concat(parts) + Ascii("\"")
  {
    EscapedFrom(s, 0, parts);
    assert s[0..] == s;
  }

  // ---------------------------------------------------------------- values

  /** The parts with commas, 0x2C, between them. */
  function WithCommas(parts: seq<Text>): Text {
    if parts == [] then []
    else if |parts| == 1 then parts[0]
    else WithCommas(parts[..|parts| - 1]) + [0x2C] + parts[|parts| - 1]
  }

  lemma {:induction false} CommasInFront(first: Text, rest: seq<Text>)
    requires rest != []
    ensures WithCommas([first] + rest) == first + [0x2C] + WithCommas(rest)
  {
    var all := [first] + rest;
    if |rest| == 1 {
      assert all[..1] == [first];
    } else {
      var front := rest[..|rest| - 1];
      assert all[..|all| - 1] == [first] + front;
      CommasInFront(first, front);
    }
  }

  lemma {:induction false} ItemsWithCommas(items: seq<Json>, parts: seq<Text>)
    requires |parts| == |items| && forall i | 0 <= i < |items| :: parts[i] == Canonicalize(items[i])
    ensures JoinItems(items) == WithCommas(parts)
  {
    if |items| > 1 {
      ItemsWithCommas(items[1..], parts[1..]);
      CommasInFront(parts[0], parts[1..]);
      assert parts == [parts[0]] + parts[1..];
    }
  }

  lemma MemberText(m: Member)
    ensures CanonicalMember(m) == Quote(m.key) + Ascii(":") + Canonicalize(m.value)
  {
    assert Ascii(":") == [0x3a];
  }

  lemma JoinMore(ms: seq<Member>)
    requires |ms| > 1
    ensures JoinMembers(ms) == CanonicalMember(ms[0]) + [0x2C] + JoinMembers(ms[1..])
  {}

  lemma {:induction false} MembersWithCommas(ms: seq<Member>, parts: seq<Text>)
    requires |parts| == |ms| && forall i | 0 <= i < |ms| :: parts[i] == CanonicalMember(ms[i])
    ensures JoinMembers(ms) == WithCommas(parts)
  {
    if |ms| > 1 {
      MembersWithCommas(ms[1..], parts[1..]);
      CommasInFront(parts[0], parts[1..]);
      JoinMore(ms);
      assert parts == [parts[0]] + parts[1..];
    }
  }

  lemma Brackets()
    ensures Ascii("[") == [0x5B] && Ascii("]") == [0x5D] && Ascii("{") == [0x7B] && Ascii("}") == [0x7D]
  {}

  /** The text of an array is the texts of its items in order, between brackets. */
  lemma ArrayTextExactly(items: seq<Json>, parts: seq<Text>)
    requires |parts| == |items| && forall i | 0 <= i < |items| :: parts[i] == Canonicalize(items[i])
    ensures Canonicalize(Arr(items)) == Ascii("[") + WithCommas(parts) + Ascii("]")
  {
    Brackets();
    ItemsWithCommas(items, parts);
  }

  lemma ObjectText(ms: seq<Member>)
    ensures Canonicalize(Obj(ms)) == [0x7B] + JoinMembers(SortMembers(ms)) + [0x7D]
  {}

  /** The text of an object is its members arranged by key, each as its quoted key, a colon and
      the text of its value, between braces. */
  lemma ObjectTextExactly(ms: seq<Member>, arranged: seq<Member>, parts: seq<Text>)
    requires DistinctKeys(ms) && multiset(arranged) == multiset(ms) && InKeyOrder(arranged)
    requires |parts| == |arranged|
    requires forall i | 0 <= i < |parts| ::
               parts[i] == Quote(arranged[i].key) + Ascii(":") + Canonicalize(arranged[i].value)
    ensures Canonicalize(Obj(ms)) == Ascii("{") + WithCommas(parts) + Ascii("}")
  {
    Brackets();
    ObjectText(ms);
    ArrangedExactly(ms, arranged);
    forall i | 0 <= i < |parts| ensures parts[i] == CanonicalMember(arranged[i]) {
      MemberText(arranged[i]);
    }
    MembersWithCommas(arranged, parts);
  }

  /** The texts of the other values. */
  lemma PlainTextExactly(v: Json)
    ensures match v
            case Null => Canonicalize(v) == Ascii("null")
            case Bool(b) => Canonicalize(v) == if b then Ascii("true") else Ascii("false")
            case Num(n) =>
              if n >= 0 then IsPlain(Canonicalize(v), n)
              else Canonicalize(v)[..1] == Ascii("-") && IsPlain(Canonicalize(v)[1..], -n)
            case Str(s) =>
              exists parts :: ArePartsFrom(s, 0, parts)
                && Canonicalize(v) == Ascii("\"") + Concat(parts) + Ascii("\"")
            case _ => true
  {
    match v
    case Num(n) => DecimalExactly(n);
    case Str(s) =>
      var parts := seq(|s|, i requires 0 <= i < |s| => if IsHalf(s, i) then [s[i]] else EscapeUnit(s[i]));
      forall i | 0 <= i < |s| ensures IsHalf(s, i) || IsWritten(s[i], parts[i]) {
        EscapeIsWritten(s[i]);
      }
      QuoteExactly(s, parts);
    case _ =>
  }

  // ---------------------------------------------------------------- structural equality

  /** Some member of the second list has the same key and an equal value. */
  ghost predicate HasEqual(m: Member, ns: seq<Member>) {
    exists j :: 0 <= j < |ns| && ns[j].key == m.key && DeepEqual(m.value, ns[j].value)
  }

  /** Objects are equal when each member of the one has an equal member in the other and there
      are equally many; arrays, item by item; all else, when it is the same. */
  lemma DeepEqualExactly(a: Json, b: Json)
    requires WellFormed(a) && WellFormed(b)
    ensures DeepEqual(a, b) <==>
              match (a, b)
              case (Arr(xs), Arr(ys)) => |xs| == |ys| && forall i | 0 <= i < |xs| :: DeepEqual(xs[i], ys[i])
              case (Obj(ms), Obj(ns)) => |ms| == |ns| && forall i | 0 <= i < |ms| :: HasEqual(ms[i], ns)
              case _ => a == b
  {
    match (a, b)
    case (Obj(ms), Obj(ns)) =>
      CanonicalEquality.SortedLengths(ms);
      CanonicalEquality.SortedLengths(ns);
      if DeepEqual(a, b) {
        forall i | 0 <= i < |ms| ensures HasEqual(ms[i], ns) {
          EqualMemberFound(ms, ns, i);
        }
      }
      if |ms| == |ns| && forall i | 0 <= i < |ms| :: HasEqual(ms[i], ns) {
        SameSortedKeys(ms, ns);
        forall i | 0 <= i < |ms| ensures SameEntry(ms, ns, i) {
          EqualEntry(ms, ns, i);
        }
      }
    case _ =>
  }

  lemma EqualMemberFound(ms: seq<Member>, ns: seq<Member>, i: nat)
    requires DistinctKeys(ms) && DistinctKeys(ns) && DeepEqual(Obj(ms), Obj(ns)) && i < |ms|
    ensures HasEqual(ms[i], ns)
  {
    var ks := SortKeys(Keys(ms));
    CanonicalEquality.SortedLengths(ms);
    assert Keys(ms)[i] in multiset(ks);
    var k :| 0 <= k < |ks| && ks[k] == ms[i].key;
    assert SameEntry(ms, ns, k);
    GetIsTheMember(ms, i);
  }

  lemma SameSortedKeys(ms: seq<Member>, ns: seq<Member>)
    requires DistinctKeys(ms) && DistinctKeys(ns) && |ms| == |ns|
    requires forall i | 0 <= i < |ms| :: HasEqual(ms[i], ns)
    ensures SortKeys(Keys(ms)) == SortKeys(Keys(ns))
  {
    SameKeySets(Keys(ms), Keys(ns));
    SortKeysAscends(Keys(ms));
    SortKeysAscends(Keys(ns));
    SameSortedTexts(SortKeys(Keys(ms)), SortKeys(Keys(ns)));
  }

  lemma {:induction false} SameKeySets(a: seq<Text>, b: seq<Text>)
    requires |a| == |b|
    requires forall i, j | 0 <= i < j < |a| :: a[i] != a[j]
    requires forall i | 0 <= i < |a| :: a[i] in b
    ensures multiset(a) == multiset(b)
    decreases |a|
  {
    if a != [] {
      var j :| 0 <= j < |b| && b[j] == a[0];
      var rest := b[..j] + b[j + 1..];
      assert b == b[..j] + [b[j]] + b[j + 1..];
      forall i | 0 <= i < |a[1..]| ensures a[1..][i] in rest {
        assert a[i + 1] in b && a[i + 1] != a[0];
      }
      SameKeySets(a[1..], rest);
      assert a == [a[0]] + a[1..];
      assert multiset(b) == multiset(rest) + multiset{b[j]};
    }
  }

  lemma {:induction false} SameSortedTexts(a: seq<Text>, b: seq<Text>)
    requires multiset(a) == multiset(b) && Ascending(a) && Ascending(b)
    ensures a == b
  {
    assert |multiset(a)| == |a| && |multiset(b)| == |b|;
    if a != [] {
      LeastIsFirst(a, b);
      LeastIsFirst(b, a);
      AtMostBothWays(a[0], b[0]);
      TailsMatch(a, b);
      SameSortedTexts(a[1..], b[1..]);
    }
  }

  lemma LeastIsFirst(a: seq<Text>, b: seq<Text>)
    requires Ascending(a) && a != [] && b != [] && multiset(a) == multiset(b)
    ensures AtMost(a[0], b[0])
  {
    assert b[0] in multiset(a);
    var i :| 0 <= i < |a| && a[i] == b[0];
    if i == 0 { AtMostReflexive(a[0]); }
  }

  lemma EqualEntry(ms: seq<Member>, ns: seq<Member>, i: nat)
    requires DistinctKeys(ms) && DistinctKeys(ns) && SortKeys(Keys(ms)) == SortKeys(Keys(ns))
    requires i < |SortKeys(Keys(ms))| && forall j | 0 <= j < |ms| :: HasEqual(ms[j], ns)
    ensures SameEntry(ms, ns, i)
  {
    var key := SortKeys(Keys(ms))[i];
    SortedKeysPresent(ms, i);
    SortedKeysPresent(ns, i);
    var p :| 0 <= p < |ms| && ms[p] == Member(key, Get(ms, key));
    var q :| 0 <= q < |ns| && ns[q].key == ms[p].key && DeepEqual(ms[p].value, ns[q].value);
    GetIsTheMember(ns, q);
  }
}
