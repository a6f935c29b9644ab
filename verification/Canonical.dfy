/** The canonical text that approval hashes are taken over, and a reader for it. */
module Canonical {
  import opened Wrappers
  import opened Texts
  import opened Json

  // ---------------------------------------------------------------- sizes

  function Size(v: Json): (n: nat)
    ensures n > 0
  {
    match v
    case Arr(items) => 1 + ItemsSize(items)
    case Obj(ms) => 1 + MembersSize(ms)
    case _ => 1
  }

  function ItemsSize(items: seq<Json>): nat {
    if items == [] then 0 else Size(items[0]) + ItemsSize(items[1..])
  }

  function MembersSize(ms: seq<Member>): nat {
    if ms == [] then 0 else Size(ms[0].value) + MembersSize(ms[1..])
  }

  // ---------------------------------------------------------------- sorting members

  function InsertMember(m: Member, ms: seq<Member>): (r: seq<Member>)
    ensures multiset(r) == multiset(ms) + multiset{m}
    ensures MembersSize(r) == Size(m.value) + MembersSize(ms)
  {
    if ms == [] || AtMost(m.key, ms[0].key) then
      assert ([m] + ms)[1..] == ms;
      [m] + ms
    else
      assert ms == [ms[0]] + ms[1..];
      var rest := InsertMember(m, ms[1..]);
      assert ([ms[0]] + rest)[1..] == rest;
      [ms[0]] + rest
  }

  function SortMembers(ms: seq<Member>): (r: seq<Member>)
    ensures multiset(r) == multiset(ms)
    ensures MembersSize(r) == MembersSize(ms)
  {
    if ms == [] then []
    else
      assert ms == [ms[0]] + ms[1..];
      InsertMember(ms[0], SortMembers(ms[1..]))
  }

  lemma {:induction false} KeysOfInsertMember(m: Member, ms: seq<Member>)
    ensures Keys(InsertMember(m, ms)) == InsertKey(m.key, Keys(ms))
  {
    if ms == [] || AtMost(m.key, ms[0].key) {
      assert ([m] + ms)[1..] == ms;
    } else {
      KeysOfInsertMember(m, ms[1..]);
      var rest := InsertMember(m, ms[1..]);
      assert ([ms[0]] + rest)[1..] == rest;
    }
  }

  lemma {:induction false} KeysOfSortMembers(ms: seq<Member>)
    ensures Keys(SortMembers(ms)) == SortKeys(Keys(ms))
  {
    if ms != [] {
      KeysOfSortMembers(ms[1..]);
      KeysOfInsertMember(ms[0], SortMembers(ms[1..]));
    }
  }

  // ---------------------------------------------------------------- printing

  function Digit(d: nat): CodeUnit
    requires d < 10
  {
    0x30 + d
  }

  predicate IsDigit(c: CodeUnit) {
    0x30 <= c <= 0x39
  }

  function Digits(n: nat): (t: Text)
    ensures t != [] && forall i | 0 <= i < |t| :: IsDigit(t[i])
  {
    if n < 10 then [Digit(n)] else Digits(n / 10) + [Digit(n % 10)]
  }

  function Decimal(n: int): Text {
    if n < 0 then [0x2d] + Digits(-n) else Digits(n)
  }

  predicate IsHigh(c: CodeUnit) {
    0xd800 <= c <= 0xdbff
  }

  predicate IsLow(c: CodeUnit) {
    0xdc00 <= c <= 0xdfff
  }

  function Hex(d: nat): CodeUnit
    requires d < 16
  {
    if d < 10 then 0x30 + d else 0x61 + (d - 10)
  }

  function HexEscape(c: CodeUnit): Text {
    [0x5c, 0x75, Hex(c / 0x1000), Hex(c / 0x100 % 0x10), Hex(c / 0x10 % 0x10), Hex(c % 0x10)]
  }

  /** One code unit of a string literal that is not half of a surrogate pair. */
  function EscapeUnit(c: CodeUnit): Text {
    if c == 0x22 then [0x5c, 0x22]
    else if c == 0x5c then [0x5c, 0x5c]
    else if c == 0x08 then [0x5c, 0x62]
    else if c == 0x0c then [0x5c, 0x66]
    else if c == 0x0a then [0x5c, 0x6e]
    else if c == 0x0d then [0x5c, 0x72]
    else if c == 0x09 then [0x5c, 0x74]
    else if c < 0x20 || IsHigh(c) || IsLow(c) then HexEscape(c)
    else [c]
  }

  function Escape(s: Text): Text {
    if s == [] then []
    else if |s| >= 2 && IsHigh(s[0]) && IsLow(s[1]) then s[..2] + Escape(s[2..])
    else EscapeUnit(s[0]) + Escape(s[1..])
  }

  /** `JSON.stringify` of a string. */
  function Quote(s: Text): Text {
    [0x22] + Escape(s) + [0x22]
  }

  /** `canonicalize`: the JSON text with every object's entries sorted by key. */
  function Canonicalize(v: Json): Text
    decreases Size(v), 1
  {
    match v
    case Null => Ascii("null")
    case Bool(b) => if b then Ascii("true") else Ascii("false")
    case Num(n) => Decimal(n)
    case Str(s) => Quote(s)
    case Arr(items) => [0x5b] + JoinItems(items) + [0x5d]
    case Obj(ms) => [0x7b] + JoinMembers(SortMembers(ms)) + [0x7d]
  }

  function JoinItems(items: seq<Json>): Text
    decreases ItemsSize(items), 3, |items|
  {
    if items == [] then []
    else if |items| == 1 then Canonicalize(items[0])
    else Canonicalize(items[0]) + [0x2c] + JoinItems(items[1..])
  }

  function JoinMembers(ms: seq<Member>): Text
    decreases MembersSize(ms), 3, |ms|
  {
    if ms == [] then []
    else if |ms| == 1 then CanonicalMember(ms[0])
    else CanonicalMember(ms[0]) + [0x2c] + JoinMembers(ms[1..])
  }

  function CanonicalMember(m: Member): Text
    decreases Size(m.value), 2
  {
    Quote(m.key) + [0x3a] + Canonicalize(m.value)
  }

  // ---------------------------------------------------------------- the key-sorted value

  /** The value with every object's members in canonical order. */
  function Normalize(v: Json): Json
    decreases Size(v), 1
  {
    match v
    case Arr(items) => Arr(NormalizeItems(items))
    case Obj(ms) => Obj(NormalizeMembers(SortMembers(ms)))
    case _ => v
  }

  function NormalizeItems(items: seq<Json>): (r: seq<Json>)
    ensures |r| == |items|
    decreases ItemsSize(items), 3, |items|
  {
    if items == [] then [] else [Normalize(items[0])] + NormalizeItems(items[1..])
  }

  function NormalizeMembers(ms: seq<Member>): (r: seq<Member>)
    ensures |r| == |ms|
    decreases MembersSize(ms), 3, |ms|
  {
    if ms == [] then []
    else [Member(ms[0].key, Normalize(ms[0].value))] + NormalizeMembers(ms[1..])
  }

  lemma {:induction false} NormalizeItemsAt(items: seq<Json>, i: nat)
    requires i < |items|
    ensures NormalizeItems(items)[i] == Normalize(items[i])
  {
    if i > 0 {
      NormalizeItemsAt(items[1..], i - 1);
    }
  }

  lemma {:induction false} NormalizeMembersAt(ms: seq<Member>, i: nat)
    requires i < |ms|
    ensures NormalizeMembers(ms)[i] == Member(ms[i].key, Normalize(ms[i].value))
  {
    if i > 0 {
      NormalizeMembersAt(ms[1..], i - 1);
    }
  }

  // ---------------------------------------------------------------- reading

  function HexValue(c: CodeUnit): Option<nat> {
    if IsDigit(c) then Some(c - 0x30)
    else if 0x61 <= c <= 0x66 then Some(c - 0x61 + 10)
    else None
  }

  function ReadHex(t: Text): Option<CodeUnit>
    requires |t| == 4
  {
    match (HexValue(t[0]), HexValue(t[1]), HexValue(t[2]), HexValue(t[3]))
    case (Some(a), Some(b), Some(c), Some(d)) =>
      assert a < 16 && b < 16 && c < 16 && d < 16;
      Some(a * 0x1000 + b * 0x100 + c * 0x10 + d)
    case _ => None
  }

  /** One possibly escaped code unit, and how much text it took. */
  function ReadUnit(t: Text): (r: Option<(CodeUnit, nat)>)
    requires t != []
    ensures r.Some? ==> 0 < r.value.1 <= |t|
  {
    if t[0] != 0x5c then Some((t[0], 1))
    else if |t| < 2 then None
    else if t[1] == 0x22 || t[1] == 0x5c then Some((t[1], 2))
    else if t[1] == 0x62 then Some((0x08, 2))
    else if t[1] == 0x66 then Some((0x0c, 2))
    else if t[1] == 0x6e then Some((0x0a, 2))
    else if t[1] == 0x72 then Some((0x0d, 2))
    else if t[1] == 0x74 then Some((0x09, 2))
    else if t[1] == 0x75 && |t| >= 6 then
      match ReadHex(t[2..6]) case Some(c) => Some((c, 6)) case None => None
    else None
  }

  /** The rest of a string literal whose opening quote has been read. */
  function ReadString(t: Text): (r: Option<(Text, Text)>)
    ensures r.Some? ==> |r.value.1| < |t|
    decreases |t|
  {
    if t == [] then None
    else if t[0] == 0x22 then Some(([], t[1..]))
    else match ReadUnit(t)
      case None => None
      case Some((c, n)) =>
        match ReadString(t[n..])
        case None => None
        case Some((s, rest)) => Some(([c] + s, rest))
  }

  function ReadDigits(t: Text, acc: nat): (r: (nat, Text))
    ensures |r.1| <= |t|
    decreases |t|
  {
    if t != [] && IsDigit(t[0]) then ReadDigits(t[1..], acc * 10 + (t[0] - 0x30)) else (acc, t)
  }

  predicate StartsWith(t: Text, prefix: Text) {
    |prefix| <= |t| && t[..|prefix|] == prefix
  }

  /** Reads one value of the canonical grammar and returns the text after it. */
  function ReadValue(t: Text): (r: Option<(Json, Text)>)
    ensures r.Some? ==> |r.value.1| < |t|
    decreases |t|, 1
  {
    if t == [] then None
    else if t[0] == 0x5b then
      if |t| > 1 && t[1] == 0x5d then Some((Arr([]), t[2..]))
      else match ReadItems(t[1..])
        case None => None
        case Some((items, rest)) => Some((Arr(items), rest))
    else if t[0] == 0x7b then
      if |t| > 1 && t[1] == 0x7d then Some((Obj([]), t[2..]))
      else match ReadMembers(t[1..])
        case None => None
        case Some((ms, rest)) => Some((Obj(ms), rest))
    else if t[0] == 0x22 then
      match ReadString(t[1..])
      case None => None
      case Some((s, rest)) => Some((Str(s), rest))
    else if t[0] == 0x2d && |t| > 1 && IsDigit(t[1]) then
      var (n, rest) := ReadDigits(t[1..], 0);
      Some((Num(-(n as int)), rest))
    else if IsDigit(t[0]) then
      var (n, rest) := ReadDigits(t[1..], t[0] - 0x30);
      Some((Num(n), rest))
    else if StartsWith(t, Ascii("null")) then Some((Null, t[4..]))
    else if StartsWith(t, Ascii("true")) then Some((Bool(true), t[4..]))
    else if StartsWith(t, Ascii("false")) then Some((Bool(false), t[5..]))
    else None
  }

  /** A non-empty list of array items, up to and including the closing bracket. */
  function ReadItems(t: Text): (r: Option<(seq<Json>, Text)>)
    ensures r.Some? ==> |r.value.1| < |t|
    decreases |t|, 2
  {
    match ReadValue(t)
    case None => None
    case Some((v, rest)) =>
      if rest == [] then None
      else if rest[0] == 0x5d then Some(([v], rest[1..]))
      else if rest[0] != 0x2c then None
      else match ReadItems(rest[1..])
        case None => None
        case Some((vs, end)) => Some(([v] + vs, end))
  }

  /** A non-empty list of object members, up to and including the closing brace. */
  function ReadMembers(t: Text): (r: Option<(seq<Member>, Text)>)
    ensures r.Some? ==> |r.value.1| < |t|
    decreases |t|, 2
  {
    if t == [] || t[0] != 0x22 then None
    else match ReadString(t[1..])
      case None => None
      case Some((key, afterKey)) =>
        if afterKey == [] || afterKey[0] != 0x3a then None
        else match ReadValue(afterKey[1..])
          case None => None
          case Some((v, rest)) =>
            if rest == [] then None
            else if rest[0] == 0x7d then Some(([Member(key, v)], rest[1..]))
            else if rest[0] != 0x2c then None
            else match ReadMembers(rest[1..])
              case None => None
              case Some((ms, end)) => Some(([Member(key, v)] + ms, end))
  }

  // ---------------------------------------------------------------- reading back what was printed

  lemma HexDigitReads(d: nat)
    requires d < 16
    ensures HexValue(Hex(d)) == Some(d)
  {}

  lemma HexDigitsOf(c: CodeUnit)
    ensures c / 0x1000 < 16
    ensures c / 0x1000 * 0x1000 + c / 0x100 % 0x10 * 0x100 + c / 0x10 % 0x10 * 0x10 + c % 0x10 == c
  {
    var high: int, middle: int := c / 0x100, c / 0x10;
    assert c == 0x10 * middle + c % 0x10;
    assert middle == 0x10 * high + middle % 0x10;
    assert high == 0x10 * (c / 0x1000) + high % 0x10;
  }

  lemma ReadHexEscape(c: CodeUnit, suffix: Text)
    ensures ReadUnit(HexEscape(c) + suffix) == Some((c, 6))
  {
    var t := HexEscape(c) + suffix;
    var digits := HexEscape(c)[2..6];
    assert t[2..6] == digits;
    HexDigitsOf(c);
    HexDigitReads(c / 0x1000);
    HexDigitReads(c / 0x100 % 0x10);
    HexDigitReads(c / 0x10 % 0x10);
    HexDigitReads(c % 0x10);
    assert ReadHex(digits) == Some(c);
  }

  lemma ReadEscapeUnit(c: CodeUnit, suffix: Text)
    ensures EscapeUnit(c) != [] && EscapeUnit(c)[0] != 0x22
    ensures ReadUnit(EscapeUnit(c) + suffix) == Some((c, |EscapeUnit(c)|))
  {
    if EscapeUnit(c) == HexEscape(c) {
      ReadHexEscape(c, suffix);
    }
  }

  /** Reading a string whose first code unit was printed as `unit`. */
  lemma ReadStringStep(unit: Text, c: CodeUnit, tail: Text)
    requires unit != [] && unit[0] != 0x22 && ReadUnit(unit + tail) == Some((c, |unit|))
    requires ReadString(tail).Some?
    ensures ReadString(unit + tail) == Some(([c] + ReadString(tail).value.0, ReadString(tail).value.1))
  {
    assert (unit + tail)[|unit|..] == tail;
  }

  lemma Regroup4(a: Text, b: Text, c: Text, d: Text)
    ensures a + b + c + d == a + (b + c + d)
  {}

  lemma Regroup3(a: Text, b: Text, c: Text)
    ensures a + b + c == a + (b + c)
  {}

  lemma {:induction false} ReadEscape(s: Text, suffix: Text)
    ensures ReadString(Escape(s) + [0x22] + suffix) == Some((s, suffix))
    decreases |s|
  {
    if s == [] {
      assert (Escape(s) + [0x22] + suffix)[1..] == suffix;
    } else if |s| >= 2 && IsHigh(s[0]) && IsLow(s[1]) {
      ReadEscape(s[2..], suffix);
      var tail := Escape(s[2..]) + [0x22] + suffix;
      ReadStringStep([s[1]], s[1], tail);
      ReadStringStep([s[0]], s[0], [s[1]] + tail);
      Regroup4(s[..2], Escape(s[2..]), [0x22], suffix);
      Regroup3([s[0]], [s[1]], tail);
      assert s[..2] == [s[0]] + [s[1]];
      assert [s[0]] + ([s[1]] + s[2..]) == s;
    } else {
      ReadEscape(s[1..], suffix);
      var tail := Escape(s[1..]) + [0x22] + suffix;
      ReadEscapeUnit(s[0], tail);
      ReadStringStep(EscapeUnit(s[0]), s[0], tail);
      Regroup4(EscapeUnit(s[0]), Escape(s[1..]), [0x22], suffix);
      assert [s[0]] + s[1..] == s;
    }
  }

  /** Whatever may follow a number without being read as part of it. */
  ghost predicate Delimited(suffix: Text) {
    suffix == [] || !IsDigit(suffix[0])
  }

  function Pow10(k: nat): nat {
    if k == 0 then 1 else 10 * Pow10(k - 1)
  }

  lemma ShiftDigit(acc: nat, p: nat, n: nat)
    ensures (acc * p + n / 10) * 10 + n % 10 == acc * (10 * p) + n
  {
    assert acc * (10 * p) == (acc * p) * 10;
  }

  lemma {:induction false} ReadPrintedDigits(n: nat, suffix: Text, acc: nat)
    ensures ReadDigits(Digits(n) + suffix, acc) == ReadDigits(suffix, acc * Pow10(|Digits(n)|) + n)
    decreases n
  {
    if n < 10 {
      assert (Digits(n) + suffix)[1..] == suffix;
    } else {
      var last := [Digit(n % 10)] + suffix;
      ReadPrintedDigits(n / 10, last, acc);
      assert Digits(n) + suffix == Digits(n / 10) + last;
      assert last[1..] == suffix;
      ShiftDigit(acc, Pow10(|Digits(n / 10)|), n);
    }
  }

  lemma ReadUnsigned(n: nat, suffix: Text)
    requires Delimited(suffix)
    ensures ReadDigits(Digits(n) + suffix, 0) == (n, suffix)
  {
    ReadPrintedDigits(n, suffix, 0);
  }

  lemma ReadPrintedNumber(n: int, suffix: Text)
    requires Delimited(suffix)
    ensures ReadValue(Decimal(n) + suffix) == Some((Num(n), suffix))
  {
    var digits := Digits(if n < 0 then -n else n);
    ReadUnsigned(if n < 0 then -n else n, suffix);
    if n < 0 {
      var t := [0x2d] + (digits + suffix);
      Regroup3([0x2d], digits, suffix);
      assert t[1..] == digits + suffix;
    } else {
      var t := digits + suffix;
      assert ReadDigits(t, 0) == ReadDigits(t[1..], t[0] - 0x30);
    }
  }

  lemma ReadPrintedString(s: Text, suffix: Text)
    ensures ReadValue(Quote(s) + suffix) == Some((Str(s), suffix))
  {
    assert (Quote(s) + suffix)[1..] == Escape(s) + [0x22] + suffix;
    ReadEscape(s, suffix);
  }

  /** The first code unit of a canonical text never closes or separates anything. */
  lemma CanonicalHead(v: Json)
    ensures Canonicalize(v) != [] && Canonicalize(v)[0] !in {0x5d, 0x7d, 0x2c, 0x3a}
  {
    match v
    case Num(n) =>
    case _ =>
  }

  // One step of the reader at a time.

  lemma ReadArrayText(body: Text)
    requires body != [] && body[0] != 0x5d && ReadItems(body).Some?
    ensures ReadValue([0x5b] + body) == Some((Arr(ReadItems(body).value.0), ReadItems(body).value.1))
  {
    assert ([0x5b] + body)[1..] == body;
  }

  lemma ReadObjectText(body: Text)
    requires body != [] && body[0] != 0x7d && ReadMembers(body).Some?
    ensures ReadValue([0x7b] + body) == Some((Obj(ReadMembers(body).value.0), ReadMembers(body).value.1))
  {
    assert ([0x7b] + body)[1..] == body;
  }

  lemma ReadLastItem(t: Text, v: Json, suffix: Text)
    requires ReadValue(t) == Some((v, [0x5d] + suffix))
    ensures ReadItems(t) == Some(([v], suffix))
  {
    assert ([0x5d] + suffix)[1..] == suffix;
  }

  lemma ReadAnotherItem(t: Text, v: Json, tail: Text)
    requires ReadValue(t) == Some((v, [0x2c] + tail)) && ReadItems(tail).Some?
    ensures ReadItems(t) == Some(([v] + ReadItems(tail).value.0, ReadItems(tail).value.1))
  {
    assert ([0x2c] + tail)[1..] == tail;
  }

  lemma ReadLastMember(key: Text, value: Text, v: Json, suffix: Text)
    requires ReadValue(value) == Some((v, [0x7d] + suffix))
    ensures ReadMembers(Quote(key) + [0x3a] + value) == Some(([Member(key, v)], suffix))
  {
    ReadKey(key, value);
    assert ([0x7d] + suffix)[1..] == suffix;
  }

  lemma ReadAnotherMember(key: Text, value: Text, v: Json, tail: Text)
    requires ReadValue(value) == Some((v, [0x2c] + tail)) && ReadMembers(tail).Some?
    ensures ReadMembers(Quote(key) + [0x3a] + value)
            == Some(([Member(key, v)] + ReadMembers(tail).value.0, ReadMembers(tail).value.1))
  {
    ReadKey(key, value);
    assert ([0x2c] + tail)[1..] == tail;
  }

  lemma ReadKey(key: Text, value: Text)
    ensures var t := Quote(key) + [0x3a] + value;
            t[0] == 0x22 && ReadString(t[1..]) == Some((key, [0x3a] + value))
    ensures ([0x3a] + value)[1..] == value
  {
    var t := Quote(key) + [0x3a] + value;
    assert t[1..] == Escape(key) + [0x22] + ([0x3a] + value);
    ReadEscape(key, [0x3a] + value);
  }

  /** Canonical text is uniquely readable: reading it in front of any delimited suffix
      gives the key-sorted value and leaves the suffix untouched. */
  lemma {:induction false} ReadCanonical(v: Json, suffix: Text)
    requires Delimited(suffix)
    ensures ReadValue(Canonicalize(v) + suffix) == Some((Normalize(v), suffix))
    decreases Size(v), 1
  {
    match v
    case Null => ReadWord(v, suffix);
    case Bool(b) => ReadWord(v, suffix);
    case Num(n) => ReadPrintedNumber(n, suffix);
    case Str(s) => ReadPrintedString(s, suffix);
    case Arr(items) =>
      if items == [] {
        ReadEmpty(v, suffix);
      } else {
        ReadJoinedItems(items, suffix);
        ReadArrayText(JoinItems(items) + ([0x5d] + suffix));
        WrappedText(0x5b, JoinItems(items), 0x5d, suffix);
      }
    case Obj(ms) =>
      if ms == [] {
        ReadEmpty(v, suffix);
      } else {
        var sorted := SortMembers(ms);
        assert sorted != [] by { assert ms[0] in multiset(sorted); }
        ReadJoinedMembers(sorted, suffix);
        ReadObjectText(JoinMembers(sorted) + ([0x7d] + suffix));
        WrappedText(0x7b, JoinMembers(sorted), 0x7d, suffix);
      }
  }

  lemma RegroupMember(key: Text, text: Text, after: Text)
    ensures key + [0x3a] + text + after == key + [0x3a] + (text + after)
  {}

  lemma RegroupList(first: Text, rest: Text, after: Text)
    ensures first + [0x2c] + rest + after == first + ([0x2c] + (rest + after))
  {}

  lemma WrappedText(open: CodeUnit, body: Text, close: CodeUnit, suffix: Text)
    ensures [open] + body + [close] + suffix == [open] + (body + ([close] + suffix))
  {}

  lemma ReadEmpty(v: Json, suffix: Text)
    requires v == Arr([]) || v == Obj([])
    ensures ReadValue(Canonicalize(v) + suffix) == Some((v, suffix)) && Normalize(v) == v
  {
    var t := Canonicalize(v) + suffix;
    assert t[2..] == suffix;
  }

  lemma ReadWord(v: Json, suffix: Text)
    requires v.Null? || v.Bool?
    ensures ReadValue(Canonicalize(v) + suffix) == Some((v, suffix))
  {
    var word := Canonicalize(v);
    var t := word + suffix;
    assert t[..|word|] == word && t[|word|..] == suffix;
    assert t[..|word|][0] == word[0] && t[..4][0] == word[0];
  }

  lemma {:induction false} ReadJoinedItems(items: seq<Json>, suffix: Text)
    requires items != []
    ensures JoinItems(items) != [] && JoinItems(items)[0] != 0x5d
    ensures ReadItems(JoinItems(items) + ([0x5d] + suffix)) == Some((NormalizeItems(items), suffix))
    decreases ItemsSize(items), 3, |items|
  {
    CanonicalHead(items[0]);
    var t := JoinItems(items) + ([0x5d] + suffix);
    if |items| == 1 {
      ReadCanonical(items[0], [0x5d] + suffix);
      ReadLastItem(t, Normalize(items[0]), suffix);
      assert NormalizeItems(items) == [Normalize(items[0])];
    } else {
      var tail := JoinItems(items[1..]) + ([0x5d] + suffix);
      ReadCanonical(items[0], [0x2c] + tail);
      ReadJoinedItems(items[1..], suffix);
      RegroupList(Canonicalize(items[0]), JoinItems(items[1..]), [0x5d] + suffix);
      ReadAnotherItem(t, Normalize(items[0]), tail);
    }
  }

  lemma {:induction false} ReadJoinedMembers(ms: seq<Member>, suffix: Text)
    requires ms != []
    ensures JoinMembers(ms) != [] && JoinMembers(ms)[0] == 0x22
    ensures ReadMembers(JoinMembers(ms) + ([0x7d] + suffix)) == Some((NormalizeMembers(ms), suffix))
    decreases MembersSize(ms), 3, |ms|
  {
    var t := JoinMembers(ms) + ([0x7d] + suffix);
    var text := Canonicalize(ms[0].value);
    var v := Normalize(ms[0].value);
    if |ms| == 1 {
      ReadCanonical(ms[0].value, [0x7d] + suffix);
      assert JoinMembers(ms) == CanonicalMember(ms[0]);
      RegroupMember(Quote(ms[0].key), text, [0x7d] + suffix);
      ReadLastMember(ms[0].key, text + ([0x7d] + suffix), v, suffix);
      assert NormalizeMembers(ms) == [Member(ms[0].key, v)];
    } else {
      var tail := JoinMembers(ms[1..]) + ([0x7d] + suffix);
      ReadCanonical(ms[0].value, [0x2c] + tail);
      ReadJoinedMembers(ms[1..], suffix);
      assert JoinMembers(ms) == CanonicalMember(ms[0]) + [0x2c] + JoinMembers(ms[1..]);
      assert t == CanonicalMember(ms[0]) + ([0x2c] + tail) by {
        RegroupList(CanonicalMember(ms[0]), JoinMembers(ms[1..]), [0x7d] + suffix);
      }
      RegroupMember(Quote(ms[0].key), text, [0x2c] + tail);
      ReadAnotherMember(ms[0].key, text + ([0x2c] + tail), v, tail);
    }
  }

  /** Two values print the same exactly when they have the same key-sorted form. */
  lemma CanonicalTextIsInjective(a: Json, b: Json)
    requires Canonicalize(a) == Canonicalize(b)
    ensures Normalize(a) == Normalize(b)
  {
    ReadCanonical(a, []);
    ReadCanonical(b, []);
    assert Canonicalize(a) + [] == Canonicalize(a) && Canonicalize(b) + [] == Canonicalize(b);
  }
}
