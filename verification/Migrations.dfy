/** The migration runner: which files it accepts, and what any number of runs that may fail or
    stop at any point do to the database. */
module Migrations {
  import opened Wrappers
  import opened Texts
  import Canonical

  datatype MigrationFile = MigrationFile(id: Text, sql: Text)

  // ---------------------------------------------------------------- loading the files

  predicate IsDigit(u: CodeUnit) {
    0x30 <= u <= 0x39
  }

  /** One of the characters that may follow the number: a-z, 0-9 or an underscore. */
  predicate IsNameUnit(u: CodeUnit) {
    0x61 <= u <= 0x7A || IsDigit(u) || u == 0x5F
  }

  /** Four digits, an underscore and a name. */
  predicate IsMigrationId(id: Text) {
    && |id| >= 6
    && (forall i | 0 <= i < 4 :: IsDigit(id[i])) && id[4] == 0x5F
    && forall i | 5 <= i < |id| :: IsNameUnit(id[i])
  }

  const SUFFIX: Text := [0x2E, 0x73, 0x71, 0x6C]

  /** The directory entries that the file pattern accepts: an id followed by `.sql`. */
  predicate IsMigrationFile(entry: Text) {
    |entry| >= 4 && entry[|entry| - 4..] == SUFFIX && IsMigrationId(entry[..|entry| - 4])
  }

  function IdOf(entry: Text): Text
    requires |entry| >= 4
  {
    entry[..|entry| - 4]
  }

  function DigitValue(u: int): int {
    u - 0x30
  }

  /** The number that a migration's id starts with. */
  function NumberOf(id: Text): int {
    if |id| < 4 then 0
    else DigitValue(id[0]) * 1000 + DigitValue(id[1]) * 100 + DigitValue(id[2]) * 10 + DigitValue(id[3])
  }

  /** A decimal number padded to four digits. */
  function Padded(n: nat): Text {
    var digits := Canonical.Digits(n);
    seq(if |digits| < 4 then 4 - |digits| else 0, _ => 0x30) + digits
  }

  predicate StartsWith(t: Text, prefix: Text) {
    |prefix| <= |t| && t[..|prefix|] == prefix
  }

  lemma SmallDigits(n: nat)
    requires n < 10000
    ensures Padded(n) == [0x30 + n / 1000, 0x30 + n / 100 % 10, 0x30 + n / 10 % 10, 0x30 + n % 10]
  {
    assert n / 10 / 10 == n / 100 && n / 10 / 10 / 10 == n / 1000;
    if n < 10 {
    } else if n < 100 {
      assert Canonical.Digits(n) == Canonical.Digits(n / 10) + [0x30 + n % 10];
    } else if n < 1000 {
      assert Canonical.Digits(n / 10) == Canonical.Digits(n / 100) + [0x30 + n / 10 % 10];
    } else {
      assert Canonical.Digits(n / 100) == Canonical.Digits(n / 1000) + [0x30 + n / 100 % 10];
      assert Canonical.Digits(n / 10) == Canonical.Digits(n / 100) + [0x30 + n / 10 % 10];
    }
  }

  lemma FourDigits(a: int, b: int, c: int, d: int, n: nat)
    requires 0 <= a <= 9 && 0 <= b <= 9 && 0 <= c <= 9 && 0 <= d <= 9 && n < 10000
    ensures n / 1000 == a && n / 100 % 10 == b && n / 10 % 10 == c && n % 10 == d
       <==> n == a * 1000 + b * 100 + c * 10 + d
  {
    var tens, hundreds := n / 10, n / 100;
    assert hundreds == tens / 10 && n / 1000 == hundreds / 10;
    assert n == 10 * tens + n % 10 && tens == 10 * hundreds + tens % 10;
    assert hundreds == 10 * (hundreds / 10) + hundreds % 10;
    if n == a * 1000 + b * 100 + c * 10 + d {
      assert tens == 100 * a + 10 * b + c;
      assert hundreds == 10 * a + b;
    }
  }

  /** The check of a file's number succeeds exactly when the number is the expected one. */
  lemma PrefixIsTheNumber(id: Text, n: nat)
    requires IsMigrationId(id)
    ensures StartsWith(id, Padded(n)) <==> NumberOf(id) == n
  {
    if n < 10000 {
      SmallDigits(n);
      FourDigits(DigitValue(id[0]), DigitValue(id[1]), DigitValue(id[2]), DigitValue(id[3]), n);
      SameFourUnits(id, Padded(n));
    } else {
      LargeNumbersAreLong(n);
      if StartsWith(id, Padded(n)) {
        UnitOfPrefix(id, Padded(n), 4);
        assert false;
      }
    }
  }

  lemma UnitOfPrefix(t: Text, prefix: Text, i: nat)
    requires StartsWith(t, prefix) && i < |prefix|
    ensures t[i] == prefix[i]
  {}

  lemma SameFourUnits(t: Text, prefix: Text)
    requires |t| >= 4 && |prefix| == 4
    ensures StartsWith(t, prefix)
       <==> t[0] == prefix[0] && t[1] == prefix[1] && t[2] == prefix[2] && t[3] == prefix[3]
  {}

  lemma LargeNumbersAreLong(n: nat)
    requires n >= 10000
    ensures |Padded(n)| >= 5 && IsDigit(Padded(n)[4])
  {
    var d := n / 1000;
    assert n / 10 / 10 / 10 == d && d >= 10;
    assert |Canonical.Digits(d)| >= 2;
    assert |Canonical.Digits(n / 10 / 10)| >= 3;
    assert |Canonical.Digits(n / 10)| >= 4;
    assert Padded(n) == Canonical.Digits(n);
  }

  lemma OrderOfFirstUnits(a: Text, b: Text)
    requires AtMost(a, b) && a != [] && b != []
    ensures a[0] < b[0] || (a[0] == b[0] && AtMost(a[1..], b[1..]))
  {}

  /** The order of ids is the order of numbers. */
  lemma OrderIsByNumber(a: Text, b: Text)
    requires IsMigrationId(a) && IsMigrationId(b) && AtMost(a, b)
    ensures NumberOf(a) <= NumberOf(b)
  {
    OrderOfFirstUnits(a, b);
    if a[0] == b[0] {
      OrderOfFirstUnits(a[1..], b[1..]);
      if a[1] == b[1] {
        assert a[1..][1..] == a[2..] && b[1..][1..] == b[2..];
        OrderOfFirstUnits(a[2..], b[2..]);
        if a[2] == b[2] {
          assert a[2..][1..] == a[3..] && b[2..][1..] == b[3..];
          OrderOfFirstUnits(a[3..], b[3..]);
        }
      }
    }
  }

  function InsertFile(f: MigrationFile, files: seq<MigrationFile>): (r: seq<MigrationFile>)
    ensures multiset(r) == multiset(files) + multiset{f}
  {
    if files == [] || AtMost(f.id, files[0].id) then [f] + files
    else
      assert files == [files[0]] + files[1..];
      [files[0]] + InsertFile(f, files[1..])
  }

  function SortFiles(files: seq<MigrationFile>): (r: seq<MigrationFile>)
    ensures multiset(r) == multiset(files)
  {
    if files == [] then []
    else
      assert files == [files[0]] + files[1..];
      InsertFile(files[0], SortFiles(files[1..]))
  }

  ghost predicate InIdOrder(files: seq<MigrationFile>) {
    forall i, j | 0 <= i < j < |files| :: AtMost(files[i].id, files[j].id)
  }

  lemma {:induction false} InsertFileKeepsOrder(f: MigrationFile, files: seq<MigrationFile>)
    requires InIdOrder(files)
    ensures InIdOrder(InsertFile(f, files))
  {
    if files == [] {
    } else if AtMost(f.id, files[0].id) {
      forall j | 0 <= j < |files| ensures AtMost(f.id, files[j].id) {
        if j > 0 { AtMostTransitive(f.id, files[0].id, files[j].id); }
      }
    } else {
      AtMostTotal(f.id, files[0].id);
      InsertFileKeepsOrder(f, files[1..]);
      var r := InsertFile(f, files[1..]);
      forall j | 0 <= j < |r| ensures AtMost(files[0].id, r[j].id) {
        assert r[j] in multiset(r);
        assert r[j] == f || r[j] in files[1..];
      }
    }
  }

  lemma {:induction false} SortFilesIsInOrder(files: seq<MigrationFile>)
    ensures InIdOrder(SortFiles(files))
  {
    if files != [] {
      SortFilesIsInOrder(files[1..]);
      InsertFileKeepsOrder(files[0], SortFiles(files[1..]));
    }
  }

  /** The migrations among the directory entries. */
  function Matching(entries: seq<Text>, content: Text -> Text): (r: seq<MigrationFile>)
    ensures AllMigrations(r)
  {
    if entries == [] then []
    else
      var last := entries[|entries| - 1];
      Matching(entries[..|entries| - 1], content)
      + if IsMigrationFile(last) then [MigrationFile(IdOf(last), content(last))] else []
  }

  /** The files are numbered 1, 2, 3 and so on, in this order. */
  ghost predicate Numbered(files: seq<MigrationFile>) {
    forall i | 0 <= i < |files| :: IsMigrationId(files[i].id) && NumberOf(files[i].id) == i + 1
  }

  /** `loadMigrationFiles`: the error is the index of the first file out of sequence. */
  method LoadMigrationFiles(entries: seq<Text>, content: Text -> Text) returns (r: Result<seq<MigrationFile>, nat>)
    ensures var sorted := SortFiles(Matching(entries, content));
            match r
            case Ok(files) => files == sorted && Numbered(files)
            case Err(i) => i < |sorted| && Numbered(sorted[..i]) && !Numbered(sorted[..i + 1])
  {
    var files: seq<MigrationFile> := [];
    for k := 0 to |entries|
      invariant files == Matching(entries[..k], content)
    {
      assert entries[..k + 1][..k] == entries[..k];
      if !IsMigrationFile(entries[k]) { continue; }
      files := files + [MigrationFile(IdOf(entries[k]), content(entries[k]))];
    }
    assert entries[..|entries|] == entries;
    SortedAreMigrations(files);
    files := SortFiles(files);
    var wrong := FirstOutOfSequence(files);
    r := if wrong.Some? then Err(wrong.value) else Ok(files);
  }

  method FirstOutOfSequence(files: seq<MigrationFile>) returns (wrong: Option<nat>)
    requires AllMigrations(files)
    ensures match wrong
            case None => Numbered(files)
            case Some(i) => i < |files| && Numbered(files[..i]) && !Numbered(files[..i + 1])
  {
    for i := 0 to |files|
      invariant Numbered(files[..i])
    {
      PrefixIsTheNumber(files[i].id, i + 1);
      assert files[..i + 1][i] == files[i];
      var expected := Padded(i + 1);
      if !StartsWith(files[i].id, expected) {
        return Some(i);
      }
      assert files[..i + 1] == files[..i] + [files[i]];
    }
    assert files[..|files|] == files;
    return None;
  }

  ghost predicate AllMigrations(files: seq<MigrationFile>) {
    forall i | 0 <= i < |files| :: IsMigrationId(files[i].id)
  }

  lemma SortedAreMigrations(files: seq<MigrationFile>)
    requires AllMigrations(files)
    ensures |SortFiles(files)| == |files| && AllMigrations(SortFiles(files))
  {
    var r := SortFiles(files);
    assert |multiset(r)| == |files|;
    forall i | 0 <= i < |r| ensures IsMigrationId(r[i].id) {
      assert r[i] in multiset(files);
    }
  }

  ghost predicate DistinctBy(files: seq<MigrationFile>, key: MigrationFile -> int) {
    forall i, j | 0 <= i < j < |files| :: key(files[i]) != key(files[j])
  }

  lemma DistinctHead(f: MigrationFile, files: seq<MigrationFile>, key: MigrationFile -> int)
    ensures DistinctBy([f] + files, key) <==> DistinctBy(files, key) && forall g | g in files :: key(g) != key(f)
  {
    var all := [f] + files;
    assert forall i | 0 <= i < |files| :: all[i + 1] == files[i];
    if DistinctBy(all, key) {
      forall i, j | 0 <= i < j < |files| ensures key(files[i]) != key(files[j]) {
        assert key(all[i + 1]) != key(all[j + 1]);
      }
      forall g | g in files ensures key(g) != key(f) {
        var i :| 0 <= i < |files| && files[i] == g;
        assert key(all[0]) != key(all[i + 1]);
      }
    }
  }

  lemma InsertedElements(f: MigrationFile, files: seq<MigrationFile>, g: MigrationFile)
    ensures g in InsertFile(f, files) <==> g == f || g in files
  {
    assert g in multiset(InsertFile(f, files)) <==> g in multiset(files) + multiset{f};
  }

  lemma {:induction false} InsertFileKeepsDistinct(
    f: MigrationFile, files: seq<MigrationFile>, key: MigrationFile -> int)
    ensures DistinctBy(InsertFile(f, files), key) <==> DistinctBy([f] + files, key)
  {
    if files != [] && !AtMost(f.id, files[0].id) {
      var x, rest := files[0], files[1..];
      InsertFileKeepsDistinct(f, rest, key);
      forall g ensures g in InsertFile(f, rest) <==> g == f || g in rest {
        InsertedElements(f, rest, g);
      }
      assert files == [x] + rest;
      DistinctHead(x, InsertFile(f, rest), key);
      DistinctHead(f, files, key);
      DistinctHead(x, rest, key);
      DistinctHead(f, rest, key);
    }
  }

  lemma {:induction false} SortFilesKeepsDistinct(files: seq<MigrationFile>, key: MigrationFile -> int)
    ensures DistinctBy(SortFiles(files), key) <==> DistinctBy(files, key)
  {
    if files != [] {
      var rest := files[1..];
      SortFilesKeepsDistinct(rest, key);
      InsertFileKeepsDistinct(files[0], SortFiles(rest), key);
      DistinctHead(files[0], SortFiles(rest), key);
      DistinctHead(files[0], rest, key);
      assert files == [files[0]] + rest;
      forall g ensures g in SortFiles(rest) <==> g in rest {
        assert g in multiset(SortFiles(rest)) <==> g in multiset(rest);
      }
    }
  }

  function NumberKey(): MigrationFile -> int {
    (f: MigrationFile) => NumberOf(f.id)
  }

  /** In whatever order, the n migrations use up the numbers from 1 to n. */
  ghost predicate Gapless(files: seq<MigrationFile>) {
    AllMigrations(files) && DistinctBy(files, NumberKey()) && WithinCount(files)
  }

  /** Distinct numbers in ascending order within 1..n are 1, 2, ..., n. */
  lemma {:induction false} SqueezedNumbers(files: seq<MigrationFile>, i: nat)
    requires InIdOrder(files) && Gapless(files) && i < |files|
    ensures NumberOf(files[i].id) >= i + 1
    decreases i
  {
    if i > 0 {
      SqueezedNumbers(files, i - 1);
      assert NumberKey()(files[i - 1]) != NumberKey()(files[i]);
      OrderIsByNumber(files[i - 1].id, files[i].id);
    }
  }

  lemma {:induction false} SqueezedFromAbove(files: seq<MigrationFile>, i: nat)
    requires InIdOrder(files) && Gapless(files) && i < |files|
    ensures NumberOf(files[i].id) <= i + 1
    decreases |files| - i
  {
    if i + 1 < |files| {
      SqueezedFromAbove(files, i + 1);
      assert NumberKey()(files[i]) != NumberKey()(files[i + 1]);
      OrderIsByNumber(files[i].id, files[i + 1].id);
    }
  }

  /** Loading succeeds exactly when the migrations in the directory use up the numbers from 1
      to their count, and then lists every one of them in the order of its number. */
  lemma LoadingSucceedsOnGapless(entries: seq<Text>, content: Text -> Text)
    ensures Numbered(SortFiles(Matching(entries, content))) <==> Gapless(Matching(entries, content))
    ensures multiset(SortFiles(Matching(entries, content))) == multiset(Matching(entries, content))
  {
    var files := Matching(entries, content);
    var sorted := SortFiles(files);
    SortFilesKeepsDistinct(files, NumberKey());
    SortedAreMigrations(files);
    SameRange(files, sorted);
    assert Numbered(sorted) ==> Gapless(sorted);
    if Gapless(sorted) {
      SortFilesIsInOrder(files);
      forall i | 0 <= i < |sorted| ensures NumberOf(sorted[i].id) == i + 1 {
        SqueezedNumbers(sorted, i);
        SqueezedFromAbove(sorted, i);
      }
    }
  }

  ghost predicate WithinCount(files: seq<MigrationFile>) {
    forall i | 0 <= i < |files| :: 1 <= NumberOf(files[i].id) <= |files|
  }

  lemma SameRange(files: seq<MigrationFile>, sorted: seq<MigrationFile>)
    requires multiset(files) == multiset(sorted)
    ensures WithinCount(files) <==> WithinCount(sorted)
  {
    assert |multiset(files)| == |files| && |multiset(sorted)| == |sorted|;
    forall f ensures f in files <==> f in sorted {
      assert f in multiset(files) <==> f in multiset(sorted);
    }
    assert WithinCount(files) <==> forall f | f in files :: 1 <= NumberOf(f.id) <= |files|;
    assert WithinCount(sorted) <==> forall f | f in sorted :: 1 <= NumberOf(f.id) <= |files|;
  }
}
