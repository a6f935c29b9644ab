/** Which directory entries are migrations, and what loading makes of them. */
module MigrationFiles {
  import opened Texts
  import opened Migrations
  import Canonical
  import CanonicalTexts

  // ---------------------------------------------------------------- names

  ghost predicate IsFigure(u: CodeUnit) {
    '0' as int <= u <= '9' as int
  }

  ghost predicate IsLetter(u: CodeUnit) {
    'a' as int <= u <= 'z' as int
  }

  /** Four digits, an underscore, at least one unit of a name, and `.sql` to end with. */
  ghost predicate IsMigrationName(entry: Text) {
    && |entry| >= 10
    && (forall i | 0 <= i < 4 :: IsFigure(entry[i]))
    && entry[4..5] == Ascii("_")
    && (forall i | 5 <= i < |entry| - 4 :: IsLetter(entry[i]) || IsFigure(entry[i]) || entry[i] == '_' as int)
    && entry[|entry| - 4..] == Ascii(".sql")
  }

  lemma NameExactly(entry: Text)
    ensures IsMigrationFile(entry) <==> IsMigrationName(entry)
  {
    if |entry| >= 10 {
      var id := entry[..|entry| - 4];
      assert forall i | 0 <= i < |id| :: id[i] == entry[i];
      assert entry[4..5] == [id[4]];
    }
  }

  // ---------------------------------------------------------------- loading

  /** The file that a directory entry stands for: its id is the name without the last four units. */
  function FileOf(entry: Text, content: Text -> Text): MigrationFile
    requires |entry| >= 4
  {
    MigrationFile(entry[..|entry| - 4], content(entry))
  }

  lemma {:induction false} MatchingExactly(entries: seq<Text>, content: Text -> Text, f: MigrationFile)
    ensures f in Matching(entries, content)
       <==> exists k :: 0 <= k < |entries| && IsMigrationName(entries[k]) && f == FileOf(entries[k], content)
  {
    if entries != [] {
      var n := |entries| - 1;
      var before, last := entries[..n], entries[n];
      MatchingExactly(before, content, f);
      NameExactly(last);
      if k :| 0 <= k < n && IsMigrationName(before[k]) && f == FileOf(before[k], content) {
        assert IsMigrationName(entries[k]) && f == FileOf(entries[k], content);
      }
      if k :| 0 <= k < |entries| && IsMigrationName(entries[k]) && f == FileOf(entries[k], content) {
        if k < n { assert IsMigrationName(before[k]) && f == FileOf(before[k], content); }
      }
    }
  }

  ghost function NamedAt(entries: seq<Text>): set<nat> {
    set k: nat | k < |entries| && IsMigrationName(entries[k])
  }

  lemma {:induction false} CountExactly(entries: seq<Text>, content: Text -> Text)
    ensures |Matching(entries, content)| == |NamedAt(entries)|
  {
    if entries != [] {
      var n := |entries| - 1;
      CountExactly(entries[..n], content);
      NameExactly(entries[n]);
      assert NamedAt(entries) == NamedAt(entries[..n]) + if IsMigrationName(entries[n]) then {n} else {};
    }
  }

  /** What loading answers with holds every migration of the directory and nothing else, one
      behind the other by their numbers. */
  lemma LoadedExactly(entries: seq<Text>, content: Text -> Text)
    ensures var files := SortFiles(Matching(entries, content));
            && (forall f :: f in files <==>
                  exists k :: 0 <= k < |entries| && IsMigrationName(entries[k]) && f == FileOf(entries[k], content))
            && |files| == |NamedAt(entries)|
            && (forall i, j | 0 <= i < j < |files| :: CanonicalTexts.ComesFirst(files[i].id, files[j].id))
  {
    CountExactly(entries, content);
    assert |multiset(SortFiles(Matching(entries, content)))| == |multiset(Matching(entries, content))|;
    var files := SortFiles(Matching(entries, content));
    forall f
      ensures f in files <==>
        exists k :: 0 <= k < |entries| && IsMigrationName(entries[k]) && f == FileOf(entries[k], content)
    {
      assert f in multiset(files) <==> f in multiset(Matching(entries, content));
      MatchingExactly(entries, content, f);
    }
    SortFilesIsInOrder(Matching(entries, content));
    forall i, j | 0 <= i < j < |files| ensures CanonicalTexts.ComesFirst(files[i].id, files[j].id) {
      CanonicalTexts.AtMostExactly(files[i].id, files[j].id);
    }
  }

  // ---------------------------------------------------------------- numbers

  /** The number of a migration is what its first four digits say. */
  lemma NumberExactly(id: Text)
    requires IsMigrationId(id)
    ensures NumberOf(id) == CanonicalTexts.ValueOf(id[..4])
  {
    var t := id[..4];
    assert t[..3] == id[..3] && id[..3][..2] == id[..2] && id[..2][..1] == id[..1] && id[..1][..0] == [];
    assert CanonicalTexts.ValueOf(id[..1]) == id[0] as int - 0x30;
    assert CanonicalTexts.ValueOf(id[..2]) == 10 * CanonicalTexts.ValueOf(id[..1]) + (id[1] as int - 0x30);
    assert CanonicalTexts.ValueOf(id[..3]) == 10 * CanonicalTexts.ValueOf(id[..2]) + (id[2] as int - 0x30);
  }

  lemma {:induction false} ZerosInFront(digits: Text)
    ensures CanonicalTexts.ValueOf([0x30] + digits) == CanonicalTexts.ValueOf(digits)
  {
    if digits == [] {
      assert ([0x30] + digits)[..0] == [];
    } else {
      var t := [0x30] + digits;
      ZerosInFront(digits[..|digits| - 1]);
      assert t[..|t| - 1] == [0x30] + digits[..|digits| - 1];
    }
  }

  /** The prefix that is expected of file number n: its decimal digits, filled up with zeros to
      four. */
  lemma PaddedExactly(n: nat)
    ensures CanonicalTexts.ValueOf(Padded(n)) == n && |Padded(n)| >= 4
    ensures forall i | 0 <= i < |Padded(n)| :: IsFigure(Padded(n)[i])
    ensures |Padded(n)| > 4 ==> Padded(n)[0] != 0x30
  {
    var digits := Canonical.Digits(n);
    CanonicalTexts.DigitsArePlain(n);
    if |digits| == 1 {
      assert Padded(n) == [0x30] + ([0x30] + ([0x30] + digits));
      ZerosInFront([0x30] + ([0x30] + digits));
      ZerosInFront([0x30] + digits);
      ZerosInFront(digits);
    } else if |digits| == 2 {
      assert Padded(n) == [0x30] + ([0x30] + digits);
      ZerosInFront([0x30] + digits);
      ZerosInFront(digits);
    } else if |digits| == 3 {
      assert Padded(n) == [0x30] + digits;
      ZerosInFront(digits);
    } else {
      assert Padded(n) == digits;
    }
  }
}
