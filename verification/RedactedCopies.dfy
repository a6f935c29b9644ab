/** What the redacted copy of a value is, told by the values on both sides. */
module RedactedCopies {
  import opened Texts
  import opened Json
  import opened Redaction

  // ---------------------------------------------------------------- sensitive keys

  /** The alternatives of the sensitive-key pattern, each optional part spelled out. */
  function Alternatives(): seq<Text> {
    [ Ascii("pass"), Ascii("password"), Ascii("passphrase"), Ascii("secret"), Ascii("token"),
      Ascii("apikey"), Ascii("api-key"), Ascii("api_key"),
      Ascii("accesskey"), Ascii("access-key"), Ascii("access_key"),
      Ascii("privatekey"), Ascii("private-key"), Ascii("private_key"),
      Ascii("credential"), Ascii("authorization"), Ascii("auth"), Ascii("cookie"), Ascii("session"),
      Ascii("bearer"), Ascii("clientsecret"), Ascii("client-secret"), Ascii("client_secret"), Ascii("signature") ]
  }

  /** The code units agree, or the first is the capital of the second. */
  ghost predicate SameLetter(u: CodeUnit, w: CodeUnit) {
    (u == w && !(0x41 <= u <= 0x5A)) || (0x41 <= u <= 0x5A && u + 0x20 == w)
  }

  ghost predicate OccursAt(key: Text, word: Text, i: nat) {
    i + |word| <= |key| && forall j | 0 <= j < |word| :: SameLetter(key[i + j], word[j])
  }

  /** Somewhere in the key the word occurs, in small letters or in capitals. */
  ghost predicate Occurs(key: Text, word: Text) {
    exists i: nat :: OccursAt(key, word, i)
  }

  lemma OccursAtInLower(key: Text, word: Text, i: nat)
    requires i + |word| <= |key|
    ensures OccursAt(key, word, i) <==> Lower(key)[i..i + |word|] == word
  {
    var there := Lower(key)[i..i + |word|];
    forall j | 0 <= j < |word| ensures SameLetter(key[i + j], word[j]) <==> there[j] == word[j] {
      assert there[j] == Lower(key)[i + j];
    }
  }

  lemma {:induction false} FoundExactly(key: Text, word: Text, from: nat)
    ensures FoundFrom(Lower(key), word, from) <==> exists i: nat :: from <= i && OccursAt(key, word, i)
    decreases |key| - from
  {
    if from + |word| <= |key| {
      OccursAtInLower(key, word, from);
      FoundExactly(key, word, from + 1);
    }
  }

  lemma {:induction false} AnyFoundExactly(key: Text, words: seq<Text>)
    ensures AnyFound(Lower(key), words) <==> exists w :: 0 <= w < |words| && Occurs(key, words[w])
  {
    if words != [] {
      FoundExactly(key, words[0], 0);
      AnyFoundExactly(key, words[1..]);
      if w :| 0 <= w < |words| && Occurs(key, words[w]) {
        if w > 0 { assert words[1..][w - 1] == words[w]; }
      }
      if w :| 0 <= w < |words[1..]| && Occurs(key, words[1..][w]) {
        assert words[w + 1] == words[1..][w];
      }
    }
  }

  /** What contains a word contains its parts. */
  lemma PartOccurs(key: Text, word: Text, from: nat, part: Text)
    requires Occurs(key, word) && from + |part| <= |word| && word[from..from + |part|] == part
    ensures Occurs(key, part)
  {
    var i: nat :| OccursAt(key, word, i);
    forall j | 0 <= j < |part| ensures SameLetter(key[i + from + j], part[j]) {
      assert part[j] == word[from + j];
      assert SameLetter(key[i + (from + j)], word[from + j]);
    }
    assert OccursAt(key, part, i + from);
  }

  /** The longer alternatives that hold a shorter one. */
  lemma LongerAlternatives(key: Text, w: nat)
    requires w in {1, 2, 15, 20, 21, 22} && Occurs(key, Alternatives()[w])
    ensures Occurs(key, Ascii("pass")) || Occurs(key, Ascii("secret")) || Occurs(key, Ascii("auth"))
  {
    if w < 20 { LongerPasswords(key, w); } else { LongerSecrets(key, w); }
  }

  lemma LongerPasswords(key: Text, w: nat)
    requires w in {1, 2, 15} && Occurs(key, Alternatives()[w])
    ensures Occurs(key, Ascii("pass")) || Occurs(key, Ascii("auth"))
  {
    match w
    case 1 => PartOccurs(key, Ascii("password"), 0, Ascii("pass"));
    case 2 => PartOccurs(key, Ascii("passphrase"), 0, Ascii("pass"));
    case _ => PartOccurs(key, Ascii("authorization"), 0, Ascii("auth"));
  }

  lemma LongerSecrets(key: Text, w: nat)
    requires w in {20, 21, 22} && Occurs(key, Alternatives()[w])
    ensures Occurs(key, Ascii("secret"))
  {
    match w
    case 20 => PartOccurs(key, Ascii("clientsecret"), 6, Ascii("secret"));
    case 21 => PartOccurs(key, Ascii("client-secret"), 7, Ascii("secret"));
    case _ => PartOccurs(key, Ascii("client_secret"), 7, Ascii("secret"));
  }

  /** Where each word of the list in use stands among the alternatives. */
  function Places(): seq<nat> {
    [0, 3, 4, 14, 16, 17, 18, 19, 23, 5, 6, 7, 8, 9, 10, 11, 12, 13]
  }

  lemma WordsAreAlternatives()
    ensures |Places()| == |SensitiveWords()|
    ensures forall w | 0 <= w < |SensitiveWords()| ::
              0 <= Places()[w] < |Alternatives()| && SensitiveWords()[w] == Alternatives()[Places()[w]]
  {}

  /** The place of an alternative in the list in use. */
  lemma AlternativeIsAWord(a: nat) returns (w: nat)
    requires a < |Alternatives()| && a !in {1, 2, 15, 20, 21, 22}
    ensures w < |SensitiveWords()| && SensitiveWords()[w] == Alternatives()[a]
  {
    WordsAreAlternatives();
    w := [0, 0, 0, 1, 2, 9, 10, 11, 12, 13, 14, 15, 16, 17, 3, 0, 4, 5, 6, 7, 0, 0, 0, 8][a];
  }

  /** A key is sensitive exactly when an alternative of the pattern occurs in it, whatever the
      case of the letters. */
  lemma SensitiveExactly(key: Text)
    ensures IsSensitiveKey(key) <==> exists a :: 0 <= a < |Alternatives()| && Occurs(key, Alternatives()[a])
  {
    AnyFoundExactly(key, SensitiveWords());
    WordsAreAlternatives();
    if a :| 0 <= a < |Alternatives()| && Occurs(key, Alternatives()[a]) {
      if a in {1, 2, 15, 20, 21, 22} {
        LongerAlternatives(key, a);
        assert SensitiveWords()[0] == Ascii("pass") && SensitiveWords()[1] == Ascii("secret")
               && SensitiveWords()[4] == Ascii("auth");
      } else {
        var w := AlternativeIsAWord(a);
        assert Occurs(key, SensitiveWords()[w]);
      }
    }
  }

  // ---------------------------------------------------------------- the copy

  ghost predicate IsCutText(s: Text, r: Json) {
    r == Str(if |s| <= 1024 then s else s[..1024] + [0x2026] + Ascii("[truncated]"))
  }

  /** The members of the copy of an object that stand for its own first 200. */
  ghost predicate IsCopiedMember(m: Member, r: Member, depth: nat)
    decreases m, 0
  {
    && r.key == m.key
    && if IsSensitiveKey(m.key) then r.value == Str(Ascii("[REDACTED]")) else IsCopy(m.value, r.value, depth + 1)
  }

  /** The copy of an object with more than 200 members has the first 200, and under the key `…`
      the mark that some are missing. */
  ghost predicate IsCutObject(ms: seq<Member>, rs: seq<Member>, depth: nat)
    requires |ms| > 200
    decreases ms, 0
  {
    var mark := Member([0x2026], Str(Ascii("[TRUNCATED]")));
    if exists i :: 0 <= i < 200 && ms[i].key == [0x2026] then
      |rs| == 200 && forall i | 0 <= i < 200 ::
        if ms[i].key == [0x2026] then rs[i] == mark else IsCopiedMember(ms[i], rs[i], depth)
    else
      |rs| == 201 && rs[200] == mark && forall i | 0 <= i < 200 :: IsCopiedMember(ms[i], rs[i], depth)
  }

  /** What stands in the copy for a value found at a depth. */
  ghost predicate IsCopy(v: Json, r: Json, depth: nat)
    decreases v, 1
  {
    if depth > 8 then r == Str(Ascii("[TRUNCATED]"))
    else
      match v
      case Str(s) => IsCutText(s, r)
      case Arr(items) =>
        && r.Arr? && |r.items| == (if |items| <= 200 then |items| else 200)
        && forall i | 0 <= i < |r.items| :: IsCopy(items[i], r.items[i], depth + 1)
      case Obj(ms) =>
        r.Obj? &&
        if |ms| > 200 then IsCutObject(ms, r.members, depth)
        else |r.members| == |ms| && forall i | 0 <= i < |ms| :: IsCopiedMember(ms[i], r.members[i], depth)
      case _ => r == v
  }

  /** The redactor's result is this copy, for every value without repeated keys. */
  lemma {:induction false} RedactedIsTheCopy(v: Json, depth: nat)
    requires WellFormed(v)
    ensures IsCopy(v, Redacted(v, depth), depth)
    decreases v, 1
  {
    if depth <= 8 {
      match v
      case Arr(items) =>
        forall i | 0 <= i < |Head(items)| ensures IsCopy(items[i], Redacted(items[i], depth + 1), depth + 1) {
          RedactedIsTheCopy(items[i], depth + 1);
        }
      case Obj(ms) =>
        var entries := RedactedEntries(Head(ms), depth);
        forall i | 0 <= i < |entries| ensures IsCopiedMember(ms[i], entries[i], depth) {
          if !IsSensitiveKey(ms[i].key) { RedactedIsTheCopy(ms[i].value, depth + 1); }
        }
        if |ms| > 200 { CutObjectIsMarked(ms, entries, depth); }
      case _ =>
    }
  }

  lemma CutObjectIsMarked(ms: seq<Member>, entries: seq<Member>, depth: nat)
    requires |ms| > 200 == |entries| && DistinctKeys(ms)
    requires forall i | 0 <= i < 200 :: IsCopiedMember(ms[i], entries[i], depth)
    ensures IsCutObject(ms, Put(entries, ELLIPSIS, TRUNCATED), depth)
  {
    if i :| 0 <= i < 200 && ms[i].key == ELLIPSIS {
      assert entries[i].key == ELLIPSIS;
      PutOld(entries, ELLIPSIS, TRUNCATED);
      PutReplaces(entries, ELLIPSIS, TRUNCATED, i);
      forall j | 0 <= j < 200 && ms[j].key != ELLIPSIS ensures Put(entries, ELLIPSIS, TRUNCATED)[j] == entries[j] {}
      forall j | 0 <= j < 200 && ms[j].key == ELLIPSIS ensures j == i {}
    } else {
      PutNew(entries, ELLIPSIS, TRUNCATED);
    }
  }

  lemma {:induction false} PutReplaces(ms: seq<Member>, key: Text, v: Json, i: nat)
    requires i < |ms| && ms[i].key == key && forall j | 0 <= j < i :: ms[j].key != key
    ensures |Put(ms, key, v)| == |ms| && Put(ms, key, v)[i] == Member(key, v)
  {
    if i > 0 { PutReplaces(ms[1..], key, v, i - 1); }
  }

  /** The copy keeps everything but secrets where nothing is cut. */
  lemma {:induction false} CopyKeepsTheRest(v: Json, depth: nat)
    requires Fits(v, depth)
    ensures SameButSecrets(v, Redacted(v, depth))
    decreases v, 1
  {
    match v
    case Arr(items) =>
      forall i | 0 <= i < |items| ensures SameButSecrets(items[i], Redacted(items[i], depth + 1)) {
        CopyKeepsTheRest(items[i], depth + 1);
      }
    case Obj(ms) =>
      var entries := RedactedEntries(ms, depth);
      forall i | 0 <= i < |ms|
        ensures entries[i].key == ms[i].key
        ensures IsSensitiveKey(ms[i].key) || SameButSecrets(ms[i].value, entries[i].value)
      {
        if !IsSensitiveKey(ms[i].key) { CopyKeepsTheRest(ms[i].value, depth + 1); }
      }
    case _ =>
  }
}
