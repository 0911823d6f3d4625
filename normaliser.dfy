/**
 * The normaliser (preprocessName in SearchEngine.java): keep the ASCII
 * letters, upper-case them, then keep the first letter and drop every
 * A, E, I, H, O, U, W, Y after it.
 */
module Normaliser {
  import opened Options
  import opened LetterGroups

  predicate IsAsciiLetter(c: char) {
    'A' <= c <= 'Z' || 'a' <= c <= 'z'
  }

  predicate HasLetter(s: string) {
    exists k :: 0 <= k < |s| && IsAsciiLetter(s[k])
  }

  predicate AllLetters(s: string) {
    forall k :: 0 <= k < |s| ==> IsAsciiLetter(s[k])
  }

  predicate AllUpper(s: string) {
    forall k :: 0 <= k < |s| ==> IsUpper(s[k])
  }

  /** ASCII upper-casing of one character; every other character is left alone. */
  function ToUpper(c: char): (u: char)
    ensures IsAsciiLetter(c) ==> IsUpper(u)
    ensures 'a' <= c <= 'z' ==> u as int == c as int - 32
    ensures !('a' <= c <= 'z') ==> u == c
  {
    if 'a' <= c <= 'z' then (c as int - 'a' as int + 'A' as int) as char else c
  }

  /** Step 1: the regular-expression filter that deletes every character outside [A-Za-z]. */
  function LettersOnly(s: string): string {
    if s == [] then []
    else (if IsAsciiLetter(s[0]) then [s[0]] else []) + LettersOnly(s[1..])
  }

  /** Step 2: upper-casing, character by character. */
  function UpperCase(s: string): string {
    seq(|s|, k requires 0 <= k < |s| => ToUpper(s[k]))
  }

  /** The letters step 3 deletes after the first position. */
  const Dropped: set<char> := {'A', 'E', 'I', 'H', 'O', 'U', 'W', 'Y'}

  /** Step 3's regular-expression filter, applied to everything after the first letter. */
  function DropListed(s: string): string {
    if s == [] then []
    else (if s[0] in Dropped then [] else [s[0]]) + DropListed(s[1..])
  }

  /**
   * The canonical key of a name. None stands for the failure of the
   * source when the name holds no ASCII letter: there the first-letter
   * substring is taken of an empty string.
   */
  function PreprocessName(original: string): (r: Option<string>)
    ensures r.None? <==> !HasLetter(original)
    ensures r.Some? ==> |r.value| >= 1 && AllUpper(r.value)
    ensures r.Some? ==> forall k :: 1 <= k < |r.value| ==> r.value[k] !in Dropped
  {
    var letters := UpperCase(LettersOnly(original));
    LettersOnlyEmpty(original);
    LettersOnlyAreLetters(original);
    if letters == [] then None
    else
      DropListedAvoids(letters[1..]);
      Some([letters[0]] + DropListed(letters[1..]))
  }

  lemma {:induction false} LettersOnlyEmpty(s: string)
    ensures LettersOnly(s) == [] <==> !HasLetter(s)
  {
    if s != [] {
      LettersOnlyEmpty(s[1..]);
      if HasLetter(s[1..]) {
        var k :| 0 <= k < |s[1..]| && IsAsciiLetter(s[1..][k]);
        assert IsAsciiLetter(s[k + 1]);
      }
      if HasLetter(s) && !IsAsciiLetter(s[0]) {
        var k :| 0 <= k < |s| && IsAsciiLetter(s[k]);
        assert IsAsciiLetter(s[1..][k - 1]);
      }
    }
  }

  lemma {:induction false} LettersOnlyAreLetters(s: string)
    ensures AllLetters(LettersOnly(s))
    ensures |LettersOnly(s)| <= |s|
  {
    if s != [] {
      LettersOnlyAreLetters(s[1..]);
    }
  }

  lemma {:induction false} DropListedAvoids(s: string)
    ensures forall k :: 0 <= k < |DropListed(s)| ==> DropListed(s)[k] !in Dropped && DropListed(s)[k] in s
  {
    if s != [] {
      DropListedAvoids(s[1..]);
    }
  }

  /** Step 3 keeps every occurrence of each letter that is not one of the eight. */
  lemma {:induction false} DropListedKeeps(s: string, c: char)
    requires c !in Dropped
    ensures multiset(DropListed(s))[c] == multiset(s)[c]
  {
    if s != [] {
      DropListedKeeps(s[1..], c);
      assert s == [s[0]] + s[1..];
    }
  }

  /**
   * Every letter outside the eight survives after the first position as
   * often as it occurs in the upper-cased letters of the name.
   */
  lemma KeepsOtherLetters(original: string, c: char)
    requires HasLetter(original) && c !in Dropped
    ensures |UpperCase(LettersOnly(original))| >= 1
    ensures multiset(PreprocessName(original).value[1..])[c] == multiset(UpperCase(LettersOnly(original))[1..])[c]
  {
    var letters := UpperCase(LettersOnly(original));
    LettersOnlyEmpty(original);
    var rest := DropListed(letters[1..]);
    assert PreprocessName(original).value[1..] == rest;
    DropListedKeeps(letters[1..], c);
  }

  /** x occurs in y with its characters in the same relative order. */
  predicate IsSubsequence(x: string, y: string) {
    if x == [] then true
    else if y == [] then false
    else (x[0] == y[0] && IsSubsequence(x[1..], y[1..])) || IsSubsequence(x, y[1..])
  }

  /** The two strings differ at most in the case of their ASCII letters. */
  predicate SameUpToCase(s: string, t: string) {
    |s| == |t| && forall k :: 0 <= k < |s| ==> ToUpper(s[k]) == ToUpper(t[k])
  }

  lemma {:induction false} LettersOnlyFirst(s: string, k: nat)
    requires k < |s| && IsAsciiLetter(s[k])
    requires forall m :: 0 <= m < k ==> !IsAsciiLetter(s[m])
    ensures LettersOnly(s) != [] && LettersOnly(s)[0] == s[k]
  {
    if k > 0 {
      LettersOnlyFirst(s[1..], k - 1);
    }
  }

  /** The key starts with the upper-cased first ASCII letter of the name, wherever that letter stands. */
  lemma FirstLetterRetained(s: string, k: nat)
    requires k < |s| && IsAsciiLetter(s[k])
    requires forall m :: 0 <= m < k ==> !IsAsciiLetter(s[m])
    ensures PreprocessName(s).Some? && PreprocessName(s).value[0] == ToUpper(s[k])
  {
    LettersOnlyFirst(s, k);
  }

  lemma {:induction false} DropListedSubsequence(s: string)
    ensures IsSubsequence(DropListed(s), s)
  {
    if s != [] {
      DropListedSubsequence(s[1..]);
      if s[0] !in Dropped {
        assert DropListed(s) == [s[0]] + DropListed(s[1..]);
        assert DropListed(s)[1..] == DropListed(s[1..]);
      } else {
        assert DropListed(s) == DropListed(s[1..]);
      }
    }
  }

  /** The letters that survive step 3 keep their relative order. */
  lemma KeepsOrder(s: string)
    requires HasLetter(s)
    ensures IsSubsequence(PreprocessName(s).value, UpperCase(LettersOnly(s)))
  {
    var letters := UpperCase(LettersOnly(s));
    var r := PreprocessName(s).value;
    DropListedSubsequence(letters[1..]);
    assert r[0] == letters[0] && r[1..] == DropListed(letters[1..]);
  }

  lemma {:induction false} LettersOnlySameUpToCase(s: string, t: string)
    requires SameUpToCase(s, t)
    ensures SameUpToCase(LettersOnly(s), LettersOnly(t))
  {
    if s != [] {
      assert SameUpToCase(s[1..], t[1..]);
      LettersOnlySameUpToCase(s[1..], t[1..]);
      assert IsAsciiLetter(s[0]) == IsAsciiLetter(t[0]);
    }
  }

  /** Upper-, lower- and mixed-case spellings of a name get the same key. */
  lemma CaseInsensitive(s: string, t: string)
    requires SameUpToCase(s, t)
    ensures PreprocessName(s) == PreprocessName(t)
  {
    LettersOnlySameUpToCase(s, t);
    assert UpperCase(LettersOnly(s)) == UpperCase(LettersOnly(t));
  }

  lemma {:induction false} LettersOnlyAppend(x: string, y: string)
    ensures LettersOnly(x + y) == LettersOnly(x) + LettersOnly(y)
  {
    if x != [] {
      assert (x + y)[1..] == x[1..] + y;
      LettersOnlyAppend(x[1..], y);
    } else {
      assert x + y == y;
    }
  }

  /** Inserting a character that is not an ASCII letter anywhere in a name leaves its key unchanged. */
  lemma IgnoresNonLetter(x: string, c: char, y: string)
    requires !IsAsciiLetter(c)
    ensures PreprocessName(x + [c] + y) == PreprocessName(x + y)
  {
    LettersOnlyAppend(x + [c], y);
    LettersOnlyAppend(x, [c]);
    LettersOnlyAppend(x, y);
    assert LettersOnly([c]) == [] + LettersOnly([]);
    assert LettersOnly(x + [c] + y) == LettersOnly(x + y);
  }

  lemma {:induction false} LettersOnlyFixes(s: string)
    requires AllLetters(s)
    ensures LettersOnly(s) == s
  {
    if s != [] {
      LettersOnlyFixes(s[1..]);
    }
  }

  /** Removing every non-letter first changes nothing: the key depends only on the letters. */
  lemma IgnoresNonLetters(s: string)
    ensures PreprocessName(LettersOnly(s)) == PreprocessName(s)
  {
    LettersOnlyAreLetters(s);
    LettersOnlyFixes(LettersOnly(s));
  }

  lemma {:induction false} DropListedFixes(s: string)
    requires forall k :: 0 <= k < |s| ==> s[k] !in Dropped
    ensures DropListed(s) == s
  {
    if s != [] {
      DropListedFixes(s[1..]);
    }
  }

  /** A key is its own key. */
  lemma Idempotent(s: string)
    requires HasLetter(s)
    ensures PreprocessName(PreprocessName(s).value) == PreprocessName(s)
  {
    var r := PreprocessName(s).value;
    LettersOnlyFixes(r);
    assert UpperCase(r) == r;
    DropListedFixes(r[1..]);
    assert [r[0]] + r[1..] == r;
  }

  /**
   * The key of a name made only of letters, from its upper-cased first
   * letter and what step 3 leaves of the rest.
   */
  lemma KeyOfLetters(s: string, first: char, tail: string, rest: string, key: string)
    requires AllLetters(s)
    requires UpperCase(s) == [first] + tail
    requires DropListed(tail) == rest
    requires key == [first] + rest
    ensures PreprocessName(s) == Some(key)
  {
    LettersOnlyFixes(s);
    assert UpperCase(s)[1..] == tail;
  }

  /** Jones, JONES and jones: three spellings of one name, one key JNS. */
  lemma JonesKey()
    ensures PreprocessName("Jones") == Some("JNS")
  {
    KeyOfLetters("Jones", 'J', "ONES", "NS", "JNS");
  }

  /** The upper-case spelling of Jones gets the same key. */
  lemma UpperJonesKey()
    ensures PreprocessName("JONES") == Some("JNS")
  {
    JonesKey();
    assert SameUpToCase("JONES", "Jones");
    CaseInsensitive("JONES", "Jones");
  }

  /** The lower-case spelling of Jones gets the same key. */
  lemma LowerJonesKey()
    ensures PreprocessName("jones") == Some("JNS")
  {
    JonesKey();
    assert SameUpToCase("jones", "Jones");
    CaseInsensitive("jones", "Jones");
  }

  /** Only the first letter may be a vowel: OBrien gets OBRN. */
  lemma OBrienKey()
    ensures PreprocessName("OBrien") == Some("OBRN")
  {
    KeyOfLetters("OBrien", 'O', "BRIEN", "BRN", "OBRN");
  }

  /**
   * The source takes the first-letter substring without a check: it is
   * defined only when the filtered, upper-cased name is not empty.
   */
  predicate FirstLetterDefined(original: string) {
    |UpperCase(LettersOnly(original))| >= 1
  }

  /** The first-letter substring is out of bounds exactly for the names without an ASCII letter. */
  lemma FirstLetterDefinedIff(original: string)
    ensures FirstLetterDefined(original) <==> HasLetter(original)
  {
    LettersOnlyEmpty(original);
  }

  /** A digits-only name reaches the first-letter substring with an empty string. */
  lemma DigitsFault()
    ensures !FirstLetterDefined("123")
  {
    FirstLetterDefinedIff("123");
    assert !IsAsciiLetter("123"[0]) && !IsAsciiLetter("123"[1]) && !IsAsciiLetter("123"[2]);
  }

  /** A name with no ASCII letter has no key. */
  lemma NoLetterExamples()
    ensures PreprocessName("123") == PreprocessName("'") == None
  {
    assert !IsAsciiLetter("123"[0]) && !IsAsciiLetter("123"[1]) && !IsAsciiLetter("123"[2]);
    assert !IsAsciiLetter("'"[0]);
  }
}
