/**
 * The library and the search of SearchEngine.java: the library keeps every
 * name with its key in input order, and a search returns, in library
 * order, the names whose key matches the key of the term.
 */
module Engine {
  import opened Options
  import opened LetterGroups
  import opened Normaliser
  import opened Matcher
  import opened Names

  /** A library entry as a value: the original name and its key. */
  datatype Entry = Entry(original: string, key: string)

  /** The names of the entries whose key matches the given key, in entry order. */
  function MatchingNames(entries: seq<Entry>, key: string): seq<string> {
    if entries == [] then []
    else
      var last := entries[|entries| - 1];
      var earlier := MatchingNames(entries[..|entries| - 1], key);
      if Equivalent(last.key, key) then earlier + [last.original] else earlier
  }

  /** The results of a search keep library order: results for earlier entries come first. */
  lemma {:induction false} MatchingNamesAppend(e1: seq<Entry>, e2: seq<Entry>, key: string)
    ensures MatchingNames(e1 + e2, key) == MatchingNames(e1, key) + MatchingNames(e2, key)
    decreases |e2|
  {
    if e2 == [] {
      assert e1 + e2 == e1;
    } else {
      var init := e2[..|e2| - 1];
      assert (e1 + e2)[..|e1 + e2| - 1] == e1 + init;
      assert (e1 + e2)[|e1 + e2| - 1] == e2[|e2| - 1];
      MatchingNamesAppend(e1, init, key);
    }
  }

  /** A name is returned exactly when some entry with that name has a key that matches. */
  lemma {:induction false} MatchingNamesMembers(entries: seq<Entry>, key: string, x: string)
    ensures x in MatchingNames(entries, key) <==>
      exists k :: 0 <= k < |entries| && entries[k].original == x && Equivalent(entries[k].key, key)
  {
    if entries != [] {
      var init := entries[..|entries| - 1];
      MatchingNamesMembers(init, key, x);
      if exists k :: 0 <= k < |init| && init[k].original == x && Equivalent(init[k].key, key) {
        var k :| 0 <= k < |init| && init[k].original == x && Equivalent(init[k].key, key);
        assert entries[k] == init[k];
      }
      if exists k :: 0 <= k < |entries| && entries[k].original == x && Equivalent(entries[k].key, key) {
        var k :| 0 <= k < |entries| && entries[k].original == x && Equivalent(entries[k].key, key);
        if k < |init| {
          assert init[k] == entries[k];
        }
      }
    }
  }

  /** The results for one more entry. */
  lemma MatchingNamesStep(entries: seq<Entry>, k: nat, key: string)
    requires k < |entries|
    ensures MatchingNames(entries[..k + 1], key) ==
      MatchingNames(entries[..k], key) + (if Equivalent(entries[k].key, key) then [entries[k].original] else [])
  {
    assert entries[..k + 1][..k] == entries[..k];
  }

  /** There are never more results than entries. */
  lemma {:induction false} MatchingNamesLength(entries: seq<Entry>, key: string)
    ensures |MatchingNames(entries, key)| <= |entries|
  {
    if entries != [] {
      MatchingNamesLength(entries[..|entries| - 1], key);
    }
  }

  /** An empty library gives no results. */
  lemma EmptyLibrary(key: string)
    ensures MatchingNames([], key) == []
  {
  }

  class SearchEngine {
    /** The Name objects of the library, in input order. */
    var library: seq<Name>
    /** The library as values. */
    ghost var entries: seq<Entry>

    ghost predicate Valid()
      reads this, library
    {
      |entries| == |library| &&
      forall k :: 0 <= k < |library| ==>
        library[k].name == entries[k].original &&
        library[k].preprocessedName == Some(entries[k].key) &&
        PreprocessName(entries[k].original) == Some(entries[k].key)
    }

    /** Building a library fails unless every name holds an ASCII letter. */
    constructor (names: seq<string>)
      requires forall k :: 0 <= k < |names| ==> HasLetter(names[k])
      ensures Valid()
      ensures |entries| == |names|
      ensures forall k :: 0 <= k < |names| ==> entries[k] == Entry(names[k], PreprocessName(names[k]).value)
      ensures forall k :: 0 <= k < |library| ==> fresh(library[k])
    {
      library := [];
      entries := [];
      new;
      var ok := ProcessInput(names);
    }

    /**
     * Creates a Name per input name, stores its key and appends it to a new
     * library. ok is false when some name has no ASCII letter: the source
     * fails there, and the library holds the entries built before that name.
     */
    method ProcessInput(names: seq<string>) returns (ok: bool)
      modifies this
      ensures Valid()
      ensures |entries| <= |names|
      ensures forall k :: 0 <= k < |entries| ==>
        entries[k].original == names[k] && PreprocessName(names[k]) == Some(entries[k].key)
      ensures ok <==> |entries| == |names|
      ensures !ok ==> PreprocessName(names[|entries|]).None?
      ensures forall k :: 0 <= k < |library| ==> fresh(library[k])
    {
      library := [];
      entries := [];
      for n := 0 to |names|
        invariant Valid()
        invariant |entries| == n
        invariant forall k :: 0 <= k < n ==>
          entries[k].original == names[k] && PreprocessName(names[k]) == Some(entries[k].key)
        invariant forall k :: 0 <= k < |library| ==> fresh(library[k])
      {
        var tempName := new Name(names[n]);
        var key := PreprocessName(names[n]);
        if key.None? {
          return false;
        }
        tempName.SetPreprocessedName(key.value);
        library := library + [tempName];
        entries := entries + [Entry(names[n], key.value)];
      }
      ok := true;
    }

    /**
     * The names of the library whose key matches the key of term, in
     * library order; None when term has no ASCII letter, where the source
     * fails.
     */
    method Search(term: string) returns (results: Option<seq<string>>)
      requires Valid()
      ensures results.None? <==> !HasLetter(term)
      ensures results.Some? ==> results.value == MatchingNames(entries, PreprocessName(term).value)
    {
      var searchTerm := new Name(term);
      var key := PreprocessName(term);
      if key.None? {
        return None;
      }
      searchTerm.SetPreprocessedName(key.value);
      var found: seq<string> := [];
      for k := 0 to |library|
        invariant searchTerm.preprocessedName == Some(key.value)
        invariant found == MatchingNames(entries[..k], key.value)
      {
        var libName := library[k];
        assert libName.preprocessedName == Some(entries[k].key) && libName.name == entries[k].original;
        var isMatch := Compare(libName, searchTerm);
        MatchingNamesStep(entries, k, key.value);
        if isMatch {
          found := found + [libName.GetName()];
        }
      }
      assert entries[..|library|] == entries;
      return Some(found);
    }

    /**
     * Steps 4 and 5: walks both keys with one cursor each, compares the
     * groups at each checkpoint and lets each cursor skip the rest of its
     * run; a match needs both cursors to reach the end.
     */
    method Compare(n1: Name, n2: Name) returns (r: bool)
      requires n1.preprocessedName.Some? && n2.preprocessedName.Some?
      ensures r == Equivalent(n1.preprocessedName.value, n2.preprocessedName.value)
    {
      var name1 := n1.GetPreprocessedName().value;
      var name2 := n2.GetPreprocessedName().value;
      ghost var g1, g2 := Groups(name1), Groups(name2);
      ghost var same := Equivalent(name1, name2);
      assert g1[0..] == g1 && g2[0..] == g2;
      assert same == SuffixesMatch(g1, g2, 0, 0);
      var i, j := 0, 0;
      while i < |name1| && j < |name2|
        invariant 0 <= i <= |name1| && 0 <= j <= |name2|
        invariant same == SuffixesMatch(g1, g2, i, j)
        decreases |name1| - i
      {
        var group1 := CharacterGroup(name1[i]);
        var group2 := CharacterGroup(name2[j]);
        if group1 == group2 {
          ghost var i0, j0 := i, j;
          while |name1| > i + 1
            invariant i0 <= i < |name1|
            invariant forall k :: i0 <= k <= i ==> g1[k] == group1
          {
            if group1 == CharacterGroup(name1[i + 1]) {
              i := i + 1;
            } else {
              break;
            }
          }
          while |name2| > j + 1
            invariant j0 <= j < |name2|
            invariant forall k :: j0 <= k <= j ==> g2[k] == group2
          {
            if group2 == CharacterGroup(name2[j + 1]) {
              j := j + 1;
            } else {
              break;
            }
          }
          // both cursors now stand on the last letter of their run
          RunsAgree(g1, g2, i0, i, j0, j);
        } else {
          RunsDiffer(g1, g2, i, j);
          return false;
        }
        i, j := i + 1, j + 1;
      }
      ScanEnd(g1, g2, i, j);
      if i < |name1| || j < |name2| {
        r := false;
      } else {
        r := true;
      }
    }
  }
}
