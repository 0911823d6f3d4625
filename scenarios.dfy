/**
 * An example library, Jones, Jonas, Johns, Saunas and Smith, searched for
 * Jones and for Bones.
 */
module Scenarios {
  import opened Options
  import opened Normaliser
  import opened Matcher
  import opened Engine

  /** The key of each name of the example, one lemma per name (Jones is in the normaliser). */
  lemma JonasKey()
    ensures PreprocessName("Jonas") == Some("JNS")
  {
    KeyOfLetters("Jonas", 'J', "ONAS", "NS", "JNS");
  }

  lemma JohnsKey()
    ensures PreprocessName("Johns") == Some("JNS")
  {
    KeyOfLetters("Johns", 'J', "OHNS", "NS", "JNS");
  }

  lemma SaunasKey()
    ensures PreprocessName("Saunas") == Some("SNS")
  {
    KeyOfLetters("Saunas", 'S', "AUNAS", "NS", "SNS");
  }

  lemma SmithKey()
    ensures PreprocessName("Smith") == Some("SMT")
  {
    KeyOfLetters("Smith", 'S', "MITH", "MT", "SMT");
  }

  lemma BonesKey()
    ensures PreprocessName("Bones") == Some("BNS")
  {
    KeyOfLetters("Bones", 'B', "ONES", "NS", "BNS");
  }

  /** The library of the example as entries. */
  const Entries: seq<Entry> :=
    [Entry("Jones", "JNS"), Entry("Jonas", "JNS"), Entry("Johns", "JNS"),
     Entry("Saunas", "SNS"), Entry("Smith", "SMT")]

  /** What one entry contributes to the results. */
  function Hit(e: Entry, key: string): seq<string> {
    if Equivalent(e.key, key) then [e.original] else []
  }

  lemma FiveEntries(a: Entry, b: Entry, c: Entry, d: Entry, f: Entry, key: string)
    ensures MatchingNames([a, b, c, d, f], key) == Hit(a, key) + Hit(b, key) + Hit(c, key) + Hit(d, key) + Hit(f, key)
  {
    assert [a, b, c, d, f][..4] == [a, b, c, d];
    assert [a, b, c, d][..3] == [a, b, c];
    assert [a, b, c][..2] == [a, b];
    assert [a, b][..1] == [a];
    assert [a][..0] == [];
    assert MatchingNames([a], key) == Hit(a, key);
    assert MatchingNames([a, b], key) == MatchingNames([a], key) + Hit(b, key);
    assert MatchingNames([a, b, c], key) == MatchingNames([a, b], key) + Hit(c, key);
    assert MatchingNames([a, b, c, d], key) == MatchingNames([a, b, c], key) + Hit(d, key);
  }

  /** Jones, Jonas and Johns share the key JNS, Saunas reads the same groups, Smith does not. */
  lemma JonesMatches()
    ensures MatchingNames(Entries, "JNS") == ["Jones", "Jonas", "Johns", "Saunas"]
  {
    FiveEntries(Entries[0], Entries[1], Entries[2], Entries[3], Entries[4], "JNS");
    assert Entries == [Entries[0], Entries[1], Entries[2], Entries[3], Entries[4]];
    SameGroupExample();
    EquivalentSymmetric("JNS", "SNS");
    LastLetterExample();
  }

  /** BNS starts in group 3, every key of the library in group 2. */
  lemma BonesMatchesNothing()
    ensures MatchingNames(Entries, "BNS") == []
  {
    FiveEntries(Entries[0], Entries[1], Entries[2], Entries[3], Entries[4], "BNS");
    assert Entries == [Entries[0], Entries[1], Entries[2], Entries[3], Entries[4]];
    BonesKeyDiffers();
  }

  /** None of the keys of the example library starts in group 3. */
  lemma BonesKeyDiffers()
    ensures !Equivalent("JNS", "BNS") && !Equivalent("SNS", "BNS") && !Equivalent("SMT", "BNS")
  {
    FirstGroupsDiffer("JNS", "BNS");
    FirstGroupsDiffer("SNS", "BNS");
    FirstGroupsDiffer("SMT", "BNS");
  }

  /** The names of the example library, in input order. */
  const Library: seq<string> := ["Jones", "Jonas", "Johns", "Saunas", "Smith"]

  /** Every name of the example library gets the key of its entry. */
  lemma LibraryEntries()
    ensures |Library| == |Entries|
    ensures forall k :: 0 <= k < |Library| ==> PreprocessName(Library[k]) == Some(Entries[k].key)
    ensures forall k :: 0 <= k < |Library| ==> Library[k] == Entries[k].original
  {
    forall k | 0 <= k < |Library|
      ensures PreprocessName(Library[k]) == Some(Entries[k].key)
    {
      if k == 0 { JonesKey(); }
      else if k == 1 { JonasKey(); }
      else if k == 2 { JohnsKey(); }
      else if k == 3 { SaunasKey(); }
      else { SmithKey(); }
    }
  }

  /** Building the search engine over the example library. */
  method BuildExample() returns (engine: SearchEngine)
    ensures fresh(engine) && engine.Valid() && engine.entries == Entries
  {
    LibraryEntries();
    engine := new SearchEngine(Library);
  }

  /** Searching the example library for Jones and for Bones. */
  method SearchExample() returns (jones: Option<seq<string>>, bones: Option<seq<string>>)
    ensures jones == Some(["Jones", "Jonas", "Johns", "Saunas"])
    ensures bones == Some([])
  {
    var engine := BuildExample();
    JonesKey();
    JonesMatches();
    jones := engine.Search("Jones");
    BonesKey();
    BonesMatchesNothing();
    bones := engine.Search("Bones");
  }
}
