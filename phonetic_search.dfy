/**
 * The line printResults in PhoneticSearch.java builds for one search term:
 * the term, a colon, then the results joined by commas, or a fixed
 * message when there are none. Writing the line to standard output is
 * not modelled.
 */
module PhoneticSearch {

  const NoResults: string := "No results found."
  const Separator: string := ", "

  /** The items in order, with a separator between each two and none after the last. */
  function Join(items: seq<string>): string {
    if items == [] then ""
    else if |items| == 1 then items[0]
    else Join(items[..|items| - 1]) + Separator + items[|items| - 1]
  }

  /** The line printed for a term and its results. */
  function ResultLine(term: string, results: seq<string>): string {
    term + ": " + (if results == [] then NoResults else Join(results))
  }

  /** The sum of the lengths of the items. */
  function TotalLength(items: seq<string>): nat {
    if items == [] then 0 else TotalLength(items[..|items| - 1]) + |items[|items| - 1]|
  }

  /** Builds the line the way the source does, appending to it inside a counted loop. */
  method PrintResults(term: string, results: seq<string>) returns (line: string)
    ensures line == ResultLine(term, results)
  {
    line := term + ": ";
    if |results| == 0 {
      line := line + NoResults;
    } else {
      for i := 0 to |results|
        invariant line == term + ": " + (if i == 0 then "" else Join(results[..i]) + (if i < |results| then Separator else ""))
      {
        line := line + results[i];
        if i + 1 < |results| {
          line := line + Separator;
        }
        assert results[..i + 1][..i] == results[..i];
      }
      assert results[..|results|] == results;
    }
  }

  /** Every line starts with the term and a colon. */
  lemma StartsWithTerm(term: string, results: seq<string>)
    ensures |ResultLine(term, results)| >= |term| + 2
    ensures ResultLine(term, results)[..|term| + 2] == term + ": "
  {
  }

  /** No results: the line is the term and the fixed message. */
  lemma NoResultsLine(term: string)
    ensures ResultLine(term, []) == term + ": No results found."
  {
  }

  /** The first item followed by the separator and the join of the rest. */
  lemma {:induction false} JoinCons(x: string, rest: seq<string>)
    requires rest != []
    ensures Join([x] + rest) == x + Separator + Join(rest)
    decreases |rest|
  {
    var items := [x] + rest;
    if |rest| == 1 {
      assert items[..1] == [x];
    } else {
      assert items[..|items| - 1] == [x] + rest[..|rest| - 1];
      JoinCons(x, rest[..|rest| - 1]);
    }
  }

  /** n items take n - 1 separators: the length of the join is the items' lengths plus two per separator. */
  lemma {:induction false} JoinLength(items: seq<string>)
    requires items != []
    ensures |Join(items)| == TotalLength(items) + |Separator| * (|items| - 1)
  {
    if |items| > 1 {
      JoinLength(items[..|items| - 1]);
    } else {
      assert items[..0] == [];
    }
  }

  /** The join starts with the first item and ends with the last: no separator trails it. */
  lemma {:induction false} JoinEnds(items: seq<string>)
    requires items != []
    ensures |Join(items)| >= |items[0]| && |Join(items)| >= |items[|items| - 1]|
    ensures Join(items)[..|items[0]|] == items[0]
    ensures Join(items)[|Join(items)| - |items[|items| - 1]|..] == items[|items| - 1]
  {
    if |items| > 1 {
      var init := items[..|items| - 1];
      JoinEnds(init);
      assert init[0] == items[0];
    }
  }

  /** Some results: the line is the term, a colon and the joined results. */
  lemma ResultsLine(term: string, results: seq<string>)
    requires results != []
    ensures ResultLine(term, results) == term + ": " + Join(results)
  {
  }

  /** The two lines shown as examples in the documentation of printResults. */
  lemma DocumentedLines()
    ensures ResultLine("Jones", ["Jonas", "Johns", "Saunas"]) == "Jones: Jonas, Johns, Saunas"
    ensures ResultLine("Bones", []) == "Bones: No results found."
  {
    var items := ["Jonas", "Johns", "Saunas"];
    assert items[..2] == ["Jonas", "Johns"];
    assert items[..2][..1] == ["Jonas"];
    assert Join(items[..2]) == "Jonas" + Separator + "Johns";
    assert Join(items) == "Jonas, Johns, Saunas";
    assert "Jones" + ": " + "Jonas, Johns, Saunas" == "Jones: Jonas, Johns, Saunas";
  }
}
