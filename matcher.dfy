/**
 * What the comparator decides (steps 4 and 5 of compare in
 * SearchEngine.java), stated without cursors: two keys match exactly when
 * their group sequences are equal once every run of one group is cut down
 * to a single element.
 */
module Matcher {
  import opened LetterGroups

  /** The group of every character of a key, in order. */
  function Groups(s: string): (g: seq<int>)
    ensures |g| == |s|
  {
    seq(|s|, k requires 0 <= k < |s| => CharacterGroup(s[k]))
  }

  /** Replaces every run of equal adjacent elements by one element. */
  function Collapse(g: seq<int>): seq<int> {
    if |g| <= 1 then g
    else if g[0] == g[1] then Collapse(g[1..])
    else [g[0]] + Collapse(g[1..])
  }

  /** The two keys sound alike. */
  predicate Equivalent(a: string, b: string) {
    Collapse(Groups(a)) == Collapse(Groups(b))
  }

  /** Collapsing keeps the first element and never lengthens. */
  lemma {:induction false} CollapseStart(g: seq<int>)
    ensures |Collapse(g)| <= |g|
    ensures g != [] ==> Collapse(g) != [] && Collapse(g)[0] == g[0]
  {
    if |g| > 1 {
      CollapseStart(g[1..]);
    }
  }

  predicate NoAdjacentRepeats(g: seq<int>) {
    forall k :: 0 <= k < |g| - 1 ==> g[k] != g[k + 1]
  }

  /** A collapsed sequence has no two equal neighbours. */
  lemma {:induction false} CollapseHasNoRepeats(g: seq<int>)
    ensures NoAdjacentRepeats(Collapse(g))
  {
    if |g| > 1 {
      CollapseHasNoRepeats(g[1..]);
      CollapseStart(g[1..]);
    }
  }

  /** A sequence without runs is left as it is; with the lemma above, collapsing is idempotent. */
  lemma {:induction false} CollapseFixesRunFree(g: seq<int>)
    requires NoAdjacentRepeats(g)
    ensures Collapse(g) == g
  {
    if |g| > 1 {
      CollapseFixesRunFree(g[1..]);
      assert [g[0]] + g[1..] == g;
    }
  }

  lemma CollapseIdempotent(g: seq<int>)
    ensures Collapse(Collapse(g)) == Collapse(g)
  {
    CollapseHasNoRepeats(g);
    CollapseFixesRunFree(Collapse(g));
  }

  /** Doubling an element in place does not change the collapsed sequence. */
  lemma {:induction false} CollapseAbsorbsRepeat(x: seq<int>, v: int, y: seq<int>)
    ensures Collapse(x + [v, v] + y) == Collapse(x + [v] + y)
  {
    var s, t := x + [v, v] + y, x + [v] + y;
    if x == [] {
      assert s[1..] == t;
    } else {
      CollapseAbsorbsRepeat(x[1..], v, y);
      assert s[1..] == x[1..] + [v, v] + y;
      assert t[1..] == x[1..] + [v] + y;
      assert s[0] == t[0] && s[1] == t[1];
    }
  }

  /** Inside the comparator's scan: a suffix that starts with a repeated element collapses like its tail. */
  lemma CollapseSkip(g: seq<int>, i: nat)
    requires i + 1 < |g| && g[i] == g[i + 1]
    ensures Collapse(g[i..]) == Collapse(g[i + 1..])
  {
    assert g[i..][1..] == g[i + 1..];
  }

  /** Inside the comparator's scan: a suffix whose first run ends at once starts its collapsed form with that run's group. */
  lemma CollapseHead(g: seq<int>, i: nat)
    requires i < |g| && (i + 1 == |g| || g[i] != g[i + 1])
    ensures Collapse(g[i..]) == [g[i]] + Collapse(g[i + 1..])
  {
    assert g[i..][1..] == g[i + 1..];
  }

  lemma ConsEquality(v: int, x: seq<int>, y: seq<int>)
    ensures ([v] + x == [v] + y) == (x == y)
  {
    if [v] + x == [v] + y {
      assert ([v] + x)[1..] == x && ([v] + y)[1..] == y;
    }
  }

  /** A whole run of one group, from start to end, collapses to one element. */
  lemma {:induction false} CollapseRun(g: seq<int>, start: nat, end: nat)
    requires start <= end < |g|
    requires forall k :: start <= k <= end ==> g[k] == g[start]
    requires end + 1 == |g| || g[end + 1] != g[start]
    ensures Collapse(g[start..]) == [g[start]] + Collapse(g[end + 1..])
    decreases end - start
  {
    if start == end {
      CollapseHead(g, start);
    } else {
      CollapseSkip(g, start);
      CollapseRun(g, start + 1, end);
    }
  }

  /** The group sequences match from positions i and j on. */
  ghost predicate SuffixesMatch(g1: seq<int>, g2: seq<int>, i: nat, j: nat)
    requires i <= |g1| && j <= |g2|
  {
    Collapse(g1[i..]) == Collapse(g2[j..])
  }

  /**
   * A checkpoint where both keys have a run of the same group: once both
   * runs are skipped, the rest of the keys decides.
   */
  lemma RunsAgree(g1: seq<int>, g2: seq<int>, i0: nat, i: nat, j0: nat, j: nat)
    requires i0 <= i < |g1| && forall k :: i0 <= k <= i ==> g1[k] == g1[i0]
    requires i + 1 == |g1| || g1[i + 1] != g1[i0]
    requires j0 <= j < |g2| && forall k :: j0 <= k <= j ==> g2[k] == g2[j0]
    requires j + 1 == |g2| || g2[j + 1] != g2[j0]
    requires g1[i0] == g2[j0]
    ensures SuffixesMatch(g1, g2, i0, j0) == SuffixesMatch(g1, g2, i + 1, j + 1)
  {
    CollapseRun(g1, i0, i);
    CollapseRun(g2, j0, j);
    ConsEquality(g1[i0], Collapse(g1[i + 1..]), Collapse(g2[j + 1..]));
  }

  /** A checkpoint where the groups differ: the suffixes do not match. */
  lemma RunsDiffer(g1: seq<int>, g2: seq<int>, i: nat, j: nat)
    requires i < |g1| && j < |g2| && g1[i] != g2[j]
    ensures !SuffixesMatch(g1, g2, i, j)
  {
    CollapseStart(g1[i..]);
    CollapseStart(g2[j..]);
  }

  /** When one scan has run out, the suffixes match only if both have. */
  lemma ScanEnd(g1: seq<int>, g2: seq<int>, i: nat, j: nat)
    requires i <= |g1| && j <= |g2| && (i == |g1| || j == |g2|)
    ensures SuffixesMatch(g1, g2, i, j) == (i == |g1| && j == |g2|)
  {
    CollapseStart(g1[i..]);
    CollapseStart(g2[j..]);
  }

  /** Two keys whose first letters lie in different groups never match. */
  lemma FirstGroupsDiffer(a: string, b: string)
    requires a != [] && b != []
    requires CharacterGroup(a[0]) != CharacterGroup(b[0])
    ensures !Equivalent(a, b)
  {
    CollapseStart(Groups(a));
    CollapseStart(Groups(b));
  }

  /** A run of letters of one group counts as one letter, whatever the letters are. */
  lemma SameGroupNeighbours(x: string, c: char, d: char, y: string)
    requires CharacterGroup(c) == CharacterGroup(d)
    ensures Equivalent(x + [c, d] + y, x + [c] + y)
  {
    var v := CharacterGroup(c);
    assert Groups(x + [c, d] + y) == Groups(x) + [v, v] + Groups(y);
    assert Groups(x + [c] + y) == Groups(x) + [v] + Groups(y);
    CollapseAbsorbsRepeat(Groups(x), v, Groups(y));
  }

  lemma EquivalentReflexive(a: string)
    ensures Equivalent(a, a)
  {
  }

  lemma EquivalentSymmetric(a: string, b: string)
    ensures Equivalent(a, b) == Equivalent(b, a)
  {
  }

  lemma EquivalentTransitive(a: string, b: string, c: string)
    requires Equivalent(a, b) && Equivalent(b, c)
    ensures Equivalent(a, c)
  {
  }

  /** The doubled consonant of SMMT collapses, so SMMT matches SMT. */
  lemma DoubledLetterExample()
    ensures Equivalent("SMMT", "SMT")
  {
    SameGroupNeighbours("S", 'M', 'M', "T");
    assert "S" + ['M', 'M'] + "T" == "SMMT";
    assert "S" + ['M'] + "T" == "SMT";
  }

  /** J and S are both in group 2, so JNS and SNS both read 2, 5, 2. */
  lemma SameGroupExample()
    ensures Equivalent("JNS", "SNS")
  {
    assert Groups("JNS") == Groups("SNS") == [2, 5, 2];
  }

  /** B is in group 3, J in group 2: BNS and JNS differ at the first checkpoint. */
  lemma FirstLetterExample()
    ensures !Equivalent("BNS", "JNS")
  {
    FirstGroupsDiffer("BNS", "JNS");
  }

  /** SMT reads 2, 5, 4 and JNS reads 2, 5, 2. */
  lemma LastLetterExample()
    ensures !Equivalent("SMT", "JNS")
  {
    var g, h := Groups("SMT"), Groups("JNS");
    assert g == [2, 5, 4] && h == [2, 5, 2];
    CollapseHead(g, 0);
    CollapseHead(g, 1);
    CollapseHead(h, 0);
    CollapseHead(h, 1);
    assert g[0..] == g && h[0..] == h;
    CollapseStart(g[2..]);
    CollapseStart(h[2..]);
    assert Collapse(g)[2] == Collapse(g[2..])[0] == 4;
    assert Collapse(h)[2] == Collapse(h[2..])[0] == 2;
  }
}
