# Phonetic name search, modelled in Dafny

The system matches names by sound, using a fixed rule set. A library of
reference names is normalised once. Each search term is then normalised the
same way and compared against every library key, and the library names whose
keys match are returned in library order.

Normalisation (`preprocessName`) works in three steps:

1. Delete every character that is not an ASCII letter.
2. Upper-case the rest.
3. Keep the first letter, and delete every A, E, I, H, O, U, W, Y after it.

The comparison (`compare`) walks both keys with two cursors. At each
checkpoint the two letters must lie in the same of eight letter groups
(`getCharacterGroup`). Each cursor then skips the rest of its run of
same-group letters. A match needs both cursors to reach the end together.

The model has one module per component:

- `LetterGroups` (`letter_groups.dfy`) holds the eight groups and the lookup.
  It proves that the groups are disjoint, that together they cover A to Z,
  and that every other character gets -1.
- `Normaliser` (`normaliser.dfy`) holds `preprocessName` as pure functions.
  The source fails on a name without an ASCII letter; the model returns
  `None` there. It proves the key's alphabet, first-letter retention,
  which letters survive step 3 (all but the eight, every occurrence) and
  order. It also proves that the key ignores case and punctuation, and that
  normalising is idempotent.
- `Matcher` (`matcher.dfy`) is the reference definition of a match. Two keys
  match exactly when their group sequences are equal once every run of one
  group is cut to one element (`Collapse`). It also holds the lemmas that
  carry the comparator's loop invariant.
- `Names` (`name.dfy`) is the mutable `Name` record.
- `Engine` (`search_engine.dfy`) is the `SearchEngine` class. It keeps the
  library as a sequence of `Name` objects, with a ghost sequence of
  (original, key) entries mirroring it. `ProcessInput`, `Search` and
  `Compare` keep the loops of the source. `Compare` is proved equal to the
  collapsed-group definition. `Search` is proved to return the matching
  names in library order.
- `PhoneticSearch` (`phonetic_search.dfy`) is the line that `printResults`
  builds.
- `Scenarios` (`scenarios.dfy`) is an example library: Jones, Jonas, Johns,
  Saunas, Smith, searched for Jones and for Bones. The documentation of
  `printResults` shows the line "Jones: Jonas, Johns, Saunas", which
  assumes a library without Jones itself; in this example library the
  search for Jones also returns Jones.

Two choices follow the code closely. A `Name` is created with a null key
and the key is set afterwards, so the model keeps that two-phase record.
When a library name has no letter, the exception leaves the constructor of
`SearchEngine`. The model's constructor therefore requires every name to
have a letter, and `ProcessInput` reports the failure through its result.

## Model

| member | source | states |
|---|---|---|
| LetterGroups.Group | src/SearchEngine.java:17-38 | the sets GROUP1 to GROUP8, numbered 1 to 8; no set for any other number |
| LetterGroups.CharacterGroup | src/SearchEngine.java:208-231 | the lookup: the number of the first of the eight sets that holds the character, tried in order 1 to 8, or -1 |
| LetterGroups.CharacterGroupRange | src/SearchEngine.java:208-231 | an upper-case letter gets a group number in 1..8 whose set holds it; any other character gets -1 |
| LetterGroups.GroupsDisjoint | src/SearchEngine.java:17-38 | no two of the eight group sets share a letter |
| LetterGroups.GroupsCoverUppercase | src/SearchEngine.java:17-38 | a character is in one of the eight sets exactly when it is an upper-case letter A to Z |
| LetterGroups.CharacterGroupAgrees | src/SearchEngine.java:208-231 | the lookup returns the one group whose set lists the letter |
| Normaliser.ToUpper | src/SearchEngine.java:92 | a lower-case ASCII letter becomes its upper-case letter (code point minus 32); every other character is unchanged |
| Normaliser.LettersOnly | src/SearchEngine.java:89 | step 1: the name with every character outside A-Z and a-z deleted |
| Normaliser.UpperCase | src/SearchEngine.java:92 | step 2: every character upper-cased, position by position |
| Normaliser.DropListed | src/SearchEngine.java:95 | step 3's filter: the string with every A, E, I, H, O, U, W, Y deleted |
| Normaliser.PreprocessName | src/SearchEngine.java:87-99 | there is no key exactly when the name has no ASCII letter; a key is non-empty, all upper-case, and has none of A, E, I, H, O, U, W, Y after its first letter |
| Normaliser.LettersOnlyEmpty | src/SearchEngine.java:89 | the letter filter leaves nothing exactly when the name has no ASCII letter |
| Normaliser.LettersOnlyAreLetters | src/SearchEngine.java:89 | the letter filter leaves only ASCII letters |
| Normaliser.DropListedAvoids | src/SearchEngine.java:95 | the step-3 filter keeps only characters of its input, and none of the eight dropped letters |
| Normaliser.LettersOnlyFirst | src/SearchEngine.java:89 | the first filtered character is the name's first ASCII letter |
| Normaliser.FirstLetterRetained | src/SearchEngine.java:95 | the key starts with the upper-cased first ASCII letter of the name |
| Normaliser.DropListedSubsequence | src/SearchEngine.java:95 | the step-3 filter keeps the surviving letters in order |
| Normaliser.KeepsOrder | src/SearchEngine.java:89-95 | the key is a subsequence of the name's upper-cased letters |
| Normaliser.LettersOnlySameUpToCase | src/SearchEngine.java:89-92 | names that differ only in letter case filter to letter sequences that differ only in case |
| Normaliser.CaseInsensitive | src/SearchEngine.java:92 | names that differ only in letter case get the same key |
| Normaliser.LettersOnlyAppend | src/SearchEngine.java:89 | the letter filter distributes over concatenation |
| Normaliser.IgnoresNonLetter | src/SearchEngine.java:89 | inserting a non-letter anywhere in a name does not change its key |
| Normaliser.LettersOnlyFixes | src/SearchEngine.java:89 | the letter filter leaves a string of letters unchanged |
| Normaliser.IgnoresNonLetters | src/SearchEngine.java:89 | a name and its letters alone get the same key |
| Normaliser.DropListedFixes | src/SearchEngine.java:95 | the step-3 filter leaves a string without dropped letters unchanged |
| Normaliser.DropListedKeeps | src/SearchEngine.java:95 | step 3 keeps every occurrence of each letter that is not one of the eight |
| Normaliser.KeepsOtherLetters | src/SearchEngine.java:95 | after its first letter, the key holds each letter outside the eight exactly as often as the rest of the upper-cased letters do |
| Normaliser.Idempotent | src/SearchEngine.java:87-99 | normalising a key gives the same key back |
| Normaliser.KeyOfLetters | src/SearchEngine.java:87-99 | the key of a name made only of letters is its upper-cased first letter followed by what step 3 leaves of the rest |
| Normaliser.JonesKey | src/SearchEngine.java:87-99 | Jones gets the key JNS |
| Normaliser.UpperJonesKey | src/SearchEngine.java:92 | JONES gets the same key JNS, by case insensitivity from Jones |
| Normaliser.LowerJonesKey | src/SearchEngine.java:92 | jones gets the same key JNS, by case insensitivity from Jones |
| Normaliser.OBrienKey | src/SearchEngine.java:95 | the first letter is kept even when it is a vowel: OBrien gets OBRN |
| Normaliser.FirstLetterDefined | src/SearchEngine.java:95 | the first-letter substring `substring(0,1)` is in range: the filtered, upper-cased name has a character |
| Normaliser.FirstLetterDefinedIff | src/SearchEngine.java:95 | the unchecked first-letter substring is within bounds exactly when the name has an ASCII letter |
| Normaliser.DigitsFault | src/SearchEngine.java:95 | for the name 123 the first-letter substring is taken of an empty string |
| Normaliser.NoLetterExamples | src/SearchEngine.java:95 | the names 123 and ' get no key |
| Matcher.Groups | src/SearchEngine.java:161-162 | the group of every key letter, in order |
| Matcher.Collapse | src/SearchEngine.java:137-140 | step 5: every run of one group counts as a single group |
| Matcher.Equivalent | src/SearchEngine.java:134-148 | two keys match exactly when their run-collapsed group sequences are equal |
| Matcher.SuffixesMatch | src/SearchEngine.java:158-189 | what the scan still has to decide at cursors i and j: whether the collapsed groups from i on equal those from j on |
| Matcher.CollapseStart | src/SearchEngine.java:185-187 | collapsing never lengthens a group sequence and keeps its first group, so the first checkpoint compares first groups |
| Matcher.CollapseHasNoRepeats | src/SearchEngine.java:137-140 | after collapsing, no two neighbouring groups are equal |
| Matcher.CollapseFixesRunFree | src/SearchEngine.java:137-140 | a sequence without equal neighbours is already collapsed |
| Matcher.CollapseIdempotent | src/SearchEngine.java:137-140 | collapsing twice is collapsing once |
| Matcher.CollapseAbsorbsRepeat | src/SearchEngine.java:167-183 | doubling one group anywhere in a sequence does not change its collapsed form |
| Matcher.CollapseSkip | src/SearchEngine.java:168-170 | skipping a next letter of the same group leaves the collapsed rest unchanged |
| Matcher.CollapseHead | src/SearchEngine.java:171-173 | where a run ends, the collapsed rest starts with that run's group |
| Matcher.CollapseRun | src/SearchEngine.java:167-174 | a whole run of one group collapses to that one group followed by the collapsed rest |
| Matcher.RunsAgree | src/SearchEngine.java:165-183 | at a checkpoint with equal groups, skipping both runs leaves the match decided by what follows them |
| Matcher.RunsDiffer | src/SearchEngine.java:185-187 | at a checkpoint with different groups, the keys do not match from there |
| Matcher.ScanEnd | src/SearchEngine.java:192-198 | once one cursor has reached its end, the rests match exactly when both cursors have |
| Matcher.FirstGroupsDiffer | src/SearchEngine.java:185-187 | keys whose first letters lie in different groups never match |
| Matcher.SameGroupNeighbours | src/SearchEngine.java:165-183 | two neighbouring letters of one group count as one letter |
| Matcher.EquivalentReflexive | src/SearchEngine.java:150-199 | every key matches itself |
| Matcher.EquivalentSymmetric | src/SearchEngine.java:150-199 | the argument order does not matter |
| Matcher.EquivalentTransitive | src/SearchEngine.java:150-199 | matching is transitive, so it partitions keys into classes |
| Matcher.DoubledLetterExample | src/SearchEngine.java:167-183 | SMMT matches SMT |
| Matcher.SameGroupExample | src/SearchEngine.java:165 | JNS matches SNS, since J and S are both in group 2 |
| Matcher.FirstLetterExample | src/SearchEngine.java:185-187 | BNS does not match JNS, since B is in group 3 and J in group 2 |
| Matcher.LastLetterExample | src/SearchEngine.java:185-187 | SMT does not match JNS, since the third groups differ |
| Names.Name.GetName | src/Name.java:31-33 | the original name of the record, read without changing it |
| Names.Name.GetPreprocessedName | src/Name.java:47-49 | the key of the record, None until one is set, read without changing it |
| Names.Name.constructor | src/Name.java:19-25 | a new record holds the given name and no key; the name is a constant field, never assigned again |
| Names.Name.SetPreprocessedName | src/Name.java:39-41 | the record now holds the given key, and its name is unchanged |
| Engine.MatchingNames | src/SearchEngine.java:116-127 | the reference result of a search: the names of the entries whose key matches the given key, in entry order |
| Engine.MatchingNamesAppend | src/SearchEngine.java:116-125 | the results for a library split in two are the results for the first part followed by those for the second, so results keep library order |
| Engine.MatchingNamesMembers | src/SearchEngine.java:119-125 | a name is a result exactly when some entry with that name has a key matching the term's key |
| Engine.MatchingNamesStep | src/SearchEngine.java:119-125 | one more library entry adds its name to the results exactly when its key matches |
| Engine.MatchingNamesLength | src/SearchEngine.java:116-127 | there are never more results than library entries |
| Engine.EmptyLibrary | src/SearchEngine.java:116-127 | an empty library gives no results |
| Engine.SearchEngine.Valid | src/SearchEngine.java:14 | the library field holds one record per entry, in order, each with the entry's name and key, and each key is the key of its name |
| Engine.SearchEngine.constructor | src/SearchEngine.java:48-51 | given names that all have a letter, the library has one entry per name in input order, each holding the name and its key; every entry is a newly created record |
| Engine.SearchEngine.ProcessInput | src/SearchEngine.java:61-76 | the new library holds entry k with name k and its key, for every name up to the first one without a letter; it succeeds exactly when every name got an entry; every entry is a newly created record |
| Engine.SearchEngine.Search | src/SearchEngine.java:110-128 | no result exactly when the term has no ASCII letter; otherwise the names of the entries whose key matches the term's key, in library order; the library is not changed |
| Engine.SearchEngine.Compare | src/SearchEngine.java:150-199 | the cursor scan returns true exactly when the two keys' collapsed group sequences are equal |
| PhoneticSearch.Join | src/PhoneticSearch.java:31-38 | the results in list order, with ", " between each two and none after the last |
| PhoneticSearch.TotalLength | src/PhoneticSearch.java:31-38 | the summed lengths of the results, the part of the line the separators do not make up |
| PhoneticSearch.ResultLine | src/PhoneticSearch.java:23-43 | the line printed for a term: the term, a colon and a space, then the joined results or the no-results message |
| PhoneticSearch.PrintResults | src/PhoneticSearch.java:23-43 | the line built in the loop is the term, a colon and a space, then the results joined by commas or the no-results message |
| PhoneticSearch.StartsWithTerm | src/PhoneticSearch.java:24 | every line starts with the term, a colon and a space |
| PhoneticSearch.NoResultsLine | src/PhoneticSearch.java:27-28 | with no results the line is the term followed by ": No results found." |
| PhoneticSearch.ResultsLine | src/PhoneticSearch.java:29-38 | with results the line is the term, a colon and a space, then the joined results |
| PhoneticSearch.JoinCons | src/PhoneticSearch.java:31-38 | the join is the first result, a separator, then the join of the rest |
| PhoneticSearch.JoinLength | src/PhoneticSearch.java:31-38 | n results are joined with exactly n - 1 separators |
| PhoneticSearch.JoinEnds | src/PhoneticSearch.java:31-38 | the join starts with the first result and ends with the last, with no separator after it |
| PhoneticSearch.DocumentedLines | src/PhoneticSearch.java:12-19 | the two documented lines "Jones: Jonas, Johns, Saunas" and "Bones: No results found." |
| Scenarios.JonasKey | src/SearchEngine.java:87-99 | Jonas gets the key JNS |
| Scenarios.JohnsKey | src/SearchEngine.java:87-99 | Johns gets the key JNS |
| Scenarios.SaunasKey | src/SearchEngine.java:87-99 | Saunas gets the key SNS |
| Scenarios.SmithKey | src/SearchEngine.java:87-99 | Smith gets the key SMT |
| Scenarios.BonesKey | src/SearchEngine.java:87-99 | Bones gets the key BNS |
| Scenarios.FiveEntries | src/SearchEngine.java:119-125 | the results of a five-entry library are each entry's contribution in order |
| Scenarios.JonesMatches | src/SearchEngine.java:119-125 | the key JNS matches Jones, Jonas, Johns and Saunas, but not Smith |
| Scenarios.BonesKeyDiffers | src/SearchEngine.java:185-187 | BNS matches none of JNS, SNS and SMT |
| Scenarios.BonesMatchesNothing | src/SearchEngine.java:119-125 | the key BNS matches no entry of the example library |
| Scenarios.LibraryEntries | src/SearchEngine.java:61-76 | each name of the example library has the key of its entry |
| Scenarios.BuildExample | src/SearchEngine.java:48-76 | a new search engine over the example library holds exactly the example entries |
| Scenarios.SearchExample | src/SearchEngine.java:110-128 | searching the example library for Jones gives Jones, Jonas, Johns, Saunas; for Bones it gives nothing |

## Left out

- `main` in `src/PhoneticSearch.java` is not part of this model. That covers reading the library from standard input, the search terms from the arguments, the usage and error messages, and the exception handler. The library and the terms are parameters instead.
- Writing the line to standard output in `printResults` is left out. The model returns the line.
- The regular expressions and the locale-dependent `toUpperCase` are restated over ASCII: a letter filter, an upper-casing map and a filter for the eight dropped letters. Upper-casing only ever meets ASCII letters, because the filter runs first. The ASCII restatement assumes a locale such as English: under a Turkish or Azerbaijani default locale `toUpperCase` maps i to İ (U+0130), which step 3 keeps and the group lookup maps to -1; the model does not capture that.
- The `HashSet` groups are constant Dafny sets. Hashing is not modelled.
- The index-out-of-bounds exception thrown for a name without letters is not modelled as an exception. `PreprocessName` and `Search` return `None`, and `ProcessInput` returns false, keeping the entries built before the failing name.
- Engine.SearchEngine.constructor: requires every name to have an ASCII letter. For any other input the source's constructor throws, and the model has no exceptions.
- Names.Name.SetPreprocessedName: the source also accepts null. Nothing in the core passes null, so the model takes only a key.
- `getName` and `getPreprocessedName` are functions that read the record. Being functions, they cannot change it.
- The stale copy under `src/bak` is not part of this model.
- `Compare` works on `seq<char>` rather than the `char[]` copies the source makes of the keys. Since the copies are never written, nothing is lost.

## Findings

| source | as written | input that shows it | evidently intended | confidence | as-written member | corrected member |
|---|---|---|---|---|---|---|
| src/SearchEngine.java:95 | `original.substring(0,1)` is taken without checking that the filtered name has a character | the name `123` (or `'`) leaves an empty string, so the substring is out of bounds and the search or the library construction fails | a name without letters is reported as having no key | not executed | Normaliser.DigitsFault | Normaliser.PreprocessName |
