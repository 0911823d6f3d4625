/**
 * The table of equivalent letters used by the comparator (GROUP1 to GROUP8
 * and getCharacterGroup in SearchEngine.java).
 */
module LetterGroups {

  const Group1: set<char> := {'A', 'E', 'I', 'O', 'U'}
  const Group2: set<char> := {'C', 'G', 'J', 'K', 'Q', 'S', 'X', 'Y', 'Z'}
  const Group3: set<char> := {'B', 'F', 'P', 'V', 'W'}
  const Group4: set<char> := {'D', 'T'}
  const Group5: set<char> := {'M', 'N'}
  const Group6: set<char> := {'L'}
  const Group7: set<char> := {'R'}
  const Group8: set<char> := {'H'}

  /** What the lookup returns for a character that is in none of the eight groups. */
  const NoGroup: int := -1

  predicate IsUpper(c: char) {
    'A' <= c <= 'Z'
  }

  /** The table indexed by group number; the empty set outside 1..8. */
  function Group(g: int): set<char> {
    match g
    case 1 => Group1
    case 2 => Group2
    case 3 => Group3
    case 4 => Group4
    case 5 => Group5
    case 6 => Group6
    case 7 => Group7
    case 8 => Group8
    case _ => {}
  }

  /** The number of the first group that lists the character, or NoGroup. */
  function CharacterGroup(c: char): int {
    if c in Group1 then 1
    else if c in Group2 then 2
    else if c in Group3 then 3
    else if c in Group4 then 4
    else if c in Group5 then 5
    else if c in Group6 then 6
    else if c in Group7 then 7
    else if c in Group8 then 8
    else NoGroup
  }

  /** An upper-case letter gets the number of a group that lists it; anything else gets NoGroup. */
  lemma CharacterGroupRange(c: char)
    ensures IsUpper(c) ==> 1 <= CharacterGroup(c) <= 8 && c in Group(CharacterGroup(c))
    ensures !IsUpper(c) ==> CharacterGroup(c) == NoGroup
  {
  }

  /** No letter is in two groups. */
  lemma GroupsDisjoint(g: int, h: int)
    requires 1 <= g <= 8 && 1 <= h <= 8 && g != h
    ensures Group(g) !! Group(h)
  {
  }

  /** The eight groups together hold exactly the 26 upper-case letters. */
  lemma GroupsCoverUppercase(c: char)
    ensures IsUpper(c) <==> exists g :: 1 <= g <= 8 && c in Group(g)
  {
    CharacterGroupRange(c);
    if IsUpper(c) {
      assert c in Group(CharacterGroup(c));
    }
  }

  /** The lookup returns the one group a letter is listed in. */
  lemma CharacterGroupAgrees(c: char, g: int)
    requires 1 <= g <= 8 && c in Group(g)
    ensures CharacterGroup(c) == g
  {
  }
}
