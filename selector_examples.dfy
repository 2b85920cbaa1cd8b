/** Worked descriptions for the keyword dispatch: the priority order decides
    between keywords that occur together, and case does not matter. */
module SelectorExamples {
  import opened Selector

  /** Every character of `t` is drawn from `alphabet`. */
  predicate Over(t: string, alphabet: set<char>) {
    forall i :: 0 <= i < |t| ==> t[i] in alphabet
  }

  /** A description with no upper-case letter is its own lower-cased copy. */
  lemma LowerOfLowerCase(s: string, alphabet: set<char>)
    requires Over(s, alphabet) && forall c :: c in alphabet ==> !('A' <= c <= 'Z')
    ensures Lower(s) == s
  {
  }

  /** A keyword with a character outside the alphabet of `t` does not occur in `t`. */
  lemma AbsentChar(t: string, alphabet: set<char>, k: string, j: int)
    requires Over(t, alphabet) && 0 <= j < |k| && k[j] !in alphabet
    ensures !Occurs(t, k)
  {
    forall i: nat ensures !MatchAt(t, k, i) {
      if i + |k| <= |t| {
        assert t[i..i + |k|][j] == t[i + j];
      }
    }
  }

  /** No position `i' >= i` of `t` holds the character pair `a b`. */
  predicate NoPairFrom(t: string, a: char, b: char, i: nat)
    decreases |t| - i
  {
    i + 1 >= |t| || (!(t[i] == a && t[i + 1] == b) && NoPairFrom(t, a, b, i + 1))
  }

  lemma {:induction false} NoPairAt(t: string, a: char, b: char, i: nat, p: nat)
    requires NoPairFrom(t, a, b, i) && i <= p && p + 1 < |t|
    ensures !(t[p] == a && t[p + 1] == b)
    decreases p - i
  {
    if i < p {
      NoPairAt(t, a, b, i + 1, p);
    }
  }

  /** A keyword holding a character pair that `t` never holds does not occur in `t`. */
  lemma AbsentPair(t: string, k: string, j: int)
    requires 0 <= j && j + 1 < |k| && NoPairFrom(t, k[j], k[j + 1], 0)
    ensures !Occurs(t, k)
  {
    forall i: nat ensures !MatchAt(t, k, i) {
      if i + |k| <= |t| {
        assert t[i..i + |k|][j] == t[i + j] && t[i..i + |k|][j + 1] == t[i + j + 1];
        NoPairAt(t, k[j], k[j + 1], 0, i + j);
      }
    }
  }

  // "scattered clouds" --------------------------------------------------------

  const SCATTERED_CHARS: set<char> := {'s', 'c', 'a', 't', 'e', 'r', 'd', ' ', 'l', 'o', 'u'}

  lemma ScatteredText(s: string)
    requires s == "scattered clouds"
    ensures Over(s, SCATTERED_CHARS)
    ensures MatchAt(s, "scattered", 0)
    ensures NoPairFrom(s, 'l', 'e', 0)
  {
    ScatteredOver(s);
    ScatteredNoPair(s);
    assert s[0..9] == "scattered";
  }

  lemma ScatteredOver(s: string)
    requires s == "scattered clouds"
    ensures Over(s, SCATTERED_CHARS)
  {
    forall i | 0 <= i < |s| ensures s[i] in SCATTERED_CHARS {
    }
  }

  lemma ScatteredNoPair(s: string)
    requires s == "scattered clouds"
    ensures NoPairFrom(s, 'l', 'e', 0)
  {
    assert NoPairFrom("scattered clouds", 'l', 'e', 0);
  }

  lemma ScatteredSelect(s: string)
    requires Over(s, SCATTERED_CHARS) && MatchAt(s, "scattered", 0) && NoPairFrom(s, 'l', 'e', 0)
    ensures Select(s) == Scattered
  {
    LowerOfLowerCase(s, SCATTERED_CHARS);
    AbsentPair(s, "clear", 1);
    AbsentChar(s, SCATTERED_CHARS, "few", 0);
  }

  /** "scattered clouds" selects the scattered-clouds icon, although every
      letter of "clear" occurs in it. */
  lemma ScatteredClouds(s: string)
    requires s == "scattered clouds"
    ensures Select(s) == Scattered
  {
    ScatteredText(s);
    ScatteredSelect(s);
  }

  // "light rain and thunderstorm" ------------------------------------------

  const RAIN_AND_THUNDER_CHARS: set<char> :=
    {'l', 'i', 'g', 'h', 't', ' ', 'r', 'a', 'n', 'd', 'u', 'e', 's', 'o', 'm'}

  lemma RainAndThunderText(s: string)
    requires s == "light rain and thunderstorm"
    ensures Over(s, RAIN_AND_THUNDER_CHARS)
    ensures MatchAt(s, "rain", 6) && MatchAt(s, "thunder", 15)
  {
    assert s[6] == 'r' && s[7] == 'a' && s[8] == 'i' && s[9] == 'n';
    assert s[6..10] == "rain";
    assert s[15] == 't' && s[16] == 'h' && s[17] == 'u' && s[18] == 'n';
    assert s[19] == 'd' && s[20] == 'e' && s[21] == 'r';
    assert s[15..22] == "thunder";
  }

  lemma RainAndThunderSelect(s: string)
    requires Over(s, RAIN_AND_THUNDER_CHARS) && MatchAt(s, "rain", 6)
    ensures Select(s) == Rain
  {
    var a := RAIN_AND_THUNDER_CHARS;
    LowerOfLowerCase(s, a);
    AbsentChar(s, a, "clear", 0);
    AbsentChar(s, a, "few", 0);
    AbsentChar(s, a, "scattered", 1);
    AbsentChar(s, a, "broken", 0);
    AbsentChar(s, a, "shower", 3);
  }

  /** "light rain and thunderstorm" holds both "rain" and "thunder" and
      selects rain, because rain is checked first. */
  lemma RainBeforeThunder(s: string)
    requires s == "light rain and thunderstorm"
    ensures Occurs(s, "thunder") && Select(s) == Rain
  {
    RainAndThunderText(s);
    RainAndThunderSelect(s);
  }

  // "shower rain" ------------------------------------------------------------

  const SHOWER_RAIN_CHARS: set<char> := {'s', 'h', 'o', 'w', 'e', 'r', ' ', 'a', 'i', 'n'}

  lemma ShowerRainText(s: string)
    requires s == "shower rain"
    ensures Over(s, SHOWER_RAIN_CHARS)
    ensures MatchAt(s, "shower", 0) && MatchAt(s, "rain", 7)
  {
    assert s[0] == 's' && s[1] == 'h' && s[2] == 'o' && s[3] == 'w' && s[4] == 'e' && s[5] == 'r';
    assert s[0..6] == "shower";
    assert s[7] == 'r' && s[8] == 'a' && s[9] == 'i' && s[10] == 'n';
    assert s[7..11] == "rain";
  }

  lemma ShowerRainSelect(s: string)
    requires Over(s, SHOWER_RAIN_CHARS) && MatchAt(s, "shower", 0)
    ensures Select(s) == Shower
  {
    var a := SHOWER_RAIN_CHARS;
    LowerOfLowerCase(s, a);
    AbsentChar(s, a, "clear", 0);
    AbsentChar(s, a, "few", 0);
    AbsentChar(s, a, "scattered", 1);
    AbsentChar(s, a, "broken", 0);
  }

  /** "shower rain" holds both "shower" and "rain" and selects shower. */
  lemma ShowerBeforeRain(s: string)
    requires s == "shower rain"
    ensures Occurs(s, "rain") && Select(s) == Shower
  {
    ShowerRainText(s);
    ShowerRainSelect(s);
  }

  // "supercell derecho" ------------------------------------------------------

  const DERECHO_CHARS: set<char> := {'s', 'u', 'p', 'e', 'r', 'c', 'l', ' ', 'd', 'h', 'o'}

  lemma DerechoText(s: string)
    requires s == "supercell derecho"
    ensures Over(s, DERECHO_CHARS)
  {
  }

  lemma DerechoSelect(s: string)
    requires Over(s, DERECHO_CHARS)
    ensures Select(s) == Unknown
  {
    var a := DERECHO_CHARS;
    LowerOfLowerCase(s, a);
    AbsentChar(s, a, "clear", 3);
    AbsentChar(s, a, "few", 0);
    AbsentChar(s, a, "scattered", 2);
    AbsentChar(s, a, "broken", 0);
    AbsentChar(s, a, "shower", 3);
    AbsentChar(s, a, "rain", 1);
    AbsentChar(s, a, "thunder", 0);
    AbsentChar(s, a, "snow", 1);
    AbsentChar(s, a, "mist", 0);
    AbsentChar(s, a, "fog", 0);
    AbsentChar(s, a, "wind", 0);
  }

  /** A description with none of the keywords falls back to unknown. */
  lemma NoKeywordIsUnknown(s: string)
    requires s == "supercell derecho"
    ensures Select(s) == Unknown
  {
    DerechoText(s);
    DerechoSelect(s);
  }

  // "CLEAR SKY" / "clear sky" ------------------------------------------------

  const CLEAR_SKY_CHARS: set<char> := {'c', 'l', 'e', 'a', 'r', ' ', 's', 'k', 'y'}

  lemma ClearSkyText(s1: string, s2: string)
    requires s1 == "CLEAR SKY" && s2 == "clear sky"
    ensures Lower(s1) == s2 && Over(s2, CLEAR_SKY_CHARS) && MatchAt(s2, "clear", 0)
  {
    ClearSkyLower(s1, s2);
    assert s2[0..5] == "clear";
  }

  lemma ClearSkyLower(s1: string, s2: string)
    requires s1 == "CLEAR SKY" && s2 == "clear sky"
    ensures Lower(s1) == s2
  {
    assert forall i :: 0 <= i < |s1| ==> s2[i] == LowerChar(s1[i]);
    LowerByChars(s1, s2);
  }

  /** `t` is the lower-cased copy of `s` when it is so character by character. */
  lemma LowerByChars(s: string, t: string)
    requires |s| == |t| && forall i :: 0 <= i < |s| ==> t[i] == LowerChar(s[i])
    ensures Lower(s) == t
  {
  }

  lemma ClearSkySelect(s1: string, s2: string)
    requires Lower(s1) == s2 && Over(s2, CLEAR_SKY_CHARS) && MatchAt(s2, "clear", 0)
    ensures Select(s1) == Select(s2) == Clear
  {
    LowerOfLowerCase(s2, CLEAR_SKY_CHARS);
    SelectIgnoresCase(s1, s2);
  }

  /** "CLEAR SKY" and "clear sky" select the same icon, clear. */
  lemma UpperAndLowerAgree(s1: string, s2: string)
    requires s1 == "CLEAR SKY" && s2 == "clear sky"
    ensures Select(s1) == Select(s2) == Clear
  {
    ClearSkyText(s1, s2);
    ClearSkySelect(s1, s2);
  }
}
