/** The keyword dispatch of `draw_icon_weather`: lower-case the description,
    then take the first keyword of a fixed list that occurs in it. */
module Selector {

  /** The icon renderers the dispatcher can choose. */
  datatype Icon =
    | Clear | Few | Scattered | Broken | Shower | Rain
    | Thunder | Snow | Mist | Fog | Wind | Unknown

  /** ASCII lower-casing of one character (what `tolower` does in the C locale). */
  function LowerChar(c: char): char {
    if 'A' <= c <= 'Z' then (c as int + ('a' as int - 'A' as int)) as char else c
  }

  /** `String::toLowerCase`, character by character. */
  function Lower(s: string): (t: string)
    ensures |t| == |s|
    ensures forall i :: 0 <= i < |s| ==> t[i] == LowerChar(s[i])
  {
    if s == [] then [] else [LowerChar(s[0])] + Lower(s[1..])
  }

  /** `k` occurs in `t` starting at index `i`. */
  predicate MatchAt(t: string, k: string, i: nat) {
    i + |k| <= |t| && t[i..i + |k|] == k
  }

  /** `k` occurs somewhere in `t`. */
  ghost predicate Occurs(t: string, k: string) {
    exists i: nat :: MatchAt(t, k, i)
  }

  /** The first index at or after `from` where `k` occurs in `t`, or -1. */
  function IndexFrom(t: string, k: string, from: nat): (r: int)
    ensures r == -1 || (from <= r && MatchAt(t, k, r))
    ensures forall i: nat :: from <= i && (r == -1 || i < r) ==> !MatchAt(t, k, i)
    decreases |t| - from
  {
    if from + |k| > |t| then -1
    else if MatchAt(t, k, from) then from
    else IndexFrom(t, k, from + 1)
  }

  /** `String::indexOf(k)`: the first index where `k` occurs in `t`, or -1. */
  function IndexOf(t: string, k: string): (r: int)
    ensures r >= 0 <==> Occurs(t, k)
    ensures r >= 0 ==> MatchAt(t, k, r) && forall i: nat :: i < r ==> !MatchAt(t, k, i)
  {
    IndexFrom(t, k, 0)
  }

  /** The decision of `draw_icon_weather`, in the source's order of tests:
      an answer other than `Unknown` is an icon whose keyword occurs in the
      lower-cased description. */
  function Select(s: string): (r: Icon)
    ensures r != Unknown ==> Occurs(Lower(s), KeywordOf(r))
  {
    var t := Lower(s);
    if IndexOf(t, "clear") >= 0 then Clear
    else if IndexOf(t, "few") >= 0 then Few
    else if IndexOf(t, "scattered") >= 0 then Scattered
    else if IndexOf(t, "broken") >= 0 then Broken
    else if IndexOf(t, "shower") >= 0 then Shower
    else if IndexOf(t, "rain") >= 0 then Rain
    else if IndexOf(t, "thunder") >= 0 then Thunder
    else if IndexOf(t, "snow") >= 0 then Snow
    else if IndexOf(t, "mist") >= 0 then Mist
    else if IndexOf(t, "fog") >= 0 then Fog
    else if IndexOf(t, "wind") >= 0 then Wind
    else Unknown
  }

  /** The keywords with their icons, highest priority first. */
  const KEYWORDS: seq<(string, Icon)> := [
    ("clear", Clear), ("few", Few), ("scattered", Scattered), ("broken", Broken),
    ("shower", Shower), ("rain", Rain), ("thunder", Thunder), ("snow", Snow),
    ("mist", Mist), ("fog", Fog), ("wind", Wind)
  ]

  /** The keyword that selects an icon (none for the fallback). */
  function KeywordOf(i: Icon): string {
    match i
    case Clear => "clear"
    case Few => "few"
    case Scattered => "scattered"
    case Broken => "broken"
    case Shower => "shower"
    case Rain => "rain"
    case Thunder => "thunder"
    case Snow => "snow"
    case Mist => "mist"
    case Fog => "fog"
    case Wind => "wind"
    case Unknown => ""
  }

  /** Each table entry pairs an icon with that icon's keyword. */
  lemma KeywordOfTable(j: int)
    requires 0 <= j < |KEYWORDS|
    ensures KeywordOf(KEYWORDS[j].1) == KEYWORDS[j].0
  {
  }

  /** Reference rule: the icon of the first table entry whose keyword occurs
      in `t`, or `Unknown`. */
  ghost function FirstMatch(t: string, table: seq<(string, Icon)>): Icon {
    if table == [] then Unknown
    else if Occurs(t, table[0].0) then table[0].1
    else FirstMatch(t, table[1..])
  }

  lemma FirstMatchCons(t: string, e: (string, Icon), rest: seq<(string, Icon)>)
    ensures FirstMatch(t, [e] + rest) == if Occurs(t, e.0) then e.1 else FirstMatch(t, rest)
  {
    assert ([e] + rest)[1..] == rest;
  }

  /** The if-chain is the first-match rule over the keyword table. */
  lemma SelectIsFirstMatch(s: string)
    ensures Select(s) == FirstMatch(Lower(s), KEYWORDS)
  {
    var t := Lower(s);
    var k := KEYWORDS;
    FirstMatchCons(t, k[0], k[1..]);
    FirstMatchCons(t, k[1], k[2..]);
    FirstMatchCons(t, k[2], k[3..]);
    FirstMatchCons(t, k[3], k[4..]);
    FirstMatchCons(t, k[4], k[5..]);
    FirstMatchCons(t, k[5], k[6..]);
    FirstMatchCons(t, k[6], k[7..]);
    FirstMatchCons(t, k[7], k[8..]);
    FirstMatchCons(t, k[8], k[9..]);
    FirstMatchCons(t, k[9], k[10..]);
    FirstMatchCons(t, k[10], k[11..]);
  }

  /** `FirstMatch` answers `Unknown` or the icon of one of the entries. */
  lemma {:induction false} FirstMatchFromTable(t: string, table: seq<(string, Icon)>)
    ensures FirstMatch(t, table) == Unknown ||
            exists j :: 0 <= j < |table| && table[j].1 == FirstMatch(t, table)
  {
    if table != [] && !Occurs(t, table[0].0) {
      FirstMatchFromTable(t, table[1..]);
      if FirstMatch(t, table) != Unknown {
        var j :| 0 <= j < |table[1..]| && table[1..][j].1 == FirstMatch(t, table);
        assert table[j + 1].1 == FirstMatch(t, table);
      }
    }
  }

  /** The entries' icons are pairwise distinct and none is `Unknown`. */
  predicate DistinctIcons(table: seq<(string, Icon)>) {
    (forall i :: 0 <= i < |table| ==> table[i].1 != Unknown) &&
    (forall i, j :: 0 <= i < j < |table| ==> table[i].1 != table[j].1)
  }

  lemma {:induction false} FirstMatchPriority(t: string, table: seq<(string, Icon)>, i: int)
    requires DistinctIcons(table) && 0 <= i < |table|
    ensures FirstMatch(t, table) == table[i].1 <==>
              Occurs(t, table[i].0) && forall j :: 0 <= j < i ==> !Occurs(t, table[j].0)
  {
    var rest := table[1..];
    if i == 0 && !Occurs(t, table[0].0) {
      FirstMatchFromTable(t, rest);
      if FirstMatch(t, rest) != Unknown {
        var j :| 0 <= j < |rest| && rest[j].1 == FirstMatch(t, rest);
        assert rest[j] == table[j + 1];
      }
    } else if i > 0 && !Occurs(t, table[0].0) {
      assert DistinctIcons(rest) by {
        forall a, b | 0 <= a < b < |rest| ensures rest[a].1 != rest[b].1 {
          assert rest[a] == table[a + 1] && rest[b] == table[b + 1];
        }
      }
      FirstMatchPriority(t, rest, i - 1);
      forall j | 0 <= j < i - 1 ensures rest[j] == table[j + 1] { }
    }
  }

  lemma {:induction false} FirstMatchUnknown(t: string, table: seq<(string, Icon)>)
    requires DistinctIcons(table)
    ensures FirstMatch(t, table) == Unknown <==> forall j :: 0 <= j < |table| ==> !Occurs(t, table[j].0)
  {
    if table != [] && !Occurs(t, table[0].0) {
      var rest := table[1..];
      FirstMatchUnknown(t, rest);
      forall j | 0 <= j < |rest| ensures rest[j] == table[j + 1] { }
    }
  }

  lemma KeywordsDistinct()
    ensures DistinctIcons(KEYWORDS)
  {
  }

  /** Priority: `Select` answers the icon of keyword `i` exactly when keyword
      `i` occurs in the lower-cased description and no earlier keyword does. */
  lemma SelectPriority(s: string, i: int)
    requires 0 <= i < |KEYWORDS|
    ensures Select(s) == KEYWORDS[i].1 <==>
              Occurs(Lower(s), KEYWORDS[i].0) &&
              forall j :: 0 <= j < i ==> !Occurs(Lower(s), KEYWORDS[j].0)
  {
    SelectIsFirstMatch(s);
    KeywordsDistinct();
    FirstMatchPriority(Lower(s), KEYWORDS, i);
  }

  /** Fallback: `Unknown` exactly when no keyword occurs. */
  lemma SelectFallback(s: string)
    ensures Select(s) == Unknown <==>
              forall j :: 0 <= j < |KEYWORDS| ==> !Occurs(Lower(s), KEYWORDS[j].0)
  {
    SelectIsFirstMatch(s);
    KeywordsDistinct();
    FirstMatchUnknown(Lower(s), KEYWORDS);
  }

  lemma {:induction false} LowerIdempotent(s: string)
    ensures Lower(Lower(s)) == Lower(s)
  {
  }

  /** Case-insensitivity: descriptions that agree after lower-casing select
      the same icon; in particular a description and its lower-cased copy. */
  lemma SelectIgnoresCase(s1: string, s2: string)
    requires Lower(s1) == Lower(s2)
    ensures Select(s1) == Select(s2)
    ensures Select(Lower(s1)) == Select(s1)
  {
    SameLowerSameIcon(s1, s2);
    LowerIdempotent(s1);
    SameLowerSameIcon(Lower(s1), s1);
  }

  /** `Select` reads its argument only through `Lower`. */
  lemma SameLowerSameIcon(s1: string, s2: string)
    requires Lower(s1) == Lower(s2)
    ensures Select(s1) == Select(s2)
  {
  }
}
