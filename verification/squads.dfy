/** `getRoleCounts` of client/src/pages/Squads.jsx: how many players of a
    team's roster are in each category. */
module Squads {
  import opened Players

  /** How many of `categories` are one of the four category names. */
  function KnownCount(categories: seq<string>): (n: nat)
    ensures n <= |categories|
    decreases |categories|
  {
    if categories == [] then 0
    else
      KnownCount(categories[..|categories| - 1])
        + (if categories[|categories| - 1] in CategoryNames then 1 else 0)
  }

  /** The four per-category tallies add up to the number of known categories. */
  lemma {:induction false} TalliesAddUp(categories: seq<string>)
    ensures var m := multiset(categories);
      m["Batsman"] + m["Bowler"] + m["Wicketkeeper"] + m["All-Rounder"] == KnownCount(categories)
    decreases |categories|
  {
    if categories != [] {
      var init := categories[..|categories| - 1];
      assert categories == init + [categories[|categories| - 1]];
      TalliesAddUp(init);
    }
  }

  /** Every player is counted exactly when every category is a known one. */
  lemma {:induction false} AllCountedIffAllKnown(categories: seq<string>)
    ensures KnownCount(categories) == |categories| <==>
      forall i :: 0 <= i < |categories| ==> categories[i] in CategoryNames
    decreases |categories|
  {
    if categories != [] {
      var init := categories[..|categories| - 1];
      AllCountedIffAllKnown(init);
      if KnownCount(categories) == |categories| {
        forall i | 0 <= i < |categories|
          ensures categories[i] in CategoryNames
        {
          if i < |init| {
            assert categories[i] == init[i];
          }
        }
      }
    }
  }

  /** The category strings of a roster of stored players. */
  function CategoriesOf(roster: seq<Player>): (categories: seq<string>)
    ensures |categories| == |roster|
    ensures forall i :: 0 <= i < |roster| ==> categories[i] == CategoryName(roster[i].category)
  {
    seq(|roster|, i requires 0 <= i < |roster| => CategoryName(roster[i].category))
  }

  /** A roster of stored players, whose categories the schema's enum
      guarantees, is counted in full. */
  lemma StoredRosterFullyCounted(roster: seq<Player>)
    ensures KnownCount(CategoriesOf(roster)) == |roster|
  {
    AllCountedIffAllKnown(CategoriesOf(roster));
  }

  /** `getRoleCounts`: every category starts at zero, and each player whose
      category is one of the four keys adds one to it; other players are
      skipped. The roster itself is a value and is left as it was. */
  method GetRoleCounts(categories: seq<string>) returns (counts: map<string, nat>)
    ensures counts.Keys == CategoryNames
    ensures forall k :: k in counts ==> counts[k] == multiset(categories)[k]
    ensures counts["Batsman"] + counts["Bowler"] + counts["Wicketkeeper"] + counts["All-Rounder"]
      == KnownCount(categories) <= |categories|
  {
    counts := map["Batsman" := 0, "Bowler" := 0, "Wicketkeeper" := 0, "All-Rounder" := 0];
    for i := 0 to |categories|
      invariant counts.Keys == CategoryNames
      invariant forall k :: k in counts ==> counts[k] == multiset(categories[..i])[k]
    {
      assert categories[..i + 1] == categories[..i] + [categories[i]];
      var category := categories[i];
      if category in counts {
        counts := counts[category := counts[category] + 1];
      }
    }
    assert categories[..|categories|] == categories;
    TalliesAddUp(categories);
  }
}
