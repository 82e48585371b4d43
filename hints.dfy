/** The hint: the recipes not created yet whose elements are all unlocked,
    and the suggestion picked from them. The random pick is an index the
    caller supplies. */
module Hints {
  import opened GameData
  import opened Progression

  /** The filter predicate of `availableRecipes`. */
  predicate Eligible(p: Progress, r: Recipe)
  {
    r.id !in p.createdPaintings
    && HasId(p.unlockedElements, r.first)
    && HasId(p.unlockedElements, r.second)
  }

  /** `recipes.filter(...)`: the eligible recipes, in catalogue order. */
  function Available(rs: seq<Recipe>, p: Progress): (r: seq<Recipe>)
    ensures |r| <= |rs|
    ensures forall x :: x in r ==> x in rs && Eligible(p, x)
    ensures forall x :: x in rs && Eligible(p, x) ==> x in r
    ensures forall x :: multiset(r)[x] == if Eligible(p, x) then multiset(rs)[x] else 0
  {
    if |rs| == 0 then []
    else
      var rest := Available(rs[1..], p);
      assert rs == [rs[0]] + rs[1..];
      assert multiset(rs) == multiset{rs[0]} + multiset(rs[1..]);
      if Eligible(p, rs[0]) then
        assert multiset([rs[0]] + rest) == multiset{rs[0]} + multiset(rest);
        [rs[0]] + rest
      else rest
  }

  /** What the hint shows. */
  datatype Hint = AllDone | Suggest(recipe: Recipe, first: Element, second: Element)

  /** `showHint` / `showMobileHint`, with `choice` the random index in
      `[0, |Available(rs, p)|)`. The two cards are the first unlocked
      elements carrying the recipe's two ids. */
  function HintFor(p: Progress, rs: seq<Recipe>, choice: nat): (h: Hint)
    requires |Available(rs, p)| == 0 || choice < |Available(rs, p)|
    ensures h.AllDone? <==> forall x :: x in rs ==> !Eligible(p, x)
    ensures h.Suggest? ==> h.recipe in rs && Eligible(p, h.recipe)
    ensures h.Suggest? ==> h.recipe == Available(rs, p)[choice]
    ensures h.Suggest? ==> FirstWithId(p.unlockedElements, h.recipe.first, h.first)
    ensures h.Suggest? ==> FirstWithId(p.unlockedElements, h.recipe.second, h.second)
  {
    var available := Available(rs, p);
    if |available| == 0 then AllDone
    else
      var r := available[choice];
      assert r in available;
      var e1 := FindById(p.unlockedElements, r.first);
      var e2 := FindById(p.unlockedElements, r.second);
      FindByIdFirst(p.unlockedElements, r.first);
      FindByIdFirst(p.unlockedElements, r.second);
      Suggest(r, e1.value, e2.value)
  }

  /** Every eligible recipe can be suggested: the supplied index ranges over
      exactly the eligible recipes. */
  lemma {:induction false} EveryEligibleSuggestible(p: Progress, rs: seq<Recipe>, r: Recipe)
    requires r in rs && Eligible(p, r)
    ensures exists i :: 0 <= i < |Available(rs, p)| && HintFor(p, rs, i).Suggest? && HintFor(p, rs, i).recipe == r
  {
    var available := Available(rs, p);
    var i :| 0 <= i < |available| && available[i] == r;
    assert HintFor(p, rs, i).recipe == r;
  }

  /** With unique recipe ids, no recipe appears twice among the available ones. */
  lemma {:induction false} AvailableDistinct(rs: seq<Recipe>, p: Progress)
    requires UniqueRecipeIds(rs)
    ensures forall i, j :: 0 <= i < j < |Available(rs, p)| ==> Available(rs, p)[i] != Available(rs, p)[j]
  {
    if |rs| > 0 {
      var rest := Available(rs[1..], p);
      assert UniqueRecipeIds(rs[1..]) by {
        forall i, j | 0 <= i < j < |rs[1..]| ensures rs[1..][i].id != rs[1..][j].id {
          assert rs[1..][i] == rs[i + 1] && rs[1..][j] == rs[j + 1];
        }
      }
      AvailableDistinct(rs[1..], p);
      assert rs[0] !in rs[1..];
    }
  }

  /** The hint is uniform when the random index is: with unique recipe ids,
      different indices suggest different recipes, so (with
      `EveryEligibleSuggestible`) the index picks each eligible recipe exactly once. */
  lemma SuggestionIndexUnique(p: Progress, rs: seq<Recipe>, i: nat, j: nat)
    requires UniqueRecipeIds(rs)
    requires i < |Available(rs, p)| && j < |Available(rs, p)|
    requires HintFor(p, rs, i).recipe == HintFor(p, rs, j).recipe
    ensures i == j
  {
    AvailableDistinct(rs, p);
  }
}
