/** Recipe lookup: an unordered pair of element ids is turned into a recipe by
    sorting both the pair and each recipe's two elements and taking the first
    recipe whose sorted pair is equal. Both selection protocols use this. */
module Lookup {
  import opened GameData

  /** The order `Array.prototype.sort` gives strings when it has no
      comparator, written as lexicographic order on characters:
      `Below(a, b)` means a sorts no later than b. */
  predicate Below(a: string, b: string)
  {
    |a| == 0 || (|b| > 0 && (a[0] < b[0] || (a[0] == b[0] && Below(a[1..], b[1..]))))
  }

  lemma {:induction false} BelowTotal(a: string, b: string)
    ensures Below(a, b) || Below(b, a)
  {
    if |a| > 0 && |b| > 0 && a[0] == b[0] {
      BelowTotal(a[1..], b[1..]);
    }
  }

  lemma {:induction false} BelowAntisymmetric(a: string, b: string)
    requires Below(a, b) && Below(b, a)
    ensures a == b
  {
    if |a| > 0 && |b| > 0 {
      BelowAntisymmetric(a[1..], b[1..]);
      assert a == [a[0]] + a[1..] && b == [b[0]] + b[1..];
    }
  }

  /** `[x, y].sort()`: the same two ids, in ascending order. */
  function SortPair(x: ElementId, y: ElementId): (r: (ElementId, ElementId))
    ensures Below(r.0, r.1)
    ensures (r.0 == x && r.1 == y) || (r.0 == y && r.1 == x)
  {
    if Below(x, y) then (x, y) else BelowTotal(x, y); (y, x)
  }

  /** Sorting forgets the order the two ids came in. */
  lemma SortPairSymmetric(x: ElementId, y: ElementId)
    ensures SortPair(x, y) == SortPair(y, x)
  {
    if Below(x, y) && Below(y, x) {
      BelowAntisymmetric(x, y);
    }
  }

  /** The lookup predicate: the recipe's sorted elements equal the sorted pair. */
  predicate Matches(r: Recipe, a: ElementId, b: ElementId)
  {
    SortPair(r.first, r.second) == SortPair(a, b)
  }

  /** Comparing sorted pairs is exactly comparing unordered pairs: a recipe
      matches (a, b) when it lists a and b in either order. */
  lemma MatchesUnordered(r: Recipe, a: ElementId, b: ElementId)
    ensures Matches(r, a, b) <==> (r.first == a && r.second == b) || (r.first == b && r.second == a)
  {
    SortPairSymmetric(a, b);
  }

  /** `recipes.find(...)` with the lookup predicate: the first matching recipe. */
  function FindRecipe(rs: seq<Recipe>, a: ElementId, b: ElementId): (r: Option<Recipe>)
    ensures r.Some? ==> r.value in rs && Matches(r.value, a, b)
    ensures r.None? <==> forall i :: 0 <= i < |rs| ==> !Matches(rs[i], a, b)
  {
    if |rs| == 0 then None
    else if Matches(rs[0], a, b) then Some(rs[0])
    else
      var r := FindRecipe(rs[1..], a, b);
      assert forall i :: 1 <= i < |rs| ==> rs[i] == rs[1..][i - 1];
      r
  }

  /** `find` returns the earliest match: every recipe before it fails to match. */
  lemma {:induction false} FindRecipeFirst(rs: seq<Recipe>, a: ElementId, b: ElementId)
    requires FindRecipe(rs, a, b).Some?
    ensures exists i :: 0 <= i < |rs| && rs[i] == FindRecipe(rs, a, b).value
                        && forall j :: 0 <= j < i ==> !Matches(rs[j], a, b)
  {
    if !Matches(rs[0], a, b) {
      FindRecipeFirst(rs[1..], a, b);
      var i :| 0 <= i < |rs[1..]| && rs[1..][i] == FindRecipe(rs[1..], a, b).value
               && forall j :: 0 <= j < i ==> !Matches(rs[1..][j], a, b);
      assert rs[i + 1] == FindRecipe(rs, a, b).value;
      assert forall j :: 1 <= j < i + 1 ==> rs[j] == rs[1..][j - 1];
    } else {
      assert rs[0] == FindRecipe(rs, a, b).value;
    }
  }

  /** Order independence: the lookup gives the same recipe for (a, b) and (b, a). */
  lemma {:induction false} FindRecipeOrderIndependent(rs: seq<Recipe>, a: ElementId, b: ElementId)
    ensures FindRecipe(rs, a, b) == FindRecipe(rs, b, a)
  {
    SortPairSymmetric(a, b);
    if |rs| > 0 {
      FindRecipeOrderIndependent(rs[1..], a, b);
    }
  }
}
