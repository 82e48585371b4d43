/** Progression: the saved part of the game state, the three outcomes of a
    combination attempt, the update `createPainting` performs, and the
    invariant that the whole game keeps. */
module Progression {
  import opened GameData
  import opened Lookup

  /** The persisted part of the game state: what `saveGameState` writes. */
  datatype Progress = Progress(unlockedElements: seq<Element>, createdPaintings: seq<RecipeId>)

  /** The three results of a combination attempt. */
  datatype Outcome = AlreadyCreated(recipe: Recipe) | Created(recipe: Recipe) | NoMatch

  /** `initBaseElements`: the base elements, each flagged as base. */
  function InitBaseElements(base: seq<Element>): (r: seq<Element>)
    ensures |r| == |base|
    ensures forall i :: 0 <= i < |base| ==>
              r[i].id == base[i].id && r[i].name == base[i].name && r[i].icon == base[i].icon && r[i].isBase
  {
    seq(|base|, i requires 0 <= i < |base| => base[i].(isBase := true))
  }

  /** The state a game starts from: `loadGameState` followed by the empty
      check of `initGame`. With no saved data, or saved data with no
      unlocked elements, the unlocked elements become the base elements. */
  function Restore(c: Catalog, saved: Option<Progress>): (p: Progress)
    ensures saved.Some? ==> p.createdPaintings == saved.value.createdPaintings
    ensures saved.None? ==> p.createdPaintings == []
    ensures |p.unlockedElements| > 0 || |c.baseElements| == 0
  {
    var loaded := if saved.Some? then saved.value
                  else Progress(InitBaseElements(c.baseElements), []);
    if |loaded.unlockedElements| == 0
    then loaded.(unlockedElements := InitBaseElements(c.baseElements))
    else loaded
  }

  /** The unlock step of `createPainting`: the target is appended only when the
      recipe names one, the catalogue has it and no unlocked element carries its id. */
  function Unlock(unlocked: seq<Element>, unlockable: seq<Element>, unlocks: Option<ElementId>): (r: seq<Element>)
    ensures |r| == |unlocked| || |r| == |unlocked| + 1
    ensures r[..|unlocked|] == unlocked
    ensures |r| == |unlocked| + 1 <==>
              Truthy(unlocks) && HasId(unlockable, unlocks.value) && !HasId(unlocked, unlocks.value)
    ensures |r| == |unlocked| + 1 ==>
              r[|unlocked|] in unlockable && r[|unlocked|].id == unlocks.value
    ensures |r| == |unlocked| + 1 ==> FirstWithId(unlockable, unlocks.value, r[|unlocked|])
    ensures Truthy(unlocks) && HasId(unlockable, unlocks.value) ==> HasId(r, unlocks.value)
  {
    if Truthy(unlocks) then
      var newElement := FindById(unlockable, unlocks.value);
      if newElement.Some? && FindById(unlocked, newElement.value.id).None? then
        var r := unlocked + [newElement.value];
        assert r[|unlocked|].id == unlocks.value;
        FindByIdFirst(unlockable, unlocks.value);
        r
      else unlocked
    else unlocked
  }

  /** An unlock never introduces a second element with an id already unlocked. */
  lemma UnlockKeepsIdsUnique(unlocked: seq<Element>, unlockable: seq<Element>, unlocks: Option<ElementId>)
    requires UniqueIds(unlocked)
    ensures UniqueIds(Unlock(unlocked, unlockable, unlocks))
  {
  }

  /** `createPainting(recipe)`: the recipe id is appended to the created
      paintings, then its target is unlocked. */
  function ApplyCreate(p: Progress, c: Catalog, recipe: Recipe): (q: Progress)
    ensures |q.createdPaintings| == |p.createdPaintings| + 1
    ensures q.createdPaintings[..|p.createdPaintings|] == p.createdPaintings
    ensures q.createdPaintings[|p.createdPaintings|] == recipe.id
    ensures |p.unlockedElements| <= |q.unlockedElements|
    ensures q.unlockedElements[..|p.unlockedElements|] == p.unlockedElements
  {
    Progress(Unlock(p.unlockedElements, c.unlockableElements, recipe.unlocks),
             p.createdPaintings + [recipe.id])
  }

  /** Which of the three outcomes a pair of element ids leads to. */
  function Resolve(p: Progress, c: Catalog, a: ElementId, b: ElementId): (o: Outcome)
    ensures o.NoMatch? <==> forall i :: 0 <= i < |c.recipes| ==> !Matches(c.recipes[i], a, b)
    ensures !o.NoMatch? ==> o.recipe in c.recipes && Matches(o.recipe, a, b)
    ensures !o.NoMatch? ==> (o.AlreadyCreated? <==> o.recipe.id in p.createdPaintings)
  {
    match FindRecipe(c.recipes, a, b)
    case None => NoMatch
    case Some(recipe) =>
      if recipe.id in p.createdPaintings then AlreadyCreated(recipe) else Created(recipe)
  }

  /** The progress after the attempt: only a `Created` outcome changes it. */
  function Advance(p: Progress, c: Catalog, a: ElementId, b: ElementId): (q: Progress)
    ensures !Resolve(p, c, a, b).Created? ==> q == p
    ensures Resolve(p, c, a, b).Created? ==> q == ApplyCreate(p, c, Resolve(p, c, a, b).recipe)
  {
    match Resolve(p, c, a, b)
    case Created(recipe) => ApplyCreate(p, c, recipe)
    case _ => p
  }

  /** Order independence of the whole attempt: outcome and new progress are
      the same for (a, b) and (b, a). */
  lemma ResolveOrderIndependent(p: Progress, c: Catalog, a: ElementId, b: ElementId)
    ensures Resolve(p, c, a, b) == Resolve(p, c, b, a)
    ensures Advance(p, c, a, b) == Advance(p, c, b, a)
  {
    FindRecipeOrderIndependent(c.recipes, a, b);
  }

  /** Repeating a pair that just created its painting finds it already
      created and changes nothing: no second painting entry, no second unlock. */
  lemma ResolveTwice(p: Progress, c: Catalog, a: ElementId, b: ElementId)
    requires Resolve(p, c, a, b).Created?
    ensures Resolve(Advance(p, c, a, b), c, a, b) == AlreadyCreated(Resolve(p, c, a, b).recipe)
    ensures Advance(Advance(p, c, a, b), c, a, b) == Advance(p, c, a, b)
  {
  }

  predicate NoDuplicates(s: seq<RecipeId>)
  {
    forall i, j :: 0 <= i < j < |s| ==> s[i] != s[j]
  }

  /** `e` is the copy of a catalogue element that some created recipe unlocks. */
  ghost predicate UnlockedBy(c: Catalog, created: seq<RecipeId>, e: Element)
  {
    e in c.unlockableElements &&
    exists r :: r in c.recipes && r.id in created && r.unlocks == Some(e.id)
  }

  /** The recipe names an unlock target that the catalogue holds. */
  predicate HasTarget(c: Catalog, r: Recipe)
  {
    Truthy(r.unlocks) && HasId(c.unlockableElements, r.unlocks.value)
  }

  /** The game's invariant over its progress:
      - unlocked element ids and created painting ids are unique;
      - every base element (flagged as base) stays unlocked;
      - every unlocked element is a base element or was unlocked by a created recipe;
      - every created recipe's target is unlocked;
      - every created painting is a recipe of the catalogue. */
  ghost predicate Consistent(p: Progress, c: Catalog)
  {
    && UniqueIds(p.unlockedElements)
    && NoDuplicates(p.createdPaintings)
    && (forall e :: e in InitBaseElements(c.baseElements) ==> e in p.unlockedElements)
    && (forall i :: 0 <= i < |p.unlockedElements| ==>
          p.unlockedElements[i] in InitBaseElements(c.baseElements)
          || UnlockedBy(c, p.createdPaintings, p.unlockedElements[i]))
    && (forall r :: r in c.recipes && r.id in p.createdPaintings && HasTarget(c, r) ==>
          HasId(p.unlockedElements, r.unlocks.value))
    && (forall k :: 0 <= k < |p.createdPaintings| ==>
          exists r :: r in c.recipes && r.id == p.createdPaintings[k])
  }

  /** A fresh game starts consistent. */
  lemma FreshGameConsistent(c: Catalog)
    requires WellFormed(c)
    ensures Consistent(Restore(c, None), c)
  {
  }

  /** A fresh game has exactly the base elements, each flagged as base, and no paintings. */
  lemma FreshGameIsBase(c: Catalog)
    ensures Restore(c, None).unlockedElements == InitBaseElements(c.baseElements)
    ensures Restore(c, None).createdPaintings == []
    ensures forall e :: e in Restore(c, None).unlockedElements ==> e.isBase
  {
  }

  /** Save then load: a snapshot with at least one unlocked element (every
      consistent snapshot of a catalogue with base elements) comes back
      unchanged; the selection is not part of it and the loader resets it. */
  lemma SaveLoadRoundTrip(c: Catalog, p: Progress)
    requires |p.unlockedElements| > 0 || |c.baseElements| == 0
    ensures Restore(c, Some(p)) == p
  {
  }

  /** A snapshot saved with no unlocked element comes back with the base
      elements, while its created paintings are kept. */
  lemma LoadEmptySnapshot(c: Catalog, p: Progress)
    requires |p.unlockedElements| == 0
    ensures Restore(c, Some(p)) == Progress(InitBaseElements(c.baseElements), p.createdPaintings)
  {
  }

  /** Every outcome keeps the invariant. */
  lemma AdvanceConsistent(p: Progress, c: Catalog, a: ElementId, b: ElementId)
    requires WellFormed(c) && Consistent(p, c)
    ensures Consistent(Advance(p, c, a, b), c)
  {
    var o := Resolve(p, c, a, b);
    if o.Created? {
      CreateConsistent(p, c, o.recipe);
    }
  }

  /** Creating a catalogue recipe that is not yet created keeps every clause
      of the invariant; one helper lemma per clause. */
  lemma CreateConsistent(p: Progress, c: Catalog, recipe: Recipe)
    requires WellFormed(c) && Consistent(p, c)
    requires recipe in c.recipes && recipe.id !in p.createdPaintings
    ensures Consistent(ApplyCreate(p, c, recipe), c)
  {
    var q := ApplyCreate(p, c, recipe);
    UnlockKeepsIdsUnique(p.unlockedElements, c.unlockableElements, recipe.unlocks);
    CreateKeepsPaintingsUnique(p, c, recipe);
    CreateKeepsUnlocked(p, c, recipe);
    CreateAccountsForUnlocked(p, c, recipe);
    CreateUnlocksTargets(p, c, recipe);
    CreateNamesRecipes(p, c, recipe);
  }

  lemma CreateKeepsPaintingsUnique(p: Progress, c: Catalog, recipe: Recipe)
    requires NoDuplicates(p.createdPaintings) && recipe.id !in p.createdPaintings
    ensures NoDuplicates(ApplyCreate(p, c, recipe).createdPaintings)
  {
    var q := ApplyCreate(p, c, recipe).createdPaintings;
    var m := |p.createdPaintings|;
    forall i, j | 0 <= i < j < |q| ensures q[i] != q[j] {
      if j == m {
        assert q[i] == p.createdPaintings[i];
      } else {
        assert q[i] == p.createdPaintings[i] && q[j] == p.createdPaintings[j];
      }
    }
  }

  lemma CreateKeepsUnlocked(p: Progress, c: Catalog, recipe: Recipe)
    ensures forall e :: e in p.unlockedElements ==> e in ApplyCreate(p, c, recipe).unlockedElements
    ensures forall id :: HasId(p.unlockedElements, id) ==> HasId(ApplyCreate(p, c, recipe).unlockedElements, id)
  {
    var q := ApplyCreate(p, c, recipe).unlockedElements;
    var n := |p.unlockedElements|;
    forall e | e in p.unlockedElements ensures e in q {
      var i :| 0 <= i < n && p.unlockedElements[i] == e;
      assert q[i] == e;
    }
    forall id | HasId(p.unlockedElements, id) ensures HasId(q, id) {
      var i :| 0 <= i < n && p.unlockedElements[i].id == id;
      assert q[i].id == id;
    }
  }

  lemma CreateAccountsForUnlocked(p: Progress, c: Catalog, recipe: Recipe)
    requires recipe in c.recipes
    requires forall i :: 0 <= i < |p.unlockedElements| ==>
               p.unlockedElements[i] in InitBaseElements(c.baseElements)
               || UnlockedBy(c, p.createdPaintings, p.unlockedElements[i])
    ensures var q := ApplyCreate(p, c, recipe);
            forall i :: 0 <= i < |q.unlockedElements| ==>
              q.unlockedElements[i] in InitBaseElements(c.baseElements)
              || UnlockedBy(c, q.createdPaintings, q.unlockedElements[i])
  {
    var q := ApplyCreate(p, c, recipe);
    var n, m := |p.unlockedElements|, |p.createdPaintings|;
    forall i | 0 <= i < |q.unlockedElements|
      ensures q.unlockedElements[i] in InitBaseElements(c.baseElements)
              || UnlockedBy(c, q.createdPaintings, q.unlockedElements[i])
    {
      if i < n {
        assert q.unlockedElements[i] == p.unlockedElements[i];
        if !(q.unlockedElements[i] in InitBaseElements(c.baseElements)) {
          var r :| r in c.recipes && r.id in p.createdPaintings && r.unlocks == Some(p.unlockedElements[i].id);
          assert r.id in q.createdPaintings;
        }
      } else {
        assert recipe.id == q.createdPaintings[m];
        assert recipe.unlocks == Some(q.unlockedElements[i].id);
      }
    }
  }

  lemma CreateUnlocksTargets(p: Progress, c: Catalog, recipe: Recipe)
    requires UniqueRecipeIds(c.recipes) && recipe in c.recipes
    requires forall r :: r in c.recipes && r.id in p.createdPaintings && HasTarget(c, r) ==>
               HasId(p.unlockedElements, r.unlocks.value)
    ensures var q := ApplyCreate(p, c, recipe);
            forall r :: r in c.recipes && r.id in q.createdPaintings && HasTarget(c, r) ==>
              HasId(q.unlockedElements, r.unlocks.value)
  {
    var q := ApplyCreate(p, c, recipe);
    var m := |p.createdPaintings|;
    CreateKeepsUnlocked(p, c, recipe);
    forall r | r in c.recipes && r.id in q.createdPaintings && HasTarget(c, r)
      ensures HasId(q.unlockedElements, r.unlocks.value)
    {
      var k :| 0 <= k < |q.createdPaintings| && q.createdPaintings[k] == r.id;
      if k < m {
        assert r.id in p.createdPaintings;
      } else {
        var i :| 0 <= i < |c.recipes| && c.recipes[i] == r;
        var j :| 0 <= j < |c.recipes| && c.recipes[j] == recipe;
        assert !(i < j) && !(j < i);
      }
    }
  }

  lemma CreateNamesRecipes(p: Progress, c: Catalog, recipe: Recipe)
    requires recipe in c.recipes
    requires forall k :: 0 <= k < |p.createdPaintings| ==>
               exists r :: r in c.recipes && r.id == p.createdPaintings[k]
    ensures var q := ApplyCreate(p, c, recipe);
            forall k :: 0 <= k < |q.createdPaintings| ==>
              exists r :: r in c.recipes && r.id == q.createdPaintings[k]
  {
    var q := ApplyCreate(p, c, recipe);
    forall k | 0 <= k < |q.createdPaintings| ensures exists r :: r in c.recipes && r.id == q.createdPaintings[k] {
      if k < |p.createdPaintings| {
        assert q.createdPaintings[k] == p.createdPaintings[k];
      } else {
        assert recipe.id == q.createdPaintings[k];
      }
    }
  }

  /** A session: the pairs the player combines, in order. */
  function Play(p: Progress, c: Catalog, pairs: seq<(ElementId, ElementId)>): (q: Progress)
    ensures |p.createdPaintings| <= |q.createdPaintings|
    ensures q.createdPaintings[..|p.createdPaintings|] == p.createdPaintings
    decreases |pairs|
  {
    if |pairs| == 0 then p
    else Play(Advance(p, c, pairs[0].0, pairs[0].1), c, pairs[1..])
  }

  /** After any sequence of attempts from a consistent state, the state is
      still consistent: all base elements present, one element per created
      recipe's target, no duplicate ids. */
  lemma {:induction false} PlayConsistent(p: Progress, c: Catalog, pairs: seq<(ElementId, ElementId)>)
    requires WellFormed(c) && Consistent(p, c)
    ensures Consistent(Play(p, c, pairs), c)
    decreases |pairs|
  {
    if |pairs| > 0 {
      AdvanceConsistent(p, c, pairs[0].0, pairs[0].1);
      PlayConsistent(Advance(p, c, pairs[0].0, pairs[0].1), c, pairs[1..]);
    }
  }
}
