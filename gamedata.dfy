/** Reference data of the mosaic game: element cards, recipes and the catalogue
    that holds them, with the id lookups every other module relies on. */
module GameData {

  datatype Option<+T> = None | Some(value: T)

  type ElementId = string
  type RecipeId = string

  /** An element card. `isBase` is true on the copies seeded at a fresh game. */
  datatype Element = Element(id: ElementId, name: string, icon: string, isBase: bool)

  /** A recipe: the two element ids it combines, in catalogue order
      (`elements[0]` and `elements[1]`), the painting it produces and the
      element it may unlock. */
  datatype Recipe = Recipe(
    id: RecipeId,
    first: ElementId,
    second: ElementId,
    unlocks: Option<ElementId>,
    name: string,
    author: string)

  /** The static data the game is loaded with. */
  datatype Catalog = Catalog(
    baseElements: seq<Element>,
    unlockableElements: seq<Element>,
    recipes: seq<Recipe>)

  /** JavaScript truthiness of an optional id: a missing id and the empty
      string are false; every other string (the "null" sentinel included) is true. */
  predicate Truthy(id: Option<ElementId>)
  {
    id.Some? && id.value != ""
  }

  predicate HasId(es: seq<Element>, id: ElementId)
  {
    exists i :: 0 <= i < |es| && es[i].id == id
  }

  predicate UniqueIds(es: seq<Element>)
  {
    forall i, j :: 0 <= i < j < |es| ==> es[i].id != es[j].id
  }

  predicate UniqueRecipeIds(rs: seq<Recipe>)
  {
    forall i, j :: 0 <= i < j < |rs| ==> rs[i].id != rs[j].id
  }

  /** What the game needs of its data: base element ids and recipe ids unique. */
  predicate WellFormed(c: Catalog)
  {
    UniqueIds(c.baseElements) && UniqueRecipeIds(c.recipes)
  }

  /** `es.find(el => el.id === id)`. */
  function FindById(es: seq<Element>, id: ElementId): (r: Option<Element>)
    ensures r.None? <==> !HasId(es, id)
    ensures r.Some? ==> r.value in es && r.value.id == id
  {
    if |es| == 0 then None
    else if es[0].id == id then Some(es[0])
    else
      var r := FindById(es[1..], id);
      assert HasId(es, id) ==> HasId(es[1..], id) by {
        if HasId(es, id) {
          var i :| 0 <= i < |es| && es[i].id == id;
          assert es[1..][i - 1].id == id;
        }
      }
      r
  }

  /** `e` is the first element of `es` that carries `id`. */
  ghost predicate FirstWithId(es: seq<Element>, id: ElementId, e: Element)
  {
    exists i :: 0 <= i < |es| && es[i] == e && e.id == id && !HasId(es[..i], id)
  }

  /** At most one element is the first to carry an id. */
  lemma FirstWithIdDetermined(es: seq<Element>, id: ElementId, e1: Element, e2: Element)
    requires FirstWithId(es, id, e1) && FirstWithId(es, id, e2)
    ensures e1 == e2
  {
    var i :| 0 <= i < |es| && es[i] == e1 && e1.id == id && !HasId(es[..i], id);
    var j :| 0 <= j < |es| && es[j] == e2 && e2.id == id && !HasId(es[..j], id);
    assert i == j;
  }

  /** `find` returns the first element carrying the id. */
  lemma {:induction false} FindByIdFirst(es: seq<Element>, id: ElementId)
    requires FindById(es, id).Some?
    ensures FirstWithId(es, id, FindById(es, id).value)
  {
    if es[0].id == id {
      assert es[0] == FindById(es, id).value && !HasId(es[..0], id);
    } else {
      FindByIdFirst(es[1..], id);
      var i :| 0 <= i < |es[1..]| && es[1..][i] == FindById(es[1..], id).value && !HasId(es[1..][..i], id);
      assert es[..i + 1] == [es[0]] + es[1..][..i];
      assert es[i + 1] == FindById(es, id).value;
    }
  }
}
