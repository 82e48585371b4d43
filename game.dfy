/** The shared game state and the handlers that update it in place: the
    two-slot protocol (click, drop, combine button, clear), the two-tap
    protocol, and `createPainting`. Every combination attempt goes through
    `Resolve`/`Advance` from the Progression module. */
module Game {
  import opened GameData
  import opened Lookup
  import opened Progression

  class GameState {
    const catalog: Catalog
    var unlockedElements: seq<Element>
    var createdPaintings: seq<RecipeId>
    var slot1: Option<Element>
    var slot2: Option<Element>
    /** The pending element of the two-tap protocol. */
    var selectedElement: Option<Element>

    /** The game's invariant, over the saved part of the state. */
    ghost predicate Valid()
      reads this
    {
      Consistent(Snapshot(), catalog)
    }

    /** The projection `saveGameState` writes. */
    function Snapshot(): (p: Progress)
      reads this
      ensures p.unlockedElements == unlockedElements && p.createdPaintings == createdPaintings
    {
      Progress(unlockedElements, createdPaintings)
    }

    /** `loadGameState` then the empty check of `initGame`: saved progress is
        restored (or the base elements seeded) and both slots and the
        selection start empty. */
    constructor (catalog: Catalog, saved: Option<Progress>)
      ensures this.catalog == catalog
      ensures Snapshot() == Restore(catalog, saved)
      ensures slot1 == None && slot2 == None && selectedElement == None
      ensures WellFormed(catalog) && saved.None? ==> Valid()
      ensures WellFormed(catalog) && saved.Some? && Consistent(saved.value, catalog) ==> Valid()
    {
      this.catalog := catalog;
      unlockedElements := [];
      createdPaintings := [];
      slot1, slot2, selectedElement := None, None, None;
      new;
      if saved.Some? {
        unlockedElements := saved.value.unlockedElements;
        createdPaintings := saved.value.createdPaintings;
        slot1, slot2 := None, None;
      } else {
        unlockedElements := InitBaseElements(catalog.baseElements);
      }
      if |unlockedElements| == 0 {
        unlockedElements := InitBaseElements(catalog.baseElements);
      }
      if WellFormed(catalog) {
        if saved.None? {
          FreshGameConsistent(catalog);
        } else if Consistent(saved.value, catalog) && |catalog.baseElements| > 0 {
          assert InitBaseElements(catalog.baseElements)[0] in saved.value.unlockedElements;
          SaveLoadRoundTrip(catalog, saved.value);
        }
      }
    }

    /** `createPainting(recipe)`: append the recipe id, then unlock its
        target if the catalogue has it and it is not unlocked yet. */
    method CreatePainting(recipe: Recipe)
      modifies this
      ensures Snapshot() == ApplyCreate(old(Snapshot()), catalog, recipe)
      ensures slot1 == old(slot1) && slot2 == old(slot2) && selectedElement == old(selectedElement)
    {
      createdPaintings := createdPaintings + [recipe.id];
      if Truthy(recipe.unlocks) {
        var newElement := FindById(catalog.unlockableElements, recipe.unlocks.value);
        if newElement.Some? && FindById(unlockedElements, newElement.value.id).None? {
          unlockedElements := unlockedElements + [newElement.value];
        }
      }
    }

    /** The combine button (`tryCreatePainting`). With a slot empty it does
        nothing and reports `None`. Otherwise the pair is resolved; on a
        match (created now or before) both slots are cleared, on no match
        they are kept for a suggestion. */
    method TryCreatePainting() returns (o: Option<Outcome>)
      modifies this
      ensures old(slot1).None? || old(slot2).None? ==>
                o.None? && Snapshot() == old(Snapshot()) && slot1 == old(slot1) && slot2 == old(slot2)
      ensures old(slot1).Some? && old(slot2).Some? ==>
                && o == Some(Resolve(old(Snapshot()), catalog, old(slot1).value.id, old(slot2).value.id))
                && Snapshot() == Advance(old(Snapshot()), catalog, old(slot1).value.id, old(slot2).value.id)
                && (if o.value.NoMatch? then slot1 == old(slot1) && slot2 == old(slot2)
                    else slot1.None? && slot2.None?)
      ensures selectedElement == old(selectedElement)
      ensures WellFormed(catalog) && old(Valid()) ==> Valid()
    {
      if slot1.None? || slot2.None? {
        return None;
      }
      var a, b := slot1.value.id, slot2.value.id;
      ghost var before := Snapshot();
      var recipe := FindRecipe(catalog.recipes, a, b);
      if recipe.Some? {
        if recipe.value.id in createdPaintings {
          o := Some(AlreadyCreated(recipe.value));
        } else {
          CreatePainting(recipe.value);
          o := Some(Created(recipe.value));
        }
        ClearSlots();
      } else {
        o := Some(NoMatch);
      }
      if WellFormed(catalog) && Consistent(before, catalog) {
        AdvanceConsistent(before, catalog, a, b);
      }
    }

    /** `tryMobileCombine(element1, element2)`: resolve the pair; on no match
        keep the two elements in the slots for a suggestion; always clear
        the selection afterwards. */
    method TryMobileCombine(element1: Element, element2: Element) returns (o: Outcome)
      modifies this
      ensures o == Resolve(old(Snapshot()), catalog, element1.id, element2.id)
      ensures Snapshot() == Advance(old(Snapshot()), catalog, element1.id, element2.id)
      ensures o.NoMatch? ==> slot1 == Some(element1) && slot2 == Some(element2)
      ensures !o.NoMatch? ==> slot1 == old(slot1) && slot2 == old(slot2)
      ensures selectedElement == None
      ensures WellFormed(catalog) && old(Valid()) ==> Valid()
    {
      ghost var before := Snapshot();
      var recipe := FindRecipe(catalog.recipes, element1.id, element2.id);
      if recipe.Some? {
        if recipe.value.id in createdPaintings {
          o := AlreadyCreated(recipe.value);
        } else {
          CreatePainting(recipe.value);
          o := Created(recipe.value);
        }
      } else {
        o := NoMatch;
        slot1 := Some(element1);
        slot2 := Some(element2);
      }
      if WellFormed(catalog) && Consistent(before, catalog) {
        AdvanceConsistent(before, catalog, element1.id, element2.id);
      }
      ClearSelection();
    }

    /** A tap in the two-tap protocol (`handleMobileElementClick`). The
        first tap selects; a tap on the selected element's id deselects; a
        tap on another element resolves the pair and reports the outcome. */
    method HandleMobileElementClick(element: Element) returns (o: Option<Outcome>)
      modifies this
      ensures old(selectedElement).None? ==>
                && o.None? && selectedElement == Some(element)
                && Snapshot() == old(Snapshot()) && slot1 == old(slot1) && slot2 == old(slot2)
      ensures old(selectedElement).Some? && old(selectedElement).value.id == element.id ==>
                && o.None? && selectedElement == None
                && Snapshot() == old(Snapshot()) && slot1 == old(slot1) && slot2 == old(slot2)
      ensures old(selectedElement).Some? && old(selectedElement).value.id != element.id ==>
                && o == Some(Resolve(old(Snapshot()), catalog, old(selectedElement).value.id, element.id))
                && Snapshot() == Advance(old(Snapshot()), catalog, old(selectedElement).value.id, element.id)
                && selectedElement == None
                && (if o.value.NoMatch? then slot1 == old(selectedElement) && slot2 == Some(element)
                    else slot1 == old(slot1) && slot2 == old(slot2))
      ensures WellFormed(catalog) && old(Valid()) ==> Valid()
    {
      if selectedElement.None? {
        selectedElement := Some(element);
        o := None;
      } else if selectedElement.value.id == element.id {
        ClearSelection();
        o := None;
      } else {
        var outcome := TryMobileCombine(selectedElement.value, element);
        o := Some(outcome);
      }
    }

    /** A click in the two-slot protocol (`handleDesktopElementClick`): fill
        slot 1 first, then slot 2; with both filled, nothing changes. The
        same element may go into both slots. */
    method HandleDesktopElementClick(element: Element)
      modifies this
      ensures old(slot1).None? ==> slot1 == Some(element) && slot2 == old(slot2)
      ensures old(slot1).Some? && old(slot2).None? ==> slot1 == old(slot1) && slot2 == Some(element)
      ensures old(slot1).Some? && old(slot2).Some? ==> slot1 == old(slot1) && slot2 == old(slot2)
      ensures Snapshot() == old(Snapshot()) && selectedElement == old(selectedElement)
    {
      if slot1.None? {
        slot1 := Some(element);
      } else if slot2.None? {
        slot2 := Some(element);
      }
    }

    /** The slot assignment of `handleDrop`: the dropped id is looked up among
        the unlocked elements; the first element carrying it goes into slot 1 when the target
        is slot 1 and into slot 2 for any other slot number. An id that is
        not unlocked changes nothing. */
    method HandleDrop(elementId: ElementId, slotNumber: int)
      modifies this
      ensures !HasId(unlockedElements, elementId) ==> slot1 == old(slot1) && slot2 == old(slot2)
      ensures HasId(unlockedElements, elementId) && slotNumber == 1 ==>
                slot1.Some? && FirstWithId(unlockedElements, elementId, slot1.value) && slot2 == old(slot2)
      ensures HasId(unlockedElements, elementId) && slotNumber != 1 ==>
                slot2.Some? && FirstWithId(unlockedElements, elementId, slot2.value) && slot1 == old(slot1)
      ensures Snapshot() == old(Snapshot()) && selectedElement == old(selectedElement)
    {
      var element := FindById(unlockedElements, elementId);
      if element.Some? {
        FindByIdFirst(unlockedElements, elementId);
        if slotNumber == 1 {
          slot1 := element;
        } else {
          slot2 := element;
        }
      }
    }

    /** `clearSlots`: both slots empty, nothing else changes. */
    method ClearSlots()
      modifies this
      ensures slot1 == None && slot2 == None
      ensures Snapshot() == old(Snapshot()) && selectedElement == old(selectedElement)
    {
      slot1 := None;
      slot2 := None;
    }

    /** `clearSlot(n)`: slot 1 for n == 1, slot 2 for any other number. */
    method ClearSlot(slotNumber: int)
      modifies this
      ensures slotNumber == 1 ==> slot1 == None && slot2 == old(slot2)
      ensures slotNumber != 1 ==> slot1 == old(slot1) && slot2 == None
      ensures Snapshot() == old(Snapshot()) && selectedElement == old(selectedElement)
    {
      if slotNumber == 1 {
        slot1 := None;
      } else {
        slot2 := None;
      }
    }

    /** The state part of `clearSelection`. */
    method ClearSelection()
      modifies this
      ensures selectedElement == None
      ensures Snapshot() == old(Snapshot()) && slot1 == old(slot1) && slot2 == old(slot2)
    {
      selectedElement := None;
    }
  }
}
