/** A worked example: two base elements, Water and Earth, and one recipe,
    Genesis, that combines them and unlocks Fire. */
module Scenarios {
  import opened GameData
  import opened Lookup
  import opened Progression
  import opened Hints

  const water := Element("water", "Water", "~", false)
  const earth := Element("earth", "Earth", "#", false)
  const fire := Element("fire", "Fire", "^", false)
  const genesis := Recipe("genesis", "water", "earth", Some("fire"), "Genesis", "Anonymous")
  const world := Catalog([water, earth], [fire], [genesis])

  /** From a fresh game: Water + Earth creates Genesis and unlocks Fire;
      the same pair again (in either order) is already created and changes
      nothing; Water + Fire matches nothing; after that the hint has
      nothing left to suggest. */
  lemma {:induction false} GenesisScenario()
    ensures Restore(world, None) == Progress([water.(isBase := true), earth.(isBase := true)], [])
    ensures Resolve(Restore(world, None), world, "water", "earth") == Created(genesis)
    ensures Advance(Restore(world, None), world, "water", "earth")
            == Progress([water.(isBase := true), earth.(isBase := true), fire], ["genesis"])
    ensures Resolve(Advance(Restore(world, None), world, "water", "earth"), world, "earth", "water")
            == AlreadyCreated(genesis)
    ensures Resolve(Advance(Restore(world, None), world, "water", "earth"), world, "water", "fire") == NoMatch
    ensures HintFor(Advance(Restore(world, None), world, "water", "earth"), world.recipes, 0) == AllDone
  {
  }
}
