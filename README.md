# Mosaic of Great Paintings — combination engine, in Dafny

The game lets a player combine two unlocked elements. A pair that matches a
recipe creates a painting and may unlock a new element. This project models
the part of `game.js` that decides what a combination does and how the
progress changes:

- **Recipe lookup** (`Lookup`). The pair of ids and each recipe's two
  elements are sorted, and the first recipe whose sorted pair is equal wins.
  The lookup is defined once, as `FindRecipe`. Both selection protocols
  call it. The lemmas prove it is order-independent and that sorted-pair
  equality is exactly unordered-pair equality.
- **Resolution and creation** (`Progression`). `Resolve` gives one of three
  outcomes: `AlreadyCreated`, `Created` or `NoMatch`. `Advance` gives the
  progress after the attempt, and `ApplyCreate` is the update that
  `createPainting` makes. `Consistent` is the game's invariant:
  - unlocked element ids are unique, and so are created painting ids;
  - every base element stays unlocked;
  - each non-base element was unlocked by a created recipe;
  - each created recipe's target is unlocked;
  - each created painting names a catalogue recipe.

  Every attempt keeps this invariant (`AdvanceConsistent`), and so does any
  session of attempts (`PlayConsistent`). A fresh game starts with it.
- **Game state and selection** (`Game.GameState`). This class holds the
  fields the handlers change in place: `unlockedElements`,
  `createdPaintings`, `slot1`, `slot2` and `selectedElement`. It has the
  two-slot protocol (click, drop, combine button, clear) and the two-tap
  protocol (select, deselect, combine). The three methods that resolve a
  pair (`TryCreatePainting`, `TryMobileCombine`, `HandleMobileElementClick`)
  tie the new state to `Resolve`/`Advance` of the old state and keep
  `Valid()`. `CreatePainting` ties it to `ApplyCreate`. The click, drop
  and clear methods state the new slots or selection directly.
- **Hints** (`Hints`). `Available` returns the recipes that are not created
  yet and whose elements are all unlocked. `HintFor` returns `AllDone`
  exactly when `Available` is empty. Otherwise it suggests the recipe at
  the index the caller supplies, together with the two unlocked element
  cards. With unique recipe ids each eligible recipe sits at exactly one
  index, so a uniform index gives a uniform hint.
- **A worked example** (`Scenarios`). Water + Earth creates Genesis and
  unlocks Fire. The same pair again is already created, and Water + Fire
  matches nothing.

Two checks one might expect of such an engine are not in `game.js`, and the
model does not assume them:

- There is no check that rejects a selection before lookup. An id that is
  not unlocked, or the same element in both slots, goes straight to the
  lookup. The sorted pair may then be `[a, a]`.
- Two recipes with the same pair are not rejected. The lookup takes the
  first one.

## Model

| member | source | states |
|---|---|---|
| `GameData.FindById` | game.js:394-395 | the id lookup of `find`: it returns an element with that id from the sequence, and nothing exactly when no element has that id |
| `GameData.FirstWithIdDetermined` | game.js:394 | at most one element is the first to carry a given id, so "the first element with the id" names one element |
| `GameData.FindByIdFirst` | game.js:394 | the element found is the first one in the sequence that carries the id |
| `Lookup.BelowTotal` | game.js:368 | any two ids are ordered one way or the other by `Below`, a total string order on characters (see Left out) |
| `Lookup.BelowAntisymmetric` | game.js:368 | two ids each ordered before the other are equal |
| `Lookup.SortPair` | game.js:368 | `[x, y].sort()` holds the same two ids, in ascending order |
| `Lookup.SortPairSymmetric` | game.js:368 | sorting the pair forgets the order its ids came in |
| `Lookup.MatchesUnordered` | game.js:371-374 | a recipe matches (a, b) exactly when it lists a and b in either order |
| `Lookup.FindRecipe` | game.js:371-374 | the lookup returns a catalogue recipe that matches the pair, and nothing exactly when no recipe matches |
| `Lookup.FindRecipeFirst` | game.js:371-374 | the returned recipe is the first matching one: every recipe before it fails to match |
| `Lookup.FindRecipeOrderIndependent` | game.js:368-374 | the lookup gives the same result for (a, b) and (b, a) |
| `Progression.InitBaseElements` | game.js:155-158 | the seeded elements are the base elements, in order, with the same id, name and icon, each with `isBase` true |
| `Progression.Restore` | game.js:161-175 | loading keeps the saved created paintings (none for a fresh game) and leaves at least one unlocked element whenever base elements exist |
| `Progression.FreshGameIsBase` | game.js:172-173 | a fresh game has exactly the base elements, all flagged as base, and no paintings |
| `Progression.FreshGameConsistent` | game.js:172-173 | a fresh game over well-formed data satisfies the game's invariant |
| `Progression.SaveLoadRoundTrip` | game.js:161-184 | loading a saved snapshot that has unlocked elements gives back the same unlocked elements and created paintings |
| `Progression.LoadEmptySnapshot` | game.js:191-193 | a snapshot saved with no unlocked element is loaded with the base elements and its created paintings kept |
| `Progression.Unlock` | game.js:393-397 | one element is appended exactly when the unlock id is truthy, the catalogue has it and no unlocked element has it; the appended element is the first catalogue element carrying the id; earlier entries are untouched; afterwards the target is unlocked |
| `Progression.UnlockKeepsIdsUnique` | game.js:395-396 | unlocking never creates a second element with an unlocked id |
| `Progression.ApplyCreate` | game.js:389-398 | creation appends exactly the recipe id at the end of the created paintings, leaves the earlier entries as they were, and only appends to the unlocked elements |
| `Progression.Resolve` | game.js:376-385 | the outcome is `NoMatch` exactly when no recipe matches the pair; otherwise it carries a matching catalogue recipe and is `AlreadyCreated` exactly when that recipe id is already created |
| `Progression.Advance` | game.js:376-385 | only a `Created` outcome changes the progress, and then by `ApplyCreate`; `AlreadyCreated` and `NoMatch` leave both sequences unchanged |
| `Progression.ResolveOrderIndependent` | game.js:368-374 | outcome and new progress are the same for (a, b) and (b, a) |
| `Progression.ResolveTwice` | game.js:377-378 | right after a pair creates its painting, the same pair is `AlreadyCreated` and changes nothing: no second painting entry, no second unlock |
| `Progression.CreateConsistent` | game.js:389-398 | creating a catalogue recipe that is not yet created keeps the game's invariant |
| `Progression.CreateKeepsPaintingsUnique` | game.js:390 | appending a recipe id that is not yet created keeps the created paintings free of duplicates |
| `Progression.CreateKeepsUnlocked` | game.js:393-397 | creation loses no unlocked element and no unlocked id |
| `Progression.CreateAccountsForUnlocked` | game.js:389-398 | after creation every unlocked element is a base element or the target of a created recipe |
| `Progression.CreateUnlocksTargets` | game.js:393-397 | with unique recipe ids, after creation every created recipe whose target the catalogue holds has that target unlocked |
| `Progression.CreateNamesRecipes` | game.js:390 | after creating a catalogue recipe every created painting id names a catalogue recipe |
| `Progression.AdvanceConsistent` | game.js:376-385 | every combination attempt keeps the game's invariant |
| `Progression.Play` | game.js:362-386 | a session of attempts only appends to the created paintings |
| `Progression.PlayConsistent` | game.js:362-386 | after any sequence of attempts from a consistent state, the state is still consistent |
| `Hints.Available` | game.js:646-651 | the available recipes are exactly the catalogue recipes that are not created yet and whose two elements are both unlocked, each as many times as the catalogue lists it |
| `Hints.HintFor` | game.js:653-662 | the hint is "all done" exactly when no recipe is available; otherwise it suggests the available recipe at the chosen index, with the first unlocked element carrying each of its two ids as the cards |
| `Hints.EveryEligibleSuggestible` | game.js:658 | each available recipe is suggested for some index in the range the random pick draws from |
| `Hints.AvailableDistinct` | game.js:646-651 | with unique recipe ids, no recipe appears twice among the available ones |
| `Hints.SuggestionIndexUnique` | game.js:658 | with unique recipe ids, two indices that suggest the same recipe are equal, so the index picks each eligible recipe exactly once |
| `Game.GameState.Snapshot` | game.js:178-182 | the saved snapshot holds exactly the unlocked elements and the created paintings |
| `Game.GameState.constructor` | game.js:161-193 | the state is the restored or seeded progress with empty slots and selection; it satisfies the invariant for a fresh game, or for a consistent saved snapshot |
| `Game.GameState.CreatePainting` | game.js:389-405 | the progress becomes `ApplyCreate` of the old progress; slots and selection are untouched |
| `Game.GameState.TryCreatePainting` | game.js:362-386 | with a slot empty, nothing changes; otherwise the outcome and the new progress are those of the pair in the slots, both slots are cleared on a match and kept on no match, and the invariant is kept |
| `Game.GameState.TryMobileCombine` | game.js:76-97 | the outcome and the new progress are those of the pair; on no match the pair is stored in the slots, and on a match the slots are untouched; the selection is always cleared; the invariant is kept |
| `Game.GameState.HandleMobileElementClick` | game.js:261-274 | with nothing selected, a tap selects the element; a tap on the selected id clears the selection; any other tap resolves the selected element with the tapped one |
| `Game.GameState.HandleDesktopElementClick` | game.js:277-285 | a click fills slot 1 first, then slot 2, and changes nothing when both are filled |
| `Game.GameState.HandleDrop` | game.js:310-321 | a dropped id that is unlocked puts the first unlocked element carrying it into slot 1 for slot number 1 and into slot 2 otherwise; an id that is not unlocked changes nothing |
| `Game.GameState.ClearSlots` | game.js:335-339 | both slots become empty and nothing else changes |
| `Game.GameState.ClearSlot` | game.js:350-359 | slot 1 is emptied for number 1, slot 2 for any other number, and nothing else changes |
| `Game.GameState.ClearSelection` | game.js:53-54 | the selection becomes empty and nothing else changes |
| `Scenarios.GenesisScenario` | game.js:362-405 | Water + Earth creates Genesis and unlocks Fire; the same pair in either order is then already created; Water + Fire matches nothing; the hint is then "all done" |

## Left out

- Rendering is not modelled: `renderElements`, `renderGallery`, `updateStats`, modals, toasts, the selection bar, highlighting, `createPaintingCard` and the `setTimeout` animations only produce presentation. The messages that `tryCreatePainting` and `tryMobileCombine` show are the returned outcome (`None` when a slot is empty).
- Drag-event plumbing (`dataTransfer`, CSS classes) and the device check `isMobileOrTouch` are not modelled. Both protocols are exposed, and the caller picks one. `HandleDrop` takes the dropped id and the parsed slot number as parameters.
- `localStorage` and JSON parsing are not modelled. Saved data is an `Option<Progress>` parameter. Saved data with fields missing or extra, or with a `selectedElement` in it, is not modelled. The `saveGameState` call after a creation is represented only by the `Snapshot` projection.
- `Math.random` in the hint is not modelled. The chosen index is a parameter in the range of the available recipes.
- The suggestion mailto form and the guide link's URL are not modelled. They build strings for the browser and keep no state.
- Recipe fields that are only displayed (year, description, questions, image) are left out. `name` and `author` are kept but not used.
- A recipe has exactly two elements (`first`, `second`). A recipe listing more or fewer element ids is not modelled.
- `Lookup.Below` orders strings by Unicode scalar values. JavaScript's `sort()` compares UTF-16 code units, so the two can differ when ids contain characters outside the Basic Multilingual Plane. Only equality of sorted pairs matters for matching, and that is the same under both orders.
- `unlocks` is an optional id, and JavaScript truthiness is modelled by `Truthy`. The `'null'` sentinel string is an ordinary id that the catalogue does not hold, so it unlocks nothing, as in the code.
- Values have no identity here. JavaScript slots hold references to element objects, and `createPainting` pushes a copy (`{ ...newElement }`). The model stores element values, so aliasing between slots and the unlocked list is not represented.
- Well-formed catalogue data (unique base ids and unique recipe ids) is a hypothesis of the invariant lemmas. The code does not check it at load time.
- A loaded snapshot is not validated. `Valid()` is proved after loading only for a consistent snapshot or a fresh game. A snapshot with no unlocked elements but created paintings is reloaded with the base elements only (`LoadEmptySnapshot`), which loses its unlocks.
- Progression.SaveLoadRoundTrip: requires the snapshot to have an unlocked element (or the catalogue to have no base elements). A snapshot with an empty unlocked list is reseeded by `initGame` (see `LoadEmptySnapshot`).
