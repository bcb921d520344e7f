# Recipe catalog: verified model of the recipe list bookkeeping

This project models the data side of a small browser recipe catalog. The
catalog keeps its recipes in the browser's local storage under two keys:
`"recipes"`, the saved list of recipe records, and `"activeRecipe"`, the
record last opened for viewing. Every page action first loads the list. When
the list is absent or empty, loading writes and returns a one-element list
holding a built-in "Pav Bhaji" record. The actions are:

- list the recipes, filtered by a case-insensitive title search and then by an
  exact difficulty;
- open one recipe, which copies it into the active slot;
- add a recipe built from the form, appended at the end;
- delete every record with the active recipe's id;
- edit the active recipe: the form fields are merged into it, and the result
  replaces the first record with that id.

The ingredient and step text areas are split on newlines and empty lines are
dropped (`split("\n").filter(Boolean)`). The edit form shows the lists joined
with newlines.

Layout:

- `options.dfy`, module `Options`: `Option`, for a storage slot that may be empty.
- `seqs.dfy`, module `Seqs`: `Filter`, JavaScript's `Array.prototype.filter`.
  It keeps order and is used for the search, the difficulty filter, deletion
  and `filter(Boolean)`.
- `text.dfy`, module `Text`: ASCII lower-casing, `includes`, `split("\n")`,
  `join("\n")` and the non-empty line list of a text area, with their
  round-trip lemmas.
- `recipes.dfy`, module `Recipes`: the record, the seed record, `find` and
  `findIndex` by id, the two listing filters, and the lists that add, delete
  and update save, with lemmas about them.
- `storage.dfy`, module `Storage`: class `Store` with the two slots as fields.
  Its methods are the page actions.

Storage slots hold already-parsed values. The clock readings used as ids
(`Date.now()`) are parameters: `seedId` for the seed record, `newId` for a new
record.

Behaviour a reader might expect that the code does not have, and other
details of the code that the model keeps:

- New records are appended at the end, not put first.
- Nothing is validated: no title, preparation-time or difficulty checks.
  Records carry no preparation time, category or timestamps.
- One seed record ("Pav Bhaji", difficulty "Medium") is written, not two.
  There is no backup of unreadable data and no migration from another key.
- `filter(Boolean)` drops only empty strings, so whitespace-only lines are kept
  (`Text.SplitLinesMembers`, `Text.KeepsNonEmptyLine`).
- The search is applied before the difficulty filter. The two commute
  (`Recipes.ListingOrderIrrelevant`), so this order changes nothing.
- Deleting or updating without an active recipe throws a TypeError. This
  happens inside the `filter` / `findIndex` callback, after loading (which may
  have seeded) and before saving. The methods return `ok == false` and the
  saved list is the loaded one.
- Updating when no record has the active id gives index -1. `recipes[-1] = …`
  is not part of the serialised array, so the loaded list is saved unchanged.
- Delete and update leave the active slot as it was.
- `addRecipe` reads the clock for the new id before loading. On an empty store,
  loading then reads the clock again for the seed record. Both readings can be
  equal. `Recipes.AddShadowed` shows that a new record whose id is already taken
  is never returned by `find`: the earlier record shadows it.

## Model

| member | source | states |
|---|---|---|
| `Seqs.Filter` | app.js:64-66 | the result keeps exactly the elements that pass, is no longer than the input, and holds nothing that is not in the input |
| `Seqs.FilterAppend` | app.js:64-66 | filtering distributes over concatenation, so the filter is decided element by element |
| `Seqs.FilterKeepsAll` | app.js:63-67 | a filter that every element passes returns the list unchanged |
| `Seqs.FilterIdempotent` | app.js:70-72 | applying the same filter twice equals applying it once |
| `Seqs.FilterCommute` | app.js:62-72 | two filters give the same result in either order |
| `Seqs.FilterPositions` | app.js:63-72 | the result is the order-preserving subsequence at exactly the positions whose element passes, with strictly increasing positions |
| `Text.LowerChar` | app.js:65 | the result is not an upper-case ASCII letter; upper-case letters map to their lower-case letter and other characters are unchanged |
| `Text.Lower` | app.js:65 | lower-casing keeps the length and leaves no upper-case ASCII letter |
| `Text.LowerIdempotent` | app.js:65 | lower-casing twice equals lower-casing once |
| `Text.Includes` | app.js:65 | a string that is a prefix is included, and an included string is no longer than the text; `Text.IncludesIff` gives its full meaning |
| `Text.IncludesIff` | app.js:65 | `includes` holds exactly when the second string occurs at some index of the first (both directions) |
| `Text.IncludesEmpty` | app.js:63-65 | every string includes the empty string |
| `Text.Split` | app.js:151 | `split("\n")` yields at least one piece and no piece holds a newline |
| `Text.Join` | app.js:199-200 | `join("\n")` of no lines is "", starts with the first line, and holds a newline when there are two or more lines; `Text.JoinSplit` and `Text.SplitJoin` make it the inverse of `Text.Split` |
| `Text.JoinSplit` | app.js:198-200 | joining the pieces of a split with newlines gives back the text |
| `Text.SplitJoin` | app.js:214-217 | splitting the join of one or more newline-free lines gives back those lines |
| `Text.SplitLines` | app.js:149-156 | no produced line is empty or holds a newline |
| `Text.SplitLinesMembers` | app.js:149-156 | a line is kept exactly when it is a non-empty piece of the split, first and last lines and whitespace-only lines included |
| `Text.KeepsNonEmptyLine` | app.js:152 | any non-empty, newline-free line between two newlines survives, whitespace-only lines included |
| `Text.EditRoundTrip` | app.js:198-221 | lines shown joined in the edit form and read back with split and `filter(Boolean)` are the original lines when none is empty or holds a newline |
| `Text.EditRoundTripStable` | app.js:198-221 | reading back the joined lines of any text area gives the same lines again |
| `Recipes.DefaultRecipe` | app.js:10-35 | the seed record has the given id, title "Pav Bhaji", difficulty "Medium", image "", 8 ingredients and 7 steps |
| `Recipes.Loaded` | app.js:5-42 | the loaded list is never empty, and a non-empty stored list is returned as it is |
| `Recipes.SeededList` | app.js:9-38 | an absent or empty list loads as exactly one record: the given id, title "Pav Bhaji", difficulty "Medium", image "", 8 ingredients, 7 steps |
| `Recipes.FindIndex` | app.js:224 | the result is -1 exactly when no record has the id; otherwise it is the first index whose record has the id |
| `Recipes.Find` | app.js:102 | a found record is in the list and has the id; nothing is found exactly when no record has the id |
| `Recipes.FindAtFindIndex` | app.js:102 | `find` returns the record at the index `findIndex` reports, and nothing when that index is -1 |
| `Recipes.SearchFilter` | app.js:63-67 | an empty query shows the list unchanged; a record is shown exactly when it is in the list and its lower-cased title includes the lower-cased query |
| `Recipes.SearchFilterIsFilter` | app.js:63-67 | the search, with its emptiness guard, equals the plain title filter, so it is an order-preserving subsequence |
| `Recipes.DifficultyFilter` | app.js:70-72 | an empty value shows the list unchanged; otherwise every shown record has exactly that difficulty and every stored record with it is shown |
| `Recipes.DifficultyFilterInOrder` | app.js:70-72 | with a difficulty selected, the result is the order-preserving subsequence at exactly the positions whose record has that difficulty |
| `Recipes.DifficultyFilterIdempotent` | app.js:70-72 | filtering by the same difficulty twice equals filtering once |
| `Recipes.Listing` | app.js:62-72 | with neither filter set the whole list is shown; every shown record is stored, and has the selected difficulty when one is selected; `Recipes.ListingMembers` gives the exact membership |
| `Recipes.ListingOrderIrrelevant` | app.js:62-72 | search then difficulty gives the same list as difficulty then search |
| `Recipes.ListingMembers` | app.js:62-72 | a record is listed exactly when it is stored, its title matches the query and its difficulty is the selected one or none is selected |
| `Recipes.NewRecipe` | app.js:146-166 | the new record has the given id, title, description and difficulty, image "", and the split non-empty lines of the two text areas as ingredients and steps |
| `Recipes.AddThenFind` | app.js:158-169 | after appending a record with an unused id, looking that id up finds the new record |
| `Recipes.AddShadowed` | app.js:159-169 | after appending a record whose id is already used, looking that id up finds what it found before |
| `Recipes.WithoutId` | app.js:181 | no kept record has the id, every record with another id is kept, and nothing else is |
| `Recipes.WithoutIdInOrder` | app.js:181 | the kept records are the order-preserving subsequence at exactly the positions whose record has another id |
| `Recipes.WithoutIdLength` | app.js:181 | deletion shortens the list by exactly the number of records with that id |
| `Recipes.DeleteThenFind` | app.js:181 | after deletion, looking the id up finds nothing |
| `Recipes.Merge` | app.js:209-222 | the edited record keeps the active record's id and image and takes the form's title, description, difficulty and split ingredient and step lines |
| `Recipes.UnchangedEditKeepsRecord` | app.js:191-222 | submitting the edit form as `loadEditForm` filled it in gives back the active record, when its lines are non-empty and newline-free |
| `Recipes.Replaced` | app.js:224-225 | the length is unchanged; only the first record with the id is replaced; with no such record the list is unchanged |
| `Recipes.UpdateThenFind` | app.js:224-225 | after an update that keeps the id, looking the id up finds the updated record |
| `Storage.Store.LoadRecipes` | app.js:5-42 | an absent or empty slot is written with the one seed record and that list is returned; otherwise the stored list is returned and the slot is not written |
| `Storage.Store.SaveRecipes` | app.js:48-50 | the slot holds the given list |
| `Storage.Store.DisplayRecipes` | app.js:56-72 | the shown records are the loaded list after the search and then the difficulty filter; with neither set, the whole loaded list in order |
| `Storage.Store.ViewRecipe` | app.js:100-106 | the active slot holds the first loaded record with the id; with none it keeps its old value |
| `Storage.Store.AddRecipe` | app.js:143-170 | the saved list is the loaded list, unchanged and in place, followed by exactly one new record |
| `Storage.Store.DeleteRecipe` | app.js:179-183 | with an active recipe, the saved list drops every record with its id, keeps the others in order, and shrinks by their count; without one, the source throws and only the seeding of the load is saved |
| `Storage.Store.UpdateRecipe` | app.js:203-227 | with an active recipe, the saved list is the loaded list with the first record of the active id replaced by the merged record, or unchanged if none matches; without one, the source throws and only the seeding of the load is saved |

## Left out

- DOM rendering is not modelled: the cards, the "No recipes found." message, and the detail page `loadRecipeDetail`, which only displays the active slot. The form fields are method parameters.
- Page navigation (`window.location.href`) and the `DOMContentLoaded` and event-listener wiring are not modelled. They decide only when the actions run.
- JSON parsing and serialisation are not modelled. The slots hold already-parsed, well-formed values, so a parse failure or a stored value that is not a list cannot occur.
- Clock readings (`Date.now()`) are parameters (`seedId`, `newId`), not values the model computes.
- Records are the seven fields the catalog writes. Extra fields that a stored record might carry, and that the spread merge would copy, are not represented.
- Text.LowerChar: lower-cases ASCII letters only; JavaScript's `toLowerCase` also maps other Unicode letters.
- Text.Lower: inherits the ASCII-only restriction of `Text.LowerChar`.
