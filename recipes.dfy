/**
 * The recipe record and the pure list operations of the recipe catalog:
 * the built-in seed record, `find` / `findIndex` by id, the search and
 * difficulty filters of the listing page, and the list transformations
 * performed by add, delete and update.
 */
module Recipes {
  import opened Options
  import opened Seqs
  import opened Text

  /** One stored recipe, with the fields the catalog writes. */
  datatype Recipe = Recipe(
    id: string,
    title: string,
    description: string,
    image: string,
    difficulty: string,
    ingredients: seq<string>,
    steps: seq<string>)

  /** The record written to an empty store; `id` is the clock reading at the time. */
  function DefaultRecipe(id: string): (r: Recipe)
    ensures r.id == id && r.title == "Pav Bhaji" && r.difficulty == "Medium" && r.image == ""
    ensures |r.ingredients| == 8 && |r.steps| == 7
  {
    Recipe(
      id,
      "Pav Bhaji",
      "A spicy, buttery Mumbai street-food dish made with mashed vegetables.",
      "",
      "Medium",
      [ "2 cups mixed vegetables (potato, cauliflower, peas)",
        "2 onions (finely chopped)",
        "2 tomatoes (chopped)",
        "1 capsicum (chopped)",
        "2 tbsp pav bhaji masala",
        "Butter as needed",
        "Salt to taste",
        "Pav buns" ],
      [ "Boil potatoes, peas, and cauliflower until soft.",
        "Heat butter on tawa and sauté onions until golden.",
        "Add tomatoes and capsicum, cook until soft.",
        "Add pav bhaji masala and salt.",
        "Add boiled vegetables & mash everything well.",
        "Cook until smooth and buttery.",
        "Serve hot with buttered pav." ])
  }

  /** The stored list is absent or empty: the case in which loading seeds the store. */
  predicate NeedsSeed(stored: Option<seq<Recipe>>)
  {
    stored.None? || stored.value == []
  }

  /** The list loading returns: the stored list, or the one seed record when there is none. */
  function Loaded(stored: Option<seq<Recipe>>, seedId: string): (rs: seq<Recipe>)
    ensures rs != []
    ensures !NeedsSeed(stored) ==> rs == stored.value
  {
    if NeedsSeed(stored) then [DefaultRecipe(seedId)] else stored.value
  }

  /** Loading an absent or empty list yields exactly the Pav Bhaji record, with no image. */
  lemma SeededList(stored: Option<seq<Recipe>>, seedId: string)
    requires NeedsSeed(stored)
    ensures |Loaded(stored, seedId)| == 1
    ensures var r := Loaded(stored, seedId)[0];
      r.id == seedId && r.title == "Pav Bhaji" && r.difficulty == "Medium" && r.image == ""
      && |r.ingredients| == 8 && |r.steps| == 7
  {
  }

  /** `recipes.findIndex(r => r.id === id)`: the first index holding `id`, or -1. */
  function FindIndex(rs: seq<Recipe>, id: string): (i: int)
    ensures -1 <= i < |rs|
    ensures i == -1 <==> forall j :: 0 <= j < |rs| ==> rs[j].id != id
    ensures 0 <= i ==> rs[i].id == id && forall j :: 0 <= j < i ==> rs[j].id != id
  {
    if rs == [] then -1
    else if rs[0].id == id then 0
    else
      var i := FindIndex(rs[1..], id);
      if i == -1 then -1 else i + 1
  }

  /** `recipes.find(r => r.id === id)`: the first record holding `id`, if any. */
  function Find(rs: seq<Recipe>, id: string): (found: Option<Recipe>)
    ensures found.Some? ==> found.value in rs && found.value.id == id
    ensures found.None? <==> forall j :: 0 <= j < |rs| ==> rs[j].id != id
  {
    if rs == [] then None
    else if rs[0].id == id then Some(rs[0])
    else Find(rs[1..], id)
  }

  /** `find` returns the element at the index `findIndex` reports. */
  lemma {:induction false} FindAtFindIndex(rs: seq<Recipe>, id: string)
    ensures Find(rs, id) == if FindIndex(rs, id) == -1 then None else Some(rs[FindIndex(rs, id)])
  {
    if rs != [] && rs[0].id != id {
      FindAtFindIndex(rs[1..], id);
    }
  }

  /** The search predicate: the lower-cased title includes the lower-cased query. */
  function TitleMatches(query: string): Recipe -> bool
  {
    (r: Recipe) => Includes(Lower(r.title), Lower(query))
  }

  /** The search step of the listing: skipped for an empty query. */
  function SearchFilter(rs: seq<Recipe>, query: string): (shown: seq<Recipe>)
    ensures query == "" ==> shown == rs
    ensures forall i :: 0 <= i < |shown| ==> shown[i] in rs && Includes(Lower(shown[i].title), Lower(query))
    ensures forall i :: 0 <= i < |rs| && Includes(Lower(rs[i].title), Lower(query)) ==> rs[i] in shown
  {
    if query != "" then Filter(rs, TitleMatches(query)) else rs
  }

  /**
   * The emptiness guard in front of the search is redundant: an empty query is
   * included in every title, so the search is always the plain title filter,
   * and therefore an order-preserving subsequence (`Seqs.FilterPositions`).
   */
  lemma {:induction false} SearchFilterIsFilter(rs: seq<Recipe>, query: string)
    ensures SearchFilter(rs, query) == Filter(rs, TitleMatches(query))
  {
    if query == "" {
      forall i | 0 <= i < |rs| ensures TitleMatches(query)(rs[i]) {
        IncludesEmpty(Lower(rs[i].title));
      }
      FilterKeepsAll(rs, TitleMatches(query));
    }
  }

  /** The difficulty predicate: exact equality with the selected value. */
  function HasDifficulty(difficulty: string): Recipe -> bool
  {
    (r: Recipe) => r.difficulty == difficulty
  }

  /** The difficulty step of the listing: skipped when no difficulty is selected. */
  function DifficultyFilter(rs: seq<Recipe>, difficulty: string): (shown: seq<Recipe>)
    ensures difficulty == "" ==> shown == rs
    ensures difficulty != "" ==> forall i :: 0 <= i < |shown| ==> shown[i].difficulty == difficulty
    ensures forall i :: 0 <= i < |shown| ==> shown[i] in rs
    ensures forall i :: 0 <= i < |rs| && (difficulty == "" || rs[i].difficulty == difficulty) ==> rs[i] in shown
  {
    if difficulty != "" then Filter(rs, HasDifficulty(difficulty)) else rs
  }

  /**
   * A selected difficulty shows the order-preserving subsequence of the list
   * at exactly the positions whose record has that difficulty.
   */
  lemma DifficultyFilterInOrder(rs: seq<Recipe>, difficulty: string) returns (pos: seq<nat>)
    requires difficulty != ""
    ensures Picks(rs, DifficultyFilter(rs, difficulty), pos)
    ensures forall i :: 0 <= i < |rs| ==> (rs[i].difficulty == difficulty <==> i in pos)
  {
    pos := FilterPositions(rs, HasDifficulty(difficulty));
  }

  /** Selecting the same difficulty twice shows what selecting it once shows. */
  lemma DifficultyFilterIdempotent(rs: seq<Recipe>, difficulty: string)
    ensures DifficultyFilter(DifficultyFilter(rs, difficulty), difficulty) == DifficultyFilter(rs, difficulty)
  {
    if difficulty != "" {
      FilterIdempotent(rs, HasDifficulty(difficulty));
    }
  }

  /** What the listing page shows: search first, then difficulty. */
  function Listing(rs: seq<Recipe>, query: string, difficulty: string): (shown: seq<Recipe>)
    ensures query == "" && difficulty == "" ==> shown == rs
    ensures forall i :: 0 <= i < |shown| ==> shown[i] in rs
    ensures difficulty != "" ==> forall i :: 0 <= i < |shown| ==> shown[i].difficulty == difficulty
  {
    DifficultyFilter(SearchFilter(rs, query), difficulty)
  }

  /** Applying the difficulty filter before the search would show the same list. */
  lemma ListingOrderIrrelevant(rs: seq<Recipe>, query: string, difficulty: string)
    ensures Listing(rs, query, difficulty) == SearchFilter(DifficultyFilter(rs, difficulty), query)
  {
    if query != "" && difficulty != "" {
      FilterCommute(rs, TitleMatches(query), HasDifficulty(difficulty));
    }
  }

  /** A record is listed exactly when it is stored, its title matches and its difficulty is selected. */
  lemma {:induction false} ListingMembers(rs: seq<Recipe>, query: string, difficulty: string, r: Recipe)
    ensures r in Listing(rs, query, difficulty) <==>
      r in rs && Includes(Lower(r.title), Lower(query)) && (difficulty == "" || r.difficulty == difficulty)
  {
    var searched := SearchFilter(rs, query);
    if r in rs && Includes(Lower(r.title), Lower(query)) {
      var i :| 0 <= i < |rs| && rs[i] == r;
      assert r in searched;
    }
    if r in Listing(rs, query, difficulty) {
      var i :| 0 <= i < |Listing(rs, query, difficulty)| && Listing(rs, query, difficulty)[i] == r;
      assert r in searched;
      var j :| 0 <= j < |searched| && searched[j] == r;
    }
  }

  /** The record `addRecipe` builds from the form: the id is the clock reading, no image. */
  function NewRecipe(
    id: string, title: string, description: string, difficulty: string,
    ingredientsText: string, stepsText: string): (r: Recipe)
    ensures r.id == id && r.image == ""
    ensures r.title == title && r.description == description && r.difficulty == difficulty
    ensures r.ingredients == SplitLines(ingredientsText) && r.steps == SplitLines(stepsText)
    ensures forall i :: 0 <= i < |r.ingredients| ==> r.ingredients[i] != "" && NewLine !in r.ingredients[i]
    ensures forall i :: 0 <= i < |r.steps| ==> r.steps[i] != "" && NewLine !in r.steps[i]
  {
    Recipe(id, title, description, "", difficulty, SplitLines(ingredientsText), SplitLines(stepsText))
  }

  /** After appending a record whose id is new, looking that id up finds the new record. */
  lemma AddThenFind(rs: seq<Recipe>, n: Recipe)
    requires forall j :: 0 <= j < |rs| ==> rs[j].id != n.id
    ensures Find(rs + [n], n.id) == Some(n)
  {
    var all := rs + [n];
    var found := Find(all, n.id);
    assert all[|rs|].id == n.id;
    var k :| 0 <= k < |all| && all[k] == found.value;
  }

  /** If the id is already taken, the appended record is shadowed by the earlier one. */
  lemma {:induction false} AddShadowed(rs: seq<Recipe>, n: Recipe)
    requires exists j :: 0 <= j < |rs| && rs[j].id == n.id
    ensures Find(rs + [n], n.id) == Find(rs, n.id)
  {
    assert rs != [];
    assert (rs + [n])[1..] == rs[1..] + [n];
    if rs[0].id != n.id {
      AddShadowed(rs[1..], n);
    }
  }

  /** The predicate `deleteRecipe` filters by: a record whose id differs. */
  function OtherId(id: string): Recipe -> bool
  {
    (r: Recipe) => r.id != id
  }

  /** The list `deleteRecipe` saves: every record whose id is not `id`. */
  function WithoutId(rs: seq<Recipe>, id: string): (kept: seq<Recipe>)
    ensures forall i :: 0 <= i < |kept| ==> kept[i].id != id && kept[i] in rs
    ensures forall i :: 0 <= i < |rs| && rs[i].id != id ==> rs[i] in kept
  {
    Filter(rs, OtherId(id))
  }

  /**
   * Deletion keeps the order-preserving subsequence of the list at exactly the
   * positions whose record has another id.
   */
  lemma WithoutIdInOrder(rs: seq<Recipe>, id: string) returns (pos: seq<nat>)
    ensures Picks(rs, WithoutId(rs, id), pos)
    ensures forall i :: 0 <= i < |rs| ==> (rs[i].id != id <==> i in pos)
  {
    pos := FilterPositions(rs, OtherId(id));
  }

  /** The number of records holding `id`. */
  function CountId(rs: seq<Recipe>, id: string): nat
  {
    if rs == [] then 0 else (if rs[0].id == id then 1 else 0) + CountId(rs[1..], id)
  }

  /** Deleting shortens the list by exactly the number of records with that id. */
  lemma {:induction false} WithoutIdLength(rs: seq<Recipe>, id: string)
    ensures |WithoutId(rs, id)| == |rs| - CountId(rs, id)
  {
    if rs != [] {
      WithoutIdLength(rs[1..], id);
    }
  }

  /** After a delete, looking the id up finds nothing. */
  lemma DeleteThenFind(rs: seq<Recipe>, id: string)
    ensures Find(WithoutId(rs, id), id) == None
  {
  }

  /**
   * `{...active, title, description, difficulty, ingredients, steps}`: the
   * edited record keeps the active record's id and image.
   */
  function Merge(
    active: Recipe, title: string, description: string, difficulty: string,
    ingredientsText: string, stepsText: string): (r: Recipe)
    ensures r.id == active.id && r.image == active.image
    ensures r.title == title && r.description == description && r.difficulty == difficulty
    ensures r.ingredients == SplitLines(ingredientsText) && r.steps == SplitLines(stepsText)
  {
    active.(title := title, description := description, difficulty := difficulty,
            ingredients := SplitLines(ingredientsText), steps := SplitLines(stepsText))
  }

  /**
   * Submitting the edit form exactly as `loadEditForm` filled it in gives back
   * the active record, when its lines are non-empty and newline-free.
   */
  lemma UnchangedEditKeepsRecord(active: Recipe)
    requires forall i :: 0 <= i < |active.ingredients| ==> active.ingredients[i] != "" && NewLine !in active.ingredients[i]
    requires forall i :: 0 <= i < |active.steps| ==> active.steps[i] != "" && NewLine !in active.steps[i]
    ensures Merge(active, active.title, active.description, active.difficulty,
                  Join(active.ingredients), Join(active.steps)) == active
  {
    EditRoundTrip(active.ingredients);
    EditRoundTrip(active.steps);
  }

  /**
   * `recipes[recipes.findIndex(r => r.id === id)] = updated`, as saved: the
   * first record with `id` is replaced; with no such record the index is -1,
   * which names no element, and the saved list is the loaded one.
   */
  function Replaced(rs: seq<Recipe>, id: string, updated: Recipe): (saved: seq<Recipe>)
    ensures |saved| == |rs|
    ensures (forall j :: 0 <= j < |rs| ==> rs[j].id != id) ==> saved == rs
    ensures forall j :: 0 <= j < |rs| && j != FindIndex(rs, id) ==> saved[j] == rs[j]
    ensures FindIndex(rs, id) >= 0 ==> saved[FindIndex(rs, id)] == updated
  {
    var i := FindIndex(rs, id);
    if i == -1 then rs else rs[i := updated]
  }

  /** After an update that keeps the id, looking the id up finds the updated record. */
  lemma UpdateThenFind(rs: seq<Recipe>, id: string, updated: Recipe)
    requires exists j :: 0 <= j < |rs| && rs[j].id == id
    requires updated.id == id
    ensures Find(Replaced(rs, id, updated), id) == Some(updated)
  {
    var saved := Replaced(rs, id, updated);
    var i := FindIndex(rs, id);
    FindAtFindIndex(saved, id);
    assert FindIndex(saved, id) == i;
  }
}
