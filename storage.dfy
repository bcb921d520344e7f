/**
 * The catalog's page actions over browser local storage. Only two slots of
 * the storage are used, "recipes" and "activeRecipe"; each slot holds an
 * already-parsed value or nothing. Every action first loads the list, which
 * seeds an absent or empty list with the Pav Bhaji record; the clock readings
 * the source takes for ids are passed in as `seedId` and `newId`.
 */
module Storage {
  import opened Options
  import opened Seqs
  import opened Recipes

  class Store {
    /** The "recipes" slot: the saved list, if any. */
    var recipes: Option<seq<Recipe>>
    /** The "activeRecipe" slot: the record last opened for viewing, if any. */
    var activeRecipe: Option<Recipe>

    constructor (recipes: Option<seq<Recipe>>, activeRecipe: Option<Recipe>)
      ensures this.recipes == recipes && this.activeRecipe == activeRecipe
    {
      this.recipes := recipes;
      this.activeRecipe := activeRecipe;
    }

    /**
     * `loadRecipes`: an absent or empty list is replaced, in storage and in the
     * result, by the one seed record; any other list is returned and not written.
     */
    method LoadRecipes(seedId: string) returns (rs: seq<Recipe>)
      modifies this`recipes
      ensures rs == Loaded(old(recipes), seedId) && recipes == Some(rs)
      ensures NeedsSeed(old(recipes)) ==> rs == [DefaultRecipe(seedId)]
      ensures !NeedsSeed(old(recipes)) ==> recipes == old(recipes)
    {
      if recipes.None? || recipes.value == [] {
        var defaultRecipe := DefaultRecipe(seedId);
        recipes := Some([defaultRecipe]);
        rs := [defaultRecipe];
      } else {
        rs := recipes.value;
      }
    }

    /** `saveRecipes`: the list becomes the content of the "recipes" slot. */
    method SaveRecipes(rs: seq<Recipe>)
      modifies this`recipes
      ensures recipes == Some(rs)
    {
      recipes := Some(rs);
    }

    /**
     * The data side of `displayRecipes`: the records whose cards are shown,
     * after the search and then the difficulty filter.
     */
    method DisplayRecipes(searchText: string, filterValue: string, seedId: string)
      returns (shown: seq<Recipe>)
      modifies this`recipes
      ensures recipes == Some(Loaded(old(recipes), seedId))
      ensures shown == Listing(Loaded(old(recipes), seedId), searchText, filterValue)
      ensures searchText == "" && filterValue == "" ==> shown == Loaded(old(recipes), seedId)
    {
      var rs := LoadRecipes(seedId);
      rs := SearchFilter(rs, searchText);
      rs := DifficultyFilter(rs, filterValue);
      shown := rs;
    }

    /**
     * `viewRecipe`: the first record with `id` becomes the active recipe; with
     * no such record the active slot keeps its value.
     */
    method ViewRecipe(id: string, seedId: string)
      modifies this
      ensures recipes == Some(Loaded(old(recipes), seedId))
      ensures var i := FindIndex(Loaded(old(recipes), seedId), id);
        activeRecipe == if i == -1 then old(activeRecipe) else Some(Loaded(old(recipes), seedId)[i])
    {
      var rs := LoadRecipes(seedId);
      var recipe := Find(rs, id);
      FindAtFindIndex(rs, id);
      if recipe.None? {
        return;
      }
      activeRecipe := recipe;
    }

    /**
     * `addRecipe`: a record built from the form, with the clock reading `newId`
     * as id and no image, is appended at the end of the loaded list.
     */
    method AddRecipe(
      newId: string, title: string, description: string, difficulty: string,
      ingredientsText: string, stepsText: string, seedId: string)
      modifies this`recipes
      ensures var before := Loaded(old(recipes), seedId);
        && recipes.Some?
        && |recipes.value| == |before| + 1
        && recipes.value[..|before|] == before
        && recipes.value[|before|] == NewRecipe(newId, title, description, difficulty, ingredientsText, stepsText)
    {
      var newRecipe := NewRecipe(newId, title, description, difficulty, ingredientsText, stepsText);
      var rs := LoadRecipes(seedId);
      rs := rs + [newRecipe];
      SaveRecipes(rs);
    }

    /**
     * `deleteRecipe`: every record with the active recipe's id is dropped and
     * the rest saved in order. Without an active recipe the source throws a
     * TypeError in the filter callback after loading: `ok` is false and only
     * the load's seeding has happened. The active slot is not cleared.
     */
    method DeleteRecipe(seedId: string) returns (ok: bool)
      modifies this`recipes
      ensures ok == old(activeRecipe).Some?
      ensures !ok ==> recipes == Some(Loaded(old(recipes), seedId))
      ensures ok ==> recipes == Some(WithoutId(Loaded(old(recipes), seedId), activeRecipe.value.id))
      ensures ok ==> |recipes.value| == |Loaded(old(recipes), seedId)| - CountId(Loaded(old(recipes), seedId), activeRecipe.value.id)
      ensures activeRecipe == old(activeRecipe)
    {
      var recipe := activeRecipe;
      var rs := LoadRecipes(seedId);
      if recipe.None? {
        ok := false;
        return;
      }
      WithoutIdLength(rs, recipe.value.id);
      rs := WithoutId(rs, recipe.value.id);
      SaveRecipes(rs);
      ok := true;
    }

    /**
     * `updateRecipe`: the active record merged with the form's fields replaces
     * the first record with the active id. When no record has that id,
     * `findIndex` gives -1, the assignment to index -1 is not part of the
     * saved JSON array, and the loaded list is saved unchanged. Without an
     * active recipe the source throws in the `findIndex` callback after loading:
     * `ok` is false and only the load's seeding has happened.
     */
    method UpdateRecipe(
      title: string, description: string, difficulty: string,
      ingredientsText: string, stepsText: string, seedId: string) returns (ok: bool)
      modifies this`recipes
      ensures ok == old(activeRecipe).Some?
      ensures !ok ==> recipes == Some(Loaded(old(recipes), seedId))
      ensures ok ==> recipes == Some(Replaced(Loaded(old(recipes), seedId), activeRecipe.value.id,
        Merge(activeRecipe.value, title, description, difficulty, ingredientsText, stepsText)))
      ensures activeRecipe == old(activeRecipe)
    {
      var recipe := activeRecipe;
      var rs := LoadRecipes(seedId);
      if recipe.None? {
        ok := false;
        return;
      }
      var updatedRecipe := Merge(recipe.value, title, description, difficulty, ingredientsText, stepsText);
      var index := FindIndex(rs, recipe.value.id);
      if index >= 0 {
        rs := rs[index := updatedRecipe];
      }
      SaveRecipes(rs);
      ok := true;
    }
  }
}
