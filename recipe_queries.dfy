/**
 * The read-only views of the catalogue: the ingredient search of the view
 * model, the list the recipes screen shows, and the favourites screen's
 * sorted list.
 */
module RecipeQueries {
  import opened Common
  import opened Models
  import opened Text
  import opened Seqs

  // ---------------------------------------------------------------------
  // searchRecipes(byIngredients:)

  /** Some ingredient line of the recipe contains `term`, ignoring case. */
  predicate HasIngredient(recipe: Recipe, term: string) {
    exists i :: 0 <= i < |recipe.ingredients| && ContainsIgnoringCase(recipe.ingredients[i], term)
  }

  /** Every term of the query is found among the recipe's ingredient lines. */
  predicate MatchesIngredients(recipe: Recipe, terms: seq<string>) {
    forall j :: 0 <= j < |terms| ==> HasIngredient(recipe, terms[j])
  }

  /**
   * The recipes, in catalogue order, that match every term of the query.
   * An empty query matches every recipe.
   */
  function SearchRecipes(recipes: seq<Recipe>, terms: seq<string>): (r: seq<Recipe>)
    ensures forall k :: 0 <= k < |r| ==> r[k] in recipes && MatchesIngredients(r[k], terms)
    ensures forall k :: 0 <= k < |recipes| && MatchesIngredients(recipes[k], terms) ==> recipes[k] in r
    ensures terms == [] ==> r == recipes
    ensures multiset(r) <= multiset(recipes)
  {
    var matches := (recipe: Recipe) => MatchesIngredients(recipe, terms);
    if terms == [] then
      FilterKeepsAll(recipes, matches);
      Filter(recipes, matches)
    else
      Filter(recipes, matches)
  }

  /** The search keeps catalogue order: it distributes over a split of the catalogue. */
  lemma SearchRecipesAppend(a: seq<Recipe>, b: seq<Recipe>, terms: seq<string>)
    ensures SearchRecipes(a + b, terms) == SearchRecipes(a, terms) + SearchRecipes(b, terms)
  {
    FilterAppend(a, b, (recipe: Recipe) => MatchesIngredients(recipe, terms));
  }

  /** Adding a term can only narrow the result: it is the old result searched again for the new term. */
  lemma SearchRecipesNarrows(recipes: seq<Recipe>, terms: seq<string>, term: string)
    ensures SearchRecipes(recipes, terms + [term]) == SearchRecipes(SearchRecipes(recipes, terms), [term])
  {
    var all := (recipe: Recipe) => MatchesIngredients(recipe, terms + [term]);
    var earlier := (recipe: Recipe) => MatchesIngredients(recipe, terms);
    var extra := (recipe: Recipe) => MatchesIngredients(recipe, [term]);
    forall k | 0 <= k < |recipes|
      ensures all(recipes[k]) == (earlier(recipes[k]) && extra(recipes[k]))
    {
      var t := terms + [term];
      assert forall j :: 0 <= j < |terms| ==> t[j] == terms[j];
      assert t[|terms|] == term;
    }
    FilterFilter(recipes, earlier, extra, all);
  }

  // ---------------------------------------------------------------------
  // RecipesView.filteredRecipes

  /** The recipe is in the selected category, or no category is selected. */
  predicate InCategory(recipe: Recipe, selectedCategory: Option<string>) {
    selectedCategory.None? || recipe.category == selectedCategory.value
  }

  /** The title contains the search text, ignoring case, or there is no search text. */
  predicate TitleMatches(recipe: Recipe, searchText: string) {
    searchText == [] || ContainsIgnoringCase(recipe.title, searchText)
  }

  /**
   * The list the recipes screen shows: narrowed by category, then by title,
   * and replaced outright by the ingredient search as soon as the user has
   * entered any ingredient.
   */
  function FilteredRecipes(recipes: seq<Recipe>, selectedCategory: Option<string>, searchText: string,
                           ingredientSearch: seq<string>): (r: seq<Recipe>)
    ensures forall k :: 0 <= k < |r| ==> r[k] in recipes
    ensures ingredientSearch == [] ==>
      forall k :: 0 <= k < |r| ==> InCategory(r[k], selectedCategory) && TitleMatches(r[k], searchText)
    ensures ingredientSearch == [] ==>
      forall k :: 0 <= k < |recipes| && InCategory(recipes[k], selectedCategory) && TitleMatches(recipes[k], searchText)
        ==> recipes[k] in r
  {
    var byCategory := if selectedCategory.Some? then Filter(recipes, (recipe: Recipe) => recipe.category == selectedCategory.value) else recipes;
    var byTitle := if searchText != [] then Filter(byCategory, (recipe: Recipe) => ContainsIgnoringCase(recipe.title, searchText)) else byCategory;
    if ingredientSearch != [] then SearchRecipes(recipes, ingredientSearch) else byTitle
  }

  /** Any ingredient in the query overrides the category and the title search. */
  lemma IngredientQueryOverrides(recipes: seq<Recipe>, selectedCategory: Option<string>, searchText: string,
                                 ingredientSearch: seq<string>)
    requires ingredientSearch != []
    ensures FilteredRecipes(recipes, selectedCategory, searchText, ingredientSearch) == SearchRecipes(recipes, ingredientSearch)
  {
  }

  /**
   * Without an ingredient query the list is a single order-preserving pass
   * over the catalogue, keeping the recipes that pass both tests.
   */
  lemma FilteredRecipesIsOneFilter(recipes: seq<Recipe>, selectedCategory: Option<string>, searchText: string)
    ensures FilteredRecipes(recipes, selectedCategory, searchText, []) ==
      Filter(recipes, (recipe: Recipe) => InCategory(recipe, selectedCategory) && TitleMatches(recipe, searchText))
  {
    var both := (recipe: Recipe) => InCategory(recipe, selectedCategory) && TitleMatches(recipe, searchText);
    var category := (recipe: Recipe) => InCategory(recipe, selectedCategory);
    var title := (recipe: Recipe) => TitleMatches(recipe, searchText);
    var byCategory := if selectedCategory.Some? then Filter(recipes, (recipe: Recipe) => recipe.category == selectedCategory.value) else recipes;
    if selectedCategory.Some? {
      FilterExtensional(recipes, (recipe: Recipe) => recipe.category == selectedCategory.value, category);
    } else {
      FilterKeepsAll(recipes, category);
    }
    assert byCategory == Filter(recipes, category);
    if searchText != [] {
      FilterExtensional(byCategory, (recipe: Recipe) => ContainsIgnoringCase(recipe.title, searchText), title);
    } else {
      FilterKeepsAll(byCategory, title);
    }
    FilterFilter(recipes, category, title, both);
  }

  // ---------------------------------------------------------------------
  // FavoritesView.sortedRecipes

  predicate IsFavorite(recipe: Recipe) {
    recipe.isFavorite
  }

  function Title(recipe: Recipe): string {
    recipe.title
  }

  function Difficulty(recipe: Recipe): string {
    recipe.difficulty
  }

  /** The favourite recipes in catalogue order (the "Date" order of the picker). */
  function Favorites(recipes: seq<Recipe>): (r: seq<Recipe>)
    ensures forall k :: 0 <= k < |r| ==> r[k].isFavorite && r[k] in recipes
    ensures forall k :: 0 <= k < |recipes| && recipes[k].isFavorite ==> recipes[k] in r
  {
    Filter(recipes, IsFavorite)
  }

  /**
   * The favourites screen: exactly the favourite recipes, ascending by title
   * for "Name", ascending by difficulty for "Difficulty", and in catalogue
   * order for anything else.
   */
  function SortedRecipes(recipes: seq<Recipe>, sortOption: string): (r: seq<Recipe>)
    ensures multiset(r) == multiset(Favorites(recipes))
    ensures forall k :: 0 <= k < |r| ==> r[k].isFavorite && r[k] in recipes
    ensures forall k :: 0 <= k < |recipes| && recipes[k].isFavorite ==> recipes[k] in r
    ensures sortOption == "Name" ==> SortedByKey(r, Title)
    ensures sortOption == "Difficulty" ==> SortedByKey(r, Difficulty)
    ensures sortOption != "Name" && sortOption != "Difficulty" ==> r == Favorites(recipes)
  {
    var favorites := Favorites(recipes);
    var r := if sortOption == "Name" then SortByKey(favorites, Title)
      else if sortOption == "Difficulty" then SortByKey(favorites, Difficulty)
      else favorites;
    SameElements(r, favorites);
    SameElements(favorites, r);
    r
  }

  /**
   * Sorting the favourites is stable: under "Name" the recipes sharing a
   * title, and under "Difficulty" those sharing a difficulty, stay in
   * catalogue order.
   */
  lemma SortedRecipesStable(recipes: seq<Recipe>, value: string)
    ensures Filter(SortedRecipes(recipes, "Name"), HasKey(Title, value)) == Filter(Favorites(recipes), HasKey(Title, value))
    ensures Filter(SortedRecipes(recipes, "Difficulty"), HasKey(Difficulty, value))
      == Filter(Favorites(recipes), HasKey(Difficulty, value))
  {
    SortByKeyStable(Favorites(recipes), Title, value);
    SortByKeyStable(Favorites(recipes), Difficulty, value);
  }
}
