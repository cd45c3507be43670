/**
 * `AppViewModel`: the app's shared state and the operations that change it
 * in place. Fresh identifiers and the current date are parameters.
 */
module ViewModel {
  import opened Common
  import opened Models
  import opened Seqs

  // ---------------------------------------------------------------------
  // The Egg Champion badge

  const ChampionTitle: string := "Egg Champion"
  const ChampionDescription: string := "Cooked 5 recipes!"
  const ChampionImage: string := "egg_champion"

  /** Recipes the user must have viewed before favouriting earns the badge. */
  const ChampionViews: int := 5

  function ChampionBadge(id: Uuid, now: Date): Badge {
    Badge(id, ChampionTitle, ChampionDescription, ChampionImage, now)
  }

  /** Some badge of the list carries the champion title. */
  predicate HasChampion(badges: seq<Badge>) {
    exists k :: 0 <= k < |badges| && badges[k].title == ChampionTitle
  }

  /** How many badges carry the champion title. */
  function ChampionCount(badges: seq<Badge>): nat {
    if badges == [] then 0
    else ChampionCount(badges[..|badges| - 1]) + (if badges[|badges| - 1].title == ChampionTitle then 1 else 0)
  }

  /** The list holds a champion badge exactly when it counts at least one. */
  lemma {:induction false} HasChampionIffCounted(badges: seq<Badge>)
    ensures HasChampion(badges) <==> ChampionCount(badges) > 0
  {
    if badges != [] {
      var init := badges[..|badges| - 1];
      HasChampionIffCounted(init);
      if HasChampion(init) {
        var k :| 0 <= k < |init| && init[k].title == ChampionTitle;
        assert badges[k] == init[k];
      }
      if HasChampion(badges) && badges[|badges| - 1].title != ChampionTitle {
        var k :| 0 <= k < |badges| && badges[k].title == ChampionTitle;
        assert init[k] == badges[k];
      }
    }
  }

  /**
   * The badge list after a favourite was toggled: the champion badge is
   * appended when the recipe is now a favourite, enough recipes were viewed
   * and no champion badge exists yet; otherwise the list is unchanged.
   */
  function AwardChampion(badges: seq<Badge>, nowFavorite: bool, viewedRecipesCount: int, id: Uuid, now: Date): (r: seq<Badge>)
    ensures badges <= r && |r| <= |badges| + 1
    ensures |r| == |badges| + 1 <==> nowFavorite && viewedRecipesCount >= ChampionViews && !HasChampion(badges)
    ensures |r| == |badges| + 1 ==> r[|badges|] == ChampionBadge(id, now)
    ensures ChampionCount(badges) <= 1 ==> ChampionCount(r) <= 1
  {
    if nowFavorite && viewedRecipesCount >= ChampionViews && !HasChampion(badges) then
      var r := badges + [ChampionBadge(id, now)];
      HasChampionIffCounted(badges);
      assert r[..|r| - 1] == badges;
      r
    else
      badges
  }

  // ---------------------------------------------------------------------
  // Updating the first record with a given id

  predicate RecipeHasId(id: Uuid, recipe: Recipe) {
    recipe.id == id
  }

  predicate TimerHasId(id: Uuid, timer: TimerModel) {
    timer.id == id
  }

  /**
   * The catalogue after `toggleFavorite(recipeId:)`: the favourite flag of the
   * first recipe with that id is negated; nothing else changes, and an
   * unknown id changes nothing.
   */
  function ToggledFavorite(recipes: seq<Recipe>, id: Uuid): (r: seq<Recipe>)
    ensures |r| == |recipes|
    ensures forall k :: 0 <= k < |r| ==> r[k].(isFavorite := recipes[k].isFavorite) == recipes[k]
    ensures forall k :: 0 <= k < |r| ==>
      (r[k].isFavorite != recipes[k].isFavorite <==> IsFirstMatch(recipes, k, (x: Recipe) => RecipeHasId(id, x)))
    ensures (forall k :: 0 <= k < |recipes| ==> recipes[k].id != id) ==> r == recipes
  {
    match FirstIndex(recipes, (x: Recipe) => RecipeHasId(id, x))
    case None => recipes
    case Some(i) => recipes[i := recipes[i].(isFavorite := !recipes[i].isFavorite)]
  }

  /** Toggling the same recipe twice restores the catalogue. */
  lemma ToggleTwiceRestores(recipes: seq<Recipe>, id: Uuid)
    ensures ToggledFavorite(ToggledFavorite(recipes, id), id) == recipes
  {
    var once := ToggledFavorite(recipes, id);
    var hasId := (x: Recipe) => RecipeHasId(id, x);
    assert forall k :: 0 <= k < |recipes| ==> once[k].id == recipes[k].id;
    FirstIndexExtensional(once, hasId, hasId);
    forall k | 0 <= k < |recipes|
      ensures IsFirstMatch(once, k, hasId) == IsFirstMatch(recipes, k, hasId)
    {
    }
  }

  /**
   * The timers after `startTimer(timerId:)`: the first timer with that id is
   * running again from its full duration; the others are untouched.
   */
  function StartedTimers(timers: seq<TimerModel>, id: Uuid): (r: seq<TimerModel>)
    ensures |r| == |timers|
    ensures forall k :: 0 <= k < |r| ==>
      r[k] == if IsFirstMatch(timers, k, (t: TimerModel) => TimerHasId(id, t))
        then timers[k].(isRunning := true, timeRemaining := timers[k].duration)
        else timers[k]
  {
    match FirstIndex(timers, (t: TimerModel) => TimerHasId(id, t))
    case None => timers
    case Some(i) => timers[i := timers[i].(isRunning := true, timeRemaining := timers[i].duration)]
  }

  /**
   * The timers after `stopTimer(timerId:)`: the first timer with that id is
   * no longer running and keeps its remaining time; the others are untouched.
   */
  function StoppedTimers(timers: seq<TimerModel>, id: Uuid): (r: seq<TimerModel>)
    ensures |r| == |timers|
    ensures forall k :: 0 <= k < |r| ==>
      r[k] == if IsFirstMatch(timers, k, (t: TimerModel) => TimerHasId(id, t))
        then timers[k].(isRunning := false)
        else timers[k]
  {
    match FirstIndex(timers, (t: TimerModel) => TimerHasId(id, t))
    case None => timers
    case Some(i) => timers[i := timers[i].(isRunning := false)]
  }

  /** Every timer's remaining time lies between zero and its duration. */
  predicate TimersInRange(timers: seq<TimerModel>) {
    forall k :: 0 <= k < |timers| ==> TimerInRange(timers[k])
  }

  /** Starting or stopping a timer keeps every timer in range. */
  lemma StartStopKeepRange(timers: seq<TimerModel>, id: Uuid)
    requires TimersInRange(timers)
    ensures TimersInRange(StartedTimers(timers, id))
    ensures TimersInRange(StoppedTimers(timers, id))
  {
    var started := StartedTimers(timers, id);
    var stopped := StoppedTimers(timers, id);
    forall k | 0 <= k < |timers|
      ensures TimerInRange(started[k]) && TimerInRange(stopped[k])
    {
      assert TimerInRange(timers[k]);
    }
  }

  /** Start then stop leaves the timer reset to its duration and idle. */
  lemma StartThenStop(timers: seq<TimerModel>, id: Uuid, k: int)
    requires IsFirstMatch(timers, k, (t: TimerModel) => TimerHasId(id, t))
    ensures StoppedTimers(StartedTimers(timers, id), id)[k]
      == timers[k].(isRunning := false, timeRemaining := timers[k].duration)
  {
    var started := StartedTimers(timers, id);
    assert forall j :: 0 <= j < |timers| ==> started[j].id == timers[j].id;
    assert IsFirstMatch(started, k, (t: TimerModel) => TimerHasId(id, t));
  }

  // ---------------------------------------------------------------------
  // The view model

  class AppViewModel {
    var recipes: seq<Recipe>
    var notes: seq<Note>
    var timers: seq<TimerModel>
    var badges: seq<Badge>
    var viewedRecipesCount: int

    /** At most one champion badge, and every timer's remaining time in range. */
    predicate Valid()
      reads this
    {
      ChampionCount(badges) <= 1 && TimersInRange(timers)
    }

    /**
     * The initial state: the catalogue, no notes, the soft-boiled (360 s) and
     * poached (240 s) timers idle at their full time, no badges, nothing viewed.
     */
    constructor (catalogue: seq<Recipe>, softBoiledId: Uuid, poachedId: Uuid)
      ensures Valid()
      ensures recipes == catalogue && notes == [] && badges == [] && viewedRecipesCount == 0
      ensures timers == [TimerModel(softBoiledId, "Soft-boiled Egg", 360, 360, false),
                         TimerModel(poachedId, "Poached Egg", 240, 240, false)]
    {
      recipes := catalogue;
      notes := [];
      timers := [TimerModel(softBoiledId, "Soft-boiled Egg", 360, 360, false),
                 TimerModel(poachedId, "Poached Egg", 240, 240, false)];
      badges := [];
      viewedRecipesCount := 0;
    }

    /**
     * `toggleFavorite(recipeId:)`: negate the flag of the first recipe with the
     * id and, if that made it a favourite, award the champion badge once.
     * Scheduling the badge notification is left out.
     */
    method ToggleFavorite(recipeId: Uuid, badgeId: Uuid, now: Date)
      requires Valid()
      modifies this
      ensures Valid()
      ensures recipes == ToggledFavorite(old(recipes), recipeId)
      ensures match FirstIndex(old(recipes), (x: Recipe) => RecipeHasId(recipeId, x))
        case None => badges == old(badges)
        case Some(i) => badges == AwardChampion(old(badges), recipes[i].isFavorite, viewedRecipesCount, badgeId, now)
      ensures notes == old(notes) && timers == old(timers) && viewedRecipesCount == old(viewedRecipesCount)
    {
      match FirstIndex(recipes, (x: Recipe) => RecipeHasId(recipeId, x)) {
        case None =>
        case Some(index) =>
          recipes := recipes[index := recipes[index].(isFavorite := !recipes[index].isFavorite)];
          if recipes[index].isFavorite && viewedRecipesCount >= ChampionViews && !HasChampion(badges) {
            badges := badges + [ChampionBadge(badgeId, now)];
          }
          assert badges == AwardChampion(old(badges), recipes[index].isFavorite, viewedRecipesCount, badgeId, now);
      }
    }

    /** `addNote(title:content:tags:)`: append one note, dated `now`. */
    method AddNote(title: string, content: string, tags: seq<string>, noteId: Uuid, now: Date)
      requires Valid()
      modifies this
      ensures Valid()
      ensures notes == old(notes) + [Note(noteId, title, content, tags, now)]
      ensures recipes == old(recipes) && timers == old(timers) && badges == old(badges)
      ensures viewedRecipesCount == old(viewedRecipesCount)
    {
      notes := notes + [Note(noteId, title, content, tags, now)];
    }

    /**
     * `startTimer(timerId:)`: the first timer with the id runs again from its
     * full duration. Scheduling its notification is left out.
     */
    method StartTimer(timerId: Uuid)
      requires Valid()
      modifies this
      ensures Valid()
      ensures timers == StartedTimers(old(timers), timerId)
      ensures recipes == old(recipes) && notes == old(notes) && badges == old(badges)
      ensures viewedRecipesCount == old(viewedRecipesCount)
    {
      StartStopKeepRange(timers, timerId);
      match FirstIndex(timers, (t: TimerModel) => TimerHasId(timerId, t)) {
        case None =>
        case Some(index) =>
          timers := timers[index := timers[index].(isRunning := true)];
          timers := timers[index := timers[index].(timeRemaining := timers[index].duration)];
      }
    }

    /** `stopTimer(timerId:)`: the first timer with the id stops where it is. */
    method StopTimer(timerId: Uuid)
      requires Valid()
      modifies this
      ensures Valid()
      ensures timers == StoppedTimers(old(timers), timerId)
      ensures recipes == old(recipes) && notes == old(notes) && badges == old(badges)
      ensures viewedRecipesCount == old(viewedRecipesCount)
    {
      StartStopKeepRange(timers, timerId);
      match FirstIndex(timers, (t: TimerModel) => TimerHasId(timerId, t)) {
        case None =>
        case Some(index) =>
          timers := timers[index := timers[index].(isRunning := false)];
      }
    }

    /** The home screen appearing sets the viewed count to the catalogue size. */
    method HomeAppeared()
      requires Valid()
      modifies this
      ensures Valid()
      ensures viewedRecipesCount == |recipes|
      ensures recipes == old(recipes) && notes == old(notes) && timers == old(timers) && badges == old(badges)
    {
      viewedRecipesCount := |recipes|;
    }

    /** A recipe's detail screen appearing counts one more view. */
    method RecipeDetailAppeared()
      requires Valid()
      modifies this
      ensures Valid()
      ensures viewedRecipesCount == old(viewedRecipesCount) + 1
      ensures recipes == old(recipes) && notes == old(notes) && timers == old(timers) && badges == old(badges)
    {
      viewedRecipesCount := viewedRecipesCount + 1;
    }
  }
}
