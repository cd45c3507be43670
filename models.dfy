/**
 * The app's records. Identifiers and timestamps are opaque values: a fresh
 * `UUID()` or `Date()` is never computed here, it is handed in by the caller.
 */
module Models {
  import opened Common

  /** `UUID`: only its identity matters. */
  datatype Uuid = Uuid(raw: nat)

  /** `Date`: an instant, compared and stored but never computed with. */
  datatype Date = Date(instant: int)

  /** One instruction of a recipe, with an optional illustration. */
  datatype Step = Step(id: Uuid, text: string, image: Option<string>)

  /** A recipe of the catalogue; `isFavorite` is its only mutable field. */
  datatype Recipe = Recipe(
    id: Uuid,
    title: string,
    category: string,
    difficulty: string,
    time: string,
    calories: int,
    image: string,
    ingredients: seq<string>,
    steps: seq<Step>,
    isFavorite: bool)

  /** A note the user writes, tagged and dated. */
  datatype Note = Note(id: Uuid, title: string, content: string, tags: seq<string>, date: Date)

  /**
   * A countdown. `duration` and `timeRemaining` are whole seconds; the
   * source's `TimeInterval` only ever holds whole numbers of seconds here.
   */
  datatype TimerModel = TimerModel(id: Uuid, title: string, duration: int, timeRemaining: int, isRunning: bool)

  /** An achievement shown in the profile. */
  datatype Badge = Badge(id: Uuid, title: string, description: string, image: string, dateEarned: Date)

  /** A timer whose remaining time lies between zero and its duration. */
  predicate TimerInRange(t: TimerModel) {
    0 <= t.timeRemaining <= t.duration
  }
}
