# Egg Cook Pro — a verified model of the app's logic

This project models the logic of the Egg Cook Pro recipe app in Dafny and proves properties of it. The model covers:

- The colour decoder behind `Color(hex:)`.
- The shared `AppViewModel` with its in-place updates of recipes, notes, timers and badges.
- The derived lists of the recipes and favourites screens.
- The input guards of the note and ingredient forms.
- The countdown tick of a timer card.
- The application delegate:
  - the push-payload router that fills the `temp_link` slot of `UserDefaults`;
  - the push-token handler;
  - the conversion-data handlers.

The modules follow the program:

- `Common`:
  - Holds `Option`.
- `Text`:
  - Character classes, trimming, lowercasing, substring search, comma splitting and string order, in the forms the app uses from Swift's standard library.
- `Seqs`:
  - `filter`, `firstIndex(where:)` and `sorted(by:)` on a key.
- `HexColor`:
  - `Color.init(hex:)` up to the integer components.
  - Includes `Scanner.scanHexInt64` with 64-bit saturation.
- `Models`:
  - The records `Recipe`, `Step`, `Note`, `TimerModel` and `Badge`.
- `RecipeQueries`:
  - `searchRecipes(byIngredients:)`, `RecipesView.filteredRecipes` and `FavoritesView.sortedRecipes`.
- `ViewModel`:
  - The class `AppViewModel`.
  - Next to it, the functions that specify each method's new state.
- `Timers`:
  - The tick.
  - The class `TimerCard`, whose timer is bound to one element of the view model's timer list.
- `Forms`:
  - The classes `NotesView` and `IngredientSearchView`.
- `AppDelegate`:
  - Payload values, the `UserDefaults` store as a class, and the class `ApplicationDelegate`.

Identifiers and dates are opaque values. A fresh `UUID()` or `Date()` becomes a method parameter.

Where the app waits, the model records the pending work as state instead:

- The two-second delay of `LoadTempURL` is a queue of pending posts.
- `DeliverDelayed` delivers the oldest of them.

The `ApplicationDelegate` keeps one invariant: the newest pending post always carries the link stored under `temp_link`.

## Model

| member | source | states |
|---|---|---|
| HexColor.ScanHexInt64 | EggCookProChickenRecipe/ContentView.swift:67-68 | the scanned value never exceeds `UInt64.max` |
| HexColor.ScanHexInt64Exact | EggCookProChickenRecipe/ContentView.swift:67-68 | with at most 15 digits the scan is the exact hexadecimal value of the leading digit run |
| HexColor.ScanHexInt64Bound | EggCookProChickenRecipe/ContentView.swift:67-68 | a string of n ≤ 15 characters scans to less than 16^n, which bounds the components below |
| HexColor.HexValueAppend | EggCookProChickenRecipe/ContentView.swift:67-68 | the value of two digit strings side by side is the high part shifted by the low part's length plus the low part |
| HexColor.Decode | EggCookProChickenRecipe/ContentView.swift:65-81 | every component of every decoded colour is at most 255; a trimmed length other than 3, 6 or 8 gives opaque black (255, 0, 0, 0) |
| HexColor.DecodeWhole | EggCookProChickenRecipe/ContentView.swift:66-70 | a string of hex digits is not trimmed, scans to its own value, and is decoded by its own length |
| HexColor.DecodeThreeDigits | EggCookProChickenRecipe/ContentView.swift:71-72 | three digits give alpha 255 and each digit's nibble times 17 as red, green and blue |
| HexColor.BrightestThreeDigits | EggCookProChickenRecipe/ContentView.swift:71-72 | "FFF" reaches exactly 255 in every channel |
| HexColor.Components | EggCookProChickenRecipe/ContentView.swift:70-79 | for a length of 3, 6 or 8 and a value with no more hex digits than that, every component is a byte; lengths 3 and 6 are opaque; any other length is opaque black |
| HexColor.DecodeSixDigits | EggCookProChickenRecipe/ContentView.swift:73-74 | six digits give alpha 255 and the three digit pairs as red, green and blue |
| HexColor.DecodeEightDigits | EggCookProChickenRecipe/ContentView.swift:75-76 | eight digits give the four digit pairs as alpha, red, green and blue |
| HexColor.DecodeIgnoresPadding | EggCookProChickenRecipe/ContentView.swift:66 | non-alphanumeric characters around the string (a leading `#`) do not change the colour |
| HexColor.DecodeHashed | EggCookProChickenRecipe/ContentView.swift:66-74 | `#` followed by six digits decodes to the three digit pairs, opaque |
| HexColor.PaletteYolkYellow | EggCookProChickenRecipe/ContentView.swift:59 | the yolk yellow of the palette is (255, 255, 217, 61) |
| HexColor.PaletteCoralRed | EggCookProChickenRecipe/ContentView.swift:60 | coral red is (255, 255, 107, 107) |
| HexColor.PaletteLimeGreen | EggCookProChickenRecipe/ContentView.swift:61 | lime green is (255, 108, 255, 114) |
| HexColor.PaletteSoftBlue | EggCookProChickenRecipe/ContentView.swift:62 | soft blue is (255, 174, 230, 255) |
| HexColor.PaletteCozyWhite | EggCookProChickenRecipe/ContentView.swift:63 | cozy white is (255, 248, 248, 248) |
| Text.Trim | EggCookProChickenRecipe/ContentView.swift:66 | the result is the slice left after removing the maximal runs of stripped characters at both ends; it is empty exactly when every character is stripped, and otherwise starts and ends with a kept character |
| Text.TrimIdempotent | EggCookProChickenRecipe/ContentView.swift:66 | trimming twice is trimming once |
| Text.TrimIgnoresPadding | EggCookProChickenRecipe/ContentView.swift:1399 | stripped characters added at either end do not change the trimmed result |
| Text.ContainsIffOccurs | EggCookProChickenRecipe/ContentView.swift:542 | `contains` holds exactly when the needle occurs at some position of the haystack |
| Text.LowerChar | EggCookProChickenRecipe/ContentView.swift:542 | the result is never an upper-case ASCII letter; A–Z map to the letter at the same position in a–z, every other character is kept |
| Text.Lowercased | EggCookProChickenRecipe/ContentView.swift:542 | the same length, each character lower-cased in place, and no upper-case ASCII letter left |
| Text.LowercasedIdempotent | EggCookProChickenRecipe/ContentView.swift:542 | lower-casing twice is lower-casing once |
| Text.LowercasedSlice | EggCookProChickenRecipe/ContentView.swift:542 | lower-casing a substring gives the same text as the matching slice of the lower-cased string |
| Text.OccurrenceFoundIgnoringCase | EggCookProChickenRecipe/ContentView.swift:542 | a needle that occurs in the haystack exactly as typed is found by the case-insensitive search |
| Text.ContainsIgnoringCaseIgnoresCase | EggCookProChickenRecipe/ContentView.swift:542 | lower-casing the haystack or the needle first never changes the answer of the case-insensitive search |
| Text.Split | EggCookProChickenRecipe/ContentView.swift:1399 | splitting on a separator yields only non-empty pieces free of the separator |
| Text.SplitJoin | EggCookProChickenRecipe/ContentView.swift:1399 | non-empty separator-free pieces joined by the separator split back into the same pieces |
| Text.SplitKeepsOtherCharacters | EggCookProChickenRecipe/ContentView.swift:1399 | the pieces, concatenated, are the text with every separator removed: nothing else is lost or reordered |
| Text.SplitAppend | EggCookProChickenRecipe/ContentView.swift:1399 | the pieces of two texts joined by one separator are the pieces of the first followed by the pieces of the second |
| Text.SplitDropsEmptyPieces | EggCookProChickenRecipe/ContentView.swift:1399 | two separators in a row, a leading separator and a trailing separator produce no piece |
| Text.LessTrichotomy | EggCookProChickenRecipe/ContentView.swift:1484 | any two strings are ordered by `<` one way, or are equal |
| Text.LessAsymmetric | EggCookProChickenRecipe/ContentView.swift:1484 | `<` never holds both ways |
| Text.LessTransitive | EggCookProChickenRecipe/ContentView.swift:1484 | `<` is transitive |
| Text.LessOrEqualTotal | EggCookProChickenRecipe/ContentView.swift:1484 | any two strings are related by "not greater" one way or the other |
| Text.LessOrEqualTransitive | EggCookProChickenRecipe/ContentView.swift:1484 | "not greater" is transitive, so a sorted list is ordered between any two positions |
| Seqs.Filter | EggCookProChickenRecipe/ContentView.swift:540 | the result keeps exactly the elements satisfying the test, and takes nothing from elsewhere |
| Seqs.FilterAppend | EggCookProChickenRecipe/ContentView.swift:540 | filtering keeps order: it distributes over concatenation |
| Seqs.FilterFilter | EggCookProChickenRecipe/ContentView.swift:756-760 | filtering twice is filtering once by both tests |
| Seqs.FirstIndex | EggCookProChickenRecipe/ContentView.swift:476 | the index found satisfies the test and no earlier one does; none is found exactly when no element satisfies it |
| Seqs.FirstIndexIsFirstMatch | EggCookProChickenRecipe/ContentView.swift:476 | the index found is k exactly when k is the first matching position |
| Seqs.SortByKey | EggCookProChickenRecipe/ContentView.swift:1484-1486 | the result is sorted by the key and is a permutation of the input |
| Seqs.InsertByKeyStable | EggCookProChickenRecipe/ContentView.swift:1484-1486 | among the elements carrying any one key, the inserted element comes before those already present and they keep their order |
| Seqs.SortByKeyStable | EggCookProChickenRecipe/ContentView.swift:1484-1486 | the sort is stable: the elements carrying any one key appear in the result in the order they had in the input |
| RecipeQueries.SearchRecipes | EggCookProChickenRecipe/ContentView.swift:539-545 | a recipe is in the result exactly when it is in the catalogue and every query term occurs, ignoring case, in one of its ingredient lines; an empty query returns the whole catalogue; no recipe appears more often than in the catalogue |
| RecipeQueries.SearchRecipesAppend | EggCookProChickenRecipe/ContentView.swift:539-545 | the search keeps catalogue order |
| RecipeQueries.SearchRecipesNarrows | EggCookProChickenRecipe/ContentView.swift:541-543 | adding a term narrows the result to the earlier result searched for that term |
| RecipeQueries.FilteredRecipes | EggCookProChickenRecipe/ContentView.swift:753-765 | without an ingredient query, a recipe is listed exactly when it is in the selected category (if any) and its title contains the search text, ignoring case (if any) |
| RecipeQueries.IngredientQueryOverrides | EggCookProChickenRecipe/ContentView.swift:761-763 | a non-empty ingredient query makes the list exactly the ingredient search of the whole catalogue |
| RecipeQueries.FilteredRecipesIsOneFilter | EggCookProChickenRecipe/ContentView.swift:754-760 | without an ingredient query the list is one order-preserving filter by both tests |
| RecipeQueries.Favorites | EggCookProChickenRecipe/ContentView.swift:1481 | exactly the favourite recipes of the catalogue |
| RecipeQueries.SortedRecipes | EggCookProChickenRecipe/ContentView.swift:1480-1490 | exactly the favourites, as a permutation; "Name" sorts ascending by title, "Difficulty" ascending by difficulty, any other option keeps catalogue order |
| RecipeQueries.SortedRecipesStable | EggCookProChickenRecipe/ContentView.swift:1484-1486 | under "Name" the favourites sharing a title, and under "Difficulty" those sharing a difficulty, stay in catalogue order |
| ViewModel.HasChampionIffCounted | EggCookProChickenRecipe/ContentView.swift:478 | the `contains(where:)` test on the title holds exactly when at least one champion badge is counted |
| ViewModel.AwardChampion | EggCookProChickenRecipe/ContentView.swift:478-481 | the badges only grow, by at most one; they grow exactly when the recipe is now a favourite, at least 5 recipes were viewed and no champion badge exists, and the new badge is the champion badge; at most one champion badge stays at most one |
| ViewModel.ToggledFavorite | EggCookProChickenRecipe/ContentView.swift:475-477 | only the favourite flag of the first recipe with the id is negated; every other recipe and field is unchanged; an unknown id changes nothing |
| ViewModel.ToggleTwiceRestores | EggCookProChickenRecipe/ContentView.swift:475-477 | toggling the same recipe twice restores the catalogue |
| ViewModel.StartedTimers | EggCookProChickenRecipe/ContentView.swift:489-495 | the first timer with the id runs again from its full duration; every other timer is unchanged; an unknown id changes nothing |
| ViewModel.StoppedTimers | EggCookProChickenRecipe/ContentView.swift:497-501 | the first timer with the id stops and keeps its remaining time; every other timer is unchanged |
| ViewModel.StartStopKeepRange | EggCookProChickenRecipe/ContentView.swift:489-501 | starting or stopping keeps every timer's remaining time between zero and its duration |
| ViewModel.StartThenStop | EggCookProChickenRecipe/ContentView.swift:489-501 | starting then stopping a timer leaves it idle at its full duration |
| ViewModel.AppViewModel.constructor | EggCookProChickenRecipe/ContentView.swift:467-473 | the initial state: the catalogue, no notes, the 360 s soft-boiled and 240 s poached timers idle at full time, no badges, nothing viewed |
| ViewModel.AppViewModel.ToggleFavorite | EggCookProChickenRecipe/ContentView.swift:475-483 | the recipes become `ToggledFavorite` of the old ones, the badges `AwardChampion` for the toggled recipe, and nothing else changes; at most one champion badge ever |
| ViewModel.AppViewModel.AddNote | EggCookProChickenRecipe/ContentView.swift:485-487 | exactly one note is appended after the existing ones |
| ViewModel.AppViewModel.StartTimer | EggCookProChickenRecipe/ContentView.swift:489-495 | the timers become `StartedTimers` of the old ones; nothing else changes |
| ViewModel.AppViewModel.StopTimer | EggCookProChickenRecipe/ContentView.swift:497-501 | the timers become `StoppedTimers` of the old ones; nothing else changes |
| ViewModel.AppViewModel.HomeAppeared | EggCookProChickenRecipe/ContentView.swift:686-688 | the viewed count becomes the catalogue size |
| ViewModel.AppViewModel.RecipeDetailAppeared | EggCookProChickenRecipe/ContentView.swift:1106-1108 | the viewed count grows by one |
| Timers.Tick | EggCookProChickenRecipe/ContentView.swift:1330-1340 | with time left the remaining time drops by exactly one second; at zero the timer stops and is rewound to its duration; remaining time stays between zero and the duration |
| Timers.TicksKeepRange | EggCookProChickenRecipe/ContentView.swift:1330-1340 | however many ticks fire, the remaining time never goes negative or beyond the duration |
| Timers.TicksCountDown | EggCookProChickenRecipe/ContentView.swift:1331-1332 | up to the remaining time, n ticks take off exactly n seconds and keep the timer running |
| Timers.TicksFinish | EggCookProChickenRecipe/ContentView.swift:1330-1340 | the tick after the countdown reaches zero stops and rewinds the timer |
| Timers.TicksAdd | EggCookProChickenRecipe/ContentView.swift:1330-1340 | m + n ticks are m ticks followed by n ticks |
| Timers.TimerCard.OnTick | EggCookProChickenRecipe/ContentView.swift:1330-1340 | the bound timer becomes its `Tick`, the other timers are unchanged, and the repeating timer stays scheduled exactly when time was left |
| Timers.TimerCard.ButtonTapped | EggCookProChickenRecipe/ContentView.swift:1321-1342 | a running timer is stopped through the view model and unscheduled; an idle one is started and scheduled |
| Timers.CardWriteIsRedundant | EggCookProChickenRecipe/ContentView.swift:1322-1329 | with distinct ids the card's own write of the running flag repeats what the view model already did |
| Forms.NoteTags | EggCookProChickenRecipe/ContentView.swift:1399 | one tag per non-empty comma-separated piece, in order, each that piece trimmed of whitespace, so none contains a comma or begins or ends in whitespace |
| Forms.NoteTagsOfJoined | EggCookProChickenRecipe/ContentView.swift:1399 | plain tags typed with commas between them parse back to the same tags |
| Forms.NoteTagIgnoresSpacing | EggCookProChickenRecipe/ContentView.swift:1399 | whitespace typed around a tag does not reach it |
| Forms.NoteTagsAppend | EggCookProChickenRecipe/ContentView.swift:1399 | the tags of two texts joined by a comma are the tags of the first followed by the tags of the second |
| Forms.NoteTagOfPiece | EggCookProChickenRecipe/ContentView.swift:1399 | a non-empty text without a comma is one tag: the text trimmed of whitespace |
| Forms.NoteTagsOfEggsMilk | EggCookProChickenRecipe/ContentView.swift:1399 | "eggs, milk" gives exactly the tags "eggs" and "milk" |
| Forms.NotesView.AddNoteTapped | EggCookProChickenRecipe/ContentView.swift:1397-1405 | with title and content filled in, exactly one note with the parsed tags is appended and the form is cleared; otherwise nothing changes |
| Forms.RemovingOffsets | EggCookProChickenRecipe/ContentView.swift:938-940 | deletion never adds an element or grows the list |
| Forms.RemovingKeepsOthers | EggCookProChickenRecipe/ContentView.swift:938-940 | every element at a position not deleted survives |
| Forms.RemovingOneOffset | EggCookProChickenRecipe/ContentView.swift:938-940 | deleting one row removes exactly that element and keeps the order of the rest |
| Forms.NothingRemoved | EggCookProChickenRecipe/ContentView.swift:938-940 | offsets outside the list delete nothing |
| Forms.IngredientSearchView.AddIngredientTapped | EggCookProChickenRecipe/ContentView.swift:914-919 | non-empty text is appended to the query and the field cleared; empty text changes nothing |
| Forms.IngredientSearchView.Delete | EggCookProChickenRecipe/ContentView.swift:938-940 | the query loses exactly the listed rows |
| AppDelegate.StringAt | EggCookProChickenRecipe/EggCookProChickenRecipeApp.swift:28 | a value is found exactly when the key maps to a string, and it is that string |
| AppDelegate.DataInfo | EggCookProChickenRecipe/EggCookProChickenRecipeApp.swift:30 | `data` bridges exactly when it is a dictionary whose keys are all strings |
| AppDelegate.ExtractLink | EggCookProChickenRecipe/EggCookProChickenRecipeApp.swift:27-32 | a string top-level `url` wins; failing that, a string `url` of a string-keyed `data` dictionary; failing that, no link |
| AppDelegate.TopLevelLinkWins | EggCookProChickenRecipe/EggCookProChickenRecipeApp.swift:28-29 | a string `url` at the top is the link, whatever `data` holds |
| AppDelegate.NestedLinkFallback | EggCookProChickenRecipe/EggCookProChickenRecipeApp.swift:30-31 | without a string top-level `url`, a `data` dictionary holding a string `url` supplies the link |
| AppDelegate.NonStringKeyedDataIgnored | EggCookProChickenRecipe/EggCookProChickenRecipeApp.swift:30 | a `data` dictionary with a non-string key is not used |
| AppDelegate.UserDefaults.Set | EggCookProChickenRecipe/EggCookProChickenRecipeApp.swift:102-103 | a value is stored under its key; a missing value removes the key |
| AppDelegate.WithToken | EggCookProChickenRecipe/EggCookProChickenRecipeApp.swift:102-103 | the token is stored under both `fcm_token` and `push_token` (both removed when missing); every other key is untouched |
| AppDelegate.ApplicationDelegate.OnConversionDataSuccess | EggCookProChickenRecipe/EggCookProChickenRecipeApp.swift:12-15 | the received data is stored and exactly it is broadcast |
| AppDelegate.ApplicationDelegate.OnConversionDataFail | EggCookProChickenRecipe/EggCookProChickenRecipeApp.swift:77-79 | an empty dictionary is broadcast and the stored data is untouched |
| AppDelegate.ApplicationDelegate.ProcessNotifPayload | EggCookProChickenRecipe/EggCookProChickenRecipeApp.swift:26-40 | with a link, `temp_link` holds exactly it and one delayed `LoadTempURL` carrying it is queued; without one, the store and the queue are unchanged |
| AppDelegate.ApplicationDelegate.DeliverDelayed | EggCookProChickenRecipe/EggCookProChickenRecipeApp.swift:36-38 | the oldest pending post is delivered, keeping the link invariant; it is always a `LoadTempURL`, and the last one carries the link stored under `temp_link` |
| AppDelegate.ApplicationDelegate.TokenReceived | EggCookProChickenRecipe/EggCookProChickenRecipeApp.swift:98-105 | the store becomes `WithToken` of the old store |
| AppDelegate.ApplicationDelegate.DidFinishLaunching | EggCookProChickenRecipe/EggCookProChickenRecipeApp.swift:55-66 | a launching notification payload is routed like any other; the launch always succeeds |

## Left out

- Unicode: the character classes are approximations.
  - Alphanumerics are the ASCII letters and digits.
  - `lowercased()` maps only A–Z.
  - Whitespace is tab plus the space separators.
  - Swift's String `<` compares the Unicode-normalised scalar sequences, so canonically equivalent strings are equal. The model compares characters one by one, without normalisation.
  - `hex.count` and `split` work on grapheme clusters. The model counts and splits characters, one per `char`.
- `Scanner.scanHexInt64` is not part of this model's source files. The model takes its behaviour from Foundation:
  - an optional `0x` prefix;
  - the longest run of hex digits;
  - saturation at `UInt64.max`.
- HexColor.ScanHexInt64: Foundation's scanner first skips leading whitespace. The model does not, so ` FF` scans to 0 in the model. The app only scans strings already trimmed to start with an alphanumeric character, where the two agree.
- Text.ContainsIffOccurs: an empty needle is taken to be contained everywhere. The app's guards never search for empty text.
- Floating point: the final `Double(...) / 255` channel conversion and `eggCrackProgress` are left out. Timer durations are whole seconds held as integers, as the app only ever stores whole seconds there.
- The 20 seed recipes are left out. The view model takes the catalogue as a constructor argument.
- Scheduling the badge, timer and daily notifications, and asking for notification permission, are operating-system I/O.
- `Timer.scheduledTimer` and `DispatchQueue.main.asyncAfter` are not modelled as time. What remains:
  - a `scheduled` flag on the timer card;
  - a queue of pending posts with `DeliverDelayed`.
- The Firebase, Messaging, AppsFlyer and tracking-permission calls are opaque SDK calls. This covers `didRegisterForRemoteNotificationsWithDeviceToken`, `activateTracking`, and the SDK set-up inside `didFinishLaunchingWithOptions`.
- The two notification-centre callbacks (lines 20-23 and 85-89) and `didReceiveRemoteNotification` (lines 91-96) only call `processNotifPayload`. They are represented by `ProcessNotifPayload`.
- PDF export, the SwiftUI views, layout, haptics, sheets and navigation are UI with no state of their own.
- `TimerView` in the recipe-detail sheet is left out. Its binding reads a fresh 300-second timer every time and discards every write, and its closure is the same as `TimerCard`'s. Only the timers screen's `TimerCard`, bound to an element of the view-model list, is modelled.
- Seqs.SortByKey: the sort is an insertion sort. It is sorted, a permutation and stable (`Seqs.SortByKeyStable`). Swift's `sorted(by:)` promises the same, but the result is not the output of Swift's own algorithm step by step.
- Forms.RemovingOffsets: the contract gives only the size and multiset bounds. That the remaining elements keep their order is proved for single-row deletion (`RemovingOneOffset`), not for arbitrary offset sets.
- Forms.NothingRemoved: `onDelete` only ever supplies offsets of rows on screen. The model takes out-of-range offsets to be ignored. What `remove(atOffsets:)` does with such offsets is not modelled.
