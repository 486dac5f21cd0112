# Favourite movies over a JSON key-value store

This project models the favourites feature of a React Native movie browser and
proves properties of that model.

- **The store** is `StorageService` (`services/storage.ts`), which sits over the device's asynchronous key-value storage.
  - `setItem` stores a string verbatim and any other value as its `JSON.stringify` text.
  - `getItem` gives `null` for a missing key. Otherwise it gives `JSON.parse` of the stored text, or the raw text when that text is not JSON.
  - `removeItem`, `getAllKeys`, `getAllItems` and `clearAll` complete the service.
  - Every failure of the medium is rethrown.
- **The components** are the movie card (`components/MovieCard.tsx`) and the movie cover (`components/MovieCoverWithFavorite.tsx`).
  - Each caches an `isFavorite` flag.
  - Each keeps a list of movies under the key `favoriteMovies`.
  - On a press of the heart button, each removes the movie from the list or appends it.
  - The cover also calls its parent's optional `onToggleFavorite` callback after a successful write.

The model has nine modules, in six groups.

- **`Wrappers`**: `Option`, `Result` and `Outcome`.
- **`JsonValue`, `JsonText`, `JsonParse`, `JsonRoundTrip`**: JSON values and `JSON.stringify`, written out concretely.
  - Numbers are canonical decimals. `JsonValue.CanonicalUnique` proves that two canonical numbers with the same value are the same, so equality of two numbers is `===`.
  - Number text uses the ECMAScript number-to-string rules, including the exponent form.
  - Strings use the escapes of `JSON.stringify`.
  - `JSON.parse` is a partial parser.
  - `JsonRoundTrip.ParseStringify` proves `JSON.parse(JSON.stringify(v))` gives `v` back for every value.
- **`Storage`**: the `StorageService` class.
  - A `map<string, string>` holds the stored texts.
  - A `seq<string>` holds the key order that `getAllKeys` reports.
  - A failing medium is a boolean parameter of each method.
- **`Favorites`**: the favourites logic.
  - The movie record.
  - Reading `x.id` from a stored element. On `null` this is a TypeError, which the components catch.
  - The `some` and `filter` calls.
  - The poster URL.
  - `PlanToggle`, the decision one press of the heart button makes.
- **`MovieCardComponent` and `MovieCoverComponent`**: the two components as classes.
  - Each holds the movie, a reference to the store, the `isFavorite` flag and a count of error alerts.
  - The cover also holds the callback flag and a count of callback calls.
  - `HandleFavoriteToggle` reads, decides, writes and flips the flag step by step.
  - Its contract ties the new flag, store, alerts and callback calls to `PlanToggle`.

The stored favourites list holds whatever `JSON.parse` returned, so its elements are JSON values rather than movies. This lets the model cover what the code does with foreign or malformed lists:

- `some` stops at the first match and throws at a `null` met before any match.
- `filter` throws at any `null`.
- An object with a repeated key keeps the last value, as `JSON.parse` does.

`getItem` falls back to the raw text when parsing fails, and the model follows the code.

A string that happens to be JSON text does not come back as that string. `Storage.JsonLookingString` proves that it comes back as the value it spells. A stored text `null` reads back as `null`, which the caller cannot tell apart from a missing key.

## Model

| member | source | states |
|---|---|---|
| Storage.StorageService.constructor | services/storage.ts:3 | the service starts over an empty store with no keys |
| Storage.StorageService.SetItem | services/storage.ts:10-19 | a failing medium is rethrown and changes nothing; otherwise only `key` changes, to the verbatim string or the JSON text of the value, and a new key is listed once at the end |
| Storage.StorageService.GetItem | services/storage.ts:26-42 | a failing medium is rethrown; otherwise null for a missing key, else the parsed value, else the raw text, changing nothing |
| Storage.StorageService.RemoveItem | services/storage.ts:49-57 | a failing medium is rethrown; otherwise the key is gone from the store and from the key list, the other keys stay listed, and the key list stays duplicate-free |
| Storage.StorageService.GetAllKeys | services/storage.ts:63-72 | a failing medium is rethrown; otherwise every stored key, each exactly once |
| Storage.StorageService.GetAllItems | services/storage.ts:79-98 | a failing medium is rethrown; otherwise one decoded entry per listed key, in key order |
| Storage.StorageService.ClearAll | services/storage.ts:105-113 | a failing medium is rethrown; otherwise no key and no text remain |
| Storage.Serialize | services/storage.ts:12 | a string is stored as it is; any other value as a text that JSON.parse reads back as that value |
| Storage.DecodeText | services/storage.ts:33-37 | the parsed value exactly when the text is JSON, otherwise the same text back; never "absent" |
| Storage.Lookup | services/storage.ts:28-37 | getItem's result is null exactly when the key is not stored |
| Storage.DecodeAll | services/storage.ts:84-90 | the `map` keeps the number and order of keys and decodes each text by the parse-else-raw rule |
| Storage.DropKey | services/storage.ts:51 | the key list after removal holds exactly the other keys, and is the same list when the key was not listed |
| Storage.DropKeyDistinct | services/storage.ts:51 | removing a key keeps the key list duplicate-free |
| Storage.SetThenGet | services/storage.ts:12-37 | after setItem, getItem gives a non-string value back; a string is stored verbatim and read back parsed when it is JSON text, raw otherwise |
| Storage.JsonLookingString | services/storage.ts:12-34 | a string holding some value's JSON text reads back as that value, which differs from the string |
| Storage.SetKeepsOthers | services/storage.ts:13 | setItem leaves what getItem gives for every other key unchanged |
| Storage.RemoveThenGet | services/storage.ts:49-51 | after removeItem getItem is null, other keys are unchanged, and removing again or removing an absent key changes nothing |
| Storage.ClearThenGet | services/storage.ts:105-107 | after clearAll getItem is null and getAllItems is empty |
| Storage.AllItemsAgreeWithGetItem | services/storage.ts:81-90 | each entry of getAllItems is what getItem gives for that key |
| JsonText.Stringify | services/storage.ts:12 | JSON.stringify's text of a value; its meaning is stated by `JsonRoundTrip.ParseStringify` and the per-kind round-trip lemmas below |
| JsonParse.Parse | services/storage.ts:34 | JSON.parse: one value surrounded only by whitespace, none where JSON.parse throws; `JsonRoundTrip.ParseStringify` and `Storage.DecodeText` state what it gives |
| JsonRoundTrip.ParseStringify | services/storage.ts:12-34 | JSON.parse of the JSON.stringify text of any value gives that value back |
| JsonRoundTrip.ValueRoundTrip | services/storage.ts:12 | a value's text is parsed back to the value, with the following text left over |
| JsonRoundTrip.NumberRoundTrip | services/storage.ts:12 | a number's text in any of its four notations reads back as the same number |
| JsonRoundTrip.StringRoundTrip | services/storage.ts:12 | an escaped string body reads back as the original characters |
| JsonRoundTrip.ArrayRoundTrip | services/storage.ts:12 | an array's comma-joined items read back as the same array |
| JsonRoundTrip.ObjectRoundTrip | services/storage.ts:12 | an object's members, duplicates and order included, read back as the same object |
| JsonValue.CanonicalUnique | components/MovieCard.tsx:31 | two canonical numbers with the same value are equal, so `===` on numbers is equality of the model's numbers |
| JsonValue.NormalizeKeepsValue | services/storage.ts:34 | the canonical form of a parsed number has the value the digits spell |
| Favorites.MovieJson | components/MovieCard.tsx:53 | the object pushed for a movie; `Favorites.MovieJsonId` states that its `id` reads as the movie's id |
| Favorites.MovieJsonId | components/MovieCard.tsx:53 | the movie pushed onto the list carries the movie's id |
| Favorites.LastMember | components/MovieCard.tsx:51 | a property read finds the last member with that name, and none exactly when no member has it |
| Favorites.ReadId | components/MovieCard.tsx:51 | reading `id` throws exactly on a null element |
| Favorites.HasId | components/MovieCard.tsx:47-51 | the `favMovie.id === movie.id` test, also at line 31; `Favorites.HasIdIsNumericEquality` states what it means |
| Favorites.HasIdIsNumericEquality | components/MovieCard.tsx:51 | an element has the id exactly when its `id` is a number numerically equal to the movie's id |
| Favorites.SomeHasId | components/MovieCard.tsx:51 | `some` is true iff an element has the id; it throws iff a null comes before every match |
| Favorites.FilterOutId | components/MovieCard.tsx:47 | `filter` throws iff the list holds a null; otherwise it keeps each element without the id as often as it occurs, in order, and drops every element with the id |
| Favorites.FilterNothingMatches | components/MovieCard.tsx:46-48 | when no element has the id, the filtered list is the stored list itself |
| Favorites.SubsequenceKeepsUniqueIds | components/MovieCard.tsx:47 | keeping some elements in order keeps ids pairwise distinct |
| Favorites.AppendKeepsUniqueIds | components/MovieCard.tsx:51-54 | appending a movie whose id no element has keeps ids pairwise distinct |
| Favorites.StoredList | components/MovieCard.tsx:41-44 | an absent or non-array stored value is the empty list; an array is its own elements |
| Favorites.CheckFavorite | components/MovieCard.tsx:29-33 | the flag is decided only for an array: true only if an element has the id, false only if none has; a list without null always decides; the cover component decides the same way |
| Favorites.SomeHasIdFirstMatch | components/MovieCard.tsx:31 | `some` is true at a match that comes before every null, whatever follows it |
| Favorites.CheckFavoriteUndecided | components/MovieCard.tsx:30-33 | the flag is left as it was exactly when the value is not an array or a null comes before every match |
| Favorites.CheckFavoriteFirstMatch | components/MovieCard.tsx:30-32 | for an array, the flag becomes true whenever a match comes before every null |
| Favorites.PlanToggle | components/MovieCard.tsx:41-57 | what one press decides: a write flips the flag, nothing happens only in the add branch, and a TypeError needs a null in the list; the branches are stated by `RemovalWritesFiltered`, `AddAppendsAtEnd`, `AlreadyPresentUnchanged`, `ToggleThrows`, `ToggleKeepsUniqueIds` and `ToggleAgreesWithCheck` |
| Favorites.RemovalWritesFiltered | components/MovieCard.tsx:46-49 | with the flag set and no null stored, the write holds each element without the id as often as it was stored, in order, and none with the id; it clears the flag and happens even when nothing matched |
| Favorites.AddAppendsAtEnd | components/MovieCard.tsx:50-55 | with the flag clear and the id absent, the write is the stored list with the movie appended at the end, and sets the flag |
| Favorites.AlreadyPresentUnchanged | components/MovieCard.tsx:51-52 | with the flag clear and the id already stored, nothing is written and the flag stays |
| Favorites.ToggleThrows | components/MovieCard.tsx:47-51 | a toggle throws exactly when `filter` meets a null or `some` meets one before a match |
| Favorites.ToggleKeepsUniqueIds | components/MovieCard.tsx:46-55 | if the stored ids are pairwise distinct, so are those of the list either branch writes |
| Favorites.ToggleAgreesWithCheck | components/MovieCard.tsx:29-55 | after a toggle writes, checking the written text gives exactly the flag the toggle set |
| Favorites.ToggleTwiceFromEmpty | components/MovieCoverWithFavorite.tsx:46-57 | from an empty store, adding then removing writes back the text `[]` |
| Favorites.ImageUrl | components/MovieCard.tsx:18-20 | the base URL followed by poster_path when poster_path is present and not empty, otherwise the placeholder; `Favorites.ImageUrlCases` adds the iff |
| Favorites.ImageUrlCases | components/MovieCard.tsx:18-20 | the URL is the placeholder exactly when poster_path is missing or empty, and otherwise is the base URL followed by poster_path; the cover component builds the same URL |
| MovieCardComponent.MovieCard.constructor | components/MovieCard.tsx:16 | the flag starts false and no alert has been shown |
| MovieCardComponent.MovieCard.CheckIfFavorite | components/MovieCard.tsx:27-37 | only the flag may change, so no alert is shown; a failed read leaves the flag; otherwise the flag becomes the decision on the stored value, or stays when there is none |
| MovieCardComponent.MovieCard.HandleFavoriteToggle | components/MovieCard.tsx:39-62 | the store and flag change exactly by the planned write, and only when the read and the write succeed; each caught error shows one alert |
| MovieCardComponent.FavoriteThenUnfavorite | components/MovieCard.tsx:27-62 | on an empty store, toggle then check shows a favourite; toggling again stores `[]` and the check shows it is not |
| MovieCoverComponent.MovieCover.constructor | components/MovieCoverWithFavorite.tsx:16-17 | the flag starts false, with no alert and no callback call |
| MovieCoverComponent.MovieCover.CheckIfFavorite | components/MovieCoverWithFavorite.tsx:27-37 | only the flag may change, so no alert is shown; a failed read leaves the flag; otherwise the flag becomes the decision on the stored value, or stays when there is none |
| MovieCoverComponent.MovieCover.HandleFavoriteToggle | components/MovieCoverWithFavorite.tsx:39-64 | as for the card, and the callback is called exactly once after each successful write and never otherwise |
| MovieCoverComponent.FavoriteThenUnfavorite | components/MovieCoverWithFavorite.tsx:39-64 | adding then removing from an empty store calls the callback twice and stores `[]` |

## Left out

- Rendering is not modelled. This covers JSX, styles, theme colours, window width, `releaseYear` and `vote_average.toFixed(1)`.
- `useEffect` scheduling is not modelled. In the model, a check happens where a caller invokes `CheckIfFavorite`.
- `console.log` and `console.error` are not modelled. An `Alert.alert` call is counted, not shown.
- The real AsyncStorage is not modelled. Its failures are boolean parameters, and its key order is taken to be insertion order.
- Two toggles interleaved across `await` points are not modelled; each toggle is one sequential step.
- `models/movie.page` is not part of this model. The movie record holds the fields the components read. Any other API fields, and their order in the stored object, are not modelled.
- JavaScript numbers are exact decimals here, not doubles. Rounding, precision and `-0` are left out, and ids are compared as exact integers.
- Strings are sequences of Unicode scalar values, so the parser rejects every `\u` escape in D800–DFFF. A stored text such as `["\ud83d\ude00"]` is then not JSON in the model and getItem returns the raw text, while `JSON.parse` accepts it. Lone surrogates in `JSON.stringify` output are not modelled either.
- An object parsed with a repeated member name keeps all its members in the model, and writing it back writes them all. `JSON.parse` keeps one property per name, so `JSON.stringify` of the parsed object writes one member per name.
- JSON objects keep their members as a sequence. Property enumeration order and `__proto__` keys are not modelled.
- `JSON.stringify` of values that have no JSON form is not modelled. This covers `undefined`, functions, cycles and `toJSON`.
- The `onToggleFavorite` callback is counted, not run. A callback that throws is not modelled.
- Debounced search, the network request wrappers, the credits screen and the colour table are not part of this model.
