# Movie Explorer client state, in Dafny

A model of the client-side state and derivations of the Movie Explorer web
client. The client lists movies from a remote movie-metadata API, keeps a
personal favourites list and a light/dark theme preference in the browser's
local storage, and shows each movie as a card. The modelled parts are these:

- **Favourites registry** (`favorites.dfy`). This is an ordered list of movie
  records keyed by `id`. `Added` appends a movie unless its id is already
  present. `Removed` filters out an id. `Find` is the lookup behind
  `isFavorite`. `InitialFavorites` loads the list from storage and falls back
  to the empty list. `FavoritesRegistry` holds the state slot. Its methods
  write the encoded list back after every change and swallow a failed write.
- **Theme registry** (`theme.dfy`). The initial mode is any non-empty stored
  string, or else `"light"`. `Toggled` maps `"light"` to `"dark"` and every
  other string to `"light"`. `PaletteFor` picks the light palette exactly for
  `"light"`. `ThemeRegistry` mirrors the mode into storage. Its read and write
  are unguarded, so their exceptions escape.
- **Search bar** (`search.dfy`). The query is held raw. Submitting passes on
  the trimmed query only when it is not blank, and it leaves the held query
  unchanged.
- **Movie card** (`moviecard.dfy`). The render guard, the poster URL or the
  placeholder, the alt text, the "N/A" fallbacks and the details link.
- **Supporting modules.** `storage.dfy` holds the browser's local storage. It
  is a class whose reads and writes can throw. JSON is an abstract
  encode/decode pair, `Codec`, whose decode may fail. `RoundTrips` states the
  only property the program relies on, for the list at hand: its text is never
  empty, and decoding it gives the list back. `jsstring.dfy` holds JavaScript's
  white-space set with `trim`, and the decimal text of an integer with a
  parser for it.

The card reads its rating from the field `vote_avarage`. The API's field is
`vote_average`, so for API records the bracketed rating is always "N/A"
(`MovieCard.ApiRecordRatesNA`). The model keeps this behaviour as written.

Three facts about the code shape the model:

- The theme mode is not restricted to `light`/`dark`. Any non-empty stored
  string is accepted and kept until the first toggle.
- Reading and writing the theme mode are not wrapped in error handling.
- Uniqueness of favourite ids is preserved by add and remove, but it is not
  enforced on load.

## Model

| member | source | states |
|---|---|---|
| `Storage.Lookup` | src/contexts/FavoritesContext.js:14 | `getItem` throws exactly when storage is unreadable. It gives `null` exactly for a missing key, otherwise the stored string |
| `Storage.Written` | src/contexts/FavoritesContext.js:25 | a successful `setItem` stores the value under its key; a throwing one changes nothing; other keys are never touched |
| `Storage.LocalStore.SetItem` | src/contexts/ThemeContext.js:30 | the write throws exactly when storage is not writable, and the new items are the old ones with that write applied |
| `Favorites.Find` | src/contexts/FavoritesContext.js:37 | finds an entry exactly when some entry has that id; the result is the first entry with that id |
| `Favorites.Added` | src/contexts/FavoritesContext.js:34-42 | with the id present the list is unchanged; otherwise the movie is appended at the end and earlier entries are kept in order; afterwards the id is present |
| `Favorites.Removed` | src/contexts/FavoritesContext.js:44-48 | no entry with the id remains, the list does not grow, and an absent id changes nothing |
| `Favorites.RemovedMembers` | src/contexts/FavoritesContext.js:46 | an entry survives iff it was there with another id, and the length drops by exactly the number of entries with the id |
| `Favorites.AddIdempotent` | src/contexts/FavoritesContext.js:37-40 | adding a movie twice equals adding it once |
| `Favorites.AddedIsFavorite` | src/contexts/FavoritesContext.js:34-55 | after an add the movie's id is a favourite |
| `Favorites.RemovedIsNotFavorite` | src/contexts/FavoritesContext.js:44-55 | after a remove the id is not a favourite, and a second remove changes nothing |
| `Favorites.RemovedConcat` | src/contexts/FavoritesContext.js:46 | filtering a concatenation filters each part |
| `Favorites.RemovedIsSubsequence` | src/contexts/FavoritesContext.js:44-47 | the remaining entries keep their original relative order |
| `Favorites.AddedPreservesUnique` | src/contexts/FavoritesContext.js:34-41 | an add keeps ids unique when they were unique |
| `Favorites.RemovedPreservesUnique` | src/contexts/FavoritesContext.js:44-48 | a remove keeps ids unique when they were unique |
| `Favorites.AddThenRemove` | src/contexts/FavoritesContext.js:34-48 | adding an absent movie and removing its id restores the original list |
| `Favorites.RemovalsCommute` | src/contexts/FavoritesContext.js:44-47 | removing two ids in either order gives the same list |
| `Favorites.InitialFavorites` | src/contexts/FavoritesContext.js:11-20 | the initial list is the decoded stored text. It is empty when the key is missing, the text is empty, the read throws or decoding fails; no exception escapes |
| `Favorites.SaveThenLoad` | src/contexts/FavoritesContext.js:11-32 | after a successful write of a list that survives the JSON round trip, the next start loads that same list |
| `Favorites.FavoritesRegistry.constructor` | src/contexts/FavoritesContext.js:11-32 | the slot starts as the loaded list, and the mount effect writes it back (or swallows the failure) |
| `Favorites.FavoritesRegistry.Persist` | src/contexts/FavoritesContext.js:23-32 | the store holds the encoded current list when the write succeeds; a failing write is swallowed and leaves the store unchanged |
| `Favorites.FavoritesRegistry.IsFavorite` | src/contexts/FavoritesContext.js:50-55 | true iff some current entry has the id |
| `Favorites.FavoritesRegistry.Add` | src/contexts/FavoritesContext.js:34-42 | the list becomes `Added(old list, movie)` and the movie is a favourite; uniqueness is kept; storage is untouched for a duplicate, otherwise it receives the new list |
| `Favorites.FavoritesRegistry.Remove` | src/contexts/FavoritesContext.js:44-48 | the list becomes `Removed(old list, id)` and the id is no longer a favourite; uniqueness is kept; storage always receives the new list |
| `Theme.InitialMode` | src/contexts/ThemeContext.js:17-21 | a non-empty stored string is the mode as it is, without validation. A missing or empty value gives "light". A throwing read is an escaping exception |
| `Theme.Toggled` | src/contexts/ThemeContext.js:24-26 | "light" goes to "dark" and every other mode goes to "light"; the result is always light or dark and always differs from the input |
| `Theme.PaletteFor` | src/contexts/ThemeContext.js:40-52 | the light palette is chosen iff the mode is exactly "light" |
| `Theme.ToggleTwice` | src/contexts/ThemeContext.js:24-25 | from light or dark, two toggles return the original mode |
| `Theme.ToggledTimesParity` | src/contexts/ThemeContext.js:24-25 | after one or more toggles the mode is light or dark; from light or dark, n toggles return to the start iff n is even |
| `Theme.SaveThenLoad` | src/contexts/ThemeContext.js:17-31 | a stored non-empty mode is the initial mode on the next start |
| `Theme.ThemeRegistry.constructor` | src/contexts/ThemeContext.js:17-21 | the mode starts as the initial mode read from storage, and it is non-empty |
| `Theme.ThemeRegistry.PersistMode` | src/contexts/ThemeContext.js:28-31 | the stored `themeMode` becomes the current mode, and a later read gives it back. A failing write throws to the caller and stores nothing |
| `Theme.ThemeRegistry.Toggle` | src/contexts/ThemeContext.js:23-31 | the mode becomes `Toggled(old mode)` and is light or dark, and the store is then written with it |
| `JsString.TrimStart` | src/components/SearchBar/SearchBar.js:14-15 | the result is a suffix of the input, everything cut off is white space, and it does not start with white space |
| `JsString.TrimEnd` | src/components/SearchBar/SearchBar.js:14-15 | the result is a prefix of the input, everything cut off is white space, and it does not end with white space |
| `JsString.Trim` | src/components/SearchBar/SearchBar.js:14-15 | the result is a slice of the input with only white space cut from either end; it has no white space at either end; it is empty iff the input is all white space |
| `JsString.TrimIdempotent` | src/components/SearchBar/SearchBar.js:14-15 | trimming twice equals trimming once |
| `JsString.Digits` | src/components/MovieCard/MovieCard.js:58 | the text of a natural number is non-empty, made only of decimal digits, and has no leading zero |
| `JsString.DecimalString` | src/components/MovieCard/MovieCard.js:58 | the text of an integer is non-empty, starts with a minus sign or a digit, and is digits after that, so it holds no path separator |
| `JsString.DigitsValueOfDigits` | src/components/MovieCard/MovieCard.js:58 | the digits of a natural number read back as that number |
| `JsString.DecimalRoundTrip` | src/components/MovieCard/MovieCard.js:58 | the decimal text of any integer parses back to that integer |
| `Search.SearchBar.constructor` | src/components/SearchBar/SearchBar.js:6 | the query starts empty |
| `Search.SearchBar.HandleInputChange` | src/components/SearchBar/SearchBar.js:8-10 | the query becomes the raw input value, untrimmed |
| `Search.Submitted` | src/components/SearchBar/SearchBar.js:14-15 | `onSearch` is called iff the query has a non-white-space character. Its argument is `Trim` of the query, which is non-empty and has no white space at either end |
| `Search.SubmittedIsStable` | src/components/SearchBar/SearchBar.js:14-15 | the text passed to `onSearch` passes the guard again unchanged |
| `Search.SearchBar.HandleSubmit` | src/components/SearchBar/SearchBar.js:12-17 | the callback receives exactly `Submitted(query)`, and the held query is not changed |
| `MovieCard.PosterUrl` | src/components/MovieCard/MovieCard.js:26-30 | with a non-empty poster path the URL is the image base followed by the path; the placeholder is chosen iff the path is missing or empty |
| `MovieCard.ReleaseFor` | src/components/MovieCard/MovieCard.js:40-42 | the release label is "N/A" iff the release date is missing or empty; otherwise it is derived from that date |
| `MovieCard.RatingFor` | src/components/MovieCard/MovieCard.js:53 | the rating label is "N/A" iff `vote_avarage` is absent or zero; otherwise it shows that value |
| `MovieCard.ApiRecordRatesNA` | src/components/MovieCard/MovieCard.js:53 | a record without `vote_avarage` shows "N/A" whatever its `vote_average` is |
| `MovieCard.DetailsPath` | src/components/MovieCard/MovieCard.js:58 | the link is "/movie/" followed by the decimal text of the id |
| `MovieCard.MatchDetailsRoute` | src/App.js:17 | a match means the path is `/movie/` followed by the parameter, which is non-empty and contains no `/` |
| `MovieCard.DetailsRouteMatches` | src/App.js:17 | every path `/movie/` followed by a non-empty segment without `/` matches, with that segment as the parameter |
| `MovieCard.DetailsLinkRoundTrip` | src/components/MovieCard/MovieCard.js:58 | every card link matches the details route, and its parameter parses back to the movie's id |
| `MovieCard.DetailsPathInjective` | src/components/MovieCard/MovieCard.js:58 | different ids give different links |
| `MovieCard.Render` | src/components/MovieCard/MovieCard.js:14-64 | renders nothing iff the movie is absent, its id is absent or 0, or its title is absent or empty. Otherwise the card has alt text and heading equal to the title, and its image, release, rating and link come from the functions above |

## Left out

- The remote API service (`src/services/tmdbService.js`) is not part of this model. It only issues HTTP requests, logs errors and rethrows them.
- The home and details pages are static stubs with no listing, filtering, pagination or trailer logic, so there is nothing of theirs to model.
- The favourites page, the navigation bar and the router set-up in `src/App.js` only render, so they are left out. The one exception is the `/movie/:id` route, which `MovieCard.MatchDetailsRoute` models.
- Layout, colour tokens, `createTheme` and the `palette.mode` pass-through are presentation; only the light/dark palette choice is modelled.
- The year of the release date (`new Date(...).getFullYear()`) is left out because it needs a date library. `MovieCard.ReleaseFor` keeps the date string the year comes from.
- The star value (`vote_avarage / 2`) and `toFixed(1)` are floating-point arithmetic and are left out. `MovieCard.RatingFor` keeps the number that is formatted, as an exact `real`.
- `console.error` logging is not modelled; a swallowed error only leaves storage unchanged.
- React's scheduling is reduced to "after each state change, run the effect". `Favorites.FavoritesRegistry.Add` does not write when the list is unchanged, because React keeps the same array and skips the effect. The theme's mount-time write is `Theme.ThemeRegistry.PersistMode`, called after the constructor.
- `Theme.ThemeRegistry.constructor`: requires a readable store. In the code a throwing read escapes the provider and nothing is mounted; `Theme.InitialMode` returns `Throws` for that case.
- `Favorites.InitialFavorites`: JSON is abstract. Stored text that parses to something other than a list of movie records counts as a decode failure and gives the empty list. The code keeps the parsed value instead. A value that is not an array (such as `null` or a number) fails at the first lookup. An array of numbers, strings, booleans or arrays (such as `[1,2]`) is kept, and every such entry reads as having no id. A `null` entry throws at the first lookup, as a value that is not an array does.
- `Favorites.SaveThenLoad`: the rating fields are exact reals, which JSON cannot carry in general (it stores finite doubles). So the round trip is a premise about the one list written, `Storage.RoundTrips`, rather than a property of the codec for every list.
- Movie ids are integers or absent (`undefined`). `null` ids, which `===` tells apart from missing ones, NaN ids, string ids and the exponent notation JavaScript uses for integers of 1e21 and above are not modelled.
- JavaScript strings are UTF-16 code units; the model uses Unicode scalar values. Every white-space character `trim` removes is in the Basic Multilingual Plane, so trimming is unaffected.
- `MovieCard.MatchDetailsRoute`: covers only the exact form the card's links take. The router also accepts trailing slashes and any letter case in the prefix, and it percent-decodes the parameter; the model rejects or keeps such paths as they are.
- Record fields that no modelled code reads (vote count, genre ids, overview) are not represented in `Movies.Movie`.
