# Study-spot finder: the search endpoint and the browser's list operations

The system finds cafes and libraries to study in near a point. It has three parts:

- **The server.** Its `/api/search` handler (server.js) chooses the categories to search, from the `types` query parameter or else the default `cafe`, `library`. It calls the nearby-search provider once per category, one call after another, and appends every call's `results` to one list. It keeps only the first place of each `place_id` and reshapes every survivor into a fixed response record with literal defaults. It replies `{status: 'success', count, results}`. Any thrown error makes the reply a 500 with a fixed message.
- **Client app.js.** It fetches both categories at once. It takes the spots out of the response, whatever shape the response has. It then filters them by category and sorts a copy of them, by rating or by price, with a stable sort. Each spot card derives its stars, price label, review count, open badge and directions link from the spot.
- **Client frontend/app.js.** It fetches only the active category when that is `cafe` or `library`, and both categories under any other filter, including the initial `all`. It extracts and filters the spots the same way and has no sort.

The model is in eight modules:

| file | module | what it models |
|---|---|---|
| `optional.dfy` | `Optional` | `Option`, and JavaScript's falsiness of numbers (`x \|\| d`) |
| `seqs.dfy` | `Seqs` | `Array.prototype.filter`, and order-preserving sub-lists |
| `places.dfy` | `Places` | the provider's place record, the request sent to it, what a call gives back, and the response record |
| `server.dfy` | `Server` | the `/api/search` handler |
| `spots.dfy` | `Spots` | the parts both clients share: the client's spot record, response extraction, the category filters, the card fields |
| `app.dfy` | `App` | app.js: `sortSpots` as an in-place insertion sort on a fresh array, and `filterSpots` / `handleSortChange` |
| `frontend.dfy` | `FrontendApp` | frontend/app.js: the `types` value sent, the state after a search, `filterSpots` |
| `pipeline.dfy` | `Pipeline` | a server reply as the clients parse it |

Modelling choices:

- The provider is a function parameter from request to outcome. An outcome is a throw, or it is a body whose `results` may be missing.
- `CollectResults` is the handler's loop, written as a `while` loop. It returns the merged list, or `None` for a throw, together with the requests it actually issued.
- A rating is an integer number of tenths of a star, so 45 is 4.5. Coordinates are reals.
- A JSON field that may be missing is an `Option`. A number is falsy when it is missing or 0.
- React state is a value. A setter call produces the next value.

What the handler does, and does not do:

- The provider calls are made one after another; none run concurrently.
- A single throwing call fails the whole request; a failed category is not skipped.
- No distance, photo URL or price tier is computed anywhere in the handler.
- The response record carries `id`, `location` and `open_now`.

`Pipeline` shows what follows from that last point. The cards read `place_id`, `geometry` or `lat`/`lng`, and `opening_hours`, so a record from this server never gets a directions link or an open badge.

## Model

| member | source | states |
|---|---|---|
| Optional.Or | app.js:182 | `x \|\| d`: a truthy value is kept, while a missing value or 0 gives the default |
| Seqs.Filter | app.js:391-396 | `filter` keeps only elements that pass, and is never longer than its input |
| Seqs.FilterMembers | app.js:391-401 | an element is kept exactly when it is in the list and passes the test |
| Seqs.FilterMultiset | app.js:391-401 | `filter` keeps every passing element as many times as it occurs in the input, and no failing one |
| Seqs.FilterIsSubsequence | frontend/app.js:281-291 | `filter` keeps the input order: its result is a sub-list of the input |
| Seqs.FilterIdempotent | app.js:391-401 | filtering twice with one test gives the same list as filtering once |
| Seqs.SubsequenceBounds | frontend/app.js:281-292 | a sub-list is no longer than the list, and each of its elements is in the list |
| Server.Split | server.js:14 | `split(',')` yields at least one piece, no piece holds a comma, and joining the pieces with commas gives the string back |
| Server.SplitJoin | server.js:14 | splitting undoes joining comma-free pieces |
| Server.SearchTypes | server.js:12-14 | a missing or empty `types` gives exactly `['cafe','library']`; otherwise the result is the comma-free pieces of `types`, in order, which join back to it |
| Server.RequestsFollowTypes | server.js:19-28 | there is one request per category, in order; each has radius 3000 and location `lat,lng`; `cafe` gets keyword `wifi study` and every other type an empty keyword |
| Server.CollectResults | server.js:17-33 | the requests issued are a prefix of the per-category requests. It stops right after the first call that throws and then yields no list. A loop with no throw makes every call and yields the concatenation of each call's `results`, in category order, where a missing `results` adds nothing |
| Server.MergedMembers | server.js:30-31 | a place is in the merged list exactly when some returned call's `results` holds it |
| Server.MergedEmpty | server.js:30-32 | calls that return no places merge to the empty list |
| Server.FindIndex | server.js:36 | `findIndex` gives the first position holding the id, or -1 when no position holds it |
| Server.Dedup | server.js:35-37 | the result is a sub-list of the merged list with pairwise distinct `place_id`s; each kept place is the first one with its id; every id of the input survives, as its first occurrence; the kept places come in the order of their first occurrences |
| Server.DedupFromSubsequence | server.js:35-37 | the first-wins filter keeps the order of the list it filters |
| Server.DedupFromDistinctIds | server.js:35-37 | no two places kept by the first-wins filter share an id |
| Server.DedupFromOrdered | server.js:35-37 | the places the first-wins filter keeps come in the order of their ids' first occurrences |
| Server.DedupFromCovers | server.js:35-37 | the first occurrence of every id is kept |
| Server.DedupOfDistinct | server.js:35-37 | a list whose ids are already distinct passes through unchanged |
| Server.DedupIdempotent | server.js:35-37 | deduplicating twice gives the same list as deduplicating once |
| Server.Format | server.js:39-52 | formatting fails exactly when `geometry.location` is missing. `id` is `place_id`; name, vicinity, `price_level` and `types` are copied; location is the place's location; `rating` and `user_ratings_total` default to 0; `open_now` is missing without `opening_hours` and otherwise copied |
| Server.FormatAll | server.js:39-52 | `map` succeeds exactly when every place has a location, and then gives one record per place, in order |
| Server.Respond | server.js:54-62 | the status is 200 or 500. It is 500 exactly when a call threw or a surviving place lacks a location, with body `{error: 'Failed to fetch study spots'}`. A 200 has status `success` and `count` equal to the number of results; its results are the formatted deduplicated list, with distinct ids |
| Server.HandleSearch | server.js:11-63 | the reply is that of the merged outcomes of the per-category requests; the issued requests are their prefix, and all of them when no call threw (so also when the reply is 200). When a call threw, the last issued call is the one that threw and every earlier one returned |
| Server.ThrowFailsSearch | server.js:60-62 | one throwing call makes the reply a 500 with no results |
| Server.EmptySearchSucceeds | server.js:54-58 | when no call finds any place, the reply is still a 200 `success` with count 0 |
| Server.SuccessIffFirstOccurrencesLocated | server.js:35-47 | the reply is 200 exactly when the first occurrence of every id has a location; later duplicates are dropped before formatting |
| Server.FirstOccurrenceWins | server.js:35-52 | each id of the merged list appears in exactly one record of a 200 reply, and that record is formatted from the id's first occurrence |
| Spots.ExtractResults | app.js:355-364 | results are chosen in priority order: the body when it is an array, then `results`, then `places`, then `data`, else `[]`. A `null` body, whose fields cannot be read, is the only failure. frontend/app.js holds the same code, at lines 240-249 |
| Spots.ExtractedComesFromBody | app.js:355-364 | the chosen list is one of the lists the body holds, or it is empty |
| Spots.Category | app.js:386-402 | `all` gives `allSpots` unchanged. `cafe` keeps exactly the spots with `types` holding `cafe` or `coffee_shop`, or with `type` `cafe`. `library` keeps exactly those with `library`. Both keep each passing spot as many times as it occurs, keep order, as a sub-list, and exclude spots without `types`. Any other id gives `[]`. frontend/app.js holds the same tests, at lines 278-292 |
| Spots.CategoryIdempotent | app.js:386-402 | choosing a category of an already filtered list changes nothing |
| Spots.CategoryWithinAllSpots | frontend/app.js:281-292 | the filtered list is never longer than `allSpots`, and each of its spots is in `allSpots` |
| Spots.PriceLabel | app.js:187 | a truthy `price_level` gives that many `$`, and a falsy one gives `$$`. The number of `$` is the key the price sort uses. A negative level, which `repeat` rejects, is the only failure. frontend/app.js builds the same label, at line 94 |
| Spots.RoundedStars | app.js:183 | `Math.round` gives the whole star count nearest the rating, with halves rounding up |
| Spots.Stars | app.js:182-184 | the filled and empty stars number 5 in all, and the filled ones are the rating rounded. A rating that rounds outside 0..5, which `repeat` rejects, is the only failure |
| Spots.ShowsOpenBadge | app.js:188 | the open badge never shows without `opening_hours`; with it, the badge shows exactly when `open_now` is true |
| Spots.ReviewCount | app.js:190 | the count is `user_ratings_total` if truthy, else `reviews_count` if truthy, else 0; it is 0 exactly when both are falsy |
| Spots.Coordinates | app.js:193-200 | `geometry.location` wins when present. Otherwise the flat `lat`/`lng` are used, only when both are truthy. Otherwise there are no coordinates. frontend/app.js chooses the same way, at lines 100-107 |
| Spots.DirectionsShownIff | app.js:193-237 | the directions link shows exactly when the chosen coordinates are both non-zero: from `geometry.location` when present, else when the flat `lat` and `lng` are both truthy |
| App.SortByPermutation | app.js:317-323 | the sort rearranges the spots: the result holds the same spots, as many of each as before |
| App.SortBySorted | app.js:317-323 | the sorted keys do not decrease |
| App.SortByStable | app.js:317-323 | spots with equal keys keep their relative order |
| App.StableSortIsUnique | app.js:317-323 | any key-ordered list that keeps equal keys in the input's order is this sort's result. So whichever stable algorithm the engine uses gives the same list |
| App.SortedUnique | app.js:317-323 | two key-ordered lists with the same spots of each key, in the same order, are equal |
| App.OrderedByRating | app.js:319-320 | sorting by `rating` gives a permutation whose ratings do not increase (a missing one counts as 0), with equal ratings in their original order |
| App.OrderedByPrice | app.js:322-323 | sorting by `price` gives a permutation whose price keys do not decrease (a missing or 0 level counts as 2), with equal keys in their original order |
| App.OrderedOtherwise | app.js:317-327 | any other sort type leaves the order unchanged |
| App.InsertAt | app.js:317-323 | one insertion step places the next spot after the sorted spots whose key is not greater, and leaves the rest of the array unchanged |
| App.InsertionSort | app.js:317-323 | the array, sorted in place, becomes the stable sort of its old contents |
| App.SortSpots | app.js:311-328 | a falsy sort type returns the very same array. Any other sort type returns a different array, so the input is never reordered, holding the rating sort, the price sort, or an equal copy |
| App.SelectCategory | app.js:386-402 | the selected spots are the category's spots; the result is `allSpots` itself exactly for `all` |
| App.FilterSpots | app.js:382-409 | the shown list is the chosen category's spots under the current sort; for `all` with no sort it is `allSpots` itself |
| App.HandleSortChange | app.js:412-437 | the shown list is the active category's spots under the new sort |
| App.SortChangeAgreesWithFilter | app.js:407-436 | changing the sort shows the same list as choosing the active filter again under the new sort, and never more spots than `allSpots` |
| FrontendApp.TypesParam | frontend/app.js:216-223 | the value is never empty. The server reads it back as exactly `[cafe]` for the `cafe` filter and `[library]` for `library`; for any other filter, it reads both categories |
| FrontendApp.Search | frontend/app.js:228-265 | a failed request or a `null` body leaves the lists as they were. Otherwise `allSpots` and the shown spots both become the extracted results, unfiltered, and the active filter is kept |
| FrontendApp.FilterSpots | frontend/app.js:268-296 | the filter becomes active and the shown list is taken from `allSpots`. `all` shows all of it; `cafe` and `library` show exactly the spots passing their test, each as many times as it occurs in `allSpots`, in order, never those without `types`. Any other id shows nothing. The list is never longer than `allSpots` |
| FrontendApp.FilterForgetsEarlierFilters | frontend/app.js:268-296 | what a filter shows does not depend on the filters chosen before it |
| FrontendApp.TwoCategories | server.js:14 | a value made of two comma-free names joined by one comma is searched as exactly those two categories |
| Pipeline.ToSpot | server.js:39-52 | a response record as a card reads it: `place_id`, `geometry`, flat `lat`/`lng`, `opening_hours`, `type` and `reviews_count` are undefined, because the record names its fields `id`, `location` and `open_now`; `rating`, `user_ratings_total`, `price_level` and `types` carry the record's values |
| Pipeline.Delivered | server.js:54-62 | a client receives a body exactly for a 200 reply; its extracted results are the reply's records, read as cards, in order. A 500 is a thrown error on the client |
| Pipeline.ServerRecordCard | server.js:39-52 | a server record's card never shows directions or the open badge. Its rating, review count and price key are the record's defaulted `rating`, its `user_ratings_total`, and `price_level \|\| 2` |
| Pipeline.ServerRecordCategories | server.js:51 | the category filters judge a server record by its `types` alone |
| Pipeline.AppSearchesBothCategories | app.js:339 | app.js always has the server search both categories, `cafe` then `library` |
| Pipeline.FrontendShowsReply | server.js:54-62 | after a 200 reply the frontend shows its records in server order, as many as `count`; after a 500 its lists are unchanged |
| Pipeline.NoDirectionsAfterSearch | server.js:45-48 | no card the frontend shows after a successful search links to directions |

## Left out

- HTTP, and all of the I/O around it, is not modelled. This covers the provider's GET, `fetch`, `response.json()`, Express, CORS, static files and dotenv. The provider is a function parameter. The reply a client receives is a value.
- The API key read from `process.env` is a parameter of the handler.
- An Express query that repeats `types` makes `types` an array, and `split` then throws outside the `try`. The model takes `types` as a single string or none.
- A provider `results`, or a client response field, that is truthy but not an array is not modelled. Fields are lists or missing.
- A `null` element in a provider's `results` is not modelled: a `Place` is never null. In the code, reading `place_id` of such an element inside `findIndex` (server.js:36) throws, and the reply is a 500.
- The provider is a function of the request. So two identical calls, as for `types=cafe,cafe`, have the same outcome. A first call that returns followed by an identical second call that throws cannot be expressed. No property stated here depends on this.
- Ratings are integer tenths. Floating-point ratings, `NaN`, and what `Math.round` does off the tenths grid are not modelled. Neither are `toFixed` display and the `distance / 1609` miles text (app.js:186).
- Rendering is not modelled. That covers React, `useState` hooks, `loading`, `alert`, `console.log`, the image or placeholder choice, and the view-details link.
- The ordering of asynchronous state updates is left out. It does not change which list ends up shown.
- Geolocation and the address field (app.js:34-80) are browser APIs and are left out.
- app.js's `searchStudySpots` resets the shown spots and `sortBy` before fetching. Only its response extraction is modelled, by `Spots.ExtractResults`.
- The handler makes no concurrent calls and has no per-category failure isolation. It also has no distance, photo URL or price tier code, and server.js has no geocode endpoint. So none of these are modelled.
- `App.SortSpots` models the engine's stable sort by one stable algorithm. `App.StableSortIsUnique` shows that the choice of algorithm does not matter.
