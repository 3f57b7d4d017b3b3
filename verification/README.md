# Public API directory search: response adapter model

This project models the search back-end adapter of the public-API directory
demo. That demo is a browser search UI. The user types a keyword, the
`PublicApiService` queries a REST endpoint, and the service shapes the raw
records into the UI library's result cards, facet groups and result
metadata. The model has three parts, all pure Dafny functions over immutable
datatypes:

- the request's query parameters, built from the keyword and the selected
  facets;
- the response adapter. It writes the metadata, maps each raw record to a
  result card with an "auth" badge, preceded by an "https" badge when the record
  is served over HTTPS, counts the records into the
  fixed authentication buckets `OAuth`, `apiKey` and `null`, and clears
  results, facets and selection when the count is not positive;
- the autocomplete suggestion mapper.

Modules, one per file:

| file | module | models |
|---|---|---|
| types.dfy | `Wrappers`, `PublicApiTypes`, `SearchView` | `undefined` as `Option`; the backend record and response; the UI library's view records |
| result_mapping.dfy | `ResultMapping` | record to card, and a reader that reads a card back |
| auth_facets.dfy | `AuthFacets` | bucket configuration, counting, selection, non-empty buckets |
| query_params.dfy | `QueryParams` | `HttpParams.set` sequence as a map |
| search_adapter.dfy | `SearchAdapter` | the `subscribe` callback as `Adapt`, and one search round on the service state |
| suggestions.dfy | `Suggestions` | the `map` step of `getSearchSuggestions` |

Four behaviours of the code are easy to misread:

- Results, facets and selection are cleared whenever `count <= 0`.
- A failed or timed-out suggestion request gives no list (`undefined`). The
  error handler emits `[]`, `[].count` is undefined, and the `count > 0` test
  fails.
- `HttpParams.set` replaces, so only the last selected facet of each name is
  sent (`QueryParams.SameNameKeepsLast`).
- A failed search request runs no code: the subscription has no error
  callback, so loading stays on and the previous results stay on show
  (`SearchAdapter.FailedSearchStaysLoading`).

An `Auth` value is JavaScript-truthy when it is present and non-empty
(`PublicApiTypes.Truthy`). `count` is kept apart from the length of
`entries`: the adapter tests the one and maps over the other.

## Model

| member | source | states |
|---|---|---|
| `ResultMapping.ToResult` | src/app/public-api.service.ts:58-82 | A card's title, description, tag list `[Category]`, id (the link) and single "Go to API" action come from the entry. It has two badges with HTTPS and one without. An "https" badge is present iff `HTTPS` holds, and it is first. The last badge is "auth", reading "Authentication via " + Auth for a truthy Auth and "No authentication needed" otherwise. |
| `ResultMapping.CardRoundTrip` | src/app/public-api.service.ts:58-82 | Reading a card back recovers every field of its entry except `Cors`. It also cannot tell an empty `Auth` from a missing one. |
| `ResultMapping.SameCardIffSameContent` | src/app/public-api.service.ts:58-82 | Two entries give equal cards iff they agree on what a card shows. |
| `AuthFacets.AuthKeys` | src/app/public-api.service.ts:86-88 | One key per entry, never empty. A key is "null" iff the entry's Auth is falsy or is the text "null"; any other key is the entry's Auth itself. |
| `AuthFacets.KeepEqual` | src/app/public-api.service.ts:85-89 | The filter keeps only keys equal to the bucket name, as many as the name occurs. |
| `AuthFacets.CountAuth` | src/app/public-api.service.ts:85-89 | A bucket's count is the number of entries whose key (truthy Auth, else "null") equals the bucket name. It is at most the number of entries. |
| `AuthFacets.CountAuthAppend` | src/app/public-api.service.ts:85-89 | Appending an entry raises exactly its own bucket's count by one. |
| `AuthFacets.IsAuthSelected` | src/app/public-api.service.ts:95-100 | A bucket is selected iff the selection holds the facet ("auth", bucket name). |
| `AuthFacets.NonEmpty` | src/app/public-api.service.ts:90-102 | Only entries with a positive count are pushed. An entry is kept iff its count is positive. |
| `AuthFacets.NonEmptyDropsFirst` | src/app/public-api.service.ts:90-102 | An empty first bucket is skipped and the two non-empty buckets after it are kept, in order. |
| `AuthFacets.AuthEntries` | src/app/public-api.service.ts:83-103 | At most one entry per configured bucket, and every entry has a positive count. `AuthFacets.AuthEntriesSpec` characterises it fully. |
| `AuthFacets.NonEmptyKeepsOrder` | src/app/public-api.service.ts:84-103 | Skipping empty buckets keeps the remaining buckets in order. |
| `AuthFacets.AuthFacetConfigDistinct` | src/app/public-api.service.ts:19-32 | The three configured bucket names are distinct. |
| `AuthFacets.RankIsPosition` | src/app/public-api.service.ts:19-32 | With distinct names, a bucket's rank is its position in the configuration. |
| `AuthFacets.BucketsInConfigOrder` | src/app/public-api.service.ts:84-103 | The facet entries follow the configuration order. |
| `AuthFacets.BucketsSound` | src/app/public-api.service.ts:84-103 | Every facet entry comes from a configured bucket and carries that bucket's label. Its count is positive and equals the bucket's count, and its `selected` flag is set iff ("auth", name) is selected. |
| `AuthFacets.BucketsComplete` | src/app/public-api.service.ts:84-103 | A configured bucket's entry appears iff its count is positive. |
| `AuthFacets.AuthEntriesSpec` | src/app/public-api.service.ts:19-103 | The "auth" entries are at most three, non-empty and correctly selected, each with its configured label. Each configured bucket appears iff its count is positive, in the order OAuth, apiKey, null. |
| `AuthFacets.BucketCountsCoverEntries` | src/app/public-api.service.ts:84-89 | The three bucket counts sum to at most the number of entries. They sum to exactly that number iff every entry's key is a configured name, so an unknown Auth is counted in no bucket. |
| `AuthFacets.NonEmptyKeepsSum` | src/app/public-api.service.ts:90-102 | Dropping empty buckets does not change the total count. |
| `AuthFacets.AllBucketsSum` | src/app/public-api.service.ts:84-89 | Over all three configured buckets, empty or not, the counts add up to the OAuth, apiKey and null counts. |
| `AuthFacets.AuthEntriesTotal` | src/app/public-api.service.ts:83-103 | The counts shown in the "auth" group sum to at most the number of entries, with equality iff every key is configured. |
| `QueryParams.BuildParams` | src/app/public-api.service.ts:40-44 | The parameter keys are `title` plus the selected facet names. Each facet name maps to the entry name of the last selected facet with that name. `title` maps to the keyword unless a facet is itself named `title`. |
| `QueryParams.ParamsValueIsLastSelected` | src/app/public-api.service.ts:42-44 | Every selected facet name has a last facet of that name, and the parameter holds that facet's entry name. |
| `QueryParams.ParamsIgnoreOrder` | src/app/public-api.service.ts:40-44 | When no facet name is selected twice, the order of the selection does not change the parameters. |
| `QueryParams.SameNameKeepsLast` | src/app/public-api.service.ts:42-44 | When two buckets of one facet are selected, only the later one is sent. |
| `SearchAdapter.Adapt` | src/app/public-api.service.ts:49-115 | The metadata is always numFound = numShowed = count, the keyword echoed back, and timeTaken 500. With a positive count there is one card per entry in backend order, a single group "auth"/"Authentication" holding the auth entries, and the selection is kept. Otherwise results, facets and selection are all empty. |
| `SearchAdapter.AdaptedCardsShowEntries` | src/app/public-api.service.ts:58-82 | Card i reads back as the content of raw entry i. |
| `SearchAdapter.AdaptedFacetCountsBounded` | src/app/public-api.service.ts:83-110 | The auth group's counts sum to at most the number of cards. |
| `SearchAdapter.AdaptIdempotent` | src/app/public-api.service.ts:56-115 | Adapting again with the selection the adapter left behind gives the same output. |
| `SearchAdapter.StartSearch` | src/app/public-api.service.ts:38-44 | Starting a search turns loading on and changes nothing else. The parameters are `title` plus the selected facet names. `title` carries the keyword unless a facet is itself named `title`, and each facet name carries the entry name of the last selected facet with that name. |
| `SearchAdapter.CompleteSearch` | src/app/public-api.service.ts:45-116 | When the response arrives, loading is off on both count branches. The metadata is numFound = numShowed = count, the keyword, and timeTaken 500. With a positive count the results are the entries' cards in order, the facets are the single "auth"/"Authentication" group of auth entries, and the selection is kept. Otherwise results, facets and selection are empty. When the request fails, the state is left exactly as it was, since the subscription has no error callback. |
| `SearchAdapter.SearchRoundStable` | src/app/public-api.service.ts:38-116 | A search round whose response arrives ends with loading off. Repeating it with the same keyword and response leaves the state unchanged. |
| `SearchAdapter.FailedSearchStaysLoading` | src/app/public-api.service.ts:38-117 | A search round whose request fails ends with loading still on, and metadata, results, facets and selection unchanged. |
| `SearchAdapter.LiteralNullAuth` | src/app/public-api.service.ts:70-87 | An Auth equal to the text "null" falls in the no-authentication bucket, yet its badge reads "Authentication via null". |
| `SearchAdapter.SampleCards` | src/app/public-api.service.ts:58-82 | Sample of two entries: the first card has the "https" badge and says no authentication is needed; the second says "Authentication via apiKey". |
| `SearchAdapter.SampleCounts` | src/app/public-api.service.ts:85-89 | On that sample the counts are OAuth 0, apiKey 1, null 1. |
| `SearchAdapter.SampleFacets` | src/app/public-api.service.ts:83-103 | On that sample the auth entries are exactly apiKey (1) and null (1). There is no OAuth entry. |
| `Suggestions.SuggestionParams` | src/app/public-api.service.ts:134 | A suggestion request carries only `title` = keyword. |
| `Suggestions.ApiNames` | src/app/public-api.service.ts:143-144 | The names are the entries' `API` fields, in order. |
| `Suggestions.SliceEnd` | src/app/public-api.service.ts:145 | Where `slice(0, end)` stops on a list of length len: never past len. A non-negative end stops at end, or at len when end reaches past it. A negative end drops -end items from the end, or all of them when -end >= len. |
| `Suggestions.Suggest` | src/app/public-api.service.ts:138-147 | A list is produced iff a response arrived with count > 0; a fallback gives `undefined`. The list holds the first entries' API names, in order. For n >= 0 its length is min(n, number of entries); for n < 0 it is max(0, number of entries + n). |
| `Suggestions.SuggestMonotone` | src/app/public-api.service.ts:143-145 | Asking for more suggestions extends the list: fewer is a prefix of more. |
| `Suggestions.SuggestAll` | src/app/public-api.service.ts:143-145 | Asking for at least as many as there are entries yields every API name. |
| `Suggestions.NegativeCountDropsFromEnd` | src/app/public-api.service.ts:145 | A negative count follows JavaScript `slice`: asking for -1 of three entries gives the first two names. |

## Left out

- HTTP requests, the backend URL, the RxJS `timeout`, `catchError` and `subscribe` plumbing: I/O. A request becomes its parameter map, and a response is an argument (`SearchReply.Arrived` or `SearchReply.Failed` for a search, `SuggestionReply.Reply` or `SuggestionReply.Fallback` for suggestions).
- `getCategories` (src/app/public-api.service.ts:119-130): it passes the HTTP result through and logs it. This is I/O only.
- The UI library's `SearchService` store is not modelled beyond the fields the callback writes: `SearchAdapter.SearchState` keeps only the loading flag, metadata, results, facets and selection. The store's initial sentinel metadata is internal to the closed `@redlink/amsui` library.
- The library's empty `options` object on a facet group is not modelled.
- src/app/app.component.ts (breakpoints, router query parameters, `window.open`, translation, facet toggling, `paramsToSelectedFacets`) and src/app/app.module.ts (dependency injection, i18n loading): UI wiring, and calls into the internals of the closed `@redlink/amsui` library.
- Overlapping searches: the selection read when the response arrives is taken to be the one the request was built from, because concurrency is out of scope.
- `count` and `numberOfSuggestions` are JavaScript numbers. The model takes them as integers. A fractional or missing `numberOfSuggestions` (where `slice` would truncate or take everything) is not modelled.
- Malformed responses are outside the model, and the model's types rule them out.
- A missing `entries` with a positive `count` makes the code throw at src/app/public-api.service.ts:58. By then the metadata at :50 is already written, and loading stays on. With a non-positive `count` the else branch never reads `entries`.
- A truthy non-string `Auth` (a number, say) does not throw. The badge stringifies it ("Authentication via 5"), and the bucket comparison at :87-89 matches no bucket.
- A falsy non-string `Auth` (`0`, `false`, `NaN`) behaves like a missing one. The badge reads "No authentication needed", and the entry counts in the "null" bucket.
