/** The optional value used for JavaScript's `undefined` / `null`. */
module Wrappers {

  datatype Option<+T> = None | Some(value: T)
}

/**
  The backend's record types (src/app/public-api.type.ts): one directory
  entry and the response of the `entries` endpoint.
 */
module PublicApiTypes {
  import opened Wrappers

  /** One raw directory record. The JSON fields are `API`, `Description`,
      `Auth`, `HTTPS`, `Cors`, `Link` and `Category`; `Auth` may be missing
      or null, which is `None` here. */
  datatype RawEntry = RawEntry(
    api: string,
    description: string,
    auth: Option<string>,
    https: bool,
    cors: string,
    link: string,
    category: string)

  /** The body of `GET entries`. The `count` the backend reports is kept apart
      from the list: the adapter branches on the one and maps over the other. */
  datatype ApiResponse = ApiResponse(count: int, entries: seq<RawEntry>)

  /** JavaScript truthiness of a string that may be absent: a missing value and
      the empty string are both falsy. */
  predicate Truthy(s: Option<string>)
  {
    s.Some? && s.value != ""
  }
}

/**
  The view-model records of the search UI library the service feeds: result
  cards with their badges and actions, facet groups, the selected facets and
  the result metadata. Only the fields the service writes are kept.
 */
module SearchView {

  /** A badge shown under a result's title. */
  datatype SubTitle = SubTitle(name: string, icon: string, description: string)

  /** A button on a result card. */
  datatype Action = Action(icon: string, name: string)

  /** One result card. `id` carries the entry's external link. */
  datatype ResultEntry = ResultEntry(
    title: string,
    description: string,
    subTitles: seq<SubTitle>,
    tags: seq<string>,
    actions: seq<Action>,
    id: string)

  /** One selectable bucket of a facet group. */
  datatype FacetEntry = FacetEntry(
    name: string,
    viewName: string,
    numberOfResults: nat,
    selected: bool)

  /** A facet group; the library's empty `options` object is not kept. */
  datatype Facet = Facet(name: string, screenName: string, entries: seq<FacetEntry>)

  /** A facet bucket the user has switched on. */
  datatype SelectedFacet = SelectedFacet(facetName: string, facetEntryName: string)

  datatype SearchResultMeta = SearchResultMeta(
    numFound: int,
    keyword: string,
    timeTaken: int,
    numShowed: int)
}
