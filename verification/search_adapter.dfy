/**
  The handling of a search response (src/app/public-api.service.ts, the
  `subscribe` callback of `search`) as a pure function of the response, the
  keyword and the current facet selection, and one search round on the state
  the service writes.
 */
module SearchAdapter {
  import opened Wrappers
  import opened PublicApiTypes
  import opened SearchView
  import opened ResultMapping
  import opened AuthFacets
  import opened QueryParams

  /** The fixed elapsed-time figure the service reports. */
  const TimeTakenPlaceholder: int := 500

  /** What the callback writes: metadata, results, facet groups and the
      selection it leaves behind. */
  datatype Adapted = Adapted(
    meta: SearchResultMeta,
    results: seq<ResultEntry>,
    facets: seq<Facet>,
    selectedFacets: seq<SelectedFacet>)

  function ToResults(entries: seq<RawEntry>): seq<ResultEntry>
  {
    seq(|entries|, i requires 0 <= i < |entries| => ToResult(entries[i]))
  }

  /** The "auth" facet group of a response with results. */
  function AuthGroup(entries: seq<RawEntry>, selected: seq<SelectedFacet>): Facet
  {
    Facet(AuthFacetName, AuthScreenName, AuthEntries(entries, selected))
  }

  /** Adapts one response. The metadata is written whatever the count; a
      positive count yields one card per raw entry and the single "auth"
      group and keeps the selection; any other count clears results, facets
      and the selection. */
  function Adapt(response: ApiResponse, keyword: string, selected: seq<SelectedFacet>): (r: Adapted)
    ensures r.meta.numFound == response.count && r.meta.numShowed == response.count
    ensures r.meta.keyword == keyword && r.meta.timeTaken == TimeTakenPlaceholder
    ensures response.count > 0 ==>
              && |r.results| == |response.entries|
              && (forall i :: 0 <= i < |r.results| ==> r.results[i] == ToResult(response.entries[i]))
              && |r.facets| == 1
              && r.facets[0].name == AuthFacetName && r.facets[0].screenName == AuthScreenName
              && r.facets[0].entries == AuthEntries(response.entries, selected)
              && r.selectedFacets == selected
    ensures response.count <= 0 ==> r.results == [] && r.facets == [] && r.selectedFacets == []
  {
    var meta := SearchResultMeta(response.count, keyword, TimeTakenPlaceholder, response.count);
    if response.count > 0 then
      Adapted(meta, ToResults(response.entries), [AuthGroup(response.entries, selected)], selected)
    else
      Adapted(meta, [], [], [])
  }

  /** Every card of a response with results reads back as the content of the
      raw entry at the same position: backend order is kept and each card
      shows its entry's name, description, HTTPS flag, authentication,
      category and link. */
  lemma AdaptedCardsShowEntries(response: ApiResponse, keyword: string, selected: seq<SelectedFacet>)
    requires response.count > 0
    ensures var r := Adapt(response, keyword, selected);
      forall i :: 0 <= i < |r.results| ==> ReadCard(r.results[i]) == Some(Visible(response.entries[i]))
  {
    var r := Adapt(response, keyword, selected);
    forall i | 0 <= i < |r.results|
      ensures ReadCard(r.results[i]) == Some(Visible(response.entries[i]))
    {
      CardRoundTrip(response.entries[i]);
    }
  }

  /** The counts shown in the "auth" group add up to at most the number of
      cards of the response. */
  lemma AdaptedFacetCountsBounded(response: ApiResponse, keyword: string, selected: seq<SelectedFacet>)
    requires response.count > 0
    ensures var r := Adapt(response, keyword, selected);
      SumResults(r.facets[0].entries) <= |r.results|
  {
    AuthEntriesTotal(response.entries, selected);
  }

  /** Feeding the selection the callback leaves behind into the same
      response again changes nothing: adapting is idempotent. */
  lemma AdaptIdempotent(response: ApiResponse, keyword: string, selected: seq<SelectedFacet>)
    ensures var r := Adapt(response, keyword, selected);
      Adapt(response, keyword, r.selectedFacets) == r
  {
  }

  /** The state the search service holds: the loading flag, the metadata,
      the results, the facet groups and the selection. */
  datatype SearchState = SearchState(
    loading: bool,
    meta: SearchResultMeta,
    results: seq<ResultEntry>,
    facets: seq<Facet>,
    selectedFacets: seq<SelectedFacet>)

  /** The start of a search: loading is switched on and the request
      parameters are built from the keyword and the current selection. */
  function StartSearch(st: SearchState, keyword: string): (r: (SearchState, map<string, string>))
    ensures r.0.loading
    ensures r.0.(loading := st.loading) == st
    ensures r.1.Keys == {TitleParam} + FacetNames(st.selectedFacets)
    ensures TitleParam !in FacetNames(st.selectedFacets) ==> r.1[TitleParam] == keyword
    ensures forall i :: 0 <= i < |st.selectedFacets| && LastOfItsName(st.selectedFacets, i) ==>
              r.1[st.selectedFacets[i].facetName] == st.selectedFacets[i].facetEntryName
  {
    (st.(loading := true), BuildParams(keyword, st.selectedFacets))
  }

  /** The outcome of the `entries` request: the backend's body, or a failure.
      The subscription has no error callback, so a failure runs no code. */
  datatype SearchReply = Arrived(response: ApiResponse) | Failed

  /** The end of a search. On arrival the adapter's output replaces metadata,
      results, facets and selection, and loading is switched off on both
      count branches. On failure nothing runs: the state, loading flag
      included, stays as the start of the search left it. */
  function CompleteSearch(st: SearchState, keyword: string, reply: SearchReply): (r: SearchState)
    ensures reply.Failed? ==> r == st
    ensures reply.Arrived? ==>
              && !r.loading
              && r.meta.numFound == r.meta.numShowed == reply.response.count
              && r.selectedFacets == (if reply.response.count > 0 then st.selectedFacets else [])
              && (reply.response.count <= 0 ==> r.results == [] && r.facets == [])
              && r.meta.keyword == keyword && r.meta.timeTaken == TimeTakenPlaceholder
              && (reply.response.count > 0 ==>
                    && |r.results| == |reply.response.entries|
                    && (forall i :: 0 <= i < |r.results| ==> r.results[i] == ToResult(reply.response.entries[i]))
                    && r.facets == [Facet(AuthFacetName, AuthScreenName, AuthEntries(reply.response.entries, st.selectedFacets))])
  {
    match reply
    case Failed => st
    case Arrived(response) =>
      var a := Adapt(response, keyword, st.selectedFacets);
      SearchState(false, a.meta, a.results, a.facets, a.selectedFacets)
  }

  /** A search round whose response arrives ends with loading off, and a
      second round with the same keyword and the same response ends in the
      same state. */
  lemma SearchRoundStable(st: SearchState, keyword: string, response: ApiResponse)
    ensures var s1 := CompleteSearch(StartSearch(st, keyword).0, keyword, Arrived(response));
      && !s1.loading
      && CompleteSearch(StartSearch(s1, keyword).0, keyword, Arrived(response)) == s1
  {
  }

  /** A search round whose request fails leaves loading on and keeps the
      previous metadata, results, facets and selection on show. */
  lemma FailedSearchStaysLoading(st: SearchState, keyword: string)
    ensures var s1 := CompleteSearch(StartSearch(st, keyword).0, keyword, Failed);
      && s1.loading
      && s1.(loading := st.loading) == st
  {
  }

  /** An entry whose `Auth` is the text "null" is counted in the
      "No Authentication needed" bucket, while its card says it
      authenticates via "null": the bucket key and the badge disagree. */
  lemma LiteralNullAuth(e: RawEntry)
    requires e.auth == Some("null")
    ensures AuthKey(e) == "null"
    ensures ToResult(e).subTitles[|ToResult(e).subTitles| - 1].description == "Authentication via null"
  {
  }

  /** A sample response: two entries, the first without authentication and
      served over HTTPS, the second protected by an API key. */
  const SampleA: RawEntry := RawEntry("A", "", Some(""), true, "", "https://a", "x")
  const SampleB: RawEntry := RawEntry("B", "", Some("apiKey"), false, "", "https://b", "y")
  const SampleResponse: ApiResponse := ApiResponse(2, [SampleA, SampleB])

  /** The sample's cards: the first has the "https" badge and says no
      authentication is needed, the second names its API key. */
  lemma SampleCards(keyword: string)
    ensures var r := Adapt(SampleResponse, keyword, []);
      && |r.results| == 2
      && r.results[0].subTitles == [HttpsBadge, SubTitle("auth", "password", "No authentication needed")]
      && r.results[1].subTitles == [SubTitle("auth", "password", "Authentication via apiKey")]
  {
    var r := Adapt(SampleResponse, keyword, []);
    assert r.results[0] == ToResult(SampleA);
    assert r.results[1] == ToResult(SampleB);
    assert AuthViaPrefix + "apiKey" == "Authentication via apiKey";
  }

  /** The sample's bucket counts. */
  lemma SampleCounts()
    ensures CountAuth(SampleResponse.entries, "OAuth") == 0
    ensures CountAuth(SampleResponse.entries, "apiKey") == 1
    ensures CountAuth(SampleResponse.entries, "null") == 1
  {
  }

  /** The sample's "auth" group holds the apiKey and null buckets with one
      entry each, and no OAuth bucket. */
  lemma SampleFacets()
    ensures AuthEntries(SampleResponse.entries, [])
            == [FacetEntry("apiKey", "API Key", 1, false),
                FacetEntry("null", "No Authentication needed", 1, false)]
  {
    var oauth := FacetEntry("OAuth", "OAuth", 0, false);
    var apiKey := FacetEntry("apiKey", "API Key", 1, false);
    var none := FacetEntry("null", "No Authentication needed", 1, false);
    assert AllBuckets(AuthFacetConfig, SampleResponse.entries, []) == [oauth, apiKey, none] by {
      SampleCounts();
    }
    NonEmptyDropsFirst(oauth, apiKey, none);
  }
}
