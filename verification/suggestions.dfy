/**
  The autocomplete suggestions (src/app/public-api.service.ts,
  `getSearchSuggestions`): the request carries only the keyword as `title`;
  the response is mapped to the entries' API names cut to the requested
  number, or to no list at all.
 */
module Suggestions {
  import opened Wrappers
  import opened PublicApiTypes
  import opened QueryParams

  /** What reaches the mapping step: the backend's body, or the empty array
      the error handler substitutes after a failure or the ten-second timeout. */
  datatype SuggestionReply = Reply(response: ApiResponse) | Fallback

  /** The request parameters: only `title`, set to the typed keyword. */
  function SuggestionParams(keyword: string): (params: map<string, string>)
    ensures params == map[TitleParam := keyword]
  {
    BuildParams(keyword, [])
  }

  /** The API names of the entries, in backend order. */
  function ApiNames(entries: seq<RawEntry>): (names: seq<string>)
    ensures |names| == |entries|
    ensures forall i :: 0 <= i < |entries| ==> names[i] == entries[i].api
  {
    if |entries| == 0 then [] else [entries[0].api] + ApiNames(entries[1..])
  }

  /** Where JavaScript's `slice(0, end)` stops on a list of length `len`:
      a negative end counts back from the end of the list. */
  function SliceEnd(len: nat, end: int): (k: nat)
    ensures k <= len
    ensures 0 <= end ==> k == end || (k == len && len <= end)
    ensures end < 0 ==> len - k == -end || (k == 0 && len <= -end)
  {
    if end < 0 then (if len + end < 0 then 0 else len + end)
    else if end < len then end
    else len
  }

  /** The mapped suggestions. The fallback array has no `count`, so it
      compares as not positive and, like a response with no positive count,
      maps to `undefined` (`None`), not to an empty list. */
  function Suggest(reply: SuggestionReply, numberOfSuggestions: int): (r: Option<seq<string>>)
    ensures r.Some? <==> reply.Reply? && reply.response.count > 0
    ensures r.Some? ==>
              && |r.value| <= |reply.response.entries|
              && forall i :: 0 <= i < |r.value| ==> r.value[i] == reply.response.entries[i].api
    ensures r.Some? && 0 <= numberOfSuggestions ==>
              |r.value| == if numberOfSuggestions < |reply.response.entries|
                           then numberOfSuggestions else |reply.response.entries|
    ensures r.Some? && numberOfSuggestions < 0 ==>
              |r.value| == if |reply.response.entries| + numberOfSuggestions < 0
                           then 0 else |reply.response.entries| + numberOfSuggestions
  {
    match reply
    case Fallback => None
    case Reply(response) =>
      if response.count > 0 then
        var names := ApiNames(response.entries);
        Some(names[..SliceEnd(|names|, numberOfSuggestions)])
      else None
  }

  /** Asking for more suggestions extends the list: the shorter list is a
      prefix of the longer one. */
  lemma SuggestMonotone(reply: SuggestionReply, n: int, m: int)
    requires 0 <= n <= m
    requires reply.Reply? && reply.response.count > 0
    ensures Suggest(reply, n).value <= Suggest(reply, m).value
  {
  }

  /** Asking for at least as many suggestions as there are entries yields
      every API name. */
  lemma SuggestAll(reply: SuggestionReply, n: int)
    requires reply.Reply? && reply.response.count > 0
    requires |reply.response.entries| <= n
    ensures Suggest(reply, n) == Some(ApiNames(reply.response.entries))
  {
    var names := ApiNames(reply.response.entries);
    assert names[..|names|] == names;
  }

  /** JavaScript's `slice` with a negative end drops that many names from the
      end: asking for -1 suggestions of a response with three entries gives
      the first two names. */
  lemma NegativeCountDropsFromEnd(a: RawEntry, b: RawEntry, c: RawEntry)
    ensures Suggest(Reply(ApiResponse(3, [a, b, c])), -1) == Some([a.api, b.api])
  {
    assert ApiNames([a, b, c])[..2] == [a.api, b.api];
  }
}
