/**
  The mapping of one raw directory record to a result card
  (src/app/public-api.service.ts, the `entries.map` callback of `search`),
  together with a reader that recovers from a card what it shows of the record.
 */
module ResultMapping {
  import opened Wrappers
  import opened PublicApiTypes
  import opened SearchView

  const HttpsBadge: SubTitle := SubTitle("https", "https", "Secured via HTTPS")
  const AuthBadgeName: string := "auth"
  const AuthViaPrefix: string := "Authentication via "
  const NoAuthText: string := "No authentication needed"
  const GoToApi: Action := Action("launch", "Go to API")

  /** The badge text for an entry's `Auth` value. */
  function AuthDescription(auth: Option<string>): string
  {
    if Truthy(auth) then AuthViaPrefix + auth.value else NoAuthText
  }

  /** Whether a card carries a badge named "https" anywhere among its badges. */
  predicate HasHttpsBadge(r: ResultEntry)
  {
    exists i :: 0 <= i < |r.subTitles| && r.subTitles[i].name == "https"
  }

  /** The card for one raw entry: an optional "https" badge followed by the
      "auth" badge, the category as the only tag, one "Go to API" action, and
      the link as the card's id. */
  function ToResult(e: RawEntry): (r: ResultEntry)
    ensures r.title == e.api && r.description == e.description
    ensures r.tags == [e.category] && r.id == e.link
    ensures r.actions == [GoToApi]
    ensures |r.subTitles| == (if e.https then 2 else 1)
    ensures HasHttpsBadge(r) <==> e.https
    ensures e.https ==> r.subTitles[0] == HttpsBadge
    ensures r.subTitles[|r.subTitles| - 1].name == AuthBadgeName
    ensures r.subTitles[|r.subTitles| - 1].icon == "password"
    ensures Truthy(e.auth) ==> r.subTitles[|r.subTitles| - 1].description == AuthViaPrefix + e.auth.value
    ensures !Truthy(e.auth) ==> r.subTitles[|r.subTitles| - 1].description == NoAuthText
  {
    var authBadge := SubTitle(AuthBadgeName, "password", AuthDescription(e.auth));
    var subTitles := (if e.https then [HttpsBadge] else []) + [authBadge];
    assert AuthBadgeName[0] != HttpsBadge.name[0];
    assert e.https ==> subTitles[0].name == "https";
    assert !e.https ==> subTitles == [authBadge];
    ResultEntry(e.api, e.description, subTitles, [e.category], [GoToApi], e.link)
  }

  /** What a card still tells about its raw entry: every field but `Cors`,
      with a missing and an empty `Auth` both shown as "no authentication". */
  datatype CardContent = CardContent(
    api: string,
    description: string,
    https: bool,
    auth: Option<string>,
    category: string,
    link: string)

  function Visible(e: RawEntry): CardContent
  {
    CardContent(e.api, e.description, e.https,
                if Truthy(e.auth) then e.auth else None,
                e.category, e.link)
  }

  /** Reads a card back; `None` when the card does not have the shape
      `ToResult` produces. */
  function ReadCard(r: ResultEntry): Option<CardContent>
  {
    if |r.tags| != 1 || !(|r.subTitles| == 1 || |r.subTitles| == 2) then None
    else
      var https := |r.subTitles| == 2;
      var desc := r.subTitles[|r.subTitles| - 1].description;
      if desc == NoAuthText then
        Some(CardContent(r.title, r.description, https, None, r.tags[0], r.id))
      else if |AuthViaPrefix| < |desc| && desc[..|AuthViaPrefix|] == AuthViaPrefix then
        Some(CardContent(r.title, r.description, https, Some(desc[|AuthViaPrefix|..]), r.tags[0], r.id))
      else None
  }

  /** A card loses nothing of its entry but `Cors` and the difference between
      a missing and an empty `Auth`. */
  lemma CardRoundTrip(e: RawEntry)
    ensures ReadCard(ToResult(e)) == Some(Visible(e))
  {
    var r := ToResult(e);
    var desc := r.subTitles[|r.subTitles| - 1].description;
    if Truthy(e.auth) {
      assert desc == AuthViaPrefix + e.auth.value;
      assert desc[0] == 'A' != NoAuthText[0];
      assert desc[..|AuthViaPrefix|] == AuthViaPrefix;
      assert desc[|AuthViaPrefix|..] == e.auth.value;
    }
  }

  /** Two entries give the same card exactly when they agree on what a card shows. */
  lemma SameCardIffSameContent(e1: RawEntry, e2: RawEntry)
    ensures ToResult(e1) == ToResult(e2) <==> Visible(e1) == Visible(e2)
  {
    if ToResult(e1) == ToResult(e2) {
      CardRoundTrip(e1);
      CardRoundTrip(e2);
    }
    if Visible(e1) == Visible(e2) {
      assert e1.https == e2.https;
      assert AuthDescription(e1.auth) == AuthDescription(e2.auth);
    }
  }
}
