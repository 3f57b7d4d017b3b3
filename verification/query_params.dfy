/**
  The query parameters of a search request (src/app/public-api.service.ts,
  `search`): `title` is set to the keyword, then every selected facet is set
  under its facet name. Setting a name that is already present replaces its
  value, so parameters form a map in which the last facet of a name wins.
 */
module QueryParams {
  import opened SearchView

  const TitleParam: string := "title"

  /** The facet names of a selection. */
  function FacetNames(selected: seq<SelectedFacet>): set<string>
  {
    set f | f in selected :: f.facetName
  }

  /** `selected[i]` is the last selected facet with its facet name. */
  predicate LastOfItsName(selected: seq<SelectedFacet>, i: int)
    requires 0 <= i < |selected|
  {
    forall j :: i < j < |selected| ==> selected[j].facetName != selected[i].facetName
  }

  /** The parameters after setting `title` and then each selected facet in
      order, as the source's `forEach` over the selection does. */
  function BuildParams(keyword: string, selected: seq<SelectedFacet>): (params: map<string, string>)
    ensures params.Keys == {TitleParam} + FacetNames(selected)
    ensures forall i :: 0 <= i < |selected| && LastOfItsName(selected, i) ==>
              params[selected[i].facetName] == selected[i].facetEntryName
    ensures TitleParam !in FacetNames(selected) ==> params[TitleParam] == keyword
  {
    if |selected| == 0 then map[TitleParam := keyword]
    else
      var init := selected[..|selected| - 1];
      var last := selected[|selected| - 1];
      assert selected == init + [last];
      assert FacetNames(selected) == FacetNames(init) + {last.facetName};
      var earlier := BuildParams(keyword, init);
      assert forall i :: 0 <= i < |init| && LastOfItsName(selected, i) ==> LastOfItsName(init, i);
      earlier[last.facetName := last.facetEntryName]
  }

  /** Every key other than `title` is a selected facet name, and the value of
      each selected facet name is the entry name of the last facet with that
      name; so a facet selected earlier under the same name is not sent. */
  lemma ParamsValueIsLastSelected(keyword: string, selected: seq<SelectedFacet>, name: string)
    requires name in FacetNames(selected)
    ensures exists i :: 0 <= i < |selected| && selected[i].facetName == name
                        && LastOfItsName(selected, i)
                        && BuildParams(keyword, selected)[name] == selected[i].facetEntryName
  {
    var i :| 0 <= i < |selected| && selected[i].facetName == name;
    while !LastOfItsName(selected, i)
      invariant 0 <= i < |selected| && selected[i].facetName == name
      decreases |selected| - i
    {
      var j :| i < j < |selected| && selected[j].facetName == name;
      i := j;
    }
  }

  /** No facet name occurs twice in the selection. */
  predicate UniqueNames(selected: seq<SelectedFacet>)
  {
    forall i, j :: 0 <= i < j < |selected| ==> selected[i].facetName != selected[j].facetName
  }

  /** When every facet name is selected at most once, the order of the
      selection does not matter to the parameters sent. */
  lemma ParamsIgnoreOrder(keyword: string, s1: seq<SelectedFacet>, s2: seq<SelectedFacet>)
    requires UniqueNames(s1) && UniqueNames(s2)
    requires forall f :: f in s1 <==> f in s2
    ensures BuildParams(keyword, s1) == BuildParams(keyword, s2)
  {
    var p1 := BuildParams(keyword, s1);
    var p2 := BuildParams(keyword, s2);
    assert FacetNames(s1) == FacetNames(s2);
    assert p1.Keys == p2.Keys;
    forall k | k in p1
      ensures p1[k] == p2[k]
    {
      if k in FacetNames(s1) {
        var i :| 0 <= i < |s1| && s1[i].facetName == k;
        var j :| 0 <= j < |s2| && s2[j] == s1[i];
        assert LastOfItsName(s1, i) && LastOfItsName(s2, j);
      }
    }
  }

  /** Two buckets selected under one facet name: only the later one is sent. */
  lemma SameNameKeepsLast(keyword: string)
    ensures BuildParams(keyword, [SelectedFacet("auth", "OAuth"), SelectedFacet("auth", "apiKey")])
            == map[TitleParam := keyword, "auth" := "apiKey"]
  {
  }
}
