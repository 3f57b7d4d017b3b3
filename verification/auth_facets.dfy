/**
  The "auth" facet of a search (src/app/public-api.service.ts): the fixed list
  of authentication buckets, the count of entries per bucket, and the facet
  entries built from the buckets that are not empty.
 */
module AuthFacets {
  import opened PublicApiTypes
  import opened SearchView

  /** One configured bucket: the value matched against an entry's `Auth` and
      the label shown for it. */
  datatype AuthFacet = AuthFacet(name: string, viewName: string)

  const AuthFacetName: string := "auth"
  const AuthScreenName: string := "Authentication"

  /** The bucket configuration, in display order. The bucket "null" collects
      the entries without authentication. */
  const AuthFacetConfig: seq<AuthFacet> := [
    AuthFacet("OAuth", "OAuth"),
    AuthFacet("apiKey", "API Key"),
    AuthFacet("null", "No Authentication needed")
  ]

  /** The bucket key of an entry: its `Auth` when truthy, "null" otherwise. */
  function AuthKey(e: RawEntry): string
  {
    if Truthy(e.auth) then e.auth.value else "null"
  }

  /** The bucket keys of all entries, in order. */
  function AuthKeys(entries: seq<RawEntry>): (keys: seq<string>)
    ensures |keys| == |entries|
    ensures forall i :: 0 <= i < |entries| ==>
              && keys[i] != ""
              && (keys[i] == "null" <==> !Truthy(entries[i].auth) || entries[i].auth.value == "null")
              && (keys[i] != "null" ==> entries[i].auth.Some? && entries[i].auth.value == keys[i])
  {
    seq(|entries|, i requires 0 <= i < |entries| => AuthKey(entries[i]))
  }

  /** The keys equal to `name`, as the source's `filter` keeps them. */
  function KeepEqual(keys: seq<string>, name: string): (r: seq<string>)
    ensures forall k :: k in r ==> k == name
    ensures |r| == multiset(keys)[name]
  {
    if |keys| == 0 then []
    else
      assert keys == [keys[0]] + keys[1..];
      (if keys[0] == name then [keys[0]] else []) + KeepEqual(keys[1..], name)
  }

  /** The number of entries whose bucket key is `name`. */
  function CountAuth(entries: seq<RawEntry>, name: string): (n: nat)
    ensures n == multiset(AuthKeys(entries))[name]
    ensures n <= |entries|
  {
    |KeepEqual(AuthKeys(entries), name)|
  }

  /** Whether the selection holds the bucket `name` of the "auth" facet,
      scanning the selection as the source's `some` does. */
  function IsAuthSelected(selected: seq<SelectedFacet>, name: string): (b: bool)
    ensures b <==> SelectedFacet(AuthFacetName, name) in selected
  {
    if |selected| == 0 then false
    else if selected[0].facetName == AuthFacetName && selected[0].facetEntryName == name then true
    else
      assert selected == [selected[0]] + selected[1..];
      IsAuthSelected(selected[1..], name)
  }

  /** The facet entry a configured bucket yields. */
  function BucketEntry(c: AuthFacet, entries: seq<RawEntry>, selected: seq<SelectedFacet>): FacetEntry
  {
    FacetEntry(c.name, c.viewName, CountAuth(entries, c.name), IsAuthSelected(selected, c.name))
  }

  /** One facet entry per configured bucket, empty or not, in config order. */
  function AllBuckets(config: seq<AuthFacet>, entries: seq<RawEntry>, selected: seq<SelectedFacet>): seq<FacetEntry>
  {
    seq(|config|, i requires 0 <= i < |config| => BucketEntry(config[i], entries, selected))
  }

  /** The facet entries with a positive count, in their order: the source
      pushes an entry only when its count is positive. */
  function NonEmpty(fs: seq<FacetEntry>): (r: seq<FacetEntry>)
    ensures |r| <= |fs|
    ensures forall i :: 0 <= i < |r| ==> r[i].numberOfResults > 0
    ensures forall e :: e in r <==> e in fs && e.numberOfResults > 0
  {
    if |fs| == 0 then []
    else
      assert fs == [fs[0]] + fs[1..];
      (if fs[0].numberOfResults > 0 then [fs[0]] else []) + NonEmpty(fs[1..])
  }

  /** An empty first bucket is skipped and the two non-empty ones after it
      are kept, in order. */
  lemma NonEmptyDropsFirst(x: FacetEntry, y: FacetEntry, z: FacetEntry)
    requires x.numberOfResults == 0 && y.numberOfResults > 0 && z.numberOfResults > 0
    ensures NonEmpty([x, y, z]) == [y, z]
  {
  }

  /** The facet entries of the non-empty buckets of `config`, in config order. */
  function Buckets(config: seq<AuthFacet>, entries: seq<RawEntry>, selected: seq<SelectedFacet>): seq<FacetEntry>
  {
    NonEmpty(AllBuckets(config, entries, selected))
  }

  /** The entries of the "auth" facet group for one response. */
  function AuthEntries(entries: seq<RawEntry>, selected: seq<SelectedFacet>): (r: seq<FacetEntry>)
    ensures |r| <= |AuthFacetConfig|
    ensures forall i :: 0 <= i < |r| ==> r[i].numberOfResults > 0
  {
    Buckets(AuthFacetConfig, entries, selected)
  }

  /** The position of the first bucket called `name`, or |config| if none is. */
  function Rank(config: seq<AuthFacet>, name: string): nat
  {
    if |config| == 0 then 0
    else if config[0].name == name then 0
    else 1 + Rank(config[1..], name)
  }

  predicate DistinctNames(config: seq<AuthFacet>)
  {
    forall i, j :: 0 <= i < j < |config| ==> config[i].name != config[j].name
  }

  /** The entries' names occur in strictly increasing config position. */
  predicate InConfigOrder(config: seq<AuthFacet>, fs: seq<FacetEntry>)
  {
    forall i, j :: 0 <= i < j < |fs| ==> Rank(config, fs[i].name) < Rank(config, fs[j].name)
  }

  /** With distinct names, a bucket's rank is its position. */
  lemma {:induction false} RankIsPosition(config: seq<AuthFacet>, i: nat)
    requires DistinctNames(config) && i < |config|
    ensures Rank(config, config[i].name) == i
  {
    if i > 0 {
      var tail := config[1..];
      assert DistinctNames(tail) by {
        forall a, b | 0 <= a < b < |tail|
          ensures tail[a].name != tail[b].name
        {
          assert tail[a] == config[a + 1] && tail[b] == config[b + 1];
        }
      }
      assert tail[i - 1] == config[i];
      RankIsPosition(tail, i - 1);
    }
  }

  lemma PrependInOrder(config: seq<AuthFacet>, h: FacetEntry, rest: seq<FacetEntry>)
    requires InConfigOrder(config, rest)
    requires forall x :: x in rest ==> Rank(config, h.name) < Rank(config, x.name)
    ensures InConfigOrder(config, [h] + rest)
  {
  }

  /** Dropping the empty entries keeps the order of the rest. */
  lemma {:induction false} NonEmptyKeepsOrder(config: seq<AuthFacet>, fs: seq<FacetEntry>)
    requires InConfigOrder(config, fs)
    ensures InConfigOrder(config, NonEmpty(fs))
  {
    if |fs| > 0 {
      var tail := fs[1..];
      assert InConfigOrder(config, tail) by {
        forall i, j | 0 <= i < j < |tail|
          ensures Rank(config, tail[i].name) < Rank(config, tail[j].name)
        {
          assert tail[i] == fs[i + 1] && tail[j] == fs[j + 1];
        }
      }
      NonEmptyKeepsOrder(config, tail);
      var rest := NonEmpty(tail);
      if fs[0].numberOfResults > 0 {
        forall x | x in rest
          ensures Rank(config, fs[0].name) < Rank(config, x.name)
        {
          var k :| 0 <= k < |tail| && tail[k] == x;
          assert fs[k + 1] == x;
        }
        PrependInOrder(config, fs[0], rest);
      }
    }
  }

  /** With distinct bucket names, the facet entries come out in strictly
      increasing config position. */
  lemma BucketsInConfigOrder(config: seq<AuthFacet>, entries: seq<RawEntry>, selected: seq<SelectedFacet>)
    requires DistinctNames(config)
    ensures InConfigOrder(config, Buckets(config, entries, selected))
  {
    var all := AllBuckets(config, entries, selected);
    forall i | 0 <= i < |all|
      ensures Rank(config, all[i].name) == i
    {
      RankIsPosition(config, i);
    }
    NonEmptyKeepsOrder(config, all);
  }

  lemma AuthFacetConfigDistinct()
    ensures DistinctNames(AuthFacetConfig)
  {
  }

  /** Every facet entry of a configuration is one of its buckets, with a
      positive count, that bucket's label, and its selection state. */
  lemma BucketsSound(config: seq<AuthFacet>, entries: seq<RawEntry>, selected: seq<SelectedFacet>)
    ensures var r := Buckets(config, entries, selected);
      forall i :: 0 <= i < |r| ==>
        && r[i].numberOfResults == CountAuth(entries, r[i].name) > 0
        && (r[i].selected <==> SelectedFacet(AuthFacetName, r[i].name) in selected)
        && exists c :: c in config && c.name == r[i].name && c.viewName == r[i].viewName
  {
  }

  /** Every configured bucket with a positive count has its facet entry among
      the result, and no other bucket has. */
  lemma BucketsComplete(config: seq<AuthFacet>, entries: seq<RawEntry>, selected: seq<SelectedFacet>)
    ensures var r := Buckets(config, entries, selected);
      forall c :: c in config ==>
        (CountAuth(entries, c.name) > 0 <==> BucketEntry(c, entries, selected) in r)
  {
    var all := AllBuckets(config, entries, selected);
    forall c | c in config
      ensures BucketEntry(c, entries, selected) in all
    {
      var k :| 0 <= k < |config| && config[k] == c;
      assert all[k] == BucketEntry(c, entries, selected);
    }
  }

  /** The "auth" facet entries: exactly the configured buckets with a positive
      count, each carrying its label, its count and its selection state, in the
      configured order OAuth, apiKey, null. */
  lemma AuthEntriesSpec(entries: seq<RawEntry>, selected: seq<SelectedFacet>)
    ensures var r := AuthEntries(entries, selected);
      && |r| <= 3
      && (forall i :: 0 <= i < |r| ==>
            && r[i].numberOfResults == CountAuth(entries, r[i].name) > 0
            && (r[i].selected <==> SelectedFacet(AuthFacetName, r[i].name) in selected)
            && exists c :: c in AuthFacetConfig && c.name == r[i].name && c.viewName == r[i].viewName)
      && (forall c :: c in AuthFacetConfig ==>
            (CountAuth(entries, c.name) > 0 <==> BucketEntry(c, entries, selected) in r))
      && InConfigOrder(AuthFacetConfig, r)
  {
    var r := AuthEntries(entries, selected);
    assert forall i :: 0 <= i < |r| ==>
            && r[i].numberOfResults == CountAuth(entries, r[i].name) > 0
            && (r[i].selected <==> SelectedFacet(AuthFacetName, r[i].name) in selected)
            && exists c :: c in AuthFacetConfig && c.name == r[i].name && c.viewName == r[i].viewName
    by {
      BucketsSound(AuthFacetConfig, entries, selected);
    }
    assert forall c :: c in AuthFacetConfig ==>
            (CountAuth(entries, c.name) > 0 <==> BucketEntry(c, entries, selected) in r)
    by {
      BucketsComplete(AuthFacetConfig, entries, selected);
    }
    assert InConfigOrder(AuthFacetConfig, r) by {
      AuthFacetConfigDistinct();
      BucketsInConfigOrder(AuthFacetConfig, entries, selected);
    }
  }

  /** The configured bucket names. */
  const AuthBucketNames: set<string> := set c | c in AuthFacetConfig :: c.name

  /** Counts over three different names never exceed the number of keys, and
      reach it exactly when every key is one of them. */
  lemma {:induction false} ThreeCountsBound(keys: seq<string>, a: string, b: string, c: string)
    requires a != b && a != c && b != c
    ensures multiset(keys)[a] + multiset(keys)[b] + multiset(keys)[c] <= |keys|
    ensures multiset(keys)[a] + multiset(keys)[b] + multiset(keys)[c] == |keys|
            <==> forall i :: 0 <= i < |keys| ==> keys[i] in {a, b, c}
  {
    if |keys| > 0 {
      var t := keys[1..];
      assert keys == [keys[0]] + t;
      ThreeCountsBound(t, a, b, c);
      assert multiset(keys) == multiset{keys[0]} + multiset(t);
      if forall i :: 0 <= i < |t| ==> t[i] in {a, b, c} {
        if keys[0] in {a, b, c} {
          forall i | 0 <= i < |keys| ensures keys[i] in {a, b, c} {
            if i > 0 { assert keys[i] == t[i - 1]; }
          }
        }
      } else {
        var i :| 0 <= i < |t| && t[i] !in {a, b, c};
        assert keys[i + 1] == t[i];
      }
    }
  }

  /** The three bucket counts add up to at most the number of entries, and to
      exactly that number iff every entry's bucket key is a configured name:
      an `Auth` value outside the configuration is counted nowhere. */
  lemma BucketCountsCoverEntries(entries: seq<RawEntry>)
    ensures CountAuth(entries, "OAuth") + CountAuth(entries, "apiKey") + CountAuth(entries, "null") <= |entries|
    ensures CountAuth(entries, "OAuth") + CountAuth(entries, "apiKey") + CountAuth(entries, "null") == |entries|
            <==> forall i :: 0 <= i < |entries| ==> AuthKey(entries[i]) in AuthBucketNames
  {
    AuthFacetConfigDistinct();
    var keys := AuthKeys(entries);
    ThreeCountsBound(keys, "OAuth", "apiKey", "null");
    assert AuthBucketNames == {"OAuth", "apiKey", "null"} by {
      assert AuthFacetConfig[0].name == "OAuth";
      assert AuthFacetConfig[1].name == "apiKey";
      assert AuthFacetConfig[2].name == "null";
    }
  }

  /** An entry counts in a bucket exactly when its key names it: the count of
      `name` is the number of positions holding such an entry. */
  lemma {:induction false} CountAuthAppend(entries: seq<RawEntry>, e: RawEntry, name: string)
    ensures CountAuth(entries + [e], name) == CountAuth(entries, name) + (if AuthKey(e) == name then 1 else 0)
  {
    assert AuthKeys(entries + [e]) == AuthKeys(entries) + [AuthKey(e)];
  }

  /** The sum of the counts of some facet entries. */
  function SumResults(fs: seq<FacetEntry>): nat
  {
    if |fs| == 0 then 0 else fs[0].numberOfResults + SumResults(fs[1..])
  }

  /** Dropping the empty entries does not change the total count. */
  lemma {:induction false} NonEmptyKeepsSum(fs: seq<FacetEntry>)
    ensures SumResults(NonEmpty(fs)) == SumResults(fs)
  {
    if |fs| > 0 {
      NonEmptyKeepsSum(fs[1..]);
      var rest := NonEmpty(fs[1..]);
      if fs[0].numberOfResults > 0 {
        assert NonEmpty(fs) == [fs[0]] + rest;
        assert ([fs[0]] + rest)[1..] == rest;
      } else {
        assert NonEmpty(fs) == rest;
      }
    }
  }

  /** The counts of the "auth" facet entries add up to at most the number of
      entries, and to exactly that number iff every entry's bucket key is a
      configured name. */
  lemma AuthEntriesTotal(entries: seq<RawEntry>, selected: seq<SelectedFacet>)
    ensures SumResults(AuthEntries(entries, selected)) <= |entries|
    ensures SumResults(AuthEntries(entries, selected)) == |entries|
            <==> forall i :: 0 <= i < |entries| ==> AuthKey(entries[i]) in AuthBucketNames
  {
    NonEmptyKeepsSum(AllBuckets(AuthFacetConfig, entries, selected));
    AllBucketsSum(entries, selected);
    BucketCountsCoverEntries(entries);
  }

  /** Over all configured buckets, empty or not, the counts add up to the
      three bucket counts. */
  lemma AllBucketsSum(entries: seq<RawEntry>, selected: seq<SelectedFacet>)
    ensures SumResults(AllBuckets(AuthFacetConfig, entries, selected))
            == CountAuth(entries, "OAuth") + CountAuth(entries, "apiKey") + CountAuth(entries, "null")
  {
    var all := AllBuckets(AuthFacetConfig, entries, selected);
    assert all[1..][1..][1..] == [];
    assert SumResults(all[1..][1..]) == CountAuth(entries, "null");
    assert SumResults(all[1..]) == CountAuth(entries, "apiKey") + CountAuth(entries, "null");
  }
}
