/** The feed management page: searching and ordering the active feeds,
    counting them, listing the catalogue of available feeds by category,
    and the icon shown for each category. */
module FeedManagement {
  import opened Wrappers
  import opened Seqs
  import opened Text

  /** A feed the aggregator knows, as the feeds endpoint lists it. */
  datatype Feed = Feed(name: string, url: string, category: string, hidden: bool)

  /** A feed in the catalogue of available feeds, listed under a category. */
  datatype CatalogFeed = CatalogFeed(name: string, url: string)

  /** A catalogue feed copied with its category attached (`{ ...feed, category }`). */
  datatype ShownFeed = ShownFeed(name: string, url: string, category: string)

  /** The catalogue object: category keys with their feed lists, in the order
      `Object.entries` yields them. */
  type Catalog = seq<(string, seq<CatalogFeed>)>

  /** An object has each key once. */
  ghost predicate UniqueKeys(catalog: Catalog)
  {
    forall i, j :: 0 <= i < j < |catalog| ==> catalog[i].0 != catalog[j].0
  }

  const AllCategories: string := "all"

  // ---------------------------------------------------------------------------
  // Active feeds

  /** The search of the active-feeds tab: name, URL or category. */
  predicate ActiveMatches(term: string, f: Feed)
  {
    term == [] || Contains(Lower(f.name), term) || Contains(Lower(f.url), term) || Contains(Lower(f.category), term)
  }

  /** The feeds the active-feeds search keeps, in their original order. */
  function SearchActive(feeds: seq<Feed>, term: string): (r: seq<Feed>)
    ensures IsSubsequence(r, feeds)
    ensures forall f :: f in r <==> f in feeds && ActiveMatches(term, f)
    ensures term == [] ==> r == feeds
    ensures forall f :: multiset(r)[f] == if ActiveMatches(term, f) then multiset(feeds)[f] else 0
  {
    var keep := f => ActiveMatches(term, f);
    FilterIsSubsequence(feeds, keep);
    FilterMultiset(feeds, keep);
    Filter(feeds, keep)
  }

  predicate IsVisible(f: Feed) { !f.hidden }

  predicate IsHidden(f: Feed) { f.hidden }

  /** The comparator given to `sort`: visible feeds before hidden ones, equal otherwise. */
  function CompareFeeds(a: Feed, b: Feed): (r: int)
    ensures r == 0 <==> a.hidden == b.hidden
    ensures r < 0 <==> IsVisible(a) && IsHidden(b)
    ensures r > 0 <==> IsHidden(a) && IsVisible(b)
  {
    if a.hidden == b.hidden then 0 else if a.hidden then 1 else -1
  }

  /** The arrangement a stable sort with `CompareFeeds` produces: the visible
      feeds in their order, then the hidden feeds in theirs. */
  function VisibleFirst(feeds: seq<Feed>): (r: seq<Feed>)
    ensures multiset(r) == multiset(feeds)
  {
    FilterSplitMultiset(feeds, IsVisible, IsHidden);
    Filter(feeds, IsVisible) + Filter(feeds, IsHidden)
  }

  /** The arrangement is ordered by the comparator, is a permutation of its
      input, and keeps the input order within each group. */
  lemma VisibleFirstSorts(feeds: seq<Feed>)
    ensures var r := VisibleFirst(feeds);
      (forall i, j :: 0 <= i < j < |r| ==> CompareFeeds(r[i], r[j]) <= 0) &&
      multiset(r) == multiset(feeds) &&
      Filter(r, IsVisible) == Filter(feeds, IsVisible) &&
      Filter(r, IsHidden) == Filter(feeds, IsHidden)
  {
    var vis, hid := Filter(feeds, IsVisible), Filter(feeds, IsHidden);
    var r := vis + hid;
    forall i, j | 0 <= i < j < |r| ensures CompareFeeds(r[i], r[j]) <= 0 {
      if i < |vis| {
        assert vis[i] in vis;
      } else {
        assert r[i] == hid[i - |vis|] && hid[i - |vis|] in hid;
        assert r[j] == hid[j - |vis|] && hid[j - |vis|] in hid;
      }
    }
    FilterSplitMultiset(feeds, IsVisible, IsHidden);
    FilterConcat(vis, hid, IsVisible);
    FilterConcat(vis, hid, IsHidden);
    FilterIdempotent(feeds, IsVisible);
    FilterIdempotent(feeds, IsHidden);
    FilterNone(hid, IsVisible);
    FilterNone(vis, IsHidden);
  }

  /** Any ordering by the comparator that keeps each group's order is this
      arrangement: so it is exactly what the stable `Array.prototype.sort` yields. */
  lemma VisibleFirstUnique(feeds: seq<Feed>, sorted: seq<Feed>)
    requires forall i, j :: 0 <= i < j < |sorted| ==> CompareFeeds(sorted[i], sorted[j]) <= 0
    requires Filter(sorted, IsVisible) == Filter(feeds, IsVisible)
    requires Filter(sorted, IsHidden) == Filter(feeds, IsHidden)
    ensures sorted == VisibleFirst(feeds)
  {
    assert PartitionedBy(sorted, IsVisible) by {
      forall i, j | 0 <= i < j < |sorted| && IsVisible(sorted[j]) ensures IsVisible(sorted[i]) {
        assert CompareFeeds(sorted[i], sorted[j]) <= 0;
      }
    }
    PartitionedIsSplit(sorted, IsVisible, IsHidden);
  }

  /** The count shown on the active tab: feeds not hidden. */
  function ActiveCount(feeds: seq<Feed>): (r: nat)
    ensures r <= |feeds|
    ensures r == |feeds| <==> forall i :: 0 <= i < |feeds| ==> IsVisible(feeds[i])
  {
    FilterSplitMultiset(feeds, IsVisible, IsHidden);
    assert |multiset(Filter(feeds, IsVisible))| + |multiset(Filter(feeds, IsHidden))| == |multiset(feeds)|;
    assert Filter(feeds, IsHidden) == [] ==> forall i :: 0 <= i < |feeds| ==> IsVisible(feeds[i]) by {
      if Filter(feeds, IsHidden) == [] {
        forall i | 0 <= i < |feeds|
          ensures IsVisible(feeds[i])
        {
          assert feeds[i] in feeds;
        }
      }
    }
    |Filter(feeds, IsVisible)|
  }

  /** The count is the number of visible feeds: together with the hidden ones
      they make up the whole list, and after ordering the visible feeds are
      exactly the first `ActiveCount` positions. */
  lemma ActiveCountSplits(feeds: seq<Feed>)
    ensures ActiveCount(feeds) + |Filter(feeds, IsHidden)| == |feeds|
    ensures var r := VisibleFirst(feeds);
      forall i :: 0 <= i < |r| ==> (r[i].hidden <==> i >= ActiveCount(feeds))
  {
    FilterSplitMultiset(feeds, IsVisible, IsHidden);
    assert |multiset(Filter(feeds, IsVisible))| + |multiset(Filter(feeds, IsHidden))| == |multiset(feeds)|;
    var vis, hid := Filter(feeds, IsVisible), Filter(feeds, IsHidden);
    var r := vis + hid;
    forall i | 0 <= i < |r| ensures r[i].hidden <==> i >= |vis| {
      if i < |vis| {
        assert vis[i] in vis;
      } else {
        assert r[i] == hid[i - |vis|] && hid[i - |vis|] in hid;
      }
    }
  }

  // ---------------------------------------------------------------------------
  // Available feeds

  /** Each feed of a list, tagged with `category`. */
  function Tagged(feeds: seq<CatalogFeed>, category: string): (r: seq<ShownFeed>)
    ensures |r| == |feeds|
    ensures forall k :: 0 <= k < |feeds| ==> r[k] == ShownFeed(feeds[k].name, feeds[k].url, category)
  {
    if feeds == [] then []
    else Tagged(feeds[..|feeds| - 1], category) + [ShownFeed(feeds[|feeds| - 1].name, feeds[|feeds| - 1].url, category)]
  }

  /** The 'all' view: every category's feeds, tagged, in key order. */
  function Flatten(catalog: Catalog): (r: seq<ShownFeed>)
    ensures forall f :: f in r ==> Listed(catalog, f)
  {
    if catalog == [] then []
    else Flatten(catalog[..|catalog| - 1]) + Tagged(catalog[|catalog| - 1].1, catalog[|catalog| - 1].0)
  }

  /** `f` is a feed of the catalogue, tagged with the key it is listed under. */
  predicate Listed(catalog: Catalog, f: ShownFeed)
  {
    exists i :: 0 <= i < |catalog| && f.category == catalog[i].0 && CatalogFeed(f.name, f.url) in catalog[i].1
  }

  /** `allAvailableFeeds[key]`: the list under `key`, if any. */
  function Lookup(catalog: Catalog, key: string): (r: Option<seq<CatalogFeed>>)
    ensures r.None? <==> forall i :: 0 <= i < |catalog| ==> catalog[i].0 != key
    ensures r.Some? ==> exists i :: 0 <= i < |catalog| && catalog[i] == (key, r.value)
  {
    if catalog == [] then None
    else if catalog[0].0 == key then Some(catalog[0].1)
    else Lookup(catalog[1..], key)
  }

  /** The list built before the search is applied. */
  function AvailableList(catalog: Catalog, category: string): (r: seq<ShownFeed>)
    ensures category != AllCategories ==> forall f :: f in r ==> f.category == category
    ensures category != AllCategories && (forall i :: 0 <= i < |catalog| ==> catalog[i].0 != category) ==> r == []
  {
    if category == AllCategories then Flatten(catalog)
    else Tagged(Lookup(catalog, category).GetOr([]), category)
  }

  /** The search of the available-feeds tab: name or URL only. */
  predicate AvailableMatches(term: string, f: ShownFeed)
  {
    Contains(Lower(f.name), term) || Contains(Lower(f.url), term)
  }

  /** What the available-feeds tab shows for the selected category and search term. */
  function AvailableView(catalog: Catalog, category: string, term: string): (r: seq<ShownFeed>)
    ensures IsSubsequence(r, AvailableList(catalog, category))
    ensures forall f :: f in r <==>
      f in AvailableList(catalog, category) && (term == [] || AvailableMatches(term, f))
    ensures term == [] ==> r == AvailableList(catalog, category)
    ensures forall f :: (multiset(r)[f] ==
      if term == [] || AvailableMatches(term, f) then multiset(AvailableList(catalog, category))[f] else 0)
  {
    var list := AvailableList(catalog, category);
    var keep := f => AvailableMatches(term, f);
    FilterIsSubsequence(list, keep);
    FilterMultiset(list, keep);
    if term != [] then Filter(list, keep) else list
  }

  function TotalFeeds(catalog: Catalog): nat
  {
    if catalog == [] then 0 else TotalFeeds(catalog[..|catalog| - 1]) + |catalog[|catalog| - 1].1|
  }

  /** The 'all' view lists as many feeds as the catalogue holds. */
  lemma {:induction false} FlattenLength(catalog: Catalog)
    ensures |Flatten(catalog)| == TotalFeeds(catalog)
  {
    if catalog != [] {
      FlattenLength(catalog[..|catalog| - 1]);
    }
  }

  /** The 'all' view of a joined catalogue is the view of each part, in order. */
  lemma {:induction false} FlattenConcat(front: Catalog, back: Catalog)
    ensures Flatten(front + back) == Flatten(front) + Flatten(back)
    decreases |back|
  {
    if back == [] {
      assert front + back == front;
    } else {
      var all := front + back;
      var shorter := back[..|back| - 1];
      var last := back[|back| - 1];
      assert all[..|all| - 1] == front + shorter;
      assert all[|all| - 1] == last;
      FlattenConcat(front, shorter);
      assert Flatten(all) == Flatten(front + shorter) + Tagged(last.1, last.0);
      assert Flatten(back) == Flatten(shorter) + Tagged(last.1, last.0);
      ConcatAssoc(Flatten(front), Flatten(shorter), Tagged(last.1, last.0));
    }
  }

  /** A selected category shows exactly its own feeds, tagged with it; an
      unknown one shows nothing. */
  lemma SingleCategoryView(catalog: Catalog, category: string)
    requires UniqueKeys(catalog) && category != AllCategories
    ensures forall i :: 0 <= i < |catalog| && catalog[i].0 == category ==>
      AvailableList(catalog, category) == Tagged(catalog[i].1, category)
    ensures (forall i :: 0 <= i < |catalog| ==> catalog[i].0 != category) ==>
      AvailableList(catalog, category) == []
  {
    var r := Lookup(catalog, category);
    if r.Some? {
      var k :| 0 <= k < |catalog| && catalog[k] == (category, r.value);
      forall i | 0 <= i < |catalog| && catalog[i].0 == category
        ensures AvailableList(catalog, category) == Tagged(catalog[i].1, category)
      {
        assert i == k;
      }
    }
  }

  /** Searching a selected category finds the matching feeds of that
      category's own list, and nothing when the key is unknown. */
  lemma SingleCategorySearch(catalog: Catalog, category: string, term: string)
    requires UniqueKeys(catalog) && category != AllCategories
    ensures forall i :: 0 <= i < |catalog| && catalog[i].0 == category ==>
      forall f :: f in AvailableView(catalog, category, term) <==>
        f in Tagged(catalog[i].1, category) && AvailableMatches(term, f)
    ensures (forall i :: 0 <= i < |catalog| ==> catalog[i].0 != category) ==>
      AvailableView(catalog, category, term) == []
  {
    SingleCategoryView(catalog, category);
  }

  /** `isAdded` in `createAvailableFeedCard`: some active feed has the same URL. */
  function IsAdded(active: seq<Feed>, url: string): (r: bool)
    ensures r <==> exists i :: 0 <= i < |active| && active[i].url == url
  {
    if active == [] then false
    else active[0].url == url || IsAdded(active[1..], url)
  }

  // ---------------------------------------------------------------------------
  // Page state

  /** The module-level state of the page, and the handlers that read or change it. */
  class FeedsPage {
    var allActiveFeeds: seq<Feed>
    var allAvailableFeeds: Catalog
    var currentCategory: string

    ghost predicate Valid()
      reads this
    {
      UniqueKeys(allAvailableFeeds)
    }

    constructor ()
      ensures Valid()
      ensures allActiveFeeds == [] && allAvailableFeeds == [] && currentCategory == AllCategories
    {
      allActiveFeeds := [];
      allAvailableFeeds := [];
      currentCategory := AllCategories;
    }

    /** `loadActiveFeeds`: store the delivered list, or the empty list when the
        response has none, and report how many feeds are not hidden. */
    method LoadActiveFeeds(delivered: Option<seq<Feed>>) returns (activeCount: nat)
      requires Valid()
      modifies this`allActiveFeeds
      ensures Valid()
      ensures allActiveFeeds == delivered.GetOr([])
      ensures activeCount == ActiveCount(allActiveFeeds)
    {
      allActiveFeeds := delivered.GetOr([]);
      activeCount := |Filter(allActiveFeeds, IsVisible)|;
    }

    /** `loadAvailableFeeds`: store the delivered catalogue, or the empty one. */
    method LoadAvailableFeeds(delivered: Option<Catalog>)
      requires delivered.Some? ==> UniqueKeys(delivered.value)
      modifies this`allAvailableFeeds
      ensures Valid()
      ensures allAvailableFeeds == delivered.GetOr([])
    {
      allAvailableFeeds := delivered.GetOr([]);
    }

    /** The category buttons of the available-feeds tab. */
    method SelectCategory(category: string)
      requires Valid()
      modifies this`currentCategory
      ensures Valid()
      ensures currentCategory == category
    {
      currentCategory := category;
    }

    /** The cards `renderActiveFeeds` draws for the search box text `input`:
        the matching feeds, visible ones first, each group in list order. */
    method RenderActiveFeeds(input: string) returns (shown: seq<Feed>)
      ensures var filtered := SearchActive(allActiveFeeds, Lower(input));
        multiset(shown) == multiset(filtered) &&
        (forall i, j :: 0 <= i < j < |shown| ==> CompareFeeds(shown[i], shown[j]) <= 0) &&
        Filter(shown, IsVisible) == Filter(filtered, IsVisible) &&
        Filter(shown, IsHidden) == Filter(filtered, IsHidden)
      ensures forall f :: f in shown <==> f in allActiveFeeds && ActiveMatches(Lower(input), f)
    {
      var searchTerm := Lower(input);
      var filtered := SearchActive(allActiveFeeds, searchTerm);
      shown := VisibleFirst(filtered);
      VisibleFirstSorts(filtered);
      assert forall f :: f in shown <==> f in filtered by {
        assert forall f :: f in multiset(shown) <==> f in multiset(filtered);
      }
    }

    /** The cards `renderAvailableFeeds` draws for the search box text `input`,
        built by the nested loops of the source and then searched. A selected
        category shows the matching feeds of its own list only, and a key the
        catalogue lacks shows none. */
    method RenderAvailableFeeds(input: string) returns (feedsToShow: seq<ShownFeed>)
      requires Valid()
      ensures feedsToShow == AvailableView(allAvailableFeeds, currentCategory, Lower(input))
      ensures currentCategory != AllCategories ==>
        forall i :: 0 <= i < |allAvailableFeeds| && allAvailableFeeds[i].0 == currentCategory ==>
          forall f :: f in feedsToShow <==>
            f in Tagged(allAvailableFeeds[i].1, currentCategory) && AvailableMatches(Lower(input), f)
      ensures currentCategory != AllCategories ==>
        (forall i :: 0 <= i < |allAvailableFeeds| ==> allAvailableFeeds[i].0 != currentCategory) ==>
          feedsToShow == []
    {
      feedsToShow := RenderAvailableList(input);
      if currentCategory != AllCategories {
        SingleCategorySearch(allAvailableFeeds, currentCategory, Lower(input));
      }
    }

    /** The nested loops of `renderAvailableFeeds`, then the search. */
    method RenderAvailableList(input: string) returns (feedsToShow: seq<ShownFeed>)
      ensures feedsToShow == AvailableView(allAvailableFeeds, currentCategory, Lower(input))
    {
      var searchTerm := Lower(input);
      var catalog := allAvailableFeeds;
      feedsToShow := [];
      if currentCategory == AllCategories {
        var i := 0;
        while i < |catalog|
          invariant 0 <= i <= |catalog|
          invariant feedsToShow == Flatten(catalog[..i])
        {
          var category, feeds := catalog[i].0, catalog[i].1;
          var j := 0;
          while j < |feeds|
            invariant 0 <= j <= |feeds|
            invariant feedsToShow == Flatten(catalog[..i]) + Tagged(feeds[..j], category)
          {
            assert feeds[..j + 1][..j] == feeds[..j];
            feedsToShow := feedsToShow + [ShownFeed(feeds[j].name, feeds[j].url, category)];
            j := j + 1;
          }
          assert feeds[..j] == feeds;
          assert catalog[..i + 1][..i] == catalog[..i];
          i := i + 1;
        }
        assert catalog[..i] == catalog;
      } else {
        var feeds := Lookup(catalog, currentCategory).GetOr([]);
        var j := 0;
        while j < |feeds|
          invariant 0 <= j <= |feeds|
          invariant feedsToShow == Tagged(feeds[..j], currentCategory)
        {
          assert feeds[..j + 1][..j] == feeds[..j];
          feedsToShow := feedsToShow + [ShownFeed(feeds[j].name, feeds[j].url, currentCategory)];
          j := j + 1;
        }
        assert feeds[..j] == feeds;
      }
      if searchTerm != [] {
        feedsToShow := Filter(feedsToShow, f => AvailableMatches(searchTerm, f));
      }
    }

    /** Whether the card of an available feed with `url` shows "Already Added". */
    function CardIsAdded(url: string): (r: bool)
      reads this
      ensures r <==> exists i :: 0 <= i < |allActiveFeeds| && allActiveFeeds[i].url == url
    {
      IsAdded(allActiveFeeds, url)
    }
  }

  // ---------------------------------------------------------------------------
  // getCategoryIcon

  /** The icon table of `getCategoryIcon`. */
  const Icons: map<string, string> := map[
    "Technology" := "microchip",
    "Finance" := "chart-line",
    "General News" := "newspaper",
    "Sports" := "football-ball",
    "Science" := "flask",
    "Business" := "briefcase",
    "Entertainment" := "film",
    "Health" := "heartbeat"]

  const DefaultIcon: string := "rss"

  /** The icon name of a category: the listed icon, and `rss` for any other
      category whatever its name. */
  function GetCategoryIcon(category: string): (r: string)
    ensures category in Icons ==> r == Icons[category]
    ensures r == DefaultIcon <==> category !in Icons
    ensures r != []
  {
    if category in Icons then Icons[category] else DefaultIcon
  }

  /** A JavaScript value, as far as the icon lookup needs one. */
  datatype JsValue = Undefined | Str(s: string) | NativeFunction(name: string) | PrototypeObject

  /** The names every plain object inherits from `Object.prototype`, with the
      value a property read of that name finds there. */
  function Inherited(name: string): JsValue
  {
    if name == "__proto__" then PrototypeObject
    else if name == "constructor" then NativeFunction("Object")
    else if name in {"hasOwnProperty", "isPrototypeOf", "propertyIsEnumerable", "toLocaleString",
                     "toString", "valueOf", "__defineGetter__", "__defineSetter__",
                     "__lookupGetter__", "__lookupSetter__"}
    then NativeFunction(name)
    else Undefined
  }

  /** JavaScript truthiness of the values above. */
  predicate Truthy(v: JsValue)
  {
    match v
    case Undefined => false
    case Str(s) => s != []
    case _ => true
  }

  /** `icons[category] || 'rss'` as written: the property read also finds the
      names inherited from `Object.prototype`. */
  function GetCategoryIconAsWritten(category: string): (r: JsValue)
    ensures r == Str(DefaultIcon) <==> category !in Icons && !Truthy(Inherited(category))
    ensures category in Icons ==> r == Str(Icons[category])
    ensures category !in Icons && Truthy(Inherited(category)) ==> r == Inherited(category)
  {
    var found := if category in Icons then Str(Icons[category]) else Inherited(category);
    if Truthy(found) then found else Str(DefaultIcon)
  }

  /** The category "constructor" gets the `Object` function instead of `rss`. */
  lemma AsWrittenConstructorIsNotAnIcon()
    ensures GetCategoryIconAsWritten("constructor") == NativeFunction("Object")
    ensures GetCategoryIcon("constructor") == DefaultIcon
  {
    assert "constructor" !in Icons;
  }

  /** Outside the inherited names the written lookup and the intended one agree. */
  lemma AsWrittenAgreesElsewhere(category: string)
    requires Inherited(category) == Undefined
    ensures GetCategoryIconAsWritten(category) == Str(GetCategoryIcon(category))
  {
  }
}
