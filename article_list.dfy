/** The article list page: the category and search filters over the loaded
    articles, and the pure helpers used when an article card is drawn. */
module ArticleList {
  import opened Wrappers
  import opened Seqs
  import opened Text

  /** One article as the articles endpoint delivers it. */
  datatype Article = Article(
    title: string, link: string, summary: string,
    category: string, site: string, published: string)

  /** The category button value that selects every article. */
  const AllCategories: string := "all"

  /** The search text is matched against the lower-cased title or summary. */
  predicate MatchesSearch(a: Article, search: string)
  {
    search == [] || Contains(Lower(a.title), search) || Contains(Lower(a.summary), search)
  }

  /** The test inside `applyFilters`. */
  predicate Keeps(category: string, search: string, a: Article)
  {
    (category == AllCategories || a.category == category) && MatchesSearch(a, search)
  }

  /** The articles `applyFilters` keeps, in their original order. */
  function FilterArticles(all: seq<Article>, category: string, search: string): (r: seq<Article>)
    ensures IsSubsequence(r, all)
    ensures forall a :: a in r <==> a in all && Keeps(category, search, a)
    ensures category == AllCategories && search == [] ==> r == all
    ensures forall a :: multiset(r)[a] == if Keeps(category, search, a) then multiset(all)[a] else 0
  {
    var keep := a => Keeps(category, search, a);
    FilterIsSubsequence(all, keep);
    FilterMultiset(all, keep);
    Filter(all, keep)
  }

  /** Once a category other than 'all' is chosen, every shown article belongs to it. */
  lemma FilterOneCategory(all: seq<Article>, category: string, search: string)
    requires category != AllCategories
    ensures forall i :: 0 <= i < |FilterArticles(all, category, search)| ==>
      FilterArticles(all, category, search)[i].category == category
  {
    var r := FilterArticles(all, category, search);
    forall i | 0 <= i < |r| ensures r[i].category == category {
      assert r[i] in r;
    }
  }

  /** The search text as `setSearch` stores it: lower-cased, then trimmed. */
  function NormalizeQuery(query: string): (r: string)
    ensures |r| <= |query|
    ensures forall i :: 0 <= i < |r| ==> !IsUpper(r[i])
    ensures Lower(r) == r
  {
    LowerIsLower(query);
    TrimOfLowerIsLower(Lower(query));
    Trim(Lower(query))
  }

  /** Lower-casing keeps whitespace where it was, so it commutes with trimming
      a string that is already lower-case. */
  lemma TrimOfLowerIsLower(l: string)
    requires forall k :: 0 <= k < |l| ==> !IsUpper(l[k])
    ensures forall k :: 0 <= k < |Trim(l)| ==> !IsUpper(Trim(l)[k])
    ensures Lower(Trim(l)) == Trim(l)
  {
    var q := Trim(l);
    var i, j := TrimIsInterior(l);
    assert forall k :: 0 <= k < |q| ==> q[k] == l[i + k];
  }

  /** A stored search has no upper-case letter and no surrounding whitespace,
      and storing it again would not change it. */
  lemma NormalizeQueryCanonical(query: string)
    ensures var q := NormalizeQuery(query);
      (forall i :: 0 <= i < |q| ==> !IsUpper(q[i])) &&
      (q == [] || (!IsSpace(q[0]) && !IsSpace(q[|q| - 1]))) &&
      NormalizeQuery(q) == q
  {
    var _, _ := TrimIsInterior(Lower(query));
    NormalizeQueryIdempotent(query);
  }

  /** The stored search is the query's lower-cased text with the whitespace
      at both ends cut off, and nothing else removed. */
  lemma NormalizeQueryIsTrimmedLower(query: string)
    ensures exists i, j :: (0 <= i <= j <= |query| && NormalizeQuery(query) == Lower(query)[i..j] &&
      AllSpace(Lower(query)[..i]) && AllSpace(Lower(query)[j..]))
  {
    var i, j := TrimIsInterior(Lower(query));
  }

  lemma NormalizeQueryIdempotent(query: string)
    ensures NormalizeQuery(NormalizeQuery(query)) == NormalizeQuery(query)
  {
    TrimIdempotent(Lower(query));
  }

  /** The module-level state of the page, and the handlers that change it. */
  class ArticlePage {
    var allArticles: seq<Article>
    var filteredArticles: seq<Article>
    var currentCategory: string
    var currentSearch: string

    /** The shown list is always the filter of the loaded list by the current choices. */
    ghost predicate Valid()
      reads this
    {
      filteredArticles == FilterArticles(allArticles, currentCategory, currentSearch)
    }

    /** The initial state: nothing loaded, every category, no search. */
    constructor ()
      ensures Valid()
      ensures allArticles == [] && filteredArticles == []
      ensures currentCategory == AllCategories && currentSearch == ""
    {
      allArticles := [];
      filteredArticles := [];
      currentCategory := AllCategories;
      currentSearch := "";
    }

    /** `applyFilters`. */
    method ApplyFilters()
      modifies this`filteredArticles
      ensures Valid()
    {
      filteredArticles := FilterArticles(allArticles, currentCategory, currentSearch);
    }

    /** The successful end of `fetchArticles`: store the delivered list, or the
        empty list when the response has none, and filter it again. */
    method ReceiveArticles(delivered: Option<seq<Article>>)
      modifies this
      ensures allArticles == delivered.GetOr([])
      ensures currentCategory == old(currentCategory) && currentSearch == old(currentSearch)
      ensures Valid()
    {
      allArticles := delivered.GetOr([]);
      ApplyFilters();
    }

    /** `setCategory`. */
    method SetCategory(category: string)
      modifies this
      ensures currentCategory == category
      ensures allArticles == old(allArticles) && currentSearch == old(currentSearch)
      ensures Valid()
      ensures category != AllCategories ==>
        forall i :: 0 <= i < |filteredArticles| ==> filteredArticles[i].category == category
    {
      currentCategory := category;
      ApplyFilters();
      if category != AllCategories {
        FilterOneCategory(allArticles, category, currentSearch);
      }
    }

    /** `setSearch`. */
    method SetSearch(query: string)
      modifies this
      ensures currentSearch == NormalizeQuery(query)
      ensures allArticles == old(allArticles) && currentCategory == old(currentCategory)
      ensures Valid()
    {
      NormalizeQueryIdempotent(query);
      StoreSearch(NormalizeQuery(query));
    }

    /** The second half of `setSearch`: keep an already normalised search text
        and filter again. */
    method StoreSearch(search: string)
      requires NormalizeQuery(search) == search
      modifies this
      ensures currentSearch == search
      ensures allArticles == old(allArticles) && currentCategory == old(currentCategory)
      ensures Valid()
    {
      currentSearch := search;
      ApplyFilters();
    }

    /** The clear button and the Escape key: empty the search box and call
        `setSearch('')`, which shows every article of the current category. */
    method ClearSearch()
      modifies this
      ensures currentSearch == ""
      ensures allArticles == old(allArticles) && currentCategory == old(currentCategory)
      ensures Valid()
      ensures currentCategory == AllCategories ==> filteredArticles == allArticles
    {
      SetSearch("");
    }
  }

  // ---------------------------------------------------------------------------
  // Card helpers

  /** The longest summary shown whole on a card. */
  const SummaryLimit: nat := 200

  /** The summary shown on a card: at most 200 characters, with an ellipsis
      appended when anything was cut. */
  function TruncateSummary(s: string): (r: string)
    ensures |s| <= SummaryLimit ==> r == s
    ensures |s| > SummaryLimit ==> |r| == SummaryLimit + 3 && r[..SummaryLimit] == s[..SummaryLimit] && r[SummaryLimit..] == "..."
    ensures |r| <= SummaryLimit + 3
  {
    if |s| > SummaryLimit then s[..SummaryLimit] + "..." else s
  }

  /** Truncating a summary that was already truncated changes nothing. */
  lemma TruncateIdempotent(s: string)
    ensures TruncateSummary(TruncateSummary(s)) == TruncateSummary(s)
  {
    var t := TruncateSummary(s);
    if |s| > SummaryLimit {
      assert t[..SummaryLimit] == s[..SummaryLimit];
    }
  }

  /** `category.replace(/\s+/g, '.')`: each maximal run of whitespace becomes one dot. */
  function CategoryClass(category: string): (r: string)
    ensures NoSpace(r)
    ensures |r| <= |category|
    ensures NoSpace(category) ==> r == category
    decreases |category|
  {
    if category == [] then []
    else if IsSpace(category[0]) then "." + CategoryClass(TrimStart(category[1..]))
    else [category[0]] + CategoryClass(category[1..])
  }

  predicate IsDot(c: char) { c == '.' }

  predicate IsWordChar(c: char) { !IsSpace(c) && c != '.' }

  /** Apart from the dots, the class keeps exactly the non-whitespace
      characters of the category, in order. */
  lemma {:induction false} CategoryClassKeepsText(category: string)
    ensures Filter(CategoryClass(category), IsWordChar) == Filter(category, IsWordChar)
    decreases |category|
  {
    if category != [] {
      if IsSpace(category[0]) {
        var rest := TrimStart(category[1..]);
        CategoryClassKeepsText(rest);
        SpaceRunDropsNoText(category);
        FilterConcat(".", CategoryClass(rest), IsWordChar);
      } else {
        CategoryClassKeepsText(category[1..]);
        FilterConcat([category[0]], CategoryClass(category[1..]), IsWordChar);
        assert category == [category[0]] + category[1..];
        FilterConcat([category[0]], category[1..], IsWordChar);
      }
    }
  }

  /** A run of whitespace holds no characters that survive into the class. */
  lemma SpaceRunDropsNoText(category: string)
    requires category != [] && IsSpace(category[0])
    ensures Filter(category, IsWordChar) == Filter(TrimStart(category[1..]), IsWordChar)
  {
    var rest := TrimStart(category[1..]);
    var run := category[..|category| - |rest|];
    LeadingRun(category);
    FilterSkipsRun(run, rest);
  }

  /** A category starting with whitespace is a whitespace run followed by what
      `TrimStart` leaves of the rest. */
  lemma LeadingRun(category: string)
    requires category != [] && IsSpace(category[0])
    ensures var rest := TrimStart(category[1..]);
      var run := category[..|category| - |rest|];
      category == run + rest && AllSpace(run)
  {
    // the run is the one `TrimStart(category)` drops
    var rest := TrimStart(category[1..]);
    assert TrimStart(category) == rest;
    assert category == category[..|category| - |rest|] + category[|category| - |rest|..];
  }

  /** Whitespace contributes nothing to the text of a class. */
  lemma FilterSkipsRun(run: string, rest: string)
    requires AllSpace(run)
    ensures Filter(run + rest, IsWordChar) == Filter(rest, IsWordChar)
  {
    assert forall c :: c in run ==> !IsWordChar(c);
    FilterNone(run, IsWordChar);
    FilterConcat(run, rest, IsWordChar);
  }

  /** The number of maximal whitespace runs in `s`, counted at the character
      that ends each run. */
  function Runs(s: string): nat
  {
    if s == [] then 0
    else if IsSpace(s[0]) && (|s| == 1 || !IsSpace(s[1])) then 1 + Runs(s[1..])
    else Runs(s[1..])
  }

  /** Every maximal whitespace run becomes exactly one dot: the class has the
      dots of the category plus one per run. */
  lemma {:induction false} CategoryClassDots(category: string)
    ensures |Filter(CategoryClass(category), IsDot)| == |Filter(category, IsDot)| + Runs(category)
    decreases |category|
  {
    if category != [] {
      if IsSpace(category[0]) {
        var rest := TrimStart(category[1..]);
        CategoryClassDots(rest);
        FilterConcat(".", CategoryClass(rest), IsDot);
        RunsOfLeadingRun(category);
        SpaceRunHasNoDot(category);
      } else {
        CategoryClassDots(category[1..]);
        FilterConcat([category[0]], CategoryClass(category[1..]), IsDot);
        assert category == [category[0]] + category[1..];
        FilterConcat([category[0]], category[1..], IsDot);
      }
    }
  }

  /** A leading whitespace run is one run; the runs after it are those of the rest. */
  lemma {:induction false} RunsOfLeadingRun(s: string)
    requires s != [] && IsSpace(s[0])
    ensures Runs(s) == 1 + Runs(TrimStart(s[1..]))
    decreases |s|
  {
    if |s| > 1 && IsSpace(s[1]) {
      RunsOfLeadingRun(s[1..]);
      assert TrimStart(s[1..]) == TrimStart(s[1..][1..]);
    }
  }

  /** A whitespace run holds no dot. */
  lemma SpaceRunHasNoDot(category: string)
    requires category != [] && IsSpace(category[0])
    ensures Filter(category, IsDot) == Filter(TrimStart(category[1..]), IsDot)
  {
    var rest := TrimStart(category[1..]);
    var run := category[..|category| - |rest|];
    LeadingRun(category);
    FilterSkipsDots(run, rest);
  }

  lemma FilterSkipsDots(run: string, rest: string)
    requires AllSpace(run)
    ensures Filter(run + rest, IsDot) == Filter(rest, IsDot)
  {
    assert forall c :: c in run ==> !IsDot(c);
    FilterNone(run, IsDot);
    FilterConcat(run, rest, IsDot);
  }

  /** A run of whitespace alone becomes a single dot. */
  lemma CategoryClassOfRun(s: string)
    requires s != [] && AllSpace(s)
    ensures CategoryClass(s) == "."
  {
    assert AllSpace(s[1..]) by {
      assert forall i :: 0 <= i < |s| - 1 ==> s[1..][i] == s[i + 1];
    }
    TrimStartAllSpace(s[1..]);
  }

  /** The rewrite works piece by piece: two texts that do not split a
      whitespace run are rewritten separately and the results joined. With
      `CategoryClassOfRun` and the identity on text without whitespace, this
      puts each dot exactly where its run stood. */
  lemma {:induction false} CategoryClassConcat(x: string, y: string)
    requires x == [] || y == [] || !IsSpace(x[|x| - 1]) || !IsSpace(y[0])
    ensures CategoryClass(x + y) == CategoryClass(x) + CategoryClass(y)
    decreases |x|, 2
  {
    if x == [] {
      assert x + y == y;
    } else if y == [] {
      assert x + y == x;
    } else if IsSpace(x[0]) {
      CategoryClassConcatRun(x, y);
    } else {
      var t := x[1..];
      assert (x + y)[0] == x[0] && (x + y)[1..] == t + y;
      assert t == [] || t[|t| - 1] == x[|x| - 1];
      CategoryClassConcat(t, y);
    }
  }

  /** The case of `CategoryClassConcat` where the first part opens with a
      whitespace run. */
  lemma {:induction false} CategoryClassConcatRun(x: string, y: string)
    requires x != [] && y != [] && IsSpace(x[0])
    requires !IsSpace(x[|x| - 1]) || !IsSpace(y[0])
    ensures CategoryClass(x + y) == CategoryClass(x) + CategoryClass(y)
    decreases |x|, 1
  {
    var t := x[1..];
    TailOfConcat(x, y);
    AfterRun(x, y);
    var rest, tail := CategoryClass(TrimStart(t)), CategoryClass(y);
    assert CategoryClass(x + y) == "." + (rest + tail) by {
      RunHead(x + y);
    }
    assert CategoryClass(x) == "." + rest by {
      RunHead(x);
    }
    ConcatAssoc(".", rest, tail);
  }

  /** Past the leading whitespace character, the rest of the run and what
      follows it are rewritten separately. */
  lemma {:induction false} AfterRun(x: string, y: string)
    requires x != [] && y != [] && IsSpace(x[0])
    requires !IsSpace(x[|x| - 1]) || !IsSpace(y[0])
    ensures CategoryClass(TrimStart(x[1..] + y)) == CategoryClass(TrimStart(x[1..])) + CategoryClass(y)
    decreases |x|, 0
  {
    var t := x[1..];
    if AllSpace(t) {
      AllSpaceTail(x);
      RunThenText(t, y);
    } else {
      TrimStartConcat(t, y);
      TrimStartKeepsLast(t);
      CategoryClassConcat(TrimStart(t), y);
    }
  }

  /** After a run that is only whitespace, the rewrite resumes at the text. */
  lemma RunThenText(t: string, y: string)
    requires AllSpace(t) && y != [] && !IsSpace(y[0])
    ensures CategoryClass(TrimStart(t + y)) == CategoryClass(y)
    ensures CategoryClass(TrimStart(t)) == []
  {
    TrimStartSpacePrefix(t, y);
    TrimStartAllSpace(t);
  }

  /** One unfolding of the rewrite at a leading whitespace character. */
  lemma RunHead(s: string)
    requires s != [] && IsSpace(s[0])
    ensures CategoryClass(s) == "." + CategoryClass(TrimStart(s[1..]))
  {
  }

  /** A class name is already a class name: rewriting it again changes nothing. */
  lemma CategoryClassIdempotent(category: string)
    ensures CategoryClass(CategoryClass(category)) == CategoryClass(category)
  {
  }

  // ---------------------------------------------------------------------------
  // formatTimeAgo

  const MsPerMinute: int := 60000
  const MsPerHour: int := 3600000
  const MsPerDay: int := 86400000

  /** The phrase a card shows for an article's age. */
  datatype TimeAgo =
    | JustNow
    | MinutesAgo(minutes: nat)
    | HoursAgo(hours: nat)
    | DaysAgo(days: nat)
    | CalendarDate    // the locale-formatted date of the article

  /** `formatTimeAgo` for an age of `elapsed` milliseconds (now minus the
      publication time); `None` is the NaN age of an unparseable date. Dafny's
      `/` with a positive divisor is the floor division of `Math.floor(a / b)`. */
  function FormatTimeAgo(elapsed: Option<int>): (r: TimeAgo)
    ensures r == JustNow <==> elapsed.Some? && elapsed.value < MsPerMinute
    ensures r.MinutesAgo? <==> elapsed.Some? && MsPerMinute <= elapsed.value < MsPerHour
    ensures r.HoursAgo? <==> elapsed.Some? && MsPerHour <= elapsed.value < MsPerDay
    ensures r.DaysAgo? <==> elapsed.Some? && MsPerDay <= elapsed.value < 7 * MsPerDay
    ensures r == CalendarDate <==> elapsed.None? || elapsed.value >= 7 * MsPerDay
    ensures r.MinutesAgo? ==>
      (1 <= r.minutes < 60 && r.minutes * MsPerMinute <= elapsed.value < (r.minutes + 1) * MsPerMinute)
    ensures r.HoursAgo? ==>
      (1 <= r.hours < 24 && r.hours * MsPerHour <= elapsed.value < (r.hours + 1) * MsPerHour)
    ensures r.DaysAgo? ==>
      (1 <= r.days < 7 && r.days * MsPerDay <= elapsed.value < (r.days + 1) * MsPerDay)
  {
    match elapsed
    case None => CalendarDate
    case Some(diffMs) =>
      var diffMins := diffMs / MsPerMinute;
      var diffHours := diffMs / MsPerHour;
      var diffDays := diffMs / MsPerDay;
      if diffMins < 1 then JustNow
      else if diffMins < 60 then MinutesAgo(diffMins)
      else if diffHours < 24 then HoursAgo(diffHours)
      else if diffDays < 7 then DaysAgo(diffDays)
      else CalendarDate
  }

  /** The text of a phrase; the calendar date depends on the locale and has none here. */
  function TimeAgoText(t: TimeAgo): (r: Option<string>)
    ensures r.None? <==> t == CalendarDate
    ensures t == JustNow ==> r == Some("Just now")
    ensures r.Some? && t != JustNow ==> |r.value| > 4 && r.value[|r.value| - 4..] == " ago"
  {
    match t
    case JustNow => Some("Just now")
    case MinutesAgo(n) => Some(Decimal(n) + "m ago")
    case HoursAgo(n) => Some(Decimal(n) + "h ago")
    case DaysAgo(n) => Some(Decimal(n) + "d ago")
    case CalendarDate => None
  }

  /** The letter after the count in a phrase's text. */
  function UnitLetter(t: TimeAgo): char
  {
    match t
    case MinutesAgo(_) => 'm'
    case HoursAgo(_) => 'h'
    case _ => 'd'
  }

  /** The count a phrase shows. */
  function Count(t: TimeAgo): nat
  {
    match t
    case MinutesAgo(n) => n
    case HoursAgo(n) => n
    case DaysAgo(n) => n
    case _ => 0
  }

  /** A counted phrase reads as a numeral, its unit letter and " ago". */
  lemma CountedText(t: TimeAgo)
    requires t.MinutesAgo? || t.HoursAgo? || t.DaysAgo?
    ensures var s := TimeAgoText(t).value;
      |s| > 5 && '0' <= s[0] <= '9' && s[|s| - 5] == UnitLetter(t) &&
      var numeral := s[..|s| - 5];
      (forall i :: 0 <= i < |numeral| ==> '0' <= numeral[i] <= '9') &&
      (numeral[0] == '0' ==> numeral == "0") &&
      ParseDecimal(numeral) == Count(t)
  {
    var suffix := [UnitLetter(t)] + " ago";
    var s := Decimal(Count(t)) + suffix;
    assert TimeAgoText(t).value == s;
    assert s[..|s| - 5] == Decimal(Count(t));
    DecimalRoundTrip(Count(t));
  }

  /** Two different phrases never show the same text. */
  lemma TimeAgoTextInjective(a: TimeAgo, b: TimeAgo)
    requires TimeAgoText(a).Some? && TimeAgoText(a) == TimeAgoText(b)
    ensures a == b
  {
    if !a.JustNow? {
      CountedText(a);
    }
    if !b.JustNow? {
      CountedText(b);
    }
  }

  /** The order of the phrases from freshest to oldest. */
  function Rank(t: TimeAgo): nat
  {
    match t
    case JustNow => 0
    case MinutesAgo(_) => 1
    case HoursAgo(_) => 2
    case DaysAgo(_) => 3
    case CalendarDate => 4
  }

  /** An older article never shows a fresher phrase. */
  lemma FormatTimeAgoMonotone(x: int, y: int)
    requires x <= y
    ensures Rank(FormatTimeAgo(Some(x))) <= Rank(FormatTimeAgo(Some(y)))
    ensures FormatTimeAgo(Some(x)).MinutesAgo? && FormatTimeAgo(Some(y)).MinutesAgo? ==>
      FormatTimeAgo(Some(x)).minutes <= FormatTimeAgo(Some(y)).minutes
  {
  }
}
