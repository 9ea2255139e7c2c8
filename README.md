# InTheLoop, modelled in Dafny

InTheLoop is a small news aggregator. A Python script collects the first five
entries of each of a fixed list of RSS feeds and mails them as an HTML digest. A
browser front end lists articles with category and search filters. A second
page manages feeds: it searches and orders the active feeds and lists the
catalogue of feeds that can be added.

This project models the logic of those three parts. It leaves out the
rendering, network, mail and timer code around them. The modules are:

- `Wrappers` (`wrappers.dfy`): `Option` and `Result`.
- `Seqs` (`seqs.dfy`): order-preserving `Filter` (the model of
  `Array.prototype.filter`) and its laws. Also the joining of mapped lists.
- `Text` (`text.dfy`): the JavaScript string operations the pages use.
  These are `toLowerCase` (ASCII letters), `trim` over the ECMAScript
  whitespace set, `includes`, and decimal numerals.
- `Digest` (`digest.dfy`): `fetch_articles` and `create_email_content` of
  `main.py`. The feed parser is a function parameter `parse` from URL to
  entries. Reading an entry attribute that is absent raises
  `AttributeError`, so the whole fetch fails; the model returns `Failure`
  with the first missing field. `str.format` is modelled by `Format` for the
  field forms the template uses.
- `ArticleList` (`article_list.dfy`): the article page of `static/js/app.js`.
  Its module-level state is the class `ArticlePage`. The card helpers are
  functions.
- `FeedManagement` (`feed_management.dfy`): the feed page of
  `static/js/feeds.js`. Its module-level state is the class `FeedsPage`.
  The category-to-feeds object is an association list in `Object.entries`
  order, with unique keys.

## Model

| member | source | states |
|---|---|---|
| Digest.FetchArticles | main.py:14-24 | The nested loops return exactly `Collect(feeds, parse)`: the records of each feed's first five entries, feed after feed, or the error of the first entry that lacks a field. |
| Digest.Head | main.py:18 | `entries[:5]` has length min(5, number of entries) and is a prefix of the entries. |
| Digest.ToArticle | main.py:19-23 | A record is built exactly when title, link and summary are all present, and it copies them unchanged. Otherwise the error names the first missing field, in the order title, link, summary. |
| Digest.Collect | main.py:14-24 | A successful fetch holds at most five records per configured feed. |
| Digest.ConvertAll | main.py:18-23 | Converting a feed's entries succeeds exactly when every entry is complete, and then gives one record per entry. |
| Digest.ConvertAllCopies | main.py:19-23 | Record k holds the title, link and summary of entry k, unchanged. |
| Digest.AndThen | main.py:16-23 | Running two stages in sequence succeeds exactly when both do. The records are the first stage's followed by the second's, and a first failure is kept. |
| Digest.CollectSucceedsIff | main.py:20-22 | The fetch succeeds exactly when every one of the first five entries of every feed has all three fields. No entry is skipped. |
| Digest.CollectLength | main.py:16-18 | Each feed contributes min(5, its entry count) records, so there are at most 5 per feed in total. |
| Digest.ConfiguredFeedsAtMostTen | main.py:8-12 | With the two configured feed URLs the digest holds at most ten articles. |
| Digest.CollectConcat | main.py:16-23 | The result is feed-major. For a list of feeds split in two, it is the first part's result followed by the second part's. |
| Digest.CollectOneFeed | main.py:17-23 | One feed yields its first min(5, n) entries in entry order, each copied field by field. |
| Digest.CreateEmailContent | main.py:26-44 | The accumulating loop returns header, then the body of all blocks, then footer. |
| Digest.Block | main.py:38-42 | Every block opens with the `<h3><a href="` heading and closes with the end of the summary paragraph and the `<hr>` rule. |
| Digest.BlockFields | main.py:38-42 | In an article's block, the link, the title and the summary stand verbatim at fixed offsets. Nothing is escaped. |
| Digest.BodyConcat | main.py:37-43 | The body of a list of articles is the bodies of its parts in order. One article's body is its block. |
| Digest.TemplateFormat | main.py:27-35 | Formatting the template with any body gives header, body, footer. Braces in the body are never interpreted. An empty article list therefore gives the bare template around an empty body. |
| Digest.Format | main.py:44 | Text without braces formats to itself. The lone field `{}` becomes the argument when it is the first field and is an `IndexOutOfRange` error when a field was already used. |
| Digest.FormatPlainPrefix | main.py:44 | `str.format` copies text without braces unchanged. |
| ArticleList.FilterArticles | static/js/app.js:74-85 | The kept articles are a subsequence of all articles, in order. An article is kept iff (the category is 'all' or equals its category) and (the search is empty or its lower-cased title or summary contains the search). With 'all' and an empty search, every article is kept. An article kept appears as many times as in the input, and one not kept never appears. |
| ArticleList.FilterOneCategory | static/js/app.js:77 | With a category other than 'all', every kept article has that category. |
| ArticleList.NormalizeQuery | static/js/app.js:107 | The stored search is no longer than the query and holds no upper-case letter, so lower-casing it again changes nothing. |
| ArticleList.NormalizeQueryIsTrimmedLower | static/js/app.js:107 | The stored search is a slice of the lower-cased query with only whitespace cut away on either side: the query's text, lower-cased and trimmed. |
| ArticleList.NormalizeQueryCanonical | static/js/app.js:107 | The stored search has no upper-case letter and no leading or trailing whitespace. Normalising it again changes nothing. |
| ArticleList.ArticlePage.constructor | static/js/app.js:2-5 | The page starts with no articles, nothing shown, the category 'all' and an empty search. |
| ArticleList.ArticlePage.ApplyFilters | static/js/app.js:74-88 | `filteredArticles` becomes the filter of `allArticles` by the current category and search. |
| ArticleList.ArticlePage.ReceiveArticles | static/js/app.js:61-62 | The delivered list, or the empty list when the response has none, is stored and filtered. The category and search are unchanged. |
| ArticleList.ArticlePage.SetCategory | static/js/app.js:90-104 | The category is stored and the list re-filtered. The articles and the search are unchanged, and every shown article has the chosen category unless it is 'all'. |
| ArticleList.ArticlePage.SetSearch | static/js/app.js:106-117 | The search is stored lower-cased and trimmed and the list re-filtered. The articles and the category are unchanged. |
| ArticleList.ArticlePage.StoreSearch | static/js/app.js:107-116 | Given a search text that is already lower-cased and trimmed, it becomes the current search and the list is re-filtered by it. The articles and the category are unchanged. |
| ArticleList.ArticlePage.ClearSearch | static/js/app.js:294-297 | The clear button and Escape (static/js/app.js:308-310) empty the search. Under 'all' this shows every article. |
| ArticleList.TruncateSummary | static/js/app.js:148-150 | A summary of at most 200 characters is unchanged. A longer one becomes its first 200 characters plus '...', 203 in all. |
| ArticleList.TruncateIdempotent | static/js/app.js:148-150 | Truncating a truncated summary changes nothing. |
| ArticleList.CategoryClass | static/js/app.js:144 | The class name holds no whitespace and is no longer than the category. A category without whitespace is its own class name. |
| ArticleList.CategoryClassOfRun | static/js/app.js:144 | A category made only of whitespace becomes a single dot. |
| ArticleList.CategoryClassConcat | static/js/app.js:144 | The rewrite works piece by piece: for two texts that do not split a whitespace run between them, the class name of the whole is the class names of the parts joined. With the two rows around it, each maximal whitespace run becomes one dot at its own place and the text around it stays put. |
| ArticleList.CategoryClassKeepsText | static/js/app.js:144 | Apart from dots and whitespace, the class name has exactly the category's characters, in order. |
| ArticleList.CategoryClassDots | static/js/app.js:144 | The class name has the category's dots plus exactly one per maximal whitespace run. |
| ArticleList.CategoryClassIdempotent | static/js/app.js:144 | Rewriting a class name again changes nothing. |
| ArticleList.FormatTimeAgo | static/js/app.js:190-207 | The buckets by floored division. Under one minute, future dates included, is 'Just now'. Then N minutes for 1 ≤ N < 60, N hours for N < 24, N days for N < 7, and otherwise the calendar date; an unparseable date gets the date branch too. N is the floor of the age in that unit. |
| ArticleList.FormatTimeAgoMonotone | static/js/app.js:198-201 | An older article never gets a fresher bucket, and within minutes the count never decreases. |
| ArticleList.TimeAgoText | static/js/app.js:198-203 | Only the calendar-date phrase has no fixed text. Under a minute the text is 'Just now', and every counted phrase ends in " ago". |
| ArticleList.CountedText | static/js/app.js:199-201 | A counted phrase is the plain decimal numeral of its count (digits, no leading zero, reading back as the count) followed by its unit letter and " ago". |
| ArticleList.TimeAgoTextInjective | static/js/app.js:198-201 | The texts 'Just now', 'Nm ago', 'Nh ago' and 'Nd ago' are distinct for distinct phrases: the count and unit can be read back. |
| FeedManagement.SearchActive | static/js/feeds.js:146-155 | The kept feeds are a subsequence of the feeds. An empty term keeps all. Otherwise a feed is kept iff its lower-cased name, URL or category contains the term. A kept feed appears as many times as in the list, and a dropped one never. |
| FeedManagement.CompareFeeds | static/js/feeds.js:158-161 | The comparator is zero exactly when both feeds have the same hidden flag, negative exactly when a visible feed meets a hidden one, and positive the other way round. |
| FeedManagement.VisibleFirst | static/js/feeds.js:157-161 | The arrangement is a permutation of its input. |
| FeedManagement.VisibleFirstSorts | static/js/feeds.js:157-161 | The arrangement is ordered by the comparator, so no hidden feed precedes a visible one. It is a permutation of the filtered list and keeps each group's order. |
| FeedManagement.VisibleFirstUnique | static/js/feeds.js:157-161 | Any comparator-ordered list that keeps each group's order equals the arrangement. So the arrangement is exactly what the stable sort returns. |
| FeedManagement.ActiveCount | static/js/feeds.js:50 | The count is at most the number of feeds, and equals it exactly when no feed is hidden. |
| FeedManagement.ActiveCountSplits | static/js/feeds.js:50 | The count of feeds not hidden plus the hidden ones is the number of feeds. After sorting, exactly the first `ActiveCount` positions are visible. |
| FeedManagement.FeedsPage.constructor | static/js/feeds.js:2-5 | The page starts with no active feeds, an empty catalogue and the category 'all'. |
| FeedManagement.FeedsPage.LoadActiveFeeds | static/js/feeds.js:45-50 | The delivered list, or the empty list, is stored, and the reported count is the number of feeds not hidden. |
| FeedManagement.FeedsPage.LoadAvailableFeeds | static/js/feeds.js:58-62 | The delivered catalogue, or the empty one, is stored. |
| FeedManagement.FeedsPage.SelectCategory | static/js/feeds.js:381-393 | The clicked category becomes the current one. |
| FeedManagement.FeedsPage.RenderActiveFeeds | static/js/feeds.js:146-161 | The shown feeds are the search result with visible feeds first, each group in list order, as a permutation. A feed is shown iff it is active and matches the lower-cased search text. |
| FeedManagement.FeedsPage.RenderAvailableList | static/js/feeds.js:236-262 | The nested loops and the search build exactly `AvailableView` of the catalogue, the current category and the lower-cased search text. |
| FeedManagement.FeedsPage.RenderAvailableFeeds | static/js/feeds.js:236-262 | The page shows `AvailableView` for its state. With a category selected, a feed is shown iff it is in that category's list, tagged with it, and its name or URL matches the lower-cased search text. A key the catalogue lacks shows nothing. |
| FeedManagement.AvailableView | static/js/feeds.js:256-262 | The shown list is a subsequence of the built list. A feed is kept iff its lower-cased name or URL contains the term; the category is never searched. An empty term filters nothing. A kept feed appears as many times as in the built list. |
| FeedManagement.Tagged | static/js/feeds.js:245-246 | Each feed of a list is copied with the category attached, in order. |
| FeedManagement.Flatten | static/js/feeds.js:243-248 | Every feed of the 'all' view is a catalogue feed, tagged with the key it is listed under. |
| FeedManagement.FlattenLength | static/js/feeds.js:243-248 | The 'all' view lists as many feeds as the catalogue's lists hold together. |
| FeedManagement.FlattenConcat | static/js/feeds.js:244-248 | The 'all' view follows key order: for a catalogue split in two, it is the first part's view followed by the second's. |
| FeedManagement.AvailableList | static/js/feeds.js:243-254 | With a category selected, every listed feed carries that category, and a key the catalogue lacks gives the empty list. |
| FeedManagement.SingleCategoryView | static/js/feeds.js:249-254 | A selected category shows exactly its own feeds tagged with it. An unknown category shows nothing. |
| FeedManagement.SingleCategorySearch | static/js/feeds.js:249-262 | Searching a selected category keeps exactly the matching feeds of its own list, and an unknown category shows nothing. |
| FeedManagement.Lookup | static/js/feeds.js:250 | A key lookup is absent iff no entry has that key, and otherwise returns the list of an entry with that key. |
| FeedManagement.IsAdded | static/js/feeds.js:286 | A card is "already added" iff some active feed has exactly its URL. |
| FeedManagement.FeedsPage.CardIsAdded | static/js/feeds.js:285-286 | The same test, over the page's active feeds. |
| FeedManagement.GetCategoryIcon | static/js/feeds.js:314-326 | The eight listed categories map to their icons. Every other category maps to 'rss', and the icon is never empty. |
| FeedManagement.GetCategoryIconAsWritten | static/js/feeds.js:325 | The lookup as written gives 'rss' exactly when the category is unlisted and not an inherited property name with a truthy value. A listed category gets its icon, and an inherited name gets the inherited value. |
| FeedManagement.AsWrittenConstructorIsNotAnIcon | static/js/feeds.js:325 | For the category "constructor" the written lookup returns the `Object` function, not 'rss'. |
| FeedManagement.AsWrittenAgreesElsewhere | static/js/feeds.js:314-326 | Outside the inherited property names, the written lookup and the corrected one agree. |
| Text.TrimIsInterior | static/js/app.js:107 | `trim` returns the middle of the string, with only whitespace cut on either side. The result neither starts nor ends with whitespace. |
| Text.TrimIdempotent | static/js/app.js:107 | Trimming twice is trimming once. |
| Text.LowerIsLower | static/js/app.js:107 | Lower-casing leaves no upper-case letter and is idempotent. |
| Text.ContainsIff | static/js/app.js:81-82 | `includes` holds iff the term occurs at some index. |
| Text.Decimal | static/js/app.js:199-201 | The numeral of a count is non-empty, all digits, and starts with '0' only for the count 0, which is "0" alone. |
| Text.DecimalRoundTrip | static/js/app.js:199-201 | The numeral of a count reads back as that count. |
| Seqs.FilterMultiset | static/js/feeds.js:149-155 | `filter` keeps every copy of a passing element and no copy of a failing one. |
| Seqs.FilterSplitMultiset | static/js/feeds.js:157-161 | Splitting a list by a predicate and its negation loses and invents no element. |
| Seqs.PartitionedIsSplit | static/js/feeds.js:157-161 | A list in which nothing failing the predicate precedes something passing it is the passing elements followed by the failing ones. |

## Left out

- Rendering: `innerHTML`, `createElement`, cards, toasts, loading and no-results panels, button classes, the article counter text.
- `escapeHtml` and `stripHtmlTags` need the browser's HTML parser. The summary that `TruncateSummary` receives is the already stripped text.
- Network: every `fetch` call and `feedparser.parse`. The parser is the function parameter `parse`, and response bodies are `Option` inputs.
- The catch branches of `loadActiveFeeds`, `loadAvailableFeeds` and `fetchArticles` only log and show a message.
- `hideFeed`, `unhideFeed` and `addFeed` are requests to the server followed by a reload. The reload is `LoadActiveFeeds`/`LoadAvailableFeeds`.
- `send_email`: SMTP delivery and credential lookup.
- Timers and scheduling: the search debounce, auto-refresh, `Promise.all`, the spin animation.
- Theme handling and `localStorage`.
- Tab switching (`currentTab`) has no effect on the lists.
- `renderCategoryFilters` only draws buttons. Its icon choice is the lookup as written, `GetCategoryIconAsWritten`.
- `availableCount` shows the server's `data.total || 0`, a number the page does not compute.
- FormatTimeAgo: the `toLocaleDateString` branch is the value `CalendarDate`, without its locale text. The age is an input (now minus the publication time, or `None` for an invalid date), because the clock is not modelled.
- The `animationDelay` of `index * 0.05` is floating point and presentation only.
- `Text.Lower`: `toLowerCase` is modelled for ASCII letters only; other characters are unchanged. Full Unicode case mapping is not modelled.
- `TruncateSummary` counts characters. JavaScript's `length` and `substring` count UTF-16 code units, which differ for characters outside the Basic Multilingual Plane.
- The catalogue is an association list in `Object.entries` order. JavaScript lists integer-like keys first, in numeric order; that reordering is not modelled.
- `Digest.Format`: only the field forms `{}`, `{{` and `}}` of `str.format` are modelled. Other forms are reported as `UnsupportedField`, and the template uses none of them.
- A feed's `hidden` flag is a boolean. The comparator's `===` on other values is not modelled.
- `allAvailableFeeds[currentCategory] || []` runs with a key of the current catalogue, or with a category that a reload of the catalogue removed, since `loadAvailableFeeds` replaces the catalogue without resetting `currentCategory`. Both cases are modelled: `Lookup` gives `None`, shown as []. A name inherited from `Object.prototype` is not modelled there.
- After such a reload the category buttons are rebuilt with 'All' drawn active (static/js/feeds.js:218) while the list still follows the old category. Which button is drawn active is presentation and is not modelled.

## Findings

| source | as written | input that shows it | evidently intended | confidence | as-written member | corrected member |
|---|---|---|---|---|---|---|
| static/js/feeds.js:314-326 | `icons[category] \|\| 'rss'` reads a property of a plain object literal, so names inherited from `Object.prototype` are found too | category "constructor" (also "toString", "valueOf", ...) gets the `Object` function, and the icon class becomes `fa-function Object() { [native code] }` | every category not among the eight listed gets 'rss' | not executed; follows from JavaScript property lookup | FeedManagement.GetCategoryIconAsWritten, FeedManagement.AsWrittenConstructorIsNotAnIcon | FeedManagement.GetCategoryIcon |
