/** The e-mail digest builder: collecting the top entries of each RSS feed into
    article records, and rendering them into the HTML briefing. */
module Digest {
  import opened Wrappers
  import opened Seqs

  /** One entry as the feed parser returns it. An attribute the feed did not
      supply is absent, and reading it raises `AttributeError`. */
  datatype Entry = Entry(title: Option<string>, link: Option<string>, summary: Option<string>)

  /** The three-key record collected for each entry. */
  datatype Article = Article(title: string, link: string, summary: string)

  datatype Field = Title | Link | Summary

  /** The exception that aborts `fetch_articles`: an entry lacked `field`. */
  datatype FetchError = MissingAttribute(field: Field)

  /** The module-level list of feed URLs, in the order they are read. */
  const RssFeeds: seq<string> := ["https://rss.cnn.com/rss/edition.rss", "https://feeds.bbci.co.uk/news/rss.xml"]

  /** How many entries are taken from the front of each feed. */
  const EntriesPerFeed: nat := 5

  predicate Complete(e: Entry)
  {
    e.title.Some? && e.link.Some? && e.summary.Some?
  }

  /** `feed.entries[:5]`: the first five entries, or all of them when there are fewer. */
  function Head(entries: seq<Entry>): (r: seq<Entry>)
    ensures |r| == if |entries| < EntriesPerFeed then |entries| else EntriesPerFeed
    ensures r == entries[..|r|]
  {
    if |entries| <= EntriesPerFeed then entries else entries[..EntriesPerFeed]
  }

  /** Building the record of one entry; the dictionary display reads `title`,
      then `link`, then `summary`, so the first absent one is reported. */
  function ToArticle(e: Entry): (r: Result<Article, FetchError>)
    ensures r.Success? <==> Complete(e)
    ensures r.Success? ==> r.value == Article(e.title.value, e.link.value, e.summary.value)
    ensures r == Failure(MissingAttribute(Title)) <==> e.title.None?
    ensures r == Failure(MissingAttribute(Link)) <==> e.title.Some? && e.link.None?
    ensures r == Failure(MissingAttribute(Summary)) <==> e.title.Some? && e.link.Some? && e.summary.None?
  {
    if e.title.None? then Failure(MissingAttribute(Title))
    else if e.link.None? then Failure(MissingAttribute(Link))
    else if e.summary.None? then Failure(MissingAttribute(Summary))
    else Success(Article(e.title.value, e.link.value, e.summary.value))
  }

  /** The records of `entries` in order, or the error of the first incomplete entry. */
  function ConvertAll(entries: seq<Entry>): (r: Result<seq<Article>, FetchError>)
    ensures r.Success? <==> forall k :: 0 <= k < |entries| ==> Complete(entries[k])
    ensures r.Success? ==> |r.value| == |entries|
  {
    if entries == [] then Success([])
    else
      match ConvertAll(entries[..|entries| - 1])
      case Failure(e) => Failure(e)
      case Success(done) =>
        match ToArticle(entries[|entries| - 1])
        case Failure(e) => Failure(e)
        case Success(a) => Success(done + [a])
  }

  /** The records are the entries' fields, copied unchanged and in entry order. */
  lemma {:induction false} ConvertAllCopies(entries: seq<Entry>)
    requires ConvertAll(entries).Success?
    ensures forall k :: 0 <= k < |entries| ==>
      ConvertAll(entries).value[k] == Article(entries[k].title.value, entries[k].link.value, entries[k].summary.value)
  {
    if entries != [] {
      var front := entries[..|entries| - 1];
      ConvertAllCopies(front);
      assert forall k :: 0 <= k < |front| ==> front[k] == entries[k];
    }
  }

  /** What `fetch_articles` returns for the feeds `feeds` when the parser maps a
      URL to its entries by `parse`: the records of each feed's first five entries,
      feed after feed, or the exception raised by the first incomplete one. */
  function Collect(feeds: seq<string>, parse: string -> seq<Entry>): (r: Result<seq<Article>, FetchError>)
    ensures r.Success? ==> |r.value| <= EntriesPerFeed * |feeds|
  {
    if feeds == [] then Success([])
    else AndThen(ConvertAll(Head(parse(feeds[0]))), Collect(feeds[1..], parse))
  }

  /** The records of two steps run one after the other; the first failure wins. */
  function AndThen(first: Result<seq<Article>, FetchError>, second: Result<seq<Article>, FetchError>): (r: Result<seq<Article>, FetchError>)
    ensures r.Success? <==> first.Success? && second.Success?
    ensures r.Success? ==> r.value == first.value + second.value
    ensures first.Failure? ==> r == first
  {
    match first
    case Failure(e) => Failure(e)
    case Success(done) =>
      match second
      case Failure(e) => Failure(e)
      case Success(more) => Success(done + more)
  }

  /** Number of records contributed by the feeds: min(5, entries) each. */
  function Taken(feeds: seq<string>, parse: string -> seq<Entry>): nat
  {
    if feeds == [] then 0 else |Head(parse(feeds[0]))| + Taken(feeds[1..], parse)
  }

  /** `fetch_articles`: the nested loops append one record per entry. */
  method FetchArticles(feeds: seq<string>, parse: string -> seq<Entry>) returns (r: Result<seq<Article>, FetchError>)
    ensures r == Collect(feeds, parse)
  {
    var articles: seq<Article> := [];
    var i := 0;
    while i < |feeds|
      invariant 0 <= i <= |feeds|
      invariant Collect(feeds[..i], parse) == Success(articles)
    {
      ghost var done := articles;
      var entries := Head(parse(feeds[i]));
      var j := 0;
      while j < |entries|
        invariant 0 <= j <= |entries|
        invariant ConvertAll(entries[..j]).Success?
        invariant articles == done + ConvertAll(entries[..j]).value
      {
        // the dictionary display for this entry
        var record := ToArticle(entries[j]);
        if record.Failure? {
          ConvertAllAbortsAt(entries, j);
          CollectAbortsAt(feeds, parse, i);
          return Failure(record.error);
        }
        ConvertAllStep(entries, j);
        articles := articles + [record.value];
        j := j + 1;
      }
      assert entries[..j] == entries;
      CollectStep(feeds, parse, i);
      i := i + 1;
    }
    assert feeds[..i] == feeds;
    r := Success(articles);
  }

  /** Once entry `j` is incomplete and the ones before it are not, the whole
      conversion fails with that entry's error. */
  lemma {:induction false} ConvertAllAbortsAt(entries: seq<Entry>, j: nat)
    requires j < |entries| && ConvertAll(entries[..j]).Success? && !Complete(entries[j])
    ensures ConvertAll(entries) == Failure(ToArticle(entries[j]).error)
    decreases |entries|
  {
    if j + 1 < |entries| {
      var front := entries[..|entries| - 1];
      assert front[..j] == entries[..j] && front[j] == entries[j];
      ConvertAllAbortsAt(front, j);
    } else {
      assert entries[..|entries| - 1] == entries[..j];
    }
  }

  /** Converting one more entry appends its record. */
  lemma ConvertAllStep(entries: seq<Entry>, j: nat)
    requires j < |entries| && ConvertAll(entries[..j]).Success? && Complete(entries[j])
    ensures ConvertAll(entries[..j + 1]) == Success(ConvertAll(entries[..j]).value + [ToArticle(entries[j]).value])
  {
    assert entries[..j + 1][..j] == entries[..j];
  }

  /** Collecting one more feed runs its conversion after the earlier ones. */
  lemma CollectStep(feeds: seq<string>, parse: string -> seq<Entry>, i: nat)
    requires i < |feeds|
    ensures Collect(feeds[..i + 1], parse) == AndThen(Collect(feeds[..i], parse), ConvertAll(Head(parse(feeds[i]))))
  {
    CollectSnoc(feeds[..i], feeds[i], parse);
    assert feeds[..i] + [feeds[i]] == feeds[..i + 1];
  }

  /** Adding one feed at the end appends its records. */
  lemma CollectSnoc(feeds: seq<string>, url: string, parse: string -> seq<Entry>)
    ensures Collect(feeds + [url], parse) == AndThen(Collect(feeds, parse), ConvertAll(Head(parse(url))))
  {
    CollectConcat(feeds, [url], parse);
    var c := ConvertAll(Head(parse(url)));
    assert [url][1..] == [];
    if c.Success? {
      assert c.value + [] == c.value;
    }
  }

  /** Once feed `i` fails after the feeds before it succeeded, the result is its error. */
  lemma CollectAbortsAt(feeds: seq<string>, parse: string -> seq<Entry>, i: nat)
    requires i < |feeds| && Collect(feeds[..i], parse).Success?
    requires ConvertAll(Head(parse(feeds[i]))).Failure?
    ensures Collect(feeds, parse) == ConvertAll(Head(parse(feeds[i])))
  {
    var before, upto, after := feeds[..i], feeds[..i + 1], feeds[i + 1..];
    SplitAt(feeds, i);
    CollectSnoc(before, feeds[i], parse);
    CollectConcat(upto, after, parse);
  }

  /** Every entry among the first five of the feed at `url` is complete. */
  predicate FeedComplete(url: string, parse: string -> seq<Entry>)
  {
    var head := Head(parse(url));
    forall k :: 0 <= k < |head| ==> Complete(head[k])
  }

  lemma FeedCompleteIff(url: string, parse: string -> seq<Entry>)
    ensures ConvertAll(Head(parse(url))).Success? <==> FeedComplete(url, parse)
  {
  }

  /** The collection succeeds exactly when every entry among the first five of
      every feed has a title, a link and a summary. */
  lemma {:induction false} CollectSucceedsIff(feeds: seq<string>, parse: string -> seq<Entry>)
    ensures Collect(feeds, parse).Success? <==> forall i :: 0 <= i < |feeds| ==> FeedComplete(feeds[i], parse)
  {
    if feeds != [] {
      var rest := feeds[1..];
      CollectSucceedsIff(rest, parse);
      FeedCompleteIff(feeds[0], parse);
      assert forall i :: 0 <= i < |rest| ==> rest[i] == feeds[i + 1];
      assert (forall i :: 0 <= i < |feeds| ==> FeedComplete(feeds[i], parse)) <==>
        FeedComplete(feeds[0], parse) && forall i :: 0 <= i < |rest| ==> FeedComplete(rest[i], parse);
    }
  }

  /** Each feed contributes min(5, its entry count) records, so there are at most
      five per feed. */
  lemma {:induction false} CollectLength(feeds: seq<string>, parse: string -> seq<Entry>)
    requires Collect(feeds, parse).Success?
    ensures |Collect(feeds, parse).value| == Taken(feeds, parse)
    ensures Taken(feeds, parse) <= EntriesPerFeed * |feeds|
  {
    if feeds != [] {
      CollectLength(feeds[1..], parse);
    }
  }

  /** With the two configured feeds the digest holds at most ten articles. */
  lemma ConfiguredFeedsAtMostTen(parse: string -> seq<Entry>)
    requires Collect(RssFeeds, parse).Success?
    ensures |Collect(RssFeeds, parse).value| <= 10
  {
    CollectLength(RssFeeds, parse);
  }

  lemma AndThenAssociative(a: Result<seq<Article>, FetchError>, b: Result<seq<Article>, FetchError>, c: Result<seq<Article>, FetchError>)
    ensures AndThen(AndThen(a, b), c) == AndThen(a, AndThen(b, c))
  {
    if a.Success? && b.Success? && c.Success? {
      assert (a.value + b.value) + c.value == a.value + (b.value + c.value);
    }
  }

  /** Feed-major order: the result for a list of feeds is that of its first part
      followed by that of its second part (the first failure wins). */
  lemma {:induction false} CollectConcat(front: seq<string>, back: seq<string>, parse: string -> seq<Entry>)
    ensures Collect(front + back, parse) == AndThen(Collect(front, parse), Collect(back, parse))
  {
    if front == [] {
      assert front + back == back;
      var b := Collect(back, parse);
      if b.Success? {
        assert [] + b.value == b.value;
      }
    } else {
      var all := front + back;
      assert all[0] == front[0];
      assert all[1..] == front[1..] + back;
      CollectConcat(front[1..], back, parse);
      AndThenAssociative(ConvertAll(Head(parse(front[0]))), Collect(front[1..], parse), Collect(back, parse));
    }
  }

  /** The records of one feed are its first five entries, copied field by field
      in entry order. */
  lemma CollectOneFeed(url: string, parse: string -> seq<Entry>)
    requires Collect([url], parse).Success?
    ensures var arts := Collect([url], parse).value;
      var entries := parse(url);
      |arts| == |Head(entries)| &&
      forall k :: 0 <= k < |arts| ==>
        arts[k] == Article(entries[k].title.value, entries[k].link.value, entries[k].summary.value)
  {
    assert [url][..0] == [];
    ConvertAllCopies(Head(parse(url)));
  }

  // ---------------------------------------------------------------------------
  // create_email_content

  /** The text of the template before its replacement field. */
  const Header: string :=
    "\n    <html>" + "\n        <head></head>" + "\n        <body>" +
    "\n            <h2>" + "Today's " + "News Briefing" + "</h2>" + "\n            "

  /** The text of the template after its replacement field. */
  const Footer: string := "\n        </body>" + "\n    </html>" + "\n    "

  /** The HTML template, with its single automatically numbered field `{}`. */
  const Template: string := Header + "{}" + Footer

  /** The fixed text of an article block around its three fields. */
  const BlockOpen: string := "\n        <h3><a href=\""
  const LinkClose: string := "\">"
  const TitleClose: string := "</a></h3>" + "\n        <p>"
  const SummaryClose: string := "</p>" + "\n        <hr>" + "\n        "

  /** The block rendered for one article (the f-string in the loop). */
  function Block(a: Article): (r: string)
    ensures BlockOpen <= r
    ensures |r| >= |SummaryClose| && r[|r| - |SummaryClose|..] == SummaryClose
  {
    BlockOpen + a.link + LinkClose + a.title + TitleClose + a.summary + SummaryClose
  }

  /** The link, title and summary stand in the block exactly as given, at
      offsets fixed by the lengths of the fields before them: nothing is escaped. */
  lemma BlockFields(a: Article)
    ensures var b, l0 := Block(a), |BlockOpen|;
      var t0 := l0 + |a.link| + |LinkClose|;
      var s0 := t0 + |a.title| + |TitleClose|;
      |b| == s0 + |a.summary| + |SummaryClose| &&
      b[l0..l0 + |a.link|] == a.link &&
      b[t0..t0 + |a.title|] == a.title &&
      b[s0..s0 + |a.summary|] == a.summary
  {
    FieldsBetween(BlockOpen, a.link, LinkClose, a.title, TitleClose, a.summary, SummaryClose);
  }

  /** Three fields between four fixed texts can be read back by position. */
  lemma FieldsBetween(o: string, x: string, p: string, y: string, q: string, z: string, c: string)
    ensures var b := o + x + p + y + q + z + c;
      var y0 := |o| + |x| + |p|;
      var z0 := y0 + |y| + |q|;
      |b| == z0 + |z| + |c| &&
      b[|o|..|o| + |x|] == x && b[y0..y0 + |y|] == y && b[z0..z0 + |z|] == z
  {
    var b1, b2, b3 := o + x, o + x + p, o + x + p + y;
    var b4, b5, b6 := b3 + q, b3 + q + z, b3 + q + z + c;
    var x0, y0, z0 := |o|, |b2|, |b4|;
    SliceOfLast(o, x);
    SliceOfFront(b1, p, x0, x0 + |x|);
    SliceOfFront(b2, y, x0, x0 + |x|);
    SliceOfFront(b3, q, x0, x0 + |x|);
    SliceOfFront(b4, z, x0, x0 + |x|);
    SliceOfFront(b5, c, x0, x0 + |x|);
    SliceOfLast(b2, y);
    SliceOfFront(b3, q, y0, y0 + |y|);
    SliceOfFront(b4, z, y0, y0 + |y|);
    SliceOfFront(b5, c, y0, y0 + |y|);
    SliceOfLast(b4, z);
    SliceOfFront(b5, c, z0, z0 + |z|);
  }

  /** The concatenated blocks of `articles`, in order. */
  function Body(articles: seq<Article>): string
  {
    ConcatMap(articles, Block)
  }

  /** The body of a concatenation is the concatenation of the bodies; one
      article's body is its block. */
  lemma BodyConcat(xs: seq<Article>, ys: seq<Article>)
    ensures Body(xs + ys) == Body(xs) + Body(ys)
    ensures |xs| == 1 ==> Body(xs) == Block(xs[0])
  {
    ConcatMapConcat(xs, ys, Block);
    if |xs| == 1 {
      assert xs[..0] == [];
    }
  }

  /** Errors `str.format` raises on the templates it is given here. */
  datatype FormatError =
    | IndexOutOfRange     // a second `{}` with only one argument
    | SingleCloseBrace    // a `}` not doubled
    | UnsupportedField    // `{` opening anything but `{}` or `{{`

  function Prepend(s: string, r: Result<string, FormatError>): Result<string, FormatError>
  {
    match r
    case Success(v) => Success(s + v)
    case Failure(e) => Failure(e)
  }

  /** `t.format(arg)` for a template whose fields are all `{}`: doubled braces
      stand for one brace, the first `{}` becomes `arg`, verbatim. Only the
      template is scanned; `arg` is never interpreted. */
  function Format(t: string, arg: string, used: bool): (r: Result<string, FormatError>)
    ensures Plain(t) ==> r == Success(t)
    ensures t == "{}" ==> r == if used then Failure(IndexOutOfRange) else Success(arg)
    decreases |t|
  {
    if t == [] then Success("")
    else if t[0] == '{' then
      if |t| >= 2 && t[1] == '{' then Prepend("{", Format(t[2..], arg, used))
      else if |t| >= 2 && t[1] == '}' then
        if used then Failure(IndexOutOfRange)
        else
          assert t == "{}" ==> t[2..] == [] && arg + "" == arg;
          Prepend(arg, Format(t[2..], arg, true))
      else Failure(UnsupportedField)
    else if t[0] == '}' then
      if |t| >= 2 && t[1] == '}' then Prepend("}", Format(t[2..], arg, used))
      else Failure(SingleCloseBrace)
    else
      assert t == [t[0]] + t[1..];
      Prepend([t[0]], Format(t[1..], arg, used))
  }

  /** Text without braces passes through formatting unchanged. */
  lemma {:induction false} FormatPlainPrefix(s: string, rest: string, arg: string, used: bool)
    requires Plain(s)
    ensures Format(s + rest, arg, used) == Prepend(s, Format(rest, arg, used))
  {
    if s != [] {
      var t := s + rest;
      assert t[0] == s[0] && t[1..] == s[1..] + rest;
      FormatPlainPrefix(s[1..], rest, arg, used);
      match Format(rest, arg, used)
      case Success(v) =>
        assert [s[0]] + s[1..] == s;
        ConcatAssoc([s[0]], s[1..], v);
      case Failure(_) =>
    } else {
      assert s + rest == rest;
      match Format(rest, arg, used)
      case Success(v) => assert s + v == v;
      case Failure(_) =>
    }
  }

  /** Text holding no brace, which formatting copies unchanged. */
  predicate Plain(s: string)
  {
    '{' !in s && '}' !in s
  }

  lemma PlainConcat(a: string, b: string)
    requires Plain(a) && Plain(b)
    ensures Plain(a + b)
  {
    assert forall c :: c in a + b ==> c in a || c in b;
  }

  /** The literal pieces of the header and footer hold no brace. */
  lemma OpeningPlain()
    ensures Plain("\n    <html>") && Plain("\n        <head></head>") && Plain("\n        <body>")
  {
  }

  lemma HeadingPlain()
    ensures Plain("\n            <h2>") && Plain("Today's ") && Plain("News Briefing")
    ensures Plain("</h2>") && Plain("\n            ")
  {
  }

  lemma ClosingPlain()
    ensures Plain("\n        </body>") && Plain("\n    </html>") && Plain("\n    ")
  {
  }

  lemma HeaderPlain()
    ensures Plain(Header)
  {
    var h1, h2, h3, h4 := "\n    <html>", "\n        <head></head>", "\n        <body>", "\n            <h2>";
    var h5, h6, h7, h8 := "Today's ", "News Briefing", "</h2>", "\n            ";
    OpeningPlain();
    HeadingPlain();
    PlainConcat(h1, h2);
    PlainConcat(h1 + h2, h3);
    PlainConcat(h1 + h2 + h3, h4);
    PlainConcat(h1 + h2 + h3 + h4, h5);
    PlainConcat(h1 + h2 + h3 + h4 + h5, h6);
    PlainConcat(h1 + h2 + h3 + h4 + h5 + h6, h7);
    PlainConcat(h1 + h2 + h3 + h4 + h5 + h6 + h7, h8);
  }

  lemma FooterPlain()
    ensures Plain(Footer)
  {
    var f1, f2, f3 := "\n        </body>", "\n    </html>", "\n    ";
    ClosingPlain();
    PlainConcat(f1, f2);
    PlainConcat(f1 + f2, f3);
  }

  /** Formatting the digest template with any body yields header, body, footer:
      whatever braces the body holds. */
  lemma TemplateFormat(body: string)
    ensures Format(Template, body, false) == Success(Header + body + Footer)
  {
    HeaderPlain();
    FooterPlain();
    FormatPlainPrefix(Footer, "", body, true);
    assert Footer + "" == Footer;
    var t := "{}" + Footer;
    assert Format(t, body, false) == Prepend(body, Format(Footer, body, true)) by {
      assert t[0] == '{' && t[1] == '}' && t[2..] == Footer;
    }
    assert Template == Header + t;
    FormatPlainPrefix(Header, t, body, false);
    assert Header + (body + Footer) == Header + body + Footer;
  }

  /** `create_email_content`: concatenate one block per article, then fill the
      template's field with the result. */
  method CreateEmailContent(articles: seq<Article>) returns (html: string)
    ensures html == Header + Body(articles) + Footer
  {
    var entries := "";
    for i := 0 to |articles|
      invariant entries == Body(articles[..i])
    {
      assert articles[..i + 1][..i] == articles[..i];
      entries := entries + Block(articles[i]);
    }
    assert articles[..|articles|] == articles;
    var formatted := Format(Template, entries, false);
    TemplateFormat(entries);
    html := formatted.value;
  }
}
