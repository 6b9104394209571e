/**
 Record construction in `UpWorkJobScraper.scraping` (main.py:60-71): each
 job article becomes one row, with a sentinel for every field the page did
 not have.  The HTML lookups themselves are not modelled: an article is
 given as what each lookup found.
 */
module Extraction {
  import opened Wrappers
  import opened Records

  /** The value stored for a field the article does not have. */
  const NotFound: string := "Data not found"

  /** The prefix put in front of a found link's `href`. */
  const UpworkBase: string := "https://www.upwork.com"

  /** The `a.up-n-link` element: its `href` attribute may be absent. */
  datatype Anchor = Anchor(href: Option<string>)

  /** What the four `article.find(...)` calls found: the text of the title,
      posted-at and payment-info elements, and the link element. */
  datatype Article = Article(
    title: Option<string>,
    posted: Option<string>,
    paymentInfo: Option<string>,
    link: Option<Anchor>)

  /** `e.getText() if e else 'Data not found'`. */
  function FieldText(e: Option<string>): string {
    match e
    case None => NotFound
    case Some(text) => text
  }

  /** Python's f-string rendering of `link.get('href')`: `None` when the
      attribute is absent. */
  function HrefText(href: Option<string>): string {
    match href
    case None => "None"
    case Some(h) => h
  }

  /** `f"https://www.upwork.com{link.get('href')}" if link else 'Data not found'`:
      a link starts with the site prefix exactly when the article had a link
      element, and then the rest of it is the `href`. */
  function LinkText(link: Option<Anchor>): (s: string)
    ensures link.Some? <==> UpworkBase <= s
    ensures link.Some? ==> s[|UpworkBase|..] == HrefText(link.value.href)
    ensures link.None? ==> s == NotFound
  {
    match link
    case None => NotFound
    case Some(a) => UpworkBase + HrefText(a.href)
  }

  /** The row built for one article (main.py:66-71). */
  function BuildRecord(a: Article): (r: JobRecord)
    ensures a.title.None? ==> r.title == NotFound
    ensures a.posted.None? ==> r.posted == NotFound
    ensures a.paymentInfo.None? ==> r.paymentInfo == NotFound
    ensures a.link.None? ==> r.link == NotFound
    ensures a.link.Some? <==> UpworkBase <= r.link
  {
    JobRecord(FieldText(a.title), FieldText(a.posted), FieldText(a.paymentInfo), LinkText(a.link))
  }

  /** Rows are built one per article, in page order. */
  function BuildAll(articles: seq<Article>): (rows: seq<JobRecord>)
    ensures |rows| == |articles|
  {
    seq(|articles|, i requires 0 <= i < |articles| => BuildRecord(articles[i]))
  }

  /** An article without any of the four elements becomes a row of four
      sentinels; two such articles are the same listing. */
  lemma EmptyArticle(a: Article)
    requires a.title.None? && a.posted.None? && a.paymentInfo.None? && a.link.None?
    ensures BuildRecord(a) == JobRecord(NotFound, NotFound, NotFound, NotFound)
  {
  }
}
