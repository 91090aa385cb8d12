/**
 * A functional reference for the crawl of scripts/scrape-site.ts: what `downloadImage` and
 * `scrapePage` do to the crawl's state, written as functions of the old state. The class in
 * crawler.dfy runs the same steps imperatively and is proved to agree with these functions.
 *
 * The network, the disk and the HTML parser are outside the model: `Env` supplies the URL
 * parser, the parsed document of a page fetch (or its failure), whether an image download and
 * write succeeds, and whether a page file can be written. The disk is the set of file names in
 * the images directory plus a map from page file name to the page last written there.
 */
module CrawlSpec {
  import opened Wrappers
  import opened Text
  import opened Urls

  /** An `<img>` element: its `src` and `data-src` attributes. */
  datatype ImgElement = ImgElement(src: Option<string>, dataSrc: Option<string>)

  /** What the crawler reads from a fetched page. */
  datatype Document = Document(title: string, bodyText: string, html: string, images: seq<ImgElement>, hrefs: seq<Option<string>>)

  datatype Env = Env(
    parse: UrlParser,
    fetchPage: string -> Option<Document>,  // `axios.get` of a page and `cheerio.load`; None when it throws
    fetchImage: string -> bool,             // `axios.get` of an image and `fs.writeFileSync` both succeed
    writePage: string -> bool)              // `fs.writeFileSync` of a page record succeeds; keyed by
                                            // file name, so URLs that share a `PageFilename` succeed
                                            // or fail together, as on a real disk

  /** `ScrapedPage`: the record saved per page. */
  datatype ScrapedPage = ScrapedPage(url: string, title: string, content: string, html: string, images: seq<string>)

  /**
   * The crawl's state: `visitedUrls`, `imageUrls` and `pages`, the disk, and three histories kept
   * for the proofs: the image candidate list of each page (parallel to `pages`), the URLs whose
   * page was fetched and the image URLs that were fetched, in order.
   */
  datatype CrawlState = CrawlState(
    visited: set<string>,
    imageUrls: set<string>,
    pages: seq<ScrapedPage>,
    imageFiles: set<string>,
    pageFiles: map<string, ScrapedPage>,
    candidates: seq<seq<string>>,
    pageFetches: seq<string>,
    imageFetches: seq<string>)

  /** The state at the start of a run: empty sets, with whatever files the disk already holds. */
  function Initial(imageFiles: set<string>, pageFiles: map<string, ScrapedPage>): CrawlState {
    CrawlState({}, {}, [], imageFiles, pageFiles, [], [], [])
  }

  const MaxFollow := 10

  function Normalize(env: Env, url: string, baseUrl: string): string {
    NormalizeUrl(env.parse, url, baseUrl)
  }

  /** No element repeats. */
  predicate NoDup<T(==)>(s: seq<T>) {
    forall i, j :: 0 <= i < j < |s| ==> s[i] != s[j]
  }

  function Elements<T>(s: seq<T>): set<T> {
    set x | x in s
  }

  // ---------------------------------------------------------------------------------------------
  // One page

  /** `$('title').text() || 'Untitled'` */
  function PageTitle(doc: Document): (r: string)
    ensures r != ""
    ensures doc.title != "" ==> r == doc.title
  {
    if doc.title == "" then "Untitled" else doc.title
  }

  /** `attr('src') || attr('data-src')`, with '' for "no usable value". */
  function ImageSource(e: ImgElement): (r: string)
    ensures e.src.Some? && e.src.value != "" ==> r == e.src.value
    ensures (e.src.None? || e.src == Some("")) && e.dataSrc.Some? ==> r == e.dataSrc.value
    ensures (e.src.None? || e.src == Some("")) && e.dataSrc.None? ==> r == ""
    ensures r != "" ==> e.src == Some(r) || e.dataSrc == Some(r)
  {
    if e.src.Some? && e.src.value != "" then e.src.value
    else if e.dataSrc.Some? then e.dataSrc.value
    else ""
  }

  /** The image URL of an `<img>` element of the page at `pageUrl`, or '' when there is none. */
  function ImageUrlOf(env: Env, e: ImgElement, pageUrl: string): (r: string)
    ensures ImageSource(e) == "" ==> r == ""
    ensures ImageSource(e) != "" ==> r == Normalize(env, ImageSource(e), pageUrl)
    ensures '#' !in r
  {
    var src := ImageSource(e);
    if src == "" then "" else Normalize(env, src, pageUrl)
  }

  datatype Collected = Collected(seen: set<string>, found: seq<string>)

  /**
   * The `$('img').each` loop: each image URL not seen before joins the page's candidate list and
   * the set of seen image URLs.
   */
  function CollectImages(env: Env, seen: set<string>, imgs: seq<ImgElement>, pageUrl: string): (r: Collected)
    ensures NoDup(r.found)
    ensures forall i :: 0 <= i < |r.found| ==> r.found[i] !in seen && r.found[i] != ""
    ensures r.seen == seen + Elements(r.found)
    ensures |r.found| <= |imgs|
  {
    if imgs == [] then Collected(seen, [])
    else
      var c := CollectImages(env, seen, imgs[..|imgs| - 1], pageUrl);
      var u := ImageUrlOf(env, imgs[|imgs| - 1], pageUrl);
      if u != "" && u !in c.seen then Collected(c.seen + {u}, c.found + [u]) else c
  }

  /** Every `<img>` whose image URL is non-empty and not seen before becomes a candidate. */
  lemma {:induction false} CollectImagesComplete(env: Env, seen: set<string>, imgs: seq<ImgElement>, pageUrl: string, j: nat)
    requires j < |imgs|
    requires ImageUrlOf(env, imgs[j], pageUrl) != "" && ImageUrlOf(env, imgs[j], pageUrl) !in seen
    ensures ImageUrlOf(env, imgs[j], pageUrl) in CollectImages(env, seen, imgs, pageUrl).found
  {
    var init := imgs[..|imgs| - 1];
    var c := CollectImages(env, seen, init, pageUrl);
    var u := ImageUrlOf(env, imgs[j], pageUrl);
    if j < |init| {
      assert init[j] == imgs[j];
      CollectImagesComplete(env, seen, init, pageUrl, j);
    } else if u in c.seen {
      assert u in Elements(c.found);
    }
  }

  /** Every candidate is the image URL of some `<img>` of the page. */
  lemma {:induction false} CollectImagesSound(env: Env, seen: set<string>, imgs: seq<ImgElement>, pageUrl: string, k: nat)
    returns (j: nat)
    requires k < |CollectImages(env, seen, imgs, pageUrl).found|
    ensures j < |imgs| && ImageUrlOf(env, imgs[j], pageUrl) == CollectImages(env, seen, imgs, pageUrl).found[k]
  {
    var init := imgs[..|imgs| - 1];
    var c := CollectImages(env, seen, init, pageUrl);
    if k < |c.found| {
      j := CollectImagesSound(env, seen, init, pageUrl, k);
      assert init[j] == imgs[j];
    } else {
      j := |imgs| - 1;
    }
  }

  /**
   * Document order: the images of two consecutive runs of `<img>` elements are collected one run
   * after the other, the second starting from the URLs the first has seen.
   */
  lemma {:induction false} CollectImagesAppend(env: Env, seen: set<string>, a: seq<ImgElement>, b: seq<ImgElement>, pageUrl: string)
    ensures var ca := CollectImages(env, seen, a, pageUrl);
            var cb := CollectImages(env, ca.seen, b, pageUrl);
            CollectImages(env, seen, a + b, pageUrl) == Collected(cb.seen, ca.found + cb.found)
    decreases |b|
  {
    var ca := CollectImages(env, seen, a, pageUrl);
    if b == [] {
      assert a + b == a;
    } else {
      var b' := b[..|b| - 1];
      var e := b[|b| - 1];
      assert (a + b)[..|a + b| - 1] == a + b';
      assert (a + b)[|a + b| - 1] == e;
      CollectImagesAppend(env, seen, a, b', pageUrl);
      var cb' := CollectImages(env, ca.seen, b', pageUrl);
      var u := ImageUrlOf(env, e, pageUrl);
      if u != "" && u !in cb'.seen {
        assert ca.found + (cb'.found + [u]) == ca.found + cb'.found + [u];
      }
    }
  }

  datatype Download = Download(imageFiles: set<string>, path: Option<string>, fetched: bool)

  /** The local path `/images/<f>` of a file `f` present in `files`. */
  predicate IsLocalImage(p: string, files: set<string>) {
    StartsWith(p, "/images/") && p[|"/images/"|..] in files
  }

  /**
   * `downloadImage(imageUrl)`: the file name is the basename of the URL's path, resolved against
   * `BASE_URL` ('image.jpg' when empty). A file of that name already on disk is reused without a
   * fetch; otherwise the image is fetched and written, and a failure gives `null`.
   */
  function DownloadImage(env: Env, files: set<string>, imageUrl: string): (r: Download)
    ensures files <= r.imageFiles
    ensures r.path.Some? ==> IsLocalImage(r.path.value, r.imageFiles)
    ensures !r.fetched ==> r.imageFiles == files
    ensures env.parse(imageUrl, Some(BaseUrl)).None? ==> r == Download(files, None, false)
    ensures env.parse(imageUrl, Some(BaseUrl)).Some? ==>
              var f := ImageFilename(env.parse(imageUrl, Some(BaseUrl)).value.pathname);
              && (f in files ==> r == Download(files, Some(ImagePath(f)), false))
              && (f !in files && env.fetchImage(imageUrl) ==> r == Download(files + {f}, Some(ImagePath(f)), true))
              && (f !in files && !env.fetchImage(imageUrl) ==> r == Download(files, None, true))
  {
    match env.parse(imageUrl, Some(BaseUrl))
    case None => Download(files, None, false)
    case Some(u) =>
      var f := ImageFilename(u.pathname);
      if f in files then Download(files, Some(ImagePath(f)), false)
      else if env.fetchImage(imageUrl) then Download(files + {f}, Some(ImagePath(f)), true)
      else Download(files, None, true)
  }

  /** Once an image has a local path, asking for it again gives the same path with no fetch. */
  lemma DownloadAgainIsCached(env: Env, files: set<string>, imageUrl: string)
    requires DownloadImage(env, files, imageUrl).path.Some?
    ensures var d := DownloadImage(env, files, imageUrl);
            DownloadImage(env, d.imageFiles, imageUrl) == Download(d.imageFiles, d.path, false)
  {
    var f := ImageFilename(env.parse(imageUrl, Some(BaseUrl)).value.pathname);
    assert f in DownloadImage(env, files, imageUrl).imageFiles;
  }

  datatype Downloads = Downloads(imageFiles: set<string>, paths: seq<string>, fetches: seq<string>)

  /** The download loop: the non-null local paths in candidate order, and the URLs fetched. */
  function DownloadAll(env: Env, files: set<string>, urls: seq<string>): (r: Downloads)
    ensures files <= r.imageFiles
    ensures |r.paths| <= |urls| && |r.fetches| <= |urls|
  {
    if urls == [] then Downloads(files, [], [])
    else
      var d := DownloadAll(env, files, urls[..|urls| - 1]);
      Record(d, DownloadImage(env, d.imageFiles, urls[|urls| - 1]), urls[|urls| - 1])
  }

  /** Every kept path names a file present on disk. */
  predicate PathsOnDisk(d: Downloads) {
    forall i :: 0 <= i < |d.paths| ==> IsLocalImage(d.paths[i], d.imageFiles)
  }

  /** Every fetched URL is one of `urls`, and none twice when `urls` has no repeats. */
  predicate FetchesAmong(d: Downloads, urls: seq<string>) {
    && (forall i :: 0 <= i < |d.fetches| ==> d.fetches[i] in urls)
    && (NoDup(urls) ==> NoDup(d.fetches))
  }

  /**
   * Every path the download loop keeps names a file on disk afterwards; every URL it fetched is
   * one of the candidates, and no candidate is fetched twice when the candidates are distinct.
   */
  lemma {:induction false} DownloadAllFacts(env: Env, files: set<string>, urls: seq<string>)
    ensures PathsOnDisk(DownloadAll(env, files, urls))
    ensures FetchesAmong(DownloadAll(env, files, urls), urls)
  {
    if urls != [] {
      var prev := urls[..|urls| - 1];
      var u := urls[|urls| - 1];
      DownloadAllFacts(env, files, prev);
      var d := DownloadAll(env, files, prev);
      var one := DownloadImage(env, d.imageFiles, u);
      assert urls == prev + [u];
      DownloadStep(d, one, prev, u);
    }
  }

  /** Downloading one more candidate extends the loop's result by exactly that candidate's download. */
  lemma DownloadAllNext(env: Env, files: set<string>, urls: seq<string>, i: nat)
    requires i < |urls|
    ensures var d := DownloadAll(env, files, urls[..i]);
            DownloadAll(env, files, urls[..i + 1]) == Record(d, DownloadImage(env, d.imageFiles, urls[i]), urls[i])
  {
    assert urls[..i + 1][..i] == urls[..i];
  }

  /** One iteration of the download loop: keep the path if there is one, log the fetch if any. */
  function Record(d: Downloads, one: Download, u: string): Downloads {
    Downloads(one.imageFiles,
              d.paths + (if one.path.Some? then [one.path.value] else []),
              d.fetches + (if one.fetched then [u] else []))
  }

  lemma DownloadStep(d: Downloads, one: Download, prev: seq<string>, u: string)
    requires d.imageFiles <= one.imageFiles
    requires one.path.Some? ==> IsLocalImage(one.path.value, one.imageFiles)
    requires PathsOnDisk(d) && FetchesAmong(d, prev)
    ensures PathsOnDisk(Record(d, one, u)) && FetchesAmong(Record(d, one, u), prev + [u])
  {
    var r := Record(d, one, u);
    assert forall i :: 0 <= i < |d.paths| ==> r.paths[i] == d.paths[i];
    assert forall i :: 0 <= i < |d.fetches| ==> r.fetches[i] == d.fetches[i];
    if NoDup(prev + [u]) {
      var w := prev + [u];
      assert forall i :: 0 <= i < |prev| ==> w[i] == prev[i] && w[i] != w[|prev|];
      assert u !in prev && NoDup(prev);
      forall i, j | 0 <= i < j < |r.fetches| ensures r.fetches[i] != r.fetches[j] {
        if j >= |d.fetches| {
          assert r.fetches[j] == u && r.fetches[i] == d.fetches[i] && d.fetches[i] in prev;
        }
      }
    }
  }

  /** The link an `<a>` element with attribute `h` contributes, or '' when it is not kept. */
  function LinkOf(env: Env, h: Option<string>, pageUrl: string): (r: string)
    ensures r != "" ==> StartsWith(r, BaseUrl) && '#' !in r
    ensures r != "" ==> h.Some? && r == Normalize(env, h.value, pageUrl)
    ensures h.Some? && h.value != "" && StartsWith(Normalize(env, h.value, pageUrl), BaseUrl) ==>
              r == Normalize(env, h.value, pageUrl)
    ensures h.None? || h.value == "" ==> r == ""
  {
    var link := if h.Some? && h.value != "" then Normalize(env, h.value, pageUrl) else "";
    if link != "" && StartsWith(link, BaseUrl) then link else ""
  }

  /** The `$('a').each` loop: the normalized hrefs that start with `BASE_URL`, in document order. */
  function LinksOf(env: Env, hrefs: seq<Option<string>>, pageUrl: string): (r: seq<string>)
    ensures |r| <= |hrefs|
    ensures forall i :: 0 <= i < |r| ==> StartsWith(r[i], BaseUrl) && '#' !in r[i]
  {
    if hrefs == [] then []
    else
      var link := LinkOf(env, hrefs[|hrefs| - 1], pageUrl);
      LinksOf(env, hrefs[..|hrefs| - 1], pageUrl) + (if link != "" then [link] else [])
  }

  /** Document order: the links of two consecutive runs of `<a>` elements are concatenated. */
  lemma {:induction false} LinksOfAppend(env: Env, a: seq<Option<string>>, b: seq<Option<string>>, pageUrl: string)
    ensures LinksOf(env, a + b, pageUrl) == LinksOf(env, a, pageUrl) + LinksOf(env, b, pageUrl)
    decreases |b|
  {
    if b == [] {
      assert a + b == a;
    } else {
      var b' := b[..|b| - 1];
      var last := if LinkOf(env, b[|b| - 1], pageUrl) != "" then [LinkOf(env, b[|b| - 1], pageUrl)] else [];
      assert (a + b)[..|a + b| - 1] == a + b';
      assert (a + b)[|a + b| - 1] == b[|b| - 1];
      assert LinksOf(env, a + b, pageUrl) == LinksOf(env, a + b', pageUrl) + last;
      assert LinksOf(env, b, pageUrl) == LinksOf(env, b', pageUrl) + last;
      LinksOfAppend(env, a, b', pageUrl);
    }
  }

  /** Some `<a>` element of the page contributes `link`. */
  predicate LinkedFrom(env: Env, hrefs: seq<Option<string>>, pageUrl: string, link: string) {
    exists j :: 0 <= j < |hrefs| && LinkOf(env, hrefs[j], pageUrl) == link
  }

  /**
   * A link is listed exactly when it is non-empty and some `<a>` element contributes it: every
   * kept href is listed, duplicates included, and nothing else is.
   */
  lemma LinksOfMembers(env: Env, hrefs: seq<Option<string>>, pageUrl: string, link: string)
    ensures link in LinksOf(env, hrefs, pageUrl) <==> link != "" && LinkedFrom(env, hrefs, pageUrl, link)
  {
    if link in LinksOf(env, hrefs, pageUrl) {
      var j := ListedIsLinked(env, hrefs, pageUrl, link);
    }
    if link != "" && LinkedFrom(env, hrefs, pageUrl, link) {
      var j :| 0 <= j < |hrefs| && LinkOf(env, hrefs[j], pageUrl) == link;
      LinkedIsListed(env, hrefs, pageUrl, j);
    }
  }

  lemma {:induction false} ListedIsLinked(env: Env, hrefs: seq<Option<string>>, pageUrl: string, link: string)
    returns (j: nat)
    requires link in LinksOf(env, hrefs, pageUrl)
    ensures link != "" && j < |hrefs| && LinkOf(env, hrefs[j], pageUrl) == link
  {
    var init := hrefs[..|hrefs| - 1];
    var last := LinkOf(env, hrefs[|hrefs| - 1], pageUrl);
    if link in LinksOf(env, init, pageUrl) {
      j := ListedIsLinked(env, init, pageUrl, link);
      assert hrefs[j] == init[j];
    } else {
      j := |hrefs| - 1;
    }
  }

  lemma {:induction false} LinkedIsListed(env: Env, hrefs: seq<Option<string>>, pageUrl: string, j: nat)
    requires j < |hrefs| && LinkOf(env, hrefs[j], pageUrl) != ""
    ensures LinkOf(env, hrefs[j], pageUrl) in LinksOf(env, hrefs, pageUrl)
  {
    var init := hrefs[..|hrefs| - 1];
    if j < |init| {
      assert init[j] == hrefs[j];
      LinkedIsListed(env, init, pageUrl, j);
    }
  }

  /** `links.slice(0, 10)`: the links followed from one page. */
  function FollowList(links: seq<string>): (r: seq<string>)
    ensures |r| == Min(MaxFollow, |links|) && r == links[..|r|]
    ensures |links| <= MaxFollow ==> r == links
  {
    if |links| <= MaxFollow then links else links[..MaxFollow]
  }

  /** The page is built and pushed: images collected and downloaded, the record appended. */
  function AddPage(env: Env, st: CrawlState, url: string, doc: Document): (r: CrawlState)
    ensures r.visited == st.visited && r.pageFetches == st.pageFetches && r.pageFiles == st.pageFiles
    ensures |r.pages| == |st.pages| + 1 && r.pages[..|st.pages|] == st.pages
    ensures |r.candidates| == |st.candidates| + 1 && r.candidates[..|st.candidates|] == st.candidates
    ensures var c := CollectImages(env, st.imageUrls, doc.images, url);
            var d := DownloadAll(env, st.imageFiles, c.found);
            && r.pages[|st.pages|] == ScrapedPage(url, PageTitle(doc), Trim(doc.bodyText), doc.html, d.paths)
            && r.candidates[|st.candidates|] == c.found
            && r.imageUrls == c.seen && r.imageFiles == d.imageFiles
            && r.imageFetches == st.imageFetches + d.fetches
    ensures forall i :: 0 <= i < |r.pages[|st.pages|].images| ==> IsLocalImage(r.pages[|st.pages|].images[i], r.imageFiles)
    ensures Extends(st, r)
  {
    var c := CollectImages(env, st.imageUrls, doc.images, url);
    var d := DownloadAll(env, st.imageFiles, c.found);
    DownloadAllFacts(env, st.imageFiles, c.found);
    var page := ScrapedPage(url, PageTitle(doc), Trim(doc.bodyText), doc.html, d.paths);
    st.(imageUrls := c.seen, imageFiles := d.imageFiles, imageFetches := st.imageFetches + d.fetches,
        pages := st.pages + [page], candidates := st.candidates + [c.found])
  }

  // ---------------------------------------------------------------------------------------------
  // The recursion

  /** The links `scrapePage` follows from the page `url` whose document is `doc`. */
  function FollowedLinks(env: Env, url: string, doc: Document): seq<string> {
    FollowList(LinksOf(env, doc.hrefs, url))
  }

  /** `url` names no page (it does not normalize) or a page of `universe`. */
  ghost predicate Inside(env: Env, universe: set<string>, url: string) {
    var nu := Normalize(env, url, BaseUrl);
    nu == "" || nu in universe
  }

  ghost predicate AllInside(env: Env, universe: set<string>, links: seq<string>) {
    forall i :: 0 <= i < |links| ==> Inside(env, universe, links[i])
  }

  /**
   * `universe` is closed under the links the crawl follows: every page of `universe` that loads
   * and whose record is written links only to pages of `universe`. A page whose write throws
   * follows no links, so it constrains nothing. With the root inside, `universe` holds every page
   * the crawl can reach, so the crawl reaches finitely many pages and `scrapePage` returns. The
   * converse needs the URL parser to map every followed link, already normalized, to itself:
   * a link that is skipped because it is visited must still normalize into `universe`. Pages
   * outside what is reached are unconstrained.
   */
  ghost predicate Closed(env: Env, universe: set<string>) {
    forall u :: u in universe && env.fetchPage(u).Some? && env.writePage(PageFilename(u)) ==>
      AllInside(env, universe, FollowedLinks(env, u, env.fetchPage(u).value))
  }

  /** A site whose pages hold no links is closed over any set of pages, whatever the URL parser. */
  lemma ClosedForLinklessSite(env: Env, universe: set<string>)
    requires forall u :: env.fetchPage(u).Some? ==> env.fetchPage(u).value.hrefs == []
    ensures Closed(env, universe)
  {
  }

  /**
   * On a disk where no page record can be written, the crawl stops after the root, whatever the
   * pages link to: the root alone is closed.
   */
  lemma ClosedWhenWritesFail(env: Env)
    requires forall f :: !env.writePage(f)
    ensures Closed(env, {Normalize(env, BaseUrl, BaseUrl)}) && Inside(env, {Normalize(env, BaseUrl, BaseUrl)}, BaseUrl)
  {
  }

  /**
   * `r` is a later state of the same run: the sets only grow, and the page list and the histories
   * are only appended to.
   */
  ghost predicate Extends(st: CrawlState, r: CrawlState) {
    && st.visited <= r.visited && st.imageUrls <= r.imageUrls && st.imageFiles <= r.imageFiles
    && StartsWith(r.pages, st.pages) && StartsWith(r.candidates, st.candidates)
    && StartsWith(r.pageFetches, st.pageFetches) && StartsWith(r.imageFetches, st.imageFetches)
  }

  /** `scrapePage(url)` */
  function Scrape(env: Env, universe: set<string>, st: CrawlState, url: string): (r: CrawlState)
    requires Closed(env, universe) && Inside(env, universe, url)
    ensures Extends(st, r)
    ensures Normalize(env, url, BaseUrl) == "" || Normalize(env, url, BaseUrl) in r.visited
    decreases universe - st.visited, 0, 0
  {
    var nu := Normalize(env, url, BaseUrl);
    if nu == "" || nu in st.visited then st
    else
      var st1 := st.(visited := st.visited + {nu}, pageFetches := st.pageFetches + [nu]);
      match env.fetchPage(nu)
      case None => st1
      case Some(doc) =>
        var st2 := AddPage(env, st1, nu, doc);
        var filename := PageFilename(nu);
        if !env.writePage(filename) then st2
        else
          var st3 := st2.(pageFiles := st2.pageFiles[filename := st2.pages[|st1.pages|]]);
          var r := ScrapeLinks(env, universe, st3, FollowedLinks(env, nu, doc));
          assert Extends(st, st3) && Extends(st3, r);
          r
  }

  /** The `for (const link of links.slice(0, 10))` loop: links already visited are skipped. */
  function ScrapeLinks(env: Env, universe: set<string>, st: CrawlState, links: seq<string>): (r: CrawlState)
    requires Closed(env, universe) && AllInside(env, universe, links)
    ensures Extends(st, r)
    decreases universe - st.visited, 1, |links|
  {
    if links == [] then st
    else
      var next := if links[0] in st.visited then st else Scrape(env, universe, st, links[0]);
      var r := ScrapeLinks(env, universe, next, links[1..]);
      assert Extends(st, next) && Extends(next, r);
      r
  }

  /** `main`: one crawl from the root over a disk that may already hold files. */
  function Crawl(env: Env, universe: set<string>, imageFiles: set<string>, pageFiles: map<string, ScrapedPage>): (r: CrawlState)
    requires Closed(env, universe) && Inside(env, universe, BaseUrl)
    ensures Normalize(env, BaseUrl, BaseUrl) == "" || Normalize(env, BaseUrl, BaseUrl) in r.visited
  {
    Scrape(env, universe, Initial(imageFiles, pageFiles), BaseUrl)
  }

  datatype PageSummary = PageSummary(url: string, title: string, imageCount: nat)
  datatype Summary = Summary(totalPages: nat, totalImages: nat, pages: seq<PageSummary>)

  /** The summary written at the end of `main`. */
  function Summarize(pages: seq<ScrapedPage>, imageUrls: set<string>): (r: Summary)
    ensures r.totalPages == |pages| == |r.pages| && r.totalImages == |imageUrls|
    ensures forall i :: 0 <= i < |pages| ==>
              r.pages[i] == PageSummary(pages[i].url, pages[i].title, |pages[i].images|)
  {
    Summary(|pages|, |imageUrls|,
            seq(|pages|, i requires 0 <= i < |pages| => PageSummary(pages[i].url, pages[i].title, |pages[i].images|)))
  }
}
