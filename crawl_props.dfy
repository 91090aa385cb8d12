/**
 * Properties of the crawl of scripts/scrape-site.ts, proved on the functional reference in
 * CrawlSpec (and so, through the methods' postconditions, of the Crawler class).
 */
module CrawlProperties {
  import opened Wrappers
  import opened Text
  import opened Urls
  import opened CrawlSpec

  /**
   * The outcome of one `scrapePage` call. A URL that does not normalize, or whose normalized
   * form is already visited, changes nothing. Otherwise the URL is marked visited and fetched
   * once; after a failed fetch nothing else changes, and after a successful one the page is the
   * next one pushed, before any page reached through its links.
   */
  lemma ScrapeOutcome(env: Env, universe: set<string>, st: CrawlState, url: string)
    requires Closed(env, universe) && Inside(env, universe, url)
    ensures var r := Scrape(env, universe, st, url);
            var nu := Normalize(env, url, BaseUrl);
            if nu == "" || nu in st.visited then r == st
            else
              && nu in r.visited
              && |r.pageFetches| > |st.pageFetches| && r.pageFetches[|st.pageFetches|] == nu
              && (env.fetchPage(nu).None? ==>
                    r == st.(visited := st.visited + {nu}, pageFetches := st.pageFetches + [nu]))
              && (env.fetchPage(nu).Some? ==> |r.pages| > |st.pages| && r.pages[|st.pages|].url == nu)
  {
    var nu := Normalize(env, url, BaseUrl);
    if nu != "" && nu !in st.visited {
      var st1 := st.(visited := st.visited + {nu}, pageFetches := st.pageFetches + [nu]);
      match env.fetchPage(nu)
      case None =>
      case Some(doc) =>
        var st2 := AddPage(env, st1, nu, doc);
        assert st2.pages[|st.pages|].url == nu;
        var filename := PageFilename(nu);
        if env.writePage(filename) {
          var st3 := st2.(pageFiles := st2.pageFiles[filename := st2.pages[|st1.pages|]]);
          var r := ScrapeLinks(env, universe, st3, FollowedLinks(env, nu, doc));
          assert Extends(st3, r);
          assert r.pages[|st.pages|] == st3.pages[|st.pages|];
          assert r.pageFetches[|st.pageFetches|] == st3.pageFetches[|st.pageFetches|];
        }
    }
  }

  // ---------------------------------------------------------------------------------------------
  // The follow loop

  /** `link` was visited as it stands, or it normalizes to '' or to a visited URL. */
  ghost predicate Reached(env: Env, st: CrawlState, link: string) {
    var nu := Normalize(env, link, BaseUrl);
    link in st.visited || nu == "" || nu in st.visited
  }

  /**
   * Every link of the follow list is dealt with: afterwards it is visited, or it names no page,
   * or the page it names is visited.
   */
  lemma {:induction false} ScrapeLinksReaches(env: Env, universe: set<string>, st: CrawlState, links: seq<string>, i: nat)
    requires Closed(env, universe) && AllInside(env, universe, links)
    requires i < |links|
    ensures Reached(env, ScrapeLinks(env, universe, st, links), links[i])
    decreases i
  {
    var next := if links[0] in st.visited then st else Scrape(env, universe, st, links[0]);
    var rest := links[1..];
    AllInsideTail(env, universe, links);
    var r := ScrapeLinks(env, universe, next, rest);
    assert ScrapeLinks(env, universe, st, links) == r;
    if i == 0 {
      assert Reached(env, next, links[0]);
      assert next.visited <= r.visited;
    } else {
      assert rest[i - 1] == links[i];
      ScrapeLinksReaches(env, universe, next, rest, i - 1);
    }
  }

  lemma AllInsideTail(env: Env, universe: set<string>, links: seq<string>)
    requires links != [] && AllInside(env, universe, links)
    ensures AllInside(env, universe, links[1..])
  {
    assert forall k :: 0 <= k < |links| - 1 ==> links[1..][k] == links[k + 1];
  }

  lemma AllInsideAppend(env: Env, universe: set<string>, a: seq<string>, b: seq<string>)
    requires AllInside(env, universe, a) && AllInside(env, universe, b)
    ensures AllInside(env, universe, a + b)
  {
    assert forall k :: 0 <= k < |a + b| ==> (a + b)[k] == if k < |a| then a[k] else b[k - |a|];
  }

  /** The links are followed one after the other, in list order. */
  lemma {:induction false} ScrapeLinksAppend(env: Env, universe: set<string>, st: CrawlState, a: seq<string>, b: seq<string>)
    requires Closed(env, universe) && AllInside(env, universe, a) && AllInside(env, universe, b)
    ensures AllInside(env, universe, a + b)
    ensures ScrapeLinks(env, universe, st, a + b) == ScrapeLinks(env, universe, ScrapeLinks(env, universe, st, a), b)
    decreases |a|
  {
    AllInsideAppend(env, universe, a, b);
    if a == [] {
      assert a + b == b;
    } else {
      var next := if a[0] in st.visited then st else Scrape(env, universe, st, a[0]);
      var a' := a[1..];
      AllInsideTail(env, universe, a);
      assert (a + b)[0] == a[0] && (a + b)[1..] == a' + b;
      assert ScrapeLinks(env, universe, st, a + b) == ScrapeLinks(env, universe, next, a' + b);
      assert ScrapeLinks(env, universe, st, a) == ScrapeLinks(env, universe, next, a');
      ScrapeLinksAppend(env, universe, next, a', b);
    }
  }

  // ---------------------------------------------------------------------------------------------
  // The run invariant

  /** All candidate lists, one after the other. */
  function Flatten(c: seq<seq<string>>): seq<string> {
    if c == [] then [] else Flatten(c[..|c| - 1]) + c[|c| - 1]
  }

  /**
   * What holds of every state of a run:
   * - one candidate list per page; no image URL is a candidate twice, on one page or on two,
   *   and the candidates are exactly `imageUrls`;
   * - a page lists at most as many local images as it had candidates, and each names a file
   *   present on disk;
   * - the pages fetched are exactly the visited URLs, each fetched once;
   * - every page is for a visited URL, and no URL has two pages;
   * - every image URL fetched is a candidate, and none was fetched twice.
   */
  ghost predicate Inv(st: CrawlState) {
    && |st.candidates| == |st.pages|
    && NoDup(Flatten(st.candidates)) && Elements(Flatten(st.candidates)) == st.imageUrls
    && (forall i :: 0 <= i < |st.pages| ==> |st.pages[i].images| <= |st.candidates[i]|)
    && (forall i, k :: 0 <= i < |st.pages| && 0 <= k < |st.pages[i].images| ==>
          IsLocalImage(st.pages[i].images[k], st.imageFiles))
    && NoDup(st.pageFetches) && Elements(st.pageFetches) == st.visited
    && (forall i :: 0 <= i < |st.pages| ==> st.pages[i].url in st.visited)
    && (forall i, j :: 0 <= i < j < |st.pages| ==> st.pages[i].url != st.pages[j].url)
    && NoDup(st.imageFetches) && (forall k :: 0 <= k < |st.imageFetches| ==> st.imageFetches[k] in st.imageUrls)
  }

  lemma InitialInv(imageFiles: set<string>, pageFiles: map<string, ScrapedPage>)
    ensures Inv(Initial(imageFiles, pageFiles))
  {
  }

  lemma NoDupAppend(a: seq<string>, b: seq<string>)
    requires NoDup(a) && NoDup(b)
    requires forall k :: 0 <= k < |b| ==> b[k] !in a
    ensures NoDup(a + b)
  {
  }

  lemma FlattenAppend(c: seq<seq<string>>, x: seq<string>)
    ensures Flatten(c + [x]) == Flatten(c) + x
  {
    assert (c + [x])[..|c|] == c;
  }

  /** Pushing a page keeps the invariant, for a visited URL that has no page yet. */
  lemma AddPageInv(env: Env, st: CrawlState, url: string, doc: Document)
    requires Inv(st) && url in st.visited
    requires forall i :: 0 <= i < |st.pages| ==> st.pages[i].url != url
    ensures Inv(AddPage(env, st, url, doc))
  {
    var r := AddPage(env, st, url, doc);
    AddPageCandidates(env, st, url, doc);
    AddPageImages(env, st, url, doc);
    assert forall i :: 0 <= i < |st.pages| ==> r.pages[i] == st.pages[i];
  }

  /** The candidate lists and the image fetches after a page is pushed. */
  lemma AddPageCandidates(env: Env, st: CrawlState, url: string, doc: Document)
    requires Inv(st)
    ensures var r := AddPage(env, st, url, doc);
            && NoDup(Flatten(r.candidates)) && Elements(Flatten(r.candidates)) == r.imageUrls
            && NoDup(r.imageFetches) && (forall k :: 0 <= k < |r.imageFetches| ==> r.imageFetches[k] in r.imageUrls)
  {
    var c := CollectImages(env, st.imageUrls, doc.images, url);
    var d := DownloadAll(env, st.imageFiles, c.found);
    DownloadAllFacts(env, st.imageFiles, c.found);
    var r := AddPage(env, st, url, doc);
    FlattenAppend(st.candidates, c.found);
    assert Elements(Flatten(st.candidates)) == st.imageUrls;
    forall k | 0 <= k < |c.found| ensures c.found[k] !in Flatten(st.candidates) {
      assert c.found[k] !in st.imageUrls;
    }
    NoDupAppend(Flatten(st.candidates), c.found);
    assert Elements(Flatten(r.candidates)) == r.imageUrls by {
      assert Flatten(r.candidates) == Flatten(st.candidates) + c.found;
    }
    forall k | 0 <= k < |d.fetches| ensures d.fetches[k] !in st.imageFetches {
      assert d.fetches[k] in c.found;
    }
    NoDupAppend(st.imageFetches, d.fetches);
  }

  /** The pages' local images after a page is pushed. */
  lemma AddPageImages(env: Env, st: CrawlState, url: string, doc: Document)
    requires Inv(st)
    ensures var r := AddPage(env, st, url, doc);
            && (forall i :: 0 <= i < |r.pages| ==> |r.pages[i].images| <= |r.candidates[i]|)
            && (forall i, k :: 0 <= i < |r.pages| && 0 <= k < |r.pages[i].images| ==>
                  IsLocalImage(r.pages[i].images[k], r.imageFiles))
  {
    var r := AddPage(env, st, url, doc);
    forall i, k | 0 <= i < |r.pages| && 0 <= k < |r.pages[i].images|
      ensures IsLocalImage(r.pages[i].images[k], r.imageFiles)
    {
      if i < |st.pages| {
        assert r.pages[i] == st.pages[i];
        assert IsLocalImage(st.pages[i].images[k], st.imageFiles);
      }
    }
    forall i | 0 <= i < |r.pages| ensures |r.pages[i].images| <= |r.candidates[i]| {
      if i < |st.pages| {
        assert r.pages[i] == st.pages[i] && r.candidates[i] == st.candidates[i];
      }
    }
  }

  /** `scrapePage` keeps the invariant. */
  lemma {:induction false} ScrapeInv(env: Env, universe: set<string>, st: CrawlState, url: string)
    requires Closed(env, universe) && Inside(env, universe, url) && Inv(st)
    ensures Inv(Scrape(env, universe, st, url))
    decreases universe - st.visited, 0, 0
  {
    var nu := Normalize(env, url, BaseUrl);
    if nu != "" && nu !in st.visited {
      var st1 := st.(visited := st.visited + {nu}, pageFetches := st.pageFetches + [nu]);
      assert Elements(st1.pageFetches) == st1.visited;
      assert Inv(st1);
      match env.fetchPage(nu)
      case None =>
      case Some(doc) =>
        AddPageInv(env, st1, nu, doc);
        var st2 := AddPage(env, st1, nu, doc);
        var filename := PageFilename(nu);
        if env.writePage(filename) {
          var st3 := st2.(pageFiles := st2.pageFiles[filename := st2.pages[|st1.pages|]]);
          assert Inv(st3);
          ScrapeLinksInv(env, universe, st3, FollowedLinks(env, nu, doc));
        }
    }
  }

  lemma {:induction false} ScrapeLinksInv(env: Env, universe: set<string>, st: CrawlState, links: seq<string>)
    requires Closed(env, universe) && AllInside(env, universe, links) && Inv(st)
    ensures Inv(ScrapeLinks(env, universe, st, links))
    decreases universe - st.visited, 1, |links|
  {
    if links != [] {
      var next := if links[0] in st.visited then st else Scrape(env, universe, st, links[0]);
      if links[0] !in st.visited {
        ScrapeInv(env, universe, st, links[0]);
      }
      ScrapeLinksInv(env, universe, next, links[1..]);
    }
  }

  // ---------------------------------------------------------------------------------------------
  // The summary

  function SumImageCounts(ps: seq<PageSummary>): nat {
    if ps == [] then 0 else SumImageCounts(ps[..|ps| - 1]) + ps[|ps| - 1].imageCount
  }

  lemma {:induction false} SumBelowCandidates(ps: seq<PageSummary>, c: seq<seq<string>>)
    requires |ps| == |c| && forall i :: 0 <= i < |ps| ==> ps[i].imageCount <= |c[i]|
    ensures SumImageCounts(ps) <= |Flatten(c)|
  {
    if ps != [] {
      SumBelowCandidates(ps[..|ps| - 1], c[..|c| - 1]);
    }
  }

  lemma {:induction false} NoDupCardinality(s: seq<string>)
    requires NoDup(s)
    ensures |Elements(s)| == |s|
  {
    if s != [] {
      var t := s[..|s| - 1];
      NoDupCardinality(t);
      assert Elements(s) == Elements(t) + {s[|s| - 1]};
      assert s[|s| - 1] !in Elements(t);
    }
  }

  /**
   * The counts of `main`: `totalImages` is the number of distinct image URLs discovered, whether
   * or not their download succeeded, so it is at least the sum of the pages' `imageCount`s;
   * `totalPages` is at most the number of URLs visited, each page fetched once.
   */
  lemma CrawlSummary(env: Env, universe: set<string>, imageFiles: set<string>, pageFiles: map<string, ScrapedPage>)
    requires Closed(env, universe) && Inside(env, universe, BaseUrl)
    ensures var st := Crawl(env, universe, imageFiles, pageFiles);
            var s := Summarize(st.pages, st.imageUrls);
            && Inv(st)
            && s.totalImages == |Flatten(st.candidates)|
            && SumImageCounts(s.pages) <= s.totalImages
            && s.totalPages <= |st.visited| == |st.pageFetches|
  {
    InitialInv(imageFiles, pageFiles);
    ScrapeInv(env, universe, Initial(imageFiles, pageFiles), BaseUrl);
    InvSummary(Crawl(env, universe, imageFiles, pageFiles));
  }

  /** The summary counts of any state that keeps the run invariant. */
  lemma InvSummary(st: CrawlState)
    requires Inv(st)
    ensures var s := Summarize(st.pages, st.imageUrls);
            && s.totalImages == |Flatten(st.candidates)|
            && SumImageCounts(s.pages) <= s.totalImages
            && s.totalPages <= |st.visited| == |st.pageFetches|
  {
    var s := Summarize(st.pages, st.imageUrls);
    NoDupCardinality(Flatten(st.candidates));
    NoDupCardinality(st.pageFetches);
    SumBelowCandidates(s.pages, st.candidates);
    PageUrlsBelowVisited(st.pages, st.visited);
  }

  lemma {:induction false} PageUrlsBelowVisited(pages: seq<ScrapedPage>, visited: set<string>)
    requires forall i :: 0 <= i < |pages| ==> pages[i].url in visited
    requires forall i, j :: 0 <= i < j < |pages| ==> pages[i].url != pages[j].url
    ensures |pages| <= |visited|
  {
    if pages != [] {
      var last := pages[|pages| - 1];
      PageUrlsBelowVisited(pages[..|pages| - 1], visited - {last.url});
    }
  }

  // ---------------------------------------------------------------------------------------------
  // The image cache

  /**
   * Once a file name is on disk, every image URL that maps to that name gets the existing file's
   * path with no fetch and no write: distinct images sharing a basename keep the first one.
   */
  lemma SameFilenameReused(env: Env, files: set<string>, first: string, later: string)
    requires env.parse(first, Some(BaseUrl)).Some? && env.parse(later, Some(BaseUrl)).Some?
    requires ImageFilename(env.parse(first, Some(BaseUrl)).value.pathname)
          == ImageFilename(env.parse(later, Some(BaseUrl)).value.pathname)
    requires DownloadImage(env, files, first).path.Some?
    ensures var d := DownloadImage(env, files, first);
            DownloadImage(env, d.imageFiles, later)
            == Download(d.imageFiles, Some(ImagePath(ImageFilename(env.parse(first, Some(BaseUrl)).value.pathname))), false)
  {
    var f := ImageFilename(env.parse(first, Some(BaseUrl)).value.pathname);
    var d := DownloadImage(env, files, first);
    assert f in d.imageFiles;
    assert ImageFilename(env.parse(later, Some(BaseUrl)).value.pathname) == f;
  }
}
