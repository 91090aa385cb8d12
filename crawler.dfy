/**
 * The crawler of scripts/scrape-site.ts as the script runs it: the module-level `visitedUrls`,
 * `imageUrls` and `pages` are the fields of a `Crawler`, and `downloadImage` and `scrapePage`
 * are methods that update them in place. Each method is proved to leave the state that the
 * functions of CrawlSpec describe.
 */
module Crawler {
  import opened Wrappers
  import opened Text
  import opened Urls
  import opened CrawlSpec
  import opened CrawlProperties

  class Crawler {
    const env: Env
    ghost const universe: set<string>

    var visitedUrls: set<string>
    var imageUrls: set<string>
    var pages: seq<ScrapedPage>
    /** The disk: file names in the images directory and the page files by name. */
    var imageFiles: set<string>
    var pageFiles: map<string, ScrapedPage>

    ghost var candidates: seq<seq<string>>
    ghost var pageFetches: seq<string>
    ghost var imageFetches: seq<string>

    ghost function State(): CrawlState
      reads this
    {
      CrawlState(visitedUrls, imageUrls, pages, imageFiles, pageFiles, candidates, pageFetches, imageFetches)
    }

    /** A fresh run: empty sets and page list, and the files already on disk. */
    constructor (env: Env, ghost universe: set<string>, imageFiles: set<string>, pageFiles: map<string, ScrapedPage>)
      ensures this.env == env && this.universe == universe
      ensures State() == Initial(imageFiles, pageFiles)
    {
      this.env := env;
      this.universe := universe;
      visitedUrls, imageUrls, pages := {}, {}, [];
      this.imageFiles, this.pageFiles := imageFiles, pageFiles;
      candidates, pageFetches, imageFetches := [], [], [];
    }
  
    /** `downloadImage(imageUrl)` */
    method DownloadImage(imageUrl: string) returns (localPath: Option<string>)
      modifies this`imageFiles, this`imageFetches
      ensures var d := CrawlSpec.DownloadImage(env, old(imageFiles), imageUrl);
              imageFiles == d.imageFiles && localPath == d.path
              && imageFetches == old(imageFetches) + (if d.fetched then [imageUrl] else [])
    {
      var parsed := env.parse(imageUrl, Some(BaseUrl));
      if parsed.None? {
        return None;
      }
      var filename := ImageFilename(parsed.value.pathname);
      if filename in imageFiles {
        return Some(ImagePath(filename));
      }
      imageFetches := imageFetches + [imageUrl];
      var ok := env.fetchImage(imageUrl);
      if !ok {
        return None;
      }
      imageFiles := imageFiles + {filename};
      localPath := Some(ImagePath(filename));
    }

    /** The `$('img').each` loop of `scrapePage`: new image URLs join `imageUrls` and the page's list. */
    method CollectPageImages(imgs: seq<ImgElement>, pageUrl: string) returns (pageImages: seq<string>)
      modifies this`imageUrls
      ensures Collected(imageUrls, pageImages) == CollectImages(env, old(imageUrls), imgs, pageUrl)
    {
      pageImages := [];
      for i := 0 to |imgs|
        invariant Collected(imageUrls, pageImages) == CollectImages(env, old(imageUrls), imgs[..i], pageUrl)
      {
        assert imgs[..i + 1][..i] == imgs[..i];
        var src := ImageSource(imgs[i]);
        if src != "" {
          var imageUrl := Normalize(env, src, pageUrl);
          if imageUrl != "" && imageUrl !in imageUrls {
            imageUrls := imageUrls + {imageUrl};
            pageImages := pageImages + [imageUrl];
          }
        }
      }
      assert imgs[..|imgs|] == imgs;
    }

    /** The download loop of `scrapePage`: the non-null results of `downloadImage`, in order. */
    method DownloadPageImages(pageImages: seq<string>) returns (downloadedImages: seq<string>)
      modifies this`imageFiles, this`imageFetches
      ensures var d := DownloadAll(env, old(imageFiles), pageImages);
              imageFiles == d.imageFiles && downloadedImages == d.paths
              && imageFetches == old(imageFetches) + d.fetches
    {
      downloadedImages := [];
      ghost var acc := Downloads(imageFiles, [], []);
      for i := 0 to |pageImages|
        invariant acc == DownloadAll(env, old(imageFiles), pageImages[..i])
        invariant imageFiles == acc.imageFiles && downloadedImages == acc.paths
        invariant imageFetches == old(imageFetches) + acc.fetches
      {
        ghost var one := CrawlSpec.DownloadImage(env, imageFiles, pageImages[i]);
        DownloadAllNext(env, old(imageFiles), pageImages, i);
        ghost var fetchedHere := if one.fetched then [pageImages[i]] else [];
        assert old(imageFetches) + (acc.fetches + fetchedHere) == imageFetches + fetchedHere;
        var localPath := DownloadImage(pageImages[i]);
        if localPath.Some? {
          downloadedImages := downloadedImages + [localPath.value];
        } else {
          assert downloadedImages == acc.paths + [];
        }
        acc := Record(acc, one, pageImages[i]);
      }
      assert pageImages[..|pageImages|] == pageImages;
    }

    /** The `$('a').each` loop of `scrapePage`: the kept links, in document order. */
    method ExtractLinks(hrefs: seq<Option<string>>, pageUrl: string) returns (links: seq<string>)
      ensures links == LinksOf(env, hrefs, pageUrl)
    {
      links := [];
      for i := 0 to |hrefs|
        invariant links == LinksOf(env, hrefs[..i], pageUrl)
      {
        assert hrefs[..i + 1][..i] == hrefs[..i];
        var href := hrefs[i];
        if href.Some? && href.value != "" {
          var linkUrl := Normalize(env, href.value, pageUrl);
          if linkUrl != "" && StartsWith(linkUrl, BaseUrl) {
            links := links + [linkUrl];
          }
        }
      }
      assert hrefs[..|hrefs|] == hrefs;
    }

    /** `scrapePage(url)` */
    method ScrapePage(url: string)
      requires Closed(env, universe) && Inside(env, universe, url)
      modifies this
      ensures State() == Scrape(env, universe, old(State()), url)
      decreases universe - visitedUrls, 0
    {
      var normalizedUrl := Normalize(env, url, BaseUrl);
      if normalizedUrl == "" || normalizedUrl in visitedUrls {
        return;
      }
      visitedUrls := visitedUrls + {normalizedUrl};
      pageFetches := pageFetches + [normalizedUrl];
      var response := env.fetchPage(normalizedUrl);
      if response.None? {
        return;
      }
      var doc := response.value;
      var title := PageTitle(doc);
      ghost var fetchedState := State();

      var pageImages := CollectPageImages(doc.images, normalizedUrl);
      var downloadedImages := DownloadPageImages(pageImages);
      var links := ExtractLinks(doc.hrefs, normalizedUrl);

      var page := ScrapedPage(normalizedUrl, title, Trim(doc.bodyText), doc.html, downloadedImages);
      pages := pages + [page];
      candidates := candidates + [pageImages];
      assert State() == AddPage(env, fetchedState, normalizedUrl, doc);

      var pageFilename := PageFilename(normalizedUrl);
      if !env.writePage(pageFilename) {
        return;
      }
      pageFiles := pageFiles[pageFilename := page];

      // Crawl the first ten links.
      var follow := FollowList(links);
      assert follow == FollowedLinks(env, normalizedUrl, doc);
      FollowLinks(follow);
    }

    /** The `for (const link of links.slice(0, 10))` loop of `scrapePage`. */
    method FollowLinks(follow: seq<string>)
      requires Closed(env, universe) && AllInside(env, universe, follow)
      modifies this
      ensures State() == ScrapeLinks(env, universe, old(State()), follow)
      decreases universe - visitedUrls, 1
    {
      for i := 0 to |follow|
        invariant old(visitedUrls) <= visitedUrls
        invariant AllInside(env, universe, follow[i..])
        invariant ScrapeLinks(env, universe, State(), follow[i..]) == ScrapeLinks(env, universe, old(State()), follow)
      {
        assert follow[i..][0] == follow[i] && follow[i..][1..] == follow[i + 1..];
        if follow[i] !in visitedUrls {
          ScrapePage(follow[i]);
        }
      }
    }
  }

  /**
   * `main`: crawl from `BASE_URL` with fresh sets over the files already on disk, then build the
   * summary.
   */
  method RunCrawl(env: Env, ghost universe: set<string>, imageFiles: set<string>, pageFiles: map<string, ScrapedPage>)
    returns (summary: Summary)
    requires Closed(env, universe) && Inside(env, universe, BaseUrl)
    ensures var st := Crawl(env, universe, imageFiles, pageFiles); summary == Summarize(st.pages, st.imageUrls)
    ensures SumImageCounts(summary.pages) <= summary.totalImages
  {
    var crawler := new Crawler(env, universe, imageFiles, pageFiles);
    crawler.ScrapePage(BaseUrl);
    summary := Summarize(crawler.pages, crawler.imageUrls);
    CrawlSummary(env, universe, imageFiles, pageFiles);
  }
}
