# fightingmonk site search and scraper: a Dafny model

This project models the three pieces of logic behind the fightingmonk site:

- **Search API** (`app/api/search/route.ts`). `POST /api/search` takes a JSON body with a
  `query`. It scores each of the five records in the built-in content database with
  `calculateRelevance`. It keeps the records that score above zero, sorts them by score
  (highest first, ties in database order) and returns at most ten, without their scores.
- **Site scraper** (`scripts/scrape-site.ts`). It crawls `https://fightingmonk.com`
  depth-first from the root and normalizes every URL it meets. For each page it:
  - collects the page's images and downloads each into an images directory once;
  - saves a `ScrapedPage` record under a file name derived from the URL;
  - follows at most the first ten on-site links.

  At the end it writes a summary with the page and image counts.
- **Content extractor** (`scripts/extract-content.ts`). It reads the saved root page and
  collects its labelled sections (id → first 500 characters of trimmed text) and its
  paragraphs (trimmed, longer than 20 characters).

## Modules

| File | What it holds |
|---|---|
| `wrappers.dfy` | `Option`. |
| `text.dfy` | The string operations the source relies on: ASCII `toLowerCase`, `includes`, `trim`, `split(/\s+/)`, first-occurrence `replace`, `replace(/\//g, '_')`. |
| `relevance.dfy` | `calculateRelevance` twice. `Score` is the specification. `CalculateRelevance` is the imperative method with its two `forEach` loops, proved equal to `Score`. |
| `search.dfy` | The content database. The filter/sort/slice/strip pipeline: the sort is a stable insertion sort, proved ordered, stable and unique. The request handler `Post`. |
| `urls.dfy` | `normalizeUrl`, `path.basename`, the local image path, the page file name. |
| `crawl_spec.dfy` | A functional reference for `downloadImage` and `scrapePage` over an explicit crawl state (`Scrape` and `ScrapeLinks` are mutually recursive), plus the summary. |
| `crawler.dfy` | Class `Crawler`. It holds the mutable sets, the page list and the disk as fields, and its methods are proved to agree with the reference. `RunCrawl` is `main`. |
| `crawl_props.dfy` | Properties of the crawl: the outcome of one `scrapePage`, an invariant kept by the whole run, and the relations between the summary counts. |
| `extract.dfy` | The two `each` loops of the extractor as methods, their specification functions, and the report. |

**Conventions:**

- **Scores in half-points.** Scores are integers counting half-points, so every score is twice the
  source's value: title 20, content 10, keyword 6, and per query word 4 (title), 2 (content) and
  3 (keyword). The source adds 1.5 for a keyword hit; doubling keeps the arithmetic exact and
  does not change the order.
- **`new URL` as a parameter.** The WHATWG URL parser is a function parameter (`UrlParser`) that
  returns the `hostname`, `href` and `pathname`, or `None` where the constructor throws.
- **Environment.** Page fetches, image downloads and page writes come from an `Env` value.
- **Termination.** `scrapePage` returns only when the crawl reaches finitely many pages. The
  model names such a finite set of pages, `universe`, and assumes `Closed(env, universe)`: every
  page of `universe` that loads and whose record is written links only to URLs that normalize
  to '' or to a page of `universe` (only the links it follows count). A page whose fetch or
  write fails follows no links and so constrains nothing. The crawl's start URL must also
  normalize to '' or into `universe`. Pages the crawl never reaches are unconstrained
  (`CrawlSpec.ClosedForLinklessSite` and `CrawlSpec.ClosedWhenWritesFail` are two instances).
  The follow loop skips a link when the link itself is visited (`scripts/scrape-site.ts:142`),
  but `Closed` asks every followed link to normalize into `universe` once more. So the set of
  pages a finite crawl reaches satisfies the assumption when the URL parser maps every followed
  link, which is already normalized and free of '#', to itself, as the WHATWG parser does for an
  `https` href it produced. A parser that sends such a link elsewhere can make a crawl that
  returns fall outside the model.

**Same-host check.** `normalizeUrl` (`scripts/scrape-site.ts:29-40`) compares the hostname
with that of its `baseUrl` argument, and for images and links that argument is the current
page's URL. `LinksOf` also keeps only links that start with `https://fightingmonk.com`
(`scripts/scrape-site.ts:117`).

## Model

| member | source | states |
|---|---|---|
| Text.Lower | app/api/search/route.ts:54-56 | `toLowerCase` keeps the length and maps each character on its own (ASCII A–Z up by 32 to a–z, others unchanged). |
| Text.LowerAppend | app/api/search/route.ts:78 | Lower-casing distributes over concatenation. |
| Text.ContainsSelf | app/api/search/route.ts:61 | Every string `includes` itself. |
| Text.StartsWithPointwise | scripts/scrape-site.ts:117 | `startsWith`: the prefix agrees with the string position by position. |
| Text.ContainsIsIndexOf | app/api/search/route.ts:61 | `includes` holds exactly when the first-occurrence search finds an index. |
| Text.FirstIndexFrom | scripts/scrape-site.ts:135 | The index found is the first occurrence at or after `from`; `None` means there is no occurrence there. |
| Text.RemoveFirst | scripts/scrape-site.ts:135 | `replace(BASE_URL, '')`: unchanged when the string does not contain the pattern; otherwise the characters before and after the FIRST occurrence, joined, one occurrence's length shorter. |
| Text.SlashesToUnderscores | scripts/scrape-site.ts:136 | `replace(/\//g, '_')`: same length, no `/` left, every `/` becomes `_` and every other character stays. |
| Text.LeadingWordLength | app/api/search/route.ts:78 | The leading run of non-white-space characters ends at white space or at the end of the string. |
| Text.Words | app/api/search/route.ts:78 | `split(/\s+/)` after dropping empty pieces: every word is non-empty and free of white space. |
| Text.WordsOfLeadingWord | app/api/search/route.ts:78 | A word followed by white space or the end splits off as the first piece. |
| Text.WordsSkipSpaces | app/api/search/route.ts:78 | Leading white space produces no piece. |
| Text.TrimEnd | scripts/extract-content.ts:17 | Dropping trailing white space gives a prefix of the input that does not end with white space. |
| Text.TrimEndDropsSpace | scripts/extract-content.ts:17 | Everything `TrimEnd` removes is white space. |
| Text.Trim | scripts/extract-content.ts:17 | `trim()` is never longer than its input and leaves no white space at either end. |
| Text.TrimSkipsLeading | scripts/extract-content.ts:17 | `trim()` is `TrimEnd` of the input after a run of leading white space. |
| Text.TrimBounds | scripts/extract-content.ts:17 | `trim()` is the slice `s[i..j]` of its input, and every character before `i` and from `j` on is white space. |
| Text.TrimIsSlice | scripts/extract-content.ts:17 | There is such a slice: `trim()` removes only white space, and only at the ends. |
| Relevance.KeywordMatch | app/api/search/route.ts:72-74 | A keyword adds 3 points exactly when the lower-cased query contains the lower-cased keyword or the keyword contains the query, and 0 otherwise. |
| Relevance.KeywordScore | app/api/search/route.ts:71-75 | The keyword bonus is between 0 and 3 points per keyword. |
| Relevance.TokenMatch | app/api/search/route.ts:80-82 | A query word earns between 0 and 4.5 points. It earns nothing exactly when neither title, content nor any keyword contains it. The half-point count is odd exactly when some keyword contains it. |
| Relevance.TokenScore | app/api/search/route.ts:79-83 | The word bonus is between 0 and 4.5 points per word. |
| Relevance.LongWords | app/api/search/route.ts:78 | `filter(w => w.length > 2)` keeps only words longer than two characters, never more words than given. |
| Relevance.Score | app/api/search/route.ts:53-86 | A relevance score is never negative. |
| Relevance.CalculateRelevance | app/api/search/route.ts:53-86 | The imperative computation, with its two `forEach` loops, returns exactly the specified score. |
| Relevance.TitleMatchScoresAtLeastTen | app/api/search/route.ts:61-63 | A record whose lower-cased title contains the lower-cased query scores at least 10. |
| Relevance.TitleQueryScoresAtLeastTen | app/api/search/route.ts:61-63 | Searching for a record's own title (any case) scores it at least 10. |
| Relevance.TitleAndContentMatch | app/api/search/route.ts:61-68 | A query found in both title and content scores at least 15. |
| Relevance.KeywordScoreNext | app/api/search/route.ts:71-75 | One more keyword adds exactly that keyword's bonus; the loop of `calculateRelevance` keeps its running score on this. |
| Relevance.KeywordScoreAppend | app/api/search/route.ts:71-75 | The keyword bonus of two keyword lists together is the sum of their bonuses. |
| Relevance.KeywordAddsExactly | app/api/search/route.ts:72-74 | Inserting one keyword changes the bonus by exactly that keyword's 3 or 0 points. |
| Relevance.TokenScoreNext | app/api/search/route.ts:79-83 | One more query word adds exactly that word's bonus. |
| Relevance.TokenScoreAppend | app/api/search/route.ts:79-83 | The word bonus of two word lists together is the sum of their bonuses. |
| Relevance.TokensAreLongWords | app/api/search/route.ts:78 | The query tokens are words of the lower-cased query, free of white space, each longer than two characters. |
| Relevance.LongWordsAreMembers | app/api/search/route.ts:78 | The length filter keeps only words of its input. |
| Relevance.LongWordsAppend | app/api/search/route.ts:78 | The length filter distributes over concatenation. |
| Relevance.TokensOfLeadingWord | app/api/search/route.ts:78 | A query's first word becomes its first token, lower-cased, exactly when it is longer than two characters. |
| Relevance.TokenBonusOfLeadingWord | app/api/search/route.ts:78-83 | The word bonus of a query is its first word's bonus (if kept) plus the bonus of the rest. |
| Search.CorpusIdsUnique | app/api/search/route.ts:15-51 | The content database holds five records with distinct ids. |
| Search.ScoreAll | app/api/search/route.ts:100-103 | Every record is paired with its own relevance score, in database order. |
| Search.Positive | app/api/search/route.ts:107 | `filter(item => item.score > 0)` keeps exactly the positively scored entries. |
| Search.PositiveLength | app/api/search/route.ts:107 | Filtering never lengthens the list. |
| Search.Insert | app/api/search/route.ts:108 | Insertion adds the element and nothing else: the multiset grows by it. |
| Search.InsertSorted | app/api/search/route.ts:108 | Insertion into a list sorted by descending score keeps it sorted. |
| Search.InsertScoreClass | app/api/search/route.ts:108 | Insertion puts the new element before every element with the same score. |
| Search.SortByScore | app/api/search/route.ts:108 | The sort is a permutation of its input. |
| Search.SortByScoreSorted | app/api/search/route.ts:108 | The sort orders by descending score. |
| Search.SortByScoreStable | app/api/search/route.ts:108 | The sort is stable: entries with equal scores keep their relative order. |
| Search.StableSortUnique | app/api/search/route.ts:108 | Any ordering that is sorted by descending score and stable equals the sort's output, so the result does not depend on how the sort is implemented. |
| Search.SameClassesSameSorted | app/api/search/route.ts:108 | Two sorted lists with the same entries per score, in the same order, are equal. |
| Search.Take | app/api/search/route.ts:109 | `slice(0, 10)` is the prefix of length min(10, n). |
| Search.Strip | app/api/search/route.ts:110 | Dropping the score keeps each record, in order. |
| Search.Ranked | app/api/search/route.ts:100-109 | The scored, filtered, sorted and sliced list has at most ten entries and no more than the corpus. |
| Search.Rank | app/api/search/route.ts:100-110 | The returned records are at most ten and no more than the corpus. |
| Search.Post | app/api/search/route.ts:88-120 | A body that fails to parse gives 500 "Internal server error". A missing, empty or non-string query gives 400 "Query is required". Otherwise the response is the ranked results for the query. |
| Search.RankBounds | app/api/search/route.ts:106-110 | At most ten results, and each is a database record with a positive score. |
| Search.RankOrdered | app/api/search/route.ts:106-110 | Results come in descending score order. |
| Search.RankStable | app/api/search/route.ts:106-110 | Among results with equal scores, database order is kept, and they are the first such records of the database. |
| Search.RankKeepsTheBest | app/api/search/route.ts:106-110 | A positively scored record missing from the results means ten results were returned, each scoring at least as high. |
| Search.RankReturnsAllWhenFew | app/api/search/route.ts:106-110 | When at most ten records match, every matching record is returned. |
| Search.TitleQueryRanked | app/api/search/route.ts:100-110 | Over a corpus of at most ten records, a record whose title equals the query (any case) is returned. |
| Search.TitleQueryReturned | app/api/search/route.ts:88-112 | Searching the content database for a record's own title (any case) returns that record. |
| Search.ScoreClassOfTake | app/api/search/route.ts:109 | Truncating a list keeps a prefix of each equal-score group. |
| Search.StripScoreClass | app/api/search/route.ts:110 | Dropping scores commutes with selecting one score's group. |
| Urls.CutAtHash | scripts/scrape-site.ts:36 | `split('#')[0]` is the longest `#`-free prefix. |
| Urls.CutAtHashUnique | scripts/scrape-site.ts:36 | That prefix is the only `#`-free prefix that stops at a `#` or the end. |
| Urls.CutAtHashIdempotent | scripts/scrape-site.ts:36 | Cutting twice is cutting once. |
| Urls.CutAtHashNoHash | scripts/scrape-site.ts:36 | A string without `#` is unchanged. |
| Urls.NormalizeUrl | scripts/scrape-site.ts:29-40 | A non-empty result means both URLs parsed and the hostnames agreed. It is a prefix of the resolved `href` and contains no `#`. |
| Urls.NormalizeUrlIsCutHref | scripts/scrape-site.ts:29-40 | When both parses succeed on the same host, the result is the resolved `href` with its fragment cut off. |
| Urls.NormalizeUrlFragmentFree | scripts/scrape-site.ts:36 | Normalized URLs are fixed points of fragment removal. |
| Urls.DropTrailingSlashes | scripts/scrape-site.ts:46 | `path.basename` first drops trailing `/`s, and only those. |
| Urls.AfterLastSlash | scripts/scrape-site.ts:46 | The last path segment is a `/`-free suffix that starts after a `/` or at the start. |
| Urls.Basename | scripts/scrape-site.ts:46 | A base name is never longer than the path. |
| Urls.BasenameIsLastSegment | scripts/scrape-site.ts:46 | `path.basename` is the text after the last `/` once the trailing slashes are dropped. |
| Urls.DefaultImageNameIsPlain | scripts/scrape-site.ts:46 | The fallback name `image.jpg` is non-empty and has no `/`. |
| Urls.ImageFilename | scripts/scrape-site.ts:46 | An image's file name is never empty. |
| Urls.ImageFilenameIsPlain | scripts/scrape-site.ts:46-47 | An image's file name is the last path segment, or `image.jpg` when there is none, and never contains `/`, so the image lands directly in the images directory. |
| Urls.ImagePath | scripts/scrape-site.ts:51 | The returned path is `/images/` followed by the file name. |
| Urls.PageFilename | scripts/scrape-site.ts:134-136 | A page's file name is never empty and never contains `/`. For a URL below the site root it is the rest of the URL with every `/` turned into `_`. It is as long as the URL when the URL does not contain the site root, and it is `index` for the empty URL or the site root itself (the `|| 'index'` fallback). |
| Urls.RootPageFilename | scripts/scrape-site.ts:134-136 | The root page `https://fightingmonk.com/` is saved as `_`, the file the extractor reads. |
| CrawlSpec.PageTitle | scripts/scrape-site.ts:87 | The page title is never empty: the `<title>` text, or `Untitled`. |
| CrawlSpec.ImageSource | scripts/scrape-site.ts:92 | The source is `src` when non-empty; otherwise `data-src` when present, and '' when neither is. |
| CrawlSpec.ImageUrlOf | scripts/scrape-site.ts:92-94 | An `<img>` with no source gives no URL; otherwise its URL is the source normalized against the page, with no fragment. |
| CrawlSpec.CollectImages | scripts/scrape-site.ts:91-100 | A page's image candidates are distinct, non-empty and previously unseen. The seen set grows by exactly them. |
| CrawlSpec.CollectImagesComplete | scripts/scrape-site.ts:93-98 | Every `<img>` whose URL is non-empty and not seen before becomes a candidate of the page. |
| CrawlSpec.CollectImagesSound | scripts/scrape-site.ts:91-100 | Every candidate is the URL of some `<img>` of the page. |
| CrawlSpec.CollectImagesAppend | scripts/scrape-site.ts:91-100 | Candidates are collected in document order: two consecutive runs of `<img>` elements give the first run's candidates followed by the second's, the second starting from what the first has seen. |
| CrawlSpec.DownloadImage | scripts/scrape-site.ts:42-68 | A URL that does not parse gives `null` and no fetch. The file name is the path's base name (`image.jpg` when empty): a file of that name already on disk, present from the start or not, gives its `/images/` path with no fetch. Otherwise there is exactly one fetch; success adds exactly that file and returns its path, failure returns `null` and adds no file. |
| CrawlSpec.DownloadAgainIsCached | scripts/scrape-site.ts:49-52 | Asking again for an image that got a local path returns the same path with no fetch. |
| CrawlSpec.DownloadAll | scripts/scrape-site.ts:103-109 | Downloading only adds files, and keeps at most one path and makes at most one fetch per candidate. |
| CrawlSpec.DownloadAllNext | scripts/scrape-site.ts:103-109 | One more candidate adds exactly one `downloadImage` call's outcome; the download loop keeps its state on this. |
| CrawlSpec.DownloadStep | scripts/scrape-site.ts:103-109 | One `downloadImage` outcome keeps the paths on disk and keeps the fetches distinct members of the candidates. |
| CrawlSpec.DownloadAllFacts | scripts/scrape-site.ts:103-109 | Every kept path names a file on disk. The fetched URLs are among the candidates, and they are distinct when the candidates are. |
| CrawlSpec.LinkOf | scripts/scrape-site.ts:114-118 | An `<a>` contributes its href normalized against the page exactly when that is non-empty and starts with the site root; a missing or empty href contributes nothing; such a link has no fragment. |
| CrawlSpec.LinksOf | scripts/scrape-site.ts:112-121 | Every collected link is on the site (starts with the base URL) and has no fragment. |
| CrawlSpec.LinksOfAppend | scripts/scrape-site.ts:113-121 | Links keep document order: consecutive runs of `<a>` elements contribute consecutively, duplicates included. |
| CrawlSpec.LinksOfMembers | scripts/scrape-site.ts:113-121 | A link is listed exactly when some `<a>` element contributes it. |
| CrawlSpec.ListedIsLinked | scripts/scrape-site.ts:113-121 | Every listed link comes from an `<a>` element. |
| CrawlSpec.LinkedIsListed | scripts/scrape-site.ts:113-121 | Every contributed link is listed. |
| CrawlSpec.FollowList | scripts/scrape-site.ts:141 | `slice(0, 10)` keeps exactly the first min(10, n) links, in order, duplicates and visited links included. |
| CrawlSpec.AddPage | scripts/scrape-site.ts:88-131 | Scraping a fetched page appends exactly one page record: its URL, its title (`Untitled` when empty), its trimmed body text, its HTML and the non-null download results in candidate order, each a file on disk afterwards. The page's candidates are recorded, the seen image URLs become the collected set, the disk and fetch log follow the download loop, the visited set is unchanged and the state only extends. |
| CrawlSpec.ClosedWhenWritesFail | scripts/scrape-site.ts:133-146 | When no page record can be written, the crawl follows no links, and the root alone meets the termination assumption. |
| CrawlSpec.ClosedForLinklessSite | scripts/scrape-site.ts:141-146 | A site whose pages have no links meets the termination assumption over any set of pages, whatever the URL parser. |
| CrawlSpec.Scrape | scripts/scrape-site.ts:70-150 | `scrapePage` only extends the state (sets grow, the page list and histories are appended to), and afterwards the URL names no page or its page is visited. |
| CrawlSpec.ScrapeLinks | scripts/scrape-site.ts:141-146 | The follow loop only extends the state. |
| CrawlSpec.Crawl | scripts/scrape-site.ts:152-154 | `main` crawls from the root, and the root's page ends up visited. |
| CrawlSpec.Summarize | scripts/scrape-site.ts:157-165 | `totalPages` is the number of pages, with one entry per page giving its URL, title and number of local images, and `totalImages` is the number of distinct image URLs found. |
| CrawlProperties.ScrapeOutcome | scripts/scrape-site.ts:71-131 | An empty or already visited URL changes nothing. Otherwise the URL becomes visited and is the next page fetch. A failed fetch changes nothing else. A successful one pushes that URL's page next, before any linked page. |
| CrawlProperties.ScrapeLinksReaches | scripts/scrape-site.ts:141-146 | Every followed link is dealt with: afterwards it is visited, or names no page, or its page is visited. |
| CrawlProperties.AllInsideTail | scripts/scrape-site.ts:141 | The links after the first are still inside the reachable pages. |
| CrawlProperties.AllInsideAppend | scripts/scrape-site.ts:141 | Two lists of reachable links together are reachable links. |
| CrawlProperties.ScrapeLinksAppend | scripts/scrape-site.ts:141-146 | The links are followed one after the other, in list order. |
| CrawlProperties.InitialInv | scripts/scrape-site.ts:25-27 | The empty starting state satisfies the run invariant. |
| CrawlProperties.AddPageInv | scripts/scrape-site.ts:88-131 | Adding a freshly visited page keeps the run invariant. |
| CrawlProperties.AddPageCandidates | scripts/scrape-site.ts:91-109 | After a page is pushed, no image URL is a candidate twice, the candidates are exactly `imageUrls`, and every image fetched is a candidate and fetched once. |
| CrawlProperties.AddPageImages | scripts/scrape-site.ts:103-131 | After a page is pushed, every page lists at most as many images as it had candidates, and each listed image is a file on disk. |
| CrawlProperties.ScrapeInv | scripts/scrape-site.ts:70-150 | `scrapePage` keeps the invariant. No image URL becomes a candidate twice, no image URL or page is fetched twice, and every saved image path is on disk. |
| CrawlProperties.ScrapeLinksInv | scripts/scrape-site.ts:141-146 | The follow loop keeps the run invariant. |
| CrawlProperties.CrawlSummary | scripts/scrape-site.ts:152-165 | After a run, `totalImages` counts every distinct candidate, so it is at least the sum of the per-page `imageCount`s. `totalPages` is at most the number of visited URLs, each fetched once. |
| CrawlProperties.InvSummary | scripts/scrape-site.ts:155-165 | For any state that keeps the run invariant, `totalImages` is the number of candidates, the sum of the `imageCount`s is at most `totalImages`, and `totalPages` is at most the number of visited URLs. |
| CrawlProperties.SameFilenameReused | scripts/scrape-site.ts:46-52 | Once a file name is on disk, another image URL with the same base name gets that file's path with no fetch. |
| CrawlProperties.SumBelowCandidates | scripts/scrape-site.ts:160-164 | Per-page image counts bounded by per-page candidates sum to at most all candidates. |
| CrawlProperties.PageUrlsBelowVisited | scripts/scrape-site.ts:76 | Pages with distinct visited URLs are no more than the visited URLs. |
| CrawlProperties.NoDupCardinality | scripts/scrape-site.ts:27 | A duplicate-free list has as many distinct elements as entries. |
| Crawler.Crawler.constructor | scripts/scrape-site.ts:25-27 | A new crawler starts with empty `visitedUrls`, `imageUrls` and `pages` over the given disk, for any environment. |
| Crawler.Crawler.DownloadImage | scripts/scrape-site.ts:42-68 | The method returns the reference's path and leaves the images directory the reference computes; it records a fetch exactly when the reference fetches. |
| Crawler.Crawler.CollectPageImages | scripts/scrape-site.ts:91-100 | The `img` loop yields the reference's candidates and seen set. |
| Crawler.Crawler.DownloadPageImages | scripts/scrape-site.ts:103-109 | The download loop yields the reference's kept paths and disk. |
| Crawler.Crawler.ExtractLinks | scripts/scrape-site.ts:112-121 | The link loop yields the reference's link list. |
| Crawler.Crawler.ScrapePage | scripts/scrape-site.ts:70-150 | The recursive method leaves the crawler in exactly the reference's state after `scrapePage(url)`. |
| Crawler.Crawler.FollowLinks | scripts/scrape-site.ts:141-146 | The follow loop leaves the crawler in exactly the reference's state. |
| Crawler.RunCrawl | scripts/scrape-site.ts:152-165 | `main` returns the reference summary of the crawl from the root, and its image total bounds the sum of the per-page counts. |
| Extract.SectionText | scripts/extract-content.ts:17-19 | A section value is the first min(500, n) characters of the trimmed text. It never starts with white space, and when nothing was cut it is the whole trimmed text. A section's value has 51 to 500 characters. |
| Extract.Sections | scripts/extract-content.ts:15-21 | Every key of the `sections` record is a non-empty id other than `__proto__`, and its value has 51 to 500 characters. |
| Extract.ExtractSections | scripts/extract-content.ts:12-21 | The sections loop builds exactly the specified id → text map. |
| Extract.SectionKeys | scripts/extract-content.ts:15-21 | An id is a key exactly when some matched element has that non-empty id and more than 50 characters of trimmed text, and the id is not `__proto__` (whose setter drops a string on a plain object). |
| Extract.KeyIsNamed | scripts/extract-content.ts:18-19 | Every key comes from a qualifying element. |
| Extract.NamedIsKey | scripts/extract-content.ts:18-19 | Every qualifying element's id other than `__proto__` is a key. |
| Extract.SectionLastWins | scripts/extract-content.ts:19 | The value under an id comes from the last qualifying element with that id. |
| Extract.SectionValues | scripts/extract-content.ts:19 | Every value is the cut trimmed text of a qualifying element with that id. |
| Extract.Paragraphs | scripts/extract-content.ts:24-30 | The paragraphs loop keeps at most one paragraph per `<p>` text. |
| Extract.ExtractParagraphs | scripts/extract-content.ts:24-30 | The paragraphs loop builds exactly the specified list. |
| Extract.ParagraphsMembers | scripts/extract-content.ts:25-29 | A text is kept exactly when it is longer than 20 characters and is the trimmed text of some `<p>`. |
| Extract.KeptIsTrimmed | scripts/extract-content.ts:26-28 | Every kept text is a long-enough trimmed `<p>` text. |
| Extract.TrimmedIsKept | scripts/extract-content.ts:26-28 | Every long-enough trimmed `<p>` text is kept. |
| Extract.ParagraphsAreTrimmed | scripts/extract-content.ts:26-28 | Every kept paragraph is longer than 20 characters with no white space at either end. |
| Extract.ParagraphsAppend | scripts/extract-content.ts:25-30 | Paragraphs keep document order: consecutive runs of `<p>` elements contribute consecutively. |
| Extract.ExtractContent | scripts/extract-content.ts:12-35 | The report lists exactly the section ids and the first min(5, n) of the n paragraphs, in order. |

## Left out

- Network, disk and process I/O are outside the model. This covers `axios.get`, `fs.existsSync`, `fs.writeFileSync`, `fs.mkdirSync`, `fs.readFileSync` and `request.json()`. They are parameters (`Env`, `RequestBody`), and their outcome is decided by the environment.
- The one-second `setTimeout` between page fetches (`scripts/scrape-site.ts:143`), all `console` output and the `summary.json` file write are left out. The summary itself is modelled.
- HTML parsing (`cheerio`) is left out: a page is given as its title, body text, raw HTML, `<img>` attributes and `<a href>` values, in document order.
- The WHATWG URL algorithm is left out; `new URL` is a parameter. Only what the code relies on is modelled: the hostname comparison, fragment removal and `pathname`.
- JSON serialisation of records and responses and HTTP status plumbing beyond the status code and message are left out.
- Text.Lower, Text.Trim, Text.Words: only ASCII letters are folded and only ASCII white space is trimmed or split on. JavaScript uses Unicode case mapping and white space, and UTF-16 lengths.
- Relevance.Score: scores are in half-points (the source's value times two). There is no floating point.
- Search.Post: a body that parses but is not an object is folded into the missing-query case. A `null` body, whose destructuring throws, is `Malformed`.
- The order of `Object.keys(sections)` is left out; the report gives the key set.
- Extract.SectionText: a value cut at 500 characters may end in white space, so "no trailing white space" is stated only for uncut values.
- CrawlSpec.DownloadImage: a write that throws after `fs.writeFileSync` has created or truncated the file is modelled as leaving no file; in the source the broken file stays and `existsSync` reuses it on the next request.
- CrawlSpec.Scrape: a crawl that reaches infinitely many pages, which never returns in the source, is not modelled; `Scrape`, `ScrapeLinks`, `Crawl`, `ScrapePage`, `FollowLinks` and `RunCrawl` require `Closed` over the reachable pages. A crawl that returns only because the follow loop skips a visited link that the URL parser would normalize to a page outside every finite closed set is not covered either. The detailed outcome is stated in `CrawlProperties.ScrapeOutcome`, not in `Scrape`'s own contract.
- The images directory is modelled as a set of file names; the bytes written are not modelled.
- The page files are modelled as a map from name to the last page written there.
- `app/page.tsx`, `app/layout.tsx`, `app/components/Search.tsx`, `serverless-handler.js`, `next.config.js` and the infrastructure files are not part of this model.
