/**
 * The pure string helpers of scripts/scrape-site.ts: `normalizeUrl`, the image file name taken
 * from a URL path, and the page file name taken from a page URL.
 *
 * `new URL(input, base)` (the URL parser of the WHATWG URL Standard, section 4.4) is not
 * modelled: it is a parameter `parse` that either fails (the constructor throws) or yields the
 * hostname, href and pathname of the resolved URL.
 */
module Urls {
  import opened Wrappers
  import opened Text

  datatype ParsedUrl = ParsedUrl(hostname: string, href: string, pathname: string)

  /** `new URL(input)` when the base is `None`, `new URL(input, base)` otherwise. */
  type UrlParser = (string, Option<string>) -> Option<ParsedUrl>

  /** `BASE_URL`, the crawl root. */
  const BaseUrl := "https://fightingmonk.com"

  /**
   * `s.split('#')[0]`: the text before the first '#'. It is the longest prefix of `s` without a
   * '#', so either all of `s` or the part that stops just before a '#'.
   */
  function CutAtHash(s: string): (r: string)
    ensures StartsWith(s, r)
    ensures '#' !in r
    ensures |r| == |s| || s[|r|] == '#'
  {
    if s == [] || s[0] == '#' then []
    else
      var r := [s[0]] + CutAtHash(s[1..]);
      assert s[..|r|] == [s[0]] + s[1..][..|r| - 1];
      r
  }

  /** A string without '#' is left unchanged, so cutting twice is cutting once. */
  lemma {:induction false} CutAtHashNoHash(s: string)
    requires '#' !in s
    ensures CutAtHash(s) == s
  {
    if s != [] {
      assert '#' !in s[1..] by {
        assert forall i :: 0 <= i < |s[1..]| ==> s[1..][i] == s[i + 1];
      }
      CutAtHashNoHash(s[1..]);
    }
  }

  lemma CutAtHashIdempotent(s: string)
    ensures CutAtHash(CutAtHash(s)) == CutAtHash(s)
  {
    CutAtHashNoHash(CutAtHash(s));
  }

  /** The three properties of `CutAtHash` determine its result. */
  lemma CutAtHashUnique(s: string, r: string)
    requires StartsWith(s, r) && '#' !in r && (|r| == |s| || s[|r|] == '#')
    ensures r == CutAtHash(s)
  {
    var c := CutAtHash(s);
    assert r == s[..|r|] == c;
  }

  /**
   * `normalizeUrl(url, baseUrl)`: resolve `url` against `baseUrl`; give '' when either URL does
   * not parse or when the hostnames differ, and otherwise the resolved href without its
   * fragment.
   */
  function NormalizeUrl(parse: UrlParser, url: string, baseUrl: string): (r: string)
    ensures r != "" ==> parse(url, Some(baseUrl)).Some? && parse(baseUrl, None).Some?
    ensures r != "" ==> parse(url, Some(baseUrl)).value.hostname == parse(baseUrl, None).value.hostname
    ensures r != "" ==> StartsWith(parse(url, Some(baseUrl)).value.href, r)
    ensures '#' !in r
  {
    match parse(url, Some(baseUrl))
    case None => ""
    case Some(u) =>
      match parse(baseUrl, None)
      case None => ""
      case Some(b) => if u.hostname != b.hostname then "" else CutAtHash(u.href)
  }

  /** A successful normalization is exactly the fragment-free part of the resolved href. */
  lemma NormalizeUrlIsCutHref(parse: UrlParser, url: string, baseUrl: string)
    requires parse(url, Some(baseUrl)).Some? && parse(baseUrl, None).Some?
    requires parse(url, Some(baseUrl)).value.hostname == parse(baseUrl, None).value.hostname
    ensures NormalizeUrl(parse, url, baseUrl) == CutAtHash(parse(url, Some(baseUrl)).value.href)
  {
  }

  /** Normalizing yields a fixed point of fragment stripping. */
  lemma NormalizeUrlFragmentFree(parse: UrlParser, url: string, baseUrl: string)
    ensures CutAtHash(NormalizeUrl(parse, url, baseUrl)) == NormalizeUrl(parse, url, baseUrl)
  {
    CutAtHashNoHash(NormalizeUrl(parse, url, baseUrl));
  }

  /** `p` without the '/' characters at its end. */
  function DropTrailingSlashes(p: string): (r: string)
    ensures StartsWith(p, r)
    ensures r == [] || r[|r| - 1] != '/'
    ensures forall i :: |r| <= i < |p| ==> p[i] == '/'
  {
    if p != [] && p[|p| - 1] == '/' then DropTrailingSlashes(p[..|p| - 1]) else p
  }

  /** The characters of `p` after its last '/'. */
  function AfterLastSlash(p: string): (r: string)
    ensures |r| <= |p| && r == p[|p| - |r|..]
    ensures '/' !in r
    ensures |r| == |p| || p[|p| - |r| - 1] == '/'
  {
    if p == [] || p[|p| - 1] == '/' then []
    else
      var r := AfterLastSlash(p[..|p| - 1]) + [p[|p| - 1]];
      assert p[..|p| - 1][|p| - |r|..] == p[|p| - |r|..|p| - 1];
      r
  }

  /** `path.basename(p)` (POSIX): the last segment, trailing slashes ignored; '' for '/' and ''. */
  function Basename(p: string): (r: string)
    ensures |r| <= |p|
  {
    if p == [] then []
    else if p[|p| - 1] == '/' then Basename(p[..|p| - 1])
    else AfterLastSlash(p)
  }

  /** The base name is the last segment of the path once its trailing slashes are dropped. */
  lemma {:induction false} BasenameIsLastSegment(p: string)
    ensures Basename(p) == AfterLastSlash(DropTrailingSlashes(p))
  {
    if p != [] && p[|p| - 1] == '/' {
      BasenameIsLastSegment(p[..|p| - 1]);
    }
  }

  const DefaultImageName := "image.jpg"

  lemma DefaultImageNameIsPlain()
    ensures DefaultImageName != "" && '/' !in DefaultImageName
  {
  }

  /** `path.basename(imagePath) || 'image.jpg'` */
  function ImageFilename(pathname: string): (r: string)
    ensures r != ""
  {
    var b := Basename(pathname);
    DefaultImageNameIsPlain();
    if b == "" then DefaultImageName else b
  }

  /**
   * An image's file name never contains '/': it is the last path segment, or 'image.jpg' when
   * the path has none, so every image lands directly in the images directory.
   */
  lemma ImageFilenameIsPlain(pathname: string)
    ensures '/' !in ImageFilename(pathname)
    ensures var b := AfterLastSlash(DropTrailingSlashes(pathname));
            ImageFilename(pathname) == if b == "" then DefaultImageName else b
  {
    BasenameIsLastSegment(pathname);
    DefaultImageNameIsPlain();
  }

  /** The public path of a downloaded image (`/images/${filename}`). */
  function ImagePath(filename: string): (r: string)
    ensures StartsWith(r, "/images/") && r[|"/images/"|..] == filename
  {
    "/images/" + filename
  }

  /**
   * The page file name: the URL with the first occurrence of `BASE_URL` removed and every '/'
   * replaced by '_', or 'index' when nothing is left.
   */
  function PageFilename(url: string): (r: string)
    ensures r != "" && '/' !in r
    ensures !Contains(url, BaseUrl) && url != "" ==> |r| == |url|
    ensures StartsWith(url, BaseUrl) && |url| > |BaseUrl| ==> r == SlashesToUnderscores(url[|BaseUrl|..])
    ensures url == "" || url == BaseUrl ==> r == "index"
  {
    assert StartsWith(url, BaseUrl) ==> OccursAt(url, BaseUrl, 0);
    var f := SlashesToUnderscores(RemoveFirst(url, BaseUrl));
    if f == "" then "index" else f
  }

  /** The crawl root as the URL parser writes it maps to '_', the name the extraction script reads. */
  lemma RootPageFilename()
    ensures PageFilename(BaseUrl + "/") == "_"
  {
    var s := BaseUrl + "/";
    assert OccursAt(s, BaseUrl, 0) by {
      assert s[0..|BaseUrl|] == BaseUrl;
    }
    assert RemoveFirst(s, BaseUrl) == "/" by {
      assert FirstIndexFrom(s, BaseUrl, 0) == Some(0);
      assert s[|BaseUrl|..] == "/";
    }
  }
}
