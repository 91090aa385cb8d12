/**
 * The relevance score of the search route (`calculateRelevance` in app/api/search/route.ts).
 *
 * Every increment of the source is a multiple of one half, so scores are kept exactly as
 * integers counting HALF-POINTS: a title match is 20 (10 points), a content match 10 (5), a
 * keyword match 6 (3), and per query token 4 (2) for the title, 2 (1) for the content and
 * 3 (1.5) for the keywords.
 */
module Relevance {
  import opened Text

  /** One entry of the search corpus (`SearchContent`). */
  datatype ContentRecord = ContentRecord(id: string, title: string, content: string, url: string, keywords: seq<string>)

  const TitlePoints := 20
  const ContentPoints := 10
  const KeywordPoints := 6
  const TokenTitlePoints := 4
  const TokenContentPoints := 2
  const TokenKeywordPoints := 3

  /** The points one keyword earns against the lower-cased query. */
  function KeywordMatch(queryLower: string, keyword: string): (r: int)
    ensures r == KeywordPoints || r == 0
    ensures r == KeywordPoints <==> Contains(queryLower, Lower(keyword)) || Contains(Lower(keyword), queryLower)
  {
    var k := Lower(keyword);
    if Contains(queryLower, k) || Contains(k, queryLower) then KeywordPoints else 0
  }

  /** The keyword clause: the points of every keyword of the list, duplicates included. */
  function KeywordScore(queryLower: string, keywords: seq<string>): (r: int)
    ensures 0 <= r <= KeywordPoints * |keywords|
  {
    if keywords == [] then 0
    else KeywordScore(queryLower, keywords[..|keywords| - 1]) + KeywordMatch(queryLower, keywords[|keywords| - 1])
  }

  /** `keywords.some(k => k.toLowerCase().includes(word))` */
  predicate AnyKeywordContains(keywords: seq<string>, word: string) {
    exists i :: 0 <= i < |keywords| && Contains(Lower(keywords[i]), word)
  }

  /** The points one query token earns: title, content and keyword tests are independent. */
  function TokenMatch(titleLower: string, contentLower: string, keywords: seq<string>, word: string): (r: int)
    ensures 0 <= r <= TokenTitlePoints + TokenContentPoints + TokenKeywordPoints
    ensures r == 0 <==> !Contains(titleLower, word) && !Contains(contentLower, word) && !AnyKeywordContains(keywords, word)
    ensures r % 2 == 1 <==> AnyKeywordContains(keywords, word)
  {
    (if Contains(titleLower, word) then TokenTitlePoints else 0)
    + (if Contains(contentLower, word) then TokenContentPoints else 0)
    + (if AnyKeywordContains(keywords, word) then TokenKeywordPoints else 0)
  }

  /** The token clause: the points of every token, repeated tokens counted each time. */
  function TokenScore(titleLower: string, contentLower: string, keywords: seq<string>, words: seq<string>): (r: int)
    ensures 0 <= r <= (TokenTitlePoints + TokenContentPoints + TokenKeywordPoints) * |words|
  {
    if words == [] then 0
    else TokenScore(titleLower, contentLower, keywords, words[..|words| - 1])
         + TokenMatch(titleLower, contentLower, keywords, words[|words| - 1])
  }

  /** The words of the list longer than two characters, in order (`filter(w => w.length > 2)`). */
  function LongWords(words: seq<string>): (r: seq<string>)
    ensures |r| <= |words|
    ensures forall k :: 0 <= k < |r| ==> |r[k]| > 2
  {
    if words == [] then []
    else (if |words[0]| > 2 then [words[0]] else []) + LongWords(words[1..])
  }

  /** `query.toLowerCase().split(/\s+/).filter(w => w.length > 2)` */
  function Tokens(query: string): seq<string> {
    LongWords(Words(Lower(query)))
  }

  /** Every query token is a lower-case word, free of white space, of more than two characters. */
  lemma TokensAreLongWords(query: string)
    ensures forall k :: 0 <= k < |Tokens(query)| ==>
              IsWord(Tokens(query)[k]) && |Tokens(query)[k]| > 2 && Tokens(query)[k] in Words(Lower(query))
  {
    LongWordsAreMembers(Words(Lower(query)));
  }

  lemma {:induction false} LongWordsAreMembers(words: seq<string>)
    ensures forall k :: 0 <= k < |LongWords(words)| ==> LongWords(words)[k] in words
  {
    if words != [] {
      LongWordsAreMembers(words[1..]);
    }
  }

  /** The relevance score of `rec` for `query`, in half-points. */
  function Score(query: string, rec: ContentRecord): (r: int)
    ensures r >= 0
  {
    var queryLower := Lower(query);
    var titleLower := Lower(rec.title);
    var contentLower := Lower(rec.content);
    (if Contains(titleLower, queryLower) then TitlePoints else 0)
    + (if Contains(contentLower, queryLower) then ContentPoints else 0)
    + KeywordScore(queryLower, rec.keywords)
    + TokenScore(titleLower, contentLower, rec.keywords, Tokens(query))
  }

  /**
   * `calculateRelevance`: a running `score` that starts at 0 and is increased by each clause,
   * with one loop over the keywords and one over the query tokens.
   */
  method CalculateRelevance(query: string, rec: ContentRecord) returns (score: int)
    ensures score == Score(query, rec)
  {
    var queryLower := Lower(query);
    var titleLower := Lower(rec.title);
    var contentLower := Lower(rec.content);
    score := 0;
    if Contains(titleLower, queryLower) {
      score := score + TitlePoints;
    }
    if Contains(contentLower, queryLower) {
      score := score + ContentPoints;
    }
    var keywords := rec.keywords;
    ghost var before := score;
    for i := 0 to |keywords|
      invariant score == before + KeywordScore(queryLower, keywords[..i])
    {
      KeywordScoreNext(queryLower, keywords, i);
      var keyword := Lower(keywords[i]);
      if Contains(queryLower, keyword) || Contains(keyword, queryLower) {
        score := score + KeywordPoints;
      }
    }
    assert keywords[..|keywords|] == keywords;
    var words := Tokens(query);
    before := score;
    for i := 0 to |words|
      invariant score == before + TokenScore(titleLower, contentLower, keywords, words[..i])
    {
      TokenScoreNext(titleLower, contentLower, keywords, words, i);
      var word := words[i];
      if Contains(titleLower, word) {
        score := score + TokenTitlePoints;
      }
      if Contains(contentLower, word) {
        score := score + TokenContentPoints;
      }
      if AnyKeywordContains(keywords, word) {
        score := score + TokenKeywordPoints;
      }
    }
    assert words[..|words|] == words;
  }

  /** One more keyword adds exactly its own points. */
  lemma KeywordScoreNext(queryLower: string, keywords: seq<string>, i: nat)
    requires i < |keywords|
    ensures KeywordScore(queryLower, keywords[..i + 1]) == KeywordScore(queryLower, keywords[..i]) + KeywordMatch(queryLower, keywords[i])
  {
    assert keywords[..i + 1][..i] == keywords[..i];
  }

  /** One more token adds exactly its own points. */
  lemma TokenScoreNext(titleLower: string, contentLower: string, keywords: seq<string>, words: seq<string>, i: nat)
    requires i < |words|
    ensures TokenScore(titleLower, contentLower, keywords, words[..i + 1])
         == TokenScore(titleLower, contentLower, keywords, words[..i]) + TokenMatch(titleLower, contentLower, keywords, words[i])
  {
    assert words[..i + 1][..i] == words[..i];
  }

  // ---------------------------------------------------------------------------------------------
  // Properties of the score

  /** A query contained in the title, case-insensitively, scores at least 10 points. */
  lemma TitleMatchScoresAtLeastTen(query: string, rec: ContentRecord)
    requires Contains(Lower(rec.title), Lower(query))
    ensures Score(query, rec) >= TitlePoints
  {
  }

  /** In particular a query equal to the title up to case scores at least 10 points. */
  lemma TitleQueryScoresAtLeastTen(query: string, rec: ContentRecord)
    requires Lower(query) == Lower(rec.title)
    ensures Score(query, rec) >= TitlePoints
  {
    ContainsSelf(Lower(rec.title));
  }

  /** The title and the content clauses add independently: matching both gives at least 15 points. */
  lemma TitleAndContentMatch(query: string, rec: ContentRecord)
    requires Contains(Lower(rec.title), Lower(query)) && Contains(Lower(rec.content), Lower(query))
    ensures Score(query, rec) >= TitlePoints + ContentPoints
  {
  }

  /** The keyword clause is a sum over the list: splitting the list splits the points. */
  lemma {:induction false} KeywordScoreAppend(queryLower: string, a: seq<string>, b: seq<string>)
    ensures KeywordScore(queryLower, a + b) == KeywordScore(queryLower, a) + KeywordScore(queryLower, b)
    decreases |b|
  {
    if b == [] {
      assert a + b == a;
    } else {
      var b' := b[..|b| - 1];
      assert (a + b)[..|a + b| - 1] == a + b';
      KeywordScoreAppend(queryLower, a, b');
    }
  }

  /**
   * Each keyword, duplicates included, adds exactly 3 points when it and the query contain one
   * another (case-insensitively) and nothing otherwise.
   */
  lemma KeywordAddsExactly(queryLower: string, before: seq<string>, keyword: string, after: seq<string>)
    ensures KeywordScore(queryLower, before + [keyword] + after)
         == KeywordScore(queryLower, before + after)
            + (if Contains(queryLower, Lower(keyword)) || Contains(Lower(keyword), queryLower) then KeywordPoints else 0)
  {
    KeywordScoreAppend(queryLower, before + [keyword], after);
    KeywordScoreAppend(queryLower, before, [keyword]);
    KeywordScoreAppend(queryLower, before, after);
    assert [keyword][..0] == [];
  }

  /** The token clause is a sum over the tokens. */
  lemma {:induction false} TokenScoreAppend(t: string, c: string, ks: seq<string>, a: seq<string>, b: seq<string>)
    ensures TokenScore(t, c, ks, a + b) == TokenScore(t, c, ks, a) + TokenScore(t, c, ks, b)
    decreases |b|
  {
    if b == [] {
      assert a + b == a;
    } else {
      var b' := b[..|b| - 1];
      assert (a + b)[..|a + b| - 1] == a + b';
      TokenScoreAppend(t, c, ks, a, b');
    }
  }

  lemma LongWordsAppend(a: seq<string>, b: seq<string>)
    ensures LongWords(a + b) == LongWords(a) + LongWords(b)
  {
    if a != [] {
      assert (a + b)[1..] == a[1..] + b;
      LongWordsAppend(a[1..], b);
    } else {
      assert a + b == b;
    }
  }

  /**
   * The tokens of a query that begins with a word: the lower-cased word if it is longer than
   * two characters, then the tokens of the rest. Short words give no token; a word that occurs
   * twice gives two tokens.
   */
  lemma TokensOfLeadingWord(w: string, rest: string)
    requires IsWord(w)
    requires rest == [] || IsSpace(rest[0])
    ensures Tokens(w + rest) == (if |w| > 2 then [Lower(w)] else []) + Tokens(rest)
  {
    LowerAppend(w, rest);
    assert IsWord(Lower(w));
    assert Lower(rest) == [] || IsSpace(Lower(rest)[0]);
    WordsOfLeadingWord(Lower(w), Lower(rest));
    LongWordsAppend([Lower(w)], Words(Lower(rest)));
  }

  /**
   * The token bonus of a query that begins with a word: that word, when longer than two
   * characters, adds its own title (2), content (1) and keyword (1.5) points, independently of
   * the other tokens; a word of at most two characters adds nothing.
   */
  lemma TokenBonusOfLeadingWord(rec: ContentRecord, w: string, rest: string)
    requires IsWord(w)
    requires rest == [] || IsSpace(rest[0])
    ensures var t, c := Lower(rec.title), Lower(rec.content);
            TokenScore(t, c, rec.keywords, Tokens(w + rest))
            == (if |w| > 2 then TokenMatch(t, c, rec.keywords, Lower(w)) else 0)
               + TokenScore(t, c, rec.keywords, Tokens(rest))
  {
    var t, c := Lower(rec.title), Lower(rec.content);
    TokensOfLeadingWord(w, rest);
    var head := if |w| > 2 then [Lower(w)] else [];
    TokenScoreAppend(t, c, rec.keywords, head, Tokens(rest));
    if |w| > 2 {
      assert head[..0] == [];
    }
  }
}
