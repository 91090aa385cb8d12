/**
 * The search route's `POST` handler (app/api/search/route.ts): validate the query, score every
 * corpus record, keep the records that score above 0, sort them by descending score with a
 * stable sort, keep the first 10 and drop the score again.
 */
module Search {
  import opened Text
  import opened Relevance

  /** The fixed corpus (`contentDatabase`). */
  const Corpus: seq<ContentRecord> := [
    ContentRecord("about", "About Fighting Monk",
      "Fighting Monk is a full-service commercial, film, and video content production company based in Austin and New York. Our first film production \"Lemonade\" was a project by and about those affected by layoffs during the great recession.",
      "#about",
      ["about", "company", "production", "film", "video", "commercial", "austin", "new york", "lemonade"]),
    ContentRecord("team", "Our Team",
      "Meet the talented team behind Fighting Monk. Our team includes experienced directors, producers, and creatives.",
      "#team",
      ["team", "people", "staff", "directors", "producers", "creatives", "ira brooks", "paul raila", "sara"]),
    ContentRecord("work", "Our Work",
      "We create international, award-winning advertising campaigns, feature films, and social good projects for partners of all sizes.",
      "#work",
      ["work", "projects", "campaigns", "films", "advertising", "awards", "portfolio"]),
    ContentRecord("directors", "Directors",
      "Our directors bring years of experience in commercial and film production.",
      "#directors",
      ["directors", "filmmaking", "production", "commercial"]),
    ContentRecord("contact", "Contact Us",
      "Get in touch with Fighting Monk for your next project.",
      "#contact",
      ["contact", "email", "phone", "reach out", "get in touch"])
  ]

  const MaxResults := 10

  /** A corpus record together with its score for the current query (`{...content, score}`). */
  datatype Scored = Scored(record: ContentRecord, score: int)

  predicate UniqueIds(corpus: seq<ContentRecord>) {
    forall i, j :: 0 <= i < j < |corpus| ==> corpus[i].id != corpus[j].id
  }

  lemma CorpusIdsUnique()
    ensures |Corpus| == 5 && UniqueIds(Corpus)
  {
  }

  // ---------------------------------------------------------------------------------------------
  // The pipeline stages

  /** `contentDatabase.map(content => ({...content, score: calculateRelevance(query, content)}))` */
  function ScoreAll(query: string, corpus: seq<ContentRecord>): (r: seq<Scored>)
    ensures |r| == |corpus|
    ensures forall i :: 0 <= i < |r| ==> r[i] == Scored(corpus[i], Score(query, corpus[i]))
  {
    seq(|corpus|, i requires 0 <= i < |corpus| => Scored(corpus[i], Score(query, corpus[i])))
  }

  /** `filter(item => item.score > 0)` */
  function Positive(xs: seq<Scored>): (r: seq<Scored>)
    ensures forall x :: x in r <==> x in xs && x.score > 0
  {
    if xs == [] then []
    else (if xs[0].score > 0 then [xs[0]] else []) + Positive(xs[1..])
  }

  /** Filtering never lengthens the list. */
  lemma {:induction false} PositiveLength(xs: seq<Scored>)
    ensures |Positive(xs)| <= |xs|
  {
    if xs != [] {
      PositiveLength(xs[1..]);
    }
  }

  /** Non-increasing score. */
  predicate SortedDesc(xs: seq<Scored>) {
    forall i, j :: 0 <= i < j < |xs| ==> xs[i].score >= xs[j].score
  }

  /** The items of `xs` that have score `v`, in the order of `xs`. */
  function ScoreClass(xs: seq<Scored>, v: int): (r: seq<Scored>)
    ensures |r| <= |xs|
  {
    if xs == [] then []
    else (if xs[0].score == v then [xs[0]] else []) + ScoreClass(xs[1..], v)
  }

  /** Inserts `x` in front of the first item whose score is not greater than its own. */
  function Insert(x: Scored, xs: seq<Scored>): (r: seq<Scored>)
    ensures multiset(r) == multiset(xs) + multiset{x}
  {
    if xs == [] then [x]
    else if xs[0].score <= x.score then [x] + xs
    else
      assert xs == [xs[0]] + xs[1..];
      [xs[0]] + Insert(x, xs[1..])
  }

  lemma {:induction false} InsertSorted(x: Scored, xs: seq<Scored>)
    requires SortedDesc(xs)
    ensures SortedDesc(Insert(x, xs))
  {
    if xs != [] && xs[0].score > x.score {
      InsertSorted(x, xs[1..]);
      var r := Insert(x, xs);
      assert r[1..] == Insert(x, xs[1..]);
      forall j | 1 <= j < |r| ensures r[0].score >= r[j].score {
        assert r[j] in multiset(Insert(x, xs[1..]));
        assert r[j] == x || r[j] in multiset(xs[1..]);
      }
    }
  }

  /** `x` joins the front of its score class and every other class is unchanged. */
  lemma {:induction false} InsertScoreClass(x: Scored, xs: seq<Scored>, v: int)
    ensures ScoreClass(Insert(x, xs), v) == (if x.score == v then [x] else []) + ScoreClass(xs, v)
  {
    if xs == [] {
    } else if xs[0].score <= x.score {
      var r := [x] + xs;
      assert r[0] == x && r[1..] == xs;
    } else {
      var rest := Insert(x, xs[1..]);
      var r := [xs[0]] + rest;
      assert r[0] == xs[0] && r[1..] == rest;
      InsertScoreClass(x, xs[1..], v);
      var tail := ScoreClass(xs[1..], v);
      assert ScoreClass(xs, v) == (if xs[0].score == v then [xs[0]] else []) + tail;
      if x.score == v {
        assert ScoreClass(r, v) == ScoreClass(rest, v) == [x] + tail;
      } else {
        assert ScoreClass(rest, v) == tail;
      }
    }
  }

  /**
   * `sort((a, b) => b.score - a.score)`: a stable sort by descending score (Array.prototype.sort is
   * stable, ECMA-262 2023, section 23.1.3.30), written as an insertion sort.
   */
  function SortByScore(xs: seq<Scored>): (r: seq<Scored>)
    ensures multiset(r) == multiset(xs)
  {
    if xs == [] then []
    else
      assert xs == [xs[0]] + xs[1..];
      Insert(xs[0], SortByScore(xs[1..]))
  }

  /** The sort's result is ordered by non-increasing score. */
  lemma {:induction false} SortByScoreSorted(xs: seq<Scored>)
    ensures SortedDesc(SortByScore(xs))
  {
    if xs != [] {
      SortByScoreSorted(xs[1..]);
      InsertSorted(xs[0], SortByScore(xs[1..]));
    }
  }

  /** The sort is stable: each score class keeps the order it has in the input. */
  lemma {:induction false} SortByScoreStable(xs: seq<Scored>, v: int)
    ensures ScoreClass(SortByScore(xs), v) == ScoreClass(xs, v)
  {
    if xs != [] {
      SortByScoreStable(xs[1..], v);
      InsertScoreClass(xs[0], SortByScore(xs[1..]), v);
    }
  }

  /** `slice(0, n)` */
  function Take<T>(xs: seq<T>, n: nat): (r: seq<T>)
    ensures |r| == Min(n, |xs|) && r == xs[..|r|]
  {
    if |xs| <= n then xs else xs[..n]
  }

  /** `map(({score, ...rest}) => rest)` */
  function Strip(xs: seq<Scored>): (r: seq<ContentRecord>)
    ensures |r| == |xs|
    ensures forall i :: 0 <= i < |xs| ==> r[i] == xs[i].record
  {
    seq(|xs|, i requires 0 <= i < |xs| => xs[i].record)
  }

  /** The scored, filtered, sorted and truncated list, before the score is dropped. */
  function Ranked(query: string, corpus: seq<ContentRecord>): (r: seq<Scored>)
    ensures |r| <= MaxResults && |r| <= |corpus|
  {
    var m := Positive(ScoreAll(query, corpus));
    PositiveLength(ScoreAll(query, corpus));
    assert |SortByScore(m)| == |m| by {
      assert |multiset(SortByScore(m))| == |multiset(m)|;
    }
    Take(SortByScore(m), MaxResults)
  }

  /** The `results` array of a successful search. */
  function Rank(query: string, corpus: seq<ContentRecord>): (r: seq<ContentRecord>)
    ensures |r| <= MaxResults && |r| <= |corpus|
  {
    Strip(Ranked(query, corpus))
  }

  // ---------------------------------------------------------------------------------------------
  // The request

  /** The `query` member of the parsed JSON body. */
  datatype QueryField = Missing | Str(s: string) | NonString

  /** The request body: either unparsable (`request.json()` throws) or a JSON object. */
  datatype RequestBody = Malformed | Json(query: QueryField)

  datatype Response = Results(results: seq<ContentRecord>) | Error(status: int, message: string)

  /** `POST` over the fixed corpus. */
  function Post(body: RequestBody): (r: Response)
    ensures r.Error? && r.status == 500 <==> body.Malformed?
    ensures r.Error? && r.status == 400 <==> body.Json? && !(body.query.Str? && body.query.s != "")
    ensures r.Results? ==> body.Json? && body.query.Str? && r.results == Rank(body.query.s, Corpus)
    ensures r.Error? ==> r.status == 400 || r.status == 500
    ensures r.Error? ==> r.message == (if r.status == 400 then "Query is required" else "Internal server error")
  {
    match body
    case Malformed => Error(500, "Internal server error")
    case Json(query) =>
      if query.Str? && query.s != "" then Results(Rank(query.s, Corpus))
      else Error(400, "Query is required")
  }

  // ---------------------------------------------------------------------------------------------
  // Properties of the ranking

  /** The filtered records in corpus order. */
  function Matches(query: string, corpus: seq<ContentRecord>): seq<Scored> {
    Positive(ScoreAll(query, corpus))
  }

  /** Every item carries the score of its own record. */
  predicate ScoresOwnRecord(query: string, xs: seq<Scored>) {
    forall i :: 0 <= i < |xs| ==> xs[i].score == Score(query, xs[i].record)
  }

  /** The records of `xs` that score `v`, in the order of `xs`. */
  function RecordsScoring(query: string, xs: seq<ContentRecord>, v: int): seq<ContentRecord> {
    if xs == [] then []
    else (if Score(query, xs[0]) == v then [xs[0]] else []) + RecordsScoring(query, xs[1..], v)
  }

  lemma {:induction false} StripScoreClass(query: string, xs: seq<Scored>, v: int)
    requires ScoresOwnRecord(query, xs)
    ensures Strip(ScoreClass(xs, v)) == RecordsScoring(query, Strip(xs), v)
  {
    if xs != [] {
      var s := Strip(xs);
      assert s[0] == xs[0].record && s[1..] == Strip(xs[1..]);
      assert Score(query, s[0]) == xs[0].score;
      assert ScoresOwnRecord(query, xs[1..]);
      StripScoreClass(query, xs[1..], v);
      var head := if xs[0].score == v then [xs[0]] else [];
      var rest := ScoreClass(xs[1..], v);
      assert ScoreClass(xs, v) == head + rest;
      assert Strip(head + rest) == Strip(head) + Strip(rest);
      assert RecordsScoring(query, s, v) == Strip(head) + RecordsScoring(query, s[1..], v);
    }
  }

  lemma {:induction false} ScoreClassPositive(xs: seq<Scored>, v: int)
    requires v > 0
    ensures ScoreClass(Positive(xs), v) == ScoreClass(xs, v)
  {
    if xs != [] {
      ScoreClassPositive(xs[1..], v);
      if xs[0].score > 0 {
        assert Positive(xs) == [xs[0]] + Positive(xs[1..]);
        assert Positive(xs)[1..] == Positive(xs[1..]);
      } else {
        assert Positive(xs) == Positive(xs[1..]);
      }
    }
  }

  lemma {:induction false} ScoreClassNonPositive(xs: seq<Scored>, v: int)
    requires v <= 0
    ensures ScoreClass(Positive(xs), v) == []
  {
    if xs != [] {
      ScoreClassNonPositive(xs[1..], v);
      if xs[0].score > 0 {
        assert Positive(xs) == [xs[0]] + Positive(xs[1..]);
        assert Positive(xs)[1..] == Positive(xs[1..]);
      } else {
        assert Positive(xs) == Positive(xs[1..]);
      }
    }
  }

  lemma {:induction false} ScoreClassOfTake(xs: seq<Scored>, n: nat, v: int)
    ensures StartsWith(ScoreClass(xs, v), ScoreClass(Take(xs, n), v))
  {
    var t := Take(xs, n);
    if n == 0 {
      assert t == [];
    } else if |xs| <= n {
      assert t == xs;
    } else {
      var h := if xs[0].score == v then [xs[0]] else [];
      assert t[0] == xs[0] && t[1..] == Take(xs[1..], n - 1);
      ScoreClassOfTake(xs[1..], n - 1, v);
      var a, b := ScoreClass(xs[1..], v), ScoreClass(t[1..], v);
      assert ScoreClass(xs, v) == h + a;
      assert ScoreClass(t, v) == h + b;
      assert (h + a)[..|h + b|] == h + a[..|b|];
    }
  }

  lemma ScoreAllScoresOwnRecord(query: string, corpus: seq<ContentRecord>)
    ensures Strip(ScoreAll(query, corpus)) == corpus
    ensures ScoresOwnRecord(query, ScoreAll(query, corpus))
  {
  }

  /** Results are at most 10 records of the corpus, each scoring above 0. */
  lemma RankBounds(query: string, corpus: seq<ContentRecord>)
    ensures |Rank(query, corpus)| <= MaxResults
    ensures forall i :: 0 <= i < |Rank(query, corpus)| ==>
              Rank(query, corpus)[i] in corpus && Score(query, Rank(query, corpus)[i]) > 0
  {
    var s := SortByScore(Matches(query, corpus));
    forall i | 0 <= i < |Rank(query, corpus)|
      ensures Rank(query, corpus)[i] in corpus && Score(query, Rank(query, corpus)[i]) > 0
    {
      var x := s[i];
      assert x in multiset(s);
      assert x in Matches(query, corpus);
    }
  }

  /** Results are ordered by non-increasing score. */
  lemma RankOrdered(query: string, corpus: seq<ContentRecord>)
    ensures forall i, j :: 0 <= i < j < |Rank(query, corpus)| ==>
              Score(query, Rank(query, corpus)[i]) >= Score(query, Rank(query, corpus)[j])
  {
    var all := ScoreAll(query, corpus);
    var s := SortByScore(Positive(all));
    var r := Rank(query, corpus);
    SortByScoreSorted(Positive(all));
    assert r == Strip(Take(s, MaxResults));
    forall i | 0 <= i < |r| ensures r[i] == s[i].record && s[i].score == Score(query, r[i]) {
      assert s[i] in multiset(s);
      assert s[i] in all;
    }
  }

  /**
   * Ties keep corpus order: the results that score `v` are the first of the corpus records that
   * score `v`, in corpus order.
   */
  lemma RankStable(query: string, corpus: seq<ContentRecord>, v: int)
    ensures StartsWith(RecordsScoring(query, corpus, v), RecordsScoring(query, Rank(query, corpus), v))
  {
    var all := ScoreAll(query, corpus);
    var m := Positive(all);
    var s := SortByScore(m);
    var t := Take(s, MaxResults);
    assert Rank(query, corpus) == Strip(t);
    ScoreAllScoresOwnRecord(query, corpus);
    forall i | 0 <= i < |t| ensures t[i].score == Score(query, t[i].record) {
      assert t[i] in multiset(s);
      assert t[i] in all;
    }
    StripScoreClass(query, t, v);
    StripScoreClass(query, all, v);
    ScoreClassOfTake(s, MaxResults, v);
    SortByScoreStable(m, v);
    if v > 0 {
      ScoreClassPositive(all, v);
      StripPrefix(ScoreClass(all, v), ScoreClass(t, v));
    } else {
      ScoreClassNonPositive(all, v);
      assert ScoreClass(t, v) == [];
    }
  }

  lemma StripPrefix(xs: seq<Scored>, ys: seq<Scored>)
    requires StartsWith(xs, ys)
    ensures StartsWith(Strip(xs), Strip(ys))
  {
    assert Strip(xs)[..|ys|] == Strip(ys);
  }

  lemma NotKeptLiesBeyond(s: seq<Scored>, n: nat, p: nat)
    requires p < |s| && s[p].record !in Strip(Take(s, n))
    ensures n <= p && |Take(s, n)| == n
  {
  }

  /**
   * Nothing that scores above 0 is dropped unless ten results are returned, each scoring at
   * least as much as it does.
   */
  lemma RankKeepsTheBest(query: string, corpus: seq<ContentRecord>, k: nat)
    requires k < |corpus| && Score(query, corpus[k]) > 0 && corpus[k] !in Rank(query, corpus)
    ensures |Rank(query, corpus)| == MaxResults
    ensures forall i :: 0 <= i < MaxResults ==> Score(query, Rank(query, corpus)[i]) >= Score(query, corpus[k])
  {
    var all := ScoreAll(query, corpus);
    var s := SortByScore(Positive(all));
    var r := Rank(query, corpus);
    assert r == Strip(Take(s, MaxResults));
    SortByScoreSorted(Positive(all));
    var x := all[k];
    assert x in Positive(all);
    assert x in multiset(s);
    var p :| 0 <= p < |s| && s[p] == x;
    NotKeptLiesBeyond(s, MaxResults, p);
    forall i | 0 <= i < MaxResults ensures Score(query, r[i]) >= Score(query, corpus[k]) {
      assert s[i] in multiset(s);
      assert s[i] in all;
      assert s[i].score >= s[p].score;
    }
  }

  /** With ten or fewer matches, every match is returned. */
  lemma RankReturnsAllWhenFew(query: string, corpus: seq<ContentRecord>)
    requires |Matches(query, corpus)| <= MaxResults
    ensures forall k :: 0 <= k < |corpus| && Score(query, corpus[k]) > 0 ==> corpus[k] in Rank(query, corpus)
  {
    var all := ScoreAll(query, corpus);
    var m := Positive(all);
    var s := SortByScore(m);
    assert |s| == |m| by {
      assert |multiset(s)| == |multiset(m)|;
    }
    assert Take(s, MaxResults) == s;
    var r := Rank(query, corpus);
    assert r == Strip(s);
    forall k | 0 <= k < |corpus| && Score(query, corpus[k]) > 0 ensures corpus[k] in r {
      assert all[k] in m;
      assert all[k] in multiset(s);
      var p :| 0 <= p < |s| && s[p] == all[k];
      assert r[p] == corpus[k];
    }
  }

  /**
   * Over the five-record corpus every match is returned, so a query equal to a record's title,
   * ignoring case, always finds that record.
   */
  lemma TitleQueryReturned(q: string, k: nat)
    requires k < |Corpus| && q != "" && Lower(q) == Lower(Corpus[k].title)
    ensures Post(Json(Str(q))).Results? && Corpus[k] in Post(Json(Str(q))).results
  {
    TitleQueryRanked(q, Corpus, k);
  }

  /** Over a corpus of at most ten records, a record whose title equals the query is ranked. */
  lemma TitleQueryRanked(q: string, corpus: seq<ContentRecord>, k: nat)
    requires |corpus| <= MaxResults && k < |corpus| && Lower(q) == Lower(corpus[k].title)
    ensures corpus[k] in Rank(q, corpus)
  {
    PositiveLength(ScoreAll(q, corpus));
    TitleQueryScoresAtLeastTen(q, corpus[k]);
    RankReturnsAllWhenFew(q, corpus);
  }

  // ---------------------------------------------------------------------------------------------
  // The sort is determined by its two properties

  lemma {:induction false} SortedHeadIsMax(xs: seq<Scored>, x: Scored)
    requires SortedDesc(xs) && x in xs
    ensures xs[0].score >= x.score
  {
  }

  lemma {:induction false} ScoreClassOfMember(xs: seq<Scored>, x: Scored)
    requires x in xs
    ensures ScoreClass(xs, x.score) != []
  {
    if xs[0] != x {
      assert x in xs[1..];
      ScoreClassOfMember(xs[1..], x);
    }
  }

  lemma {:induction false} ScoreClassEmpty(xs: seq<Scored>)
    requires forall v :: ScoreClass(xs, v) == []
    ensures xs == []
  {
    if xs != [] {
      ScoreClassOfMember(xs, xs[0]);
    }
  }

  lemma {:induction false} SameClassesSameSorted(xs: seq<Scored>, ys: seq<Scored>)
    requires SortedDesc(xs) && SortedDesc(ys)
    requires forall v :: ScoreClass(xs, v) == ScoreClass(ys, v)
    ensures xs == ys
    decreases |xs|
  {
    if xs == [] {
      ScoreClassEmpty(ys);
    } else if ys == [] {
      ScoreClassEmpty(xs);
    } else {
      var a, b := xs[0], ys[0];
      ScoreClassOfMember(xs, a);
      var y := ScoreClass(ys, a.score)[0];
      ClassMember(ys, a.score, y);
      SortedHeadIsMax(ys, y);
      ScoreClassOfMember(ys, b);
      var x := ScoreClass(xs, b.score)[0];
      ClassMember(xs, b.score, x);
      SortedHeadIsMax(xs, x);
      assert a.score == b.score;
      assert ScoreClass(xs, a.score)[0] == a;
      assert ScoreClass(ys, a.score)[0] == b;
      assert a == b;
      forall v ensures ScoreClass(xs[1..], v) == ScoreClass(ys[1..], v) {
        var h := if a.score == v then [a] else [];
        assert ScoreClass(xs, v) == h + ScoreClass(xs[1..], v);
        assert ScoreClass(ys, v) == h + ScoreClass(ys[1..], v);
        assert ScoreClass(xs[1..], v) == ScoreClass(xs, v)[|h|..];
        assert ScoreClass(ys[1..], v) == ScoreClass(ys, v)[|h|..];
      }
      SameClassesSameSorted(xs[1..], ys[1..]);
      assert xs == [a] + xs[1..] && ys == [b] + ys[1..];
    }
  }

  lemma {:induction false} ClassMember(xs: seq<Scored>, v: int, y: Scored)
    requires y in ScoreClass(xs, v)
    ensures y in xs && y.score == v
  {
    if xs[0].score == v && y == xs[0] {
    } else {
      ClassMember(xs[1..], v, y);
    }
  }

  /**
   * Any arrangement that is ordered by non-increasing score and keeps every score class in input
   * order is the sort's result: every stable sort by descending score ranks the same way.
   */
  lemma StableSortUnique(xs: seq<Scored>, ys: seq<Scored>)
    requires SortedDesc(ys)
    requires forall v :: ScoreClass(ys, v) == ScoreClass(xs, v)
    ensures ys == SortByScore(xs)
  {
    SortByScoreSorted(xs);
    forall v ensures ScoreClass(SortByScore(xs), v) == ScoreClass(ys, v) {
      SortByScoreStable(xs, v);
    }
    SameClassesSameSorted(SortByScore(xs), ys);
  }
}
