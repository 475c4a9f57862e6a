/**
 * The batch loop of `check_links`: the first 100 URLs are fetched one after the other and
 * each lands in the valid or the invalid list; a valid URL whose page is significant also
 * lands in the list of links with articles.
 *
 * The HTTP transport is not modelled: `fetch` gives, for each URL, the outcome of the one
 * GET request the loop makes for it (a response with its status and parsed page, or a
 * raised `RequestException`).
 */
module Batch {
  import opened Classifier

  /** Outcome of `requests.get(url, timeout=5)`. */
  datatype FetchOutcome =
    | Response(status: int, page: Page)
    | RequestFailed

  /** Only the first this many URLs of a request are processed. */
  const BatchLimit: nat := 100

  /** The three output lists of the loop. */
  datatype Category = ValidLink | InvalidLink | ArticleLink

  /** The three lists, in the order in which the loop appended to them. */
  datatype Report = Report(valid: seq<string>, invalid: seq<string>, articles: seq<string>)

  /** A URL is valid exactly when its request returned a response with status 200. */
  predicate Accepted(outcome: FetchOutcome)
  {
    outcome.Response? && outcome.status == 200
  }

  /** Whether a URL with this fetch outcome is appended to the list of category `c`. */
  predicate InCategory(c: Category, outcome: FetchOutcome)
  {
    match c
    case ValidLink => Accepted(outcome)
    case InvalidLink => !Accepted(outcome)
    case ArticleLink => Accepted(outcome) && HasSignificantContent(outcome.page)
  }

  /** `urls[:100]`. */
  function Capped(urls: seq<string>): (processed: seq<string>)
    ensures |processed| == if |urls| <= BatchLimit then |urls| else BatchLimit
    ensures processed == urls[..|processed|]
  {
    if |urls| <= BatchLimit then urls else urls[..BatchLimit]
  }

  /** The URLs of `urls` in category `c`, in input order: the reference definition of one output list. */
  function Bucket(urls: seq<string>, fetch: string -> FetchOutcome, c: Category): (bucket: seq<string>)
    ensures |bucket| <= |urls|
    decreases |urls|
  {
    if urls == [] then []
    else
      var url := urls[|urls| - 1];
      Bucket(urls[..|urls| - 1], fetch, c) + (if InCategory(c, fetch(url)) then [url] else [])
  }

  /** The report of a batch: the three lists over the processed URLs. */
  function BatchReport(urls: seq<string>, fetch: string -> FetchOutcome): Report
  {
    var processed := Capped(urls);
    Report(Bucket(processed, fetch, ValidLink), Bucket(processed, fetch, InvalidLink),
           Bucket(processed, fetch, ArticleLink))
  }

  /** `a` can be obtained from `b` by deleting elements (order kept). */
  predicate IsSubsequence(a: seq<string>, b: seq<string>)
    decreases |b|
  {
    if a == [] then true
    else if b == [] then false
    else if a[|a| - 1] == b[|b| - 1] then IsSubsequence(a[..|a| - 1], b[..|b| - 1])
    else IsSubsequence(a, b[..|b| - 1])
  }

  /** The loop `for url in urls[:100]` with its three `append`s. */
  method ProcessBatch(urls: seq<string>, fetch: string -> FetchOutcome) returns (report: Report)
    ensures report == BatchReport(urls, fetch)
  {
    var processed := if |urls| <= BatchLimit then urls else urls[..BatchLimit];
    var valid, invalid, articles := [], [], [];
    for i := 0 to |processed|
      invariant valid == Bucket(processed[..i], fetch, ValidLink)
      invariant invalid == Bucket(processed[..i], fetch, InvalidLink)
      invariant articles == Bucket(processed[..i], fetch, ArticleLink)
    {
      var url := processed[i];
      assert processed[..i + 1][..i] == processed[..i];
      match fetch(url) {
        case Response(status, page) =>
          if status == 200 {
            valid := valid + [url];
            if HasSignificantContent(page) {
              articles := articles + [url];
            }
          } else {
            invalid := invalid + [url];
          }
        case RequestFailed =>
          invalid := invalid + [url];
      }
    }
    assert processed[..|processed|] == processed;
    report := Report(valid, invalid, articles);
  }

  // ---------------------------------------------------------------------------
  // Subsequences

  /** A subsequence is never longer. */
  lemma {:induction false} SubsequenceLength(a: seq<string>, b: seq<string>)
    requires IsSubsequence(a, b)
    ensures |a| <= |b|
    decreases |b|
  {
    if a != [] {
      if a[|a| - 1] == b[|b| - 1] {
        SubsequenceLength(a[..|a| - 1], b[..|b| - 1]);
      } else {
        SubsequenceLength(a, b[..|b| - 1]);
      }
    }
  }

  /** Dropping the last element of a subsequence keeps it a subsequence. */
  lemma {:induction false} SubsequenceDropLast(a: seq<string>, b: seq<string>)
    requires a != [] && IsSubsequence(a, b)
    ensures IsSubsequence(a[..|a| - 1], b)
    decreases |b|, 0
  {
    var a', b' := a[..|a| - 1], b[..|b| - 1];
    if a[|a| - 1] == b[|b| - 1] {
      SubsequenceExtend(a', b', b[|b| - 1]);
      assert b' + [b[|b| - 1]] == b;
    } else {
      SubsequenceDropLast(a, b');
      SubsequenceExtend(a', b', b[|b| - 1]);
      assert b' + [b[|b| - 1]] == b;
    }
  }

  /** Appending to the larger sequence keeps a subsequence a subsequence. */
  lemma {:induction false} SubsequenceExtend(a: seq<string>, b: seq<string>, x: string)
    requires IsSubsequence(a, b)
    ensures IsSubsequence(a, b + [x])
    decreases |b|, 1
  {
    var b1 := b + [x];
    assert b1[..|b1| - 1] == b;
    if a != [] && a[|a| - 1] == x {
      SubsequenceDropLast(a, b);
    }
  }

  // ---------------------------------------------------------------------------
  // Properties of one output list

  /** A URL is in a list exactly when it was processed and its outcome belongs to that list. */
  lemma {:induction false} BucketMember(urls: seq<string>, fetch: string -> FetchOutcome, c: Category, url: string)
    ensures url in Bucket(urls, fetch, c) <==> url in urls && InCategory(c, fetch(url))
    decreases |urls|
  {
    if urls != [] {
      var init, last := urls[..|urls| - 1], urls[|urls| - 1];
      BucketMember(init, fetch, c, url);
      assert urls == init + [last];
    }
  }

  /** Each list keeps the input order: it is a subsequence of the processed URLs. */
  lemma {:induction false} BucketIsSubsequence(urls: seq<string>, fetch: string -> FetchOutcome, c: Category)
    ensures IsSubsequence(Bucket(urls, fetch, c), urls)
    decreases |urls|
  {
    if urls != [] {
      var init, last := urls[..|urls| - 1], urls[|urls| - 1];
      BucketIsSubsequence(init, fetch, c);
      assert init + [last] == urls;
      if InCategory(c, fetch(last)) {
        var bucket := Bucket(urls, fetch, c);
        assert bucket[..|bucket| - 1] == Bucket(init, fetch, c);
      } else {
        assert Bucket(urls, fetch, c) == Bucket(init, fetch, c);
        SubsequenceExtend(Bucket(init, fetch, c), init, last);
      }
    }
  }

  /** Every processed URL is appended to exactly one of the valid and invalid lists. */
  lemma {:induction false} ValidInvalidPartition(urls: seq<string>, fetch: string -> FetchOutcome)
    ensures |Bucket(urls, fetch, ValidLink)| + |Bucket(urls, fetch, InvalidLink)| == |urls|
    decreases |urls|
  {
    if urls != [] {
      ValidInvalidPartition(urls[..|urls| - 1], fetch);
    }
  }

  /** The links with articles are a subsequence of the valid links. */
  lemma {:induction false} ArticlesWithinValid(urls: seq<string>, fetch: string -> FetchOutcome)
    ensures IsSubsequence(Bucket(urls, fetch, ArticleLink), Bucket(urls, fetch, ValidLink))
    decreases |urls|
  {
    if urls != [] {
      var init, last := urls[..|urls| - 1], urls[|urls| - 1];
      ArticlesWithinValid(init, fetch);
      var articles, valid := Bucket(urls, fetch, ArticleLink), Bucket(urls, fetch, ValidLink);
      if InCategory(ArticleLink, fetch(last)) {
        assert articles[..|articles| - 1] == Bucket(init, fetch, ArticleLink);
        assert valid[..|valid| - 1] == Bucket(init, fetch, ValidLink);
      } else if InCategory(ValidLink, fetch(last)) {
        assert articles == Bucket(init, fetch, ArticleLink);
        assert valid == Bucket(init, fetch, ValidLink) + [last];
        SubsequenceExtend(Bucket(init, fetch, ArticleLink), Bucket(init, fetch, ValidLink), last);
      } else {
        assert articles == Bucket(init, fetch, ArticleLink);
        assert valid == Bucket(init, fetch, ValidLink);
      }
    }
  }

  // ---------------------------------------------------------------------------
  // Properties of the batch report

  /** The invariants of the report: partition, order, and articles within valid. */
  lemma BatchReportInvariants(urls: seq<string>, fetch: string -> FetchOutcome)
    ensures var r := BatchReport(urls, fetch);
      |r.valid| + |r.invalid| == |Capped(urls)| &&
      |r.articles| <= |r.valid| &&
      IsSubsequence(r.articles, r.valid) &&
      IsSubsequence(r.valid, Capped(urls)) &&
      IsSubsequence(r.invalid, Capped(urls)) &&
      IsSubsequence(r.articles, Capped(urls))
  {
    var processed := Capped(urls);
    ValidInvalidPartition(processed, fetch);
    ArticlesWithinValid(processed, fetch);
    SubsequenceLength(Bucket(processed, fetch, ArticleLink), Bucket(processed, fetch, ValidLink));
    BucketIsSubsequence(processed, fetch, ValidLink);
    BucketIsSubsequence(processed, fetch, InvalidLink);
    BucketIsSubsequence(processed, fetch, ArticleLink);
  }

  /** Where one URL ends up: valid iff status 200, invalid otherwise, with an article iff also significant; never when it is beyond the cap. */
  lemma BatchReportMember(urls: seq<string>, fetch: string -> FetchOutcome, url: string)
    ensures var r := BatchReport(urls, fetch);
      (url in r.valid <==> url in Capped(urls) && Accepted(fetch(url))) &&
      (url in r.invalid <==> url in Capped(urls) && !Accepted(fetch(url))) &&
      (url in r.articles <==> url in Capped(urls) && Accepted(fetch(url)) && HasSignificantContent(fetch(url).page))
    ensures var r := BatchReport(urls, fetch);
      !(url in r.valid && url in r.invalid)
  {
    var processed := Capped(urls);
    BucketMember(processed, fetch, ValidLink, url);
    BucketMember(processed, fetch, InvalidLink, url);
    BucketMember(processed, fetch, ArticleLink, url);
  }

  /** A URL that occurs only at positions 100 and beyond is in none of the three lists. */
  lemma BeyondCapIgnored(urls: seq<string>, fetch: string -> FetchOutcome, url: string)
    requires |urls| > BatchLimit && url !in urls[..BatchLimit]
    ensures var r := BatchReport(urls, fetch);
      url !in r.valid && url !in r.invalid && url !in r.articles
  {
    BatchReportMember(urls, fetch, url);
  }
}
