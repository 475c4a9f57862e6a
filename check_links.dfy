/**
 * The `POST /check_links` handler: read the `urls` form field, split it into URLs, reject a
 * request without URLs, run the batch loop and assemble the report row.
 */
module LinkCheck {
  import opened Common
  import opened Text
  import opened Classifier
  import opened Batch
  import opened ReportRow

  /**
   * Why a request is rejected; both are answered with status 400. `MissingField`: the form has
   * no `urls` field (the lookup raises, and the framework answers Bad Request). `NoUrls`: the
   * field holds no URL, answered with the JSON body `{"error": message}`.
   */
  datatype RequestError = MissingField | NoUrls(message: string)

  const NoUrlsMessage: string := "No URLs provided"

  /** The handler, up to the six values of the report row. `form` is the `urls` field, if sent. */
  method CheckLinks(form: Option<string>, fetch: string -> FetchOutcome) returns (result: Result<Row, RequestError>)
    ensures form.None? <==> result == Failure(MissingField)
    ensures form.Some? ==> (result == Failure(NoUrls(NoUrlsMessage)) <==> IsBlank(form.value))
    ensures form.Some? && !IsBlank(form.value) ==>
      result == Success(BuildRow(BatchReport(Split(form.value), fetch)))
  {
    if form.None? {
      return Failure(MissingField);
    }
    var urls := Split(form.value);
    SplitEmptyIffBlank(form.value);
    if urls == [] {
      return Failure(NoUrls(NoUrlsMessage));
    }
    var report := ProcessBatch(urls, fetch);
    result := Success(BuildRow(report));
  }

  /** Every URL in a list of the report is one of the tokens of the form field, hence a word. */
  lemma ReportHoldsTokens(form: string, fetch: string -> FetchOutcome, c: Category)
    ensures forall url :: url in Bucket(Capped(Split(form)), fetch, c) ==> url in Split(form)
    ensures AllWords(Bucket(Capped(Split(form)), fetch, c))
  {
    var urls := Split(form);
    var bucket := Bucket(Capped(urls), fetch, c);
    forall url | url in bucket ensures url in urls {
      BucketMember(Capped(urls), fetch, c, url);
      var j :| 0 <= j < |Capped(urls)| && Capped(urls)[j] == url;
      assert urls[j] == url;
    }
    forall i | 0 <= i < |bucket| ensures IsWord(bucket[i]) {
      assert bucket[i] in urls;
    }
  }

  /** The row of an accepted request reads back as the report: counts and joined lists agree. */
  lemma RowRoundTrip(form: string, fetch: string -> FetchOutcome)
    ensures var report := BatchReport(Split(form), fetch);
      var row := BuildRow(report);
      ParseLinks(row.validLinks) == report.valid &&
      ParseLinks(row.invalidLinks) == report.invalid &&
      ParseLinks(row.articleLinks) == report.articles &&
      row.validCount + row.invalidCount == |Capped(Split(form))| &&
      row.articleCount <= row.validCount
  {
    var report := BatchReport(Split(form), fetch);
    ReportHoldsTokens(form, fetch, ValidLink);
    ReportHoldsTokens(form, fetch, InvalidLink);
    ReportHoldsTokens(form, fetch, ArticleLink);
    RowMatchesReport(report);
    BatchReportInvariants(Split(form), fetch);
  }

  /**
   * Two URLs, the first answering 200 with a 500-word main region, the second timing out:
   * one valid link, one invalid link, one link with an article.
   */
  lemma TwoUrlExample(a: string, b: string, fetch: string -> FetchOutcome, page: Page)
    requires IsWord(a) && IsWord(b)
    requires WordCount(page) == 500
    requires fetch(a) == Response(200, page)
    requires fetch(b) == RequestFailed
    ensures BuildRow(BatchReport(Split(a + " " + b), fetch)) == Row(1, 1, 1, a, b, a)
  {
    SplitJoinedWords([a, b]);
    assert Join([a, b], " ") == a + " " + b;
    var urls := [a, b];
    assert Capped(urls) == urls;
    assert urls[..1] == [a] && [a][..0] == [];
    assert Accepted(fetch(a)) && !Accepted(fetch(b));
    assert Bucket([a], fetch, ValidLink) == [a] && Bucket([a], fetch, InvalidLink) == [];
    assert Bucket(urls, fetch, ValidLink) == [a];
    assert Bucket(urls, fetch, InvalidLink) == [b];
    assert InCategory(ArticleLink, fetch(a)) && !InCategory(ArticleLink, fetch(b));
    assert Bucket([a], fetch, ArticleLink) == [a];
    assert Bucket(urls, fetch, ArticleLink) == [a];
  }
}
