/**
 * The report row of `check_links`: three counts and three `", "`-joined link lists, the six
 * values of the one-row table that is written out as CSV.
 */
module ReportRow {
  import opened Text
  import opened Batch

  /** The six fields, in column order. */
  datatype Row = Row(
    validCount: nat,
    invalidCount: nat,
    articleCount: nat,
    validLinks: string,
    invalidLinks: string,
    articleLinks: string)

  /** The field separator of the joined link lists. */
  const LinkSeparator: string := ", "

  /** The row built from the three lists. */
  function BuildRow(report: Report): Row
  {
    Row(|report.valid|, |report.invalid|, |report.articles|,
        Join(report.valid, LinkSeparator), Join(report.invalid, LinkSeparator),
        Join(report.articles, LinkSeparator))
  }

  /** Reads a joined field back: `field.split(", ")`, except that the empty field is the empty list. */
  function ParseLinks(field: string): seq<string>
  {
    if field == [] then [] else SplitOnComma(field)
  }

  /** URLs as they come out of `str.split()`: every one a non-empty run of non-whitespace. */
  predicate AllWords(urls: seq<string>)
  {
    forall i :: 0 <= i < |urls| ==> IsWord(urls[i])
  }

  /** Joining words with ", " loses nothing: the list is read back exactly, the empty list as "". */
  lemma LinksRoundTrip(urls: seq<string>)
    requires AllWords(urls)
    ensures urls == [] <==> Join(urls, LinkSeparator) == []
    ensures ParseLinks(Join(urls, LinkSeparator)) == urls
  {
    if urls != [] {
      assert IsWord(urls[0]);
      forall k, i | 0 <= k < |urls| && 0 <= i < |urls[k]| ensures urls[k][i] != ' ' {
        assert IsWord(urls[k]);
        assert IsSpace(' ');
      }
      SplitOnCommaJoin(urls);
    }
  }

  /** Each count equals the number of links its joined field holds, and each field gives back its list. */
  lemma RowMatchesReport(report: Report)
    requires AllWords(report.valid) && AllWords(report.invalid) && AllWords(report.articles)
    ensures var row := BuildRow(report);
      ParseLinks(row.validLinks) == report.valid &&
      ParseLinks(row.invalidLinks) == report.invalid &&
      ParseLinks(row.articleLinks) == report.articles &&
      row.validCount == |ParseLinks(row.validLinks)| &&
      row.invalidCount == |ParseLinks(row.invalidLinks)| &&
      row.articleCount == |ParseLinks(row.articleLinks)|
  {
    LinksRoundTrip(report.valid);
    LinksRoundTrip(report.invalid);
    LinksRoundTrip(report.articles);
  }
}
