# Link checker core, modelled in Dafny

This project models the request handler of a small link-checking web service
(`linkappv3/app.py`). The handler takes a whitespace-separated list of URLs from a
form field and rejects the request when the list is empty. It fetches the first 100
URLs one after the other. Each URL goes into the valid list (status 200) or the invalid
list (any other status, or a failed request). A valid URL whose page has more than 300
words of main content also goes into the "links with articles" list. The handler then
builds one report row: three counts and three `", "`-joined link lists.

Modules, one per component:

- `Common` (`common.dfy`): `Option` and `Result`.
- `Text` (`text.dfy`): Python's `str.split()` (runs of whitespace, with Python's
  `str.isspace` character set), `sep.join`, `s.split(", ")`, and their round trips.
- `Classifier` (`classifier.dfy`): `has_significant_content`. It picks the first present
  region among `main`, `article` and `div.content`, else the whole page, and tests
  word count > 300.
- `Batch` (`batch.dfy`): the `for url in urls[:100]` loop as the method `ProcessBatch`,
  proved equal to a reference definition (`BatchReport`) whose partition, order and
  membership properties are lemmas.
- `ReportRow` (`report.dfy`): the six-field row and the proof that the joined fields
  read back as the lists.
- `LinkCheck` (`check_links.dfy`): the handler `CheckLinks`: form field, input guard,
  batch, row.

The HTTP transport is a parameter `fetch: string -> FetchOutcome`. A parsed page is a
`Page`: the text extracted from each region the page contains, plus the text of the
whole page.

Behaviour of the code that the model keeps on purpose:

- URLs are processed in a plain sequential loop. There is no worker pool.
- The three lists are lists, not sets: a URL given twice is processed and listed twice.
- A request without a `urls` field fails in the dictionary lookup (`KeyError`), which the
  web framework answers with a plain 400 Bad Request. It is not the JSON
  "No URLs provided" answer. The model keeps the two apart: `MissingField` and `NoUrls(message)`.
- A region that is present but empty is still chosen, because a parsed element is always
  truthy. Its word count is then 0, even when a lower-priority region has text.

## Model

| member | source | states |
|---|---|---|
| `Text.Split` | linkappv3/app.py:36 | every token of `split()` is non-empty and holds no whitespace character |
| `Text.SplitEmptyIffBlank` | linkappv3/app.py:36-38 | the token list is empty exactly when the field has no non-whitespace character, which is when the request is rejected |
| `Text.SplitSkipsBlank` | linkappv3/app.py:24 | leading whitespace does not change the tokens |
| `Text.SplitWordThenBlank` | linkappv3/app.py:24 | a word followed by whitespace is split off as one whole token (tokens are maximal runs) |
| `Text.SplitOneWord` | linkappv3/app.py:24 | a single word is exactly one token |
| `Text.SplitJoinedWords` | linkappv3/app.py:24-25 | words joined by single spaces split back into the same words, so the word count is their number |
| `Text.SplitKeepsText` | linkappv3/app.py:24 | the tokens, concatenated, are the input with its whitespace removed: nothing else is lost or reordered |
| `Text.SplitSpaced` | linkappv3/app.py:24-25 | any text of n words separated by non-empty whitespace runs, with blank ends allowed, splits into exactly those n words |
| `Text.Join` | linkappv3/app.py:64-66 | `sep.join(parts)`: the parts in order with `sep` between neighbours; a non-empty join starts with the first part |
| `Text.SplitOnCommaJoin` | linkappv3/app.py:64-66 | `", ".join` of a non-empty list of space-free parts is undone by `split(", ")` |
| `Classifier.ChosenText` | linkappv3/app.py:18-22 | the text whose words are counted: that of the first present region in priority order, else that of the whole page |
| `Classifier.WordCount` | linkappv3/app.py:24-25 | `len(text.split())` of the chosen text |
| `Classifier.HasSignificantContent` | linkappv3/app.py:17-28 | `has_significant_content`: the chosen text has strictly more than 300 words |
| `Classifier.FirstPresent` | linkappv3/app.py:18 | the `or`-chain picks the first selector the page contains, and none when all three are missing |
| `Classifier.ChosenTextByPriority` | linkappv3/app.py:18-22 | the counted text is `main` if present, else `article`, else `div.content`, else the whole page |
| `Classifier.PresentEmptyRegionWins` | linkappv3/app.py:18-20 | a present but empty `main` is still chosen, so the page is not significant |
| `Classifier.BlankTextNotSignificant` | linkappv3/app.py:24-28 | text with no word counts 0 words and is never significant |
| `Classifier.SignificantIffOverThreshold` | linkappv3/app.py:24-28 | a chosen text of n words, separated by whitespace runs of any length and with any blank ends, counts n words and is significant exactly when n > 300 |
| `Classifier.ThresholdBoundary` | linkappv3/app.py:28 | the comparison is strict: 300 words give false, 301 give true |
| `Batch.Accepted` | linkappv3/app.py:48-49 | a URL is valid exactly when its request returned a response with status 200 |
| `Batch.InCategory` | linkappv3/app.py:48-58 | which list a fetch outcome goes to: valid if accepted, invalid otherwise (non-200 or a failed request), articles if accepted and significant |
| `Batch.Bucket` | linkappv3/app.py:46-58 | reference definition of one output list: the processed URLs in that category, in input order, never more than were processed |
| `Batch.BatchReport` | linkappv3/app.py:42-58 | reference definition of the three lists over `urls[:100]` |
| `Batch.ProcessBatch` | linkappv3/app.py:42-58 | the loop's three lists equal the valid, invalid and article lists of `urls[:100]` |
| `Batch.Capped` | linkappv3/app.py:46 | `urls[:100]`: the processed URLs are the first min(n, 100) URLs, in order |
| `Batch.BucketMember` | linkappv3/app.py:46-58 | a URL is in a list exactly when it was processed and its outcome belongs to that list |
| `Batch.BucketIsSubsequence` | linkappv3/app.py:46-58 | each list keeps the input order: it is a subsequence of the processed URLs |
| `Batch.ValidInvalidPartition` | linkappv3/app.py:46-58 | each processed URL is appended to exactly one of valid and invalid: the lengths add up to the number processed |
| `Batch.ArticlesWithinValid` | linkappv3/app.py:49-53 | the links with articles are a subsequence of the valid links |
| `Batch.BatchReportInvariants` | linkappv3/app.py:42-58 | valid + invalid = min(n, 100), articles <= valid, and all three lists keep input order |
| `Batch.BatchReportMember` | linkappv3/app.py:46-58 | valid iff status 200, invalid iff any other status or a failed request, article iff also significant; never both valid and invalid |
| `Batch.BeyondCapIgnored` | linkappv3/app.py:46 | a URL that occurs only at index 100 or later is in none of the three lists |
| `ReportRow.LinksRoundTrip` | linkappv3/app.py:64-66 | a joined list of URLs reads back as the same list; the empty list joins to "" |
| `ReportRow.RowMatchesReport` | linkappv3/app.py:60-67 | each count equals the number of links its joined field reads back as, and each field reads back as its list |
| `ReportRow.BuildRow` | linkappv3/app.py:60-67 | the `data` row: the three list lengths and the three lists joined with ", " |
| `LinkCheck.CheckLinks` | linkappv3/app.py:35-67 | a missing field and a blank field are rejected (and only they are), the blank one with the message "No URLs provided"; otherwise the result is the row of the capped batch |
| `LinkCheck.ReportHoldsTokens` | linkappv3/app.py:36-58 | every reported URL is one of the form's tokens, so it holds no space |
| `LinkCheck.RowRoundTrip` | linkappv3/app.py:36-67 | for every form and every fetch outcome the row reads back as the report, with valid + invalid = processed and articles <= valid |
| `LinkCheck.TwoUrlExample` | linkappv3/app.py:42-67 | one URL answering 200 with 500 words and one failing give the row (1, 1, 1, first, second, first) |

## Left out

- HTTP transport (`requests.get` with its 5-second timeout, redirects, `RequestException`): a
  foreign network call. It is the parameter `fetch`, which gives the final status and parsed
  page, or `RequestFailed`.
- `fetch` is a function of the URL, so a URL given twice gets the same outcome both times. Two
  real requests to one URL could differ.
- HTML parsing and text extraction (`BeautifulSoup`, `find`, `get_text`): a foreign library. A
  `Page` holds the already-extracted text of each region. An exception raised while parsing a
  body (answered 500) is not modelled.
- CSV serialisation (`pandas`, `BytesIO`, `send_file`, the header row, the file name): a library
  output sink. The model stops at the six row values.
- Flask routing, CORS, the index page and the 404/500 handlers: web framework plumbing.
- Logging: it has no behavioural content.
- Any exception other than `RequestException` during a fetch (the framework answers 500).
- `ReportRow.ParseLinks` reads the empty field as the empty list. Python's own `"".split(", ")`
  gives `[""]`, which `Text.SplitOnComma` models as written.
