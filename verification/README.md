# scienceparse core in Dafny

A model of the logic in `scienceparse/extract_pdf_links.py`. The script turns a
list of paper identifiers into JSON records. Each entry is either a DOI or a
direct PDF link:

- A DOI is resolved through a metadata service into candidate PDF URLs.
- The first candidate whose PDF yields text wins.
- That text is split into numbered sections, and the sections are packed
  into a record.

The network, the PDF library and the CSV/JSON handling are abstracted away.
What remains is modelled and proved:

- `chars.dfy`, module `Chars`: the character classes of the two regular
  expressions. It also holds the longest-digit-prefix scan that both
  expressions use.
- `lines.dfy`, module `Lines`: `str.split("\n")`, its inverse `"\n".join`,
  and the line stream of a whole page list.
- `doi.dfy`, module `Doi`: `is_doi`, written as a character-level scan. It
  is proved equal to the pattern's existential shape. The module also proves that
  ASCII case does not matter.
- `sections.dfy`, module `Sections`: `split_sections`, written as the
  source's nested loops (a left fold over pages, then over lines). It is
  proved equal to `Segments`, a description that needs no scan: section `i`
  holds the lines between the `i`-th heading line and the next.
- `pipeline.dfy`, module `Pipeline`: candidate resolution, the
  first-non-empty extraction loop, record assembly and the batch driver of
  `process_csv`. The metadata request and the PDF download are function
  parameters:
  - `lookup: string -> Option<ApiReply>` answers the GET for a DOI, and
    gives `None` when `extract_pdf_links` raises (the request, decoding
    the body, or reading the field).
  - `fetch: string -> Download` covers the GET of a URL plus opening it as
    a PDF.

Two details of the code shape what the model states:

- Only the present cells among the first five rows of the `pdf_link` column
  are processed: `head(5)` runs before `dropna()`. So there can be fewer than
  five entries even when later rows have values. `Pipeline.Entries` models
  this.
- The heading whitespace is `\s`, which on a Python `str` is any character
  for which `str.isspace()` holds. `Chars.IsSpace` lists that set.

## Model

| member | source | states |
|---|---|---|
| `Chars.DigitRun` | scienceparse/extract_pdf_links.py:48 | the length of the longest all-digit prefix: every character before it is a digit and the next one (if any) is not, the only length a greedy `\d+` followed by a non-digit can take |
| `Lines.SplitLines` | scienceparse/extract_pdf_links.py:45 | `page.split("\n")` is never empty and no piece contains a newline |
| `Lines.JoinSplit` | scienceparse/extract_pdf_links.py:45 | joining the pieces with newlines gives the page back: splitting drops no character |
| `Lines.SplitJoin` | scienceparse/extract_pdf_links.py:45 | newline-free lines joined with newlines split back to exactly those lines, so splitting is the inverse of joining |
| `Lines.AllLines` | scienceparse/extract_pdf_links.py:44-45 | the lines of every page in page order; `Lines.AllLinesAppend` states how it composes and `Sections.FeedPagesIsFeedLines` that the splitter reads exactly these lines |
| `Lines.AllLinesAppend` | scienceparse/extract_pdf_links.py:44-47 | the line stream of a concatenation of page lists is the concatenation of their line streams |
| `Doi.IsDoi` | scienceparse/extract_pdf_links.py:8-10 | `is_doi`; what it accepts is stated by `Doi.IsDoiIffShape`, `Doi.DoiStartsWithPrefix` and `Doi.IsDoiIgnoresCase` |
| `Doi.ScanBodyIffShape` | scienceparse/extract_pdf_links.py:10 | the scan accepts a string exactly when it is `10.`, 4 to 9 digits, `/`, then a non-empty run of `-._;()/:`, letters and digits, with nothing after |
| `Doi.IsDoiIffShape` | scienceparse/extract_pdf_links.py:10 | `is_doi(s)` holds exactly when `s`, or `s` without one final newline, has that shape (what `$` accepts) |
| `Doi.DoiStartsWithPrefix` | scienceparse/extract_pdf_links.py:10 | every DOI starts with `10.`, so an `http(s)://` link is never one |
| `Doi.IsDoiIgnoresCase` | scienceparse/extract_pdf_links.py:10 | upper-casing the ASCII letters of a string does not change whether it is a DOI (IGNORECASE) |
| `Sections.IsHeadingIffShape` | scienceparse/extract_pdf_links.py:48 | the heading test holds exactly when the line is one or more digits, `.`, one whitespace character and an uppercase letter, followed by anything |
| `Sections.IsHeading` | scienceparse/extract_pdf_links.py:48 | the heading test; what it accepts is stated by `Sections.IsHeadingIffShape` |
| `Sections.Feed` | scienceparse/extract_pdf_links.py:47-52 | one line of the inner loop; its effect over whole line streams is stated by `Sections.FinishIsSegments` and `Sections.HeadingThenText` |
| `Sections.FeedLines` | scienceparse/extract_pdf_links.py:47-52 | the inner loop over one page's lines; `Sections.FeedLinesAppend` states how it composes and `Sections.FinishIsSegments` what it computes |
| `Sections.FeedPages` | scienceparse/extract_pdf_links.py:44-52 | the outer loop over pages; `Sections.FeedPagesIsFeedLines` states that it equals the inner loop over all lines |
| `Sections.SplitSections` | scienceparse/extract_pdf_links.py:39-55 | the splitter returns at least one section and the first is headed `Introduction`; no pages give exactly one empty `Introduction` section; in general the result is `Segments` of the line stream of all pages |
| `Sections.FeedLinesAppend` | scienceparse/extract_pdf_links.py:47-52 | scanning `a + b` is scanning `a` and then continuing with `b` from where it stopped |
| `Sections.FeedPagesIsFeedLines` | scienceparse/extract_pdf_links.py:44-52 | the page loop is the line loop over every line of every page: a page boundary closes no section |
| `Sections.TwoPages` | scienceparse/extract_pdf_links.py:44-47 | splitting `[p1, p2]` gives the sections of the lines of `p1` followed by the lines of `p2` |
| `Sections.HeadingIndices` | scienceparse/extract_pdf_links.py:47-50 | the positions it lists are strictly increasing and inside the line stream |
| `Sections.HeadingIndicesExact` | scienceparse/extract_pdf_links.py:47-50 | a position is listed exactly when the line there passes the heading test |
| `Sections.FinishIsSegments` | scienceparse/extract_pdf_links.py:41-54 | after any prefix of the line stream, the closed sections plus the open one are the `Segments` of that prefix |
| `Sections.SegmentBetweenHeadings` | scienceparse/extract_pdf_links.py:47-52 | section `i` spans the lines after the `i`-th heading line (or from the start) up to the next heading line (or the end), and none of those lines is a heading line |
| `Sections.SplitSectionsSegment` | scienceparse/extract_pdf_links.py:45-52 | each section's heading is its heading line verbatim (`Introduction` for the first), and its text is exactly the lines up to the next heading line, each once, in order, each followed by one space |
| `Sections.SplitSectionsHeadings` | scienceparse/extract_pdf_links.py:47-54 | the headings are `Introduction` followed by every line passing the heading test, verbatim and in input order, so there is one section more than there are heading lines |
| `Sections.SplitSectionsKeepsEveryLine` | scienceparse/extract_pdf_links.py:45-52 | reading the sections back (text, then each heading and its text) gives every line of every page in order, each followed by one space: nothing is dropped, trimmed or reordered, and empty lines contribute `" "` |
| `Sections.HeadingThenText` | scienceparse/extract_pdf_links.py:39-55 | a page of a heading line and a text line gives an empty `Introduction` and the heading's section holding the text plus one space |
| `Sections.HeadingMustStartLine` | scienceparse/extract_pdf_links.py:48 | `abc 2. Results` is not a heading: the pattern is anchored at the line start |
| `Pipeline.PdfLinks` | scienceparse/extract_pdf_links.py:17-22 | what `extract_pdf_links` returns once the request has answered; stated by `Pipeline.DoiEntryCandidates` |
| `Pipeline.Candidates` | scienceparse/extract_pdf_links.py:70 | the URLs tried for an entry; stated by `Pipeline.UrlEntryIgnoresLookup`, `Pipeline.DoiEntryCandidates` and `Pipeline.LinkEntryIsItsOwnCandidate` |
| `Pipeline.UrlEntryIgnoresLookup` | scienceparse/extract_pdf_links.py:70 | a non-DOI entry's candidates are `[entry]` whatever the lookup would answer |
| `Pipeline.DoiEntryCandidates` | scienceparse/extract_pdf_links.py:12-22 | a DOI's candidates are the `pdfUrls` of a 200 reply, none when that reply has no `pdfUrls` field (the `[]` default), none for any other status, and a lookup that raises leaves no candidate list |
| `Pipeline.LinkEntryIsItsOwnCandidate` | scienceparse/extract_pdf_links.py:70 | an entry not starting with `10.` is its own single candidate |
| `Pipeline.PageTexts` | scienceparse/extract_pdf_links.py:32 | the kept page texts are non-empty, at most one per page, and exactly the non-empty texts that some page has |
| `Pipeline.PageTextsOne` | scienceparse/extract_pdf_links.py:32 | a single page keeps its text exactly when it has a non-empty one |
| `Pipeline.PageTextsAppend` | scienceparse/extract_pdf_links.py:32 | the texts of `a + b` are the texts of `a` followed by those of `b`, so kept texts stay in page order, once per page that has them |
| `Pipeline.ExtractText` | scienceparse/extract_pdf_links.py:24-37 | the extraction is empty exactly when the download or parse failed or no page has text |
| `Pipeline.FirstText` | scienceparse/extract_pdf_links.py:69-75 | candidates are tried in order; a non-empty result is the extraction of the last candidate tried and all earlier ones were empty; the result is empty exactly when every candidate's extraction is empty, and then all were tried |
| `Pipeline.FirstTextIgnoresLaterCandidates` | scienceparse/extract_pdf_links.py:72-75 | once some candidate has text, appending more candidates changes nothing: later candidates are never tried |
| `Pipeline.ProcessEntry` | scienceparse/extract_pdf_links.py:69-88 | the record's id is the entry and its title, authors and year are the placeholders; its abstract is the first section's text and `Introduction`-plus-abstract followed by its sections is the full section list, so the empty-sections fallback never applies; it fails exactly when the lookup raises |
| `Pipeline.Assemble` | scienceparse/extract_pdf_links.py:79-86 | the record of one entry; its fields are stated by `Pipeline.ProcessEntry` and `Pipeline.NoTextGivesEmptyRecord` |
| `Pipeline.NoTextGivesEmptyRecord` | scienceparse/extract_pdf_links.py:69-88 | when no candidate yields text the record has an empty abstract and no sections |
| `Pipeline.Head` | scienceparse/extract_pdf_links.py:65 | `head(n)` is the first `n` rows, or all rows if fewer |
| `Pipeline.DropMissing` | scienceparse/extract_pdf_links.py:68 | `dropna()` keeps exactly the present cells, no more than there were cells |
| `Pipeline.DropMissingAppend` | scienceparse/extract_pdf_links.py:68 | `dropna()` distributes over concatenation, so kept cells stay in row order |
| `Pipeline.DropMissingComplete` | scienceparse/extract_pdf_links.py:68 | with no missing cell every cell is kept in place |
| `Pipeline.Entries` | scienceparse/extract_pdf_links.py:65-68 | at most five entries are processed |
| `Pipeline.ProcessAll` | scienceparse/extract_pdf_links.py:68-88 | the loop gives one record per entry, in order, each what the loop body gives for that entry, and fails exactly when the body raises for some entry |
| `Pipeline.ProcessCsv` | scienceparse/extract_pdf_links.py:57-97 | `MissingColumn` exactly when the `pdf_link` column is missing and `Aborted` exactly when a lookup raises, neither writing output; otherwise `Written` with at most five records, one per entry in row order, each with the entry as id |
| `Pipeline.FiveRowsFiveRecords` | scienceparse/extract_pdf_links.py:65-88 | five present cells in the first five rows, with the lookup of each of them answered, give exactly five records whose ids are those cells in order |

## Left out

- The HTTP requests (`requests.get`) are not modelled; the metadata GET and the PDF GET become the `lookup` and `fetch` parameters.
- The metadata service's JSON is reduced to a status code and an optional list of URLs. Other `pdfUrls` values are not represented directly. A string or object value would be iterated character by character or key by key, and each of those is fetched inside the caught `try`; a lookup that returns those characters or keys as the URL list gives the same run. A `null` value makes the candidate loop raise, which ends the batch just as a lookup giving `None` does.
- `lookup` and `fetch` are fixed functions of their argument. A DOI or URL that appears twice always gets the same answer, so a transient failure followed by a success is not represented.
- PDF parsing with `pdfplumber` is not modelled: a download is a list of pages, each with optional text. `page.extract_text()` is assumed to give the same answer both times it is called.
- `Download.Failed` stands for every caught error of the download or parse, so no log message is modelled for any of them.
- Reading the CSV file is not modelled: the input is a map from column names to columns of optional strings. A cell holding a non-string value is not represented.
- JSON serialisation, writing the output file and every `print` are left out: the model ends with the list of records.
- Exceptions raised after the loop (while writing the file) are left out. Inside the loop, every exception out of `extract_pdf_links` is represented by `lookup` giving `None`: the request raising, the body of a 200 reply not being JSON (`response.json()`), or the JSON not being an object (`data.get`). None of them is caught before the outer handler, so each ends the batch.
- The hard-coded paths of the `__main__` block are left out.
- `Chars.IsDigit`: `\d` is restricted to ASCII digits. Python's `\d` also accepts every other Unicode decimal digit.
- `Doi.IsDoi`: IGNORECASE is modelled for ASCII letters only. Python also folds a few non-ASCII characters onto ASCII letters, such as the Kelvin sign and the long s.
- `Doi.IsDoiIgnoresCase`: it is stated for ASCII upper-casing only, for the reason above.
