/** The per-entry pipeline of `process_csv`: an entry is resolved to candidate
    PDF URLs, the first candidate with text wins, its pages are split into
    sections, and the sections are packed into one record. The metadata
    service and the PDF download are parameters: `lookup` answers the GET for
    a DOI (`None` when `extract_pdf_links` raises), `fetch` the GET of a URL followed
    by opening the bytes as a PDF. */
module Pipeline {
  import opened Doi
  import opened Sections

  datatype Option<+T> = None | Some(value: T)

  // ---------------------------------------------------------------------
  // Resolution

  /** The metadata service's reply for one DOI: the status code, and the
      `pdfUrls` field of the JSON body when the body has one. */
  datatype ApiReply = ApiReply(status: int, pdfUrls: Option<seq<string>>)

  /** `extract_pdf_links` after the request: the `pdfUrls` of a 200 reply, an
      absent field read as no URLs, and any other status as no URLs. */
  function PdfLinks(reply: ApiReply): seq<string> {
    if reply.status == 200 then
      match reply.pdfUrls
      case Some(urls) => urls
      case None => []
    else []
  }

  /** The URLs to try for one entry: a DOI is looked up, anything else is
      taken as the URL itself. `None` when `extract_pdf_links` raises: the
      error is not caught here. */
  function Candidates(entry: string, lookup: string -> Option<ApiReply>): Option<seq<string>> {
    if !IsDoi(entry) then Some([entry])
    else
      match lookup(entry)
      case None => None
      case Some(reply) => Some(PdfLinks(reply))
  }

  /** A non-DOI entry is its own single candidate, whatever the metadata
      service would answer: the lookup is not consulted. */
  lemma UrlEntryIgnoresLookup(entry: string, lookup: string -> Option<ApiReply>, other: string -> Option<ApiReply>)
    requires !IsDoi(entry)
    ensures Candidates(entry, lookup) == Some([entry])
    ensures Candidates(entry, lookup) == Candidates(entry, other)
  {
  }

  /** A DOI's candidates are the `pdfUrls` of a 200 reply; any other status
      leaves none, and a request that raises leaves no candidate list at all. */
  lemma DoiEntryCandidates(entry: string, lookup: string -> Option<ApiReply>)
    requires IsDoi(entry)
    ensures lookup(entry).None? <==> Candidates(entry, lookup).None?
    ensures lookup(entry).Some? && lookup(entry).value.status != 200 ==> Candidates(entry, lookup) == Some([])
    ensures lookup(entry).Some? && lookup(entry).value.status == 200 && lookup(entry).value.pdfUrls.Some? ==>
              Candidates(entry, lookup) == lookup(entry).value.pdfUrls
    ensures lookup(entry).Some? && lookup(entry).value.status == 200 && lookup(entry).value.pdfUrls.None? ==>
              Candidates(entry, lookup) == Some([])
  {
  }

  /** An entry that does not start with `10.` (a `http://` or `https://` link,
      say) is fetched as it stands. */
  lemma LinkEntryIsItsOwnCandidate(entry: string, lookup: string -> Option<ApiReply>)
    requires |entry| < 3 || entry[..3] != "10."
    ensures Candidates(entry, lookup) == Some([entry])
  {
    if IsDoi(entry) {
      DoiStartsWithPrefix(entry);
    }
  }

  // ---------------------------------------------------------------------
  // Extraction

  /** Outcome of downloading one URL and opening it as a PDF: a failure (a
      transport error, a 4xx/5xx status or an unreadable document), or the
      pages, each with the text extraction gave it, if any. */
  datatype Download = Failed | Pdf(pages: seq<Option<string>>)

  predicate HasText(page: Option<string>) {
    page.Some? && page.value != ""
  }

  /** The page texts kept by the extraction: pages without text are dropped. */
  function PageTexts(pages: seq<Option<string>>): (r: seq<string>)
    ensures |r| <= |pages|
    ensures forall i :: 0 <= i < |r| ==> r[i] != ""
    ensures forall t :: t in r <==> Some(t) in pages && t != ""
    decreases |pages|
  {
    if |pages| == 0 then []
    else if HasText(pages[0]) then [pages[0].value] + PageTexts(pages[1..])
    else PageTexts(pages[1..])
  }

  /** A page alone keeps its text exactly when it has some. */
  lemma PageTextsOne(page: Option<string>)
    ensures PageTexts([page]) == (if HasText(page) then [page.value] else [])
  {
  }

  /** The kept texts stay in page order, once per page that has them: the
      texts of `a + b` are those of `a` followed by those of `b`. */
  lemma {:induction false} PageTextsAppend(a: seq<Option<string>>, b: seq<Option<string>>)
    ensures PageTexts(a + b) == PageTexts(a) + PageTexts(b)
    decreases |a|
  {
    if |a| == 0 {
      assert a + b == b;
    } else {
      assert (a + b)[0] == a[0];
      assert (a + b)[1..] == a[1..] + b;
      PageTextsAppend(a[1..], b);
    }
  }

  /** `extract_text_from_pdf_from_url` after the download. */
  function ExtractText(d: Download): (r: seq<string>)
    ensures r == [] <==> (d.Failed? || forall i :: 0 <= i < |d.pages| ==> !HasText(d.pages[i]))
  {
    match d
    case Failed => []
    case Pdf(pages) =>
      var r := PageTexts(pages);
      assert forall i :: 0 <= i < |pages| && HasText(pages[i]) ==> pages[i] in pages && pages[i].value in r;
      assert r != [] ==> r[0] in r && Some(r[0]) in pages;
      r
  }

  /** The extracted pages of one entry, and how many candidates were fetched
      to get them (the first `attempts` candidates, in order). */
  datatype Extraction = Extraction(pages: seq<string>, attempts: nat)

  /** The candidate loop: candidates are tried in order and the loop stops at
      the first one whose extraction is non-empty. */
  function FirstText(urls: seq<string>, fetch: string -> Download): (e: Extraction)
    ensures e.attempts <= |urls|
    ensures forall j :: 0 <= j < |urls| && j + 1 < e.attempts ==> ExtractText(fetch(urls[j])) == []
    ensures e.pages != [] ==> 1 <= e.attempts && e.pages == ExtractText(fetch(urls[e.attempts - 1]))
    ensures e.pages == [] <==> forall j :: 0 <= j < |urls| ==> ExtractText(fetch(urls[j])) == []
    ensures e.pages == [] ==> e.attempts == |urls|
    decreases |urls|
  {
    if |urls| == 0 then Extraction([], 0)
    else
      var t := ExtractText(fetch(urls[0]));
      if t != [] then Extraction(t, 1)
      else
        var e := FirstText(urls[1..], fetch);
        assert forall j :: 1 <= j < |urls| ==> urls[j] == urls[1..][j - 1];
        Extraction(e.pages, e.attempts + 1)
  }

  /** The first candidate with text decides, whatever the later ones hold. */
  lemma {:induction false} FirstTextIgnoresLaterCandidates(urls: seq<string>, rest: seq<string>, fetch: string -> Download)
    requires exists j :: 0 <= j < |urls| && ExtractText(fetch(urls[j])) != []
    ensures FirstText(urls + rest, fetch) == FirstText(urls, fetch)
    decreases |urls|
  {
    if ExtractText(fetch(urls[0])) == [] {
      assert (urls + rest)[1..] == urls[1..] + rest;
      var j :| 0 <= j < |urls| && ExtractText(fetch(urls[j])) != [];
      assert urls[1..][j - 1] == urls[j];
      FirstTextIgnoresLaterCandidates(urls[1..], rest, fetch);
    }
  }

  // ---------------------------------------------------------------------
  // Records

  datatype Author = Author(affiliations: seq<string>, name: string)

  datatype PaperRecord = PaperRecord(
    title: string,
    authors: seq<Author>,
    year: int,
    id: string,
    abstractText: string,
    sections: seq<Section>)

  const PlaceholderTitle: string := "Unknown Title"
  const PlaceholderAuthors: seq<Author> := [Author([], "Unknown Author")]
  const PlaceholderYear: int := 2021

  /** The record of one entry: placeholders for title, authors and year, the
      entry as id, the first section's text as abstract (empty when there is
      no section) and the other sections. */
  function Assemble(entry: string, sections: seq<Section>): PaperRecord {
    PaperRecord(
      PlaceholderTitle, PlaceholderAuthors, PlaceholderYear, entry,
      if |sections| > 0 then sections[0].text else "",
      if |sections| > 0 then sections[1..] else [])
  }

  /** The body of the loop of `process_csv` for one entry; `None` when the
      lookup raises. */
  function ProcessEntry(entry: string, lookup: string -> Option<ApiReply>, fetch: string -> Download): (rec: Option<PaperRecord>)
    ensures rec.None? <==> Candidates(entry, lookup).None?
    ensures rec.Some? ==> rec.value.id == entry
    ensures rec.Some? ==> rec.value.title == PlaceholderTitle && rec.value.authors == PlaceholderAuthors
                          && rec.value.year == PlaceholderYear
    ensures rec.Some? ==>
              var sections := SplitSections(FirstText(Candidates(entry, lookup).value, fetch).pages);
              && rec.value.abstractText == sections[0].text
              && [Section(Introduction, rec.value.abstractText)] + rec.value.sections == sections
  {
    match Candidates(entry, lookup)
    case None => None
    case Some(urls) =>
      var sections := SplitSections(FirstText(urls, fetch).pages);
      assert [sections[0]] + sections[1..] == sections;
      Some(Assemble(entry, sections))
  }

  /** When no candidate yields text the record has an empty abstract and no
      sections. */
  lemma NoTextGivesEmptyRecord(entry: string, lookup: string -> Option<ApiReply>, fetch: string -> Download)
    requires Candidates(entry, lookup).Some?
    requires forall url :: url in Candidates(entry, lookup).value ==> ExtractText(fetch(url)) == []
    ensures ProcessEntry(entry, lookup, fetch).Some?
    ensures ProcessEntry(entry, lookup, fetch).value.abstractText == ""
    ensures ProcessEntry(entry, lookup, fetch).value.sections == []
  {
    var urls := Candidates(entry, lookup).value;
    assert forall j :: 0 <= j < |urls| ==> urls[j] in urls;
    assert FirstText(urls, fetch).pages == [];
  }

  // ---------------------------------------------------------------------
  // The batch

  /** A table read from the input file: columns by name, cells missing or not. */
  type Table = map<string, seq<Option<string>>>

  const LinkColumn: string := "pdf_link"
  const PaperLimit: nat := 5

  /** `head(n)`: the first `n` rows, or all of them if there are fewer. */
  function Head(column: seq<Option<string>>, n: nat): (r: seq<Option<string>>)
    ensures |r| <= n && |r| <= |column|
    ensures |r| == n || |r| == |column|
    ensures r == column[..|r|]
  {
    if |column| <= n then column else column[..n]
  }

  /** `dropna()`: the present cells, in order. */
  function DropMissing(column: seq<Option<string>>): (r: seq<string>)
    ensures |r| <= |column|
    ensures forall s :: s in r <==> Some(s) in column
    decreases |column|
  {
    if |column| == 0 then []
    else
      match column[0]
      case Some(s) => [s] + DropMissing(column[1..])
      case None => DropMissing(column[1..])
  }

  /** Dropping missing cells keeps the order of the rest. */
  lemma {:induction false} DropMissingAppend(a: seq<Option<string>>, b: seq<Option<string>>)
    ensures DropMissing(a + b) == DropMissing(a) + DropMissing(b)
    decreases |a|
  {
    if |a| == 0 {
      assert a + b == b;
    } else {
      assert (a + b)[0] == a[0];
      assert (a + b)[1..] == a[1..] + b;
      DropMissingAppend(a[1..], b);
    }
  }

  /** With no cell missing, every cell is kept, in place. */
  lemma {:induction false} DropMissingComplete(column: seq<Option<string>>)
    requires forall i :: 0 <= i < |column| ==> column[i].Some?
    ensures |DropMissing(column)| == |column|
    ensures forall i :: 0 <= i < |column| ==> DropMissing(column)[i] == column[i].value
    decreases |column|
  {
    if |column| > 0 {
      DropMissingComplete(column[1..]);
    }
  }

  /** The entries `process_csv` handles: the present cells among the first
      five rows of the link column. */
  function Entries(column: seq<Option<string>>): (entries: seq<string>)
    ensures |entries| <= PaperLimit
  {
    DropMissing(Head(column, PaperLimit))
  }

  /** The loop of `process_csv` over the entries, with `process` the loop
      body: one record per entry, in order, unless the body raises for some
      entry, which ends the whole batch. */
  function ProcessAll(entries: seq<string>, process: string -> Option<PaperRecord>): (out: Option<seq<PaperRecord>>)
    ensures out.None? <==> exists i :: 0 <= i < |entries| && process(entries[i]).None?
    ensures out.Some? ==>
              && |out.value| == |entries|
              && forall i :: 0 <= i < |entries| ==> Some(out.value[i]) == process(entries[i])
    decreases |entries|
  {
    if |entries| == 0 then Some([])
    else
      match process(entries[0])
      case None => None
      case Some(rec) =>
        var rest := ProcessAll(entries[1..], process);
        assert forall i :: 1 <= i < |entries| ==> entries[i] == entries[1..][i - 1];
        match rest
        case None => None
        case Some(recs) => Some([rec] + recs)
  }

  /** What a run of `process_csv` ends with. */
  datatype Outcome =
    | MissingColumn                      // reported; no output written
    | Aborted                            // an error escaped the loop; no output written
    | Written(records: seq<PaperRecord>) // the JSON array written

  /** `process_csv` up to the JSON output. */
  function ProcessCsv(table: Table, lookup: string -> Option<ApiReply>, fetch: string -> Download): (out: Outcome)
    ensures out.MissingColumn? <==> LinkColumn !in table
    ensures out.Aborted? <==>
              LinkColumn in table &&
              exists e :: e in Entries(table[LinkColumn]) && Candidates(e, lookup).None?
    ensures out.Written? ==>
              var entries := Entries(table[LinkColumn]);
              && |out.records| <= PaperLimit
              && |out.records| == |entries|
              && forall i :: 0 <= i < |entries| ==>
                   out.records[i].id == entries[i] && Some(out.records[i]) == ProcessEntry(entries[i], lookup, fetch)
  {
    if LinkColumn !in table then MissingColumn
    else
      var entries := Entries(table[LinkColumn]);
      assert forall i :: 0 <= i < |entries| ==> entries[i] in entries;
      match ProcessAll(entries, e => ProcessEntry(e, lookup, fetch))
      case None => Aborted
      case Some(records) => Written(records)
  }

  /** A link column whose first five cells are all present, with the lookup of
      each of them answered, gives exactly five records, whose ids are those cells in row
      order. */
  lemma FiveRowsFiveRecords(table: Table, lookup: string -> Option<ApiReply>, fetch: string -> Download)
    requires LinkColumn in table && |table[LinkColumn]| >= PaperLimit
    requires forall i :: 0 <= i < PaperLimit ==> table[LinkColumn][i].Some?
    requires forall i :: 0 <= i < PaperLimit ==> lookup(table[LinkColumn][i].value).Some?
    ensures ProcessCsv(table, lookup, fetch).Written?
    ensures |ProcessCsv(table, lookup, fetch).records| == PaperLimit
    ensures forall i :: 0 <= i < PaperLimit ==>
              ProcessCsv(table, lookup, fetch).records[i].id == table[LinkColumn][i].value
  {
    var head := Head(table[LinkColumn], PaperLimit);
    DropMissingComplete(head);
    var entries := Entries(table[LinkColumn]);
    forall e | e in entries
      ensures Candidates(e, lookup).Some?
    {
      var i :| 0 <= i < |entries| && entries[i] == e;
      assert e == table[LinkColumn][i].value;
    }
  }
}
