# fs-world results scraper — a Dafny model of its decoding core

`scrape-fsworld.py` collects the Formula Student world-ranking results. For each
series (FSE for electric cars, FSC for combustion cars) it reads the event ids
listed on the series landing page. It fetches each event's results page that it
has not scraped yet and decodes the page into an event: the name, the kind
(electric, combustion or mixed), and one team per data row of the results
table. Each team has its rank, its eight discipline placements (place and
score, or none when the team did not score), penalties and total. The script
writes one 22-column CSV per event. After each series it writes a summary CSV
with one row per event scraped so far.

The model is split into these modules:

- `Wrappers`: `Option`, `Result`, and `MapAll`, which maps a fallible function
  over a sequence and stops at the first error.
- `Text`: the string operations the decoding relies on:
  - Python's `str.rstrip(c)`;
  - ASCII lower and upper case;
  - the substring test `in`;
  - `split(" | ", 1)`;
  - decimal parsing and printing of places and ids.
- `Model`: the records of the program: `Team`, `Event`, `Placement`, the car
  and event kinds, and the ways decoding can fail.
- `Markup`: the part of the HTML page the decoder reads. A table cell is a
  tree of text, an optional `title` attribute and child cells. A row either
  contains a header cell or it does not. An event page has its headings, the
  text after the heading, and the results table.
- `Decode`: discipline cells, rows, event kinds and whole event pages.
- `Tables`: the event CSV rows and the series summary rows, with an
  independent reader that gets a team back from its row.
- `Scrape`: the run over both series. It skips ids already scraped, stores
  each new event in insertion order, and writes the files.

The summary written after the second series also lists the events of the
first. The code iterates over all the events stored so far (lines 245-253),
not only the current series' events, and the model keeps that behaviour.

Scores, penalties and totals stay as the text of the page. They are not parsed
as floats (see Left out).

## Model

| member | source | states |
|---|---|---|
| Decode.DecodePlace | scrape-fsworld.py:74-77 | A place is decimal digits followed only by trailing dots; anything else is a `BadPlace` error carrying the text |
| Decode.NullMarkIff | scrape-fsworld.py:74-75 | Stripping the trailing dots leaves exactly "-" if and only if the text is "-" followed by dots only |
| Decode.DecodeDiscipline | scrape-fsworld.py:73-87 | A "-" cell (with any trailing dots) means the team did not score. Otherwise the cell decodes exactly when its place parses and a descendant carries a title. The placement is that place and the first titled descendant's title. Each failure gets its own error. |
| Markup.FindTitleIsFirstInDocumentOrder | scrape-fsworld.py:78 | The tooltip search returns the first title among the cell's descendants in document order |
| Markup.FindTitleNoneIff | scrape-fsworld.py:78-79 | The tooltip search finds nothing exactly when no descendant has a title |
| Text.SplitFirst | scrape-fsworld.py:139 | Splitting at the first delimiter rejoins to the input and has no earlier delimiter; it fails exactly when the delimiter does not occur |
| Text.SplitFirstJoin | scrape-fsworld.py:139 | A head joined to any tail by " | " splits back into exactly that head and tail if and only if the head joins cleanly. Joining cleanly means the head contains no " | " and does not end in " |". |
| Decode.SplitCountryName | scrape-fsworld.py:139 | The rank cell's title splits at its first " | " into country and name. A missing title or delimiter is an error. |
| Decode.CountryNameRoundTrip | scrape-fsworld.py:139 | A country and any name survive being joined and split again if and only if the country joins cleanly |
| Decode.DecodeCarKind | scrape-fsworld.py:151-159 | The total cell's title must be exactly "electric", "combustion" or "other". Any other title is an unknown-kind error. |
| Decode.CarKindRoundTrip | scrape-fsworld.py:151-159 | Each car kind is decoded from its own title |
| Decode.DecodeRow | scrape-fsworld.py:137-178 | A row needs 12 cells. It decodes exactly when the country/name title, the rank, all eight discipline cells and the car kind decode. The team is built from exactly those parts. |
| Decode.PlacementCellDecodes | scrape-fsworld.py:73-87 | A discipline cell as the page shows it decodes back to the discipline: "-" for none; otherwise the place with a dot and a child titled with the score |
| Decode.RowRoundTrip | scrape-fsworld.py:137-178 | Any team whose country joins cleanly decodes back from the twelve cells the page shows for it, so row decoding is the inverse of the row encoder |
| Decode.UnscoredRowDecodes | scrape-fsworld.py:75-76 | A row with "-" in every discipline decodes to a team with no placements and the given name, country, rank, kind, penalty and total |
| Decode.DataRows | scrape-fsworld.py:132-135 | The data rows are the rows without a header cell, in order |
| Decode.DataRowsAppend | scrape-fsworld.py:132-135 | Filtering header rows distributes over concatenation |
| Decode.DecodeTable | scrape-fsworld.py:131-178 | The loop over the table (skip header rows, decode the rest, stop at the first error) gives the same result as decoding the data rows one by one. So the table decodes exactly when every data row does, and team i is the decoding of data row i. |
| Decode.HeaderRowIgnored | scrape-fsworld.py:134-135 | Inserting a header row anywhere in a table changes neither its data rows nor its decoding |
| Decode.ClassifyEventKind | scrape-fsworld.py:116-122 | The lower-cased info text gives the event kind. "mixed event" takes priority over "pure electric", which takes priority over "pure combustion". If none occurs, the result is an error. |
| Decode.ClassifyIgnoresCase | scrape-fsworld.py:116 | Upper- or lower-casing the info text does not change its classification |
| Decode.ClassifyAsWritten | scrape-fsworld.py:116-122 | The code as written agrees with the corrected one when the text names a kind, and otherwise keeps the previous event's kind |
| Decode.StaleEventKind | scrape-fsworld.py:117-123 | An info text naming no kind, read after an electric event, is reported as electric by the code as written and rejected by the corrected one |
| Decode.DecodeEvent | scrape-fsworld.py:109-180 | A page decodes exactly when it has one heading, an info text that classifies, and a results table whose rows decode. The event carries the requested id, the heading as name, that kind and one team per data row. |
| Decode.KindInfoClassifies | scrape-fsworld.py:116-122 | Each event kind is classified back from the phrase a page uses for it |
| Decode.EventRoundTrip | scrape-fsworld.py:109-180 | Any event whose teams' countries all join cleanly is decoded back from the page that shows it, so page decoding is the inverse of the page encoder |
| Tables.PlacementFields | scrape-fsworld.py:218-233 | A discipline is written as two fields. Both are empty exactly when the team did not score. |
| Tables.PlacementFieldsRoundTrip | scrape-fsworld.py:218-233 | A discipline's two fields read back as that discipline |
| Tables.DisciplineFieldsRoundTrip | scrape-fsworld.py:218-233 | The sixteen discipline fields read back as the eight disciplines |
| Tables.TeamRow | scrape-fsworld.py:211-237 | A team row has the 22 columns of the header, in order: name, country, car kind name, place, two fields per discipline (empty exactly when unscored), pen and total |
| Tables.TeamRowRoundTrip | scrape-fsworld.py:211-237 | Reading a written team row gives back the team |
| Tables.EventFile | scrape-fsworld.py:182-237 | The event file is the 22-name header followed by one row per team. Row i+1 reads back as team i. |
| Tables.SummaryRow | scrape-fsworld.py:246-253 | A summary row holds the event id, its kind name, its name and its number of teams |
| Tables.SummaryFile | scrape-fsworld.py:239-253 | The summary is the four-name header followed by one row per event in order, each giving that event's id, event-kind name, name and team count |
| Scrape.PageScraper | scrape-fsworld.py:106-180 | Scraping an id fetches the page at the series URL and id and decodes it, and the event keeps the id it was fetched under |
| Scrape.Store | scrape-fsworld.py:180-182 | A decoded event is appended to the events and its file is written. A decoding error stops the run without storing the event or writing any file. In both cases the fetch is recorded, and the state stays valid: the fetched ids are distinct, and the ids of the stored events are the fetched ids, in order. |
| Scrape.Visit | scrape-fsworld.py:99-107 | An id already scraped is skipped without fetching or writing anything. A new one is fetched and stored. Every stored event stays what the scraper returned for its page. |
| Scrape.NewIdsMembers | scrape-fsworld.py:99-104 | The new ids of a listing are listed ids that were not seen, each once, and every listed id was either seen or is among them |
| Scrape.VisitAll | scrape-fsworld.py:99-182 | Visiting a listing keeps the state valid and only extends it. Every page it fetches comes from the series URL and has a listed id not scraped before. The ids fetched are the listing's new ids in listing order; a visit stopped by an error has fetched a prefix of them. If the visit completes, the scraped ids are the earlier ones plus the listed ones. Every stored event is what the scraper returned for the page it was fetched from, and its event file has been written. |
| Scrape.VisitAllStopped | scrape-fsworld.py:99-180 | After an error, visiting more ids changes nothing |
| Scrape.VisitAllKnown | scrape-fsworld.py:100-104 | A listing whose ids are all scraped already leaves the state unchanged. Together with VisitAll, this means a listing visited again after it completed, under any series, is a no-op. |
| Scrape.RunSeries | scrape-fsworld.py:94-253 | A series fetches its pages from its own URL, its new ids in listing order, or a prefix of them when an error stops it. After it completes, the scraped ids are the earlier ones plus those its landing page lists, and the last file written is its summary of all events scraped so far. Every stored event is what the scraper returned for its page and has its file. |
| Scrape.RunAll | scrape-fsworld.py:94-253 | Running the series in order keeps the state valid, and a stopped run stays unchanged. If the run completes, the scraped ids are the earlier ones plus every listed id. Every stored event is what the scraper returned for its page and has its file. |
| Scrape.RunAllUrls | scrape-fsworld.py:94-107 | Each page a run of several series fetches comes from the URL of the first series whose listing has its id, and that id was not scraped before |
| Scrape.RunAllIds | scrape-fsworld.py:94-107 | A run of several series fetches each series' new ids in turn, in listing order; a run stopped by an error has fetched a prefix of them |
| Scrape.RunAllSummary | scrape-fsworld.py:239-253 | A run of several series that completes has written, last, the last series' summary of every event scraped |
| Scrape.Run | scrape-fsworld.py:94-253 | The run over FSE and FSC never fetches an event twice. Every stored event is the decoding of the page it was fetched from, and an error that stops the run is the decoding error of the last page fetched. A completed run has scraped exactly the listed ids and ends with the FSC summary of all events. |
| Scrape.RunFetchOrder | scrape-fsworld.py:94-107 | The run fetches each page from the first of FSE and FSC that lists its id: FSE's new ids in listing order, then FSC's. A completed run has stored its events in exactly that order, which is the order of the summary rows. |
| Scrape.RunFiles | scrape-fsworld.py:180-253 | Every stored event has its event file. A completed run has written the FSE summary of the events scraped for FSE, which are the first ones stored. |
| Scrape.StoredPages | scrape-fsworld.py:106-180 | With the page scraper, what the run stored is the decoding of each fetched page, and the failure is the decoding error of the last one |
| Text.ParseShowNat | scrape-fsworld.py:140 | Printing a natural number in decimal and parsing it back gives the number |
| Text.ShowParseNat | scrape-fsworld.py:140 | A canonical digit string survives parsing and printing |
| Text.ParseShowInt | scrape-fsworld.py:248 | Printing an id and parsing it back gives the id |
| Text.Contains | scrape-fsworld.py:117-121 | Python's `in`: true exactly when the pattern occurs at some index |
| Text.IndexOf | scrape-fsworld.py:117-121 | The first index where the pattern occurs, or none exactly when it occurs nowhere |
| Text.LowerIdempotent | scrape-fsworld.py:116 | Lower-casing an already lower-cased text changes nothing |
| Text.LowerOfUpper | scrape-fsworld.py:116 | Lower-casing after upper-casing is the same as lower-casing |
| Text.StripTrailing | scrape-fsworld.py:74 | The result is a prefix of the input, does not end in the stripped character, and only that character was removed |

## Left out

- HTTP fetching and the one-second pacing between requests (lines 59-70) are left out. Fetching is the parameter `web`, which maps a series URL and an event id to the parsed page.
- The HTML parser is not modelled. Pages are given as the `Markup` structures. The `h4` lookup, the `next_sibling` text and the `results`/`wrl_table` search (lines 109-129) become the fields of `EventPage`, with a missing part as an error.
- Reading the event ids from the landing page's `WorldEvents` select (lines 95-98) is the parameter `listing`. It is a total function, so its failures cannot occur in the model: the missing control asserted at line 97, and a non-integer option value at line 98. Because `map` is lazy, that second failure could happen in the source after some events of the series were already scraped.
- Scores, penalties and totals are not parsed with `float` (lines 86, 149-150). The CSV fields therefore hold the page text, not Python's float repr: the source writes a total shown as "350" as "350.0" (lines 219, 234-235). They stay as the page's text, so a malformed number is not an error in the model.
- Decode.DecodePlace: accepts only ASCII digits. Python's `int` also accepts surrounding whitespace, a sign, `_` separators and non-ASCII digits, and the model rejects those with `BadPlace`.
- Decode.DecodeEvent: a page whose info text names no event kind is an `UnknownEventKind` error that stops the run. The source instead stores the event with the previous event's kind, or crashes on the first event (see Findings).
- Text.Lower: lower-cases ASCII letters only. Python's `str.lower` folds all of Unicode.
- CSV quoting, the file system and the `print` progress messages (lines 83, 101-103, 123) are left out. A written file is recorded by what it is written from: the event, or the events a summary lists. `Scrape.Rows` gives its CSV rows through `Tables.EventFile` and `Tables.SummaryFile`.
- The Python dict of events (line 90) is a sequence in insertion order with distinct ids. This matches the dict's iteration order because the code only adds new keys.
- A KeyError, assertion failure or ValueError in the source ends the script. The model records it as the run's `failure` and stops there.

## Findings

| source | as written | input that shows it | evidently intended | confidence | as-written member | corrected member |
|---|---|---|---|---|---|---|
| scrape-fsworld.py:117-122 | When the info text contains none of "mixed event", "pure electric" and "pure combustion", `event_kind` is not assigned. The previous event's kind is reused, and on the first event the name is unbound. | An event page whose info text is "Hybrid", scraped after an electric event, is stored as an electric event | Reject a page whose kind cannot be determined | not executed | Decode.ClassifyAsWritten, Decode.StaleEventKind | Decode.ClassifyEventKind |
