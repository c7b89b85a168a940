/**
 * The batch run: for each series, the event ids its landing page lists are
 * visited in order; an id already scraped (a mixed event listed under both
 * series) is skipped without fetching, a new one is fetched, decoded, stored
 * and written to its own file; after the series a summary file lists every
 * event scraped so far. The first error aborts the run, leaving the files
 * already written.
 *
 * The source keeps the scraped events in a dict keyed by id that is only
 * ever extended with new keys, so its iteration order is insertion order;
 * the model keeps the events as a sequence in that order, with distinct ids.
 */
module Scrape {
  import opened Wrappers
  import opened Model
  import opened Markup
  import opened Decode
  import opened Tables

  /** The series scraped, in order: a label and the base URL of its results pages. */
  const Datasets: seq<(string, string)> := [("FSE", "https://fs-world.org/E"), ("FSC", "https://fs-world.org/C")]

  /**
   * A file the run writes, recorded by what it is written from: an event's
   * file, named by its id, or a series summary of the events listed in it.
   */
  datatype OutFile =
    | EventCsv(id: int, event: Event)
    | SeriesCsv(series: string, events: seq<Event>)

  /** The CSV rows a written file holds. */
  function Rows(f: OutFile): seq<seq<string>> {
    match f
    case EventCsv(_, e) => EventFile(e)
    case SeriesCsv(_, events) => SummaryFile(events)
  }

  /**
   * The run so far: the events scraped, in the order they were first
   * scraped; the detail pages fetched, as (base URL, id); the files written;
   * and the error that stopped the run, if any.
   */
  datatype State = State(
    events: seq<Event>,
    fetched: seq<(string, int)>,
    files: seq<OutFile>,
    failure: Option<Error>)

  const Initial: State := State([], [], [], None)

  function Ids(events: seq<Event>): (ids: seq<int>)
    ensures |ids| == |events| && forall i :: 0 <= i < |events| ==> ids[i] == events[i].id
  {
    seq(|events|, i requires 0 <= i < |events| => events[i].id)
  }

  function FetchedIds(fetched: seq<(string, int)>): (ids: seq<int>)
    ensures |ids| == |fetched| && forall i :: 0 <= i < |fetched| ==> ids[i] == fetched[i].1
  {
    seq(|fetched|, i requires 0 <= i < |fetched| => fetched[i].1)
  }

  predicate Distinct(xs: seq<int>) {
    forall i, j :: 0 <= i < j < |xs| ==> xs[i] != xs[j]
  }

  /** `id` has been scraped: the source's `event_id in events`. */
  predicate Scraped(st: State, id: int) {
    id in Ids(st.events)
  }

  /**
   * The ids of a listing that are not in `seen`, each at its first
   * occurrence, in listing order: the pages a visit of the listing fetches
   * when `seen` are the ids scraped before it.
   */
  function NewIds(seen: seq<int>, ids: seq<int>): seq<int>
    decreases |ids|
  {
    if |ids| == 0 then []
    else if ids[0] in seen then NewIds(seen, ids[1..])
    else [ids[0]] + NewIds(seen + [ids[0]], ids[1..])
  }

  /**
   * The new ids are listed ids that were not seen, each once, and every
   * listed id was either seen or is among them.
   */
  lemma {:induction false} NewIdsMembers(seen: seq<int>, ids: seq<int>)
    decreases |ids|
    ensures forall i :: 0 <= i < |NewIds(seen, ids)| ==> NewIds(seen, ids)[i] in ids && NewIds(seen, ids)[i] !in seen
    ensures forall id :: id in ids ==> id in seen || id in NewIds(seen, ids)
    ensures Distinct(NewIds(seen, ids))
  {
    if |ids| > 0 {
      var rest := NewIds(seen + [ids[0]], ids[1..]);
      NewIdsMembers(seen + [ids[0]], ids[1..]);
      if ids[0] in seen {
        NewIdsMembers(seen, ids[1..]);
      }
      assert forall id :: id in ids ==> id == ids[0] || id in ids[1..];
    }
  }

  /** The new ids of each series in turn, each series' new ids added to those seen by the next. */
  function SeriesIds(seen: seq<int>, datasets: seq<(string, string)>, listing: string -> seq<int>): seq<int>
    decreases |datasets|
  {
    if |datasets| == 0 then []
    else
      var news := NewIds(seen, listing(datasets[0].1));
      news + SeriesIds(seen + news, datasets[1..], listing)
  }

  /** The base URL of the first series whose listing has `id`, if any. */
  function FirstListing(datasets: seq<(string, string)>, listing: string -> seq<int>, id: int): Option<string>
    decreases |datasets|
  {
    if |datasets| == 0 then None
    else if id in listing(datasets[0].1) then Some(datasets[0].1)
    else FirstListing(datasets[1..], listing, id)
  }

  /**
   * The invariant of a run: no page is fetched twice, and the stored events
   * are exactly the fetched pages, in fetch order, except the last page
   * when it is the one that stopped the run.
   */
  ghost predicate Valid(st: State) {
    && Distinct(FetchedIds(st.fetched))
    && |st.fetched| == |st.events| + (if st.failure.Some? then 1 else 0)
    && Ids(st.events) == FetchedIds(st.fetched)[..|st.events|]
  }

  /** `b` continues `a`: nothing stored, fetched or written is ever taken back or changed. */
  predicate Extends(a: State, b: State) {
    && a.events <= b.events
    && a.fetched <= b.fetched
    && a.files <= b.files
  }

  /**
   * Fetching the detail page of an event listed under a series and decoding
   * it: given the base URL and the id, the event or the error.
   */
  type Scraper = (string, int) -> Result<Event, Error>

  /** A scraper whose decoded events carry the id they were fetched under. */
  ghost predicate KeepsIds(scrape: Scraper) {
    forall url, id :: scrape(url, id).Ok? ==> scrape(url, id).value.id == id
  }

  /**
   * Every stored event is what `scrape` returned for the page it was
   * fetched from and has had its file written, and the error that stopped
   * the run, if any, is what `scrape` returned for the last page fetched.
   */
  ghost predicate Stored(st: State, scrape: Scraper) {
    && (forall i :: 0 <= i < |st.events| && i < |st.fetched| ==>
          scrape(st.fetched[i].0, st.fetched[i].1) == Ok(st.events[i]))
    && (st.failure.Some? && |st.fetched| > 0 ==>
          scrape(st.fetched[|st.fetched| - 1].0, st.fetched[|st.fetched| - 1].1) == Err(st.failure.value))
    && (forall i :: 0 <= i < |st.events| ==> EventCsv(st.events[i].id, st.events[i]) in st.files)
  }

  /** The source's scraper: `web(url, id)` is the page at "url/id", decoded as an event detail page. */
  function PageScraper(web: (string, int) -> EventPage): (scrape: Scraper)
    ensures KeepsIds(scrape)
    ensures forall url, id :: scrape(url, id) == DecodeEvent(id, web(url, id))
  {
    var scrape: Scraper := (url, id) => DecodeEvent(id, web(url, id));
    assert forall url, id :: scrape(url, id) == DecodeEvent(id, web(url, id));
    scrape
  }

  /**
   * Records the outcome of fetching and decoding a new event: a decoded
   * event is stored and its file written; an error stops the run.
   */
  function Store(st: State, url: string, id: int, decoded: Result<Event, Error>): (r: State)
    requires Valid(st) && st.failure.None? && !Scraped(st, id)
    requires decoded.Ok? ==> decoded.value.id == id
    ensures Valid(r)
    ensures Extends(st, r)
    ensures r.fetched == st.fetched + [(url, id)] && FetchedIds(r.fetched) == FetchedIds(st.fetched) + [id]
    ensures decoded.Ok? <==> r.failure.None?
    ensures decoded.Ok? ==> Ids(r.events) == Ids(st.events) + [id]
    ensures decoded.Ok? ==>
              && r.events == st.events + [decoded.value]
              && r.files == st.files + [EventCsv(id, decoded.value)]
    ensures decoded.Err? ==> r.events == st.events && r.files == st.files && r.failure == Some(decoded.error)
  {
    var fetched := st.fetched + [(url, id)];
    assert FetchedIds(fetched) == FetchedIds(st.fetched) + [id];
    match decoded
    case Err(e) => st.(fetched := fetched, failure := Some(e))
    case Ok(ev) =>
      assert Ids(st.events + [ev]) == Ids(st.events) + [id];
      State(st.events + [ev], fetched, st.files + [EventCsv(id, ev)], None)
  }

  /**
   * One listed event id under the series at `url`: skipped, without
   * fetching, when already scraped; otherwise scraped and stored.
   */
  function Visit(st: State, url: string, id: int, scrape: Scraper): (r: State)
    requires Valid(st) && KeepsIds(scrape)
    ensures Valid(r)
    ensures Extends(st, r)
    ensures st.failure.Some? || Scraped(st, id) ==> r == st
    ensures st.failure.None? && !Scraped(st, id) ==> r == Store(st, url, id, scrape(url, id))
    ensures Stored(st, scrape) ==> Stored(r, scrape)
  {
    if st.failure.Some? || Scraped(st, id) then st
    else Store(st, url, id, scrape(url, id))
  }

  /**
   * The ids one series lists, in order. Every page fetched is fetched from
   * the series URL, and the ids fetched are the listed ids not scraped
   * before, in listing order; a visit that stops early has fetched a prefix
   * of them.
   */
  function VisitAll(st: State, url: string, ids: seq<int>, scrape: Scraper): (r: State)
    requires Valid(st) && KeepsIds(scrape)
    decreases |ids|
    ensures Valid(r)
    ensures Extends(st, r)
    ensures st.failure.Some? ==> r == st
    ensures r.failure.None? ==> st.failure.None?
    ensures r.failure.None? ==> forall id :: Scraped(r, id) <==> Scraped(st, id) || id in ids
    ensures forall i :: |st.fetched| <= i < |r.fetched| ==>
              r.fetched[i].0 == url && r.fetched[i].1 in ids && !Scraped(st, r.fetched[i].1)
    ensures st.failure.None? ==> FetchedIds(r.fetched) <= FetchedIds(st.fetched) + NewIds(Ids(st.events), ids)
    ensures r.failure.None? ==> FetchedIds(r.fetched) == FetchedIds(st.fetched) + NewIds(Ids(st.events), ids)
    ensures Stored(st, scrape) ==> Stored(r, scrape)
  {
    if |ids| == 0 then st
    else
      var next := Visit(st, url, ids[0], scrape);
      var r := VisitAll(next, url, ids[1..], scrape);
      VisitAllFetches(st, next, r, url, ids, scrape);
      if st.failure.Some? then r
      else
        assert !Scraped(st, ids[0]) ==> next == Store(st, url, ids[0], scrape(url, ids[0]));
        VisitAllOrder(FetchedIds(st.fetched), Ids(st.events), ids, FetchedIds(next.fetched), Ids(next.events),
                      next.failure.None?, FetchedIds(r.fetched), r.failure.None?);
        r
  }

  /** The step of `VisitAll` for the ids scraped and the URL and id of each page fetched. */
  lemma VisitAllFetches(st: State, next: State, r: State, url: string, ids: seq<int>, scrape: Scraper)
    requires Valid(st) && KeepsIds(scrape) && |ids| > 0
    requires next == Visit(st, url, ids[0], scrape)
    requires Extends(next, r)
    requires next.failure.Some? ==> r == next
    requires r.failure.None? ==> forall id :: Scraped(r, id) <==> Scraped(next, id) || id in ids[1..]
    requires forall i :: |next.fetched| <= i < |r.fetched| ==>
               r.fetched[i].0 == url && r.fetched[i].1 in ids[1..] && !Scraped(next, r.fetched[i].1)
    ensures r.failure.None? ==> forall id :: Scraped(r, id) <==> Scraped(st, id) || id in ids
    ensures forall i :: |st.fetched| <= i < |r.fetched| ==>
              r.fetched[i].0 == url && r.fetched[i].1 in ids && !Scraped(st, r.fetched[i].1)
  {
    assert forall id :: id in ids <==> id == ids[0] || id in ids[1..];
    if next != st {
      assert next == Store(st, url, ids[0], scrape(url, ids[0]));
      assert forall id :: Scraped(st, id) ==> Scraped(next, id);
    }
  }

  /**
   * The step of `VisitAll` for the order of the ids fetched: `before` and
   * `seen` are the ids fetched and scraped before the first listed id is
   * visited, `mid` and `midSeen` after it, and `got` the ids fetched once
   * the rest of the listing has been visited.
   */
  lemma VisitAllOrder(before: seq<int>, seen: seq<int>, ids: seq<int>, mid: seq<int>, midSeen: seq<int>, midOk: bool, got: seq<int>, complete: bool)
    requires |ids| > 0
    requires ids[0] in seen ==> mid == before && midSeen == seen && midOk
    requires ids[0] !in seen ==> mid == before + [ids[0]] && (midOk ==> midSeen == seen + [ids[0]])
    requires !midOk ==> got == mid && !complete
    requires midOk ==> got <= mid + NewIds(midSeen, ids[1..])
    requires complete ==> got == mid + NewIds(midSeen, ids[1..])
    ensures got <= before + NewIds(seen, ids)
    ensures complete ==> got == before + NewIds(seen, ids)
  {
    if ids[0] !in seen {
      PrependNew(before, seen, ids, got, complete);
    }
  }

  /** Prepending a new first id to the fetched ids of the rest of a listing gives the fetched ids of the listing. */
  lemma PrependNew(before: seq<int>, seen: seq<int>, ids: seq<int>, got: seq<int>, complete: bool)
    requires |ids| > 0 && ids[0] !in seen
    requires got <= before + [ids[0]] + NewIds(seen + [ids[0]], ids[1..])
    requires complete ==> got == before + [ids[0]] + NewIds(seen + [ids[0]], ids[1..])
    ensures got <= before + NewIds(seen, ids)
    ensures complete ==> got == before + NewIds(seen, ids)
  {
    var rest := NewIds(seen + [ids[0]], ids[1..]);
    assert NewIds(seen, ids) == [ids[0]] + rest;
    SeqAssoc(before, [ids[0]], rest);
  }

  /** Once the run has stopped, listing more ids changes nothing. */
  lemma {:induction false} VisitAllStopped(st: State, url: string, ids: seq<int>, scrape: Scraper)
    requires Valid(st) && KeepsIds(scrape) && st.failure.Some?
    decreases |ids|
    ensures VisitAll(st, url, ids, scrape) == st
  {
    if |ids| > 0 {
      VisitAllStopped(st, url, ids[1..], scrape);
    }
  }

  /**
   * Ids that have all been scraped already are skipped: nothing is fetched,
   * stored or written.
   */
  lemma {:induction false} VisitAllKnown(st: State, url: string, ids: seq<int>, scrape: Scraper)
    requires Valid(st) && KeepsIds(scrape)
    requires forall i :: 0 <= i < |ids| ==> Scraped(st, ids[i])
    decreases |ids|
    ensures VisitAll(st, url, ids, scrape) == st
  {
    if |ids| > 0 {
      VisitAllKnown(st, url, ids[1..], scrape);
    }
  }

  /**
   * One series: visit the ids its landing page lists (`listing(url)`),
   * then write its summary file, which lists every event scraped so far,
   * from this series and every earlier one.
   */
  function RunSeries(st: State, series: (string, string), listing: string -> seq<int>, scrape: Scraper): (r: State)
    requires Valid(st) && KeepsIds(scrape)
    ensures Valid(r) && Extends(st, r)
    ensures st.failure.Some? ==> r == st
    ensures r.failure.None? ==> st.failure.None?
    ensures r.failure.None? ==> forall id :: Scraped(r, id) <==> Scraped(st, id) || id in listing(series.1)
    ensures forall i :: |st.fetched| <= i < |r.fetched| ==>
              r.fetched[i].0 == series.1 && r.fetched[i].1 in listing(series.1) && !Scraped(st, r.fetched[i].1)
    ensures st.failure.None? ==> FetchedIds(r.fetched) <= FetchedIds(st.fetched) + NewIds(Ids(st.events), listing(series.1))
    ensures r.failure.None? ==> FetchedIds(r.fetched) == FetchedIds(st.fetched) + NewIds(Ids(st.events), listing(series.1))
    ensures r.failure.None? ==> |r.files| > 0 && r.files[|r.files| - 1] == SeriesCsv(series.0, r.events)
    ensures Stored(st, scrape) ==> Stored(r, scrape)
  {
    var visited := VisitAll(st, series.1, listing(series.1), scrape);
    if visited.failure.Some? then visited
    else visited.(files := visited.files + [SeriesCsv(series.0, visited.events)])
  }

  /** Every id listed by any of the series. */
  function Listed(datasets: seq<(string, string)>, listing: string -> seq<int>): (ids: set<int>) {
    if |datasets| == 0 then {}
    else (set i | i in listing(datasets[0].1)) + Listed(datasets[1..], listing)
  }

  /** The series in order, threading the scraped events from one into the next. */
  function RunAll(st: State, datasets: seq<(string, string)>, listing: string -> seq<int>, scrape: Scraper): (r: State)
    requires Valid(st) && KeepsIds(scrape)
    decreases |datasets|
    ensures Valid(r) && Extends(st, r)
    ensures st.failure.Some? ==> r == st
    ensures r.failure.None? ==> st.failure.None?
    ensures r.failure.None? ==> forall id :: Scraped(r, id) <==> Scraped(st, id) || id in Listed(datasets, listing)
    ensures Stored(st, scrape) ==> Stored(r, scrape)
  {
    if |datasets| == 0 then st
    else RunAll(RunSeries(st, datasets[0], listing, scrape), datasets[1..], listing, scrape)
  }

  /** Each page a run of several series fetches is fetched from the first series that lists its id. */
  lemma {:induction false} RunAllUrls(st: State, r: State, datasets: seq<(string, string)>, listing: string -> seq<int>, scrape: Scraper)
    requires Valid(st) && KeepsIds(scrape) && r == RunAll(st, datasets, listing, scrape)
    decreases |datasets|
    ensures forall i :: |st.fetched| <= i < |r.fetched| ==>
              FirstListing(datasets, listing, r.fetched[i].1) == Some(r.fetched[i].0) && !Scraped(st, r.fetched[i].1)
  {
    if |datasets| > 0 {
      var mid := RunSeries(st, datasets[0], listing, scrape);
      RunAllUrls(mid, r, datasets[1..], listing, scrape);
      RunAllFetches(st, mid, r, datasets, listing);
    }
  }

  /**
   * A run of several series fetches each series' new ids in turn; one that
   * stops early has fetched a prefix of them.
   */
  lemma {:induction false} RunAllIds(st: State, r: State, datasets: seq<(string, string)>, listing: string -> seq<int>, scrape: Scraper)
    requires Valid(st) && KeepsIds(scrape) && st.failure.None? && r == RunAll(st, datasets, listing, scrape)
    decreases |datasets|
    ensures FetchedIds(r.fetched) <= FetchedIds(st.fetched) + SeriesIds(Ids(st.events), datasets, listing)
    ensures r.failure.None? ==> FetchedIds(r.fetched) == FetchedIds(st.fetched) + SeriesIds(Ids(st.events), datasets, listing)
  {
    if |datasets| > 0 {
      var mid := RunSeries(st, datasets[0], listing, scrape);
      CompleteIds(st);
      CompleteIds(mid);
      if mid.failure.None? {
        RunAllIds(mid, r, datasets[1..], listing, scrape);
      }
      RunAllOrder(FetchedIds(st.fetched), Ids(st.events), datasets, listing, FetchedIds(mid.fetched), Ids(mid.events),
                  mid.failure.None?, FetchedIds(r.fetched), r.failure.None?);
    }
  }

  /** A run of several series that completes has written, last, the last series' summary of every event. */
  lemma {:induction false} RunAllSummary(st: State, r: State, datasets: seq<(string, string)>, listing: string -> seq<int>, scrape: Scraper)
    requires Valid(st) && KeepsIds(scrape) && |datasets| > 0 && r == RunAll(st, datasets, listing, scrape)
    decreases |datasets|
    ensures r.failure.None? ==> |r.files| > 0 && r.files[|r.files| - 1] == SeriesCsv(datasets[|datasets| - 1].0, r.events)
  {
    var mid := RunSeries(st, datasets[0], listing, scrape);
    if |datasets| == 1 {
      assert r == mid;
    } else {
      RunAllSummary(mid, r, datasets[1..], listing, scrape);
      LastOfTail(datasets);
    }
  }

  /** In a run that has not stopped, the scraped ids are the fetched ids. */
  lemma CompleteIds(st: State)
    requires Valid(st)
    ensures st.failure.None? ==> Ids(st.events) == FetchedIds(st.fetched)
  {
  }

  /** What is scraped stays scraped. */
  lemma ScrapedGrows(a: State, b: State)
    requires a.events <= b.events
    ensures forall id :: Scraped(a, id) ==> Scraped(b, id)
  {
    forall id | Scraped(a, id)
      ensures Scraped(b, id)
    {
      var k :| 0 <= k < |Ids(a.events)| && Ids(a.events)[k] == id;
      assert b.events[k] == a.events[k];
      assert Ids(b.events)[k] == id;
    }
  }

  /**
   * The step of `RunAll` for the URL and id of each page fetched: a page
   * fetched by a later series has an id the first series does not list,
   * because every id the first series lists was scraped when it completed.
   */
  lemma RunAllFetches(st: State, mid: State, r: State, datasets: seq<(string, string)>, listing: string -> seq<int>)
    requires |datasets| > 0
    requires Extends(st, mid) && Extends(mid, r)
    requires mid.failure.Some? ==> r == mid
    requires mid.failure.None? ==> forall id :: id in listing(datasets[0].1) ==> Scraped(mid, id)
    requires forall i :: |st.fetched| <= i < |mid.fetched| ==>
               mid.fetched[i].0 == datasets[0].1 && mid.fetched[i].1 in listing(datasets[0].1) && !Scraped(st, mid.fetched[i].1)
    requires forall i :: |mid.fetched| <= i < |r.fetched| ==>
               FirstListing(datasets[1..], listing, r.fetched[i].1) == Some(r.fetched[i].0) && !Scraped(mid, r.fetched[i].1)
    ensures forall i :: |st.fetched| <= i < |r.fetched| ==>
              FirstListing(datasets, listing, r.fetched[i].1) == Some(r.fetched[i].0) && !Scraped(st, r.fetched[i].1)
  {
    ScrapedGrows(st, mid);
    forall i | |st.fetched| <= i < |r.fetched|
      ensures FirstListing(datasets, listing, r.fetched[i].1) == Some(r.fetched[i].0) && !Scraped(st, r.fetched[i].1)
    {
      if i < |mid.fetched| {
        assert r.fetched[i] == mid.fetched[i];
      } else {
        assert r.fetched[i].1 !in listing(datasets[0].1);
      }
    }
  }

  /**
   * The step of `RunAll` for the order of the ids fetched: `before` and
   * `seen` are the ids fetched and scraped before the first series, `mid`
   * and `midSeen` after it, and `got` the ids fetched once the later
   * series have run.
   */
  lemma RunAllOrder(before: seq<int>, seen: seq<int>, datasets: seq<(string, string)>, listing: string -> seq<int>,
                    mid: seq<int>, midSeen: seq<int>, midOk: bool, got: seq<int>, complete: bool)
    requires |datasets| > 0 && seen == before
    requires mid <= before + NewIds(seen, listing(datasets[0].1))
    requires midOk ==> mid == before + NewIds(seen, listing(datasets[0].1)) && midSeen == mid
    requires !midOk ==> got == mid && !complete
    requires midOk ==> got <= mid + SeriesIds(midSeen, datasets[1..], listing)
    requires complete ==> got == mid + SeriesIds(midSeen, datasets[1..], listing)
    ensures got <= before + SeriesIds(seen, datasets, listing)
    ensures complete ==> got == before + SeriesIds(seen, datasets, listing)
  {
    var news := NewIds(seen, listing(datasets[0].1));
    var rest := SeriesIds(seen + news, datasets[1..], listing);
    assert SeriesIds(seen, datasets, listing) == news + rest;
    SeqAssoc(before, news, rest);
  }

  /**
   * The whole run over the configured series. No event page is fetched
   * twice; every stored event is the decoding of the page it was fetched
   * from, and an error that stops the run is the decoding error of the last
   * page fetched; a run that completes has scraped exactly the events its
   * series list and ends with a summary of all of them.
   */
  function Run(listing: string -> seq<int>, web: (string, int) -> EventPage): (r: State)
    ensures Valid(r)
    ensures Distinct(FetchedIds(r.fetched))
    ensures r.failure.None? ==> forall id :: Scraped(r, id) <==> id in Listed(Datasets, listing)
    ensures r.failure.None? ==> |r.files| > 0 && r.files[|r.files| - 1] == SeriesCsv("FSC", r.events)
    ensures forall i :: 0 <= i < |r.events| ==>
              DecodeEvent(r.fetched[i].1, web(r.fetched[i].0, r.fetched[i].1)) == Ok(r.events[i])
    ensures r.failure.Some? ==>
              && |r.fetched| > 0
              && DecodeEvent(r.fetched[|r.fetched| - 1].1, web(r.fetched[|r.fetched| - 1].0, r.fetched[|r.fetched| - 1].1))
                 == Err(r.failure.value)
  {
    var scrape := PageScraper(web);
    assert Stored(Initial, scrape);
    var r := RunAll(Initial, Datasets, listing, scrape);
    RunAllSummary(Initial, r, Datasets, listing, scrape);
    StoredPages(r, web);
    r
  }

  /**
   * The order and origin of the pages the run fetches: each from the first
   * series that lists its id, FSE's new ids in listing order and then
   * FSC's; a completed run has stored its events in exactly that order.
   */
  lemma RunFetchOrder(listing: string -> seq<int>, web: (string, int) -> EventPage)
    ensures var r := Run(listing, web);
            && (forall i :: 0 <= i < |r.fetched| ==> FirstListing(Datasets, listing, r.fetched[i].1) == Some(r.fetched[i].0))
            && FetchedIds(r.fetched) <= SeriesIds([], Datasets, listing)
            && (r.failure.None? ==> Ids(r.events) == SeriesIds([], Datasets, listing))
  {
    var scrape := PageScraper(web);
    var r := RunAll(Initial, Datasets, listing, scrape);
    assert Run(listing, web) == r;
    assert Ids(Initial.events) == [] && FetchedIds(Initial.fetched) == [];
    RunAllUrls(Initial, r, Datasets, listing, scrape);
    RunAllIds(Initial, r, Datasets, listing, scrape);
    CompleteIds(r);
  }

  /**
   * The files of the run: each stored event has its event file, and a
   * completed run has written the FSE summary of the events scraped for FSE,
   * which are the first ones stored.
   */
  lemma RunFiles(listing: string -> seq<int>, web: (string, int) -> EventPage)
    ensures var r := Run(listing, web);
            && (forall i :: 0 <= i < |r.events| ==> EventCsv(r.events[i].id, r.events[i]) in r.files)
            && (r.failure.None? ==>
                  && |NewIds([], listing(Datasets[0].1))| <= |r.events|
                  && SeriesCsv("FSE", r.events[..|NewIds([], listing(Datasets[0].1))|]) in r.files)
  {
    var scrape := PageScraper(web);
    assert Stored(Initial, scrape);
    var r := RunAll(Initial, Datasets, listing, scrape);
    assert Run(listing, web) == r;
    FirstSeriesSummary(listing, scrape);
  }

  /** A completed run has written the FSE summary of the events scraped for FSE, which come first. */
  lemma FirstSeriesSummary(listing: string -> seq<int>, scrape: Scraper)
    requires KeepsIds(scrape)
    ensures var r := RunAll(Initial, Datasets, listing, scrape);
            r.failure.None? ==>
              && |NewIds([], listing(Datasets[0].1))| <= |r.events|
              && SeriesCsv("FSE", r.events[..|NewIds([], listing(Datasets[0].1))|]) in r.files
  {
    var mid := RunSeries(Initial, Datasets[0], listing, scrape);
    var r := RunAll(mid, Datasets[1..], listing, scrape);
    assert r == RunAll(Initial, Datasets, listing, scrape);
    if r.failure.None? {
      assert Ids(Initial.events) == [] && FetchedIds(Initial.fetched) == [];
      CompleteIds(mid);
      var n := |NewIds([], listing(Datasets[0].1))|;
      assert |mid.events| == n;
      assert r.events[..n] == mid.events;
      assert mid.files[|mid.files| - 1] in r.files;
    }
  }

  /** The last series after the first is the last series. */
  lemma LastOfTail(datasets: seq<(string, string)>)
    requires |datasets| > 1
    ensures datasets[1..][|datasets| - 2] == datasets[|datasets| - 1]
  {
  }

  /** Sequence concatenation is associative. */
  lemma SeqAssoc(a: seq<int>, b: seq<int>, c: seq<int>)
    ensures a + b + c == a + (b + c)
  {
  }

  /** What the page scraper stored is, page by page, the decoding of the fetched pages. */
  lemma StoredPages(st: State, web: (string, int) -> EventPage)
    requires Valid(st) && Stored(st, PageScraper(web))
    ensures forall i :: 0 <= i < |st.events| ==>
              DecodeEvent(st.fetched[i].1, web(st.fetched[i].0, st.fetched[i].1)) == Ok(st.events[i])
    ensures st.failure.Some? ==>
              && |st.fetched| > 0
              && DecodeEvent(st.fetched[|st.fetched| - 1].1, web(st.fetched[|st.fetched| - 1].0, st.fetched[|st.fetched| - 1].1))
                 == Err(st.failure.value)
  {
    var scrape := PageScraper(web);
    forall i | 0 <= i < |st.events|
      ensures DecodeEvent(st.fetched[i].1, web(st.fetched[i].0, st.fetched[i].1)) == Ok(st.events[i])
    {
      assert scrape(st.fetched[i].0, st.fetched[i].1) == Ok(st.events[i]);
    }
  }
}
