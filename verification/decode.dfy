/**
 * Decoding an event detail page into an `Event`: the discipline cells, the
 * rank cell's "Country | Name" title, the car kind on the total cell, the
 * event kind in the text after the heading, and the results rows.
 */
module Decode {
  import opened Wrappers
  import opened Text
  import opened Model
  import opened Markup

  /** `k` dots: the trailing punctuation the page puts after a rank. */
  function Dots(k: nat): (s: string)
    ensures |s| == k && forall i :: 0 <= i < k ==> s[i] == '.'
  {
    seq(k, i => '.')
  }

  /** Stripping `c` stops exactly after the last character that is not `c`. */
  lemma StripTrailingAt(s: string, c: char, k: nat)
    requires k <= |s|
    requires k == 0 || s[k - 1] != c
    requires forall i :: k <= i < |s| ==> s[i] == c
    ensures StripTrailing(s, c) == s[..k]
  {
    var r := StripTrailing(s, c);
    assert k <= |r|;
    assert |r| == 0 || r[|r| - 1] == s[|r| - 1];
    assert |r| <= k;
  }

  // ---------------------------------------------------------------------
  // Places and discipline cells
  // ---------------------------------------------------------------------

  /** `int(text.rstrip("."))`: a rank written as decimal digits followed by any number of dots. */
  function DecodePlace(text: string): (r: Result<nat, Error>)
    ensures r.Err? ==> r.error == BadPlace(text)
    ensures r.Ok? ==> exists k :: 0 <= k <= |text| && ParseNat(text[..k]) == Some(r.value)
                                 && forall i :: k <= i < |text| ==> text[i] == '.'
  {
    var digits := StripTrailing(text, '.');
    match ParseNat(digits)
    case None => Err(BadPlace(text))
    case Some(p) =>
      assert text[..|digits|] == digits;
      Ok(p)
  }

  /** Any decimal number followed by any number of dots decodes to that number, so "3." gives 3. */
  lemma DecodePlaceDigitsDots(digits: string, k: nat)
    requires ParseNat(digits).Some?
    ensures DecodePlace(digits + Dots(k)) == Ok(ParseNat(digits).value)
  {
    var text := digits + Dots(k);
    StripTrailingAt(text, '.', |digits|);
    assert text[..|digits|] == digits;
  }

  /** The text the page shows for a discipline a team was not scored in: "-" and any dots after it. */
  predicate IsNullMark(text: string) {
    |text| > 0 && text[0] == '-' && forall i :: 1 <= i < |text| ==> text[i] == '.'
  }

  /** After stripping trailing dots exactly "-" is left precisely for the not-scored mark. */
  lemma NullMarkIff(text: string)
    ensures StripTrailing(text, '.') == "-" <==> IsNullMark(text)
  {
    if IsNullMark(text) {
      StripTrailingAt(text, '.', 1);
      assert text[..1] == "-";
    }
    if StripTrailing(text, '.') == "-" {
      assert text[0] == StripTrailing(text, '.')[0];
    }
  }

  /**
   * One discipline cell: `None` for the not-scored mark, otherwise the rank in
   * the cell's text and, as the score, the `title` of the first descendant
   * element that has one. A scored cell without such a descendant is an error.
   */
  function DecodeDiscipline(c: Cell): (r: Result<Discipline, Error>)
    ensures r == Ok(None) <==> IsNullMark(c.text)
    ensures r.Ok? <==> IsNullMark(c.text) || (DecodePlace(c.text).Ok? && FindTitle(c.children).Some?)
    ensures r.Ok? && r.value.Some? ==>
              && DecodePlace(c.text) == Ok(r.value.value.place)
              && FindTitle(c.children) == Some(r.value.value.score)
    ensures !IsNullMark(c.text) && DecodePlace(c.text).Err? ==> r == Err(BadPlace(c.text))
    ensures !IsNullMark(c.text) && DecodePlace(c.text).Ok? && FindTitle(c.children).None? ==> r == Err(MissingTooltip)
  {
    NullMarkIff(c.text);
    if StripTrailing(c.text, '.') == "-" then Ok(None)
    else
      var place :- DecodePlace(c.text);
      match FindTitle(c.children)
      case None => Err(MissingTooltip)
      case Some(score) => Ok(Some(Placement(place, score)))
  }

  // ---------------------------------------------------------------------
  // Rank-cell title and car kind
  // ---------------------------------------------------------------------

  /**
   * The rank cell's title "Country | Name", split at the first " | " into
   * (country, name); the name keeps any later " | ".
   */
  function SplitCountryName(title: Option<string>): (r: Result<(string, string), Error>)
    ensures title.None? ==> r == Err(MissingTitle)
    ensures title.Some? ==> (r.Err? <==> !Contains(title.value, " | "))
    ensures title.Some? && r.Err? ==> r.error == MissingDelimiter(title.value)
    ensures r.Ok? ==> title == Some(r.value.0 + " | " + r.value.1)
    ensures r.Ok? ==> forall j :: 0 <= j < |r.value.0| ==> !OccursAt(title.value, " | ", j)
  {
    match title
    case None => Err(MissingTitle)
    case Some(t) =>
      match SplitFirst(t, " | ")
      case None => Err(MissingDelimiter(t))
      case Some(parts) => Ok(parts)
  }

  /**
   * A country and a name, joined as the page joins them, split back into
   * the two exactly when the country joins cleanly (no " | " in it and no
   * trailing " |"); the name may hold anything.
   */
  lemma CountryNameRoundTrip(country: string, name: string)
    ensures SplitCountryName(Some(country + " | " + name)) == Ok((country, name)) <==> JoinsCleanly(country)
  {
    SplitFirstJoin(country, name);
  }

  /** The total cell's title names the car kind exactly, in lower case. */
  function DecodeCarKind(title: Option<string>): (r: Result<CarKind, Error>)
    ensures title.None? ==> r == Err(MissingTitle)
    ensures r.Ok? ==> title == Some(CarKindTitle(r.value))
    ensures title.Some? && (forall k :: title.value != CarKindTitle(k)) ==> r == Err(UnknownCarKind(title.value))
  {
    match title
    case None => Err(MissingTitle)
    case Some(t) =>
      if t == "electric" then Ok(ElectricCar)
      else if t == "combustion" then Ok(CombustionCar)
      else if t == "other" then Ok(OtherCar)
      else Err(UnknownCarKind(t))
  }

  lemma CarKindRoundTrip(k: CarKind)
    ensures DecodeCarKind(Some(CarKindTitle(k))) == Ok(k)
  {
  }

  // ---------------------------------------------------------------------
  // Event kind
  // ---------------------------------------------------------------------

  /**
   * The event kind named in the text after the event heading, looked up
   * case-insensitively and in priority order: "mixed event", then
   * "pure electric", then "pure combustion". Text naming none of them is an
   * error carrying the lower-cased text.
   */
  function ClassifyEventKind(info: string): (r: Result<EventKind, Error>)
    ensures r == Ok(MixedEvent) <==> Contains(Lower(info), "mixed event")
    ensures r == Ok(PureElectric) <==>
              !Contains(Lower(info), "mixed event") && Contains(Lower(info), "pure electric")
    ensures r == Ok(PureCombustion) <==>
              && !Contains(Lower(info), "mixed event")
              && !Contains(Lower(info), "pure electric")
              && Contains(Lower(info), "pure combustion")
    ensures r.Err? ==> r.error == UnknownEventKind(Lower(info))
  {
    var text := Lower(info);
    if Contains(text, "mixed event") then Ok(MixedEvent)
    else if Contains(text, "pure electric") then Ok(PureElectric)
    else if Contains(text, "pure combustion") then Ok(PureCombustion)
    else Err(UnknownEventKind(text))
  }

  /** Classification does not depend on how the text is capitalised. */
  lemma ClassifyIgnoresCase(info: string)
    ensures ClassifyEventKind(Upper(info)) == ClassifyEventKind(info)
    ensures ClassifyEventKind(Lower(info)) == ClassifyEventKind(info)
  {
    LowerOfUpper(info);
    LowerIdempotent(info);
  }

  /**
   * The classification as the source writes it: an if/elif chain with no
   * else, so when no phrase matches the kind of the previously scraped event
   * is kept (`previous`), and on the first event there is none (`None`, the
   * source's unbound variable).
   */
  function ClassifyAsWritten(info: string, previous: Option<EventKind>): (r: Option<EventKind>)
    ensures ClassifyEventKind(info).Ok? ==> r == Some(ClassifyEventKind(info).value)
    ensures ClassifyEventKind(info).Err? ==> r == previous
  {
    var text := Lower(info);
    if Contains(text, "mixed event") then Some(MixedEvent)
    else if Contains(text, "pure electric") then Some(PureElectric)
    else if Contains(text, "pure combustion") then Some(PureCombustion)
    else previous
  }

  /**
   * An event whose description names no kind ("Hybrid") scraped after a
   * pure-electric one is recorded as pure electric by the source, while the
   * corrected classification rejects it.
   */
  lemma StaleEventKind()
    ensures ClassifyAsWritten("Hybrid", Some(PureElectric)) == Some(PureElectric)
    ensures ClassifyEventKind("Hybrid") == Err(UnknownEventKind("hybrid"))
  {
    var text := Lower("Hybrid");
    assert text == "hybrid";
    assert !Contains(text, "mixed event");
    assert !Contains(text, "pure electric");
    assert !Contains(text, "pure combustion");
  }

  // ---------------------------------------------------------------------
  // Rows
  // ---------------------------------------------------------------------

  /**
   * One results row of exactly 12 cells: rank title, place, the eight
   * disciplines, penalty, and total (whose title is the car kind). Errors
   * are reported in the order the source meets them.
   */
  function DecodeRow(cells: seq<Cell>): (r: Result<Team, Error>)
    ensures |cells| != 12 ==> r == Err(WrongCellCount(|cells|))
    ensures r.Ok? <==>
              && |cells| == 12
              && SplitCountryName(cells[0].title).Ok?
              && DecodePlace(cells[1].text).Ok?
              && MapAll(DecodeDiscipline, cells[2..10]).Ok?
              && DecodeCarKind(cells[11].title).Ok?
    ensures r.Ok? ==>
              && SplitCountryName(cells[0].title) == Ok((r.value.country, r.value.name))
              && DecodePlace(cells[1].text) == Ok(r.value.place)
              && MapAll(DecodeDiscipline, cells[2..10]) == Ok(Disciplines(r.value))
              && r.value.pen == cells[10].text
              && r.value.total == cells[11].text
              && DecodeCarKind(cells[11].title) == Ok(r.value.kind)
  {
    if |cells| != 12 then Err(WrongCellCount(|cells|))
    else
      var countryName :- SplitCountryName(cells[0].title);
      var place :- DecodePlace(cells[1].text);
      DecodeScores(cells, countryName, place)
  }

  /** The second half of a row: the eight disciplines, then the car kind on the total cell. */
  function DecodeScores(cells: seq<Cell>, countryName: (string, string), place: nat): (r: Result<Team, Error>)
    requires |cells| == 12
    ensures r.Ok? <==> MapAll(DecodeDiscipline, cells[2..10]).Ok? && DecodeCarKind(cells[11].title).Ok?
    ensures r.Ok? ==>
              && (r.value.country, r.value.name) == countryName
              && r.value.place == place
              && MapAll(DecodeDiscipline, cells[2..10]) == Ok(Disciplines(r.value))
              && r.value.pen == cells[10].text
              && r.value.total == cells[11].text
              && DecodeCarKind(cells[11].title) == Ok(r.value.kind)
  {
    var ds :- MapAll(DecodeDiscipline, cells[2..10]);
    var kind :- DecodeCarKind(cells[11].title);
    Ok(MakeTeam(countryName.1, countryName.0, kind, place, ds, cells[10].text, cells[11].text))
  }

  /** A team whose eight disciplines, in column order, are `ds`. */
  function MakeTeam(name: string, country: string, kind: CarKind, place: nat,
                    ds: seq<Discipline>, pen: Number, total: Number): (t: Team)
    requires |ds| == 8
    ensures Disciplines(t) == ds
    ensures t.name == name && t.country == country && t.kind == kind && t.place == place
    ensures t.pen == pen && t.total == total
  {
    Team(name, country, kind, place, ds[0], ds[1], ds[2], ds[3], ds[4], ds[5], ds[6], ds[7], pen, total)
  }

  /** The rows that hold no header cell, in page order. */
  function DataRows(rows: seq<Row>): (r: seq<Row>)
    ensures |r| <= |rows|
    ensures forall x :: x in r <==> x in rows && !x.hasHeader
  {
    if |rows| == 0 then []
    else if rows[0].hasHeader then DataRows(rows[1..])
    else [rows[0]] + DataRows(rows[1..])
  }

  /** Filtering header rows keeps page order: it distributes over concatenation. */
  lemma {:induction false} DataRowsAppend(a: seq<Row>, b: seq<Row>)
    ensures DataRows(a + b) == DataRows(a) + DataRows(b)
  {
    if |a| == 0 {
      assert a + b == b;
    } else {
      assert (a + b)[1..] == a[1..] + b;
      DataRowsAppend(a[1..], b);
    }
  }

  /** The team a row decodes to. */
  function RowTeam(row: Row): (r: Result<Team, Error>) {
    DecodeRow(row.cells)
  }

  /**
   * The loop over the rows of the results table, in page order: a header
   * row is skipped, any other row is decoded by `decode` and its team
   * appended, and the first row that fails to decode aborts with its error.
   * It agrees with decoding the data rows one by one.
   */
  function DecodeTable(decode: Row -> Result<Team, Error>, rows: seq<Row>): (r: Result<seq<Team>, Error>)
    decreases |rows|
    ensures r == MapAll(decode, DataRows(rows))
  {
    if |rows| == 0 then Ok([])
    else if rows[0].hasHeader then DecodeTable(decode, rows[1..])
    else
      var team :- decode(rows[0]);
      var teams :- DecodeTable(decode, rows[1..]);
      assert DataRows(rows)[1..] == DataRows(rows[1..]);
      Ok([team] + teams)
  }

  /** The teams of a results table. */
  function DecodeRows(rows: seq<Row>): (r: Result<seq<Team>, Error>) {
    DecodeTable(RowTeam, rows)
  }

  /** Header rows contribute nothing, wherever they stand in the table. */
  lemma HeaderRowIgnored(before: seq<Row>, header: Row, after: seq<Row>)
    requires header.hasHeader
    ensures DataRows(before + [header] + after) == DataRows(before + after)
    ensures DecodeRows(before + [header] + after) == DecodeRows(before + after)
  {
    assert DataRows([header]) == [] by {
      assert [header][1..] == [];
    }
    calc {
      DataRows(before + [header] + after);
      { DataRowsAppend(before + [header], after); }
      DataRows(before + [header]) + DataRows(after);
      { DataRowsAppend(before, [header]); }
      DataRows(before) + DataRows([header]) + DataRows(after);
      DataRows(before) + DataRows(after);
      { DataRowsAppend(before, after); }
      DataRows(before + after);
    }
  }

  /**
   * The cells of a row for a team scored in no discipline: rank title
   * "country | name", the place followed by a dot, eight "-" cells, the
   * penalty, and the total titled with the car kind.
   */
  function UnscoredRow(country: string, name: string, place: string, kind: CarKind,
                       pen: string, total: string): (cells: seq<Cell>)
    ensures |cells| == 12
  {
    [Cell("", Some(country + " | " + name), []), Cell(place + ".", None, [])]
    + seq(8, i => Cell("-", None, []))
    + [Cell(pen, None, []), Cell(total, Some(CarKindTitle(kind)), [])]
  }

  /** Such a row decodes to a team with no placements and the row's own names, place and kind. */
  lemma UnscoredRowDecodes(country: string, name: string, place: string, kind: CarKind,
                           pen: string, total: string)
    requires JoinsCleanly(country)
    requires ParseNat(place).Some?
    ensures DecodeRow(UnscoredRow(country, name, place, kind, pen, total)) ==
            Ok(Team(name, country, kind, ParseNat(place).value,
                    None, None, None, None, None, None, None, None, pen, total))
  {
    var cells := UnscoredRow(country, name, place, kind, pen, total);
    var none: seq<Discipline> := [None, None, None, None, None, None, None, None];
    CountryNameRoundTrip(country, name);
    assert DecodePlace(cells[1].text) == Ok(ParseNat(place).value) by {
      assert cells[1].text == place + Dots(1);
      DecodePlaceDigitsDots(place, 1);
    }
    assert MapAll(DecodeDiscipline, cells[2..10]) == Ok(none) by {
      UnscoredCellsDecode(cells[2..10]);
      assert seq(8, i => None) == none;
    }
    CarKindRoundTrip(kind);
    var u := DecodeRow(cells).value;
    assert u.country == country && u.name == name && u.kind == kind;
    assert Disciplines(u) == none;
  }

  /** Cells that all show the not-scored mark decode to no placements at all. */
  lemma UnscoredCellsDecode(cs: seq<Cell>)
    requires forall i :: 0 <= i < |cs| ==> cs[i].text == "-"
    ensures MapAll(DecodeDiscipline, cs) == Ok(seq(|cs|, i => None))
  {
    assert IsNullMark("-");
    var ds := MapAll(DecodeDiscipline, cs);
    assert forall i :: 0 <= i < |cs| ==> DecodeDiscipline(cs[i]) == Ok(None);
    assert ds.Ok?;
    assert ds.value == seq(|cs|, i => None);
  }

  /** A place printed in decimal with the page's trailing dot decodes back to the place. */
  lemma PlaceTextDecodes(n: nat)
    ensures DecodePlace(ShowNat(n) + ".") == Ok(n)
  {
    assert ShowNat(n) + "." == ShowNat(n) + Dots(1);
    ParseShowNat(n);
    DecodePlaceDigitsDots(ShowNat(n), 1);
  }

  /**
   * The cell the page shows for a discipline: "-" when not scored, else the
   * place followed by a dot, with the score as the title of a child element.
   */
  function PlacementCell(d: Discipline): (c: Cell)
    ensures d.None? <==> c.text == "-"
  {
    match d
    case None => Cell("-", None, [])
    case Some(p) =>
      assert ShowNat(p.place)[0] != '-';
      Cell(ShowNat(p.place) + ".", None, [Cell("", Some(p.score), [])])
  }

  /** Every discipline cell decodes back to the discipline it shows. */
  lemma PlacementCellDecodes(d: Discipline)
    ensures DecodeDiscipline(PlacementCell(d)) == Ok(d)
  {
    if d.Some? {
      var c := PlacementCell(d);
      var digits := ShowNat(d.value.place);
      PlaceTextDecodes(d.value.place);
      assert !IsNullMark(c.text) by {
        assert c.text[0] == digits[0] != '-';
      }
      assert FindTitle(c.children) == Some(d.value.score);
    }
  }

  /**
   * The twelve cells the page shows for a team: the rank cell titled
   * "country | name", the place followed by a dot, the eight discipline
   * cells, the penalty, and the total titled with the car kind.
   */
  function EncodeRow(t: Team): (cells: seq<Cell>)
    ensures |cells| == 12
    ensures cells[0].title == Some(t.country + " | " + t.name)
    ensures cells[1].text == ShowNat(t.place) + "."
    ensures forall i :: 0 <= i < 8 ==> cells[i + 2] == PlacementCell(Disciplines(t)[i])
    ensures cells[10].text == t.pen
    ensures cells[11].text == t.total && cells[11].title == Some(CarKindTitle(t.kind))
  {
    [Cell("", Some(t.country + " | " + t.name), []), Cell(ShowNat(t.place) + ".", None, [])]
    + seq(8, i requires 0 <= i < 8 => PlacementCell(Disciplines(t)[i]))
    + [Cell(t.pen, None, []), Cell(t.total, Some(CarKindTitle(t.kind)), [])]
  }

  /** The eight discipline cells of a team decode to its eight disciplines. */
  lemma PlacementCellsDecode(t: Team)
    ensures MapAll(DecodeDiscipline, EncodeRow(t)[2..10]) == Ok(Disciplines(t))
  {
    var cs := EncodeRow(t)[2..10];
    var ds := Disciplines(t);
    forall i | 0 <= i < 8
      ensures DecodeDiscipline(cs[i]) == Ok(ds[i])
    {
      PlacementCellDecodes(ds[i]);
    }
    MapAllPointwise(DecodeDiscipline, cs, ds);
  }

  /**
   * Any team whose country joins cleanly is decoded back from the row the
   * page shows for it: decoding a row is the inverse of `EncodeRow`.
   */
  lemma RowRoundTrip(t: Team)
    requires JoinsCleanly(t.country)
    ensures DecodeRow(EncodeRow(t)) == Ok(t)
  {
    var cells := EncodeRow(t);
    CountryNameRoundTrip(t.country, t.name);
    PlaceTextDecodes(t.place);
    PlacementCellsDecode(t);
    CarKindRoundTrip(t.kind);
    var u := DecodeRow(cells).value;
    assert u.country == t.country && u.name == t.name && u.place == t.place && u.kind == t.kind;
    assert Disciplines(u) == Disciplines(t);
  }

  // ---------------------------------------------------------------------
  // Event pages
  // ---------------------------------------------------------------------

  /**
   * An event detail page: exactly one heading (the event name), a text after
   * it naming the event kind, and a results table whose data rows become
   * the event's teams.
   */
  function DecodeEvent(id: int, page: EventPage): (r: Result<Event, Error>)
    ensures |page.headings| != 1 ==> r == Err(HeadingCount(|page.headings|))
    ensures r.Ok? <==>
              && |page.headings| == 1
              && page.info.Some?
              && ClassifyEventKind(page.info.value).Ok?
              && page.table.Some?
              && DecodeRows(page.table.value).Ok?
    ensures r.Ok? ==>
              && r.value.id == id
              && r.value.name == page.headings[0]
              && ClassifyEventKind(page.info.value) == Ok(r.value.kind)
              && DecodeRows(page.table.value) == Ok(r.value.results)
              && |r.value.results| == |DataRows(page.table.value)|
  {
    if |page.headings| != 1 then Err(HeadingCount(|page.headings|))
    else if page.info.None? then Err(MissingEventInfo)
    else
      var kind :- ClassifyEventKind(page.info.value);
      if page.table.None? then Err(MissingResultsTable)
      else
        var teams :- DecodeRows(page.table.value);
        Ok(Event(id, kind, page.headings[0], teams))
  }

  // ---------------------------------------------------------------------
  // Pages from events
  // ---------------------------------------------------------------------

  /** The phrase a page uses to name an event kind. */
  function KindInfo(k: EventKind): (info: string) {
    match k
    case MixedEvent => "mixed event"
    case PureElectric => "pure electric"
    case PureCombustion => "pure combustion"
  }

  /** Each kind is classified back from its own phrase. */
  lemma KindInfoClassifies(k: EventKind)
    ensures ClassifyEventKind(KindInfo(k)) == Ok(k)
  {
    var text := KindInfo(k);
    KindInfoIsLower(k);
    match k
    case MixedEvent =>
      assert OccursAt(text, "mixed event", 0);
    case PureElectric =>
      MissingCharNotContained(text, "mixed event", 'x');
      assert OccursAt(text, "pure electric", 0);
    case PureCombustion =>
      MissingCharNotContained(text, "mixed event", 'x');
      MissingCharNotContained(text, "pure electric", 'l');
      assert OccursAt(text, "pure combustion", 0);
  }

  /** The phrases are already in lower case. */
  lemma KindInfoIsLower(k: EventKind)
    ensures Lower(KindInfo(k)) == KindInfo(k)
  {
    var text := KindInfo(k);
    forall i | 0 <= i < |text|
      ensures LowerChar(text[i]) == text[i]
    {
    }
  }

  /** A table without header rows is all data rows. */
  lemma {:induction false} DataRowsNoHeader(rows: seq<Row>)
    requires forall i :: 0 <= i < |rows| ==> !rows[i].hasHeader
    ensures DataRows(rows) == rows
  {
    if |rows| > 0 {
      DataRowsNoHeader(rows[1..]);
    }
  }

  /**
   * The page the site shows for an event: its name as the one heading, its
   * kind's phrase after it, and a results table with one row per team.
   */
  function EncodePage(e: Event): (page: EventPage)
    ensures page.headings == [e.name] && page.info == Some(KindInfo(e.kind))
    ensures page.table.Some? && |page.table.value| == |e.results|
    ensures forall i :: 0 <= i < |e.results| ==> page.table.value[i] == Row(false, EncodeRow(e.results[i]))
  {
    EventPage([e.name], Some(KindInfo(e.kind)),
              Some(seq(|e.results|, i requires 0 <= i < |e.results| => Row(false, EncodeRow(e.results[i])))))
  }

  /**
   * Any event whose teams' countries all join cleanly is decoded back from
   * the page that shows it: page decoding is the inverse of `EncodePage`.
   */
  lemma EventRoundTrip(e: Event)
    requires forall i :: 0 <= i < |e.results| ==> JoinsCleanly(e.results[i].country)
    ensures DecodeEvent(e.id, EncodePage(e)) == Ok(e)
  {
    var page := EncodePage(e);
    var rows := page.table.value;
    KindInfoClassifies(e.kind);
    DataRowsNoHeader(rows);
    forall i | 0 <= i < |rows|
      ensures RowTeam(rows[i]) == Ok(e.results[i])
    {
      RowRoundTrip(e.results[i]);
    }
    MapAllPointwise(RowTeam, rows, e.results);
    assert DecodeRows(rows) == Ok(e.results);
  }
}
