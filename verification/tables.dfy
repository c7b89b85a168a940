/**
 * The tabular output: one row of 22 text fields per team in an event's
 * file, and one row of 4 fields per event in a series summary file. CSV
 * quoting and file I/O are not modelled; a row is its list of fields, and
 * an absent value (`None` in the source) is the empty field.
 */
module Tables {
  import opened Wrappers
  import opened Text
  import opened Model

  const EventColumns: seq<string> := [
    "name", "country", "kind", "place",
    "cost_place", "cost_score", "bp_place", "bp_score", "ed_place", "ed_score",
    "acc_place", "acc_score", "sp_place", "sp_score", "autox_place", "autox_score",
    "endu_place", "endu_score", "eff_place", "eff_score",
    "pen", "total"]

  const SummaryColumns: seq<string> := ["id", "kind", "name", "teams"]

  /** The place and score fields of one discipline; both empty when the team was not scored. */
  function PlacementFields(d: Discipline): (fs: seq<string>)
    ensures |fs| == 2
    ensures d.None? <==> fs[0] == ""
    ensures d.None? ==> fs[1] == ""
  {
    match d
    case None => ["", ""]
    case Some(p) => [ShowNat(p.place), p.score]
  }

  /** The place/score field pairs of several disciplines, in order. */
  function DisciplineFields(ds: seq<Discipline>): (fs: seq<string>)
    ensures |fs| == 2 * |ds|
    ensures forall k :: 0 <= k < |ds| ==> fs[2 * k..2 * k + 2] == PlacementFields(ds[k])
  {
    if |ds| == 0 then []
    else
      var rest := DisciplineFields(ds[1..]);
      var fs := PlacementFields(ds[0]) + rest;
      assert forall k :: 1 <= k < |ds| ==> fs[2 * k..2 * k + 2] == rest[2 * (k - 1)..2 * (k - 1) + 2];
      fs
  }

  /**
   * A team's row in its event's file: name, country, car kind name, place,
   * a place/score pair per discipline, penalty and total.
   */
  function TeamRow(t: Team): (row: seq<string>)
    ensures |row| == |EventColumns|
    ensures row[0] == t.name && row[1] == t.country && row[2] == CarKindName(t.kind)
    ensures ParseNat(row[3]) == Some(t.place)
    ensures forall k :: 0 <= k < 8 ==> (Disciplines(t)[k].None? <==> row[4 + 2 * k] == "")
    ensures forall k :: 0 <= k < 8 ==> Disciplines(t)[k].None? ==> row[5 + 2 * k] == ""
    ensures row[20] == t.pen && row[21] == t.total
  {
    ParseShowNat(t.place);
    var fs := DisciplineFields(Disciplines(t));
    var row := [t.name, t.country, CarKindName(t.kind), ShowNat(t.place)] + fs + [t.pen, t.total];
    assert forall k :: 0 <= k < 8 ==> row[4 + 2 * k] == fs[2 * k..2 * k + 2][0] && row[5 + 2 * k] == fs[2 * k..2 * k + 2][1];
    row
  }

  // ---------------------------------------------------------------------
  // Reading a team row back
  // ---------------------------------------------------------------------

  function ReadCarKind(s: string): (r: Option<CarKind>)
    ensures r.Some? ==> CarKindName(r.value) == s
  {
    if s == "ELECTRIC" then Some(ElectricCar)
    else if s == "COMBUSTION" then Some(CombustionCar)
    else if s == "OTHER" then Some(OtherCar)
    else None
  }

  /** A discipline from its two fields: both empty, or a decimal place and a score. */
  function ReadPlacement(place: string, score: string): (r: Option<Discipline>) {
    if place == "" then (if score == "" then Some(None) else None)
    else
      match ParseNat(place)
      case None => None
      case Some(p) => Some(Some(Placement(p, score)))
  }

  /** The team a 22-field row describes, if it is well formed. */
  function ReadTeamRow(row: seq<string>): (r: Option<Team>) {
    if |row| != |EventColumns| then None
    else
      match (ReadCarKind(row[2]), ParseNat(row[3]), ReadPlacements(row[4..20]))
      case (Some(kind), Some(place), Some(ds)) =>
        Some(Team(row[0], row[1], kind, place,
                  ds[0], ds[1], ds[2], ds[3], ds[4], ds[5], ds[6], ds[7],
                  row[20], row[21]))
      case _ => None
  }

  /** Consecutive place/score field pairs read as disciplines. */
  function ReadPlacements(fs: seq<string>): (r: Option<seq<Discipline>>)
    requires |fs| % 2 == 0
    ensures r.Some? ==> |r.value| == |fs| / 2
  {
    if |fs| == 0 then Some([])
    else
      match (ReadPlacement(fs[0], fs[1]), ReadPlacements(fs[2..]))
      case (Some(d), Some(ds)) => Some([d] + ds)
      case _ => None
  }

  lemma PlacementFieldsRoundTrip(d: Discipline)
    ensures ReadPlacement(PlacementFields(d)[0], PlacementFields(d)[1]) == Some(d)
  {
    if d.Some? {
      ParseShowNat(d.value.place);
    }
  }

  lemma {:induction false} DisciplineFieldsRoundTrip(ds: seq<Discipline>)
    ensures ReadPlacements(DisciplineFields(ds)) == Some(ds)
  {
    if |ds| > 0 {
      var fs := DisciplineFields(ds);
      assert fs == PlacementFields(ds[0]) + DisciplineFields(ds[1..]);
      assert fs[2..] == DisciplineFields(ds[1..]);
      PlacementFieldsRoundTrip(ds[0]);
      DisciplineFieldsRoundTrip(ds[1..]);
      assert [ds[0]] + ds[1..] == ds;
    }
  }

  /**
   * Reading a team's row back gives the same team: names, kind, place,
   * every placement (an empty pair is a team not scored) and the totals.
   */
  lemma TeamRowRoundTrip(t: Team)
    ensures ReadTeamRow(TeamRow(t)) == Some(t)
  {
    var row := TeamRow(t);
    var ds := Disciplines(t);
    assert row[4..20] == DisciplineFields(ds);
    DisciplineFieldsRoundTrip(ds);
    assert ReadCarKind(CarKindName(t.kind)) == Some(t.kind);
  }

  // ---------------------------------------------------------------------
  // Files
  // ---------------------------------------------------------------------

  /** An event's file: the header row, then one row per team in results order. */
  function EventFile(e: Event): (rows: seq<seq<string>>)
    ensures |rows| == |e.results| + 1 && rows[0] == EventColumns
    ensures forall i :: 0 <= i < |e.results| ==> ReadTeamRow(rows[i + 1]) == Some(e.results[i])
  {
    var rows := [EventColumns] + seq(|e.results|, i requires 0 <= i < |e.results| => TeamRow(e.results[i]));
    assert forall i :: 0 <= i < |e.results| ==> ReadTeamRow(rows[i + 1]) == Some(e.results[i]) by {
      forall i | 0 <= i < |e.results|
        ensures ReadTeamRow(rows[i + 1]) == Some(e.results[i])
      {
        TeamRowRoundTrip(e.results[i]);
      }
    }
    rows
  }

  /** An event's line in a series summary: id, event kind name, name, number of teams. */
  function SummaryRow(e: Event): (row: seq<string>)
    ensures |row| == |SummaryColumns|
    ensures ParseInt(row[0]) == Some(e.id)
    ensures row[1] == EventKindName(e.kind) && row[2] == e.name
    ensures ParseNat(row[3]) == Some(|e.results|)
  {
    ParseShowInt(e.id);
    ParseShowNat(|e.results|);
    [ShowInt(e.id), EventKindName(e.kind), e.name, ShowNat(|e.results|)]
  }

  /** A summary file: the header row, then one row per event in the given order. */
  function SummaryFile(events: seq<Event>): (rows: seq<seq<string>>)
    ensures |rows| == |events| + 1 && rows[0] == SummaryColumns
    ensures forall i :: 0 <= i < |events| ==>
              && |rows[i + 1]| == |SummaryColumns|
              && ParseInt(rows[i + 1][0]) == Some(events[i].id)
              && rows[i + 1][1] == EventKindName(events[i].kind)
              && rows[i + 1][2] == events[i].name
              && ParseNat(rows[i + 1][3]) == Some(|events[i].results|)
  {
    var rows := [SummaryColumns] + seq(|events|, i requires 0 <= i < |events| => SummaryRow(events[i]));
    assert forall i :: 0 <= i < |events| ==> rows[i + 1] == SummaryRow(events[i]);
    rows
  }
}
