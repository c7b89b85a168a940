/**
 * The records the scraper builds from a results page: per-discipline
 * placements, teams and events, the two kind enumerations, and the errors
 * that abort a run.
 */
module Model {
  import opened Wrappers

  /**
   * A numeric value exactly as the page shows it (a score in a tooltip, a
   * penalty or total in a cell). The source converts these with `float()`;
   * the model keeps the text.
   */
  type Number = string

  datatype CarKind = ElectricCar | CombustionCar | OtherCar

  datatype EventKind = PureElectric | PureCombustion | MixedEvent

  /** A team's rank and score in one discipline. */
  datatype Placement = Placement(place: nat, score: Number)

  /** A placement, or `None` when the team was not scored in the discipline. */
  type Discipline = Option<Placement>

  datatype Team = Team(
    name: string,
    country: string,
    kind: CarKind,
    place: nat,
    cost: Discipline,
    bp: Discipline,
    ed: Discipline,
    acc: Discipline,
    sp: Discipline,
    autox: Discipline,
    endu: Discipline,
    eff: Discipline,
    pen: Number,
    total: Number)

  /** The eight disciplines of a team, in the order of the results table's columns. */
  function Disciplines(t: Team): (ds: seq<Discipline>)
    ensures |ds| == 8
  {
    [t.cost, t.bp, t.ed, t.acc, t.sp, t.autox, t.endu, t.eff]
  }

  /** One competition; `results` holds the teams in the order the page lists them. */
  datatype Event = Event(id: int, kind: EventKind, name: string, results: seq<Team>)

  /** Every way decoding a page can fail; each one aborts the run. */
  datatype Error =
    | BadPlace(text: string)           // a place cell whose text is not an integer
    | MissingTooltip                   // a scored discipline cell with no titled descendant
    | WrongCellCount(count: nat)       // a data row without exactly 12 cells
    | MissingTitle                     // the rank or total cell has no `title`
    | MissingDelimiter(title: string)  // a rank title without " | "
    | UnknownCarKind(title: string)    // a total-cell title that names no car kind
    | HeadingCount(count: nat)         // not exactly one event heading
    | MissingEventInfo                 // nothing follows the event heading
    | UnknownEventKind(info: string)   // the text after the heading names no event kind
    | MissingResultsTable              // no results anchor or no table after it

  /** The name Python's `Enum` gives each car kind (written to the CSV files). */
  function CarKindName(k: CarKind): (s: string) {
    match k
    case ElectricCar => "ELECTRIC"
    case CombustionCar => "COMBUSTION"
    case OtherCar => "OTHER"
  }

  /** The `title` the results page puts on a team's total cell for each car kind. */
  function CarKindTitle(k: CarKind): (s: string) {
    match k
    case ElectricCar => "electric"
    case CombustionCar => "combustion"
    case OtherCar => "other"
  }

  function EventKindName(k: EventKind): (s: string) {
    match k
    case PureElectric => "ELECTRIC"
    case PureCombustion => "COMBUSTION"
    case MixedEvent => "MIXED"
  }
}
