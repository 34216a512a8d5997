/**
 * The rows the scraper writes (models.py): boxers, fights and ranking
 * metrics, with the nullable columns as options.
 */
module Schema {
  import opened Wrappers

  /** A calendar date as `parse_date` yields it; the time of day is not kept. */
  datatype Date = Date(year: nat, month: nat, day: nat)

  /** Chronological order, as Python compares datetimes. */
  predicate DateLe(a: Date, b: Date) {
    a.year < b.year || (a.year == b.year && (a.month < b.month || (a.month == b.month && a.day <= b.day)))
  }

  /** The canonical outcome methods the fights table accepts. */
  datatype Method = KO | TKO | Decision | Draw | DQ | NC

  /** The text stored in the `method` column for each canonical method. */
  function MethodName(m: Method): string {
    match m
    case KO => "KO"
    case TKO => "TKO"
    case Decision => "Decision"
    case Draw => "Draw"
    case DQ => "DQ"
    case NC => "NC"
  }

  /** A row of the `boxers` table (without its id, which is the key it is stored under). */
  datatype Boxer = Boxer(
    name: string,
    photo: Option<string>,
    alias: Option<string>,
    birthDate: Option<string>,
    stance: Option<string>,
    heightCm: Option<nat>,
    reachCm: Option<nat>,
    activeFrom: Option<Date>,
    activeTo: Option<Date>,
    era: Option<seq<string>>)

  /** A row of the `ranking_metrics` table; `boxerId` is its primary key. */
  datatype RankingMetrics = RankingMetrics(
    boxerId: nat,
    koRatio: Option<real>,
    winRatio: Option<real>,
    numOfFights: Option<int>,
    wins: Option<int>,
    winsByKo: Option<int>,
    winsByDecision: Option<int>,
    winsByDq: Option<int>,
    losses: Option<int>,
    lossesByKo: Option<int>,
    lossesByDecision: Option<int>,
    lossesByDq: Option<int>)

  /** A row of the `fights` table (without its id). */
  datatype Fight = Fight(
    date: Option<Date>,
    roundsCompleted: Option<string>,
    location: Option<string>,
    titleFight: bool,
    boxerAId: nat,
    boxerBId: Option<nat>,
    winnerId: Option<nat>,
    opponentName: Option<string>,
    winnerName: Option<string>,
    winMethod: Option<Method>)
}
