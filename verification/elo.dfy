/**
 * The fight predictor of the web application (app/logic.py): each boxer's
 * ranking metrics are folded into a synthetic rating, and the Elo formula
 * turns the two ratings into a winner, the winner's probability, a likely
 * method and the likelihood of a knockout.
 */
module Elo {
  import opened Wrappers
  import opened Schema

  /** `ELO_C`, the base of the logistic curve. */
  const EloC: real := 10.0
  /** `ELO_D`, the rating difference that multiplies the odds by `ELO_C`. */
  const EloD: real := 400.0

  /** The rating a boxer with no metrics row (or only null metrics) starts from. */
  const BaseRating: real := 1500.0
  /** The rating gap above which the predicted method is a knockout. */
  const KnockoutGap: real := 100.0

  /**
   * What `base ** x` must satisfy for the predictor's reasoning: positive,
   * strictly increasing, 1 at 0, `base` at 1, and `base ** x · base ** (−x) == 1`.
   * The floating-point power itself is not modelled; every property below
   * holds for any such function.
   */
  ghost predicate IsPowerOf(pow: real -> real, base: real) {
    && pow(0.0) == 1.0
    && pow(1.0) == base
    && (forall x :: pow(x) > 0.0)
    && (forall x, y :: x < y ==> pow(x) < pow(y))
    && (forall x, y :: x + y == 0.0 ==> pow(x) * pow(y) == 1.0)
  }

  /** `RankingMetrics.query.get(id)`: the metrics row whose primary key is `id`, if there is one. */
  function MetricsRow(metrics: seq<RankingMetrics>, id: nat): (r: Option<RankingMetrics>)
    ensures r.Some? ==> r.value in metrics && r.value.boxerId == id
    ensures r.None? <==> forall k :: 0 <= k < |metrics| ==> metrics[k].boxerId != id
  {
    if metrics == [] then None
    else if metrics[0].boxerId == id then Some(metrics[0])
    else MetricsRow(metrics[1..], id)
  }

  /**
   * The synthetic rating `1500 + 500·win_ratio + 250·ko_ratio + 5·(wins − losses)`,
   * where a missing row or a null column contributes 0.
   */
  function Rating(m: Option<RankingMetrics>): (r: real)
    ensures m.None? ==> r == BaseRating
    ensures m.Some? && m.value.winRatio.None? && m.value.koRatio.None? && m.value.wins.None? && m.value.losses.None? ==> r == BaseRating
    ensures m.Some? && m.value.winRatio.Some? && m.value.koRatio.Some? && m.value.wins.Some? && m.value.losses.Some?
            && 0.0 <= m.value.winRatio.value <= 1.0 && 0.0 <= m.value.koRatio.value <= 1.0 && m.value.wins.value >= m.value.losses.value
            ==> BaseRating <= r
  {
    var winRatio := if m.None? then 0.0 else m.value.winRatio.GetOr(0.0);
    var koRatio := if m.None? then 0.0 else m.value.koRatio.GetOr(0.0);
    var wins := if m.None? then 0 else m.value.wins.GetOr(0);
    var losses := if m.None? then 0 else m.value.losses.GetOr(0);
    BaseRating + 500.0 * winRatio + 250.0 * koRatio + 5.0 * (wins - losses) as real
  }

  /** Side A's win probability `1 / (1 + C^((r_b − r_a) / D))`. */
  function ProbA(ra: real, rb: real, pow: real -> real): (p: real)
    requires IsPowerOf(pow, EloC)
    ensures 0.0 < p < 1.0
  {
    var x := pow((rb - ra) / EloD);
    assert 1.0 < 1.0 + x;
    1.0 / (1.0 + x)
  }

  /** What `elo_winner` returns; the disparity string is kept as the number it prints. */
  datatype Prediction = Prediction(winnerId: nat, eloProb: real, winType: string, differential: real, probKo: real)

  /** Side A's probability is at least one half exactly when A's rating is at least B's. */
  lemma {:induction false} ProbAAtLeastHalf(ra: real, rb: real, pow: real -> real)
    requires IsPowerOf(pow, EloC)
    ensures ProbA(ra, rb, pow) >= 0.5 <==> ra >= rb
    ensures 0.0 < ProbA(ra, rb, pow) < 1.0
  {
    var d := (rb - ra) / EloD;
    assert d <= 0.0 <==> ra >= rb;
    if d < 0.0 {
      assert pow(d) < pow(0.0);
    } else if d > 0.0 {
      assert pow(0.0) < pow(d);
    }
    ShareOfOdds(pow(d));
  }

  /** `1 / (1 + p)` lies strictly between 0 and 1 for positive `p`, and reaches one half exactly when `p <= 1`. */
  lemma ShareOfOdds(p: real)
    requires p > 0.0
    ensures 0.0 < 1.0 / (1.0 + p) < 1.0
    ensures 1.0 / (1.0 + p) >= 0.5 <==> p <= 1.0
  {
    var q := 1.0 / (1.0 + p);
    assert q * (1.0 + p) == 1.0;
  }

  /**
   * `elo_winner` on the two boxers' ids and metrics rows: A wins iff its
   * probability reaches one half, the returned probability is the winner's,
   * and the method is a knockout (likelihood 0.7) iff the winner's rating
   * exceeds the loser's by more than 100, otherwise a decision (0.3).
   */
  function EloWinner(idA: nat, idB: nat, a: Option<RankingMetrics>, b: Option<RankingMetrics>, pow: real -> real): (p: Prediction)
    requires IsPowerOf(pow, EloC)
    ensures p.winnerId == (if Rating(a) >= Rating(b) then idA else idB)
    ensures 0.5 <= p.eloProb < 1.0
    ensures p.eloProb == (if Rating(a) >= Rating(b) then ProbA(Rating(a), Rating(b), pow) else 1.0 - ProbA(Rating(a), Rating(b), pow))
    ensures p.winType == "K.O." <==> Rating(a) - Rating(b) > KnockoutGap || Rating(b) - Rating(a) > KnockoutGap
    ensures p.winType == "K.O." || p.winType == "Decision"
    ensures p.probKo == (if p.winType == "K.O." then 0.7 else 0.3)
    ensures p.differential == Rating(a) - Rating(b)
  {
    var ra := Rating(a);
    var rb := Rating(b);
    var probA := ProbA(ra, rb, pow);
    var probB := 1.0 - probA;
    ProbAAtLeastHalf(ra, rb, pow);
    var winnerIsA := probA >= 0.5;
    var winnerId := if winnerIsA then idA else idB;
    var differential := ra - rb;
    if winnerIsA then
      if ra - rb > KnockoutGap then Prediction(winnerId, probA, "K.O.", differential, 0.7)
      else Prediction(winnerId, probA, "Decision", differential, 0.3)
    else
      if rb - ra > KnockoutGap then Prediction(winnerId, probB, "K.O.", differential, 0.7)
      else Prediction(winnerId, probB, "Decision", differential, 0.3)
  }

  /** The prediction for two stored boxers, reading each one's metrics row by id. */
  function Predict(metrics: seq<RankingMetrics>, idA: nat, idB: nat, pow: real -> real): (p: Prediction)
    requires IsPowerOf(pow, EloC)
    ensures (forall k :: 0 <= k < |metrics| ==> metrics[k].boxerId != idA && metrics[k].boxerId != idB) ==> p.winnerId == idA && p.winType == "Decision" && p.eloProb == 0.5
  {
    var a := MetricsRow(metrics, idA);
    var b := MetricsRow(metrics, idB);
    if a.None? && b.None? then
      EloTie(idA, idB, a, b, pow);
      EloWinner(idA, idB, a, b, pow)
    else EloWinner(idA, idB, a, b, pow)
  }

  /** Equal ratings (identical inputs in particular) give A, a decision at 0.3 and probability one half. */
  lemma {:induction false} EloTie(idA: nat, idB: nat, a: Option<RankingMetrics>, b: Option<RankingMetrics>, pow: real -> real)
    requires IsPowerOf(pow, EloC)
    requires Rating(a) == Rating(b)
    ensures var p := EloWinner(idA, idB, a, b, pow);
      p.winnerId == idA && p.winType == "Decision" && p.probKo == 0.3 && p.eloProb == 0.5 && p.differential == 0.0
  {
    assert (Rating(b) - Rating(a)) / EloD == 0.0;
  }

  /** `1/(1+x) + 1/(1+y) = 1` for reciprocal positive `x` and `y`. */
  lemma ComplementaryShares(x: real, y: real)
    requires x > 0.0 && y > 0.0 && x * y == 1.0
    ensures 1.0 / (1.0 + x) + 1.0 / (1.0 + y) == 1.0
  {
    var u, w := 1.0 / (1.0 + x), 1.0 / (1.0 + y);
    assert u * (1.0 + x) == 1.0;
    assert w * (1.0 + y) == 1.0;
    assert (x * u) * (1.0 + y) == x * u + u * (x * y);
    assert (x * u) * (1.0 + y) == 1.0;
    assert (w - x * u) * (1.0 + y) == 0.0;
    assert w == x * u;
  }

  /** The two sides' probabilities `P_A` and `P_B = 1 / (1 + C^((r_a − r_b) / D))` sum to one. */
  lemma ProbASwap(ra: real, rb: real, pow: real -> real)
    requires IsPowerOf(pow, EloC)
    ensures ProbA(ra, rb, pow) + ProbA(rb, ra, pow) == 1.0
  {
    OppositeShares(pow, (rb - ra) / EloD, (ra - rb) / EloD);
  }

  /** The shares `1/(1 + C^u)` and `1/(1 + C^(−u))` sum to one. */
  lemma OppositeShares(pow: real -> real, u: real, v: real)
    requires IsPowerOf(pow, EloC)
    requires u + v == 0.0
    ensures 1.0 / (1.0 + pow(u)) + 1.0 / (1.0 + pow(v)) == 1.0
  {
    ComplementaryShares(pow(u), pow(v));
  }

  /** `1/v < 1/u` for `0 < u < v`. */
  lemma ReciprocalDecreasing(u: real, v: real)
    requires 0.0 < u < v
    ensures 1.0 / v < 1.0 / u
  {
    var a, b := 1.0 / u, 1.0 / v;
    assert a * u == 1.0 && b * v == 1.0;
  }

  /**
   * Swapping the two sides does not change who is predicted to win, nor the
   * winner's probability or method, when the ratings differ; only the sign
   * of the disparity flips. On equal ratings side A wins whichever way
   * round the sides are passed (see `EloTie`).
   */
  lemma {:induction false} EloSwap(idA: nat, idB: nat, a: Option<RankingMetrics>, b: Option<RankingMetrics>, pow: real -> real)
    requires IsPowerOf(pow, EloC)
    requires Rating(a) != Rating(b)
    ensures var p, q := EloWinner(idA, idB, a, b, pow), EloWinner(idB, idA, b, a, pow);
      p.winnerId == q.winnerId && p.eloProb == q.eloProb && p.winType == q.winType
      && p.probKo == q.probKo && p.differential == -q.differential
  {
    ProbASwap(Rating(a), Rating(b), pow);
  }

  /** Raising A's rating (B's fixed) strictly raises A's win probability. */
  lemma {:induction false} ProbAIncreasing(ra1: real, ra2: real, rb: real, pow: real -> real)
    requires IsPowerOf(pow, EloC)
    requires ra1 < ra2
    ensures ProbA(ra1, rb, pow) < ProbA(ra2, rb, pow)
  {
    var x1, x2 := pow((rb - ra1) / EloD), pow((rb - ra2) / EloD);
    assert (rb - ra2) / EloD < (rb - ra1) / EloD;
    assert 0.0 < x2 < x1;
    ReciprocalDecreasing(1.0 + x2, 1.0 + x1);
  }
}
