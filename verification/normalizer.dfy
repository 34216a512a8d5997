/**
 * The value normalisations of scraper/scraper.py that need no page: decade
 * "era" labels, the outcome-method map and the zero-guarded ratios.
 */
module Normalizer {
  import opened Wrappers
  import opened Text
  import opened Schema

  // ---------------------------------------------------------------------------
  // Eras
  // ---------------------------------------------------------------------------

  /** The decade a year falls in: `(year // 10) * 10`. */
  function Decade(year: nat): (d: nat)
    ensures d <= year < d + 10 && d % 10 == 0
  {
    (year / 10) * 10
  }

  /** `str(decade)[-2:] + "s"`. */
  function DecadeLabel(decade: nat): string
  {
    var s := NatToString(decade);
    (if |s| >= 2 then s[|s| - 2..] else s) + "s"
  }

  /** Every era label is one or two digits followed by `s`. */
  lemma DecadeLabelShape(decade: nat)
    ensures var r := DecadeLabel(decade); 2 <= |r| <= 3 && r[|r| - 1] == 's'
  {
  }

  /** The label names the decade's tens digit and the digit after it, then `s`. */
  lemma DecadeLabelDigits(decade: nat)
    requires decade >= 10
    ensures DecadeLabel(decade) == [DigitChar((decade / 10) % 10), DigitChar(decade % 10), 's']
  {
    LastTwoDigits(decade);
  }

  /** Decades a century apart share a label: "00s" stands for both the 1900s and the 2000s. */
  lemma DecadeLabelRepeatsEveryCentury(decade: nat)
    requires decade >= 10
    ensures DecadeLabel(decade + 100) == DecadeLabel(decade)
  {
    DecadeLabelDigits(decade);
    DecadeLabelDigits(decade + 100);
    var t := decade / 10;
    assert (decade + 100) / 10 == t + 10;
    assert (t + 10) % 10 == t % 10;
    assert (decade + 100) % 10 == decade % 10;
  }

  /** The labels of the decades `from`, `from + 10`, ... up to `to` inclusive. */
  function Eras(from: nat, to: nat): (eras: seq<string>)
    ensures from > to ==> eras == []
    ensures from <= to ==> eras != [] && from + 10 * (|eras| - 1) <= to < from + 10 * |eras|
    ensures forall k :: 0 <= k < |eras| ==> eras[k] == DecadeLabel(from + 10 * k)
    decreases if from <= to then to - from + 1 else 0
  {
    if from > to then []
    else
      var rest := Eras(from + 10, to);
      var eras := [DecadeLabel(from)] + rest;
      ErasShift(from, rest, eras);
      eras
  }

  /** The labels from `from + 10` on, behind the label of `from`, are the labels from `from` on. */
  lemma ErasShift(from: nat, rest: seq<string>, eras: seq<string>)
    requires forall k :: 0 <= k < |rest| ==> rest[k] == DecadeLabel(from + 10 + 10 * k)
    requires eras == [DecadeLabel(from)] + rest
    ensures forall k :: 0 <= k < |eras| ==> eras[k] == DecadeLabel(from + 10 * k)
  {
    forall k | 0 <= k < |eras|
      ensures eras[k] == DecadeLabel(from + 10 * k)
    {
      if k > 0 {
        assert eras[k] == rest[k - 1];
        assert from + 10 + 10 * (k - 1) == from + 10 * k;
      }
    }
  }

  /**
   * `define_eras(start, end)`: walks the decades from the start year's to the
   * end year's in steps of ten, appending each label.
   */
  method DefineEras(startYear: nat, endYear: nat) returns (eras: seq<string>)
    ensures eras == Eras(Decade(startYear), Decade(endYear))
  {
    var start := Decade(startYear);
    var end := Decade(endYear);
    eras := [];
    var current := start;
    while current <= end
      invariant eras + Eras(current, end) == Eras(start, end)
      decreases if current <= end then end - current + 1 else 0
    {
      var decade := DecadeLabel(current);
      ErasFirst(current, end);
      eras := eras + [decade];
      current := current + 10;
    }
  }

  /** A non-empty run of decades starts with the first decade's label. */
  lemma ErasFirst(from: nat, to: nat)
    requires from <= to
    ensures Eras(from, to) == [DecadeLabel(from)] + Eras(from + 10, to)
  {
  }

  // ---------------------------------------------------------------------------
  // Outcome methods
  // ---------------------------------------------------------------------------

  /** `METHOD_MAPPING`: the raw codes of the Type column and the method each stands for. */
  const MethodMapping: map<string, Method> := map[
    "KO" := KO,
    "TKO" := TKO,
    "RTD" := TKO,
    "SD" := Decision,
    "UD" := Decision,
    "MD" := Decision,
    "PTS" := Decision,
    "DECISION" := Decision,
    "TD" := Decision,
    "DRAW" := Draw,
    "TECHNICAL DRAW" := Draw,
    "DQ" := DQ,
    "NC" := NC]

  /** The code a Type cell is looked up by: `fight_data.get('Type', '').strip().upper()`. */
  function MethodCode(typeCell: Option<string>): string {
    Upper(Strip(typeCell.GetOr("")))
  }

  /** The code looked up is already in canonical form: trimmed and upper case; a missing cell gives the empty code. */
  lemma MethodCodeIsCanonical(typeCell: Option<string>)
    ensures typeCell.None? ==> MethodCode(typeCell) == []
    ensures Trimmed(MethodCode(typeCell)) && Upper(MethodCode(typeCell)) == MethodCode(typeCell)
  {
    var u := MethodCode(typeCell);
    assert forall i :: 0 <= i < |u| ==> UpperChar(u[i]) == u[i];
  }

  /** The canonical method of a Type cell; None for a missing cell or an unknown code. */
  function NormaliseMethod(typeCell: Option<string>): (m: Option<Method>)
    ensures typeCell.None? ==> m.None?
    ensures m.Some? <==> MethodCode(typeCell) in MethodMapping
    ensures m.Some? ==> m.value == MethodMapping[MethodCode(typeCell)]
  {
    var code := MethodCode(typeCell);
    if code in MethodMapping then Some(MethodMapping[code]) else None
  }

  /** The code each canonical method is looked up by. */
  function CanonicalCode(m: Method): (code: string)
    ensures code in MethodMapping && MethodMapping[code] == m
  {
    match m
    case KO => "KO"
    case TKO => "TKO"
    case Decision => "DECISION"
    case Draw => "DRAW"
    case DQ => "DQ"
    case NC => "NC"
  }

  /** A canonical name has no surrounding whitespace and upper-cases to its code. */
  lemma NameUpperCasesToCode(m: Method)
    ensures Trimmed(MethodName(m)) && Upper(MethodName(m)) == CanonicalCode(m)
  {
  }

  /** A name already stored in the `method` column normalises to itself. */
  lemma CanonicalNameIsFixed(m: Method)
    ensures NormaliseMethod(Some(MethodName(m))) == Some(m)
  {
    NameUpperCasesToCode(m);
  }

  // ---------------------------------------------------------------------------
  // Ratios
  // ---------------------------------------------------------------------------

  datatype Ratios = Ratios(winRatio: real, koRatio: real)

  /**
   * `win_ratio` and `ko_ratio`: wins per fight and knockouts per win, both
   * 0.0 unless the fight and win counts are positive, so no division by zero.
   */
  function ComputeRatios(fights: int, wins: int, winsByKo: int): (r: Ratios)
    ensures fights > 0 && wins > 0 ==> r.winRatio * fights as real == wins as real && r.koRatio * wins as real == winsByKo as real
    ensures fights <= 0 || wins <= 0 ==> r == Ratios(0.0, 0.0)
  {
    if fights > 0 && wins > 0 then Ratios(wins as real / fights as real, winsByKo as real / wins as real)
    else Ratios(0.0, 0.0)
  }

  /** A consistent record (knockouts within wins within fights) gives ratios between 0 and 1. */
  lemma RatiosAreFractions(fights: int, wins: int, winsByKo: int)
    requires 0 <= winsByKo <= wins <= fights
    ensures var r := ComputeRatios(fights, wins, winsByKo); 0.0 <= r.winRatio <= 1.0 && 0.0 <= r.koRatio <= 1.0
  {
    if fights > 0 && wins > 0 {
      QuotientIsFraction(wins as real, fights as real);
      QuotientIsFraction(winsByKo as real, wins as real);
    }
  }

  /** A quotient of a part by a positive whole lies between 0 and 1. */
  lemma QuotientIsFraction(part: real, whole: real)
    requires 0.0 <= part <= whole && whole > 0.0
    ensures 0.0 <= part / whole <= 1.0
  {
    var q := part / whole;
    assert q * whole == part;
  }
}
