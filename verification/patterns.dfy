/**
 * The regular expressions the profile parser applies to infobox values
 * (scraper/scraper.py, `parse_data`), each written as a "match at position i"
 * predicate plus the leftmost search `re.search` performs, and the per-field
 * readings built on them: height/reach in centimetres, stance, date of birth,
 * alias and display name.
 */
module Patterns {
  import opened Wrappers
  import opened Text

  /** The four patterns the infobox parser searches for. */
  datatype Pattern = Centimetres | Metres | StanceWord | ParenthesisedIsoDate

  /** `p` matches `s` starting at position `i`. */
  predicate MatchesAt(p: Pattern, s: string, i: nat)
    requires i <= |s|
  {
    match p
    case Centimetres => CmMatchAt(s, i).Some?
    case Metres => MetreMatchAt(s, i).Some?
    case StanceWord => StanceAt(s, i).Some?
    case ParenthesisedIsoDate => IsoAt(s, i)
  }

  /** The least position from `from` on at which `p` matches: the match `re.search` reports. */
  function Search(p: Pattern, s: string, from: nat): (r: Option<nat>)
    requires from <= |s| + 1
    decreases |s| + 1 - from
    ensures r.Some? ==> from <= r.value <= |s| && MatchesAt(p, s, r.value)
    ensures r.Some? ==> forall k :: from <= k < r.value ==> !MatchesAt(p, s, k)
    ensures r.None? <==> forall k :: from <= k <= |s| ==> !MatchesAt(p, s, k)
  {
    if from > |s| then None
    else if MatchesAt(p, s, from) then Some(from)
    else
      var rest := Search(p, s, from + 1);
      SearchSkip(p, s, from, rest);
      rest
  }

  /** Past a position where `p` does not match, the search from the next position answers for this one too. */
  lemma SearchSkip(p: Pattern, s: string, from: nat, rest: Option<nat>)
    requires from <= |s| && !MatchesAt(p, s, from)
    requires rest.Some? ==> from + 1 <= rest.value <= |s| && MatchesAt(p, s, rest.value)
    requires rest.Some? ==> forall k :: from + 1 <= k < rest.value ==> !MatchesAt(p, s, k)
    requires rest.None? <==> forall k :: from + 1 <= k <= |s| ==> !MatchesAt(p, s, k)
    ensures rest.Some? ==> forall k :: from <= k < rest.value ==> !MatchesAt(p, s, k)
    ensures rest.None? <==> forall k :: from <= k <= |s| ==> !MatchesAt(p, s, k)
  {
  }

  /** End of the greedy `\d+` run (or `\d*`) starting at `i`. */
  function DigitRunEnd(s: string, i: nat): (j: nat)
    requires i <= |s|
    ensures i <= j <= |s| && (j == |s| || !IsDigit(s[j]))
    ensures forall k :: i <= k < j ==> IsDigit(s[k])
    decreases |s| - i
  {
    if i < |s| && IsDigit(s[i]) then DigitRunEnd(s, i + 1) else i
  }

  /** End of the greedy `\s*` run starting at `i`. */
  function SpaceRunEnd(s: string, i: nat): (j: nat)
    requires i <= |s|
    ensures i <= j <= |s| && (j == |s| || !IsSpace(s[j]))
    ensures forall k :: i <= k < j ==> IsSpace(s[k])
    decreases |s| - i
  {
    if i < |s| && IsSpace(s[i]) then SpaceRunEnd(s, i + 1) else i
  }

  // ---------------------------------------------------------------------------
  // Height and reach: r'(\d+)\s*cm' first, then r'(\d+(?:\.\d+)?)\s*m'
  // ---------------------------------------------------------------------------

  /**
   * `(\d+)\s*cm` matched at `i`, giving the captured integer. Backtracking
   * never helps this pattern: a shorter digit run is followed by a digit,
   * which neither `\s` nor `c` accepts.
   */
  function CmMatchAt(s: string, i: nat): Option<nat>
    requires i <= |s|
  {
    if i < |s| && IsDigit(s[i]) then
      var j := DigitRunEnd(s, i);
      var k := SpaceRunEnd(s, j);
      if k + 1 < |s| && s[k] == 'c' && s[k + 1] == 'm' then Some(DigitsValue(s[i..j])) else None
    else None
  }

  /** `re.search(r'(\d+)\s*cm', s)` with `int(group(1))`. */
  function CmSearch(s: string): (r: Option<nat>)
    ensures r.None? <==> forall i :: 0 <= i <= |s| ==> CmMatchAt(s, i).None?
    ensures r.Some? ==> exists i :: 0 <= i <= |s| && CmMatchAt(s, i) == r && forall k :: 0 <= k < i ==> CmMatchAt(s, k).None?
  {
    assert forall i :: 0 <= i <= |s| ==> (MatchesAt(Centimetres, s, i) <==> CmMatchAt(s, i).Some?);
    match Search(Centimetres, s, 0)
    case Some(i) => CmMatchAt(s, i)
    case None =>
      None
  }

  /** A decimal number `whole[.fraction]` as the metre pattern captures it. */
  datatype Decimal = Decimal(whole: string, fraction: string)

  predicate ValidDecimal(d: Decimal) {
    d.whole != [] && AllDigits(d.whole) && AllDigits(d.fraction)
  }

  /**
   * `(\d+(?:\.\d+)?)\s*m` matched at `i`. When the optional fraction is
   * present but no `m` follows, the fraction-less alternative fails too,
   * because the character after the integer digits is then a `.`.
   */
  function MetreMatchAt(s: string, i: nat): (r: Option<Decimal>)
    requires i <= |s|
    ensures r.Some? ==> ValidDecimal(r.value)
  {
    if i < |s| && IsDigit(s[i]) then
      var j := DigitRunEnd(s, i);
      if j + 1 < |s| && s[j] == '.' && IsDigit(s[j + 1]) then
        var j2 := DigitRunEnd(s, j + 1);
        var k := SpaceRunEnd(s, j2);
        if k < |s| && s[k] == 'm' then Some(Decimal(s[i..j], s[j + 1..j2])) else None
      else
        var k := SpaceRunEnd(s, j);
        if k < |s| && s[k] == 'm' then Some(Decimal(s[i..j], [])) else None
    else None
  }

  /** `re.search(r'(\d+(?:\.\d+)?)\s*m', s)` with `group(1)`. */
  function MetreSearch(s: string): (r: Option<Decimal>)
    ensures r.None? <==> forall i :: 0 <= i <= |s| ==> MetreMatchAt(s, i).None?
    ensures r.Some? ==> ValidDecimal(r.value)
    ensures r.Some? ==> exists i :: 0 <= i <= |s| && MetreMatchAt(s, i) == r && forall k :: 0 <= k < i ==> MetreMatchAt(s, k).None?
  {
    assert forall i :: 0 <= i <= |s| ==> (MatchesAt(Metres, s, i) <==> MetreMatchAt(s, i).Some?);
    match Search(Metres, s, 0)
    case Some(i) => MetreMatchAt(s, i)
    case None =>
      None
  }

  /**
   * The integer nearest to `num / den`, ties to the even one (Python's
   * `round` on an exactly represented value).
   */
  function RoundHalfEven(num: nat, den: nat): (r: nat)
    requires den > 0
    ensures -(den as int) <= 2 * (r * den - num) <= den
    ensures 2 * (r * den - num) == den || 2 * (r * den - num) == -(den as int) ==> r % 2 == 0
  {
    var q := num / den;
    var rem := num % den;
    QuotientParts(num, den);
    if 2 * rem < den then q
    else if 2 * rem > den then q + 1
    else if q % 2 == 0 then q
    else q + 1
  }

  /** `num` is `q` whole `den`s plus a remainder below `den`, and `q + 1` of them exceed it by `den` minus that remainder. */
  lemma QuotientParts(num: nat, den: nat)
    requires den > 0
    ensures num == (num / den) * den + num % den && 0 <= num % den < den
    ensures (num / den + 1) * den - num == den - num % den
  {
    var q := num / den;
    assert (q + 1) * den == q * den + den;
  }

  /** `round(float(d) * 100)`, computed on the exact decimal. */
  function MetresToCm(d: Decimal): (cm: nat)
    requires ValidDecimal(d)
    ensures var exact := DigitsValue(d.whole + d.fraction) * 100;
            -(Pow10(|d.fraction|) as int) <= 2 * (cm * Pow10(|d.fraction|) - exact) <= Pow10(|d.fraction|)
  {
    DigitsValueAppend(d.whole, d.fraction);
    RoundHalfEven(DigitsValue(d.whole + d.fraction) * 100, Pow10(|d.fraction|))
  }

  /**
   * The centimetre reading of a Height or Reach value: a centimetre match
   * anywhere wins; otherwise a metre match is converted; otherwise nothing.
   */
  function LengthCm(s: string): (r: Option<nat>)
    ensures CmSearch(s).Some? ==> r == CmSearch(s)
    ensures CmSearch(s).None? && MetreSearch(s).Some? ==> r == Some(MetresToCm(MetreSearch(s).value))
    ensures r.None? <==> CmSearch(s).None? && MetreSearch(s).None?
  {
    match CmSearch(s)
    case Some(cm) => Some(cm)
    case None =>
      match MetreSearch(s)
      case Some(m) => Some(MetresToCm(m))
      case None => None
  }

  /** The greedy digit run from `i` ends at `i + n` when exactly the next `n` characters are digits. */
  lemma DigitRunOver(s: string, i: nat, n: nat)
    requires i + n <= |s| && forall k :: i <= k < i + n ==> IsDigit(s[k])
    requires i + n == |s| || !IsDigit(s[i + n])
    ensures DigitRunEnd(s, i) == i + n
  {
  }

  /** The greedy whitespace run from `i` ends at `i + n` when exactly the next `n` characters are whitespace. */
  lemma SpaceRunOver(s: string, i: nat, n: nat)
    requires i + n <= |s| && forall k :: i <= k < i + n ==> IsSpace(s[k])
    requires i + n == |s| || !IsSpace(s[i + n])
    ensures SpaceRunEnd(s, i) == i + n
  {
  }

  /** "183 cm" and every `<digits> cm...` reading: the centimetre figure is taken as it stands. */
  lemma {:induction false} CentimetreReading(d: string, rest: string)
    requires d != [] && AllDigits(d)
    ensures LengthCm(d + " cm" + rest) == Some(DigitsValue(d))
  {
    var s := d + " cm" + rest;
    var j := |d|;
    assert forall k :: 0 <= k < j ==> s[k] == d[k];
    assert s[j] == ' ' && s[j + 1] == 'c' && s[j + 2] == 'm';
    DigitRunOver(s, 0, j);
    SpaceRunOver(s, j, 1);
    assert s[..j] == d;
    assert CmMatchAt(s, 0) == Some(DigitsValue(d));
    CmSearchAtStart(s);
  }

  /** A centimetre match at the very start is the one `re.search` reports. */
  lemma CmSearchAtStart(s: string)
    requires CmMatchAt(s, 0).Some?
    ensures CmSearch(s) == CmMatchAt(s, 0)
  {
  }

  /** A string without the letter `c` has no centimetre match. */
  lemma NoCentimetresWithoutC(s: string)
    requires 'c' !in s
    ensures CmSearch(s).None?
  {
    forall i | 0 <= i <= |s|
      ensures CmMatchAt(s, i).None?
    {
      if i < |s| && IsDigit(s[i]) {
        var k := SpaceRunEnd(s, DigitRunEnd(s, i));
        assert k < |s| ==> s[k] != 'c';
      }
    }
  }

  /** A metre match at the very start is the one `re.search` reports. */
  lemma MetreSearchAtStart(s: string)
    requires MetreMatchAt(s, 0).Some?
    ensures MetreSearch(s) == MetreMatchAt(s, 0)
  {
  }

  /** `<digits>.<digits> m` is matched at its start with both digit runs captured. */
  lemma {:induction false} MetreMatchOfDecimal(w: string, f: string)
    requires w != [] && AllDigits(w) && f != [] && AllDigits(f)
    ensures MetreMatchAt(w + "." + f + " m", 0) == Some(Decimal(w, f))
  {
    var s := w + "." + f + " m";
    var j := |w|;
    var j2 := j + 1 + |f|;
    assert forall k :: 0 <= k < j ==> s[k] == w[k];
    assert forall k :: j + 1 <= k < j2 ==> s[k] == f[k - j - 1];
    assert s[j] == '.' && s[j2] == ' ' && s[j2 + 1] == 'm';
    MetreMatchAtParts(s, j, j2);
    assert s[..j] == w && s[j + 1..j2] == f;
  }

  /** A string laid out as digits, a point, digits, one space and `m` is matched at its start, capturing both digit runs. */
  lemma MetreMatchAtParts(s: string, j: nat, j2: nat)
    requires 0 < j && j + 1 < j2 && j2 + 2 == |s|
    requires forall k :: 0 <= k < j ==> IsDigit(s[k])
    requires forall k :: j + 1 <= k < j2 ==> IsDigit(s[k])
    requires s[j] == '.' && s[j2] == ' ' && s[j2 + 1] == 'm'
    ensures MetreMatchAt(s, 0) == Some(Decimal(s[..j], s[j + 1..j2]))
  {
    DigitRunOver(s, 0, j);
    DigitRunOver(s, j + 1, j2 - j - 1);
    SpaceRunOver(s, j2, 1);
    assert IsDigit(s[0]) && IsDigit(s[j + 1]);
  }

  /** "1.85 m" and every `<digits>.<digits> m` reading: round(metres × 100). */
  lemma {:induction false} MetreReading(w: string, f: string)
    requires w != [] && AllDigits(w) && f != [] && AllDigits(f)
    ensures LengthCm(w + "." + f + " m") == Some(MetresToCm(Decimal(w, f)))
  {
    var s := w + "." + f + " m";
    forall k | 0 <= k < |s| ensures s[k] != 'c' {
      if k < |w| { assert s[k] == w[k]; }
      else if |w| < k < |w| + 1 + |f| { assert s[k] == f[k - |w| - 1]; }
    }
    NoCentimetresWithoutC(s);
    MetreMatchOfDecimal(w, f);
    MetreSearchAtStart(s);
  }

  // ---------------------------------------------------------------------------
  // Stance: re.sub(r'\[\d+]', '', v).strip(), then
  //         re.search(r'\b(Orthodox|Southpaw|Switch)\b', ..., re.IGNORECASE)
  // ---------------------------------------------------------------------------

  /** The end of a footnote marker `[<digits>]` at the start of `s`, if there is one. */
  function FootnoteEnd(s: string): (r: Option<nat>)
    ensures r.Some? ==> 3 <= r.value <= |s| && s[0] == '['
  {
    if |s| >= 3 && s[0] == '[' && IsDigit(s[1]) then
      var j := DigitRunEnd(s, 1);
      if j < |s| && s[j] == ']' then Some(j + 1) else None
    else None
  }

  /** `re.sub(r'\[\d+]', '', s)`: markers found left to right, not overlapping, are dropped. */
  function RemoveFootnotes(s: string): (r: string)
    ensures |r| <= |s|
    ensures '[' !in s ==> r == s
    ensures forall c :: c in r ==> c in s
    decreases |s|
  {
    if s == [] then []
    else match FootnoteEnd(s)
      case Some(e) => RemoveFootnotes(s[e..])
      case None =>
        var rest := RemoveFootnotes(s[1..]);
        assert forall c :: c in rest ==> c in s[1..];
        [s[0]] + rest
  }

  /** Text in which no marker can start passes through unchanged in front of the rest. */
  lemma RemoveFootnotesKeepsPrefix(p: string, s: string)
    requires '[' !in p
    ensures RemoveFootnotes(p + s) == p + RemoveFootnotes(s)
  {
    var x := p + s;
    assert x[..|p|] == p && x[|p|..] == s;
    UnmarkedPrefix(x, |p|);
  }

  /** The first `n` characters of `x`, none of which is `[`, are kept as they are. */
  lemma {:induction false} UnmarkedPrefix(x: string, n: nat)
    requires n <= |x| && '[' !in x[..n]
    ensures RemoveFootnotes(x) == x[..n] + RemoveFootnotes(x[n..])
  {
    if n == 0 {
      assert x[..0] == [] && x[0..] == x;
    } else {
      AbsentFromShorterPrefix(x, n, '[');
      UnmarkedPrefix(x, n - 1);
      UnmarkedAt(x, n - 1);
      UnmarkedExtend(x, n, RemoveFootnotes(x), RemoveFootnotes(x[n - 1..]), RemoveFootnotes(x[n..]));
    }
  }

  /** The step of the induction above, from `n - 1` kept characters to `n`, for any kept remainders `a`, `b`, `c`. */
  lemma UnmarkedExtend(x: string, n: nat, a: string, b: string, c: string)
    requires 0 < n <= |x|
    requires a == x[..n - 1] + b && b == [x[n - 1]] + c
    ensures a == x[..n] + c
  {
    assert x[..n - 1] + [x[n - 1]] == x[..n];
  }

  /** The unmarked character at `i` is kept in front of what follows it. */
  lemma UnmarkedAt(x: string, i: nat)
    requires i < |x| && x[i] != '['
    ensures RemoveFootnotes(x[i..]) == [x[i]] + RemoveFootnotes(x[i + 1..])
  {
    var y := x[i..];
    assert y[0] == x[i] && y[1..] == x[i + 1..];
    UnmarkedStep(y);
  }

  /** A character missing from the first `n` characters is missing from the first `n - 1`, and is not the `n`th. */
  lemma AbsentFromShorterPrefix(x: string, n: nat, c: char)
    requires 0 < n <= |x| && c !in x[..n]
    ensures c !in x[..n - 1] && x[n - 1] != c
  {
    assert x[n - 1] == x[..n][n - 1];
    assert forall i :: 0 <= i < n - 1 ==> x[..n - 1][i] == x[..n][i];
  }

  /** A character that cannot open a marker is kept, in front of the rest. */
  lemma UnmarkedStep(s: string)
    requires s != [] && s[0] != '['
    ensures RemoveFootnotes(s) == [s[0]] + RemoveFootnotes(s[1..])
  {
    assert FootnoteEnd(s).None?;
  }

  /** A marker `[<digits>]` at the front is dropped, and the search goes on after it. */
  lemma RemoveFootnotesDropsMarker(d: string, s: string)
    requires d != [] && AllDigits(d)
    ensures RemoveFootnotes("[" + d + "]" + s) == RemoveFootnotes(s)
  {
    var m := "[" + d + "]" + s;
    assert m[1..1 + |d|] == d && m[1 + |d|] == ']';
    assert forall k :: 1 <= k < 1 + |d| ==> IsDigit(m[k]) by {
      forall k | 1 <= k < 1 + |d| ensures IsDigit(m[k]) { assert m[k] == d[k - 1]; }
    }
    var j := DigitRunEnd(m, 1);
    assert j == 1 + |d|;
    assert m[j + 1..] == s;
  }

  /** "Orthodox[1]" loses its marker. */
  lemma FootnoteExample()
    ensures RemoveFootnotes("Orthodox[1]") == "Orthodox"
  {
    RemoveFootnotesDropsMarker("1", "");
    assert "Orthodox[1]" == "Orthodox" + ("[" + "1" + "]" + "");
    RemoveFootnotesKeepsPrefix("Orthodox", "[" + "1" + "]" + "");
    assert "Orthodox" + [] == "Orthodox";
  }

  const StanceNames: seq<string> := ["Orthodox", "Southpaw", "Switch"]

  /** `w` occurs at `i` ignoring ASCII case, with a `\b` word boundary on both sides. */
  predicate WholeWordAt(s: string, w: string, i: nat) {
    && i + |w| <= |s|
    && Lower(s[i..i + |w|]) == Lower(w)
    && (i == 0 || !IsWordChar(s[i - 1]))
    && (i + |w| == |s| || !IsWordChar(s[i + |w|]))
  }

  /** The stance alternative matched at `i` (tried in source order), capitalised. */
  function StanceAt(s: string, i: nat): Option<string> {
    if WholeWordAt(s, "Orthodox", i) then Some(Capitalize(s[i..i + 8]))
    else if WholeWordAt(s, "Southpaw", i) then Some(Capitalize(s[i..i + 8]))
    else if WholeWordAt(s, "Switch", i) then Some(Capitalize(s[i..i + 6]))
    else None
  }

  /** A case variant of a capitalised ASCII word capitalises back to that word. */
  lemma CapitalizeCaseVariant(t: string, w: string)
    requires w != [] && 'A' <= w[0] <= 'Z' && forall k :: 1 <= k < |w| ==> 'a' <= w[k] <= 'z'
    requires Lower(t) == Lower(w)
    ensures Capitalize(t) == w
  {
    assert |t| == |w|;
    assert LowerChar(t[0]) == LowerChar(w[0]);
    var c := Capitalize(t);
    forall k | 0 <= k < |w| ensures c[k] == w[k] {
      if k > 0 {
        assert LowerChar(t[k]) == LowerChar(w[k]);
        assert c[k] == Lower(t[1..])[k - 1] == LowerChar(t[k]);
      }
    }
  }

  /** Whatever case the page uses, a stance match capitalises to one of the three canonical names. */
  lemma StanceAtIsCanonical(s: string, i: nat)
    ensures StanceAt(s, i).Some? ==> StanceAt(s, i).value in StanceNames
  {
    if WholeWordAt(s, "Orthodox", i) {
      CapitalizeCaseVariant(s[i..i + 8], "Orthodox");
    } else if WholeWordAt(s, "Southpaw", i) {
      CapitalizeCaseVariant(s[i..i + 8], "Southpaw");
    } else if WholeWordAt(s, "Switch", i) {
      CapitalizeCaseVariant(s[i..i + 6], "Switch");
    }
  }

  /** The stance text after footnote markers and surrounding whitespace are removed. */
  function StanceText(v: string): string {
    Strip(RemoveFootnotes(v))
  }

  /** The stance reading of a Stance value. */
  function ParseStance(v: string): (r: Option<string>)
    ensures r.Some? ==> r.value in StanceNames
    ensures r.None? <==> forall i :: 0 <= i <= |StanceText(v)| ==> StanceAt(StanceText(v), i).None?
    ensures r.Some? ==> exists i :: 0 <= i <= |StanceText(v)| && StanceAt(StanceText(v), i) == r
                                    && forall k :: 0 <= k < i ==> StanceAt(StanceText(v), k).None?
  {
    var t := StanceText(v);
    assert forall i :: 0 <= i <= |t| ==> (MatchesAt(StanceWord, t, i) <==> StanceAt(t, i).Some?);
    match Search(StanceWord, t, 0)
    case Some(i) =>
      StanceAtIsCanonical(t, i);
      StanceAt(t, i)
    case None =>
      None
  }

  /** A case variant of a stance name has no footnote and no surrounding whitespace to remove. */
  lemma BareWordText(t: string, w: string)
    requires w in StanceNames && Lower(t) == Lower(w)
    ensures StanceText(t) == t
  {
    assert |t| == |w|;
    forall k | 0 <= k < |t| ensures t[k] != '[' {
      assert Lower(t)[k] == LowerChar(w[k]);
    }
    assert Trimmed(t) by {
      assert LowerChar(t[0]) == LowerChar(w[0]) && LowerChar(t[|t| - 1]) == LowerChar(w[|w| - 1]);
    }
  }

  /** A case variant of a stance name matches that stance at its start. */
  lemma BareWordAt(t: string, w: string)
    requires w in StanceNames && Lower(t) == Lower(w)
    ensures StanceAt(t, 0) == Some(w)
  {
    assert |t| == |w|;
    assert t[0..|t|] == t;
    assert WholeWordAt(t, w, 0);
    if w == "Orthodox" {
      CapitalizeCaseVariant(t, "Orthodox");
    } else if w == "Southpaw" {
      assert !WholeWordAt(t, "Orthodox", 0) by { assert Lower(t)[0] == 's'; }
      CapitalizeCaseVariant(t, "Southpaw");
    } else {
      assert !WholeWordAt(t, "Orthodox", 0) by { assert Lower(t)[0] == 's'; }
      assert !WholeWordAt(t, "Southpaw", 0) by { assert |t| == 6; }
      CapitalizeCaseVariant(t, "Switch");
    }
  }

  /** A stance value naming one of the three stances in any letter case reads as that stance. */
  lemma {:induction false} StanceOfBareWord(t: string, w: string)
    requires w in StanceNames && Lower(t) == Lower(w)
    ensures ParseStance(t) == Some(w)
  {
    BareWordText(t, w);
    BareWordAt(t, w);
    var r := ParseStance(t);
    assert r.Some? by { assert StanceAt(StanceText(t), 0).Some?; }
    var i :| 0 <= i <= |t| && StanceAt(t, i) == r && forall k :: 0 <= k < i ==> StanceAt(t, k).None?;
    assert i == 0;
  }

  // ---------------------------------------------------------------------------
  // Date of birth: re.search(r'\((\d{4}-\d{2}-\d{2})\)', v).group(1)
  // ---------------------------------------------------------------------------

  /** `YYYY-MM-DD` as the pattern's digit counts demand (no calendar check). */
  predicate IsIsoShape(d: string) {
    && |d| == 10
    && AllDigits(d[..4]) && d[4] == '-' && AllDigits(d[5..7]) && d[7] == '-' && AllDigits(d[8..])
  }

  predicate IsoAt(s: string, i: nat) {
    i + 12 <= |s| && s[i] == '(' && IsIsoShape(s[i + 1..i + 11]) && s[i + 11] == ')'
  }

  /** The date of birth read from a Born value: the first parenthesised ISO date, without its parentheses. */
  function BirthDate(v: string): (r: Option<string>)
    ensures r.Some? ==> IsIsoShape(r.value) && Contains(v, "(" + r.value + ")")
    ensures r.None? <==> forall i :: 0 <= i <= |v| ==> !IsoAt(v, i)
    ensures r.Some? ==> exists i :: 0 <= i <= |v| && IsoAt(v, i) && r.value == v[i + 1..i + 11]
                                    && forall k :: 0 <= k < i ==> !IsoAt(v, k)
  {
    assert forall i :: 0 <= i <= |v| ==> (MatchesAt(ParenthesisedIsoDate, v, i) <==> IsoAt(v, i));
    match Search(ParenthesisedIsoDate, v, 0)
    case Some(i) =>
      assert v[i..i + 12] == "(" + v[i + 1..i + 11] + ")";
      assert OccursAt(v, "(" + v[i + 1..i + 11] + ")", i);
      Some(v[i + 1..i + 11])
    case None =>
      None
  }

  /** A Born value with one parenthesised ISO date and no earlier parenthesis yields that date. */
  lemma {:induction false} BirthDateOfBornValue(pre: string, iso: string, post: string)
    requires IsIsoShape(iso) && '(' !in pre
    ensures BirthDate(pre + "(" + iso + ")" + post) == Some(iso)
  {
    var v := pre + "(" + iso + ")" + post;
    var i := |pre|;
    assert v[i] == '(' && v[i + 1..i + 11] == iso && v[i + 11] == ')';
    assert IsoAt(v, i);
    forall k | 0 <= k < i ensures !IsoAt(v, k) {
      assert v[k] == pre[k];
    }
    var r := BirthDate(v);
    assert r.Some?;
    var j :| 0 <= j <= |v| && IsoAt(v, j) && r.value == v[j + 1..j + 11] && forall k :: 0 <= k < j ==> !IsoAt(v, k);
    assert !(j < i) && !(i < j);
  }

  // ---------------------------------------------------------------------------
  // Alias and name
  // ---------------------------------------------------------------------------

  /** `alias.replace('"', '').replace("'", '').strip()`. */
  function CleanAlias(raw: string): (r: string)
    ensures '"' !in r && '\'' !in r && Trimmed(r)
    ensures forall c :: c in r ==> c in raw
    ensures '"' !in raw && '\'' !in raw ==> r == Strip(raw)
  {
    Strip(RemoveChar(RemoveChar(raw, '"'), '\''))
  }

  /** A quoted nickname followed by more text: the quotes go, the words and the space between them stay. */
  lemma QuotedAlias(nick: string, rest: string)
    requires '"' !in nick && '\'' !in nick && '"' !in rest && '\'' !in rest
    ensures CleanAlias("\"" + nick + "\"" + rest) == Strip(nick + rest)
  {
    DropQuotes(nick, rest);
    var nr := nick + rest;
    assert '\'' !in nr by {
      forall k | 0 <= k < |nr| ensures nr[k] != '\'' {
        if k < |nick| { assert nr[k] == nick[k]; } else { assert nr[k] == rest[k - |nick|]; }
      }
    }
  }

  /** The two double quotes around a quote-free nickname are the only characters removed. */
  lemma DropQuotes(nick: string, rest: string)
    requires '"' !in nick && '"' !in rest
    ensures RemoveChar("\"" + nick + "\"" + rest, '"') == nick + rest
  {
    var q: string := "\"";
    RemoveCharAppend(q + nick + q, rest, '"');
    RemoveCharAppend(q + nick, q, '"');
    RemoveCharAppend(q, nick, '"');
    Reassemble(RemoveChar(q + nick + q + rest, '"'), RemoveChar(q + nick + q, '"'), RemoveChar(q + nick, '"'), nick, rest);
  }

  /** The sequence algebra of the proof above, for any parts. */
  lemma Reassemble(a: string, b: string, c: string, nick: string, rest: string)
    requires a == b + rest && b == c + [] && c == [] + nick
    ensures a == nick + rest
  {
  }

  /** `"Iron" Mike` gives `Iron Mike`. */
  lemma AliasExample()
    ensures CleanAlias("\"Iron\" Mike") == "Iron Mike"
  {
    var nick, rest := "Iron", " Mike";
    assert '"' !in nick && '\'' !in nick && '"' !in rest && '\'' !in rest;
    QuotedAlias(nick, rest);
    IronMikeSpelling();
    assert Trimmed("Iron Mike");
  }

  /** How the example alias is spelled out of its parts. */
  lemma IronMikeSpelling()
    ensures "\"Iron\" Mike" == "\"" + "Iron" + "\"" + " Mike"
    ensures "Iron" + " Mike" == "Iron Mike"
  {
  }

  const BoxerSuffix := " (boxer)"

  /** `title.replace(" (boxer)", "").strip()`. */
  function NameFromTitle(title: string): (r: string)
    ensures Trimmed(r)
  {
    Strip(ReplaceAll(title, BoxerSuffix, ""))
  }

  /** A page titled "<name> (boxer)" yields "<name>", when the name has no parenthesis of its own. */
  lemma {:induction false} DisambiguatedTitle(n: string)
    requires '(' !in n && Trimmed(n)
    ensures NameFromTitle(n + BoxerSuffix) == n
  {
    var s := n + BoxerSuffix;
    forall i: nat | i < |n| ensures !OccursAt(s, BoxerSuffix, i) {
      assert s[i + 1] != '(' by {
        if i + 1 < |n| { assert s[i + 1] == n[i + 1]; } else { assert s[i + 1] == ' '; }
      }
      assert i + |BoxerSuffix| <= |s| ==> s[i..i + |BoxerSuffix|][1] == s[i + 1];
    }
    ReplaceAllSkipsPrefix(s, |n|, BoxerSuffix, "");
    assert s[..|n|] == n && s[|n|..] == BoxerSuffix;
    assert ReplaceAll(BoxerSuffix, BoxerSuffix, "") == "" by {
      assert BoxerSuffix[..|BoxerSuffix|] == BoxerSuffix;
      assert BoxerSuffix[|BoxerSuffix|..] == [];
    }
    assert n + "" == n;
  }
}
