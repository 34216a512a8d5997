/**
 * The handful of Python string operations the scraper relies on: whitespace
 * stripping, ASCII case mapping, substring search, `str.replace`,
 * `str.split()[0]`, `int(...)` and `str(n)`.
 */
module Text {
  import opened Wrappers

  /** Python's `\d`, restricted to the ASCII digits. */
  predicate IsDigit(c: char) {
    '0' <= c <= '9'
  }

  /** The characters Python's `str.isspace()` (and so `strip()`, `split()` and regex `\s`) accepts. */
  predicate IsSpace(c: char) {
    var n := c as int;
    n == 0x20 || 0x09 <= n <= 0x0D || 0x1C <= n <= 0x1F || n == 0x85 || n == 0xA0 || n == 0x1680
    || 0x2000 <= n <= 0x200A || n == 0x2028 || n == 0x2029 || n == 0x202F || n == 0x205F || n == 0x3000
  }

  /** Python's regex `\w`, restricted to ASCII letters, digits and the underscore. */
  predicate IsWordChar(c: char) {
    IsDigit(c) || 'a' <= c <= 'z' || 'A' <= c <= 'Z' || c == '_'
  }

  predicate AllDigits(s: string) {
    forall i :: 0 <= i < |s| ==> IsDigit(s[i])
  }

  /** Neither end of `s` is whitespace. */
  predicate Trimmed(s: string) {
    s == [] || (!IsSpace(s[0]) && !IsSpace(s[|s| - 1]))
  }

  function LStrip(s: string): (r: string)
    ensures |r| <= |s|
    ensures r == [] || !IsSpace(r[0])
    ensures forall i :: 0 <= i < |s| - |r| ==> IsSpace(s[i])
  {
    if |s| > 0 && IsSpace(s[0]) then LStrip(s[1..]) else s
  }

  function RStrip(s: string): (r: string)
    ensures |r| <= |s|
    ensures r == [] || !IsSpace(r[|r| - 1])
    ensures forall i :: |r| <= i < |s| ==> IsSpace(s[i])
  {
    if |s| > 0 && IsSpace(s[|s| - 1]) then RStrip(s[..|s| - 1]) else s
  }

  /** `s.lstrip()` is a suffix of `s`. */
  lemma {:induction false} LStripIsSuffix(s: string)
    ensures LStrip(s) == s[|s| - |LStrip(s)|..]
  {
    if |s| > 0 && IsSpace(s[0]) {
      LStripIsSuffix(s[1..]);
    }
  }

  /** `s.rstrip()` is a prefix of `s`. */
  lemma {:induction false} RStripIsPrefix(s: string)
    ensures RStrip(s) == s[..|RStrip(s)|]
  {
    if |s| > 0 && IsSpace(s[|s| - 1]) {
      RStripIsPrefix(s[..|s| - 1]);
    }
  }

  /** Nothing but whitespace. */
  predicate Blank(s: string) {
    forall k :: 0 <= k < |s| ==> IsSpace(s[k])
  }

  /** Python's `str.strip()`: whitespace removed from both ends. */
  function Strip(s: string): (r: string)
    ensures Trimmed(r) && |r| <= |s|
    ensures Trimmed(s) ==> r == s
    ensures forall c :: c in r ==> c in s
  {
    var l := LStrip(s);
    var r := RStrip(l);
    LStripIsSuffix(s);
    RStripIsPrefix(l);
    assert r != [] ==> r[0] == l[0];
    assert forall c :: c in r ==> c in l;
    r
  }

  /**
   * What `str.strip()` keeps is the stretch of `s` that starts after the
   * leading whitespace, and what it drops before and after is all whitespace.
   */
  lemma StripKeepsInfix(s: string)
    ensures var a, r := |s| - |LStrip(s)|, Strip(s);
      && a + |r| <= |s| && r == s[a..a + |r|]
      && Blank(s[..a]) && Blank(s[a + |r|..])
  {
    var l := LStrip(s);
    LStripIsSuffix(s);
    RStripIsPrefix(l);
    assert Strip(s) == RStrip(l);
    TrimmedInfix(s, l, RStrip(l), |s| - |l|);
  }

  /** The slicing behind the lemma above: a blank-led suffix `l` of `s`, and a prefix `r` of `l` followed by blanks. */
  lemma TrimmedInfix(s: string, l: string, r: string, a: nat)
    requires a == |s| - |l| && l == s[a..] && |r| <= |l| && r == l[..|r|]
    requires forall i :: 0 <= i < a ==> IsSpace(s[i])
    requires forall i :: |r| <= i < |l| ==> IsSpace(l[i])
    ensures a + |r| <= |s| && r == s[a..a + |r|] && Blank(s[..a]) && Blank(s[a + |r|..])
  {
    assert s[a + |r|..] == l[|r|..];
  }

  function UpperChar(c: char): char {
    if 'a' <= c <= 'z' then (c as int - 32) as char else c
  }

  function LowerChar(c: char): char {
    if 'A' <= c <= 'Z' then (c as int + 32) as char else c
  }

  /** Python's `str.upper()` on ASCII letters; other characters are kept. */
  function Upper(s: string): (r: string)
    ensures |r| == |s| && forall i :: 0 <= i < |s| ==> r[i] == UpperChar(s[i])
  {
    seq(|s|, i requires 0 <= i < |s| => UpperChar(s[i]))
  }

  /** Python's `str.lower()` on ASCII letters; other characters are kept. */
  function Lower(s: string): (r: string)
    ensures |r| == |s| && forall i :: 0 <= i < |s| ==> r[i] == LowerChar(s[i])
  {
    seq(|s|, i requires 0 <= i < |s| => LowerChar(s[i]))
  }

  /** Python's `str.capitalize()`: first character upper case, the rest lower case. */
  function Capitalize(s: string): string {
    if s == [] then [] else [UpperChar(s[0])] + Lower(s[1..])
  }

  /** `s` with every occurrence of `c` removed (`s.replace(c, '')` for a single character). */
  function RemoveChar(s: string, c: char): (r: string)
    ensures c !in r && |r| <= |s|
    ensures forall x :: x in r ==> x in s
    ensures c !in s ==> r == s
  {
    if s == [] then [] else (if s[0] == c then [] else [s[0]]) + RemoveChar(s[1..], c)
  }

  /**
   * Removing a character from a concatenation removes it from each part, so
   * with the cases of one character (kept unless it is `c`) it removes exactly
   * the occurrences of `c` and keeps everything else in order.
   */
  lemma {:induction false} RemoveCharAppend(x: string, y: string, c: char)
    ensures RemoveChar(x + y, c) == RemoveChar(x, c) + RemoveChar(y, c)
    ensures RemoveChar([c], c) == []
  {
    if x != [] {
      var xy := x + y;
      assert xy[0] == x[0] && xy[1..] == x[1..] + y;
      RemoveCharAppend(x[1..], y, c);
      var h: string := if x[0] == c then [] else [x[0]];
      assert RemoveChar(xy, c) == h + RemoveChar(x[1..] + y, c);
      assert RemoveChar(x, c) == h + RemoveChar(x[1..], c);
      Regroup(RemoveChar(xy, c), h, RemoveChar(x[1..] + y, c), RemoveChar(x[1..], c), RemoveChar(y, c), RemoveChar(x, c));
    } else {
      assert x + y == y;
    }
    assert RemoveChar([c], c) == [] + RemoveChar([], c);
  }

  /** The regrouping in the proof above, for any parts. */
  lemma Regroup(a: string, h: string, b: string, c: string, d: string, e: string)
    requires a == h + b && b == c + d && e == h + c
    ensures a == e + d
  {
  }

  predicate OccursAt(s: string, p: string, i: nat) {
    i + |p| <= |s| && s[i..i + |p|] == p
  }

  /** Python's `p in s` for strings. */
  predicate Contains(s: string, p: string) {
    exists i: nat | i <= |s| :: OccursAt(s, p, i)
  }

  /**
   * Python's `s.replace(p, q)`: occurrences of `p` found from left to right,
   * none overlapping, are each replaced by `q`.
   */
  function ReplaceAll(s: string, p: string, q: string): string
    requires p != []
    decreases |s|
  {
    if |s| < |p| then s
    else if s[..|p|] == p then q + ReplaceAll(s[|p|..], p, q)
    else [s[0]] + ReplaceAll(s[1..], p, q)
  }

  /** Replacing leaves alone a prefix `s[..n]` in which no occurrence of `p` starts. */
  lemma {:induction false} ReplaceAllSkipsPrefix(s: string, n: nat, p: string, q: string)
    requires p != [] && n <= |s|
    requires forall i: nat :: i < n ==> !OccursAt(s, p, i)
    ensures ReplaceAll(s, p, q) == s[..n] + ReplaceAll(s[n..], p, q)
  {
    if n == 0 {
      assert s[..0] + ReplaceAll(s[0..], p, q) == ReplaceAll(s, p, q);
    } else {
      assert !OccursAt(s, p, 0);
      var t := s[1..];
      forall i: nat | i < n - 1
        ensures !OccursAt(t, p, i)
      {
        assert !OccursAt(s, p, i + 1);
        if i + |p| <= |t| {
          assert t[i..i + |p|] == s[i + 1..i + 1 + |p|];
        }
      }
      ReplaceAllSkipsPrefix(t, n - 1, p, q);
      assert t[n - 1..] == s[n..];
      assert [s[0]] + t[..n - 1] == s[..n];
    }
  }

  function NonSpaceRunEnd(s: string, i: nat): (j: nat)
    requires i <= |s|
    ensures i <= j <= |s| && (j == |s| || IsSpace(s[j]))
    ensures forall k :: i <= k < j ==> !IsSpace(s[k])
    decreases |s| - i
  {
    if i < |s| && !IsSpace(s[i]) then NonSpaceRunEnd(s, i + 1) else i
  }

  /**
   * Python's `s.split()[0]`: the leading run of non-whitespace once the
   * leading whitespace is skipped; None where Python raises IndexError (blank `s`).
   */
  function FirstToken(s: string): (r: Option<string>)
    ensures r.Some? ==> r.value != [] && forall k :: 0 <= k < |r.value| ==> !IsSpace(r.value[k])
    ensures r.Some? ==> var t := LStrip(s);
      |r.value| <= |t| && r.value == t[..|r.value|] && (|r.value| == |t| || IsSpace(t[|r.value|]))
    ensures r.None? <==> Blank(s)
  {
    var t := LStrip(s);
    LStripIsSuffix(s);
    if t == [] then None else Some(t[..NonSpaceRunEnd(t, 0)])
  }

  function DigitValue(c: char): nat
    requires IsDigit(c)
  {
    c as int - '0' as int
  }

  function DigitChar(d: nat): (c: char)
    requires d < 10
    ensures IsDigit(c) && DigitValue(c) == d
  {
    ('0' as int + d) as char
  }

  /** The number a non-empty run of decimal digits denotes (Python `int` on digits). */
  function DigitsValue(d: string): nat
    requires AllDigits(d)
  {
    if d == [] then 0 else DigitsValue(d[..|d| - 1]) * 10 + DigitValue(d[|d| - 1])
  }

  function Pow10(k: nat): (r: nat)
    ensures r >= 1
  {
    if k == 0 then 1 else 10 * Pow10(k - 1)
  }

  /** Shifting `x·p + y` one more decimal place. */
  lemma ShiftByOneDigit(x: int, p: int, y: int)
    ensures (x * p + y) * 10 == x * (10 * p) + y * 10
  {
  }

  /** The value of `a` followed by `b` is `a` shifted left by `|b|` digits plus `b`. */
  lemma {:induction false} DigitsValueAppend(a: string, b: string)
    requires AllDigits(a) && AllDigits(b)
    ensures AllDigits(a + b)
    ensures DigitsValue(a + b) == DigitsValue(a) * Pow10(|b|) + DigitsValue(b)
    decreases |b|
  {
    if b == [] {
      assert a + b == a;
    } else {
      var ab, b', last := a + b, b[..|b| - 1], b[|b| - 1];
      assert ab[..|ab| - 1] == a + b' && ab[|ab| - 1] == last;
      DigitsValueAppend(a, b');
      var x, y, p := DigitsValue(a), DigitsValue(b'), Pow10(|b'|);
      assert DigitsValue(ab) == (x * p + y) * 10 + DigitValue(last);
      ShiftByOneDigit(x, p, y);
      assert Pow10(|b|) == 10 * p && DigitsValue(b) == y * 10 + DigitValue(last);
    }
  }

  /** An optional sign followed by at least one digit: the text `int` accepts once stripped. */
  predicate IsIntLiteral(t: string) {
    || (t != [] && AllDigits(t))
    || (|t| > 1 && (t[0] == '-' || t[0] == '+') && AllDigits(t[1..]))
  }

  /**
   * Python's `int(s)` on a string: surrounding whitespace, an optional sign,
   * then at least one digit; None where Python raises ValueError.
   */
  function ParseInt(s: string): (r: Option<int>)
    ensures r.None? <==> !IsIntLiteral(Strip(s))
    ensures var t := Strip(s); t != [] && AllDigits(t) ==> r == Some(DigitsValue(t))
    ensures var t := Strip(s); |t| > 1 && t[0] == '+' && AllDigits(t[1..]) ==> r == Some(DigitsValue(t[1..]))
    ensures var t := Strip(s); |t| > 1 && t[0] == '-' && AllDigits(t[1..]) ==> r == Some(-(DigitsValue(t[1..]) as int))
  {
    var t := Strip(s);
    if t == [] then None
    else if t[0] == '-' || t[0] == '+' then
      (if |t| > 1 && AllDigits(t[1..]) then Some(if t[0] == '-' then -(DigitsValue(t[1..]) as int) else DigitsValue(t[1..]) as int) else None)
    else if AllDigits(t) then Some(DigitsValue(t))
    else None
  }

  /** Python's `str(n)` for a natural number. */
  function NatToString(n: nat): (r: string)
    ensures r != [] && AllDigits(r) && DigitsValue(r) == n
  {
    if n < 10 then [DigitChar(n)]
    else
      var r := NatToString(n / 10) + [DigitChar(n % 10)];
      assert r[..|r| - 1] == NatToString(n / 10);
      r
  }

  /** The last two characters of `str(n)`, for `n` of two digits or more, are the tens and units digits. */
  lemma LastTwoDigits(n: nat)
    requires n >= 10
    ensures var r := NatToString(n); |r| >= 2 && r[|r| - 2..] == [DigitChar((n / 10) % 10), DigitChar(n % 10)]
  {
    var m := n / 10;
    var h := NatToString(m);
    assert NatToString(n) == h + [DigitChar(n % 10)];
    assert h[|h| - 1] == DigitChar(m % 10) by {
      if m < 10 {
        assert m % 10 == m;
      }
    }
    var r := NatToString(n);
    assert r[|r| - 2..] == [h[|h| - 1], DigitChar(n % 10)];
  }
}
