/** Rates as text: six decimals, without trailing zeros (`decimal_rate`). */
module RateText {

  import opened Text

  const MILLION := 1000000

  /**
   Whether a fraction that lies exactly between two millionths is rounded up. The script divides in
   binary floating point, so this depends on how the quotient is represented.
   */
  type Ties = (nat, nat) -> bool

  /** A fraction in millionths, rounded to the nearest. */
  function Millionths(ties: Ties, covered: nat, total: nat): (m: nat)
    requires total > 0
  {
    var q, rest := covered * MILLION / total, covered * MILLION % total;
    if 2 * rest > total || (2 * rest == total && ties(covered, total)) then q + 1 else q
  }

  /** The last `k` decimal digits of a number. */
  function Digits(k: nat, n: nat): (s: string)
    ensures |s| == k && forall c | c in s :: '0' <= c <= '9'
  {
    if k == 0 then "" else Digits(k - 1, n / 10) + [Digit(n % 10)]
  }

  /** The format with six decimals. */
  function Fixed(m: nat): (s: string) {
    Decimal(m / MILLION) + "." + Digits(6, m % MILLION)
  }

  function StripZeros(s: string): (r: string)
    ensures r == [] || r[|r| - 1] != '0'
    ensures r <= s
  {
    if s != [] && s[|s| - 1] == '0' then StripZeros(s[..|s| - 1]) else s
  }

  function StripPoint(s: string): (r: string) {
    if s != [] && s[|s| - 1] == '.' then s[..|s| - 1] else s
  }

  function DecimalRate(ties: Ties, covered: nat, total: nat): (s: string) {
    if total == 0 then "1" else StripPoint(StripZeros(Fixed(Millionths(ties, covered, total))))
  }

  // ----- the nearest number of millionths -----

  lemma DivMod(a: nat, t: nat)
    requires t > 0
    ensures a == (a / t) * t + a % t && 0 <= a % t < t
  {
  }

  lemma Next(q: nat, t: nat)
    ensures (q + 1) * t == q * t + t
  {
  }

  /** No number of millionths is nearer to the fraction. */
  lemma {:induction false} MillionthsAreNearest(ties: Ties, covered: nat, total: nat)
    requires total > 0
    ensures var m := Millionths(ties, covered, total);
            -(total as int) <= 2 * (m * total) - 2 * (covered * MILLION) <= total
  {
    var a := covered * MILLION;
    DivMod(a, total);
    Next(a / total, total);
  }

  // ----- the shortest text -----

  lemma {:induction false} StripZerosOfEnd(head: string, tail: string)
    requires head != [] && head[|head| - 1] != '0'
    ensures StripZeros(head + tail) == head + StripZeros(tail)
    decreases |tail|
  {
    if tail == [] {
      assert head + tail == head;
    } else {
      var s := head + tail;
      assert s[..|s| - 1] == head + tail[..|tail| - 1] && s[|s| - 1] == tail[|tail| - 1];
      if tail[|tail| - 1] == '0' {
        StripZerosOfEnd(head, tail[..|tail| - 1]);
      }
    }
  }

  /** Stripping a number with decimals leaves its whole part and the decimals up to the last that is not zero. */
  lemma {:induction false} StripsToShort(whole: string, decimals: string)
    requires '.' !in decimals
    ensures var short := StripZeros(decimals);
            StripPoint(StripZeros(whole + "." + decimals)) == whole + if short == [] then "" else "." + short
  {
    var head, short := whole + ".", StripZeros(decimals);
    StripZerosOfEnd(head, decimals);
    if short == [] {
      assert head + short == head && head[..|head| - 1] == whole && whole + "" == whole;
    } else {
      var s := head + short;
      assert s[|s| - 1] == short[|short| - 1] && short[|short| - 1] in decimals;
      assert s == whole + ("." + short);
    }
  }

  /** The decimals that are written. */
  function Decimals(m: nat): (s: string) { StripZeros(Digits(6, m % MILLION)) }

  /** The text for a number of millionths: no trailing zero among the decimals, and no point without decimals. */
  function Shortest(m: nat): (s: string) {
    Decimal(m / MILLION) + if Decimals(m) == [] then "" else "." + Decimals(m)
  }

  lemma {:induction false} RateIsShortest(ties: Ties, covered: nat, total: nat)
    requires total > 0
    ensures DecimalRate(ties, covered, total) == Shortest(Millionths(ties, covered, total))
  {
    var m := Millionths(ties, covered, total);
    StripsToShort(Decimal(m / MILLION), Digits(6, m % MILLION));
  }

  // ----- the number a text stands for -----

  /** The text before the point. */
  function WholePart(s: string): (w: string)
    ensures w <= s && '.' !in w && (|w| < |s| ==> s[|w|] == '.')
  {
    if s == [] || s[0] == '.' then [] else [s[0]] + WholePart(s[1..])
  }

  /** The text after the point, if there is one. */
  function DecimalPart(s: string): (d: string) {
    var w := WholePart(s);
    if |w| < |s| then s[|w| + 1..] else ""
  }

  /** A decimal number with at most six decimals, read in millionths. */
  ghost predicate StandsFor(s: string, m: int) {
    var w, d := WholePart(s), DecimalPart(s);
    && w != [] && |d| <= 6 && (forall c | c in w + d :: '0' <= c <= '9')
    && DecimalValue(w) * MILLION + DecimalValue(d) * Power10(6 - |d|) == m
  }

  /** A text tells a fraction to the nearest millionth; a fraction of nothing is one. */
  ghost predicate Tells(s: string, covered: nat, total: nat) {
    if total == 0 then s == "1"
    else exists m: nat :: StandsFor(s, m) && -(total as int) <= 2 * (m * total) - 2 * (covered * MILLION) <= total
  }

  lemma {:induction false} DigitsValue(k: nat, n: nat, bound: nat)
    requires bound == Power10(k) && n < bound
    ensures DecimalValue(Digits(k, n)) == n
  {
    if k > 0 {
      var s := Digits(k, n);
      assert s[..k - 1] == Digits(k - 1, n / 10) && s[k - 1] == Digit(n % 10);
      DigitsValue(k - 1, n / 10, bound / 10);
    }
  }

  /** A zero taken from the end of the decimals is a power of ten. */
  lemma {:induction false} StrippedValue(s: string)
    ensures var r := StripZeros(s);
            DecimalValue(s) == DecimalValue(r) * Power10(|s| - |r|)
  {
    if s != [] && s[|s| - 1] == '0' {
      var t := s[..|s| - 1];
      StrippedValue(t);
      var v, k := DecimalValue(StripZeros(t)), |t| - |StripZeros(t)|;
      assert DecimalValue(s) == 10 * (v * Power10(k));
      TimesTen(v, Power10(k));
    }
  }

  lemma TimesTen(v: int, p: nat)
    ensures 10 * (v * p) == v * (10 * p)
  {
  }

  lemma {:induction false} PartsOf(w: string, d: string)
    requires '.' !in w
    ensures var s := w + if d == [] then "" else "." + d;
            WholePart(s) == w && DecimalPart(s) == d
  {
    var rest := if d == [] then "" else "." + d;
    var s := w + rest;
    var u := WholePart(s);
    assert s == u + s[|u|..];
    CutAtFirst('.', w, rest, u, s[|u|..]);
    assert d == [] ==> s == w;
    assert d != [] ==> s[|w| + 1..] == d;
  }

  lemma {:induction false} DecimalsValue(m: nat)
    ensures |Decimals(m)| <= 6 && (forall c | c in Decimals(m) :: '0' <= c <= '9')
    ensures DecimalValue(Decimals(m)) * Power10(6 - |Decimals(m)|) == m % MILLION
  {
    var s := Digits(6, m % MILLION);
    SixDecimals();
    DigitsValue(6, m % MILLION, MILLION);
    StrippedValue(s);
    forall c | c in Decimals(m) ensures c in s {
    }
  }

  lemma SixDecimals()
    ensures Power10(6) == MILLION
  {
    assert Power10(2) == 100 && Power10(4) == 10000;
  }

  lemma {:induction false} ShortestStandsFor(m: nat)
    ensures StandsFor(Shortest(m), m)
  {
    var w, d := Decimal(m / MILLION), Decimals(m);
    DecimalRoundTrip(m / MILLION);
    DecimalsValue(m);
    PartsOf(w, d);
    DivMod(m, MILLION);
  }

  /** A rate read back as a decimal number is the fraction to the nearest millionth. */
  lemma {:induction false} RateStandsForFraction(ties: Ties, covered: nat, total: nat)
    ensures total > 0 ==> StandsFor(DecimalRate(ties, covered, total), Millionths(ties, covered, total))
    ensures Tells(DecimalRate(ties, covered, total), covered, total)
  {
    if total > 0 {
      RateIsShortest(ties, covered, total);
      ShortestStandsFor(Millionths(ties, covered, total));
      MillionthsAreNearest(ties, covered, total);
    }
  }

  // ----- the text determines the number -----

  lemma {:induction false} DigitsInjective(k: nat, m: nat, n: nat, bound: nat)
    requires Digits(k, m) == Digits(k, n) && bound == Power10(k) && m < bound && n < bound
    ensures m == n
  {
    if k > 0 {
      var a, b := Digits(k, m), Digits(k, n);
      assert a[..k - 1] == Digits(k - 1, m / 10) && b[..k - 1] == Digits(k - 1, n / 10);
      assert a[k - 1] == Digit(m % 10) && b[k - 1] == Digit(n % 10);
      DigitsInjective(k - 1, m / 10, n / 10, bound / 10);
    }
  }

  function Power10(k: nat): (p: nat) { if k == 0 then 1 else 10 * Power10(k - 1) }

  lemma {:induction false} StripZerosInjective(s: string, t: string)
    requires |s| == |t| && StripZeros(s) == StripZeros(t)
    ensures s == t
  {
    if s != [] {
      var a, b := s[..|s| - 1], t[..|t| - 1];
      assert s == a + [s[|s| - 1]] && t == b + [t[|t| - 1]];
      if s[|s| - 1] == '0' && t[|t| - 1] == '0' {
        StripZerosInjective(a, b);
      }
    }
  }

  lemma {:induction false} DecimalsInjective(m: nat, n: nat)
    requires Decimals(m) == Decimals(n)
    ensures m % MILLION == n % MILLION
  {
    StripZerosInjective(Digits(6, m % MILLION), Digits(6, n % MILLION));
    SixDecimals();
    DigitsInjective(6, m % MILLION, n % MILLION, MILLION);
  }

  /** Rates are written alike exactly if they are the same number of millionths. */
  lemma {:induction false} RateTextDetermines(ties: Ties, c: nat, t: nat, c': nat, t': nat)
    requires t > 0 && t' > 0
    ensures DecimalRate(ties, c, t) == DecimalRate(ties, c', t') <==> Millionths(ties, c, t) == Millionths(ties, c', t')
  {
    var m, n := Millionths(ties, c, t), Millionths(ties, c', t');
    RateIsShortest(ties, c, t);
    RateIsShortest(ties, c', t');
    if Shortest(m) == Shortest(n) {
      ShortestInjective(m, n);
    }
  }

  lemma {:induction false} ShortestInjective(m: nat, n: nat)
    requires Shortest(m) == Shortest(n)
    ensures m == n
  {
    var a, b := Decimal(m / MILLION), Decimal(n / MILLION);
    var x := if Decimals(m) == [] then "" else "." + Decimals(m);
    var y := if Decimals(n) == [] then "" else "." + Decimals(n);
    DecimalRoundTrip(m / MILLION);
    DecimalRoundTrip(n / MILLION);
    CutAtFirst('.', a, x, b, y);
    assert Decimals(m) == (if x == [] then [] else x[1..]) && Decimals(n) == (if y == [] then [] else y[1..]);
    DecimalInjective(m / MILLION, n / MILLION);
    DecimalsInjective(m, n);
  }

  lemma {:induction false} ZerosAreStripped(k: nat)
    ensures StripZeros(Digits(k, 0)) == []
  {
    if k > 0 {
      var s := Digits(k, 0);
      assert s[..|s| - 1] == Digits(k - 1, 0) && s[|s| - 1] == '0';
      ZerosAreStripped(k - 1);
    }
  }

  /** Everything covered is written as one and nothing covered as zero, with no decimals. */
  lemma {:induction false} WholeRates(ties: Ties, total: nat)
    ensures DecimalRate(ties, total, total) == "1"
    ensures total > 0 ==> DecimalRate(ties, 0, total) == "0"
  {
    if total > 0 {
      RateIsShortest(ties, total, total);
      RateIsShortest(ties, 0, total);
      DivMod(total * MILLION, total);
      AllOf(ties, total);
      ZerosAreStripped(6);
      assert Decimals(0) == [] && Decimals(MILLION) == [];
    }
  }

  lemma TimesLe(x: nat, y: nat, t: nat)
    requires x <= y
    ensures x * t <= y * t
  {
  }

  lemma {:induction false} DivExact(q: nat, t: nat)
    requires t > 0
    ensures q * t / t == q && q * t % t == 0
  {
    var d := q * t / t;
    DivMod(q * t, t);
    Next(d, t);
    Next(q, t);
    if d < q {
      TimesLe(d + 1, q, t);
    } else if q < d {
      TimesLe(q + 1, d, t);
    }
  }

  lemma AllOf(ties: Ties, total: nat)
    requires total > 0
    ensures Millionths(ties, total, total) == MILLION && Millionths(ties, 0, total) == 0
  {
    DivExact(MILLION, total);
    assert total * MILLION == MILLION * total;
  }
}
