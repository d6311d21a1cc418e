/** Facts about strings that the encodings in this project rely on. */
module Text {

  /** Decimal digits of a number, most significant first. */
  function Decimal(n: nat): (s: string)
  {
    if n < 10 then [Digit(n)] else Decimal(n / 10) + [Digit(n % 10)]
  }

  function Digit(d: nat): (c: char)
    requires d < 10
    ensures '0' <= c <= '9'
  {
    (('0' as int) + d) as char
  }

  function DecimalValue(s: string): (n: int)
  {
    if s == [] then 0
    else DecimalValue(s[..|s| - 1]) * 10 + (s[|s| - 1] as int - '0' as int)
  }

  lemma {:induction false} DecimalRoundTrip(n: nat)
    ensures DecimalValue(Decimal(n)) == n
    ensures forall c | c in Decimal(n) :: '0' <= c <= '9'
    ensures |Decimal(n)| > 0
  {
    if n < 10 {
      var s := Decimal(n);
      assert s[..|s| - 1] == [];
    } else {
      DecimalRoundTrip(n / 10);
      var s := Decimal(n);
      assert s[..|s| - 1] == Decimal(n / 10);
    }
  }

  lemma DecimalInjective(m: nat, n: nat)
    requires Decimal(m) == Decimal(n)
    ensures m == n
  {
    DecimalRoundTrip(m);
    DecimalRoundTrip(n);
  }

  /** `rest` is empty or starts with the separator. */
  predicate StartsWithOrEmpty(rest: string, sep: char) {
    rest == [] || rest[0] == sep
  }

  /** Text cut at the first separator can be cut in one way only. */
  lemma {:induction false} CutAtFirst(sep: char, x: string, restX: string, y: string, restY: string)
    requires sep !in x && sep !in y
    requires StartsWithOrEmpty(restX, sep) && StartsWithOrEmpty(restY, sep)
    requires x + restX == y + restY
    ensures x == y && restX == restY
  {
    if x == [] || y == [] {
      assert x == [] ==> restX == y + restY;
      assert y == [] ==> restY == x + restX;
    } else {
      assert x[0] == (x + restX)[0] == (y + restY)[0] == y[0];
      assert x[1..] + restX == (x + restX)[1..] == (y + restY)[1..] == y[1..] + restY;
      CutAtFirst(sep, x[1..], restX, y[1..], restY);
    }
  }

  /** Text cut at the last separator can be cut in one way only. */
  lemma {:induction false} CutAtLast(sep: char, headX: string, x: string, headY: string, y: string)
    requires sep !in x && sep !in y
    requires headX + [sep] + x == headY + [sep] + y
    ensures headX == headY && x == y
  {
    if x == [] || y == [] {
      assert headX + [sep] + x == headX + ([sep] + x);
      assert x == [] ==> (headX + [sep] + x)[|headX| + |x|] == sep;
      assert y == [] ==> (headY + [sep] + y)[|headY| + |y|] == sep;
      assert (headX + [sep] + x)[..|headX|] == headX;
      assert (headY + [sep] + y)[..|headY|] == headY;
    } else {
      var whole := headX + [sep] + x;
      assert whole[..|whole| - 1] == headX + [sep] + x[..|x| - 1];
      assert (headY + [sep] + y)[..|whole| - 1] == headY + [sep] + y[..|y| - 1];
      assert x[|x| - 1] == whole[|whole| - 1] == y[|y| - 1];
      CutAtLast(sep, headX, x[..|x| - 1], headY, y[..|y| - 1]);
      assert x == x[..|x| - 1] + [x[|x| - 1]] && y == y[..|y| - 1] + [y[|y| - 1]];
    }
  }

  /** Two texts with equally long tails agree exactly when both parts agree. */
  lemma CutAtLength(x: string, tailX: string, y: string, tailY: string)
    requires |tailX| == |tailY|
    ensures x + tailX == y + tailY <==> x == y && tailX == tailY
  {
    if x + tailX == y + tailY {
      assert |x| == |y|;
      assert x == (x + tailX)[..|x|] == (y + tailY)[..|y|] == y;
      assert tailX == (x + tailX)[|x|..] == (y + tailY)[|y|..] == tailY;
    }
  }
}
