/**
 Printing a binary floating-point number exactly. A finite binary64 (section 3.3 of IEEE 754-2019)
 is m / 2^k; the results hold for every such fraction in lowest terms, whatever its size.
 */
module ExactFloats {
  import opened Strings

  // --- arithmetic, kept behind names ----------------------------------------------------------

  function Times(a: nat, b: nat): nat {
    a * b
  }

  function Quotient(a: nat, b: nat): nat
    requires b > 0
  {
    a / b
  }

  function Remainder(a: nat, b: nat): (r: nat)
    requires b > 0
    ensures r < b
  {
    a % b
  }

  function Pow(b: nat, k: nat): (r: nat)
    ensures b > 0 ==> r > 0
  {
    if k == 0 then 1 else assert b > 0 && Pow(b, k - 1) > 0 ==> b * Pow(b, k - 1) > 0; Times(b, Pow(b, k - 1))
  }

  lemma TimesLaws(a: nat, b: nat, c: nat)
    ensures Times(a, b) == Times(b, a)
    ensures Times(Times(a, b), c) == Times(a, Times(b, c))
    ensures Times(a + b, c) == Times(a, c) + Times(b, c)
  {
  }

  lemma TimesLess(a: nat, b: nat, c: nat)
    requires a < b && c > 0
    ensures Times(a, c) < Times(b, c)
  {
  }

  lemma Cancel(a: nat, b: nat, c: nat)
    requires Times(a, c) == Times(b, c) && c > 0
    ensures a == b
  {
  }

  lemma DividedBack(a: nat, b: nat)
    requires b > 0
    ensures a == Times(Quotient(a, b), b) + Remainder(a, b)
  {
  }

  /** Quotient and remainder are the only ones there are. */
  lemma DivisionUnique(q: nat, r: nat, b: nat)
    requires r < b
    ensures Quotient(Times(q, b) + r, b) == q && Remainder(Times(q, b) + r, b) == r
  {
    hide Times, Quotient, Remainder;
    var a := Times(q, b) + r;
    var q', r' := Quotient(a, b), Remainder(a, b);
    DividedBack(a, b);
    if q < q' {
      TimesApart(q, q', b);
    } else if q' < q {
      TimesApart(q', q, b);
    }
  }

  lemma TimesApart(a: nat, b: nat, c: nat)
    requires a < b
    ensures Times(a, c) + c <= Times(b, c)
  {
    assert (a + 1) * c == a * c + c;
    assert (a + 1) * c <= b * c;
  }

  lemma DoubleTimes(x: nat, b: nat)
    ensures Times(2 * x, b) == 2 * Times(x, b)
    ensures Times(2 * x + 1, b) == 2 * Times(x, b) + b
  {
  }

  lemma Parity(a: nat, b: nat)
    ensures Times(a, b) % 2 == 1 <==> a % 2 == 1 && b % 2 == 1
  {
    hide Times;
    DoubleTimes(a / 2, b);
    assert a == 2 * (a / 2) || a == 2 * (a / 2) + 1;
  }

  lemma {:induction false} PowTen(k: nat)
    ensures Pow(10, k) == Times(Pow(2, k), Pow(5, k))
    decreases k
  {
    if k > 0 {
      PowTen(k - 1);
      var a, b := Pow(2, k - 1), Pow(5, k - 1);
      assert 10 * (a * b) == (2 * a) * (5 * b);
    }
  }

  lemma {:induction false} PowAdd(b: nat, i: nat, j: nat)
    ensures Pow(b, i + j) == Times(Pow(b, i), Pow(b, j))
    decreases i
  {
    if i > 0 {
      PowAdd(b, i - 1, j);
      TimesLaws(b, Pow(b, i - 1), Pow(b, j));
    }
  }

  lemma {:induction false} PowFiveOdd(k: nat)
    ensures Pow(5, k) % 2 == 1
    decreases k
  {
    if k > 0 {
      PowFiveOdd(k - 1);
      Parity(5, Pow(5, k - 1));
    }
  }

  lemma PowTwoEven(k: nat)
    requires k > 0
    ensures Pow(2, k) % 2 == 0
  {
  }

  // --- printing -------------------------------------------------------------------------------

  function Digit(d: nat): (c: char)
    requires d < 10
    ensures IsDigit(c) && c as int - '0' as int == d
  {
    '0' + d as char
  }

  /** The decimal digits of a number, with no leading zero. */
  function Digits(n: nat): string {
    if n < 10 then [Digit(n)] else Digits(n / 10) + [Digit(n % 10)]
  }

  /** The last `k` decimal digits of a number, zeros in front. */
  function Padded(n: nat, k: nat): string {
    if k == 0 then "" else Padded(n / 10, k - 1) + [Digit(n % 10)]
  }

  function Magnitude(m: int): nat {
    if m < 0 then -m else m
  }

  function Sign(m: int): string {
    if m < 0 then "-" else ""
  }

  /** A fraction printed with `places` digits after the point, rounded half away from zero. */
  function FloatString(m: int, den: nat, places: nat): string
    requires den > 0
  {
    var n, p := Magnitude(m), Pow(10, places);
    var scaled := Times(Remainder(n, den), p);
    var up := if 2 * Remainder(scaled, den) >= den then Quotient(scaled, den) + 1 else Quotient(scaled, den);
    var whole := Quotient(n, den);
    Sign(m) + Digits(if up >= p then whole + 1 else whole) +
    (if places > 0 then "." + Padded(if up >= p then up - p else up, places) else "")
  }

  function TrimZeros(s: string): string {
    if s != "" && s[|s| - 1] == '0' then TrimZeros(s[..|s| - 1]) else s
  }

  function TrimPoint(s: string): string {
    if s != "" && s[|s| - 1] == '.' then s[..|s| - 1] else s
  }

  /** The number m / 2^k, k zero for an integer and m odd otherwise: every binary fraction, once. */
  predicate LowestTerms(m: int, k: nat) {
    k > 0 ==> m % 2 != 0
  }

  /** As many places as the denominator has factors of two, and trailing zeros trimmed. */
  function ExactFloat(m: int, k: nat): string {
    if k == 0 then Sign(m) + Digits(Magnitude(m))
    else TrimPoint(TrimZeros(FloatString(m, Pow(2, k), k)))
  }

  // --- what a decimal numeral denotes ---------------------------------------------------------

  predicate AllDigits(s: string) {
    forall c :: c in s ==> IsDigit(c)
  }

  /** A numeral: a sign, digits, and possibly a point and more digits. */
  datatype Numeral = Numeral(negative: bool, whole: string, fraction: string)

  predicate Valid(d: Numeral) {
    d.whole != "" && AllDigits(d.whole) && AllDigits(d.fraction)
  }

  /** The numeral without its sign, times 10^|fraction|. */
  function Scaled(d: Numeral): nat
    requires Valid(d)
  {
    Times(DigitsValue(d.whole), Pow(10, |d.fraction|)) + DigitsValue(d.fraction)
  }

  function Spell(d: Numeral): string {
    (if d.negative then "-" else "") + d.whole + (if d.fraction != "" then "." + d.fraction else "")
  }

  /** The numeral is exactly m / 2^k. */
  predicate Denotes(d: Numeral, m: int, k: nat)
    requires Valid(d)
  {
    && (m != 0 ==> d.negative == (m < 0))
    && Times(Scaled(d), Pow(2, k)) == Times(Magnitude(m), Pow(10, |d.fraction|))
  }

  lemma DigitsSnoc(s: string, c: char)
    requires AllDigits(s) && IsDigit(c)
    ensures AllDigits(s + [c])
    ensures DigitsValue(s + [c]) == 10 * DigitsValue(s) + (c as int - '0' as int)
  {
  }

  lemma {:induction false} DigitsRead(n: nat)
    ensures Digits(n) != "" && AllDigits(Digits(n)) && DigitsValue(Digits(n)) == n
    decreases n
  {
    if n < 10 {
      DigitsSnoc("", Digit(n));
      assert "" + [Digit(n)] == [Digit(n)];
    } else {
      DigitsRead(n / 10);
      DigitsSnoc(Digits(n / 10), Digit(n % 10));
    }
  }

  lemma {:induction false} PaddedRead(n: nat, k: nat)
    requires n < Pow(10, k)
    ensures |Padded(n, k)| == k && AllDigits(Padded(n, k)) && DigitsValue(Padded(n, k)) == n
    ensures k > 0 ==> Padded(n, k)[k - 1] == Digit(n % 10)
    decreases k
  {
    if k > 0 {
      assert n / 10 < Pow(10, k - 1);
      PaddedRead(n / 10, k - 1);
      DigitsSnoc(Padded(n / 10, k - 1), Digit(n % 10));
    }
  }

  // --- exactness ------------------------------------------------------------------------------

  /** The k fractional digits, as a number. */
  function Tail(m: int, k: nat): nat {
    Times(Remainder(Magnitude(m), Pow(2, k)), Pow(5, k))
  }

  function Printed(m: int, k: nat): Numeral {
    Numeral(m < 0, Digits(Quotient(Magnitude(m), Pow(2, k))), Padded(Tail(m, k), k))
  }

  lemma TailFits(m: int, k: nat)
    ensures Tail(m, k) < Pow(10, k)
    ensures Times(Tail(m, k), Pow(2, k)) == Times(Remainder(Magnitude(m), Pow(2, k)), Pow(10, k))
  {
    hide Times, Remainder, Pow;
    var rest, den, five := Remainder(Magnitude(m), Pow(2, k)), Pow(2, k), Pow(5, k);
    PowTen(k);
    TimesLess(rest, den, five);
    TimesLaws(rest, five, den);
    TimesLaws(five, den, 0);
  }

  /** k places need no rounding: 10^k / 2^k is the integer 5^k. */
  lemma NothingIsRounded(m: int, k: nat)
    requires k > 0
    ensures FloatString(m, Pow(2, k), k) == Spell(Printed(m, k))
  {
    hide Times, Remainder, Quotient, Pow, Digits, Padded;
    TailFits(m, k);
    DivisionUnique(Tail(m, k), 0, Pow(2, k));
    PaddedRead(Tail(m, k), k);
  }

  /** The last of the k digits is a 5: an odd multiple of a power of five. */
  lemma LastDigitIsFive(m: int, k: nat)
    requires k > 0 && LowestTerms(m, k)
    ensures Tail(m, k) % 10 == 5
  {
    hide Times, Remainder, Quotient;
    var n, den := Magnitude(m), Pow(2, k);
    var rest := Remainder(n, den);
    DividedBack(n, den);
    PowTwoEven(k);
    Parity(Quotient(n, den), den);
    assert rest % 2 == 1;
    PowFiveOdd(k);
    Parity(rest, Pow(5, k));
    FiveDivides(rest, k);
  }

  lemma FiveDivides(a: nat, k: nat)
    requires k > 0
    ensures Times(a, Pow(5, k)) % 5 == 0
  {
    var b := Pow(5, k - 1);
    assert a * (5 * b) == 5 * (a * b);
  }

  lemma SpellEnds(d: Numeral)
    requires d.fraction != ""
    ensures var s := Spell(d); s != "" && s[|s| - 1] == d.fraction[|d.fraction| - 1]
  {
  }

  /** The trimming that follows never finds anything to trim. */
  lemma NothingIsTrimmed(m: int, k: nat)
    requires k > 0 && LowestTerms(m, k)
    ensures ExactFloat(m, k) == Spell(Printed(m, k))
    ensures |Printed(m, k).fraction| == k && Printed(m, k).fraction[k - 1] == '5'
  {
    hide FloatString, Tail, Padded, Digits, Pow;
    NothingIsRounded(m, k);
    LastDigitIsFive(m, k);
    TailFits(m, k);
    PaddedRead(Tail(m, k), k);
    SpellEnds(Printed(m, k));
  }

  lemma PrintedDenotes(m: int, k: nat)
    ensures Valid(Printed(m, k)) && Denotes(Printed(m, k), m, k) && |Printed(m, k).fraction| == k
  {
    hide Times, Remainder, Quotient, Pow, Digits, Padded, Tail, AllDigits;
    var n, den, ten := Magnitude(m), Pow(2, k), Pow(10, k);
    var whole, rest := Quotient(n, den), Remainder(n, den);
    TailFits(m, k);
    DigitsRead(whole);
    PaddedRead(Tail(m, k), k);
    DividedBack(n, den);
    TimesLaws(Times(whole, ten), Tail(m, k), den);
    TimesLaws(whole, ten, den);
    TimesLaws(ten, den, 0);
    TimesLaws(whole, den, ten);
    TimesLaws(Times(whole, den), rest, ten);
  }

  /**
   Exact decimals: the text printed for a binary fraction is a numeral that denotes exactly it, with
   no fractional digit for an integer and otherwise k of them, the last one a 5.
   */
  lemma ExactFloatIsExact(m: int, k: nat) returns (d: Numeral)
    requires LowestTerms(m, k)
    ensures ExactFloat(m, k) == Spell(d) && Valid(d) && Denotes(d, m, k)
    ensures |d.fraction| == k && (k > 0 ==> d.fraction[k - 1] == '5')
  {
    d := Printed(m, k);
    PrintedDenotes(m, k);
    if k > 0 {
      NothingIsTrimmed(m, k);
    } else {
      hide Times, Digits;
      DivisionUnique(Magnitude(m), 0, 1);
      TimesLaws(Magnitude(m), 1, 0);
      OneTimes(Magnitude(m));
    }
  }

  lemma OneTimes(a: nat)
    ensures Times(a, 1) == a
  {
  }

  /** No numeral with fewer fractional digits denotes the number, however its digits are chosen. */
  lemma NoShorterIsExact(d: Numeral, m: int, k: nat)
    requires Valid(d) && LowestTerms(m, k) && |d.fraction| < k
    ensures !Denotes(d, m, k)
  {
    hide Times, Pow, AllDigits;
    var j, n, s := |d.fraction|, Magnitude(m), Scaled(d);
    if Denotes(d, m, k) {
      var two, five, rest := Pow(2, j), Pow(5, j), Pow(2, k - j);
      PowAdd(2, k - j, j);
      PowTen(j);
      TimesLaws(s, rest, two);
      TimesLaws(two, five, 0);
      TimesLaws(n, five, two);
      Cancel(Times(s, rest), Times(n, five), two);
      PowTwoEven(k - j);
      PowFiveOdd(j);
      Parity(s, rest);
      Parity(n, five);
      assert false;
    }
  }

  /** Reading a text as a numeral. */
  function Read(s: string): Numeral {
    var negative := s != "" && s[0] == '-';
    var body := if negative then s[1..] else s;
    var (whole, fraction, found) := Cut(body, '.');
    if found then Numeral(negative, whole, fraction) else Numeral(negative, body, "")
  }

  lemma ReadBody(d: Numeral)
    requires Valid(d)
    ensures var body := d.whole + (if d.fraction != "" then "." + d.fraction else "");
            && body[0] != '-'
            && Cut(body, '.').2 == (d.fraction != "")
            && (d.fraction != "" ==> Cut(body, '.').0 == d.whole && Cut(body, '.').1 == d.fraction)
            && (d.fraction == "" ==> body == d.whole)
  {
    hide Cut;
    assert IsDigit(d.whole[0]) && '.' !in d.whole;
    if d.fraction != "" {
      CutAt(d.whole, d.fraction, '.');
      assert d.whole + ("." + d.fraction) == d.whole + ['.'] + d.fraction;
    } else {
      assert d.whole + "" == d.whole;
    }
  }

  lemma ReadBack(d: Numeral)
    requires Valid(d)
    ensures Read(Spell(d)) == d
  {
    hide Cut, AllDigits;
    ReadBody(d);
    var body := d.whole + (if d.fraction != "" then "." + d.fraction else "");
    assert Spell(d) == (if d.negative then "-" + body else body);
    assert ("-" + body)[1..] == body;
  }

  /** Distinct numbers print as distinct texts. */
  lemma DistinctPrintDistinct(m: int, k: nat, m': int, k': nat)
    requires LowestTerms(m, k) && LowestTerms(m', k')
    requires ExactFloat(m, k) == ExactFloat(m', k')
    ensures m == m' && k == k'
  {
    hide ExactFloat, Spell, Valid, Scaled, Times, Pow, Read;
    var d := ExactFloatIsExact(m, k);
    var d' := ExactFloatIsExact(m', k');
    ReadBack(d);
    ReadBack(d');
    assert d == d' && k == k';
    Cancel(Magnitude(m), Magnitude(m'), Pow(10, k));
  }
}
