/** Decimal rendering of amounts kept as whole hundredths, standing for
    JavaScript's `Number.prototype.toFixed(2)` on prices and percentages. */
module Numeral {
  import opened Wrappers

  predicate IsDigit(c: char) {
    '0' <= c <= '9'
  }

  predicate AllDigits(s: string) {
    forall i :: 0 <= i < |s| ==> IsDigit(s[i])
  }

  function Digit(d: int): (c: char)
    requires 0 <= d < 10
    ensures IsDigit(c) && c as int - '0' as int == d
  {
    ('0' as int + d) as char
  }

  /** The value of a string of decimal digits, most significant first. */
  function Value(s: string): nat
    requires AllDigits(s)
  {
    if |s| == 0 then 0
    else Value(s[..|s| - 1]) * 10 + (s[|s| - 1] as int - '0' as int)
  }

  /** The shortest decimal numeral of `n`. */
  function Digits(n: nat): (s: string)
    ensures |s| >= 1 && AllDigits(s)
    ensures n >= 10 ==> s[0] != '0'
  {
    if n < 10 then [Digit(n)] else Digits(n / 10) + [Digit(n % 10)]
  }

  lemma {:induction false} ValueOfDigits(n: nat)
    ensures Value(Digits(n)) == n
  {
    if n >= 10 {
      var s := Digits(n);
      assert s[..|s| - 1] == Digits(n / 10);
      ValueOfDigits(n / 10);
    }
  }

  /** `v / 100` rendered with exactly two decimals, a leading `-` only when
      `v` is negative, and no leading zero before a non-zero integer part. */
  function Fixed2(v: int): (s: string)
    ensures |s| >= 4 && s[|s| - 3] == '.'
    ensures AllDigits(s[|s| - 2..])
    ensures v >= 0 ==> '-' !in s
    ensures v < 0 <==> s[0] == '-'
    ensures forall c | c in s :: IsDigit(c) || c == '.' || c == '-'
    ensures var k := if v < 0 then 1 else 0; s[k] != '0' || s[k + 1] == '.'
  {
    var a := if v < 0 then -v else v;
    var sign := if v < 0 then "-" else "";
    var s := sign + Digits(a / 100) + "." + Cents(a % 100);
    assert Digits(a / 100)[0] != '-';
    assert s[|s| - 2..] == Cents(a % 100);
    s
  }

  /** Reads back a numeral written by `Fixed2`; None for anything else. */
  function ParseFixed2(s: string): Option<int>
  {
    if |s| > 0 && s[0] == '-' then
      match ParseMagnitude(s[1..])
      case None => None
      case Some(m) => Some(-m)
    else ParseMagnitude(s)
  }

  /** Reads `digits.dd` without a sign. */
  function ParseMagnitude(body: string): Option<int>
  {
    var n := |body|;
    if n < 4 || body[n - 3] != '.' || !AllDigits(body[..n - 3]) || !AllDigits(body[n - 2..]) then None
    else Some(Value(body[..n - 3]) * 100 + Value(body[n - 2..]))
  }

  function Cents(r: int): (s: string)
    requires 0 <= r < 100
    ensures |s| == 2 && AllDigits(s) && Value(s) == r
  {
    var s := [Digit(r / 10), Digit(r % 10)];
    assert s[..1] == [s[0]] && [s[0]][..0] == [];
    assert Value([s[0]]) == r / 10;
    assert Value(s) == Value([s[0]]) * 10 + r % 10;
    s
  }

  lemma MagnitudeOf(q: nat, r: int)
    requires 0 <= r < 100
    ensures ParseMagnitude(Digits(q) + "." + Cents(r)) == Some(q * 100 + r)
  {
    var ds := Digits(q);
    var body := ds + "." + Cents(r);
    assert body[..|body| - 3] == ds;
    assert body[|body| - 2..] == Cents(r);
    ValueOfDigits(q);
  }

  lemma ParseUnsigned(q: nat, r: int, neg: bool)
    requires 0 <= r < 100
    ensures var body := Digits(q) + "." + Cents(r);
            ParseFixed2((if neg then "-" else "") + body)
            == Some(if neg then -(q * 100 + r) else q * 100 + r)
  {
    var body := Digits(q) + "." + Cents(r);
    MagnitudeOf(q, r);
    if neg {
      assert ("-" + body)[1..] == body;
    } else {
      assert ("" + body) == body && body[0] == Digits(q)[0];
    }
  }

  /** The rendering loses nothing: every amount is read back exactly. */
  lemma FixedRoundTrip(v: int)
    ensures ParseFixed2(Fixed2(v)) == Some(v)
  {
    var a := if v < 0 then -v else v;
    assert Fixed2(v) == (if v < 0 then "-" else "") + (Digits(a / 100) + "." + Cents(a % 100));
    ParseUnsigned(a / 100, a % 100, v < 0);
  }
}
