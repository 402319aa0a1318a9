/**
 Decimal rendering, and keys joined with colons.
 */
module Text {

  function Digit(d: int): char
    requires 0 <= d < 10
  {
    ['0', '1', '2', '3', '4', '5', '6', '7', '8', '9'][d]
  }

  lemma DigitInjective(a: int, b: int)
    requires 0 <= a < 10 && 0 <= b < 10 && Digit(a) == Digit(b)
    ensures a == b
  {
  }

  predicate Plain(s: string) {
    forall c :: c in s ==> c != ':' && c != '-' && c != '.'
  }

  /** The decimal digits of a number, without leading zeros. */
  function Digits(n: nat): (s: string)
    ensures s != [] && Plain(s)
    ensures |s| == 1 <==> n < 10
  {
    if n < 10 then [Digit(n)] else Digits(n / 10) + [Digit(n % 10)]
  }

  lemma {:induction false} DigitsInjective(m: nat, n: nat)
    requires Digits(m) == Digits(n)
    ensures m == n
  {
    var s, t := Digits(m), Digits(n);
    if m < 10 {
      DigitInjective(m, n);
    } else {
      assert s[..|s| - 1] == Digits(m / 10) && t[..|t| - 1] == Digits(n / 10);
      assert s[|s| - 1] == Digit(m % 10) && t[|t| - 1] == Digit(n % 10);
      DigitsInjective(m / 10, n / 10);
      DigitInjective(m % 10, n % 10);
    }
  }

  /** The number that a text of digits stands for. */
  function Value(s: string): nat {
    if s == [] then 0 else 10 * Value(s[..|s| - 1]) + (if s[|s| - 1] >= '0' then s[|s| - 1] as int - '0' as int else 0)
  }

  lemma DigitValue(d: int)
    requires 0 <= d < 10
    ensures Digit(d) as int == '0' as int + d
  {
  }

  /** Reading the digits back gives the number. */
  lemma {:induction false} DigitsRoundTrip(n: nat)
    ensures Value(Digits(n)) == n
  {
    hide Digit;
    DigitValue(n % 10);
    if n < 10 {
      assert Digits(n)[..0] == [];
    } else {
      var s := Digits(n);
      assert s[..|s| - 1] == Digits(n / 10) && s[|s| - 1] == Digit(n % 10);
      DigitsRoundTrip(n / 10);
    }
  }

  predicate ColonFree(s: string) {
    ':' !in s
  }

  /** Where the field after the last separator starts. */
  function LastField(s: string, sep: char): nat {
    if s == [] then 0 else if s[|s| - 1] == sep then |s| else LastField(s[..|s| - 1], sep)
  }

  lemma {:induction false} LastFieldOf(a: string, b: string, sep: char)
    requires sep !in b
    ensures LastField(a + [sep] + b, sep) == |a| + 1
  {
    var s := a + [sep] + b;
    if b != [] {
      var n := |b| - 1;
      assert s[|s| - 1] == b[n];
      assert s[..|s| - 1] == a + [sep] + b[..n];
      LastFieldOf(a, b[..n], sep);
    }
  }

  /** Splitting at the last separator is unambiguous: whatever the left part contains, a text that
      ends in a separator-free field determines both parts. */
  lemma LastFieldDetermines(a: string, b: string, c: string, d: string, sep: char)
    requires sep !in b && sep !in d
    requires a + [sep] + b == c + [sep] + d
    ensures a == c && b == d
  {
    hide LastField;
    LastFieldOf(a, b, sep);
    LastFieldOf(c, d, sep);
    var s, t := a + [sep] + b, c + [sep] + d;
    assert s[..|a|] == a && t[..|c|] == c;
    assert s[|a| + 1..] == b && t[|c| + 1..] == d;
  }

  /** Where the first separator is. */
  function FirstSeparator(s: string, sep: char): nat {
    if s == [] || s[0] == sep then 0 else 1 + FirstSeparator(s[1..], sep)
  }

  lemma {:induction false} FirstSeparatorOf(a: string, b: string, sep: char)
    requires sep !in a
    ensures FirstSeparator(a + [sep] + b, sep) == |a|
  {
    var s := a + [sep] + b;
    if a != [] {
      assert s[0] == a[0] && s[1..] == a[1..] + [sep] + b;
      FirstSeparatorOf(a[1..], b, sep);
    }
  }

  /** Likewise at the first separator, whatever the right part contains. */
  lemma FirstFieldDetermines(a: string, b: string, c: string, d: string, sep: char)
    requires sep !in a && sep !in c
    requires a + [sep] + b == c + [sep] + d
    ensures a == c && b == d
  {
    hide FirstSeparator;
    FirstSeparatorOf(a, b, sep);
    FirstSeparatorOf(c, d, sep);
    var s, t := a + [sep] + b, c + [sep] + d;
    assert s[..|a|] == a && t[..|c|] == c;
    assert s[|a| + 1..] == b && t[|c| + 1..] == d;
  }

  // ----- fixed-point decimals -----

  /** Two decimal digits. */
  function Two(r: int): (s: string)
    requires 0 <= r < 100
    ensures |s| == 2 && Plain(s)
  {
    [Digit(r / 10), Digit(r % 10)]
  }

  lemma TwoRoundTrip(r: int)
    requires 0 <= r < 100
    ensures Value(Two(r)) == r
  {
    hide Digit;
    DigitValue(r / 10);
    DigitValue(r % 10);
    var s := Two(r);
    assert s[..1] == [Digit(r / 10)] && s[..1][..0] == [];
    assert Value(s[..1]) == r / 10;
  }

  lemma TwoInjective(a: int, b: int)
    requires 0 <= a < 100 && 0 <= b < 100 && Two(a) == Two(b)
    ensures a == b
  {
    assert Two(a)[0] == Two(b)[0] && Two(a)[1] == Two(b)[1];
    DigitInjective(a / 10, b / 10);
    DigitInjective(a % 10, b % 10);
  }

  /** A number of hundredths with two decimals. */
  function Hundredths(n: nat): (s: string)
    ensures ColonFree(s)
  {
    Digits(n / 100) + ['.'] + Two(n % 100)
  }

  /** The rendering reads back: the whole part before the point and the hundredths after it. */
  lemma HundredthsReadBack(n: nat)
    ensures
      var s := Hundredths(n);
      |s| >= 4 && s[|s| - 3] == '.' && 100 * Value(s[..|s| - 3]) + Value(s[|s| - 2..]) == n
  {
    hide Digits, Two, Value;
    var s, whole := Hundredths(n), Digits(n / 100);
    assert s[..|s| - 3] == whole && s[|s| - 2..] == Two(n % 100);
    DigitsRoundTrip(n / 100);
    TwoRoundTrip(n % 100);
  }

  lemma HundredthsInjective(m: nat, n: nat)
    requires Hundredths(m) == Hundredths(n)
    ensures m == n
  {
    hide Digits, Two;
    LastFieldDetermines(Digits(m / 100), Two(m % 100), Digits(n / 100), Two(n % 100), '.');
    DigitsInjective(m / 100, n / 100);
    TwoInjective(m % 100, n % 100);
  }

  /** A number of ten-thousandths with four decimals. */
  function TenThousandths(n: nat): (s: string)
    ensures ColonFree(s)
  {
    Digits(n / 10_000) + ['.'] + (Two(n / 100 % 100) + Two(n % 100))
  }

  lemma TenThousandthsInjective(m: nat, n: nat)
    requires TenThousandths(m) == TenThousandths(n)
    ensures m == n
  {
    hide Digits, Two;
    var mh, ml, nh, nl := Two(m / 100 % 100), Two(m % 100), Two(n / 100 % 100), Two(n % 100);
    LastFieldDetermines(Digits(m / 10_000), mh + ml, Digits(n / 10_000), nh + nl, '.');
    FixedFieldDetermines(mh, ml, nh, nl);
    DigitsInjective(m / 10_000, n / 10_000);
    TwoInjective(m / 100 % 100, n / 100 % 100);
    TwoInjective(m % 100, n % 100);
  }

  /** Likewise parts of known length. */
  lemma FixedFieldDetermines(a: string, b: string, c: string, d: string)
    requires |a| == |c| && a + b == c + d
    ensures a == c && b == d
  {
    assert (a + b)[..|a|] == a && (c + d)[..|c|] == c;
    assert (a + b)[|a|..] == b && (c + d)[|c|..] == d;
  }
}
