/**
 * Java's 32-bit `int`: the range of `Integer`, the wrap-around of `int` subtraction,
 * `Integer.parseInt` (radix 10) and the decimal text `toString` gives a number.
 */
module JavaInt {
  import opened Wrappers

  const MIN: int := -0x8000_0000
  const MAX: int := 0x7FFF_FFFF
  const MODULUS: int := 0x1_0000_0000

  /** The values of a Java `int` / `Integer`. */
  type Int32 = x: int | -0x8000_0000 <= x <= 0x7FFF_FFFF

  /** Reduces an unbounded integer to the `int` Java holds for it (two's complement wrap). */
  function Wrap(x: int): (r: Int32)
    ensures (r - x) % MODULUS == 0
    ensures MIN <= x <= MAX ==> r == x
  {
    (x - MIN) % MODULUS + MIN
  }

  /** Java's `a - b` on `int`: exact when the difference fits, otherwise off by 2^32. */
  function Sub(a: Int32, b: Int32): (r: Int32)
    ensures MIN <= a - b <= MAX ==> r == a - b
    ensures a - b > MAX ==> r == a - b - MODULUS
    ensures a - b < MIN ==> r == a - b + MODULUS
  {
    if a - b > MAX then
      WrapUnique(a - b, a - b - MODULUS); Wrap(a - b)
    else if a - b < MIN then
      WrapUnique(a - b, a - b + MODULUS); Wrap(a - b)
    else
      Wrap(a - b)
  }

  lemma ModMultiple(k: int)
    ensures (k * MODULUS) % MODULUS == 0
  {
  }

  lemma ModSum(a: int, b: int)
    requires a % MODULUS == 0 && b % MODULUS == 0
    ensures (a + b) % MODULUS == 0 && (a - b) % MODULUS == 0
  {
    var ka, kb := a / MODULUS, b / MODULUS;
    assert a == ka * MODULUS;
    assert b == kb * MODULUS;
    assert a + b == (ka + kb) * MODULUS;
    assert a - b == (ka - kb) * MODULUS;
    ModMultiple(ka + kb);
    ModMultiple(ka - kb);
  }

  /** There is exactly one `int` congruent to a given integer modulo 2^32. */
  lemma WrapUnique(x: int, r: int)
    requires MIN <= r <= MAX && (r - x) % MODULUS == 0
    ensures r == Wrap(x)
  {
    var w := Wrap(x);
    ModSum(r - x, w - x);
    var d := r - w;
    assert d % MODULUS == 0;
    assert -MODULUS < d < MODULUS;
    var k := d / MODULUS;
    assert d == k * MODULUS;
    MultipleBounds(k);
  }

  lemma MultipleBounds(k: int)
    ensures k >= 1 ==> k * MODULUS >= MODULUS
    ensures k <= -1 ==> k * MODULUS <= -MODULUS
  {
  }

  /** Subtracting from a wrapped value in `int` arithmetic wraps the exact difference. */
  lemma SubWrapped(x: int, y: Int32)
    ensures Sub(Wrap(x), y) == Wrap(x - y)
  {
    WrapOfWrapped(x, y);
  }

  /** Wrapping after every step equals wrapping once at the end. */
  lemma WrapOfWrapped(x: int, y: int)
    ensures Wrap(Wrap(x) - y) == Wrap(x - y)
  {
    var r := Wrap(Wrap(x) - y);
    ModSum(r - (Wrap(x) - y), Wrap(x) - x);
    assert r - (x - y) == (r - (Wrap(x) - y)) + (Wrap(x) - x);
    WrapUnique(x - y, r);
  }

  // ----- Integer.parseInt -----

  predicate IsDigit(c: char) {
    '0' <= c <= '9'
  }

  predicate AllDigits(s: string) {
    forall i | 0 <= i < |s| :: IsDigit(s[i])
  }

  function DigitValue(c: char): (d: nat)
    requires IsDigit(c)
    ensures d < 10
  {
    (c as int) - ('0' as int)
  }

  /** The value of a run of decimal digits, most significant first; `None` if one is not a digit. */
  function DigitsValue(ds: string): Option<nat>
    decreases |ds|
  {
    if ds == [] then Some(0)
    else if !IsDigit(ds[|ds| - 1]) then None
    else match DigitsValue(ds[..|ds| - 1])
      case None => None
      case Some(v) => Some(v * 10 + DigitValue(ds[|ds| - 1]))
  }

  /** A run has a value exactly when every character is a digit. */
  lemma {:induction false} DigitsValueDefined(ds: string)
    ensures DigitsValue(ds).Some? <==> AllDigits(ds)
    decreases |ds|
  {
    if ds != [] {
      var init := ds[..|ds| - 1];
      DigitsValueDefined(init);
      assert forall i | 0 <= i < |init| :: init[i] == ds[i];
    }
  }

  function Narrow(v: int): (r: Option<Int32>)
    ensures r.Some? <==> MIN <= v <= MAX
    ensures r.Some? ==> r.value == v
  {
    if MIN <= v <= MAX then Some(v) else None
  }

  /**
   * `Integer.parseInt(s)`: an optional sign `-` or `+`, then at least one decimal digit,
   * with a value inside the `int` range. `None` is the NumberFormatException.
   */
  function ParseInt(s: string): (r: Option<Int32>)
    ensures r.Some? ==> |s| > 0
    ensures r.Some? && s[0] != '-' && s[0] != '+' ==> DigitsValue(s).Some? && DigitsValue(s).value == r.value
  {
    if |s| == 0 then None
    else if s[0] == '-' || s[0] == '+' then
      if |s| == 1 then None
      else match DigitsValue(s[1..])
        case None => None
        case Some(v) => var n: int := v; Narrow(if s[0] == '-' then -n else n)
    else match DigitsValue(s)
      case None => None
      case Some(v) => Narrow(v)
  }

  // ----- decimal rendering (what `toString()` gives for a JSON integer) -----

  function DigitChar(d: nat): (c: char)
    requires d < 10
    ensures IsDigit(c) && DigitValue(c) == d
  {
    ('0' as int + d) as char
  }

  /** The decimal digits of `n`, without leading zeros. */
  function Digits(n: nat): string
  {
    if n < 10 then [DigitChar(n)] else Digits(n / 10) + [DigitChar(n % 10)]
  }

  /** The decimal text of an integer, with a leading `-` when negative. */
  function Show(n: int): string
  {
    if n < 0 then "-" + Digits(-n) else Digits(n)
  }

  lemma {:induction false} DigitsRoundTrip(n: nat)
    ensures |Digits(n)| > 0 && DigitsValue(Digits(n)) == Some(n)
  {
    if n >= 10 {
      DigitsRoundTrip(n / 10);
      var s := Digits(n / 10) + [DigitChar(n % 10)];
      assert s[..|s| - 1] == Digits(n / 10);
    }
  }

  /** `Integer.parseInt(String.valueOf(n)) == n` for every `int`. */
  lemma ParseShowRoundTrip(n: Int32)
    ensures ParseInt(Show(n)) == Some(n)
  {
    if n < 0 {
      var m: nat := -(n as int);
      DigitsRoundTrip(m);
      var s := Show(n);
      assert s[1..] == Digits(m);
    } else {
      DigitsRoundTrip(n);
      DigitsValueDefined(Digits(n));
      assert IsDigit(Digits(n)[0]);
    }
  }

  /** Text with a character that is not a digit after the first position never parses. */
  lemma ParseIntRejectsNonDigit(s: string, i: nat)
    requires 1 <= i < |s| && !IsDigit(s[i])
    ensures ParseInt(s) == None
  {
    DigitsValueDefined(s);
    DigitsValueDefined(s[1..]);
    assert s[1..][i - 1] == s[i];
  }
}
