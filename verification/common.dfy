/** Shared vocabulary of the puzzle models: optional values, error results,
    decimal digits, PHP's `range()` and small arithmetic helpers. */
module Common {

  /** A value that may be missing (PHP's `null`). */
  datatype Option<T> = None | Some(value: T)

  /** The outcome of an operation that may throw: `Err` carries the exception message. */
  datatype Result<T> = Ok(value: T) | Err(msg: string)

  predicate IsDigit(c: char) { '0' <= c <= '9' }

  function DigitValue(c: char): (d: nat)
    requires IsDigit(c)
    ensures d <= 9
  {
    c as int - '0' as int
  }

  function DigitChar(d: nat): (c: char)
    requires d <= 9
    ensures IsDigit(c) && DigitValue(c) == d
  {
    ('0' as int + d) as char
  }

  /** The characters PHP's `trim()` removes by default. */
  predicate IsTrimmed(c: char) {
    c == ' ' || c == '\t' || c == '\n' || c == '\r' || c == '\0' || c == '\U{B}'
  }

  /** PHP's `range($a, $b)` on integers: inclusive, counting down when `$a > $b`. */
  function Range(a: int, b: int): (r: seq<int>)
    ensures |r| == (if a <= b then b - a + 1 else a - b + 1)
    ensures forall k :: 0 <= k < |r| ==> r[k] == if a <= b then a + k else a - k
    decreases if a <= b then b - a else a - b
  {
    if a == b then [a]
    else if a < b then [a] + Range(a + 1, b)
    else [a] + Range(a - 1, b)
  }

  function Sum(s: seq<int>): int {
    if s == [] then 0 else s[0] + Sum(s[1..])
  }

  lemma {:induction false} SumAppend(a: seq<int>, b: seq<int>)
    ensures Sum(a + b) == Sum(a) + Sum(b)
  {
    if a == [] {
      assert a + b == b;
    } else {
      assert (a + b)[1..] == a[1..] + b;
      SumAppend(a[1..], b);
    }
  }

  function Pow(base: int, e: nat): int {
    if e == 0 then 1 else base * Pow(base, e - 1)
  }

  lemma {:induction false} PowPositive(base: int, e: nat)
    requires base > 0
    ensures Pow(base, e) > 0
  {
    if e > 0 { PowPositive(base, e - 1); }
  }

  function Abs(x: int): nat { if x < 0 then -x else x }

  function Min(a: int, b: int): int { if a <= b then a else b }

  function Max(a: int, b: int): int { if a >= b then a else b }

  /** PHP's `%` on integers: the remainder takes the sign of the dividend. */
  function PhpMod(a: int, m: int): (r: int)
    requires m > 0
    ensures a >= 0 ==> r == a % m
    ensures a < 0 ==> r == -((-a) % m)
    ensures -m < r < m
  {
    if a >= 0 then a % m else -((-a) % m)
  }

  /** PHP's `intdiv` and `(int)` of an exact quotient: truncation toward zero. */
  function PhpDiv(a: int, m: int): (q: int)
    requires m != 0
    ensures q * m + PhpMod(a, Abs(m)) == a
    ensures Abs(q) == Abs(a) / Abs(m)
    ensures (a >= 0) == (m > 0) ==> q >= 0
  {
    TruncatedDivision(a, m);
    var k := Abs(a) / Abs(m);
    if (a >= 0) == (m > 0) then k else -k
  }

  /** Truncated quotient and the remainder with the sign of the dividend
      put the dividend back together. */
  lemma {:induction false} TruncatedDivision(a: int, m: int)
    requires m != 0
    ensures Abs(a) / Abs(m) >= 0
    ensures var k := Abs(a) / Abs(m);
      (if (a >= 0) == (m > 0) then k else -k) * m + PhpMod(a, Abs(m)) == a
  {
    var n: int, d: int := Abs(a), Abs(m);
    DivModNat(n, d);
    var k: int, r: int := n / d, n % d;
    var q := if (a >= 0) == (m > 0) then k else -k;
    var p := PhpMod(a, d);
    if a >= 0 {
      assert p == r;
      if m > 0 {
        assert q * m == k * d;
      } else {
        assert q * m == (-k) * (-d) == k * d;
      }
    } else {
      assert p == -r;
      if m > 0 {
        assert q * m == (-k) * d == -(k * d);
      } else {
        assert q * m == k * (-d) == -(k * d);
      }
    }
  }

  /** Quotient and remainder are the only way to write `n` as `a * p + b`
      with `0 <= b < p`. */
  lemma {:induction false} DivModUnique(n: int, p: int, a: int, b: int)
    requires p > 0 && n == a * p + b && 0 <= b < p
    ensures a == n / p && b == n % p
  {
    var q, r := n / p, n % p;
    assert (a - q) * p == r - b;
    MulAtLeast(a - q, p);
    MulAtLeast(q - a, p);
  }

  lemma {:induction false} MulAtLeast(x: int, p: int)
    ensures x >= 1 && p > 0 ==> x * p >= p
  {
    if x >= 1 && p > 0 {
      assert x * p == (x - 1) * p + p;
    }
  }

  /** Adding `m` to a negative PHP remainder gives the Euclidean one. */
  lemma {:induction false} PhpModWrap(a: int, m: int)
    requires m > 0
    ensures (if PhpMod(a, m) < 0 then PhpMod(a, m) + m else PhpMod(a, m)) == a % m
  {
    if a < 0 {
      var q, r := (-a) / m, (-a) % m;
      assert -a == q * m + r;
      if r == 0 {
        DivModUnique(a, m, -q, 0);
      } else {
        DivModUnique(a, m, -q - 1, m - r);
      }
    }
  }

  /** Quotient and remainder of a natural number by a positive one. */
  lemma {:induction false} DivModNat(n: int, p: int)
    requires n >= 0 && p > 0
    ensures 0 <= n / p <= n && 0 <= n % p < p && n == (n / p) * p + n % p
  {
    var q, r := n / p, n % p;
    assert n == q * p + r;
    MulAtLeast(-q, p);
    assert (-q) * p == -(q * p);
    assert q >= 0;
    MulGrows(q, p);
  }

  lemma {:induction false} MulGrows(x: int, p: int)
    requires x >= 0 && p >= 1
    ensures x * p >= x
  {
    assert x * p == x + x * (p - 1);
  }
}
