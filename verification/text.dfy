/** PHP's string handling as the puzzles use it: decimal conversion of
    natural numbers (`(string) $n` and `(int) $s`), `explode`/`implode` on
    one separator character, `trim` and `ltrim($s, '0')`. */
module Text {
  import opened Common

  // ---------------------------------------------------------------------------
  // Decimal numbers

  /** Every character is a decimal digit. */
  predicate AllDigits(s: string) {
    forall i :: 0 <= i < |s| ==> IsDigit(s[i])
  }

  /** `(string) $n` for a natural number: no leading zero except for "0". */
  function NatToString(n: nat): (s: string)
    ensures |s| >= 1 && AllDigits(s)
    ensures s[0] == '0' ==> n == 0 && s == "0"
  {
    if n < 10 then [DigitChar(n)] else NatToString(n / 10) + [DigitChar(n % 10)]
  }

  /** `(int) $s` for a string of digits: leading zeros do not count, and the
      empty string reads as 0. */
  function StringToNat(s: string): (n: nat)
    requires AllDigits(s)
  {
    if s == [] then 0 else StringToNat(s[..|s| - 1]) * 10 + DigitValue(s[|s| - 1])
  }

  /** Reading back the decimal string of `n` gives `n`. */
  lemma {:induction false} StringToNatOfNatToString(n: nat)
    ensures StringToNat(NatToString(n)) == n
  {
    var s := NatToString(n);
    if n >= 10 {
      StringToNatOfNatToString(n / 10);
      assert s[..|s| - 1] == NatToString(n / 10);
    }
  }

  /** The value of a concatenation: the first part shifted by the length of
      the second. */
  lemma {:induction false} StringToNatAppend(a: string, b: string)
    requires AllDigits(a) && AllDigits(b)
    ensures AllDigits(a + b)
    ensures StringToNat(a + b) == StringToNat(a) * Pow(10, |b|) + StringToNat(b)
    decreases |b|
  {
    if b != [] {
      var b' := b[..|b| - 1];
      assert (a + b)[..|a + b| - 1] == a + b';
      StringToNatAppend(a, b');
      Shift(StringToNat(a), Pow(10, |b'|), StringToNat(b'), DigitValue(b[|b| - 1]));
    } else {
      assert a + b == a;
    }
  }

  /** One more digit at the end of a shifted sum. */
  lemma {:induction false} Shift(x: int, p: int, y: int, d: int)
    ensures (x * p + y) * 10 + d == x * (10 * p) + (y * 10 + d)
  {
  }

  /** A string of `k` digits reads as less than `10^k`. */
  lemma {:induction false} StringToNatBound(s: string)
    requires AllDigits(s)
    ensures StringToNat(s) < Pow(10, |s|)
  {
    if s != [] {
      StringToNatBound(s[..|s| - 1]);
    }
  }

  /** A decimal string without a leading zero, other than "0" itself, reads
      as a number with exactly that many digits. */
  lemma {:induction false} StringToNatLower(s: string)
    requires AllDigits(s) && |s| >= 1 && s[0] != '0'
    ensures Pow(10, |s| - 1) <= StringToNat(s)
  {
    if |s| > 1 {
      var s' := s[..|s| - 1];
      StringToNatLower(s');
    }
  }

  /** `n` has `|NatToString(n)|` digits: it lies below `10^len` and, unless it
      is 0, at or above `10^(len-1)`. */
  lemma {:induction false} NatToStringLength(n: nat)
    ensures n < Pow(10, |NatToString(n)|)
    ensures n > 0 ==> Pow(10, |NatToString(n)| - 1) <= n
  {
    var s := NatToString(n);
    StringToNatOfNatToString(n);
    StringToNatBound(s);
    if n > 0 {
      StringToNatLower(s);
    }
  }

  /** A decimal string without a leading zero is the string of its value. */
  lemma {:induction false} NatToStringOfStringToNat(s: string)
    requires AllDigits(s) && |s| >= 1 && (s[0] != '0' || |s| == 1)
    ensures NatToString(StringToNat(s)) == s
  {
    if |s| > 1 {
      var s' := s[..|s| - 1];
      NatToStringOfStringToNat(s');
      StringToNatLower(s');
      PowPositive(10, |s'| - 1);
      assert s == s' + [s[|s| - 1]];
    }
  }

  // ---------------------------------------------------------------------------
  // Leading zeros

  /** `ltrim($s, '0')`. */
  function LtrimZeros(s: string): (r: string)
    ensures |r| <= |s| && (r == [] || r[0] != '0')
  {
    if s != [] && s[0] == '0' then LtrimZeros(s[1..]) else s
  }

  /** Dropping leading zeros keeps the digits and the value. */
  lemma {:induction false} LtrimZerosValue(s: string)
    requires AllDigits(s)
    ensures AllDigits(LtrimZeros(s))
    ensures StringToNat(LtrimZeros(s)) == StringToNat(s)
  {
    if s != [] && s[0] == '0' {
      LtrimZerosValue(s[1..]);
      StringToNatAppend(['0'], s[1..]);
      assert ['0'] + s[1..] == s;
    }
  }

  /** The leading run of digits of `s`. */
  function DigitPrefix(s: string): (r: string)
    ensures AllDigits(r) && |r| <= |s| && r == s[..|r|]
  {
    if s != [] && IsDigit(s[0]) then [s[0]] + DigitPrefix(s[1..]) else ""
  }

  /** `(int) $s` for a string that holds no sign: the value of its leading
      digits, 0 when there are none. */
  function ToInt(s: string): nat {
    StringToNat(DigitPrefix(s))
  }

  /** A string of digits is its own digit prefix. */
  lemma {:induction false} DigitPrefixAll(s: string)
    requires AllDigits(s)
    ensures DigitPrefix(s) == s
  {
    if s != [] {
      DigitPrefixAll(s[1..]);
    }
  }

  /** `(int) ltrim($t, '0')` reads a digit string's value. */
  lemma {:induction false} TokenValue(t: string)
    requires AllDigits(t)
    ensures ToInt(LtrimZeros(t)) == StringToNat(t)
  {
    LtrimZerosValue(t);
    DigitPrefixAll(LtrimZeros(t));
  }

  /** `(int) ltrim((string) $n, '0')` is `$n` again. */
  lemma {:induction false} TokenValueOfNat(n: nat)
    ensures ToInt(LtrimZeros(NatToString(n))) == n
  {
    TokenValue(NatToString(n));
    StringToNatOfNatToString(n);
  }

  // ---------------------------------------------------------------------------
  // Runs of digits and of white space

  /** PCRE's `\s`: space, tab, line feed, vertical tab, form feed, carriage
      return. */
  predicate IsSpace(c: char) {
    c == ' ' || c == '\t' || c == '\n' || c == '\U{B}' || c == '\U{C}' || c == '\r'
  }

  predicate AllSpaces(s: string) {
    forall i :: 0 <= i < |s| ==> IsSpace(s[i])
  }

  /** The length of the longest run of digits `s` starts with. */
  function DigitRun(s: string): (n: nat)
    ensures n <= |s| && AllDigits(s[..n]) && (n < |s| ==> !IsDigit(s[n]))
  {
    if s != [] && IsDigit(s[0]) then
      var n := DigitRun(s[1..]) + 1;
      assert s[..n] == [s[0]] + s[1..][..n - 1];
      n
    else 0
  }

  /** The length of the longest run of white space `s` starts with. */
  function SpaceRun(s: string): (n: nat)
    ensures n <= |s| && AllSpaces(s[..n]) && (n < |s| ==> !IsSpace(s[n]))
  {
    if s != [] && IsSpace(s[0]) then
      var n := SpaceRun(s[1..]) + 1;
      assert s[..n] == [s[0]] + s[1..][..n - 1];
      n
    else 0
  }

  /** A run's length is the length of a given run, when a character of
      another kind (or nothing) follows it. */
  lemma {:induction false} DigitRunOf(d: string, rest: string)
    requires AllDigits(d) && (rest == [] || !IsDigit(rest[0]))
    ensures DigitRun(d + rest) == |d|
  {
    if d != [] {
      assert (d + rest)[1..] == d[1..] + rest;
      DigitRunOf(d[1..], rest);
    } else {
      assert d + rest == rest;
    }
  }

  lemma {:induction false} SpaceRunOf(w: string, rest: string)
    requires AllSpaces(w) && (rest == [] || !IsSpace(rest[0]))
    ensures SpaceRun(w + rest) == |w|
  {
    if w != [] {
      assert (w + rest)[1..] == w[1..] + rest;
      SpaceRunOf(w[1..], rest);
    } else {
      assert w + rest == rest;
    }
  }

  // ---------------------------------------------------------------------------
  // explode / implode on a single character

  /** `explode($sep, $s)`: the pieces between separators, never empty. */
  function Explode(s: string, sep: char): (r: seq<string>)
    ensures |r| >= 1
  {
    if s == [] then [""]
    else
      var rest := Explode(s[1..], sep);
      if s[0] == sep then [""] + rest else [[s[0]] + rest[0]] + rest[1..]
  }

  /** `implode($sep, $parts)`. */
  function Implode(parts: seq<string>, sep: char): string {
    if parts == [] then ""
    else if |parts| == 1 then parts[0]
    else parts[0] + [sep] + Implode(parts[1..], sep)
  }

  /** There is one more piece than there are separators. */
  lemma {:induction false} ExplodeCount(s: string, sep: char)
    ensures |Explode(s, sep)| == multiset(s)[sep] + 1
  {
    if s != [] {
      ExplodeCount(s[1..], sep);
      assert s == [s[0]] + s[1..];
    }
  }

  /** No piece holds the separator. */
  lemma {:induction false} ExplodePieces(s: string, sep: char)
    ensures forall p :: p in Explode(s, sep) ==> sep !in p
  {
    if s != [] {
      ExplodePieces(s[1..], sep);
    }
  }

  /** Imploding the pieces gives the string back. */
  lemma {:induction false} ImplodeExplode(s: string, sep: char)
    ensures Implode(Explode(s, sep), sep) == s
  {
    if s != [] {
      ImplodeExplode(s[1..], sep);
      var rest := Explode(s[1..], sep);
      if s[0] != sep {
        if |rest| == 1 {
          assert Explode(s, sep) == [[s[0]] + rest[0]];
        } else {
          assert rest == [rest[0]] + rest[1..];
          assert Explode(s, sep)[1..] == rest[1..];
        }
      }
    }
  }

  /** A piece without the separator, followed by the separator, is cut off
      first. */
  lemma {:induction false} ExplodeCons(p: string, rest: string, sep: char)
    requires sep !in p
    ensures Explode(p + [sep] + rest, sep) == [p] + Explode(rest, sep)
  {
    if p == [] {
      assert p + [sep] + rest == [sep] + rest;
    } else {
      ExplodeCons(p[1..], rest, sep);
      assert (p + [sep] + rest)[1..] == p[1..] + [sep] + rest;
      assert [p[0]] + p[1..] == p;
    }
  }

  /** A string without the separator is a single piece. */
  lemma {:induction false} ExplodeNone(s: string, sep: char)
    requires sep !in s
    ensures Explode(s, sep) == [s]
  {
    if s != [] {
      ExplodeNone(s[1..], sep);
      assert [s[0]] + s[1..] == s;
    }
  }

  /** Exploding the implosion of separator-free pieces gives the pieces
      back. */
  lemma {:induction false} ExplodeImplode(parts: seq<string>, sep: char)
    requires parts != []
    requires forall p :: p in parts ==> sep !in p
    ensures Explode(Implode(parts, sep), sep) == parts
  {
    if |parts| == 1 {
      ExplodeNone(parts[0], sep);
    } else {
      ExplodeImplode(parts[1..], sep);
      ExplodeCons(parts[0], Implode(parts[1..], sep), sep);
      assert parts == [parts[0]] + parts[1..];
    }
  }

  // ---------------------------------------------------------------------------
  // trim

  /** `ltrim($s)` with PHP's default character list: what is left once
      the blank characters in front are dropped. */
  function TrimLeft(s: string): (r: string)
    ensures r == [] || !IsTrimmed(r[0])
    ensures |r| <= |s|
  {
    if s != [] && IsTrimmed(s[0]) then TrimLeft(s[1..]) else s
  }

  /** `rtrim($s)` with PHP's default character list: what is left once
      the blank characters at the end are dropped. */
  function TrimRight(s: string): (r: string)
    ensures r == [] || !IsTrimmed(r[|r| - 1])
    ensures |r| <= |s|
  {
    if s != [] && IsTrimmed(s[|s| - 1]) then TrimRight(s[..|s| - 1]) else s
  }

  /** `ltrim` drops a run of blanks from the front and keeps the rest. */
  lemma {:induction false} TrimLeftDrops(s: string)
    ensures var r := TrimLeft(s);
      r == s[|s| - |r|..] && forall i :: 0 <= i < |s| - |r| ==> IsTrimmed(s[i])
  {
    if s != [] && IsTrimmed(s[0]) {
      TrimLeftDrops(s[1..]);
    }
  }

  /** `rtrim` drops a run of blanks from the end and keeps the rest. */
  lemma {:induction false} TrimRightDrops(s: string)
    ensures var r := TrimRight(s);
      r == s[..|r|] && forall i :: |r| <= i < |s| ==> IsTrimmed(s[i])
  {
    if s != [] && IsTrimmed(s[|s| - 1]) {
      TrimRightDrops(s[..|s| - 1]);
    }
  }

  /** `trim($s)`. */
  function Trim(s: string): string {
    TrimRight(TrimLeft(s))
  }

  /** Trimming leaves a string alone whose ends are not blank. */
  lemma {:induction false} TrimKeeps(s: string)
    requires s != [] && !IsTrimmed(s[0]) && !IsTrimmed(s[|s| - 1])
    ensures Trim(s) == s
  {
  }

  /** PHP's `empty()` on a string: true for "" and for "0". */
  predicate Empty(s: string) {
    s == "" || s == "0"
  }
}
