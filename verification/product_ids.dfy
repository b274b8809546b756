/** 2025/02: ranges of product ids; an id is invalid when its decimal
    string is some block of digits written twice (55, 6464, 123123), and
    the answer is the sum of the invalid ids of all ranges. */
module ProductIds {
  import opened Common
  import opened Text

  /** A block of digits written twice: `^(\d+)\1$`. */
  predicate Doubled(s: string) {
    |s| >= 2 && |s| % 2 == 0 && AllDigits(s) && s[..|s| / 2] == s[|s| / 2..]
  }

  /** `INVALID_PRODUCT_ID` matched against `(string) $id`; a negative id's
      string starts with '-' and never matches. */
  predicate Invalid(id: int) {
    id >= 0 && Doubled(NatToString(id))
  }

  /** The number form: an id is invalid exactly when it is `x * (10^h + 1)`
      for a number `x` of exactly `h` digits. */
  ghost predicate RepeatedNumber(id: int) {
    exists h: nat, x: nat | 1 <= h && Pow(10, h - 1) <= x < Pow(10, h) :: id == Repeat(x, h)
  }

  /** `x` followed by itself, when `x` has `h` digits. */
  function Repeat(x: nat, h: nat): int {
    x * (Pow(10, h) + 1)
  }

  /** The value of a block written twice. */
  lemma {:induction false} DoubledValue(a: string)
    requires AllDigits(a)
    ensures AllDigits(a + a)
    ensures StringToNat(a + a) == StringToNat(a) * (Pow(10, |a|) + 1)
  {
    StringToNatAppend(a, a);
  }

  /** An invalid id is its first half times `10^h + 1`, and that half has
      no leading zero. */
  lemma {:induction false} InvalidShape(id: int)
    requires Invalid(id)
    ensures var s := NatToString(id); var h := |s| / 2;
      h >= 1 && AllDigits(s[..h]) && Pow(10, h - 1) <= StringToNat(s[..h]) < Pow(10, h)
      && id == StringToNat(s[..h]) * (Pow(10, h) + 1)
  {
    var s := NatToString(id);
    var h := |s| / 2;
    var a := s[..h];
    assert a + a == s by {
      assert s[h..] == a;
      assert s == s[..h] + s[h..];
    }
    DoubledValue(a);
    StringToNatOfNatToString(id);
    assert a[0] == s[0];
    StringToNatLower(a);
    StringToNatBound(a);
  }

  lemma {:induction false} InvalidIsRepeated(id: int)
    requires Invalid(id)
    ensures RepeatedNumber(id)
  {
    InvalidShape(id);
    var s := NatToString(id);
    var h := |s| / 2;
    var x := StringToNat(s[..h]);
    assert 1 <= h && Pow(10, h - 1) <= x < Pow(10, h) && id == Repeat(x, h);
  }

  lemma {:induction false} RepeatedIsInvalid(id: int, h: nat, x: nat)
    requires 1 <= h && Pow(10, h - 1) <= x < Pow(10, h) && id == x * (Pow(10, h) + 1)
    ensures Invalid(id)
  {
    var t := NatToString(x);
    var s := t + t;
    assert StringToNat(s) == id by {
      DigitCount(x, h);
      DoubledValue(t);
      StringToNatOfNatToString(x);
    }
    assert NatToString(id) == s by {
      assert s[0] == t[0];
      PowPositive(10, h - 1);
      NatToStringOfStringToNat(s);
    }
    assert s[..|s| / 2] == t && s[|s| / 2..] == t;
  }

  /** A number between `10^(h-1)` and `10^h` has `h` digits. */
  lemma {:induction false} DigitCount(x: nat, h: nat)
    requires 1 <= h && Pow(10, h - 1) <= x < Pow(10, h)
    ensures |NatToString(x)| == h
  {
    NatToStringLength(x);
    PowPositive(10, h - 1);
    var n := |NatToString(x)|;
    if n < h {
      PowMonotone(n, h - 1);
    } else if n > h {
      PowMonotone(h, n - 1);
    }
  }

  /** Powers of ten grow with the exponent. */
  lemma {:induction false} PowMonotone(i: nat, j: nat)
    requires i <= j
    ensures Pow(10, i) <= Pow(10, j)
  {
    if i < j {
      PowMonotone(i, j - 1);
      PowPositive(10, j - 1);
    }
  }

  /** The string test and the number form agree. */
  lemma {:induction false} InvalidIffRepeated(id: int)
    ensures Invalid(id) <==> RepeatedNumber(id)
  {
    if Invalid(id) {
      InvalidIsRepeated(id);
    }
    if RepeatedNumber(id) {
      var h: nat, x: nat :| 1 <= h && Pow(10, h - 1) <= x < Pow(10, h) && id == Repeat(x, h);
      RepeatedIsInvalid(id, h, x);
    }
  }

  /** `ProductRangeID`: an inclusive range of ids. */
  datatype ProductRange = ProductRange(min: int, max: int)

  /** The constructor throws when `max < min`. */
  function NewProductRange(min: int, max: int): (r: Result<ProductRange>)
    ensures r.Ok? <==> min <= max
    ensures r.Ok? ==> r.value == ProductRange(min, max)
  {
    if max < min then Err("Invalid Product Range ID: " + "min > max, max must greater than min")
    else Ok(ProductRange(min, max))
  }

  /** `array_filter` with the invalid-id test, in the order given. */
  function KeepInvalid(ids: seq<int>): seq<int> {
    if ids == [] then []
    else (if Invalid(ids[0]) then [ids[0]] else []) + KeepInvalid(ids[1..])
  }

  /** The filter keeps exactly the invalid members. */
  lemma {:induction false} KeepMembers(ids: seq<int>)
    ensures forall x :: x in KeepInvalid(ids) <==> x in ids && Invalid(x)
  {
    if ids != [] {
      KeepMembers(ids[1..]);
    }
  }

  predicate Ascending(s: seq<int>) {
    forall i, j :: 0 <= i < j < |s| ==> s[i] < s[j]
  }

  /** Filtering keeps an ascending sequence ascending. */
  lemma {:induction false} KeepAscending(ids: seq<int>)
    requires Ascending(ids)
    ensures Ascending(KeepInvalid(ids))
  {
    if ids != [] {
      KeepAscending(ids[1..]);
      KeepMembers(ids[1..]);
      var rest := KeepInvalid(ids[1..]);
      forall k | 0 <= k < |rest|
        ensures ids[0] < rest[k]
      {
        assert rest[k] in rest;
        assert rest[k] in ids[1..];
        var m :| 0 <= m < |ids| - 1 && ids[1..][m] == rest[k];
        assert ids[1 + m] == rest[k];
      }
    }
  }

  /** Filtering distributes over concatenation. */
  lemma {:induction false} KeepAppend(a: seq<int>, b: seq<int>)
    ensures KeepInvalid(a + b) == KeepInvalid(a) + KeepInvalid(b)
  {
    if a != [] {
      KeepAppend(a[1..], b);
      assert (a + b)[1..] == a[1..] + b;
    } else {
      assert a + b == b;
    }
  }

  /** Nothing is kept when nothing is invalid. */
  lemma {:induction false} KeepNone(ids: seq<int>)
    requires forall k :: 0 <= k < |ids| ==> !Invalid(ids[k])
    ensures KeepInvalid(ids) == []
  {
    if ids != [] {
      KeepNone(ids[1..]);
    }
  }

  /** `filterInvalidProductIds`: the invalid ids between `min` and `max`
      inclusive, in ascending order. */
  function FilterInvalidProductIds(r: ProductRange): (ids: seq<int>)
    requires r.min <= r.max
    ensures forall x :: x in ids <==> r.min <= x <= r.max && Invalid(x)
    ensures Ascending(ids)
  {
    var all := Range(r.min, r.max);
    forall x | r.min <= x <= r.max
      ensures x in all
    {
      assert all[x - r.min] == x;
    }
    KeepAscending(all);
    KeepMembers(all);
    KeepInvalid(all)
  }

  // ---------------------------------------------------------------------------
  // Main::run

  /** One range of the input, `min-max`, read with `(int)` casts; a missing
      upper bound reads as 0. */
  function ParseRange(line: string): (r: Result<ProductRange>)
    ensures r.Ok? ==> r.value.min <= r.value.max
  {
    var bounds := Explode(Trim(line), '-');
    var min := ToInt(bounds[0]);
    var max := if |bounds| >= 2 then ToInt(bounds[1]) else 0;
    NewProductRange(min, max)
  }

  /** Writing a range as `min-max` and reading it back gives it again. */
  lemma {:induction false} ParseRangeRoundTrip(min: nat, max: nat)
    requires min <= max
    ensures ParseRange(NatToString(min) + "-" + NatToString(max)) == Ok(ProductRange(min, max))
  {
    var a, b := NatToString(min), NatToString(max);
    var s := a + "-" + b;
    assert s == a + ['-'] + b;
    TrimKeeps(s);
    assert '-' !in a && '-' !in b by {
      assert forall i :: 0 <= i < |a| ==> IsDigit(a[i]);
      assert forall i :: 0 <= i < |b| ==> IsDigit(b[i]);
    }
    ExplodeCons(a, b, '-');
    ExplodeNone(b, '-');
    DigitPrefixAll(a);
    DigitPrefixAll(b);
    StringToNatOfNatToString(min);
    StringToNatOfNatToString(max);
  }

  /** `parseRanges`: every line becomes a range; the first bad one throws. */
  function ParseRanges(lines: seq<string>): Result<seq<ProductRange>> {
    if lines == [] then Ok([])
    else
      match ParseRange(lines[0])
      case Err(e) => Err(e)
      case Ok(p) =>
        match ParseRanges(lines[1..])
        case Err(e) => Err(e)
        case Ok(rest) => Ok([p] + rest)
  }

  /** Reading the ranges fails exactly when some line is not a range. */
  lemma {:induction false} ParseRangesLines(lines: seq<string>)
    ensures ParseRanges(lines).Ok? <==> forall k :: 0 <= k < |lines| ==> ParseRange(lines[k]).Ok?
  {
    if lines != [] {
      ParseRangesLines(lines[1..]);
      if ParseRange(lines[0]).Ok? && !ParseRanges(lines[1..]).Ok? {
        var k :| 0 <= k < |lines[1..]| && !ParseRange(lines[1..][k]).Ok?;
        assert lines[1..][k] == lines[k + 1];
      }
      if ParseRange(lines[0]).Ok? && ParseRanges(lines[1..]).Ok? {
        forall k | 1 <= k < |lines|
          ensures ParseRange(lines[k]).Ok?
        {
          assert lines[k] == lines[1..][k - 1];
        }
      }
    }
  }

  /** Read successfully, the ranges are the lines' ranges, line by line. */
  lemma {:induction false} ParseRangesValues(lines: seq<string>)
    requires ParseRanges(lines).Ok?
    ensures |ParseRanges(lines).value| == |lines|
    ensures forall k :: 0 <= k < |lines| ==> ParseRange(lines[k]) == Ok(ParseRanges(lines).value[k])
  {
    if lines != [] {
      ParseRangesValues(lines[1..]);
      var rest := ParseRanges(lines[1..]).value;
      assert ParseRanges(lines).value == [ParseRange(lines[0]).value] + rest;
      forall k | 1 <= k < |lines|
        ensures ParseRange(lines[k]) == Ok(([ParseRange(lines[0]).value] + rest)[k])
      {
        assert lines[k] == lines[1..][k - 1];
      }
    }
  }

  /** The invalid ids of every range, range after range. */
  function AllInvalid(ranges: seq<ProductRange>): seq<int>
    requires forall k :: 0 <= k < |ranges| ==> ranges[k].min <= ranges[k].max
  {
    if ranges == [] then []
    else AllInvalid(ranges[..|ranges| - 1]) + FilterInvalidProductIds(ranges[|ranges| - 1])
  }

  /** Some range of the list holds `x`. */
  predicate InSomeRange(ranges: seq<ProductRange>, x: int) {
    exists k :: 0 <= k < |ranges| && ranges[k].min <= x <= ranges[k].max
  }

  /** An id is listed exactly when some range holds it and it is invalid. */
  lemma {:induction false} AllInvalidMembers(ranges: seq<ProductRange>, x: int)
    requires forall k :: 0 <= k < |ranges| ==> ranges[k].min <= ranges[k].max
    ensures x in AllInvalid(ranges) <==> Invalid(x) && InSomeRange(ranges, x)
  {
    if ranges != [] {
      var init, last := ranges[..|ranges| - 1], ranges[|ranges| - 1];
      AllInvalidMembers(init, x);
      var a, b := AllInvalid(init), FilterInvalidProductIds(last);
      assert AllInvalid(ranges) == a + b;
      assert x in a + b <==> x in a || x in b;
      assert x in b <==> last.min <= x <= last.max && Invalid(x);
      assert ranges == init + [last];
      InSomeRangeSnoc(init, last, x);
    }
  }

  lemma {:induction false} InSomeRangeSnoc(init: seq<ProductRange>, last: ProductRange, x: int)
    ensures InSomeRange(init + [last], x) <==> InSomeRange(init, x) || last.min <= x <= last.max
  {
    var ranges := init + [last];
    if InSomeRange(ranges, x) {
      var k :| 0 <= k < |ranges| && ranges[k].min <= x <= ranges[k].max;
      if k < |init| {
        assert init[k] == ranges[k];
      }
    }
    if InSomeRange(init, x) {
      var k :| 0 <= k < |init| && init[k].min <= x <= init[k].max;
      assert ranges[k] == init[k];
    }
    if last.min <= x <= last.max {
      assert ranges[|init|] == last;
    }
  }

  /** Part one of `Main::run`: the invalid ids of each range are appended
      in turn (`array_splice` at the end), and their sum is the answer. */
  method SumInvalid(ranges: seq<ProductRange>) returns (invalids: seq<int>, total: int)
    requires forall k :: 0 <= k < |ranges| ==> ranges[k].min <= ranges[k].max
    ensures invalids == AllInvalid(ranges)
    ensures total == Sum(invalids)
  {
    invalids := [];
    for k := 0 to |ranges|
      invariant invalids == AllInvalid(ranges[..k])
    {
      invalids := invalids + FilterInvalidProductIds(ranges[k]);
      assert ranges[..k + 1][..k] == ranges[..k];
    }
    assert ranges[..|ranges|] == ranges;
    total := Sum(invalids);
  }

  /** `Main::run`: a line that is not a range aborts the run. */
  method Run(lines: seq<string>) returns (r: Result<int>)
    ensures r.Err? <==> ParseRanges(lines).Err?
    ensures r.Ok? ==> var ranges := ParseRanges(lines).value;
      (forall k :: 0 <= k < |ranges| ==> ranges[k].min <= ranges[k].max) && r.value == Sum(AllInvalid(ranges))
  {
    var parsed := ParseRanges(lines);
    if parsed.Err? {
      return Err(parsed.msg);
    }
    var ranges := parsed.value;
    ParseRangesValues(lines);
    forall k | 0 <= k < |ranges|
      ensures ranges[k].min <= ranges[k].max
    {
      assert ParseRange(lines[k]) == Ok(ranges[k]);
    }
    var invalids, total := SumInvalid(ranges);
    return Ok(total);
  }

  // ---------------------------------------------------------------------------
  // Deciding invalidity by arithmetic

  /** `10^(i+j) == 10^i * 10^j`. */
  lemma {:induction false} PowAdd(i: nat, j: nat)
    ensures Pow(10, i + j) == Pow(10, i) * Pow(10, j)
  {
    if j > 0 {
      PowAdd(i, j - 1);
    }
  }

  /** An id of `2h` digits is invalid exactly when `10^h + 1` divides it. */
  lemma {:induction false} EvenDigits(id: int, h: nat)
    requires 1 <= h && Pow(10, 2 * h - 1) <= id < Pow(10, 2 * h)
    ensures Invalid(id) <==> id % (Pow(10, h) + 1) == 0
  {
    if Invalid(id) {
      InvalidDivides(id, h);
    }
    if id % (Pow(10, h) + 1) == 0 {
      DividesInvalid(id, h);
    }
  }

  lemma {:induction false} InvalidDivides(id: int, h: nat)
    requires 1 <= h && Pow(10, 2 * h - 1) <= id < Pow(10, 2 * h) && Invalid(id)
    ensures id % (Pow(10, h) + 1) == 0
  {
    InvalidShape(id);
    DigitCount(id, 2 * h);
    PowPositive(10, h);
    DivModUnique(id, Pow(10, h) + 1, StringToNat(NatToString(id)[..h]), 0);
  }

  lemma {:induction false} DividesInvalid(id: int, h: nat)
    requires 1 <= h && Pow(10, 2 * h - 1) <= id < Pow(10, 2 * h)
    requires id % (Pow(10, h) + 1) == 0
    ensures Invalid(id)
  {
    var p := Pow(10, h);
    PowPositive(10, h - 1);
    var q := id / (p + 1);
    assert id == q * (p + 1);
    PowAdd(h, h);
    PowAdd(h - 1, h);
    QuotientBounds(id, q, p, Pow(10, h - 1));
    RepeatedIsInvalid(id, h, q);
  }

  /** The quotient of a `2h`-digit multiple of `10^h + 1` has `h` digits. */
  lemma {:induction false} QuotientBounds(id: int, q: int, p: int, p': int)
    requires p' > 0 && p == 10 * p' && id == q * (p + 1)
    requires p' * p <= id < p * p
    ensures p' <= q < p
  {
    if q >= p {
      MulMono(p, q, p + 1);
    }
    if q < p' {
      MulMono(q, p' - 1, p + 1);
    }
  }

  lemma {:induction false} MulMono(a: int, b: int, c: int)
    requires a <= b && c >= 0
    ensures a * c <= b * c
  {
  }

  /** An id with an odd number of digits is valid. */
  lemma {:induction false} OddDigits(id: int, h: nat)
    requires Pow(10, 2 * h) <= id < Pow(10, 2 * h + 1)
    ensures !Invalid(id)
  {
    DigitCount(id, 2 * h + 1);
  }

  // ---------------------------------------------------------------------------
  // The in-file tests

  /** `range` splits at any point. */
  lemma {:induction false} RangeSplit(a: int, b: int, c: int)
    requires a <= b < c
    ensures Range(a, c) == Range(a, b) + Range(b + 1, c)
  {
  }

  lemma {:induction false} NoneBetween(lo: int, hi: int)
    requires lo <= hi && forall x :: lo <= x <= hi ==> !Invalid(x)
    ensures KeepInvalid(Range(lo, hi)) == []
  {
    var all := Range(lo, hi);
    assert forall k :: 0 <= k < |all| ==> lo <= all[k] <= hi;
    KeepNone(all);
  }

  /** A range whose only invalid id is `t`. */
  lemma {:induction false} OnlyOne(lo: int, t: int, hi: int)
    requires lo <= t <= hi && Invalid(t)
    requires forall x :: lo <= x <= hi && x != t ==> !Invalid(x)
    ensures KeepInvalid(Range(lo, hi)) == [t]
  {
    if lo < t {
      RangeSplit(lo, t - 1, hi);
      KeepAppend(Range(lo, t - 1), Range(t, hi));
      NoneBetween(lo, t - 1);
    }
    if t < hi {
      RangeSplit(t, t, hi);
      KeepAppend(Range(t, t), Range(t + 1, hi));
      NoneBetween(t + 1, hi);
    }
  }

  /** Among ids of `2h` digits, a multiple `t` of `d = 10^h + 1` closer
      than `d` to both ends is the only invalid id of the range. */
  lemma {:induction false} EvenOne(lo: int, t: int, hi: int, h: nat, d: int)
    requires 1 <= h && d == Pow(10, h) + 1
    requires Pow(10, 2 * h - 1) <= lo <= t <= hi < Pow(10, 2 * h)
    requires t % d == 0 && t - lo < d && hi - t < d
    ensures KeepInvalid(Range(lo, hi)) == [t]
  {
    forall x | lo <= x <= hi
      ensures Invalid(x) <==> x == t
    {
      EvenDigits(x, h);
      EvenDigits(t, h);
      if x % d == 0 {
        NearMultiple(x, t, d);
      }
    }
    OnlyOne(lo, t, hi);
  }

  /** Two consecutive multiples `t` and `t + d` of `d = 10^h + 1` in a range
      of `2h`-digit ids, each closer than `d` to its end: both and only
      they are invalid. */
  lemma {:induction false} EvenTwo(lo: int, t: int, hi: int, h: nat, d: int)
    requires 1 <= h && d == Pow(10, h) + 1
    requires Pow(10, 2 * h - 1) <= lo <= t && t + d <= hi < Pow(10, 2 * h)
    requires t % d == 0 && t - lo < d && hi - (t + d) < d
    ensures KeepInvalid(Range(lo, hi)) == [t, t + d]
  {
    NextMultiple(t, d);
    RangeSplit(lo, t, hi);
    KeepAppend(Range(lo, t), Range(t + 1, hi));
    EvenOne(lo, t, t, h, d);
    EvenOne(t + 1, t + d, hi, h, d);
  }

  lemma {:induction false} NextMultiple(t: int, d: int)
    requires d > 0 && t % d == 0
    ensures (t + d) % d == 0
  {
    assert t == (t / d) * d;
    DivModUnique(t + d, d, t / d + 1, 0);
  }

  /** Two multiples of `d` closer than `d` are equal. */
  lemma {:induction false} NearMultiple(x: int, t: int, d: int)
    requires d > 0 && x % d == 0 && t % d == 0 && -d < x - t < d
    ensures x == t
  {
    var a, b := x / d, t / d;
    assert x - t == (a - b) * d;
    MulAtLeast(a - b, d);
    MulAtLeast(b - a, d);
  }

  /** Ids with an odd number of digits are all valid. */
  lemma {:induction false} OddNone(lo: int, hi: int, h: nat)
    requires Pow(10, 2 * h) <= lo <= hi < Pow(10, 2 * h + 1)
    ensures KeepInvalid(Range(lo, hi)) == []
  {
    forall x | lo <= x <= hi
      ensures !Invalid(x)
    {
      OddDigits(x, h);
    }
    NoneBetween(lo, hi);
  }

  /** The powers of ten the tests need. */
  lemma {:induction false} PowTen()
    ensures Pow(10, 1) == 10 && Pow(10, 2) == 100 && Pow(10, 3) == 1000 && Pow(10, 4) == 10000
    ensures Pow(10, 5) == 100000 && Pow(10, 6) == 1000000 && Pow(10, 7) == 10000000
  {
    assert Pow(10, 1) == 10;
    assert Pow(10, 2) == 100;
    assert Pow(10, 3) == 1000;
    assert Pow(10, 4) == 10000;
    assert Pow(10, 5) == 100000;
    assert Pow(10, 6) == 1000000;
  }

  /** 11-22 gives 11 and 22. */
  lemma {:induction false} Test11To22()
    ensures FilterInvalidProductIds(ProductRange(11, 22)) == [11, 22]
  {
    PowTen();
    EvenTwo(11, 11, 22, 1, 11);
  }

  /** 95-115 gives 99. */
  lemma {:induction false} Test95To115()
    ensures FilterInvalidProductIds(ProductRange(95, 115)) == [99]
  {
    PowTen();
    RangeSplit(95, 99, 115);
    KeepAppend(Range(95, 99), Range(100, 115));
    EvenOne(95, 99, 99, 1, 11);
    OddNone(100, 115, 1);
  }

  /** 998-1012 gives 1010. */
  lemma {:induction false} Test998To1012()
    ensures FilterInvalidProductIds(ProductRange(998, 1012)) == [1010]
  {
    PowTen();
    RangeSplit(998, 999, 1012);
    KeepAppend(Range(998, 999), Range(1000, 1012));
    OddNone(998, 999, 1);
    EvenOne(1000, 1010, 1012, 2, 101);
  }

  /** 222220-222224 gives 222222. */
  lemma {:induction false} Test222220To222224()
    ensures FilterInvalidProductIds(ProductRange(222220, 222224)) == [222222]
  {
    PowTen();
    EvenOne(222220, 222222, 222224, 3, 1001);
  }

  /** 1698522-1698528 gives nothing. */
  lemma {:induction false} Test1698522To1698528()
    ensures FilterInvalidProductIds(ProductRange(1698522, 1698528)) == []
  {
    PowTen();
    OddNone(1698522, 1698528, 3);
  }

  /** 446443-446449 gives 446446. */
  lemma {:induction false} Test446443To446449()
    ensures FilterInvalidProductIds(ProductRange(446443, 446449)) == [446446]
  {
    PowTen();
    EvenOne(446443, 446446, 446449, 3, 1001);
  }

  /** The larger powers of ten. */
  lemma {:induction false} PowTenLarge()
    ensures Pow(10, 8) == 100000000 && Pow(10, 9) == 1000000000 && Pow(10, 10) == 10000000000
  {
    PowTen();
    assert Pow(10, 8) == 100000000;
    assert Pow(10, 9) == 1000000000;
  }

  /** 1188511880-1188511890 gives 1188511885. */
  lemma {:induction false} Test1188511880To1188511890()
    ensures FilterInvalidProductIds(ProductRange(1188511880, 1188511890)) == [1188511885]
  {
    PowTenLarge();
    EvenOne(1188511880, 1188511885, 1188511890, 5, 100001);
  }

  /** 38593856-38593862 gives 38593859. */
  lemma {:induction false} Test38593856To38593862()
    ensures FilterInvalidProductIds(ProductRange(38593856, 38593862)) == [38593859]
  {
    PowTen();
    PowTenLarge();
    EvenOne(38593856, 38593859, 38593862, 4, 10001);
  }
}
