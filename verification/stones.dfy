/** 2024/11: stones that change at every blink. A stone engraved 0 becomes
    1; a stone with an even number of digits splits into its two halves;
    any other stone is multiplied by 2024. The stones are kept as a
    space-separated line of numbers, with a memo from each stone to what it
    becomes and a tally of the stones on the current line. */
module Stones {
  import opened Common
  import opened Text

  // ---------------------------------------------------------------------------
  // One stone

  /** The digits of `n` (`Stone::__toString`). */
  function Digits(n: nat): string {
    NatToString(n)
  }

  /** `Stone::split` on an even number of digits: the two halves, each read
      as a number, so that leading zeros of the second half are dropped.
      They are the quotient and the remainder by `10^h`. */
  function SplitStone(n: nat): (r: string)
    requires |Digits(n)| % 2 == 0
    ensures r == NatToString(High(n)) + " " + NatToString(Low(n))
  {
    var s := Digits(n);
    var h := |s| / 2;
    PowPositive(10, h);
    HalvesValue(n);
    DivModUnique(n, Pow(10, h), StringToNat(s[..h]), StringToNat(s[h..]));
    NatToString(StringToNat(s[..h])) + " " + NatToString(StringToNat(s[h..]))
  }

  /** `Stone::tada`: what a stone becomes, as a line of numbers; reading
      the line back gives the rule of the puzzle. */
  function Tada(n: nat): (r: string)
    ensures Numbers(r) == Blink(n)
  {
    if n == 0 then
      assert NatToString(1) == "1";
      LineOne(1);
      NumbersOfLine([1]);
      "1"
    else if |Digits(n)| % 2 == 0 then
      LinePair(High(n), Low(n));
      NumbersOfLine([High(n), Low(n)]);
      SplitStone(n)
    else
      LineOne(2024 * n);
      NumbersOfLine([2024 * n]);
      NatToString(2024 * n)
  }

  /** The rule of the puzzle on numbers: 0 becomes 1, a number with `2h`
      digits becomes its quotient and remainder by `10^h`, anything else is
      multiplied by 2024. */
  function Blink(n: nat): (r: seq<nat>) {
    if n == 0 then [1]
    else if |Digits(n)| % 2 == 0 then
      [High(n), Low(n)]
    else
      var m: nat := 2024 * n;
      [m]
  }

  /** The left half of an even-length stone's digits, read as a number. */
  function High(n: nat): nat {
    DivModNat(n, HalfShift(n));
    n / HalfShift(n)
  }

  /** The right half, read as a number: leading zeros vanish. */
  function Low(n: nat): nat {
    DivModNat(n, HalfShift(n));
    n % HalfShift(n)
  }

  /** `10^h` for a number of `2h` digits (or `2h + 1`). */
  function HalfShift(n: nat): (p: nat)
    ensures p > 0 && p == Pow(10, |Digits(n)| / 2)
  {
    PowPositive(10, |Digits(n)| / 2);
    Pow(10, |Digits(n)| / 2)
  }

  /** `array_map(fn($n) => (int) ltrim($n, '0'), explode(' ', $s))`: the
      numbers of a line. */
  function Numbers(s: string): (r: seq<nat>)
    ensures |r| == |Explode(s, ' ')|
  {
    var parts := Explode(s, ' ');
    seq(|parts|, i requires 0 <= i < |parts| => ToInt(LtrimZeros(parts[i])))
  }

  /** The line of digit strings of `ns`, one space apart. */
  function Line(ns: seq<nat>): string {
    Implode(seq(|ns|, i requires 0 <= i < |ns| => NatToString(ns[i])), ' ')
  }

  /** Writing numbers on a line and reading them back gives them again. */
  lemma {:induction false} NumbersOfLine(ns: seq<nat>)
    requires ns != []
    ensures Numbers(Line(ns)) == ns
  {
    var strs := seq(|ns|, i requires 0 <= i < |ns| => NatToString(ns[i]));
    forall p | p in strs
      ensures ' ' !in p
    {
      var i :| 0 <= i < |strs| && strs[i] == p;
      NoSpace(ns[i]);
    }
    ExplodeImplode(strs, ' ');
    forall i | 0 <= i < |ns|
      ensures Numbers(Line(ns))[i] == ns[i]
    {
      TokenValueOfNat(ns[i]);
    }
  }

  lemma {:induction false} NoSpace(n: nat)
    ensures ' ' !in NatToString(n)
  {
    var s := NatToString(n);
    forall i | 0 <= i < |s|
      ensures s[i] != ' '
    {
      assert IsDigit(s[i]);
    }
  }

  /** A number with `2h` digits is the first half shifted by `h` digits plus
      the second half, and the second half lies below `10^h`. */
  lemma {:induction false} HalvesValue(n: nat)
    requires |Digits(n)| % 2 == 0
    ensures var s := Digits(n); var h := |s| / 2;
      n == StringToNat(s[..h]) * Pow(10, h) + StringToNat(s[h..])
      && StringToNat(s[h..]) < Pow(10, h)
  {
    var s := Digits(n);
    var h := |s| / 2;
    assert s[..h] + s[h..] == s;
    StringToNatAppend(s[..h], s[h..]);
    StringToNatOfNatToString(n);
    StringToNatBound(s[h..]);
  }

  lemma {:induction false} LineOne(a: nat)
    ensures Line([a]) == NatToString(a)
  {
    assert seq(1, i requires 0 <= i < 1 => NatToString([a][i])) == [NatToString(a)];
  }

  lemma {:induction false} LinePair(a: nat, b: nat)
    ensures Line([a, b]) == NatToString(a) + " " + NatToString(b)
  {
    var strs := seq(2, i requires 0 <= i < 2 => NatToString([a, b][i]));
    assert strs == [NatToString(a), NatToString(b)];
    assert strs[1..] == [NatToString(b)];
    assert Implode(strs, ' ') == NatToString(a) + [' '] + Implode(strs[1..], ' ');
  }

  /** A split stone's first half has exactly half the digits, so no digit is
      lost and the halves really are halves. */
  lemma {:induction false} SplitHalfLength(n: nat)
    requires n > 0 && |Digits(n)| % 2 == 0
    ensures |Digits(High(n))| == |Digits(n)| / 2
  {
    var s := Digits(n);
    var h := |s| / 2;
    PowPositive(10, h);
    HalvesValue(n);
    DivModUnique(n, Pow(10, h), StringToNat(s[..h]), StringToNat(s[h..]));
    assert s[0] != '0';
    assert s[..h][0] == s[0];
    NatToStringOfStringToNat(s[..h]);
  }

  // ---------------------------------------------------------------------------
  // Memo keys

  /** `getCachedStoneKey`: a key gives back its stone. */
  function Key(n: nat): (k: string)
    ensures KeyNumber(k) == n
  {
    var d := NatToString(n);
    assert ("_" + d)[1..] == d;
    DigitPrefixAll(d);
    StringToNatOfNatToString(n);
    "_" + d
  }

  /** `getStoneKeyNumber`: `(int) substr($k, 1)`, the value of the digits
      after the first character. */
  function KeyNumber(k: string): (n: nat)
    ensures |k| > 1 && AllDigits(k[1..]) ==> n == StringToNat(k[1..])
  {
    if |k| <= 1 then 0
    else
      assert AllDigits(k[1..]) ==> ToInt(k[1..]) == StringToNat(k[1..]) by {
        if AllDigits(k[1..]) {
          DigitPrefixAll(k[1..]);
        }
      }
      ToInt(k[1..])
  }

  /** Different stones have different keys. */
  lemma {:induction false} KeyInjective(m: nat, n: nat)
    ensures Key(m) == Key(n) <==> m == n
  {
  }

  // ---------------------------------------------------------------------------
  // The tally of a line

  /** The sum of the counts of a tally. */
  ghost function Total(m: map<string, nat>): nat
    decreases |m|
  {
    if m == map[] then 0
    else
      var k :| k in m;
      m[k] + Total(m - {k})
  }

  /** Any entry can be taken out first. */
  lemma {:induction false} TotalRemove(m: map<string, nat>, k: string)
    requires k in m
    ensures Total(m) == m[k] + Total(m - {k})
    decreases |m|
  {
    var j :| j in m && Total(m) == m[j] + Total(m - {j});
    if j != k {
      TotalRemove(m - {j}, k);
      TotalRemove(m - {k}, j);
      assert m - {j} - {k} == m - {k} - {j};
    }
  }

  /** Raising one count by one raises the total by one. */
  lemma {:induction false} TotalBump(m: map<string, nat>, k: string)
    ensures var c := if k in m then m[k] else 0;
      Total(m[k := c + 1]) == Total(m) + 1
  {
    var c := if k in m then m[k] else 0;
    var m' := m[k := c + 1];
    TotalRemove(m', k);
    if k in m {
      TotalRemove(m, k);
      assert m' - {k} == m - {k};
    } else {
      assert m' - {k} == m;
    }
  }

  /** The tally `m` after counting every stone of `ns` once more. */
  function Tally(m: map<string, nat>, ns: seq<nat>): map<string, nat> {
    if ns == [] then m
    else
      var t := Tally(m, ns[..|ns| - 1]);
      var k := Key(ns[|ns| - 1]);
      t[k := (if k in t then t[k] else 0) + 1]
  }

  /** Counting the prefix of `ns` one stone longer. */
  lemma TallyStep(m: map<string, nat>, ns: seq<nat>, i: nat, t: map<string, nat>, k: string)
    requires i < |ns| && t == Tally(m, ns[..i]) && k == Key(ns[i])
    ensures Tally(m, ns[..i + 1]) == t[k := (if k in t then t[k] else 0) + 1]
  {
    assert ns[..i + 1][..i] == ns[..i];
  }

  /** Each stone's count rises by the number of times it occurs. */
  lemma {:induction false} TallyCount(m: map<string, nat>, ns: seq<nat>, n: nat)
    ensures var c := if Key(n) in m then m[Key(n)] else 0;
      var t := Tally(m, ns);
      (if Key(n) in t then t[Key(n)] else 0) == c + multiset(ns)[n]
  {
    if ns != [] {
      var init, last := ns[..|ns| - 1], ns[|ns| - 1];
      TallyCount(m, init, n);
      KeyInjective(last, n);
      assert ns == init + [last];
    }
  }

  /** The total rises by the number of stones counted. */
  lemma {:induction false} TallyTotal(m: map<string, nat>, ns: seq<nat>)
    ensures Total(Tally(m, ns)) == Total(m) + |ns|
  {
    if ns != [] {
      TallyTotal(m, ns[..|ns| - 1]);
      TotalBump(Tally(m, ns[..|ns| - 1]), Key(ns[|ns| - 1]));
    }
  }

  /** The stones, the line tally and the memo (`Stones`). */
  class StoneLine {
    /** `$stones`: the current line. */
    var stones: string
    /** `$line`: how many times each stone key occurs. */
    var line: map<string, nat>
    /** `$stone_map`: what each stone key becomes at a blink. */
    var stoneMap: map<string, seq<nat>>

    constructor(numbers: string)
      ensures stones == numbers && line == map[] && stoneMap == map[]
    {
      stones := numbers;
      line := map[];
      stoneMap := map[];
    }

    /** Every memo entry is keyed by its stone and holds what the stone
        becomes. */
    ghost predicate Valid()
      reads this
    {
      forall k :: k in stoneMap ==> k == Key(KeyNumber(k)) && stoneMap[k] == Blink(KeyNumber(k))
    }

    /** `appendToLine`: counts each number once more on the line. */
    method AppendToLine(numbers: seq<nat>)
      modifies this
      ensures line == Tally(old(line), numbers)
      ensures stones == old(stones) && stoneMap == old(stoneMap)
    {
      for i := 0 to |numbers|
        invariant line == Tally(old(line), numbers[..i])
        invariant stones == old(stones) && stoneMap == old(stoneMap)
      {
        var k := Key(numbers[i]);
        TallyStep(old(line), numbers, i, line, k);
        line := line[k := (if k in line then line[k] else 0) + 1];
      }
      assert numbers[..|numbers|] == numbers;
    }

    /** `cacheStoneMapping`: records what `from` becomes unless it is already
        recorded, and counts the new numbers on the line when `append` is
        set. The answer says whether the stone was new. */
    method CacheStoneMapping(from: nat, toStones: string, append: bool) returns (newNumber: bool)
      modifies this
      ensures newNumber <==> Key(from) !in old(stoneMap)
      ensures stoneMap == if newNumber then old(stoneMap)[Key(from) := Numbers(toStones)] else old(stoneMap)
      ensures forall k :: k in old(stoneMap) ==> k in stoneMap && stoneMap[k] == old(stoneMap)[k]
      ensures line == if append then Tally(old(line), Numbers(toStones)) else old(line)
      ensures stones == old(stones)
    {
      newNumber := false;
      var numbers := Numbers(toStones);
      var key := Key(from);
      if key !in stoneMap {
        newNumber := true;
        stoneMap := stoneMap[key := numbers];
      }
      if append {
        AppendToLine(numbers);
      }
    }

    /** `getCachedStone`: what the stone of key `k` becomes, computed and
        recorded (without touching the line) when it is not recorded yet.
        A key that is not the key of its own number is never recorded, and
        the lookup fails (PHP returns null from a function typed `array`). */
    method GetCachedStone(k: string) returns (r: Result<seq<nat>>)
      requires Valid()
      modifies this
      ensures Valid()
      ensures r.Ok? <==> k in old(stoneMap) || k == Key(KeyNumber(k))
      ensures r.Ok? ==> r.value == Blink(KeyNumber(k))
      ensures line == old(line) && stones == old(stones)
    {
      if k in stoneMap {
        return Ok(stoneMap[k]);
      }
      var number := KeyNumber(k);
      var _ := CacheStoneMapping(number, Tada(number), false);
      if k in stoneMap {
        return Ok(stoneMap[k]);
      }
      return Err("getCachedStone(): Return value must be of type array, null returned");
    }
  }

  // ---------------------------------------------------------------------------
  // Counting stones

  /** `getStonesCount` as written: the number of space-separated tokens of
      the trimmed line, except that PHP's `empty()` is also true for "0". */
  function StonesCountAsWritten(stoneList: string): nat {
    var t := Trim(stoneList);
    if !Empty(t) then |Explode(t, ' ')| else 0
  }

  /** The line "0" holds one stone, yet it is counted as none. */
  lemma {:induction false} StonesCountZeroStone()
    ensures Numbers("0") == [0]
    ensures StonesCountAsWritten("0") == 0
  {
    assert Trim("0") == "0";
    assert "0" == Line([0]);
    NumbersOfLine([0]);
  }

  /** The number of stones on a line: 0 for a blank line, otherwise one more
      than the number of spaces between the trimmed ends. */
  function StonesCount(stoneList: string): (r: nat)
    ensures var t := Trim(stoneList);
      r == if t == "" then 0 else multiset(t)[' '] + 1
  {
    var t := Trim(stoneList);
    ExplodeCount(t, ' ');
    if t != "" then |Explode(t, ' ')| else 0
  }

  /** A line written from stones is counted as that many stones. */
  lemma {:induction false} StonesCountOfLine(ns: seq<nat>)
    requires ns != []
    ensures StonesCount(Line(ns)) == |ns|
  {
    var l := Line(ns);
    NumbersOfLine(ns);
    LineEnds(ns);
    TrimKeeps(l);
  }

  /** A line written from stones starts and ends with a digit. */
  lemma {:induction false} LineEnds(ns: seq<nat>)
    requires ns != []
    ensures var l := Line(ns);
      l != [] && IsDigit(l[0]) && IsDigit(l[|l| - 1])
  {
    var strs := seq(|ns|, i requires 0 <= i < |ns| => NatToString(ns[i]));
    ImplodeEnds(strs);
  }

  lemma {:induction false} ImplodeEnds(strs: seq<string>)
    requires strs != []
    requires forall i :: 0 <= i < |strs| ==> strs[i] != [] && AllDigits(strs[i])
    ensures var l := Implode(strs, ' ');
      l != [] && IsDigit(l[0]) && IsDigit(l[|l| - 1])
  {
    if |strs| > 1 {
      ImplodeEnds(strs[1..]);
    }
  }

  // ---------------------------------------------------------------------------
  // Rounds

  /** The blinks split into rounds of `BLINKS_PER_ROUND` = 10, with the
      remainder as a last, shorter round. */
  function Rounds(blinks: nat): seq<nat> {
    seq(blinks / 10, _ => 10) + (if blinks % 10 != 0 then [blinks % 10] else [])
  }

  /** The rounds add up to the blinks, and each holds 1 to 10 blinks. */
  lemma {:induction false} RoundsSum(blinks: nat)
    ensures Sum(Rounds(blinks)) == blinks
    ensures forall i :: 0 <= i < |Rounds(blinks)| ==> 1 <= Rounds(blinks)[i] <= 10
  {
    var tens := seq(blinks / 10, _ => 10);
    SumTens(blinks / 10);
    SumAppend(tens, if blinks % 10 != 0 then [blinks % 10] else []);
  }

  lemma {:induction false} SumTens(k: nat)
    ensures Sum(seq(k, _ => 10)) == 10 * k
  {
    if k > 0 {
      SumTens(k - 1);
      assert seq(k, _ => 10)[1..] == seq(k - 1, _ => 10);
    }
  }
}
