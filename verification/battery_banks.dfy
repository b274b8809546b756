/** 2025/03: banks of batteries, one digit of voltage each; switching on
    `k` batteries of a bank gives the number their digits spell in order,
    and the largest such number is found greedily, digit by digit. */
module BatteryBanks {
  import opened Common
  import opened Text

  const MaxVoltage := 9
  const PairingMin := 2
  const PairingMax := 12

  datatype Battery = Battery(position: int, voltage: int, score: int)

  /** `Battery::setScore`: `9 * n` less the missing voltage times the
      number of batteries from this one to the end of the bank. A full
      battery scores `9 * n`; any other, at a position in the bank, scores
      less, and never below `9 * position`. */
  function Score(position: int, voltage: int, bankSize: int): (r: int)
    ensures 0 <= position < bankSize && 0 <= voltage <= MaxVoltage ==>
      MaxVoltage * position <= r <= MaxVoltage * bankSize &&
      (r == MaxVoltage * bankSize <==> voltage == MaxVoltage)
  {
    var missing := MaxVoltage - voltage;
    var rest := bankSize - position;
    if 0 <= position < bankSize && 0 <= voltage <= MaxVoltage then
      MulBetween(missing, rest);
      MaxVoltage * bankSize - missing * rest
    else MaxVoltage * bankSize - missing * rest
  }

  lemma {:induction false} MulBetween(m: int, r: int)
    requires 0 <= m <= MaxVoltage && r >= 1
    ensures 0 <= m * r <= MaxVoltage * r
    ensures m * r == 0 <==> m == 0
  {
    MulAtLeast(m, r);
  }

  /** `(int)` of one character of the bank's line: a digit's value, 0 for
      anything else. */
  function CharVoltage(c: char): (v: int)
    ensures 0 <= v <= MaxVoltage
  {
    if IsDigit(c) then DigitValue(c) else 0
  }

  datatype BatteryBank = BatteryBank(name: string, batteries: seq<Battery>)

  /** The `BatteryBank` constructor on `str_split(trim($line))`: battery
      `i` has position `i` and the voltage of the `i`-th character. */
  function NewBank(name: string, line: string): (b: BatteryBank)
    ensures Indexed(b.batteries) && |b.batteries| == |Trim(line)|
    ensures forall i :: 0 <= i < |b.batteries| ==> b.batteries[i].voltage == CharVoltage(Trim(line)[i])
  {
    var t := Trim(line);
    BatteryBank(name, seq(|t|, i requires 0 <= i < |t| => Battery(i, CharVoltage(t[i]), Score(i, CharVoltage(t[i]), |t|))))
  }

  /** Every battery sits at its own index and holds a digit. */
  predicate Indexed(bats: seq<Battery>) {
    forall i :: 0 <= i < |bats| ==> bats[i].position == i && 0 <= bats[i].voltage <= MaxVoltage
  }

  /** `bankSort`: a higher voltage is greater; on equal voltages the
      battery further left is greater. */
  function BankSort(a: Battery, b: Battery): (r: int)
    ensures r == 1 <==> a.voltage > b.voltage || (a.voltage == b.voltage && a.position < b.position)
    ensures r == -1 <==> a.voltage < b.voltage || (a.voltage == b.voltage && a.position > b.position)
    ensures r == 0 <==> a.voltage == b.voltage && a.position == b.position
  {
    if a.voltage > b.voltage then 1
    else if a.voltage < b.voltage then -1
    else if a.position < b.position then 1
    else if a.position > b.position then -1
    else 0
  }

  /** The comparison is antisymmetric and transitive, so it is an order. */
  lemma {:induction false} BankSortOrder(a: Battery, b: Battery, c: Battery)
    ensures BankSort(a, b) == -BankSort(b, a)
    ensures BankSort(a, b) >= 0 && BankSort(b, c) >= 0 ==> BankSort(a, c) >= 0
  {
  }

  /** What `usort` with `bankSort` followed by `array_reverse` puts first:
      the greatest battery of the list (`BestGreatest`); in particular the
      first battery is no greater, and a single battery is its own best. */
  function Best(s: seq<Battery>): (r: Battery)
    requires s != []
    ensures BankSort(r, s[0]) >= 0
    ensures |s| == 1 ==> r == s[0]
  {
    if |s| == 1 then s[0]
    else
      var b := Best(s[1..]);
      if BankSort(s[0], b) >= 0 then s[0] else b
  }

  /** The battery put first is one of the list, and no battery of the list
      is greater. */
  lemma {:induction false} BestGreatest(s: seq<Battery>)
    requires s != []
    ensures Best(s) in s
    ensures forall i :: 0 <= i < |s| ==> BankSort(Best(s), s[i]) >= 0
  {
    if |s| > 1 {
      BestGreatest(s[1..]);
      BestStep(s[0], Best(s[1..]), s[1..]);
      forall i | 1 <= i < |s|
        ensures s[i] == s[1..][i - 1]
      {
      }
    }
  }

  /** A battery at least as great as the greatest of a list is at least as
      great as all of it; a smaller one is beaten by the greatest. */
  lemma {:induction false} BestStep(a: Battery, b: Battery, s: seq<Battery>)
    requires forall i :: 0 <= i < |s| ==> BankSort(b, s[i]) >= 0
    ensures BankSort(a, b) >= 0 ==> forall i :: 0 <= i < |s| ==> BankSort(a, s[i]) >= 0
    ensures BankSort(a, b) < 0 ==> BankSort(b, a) > 0
  {
    forall i | 0 <= i < |s|
      ensures BankSort(a, b) >= 0 ==> BankSort(a, s[i]) >= 0
    {
      BankSortOrder(a, b, s[i]);
    }
    BankSortOrder(a, b, a);
  }

  /** One greedy round: the greatest battery of `[offset, len - n]`, the
      window that still leaves `n - 1` batteries after it. */
  function Pick(bats: seq<Battery>, offset: int, n: nat): (b: Battery)
    requires Indexed(bats) && 0 <= offset && offset + n <= |bats| && n > 0
    ensures offset <= b.position <= |bats| - n
  {
    PickWindow(bats, offset, n);
    Best(bats[offset..|bats| - n + 1])
  }

  /** The pick lies in its window, holds the highest voltage of the window,
      and is the first battery that does. */
  lemma {:induction false} PickWindow(bats: seq<Battery>, offset: int, n: nat)
    requires Indexed(bats) && 0 <= offset && offset + n <= |bats| && n > 0
    ensures var b := Best(bats[offset..|bats| - n + 1]);
      offset <= b.position <= |bats| - n && b == bats[b.position] && 0 <= b.voltage <= MaxVoltage
    ensures var b := Best(bats[offset..|bats| - n + 1]);
      forall j :: offset <= j <= |bats| - n ==> bats[j].voltage <= b.voltage
    ensures var b := Best(bats[offset..|bats| - n + 1]);
      forall j :: offset <= j < b.position ==> bats[j].voltage < b.voltage
  {
    var w := bats[offset..|bats| - n + 1];
    var b := Best(w);
    BestGreatest(w);
    var m :| 0 <= m < |w| && w[m] == b;
    assert bats[offset + m] == b;
    forall j | offset <= j <= |bats| - n
      ensures BankSort(b, bats[j]) >= 0
    {
      assert bats[j] == w[j - offset];
    }
  }

  /** The greedy choice, as a function: the voltages of `n` rounds from
      `offset` on. */
  function Greedy(bats: seq<Battery>, offset: int, n: nat): (vs: seq<int>)
    requires Indexed(bats) && 0 <= offset && offset + n <= |bats|
    ensures |vs| == n
    decreases n
  {
    if n == 0 then []
    else
      var b := Pick(bats, offset, n);
      [b.voltage] + Greedy(bats, b.position + 1, n - 1)
  }

  /** The positions of the batteries of the greedy choice. */
  function GreedyPositions(bats: seq<Battery>, offset: int, n: nat): (ps: seq<int>)
    requires Indexed(bats) && 0 <= offset && offset + n <= |bats|
    ensures |ps| == n
    decreases n
  {
    if n == 0 then []
    else
      var b := Pick(bats, offset, n);
      [b.position] + GreedyPositions(bats, b.position + 1, n - 1)
  }

  /** Every value is a decimal digit. */
  predicate Digits(vs: seq<int>) {
    forall i :: 0 <= i < |vs| ==> 0 <= vs[i] <= 9
  }

  /** The number that digits spell, most significant first. */
  function Joltage(vs: seq<int>): int {
    if vs == [] then 0 else Joltage(vs[..|vs| - 1]) * 10 + vs[|vs| - 1]
  }

  /** `implode` of the digits. */
  function DigitString(vs: seq<int>): (s: string)
    requires Digits(vs)
    ensures |s| == |vs| && AllDigits(s)
  {
    if vs == [] then "" else DigitString(vs[..|vs| - 1]) + [DigitChar(vs[|vs| - 1])]
  }

  /** `(int) implode('', $digits)` is the number the digits spell. */
  lemma {:induction false} DigitStringValue(vs: seq<int>)
    requires Digits(vs)
    ensures ToInt(DigitString(vs)) == Joltage(vs)
  {
    DigitPrefixAll(DigitString(vs));
    DigitStringNat(vs);
  }

  lemma {:induction false} DigitStringNat(vs: seq<int>)
    requires Digits(vs)
    ensures StringToNat(DigitString(vs)) == Joltage(vs)
  {
    if vs != [] {
      var init := vs[..|vs| - 1];
      DigitStringNat(init);
      var s := DigitString(vs);
      assert s[..|s| - 1] == DigitString(init);
    }
  }

  /** The greedy voltages are digits. */
  lemma {:induction false} GreedyDigits(bats: seq<Battery>, offset: int, n: nat)
    requires Indexed(bats) && 0 <= offset && offset + n <= |bats|
    ensures Digits(Greedy(bats, offset, n))
    decreases n
  {
    if n > 0 {
      var b := Pick(bats, offset, n);
      PickWindow(bats, offset, n);
      GreedyDigits(bats, b.position + 1, n - 1);
      var g := Greedy(bats, offset, n);
      forall i | 1 <= i < n
        ensures 0 <= g[i] <= 9
      {
        assert g[i] == Greedy(bats, b.position + 1, n - 1)[i - 1];
      }
    }
  }

  /** A round: the greatest battery of the slice `getLargestJoltage` takes
      is the pick, and appending its voltage to the digits so far leaves
      the later rounds to give the rest of the answer. */
  lemma {:induction false} Round(bats: seq<Battery>, offset: int, n: nat, spliceLength: int, digits: seq<int>, target: seq<int>)
    requires Indexed(bats) && 0 <= offset && offset + n <= |bats| && n > 0
    requires spliceLength == |bats| - n - offset + 1
    requires digits + Greedy(bats, offset, n) == target
    ensures var b := Best(bats[offset..offset + spliceLength]);
      0 <= b.position + 1 && b.position + 1 + (n - 1) <= |bats|
      && (digits + [b.voltage]) + Greedy(bats, b.position + 1, n - 1) == target
  {
    assert offset + spliceLength == |bats| - n + 1;
    var b := Pick(bats, offset, n);
    var rest := Greedy(bats, b.position + 1, n - 1);
    assert (digits + [b.voltage]) + rest == digits + ([b.voltage] + rest);
  }

  /** The picked digits, written out and read back, are the number they
      spell. */
  lemma {:induction false} Spelled(bats: seq<Battery>, k: nat, digits: seq<int>)
    requires Indexed(bats) && k <= |bats| && digits == Greedy(bats, 0, k)
    ensures Digits(digits) && ToInt(DigitString(digits)) == Joltage(Greedy(bats, 0, k))
  {
    GreedyDigits(bats, 0, k);
    DigitStringValue(digits);
  }

  /** The loop of `getLargestJoltage`: `k` rounds, each taking the greatest
      battery between the offset and the last position that still leaves
      enough batteries for the remaining rounds; the picked voltages are
      the greedy choice. */
  method PickDigits(bats: seq<Battery>, k: nat) returns (largest: seq<int>)
    requires Indexed(bats) && k <= |bats|
    ensures largest == Greedy(bats, 0, k)
  {
    largest := [];
    var offset := 0;
    ghost var target := Greedy(bats, 0, k);
    ghost var n: nat := k;
    while |largest| < k
      invariant n == k - |largest| && 0 <= offset && offset + n <= |bats|
      invariant largest + Greedy(bats, offset, n) == target
      decreases n
    {
      var maxIndex := |bats| - (k - |largest|);
      var spliceLength := maxIndex - offset + 1;
      var sorted := bats[offset..offset + spliceLength];
      var best := Best(sorted);
      Round(bats, offset, n, spliceLength, largest, target);
      offset := best.position + 1;
      largest := largest + [best.voltage];
      n := n - 1;
    }
    assert Greedy(bats, offset, n) == [];
  }

  /** `getLargestJoltage`: the picked digits, imploded and read as an
      integer, spell the number of the greedy choice. */
  method GetLargestJoltage(bank: BatteryBank, k: nat) returns (output: int)
    requires Indexed(bank.batteries) && k <= |bank.batteries|
    ensures output == Joltage(Greedy(bank.batteries, 0, k))
  {
    var largest := PickDigits(bank.batteries, k);
    Spelled(bank.batteries, k, largest);
    output := ToInt(DigitString(largest));
  }

  // ---------------------------------------------------------------------------
  // The greedy choice is the best one

  /** A way of switching on batteries from `offset` on: positions inside the
      bank, strictly increasing. */
  predicate Choice(bats: seq<Battery>, offset: int, idx: seq<int>) {
    (forall i, j :: 0 <= i < j < |idx| ==> idx[i] < idx[j])
    && forall i :: 0 <= i < |idx| ==> offset <= idx[i] < |bats|
  }

  /** The positions of a choice lie inside the bank. */
  predicate InBank(bats: seq<Battery>, idx: seq<int>) {
    forall i :: 0 <= i < |idx| ==> 0 <= idx[i] < |bats|
  }

  /** The voltages of the chosen batteries, in order (a position outside
      the bank, which no choice has, reads as 0). */
  function Chosen(bats: seq<Battery>, idx: seq<int>): (vs: seq<int>)
    ensures |vs| == |idx|
  {
    if idx == [] then []
    else [if 0 <= idx[0] < |bats| then bats[idx[0]].voltage else 0] + Chosen(bats, idx[1..])
  }

  /** The greedy positions are a choice. */
  lemma {:induction false} GreedyIsChoice(bats: seq<Battery>, offset: int, n: nat)
    requires Indexed(bats) && 0 <= offset && offset + n <= |bats|
    ensures Choice(bats, offset, GreedyPositions(bats, offset, n))
    decreases n
  {
    if n > 0 {
      var b := Pick(bats, offset, n);
      PickWindow(bats, offset, n);
      GreedyIsChoice(bats, b.position + 1, n - 1);
      ConsChoice(bats, offset, b.position, GreedyPositions(bats, b.position + 1, n - 1));
    }
  }

  /** A position followed by a choice from after it is a choice. */
  lemma {:induction false} ConsChoice(bats: seq<Battery>, offset: int, p: int, rest: seq<int>)
    requires offset <= p < |bats| && Choice(bats, p + 1, rest)
    ensures Choice(bats, offset, [p] + rest)
  {
    var idx := [p] + rest;
    forall i, j | 0 <= i < j < |idx|
      ensures idx[i] < idx[j]
    {
      if i > 0 {
        assert idx[i] == rest[i - 1];
      }
      assert idx[j] == rest[j - 1];
    }
    forall i | 0 < i < |idx|
      ensures offset <= idx[i] < |bats|
    {
      assert idx[i] == rest[i - 1];
    }
  }

  /** The voltages at the greedy positions are the greedy voltages. */
  lemma {:induction false} GreedyChosen(bats: seq<Battery>, offset: int, n: nat)
    requires Indexed(bats) && 0 <= offset && offset + n <= |bats|
    ensures Chosen(bats, GreedyPositions(bats, offset, n)) == Greedy(bats, offset, n)
    decreases n
  {
    GreedyIsChoice(bats, offset, n);
    ChoiceFrom(bats, offset, 0, GreedyPositions(bats, offset, n));
    if n > 0 {
      var b := Pick(bats, offset, n);
      PickWindow(bats, offset, n);
      GreedyChosen(bats, b.position + 1, n - 1);
      var idx := GreedyPositions(bats, offset, n);
      assert idx[0] == b.position && idx[1..] == GreedyPositions(bats, b.position + 1, n - 1);
    }
  }

  /** A choice of `m` batteries starts early enough to leave room for the
      other `m - 1`. */
  lemma {:induction false} ChoiceRoom(bats: seq<Battery>, offset: int, idx: seq<int>)
    requires Choice(bats, offset, idx) && idx != []
    ensures idx[0] + |idx| <= |bats|
    decreases |idx|
  {
    if |idx| > 1 {
      TailChoice(bats, offset, idx);
      ChoiceRoom(bats, idx[0] + 1, idx[1..]);
    }
  }

  /** After the first battery of a choice, the rest is a choice from the
      next position on. */
  lemma {:induction false} TailChoice(bats: seq<Battery>, offset: int, idx: seq<int>)
    requires Choice(bats, offset, idx) && idx != []
    ensures Choice(bats, idx[0] + 1, idx[1..])
  {
    var t := idx[1..];
    forall i | 0 <= i < |t|
      ensures idx[0] + 1 <= t[i] < |bats|
    {
      assert t[i] == idx[i + 1];
    }
    forall i, j | 0 <= i < j < |t|
      ensures t[i] < t[j]
    {
      assert t[i] == idx[i + 1] && t[j] == idx[j + 1];
    }
  }

  /** A choice from some position on is also one from any earlier
      position, and lies inside the bank. */
  lemma {:induction false} ChoiceFrom(bats: seq<Battery>, offset: int, earlier: int, idx: seq<int>)
    requires Choice(bats, offset, idx) && earlier <= offset
    ensures Choice(bats, earlier, idx)
    ensures 0 <= earlier ==> InBank(bats, idx)
  {
  }

  /** Digits spell a number below `10^m`. */
  lemma {:induction false} JoltageBound(vs: seq<int>)
    requires Digits(vs)
    ensures 0 <= Joltage(vs) < Pow(10, |vs|)
  {
    if vs != [] {
      JoltageBound(vs[..|vs| - 1]);
    }
  }

  /** The chosen voltages of an indexed bank are digits. */
  lemma {:induction false} ChosenDigits(bats: seq<Battery>, idx: seq<int>)
    requires Indexed(bats) && InBank(bats, idx)
    ensures Digits(Chosen(bats, idx))
  {
    if idx != [] {
      ChosenDigits(bats, idx[1..]);
      forall i | 0 < i < |idx|
        ensures 0 <= Chosen(bats, idx)[i] <= 9
      {
        assert Chosen(bats, idx)[i] == Chosen(bats, idx[1..])[i - 1];
      }
    }
  }

  /** The number spelled by a leading digit and the rest. */
  lemma {:induction false} JoltageCons(v: int, rest: seq<int>)
    ensures Joltage([v] + rest) == v * Pow(10, |rest|) + Joltage(rest)
    decreases |rest|
  {
    var s := [v] + rest;
    if rest == [] {
      assert s[..0] == [];
    } else {
      var init := rest[..|rest| - 1];
      JoltageCons(v, init);
      assert s[..|s| - 1] == [v] + init;
      var p := Pow(10, |init|);
      assert (v * p) * 10 == v * (10 * p);
    }
  }

  /** A smaller leading digit gives a smaller number, whatever follows. */
  lemma {:induction false} LeadingDigit(v: int, w: int, c: int, g: int, p: int)
    requires v < w && 0 <= c < p && 0 <= g
    ensures v * p + c < w * p + g
  {
    assert (w - v) * p >= p by {
      MulAtLeast(w - v, p);
    }
  }

  /** Numbers of as many digits compare by their leading digits first,
      then by the rest. */
  lemma {:induction false} JoltageLex(s: seq<int>, t: seq<int>)
    requires s != [] && |s| == |t| && Digits(s) && Digits(t)
    requires s[0] <= t[0]
    requires s[0] == t[0] ==> Joltage(s[1..]) <= Joltage(t[1..])
    ensures Joltage(s) <= Joltage(t)
  {
    var c, g := s[1..], t[1..];
    assert s == [s[0]] + c && t == [t[0]] + g;
    assert Digits(c) && Digits(g) by {
      forall i | 0 <= i < |c|
        ensures 0 <= c[i] <= 9 && 0 <= g[i] <= 9
      {
        assert c[i] == s[i + 1] && g[i] == t[i + 1];
      }
    }
    JoltageCons(s[0], c);
    JoltageCons(t[0], g);
    if s[0] < t[0] {
      JoltageBound(c);
      JoltageBound(g);
      LeadingDigit(s[0], t[0], Joltage(c), Joltage(g), Pow(10, |c|));
    }
  }

  /** A choice's voltages: the first battery's, then the rest's. */
  lemma {:induction false} ChosenSplit(bats: seq<Battery>, idx: seq<int>)
    requires Indexed(bats) && InBank(bats, idx) && idx != []
    ensures Chosen(bats, idx)[0] == bats[idx[0]].voltage
    ensures Chosen(bats, idx)[1..] == Chosen(bats, idx[1..])
    ensures Digits(Chosen(bats, idx))
  {
    ChosenDigits(bats, idx);
  }

  /** The greedy voltages: the pick's, then the later rounds'. */
  lemma {:induction false} GreedySplit(bats: seq<Battery>, offset: int, n: nat)
    requires Indexed(bats) && 0 <= offset && offset + n <= |bats| && n > 0
    ensures Greedy(bats, offset, n)[0] == Pick(bats, offset, n).voltage
    ensures Greedy(bats, offset, n)[1..] == Greedy(bats, Pick(bats, offset, n).position + 1, n - 1)
    ensures Digits(Greedy(bats, offset, n))
  {
    GreedyDigits(bats, offset, n);
  }

  /** The first battery of a choice lies in the window of the first round,
      so it is no greater than the pick; if it is as great, it is not
      before the pick. */
  lemma {:induction false} FirstPick(bats: seq<Battery>, offset: int, idx: seq<int>)
    requires Indexed(bats) && Choice(bats, offset, idx) && 0 <= offset && offset + |idx| <= |bats| && idx != []
    ensures bats[idx[0]].voltage <= Pick(bats, offset, |idx|).voltage
    ensures bats[idx[0]].voltage == Pick(bats, offset, |idx|).voltage ==> idx[0] >= Pick(bats, offset, |idx|).position
  {
    ChoiceRoom(bats, offset, idx);
    PickWindow(bats, offset, |idx|);
  }

  /** No choice of `m` batteries from `offset` on spells a larger number
      than the greedy one. */
  lemma {:induction false} GreedyOptimal(bats: seq<Battery>, offset: int, idx: seq<int>)
    requires Indexed(bats) && Choice(bats, offset, idx) && 0 <= offset && offset + |idx| <= |bats|
    ensures Joltage(Chosen(bats, idx)) <= Joltage(Greedy(bats, offset, |idx|))
    decreases |idx|
  {
    ChoiceFrom(bats, offset, 0, idx);
    if idx != [] {
      var b := Pick(bats, offset, |idx|);
      var tail := idx[1..];
      TailChoice(bats, offset, idx);
      ChoiceFrom(bats, idx[0] + 1, 0, tail);
      FirstPick(bats, offset, idx);
      if bats[idx[0]].voltage == b.voltage {
        ChoiceFrom(bats, idx[0] + 1, b.position + 1, tail);
        GreedyOptimal(bats, b.position + 1, tail);
      }
      ChosenSplit(bats, idx);
      GreedySplit(bats, offset, |idx|);
      JoltageLex(Chosen(bats, idx), Greedy(bats, offset, |idx|));
    }
  }

  /** What `getLargestJoltage` returns is the largest number that any `k`
      batteries of the bank spell in bank order, and some `k` batteries
      spell it. */
  lemma {:induction false} LargestJoltage(bank: BatteryBank, k: nat, idx: seq<int>)
    requires Indexed(bank.batteries) && k <= |bank.batteries|
    ensures Choice(bank.batteries, 0, idx) && |idx| == k
      ==> Joltage(Chosen(bank.batteries, idx)) <= Joltage(Greedy(bank.batteries, 0, k))
    ensures Choice(bank.batteries, 0, GreedyPositions(bank.batteries, 0, k))
      && Chosen(bank.batteries, GreedyPositions(bank.batteries, 0, k)) == Greedy(bank.batteries, 0, k)
  {
    GreedyIsChoice(bank.batteries, 0, k);
    GreedyChosen(bank.batteries, 0, k);
    if Choice(bank.batteries, 0, idx) && |idx| == k {
      GreedyOptimal(bank.batteries, 0, idx);
    }
  }

  // ---------------------------------------------------------------------------
  // Main::run

  /** `Main::parseBatteryBanks`: one bank per line, named after its index. */
  function Banks(lines: seq<string>): (banks: seq<BatteryBank>)
    ensures |banks| == |lines|
    ensures forall i :: 0 <= i < |lines| ==> Indexed(banks[i].batteries) && |banks[i].batteries| == |Trim(lines[i])|
  {
    seq(|lines|, i requires 0 <= i < |lines| => NewBank("battery-bank-" + NatToString(i), lines[i]))
  }

  /** Every bank has at least `k` batteries. */
  predicate AllFit(banks: seq<BatteryBank>, k: nat) {
    forall i :: 0 <= i < |banks| ==> Indexed(banks[i].batteries) && k <= |banks[i].batteries|
  }

  /** The sum over the banks of the largest joltage of `k` batteries. */
  function TotalJoltage(banks: seq<BatteryBank>, k: nat): int
    requires AllFit(banks, k)
  {
    if banks == [] then 0
    else
      var last := banks[|banks| - 1];
      TotalJoltage(banks[..|banks| - 1], k) + Joltage(Greedy(last.batteries, 0, k))
  }

  /** No way of switching on `k` batteries in every bank gives a larger
      total than the greedy choices. */
  lemma {:induction false} TotalJoltageLargest(banks: seq<BatteryBank>, k: nat, choices: seq<seq<int>>)
    requires AllFit(banks, k) && |choices| == |banks|
    requires forall i :: 0 <= i < |banks| ==> Choice(banks[i].batteries, 0, choices[i]) && |choices[i]| == k
    ensures ChosenTotal(banks, choices) <= TotalJoltage(banks, k)
  {
    if banks != [] {
      var m := |banks| - 1;
      TotalJoltageLargest(banks[..m], k, choices[..m]);
      GreedyOptimal(banks[m].batteries, 0, choices[m]);
    }
  }

  /** The total of the numbers that given choices spell. */
  function ChosenTotal(banks: seq<BatteryBank>, choices: seq<seq<int>>): int
    requires |choices| == |banks|
  {
    if banks == [] then 0
    else
      var m := |banks| - 1;
      ChosenTotal(banks[..m], choices[..m]) + Joltage(Chosen(banks[m].batteries, choices[m]))
  }

  /** The `array_map` of `getLargestJoltage` over the banks, then
      `array_sum`. */
  method SumJoltages(banks: seq<BatteryBank>, k: nat) returns (total: int)
    requires AllFit(banks, k)
    ensures total == TotalJoltage(banks, k)
  {
    total := 0;
    for i := 0 to |banks|
      invariant total == TotalJoltage(banks[..i], k)
    {
      var j := GetLargestJoltage(banks[i], k);
      assert banks[..i + 1][..i] == banks[..i];
      total := total + j;
    }
    assert banks[..|banks|] == banks;
  }

  /** `Main::run`: the total joltage with two batteries per bank, then with
      twelve. */
  method Run(lines: seq<string>) returns (part1: int, part2: int)
    requires forall i :: 0 <= i < |lines| ==> PairingMax <= |Trim(lines[i])|
    ensures part1 == TotalJoltage(Banks(lines), PairingMin)
    ensures part2 == TotalJoltage(Banks(lines), PairingMax)
  {
    var banks := Banks(lines);
    part1 := SumJoltages(banks, PairingMin);
    part2 := SumJoltages(banks, PairingMax);
  }
}
