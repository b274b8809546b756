/** 2024/13: claw machines with two buttons. Button A moves the claw by
    `(xA, yA)` and costs 3 tokens, button B by `(xB, yB)` and costs 1. The
    presses that reach the prize solve a 2×2 linear system, which is solved
    with Cramer's rule over the integers. */
module ClawMachines {
  import opened Common

  /** `MatrixA`: the matrix of the system, one column per button. */
  datatype MatrixA = MatrixA(a11: int, a12: int, a21: int, a22: int)

  /** `MatrixB` as a value: a prize position, or a pair of press counts. */
  datatype Pair = Pair(b1: int, b2: int)

  const TokenA := 3
  const TokenB := 1
  const MaxTokens := 100
  /** The unit error added to every prize in part 2. */
  const UnitError := 10_000_000_000_000

  /** The matrix of a machine (`SlotMachine` constructor): the first row holds
      the x moves of A and B, the second row their y moves. */
  function Buttons(xA: int, yA: int, xB: int, yB: int): (m: MatrixA)
    ensures m.a11 == xA && m.a12 == xB && m.a21 == yA && m.a22 == yB
  {
    MatrixA(xA, xB, yA, yB)
  }

  /** `$denom`: the determinant. */
  function Denom(m: MatrixA): int {
    m.a11 * m.a22 - m.a21 * m.a12
  }

  /** `inverse`: the adjugate matrix (the inverse times the determinant). */
  function Inverse(m: MatrixA): MatrixA {
    MatrixA(m.a22, -1 * m.a12, -1 * m.a21, m.a11)
  }

  /** `m` times the vector `v`. */
  function Apply(m: MatrixA, v: Pair): Pair {
    Pair(m.a11 * v.b1 + m.a12 * v.b2, m.a21 * v.b1 + m.a22 * v.b2)
  }

  /** The adjugate undoes the matrix up to the determinant:
      `inverse(m) · (m · v) = denom · v`. */
  lemma {:induction false} InverseApply(m: MatrixA, v: Pair)
    ensures Apply(Inverse(m), Apply(m, v)) == Pair(Denom(m) * v.b1, Denom(m) * v.b2)
  {
    var w := Apply(m, v);
    calc {
      Apply(Inverse(m), w).b1;
      m.a22 * (m.a11 * v.b1 + m.a12 * v.b2) - m.a12 * (m.a21 * v.b1 + m.a22 * v.b2);
      { Distribute(m.a22, m.a11 * v.b1, m.a12 * v.b2); Distribute(m.a12, m.a21 * v.b1, m.a22 * v.b2); }
      (m.a11 * m.a22 - m.a21 * m.a12) * v.b1;
    }
    calc {
      Apply(Inverse(m), w).b2;
      -m.a21 * (m.a11 * v.b1 + m.a12 * v.b2) + m.a11 * (m.a21 * v.b1 + m.a22 * v.b2);
      { Distribute(m.a21, m.a11 * v.b1, m.a12 * v.b2); Distribute(m.a11, m.a21 * v.b1, m.a22 * v.b2); }
      (m.a11 * m.a22 - m.a21 * m.a12) * v.b2;
    }
  }

  /** And the other way round: `m · (inverse(m) · v) = denom · v`. */
  lemma {:induction false} ApplyInverse(m: MatrixA, v: Pair)
    ensures Apply(m, Apply(Inverse(m), v)) == Pair(Denom(m) * v.b1, Denom(m) * v.b2)
  {
    var w := Apply(Inverse(m), v);
    calc {
      Apply(m, w).b1;
      m.a11 * (m.a22 * v.b1 - m.a12 * v.b2) + m.a12 * (-m.a21 * v.b1 + m.a11 * v.b2);
      { Distribute(m.a11, m.a22 * v.b1, -m.a12 * v.b2); Distribute(m.a12, -m.a21 * v.b1, m.a11 * v.b2); }
      (m.a11 * m.a22 - m.a21 * m.a12) * v.b1;
    }
    calc {
      Apply(m, w).b2;
      m.a21 * (m.a22 * v.b1 - m.a12 * v.b2) + m.a22 * (-m.a21 * v.b1 + m.a11 * v.b2);
      { Distribute(m.a21, m.a22 * v.b1, -m.a12 * v.b2); Distribute(m.a22, -m.a21 * v.b1, m.a11 * v.b2); }
      (m.a11 * m.a22 - m.a21 * m.a12) * v.b2;
    }
  }

  lemma {:induction false} Distribute(x: int, y: int, z: int)
    ensures x * (y + z) == x * y + x * z
  {
  }

  /** `SlotMachine::solve`: the presses `(top / denom, bot / denom)` when both
      numerators are multiples of the determinant, null otherwise. PHP's `%`
      ignores the sign of the divisor, so the test is taken modulo `|denom|`;
      a zero determinant makes `%` throw. */
  function Solve(buttons: MatrixA, prize: Pair): (r: Result<Option<Pair>>)
    ensures r.Err? <==> Denom(buttons) == 0
    ensures r.Ok? && r.value.Some? ==> Apply(buttons, r.value.value) == prize
  {
    var denom := Denom(buttons);
    if denom == 0 then Err("Modulo by zero")
    else
      var inv := Apply(Inverse(buttons), prize);
      var top, bot := inv.b1, inv.b2;
      if PhpMod(top, Abs(denom)) == 0 && PhpMod(bot, Abs(denom)) == 0
      then
        var presses := Pair(PhpDiv(top, denom), PhpDiv(bot, denom));
        DividesExactly(top, denom);
        DividesExactly(bot, denom);
        ApplyInverse(buttons, prize);
        ScaledApply(buttons, presses, denom);
        CancelPair(Apply(buttons, presses), prize, denom);
        Ok(Some(presses))
      else Ok(None)
  }

  /** An exact quotient is the same whatever the rounding. */
  lemma {:induction false} ExactDiv(a: int, d: int, q: int)
    requires d != 0 && a == q * d
    ensures PhpDiv(a, d) == q
    ensures PhpMod(a, Abs(d)) == 0
  {
    ExactAbs(a, d, q);
    DivModUnique(Abs(a), Abs(d), Abs(q), 0);
    ExactSign(a, d, q);
  }

  lemma {:induction false} ExactSign(a: int, d: int, q: int)
    requires d != 0 && a == q * d
    ensures (a >= 0) == (d > 0) ==> q >= 0
    ensures (a >= 0) != (d > 0) ==> q <= 0
  {
    if d > 0 {
      MulSign(q, d);
    } else {
      MulSign(-q, -d);
    }
  }

  lemma {:induction false} MulSign(x: int, y: int)
    requires y > 0
    ensures x >= 0 <==> x * y >= 0
  {
    if x < 0 {
      MulAtLeast(-x, y);
    }
  }

  lemma {:induction false} ExactAbs(a: int, d: int, q: int)
    requires d != 0 && a == q * d
    ensures Abs(a) == Abs(q) * Abs(d)
  {
  }

  /** A zero PHP remainder means an exact division. */
  lemma {:induction false} DividesExactly(a: int, d: int)
    requires d != 0 && PhpMod(a, Abs(d)) == 0
    ensures a == PhpDiv(a, d) * d
  {
    var q := Abs(a) / Abs(d);
    assert Abs(a) == q * Abs(d);
  }

  /** Scaling the presses scales the move. */
  lemma {:induction false} ScaledApply(m: MatrixA, r: Pair, d: int)
    ensures Apply(m, Pair(r.b1 * d, r.b2 * d)) == Pair(Apply(m, r).b1 * d, Apply(m, r).b2 * d)
  {
    assert m.a11 * (r.b1 * d) + m.a12 * (r.b2 * d) == (m.a11 * r.b1 + m.a12 * r.b2) * d;
    assert m.a21 * (r.b1 * d) + m.a22 * (r.b2 * d) == (m.a21 * r.b1 + m.a22 * r.b2) * d;
  }

  lemma {:induction false} CancelPair(x: Pair, y: Pair, d: int)
    requires d != 0 && x.b1 * d == d * y.b1 && x.b2 * d == d * y.b2
    ensures x == y
  {
    Cancel(x.b1, y.b1, d);
    Cancel(x.b2, y.b2, d);
  }

  lemma {:induction false} Cancel(x: int, y: int, d: int)
    requires d != 0 && x * d == d * y
    ensures x == y
  {
    assert (x - y) * d == 0;
  }

  /** And `solve` finds every solution: when the determinant is not zero
      and some presses reach the prize, `solve` returns exactly them. */
  lemma {:induction false} SolveComplete(buttons: MatrixA, r: Pair)
    requires Denom(buttons) != 0
    ensures Solve(buttons, Apply(buttons, r)) == Ok(Some(r))
  {
    var denom := Denom(buttons);
    var prize := Apply(buttons, r);
    InverseApply(buttons, r);
    ExactDiv(denom * r.b1, denom, r.b1);
    ExactDiv(denom * r.b2, denom, r.b2);
  }

  // ---------------------------------------------------------------------------
  // Token cost

  /** Presses counted by `Main::run` as written: any solution counts, even
      one that presses a button a negative number of times. */
  function CostAsWritten(buttons: MatrixA, prize: Pair, limit: Option<int>): Result<int> {
    match Solve(buttons, prize)
    case Err(e) => Err(e)
    case Ok(None) => Ok(0)
    case Ok(Some(r)) =>
      if limit.None? || (r.b1 <= limit.value && r.b2 <= limit.value)
      then Ok(TokenA * r.b1 + TokenB * r.b2)
      else Ok(0)
  }

  /** A machine where the only solution presses A minus three times: its cost
      is counted as minus 3 tokens. */
  lemma {:induction false} NegativePresses()
    ensures Solve(Buttons(2, 1, 1, 1), Pair(0, 3)) == Ok(Some(Pair(-3, 6)))
    ensures CostAsWritten(Buttons(2, 1, 1, 1), Pair(0, 3), Some(MaxTokens)) == Ok(-3)
  {
    SolveComplete(Buttons(2, 1, 1, 1), Pair(-3, 6));
  }

  /** The tokens to win a machine's prize: only solutions with no negative
      press count (and, in part 1, at most `limit` presses of each button)
      win. */
  function Cost(buttons: MatrixA, prize: Pair, limit: Option<int>): Result<int> {
    match Solve(buttons, prize)
    case Err(e) => Err(e)
    case Ok(None) => Ok(0)
    case Ok(Some(r)) =>
      if r.b1 >= 0 && r.b2 >= 0 && (limit.None? || (r.b1 <= limit.value && r.b2 <= limit.value))
      then Ok(TokenA * r.b1 + TokenB * r.b2)
      else Ok(0)
  }

  /** Presses that win: none negative, within the limit, reaching the prize. */
  predicate Wins(buttons: MatrixA, prize: Pair, limit: Option<int>, r: Pair) {
    && r.b1 >= 0 && r.b2 >= 0
    && (limit.None? || (r.b1 <= limit.value && r.b2 <= limit.value))
    && Apply(buttons, r) == prize
  }

  /** The cost is that of the winning presses when there are some, and 0
      when there are none; it is never negative. */
  lemma {:induction false} CostWins(buttons: MatrixA, prize: Pair, limit: Option<int>, r: Pair)
    requires Denom(buttons) != 0
    ensures Cost(buttons, prize, limit).Ok? && Cost(buttons, prize, limit).value >= 0
    ensures Wins(buttons, prize, limit, r) ==> Cost(buttons, prize, limit) == Ok(TokenA * r.b1 + TokenB * r.b2)
    ensures Cost(buttons, prize, limit).value > 0 ==>
      exists w :: Wins(buttons, prize, limit, w) && Cost(buttons, prize, limit).value == TokenA * w.b1 + TokenB * w.b2
  {
    if Wins(buttons, prize, limit, r) {
      SolveComplete(buttons, r);
    }
    match Solve(buttons, prize)
    case Ok(Some(w)) =>
      if Cost(buttons, prize, limit).value > 0 {
        assert Wins(buttons, prize, limit, w);
      }
    case _ =>
  }

  /** The cost of one machine: as `Main::run` counts it, or, when `fixed`,
      with only winning presses counted. */
  function MachineCost(buttons: MatrixA, prize: Pair, limit: Option<int>, fixed: bool): Result<int> {
    if fixed then Cost(buttons, prize, limit) else CostAsWritten(buttons, prize, limit)
  }

  /** The two costs differ only on a machine whose solution presses a
      button a negative number of times. */
  lemma {:induction false} CostsAgree(buttons: MatrixA, prize: Pair, limit: Option<int>)
    ensures CostAsWritten(buttons, prize, limit) != Cost(buttons, prize, limit) <==>
      Solve(buttons, prize).Ok? && Solve(buttons, prize).value.Some? &&
      var r := Solve(buttons, prize).value.value;
      (r.b1 < 0 || r.b2 < 0) && (limit.None? || (r.b1 <= limit.value && r.b2 <= limit.value)) &&
      TokenA * r.b1 + TokenB * r.b2 != 0
  {
  }

  /** The machines' total, stopping at the first exception. */
  function Tokens(machines: seq<(MatrixA, Pair)>, limit: Option<int>, fixed: bool): Result<int> {
    if machines == [] then Ok(0)
    else
      var last := machines[|machines| - 1];
      match Tokens(machines[..|machines| - 1], limit, fixed)
      case Err(e) => Err(e)
      case Ok(t) =>
        match MachineCost(last.0, last.1, limit, fixed)
        case Err(e) => Err(e)
        case Ok(c) => Ok(t + c)
  }

  /** The corrected total is never negative. */
  lemma {:induction false} TokensNonNegative(machines: seq<(MatrixA, Pair)>, limit: Option<int>)
    ensures Tokens(machines, limit, true).Ok? ==> Tokens(machines, limit, true).value >= 0
  {
    if machines != [] {
      var last := machines[|machines| - 1];
      TokensNonNegative(machines[..|machines| - 1], limit);
      if Denom(last.0) != 0 {
        CostWins(last.0, last.1, limit, Pair(0, 0));
      }
    }
  }

  /** No solution with a negative press among the machines. */
  predicate NoNegativePresses(machines: seq<(MatrixA, Pair)>) {
    forall i :: 0 <= i < |machines| ==>
      match Solve(machines[i].0, machines[i].1)
      case Ok(Some(r)) => r.b1 >= 0 && r.b2 >= 0
      case _ => true
  }

  /** Without negative presses the total as written is the corrected one. */
  lemma {:induction false} TokensAgree(machines: seq<(MatrixA, Pair)>, limit: Option<int>)
    requires NoNegativePresses(machines)
    ensures Tokens(machines, limit, false) == Tokens(machines, limit, true)
  {
    if machines != [] {
      var n := |machines| - 1;
      assert NoNegativePresses(machines[..n]) by {
        forall i | 0 <= i < n ensures machines[..n][i] == machines[i] {}
      }
      TokensAgree(machines[..n], limit);
      CostsAgree(machines[n].0, machines[n].1, limit);
    }
  }

  /** The machine of `NegativePresses` makes the total as written negative. */
  lemma {:induction false} NegativeTotal()
    ensures Tokens([(Buttons(2, 1, 1, 1), Pair(0, 3))], Some(MaxTokens), false) == Ok(-3)
    ensures Tokens([(Buttons(2, 1, 1, 1), Pair(0, 3))], Some(MaxTokens), true) == Ok(0)
  {
    var ms := [(Buttons(2, 1, 1, 1), Pair(0, 3))];
    NegativePresses();
    assert ms[..0] == [];
  }

  /** `MatrixB` as the mutable prize of a machine. */
  class MatrixB {
    var b1: int
    var b2: int

    constructor(b1: int, b2: int)
      ensures this.b1 == b1 && this.b2 == b2
    {
      this.b1 := b1;
      this.b2 := b2;
    }

    function Value(): Pair
      reads this
    {
      Pair(b1, b2)
    }

    /** `add`: adds `b` componentwise. */
    method Add(b: MatrixB)
      modifies this
      ensures Value() == Pair(old(b1) + old(b.b1), old(b2) + old(b.b2))
    {
      b1 := b1 + b.b1;
      b2 := b2 + b.b2;
    }
  }

  /** `SlotMachine`: the buttons and the prize of one machine. */
  class SlotMachine {
    const buttons: MatrixA
    const prize: MatrixB

    constructor(xA: int, yA: int, xB: int, yB: int, px: int, py: int)
      ensures buttons == Buttons(xA, yA, xB, yB) && prize.Value() == Pair(px, py)
      ensures fresh(prize)
    {
      buttons := Buttons(xA, yA, xB, yB);
      prize := new MatrixB(px, py);
    }
  }

  /** The machines as values. */
  function Snapshot(machines: seq<SlotMachine>): seq<(MatrixA, Pair)>
    reads set m | m in machines :: m.prize
  {
    seq(|machines|, i requires 0 <= i < |machines| reads set m | m in machines :: m.prize =>
      (machines[i].buttons, machines[i].prize.Value()))
  }

  /** Part 1 of `Main::run`: the tokens for every solution with at most 100
      presses of each button, counted as written (a negative press count
      included, see `NegativeTotal`). */
  method Part1(machines: seq<SlotMachine>) returns (r: Result<int>)
    ensures r == Tokens(Snapshot(machines), Some(MaxTokens), false)
  {
    var total := 0;
    for k := 0 to |machines|
      invariant Tokens(Snapshot(machines)[..k], Some(MaxTokens), false) == Ok(total)
    {
      var m := machines[k];
      var c := CostAsWritten(m.buttons, m.prize.Value(), Some(MaxTokens));
      TokensNext(Snapshot(machines), k, Some(MaxTokens), false, total, c);
      if c.Err? {
        return Err(c.msg);
      }
      total := total + c.value;
    }
    assert Snapshot(machines)[..|machines|] == Snapshot(machines);
    return Ok(total);
  }

  /** The total of the first `k + 1` machines from that of the first `k`:
      the next machine's cost added on, or its exception, which then ends
      the whole total. */
  lemma {:induction false} TokensNext(machines: seq<(MatrixA, Pair)>, k: nat, limit: Option<int>, fixed: bool, t: int, c: Result<int>)
    requires k < |machines| && Tokens(machines[..k], limit, fixed) == Ok(t)
    requires c == MachineCost(machines[k].0, machines[k].1, limit, fixed)
    ensures c.Err? ==> Tokens(machines, limit, fixed) == Err(c.msg)
    ensures c.Ok? ==> Tokens(machines[..k + 1], limit, fixed) == Ok(t + c.value)
  {
    assert machines[..k + 1][..k] == machines[..k];
    if c.Err? {
      TokensErr(machines, k + 1, limit, fixed);
    }
  }

  /** Once a machine throws, so does the whole total. */
  lemma {:induction false} TokensErr(machines: seq<(MatrixA, Pair)>, k: nat, limit: Option<int>, fixed: bool)
    requires 0 < k <= |machines| && Tokens(machines[..k], limit, fixed).Err?
    ensures Tokens(machines, limit, fixed) == Tokens(machines[..k], limit, fixed)
    decreases |machines| - k
  {
    if k < |machines| {
      assert machines[..k + 1][..k] == machines[..k];
      TokensErr(machines, k + 1, limit, fixed);
    } else {
      assert machines[..k] == machines;
    }
  }

  /** Part 2 of `Main::run`: every prize is moved by the unit error, then the
      tokens are counted as written with no press limit. An exception stops the loop,
      leaving the later prizes where they were. */
  method Part2(machines: seq<SlotMachine>) returns (r: Result<int>)
    requires forall i, j :: 0 <= i < j < |machines| ==> machines[i].prize != machines[j].prize
    modifies set m | m in machines :: m.prize
    ensures r == Tokens(MovedAll(old(Snapshot(machines))), None, false)
    ensures forall i :: 0 <= i < |machines| ==>
      || machines[i].prize.Value() == Moved(old(machines[i].prize.Value()))
      || (r.Err? && machines[i].prize.Value() == old(machines[i].prize.Value()))
  {
    var unitError := new MatrixB(UnitError, UnitError);
    var total := 0;
    ghost var start := Snapshot(machines);
    ghost var target := MovedAll(start);
    for k := 0 to |machines|
      invariant unitError.Value() == Pair(UnitError, UnitError)
      invariant forall i :: 0 <= i < |machines| ==> machines[i].prize != unitError
      invariant forall i :: 0 <= i < |machines| ==>
        machines[i].prize.Value() == if i < k then Moved(start[i].1) else start[i].1
      invariant Tokens(target[..k], None, false) == Ok(total)
    {
      var c := MoveAndCost(machines, k, unitError);
      assert target[k] == (machines[k].buttons, machines[k].prize.Value());
      TokensNext(target, k, None, false, total, c);
      if c.Err? {
        return Err(c.msg);
      }
      total := total + c.value;
    }
    assert target[..|machines|] == target;
    return Ok(total);
  }

  /** Every prize moved by the unit error. */
  function MovedAll(ms: seq<(MatrixA, Pair)>): (r: seq<(MatrixA, Pair)>)
    ensures |r| == |ms|
    ensures forall i :: 0 <= i < |ms| ==> r[i] == (ms[i].0, Moved(ms[i].1))
  {
    seq(|ms|, i requires 0 <= i < |ms| => (ms[i].0, Moved(ms[i].1)))
  }

  /** One machine of part 2: its prize moved by `unitError`, then its cost
      with no press limit. No other prize changes. */
  method MoveAndCost(machines: seq<SlotMachine>, k: nat, unitError: MatrixB) returns (c: Result<int>)
    requires k < |machines|
    requires forall i, j :: 0 <= i < j < |machines| ==> machines[i].prize != machines[j].prize
    requires machines[k].prize != unitError && unitError.Value() == Pair(UnitError, UnitError)
    modifies machines[k].prize
    ensures machines[k].prize.Value() == Moved(old(machines[k].prize.Value()))
    ensures forall i :: 0 <= i < |machines| && i != k ==> machines[i].prize.Value() == old(machines[i].prize.Value())
    ensures c == CostAsWritten(machines[k].buttons, machines[k].prize.Value(), None)
  {
    var m := machines[k];
    m.prize.Add(unitError);
    forall i | 0 <= i < |machines| && i != k
      ensures machines[i].prize.Value() == old(machines[i].prize.Value())
    {
      assert machines[i].prize != m.prize;
    }
    c := CostAsWritten(m.buttons, m.prize.Value(), None);
  }

  /** A prize moved by the unit error. */
  function Moved(p: Pair): Pair {
    Pair(p.b1 + UnitError, p.b2 + UnitError)
  }
}
