/** 2025/01: a safe's dial numbered 0 to 99, starting at 50, turned left or
    right by the instructions of a document; the answer is the number of
    turns that leave the dial pointing at 0. */
module DialLock {
  import opened Common
  import opened Text

  const LockStart := 50
  const LockMin := 0
  const LockMax := 99

  datatype Direction = L | R

  /** A turn: a direction and a number of clicks (`\d+` in the document). */
  datatype Instruction = Instruction(direction: Direction, rotation: nat)

  /** `Instruction::DirectionFrom`: "L" or "R"; anything else throws. */
  function DirectionFrom(s: string): (r: Result<Direction>)
    ensures r == Ok(L) <==> s == "L"
    ensures r == Ok(R) <==> s == "R"
    ensures r.Err? <==> s != "L" && s != "R"
  {
    if s == "L" then Ok(L)
    else if s == "R" then Ok(R)
    else Err("Invalid direction " + s)
  }

  /** `Instruction::__toString`: the direction letter, then the clicks. */
  function InstructionString(i: Instruction): string {
    (if i.direction == L then "L" else "R") + NatToString(i.rotation)
  }

  /** One line of the document, trimmed and matched against `^(L|R)(\d+)$`;
      a line that does not match gives null. */
  function ParseInstruction(line: string): Option<Instruction> {
    var t := Trim(line);
    if |t| >= 2 && (t[0] == 'L' || t[0] == 'R') && AllDigits(t[1..]) then
      match DirectionFrom(t[..1])
      case Ok(d) => Some(Instruction(d, StringToNat(t[1..])))
      case Err(_) => None
    else None
  }

  /** Reading back a written instruction gives it again. */
  lemma {:induction false} ParseInstructionString(i: Instruction)
    ensures ParseInstruction(InstructionString(i)) == Some(i)
  {
    var s := InstructionString(i);
    var d := NatToString(i.rotation);
    assert s[1..] == d;
    assert s[..1] == if i.direction == L then "L" else "R";
    TrimKeeps(s);
    StringToNatOfNatToString(i.rotation);
  }

  /** `Main::parseInstructions` followed by `Main::rotate`: a line that
      does not match becomes null, and rotating by null throws. */
  function ParseInstructions(lines: seq<string>): (r: Result<seq<Instruction>>)
    ensures r.Ok? <==> forall k :: 0 <= k < |lines| ==> ParseInstruction(lines[k]).Some?
    ensures r.Ok? ==> |r.value| == |lines|
    ensures r.Ok? ==> forall k :: 0 <= k < |lines| ==> ParseInstruction(lines[k]) == Some(r.value[k])
  {
    if lines == [] then Ok([])
    else
      match ParseInstruction(lines[0])
      case None => Err("Lock::rotate(): Argument #1 ($i) must be of type Instruction, null given")
      case Some(i) =>
        match ParseInstructions(lines[1..])
        case Err(e) => Err(e)
        case Ok(rest) => Ok([i] + rest)
  }

  /** The written form of every instruction, one per line. */
  function Document(instrs: seq<Instruction>): (lines: seq<string>)
    ensures |lines| == |instrs|
    ensures forall k :: 0 <= k < |instrs| ==> lines[k] == InstructionString(instrs[k])
  {
    if instrs == [] then [] else [InstructionString(instrs[0])] + Document(instrs[1..])
  }

  /** Reading the written instructions gives them all back. */
  lemma {:induction false} ParseDocument(instrs: seq<Instruction>)
    ensures ParseInstructions(Document(instrs)) == Ok(instrs)
  {
    if instrs != [] {
      var lines := Document(instrs);
      ParseInstructionString(instrs[0]);
      ParseDocument(instrs[1..]);
      assert lines[1..] == Document(instrs[1..]);
      assert instrs == [instrs[0]] + instrs[1..];
    }
  }

  /** The signed number of clicks of a turn. */
  function Clicks(i: Instruction): int {
    (if i.direction == R then 1 else -1) * i.rotation
  }

  /** Where the dial really points after the turns, on a dial of `size`
      positions: the start plus all clicks, taken modulo `size`. */
  function Position(start: int, size: nat, instrs: seq<Instruction>): (p: int)
    requires size > 0
    ensures 0 <= p < size
  {
    if instrs == [] then start % size
    else (Position(start, size, instrs[..|instrs| - 1]) + Clicks(instrs[|instrs| - 1])) % size
  }

  /** How many of the turns leave the dial pointing at 0. */
  function ZeroHits(start: int, size: nat, instrs: seq<Instruction>): nat
    requires size > 0
  {
    if instrs == [] then 0
    else ZeroHits(start, size, instrs[..|instrs| - 1]) + (if Position(start, size, instrs) == 0 then 1 else 0)
  }

  /** `Lock`. */
  class Lock {
    var dial: int
    const min: int
    const max: int
    var zeroCount: int

    constructor(dial: int, min: int, max: int)
      requires max >= 0
      ensures this.dial == dial && this.min == min && this.max == max && zeroCount == 0
    {
      this.dial := dial;
      this.min := min;
      this.max := max;
      zeroCount := 0;
    }

    /** `rotate`: `(max + 1 + dial ± clicks) % (max + 1)` with PHP's `%`,
        which keeps the sign of a negative dividend; the count goes up when
        the result is 0. */
    method Rotate(i: Instruction)
      requires max >= 0
      modifies this
      ensures dial == PhpMod(max + 1 + old(dial) + Clicks(i), max + 1)
      ensures zeroCount == old(zeroCount) + (if dial == 0 then 1 else 0)
    {
      var incr := if i.direction == R then 1 else -1;
      dial := PhpMod(max + 1 + dial + incr * i.rotation, max + 1);
      zeroCount := zeroCount + (if dial == 0 then 1 else 0);
    }

    /** `Main::rotate`: every instruction in turn. The dial may go negative
        (PHP's `%`), but it always points where the real dial does, so the
        count of zeros is right. */
    method RotateAll(instrs: seq<Instruction>)
      requires max >= 0 && -max <= dial <= max
      modifies this
      ensures -max <= dial <= max
      ensures dial % (max + 1) == Position(old(dial), max + 1, instrs)
      ensures zeroCount == old(zeroCount) + ZeroHits(old(dial), max + 1, instrs)
    {
      for k := 0 to |instrs|
        invariant -max <= dial <= max
        invariant dial % (max + 1) == Position(old(dial), max + 1, instrs[..k])
        invariant zeroCount == old(zeroCount) + ZeroHits(old(dial), max + 1, instrs[..k])
      {
        ghost var before := dial;
        Rotate(instrs[k]);
        assert instrs[..k + 1][..k] == instrs[..k];
        StepAgrees(before, max + 1, instrs[k]);
        ZeroAgrees(dial, max + 1);
      }
      assert instrs[..|instrs|] == instrs;
    }
  }

  /** `Main::run`: a lock at 50 on a dial from 0 to 99 takes every
      instruction of the document; the answer is its zero count. */
  method Run(lines: seq<string>) returns (r: Result<int>)
    ensures r.Err? <==> ParseInstructions(lines).Err?
    ensures r.Ok? ==> r.value == ZeroHits(LockStart, LockMax + 1, ParseInstructions(lines).value)
  {
    var parsed := ParseInstructions(lines);
    if parsed.Err? {
      return Err(parsed.msg);
    }
    var lock := new Lock(LockStart, LockMin, LockMax);
    lock.RotateAll(parsed.value);
    return Ok(lock.zeroCount);
  }

  /** One turn keeps the dial where the real dial points, and within
      `(-size, size)`. */
  lemma {:induction false} StepAgrees(d: int, size: int, i: Instruction)
    requires size > 0
    ensures var next := PhpMod(size + d + Clicks(i), size);
      -size < next < size && next % size == (d % size + Clicks(i)) % size
  {
    var a := size + d + Clicks(i);
    if a >= 0 {
      ModMod(a, size);
    } else {
      NegMod(a, size);
    }
    assert PhpMod(a, size) % size == a % size;
    ModShift(a, size);
    ModAdd(d, Clicks(i), size);
  }

  /** A remainder is its own remainder. */
  lemma {:induction false} ModMod(a: int, size: int)
    requires size > 0
    ensures (a % size) % size == a % size
  {
    DivModUnique(a % size, size, 0, a % size);
  }

  /** Taking `size` away does not change the remainder. */
  lemma {:induction false} ModShift(a: int, size: int)
    requires size > 0
    ensures (a - size) % size == a % size
  {
    DivModUnique(a, size, (a - size) / size + 1, (a - size) % size);
  }

  /** PHP's remainder of a negative dividend is the Euclidean one minus
      `size` (or 0). */
  lemma {:induction false} NegMod(a: int, size: int)
    requires size > 0 && a < 0
    ensures PhpMod(a, size) % size == a % size
  {
    var m := (-a) % size;
    var q := (-a) / size;
    assert -a == q * size + m;
    if m == 0 {
      DivModUnique(a, size, -q, 0);
    } else {
      DivModUnique(a, size, -q - 1, size - m);
      DivModUnique(-m, size, -1, size - m);
    }
  }

  /** Adding to a number and to its remainder give the same remainder. */
  lemma {:induction false} ModAdd(d: int, c: int, size: int)
    requires size > 0
    ensures (d + c) % size == (d % size + c) % size
  {
    var q := d / size;
    var r := (d % size + c) % size;
    var q2 := (d % size + c) / size;
    assert d % size + c == q2 * size + r;
    DivModUnique(d + c, size, q + q2, r);
  }

  /** A dial within `(-size, size)` shows 0 exactly when the real dial
      does. */
  lemma {:induction false} ZeroAgrees(d: int, size: int)
    requires size > 0 && -size < d < size
    ensures d == 0 <==> d % size == 0
  {
    if d < 0 {
      DivModUnique(d, size, -1, d + size);
    } else {
      DivModUnique(d, size, 0, d);
    }
  }

  /** A turn that does not go below zero leaves the dial between 0 and
      `max`, on the position the real dial shows. */
  lemma {:induction false} InRange(d: int, size: int, i: Instruction)
    requires size > 0 && size + d + Clicks(i) >= 0
    ensures PhpMod(size + d + Clicks(i), size) == (d + Clicks(i)) % size
    ensures 0 <= PhpMod(size + d + Clicks(i), size) < size
  {
    ModShift(size + d + Clicks(i), size);
  }

  /** A long enough left turn takes the dial below zero: from 50, turning
      left by 200 leaves the dial at -50 (it points at 50, as it should). */
  lemma {:induction false} NegativeDial()
    ensures PhpMod(LockMax + 1 + LockStart + Clicks(Instruction(L, 200)), LockMax + 1) == -50
    ensures Position(LockStart, LockMax + 1, [Instruction(L, 200)]) == 50
  {
    assert Position(LockStart, LockMax + 1, []) == 50;
    assert [Instruction(L, 200)][..0] == [];
  }
}
