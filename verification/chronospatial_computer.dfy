/** 2024/17: a three-register machine running a program of (opcode, operand)
    pairs. Registers hold non-negative integers; `out` appends to an output list
    and `jnz` jumps to the value of its combo operand. */
module ChronospatialComputer {
  import opened Common

  const OpAdv := 0
  const OpBxl := 1
  const OpBst := 2
  const OpJnz := 3
  const OpBxc := 4
  const OpOut := 5
  const OpBdv := 6
  const OpCdv := 7

  /** Operands 4, 5 and 6 of a combo operand name the registers A, B and C. */
  const RegisterA := 4
  const RegisterB := 5
  const RegisterC := 6

  /** An operand, which the `Instruction` constructor keeps within 0..7. */
  type Operand = x: int | 0 <= x <= 7

  datatype Instruction = Instruction(opcode: int, operand: Operand)

  /** The `Instruction` constructor: an operand outside 0..7 is refused. */
  function NewInstruction(opcode: int, operand: int): (r: Result<Instruction>)
    ensures r.Ok? <==> 0 <= operand <= 7
    ensures r.Ok? ==> r.value.opcode == opcode && r.value.operand == operand
  {
    if operand > 7 || operand < 0 then Err("Invalud operand")
    else Ok(Instruction(opcode, operand))
  }

  /** `floor(a / pow(2, d))` on non-negative integers: the quotient rounded down. */
  function DivPow2(a: nat, d: nat): (q: nat)
    ensures q * Pow(2, d) <= a < (q + 1) * Pow(2, d)
  {
    PowPositive(2, d);
    a / Pow(2, d)
  }

  /** Bitwise exclusive or of two non-negative integers. */
  function Xor(x: nat, y: nat): nat
    decreases x + y
  {
    if x == 0 && y == 0 then 0
    else 2 * Xor(x / 2, y / 2) + (x % 2 + y % 2) % 2
  }

  lemma {:induction false} XorZero(x: nat)
    ensures Xor(x, 0) == x
    decreases x
  {
    if x != 0 { XorZero(x / 2); }
  }

  lemma {:induction false} XorSelf(x: nat)
    ensures Xor(x, x) == 0
    decreases x
  {
    if x != 0 { XorSelf(x / 2); }
  }

  /** The last bit of an exclusive or, and the exclusive or of the other bits. */
  lemma {:induction false} XorStep(x: nat, y: nat)
    ensures Xor(x, y) / 2 == Xor(x / 2, y / 2) && Xor(x, y) % 2 == (x % 2 + y % 2) % 2
  {
    var h, bit := Xor(x / 2, y / 2), (x % 2 + y % 2) % 2;
    if x == 0 && y == 0 {
      assert h == Xor(0, 0) == 0;
    } else {
      assert Xor(x, y) == 2 * h + bit;
    }
  }

  /** Applying the same exclusive or twice gives the register back. */
  lemma {:induction false} XorTwice(x: nat, y: nat)
    ensures Xor(Xor(x, y), y) == x
    decreases x + y
  {
    if y == 0 {
      XorZero(x);
      XorZero(Xor(x, 0));
    } else {
      var z := Xor(x, y);
      XorStep(x, y);
      XorTwice(x / 2, y / 2);
      BitTwice(x % 2, y % 2);
      assert Xor(z, y) == 2 * Xor(z / 2, y / 2) + (z % 2 + y % 2) % 2;
    }
  }

  /** One bit: (a xor b) xor b == a. */
  lemma {:induction false} BitTwice(a: nat, b: nat)
    requires a < 2 && b < 2
    ensures ((a + b) % 2 + b) % 2 == a
  {
  }

  /** The machine state the instructions act on: the three registers, the
      output list and the last jump target taken. */
  datatype Machine = Machine(a: nat, b: nat, c: nat, out: seq<nat>, jump: int)

  /** `getOperand`: 0..3 stand for themselves, 4/5/6 read A/B/C, anything else throws. */
  function Combo(m: Machine, operand: Operand): (r: Result<nat>)
    ensures r.Ok? <==> operand <= 6
    ensures 0 <= operand <= 3 ==> r == Ok(operand)
    ensures operand == RegisterA ==> r == Ok(m.a)
    ensures operand == RegisterB ==> r == Ok(m.b)
    ensures operand == RegisterC ==> r == Ok(m.c)
  {
    if operand <= 3 then Ok(operand)
    else if operand == RegisterA then Ok(m.a)
    else if operand == RegisterB then Ok(m.b)
    else if operand == RegisterC then Ok(m.c)
    else Err("Invalid instruction")
  }

  /** One instruction: whether the program counter simply advances, and the new
      state; an unknown opcode makes `runOpcode` return null where a bool is due.
      Every instruction but a taken jnz advances and leaves the jump target
      alone, and the output only grows, by at most one digit from 0 to 7. */
  function Exec(m: Machine, ins: Instruction): (r: Result<(bool, Machine)>)
    ensures !(OpAdv <= ins.opcode <= OpCdv) ==> r.Err?
    ensures r.Ok? && !r.value.0 ==> ins.opcode == OpJnz && m.a != 0 && r.value.1 == m.(jump := r.value.1.jump)
    ensures r.Ok? && r.value.0 ==> r.value.1.jump == m.jump
    ensures r.Ok? ==>
      var n := r.value.1;
      && |m.out| <= |n.out| <= |m.out| + 1
      && n.out[..|m.out|] == m.out
      && (|n.out| > |m.out| ==> n.out[|m.out|] < 8)
  {
    var v := Combo(m, ins.operand);
    if ins.opcode == OpAdv || ins.opcode == OpBdv || ins.opcode == OpCdv then
      if v.Err? then Err(v.msg)
      else
        var q := DivPow2(m.a, v.value);
        Ok((true, if ins.opcode == OpAdv then m.(a := q) else if ins.opcode == OpBdv then m.(b := q) else m.(c := q)))
    else if ins.opcode == OpBxl then
      Ok((true, m.(b := Xor(m.b, ins.operand))))
    else if ins.opcode == OpBst then
      if v.Err? then Err(v.msg) else Ok((true, m.(b := v.value % 8)))
    else if ins.opcode == OpJnz then
      if m.a == 0 then Ok((true, m))
      else if v.Err? then Err(v.msg)
      else Ok((false, m.(jump := v.value)))
    else if ins.opcode == OpBxc then
      Ok((true, m.(b := Xor(m.b, m.c))))
    else if ins.opcode == OpOut then
      if v.Err? then Err(v.msg) else Ok((true, m.(out := m.out + [v.value % 8])))
    else Err("Unknown opcode")
  }

  /** Where the program counter goes after `ins` ran on `m` and left `next`. */
  function NextIndex(i: int, ins: Instruction, advanced: bool, next: Machine): int {
    if advanced then i + 1 else next.jump
  }

  /** How a run ends: the program counter left the program, or the step budget
      ran out first. */
  datatype Outcome = Halted(m: Machine, i: int) | OutOfFuel(m: Machine, i: int)

  /** The `do ... while ($i < $l)` loop of `run`, from instruction `i`, for at
      most `fuel` instructions. */
  function RunFrom(prog: seq<Instruction>, m: Machine, i: nat, fuel: nat): Result<Outcome>
    decreases fuel
  {
    if fuel == 0 then Ok(OutOfFuel(m, i))
    else if i >= |prog| then Err("Undefined instruction")
    else
      var r := Exec(m, prog[i]);
      if r.Err? then Err(r.msg)
      else
        var next := NextIndex(i, prog[i], r.value.0, r.value.1);
        if next >= |prog| then Ok(Halted(r.value.1, next))
        else RunFrom(prog, r.value.1, next, fuel - 1)
  }

  /** `run`: the first instruction is fetched before the loop test, so an empty
      program fails. */
  function RunProgram(prog: seq<Instruction>, m: Machine, fuel: nat): (r: Result<Outcome>)
    ensures prog == [] && fuel > 0 ==> r.Err?
    ensures r.Ok? && r.value.Halted? ==> r.value.i >= |prog|
    ensures r.Ok? ==> |m.out| <= |r.value.m.out| && r.value.m.out[..|m.out|] == m.out
  {
    var run := RunFrom(prog, m, 0, fuel);
    if run.Err? then run
    else
      RunOutput(prog, m, 0, fuel);
      if run.value.Halted? then HaltedPastEnd(prog, m, 0, fuel); run else run
  }

  // ---------------------------------------------------------------------------
  // Properties of the instructions

  /** adv, bdv and cdv divide A by 2 to the combo operand, rounding down. */
  lemma {:induction false} DivisionInstructions(m: Machine, ins: Instruction)
    requires (ins.opcode == OpAdv || ins.opcode == OpBdv || ins.opcode == OpCdv) && ins.operand <= 6
    ensures var r := Exec(m, ins);
      var d := Combo(m, ins.operand).value;
      var q := r.value.1;
      && r.Ok? && r.value.0
      && (ins.opcode == OpAdv ==> q == m.(a := q.a) && q.a * Pow(2, d) <= m.a < (q.a + 1) * Pow(2, d))
      && (ins.opcode == OpBdv ==> q == m.(b := q.b) && q.b * Pow(2, d) <= m.a < (q.b + 1) * Pow(2, d))
      && (ins.opcode == OpCdv ==> q == m.(c := q.c) && q.c * Pow(2, d) <= m.a < (q.c + 1) * Pow(2, d))
  {
  }

  /** bxl and then bxl again with the same operand leave B as it was. */
  lemma {:induction false} BxlTwice(m: Machine, operand: Operand)
    ensures var ins := Instruction(OpBxl, operand);
      var r := Exec(m, ins);
      && r.Ok? && r.value.1.b == Xor(m.b, operand)
      && Exec(r.value.1, ins).Ok? && Exec(r.value.1, ins).value.1 == m
  {
    XorTwice(m.b, operand);
  }

  /** bst and out keep only the last three bits of the combo operand. */
  lemma {:induction false} ThreeBitResults(m: Machine, ins: Instruction)
    requires (ins.opcode == OpBst || ins.opcode == OpOut) && ins.operand <= 6
    ensures var r := Exec(m, ins);
      && r.Ok? && r.value.0
      && (ins.opcode == OpBst ==> r.value.1 == m.(b := Combo(m, ins.operand).value % 8) && r.value.1.b < 8)
      && (ins.opcode == OpOut ==> r.value.1.out == m.out + [Combo(m, ins.operand).value % 8])
  {
  }

  /** jnz falls through when A is 0; otherwise it records the combo operand as
      the jump target and does not advance. */
  lemma {:induction false} JnzSemantics(m: Machine, operand: Operand)
    ensures var r := Exec(m, Instruction(OpJnz, operand));
      && (m.a == 0 ==> r == Ok((true, m)))
      && (m.a != 0 && operand <= 6 ==> r == Ok((false, m.(jump := Combo(m, operand).value))))
      && (m.a != 0 && operand == 7 ==> r.Err?)
  {
  }

  // ---------------------------------------------------------------------------
  // Properties of a run

  /** A run that halts leaves the program counter past the last instruction. */
  lemma {:induction false} HaltedPastEnd(prog: seq<Instruction>, m: Machine, i: nat, fuel: nat)
    requires RunFrom(prog, m, i, fuel).Ok? && RunFrom(prog, m, i, fuel).value.Halted?
    ensures RunFrom(prog, m, i, fuel).value.i >= |prog|
    decreases fuel
  {
    var r := Exec(m, prog[i]);
    var next := NextIndex(i, prog[i], r.value.0, r.value.1);
    if next < |prog| {
      HaltedPastEnd(prog, r.value.1, next, fuel - 1);
    }
  }

  /** Once a run halts, a larger step budget gives the same result. */
  lemma {:induction false} MoreFuelSameHalt(prog: seq<Instruction>, m: Machine, i: nat, fuel: nat, extra: nat)
    requires RunFrom(prog, m, i, fuel).Ok? && RunFrom(prog, m, i, fuel).value.Halted?
    ensures RunFrom(prog, m, i, fuel + extra) == RunFrom(prog, m, i, fuel)
    decreases fuel
  {
    var r := Exec(m, prog[i]);
    var next := NextIndex(i, prog[i], r.value.0, r.value.1);
    if next < |prog| {
      MoreFuelSameHalt(prog, r.value.1, next, fuel - 1, extra);
    }
  }

  /** The output of a run extends the output it started with, by digits 0..7. */
  lemma {:induction false} RunOutput(prog: seq<Instruction>, m: Machine, i: nat, fuel: nat)
    requires RunFrom(prog, m, i, fuel).Ok?
    ensures var out := RunFrom(prog, m, i, fuel).value.m.out;
      && |m.out| <= |out| && out[..|m.out|] == m.out
      && forall k :: |m.out| <= k < |out| ==> out[k] < 8
    decreases fuel
  {
    if fuel > 0 {
      var r := Exec(m, prog[i]);
      var n := r.value.1;
      var next := NextIndex(i, prog[i], r.value.0, n);
      if next < |prog| {
        RunOutput(prog, n, next, fuel - 1);
        var out := RunFrom(prog, n, next, fuel - 1).value.m.out;
        assert out[..|n.out|][..|m.out|] == out[..|m.out|];
      }
    }
  }

  // ---------------------------------------------------------------------------
  // The computer object

  class Computer {
    var a: nat
    var b: nat
    var c: nat
    const program: seq<Instruction>
    /** The list `out` appends to. */
    var output: seq<nat>
    /** The last target `jnz` jumped to. */
    var jump: int

    constructor(a0: nat, b0: nat, c0: nat, prog: seq<Instruction>)
      ensures State() == Machine(a0, b0, c0, [], -1) && program == prog
    {
      a, b, c := a0, b0, c0;
      program := prog;
      output := [];
      jump := -1;
    }

    function State(): Machine
      reads this
    {
      Machine(a, b, c, output, jump)
    }

    /** `getOperand`, with the register read to its value. */
    method GetOperand(ins: Instruction) returns (r: Result<nat>)
      ensures r == Combo(State(), ins.operand)
    {
      if ins.operand <= 3 {
        r := Ok(ins.operand);
      } else if ins.operand == RegisterA {
        r := Ok(a);
      } else if ins.operand == RegisterB {
        r := Ok(b);
      } else if ins.operand == RegisterC {
        r := Ok(c);
      } else {
        r := Err("Invalid instruction");
      }
    }

    /** adv, bdv, cdv: the register the opcode names receives A / 2^combo. */
    method Dv(ins: Instruction) returns (r: Result<bool>)
      requires ins.opcode == OpAdv || ins.opcode == OpBdv || ins.opcode == OpCdv
      modifies this
      ensures r.Ok? <==> Combo(old(State()), ins.operand).Ok?
      ensures r.Ok? ==> r.value && State() == Exec(old(State()), ins).value.1
      ensures r.Err? ==> State() == old(State()) && r.msg == Combo(old(State()), ins.operand).msg
    {
      var den := GetOperand(ins);
      if den.Err? {
        return Err(den.msg);
      }
      var q := DivPow2(a, den.value);
      if ins.opcode == OpAdv {
        a := q;
      } else if ins.opcode == OpBdv {
        b := q;
      } else {
        c := q;
      }
      return Ok(true);
    }

    /** bst: B receives the combo operand modulo 8. */
    method Bst(ins: Instruction) returns (r: Result<bool>)
      modifies this
      ensures r.Ok? <==> Combo(old(State()), ins.operand).Ok?
      ensures r.Ok? ==> r.value && State() == old(State()).(b := Combo(old(State()), ins.operand).value % 8)
      ensures r.Err? ==> State() == old(State()) && r.msg == Combo(old(State()), ins.operand).msg
    {
      var input := GetOperand(ins);
      if input.Err? {
        return Err(input.msg);
      }
      b := input.value % 8;
      return Ok(true);
    }

    /** bxc: B receives B xor C. */
    method Bxc(ins: Instruction) returns (r: bool)
      modifies this
      ensures r && State() == old(State()).(b := Xor(old(b), old(c)))
    {
      b := Xor(b, c);
      return true;
    }

    /** bxl: B receives B xor the literal operand. */
    method Bxl(ins: Instruction) returns (r: bool)
      modifies this
      ensures r && State() == old(State()).(b := Xor(old(b), ins.operand))
    {
      b := Xor(b, ins.operand);
      return true;
    }

    /** jnz: true (advance) when A is 0; otherwise the combo operand becomes
        the jump target and the answer is false. */
    method Jnz(ins: Instruction) returns (r: Result<bool>)
      modifies this
      ensures old(a) == 0 ==> r == Ok(true) && State() == old(State())
      ensures old(a) != 0 ==> (r.Ok? <==> Combo(old(State()), ins.operand).Ok?)
      ensures old(a) != 0 && r.Ok? ==> !r.value && State() == old(State()).(jump := Combo(old(State()), ins.operand).value)
      ensures r.Err? ==> State() == old(State()) && r.msg == Combo(old(State()), ins.operand).msg
    {
      if a == 0 {
        return Ok(true);
      }
      var target := GetOperand(ins);
      if target.Err? {
        return Err(target.msg);
      }
      jump := target.value;
      return Ok(false);
    }

    /** out: the combo operand modulo 8 is appended to the output. */
    method Out(ins: Instruction) returns (r: Result<bool>)
      modifies this
      ensures r.Ok? <==> Combo(old(State()), ins.operand).Ok?
      ensures r.Ok? ==> r.value && State() == old(State()).(out := old(output) + [Combo(old(State()), ins.operand).value % 8])
      ensures r.Err? ==> State() == old(State()) && r.msg == Combo(old(State()), ins.operand).msg
    {
      var input := GetOperand(ins);
      if input.Err? {
        return Err(input.msg);
      }
      output := output + [input.value % 8];
      return Ok(true);
    }

    /** `runOpcode`: dispatch on the opcode. */
    method RunOpcode(ins: Instruction) returns (r: Result<bool>)
      modifies this
      ensures var e := Exec(old(State()), ins);
        && (r.Ok? <==> e.Ok?)
        && (r.Ok? ==> r.value == e.value.0 && State() == e.value.1)
        && (r.Err? ==> State() == old(State()) && r.msg == e.msg)
    {
      if ins.opcode == OpAdv || ins.opcode == OpBdv || ins.opcode == OpCdv {
        r := Dv(ins);
      } else if ins.opcode == OpBxl {
        var ok := Bxl(ins);
        r := Ok(ok);
      } else if ins.opcode == OpBst {
        r := Bst(ins);
      } else if ins.opcode == OpJnz {
        r := Jnz(ins);
      } else if ins.opcode == OpBxc {
        var ok := Bxc(ins);
        r := Ok(ok);
      } else if ins.opcode == OpOut {
        r := Out(ins);
      } else {
        r := Err("Unknown opcode");
      }
    }

    /** `run`, for at most `fuel` instructions: execute the instruction at `i`,
        advance on success or jump to the operand of a taken jnz, and stop once
        `i` reaches the length of the program. */
    method Run(fuel: nat) returns (r: Result<Outcome>)
      modifies this
      ensures r == RunProgram(program, old(State()), fuel)
      ensures r.Ok? ==> State() == r.value.m
    {
      var l := |program|;
      var i: nat := 0;
      var steps: nat := 0;
      while true
        invariant steps <= fuel
        invariant RunProgram(program, old(State()), fuel) == RunFrom(program, State(), i, fuel - steps)
        decreases fuel - steps
      {
        if steps == fuel {
          return Ok(OutOfFuel(State(), i));
        }
        if i >= l {
          return Err("Undefined instruction");
        }
        var ins := program[i];
        var success := RunOpcode(ins);
        if success.Err? {
          return Err(success.msg);
        }
        if success.value {
          i := i + 1;
        } else if ins.opcode == OpJnz {
          var target := GetOperand(ins);
          i := target.value;
        }
        steps := steps + 1;
        if i >= l {
          return Ok(Halted(State(), i));
        }
      }
    }
  }
}
