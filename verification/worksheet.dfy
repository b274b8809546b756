/** 2025/06: a math worksheet. Lines of numbers stand above a line of
    operators; each operation adds or multiplies its numbers and the
    answer adds up the results. Read left to right, the k-th number of
    every row belongs to the k-th operation. Read right to left, every
    column of digits, top to bottom, is one number, and a blank column
    closes an operation and moves to the one before. The source reads the
    numbers as floats; they are integers here. */
module MathWorksheet {
  import opened Common
  import opened Text

  datatype SolvingMode = LeftToRight | RightToLeft

  datatype Operator = Add | Multi

  datatype Operation = Operation(operands: seq<int>, operator: Operator)

  // ---------------------------------------------------------------------------
  // operations

  /** `Operation::from`: '+' adds, '*' multiplies; anything else throws,
      and so does a missing operator (`null` for a `string` parameter). */
  function From(operands: seq<int>, operator: Option<string>): (r: Result<Operation>)
    ensures r.Ok? <==> operator == Some("+") || operator == Some("*")
    ensures r.Ok? ==> r.value.operands == operands && (r.value.operator == Add <==> operator == Some("+"))
  {
    if operator == Some("+") then Ok(Operation(operands, Add))
    else if operator == Some("*") then Ok(Operation(operands, Multi))
    else Err("Unknown operator")
  }

  /** The `array_reduce` of `*` from 1. */
  function Product(s: seq<int>): int {
    if s == [] then 1 else Product(s[..|s| - 1]) * s[|s| - 1]
  }

  /** `Operation::solve`: the sum, or the product, of the operands; with
      no operand these are 0 and 1. */
  function Solve(op: Operation): (r: int)
    ensures op.operands == [] ==> r == if op.operator == Add then 0 else 1
  {
    match op.operator
    case Add => Sum(op.operands)
    case Multi => Product(op.operands)
  }

  /** One step of either fold. */
  function Combine(operator: Operator, acc: int, x: int): int {
    if operator == Add then acc + x else acc * x
  }

  /** One more operand adds to the sum, or multiplies the product. */
  lemma {:induction false} SolveSnoc(operands: seq<int>, x: int, operator: Operator)
    ensures Solve(Operation(operands + [x], operator)) == Combine(operator, Solve(Operation(operands, operator)), x)
  {
    var s := operands + [x];
    assert s[..|s| - 1] == operands;
    SumAppend(operands, [x]);
  }

  /** The order of the operands does not change the result. */
  lemma {:induction false} SolveOrderFree(a: seq<int>, b: seq<int>, operator: Operator)
    requires multiset(a) == multiset(b)
    ensures Solve(Operation(a, operator)) == Solve(Operation(b, operator))
    decreases |a|
  {
    if a == [] {
      assert |b| == |multiset(b)| == 0;
    } else {
      var a', x := a[..|a| - 1], a[|a| - 1];
      assert x in multiset(b) by {
        assert a == a' + [x];
        assert x in multiset(a);
      }
      var k :| 0 <= k < |b| && b[k] == x;
      var p, q := b[..k], b[k + 1..];
      WithoutOne(a, |a| - 1);
      WithoutOne(b, k);
      calc {
        Solve(Operation(a, operator));
        { assert a == a' + [x]; SolveSnoc(a', x, operator); }
        Combine(operator, Solve(Operation(a', operator)), x);
        { SolveOrderFree(a', p + q, operator); }
        Combine(operator, Solve(Operation(p + q, operator)), x);
        { SolveSnoc(p + q, x, operator); }
        Solve(Operation(p + q + [x], operator));
        { MoveLast(p, x, q, operator); }
        Solve(Operation(p + [x] + q, operator));
        { assert b == p + [x] + q; }
        Solve(Operation(b, operator));
      }
    }
  }

  /** Taking one element out of a list takes it out of its multiset. */
  lemma {:induction false} WithoutOne(s: seq<int>, k: nat)
    requires k < |s|
    ensures multiset(s[..k] + s[k + 1..]) == multiset(s) - multiset{s[k]}
    ensures s == s[..k] + [s[k]] + s[k + 1..]
  {
    assert s == s[..k] + [s[k]] + s[k + 1..];
  }

  /** Moving one operand to the end does not change the result. */
  lemma {:induction false} MoveLast(p: seq<int>, x: int, q: seq<int>, operator: Operator)
    ensures Solve(Operation(p + [x] + q, operator)) == Solve(Operation(p + q + [x], operator))
    decreases |q|
  {
    if q == [] {
      assert p + [x] + q == p + q + [x];
    } else {
      var q', y := q[..|q| - 1], q[|q| - 1];
      assert q == q' + [y];
      var v := Solve(Operation(p + q', operator));
      calc {
        Solve(Operation(p + [x] + q, operator));
        { assert p + [x] + q == (p + [x] + q') + [y]; SolveSnoc(p + [x] + q', y, operator); }
        Combine(operator, Solve(Operation(p + [x] + q', operator)), y);
        { MoveLast(p, x, q', operator); }
        Combine(operator, Solve(Operation(p + q' + [x], operator)), y);
        { SolveSnoc(p + q', x, operator); }
        Combine(operator, Combine(operator, v, x), y);
        { CombineSwap(operator, v, x, y); }
        Combine(operator, Combine(operator, v, y), x);
        { SolveSnoc(p + q', y, operator); }
        Combine(operator, Solve(Operation(p + q' + [y], operator)), x);
        { assert p + q + [x] == (p + q' + [y]) + [x]; SolveSnoc(p + q' + [y], x, operator); }
        Solve(Operation(p + q + [x], operator));
      }
    }
  }

  /** Two steps of a fold can be swapped. */
  lemma {:induction false} CombineSwap(operator: Operator, v: int, x: int, y: int)
    ensures Combine(operator, Combine(operator, v, x), y) == Combine(operator, Combine(operator, v, y), x)
  {
    if operator == Multi {
      assert v * x * y == v * y * x;
    }
  }

  /** `Worksheet::solve`: the results of the operations added up. */
  function Total(ops: seq<Operation>): (r: int)
    ensures |ops| == 1 ==> r == Solve(ops[0])
    ensures (forall k :: 0 <= k < |ops| ==> Solve(ops[k]) >= 0) ==> r >= 0
  {
    if ops == [] then 0
    else
      var n := |ops| - 1;
      assert forall k :: 0 <= k < n ==> ops[..n][k] == ops[k];
      Total(ops[..n]) + Solve(ops[n])
  }

  /** The total of two lists of operations is the sum of their totals. */
  lemma {:induction false} TotalAppend(a: seq<Operation>, b: seq<Operation>)
    ensures Total(a + b) == Total(a) + Total(b)
    decreases |b|
  {
    if b == [] {
      assert a + b == a;
    } else {
      assert (a + b)[..|a + b| - 1] == a + b[..|b| - 1];
      TotalAppend(a, b[..|b| - 1]);
    }
  }

  // ---------------------------------------------------------------------------
  // the two line patterns

  /** `^((:?\d+)\s*)+$`: numbers, each after an optional ':', with white
      space after any of them. */
  predicate OperandLine(s: string)
    decreases |s|
  {
    var p := if s != [] && s[0] == ':' then 1 else 0;
    var d := DigitRun(s[p..]);
    d > 0 &&
    var w := SpaceRun(s[p + d..]);
    p + d + w == |s| || OperandLine(s[p + d + w..])
  }

  /** One of `[\+|\*]`. */
  predicate OperatorChar(c: char) {
    c == '+' || c == '|' || c == '*'
  }

  /** `^((:?[\+|\*])\s*)+$`: operator characters, each after an optional
      ':', with white space after any of them. */
  predicate OperatorLine(s: string)
    decreases |s|
  {
    var p := if s != [] && s[0] == ':' then 1 else 0;
    p < |s| && OperatorChar(s[p]) &&
    var w := SpaceRun(s[p + 1..]);
    p + 1 + w == |s| || OperatorLine(s[p + 1 + w..])
  }

  /** A line of numbers has a digit, which no operator line has. */
  lemma {:induction false} LinesApart(s: string)
    ensures OperandLine(s) ==> exists i :: 0 <= i < |s| && IsDigit(s[i])
    ensures OperatorLine(s) ==> forall i :: 0 <= i < |s| ==> !IsDigit(s[i])
    decreases |s|
  {
    var p := if s != [] && s[0] == ':' then 1 else 0;
    if OperandLine(s) {
      assert IsDigit(s[p..][0]);
      assert IsDigit(s[p]);
    }
    if OperatorLine(s) {
      var w := SpaceRun(s[p + 1..]);
      assert AllSpaces(s[p + 1..][..w]);
      if p + 1 + w < |s| {
        LinesApart(s[p + 1 + w..]);
      }
      forall i | 0 <= i < |s|
        ensures !IsDigit(s[i])
      {
        if p + 1 <= i < p + 1 + w {
          assert s[i] == s[p + 1..][..w][i - p - 1];
        } else if p + 1 + w <= i {
          assert s[i] == s[p + 1 + w..][i - p - 1 - w];
        }
      }
    }
  }

  /** `preg_replace('/\s+/', ' ', $s)`: every run of white space becomes
      one space. */
  function Collapse(s: string): string
    decreases |s|
  {
    if s == [] then []
    else if IsSpace(s[0]) then
      var n := SpaceRun(s);
      " " + Collapse(s[n..])
    else [s[0]] + Collapse(s[1..])
  }

  /** The pieces `explode(' ', ...)` cuts a collapsed line into. */
  function Tokens(s: string): seq<string> {
    Explode(Collapse(s), ' ')
  }

  /** Single spaces between pieces without white space stay as they are. */
  predicate SingleSpaced(s: string) {
    forall i :: 0 <= i < |s| && IsSpace(s[i]) ==> s[i] == ' ' && (i + 1 < |s| ==> !IsSpace(s[i + 1]))
  }

  lemma {:induction false} CollapseKeeps(s: string)
    requires SingleSpaced(s)
    ensures Collapse(s) == s
    decreases |s|
  {
    if s != [] {
      if IsSpace(s[0]) {
        assert SpaceRun(s) == 1 by {
          if |s| > 1 {
            assert !IsSpace(s[1]);
            assert SpaceRun(s[1..]) == 0;
          }
        }
        assert SingleSpaced(s[1..]) by {
          forall i | 0 <= i < |s[1..]| && IsSpace(s[1..][i])
            ensures s[1..][i] == ' ' && (i + 1 < |s[1..]| ==> !IsSpace(s[1..][i + 1]))
          {
            assert s[1..][i] == s[i + 1];
          }
        }
        CollapseKeeps(s[1..]);
        assert [s[0]] + s[1..] == s;
      } else {
        assert SingleSpaced(s[1..]) by {
          forall i | 0 <= i < |s[1..]| && IsSpace(s[1..][i])
            ensures s[1..][i] == ' ' && (i + 1 < |s[1..]| ==> !IsSpace(s[1..][i + 1]))
          {
            assert s[1..][i] == s[i + 1];
          }
        }
        CollapseKeeps(s[1..]);
        assert [s[0]] + s[1..] == s;
      }
    }
  }

  /** Pieces written with one space between them are read back. */
  lemma {:induction false} TokensOfJoined(ts: seq<string>)
    requires ts != []
    requires forall t :: t in ts ==> t != [] && forall i :: 0 <= i < |t| ==> !IsSpace(t[i])
    ensures Tokens(Implode(ts, ' ')) == ts
  {
    JoinedSingleSpaced(ts);
    CollapseKeeps(Implode(ts, ' '));
    ExplodeImplode(ts, ' ');
  }

  lemma {:induction false} JoinedSingleSpaced(ts: seq<string>)
    requires ts != []
    requires forall t :: t in ts ==> t != [] && forall i :: 0 <= i < |t| ==> !IsSpace(t[i])
    ensures SingleSpaced(Implode(ts, ' '))
    ensures Implode(ts, ' ') != [] && !IsSpace(Implode(ts, ' ')[0])
  {
    assert ts[0] in ts;
    if |ts| > 1 {
      assert forall t :: t in ts[1..] ==> t in ts;
      JoinedSingleSpaced(ts[1..]);
      var a, b := ts[0], Implode(ts[1..], ' ');
      var s := a + [' '] + b;
      assert Implode(ts, ' ') == s;
      assert forall i :: 0 <= i < |a| ==> s[i] == a[i];
      forall i | 0 <= i < |s| && IsSpace(s[i])
        ensures s[i] == ' ' && (i + 1 < |s| ==> !IsSpace(s[i + 1]))
      {
        if i == |a| {
          assert s[i + 1] == b[0];
        } else if i > |a| {
          assert s[i] == b[i - |a| - 1];
          if i + 1 < |s| {
            assert s[i + 1] == b[i - |a|];
          }
        }
      }
      assert s[0] == a[0];
    }
  }

  // ---------------------------------------------------------------------------
  // reading left to right

  /** `(float)` of a piece: the value of its leading digits. */
  function Values(tokens: seq<string>): (r: seq<int>)
    ensures |r| == |tokens| && forall k :: 0 <= k < |tokens| ==> r[k] == ToInt(tokens[k])
  {
    seq(|tokens|, k requires 0 <= k < |tokens| => ToInt(tokens[k]))
  }

  /** One line of numbers pushes its k-th number onto operation k's list. */
  function AddColumns(cols: seq<seq<int>>, vals: seq<int>): (r: seq<seq<int>>)
    ensures |r| == Max(|cols|, |vals|)
  {
    seq(Max(|cols|, |vals|), k requires 0 <= k < Max(|cols|, |vals|) =>
      (if k < |cols| then cols[k] else []) + (if k < |vals| then [vals[k]] else []))
  }

  /** One line of operators sets the operators of its positions; positions
      past its end keep theirs. */
  function Overwrite(ops: seq<string>, line: seq<string>): (r: seq<string>)
    ensures |r| == Max(|ops|, |line|)
  {
    if |ops| > |line| then line + ops[|line|..] else line
  }

  /** The operand lists the `initLTR` reduce collects. */
  function LtrOperands(lines: seq<string>): seq<seq<int>> {
    if lines == [] then []
    else
      var t := Trim(lines[|lines| - 1]);
      var acc := LtrOperands(lines[..|lines| - 1]);
      if OperandLine(t) then AddColumns(acc, Values(Tokens(t))) else acc
  }

  /** The operators both reduces collect. */
  function OperatorsOf(lines: seq<string>): seq<string> {
    if lines == [] then []
    else
      var t := Trim(lines[|lines| - 1]);
      var acc := OperatorsOf(lines[..|lines| - 1]);
      if OperatorLine(t) then Overwrite(acc, Tokens(t)) else acc
  }

  /** The numbers of the lines of numbers, row by row. */
  function OperandRows(lines: seq<string>): seq<seq<int>> {
    if lines == [] then []
    else
      var t := Trim(lines[|lines| - 1]);
      OperandRows(lines[..|lines| - 1]) + if OperandLine(t) then [Values(Tokens(t))] else []
  }

  /** The k-th number of every row that has one, top to bottom. */
  function Column(rows: seq<seq<int>>, k: nat): seq<int> {
    if rows == [] then []
    else Column(rows[..|rows| - 1], k) + if k < |rows[|rows| - 1]| then [rows[|rows| - 1][k]] else []
  }

  /** The length of the longest row. */
  function Widest(rows: seq<seq<int>>): nat {
    if rows == [] then 0 else Max(Widest(rows[..|rows| - 1]), |rows[|rows| - 1]|)
  }

  /** A row never reaches past the widest one. */
  lemma {:induction false} ColumnPastWidest(rows: seq<seq<int>>, k: nat)
    requires k >= Widest(rows)
    ensures Column(rows, k) == []
  {
    if rows != [] {
      ColumnPastWidest(rows[..|rows| - 1], k);
    }
  }

  /** Left to right, operation k collects the k-th number of every row
      of numbers, in the order of the rows, and there are as many
      operations as the longest row has numbers. */
  lemma {:induction false} LtrColumns(lines: seq<string>)
    ensures |LtrOperands(lines)| == Widest(OperandRows(lines))
    ensures forall k :: 0 <= k < |LtrOperands(lines)| ==> LtrOperands(lines)[k] == Column(OperandRows(lines), k)
  {
    if lines != [] {
      var init := lines[..|lines| - 1];
      LtrColumns(init);
      var t := Trim(lines[|lines| - 1]);
      if OperandLine(t) {
        assert OperandRows(lines) == OperandRows(init) + [Values(Tokens(t))];
        LtrColumnsStep(OperandRows(init), LtrOperands(init), Values(Tokens(t)));
      } else {
        assert OperandRows(lines) == OperandRows(init) + [];
        assert OperandRows(init) + [] == OperandRows(init);
      }
    }
  }

  /** One more line of numbers adds one number to each of the first
      operations. */
  lemma {:induction false} LtrColumnsStep(rows: seq<seq<int>>, acc: seq<seq<int>>, vals: seq<int>)
    requires |acc| == Widest(rows)
    requires forall k :: 0 <= k < |acc| ==> acc[k] == Column(rows, k)
    ensures |AddColumns(acc, vals)| == Widest(rows + [vals])
    ensures forall k :: 0 <= k < |AddColumns(acc, vals)| ==> AddColumns(acc, vals)[k] == Column(rows + [vals], k)
  {
    var rows' := rows + [vals];
    assert rows'[..|rows'| - 1] == rows;
    forall k | 0 <= k < |AddColumns(acc, vals)|
      ensures AddColumns(acc, vals)[k] == Column(rows', k)
    {
      if k >= |acc| {
        ColumnPastWidest(rows, k);
      }
    }
  }

  /** The pieces of the lines of operators, row by row. */
  function OperatorRows(lines: seq<string>): seq<seq<string>> {
    if lines == [] then []
    else
      var t := Trim(lines[|lines| - 1]);
      OperatorRows(lines[..|lines| - 1]) + if OperatorLine(t) then [Tokens(t)] else []
  }

  /** The k-th piece of the last row that has one. */
  function LastAt(rows: seq<seq<string>>, k: nat): Option<string> {
    if rows == [] then None
    else if k < |rows[|rows| - 1]| then Some(rows[|rows| - 1][k])
    else LastAt(rows[..|rows| - 1], k)
  }

  /** Operator k comes from the last line of operators long enough to
      have one. */
  lemma {:induction false} OperatorsFromLastLine(lines: seq<string>)
    ensures forall k :: 0 <= k < |OperatorsOf(lines)| ==> LastAt(OperatorRows(lines), k) == Some(OperatorsOf(lines)[k])
    ensures forall k :: k >= |OperatorsOf(lines)| ==> LastAt(OperatorRows(lines), k) == None
  {
    if lines != [] {
      var init := lines[..|lines| - 1];
      OperatorsFromLastLine(init);
      var rows := OperatorRows(lines);
      var t := Trim(lines[|lines| - 1]);
      if OperatorLine(t) {
        assert rows[..|rows| - 1] == OperatorRows(init);
      } else {
        assert rows == OperatorRows(init);
      }
    }
  }

  /** The operator of position `k`, `null` past the end. */
  function OperatorAt(ops: seq<string>, k: int): Option<string> {
    if 0 <= k < |ops| then Some(ops[k]) else None
  }

  /** The `foreach` of `initLTR`: one operation per operand list, in
      order; the first unknown operator throws. */
  function Build(operands: seq<seq<int>>, ops: seq<string>): (r: Result<seq<Operation>>)
    ensures r.Ok? <==> forall k :: 0 <= k < |operands| ==> KnownOperator(ops, k)
    ensures r.Ok? ==>
      |r.value| == |operands| &&
      forall k :: 0 <= k < |r.value| ==>
        r.value[k].operands == operands[k] && (r.value[k].operator == Add <==> OperatorAt(ops, k) == Some("+"))
  {
    if operands == [] then Ok([])
    else
      var n := |operands| - 1;
      var init := operands[..n];
      assert forall k :: 0 <= k < n ==> init[k] == operands[k];
      match Build(init, ops)
      case Err(m) =>
        assert exists k :: 0 <= k < n && !KnownOperator(ops, k);
        Err(m)
      case Ok(done) =>
        match From(operands[n], OperatorAt(ops, n))
        case Err(m) =>
          assert !KnownOperator(ops, n);
          Err(m)
        case Ok(op) => Ok(done + [op])
  }

  /** Position `k` has a '+' or '*' operator. */
  predicate KnownOperator(ops: seq<string>, k: int) {
    0 <= k < |ops| && (ops[k] == "+" || ops[k] == "*")
  }

  /** Once a prefix fails, the whole fails the same way. */
  lemma {:induction false} BuildStopsAtFirstError(operands: seq<seq<int>>, ops: seq<string>, i: nat)
    requires i <= |operands| && Build(operands[..i], ops).Err?
    ensures Build(operands, ops) == Build(operands[..i], ops)
  {
    if i < |operands| {
      var n := |operands| - 1;
      assert operands[..n][..i] == operands[..i];
      BuildStopsAtFirstError(operands[..n], ops, i);
    } else {
      assert operands[..i] == operands;
    }
  }

  /** `Worksheet::initLTR`. */
  method InitLTR(lines: seq<string>) returns (r: Result<seq<Operation>>)
    ensures r == Build(LtrOperands(lines), OperatorsOf(lines))
  {
    var operands := LtrOperands(lines);
    var operators := OperatorsOf(lines);
    var operations: seq<Operation> := [];
    for index := 0 to |operands|
      invariant Build(operands[..index], operators) == Ok(operations)
    {
      assert operands[..index + 1][..index] == operands[..index];
      match From(operands[index], OperatorAt(operators, index))
      case Err(m) =>
        BuildStopsAtFirstError(operands, operators, index + 1);
        return Err(m);
      case Ok(op) =>
        operations := operations + [op];
    }
    assert operands[..|operands|] == operands;
    r := Ok(operations);
  }

  // ---------------------------------------------------------------------------
  // reading right to left

  /** `trim($line, PHP_EOL)`: line feeds cut from both ends. */
  function TrimEol(s: string): (r: string)
    decreases |s|
  {
    if s != [] && s[0] == '\n' then TrimEol(s[1..])
    else if s != [] && s[|s| - 1] == '\n' then TrimEol(s[..|s| - 1])
    else s
  }

  /** The lines of numbers as `initRTL` keeps them: only their line feeds
      cut, their alignment kept. */
  function RtlRows(lines: seq<string>): seq<string> {
    if lines == [] then []
    else RtlRows(lines[..|lines| - 1]) + if OperandLine(Trim(lines[|lines| - 1])) then [TrimEol(lines[|lines| - 1])] else []
  }

  /** The characters of column `col`, top to bottom; a row too short adds
      nothing (an undefined key reads as `null`). */
  function ColumnText(rows: seq<string>, col: int): string {
    if rows == [] then []
    else ColumnText(rows[..|rows| - 1], col) + if 0 <= col < |rows[|rows| - 1]| then [rows[|rows| - 1][col]] else []
  }

  /** A column that `empty(trim(...))` calls blank (which includes "0"). */
  predicate Blank(text: string) {
    Empty(Trim(text))
  }

  /** `(float)` of a column: the value of its leading digits after the
      white space a numeric string may start with. */
  function ColumnValue(text: string): int {
    ToInt(text[SpaceRun(text)..])
  }

  /** The do/while of `initRTL` from operation `opIndex` and column `col`:
      a column with something in it is pushed onto the current operation,
      a blank one moves to the operation before; it goes on while both
      indices are non-negative. */
  function Columns(rows: seq<string>, opIndex: int, col: int, operands: map<int, seq<int>>): (r: map<int, seq<int>>)
    ensures forall k :: k in operands ==> k in r
    ensures forall k :: k in r ==> k in operands || (if opIndex < 0 then opIndex else 0) <= k <= opIndex
    decreases if col < 0 then 0 else col + 1
  {
    var text := ColumnText(rows, col);
    if !Blank(text) then
      var pushed := operands[opIndex := Current(operands, opIndex) + [ColumnValue(text)]];
      if opIndex >= 0 && col - 1 >= 0 then Columns(rows, opIndex, col - 1, pushed) else pushed
    else if opIndex - 1 >= 0 && col - 1 >= 0 then Columns(rows, opIndex - 1, col - 1, operands)
    else operands
  }

  /** The operands collected so far for operation `k`. */
  function Current(operands: map<int, seq<int>>, k: int): seq<int> {
    if k in operands then operands[k] else []
  }

  /** The texts of the columns from `col` down to 0. */
  function ColumnTexts(rows: seq<string>, col: int): (r: seq<string>)
    decreases if col < 0 then 0 else col + 1
  {
    if col < 0 then [] else [ColumnText(rows, col)] + ColumnTexts(rows, col - 1)
  }

  /** The values of column texts, split into groups at the blank ones. */
  function Groups(texts: seq<string>): (r: seq<seq<int>>)
    ensures |r| >= 1
  {
    if texts == [] then [[]]
    else
      var g := Groups(texts[1..]);
      if Blank(texts[0]) then [[]] + g else [[ColumnValue(texts[0])] + g[0]] + g[1..]
  }

  /** Group `j` given to operation `top - j`, for the operations that
      exist; empty groups give no operation. */
  function Placed(top: int, groups: seq<seq<int>>): map<int, seq<int>>
    decreases |groups|
  {
    if top < 0 || groups == [] then map[]
    else
      var rest := Placed(top - 1, groups[1..]);
      if groups[0] == [] then rest else rest[top := groups[0]]
  }

  /** Operation `k` gets group `top - k`, and only non-empty groups
      from 0 up to `top` are placed. */
  lemma {:induction false} PlacedKeys(top: int, groups: seq<seq<int>>)
    ensures forall k :: k in Placed(top, groups) ==>
      0 <= k <= top && top - k < |groups| && Placed(top, groups)[k] == groups[top - k] != []
    decreases |groups|
  {
    if top >= 0 && groups != [] {
      PlacedKeys(top - 1, groups[1..]);
    }
  }

  /** The groups with `cur` in front of the first one. */
  function Join(cur: seq<int>, g: seq<seq<int>>): seq<seq<int>>
    requires g != []
  {
    [cur + g[0]] + g[1..]
  }

  /** Placing a first group at `top` and the rest below it. */
  lemma {:induction false} PlacedCons(top: int, x: seq<int>, g: seq<seq<int>>)
    requires top >= 0
    ensures Placed(top, [x] + g) == if x == [] then Placed(top - 1, g) else Placed(top - 1, g)[top := x]
  {
    assert ([x] + g)[1..] == g;
  }

  /** The general form of `RtlGroups`: a partly filled operation `cur`
      at `o` and operations `m` above it. */
  lemma {:induction false} ColumnsPlace(rows: seq<string>, o: int, col: int, m: map<int, seq<int>>, cur: seq<int>)
    requires o >= 0 && col >= 0
    requires forall k :: k in m ==> k > o
    ensures Columns(rows, o, col, if cur == [] then m else m[o := cur]) == m + Placed(o, Join(cur, Groups(ColumnTexts(rows, col))))
    decreases col, 1
  {
    var text := ColumnText(rows, col);
    var rest := ColumnTexts(rows, col - 1);
    assert ColumnTexts(rows, col) == [text] + rest;
    assert ([text] + rest)[1..] == rest;
    if !Blank(text) {
      FilledColumn(rows, o, col, m, cur);
    } else {
      BlankColumn(rows, o, col, m, cur);
    }
  }

  /** A column with something in it extends the current operation. */
  lemma {:induction false} FilledColumn(rows: seq<string>, o: int, col: int, m: map<int, seq<int>>, cur: seq<int>)
    requires o >= 0 && col >= 0
    requires forall k :: k in m ==> k > o
    requires !Blank(ColumnText(rows, col))
    ensures Columns(rows, o, col, if cur == [] then m else m[o := cur]) == m + Placed(o, Join(cur, Groups(ColumnTexts(rows, col))))
    decreases col, 0
  {
    var text := ColumnText(rows, col);
    var rest := ColumnTexts(rows, col - 1);
    var g' := Groups(rest);
    var v := ColumnValue(text);
    var cur' := cur + [v];
    GroupsFilled(rows, col);
    assert Join(cur, Groups(ColumnTexts(rows, col))) == Join(cur', g') by {
      assert cur + ([v] + g'[0]) == cur' + g'[0];
    }
    PushColumn(rows, o, col, m, cur);
    if col - 1 >= 0 {
      ColumnsPlace(rows, o, col - 1, m, cur');
    } else {
      assert g' == [[]];
      assert Join(cur', g') == [cur'] by {
        assert cur' + [] == cur';
      }
      PlacedCons(o, cur', []);
    }
  }

  /** The groups of the columns from `col` when column `col` has
      something in it. */
  lemma {:induction false} GroupsFilled(rows: seq<string>, col: int)
    requires col >= 0 && !Blank(ColumnText(rows, col))
    ensures var g' := Groups(ColumnTexts(rows, col - 1));
      Groups(ColumnTexts(rows, col)) == [[ColumnValue(ColumnText(rows, col))] + g'[0]] + g'[1..]
  {
    var text := ColumnText(rows, col);
    var rest := ColumnTexts(rows, col - 1);
    assert ColumnTexts(rows, col) == [text] + rest;
    assert ([text] + rest)[1..] == rest;
  }

  /** The groups of the columns from `col` when column `col` is blank. */
  lemma {:induction false} GroupsBlank(rows: seq<string>, col: int)
    requires col >= 0 && Blank(ColumnText(rows, col))
    ensures Groups(ColumnTexts(rows, col)) == [[]] + Groups(ColumnTexts(rows, col - 1))
  {
    var text := ColumnText(rows, col);
    var rest := ColumnTexts(rows, col - 1);
    assert ColumnTexts(rows, col) == [text] + rest;
    assert ([text] + rest)[1..] == rest;
  }

  /** One pass over a column with something in it. */
  lemma {:induction false} PushColumn(rows: seq<string>, o: int, col: int, m: map<int, seq<int>>, cur: seq<int>)
    requires o >= 0 && col >= 0
    requires o !in m
    requires !Blank(ColumnText(rows, col))
    ensures var cur' := cur + [ColumnValue(ColumnText(rows, col))];
      Columns(rows, o, col, if cur == [] then m else m[o := cur]) ==
      if col - 1 >= 0 then Columns(rows, o, col - 1, m[o := cur']) else m[o := cur']
  {
    var m0 := if cur == [] then m else m[o := cur];
    assert Current(m0, o) == cur;
    assert m0[o := cur + [ColumnValue(ColumnText(rows, col))]] == m[o := cur + [ColumnValue(ColumnText(rows, col))]];
  }

  /** A blank column closes the current operation. */
  lemma {:induction false} BlankColumn(rows: seq<string>, o: int, col: int, m: map<int, seq<int>>, cur: seq<int>)
    requires o >= 0 && col >= 0
    requires forall k :: k in m ==> k > o
    requires Blank(ColumnText(rows, col))
    ensures Columns(rows, o, col, if cur == [] then m else m[o := cur]) == m + Placed(o, Join(cur, Groups(ColumnTexts(rows, col))))
    decreases col, 0
  {
    var g' := Groups(ColumnTexts(rows, col - 1));
    var m0 := if cur == [] then m else m[o := cur];
    GroupsBlank(rows, col);
    assert Join(cur, Groups(ColumnTexts(rows, col))) == [cur] + g' by {
      assert cur + [] == cur;
    }
    PlacedCons(o, cur, g');
    var p := Placed(o - 1, g');
    PlacedKeys(o - 1, g');
    UpdateMoves(m, o, cur, p);
    SkipColumn(rows, o, col, m0);
    if o - 1 >= 0 && col - 1 >= 0 {
      ColumnsPlace(rows, o - 1, col - 1, m0, []);
      assert Join([], g') == g' by {
        assert [] + g'[0] == g'[0];
      }
    } else {
      assert p == map[];
    }
  }

  /** One pass over a column with something in it. */
  lemma {:induction false} TakeColumn(rows: seq<string>, o: int, col: int, m: map<int, seq<int>>)
    requires !Blank(ColumnText(rows, col))
    ensures var pushed := m[o := Current(m, o) + [ColumnValue(ColumnText(rows, col))]];
      Columns(rows, o, col, m) == if o >= 0 && col - 1 >= 0 then Columns(rows, o, col - 1, pushed) else pushed
  {
  }

  /** One pass over a blank column. */
  lemma {:induction false} SkipColumn(rows: seq<string>, o: int, col: int, m: map<int, seq<int>>)
    requires Blank(ColumnText(rows, col))
    ensures Columns(rows, o, col, m) == if o - 1 >= 0 && col - 1 >= 0 then Columns(rows, o - 1, col - 1, m) else m
  {
  }

  /** Setting a key that neither map has commutes with their union. */
  lemma {:induction false} UpdateMoves(m: map<int, seq<int>>, o: int, cur: seq<int>, p: map<int, seq<int>>)
    requires o !in m && o !in p
    ensures (if cur == [] then m else m[o := cur]) + p == m + (if cur == [] then p else p[o := cur])
  {
  }

  /** Right to left, operation `top - j` collects the values of the
      j-th group of columns between blank ones, rightmost column first;
      groups past operation 0 are never read. */
  lemma {:induction false} RtlGroups(rows: seq<string>, top: int, col: int)
    requires top >= 0 && col >= 0
    ensures Columns(rows, top, col, map[]) == Placed(top, Groups(ColumnTexts(rows, col)))
  {
    var g := Groups(ColumnTexts(rows, col));
    ColumnsPlace(rows, top, col, map[], []);
    assert Join([], g) == g by {
      assert [] + g[0] == g[0];
    }
    assert map[] + Placed(top, g) == Placed(top, g);
  }

  /** The operand lists of the operations from `hi - 1` down to `lo`, in
      that order (the order `initRTL` created them in); an unknown or
      missing operator throws. */
  function Down(operands: map<int, seq<int>>, ops: seq<string>, hi: int, lo: int): (r: Result<seq<Operation>>)
    ensures r.Ok? <==> forall k :: lo <= k < hi && k in operands ==> KnownOperator(ops, k)
    ensures r.Ok? ==> |r.value| <= if hi <= lo then 0 else hi - lo
    ensures r.Ok? && lo < hi && lo in operands ==>
      r.value != [] && r.value[|r.value| - 1].operands == operands[lo] &&
      (r.value[|r.value| - 1].operator == Add <==> ops[lo] == "+")
    decreases hi - lo
  {
    if hi <= lo then Ok([])
    else
      match Down(operands, ops, hi, lo + 1)
      case Err(m) => Err(m)
      case Ok(done) =>
        if lo !in operands then Ok(done)
        else
          match From(operands[lo], OperatorAt(ops, lo))
          case Err(m) => Err(m)
          case Ok(op) => Ok(done + [op])
  }

  /** Once the higher operations fail, the lower ones are never built. */
  lemma {:induction false} DownStopsAtFirstError(operands: map<int, seq<int>>, ops: seq<string>, hi: int, lo: int, mid: int)
    requires lo <= mid <= hi && Down(operands, ops, hi, mid).Err?
    ensures Down(operands, ops, hi, lo) == Down(operands, ops, hi, mid)
    decreases mid - lo
  {
    if lo < mid {
      DownStopsAtFirstError(operands, ops, hi, lo + 1, mid);
    }
  }

  /** No line of numbers: `count(false)` throws. */
  const NoRows := "count(): Argument #1 must be of type Countable|array, bool given"

  /** What `initRTL` builds from the operand rows and the operators. */
  function RtlOperations(rows: seq<string>, ops: seq<string>): (r: Result<seq<Operation>>)
    ensures rows == [] ==> r == Err(NoRows)
    ensures r.Ok? ==> |r.value| <= |ops| + 1
    ensures rows != [] ==>
      (r.Ok? <==> forall k :: k in Columns(rows, |ops| - 1, |rows[0]| - 1, map[]) ==> KnownOperator(ops, k))
  {
    if rows == [] then Err(NoRows)
    else
      var operands := Columns(rows, |ops| - 1, |rows[0]| - 1, map[]);
      assert forall k :: k in operands ==> -1 <= k < |ops|;
      Down(operands, ops, |ops|, -1)
  }

  /** The do/while of `Worksheet::initRTL`, from the last operator and
      the last column of the first row. */
  method ReadColumns(rows: seq<string>, top: int, last: int) returns (operands: map<int, seq<int>>)
    ensures operands == Columns(rows, top, last, map[])
  {
    var opIndex, col := top, last;
    operands := map[];
    var going := true;
    while going
      invariant going ==> Columns(rows, opIndex, col, operands) == Columns(rows, top, last, map[])
      invariant !going ==> operands == Columns(rows, top, last, map[])
      decreases if !going then 0 else if col < 0 then 1 else col + 2
    {
      opIndex, operands := ReadColumn(rows, opIndex, col, operands);
      col := col - 1;
      going := opIndex >= 0 && col >= 0;
    }
  }

  /** One pass of the do/while: the column is pushed onto the current
      operation, or a blank one moves to the operation before. */
  method ReadColumn(rows: seq<string>, opIndex: int, col: int, operands: map<int, seq<int>>)
    returns (nextIndex: int, next: map<int, seq<int>>)
    ensures nextIndex == opIndex || nextIndex == opIndex - 1
    ensures Columns(rows, opIndex, col, operands) ==
      if nextIndex >= 0 && col - 1 >= 0 then Columns(rows, nextIndex, col - 1, next) else next
  {
    var operand := ColumnText(rows, col);
    if !Blank(operand) {
      TakeColumn(rows, opIndex, col, operands);
      next := operands[opIndex := Current(operands, opIndex) + [ColumnValue(operand)]];
      nextIndex := opIndex;
    } else {
      SkipColumn(rows, opIndex, col, operands);
      nextIndex, next := opIndex - 1, operands;
    }
  }

  /** `Worksheet::initRTL`. */
  method InitRTL(lines: seq<string>) returns (r: Result<seq<Operation>>)
    ensures r == RtlOperations(RtlRows(lines), OperatorsOf(lines))
  {
    var rows := RtlRows(lines);
    var operators := OperatorsOf(lines);
    if rows == [] {
      return Err(NoRows);
    }
    var operands := ReadColumns(rows, |operators| - 1, |rows[0]| - 1);
    r := BuildDown(operands, operators);
  }

  /** The `for` loop of `initRTL`: one operation per collected operand list,
      from the last operator down; the first unknown operator throws. */
  method BuildDown(operands: map<int, seq<int>>, operators: seq<string>) returns (r: Result<seq<Operation>>)
    ensures r == Down(operands, operators, |operators|, -1)
  {
    var operations: seq<Operation> := [];
    for idx := |operators| downto -1
      invariant Down(operands, operators, |operators|, idx) == Ok(operations)
    {
      if idx in operands {
        match From(operands[idx], OperatorAt(operators, idx))
        case Err(m) =>
          DownStopsAtFirstError(operands, operators, |operators|, -1, idx);
          return Err(m);
        case Ok(op) =>
          operations := operations + [op];
      }
    }
    r := Ok(operations);
  }
}
