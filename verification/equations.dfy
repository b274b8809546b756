/** 2024/07: calibration equations. Each line reads `result: n1 n2 ...`;
    an equation holds when `+`, `*` (and, in part two, `||`) placed between
    the numbers and evaluated left to right give the result. The operator
    tree of `EquationMember` enumerates every placement. */
module Equations {
  import opened Common
  import opened Text

  // ---------------------------------------------------------------------------
  // Operators

  /** `EquationMember::OPERATOR_ADD`, `OPERATOR_MULTIPLY` and
      `OPERATOR_CONCAT` ("+", "*" and "||"). */
  datatype Op = Plus | Times | Join

  /** `Equation::getOperators`, in that order. */
  const AllOps: seq<Op> := [Plus, Times, Join]

  /** The first two operators, used by part one. */
  const TwoOps: seq<Op> := [Plus, Times]

  /** `(int) ((string) $a . (string) $b)`. */
  function Concat(a: nat, b: nat): nat {
    ToInt(NatToString(a) + NatToString(b))
  }

  /** Concatenation shifts `a` left by as many decimal places as `b` has
      digits. */
  lemma {:induction false} ConcatValue(a: nat, b: nat)
    ensures Concat(a, b) == a * Pow(10, |NatToString(b)|) + b
  {
    StringToNatAppend(NatToString(a), NatToString(b));
    DigitPrefixAll(NatToString(a) + NatToString(b));
    StringToNatOfNatToString(a);
    StringToNatOfNatToString(b);
  }

  /** The switch in `EquationMember::add`: `subtotal (op) number`. */
  function Apply(op: Op, subtotal: nat, number: nat): (r: nat)
    ensures op == Join ==> r == subtotal * Pow(10, |NatToString(number)|) + number
    ensures op != Times || number > 0 ==> r >= subtotal
  {
    match op
    case Plus => subtotal + number
    case Times =>
      if number > 0 then MulGrows(subtotal, number); subtotal * number
      else subtotal * number
    case Join =>
      ConcatValue(subtotal, number);
      PowPositive(10, |NatToString(number)|);
      MulGrows(subtotal, Pow(10, |NatToString(number)|));
      Concat(subtotal, number)
  }

  // ---------------------------------------------------------------------------
  // The operator tree

  /** An `EquationMember`: a number, the operator that will join it to the
      next number, the subtotal up to and including it, and its children. */
  datatype Member = Member(number: nat, op: Op, subtotal: nat, children: seq<Member>)

  /** The head `solveWith` starts from: number 0, operator `+`, subtotal 0. */
  const Head: Member := Member(0, Plus, 0, [])

  /** `EquationMember::add`: a node with fewer than `nb` children gets one
      more, whose subtotal applies this node's operator to its own subtotal
      and the new number; a full node passes the number on to every child. */
  function AddTo(m: Member, number: nat, op: Op, nb: nat): (r: Member)
    ensures r.number == m.number && r.op == m.op && r.subtotal == m.subtotal
    ensures |m.children| < nb ==>
      r.children == m.children + [Member(number, op, Apply(m.op, m.subtotal, number), [])]
    ensures |m.children| >= nb ==>
      (|r.children| == |m.children|
       && forall i :: 0 <= i < |m.children| ==> r.children[i] == AddTo(m.children[i], number, op, nb))
    decreases m
  {
    if |m.children| < nb then
      m.(children := m.children + [Member(number, op, Apply(m.op, m.subtotal, number), [])])
    else
      m.(children := seq(|m.children|, i requires 0 <= i < |m.children| => AddTo(m.children[i], number, op, nb)))
  }

  /** The tree after the numbers `ns` have been added below a node, with
      every operator of `ops` for all of them but the last, and the first
      `j` operators for the last. With `j == |ops|` it is the full tree. */
  ghost function Grown(number: nat, op: Op, subtotal: nat, ns: seq<nat>, ops: seq<Op>, j: nat): Member
    requires j <= |ops|
    decreases |ns|
  {
    Member(number, op, subtotal,
      if ns == [] then []
      else if |ns| == 1 then
        seq(j, k requires 0 <= k < j => Member(ns[0], ops[k], Apply(op, subtotal, ns[0]), []))
      else
        seq(|ops|, k requires 0 <= k < |ops| => Grown(ns[0], ops[k], Apply(op, subtotal, ns[0]), ns[1..], ops, j)))
  }

  /** A new number starts from the full tree of the numbers before it. */
  lemma {:induction false} GrowStart(number: nat, op: Op, subtotal: nat, ns: seq<nat>, n: nat, ops: seq<Op>)
    ensures Grown(number, op, subtotal, ns + [n], ops, 0) == Grown(number, op, subtotal, ns, ops, |ops|)
    decreases |ns|
  {
    if |ns| >= 2 {
      var s := Apply(op, subtotal, ns[0]);
      assert (ns + [n])[1..] == ns[1..] + [n];
      forall k | 0 <= k < |ops|
        ensures Grown(ns[0], ops[k], s, (ns + [n])[1..], ops, 0) == Grown(ns[0], ops[k], s, ns[1..], ops, |ops|)
      {
        GrowStart(ns[0], ops[k], s, ns[1..], n, ops);
      }
    }
  }

  /** Adding the last number with the next operator gives every node of the
      last full level one more child. */
  lemma {:induction false} GrowStep(number: nat, op: Op, subtotal: nat, ns: seq<nat>, ops: seq<Op>, j: nat)
    requires ns != [] && j < |ops|
    ensures AddTo(Grown(number, op, subtotal, ns, ops, j), ns[|ns| - 1], ops[j], |ops|)
         == Grown(number, op, subtotal, ns, ops, j + 1)
    decreases |ns|
  {
    var s := Apply(op, subtotal, ns[0]);
    var m := Grown(number, op, subtotal, ns, ops, j);
    var m' := Grown(number, op, subtotal, ns, ops, j + 1);
    var r := AddTo(m, ns[|ns| - 1], ops[j], |ops|);
    if |ns| == 1 {
      assert r.children == m.children + [Member(ns[0], ops[j], s, [])];
      assert r.children == m'.children;
    } else {
      forall k | 0 <= k < |ops|
        ensures r.children[k] == m'.children[k]
      {
        GrowStep(ns[0], ops[k], s, ns[1..], ops, j);
      }
      assert r.children == m'.children;
    }
  }

  /** The full tree of the numbers `ns` below a node: one child per
      operator, each the full tree of the remaining numbers. */
  ghost function Full(number: nat, op: Op, subtotal: nat, ns: seq<nat>, ops: seq<Op>): (m: Member)
    ensures m.number == number && m.op == op && m.subtotal == subtotal
    ensures |m.children| == if ns == [] then 0 else |ops|
    decreases |ns|
  {
    Member(number, op, subtotal,
      if ns == [] then []
      else seq(|ops|, k requires 0 <= k < |ops| => Full(ns[0], ops[k], Apply(op, subtotal, ns[0]), ns[1..], ops)))
  }

  /** Every child of a full tree is the full tree of the remaining numbers. */
  lemma {:induction false} FullChild(number: nat, op: Op, subtotal: nat, ns: seq<nat>, ops: seq<Op>, k: nat)
    requires ns != [] && k < |ops|
    ensures Full(number, op, subtotal, ns, ops).children[k]
         == Full(ns[0], ops[k], Apply(op, subtotal, ns[0]), ns[1..], ops)
  {
  }

  /** Once the last number has every operator, the grown tree is full. */
  lemma {:induction false} GrownFull(number: nat, op: Op, subtotal: nat, ns: seq<nat>, ops: seq<Op>)
    ensures Grown(number, op, subtotal, ns, ops, |ops|) == Full(number, op, subtotal, ns, ops)
    decreases |ns|
  {
    if ns != [] {
      var s := Apply(op, subtotal, ns[0]);
      var g := Grown(number, op, subtotal, ns, ops, |ops|);
      var f := Full(number, op, subtotal, ns, ops);
      forall k | 0 <= k < |ops|
        ensures g.children[k] == f.children[k]
      {
        GrownFull(ns[0], ops[k], s, ns[1..], ops);
      }
      assert g.children == f.children;
    }
  }

  /** Growing the tree by the next number starts where the last one ended. */
  lemma GrowNext(ns: seq<nat>, i: nat, ops: seq<Op>)
    requires i < |ns|
    ensures Grown(0, Plus, 0, ns[..i + 1], ops, 0) == Grown(0, Plus, 0, ns[..i], ops, |ops|)
  {
    GrowStart(0, Plus, 0, ns[..i], ns[i], ops);
    assert ns[..i] + [ns[i]] == ns[..i + 1];
  }

  /** The shape `add` keeps: a node `depth` levels above the leaves has
      exactly `nb` children, each `depth - 1` levels above the leaves. */
  ghost predicate Uniform(m: Member, depth: nat, nb: nat)
    decreases m
  {
    if depth == 0 then m.children == []
    else |m.children| == nb && forall c :: c in m.children ==> Uniform(c, depth - 1, nb)
  }

  /** After `k` numbers the full tree is uniform of depth `k`. */
  lemma {:induction false} FullUniform(number: nat, op: Op, subtotal: nat, ns: seq<nat>, ops: seq<Op>)
    ensures Uniform(Full(number, op, subtotal, ns, ops), |ns|, |ops|)
    decreases |ns|
  {
    if ns != [] {
      var m := Full(number, op, subtotal, ns, ops);
      var d := |ns| - 1;
      forall c | c in m.children
        ensures Uniform(c, d, |ops|)
      {
        var k :| 0 <= k < |m.children| && m.children[k] == c;
        FullChild(number, op, subtotal, ns, ops, k);
        FullUniform(ns[0], ops[k], Apply(op, subtotal, ns[0]), ns[1..], ops);
      }
      UniformNode(m, |ns|, |ops|);
    }
  }

  lemma {:induction false} UniformNode(m: Member, depth: nat, nb: nat)
    requires depth > 0 && |m.children| == nb
    requires forall c :: c in m.children ==> Uniform(c, depth - 1, nb)
    ensures Uniform(m, depth, nb)
  {
  }

  // ---------------------------------------------------------------------------
  // Left-to-right evaluation

  /** `c` picks one operator of `ops` after each of `n` numbers. */
  ghost predicate Choice(c: seq<Op>, n: nat, ops: seq<Op>) {
    |c| == n && forall i :: 0 <= i < |c| ==> c[i] in ops
  }

  /** Evaluation from a subtotal whose pending operator is `op`: each number
      is joined with the operator chosen before it; the choice after the last
      number is not used. */
  function Eval(op: Op, subtotal: nat, ns: seq<nat>, c: seq<Op>): nat
    requires |c| == |ns|
    decreases |ns|
  {
    if ns == [] then subtotal else Eval(c[0], Apply(op, subtotal, ns[0]), ns[1..], c[1..])
  }

  /** The equation holds: some placement of operators from `ops` between
      the numbers evaluates, left to right, to the result. */
  ghost predicate Holds(result: nat, numbers: seq<nat>, ops: seq<Op>) {
    exists c :: Choice(c, |numbers|, ops) && Eval(Plus, 0, numbers, c) == result
  }

  /** More operators can only solve more equations. */
  lemma {:induction false} HoldsMore(result: nat, numbers: seq<nat>, ops: seq<Op>, more: seq<Op>)
    requires forall o :: o in ops ==> o in more
    requires Holds(result, numbers, ops)
    ensures Holds(result, numbers, more)
  {
    var c :| Choice(c, |numbers|, ops) && Eval(Plus, 0, numbers, c) == result;
    assert Choice(c, |numbers|, more);
  }

  /** Whether `solveWith` accepts the equation: as written, some prefix of
      the numbers makes the result (`find` compares every node of the
      tree); when `fixed`, all of the numbers do. */
  ghost predicate Accepts(result: nat, numbers: seq<nat>, ops: seq<Op>, fixed: bool) {
    if fixed then Holds(result, numbers, ops) else PrefixHolds(Plus, 0, numbers, ops, result)
  }

  /** An equation that holds is accepted as written too: the whole list is
      one of its prefixes. */
  lemma {:induction false} HoldsAccepted(result: nat, numbers: seq<nat>, ops: seq<Op>)
    requires Holds(result, numbers, ops)
    ensures Accepts(result, numbers, ops, false)
  {
    var c :| Choice(c, |numbers|, ops) && Eval(Plus, 0, numbers, c) == result;
    assert numbers[..|numbers|] == numbers;
  }

  /** More operators can only accept more equations, either way. */
  lemma {:induction false} AcceptsMore(result: nat, numbers: seq<nat>, ops: seq<Op>, more: seq<Op>, fixed: bool)
    requires forall o :: o in ops ==> o in more
    requires Accepts(result, numbers, ops, fixed)
    ensures Accepts(result, numbers, more, fixed)
  {
    if fixed {
      HoldsMore(result, numbers, ops, more);
    } else {
      var k, c :| 0 <= k <= |numbers| && Choice(c, k, ops) && Eval(Plus, 0, numbers[..k], c) == result;
      assert Choice(c, k, more);
    }
  }

  // ---------------------------------------------------------------------------
  // find

  /** What `EquationMember::find` answers: this node's subtotal is the
      result, or some descendant's is, at any depth. */
  ghost predicate Found(m: Member, result: int)
    decreases m
  {
    m.subtotal == result || exists i :: 0 <= i < |m.children| && Found(m.children[i], result)
  }

  /** `EquationMember::find`: its own subtotal first, then the children in
      order until one of them finds the result. */
  method Find(m: Member, result: int) returns (found: bool)
    ensures found == Found(m, result)
    decreases m
  {
    if m.subtotal == result {
      return true;
    }
    found := false;
    var i := 0;
    var l := |m.children|;
    while i < l && !found
      invariant 0 <= i <= l
      invariant found <==> exists k :: 0 <= k < i && Found(m.children[k], result)
    {
      found := Find(m.children[i], result);
      i := i + 1;
    }
  }

  /** Some prefix of the numbers, under some choice of operators, evaluates
      to the result. */
  ghost predicate PrefixHolds(op: Op, subtotal: nat, ns: seq<nat>, ops: seq<Op>, result: int) {
    exists k, c :: 0 <= k <= |ns| && Choice(c, k, ops) && Eval(op, subtotal, ns[..k], c) == result
  }

  /** A node found in some child's subtree extends a prefix by one number. */
  lemma {:induction false} FoundFullSound(number: nat, op: Op, subtotal: nat, ns: seq<nat>, ops: seq<Op>, result: int)
    requires Found(Full(number, op, subtotal, ns, ops), result)
    ensures PrefixHolds(op, subtotal, ns, ops, result)
    decreases |ns|
  {
    var m := Full(number, op, subtotal, ns, ops);
    if subtotal == result {
      assert Choice([], 0, ops) && Eval(op, subtotal, ns[..0], []) == result;
    } else {
      var i :| 0 <= i < |m.children| && Found(m.children[i], result);
      var s := Apply(op, subtotal, ns[0]);
      FullChild(number, op, subtotal, ns, ops, i);
      FoundFullSound(ns[0], ops[i], s, ns[1..], ops, result);
      var k, c :| 0 <= k <= |ns[1..]| && Choice(c, k, ops) && Eval(ops[i], s, ns[1..][..k], c) == result;
      assert ns[..k + 1][1..] == ns[1..][..k];
      assert Eval(op, subtotal, ns[..k + 1], [ops[i]] + c) == result;
      assert Choice([ops[i]] + c, k + 1, ops);
    }
  }

  /** A prefix that makes the result is the path to a node that holds it. */
  lemma {:induction false} FoundFullComplete(number: nat, op: Op, subtotal: nat, ns: seq<nat>, ops: seq<Op>,
                                            result: int, k: nat, c: seq<Op>)
    requires k <= |ns| && Choice(c, k, ops) && Eval(op, subtotal, ns[..k], c) == result
    ensures Found(Full(number, op, subtotal, ns, ops), result)
    decreases k
  {
    if k > 0 {
      var m := Full(number, op, subtotal, ns, ops);
      var s := Apply(op, subtotal, ns[0]);
      var i :| 0 <= i < |ops| && ops[i] == c[0];
      FullChild(number, op, subtotal, ns, ops, i);
      assert ns[..k][1..] == ns[1..][..k - 1];
      FoundFullComplete(ns[0], ops[i], s, ns[1..], ops, result, k - 1, c[1..]);
      assert Found(m.children[i], result);
    }
  }

  /** On the full tree, `find` answers whether a PREFIX of the numbers can
      make the result: every node's subtotal is checked, not only the
      leaves'. */
  lemma {:induction false} FoundFull(number: nat, op: Op, subtotal: nat, ns: seq<nat>, ops: seq<Op>, result: int)
    ensures Found(Full(number, op, subtotal, ns, ops), result) <==> PrefixHolds(op, subtotal, ns, ops, result)
  {
    if Found(Full(number, op, subtotal, ns, ops), result) {
      FoundFullSound(number, op, subtotal, ns, ops, result);
    }
    if PrefixHolds(op, subtotal, ns, ops, result) {
      var k, c :| 0 <= k <= |ns| && Choice(c, k, ops) && Eval(op, subtotal, ns[..k], c) == result;
      FoundFullComplete(number, op, subtotal, ns, ops, result, k, c);
    }
  }

  /** The tree grown over all the numbers holds `result` exactly when the
      equation is accepted as written. */
  lemma GrownAccepts(ns: seq<nat>, ops: seq<Op>, result: nat)
    ensures Found(Grown(0, Plus, 0, ns[..|ns|], ops, |ops|), result) <==> Accepts(result, ns, ops, false)
  {
    assert ns[..|ns|] == ns;
    GrownFull(0, Plus, 0, ns, ops);
    FoundFull(0, Plus, 0, ns, ops, result);
  }

  /** With `+` and `*`, `10: 10 5` is found on the subtotal 10 after the
      first number, although neither 10 + 5 nor 10 * 5 is 10. */
  lemma {:induction false} PrefixFound()
    ensures Found(Full(0, Plus, 0, [10, 5], TwoOps), 10)
    ensures !Holds(10, [10, 5], TwoOps)
  {
    var ns: seq<nat> := [10, 5];
    FoundFull(0, Plus, 0, ns, TwoOps, 10);
    assert ns[..1] == [10];
    assert Choice([Plus], 1, TwoOps) && Eval(Plus, 0, ns[..1], [Plus]) == 10;
    forall c | Choice(c, 2, TwoOps)
      ensures Eval(Plus, 0, ns, c) != 10
    {
      assert Eval(Plus, 0, ns, c) == Apply(c[0], 10, 5);
    }
  }

  /** The evidently intended search: only the leaves, where every number has
      been used, are compared with the result. */
  ghost predicate FoundLeaf(m: Member, result: int)
    decreases m
  {
    if m.children == [] then m.subtotal == result
    else exists i :: 0 <= i < |m.children| && FoundLeaf(m.children[i], result)
  }

  /** `find` restricted to the leaves. */
  method FindLeaf(m: Member, result: int) returns (found: bool)
    ensures found == FoundLeaf(m, result)
    decreases m
  {
    if m.children == [] {
      return m.subtotal == result;
    }
    found := false;
    var i := 0;
    var l := |m.children|;
    while i < l && !found
      invariant 0 <= i <= l
      invariant found <==> exists k :: 0 <= k < i && FoundLeaf(m.children[k], result)
    {
      found := FindLeaf(m.children[i], result);
      i := i + 1;
    }
  }

  /** A leaf found in some child's subtree extends a choice by one
      operator. */
  lemma {:induction false} FoundLeafSound(number: nat, op: Op, subtotal: nat, ns: seq<nat>, ops: seq<Op>, result: int)
    requires ops != [] && FoundLeaf(Full(number, op, subtotal, ns, ops), result)
    ensures exists c :: Choice(c, |ns|, ops) && Eval(op, subtotal, ns, c) == result
    decreases |ns|
  {
    var m := Full(number, op, subtotal, ns, ops);
    if ns == [] {
      assert Choice([], 0, ops) && Eval(op, subtotal, ns, []) == result;
    } else {
      var i :| 0 <= i < |m.children| && FoundLeaf(m.children[i], result);
      var s := Apply(op, subtotal, ns[0]);
      FullChild(number, op, subtotal, ns, ops, i);
      FoundLeafSound(ns[0], ops[i], s, ns[1..], ops, result);
      var c :| Choice(c, |ns| - 1, ops) && Eval(ops[i], s, ns[1..], c) == result;
      assert Eval(op, subtotal, ns, [ops[i]] + c) == result;
      assert Choice([ops[i]] + c, |ns|, ops);
    }
  }

  /** A choice over all the numbers is the path to a leaf that holds its
      value. */
  lemma {:induction false} FoundLeafComplete(number: nat, op: Op, subtotal: nat, ns: seq<nat>, ops: seq<Op>,
                                            result: int, c: seq<Op>)
    requires Choice(c, |ns|, ops) && Eval(op, subtotal, ns, c) == result
    ensures FoundLeaf(Full(number, op, subtotal, ns, ops), result)
    decreases |ns|
  {
    if ns != [] {
      var m := Full(number, op, subtotal, ns, ops);
      var s := Apply(op, subtotal, ns[0]);
      var i :| 0 <= i < |ops| && ops[i] == c[0];
      FullChild(number, op, subtotal, ns, ops, i);
      FoundLeafComplete(ns[0], ops[i], s, ns[1..], ops, result, c[1..]);
      assert FoundLeaf(m.children[i], result);
    }
  }

  /** On the full tree, the leaf search answers exactly whether some choice
      of operators, over all the numbers, evaluates to the result. */
  lemma {:induction false} FoundLeafFull(number: nat, op: Op, subtotal: nat, ns: seq<nat>, ops: seq<Op>, result: int)
    requires ops != []
    ensures FoundLeaf(Full(number, op, subtotal, ns, ops), result)
        <==> exists c :: Choice(c, |ns|, ops) && Eval(op, subtotal, ns, c) == result
  {
    if FoundLeaf(Full(number, op, subtotal, ns, ops), result) {
      FoundLeafSound(number, op, subtotal, ns, ops, result);
    }
    if exists c :: Choice(c, |ns|, ops) && Eval(op, subtotal, ns, c) == result {
      var c :| Choice(c, |ns|, ops) && Eval(op, subtotal, ns, c) == result;
      FoundLeafComplete(number, op, subtotal, ns, ops, result, c);
    }
  }

  // ---------------------------------------------------------------------------
  // Equations

  /** An `Equation`: the expected result, the numbers, and whether the last
      `solveWith` found a placement. */
  class Equation {
    const result: nat
    const numbers: seq<nat>
    var valid: bool

    constructor(result: nat, numbers: seq<nat>)
      ensures this.result == result && this.numbers == numbers && !valid
    {
      this.result := result;
      this.numbers := numbers;
      valid := false;
    }

    /** `Equation::solveWith`: builds the operator tree from a head with
        operator `+` and subtotal 0, then searches it with `find`; `valid`
        keeps the answer, which accepts a prefix of the numbers that makes
        the result (see `PrefixFound`). */
    method SolveWith(ops: seq<Op>) returns (found: bool)
      requires ops != []
      modifies this
      ensures found == valid && (valid <==> Accepts(result, numbers, ops, false))
    {
      var head := Head;
      var nb := |ops|;
      assert head == Grown(0, Plus, 0, numbers[..0], ops, nb);
      for i := 0 to |numbers|
        invariant head == Grown(0, Plus, 0, numbers[..i], ops, nb)
      {
        GrowNext(numbers, i, ops);
        for j := 0 to nb
          invariant head == Grown(0, Plus, 0, numbers[..i + 1], ops, j)
        {
          GrowStep(0, Plus, 0, numbers[..i + 1], ops, j);
          head := AddTo(head, numbers[i], ops[j], nb);
        }
      }
      GrownAccepts(numbers, ops, result);
      valid := Find(head, result);
      found := valid;
    }
  }

  // ---------------------------------------------------------------------------
  // Parsing

  /** The length of the match of `/:?\s+/` at the start of `s`, 0 if
      none. */
  function SepLen(s: string): (n: nat)
    ensures n <= |s|
  {
    if |s| >= 2 && s[0] == ':' && IsSpace(s[1]) then 1 + SpaceRun(s[1..]) else SpaceRun(s)
  }

  /** `preg_split('/:?\s+/', $s)`: the pieces between the leftmost
      matches, empty ones included. A match at the start cuts an empty
      piece; otherwise the first character joins the first piece of the
      rest. */
  function Split(s: string): (r: seq<string>)
    ensures |r| >= 1
  {
    if s == [] then [""]
    else if SepLen(s) > 0 then [""] + Split(s[SepLen(s)..])
    else
      var r := Split(s[1..]);
      [[s[0]] + r[0]] + r[1..]
  }

  /** Digits then `sep`, a single space or ": ", then a digit: the digits
      are the first piece, and the rest is split on its own. */
  lemma {:induction false} SplitHead(a: string, sep: string, y: string)
    requires AllDigits(a) && (sep == " " || sep == ": ") && y != [] && IsDigit(y[0])
    ensures Split(a + sep + y) == [a] + Split(y)
  {
    if a == [] {
      assert a + sep + y == sep + y;
      SplitSep(sep, y);
    } else {
      var s := a + sep + y;
      assert s[0] == a[0] && SepLen(s) == 0;
      assert s[1..] == a[1..] + sep + y;
      SplitHead(a[1..], sep, y);
      assert [a[0]] + a[1..] == a;
    }
  }

  /** A separator at the start cuts off an empty piece. */
  lemma {:induction false} SplitSep(sep: string, y: string)
    requires (sep == " " || sep == ": ") && y != [] && IsDigit(y[0])
    ensures Split(sep + y) == [""] + Split(y)
  {
    var s := sep + y;
    SpaceRunOf(" ", y);
    if sep == ": " {
      assert s[1..] == " " + y;
    } else {
      assert s == " " + y;
    }
    assert SepLen(s) == |sep|;
    assert s[|sep|..] == y;
  }

  /** Digits, possibly followed by ':', are a single piece. */
  lemma {:induction false} SplitAlone(a: string, tail: string)
    requires AllDigits(a) && (tail == "" || tail == ":")
    ensures Split(a + tail) == [a + tail]
  {
    if a == [] {
      assert a + tail == tail;
      if tail == ":" {
        assert SpaceRun(tail) == 0 && SepLen(tail) == 0;
        assert Split(tail[1..]) == [""];
        assert [tail[0]] + "" == tail;
      }
    } else {
      var s := a + tail;
      assert s[0] == a[0] && SepLen(s) == 0;
      assert s[1..] == a[1..] + tail;
      SplitAlone(a[1..], tail);
      assert [a[0]] + (a[1..] + tail) == s;
    }
  }

  /** The numbers written out, each after one space. */
  function Spaced(ns: seq<nat>): string {
    if ns == [] then "" else " " + NatToString(ns[0]) + Spaced(ns[1..])
  }

  /** An equation written as `result: n1 n2 ...`. */
  function EquationText(result: nat, numbers: seq<nat>): string {
    NatToString(result) + ":" + Spaced(numbers)
  }

  /** The decimal strings of the numbers. */
  function Strings(ns: seq<nat>): (r: seq<string>)
    ensures |r| == |ns| && forall i :: 0 <= i < |ns| ==> r[i] == NatToString(ns[i])
  {
    seq(|ns|, i requires 0 <= i < |ns| => NatToString(ns[i]))
  }

  /** Numbers written one after another with single spaces split back into
      their decimal strings. */
  lemma {:induction false} SplitSpaced(ns: seq<nat>)
    requires ns != []
    ensures Split(NatToString(ns[0]) + Spaced(ns[1..])) == Strings(ns)
    decreases |ns|
  {
    var a := NatToString(ns[0]);
    if |ns| == 1 {
      assert a + Spaced(ns[1..]) == a + "" by {
        assert Spaced(ns[1..]) == "";
      }
      SplitAlone(a, "");
      assert a + "" == a;
      assert Strings(ns) == [a];
    } else {
      var tail := ns[1..];
      var b := NatToString(tail[0]);
      var y := b + Spaced(tail[1..]);
      assert a + Spaced(tail) == a + " " + y;
      assert y[0] == b[0];
      SplitHead(a, " ", y);
      SplitSpaced(tail);
      calc {
        Split(a + Spaced(ns[1..]));
        Split(a + " " + y);
        [a] + Split(y);
        [a] + Strings(tail);
        { assert Strings(ns) == [a] + Strings(tail); }
        Strings(ns);
      }
    }
  }

  /** `result:` then the numbers: the first piece is the result's digits. */
  lemma {:induction false} SplitText(result: nat, numbers: seq<nat>)
    ensures Split(EquationText(result, numbers))
         == if numbers == [] then [EquationText(result, numbers)] else [NatToString(result)] + Strings(numbers)
  {
    var d := NatToString(result);
    if numbers == [] {
      assert EquationText(result, numbers) == d + ":";
      SplitAlone(d, ":");
    } else {
      var y := NatToString(numbers[0]) + Spaced(numbers[1..]);
      assert EquationText(result, numbers) == d + ": " + y;
      SplitHead(d, ": ", y);
      SplitSpaced(numbers);
    }
  }

  /** What `Parser::__construct` reads from one line: every piece cast to
      int, the first being the result. Every line gives an equation, an
      empty one `0` with no numbers. */
  function ParseEquation(line: string): (r: (nat, seq<nat>))
    ensures |r.1| == |Split(Trim(line))| - 1
  {
    var pieces := Split(Trim(line));
    (ToInt(pieces[0]), seq(|pieces| - 1, i requires 0 <= i < |pieces| - 1 => ToInt(pieces[i + 1])))
  }

  /** A written equation starts with a digit and ends with a digit or ':'. */
  lemma {:induction false} LineEnds(result: nat, numbers: seq<nat>)
    ensures var line := EquationText(result, numbers);
      line != [] && IsDigit(line[0]) && (IsDigit(line[|line| - 1]) || line[|line| - 1] == ':')
  {
    if numbers != [] {
      SpacedEnd(numbers);
    }
  }

  lemma {:induction false} SpacedEnd(ns: seq<nat>)
    requires ns != []
    ensures Spaced(ns) != [] && IsDigit(Spaced(ns)[|Spaced(ns)| - 1])
  {
    var t := NatToString(ns[0]);
    if |ns| >= 2 {
      SpacedEnd(ns[1..]);
    } else {
      assert Spaced(ns) == " " + t + "";
    }
  }

  lemma {:induction false} DigitPrefixOf(d: string, tail: string)
    requires AllDigits(d) && (tail == [] || !IsDigit(tail[0]))
    ensures DigitPrefix(d + tail) == d
  {
    if d != [] {
      assert (d + tail)[1..] == d[1..] + tail;
      DigitPrefixOf(d[1..], tail);
    } else {
      assert d + tail == tail;
    }
  }

  /** Reading a line written as `result: n1 n2 ...` gives back the result
      and the numbers. */
  lemma {:induction false} ParseEquationText(result: nat, numbers: seq<nat>)
    ensures ParseEquation(EquationText(result, numbers)) == (result, numbers)
  {
    var line := EquationText(result, numbers);
    var d := NatToString(result);
    LineEnds(result, numbers);
    TrimKeeps(line);
    SplitText(result, numbers);
    var pieces := Split(line);
    StringToNatOfNatToString(result);
    if numbers == [] {
      assert pieces[0] == d + ":";
      DigitPrefixOf(d, ":");
    } else {
      DigitPrefixAll(d);
      assert pieces[0] == d && |pieces| == |numbers| + 1;
      var ns := ParseEquation(line).1;
      forall i | 0 <= i < |numbers|
        ensures ns[i] == numbers[i]
      {
        assert ns[i] == ToInt(pieces[i + 1]);
        DigitPrefixAll(NatToString(numbers[i]));
        StringToNatOfNatToString(numbers[i]);
      }
      assert ns == numbers;
    }
  }

  // ---------------------------------------------------------------------------
  // Parser

  /** Sum of the results of the equations accepted with `ops`. */
  ghost function Calibration(eqs: seq<Equation>, ops: seq<Op>, fixed: bool): nat {
    if eqs == [] then 0
    else
      var e := eqs[|eqs| - 1];
      Calibration(eqs[..|eqs| - 1], ops, fixed) + (if Accepts(e.result, e.numbers, ops, fixed) then e.result else 0)
  }

  /** How many equations are accepted with `ops`. */
  ghost function Solved(eqs: seq<Equation>, ops: seq<Op>, fixed: bool): nat {
    if eqs == [] then 0
    else
      var e := eqs[|eqs| - 1];
      Solved(eqs[..|eqs| - 1], ops, fixed) + (if Accepts(e.result, e.numbers, ops, fixed) then 1 else 0)
  }

  /** The equations not accepted with `ops`, in order. */
  ghost function Unsolved(eqs: seq<Equation>, ops: seq<Op>, fixed: bool): seq<Equation> {
    if eqs == [] then []
    else
      var e := eqs[|eqs| - 1];
      Unsolved(eqs[..|eqs| - 1], ops, fixed) + (if Accepts(e.result, e.numbers, ops, fixed) then [] else [e])
  }

  /** The unsolved equations are the equations not accepted. */
  lemma {:induction false} UnsolvedIn(eqs: seq<Equation>, ops: seq<Op>, fixed: bool, x: Equation)
    ensures x in Unsolved(eqs, ops, fixed) <==> x in eqs && !Accepts(x.result, x.numbers, ops, fixed)
  {
    if eqs != [] {
      var init := eqs[..|eqs| - 1];
      UnsolvedIn(init, ops, fixed, x);
      assert eqs == init + [eqs[|eqs| - 1]];
    }
  }

  /** Part one plus part two, over the equations part one left unsolved, is
      the calibration with all three operators. */
  lemma {:induction false} TotalCalibration(eqs: seq<Equation>, fixed: bool)
    ensures Calibration(eqs, TwoOps, fixed) + Calibration(Unsolved(eqs, TwoOps, fixed), AllOps, fixed)
      == Calibration(eqs, AllOps, fixed)
  {
    if eqs != [] {
      var init, e := eqs[..|eqs| - 1], eqs[|eqs| - 1];
      var u := Unsolved(init, TwoOps, fixed);
      TotalCalibration(init, fixed);
      if Accepts(e.result, e.numbers, TwoOps, fixed) {
        AcceptsMore(e.result, e.numbers, TwoOps, AllOps, fixed);
        assert Unsolved(eqs, TwoOps, fixed) == u + [] == u;
      } else {
        assert Unsolved(eqs, TwoOps, fixed) == u + [e];
        assert (u + [e])[..|u|] == u;
      }
    }
  }

  /** The calibration as written is never below the intended one: every
      equation that holds is accepted. */
  lemma {:induction false} CalibrationAtLeast(eqs: seq<Equation>, ops: seq<Op>)
    ensures Calibration(eqs, ops, true) <= Calibration(eqs, ops, false)
  {
    if eqs != [] {
      var e := eqs[|eqs| - 1];
      CalibrationAtLeast(eqs[..|eqs| - 1], ops);
      if Holds(e.result, e.numbers, ops) {
        HoldsAccepted(e.result, e.numbers, ops);
      }
    }
  }

  class Parser {
    var equations: seq<Equation>

    /** `Parser::__construct`: one equation per line. */
    constructor(lines: seq<string>)
      ensures |equations| == |lines|
      ensures forall i :: 0 <= i < |lines| ==>
        (equations[i].result, equations[i].numbers) == ParseEquation(lines[i])
    {
      var eqs: seq<Equation> := [];
      for i := 0 to |lines|
        invariant |eqs| == i
        invariant forall k :: 0 <= k < i ==> (eqs[k].result, eqs[k].numbers) == ParseEquation(lines[k])
      {
        var parsed := ParseEquation(lines[i]);
        var e := new Equation(parsed.0, parsed.1);
        eqs := eqs + [e];
      }
      equations := eqs;
    }

    /** `Parser::run`: part one solves every equation with `+` and `*` and
        keeps the unsolved ones; part two retries only those, with all three
        operators. Every equation ends up valid exactly when `find` accepts
        it with all three operators. */
    method Run() returns (part1: nat, solved1: nat, part2: nat, solved2: nat)
      modifies set e | e in equations
      ensures part1 == Calibration(equations, TwoOps, false) && solved1 == Solved(equations, TwoOps, false)
      ensures part2 == Calibration(Unsolved(equations, TwoOps, false), AllOps, false)
      ensures solved2 == Solved(Unsolved(equations, TwoOps, false), AllOps, false)
      ensures part1 + part2 == Calibration(equations, AllOps, false)
      ensures forall e :: e in equations ==> (e.valid <==> Accepts(e.result, e.numbers, AllOps, false))
    {
      var unresolved;
      part1, solved1, unresolved := SolveAll(equations, TwoOps);
      forall x | x in unresolved
        ensures x in equations && !Accepts(x.result, x.numbers, TwoOps, false)
      {
        UnsolvedIn(equations, TwoOps, false, x);
      }
      var rest;
      part2, solved2, rest := SolveAll(unresolved, AllOps);
      forall x | x in equations
        ensures x.valid <==> Accepts(x.result, x.numbers, AllOps, false)
      {
        if Accepts(x.result, x.numbers, TwoOps, false) {
          AcceptsMore(x.result, x.numbers, TwoOps, AllOps, false);
        } else {
          UnsolvedIn(equations, TwoOps, false, x);
        }
      }
      TotalCalibration(equations, false);
    }
  }

  /** One phase of `Parser::run`: every equation is solved with `ops`; the
      sum and the count of those that hold are kept, and the others are
      collected, in order. */
  method SolveAll(eqs: seq<Equation>, ops: seq<Op>) returns (total: nat, solved: nat, unsolved: seq<Equation>)
    requires ops != []
    modifies set e | e in eqs
    ensures total == Calibration(eqs, ops, false) && solved == Solved(eqs, ops, false)
    ensures unsolved == Unsolved(eqs, ops, false)
    ensures forall e :: e in eqs ==> (e.valid <==> Accepts(e.result, e.numbers, ops, false))
  {
    total, solved, unsolved := 0, 0, [];
    for i := 0 to |eqs|
      invariant total == Calibration(eqs[..i], ops, false) && solved == Solved(eqs[..i], ops, false)
      invariant unsolved == Unsolved(eqs[..i], ops, false)
      invariant forall k :: 0 <= k < i ==> (eqs[k].valid <==> Accepts(eqs[k].result, eqs[k].numbers, ops, false))
    {
      var e := eqs[i];
      var valid := e.SolveWith(ops);
      assert eqs[..i + 1][..i] == eqs[..i];
      total := total + if valid then e.result else 0;
      solved := solved + if valid then 1 else 0;
      if !valid {
        unsolved := unsolved + [e];
      }
    }
    assert eqs[..|eqs|] == eqs;
  }
}
