/** Keys and locks (2024, day 25). The input is a list of schematics
    separated by blank lines; a schematic whose first line is all '#' is a
    lock, any other a key. A key fits a lock when, on every row between
    the first and the last, no column holds '#' in both. The answer counts
    the (lock, key) pairs that fit. */
module KeysLocks {
  import opened Common
  import opened Text

  /** A cell after `parseSchema`: `(int)` of one character. */
  type Digit = d: nat | d <= 9

  type Schema = seq<seq<Digit>>

  // ---------------------------------------------------------------------------
  // reading the input

  /** One step of the `Parser` reduce: a non-blank line joins the current
      block, a blank one closes it (empty or not); the last block is added
      when it is not empty. */
  function Gather(lines: seq<string>, acc: seq<seq<string>>, block: seq<string>): seq<seq<string>>
    decreases |lines|
  {
    if lines == [] then (if block != [] then acc + [block] else acc)
    else if !Empty(Trim(lines[0])) then Gather(lines[1..], acc, block + [Trim(lines[0])])
    else Gather(lines[1..], acc + [block], [])
  }

  /** `Parser`: the blocks of trimmed lines. */
  function Blocks(lines: seq<string>): seq<seq<string>> {
    Gather(lines, [], [])
  }

  /** A line that can stand in a block as it is. */
  predicate BlockLine(l: string) {
    !Empty(Trim(l)) && Trim(l) == l
  }

  /** The text of blocks, each followed by a blank line. */
  function Unblock(bs: seq<seq<string>>): seq<string> {
    if bs == [] then [] else bs[0] + [""] + Unblock(bs[1..])
  }

  /** The lines of a block are gathered into it, up to the blank line. */
  lemma {:induction false} GatherBlock(b: seq<string>, rest: seq<string>, acc: seq<seq<string>>, block: seq<string>)
    requires forall l :: l in b ==> BlockLine(l)
    ensures Gather(b + [""] + rest, acc, block) == Gather(rest, acc + [block + b], [])
  {
    if b == [] {
      assert [] + [""] + rest == [""] + rest;
      assert ([""] + rest)[1..] == rest;
      assert block + b == block;
    } else {
      assert (b + [""] + rest)[0] == b[0];
      assert (b + [""] + rest)[1..] == b[1..] + [""] + rest;
      assert b[0] in b;
      GatherBlock(b[1..], rest, acc, block + [b[0]]);
      assert block + [b[0]] + b[1..] == block + b;
    }
  }

  /** Reading blocks written one after another gives them back. */
  lemma {:induction false} BlocksOfUnblock(bs: seq<seq<string>>, acc: seq<seq<string>>)
    requires forall b, l :: b in bs && l in b ==> BlockLine(l)
    ensures Gather(Unblock(bs), acc, []) == acc + bs
  {
    if bs != [] {
      assert bs[0] in bs;
      GatherBlock(bs[0], Unblock(bs[1..]), acc, []);
      assert [] + bs[0] == bs[0];
      assert forall b :: b in bs[1..] ==> b in bs;
      BlocksOfUnblock(bs[1..], acc + [bs[0]]);
      assert acc + [bs[0]] + bs[1..] == acc + bs;
    }
  }

  /** Every line gathered is a trimmed, non-blank line. */
  lemma {:induction false} GatheredLines(lines: seq<string>, acc: seq<seq<string>>, block: seq<string>)
    requires forall b, l :: b in acc && l in b ==> BlockLine(l)
    requires forall l :: l in block ==> BlockLine(l)
    ensures forall b, l :: b in Gather(lines, acc, block) && l in b ==> BlockLine(l)
    decreases |lines|
  {
    if lines != [] {
      if !Empty(Trim(lines[0])) {
        TrimTwice(lines[0]);
        GatheredLines(lines[1..], acc, block + [Trim(lines[0])]);
      } else {
        GatheredLines(lines[1..], acc + [block], []);
      }
    }
  }

  /** Trimming a trimmed string changes nothing. */
  lemma {:induction false} TrimTwice(s: string)
    ensures Trim(Trim(s)) == Trim(s)
  {
    var t := Trim(s);
    if t != [] {
      TrimRightPrefix(TrimLeft(s));
      assert t[0] == TrimLeft(s)[0];
      TrimKeeps(t);
    }
  }

  /** `rtrim` keeps a prefix. */
  lemma {:induction false} TrimRightPrefix(s: string)
    ensures TrimRight(s) == s[..|TrimRight(s)|]
  {
    if s != [] && IsTrimmed(s[|s| - 1]) {
      TrimRightPrefix(s[..|s| - 1]);
    }
  }

  /** `parseSchema` on one character: '.' reads 0 and '#' reads 1 (through
      `str_replace`), a digit its value, anything else 0. */
  function CellValue(c: char): (v: Digit)
    ensures c == '.' ==> v == 0
    ensures c == '#' ==> v == 1
    ensures IsDigit(c) ==> DigitChar(v) == c
  {
    if c == '.' then 0 else if c == '#' then 1 else if IsDigit(c) then DigitValue(c) else 0
  }

  /** `parseSchema`: every line to its row of cells. */
  function ParseSchema(block: seq<string>): (s: Schema)
    ensures |s| == |block|
    ensures forall y :: 0 <= y < |block| ==> |s[y]| == |block[y]|
    ensures forall y, x :: 0 <= y < |block| && 0 <= x < |block[y]| ==> s[y][x] == CellValue(block[y][x])
  {
    seq(|block|, y requires 0 <= y < |block| => seq(|block[y]|, x requires 0 <= x < |block[y]| => CellValue(block[y][x])))
  }

  /** The lock pattern `^#+$` on a block's first line. */
  predicate LockLine(l: string) {
    l != [] && forall i :: 0 <= i < |l| ==> l[i] == '#'
  }

  /** Every block has a first line for the lock test to read. */
  predicate NoEmptyBlock(input: seq<seq<string>>) {
    forall k :: 0 <= k < |input| ==> input[k] != []
  }

  /** The blocks the constructor files as locks, parsed. */
  function Locks(input: seq<seq<string>>): (r: seq<Schema>)
    requires NoEmptyBlock(input)
    ensures |r| <= |input|
  {
    if input == [] then []
    else
      var init, b := input[..|input| - 1], input[|input| - 1];
      Locks(init) + if LockLine(b[0]) then [ParseSchema(b)] else []
  }

  /** The blocks the constructor files as keys, parsed. */
  function Keys(input: seq<seq<string>>): (r: seq<Schema>)
    requires NoEmptyBlock(input)
    ensures |r| <= |input|
  {
    if input == [] then []
    else
      var init, b := input[..|input| - 1], input[|input| - 1];
      Keys(init) + if LockLine(b[0]) then [] else [ParseSchema(b)]
  }

  /** Filing one more block. */
  lemma {:induction false} FiledStep(input: seq<seq<string>>, i: int)
    requires NoEmptyBlock(input)
    requires 0 <= i < |input|
    ensures Locks(input[..i + 1]) == Locks(input[..i]) + if LockLine(input[i][0]) then [ParseSchema(input[i])] else []
    ensures Keys(input[..i + 1]) == Keys(input[..i]) + if LockLine(input[i][0]) then [] else [ParseSchema(input[i])]
  {
    assert input[..i + 1][..i] == input[..i];
    assert input[..i + 1][i] == input[i];
  }

  /** Every block is filed once, as a lock or as a key. */
  lemma {:induction false} EveryBlockFiled(input: seq<seq<string>>)
    requires NoEmptyBlock(input)
    ensures |Locks(input)| + |Keys(input)| == |input|
    ensures forall s :: s in Locks(input) ==> exists b :: b in input && LockLine(b[0]) && s == ParseSchema(b)
    ensures forall s :: s in Keys(input) ==> exists b :: b in input && !LockLine(b[0]) && s == ParseSchema(b)
  {
    if input != [] {
      var init, b := input[..|input| - 1], input[|input| - 1];
      EveryBlockFiled(init);
      assert b in input;
    }
  }

  // ---------------------------------------------------------------------------
  // fitting

  /** A cell of a schema, with PHP's reading of a missing cell (`null`,
      cast to 0). */
  function At(s: Schema, y: int, x: int): Digit {
    if 0 <= y < |s| && 0 <= x < |s[y]| then s[y][x] else 0
  }

  /** PHP's `^` on two cells. */
  function Xor(a: Digit, b: Digit): int {
    ((a as bv8) ^ (b as bv8)) as int
  }

  /** `Main::partialFit`: the cells differ in their last bit pattern by
      exactly 1, or both are empty. On cells read from '.' and '#', a cell
      pair fits unless both are '#'. */
  predicate PartialFit(k: Schema, l: Schema, y: int, x: int): (fits: bool)
    ensures At(k, y, x) <= 1 && At(l, y, x) <= 1 ==> (fits <==> !(At(k, y, x) == 1 && At(l, y, x) == 1))
  {
    var a, b := At(k, y, x), At(l, y, x);
    assert (0 as bv8) ^ (1 as bv8) == 1 && (1 as bv8) ^ (0 as bv8) == 1;
    assert (1 as bv8) ^ (1 as bv8) == 0 && (0 as bv8) ^ (0 as bv8) == 0;
    Xor(a, b) == 1 || a + b == 0
  }

  /** The key fits the lock on every row but the first and the last, on
      the key's width. */
  ghost predicate Fit(k: Schema, l: Schema)
    requires k != []
  {
    forall y, x :: 1 <= y < |k| - 1 && 0 <= x < |k[0]| ==> PartialFit(k, l, y, x)
  }

  /** What the loop of `Main::run` decides for one pair: on a key of three
      rows or more, `Fit`; on a key of two rows only the cell `(1, 0)` is
      looked at, and counted when the key is more than one column wide; a
      one-row key is never counted. */
  ghost predicate Counted(k: Schema, l: Schema) {
    if |k| >= 3 then Fit(k, l)
    else if |k| == 2 then |k[0]| > 1 && PartialFit(k, l, 1, 0)
    else false
  }

  /** The cells the loop has tested when it stands at `(y, x)`: all cells of
      the key's width from row 1 up to, not including, `(y, x)`. */
  ghost predicate FitBefore(k: Schema, l: Schema, cols: int, y: int, x: int) {
    forall y', x' :: 1 <= y' && 0 <= x' < cols && CellBefore(y', x', y, x) ==> PartialFit(k, l, y', x')
  }

  /** Row-major order on cells. */
  predicate CellBefore(y': int, x': int, y: int, x: int) {
    y' < y || (y' == y && x' < x)
  }

  /** Testing the cell `(y, x)` moves `FitBefore` one cell on. */
  lemma {:induction false} FitStep(k: Schema, l: Schema, cols: int, y: int, x: int)
    requires 1 <= y && 0 <= x < cols
    ensures FitBefore(k, l, cols, y, x) && PartialFit(k, l, y, x) <==>
      if x + 1 == cols then FitBefore(k, l, cols, y + 1, 0) else FitBefore(k, l, cols, y, x + 1)
  {
    var y1, x1 := if x + 1 == cols then y + 1 else y, if x + 1 == cols then 0 else x + 1;
    assert forall y', x' :: 0 <= x' < cols ==>
      (CellBefore(y', x', y1, x1) <==> CellBefore(y', x', y, x) || (y' == y && x' == x));
    if FitBefore(k, l, cols, y1, x1) {
      assert CellBefore(y, x, y1, x1);
    }
  }

  /** The do/while of `Main::run` for one (lock, key) pair, with the test
      that follows it. */
  method KeyFits(k: Schema, l: Schema) returns (counted: bool)
    requires k != [] && k[0] != []
    ensures counted <==> Counted(k, l)
  {
    var rows := |k|;
    var cols := |k[0]|;
    var x := 0;
    var y := 1;
    FitStep(k, l, cols, y, x);
    var fits := PartialFit(k, l, y, x);
    x := x + 1;
    if x == cols {
      x := 0;
      y := y + 1;
    }
    while y < rows - 1 && fits
      invariant 1 <= y && 0 <= x < cols
      invariant fits == FitBefore(k, l, cols, y, x)
      invariant rows >= 3 ==> y < rows - 1 || (y == rows - 1 && x == 0)
      invariant rows <= 2 ==> if cols == 1 then x == 0 && y == 2 else x == 1 && y == 1
      decreases rows - y, cols - x
    {
      FitStep(k, l, cols, y, x);
      fits := PartialFit(k, l, y, x);
      x := x + 1;
      if x == cols {
        x := 0;
        y := y + 1;
      }
    }
    counted := fits && y == rows - 1;
    if rows >= 3 {
      if fits {
        assert FitBefore(k, l, cols, rows - 1, 0);
      } else {
        assert !FitBefore(k, l, cols, y, x);
      }
    }
  }

  // ---------------------------------------------------------------------------
  // counting

  /** The keys of `keys` counted for `lock`. */
  ghost function KeysFitting(lock: Schema, keys: seq<Schema>): nat {
    if keys == [] then 0
    else KeysFitting(lock, keys[..|keys| - 1]) + (if Counted(keys[|keys| - 1], lock) then 1 else 0)
  }

  /** The pairs counted over all locks. */
  ghost function CountFits(locks: seq<Schema>, keys: seq<Schema>): nat {
    if locks == [] then 0
    else CountFits(locks[..|locks| - 1], keys) + KeysFitting(locks[|locks| - 1], keys)
  }

  /** The counted pairs, as (lock index, key index). */
  ghost function FittingPairs(locks: seq<Schema>, keys: seq<Schema>, n: int, m: int): set<(int, int)> {
    set i, j | 0 <= i < n && i < |locks| && 0 <= j < m && j < |keys| && Counted(keys[j], locks[i]) :: (i, j)
  }

  /** The counted pairs of lock `i` with the first `m` keys. */
  ghost function LockPairs(locks: seq<Schema>, keys: seq<Schema>, i: int, m: int): set<(int, int)>
    requires 0 <= i < |locks| && m <= |keys|
  {
    set j | 0 <= j < m && Counted(keys[j], locks[i]) :: (i, j)
  }

  lemma {:induction false} KeysFittingCounts(locks: seq<Schema>, keys: seq<Schema>, i: int, m: nat)
    requires 0 <= i < |locks| && m <= |keys|
    ensures KeysFitting(locks[i], keys[..m]) == |LockPairs(locks, keys, i, m)|
  {
    if m > 0 {
      KeysFittingCounts(locks, keys, i, m - 1);
      KeysFittingStep(locks[i], keys, m);
      LockPairsStep(locks, keys, i, m);
    }
  }

  lemma {:induction false} KeysFittingStep(lock: Schema, keys: seq<Schema>, m: nat)
    requires 0 < m <= |keys|
    ensures KeysFitting(lock, keys[..m]) == KeysFitting(lock, keys[..m - 1]) + if Counted(keys[m - 1], lock) then 1 else 0
  {
    assert keys[..m][..m - 1] == keys[..m - 1] && keys[..m][m - 1] == keys[m - 1];
  }

  lemma {:induction false} LockPairsStep(locks: seq<Schema>, keys: seq<Schema>, i: int, m: nat)
    requires 0 <= i < |locks| && 0 < m <= |keys|
    ensures |LockPairs(locks, keys, i, m)| == |LockPairs(locks, keys, i, m - 1)| + if Counted(keys[m - 1], locks[i]) then 1 else 0
  {
    var a := LockPairs(locks, keys, i, m - 1);
    var last := if Counted(keys[m - 1], locks[i]) then {(i, m - 1)} else {};
    forall p | p in LockPairs(locks, keys, i, m)
      ensures p in a + last
    {
      if p.1 < m - 1 {
        assert p in a;
      }
    }
    assert LockPairs(locks, keys, i, m) == a + last;
    assert (i, m - 1) !in a;
  }

  /** `CountFits` is the number of fitting (lock, key) pairs. */
  lemma {:induction false} CountFitsPairs(locks: seq<Schema>, keys: seq<Schema>, n: nat)
    requires n <= |locks|
    ensures CountFits(locks[..n], keys) == |FittingPairs(locks, keys, n, |keys|)|
  {
    if n > 0 {
      CountFitsPairs(locks, keys, n - 1);
      assert locks[..n][..n - 1] == locks[..n - 1] && locks[..n][n - 1] == locks[n - 1];
      assert CountFits(locks[..n], keys) == CountFits(locks[..n - 1], keys) + KeysFitting(locks[n - 1], keys);
      KeysFittingCounts(locks, keys, n - 1, |keys|);
      assert keys[..|keys|] == keys;
      PairsSplit(locks, keys, n);
    }
  }

  /** The pairs of the first `n` locks: those of the first `n - 1` and
      those of lock `n - 1`. */
  lemma {:induction false} PairsSplit(locks: seq<Schema>, keys: seq<Schema>, n: nat)
    requires 0 < n <= |locks|
    ensures var b := LockPairs(locks, keys, n - 1, |keys|);
      |FittingPairs(locks, keys, n, |keys|)| == |FittingPairs(locks, keys, n - 1, |keys|)| + |b|
  {
    var a := FittingPairs(locks, keys, n - 1, |keys|);
    var b := LockPairs(locks, keys, n - 1, |keys|);
    var c := FittingPairs(locks, keys, n, |keys|);
    forall p | p in c
      ensures p in a + b
    {
      if p.0 < n - 1 {
        assert p in a;
      } else {
        assert p in b;
      }
    }
    forall p | p in a + b
      ensures p in c
    {
    }
    assert c == a + b;
    forall p | p in a
      ensures p !in b
    {
    }
    assert a * b == {};
  }

  // ---------------------------------------------------------------------------
  // the puzzle

  /** `Main`: the schematics filed as locks and as keys. */
  class Main {
    var locks: seq<Schema>
    var keys: seq<Schema>

    /** Every key has a first row to take the width from. */
    predicate Valid()
      reads this
    {
      forall k :: k in keys ==> k != [] && k[0] != []
    }

    /** `Main::__construct`: each block is a lock when its first line is
        all '#', a key otherwise. */
    constructor(input: seq<seq<string>>)
      requires NoEmptyBlock(input)
      requires forall k :: 0 <= k < |input| ==> input[k][0] != []
      ensures locks == Locks(input) && keys == Keys(input)
      ensures Valid()
    {
      var ls: seq<Schema> := [];
      var ks: seq<Schema> := [];
      for i := 0 to |input|
        invariant ls == Locks(input[..i]) && ks == Keys(input[..i])
        invariant forall k :: k in ks ==> k != [] && k[0] != []
      {
        var block := input[i];
        assert block in input;
        FiledStep(input, i);
        if LockLine(block[0]) {
          ls := ls + [ParseSchema(block)];
        } else {
          ks := ks + [ParseSchema(block)];
        }
      }
      assert input[..|input|] == input;
      locks := ls;
      keys := ks;
    }

    /** `Main::run`: the number of (lock, key) pairs that fit. */
    method Run() returns (nb: nat)
      requires Valid()
      ensures nb == CountFits(locks, keys)
    {
      nb := 0;
      for i := 0 to |locks|
        invariant nb == CountFits(locks[..i], keys)
      {
        var lock := locks[i];
        for j := 0 to |keys|
          invariant nb == CountFits(locks[..i], keys) + KeysFitting(lock, keys[..j])
        {
          assert keys[j] in keys;
          var fits := KeyFits(keys[j], lock);
          assert keys[..j + 1][..j] == keys[..j];
          if fits {
            nb := nb + 1;
          }
        }
        assert keys[..|keys|] == keys;
        assert locks[..i + 1][..i] == locks[..i];
      }
      assert locks[..|locks|] == locks;
    }
  }

  /** The whole program on the lines of the input: the number of fitting
      pairs, or the failure of an empty block (two blank lines in a row,
      or a blank first line), whose missing first line the lock test
      rejects. */
  method Solve(lines: seq<string>) returns (r: Result<nat>)
    ensures var input := Blocks(lines);
      r.Err? <==> exists b :: b in input && b == []
    ensures var input := Blocks(lines);
      r.Ok? ==> NoEmptyBlock(input) &&
                r.value == |FittingPairs(Locks(input), Keys(input), |Locks(input)|, |Keys(input)|)|
  {
    var input := Blocks(lines);
    if exists b :: b in input && b == [] {
      return Err("a block has no first line");
    }
    GatheredLines(lines, [], []);
    forall k | 0 <= k < |input|
      ensures input[k] != [] && input[k][0] != []
    {
      assert input[k] in input;
      assert input[k][0] in input[k];
    }
    var main := new Main(input);
    var nb := main.Run();
    CountFitsPairs(main.locks, main.keys, |main.locks|);
    assert main.locks[..|main.locks|] == main.locks;
    r := Ok(nb);
  }
}
