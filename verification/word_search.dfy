/** 2024/04: a word search. From every cell of the board the answer is
    read in eight directions, each reading stopping at the edge of the
    board; a word that equals the answer is a solution, and a tally is
    kept per direction and for the whole board. A second score counts the
    pairs of diagonal solutions that cross. */
module WordSearch {
  import opened Common
  import opened Text

  const HORIZONTAL_RIGHT := "HORIZONTAL_RIGHT"
  const HORIZONTAL_LEFT := "HORIZONTAL_LEFT"
  const VERTICAL_DOWN := "VERTICAL_DOWN"
  const VERTICAL_UP := "VERTICAL_UP"
  const DIAGONAL_NE := "DIAGONAL_NE"
  const DIAGONAL_SE := "DIAGONAL_SE"
  const DIAGONAL_SW := "DIAGONAL_SW"
  const DIAGONAL_NW := "DIAGONAL_NW"
  const ALL_DIRECTIONS := "__ALL"

  /** The eight directions, in the order `findWords` reads them. */
  const DIRECTIONS: seq<string> := [HORIZONTAL_RIGHT, HORIZONTAL_LEFT, VERTICAL_DOWN, VERTICAL_UP,
                                    DIAGONAL_NE, DIAGONAL_SE, DIAGONAL_SW, DIAGONAL_NW]

  datatype Solution = Solution(solution: string, x: int, y: int, direction: string)

  /** The `(object) ['solutions' => ..., 'total' => ...]` of one direction. */
  datatype Tally = Tally(solutions: seq<Solution>, total: int)

  // ---------------------------------------------------------------------------
  // tallies

  /** What `Solutions::__construct` starts with: nothing found in any
      direction, nor in all of them. */
  function Initial(): map<string, Tally> {
    map d | d in DIRECTIONS + [ALL_DIRECTIONS] :: Tally([], 0)
  }

  /** `addSolution` on the tallies: the solution is pushed onto its own
      direction, then onto all directions. */
  function Added(m: map<string, Tally>, s: Solution): map<string, Tally>
    requires s.direction in m && ALL_DIRECTIONS in m
  {
    var m1 := m[s.direction := Tally(m[s.direction].solutions + [s], m[s.direction].total + 1)];
    m1[ALL_DIRECTIONS := Tally(m1[ALL_DIRECTIONS].solutions + [s], m1[ALL_DIRECTIONS].total + 1)]
  }

  /** Every solution has one of the eight directions. */
  predicate Headed(sols: seq<Solution>) {
    forall k :: 0 <= k < |sols| ==> sols[k].direction in DIRECTIONS
  }

  /** The tallies after adding `sols` in order. */
  function Tallies(sols: seq<Solution>): (r: map<string, Tally>)
    requires Headed(sols)
    ensures r.Keys == Initial().Keys
  {
    if sols == [] then Initial()
    else
      assert sols[|sols| - 1].direction in DIRECTIONS;
      Added(Tallies(sols[..|sols| - 1]), sols[|sols| - 1])
  }

  /** The solutions found in direction `d`, in order. */
  function Filter(sols: seq<Solution>, d: string): seq<Solution> {
    if sols == [] then []
    else Filter(sols[..|sols| - 1], d) + if sols[|sols| - 1].direction == d then [sols[|sols| - 1]] else []
  }

  /** Each direction's tally holds the solutions of that direction, in the
      order found, and counts them; the tally of all directions holds and
      counts every solution. */
  lemma {:induction false} TalliesMeaning(sols: seq<Solution>)
    requires Headed(sols)
    ensures forall d :: d in DIRECTIONS ==> Tallies(sols)[d] == Tally(Filter(sols, d), |Filter(sols, d)|)
    ensures Tallies(sols)[ALL_DIRECTIONS] == Tally(sols, |sols|)
  {
    forall d | d in DIRECTIONS
      ensures Tallies(sols)[d] == Tally(Filter(sols, d), |Filter(sols, d)|)
    {
      TallyOf(sols, d);
    }
    TallyOfAll(sols);
  }

  lemma {:induction false} TallyOf(sols: seq<Solution>, d: string)
    requires Headed(sols) && d in DIRECTIONS
    ensures Tallies(sols)[d] == Tally(Filter(sols, d), |Filter(sols, d)|)
  {
    if sols != [] {
      var init, s := sols[..|sols| - 1], sols[|sols| - 1];
      assert init + [s] == sols;
      assert ALL_DIRECTIONS != d;
      TallyOf(init, d);
    }
  }

  lemma {:induction false} TallyOfAll(sols: seq<Solution>)
    requires Headed(sols)
    ensures Tallies(sols)[ALL_DIRECTIONS] == Tally(sols, |sols|)
  {
    if sols != [] {
      var init, s := sols[..|sols| - 1], sols[|sols| - 1];
      assert init + [s] == sols;
      assert ALL_DIRECTIONS != s.direction;
      TallyOfAll(init);
    }
  }

  /** How many of the directions are `d`. */
  function Occurrences(dirs: seq<string>, d: string): nat {
    if dirs == [] then 0 else (if dirs[0] == d then 1 else 0) + Occurrences(dirs[1..], d)
  }

  /** The eight directions are distinct. */
  lemma {:induction false} DirectionsDistinct()
    ensures forall i, j :: 0 <= i < j < |DIRECTIONS| ==> DIRECTIONS[i] != DIRECTIONS[j]
  {
    assert |HORIZONTAL_RIGHT| == 16 && |HORIZONTAL_LEFT| == 15 && |VERTICAL_DOWN| == 13 && |VERTICAL_UP| == 11;
    assert DIAGONAL_NE[9..] == "NE" && DIAGONAL_SE[9..] == "SE" && DIAGONAL_SW[9..] == "SW" && DIAGONAL_NW[9..] == "NW";
  }

  lemma {:induction false} OccursNever(dirs: seq<string>, d: string)
    requires d !in dirs
    ensures Occurrences(dirs, d) == 0
  {
    if dirs != [] {
      OccursNever(dirs[1..], d);
    }
  }

  lemma {:induction false} OccursOnceIn(dirs: seq<string>, d: string)
    requires d in dirs
    requires forall i, j :: 0 <= i < j < |dirs| ==> dirs[i] != dirs[j]
    ensures Occurrences(dirs, d) == 1
  {
    if dirs[0] == d {
      assert d !in dirs[1..];
      OccursNever(dirs[1..], d);
    } else {
      OccursOnceIn(dirs[1..], d);
    }
  }

  /** Each direction is one of the eight exactly once. */
  lemma {:induction false} OccursOnce(d: string)
    requires d in DIRECTIONS
    ensures Occurrences(DIRECTIONS, d) == 1
  {
    DirectionsDistinct();
    OccursOnceIn(DIRECTIONS, d);
  }

  /** The sizes of the tallies of `dirs`, added up. */
  function FilteredSizes(sols: seq<Solution>, dirs: seq<string>): nat {
    if dirs == [] then 0 else |Filter(sols, dirs[0])| + FilteredSizes(sols, dirs[1..])
  }

  lemma {:induction false} FilteredSizesSnoc(sols: seq<Solution>, s: Solution, dirs: seq<string>)
    ensures FilteredSizes(sols + [s], dirs) == FilteredSizes(sols, dirs) + Occurrences(dirs, s.direction)
  {
    if dirs != [] {
      FilteredSizesSnoc(sols, s, dirs[1..]);
      var t := sols + [s];
      assert t[..|t| - 1] == sols && t[|t| - 1] == s;
      assert Filter(t, dirs[0]) == Filter(sols, dirs[0]) + if s.direction == dirs[0] then [s] else [];
    }
  }

  lemma {:induction false} FilteredSizesEmpty(dirs: seq<string>)
    ensures FilteredSizes([], dirs) == 0
  {
    if dirs != [] {
      FilteredSizesEmpty(dirs[1..]);
    }
  }

  /** The total of all directions is the sum of the eight totals. */
  lemma {:induction false} AllIsSum(sols: seq<Solution>)
    requires Headed(sols)
    ensures |sols| == FilteredSizes(sols, DIRECTIONS)
  {
    if sols != [] {
      var init, s := sols[..|sols| - 1], sols[|sols| - 1];
      assert init + [s] == sols;
      assert Headed(init) by {
        assert forall k :: 0 <= k < |init| ==> init[k] == sols[k];
      }
      assert s.direction in DIRECTIONS;
      AllIsSum(init);
      FilteredSizesSnoc(init, s, DIRECTIONS);
      OccursOnce(s.direction);
    } else {
      FilteredSizesEmpty(DIRECTIONS);
    }
  }

  /** The totals of the tallies of `dirs`, added up. */
  function Totals(m: map<string, Tally>, dirs: seq<string>): int
    requires forall k :: 0 <= k < |dirs| ==> dirs[k] in m
  {
    if dirs == [] then 0 else m[dirs[0]].total + Totals(m, dirs[1..])
  }

  lemma {:induction false} TotalsAreSizes(sols: seq<Solution>, dirs: seq<string>)
    requires Headed(sols)
    requires forall k :: 0 <= k < |dirs| ==> dirs[k] in DIRECTIONS
    requires forall d :: d in DIRECTIONS ==> Tallies(sols)[d].total == |Filter(sols, d)|
    ensures Totals(Tallies(sols), dirs) == FilteredSizes(sols, dirs)
  {
    if dirs != [] {
      TotalsAreSizes(sols, dirs[1..]);
    }
  }

  /** `getScore`, the tally of all directions, is the sum of the eight
      `getDirectionScore`s. */
  lemma {:induction false} ScoreIsSum(sols: seq<Solution>)
    requires Headed(sols)
    ensures Tallies(sols)[ALL_DIRECTIONS].total == Totals(Tallies(sols), DIRECTIONS)
  {
    TalliesMeaning(sols);
    TotalsAreSizes(sols, DIRECTIONS);
    AllIsSum(sols);
  }

  // ---------------------------------------------------------------------------
  // reading words

  /** Column `x` of row `y`, if the board has one there. */
  function Cell(board: seq<string>, y: int, x: int): Option<char> {
    if 0 <= y < |board| && 0 <= x < |board[y]| then Some(board[y][x]) else None
  }

  /** The letters at `(xs[n], ys[n])` for the first `n` positions; `None`
      when a cell is missing (`getChar()` on `null` throws). */
  function SpelledUpTo(board: seq<string>, xs: seq<int>, ys: seq<int>, n: nat): (r: Option<string>)
    requires n <= |xs| && n <= |ys|
    ensures r.Some? ==> |r.value| == n
  {
    if n == 0 then Some("")
    else
      match SpelledUpTo(board, xs, ys, n - 1)
      case None => None
      case Some(w) =>
        match Cell(board, ys[n - 1], xs[n - 1])
        case None => None
        case Some(c) => Some(w + [c])
  }

  /** The word read along paired column and row lists, as long as the
      shorter list. */
  function Spelled(board: seq<string>, xs: seq<int>, ys: seq<int>): Option<string> {
    SpelledUpTo(board, xs, ys, Min(|xs|, |ys|))
  }

  /** The `while`/`for` loops of `findWords` that append one letter per
      position. */
  method Spell(board: seq<string>, xs: seq<int>, ys: seq<int>) returns (w: Option<string>)
    ensures w == Spelled(board, xs, ys)
  {
    var word := "";
    for n := 0 to Min(|xs|, |ys|)
      invariant SpelledUpTo(board, xs, ys, n) == Some(word)
    {
      match Cell(board, ys[n], xs[n])
      case None =>
        NoneStays(board, xs, ys, n + 1, Min(|xs|, |ys|));
        return None;
      case Some(c) =>
        word := word + [c];
    }
    w := Some(word);
  }

  /** Once a cell is missing, longer readings fail too. */
  lemma {:induction false} NoneStays(board: seq<string>, xs: seq<int>, ys: seq<int>, n: nat, m: nat)
    requires n <= m <= |xs| && m <= |ys| && SpelledUpTo(board, xs, ys, n).None?
    ensures SpelledUpTo(board, xs, ys, m).None?
    decreases m - n
  {
    if n < m {
      NoneStays(board, xs, ys, n + 1, m);
    }
  }

  /** `count` copies of `v`: a row or column that stays put. */
  function Repeat(v: int, count: nat): (r: seq<int>)
    ensures |r| == count && forall k :: 0 <= k < count ==> r[k] == v
  {
    seq(count, _ => v)
  }

  /** The columns and rows direction `d` reads from `(x, y)`, built from
      the four ranges of `findWords`. */
  function Lanes(d: string, rows: int, cols: int, len: int, y: int, x: int): (seq<int>, seq<int>) {
    var hp := Range(x, Min(cols - 1, x + len - 1));
    var hn := Range(x, Max(0, x - len + 1));
    var vp := Range(y, Min(rows - 1, y + len - 1));
    var vn := Range(y, Max(0, y - len + 1));
    if d == HORIZONTAL_RIGHT then (hp, Repeat(y, |hp|))
    else if d == HORIZONTAL_LEFT then (hn, Repeat(y, |hn|))
    else if d == VERTICAL_DOWN then (Repeat(x, |vp|), vp)
    else if d == VERTICAL_UP then (Repeat(x, |vn|), vn)
    else if d == DIAGONAL_NE then (hp, vn)
    else if d == DIAGONAL_SE then (hp, vp)
    else if d == DIAGONAL_SW then (hn, vp)
    else (hn, vn)
  }

  /** The word `findWords` reads from `(x, y)` in direction `d`: the
      letters on the straight line from there, as many as the answer has
      unless the edge of the board comes first. */
  function WordAt(board: seq<string>, rows: int, cols: int, len: int, y: int, x: int, d: string): (r: Option<string>)
    ensures d in DIRECTIONS && 0 <= y < rows && 0 <= x < cols && len >= 1 ==>
      r == Line(board, y, x, Delta(d).0, Delta(d).1, Reach(d, rows, cols, len, y, x))
  {
    var (xs, ys) := Lanes(d, rows, cols, len, y, x);
    if d in DIRECTIONS && 0 <= y < rows && 0 <= x < cols && len >= 1 then
      LanesTrace(rows, cols, len, y, x, d);
      SpelledLine(board, xs, ys, y, x, Delta(d).0, Delta(d).1, Min(|xs|, |ys|));
      Spelled(board, xs, ys)
    else Spelled(board, xs, ys)
  }

  // ---------------------------------------------------------------------------
  // the same words, geometrically

  /** The step of a direction: right and down are positive. */
  function Delta(d: string): (int, int) {
    if d == HORIZONTAL_RIGHT then (1, 0)
    else if d == HORIZONTAL_LEFT then (-1, 0)
    else if d == VERTICAL_DOWN then (0, 1)
    else if d == VERTICAL_UP then (0, -1)
    else if d == DIAGONAL_NE then (1, -1)
    else if d == DIAGONAL_SE then (1, 1)
    else if d == DIAGONAL_SW then (-1, 1)
    else (-1, -1)
  }

  /** How many cells a step of `dz` from `z` may take inside `0..size-1`,
      at most `len`. */
  function Room(dz: int, z: int, size: int, len: int): int {
    if dz > 0 then Min(len, size - z) else if dz < 0 then Min(len, z + 1) else len
  }

  /** How many letters can be read from `(x, y)` in direction `d`: the
      length of the answer, cut at the edge of the board. */
  function Reach(d: string, rows: int, cols: int, len: int, y: int, x: int): int {
    Min(Room(Delta(d).0, x, cols, len), Room(Delta(d).1, y, rows, len))
  }

  /** The letters of the first `n` cells from `(x, y)` stepping by
      `(dx, dy)`. */
  function Line(board: seq<string>, y: int, x: int, dx: int, dy: int, n: nat): (r: Option<string>)
    ensures r.Some? ==> |r.value| == n
  {
    if n == 0 then Some("")
    else
      match Line(board, y, x, dx, dy, n - 1)
      case None => None
      case Some(w) =>
        match Cell(board, y + (n - 1) * dy, x + (n - 1) * dx)
        case None => None
        case Some(c) => Some(w + [c])
  }

  /** A line reads the word `w` exactly when every cell on it holds the
      matching letter of `w`. */
  lemma {:induction false} LineMeaning(board: seq<string>, y: int, x: int, dx: int, dy: int, n: nat, w: string)
    ensures Line(board, y, x, dx, dy, n) == Some(w) <==>
      |w| == n && forall k :: 0 <= k < n ==> Cell(board, y + k * dy, x + k * dx) == Some(w[k])
  {
    if n > 0 && |w| == n {
      LineMeaning(board, y, x, dx, dy, n - 1, w[..n - 1]);
      assert w == w[..n - 1] + [w[n - 1]];
      assert forall k :: 0 <= k < n - 1 ==> w[..n - 1][k] == w[k];
    }
  }

  /** Reading along the lists is reading along the line they trace. */
  lemma {:induction false} SpelledLine(board: seq<string>, xs: seq<int>, ys: seq<int>, y: int, x: int, dx: int, dy: int, n: nat)
    requires n <= |xs| && n <= |ys|
    requires forall k :: 0 <= k < n ==> xs[k] == x + k * dx && ys[k] == y + k * dy
    ensures SpelledUpTo(board, xs, ys, n) == Line(board, y, x, dx, dy, n)
  {
    if n > 0 {
      SpelledLine(board, xs, ys, y, x, dx, dy, n - 1);
    }
  }

  /** The range of columns or rows a step of `dz` covers from `z`, as
      `findWords` builds it. */
  lemma {:induction false} Lane(dz: int, z: int, size: int, len: int)
    requires dz == 1 || dz == -1
    requires 0 <= z < size && len >= 1
    ensures var r := if dz == 1 then Range(z, Min(size - 1, z + len - 1)) else Range(z, Max(0, z - len + 1));
      |r| == Room(dz, z, size, len) && forall k :: 0 <= k < |r| ==> r[k] == z + k * dz
  {
  }

  /** The lanes of each direction trace its line from `(x, y)`, as far
      as it reaches. */
  lemma {:induction false} LanesTrace(rows: int, cols: int, len: int, y: int, x: int, d: string)
    requires d in DIRECTIONS && 0 <= y < rows && 0 <= x < cols && len >= 1
    ensures var (xs, ys) := Lanes(d, rows, cols, len, y, x);
      Min(|xs|, |ys|) == Reach(d, rows, cols, len, y, x) &&
      (forall k :: 0 <= k < |xs| ==> xs[k] == x + k * Delta(d).0) &&
      (forall k :: 0 <= k < |ys| ==> ys[k] == y + k * Delta(d).1)
  {
    if d == HORIZONTAL_RIGHT {
      Lane(1, x, cols, len);
    } else if d == HORIZONTAL_LEFT {
      Lane(-1, x, cols, len);
    } else if d == VERTICAL_DOWN {
      Lane(1, y, rows, len);
    } else if d == VERTICAL_UP {
      Lane(-1, y, rows, len);
    } else if d == DIAGONAL_NE {
      Lane(1, x, cols, len);
      Lane(-1, y, rows, len);
    } else if d == DIAGONAL_SE {
      Lane(1, x, cols, len);
      Lane(1, y, rows, len);
    } else if d == DIAGONAL_SW {
      Lane(-1, x, cols, len);
      Lane(1, y, rows, len);
    } else {
      Lane(-1, x, cols, len);
      Lane(-1, y, rows, len);
    }
  }

  /** The answer is found at `(x, y)` in direction `d` exactly when it
      fits before the edge and every letter of it is on the board along
      that line. */
  lemma {:induction false} FoundIff(board: seq<string>, rows: int, cols: int, answer: string, y: int, x: int, d: string)
    requires d in DIRECTIONS && 0 <= y < rows && 0 <= x < cols && |answer| >= 1
    ensures WordAt(board, rows, cols, |answer|, y, x, d) == Some(answer) <==>
      Reach(d, rows, cols, |answer|, y, x) == |answer| &&
      forall k :: 0 <= k < |answer| ==> Cell(board, y + k * Delta(d).1, x + k * Delta(d).0) == Some(answer[k])
  {
    var n := Reach(d, rows, cols, |answer|, y, x);
    LineMeaning(board, y, x, Delta(d).0, Delta(d).1, n, answer);
  }

  // ---------------------------------------------------------------------------
  // the scan

  /** The solutions found at `(x, y)` in the first `n` directions; `None`
      when a reading throws. */
  function HitsIn(board: seq<string>, rows: int, cols: int, answer: string, y: int, x: int, n: nat): (r: Option<seq<Solution>>)
    requires n <= |DIRECTIONS|
    ensures r.Some? ==> Headed(r.value)
  {
    if n == 0 then Some([])
    else
      match HitsIn(board, rows, cols, answer, y, x, n - 1)
      case None => None
      case Some(h) =>
        match WordAt(board, rows, cols, |answer|, y, x, DIRECTIONS[n - 1])
        case None => None
        case Some(w) => Some(h + if w == answer then [Solution(answer, x, y, DIRECTIONS[n - 1])] else [])
  }

  /** `findWords` at `(x, y)`: every solution found there is the answer,
      starting there and read in its own direction. */
  function HitsAt(board: seq<string>, rows: int, cols: int, answer: string, y: int, x: int): (r: Option<seq<Solution>>)
    ensures r.Some? ==> forall s :: s in r.value ==>
      s == Solution(answer, x, y, s.direction) && WordAt(board, rows, cols, |answer|, y, x, s.direction) == Some(answer)
  {
    var hits := HitsIn(board, rows, cols, answer, y, x, |DIRECTIONS|);
    if hits.Some? then HitsAreWords(board, rows, cols, answer, y, x, |DIRECTIONS|); hits else hits
  }

  /** Every solution found at `(x, y)` is the answer, starting there and
      read in its own direction. */
  lemma {:induction false} HitsAreWords(board: seq<string>, rows: int, cols: int, answer: string, y: int, x: int, n: nat)
    requires n <= |DIRECTIONS| && HitsIn(board, rows, cols, answer, y, x, n).Some?
    ensures forall s :: s in HitsIn(board, rows, cols, answer, y, x, n).value ==>
      s == Solution(answer, x, y, s.direction) && WordAt(board, rows, cols, |answer|, y, x, s.direction) == Some(answer)
  {
    if n > 0 {
      HitsAreWords(board, rows, cols, answer, y, x, n - 1);
    }
  }

  /** Appends two readings; the first one that throws ends the scan. */
  function Then(a: Option<seq<Solution>>, b: Option<seq<Solution>>): Option<seq<Solution>> {
    if a.Some? && b.Some? then Some(a.value + b.value) else None
  }

  /** The solutions of the first `n` cells of row `y`. */
  function RowHits(board: seq<string>, rows: int, cols: int, answer: string, y: int, n: nat): (r: Option<seq<Solution>>)
    ensures r.Some? ==> Headed(r.value)
  {
    if n == 0 then Some([])
    else Then(RowHits(board, rows, cols, answer, y, n - 1), HitsAt(board, rows, cols, answer, y, n - 1))
  }

  /** The solutions of the first `m` rows. */
  function BoardHits(board: seq<string>, rows: int, cols: int, answer: string, m: nat): (r: Option<seq<Solution>>)
    ensures r.Some? ==> Headed(r.value)
  {
    if m == 0 then Some([])
    else Then(BoardHits(board, rows, cols, answer, m - 1), RowHits(board, rows, cols, answer, m - 1, Max(cols, 0)))
  }

  // ---------------------------------------------------------------------------
  // crossing words

  /** What `getOffset($se[0]->solution)` throws when there is no south-east
      solution: `$se[0]` is null and the parameter is a non-nullable
      string. */
  const NULL_SOLUTION := "TypeError: getOffset(): Argument #1 ($solution) must be of type string, null given"

  /** The solutions of direction `d`; a missing tally reads as none, as
      `null` and `[]` are both false in `if ($se && $ne)`. */
  function Listed(m: map<string, Tally>, d: string): seq<Solution> {
    if d in m then m[d].solutions else []
  }

  /** The four pairs of diagonals `getDirectionXScore` knows. */
  predicate Pairing(dir1: string, dir2: string) {
    (dir1 == DIAGONAL_SE && (dir2 == DIAGONAL_NE || dir2 == DIAGONAL_SW)) ||
    (dir1 == DIAGONAL_NW && (dir2 == DIAGONAL_NE || dir2 == DIAGONAL_SW))
  }

  /** The test of the inner loop of each branch: `b` starts `offset` away
      from `a`, along the side the two diagonals share. */
  predicate Matches(dir1: string, dir2: string, a: Solution, b: Solution, offset: int) {
    if dir1 == DIAGONAL_SE && dir2 == DIAGONAL_NE then b.x == a.x && b.y == a.y + offset
    else if dir1 == DIAGONAL_SE && dir2 == DIAGONAL_SW then b.x == a.x + offset && b.y == a.y
    else if dir1 == DIAGONAL_NW && dir2 == DIAGONAL_NE then b.x == a.x - offset && b.y == a.y
    else if dir1 == DIAGONAL_NW && dir2 == DIAGONAL_SW then b.x == a.x && b.y == a.y - offset
    else false
  }

  /** How many of `bs` match `a`. */
  function Partners(a: Solution, bs: seq<Solution>, dir1: string, dir2: string, offset: int): (r: nat)
    ensures r <= |bs|
  {
    if bs == [] then 0
    else Partners(a, bs[..|bs| - 1], dir1, dir2, offset) + if Matches(dir1, dir2, a, bs[|bs| - 1], offset) then 1 else 0
  }

  /** How many pairs of `firsts` and `seconds` match. */
  function Pairs(firsts: seq<Solution>, seconds: seq<Solution>, dir1: string, dir2: string, offset: int): (r: nat)
    ensures r <= |firsts| * |seconds|
  {
    if firsts == [] then 0
    else
      var r := Pairs(firsts[..|firsts| - 1], seconds, dir1, dir2, offset) + Partners(firsts[|firsts| - 1], seconds, dir1, dir2, offset);
      assert |firsts| * |seconds| == (|firsts| - 1) * |seconds| + |seconds|;
      r
  }

  /** `getDirectionXScore` with the offset read from the solutions of
      direction `from`: none for an unknown pair or an empty side, the
      `TypeError` when `from` has no solution, zero for a word of even
      length. */
  function XScoreFrom(m: map<string, Tally>, dir1: string, dir2: string, from: string): (r: Result<Option<int>>)
    ensures r.Err? <==> Pairing(dir1, dir2) && Listed(m, dir1) != [] && Listed(m, dir2) != [] && Listed(m, from) == []
    ensures r.Ok? ==> (r.value.Some? <==> Pairing(dir1, dir2) && Listed(m, dir1) != [] && Listed(m, dir2) != [])
    ensures r.Ok? && r.value.Some? ==> 0 <= r.value.value <= |Listed(m, dir1)| * |Listed(m, dir2)|
  {
    var firsts, seconds := Listed(m, dir1), Listed(m, dir2);
    if !Pairing(dir1, dir2) || firsts == [] || seconds == [] then Ok(None)
    else if Listed(m, from) == [] then Err(NULL_SOLUTION)
    else
      match Solutions.GetOffset(Listed(m, from)[0].solution)
      case None => Ok(Some(0))
      case Some(offset) => Ok(Some(Pairs(firsts, seconds, dir1, dir2, offset)))
  }

  /** As written: every branch reads `$se[0]`, the two north-west branches
      included, where only `$nw` was checked. */
  function XScoreAsWritten(m: map<string, Tally>, dir1: string, dir2: string): (r: Result<Option<int>>)
    ensures r.Err? <==> Pairing(dir1, dir2) && Listed(m, dir1) != [] && Listed(m, dir2) != [] && Listed(m, DIAGONAL_SE) == []
  {
    XScoreFrom(m, dir1, dir2, DIAGONAL_SE)
  }

  /** As intended: the offset comes from the first solution of `dir1`,
      which the branch has checked. */
  function XScore(m: map<string, Tally>, dir1: string, dir2: string): (r: Result<Option<int>>)
    ensures r.Ok?
    ensures r.value.Some? <==> Pairing(dir1, dir2) && Listed(m, dir1) != [] && Listed(m, dir2) != []
    ensures r.value.Some? ==> 0 <= r.value.value <= |Listed(m, dir1)| * |Listed(m, dir2)|
  {
    XScoreFrom(m, dir1, dir2, dir1)
  }

  /** Whenever the south-east offset is the one of `dir1` (the two
      south-east branches, or words of one length), both read the same. */
  lemma {:induction false} XScoreAgrees(m: map<string, Tally>, dir1: string, dir2: string)
    requires Listed(m, DIAGONAL_SE) != [] && Listed(m, dir1) != []
    requires |Listed(m, DIAGONAL_SE)[0].solution| == |Listed(m, dir1)[0].solution|
    ensures XScoreAsWritten(m, dir1, dir2) == XScore(m, dir1, dir2)
  {
  }

  /** `getScoreX`: the four pairings added up, a pairing without a score
      counting zero; the first `TypeError` ends it. */
  function ScoreXAsWritten(m: map<string, Tally>): (r: Result<int>)
    ensures r.Ok? <==> forall k :: 0 <= k < 4 ==> XScoreAsWritten(m, PairFirst(k), PairSecond(k)).Ok?
  {
    SumScores(m, 4, true)
  }

  /** `getScoreX` on the corrected `getDirectionXScore`: never fails. */
  function ScoreX(m: map<string, Tally>): (r: int)
    ensures r >= 0
  {
    SumScores(m, 4, false).value
  }

  /** The pairings `getScoreX` asks for, in its order. */
  function PairFirst(k: int): string {
    if k < 2 then DIAGONAL_SE else DIAGONAL_NW
  }

  function PairSecond(k: int): string {
    if k % 2 == 0 then DIAGONAL_NE else DIAGONAL_SW
  }

  /** The first `n` pairings of `getScoreX`, each with `?? 0`. */
  function SumScores(m: map<string, Tally>, n: nat, asWritten: bool): (r: Result<int>)
    ensures r.Ok? ==> r.value >= 0
    ensures !asWritten ==> r.Ok?
    ensures asWritten ==> (r.Ok? <==> forall k :: 0 <= k < n ==> XScoreAsWritten(m, PairFirst(k), PairSecond(k)).Ok?)
  {
    if n == 0 then Ok(0)
    else
      var part := if asWritten then XScoreAsWritten(m, PairFirst(n - 1), PairSecond(n - 1))
                  else XScore(m, PairFirst(n - 1), PairSecond(n - 1));
      match SumScores(m, n - 1, asWritten)
      case Err(e) => Err(e)
      case Ok(sum) =>
        match part
        case Err(e) => Err(e)
        case Ok(score) => Ok(sum + if score.Some? then score.value else 0)
  }

  /** When the as-written score does not fail and every solution found is
      one word, it is the corrected score. */
  lemma {:induction false} ScoreXAgrees(m: map<string, Tally>, n: nat)
    requires Listed(m, DIAGONAL_SE) != []
    requires forall d :: d in m ==> forall k :: 0 <= k < |m[d].solutions| ==> |m[d].solutions[k].solution| == |Listed(m, DIAGONAL_SE)[0].solution|
    ensures SumScores(m, n, true) == SumScores(m, n, false)
  {
    if n > 0 {
      ScoreXAgrees(m, n - 1);
      var d1 := PairFirst(n - 1);
      if Listed(m, d1) != [] {
        assert d1 in m && 0 < |m[d1].solutions|;
        XScoreAgrees(m, d1, PairSecond(n - 1));
      }
    }
  }

  /** The test a branch applies, with the offset the span `2 * mid` of a
      word of `2 * mid + 1` letters, says the two words share their middle
      letter's cell. */
  lemma {:induction false} CrossAtMiddle(dir1: string, dir2: string, a: Solution, b: Solution, mid: nat)
    requires Pairing(dir1, dir2)
    ensures Matches(dir1, dir2, a, b, 2 * mid) <==>
      a.x + mid * Delta(dir1).0 == b.x + mid * Delta(dir2).0 && a.y + mid * Delta(dir1).1 == b.y + mid * Delta(dir2).1
  {
  }

  /** `getOffset` gives that span for three-letter words, and only for
      them. */
  lemma {:induction false} OffsetIsSpan(w: string)
    ensures Solutions.GetOffset(w) == Some(|w| - 1) <==> |w| == 3
  {
  }

  /** The tallies after the two words of the board below. */
  lemma {:induction false} CrossTallies(nw: Solution, ne: Solution)
    requires nw.direction == DIAGONAL_NW && ne.direction == DIAGONAL_NE
    ensures var m := Tallies([nw, ne]);
      Listed(m, DIAGONAL_SE) == [] && Listed(m, DIAGONAL_NW) == [nw] && Listed(m, DIAGONAL_NE) == [ne]
  {
    assert [nw, ne][..1] == [nw] && [nw][..0] == [];
    assert DIAGONAL_NE[9] != DIAGONAL_SE[9] && DIAGONAL_NW[9] != DIAGONAL_SE[9] && DIAGONAL_NE[10] != DIAGONAL_NW[10];
    assert |ALL_DIRECTIONS| != |DIAGONAL_SE| && |ALL_DIRECTIONS| != |DIAGONAL_NE| && |ALL_DIRECTIONS| != |DIAGONAL_NW|;
    var m0 := Initial();
    assert DIAGONAL_SE in m0 && m0[DIAGONAL_SE] == m0[DIAGONAL_NW] == m0[DIAGONAL_NE] == Tally([], 0);
    var m1 := Added(m0, nw);
    assert Tallies([nw]) == m1;
    var m := Added(m1, ne);
    assert Tallies([nw, ne]) == m;
  }

  /** Board `S.S / .A. / M.M` with answer `MAS`: one word north-west from
      the bottom right, one north-east from the bottom left, no south-east
      word. The north-west/north-east pairing then reads `$se[0]` and
      fails, where the corrected reading counts the one cross. */
  lemma {:induction false} XScoreCounterexample()
    ensures var m := Tallies([Solution("MAS", 2, 2, DIAGONAL_NW), Solution("MAS", 0, 2, DIAGONAL_NE)]);
      XScoreAsWritten(m, DIAGONAL_NW, DIAGONAL_NE) == Err(NULL_SOLUTION) &&
      XScore(m, DIAGONAL_NW, DIAGONAL_NE) == Ok(Some(1))
  {
    var nw, ne := Solution("MAS", 2, 2, DIAGONAL_NW), Solution("MAS", 0, 2, DIAGONAL_NE);
    CrossTallies(nw, ne);
    assert [ne][..0] == [] && [nw][..0] == [];
    assert Partners(nw, [ne], DIAGONAL_NW, DIAGONAL_NE, 2) == 1;
    assert Pairs([nw], [ne], DIAGONAL_NW, DIAGONAL_NE, 2) == 1;
  }

  // ---------------------------------------------------------------------------
  // the objects

  class Solutions {
    var directions: map<string, Tally>

    constructor()
      ensures directions == Initial()
    {
      directions := Initial();
    }

    /** `Solutions::addSolution`. */
    method AddSolution(s: Solution)
      requires s.direction in directions && ALL_DIRECTIONS in directions
      modifies this
      ensures directions == Added(old(directions), s)
    {
      var own := directions[s.direction];
      directions := directions[s.direction := Tally(own.solutions + [s], own.total + 1)];
      var all := directions[ALL_DIRECTIONS];
      directions := directions[ALL_DIRECTIONS := Tally(all.solutions + [s], all.total + 1)];
    }

    /** `Solutions::getDirectionScore`: no direction means all of them; a
        direction without a tally has no score. */
    function GetDirectionScore(direction: Option<string>): (r: Option<int>)
      reads this
      ensures direction.None? ==> r == if ALL_DIRECTIONS in directions then Some(directions[ALL_DIRECTIONS].total) else None
      ensures direction.Some? ==> (r.Some? <==> direction.value in directions)
      ensures direction.Some? && r.Some? ==> r.value == directions[direction.value].total
    {
      var d := if direction.None? then ALL_DIRECTIONS else direction.value;
      if d in directions then Some(directions[d].total) else None
    }

    /** `Solutions::getDirectionSolutions`. */
    function GetDirectionSolutions(direction: Option<string>): (r: Option<seq<Solution>>)
      reads this
      ensures r.Some? <==> (if direction.None? then ALL_DIRECTIONS else direction.value) in directions
    {
      var d := if direction.None? then ALL_DIRECTIONS else direction.value;
      if d in directions then Some(directions[d].solutions) else None
    }

    /** `Solutions::getDirectionXScore` as written: the two nested
        `foreach` loops count the crossing pairs, with the offset taken
        from the first south-east solution in every branch. */
    method GetDirectionXScore(dir1: string, dir2: string) returns (r: Result<Option<int>>)
      ensures r == XScoreAsWritten(directions, dir1, dir2)
    {
      var firsts, seconds := Listed(directions, dir1), Listed(directions, dir2);
      if !Pairing(dir1, dir2) || firsts == [] || seconds == [] {
        return Ok(None);
      }
      var se := Listed(directions, DIAGONAL_SE);
      if se == [] {
        return Err(NULL_SOLUTION);
      }
      var offset := GetOffset(se[0].solution);
      if offset.None? {
        return Ok(Some(0));
      }
      var score := 0;
      for i := 0 to |firsts|
        invariant score == Pairs(firsts[..i], seconds, dir1, dir2, offset.value)
      {
        assert firsts[..i + 1][..i] == firsts[..i];
        for j := 0 to |seconds|
          invariant score == Pairs(firsts[..i], seconds, dir1, dir2, offset.value) +
                             Partners(firsts[i], seconds[..j], dir1, dir2, offset.value)
        {
          assert seconds[..j + 1][..j] == seconds[..j];
          if Matches(dir1, dir2, firsts[i], seconds[j], offset.value) {
            score := score + 1;
          }
        }
        assert seconds[..|seconds|] == seconds;
      }
      assert firsts[..|firsts|] == firsts;
      r := Ok(Some(score));
    }

    /** `Solutions::getOffset`: how far apart two crossing words start,
        `ceil(strlen / 2)`, none for a word of even length. */
    static function GetOffset(solution: string): (r: Option<int>)
      ensures r.Some? <==> |solution| % 2 == 1
      ensures r.Some? ==> 2 * r.value - 1 == |solution|
    {
      if |solution| % 2 == 0 then None else Some((|solution| + 1) / 2)
    }
  }

  class Board {
    const cols: int
    const rows: int
    const board: seq<string>
    const answer: string
    const solutions: Solutions
    /** The solutions added so far, in order. */
    ghost var found: seq<Solution>

    /** The tallies are those of the solutions found. */
    ghost predicate Valid()
      reads this, solutions
    {
      Headed(found) && solutions.directions == Tallies(found)
    }

    /** `Board::__construct` up to its two loops: the input is trimmed and
        cut at line ends, every line is trimmed, the first line gives the
        width. */
    constructor(input: string, answer: string)
      ensures board == Lines(input) && rows == |board| && cols == |board[0]|
      ensures this.answer == answer && found == [] && Valid()
      ensures fresh(solutions)
    {
      board := Lines(input);
      rows := |Lines(input)|;
      cols := |Lines(input)[0]|;
      this.answer := answer;
      solutions := new Solutions();
      found := [];
    }

    /** The loops of `Board::__construct`: every cell, row by row, is a
        starting point. */
    method Search() returns (ok: bool)
      requires Valid() && found == []
      modifies this, solutions
      ensures Valid()
      ensures ok <==> BoardHits(board, rows, cols, answer, Max(rows, 0)).Some?
      ensures ok ==> found == BoardHits(board, rows, cols, answer, Max(rows, 0)).value
    {
      for j := 0 to Max(rows, 0)
        invariant Valid()
        invariant BoardHits(board, rows, cols, answer, j) == Some(found)
      {
        ok := ScanRow(j);
        if !ok {
          BoardStops(board, rows, cols, answer, j + 1, Max(rows, 0));
          return;
        }
      }
      ok := true;
    }

    /** The inner loop of the constructor: every cell of row `y`, left to
        right, is a starting point. */
    method ScanRow(y: int) returns (ok: bool)
      requires Valid()
      modifies this, solutions
      ensures Valid()
      ensures ok <==> RowHits(board, rows, cols, answer, y, Max(cols, 0)).Some?
      ensures ok ==> found == old(found) + RowHits(board, rows, cols, answer, y, Max(cols, 0)).value
    {
      ghost var start := found;
      for i := 0 to Max(cols, 0)
        invariant Valid()
        invariant RowHits(board, rows, cols, answer, y, i).Some?
        invariant found == start + RowHits(board, rows, cols, answer, y, i).value
      {
        ghost var row := RowHits(board, rows, cols, answer, y, i).value;
        ok := FindWords(y, i);
        if !ok {
          RowStops(board, rows, cols, answer, y, i + 1, Max(cols, 0));
          return;
        }
        ghost var here := HitsAt(board, rows, cols, answer, y, i).value;
        assert RowHits(board, rows, cols, answer, y, i + 1) == Some(row + here);
        assert found == start + row + here;
        Regroup(start, row, here);
      }
      ok := true;
    }

    /** `Board::findWords`: the eight readings from `(x, y)`, in the
        order of `DIRECTIONS`, each one checked against the answer;
        `false` when a reading leaves the board. */
    method FindWords(y: int, x: int) returns (ok: bool)
      requires Valid()
      modifies this, solutions
      ensures Valid()
      ensures ok <==> HitsAt(board, rows, cols, answer, y, x).Some?
      ensures ok ==> found == old(found) + HitsAt(board, rows, cols, answer, y, x).value
    {
      ghost var start := found;
      for k := 0 to |DIRECTIONS|
        invariant Valid()
        invariant HitsIn(board, rows, cols, answer, y, x, k).Some?
        invariant found == start + HitsIn(board, rows, cols, answer, y, x, k).value
      {
        ok := Look(k, y, x, start);
        if !ok { return; }
      }
      ok := true;
    }

    /** One block of `findWords`: the reading in direction `DIRECTIONS[k]`
        and its validation, after the readings before it all stayed on the
        board. */
    method Look(k: nat, y: int, x: int, ghost start: seq<Solution>) returns (read: bool)
      requires k < |DIRECTIONS| && Valid()
      requires HitsIn(board, rows, cols, answer, y, x, k).Some?
      requires found == start + HitsIn(board, rows, cols, answer, y, x, k).value
      modifies this, solutions
      ensures Valid()
      ensures read <==> HitsIn(board, rows, cols, answer, y, x, k + 1).Some?
      ensures read ==> found == start + HitsIn(board, rows, cols, answer, y, x, k + 1).value
      ensures !read ==> HitsAt(board, rows, cols, answer, y, x).None?
    {
      var (xs, ys) := Lanes(DIRECTIONS[k], rows, cols, |answer|, y, x);
      var w := Spell(board, xs, ys);
      assert w == WordAt(board, rows, cols, |answer|, y, x, DIRECTIONS[k]);
      if w.None? {
        HitsStop(board, rows, cols, answer, y, x, k + 1, |DIRECTIONS|);
        return false;
      }
      HitsStep(board, rows, cols, answer, y, x, k, w.value);
      var valid := ValidateWord(w.value, x, y, DIRECTIONS[k]);
      read := true;
    }

    /** `Board::validateWord`: the word is a solution exactly when it is
        the answer. */
    method ValidateWord(word: string, x: int, y: int, direction: string) returns (valid: bool)
      requires Valid() && direction in DIRECTIONS
      modifies this, solutions
      ensures valid <==> word == answer
      ensures found == old(found) + if valid then [Solution(answer, x, y, direction)] else []
      ensures Valid()
    {
      valid := word == answer;
      if valid {
        var s := Solution(answer, x, y, direction);
        assert Tallies(found + [s]) == Added(Tallies(found), s) by {
          assert (found + [s])[..|found|] == found;
        }
        solutions.AddSolution(s);
        found := found + [s];
      } else {
        assert found + [] == found;
      }
    }

    /** `Board::getScore`: the tally of all directions. */
    function GetScore(): (r: int)
      reads this, solutions
      requires Valid()
      ensures r == |found|
    {
      TalliesMeaning(found);
      solutions.directions[ALL_DIRECTIONS].total
    }
  }

  /** The board `Board::__construct` reads: the trimmed input cut at line
      ends, each line trimmed. */
  function Lines(input: string): (r: seq<string>)
    ensures |r| >= 1
  {
    var parts := Explode(Trim(input), '\n');
    seq(|parts|, k requires 0 <= k < |parts| => Trim(parts[k]))
  }

  lemma {:induction false} Regroup(a: seq<Solution>, b: seq<Solution>, c: seq<Solution>)
    ensures a + b + c == a + (b + c)
  {
  }

  /** One more direction read from `(x, y)`. */
  lemma {:induction false} HitsStep(board: seq<string>, rows: int, cols: int, answer: string, y: int, x: int, k: nat, w: string)
    requires k < |DIRECTIONS| && HitsIn(board, rows, cols, answer, y, x, k).Some?
    requires WordAt(board, rows, cols, |answer|, y, x, DIRECTIONS[k]) == Some(w)
    ensures HitsIn(board, rows, cols, answer, y, x, k + 1) ==
      Some(HitsIn(board, rows, cols, answer, y, x, k).value + if w == answer then [Solution(answer, x, y, DIRECTIONS[k])] else [])
  {
  }

  lemma {:induction false} HitsStop(board: seq<string>, rows: int, cols: int, answer: string, y: int, x: int, n: nat, m: nat)
    requires n <= m <= |DIRECTIONS| && HitsIn(board, rows, cols, answer, y, x, n).None?
    ensures HitsIn(board, rows, cols, answer, y, x, m).None?
    decreases m - n
  {
    if n < m {
      HitsStop(board, rows, cols, answer, y, x, n + 1, m);
    }
  }

  lemma {:induction false} RowStops(board: seq<string>, rows: int, cols: int, answer: string, y: int, n: nat, m: nat)
    requires n <= m && RowHits(board, rows, cols, answer, y, n).None?
    ensures RowHits(board, rows, cols, answer, y, m).None?
    decreases m - n
  {
    if n < m {
      RowStops(board, rows, cols, answer, y, n + 1, m);
    }
  }

  lemma {:induction false} BoardStops(board: seq<string>, rows: int, cols: int, answer: string, n: nat, m: nat)
    requires n <= m && BoardHits(board, rows, cols, answer, n).None?
    ensures BoardHits(board, rows, cols, answer, m).None?
    decreases m - n
  {
    if n < m {
      BoardStops(board, rows, cols, answer, n + 1, m);
    }
  }
}
