/** Rolls of paper on a grid (2025, day 4). A '@' cell holds a roll; a
    roll can be reached by a forklift when fewer than four of the eight
    cells around it hold rolls. The answer counts the reachable rolls. */
module PaperRolls {
  import opened Common
  import opened Text

  const TOILET_PAPER: char := '@'
  const FLOOR: char := '.'
  const TILES_FOR_ACCESS: int := 4

  datatype Pos = Pos(x: int, y: int)

  /** `GridPosition::fromChar`: only '@' stays a roll, anything else is floor. */
  function FromChar(c: char): (r: char)
    ensures r == TOILET_PAPER <==> c == TOILET_PAPER
    ensures r == TOILET_PAPER || r == FLOOR
  {
    if c == TOILET_PAPER then TOILET_PAPER else FLOOR
  }

  /** The characters of a grid, each one through `FromChar`. */
  function Cells(g: seq<seq<char>>): (r: seq<seq<char>>)
    ensures |r| == |g|
    ensures forall y :: 0 <= y < |g| ==> |r[y]| == |g[y]|
    ensures forall y, x :: 0 <= y < |g| && 0 <= x < |g[y]| ==> r[y][x] == FromChar(g[y][x])
  {
    seq(|g|, y requires 0 <= y < |g| => seq(|g[y]|, x requires 0 <= x < |g[y]| => FromChar(g[y][x])))
  }

  // ---------------------------------------------------------------------------
  // the puzzle, stated on the rows read

  /** A grid the `Grid` constructor can work on: at least one row, and no
      row shorter than the first, whose length is the width. */
  predicate Shaped(g: seq<seq<char>>) {
    g != [] && forall y :: 0 <= y < |g| ==> |g[y]| >= |g[0]|
  }

  /** A roll at `(x, y)`, inside the width of the first row. */
  predicate RollAt(g: seq<seq<char>>, x: int, y: int) {
    0 <= y < |g| && 0 <= x < |g[0]| && x < |g[y]| && g[y][x] == TOILET_PAPER
  }

  /** The eight cells around `(x, y)`. */
  function Box(x: int, y: int): set<Pos> {
    {Pos(x - 1, y - 1), Pos(x, y - 1), Pos(x + 1, y - 1),
     Pos(x - 1, y),                    Pos(x + 1, y),
     Pos(x - 1, y + 1), Pos(x, y + 1), Pos(x + 1, y + 1)}
  }

  lemma {:induction false} BoxMembers(p: Pos, x: int, y: int)
    ensures p in Box(x, y) <==> x - 1 <= p.x <= x + 1 && y - 1 <= p.y <= y + 1 && p != Pos(x, y)
  {
  }

  /** The rolls among the eight cells around `(x, y)`. */
  ghost function RollsNear(g: seq<seq<char>>, x: int, y: int): set<Pos> {
    set p | p in Box(x, y) && RollAt(g, p.x, p.y)
  }

  /** The rolls a forklift can reach. */
  ghost function AccessibleRolls(g: seq<seq<char>>): set<Pos> {
    set x, y | 0 <= y < |g| && 0 <= x < |g[0]| && RollAt(g, x, y) && |RollsNear(g, x, y)| < TILES_FOR_ACCESS
      :: Pos(x, y)
  }

  // ---------------------------------------------------------------------------
  // reading the input

  /** A line `Main::init` keeps: its trimmed text is truthy in PHP. */
  predicate Kept(line: string) {
    !Empty(Trim(line))
  }

  /** The number of kept lines before the first one dropped. */
  function Leading(lines: seq<string>): (n: nat)
    ensures n <= |lines|
    ensures forall y :: 0 <= y < n ==> Kept(lines[y])
    ensures n < |lines| ==> !Kept(lines[n])
  {
    if lines == [] || !Kept(lines[0]) then 0 else 1 + Leading(lines[1..])
  }

  /** `Main::init` with the grid construction's failures: the trimmed,
      non-blank lines become the rows. `array_filter` keeps the original
      keys, so a dropped line before a kept one leaves a row missing, and
      a row shorter than the first is read past its end: the source fails
      on both, as on an input with no row at all. */
  function ParseGrid(lines: seq<string>): (r: Result<seq<seq<char>>>)
    ensures r.Ok? ==> Shaped(r.value) && |r.value| <= |lines|
    ensures r.Ok? ==> forall y :: 0 <= y < |r.value| ==> Kept(lines[y]) && r.value[y] == Trim(lines[y])
    ensures r.Ok? ==> forall y :: |r.value| <= y < |lines| ==> !Kept(lines[y])
    ensures r.Err? ==>
      (forall y :: 0 <= y < |lines| ==> !Kept(lines[y])) ||
      (exists i, j :: 0 <= i < j < |lines| && !Kept(lines[i]) && Kept(lines[j])) ||
      (exists y :: 0 < y < |lines| && Kept(lines[0]) && Kept(lines[y]) && |Trim(lines[y])| < |Trim(lines[0])|)
  {
    var n := Leading(lines);
    if n == 0 then
      if exists j :: 0 <= j < |lines| && Kept(lines[j]) then Err("row 0 is missing") else Err("the grid is empty")
    else if exists j :: n <= j < |lines| && Kept(lines[j]) then Err("a row is missing")
    else
      var g := seq(n, y requires 0 <= y < n => Trim(lines[y]));
      if Shaped(g) then Ok(g) else Err("a row is too short")
  }

  // ---------------------------------------------------------------------------
  // counting helpers over the accessible flags

  /** `getNbAccessible`'s inner reduce: the cells `(x, y)` with `x < n`
      whose flag is `true`. */
  function RowTotal(acc: map<Pos, bool>, y: int, n: nat): nat {
    if n == 0 then 0
    else RowTotal(acc, y, n - 1) + (if Pos(n - 1, y) in acc && acc[Pos(n - 1, y)] then 1 else 0)
  }

  /** `getNbAccessible`'s outer reduce over the first `n` rows. */
  function Total(acc: map<Pos, bool>, g: seq<seq<char>>, n: nat): nat
    requires n <= |g|
  {
    if n == 0 then 0 else Total(acc, g, n - 1) + RowTotal(acc, n - 1, |g[n - 1]|)
  }

  /** The flagged cells of row `y` left of column `n`. */
  ghost function RowTrue(acc: map<Pos, bool>, y: int, n: int): set<Pos> {
    set p | p in acc && acc[p] && p.y == y && 0 <= p.x < n
  }

  /** The flagged cells on the first `n` rows of `g`. */
  ghost function RowsTrue(acc: map<Pos, bool>, g: seq<seq<char>>, n: int): set<Pos> {
    set p | p in acc && acc[p] && 0 <= p.y < n && p.y < |g| && 0 <= p.x < |g[p.y]|
  }

  lemma {:induction false} RowTotalCounts(acc: map<Pos, bool>, y: int, n: nat)
    ensures RowTotal(acc, y, n) == |RowTrue(acc, y, n)|
  {
    if n > 0 {
      RowTotalCounts(acc, y, n - 1);
      var q := Pos(n - 1, y);
      if q in acc && acc[q] {
        assert RowTrue(acc, y, n) == RowTrue(acc, y, n - 1) + {q};
      } else {
        assert RowTrue(acc, y, n) == RowTrue(acc, y, n - 1);
      }
    }
  }

  /** The nested reduce counts every flagged cell of the grid once. */
  lemma {:induction false} TotalCounts(acc: map<Pos, bool>, g: seq<seq<char>>, n: nat)
    requires n <= |g|
    ensures Total(acc, g, n) == |RowsTrue(acc, g, n)|
  {
    if n > 0 {
      TotalCounts(acc, g, n - 1);
      RowTotalCounts(acc, n - 1, |g[n - 1]|);
      var a, b := RowsTrue(acc, g, n - 1), RowTrue(acc, n - 1, |g[n - 1]|);
      assert RowsTrue(acc, g, n) == a + b;
      assert a * b == {};
    }
  }

  // ---------------------------------------------------------------------------
  // the grid

  /** `Grid`: the cells after `fromChar`, and for every roll the positions
      around it and whether it can be reached. A cell with no entry in
      `accessible` is one whose flag is still PHP's `null`. */
  class Grid {
    const cols: int
    const rows: int
    const grid: seq<seq<char>>
    var accessible: map<Pos, bool>
    var neighbourPositions: map<Pos, seq<Pos>>

    /** The shape `setNeighbors` needs: every row reaches the width. */
    predicate Shape() {
      rows == |grid| > 0 && cols == |grid[0]| && forall y :: 0 <= y < rows ==> |grid[y]| >= cols
    }

    /** `Grid::inBound`. */
    predicate InBound(x: int, y: int): (b: bool)
      ensures b <==> 0 <= x < cols && 0 <= y < rows
      ensures b && Shape() ==> 0 <= y < |grid| && 0 <= x < |grid[y]|
    {
      if x < 0 || x >= cols then false
      else if y < 0 || y >= rows then false
      else true
    }

    /** `hasToiletPaper` of the cell at `p`, for a cell on the grid. */
    predicate HasPaper(p: Pos)
      requires Shape()
    {
      InBound(p.x, p.y) && grid[p.y][p.x] == TOILET_PAPER
    }

    /** What the inner loop of `setNeighbors` collects on row `row + dy`:
        the offsets `dx = -1 .. n - 2`, skipping the cell itself and the
        cells off the grid. */
    function RowAround(col: int, row: int, dy: int, n: nat): seq<Pos>
      requires n <= 3
    {
      if n == 0 then []
      else
        var p := Pos(col + n - 2, row + dy);
        RowAround(col, row, dy, n - 1) + (if (p.y != row || p.x != col) && InBound(p.x, p.y) then [p] else [])
    }

    /** The rows `dy = -1 .. m - 2` of the 3 x 3 loops. */
    function Around(col: int, row: int, m: nat): seq<Pos>
      requires m <= 3
    {
      if m == 0 then [] else Around(col, row, m - 1) + RowAround(col, row, m - 2, 3)
    }

    lemma {:induction false} RowAroundMembers(col: int, row: int, dy: int, n: nat)
      requires n <= 3
      ensures forall p :: p in RowAround(col, row, dy, n) <==>
        p.y == row + dy && col - 1 <= p.x < col + n - 1 && p != Pos(col, row) && InBound(p.x, p.y)
      ensures XOrdered(RowAround(col, row, dy, n))
    {
      if n > 0 {
        RowAroundMembers(col, row, dy, n - 1);
        var a := RowAround(col, row, dy, n - 1);
        var p := Pos(col + n - 2, row + dy);
        var t := if (p.y != row || p.x != col) && InBound(p.x, p.y) then [p] else [];
        var r := RowAround(col, row, dy, n);
        assert r == a + t;
        forall i, j | 0 <= i < j < |r|
          ensures r[i].x < r[j].x
        {
          assert r[i] == a[i] && a[i] in a;
          if j < |a| {
            assert r[j] == a[j];
            assert a[i].x < a[j].x;
          } else {
            assert r[j] == p;
            assert a[i].x < col + n - 2;
          }
        }
      }
    }

    /** The positions the loops list are the in-bound cells of the 3 x 3
        block other than its centre. */
    lemma {:induction false} AroundMembers(col: int, row: int, m: nat)
      requires m <= 3
      ensures forall p :: p in Around(col, row, m) <==>
        row - 1 <= p.y < row + m - 1 && col - 1 <= p.x <= col + 1 && p != Pos(col, row) && InBound(p.x, p.y)
    {
      if m > 0 {
        AroundMembers(col, row, m - 1);
        RowAroundMembers(col, row, m - 2, 3);
      }
    }

    /** ... listed in row-major order, so none twice. */
    lemma {:induction false} AroundOrdered(col: int, row: int, m: nat)
      requires m <= 3
      ensures Ordered(Around(col, row, m))
    {
      if m > 0 {
        AroundOrdered(col, row, m - 1);
        AroundMembers(col, row, m - 1);
        RowAroundMembers(col, row, m - 2, 3);
        OrderedAppend(Around(col, row, m - 1), RowAround(col, row, m - 2, 3), row + m - 2);
      }
    }

    /** The positions `setNeighbors` lists around `(col, row)`, in its order. */
    function Neighbours(col: int, row: int): seq<Pos> {
      Around(col, row, 3)
    }

    /** The nested loops over `range(-1, 1)` that build the list. */
    method NeighbourPositions(col: int, row: int) returns (positions: seq<Pos>)
      ensures positions == Neighbours(col, row)
    {
      positions := [];
      for y := -1 to 2
        invariant positions == Around(col, row, y + 1)
      {
        for x := -1 to 2
          invariant positions == Around(col, row, y + 1) + RowAround(col, row, y, x + 1)
        {
          var py := row + y;
          var px := col + x;
          if (py != row || px != col) && InBound(px, py) {
            positions := positions + [Pos(px, py)];
          }
        }
      }
    }

    /** The reduce of `setNeighbors`: how many of `ps` hold a roll. */
    function Busy(ps: seq<Pos>): nat
      requires Shape()
    {
      if ps == [] then 0
      else Busy(ps[..|ps| - 1]) + (if HasPaper(ps[|ps| - 1]) then 1 else 0)
    }

    /** On a list without repetition, `Busy` is the number of rolls listed. */
    lemma {:induction false} BusyCounts(ps: seq<Pos>)
      requires Shape()
      requires forall i, j :: 0 <= i < j < |ps| ==> ps[i] != ps[j]
      ensures Busy(ps) == |set p | p in ps && HasPaper(p)|
    {
      if ps != [] {
        var init, last := ps[..|ps| - 1], ps[|ps| - 1];
        assert ps == init + [last];
        assert forall i, j :: 0 <= i < j < |init| ==> init[i] != init[j] by {
          assert forall k :: 0 <= k < |init| ==> init[k] == ps[k];
        }
        BusyCounts(init);
        assert last !in init by {
          assert forall k :: 0 <= k < |init| ==> init[k] == ps[k] && ps[k] != last;
        }
        var a := set p | p in init && HasPaper(p);
        var b := set p | p in ps && HasPaper(p);
        if HasPaper(last) {
          assert b == a + {last};
        } else {
          assert b == a;
        }
      }
    }

    /** The rolls listed around `(col, row)` are the rolls near it, and the
        count `setNeighbors` compares with four is their number. */
    lemma {:induction false} BusyNear(g: seq<seq<char>>, col: int, row: int)
      requires Shape() && grid == Cells(g) && rows == |g| && cols == |g[0]|
      ensures Busy(Neighbours(col, row)) == |RollsNear(g, col, row)|
    {
      var ns := Neighbours(col, row);
      AroundOrdered(col, row, 3);
      assert forall i, j :: 0 <= i < j < |ns| ==> ns[i] != ns[j];
      BusyCounts(ns);
      NearIsListed(g, col, row);
    }

    /** A roll of the grid is a roll of the rows read. */
    lemma {:induction false} PaperOfCells(g: seq<seq<char>>, p: Pos)
      requires Shape() && grid == Cells(g) && rows == |g| && cols == |g[0]|
      ensures HasPaper(p) <==> RollAt(g, p.x, p.y)
    {
    }

    /** The rolls near `(col, row)` are the rolls the loops list. */
    lemma {:induction false} NearIsListed(g: seq<seq<char>>, col: int, row: int)
      requires Shape() && grid == Cells(g) && rows == |g| && cols == |g[0]|
      ensures (set p | p in Neighbours(col, row) && HasPaper(p)) == RollsNear(g, col, row)
    {
      AroundMembers(col, row, 3);
      forall p
        ensures p in Neighbours(col, row) && HasPaper(p) <==> p in RollsNear(g, col, row)
      {
        BoxMembers(p, col, row);
        PaperOfCells(g, p);
      }
    }

    /** What `setNeighbors` has set by `(col, row)` in row-major order: the
        rolls before it, and the flags and lists already there untouched. */
    ghost predicate Flagged(a0: map<Pos, bool>, a: map<Pos, bool>, row: int, col: int)
      requires Shape()
    {
      forall p ::
        (p in a <==> p in a0 || (HasPaper(p) && Before(p, row, col))) &&
        (p in a ==> a[p] == if HasPaper(p) && Before(p, row, col) then Busy(Neighbours(p.x, p.y)) < TILES_FOR_ACCESS else a0[p])
    }

    /** The same for the lists of positions. */
    ghost predicate Listed(n0: map<Pos, seq<Pos>>, n: map<Pos, seq<Pos>>, row: int, col: int)
      requires Shape()
    {
      forall p :: ListedAt(n0, n, row, col, p)
    }

    ghost predicate ListedAt(n0: map<Pos, seq<Pos>>, n: map<Pos, seq<Pos>>, row: int, col: int, p: Pos)
      requires Shape()
    {
      (p in n <==> p in n0 || (HasPaper(p) && Before(p, row, col))) &&
      (p in n ==> n[p] == if HasPaper(p) && Before(p, row, col) then Neighbours(p.x, p.y) else n0[p])
    }

    /** `Grid::setNeighbors`: every roll gets its neighbour list and its
        flag, `true` exactly when fewer than four neighbours hold a roll;
        floor cells keep theirs. */
    method SetNeighbors()
      requires Shape()
      modifies this
      ensures Flagged(old(accessible), accessible, rows, 0)
      ensures Listed(old(neighbourPositions), neighbourPositions, rows, 0)
    {
      for row := 0 to rows
        invariant Flagged(old(accessible), accessible, row, 0)
        invariant Listed(old(neighbourPositions), neighbourPositions, row, 0)
      {
        for col := 0 to cols
          invariant Flagged(old(accessible), accessible, row, col)
          invariant Listed(old(neighbourPositions), neighbourPositions, row, col)
        {
          var here := Pos(col, row);
          FlagStep(old(accessible), accessible, row, col);
          ListStep(old(neighbourPositions), neighbourPositions, row, col);
          if grid[row][col] == TOILET_PAPER {
            var positions := NeighbourPositions(col, row);
            neighbourPositions := neighbourPositions[here := positions];
            var nbBusySpace := Busy(positions);
            accessible := accessible[here := nbBusySpace < TILES_FOR_ACCESS];
          }
        }
        FlagRowDone(old(accessible), accessible, row);
        ListRowDone(old(neighbourPositions), neighbourPositions, row);
      }
    }

    /** Handling the cell `(col, row)` extends `Flagged` past it. */
    lemma {:induction false} FlagStep(a0: map<Pos, bool>, a: map<Pos, bool>, row: int, col: int)
      requires Shape() && 0 <= row < rows && 0 <= col < cols
      requires Flagged(a0, a, row, col)
      ensures var here := Pos(col, row);
        Flagged(a0, if grid[row][col] == TOILET_PAPER then a[here := Busy(Neighbours(col, row)) < TILES_FOR_ACCESS] else a,
                row, col + 1)
    {
      var here := Pos(col, row);
      var a' := if grid[row][col] == TOILET_PAPER then a[here := Busy(Neighbours(col, row)) < TILES_FOR_ACCESS] else a;
      forall p
        ensures p in a' <==> p in a0 || (HasPaper(p) && Before(p, row, col + 1))
        ensures p in a' ==> a'[p] == if HasPaper(p) && Before(p, row, col + 1) then Busy(Neighbours(p.x, p.y)) < TILES_FOR_ACCESS else a0[p]
      {
        if p == here {
          assert HasPaper(p) <==> grid[row][col] == TOILET_PAPER;
        } else {
          assert Before(p, row, col + 1) == Before(p, row, col);
        }
      }
    }

    /** Handling the cell `(col, row)` extends `Listed` past it. */
    lemma {:induction false} ListStep(n0: map<Pos, seq<Pos>>, n: map<Pos, seq<Pos>>, row: int, col: int)
      requires Shape() && 0 <= row < rows && 0 <= col < cols
      requires Listed(n0, n, row, col)
      ensures var here := Pos(col, row);
        Listed(n0, if grid[row][col] == TOILET_PAPER then n[here := Neighbours(col, row)] else n, row, col + 1)
    {
      var n' := if grid[row][col] == TOILET_PAPER then n[Pos(col, row) := Neighbours(col, row)] else n;
      var next := col + 1;
      forall p
        ensures ListedAt(n0, n', row, next, p)
      {
        ListAt(n0, n, n', row, col, p);
      }
    }

    /** `ListStep` at one position. */
    lemma {:induction false} ListAt(n0: map<Pos, seq<Pos>>, n: map<Pos, seq<Pos>>, n': map<Pos, seq<Pos>>, row: int, col: int, p: Pos)
      requires Shape() && 0 <= row < rows && 0 <= col < cols
      requires Listed(n0, n, row, col)
      requires n' == if grid[row][col] == TOILET_PAPER then n[Pos(col, row) := Neighbours(col, row)] else n
      ensures ListedAt(n0, n', row, col + 1, p)
    {
      assert ListedAt(n0, n, row, col, p);
      if p == Pos(col, row) {
        assert HasPaper(p) <==> grid[row][col] == TOILET_PAPER;
      } else {
        assert Before(p, row, col + 1) == Before(p, row, col);
      }
    }

    /** A row handled to its last column is the start of the next. */
    lemma {:induction false} FlagRowDone(a0: map<Pos, bool>, a: map<Pos, bool>, row: int)
      requires Shape() && 0 <= row < rows
      requires Flagged(a0, a, row, cols)
      ensures Flagged(a0, a, row + 1, 0)
    {
      assert forall p :: HasPaper(p) ==> (Before(p, row, cols) <==> Before(p, row + 1, 0));
    }

    lemma {:induction false} ListRowDone(n0: map<Pos, seq<Pos>>, n: map<Pos, seq<Pos>>, row: int)
      requires Shape() && 0 <= row < rows
      requires Listed(n0, n, row, cols)
      ensures Listed(n0, n, row + 1, 0)
    {
      var next := row + 1;
      forall p
        ensures ListedAt(n0, n, next, 0, p)
      {
        assert ListedAt(n0, n, row, cols, p);
        assert HasPaper(p) ==> (Before(p, row, cols) <==> Before(p, next, 0));
      }
    }

    /** `Grid::__construct`: the cells through `fromChar`, then
        `setNeighbors`. */
    constructor(g: seq<seq<char>>)
      requires Shaped(g)
      ensures rows == |g| && cols == |g[0]| && grid == Cells(g) && Shape()
      ensures forall p :: p in accessible <==> HasPaper(p)
      ensures forall p :: p in accessible ==> accessible[p] == (Busy(Neighbours(p.x, p.y)) < TILES_FOR_ACCESS)
      ensures forall p :: p in neighbourPositions <==> HasPaper(p)
      ensures forall p :: p in neighbourPositions ==> neighbourPositions[p] == Neighbours(p.x, p.y)
    {
      cols := |g[0]|;
      rows := |g|;
      grid := Cells(g);
      accessible := map[];
      neighbourPositions := map[];
      new;
      SetNeighbors();
      forall p
        ensures p in neighbourPositions <==> HasPaper(p)
        ensures p in neighbourPositions ==> neighbourPositions[p] == Neighbours(p.x, p.y)
      {
        assert ListedAt(map[], neighbourPositions, rows, 0, p);
      }
    }

    /** `Grid::getNbAccessible`: the number of cells on the grid whose flag
        is `true`, each counted once. */
    function NbAccessible(): (r: nat)
      reads this
      ensures r == |RowsTrue(accessible, grid, |grid|)|
    {
      TotalCounts(accessible, grid, |grid|);
      Total(accessible, grid, |grid|)
    }

    /** After construction, `getNbAccessible` is the number of reachable
        rolls of the rows read. */
    lemma {:induction false} NbAccessibleCounts(g: seq<seq<char>>)
      requires Shaped(g) && rows == |g| && cols == |g[0]| && grid == Cells(g) && Shape()
      requires forall p :: p in accessible <==> HasPaper(p)
      requires forall p :: p in accessible ==> accessible[p] == (Busy(Neighbours(p.x, p.y)) < TILES_FOR_ACCESS)
      ensures NbAccessible() == |AccessibleRolls(g)|
    {
      TotalCounts(accessible, grid, |grid|);
      forall p | p in RowsTrue(accessible, grid, |grid|)
        ensures p in AccessibleRolls(g)
      {
        BusyNear(g, p.x, p.y);
        assert RollAt(g, p.x, p.y);
      }
      forall p | p in AccessibleRolls(g)
        ensures p in RowsTrue(accessible, grid, |grid|)
      {
        BusyNear(g, p.x, p.y);
        assert HasPaper(p);
      }
      assert RowsTrue(accessible, grid, |grid|) == AccessibleRolls(g);
    }
  }

  /** Positions listed left to right. */
  predicate XOrdered(r: seq<Pos>) {
    forall i, j :: 0 <= i < j < |r| ==> r[i].x < r[j].x
  }

  /** Positions listed in row-major order. */
  predicate Ordered(r: seq<Pos>) {
    forall i, j :: 0 <= i < j < |r| ==> r[i].y < r[j].y || (r[i].y == r[j].y && r[i].x < r[j].x)
  }

  /** A row listed left to right after rows above it keeps the order. */
  lemma {:induction false} OrderedAppend(a: seq<Pos>, b: seq<Pos>, y: int)
    requires Ordered(a) && XOrdered(b)
    requires forall p :: p in a ==> p.y < y
    requires forall p :: p in b ==> p.y == y
    ensures Ordered(a + b)
  {
    var r := a + b;
    forall i, j | 0 <= i < j < |r|
      ensures r[i].y < r[j].y || (r[i].y == r[j].y && r[i].x < r[j].x)
    {
      if j < |a| {
        assert r[i] == a[i] && r[j] == a[j];
      } else if i < |a| {
        assert r[i] == a[i] && a[i] in a;
        assert r[j] == b[j - |a|] && b[j - |a|] in b;
      } else {
        assert r[i] == b[i - |a|] && r[j] == b[j - |a|];
        assert b[i - |a|] in b;
      }
    }
  }

  /** Row-major order: `p` comes before column `col` of row `row`. */
  predicate Before(p: Pos, row: int, col: int) {
    p.y < row || (p.y == row && p.x < col)
  }

  /** Part 1 of `Main::run`: the number of reachable rolls, or the
      failure of reading the grid. */
  method Run(lines: seq<string>) returns (r: Result<nat>)
    ensures r.Err? <==> ParseGrid(lines).Err?
    ensures r.Ok? ==> r.value == |AccessibleRolls(ParseGrid(lines).value)|
  {
    var parsed := ParseGrid(lines);
    if parsed.Err? {
      return Err(parsed.msg);
    }
    var g := parsed.value;
    var grid := new Grid(g);
    grid.NbAccessibleCounts(g);
    r := Ok(grid.NbAccessible());
  }
}
