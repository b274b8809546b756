/** 2024/06: a guard patrols a map. From where it stands it walks straight
    ahead over every free cell up to the next landmark or the map's edge,
    marks those cells as visited, and turns right; the patrol ends when the
    guard walks off the map. What is counted is the number of distinct
    cells visited. */
module GuardPatrol {
  import opened Common
  import opened Text

  datatype Pos = Pos(y: int, x: int)

  // ---------------------------------------------------------------------------
  // directions

  datatype Dir = North | East | South | West

  /** The character a direction is drawn with (`Direction::$facing`). */
  function Facing(d: Dir): char {
    match d
    case North => '^'
    case East => '>'
    case South => 'v'
    case West => '<'
  }

  /** `Direction::from`: only the four arrows name a direction; anything
      else throws `UNAVAILABLE_DIRECTION`. */
  function DirFrom(c: char): (r: Result<Dir>)
    ensures r.Ok? <==> c in "^>v<"
    ensures r.Ok? ==> Facing(r.value) == c
    ensures r.Err? ==> r.msg == "UNAVAILABLE_DIRECTION " + [c]
  {
    if c == '^' then Ok(North)
    else if c == '>' then Ok(East)
    else if c == 'v' then Ok(South)
    else if c == '<' then Ok(West)
    else Err("UNAVAILABLE_DIRECTION " + [c])
  }

  /** Reading a direction's own character gives it back. */
  lemma {:induction false} DirFromFacing(d: Dir)
    ensures DirFrom(Facing(d)) == Ok(d)
  {
  }

  /** `Direction::turnRightFrom`. */
  function TurnRight(d: Dir): Dir {
    match d
    case North => East
    case East => South
    case South => West
    case West => North
  }

  /** The step one cell ahead, rows growing downwards. */
  function Delta(d: Dir): Pos {
    match d
    case North => Pos(-1, 0)
    case East => Pos(0, 1)
    case South => Pos(1, 0)
    case West => Pos(0, -1)
  }

  /** Turning right rotates the step a quarter turn clockwise; four turns
      visit all four directions and come back. */
  lemma {:induction false} TurnRightCycle(d: Dir)
    ensures Delta(TurnRight(d)) == Pos(Delta(d).x, -Delta(d).y)
    ensures TurnRight(TurnRight(TurnRight(TurnRight(d)))) == d
    ensures {d, TurnRight(d), TurnRight(TurnRight(d)), TurnRight(TurnRight(TurnRight(d)))} == {North, East, South, West}
  {
  }

  // ---------------------------------------------------------------------------
  // the map

  predicate InBounds(p: Pos, rows: int, cols: int) {
    0 <= p.y < rows && 0 <= p.x < cols
  }

  /** `k` steps from `p` facing `d`: `k` times the step `Delta(d)`. */
  function Ahead(p: Pos, d: Dir, k: int): Pos {
    match d
    case North => Pos(p.y - k, p.x)
    case East => Pos(p.y, p.x + k)
    case South => Pos(p.y + k, p.x)
    case West => Pos(p.y, p.x - k)
  }

  /** `Board::isBorder`: first or last row, or first or last column. */
  predicate IsBorder(p: Pos, rows: int, cols: int) {
    p.y == 0 || p.y == rows - 1 || p.x == 0 || p.x == cols - 1
  }

  /** The guard at `p` facing `d` leaves the map with its next step. */
  predicate Leaves(p: Pos, d: Dir, rows: int, cols: int) {
    !InBounds(Ahead(p, d, 1), rows, cols)
  }

  /** A cell of the map is on its border exactly when one step in some
      direction leaves the map. */
  lemma {:induction false} IsBorderMeaning(p: Pos, rows: int, cols: int)
    requires InBounds(p, rows, cols)
    ensures IsBorder(p, rows, cols) <==> exists d :: Leaves(p, d, rows, cols)
  {
    if IsBorder(p, rows, cols) {
      if p.y == 0 {
        assert Leaves(p, North, rows, cols);
      } else if p.y == rows - 1 {
        assert Leaves(p, South, rows, cols);
      } else if p.x == 0 {
        assert Leaves(p, West, rows, cols);
      } else {
        assert Leaves(p, East, rows, cols);
      }
    }
  }

  /** Within the map, a straight walk takes fewer than `rows + cols`
      steps. */
  lemma {:induction false} AheadBound(p: Pos, d: Dir, k: nat, rows: int, cols: int)
    requires InBounds(p, rows, cols) && InBounds(Ahead(p, d, k), rows, cols)
    ensures k < rows + cols
  {
  }

  /** The free cells from the `k`-th step ahead of `p` onwards, up to the
      first landmark or the edge. `landmark` maps each cell of the map to
      whether it holds `#`. */
  ghost function ExploreFrom(landmark: map<Pos, bool>, rows: int, cols: int, p: Pos, d: Dir, k: nat): seq<Pos>
    decreases rows + cols - k
  {
    var q := Ahead(p, d, k);
    if k >= rows + cols || !InBounds(q, rows, cols) || q !in landmark || landmark[q] then []
    else [q] + ExploreFrom(landmark, rows, cols, p, d, k + 1)
  }

  /** What the guard at `p` facing `d` sees: `Board::getPositionsFrom`. */
  ghost function Explore(landmark: map<Pos, bool>, rows: int, cols: int, p: Pos, d: Dir): seq<Pos> {
    ExploreFrom(landmark, rows, cols, p, d, 0)
  }

  /** Every cell of the map is known. */
  ghost predicate Complete(landmark: map<Pos, bool>, rows: int, cols: int) {
    forall p: Pos :: InBounds(p, rows, cols) ==> p in landmark
  }

  /** The cell `p` is on the map and free. */
  ghost predicate Free(landmark: map<Pos, bool>, rows: int, cols: int, p: Pos) {
    InBounds(p, rows, cols) && p in landmark && !landmark[p]
  }

  lemma {:induction false} ExploreFromShape(landmark: map<Pos, bool>, rows: int, cols: int, p: Pos, d: Dir, k: nat)
    requires Complete(landmark, rows, cols) && InBounds(p, rows, cols)
    ensures var r := ExploreFrom(landmark, rows, cols, p, d, k);
      (forall i :: 0 <= i < |r| ==> r[i] == Ahead(p, d, k + i) && Free(landmark, rows, cols, r[i])) &&
      !Free(landmark, rows, cols, Ahead(p, d, k + |r|))
    decreases rows + cols - k
  {
    var q := Ahead(p, d, k);
    if k >= rows + cols || !InBounds(q, rows, cols) || q !in landmark || landmark[q] {
      if k >= rows + cols && InBounds(q, rows, cols) {
        AheadBound(p, d, k, rows, cols);
      }
    } else {
      ExploreFromShape(landmark, rows, cols, p, d, k + 1);
    }
  }

  /** `getPositionsFrom` gives the cells straight ahead of `p`, starting
      with `p` itself, each free, stopping just before the first cell that
      is a landmark or off the map. */
  lemma {:induction false} ExploreShape(landmark: map<Pos, bool>, rows: int, cols: int, p: Pos, d: Dir)
    requires Complete(landmark, rows, cols) && InBounds(p, rows, cols)
    ensures var r := Explore(landmark, rows, cols, p, d);
      (forall i :: 0 <= i < |r| ==> r[i] == Ahead(p, d, i) && Free(landmark, rows, cols, r[i])) &&
      !Free(landmark, rows, cols, Ahead(p, d, |r|))
  {
    ExploreFromShape(landmark, rows, cols, p, d, 0);
  }

  /** A guard on a free cell always sees at least that cell, so the
      source's `Guard is stuck` exception is never thrown. */
  lemma {:induction false} ExploreNonEmpty(landmark: map<Pos, bool>, rows: int, cols: int, p: Pos, d: Dir)
    requires Free(landmark, rows, cols, p)
    ensures Explore(landmark, rows, cols, p, d) != [] && Explore(landmark, rows, cols, p, d)[0] == p
  {
    assert Ahead(p, d, 0) == p;
  }

  /** The last cell the guard sees is at the edge facing out exactly when
      the walk was stopped by the edge, not by a landmark. */
  lemma {:induction false} LastLeaves(landmark: map<Pos, bool>, rows: int, cols: int, p: Pos, d: Dir)
    requires Complete(landmark, rows, cols) && Free(landmark, rows, cols, p)
    ensures var r := Explore(landmark, rows, cols, p, d);
      r != [] &&
      (Leaves(r[|r| - 1], d, rows, cols) <==> !InBounds(Ahead(p, d, |r|), rows, cols)) &&
      (!Leaves(r[|r| - 1], d, rows, cols) ==> landmark[Ahead(p, d, |r|)])
  {
    ExploreNonEmpty(landmark, rows, cols, p, d);
    ExploreShape(landmark, rows, cols, p, d);
    var r := Explore(landmark, rows, cols, p, d);
    assert Ahead(r[|r| - 1], d, 1) == Ahead(p, d, |r|);
  }

  /** A guard about to leave the map stands on its border. */
  lemma {:induction false} LeavesOnBorder(p: Pos, d: Dir, rows: int, cols: int)
    requires InBounds(p, rows, cols) && Leaves(p, d, rows, cols)
    ensures IsBorder(p, rows, cols)
  {
  }

  /** The border test of `run` ends the patrol too early: on the map
      `#....` / `.....` / `^....` the guard walks north from row 2 and
      stops at row 1, blocked by the landmark at row 0. That cell is on the
      border (column 0), so the source ends the patrol there, although the
      guard has not left: it would turn east and walk four more cells. */
  lemma {:induction false} BorderStopsEarly()
    ensures Complete(Example(), 3, 5)
    ensures Explore(Example(), 3, 5, Pos(2, 0), North) == [Pos(2, 0), Pos(1, 0)]
    ensures IsBorder(Pos(1, 0), 3, 5) && !Leaves(Pos(1, 0), North, 3, 5)
    ensures Explore(Example(), 3, 5, Pos(1, 0), TurnRight(North))
      == [Pos(1, 0), Pos(1, 1), Pos(1, 2), Pos(1, 3), Pos(1, 4)]
  {
    var e := Example();
    CellsMembers(3, 5);
    assert CornerOnly(e, 3, 5);
    ExampleNorth(e);
    ExampleEast(e);
  }

  /** On that map the patrol as written is over after its first leg, with
      two cells visited, while the guard still stands on the map; the
      corrected patrol turns there and goes on. */
  lemma {:induction false} PatrolStopsEarly()
    ensures PatrolFrom(Example(), 3, 5, Pos(2, 0), North, {}, 0, 2, false)
      == State(Pos(1, 0), North, {Pos(2, 0), Pos(1, 0)}, 1, true)
    ensures PatrolFrom(Example(), 3, 5, Pos(2, 0), North, {}, 0, 1, true)
      == State(Pos(1, 0), East, {Pos(2, 0), Pos(1, 0)}, 1, false)
  {
    BorderStopsEarly();
    var seen := [Pos(2, 0), Pos(1, 0)];
    assert Elements(seen) == {Pos(2, 0), Pos(1, 0)} by {
      ElementsSnoc(seen);
      ElementsSnoc(seen[..1]);
      assert seen[..1][..0] == [];
    }
  }

  /** The map `#....` / `.....` / `^....`, by landmark. */
  function Example(): map<Pos, bool> {
    map p | p in Cells(3, 5) :: p == Pos(0, 0)
  }

  /** A map whose only landmark is its top left corner. */
  ghost predicate CornerOnly(e: map<Pos, bool>, rows: int, cols: int) {
    (forall p :: p in e <==> InBounds(p, rows, cols)) &&
    (forall p :: p in e ==> e[p] == (p == Pos(0, 0)))
  }

  lemma {:induction false} ExampleNorth(e: map<Pos, bool>)
    requires CornerOnly(e, 3, 5)
    ensures Explore(e, 3, 5, Pos(2, 0), North) == [Pos(2, 0), Pos(1, 0)]
  {
    ExploreShape(e, 3, 5, Pos(2, 0), North);
    var r := Explore(e, 3, 5, Pos(2, 0), North);
    assert Free(e, 3, 5, Ahead(Pos(2, 0), North, 0)) && Free(e, 3, 5, Ahead(Pos(2, 0), North, 1));
    assert !Free(e, 3, 5, Ahead(Pos(2, 0), North, 2));
    assert |r| == 2;
  }

  lemma {:induction false} ExampleEast(e: map<Pos, bool>)
    requires CornerOnly(e, 3, 5)
    ensures Explore(e, 3, 5, Pos(1, 0), East) == [Pos(1, 0), Pos(1, 1), Pos(1, 2), Pos(1, 3), Pos(1, 4)]
  {
    ExploreShape(e, 3, 5, Pos(1, 0), East);
    var r := Explore(e, 3, 5, Pos(1, 0), East);
    assert Free(e, 3, 5, Pos(1, 0)) && Free(e, 3, 5, Pos(1, 1)) && Free(e, 3, 5, Pos(1, 2));
    assert Free(e, 3, 5, Pos(1, 3)) && Free(e, 3, 5, Pos(1, 4));
    assert !Free(e, 3, 5, Ahead(Pos(1, 0), East, 5));
    assert |r| == 5;
  }

  /** The cells of a `rows` by `cols` map. */
  function Cells(rows: nat, cols: nat): set<Pos> {
    set y, x | 0 <= y < rows && 0 <= x < cols :: Pos(y, x)
  }

  lemma {:induction false} CellsMembers(rows: nat, cols: nat)
    ensures forall p :: p in Cells(rows, cols) <==> InBounds(p, rows, cols)
  {
    forall p | InBounds(p, rows, cols)
      ensures p in Cells(rows, cols)
    {
      assert p == Pos(p.y, p.x);
    }
  }

  // ---------------------------------------------------------------------------
  // visiting

  /** The cells of `s`. */
  function Elements(s: seq<Pos>): set<Pos> {
    set p | p in s
  }

  /** The entries of `s` that are not in `visited`, counted with
      repetition: what a dry run of `guardVisited` counts. */
  function Unvisited(s: seq<Pos>, visited: set<Pos>): nat {
    if s == [] then 0
    else Unvisited(s[..|s| - 1], visited) + (if s[|s| - 1] in visited then 0 else 1)
  }

  /** The cells of a list are those of all but its last entry, and that one. */
  lemma {:induction false} ElementsSnoc(s: seq<Pos>)
    requires s != []
    ensures Elements(s) == Elements(s[..|s| - 1]) + {s[|s| - 1]}
  {
    assert s == s[..|s| - 1] + [s[|s| - 1]];
  }

  /** Adding one cell to a set grows what lies outside `visited` by one
      exactly when the cell is new to both. */
  lemma {:induction false} CardStep(a: set<Pos>, visited: set<Pos>, x: Pos)
    ensures |(a + {x}) - visited| == |a - visited| + (if x in visited + a then 0 else 1)
  {
    if x in visited + a {
      assert (a + {x}) - visited == a - visited;
    } else {
      assert (a + {x}) - visited == (a - visited) + {x};
    }
  }

  /** For a list without repetition, a dry run counts exactly the cells a
      real run marks. */
  lemma {:induction false} DryRunAgrees(s: seq<Pos>, visited: set<Pos>)
    requires forall i, j :: 0 <= i < j < |s| ==> s[i] != s[j]
    ensures Unvisited(s, visited) == |Elements(s) - visited|
  {
    if s != [] {
      var init, last := s[..|s| - 1], s[|s| - 1];
      assert forall i, j :: 0 <= i < j < |init| ==> init[i] != init[j] by {
        forall i, j | 0 <= i < j < |init| ensures init[i] != init[j] {
          assert init[i] == s[i] && init[j] == s[j];
        }
      }
      DryRunAgrees(init, visited);
      ElementsSnoc(s);
      assert forall k :: 0 <= k < |init| ==> init[k] == s[k] && s[k] != last;
      assert last !in Elements(init);
      CardStep(Elements(init), visited, last);
    }
  }

  /** Extending a prefix of `s` by one entry. */
  lemma {:induction false} PrefixStep(s: seq<Pos>, i: nat, visited: set<Pos>)
    requires i < |s|
    ensures Elements(s[..i + 1]) == Elements(s[..i]) + {s[i]}
    ensures Unvisited(s[..i + 1], visited) == Unvisited(s[..i], visited) + (if s[i] in visited then 0 else 1)
    ensures |Elements(s[..i + 1]) - visited|
      == |Elements(s[..i]) - visited| + (if s[i] in visited + Elements(s[..i]) then 0 else 1)
  {
    assert s[..i + 1][..i] == s[..i];
    ElementsSnoc(s[..i + 1]);
    CardStep(Elements(s[..i]), visited, s[i]);
  }

  /** What `guardVisited` knows after `i` entries of `s` (real or dry
      run, from `start`) is kept by handling entry `i`. */
  ghost predicate VisitedSoFar(s: seq<Pos>, i: nat, start: set<Pos>, dryRun: bool, visited: set<Pos>, updated: nat)
    requires i <= |s|
  {
    (dryRun ==> visited == start && updated == Unvisited(s[..i], start)) &&
    (!dryRun ==> visited == start + Elements(s[..i]) && updated == |Elements(s[..i]) - start|)
  }

  lemma {:induction false} VisitStep(s: seq<Pos>, i: nat, start: set<Pos>, dryRun: bool, visited: set<Pos>, updated: nat)
    requires i < |s| && VisitedSoFar(s, i, start, dryRun, visited, updated)
    ensures var isNew := s[i] !in visited;
      VisitedSoFar(s, i + 1, start, dryRun, if isNew && !dryRun then visited + {s[i]} else visited,
                   updated + if isNew then 1 else 0)
  {
    PrefixStep(s, i, start);
  }

  /** What the guard sees never repeats a cell. */
  lemma {:induction false} ExploreDistinct(landmark: map<Pos, bool>, rows: int, cols: int, p: Pos, d: Dir)
    requires Complete(landmark, rows, cols) && InBounds(p, rows, cols)
    ensures var r := Explore(landmark, rows, cols, p, d);
      forall i, j :: 0 <= i < j < |r| ==> r[i] != r[j]
  {
    ExploreShape(landmark, rows, cols, p, d);
  }

  /** Adding the cells `s` to `visited` (which holds `start`) adds
      `|s - visited|` cells to the count of cells visited since `start`. */
  lemma {:induction false} CountGrowth(start: set<Pos>, visited: set<Pos>, s: set<Pos>)
    requires start <= visited
    ensures |(visited + s) - start| == |visited - start| + |s - visited|
  {
    assert (visited + s) - start == (visited - start) + (s - visited);
    assert (visited - start) !! (s - visited);
  }

  // ---------------------------------------------------------------------------
  // the patrol

  /** The patrol after some legs: where the guard stands and faces, the
      cells visited, the legs walked, and whether it has left the map. */
  datatype State = State(pos: Pos, dir: Dir, visited: set<Pos>, turns: nat, left: bool)

  /** The cell the guard moves to after seeing `seen` from `pos`. */
  function LastOf(seen: seq<Pos>, pos: Pos): Pos {
    if seen == [] then pos else seen[|seen| - 1]
  }

  /** Whether the patrol ends once the guard has moved to `to`: as
      `run` is written, when `to` is on the border of the map; when
      `fixed`, only when its next step leaves the map. */
  predicate Stops(to: Pos, dir: Dir, rows: int, cols: int, fixed: bool) {
    if fixed then Leaves(to, dir, rows, cols) else IsBorder(to, rows, cols)
  }

  /** The patrol from `pos` facing `dir` for at most `fuel` more legs. Each
      leg: look ahead, mark what was seen, move to its last cell; if the
      patrol `Stops` there it is over, otherwise the guard turns right. */
  ghost function PatrolFrom(landmark: map<Pos, bool>, rows: int, cols: int, pos: Pos, dir: Dir,
                            visited: set<Pos>, turns: nat, fuel: nat, fixed: bool): State
    decreases fuel
  {
    if fuel == 0 then State(pos, dir, visited, turns, false)
    else
      var seen := Explore(landmark, rows, cols, pos, dir);
      var to := LastOf(seen, pos);
      if Stops(to, dir, rows, cols, fixed) then State(to, dir, visited + Elements(seen), turns + 1, true)
      else PatrolFrom(landmark, rows, cols, to, TurnRight(dir), visited + Elements(seen), turns + 1, fuel - 1, fixed)
  }

  /** One leg of the patrol, walked from `pos` facing `dir`, ends at
      `to` with `going` telling whether the patrol goes on: the rest of the
      patrol is then walked from `to` facing right of `dir`, or it is over. */
  lemma {:induction false} PatrolLeg(landmark: map<Pos, bool>, rows: int, cols: int, pos: Pos, dir: Dir,
                  visited: set<Pos>, turns: nat, fuel: nat, fixed: bool,
                  to: Pos, next: set<Pos>, going: bool, newDir: Dir)
    requires fuel > 0
    requires var seen := Explore(landmark, rows, cols, pos, dir);
      to == LastOf(seen, pos) && next == visited + Elements(seen) &&
      going == !Stops(to, dir, rows, cols, fixed) && newDir == (if going then TurnRight(dir) else dir)
    ensures going ==> PatrolFrom(landmark, rows, cols, pos, dir, visited, turns, fuel, fixed)
                      == PatrolFrom(landmark, rows, cols, to, newDir, next, turns + 1, fuel - 1, fixed)
    ensures !going ==> PatrolFrom(landmark, rows, cols, pos, dir, visited, turns, fuel, fixed)
                       == State(to, newDir, next, turns + 1, true)
  {
  }

  /** The patrol only ever visits free cells of the map, ends with the
      guard on a free cell, and, when over, where it `Stops`. */
  lemma {:induction false} PatrolFree(landmark: map<Pos, bool>, rows: int, cols: int, pos: Pos, dir: Dir,
                                       visited: set<Pos>, turns: nat, fuel: nat, fixed: bool)
    requires Complete(landmark, rows, cols) && Free(landmark, rows, cols, pos)
    requires forall p :: p in visited ==> Free(landmark, rows, cols, p)
    ensures var s := PatrolFrom(landmark, rows, cols, pos, dir, visited, turns, fuel, fixed);
      Free(landmark, rows, cols, s.pos) && visited <= s.visited &&
      (forall p :: p in s.visited ==> Free(landmark, rows, cols, p)) &&
      (s.left ==> Stops(s.pos, s.dir, rows, cols, fixed)) && s.turns <= turns + fuel
    decreases fuel
  {
    if fuel > 0 {
      ExploreNonEmpty(landmark, rows, cols, pos, dir);
      ExploreShape(landmark, rows, cols, pos, dir);
      var seen := Explore(landmark, rows, cols, pos, dir);
      var to := LastOf(seen, pos);
      assert to == seen[|seen| - 1];
      if !Stops(to, dir, rows, cols, fixed) {
        PatrolFree(landmark, rows, cols, to, TurnRight(dir), visited + Elements(seen), turns + 1, fuel - 1, fixed);
      }
    }
  }

  class Board {
    const rows: int
    const cols: int
    /** For each cell read so far, whether it is a landmark (`#`). */
    var landmark: map<Pos, bool>
    /** The cells whose `visited` flag is set. */
    var visited: set<Pos>

    constructor(rows: int, cols: int)
      ensures this.rows == rows && this.cols == cols && landmark == map[] && visited == {}
    {
      this.rows := rows;
      this.cols := cols;
      landmark := map[];
      visited := {};
    }

    /** `Board::setPosition`: a fresh, unvisited cell. */
    method SetPosition(p: Pos, isLandmark: bool)
      modifies this
      ensures landmark == old(landmark)[p := isLandmark] && visited == old(visited) - {p}
    {
      landmark := landmark[p := isLandmark];
      visited := visited - {p};
    }

    /** `Board::getPositionsFrom`: walks from `from` in direction `d` while
        the cell is on the map and not a landmark. The source has one loop
        per direction, each testing the one coordinate that moves. */
    method GetPositionsFrom(from: Pos, d: Dir) returns (r: seq<Pos>)
      requires Complete(landmark, rows, cols) && InBounds(from, rows, cols)
      ensures r == Explore(landmark, rows, cols, from, d)
    {
      var k: nat := 0;
      r := [];
      while InBounds(Ahead(from, d, k), rows, cols) && !landmark[Ahead(from, d, k)]
        invariant r + ExploreFrom(landmark, rows, cols, from, d, k) == Explore(landmark, rows, cols, from, d)
        decreases rows + cols - k
      {
        var q := Ahead(from, d, k);
        AheadBound(from, d, k, rows, cols);
        assert ExploreFrom(landmark, rows, cols, from, d, k) == [q] + ExploreFrom(landmark, rows, cols, from, d, k + 1);
        r := r + [q];
        k := k + 1;
      }
    }
  }

  class Guard {
    var position: Pos
    var direction: Dir

    constructor(p: Pos, d: Dir)
      ensures position == p && direction == d
    {
      position := p;
      direction := d;
    }
  }

  class Parser {
    const rows: int
    const cols: int
    const board: Board
    const guard: Guard

    constructor(rows: int, cols: int, board: Board, guard: Guard)
      ensures this.rows == rows && this.cols == cols && this.board == board && this.guard == guard
    {
      this.rows := rows;
      this.cols := cols;
      this.board := board;
      this.guard := guard;
    }

    /** The map is whole and the guard stands on a free cell of it. */
    ghost predicate Valid()
      reads this, board, guard
    {
      board.rows == rows && board.cols == cols &&
      Complete(board.landmark, rows, cols) && Free(board.landmark, rows, cols, guard.position) &&
      forall p :: p in board.visited ==> Free(board.landmark, rows, cols, p)
    }

    /** `Parser::guardExplores`: what the guard sees ahead. */
    method GuardExplores() returns (r: seq<Pos>)
      requires Valid()
      ensures r == Explore(board.landmark, rows, cols, guard.position, guard.direction)
    {
      r := board.GetPositionsFrom(guard.position, guard.direction);
    }

    /** `Parser::guardVisited`: counts the cells of `positions` not yet
        visited and, unless this is a dry run, marks them. */
    method GuardVisited(positions: seq<Pos>, dryRun: bool) returns (updated: nat)
      modifies board
      ensures dryRun ==> (board.visited == old(board.visited) && updated == Unvisited(positions, old(board.visited)))
      ensures !dryRun ==> (board.visited == old(board.visited) + Elements(positions) &&
                           updated == |Elements(positions) - old(board.visited)|)
      ensures board.landmark == old(board.landmark)
    {
      ghost var start := board.visited;
      updated := 0;
      for i := 0 to |positions|
        invariant board.landmark == old(board.landmark)
        invariant VisitedSoFar(positions, i, start, dryRun, board.visited, updated)
      {
        var p := positions[i];
        VisitStep(positions, i, start, dryRun, board.visited, updated);
        if p !in board.visited {
          if !dryRun {
            board.visited := board.visited + {p};
          }
          updated := updated + 1;
        }
      }
      assert positions[..|positions|] == positions;
    }

    /** `Parser::moveGuardTo`. */
    method MoveGuardTo(p: Pos)
      modifies guard
      ensures guard.position == p && guard.direction == old(guard.direction)
    {
      guard.position := p;
    }

    /** `Parser::turnGuard` with `TURN_90_RIGHT`. */
    method TurnGuard()
      modifies guard
      ensures guard.direction == TurnRight(old(guard.direction)) && guard.position == old(guard.position)
    {
      guard.direction := TurnRight(guard.direction);
    }

    /** One pass of `run`'s loop: the guard looks ahead, moves to the last
        cell it sees, marks what it saw, and turns right unless that cell is
        on the border of the map (which may be too early, see
        `BorderStopsEarly`). */
    method Step() returns (going: bool, count: nat)
      requires Valid()
      modifies board, guard
      ensures Valid() && board.landmark == old(board.landmark)
      ensures var seen := Explore(old(board.landmark), rows, cols, old(guard.position), old(guard.direction));
        guard.position == LastOf(seen, old(guard.position)) &&
        board.visited == old(board.visited) + Elements(seen) &&
        count == |Elements(seen) - old(board.visited)| &&
        going == !IsBorder(guard.position, rows, cols) &&
        guard.direction == (if going then TurnRight(old(guard.direction)) else old(guard.direction))
    {
      var seen := GuardExplores();
      ExploreNonEmpty(board.landmark, rows, cols, guard.position, guard.direction);
      ExploreShape(board.landmark, rows, cols, guard.position, guard.direction);
      var _ := GuardVisited(seen, true);
      var to := seen[|seen| - 1];
      MoveGuardTo(to);
      count := GuardVisited(seen, false);
      if !IsBorder(to, rows, cols) {
        TurnGuard();
        going := true;
      } else {
        going := false;
      }
    }

    /** `Parser::run`, for at most `fuel` legs: returns the number of
        distinct cells visited, the legs walked, and whether the guard left
        the map. */
    method Run(fuel: nat) returns (positions: nat, turns: nat, left: bool)
      requires Valid()
      modifies board, guard
      ensures Valid() && board.landmark == old(board.landmark)
      ensures var s := PatrolFrom(old(board.landmark), rows, cols, old(guard.position), old(guard.direction),
                                  old(board.visited), 0, fuel, false);
        board.visited == s.visited && guard.position == s.pos && guard.direction == s.dir &&
        turns == s.turns && left == s.left && positions == |s.visited - old(board.visited)|
    {
      ghost var spec := PatrolFrom(board.landmark, rows, cols, guard.position, guard.direction, board.visited, 0, fuel, false);
      var going := true;
      positions := 0;
      turns := 0;
      while going && turns < fuel
        invariant Valid() && board.landmark == old(board.landmark)
        invariant turns <= fuel
        invariant going ==> PatrolFrom(board.landmark, rows, cols, guard.position, guard.direction,
                                       board.visited, turns, fuel - turns, false) == spec
        invariant !going ==> spec == State(guard.position, guard.direction, board.visited, turns, true)
        invariant old(board.visited) <= board.visited && positions == |board.visited - old(board.visited)|
        decreases fuel - turns, going
      {
        ghost var before := board.visited;
        ghost var seen := Explore(board.landmark, rows, cols, guard.position, guard.direction);
        turns := turns + 1;
        var count;
        ghost var pos, dir := guard.position, guard.direction;
        going, count := Step();
        PatrolLeg(board.landmark, rows, cols, pos, dir, before, turns - 1, fuel - turns + 1, false,
                  guard.position, board.visited, going, guard.direction);
        CountGrowth(old(board.visited), before, Elements(seen));
        positions := positions + count;
      }
      left := !going;
    }
  }

  // ---------------------------------------------------------------------------
  // reading the map

  /** `p` names a character of the (trimmed) lines. */
  predicate OnLine(lines: seq<string>, p: Pos) {
    0 <= p.y < |lines| && 0 <= p.x < |Trim(lines[p.y])|
  }

  function CharAt(lines: seq<string>, p: Pos): char {
    if OnLine(lines, p) then Trim(lines[p.y])[p.x] else '.'
  }

  /** `Parser::map`'s test for the guard: neither free space nor a
      landmark. */
  predicate IsStart(c: char) {
    c != '.' && c != '#'
  }

  predicate StartAt(lines: seq<string>, p: Pos) {
    OnLine(lines, p) && IsStart(CharAt(lines, p))
  }

  /** `q` has been read before the character at row `y`, column `x`. */
  predicate ReadBefore(q: Pos, y: int, x: int) {
    q.y < y || (q.y == y && q.x < x)
  }

  /** Every line is as long as the first. */
  predicate Rectangular(lines: seq<string>) {
    forall y :: 0 <= y < |lines| ==> |Trim(lines[y])| == |Trim(lines[0])|
  }

  /** The landmarks and the guard read up to row `y`, column `x`: every
      cell read is known with its landmark flag, no start character read
      so far failed to name a direction, and `found` is the last one. */
  ghost predicate ReadSoFar(landmark: map<Pos, bool>, lines: seq<string>, y: int, x: int, found: Option<(Pos, Dir)>) {
    MarkedSoFar(landmark, lines, y, x) && GuardSoFar(lines, y, x, found)
  }

  /** The cells read before row `y`, column `x` are known, each with its
      landmark flag. */
  ghost predicate MarkedSoFar(landmark: map<Pos, bool>, lines: seq<string>, y: int, x: int) {
    (forall q :: q in landmark <==> OnLine(lines, q) && ReadBefore(q, y, x)) &&
    (forall q :: q in landmark ==> landmark[q] == (CharAt(lines, q) == '#'))
  }

  /** The start characters read before row `y`, column `x` all name a
      direction, and `found` is the last of them. */
  ghost predicate GuardSoFar(lines: seq<string>, y: int, x: int, found: Option<(Pos, Dir)>) {
    (forall q :: StartAt(lines, q) && ReadBefore(q, y, x) ==> DirFrom(CharAt(lines, q)).Ok?) &&
    (found.None? <==> !exists q :: StartAt(lines, q) && ReadBefore(q, y, x)) &&
    (found.Some? ==> Found(lines, found.value.0, found.value.1, y, x))
  }

  /** Reading a whole line is reading up to the start of the next. */
  lemma {:induction false} NextLine(landmark: map<Pos, bool>, lines: seq<string>, y: int, found: Option<(Pos, Dir)>)
    requires 0 <= y < |lines|
    requires ReadSoFar(landmark, lines, y, |Trim(lines[y])|, found)
    ensures ReadSoFar(landmark, lines, y + 1, 0, found)
  {
    assert forall q :: OnLine(lines, q) ==> (ReadBefore(q, y, |Trim(lines[y])|) <==> ReadBefore(q, y + 1, 0));
  }

  /** The guard known after reading the cell at `p`. */
  function NextFound(lines: seq<string>, p: Pos, found: Option<(Pos, Dir)>): Option<(Pos, Dir)> {
    if StartAt(lines, p) && DirFrom(CharAt(lines, p)).Ok? then Some((p, DirFrom(CharAt(lines, p)).value)) else found
  }

  /** Reading one more cell of a line keeps `ReadSoFar`, unless it is a
      start character that names no direction. */
  lemma {:induction false} ReadCell(landmark: map<Pos, bool>, lines: seq<string>, y: int, x: int, found: Option<(Pos, Dir)>,
                 marked: map<Pos, bool>, next: Option<(Pos, Dir)>)
    requires 0 <= y < |lines| && 0 <= x < |Trim(lines[y])|
    requires ReadSoFar(landmark, lines, y, x, found)
    requires StartAt(lines, Pos(y, x)) ==> DirFrom(CharAt(lines, Pos(y, x))).Ok?
    requires marked == landmark[Pos(y, x) := CharAt(lines, Pos(y, x)) == '#']
    requires next == NextFound(lines, Pos(y, x), found)
    ensures ReadSoFar(marked, lines, y, x + 1, next)
  {
    MarkCell(landmark, lines, y, x, marked);
    GuardCell(lines, y, x, found);
  }

  /** The landmark part of `ReadCell`. */
  lemma {:induction false} MarkCell(landmark: map<Pos, bool>, lines: seq<string>, y: int, x: int, marked: map<Pos, bool>)
    requires 0 <= y < |lines| && 0 <= x < |Trim(lines[y])|
    requires MarkedSoFar(landmark, lines, y, x)
    requires marked == landmark[Pos(y, x) := CharAt(lines, Pos(y, x)) == '#']
    ensures MarkedSoFar(marked, lines, y, x + 1)
  {
    assert forall q :: ReadBefore(q, y, x + 1) <==> ReadBefore(q, y, x) || q == Pos(y, x);
  }

  /** The guard part of `ReadCell`. */
  lemma {:induction false} GuardCell(lines: seq<string>, y: int, x: int, found: Option<(Pos, Dir)>)
    requires GuardSoFar(lines, y, x, found)
    requires StartAt(lines, Pos(y, x)) ==> DirFrom(CharAt(lines, Pos(y, x))).Ok?
    ensures GuardSoFar(lines, y, x + 1, NextFound(lines, Pos(y, x), found))
  {
    var p := Pos(y, x);
    var next := NextFound(lines, p, found);
    forall q ensures ReadBefore(q, y, x + 1) <==> ReadBefore(q, y, x) || q == p {
      if q.y == y && q.x == x {
        assert q == p;
      }
    }
    if StartAt(lines, p) {
      assert Found(lines, p, next.value.1, y, x + 1);
    } else if found.Some? {
      assert Found(lines, found.value.0, found.value.1, y, x + 1);
    }
  }

  /** `Parser::map`: reads row `y`. */
  method MapLine(lines: seq<string>, y: int, board: Board, found: Option<(Pos, Dir)>)
    returns (r: Result<Option<(Pos, Dir)>>)
    requires 0 <= y < |lines|
    requires ReadSoFar(board.landmark, lines, y, 0, found) && board.visited == {}
    modifies board
    ensures board.visited == {}
    ensures r.Ok? ==> ReadSoFar(board.landmark, lines, y + 1, 0, r.value)
    ensures r.Err? ==> exists q :: StartAt(lines, q) && DirFrom(CharAt(lines, q)).Err?
  {
    var line := Trim(lines[y]);
    var guard := found;
    ghost var marked := board.landmark;
    for x := 0 to |line|
      invariant board.landmark == marked && board.visited == {}
      invariant ReadSoFar(marked, lines, y, x, guard)
    {
      var v := line[x];
      var isLandmark := v == '#';
      var freeSpace := v == '.' || !isLandmark;
      var start := v != '.' && freeSpace;
      assert CharAt(lines, Pos(y, x)) == v;
      if start && DirFrom(v).Err? {
        assert StartAt(lines, Pos(y, x));
        return Err(DirFrom(v).msg);
      }
      ghost var before, was := marked, guard;
      board.SetPosition(Pos(y, x), isLandmark);
      marked := marked[Pos(y, x) := isLandmark];
      if start {
        guard := Some((Pos(y, x), DirFrom(v).value));
      }
      ReadCell(before, lines, y, x, was, marked, guard);
    }
    NextLine(marked, lines, y, guard);
    r := Ok(guard);
  }

  method Parse(lines: seq<string>) returns (r: Result<Parser>)
    ensures r.Err? <==>
      (exists q :: StartAt(lines, q) && DirFrom(CharAt(lines, q)).Err?) || !(exists q :: StartAt(lines, q))
    ensures r.Ok? ==> fresh(r.value) && fresh(r.value.board) && fresh(r.value.guard)
    ensures r.Ok? ==>
      var p := r.value;
      p.rows == |lines| && p.cols == |Trim(lines[0])| &&
      p.board.rows == p.rows && p.board.cols == p.cols && p.board.visited == {} &&
      (forall q :: q in p.board.landmark <==> OnLine(lines, q)) &&
      (forall q :: q in p.board.landmark ==> p.board.landmark[q] == (CharAt(lines, q) == '#'))
    ensures r.Ok? ==>
      var g := r.value.guard;
      StartAt(lines, g.position) && DirFrom(CharAt(lines, g.position)) == Ok(g.direction) &&
      forall q :: StartAt(lines, q) ==> q == g.position || ReadBefore(q, g.position.y, g.position.x)
    ensures r.Ok? && Rectangular(lines) ==> r.value.Valid()
  {
    if lines == [] {
      return Err("guard is not set");
    }
    var cols := |Trim(lines[0])|;
    var board := new Board(|lines|, cols);
    var found: Option<(Pos, Dir)> := None;
    for y := 0 to |lines|
      invariant fresh(board) && board.rows == |lines| && board.cols == cols && board.visited == {}
      invariant ReadSoFar(board.landmark, lines, y, 0, found)
    {
      var next := MapLine(lines, y, board, found);
      if next.Err? {
        return Err(next.msg);
      }
      found := next.value;
    }
    ReadAll(board.landmark, lines, found);
    if found.None? {
      return Err("guard is not set");
    }
    if Rectangular(lines) {
      RectangularMap(board.landmark, lines, found.value.0);
    }
    var guard := new Guard(found.value.0, found.value.1);
    var parser := new Parser(|lines|, cols, board, guard);
    r := Ok(parser);
  }

  /** On a rectangular map, every cell has been read and the guard stands
      on a free one. */
  lemma {:induction false} RectangularMap(landmark: map<Pos, bool>, lines: seq<string>, p: Pos)
    requires lines != [] && Rectangular(lines)
    requires forall q :: q in landmark <==> OnLine(lines, q)
    requires forall q :: q in landmark ==> landmark[q] == (CharAt(lines, q) == '#')
    requires StartAt(lines, p)
    ensures Complete(landmark, |lines|, |Trim(lines[0])|)
    ensures Free(landmark, |lines|, |Trim(lines[0])|, p)
  {
    forall q | InBounds(q, |lines|, |Trim(lines[0])|)
      ensures q in landmark
    {
      assert OnLine(lines, q);
    }
  }

  /** Having read every line is having read every character: the map
      holds every cell, and the guard found is the last start character. */
  lemma {:induction false} ReadAll(landmark: map<Pos, bool>, lines: seq<string>, found: Option<(Pos, Dir)>)
    requires ReadSoFar(landmark, lines, |lines|, 0, found)
    ensures forall q :: q in landmark <==> OnLine(lines, q)
    ensures forall q :: StartAt(lines, q) ==> DirFrom(CharAt(lines, q)).Ok?
    ensures found.None? <==> !exists q :: StartAt(lines, q)
    ensures found.Some? ==>
      var (p, d) := found.value;
      StartAt(lines, p) && DirFrom(CharAt(lines, p)) == Ok(d) &&
      forall q :: StartAt(lines, q) ==> q == p || ReadBefore(q, p.y, p.x)
  {
    assert forall q :: OnLine(lines, q) ==> ReadBefore(q, |lines|, 0);
  }

  /** The guard read so far, before row `y`, column `x`, is at `p` facing
      `d`: the last start character read. */
  ghost predicate Found(lines: seq<string>, p: Pos, d: Dir, y: int, x: int) {
    StartAt(lines, p) && ReadBefore(p, y, x) && DirFrom(CharAt(lines, p)) == Ok(d) &&
    forall q :: StartAt(lines, q) && ReadBefore(q, y, x) ==> q == p || ReadBefore(q, p.y, p.x)
  }
}
