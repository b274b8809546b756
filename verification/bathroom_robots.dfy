/** 2024/14: robots moving in straight lines on a grid that wraps around
    at its edges; after 100 seconds the robots in each quadrant are counted
    and the safety factor is the product of the four counts. */
module BathroomRobots {
  import opened Common

  /** `Position` and `Vector`: a row and a column. */
  datatype Vec = Vec(y: int, x: int)

  /** The grid: 101 columns by 103 rows, or 11 by 7 for an input whose
      name starts with "test". */
  function GridSize(name: string): (r: (int, int))
    ensures r.0 > 0 && r.1 > 0 && r.0 % 2 == 1 && r.1 % 2 == 1
    ensures |name| >= 4 && name[..4] == "test" ==> r == (11, 7)
    ensures !(|name| >= 4 && name[..4] == "test") ==> r == (101, 103)
  {
    if |name| >= 4 && name[..4] == "test" then (11, 7) else (101, 103)
  }

  /** A robot: where it started, how fast it goes, and where it is now. */
  class Robot {
    const initial: Vec
    const speed: Vec
    var pos: Vec

    constructor(initial: Vec, speed: Vec)
      ensures this.initial == initial && this.speed == speed && pos == initial
    {
      this.initial := initial;
      this.speed := speed;
      pos := initial;
    }
  }

  /** One coordinate of `setPositionsAfter`: PHP's `%`, then `size` added
      to a negative remainder. The result is the remainder modulo `size`. */
  function Wrap(a: int, size: int): (r: int)
    requires size > 0
    ensures r == a % size && 0 <= r < size
  {
    PhpModWrap(a, size);
    var p := PhpMod(a, size);
    if p < 0 then p + size else p
  }

  /** Where a robot is after `t` seconds: `initial + t * speed`, wrapped
      around the grid. */
  function After(initial: Vec, speed: Vec, t: int, cols: int, rows: int): (p: Vec)
    requires cols > 0 && rows > 0
    ensures p.y == (t * speed.y + initial.y) % rows && 0 <= p.y < rows
    ensures p.x == (t * speed.x + initial.x) % cols && 0 <= p.x < cols
  {
    Vec(Wrap(t * speed.y + initial.y, rows), Wrap(t * speed.x + initial.x, cols))
  }

  /** After `cols * rows` more seconds every robot is back where it was. */
  lemma {:induction false} Periodic(initial: Vec, speed: Vec, t: int, cols: int, rows: int)
    requires cols > 0 && rows > 0
    ensures After(initial, speed, t + cols * rows, cols, rows) == After(initial, speed, t, cols, rows)
  {
    var a := t * speed.y + initial.y;
    var b := t * speed.x + initial.x;
    assert (t + cols * rows) * speed.y + initial.y == a + (cols * speed.y) * rows by {
      Regroup(t, cols, rows, speed.y);
    }
    assert (t + cols * rows) * speed.x + initial.x == b + (rows * speed.x) * cols by {
      Regroup(t, rows, cols, speed.x);
    }
    AddMultiple(a, cols * speed.y, rows);
    AddMultiple(b, rows * speed.x, cols);
  }

  lemma {:induction false} Regroup(t: int, m: int, n: int, v: int)
    ensures (t + m * n) * v == t * v + (m * v) * n
  {
  }

  /** Adding a multiple of `size` keeps the remainder. */
  lemma {:induction false} AddMultiple(a: int, k: int, size: int)
    requires size > 0
    ensures (a + k * size) % size == a % size
  {
    var q, r := a / size, a % size;
    assert a + k * size == (q + k) * size + r;
    DivModUnique(a + k * size, size, q + k, r);
  }

  /** The robots' current positions. */
  function Positions(robots: seq<Robot>): (ps: seq<Vec>)
    reads set r | r in robots
    ensures |ps| == |robots| && forall i :: 0 <= i < |robots| ==> ps[i] == robots[i].pos
  {
    if robots == [] then [] else Positions(robots[..|robots| - 1]) + [robots[|robots| - 1].pos]
  }

  /** Where every robot is after `t` seconds, from its start and speed. */
  function AllAfter(robots: seq<Robot>, t: int, cols: int, rows: int): (ps: seq<Vec>)
    requires cols > 0 && rows > 0
    ensures |ps| == |robots|
    ensures forall i :: 0 <= i < |robots| ==> ps[i] == After(robots[i].initial, robots[i].speed, t, cols, rows)
  {
    if robots == [] then []
    else
      var last := robots[|robots| - 1];
      AllAfter(robots[..|robots| - 1], t, cols, rows) + [After(last.initial, last.speed, t, cols, rows)]
  }

  /** `Main::setPositionsAfter`: every robot moves to its position after
      `t` seconds, whatever its position was before. */
  method SetPositionsAfter(robots: seq<Robot>, t: int, cols: int, rows: int)
    requires cols > 0 && rows > 0
    modifies set r | r in robots
    ensures Positions(robots) == AllAfter(robots, t, cols, rows)
  {
    for k := 0 to |robots|
      invariant forall j :: 0 <= j < k ==> robots[j].pos == After(robots[j].initial, robots[j].speed, t, cols, rows)
    {
      var r := robots[k];
      var x := PhpMod(t * r.speed.x + r.initial.x, cols);
      if x < 0 {
        x := x + cols;
      }
      var y := PhpMod(t * r.speed.y + r.initial.y, rows);
      if y < 0 {
        y := y + rows;
      }
      PhpModWrap(t * r.speed.x + r.initial.x, cols);
      PhpModWrap(t * r.speed.y + r.initial.y, rows);
      r.pos := Vec(y, x);
    }
  }

  // ---------------------------------------------------------------------------
  // Quadrants

  /** The quadrant a position lies in: 0 top left, 1 top right, 2 bottom
      left, 3 bottom right; none on the middle row or column. */
  function Quadrant(p: Vec, cols: int, rows: int): Option<nat> {
    var xc, yc := cols / 2, rows / 2;
    if p.x == xc || p.y == yc then None
    else Some((if p.y < yc then 0 else 2) + (if p.x < xc then 0 else 1))
  }

  /** One step of the `array_reduce` over the robots. The middle test
      compares an int with the float `floor()` returns, so it never holds;
      the four strict comparisons are what leave the middle robots out. */
  function QuadrantStep(acc: seq<int>, p: Vec, cols: int, rows: int): (r: seq<int>)
    requires |acc| == 4
    ensures |r| == 4
  {
    var xc, yc := cols / 2, rows / 2;
    var a0 := if p.x < xc && p.y < yc then acc[0] + 1 else acc[0];
    var a1 := if p.x > xc && p.y < yc then acc[1] + 1 else acc[1];
    var a2 := if p.x < xc && p.y > yc then acc[2] + 1 else acc[2];
    var a3 := if p.x > xc && p.y > yc then acc[3] + 1 else acc[3];
    [a0, a1, a2, a3]
  }

  /** A step counts the position in its quadrant and nowhere else. */
  lemma {:induction false} QuadrantStepCounts(acc: seq<int>, p: Vec, cols: int, rows: int, q: nat)
    requires |acc| == 4 && q < 4
    ensures QuadrantStep(acc, p, cols, rows)[q] == acc[q] + (if Quadrant(p, cols, rows) == Some(q) then 1 else 0)
  {
  }

  /** The four quadrant counts, starting from `[0, 0, 0, 0]`. */
  function QuadrantCounts(ps: seq<Vec>, cols: int, rows: int): (r: seq<int>)
    ensures |r| == 4
  {
    if ps == [] then [0, 0, 0, 0]
    else QuadrantStep(QuadrantCounts(ps[..|ps| - 1], cols, rows), ps[|ps| - 1], cols, rows)
  }

  /** How many positions lie in quadrant `q`. */
  function CountIn(ps: seq<Vec>, q: nat, cols: int, rows: int): nat {
    if ps == [] then 0
    else CountIn(ps[..|ps| - 1], q, cols, rows) + (if Quadrant(ps[|ps| - 1], cols, rows) == Some(q) then 1 else 0)
  }

  /** How many positions lie on the middle row or column. */
  function CountMiddle(ps: seq<Vec>, cols: int, rows: int): nat {
    if ps == [] then 0
    else CountMiddle(ps[..|ps| - 1], cols, rows) + (if Quadrant(ps[|ps| - 1], cols, rows) == None then 1 else 0)
  }

  /** The fold counts, for each quadrant, the positions that lie in it. */
  lemma {:induction false} QuadrantCountsAre(ps: seq<Vec>, cols: int, rows: int, q: nat)
    requires q < 4
    ensures QuadrantCounts(ps, cols, rows)[q] == CountIn(ps, q, cols, rows)
  {
    if ps != [] {
      QuadrantCountsAre(ps[..|ps| - 1], cols, rows, q);
      QuadrantStepCounts(QuadrantCounts(ps[..|ps| - 1], cols, rows), ps[|ps| - 1], cols, rows, q);
    }
  }

  /** Every position is on the middle lines or in exactly one quadrant. */
  lemma {:induction false} QuadrantOne(p: Vec, cols: int, rows: int)
    ensures Quadrant(p, cols, rows) == None <==> p.x == cols / 2 || p.y == rows / 2
    ensures Quadrant(p, cols, rows).Some? ==> Quadrant(p, cols, rows).value < 4
  {
  }

  /** The four quadrants and the middle lines share out all positions. */
  lemma {:induction false} CountsPartition(ps: seq<Vec>, cols: int, rows: int)
    ensures CountIn(ps, 0, cols, rows) + CountIn(ps, 1, cols, rows) + CountIn(ps, 2, cols, rows)
      + CountIn(ps, 3, cols, rows) + CountMiddle(ps, cols, rows) == |ps|
  {
    if ps != [] {
      CountsPartition(ps[..|ps| - 1], cols, rows);
      QuadrantOne(ps[|ps| - 1], cols, rows);
    }
  }

  /** The second `array_reduce`: the product of the counts, from 1. */
  function Product(counts: seq<int>): int {
    if counts == [] then 1 else Product(counts[..|counts| - 1]) * counts[|counts| - 1]
  }

  /** The safety factor multiplies the four quadrant counts. */
  lemma {:induction false} SafetyFactor(counts: seq<int>)
    requires |counts| == 4
    ensures Product(counts) == counts[0] * counts[1] * counts[2] * counts[3]
  {
    assert counts[..3][..2] == counts[..2];
    assert counts[..2][..1] == counts[..1];
    assert counts[..1][..0] == [];
    assert Product(counts[..1]) == counts[0];
    assert Product(counts[..2]) == counts[0] * counts[1];
    assert Product(counts[..3]) == counts[0] * counts[1] * counts[2];
  }

  /** Part one of `Main::run`: the robots move to their positions after 100
      seconds, and the safety factor of those positions is returned. */
  method SafetyAfter100(robots: seq<Robot>, cols: int, rows: int) returns (factor: int)
    requires cols > 0 && rows > 0
    modifies set r | r in robots
    ensures Positions(robots) == AllAfter(robots, 100, cols, rows)
    ensures factor == CountIn(Positions(robots), 0, cols, rows) * CountIn(Positions(robots), 1, cols, rows)
      * CountIn(Positions(robots), 2, cols, rows) * CountIn(Positions(robots), 3, cols, rows)
  {
    SetPositionsAfter(robots, 100, cols, rows);
    var ps := Positions(robots);
    var counts := QuadrantCounts(ps, cols, rows);
    factor := Product(counts);
    SafetyFactor(counts);
    QuadrantCountsAre(ps, cols, rows, 0);
    QuadrantCountsAre(ps, cols, rows, 1);
    QuadrantCountsAre(ps, cols, rows, 2);
    QuadrantCountsAre(ps, cols, rows, 3);
  }
}
