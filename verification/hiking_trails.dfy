/** Hiking trails on a topographic map (2024, day 10). Every cell holds a
    height; a trail starts at a height-0 trailhead and climbs one level per
    step, north, east, south or west, up to a height-9 cell. A trailhead's
    score counts the height-9 cells it reaches, its rating the trails. */
module HikingTrails {
  import opened Common
  import opened Text

  datatype Pos = Pos(y: int, x: int)

  /** PHP's `(int)` on one character of the map: a digit's value, and 0
      for anything else (so a '.' reads as height 0). */
  function HeightOf(c: char): (h: nat)
    ensures h <= 9
    ensures IsDigit(c) ==> DigitChar(h) == c
    ensures !IsDigit(c) ==> h == 0
  {
    if IsDigit(c) then DigitValue(c) else 0
  }

  function RowOf(line: string): (row: seq<nat>)
    ensures |row| == |line| && forall x :: 0 <= x < |line| ==> row[x] == HeightOf(line[x])
  {
    if line == [] then [] else RowOf(line[..|line| - 1]) + [HeightOf(line[|line| - 1])]
  }

  /** `Map`: the heights of the trimmed lines, with the grid's size taken
      from the number of lines and the first line's length. */
  datatype TopoMap = TopoMap(grid: seq<seq<nat>>, rows: int, cols: int) {

    /** `Map::outOfBounds`. */
    predicate OutOfBounds(p: Pos) {
      p.y < 0 || p.y >= rows || p.x < 0 || p.x >= cols
    }

    /** The height read at `p` on its own line, if the line has one there. */
    function Cell(p: Pos): Option<int> {
      if 0 <= p.y < |grid| && 0 <= p.x < |grid[p.y]| then Some(grid[p.y][p.x]) else None
    }

    /** `Map::getTopology`: `null` off the grid (and, as PHP reads a missing
        index, past the end of a short line). */
    function Topology(p: Pos): Option<int> {
      if OutOfBounds(p) then None else Cell(p)
    }

    /** `Map::getSiblings`: the in-bounds neighbours of `p`, in the order
        north, east, south, west; with a height given, only those at that
        height. */
    function Siblings(p: Pos, topo: Option<int>): (r: seq<Pos>)
      ensures forall q :: q in r <==> Adjacent(p, q) && !OutOfBounds(q) && (topo.None? || Topology(q) == topo)
      ensures |r| <= 4 && Distinct(r)
    {
      NeighboursMeaning(p);
      KeepMeaning(Neighbours(p), topo);
      Keep(Neighbours(p), topo)
    }

    /** The cells of `s` that are on the map, with the height asked for. */
    function Keep(s: seq<Pos>, topo: Option<int>): seq<Pos> {
      if s == [] then []
      else
        var r := Keep(s[..|s| - 1], topo);
        var q := s[|s| - 1];
        if !OutOfBounds(q) && (topo.None? || Topology(q) == topo) then r + [q] else r
    }

    lemma {:induction false} KeepMeaning(s: seq<Pos>, topo: Option<int>)
      ensures forall q :: q in Keep(s, topo) <==> q in s && !OutOfBounds(q) && (topo.None? || Topology(q) == topo)
      ensures |Keep(s, topo)| <= |s| && (Distinct(s) ==> Distinct(Keep(s, topo)))
      decreases |s|
    {
      if s != [] {
        KeepMeaning(s[..|s| - 1], topo);
        assert forall x :: x in s <==> x in s[..|s| - 1] || x == s[|s| - 1];
      }
    }

    /** The neighbours of `p` at height `k`: where `build` goes next. */
    function Uphill(p: Pos, k: int): seq<Pos> {
      Keep(Neighbours(p), Some(k))
    }
  }

  /** `Map::__construct` over the lines of the input. */
  function ReadMap(lines: seq<string>): (m: TopoMap)
    requires lines != []
    ensures m.rows == |lines| == |m.grid| && m.cols == |Trim(lines[0])|
    ensures forall p :: m.Cell(p).Some? <==> 0 <= p.y < |lines| && 0 <= p.x < |Trim(lines[p.y])|
    ensures forall p :: m.Cell(p).Some? ==> m.Cell(p).value == HeightOf(Trim(lines[p.y])[p.x])
  {
    var grid := seq(|lines|, y requires 0 <= y < |lines| => RowOf(Trim(lines[y])));
    TopoMap(grid, |lines|, |grid[0]|)
  }

  /** The four `getFromOffset` steps, in `getSiblings`' order. */
  function Neighbours(p: Pos): seq<Pos> {
    [Pos(p.y - 1, p.x), Pos(p.y, p.x + 1), Pos(p.y + 1, p.x), Pos(p.y, p.x - 1)]
  }

  /** `q` is one step from `p` along a row or a column. */
  predicate Adjacent(p: Pos, q: Pos) {
    Abs(q.y - p.y) + Abs(q.x - p.x) == 1
  }

  lemma {:induction false} NeighboursMeaning(p: Pos)
    ensures forall q :: q in Neighbours(p) <==> Adjacent(p, q)
    ensures Distinct(Neighbours(p))
  {
  }

  predicate Distinct(s: seq<Pos>) {
    forall i, j :: 0 <= i < j < |s| ==> s[i] != s[j]
  }

  // ---------------------------------------------------------------------------
  // trails

  /** `b` is one step up from `a`, to height `k`. */
  predicate Climb(m: TopoMap, a: Pos, b: Pos, k: int) {
    Adjacent(a, b) && !m.OutOfBounds(b) && m.Topology(b) == Some(k)
  }

  /** The next cells `build` visits are the siblings one level up. */
  lemma {:induction false} UphillMeaning(m: TopoMap, p: Pos, k: int)
    ensures m.Uphill(p, k) == m.Siblings(p, Some(k))
    ensures forall q :: q in m.Uphill(p, k) <==> Climb(m, p, q, k)
    ensures Distinct(m.Uphill(p, k))
  {
    assert m.Uphill(p, k) == m.Siblings(p, Some(k));
  }

  /** `t` is a trail that starts at height `h`: it climbs one level per
      step until height 9. */
  predicate IsTrail(m: TopoMap, h: int, t: seq<Pos>) {
    |t| == 10 - h && forall i :: 1 <= i < |t| ==> StepUp(m, h, t, i)
  }

  /** Step `i` of `t` climbs to height `h + i`. */
  predicate StepUp(m: TopoMap, h: int, t: seq<Pos>, i: int)
    requires 1 <= i < |t|
  {
    Climb(m, t[i - 1], t[i], h + i)
  }

  function Prepend(p: Pos, ts: seq<seq<Pos>>): (r: seq<seq<Pos>>)
    ensures |r| == |ts| && forall i :: 0 <= i < |ts| ==> r[i] == [p] + ts[i]
  {
    seq(|ts|, i requires 0 <= i < |ts| => [p] + ts[i])
  }

  /** The trails `Trail::build` walks from `p` at height `h`, in the order
      it walks them. */
  function Trails(m: TopoMap, h: int, p: Pos): seq<seq<Pos>>
    requires h <= 9
    decreases 9 - h, 1
  {
    if h == 9 then [[p]] else TrailsVia(m, h, p, m.Uphill(p, h + 1))
  }

  /** The trails from `p` whose second cell is one of `next`. */
  function TrailsVia(m: TopoMap, h: int, p: Pos, next: seq<Pos>): seq<seq<Pos>>
    requires h < 9
    decreases 9 - h, 0, |next|
  {
    if next == [] then []
    else TrailsVia(m, h, p, next[..|next| - 1]) + Prepend(p, Trails(m, h + 1, next[|next| - 1]))
  }

  /** Every trail walked from `p` is a trail from `p`. */
  lemma {:induction false} TrailsSound(m: TopoMap, h: int, p: Pos)
    requires h <= 9
    ensures forall t :: t in Trails(m, h, p) ==> t != [] && t[0] == p && IsTrail(m, h, t)
    decreases 9 - h, 1
  {
    if h < 9 {
      UphillMeaning(m, p, h + 1);
      TrailsViaSound(m, h, p, m.Uphill(p, h + 1));
    }
  }

  lemma {:induction false} TrailsViaSound(m: TopoMap, h: int, p: Pos, next: seq<Pos>)
    requires h < 9
    requires forall q :: q in next ==> Climb(m, p, q, h + 1)
    ensures forall t :: t in TrailsVia(m, h, p, next) ==> t != [] && t[0] == p && IsTrail(m, h, t)
    decreases 9 - h, 0, |next|
  {
    if next != [] {
      var init, q := next[..|next| - 1], next[|next| - 1];
      assert q in next && forall r :: r in init ==> r in next;
      TrailsViaSound(m, h, p, init);
      TrailsSound(m, h + 1, q);
      PrependSound(m, h, p, q, Trails(m, h + 1, q));
    }
  }

  lemma {:induction false} TrailsStart(m: TopoMap, h: int, p: Pos)
    requires h <= 9
    ensures forall t :: t in Trails(m, h, p) ==> t != [] && t[0] == p
  {
    TrailsSound(m, h, p);
  }

  /** A climb to `q` followed by trails from `q` makes trails from `p`. */
  lemma {:induction false} PrependSound(m: TopoMap, h: int, p: Pos, q: Pos, us: seq<seq<Pos>>)
    requires Climb(m, p, q, h + 1)
    requires forall u :: u in us ==> u != [] && u[0] == q && IsTrail(m, h + 1, u)
    ensures forall t :: t in Prepend(p, us) ==> t != [] && t[0] == p && IsTrail(m, h, t)
  {
    forall t | t in Prepend(p, us)
      ensures t != [] && t[0] == p && IsTrail(m, h, t)
    {
      var k :| 0 <= k < |us| && t == [p] + us[k];
      var u := us[k];
      assert u in us;
      forall i | 1 <= i < |t|
        ensures StepUp(m, h, t, i)
      {
        if i > 1 {
          assert StepUp(m, h + 1, u, i - 1);
          assert t[i - 1] == u[i - 2] && t[i] == u[i - 1];
        } else {
          assert t[0] == p && t[1] == q;
        }
      }
    }
  }

  /** Every trail from `p` is walked. */
  lemma {:induction false} TrailsComplete(m: TopoMap, h: int, p: Pos, t: seq<Pos>)
    requires h <= 9 && t != [] && t[0] == p && IsTrail(m, h, t)
    ensures t in Trails(m, h, p)
    decreases 9 - h
  {
    if h < 9 {
      var q, u := t[1], t[1..];
      TrailTail(m, h, h + 1, t);
      TrailsComplete(m, h + 1, q, u);
      assert t == [p] + u;
      assert StepUp(m, h, t, 1);
      UphillMeaning(m, p, h + 1);
      assert q in m.Uphill(p, h + 1);
      TrailsViaHas(m, h, p, m.Uphill(p, h + 1), q, u);
    } else {
      assert t == [p];
    }
  }

  /** A trail without its first cell is a trail from one level up. */
  lemma {:induction false} TrailTail(m: TopoMap, h: int, k: int, t: seq<Pos>)
    requires h < 9 && k == h + 1 && IsTrail(m, h, t)
    ensures IsTrail(m, k, t[1..])
  {
    forall i | 1 <= i < |t[1..]|
      ensures StepUp(m, k, t[1..], i)
    {
      assert StepUp(m, h, t, i + 1);
    }
  }

  lemma {:induction false} TrailsViaHas(m: TopoMap, h: int, p: Pos, next: seq<Pos>, q: Pos, u: seq<Pos>)
    requires h < 9 && q in next && u in Trails(m, h + 1, q)
    ensures [p] + u in TrailsVia(m, h, p, next)
    decreases |next|
  {
    var init := next[..|next| - 1];
    if q == next[|next| - 1] {
      var k :| 0 <= k < |Trails(m, h + 1, q)| && Trails(m, h + 1, q)[k] == u;
      assert Prepend(p, Trails(m, h + 1, q))[k] == [p] + u;
    } else {
      assert q in init;
      TrailsViaHas(m, h, p, init, q, u);
    }
  }

  /** No trail is walked twice. */
  lemma {:induction false} TrailsDistinct(m: TopoMap, h: int, p: Pos)
    requires h <= 9
    ensures forall i, j :: 0 <= i < j < |Trails(m, h, p)| ==> Trails(m, h, p)[i] != Trails(m, h, p)[j]
    decreases 9 - h, 1
  {
    if h < 9 {
      UphillMeaning(m, p, h + 1);
      TrailsViaDistinct(m, h, p, m.Uphill(p, h + 1));
    }
  }

  lemma {:induction false} TrailsViaDistinct(m: TopoMap, h: int, p: Pos, next: seq<Pos>)
    requires h < 9 && Distinct(next)
    ensures forall t :: t in TrailsVia(m, h, p, next) ==> |t| >= 2 && t[1] in next
    ensures forall i, j :: 0 <= i < j < |TrailsVia(m, h, p, next)| ==>
      TrailsVia(m, h, p, next)[i] != TrailsVia(m, h, p, next)[j]
    decreases 9 - h, 0, |next|
  {
    if next != [] {
      var init, q := next[..|next| - 1], next[|next| - 1];
      var a, b := TrailsVia(m, h, p, init), Prepend(p, Trails(m, h + 1, q));
      DistinctInit(next);
      TrailsViaDistinct(m, h, p, init);
      TrailsDistinct(m, h + 1, q);
      TrailsStart(m, h + 1, q);
      PrependDistinct(p, q, Trails(m, h + 1, q));
      JoinApart(TrailsVia(m, h, p, next), a, b, next, init, q);
    }
  }

  lemma {:induction false} DistinctInit(s: seq<Pos>)
    requires s != [] && Distinct(s)
    ensures Distinct(s[..|s| - 1]) && s[|s| - 1] !in s[..|s| - 1]
  {
  }

  /** Prepending a cell keeps trails from `q` apart, and puts `q` second. */
  lemma {:induction false} PrependDistinct(p: Pos, q: Pos, us: seq<seq<Pos>>)
    requires forall u :: u in us ==> u != [] && u[0] == q
    requires forall i, j :: 0 <= i < j < |us| ==> us[i] != us[j]
    ensures forall t :: t in Prepend(p, us) ==> |t| >= 2 && t[1] == q
    ensures forall i, j :: 0 <= i < j < |us| ==> Prepend(p, us)[i] != Prepend(p, us)[j]
  {
    var b := Prepend(p, us);
    forall t | t in b
      ensures |t| >= 2 && t[1] == q
    {
      var k :| 0 <= k < |b| && b[k] == t;
      assert us[k] in us;
    }
    forall i, j | 0 <= i < j < |us|
      ensures b[i] != b[j]
    {
      assert b[i][1..] == us[i] && b[j][1..] == us[j];
    }
  }

  /** Trails through different second cells differ, so joining two lists of
      distinct trails whose second cells are apart keeps them distinct. */
  lemma {:induction false} JoinApart(via: seq<seq<Pos>>, a: seq<seq<Pos>>, b: seq<seq<Pos>>, next: seq<Pos>, init: seq<Pos>, q: Pos)
    requires via == a + b && next == init + [q]
    requires forall t :: t in a ==> |t| >= 2 && t[1] in init
    requires forall t :: t in b ==> |t| >= 2 && t[1] == q
    requires q !in init
    requires forall i, j :: 0 <= i < j < |a| ==> a[i] != a[j]
    requires forall i, j :: 0 <= i < j < |b| ==> b[i] != b[j]
    ensures forall t :: t in via ==> |t| >= 2 && t[1] in next
    ensures forall i, j :: 0 <= i < j < |via| ==> via[i] != via[j]
  {
    forall i, j | 0 <= i < j < |via|
      ensures via[i] != via[j]
    {
      if j < |a| {
      } else if i >= |a| {
        assert (a + b)[i] == b[i - |a|] && (a + b)[j] == b[j - |a|];
      } else {
        assert (a + b)[j] == b[j - |a|] && b[j - |a|] in b;
        assert a[i] in a;
      }
    }
  }

  // ---------------------------------------------------------------------------
  // where the trails end

  function Last(t: seq<Pos>): Pos
    requires t != []
  {
    t[|t| - 1]
  }

  /** The cells the trails `ts` end at, each once per trail: what
      `score_sheet` counts. */
  function Ends(ts: seq<seq<Pos>>): (r: multiset<Pos>)
    ensures |r| <= |ts|
  {
    if ts == [] then multiset{}
    else Ends(ts[..|ts| - 1]) + (if ts[|ts| - 1] == [] then multiset{} else multiset{Last(ts[|ts| - 1])})
  }

  /** The cells a multiset holds, each once. */
  function Support(ms: multiset<Pos>): set<Pos> {
    set q | q in ms
  }

  lemma {:induction false} EndsAppend(a: seq<seq<Pos>>, b: seq<seq<Pos>>)
    ensures Ends(a + b) == Ends(a) + Ends(b)
    decreases |b|
  {
    if b == [] {
      assert a + b == a;
    } else {
      assert (a + b)[..|a + b| - 1] == a + b[..|b| - 1];
      EndsAppend(a, b[..|b| - 1]);
    }
  }

  lemma {:induction false} EndsPrepend(p: Pos, ts: seq<seq<Pos>>)
    requires forall t :: t in ts ==> t != []
    ensures Ends(Prepend(p, ts)) == Ends(ts)
    decreases |ts|
  {
    if ts != [] {
      var init := ts[..|ts| - 1];
      assert Prepend(p, ts)[..|ts| - 1] == Prepend(p, init);
      assert ts[|ts| - 1] in ts && forall t :: t in init ==> t in ts;
      EndsPrepend(p, init);
    }
  }

  /** Each trail adds one end. */
  lemma {:induction false} EndsCount(ts: seq<seq<Pos>>)
    requires forall t :: t in ts ==> t != []
    ensures |Ends(ts)| == |ts|
    decreases |ts|
  {
    if ts != [] {
      var init := ts[..|ts| - 1];
      assert forall t :: t in init ==> t in ts;
      assert ts[|ts| - 1] in ts;
      EndsCount(init);
    }
  }

  /** The ends are the last cells of the trails. */
  lemma {:induction false} EndsMembers(ts: seq<seq<Pos>>, q: Pos)
    requires forall t :: t in ts ==> t != []
    ensures q in Ends(ts) <==> exists t :: t in ts && Last(t) == q
    decreases |ts|
  {
    if ts != [] {
      var init, last := ts[..|ts| - 1], ts[|ts| - 1];
      assert forall t :: t in init ==> t in ts;
      assert last in ts;
      EndsMembers(init, q);
      assert Ends(ts) == Ends(init) + multiset{Last(last)};
      if exists t :: t in ts && Last(t) == q {
        var t :| t in ts && Last(t) == q;
        if t != last {
          var k :| 0 <= k < |ts| && ts[k] == t;
          assert init[k] == t;
        }
      }
    }
  }

  /** The ends of the trails from `p` at height `h`, counted per trail,
      gathered the way `build` and `completed` record them. */
  function EndsFrom(m: TopoMap, h: int, p: Pos): multiset<Pos>
    requires h <= 9
    decreases 9 - h, 1
  {
    if h == 9 then multiset{p} else EndsVia(m, h, p, m.Uphill(p, h + 1))
  }

  function EndsVia(m: TopoMap, h: int, p: Pos, next: seq<Pos>): multiset<Pos>
    requires h < 9
    decreases 9 - h, 0, |next|
  {
    if next == [] then multiset{}
    else EndsVia(m, h, p, next[..|next| - 1]) + EndsFrom(m, h + 1, next[|next| - 1])
  }

  /** What `build` records is the last cell of each trail it walks. */
  lemma {:induction false} EndsFromTrails(m: TopoMap, h: int, p: Pos)
    requires h <= 9
    ensures EndsFrom(m, h, p) == Ends(Trails(m, h, p))
    decreases 9 - h, 1
  {
    if h < 9 {
      EndsViaTrails(m, h, p, m.Uphill(p, h + 1));
    } else {
      assert [[p]][..0] == [];
    }
  }

  lemma {:induction false} EndsViaTrails(m: TopoMap, h: int, p: Pos, next: seq<Pos>)
    requires h < 9
    ensures EndsVia(m, h, p, next) == Ends(TrailsVia(m, h, p, next))
    decreases 9 - h, 0, |next|
  {
    if next != [] {
      var init, q := next[..|next| - 1], next[|next| - 1];
      var a, b := TrailsVia(m, h, p, init), Prepend(p, Trails(m, h + 1, q));
      EndsViaTrails(m, h, p, init);
      EndsFromTrails(m, h + 1, q);
      TrailsSound(m, h + 1, q);
      EndsPrepend(p, Trails(m, h + 1, q));
      EndsAppend(a, b);
      assert TrailsVia(m, h, p, next) == a + b;
    }
  }

  /** Taking one more neighbour into account. */
  lemma {:induction false} ViaStep(m: TopoMap, h: int, p: Pos, next: seq<Pos>, i: int)
    requires h < 9 && 0 <= i < |next|
    ensures EndsVia(m, h, p, next[..i + 1]) == EndsVia(m, h, p, next[..i]) + EndsFrom(m, h + 1, next[i])
    ensures TrailsVia(m, h, p, next[..i + 1]) == TrailsVia(m, h, p, next[..i]) + Prepend(p, Trails(m, h + 1, next[i]))
  {
    assert next[..i + 1][..i] == next[..i];
  }

  /** One more neighbour's trails recorded on a score sheet. */
  lemma {:induction false} ChildBuilt(m: TopoMap, h: int, p: Pos, next: seq<Pos>, i: int,
                   base: multiset<Pos>, done0: bool,
                   sheet: multiset<Pos>, done: bool, sheet': multiset<Pos>, done': bool)
    requires h < 9 && 0 <= i < |next|
    requires sheet == base + EndsVia(m, h, p, next[..i])
    requires done == (done0 || |EndsVia(m, h, p, next[..i])| > 0)
    requires sheet' == sheet + EndsFrom(m, h + 1, next[i])
    requires done' == (done || |EndsFrom(m, h + 1, next[i])| > 0)
    ensures sheet' == base + EndsVia(m, h, p, next[..i + 1])
    ensures done' == (done0 || |EndsVia(m, h, p, next[..i + 1])| > 0)
  {
    ViaStep(m, h, p, next, i);
  }

  /** All the neighbours taken into account. */
  lemma {:induction false} ViaAll(m: TopoMap, h: int, p: Pos)
    requires h < 9
    ensures var next := m.Siblings(p, Some(h + 1));
      EndsVia(m, h, p, next[..|next|]) == EndsFrom(m, h, p)
  {
    var next := m.Siblings(p, Some(h + 1));
    UphillMeaning(m, p, h + 1);
    assert next[..|next|] == next;
  }

  /** The score of the trailhead at `p`: how many height-9 cells its
      trails reach. */
  function Score(m: TopoMap, p: Pos): nat {
    |Support(Ends(Trails(m, 0, p)))|
  }

  /** The rating of the trailhead at `p`: how many trails start there. */
  function Rating(m: TopoMap, p: Pos): nat {
    |Trails(m, 0, p)|
  }

  /** A cell ends a trail from `p` exactly when some climb from `p` to
      height 9 finishes there: the score counts the distinct height-9 cells
      reachable from the trailhead. */
  lemma {:induction false} ScoreCounts(m: TopoMap, p: Pos, q: Pos)
    ensures q in Support(Ends(Trails(m, 0, p))) <==> exists t :: t != [] && t[0] == p && IsTrail(m, 0, t) && Last(t) == q
  {
    TrailsSound(m, 0, p);
    EndsMembers(Trails(m, 0, p), q);
    if exists t :: t != [] && t[0] == p && IsTrail(m, 0, t) && Last(t) == q {
      var t :| t != [] && t[0] == p && IsTrail(m, 0, t) && Last(t) == q;
      TrailsComplete(m, 0, p, t);
    }
  }

  /** The rating counts the distinct trails from `p`: they are exactly the
      climbs from `p` to height 9, and none is walked twice. */
  lemma {:induction false} RatingCounts(m: TopoMap, p: Pos)
    ensures forall t :: t in Trails(m, 0, p) <==> t != [] && t[0] == p && IsTrail(m, 0, t)
    ensures Rating(m, p) == |set t | t in Trails(m, 0, p)|
    ensures |Ends(Trails(m, 0, p))| == Rating(m, p)
  {
    TrailsSound(m, 0, p);
    TrailsDistinct(m, 0, p);
    EndsCount(Trails(m, 0, p));
    forall t | t != [] && t[0] == p && IsTrail(m, 0, t)
      ensures t in Trails(m, 0, p)
    {
      TrailsComplete(m, 0, p, t);
    }
    DistinctCard(Trails(m, 0, p));
  }

  lemma {:induction false} DistinctCard(s: seq<seq<Pos>>)
    requires forall i, j :: 0 <= i < j < |s| ==> s[i] != s[j]
    ensures |set t | t in s| == |s|
    decreases |s|
  {
    if s != [] {
      var init := s[..|s| - 1];
      DistinctCard(init);
      assert (set t | t in s) == (set t | t in init) + {s[|s| - 1]};
      forall k | 0 <= k < |init|
        ensures init[k] != s[|s| - 1]
      {
        assert init[k] == s[k];
      }
    }
  }

  lemma {:induction false} SupportAdd(ms: multiset<Pos>, q: Pos)
    ensures Support(ms + multiset{q}) == Support(ms) + {q}
    ensures |Support(ms + multiset{q})| == |Support(ms)| + (if q in ms then 0 else 1)
  {
    assert Support(ms + multiset{q}) == Support(ms) + {q};
    if q !in ms {
      assert q !in Support(ms);
    }
  }

  // ---------------------------------------------------------------------------
  // the trail objects

  /** A trailhead's `Trail`: the root of the tree `build` grows. Its
      `completed` records, once per trail, the height-9 cell reached. */
  class Trail {
    const h: int
    const p: Pos
    var complete: bool
    var score: nat
    var scoreSheet: multiset<Pos>

    constructor(h: int, p: Pos)
      ensures this.h == h && this.p == p
      ensures !complete && score == 0 && scoreSheet == multiset{} && Valid()
    {
      assert Support(multiset{}) == {};
      this.h := h;
      this.p := p;
      complete := false;
      score := 0;
      scoreSheet := multiset{};
    }

    /** `score` counts the distinct ends in `score_sheet`. */
    ghost predicate Valid()
      reads this
    {
      score == |Support(scoreSheet)|
    }

    /** `Trail::completed` as it acts on the root: a trail ended at `end`. */
    method Completed(end: Pos)
      requires Valid()
      modifies this
      ensures Valid() && complete
      ensures scoreSheet == old(scoreSheet) + multiset{end}
      ensures score == old(score) + (if end in old(scoreSheet) then 0 else 1)
    {
      SupportAdd(scoreSheet, end);
      complete := true;
      if end !in scoreSheet {
        score := score + 1;
      }
      scoreSheet := scoreSheet + multiset{end};
    }

    /** `Trail::build` run on the node at `q`, height `k`, of this trail's
        tree: every trail from there is walked and its end recorded here. */
    method BuildFrom(m: TopoMap, k: int, q: Pos)
      requires k <= 9 && Valid()
      modifies this
      ensures Valid()
      ensures scoreSheet == old(scoreSheet) + EndsFrom(m, k, q)
      ensures complete == (old(complete) || |EndsFrom(m, k, q)| > 0)
      decreases 9 - k, 1
    {
      if k == 9 {
        Completed(q);
      } else {
        BuildChildren(m, k, q);
      }
    }

    /** `build`'s loop over the neighbours one level higher: a child trail
        is built from each. */
    method BuildChildren(m: TopoMap, k: int, q: Pos)
      requires k < 9 && Valid()
      modifies this
      ensures Valid()
      ensures scoreSheet == old(scoreSheet) + EndsFrom(m, k, q)
      ensures complete == (old(complete) || |EndsFrom(m, k, q)| > 0)
      decreases 9 - k, 0
    {
      var next := m.Siblings(q, Some(k + 1));
      for i := 0 to |next|
        invariant Valid()
        invariant scoreSheet == old(scoreSheet) + EndsVia(m, k, q, next[..i])
        invariant complete == (old(complete) || |EndsVia(m, k, q, next[..i])| > 0)
      {
        ghost var sheet, done := scoreSheet, complete;
        BuildFrom(m, k + 1, next[i]);
        ChildBuilt(m, k, q, next, i, old(scoreSheet), old(complete), sheet, done, scoreSheet, complete);
      }
      ViaAll(m, k, q);
    }

    /** `HikingTrail::buildTrail`. */
    method Build(m: TopoMap)
      requires h <= 9 && Valid()
      modifies this
      ensures Valid()
      ensures scoreSheet == old(scoreSheet) + Ends(Trails(m, h, p))
      ensures complete == (old(complete) || Trails(m, h, p) != [])
    {
      BuildFrom(m, h, p);
      EndsFromTrails(m, h, p);
      TrailsSound(m, h, p);
      EndsCount(Trails(m, h, p));
    }
  }

  // ---------------------------------------------------------------------------
  // trailheads and the answers

  /** The height-0 cells of rows `y` onwards, in reading order. */
  function HeadsFrom(m: TopoMap, y: nat): seq<Pos>
    decreases |m.grid| - y
  {
    if y >= |m.grid| then [] else HeadsOfRow(m, y, |m.grid[y]|) + HeadsFrom(m, y + 1)
  }

  /** The height-0 cells of row `y` before column `x`. */
  function HeadsOfRow(m: TopoMap, y: nat, x: nat): seq<Pos>
    requires y < |m.grid| && x <= |m.grid[y]|
  {
    if x == 0 then []
    else HeadsOfRow(m, y, x - 1) + (if m.grid[y][x - 1] == 0 then [Pos(y, x - 1)] else [])
  }

  /** `Map::findTrailHeads`: the cells whose height is 0, row by row. */
  method FindTrailHeads(m: TopoMap) returns (heads: seq<Pos>)
    ensures heads == HeadsFrom(m, 0)
  {
    heads := [];
    var y := 0;
    while y < |m.grid|
      invariant 0 <= y <= |m.grid|
      invariant heads + HeadsFrom(m, y) == HeadsFrom(m, 0)
    {
      var row := [];
      for x := 0 to |m.grid[y]|
        invariant row == HeadsOfRow(m, y, x)
      {
        if m.grid[y][x] == 0 {
          row := row + [Pos(y, x)];
        }
      }
      heads := heads + row;
      y := y + 1;
    }
  }

  /** The trailheads are exactly the height-0 cells, each once, in
      reading order. */
  lemma {:induction false} HeadsMembers(m: TopoMap, y: nat)
    ensures forall p :: p in HeadsFrom(m, y) <==> p.y >= y && m.Cell(p) == Some(0)
    ensures forall i, j :: 0 <= i < j < |HeadsFrom(m, y)| ==>
      HeadsFrom(m, y)[i].y < HeadsFrom(m, y)[j].y ||
      (HeadsFrom(m, y)[i].y == HeadsFrom(m, y)[j].y && HeadsFrom(m, y)[i].x < HeadsFrom(m, y)[j].x)
    decreases |m.grid| - y
  {
    if y < |m.grid| {
      HeadsMembers(m, y + 1);
      RowMembers(m, y, |m.grid[y]|);
      var a: seq<Pos>, b: seq<Pos> := HeadsOfRow(m, y, |m.grid[y]|), HeadsFrom(m, y + 1);
      var s: seq<Pos> := a + b;
      forall i, j | 0 <= i < j < |s|
        ensures s[i].y < s[j].y || (s[i].y == s[j].y && s[i].x < s[j].x)
      {
        if i < |a| <= j {
          assert s[j] == b[j - |a|] && b[j - |a|] in b;
        } else if |a| <= i {
          assert s[i] == b[i - |a|] && s[j] == b[j - |a|];
        }
      }
    }
  }

  lemma {:induction false} RowMembers(m: TopoMap, y: nat, x: nat)
    requires y < |m.grid| && x <= |m.grid[y]|
    ensures forall p :: p in HeadsOfRow(m, y, x) <==> p.y == y && 0 <= p.x < x && m.grid[y][p.x] == 0
    ensures forall i, j :: 0 <= i < j < |HeadsOfRow(m, y, x)| ==> HeadsOfRow(m, y, x)[i].x < HeadsOfRow(m, y, x)[j].x
  {
    if x > 0 {
      RowMembers(m, y, x - 1);
    }
  }

  function SumScores(m: TopoMap, heads: seq<Pos>): nat {
    if heads == [] then 0 else SumScores(m, heads[..|heads| - 1]) + Score(m, heads[|heads| - 1])
  }

  function SumRatings(m: TopoMap, heads: seq<Pos>): nat {
    if heads == [] then 0 else SumRatings(m, heads[..|heads| - 1]) + Rating(m, heads[|heads| - 1])
  }

  /** A trailhead's score sheet, built from nothing, holds its score and
      its rating. */
  lemma {:induction false} HeadCounted(m: TopoMap, p: Pos, sheet: multiset<Pos>, score: nat)
    requires sheet == multiset{} + Ends(Trails(m, 0, p)) && score == |Support(sheet)|
    ensures score == Score(m, p) && |sheet| == Rating(m, p)
  {
    assert sheet == Ends(Trails(m, 0, p));
    TrailsSound(m, 0, p);
    EndsCount(Trails(m, 0, p));
  }

  lemma {:induction false} ScoreStep(m: TopoMap, heads: seq<Pos>, i: nat)
    requires i < |heads|
    ensures SumScores(m, heads[..i + 1]) == SumScores(m, heads[..i]) + Score(m, heads[i])
  {
    assert heads[..i + 1][..i] == heads[..i];
  }

  lemma {:induction false} RatingStep(m: TopoMap, heads: seq<Pos>, i: nat)
    requires i < |heads|
    ensures SumRatings(m, heads[..i + 1]) == SumRatings(m, heads[..i]) + Rating(m, heads[i])
  {
    assert heads[..i + 1][..i] == heads[..i];
  }

  /** `Main::run`: builds every trailhead's trails and sums their scores
      and their ratings (`array_sum` of each `score_sheet`). */
  method Run(m: TopoMap) returns (scores: nat, ratings: nat)
    ensures scores == SumScores(m, HeadsFrom(m, 0))
    ensures ratings == SumRatings(m, HeadsFrom(m, 0))
  {
    var heads := FindTrailHeads(m);
    scores, ratings := 0, 0;
    for i := 0 to |heads|
      invariant scores == SumScores(m, heads[..i]) && ratings == SumRatings(m, heads[..i])
    {
      var trail := new Trail(0, heads[i]);
      trail.Build(m);
      ghost var sheet, score := trail.scoreSheet, trail.score;
      HeadCounted(m, heads[i], sheet, score);
      ScoreStep(m, heads, i);
      RatingStep(m, heads, i);
      scores := scores + trail.score;
      ratings := ratings + |trail.scoreSheet|;
    }
    assert heads[..|heads|] == heads;
  }
}
