/** 2024/08: antennas on a map. Antennas sharing a frequency character
    project antinodes along the line through each pair of them: one step
    beyond each antenna, or, with resonant harmonics, every step from the
    antenna itself until the map's edge. Antinodes are keyed by position,
    so what is counted is the number of distinct cells they cover. */
module Antennas {
  import opened Common
  import opened Text

  datatype Pos = Pos(y: int, x: int)

  /** An antenna: its frequency character and where it stands. */
  datatype Antenna = Antenna(freq: char, pos: Pos)

  /** The characters the antenna pattern `[a-zA-Z0-9]` matches. */
  predicate IsFrequency(c: char) {
    'a' <= c <= 'z' || 'A' <= c <= 'Z' || '0' <= c <= '9'
  }

  // ---------------------------------------------------------------------------
  // geometry

  /** `Map::outOfBounds`: rows first, then columns; out of bounds exactly
      when not on the map. */
  predicate OutOfBounds(p: Pos, rows: int, cols: int): (b: bool)
    ensures b <==> !InBounds(p, rows, cols)
  {
    if p.y < 0 || p.y >= rows then true
    else if p.x < 0 || p.x >= cols then true
    else false
  }

  predicate InBounds(p: Pos, rows: int, cols: int) {
    0 <= p.y < rows && 0 <= p.x < cols
  }

  /** The vector from `a` to `b`. */
  function Diff(b: Pos, a: Pos): Pos {
    Pos(b.y - a.y, b.x - a.x)
  }

  /** `q + n * v`. */
  function Along(q: Pos, v: Pos, n: int): Pos {
    Pos(q.y + n * v.y, q.x + n * v.x)
  }

  /** The single cell `q`, if it is on the map. */
  function Point(q: Pos, rows: int, cols: int): (r: set<Pos>)
    ensures r <= {q}
    ensures q in r <==> InBounds(q, rows, cols)
  {
    if OutOfBounds(q, rows, cols) then {} else {q}
  }

  /** The cells `q + k * v` for `k = n, n + 1, ...`, up to the first one off
      the map. The walk is cut at `rows + cols` steps so that it is defined
      for every vector; `RayStops` shows the cut never comes first. */
  ghost function Ray(q: Pos, v: Pos, n: nat, rows: int, cols: int): set<Pos>
    decreases rows + cols + 1 - n
  {
    if n > rows + cols || OutOfBounds(Along(q, v, n), rows, cols) then {}
    else {Along(q, v, n)} + Ray(q, v, n + 1, rows, cols)
  }

  /** Starting on the map, a walk along a nonzero vector leaves the map
      within `rows + cols` steps. */
  lemma {:induction false} RayStops(q: Pos, v: Pos, n: int, rows: int, cols: int)
    requires v != Pos(0, 0) && n >= 0
    requires InBounds(q, rows, cols) && InBounds(Along(q, v, n), rows, cols)
    ensures n < rows + cols
  {
    if v.x != 0 {
      StepAtLeast(n, v.x);
    } else {
      StepAtLeast(n, v.y);
    }
  }

  /** `n` steps of a nonzero `d` move at least `n` away. */
  lemma {:induction false} StepAtLeast(n: int, d: int)
    requires n >= 0 && d != 0
    ensures n * d >= n || n * d <= -n
  {
    if d > 0 {
      MulGrows(n, d);
    } else {
      MulGrows(n, -d);
      assert n * (-d) == -(n * d);
    }
  }

  /** The rectangle is convex along each coordinate: between two cells on
      the map, every step of a walk is on the map. */
  lemma {:induction false} RayConvex(q: Pos, v: Pos, k: int, n: int, rows: int, cols: int)
    requires 0 <= k <= n
    requires InBounds(q, rows, cols) && InBounds(Along(q, v, n), rows, cols)
    ensures InBounds(Along(q, v, k), rows, cols)
  {
    Between(k, n, v.y);
    Between(k, n, v.x);
  }

  /** `k * d` lies between `0` and `n * d` when `0 <= k <= n`. */
  lemma {:induction false} Between(k: int, n: int, d: int)
    requires 0 <= k <= n
    ensures d >= 0 ==> 0 <= k * d <= n * d
    ensures d < 0 ==> n * d <= k * d <= 0
  {
    assert n * d == k * d + (n - k) * d;
    if d >= 0 {
      MulGrows(k, 1);
      assert (n - k) * d >= 0;
      assert k * d >= 0;
    } else {
      assert (n - k) * (-d) >= 0;
      assert k * (-d) >= 0;
      assert (n - k) * (-d) == -((n - k) * d);
      assert k * (-d) == -(k * d);
    }
  }

  /** With a nonzero vector, the walk from step `n` holds exactly the cells
      `q + k * v` with `k >= n` that are reached before any step leaves the
      map. */
  lemma {:induction false} RayMembers(q: Pos, v: Pos, n: nat, rows: int, cols: int, p: Pos)
    requires v != Pos(0, 0)
    requires n > 0 ==> InBounds(q, rows, cols)
    ensures p in Ray(q, v, n, rows, cols) <==>
      exists k: nat :: n <= k && p == Along(q, v, k) &&
        forall i :: n <= i <= k ==> InBounds(Along(q, v, i), rows, cols)
    decreases rows + cols + 1 - n
  {
    if n > rows + cols || OutOfBounds(Along(q, v, n), rows, cols) {
      if exists k: nat :: n <= k && p == Along(q, v, k) &&
          forall i :: n <= i <= k ==> InBounds(Along(q, v, i), rows, cols) {
        var k: nat :| n <= k && p == Along(q, v, k) &&
          forall i :: n <= i <= k ==> InBounds(Along(q, v, i), rows, cols);
        assert InBounds(Along(q, v, n), rows, cols);
        if n > 0 {
          RayStops(q, v, n, rows, cols);
        } else {
          RayStops(Along(q, v, 0), v, n, rows, cols);
        }
        assert false;
      }
    } else {
      RayMembers(q, v, n + 1, rows, cols, p);
      if p in Ray(q, v, n, rows, cols) && p != Along(q, v, n) {
        var k: nat :| n + 1 <= k && p == Along(q, v, k) &&
          forall i :: n + 1 <= i <= k ==> InBounds(Along(q, v, i), rows, cols);
        assert forall i :: n <= i <= k ==> InBounds(Along(q, v, i), rows, cols);
      }
      if exists k: nat :: n <= k && p == Along(q, v, k) &&
          forall i :: n <= i <= k ==> InBounds(Along(q, v, i), rows, cols) {
        var k: nat :| n <= k && p == Along(q, v, k) &&
          forall i :: n <= i <= k ==> InBounds(Along(q, v, i), rows, cols);
        if k > n {
          assert forall i :: n + 1 <= i <= k ==> InBounds(Along(q, v, i), rows, cols);
        }
      }
    }
  }

  /** With resonant harmonics, a walk from an antenna on the map holds every
      cell `q + k * v` (`k >= 0`) that is itself on the map. */
  lemma {:induction false} HarmonicCells(q: Pos, v: Pos, rows: int, cols: int, p: Pos)
    requires v != Pos(0, 0)
    requires InBounds(q, rows, cols)
    ensures p in Ray(q, v, 0, rows, cols) <==>
      exists k: nat :: p == Along(q, v, k) && InBounds(p, rows, cols)
  {
    RayMembers(q, v, 0, rows, cols, p);
    if exists k: nat :: p == Along(q, v, k) && InBounds(p, rows, cols) {
      var k: nat :| p == Along(q, v, k) && InBounds(p, rows, cols);
      assert Along(q, v, 0) == q;
      forall i | 0 <= i <= k
        ensures InBounds(Along(q, v, i), rows, cols)
      {
        RayConvex(q, v, i, k, rows, cols);
      }
    }
  }

  /** One step of a walk that is still on the map. */
  lemma {:induction false} RayStep(q: Pos, v: Pos, n: nat, rows: int, cols: int)
    requires v != Pos(0, 0)
    requires n > 0 ==> InBounds(q, rows, cols)
    requires InBounds(Along(q, v, n), rows, cols)
    ensures n < rows + cols
    ensures Ray(q, v, n, rows, cols) == {Along(q, v, n)} + Ray(q, v, n + 1, rows, cols)
  {
    if n > 0 {
      RayStops(q, v, n, rows, cols);
    } else {
      assert Along(q, v, n) == q;
      RayStops(q, v, n, rows, cols);
    }
  }

  /** The antinodes one pair of antennas projects. Without harmonics: one
      step beyond `b` away from `a` and one step beyond `a` away from `b`.
      With harmonics: every step from each antenna outward. */
  ghost function PairNodes(a: Antenna, b: Antenna, harmonics: bool, rows: int, cols: int): set<Pos> {
    if harmonics then
      Ray(b.pos, Diff(b.pos, a.pos), 0, rows, cols) + Ray(a.pos, Diff(a.pos, b.pos), 0, rows, cols)
    else
      Point(Along(b.pos, Diff(b.pos, a.pos), 1), rows, cols) + Point(Along(a.pos, Diff(a.pos, b.pos), 1), rows, cols)
  }

  /** Without harmonics, the antinodes of a pair are `2b - a` and `2a - b`,
      each one only if it is on the map. */
  lemma {:induction false} PairNodesSimple(a: Antenna, b: Antenna, rows: int, cols: int, p: Pos)
    ensures p in PairNodes(a, b, false, rows, cols) <==>
      InBounds(p, rows, cols) &&
      (p == Pos(2 * b.pos.y - a.pos.y, 2 * b.pos.x - a.pos.x) ||
       p == Pos(2 * a.pos.y - b.pos.y, 2 * a.pos.x - b.pos.x))
  {
    assert Along(b.pos, Diff(b.pos, a.pos), 1) == Pos(2 * b.pos.y - a.pos.y, 2 * b.pos.x - a.pos.x);
    assert Along(a.pos, Diff(a.pos, b.pos), 1) == Pos(2 * a.pos.y - b.pos.y, 2 * a.pos.x - b.pos.x);
  }

  /** Every walk stays on the map. */
  lemma {:induction false} RayInBounds(q: Pos, v: Pos, n: nat, rows: int, cols: int)
    ensures forall p :: p in Ray(q, v, n, rows, cols) ==> InBounds(p, rows, cols)
    decreases rows + cols + 1 - n
  {
    if !(n > rows + cols || OutOfBounds(Along(q, v, n), rows, cols)) {
      RayInBounds(q, v, n + 1, rows, cols);
    }
  }

  // ---------------------------------------------------------------------------
  // pairs within a frequency group

  /** The antinodes of the pairs `(g[j], g[k])` with `j < k < i`. */
  ghost function FromPairs(g: seq<Antenna>, j: nat, i: nat, harmonics: bool, rows: int, cols: int): set<Pos>
    requires i <= |g|
  {
    if i <= j + 1 then {}
    else FromPairs(g, j, i - 1, harmonics, rows, cols) + PairNodes(g[j], g[i - 1], harmonics, rows, cols)
  }

  /** The antinodes of the pairs whose first antenna comes before `g[j]`. */
  ghost function FromFirst(g: seq<Antenna>, j: nat, harmonics: bool, rows: int, cols: int): set<Pos>
    requires j <= |g|
  {
    if j == 0 then {}
    else FromFirst(g, j - 1, harmonics, rows, cols) + FromPairs(g, j - 1, |g|, harmonics, rows, cols)
  }

  /** The antinodes of every pair of one frequency group. */
  ghost function GroupNodes(g: seq<Antenna>, harmonics: bool, rows: int, cols: int): set<Pos> {
    FromFirst(g, |g|, harmonics, rows, cols)
  }

  lemma {:induction false} FromPairsStep(g: seq<Antenna>, j: nat, i: nat, harmonics: bool, rows: int, cols: int)
    requires j < i < |g|
    ensures FromPairs(g, j, i + 1, harmonics, rows, cols)
      == FromPairs(g, j, i, harmonics, rows, cols) + PairNodes(g[j], g[i], harmonics, rows, cols)
  {
  }

  lemma {:induction false} FromFirstStep(g: seq<Antenna>, j: nat, harmonics: bool, rows: int, cols: int)
    requires j < |g|
    ensures FromFirst(g, j + 1, harmonics, rows, cols)
      == FromFirst(g, j, harmonics, rows, cols) + FromPairs(g, j, |g|, harmonics, rows, cols)
  {
  }

  /** An antinode of the pairs `(g[j], g[k])`, `k < i`, comes from one of
      them. */
  lemma {:induction false} FromPairsWitness(g: seq<Antenna>, j: nat, i: nat, harmonics: bool, rows: int, cols: int, p: Pos)
    returns (k: nat)
    requires i <= |g| && p in FromPairs(g, j, i, harmonics, rows, cols)
    ensures j < k < i && p in PairNodes(g[j], g[k], harmonics, rows, cols)
  {
    if p in PairNodes(g[j], g[i - 1], harmonics, rows, cols) {
      k := i - 1;
    } else {
      k := FromPairsWitness(g, j, i - 1, harmonics, rows, cols, p);
    }
  }

  lemma {:induction false} FromPairsHas(g: seq<Antenna>, j: nat, i: nat, k: nat, harmonics: bool, rows: int, cols: int)
    requires j < k < i <= |g|
    ensures PairNodes(g[j], g[k], harmonics, rows, cols) <= FromPairs(g, j, i, harmonics, rows, cols)
  {
    if k < i - 1 {
      FromPairsHas(g, j, i - 1, k, harmonics, rows, cols);
    }
  }

  /** An antinode of the pairs whose first antenna is before `g[j]` comes
      from one of them. */
  lemma {:induction false} FromFirstWitness(g: seq<Antenna>, j: nat, harmonics: bool, rows: int, cols: int, p: Pos)
    returns (j': nat, k: nat)
    requires j <= |g| && p in FromFirst(g, j, harmonics, rows, cols)
    ensures j' < j && j' < k < |g| && p in PairNodes(g[j'], g[k], harmonics, rows, cols)
  {
    if p in FromPairs(g, j - 1, |g|, harmonics, rows, cols) {
      j' := j - 1;
      k := FromPairsWitness(g, j - 1, |g|, harmonics, rows, cols, p);
    } else {
      j', k := FromFirstWitness(g, j - 1, harmonics, rows, cols, p);
    }
  }

  lemma {:induction false} FromFirstHas(g: seq<Antenna>, j: nat, j': nat, k: nat, harmonics: bool, rows: int, cols: int)
    requires j' < j <= |g| && j' < k < |g|
    ensures PairNodes(g[j'], g[k], harmonics, rows, cols) <= FromFirst(g, j, harmonics, rows, cols)
  {
    if j' < j - 1 {
      FromFirstHas(g, j - 1, j', k, harmonics, rows, cols);
    } else {
      FromPairsHas(g, j', |g|, k, harmonics, rows, cols);
    }
  }

  /** A group's antinodes are those of its pairs of distinct antennas,
      each pair taken once. */
  lemma {:induction false} GroupNodesMembers(g: seq<Antenna>, harmonics: bool, rows: int, cols: int, p: Pos)
    ensures p in GroupNodes(g, harmonics, rows, cols) <==>
      exists j, k :: 0 <= j < k < |g| && p in PairNodes(g[j], g[k], harmonics, rows, cols)
  {
    if p in GroupNodes(g, harmonics, rows, cols) {
      var j, k := FromFirstWitness(g, |g|, harmonics, rows, cols, p);
    }
    if exists j, k :: 0 <= j < k < |g| && p in PairNodes(g[j], g[k], harmonics, rows, cols) {
      var j, k :| 0 <= j < k < |g| && p in PairNodes(g[j], g[k], harmonics, rows, cols);
      FromFirstHas(g, |g|, j, k, harmonics, rows, cols);
    }
  }

  /** The antinodes of the groups named in `keys`. */
  ghost function NodesOver(antennas: map<char, seq<Antenna>>, keys: set<char>, harmonics: bool, rows: int, cols: int): set<Pos> {
    set c, p | c in keys && c in antennas && p in GroupNodes(antennas[c], harmonics, rows, cols) :: p
  }

  lemma {:induction false} NodesOverAdd(antennas: map<char, seq<Antenna>>, keys: set<char>, c: char, harmonics: bool, rows: int, cols: int)
    requires c in antennas
    ensures NodesOver(antennas, keys + {c}, harmonics, rows, cols)
      == NodesOver(antennas, keys, harmonics, rows, cols) + GroupNodes(antennas[c], harmonics, rows, cols)
  {
  }

  /** Every antinode on the map: only antennas of one frequency are paired. */
  ghost function AllNodes(antennas: map<char, seq<Antenna>>, harmonics: bool, rows: int, cols: int): set<Pos> {
    NodesOver(antennas, antennas.Keys, harmonics, rows, cols)
  }

  /** An antinode comes from two distinct antennas of one frequency. */
  lemma {:induction false} AllNodesMembers(antennas: map<char, seq<Antenna>>, harmonics: bool, rows: int, cols: int, p: Pos)
    ensures p in AllNodes(antennas, harmonics, rows, cols) <==>
      exists c, j, k :: c in antennas && 0 <= j < k < |antennas[c]| &&
        p in PairNodes(antennas[c][j], antennas[c][k], harmonics, rows, cols)
  {
    if p in AllNodes(antennas, harmonics, rows, cols) {
      var c :| c in antennas && p in GroupNodes(antennas[c], harmonics, rows, cols);
      GroupNodesMembers(antennas[c], harmonics, rows, cols, p);
    }
    if exists c, j, k :: c in antennas && 0 <= j < k < |antennas[c]| &&
        p in PairNodes(antennas[c][j], antennas[c][k], harmonics, rows, cols) {
      var c, j, k :| c in antennas && 0 <= j < k < |antennas[c]| &&
        p in PairNodes(antennas[c][j], antennas[c][k], harmonics, rows, cols);
      GroupNodesMembers(antennas[c], harmonics, rows, cols, p);
    }
  }

  /** Every antinode is on the map. */
  lemma {:induction false} AllNodesInBounds(antennas: map<char, seq<Antenna>>, harmonics: bool, rows: int, cols: int, p: Pos)
    requires p in AllNodes(antennas, harmonics, rows, cols)
    ensures InBounds(p, rows, cols)
  {
    AllNodesMembers(antennas, harmonics, rows, cols, p);
    var c, j, k :| c in antennas && 0 <= j < k < |antennas[c]| &&
      p in PairNodes(antennas[c][j], antennas[c][k], harmonics, rows, cols);
    var a, b := antennas[c][j], antennas[c][k];
    RayInBounds(b.pos, Diff(b.pos, a.pos), 0, rows, cols);
    RayInBounds(a.pos, Diff(a.pos, b.pos), 0, rows, cols);
  }

  // ---------------------------------------------------------------------------
  // keys

  /** `Map::getAntiNodeKey` for a cell on the map. */
  function AntiNodeKey(p: Pos): (k: string)
    requires p.y >= 0 && p.x >= 0
    ensures Explode(k, '_') == ["anti", "node", NatToString(p.y), NatToString(p.x)]
  {
    var ys, xs := NatToString(p.y), NatToString(p.x);
    var parts := ["anti", "node", ys, xs];
    assert '_' !in ys && '_' !in xs by {
      assert forall i :: 0 <= i < |ys| ==> IsDigit(ys[i]);
      assert forall i :: 0 <= i < |xs| ==> IsDigit(xs[i]);
    }
    assert Implode(parts[3..], '_') == xs;
    assert Implode(parts[2..], '_') == ys + "_" + xs;
    assert Implode(parts[1..], '_') == "node_" + ys + "_" + xs;
    assert Implode(parts, '_') == "anti_node_" + ys + "_" + xs;
    ExplodeImplode(parts, '_');
    "anti_node_" + ys + "_" + xs
  }

  /** Distinct cells on the map have distinct keys, so keying antinodes by
      that string is keying them by position. */
  lemma {:induction false} AntiNodeKeyInjective(p: Pos, q: Pos)
    requires p.y >= 0 && p.x >= 0 && q.y >= 0 && q.x >= 0
    ensures AntiNodeKey(p) == AntiNodeKey(q) <==> p == q
  {
    if AntiNodeKey(p) == AntiNodeKey(q) {
      var ps := ["anti", "node", NatToString(p.y), NatToString(p.x)];
      var qs := ["anti", "node", NatToString(q.y), NatToString(q.x)];
      assert ps == qs;
      StringToNatOfNatToString(p.y);
      StringToNatOfNatToString(q.y);
      StringToNatOfNatToString(p.x);
      StringToNatOfNatToString(q.x);
    }
  }

  // ---------------------------------------------------------------------------
  // reading the map

  /** The antennas of one (trimmed) line, left to right, with their offsets
      in that line. */
  function LineAntennas(line: string, y: int): (r: seq<Antenna>)
    ensures forall a :: a in r ==> IsFrequency(a.freq)
  {
    if line == [] then []
    else
      var x := |line| - 1;
      LineAntennas(line[..x], y) + (if IsFrequency(line[x]) then [Antenna(line[x], Pos(y, x))] else [])
  }

  /** The antennas of the first `|lines|` lines, top to bottom. */
  function AllAntennas(lines: seq<string>): seq<Antenna> {
    if lines == [] then []
    else AllAntennas(lines[..|lines| - 1]) + LineAntennas(Trim(lines[|lines| - 1]), |lines| - 1)
  }

  /** A line's antennas stand on that row, within the line, left to right. */
  lemma {:induction false} LineAntennasPlaced(line: string, y: int)
    ensures forall a :: a in LineAntennas(line, y) ==> a.pos.y == y && 0 <= a.pos.x < |line| && line[a.pos.x] == a.freq
    ensures ReadingOrder(LineAntennas(line, y))
  {
    if line != [] {
      LineAntennasPlaced(line[..|line| - 1], y);
    }
  }

  /** The antennas read from the map stand on its rows. */
  lemma {:induction false} AllAntennasRows(lines: seq<string>)
    ensures forall a :: a in AllAntennas(lines) ==> 0 <= a.pos.y < |lines|
  {
    if lines != [] {
      AllAntennasRows(lines[..|lines| - 1]);
      LineAntennasPlaced(Trim(lines[|lines| - 1]), |lines| - 1);
    }
  }

  /** The group map after `addAntenna(a)`. */
  function AddToGroup(antennas: map<char, seq<Antenna>>, a: Antenna): map<char, seq<Antenna>> {
    antennas[a.freq := (if a.freq in antennas then antennas[a.freq] else []) + [a]]
  }

  /** The group map after adding `ants` in order. */
  function Grouped(ants: seq<Antenna>): map<char, seq<Antenna>> {
    if ants == [] then map[] else AddToGroup(Grouped(ants[..|ants| - 1]), ants[|ants| - 1])
  }

  lemma {:induction false} GroupedStep(ants: seq<Antenna>, a: Antenna)
    ensures Grouped(ants + [a]) == AddToGroup(Grouped(ants), a)
  {
    assert (ants + [a])[..|ants|] == ants;
  }

  lemma {:induction false} GroupedPrefix(before: seq<Antenna>, ants: seq<Antenna>, k: nat)
    requires k < |ants|
    ensures Grouped(before + ants[..k + 1]) == AddToGroup(Grouped(before + ants[..k]), ants[k])
  {
    assert ants[..k + 1] == ants[..k] + [ants[k]];
    assert before + ants[..k + 1] == (before + ants[..k]) + [ants[k]];
    GroupedStep(before + ants[..k], ants[k]);
  }

  /** The antennas of `ants` with frequency `c`, in order. */
  function WithFreq(ants: seq<Antenna>, c: char): (r: seq<Antenna>)
    ensures forall a :: a in r ==> a in ants && a.freq == c
  {
    if ants == [] then []
    else WithFreq(ants[..|ants| - 1], c) + (if ants[|ants| - 1].freq == c then [ants[|ants| - 1]] else [])
  }

  /** Grouping keeps one group per frequency present, holding exactly the
      antennas of that frequency in their reading order. */
  lemma {:induction false} GroupedMembers(ants: seq<Antenna>, c: char)
    ensures c in Grouped(ants) <==> exists a :: a in ants && a.freq == c
    ensures c in Grouped(ants) ==> Grouped(ants)[c] == WithFreq(ants, c) && Grouped(ants)[c] != []
    ensures c !in Grouped(ants) ==> WithFreq(ants, c) == []
  {
    if ants != [] {
      var init, last := ants[..|ants| - 1], ants[|ants| - 1];
      GroupedMembers(init, c);
      assert ants == init + [last];
      if exists a :: a in ants && a.freq == c {
        var a :| a in ants && a.freq == c;
        if a != last {
          assert a in init;
        }
      }
    }
  }

  /** Positions strictly increase in reading order. */
  predicate ReadingOrder(ants: seq<Antenna>) {
    forall i, j :: 0 <= i < j < |ants| ==>
      ants[i].pos.y < ants[j].pos.y || (ants[i].pos.y == ants[j].pos.y && ants[i].pos.x < ants[j].pos.x)
  }

  lemma {:induction false} AllAntennasOrdered(lines: seq<string>)
    ensures ReadingOrder(AllAntennas(lines))
  {
    if lines != [] {
      AllAntennasOrdered(lines[..|lines| - 1]);
      AllAntennasRows(lines[..|lines| - 1]);
      LineAntennasPlaced(Trim(lines[|lines| - 1]), |lines| - 1);
    }
  }

  lemma {:induction false} WithFreqOrdered(ants: seq<Antenna>, c: char)
    requires ReadingOrder(ants)
    ensures ReadingOrder(WithFreq(ants, c))
  {
    if ants != [] {
      var init := ants[..|ants| - 1];
      WithFreqOrdered(init, c);
      var w := WithFreq(init, c);
      assert forall a :: a in w ==> a in init;
      forall i | 0 <= i < |w|
        ensures w[i].pos.y < ants[|ants| - 1].pos.y ||
          (w[i].pos.y == ants[|ants| - 1].pos.y && w[i].pos.x < ants[|ants| - 1].pos.x)
      {
        assert w[i] in init;
        var k :| 0 <= k < |init| && init[k] == w[i];
      }
    }
  }

  /** No two antennas of one group stand on the same cell. */
  predicate Distinct(antennas: map<char, seq<Antenna>>) {
    forall c, j, k :: c in antennas && 0 <= j < k < |antennas[c]| ==> antennas[c][j].pos != antennas[c][k].pos
  }

  /** The antennas read from a map never share a cell. */
  lemma {:induction false} ReadDistinct(lines: seq<string>)
    ensures Distinct(Grouped(AllAntennas(lines)))
  {
    var ants := AllAntennas(lines);
    AllAntennasOrdered(lines);
    forall c | c in Grouped(ants)
      ensures ReadingOrder(Grouped(ants)[c])
    {
      GroupedMembers(ants, c);
      WithFreqOrdered(ants, c);
    }
  }

  // ---------------------------------------------------------------------------
  // the map

  class Map {
    /** The antennas grouped by frequency (`'ant_' . $char` in the source). */
    var antennas: map<char, seq<Antenna>>
    /** The antinodes by cell, each with the frequency that first set it. */
    var antiNodes: map<Pos, char>
    var rows: int
    var cols: int

    constructor()
      ensures antennas == map[] && antiNodes == map[] && rows == 0 && cols == 0
    {
      antennas := map[];
      antiNodes := map[];
      rows := 0;
      cols := 0;
    }

    /** `Map::addAntenna`: appends `a` to its frequency's group. */
    method AddAntenna(a: Antenna)
      modifies this
      ensures antennas == AddToGroup(old(antennas), a)
      ensures antiNodes == old(antiNodes) && rows == old(rows) && cols == old(cols)
    {
      if a.freq !in antennas {
        antennas := antennas[a.freq := []];
      }
      antennas := antennas[a.freq := antennas[a.freq] + [a]];
    }

    /** One of `addAntiNode`'s two do/while loops: the walk from `q` along
        `v`, from step 0 with harmonics and step 1 without, recording every
        cell on the map not already recorded. */
    method AddWalk(q: Pos, v: Pos, harmonics: bool, freq: char)
      requires harmonics ==> v != Pos(0, 0)
      requires rows >= 0 && cols >= 0
      modifies this
      ensures antiNodes.Keys == old(antiNodes.Keys) +
        (if harmonics then Ray(q, v, 0, rows, cols) else Point(Along(q, v, 1), rows, cols))
      ensures forall p :: p in old(antiNodes) ==> antiNodes[p] == old(antiNodes)[p]
      ensures forall p :: p in antiNodes && p !in old(antiNodes) ==> antiNodes[p] == freq
      ensures antennas == old(antennas) && rows == old(rows) && cols == old(cols)
    {
      var n: nat := if harmonics then 0 else 1;
      var going := true;
      while going
        invariant !harmonics ==> (going ==> n == 1 && antiNodes == old(antiNodes))
        invariant !harmonics && !going ==> antiNodes.Keys == old(antiNodes.Keys) + Point(Along(q, v, 1), rows, cols)
        invariant harmonics && going ==>
          antiNodes.Keys + Ray(q, v, n, rows, cols) == old(antiNodes.Keys) + Ray(q, v, 0, rows, cols)
        invariant harmonics && going && n > 0 ==>
          InBounds(q, rows, cols) && InBounds(Along(q, v, n - 1), rows, cols)
        invariant harmonics && !going ==> antiNodes.Keys == old(antiNodes.Keys) + Ray(q, v, 0, rows, cols)
        invariant forall p :: p in old(antiNodes) ==> p in antiNodes && antiNodes[p] == old(antiNodes)[p]
        invariant forall p :: p in antiNodes && p !in old(antiNodes) ==> antiNodes[p] == freq
        invariant antennas == old(antennas) && rows == old(rows) && cols == old(cols)
        invariant harmonics && going ==> n <= rows + cols
        decreases going, rows + cols + 1 - n
      {
        var p := Along(q, v, n);
        var inBound := !OutOfBounds(p, rows, cols);
        if inBound && p !in antiNodes {
          antiNodes := antiNodes[p := freq];
        }
        if harmonics && inBound {
          RayStep(q, v, n, rows, cols);
        }
        n := n + 1;
        going := inBound && harmonics;
      }
    }

    /** `Map::addAntiNode`: the antinodes of the pair `(a, b)`, each new one
        recorded with `a`'s frequency. */
    method AddAntiNode(a: Antenna, b: Antenna, harmonics: bool)
      requires harmonics ==> a.pos != b.pos
      requires rows >= 0 && cols >= 0
      modifies this
      ensures antiNodes.Keys == old(antiNodes.Keys) + PairNodes(a, b, harmonics, rows, cols)
      ensures forall p :: p in old(antiNodes) ==> antiNodes[p] == old(antiNodes)[p]
      ensures antennas == old(antennas) && rows == old(rows) && cols == old(cols)
    {
      AddWalk(b.pos, Diff(b.pos, a.pos), harmonics, a.freq);
      AddWalk(a.pos, Diff(a.pos, b.pos), harmonics, a.freq);
    }

    /** `Map::clearAntiNodes`. */
    method ClearAntiNodes()
      modifies this
      ensures antiNodes == map[]
      ensures antennas == old(antennas) && rows == old(rows) && cols == old(cols)
    {
      antiNodes := map[];
    }

    /** The pair loops of `setAntiNodes` over one group: every pair
        `(g[j], g[i])` with `j < i`. */
    method AddGroup(g: seq<Antenna>, harmonics: bool)
      requires harmonics ==> forall j, k :: 0 <= j < k < |g| ==> g[j].pos != g[k].pos
      requires rows >= 0 && cols >= 0
      modifies this
      ensures antiNodes.Keys == old(antiNodes.Keys) + GroupNodes(g, harmonics, rows, cols)
      ensures antennas == old(antennas) && rows == old(rows) && cols == old(cols)
    {
      var j := 0;
      while j < |g| - 1
        invariant 0 <= j <= |g|
        invariant |g| > 0 ==> j <= |g| - 1
        invariant antiNodes.Keys == old(antiNodes.Keys) + FromFirst(g, j, harmonics, rows, cols)
        invariant antennas == old(antennas) && rows == old(rows) && cols == old(cols)
      {
        AddPairs(g, j, harmonics);
        FromFirstStep(g, j, harmonics, rows, cols);
        j := j + 1;
      }
      if |g| > 0 {
        FromFirstStep(g, j, harmonics, rows, cols);
      }
    }

    /** The inner loop of `setAntiNodes`: the pairs `(g[j], g[i])` for every
        `i` after `j`. */
    method AddPairs(g: seq<Antenna>, j: nat, harmonics: bool)
      requires j < |g|
      requires harmonics ==> forall k :: j < k < |g| ==> g[j].pos != g[k].pos
      requires rows >= 0 && cols >= 0
      modifies this
      ensures antiNodes.Keys == old(antiNodes.Keys) + FromPairs(g, j, |g|, harmonics, rows, cols)
      ensures antennas == old(antennas) && rows == old(rows) && cols == old(cols)
    {
      for i := j + 1 to |g|
        invariant antiNodes.Keys == old(antiNodes.Keys) + FromPairs(g, j, i, harmonics, rows, cols)
        invariant antennas == old(antennas) && rows == old(rows) && cols == old(cols)
      {
        AddAntiNode(g[j], g[i], harmonics);
        FromPairsStep(g, j, i, harmonics, rows, cols);
      }
    }

    /** `Map::setAntiNodes`: clears the antinodes, then adds those of every
        pair of antennas within each frequency group. */
    method SetAntiNodes(harmonics: bool)
      requires harmonics ==> Distinct(antennas)
      requires rows >= 0 && cols >= 0
      modifies this
      ensures antiNodes.Keys == AllNodes(antennas, harmonics, rows, cols)
      ensures antennas == old(antennas) && rows == old(rows) && cols == old(cols)
    {
      ClearAntiNodes();
      var keys := antennas.Keys;
      ghost var done: set<char> := {};
      while keys != {}
        invariant keys + done == antennas.Keys && keys !! done
        invariant antiNodes.Keys == NodesOver(antennas, done, harmonics, rows, cols)
        invariant antennas == old(antennas) && rows == old(rows) && cols == old(cols)
        decreases |keys|
      {
        var c :| c in keys;
        AddGroup(antennas[c], harmonics);
        NodesOverAdd(antennas, done, c, harmonics, rows, cols);
        keys := keys - {c};
        done := done + {c};
      }
    }

    /** `Map::getNbAntiNodes`: the number of cells recorded, one per key. */
    function NbAntiNodes(): (r: nat)
      reads this
      ensures r == |antiNodes.Keys|
    {
      |antiNodes|
    }
  }

  /** `Parser::__construct`: antennas are read from each trimmed line at
      their offsets in it; the map has one row per line and as many columns
      as the first trimmed line is long. */
  method Parse(lines: seq<string>) returns (m: Map)
    ensures fresh(m)
    ensures m.antennas == Grouped(AllAntennas(lines)) && m.antiNodes == map[]
    ensures m.rows == |lines| && m.cols == (if lines == [] then 0 else |Trim(lines[0])|)
  {
    m := new Map();
    var cols: Option<int> := None;
    var rows := |lines|;
    for y := 0 to |lines|
      invariant m.antennas == Grouped(AllAntennas(lines[..y])) && m.antiNodes == map[]
      invariant cols == (if y == 0 then None else Some(|Trim(lines[0])|))
    {
      var line := Trim(lines[y]);
      if cols.None? {
        cols := Some(|line|);
      }
      var matches := LineAntennas(line, y);
      ghost var before := AllAntennas(lines[..y]);
      assert lines[..y + 1][..y] == lines[..y];
      assert AllAntennas(lines[..y + 1]) == before + matches;
      assert before + matches[..0] == before;
      for k := 0 to |matches|
        invariant m.antennas == Grouped(before + matches[..k]) && m.antiNodes == map[]
      {
        GroupedPrefix(before, matches, k);
        m.AddAntenna(matches[k]);
      }
      assert before + matches[..|matches|] == AllAntennas(lines[..y + 1]);
    }
    assert lines[..|lines|] == lines;
    m.rows := rows;
    m.cols := if cols.Some? then cols.value else 0;
  }

  /** `Parser::run`: the antinode count without harmonics, then with. Each
      count is the number of distinct cells on the map the antinodes
      cover. */
  method Run(m: Map) returns (simple: nat, resonant: nat)
    requires Distinct(m.antennas) && m.rows >= 0 && m.cols >= 0
    modifies m
    ensures simple == |AllNodes(m.antennas, false, m.rows, m.cols)|
    ensures resonant == |AllNodes(m.antennas, true, m.rows, m.cols)|
    ensures m.antiNodes.Keys == AllNodes(m.antennas, true, m.rows, m.cols)
    ensures m.antennas == old(m.antennas) && m.rows == old(m.rows) && m.cols == old(m.cols)
  {
    m.SetAntiNodes(false);
    simple := m.NbAntiNodes();
    m.SetAntiNodes(true);
    resonant := m.NbAntiNodes();
  }

  /** Reading a map and counting: the counts of `run` for the text
      `lines`. */
  method Solve(lines: seq<string>) returns (simple: nat, resonant: nat)
    ensures simple == |AllNodes(Grouped(AllAntennas(lines)), false, |lines|, if lines == [] then 0 else |Trim(lines[0])|)|
    ensures resonant == |AllNodes(Grouped(AllAntennas(lines)), true, |lines|, if lines == [] then 0 else |Trim(lines[0])|)|
  {
    var m := Parse(lines);
    ReadDistinct(lines);
    simple, resonant := Run(m);
  }
}
