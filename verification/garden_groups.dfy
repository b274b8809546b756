/** Garden groups (2024, day 12). The garden is a grid of plants, each named
    by a letter. Plants of the same name that touch north, east, south or
    west are siblings, and a region is everything reachable from its head
    plant through siblings. Claiming a region stamps its plants with a fresh
    certificate; a region whose head is already claimed is a duplicate and is
    dropped. A region's price is its area times its perimeter, the perimeter
    being the number of fenced sides of its plants. */
module GardenGroups {
  import opened Common
  import opened Text

  datatype Pos = Pos(y: int, x: int)

  /** The four `getFromOffset` steps of `findSiblings`, in its order. */
  function Neighbours(p: Pos): seq<Pos> {
    [Pos(p.y - 1, p.x), Pos(p.y, p.x + 1), Pos(p.y + 1, p.x), Pos(p.y, p.x - 1)]
  }

  /** `q` is one step from `p` along a row or a column. */
  predicate Adjacent(p: Pos, q: Pos) {
    Abs(q.y - p.y) + Abs(q.x - p.x) == 1
  }

  predicate Distinct(s: seq<Pos>) {
    forall i, j :: 0 <= i < j < |s| ==> s[i] != s[j]
  }

  lemma {:induction false} NeighboursMeaning(p: Pos)
    ensures forall q :: q in Neighbours(p) <==> Adjacent(p, q)
    ensures Distinct(Neighbours(p)) && |Neighbours(p)| == 4
  {
  }

  /** `sortByCoords`: row first, then column. */
  function SortByCoords(a: Pos, b: Pos): (r: int)
    ensures r == 0 <==> a == b
    ensures r < 0 <==> a.y < b.y || (a.y == b.y && a.x < b.x)
    ensures -1 <= r <= 1
  {
    if a.y < b.y then -1
    else if a.y > b.y then 1
    else if a.x < b.x then -1
    else if a.x > b.x then 1
    else 0
  }

  /** The comparison is a total order: swapping its arguments flips its
      sign, and it is transitive. */
  lemma {:induction false} SortByCoordsOrder(a: Pos, b: Pos, c: Pos)
    ensures SortByCoords(a, b) == -SortByCoords(b, a)
    ensures SortByCoords(a, b) < 0 && SortByCoords(b, c) < 0 ==> SortByCoords(a, c) < 0
    ensures SortByCoords(a, b) <= 0 || SortByCoords(b, a) <= 0
  {
  }

  // ---------------------------------------------------------------------------
  // the map and its siblings

  /** The plant names of the trimmed lines, with the size taken from the
      number of lines and the first line's length. */
  datatype GardenMap = GardenMap(names: seq<seq<char>>, rows: int, cols: int) {

    /** `Garden::outOfBounds`. */
    predicate OutOfBounds(p: Pos) {
      p.y < 0 || p.y >= rows || p.x < 0 || p.x >= cols
    }

    /** The name at `p` on its own line, if the line has one there. */
    function Name(p: Pos): Option<char> {
      if 0 <= p.y < |names| && 0 <= p.x < |names[p.y]| then Some(names[p.y][p.x]) else None
    }

    /** `Garden::getPlant` returns a plant at `p`. */
    predicate HasPlant(p: Pos) {
      !OutOfBounds(p) && Name(p).Some?
    }

    /** `b` is a sibling of `a`: a neighbour of the same name. */
    predicate IsSibling(a: Pos, b: Pos) {
      Adjacent(a, b) && HasPlant(a) && HasPlant(b) && Name(a) == Name(b)
    }

    lemma {:induction false} SiblingSymmetric(a: Pos, b: Pos)
      ensures IsSibling(a, b) <==> IsSibling(b, a)
    {
    }

    /** The neighbours in `s` that are siblings of `p` (`sibling`) or not. */
    function Keep(p: Pos, s: seq<Pos>, sibling: bool): seq<Pos> {
      if s == [] then []
      else
        var r := Keep(p, s[..|s| - 1], sibling);
        var q := s[|s| - 1];
        if IsSibling(p, q) == sibling then r + [q] else r
    }

    lemma {:induction false} KeepMeaning(p: Pos, s: seq<Pos>, sibling: bool)
      ensures forall q :: q in Keep(p, s, sibling) <==> q in s && IsSibling(p, q) == sibling
      ensures Distinct(s) ==> Distinct(Keep(p, s, sibling))
      ensures |Keep(p, s, true)| + |Keep(p, s, false)| == |s|
      decreases |s|
    {
      if s != [] {
        KeepMeaning(p, s[..|s| - 1], sibling);
        KeepMeaning(p, s[..|s| - 1], !sibling);
        assert forall x :: x in s <==> x in s[..|s| - 1] || x == s[|s| - 1];
      }
    }

    /** `Plant::findSiblings` with the plant's own name: its in-bounds
        neighbours of the same name, north, east, south, west. */
    function FindSiblings(p: Pos): (r: seq<Pos>)
      ensures forall q :: q in r <==> IsSibling(p, q)
      ensures Distinct(r) && |r| <= 4
    {
      NeighboursMeaning(p);
      KeepMeaning(p, Neighbours(p), true);
      Keep(p, Neighbours(p), true)
    }

    /** The sides of `p` that need a fence: neighbours that are not
        siblings. */
    function Fences(p: Pos): seq<Pos> {
      Keep(p, Neighbours(p), false)
    }

    /** `Plant::getBorderCount`: one fence per side without a sibling. */
    function BorderCount(p: Pos): (r: int)
      ensures r == |Fences(p)| && 0 <= r <= 4
      ensures forall q :: q in Fences(p) <==> Adjacent(p, q) && !IsSibling(p, q)
    {
      NeighboursMeaning(p);
      KeepMeaning(p, Neighbours(p), false);
      4 - |FindSiblings(p)|
    }

    /** `Region::setPerimeter`'s reduce: the border counts summed. */
    function Perimeter(ps: seq<Pos>): (r: int)
      ensures 0 <= r <= 4 * |ps|
    {
      if ps == [] then 0 else Perimeter(ps[..|ps| - 1]) + BorderCount(ps[|ps| - 1])
    }

    // -------------------------------------------------------------------------
    // regions: what can be reached through siblings

    /** Step `i` of `path` goes to a sibling. */
    predicate StepAt(path: seq<Pos>, i: int)
      requires 0 < i < |path|
    {
      IsSibling(path[i - 1], path[i])
    }

    /** `path` walks from `a` to `b` through siblings. */
    predicate Path(path: seq<Pos>, a: Pos, b: Pos) {
      |path| >= 1 && path[0] == a && path[|path| - 1] == b &&
      forall i :: 0 < i < |path| ==> StepAt(path, i)
    }

    /** `b` is in the region of `a`. */
    ghost predicate Reachable(a: Pos, b: Pos) {
      exists path :: Path(path, a, b)
    }

    lemma {:induction false} ReachSelf(a: Pos)
      ensures Reachable(a, a)
    {
      assert Path([a], a, a);
    }

    lemma {:induction false} ReachPrepend(a: Pos, b: Pos, c: Pos)
      requires IsSibling(a, b) && Reachable(b, c)
      ensures Reachable(a, c)
    {
      var path :| Path(path, b, c);
      var longer := [a] + path;
      forall i | 0 < i < |longer|
        ensures StepAt(longer, i)
      {
        if i > 1 {
          assert StepAt(path, i - 1);
        }
      }
      assert Path(longer, a, c);
    }

    lemma {:induction false} ReachBack(path: seq<Pos>, a: Pos, b: Pos)
      requires Path(path, a, b)
      ensures Reachable(b, a)
      decreases |path|
    {
      if |path| == 1 {
        ReachSelf(a);
      } else {
        var init, c := path[..|path| - 1], path[|path| - 2];
        assert StepAt(path, |path| - 1);
        forall i | 0 < i < |init|
          ensures StepAt(init, i)
        {
          assert StepAt(path, i);
        }
        assert Path(init, a, c);
        ReachBack(init, a, c);
        SiblingSymmetric(c, b);
        ReachPrepend(b, c, a);
      }
    }

    /** Regions are symmetric: `a` is in the region of `b` when `b` is in
        the region of `a`. */
    lemma {:induction false} ReachSymmetric(a: Pos, b: Pos)
      requires Reachable(a, b)
      ensures Reachable(b, a)
    {
      var path :| Path(path, a, b);
      ReachBack(path, a, b);
    }

    lemma {:induction false} ReachJoin(path: seq<Pos>, a: Pos, b: Pos, c: Pos)
      requires Path(path, a, b) && Reachable(b, c)
      ensures Reachable(a, c)
      decreases |path|
    {
      if |path| > 1 {
        var rest := path[1..];
        assert StepAt(path, 1);
        forall i | 0 < i < |rest|
          ensures StepAt(rest, i)
        {
          assert StepAt(path, i + 1);
        }
        assert Path(rest, path[1], b);
        ReachJoin(rest, path[1], b, c);
        ReachPrepend(a, path[1], c);
      }
    }

    /** Two regions that share a plant share their heads. */
    lemma {:induction false} ReachShared(a: Pos, b: Pos, q: Pos)
      requires Reachable(a, q) && Reachable(b, q)
      ensures Reachable(a, b)
    {
      ReachSymmetric(b, q);
      var path :| Path(path, a, q);
      ReachJoin(path, a, q, b);
    }

    /** A list that holds `a` and every sibling of its members holds the
        whole region of `a`. */
    lemma {:induction false} ReachClosed(ps: seq<Pos>, path: seq<Pos>, a: Pos, b: Pos)
      requires a in ps && Path(path, a, b)
      requires forall q, s :: q in ps && IsSibling(q, s) ==> s in ps
      ensures b in ps
      decreases |path|
    {
      if |path| > 1 {
        var init, c := path[..|path| - 1], path[|path| - 2];
        assert StepAt(path, |path| - 1);
        forall i | 0 < i < |init|
          ensures StepAt(init, i)
        {
          assert StepAt(path, i);
        }
        assert Path(init, a, c);
        ReachClosed(ps, init, a, c);
      }
    }

    /** `ps` lists the region of `head` once each, head first. */
    ghost predicate Listing(head: Pos, ps: seq<Pos>) {
      ps != [] && ps[0] == head && Distinct(ps) && forall q :: q in ps <==> Reachable(head, q)
    }
  }

  /** Regions listed as their heads' regions are apart unless one head is in
      the other's region. */
  lemma {:induction false} ListingsApart(m: GardenMap, a: Pos, pa: seq<Pos>, b: Pos, pb: seq<Pos>)
    requires m.Listing(a, pa) && m.Listing(b, pb) && b !in pa
    ensures forall q :: q in pa ==> q !in pb
  {
    forall q | q in pa && q in pb
      ensures false
    {
      m.ReachShared(a, b, q);
    }
  }

  /** `Garden::__construct`: the trimmed lines, as columns counted on the
      first. */
  function ReadMap(lines: seq<string>): (m: GardenMap)
    requires lines != []
    ensures m.rows == |lines| && m.cols == |Trim(lines[0])|
    ensures forall p :: m.Name(p).Some? <==> 0 <= p.y < |lines| && 0 <= p.x < |Trim(lines[p.y])|
    ensures forall p :: m.Name(p).Some? ==> m.Name(p).value == Trim(lines[p.y])[p.x]
  {
    var names := seq(|lines|, y requires 0 <= y < |lines| => Trim(lines[y]));
    GardenMap(names, |lines|, |names[0]|)
  }

  // ---------------------------------------------------------------------------
  // plants and their certificates

  /** What a `Plant` object changes as regions are claimed: its password
      (the signature of the certificate applied last; 0 for none), its
      region name (the head of the claiming region) and its claim flag. */
  datatype Plant = Plant(password: nat, regionName: Pos, claimed: bool)

  /** Every plant in `before` is either untouched or was unstamped and now
      carries the certificate `sig` of region `author`. */
  ghost predicate Grows(before: map<Pos, Plant>, after: map<Pos, Plant>, sig: nat, author: Pos) {
    before.Keys == after.Keys &&
    forall q :: q in before ==>
      after[q] == before[q] || (before[q].password != sig && after[q] == Plant(sig, author, true))
  }

  /** `found` are the plants that got stamped with `sig` from `before` to
      `after`. */
  ghost predicate Stamped(before: map<Pos, Plant>, after: map<Pos, Plant>, sig: nat, found: seq<Pos>) {
    forall q :: q in found <==> q in before && q in after && before[q].password != sig && after[q].password == sig
  }

  /** All siblings of `q` carry `sig`. */
  ghost predicate SiblingsStamped(m: GardenMap, plants: map<Pos, Plant>, sig: nat, q: Pos) {
    forall s :: m.IsSibling(q, s) ==> s in plants && plants[s].password == sig
  }

  lemma {:induction false} GrowsTrans(a: map<Pos, Plant>, b: map<Pos, Plant>, c: map<Pos, Plant>, sig: nat, author: Pos)
    requires Grows(a, b, sig, author) && Grows(b, c, sig, author)
    ensures Grows(a, c, sig, author)
  {
  }

  /** One sibling stamped and its own siblings searched: the search so far
      grows by the sibling and what it found. */
  lemma {:induction false} FoundStep(m: GardenMap, p: Pos, sig: nat, author: Pos,
                  p0: map<Pos, Plant>, p1: map<Pos, Plant>, p3: map<Pos, Plant>,
                  found: seq<Pos>, s: Pos, more: seq<Pos>)
    requires Grows(p0, p1, sig, author) && Stamped(p0, p1, sig, found) && Distinct(found)
    requires forall q :: q in found ==> m.Reachable(p, q)
    requires forall q :: q in found ==> SiblingsStamped(m, p1, sig, q)
    requires s in p1 && p1[s].password != sig && m.IsSibling(p, s)
    requires Grows(p1[s := Plant(sig, author, true)], p3, sig, author)
    requires Stamped(p1[s := Plant(sig, author, true)], p3, sig, more) && Distinct(more)
    requires forall q :: q in more ==> m.Reachable(s, q)
    requires SiblingsStamped(m, p3, sig, s) && forall q :: q in more ==> SiblingsStamped(m, p3, sig, q)
    ensures Grows(p0, p3, sig, author) && Stamped(p0, p3, sig, found + [s] + more)
    ensures Distinct(found + [s] + more)
    ensures forall q :: q in found + [s] + more ==> m.Reachable(p, q)
    ensures forall q :: q in found + [s] + more ==> SiblingsStamped(m, p3, sig, q)
  {
    var p2 := p1[s := Plant(sig, author, true)];
    var all := found + [s] + more;
    GrowsTrans(p1, p2, p3, sig, author);
    GrowsTrans(p0, p1, p3, sig, author);
    forall i, j | 0 <= i < j < |all|
      ensures all[i] != all[j]
    {
      if j < |found| {
      } else if i < |found| && j == |found| {
        assert all[i] in found;
      } else if i < |found| {
        assert all[i] in found && all[j] == more[j - |found| - 1] && all[j] in more;
      } else if i == |found| {
        assert all[j] == more[j - |found| - 1] && all[j] in more;
      } else {
        assert all[i] == more[i - |found| - 1] && all[j] == more[j - |found| - 1];
      }
    }
    forall q | q in all
      ensures m.Reachable(p, q)
    {
      if q in more {
        m.ReachPrepend(p, s, q);
      } else if q == s {
        m.ReachSelf(s);
        m.ReachPrepend(p, s, s);
      }
    }
    forall q | q in found
      ensures SiblingsStamped(m, p3, sig, q)
    {
      assert SiblingsStamped(m, p1, sig, q);
    }
  }

  lemma {:induction false} SubsetCard(a: set<Pos>, b: set<Pos>)
    requires a <= b
    ensures |a| <= |b|
    decreases |b|
  {
    if a != {} {
      var q :| q in a;
      SubsetCard(a - {q}, b - {q});
    }
  }

  /** The search from `p` after `i` of its siblings `sibs`, from `p0` to
      `plants`. */
  ghost predicate Searched(m: GardenMap, p: Pos, sig: nat, author: Pos, p0: map<Pos, Plant>,
                           plants: map<Pos, Plant>, found: seq<Pos>, sibs: seq<Pos>, i: int) {
    0 <= i <= |sibs| &&
    Grows(p0, plants, sig, author) && Stamped(p0, plants, sig, found) &&
    Distinct(found) && (forall q :: q in found ==> m.Reachable(p, q)) &&
    (forall j :: 0 <= j < i ==> sibs[j] in plants && plants[sibs[j]].password == sig) &&
    (forall q :: q in found ==> SiblingsStamped(m, plants, sig, q))
  }

  lemma {:induction false} SearchStep(m: GardenMap, p: Pos, sig: nat, author: Pos, p0: map<Pos, Plant>,
                   p1: map<Pos, Plant>, p3: map<Pos, Plant>, found: seq<Pos>, sibs: seq<Pos>, i: int, more: seq<Pos>)
    requires Searched(m, p, sig, author, p0, p1, found, sibs, i) && i < |sibs|
    requires m.IsSibling(p, sibs[i]) && sibs[i] in p1 && p1[sibs[i]].password != sig
    requires var p2 := p1[sibs[i] := Plant(sig, author, true)];
      Grows(p2, p3, sig, author) && Stamped(p2, p3, sig, more) && Distinct(more)
    requires forall q :: q in more ==> m.Reachable(sibs[i], q)
    requires SiblingsStamped(m, p3, sig, sibs[i]) && forall q :: q in more ==> SiblingsStamped(m, p3, sig, q)
    ensures Searched(m, p, sig, author, p0, p3, found + [sibs[i]] + more, sibs, i + 1)
  {
    var s := sibs[i];
    var p2 := p1[s := Plant(sig, author, true)];
    FoundStep(m, p, sig, author, p0, p1, p3, found, s, more);
    GrowsTrans(p1, p2, p3, sig, author);
    forall j | 0 <= j <= i
      ensures sibs[j] in p3 && p3[sibs[j]].password == sig
    {
    }
  }

  lemma {:induction false} SearchSkip(m: GardenMap, p: Pos, sig: nat, author: Pos, p0: map<Pos, Plant>,
                   plants: map<Pos, Plant>, found: seq<Pos>, sibs: seq<Pos>, i: int)
    requires Searched(m, p, sig, author, p0, plants, found, sibs, i) && i < |sibs|
    requires sibs[i] in plants && plants[sibs[i]].password == sig
    ensures Searched(m, p, sig, author, p0, plants, found, sibs, i + 1)
  {
  }

  lemma {:induction false} SearchDone(m: GardenMap, p: Pos, sig: nat, author: Pos, p0: map<Pos, Plant>,
                   plants: map<Pos, Plant>, found: seq<Pos>, sibs: seq<Pos>)
    requires Searched(m, p, sig, author, p0, plants, found, sibs, |sibs|) && sibs == m.FindSiblings(p)
    ensures SiblingsStamped(m, plants, sig, p)
  {
    forall s | m.IsSibling(p, s)
      ensures s in plants && plants[s].password == sig
    {
      var j :| 0 <= j < |sibs| && sibs[j] == s;
    }
  }

  // ---------------------------------------------------------------------------
  // the garden

  /** `Garden`: the map, the plants' changing state keyed by position, the
      regions dictionary in key order, and the clock certificates are
      signed with. */
  class Garden {
    const map0: GardenMap
    var plants: map<Pos, Plant>
    var regions: seq<Region>
    var clock: nat

    /** There is a plant wherever `getPlant` finds one, and every password
        was signed before now. */
    ghost predicate Valid()
      reads this
    {
      (forall q :: q in plants <==> map0.HasPlant(q)) &&
      (forall q :: q in plants ==> plants[q].password < clock)
    }

    /** `Garden::__construct`: every plant starts unclaimed, with an empty
        password and its own name as region name. */
    constructor(lines: seq<string>)
      requires lines != []
      ensures map0 == ReadMap(lines) && regions == [] && Valid()
      ensures forall q :: q in plants ==> plants[q] == Plant(0, q, false)
    {
      var m := ReadMap(lines);
      map0 := m;
      plants := map y, x | 0 <= y < |m.names| && 0 <= x < |m.names[y]| && m.HasPlant(Pos(y, x)) :: Pos(y, x) := Plant(0, Pos(y, x), false);
      regions := [];
      clock := 1;
      new;
      forall q | m.HasPlant(q)
        ensures q in plants
      {
        assert 0 <= q.y < |m.names| && 0 <= q.x < |m.names[q.y]|;
        assert q == Pos(q.y, q.x);
      }
    }

    /** `Plant::applyCertificate` on the plant at `q`. */
    method ApplyCertificate(q: Pos, sig: nat, author: Pos)
      requires Valid() && q in plants && sig < clock
      modifies this`plants
      ensures Valid()
      ensures plants == old(plants)[q := Plant(sig, author, true)]
    {
      plants := plants[q := Plant(sig, author, true)];
    }

    /** `Plant::getSiblings` with a certificate, on the plant at `p`: each
        sibling not yet carrying the signature is stamped, listed, and
        searched in turn. What is listed is exactly what gets stamped, each
        once, all in the region of `p`, and afterwards every sibling of `p`
        and of what was listed carries the signature. */
    method GetSiblings(p: Pos, sig: nat, author: Pos) returns (found: seq<Pos>)
      requires Valid() && sig < clock
      modifies this`plants
      ensures Valid()
      ensures Grows(old(plants), plants, sig, author) && Stamped(old(plants), plants, sig, found)
      ensures Distinct(found) && forall q :: q in found ==> map0.Reachable(p, q)
      ensures SiblingsStamped(map0, plants, sig, p)
      ensures forall q :: q in found ==> SiblingsStamped(map0, plants, sig, q)
      decreases |Unstamped(sig)|
    {
      var sibs := map0.FindSiblings(p);
      found := [];
      for i := 0 to |sibs|
        invariant Valid()
        invariant Searched(map0, p, sig, author, old(plants), plants, found, sibs, i)
      {
        var s := sibs[i];
        assert map0.IsSibling(p, s);
        if plants[s].password != sig {
          ghost var before := plants;
          ApplyCertificate(s, sig, author);
          UnstampedShrinks(old(plants), before, plants, sig, author, s);
          var more := GetSiblings(s, sig, author);
          SearchStep(map0, p, sig, author, old(plants), before, plants, found, sibs, i, more);
          found := found + [s] + more;
        } else {
          SearchSkip(map0, p, sig, author, old(plants), plants, found, sibs, i);
        }
      }
      SearchDone(map0, p, sig, author, old(plants), plants, found, sibs);
    }

    /** The plants not yet carrying `sig`. */
    ghost function Unstamped(sig: nat): set<Pos>
      reads this
    {
      set q | q in plants && plants[q].password != sig
    }

    /** `Garden::delimitRegions`: claims the regions in key order, setting
        the area and perimeter of each claimed one and dropping each whose
        head was already claimed. The kept regions list their heads'
        regions, pairwise apart, and the claimed plants are those claimed
        before and those the kept regions list. */
    method DelimitRegions()
      requires Valid()
      requires forall i, j :: 0 <= i < j < |regions| ==> regions[i] != regions[j]
      requires forall k :: 0 <= k < |regions| ==> regions[k].plants == [] && regions[k].head in plants
      modifies this`plants, this`clock, this`regions, regions
      ensures Valid()
      ensures forall r :: r in regions ==> r in old(regions)
      ensures forall r :: r in regions ==> r.Delimited(map0) && r.Price() == |r.plants| * map0.Perimeter(r.plants)
      ensures forall a, b, q :: 0 <= a < b < |regions| && q in regions[a].plants ==> q !in regions[b].plants
      ensures forall q :: q in plants ==>
        (plants[q].claimed <==> old(plants[q].claimed) || exists r :: r in regions && q in r.plants)
      ensures forall k :: 0 <= k < |old(regions)| ==> plants[old(regions)[k].head].claimed
    {
      ghost var r0, p0 := regions, plants;
      var rs;
      ghost var t;
      rs, t := ClaimAll(regions);
      KeptRegions(r0, p0, t);
      regions := rs;
    }

    /** The loop of `delimitRegions` over the regions `r0`, which returns
        those kept. */
    method ClaimAll(r0: seq<Region>) returns (rs: seq<Region>, ghost t: Tally)
      requires Delimiting(r0, plants, Tally(0, [], [], [], []))
      modifies this`plants, this`clock, r0
      ensures Delimiting(r0, old(plants), t) && t.next == |r0| && rs == t.kept
    {
      var i := 0;
      rs := r0;
      ghost var p0 := plants;
      t := Tally(0, [], [], [], []);
      while i < |rs|
        invariant 0 <= t.next <= |r0| && |t.kept| == i && rs == t.kept + r0[t.next..]
        invariant Delimiting(r0, p0, t)
        decreases |r0| - t.next
      {
        Front(rs, t.kept, r0, t.next);
        var r := rs[i];
        var ok;
        ok, t := Delimit(r, r0, p0, t);
        if ok {
          i := i + 1;
        } else {
          rs := rs[..i] + rs[i + 1..];
        }
      }
      assert r0[t.next..] == [];
    }

    /** The state of `delimitRegions`' loop over the regions `r0`, `p0`
        being the plants before the loop (see `Tally`). */
    ghost predicate Delimiting(r0: seq<Region>, p0: map<Pos, Plant>, t: Tally)
      reads this, r0, t.kept
    {
      match t
      case Tally(j, kept, from, heads, lists) =>
        Valid() && Progress(map0, r0, p0, plants, t) && Unclaimed(r0, j) && Filled(map0, kept, heads, lists)
    }

    /** One turn of `delimitRegions`' loop, on the next region `r` of
        `r0`: claim it, and set its area and perimeter when the claim
        succeeds; the region is kept exactly when the claim succeeds. */
    method Delimit(r: Region, ghost r0: seq<Region>, ghost p0: map<Pos, Plant>, ghost t: Tally)
      returns (ok: bool, ghost t': Tally)
      requires Delimiting(r0, p0, t) && t.next < |r0| && r == r0[t.next]
      modifies this`plants, this`clock, r
      ensures t'.next == t.next + 1 && t'.kept == if ok then t.kept + [r] else t.kept
      ensures Delimiting(r0, p0, t')
    {
      assert r !in t.kept by {
        assert forall k :: 0 <= k < |t.kept| ==> t.kept[k] != r;
      }
      assert forall k :: t.next < k < |r0| ==> r0[k] != r;
      ok, t' := ClaimRegion(r, r0, p0, t);
      assert Filled(map0, t.kept, t.heads, t.lists) && Unclaimed(r0, t.next + 1);
      if ok {
        FilledStep(map0, t.kept, t.heads, t.lists, r);
      }
    }

    /** Claims region `r`, the next of `r0`, and, when the claim succeeds,
        sets its area and perimeter. */
    method ClaimRegion(r: Region, ghost r0: seq<Region>, ghost p0: map<Pos, Plant>, ghost t: Tally)
      returns (ok: bool, ghost t': Tally)
      requires Valid() && Progress(map0, r0, p0, plants, t) && t.next < |r0| && r == r0[t.next] && r.plants == []
      modifies this`plants, this`clock, r
      ensures Valid() && Progress(map0, r0, p0, plants, t')
      ensures ok ==> t' == Tally(t.next + 1, t.kept + [r], t.from + [t.next], t.heads + [r.head], t.lists + [r.plants])
      ensures ok ==> r.area == |r.plants| && r.perimeter == map0.Perimeter(r.plants)
      ensures !ok ==> t' == t.(next := t.next + 1)
    {
      ghost var before := plants;
      ok := r.ClaimPlants(this);
      if ok {
        assert r.plants == [r.head] + r.plants[1..|r.plants|];
        KeepStep(map0, p0, before, plants, t.heads, t.lists, r.head, r.plants);
        r.SetArea();
        r.SetPerimeter(map0);
        map0.ReachSelf(r.head);
        ProgressKeep(map0, r0, p0, before, plants, t, r, r.plants);
        t' := Tally(t.next + 1, t.kept + [r], t.from + [t.next], t.heads + [r.head], t.lists + [r.plants]);
      } else {
        ProgressSkip(map0, r0, p0, plants, t);
        t' := t.(next := t.next + 1);
      }
    }

    /** The kept regions, as their heads and lists, describe the regions
        dictionary after `delimitRegions`. */
    lemma {:induction false} KeptRegions(r0: seq<Region>, p0: map<Pos, Plant>, t: Tally)
      requires Delimiting(r0, p0, t) && t.next == |r0|
      ensures Valid()
      ensures forall r :: r in t.kept ==> r in r0
      ensures forall k :: 0 <= k < |r0| ==> plants[r0[k].head].claimed
      ensures forall r :: r in t.kept ==> r.Delimited(map0) && r.Price() == |r.plants| * map0.Perimeter(r.plants)
      ensures forall a, b, q :: 0 <= a < b < |t.kept| && q in t.kept[a].plants ==> q !in t.kept[b].plants
      ensures forall q :: q in plants ==>
        (plants[q].claimed <==> (q in p0 && p0[q].claimed) || exists r :: r in t.kept && q in r.plants)
    {
      var rs, lists := t.kept, t.lists;
      assert Progress(map0, r0, p0, plants, t) && Filled(map0, rs, t.heads, lists);
      forall r | r in rs
        ensures r in r0 && r.Delimited(map0) && r.Price() == |r.plants| * map0.Perimeter(r.plants)
      {
        var k :| 0 <= k < |rs| && rs[k] == r;
        assert r0[t.from[k]] == r;
        assert r.head == t.heads[k] && r.plants == lists[k] && map0.Listing(t.heads[k], lists[k]);
      }
      KeptApart(map0, p0, plants, rs, t.heads, lists);
    }

    lemma {:induction false} UnstampedShrinks(p0: map<Pos, Plant>, p1: map<Pos, Plant>, p2: map<Pos, Plant>, sig: nat, author: Pos, s: Pos)
      requires Grows(p0, p1, sig, author) && s in p1 && p1[s].password != sig
      requires p2 == p1[s := Plant(sig, author, true)]
      ensures |set q | q in p2 && p2[q].password != sig| < |set q | q in p0 && p0[q].password != sig|
    {
      var a, b := set q | q in p2 && p2[q].password != sig, set q | q in p0 && p0[q].password != sig;
      assert a <= b - {s};
      assert s in b;
      SubsetCard(a, b - {s});
    }
  }

  // ---------------------------------------------------------------------------
  // delimiting regions

  /** The regions kept so far, as their heads and plant lists: each lists
      its head's region, they are pairwise apart, and a plant is claimed
      when it was claimed in `p0` or is listed. */
  ghost predicate Kept(m: GardenMap, p0: map<Pos, Plant>, plants: map<Pos, Plant>, heads: seq<Pos>, lists: seq<seq<Pos>>) {
    |heads| == |lists| &&
    (forall k :: 0 <= k < |lists| ==> m.Listing(heads[k], lists[k])) &&
    (forall a, b, q :: 0 <= a < b < |lists| && q in lists[a] ==> q !in lists[b]) &&
    (forall q :: q in plants ==>
      (plants[q].claimed <==> (q in p0 && p0[q].claimed) || exists k :: 0 <= k < |lists| && q in lists[k]))
  }

  /** The state of `delimitRegions`' loop over the regions `r0`: the
      first `next` are done, `kept` are those kept, the `k`-th being region
      `from[k]`, and `heads` and `lists` are their heads and plant lists. */
  datatype Tally = Tally(next: int, kept: seq<Region>, from: seq<int>, heads: seq<Pos>, lists: seq<seq<Pos>>)

  /** The heap-free part of the loop state (see `Garden.Delimiting`), with
      `plants` the garden's plants and `p0` those before the loop. */
  ghost predicate Progress(m: GardenMap, r0: seq<Region>, p0: map<Pos, Plant>, plants: map<Pos, Plant>, t: Tally) {
    0 <= t.next <= |r0| && |t.kept| == |t.from| &&
    (forall a, b :: 0 <= a < b < |r0| ==> r0[a] != r0[b]) &&
    (forall k :: 0 <= k < |t.kept| ==> 0 <= t.from[k] < t.next && t.kept[k] == r0[t.from[k]]) &&
    plants.Keys == p0.Keys &&
    (forall k :: 0 <= k < |r0| ==> r0[k].head in plants) &&
    Kept(m, p0, plants, t.heads, t.lists) &&
    (forall k :: 0 <= k < t.next ==> plants[r0[k].head].claimed)
  }

  /** A turn of the loop that keeps region `r`, whose plant list is `ps`,
      keeps the heap-free part of its state. */
  lemma {:induction false} ProgressKeep(m: GardenMap, r0: seq<Region>, p0: map<Pos, Plant>, before: map<Pos, Plant>, plants: map<Pos, Plant>,
                     t: Tally, r: Region, ps: seq<Pos>)
    requires Progress(m, r0, p0, before, t) && t.next < |r0| && r == r0[t.next]
    requires plants.Keys == before.Keys && plants[r.head].claimed
    requires forall q :: q in before && before[q].claimed ==> plants[q].claimed
    requires Kept(m, p0, plants, t.heads + [r.head], t.lists + [ps])
    ensures Progress(m, r0, p0, plants, Tally(t.next + 1, t.kept + [r], t.from + [t.next], t.heads + [r.head], t.lists + [ps]))
  {
  }

  /** A turn of the loop that drops its region, leaving the plants as they
      were, keeps the heap-free part of its state. */
  lemma {:induction false} ProgressSkip(m: GardenMap, r0: seq<Region>, p0: map<Pos, Plant>, plants: map<Pos, Plant>, t: Tally)
    requires Progress(m, r0, p0, plants, t) && t.next < |r0| && plants[r0[t.next].head].claimed
    ensures Progress(m, r0, p0, plants, t.(next := t.next + 1))
  {
  }

  /** Regions `rs` carry the heads `heads` and the lists `lists`, with
      area and perimeter set from the lists. */
  ghost predicate Filled(m: GardenMap, rs: seq<Region>, heads: seq<Pos>, lists: seq<seq<Pos>>)
    reads rs
  {
    |rs| == |heads| == |lists| &&
    forall k :: 0 <= k < |rs| ==>
      rs[k].head == heads[k] && rs[k].plants == lists[k] &&
      rs[k].area == |lists[k]| && rs[k].perimeter == m.Perimeter(lists[k])
  }

  /** The next region to delimit is at the front of those left. */
  lemma {:induction false} Front(regions: seq<Region>, done: seq<Region>, r0: seq<Region>, j: int)
    requires 0 <= j < |r0| && regions == done + r0[j..]
    ensures regions[|done|] == r0[j] && regions == done + [r0[j]] + r0[j + 1..]
    ensures regions[..|done|] + regions[|done| + 1..] == done + r0[j + 1..]
  {
    assert r0[j..] == [r0[j]] + r0[j + 1..];
    assert regions[..|done|] == done;
    assert regions[|done| + 1..] == r0[j + 1..];
  }

  lemma {:induction false} FilledStep(m: GardenMap, rs: seq<Region>, heads: seq<Pos>, lists: seq<seq<Pos>>, r: Region)
    requires Filled(m, rs, heads, lists) && r.area == |r.plants| && r.perimeter == m.Perimeter(r.plants)
    ensures Filled(m, rs + [r], heads + [r.head], lists + [r.plants])
  {
  }

  /** Regions filled from kept lists are pairwise apart, and the claimed
      plants are those claimed before and those they list. */
  lemma {:induction false} KeptApart(m: GardenMap, p0: map<Pos, Plant>, plants: map<Pos, Plant>, rs: seq<Region>,
                  heads: seq<Pos>, lists: seq<seq<Pos>>)
    requires Filled(m, rs, heads, lists) && Kept(m, p0, plants, heads, lists)
    ensures forall a, b, q :: 0 <= a < b < |rs| && q in rs[a].plants ==> q !in rs[b].plants
    ensures forall q :: q in plants ==>
      (plants[q].claimed <==> (q in p0 && p0[q].claimed) || exists r :: r in rs && q in r.plants)
  {
    forall q | q in plants && (exists k :: 0 <= k < |lists| && q in lists[k])
      ensures exists r :: r in rs && q in r.plants
    {
      var k :| 0 <= k < |lists| && q in lists[k];
      assert rs[k] in rs;
    }
    forall q | q in plants && (exists r :: r in rs && q in r.plants)
      ensures exists k :: 0 <= k < |lists| && q in lists[k]
    {
      var r :| r in rs && q in r.plants;
      var k :| 0 <= k < |rs| && rs[k] == r;
      assert q in lists[k];
    }
  }

  /** Regions `rs` from index `from` on have claimed nothing yet. */
  ghost predicate Unclaimed(rs: seq<Region>, from: int)
    reads rs
  {
    forall k :: 0 <= k < |rs| && from <= k ==> rs[k].plants == []
  }

  /** A region claimed from an unclaimed head is kept: its list is apart
      from the others, since their plants are all claimed. */
  lemma {:induction false} KeepStep(m: GardenMap, p0: map<Pos, Plant>, p1: map<Pos, Plant>, p2: map<Pos, Plant>,
                 heads: seq<Pos>, lists: seq<seq<Pos>>, h: Pos, ps: seq<Pos>)
    requires Kept(m, p0, p1, heads, lists) && h in p1 && !p1[h].claimed
    requires p2.Keys == p1.Keys && forall q :: q in p1 ==> p2[q].claimed == (p1[q].claimed || m.Reachable(h, q))
    requires m.Listing(h, ps)
    ensures Kept(m, p0, p2, heads + [h], lists + [ps])
  {
    var heads', lists' := heads + [h], lists + [ps];
    forall a | 0 <= a < |lists|
      ensures forall q :: q in lists[a] ==> q !in ps
    {
      assert m.Listing(heads[a], lists[a]);
      if h in lists[a] {
        assert false;
      }
      ListingsApart(m, heads[a], lists[a], h, ps);
    }
    forall a, b, q | 0 <= a < b < |lists'| && q in lists'[a]
      ensures q !in lists'[b]
    {
      if b == |lists| {
        assert lists'[a] == lists[a] && lists'[b] == ps;
      } else {
        assert lists'[a] == lists[a] && lists'[b] == lists[b];
      }
    }
    forall q | q in p2
      ensures p2[q].claimed <==> (q in p0 && p0[q].claimed) || exists k :: 0 <= k < |lists'| && q in lists'[k]
    {
      if q in ps {
        assert lists'[|lists|] == ps;
      }
      if exists k :: 0 <= k < |lists'| && q in lists'[k] {
        var k :| 0 <= k < |lists'| && q in lists'[k];
        if k < |lists| {
          assert lists'[k] == lists[k];
        }
      }
      if exists k :: 0 <= k < |lists| && q in lists[k] {
        var k :| 0 <= k < |lists| && q in lists[k];
        assert lists'[k] == lists[k];
      }
    }
  }

  // ---------------------------------------------------------------------------
  // regions

  /** `Region`: its head plant, the plants it lists, its area and its
      perimeter. */
  class Region {
    const head: Pos
    var plants: seq<Pos>
    var area: int
    var perimeter: int

    constructor(head: Pos)
      ensures this.head == head && plants == [] && area == 0 && perimeter == 0
    {
      this.head := head;
      plants := [];
      area := 0;
      perimeter := 0;
    }

    /** `Region::claimPlants`: fails on a head already claimed; otherwise
        stamps the head's region with a fresh certificate and lists it
        after the head (spliced in at index 1). */
    method ClaimPlants(g: Garden) returns (ok: bool)
      requires g.Valid() && head in g.plants
      modifies this`plants, g`plants, g`clock
      ensures g.Valid()
      ensures ok == !old(g.plants[head].claimed)
      ensures !ok ==> plants == old(plants) && g.plants == old(g.plants)
      ensures ok ==> g.plants.Keys == old(g.plants.Keys)
      ensures ok ==> forall q :: q in old(g.plants) ==>
        g.plants[q].claimed == (old(g.plants[q].claimed) || g.map0.Reachable(head, q))
      ensures ok ==> forall q :: q in old(g.plants) && g.map0.Reachable(head, q) ==> g.plants[q].regionName == head
      ensures ok ==> var w := old(plants) + [head]; var k := |plants| - |w|;
        k >= 0 && plants == w[..1] + plants[1..k + 1] + w[1..] && g.map0.Listing(head, [head] + plants[1..k + 1])
    {
      if g.plants[head].claimed {
        return false;
      }
      ghost var p0 := g.plants;
      var sig := g.clock;
      g.clock := g.clock + 1;
      g.ApplyCertificate(head, sig, head);
      ghost var p1 := g.plants;
      var w := plants + [head];
      var found := g.GetSiblings(head, sig, head);
      plants := w[..1] + found + w[1..];
      ok := true;
      assert plants[1..|found| + 1] == found;
      ClaimedRegion(g.map0, head, sig, p0, p1, g.plants, found);
    }

    /** `Region::setArea`. */
    method SetArea()
      modifies this`area
      ensures area == |plants|
    {
      area := |plants|;
    }

    /** `Region::setPerimeter`. */
    method SetPerimeter(m: GardenMap)
      modifies this`perimeter
      ensures perimeter == m.Perimeter(plants)
    {
      perimeter := m.Perimeter(plants);
    }

    /** `Region::getPrice`: nothing to pay for an empty region or one
        without fence; otherwise at least the area and at least the
        perimeter. */
    function Price(): (r: int)
      reads this
      ensures r == 0 <==> area == 0 || perimeter == 0
      ensures area > 0 && perimeter > 0 ==> r >= area && r >= perimeter
    {
      if area > 0 && perimeter > 0 then
        MulGrows(area, perimeter);
        MulGrows(perimeter, area);
        area * perimeter
      else area * perimeter
    }

    /** A region as `delimitRegions` keeps it: its plants list its head's
        region, and its area and perimeter are set from them. */
    ghost predicate Delimited(m: GardenMap)
      reads this
    {
      m.Listing(head, plants) && area == |plants| && perimeter == m.Perimeter(plants)
    }
  }

  /** What a claim leaves behind: the head and what the search found are
      exactly the head's region, and they are the plants that got claimed. */
  lemma {:induction false} ClaimedRegion(m: GardenMap, head: Pos, sig: nat, p0: map<Pos, Plant>, p1: map<Pos, Plant>,
                      p3: map<Pos, Plant>, found: seq<Pos>)
    requires head in p0 && (forall q :: q in p0 ==> p0[q].password < sig)
    requires p1 == p0[head := Plant(sig, head, true)]
    requires Grows(p1, p3, sig, head) && Stamped(p1, p3, sig, found)
    requires Distinct(found) && forall q :: q in found ==> m.Reachable(head, q)
    requires SiblingsStamped(m, p3, sig, head) && forall q :: q in found ==> SiblingsStamped(m, p3, sig, q)
    ensures m.Listing(head, [head] + found)
    ensures forall q :: q in p0 ==> p3[q].claimed == (p0[q].claimed || m.Reachable(head, q))
    ensures forall q :: q in p0 && m.Reachable(head, q) ==> p3[q].regionName == head
  {
    var ps := [head] + found;
    forall q | q in ps
      ensures q in p3 && p3[q].password == sig
    {
    }
    forall q, s | q in ps && m.IsSibling(q, s)
      ensures s in ps
    {
      assert SiblingsStamped(m, p3, sig, q);
      if s != head {
        assert s in p1 && p1[s].password != sig;
      }
    }
    forall q | m.Reachable(head, q)
      ensures q in ps
    {
      var path :| m.Path(path, head, q);
      m.ReachClosed(ps, path, head, q);
    }
    m.ReachSelf(head);
    forall i, j | 0 <= i < j < |ps|
      ensures ps[i] != ps[j]
    {
      if i == 0 {
        assert ps[j] == found[j - 1] && ps[j] in found;
      } else {
        assert ps[i] == found[i - 1] && ps[j] == found[j - 1];
      }
    }
  }
}
