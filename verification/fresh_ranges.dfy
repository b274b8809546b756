/** 2025/05: ingredient id ranges. Part 1 flags each ingredient that some range
    contains; part 2 merges the ranges into non-overlapping ones and adds up
    their widths. Ids and bounds are read as floats by the source and are
    integers here. */
module FreshRanges {
  import opened Common

  /** A range of ids, both ends included. */
  datatype Range = Range(min: int, max: int)

  datatype Ingredient = Ingredient(id: int, isFresh: bool)

  /** `Range::contains`: inclusive at both ends; a range whose lower bound
      is above its upper bound contains nothing. */
  predicate Contains(r: Range, id: int): (b: bool)
    ensures b ==> r.min <= r.max
    ensures id == r.min || id == r.max ==> (b <==> r.min <= r.max)
  {
    r.min <= id && id <= r.max
  }

  /** Every range of `rs` has its lower bound at most its upper bound. */
  predicate WellFormed(rs: seq<Range>) {
    forall j :: 0 <= j < |rs| ==> rs[j].min <= rs[j].max
  }

  /** `findKey`: the first position whose range contains `id`, if any. */
  function FindKey(rs: seq<Range>, id: int): (k: Option<nat>)
    ensures k.Some? ==> k.value < |rs| && Contains(rs[k.value], id)
    ensures k.Some? ==> forall j :: 0 <= j < k.value ==> !Contains(rs[j], id)
    ensures k.None? <==> forall j :: 0 <= j < |rs| ==> !Contains(rs[j], id)
  {
    if rs == [] then None
    else if Contains(rs[0], id) then Some(0)
    else match FindKey(rs[1..], id)
      case None => None
      case Some(j) => Some(j + 1)
  }

  // ---------------------------------------------------------------------------
  // The ids a list of ranges covers

  /** The ids of one range. */
  function Cells(r: Range): (c: set<int>)
    ensures forall id :: id in c <==> Contains(r, id)
    decreases r.max - r.min
  {
    if r.max < r.min then {} else Cells(r.(max := r.max - 1)) + {r.max}
  }

  /** The ids some range of `rs` contains. */
  function CoverSet(rs: seq<Range>): (c: set<int>)
    ensures forall id :: id in c <==> exists j :: 0 <= j < |rs| && Contains(rs[j], id)
  {
    if rs == [] then {}
    else
      var rest := CoverSet(rs[1..]);
      assert forall id :: id in rest <==> exists j :: 1 <= j < |rs| && Contains(rs[j], id) by {
        forall id | id in rest ensures exists j :: 1 <= j < |rs| && Contains(rs[j], id) {
          var j :| 0 <= j < |rs[1..]| && Contains(rs[1..][j], id);
          assert Contains(rs[j + 1], id);
        }
        forall id | exists j :: 1 <= j < |rs| && Contains(rs[j], id) ensures id in rest {
          var j :| 1 <= j < |rs| && Contains(rs[j], id);
          assert Contains(rs[1..][j - 1], id);
        }
      }
      Cells(rs[0]) + rest
  }

  /** How many ranges of `rs` contain `id`. */
  function CountCover(rs: seq<Range>, id: int): nat {
    if rs == [] then 0 else (if Contains(rs[0], id) then 1 else 0) + CountCover(rs[1..], id)
  }

  /** No id lies in two ranges of `rs`. */
  ghost predicate Disjoint(rs: seq<Range>) {
    forall id :: CountCover(rs, id) <= 1
  }

  /** Two different positions whose ranges contain `id` count twice. */
  lemma {:induction false} CountCoverTwo(rs: seq<Range>, a: nat, b: nat, id: int)
    requires a < b < |rs| && Contains(rs[a], id) && Contains(rs[b], id)
    ensures CountCover(rs, id) >= 2
    decreases |rs|
  {
    if a == 0 {
      CountCoverAt(rs[1..], b - 1, id);
    } else {
      CountCoverTwo(rs[1..], a - 1, b - 1, id);
    }
  }

  /** A position whose range contains `id` counts once. */
  lemma {:induction false} CountCoverAt(rs: seq<Range>, a: nat, id: int)
    requires a < |rs| && Contains(rs[a], id)
    ensures CountCover(rs, id) >= 1
    decreases |rs|
  {
    if a > 0 {
      CountCoverAt(rs[1..], a - 1, id);
    }
  }

  lemma {:induction false} CountCoverAppend(u: seq<Range>, r: Range, id: int)
    ensures CountCover(u + [r], id) == CountCover(u, id) + (if Contains(r, id) then 1 else 0)
    decreases |u|
  {
    if u != [] {
      assert (u + [r])[1..] == u[1..] + [r];
      CountCoverAppend(u[1..], r, id);
    }
  }

  lemma {:induction false} CountCoverUpdate(u: seq<Range>, k: nat, v: Range, id: int)
    requires k < |u|
    ensures CountCover(u[k := v], id) + (if Contains(u[k], id) then 1 else 0)
      == CountCover(u, id) + (if Contains(v, id) then 1 else 0)
    decreases |u|
  {
    if k > 0 {
      assert u[k := v][1..] == u[1..][k - 1 := v];
      CountCoverUpdate(u[1..], k - 1, v, id);
    } else {
      assert u[k := v][1..] == u[1..];
    }
  }

  /** The ids of `s[..i+1]` are those of `s[..i]` and those of `s[i]`. */
  lemma {:induction false} CoverSetSnoc(s: seq<Range>, i: nat)
    requires i < |s|
    ensures CoverSet(s[..i + 1]) == CoverSet(s[..i]) + Cells(s[i])
  {
    var a, b := CoverSet(s[..i + 1]), CoverSet(s[..i]) + Cells(s[i]);
    forall id ensures id in a <==> id in b {
      if id in a {
        var j :| 0 <= j < i + 1 && Contains(s[..i + 1][j], id);
        if j < i { assert Contains(s[..i][j], id); }
      }
      if id in CoverSet(s[..i]) {
        var j :| 0 <= j < i && Contains(s[..i][j], id);
        assert Contains(s[..i + 1][j], id);
      }
      if id in Cells(s[i]) {
        assert Contains(s[..i + 1][i], id);
      }
    }
  }

  /** A range of `u` that contains `id` makes `id` covered. */
  lemma {:induction false} CoveredAt(u: seq<Range>, a: nat, id: int)
    requires a < |u| && Contains(u[a], id)
    ensures id in CoverSet(u)
  {
  }

  // ---------------------------------------------------------------------------
  // sortRange and usort

  /** `sortRange`: by lower bound, then by upper bound. */
  function SortRange(a: Range, b: Range): (r: int)
    ensures -1 <= r <= 1
    ensures r == 0 <==> a == b
    ensures r <= 0 <==> (a.min < b.min || (a.min == b.min && a.max <= b.max))
    ensures r >= 0 <==> (a.min > b.min || (a.min == b.min && a.max >= b.max))
  {
    if a.min < b.min then -1
    else if a.min > b.min then 1
    else if a.max < b.max then -1
    else if a.max > b.max then 1
    else 0
  }

  /** The comparator is a total order on ranges: antisymmetric, only equal
      ranges compare as 0, and transitive. */
  lemma {:induction false} SortRangeTotalOrder(a: Range, b: Range, c: Range)
    ensures SortRange(a, b) == -SortRange(b, a)
    ensures SortRange(a, b) == 0 <==> a == b
    ensures SortRange(a, b) <= 0 && SortRange(b, c) <= 0 ==> SortRange(a, c) <= 0
    ensures SortRange(a, b) <= 0 <==> (a.min < b.min || (a.min == b.min && a.max <= b.max))
  {
  }

  predicate Sorted(v: seq<Range>) {
    forall i, j :: 0 <= i < j < |v| ==> SortRange(v[i], v[j]) <= 0
  }

  /** Insertion into a sorted list, in front of the first range not below `x`. */
  function Insert(x: Range, v: seq<Range>): (r: seq<Range>)
    ensures |r| == |v| + 1
  {
    if v == [] then [x]
    else if SortRange(x, v[0]) <= 0 then [x] + v
    else [v[0]] + Insert(x, v[1..])
  }

  /** `usort($rs, sortRange)`. Only equal ranges tie, so every sorting algorithm
      gives this list. */
  function Sort(u: seq<Range>): (r: seq<Range>)
    ensures |r| == |u|
  {
    if u == [] then [] else Insert(u[0], Sort(u[1..]))
  }

  lemma {:induction false} InsertSorted(x: Range, v: seq<Range>)
    requires Sorted(v)
    ensures Sorted(Insert(x, v)) && multiset(Insert(x, v)) == multiset(v) + multiset{x}
    decreases |v|
  {
    if v == [] {
    } else if SortRange(x, v[0]) <= 0 {
      InsertFront(x, v);
    } else {
      var w := Insert(x, v[1..]);
      InsertSorted(x, v[1..]);
      assert v == [v[0]] + v[1..];
      InsertSortedHead(v[0], x, v[1..], w);
    }
  }

  /** A range not above the first of a sorted list goes in front of it. */
  lemma {:induction false} InsertFront(x: Range, v: seq<Range>)
    requires Sorted(v) && v != [] && SortRange(x, v[0]) <= 0
    ensures Sorted([x] + v)
  {
    forall i, j | 0 <= i < j < |[x] + v| ensures SortRange(([x] + v)[i], ([x] + v)[j]) <= 0 {
      if i == 0 {
        if j > 1 { SortRangeTotalOrder(x, v[0], v[j - 1]); }
      } else {
        assert ([x] + v)[i] == v[i - 1] && ([x] + v)[j] == v[j - 1];
      }
    }
  }

  /** A range below `x` and below every range of `t` stays in front of `w`. */
  lemma {:induction false} InsertSortedHead(h: Range, x: Range, t: seq<Range>, w: seq<Range>)
    requires Sorted(w) && multiset(w) == multiset(t) + multiset{x}
    requires SortRange(x, h) > 0 && forall j :: 0 <= j < |t| ==> SortRange(h, t[j]) <= 0
    ensures Sorted([h] + w)
  {
    forall i, j | 0 <= i < j < |[h] + w| ensures SortRange(([h] + w)[i], ([h] + w)[j]) <= 0 {
      if i == 0 {
        var y := w[j - 1];
        assert y in multiset(w);
        if y == x {
          SortRangeTotalOrder(x, h, x);
        } else {
          assert y in multiset(t);
        }
      } else {
        assert ([h] + w)[i] == w[i - 1] && ([h] + w)[j] == w[j - 1];
      }
    }
  }

  lemma {:induction false} InsertCounts(x: Range, v: seq<Range>, id: int)
    ensures CountCover(Insert(x, v), id) == CountCover(v, id) + (if Contains(x, id) then 1 else 0)
    ensures CoverSet(Insert(x, v)) == CoverSet(v) + Cells(x)
    decreases |v|
  {
    if v == [] {
    } else if SortRange(x, v[0]) <= 0 {
      assert ([x] + v)[1..] == v;
    } else {
      InsertCounts(x, v[1..], id);
      assert ([v[0]] + Insert(x, v[1..]))[1..] == Insert(x, v[1..]);
    }
  }

  /** `usort` yields a sorted permutation. */
  lemma {:induction false} SortSorted(u: seq<Range>)
    ensures Sorted(Sort(u)) && multiset(Sort(u)) == multiset(u)
    decreases |u|
  {
    if u != [] {
      SortSorted(u[1..]);
      InsertSorted(u[0], Sort(u[1..]));
      assert u == [u[0]] + u[1..];
    }
  }

  /** Sorting covers the same ids, each as often. */
  lemma {:induction false} SortCounts(u: seq<Range>, id: int)
    ensures CountCover(Sort(u), id) == CountCover(u, id)
    ensures CoverSet(Sort(u)) == CoverSet(u)
    decreases |u|
  {
    if u != [] {
      SortCounts(u[1..], id);
      InsertCounts(u[0], Sort(u[1..]), id);
      assert CoverSet(u) == Cells(u[0]) + CoverSet(u[1..]);
    }
  }

  /** Sorting keeps every range: well-formedness, disjointness and the lower
      bounds carry over. */
  lemma {:induction false} SortKeeps(u: seq<Range>, bound: int)
    ensures WellFormed(u) ==> WellFormed(Sort(u))
    ensures Disjoint(u) ==> Disjoint(Sort(u))
    ensures (forall a :: 0 <= a < |u| ==> u[a].min <= bound) ==> forall a :: 0 <= a < |Sort(u)| ==> Sort(u)[a].min <= bound
    ensures CoverSet(Sort(u)) == CoverSet(u)
  {
    SortSorted(u);
    SortCounts(u, 0);
    forall a | 0 <= a < |Sort(u)| ensures exists b :: 0 <= b < |u| && u[b] == Sort(u)[a] {
      assert Sort(u)[a] in multiset(u);
    }
    forall id ensures CountCover(Sort(u), id) == CountCover(u, id) {
      SortCounts(u, id);
    }
  }

  // ---------------------------------------------------------------------------
  // Shared range objects

  /** The unique ranges hold the very `Range` objects of the sorted range list:
      `objs` is the current state of those objects, by position in the list,
      and `hs` the positions the unique ranges refer to, in their order. */
  ghost predicate Handles(objs: seq<Range>, hs: seq<nat>) {
    forall k :: 0 <= k < |hs| ==> hs[k] < |objs|
  }

  /** The ranges the handles `hs` refer to. */
  function Values(objs: seq<Range>, hs: seq<nat>): (v: seq<Range>)
    requires Handles(objs, hs)
    ensures |v| == |hs| && forall k :: 0 <= k < |hs| ==> v[k] == objs[hs[k]]
  {
    seq(|hs|, k requires 0 <= k < |hs| => objs[hs[k]])
  }

  /** No object is referred to twice. */
  ghost predicate Distinct(hs: seq<nat>) {
    forall h :: multiset(hs)[h] <= 1
  }

  lemma {:induction false} DistinctAt(hs: seq<nat>, a: nat, b: nat)
    requires Distinct(hs) && a < b < |hs|
    ensures hs[a] != hs[b]
  {
    var x, y, z := hs[..a], hs[a + 1..b], hs[b + 1..];
    assert hs == x + [hs[a]] + y + [hs[b]] + z;
    assert multiset(hs)[hs[a]] >= multiset([hs[a]] + [hs[b]])[hs[a]];
  }

  /** `usort` on the handles: ordered by the ranges they refer to. */
  function InsertBy(objs: seq<Range>, h: nat, hs: seq<nat>): (r: seq<nat>)
    requires h < |objs| && Handles(objs, hs)
    ensures multiset(r) == multiset(hs) + multiset{h} && Handles(objs, r)
  {
    if hs == [] then [h]
    else if SortRange(objs[h], objs[hs[0]]) <= 0 then [h] + hs
    else
      assert hs == [hs[0]] + hs[1..];
      [hs[0]] + InsertBy(objs, h, hs[1..])
  }

  function SortBy(objs: seq<Range>, hs: seq<nat>): (r: seq<nat>)
    requires Handles(objs, hs)
    ensures multiset(r) == multiset(hs) && Handles(objs, r)
  {
    if hs == [] then []
    else
      assert hs == [hs[0]] + hs[1..];
      InsertBy(objs, hs[0], SortBy(objs, hs[1..]))
  }

  lemma {:induction false} InsertByValues(objs: seq<Range>, h: nat, hs: seq<nat>)
    requires h < |objs| && Handles(objs, hs)
    ensures Values(objs, InsertBy(objs, h, hs)) == Insert(objs[h], Values(objs, hs))
    decreases |hs|
  {
    if hs == [] {
      assert Values(objs, [h]) == [objs[h]];
    } else if SortRange(objs[h], objs[hs[0]]) <= 0 {
      ValuesCons(objs, h, hs);
    } else {
      var t := hs[1..];
      assert hs == [hs[0]] + t;
      ValuesCons(objs, hs[0], t);
      InsertByValues(objs, h, t);
      ValuesCons(objs, hs[0], InsertBy(objs, h, t));
    }
  }

  lemma {:induction false} ValuesCons(objs: seq<Range>, h: nat, hs: seq<nat>)
    requires h < |objs| && Handles(objs, hs)
    ensures Values(objs, [h] + hs) == [objs[h]] + Values(objs, hs)
  {
    var l, r := Values(objs, [h] + hs), [objs[h]] + Values(objs, hs);
    assert forall k :: 0 <= k < |l| ==> l[k] == r[k];
  }

  /** Sorting the handles sorts the ranges they refer to. */
  lemma {:induction false} SortByValues(objs: seq<Range>, hs: seq<nat>)
    requires Handles(objs, hs)
    ensures Values(objs, SortBy(objs, hs)) == Sort(Values(objs, hs))
    decreases |hs|
  {
    if hs != [] {
      SortByValues(objs, hs[1..]);
      InsertByValues(objs, hs[0], SortBy(objs, hs[1..]));
      assert Values(objs, hs[1..]) == Values(objs, hs)[1..];
    }
  }

  /** The sharing the merge loop keeps over the sorted list `s`: the unique
      ranges `u` are the objects at the distinct positions `hs`, all of them
      already visited, and every object no unique range refers to still
      holds its range of `s`. */
  ghost predicate SharedInv(s: seq<Range>, i: nat, objs: seq<Range>, hs: seq<nat>, u: seq<Range>) {
    && |objs| == |s|
    && (forall k :: 0 <= k < |hs| ==> hs[k] < i && hs[k] < |objs|)
    && Distinct(hs)
    && u == Values(objs, hs)
    && (forall j :: 0 <= j < |s| && j !in hs ==> objs[j] == s[j])
  }

  /** Pushing the object at `i` and re-sorting. */
  lemma {:induction false} SharedNew(s: seq<Range>, i: nat, objs: seq<Range>, hs: seq<nat>, u: seq<Range>)
    requires i < |s| && SharedInv(s, i, objs, hs, u)
    ensures objs[i] == s[i] && Handles(objs, hs + [i])
    ensures SharedInv(s, i + 1, objs, SortBy(objs, hs + [i]), Sort(u + [s[i]]))
  {
    assert i !in hs;
    var hs' := hs + [i];
    ValuesSnoc(objs, hs, i);
    PushDistinct(hs, i);
    SortByValues(objs, hs');
    Reordered(s, i + 1, objs, hs', SortBy(objs, hs'));
  }

  lemma {:induction false} ValuesSnoc(objs: seq<Range>, hs: seq<nat>, h: nat)
    requires h < |objs| && Handles(objs, hs)
    ensures Values(objs, hs + [h]) == Values(objs, hs) + [objs[h]]
  {
    var l, r := Values(objs, hs + [h]), Values(objs, hs) + [objs[h]];
    assert forall k :: 0 <= k < |l| ==> l[k] == r[k];
  }

  lemma {:induction false} PushDistinct(hs: seq<nat>, h: nat)
    requires Distinct(hs) && h !in hs
    ensures Distinct(hs + [h])
  {
    forall x ensures multiset(hs + [h])[x] <= 1 {
      assert multiset(hs + [h])[x] == multiset(hs)[x] + multiset([h])[x];
    }
  }

  /** Handles listed in another order keep what the sharing invariant says
      of them. */
  lemma {:induction false} Reordered(s: seq<Range>, bound: nat, objs: seq<Range>, hs: seq<nat>, r: seq<nat>)
    requires |objs| == |s| && multiset(r) == multiset(hs) && Distinct(hs)
    requires forall k :: 0 <= k < |hs| ==> hs[k] < bound && hs[k] < |objs|
    requires forall j :: 0 <= j < |s| && j !in hs ==> objs[j] == s[j]
    ensures Distinct(r)
    ensures forall k :: 0 <= k < |r| ==> r[k] < bound && r[k] < |objs|
    ensures forall j :: 0 <= j < |s| && j !in r ==> objs[j] == s[j]
  {
    forall k | 0 <= k < |r| ensures r[k] < bound && r[k] < |objs| {
      assert r[k] in multiset(hs);
    }
    forall j | 0 <= j < |s| && j !in r ensures objs[j] == s[j] {
      assert j !in multiset(hs);
    }
  }

  /** Changing the object a unique range refers to changes that unique range
      and nothing else. */
  lemma {:induction false} SharedSet(s: seq<Range>, i: nat, objs: seq<Range>, hs: seq<nat>, u: seq<Range>, k: nat, v: Range)
    requires i < |s| && SharedInv(s, i, objs, hs, u) && k < |hs|
    ensures objs[i] == s[i]
    ensures SharedInv(s, i + 1, objs[hs[k] := v], hs, u[k := v])
  {
    assert i !in hs;
    var o := objs[hs[k]:= v];
    forall m | 0 <= m < |hs| && m != k ensures o[hs[m]] == objs[hs[m]] {
      if m < k { DistinctAt(hs, m, k); } else { DistinctAt(hs, k, m); }
    }
    assert Values(o, hs) == u[k := v];
  }

  /** The same, followed by re-sorting the handles. */
  lemma {:induction false} SharedSetSort(s: seq<Range>, i: nat, objs: seq<Range>, hs: seq<nat>, u: seq<Range>, k: nat, v: Range)
    requires i < |s| && SharedInv(s, i, objs, hs, u) && k < |hs|
    ensures objs[i] == s[i] && Handles(objs[hs[k] := v], hs)
    ensures SharedInv(s, i + 1, objs[hs[k] := v], SortBy(objs[hs[k] := v], hs), Sort(u[k := v]))
  {
    SharedSet(s, i, objs, hs, u, k, v);
    var o := objs[hs[k] := v];
    SortByValues(o, hs);
    Reordered(s, i + 1, o, hs, SortBy(o, hs));
  }

  /** Skipping a range changes nothing. */
  lemma {:induction false} SharedSkip(s: seq<Range>, i: nat, objs: seq<Range>, hs: seq<nat>, u: seq<Range>)
    requires i < |s| && SharedInv(s, i, objs, hs, u)
    ensures objs[i] == s[i] && SharedInv(s, i + 1, objs, hs, u)
  {
    assert i !in hs;
  }

  /** After the merge, the sorted list covers what it covered before: each of
      its objects holds either its own range or a unique range, and every
      unique range is one of them. */
  lemma {:induction false} SharedCover(s: seq<Range>, objs: seq<Range>, hs: seq<nat>, u: seq<Range>)
    requires SharedInv(s, |s|, objs, hs, u) && CoverSet(u) == CoverSet(s)
    ensures CoverSet(objs) == CoverSet(s)
  {
    forall id | id in CoverSet(objs) ensures id in CoverSet(s) {
      var j :| 0 <= j < |objs| && Contains(objs[j], id);
      if j in hs {
        var k :| 0 <= k < |hs| && hs[k] == j;
        assert Contains(u[k], id);
      }
    }
    forall id | id in CoverSet(s) ensures id in CoverSet(objs) {
      var k :| 0 <= k < |u| && Contains(u[k], id);
      assert Contains(objs[hs[k]], id);
    }
  }

  // ---------------------------------------------------------------------------
  // Widths

  /** `freshnessCountUnique`'s sum of max − min + 1. */
  function Width(rs: seq<Range>): int {
    if rs == [] then 0 else rs[0].max - rs[0].min + 1 + Width(rs[1..])
  }

  lemma {:induction false} CellsCard(r: Range)
    requires r.min <= r.max
    ensures |Cells(r)| == r.max - r.min + 1
    decreases r.max - r.min
  {
    var s := r.(max := r.max - 1);
    if r.min < r.max {
      CellsCard(s);
    }
    assert r.max !in Cells(s);
  }

  /** For well-formed, disjoint ranges the sum of the widths is the number of
      distinct ids they cover. */
  lemma {:induction false} WidthIsCoverCount(rs: seq<Range>)
    requires WellFormed(rs) && Disjoint(rs)
    ensures Width(rs) == |CoverSet(rs)|
    decreases |rs|
  {
    if rs != [] {
      var rest := rs[1..];
      TailKeeps(rs);
      WidthIsCoverCount(rest);
      CellsCard(rs[0]);
      HeadApart(rs);
      assert CoverSet(rs) == Cells(rs[0]) + CoverSet(rest);
    }
  }

  lemma {:induction false} TailKeeps(rs: seq<Range>)
    requires rs != [] && WellFormed(rs) && Disjoint(rs)
    ensures WellFormed(rs[1..]) && Disjoint(rs[1..])
  {
    var rest := rs[1..];
    forall j | 0 <= j < |rest| ensures rest[j].min <= rest[j].max {
      assert rest[j] == rs[j + 1];
    }
    forall id ensures CountCover(rest, id) <= 1 {
      assert CountCover(rest, id) <= CountCover(rs, id);
    }
  }

  /** In disjoint ranges the first range shares no id with the others. */
  lemma {:induction false} HeadApart(rs: seq<Range>)
    requires rs != [] && Disjoint(rs)
    ensures Cells(rs[0]) * CoverSet(rs[1..]) == {}
  {
    forall id | id in Cells(rs[0]) && id in CoverSet(rs[1..]) ensures false {
      var j :| 0 <= j < |rs[1..]| && Contains(rs[1..][j], id);
      assert Contains(rs[j + 1], id);
      CountCoverTwo(rs, 0, j + 1, id);
    }
  }

  /** `array_reduce` counting the fresh flags. */
  function CountFresh(ings: seq<Ingredient>): nat {
    if ings == [] then 0 else CountFresh(ings[..|ings| - 1]) + (if ings[|ings| - 1].isFresh then 1 else 0)
  }

  /** `freshnessCount` is the number of ingredients flagged fresh. */
  lemma {:induction false} CountFreshIsCount(ings: seq<Ingredient>)
    ensures CountFresh(ings) == |set k | 0 <= k < |ings| && ings[k].isFresh|
    decreases |ings|
  {
    if ings != [] {
      var n := |ings| - 1;
      var init := ings[..n];
      CountFreshIsCount(init);
      var a := set k | 0 <= k < n && init[k].isFresh;
      var b := set k | 0 <= k < |ings| && ings[k].isFresh;
      assert b == a + (if ings[n].isFresh then {n} else {});
    }
  }

  // ---------------------------------------------------------------------------
  // The ingredient list

  class IngredientRanges {
    var ranges: seq<Range>
    var ingredients: seq<Ingredient>
    /** null until `getUniqueRanges` has run. */
    var uniqueRanges: Option<seq<Range>>

    /** The parsed ranges and ingredient ids; no ingredient is fresh yet. */
    constructor(rs: seq<Range>, ids: seq<int>)
      ensures ranges == rs && uniqueRanges == None
      ensures |ingredients| == |ids|
      ensures forall k :: 0 <= k < |ids| ==> ingredients[k] == Ingredient(ids[k], false)
    {
      ranges := rs;
      ingredients := seq(|ids|, k requires 0 <= k < |ids| => Ingredient(ids[k], false));
      uniqueRanges := None;
    }

    /** `validateFreshness`: an ingredient is fresh iff some range contains it. */
    method ValidateFreshness()
      modifies this
      ensures ranges == old(ranges) && uniqueRanges == old(uniqueRanges)
      ensures |ingredients| == |old(ingredients)|
      ensures forall k :: 0 <= k < |ingredients| ==>
        ingredients[k] == old(ingredients)[k].(isFresh := old(ingredients)[k].id in CoverSet(ranges))
    {
      var i := 0;
      while i < |ingredients|
        invariant 0 <= i <= |ingredients| == |old(ingredients)|
        invariant ranges == old(ranges) && uniqueRanges == old(uniqueRanges)
        invariant forall k :: 0 <= k < i ==> ingredients[k] == old(ingredients)[k].(isFresh := old(ingredients)[k].id in CoverSet(ranges))
        invariant forall k :: i <= k < |ingredients| ==> ingredients[k] == old(ingredients)[k]
      {
        var found := FindKey(ranges, ingredients[i].id);
        ingredients := ingredients[i := ingredients[i].(isFresh := found.Some?)];
        i := i + 1;
      }
    }

    /** `freshnessCount`. */
    function FreshnessCount(): nat
      reads this
    {
      CountFresh(ingredients)
    }

    /** `getUniqueRanges`: on the first call, sorts the ranges in place and
        merges them into the unique ranges, which it caches; later calls
        return the cache. The unique ranges are the range objects of the
        list themselves, so the bounds the merge widens are widened in the
        list too: afterwards each range of the list is either the one sorting
        put there or a unique range, and every unique range is in the list.
        For well-formed ranges the list covers the same ids as before. */
    method GetUniqueRanges() returns (u: seq<Range>)
      modifies this
      ensures old(uniqueRanges).Some? ==> u == old(uniqueRanges).value && ranges == old(ranges) && uniqueRanges == old(uniqueRanges)
      ensures ingredients == old(ingredients)
      ensures old(uniqueRanges).None? ==>
        && uniqueRanges == Some(u)
        && |ranges| == |old(ranges)|
        && (forall j :: 0 <= j < |ranges| ==> ranges[j] == Sort(old(ranges))[j] || ranges[j] in u)
        && (forall x :: x in u ==> x in ranges)
      ensures old(uniqueRanges).None? && WellFormed(old(ranges)) ==>
        WellFormed(u) && Disjoint(u) && CoverSet(u) == CoverSet(old(ranges)) && CoverSet(ranges) == CoverSet(old(ranges))
    {
      if uniqueRanges.Some? {
        return uniqueRanges.value;
      }
      SortKeeps(ranges, 0);
      SortSorted(ranges);
      var sorted := Sort(ranges);
      var objs, hs;
      u, objs, hs := MergeRanges(sorted);
      if WellFormed(sorted) {
        SharedCover(sorted, objs, hs, u);
      }
      forall x | x in u ensures x in objs {
        var k :| 0 <= k < |u| && u[k] == x;
        assert objs[hs[k]] == x;
      }
      ranges := objs;
      uniqueRanges := Some(u);
    }

    /** `freshnessCountUnique`: the sum of the unique ranges' widths; there is
        nothing to add up before `getUniqueRanges` has run. */
    function FreshnessCountUnique(): Option<int>
      reads this
    {
      if uniqueRanges.None? then None else Some(Width(uniqueRanges.value))
    }
  }

  /** The merge loop of `getUniqueRanges`, over the sorted ranges: a range
      neither of whose ends is covered is added; one whose lower end only is
      covered raises that range's upper bound; one whose upper end only is
      covered lowers that range's lower bound; one with both ends covered is
      skipped. For well-formed ranges the result is well formed, disjoint,
      and covers exactly the same ids. The unique ranges are objects of the
      list: `objs` is the list afterwards and `hs` the distinct positions the
      unique ranges refer to; every other range of the list is unchanged. */
  method MergeRanges(s: seq<Range>) returns (u: seq<Range>, objs: seq<Range>, hs: seq<nat>)
    requires Sorted(s)
    ensures WellFormed(s) ==> WellFormed(u) && Disjoint(u) && CoverSet(u) == CoverSet(s)
    ensures SharedInv(s, |s|, objs, hs, u)
  {
    u, objs, hs := [], s, [];
    var i := 0;
    while i < |s|
      invariant 0 <= i <= |s|
      invariant MergeInv(s, i, u)
      invariant SharedInv(s, i, objs, hs, u)
    {
      u, objs, hs := MergeOne(s, i, u, objs, hs);
      i := i + 1;
    }
    assert s[..|s|] == s;
  }

  /** One turn of the merge loop: the range at `i` starts a new unique
      range, raises or lowers the one it overlaps, or is skipped. */
  method MergeOne(s: seq<Range>, i: nat, u: seq<Range>, objs: seq<Range>, hs: seq<nat>)
    returns (u': seq<Range>, objs': seq<Range>, hs': seq<nat>)
    requires Sorted(s) && i < |s| && MergeInv(s, i, u) && SharedInv(s, i, objs, hs, u)
    ensures MergeInv(s, i + 1, u') && SharedInv(s, i + 1, objs', hs', u')
  {
    var r := objs[i];
    var minKey := FindKey(u, r.min);
    var maxKey := FindKey(u, r.max);
    var j := i + 1;
    u', objs', hs' := u, objs, hs;
    if minKey.None? && maxKey.None? {
      SharedNew(s, i, objs, hs, u);
      MergeNew(s, i, j, u);
      hs' := SortBy(objs, hs + [i]);
      u' := Sort(u + [r]);
    } else if minKey.Some? && maxKey.None? {
      var k := minKey.value;
      var v := u[k].(max := r.max);
      SharedSet(s, i, objs, hs, u, k, v);
      MergeRaise(s, i, j, u, k);
      objs' := objs[hs[k] := v];
      u' := u[k := v];
    } else if minKey.None? && maxKey.Some? {
      var k := maxKey.value;
      var v := u[k].(min := r.min);
      SharedSetSort(s, i, objs, hs, u, k, v);
      MergeLower(s, i, j, u, k);
      objs' := objs[hs[k] := v];
      hs' := SortBy(objs', hs);
      u' := Sort(u[k := v]);
    } else {
      SharedSkip(s, i, objs, hs, u);
      MergeSkip(s, i, j, u, maxKey.value);
    }
  }

  // ---------------------------------------------------------------------------
  // The steps of getUniqueRanges

  /** What the merge loop keeps, for well-formed input: the unique ranges are
      well formed and disjoint, cover exactly the ids of the ranges merged so
      far, and start no later than the next range to merge. */
  ghost predicate MergeInv(s: seq<Range>, i: nat, u: seq<Range>)
    requires i <= |s|
  {
    WellFormed(s) ==>
      && WellFormed(u) && Disjoint(u) && CoverSet(u) == CoverSet(s[..i])
      && (i < |s| ==> forall a :: 0 <= a < |u| ==> u[a].min <= s[i].min)
  }

  /** The next range's lower bound is at least the current one's. */
  lemma {:induction false} NextLowerBound(s: seq<Range>, i: nat, u: seq<Range>)
    requires Sorted(s) && i < |s| && WellFormed(s)
    requires forall a :: 0 <= a < |u| ==> u[a].min <= s[i].min
    ensures i + 1 < |s| ==> forall a :: 0 <= a < |u| ==> u[a].min <= s[i + 1].min
  {
    if i + 1 < |s| {
      assert SortRange(s[i], s[i + 1]) <= 0;
    }
  }

  /** A range with neither end covered is added, and the list re-sorted. */
  lemma {:induction false} MergeNew(s: seq<Range>, i: nat, j: nat, u: seq<Range>)
    requires Sorted(s) && i < |s| && j == i + 1 && MergeInv(s, i, u)
    requires FindKey(u, s[i].min).None?
    ensures MergeInv(s, j, Sort(u + [s[i]]))
  {
    if WellFormed(s) {
      var r := s[i];
      NewRangeKeeps(u, r);
      CoverSetSnoc(s, i);
      NextLowerBound(s, i, u + [r]);
      SortKeeps(u + [r], if i + 1 < |s| then s[i + 1].min else r.min);
    }
  }

  /** A range whose lower end only is covered raises that range's upper bound. */
  lemma {:induction false} MergeRaise(s: seq<Range>, i: nat, j: nat, u: seq<Range>, k: nat)
    requires Sorted(s) && i < |s| && j == i + 1 && MergeInv(s, i, u)
    requires k < |u| && Contains(u[k], s[i].min) && FindKey(u, s[i].max).None?
    ensures MergeInv(s, j, u[k := u[k].(max := s[i].max)])
  {
    if WellFormed(s) {
      var r := s[i];
      RaiseKeeps(u, k, r);
      CoverSetSnoc(s, i);
      NextLowerBound(s, i, u[k := u[k].(max := r.max)]);
    }
  }

  /** A range whose upper end only is covered lowers that range's lower bound;
      on well-formed input this does not happen. */
  lemma {:induction false} MergeLower(s: seq<Range>, i: nat, j: nat, u: seq<Range>, k: nat)
    requires Sorted(s) && i < |s| && j == i + 1 && MergeInv(s, i, u)
    requires k < |u| && Contains(u[k], s[i].max) && FindKey(u, s[i].min).None?
    ensures MergeInv(s, j, Sort(u[k := u[k].(min := s[i].min)]))
  {
    if WellFormed(s) {
      LowerUnreachable(u, k, s[i]);
    }
  }

  /** A range with both ends covered is skipped: it adds no id. */
  lemma {:induction false} MergeSkip(s: seq<Range>, i: nat, j: nat, u: seq<Range>, k: nat)
    requires Sorted(s) && i < |s| && j == i + 1 && MergeInv(s, i, u)
    requires k < |u| && Contains(u[k], s[i].max)
    ensures MergeInv(s, j, u)
  {
    if WellFormed(s) {
      BothCovered(u, k, s[i]);
      CoverSetSnoc(s, i);
      NextLowerBound(s, i, u);
    }
  }

  /** A range with neither end covered, whose lower bound is at least every
      lower bound of `u`, overlaps no range of `u`. */
  lemma {:induction false} NewRangeKeeps(u: seq<Range>, r: Range)
    requires WellFormed(u) && Disjoint(u) && r.min <= r.max
    requires forall a :: 0 <= a < |u| ==> u[a].min <= r.min
    requires FindKey(u, r.min).None?
    ensures WellFormed(u + [r]) && Disjoint(u + [r])
    ensures CoverSet(u + [r]) == CoverSet(u) + Cells(r)
    ensures forall a :: 0 <= a < |u + [r]| ==> (u + [r])[a].min <= r.min
  {
    forall id ensures CountCover(u + [r], id) <= 1 {
      NewRangeApart(u, r, id);
    }
    assert (u + [r])[..|u|] == u && (u + [r])[|u|] == r;
    CoverSetSnoc(u + [r], |u|);
    assert (u + [r])[..|u| + 1] == u + [r];
    forall j | 0 <= j < |u + [r]| ensures (u + [r])[j].min <= r.min && (u + [r])[j].min <= (u + [r])[j].max {
      if j < |u| { assert (u + [r])[j] == u[j]; }
    }
  }

  lemma {:induction false} NewRangeApart(u: seq<Range>, r: Range, id: int)
    requires Disjoint(u)
    requires forall a :: 0 <= a < |u| ==> u[a].min <= r.min
    requires FindKey(u, r.min).None?
    ensures CountCover(u + [r], id) <= 1
  {
    CountCoverAppend(u, r, id);
    if Contains(r, id) && CountCover(u, id) >= 1 {
      var a := CoveringIndex(u, id);
      assert Contains(u[a], r.min);
    }
  }

  /** A position of a range that contains `id`, when some range does. */
  lemma {:induction false} CoveringIndexExists(u: seq<Range>, id: int)
    requires CountCover(u, id) >= 1
    ensures exists a :: 0 <= a < |u| && Contains(u[a], id)
    decreases |u|
  {
    if !Contains(u[0], id) {
      CoveringIndexExists(u[1..], id);
      var a :| 0 <= a < |u[1..]| && Contains(u[1..][a], id);
      assert Contains(u[a + 1], id);
    }
  }

  ghost function CoveringIndex(u: seq<Range>, id: int): (a: nat)
    requires CountCover(u, id) >= 1
    ensures a < |u| && Contains(u[a], id)
  {
    CoveringIndexExists(u, id);
    var a :| 0 <= a < |u| && Contains(u[a], id);
    a
  }

  /** Raising the upper bound of the range that holds `r.min` to `r.max` adds
      exactly the ids of `r` and overlaps no other range. */
  lemma {:induction false} RaiseKeeps(u: seq<Range>, k: nat, r: Range)
    requires WellFormed(u) && Disjoint(u) && r.min <= r.max
    requires forall a :: 0 <= a < |u| ==> u[a].min <= r.min
    requires k < |u| && Contains(u[k], r.min) && FindKey(u, r.max).None?
    ensures var v := u[k := u[k].(max := r.max)];
      && WellFormed(v) && Disjoint(v)
      && CoverSet(v) == CoverSet(u) + Cells(r)
      && forall a :: 0 <= a < |v| ==> v[a].min <= r.min
  {
    var v := u[k := u[k].(max := r.max)];
    assert !Contains(u[k], r.max);
    forall id ensures CountCover(v, id) <= 1 {
      RaiseApart(u, k, r, id);
    }
    RaiseCover(u, k, r);
  }

  lemma {:induction false} RaiseApart(u: seq<Range>, k: nat, r: Range, id: int)
    requires Disjoint(u)
    requires forall a :: 0 <= a < |u| ==> u[a].min <= r.min
    requires k < |u| && Contains(u[k], r.min) && u[k].max < r.max
    ensures CountCover(u[k := u[k].(max := r.max)], id) <= 1
  {
    var v := u[k := u[k].(max := r.max)];
    CountCoverUpdate(u, k, v[k], id);
    if Contains(v[k], id) && !Contains(u[k], id) && CountCover(u, id) >= 1 {
      var a := CoveringIndex(u, id);
      assert a != k;
      assert Contains(u[a], r.min);
      if a < k { CountCoverTwo(u, a, k, r.min); } else { CountCoverTwo(u, k, a, r.min); }
    }
  }

  lemma {:induction false} RaiseCover(u: seq<Range>, k: nat, r: Range)
    requires k < |u| && Contains(u[k], r.min) && u[k].max < r.max
    ensures CoverSet(u[k := u[k].(max := r.max)]) == CoverSet(u) + Cells(r)
  {
    var v := u[k := u[k].(max := r.max)];
    forall id ensures id in CoverSet(v) <==> id in CoverSet(u) + Cells(r) {
      if id in CoverSet(v) {
        var a :| 0 <= a < |v| && Contains(v[a], id);
        if a != k || Contains(u[k], id) { CoveredAt(u, a, id); }
      }
      if id in CoverSet(u) {
        var a :| 0 <= a < |u| && Contains(u[a], id);
        CoveredAt(v, a, id);
      }
      if id in Cells(r) {
        CoveredAt(v, k, id);
      }
    }
  }

  /** When every lower bound of `u` is at most `r.min`, a range that holds
      `r.max` holds `r.min` too, so the branch that lowers a lower bound is
      never taken on well-formed input. */
  lemma {:induction false} LowerUnreachable(u: seq<Range>, k: nat, r: Range)
    requires r.min <= r.max
    requires forall a :: 0 <= a < |u| ==> u[a].min <= r.min
    requires k < |u| && Contains(u[k], r.max)
    ensures FindKey(u, r.min).Some?
  {
    assert Contains(u[k], r.min);
  }

  /** When the range that holds `r.max` starts at or below `r.min`, every id of
      `r` is already covered. */
  lemma {:induction false} BothCovered(u: seq<Range>, k: nat, r: Range)
    requires forall a :: 0 <= a < |u| ==> u[a].min <= r.min
    requires k < |u| && Contains(u[k], r.max)
    ensures CoverSet(u) + Cells(r) == CoverSet(u)
  {
    forall id | id in Cells(r) ensures id in CoverSet(u) {
      CoveredAt(u, k, id);
    }
  }

  /** On well-formed ranges `freshnessCountUnique` is the number of distinct
      ids that some range contains. */
  lemma {:induction false} UniqueCountIsFreshIds(u: seq<Range>, rs: seq<Range>)
    requires WellFormed(u) && Disjoint(u) && CoverSet(u) == CoverSet(rs)
    ensures Width(u) == |CoverSet(rs)|
  {
    WidthIsCoverCount(u);
  }
}
