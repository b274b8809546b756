/** 2024/01: two columns of location ids. Part one pairs the ids of both
    columns in sorted order and adds up the distances of the pairs; part two
    adds up each id of the first column times the number of times it
    appears in the second. */
module LocationLists {
  import opened Common
  import opened Text

  // ---------------------------------------------------------------------------
  // Reading the lines: `/^(\d+)\s+(\d+)$/`

  /** One line matched against `^(\d+)\s+(\d+)$` (where `$` also matches
      before a final line feed), the two numbers read with `(int)`; a line
      that does not match gives nothing. The match is taken apart run by
      run: digits, white space, digits, then the end. */
  function ParseLine(line: string): Option<(nat, nat)> {
    var a := DigitRun(line);
    AfterFirst(line[..a], line[a..])
  }

  /** The match after the first run of digits `d1`. */
  function AfterFirst(d1: string, rest: string): Option<(nat, nat)>
    requires AllDigits(d1)
  {
    var w := SpaceRun(rest);
    AfterSpace(d1, w, rest[w..])
  }

  /** The match after the first run of digits and `w` characters of white
      space. */
  function AfterSpace(d1: string, w: nat, tail: string): Option<(nat, nat)>
    requires AllDigits(d1)
  {
    var b := DigitRun(tail);
    if |d1| > 0 && w > 0 && b > 0 && (tail[b..] == "" || tail[b..] == "\n") then
      Some((StringToNat(d1), StringToNat(tail[..b])))
    else None
  }

  /** A line matches exactly when it is digits, white space, digits and
      perhaps a line feed; the numbers are the values of the two runs of
      digits. */
  lemma {:induction false} ParseLineMatches(d1: string, w: string, d2: string, e: string)
    requires d1 != [] && AllDigits(d1) && w != [] && AllSpaces(w) && d2 != [] && AllDigits(d2)
    requires e == "" || e == "\n"
    ensures ParseLine(d1 + w + d2 + e) == Some((StringToNat(d1), StringToNat(d2)))
  {
    var tail := d2 + e;
    var rest := w + tail;
    assert d1 + w + d2 + e == d1 + rest;
    FirstRun(d1, rest);
    SpaceStage(d1, w, tail);
    LastRun(d1, |w|, d2, e);
  }

  lemma {:induction false} FirstRun(d1: string, rest: string)
    requires d1 != [] && AllDigits(d1) && rest != [] && IsSpace(rest[0])
    ensures ParseLine(d1 + rest) == AfterFirst(d1, rest)
  {
    DigitRunOf(d1, rest);
    assert (d1 + rest)[..|d1|] == d1 && (d1 + rest)[|d1|..] == rest;
  }

  lemma {:induction false} SpaceStage(d1: string, w: string, tail: string)
    requires AllDigits(d1) && AllSpaces(w) && tail != [] && IsDigit(tail[0])
    ensures AfterFirst(d1, w + tail) == AfterSpace(d1, |w|, tail)
  {
    SpaceRunOf(w, tail);
    assert (w + tail)[|w|..] == tail;
  }

  lemma {:induction false} LastRun(d1: string, w: nat, d2: string, e: string)
    requires d1 != [] && AllDigits(d1) && w > 0 && d2 != [] && AllDigits(d2)
    requires e == "" || e == "\n"
    ensures AfterSpace(d1, w, d2 + e) == Some((StringToNat(d1), StringToNat(d2)))
  {
    DigitRunOf(d2, e);
    assert (d2 + e)[..|d2|] == d2 && (d2 + e)[|d2|..] == e;
  }

  /** A line that matches is digits, white space, digits and perhaps a
      line feed. */
  lemma {:induction false} ParseLineShape(line: string)
    requires ParseLine(line).Some?
    ensures exists d1, w, d2, e ::
      && d1 != [] && AllDigits(d1) && w != [] && AllSpaces(w) && d2 != [] && AllDigits(d2)
      && (e == "" || e == "\n") && line == d1 + w + d2 + e
      && ParseLine(line) == Some((StringToNat(d1), StringToNat(d2)))
  {
    var a := DigitRun(line);
    var rest := line[a..];
    var w := SpaceRun(rest);
    var tail := rest[w..];
    var b := DigitRun(tail);
    assert line == line[..a] + rest[..w] + tail[..b] + tail[b..];
  }

  /** Two numbers written with a space between them read back. */
  lemma {:induction false} ParseLineOfNumbers(x: nat, y: nat)
    ensures ParseLine(NatToString(x) + " " + NatToString(y)) == Some((x, y))
  {
    assert AllSpaces(" ");
    ParseLineMatches(NatToString(x), " ", NatToString(y), "");
    assert NatToString(x) + " " + NatToString(y) + "" == NatToString(x) + " " + NatToString(y);
    StringToNatOfNatToString(x);
    StringToNatOfNatToString(y);
  }

  /** One column of the lines that match: the first numbers when `first`
      holds, the second ones otherwise. */
  function Column(lines: seq<string>, first: bool): seq<nat> {
    if lines == [] then []
    else
      var init := Column(lines[..|lines| - 1], first);
      match ParseLine(lines[|lines| - 1])
      case None => init
      case Some(p) => init + [if first then p.0 else p.1]
  }

  /** The reading loop: a matching line adds its first number to the first
      list and its second number to the second; other lines are skipped.
      Both lists grow together, so they always have the same length. */
  method ReadLocations(lines: seq<string>) returns (ids1: seq<nat>, ids2: seq<nat>)
    ensures ids1 == Column(lines, true) && ids2 == Column(lines, false)
    ensures |ids1| == |ids2|
  {
    ids1, ids2 := [], [];
    for k := 0 to |lines|
      invariant ids1 == Column(lines[..k], true) && ids2 == Column(lines[..k], false)
      invariant |ids1| == |ids2|
    {
      assert lines[..k + 1][..k] == lines[..k];
      var m := ParseLine(lines[k]);
      if m.Some? {
        ids1 := ids1 + [m.value.0];
        ids2 := ids2 + [m.value.1];
      }
    }
    assert lines[..|lines|] == lines;
  }

  /** A column of two blocks of lines is the column of the first block,
      then that of the second. */
  lemma {:induction false} ColumnAppend(a: seq<string>, b: seq<string>, first: bool)
    ensures Column(a + b, first) == Column(a, first) + Column(b, first)
    decreases |b|
  {
    if b == [] {
      assert a + b == a;
    } else {
      var b' := b[..|b| - 1];
      assert (a + b)[..|a + b| - 1] == a + b';
      ColumnAppend(a, b', first);
      assert (a + b)[|a + b| - 1] == b[|b| - 1];
    }
  }

  /** The lines in another order give the same ids in another order. */
  lemma {:induction false} ColumnPermutation(xs: seq<string>, ys: seq<string>, first: bool)
    requires multiset(xs) == multiset(ys)
    ensures multiset(Column(xs, first)) == multiset(Column(ys, first))
    decreases |xs|
  {
    if xs != [] {
      var x := xs[|xs| - 1];
      var init := xs[..|xs| - 1];
      assert xs == init + [x];
      assert x in multiset(ys);
      var i :| 0 <= i < |ys| && ys[i] == x;
      var rest := ys[..i] + ys[i + 1..];
      assert ys == ys[..i] + [x] + ys[i + 1..];
      assert multiset(ys) == multiset(ys[..i]) + multiset{x} + multiset(ys[i + 1..]);
      assert multiset(rest) == multiset(ys) - multiset{x};
      assert multiset(init) == multiset(xs) - multiset{x};
      ColumnPermutation(init, rest, first);
      ColumnAppend(init, [x], first);
      ColumnAppend(ys[..i] + [x], ys[i + 1..], first);
      ColumnAppend(ys[..i], [x], first);
      ColumnAppend(ys[..i], ys[i + 1..], first);
    } else {
      assert ys == [];
    }
  }

  // ---------------------------------------------------------------------------
  // sort()

  predicate Sorted(s: seq<int>) {
    forall i, j :: 0 <= i < j < |s| ==> s[i] <= s[j]
  }

  /** Inserting before the first greater element. */
  function Insert(x: int, s: seq<int>): (r: seq<int>)
    ensures |r| == |s| + 1 && multiset(r) == multiset(s) + multiset{x}
  {
    if s == [] then [x]
    else if x <= s[0] then [x] + s
    else
      assert s == [s[0]] + s[1..];
      [s[0]] + Insert(x, s[1..])
  }

  /** Inserting into a sorted list keeps it sorted. */
  lemma {:induction false} InsertSorted(x: int, s: seq<int>)
    requires Sorted(s)
    ensures Sorted(Insert(x, s))
  {
    if s != [] && x > s[0] {
      var t := Insert(x, s[1..]);
      InsertSorted(x, s[1..]);
      forall k | 0 <= k < |t|
        ensures s[0] <= t[k]
      {
        assert t[k] in multiset(t);
        if t[k] != x {
          assert t[k] in multiset(s[1..]);
        }
      }
    }
  }

  /** PHP's `sort()` on integers: ascending order, as insertion sort
      produces it. */
  function Sort(s: seq<int>): (r: seq<int>)
    ensures |r| == |s| && Sorted(r) && multiset(r) == multiset(s)
  {
    if s == [] then []
    else
      assert s == s[..|s| - 1] + [s[|s| - 1]];
      InsertSorted(s[|s| - 1], Sort(s[..|s| - 1]));
      Insert(s[|s| - 1], Sort(s[..|s| - 1]))
  }

  /** There is one sorted order of a collection of ids: two sorted lists
      with the same elements are equal. */
  lemma {:induction false} SortedUnique(s: seq<int>, t: seq<int>)
    requires Sorted(s) && Sorted(t) && multiset(s) == multiset(t)
    ensures s == t
    decreases |s|
  {
    if s != [] {
      SortedHead(s, t);
      SortedTail(s);
      SortedTail(t);
      SortedUnique(s[1..], t[1..]);
      assert s == [s[0]] + s[1..] && t == [t[0]] + t[1..];
    } else {
      assert |t| == |multiset(t)|;
    }
  }

  /** Sorted lists with the same elements start with the same element. */
  lemma {:induction false} SortedHead(s: seq<int>, t: seq<int>)
    requires Sorted(s) && Sorted(t) && multiset(s) == multiset(t) && s != []
    ensures t != [] && s[0] == t[0]
  {
    assert s[0] in multiset(t);
    var i :| 0 <= i < |t| && t[i] == s[0];
    assert t[0] in multiset(s);
    var j :| 0 <= j < |s| && s[j] == t[0];
  }

  /** The rest of a sorted list is sorted and holds the other elements. */
  lemma {:induction false} SortedTail(s: seq<int>)
    requires Sorted(s) && s != []
    ensures Sorted(s[1..]) && multiset(s[1..]) == multiset(s) - multiset{s[0]}
  {
    assert s == [s[0]] + s[1..];
  }

  /** Sorting lists with the same elements gives the same list. */
  lemma {:induction false} SortPermutation(s: seq<int>, t: seq<int>)
    requires multiset(s) == multiset(t)
    ensures Sort(s) == Sort(t)
  {
    SortedUnique(Sort(s), Sort(t));
  }

  // ---------------------------------------------------------------------------
  // Part one: total distance

  /** The distances of the pairs `(a[i], b[i])`, added up. */
  function Distance(a: seq<int>, b: seq<int>): nat
    requires |a| == |b|
  {
    if a == [] then 0
    else Distance(a[..|a| - 1], b[..|b| - 1]) + Abs(b[|b| - 1] - a[|a| - 1])
  }

  /** A list is at distance 0 from itself, and the distance does not depend
      on which list comes first. */
  lemma {:induction false} DistanceSymmetric(a: seq<int>, b: seq<int>)
    requires |a| == |b|
    ensures Distance(a, b) == Distance(b, a)
    ensures Distance(a, a) == 0
  {
    if a != [] {
      DistanceSymmetric(a[..|a| - 1], b[..|b| - 1]);
    }
  }

  /** The `array_map` that pairs the sorted lists, then the `array_reduce`
      that adds up `abs($current[1] - $current[0])`. */
  method TotalDistance(ids1: seq<int>, ids2: seq<int>) returns (total: nat)
    requires |ids1| == |ids2|
    ensures total == Distance(ids1, ids2)
  {
    var pairs := seq(|ids1|, i requires 0 <= i < |ids1| => (ids1[i], ids2[i]));
    total := 0;
    for k := 0 to |pairs|
      invariant total == Distance(ids1[..k], ids2[..k])
    {
      var current := pairs[k];
      total := total + Abs(current.1 - current.0);
      assert ids1[..k + 1][..k] == ids1[..k] && ids2[..k + 1][..k] == ids2[..k];
    }
    assert ids1[..|ids1|] == ids1 && ids2[..|ids2|] == ids2;
  }

  // ---------------------------------------------------------------------------
  // Part two: similarity score

  /** Each id of `a` times the number of times it appears in `b`, added up. */
  function Similarity(a: seq<int>, b: seq<int>): int {
    if a == [] then 0
    else Similarity(a[..|a| - 1], b) + a[|a| - 1] * multiset(b)[a[|a| - 1]]
  }

  /** The `array_map` that fills `$occurance_2`: an id seen for the first
      time gets 0, then every sighting adds 1. */
  method CountOccurrences(ids: seq<int>) returns (occ: map<int, nat>)
    ensures forall x :: x in occ <==> x in ids
    ensures forall x :: x in occ ==> occ[x] == multiset(ids)[x]
  {
    occ := map[];
    for k := 0 to |ids|
      invariant forall x :: x in occ <==> x in ids[..k]
      invariant forall x :: x in occ ==> occ[x] == multiset(ids[..k])[x]
    {
      var id := ids[k];
      if id !in occ {
        occ := occ[id := 0];
      }
      occ := occ[id := occ[id] + 1];
      assert ids[..k + 1] == ids[..k] + [id];
    }
    assert ids[..|ids|] == ids;
  }

  /** The `foreach` over the first list: an id found in the occurrence
      table adds itself times its count, another adds 0. */
  method SimilarityScore(ids1: seq<int>, ids2: seq<int>, occ: map<int, nat>) returns (score: int)
    requires forall x :: x in occ <==> x in ids2
    requires forall x :: x in occ ==> occ[x] == multiset(ids2)[x]
    ensures score == Similarity(ids1, ids2)
  {
    score := 0;
    for k := 0 to |ids1|
      invariant score == Similarity(ids1[..k], ids2)
    {
      var locId := ids1[k];
      score := score + if locId in occ then locId * occ[locId] else 0;
      assert ids1[..k + 1][..k] == ids1[..k];
    }
    assert ids1[..|ids1|] == ids1;
  }

  // ---------------------------------------------------------------------------
  // The script

  /** The script: read the two columns, sort both, then compute the total
      distance and the similarity score. The columns always have the same
      length, so the script never stops on "Number of entries differ!". */
  method Run(lines: seq<string>) returns (totalDistance: nat, similarityScore: int)
    ensures |Column(lines, true)| == |Column(lines, false)|
    ensures totalDistance == Distance(Sort(Column(lines, true)), Sort(Column(lines, false)))
    ensures similarityScore == Similarity(Sort(Column(lines, true)), Sort(Column(lines, false)))
  {
    var locationId1, locationId2 := ReadLocations(lines);
    var sorted1 := Sort(locationId1);
    var sorted2 := Sort(locationId2);
    totalDistance := TotalDistance(sorted1, sorted2);
    var occurrences := CountOccurrences(sorted2);
    similarityScore := SimilarityScore(sorted1, sorted2, occurrences);
  }

  /** Both answers depend only on which lines there are, not on their
      order. */
  lemma {:induction false} RunOrderFree(lines: seq<string>, shuffled: seq<string>)
    requires multiset(lines) == multiset(shuffled)
    ensures Sort(Column(lines, true)) == Sort(Column(shuffled, true))
    ensures Sort(Column(lines, false)) == Sort(Column(shuffled, false))
  {
    ColumnPermutation(lines, shuffled, true);
    ColumnPermutation(lines, shuffled, false);
    SortPermutation(Column(lines, true), Column(shuffled, true));
    SortPermutation(Column(lines, false), Column(shuffled, false));
  }
}
