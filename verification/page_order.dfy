/** 2024/05: printing updates in an order the page rules allow. Each rule
    `a|b` asks for page `a` before page `b`. An update is correct when
    sorting it with the rule comparator leaves it as it is; the answer
    adds up the middle pages of the correct updates, and the middle pages
    of the corrected order of the others. */
module PageOrder {
  import opened Common
  import opened Text

  /** `PageOrderRule`: page `a` comes before page `b`. */
  datatype Rule = Rule(a: nat, b: nat)

  /** What the constructor makes of one trimmed line. */
  datatype Entry = RuleEntry(rule: Rule) | UpdateEntry(pages: seq<nat>) | Ignored

  /** A rule names page `p`. */
  predicate Mentions(r: Rule, p: nat) {
    r.a == p || r.b == p
  }

  /** A rule names both `a` and `b`. */
  predicate Shared(r: Rule, a: nat, b: nat) {
    Mentions(r, a) && Mentions(r, b)
  }

  /** Some rule names page `p`. */
  ghost predicate Known(rules: seq<Rule>, p: nat) {
    exists i :: 0 <= i < |rules| && Mentions(rules[i], p)
  }

  /** Rule `i` is the first one naming both `a` and `b`. */
  ghost predicate FirstShared(rules: seq<Rule>, a: nat, b: nat, i: int) {
    0 <= i < |rules| && Shared(rules[i], a, b) &&
    forall j :: 0 <= j < i ==> !Shared(rules[j], a, b)
  }

  /** `$flat` beside `$rules`: the two pages of rule `i` at `2i` and `2i + 1`. */
  predicate Flattened(rules: seq<Rule>, flat: seq<nat>) {
    |flat| == 2 * |rules| &&
    forall i :: 0 <= i < |rules| ==> flat[2 * i] == rules[i].a && flat[2 * i + 1] == rules[i].b
  }

  /** The pages of the rules, two by two. */
  function Flatten(rules: seq<Rule>): seq<nat> {
    if rules == [] then [] else Flatten(rules[..|rules| - 1]) + [rules[|rules| - 1].a, rules[|rules| - 1].b]
  }

  /** The flat list beside the rules is theirs, two pages per rule. */
  lemma {:induction false} FlattenedUnique(rules: seq<Rule>, flat: seq<nat>)
    requires Flattened(rules, flat)
    ensures flat == Flatten(rules)
  {
    if rules != [] {
      var init := rules[..|rules| - 1];
      assert Flattened(init, flat[..|flat| - 2]);
      FlattenedUnique(init, flat[..|flat| - 2]);
      assert flat == flat[..|flat| - 2] + [flat[|flat| - 2], flat[|flat| - 1]];
    }
  }

  // ---------------------------------------------------------------------------
  // the rules

  /** `PageOrderRules`: the rules in the order they were read, and every
      rule's two pages flattened into one list. */
  class PageOrderRules {
    var rules: seq<Rule>
    var flat: seq<nat>

    predicate Valid()
      reads this
    {
      Flattened(rules, flat)
    }

    constructor()
      ensures rules == [] && flat == [] && Valid()
    {
      rules := [];
      flat := [];
    }

    /** `addPageOrderRule`: the rule is appended, and its two pages to the
        flat list. */
    method AddPageOrderRule(por: Rule)
      requires Valid()
      modifies this
      ensures rules == old(rules) + [por] && flat == old(flat) + [por.a, por.b]
      ensures Valid()
    {
      rules := rules + [por];
      flat := flat + [por.a, por.b];
      assert forall i :: 0 <= i < |rules| - 1 ==> rules[i] == old(rules)[i];
    }
  }

  // ---------------------------------------------------------------------------
  // the comparator

  /** `array_keys($flat, $p)` from position `i` on: where `p` stands, in
      increasing order. */
  function KeysFrom(flat: seq<nat>, p: nat, i: nat): (r: seq<nat>)
    requires i <= |flat|
    ensures forall k :: k in r <==> i <= k < |flat| && flat[k] == p
    ensures forall j1, j2 :: 0 <= j1 < j2 < |r| ==> r[j1] < r[j2]
    decreases |flat| - i
  {
    if i == |flat| then []
    else
      var rest := KeysFrom(flat, p, i + 1);
      assert forall j :: 0 <= j < |rest| ==> rest[j] in rest;
      if flat[i] == p then [i] + rest else rest
  }

  function KeysOf(flat: seq<nat>, p: nat): seq<nat> {
    KeysFrom(flat, p, 0)
  }

  /** `floor($i / $pages_per_rule)` on every key: the rule each position
      belongs to. */
  function RuleIndices(ks: seq<nat>): (r: seq<nat>)
    ensures |r| == |ks|
    ensures forall j :: 0 <= j < |ks| ==> r[j] == ks[j] / 2
  {
    seq(|ks|, j requires 0 <= j < |ks| => ks[j] / 2)
  }

  /** `array_intersect($xs, $ys)`: the elements of `xs`, in their order,
      that `ys` holds too. */
  function Intersect(xs: seq<nat>, ys: seq<nat>): (r: seq<nat>)
    ensures forall x :: x in r <==> x in xs && x in ys
  {
    if xs == [] then []
    else (if xs[0] in ys then [xs[0]] else []) + Intersect(xs[1..], ys)
  }

  /** The rule indices of the positions of `p` are the rules naming `p`. */
  lemma {:induction false} RuleIndicesOfKeys(rules: seq<Rule>, flat: seq<nat>, p: nat)
    requires Flattened(rules, flat)
    ensures forall x :: x in RuleIndices(KeysOf(flat, p)) <==> 0 <= x < |rules| && Mentions(rules[x], p)
  {
    var ks := KeysOf(flat, p);
    var rs := RuleIndices(ks);
    forall x | x in rs
      ensures 0 <= x < |rules| && Mentions(rules[x], p)
    {
      var j :| 0 <= j < |rs| && rs[j] == x;
      assert ks[j] in ks;
      var k := ks[j];
      assert k == 2 * x || k == 2 * x + 1;
    }
    forall x | 0 <= x < |rules| && Mentions(rules[x], p)
      ensures x in rs
    {
      var k := if rules[x].a == p then 2 * x else 2 * x + 1;
      assert flat[k] == p;
      assert k in ks;
      var j :| 0 <= j < |ks| && ks[j] == k;
      assert rs[j] == x;
    }
  }

  /** The rule indices of the positions of a page never decrease. */
  lemma {:induction false} RuleIndicesAscending(flat: seq<nat>, p: nat)
    ensures var rs := RuleIndices(KeysOf(flat, p));
      forall j1, j2 :: 0 <= j1 < j2 < |rs| ==> rs[j1] <= rs[j2]
  {
  }

  /** Lists with nothing in common have an empty intersection. */
  lemma {:induction false} IntersectDisjoint(xs: seq<nat>, ys: seq<nat>)
    requires forall x :: x in xs ==> x !in ys
    ensures Intersect(xs, ys) == []
  {
    if xs != [] {
      assert forall x :: x in xs[1..] ==> x in xs;
      IntersectDisjoint(xs[1..], ys);
    }
  }

  /** On a list that never decreases, the first common element is the
      least one. */
  lemma {:induction false} IntersectFirst(xs: seq<nat>, ys: seq<nat>, x: nat)
    requires forall j1, j2 :: 0 <= j1 < j2 < |xs| ==> xs[j1] <= xs[j2]
    requires x in xs && x in ys
    ensures Intersect(xs, ys) != [] && Intersect(xs, ys)[0] <= x
  {
    if xs[0] in ys {
      assert Intersect(xs, ys)[0] == xs[0];
    } else {
      assert x in xs[1..];
      IntersectFirst(xs[1..], ys, x);
    }
  }

  /** `PageOrderRules::sortPages`: -1 puts `a` first, 1 puts `b` first. */
  function SortPages(rules: seq<Rule>, flat: seq<nat>, a: nat, b: nat): (r: int)
    requires Flattened(rules, flat)
    ensures r == -1 || r == 1
  {
    var rkA := KeysOf(flat, a);
    var rkB := KeysOf(flat, b);
    if rkA == [] && rkB == [] then -1
    else if rkA == [] then 1
    else if rkB == [] then -1
    else
      var common := Intersect(RuleIndices(rkA), RuleIndices(rkB));
      var index := if common == [] then 0 else common[0];
      assert index < |rules| by {
        if common == [] {
          assert rkA[0] in rkA;
        } else {
          assert common[0] in RuleIndices(rkA);
          var j :| 0 <= j < |rkA| && RuleIndices(rkA)[j] == common[0];
          assert rkA[j] in rkA;
        }
      }
      if a == rules[index].a then -1 else 1
  }

  /** A page has a position in the flat list exactly when a rule names it. */
  lemma {:induction false} KnownKeys(rules: seq<Rule>, flat: seq<nat>, p: nat)
    requires Flattened(rules, flat)
    ensures Known(rules, p) <==> KeysOf(flat, p) != []
  {
    RuleIndicesOfKeys(rules, flat, p);
    var xs := RuleIndices(KeysOf(flat, p));
    if xs != [] {
      assert xs[0] in xs;
    }
  }

  /** Between two pages some rule names, the first rule naming both
      decides. */
  lemma {:induction false} SortPagesShared(rules: seq<Rule>, flat: seq<nat>, a: nat, b: nat, i: nat)
    requires Flattened(rules, flat) && FirstShared(rules, a, b, i)
    ensures SortPages(rules, flat, a, b) == if a == rules[i].a then -1 else 1
  {
    RuleIndicesOfKeys(rules, flat, a);
    RuleIndicesOfKeys(rules, flat, b);
    var xs, ys := RuleIndices(KeysOf(flat, a)), RuleIndices(KeysOf(flat, b));
    assert i in xs && i in ys;
    RuleIndicesAscending(flat, a);
    IntersectFirst(xs, ys, i);
    var c := Intersect(xs, ys)[0];
    assert c in Intersect(xs, ys);
    assert Shared(rules[c], a, b);
    assert c == i;
  }

  /** Between two known pages no rule names together, the first rule
      decides. */
  lemma {:induction false} SortPagesUnshared(rules: seq<Rule>, flat: seq<nat>, a: nat, b: nat)
    requires Flattened(rules, flat) && Known(rules, a) && Known(rules, b)
    requires forall i :: 0 <= i < |rules| ==> !Shared(rules[i], a, b)
    ensures SortPages(rules, flat, a, b) == if a == rules[0].a then -1 else 1
  {
    KnownKeys(rules, flat, a);
    KnownKeys(rules, flat, b);
    RuleIndicesOfKeys(rules, flat, a);
    RuleIndicesOfKeys(rules, flat, b);
    var xs, ys := RuleIndices(KeysOf(flat, a)), RuleIndices(KeysOf(flat, b));
    assert forall x :: x in xs ==> x !in ys;
    IntersectDisjoint(xs, ys);
  }

  /** What `sortPages` decides, read off the rules: a page no rule names
      comes after one that a rule names (and of two unnamed pages the
      first stays first); between two named pages the first rule naming
      both decides, and when no rule names both, the first rule of all. */
  lemma {:induction false} SortPagesRules(rules: seq<Rule>, flat: seq<nat>, a: nat, b: nat)
    requires Flattened(rules, flat)
    ensures !Known(rules, a) ==> SortPages(rules, flat, a, b) == if Known(rules, b) then 1 else -1
    ensures Known(rules, a) && !Known(rules, b) ==> SortPages(rules, flat, a, b) == -1
    ensures forall i :: FirstShared(rules, a, b, i) ==>
      SortPages(rules, flat, a, b) == if a == rules[i].a then -1 else 1
    ensures Known(rules, a) && Known(rules, b) && (forall i :: 0 <= i < |rules| ==> !Shared(rules[i], a, b)) ==>
      SortPages(rules, flat, a, b) == if a == rules[0].a then -1 else 1
  {
    KnownKeys(rules, flat, a);
    KnownKeys(rules, flat, b);
    forall i | FirstShared(rules, a, b, i)
      ensures SortPages(rules, flat, a, b) == if a == rules[i].a then -1 else 1
    {
      SortPagesShared(rules, flat, a, b, i);
    }
    if Known(rules, a) && Known(rules, b) && (forall i :: 0 <= i < |rules| ==> !Shared(rules[i], a, b)) {
      SortPagesUnshared(rules, flat, a, b);
    }
  }

  /** When some rule names both pages, there is a first such rule. */
  lemma {:induction false} FirstSharedOf(rules: seq<Rule>, a: nat, b: nat, i: nat)
    requires i < |rules| && Shared(rules[i], a, b)
    ensures exists j :: FirstShared(rules, a, b, j)
    decreases i
  {
    if exists j :: 0 <= j < i && Shared(rules[j], a, b) {
      var j :| 0 <= j < i && Shared(rules[j], a, b);
      FirstSharedOf(rules, a, b, j);
    } else {
      assert FirstShared(rules, a, b, i);
    }
  }

  /** A rule `a|b` with no rule `b|a` puts `a` before `b`, whichever of
      the two is compared first. */
  lemma {:induction false} RuleOrders(rules: seq<Rule>, flat: seq<nat>, a: nat, b: nat)
    requires Flattened(rules, flat) && a != b
    requires Rule(a, b) in rules && Rule(b, a) !in rules
    ensures SortPages(rules, flat, a, b) == -1 && SortPages(rules, flat, b, a) == 1
  {
    var k :| 0 <= k < |rules| && rules[k] == Rule(a, b);
    FirstSharedOf(rules, a, b, k);
    var i :| FirstShared(rules, a, b, i);
    assert rules[i] == Rule(a, b) by {
      assert rules[i] in rules;
    }
    assert FirstShared(rules, b, a, i);
    SortPagesRules(rules, flat, a, b);
    SortPagesRules(rules, flat, b, a);
  }

  // ---------------------------------------------------------------------------
  // sorting an update

  /** One linear insertion step: `x` moves left past every page the
      comparator puts after it, as `zend_insert_sort` and the tail of
      `zend_sort_4` and `zend_sort_5` do. */
  function Insert(rules: seq<Rule>, flat: seq<nat>, s: seq<nat>, x: nat): (r: seq<nat>)
    requires Flattened(rules, flat)
    ensures |r| == |s| + 1
  {
    if s == [] then [x]
    else if SortPages(rules, flat, s[|s| - 1], x) > 0 then Insert(rules, flat, s[..|s| - 1], x) + [s[|s| - 1]]
    else s + [x]
  }

  /** Linear insertion of each page in turn, from the first. */
  function InsertionSort(rules: seq<Rule>, flat: seq<nat>, s: seq<nat>): (r: seq<nat>)
    requires Flattened(rules, flat)
    ensures |r| == |s|
  {
    if s == [] then [] else Insert(rules, flat, InsertionSort(rules, flat, s[..|s| - 1]), s[|s| - 1])
  }

  /** `zend_sort_3`: the three-page network, which compares `a` with `b`,
      then `b` with `c` or `c` with `b`, and at most once more. */
  function Sort3(rules: seq<Rule>, flat: seq<nat>, a: nat, b: nat, c: nat): (r: seq<nat>)
    requires Flattened(rules, flat)
    ensures |r| == 3
  {
    if SortPages(rules, flat, a, b) <= 0 then
      if SortPages(rules, flat, b, c) <= 0 then [a, b, c]
      else if SortPages(rules, flat, a, c) > 0 then [c, a, b]
      else [a, c, b]
    else if SortPages(rules, flat, c, b) <= 0 then [c, b, a]
    else if SortPages(rules, flat, a, c) > 0 then [b, c, a]
    else [b, a, c]
  }

  /** `usort($pages, 'sortPages')`, which runs `zend_sort`: three pages go
      through `zend_sort_3`, four and five pages through `zend_sort_4` and
      `zend_sort_5`, that is `zend_sort_3` followed by linear insertion of
      the fourth and fifth; any other count is sorted here by linear
      insertion. */
  function Sort(rules: seq<Rule>, flat: seq<nat>, s: seq<nat>): (r: seq<nat>)
    requires Flattened(rules, flat)
    ensures |r| == |s|
  {
    if |s| == 3 then Sort3(rules, flat, s[0], s[1], s[2])
    else if |s| == 4 || |s| == 5 then Insert(rules, flat, Sort(rules, flat, s[..|s| - 1]), s[|s| - 1])
    else InsertionSort(rules, flat, s)
  }

  /** Every adjacent pair is in the comparator's order. */
  predicate InOrder(rules: seq<Rule>, flat: seq<nat>, s: seq<nat>)
    requires Flattened(rules, flat)
  {
    forall i :: 0 <= i < |s| - 1 ==> SortPages(rules, flat, s[i], s[i + 1]) < 0
  }

  predicate Distinct(s: seq<nat>) {
    forall i, j :: 0 <= i < j < |s| ==> s[i] != s[j]
  }

  lemma {:induction false} InsertPermutes(rules: seq<Rule>, flat: seq<nat>, s: seq<nat>, x: nat)
    requires Flattened(rules, flat)
    ensures multiset(Insert(rules, flat, s, x)) == multiset(s) + multiset{x}
  {
    if s != [] && SortPages(rules, flat, s[|s| - 1], x) > 0 {
      InsertPermutes(rules, flat, s[..|s| - 1], x);
      assert s == s[..|s| - 1] + [s[|s| - 1]];
    }
  }

  /** The last page after an insertion: the new one, unless it moved
      left of the last page. */
  lemma {:induction false} InsertLast(rules: seq<Rule>, flat: seq<nat>, s: seq<nat>, x: nat)
    requires Flattened(rules, flat)
    ensures var r := Insert(rules, flat, s, x);
      r[|s|] == if s != [] && SortPages(rules, flat, s[|s| - 1], x) > 0 then s[|s| - 1] else x
  {
  }

  /** An ordered list stays ordered with a page after its last one. */
  lemma {:induction false} InOrderSnoc(rules: seq<Rule>, flat: seq<nat>, s: seq<nat>, y: nat)
    requires Flattened(rules, flat) && InOrder(rules, flat, s)
    requires s != [] ==> SortPages(rules, flat, s[|s| - 1], y) < 0
    ensures InOrder(rules, flat, s + [y])
  {
    var r := s + [y];
    forall i | 0 <= i < |r| - 1
      ensures SortPages(rules, flat, r[i], r[i + 1]) < 0
    {
      if i < |s| - 1 {
        assert r[i] == s[i] && r[i + 1] == s[i + 1];
      }
    }
  }

  /** Linear insertion reorders the pages and loses none. */
  lemma {:induction false} InsertionSortPermutes(rules: seq<Rule>, flat: seq<nat>, s: seq<nat>)
    requires Flattened(rules, flat)
    ensures multiset(InsertionSort(rules, flat, s)) == multiset(s)
  {
    if s != [] {
      InsertionSortPermutes(rules, flat, s[..|s| - 1]);
      InsertLastPermutes(rules, flat, s, InsertionSort(rules, flat, s[..|s| - 1]));
    }
  }

  /** Inserting the last page into a reordering of the others reorders
      all of them. */
  lemma {:induction false} InsertLastPermutes(rules: seq<Rule>, flat: seq<nat>, s: seq<nat>, t: seq<nat>)
    requires Flattened(rules, flat) && s != [] && multiset(t) == multiset(s[..|s| - 1])
    ensures multiset(Insert(rules, flat, t, s[|s| - 1])) == multiset(s)
  {
    InsertPermutes(rules, flat, t, s[|s| - 1]);
    assert s == s[..|s| - 1] + [s[|s| - 1]];
  }

  /** `zend_sort_3` reorders the three pages and loses none. */
  lemma {:induction false} Sort3Permutes(rules: seq<Rule>, flat: seq<nat>, s: seq<nat>)
    requires Flattened(rules, flat) && |s| == 3
    ensures multiset(Sort(rules, flat, s)) == multiset(s)
  {
    var a, b, c := s[0], s[1], s[2];
    assert s == [a, b, c];
    var r := Sort3(rules, flat, a, b, c);
    assert r == [a, b, c] || r == [c, a, b] || r == [a, c, b] || r == [c, b, a] || r == [b, c, a] || r == [b, a, c];
    ThreeArrangements(a, b, c, r);
  }

  /** Each arrangement of three pages holds the same pages. */
  lemma {:induction false} ThreeArrangements(a: nat, b: nat, c: nat, r: seq<nat>)
    requires r == [a, b, c] || r == [c, a, b] || r == [a, c, b] || r == [c, b, a] || r == [b, c, a] || r == [b, a, c]
    ensures multiset(r) == multiset([a, b, c])
  {
  }

  /** Sorting reorders the pages and loses none. */
  lemma {:induction false} SortPermutes(rules: seq<Rule>, flat: seq<nat>, s: seq<nat>)
    requires Flattened(rules, flat)
    ensures multiset(Sort(rules, flat, s)) == multiset(s)
    decreases |s|
  {
    if |s| == 3 {
      Sort3Permutes(rules, flat, s);
    } else if |s| == 4 || |s| == 5 {
      var init, x := s[..|s| - 1], s[|s| - 1];
      assert Sort(rules, flat, s) == Insert(rules, flat, Sort(rules, flat, init), x);
      SortPermutes(rules, flat, init);
      InsertLastPermutes(rules, flat, s, Sort(rules, flat, init));
    } else {
      assert Sort(rules, flat, s) == InsertionSort(rules, flat, s);
      InsertionSortPermutes(rules, flat, s);
    }
  }

  /** Linear insertion leaves an ordered update as it is. */
  lemma {:induction false} InOrderInsertionFixed(rules: seq<Rule>, flat: seq<nat>, s: seq<nat>)
    requires Flattened(rules, flat) && InOrder(rules, flat, s)
    ensures InsertionSort(rules, flat, s) == s
  {
    if s != [] {
      var init := s[..|s| - 1];
      assert InOrder(rules, flat, init);
      InOrderInsertionFixed(rules, flat, init);
      assert s == init + [s[|s| - 1]];
    }
  }

  /** An update already in order is left as it is. */
  lemma {:induction false} InOrderSortFixed(rules: seq<Rule>, flat: seq<nat>, s: seq<nat>)
    requires Flattened(rules, flat) && InOrder(rules, flat, s)
    ensures Sort(rules, flat, s) == s
    decreases |s|
  {
    if |s| == 3 {
      assert SortPages(rules, flat, s[0], s[1]) < 0 && SortPages(rules, flat, s[1], s[2]) < 0;
      assert s == [s[0], s[1], s[2]];
    } else if |s| == 4 || |s| == 5 {
      var init := s[..|s| - 1];
      assert InOrder(rules, flat, init);
      InOrderSortFixed(rules, flat, init);
      assert SortPages(rules, flat, s[|s| - 2], s[|s| - 1]) < 0;
      assert s == init + [s[|s| - 1]];
    } else {
      InOrderInsertionFixed(rules, flat, s);
    }
  }

  /** When inserting the last of distinct pages into an arrangement of the
      others gives the pages back, that arrangement was the others as they
      stood, and the last page goes after them. */
  lemma {:induction false} InsertFixedStep(rules: seq<Rule>, flat: seq<nat>, s: seq<nat>, t: seq<nat>)
    requires Flattened(rules, flat) && s != [] && Distinct(s)
    requires multiset(t) == multiset(s[..|s| - 1]) && Insert(rules, flat, t, s[|s| - 1]) == s
    ensures t == s[..|s| - 1]
    ensures InOrder(rules, flat, s[..|s| - 1]) ==> InOrder(rules, flat, s)
  {
    var init, x := s[..|s| - 1], s[|s| - 1];
    assert s == init + [x];
    if t != [] {
      var y := t[|t| - 1];
      assert y in multiset(t);
      assert y in init;
      var k :| 0 <= k < |init| && init[k] == y;
      assert s[k] == y;
    }
    InsertLast(rules, flat, t, x);
    assert |t| == |multiset(t)| == |multiset(init)| == |init|;
    assert t == init by {
      assert Insert(rules, flat, t, x)[..|t|] == t;
      assert s[..|init|] == init;
    }
    if InOrder(rules, flat, init) {
      InOrderSnoc(rules, flat, init, x);
    }
  }

  /** Distinct pages that linear insertion leaves as they are were in
      order. */
  lemma {:induction false} InsertionFixedInOrder(rules: seq<Rule>, flat: seq<nat>, s: seq<nat>)
    requires Flattened(rules, flat) && Distinct(s) && InsertionSort(rules, flat, s) == s
    ensures InOrder(rules, flat, s)
  {
    if s != [] {
      var init := s[..|s| - 1];
      InsertionSortPermutes(rules, flat, init);
      InsertFixedStep(rules, flat, s, InsertionSort(rules, flat, init));
      InsertionFixedInOrder(rules, flat, init);
    }
  }

  /** `zend_sort_3` leaves three distinct pages as they are only when they
      are in order. */
  lemma {:induction false} Sort3FixedInOrder(rules: seq<Rule>, flat: seq<nat>, s: seq<nat>)
    requires Flattened(rules, flat) && |s| == 3 && Distinct(s) && Sort(rules, flat, s) == s
    ensures InOrder(rules, flat, s)
  {
    var a, b, c := s[0], s[1], s[2];
    assert a != b && b != c && a != c;
    assert s == [a, b, c] == Sort3(rules, flat, a, b, c);
    assert SortPages(rules, flat, a, b) < 0 && SortPages(rules, flat, b, c) < 0;
  }

  /** An update of distinct pages that sorting leaves as it is was in
      order. */
  lemma {:induction false} SortFixedInOrder(rules: seq<Rule>, flat: seq<nat>, s: seq<nat>)
    requires Flattened(rules, flat) && Distinct(s) && Sort(rules, flat, s) == s
    ensures InOrder(rules, flat, s)
    decreases |s|
  {
    if |s| == 3 {
      Sort3FixedInOrder(rules, flat, s);
    } else if |s| == 4 || |s| == 5 {
      var init := s[..|s| - 1];
      SortPermutes(rules, flat, init);
      InsertFixedStep(rules, flat, s, Sort(rules, flat, init));
      SortFixedInOrder(rules, flat, init);
    } else {
      InsertionFixedInOrder(rules, flat, s);
    }
  }

  /** The comparator under the cyclic rules `2|1`, `3|2` and `1|3`, which
      is no order: 2 before 1, 3 before 2, and 1 before 3. */
  lemma {:induction false} CyclicOrders(rules: seq<Rule>, flat: seq<nat>)
    requires rules == [Rule(2, 1), Rule(3, 2), Rule(1, 3)] && flat == [2, 1, 3, 2, 1, 3]
    ensures Flattened(rules, flat)
    ensures SortPages(rules, flat, 2, 1) < 0 && SortPages(rules, flat, 1, 2) > 0
    ensures SortPages(rules, flat, 3, 2) < 0 && SortPages(rules, flat, 2, 3) > 0
    ensures SortPages(rules, flat, 1, 3) < 0 && SortPages(rules, flat, 3, 1) > 0
  {
    RuleOrders(rules, flat, 2, 1);
    RuleOrders(rules, flat, 3, 2);
    RuleOrders(rules, flat, 1, 3);
  }

  /** Under the cyclic rules `usort` turns the update 1,2,3 into 3,2,1
      through `zend_sort_3`, where linear insertion gives 2,1,3: the result
      depends on the comparisons the algorithm makes. */
  lemma {:induction false} CyclicRules(rules: seq<Rule>, flat: seq<nat>)
    requires rules == [Rule(2, 1), Rule(3, 2), Rule(1, 3)] && flat == [2, 1, 3, 2, 1, 3]
    ensures Flattened(rules, flat)
    ensures Sort(rules, flat, [1, 2, 3]) == [3, 2, 1]
    ensures InsertionSort(rules, flat, [1, 2, 3]) == [2, 1, 3]
  {
    CyclicOrders(rules, flat);
    assert [1, 2, 3][..2] == [1, 2] && [1, 2][..1] == [1];
    assert InsertionSort(rules, flat, [1, 2]) == Insert(rules, flat, [1], 2) == [2, 1];
    assert Insert(rules, flat, [2, 1], 3) == [2, 1, 3];
  }

  /** The comparator gives opposite answers for two different pages of `s`. */
  ghost predicate Antisymmetric(rules: seq<Rule>, flat: seq<nat>, s: seq<nat>)
    requires Flattened(rules, flat)
  {
    forall x, y :: x in s && y in s && x != y ==> SortPages(rules, flat, x, y) == -SortPages(rules, flat, y, x)
  }

  /** Inserting a new page into an ordered list keeps it ordered. */
  lemma {:induction false} InsertInOrder(rules: seq<Rule>, flat: seq<nat>, s: seq<nat>, x: nat, all: seq<nat>)
    requires Flattened(rules, flat) && InOrder(rules, flat, s) && Antisymmetric(rules, flat, all)
    requires x in all && x !in s && forall y :: y in s ==> y in all
    ensures InOrder(rules, flat, Insert(rules, flat, s, x))
  {
    if s == [] {
    } else if SortPages(rules, flat, s[|s| - 1], x) > 0 {
      var init, last := s[..|s| - 1], s[|s| - 1];
      assert InOrder(rules, flat, init);
      assert last in s;
      InsertInOrder(rules, flat, init, x, all);
      var t := Insert(rules, flat, init, x);
      InsertLast(rules, flat, init, x);
      if init != [] {
        assert SortPages(rules, flat, s[|s| - 2], s[|s| - 1]) < 0;
      }
      InOrderSnoc(rules, flat, t, last);
    } else {
      InOrderSnoc(rules, flat, s, x);
    }
  }

  /** Inserting the last of distinct pages into an ordered arrangement of
      the others keeps it ordered. */
  lemma {:induction false} InsertOrderedStep(rules: seq<Rule>, flat: seq<nat>, init: seq<nat>, t: seq<nat>, x: nat, all: seq<nat>)
    requires Flattened(rules, flat) && Distinct(init + [x]) && Antisymmetric(rules, flat, all)
    requires forall y :: y in init + [x] ==> y in all
    requires multiset(t) == multiset(init) && InOrder(rules, flat, t)
    ensures InOrder(rules, flat, Insert(rules, flat, t, x))
  {
    var s := init + [x];
    forall y | y in t
      ensures y in init && y in all
    {
      assert y in multiset(t);
      assert y in s;
    }
    assert forall k :: 0 <= k < |init| ==> init[k] == s[k] != s[|s| - 1] == x;
    assert x in s;
    InsertInOrder(rules, flat, t, x, all);
  }

  /** Linear insertion of distinct pages on which the comparator is
      antisymmetric puts them in order. */
  lemma {:induction false} InsertionSortInOrder(rules: seq<Rule>, flat: seq<nat>, s: seq<nat>, all: seq<nat>)
    requires Flattened(rules, flat) && Distinct(s) && Antisymmetric(rules, flat, all)
    requires forall y :: y in s ==> y in all
    ensures InOrder(rules, flat, InsertionSort(rules, flat, s))
  {
    if s != [] {
      var init, x := s[..|s| - 1], s[|s| - 1];
      assert init + [x] == s;
      assert forall y :: y in init ==> y in s;
      InsertionSortInOrder(rules, flat, init, all);
      InsertionSortPermutes(rules, flat, init);
      InsertOrderedStep(rules, flat, init, InsertionSort(rules, flat, init), x, all);
    }
  }

  /** `zend_sort_3` puts three distinct pages on which the comparator is
      antisymmetric in order. */
  lemma {:induction false} Sort3InOrder(rules: seq<Rule>, flat: seq<nat>, a: nat, b: nat, c: nat, all: seq<nat>)
    requires Flattened(rules, flat) && Antisymmetric(rules, flat, all)
    requires a in all && b in all && c in all && a != b && b != c && a != c
    ensures InOrder(rules, flat, Sort3(rules, flat, a, b, c))
  {
    assert SortPages(rules, flat, a, b) == -SortPages(rules, flat, b, a);
    assert SortPages(rules, flat, b, c) == -SortPages(rules, flat, c, b);
    assert SortPages(rules, flat, a, c) == -SortPages(rules, flat, c, a);
  }

  /** Sorting distinct pages on which the comparator is antisymmetric puts
      them in order. */
  lemma {:induction false} SortInOrder(rules: seq<Rule>, flat: seq<nat>, s: seq<nat>, all: seq<nat>)
    requires Flattened(rules, flat) && Distinct(s) && Antisymmetric(rules, flat, all)
    requires forall y :: y in s ==> y in all
    ensures InOrder(rules, flat, Sort(rules, flat, s))
    decreases |s|
  {
    if |s| == 3 {
      assert s[0] in s && s[1] in s && s[2] in s;
      Sort3InOrder(rules, flat, s[0], s[1], s[2], all);
    } else if |s| == 4 || |s| == 5 {
      var init, x := s[..|s| - 1], s[|s| - 1];
      assert init + [x] == s;
      assert forall y :: y in init ==> y in s;
      SortInOrder(rules, flat, init, all);
      SortPermutes(rules, flat, init);
      InsertOrderedStep(rules, flat, init, Sort(rules, flat, init), x, all);
    } else {
      InsertionSortInOrder(rules, flat, s, all);
    }
  }

  /** Pages every two of which some rule names are pages the comparator
      is antisymmetric on. */
  lemma {:induction false} CoveredAntisymmetric(rules: seq<Rule>, flat: seq<nat>, s: seq<nat>)
    requires Flattened(rules, flat)
    requires forall x, y :: x in s && y in s && x != y ==> exists i :: 0 <= i < |rules| && Shared(rules[i], x, y)
    ensures Antisymmetric(rules, flat, s)
  {
    forall x, y | x in s && y in s && x != y
      ensures SortPages(rules, flat, x, y) == -SortPages(rules, flat, y, x)
    {
      var k :| 0 <= k < |rules| && Shared(rules[k], x, y);
      FirstSharedOf(rules, x, y, k);
      var i :| FirstShared(rules, x, y, i);
      assert FirstShared(rules, y, x, i);
      SortPagesRules(rules, flat, x, y);
      SortPagesRules(rules, flat, y, x);
    }
  }

  /** When a rule names every two pages of an update, its corrected order
      holds the same pages with every adjacent pair in the comparator's
      order. */
  lemma {:induction false} CorrectedInOrder(rules: seq<Rule>, flat: seq<nat>, u: seq<nat>)
    requires Flattened(rules, flat) && Distinct(u)
    requires forall x, y :: x in u && y in u && x != y ==> exists i :: 0 <= i < |rules| && Shared(rules[i], x, y)
    ensures multiset(Sort(rules, flat, u)) == multiset(u) && InOrder(rules, flat, Sort(rules, flat, u))
  {
    CoveredAntisymmetric(rules, flat, u);
    SortInOrder(rules, flat, u, u);
    SortPermutes(rules, flat, u);
  }

  /** The comparator's order carries over from `x` before `y` and `y`
      before `z` to `x` before `z`, for the pages of `s`. */
  ghost predicate Transitive(rules: seq<Rule>, flat: seq<nat>, s: seq<nat>)
    requires Flattened(rules, flat)
  {
    forall x, y, z {:trigger x in s, y in s, z in s} :: x in s && y in s && z in s ==>
      (SortPages(rules, flat, x, y) < 0 && SortPages(rules, flat, y, z) < 0 ==> SortPages(rules, flat, x, z) < 0)
  }

  /** On a transitive comparator, pages whose adjacent pairs are in order
      are in order two by two. */
  lemma {:induction false} InOrderPairwise(rules: seq<Rule>, flat: seq<nat>, s: seq<nat>, all: seq<nat>, i: nat, j: nat)
    requires Flattened(rules, flat) && InOrder(rules, flat, s) && Transitive(rules, flat, all)
    requires forall y :: y in s ==> y in all
    requires i < j < |s|
    ensures SortPages(rules, flat, s[i], s[j]) < 0
    decreases j - i
  {
    if j > i + 1 {
      InOrderPairwise(rules, flat, s, all, i + 1, j);
      assert SortPages(rules, flat, s[i], s[i + 1]) < 0;
      assert s[i] in all && s[i + 1] in all && s[j] in all;
    }
  }

  /** Two orders of the same pages, each with every adjacent pair in the
      order of an antisymmetric, transitive comparator, start alike: each
      first page goes before every other page of its order. */
  lemma {:induction false} OrderedHeads(rules: seq<Rule>, flat: seq<nat>, s: seq<nat>, t: seq<nat>, all: seq<nat>)
    requires Flattened(rules, flat) && Antisymmetric(rules, flat, all) && Transitive(rules, flat, all)
    requires forall y :: y in s ==> y in all
    requires s != [] && multiset(s) == multiset(t) && InOrder(rules, flat, s) && InOrder(rules, flat, t)
    ensures t != [] && s[0] == t[0]
  {
    assert s[0] in multiset(t);
    assert t[0] in multiset(s);
    if s[0] != t[0] {
      var k :| 0 <= k < |t| && t[k] == s[0];
      var m :| 0 <= m < |s| && s[m] == t[0];
      forall y | y in t
        ensures y in all
      {
        assert y in multiset(s);
      }
      InOrderPairwise(rules, flat, t, all, 0, k);
      InOrderPairwise(rules, flat, s, all, 0, m);
      assert false;
    }
  }

  lemma {:induction false} TailPermutes(s: seq<nat>, t: seq<nat>)
    requires s != [] && t != [] && s[0] == t[0] && multiset(s) == multiset(t)
    ensures multiset(s[1..]) == multiset(t[1..])
  {
    assert s == [s[0]] + s[1..] && t == [t[0]] + t[1..];
    forall z
      ensures multiset(s[1..])[z] == multiset(t[1..])[z]
    {
      assert multiset(s)[z] == multiset{s[0]}[z] + multiset(s[1..])[z];
      assert multiset(t)[z] == multiset{t[0]}[z] + multiset(t[1..])[z];
    }
  }

  lemma {:induction false} InOrderTail(rules: seq<Rule>, flat: seq<nat>, s: seq<nat>)
    requires Flattened(rules, flat) && InOrder(rules, flat, s) && s != []
    ensures InOrder(rules, flat, s[1..])
  {
    forall i | 0 <= i < |s| - 2
      ensures SortPages(rules, flat, s[1..][i], s[1..][i + 1]) < 0
    {
      assert s[1..][i] == s[i + 1] && s[1..][i + 1] == s[i + 2];
    }
  }

  /** Two orders of the same pages, each with every adjacent pair in the
      order of an antisymmetric, transitive comparator, are the same. */
  lemma {:induction false} OrderedUnique(rules: seq<Rule>, flat: seq<nat>, s: seq<nat>, t: seq<nat>, all: seq<nat>)
    requires Flattened(rules, flat) && Antisymmetric(rules, flat, all) && Transitive(rules, flat, all)
    requires forall y :: y in s ==> y in all
    requires multiset(s) == multiset(t) && InOrder(rules, flat, s) && InOrder(rules, flat, t)
    ensures s == t
    decreases |s|
  {
    if s == [] {
      assert |t| == |multiset(t)| == 0;
    } else {
      OrderedHeads(rules, flat, s, t, all);
      var s', t' := s[1..], t[1..];
      TailPermutes(s, t);
      InOrderTail(rules, flat, s);
      InOrderTail(rules, flat, t);
      assert forall y :: y in s' ==> y in s;
      OrderedUnique(rules, flat, s', t', all);
    }
  }

  /** On an update of distinct pages on which the comparator is
      antisymmetric and transitive, an order of its pages has every
      adjacent pair in the comparator's order exactly when it is the one
      `Sort` gives: every sorting algorithm that returns such an order,
      whichever comparisons it makes, agrees with `Sort`. */
  lemma {:induction false} SortIsTheOrder(rules: seq<Rule>, flat: seq<nat>, u: seq<nat>, t: seq<nat>)
    requires Flattened(rules, flat) && Distinct(u)
    requires Antisymmetric(rules, flat, u) && Transitive(rules, flat, u)
    ensures multiset(t) == multiset(u) && InOrder(rules, flat, t) <==> t == Sort(rules, flat, u)
  {
    var s := Sort(rules, flat, u);
    SortInOrder(rules, flat, u, u);
    SortPermutes(rules, flat, u);
    if multiset(t) == multiset(u) && InOrder(rules, flat, t) {
      forall y | y in s
        ensures y in u
      {
        assert y in multiset(s);
      }
      OrderedUnique(rules, flat, s, t, u);
    }
  }

  // ---------------------------------------------------------------------------
  // middle page and QR code

  /** `getMiddleNumber`: the page with as many pages after it as before,
      or one fewer after it when the count is even. */
  function Middle(pages: seq<nat>): (m: nat)
    requires |pages| > 0
    ensures exists k :: 0 <= k < |pages| && pages[k] == m && |pages| - 1 - k <= k <= |pages| - k
  {
    var k := |pages| / 2;
    assert |pages| - 1 - k <= k <= |pages| - k;
    pages[k]
  }

  /** The decimal strings of the pages. */
  function Strings(pages: seq<nat>): (r: seq<string>)
    ensures |r| == |pages| && forall k :: 0 <= k < |pages| ==> r[k] == NatToString(pages[k])
  {
    seq(|pages|, k requires 0 <= k < |pages| => NatToString(pages[k]))
  }

  /** `getUpdateQRCode`: the pages joined by commas. It is empty only for
      no pages, and splits at its commas back into the decimal pages. */
  function QR(pages: seq<nat>): (r: string)
    ensures r == [] <==> pages == []
    ensures pages != [] ==> Explode(r, ',') == Strings(pages)
  {
    if pages == [] then ""
    else
      StringsDigits(pages);
      ImplodeDigits(Strings(pages));
      NoComma(pages);
      ExplodeImplode(Strings(pages), ',');
      Implode(Strings(pages), ',')
  }

  /** Different updates have different QR codes. */
  lemma {:induction false} QRInjective(p: seq<nat>, q: seq<nat>)
    requires QR(p) == QR(q)
    ensures p == q
  {
    if p != [] && q != [] {
      assert Strings(p) == Strings(q);
      forall k | 0 <= k < |p|
        ensures p[k] == q[k]
      {
        StringToNatOfNatToString(p[k]);
        StringToNatOfNatToString(q[k]);
      }
    }
  }

  lemma {:induction false} NoComma(p: seq<nat>)
    ensures forall s :: s in Strings(p) ==> ',' !in s && '|' !in s
  {
    forall s | s in Strings(p)
      ensures ',' !in s && '|' !in s
    {
      var k :| 0 <= k < |p| && Strings(p)[k] == s;
      assert AllDigits(s);
    }
  }

  /** Joined digit strings start and end with a digit, and hold only digits
      and separators. */
  lemma {:induction false} ImplodeDigits(parts: seq<string>)
    requires parts != [] && forall s :: s in parts ==> AllDigits(s) && s != []
    ensures var r := Implode(parts, ','); r != [] && IsDigit(r[0]) && IsDigit(r[|r| - 1])
    ensures forall c :: c in Implode(parts, ',') ==> IsDigit(c) || c == ','
  {
    assert parts[0] in parts;
    if |parts| > 1 {
      assert forall s :: s in parts[1..] ==> s in parts;
      ImplodeDigits(parts[1..]);
      var r := Implode(parts, ',');
      assert r == parts[0] + [','] + Implode(parts[1..], ',');
      assert r[0] == parts[0][0];
    }
  }

  lemma {:induction false} StringsDigits(p: seq<nat>)
    ensures forall s :: s in Strings(p) ==> AllDigits(s) && s != []
  {
  }

  // ---------------------------------------------------------------------------
  // reading the input

  /** The constructor on one line: a line holding '|' is a rule of its
      first two pieces, one holding ',' an update of all its pieces, read
      through `(int)`; a missing second piece reads as 0. */
  function ReadLine(line: string): Entry {
    var t := Trim(line);
    if '|' in t then
      var input := Explode(t, '|');
      RuleEntry(Rule(ToInt(input[0]), ToInt(if |input| > 1 then input[1] else "")))
    else if ',' in t then
      var input := Explode(t, ',');
      UpdateEntry(seq(|input|, k requires 0 <= k < |input| => ToInt(input[k])))
    else Ignored
  }

  /** An update line holds at least two pages. */
  lemma {:induction false} ReadLineShape(line: string)
    ensures ReadLine(line).UpdateEntry? ==> |ReadLine(line).pages| >= 2
  {
    ExplodeCount(Trim(line), ',');
  }

  /** The rules of the lines, in order. */
  function RulesOf(lines: seq<string>): seq<Rule> {
    if lines == [] then []
    else RulesOf(lines[..|lines| - 1]) + match ReadLine(lines[|lines| - 1]) case RuleEntry(r) => [r] case _ => []
  }

  /** The updates of the lines, in order. */
  function UpdatesOf(lines: seq<string>): seq<seq<nat>> {
    if lines == [] then []
    else UpdatesOf(lines[..|lines| - 1]) + match ReadLine(lines[|lines| - 1]) case UpdateEntry(u) => [u] case _ => []
  }

  /** One more line adds its rule or its update, if any. */
  lemma {:induction false} LinesStep(lines: seq<string>, i: nat)
    requires i < |lines|
    ensures RulesOf(lines[..i + 1]) == RulesOf(lines[..i]) + match ReadLine(lines[i]) case RuleEntry(r) => [r] case _ => []
    ensures UpdatesOf(lines[..i + 1]) == UpdatesOf(lines[..i]) + match ReadLine(lines[i]) case UpdateEntry(u) => [u] case _ => []
  {
    assert lines[..i + 1][..i] == lines[..i];
  }

  /** A rule written as `a|b` is read back. */
  lemma {:induction false} RuleLineRoundTrip(a: nat, b: nat)
    ensures ReadLine(NatToString(a) + "|" + NatToString(b)) == RuleEntry(Rule(a, b))
  {
    var sa, sb := NatToString(a), NatToString(b);
    var t := sa + "|" + sb;
    assert t[0] == sa[0] && t[|t| - 1] == sb[|sb| - 1];
    assert IsDigit(t[0]) && IsDigit(t[|t| - 1]);
    TrimKeeps(t);
    assert t[|sa|] == '|';
    NoComma([a, b]);
    assert Strings([a, b]) == [sa, sb];
    assert Implode([sa, sb], '|') == t;
    ExplodeImplode([sa, sb], '|');
    DigitPrefixAll(sa);
    DigitPrefixAll(sb);
    StringToNatOfNatToString(a);
    StringToNatOfNatToString(b);
  }

  /** An update written as its QR code is read back. */
  lemma {:induction false} UpdateLineRoundTrip(pages: seq<nat>)
    requires |pages| >= 2
    ensures ReadLine(QR(pages)) == UpdateEntry(pages)
  {
    var t := QR(pages);
    StringsDigits(pages);
    ImplodeDigits(Strings(pages));
    TrimKeeps(t);
    assert '|' !in t;
    assert Implode(Strings(pages), ',') == NatToString(pages[0]) + [','] + Implode(Strings(pages)[1..], ',');
    assert ',' in t by {
      assert t[|NatToString(pages[0])|] == ',';
    }
    NoComma(pages);
    ExplodeImplode(Strings(pages), ',');
    forall k | 0 <= k < |pages|
      ensures ToInt(Strings(pages)[k]) == pages[k]
    {
      DigitPrefixAll(NatToString(pages[k]));
      StringToNatOfNatToString(pages[k]);
    }
  }

  // ---------------------------------------------------------------------------
  // the run

  /** The middle pages of the updates the sort leaves as they are. */
  function CorrectMiddles(rules: seq<Rule>, flat: seq<nat>, us: seq<seq<nat>>): seq<nat>
    requires Flattened(rules, flat) && forall k :: 0 <= k < |us| ==> |us[k]| > 0
  {
    if us == [] then []
    else
      var u := us[|us| - 1];
      CorrectMiddles(rules, flat, us[..|us| - 1]) + if Sort(rules, flat, u) == u then [Middle(u)] else []
  }

  /** The middle pages of the corrected order of the other updates. */
  function IncorrectMiddles(rules: seq<Rule>, flat: seq<nat>, us: seq<seq<nat>>): seq<nat>
    requires Flattened(rules, flat) && forall k :: 0 <= k < |us| ==> |us[k]| > 0
  {
    if us == [] then []
    else
      var u := us[|us| - 1];
      IncorrectMiddles(rules, flat, us[..|us| - 1]) + if Sort(rules, flat, u) == u then [] else [Middle(Sort(rules, flat, u))]
  }

  /** Every update adds one middle page, to one of the two lists. */
  lemma {:induction false} MiddlesPartition(rules: seq<Rule>, flat: seq<nat>, us: seq<seq<nat>>)
    requires Flattened(rules, flat) && forall k :: 0 <= k < |us| ==> |us[k]| > 0
    ensures |CorrectMiddles(rules, flat, us)| + |IncorrectMiddles(rules, flat, us)| == |us|
  {
    if us != [] {
      MiddlesPartition(rules, flat, us[..|us| - 1]);
    }
  }

  /** The middle pages of the updates whose pages are in the comparator's
      order. */
  function OrderedMiddles(rules: seq<Rule>, flat: seq<nat>, us: seq<seq<nat>>): seq<nat>
    requires Flattened(rules, flat) && forall k :: 0 <= k < |us| ==> |us[k]| > 0
  {
    if us == [] then []
    else
      var u := us[|us| - 1];
      OrderedMiddles(rules, flat, us[..|us| - 1]) + if InOrder(rules, flat, u) then [Middle(u)] else []
  }

  /** For updates of distinct pages, the correct ones are those whose
      pages are in order. */
  lemma {:induction false} CorrectAreOrdered(rules: seq<Rule>, flat: seq<nat>, us: seq<seq<nat>>)
    requires Flattened(rules, flat) && forall k :: 0 <= k < |us| ==> |us[k]| > 0
    requires forall k :: 0 <= k < |us| ==> Distinct(us[k])
    ensures CorrectMiddles(rules, flat, us) == OrderedMiddles(rules, flat, us)
  {
    if us != [] {
      var u := us[|us| - 1];
      CorrectAreOrdered(rules, flat, us[..|us| - 1]);
      if InOrder(rules, flat, u) {
        InOrderSortFixed(rules, flat, u);
      }
      if Sort(rules, flat, u) == u {
        SortFixedInOrder(rules, flat, u);
      }
    }
  }

  /** One more update on each list. */
  lemma {:induction false} MiddlesStep(rules: seq<Rule>, flat: seq<nat>, us: seq<seq<nat>>, i: nat)
    requires Flattened(rules, flat) && forall k :: 0 <= k < |us| ==> |us[k]| > 0
    requires i < |us|
    ensures var u := us[i];
      CorrectMiddles(rules, flat, us[..i + 1]) ==
        CorrectMiddles(rules, flat, us[..i]) + (if Sort(rules, flat, u) == u then [Middle(u)] else []) &&
      IncorrectMiddles(rules, flat, us[..i + 1]) ==
        IncorrectMiddles(rules, flat, us[..i]) + (if Sort(rules, flat, u) == u then [] else [Middle(Sort(rules, flat, u))])
  {
    assert us[..i + 1][..i] == us[..i];
  }

  /** A sum printed, or "N/A" for an empty list. */
  function Report(s: seq<nat>): Option<int> {
    if |s| > 0 then Some(Sum(s)) else None
  }

  /** `Parser`: the rules and the updates of the input, and the corrected
      order saved by the last check. */
  class Parser {
    const pageOrderRules: PageOrderRules
    var updates: seq<seq<nat>>
    var lastCorrectedOrder: Option<seq<nat>>

    predicate Valid()
      reads this, pageOrderRules
    {
      pageOrderRules.Valid() && forall k :: 0 <= k < |updates| ==> |updates[k]| >= 2
    }

    /** `Parser::__construct`: rules and updates in the order of the lines. */
    constructor(lines: seq<string>)
      ensures pageOrderRules.rules == RulesOf(lines) && updates == UpdatesOf(lines)
      ensures lastCorrectedOrder == None && Valid() && fresh(pageOrderRules)
    {
      var por := new PageOrderRules();
      var us: seq<seq<nat>> := [];
      for i := 0 to |lines|
        invariant por.rules == RulesOf(lines[..i]) && us == UpdatesOf(lines[..i])
        invariant por.Valid() && fresh(por)
        invariant forall k :: 0 <= k < |us| ==> |us[k]| >= 2
      {
        LinesStep(lines, i);
        ReadLineShape(lines[i]);
        match ReadLine(lines[i])
        case RuleEntry(r) =>
          por.AddPageOrderRule(r);
        case UpdateEntry(u) =>
          us := us + [u];
        case Ignored =>
      }
      assert lines[..|lines|] == lines;
      pageOrderRules := por;
      updates := us;
      lastCorrectedOrder := None;
    }

    /** `checkUpdateOrder`: saves the sorted update and tells whether
        sorting left it as it was. */
    method CheckUpdateOrder(u: seq<nat>) returns (b: bool)
      requires Valid()
      modifies this
      ensures b <==> Sort(pageOrderRules.rules, pageOrderRules.flat, u) == u
      ensures lastCorrectedOrder == Some(Sort(pageOrderRules.rules, pageOrderRules.flat, u))
      ensures updates == old(updates)
    {
      var correctOrder := Sort(pageOrderRules.rules, pageOrderRules.flat, u);
      lastCorrectedOrder := Some(correctOrder);
      b := QR(u) == QR(correctOrder);
      if b {
        QRInjective(u, correctOrder);
      }
    }

    /** `Parser::run`: the sum of the middle pages of the correct updates,
        and of the corrected middle pages of the others, each `None` when
        there is nothing to add. */
    method Run() returns (correct: Option<int>, incorrect: Option<int>)
      requires Valid()
      modifies this
      ensures Valid()
      ensures correct == Report(CorrectMiddles(pageOrderRules.rules, pageOrderRules.flat, updates))
      ensures incorrect == Report(IncorrectMiddles(pageOrderRules.rules, pageOrderRules.flat, updates))
      ensures updates == old(updates)
    {
      var rules, flat := pageOrderRules.rules, pageOrderRules.flat;
      var cs: seq<nat> := [];
      var fixed: seq<nat> := [];
      for i := 0 to |updates|
        invariant updates == old(updates) && Valid()
        invariant cs == CorrectMiddles(rules, flat, updates[..i])
        invariant fixed == IncorrectMiddles(rules, flat, updates[..i])
      {
        MiddlesStep(rules, flat, updates, i);
        var u := updates[i];
        var ok := CheckUpdateOrder(u);
        if ok {
          cs := cs + [Middle(u)];
        } else if lastCorrectedOrder.Some? && lastCorrectedOrder.value != [] {
          fixed := fixed + [Middle(lastCorrectedOrder.value)];
          lastCorrectedOrder := None;
        }
      }
      assert updates[..|updates|] == updates;
      correct := Report(cs);
      incorrect := Report(fixed);
    }
  }

  /** The whole program on the lines of the input. */
  method Solve(lines: seq<string>) returns (correct: Option<int>, incorrect: Option<int>)
    ensures var rules, us := RulesOf(lines), UpdatesOf(lines);
      Flattened(rules, Flatten(rules)) && (forall k :: 0 <= k < |us| ==> |us[k]| >= 2) &&
      correct == Report(CorrectMiddles(rules, Flatten(rules), us)) &&
      incorrect == Report(IncorrectMiddles(rules, Flatten(rules), us))
  {
    var parser := new Parser(lines);
    FlattenedUnique(parser.pageOrderRules.rules, parser.pageOrderRules.flat);
    correct, incorrect := parser.Run();
  }
}
