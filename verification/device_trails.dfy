/** 2025/11: trails through a rack of devices. A trail is a string of device
    names joined by `->`; trails are joined end to start, never through a
    device twice. The number of trails from one device to another is counted
    over the device graph with a memo. */
module DeviceTrails {
  import opened Common

  /** `Trail::TRAIL_CONNECTOR`. */
  const Connector: string := "->"

  /** The connector starts at position `i` of `s`. */
  predicate ConnectorAt(s: string, i: int) {
    0 <= i && i + 1 < |s| && s[i] == '-' && s[i + 1] == '>'
  }

  /** `s` holds no connector. */
  predicate NoConnector(s: string) {
    forall i :: 0 <= i < |s| ==> !ConnectorAt(s, i)
  }

  /** The first position of the connector in `s` at or after `i`, if any. */
  function FindFrom(s: string, i: nat): (r: Option<nat>)
    requires i <= |s|
    ensures r.Some? ==> i <= r.value && ConnectorAt(s, r.value)
    ensures r.Some? ==> forall k :: i <= k < r.value ==> !ConnectorAt(s, k)
    ensures r.None? ==> forall k :: i <= k < |s| ==> !ConnectorAt(s, k)
    decreases |s| - i
  {
    if i + 1 >= |s| then None
    else if s[i] == '-' && s[i + 1] == '>' then Some(i)
    else FindFrom(s, i + 1)
  }

  /** The first position of the connector in `s`, if any. */
  function FirstConnector(s: string): (r: Option<nat>)
    ensures r.Some? ==> ConnectorAt(s, r.value) && forall i :: 0 <= i < r.value ==> !ConnectorAt(s, i)
    ensures r.None? ==> NoConnector(s)
  {
    FindFrom(s, 0)
  }

  /** `explode('->', $s)`: the pieces between connectors; never empty. */
  function Split(s: string): (r: seq<string>)
    ensures |r| >= 1
    decreases |s|
  {
    match FirstConnector(s)
    case None => [s]
    case Some(i) => [s[..i]] + Split(s[i + 2..])
  }

  /** `implode('->', $parts)`. */
  function Join(parts: seq<string>): string {
    if parts == [] then ""
    else if |parts| == 1 then parts[0]
    else parts[0] + Connector + Join(parts[1..])
  }

  /** No piece of a split holds the connector. */
  lemma {:induction false} SplitPieces(s: string)
    ensures forall p :: p in Split(s) ==> NoConnector(p)
    decreases |s|
  {
    match FirstConnector(s)
    case None =>
    case Some(i) =>
      SplitPieces(s[i + 2..]);
      var head := s[..i];
      forall k | 0 <= k < |head|
        ensures !ConnectorAt(head, k)
      {
        assert !ConnectorAt(s, k);
        assert head[k] == s[k];
        if k + 1 < |head| {
          assert head[k + 1] == s[k + 1];
        }
      }
  }

  /** Joining the pieces of a split gives the string back. */
  lemma {:induction false} JoinSplit(s: string)
    ensures Join(Split(s)) == s
    decreases |s|
  {
    match FirstConnector(s)
    case None =>
    case Some(i) =>
      JoinSplit(s[i + 2..]);
      assert s == s[..i] + Connector + s[i + 2..];
  }

  /** A piece without a connector, followed by the connector, is split at
      that connector. */
  lemma {:induction false} ConnectorAfter(p: string, rest: string)
    requires NoConnector(p)
    ensures FirstConnector(p + Connector + rest) == Some(|p|)
  {
    var s := p + Connector + rest;
    assert ConnectorAt(s, |p|);
    forall i | 0 <= i < |p|
      ensures !ConnectorAt(s, i)
    {
      assert s[i] == p[i];
      if i + 1 < |p| {
        assert !ConnectorAt(p, i);
        assert s[i + 1] == p[i + 1];
      } else {
        assert s[i + 1] == '-';
      }
    }
  }

  /** A piece without a connector, followed by the connector, splits off
      first. */
  lemma {:induction false} SplitCons(p: string, rest: string)
    requires NoConnector(p)
    ensures Split(p + Connector + rest) == [p] + Split(rest)
  {
    var s := p + Connector + rest;
    ConnectorAfter(p, rest);
    assert s[..|p|] == p;
    assert s[|p| + 2..] == rest;
  }

  /** Splitting the join of pieces without connectors gives the pieces back
      (`Trail::from($parts)->getTrailParts() == $parts`). */
  lemma {:induction false} SplitJoin(parts: seq<string>)
    requires parts != []
    requires forall p :: p in parts ==> NoConnector(p)
    ensures Split(Join(parts)) == parts
  {
    if |parts| == 1 {
      assert NoConnector(parts[0]);
      assert FirstConnector(parts[0]).None?;
    } else {
      SplitJoin(parts[1..]);
      SplitCons(parts[0], Join(parts[1..]));
      assert parts == [parts[0]] + parts[1..];
    }
  }

  /** The position of the first `x` in `s` (`array_find_key`). */
  function IndexOf(s: seq<string>, x: string): (r: nat)
    requires x in s
    ensures r < |s| && s[r] == x
    ensures forall j :: 0 <= j < r ==> s[j] != x
  {
    if s[0] == x then 0 else 1 + IndexOf(s[1..], x)
  }

  /** The joining condition of `add`: the trail ends where `t` starts, and no
      later node of `t` is already on the trail. */
  predicate CanAdd(a: seq<string>, b: seq<string>)
    requires a != [] && b != []
  {
    a[|a| - 1] == b[0] && forall j :: 1 <= j < |b| ==> b[j] !in a
  }

  /** The joining condition of `prepend`: `t` ends where the trail starts, and
      no earlier node of `t` is already on the trail. */
  predicate CanPrepend(a: seq<string>, b: seq<string>)
    requires a != [] && b != []
  {
    a[0] == b[|b| - 1] && forall j :: 0 <= j < |b| - 1 ==> b[j] !in a
  }

  predicate NoDup(s: seq<string>) {
    forall i, j :: 0 <= i < j < |s| ==> s[i] != s[j]
  }

  /** `prepend` mirrors `add`: for trails without repeated nodes, adding `b`
      to `a` is allowed exactly when prepending `a` to `b` is. */
  lemma {:induction false} AddMirrorsPrepend(a: seq<string>, b: seq<string>)
    requires a != [] && b != [] && NoDup(a) && NoDup(b)
    ensures CanAdd(a, b) <==> CanPrepend(b, a)
  {
    if CanAdd(a, b) {
      forall j, k | 0 <= j < |a| - 1 && 0 <= k < |b|
        ensures a[j] != b[k]
      {
        if k == 0 {
          assert b[0] == a[|a| - 1];
        } else {
          assert b[k] !in a;
        }
      }
    }
    if CanPrepend(b, a) {
      forall j, k | 1 <= j < |b| && 0 <= k < |a|
        ensures b[j] != a[k]
      {
        if k == |a| - 1 {
          assert a[k] == b[0];
        } else {
          assert a[k] !in b;
        }
      }
    }
  }

  /** A successful join of trails without repeated nodes has none either. */
  lemma {:induction false} JoinedNoDup(a: seq<string>, b: seq<string>)
    requires a != [] && b != [] && NoDup(a) && NoDup(b) && CanAdd(a, b)
    ensures NoDup(a + b[1..])
  {
    var r := a + b[1..];
    forall i, j | 0 <= i < j < |r|
      ensures r[i] != r[j]
    {
      if j >= |a| {
        assert r[j] == b[j - |a| + 1];
        if i >= |a| {
          assert r[i] == b[i - |a| + 1];
        } else {
          assert r[i] in a;
        }
      }
    }
  }

  /** A join starts with its first piece and ends with its last one. */
  lemma {:induction false} JoinEnds(parts: seq<string>)
    requires parts != []
    ensures parts[0] <= Join(parts)
    ensures var last := parts[|parts| - 1];
      |last| <= |Join(parts)| && Join(parts)[|Join(parts)| - |last|..] == last
  {
    if |parts| > 1 {
      JoinEnds(parts[1..]);
      var rest := Join(parts[1..]);
      var whole := parts[0] + Connector + rest;
      assert whole[..|parts[0]|] == parts[0];
      assert whole[|whole| - |rest|..] == rest;
    }
  }

  /** Dropping the shared node from either side gives the same sequence. */
  lemma {:induction false} Overlap(a: seq<string>, b: seq<string>)
    requires a != [] && b != [] && a[|a| - 1] == b[0]
    ensures a[..|a| - 1] + b == a + b[1..]
  {
  }

  /** Joining the pieces of `b` onto `a` in place of `a`'s last node, when
      that node is `b`'s first, splits back into `a` followed by the rest of
      `b`. */
  lemma {:induction false} AddJoined(a: seq<string>, b: seq<string>)
    requires a != [] && b != [] && a[|a| - 1] == b[0]
    requires forall p :: p in a ==> NoConnector(p)
    requires forall p :: p in b ==> NoConnector(p)
    ensures Split(Join(a[..|a| - 1] + b)) == a + b[1..]
  {
    var joined := a[..|a| - 1] + b;
    Overlap(a, b);
    forall p | p in joined
      ensures NoConnector(p)
    {
      assert p in a[..|a| - 1] || p in b;
    }
    SplitJoin(joined);
  }

  /** And the same for joining the pieces of `b` in front of `a`. */
  lemma {:induction false} PrependJoined(a: seq<string>, b: seq<string>)
    requires a != [] && b != [] && a[0] == b[|b| - 1]
    requires forall p :: p in a ==> NoConnector(p)
    requires forall p :: p in b ==> NoConnector(p)
    ensures Split(Join(b + a[1..])) == b[..|b| - 1] + a
  {
    var joined := b + a[1..];
    forall p | p in joined
      ensures NoConnector(p)
    {
      assert p in b || p in a[1..];
    }
    SplitJoin(joined);
    Overlap(b, a);
  }

  /** A name without the connector is the first piece of `name->`. */
  lemma {:induction false} NameFirstPiece(name: string)
    requires NoConnector(name)
    ensures Split(name + Connector)[0] == name
  {
    assert name + Connector == name + Connector + "";
    SplitCons(name, "");
  }

  /** A trail: a string of device names joined by the connector. */
  class Trail {
    var trail: string

    /** `new Trail(new Path($from, $to))`. */
    constructor FromPath(from: string, to: string)
      ensures trail == from + Connector + to
    {
      trail := from + Connector + to;
    }

    /** `Trail::from($paths)`. */
    constructor From(paths: seq<string>)
      ensures trail == Join(paths)
    {
      trail := Join(paths);
    }

    /** `getTrailParts`. */
    function Parts(): (r: seq<string>)
      reads this
      ensures r != []
    {
      Split(trail)
    }

    /** `getStart`: the first node, the text before the first connector. */
    function Start(): (r: string)
      reads this
      ensures NoConnector(r) && r <= trail
    {
      SplitPieces(trail);
      JoinSplit(trail);
      JoinEnds(Parts());
      Parts()[0]
    }

    /** `getEnd`: the last node, the text after the last connector. */
    function End(): (r: string)
      reads this
      ensures NoConnector(r)
      ensures |r| <= |trail| && trail[|trail| - |r|..] == r
    {
      SplitPieces(trail);
      JoinSplit(trail);
      JoinEnds(Parts());
      Parts()[|Parts()| - 1]
    }

    /** `contains`: `stop` is a node of the trail. */
    predicate Contains(stop: string): (b: bool)
      reads this
      ensures b ==> NoConnector(stop)
      ensures stop == Start() || stop == End() ==> b
    {
      SplitPieces(trail);
      stop in Parts()
    }

    /** `getTrailFrom`: the part of the trail from the first `from` on, or
        null when `from` is not on the trail. */
    method GetTrailFrom(from: string) returns (r: Trail?)
      ensures r == null <==> from !in Parts()
      ensures r != null ==> fresh(r)
      ensures r != null ==> r.Parts() == Parts()[IndexOf(Parts(), from)..]
      ensures r != null ==> r.Start() == from
    {
      if !Contains(from) {
        return null;
      }
      var parts := Parts();
      var index := IndexOf(parts, from);
      r := new Trail.From(parts[index..]);
      SplitPieces(trail);
      SplitJoin(parts[index..]);
    }

    /** `add`: joins `t` on at the end when the trail ends where `t` starts
        and no later node of `t` is on the trail yet; the trail's last node
        is replaced by all of `t`. Otherwise nothing changes. */
    method Add(t: Trail) returns (r: bool)
      modifies this
      ensures r == CanAdd(old(Parts()), old(t.Parts()))
      ensures r ==> trail == Join(old(Parts())[..|old(Parts())| - 1] + old(t.Parts()))
      ensures r ==> Parts() == old(Parts()) + old(t.Parts())[1..]
      ensures !r ==> trail == old(trail)
    {
      var endsMatchBeginning := End() == t.Start();
      var newParts := t.Parts();
      var recursion := false;
      var i := 1;
      var l := |newParts|;
      while i < l && !recursion
        invariant 1 <= i <= l
        invariant !recursion ==> forall j :: 1 <= j < i ==> newParts[j] !in Parts()
        invariant recursion ==> newParts[i - 1] in Parts() && i >= 2
      {
        recursion := Contains(newParts[i]);
        i := i + 1;
      }
      if endsMatchBeginning && !recursion {
        var parts := Parts();
        SplitPieces(trail);
        SplitPieces(t.trail);
        AddJoined(parts, newParts);
        trail := Join(parts[..|parts| - 1] + newParts);
        return true;
      }
      return false;
    }

    /** `extendFrom`: adds the part of `t` from this trail's end on, when
        `t` passes through that end. */
    method ExtendFrom(t: Trail) returns (r: bool)
      modifies this
      ensures var tp, e := old(t.Parts()), old(End());
        r <==> e in tp && CanAdd(old(Parts()), tp[IndexOf(tp, e)..])
      ensures var tp, e := old(t.Parts()), old(End());
        r ==> Parts() == old(Parts()) + tp[IndexOf(tp, e)..][1..]
      ensures !r ==> trail == old(trail)
    {
      var ext := t.GetTrailFrom(End());
      if ext == null {
        return false;
      }
      r := Add(ext);
    }

    /** `endsIn($t)` for a trail: this trail ends where `t` starts. */
    predicate EndsIn(t: Trail)
      reads this, t
    {
      End() == Split(t.trail)[0]
    }

    /** `endsIn($name)` for a name: the name is wrapped as the trail
        `name->` and its first piece compared with this trail's end. */
    predicate EndsInName(name: string)
      reads this
    {
      End() == Split(name + Connector)[0]
    }

    /** `prepend`: joins `t` on at the start when `t` ends where the trail
        starts and no earlier node of `t` is on the trail yet; the trail's
        first node is replaced by all of `t`. Otherwise nothing changes. */
    method Prepend(t: Trail) returns (r: bool)
      modifies this
      ensures r == CanPrepend(old(Parts()), old(t.Parts()))
      ensures r ==> trail == Join(old(t.Parts()) + old(Parts())[1..])
      ensures r ==> Parts() == old(t.Parts())[..|old(t.Parts())| - 1] + old(Parts())
      ensures !r ==> trail == old(trail)
    {
      var parts := Parts();
      var newParts := t.Parts();
      var endsMatchBeginning := Start() == t.End();
      assert endsMatchBeginning == (parts[0] == newParts[|newParts| - 1]);
      var recursion := false;
      var i := 0;
      var l := |newParts|;
      while i < l - 1 && !recursion
        invariant 0 <= i <= l - 1
        invariant !recursion ==> forall j :: 0 <= j < i ==> newParts[j] !in parts
        invariant recursion ==> i >= 1 && newParts[i - 1] in parts
      {
        recursion := Contains(newParts[i]);
        i := i + 1;
      }
      if endsMatchBeginning && !recursion {
        SplitPieces(trail);
        SplitPieces(t.trail);
        PrependJoined(parts, newParts);
        trail := Join(newParts + parts[1..]);
        return true;
      }
      return false;
    }
  }

  // ---------------------------------------------------------------------------
  // Counting trails

  /** The devices and the names each one connects to. A device missing from
      the map is unknown (`getDeviceByName` gives null). */
  type Graph = map<string, seq<string>>

  /** A ranking that falls along every connection between known devices, so
      the graph has no cycle and the recursion of `getTrailsToCount` ends. */
  ghost predicate Ranked(g: Graph, rank: map<string, nat>) {
    forall u :: u in g ==> u in rank && forall v :: v in g[u] && v in g ==> v in rank && rank[v] < rank[u]
  }

  /** `array_filter($connections, fn($c) => $c !== $device_to)`. */
  function Without(cs: seq<string>, to: string): (r: seq<string>)
    ensures |r| <= |cs|
    ensures forall c :: c in r <==> c in cs && c != to
  {
    if cs == [] then []
    else (if cs[0] == to then [] else [cs[0]]) + Without(cs[1..], to)
  }

  /** The connections dropped by `Without` are the direct connections to the
      target. */
  lemma {:induction false} WithoutCount(cs: seq<string>, to: string)
    ensures |cs| - |Without(cs, to)| == multiset(cs)[to]
  {
    if cs != [] {
      WithoutCount(cs[1..], to);
      assert cs == [cs[0]] + cs[1..];
    }
  }

  /** What `getTrailsToCount` computes for device `u`: one trail for every
      direct connection to the target, plus the trails from every other
      known device it connects to. */
  ghost function Count(g: Graph, rank: map<string, nat>, u: string, to: string): (r: int)
    requires Ranked(g, rank) && u in g
    ensures r >= multiset(g[u])[to] >= 0
    decreases rank[u], 1, 0
  {
    var others := Without(g[u], to);
    WithoutCount(g[u], to);
    (|g[u]| - |others|) + SumOver(g, rank, rank[u], others, to)
  }

  /** The `array_reduce` over the other connections. */
  ghost function SumOver(g: Graph, rank: map<string, nat>, bound: nat, cs: seq<string>, to: string): (r: int)
    requires Ranked(g, rank)
    requires forall c :: c in cs && c in g ==> rank[c] < bound
    ensures r >= 0
    decreases bound, 0, |cs|
  {
    if cs == [] then 0
    else
      var last := cs[|cs| - 1];
      SumOver(g, rank, bound, cs[..|cs| - 1], to) + (if last in g then Count(g, rank, last, to) else 0)
  }

  /** One more connection in the `array_reduce`. */
  lemma {:induction false} SumOverStep(g: Graph, rank: map<string, nat>, bound: nat, cs: seq<string>, k: nat, to: string)
    requires Ranked(g, rank) && k < |cs|
    requires forall c :: c in cs && c in g ==> rank[c] < bound
    ensures SumOver(g, rank, bound, cs[..k + 1], to)
      == SumOver(g, rank, bound, cs[..k], to) + (if cs[k] in g then Count(g, rank, cs[k], to) else 0)
  {
    assert cs[..k + 1][..k] == cs[..k];
  }

  /** The trails themselves: every way from `u` along connections that stops
      on first reaching the target, one per connection taken. */
  ghost function Walks(g: Graph, rank: map<string, nat>, u: string, to: string): seq<seq<string>>
    requires Ranked(g, rank) && u in g
    decreases rank[u], 1, 0
  {
    var others := Without(g[u], to);
    Direct(u, g[u], to) + WalksOver(g, rank, rank[u], u, others, to)
  }

  /** One trail `[u, to]` per direct connection. */
  function Direct(u: string, cs: seq<string>, to: string): seq<seq<string>> {
    if cs == [] then []
    else (if cs[0] == to then [[u, to]] else []) + Direct(u, cs[1..], to)
  }

  ghost function WalksOver(g: Graph, rank: map<string, nat>, bound: nat, u: string, cs: seq<string>, to: string): seq<seq<string>>
    requires Ranked(g, rank)
    requires forall c :: c in cs && c in g ==> rank[c] < bound
    decreases bound, 0, |cs|
  {
    if cs == [] then []
    else
      var last := cs[|cs| - 1];
      WalksOver(g, rank, bound, u, cs[..|cs| - 1], to)
        + (if last in g then Prefixed(u, Walks(g, rank, last, to)) else [])
  }

  /** Every walk with `u` put in front. */
  function Prefixed(u: string, ws: seq<seq<string>>): (r: seq<seq<string>>)
    ensures |r| == |ws|
    ensures forall k :: 0 <= k < |r| ==> r[k] == [u] + ws[k]
  {
    if ws == [] then [] else [[u] + ws[0]] + Prefixed(u, ws[1..])
  }

  /** A walk from `u` to `to`: each step follows a connection, and only its
      last node is the target. */
  ghost predicate IsWalk(g: Graph, w: seq<string>, u: string, to: string) {
    && |w| >= 2 && w[0] == u && w[|w| - 1] == to
    && (forall k :: 0 <= k < |w| - 1 ==> w[k] in g && w[k + 1] in g[w[k]])
    && (forall k :: 0 <= k < |w| - 1 ==> w[k] != to)
  }

  lemma {:induction false} DirectFacts(u: string, cs: seq<string>, to: string)
    ensures |Direct(u, cs, to)| == |cs| - |Without(cs, to)|
    ensures forall w :: w in Direct(u, cs, to) ==> w == [u, to] && to in cs
  {
    if cs != [] {
      DirectFacts(u, cs[1..], to);
    }
  }

  /** The count is the number of walks, and every walk is a walk from `u` to
      the target. */
  lemma {:induction false} WalksCount(g: Graph, rank: map<string, nat>, u: string, to: string)
    requires Ranked(g, rank) && u in g && u != to
    ensures |Walks(g, rank, u, to)| == Count(g, rank, u, to)
    ensures forall w :: w in Walks(g, rank, u, to) ==> IsWalk(g, w, u, to)
    decreases rank[u], 1, 0
  {
    var others := Without(g[u], to);
    DirectFacts(u, g[u], to);
    WalksOverCount(g, rank, rank[u], u, others, to);
    forall w | w in Walks(g, rank, u, to)
      ensures IsWalk(g, w, u, to)
    {
      if w in Direct(u, g[u], to) {
        assert w == [u, to];
      }
    }
  }

  lemma {:induction false} WalksOverCount(g: Graph, rank: map<string, nat>, bound: nat, u: string, cs: seq<string>, to: string)
    requires Ranked(g, rank) && u in g && u != to
    requires forall c :: c in cs ==> c in g[u] && c != to
    requires forall c :: c in cs && c in g ==> rank[c] < bound
    ensures |WalksOver(g, rank, bound, u, cs, to)| == SumOver(g, rank, bound, cs, to)
    ensures forall w :: w in WalksOver(g, rank, bound, u, cs, to) ==> IsWalk(g, w, u, to)
    decreases bound, 0, |cs|
  {
    if cs != [] {
      var init, last := cs[..|cs| - 1], cs[|cs| - 1];
      assert last in cs && forall c :: c in init ==> c in cs;
      WalksOverCount(g, rank, bound, u, init, to);
      if last in g {
        WalksCount(g, rank, last, to);
        var ws := Walks(g, rank, last, to);
        forall k | 0 <= k < |ws|
          ensures IsWalk(g, [u] + ws[k], u, to)
        {
          var w := [u] + ws[k];
          assert IsWalk(g, ws[k], last, to);
          forall m | 0 <= m < |w| - 1
            ensures w[m] in g && w[m + 1] in g[w[m]] && w[m] != to
          {
            if m > 0 {
              assert w[m] == ws[k][m - 1] && w[m + 1] == ws[k][m];
            }
          }
        }
      }
    }
  }

  /** `[u, to]` is listed once for every direct connection to the target. */
  lemma {:induction false} DirectHas(u: string, cs: seq<string>, to: string)
    requires to in cs
    ensures [u, to] in Direct(u, cs, to)
  {
    if cs[0] != to {
      DirectHas(u, cs[1..], to);
    }
  }

  /** The trails through one more connection `c` of `u`. */
  lemma {:induction false} WalksOverHas(g: Graph, rank: map<string, nat>, bound: nat, u: string, cs: seq<string>,
                                        to: string, c: string, v: seq<string>)
    requires Ranked(g, rank)
    requires forall x :: x in cs && x in g ==> rank[x] < bound
    requires c in cs && c in g && v in Walks(g, rank, c, to)
    ensures [u] + v in WalksOver(g, rank, bound, u, cs, to)
    decreases |cs|
  {
    var init, last := cs[..|cs| - 1], cs[|cs| - 1];
    if last == c {
      var ws := Walks(g, rank, c, to);
      var k :| 0 <= k < |ws| && ws[k] == v;
      assert Prefixed(u, ws)[k] == [u] + v;
    } else {
      assert c in init;
      WalksOverHas(g, rank, bound, u, init, to, c, v);
    }
  }

  /** Every walk from `u` to the target is listed: the count misses none. */
  lemma {:induction false} WalksComplete(g: Graph, rank: map<string, nat>, u: string, to: string, w: seq<string>)
    requires Ranked(g, rank) && u in g && IsWalk(g, w, u, to)
    ensures w in Walks(g, rank, u, to)
    decreases rank[u]
  {
    if |w| == 2 {
      assert w == [u, to];
      DirectHas(u, g[u], to);
    } else {
      var c := w[1];
      assert c in g && c in g[u] && c != to;
      var rest := w[1..];
      assert IsWalk(g, rest, c, to) by {
        forall k | 0 <= k < |rest| - 1
          ensures rest[k] in g && rest[k + 1] in g[rest[k]] && rest[k] != to
        {
          assert rest[k] == w[k + 1] && rest[k + 1] == w[k + 2];
        }
      }
      WalksComplete(g, rank, c, to, rest);
      var others := Without(g[u], to);
      WalksOverHas(g, rank, rank[u], u, others, to, c, rest);
      assert [u] + rest == w;
    }
  }

  /** No walk is listed twice. */
  ghost predicate DistinctWalks(ws: seq<seq<string>>) {
    forall i, j :: 0 <= i < j < |ws| ==> ws[i] != ws[j]
  }

  /** No device lists the same connection twice. */
  ghost predicate Simple(g: Graph) {
    forall u :: u in g ==> NoDup(g[u])
  }

  lemma {:induction false} DistinctAppend(a: seq<seq<string>>, b: seq<seq<string>>)
    requires DistinctWalks(a) && DistinctWalks(b)
    requires forall x :: x in a ==> x !in b
    ensures DistinctWalks(a + b)
  {
    var ab := a + b;
    forall i, j | 0 <= i < j < |ab|
      ensures ab[i] != ab[j]
    {
      if i < |a| && j >= |a| {
        assert ab[i] in a && ab[j] == b[j - |a|];
      } else if i >= |a| {
        assert ab[i] == b[i - |a|] && ab[j] == b[j - |a|];
      }
    }
  }

  lemma {:induction false} PrefixedDistinct(u: string, ws: seq<seq<string>>)
    requires DistinctWalks(ws)
    ensures DistinctWalks(Prefixed(u, ws))
  {
    var r := Prefixed(u, ws);
    forall i, j | 0 <= i < j < |r|
      ensures r[i] != r[j]
    {
      assert r[i][1..] == ws[i] && r[j][1..] == ws[j];
    }
  }

  /** A list without repeats has at most one direct connection to the target. */
  lemma {:induction false} DirectAtMostOne(u: string, cs: seq<string>, to: string)
    requires NoDup(cs)
    ensures |Direct(u, cs, to)| <= 1
  {
    if cs != [] {
      assert NoDup(cs[1..]) by {
        forall i, j | 0 <= i < j < |cs| - 1
          ensures cs[1..][i] != cs[1..][j]
        {
          assert cs[1..][i] == cs[i + 1] && cs[1..][j] == cs[j + 1];
        }
      }
      DirectAtMostOne(u, cs[1..], to);
      if cs[0] == to {
        forall k | 0 <= k < |cs| - 1
          ensures cs[1..][k] != to
        {
          assert cs[1..][k] == cs[k + 1];
        }
        DirectNone(u, cs[1..], to);
      }
    }
  }

  lemma {:induction false} DirectNone(u: string, cs: seq<string>, to: string)
    requires to !in cs
    ensures Direct(u, cs, to) == []
  {
    if cs != [] {
      DirectNone(u, cs[1..], to);
    }
  }

  /** Dropping the target keeps a list without repeats. */
  lemma {:induction false} WithoutNoDup(cs: seq<string>, to: string)
    requires NoDup(cs)
    ensures NoDup(Without(cs, to))
  {
    if cs != [] {
      assert NoDup(cs[1..]) by {
        forall i, j | 0 <= i < j < |cs| - 1
          ensures cs[1..][i] != cs[1..][j]
        {
          assert cs[1..][i] == cs[i + 1] && cs[1..][j] == cs[j + 1];
        }
      }
      WithoutNoDup(cs[1..], to);
      var r := Without(cs, to);
      var rest := Without(cs[1..], to);
      if cs[0] != to {
        forall k | 0 <= k < |cs| - 1
          ensures cs[1..][k] != cs[0]
        {
          assert cs[1..][k] == cs[k + 1];
        }
        assert cs[0] !in rest;
        assert r == [cs[0]] + rest;
        forall i, j | 0 <= i < j < |r|
          ensures r[i] != r[j]
        {
          if i == 0 {
            assert r[j] == rest[j - 1];
          } else {
            assert r[i] == rest[i - 1] && r[j] == rest[j - 1];
          }
        }
      } else {
        assert r == rest;
      }
    }
  }

  /** The trails through the connections `cs` start with `u`, then one of
      `cs`, and have at least three nodes. */
  lemma {:induction false} WalksOverShape(g: Graph, rank: map<string, nat>, bound: nat, u: string, cs: seq<string>, to: string)
    requires Ranked(g, rank)
    requires forall c :: c in cs && c in g ==> rank[c] < bound && c != to
    ensures forall w :: w in WalksOver(g, rank, bound, u, cs, to) ==> |w| >= 3 && w[0] == u && w[1] in cs
    decreases |cs|
  {
    if cs != [] {
      var init, last := cs[..|cs| - 1], cs[|cs| - 1];
      WalksOverShape(g, rank, bound, u, init, to);
      if last in g {
        WalksCount(g, rank, last, to);
        var ws := Walks(g, rank, last, to);
        forall k | 0 <= k < |ws|
          ensures |[u] + ws[k]| >= 3 && ([u] + ws[k])[1] == last
        {
          assert IsWalk(g, ws[k], last, to);
        }
      }
    }
  }

  /** When no device lists a connection twice, no trail is listed twice:
      with `WalksCount` and `WalksComplete`, the count is the number of
      walks from `u` to the target. */
  lemma {:induction false} WalksDistinct(g: Graph, rank: map<string, nat>, u: string, to: string)
    requires Ranked(g, rank) && Simple(g) && u in g && u != to
    ensures DistinctWalks(Walks(g, rank, u, to))
    decreases rank[u], 1, 0
  {
    var others := Without(g[u], to);
    var d := Direct(u, g[u], to);
    DirectAtMostOne(u, g[u], to);
    DirectFacts(u, g[u], to);
    WithoutNoDup(g[u], to);
    WalksOverDistinct(g, rank, rank[u], u, others, to);
    WalksOverShape(g, rank, rank[u], u, others, to);
    DistinctAppend(d, WalksOver(g, rank, rank[u], u, others, to));
  }

  lemma {:induction false} WalksOverDistinct(g: Graph, rank: map<string, nat>, bound: nat, u: string, cs: seq<string>, to: string)
    requires Ranked(g, rank) && Simple(g) && NoDup(cs)
    requires forall c :: c in cs && c in g ==> rank[c] < bound && c != to
    ensures DistinctWalks(WalksOver(g, rank, bound, u, cs, to))
    decreases bound, 0, |cs|
  {
    if cs != [] {
      var init, last := cs[..|cs| - 1], cs[|cs| - 1];
      assert NoDup(init);
      WalksOverDistinct(g, rank, bound, u, init, to);
      if last in g {
        var ws := Walks(g, rank, last, to);
        WalksDistinct(g, rank, last, to);
        PrefixedDistinct(u, ws);
        assert last !in init by {
          forall m | 0 <= m < |init|
            ensures init[m] != last
          {
            assert init[m] == cs[m];
          }
        }
        LastApart(g, rank, bound, u, init, last, to);
        DistinctAppend(WalksOver(g, rank, bound, u, init, to), Prefixed(u, ws));
      }
    }
  }

  /** The trails through the last connection share no trail with those
      through the earlier ones: their second nodes differ. */
  lemma {:induction false} LastApart(g: Graph, rank: map<string, nat>, bound: nat, u: string, init: seq<string>, last: string, to: string)
    requires Ranked(g, rank) && last !in init && last in g && last != to
    requires forall c :: c in init && c in g ==> rank[c] < bound && c != to
    ensures forall x :: x in WalksOver(g, rank, bound, u, init, to) ==> x !in Prefixed(u, Walks(g, rank, last, to))
  {
    var ws := Walks(g, rank, last, to);
    WalksOverShape(g, rank, bound, u, init, to);
    WalksCount(g, rank, last, to);
    forall y | y in Prefixed(u, ws)
      ensures |y| >= 2 && y[1] == last
    {
      var k :| 0 <= k < |ws| && Prefixed(u, ws)[k] == y;
      assert IsWalk(g, ws[k], last, to);
    }
    forall x | x in WalksOver(g, rank, bound, u, init, to)
      ensures x !in Prefixed(u, ws)
    {
      assert x[1] in init;
    }
  }

  // ---------------------------------------------------------------------------
  // The recursion as written, on any graph

  /** `getTrailsToCount` with no ranking: nothing in the source stops the
      recursion on a cycle (the memo is only filled once a call returns), so
      here the depth of nested calls is bounded by `fuel` and `None` stands
      for a recursion that has not ended by then. */
  function CountFuel(g: Graph, u: string, to: string, fuel: nat): Option<int>
    requires u in g
    decreases fuel, 0, 0
  {
    if fuel == 0 then None
    else
      var others := Without(g[u], to);
      match SumFuel(g, others, to, fuel - 1)
      case None => None
      case Some(s) => Some((|g[u]| - |others|) + s)
  }

  function SumFuel(g: Graph, cs: seq<string>, to: string, fuel: nat): Option<int>
    decreases fuel, 1, |cs|
  {
    if cs == [] then Some(0)
    else
      var last := cs[|cs| - 1];
      match SumFuel(g, cs[..|cs| - 1], to, fuel)
      case None => None
      case Some(a) =>
        if last !in g then Some(a)
        else match CountFuel(g, last, to, fuel)
          case None => None
          case Some(b) => Some(a + b)
  }

  /** On a graph without cycles, enough depth gives exactly `Count`. */
  lemma {:induction false} CountFuelAgrees(g: Graph, rank: map<string, nat>, u: string, to: string, fuel: nat)
    requires Ranked(g, rank) && u in g && rank[u] < fuel
    ensures CountFuel(g, u, to, fuel) == Some(Count(g, rank, u, to))
    decreases rank[u], 1, 0
  {
    SumFuelAgrees(g, rank, rank[u], Without(g[u], to), to, fuel - 1);
  }

  lemma {:induction false} SumFuelAgrees(g: Graph, rank: map<string, nat>, bound: nat, cs: seq<string>, to: string, fuel: nat)
    requires Ranked(g, rank) && bound <= fuel
    requires forall c :: c in cs && c in g ==> rank[c] < bound
    ensures SumFuel(g, cs, to, fuel) == Some(SumOver(g, rank, bound, cs, to))
    decreases bound, 0, |cs|
  {
    if cs != [] {
      var last := cs[|cs| - 1];
      SumFuelAgrees(g, rank, bound, cs[..|cs| - 1], to, fuel);
      if last in g {
        CountFuelAgrees(g, rank, last, to, fuel);
      }
    }
  }

  /** A device connected to itself: however deep the recursion may go, the
      count from it never comes back. */
  lemma {:induction false} SelfLoopNeverEnds(fuel: nat)
    ensures CountFuel(map["aaa" := ["aaa"]], "aaa", "out", fuel) == None
  {
    var g := map["aaa" := ["aaa"]];
    if fuel > 0 {
      assert Without(["aaa"], "out") == ["aaa"] by {
        assert ["aaa"][1..] == [];
      }
      SelfLoopNeverEnds(fuel - 1);
      assert ["aaa"][..0] == [];
      assert SumFuel(g, ["aaa"], "out", fuel - 1) == None;
    }
  }

  /** The devices of the rack with the memo of `getTrailsToCount`. */
  class Rack {
    /** Each device and the names it connects to (`Device::$devices`). */
    const devices: Graph
    /** A ranking witnessing that the connections have no cycle. */
    ghost const rank: map<string, nat>
    /** `Device::$trails_count_cache`, keyed by (device, target). */
    var cache: map<(string, string), int>

    /** Every cached count is the count. */
    ghost predicate Valid()
      reads this
    {
      && Ranked(devices, rank)
      && forall k :: k in cache ==> k.0 in devices && cache[k] == Count(devices, rank, k.0, k.1)
    }

    constructor(devices: Graph, ghost rank: map<string, nat>)
      requires Ranked(devices, rank)
      ensures this.devices == devices && this.rank == rank && cache == map[]
      ensures Valid()
    {
      this.devices := devices;
      this.rank := rank;
      cache := map[];
    }

    /** `getTrailsToCount`: the number of trails from device `u` to `to`,
        taken from the memo when it is there and recorded in it otherwise. */
    method GetTrailsToCount(u: string, to: string) returns (n: int)
      requires Valid() && u in devices
      modifies this
      ensures Valid()
      ensures n == Count(devices, rank, u, to)
      ensures (u, to) in cache
      ensures forall k :: k in old(cache) ==> k in cache
      decreases rank[u]
    {
      if (u, to) in cache {
        return cache[(u, to)];
      }
      var connections := devices[u];
      var others := Without(connections, to);
      var found := |connections| - |others|;
      var acc := 0;
      for k := 0 to |others|
        invariant Valid()
        invariant forall c :: c in others[..k] ==> c in others
        invariant acc == SumOver(devices, rank, rank[u], others[..k], to)
        invariant forall key :: key in old(cache) ==> key in cache
      {
        var c := others[k];
        SumOverStep(devices, rank, rank[u], others, k, to);
        if c in devices {
          var m := GetTrailsToCount(c, to);
          acc := acc + m;
        }
      }
      assert others[..|others|] == others;
      n := found + acc;
      cache := cache[(u, to) := n];
    }
  }
}
