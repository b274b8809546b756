/** 2024/02: reports of levels separated by spaces. A report is safe when
    its levels all increase or all decrease, by 1 to 3 at each step; the
    problem dampener lets a report through when removing one level makes it
    safe, trying only three candidate levels. */
module Reports {
  import opened Common
  import opened Text

  const MinLevelsOffset := 1
  const MaxLevelsOffset := 3

  // ---------------------------------------------------------------------------
  // Levels

  /** `getLevels`: the report split on spaces into at least one piece;
      no piece holds a space, and joining them with spaces gives the report
      back. */
  function GetLevels(line: string): (ps: seq<string>)
    ensures |ps| >= 1 && Implode(ps, ' ') == line
    ensures forall k :: 0 <= k < |ps| ==> ' ' !in ps[k]
  {
    ExplodePieces(line, ' ');
    ImplodeExplode(line, ' ');
    Explode(line, ' ')
  }

  /** The levels as numbers: each piece read by its leading digits, which
      is how PHP's arithmetic reads a piece that starts with a digit. Any
      other piece throws instead, once it is read (see `Report`). */
  function Values(line: string): (ls: seq<int>)
    ensures |ls| == |GetLevels(line)| && |ls| >= 1
  {
    var p := GetLevels(line);
    seq(|p|, i requires 0 <= i < |p| => ToInt(p[i]))
  }

  /** `$levels[$i]`: a missing level reads as `null`, which is 0 in
      arithmetic. */
  function Level(ls: seq<int>, i: int): int {
    if 0 <= i < |ls| then ls[i] else 0
  }

  /** `checkDirection`: the step from level `i` to level `i + 1` does not go
      down; past the last level the missing level reads as 0. */
  predicate CheckDirection(ls: seq<int>, i: int)
    ensures 0 <= i && i + 1 < |ls| ==> (CheckDirection(ls, i) <==> ls[i] <= ls[i + 1])
    ensures 0 <= i && i + 1 == |ls| ==> (CheckDirection(ls, i) <==> ls[i] <= 0)
  {
    Level(ls, i + 1) - Level(ls, i) >= 0
  }

  /** `checkLevel`: the step from level `i` goes in direction `incr`, by at
      least 1 and at most 3; spelled out, it goes up by 1 to 3 when `incr`
      holds and down by 1 to 3 otherwise. */
  predicate CheckLevel(ls: seq<int>, i: int, incr: bool)
    ensures CheckLevel(ls, i, incr) <==>
      if incr then 1 <= Level(ls, i + 1) - Level(ls, i) <= 3
      else 1 <= Level(ls, i) - Level(ls, i + 1) <= 3
  {
    CheckDirection(ls, i) == incr
    && MinLevelsOffset <= Abs(Level(ls, i + 1) - Level(ls, i)) <= MaxLevelsOffset
  }

  /** The last step `checkReport` looks at: the one into the last level, or
      the step from level 0 when there is no second level. */
  function LastPair(ls: seq<int>): nat {
    if |ls| >= 2 then |ls| - 2 else 0
  }

  /** Every step `checkReport` looks at goes in the direction of the first
      one, by 1 to 3. */
  predicate Safe(ls: seq<int>) {
    forall i :: 0 <= i <= LastPair(ls) ==> CheckLevel(ls, i, CheckDirection(ls, 0))
  }

  /** A report of at least two levels is safe exactly when its levels all
      go up, or all go down, by 1 to 3 at each step. */
  lemma {:induction false} SafeMeaning(ls: seq<int>)
    requires |ls| >= 2
    ensures Safe(ls) <==>
      (forall i :: 0 <= i < |ls| - 1 ==> 1 <= ls[i + 1] - ls[i] <= 3)
      || (forall i :: 0 <= i < |ls| - 1 ==> 1 <= ls[i] - ls[i + 1] <= 3)
  {
    var up := forall i :: 0 <= i < |ls| - 1 ==> 1 <= ls[i + 1] - ls[i] <= 3;
    var down := forall i :: 0 <= i < |ls| - 1 ==> 1 <= ls[i] - ls[i + 1] <= 3;
    if Safe(ls) {
      if CheckDirection(ls, 0) {
        forall i | 0 <= i < |ls| - 1
          ensures 1 <= ls[i + 1] - ls[i] <= 3
        {
          assert CheckLevel(ls, i, true);
        }
      } else {
        forall i | 0 <= i < |ls| - 1
          ensures 1 <= ls[i] - ls[i + 1] <= 3
        {
          assert CheckLevel(ls, i, false);
        }
      }
    }
    if up {
      assert CheckDirection(ls, 0);
      forall i | 0 <= i <= LastPair(ls)
        ensures CheckLevel(ls, i, true)
      {
      }
    }
    if down {
      assert !CheckDirection(ls, 0);
      forall i | 0 <= i <= LastPair(ls)
        ensures CheckLevel(ls, i, false)
      {
      }
    }
  }

  // ---------------------------------------------------------------------------
  // checkReport

  /** The answer of `checkReport` from step `i` on: the index of the second
      level of the first bad step, or -1 when there is none. */
  function BadFrom(ls: seq<int>, i: nat): (r: int)
    requires i <= LastPair(ls)
    ensures r == -1 || i + 1 <= r
    decreases LastPair(ls) - i
  {
    if !CheckLevel(ls, i, CheckDirection(ls, 0)) then i + 1
    else if i + 1 <= LastPair(ls) then BadFrom(ls, i + 1)
    else -1
  }

  /** What `checkReport` answers for the levels `ls`. */
  function BadLevel(ls: seq<int>): (r: int)
    ensures r == -1 || 1 <= r
  {
    BadFrom(ls, 0)
  }

  /** From step `i` on, the scan answers -1 exactly when every step is good,
      and otherwise the index after the first bad step. */
  lemma {:induction false} BadFromMeaning(ls: seq<int>, i: nat)
    requires i <= LastPair(ls)
    ensures var r := BadFrom(ls, i);
      (r == -1 <==> forall k :: i <= k <= LastPair(ls) ==> CheckLevel(ls, k, CheckDirection(ls, 0)))
      && (r != -1 ==>
            && i + 1 <= r <= LastPair(ls) + 1
            && !CheckLevel(ls, r - 1, CheckDirection(ls, 0))
            && forall k :: i <= k < r - 1 ==> CheckLevel(ls, k, CheckDirection(ls, 0)))
    decreases LastPair(ls) - i
  {
    if CheckLevel(ls, i, CheckDirection(ls, 0)) && i + 1 <= LastPair(ls) {
      BadFromMeaning(ls, i + 1);
    }
  }

  /** `checkReport` answers -1 exactly for a safe report; otherwise the
      index of the second level of the first bad step, which is at least 1
      and a level of the report when it has two levels or more. */
  lemma {:induction false} BadLevelMeaning(ls: seq<int>)
    ensures var r := BadLevel(ls);
      (r == -1 <==> Safe(ls))
      && (r != -1 ==>
            && 1 <= r <= LastPair(ls) + 1
            && !CheckLevel(ls, r - 1, CheckDirection(ls, 0))
            && forall k :: 0 <= k < r - 1 ==> CheckLevel(ls, k, CheckDirection(ls, 0)))
  {
    BadFromMeaning(ls, 0);
  }

  /** A piece PHP's arithmetic can read: it starts with a digit. Any other
      piece, the empty piece left by a double space or an empty report
      included, makes the subtraction throw a `TypeError`. */
  predicate Readable(piece: string) {
    piece != [] && IsDigit(piece[0])
  }

  /** How far `checkReport` reads: the second level of the step it stops
      at, or the last step's when every step is good. */
  function ReadUpTo(ls: seq<int>): nat {
    var b := BadLevel(ls);
    if b == -1 then LastPair(ls) + 1 else b
  }

  /** Some piece among the first `n + 1` cannot be read. */
  predicate ReadsUnreadable(p: seq<string>, n: nat) {
    exists k :: 0 <= k <= n && k < |p| && !Readable(p[k])
  }

  /** What `checkReport` does with a report: it throws when a piece it
      reads cannot be read, and answers `BadLevel` otherwise. */
  function Report(line: string): Result<int> {
    if ReadsUnreadable(GetLevels(line), ReadUpTo(Values(line))) then Err(NonNumeric)
    else Ok(BadLevel(Values(line)))
  }

  const NonNumeric := "Unsupported operand types"

  /** An unreadable level of step `i` is among the first `n + 1` pieces
      when `n` is past that step. */
  lemma {:induction false} UnreadableWithin(p: seq<string>, i: nat, n: nat)
    requires i + 1 <= n
    requires (i < |p| && !Readable(p[i])) || (i + 1 < |p| && !Readable(p[i + 1]))
    ensures ReadsUnreadable(p, n)
  {
    if i < |p| && !Readable(p[i]) {
      assert 0 <= i <= n && i < |p| && !Readable(p[i]);
    } else {
      assert 0 <= i + 1 <= n && i + 1 < |p| && !Readable(p[i + 1]);
    }
  }

  /** Reading the levels of step `i` keeps every piece read so far readable. */
  lemma {:induction false} ReadOneMore(p: seq<string>, i: nat)
    requires i > 0 ==> !ReadsUnreadable(p, i)
    requires i < |p| ==> Readable(p[i])
    requires i + 1 < |p| ==> Readable(p[i + 1])
    ensures !ReadsUnreadable(p, i + 1)
  {
    forall k | 0 <= k <= i + 1 && k < |p|
      ensures Readable(p[k])
    {
      if k < i {
        assert !Readable(p[k]) ==> ReadsUnreadable(p, i);
      }
    }
  }

  /** `checkReport`: a do/while loop over the steps, with the direction of
      the first step fixed on the first pass; it stops at the first bad
      step, and throws on the first piece it cannot read. */
  method CheckReport(line: string) returns (r: Result<int>)
    ensures r == Report(line)
    ensures r.Ok? ==> (r.value == -1 <==> Safe(Values(line)))
    ensures r.Ok? && r.value != -1 ==> 1 <= r.value <= LastPair(Values(line)) + 1
  {
    var p := GetLevels(line);
    var ls := Values(line);
    var nbLevels := |ls|;
    var isSafe := false;
    var isIncr: Option<bool> := None;
    var i := 0;
    var looping := true;
    while looping
      invariant 0 <= i <= LastPair(ls) + 1
      invariant i == 0 <==> isIncr.None?
      invariant isIncr.Some? ==> isIncr.value == CheckDirection(ls, 0)
      invariant looping ==> i <= LastPair(ls) && BadLevel(ls) == BadFrom(ls, i)
      invariant !looping ==> i > 0 && BadLevel(ls) == if isSafe then -1 else i
      invariant !looping && isSafe ==> i == LastPair(ls) + 1
      invariant i > 0 ==> !ReadsUnreadable(p, i)
      decreases LastPair(ls) + 1 - i, looping
    {
      // the two levels of step `i`, read by `checkDirection` (on the first
      // pass for the direction too) and by `checkLevel`
      if (i < |p| && !Readable(p[i])) || (i + 1 < |p| && !Readable(p[i + 1])) {
        UnreadableWithin(p, i, ReadUpTo(ls));
        return Err(NonNumeric);
      }
      ReadOneMore(p, i);
      if isIncr.None? {
        isIncr := Some(CheckDirection(ls, 0));
      }
      isSafe := CheckLevel(ls, i, isIncr.value);
      i := i + 1;
      looping := i <= nbLevels - 2 && isSafe;
    }
    BadLevelMeaning(ls);
    if isSafe {
      return Ok(-1);
    }
    return Ok(i);
  }

  // ---------------------------------------------------------------------------
  // The problem dampener

  /** `applyDampener` on a list: the part before `index` and the part after
      it, each taken only when the source's guards allow. */
  function Removed<T>(s: seq<T>, index: nat): (r: seq<T>)
    ensures index < |s| ==> |r| == |s| - 1
    ensures index < |s| ==> forall j :: 0 <= j < |r| ==> r[j] == if j < index then s[j] else s[j + 1]
    ensures index >= |s| ==> r == s
  {
    var before := if index > 0 then s[..if index < |s| then index else |s|] else [];
    var after := if index + 1 <= |s| - 1 then s[index + 1..] else [];
    before + after
  }

  /** `applyDampener`: the report without the level at `index`, joined
      with spaces again. */
  function ApplyDampener(line: string, index: nat): (r: string)
    ensures var q := Removed(GetLevels(line), index);
      GetLevels(r) == if q == [] then [""] else q
  {
    var q := Removed(GetLevels(line), index);
    RemovedPieces(line, index);
    if q == [] then
      assert GetLevels("") == [""];
      ""
    else
      ExplodeImplode(q, ' ');
      Implode(q, ' ')
  }

  /** Reading a dampened report gives the levels without the one removed;
      a report emptied by the dampener reads as the single level 0. */
  lemma {:induction false} DampenedValues(line: string, index: nat)
    ensures var r := Removed(Values(line), index);
      Values(ApplyDampener(line, index)) == if r == [] then [0] else r
  {
    var q := Removed(GetLevels(line), index);
    var r := Removed(Values(line), index);
    RemovedPieces(line, index);
    if q == [] {
      assert ApplyDampener(line, index) == "";
      assert GetLevels("") == [""];
    } else {
      ExplodeImplode(q, ' ');
      var v := Values(ApplyDampener(line, index));
      assert |v| == |r|;
      forall j | 0 <= j < |r|
        ensures v[j] == r[j]
      {
      }
    }
  }

  /** The pieces left by the dampener are pieces of the report: they hold
      no space, and their values are the levels left. */
  lemma {:induction false} RemovedPieces(line: string, index: nat)
    ensures var q := Removed(GetLevels(line), index);
      && |Removed(Values(line), index)| == |q|
      && (forall j :: 0 <= j < |q| ==> Removed(Values(line), index)[j] == ToInt(q[j]))
      && forall x :: x in q ==> ' ' !in x
  {
    var p := GetLevels(line);
    var q := Removed(p, index);
    ExplodePieces(line, ' ');
    forall x | x in q
      ensures x in p
    {
      var j :| 0 <= j < |q| && q[j] == x;
      if index < |p| {
        assert x == p[if j < index then j else j + 1];
      }
    }
  }

  /** `array_unique`: the first occurrence of each value, in order
      (`UniqueFirstOrder`). */
  function Unique(s: seq<string>): (r: seq<string>)
    ensures forall x :: x in r <==> x in s
    ensures forall i, j :: 0 <= i < j < |r| ==> r[i] != r[j]
  {
    if s == [] then []
    else
      var init := s[..|s| - 1];
      var u := Unique(init);
      var x := s[|s| - 1];
      assert forall y :: y in s <==> y in init || y == x;
      if x in u then u else u + [x]
  }

  /** `array_unique` keeps the values in the order of their first
      occurrence. */
  lemma {:induction false} UniqueFirstOrder(s: seq<string>)
    ensures FirstOrder(s, Unique(s))
  {
    if s != [] {
      var init := s[..|s| - 1];
      var u := Unique(init);
      var x := s[|s| - 1];
      UniqueFirstOrder(init);
      assert forall i, j :: 0 <= i < j < |u| ==> FirstBefore(s, u[i], u[j]) by {
        forall i, j | 0 <= i < j < |u|
          ensures FirstBefore(s, u[i], u[j])
        {
          FirstBeforeSnoc(init, x, u[i], u[j]);
        }
      }
      if x !in u {
        assert forall i :: 0 <= i < |u| ==> FirstBefore(s, u[i], x) by {
          forall i | 0 <= i < |u|
            ensures FirstBefore(s, u[i], x)
          {
            assert u[i] in u;
            var a :| 0 <= a < |init| && init[a] == u[i];
            assert s[a] == u[i] && s[..a] == init[..a];
          }
        }
      }
    }
  }

  /** The values of `r` come in the order of their first occurrence in `s`. */
  ghost predicate FirstOrder(s: seq<string>, r: seq<string>) {
    forall i, j :: 0 <= i < j < |r| ==> FirstBefore(s, r[i], r[j])
  }

  /** `x` occurs in `s` before `y` first does. */
  ghost predicate FirstBefore(s: seq<string>, x: string, y: string) {
    exists a :: 0 <= a < |s| && s[a] == x && y !in s[..a]
  }

  lemma {:induction false} FirstBeforeSnoc(s: seq<string>, z: string, x: string, y: string)
    requires FirstBefore(s, x, y)
    ensures FirstBefore(s + [z], x, y)
  {
    var a :| 0 <= a < |s| && s[a] == x && y !in s[..a];
    assert (s + [z])[a] == x && (s + [z])[..a] == s[..a];
  }

  /** What the dampener loop decides for one report: it is safe as it is,
      or one of the three dampened variants is (removing the level after
      the bad step, the level before it, or the first level). */
  predicate Tolerated(line: string) {
    var b := BadLevel(Values(line));
    b == -1
    || Safe(Values(ApplyDampener(line, b)))
    || Safe(Values(ApplyDampener(line, b - 1)))
    || Safe(Values(ApplyDampener(line, 0)))
  }

  /** Some report of the list is safe. */
  predicate SafeAmong(xs: seq<string>) {
    exists x :: x in xs && Safe(Values(x))
  }

  /** One of three reports is safe. */
  lemma {:induction false} SafeAmongThree(xs: seq<string>, a: string, b: string, c: string)
    requires xs == [a, b, c]
    ensures SafeAmong(xs) <==> Safe(Values(a)) || Safe(Values(b)) || Safe(Values(c))
  {
    if SafeAmong(xs) {
      var x :| x in xs && Safe(Values(x));
      assert x == a || x == b || x == c;
    }
    assert a in xs && b in xs && c in xs;
  }

  /** The three dampened variants `run` builds for a report whose bad level
      is `b`. */
  function Candidates(line: string, b: nat): seq<string>
    requires b >= 1
  {
    [ApplyDampener(line, b), ApplyDampener(line, b - 1), ApplyDampener(line, 0)]
  }

  /** The dampener loop from the `m`-th variant on: the first that throws
      stops everything, the first that passes ends the loop. */
  function DampenFrom(all: seq<string>, m: nat): Result<bool>
    requires m <= |all|
    decreases |all| - m
  {
    if m == |all| then Ok(false)
    else
      match Report(all[m])
      case Err(e) => Err(e)
      case Ok(b) => if b == -1 then Ok(true) else DampenFrom(all, m + 1)
  }

  /** What `run` decides for one report: an exception, or whether the
      report, or one of its distinct dampened variants, passes. */
  function Checked(line: string): Result<bool> {
    match Report(line)
    case Err(e) => Err(e)
    case Ok(b) => if b == -1 then Ok(true) else DampenFrom(Unique(Candidates(line, b)), 0)
  }

  /** One report in the main loop: `checkReport`, then, when it fails, the
      distinct dampened variants in turn until one passes. */
  method CheckDampened(report: string) returns (r: Result<bool>)
    ensures r == Checked(report)
  {
    var first := CheckReport(report);
    if first.Err? {
      return Err(first.msg);
    }
    var badLevel := first.value;
    if badLevel == -1 {
      return Ok(true);
    }
    var possibilities := Unique(Candidates(report, badLevel));
    ghost var all := possibilities;
    ghost var m := 0;
    while |possibilities| > 0 && badLevel != -1
      invariant 0 <= m <= |all| && possibilities == all[m..]
      invariant DampenFrom(all, 0) == if badLevel == -1 then Ok(true) else DampenFrom(all, m)
      decreases |possibilities|
    {
      var next := possibilities[0];
      possibilities := possibilities[1..];
      var c := CheckReport(next);
      if c.Err? {
        return Err(c.msg);
      }
      badLevel := c.value;
      m := m + 1;
    }
    return Ok(badLevel == -1);
  }

  /** When the loop answers, it answers whether some variant from the
      `m`-th on is safe. */
  lemma {:induction false} DampenFromOk(all: seq<string>, m: nat)
    requires m <= |all| && DampenFrom(all, m).Ok?
    ensures DampenFrom(all, m).value <==> exists j :: m <= j < |all| && Safe(Values(all[j]))
    decreases |all| - m
  {
    if m < |all| {
      BadLevelMeaning(Values(all[m]));
      if BadLevel(Values(all[m])) != -1 {
        DampenFromOk(all, m + 1);
      }
    }
  }

  /** When no exception is thrown, `run` counts a report exactly when the
      dampener tolerates it. */
  lemma {:induction false} CheckedOk(line: string)
    requires Checked(line).Ok?
    ensures Checked(line).value <==> Tolerated(line)
  {
    var b := BadLevel(Values(line));
    BadLevelMeaning(Values(line));
    if b != -1 {
      var cs := Candidates(line, b);
      var all := Unique(cs);
      DampenFromOk(all, 0);
      SafeAmongThree(cs, cs[0], cs[1], cs[2]);
      if SafeAmong(cs) {
        var x :| x in cs && Safe(Values(x));
        var j :| 0 <= j < |all| && all[j] == x;
      }
    }
  }

  /** A report whose pieces can all be read never throws. */
  lemma {:induction false} ReportReadable(line: string)
    requires forall x :: x in GetLevels(line) ==> Readable(x)
    ensures Report(line).Ok?
  {
  }

  /** A report of two levels or more whose pieces can all be read is
      decided without an exception: its dampened variants keep at least one
      of its pieces and no other. */
  lemma {:induction false} CheckedReadable(line: string)
    requires |GetLevels(line)| >= 2
    requires forall x :: x in GetLevels(line) ==> Readable(x)
    ensures Checked(line).Ok?
  {
    var b := BadLevel(Values(line));
    if b != -1 {
      var cs := Candidates(line, b);
      var all := Unique(cs);
      forall x | x in all
        ensures Report(x).Ok?
      {
        assert x in cs;
        var i :| 0 <= i < 3 && cs[i] == x;
        var index: nat := if i == 0 then b else if i == 1 then b - 1 else 0;
        assert x == ApplyDampener(line, index);
        DampenedPieces(line, index);
        ReportReadable(x);
      }
      DampenFromReadable(all, 0);
    }
  }

  /** The dampener loop throws only when one of the variants does. */
  lemma {:induction false} DampenFromReadable(all: seq<string>, m: nat)
    requires m <= |all| && forall x :: x in all ==> Report(x).Ok?
    ensures DampenFrom(all, m).Ok?
    decreases |all| - m
  {
    if m < |all| {
      assert all[m] in all;
      DampenFromReadable(all, m + 1);
    }
  }

  /** The pieces of a dampened report of two levels or more are pieces of
      the report. */
  lemma {:induction false} DampenedPieces(line: string, index: nat)
    requires |GetLevels(line)| >= 2
    ensures forall x :: x in GetLevels(ApplyDampener(line, index)) ==> x in GetLevels(line)
  {
    var p := GetLevels(line);
    var q := Removed(p, index);
    assert q != [];
    forall x | x in q
      ensures x in p
    {
      var j :| 0 <= j < |q| && q[j] == x;
      if index < |p| {
        assert x == p[if j < index then j else j + 1];
      }
    }
  }

  /** The report `5`: its one step, into the missing second level, is too
      steep, so the dampener tries `5` again and then the empty report,
      whose empty piece cannot be read: the whole run stops there. */
  lemma {:induction false} OneLevelThrows()
    ensures Report("5") == Ok(1)
    ensures ApplyDampener("5", 0) == "" && Report("") == Err(NonNumeric)
    ensures Checked("5") == Err(NonNumeric)
  {
    OneLevel();
    assert GetLevels("") == [""];
    assert !Readable("");
    OneLevelCandidates();
  }

  /** The report "5" is the one level 5. */
  lemma {:induction false} OneLevel()
    ensures GetLevels("5") == ["5"]
  {
    var five := "5";
    assert five == ['5'] && five[1..] == [] && five[0] != ' ';
    assert Explode(five[1..], ' ') == [""];
    assert ['5'] + "" == ['5'] == five;
    assert Explode(five, ' ') == [['5'] + ""] == [five];
  }

  /** Its candidates are itself and the empty report. */
  lemma {:induction false} OneLevelCandidates()
    requires GetLevels("5") == ["5"]
    ensures ApplyDampener("5", 0) == "" && ApplyDampener("5", 1) == "5"
    ensures Unique(Candidates("5", 1)) == ["5", ""]
  {
    assert Removed(["5"], 1) == ["5"];
    assert Removed(["5"], 0) == [];
    var cs := Candidates("5", 1);
    assert cs == ["5", "", ""];
    assert cs[..2] == ["5", ""] && cs[..2][..1] == ["5"] && cs[..2][..1][..0] == [];
    assert Unique(cs[..2]) == ["5", ""];
  }

  /** How many of the (trimmed) reports the dampener lets through, or the
      exception of the first report that throws. */
  function CountChecked(lines: seq<string>): Result<nat> {
    if lines == [] then Ok(0)
    else Tally(CountChecked(lines[..|lines| - 1]), Checked(Trim(lines[|lines| - 1])))
  }

  /** The count so far and one more report: the first exception stays. */
  function Tally(acc: Result<nat>, c: Result<bool>): Result<nat> {
    match acc
    case Err(e) => Err(e)
    case Ok(n) =>
      match c
      case Err(e) => Err(e)
      case Ok(b) => Ok(n + if b then 1 else 0)
  }

  /** How many of the (trimmed) reports the dampener lets through. */
  function CountTolerated(lines: seq<string>): nat {
    if lines == [] then 0
    else CountTolerated(lines[..|lines| - 1]) + if Tolerated(Trim(lines[|lines| - 1])) then 1 else 0
  }

  /** A run that ends without an exception counts the tolerated reports. */
  lemma {:induction false} CountCheckedOk(lines: seq<string>)
    requires CountChecked(lines).Ok?
    ensures CountChecked(lines).value == CountTolerated(lines)
  {
    if lines != [] {
      CountCheckedOk(lines[..|lines| - 1]);
      CheckedOk(Trim(lines[|lines| - 1]));
    }
  }

  /** The lines `while (($report = fgets($file)))` goes through: those
      before the first one PHP takes as false (`""` and `"0"`, as `empty`
      says). `fgets` keeps each line's
      newline, so on a file that can only be a last line `"0"` with no
      newline after it. */
  function ReadLines(lines: seq<string>): (r: seq<string>)
    ensures r <= lines
    ensures forall k :: 0 <= k < |r| ==> !Empty(r[k])
    ensures |r| == |lines| || Empty(lines[|r|])
  {
    if lines == [] || Empty(lines[0]) then []
    else
      assert lines == [lines[0]] + lines[1..];
      [lines[0]] + ReadLines(lines[1..])
  }

  /** The loop reads line `k` exactly when there is one and PHP does not
      read it as false. */
  lemma {:induction false} ReadLinesAt(lines: seq<string>, k: nat)
    requires k <= |ReadLines(lines)|
    ensures k < |ReadLines(lines)| <==> k < |lines| && !Empty(lines[k])
    ensures k < |ReadLines(lines)| ==> ReadLines(lines)[k] == lines[k]
  {
  }

  /** A last line `"0"` without a newline ends the loop before it is read,
      so the file `5 6 7\n0` is one report that throws no exception. */
  lemma LastZeroUnread()
    ensures ReadLines(["5 6 7\n", "0"]) == ["5 6 7\n"]
    ensures ReadLines(["5 6 7\n", "0\n"]) == ["5 6 7\n", "0\n"]
  {
    assert ["5 6 7\n", "0"][1..] == ["0"];
    assert ["5 6 7\n", "0\n"][1..] == ["0\n"] && ["0\n"][1..] == [];
  }

  /** The main loop: every line read is trimmed and counted as an attempt,
      and the ones the dampener lets through are counted as safe; an
      exception ends the run with no count. */
  method Run(lines: seq<string>) returns (r: Result<(nat, nat)>)
    ensures var read := ReadLines(lines);
      && (CountChecked(read).Err? ==> r == Err(CountChecked(read).msg))
      && (CountChecked(read).Ok? ==> r == Ok((CountChecked(read).value, |read|)))
  {
    ghost var read := ReadLines(lines);
    var nbSafe, nbAttempts := 0, 0;
    var k := 0;
    assert read[..0] == [];
    while k < |lines| && !Empty(lines[k])
      invariant k <= |read|
      invariant CountChecked(read[..k]) == Ok(nbSafe) && nbAttempts == k
    {
      ReadLinesAt(lines, k);
      var report := Trim(lines[k]);
      nbAttempts := nbAttempts + 1;
      var checked := CheckDampened(report);
      CountCheckedStep(read, k, nbSafe);
      if checked.Err? {
        return Err(checked.msg);
      }
      if checked.value {
        nbSafe := nbSafe + 1;
      }
      k := k + 1;
    }
    ReadLinesAt(lines, k);
    assert read[..k] == read;
    return Ok((nbSafe, nbAttempts));
  }

  /** One more report counted, or the exception that ends the run. */
  lemma {:induction false} CountCheckedStep(lines: seq<string>, k: nat, n: nat)
    requires k < |lines| && CountChecked(lines[..k]) == Ok(n)
    ensures var c := Checked(Trim(lines[k]));
      && (c.Err? ==> CountChecked(lines) == Err(c.msg))
      && (c.Ok? ==> CountChecked(lines[..k + 1]) == Ok(n + if c.value then 1 else 0))
  {
    var pre, c := lines[..k + 1], Checked(Trim(lines[k]));
    assert pre[..|pre| - 1] == lines[..k] && pre[|pre| - 1] == lines[k];
    assert CountChecked(pre) == Tally(Ok(n), c);
    if c.Err? {
      CountCheckedErr(lines, k + 1);
    } else {
      TallyOk(n, c);
    }
  }

  lemma {:induction false} TallyOk(n: nat, c: Result<bool>)
    requires c.Ok?
    ensures Tally(Ok(n), c) == Ok(n + if c.value then 1 else 0)
  {
  }

  /** Once a report throws, so does the whole run. */
  lemma {:induction false} CountCheckedErr(lines: seq<string>, k: nat)
    requires 0 < k <= |lines| && CountChecked(lines[..k]).Err?
    ensures CountChecked(lines) == CountChecked(lines[..k])
    decreases |lines| - k
  {
    if k < |lines| {
      assert lines[..k + 1][..k] == lines[..k];
      CountCheckedErr(lines, k + 1);
    } else {
      assert lines[..k] == lines;
    }
  }

  // ---------------------------------------------------------------------------
  // The three candidates suffice

  /** Removing a level of an unsafe report of three levels or more, other
      than the first level or one of the two levels of the first bad step,
      leaves that bad step in place, so the report stays unsafe. */
  lemma {:induction false} OtherRemovalFails(ls: seq<int>, j: nat)
    requires |ls| >= 3 && !Safe(ls) && j < |ls|
    requires j != 0 && j != BadLevel(ls) - 1 && j != BadLevel(ls)
    ensures !Safe(Removed(ls, j))
  {
    var b := BadLevel(ls);
    BadLevelMeaning(ls);
    var d := CheckDirection(ls, 0);
    var r := Removed(ls, j);
    assert CheckDirection(r, 0) == d by {
      if j == 1 {
        assert CheckLevel(ls, 0, d) && CheckLevel(ls, 1, d);
        assert r[0] == ls[0] && r[1] == ls[2];
      } else {
        assert r[0] == ls[0] && r[1] == ls[1];
      }
    }
    var t := if j > b then b - 1 else b - 2;
    assert 0 <= t <= LastPair(r);
    assert r[t] == ls[b - 1] && r[t + 1] == ls[b];
    assert !CheckLevel(r, t, CheckDirection(r, 0));
  }

  /** The dampener lets a report of three levels or more through exactly
      when it is safe, or removing some one level makes it safe. */
  lemma {:induction false} DampenerComplete(line: string)
    requires |Values(line)| >= 3
    ensures Tolerated(line) <==>
      Safe(Values(line)) || exists j :: 0 <= j < |Values(line)| && Safe(Removed(Values(line), j))
  {
    var ls := Values(line);
    BadLevelMeaning(ls);
    if !Safe(ls) {
      ToleratedRemoved(line);
      CandidatesSuffice(ls);
    }
  }

  /** For an unsafe report of three levels or more, the dampened variants
      read as the levels without the removed one. */
  lemma {:induction false} ToleratedRemoved(line: string)
    requires |Values(line)| >= 3 && BadLevel(Values(line)) != -1
    ensures var ls := Values(line); var b := BadLevel(ls);
      Tolerated(line) <==> Safe(Removed(ls, b)) || Safe(Removed(ls, b - 1)) || Safe(Removed(ls, 0))
  {
    var ls := Values(line);
    var b := BadLevel(ls);
    BadLevelMeaning(ls);
    DampenedValues(line, b);
    DampenedValues(line, b - 1);
    DampenedValues(line, 0);
  }

  /** Some single removal repairs an unsafe report of three levels or more
      exactly when one of the three candidate removals does. */
  lemma {:induction false} CandidatesSuffice(ls: seq<int>)
    requires |ls| >= 3 && BadLevel(ls) != -1
    ensures var b := BadLevel(ls);
      (exists j :: 0 <= j < |ls| && Safe(Removed(ls, j)))
      <==> Safe(Removed(ls, b)) || Safe(Removed(ls, b - 1)) || Safe(Removed(ls, 0))
  {
    var b := BadLevel(ls);
    BadLevelMeaning(ls);
    if exists j :: 0 <= j < |ls| && Safe(Removed(ls, j)) {
      var j :| 0 <= j < |ls| && Safe(Removed(ls, j));
      if j != 0 && j != b - 1 && j != b {
        OtherRemovalFails(ls, j);
        assert false;
      }
    }
  }
}
