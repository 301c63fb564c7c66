/**
 * The opening-hours card of src/pages/About.jsx: consecutive days with the
 * same closed flag and the same hours text are shown as one line, labelled
 * with the first and the last day of the run.
 */
module About {
  import opened Text

  /** A day record as fetched from `/api/hours`. */
  datatype Day = Day(id: int, dayName: string, isClosed: bool, hoursText: Option<string>)

  /** `{ ...day, startDay, endDay }`: the fields of a run's first day plus its first and last day names. */
  datatype Group = Group(day: Day, startDay: string, endDay: string)

  /** The test that extends the current group: equal `is_closed` and equal `hours_text`. */
  predicate Same(d: Day, e: Day) {
    d.isClosed == e.isClosed && d.hoursText == e.hoursText
  }

  // ---------------------------------------------------------------------------
  // The runs the loop builds, as index spans
  // ---------------------------------------------------------------------------

  /** The days with indices lo .. hi - 1. */
  datatype Run = Run(lo: nat, hi: nat)

  /** Non-empty runs inside 0 .. n - 1. */
  predicate Bounded(rs: seq<Run>, n: nat) {
    forall k :: 0 <= k < |rs| ==> rs[k].lo < rs[k].hi <= n
  }

  /** Each run starts where the one before it ends. */
  predicate Contiguous(rs: seq<Run>) {
    forall k :: 0 <= k < |rs| - 1 ==> rs[k].hi == rs[k + 1].lo
  }

  /** Every day of a run is like the run's first day. */
  predicate Uniform(days: seq<Day>, rs: seq<Run>)
    requires Bounded(rs, |days|)
  {
    forall k, j :: 0 <= k < |rs| && rs[k].lo <= j < rs[k].hi ==> Same(days[j], days[rs[k].lo])
  }

  /** Neighbouring runs start with days unlike each other. */
  predicate Alternating(days: seq<Day>, rs: seq<Run>)
    requires Bounded(rs, |days|)
  {
    forall k :: 0 <= k < |rs| - 1 ==> !Same(days[rs[k + 1].lo], days[rs[k].lo])
  }

  /**
   * The loop's state after the first n days: the runs already closed (`groups`)
   * and the first day of the run still open (`currentGroup`), which ends at n.
   */
  datatype Pass = Pass(closed: seq<Run>, open: nat)

  /** The closed runs cover 0 .. open - 1 and the open run is not empty. */
  predicate Covers(p: Pass, n: nat) {
    p.open < n && Bounded(p.closed, p.open)
    && (p.closed == [] ==> p.open == 0)
    && (p.closed != [] ==> p.closed[0].lo == 0 && p.closed[|p.closed| - 1].hi == p.open)
  }

  /** Day n extends the open run when it is like that run's first day, else closes it and opens its own. */
  function Step(days: seq<Day>, p: Pass, n: nat): (q: Pass)
    requires n < |days| && Covers(p, n)
    ensures Covers(q, n + 1)
  {
    if Same(days[n], days[p.open]) then p else Pass(p.closed + [Run(p.open, n)], n)
  }

  /** The state after the first n days. */
  function Passes(days: seq<Day>, n: nat): (p: Pass)
    requires 1 <= n <= |days|
    ensures Covers(p, n)
    ensures |p.closed| < n
  {
    if n == 1 then Pass([], 0) else Step(days, Passes(days, n - 1), n - 1)
  }

  lemma PassesNext(days: seq<Day>, n: nat)
    requires 1 <= n < |days|
    ensures Passes(days, n + 1) == Step(days, Passes(days, n), n)
  {
  }

  /** The closed runs followed by the open one, closed at n. */
  function Close(p: Pass, n: nat): (rs: seq<Run>)
    requires Covers(p, n)
    ensures |rs| == |p.closed| + 1 && Bounded(rs, n)
    ensures rs[0].lo == 0 && rs[|rs| - 1] == Run(p.open, n)
  {
    p.closed + [Run(p.open, n)]
  }

  /** The runs of a non-empty list of days. */
  function Runs(days: seq<Day>): (rs: seq<Run>)
    requires days != []
    ensures 1 <= |rs| <= |days| && Bounded(rs, |days|)
    ensures rs[0].lo == 0 && rs[|rs| - 1].hi == |days|
  {
    Close(Passes(days, |days|), |days|)
  }

  // ---------------------------------------------------------------------------
  // What each step keeps
  // ---------------------------------------------------------------------------

  lemma ContiguousStep(days: seq<Day>, p: Pass, n: nat)
    requires n < |days| && Covers(p, n) && Contiguous(p.closed)
    ensures Contiguous(Step(days, p, n).closed)
  {
    if !Same(days[n], days[p.open]) {
      var rs := p.closed + [Run(p.open, n)];
      forall k | 0 <= k < |rs| - 1
        ensures rs[k].hi == rs[k + 1].lo
      {
        assert rs[k] == p.closed[k];
      }
    }
  }

  lemma {:induction false} PassesContiguous(days: seq<Day>, n: nat)
    requires 1 <= n <= |days|
    ensures Contiguous(Passes(days, n).closed)
  {
    if n > 1 {
      PassesContiguous(days, n - 1);
      ContiguousStep(days, Passes(days, n - 1), n - 1);
    }
  }

  /** Closed runs are uniform and every day of the open run so far is like its first. */
  predicate UniformPass(days: seq<Day>, p: Pass, n: nat)
    requires n <= |days| && Covers(p, n)
  {
    Uniform(days, p.closed) && forall j :: p.open <= j < n ==> Same(days[j], days[p.open])
  }

  lemma UniformStep(days: seq<Day>, p: Pass, n: nat)
    requires n < |days| && Covers(p, n) && UniformPass(days, p, n)
    ensures UniformPass(days, Step(days, p, n), n + 1)
  {
    if !Same(days[n], days[p.open]) {
      var rs := p.closed + [Run(p.open, n)];
      forall k, j | 0 <= k < |rs| && rs[k].lo <= j < rs[k].hi
        ensures Same(days[j], days[rs[k].lo])
      {
        if k < |p.closed| {
          assert rs[k] == p.closed[k];
        }
      }
    }
  }

  lemma {:induction false} PassesUniform(days: seq<Day>, n: nat)
    requires 1 <= n <= |days|
    ensures UniformPass(days, Passes(days, n), n)
  {
    if n > 1 {
      PassesUniform(days, n - 1);
      UniformStep(days, Passes(days, n - 1), n - 1);
    }
  }

  /** Closed runs alternate, and the open run's first day is unlike the last closed run's. */
  predicate AlternatingPass(days: seq<Day>, p: Pass, n: nat)
    requires n <= |days| && Covers(p, n)
  {
    Alternating(days, p.closed)
    && (p.closed != [] ==> !Same(days[p.open], days[p.closed[|p.closed| - 1].lo]))
  }

  lemma AlternatingStep(days: seq<Day>, p: Pass, n: nat)
    requires n < |days| && Covers(p, n) && AlternatingPass(days, p, n)
    ensures AlternatingPass(days, Step(days, p, n), n + 1)
  {
    if !Same(days[n], days[p.open]) {
      var rs := p.closed + [Run(p.open, n)];
      forall k | 0 <= k < |rs| - 1
        ensures !Same(days[rs[k + 1].lo], days[rs[k].lo])
      {
        assert rs[k] == p.closed[k];
        if k + 1 < |p.closed| {
          assert rs[k + 1] == p.closed[k + 1];
        }
      }
    }
  }

  lemma {:induction false} PassesAlternating(days: seq<Day>, n: nat)
    requires 1 <= n <= |days|
    ensures AlternatingPass(days, Passes(days, n), n)
  {
    if n > 1 {
      PassesAlternating(days, n - 1);
      AlternatingStep(days, Passes(days, n - 1), n - 1);
    }
  }

  // ---------------------------------------------------------------------------
  // Groups
  // ---------------------------------------------------------------------------

  /** The group shown for a run. */
  function GroupOf(days: seq<Day>, r: Run): Group
    requires r.lo < r.hi <= |days|
  {
    Group(days[r.lo], days[r.lo].dayName, days[r.hi - 1].dayName)
  }

  function GroupsOf(days: seq<Day>, rs: seq<Run>): (gs: seq<Group>)
    requires Bounded(rs, |days|)
    ensures |gs| == |rs|
    ensures forall k :: 0 <= k < |rs| ==> gs[k] == GroupOf(days, rs[k])
  {
    seq(|rs|, k requires 0 <= k < |rs| => GroupOf(days, rs[k]))
  }

  /** The result of `getGroupedHours()`. */
  function Grouped(days: seq<Day>): seq<Group> {
    if days == [] then [] else GroupsOf(days, Runs(days))
  }

  lemma GroupsOfSnoc(days: seq<Day>, rs: seq<Run>, r: Run)
    requires Bounded(rs, |days|) && r.lo < r.hi <= |days|
    ensures GroupsOf(days, rs + [r]) == GroupsOf(days, rs) + [GroupOf(days, r)]
  {
  }

  /** The groups are those of the closed runs followed by the group of the open run. */
  lemma GroupedOfPass(days: seq<Day>, p: Pass)
    requires days != [] && p == Passes(days, |days|)
    ensures Grouped(days) == GroupsOf(days, p.closed) + [GroupOf(days, Run(p.open, |days|))]
  {
    GroupsOfSnoc(days, p.closed, Run(p.open, |days|));
  }

  /** The loop state of `getGroupedHours` after the first i days: the closed groups and the open one. */
  predicate Scanned(days: seq<Day>, i: nat, groups: seq<Group>, current: Group)
    requires 1 <= i <= |days|
  {
    var p := Passes(days, i);
    current == GroupOf(days, Run(p.open, i)) && groups == GroupsOf(days, p.closed)
  }

  lemma StartScan(days: seq<Day>)
    requires days != []
    ensures Scanned(days, 1, [], Group(days[0], days[0].dayName, days[0].dayName))
  {
  }

  /** A day like the open run's first extends the current group to that day. */
  lemma ExtendGroup(days: seq<Day>, n: nat, groups: seq<Group>, current: Group)
    requires 1 <= n < |days| && Scanned(days, n, groups, current) && Same(days[n], current.day)
    ensures Scanned(days, n + 1, groups, Group(current.day, current.startDay, days[n].dayName))
  {
    PassesNext(days, n);
  }

  /** A day unlike the open run's first closes the current group and starts one of its own. */
  lemma CloseGroup(days: seq<Day>, n: nat, groups: seq<Group>, current: Group)
    requires 1 <= n < |days| && Scanned(days, n, groups, current) && !Same(days[n], current.day)
    ensures Scanned(days, n + 1, groups + [current], Group(days[n], days[n].dayName, days[n].dayName))
  {
    var p := Passes(days, n);
    PassesNext(days, n);
    assert Passes(days, n + 1) == Pass(p.closed + [Run(p.open, n)], n);
    GroupsOfSnoc(days, p.closed, Run(p.open, n));
  }

  /** After the last day, closing the open group gives the grouping. */
  lemma FinishScan(days: seq<Day>, groups: seq<Group>, current: Group)
    requires days != [] && Scanned(days, |days|, groups, current)
    ensures groups + [current] == Grouped(days)
  {
    GroupedOfPass(days, Passes(days, |days|));
  }

  /** `getGroupedHours`: one pass over the days, extending or closing the current group. */
  method GetGroupedHours(days: seq<Day>) returns (groups: seq<Group>)
    ensures groups == Grouped(days)
  {
    if |days| == 0 {
      return [];
    }
    groups := [];
    var current := Group(days[0], days[0].dayName, days[0].dayName);
    StartScan(days);
    var i := 1;
    while i < |days|
      invariant 1 <= i <= |days|
      invariant Scanned(days, i, groups, current)
    {
      var day := days[i];
      if day.isClosed == current.day.isClosed && day.hoursText == current.day.hoursText {
        ExtendGroup(days, i, groups, current);
        current := Group(current.day, current.startDay, day.dayName);
      } else {
        CloseGroup(days, i, groups, current);
        groups := groups + [current];
        current := Group(day, day.dayName, day.dayName);
      }
      i := i + 1;
    }
    FinishScan(days, groups, current);
    groups := groups + [current];
  }

  // ---------------------------------------------------------------------------
  // What the grouping promises
  // ---------------------------------------------------------------------------

  /** No days, no groups; otherwise between one group and one group per day. */
  lemma GroupCount(days: seq<Day>)
    ensures days == [] <==> Grouped(days) == []
    ensures days != [] ==> 1 <= |Grouped(days)| <= |days|
  {
  }

  /** The runs follow each other: each starts where the previous one ends. */
  lemma RunsContiguous(days: seq<Day>)
    requires days != []
    ensures Contiguous(Runs(days))
  {
    var p := Passes(days, |days|);
    PassesContiguous(days, |days|);
    var rs := Runs(days);
    forall k | 0 <= k < |rs| - 1
      ensures rs[k].hi == rs[k + 1].lo
    {
      assert rs[k] == p.closed[k];
      if k + 1 < |p.closed| {
        assert rs[k + 1] == p.closed[k + 1];
      }
    }
  }

  /** The days of the runs, one run after the other. */
  function SpanDays(days: seq<Day>, rs: seq<Run>): seq<Day>
    requires Bounded(rs, |days|)
  {
    if rs == [] then []
    else SpanDays(days, rs[..|rs| - 1]) + days[rs[|rs| - 1].lo..rs[|rs| - 1].hi]
  }

  lemma {:induction false} SpanDaysContiguous(days: seq<Day>, rs: seq<Run>)
    requires |rs| >= 1 && rs[0].lo == 0 && Bounded(rs, |days|) && Contiguous(rs)
    ensures SpanDays(days, rs) == days[..rs[|rs| - 1].hi]
  {
    var last := rs[|rs| - 1];
    if |rs| == 1 {
      assert SpanDays(days, rs) == SpanDays(days, []) + days[0..last.hi];
    } else {
      var init := rs[..|rs| - 1];
      SpanDaysContiguous(days, init);
      assert init[|init| - 1].hi == last.lo;
      assert days[..last.lo] + days[last.lo..last.hi] == days[..last.hi];
    }
  }

  /** Reading the groups' day spans in order gives back every day exactly once, in order. */
  lemma RunsCoverDays(days: seq<Day>)
    requires days != []
    ensures SpanDays(days, Runs(days)) == days
  {
    RunsContiguous(days);
    SpanDaysContiguous(days, Runs(days));
    assert days[..|days|] == days;
  }

  /** Every day of a group has the group's closed flag and hours text. */
  lemma GroupsAreUniform(days: seq<Day>, k: nat, j: nat)
    requires days != [] && k < |Runs(days)|
    requires Runs(days)[k].lo <= j < Runs(days)[k].hi
    ensures j < |days| && days[j].isClosed == Grouped(days)[k].day.isClosed
    ensures days[j].hoursText == Grouped(days)[k].day.hoursText
  {
    var p := Passes(days, |days|);
    PassesUniform(days, |days|);
    var rs := Runs(days);
    if k < |p.closed| {
      assert rs[k] == p.closed[k];
    }
  }

  /** Neighbouring groups differ in the closed flag or in the hours text. */
  lemma NeighboursDiffer(days: seq<Day>, k: nat)
    requires days != [] && k + 1 < |Grouped(days)|
    ensures Grouped(days)[k].day.isClosed != Grouped(days)[k + 1].day.isClosed
         || Grouped(days)[k].day.hoursText != Grouped(days)[k + 1].day.hoursText
  {
    var p := Passes(days, |days|);
    PassesAlternating(days, |days|);
    var rs := Runs(days);
    assert rs[k] == p.closed[k];
    if k + 1 < |p.closed| {
      assert rs[k + 1] == p.closed[k + 1];
    }
  }

  /** A group's first and last day names are those of its run's first and last day. */
  lemma GroupBounds(days: seq<Day>, k: nat)
    requires days != [] && k < |Grouped(days)|
    ensures var r := Runs(days)[k];
      Grouped(days)[k].startDay == days[r.lo].dayName && Grouped(days)[k].endDay == days[r.hi - 1].dayName
  {
  }

  /** Runs are maximal, not merged by value: equal days split by a different one make three groups. */
  lemma EqualDaysApartStaySeparate(a: Day, b: Day)
    requires !Same(a, b)
    ensures |Grouped([a, b, a])| == 3
  {
    var days := [a, b, a];
    assert Passes(days, 2) == Pass([Run(0, 1)], 1);
    assert Passes(days, 3) == Pass([Run(0, 1), Run(1, 2)], 2);
  }

  // ---------------------------------------------------------------------------
  // Display
  // ---------------------------------------------------------------------------

  /** The day column: the single day, or `start - end`. */
  function DayLabel(g: Group): (s: string)
    ensures g.startDay == g.endDay ==> s == g.startDay
    ensures g.startDay != g.endDay ==> s == g.startDay + " - " + g.endDay
  {
    if g.startDay == g.endDay then g.startDay else g.startDay + " - " + g.endDay
  }

  const ClosedBadge: string := "FERMÉ"

  /** The hours column: the closed badge whatever the text, else the hours text (nothing for null). */
  function HoursLabel(g: Group): (s: string)
    ensures g.day.isClosed ==> s == ClosedBadge
    ensures !g.day.isClosed && g.day.hoursText.Some? ==> s == g.day.hoursText.value
    ensures !g.day.isClosed && g.day.hoursText.None? ==> s == ""
  {
    if g.day.isClosed then ClosedBadge
    else match g.day.hoursText { case Some(t) => t case None => "" }
  }

  /** A group of a single day is labelled with that day alone. */
  lemma SingleDayLabel(days: seq<Day>, k: nat)
    requires days != [] && k < |Grouped(days)|
    requires Runs(days)[k].hi == Runs(days)[k].lo + 1
    ensures DayLabel(Grouped(days)[k]) == days[Runs(days)[k].lo].dayName
  {
  }
}
