/** `find_gaps`: the contiguous runs of missing hours in a list of coverage rows. */
module Gaps {
  import opened Seqs

  /** What `find_gaps` looks at in a coverage row. */
  datatype HourState = HourState(hour: int, isMissing: bool)

  /** A gap starts at hour `start`, ends where hour `end` begins, and counts `hours` rows. */
  datatype Gap = Gap(start: int, end: int, hours: nat)

  /** Rows `first` up to, not including, `last`. */
  datatype Run = Run(first: nat, last: nat)

  /** A run of missing rows that cannot be extended at either end. */
  ghost predicate Maximal(rows: seq<HourState>, r: Run) {
    && r.first < r.last <= |rows|
    && (forall i :: r.first <= i < r.last ==> rows[i].isMissing)
    && (r.first == 0 || !rows[r.first - 1].isMissing)
    && (r.last == |rows| || !rows[r.last].isMissing)
  }

  function RunEnd(rows: seq<HourState>, i: nat): (j: nat)
    requires i <= |rows|
    ensures i <= j <= |rows| && (forall k :: i <= k < j ==> rows[k].isMissing) && (j == |rows| || !rows[j].isMissing)
    decreases |rows| - i
  {
    if i == |rows| || !rows[i].isMissing then i else RunEnd(rows, i + 1)
  }

  function RunsFrom(rows: seq<HourState>, i: nat): (rs: seq<Run>)
    requires i <= |rows|
    ensures forall r :: r in rs ==> i <= r.first < r.last <= |rows|
    decreases |rows| - i
  {
    if i == |rows| then []
    else if !rows[i].isMissing then RunsFrom(rows, i + 1)
    else [Run(i, RunEnd(rows, i + 1))] + RunsFrom(rows, RunEnd(rows, i + 1))
  }

  function GapOf(rows: seq<HourState>, r: Run): Gap
    requires r.first < r.last <= |rows|
  {
    Gap(rows[r.first].hour, rows[r.last - 1].hour + 1, r.last - r.first)
  }

  function GapsOf(rows: seq<HourState>, rs: seq<Run>): (gs: seq<Gap>)
    requires forall r :: r in rs ==> r.first < r.last <= |rows|
    ensures |gs| == |rs| && forall i :: 0 <= i < |rs| ==> gs[i] == GapOf(rows, rs[i])
  {
    if rs == [] then [] else [GapOf(rows, rs[0])] + GapsOf(rows, rs[1..])
  }

  function AllGaps(rows: seq<HourState>): seq<Gap> {
    GapsOf(rows, RunsFrom(rows, 0))
  }

  function AtLeast(minHours: int): Gap -> bool {
    (g: Gap) => g.hours >= minHours
  }

  /** The gaps reported for the rows from position `i` on. */
  function Kept(rows: seq<HourState>, i: nat, minHours: int): seq<Gap>
    requires i <= |rows|
  {
    Filter(GapsOf(rows, RunsFrom(rows, i)), AtLeast(minHours))
  }

  /** The loop with its open run; raising `minHours` filters the gaps found with the least one. */
  method FindGaps(rows: seq<HourState>, minHours: int) returns (gaps: seq<Gap>)
    ensures gaps == Filter(AllGaps(rows), AtLeast(minHours))
  {
    gaps := [];
    var open, runStart, runEnd, runHours := false, 0, 0, 0;
    ghost var from := 0;
    hide Kept, Filter, AllGaps;
    ghost var all := Kept(rows, 0, minHours);
    for i := 0 to |rows|
      invariant from <= i && (!open ==> from == i && runHours == 0)
      invariant open ==>
                  from < i && runHours == i - from && runStart == rows[from].hour &&
                  runEnd == rows[i - 1].hour + 1
      invariant open ==> forall k :: from <= k < i ==> rows[k].isMissing
      invariant gaps + Kept(rows, from, minHours) == all
    {
      if rows[i].isMissing {
        if !open {
          open, runStart := true, rows[i].hour;
        }
        runEnd := rows[i].hour + 1;
        runHours := runHours + 1;
      } else {
        CloseRun(rows, from, i, minHours);
        if open {
          if runHours >= minHours {
            gaps := gaps + [Gap(runStart, runEnd, runHours)];
          }
          open, runStart, runEnd, runHours := false, 0, 0, 0;
        }
        from := i + 1;
      }
    }
    LastRun(rows, from, minHours);
    if open && runHours >= minHours {
      gaps := gaps + [Gap(runStart, runEnd, runHours)];
    }
    KeptAll(rows, minHours);
  }

  lemma KeptAll(rows: seq<HourState>, minHours: int)
    ensures Kept(rows, 0, minHours) == Filter(AllGaps(rows), AtLeast(minHours))
  {
  }

  lemma {:induction false} MissingTo(rows: seq<HourState>, from: nat, i: nat)
    requires from <= i <= |rows| && (forall k :: from <= k < i ==> rows[k].isMissing) &&
             (i == |rows| || !rows[i].isMissing)
    ensures RunEnd(rows, from) == i
    decreases i - from
  {
    if from < i {
      MissingTo(rows, from + 1, i);
    }
  }

  /** At a row with data the runs from an open position are the open run, if any, and those after the row. */
  lemma CloseRun(rows: seq<HourState>, from: nat, i: nat, minHours: int)
    requires from <= i < |rows| && !rows[i].isMissing && forall k :: from <= k < i ==> rows[k].isMissing
    ensures Kept(rows, from, minHours) ==
            if from == i then Kept(rows, i + 1, minHours)
            else
              (if i - from >= minHours then [Gap(rows[from].hour, rows[i - 1].hour + 1, i - from)] else []) +
              Kept(rows, i + 1, minHours)
  {
    assert RunsFrom(rows, i) == RunsFrom(rows, i + 1);
    if from < i {
      MissingTo(rows, from + 1, i);
      KeptStep(rows, from, i, minHours);
    }
  }

  lemma KeptStep(rows: seq<HourState>, from: nat, i: nat, minHours: int)
    requires from < i <= |rows| && rows[from].isMissing && RunEnd(rows, from + 1) == i
    ensures Kept(rows, from, minHours) ==
            (if i - from >= minHours then [Gap(rows[from].hour, rows[i - 1].hour + 1, i - from)] else []) +
              Kept(rows, i, minHours)
  {
    hide Filter, RunEnd;
    var g := GapOf(rows, Run(from, i));
    FirstGap(rows, from, i);
    FilterAppend([g], GapsOf(rows, RunsFrom(rows, i)), AtLeast(minHours));
    OneGap(g, minHours);
  }

  lemma FirstGap(rows: seq<HourState>, from: nat, i: nat)
    requires from < i <= |rows| && rows[from].isMissing && RunEnd(rows, from + 1) == i
    ensures GapsOf(rows, RunsFrom(rows, from)) == [GapOf(rows, Run(from, i))] + GapsOf(rows, RunsFrom(rows, i))
  {
    hide RunEnd;
    var rest := RunsFrom(rows, i);
    assert RunsFrom(rows, from) == [Run(from, i)] + rest;
    assert ([Run(from, i)] + rest)[1..] == rest;
  }

  lemma OneGap(g: Gap, minHours: int)
    ensures Filter([g], AtLeast(minHours)) == if g.hours >= minHours then [g] else []
  {
  }

  lemma LastRun(rows: seq<HourState>, from: nat, minHours: int)
    requires from <= |rows| && forall k :: from <= k < |rows| ==> rows[k].isMissing
    ensures Kept(rows, from, minHours) ==
            if from < |rows| && |rows| - from >= minHours then
              [Gap(rows[from].hour, rows[|rows| - 1].hour + 1, |rows| - from)] else []
  {
    if from < |rows| {
      MissingTo(rows, from + 1, |rows|);
      KeptStep(rows, from, |rows|, minHours);
    }
  }

  // ---------------------------------------------------------------- what the gaps are

  lemma {:induction false} RunsAreMaximal(rows: seq<HourState>, i: nat, r: Run)
    requires i <= |rows| && (i == 0 || i == |rows| || !rows[i - 1].isMissing || !rows[i].isMissing)
    ensures r in RunsFrom(rows, i) <==> Maximal(rows, r) && i <= r.first
    decreases |rows| - i
  {
    if i < |rows| {
      if !rows[i].isMissing {
        RunsAreMaximal(rows, i + 1, r);
      } else {
        var j := RunEnd(rows, i + 1);
        RunsAreMaximal(rows, j, r);
        if Maximal(rows, r) && i <= r.first < j {
          assert r.first == i;
          assert r.last == j;
        }
      }
    }
  }

  /** `find_gaps` reports exactly the maximal runs of missing rows that are long enough. */
  lemma GapsAreMaximalRuns(rows: seq<HourState>, minHours: int, g: Gap)
    ensures g in Filter(AllGaps(rows), AtLeast(minHours)) <==>
            exists r ::
              Maximal(rows, r) && r.last - r.first >= minHours &&
              g == Gap(rows[r.first].hour, rows[r.last - 1].hour + 1, r.last - r.first)
  {
    var rs := RunsFrom(rows, 0);
    if g in AllGaps(rows) && g.hours >= minHours {
      var i :| 0 <= i < |rs| && GapOf(rows, rs[i]) == g;
      RunsAreMaximal(rows, 0, rs[i]);
      assert Maximal(rows, rs[i]);
    }
    if r :| Maximal(rows, r) && GapOf(rows, r) == g && r.last - r.first >= minHours {
      RunsAreMaximal(rows, 0, r);
      var i :| 0 <= i < |rs| && rs[i] == r;
      assert AllGaps(rows)[i] == g;
    }
  }

  ghost predicate Ascending(rows: seq<HourState>) {
    forall i, k :: 0 <= i < k < |rows| ==> rows[i].hour < rows[k].hour
  }

  ghost predicate Apart(gs: seq<Gap>) {
    forall i, k :: 0 <= i < k < |gs| ==> gs[i].end < gs[k].start
  }

  lemma {:induction false} RunsApart(rows: seq<HourState>, i: nat)
    requires i <= |rows|
    ensures forall x, y :: 0 <= x < y < |RunsFrom(rows, i)| ==> RunsFrom(rows, i)[x].last < RunsFrom(rows, i)[y].first
    decreases |rows| - i
  {
    if i < |rows| {
      if !rows[i].isMissing {
        RunsApart(rows, i + 1);
      } else {
        var j := RunEnd(rows, i + 1);
        RunsApart(rows, j);
        var rest := RunsFrom(rows, j);
        assert forall r :: r in rest ==> j < r.first by {
          if j < |rows| {
            assert rest == RunsFrom(rows, j + 1);
          }
        }
      }
    }
  }

  lemma {:induction false} FilterApart(gs: seq<Gap>, p: Gap -> bool)
    requires Apart(gs)
    ensures Apart(Filter(gs, p))
  {
    if gs != [] {
      FilterApart(gs[1..], p);
      assert forall g :: g in gs[1..] ==> gs[0].end < g.start;
    }
  }

  /** Gaps are ordered, and neither overlap nor touch: an hour with data lies between any two. */
  lemma GapsApart(rows: seq<HourState>, minHours: int)
    requires Ascending(rows)
    ensures Apart(Filter(AllGaps(rows), AtLeast(minHours)))
  {
    RunsApart(rows, 0);
    var rs := RunsFrom(rows, 0);
    forall x, y | 0 <= x < y < |rs|
      ensures GapOf(rows, rs[x]).end < GapOf(rows, rs[y]).start
    {
      var j := rs[x].last;
      assert rows[j - 1].hour < rows[j].hour && rows[j].hour < rows[rs[y].first].hour;
    }
    FilterApart(AllGaps(rows), AtLeast(minHours));
  }

  ghost predicate Consecutive(rows: seq<HourState>) {
    forall i :: 0 <= i < |rows| ==> rows[i].hour == rows[0].hour + i
  }

  /** On complete hourly rows a gap lasts from its start to its end; with rows absent it may count fewer. */
  lemma GapHours(rows: seq<HourState>, r: Run)
    requires Maximal(rows, r)
    ensures Consecutive(rows) ==> GapOf(rows, r).hours == GapOf(rows, r).end - GapOf(rows, r).start
    ensures Ascending(rows) ==> GapOf(rows, r).hours <= GapOf(rows, r).end - GapOf(rows, r).start
  {
    if Ascending(rows) {
      AtLeastApart(rows, r.first, r.last - 1);
    }
  }

  lemma {:induction false} AtLeastApart(rows: seq<HourState>, i: nat, k: nat)
    requires Ascending(rows) && i <= k < |rows|
    ensures k - i <= rows[k].hour - rows[i].hour
    decreases k - i
  {
    if i < k {
      AtLeastApart(rows, i, k - 1);
    }
  }

  function MissingCount(rows: seq<HourState>): nat {
    if rows == [] then 0 else (if rows[0].isMissing then 1 else 0) + MissingCount(rows[1..])
  }

  function GapTotal(gs: seq<Gap>): nat {
    if gs == [] then 0 else gs[0].hours + GapTotal(gs[1..])
  }

  lemma {:induction false} MissingPrefix(rows: seq<HourState>, j: nat)
    requires j <= |rows| && forall k :: 0 <= k < j ==> rows[k].isMissing
    ensures MissingCount(rows) == j + MissingCount(rows[j..])
    decreases j
  {
    if j == 0 {
      assert rows[0..] == rows;
    } else {
      MissingPrefix(rows[1..], j - 1);
      assert rows[1..][j - 1..] == rows[j..];
    }
  }

  lemma {:induction false} GapTotalFrom(rows: seq<HourState>, i: nat)
    requires i <= |rows|
    ensures GapTotal(GapsOf(rows, RunsFrom(rows, i))) == MissingCount(rows[i..])
    decreases |rows| - i
  {
    if i < |rows| {
      if !rows[i].isMissing {
        GapTotalFrom(rows, i + 1);
        assert rows[i..][1..] == rows[i + 1..];
      } else {
        var j := RunEnd(rows, i + 1);
        GapTotalFrom(rows, j);
        MissingPrefix(rows[i..], j - i);
        assert rows[i..][j - i..] == rows[j..];
        assert GapsOf(rows, RunsFrom(rows, i)) == [GapOf(rows, Run(i, j))] + GapsOf(rows, RunsFrom(rows, j));
      }
    }
  }

  /** The gaps account for every missing hour, and there is none exactly when no hour is missing. */
  lemma GapsAccount(rows: seq<HourState>)
    ensures Filter(AllGaps(rows), AtLeast(1)) == AllGaps(rows)
    ensures GapTotal(AllGaps(rows)) == MissingCount(rows)
    ensures AllGaps(rows) == [] <==> MissingCount(rows) == 0
  {
    GapTotalFrom(rows, 0);
    assert rows[0..] == rows;
    FilterAll(AllGaps(rows), AtLeast(1));
  }
}
