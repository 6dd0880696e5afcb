/**
 What the rows of a run and the figures of its report are, spelled out: the row
 of every assertion, run or not, and each count of the summary.
 */
module JourneyFacts {
  import opened Options
  import opened Journey

  // ---------------------------------------------------------------------
  // Rows
  // ---------------------------------------------------------------------

  /** The status of an assertion that was evaluated. */
  function Evaluated(v: Verdict): Status {
    if v == Holds then Passed else if v == DoesNotHold then Failed else Unavailable
  }

  /** The rows of a verify step that ran: one per assertion, by its verdict, or one that names the binding failure. */
  lemma {:induction false} VerifyRowsAre(p: Plan, w: World, i: nat)
    requires i < |p.scenarios| && p.scenarios[i].Verify?
    ensures var rows, name := RowsOf(p, w, i), p.scenarios[i].description;
      match p.binding
      case Bound(assertions) =>
        |rows| == |assertions| && forall k :: 0 <= k < |rows| ==>
          rows[k] == Row(name + ": " + assertions[k].id, Evaluated(w.verdict(i, k)), Some(assertions[k].required), None)
      case BadBinding(code) =>
        rows == [Row(name, Unavailable, Some(true), Some("Contract binding failed: " + code))]
      case NoBinding =>
        rows == [Row(name, Unavailable, Some(true), Some("Contract binding failed: " + "NO_BINDING"))]
  {
    if p.binding.Bound? {
      forall k: nat | k < |p.binding.assertions| {
        AssertionRowAt(p.scenarios[i].description, p.binding.assertions, RanIn(w, i), None, k);
      }
    }
  }

  /** The rows of a scenario that was not run, with the reason. */
  lemma {:induction false} UnrunRowsAre(p: Plan, i: nat, reason: string)
    requires i < |p.scenarios|
    ensures var rows, name, why := NotRunRows(p, i, reason), p.scenarios[i].description, Some("Not run: " + reason);
      if p.scenarios[i].Step? then rows == [Row(name, Skipped, None, why)]
      else if !p.binding.Bound? then rows == [Row(name, Unavailable, Some(true), why)]
      else
        |rows| == |p.binding.assertions| && forall k :: 0 <= k < |rows| ==>
          (var a := p.binding.assertions[k]; rows[k] == Row(name + ": " + a.id, Unavailable, Some(a.required), why))
  {
    if p.scenarios[i].Verify? && p.binding.Bound? {
      forall k: nat | k < |p.binding.assertions| {
        AssertionRowAt(p.scenarios[i].description, p.binding.assertions, NotRun, Some("Not run: " + reason), k);
      }
    }
  }

  /** What ends a journey: a step without rows, a row that did not pass, or a page outside the plan's origin. */
  predicate EndsAt(p: Plan, w: World, i: nat)
    requires i < |p.scenarios|
  {
    var rows := RowsOf(p, w, i);
    p.journey && (rows == [] || (exists k :: 0 <= k < |rows| && rows[k].status != Passed) || w.leftOrigin(i))
  }

  /** All scenarios up to the first that ends the journey run; the rest get their rows for not having run. */
  lemma {:induction false} RunIs(p: Plan, w: World)
    ensures var stop := StopAt(p, w, 0);
      && (forall i :: 0 <= i < stop ==> !EndsAt(p, w, i)) && (stop < |p.scenarios| ==> EndsAt(p, w, stop))
      && Outcome(p, w, stop) ==
        if stop == |p.scenarios| then RanRows(p, w, stop)
        else if RowsOf(p, w, stop) != [] &&
                forall k :: 0 <= k < |RowsOf(p, w, stop)| ==> RowsOf(p, w, stop)[k].status == Passed
        then RanRows(p, w, stop + 1) + [Row("Stay on the application under test", Failed, None, None)] +
             SkippedRows(p, stop + 1, |p.scenarios|, "the journey left the plan's origin")
        else RanRows(p, w, stop + 1) + SkippedRows(p, stop + 1, |p.scenarios|, "an earlier step did not pass")
  {
    hide RowsOf, RanRows, SkippedRows;
    var stop := StopAt(p, w, 0);
    forall i | 0 <= i < |p.scenarios| ensures Stops(p, w, i) <==> EndsAt(p, w, i) { }
  }

  // ---------------------------------------------------------------------
  // The report
  // ---------------------------------------------------------------------

  lemma {:induction false} CountIs(p: (Row, bool) -> bool, rows: seq<Row>, optional: set<nat>)
    ensures Count(p, rows, optional) == |set i: nat | i < |rows| && p(rows[i], i in optional)|
  {
    if rows != [] {
      var n := |rows| - 1;
      CountIs(p, rows[..n], optional);
      assert Count(p, rows, optional) == Count(p, rows[..n], optional) + if p(rows[n], n in optional) then 1 else 0;
      hide Count;
      OneMoreCounted(p, rows[..n], rows[n], optional);
      assert rows[..n] + [rows[n]] == rows;
    }
  }

  lemma OneMoreCounted(p: (Row, bool) -> bool, init: seq<Row>, r: Row, optional: set<nat>)
    ensures |set i: nat | i < |init + [r]| && p((init + [r])[i], i in optional)|
      == |set i: nat | i < |init| && p(init[i], i in optional)| + if p(r, |init| in optional) then 1 else 0
  {
    var before := set i: nat | i < |init| && p(init[i], i in optional);
    assert (set i: nat | i < |init + [r]| && p((init + [r])[i], i in optional))
      == before + if p(r, |init| in optional) then {|init|} else {};
  }

  /** The positions of rows with this status, excused optional ones left out. */
  function Gating(e: Evidence, status: Status): set<nat> {
    set i: nat | i < |e.rows| && e.rows[i].status == status && i !in e.optional
  }

  function All(e: Evidence, status: Status): set<nat> {
    set i: nat | i < |e.rows| && e.rows[i].status == status
  }

  function Excused(e: Evidence): set<nat> {
    set i: nat | i < |e.rows| && i in e.optional && e.rows[i].status in {Failed, Unavailable, Quarantined}
  }

  lemma SameCount(p: (Row, bool) -> bool, e: Evidence, s: set<nat>)
    requires forall i :: i in s <==> 0 <= i < |e.rows| && p(e.rows[i], i in e.optional)
    ensures Count(p, e.rows, e.optional) == |s|
  {
    CountIs(p, e.rows, e.optional);
    assert s == set i: nat | i < |e.rows| && p(e.rows[i], i in e.optional);
  }

  /**
   Each figure of the summary counts its rows: failures, quarantines and unavailable targets without the excused
   optional rows, which have a figure of their own.
   */
  lemma {:induction false} SummaryIs(e: Evidence)
    ensures SummaryOf(e) ==
      Summary(|e.rows|, |All(e, Passed)|, |Gating(e, Failed)|, |All(e, Skipped)|, |Gating(e, Quarantined)|,
              |All(e, Deduped)|, |Gating(e, Unavailable)|, |Excused(e)|)
    ensures GatingQuarantine(e) == |set i | i in Gating(e, Quarantined) && e.bound(e.rows[i])|
    ensures BuildReport(e).summary == SummaryOf(e) && BuildReport(e).gatingQuarantine == GatingQuarantine(e)
    ensures BuildReport(e).gatingPassed == |Gating(e, Passed)|
  {
    StatusCounts(e);
    GatingCounts(e);
    hide Count, All, Gating, Excused;
  }

  lemma {:induction false} StatusCounts(e: Evidence)
    ensures SummaryOf(e) ==
      Summary(|e.rows|, |All(e, Passed)|, |Gating(e, Failed)|, |All(e, Skipped)|, |Gating(e, Quarantined)|,
              |All(e, Deduped)|, |Gating(e, Unavailable)|, |Excused(e)|)
  {
    PlainCounts(e);
    SameCount(IsFailed, e, Gating(e, Failed));
    SameCount(IsQuarantined, e, Gating(e, Quarantined));
    SameCount(IsUnavailable, e, Gating(e, Unavailable));
    SameCount(ExcludedOptional, e, Excused(e));
    hide Count, All, Gating, Excused;
  }

  lemma {:induction false} PlainCounts(e: Evidence)
    ensures Count(IsPassed, e.rows, e.optional) == |All(e, Passed)|
    ensures Count(IsSkipped, e.rows, e.optional) == |All(e, Skipped)|
    ensures Count(IsDeduped, e.rows, e.optional) == |All(e, Deduped)|
  {
    SameCount(IsPassed, e, All(e, Passed));
    SameCount(IsSkipped, e, All(e, Skipped));
    SameCount(IsDeduped, e, All(e, Deduped));
    hide Count;
  }

  lemma {:induction false} GatingCounts(e: Evidence)
    ensures GatingQuarantine(e) == |set i | i in Gating(e, Quarantined) && e.bound(e.rows[i])|
    ensures BuildReport(e).gatingPassed == |Gating(e, Passed)|
  {
    var bound := (r: Row, optional: bool) => r.status == Quarantined && !optional && e.bound(r);
    SameCount(bound, e, set i | i in Gating(e, Quarantined) && e.bound(e.rows[i]));
    assert GatingQuarantine(e) == Count(bound, e.rows, e.optional);
    GatingPassedIs(e);
    var gating := (r: Row, optional: bool) => r.status == Passed && !optional;
    SameCount(gating, e, Gating(e, Passed));
    assert BuildReport(e).gatingPassed == Count(gating, e.rows, e.optional);
    hide Count;
  }
}
