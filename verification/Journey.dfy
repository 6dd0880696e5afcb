/**
 Running a plan and reporting on it: the stop rule of journey plans, the rows
 written for what did not run, and the verdict the report derives from the rows.
 */
module Journey {
  import opened Options

  datatype Status = Passed | Failed | Skipped | Quarantined | Deduped | Unavailable

  /** `required` is set on the rows of verify steps. */
  datatype Row = Row(name: string, status: Status, required: Option<bool>, reason: Option<string>)

  datatype Assertion = Assertion(id: string, required: bool)

  datatype Binding = NoBinding | BadBinding(code: string) | Bound(assertions: seq<Assertion>)

  datatype Scenario = Step(description: string) | Verify(description: string)

  /** What an assertion evaluates to. */
  datatype Verdict = Holds | DoesNotHold | NotEvaluated

  /**
   The rows an ordinary step pushes, the verdicts of a verify step's assertions, and whether the page left the plan's
   origin.
   */
  datatype World = World(stepRows: nat -> seq<Row>, verdict: (nat, nat) -> Verdict, leftOrigin: nat -> bool)

  datatype Plan = Plan(journey: bool, scenarios: seq<Scenario>, binding: Binding)

  // ---------------------------------------------------------------------
  // Rows
  // ---------------------------------------------------------------------

  function StatusOf(v: Verdict): Status {
    match v case Holds => Passed case DoesNotHold => Failed case NotEvaluated => Unavailable
  }

  /** Where an assertion's status comes from: its evaluation in scenario i, or nowhere. */
  datatype Evaluation = NotRun | RanIn(w: World, i: nat)

  function StatusIn(e: Evaluation, k: nat): Status {
    match e case NotRun => Unavailable case RanIn(w, i) => StatusOf(w.verdict(i, k))
  }

  /** One row per assertion. */
  function AssertionRows(description: string, assertions: seq<Assertion>, e: Evaluation,
                         reason: Option<string>): (r: seq<Row>)
    ensures |r| == |assertions|
  {
    if assertions == [] then []
    else
      var n := |assertions| - 1;
      AssertionRows(description, assertions[..n], e, reason) +
      [Row(description + ": " + assertions[n].id, StatusIn(e, n), Some(assertions[n].required), reason)]
  }

  /** The single row of a verify step whose contract is not bound. */
  function UnboundRow(description: string, reason: string): Row {
    Row(description, Unavailable, Some(true), Some(reason))
  }

  function CodeOf(b: Binding): string {
    if b.BadBinding? then b.code else "NO_BINDING"
  }

  /** The rows scenario i pushes when it runs. */
  function RowsOf(p: Plan, w: World, i: nat): seq<Row>
    requires i < |p.scenarios|
  {
    match p.scenarios[i]
    case Step(_) => w.stepRows(i)
    case Verify(description) =>
      if p.binding.Bound? then AssertionRows(description, p.binding.assertions, RanIn(w, i), None)
      else [UnboundRow(description, "Contract binding failed: " + CodeOf(p.binding))]
  }

  /** The rows scenario i gets when it is not run. */
  function NotRunRows(p: Plan, i: nat, reason: string): seq<Row>
    requires i < |p.scenarios|
  {
    match p.scenarios[i]
    case Step(description) => [Row(description, Skipped, None, Some("Not run: " + reason))]
    case Verify(description) =>
      if p.binding.Bound? then AssertionRows(description, p.binding.assertions, NotRun, Some("Not run: " + reason))
      else [UnboundRow(description, "Not run: " + reason)]
  }

  /** The rows of scenarios lo..hi, none of them run. */
  function SkippedRows(p: Plan, lo: nat, hi: nat, reason: string): seq<Row>
    requires lo <= hi <= |p.scenarios|
  {
    if lo == hi then [] else SkippedRows(p, lo, hi - 1, reason) + NotRunRows(p, hi - 1, reason)
  }

  predicate AllPassed(rows: seq<Row>) {
    forall i :: 0 <= i < |rows| ==> rows[i].status == Passed
  }

  predicate StepOk(rows: seq<Row>) {
    rows != [] && AllPassed(rows)
  }

  const STEP_FAILED := "an earlier step did not pass"
  const ORIGIN_LEFT := "the journey left the plan's origin"

  function OriginRow(): Row {
    Row("Stay on the application under test", Failed, None, None)
  }

  /** Scenario i ends the run. */
  predicate Stops(p: Plan, w: World, i: nat)
    requires i < |p.scenarios|
  {
    p.journey && (!StepOk(RowsOf(p, w, i)) || w.leftOrigin(i))
  }

  /** The rows of the first n scenarios, all of them run. */
  function RanRows(p: Plan, w: World, n: nat): seq<Row>
    requires n <= |p.scenarios|
  {
    if n == 0 then [] else RanRows(p, w, n - 1) + RowsOf(p, w, n - 1)
  }

  /** Where the run ends: the first stopping scenario, or the end of the list. */
  function StopAt(p: Plan, w: World, i: nat): (stop: nat)
    requires i <= |p.scenarios|
    ensures i <= stop <= |p.scenarios|
    ensures forall k :: i <= k < stop ==> !Stops(p, w, k)
    ensures stop < |p.scenarios| ==> Stops(p, w, stop)
    decreases |p.scenarios| - i
  {
    if i == |p.scenarios| || Stops(p, w, i) then i else StopAt(p, w, i + 1)
  }

  /** All rows of a run that ends at `stop`. */
  function Outcome(p: Plan, w: World, stop: nat): seq<Row>
    requires stop <= |p.scenarios|
  {
    if stop == |p.scenarios| then RanRows(p, w, stop)
    else
      RanRows(p, w, stop + 1) +
      if !StepOk(RowsOf(p, w, stop)) then SkippedRows(p, stop + 1, |p.scenarios|, STEP_FAILED)
      else [OriginRow()] + SkippedRows(p, stop + 1, |p.scenarios|, ORIGIN_LEFT)
  }

  class TestRunner {
    var results: seq<Row>

    constructor ()
      ensures results == []
    {
      results := [];
    }

    method RunVerify(p: Plan, w: World, i: nat, description: string)
      requires i < |p.scenarios| && p.scenarios[i] == Verify(description)
      modifies this
      ensures results == old(results) + RowsOf(p, w, i)
    {
      if !p.binding.Bound? {
        results := results + [UnboundRow(description, "Contract binding failed: " + CodeOf(p.binding))];
        return;
      }
      var assertions := p.binding.assertions;
      for k := 0 to |assertions|
        invariant results == old(results) + AssertionRows(description, assertions[..k], RanIn(w, i), None)
      {
        assert assertions[..k + 1][..k] == assertions[..k];
        var name := description + ": " + assertions[k].id;
        results := results + [Row(name, StatusOf(w.verdict(i, k)), Some(assertions[k].required), None)];
      }
      assert assertions[..|assertions|] == assertions;
    }

    method RunScenario(p: Plan, w: World, i: nat)
      requires i < |p.scenarios|
      modifies this
      ensures results == old(results) + RowsOf(p, w, i)
    {
      match p.scenarios[i]
      case Step(_) => results := results + w.stepRows(i);
      case Verify(description) => RunVerify(p, w, i, description);
    }

    /** The rows of one scenario that is not run. */
    method SkipScenario(p: Plan, i: nat, reason: string)
      requires i < |p.scenarios|
      modifies this
      ensures results == old(results) + NotRunRows(p, i, reason)
    {
      match p.scenarios[i]
      case Step(description) =>
        results := results + [Row(description, Skipped, None, Some("Not run: " + reason))];
      case Verify(description) =>
        if !p.binding.Bound? {
          results := results + [UnboundRow(description, "Not run: " + reason)];
          return;
        }
        var assertions := p.binding.assertions;
        for k := 0 to |assertions|
          invariant results == old(results) +
            AssertionRows(description, assertions[..k], NotRun, Some("Not run: " + reason))
        {
          assert assertions[..k + 1][..k] == assertions[..k];
          var name := description + ": " + assertions[k].id;
          results := results + [Row(name, Unavailable, Some(assertions[k].required), Some("Not run: " + reason))];
        }
        assert assertions[..|assertions|] == assertions;
    }

    method SkipRemaining(p: Plan, current: nat, reason: string)
      requires current < |p.scenarios|
      modifies this
      ensures results == old(results) + SkippedRows(p, current + 1, |p.scenarios|, reason)
    {
      hide NotRunRows;
      for i := current + 1 to |p.scenarios|
        invariant results == old(results) + SkippedRows(p, current + 1, i, reason)
      {
        SkipScenario(p, i, reason);
      }
    }

    /** Runs the plan; the rows are those of a run that ends at the first stopping scenario. */
    method ExecuteTest(p: Plan, w: World)
      modifies this
      ensures results == old(results) + Outcome(p, w, StopAt(p, w, 0))
    {
      hide RowsOf, SkippedRows, StepOk, Outcome, StopAt, RanRows;
      ghost var stop := StopAt(p, w, 0);
      StopsOrGoesOn(p, w, 0);
      for i := 0 to |p.scenarios|
        invariant StopAt(p, w, i) == stop
        invariant results == old(results) + RanRows(p, w, i)
      {
        StopsOrGoesOn(p, w, i);
        var beforeCount := |results|;
        RunScenario(p, w, i);
        if p.journey {
          var pushed := results[beforeCount..];
          assert pushed == RowsOf(p, w, i);
          if !StepOk(pushed) {
            SkipRemaining(p, i, STEP_FAILED);
            return;
          }
          if w.leftOrigin(i) {
            results := results + [OriginRow()];
            SkipRemaining(p, i, ORIGIN_LEFT);
            return;
          }
        }
      }
      StopsOrGoesOn(p, w, |p.scenarios|);
    }
  }

  /** One scenario of the loop: where the run ends from here, and what its rows are then. */
  lemma StopsOrGoesOn(p: Plan, w: World, i: nat)
    requires i <= |p.scenarios|
    ensures RanRows(p, w, 0) == []
    ensures i == |p.scenarios| ==> StopAt(p, w, i) == i && Outcome(p, w, i) == RanRows(p, w, i)
    ensures i < |p.scenarios| ==> RanRows(p, w, i + 1) == RanRows(p, w, i) + RowsOf(p, w, i)
    ensures i < |p.scenarios| && !p.journey ==> StopAt(p, w, i) == StopAt(p, w, i + 1)
    ensures i < |p.scenarios| && p.journey && StepOk(RowsOf(p, w, i)) && !w.leftOrigin(i) ==>
      StopAt(p, w, i) == StopAt(p, w, i + 1)
    ensures i < |p.scenarios| && p.journey && !StepOk(RowsOf(p, w, i)) ==>
      (StopAt(p, w, i) == i &&
       Outcome(p, w, i) == RanRows(p, w, i + 1) + SkippedRows(p, i + 1, |p.scenarios|, STEP_FAILED))
    ensures i < |p.scenarios| && p.journey && StepOk(RowsOf(p, w, i)) && w.leftOrigin(i) ==>
      (StopAt(p, w, i) == i &&
       Outcome(p, w, i) == RanRows(p, w, i + 1) + ([OriginRow()] + SkippedRows(p, i + 1, |p.scenarios|, ORIGIN_LEFT)))
  {
    hide RowsOf, SkippedRows, StepOk;
  }

  // ---------------------------------------------------------------------
  // The stop rule
  // ---------------------------------------------------------------------

  lemma {:induction false} RanRowsPassed(p: Plan, w: World, n: nat)
    requires n <= |p.scenarios| && forall k :: 0 <= k < n ==> StepOk(RowsOf(p, w, k))
    ensures AllPassed(RanRows(p, w, n))
  {
    hide RowsOf;
    if n > 0 {
      assert StepOk(RowsOf(p, w, n - 1));
      RanRowsPassed(p, w, n - 1);
    }
  }

  lemma {:induction false} BeforeStopPassed(p: Plan, w: World, stop: nat)
    requires p.journey && stop == StopAt(p, w, 0)
    ensures AllPassed(RanRows(p, w, stop))
  {
    hide RowsOf, StepOk;
    forall k | 0 <= k < stop ensures StepOk(RowsOf(p, w, k)) { assert !Stops(p, w, k); }
    hide StopAt;
    RanRowsPassed(p, w, stop);
  }

  predicate NonePassed(rows: seq<Row>) {
    forall i :: 0 <= i < |rows| ==> rows[i].status != Passed
  }

  lemma NoRowsPass()
    ensures NonePassed([])
  {
  }

  lemma {:induction false} SkippedNeverPass(p: Plan, lo: nat, hi: nat, reason: string)
    requires lo <= hi <= |p.scenarios|
    ensures NonePassed(SkippedRows(p, lo, hi, reason))
  {
    if lo < hi {
      SkippedNeverPass(p, lo, hi - 1, reason);
      NotRunRowsAre(p, hi - 1, reason);
      hide NotRunRows;
    }
  }

  lemma {:induction false} OutcomeParts(p: Plan, w: World, stop: nat) returns (rest: seq<Row>)
    requires stop < |p.scenarios|
    ensures Outcome(p, w, stop) == RanRows(p, w, stop) + RowsOf(p, w, stop) + rest
    ensures NonePassed(rest) && (StepOk(RowsOf(p, w, stop)) ==> rest != [])
  {
    hide *;
    rest := RestAfter(p, w, stop);
    OutcomeSplits(p, w, stop);
    RestNeverPasses(p, w, stop);
  }

  /** The rows behind those of the stopping scenario. */
  function RestAfter(p: Plan, w: World, stop: nat): seq<Row>
    requires stop < |p.scenarios|
  {
    if StepOk(RowsOf(p, w, stop)) then [OriginRow()] + SkippedRows(p, stop + 1, |p.scenarios|, ORIGIN_LEFT)
    else SkippedRows(p, stop + 1, |p.scenarios|, STEP_FAILED)
  }

  lemma RestNeverPasses(p: Plan, w: World, stop: nat)
    requires stop < |p.scenarios|
    ensures var rest := RestAfter(p, w, stop); NonePassed(rest) && (StepOk(RowsOf(p, w, stop)) ==> rest != [])
  {
    hide RowsOf, StepOk, SkippedRows, NonePassed;
    var n := |p.scenarios|;
    SkippedNeverPass(p, stop + 1, n, ORIGIN_LEFT);
    SkippedNeverPass(p, stop + 1, n, STEP_FAILED);
    OriginNeverPasses(SkippedRows(p, stop + 1, n, ORIGIN_LEFT));
  }

  lemma OutcomeSplits(p: Plan, w: World, stop: nat)
    requires stop < |p.scenarios|
    ensures Outcome(p, w, stop) == RanRows(p, w, stop) + RowsOf(p, w, stop) + RestAfter(p, w, stop)
  {
    hide RowsOf, StepOk, SkippedRows;
    assert RanRows(p, w, stop + 1) == RanRows(p, w, stop) + RowsOf(p, w, stop);
    assert Outcome(p, w, stop) == RanRows(p, w, stop + 1) + RestAfter(p, w, stop);
    hide *;
  }

  lemma OriginNeverPasses(rows: seq<Row>)
    requires NonePassed(rows)
    ensures NonePassed([OriginRow()] + rows)
  {
  }

  /**
   The rows of a journey fall into three parts: those of the steps before the stop, which all passed; those of the
   stopping step; and the rest, none of which passed.
   */
  lemma {:induction false} PassesEndAtStop(p: Plan, w: World) returns (rest: seq<Row>)
    requires p.journey
    ensures var stop := StopAt(p, w, 0);
      && AllPassed(RanRows(p, w, stop)) && NonePassed(rest)
      && Outcome(p, w, stop)
        == RanRows(p, w, stop) + (if stop < |p.scenarios| then RowsOf(p, w, stop) else []) + rest
      && (stop < |p.scenarios| && StepOk(RowsOf(p, w, stop)) ==> rest != [])
  {
    var stop := StopAt(p, w, 0);
    hide RowsOf, StepOk, StopAt, SkippedRows, RanRows;
    BeforeStopPassed(p, w, stop);
    rest := [];
    hide AllPassed, NonePassed;
    assert NonePassed([]) by { NoRowsPass(); }
    if stop < |p.scenarios| {
      rest := OutcomeParts(p, w, stop);
    }
  }

  /** A plan that is not a journey runs every scenario. */
  lemma {:induction false} PlainPlansRunEverything(p: Plan, w: World)
    requires !p.journey
    ensures Outcome(p, w, StopAt(p, w, 0)) == RanRows(p, w, |p.scenarios|)
  {
    assert StopAt(p, w, 0) < |p.scenarios| ==> Stops(p, w, StopAt(p, w, 0));
  }

  lemma {:induction false} RanRowsHold(p: Plan, w: World, n: nat, i: nat, row: Row)
    requires i < n <= |p.scenarios| && row in RowsOf(p, w, i)
    ensures row in RanRows(p, w, n)
  {
    hide RowsOf;
    if i < n - 1 { RanRowsHold(p, w, n - 1, i, row); }
  }

  lemma {:induction false} SkippedRowsHold(p: Plan, lo: nat, hi: nat, i: nat, reason: string, row: Row)
    requires lo <= i < hi <= |p.scenarios| && row in NotRunRows(p, i, reason)
    ensures row in SkippedRows(p, lo, hi, reason)
  {
    hide NotRunRows;
    if i < hi - 1 { SkippedRowsHold(p, lo, hi - 1, i, reason, row); }
  }

  /** Scenarios up to the stop have the rows of their run; later ones the rows for not having run. */
  lemma {:induction false} OutcomeHolds(p: Plan, w: World, stop: nat, i: nat, row: Row)
    requires stop <= |p.scenarios| && i < |p.scenarios|
    requires if i <= stop then row in RowsOf(p, w, i) else
      row in NotRunRows(p, i, if !StepOk(RowsOf(p, w, stop)) then STEP_FAILED else ORIGIN_LEFT)
    ensures row in Outcome(p, w, stop)
  {
    hide RowsOf, NotRunRows, StepOk, RanRows, SkippedRows;
    if i <= stop {
      RanRowsHold(p, w, if stop == |p.scenarios| then stop else stop + 1, i, row);
    } else {
      var reason := if !StepOk(RowsOf(p, w, stop)) then STEP_FAILED else ORIGIN_LEFT;
      SkippedRowsHold(p, stop + 1, |p.scenarios|, i, reason, row);
    }
  }

  lemma {:induction false} AssertionRowAt(description: string, assertions: seq<Assertion>, e: Evaluation,
                                          reason: Option<string>, k: nat)
    requires k < |assertions|
    ensures AssertionRows(description, assertions, e, reason)[k]
      == Row(description + ": " + assertions[k].id, StatusIn(e, k), Some(assertions[k].required), reason)
  {
    if k < |assertions| - 1 { AssertionRowAt(description, assertions[..|assertions| - 1], e, reason, k); }
  }

  // ---------------------------------------------------------------------
  // The report
  // ---------------------------------------------------------------------

  datatype Result = NO_TESTS_RUN | PASSED | FAILED | PARTIAL

  /**
   The rows, the indexes of trusted optional rows, which rows are bound business assertions, and the integrity
   breaches.
   */
  datatype Evidence = Evidence(rows: seq<Row>, optional: set<nat>, bound: Row -> bool, breaches: nat)

  predicate ExcludedOptional(r: Row, optional: bool) {
    optional && (r.status == Failed || r.status == Unavailable || r.status == Quarantined)
  }

  predicate IsPassed(r: Row, optional: bool) { r.status == Passed }
  predicate IsFailed(r: Row, optional: bool) { r.status == Failed && !ExcludedOptional(r, optional) }
  predicate IsSkipped(r: Row, optional: bool) { r.status == Skipped }
  predicate IsQuarantined(r: Row, optional: bool) { r.status == Quarantined && !ExcludedOptional(r, optional) }
  predicate IsDeduped(r: Row, optional: bool) { r.status == Deduped }
  predicate IsUnavailable(r: Row, optional: bool) { r.status == Unavailable && !ExcludedOptional(r, optional) }
  predicate IsOptionalPassed(r: Row, optional: bool) { optional && r.status == Passed }

  function Count(p: (Row, bool) -> bool, rows: seq<Row>, optional: set<nat>): (n: nat)
    ensures n <= |rows|
  {
    if rows == [] then 0
    else
      Count(p, rows[..|rows| - 1], optional) + if p(rows[|rows| - 1], |rows| - 1 in optional) then 1 else 0
  }

  datatype Summary = Summary(
    total: nat, passed: nat, failed: nat, skipped: nat, quarantined: nat, deduped: nat, unavailable: nat,
    optionalNotPassed: nat)

  datatype Report = Report(summary: Summary, gatingPassed: int, gatingQuarantine: nat, result: Result)

  function SummaryOf(e: Evidence): Summary {
    Summary(|e.rows|,
            Count(IsPassed, e.rows, e.optional), Count(IsFailed, e.rows, e.optional),
            Count(IsSkipped, e.rows, e.optional),
            Count(IsQuarantined, e.rows, e.optional), Count(IsDeduped, e.rows, e.optional),
            Count(IsUnavailable, e.rows, e.optional), Count(ExcludedOptional, e.rows, e.optional))
  }

  function GatingQuarantine(e: Evidence): nat {
    Count((r: Row, optional: bool) => r.status == Quarantined && !optional && e.bound(r), e.rows, e.optional)
  }

  function BuildReport(e: Evidence): Report {
    var s := SummaryOf(e);
    var gatingPassed := s.passed - Count(IsOptionalPassed, e.rows, e.optional);
    var gatingQuarantine := GatingQuarantine(e);
    Report(s, gatingPassed, gatingQuarantine,
           if s.passed + s.failed + s.quarantined + s.unavailable == 0 then NO_TESTS_RUN
           else if s.failed == 0 && s.unavailable == 0 && gatingQuarantine == 0 && e.breaches == 0 then PASSED
           else if gatingPassed == 0 then FAILED
           else PARTIAL)
  }

  /** Every row is counted exactly once. */
  lemma {:induction false} SummaryAddsUp(e: Evidence)
    ensures var s := SummaryOf(e);
      s.total == s.passed + s.failed + s.skipped + s.quarantined + s.deduped + s.unavailable + s.optionalNotPassed
    decreases |e.rows|
  {
    if e.rows != [] { SummaryAddsUp(e.(rows := e.rows[..|e.rows| - 1])); }
  }

  lemma {:induction false} CountIsPositiveIff(p: (Row, bool) -> bool, rows: seq<Row>, optional: set<nat>)
    ensures Count(p, rows, optional) > 0 <==> exists i :: 0 <= i < |rows| && p(rows[i], i in optional)
  {
    if rows != [] {
      var n := |rows| - 1;
      CountIsPositiveIff(p, rows[..n], optional);
      if Count(p, rows[..n], optional) > 0 {
        var i :| 0 <= i < n && p(rows[..n][i], i in optional);
        assert p(rows[i], i in optional);
      }
      if i :| 0 <= i < n && p(rows[i], i in optional) {
        assert p(rows[..n][i], i in optional);
      }
    }
  }

  /** A row that must not be excused is failed or unavailable. */
  predicate Fails(e: Evidence, i: nat)
    requires i < |e.rows|
  {
    i !in e.optional &&
    (e.rows[i].status == Failed || e.rows[i].status == Unavailable ||
     (e.rows[i].status == Quarantined && e.bound(e.rows[i])))
  }

  predicate Reached(e: Evidence, i: nat)
    requires i < |e.rows|
  {
    e.rows[i].status == Passed || (e.rows[i].status == Quarantined && i !in e.optional)
  }

  /** PASSED exactly when something was verified, nothing gating failed, and the evidence is intact. */
  lemma {:induction false} PassedIff(e: Evidence)
    ensures BuildReport(e).result == PASSED <==>
      ((exists i :: 0 <= i < |e.rows| && Reached(e, i)) && (forall i :: 0 <= i < |e.rows| ==> !Fails(e, i)) &&
       e.breaches == 0)
  {
    SomeFailsIff(e);
    SomeReachedIff(e);
    hide Count, SummaryOf, GatingQuarantine, Fails, Reached;
  }

  lemma {:induction false} SomeFailsIff(e: Evidence)
    ensures SummaryOf(e).failed > 0 || SummaryOf(e).unavailable > 0 || GatingQuarantine(e) > 0
      <==> exists i :: 0 <= i < |e.rows| && Fails(e, i)
  {
    var gating := (r: Row, optional: bool) => r.status == Quarantined && !optional && e.bound(r);
    CountIsPositiveIff(IsFailed, e.rows, e.optional);
    CountIsPositiveIff(IsUnavailable, e.rows, e.optional);
    CountIsPositiveIff(gating, e.rows, e.optional);
    assert GatingQuarantine(e) == Count(gating, e.rows, e.optional);
    hide Count;
    assert forall i :: 0 <= i < |e.rows| ==>
      (Fails(e, i) <==> IsFailed(e.rows[i], i in e.optional) || IsUnavailable(e.rows[i], i in e.optional)
                        || gating(e.rows[i], i in e.optional));
  }

  lemma {:induction false} SomeReachedIff(e: Evidence)
    ensures SummaryOf(e).passed > 0 || SummaryOf(e).quarantined > 0 <==> exists i :: 0 <= i < |e.rows| && Reached(e, i)
  {
    CountIsPositiveIff(IsPassed, e.rows, e.optional);
    CountIsPositiveIff(IsQuarantined, e.rows, e.optional);
    hide Count;
    assert forall i :: 0 <= i < |e.rows| ==>
      (Reached(e, i) <==> IsPassed(e.rows[i], i in e.optional) || IsQuarantined(e.rows[i], i in e.optional));
  }

  /** A pass that is not a trusted optional one. */
  predicate GatingPass(e: Evidence, i: nat)
    requires i < |e.rows|
  {
    e.rows[i].status == Passed && i !in e.optional
  }

  lemma {:induction false} GatingPassedIs(e: Evidence)
    ensures BuildReport(e).gatingPassed
      == Count((r: Row, optional: bool) => r.status == Passed && !optional, e.rows, e.optional)
  {
    var p := (r: Row, optional: bool) => r.status == Passed && !optional;
    GatingPassCounts(p, e.rows, e.optional);
  }

  lemma {:induction false} GatingPassCounts(p: (Row, bool) -> bool, rows: seq<Row>, optional: set<nat>)
    requires forall r: Row, o: bool :: p(r, o) <==> r.status == Passed && !o
    ensures Count(p, rows, optional) == Count(IsPassed, rows, optional) - Count(IsOptionalPassed, rows, optional)
  {
    if rows != [] { GatingPassCounts(p, rows[..|rows| - 1], optional); }
  }

  lemma {:induction false} GatingPassedPositive(e: Evidence)
    ensures BuildReport(e).gatingPassed >= 0
    ensures BuildReport(e).gatingPassed > 0 <==> exists i :: 0 <= i < |e.rows| && GatingPass(e, i)
  {
    GatingPassedIs(e);
    var gating := (r: Row, optional: bool) => r.status == Passed && !optional;
    CountIsPositiveIff(gating, e.rows, e.optional);
    assert BuildReport(e).gatingPassed == Count(gating, e.rows, e.optional);
    hide Count, BuildReport;
    assert forall i :: 0 <= i < |e.rows| ==> (GatingPass(e, i) <==> gating(e.rows[i], i in e.optional));
  }

  /**
   NO_TESTS_RUN exactly when no row reached a verdict that counts; short of PASSED, PARTIAL exactly when some gating
   row passed.
   */
  lemma {:induction false} OtherResultsIff(e: Evidence)
    ensures var result := BuildReport(e).result;
      (result == NO_TESTS_RUN <==> forall i :: 0 <= i < |e.rows| ==>
        e.rows[i].status == Skipped || e.rows[i].status == Deduped || ExcludedOptional(e.rows[i], i in e.optional)) &&
      (result == PARTIAL ==> exists i :: 0 <= i < |e.rows| && GatingPass(e, i)) &&
      (result == FAILED ==> forall i :: 0 <= i < |e.rows| ==> !GatingPass(e, i))
  {
    CountIsPositiveIff(IsPassed, e.rows, e.optional);
    CountIsPositiveIff(IsFailed, e.rows, e.optional);
    CountIsPositiveIff(IsQuarantined, e.rows, e.optional);
    CountIsPositiveIff(IsUnavailable, e.rows, e.optional);
    GatingPassedPositive(e);
    hide Count;
    assert forall i :: 0 <= i < |e.rows| ==>
      ((e.rows[i].status == Skipped || e.rows[i].status == Deduped || ExcludedOptional(e.rows[i], i in e.optional)) <==>
       !IsPassed(e.rows[i], i in e.optional) && !IsFailed(e.rows[i], i in e.optional) &&
       !IsQuarantined(e.rows[i], i in e.optional) && !IsUnavailable(e.rows[i], i in e.optional));
  }

  /** Required rows are never in the optional set. */
  ghost predicate RequiredIsNotOptional(e: Evidence) {
    forall i :: 0 <= i < |e.rows| && i in e.optional ==> e.rows[i].required != Some(true)
  }

  lemma {:induction false} RequiredRowGates(e: Evidence, row: Row)
    requires RequiredIsNotOptional(e) && row in e.rows
    requires row.required == Some(true) && (row.status == Failed || row.status == Unavailable)
    ensures BuildReport(e).result != PASSED
  {
    PassedIff(e);
    hide BuildReport;
    var i :| 0 <= i < |e.rows| && e.rows[i] == row;
    assert Fails(e, i);
  }

  /** The row of a required assertion that was not seen to hold: in the run, or for not having been run. */
  lemma {:induction false} UnverifiedRow(p: Plan, w: World, stop: nat, j: nat, k: nat) returns (row: Row)
    requires stop <= |p.scenarios| && j < |p.scenarios| && p.scenarios[j].Verify? && p.binding.Bound?
    requires k < |p.binding.assertions| && p.binding.assertions[k].required && (j > stop || w.verdict(j, k) != Holds)
    ensures row in Outcome(p, w, stop) && row.required == Some(true) &&
      (row.status == Failed || row.status == Unavailable)
  {
    var reason := if j > stop && StepOk(RowsOf(p, w, stop)) then ORIGIN_LEFT else STEP_FAILED;
    var e, why := if j <= stop then RanIn(w, j) else NotRun, if j <= stop then None else Some("Not run: " + reason);
    var rows := AssertionRows(p.scenarios[j].description, p.binding.assertions, e, why);
    AssertionRowAt(p.scenarios[j].description, p.binding.assertions, e, why, k);
    row := rows[k];
    hide Outcome, StepOk;
    OutcomeHolds(p, w, stop, j, row);
  }

  /**
   A run with a verify step is reported PASSED only if the contract is bound, and if the contract has a required
   assertion, only if every verify step ran and every required assertion held there, whatever happened to other steps.
   */
  lemma {:induction false} PassedMeansVerified(p: Plan, w: World, e: Evidence, j: nat)
    requires e.rows == Outcome(p, w, StopAt(p, w, 0)) && RequiredIsNotOptional(e) && BuildReport(e).result == PASSED
    requires j < |p.scenarios| && p.scenarios[j].Verify?
    ensures p.binding.Bound?
    ensures forall k :: 0 <= k < |p.binding.assertions| && p.binding.assertions[k].required ==>
      j <= StopAt(p, w, 0) && w.verdict(j, k) == Holds
  {
    var stop := StopAt(p, w, 0);
    hide BuildReport, Outcome, RequiredIsNotOptional;
    if !p.binding.Bound? {
      var reason := if j > stop && StepOk(RowsOf(p, w, stop)) then ORIGIN_LEFT else STEP_FAILED;
      var row := if j <= stop
                 then UnboundRow(p.scenarios[j].description, "Contract binding failed: " + CodeOf(p.binding))
                 else UnboundRow(p.scenarios[j].description, "Not run: " + reason);
      OutcomeHolds(p, w, stop, j, row);
      RequiredRowGates(e, row);
    } else {
      forall k | 0 <= k < |p.binding.assertions| && p.binding.assertions[k].required
        ensures j <= stop && w.verdict(j, k) == Holds
      {
        if j > stop || w.verdict(j, k) != Holds {
          var row := UnverifiedRow(p, w, stop, j, k);
          RequiredRowGates(e, row);
        }
      }
    }
  }

  /** A report PASSED on the rows of this run. */
  ghost predicate ReportedPassed(p: Plan, w: World, e: Evidence) {
    e.rows == Outcome(p, w, StopAt(p, w, 0)) && RequiredIsNotOptional(e) && BuildReport(e).result == PASSED
  }

  /** Every verify step of the plan ran. */
  ghost predicate VerifiesRan(p: Plan, w: World) {
    forall j :: 0 <= j < |p.scenarios| && p.scenarios[j].Verify? ==> j <= StopAt(p, w, 0)
  }

  ghost predicate HasRequired(assertions: seq<Assertion>) {
    exists k :: 0 <= k < |assertions| && assertions[k].required
  }

  /**
   PASSED means that every verify step ran if and only if the contract has a required assertion: with optional ones
   only, a quarantined step can end the journey before its verify step and the report is still PASSED.
   */
  lemma {:induction false} PassedMeansRanIff(assertions: seq<Assertion>)
    ensures (forall p: Plan, w: World, e: Evidence ::
              p.binding == Bound(assertions) && ReportedPassed(p, w, e) ==> VerifiesRan(p, w))
      <==> HasRequired(assertions)
  {
    if HasRequired(assertions) {
      forall p: Plan, w: World, e: Evidence | p.binding == Bound(assertions) && ReportedPassed(p, w, e)
        ensures VerifiesRan(p, w)
      {
        forall j | 0 <= j < |p.scenarios| && p.scenarios[j].Verify? ensures j <= StopAt(p, w, 0) {
          PassedMeansVerified(p, w, e, j);
        }
      }
    } else {
      var p, w, e := PassedUnverified(assertions);
      assert p.binding == Bound(assertions) && ReportedPassed(p, w, e) && !VerifiesRan(p, w);
    }
  }

  /** Every index below n but the first. */
  function Later(n: nat): (s: set<nat>)
    ensures forall i: nat :: i in s <==> 1 <= i < n
  {
    if n <= 1 then {} else Later(n - 1) + {n - 1}
  }

  /** A quarantined step followed by optional assertions that did not run passes. */
  lemma {:induction false} OptionalRestPasses(e: Evidence, row: Row, late: seq<Row>)
    requires e.rows == [row] + late && e.optional == Later(|e.rows|) && e.breaches == 0
    requires row.status == Quarantined && !e.bound(row)
    requires forall i :: 0 <= i < |late| ==> late[i].status == Unavailable && late[i].required == Some(false)
    ensures RequiredIsNotOptional(e) && BuildReport(e).result == PASSED
  {
    PassedIff(e);
    hide BuildReport;
    assert e.rows[0] == row && Reached(e, 0) && !Fails(e, 0);
    forall i | 1 <= i < |e.rows| ensures e.rows[i] == late[i - 1] && i in e.optional && !Fails(e, i) {
    }
  }

  lemma {:induction false} OptionalRowsAre(description: string, assertions: seq<Assertion>, reason: string)
    requires !HasRequired(assertions)
    ensures forall i :: 0 <= i < |assertions| ==>
      (AssertionRows(description, assertions, NotRun, Some(reason))[i].status == Unavailable &&
       AssertionRows(description, assertions, NotRun, Some(reason))[i].required == Some(false))
  {
    forall i | 0 <= i < |assertions|
      ensures AssertionRows(description, assertions, NotRun, Some(reason))[i].status == Unavailable
      ensures AssertionRows(description, assertions, NotRun, Some(reason))[i].required == Some(false)
    {
      AssertionRowAt(description, assertions, NotRun, Some(reason), i);
    }
  }

  /** The failing input: a quarantined step, then a verify step whose assertions are all optional. */
  lemma {:induction false} PassedUnverified(assertions: seq<Assertion>) returns (p: Plan, w: World, e: Evidence)
    requires !HasRequired(assertions)
    ensures p == Plan(true, [Step("s"), Verify("v")], Bound(assertions))
    ensures w.stepRows(0) == [Row("s", Quarantined, None, None)]
    ensures ReportedPassed(p, w, e) && StopAt(p, w, 0) == 0 && !VerifiesRan(p, w)
  {
    p := Plan(true, [Step("s"), Verify("v")], Bound(assertions));
    var row := Row("s", Quarantined, None, None);
    w := World(i => [row], (i, k) => Holds, i => false);
    hide *;
    var late := StopsBeforeVerify(p, w, row, assertions);
    e := Evidence([row] + late, Later(1 + |late|), r => false, 0);
    OptionalRestPasses(e, row, late);
    PassedRun(p, w, e);
  }

  lemma PassedRun(p: Plan, w: World, e: Evidence)
    requires e.rows == Outcome(p, w, StopAt(p, w, 0)) && RequiredIsNotOptional(e) && BuildReport(e).result == PASSED
    ensures ReportedPassed(p, w, e)
  {
  }

  lemma {:induction false} StopsBeforeVerify(p: Plan, w: World, row: Row, assertions: seq<Assertion>)
      returns (late: seq<Row>)
    requires p == Plan(true, [Step("s"), Verify("v")], Bound(assertions)) && !HasRequired(assertions)
    requires w.stepRows(0) == [row] && row.status == Quarantined
    ensures StopAt(p, w, 0) == 0 && Outcome(p, w, 0) == [row] + late && !VerifiesRan(p, w)
    ensures forall i :: 0 <= i < |late| ==> late[i].status == Unavailable && late[i].required == Some(false)
  {
    late := AssertionRows("v", assertions, NotRun, Some("Not run: " + STEP_FAILED));
    assert RowsOf(p, w, 0) == [row] && late == NotRunRows(p, 1, STEP_FAILED);
    assert p.scenarios[1].Verify?;
    hide Outcome, StopAt, RowsOf, NotRunRows, HasRequired, AssertionRows;
    StopsAtOnce(p, w, row);
    TwoStepOutcome(p, w, row, late);
    OptionalRowsAre("v", assertions, "Not run: " + STEP_FAILED);
  }

  lemma StopsAtOnce(p: Plan, w: World, row: Row)
    requires p.journey && p.scenarios != [] && RowsOf(p, w, 0) == [row] && row.status != Passed
    ensures StopAt(p, w, 0) == 0 && !StepOk(RowsOf(p, w, 0))
  {
    hide RowsOf;
    assert [row][0].status != Passed;
  }

  lemma TwoStepOutcome(p: Plan, w: World, row: Row, late: seq<Row>)
    requires |p.scenarios| == 2 && RowsOf(p, w, 0) == [row] && row.status != Passed
    requires late == NotRunRows(p, 1, STEP_FAILED)
    ensures Outcome(p, w, 0) == [row] + late
  {
    hide RowsOf, NotRunRows;
    assert [row][0].status != Passed && !StepOk([row]);
    assert RanRows(p, w, 1) == RanRows(p, w, 0) + [row] && RanRows(p, w, 0) == [];
    assert SkippedRows(p, 1, 2, STEP_FAILED) == SkippedRows(p, 1, 1, STEP_FAILED) + late;
    assert SkippedRows(p, 1, 1, STEP_FAILED) == [];
  }

  /**
   What the rows after the stop say: a skipped row per step, and for a verify step one unavailable row per assertion.
   */
  lemma {:induction false} NotRunRowsAre(p: Plan, i: nat, reason: string)
    requires i < |p.scenarios|
    ensures var rows := NotRunRows(p, i, reason);
      (p.scenarios[i].Step? ==> |rows| == 1 && rows[0].status == Skipped) &&
      (p.scenarios[i].Verify? ==>
        (|rows| == (if p.binding.Bound? then |p.binding.assertions| else 1) &&
         forall k :: 0 <= k < |rows| ==>
           (rows[k].status == Unavailable &&
            rows[k].required == Some(p.binding.Bound? ==> p.binding.assertions[k].required))))
  {
    if p.scenarios[i].Verify? && p.binding.Bound? {
      forall k: nat | k < |p.binding.assertions| {
        AssertionRowAt(p.scenarios[i].description, p.binding.assertions, NotRun, Some("Not run: " + reason), k);
      }
    }
  }

  /**
   A journey that left the plan's origin after a passing step is not PASSED; its origin row is not an optional
   assertion.
   */
  lemma {:induction false} LeavingOriginFails(p: Plan, w: World, e: Evidence)
    requires p.journey && StopAt(p, w, 0) < |p.scenarios| && StepOk(RowsOf(p, w, StopAt(p, w, 0)))
    requires e.rows == Outcome(p, w, StopAt(p, w, 0)) && |RanRows(p, w, StopAt(p, w, 0) + 1)| !in e.optional
    ensures BuildReport(e).result != PASSED
  {
    hide BuildReport, Outcome, RanRows, RowsOf, StopAt, StepOk;
    var stop := StopAt(p, w, 0);
    OriginRowAt(p, w, stop);
    PassedIff(e);
    assert Fails(e, |RanRows(p, w, stop + 1)|);
  }

  lemma OriginRowAt(p: Plan, w: World, stop: nat)
    requires stop < |p.scenarios| && StepOk(RowsOf(p, w, stop))
    ensures var i := |RanRows(p, w, stop + 1)|;
      i < |Outcome(p, w, stop)| && Outcome(p, w, stop)[i] == OriginRow()
  {
    hide RowsOf, StepOk, SkippedRows, RanRows;
  }
}
