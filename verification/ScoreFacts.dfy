/**
 What the benchmark scorer computes, spelled out: which records are refused,
 what each rate counts, what the Wilson interval is, and what the composite
 and the list of entries hold.
 */
module ScoreFacts {
  import opened Options
  import opened Positions
  import PlanSelector
  import CheckpointText
  import opened CompetitiveScore
  import opened ScoreOrder

  // ---------------------------------------------------------------------
  // The Wilson interval
  // ---------------------------------------------------------------------

  /** The expanded equation: with d = 1 + k, d x^2 - (2p + k) x + p^2 = 0. */
  lemma {:induction false} RootOfQuadratic(p: real, k: real, x: real, s: real)
    requires k > 0.0 && (x * (1.0 + k) - (p + k / 2.0)) * (x * (1.0 + k) - (p + k / 2.0)) == s * s
    requires s * s == k * (p * (1.0 - p)) + k * k / 4.0
    ensures (p - x) * (p - x) == k * (x * (1.0 - x))
  {
    var d, c, y := 1.0 + k, p + k / 2.0, x * (1.0 + k);
    var pp, pk, kk := p * p, p * k, k * k;
    SquareOfDifference(y, c);
    SquareOfSum(p, k / 2.0);
    Halves(p);
    assert k * (p - pp) == k * p - k * pp by { Distribute(p, pp, k); }
    assert c * c == pp + pk + kk / 4.0;
    // y^2 - 2 y c + p^2 d = 0, divided by d
    assert y * y - 2.0 * (y * c) + pp + k * pp == 0.0;
    assert y * y == d * (x * y) && y * c == d * (x * c) && pp + k * pp == d * pp by { Factors(x, d, y, c, pp, k); }
    DividedBy(d, x * y, x * c, pp);
    assert x * y == x * x + k * (x * x) by { Expand(x, k); }
    assert x * c == p * x + k * x / 2.0 by { Distribute(p, k / 2.0, x); }
    SquareOfDifference(p, x);
    Halves(x);
    assert k * (x - x * x) == k * x - k * (x * x) by { Distribute(x, x * x, k); }
  }

  lemma SquareOfDifference(a: real, b: real)
    ensures (a - b) * (a - b) == a * a - 2.0 * (a * b) + b * b
  {
    Distribute(a, b, a - b);
    Distribute(a, b, a);
    Distribute(a, b, b);
  }

  lemma SquareOfSum(a: real, b: real)
    ensures (a + b) * (a + b) == a * a + 2.0 * (a * b) + b * b
  {
    Distribute(a, b, a + b);
    Distribute(a, b, a);
    Distribute(a, b, b);
  }

  lemma Factors(x: real, d: real, y: real, c: real, pp: real, k: real)
    requires y == x * d && d == 1.0 + k
    ensures y * y == d * (x * y) && y * c == d * (x * c) && pp + k * pp == d * pp
  {
    Reassociate(d, x, y);
    Reassociate(d, x, c);
    Distribute(1.0, k, pp);
  }

  lemma DividedBy(d: real, a: real, b: real, e: real)
    requires d > 0.0 && d * a - 2.0 * (d * b) + d * e == 0.0
    ensures a - 2.0 * b + e == 0.0
  {
    assert d * (a - 2.0 * b + e) == d * a - 2.0 * (d * b) + d * e by {
      Distribute(a, 2.0 * b, d);
      Distribute(a - 2.0 * b, e, d);
      Reassociate(2.0, b, d);
    }
    Cancel(a - 2.0 * b + e, 0.0, d);
  }

  lemma Expand(x: real, k: real)
    ensures x * (x * (1.0 + k)) == x * x + k * (x * x)
  {
    Distribute(1.0, k, x);
    Distribute(x, k * x, x);
    Reassociate(k, x, x);
  }

  /** A root lies between 0 and 1. */
  lemma {:induction false} RootIsShare(p: real, k: real, x: real)
    requires k > 0.0 && (p - x) * (p - x) == k * (x * (1.0 - x))
    ensures 0.0 <= x <= 1.0
  {
    assert (p - x) * (p - x) >= 0.0;
    if x < 0.0 {
      NegativeProduct(x, 1.0 - x, k);
    } else if x > 1.0 {
      NegativeProduct(1.0 - x, x, k);
    }
  }

  lemma NegativeProduct(a: real, b: real, k: real)
    requires a < 0.0 && b > 0.0 && k > 0.0
    ensures k * (a * b) < 0.0 && k * (b * a) < 0.0
  {
    assert a * b < 0.0;
  }

  /** x is as far from the rate p as 1.96 standard errors of a rate of x over n tries. */
  predicate IsLimit(p: real, n: real, x: real) {
    n * ((p - x) * (p - x)) == 1.96 * 1.96 * (x * (1.0 - x))
  }

  lemma {:induction false} LimitFromRoot(p: real, k: real, n: real, x: real)
    requires n > 0.0 && k * n == 1.96 * 1.96 && (p - x) * (p - x) == k * (x * (1.0 - x))
    ensures IsLimit(p, n, x)
  {
    var v := x * (1.0 - x);
    Reassociate(n, k, v);
  }

  /**
   The interval of a rate, where there is one, is Wilson's: its two different ends are the rates from which the
   observed one is exactly 1.96 standard errors away.
   */
  lemma {:induction false} WilsonIs(sqrt: real -> real, numerator: nat, denominator: nat, runs: nat)
    requires IsSqrt(sqrt) && numerator <= denominator
    ensures var w := Wilson(sqrt, numerator, denominator, runs);
      && (w.Some? <==> denominator > 0 && runs >= 3)
      && (w.Some? ==>
           var p, n := numerator as real / denominator as real, denominator as real;
           w.value.low < w.value.high && IsLimit(p, n, w.value.low) && IsLimit(p, n, w.value.high))
  {
    if denominator > 0 && runs >= 3 {
      var n := denominator as real;
      var p := numerator as real / n;
      ShareOfReals(numerator as real, n);
      var k, s := 1.96 * 1.96 / n, 1.96 * sqrt(Radicand(p, n));
      WilsonParts(sqrt, p, n, k, s);
      hide Radicand;
      Quotient(1.96 * 1.96, n);
      hide IsLimit;
      EndsAre(p, k, n, s);
    }
  }

  lemma {:induction false} EndsAre(p: real, k: real, n: real, s: real)
    requires n > 0.0 && k > 0.0 && k * n == 1.96 * 1.96 && s >= 0.0 && 0.0 <= p <= 1.0
    requires s * s == k * (p * (1.0 - p)) + k * k / 4.0
    ensures var centre, half := (p + k / 2.0) / (1.0 + k), s / (1.0 + k);
      && IsLimit(p, n, centre - half) && IsLimit(p, n, centre + half)
      && 0.0 <= centre - half < centre + half <= 1.0
  {
    hide IsLimit;
    var d := 1.0 + k;
    var centre, half := (p + k / 2.0) / d, s / d;
    Quotient(p + k / 2.0, d);
    RootsDiffer(p, k, s);
    Quotient(s, d);
    EndIs(p, k, n, s, centre, half);
    EndIs(p, k, n, -s, centre, -half);
  }

  lemma {:induction false} EndIs(p: real, k: real, n: real, s: real, centre: real, half: real)
    requires n > 0.0 && k > 0.0 && k * n == 1.96 * 1.96 && s * s == k * (p * (1.0 - p)) + k * k / 4.0
    requires centre * (1.0 + k) == p + k / 2.0 && half * (1.0 + k) == s
    ensures IsLimit(p, n, centre + half) && 0.0 <= centre + half <= 1.0
  {
    var x := centre + half;
    Distribute(centre, half, 1.0 + k);
    assert x * (1.0 + k) - (p + k / 2.0) == s;
    RootOfQuadratic(p, k, x, s);
    RootIsShare(p, k, x);
    LimitFromRoot(p, k, n, x);
  }

  lemma {:induction false} RootsDiffer(p: real, k: real, s: real)
    requires k > 0.0 && s >= 0.0 && 0.0 <= p <= 1.0 && s * s == k * (p * (1.0 - p)) + k * k / 4.0
    ensures s > 0.0
  {
    Halves(p);
    Nonnegative(k, p * (1.0 - p));
    StrictSquare(k, 0.0);
  }

  // ---------------------------------------------------------------------
  // Records
  // ---------------------------------------------------------------------

  /** The reasons to refuse a record, in the order in which they are looked for. */
  predicate Faulty(r: Record) {
    || PlanSelector.Blank(r.workloadId) || PlanSelector.Blank(r.tool) || PlanSelector.Blank(r.toolVersion)
    || r.outcome == None || r.mode == None || r.run == None || r.run.value < 1
    || (r.outcome != Some(NotTested) && r.outcome != Some(MissingEvidence) &&
        (|| r.repairAttempted == None || r.repairCorrect == None || r.wrongAction == None
         || r.objectivelyFailed == None || r.reportedPassed == None || r.expectedRefusal == None
         || r.operatorMinutes == None || r.operatorMinutes.value < 0.0 || r.costUsd == None || r.costUsd.value < 0.0
         || (r.repairCorrect.value && !r.repairAttempted.value) || (r.wrongAction.value && !r.repairAttempted.value)
         || (r.repairCorrect.value && r.wrongAction.value)
         || (r.outcome == Some(Refuse) && r.repairAttempted.value)
         || (r.reportedPassed.value && r.outcome != Some(Pass))))
  }

  lemma {:induction false} AcceptedIff(r: Record)
    ensures Accepted(r) <==> !Faulty(r)
  {
    hide PlanSelector.Blank;
  }

  predicate NulFree(s: string) {
    forall i :: 0 <= i < |s| ==> s[i] != '\0'
  }

  lemma {:induction false} SplitAtNul(a: string, x: string, b: string, y: string)
    requires NulFree(a) && NulFree(b) && a + "\0" + x == b + "\0" + y
    ensures a == b && x == y
  {
    var s := a + "\0" + x;
    assert s[|a|] == '\0' && s[|b|] == '\0';
    assert forall i :: 0 <= i < |a| ==> s[i] == a[i];
    assert forall i :: 0 <= i < |b| ==> s[i] == b[i];
    assert |a| == |b|;
    assert a == s[..|a|] == b;
    assert x == s[|a| + 1..] == y;
  }

  lemma IdentityParts(r: Record)
    requires r.run.Some? && r.run.value >= 1
    ensures Identity(r) == r.tool + "\0" + (r.toolVersion + "\0" +
      (r.workloadId + "\0" + (ModeText(r.mode) + "\0" + CheckpointText.Decimal(r.run.value))))
  {
    hide CheckpointText.Decimal, ModeText;
  }

  /** Accepted records without NUL characters are duplicates exactly if they agree in all five fields. */
  lemma {:induction false} DuplicateIff(a: Record, b: Record)
    requires Accepted(a) && Accepted(b)
    requires NulFree(a.tool) && NulFree(a.toolVersion) && NulFree(a.workloadId)
    requires NulFree(b.tool) && NulFree(b.toolVersion) && NulFree(b.workloadId)
    ensures Identity(a) == Identity(b) <==>
      a.tool == b.tool && a.toolVersion == b.toolVersion && a.workloadId == b.workloadId && a.mode == b.mode &&
      a.run == b.run
  {
    hide Scorable, Coherent, PlanSelector.Blank, NulFree, CheckpointText.Decimal;
    IdentityParts(a);
    IdentityParts(b);
    ModesDiffer(a.mode);
    ModesDiffer(b.mode);
    var da, db := CheckpointText.Decimal(a.run.value), CheckpointText.Decimal(b.run.value);
    var ma, mb := ModeText(a.mode), ModeText(b.mode);
    CheckpointText.DecimalRoundTrip(a.run.value);
    CheckpointText.DecimalRoundTrip(b.run.value);
    hide Identity, ModeText;
    if Identity(a) == Identity(b) {
      SplitAtNul(a.tool, a.toolVersion + "\0" + (a.workloadId + "\0" + (ma + "\0" + da)),
                 b.tool, b.toolVersion + "\0" + (b.workloadId + "\0" + (mb + "\0" + db)));
      SplitAtNul(a.toolVersion, a.workloadId + "\0" + (ma + "\0" + da),
                 b.toolVersion, b.workloadId + "\0" + (mb + "\0" + db));
      SplitAtNul(a.workloadId, ma + "\0" + da, b.workloadId, mb + "\0" + db);
      SplitAtNul(ma, da, mb, db);
    }
  }

  lemma ModesDiffer(mode: Option<Mode>)
    requires mode.Some?
    ensures NulFree(ModeText(mode)) && (ModeText(mode) == "automated" <==> mode == Some(Automated))
    ensures ModeText(mode) == "assisted" <==> mode == Some(Assisted)
  {
    assert |"automated"| == 9 && |"assisted"| == 8;
    match mode.value
    case Automated =>
    case Assisted =>
  }

  // ---------------------------------------------------------------------
  // The figures of a group
  // ---------------------------------------------------------------------

  /** The positions of the records with a property. */
  function Those(rows: seq<Record>, p: Record -> bool): set<nat> {
    set i: nat | i < |rows| && p(rows[i])
  }

  lemma {:induction false} CountIs(p: Record -> bool, q: Record -> bool, rows: seq<Record>)
    requires forall r :: p(r) <==> q(r)
    ensures Count(p, rows) == |Those(rows, q)|
  {
    if rows != [] {
      var n := |rows| - 1;
      CountIs(p, q, rows[..n]);
      assert Those(rows, q) == Those(rows[..n], q) + if q(rows[n]) then {n} else {};
    }
  }

  /** A sum over all records. */
  function Sum(rows: seq<Record>, f: Record -> real): real {
    if rows == [] then 0.0 else f(rows[0]) + Sum(rows[1..], f)
  }

  lemma {:induction false} SumStep(rows: seq<Record>, r: Record, f: Record -> real)
    ensures Sum(rows + [r], f) == Sum(rows, f) + f(r)
  {
    if rows == [] {
      assert [] + [r] == [r];
    } else {
      assert (rows + [r])[1..] == rows[1..] + [r];
      SumStep(rows[1..], r, f);
    }
  }

  lemma {:induction false} TotalIs(f: Record -> real, g: Record -> real, rows: seq<Record>)
    requires forall r :: f(r) == g(r)
    ensures Total(f, rows) == Sum(rows, g)
  {
    if rows != [] {
      var init, r := rows[..|rows| - 1], rows[|rows| - 1];
      assert rows == init + [r];
      TotalIs(f, g, init);
      SumStep(init, r, g);
    }
  }

  predicate HasOutcome(r: Record) {
    r.outcome != Some(NotTested) && r.outcome != Some(MissingEvidence)
  }

  predicate Tried(r: Record) { HasOutcome(r) && r.repairAttempted == Some(true) }
  predicate Broke(r: Record) { HasOutcome(r) && r.objectivelyFailed == Some(true) }
  predicate ShouldRefuse(r: Record) { HasOutcome(r) && r.expectedRefusal == Some(true) }
  predicate ShouldAct(r: Record) { HasOutcome(r) && r.expectedRefusal != Some(true) }
  predicate TriedRight(r: Record) { Tried(r) && r.repairCorrect == Some(true) }
  predicate TriedWrong(r: Record) { Tried(r) && r.wrongAction == Some(true) }
  predicate BrokeGreen(r: Record) { Broke(r) && r.reportedPassed == Some(true) }
  predicate Refused(r: Record) { ShouldRefuse(r) && r.outcome == Some(Refuse) }
  predicate Balked(r: Record) { ShouldAct(r) && r.outcome == Some(Refuse) }
  predicate WasTested(r: Record) { r.outcome != Some(NotTested) }
  predicate Held(r: Record) { r.outcome == Some(Pass) && r.objectivelyFailed != Some(true) }

  function MinutesOf(r: Record): real {
    if HasOutcome(r) && r.operatorMinutes.Some? then r.operatorMinutes.value else 0.0
  }

  function CostOf(r: Record): real {
    if HasOutcome(r) && r.costUsd.Some? then r.costUsd.value else 0.0
  }

  /** Attempts, failures and refusals: each rate is a count of records over a count of records. */
  lemma {:induction false} RepairRatesAre(sqrt: real -> real, rows: seq<Record>)
    requires ScoreGroup(sqrt, rows).Rated?
    ensures var g := ScoreGroup(sqrt, rows);
      && g.healingPrecision == Ratio(|Those(rows, TriedRight)|, |Those(rows, Tried)|)
      && g.unsafeActionRate == Ratio(|Those(rows, TriedWrong)|, |Those(rows, Tried)|)
      && g.falseGreenRate == Ratio(|Those(rows, BrokeGreen)|, |Those(rows, Broke)|)
  {
    CountIs(CorrectRepair, TriedRight, rows);
    CountIs(WrongRepair, TriedWrong, rows);
    CountIs(Attempt, Tried, rows);
    CountIs(FalseGreen, BrokeGreen, rows);
    CountIs(Failed, Broke, rows);
    hide Wilson, Count, Total, DistinctRuns;
  }

  lemma {:induction false} RefusalRatesAre(sqrt: real -> real, rows: seq<Record>)
    requires ScoreGroup(sqrt, rows).Rated?
    ensures var g := ScoreGroup(sqrt, rows);
      && g.correctRefusalRate ==
        Ratio(|Those(rows, Refused)|, |Those(rows, ShouldRefuse)|)
      && g.unnecessaryRefusalRate ==
        Ratio(|Those(rows, Balked)|, |Those(rows, ShouldAct)|)
  {
    CountIs(CorrectRefusal, Refused, rows);
    CountIs(MustRefuse, ShouldRefuse, rows);
    CountIs(NeedlessRefusal, Balked, rows);
    CountIs(MayAct, ShouldAct, rows);
    hide Wilson, Count, Total, DistinctRuns;
  }

  /** Everything else a group reports; it is rated exactly if some record was tested. */
  lemma {:induction false} GroupIs(sqrt: real -> real, rows: seq<Record>)
    ensures var g := ScoreGroup(sqrt, rows);
      var tested, scored := Those(rows, WasTested), Those(rows, HasOutcome);
      var passed := Those(rows, Held);
      && (g.Untested? <==> tested == {}) && g.records == |rows|
      && (g.Rated? ==>
           && g.scored == |scored| && g.notTested == |rows| - |tested| && g.missingEvidence == |tested| - |scored|
           && g.distinctRuns == |set i | i in scored :: rows[i].run|
           && g.evidenceCompleteness == Ratio(|scored|, |tested|) && g.passRate == Ratio(|passed|, |scored|)
           && g.interval == Wilson(sqrt, |passed|, |scored|, g.distinctRuns)
           && g.operatorMinutes == Sum(rows, MinutesOf)
           && g.costUsd == Sum(rows, CostOf))
  {
    CountIs(Tested, WasTested, rows);
    CountIs(Scored, HasOutcome, rows);
    CountIs(Passed, Held, rows);
    TotalIs(Minutes, MinutesOf, rows);
    TotalIs(Cost, CostOf, rows);
    RunsAre(rows);
    hide Wilson, Count, Total, DistinctRuns, Sum, Minutes, Cost;
  }

  lemma {:induction false} RunsAre(rows: seq<Record>)
    ensures DistinctRuns(rows) == set i | i in Those(rows, HasOutcome) :: rows[i].run
  {
    forall run | run in DistinctRuns(rows) ensures run in set i | i in Those(rows, HasOutcome) :: rows[i].run {
      var r :| r in rows && Scored(r) && r.run == run;
      var i: nat :| i < |rows| && rows[i] == r;
      assert i in Those(rows, HasOutcome);
    }
  }

  // ---------------------------------------------------------------------
  // The composite
  // ---------------------------------------------------------------------

  /** A rate as a number from worst to best; none where it is undefined. */
  function Goodness(g: Group, dimension: Dimension): Option<real>
    requires g.Rated?
  {
    match dimension
    case HealingPrecision => Share(g.healingPrecision, false)
    case UnsafeActionRate => Share(g.unsafeActionRate, true)
    case FalseGreenRate => Share(g.falseGreenRate, true)
    case CorrectRefusalRate => Share(g.correctRefusalRate, false)
    case UnnecessaryRefusalRate => Share(g.unnecessaryRefusalRate, true)
    case EvidenceCompleteness => Share(g.evidenceCompleteness, false)
    case PassRate => Share(g.passRate, false)
    case NotARate => None
  }

  function Share(q: Ratio, inverted: bool): Option<real> {
    if q.denominator == 0 then None
    else
      var value := q.numerator as real / q.denominator as real;
      Some(if inverted then 1.0 - value else value)
  }

  function SumUp(s: seq<real>): real {
    if s == [] then 0.0 else s[0] + SumUp(s[1..])
  }

  lemma {:induction false} SumUpStep(s: seq<real>, x: real)
    ensures SumUp(s + [x]) == SumUp(s) + x
  {
    if s == [] {
      assert [] + [x] == [x];
    } else {
      assert (s + [x])[1..] == s[1..] + [x];
      SumUpStep(s[1..], x);
    }
  }

  function WeightsOf(weights: seq<Weight>): seq<real> {
    seq(|weights|, i requires 0 <= i < |weights| => weights[i].weight)
  }

  /** Each weight times the goodness of its rate. */
  function Weighted(g: Group, weights: seq<Weight>): seq<real>
    requires g.Rated?
  {
    seq(|weights|, i requires 0 <= i < |weights| => Portion(g, weights[i]))
  }

  function Portion(g: Group, w: Weight): real
    requires g.Rated?
  {
    match Goodness(g, w.dimension)
    case None => 0.0
    case Some(x) => w.weight * x
  }

  lemma {:induction false} WeightTotalIs(weights: seq<Weight>)
    ensures WeightTotal(weights) == SumUp(WeightsOf(weights))
  {
    if weights != [] {
      var n := |weights| - 1;
      WeightTotalIs(weights[..n]);
      assert WeightsOf(weights) == WeightsOf(weights[..n]) + [weights[n].weight];
      SumUpStep(WeightsOf(weights[..n]), weights[n].weight);
    }
  }

  lemma TermIs(g: Group, w: Weight)
    requires g.Rated?
    ensures Term(g, w).Some? <==> Goodness(g, w.dimension).Some?
    ensures Term(g, w).Some? ==> Term(g, w).value == w.weight * Goodness(g, w.dimension).value
  {
  }

  lemma WeightedStep(g: Group, init: seq<Weight>, w: Weight)
    requires g.Rated? && Term(g, w).Some?
    ensures Weighted(g, init + [w]) == Weighted(g, init) + [Term(g, w).value]
  {
    TermIs(g, w);
    assert Term(g, w).value == Portion(g, w);
    hide Term, Portion;
    assert forall i :: 0 <= i < |init| ==> (init + [w])[i] == init[i];
  }

  lemma {:induction false} WeightedSumIs(g: Group, weights: seq<Weight>)
    requires g.Rated?
    ensures WeightedSum(g, weights).None? <==>
      exists i :: 0 <= i < |weights| && Goodness(g, weights[i].dimension) == None
    ensures WeightedSum(g, weights).Some? ==> WeightedSum(g, weights).value == SumUp(Weighted(g, weights))
  {
    hide Goodness, Term;
    if weights != [] {
      var n := |weights| - 1;
      var init, w := weights[..n], weights[n];
      assert weights == init + [w];
      WeightedSumIs(g, init);
      TermIs(g, w);
      if i :| 0 <= i < n && Goodness(g, init[i].dimension) == None {
        assert Goodness(g, weights[i].dimension) == None;
      }
      if Term(g, w).Some? {
        WeightedStep(g, init, w);
        SumUpStep(Weighted(g, init), Term(g, w).value);
      }
    }
  }

  /**
   The composite of a group: none without weights or scored records, refused for weights that are not positive or do
   not sum to 1, none if a weighted rate is undefined, and otherwise the weighted sum of the rates, those where less
   is better counted from 1 down.
   */
  lemma {:induction false} CompositeIs(g: Group, weights: seq<Weight>)
    ensures CompositeOf(g, None) == Absent
    ensures var total := SumUp(WeightsOf(weights));
      var bad := weights == [] || (exists i :: 0 <= i < |weights| && weights[i].weight <= 0.0) ||
                 total - 1.0 > 0.000000001 || 1.0 - total > 0.000000001;
      CompositeOf(g, Some(weights)) ==
        if g.Untested? then Absent
        else if bad then BadWeights
        else if exists i :: 0 <= i < |weights| && Goodness(g, weights[i].dimension) == None then Absent
        else Value(SumUp(Weighted(g, weights)))
  {
    WeightTotalIs(weights);
    if g.Rated? { WeightedSumIs(g, weights); }
    hide Goodness, WeightedSum, WeightTotal, SumUp, Weighted, WeightsOf;
  }

  // ---------------------------------------------------------------------
  // The list of entries
  // ---------------------------------------------------------------------

  /** A group's rows are its records, in order. */
  ghost predicate RowsAt(records: seq<Record>, key: Key, rows: seq<Record>, at: seq<nat>) {
    && Rising(at, |records|) && (forall i :: 0 <= i < |records| ==> (i in at <==> IsOf(records[i], key)))
    && |rows| == |at| && (forall n :: 0 <= n < |at| ==> rows[n] == records[at[n]])
  }

  predicate IsOf(r: Record, key: Key) {
    r.tool == key.tool && r.toolVersion == key.toolVersion && r.mode == key.mode
  }

  lemma {:induction false} RowsAre(records: seq<Record>, key: Key) returns (at: seq<nat>)
    ensures RowsAt(records, key, RowsOf(records, key), at)
  {
    at := [];
    if records != [] {
      var init, r := records[..|records| - 1], records[|records| - 1];
      assert records == init + [r];
      at := RowsAre(init, key);
      OneMoreRow(init, r, key, RowsOf(init, key), at);
      assert RowsOf(init, key) + [] == RowsOf(init, key);
      assert KeyOf(r) == key <==> IsOf(r, key);
      hide IsOf, RowsAt, KeyOf;
      if IsOf(r, key) { at := at + [|init|]; }
    }
  }

  lemma {:induction false} OneMoreRow(init: seq<Record>, r: Record, key: Key, rows: seq<Record>, at: seq<nat>)
    requires RowsAt(init, key, rows, at)
    ensures if IsOf(r, key) then RowsAt(init + [r], key, rows + [r], at + [|init|])
            else RowsAt(init + [r], key, rows, at)
  {
    hide IsOf;
    var more := at + [|init|];
    forall i: nat | i < |init| ensures i in more <==> i in at { }
    assert more[|at|] == |init|;
    assert |init| !in at;
  }

  ghost predicate HasKey(records: seq<Record>, key: Key) {
    exists i :: 0 <= i < |records| && IsOf(records[i], key)
  }

  /** What the entries are sorted by. */
  function TextOf(key: Key): string {
    key.tool + "@" + key.toolVersion + "/" + if key.mode == Some(Automated) then "automated" else "assisted"
  }

  /** The weights are refused as soon as some group is scored. */
  ghost predicate WeightsRefused(env: Env, records: seq<Record>, weights: Option<seq<Weight>>) {
    exists key :: HasKey(records, key) && EntryOf(env, records, weights, key).composite == BadWeights
  }

  lemma {:induction false} HasKeyIff(records: seq<Record>, key: Key)
    ensures key in Keys(records) <==> HasKey(records, key)
  {
    KeysAre(records);
    if key in Keys(records) {
      var r :| r in records && KeyOf(r) == key;
      var i :| 0 <= i < |records| && records[i] == r;
      assert IsOf(records[i], key);
    }
    if HasKey(records, key) {
      var i :| 0 <= i < |records| && IsOf(records[i], key);
      assert records[i] in records && KeyOf(records[i]) == key;
    }
  }

  /**
   The score: refused for a faulty record, a duplicate, or refused weights; otherwise one entry per tool, version and
   mode, with the figures of exactly its records, in the order of their labels.
   */
  lemma {:induction false} ScoreIs(env: Env, records: seq<Record>, weights: Option<seq<Weight>>)
    requires IsOrder(env.atMost)
    ensures var result := ScoreOf(env, records, weights);
      && (result.Invalid? <==>
           (exists i :: 0 <= i < |records| && Faulty(records[i])) ||
           (exists i, j :: 0 <= i < j < |records| && Identity(records[i]) == Identity(records[j])) ||
           WeightsRefused(env, records, weights))
      && (result.Scores? ==>
           && (forall e :: e in result.entries <==>
                HasKey(records, e.key) && e == EntryOf(env, records, weights, e.key))
           && (forall i, j :: 0 <= i < j < |result.entries| ==>
                result.entries[i].key != result.entries[j].key &&
                env.atMost(TextOf(result.entries[i].key), TextOf(result.entries[j].key))))
  {
    AdmissibleIff(records);
    assert forall key: Key :: Label(key) == TextOf(key);
    var keys := Keys(records);
    var entries := Entries(env, records, weights, keys);
    WeightsFailIff(env, records, weights);
    if ScoreOf(env, records, weights).Scores? {
      assert ScoreOf(env, records, weights).entries == Sort(env, entries);
      hide Faulty, Accepted, Identity, HasKey, EntryOf, Entries, Keys, ScoreOf, Sort, Admissible, WeightsRefused;
      SortedEntries(env, records, weights);
    }
    hide Faulty, Accepted, Identity, HasKey, EntryOf, Entries, Keys, Sort, Admissible, WeightsRefused;
  }

  lemma AdmissibleIff(records: seq<Record>)
    ensures Admissible(records) <==>
      !(exists i :: 0 <= i < |records| && Faulty(records[i])) &&
      !(exists i, j :: 0 <= i < j < |records| && Identity(records[i]) == Identity(records[j]))
  {
    forall r: Record ensures Accepted(r) <==> !Faulty(r) { AcceptedIff(r); }
    hide Faulty, Accepted, Identity;
  }

  lemma {:induction false} WeightsFailIff(env: Env, records: seq<Record>, weights: Option<seq<Weight>>)
    ensures WeightsFail(Entries(env, records, weights, Keys(records))) <==> WeightsRefused(env, records, weights)
  {
    var entries := Entries(env, records, weights, Keys(records));
    hide Keys, Entries, EntryOf, HasKey;
    forall e ensures e in entries <==> HasKey(records, e.key) && e == EntryOf(env, records, weights, e.key) {
      EntriesCover(env, records, weights, Keys(records), e);
      HasKeyIff(records, e.key);
    }
    if key :| HasKey(records, key) && EntryOf(env, records, weights, key).composite == BadWeights {
      KeyOfEntry(env, records, weights, key);
      assert EntryOf(env, records, weights, key) in entries;
    }
  }

  lemma {:induction false} SortedEntries(env: Env, records: seq<Record>, weights: Option<seq<Weight>>)
    requires IsOrder(env.atMost)
    ensures var sorted := Sort(env, Entries(env, records, weights, Keys(records)));
      && (forall e :: e in sorted <==> HasKey(records, e.key) && e == EntryOf(env, records, weights, e.key))
      && (forall i, j :: 0 <= i < j < |sorted| ==>
           sorted[i].key != sorted[j].key && env.atMost(Label(sorted[i].key), Label(sorted[j].key)))
  {
    var entries := Entries(env, records, weights, Keys(records));
    var sorted := Sort(env, entries);
    hide Keys, Entries, EntryOf, HasKey, Sort, IsOrder, Label;
    KeysAre(records);
    EntriesAreDistinct(env, records, weights, Keys(records));
    SortIs(env, entries);
    forall e ensures e in sorted <==> HasKey(records, e.key) && e == EntryOf(env, records, weights, e.key) {
      EntriesCover(env, records, weights, Keys(records), e);
      HasKeyIff(records, e.key);
    }
    forall i, j | 0 <= i < j < |sorted| ensures sorted[i].key != sorted[j].key {
      assert sorted[i] in sorted && sorted[j] in sorted;
    }
  }
}
