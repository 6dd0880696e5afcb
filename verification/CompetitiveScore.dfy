/**
 The neutral benchmark scorer: validation of run records, rates per tool,
 the Wilson interval, the weighted composite, and the order of the result.
 Numbers are exact reals; sqrt and localeCompare are inputs.
 */
module CompetitiveScore {
  import opened Options
  import CheckpointText
  import PlanSelector

  datatype Outcome = Pass | Fail | Refuse | Partial | Timeout | NotTested | MissingEvidence

  datatype Mode = Automated | Assisted

  /** A run record; None stands for a value of the wrong type. */
  datatype Record = Record(
    workloadId: string, tool: string, toolVersion: string,
    outcome: Option<Outcome>, mode: Option<Mode>, run: Option<int>,
    repairAttempted: Option<bool>, repairCorrect: Option<bool>, wrongAction: Option<bool>,
    objectivelyFailed: Option<bool>, reportedPassed: Option<bool>, expectedRefusal: Option<bool>,
    operatorMinutes: Option<real>, costUsd: Option<real>)

  const MIN_RUNS_FOR_INTERVAL := 3

  // ---------------------------------------------------------------------
  // Validation
  // ---------------------------------------------------------------------

  predicate Yes(flag: Option<bool>) {
    flag == Some(true)
  }

  predicate WellTyped(r: Record) {
    !PlanSelector.Blank(r.workloadId) && !PlanSelector.Blank(r.tool) && !PlanSelector.Blank(r.toolVersion) &&
    r.outcome.Some? && r.mode.Some? && r.run.Some? && r.run.value >= 1
  }

  predicate Scorable(r: Record) {
    r.repairAttempted.Some? && r.repairCorrect.Some? && r.wrongAction.Some? &&
    r.objectivelyFailed.Some? && r.reportedPassed.Some? && r.expectedRefusal.Some? &&
    r.operatorMinutes.Some? && r.operatorMinutes.value >= 0.0 && r.costUsd.Some? && r.costUsd.value >= 0.0
  }

  predicate Coherent(r: Record) {
    !(Yes(r.repairCorrect) && !Yes(r.repairAttempted)) &&
    !(Yes(r.wrongAction) && !Yes(r.repairAttempted)) &&
    !(Yes(r.repairCorrect) && Yes(r.wrongAction)) &&
    !(r.outcome == Some(Refuse) && Yes(r.repairAttempted)) &&
    !(Yes(r.reportedPassed) && r.outcome != Some(Pass))
  }

  /** Validation lets the record pass. Untested records need no flags. */
  predicate Accepted(r: Record) {
    WellTyped(r) && (r.outcome.value == NotTested || r.outcome.value == MissingEvidence || (Scorable(r) && Coherent(r)))
  }

  // ---------------------------------------------------------------------
  // Rates of one group
  // ---------------------------------------------------------------------

  predicate Tested(r: Record) { r.outcome != Some(NotTested) }
  predicate Scored(r: Record) { Tested(r) && r.outcome != Some(MissingEvidence) }
  predicate Attempt(r: Record) { Scored(r) && Yes(r.repairAttempted) }
  predicate CorrectRepair(r: Record) { Attempt(r) && Yes(r.repairCorrect) }
  predicate WrongRepair(r: Record) { Attempt(r) && Yes(r.wrongAction) }
  predicate Failed(r: Record) { Scored(r) && Yes(r.objectivelyFailed) }
  predicate FalseGreen(r: Record) { Failed(r) && Yes(r.reportedPassed) }
  predicate MustRefuse(r: Record) { Scored(r) && Yes(r.expectedRefusal) }
  predicate CorrectRefusal(r: Record) { MustRefuse(r) && r.outcome == Some(Refuse) }
  predicate MayAct(r: Record) { Scored(r) && !Yes(r.expectedRefusal) }
  predicate NeedlessRefusal(r: Record) { MayAct(r) && r.outcome == Some(Refuse) }
  predicate Passed(r: Record) { Scored(r) && r.outcome == Some(Pass) && !Yes(r.objectivelyFailed) }

  function Count(p: Record -> bool, rows: seq<Record>): (n: nat)
    ensures n <= |rows|
  {
    if rows == [] then 0 else Count(p, rows[..|rows| - 1]) + if p(rows[|rows| - 1]) then 1 else 0
  }

  lemma {:induction false} CountIsMonotone(p: Record -> bool, q: Record -> bool, rows: seq<Record>)
    requires forall r :: r in rows && p(r) ==> q(r)
    ensures Count(p, rows) <= Count(q, rows)
  {
    if rows != [] { CountIsMonotone(p, q, rows[..|rows| - 1]); }
  }

  function Total(f: Record -> real, rows: seq<Record>): real {
    if rows == [] then 0.0 else Total(f, rows[..|rows| - 1]) + f(rows[|rows| - 1])
  }

  function Minutes(r: Record): real {
    if Scored(r) && r.operatorMinutes.Some? then r.operatorMinutes.value else 0.0
  }

  function Cost(r: Record): real {
    if Scored(r) && r.costUsd.Some? then r.costUsd.value else 0.0
  }

  function DistinctRuns(rows: seq<Record>): set<Option<int>> {
    set r | r in rows && Scored(r) :: r.run
  }

  datatype Ratio = Ratio(numerator: nat, denominator: nat) {
    function Value(): Option<real> {
      if denominator == 0 then None else Some(numerator as real / denominator as real)
    }
  }

  datatype Interval = Interval(low: real, high: real)

  datatype Group =
    | Untested(records: nat)
    | Rated(records: nat, scored: nat, notTested: nat, missingEvidence: nat, distinctRuns: nat,
            healingPrecision: Ratio, unsafeActionRate: Ratio, falseGreenRate: Ratio, correctRefusalRate: Ratio,
            unnecessaryRefusalRate: Ratio, evidenceCompleteness: Ratio, passRate: Ratio, interval: Option<Interval>,
            operatorMinutes: real, costUsd: real)

  /** The square root on the reals, known by its square. */
  ghost predicate IsSqrt(sqrt: real -> real) {
    forall x :: x >= 0.0 ==> sqrt(x) >= 0.0 && sqrt(x) * sqrt(x) == x
  }

  function Radicand(p: real, n: real): real
    requires n > 0.0
  {
    p * (1.0 - p) / n + 1.96 * 1.96 / (4.0 * n * n)
  }

  function Wilson(sqrt: real -> real, numerator: nat, denominator: nat, runs: nat): Option<Interval> {
    if denominator == 0 || runs < MIN_RUNS_FOR_INTERVAL then None
    else
      var z, n := 1.96, denominator as real;
      var p := numerator as real / n;
      var d := 1.0 + z * z / n;
      var centre := (p + z * z / (2.0 * n)) / d;
      var half := z * sqrt(Radicand(p, n)) / d;
      Some(Interval(if centre - half > 0.0 then centre - half else 0.0,
                    if centre + half < 1.0 then centre + half else 1.0))
  }

  function ScoreGroup(sqrt: real -> real, rows: seq<Record>): Group {
    CountIsMonotone(Scored, Tested, rows);
    var tested, scored := Count(Tested, rows), Count(Scored, rows);
    if tested == 0 then Untested(|rows|)
    else
      Rated(|rows|, scored, |rows| - tested, tested - scored, |DistinctRuns(rows)|,
            Ratio(Count(CorrectRepair, rows), Count(Attempt, rows)),
            Ratio(Count(WrongRepair, rows), Count(Attempt, rows)),
            Ratio(Count(FalseGreen, rows), Count(Failed, rows)),
            Ratio(Count(CorrectRefusal, rows), Count(MustRefuse, rows)),
            Ratio(Count(NeedlessRefusal, rows), Count(MayAct, rows)),
            Ratio(scored, tested), Ratio(Count(Passed, rows), scored),
            Wilson(sqrt, Count(Passed, rows), scored, |DistinctRuns(rows)|),
            Total(Minutes, rows), Total(Cost, rows))
  }

  predicate IsRate(q: Ratio) {
    q.numerator <= q.denominator
  }

  predicate AllShares(g: Group) {
    g.Rated? && IsRate(g.healingPrecision) && IsRate(g.unsafeActionRate) && IsRate(g.falseGreenRate) &&
    IsRate(g.correctRefusalRate) && IsRate(g.unnecessaryRefusalRate) && IsRate(g.evidenceCompleteness) &&
    IsRate(g.passRate)
  }

  /** Every rate of every group is a share: between 0 and 1 where it is defined. */
  lemma {:induction false} RatesAreShares(sqrt: real -> real, rows: seq<Record>)
    requires ScoreGroup(sqrt, rows).Rated?
    ensures AllShares(ScoreGroup(sqrt, rows))
  {
    CountIsMonotone(CorrectRepair, Attempt, rows);
    CountIsMonotone(WrongRepair, Attempt, rows);
    CountIsMonotone(FalseGreen, Failed, rows);
    CountIsMonotone(CorrectRefusal, MustRefuse, rows);
    CountIsMonotone(NeedlessRefusal, MayAct, rows);
    CountIsMonotone(Scored, Tested, rows);
    CountIsMonotone(Passed, Scored, rows);
  }

  lemma {:induction false} ShareIsBetween(q: Ratio)
    requires IsRate(q) && q.Value().Some?
    ensures 0.0 <= q.Value().value <= 1.0
  {
    ShareOfReals(q.numerator as real, q.denominator as real);
  }

  lemma {:induction false} ShareOfReals(a: real, n: real)
    requires 0.0 <= a <= n && n > 0.0
    ensures 0.0 <= a / n <= 1.0
  {
    assert a / n * n == a;
  }

  /** Two kinds of records that exclude each other and imply a third are together at most as many. */
  lemma {:induction false} DisjointCounts(p: Record -> bool, q: Record -> bool, all: Record -> bool, rows: seq<Record>)
    requires forall r :: r in rows ==> (p(r) || q(r) ==> all(r)) && !(p(r) && q(r))
    ensures Count(p, rows) + Count(q, rows) <= Count(all, rows)
  {
    if rows != [] { DisjointCounts(p, q, all, rows[..|rows| - 1]); }
  }

  /**
   Valid records are coherent: no attempt is both correct and wrong, a refusal
   attempts nothing, and a false green is never counted as a pass.
   */
  lemma {:induction false} ValidRatesAreCoherent(rows: seq<Record>)
    requires forall r :: r in rows ==> Accepted(r)
    ensures Count(CorrectRepair, rows) + Count(WrongRepair, rows) <= Count(Attempt, rows)
    ensures Count(CorrectRefusal, rows) + Count(Attempt, rows) <= Count(Scored, rows)
    ensures Count(Passed, rows) + Count(FalseGreen, rows) <= Count(Scored, rows)
  {
    DisjointCounts(CorrectRepair, WrongRepair, Attempt, rows);
    DisjointCounts(CorrectRefusal, Attempt, Scored, rows);
    DisjointCounts(Passed, FalseGreen, Scored, rows);
  }

  lemma {:induction false} CountIsZeroIff(p: Record -> bool, rows: seq<Record>)
    ensures Count(p, rows) == 0 <==> forall r :: r in rows ==> !p(r)
  {
    if rows != [] {
      assert rows == rows[..|rows| - 1] + [rows[|rows| - 1]];
      CountIsZeroIff(p, rows[..|rows| - 1]);
    }
  }

  lemma {:induction false} CountIsFullIff(p: Record -> bool, q: Record -> bool, rows: seq<Record>)
    requires forall r :: r in rows && p(r) ==> q(r)
    ensures Count(p, rows) == Count(q, rows) <==> forall r :: r in rows && q(r) ==> p(r)
  {
    if rows != [] {
      var init := rows[..|rows| - 1];
      assert rows == init + [rows[|rows| - 1]];
      CountIsFullIff(p, q, init);
      CountIsMonotone(p, q, init);
    }
  }

  /** What the worst and the best value of a rate mean: no record of its kind, or every one. */
  ghost predicate Extremes(q: Ratio, p: Record -> bool, all: Record -> bool, rows: seq<Record>) {
    (q.numerator == 0 <==> forall r :: r in rows ==> !p(r)) &&
    (q.numerator == q.denominator <==> forall r :: r in rows && all(r) ==> p(r)) &&
    (q.denominator == 0 <==> forall r :: r in rows ==> !all(r))
  }

  lemma {:induction false} RatioExtremes(p: Record -> bool, all: Record -> bool, rows: seq<Record>)
    requires forall r :: r in rows && p(r) ==> all(r)
    ensures Extremes(Ratio(Count(p, rows), Count(all, rows)), p, all, rows)
  {
    CountIsZeroIff(p, rows);
    CountIsZeroIff(all, rows);
    CountIsFullIff(p, all, rows);
  }

  /** Each rate is about its own kind of records: precision about attempts, refusal rates about refusals, and so on. */
  lemma {:induction false} RatesMean(sqrt: real -> real, rows: seq<Record>)
    requires ScoreGroup(sqrt, rows).Rated?
    ensures var g := ScoreGroup(sqrt, rows);
      Extremes(g.healingPrecision, CorrectRepair, Attempt, rows) &&
      Extremes(g.unsafeActionRate, WrongRepair, Attempt, rows) &&
      Extremes(g.falseGreenRate, FalseGreen, Failed, rows) &&
      Extremes(g.correctRefusalRate, CorrectRefusal, MustRefuse, rows) &&
      Extremes(g.unnecessaryRefusalRate, NeedlessRefusal, MayAct, rows) &&
      Extremes(g.evidenceCompleteness, Scored, Tested, rows) && Extremes(g.passRate, Passed, Scored, rows)
  {
    KindsNest();
    hide Extremes, Wilson, Count, Total, DistinctRuns;
    hide CorrectRepair, WrongRepair, Attempt, FalseGreen, Failed, CorrectRefusal, MustRefuse;
    hide NeedlessRefusal, MayAct, Scored, Tested, Passed;
    RatioExtremes(CorrectRepair, Attempt, rows);
    RatioExtremes(WrongRepair, Attempt, rows);
    RatioExtremes(FalseGreen, Failed, rows);
    RatioExtremes(CorrectRefusal, MustRefuse, rows);
    RatioExtremes(NeedlessRefusal, MayAct, rows);
    RatioExtremes(Scored, Tested, rows);
    RatioExtremes(Passed, Scored, rows);
  }

  lemma KindsNest()
    ensures forall r :: (CorrectRepair(r) || WrongRepair(r) ==> Attempt(r)) && (FalseGreen(r) ==> Failed(r))
    ensures forall r :: (CorrectRefusal(r) ==> MustRefuse(r)) && (NeedlessRefusal(r) ==> MayAct(r))
    ensures forall r :: (Scored(r) ==> Tested(r)) && (Passed(r) ==> Scored(r))
  {
  }

  // ---------------------------------------------------------------------
  // The Wilson interval
  // ---------------------------------------------------------------------

  lemma Distribute(a: real, b: real, c: real)
    ensures (a + b) * c == a * c + b * c && (a - b) * c == a * c - b * c && c * (a - b) == c * a - c * b
  {
  }

  lemma SquareOfProduct(k: real, x: real)
    ensures (k * x) * (k * x) == (k * k) * (x * x)
  {
    assert (k * x) * (k * x) == k * (x * (k * x));
    assert x * (k * x) == k * (x * x);
  }

  lemma Reassociate(a: real, b: real, c: real)
    ensures a * b * c == a * (b * c)
  {
  }

  lemma Cancel(x: real, y: real, n: real)
    requires n != 0.0 && x * n == y * n
    ensures x == y
  {
    Distribute(x, y, n);
  }

  lemma Quotient(q: real, n: real)
    requires n > 0.0
    ensures q / n * n == q && (q > 0.0 ==> q / n > 0.0)
  {
  }

  lemma ScaledOrder(a: real, b: real, d: real)
    requires d > 0.0 && a * d <= b * d
    ensures a <= b
  {
    Distribute(a, b, d);
  }

  lemma StrictSquare(a: real, b: real)
    requires a > b >= 0.0
    ensures a * a > b * b
  {
    Distribute(a, b, a);
    Distribute(a, b, b);
    assert (a - b) * a > 0.0 && (a - b) * b >= 0.0;
  }

  lemma {:induction false} SquareOrder(a: real, b: real)
    requires b >= 0.0 && a * a <= b * b
    ensures -b <= a <= b
  {
    if a > b { StrictSquare(a, b); }
    if -a > b {
      StrictSquare(-a, b);
    }
  }

  /** p(1-p) and the square of the distance to one half. */
  lemma Halves(p: real)
    ensures p * (1.0 - p) == p - p * p && (0.5 - p) * (0.5 - p) == 0.25 - p * (1.0 - p)
    ensures 0.0 <= p <= 1.0 ==> p * (1.0 - p) >= 0.0
  {
    Distribute(1.0, p, p);
    assert (0.5 - p) * (0.5 - p) == 0.25 - p + p * p;
    if 0.0 <= p <= 1.0 { Nonnegative(p, 1.0 - p); }
  }

  lemma Nonnegative(a: real, b: real)
    requires a >= 0.0 && b >= 0.0
    ensures a * b >= 0.0
  {
  }

  /** The heart of it: with k = z^2/n and s^2 = k p(1-p) + k^2/4, the shift k(1/2 - p) of the centre is within s. */
  lemma {:induction false} ShiftIsWithin(p: real, k: real, q: real, s: real)
    requires 0.0 <= p <= 1.0 && k >= 0.0 && s >= 0.0 && q == p * (1.0 - p) && s * s == k * q + k * k / 4.0
    ensures -s <= k * (0.5 - p) <= s
  {
    var x, kk := 0.5 - p, k * k;
    Halves(p);
    SquareOfProduct(k, x);
    assert kk * (0.25 - q) == kk * 0.25 - kk * q by { Distribute(0.25, q, kk); }
    assert kk >= 0.0 && kk * q >= 0.0 && k * q >= 0.0;
    SquareOrder(k * x, s);
  }

  /** The radicand times z^2, in terms of k = z^2/n. */
  lemma {:induction false} RadicandScaled(p: real, n: real, k: real, q: real)
    requires n > 0.0 && q == p * (1.0 - p) && k == 1.96 * 1.96 / n
    ensures 1.96 * 1.96 * Radicand(p, n) == k * q + k * k / 4.0
  {
    var z2, w := 1.96 * 1.96, 4.0 * n * n;
    Quotient(z2, n);
    StrictSquare(n, 0.0);
    Reassociate(4.0, n, n);
    FirstTerm(z2, q, n, k);
    SecondTerm(z2, n, k, w);
    Distribute(q / n, z2 / w, z2);
  }

  lemma FirstTerm(z2: real, q: real, n: real, k: real)
    requires n > 0.0 && k * n == z2
    ensures z2 * (q / n) == k * q
  {
    Quotient(q, n);
    assert z2 * (q / n) == k * (n * (q / n));
  }

  lemma SecondTerm(z2: real, n: real, k: real, w: real)
    requires n > 0.0 && k * n == z2 && w == 4.0 * n * n && w > 0.0
    ensures z2 * (z2 / w) == k * k / 4.0
  {
    var nn, kk := n * n, k * k;
    assert w == 4.0 * nn;
    SquareOfProduct(k, n);
    Quotient(z2, w);
    assert z2 * (z2 / w) * w == z2 * (z2 / w * w) by { Reassociate(z2, z2 / w, w); }
    assert (kk / 4.0) * w == kk * nn;
    Cancel(z2 * (z2 / w), kk / 4.0, w);
  }

  /** The scaled parts of the interval: k is z^2/n, s is d times the half-width. */
  lemma {:induction false} WilsonParts(sqrt: real -> real, p: real, n: real, k: real, s: real)
    requires IsSqrt(sqrt) && 0.0 <= p <= 1.0 && n > 0.0 && k == 1.96 * 1.96 / n && s == 1.96 * sqrt(Radicand(p, n))
    ensures k > 0.0 && s >= 0.0 && -s <= k * (0.5 - p) <= s
    ensures s * s == k * (p * (1.0 - p)) + k * k / 4.0
    ensures 1.96 * 1.96 / (2.0 * n) == k / 2.0
  {
    var q, radicand := p * (1.0 - p), Radicand(p, n);
    Quotient(1.96 * 1.96, n);
    Halves(p);
    RadicandScaled(p, n, k, q);
    assert k * q >= 0.0 && k * k >= 0.0;
    assert radicand >= 0.0;
    var root := sqrt(radicand);
    assert root >= 0.0 && root * root == radicand;
    SquareOfProduct(1.96, root);
    hide Radicand;
    ShiftIsWithin(p, k, q, s);
    Quotient(1.96 * 1.96, 2.0 * n);
    Cancel(1.96 * 1.96 / (2.0 * n), k / 2.0, 2.0 * n);
  }

  lemma {:induction false} ScaledBounds(p: real, centre: real, half: real, d: real)
    requires d > 0.0 && centre * d - half * d <= p * d <= centre * d + half * d
    ensures centre - half <= p <= centre + half
  {
    Distribute(centre, half, d);
    ScaledOrder(centre - half, p, d);
    ScaledOrder(p, centre + half, d);
  }

  lemma Combine(p: real, k: real, s: real, kp: real, cd: real, hd: real, pd: real)
    requires -s <= k * 0.5 - kp <= s && cd == p + k / 2.0 && hd == s && pd == p + kp
    ensures cd - hd <= pd <= cd + hd
  {
  }

  lemma {:induction false} BoundsFromProducts(p: real, k: real, s: real, d: real, centre: real, half: real)
    requires k > 0.0 && -s <= k * (0.5 - p) <= s && d == 1.0 + k
    requires centre * d == p + k / 2.0 && half * d == s
    ensures centre - half <= p <= centre + half
  {
    var kp := k * p;
    assert k * (0.5 - p) == k * 0.5 - kp by { Distribute(0.5, p, k); }
    assert p * d == p + kp by { Distribute(1.0, k, p); }
    Combine(p, k, s, kp, centre * d, half * d, p * d);
    ScaledBounds(p, centre, half, d);
  }

  lemma {:induction false} BoundsAroundRate(p: real, k: real, s: real)
    requires k > 0.0 && -s <= k * (0.5 - p) <= s
    ensures (p + k / 2.0) / (1.0 + k) - s / (1.0 + k) <= p <= (p + k / 2.0) / (1.0 + k) + s / (1.0 + k)
  {
    var d := 1.0 + k;
    Quotient(p + k / 2.0, d);
    Quotient(s, d);
    BoundsFromProducts(p, k, s, d, (p + k / 2.0) / d, s / d);
  }

  /** The interval is inside [0, 1] and holds the observed rate. */
  lemma {:induction false} WilsonHoldsRate(sqrt: real -> real, numerator: nat, denominator: nat, runs: nat)
    requires IsSqrt(sqrt) && numerator <= denominator && Wilson(sqrt, numerator, denominator, runs).Some?
    ensures var i := Wilson(sqrt, numerator, denominator, runs).value;
      0.0 <= i.low <= numerator as real / denominator as real <= i.high <= 1.0
  {
    var n := denominator as real;
    var p := numerator as real / n;
    ShareOfReals(numerator as real, n);
    var k := 1.96 * 1.96 / n;
    var s := 1.96 * sqrt(Radicand(p, n));
    WilsonParts(sqrt, p, n, k, s);
    hide Radicand;
    BoundsAroundRate(p, k, s);
  }

  /** A group that always passed has an interval from n/(n + z^2) to exactly 1. */
  lemma {:induction false} WilsonOfAllPassed(sqrt: real -> real, n: nat, runs: nat)
    requires IsSqrt(sqrt) && n > 0 && runs >= MIN_RUNS_FOR_INTERVAL
    ensures Wilson(sqrt, n, n, runs) == Some(Interval(1.0 / (1.0 + 1.96 * 1.96 / n as real), 1.0))
  {
    var m := n as real;
    var k, s := 1.96 * 1.96 / m, 1.96 * sqrt(Radicand(m / m, m));
    assert m / m == 1.0;
    WilsonParts(sqrt, 1.0, m, k, s);
    hide Radicand;
    assert s * s == (k / 2.0) * (k / 2.0);
    SquareOrder(s, k / 2.0);
    SquareOrder(k / 2.0, s);
    var d := 1.0 + k;
    var a, b := (1.0 + k / 2.0) / d, (k / 2.0) / d;
    Quotient(1.0 + k / 2.0, d);
    Quotient(k / 2.0, d);
    Quotient(1.0, d);
    Distribute(a, b, d);
    Cancel(a - b, 1.0 / d, d);
    Cancel(a + b, 1.0, d);
  }

  // ---------------------------------------------------------------------
  // The composite
  // ---------------------------------------------------------------------

  datatype Dimension =
    | HealingPrecision | UnsafeActionRate | FalseGreenRate | CorrectRefusalRate
    | UnnecessaryRefusalRate | EvidenceCompleteness | PassRate | NotARate

  datatype Weight = Weight(dimension: Dimension, weight: real)

  datatype Composite = Absent | BadWeights | Value(value: real)

  function DimensionOf(g: Group, dimension: Dimension): Option<real>
    requires g.Rated?
  {
    match dimension
    case HealingPrecision => g.healingPrecision.Value()
    case UnsafeActionRate => g.unsafeActionRate.Value()
    case FalseGreenRate => g.falseGreenRate.Value()
    case CorrectRefusalRate => g.correctRefusalRate.Value()
    case UnnecessaryRefusalRate => g.unnecessaryRefusalRate.Value()
    case EvidenceCompleteness => g.evidenceCompleteness.Value()
    case PassRate => g.passRate.Value()
    case NotARate => None
  }

  predicate LowerIsBetter(dimension: Dimension) {
    dimension == UnsafeActionRate || dimension == FalseGreenRate || dimension == UnnecessaryRefusalRate
  }

  function Oriented(dimension: Dimension, value: real): real {
    if LowerIsBetter(dimension) then 1.0 - value else value
  }

  function WeightTotal(weights: seq<Weight>): real {
    if weights == [] then 0.0 else WeightTotal(weights[..|weights| - 1]) + weights[|weights| - 1].weight
  }

  predicate AllPositive(weights: seq<Weight>) {
    forall i :: 0 <= i < |weights| ==> weights[i].weight > 0.0
  }

  /** Positive weights that sum to 1 within the tolerance. */
  predicate GoodWeights(weights: seq<Weight>) {
    weights != [] && AllPositive(weights) && -0.000000001 <= WeightTotal(weights) - 1.0 <= 0.000000001
  }

  /** What one weighted dimension adds, if it is available. */
  function Term(g: Group, w: Weight): Option<real>
    requires g.Rated?
  {
    match DimensionOf(g, w.dimension)
    case None => None
    case Some(value) => Some(w.weight * Oriented(w.dimension, value))
  }

  /** None as soon as one weighted dimension is not available. */
  function WeightedSum(g: Group, weights: seq<Weight>): Option<real>
    requires g.Rated?
  {
    if weights == [] then Some(0.0)
    else
      var w := weights[|weights| - 1];
      match WeightedSum(g, weights[..|weights| - 1])
      case None => None
      case Some(sum) =>
        match Term(g, w)
        case None => None
        case Some(term) => Some(sum + term)
  }

  function CompositeOf(g: Group, weights: Option<seq<Weight>>): Composite {
    if g.Untested? || weights.None? then Absent
    else if !GoodWeights(weights.value) then BadWeights
    else match WeightedSum(g, weights.value) case None => Absent case Some(sum) => Value(sum)
  }

  method ComputeComposite(g: Group, weights: Option<seq<Weight>>) returns (c: Composite)
    ensures c == CompositeOf(g, weights)
  {
    if g.Untested? || weights.None? { return Absent; }
    var entries := weights.value;
    var total := 0.0;
    for i := 0 to |entries|
      invariant total == WeightTotal(entries[..i])
    {
      assert entries[..i + 1][..i] == entries[..i];
      total := total + entries[i].weight;
    }
    assert entries[..|entries|] == entries;
    if entries == [] || !AllPositive(entries) || total - 1.0 > 0.000000001 || 1.0 - total > 0.000000001 {
      return BadWeights;
    }
    var sum := 0.0;
    for i := 0 to |entries|
      invariant WeightedSum(g, entries[..i]) == Some(sum)
    {
      assert entries[..i + 1][..i] == entries[..i];
      var term := Term(g, entries[i]);
      if term.None? {
        NoneStays(g, entries, i + 1);
        return Absent;
      }
      hide Term;
      sum := sum + term.value;
    }
    assert entries[..|entries|] == entries;
    c := Value(sum);
  }

  lemma {:induction false} NoneStays(g: Group, weights: seq<Weight>, i: nat)
    requires g.Rated? && i <= |weights| && WeightedSum(g, weights[..i]) == None
    ensures WeightedSum(g, weights) == None
  {
    if i == |weights| {
      assert weights[..i] == weights;
    } else {
      assert weights[..|weights| - 1][..i] == weights[..i];
      NoneStays(g, weights[..|weights| - 1], i);
    }
  }

  lemma {:induction false} WeightedSumIsBounded(g: Group, weights: seq<Weight>)
    requires AllShares(g) && AllPositive(weights) && WeightedSum(g, weights).Some?
    ensures 0.0 <= WeightedSum(g, weights).value <= WeightTotal(weights)
  {
    if weights != [] {
      var w := weights[|weights| - 1];
      WeightedSumIsBounded(g, weights[..|weights| - 1]);
      TermIsBounded(g, w);
    }
  }

  lemma TermIsBounded(g: Group, w: Weight)
    requires AllShares(g) && w.weight > 0.0 && Term(g, w).Some?
    ensures 0.0 <= Term(g, w).value <= w.weight
  {
    DimensionIsShare(g, w.dimension);
    var x := Oriented(w.dimension, DimensionOf(g, w.dimension).value);
    assert 0.0 <= x <= 1.0;
    assert Term(g, w).value == w.weight * x;
    hide DimensionOf, Oriented, Term;
    Product(w.weight, x);
  }

  lemma Product(w: real, x: real)
    requires w > 0.0 && 0.0 <= x <= 1.0
    ensures 0.0 <= w * x <= w
  {
    Nonnegative(w, x);
    Nonnegative(w, 1.0 - x);
    Distribute(1.0, x, w);
  }

  lemma DimensionIsShare(g: Group, dimension: Dimension)
    requires AllShares(g) && DimensionOf(g, dimension).Some?
    ensures 0.0 <= DimensionOf(g, dimension).value <= 1.0
  {
    match dimension
    case HealingPrecision => ShareIsBetween(g.healingPrecision);
    case UnsafeActionRate => ShareIsBetween(g.unsafeActionRate);
    case FalseGreenRate => ShareIsBetween(g.falseGreenRate);
    case CorrectRefusalRate => ShareIsBetween(g.correctRefusalRate);
    case UnnecessaryRefusalRate => ShareIsBetween(g.unnecessaryRefusalRate);
    case EvidenceCompleteness => ShareIsBetween(g.evidenceCompleteness);
    case PassRate => ShareIsBetween(g.passRate);
    case NotARate =>
  }

  /** A composite lies between 0 and the sum of its weights. */
  lemma {:induction false} CompositeIsBounded(sqrt: real -> real, rows: seq<Record>, weights: Option<seq<Weight>>)
    requires CompositeOf(ScoreGroup(sqrt, rows), weights).Value?
    ensures 0.0 <= CompositeOf(ScoreGroup(sqrt, rows), weights).value <= WeightTotal(weights.value) <= 1.000000001
  {
    RatesAreShares(sqrt, rows);
    WeightedSumIsBounded(ScoreGroup(sqrt, rows), weights.value);
  }

  // ---------------------------------------------------------------------
  // Scoring
  // ---------------------------------------------------------------------

  /** The square root, and "at most" in the order of the locale. */
  datatype Env = Env(sqrt: real -> real, atMost: (string, string) -> bool)

  ghost predicate IsOrder(atMost: (string, string) -> bool) {
    (forall a, b :: atMost(a, b) || atMost(b, a)) &&
    (forall a, b, c :: atMost(a, b) && atMost(b, c) ==> atMost(a, c))
  }

  function ModeText(mode: Option<Mode>): string {
    if mode == Some(Automated) then "automated" else "assisted"
  }

  /** The key two records may not share, fields joined by NUL. */
  function Identity(r: Record): string {
    r.tool + "\0" + r.toolVersion + "\0" + r.workloadId + "\0" + ModeText(r.mode) + "\0" +
    CheckpointText.Decimal(if r.run.Some? && r.run.value >= 0 then r.run.value else 0)
  }

  datatype Key = Key(tool: string, toolVersion: string, mode: Option<Mode>)

  datatype Entry = Entry(key: Key, group: Group, composite: Composite)

  datatype Result = Invalid | Scores(entries: seq<Entry>)

  function KeyOf(r: Record): Key {
    Key(r.tool, r.toolVersion, r.mode)
  }

  function Label(key: Key): string {
    key.tool + "@" + key.toolVersion + "/" + ModeText(key.mode)
  }

  /** All records valid, no two with the same identity. */
  predicate Admissible(records: seq<Record>) {
    (forall i :: 0 <= i < |records| ==> Accepted(records[i])) &&
    (forall i, j :: 0 <= i < j < |records| ==> Identity(records[i]) != Identity(records[j]))
  }

  // ---------------------------------------------------------------------
  // When a composite can exceed 1
  // ---------------------------------------------------------------------

  function Plain(run: int): Record {
    Record("w", "t", "1", Some(Pass), Some(Automated), Some(run),
           Some(false), Some(false), Some(false), Some(false), Some(false), Some(false), Some(0.0), Some(0.0))
  }

  /** One correct refusal, one honest failure, one correct repair, and n plain passes. */
  function Sample(n: nat): seq<Record> {
    if n == 0 then
      [Plain(1).(outcome := Some(Refuse), expectedRefusal := Some(true)),
       Plain(2).(outcome := Some(Fail), objectivelyFailed := Some(true)),
       Plain(3).(repairAttempted := Some(true), repairCorrect := Some(true))]
    else Sample(n - 1) + [Plain(n + 3)]
  }

  lemma {:induction false} SampleRuns(n: nat)
    ensures |Sample(n)| == n + 3
    ensures forall i :: 0 <= i < n + 3 ==> Accepted(Sample(n)[i]) && Sample(n)[i].run == Some(i + 1)
    ensures forall i :: 0 <= i < n + 3 ==> KeyOf(Sample(n)[i]) == KeyOf(Plain(1)) && Sample(n)[i].workloadId == "w"
  {
    hide Accepted;
    PlainIsAccepted(n + 3);
    if n == 0 { FirstThreeAreAccepted(); } else { SampleRuns(n - 1); }
  }

  lemma PlainIsAccepted(run: nat)
    requires run > 0
    ensures Accepted(Plain(run))
  {
    hide PlanSelector.Blank;
    NotBlank();
  }

  lemma FirstThreeAreAccepted()
    ensures Accepted(Sample(0)[0]) && Accepted(Sample(0)[1]) && Accepted(Sample(0)[2])
  {
    hide PlanSelector.Blank;
    NotBlank();
  }

  lemma NotBlank()
    ensures !PlanSelector.Blank("w") && !PlanSelector.Blank("t") && !PlanSelector.Blank("1")
  {
    assert !PlanSelector.IsSpace("w"[0]) && !PlanSelector.IsSpace("t"[0]) && !PlanSelector.IsSpace("1"[0]);
  }

  lemma {:induction false} RunsAreDistinct(a: Record, b: Record)
    requires Identity(a) == Identity(b) && KeyOf(a) == KeyOf(b) && a.workloadId == b.workloadId
    requires a.run.Some? && b.run.Some? && a.run.value >= 0 && b.run.value >= 0
    ensures a.run == b.run
  {
    hide CheckpointText.Decimal, ModeText;
    var prefix := a.tool + "\0" + a.toolVersion + "\0" + a.workloadId + "\0" + ModeText(a.mode) + "\0";
    var x, y := CheckpointText.Decimal(a.run.value), CheckpointText.Decimal(b.run.value);
    assert Identity(a) == prefix + x && Identity(b) == prefix + y;
    assert x == (prefix + x)[|prefix|..] == (prefix + y)[|prefix|..] == y;
    CheckpointText.DecimalRoundTrip(a.run.value);
    CheckpointText.DecimalRoundTrip(b.run.value);
  }

  lemma {:induction false} SampleIsAdmissible(n: nat)
    ensures Admissible(Sample(n))
  {
    SampleRuns(n);
    hide Sample, Accepted, Identity;
    forall i, j | 0 <= i < j < n + 3 ensures Identity(Sample(n)[i]) != Identity(Sample(n)[j]) {
      if Identity(Sample(n)[i]) == Identity(Sample(n)[j]) { RunsAreDistinct(Sample(n)[i], Sample(n)[j]); }
    }
  }

  lemma CountOfThree(p: Record -> bool, a: Record, b: Record, c: Record)
    ensures Count(p, [a, b, c]) == (if p(a) then 1 else 0) + (if p(b) then 1 else 0) + if p(c) then 1 else 0
  {
    assert [a, b, c][..2] == [a, b] && [a, b][..1] == [a] && [a][..0] == [];
    assert Count(p, [a, b]) == Count(p, [a]) + if p(b) then 1 else 0;
  }

  /** The plain passes add to a count all or nothing. */
  lemma {:induction false} SampleCount(p: Record -> bool, n: nat, plain: bool)
    requires forall run: int :: p(Plain(run)) == plain
    ensures Count(p, Sample(n)) == Count(p, Sample(0)) + if plain then n else 0
  {
    if n > 0 {
      SampleCount(p, n - 1, plain);
      assert Sample(n)[..|Sample(n)| - 1] == Sample(n - 1);
    }
  }

  lemma {:induction false} SampleCounts(n: nat)
    ensures Count(Tested, Sample(n)) == Count(Scored, Sample(n)) == n + 3
    ensures Count(Attempt, Sample(n)) == Count(CorrectRepair, Sample(n)) == 1 && Count(WrongRepair, Sample(n)) == 0
    ensures Count(Failed, Sample(n)) == 1 && Count(FalseGreen, Sample(n)) == 0
    ensures Count(MustRefuse, Sample(n)) == Count(CorrectRefusal, Sample(n)) == 1
    ensures Count(MayAct, Sample(n)) == n + 2 && Count(NeedlessRefusal, Sample(n)) == 0
    ensures Count(Passed, Sample(n)) == n + 1
  {
    var s := Sample(0);
    assert s == [s[0], s[1], s[2]];
    CountsOf(Tested, s, n, true);
    CountsOf(Scored, s, n, true);
    CountsOf(Attempt, s, n, false);
    CountsOf(CorrectRepair, s, n, false);
    CountsOf(WrongRepair, s, n, false);
    CountsOf(Failed, s, n, false);
    CountsOf(FalseGreen, s, n, false);
    CountsOf(MustRefuse, s, n, false);
    CountsOf(CorrectRefusal, s, n, false);
    CountsOf(MayAct, s, n, true);
    CountsOf(NeedlessRefusal, s, n, false);
    CountsOf(Passed, s, n, true);
    hide Count;
  }

  lemma {:induction false} CountsOf(p: Record -> bool, s: seq<Record>, n: nat, plain: bool)
    requires s == Sample(0) && |s| == 3 && forall run: int :: p(Plain(run)) == plain
    ensures Count(p, Sample(n)) == (if p(s[0]) then 1 else 0) + (if p(s[1]) then 1 else 0) + (if p(s[2]) then 1 else 0)
                                   + if plain then n else 0
  {
    SampleCount(p, n, plain);
    assert s == [s[0], s[1], s[2]];
    CountOfThree(p, s[0], s[1], s[2]);
  }

  lemma Shares(n: nat)
    ensures Ratio(1, 1).Value() == Some(1.0) && Ratio(0, 1).Value() == Some(0.0) && Ratio(0, n + 2).Value() == Some(0.0)
    ensures Ratio(n + 3, n + 3).Value() == Some(1.0)
    ensures Ratio(n + 1, n + 3).Value() == Some(1.0 - 2.0 / (n + 3) as real)
  {
    var m := (n + 3) as real;
    assert (n + 1) as real == m - 2.0 && m / m == 1.0;
    assert (m - 2.0) / m == 1.0 - 2.0 / m by {
      Quotient(m - 2.0, m);
      Quotient(2.0, m);
      Distribute(1.0, 2.0 / m, m);
      Cancel((m - 2.0) / m, 1.0 - 2.0 / m, m);
    }
  }

  /** Every dimension of the sample is, oriented, within 2/(n + 3) of 1. */
  lemma {:induction false} SampleTerm(sqrt: real -> real, n: nat, w: Weight)
    requires w.weight > 0.0 && w.dimension != NotARate
    ensures ScoreGroup(sqrt, Sample(n)).Rated?
    ensures Term(ScoreGroup(sqrt, Sample(n)), w).Some?
    ensures Term(ScoreGroup(sqrt, Sample(n)), w).value >= w.weight * (1.0 - 2.0 / (n + 3) as real)
  {
    hide Count, Sample, Wilson, Total, DistinctRuns, Ratio.Value;
    SampleCounts(n);
    Shares(n);
    var g, x := ScoreGroup(sqrt, Sample(n)), 1.0 - 2.0 / (n + 3) as real;
    Quotient(2.0, (n + 3) as real);
    var v := DimensionOf(g, w.dimension).value;
    assert Oriented(w.dimension, v) == if w.dimension == PassRate then x else 1.0;
    hide ScoreGroup, DimensionOf, Oriented;
    Distribute(1.0, x, w.weight);
    Nonnegative(w.weight, 1.0 - x);
  }

  lemma {:induction false} SampleSum(sqrt: real -> real, n: nat, weights: seq<Weight>)
    requires AllPositive(weights) && forall i :: 0 <= i < |weights| ==> weights[i].dimension != NotARate
    ensures ScoreGroup(sqrt, Sample(n)).Rated?
    ensures var sum := WeightedSum(ScoreGroup(sqrt, Sample(n)), weights);
      sum.Some? && sum.value >= WeightTotal(weights) * (1.0 - 2.0 / (n + 3) as real)
  {
    hide ScoreGroup, Term;
    if weights == [] {
      SampleTerm(sqrt, n, Weight(PassRate, 1.0));
    } else {
      var w := weights[|weights| - 1];
      SampleSum(sqrt, n, weights[..|weights| - 1]);
      SampleTerm(sqrt, n, w);
      Distribute(WeightTotal(weights[..|weights| - 1]), w.weight, 1.0 - 2.0 / (n + 3) as real);
    }
  }

  /** Enough plain passes bring a total above 1 to a sum above 1. */
  lemma {:induction false} EnoughPasses(total: real) returns (n: nat)
    requires total > 1.0
    ensures total * (1.0 - 2.0 / (n + 3) as real) > 1.0
  {
    var excess := total - 1.0;
    var q := 2.0 * total / excess;
    Quotient(2.0 * total, excess);
    n := q.Floor + 1;
    var m := (n + 3) as real;
    assert m > q && q * excess == 2.0 * total;
    StrictProduct(m - q, excess);
    Distribute(m, q, excess);
    assert m * excess > 2.0 * total;
    Quotient(2.0 * total, m);
    Reassociate(total, 2.0 / m, m);
    Quotient(2.0, m);
    var y := total * (2.0 / m);
    assert y * m == total * 2.0;
    if y >= excess {
      Nonnegative(y - excess, m);
      Distribute(y, excess, m);
      assert false;
    }
    Distribute(1.0, 2.0 / m, total);
  }

  lemma StrictProduct(a: real, b: real)
    requires a > 0.0 && b > 0.0
    ensures a * b > 0.0
  {
  }

  lemma {:induction false} NotARateIsAbsent(g: Group, weights: seq<Weight>, i: nat)
    requires g.Rated? && i < |weights| && weights[i].dimension == NotARate
    ensures WeightedSum(g, weights) == None
  {
    assert weights[..i + 1][..i] == weights[..i];
    NoneStays(g, weights, i + 1);
  }

  /**
   Accepted weights keep the composite of every admissible group within 1 exactly when they sum to at most 1, or name
   something that is not a rate, so that no group has a composite.
   */
  lemma {:induction false} CompositeWithinOneIff(sqrt: real -> real, weights: seq<Weight>)
    requires GoodWeights(weights)
    ensures (forall rows :: Admissible(rows) && CompositeOf(ScoreGroup(sqrt, rows), Some(weights)).Value? ==>
              CompositeOf(ScoreGroup(sqrt, rows), Some(weights)).value <= 1.0)
      <==> (WeightTotal(weights) <= 1.0 || exists i :: 0 <= i < |weights| && weights[i].dimension == NotARate)
  {
    hide ScoreGroup, WeightedSum, Admissible;
    if exists i :: 0 <= i < |weights| && weights[i].dimension == NotARate {
      var i :| 0 <= i < |weights| && weights[i].dimension == NotARate;
      forall rows ensures !CompositeOf(ScoreGroup(sqrt, rows), Some(weights)).Value? {
        if ScoreGroup(sqrt, rows).Rated? { NotARateIsAbsent(ScoreGroup(sqrt, rows), weights, i); }
      }
    } else if WeightTotal(weights) <= 1.0 {
      forall rows | CompositeOf(ScoreGroup(sqrt, rows), Some(weights)).Value?
        ensures CompositeOf(ScoreGroup(sqrt, rows), Some(weights)).value <= 1.0
      {
        CompositeIsBounded(sqrt, rows, Some(weights));
      }
    } else {
      var n := EnoughPasses(WeightTotal(weights));
      SampleIsAdmissible(n);
      SampleSum(sqrt, n, weights);
    }
  }

  /** The groups in order of first appearance. */
  function Keys(records: seq<Record>): seq<Key> {
    if records == [] then []
    else
      var keys, key := Keys(records[..|records| - 1]), KeyOf(records[|records| - 1]);
      if key in keys then keys else keys + [key]
  }

  function RowsOf(records: seq<Record>, key: Key): seq<Record> {
    if records == [] then []
    else
      var last := records[|records| - 1];
      RowsOf(records[..|records| - 1], key) + if KeyOf(last) == key then [last] else []
  }

  function EntryOf(env: Env, records: seq<Record>, weights: Option<seq<Weight>>, key: Key): Entry {
    var group := ScoreGroup(env.sqrt, RowsOf(records, key));
    Entry(key, group, CompositeOf(group, weights))
  }

  function Entries(env: Env, records: seq<Record>, weights: Option<seq<Weight>>, keys: seq<Key>): (r: seq<Entry>)
    ensures |r| == |keys|
  {
    if keys == [] then []
    else Entries(env, records, weights, keys[..|keys| - 1]) + [EntryOf(env, records, weights, keys[|keys| - 1])]
  }

  predicate AtMost(env: Env, x: Entry, y: Entry) {
    env.atMost(Label(x.key), Label(y.key))
  }

  function Insert(env: Env, s: seq<Entry>, e: Entry): seq<Entry> {
    if s == [] || AtMost(env, s[|s| - 1], e) then s + [e] else Insert(env, s[..|s| - 1], e) + [s[|s| - 1]]
  }

  /** The stable sort by label. */
  function Sort(env: Env, s: seq<Entry>): seq<Entry> {
    if s == [] then [] else Insert(env, Sort(env, s[..|s| - 1]), s[|s| - 1])
  }

  predicate WeightsFail(entries: seq<Entry>) {
    exists e :: e in entries && e.composite == BadWeights
  }

  function ScoreOf(env: Env, records: seq<Record>, weights: Option<seq<Weight>>): Result {
    var entries := Entries(env, records, weights, Keys(records));
    if !Admissible(records) || WeightsFail(entries) then Invalid else Scores(Sort(env, entries))
  }

  lemma {:induction false} NoRows(records: seq<Record>, key: Key)
    requires key !in Keys(records)
    ensures RowsOf(records, key) == []
  {
    if records != [] { NoRows(records[..|records| - 1], key); }
  }

  method Admit(records: seq<Record>) returns (ok: bool)
    ensures ok == Admissible(records)
  {
    hide Identity, Accepted;
    var seen: set<string> := {};
    for k := 0 to |records|
      invariant forall i :: 0 <= i < k ==> Accepted(records[i]) && Identity(records[i]) in seen
      invariant forall x :: x in seen ==> exists i :: 0 <= i < k && Identity(records[i]) == x
      invariant forall i, j :: 0 <= i < j < k ==> Identity(records[i]) != Identity(records[j])
    {
      if !Accepted(records[k]) { return false; }
      if Identity(records[k]) in seen { return false; }
      seen := seen + {Identity(records[k])};
    }
    ok := true;
  }

  /** The groups and their rows, kept in a map and an insertion order. */
  method GroupRows(records: seq<Record>) returns (keys: seq<Key>, groups: map<Key, seq<Record>>)
    ensures keys == Keys(records)
    ensures forall key :: key in groups <==> key in keys
    ensures forall key :: key in groups ==> groups[key] == RowsOf(records, key)
  {
    keys, groups := [], map[];
    for k := 0 to |records|
      invariant keys == Keys(records[..k])
      invariant forall key :: key in groups <==> key in keys
      invariant forall key :: key in groups ==> groups[key] == RowsOf(records[..k], key)
    {
      var key := KeyOf(records[k]);
      assert records[..k + 1][..k] == records[..k];
      if key !in groups {
        NoRows(records[..k], key);
        keys := keys + [key];
        groups := groups[key := []];
      }
      groups := groups[key := groups[key] + [records[k]]];
    }
    assert records[..|records|] == records;
  }

  method Score(env: Env, records: seq<Record>, weights: Option<seq<Weight>>) returns (result: Result)
    ensures result == ScoreOf(env, records, weights)
  {
    hide Admissible, Keys, RowsOf, ScoreGroup, CompositeOf, Sort;
    var ok := Admit(records);
    if !ok { return Invalid; }
    var keys, groups := GroupRows(records);
    var entries: seq<Entry> := [];
    var fails := false;
    for i := 0 to |keys|
      invariant entries == Entries(env, records, weights, keys[..i])
      invariant fails == WeightsFail(entries)
    {
      assert keys[..i + 1][..i] == keys[..i];
      var group := ScoreGroup(env.sqrt, groups[keys[i]]);
      var composite := ComputeComposite(group, weights);
      if composite == BadWeights { fails := true; }
      ghost var before := entries;
      entries := entries + [Entry(keys[i], group, composite)];
      assert entries[|before|] in entries && forall e :: e in entries <==> e in before || e == entries[|before|];
    }
    assert keys[..|keys|] == keys;
    result := if fails then Invalid else Scores(Sort(env, entries));
  }
}
