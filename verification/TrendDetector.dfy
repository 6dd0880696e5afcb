/**
 Advisory trend flags: one record judged against its baseline, either from the
 raw ledger (`Evaluate`) or from a list validated and sorted once
 (`EvaluateMany`). Rates, durations and medians are exact reals.
 */
module TrendDetector {
  import opened Options

  datatype Counts = Counts(passed: nat, failed: nat, quarantined: nat, unavailable: nat)

  datatype Record = Record(
    runId: string, timestamp: string, branch: string, repetitions: nat,
    counts: Counts, heals: nat, pagesTested: Option<nat>,
    pendingDepth: nat, quarantineCount: nat, durationMs: real, incomplete: bool)

  /** A ledger row: validateRecord returns the record of a valid row unchanged. */
  datatype Row = Valid(record: Record) | Malformed

  const BASELINE_N := 10
  const MIN_BASELINE := 10
  const MAX_SETTING := 500
  const BAND_FACTOR := 4.4478
  const COVERAGE_RATIO := 0.8
  const HEAL_GATE := 0.10
  const HEAL_FLOOR := 0.05
  const PASS_GATE := 0.95
  const PASS_FLOOR := 0.10
  const DURATION_FRACTION := 0.25
  const DURATION_FLOOR_MS := 30000.0
  const PENDING_MARGIN := 5.0
  const QUARANTINE_MARGIN := 2.0

  // ---------------------------------------------------------------------
  // Order
  // ---------------------------------------------------------------------

  predicate TextLess(a: string, b: string) {
    b != "" && (a == "" || a[0] < b[0] || (a[0] == b[0] && TextLess(a[1..], b[1..])))
  }

  /** compare(a, b) <= 0: by timestamp, then by run id. */
  predicate AtMost(a: Record, b: Record) {
    if a.timestamp != b.timestamp then TextLess(a.timestamp, b.timestamp)
    else a.runId == b.runId || TextLess(a.runId, b.runId)
  }

  /** compare(a, b) < 0 */
  predicate Before(a: Record, b: Record) {
    !AtMost(b, a)
  }

  lemma {:induction false} TextOrder(a: string, b: string)
    ensures a == b || TextLess(a, b) || TextLess(b, a)
    ensures !(TextLess(a, b) && TextLess(b, a))
    ensures TextLess(a, b) ==> a != b
  {
    if a != "" && b != "" {
      TextOrder(a[1..], b[1..]);
      assert a == [a[0]] + a[1..] && b == [b[0]] + b[1..];
    }
  }

  lemma {:induction false} TextTransitive(a: string, b: string, c: string)
    requires TextLess(a, b) && TextLess(b, c)
    ensures TextLess(a, c)
  {
    if a != "" && b != "" && a[0] == b[0] && b[0] == c[0] {
      TextTransitive(a[1..], b[1..], c[1..]);
    }
  }

  lemma {:induction false} AtMostTotal(a: Record, b: Record)
    ensures AtMost(a, b) || AtMost(b, a)
    ensures AtMost(a, a)
  {
    TextOrder(a.timestamp, b.timestamp);
    TextOrder(a.runId, b.runId);
  }

  lemma {:induction false} AtMostTransitive(a: Record, b: Record, c: Record)
    requires AtMost(a, b) && AtMost(b, c)
    ensures AtMost(a, c)
  {
    if TextLess(a.timestamp, b.timestamp) && TextLess(b.timestamp, c.timestamp) {
      TextTransitive(a.timestamp, b.timestamp, c.timestamp);
      TextOrder(a.timestamp, c.timestamp);
    } else if a.timestamp == b.timestamp == c.timestamp && a.runId != b.runId && b.runId != c.runId {
      TextTransitive(a.runId, b.runId, c.runId);
    }
  }

  ghost predicate Sorted(s: seq<Record>) {
    forall i, j :: 0 <= i < j < |s| ==> AtMost(s[i], s[j])
  }

  /** Insertion from the right: ties keep their order. */
  function Insert(s: seq<Record>, r: Record): seq<Record> {
    if s == [] || AtMost(s[|s| - 1], r) then s + [r] else Insert(s[..|s| - 1], r) + [s[|s| - 1]]
  }

  /** A stable sort by the comparison. */
  function StableSort(s: seq<Record>): seq<Record> {
    if s == [] then [] else Insert(StableSort(s[..|s| - 1]), s[|s| - 1])
  }

  lemma {:induction false} InsertSorts(s: seq<Record>, r: Record)
    requires Sorted(s)
    ensures Sorted(Insert(s, r)) && multiset(Insert(s, r)) == multiset(s) + multiset{r}
  {
    hide AtMost;
    if s == [] {
    } else if AtMost(s[|s| - 1], r) {
      forall i | 0 <= i < |s| - 1 ensures AtMost(s[i], r) { AtMostTransitive(s[i], s[|s| - 1], r); }
    } else {
      var init, last := s[..|s| - 1], s[|s| - 1];
      assert s == init + [last];
      InsertSorts(init, r);
      AtMostTotal(last, r);
      InsertBeforeLast(init, last, r);
      hide Insert;
      SortedWithLast(init, Insert(init, r), last, r);
    }
  }

  lemma {:induction false} SortedWithLast(init: seq<Record>, t: seq<Record>, last: Record, r: Record)
    requires Sorted(init + [last]) && Sorted(t) && AtMost(r, last) && multiset(t) == multiset(init) + multiset{r}
    ensures Sorted(t + [last]) && multiset(t + [last]) == multiset(init + [last]) + multiset{r}
  {
    hide AtMost;
    forall x | x in t ensures AtMost(x, last) {
      assert x in multiset(t);
      if x in init {
        var i :| 0 <= i < |init| && init[i] == x;
        assert (init + [last])[i] == x && (init + [last])[|init|] == last;
      }
    }
  }

  lemma {:induction false} SortStep(s: seq<Record>, r: Record)
    ensures StableSort(s + [r]) == Insert(StableSort(s), r)
  {
    assert (s + [r])[..|s|] == s;
  }

  /** The sort sorts, loses nothing and adds nothing. */
  lemma {:induction false} SortSorts(s: seq<Record>)
    ensures Sorted(StableSort(s)) && multiset(StableSort(s)) == multiset(s)
  {
    if s != [] {
      var init, last := s[..|s| - 1], s[|s| - 1];
      assert s == init + [last];
      SortSorts(init);
      InsertSorts(StableSort(init), last);
      SortStep(init, last);
      hide StableSort, Insert, Sorted, AtMost;
    }
  }

  // ---------------------------------------------------------------------
  // Baselines
  // ---------------------------------------------------------------------

  /** A complete run of the same branch and repeat count strictly before `now`. */
  predicate Eligible(now: Record, r: Record) {
    !r.incomplete && r.branch == now.branch && r.repetitions == now.repetitions && Before(r, now)
  }

  function EligibleOf(now: Record, s: seq<Record>): seq<Record> {
    if s == [] then []
    else EligibleOf(now, s[..|s| - 1]) + if Eligible(now, s[|s| - 1]) then [s[|s| - 1]] else []
  }

  function ValidOf(rows: seq<Row>): seq<Record> {
    if rows == [] then []
    else ValidOf(rows[..|rows| - 1]) + match rows[|rows| - 1] case Valid(r) => [r] case Malformed => []
  }

  /** slice(-n) */
  function LastN(s: seq<Record>, n: nat): seq<Record> {
    if |s| <= n then s else s[|s| - n..]
  }

  lemma {:induction false} EligibleStep(now: Record, s: seq<Record>, r: Record)
    ensures Eligible(now, r) ==> EligibleOf(now, s + [r]) == EligibleOf(now, s) + [r]
    ensures !Eligible(now, r) ==> EligibleOf(now, s + [r]) == EligibleOf(now, s)
  {
    hide Eligible;
    assert (s + [r])[..|s|] == s;
    assert EligibleOf(now, s) + [] == EligibleOf(now, s);
  }

  lemma {:induction false} EligibleAreMembers(now: Record, s: seq<Record>, x: Record)
    requires x in EligibleOf(now, s)
    ensures x in s && Eligible(now, x)
  {
    var init := s[..|s| - 1];
    if x in EligibleOf(now, init) { EligibleAreMembers(now, init, x); }
  }

  lemma {:induction false} InsertBeforeLast(s: seq<Record>, last: Record, r: Record)
    requires !AtMost(last, r)
    ensures Insert(s + [last], r) == Insert(s, r) + [last]
  {
    assert (s + [last])[..|s|] == s;
  }

  lemma {:induction false} InsertAtEnd(s: seq<Record>, r: Record)
    requires forall x :: x in s ==> AtMost(x, r)
    ensures Insert(s, r) == s + [r]
  {
  }

  lemma {:induction false} AllAtMost(s: seq<Record>, r: Record)
    requires Sorted(s) && (s != [] ==> AtMost(s[|s| - 1], r))
    ensures forall x :: x in s ==> AtMost(x, r)
  {
    hide AtMost;
    forall i | 0 <= i < |s| - 1 ensures AtMost(s[i], r) { AtMostTransitive(s[i], s[|s| - 1], r); }
  }

  /** Filtering commutes with one stable insertion into a sorted list. */
  lemma {:induction false} FilterInsert(now: Record, s: seq<Record>, r: Record)
    requires Sorted(s)
    ensures EligibleOf(now, Insert(s, r))
      == if Eligible(now, r) then Insert(EligibleOf(now, s), r) else EligibleOf(now, s)
  {
    hide Eligible, AtMost, EligibleOf, Insert;
    if s == [] || AtMost(s[|s| - 1], r) {
      FilterAppend(now, s, r);
    } else {
      var init, last := s[..|s| - 1], s[|s| - 1];
      assert s == init + [last];
      FilterInsert(now, init, r);
      InsertBeforeLast(init, last, r);
      InsertBeforeLast(EligibleOf(now, init), last, r);
      hide Sorted;
      EligibleStep(now, Insert(init, r), last);
      EligibleStep(now, init, last);
    }
  }

  lemma {:induction false} FilterAppend(now: Record, s: seq<Record>, r: Record)
    requires Sorted(s) && (s != [] ==> AtMost(s[|s| - 1], r))
    ensures EligibleOf(now, Insert(s, r))
      == if Eligible(now, r) then Insert(EligibleOf(now, s), r) else EligibleOf(now, s)
  {
    hide Eligible, AtMost, EligibleOf, Insert;
    AllAtMost(s, r);
    hide Sorted;
    InsertAtEnd(s, r);
    EligibleStep(now, s, r);
    forall x | x in EligibleOf(now, s) ensures AtMost(x, r) { EligibleAreMembers(now, s, x); }
    InsertAtEnd(EligibleOf(now, s), r);
  }

  /** Filtering and stable sorting commute, ties included. */
  lemma {:induction false} FilterSort(now: Record, s: seq<Record>)
    ensures EligibleOf(now, StableSort(s)) == StableSort(EligibleOf(now, s))
  {
    if s != [] {
      hide Insert, Eligible, EligibleOf, StableSort, AtMost;
      var init, r := s[..|s| - 1], s[|s| - 1];
      assert s == init + [r];
      FilterSort(now, init);
      SortSorts(init);
      SortStep(init, r);
      EligibleStep(now, init, r);
      FilterInsert(now, StableSort(init), r);
      SortStep(EligibleOf(now, init), r);
    }
  }

  /** In a sorted list nothing from `index` on is strictly before the record at `index`. */
  lemma {:induction false} NothingLaterIsEligible(s: seq<Record>, index: nat, k: nat)
    requires Sorted(s) && index < |s| && index <= k <= |s|
    ensures EligibleOf(s[index], s[..k]) == EligibleOf(s[index], s[..index])
  {
    if index < k {
      NothingLaterIsEligible(s, index, k - 1);
      AtMostTotal(s[index], s[k - 1]);
      assert s[..k][..k - 1] == s[..k - 1];
    }
  }

  // ---------------------------------------------------------------------
  // Judging
  // ---------------------------------------------------------------------

  function SortReals(s: seq<real>): (r: seq<real>)
    ensures |r| == |s|
  {
    if s == [] then [] else InsertReal(SortReals(s[..|s| - 1]), s[|s| - 1])
  }

  function InsertReal(s: seq<real>, v: real): (r: seq<real>)
    ensures |r| == |s| + 1
  {
    if s == [] || s[|s| - 1] <= v then s + [v] else InsertReal(s[..|s| - 1], v) + [s[|s| - 1]]
  }

  function Median(values: seq<real>): real
    requires values != []
  {
    var sorted := SortReals(values);
    var mid := |sorted| / 2;
    if |sorted| % 2 == 1 then sorted[mid] else (sorted[mid - 1] + sorted[mid]) / 2.0
  }

  function Distance(a: real, b: real): real {
    if a < b then b - a else a - b
  }

  function Deviations(values: seq<real>, m: real): (r: seq<real>)
    ensures |r| == |values|
  {
    if values == [] then [] else Deviations(values[..|values| - 1], m) + [Distance(values[|values| - 1], m)]
  }

  /** K * MAD_SCALE * MAD around the median. */
  function Band(values: seq<real>): real
    requires values != []
  {
    BAND_FACTOR * Median(Deviations(values, Median(values)))
  }

  function Max(a: real, b: real): real {
    if a < b then b else a
  }

  datatype Signal = HealRate | PassRate | Duration | PendingDepth | QuarantineCount

  datatype Flag = Flag(signal: Signal, current: real, baseline: real, threshold: real)

  datatype Suppression =
    | InvalidCurrent | IncompleteRun | InsufficientBaseline | ReducedCoverage
    | InsufficientBaselineFor(signal: Signal)

  datatype Verdict = Verdict(flags: seq<Flag>, suppressed: seq<Suppression>)

  function Rate(signal: Signal, r: Record): Option<real> {
    var verified := r.counts.passed + r.counts.failed + r.counts.quarantined + r.counts.unavailable;
    var decided := r.counts.passed + r.counts.failed + r.counts.unavailable;
    if signal == HealRate then
      if verified > 0 then Some(r.heals as real / verified as real) else None
    else
      if decided > 0 then Some(r.counts.passed as real / decided as real) else None
  }

  function Rates(signal: Signal, s: seq<Record>): seq<real> {
    if s == [] then []
    else Rates(signal, s[..|s| - 1]) + match Rate(signal, s[|s| - 1]) case None => [] case Some(v) => [v]
  }

  function Coverages(s: seq<Record>): seq<real> {
    if s == [] then []
    else Coverages(s[..|s| - 1]) + match s[|s| - 1].pagesTested case None => [] case Some(n) => [n as real]
  }

  function Durations(s: seq<Record>): (r: seq<real>)
    ensures |r| == |s|
  {
    if s == [] then [] else Durations(s[..|s| - 1]) + [s[|s| - 1].durationMs]
  }

  function Pendings(s: seq<Record>): (r: seq<real>)
    ensures |r| == |s|
  {
    if s == [] then [] else Pendings(s[..|s| - 1]) + [s[|s| - 1].pendingDepth as real]
  }

  function Quarantines(s: seq<Record>): (r: seq<real>)
    ensures |r| == |s|
  {
    if s == [] then [] else Quarantines(s[..|s| - 1]) + [s[|s| - 1].quarantineCount as real]
  }

  predicate CoverageReduced(now: Record, baseline: seq<Record>) {
    var coverages := Coverages(baseline);
    now.pagesTested == None || (coverages != [] && now.pagesTested.value as real < COVERAGE_RATIO * Median(coverages))
  }

  /** The rate rules: a null rate is skipped, too few usable baseline values suppress this signal alone. */
  function JudgeRate(signal: Signal, now: Record, baseline: seq<Record>, minBaseline: nat): Verdict
    requires minBaseline >= 1
  {
    var values := Rates(signal, baseline);
    match Rate(signal, now)
    case None => Verdict([], [])
    case Some(value) =>
      if |values| < minBaseline then Verdict([], [InsufficientBaselineFor(signal)])
      else
        var m, band := Median(values), Band(values);
        if signal == HealRate then
          var threshold := m + Max(band, HEAL_FLOOR);
          Verdict(if value >= HEAL_GATE && value > threshold then [Flag(signal, value, m, threshold)] else [], [])
        else
          var threshold := m - Max(band, PASS_FLOOR);
          Verdict(if value < PASS_GATE && value < threshold then [Flag(signal, value, m, threshold)] else [], [])
  }

  function JudgeDuration(now: Record, baseline: seq<Record>): seq<Flag>
    requires baseline != []
  {
    var m := Median(Durations(baseline));
    var threshold := m + Max(Max(Band(Durations(baseline)), DURATION_FRACTION * m), DURATION_FLOOR_MS);
    if now.durationMs > threshold then [Flag(Duration, now.durationMs, m, threshold)] else []
  }

  function JudgePending(now: Record, baseline: seq<Record>): seq<Flag>
    requires baseline != []
  {
    var pending, n := Pendings(baseline), |baseline|;
    var m, depth := Median(pending), now.pendingDepth as real;
    var rising := n >= 2 && pending[n - 2] < pending[n - 1] && pending[n - 1] < depth;
    if depth >= m + PENDING_MARGIN && rising then [Flag(PendingDepth, depth, m, m + PENDING_MARGIN)] else []
  }

  function JudgeQuarantine(now: Record, baseline: seq<Record>): seq<Flag>
    requires baseline != []
  {
    var m, count := Median(Quarantines(baseline)), now.quarantineCount as real;
    if count >= m + QUARANTINE_MARGIN then [Flag(QuarantineCount, count, m, m + QUARANTINE_MARGIN)] else []
  }

  function Judge(now: Record, baseline: seq<Record>, minBaseline: nat): Verdict
    requires minBaseline >= 1
  {
    if |baseline| < minBaseline then Verdict([], [InsufficientBaseline])
    else if CoverageReduced(now, baseline) then Verdict([], [ReducedCoverage])
    else
      var heal, pass := JudgeRate(HealRate, now, baseline, minBaseline),
        JudgeRate(PassRate, now, baseline, minBaseline);
      Verdict(heal.flags + pass.flags + JudgeDuration(now, baseline) + JudgePending(now, baseline) +
              JudgeQuarantine(now, baseline),
              heal.suppressed + pass.suppressed)
  }

  // ---------------------------------------------------------------------
  // The two forms
  // ---------------------------------------------------------------------

  datatype Settings = Settings(baselineN: int, minBaseline: int)

  function ValidCount(value: int, fallback: nat): (n: nat)
    requires 1 <= fallback
    ensures n >= 1
  {
    if 1 <= value <= MAX_SETTING then value else fallback
  }

  /** The verdict on one record: validate, filter, sort, slice, judge. */
  function Evaluate(rows: seq<Row>, current: Row, settings: Settings): Verdict {
    match current
    case Malformed => Verdict([], [InvalidCurrent])
    case Valid(now) =>
      if now.incomplete then Verdict([], [IncompleteRun])
      else
        var baseline := LastN(StableSort(EligibleOf(now, ValidOf(rows))), ValidCount(settings.baselineN, BASELINE_N));
        Judge(now, baseline, ValidCount(settings.minBaseline, MIN_BASELINE))
  }

  function Reverse(s: seq<Record>): seq<Record> {
    if s == [] then [] else [s[|s| - 1]] + Reverse(s[..|s| - 1])
  }

  function Rows(s: seq<Record>): seq<Row> {
    if s == [] then [] else Rows(s[..|s| - 1]) + [Valid(s[|s| - 1])]
  }

  lemma {:induction false} ValidOfRows(s: seq<Record>)
    ensures ValidOf(Rows(s)) == s
  {
    if s != [] {
      ValidOfRows(s[..|s| - 1]);
    }
  }

  lemma SortedEmpty()
    ensures StableSort([]) == []
  {
  }

  /** A sorted list is its own stable sort. */
  lemma {:induction false} SortedIsFixed(s: seq<Record>)
    requires Sorted(s)
    ensures StableSort(s) == s
  {
    hide AtMost, StableSort;
    if s != [] {
      var init, last := s[..|s| - 1], s[|s| - 1];
      assert s == init + [last];
      SortedIsFixed(init);
      SortStep(init, last);
    } else {
      SortedEmpty();
    }
  }

  /** The baseline `Evaluate` finds in any ledger is the one a sorted copy holds before `index`. */
  lemma {:induction false} BaselineIsPrefixFilter(rows: seq<Row>, index: nat)
    requires index < |StableSort(ValidOf(rows))|
    ensures var s := StableSort(ValidOf(rows));
      StableSort(EligibleOf(s[index], ValidOf(rows))) == EligibleOf(s[index], s[..index])
  {
    var s := StableSort(ValidOf(rows));
    SortSorts(ValidOf(rows));
    FilterSort(s[index], ValidOf(rows));
    NothingLaterIsEligible(s, index, |s|);
    assert s[..|s|] == s;
  }

  /** One entry of evaluateMany: the backward scan bounded by the baseline size. */
  method ScanBack(runs: seq<Record>, index: nat, n: nat) returns (baseline: seq<Record>)
    requires index < |runs|
    ensures baseline == LastN(EligibleOf(runs[index], runs[..index]), n)
  {
    hide Eligible;
    var now := runs[index];
    var collected: seq<Record> := [];
    var j := index;
    ghost var all := EligibleOf(now, runs[..index]);
    while j > 0 && |collected| < n
      invariant 0 <= j <= index
      invariant |collected| <= n
      invariant EligibleOf(now, runs[..j]) + Reverse(collected) == all
      decreases j
    {
      j := j - 1;
      var r := runs[j];
      assert runs[..j + 1] == runs[..j] + [r];
      EligibleStep(now, runs[..j], r);
      if Eligible(now, r) {
        ReverseStep(collected, r);
        collected := collected + [r];
      }
    }
    ReverseLength(collected);
    assert j == 0 ==> runs[..j] == [];
    baseline := Reverse(collected);
  }

  lemma {:induction false} ReverseStep(s: seq<Record>, r: Record)
    ensures Reverse(s + [r]) == [r] + Reverse(s)
  {
    assert (s + [r])[..|s|] == s;
  }

  lemma {:induction false} ReverseLength(s: seq<Record>)
    ensures |Reverse(s)| == |s|
  {
    if s != [] { ReverseLength(s[..|s| - 1]); }
  }

  /** The backward scan finds the baseline of `Evaluate`, so both reach the same verdict. */
  lemma {:induction false} ScanAgrees(rows: seq<Row>, index: nat, settings: Settings)
    requires index < |StableSort(ValidOf(rows))| && !StableSort(ValidOf(rows))[index].incomplete
    ensures var s := StableSort(ValidOf(rows));
      Evaluate(rows, Valid(s[index]), settings) ==
        Judge(s[index], LastN(EligibleOf(s[index], s[..index]), ValidCount(settings.baselineN, BASELINE_N)),
              ValidCount(settings.minBaseline, MIN_BASELINE))
  {
    hide Judge, LastN, EligibleOf, StableSort;
    BaselineIsPrefixFilter(rows, index);
  }

  /**
   evaluateMany() on the sorted valid records of any ledger gives, for every index, what evaluate() gives on the raw
   ledger for that record; an index outside the list is an invalid record.
   */
  method EvaluateMany(rows: seq<Row>, runs: seq<Record>, indices: seq<int>, settings: Settings)
    returns (results: seq<Verdict>)
    requires runs == StableSort(ValidOf(rows))
    ensures |results| == |indices|
    ensures forall k :: 0 <= k < |indices| ==>
      results[k] == Evaluate(rows, if 0 <= indices[k] < |runs| then Valid(runs[indices[k]]) else Malformed, settings)
  {
    hide Judge, LastN, EligibleOf, StableSort, ValidOf, ValidCount;
    var baselineN := ValidCount(settings.baselineN, BASELINE_N);
    var minBaseline := ValidCount(settings.minBaseline, MIN_BASELINE);
    results := [];
    for k := 0 to |indices|
      invariant |results| == k
      invariant forall i :: 0 <= i < k ==>
        (results[i] ==
           Evaluate(rows, if 0 <= indices[i] < |runs| then Valid(runs[indices[i]]) else Malformed, settings))
    {
      var index := indices[k];
      if !(0 <= index < |runs|) {
        results := results + [Verdict([], [InvalidCurrent])];
      } else if runs[index].incomplete {
        results := results + [Verdict([], [IncompleteRun])];
      } else {
        var baseline := ScanBack(runs, index, baselineN);
        ScanAgrees(rows, index, settings);
        results := results + [Judge(runs[index], baseline, minBaseline)];
      }
    }
  }

  /** A ledger that is already valid and sorted reads as its own sorted list of valid records. */
  lemma {:induction false} SortedLedger(runs: seq<Record>)
    requires Sorted(runs)
    ensures StableSort(ValidOf(Rows(runs))) == runs
  {
    ValidOfRows(runs);
    SortedIsFixed(runs);
  }

  // ---------------------------------------------------------------------
  // What the verdict does not depend on
  // ---------------------------------------------------------------------

  /** No two records share both timestamp and run id. */
  ghost predicate DistinctKeys(s: seq<Record>) {
    forall x, y :: x in s && y in s && AtMost(x, y) && AtMost(y, x) ==> x == y
  }

  lemma {:induction false} LastIsHighest(s: seq<Record>, x: Record)
    requires s != [] && Sorted(s) && x in s
    ensures AtMost(x, s[|s| - 1])
  {
    hide AtMost;
    AtMostTotal(x, x);
  }

  lemma {:induction false} LastsAgree(s: seq<Record>, t: seq<Record>)
    requires s != [] && t != [] && Sorted(s) && Sorted(t) && multiset(s) == multiset(t) && DistinctKeys(s)
    ensures s[|s| - 1] == t[|t| - 1]
  {
    hide AtMost;
    var x, y := s[|s| - 1], t[|t| - 1];
    assert x in multiset(t) && y in multiset(s);
    LastIsHighest(s, y);
    LastIsHighest(t, x);
  }

  lemma {:induction false} PrefixIsSorted(s: seq<Record>)
    requires s != [] && Sorted(s)
    ensures Sorted(s[..|s| - 1]) && (DistinctKeys(s) ==> DistinctKeys(s[..|s| - 1]))
  {
    hide AtMost;
    var init := s[..|s| - 1];
    assert forall x :: x in init ==> x in s;
  }

  lemma {:induction false} WithoutLast(s: seq<Record>)
    requires s != []
    ensures s == s[..|s| - 1] + [s[|s| - 1]]
    ensures multiset(s[..|s| - 1]) == multiset(s) - multiset{s[|s| - 1]}
  {
    assert s == s[..|s| - 1] + [s[|s| - 1]];
  }

  lemma {:induction false} SortedListsAgree(s: seq<Record>, t: seq<Record>)
    requires Sorted(s) && Sorted(t) && multiset(s) == multiset(t) && DistinctKeys(s)
    ensures s == t
  {
    hide AtMost, Sorted, DistinctKeys;
    assert |multiset(s)| == |s| && |multiset(t)| == |t|;
    if s != [] {
      var n := |s| - 1;
      LastsAgree(s, t);
      PrefixIsSorted(s);
      PrefixIsSorted(t);
      WithoutLast(s);
      WithoutLast(t);
      SortedListsAgree(s[..n], t[..n]);
    }
  }

  /** The baseline before slicing, computed from the sorted list instead of the raw ledger. */
  lemma {:induction false} EvaluateReadsSorted(rows: seq<Row>, sorted: seq<Record>, current: Row, settings: Settings)
    requires sorted == StableSort(ValidOf(rows))
    ensures Evaluate(rows, current, settings) == Evaluate(Rows(sorted), current, settings)
  {
    if current.Valid? {
      hide Judge, LastN, EligibleOf, StableSort, ValidOf;
      SortSorts(ValidOf(rows));
      SortedLedger(sorted);
      FilterSort(current.record, ValidOf(rows));
      FilterSort(current.record, ValidOf(Rows(sorted)));
    }
  }

  /** Records may come in any order and malformed rows do not matter, as long as keys are distinct. */
  lemma {:induction false} OrderDoesNotMatter(a: seq<Row>, b: seq<Row>, current: Row, settings: Settings)
    requires multiset(ValidOf(a)) == multiset(ValidOf(b)) && DistinctKeys(ValidOf(a))
    ensures Evaluate(a, current, settings) == Evaluate(b, current, settings)
  {
    hide Evaluate, StableSort, ValidOf;
    var s, t := StableSort(ValidOf(a)), StableSort(ValidOf(b));
    SortSorts(ValidOf(a));
    SortSorts(ValidOf(b));
    forall x | x in s ensures x in ValidOf(a) {
      assert x in multiset(s);
    }
    SortedListsAgree(s, t);
    EvaluateReadsSorted(a, s, current, settings);
    EvaluateReadsSorted(b, t, current, settings);
  }

  lemma {:induction false} InsertRealMembers(s: seq<real>, v: real, x: real)
    requires x in InsertReal(s, v)
    ensures x in s || x == v
  {
    if s != [] && s[|s| - 1] > v && x != s[|s| - 1] {
      InsertRealMembers(s[..|s| - 1], v, x);
    }
  }

  lemma {:induction false} SortRealsMembers(s: seq<real>, x: real)
    requires x in SortReals(s)
    ensures x in s
  {
    if s != [] {
      InsertRealMembers(SortReals(s[..|s| - 1]), s[|s| - 1], x);
      if x in SortReals(s[..|s| - 1]) { SortRealsMembers(s[..|s| - 1], x); }
    }
  }

  /** The median is within any bound on the values. */
  lemma {:induction false} MedianIsBounded(values: seq<real>, bound: real)
    requires values != []
    ensures (forall x :: x in values ==> bound <= x) ==> bound <= Median(values)
    ensures (forall x :: x in values ==> x <= bound) ==> Median(values) <= bound
  {
    var sorted := SortReals(values);
    var mid := |sorted| / 2;
    SortRealsMembers(values, sorted[mid]);
    if |sorted| % 2 == 0 { SortRealsMembers(values, sorted[mid - 1]); }
  }

  /** `now` is at least as good as `r` on every signal. */
  predicate NoWorse(now: Record, r: Record) {
    (Rate(HealRate, now).Some? && Rate(HealRate, r).Some? ==>
       Rate(HealRate, now).value <= Rate(HealRate, r).value) &&
    (Rate(PassRate, now).Some? && Rate(PassRate, r).Some? ==>
       Rate(PassRate, now).value >= Rate(PassRate, r).value) &&
    now.durationMs <= r.durationMs && now.pendingDepth <= r.pendingDepth && now.quarantineCount <= r.quarantineCount
  }

  lemma {:induction false} RatesAreBounded(signal: Signal, now: Record, s: seq<Record>, x: real)
    requires forall r :: r in s ==> NoWorse(now, r)
    requires Rate(signal, now).Some? && x in Rates(signal, s)
    ensures if signal == HealRate then Rate(signal, now).value <= x else x <= Rate(signal, now).value
  {
    var init, last := s[..|s| - 1], s[|s| - 1];
    assert NoWorse(now, last);
    if x in Rates(signal, init) { RatesAreBounded(signal, now, init, x); }
  }

  lemma {:induction false} LevelsAreBounded(now: Record, s: seq<Record>, x: real)
    requires forall r :: r in s ==> NoWorse(now, r)
    ensures x in Durations(s) ==> now.durationMs <= x
    ensures x in Pendings(s) ==> now.pendingDepth as real <= x
    ensures x in Quarantines(s) ==> now.quarantineCount as real <= x
  {
    if s != [] {
      assert NoWorse(now, s[|s| - 1]);
      LevelsAreBounded(now, s[..|s| - 1], x);
    }
  }

  lemma {:induction false} NoRateFlag(signal: Signal, now: Record, baseline: seq<Record>, minBaseline: nat)
    requires minBaseline >= 1
    requires forall r :: r in baseline ==> NoWorse(now, r)
    ensures JudgeRate(signal, now, baseline, minBaseline).flags == []
  {
    hide Band, Median;
    var values := Rates(signal, baseline);
    if Rate(signal, now).Some? && |values| >= minBaseline {
      var value := Rate(signal, now).value;
      forall x | x in values ensures if signal == HealRate then value <= x else x <= value {
        RatesAreBounded(signal, now, baseline, x);
      }
      MedianIsBounded(values, value);
    }
  }

  lemma {:induction false} NoLevelFlags(now: Record, baseline: seq<Record>)
    requires baseline != [] && forall r :: r in baseline ==> NoWorse(now, r)
    ensures JudgeDuration(now, baseline) == JudgePending(now, baseline) == JudgeQuarantine(now, baseline) == []
  {
    hide Band, Median;
    var d, p, q := Durations(baseline), Pendings(baseline), Quarantines(baseline);
    forall x ensures (x in d ==> now.durationMs <= x) && (x in p ==> now.pendingDepth as real <= x)
                  && (x in q ==> now.quarantineCount as real <= x) {
      LevelsAreBounded(now, baseline, x);
    }
    MedianIsBounded(d, now.durationMs);
    MedianIsBounded(p, now.pendingDepth as real);
    MedianIsBounded(q, now.quarantineCount as real);
  }

  /** A run that is no worse than any run of its baseline is never flagged. */
  lemma {:induction false} NoWorseIsNotFlagged(now: Record, baseline: seq<Record>, minBaseline: nat)
    requires minBaseline >= 1
    requires forall r :: r in baseline ==> NoWorse(now, r)
    ensures Judge(now, baseline, minBaseline).flags == []
  {
    if |baseline| >= minBaseline {
      hide JudgeRate, JudgeDuration, JudgePending, JudgeQuarantine, CoverageReduced, NoWorse;
      NoRateFlag(HealRate, now, baseline, minBaseline);
      NoRateFlag(PassRate, now, baseline, minBaseline);
      NoLevelFlags(now, baseline);
    }
  }

  // ---------------------------------------------------------------------
  // What is flagged
  // ---------------------------------------------------------------------

  function CountAtMost(s: seq<real>, m: real): (n: nat)
    ensures n <= |s|
  {
    if s == [] then 0 else CountAtMost(s[..|s| - 1], m) + if s[|s| - 1] <= m then 1 else 0
  }

  function CountAtLeast(s: seq<real>, m: real): (n: nat)
    ensures n <= |s|
  {
    if s == [] then 0 else CountAtLeast(s[..|s| - 1], m) + if s[|s| - 1] >= m then 1 else 0
  }

  ghost predicate Ascending(s: seq<real>) {
    forall i, j :: 0 <= i < j < |s| ==> s[i] <= s[j]
  }

  lemma {:induction false} InsertRealKeeps(s: seq<real>, v: real, m: real)
    ensures CountAtMost(InsertReal(s, v), m) == CountAtMost(s, m) + if v <= m then 1 else 0
    ensures CountAtLeast(InsertReal(s, v), m) == CountAtLeast(s, m) + if v >= m then 1 else 0
  {
    var r := InsertReal(s, v);
    if s == [] || s[|s| - 1] <= v {
      assert r[..|s|] == s;
    } else {
      var init := s[..|s| - 1];
      InsertRealKeeps(init, v, m);
      assert r[..|r| - 1] == InsertReal(init, v);
    }
  }

  lemma {:induction false} InsertRealAscends(s: seq<real>, v: real)
    requires Ascending(s)
    ensures Ascending(InsertReal(s, v))
  {
    if s == [] || s[|s| - 1] <= v {
      assert InsertReal(s, v) == s + [v];
    } else {
      var init := s[..|s| - 1];
      InsertRealAscends(init, v);
      var r, last := InsertReal(init, v), s[|s| - 1];
      assert InsertReal(s, v) == r + [last];
      forall i | 0 <= i < |r| ensures r[i] <= last { InsertRealMembers(init, v, r[i]); }
    }
  }

  lemma {:induction false} SortRealsKeeps(s: seq<real>, m: real)
    ensures CountAtMost(SortReals(s), m) == CountAtMost(s, m) && CountAtLeast(SortReals(s), m) == CountAtLeast(s, m)
    ensures Ascending(SortReals(s))
  {
    if s != [] {
      hide Ascending, InsertReal;
      SortRealsKeeps(s[..|s| - 1], m);
      InsertRealKeeps(SortReals(s[..|s| - 1]), s[|s| - 1], m);
      InsertRealAscends(SortReals(s[..|s| - 1]), s[|s| - 1]);
    } else {
      assert SortReals(s) == [];
    }
  }

  lemma {:induction false} CountPrefix(s: seq<real>, m: real, n: nat)
    requires n <= |s|
    ensures (forall i :: 0 <= i < n ==> s[i] <= m) ==> CountAtMost(s, m) >= n
    ensures (forall i :: n <= i < |s| ==> s[i] >= m) ==> CountAtLeast(s, m) >= |s| - n
  {
    if s != [] { CountPrefix(s[..|s| - 1], m, if n == |s| then n - 1 else n); }
  }

  lemma MedianIsMiddle(values: seq<real>)
    requires values != []
    ensures var sorted, m := SortReals(values), Median(values);
      var mid := |sorted| / 2;
      sorted != [] && sorted[mid] >= m && sorted[if |sorted| % 2 == 1 then mid else mid - 1] <= m
  {
    SortRealsKeeps(values, 0.0);
    hide SortReals;
  }

  lemma {:induction false} BothSides(sorted: seq<real>, m: real, low: nat, high: nat)
    requires Ascending(sorted) && low < |sorted| && high < |sorted| && sorted[low] <= m <= sorted[high]
    ensures CountAtMost(sorted, m) >= low + 1 && CountAtLeast(sorted, m) >= |sorted| - high
  {
    hide CountAtMost, CountAtLeast;
    CountPrefix(sorted, m, low + 1);
    CountPrefix(sorted, m, high);
  }

  /** At least half of the values are at most the median, and at least half are at least it. */
  lemma {:induction false} MedianSplits(values: seq<real>)
    requires values != []
    ensures 2 * CountAtMost(values, Median(values)) >= |values| && 2 * CountAtLeast(values, Median(values)) >= |values|
  {
    hide Median, SortReals, CountAtMost, CountAtLeast, Ascending;
    var sorted := SortReals(values);
    var mid := |sorted| / 2;
    SortRealsKeeps(values, Median(values));
    MedianIsMiddle(values);
    BothSides(sorted, Median(values), if |sorted| % 2 == 1 then mid else mid - 1, mid);
  }

  predicate Flagged(v: Verdict, signal: Signal) {
    exists f :: f in v.flags && f.signal == signal
  }

  lemma {:induction false} ConstantStats(values: seq<real>, v: real)
    requires values != [] && forall x :: x in values ==> x == v
    ensures Median(values) == v && Band(values) == 0.0
  {
    MedianIsBounded(values, v);
    forall x | x in Deviations(values, v) ensures x == 0.0 { NoDeviation(values, v, x); }
    MedianIsBounded(Deviations(values, v), 0.0);
  }

  lemma {:induction false} NoDeviation(values: seq<real>, v: real, x: real)
    requires (forall y :: y in values ==> y == v) && x in Deviations(values, v)
    ensures x == 0.0
  {
    var init := values[..|values| - 1];
    assert values[|values| - 1] in values && forall y :: y in init ==> y in values;
    if x in Deviations(init, v) { NoDeviation(init, v, x); }
  }

  /** Same rates and levels. */
  predicate Alike(r: Record, s: Record) {
    Rate(HealRate, r) == Rate(HealRate, s) && Rate(PassRate, r) == Rate(PassRate, s) &&
    r.durationMs == s.durationMs && r.pendingDepth == s.pendingDepth && r.quarantineCount == s.quarantineCount
  }

  lemma {:induction false} SteadyValues(baseline: seq<Record>, typical: Record)
    requires forall r :: r in baseline ==> Alike(r, typical)
    ensures forall signal :: signal == HealRate || signal == PassRate ==>
      (|Rates(signal, baseline)| == (if Rate(signal, typical).Some? then |baseline| else 0) &&
       forall x :: x in Rates(signal, baseline) ==> Some(x) == Rate(signal, typical))
    ensures forall x :: x in Durations(baseline) ==> x == typical.durationMs
    ensures forall i :: 0 <= i < |baseline| ==> Pendings(baseline)[i] == typical.pendingDepth as real
    ensures forall x :: x in Quarantines(baseline) ==> x == typical.quarantineCount as real
  {
    hide Rate;
    if baseline != [] {
      assert Alike(baseline[|baseline| - 1], typical);
      SteadyValues(baseline[..|baseline| - 1], typical);
    }
  }

  lemma {:induction false} SteadyRates(signal: Signal, now: Record, baseline: seq<Record>, minBaseline: nat,
                                       typical: Record)
    requires 1 <= minBaseline <= |baseline| && forall r :: r in baseline ==> Alike(r, typical)
    requires signal == HealRate || signal == PassRate
    ensures JudgeRate(signal, now, baseline, minBaseline).flags != [] <==>
      (Rate(signal, now).Some? && Rate(signal, typical).Some? &&
       var value, usual := Rate(signal, now).value, Rate(signal, typical).value;
       if signal == HealRate then value >= HEAL_GATE && value > usual + HEAL_FLOOR
       else value < PASS_GATE && value < usual - PASS_FLOOR)
    ensures forall f :: f in JudgeRate(signal, now, baseline, minBaseline).flags ==> f.signal == signal
  {
    SteadyValues(baseline, typical);
    if Rate(signal, typical).Some? {
      ConstantStats(Rates(signal, baseline), Rate(signal, typical).value);
    }
    hide Median, Band, Rate, Rates, Alike;
  }

  /**
   Against a baseline without any variation, each signal is flagged exactly beyond its fixed margin; depth never is.
   */
  lemma {:induction false} SteadyBaselineFlags(now: Record, baseline: seq<Record>, minBaseline: nat, typical: Record)
    requires 1 <= minBaseline <= |baseline| && !CoverageReduced(now, baseline)
    requires forall r :: r in baseline ==> Alike(r, typical)
    ensures var v := Judge(now, baseline, minBaseline);
      (Flagged(v, HealRate) <==>
        (Rate(HealRate, now).Some? && Rate(HealRate, typical).Some? &&
         Rate(HealRate, now).value >= HEAL_GATE &&
         Rate(HealRate, now).value > Rate(HealRate, typical).value + HEAL_FLOOR)) &&
      (Flagged(v, PassRate) <==>
        (Rate(PassRate, now).Some? && Rate(PassRate, typical).Some? &&
         Rate(PassRate, now).value < PASS_GATE &&
         Rate(PassRate, now).value < Rate(PassRate, typical).value - PASS_FLOOR)) &&
      (Flagged(v, Duration) <==>
        now.durationMs > typical.durationMs + Max(DURATION_FRACTION * typical.durationMs, DURATION_FLOOR_MS)) &&
      !Flagged(v, PendingDepth) &&
      (Flagged(v, QuarantineCount)
       <==> now.quarantineCount as real >= typical.quarantineCount as real + QUARANTINE_MARGIN)
  {
    SteadyRates(HealRate, now, baseline, minBaseline, typical);
    SteadyRates(PassRate, now, baseline, minBaseline, typical);
    SteadyLevels(now, baseline, typical);
    hide Rate, Alike, CoverageReduced, JudgeRate, JudgeDuration, JudgePending, JudgeQuarantine;
    var heal, pass := JudgeRate(HealRate, now, baseline, minBaseline).flags,
      JudgeRate(PassRate, now, baseline, minBaseline).flags;
    assert JudgePending(now, baseline) == [];
    PartsAreFlagged(Judge(now, baseline, minBaseline), heal, pass, JudgeDuration(now, baseline),
                    JudgeQuarantine(now, baseline));
  }

  lemma {:induction false} PartsAreFlagged(v: Verdict, heal: seq<Flag>, pass: seq<Flag>, duration: seq<Flag>,
                                           quarantine: seq<Flag>)
    requires v.flags == heal + pass + duration + [] + quarantine
    requires (forall f :: f in heal ==> f.signal == HealRate) && (forall f :: f in pass ==> f.signal == PassRate)
    requires (forall f :: f in duration ==> f.signal == Duration) &&
      (forall f :: f in quarantine ==> f.signal == QuarantineCount)
    ensures (Flagged(v, HealRate) <==> heal != []) && (Flagged(v, PassRate) <==> pass != [])
    ensures (Flagged(v, Duration) <==> duration != []) && (Flagged(v, QuarantineCount) <==> quarantine != [])
    ensures !Flagged(v, PendingDepth)
  {
    assert forall f :: f in v.flags <==> f in heal || f in pass || f in duration || f in quarantine;
    assert heal != [] ==> heal[0] in heal;
    assert pass != [] ==> pass[0] in pass;
    assert duration != [] ==> duration[0] in duration;
    assert quarantine != [] ==> quarantine[0] in quarantine;
  }

  lemma {:induction false} SteadyLevels(now: Record, baseline: seq<Record>, typical: Record)
    requires baseline != [] && forall r :: r in baseline ==> Alike(r, typical)
    ensures JudgeDuration(now, baseline) != [] <==>
      now.durationMs > typical.durationMs + Max(DURATION_FRACTION * typical.durationMs, DURATION_FLOOR_MS)
    ensures forall f :: f in JudgeDuration(now, baseline) ==> f.signal == Duration
    ensures JudgePending(now, baseline) == []
    ensures JudgeQuarantine(now, baseline) != []
      <==> now.quarantineCount as real >= typical.quarantineCount as real + QUARANTINE_MARGIN
    ensures forall f :: f in JudgeQuarantine(now, baseline) ==> f.signal == QuarantineCount
  {
    SteadyValues(baseline, typical);
    hide Alike;
    ConstantStats(Durations(baseline), typical.durationMs);
    ConstantStats(Quarantines(baseline), typical.quarantineCount as real);
    hide Median, Band;
  }
}
