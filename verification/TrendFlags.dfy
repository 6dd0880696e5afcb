/**
 What the trend flags mean, on the records themselves: the baseline a run is
 judged against, the median and the band around it, and each signal's limit.
 */
module TrendFlags {
  import opened Options
  import opened Positions
  import opened TrendDetector

  // ---------------------------------------------------------------------
  // The order of runs
  // ---------------------------------------------------------------------

  /** Text a is the beginning of b, or has the smaller character where they first differ, at position k. */
  predicate LessAt(a: string, b: string, k: nat) {
    && k <= |a| && k < |b| && a[..k] == b[..k] && (k == |a| || a[k] < b[k])
  }

  lemma FirstCharacters(a: string, b: string, k: nat)
    requires LessAt(a, b, k)
    ensures b != "" && (a != "" ==> a[0] < b[0] || (a[0] == b[0] && k > 0))
  {
    if k > 0 { assert a[..k][0] == b[..k][0]; }
  }

  lemma {:induction false} TextLessIff(a: string, b: string)
    ensures TextLess(a, b) <==> exists k: nat :: LessAt(a, b, k)
  {
    if a != "" && b != "" && a[0] == b[0] {
      TextLessIff(a[1..], b[1..]);
      if k: nat :| LessAt(a[1..], b[1..], k) {
        assert a[..k + 1] == [a[0]] + a[1..][..k] && b[..k + 1] == [b[0]] + b[1..][..k];
        assert LessAt(a, b, k + 1);
      }
      if k: nat :| LessAt(a, b, k) {
        assert a[..k][0] == b[..k][0] || k == 0;
        assert a[1..][..k - 1] == a[..k][1..] && b[1..][..k - 1] == b[..k][1..];
        assert LessAt(a[1..], b[1..], k - 1);
      }
    } else {
      if TextLess(a, b) { assert LessAt(a, b, 0); }
      if k: nat :| LessAt(a, b, k) { FirstCharacters(a, b, k); }
    }
  }

  /** A run that can serve as baseline for `now`: complete, comparable and strictly earlier. */
  predicate Qualifies(now: Record, r: Record) {
    && !r.incomplete && r.branch == now.branch && r.repetitions == now.repetitions
    && (TextLess(r.timestamp, now.timestamp) || (r.timestamp == now.timestamp && TextLess(r.runId, now.runId)))
  }

  lemma EligibleIff(now: Record, r: Record)
    ensures Eligible(now, r) <==> Qualifies(now, r)
  {
    TextOrder(r.timestamp, now.timestamp);
    TextOrder(r.runId, now.runId);
  }

  /** Every row's record that qualifies, in ledger order. */
  ghost predicate QualifyingAre(rows: seq<Row>, now: Record, at: seq<nat>, found: seq<Record>) {
    && Rising(at, |rows|)
    && (forall i :: 0 <= i < |rows| ==> (i in at <==> rows[i].Valid? && Qualifies(now, rows[i].record)))
    && |found| == |at| && (forall k :: 0 <= k < |at| ==> rows[at[k]] == Valid(found[k]))
  }

  lemma {:induction false} OneMoreRow(rows: seq<Row>, row: Row, now: Record, at: seq<nat>, found: seq<Record>)
    requires QualifyingAre(rows, now, at, found)
    ensures if row.Valid? && Qualifies(now, row.record)
      then QualifyingAre(rows + [row], now, at + [|rows|], found + [row.record])
      else QualifyingAre(rows + [row], now, at, found)
  {
    hide Qualifies;
    var more := at + [|rows|];
    forall i: nat | i < |rows| ensures i in more <==> i in at { }
    assert more[|at|] == |rows|;
    assert |rows| !in at;
  }

  lemma {:induction false} EligibleRows(rows: seq<Row>, now: Record) returns (at: seq<nat>)
    ensures QualifyingAre(rows, now, at, EligibleOf(now, ValidOf(rows)))
  {
    if rows == [] {
      at := [];
    } else {
      var init, row := rows[..|rows| - 1], rows[|rows| - 1];
      assert rows == init + [row];
      at := EligibleRows(init, now);
      OneMoreRow(init, row, now, at, EligibleOf(now, ValidOf(init)));
      EligibleRow(init, row, now);
      hide *;
      if row.Valid? && Qualifies(now, row.record) { at := at + [|init|]; }
    }
  }

  lemma {:induction false} EligibleRow(init: seq<Row>, row: Row, now: Record)
    ensures EligibleOf(now, ValidOf(init + [row])) == EligibleOf(now, ValidOf(init)) +
      if row.Valid? && Qualifies(now, row.record) then [row.record] else []
  {
    assert (init + [row])[..|init|] == init;
    var before := ValidOf(init);
    if row.Valid? {
      assert ValidOf(init + [row]) == before + [row.record];
      hide ValidOf, EligibleOf;
      EligibleStep(now, before, row.record);
      EligibleIff(now, row.record);
    } else {
      assert before + [] == before;
    }
  }

  /** The n latest of these runs, earliest first. */
  ghost predicate LatestOf(found: seq<Record>, n: nat, latest: seq<Record>) {
    exists older: seq<Record> :: SortedTogether(older, latest) && multiset(older + latest) == multiset(found) &&
      |latest| == if |found| < n then |found| else n
  }

  /** Both lists together are sorted. */
  ghost predicate SortedTogether(older: seq<Record>, latest: seq<Record>) {
    Sorted(older + latest)
  }

  /**
   What a record is judged against: the latest n valid records that qualify, and with that baseline the verdict is
   Judge's; unusable settings give 10 and 10.
   */
  lemma {:induction false} BaselineIs(rows: seq<Row>, now: Record, settings: Settings)
    returns (at: seq<nat>, found: seq<Record>, baseline: seq<Record>)
    requires !now.incomplete
    ensures QualifyingAre(rows, now, at, found)
    ensures LatestOf(found, if 1 <= settings.baselineN <= 500 then settings.baselineN else 10, baseline)
    ensures Evaluate(rows, Valid(now), settings) ==
      Judge(now, baseline, if 1 <= settings.minBaseline <= 500 then settings.minBaseline else 10)
  {
    at := EligibleRows(rows, now);
    found := EligibleOf(now, ValidOf(rows));
    var n: nat := if 1 <= settings.baselineN <= 500 then settings.baselineN else 10;
    baseline := LastN(StableSort(found), n);
    LatestAre(found, n);
    hide Judge, QualifyingAre, EligibleOf, ValidOf, LatestOf, StableSort, LastN;
  }

  lemma {:induction false} LatestAre(found: seq<Record>, n: nat)
    ensures LatestOf(found, n, LastN(StableSort(found), n))
  {
    var sorted := StableSort(found);
    var latest := LastN(sorted, n);
    SortSorts(found);
    hide StableSort, Sorted;
    assert |multiset(sorted)| == |sorted| && |multiset(found)| == |found|;
    var older := sorted[..|sorted| - |latest|];
    assert older + latest == sorted;
    assert SortedTogether(older, latest);
  }

  // ---------------------------------------------------------------------
  // The median and the band
  // ---------------------------------------------------------------------

  ghost predicate SortedCopy(s: seq<real>, values: seq<real>) {
    s != [] && Ascending(s) && multiset(s) == multiset(values)
  }

  /** The middle value of the sorted list, or the mean of the two middle ones. */
  ghost predicate IsMedian(values: seq<real>, m: real) {
    exists s :: SortedCopy(s, values) && 2.0 * m == s[(|s| - 1) / 2] + s[|s| / 2]
  }

  lemma {:induction false} InsertRealPermutes(s: seq<real>, v: real)
    ensures multiset(InsertReal(s, v)) == multiset(s) + multiset{v}
  {
    if s != [] && s[|s| - 1] > v {
      var init, last := s[..|s| - 1], s[|s| - 1];
      assert s == init + [last];
      InsertRealPermutes(init, v);
    }
  }

  lemma {:induction false} SortRealsPermutes(s: seq<real>)
    ensures multiset(SortReals(s)) == multiset(s)
  {
    if s != [] {
      var init, last := s[..|s| - 1], s[|s| - 1];
      assert s == init + [last];
      SortRealsPermutes(init);
      InsertRealPermutes(SortReals(init), last);
      hide InsertReal;
    }
  }

  lemma {:induction false} AscendingIsUnique(s: seq<real>, t: seq<real>)
    requires Ascending(s) && Ascending(t) && multiset(s) == multiset(t)
    ensures s == t
  {
    assert |multiset(s)| == |s| && |multiset(t)| == |t|;
    if s != [] {
      var n := |s| - 1;
      assert s == s[..n] + [s[n]] && t == t[..n] + [t[n]];
      LastsEqual(s, t);
      SameFronts(s[..n], t[..n], s[n]);
      AscendingIsUnique(s[..n], t[..n]);
    }
  }

  lemma {:induction false} LastsEqual(s: seq<real>, t: seq<real>)
    requires Ascending(s) && Ascending(t) && multiset(s) == multiset(t) && s != [] && t != []
    ensures s[|s| - 1] == t[|t| - 1]
  {
    assert s[|s| - 1] in multiset(t) && t[|t| - 1] in multiset(s);
  }

  lemma SameFronts(a: seq<real>, b: seq<real>, v: real)
    requires multiset(a + [v]) == multiset(b + [v])
    ensures multiset(a) == multiset(b)
  {
    assert multiset(a) == multiset(a + [v]) - multiset{v};
    assert multiset(b) == multiset(b + [v]) - multiset{v};
  }

  lemma {:induction false} MedianIff(values: seq<real>, m: real)
    requires values != []
    ensures IsMedian(values, m) <==> m == Median(values)
  {
    var sorted := SortReals(values);
    SortRealsKeeps(values, 0.0);
    SortRealsPermutes(values);
    hide SortReals, Ascending;
    assert |sorted| % 2 == 1 ==> (|sorted| - 1) / 2 == |sorted| / 2;
    assert |sorted| % 2 == 0 ==> (|sorted| - 1) / 2 == |sorted| / 2 - 1;
    assert SortedCopy(sorted, values);
    forall s | SortedCopy(s, values) ensures s == sorted { AscendingIsUnique(s, sorted); }
  }

  /** How far each value is from m. */
  function Distances(values: seq<real>, m: real): seq<real> {
    seq(|values|, i requires 0 <= i < |values| => if values[i] < m then m - values[i] else values[i] - m)
  }

  lemma {:induction false} DeviationsAre(values: seq<real>, m: real)
    ensures Deviations(values, m) == Distances(values, m)
  {
    if values != [] { DeviationsAre(values[..|values| - 1], m); }
  }

  /** m is the usual value, and values within 3 * 1.4826 times the median distance from it are not unusual. */
  ghost predicate Usual(values: seq<real>, m: real, band: real) {
    IsMedian(values, m) && exists mad :: IsMedian(Distances(values, m), mad) && band == 3.0 * 1.4826 * mad
  }

  lemma {:induction false} UsualIff(values: seq<real>, m: real, band: real)
    requires values != []
    ensures Usual(values, m, band) <==> m == Median(values) && band == Band(values)
  {
    MedianIff(values, m);
    DeviationsAre(values, m);
    hide Median, IsMedian, Deviations;
    forall mad ensures IsMedian(Distances(values, m), mad) <==> mad == Median(Distances(values, m)) {
      MedianIff(Distances(values, m), mad);
    }
    assert 3.0 * 1.4826 == 4.4478;
    if m == Median(values) && band == Band(values) {
      assert IsMedian(Distances(values, m), Median(Distances(values, m)));
    }
  }

  // ---------------------------------------------------------------------
  // The values a run is compared by
  // ---------------------------------------------------------------------

  /** Heals per verified scenario; passes per decided one, quarantined ones left out; none where there is nothing. */
  lemma {:induction false} RateIs(r: Record)
    ensures var verified := r.counts.passed + r.counts.failed + r.counts.quarantined + r.counts.unavailable;
      && (Rate(HealRate, r).Some? <==> verified > 0)
      && (verified > 0 ==> Rate(HealRate, r).value * verified as real == r.heals as real)
    ensures var decided := r.counts.passed + r.counts.failed + r.counts.unavailable;
      && (Rate(PassRate, r).Some? <==> decided > 0)
      && (decided > 0 ==> Rate(PassRate, r).value * decided as real == r.counts.passed as real)
  {
  }

  /** The rates of the records that have one, in order. */
  ghost predicate RatesAt(signal: Signal, s: seq<Record>, at: seq<nat>, values: seq<real>) {
    && Rising(at, |s|) && (forall i :: 0 <= i < |s| ==> (i in at <==> Rate(signal, s[i]).Some?))
    && |values| == |at| && (forall k :: 0 <= k < |at| ==> Rate(signal, s[at[k]]) == Some(values[k]))
  }

  lemma {:induction false} RatesAre(signal: Signal, s: seq<Record>) returns (at: seq<nat>)
    ensures RatesAt(signal, s, at, Rates(signal, s))
  {
    at := [];
    if s != [] {
      var init, r := s[..|s| - 1], s[|s| - 1];
      assert s == init + [r];
      at := RatesAre(signal, init);
      OneMoreRate(signal, init, r, at, Rates(signal, init));
      hide Rate, RatesAt;
      assert Rates(signal, init) + [] == Rates(signal, init);
      if Rate(signal, r).Some? { at := at + [|init|]; }
    }
  }

  lemma {:induction false} OneMoreRate(signal: Signal, s: seq<Record>, r: Record, at: seq<nat>, values: seq<real>)
    requires RatesAt(signal, s, at, values)
    ensures match Rate(signal, r)
      case Some(v) => RatesAt(signal, s + [r], at + [|s|], values + [v])
      case None => RatesAt(signal, s + [r], at, values)
  {
    hide Rate;
    var more := at + [|s|];
    forall i: nat | i < |s| ensures i in more <==> i in at { }
    assert more[|at|] == |s|;
    assert |s| !in at;
  }

  /** The page counts of the records that have one, in order. */
  ghost predicate CoveragesAt(s: seq<Record>, at: seq<nat>, values: seq<real>) {
    && Rising(at, |s|) && (forall i :: 0 <= i < |s| ==> (i in at <==> s[i].pagesTested.Some?))
    && |values| == |at|
    && (forall k :: 0 <= k < |at| ==> s[at[k]].pagesTested.Some? && values[k] == s[at[k]].pagesTested.value as real)
  }

  lemma {:induction false} CoveragesAre(s: seq<Record>) returns (at: seq<nat>)
    ensures CoveragesAt(s, at, Coverages(s))
  {
    at := [];
    if s != [] {
      var init, r := s[..|s| - 1], s[|s| - 1];
      assert s == init + [r];
      at := CoveragesAre(init);
      OneMoreCoverage(init, r, at, Coverages(init));
      hide CoveragesAt;
      assert Coverages(init) + [] == Coverages(init);
      if r.pagesTested.Some? { at := at + [|init|]; }
    }
  }

  lemma {:induction false} OneMoreCoverage(s: seq<Record>, r: Record, at: seq<nat>, values: seq<real>)
    requires CoveragesAt(s, at, values)
    ensures match r.pagesTested
      case Some(n) => CoveragesAt(s + [r], at + [|s|], values + [n as real])
      case None => CoveragesAt(s + [r], at, values)
  {
    var more := at + [|s|];
    forall i: nat | i < |s| ensures i in more <==> i in at { }
    assert more[|at|] == |s|;
    assert |s| !in at;
  }

  /** Coverage is reduced without a page count, or with fewer pages than 80% of the usual number. */
  lemma {:induction false} CoverageReducedIff(now: Record, baseline: seq<Record>)
    returns (at: seq<nat>, values: seq<real>, m: real)
    ensures CoveragesAt(baseline, at, values) && (values != [] ==> IsMedian(values, m))
    ensures CoverageReduced(now, baseline) <==>
      now.pagesTested == None || (values != [] && now.pagesTested.value as real < 0.8 * m)
  {
    at := CoveragesAre(baseline);
    values, m := Coverages(baseline), 0.0;
    if values != [] {
      m := Median(values);
      MedianIff(values, m);
    }
    hide IsMedian, Median, Coverages, CoveragesAt;
  }

  function DurationsOf(s: seq<Record>): seq<real> {
    seq(|s|, i requires 0 <= i < |s| => s[i].durationMs)
  }

  function PendingsOf(s: seq<Record>): seq<real> {
    seq(|s|, i requires 0 <= i < |s| => s[i].pendingDepth as real)
  }

  function QuarantinesOf(s: seq<Record>): seq<real> {
    seq(|s|, i requires 0 <= i < |s| => s[i].quarantineCount as real)
  }

  lemma {:induction false} LevelsAre(s: seq<Record>)
    ensures Durations(s) == DurationsOf(s) && Pendings(s) == PendingsOf(s) && Quarantines(s) == QuarantinesOf(s)
  {
    if s != [] { LevelsAre(s[..|s| - 1]); }
  }

  // ---------------------------------------------------------------------
  // What is flagged
  // ---------------------------------------------------------------------

  function Larger(a: real, b: real): real {
    if a > b then a else b
  }

  /** A run that is judged at all: enough comparable runs, and coverage not reduced. */
  predicate Judged(now: Record, baseline: seq<Record>, minBaseline: nat) {
    1 <= minBaseline <= |baseline| && !CoverageReduced(now, baseline)
  }

  /** The signal is flagged exactly if `raised`, and then with these figures only. */
  ghost predicate FlaggedIf(v: Verdict, raised: bool, flag: Flag) {
    (Flagged(v, flag.signal) <==> raised) && forall f :: f in v.flags && f.signal == flag.signal ==> f == flag
  }

  /** What is not judged is not flagged, and says why; a rate without enough usable values is left out alone. */
  lemma {:induction false} SuppressedIs(now: Record, baseline: seq<Record>, minBaseline: nat)
    requires minBaseline >= 1
    ensures var v := Judge(now, baseline, minBaseline);
      var missing := (signal: Signal) => Rate(signal, now).Some? && |Rates(signal, baseline)| < minBaseline;
      && (!Judged(now, baseline, minBaseline) ==> v.flags == [])
      && v.suppressed ==
        if |baseline| < minBaseline then [InsufficientBaseline]
        else if CoverageReduced(now, baseline) then [ReducedCoverage]
        else (if missing(HealRate) then [InsufficientBaselineFor(HealRate)] else []) +
             (if missing(PassRate) then [InsufficientBaselineFor(PassRate)] else [])
  {
    hide Rate, Rates, Median, Band, JudgeDuration, JudgePending, JudgeQuarantine, CoverageReduced;
  }

  lemma {:induction false} RatePart(signal: Signal, now: Record, baseline: seq<Record>, minBaseline: nat)
    requires minBaseline >= 1 && (signal == HealRate || signal == PassRate)
    ensures forall f :: f in JudgeRate(signal, now, baseline, minBaseline).flags ==> f.signal == signal
  {
    hide Rate, Rates, Median, Band;
  }

  lemma {:induction false} LevelParts(now: Record, baseline: seq<Record>)
    requires baseline != []
    ensures forall f :: f in JudgeDuration(now, baseline) ==> f.signal == Duration
    ensures forall f :: f in JudgePending(now, baseline) ==> f.signal == PendingDepth
    ensures forall f :: f in JudgeQuarantine(now, baseline) ==> f.signal == QuarantineCount
  {
    hide Median, Band;
  }

  /** A verdict's flags of one signal are those of that signal's rule. */
  lemma {:induction false} FlagsBySignal(now: Record, baseline: seq<Record>, minBaseline: nat, f: Flag)
    requires minBaseline >= 1 && Judged(now, baseline, minBaseline)
    ensures f in Judge(now, baseline, minBaseline).flags <==>
      match f.signal
      case HealRate => f in JudgeRate(HealRate, now, baseline, minBaseline).flags
      case PassRate => f in JudgeRate(PassRate, now, baseline, minBaseline).flags
      case Duration => f in JudgeDuration(now, baseline)
      case PendingDepth => f in JudgePending(now, baseline)
      case QuarantineCount => f in JudgeQuarantine(now, baseline)
  {
    RatePart(HealRate, now, baseline, minBaseline);
    RatePart(PassRate, now, baseline, minBaseline);
    LevelParts(now, baseline);
    hide JudgeRate, JudgeDuration, JudgePending, JudgeQuarantine, CoverageReduced;
  }

  lemma {:induction false} FlaggedAs(now: Record, baseline: seq<Record>, minBaseline: nat, raised: bool, flag: Flag,
                                     part: seq<Flag>)
    requires minBaseline >= 1 && Judged(now, baseline, minBaseline)
    requires part == match flag.signal
      case HealRate => JudgeRate(HealRate, now, baseline, minBaseline).flags
      case PassRate => JudgeRate(PassRate, now, baseline, minBaseline).flags
      case Duration => JudgeDuration(now, baseline)
      case PendingDepth => JudgePending(now, baseline)
      case QuarantineCount => JudgeQuarantine(now, baseline)
    requires part == if raised then [flag] else []
    ensures FlaggedIf(Judge(now, baseline, minBaseline), raised, flag)
  {
    hide *;
    var v := Judge(now, baseline, minBaseline);
    forall f: Flag | f.signal == flag.signal ensures f in v.flags <==> f in part {
      FlagsBySignal(now, baseline, minBaseline, f);
    }
    OneFlag(v, raised, flag, part);
  }

  lemma {:induction false} OneFlag(v: Verdict, raised: bool, flag: Flag, part: seq<Flag>)
    requires forall f: Flag :: f.signal == flag.signal ==> (f in v.flags <==> f in part)
    requires part == if raised then [flag] else []
    ensures FlaggedIf(v, raised, flag)
  {
    if raised { assert flag in v.flags; }
  }

  lemma HealRatePart(now: Record, baseline: seq<Record>, minBaseline: nat, value: real)
    requires minBaseline >= 1 && Rate(HealRate, now) == Some(value) && |Rates(HealRate, baseline)| >= minBaseline
    ensures var m, band := Median(Rates(HealRate, baseline)), Band(Rates(HealRate, baseline));
      var limit := m + Larger(band, 0.05);
      JudgeRate(HealRate, now, baseline, minBaseline).flags ==
        if value >= 0.1 && value > limit then [Flag(HealRate, value, m, limit)] else []
  {
    hide Rate, Rates, Median, Band;
  }

  /** Flagged: at least 10% healed, and more than the usual rate by both the band and 5 points. */
  lemma {:induction false} HealRateFlaggedIff(now: Record, baseline: seq<Record>, minBaseline: nat, value: real)
    returns (m: real, band: real)
    requires minBaseline >= 1 && Judged(now, baseline, minBaseline)
    requires Rate(HealRate, now) == Some(value) && |Rates(HealRate, baseline)| >= minBaseline
    ensures Usual(Rates(HealRate, baseline), m, band)
    ensures var limit := m + Larger(band, 0.05);
      FlaggedIf(Judge(now, baseline, minBaseline), value >= 0.1 && value > limit, Flag(HealRate, value, m, limit))
  {
    hide *;
    m, band := Median(Rates(HealRate, baseline)), Band(Rates(HealRate, baseline));
    UsualIff(Rates(HealRate, baseline), m, band);
    HealRatePart(now, baseline, minBaseline, value);
    var limit := m + Larger(band, 0.05);
    FlaggedAs(now, baseline, minBaseline, value >= 0.1 && value > limit, Flag(HealRate, value, m, limit),
              JudgeRate(HealRate, now, baseline, minBaseline).flags);
  }

  lemma PassRatePart(now: Record, baseline: seq<Record>, minBaseline: nat, value: real)
    requires minBaseline >= 1 && Rate(PassRate, now) == Some(value) && |Rates(PassRate, baseline)| >= minBaseline
    ensures var m, band := Median(Rates(PassRate, baseline)), Band(Rates(PassRate, baseline));
      var limit := m - Larger(band, 0.1);
      JudgeRate(PassRate, now, baseline, minBaseline).flags ==
        if value < 0.95 && value < limit then [Flag(PassRate, value, m, limit)] else []
  {
    hide Rate, Rates, Median, Band;
  }

  /** Flagged: under 95% passed, and less than the usual rate by both the band and 10 points. */
  lemma {:induction false} PassRateFlaggedIff(now: Record, baseline: seq<Record>, minBaseline: nat, value: real)
    returns (m: real, band: real)
    requires minBaseline >= 1 && Judged(now, baseline, minBaseline)
    requires Rate(PassRate, now) == Some(value) && |Rates(PassRate, baseline)| >= minBaseline
    ensures Usual(Rates(PassRate, baseline), m, band)
    ensures var limit := m - Larger(band, 0.1);
      FlaggedIf(Judge(now, baseline, minBaseline), value < 0.95 && value < limit, Flag(PassRate, value, m, limit))
  {
    hide *;
    m, band := Median(Rates(PassRate, baseline)), Band(Rates(PassRate, baseline));
    UsualIff(Rates(PassRate, baseline), m, band);
    PassRatePart(now, baseline, minBaseline, value);
    var limit := m - Larger(band, 0.1);
    FlaggedAs(now, baseline, minBaseline, value < 0.95 && value < limit, Flag(PassRate, value, m, limit),
              JudgeRate(PassRate, now, baseline, minBaseline).flags);
  }

  /** A malformed or incomplete record is not judged. */
  lemma UnjudgedIs(rows: seq<Row>, settings: Settings)
    ensures Evaluate(rows, Malformed, settings) == Verdict([], [InvalidCurrent])
    ensures forall r: Record :: r.incomplete ==> Evaluate(rows, Valid(r), settings) == Verdict([], [IncompleteRun])
  {
  }

  /** A rate that is undefined now, or on too many baseline runs, is not flagged. */
  lemma {:induction false} UnknownRateIsNotFlagged(signal: Signal, now: Record, baseline: seq<Record>, minBaseline: nat)
    requires minBaseline >= 1 && Judged(now, baseline, minBaseline) && (signal == HealRate || signal == PassRate)
    requires Rate(signal, now) == None || |Rates(signal, baseline)| < minBaseline
    ensures !Flagged(Judge(now, baseline, minBaseline), signal)
  {
    var flag := Flag(signal, 0.0, 0.0, 0.0);
    FlaggedAs(now, baseline, minBaseline, false, flag, JudgeRate(signal, now, baseline, minBaseline).flags);
    hide Judge, Rate, Rates, Median, Band;
  }

  lemma DurationPart(now: Record, baseline: seq<Record>)
    requires baseline != []
    ensures var m, band := Median(Durations(baseline)), Band(Durations(baseline));
      var margin := Larger(Larger(band, 0.25 * m), 30000.0);
      JudgeDuration(now, baseline) ==
        if now.durationMs > m + margin then [Flag(Duration, now.durationMs, m, m + margin)] else []
  {
    hide Median, Band;
  }

  /** Flagged: longer than usual by more than the band, a quarter of the usual time, and 30 seconds. */
  lemma {:induction false} DurationFlaggedIff(now: Record, baseline: seq<Record>, minBaseline: nat)
    returns (m: real, band: real)
    requires baseline != [] && minBaseline >= 1 && Judged(now, baseline, minBaseline)
    ensures Usual(DurationsOf(baseline), m, band)
    ensures var margin := Larger(Larger(band, 0.25 * m), 30000.0);
      FlaggedIf(Judge(now, baseline, minBaseline), now.durationMs > m + margin,
                Flag(Duration, now.durationMs, m, m + margin))
  {
    hide *;
    LevelsAre(baseline);
    m, band := Median(Durations(baseline)), Band(Durations(baseline));
    UsualIff(Durations(baseline), m, band);
    DurationPart(now, baseline);
    var margin := Larger(Larger(band, 0.25 * m), 30000.0);
    FlaggedAs(now, baseline, minBaseline, now.durationMs > m + margin, Flag(Duration, now.durationMs, m, m + margin),
              JudgeDuration(now, baseline));
  }

  lemma PendingAt(baseline: seq<Record>)
    ensures forall i :: 0 <= i < |baseline| ==> Pendings(baseline)[i] == baseline[i].pendingDepth as real
  {
    LevelsAre(baseline);
  }

  lemma PendingPart(now: Record, baseline: seq<Record>)
    requires baseline != []
    ensures var pending, n, depth := Pendings(baseline), |baseline|, now.pendingDepth as real;
      var m := Median(pending);
      var rising := n >= 2 && pending[n - 2] < pending[n - 1] && pending[n - 1] < depth;
      JudgePending(now, baseline) ==
        if depth >= m + 5.0 && rising then [Flag(PendingDepth, depth, m, m + 5.0)] else []
  {
    hide Median, Pendings;
  }

  /** Depths rise as numbers exactly if they rise as reals. */
  lemma {:induction false} DepthsRise(now: Record, baseline: seq<Record>)
    requires |baseline| >= 2
    ensures var pending, n := Pendings(baseline), |baseline|;
      (pending[n - 2] < pending[n - 1] && pending[n - 1] < now.pendingDepth as real) <==>
      baseline[n - 2].pendingDepth < baseline[n - 1].pendingDepth < now.pendingDepth
  {
    PendingAt(baseline);
    var n := |baseline|;
    hide Pendings;
    SameOrder(baseline[n - 2].pendingDepth, baseline[n - 1].pendingDepth);
    SameOrder(baseline[n - 1].pendingDepth, now.pendingDepth);
  }

  lemma SameOrder(a: nat, b: nat)
    ensures a as real < b as real <==> a < b
  {
  }

  /** Flagged: at least 5 above the median depth, at the end of a strict rise over the last two runs. */
  lemma {:induction false} PendingFlaggedIff(now: Record, baseline: seq<Record>, minBaseline: nat) returns (m: real)
    requires baseline != [] && minBaseline >= 1 && Judged(now, baseline, minBaseline)
    ensures IsMedian(PendingsOf(baseline), m)
    ensures var n, depth := |baseline|, now.pendingDepth;
      FlaggedIf(Judge(now, baseline, minBaseline),
                n >= 2 && baseline[n - 2].pendingDepth < baseline[n - 1].pendingDepth < depth &&
                depth as real >= m + 5.0,
                Flag(PendingDepth, depth as real, m, m + 5.0))
  {
    hide *;
    LevelsAre(baseline);
    m := Median(Pendings(baseline));
    MedianIff(Pendings(baseline), m);
    PendingPart(now, baseline);
    if |baseline| >= 2 { DepthsRise(now, baseline); }
    var n, depth := |baseline|, now.pendingDepth;
    FlaggedAs(now, baseline, minBaseline,
              n >= 2 && baseline[n - 2].pendingDepth < baseline[n - 1].pendingDepth < depth && depth as real >= m + 5.0,
              Flag(PendingDepth, depth as real, m, m + 5.0), JudgePending(now, baseline));
  }

  lemma QuarantinePart(now: Record, baseline: seq<Record>)
    requires baseline != []
    ensures var m, count := Median(Quarantines(baseline)), now.quarantineCount as real;
      JudgeQuarantine(now, baseline) == if count >= m + 2.0 then [Flag(QuarantineCount, count, m, m + 2.0)] else []
  {
    hide Median;
  }

  /** Flagged: at least 2 above the median number of quarantined scenarios. */
  lemma {:induction false} QuarantineFlaggedIff(now: Record, baseline: seq<Record>, minBaseline: nat) returns (m: real)
    requires baseline != [] && minBaseline >= 1 && Judged(now, baseline, minBaseline)
    ensures IsMedian(QuarantinesOf(baseline), m)
    ensures var count := now.quarantineCount as real;
      FlaggedIf(Judge(now, baseline, minBaseline), count >= m + 2.0, Flag(QuarantineCount, count, m, m + 2.0))
  {
    hide *;
    LevelsAre(baseline);
    m := Median(Quarantines(baseline));
    MedianIff(Quarantines(baseline), m);
    QuarantinePart(now, baseline);
    var count := now.quarantineCount as real;
    FlaggedAs(now, baseline, minBaseline, count >= m + 2.0, Flag(QuarantineCount, count, m, m + 2.0),
              JudgeQuarantine(now, baseline));
  }
}
