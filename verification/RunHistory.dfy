/**
 The two surfaces that show trend flags: the dashboard's /history body, built
 in one batch, and the command line, which evaluates records one by one.
 */
module RunHistory {
  import opened Options
  import opened TrendDetector

  const HISTORY_LIMIT := 50

  datatype Shown = Shown(record: Record, flagged: seq<Signal>)

  datatype Body = Body(runs: seq<Shown>, flags: seq<Flag>, suppressed: seq<Suppression>)

  /** validate, keep the valid, sort: what both surfaces read from the ledger file. */
  function ReadRuns(rows: seq<Row>): seq<Record> {
    StableSort(ValidOf(rows))
  }

  /** What is read: the valid records, sorted, none lost and none added. */
  lemma {:induction false} RunsAre(rows: seq<Row>)
    ensures Sorted(ReadRuns(rows)) && multiset(ReadRuns(rows)) == multiset(ValidOf(rows))
  {
    SortSorts(ValidOf(rows));
    hide StableSort, ValidOf, Sorted;
  }

  function Signals(flags: seq<Flag>): seq<Signal> {
    if flags == [] then [] else Signals(flags[..|flags| - 1]) + [flags[|flags| - 1].signal]
  }

  /** The last run that is complete. */
  function LatestComplete(runs: seq<Record>): Option<Record> {
    if runs == [] then None
    else if !runs[|runs| - 1].incomplete then Some(runs[|runs| - 1])
    else LatestComplete(runs[..|runs| - 1])
  }

  /** The verdict behind `history check`. */
  function CheckRuns(runs: seq<Record>, settings: Settings): Verdict {
    match LatestComplete(runs)
    case None => Verdict([], [])
    case Some(latest) => Evaluate(Rows(runs), Valid(latest), settings)
  }

  /** Entry i holds the signals of the i-th run in time order, judged against the ledger as it was written. */
  ghost predicate IsFlagsColumn(rows: seq<Row>, settings: Settings, column: seq<seq<Signal>>) {
    var runs := ReadRuns(rows);
    |column| == |runs| &&
    forall i :: 0 <= i < |runs| ==> column[i] == Signals(Evaluate(rows, Valid(runs[i]), settings).flags)
  }

  /** The flags column of the CSV export: every run against the sorted list of valid runs. */
  method ExportFlags(rows: seq<Row>, settings: Settings) returns (column: seq<seq<Signal>>)
    ensures IsFlagsColumn(rows, settings, column)
  {
    hide StableSort, ValidOf, Evaluate;
    var runs := ReadRuns(rows);
    column := [];
    for i := 0 to |runs|
      invariant |column| == i
      invariant forall k :: 0 <= k < i ==> column[k] == Signals(Evaluate(rows, Valid(runs[k]), settings).flags)
    {
      EvaluateReadsSorted(rows, runs, Valid(runs[i]), settings);
      column := column + [Signals(Evaluate(Rows(runs), Valid(runs[i]), settings).flags)];
    }
  }

  /** The index of the last complete run, searched from the end. */
  method LastIndexOfComplete(runs: seq<Record>) returns (last: int)
    ensures -1 <= last < |runs|
    ensures last >= 0 ==> !runs[last].incomplete && LatestComplete(runs) == Some(runs[last])
    ensures last < 0 ==> LatestComplete(runs) == None
  {
    last := |runs| - 1;
    assert runs[..last + 1] == runs;
    while last >= 0 && runs[last].incomplete
      invariant -1 <= last < |runs|
      invariant LatestComplete(runs) == LatestComplete(runs[..last + 1])
    {
      assert runs[..last + 1][..last] == runs[..last];
      last := last - 1;
    }
    if last >= 0 { assert runs[..last + 1][last] == runs[last]; }
  }

  /** The signals shown are those of the flags, in order. */
  lemma {:induction false} SignalsAre(flags: seq<Flag>)
    ensures |Signals(flags)| == |flags| && forall i :: 0 <= i < |flags| ==> Signals(flags)[i] == flags[i].signal
  {
    if flags != [] { SignalsAre(flags[..|flags| - 1]); }
  }

  /** `history check` judges the last complete run, run i; without one it has nothing to say. */
  lemma {:induction false} CheckedRunIs(runs: seq<Record>, i: nat, settings: Settings)
    requires forall j :: i < j < |runs| ==> runs[j].incomplete
    ensures i < |runs| && !runs[i].incomplete ==>
      CheckRuns(runs, settings) == Evaluate(Rows(runs), Valid(runs[i]), settings)
    ensures (forall j :: 0 <= j < |runs| ==> runs[j].incomplete) ==> CheckRuns(runs, settings) == Verdict([], [])
  {
    hide Evaluate;
    LatestIs(runs, i);
    hide LatestComplete;
  }

  lemma {:induction false} LatestIs(runs: seq<Record>, i: nat)
    requires forall j :: i < j < |runs| ==> runs[j].incomplete
    ensures i < |runs| && !runs[i].incomplete ==> LatestComplete(runs) == Some(runs[i])
    ensures (forall j :: 0 <= j < |runs| ==> runs[j].incomplete) ==> LatestComplete(runs) == None
  {
    if runs != [] && runs[|runs| - 1].incomplete {
      var init := runs[..|runs| - 1];
      assert LatestComplete(runs) == LatestComplete(init);
      hide LatestComplete;
      LatestIs(init, i);
    }
  }

  lemma IncompleteHasNoSignals(rows: seq<Row>, r: Record, settings: Settings)
    ensures r.incomplete ==> Signals(Evaluate(rows, Valid(r), settings).flags) == []
  {
  }

  /**
   The /history body. Row n is the n-th newest run with the flags of its own
   evaluation, and the body's flags are those `history check` reports, also
   when the latest complete run is older than every run shown.
   */
  ghost predicate IsHistoryBody(rows: seq<Row>, settings: Settings, body: Body) {
    var runs := ReadRuns(rows);
    |body.runs| == (if |runs| < 50 then |runs| else 50) &&
    (forall n :: 0 <= n < |body.runs| ==>
      body.runs[n] == Shown(runs[|runs| - 1 - n],
                            Signals(Evaluate(rows, Valid(runs[|runs| - 1 - n]), settings).flags))) &&
    Verdict(body.flags, body.suppressed) == CheckRuns(runs, settings)
  }

  method HistorySnapshot(rows: seq<Row>, settings: Settings) returns (body: Body)
    ensures IsHistoryBody(rows, settings, body)
  {
    hide StableSort, ValidOf, Evaluate;
    var runs := ReadRuns(rows);
    var lastComplete := LastIndexOfComplete(runs);
    var first := if |runs| > HISTORY_LIMIT then |runs| - HISTORY_LIMIT else 0;
    var indices: seq<int> := [];
    var i := |runs| - 1;
    while i >= first
      invariant first - 1 <= i < |runs|
      invariant |indices| == |runs| - 1 - i
      invariant forall n :: 0 <= n < |indices| ==> indices[n] == |runs| - 1 - n
    {
      indices := indices + [i];
      i := i - 1;
    }
    var shown := |indices|;
    if 0 <= lastComplete < first { indices := indices + [lastComplete]; }
    var results := EvaluateMany(rows, runs, indices, settings);

    var latest := Verdict([], []);
    if lastComplete >= 0 {
      latest := if lastComplete >= first then results[|runs| - 1 - lastComplete] else results[|results| - 1];
      EvaluateReadsSorted(rows, runs, Valid(runs[lastComplete]), settings);
    }
    assert latest == CheckRuns(runs, settings);
    hide CheckRuns, LatestComplete, Signals, Rows, ReadRuns;
    var recent: seq<Shown> := [];
    for n := 0 to shown
      invariant |recent| == n
      invariant forall k :: 0 <= k < n ==>
        recent[k] == Shown(runs[|runs| - 1 - k], Signals(Evaluate(rows, Valid(runs[|runs| - 1 - k]), settings).flags))
    {
      var record := runs[indices[n]];
      IncompleteHasNoSignals(rows, record, settings);
      recent := recent + [Shown(record, if record.incomplete then [] else Signals(results[n].flags))];
    }
    body := Body(recent, latest.flags, latest.suppressed);
  }

  lemma {:induction false} LatestCompleteIs(runs: seq<Record>, i: nat)
    requires i < |runs| && !runs[i].incomplete && forall j :: i < j < |runs| ==> runs[j].incomplete
    ensures LatestComplete(runs) == Some(runs[i])
  {
    if i < |runs| - 1 { LatestCompleteIs(runs[..|runs| - 1], i); }
  }

  /** The dashboard's own flags, in terms of the last complete run. */
  lemma {:induction false} LatestFlags(rows: seq<Row>, settings: Settings, body: Body, i: nat)
    requires IsHistoryBody(rows, settings, body) && i < |ReadRuns(rows)| && !ReadRuns(rows)[i].incomplete
    requires forall j :: i < j < |ReadRuns(rows)| ==> ReadRuns(rows)[j].incomplete
    ensures body.flags == Evaluate(rows, Valid(ReadRuns(rows)[i]), settings).flags
  {
    assert CheckRuns(ReadRuns(rows), settings).flags == body.flags;
    LatestCompleteIs(ReadRuns(rows), i);
    EvaluateReadsSorted(rows, ReadRuns(rows), Valid(ReadRuns(rows)[i]), settings);
    hide IsHistoryBody, ReadRuns, Evaluate, LatestComplete;
  }

  /**
   The three surfaces agree: every dashboard row carries the flags the CSV export writes for the same run, and the
   dashboard's own flags are those of the export's last complete run.
   */
  lemma {:induction false} ExportAgreesWithDashboard(rows: seq<Row>, settings: Settings, body: Body,
                                                     column: seq<seq<Signal>>)
    requires IsHistoryBody(rows, settings, body) && IsFlagsColumn(rows, settings, column)
    ensures var runs := ReadRuns(rows);
      (forall n :: 0 <= n < |body.runs| ==>
        body.runs[n].record == runs[|runs| - 1 - n] && body.runs[n].flagged == column[|runs| - 1 - n]) &&
      (forall i :: 0 <= i < |runs| && !runs[i].incomplete && (forall j :: i < j < |runs| ==> runs[j].incomplete) ==>
        Signals(body.flags) == column[i])
  {
    hide ReadRuns, Evaluate, CheckRuns, Signals;
    var runs := ReadRuns(rows);
    forall i | 0 <= i < |runs| && !runs[i].incomplete && forall j :: i < j < |runs| ==> runs[j].incomplete
      ensures Signals(body.flags) == column[i]
    {
      LatestFlags(rows, settings, body, i);
    }
  }
}
