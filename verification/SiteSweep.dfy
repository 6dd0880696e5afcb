/**
 A whole-site sweep: which pages are visited, which scenarios run on which
 page, and what the report may claim about scenarios that did not run again.
 The browser is an input: `Visit` says how a page behaved.
 */
module SiteSweep {
  import opened Options
  import opened Positions

  datatype Scenario = Scenario(action: string, locator: string, value: string, description: string)

  datatype Status = Passed | Failed | Skipped | Quarantined | Unavailable | Deduplicated

  datatype Result = Result(name: string, status: Status, firstRunOn: Option<string>)

  datatype PageStatus = NotVisited | Tested | Unreachable

  datatype Record = Record(
    url: string, status: PageStatus, reason: Option<string>,
    generated: nat, deduplicated: nat, results: seq<Result>)

  datatype Settings = Settings(dedupe: bool, repeat: int)

  /** How the plan ran: to the end, or up to an error after so many rows; `verdict(t)` is the status of row t. */
  datatype Execution = Completed(verdict: nat -> Status) | Crashed(rows: nat, verdict: nat -> Status, message: string)

  /** How a page behaved: it did not load, broke before its scenarios were known, or ran them. */
  datatype Visit =
    | NoLoad(message: string)
    | NoPlan(message: string)
    | Ran(scenarios: seq<Scenario>, execution: Execution)

  // ---------------------------------------------------------------------
  // Signatures
  // ---------------------------------------------------------------------

  function Join(a: string, z: string): string {
    a + "::" + z
  }

  /** The four fields joined by "::". */
  function SignatureOf(s: Scenario): string {
    Join(s.action, Join(s.locator, Join(s.value, s.description)))
  }

  lemma {:induction false} JoinLaws(a: string, b: string, c: string)
    ensures Join(Join(a, b), c) == Join(a, Join(b, c))
    ensures Join(a + ":", b) == Join(a, ":" + b)
    ensures Join(":" + a, b) == ":" + Join(a, b)
  {
    assert Join(Join(a, b), c) == Join(a, Join(b, c));
    assert Join(a + ":", b) == Join(a, ":" + b);
    assert Join(":" + a, b) == ":" + Join(a, b);
  }

  predicate SeparatorAt(t: string, i: nat) {
    i + 1 < |t| && t[i] == t[i + 1] == ':'
  }

  ghost predicate HasDoubleColon(t: string) {
    exists i: nat :: SeparatorAt(t, i)
  }

  predicate StartsWithColon(t: string) {
    t != "" && t[0] == ':'
  }

  predicate EndsWithColon(t: string) {
    t != "" && t[|t| - 1] == ':'
  }

  /** No field can be confused with a separator. */
  ghost predicate Unambiguous(s: Scenario) {
    !HasDoubleColon(s.action) && !HasDoubleColon(s.locator) && !HasDoubleColon(s.value) &&
    !HasDoubleColon(s.description) &&
    !EndsWithColon(s.action) && !EndsWithColon(s.locator) && !EndsWithColon(s.value) &&
    !StartsWithColon(s.locator) && !StartsWithColon(s.value) && !StartsWithColon(s.description)
  }

  /** A separator that starts no earlier than a clean field starts after the field's end. */
  lemma {:induction false} NotBeforeEnd(t: string, lo: nat, hi: nat, q: nat)
    requires lo <= hi <= |t| && lo <= q && q + 2 <= |t| && t[q] == ':' && t[q + 1] == ':'
    requires !HasDoubleColon(t[lo..hi]) && !EndsWithColon(t[lo..hi])
    ensures q >= hi
  {
    var f := t[lo..hi];
    if q < hi {
      assert f[q - lo] == ':';
      assert q + 1 < hi ==> SeparatorAt(f, q - lo);
    }
  }

  /** A separator that ends no later than a clean field ends before the field's start. */
  lemma {:induction false} NotAfterStart(t: string, lo: nat, hi: nat, q: nat)
    requires lo <= hi <= |t| && q + 2 <= hi && t[q] == ':' && t[q + 1] == ':'
    requires !HasDoubleColon(t[lo..hi]) && !StartsWithColon(t[lo..hi])
    ensures q + 2 <= lo
  {
    var f := t[lo..hi];
    if q + 1 >= lo {
      assert f[q + 1 - lo] == ':';
      assert q >= lo ==> SeparatorAt(f, q - lo);
    }
  }

  /** Where the fields lie in a signature. */
  lemma {:induction false} FieldsOf(s: Scenario, t: string, p: nat, q: nat, r: nat)
    requires t == SignatureOf(s)
    requires p == |s.action| && q == p + 2 + |s.locator| && r == q + 2 + |s.value|
    ensures r + 2 + |s.description| == |t|
    ensures t[..p] == s.action && t[p + 2..q] == s.locator && t[q + 2..r] == s.value && t[r + 2..] == s.description
    ensures t[p] == t[p + 1] == t[q] == t[q + 1] == t[r] == t[r + 1] == ':'
  {
  }

  /** Any three separators lie where a clean cut has its own. */
  lemma {:induction false} CutsAgree(t: string, p: nat, q: nat, r: nat, p': nat, q': nat, r': nat)
    requires p + 2 <= q && q + 2 <= r && r + 2 <= |t| && p' + 2 <= q' && q' + 2 <= r' && r' + 2 <= |t|
    requires SeparatorAt(t, p') && SeparatorAt(t, q') && SeparatorAt(t, r')
    requires !HasDoubleColon(t[0..p]) && !HasDoubleColon(t[p + 2..q]) && !HasDoubleColon(t[q + 2..r]) &&
      !HasDoubleColon(t[r + 2..|t|])
    requires !EndsWithColon(t[0..p]) && !EndsWithColon(t[p + 2..q]) && !EndsWithColon(t[q + 2..r])
    requires !StartsWithColon(t[p + 2..q]) && !StartsWithColon(t[q + 2..r]) && !StartsWithColon(t[r + 2..|t|])
    ensures p == p' && q == q' && r == r'
  {
    hide HasDoubleColon, StartsWithColon, EndsWithColon;
    NotBeforeEnd(t, 0, p, p');
    NotBeforeEnd(t, p + 2, q, q');
    NotBeforeEnd(t, q + 2, r, r');
    NotAfterStart(t, r + 2, |t|, r');
    NotAfterStart(t, q + 2, r, q');
    NotAfterStart(t, p + 2, q, p');
  }

  /** A scenario without ambiguous fields is the only one with its signature. */
  lemma {:induction false} UnambiguousIsUnique(s: Scenario, other: Scenario)
    requires Unambiguous(s) && SignatureOf(other) == SignatureOf(s)
    ensures other == s
  {
    var t := SignatureOf(s);
    var p := |s.action|;
    var q := p + 2 + |s.locator|;
    var r := q + 2 + |s.value|;
    var p' := |other.action|;
    var q' := p' + 2 + |other.locator|;
    var r' := q' + 2 + |other.value|;
    hide SignatureOf, HasDoubleColon, StartsWithColon, EndsWithColon;
    FieldsOf(s, t, p, q, r);
    FieldsOf(other, t, p', q', r');
    assert t[0..p] == t[..p] && t[r + 2..|t|] == t[r + 2..];
    CutsAgree(t, p, q, r, p', q', r');
  }

  /** A field holding a separator can be cut there, giving a different scenario with the same signature. */
  lemma {:induction false} AmbiguousDoubleColon(s: Scenario, i: nat)
    requires SeparatorAt(s.action, i) || SeparatorAt(s.locator, i) || SeparatorAt(s.value, i) ||
      SeparatorAt(s.description, i)
    ensures exists other: Scenario :: other != s && SignatureOf(other) == SignatureOf(s)
  {
    var a, l, v, d := s.action, s.locator, s.value, s.description;
    var t := if SeparatorAt(a, i) then a else if SeparatorAt(l, i) then l else if SeparatorAt(v, i) then v else d;
    var x, y := t[..i], t[i + 2..];
    assert t == Join(x, y);
    assert |Join(v, d)| > |d| && |Join(v, x)| > |v|;
    JoinLaws(x, y, Join(l, Join(v, d)));
    JoinLaws(x, y, Join(v, d));
    JoinLaws(x, y, d);
    JoinLaws(v, x, y);
    hide Join;
    var other :=
      if SeparatorAt(a, i) then Scenario(x, y, l, Join(v, d))
      else if SeparatorAt(l, i) then Scenario(a, x, y, Join(v, d))
      else if SeparatorAt(v, i) then Scenario(a, l, x, Join(y, d))
      else Scenario(a, l, Join(v, x), y);
    assert SignatureOf(other) == SignatureOf(s);
    assert |x| < |t|;
  }

  /** A colon moves freely across a separator. */
  lemma {:induction false} ColonMoves(a: string, l: string, v: string, d: string)
    ensures SignatureOf(Scenario(a + ":", l, v, d)) == SignatureOf(Scenario(a, ":" + l, v, d))
    ensures SignatureOf(Scenario(a, l + ":", v, d)) == SignatureOf(Scenario(a, l, ":" + v, d))
    ensures SignatureOf(Scenario(a, l, v + ":", d)) == SignatureOf(Scenario(a, l, v, ":" + d))
  {
    JoinLaws(a, Join(l, Join(v, d)), "");
    JoinLaws(l, Join(v, d), "");
    JoinLaws(v, d, "");
    hide Join;
  }

  lemma {:induction false} Trimmed(t: string)
    ensures EndsWithColon(t) ==> t == t[..|t| - 1] + ":"
    ensures StartsWithColon(t) ==> t == ":" + t[1..]
  {
  }

  /** A colon at the end of a field can be moved to the start of the next one. */
  lemma {:induction false} AmbiguousEnd(s: Scenario) returns (other: Scenario)
    requires EndsWithColon(s.action) || EndsWithColon(s.locator) || EndsWithColon(s.value)
    ensures other != s && SignatureOf(other) == SignatureOf(s)
  {
    var a, l, v, d := s.action, s.locator, s.value, s.description;
    Trimmed(a);
    Trimmed(l);
    Trimmed(v);
    hide SignatureOf;
    if EndsWithColon(a) {
      other := Scenario(a[..|a| - 1], ":" + l, v, d);
      assert |other.locator| > |l|;
      ColonMoves(a[..|a| - 1], l, v, d);
    } else if EndsWithColon(l) {
      other := Scenario(a, l[..|l| - 1], ":" + v, d);
      assert |other.value| > |v|;
      ColonMoves(a, l[..|l| - 1], v, d);
    } else {
      other := Scenario(a, l, v[..|v| - 1], ":" + d);
      assert |other.description| > |d|;
      ColonMoves(a, l, v[..|v| - 1], d);
    }
  }

  /** And back. */
  lemma {:induction false} AmbiguousStart(s: Scenario) returns (other: Scenario)
    requires StartsWithColon(s.locator) || StartsWithColon(s.value) || StartsWithColon(s.description)
    ensures other != s && SignatureOf(other) == SignatureOf(s)
  {
    var a, l, v, d := s.action, s.locator, s.value, s.description;
    Trimmed(l);
    Trimmed(v);
    Trimmed(d);
    hide SignatureOf;
    if StartsWithColon(l) {
      other := Scenario(a + ":", l[1..], v, d);
      assert |other.action| > |a|;
      ColonMoves(a, l[1..], v, d);
    } else if StartsWithColon(v) {
      other := Scenario(a, l + ":", v[1..], d);
      assert |other.locator| > |l|;
      ColonMoves(a, l, v[1..], d);
    } else {
      other := Scenario(a, l, v + ":", d[1..]);
      assert |other.value| > |v|;
      ColonMoves(a, l, v, d[1..]);
    }
  }

  /** A signature identifies its scenario exactly when no field can be confused with a separator. */
  lemma {:induction false} SignatureIdentifiesIff(s: Scenario)
    ensures (forall other: Scenario :: SignatureOf(other) == SignatureOf(s) ==> other == s) <==> Unambiguous(s)
  {
    if Unambiguous(s) {
      forall other: Scenario | SignatureOf(other) == SignatureOf(s) ensures other == s {
        UnambiguousIsUnique(s, other);
      }
    } else if HasDoubleColon(s.action) || HasDoubleColon(s.locator) || HasDoubleColon(s.value) ||
        HasDoubleColon(s.description) {
      var t := if HasDoubleColon(s.action) then s.action else if HasDoubleColon(s.locator) then s.locator
               else if HasDoubleColon(s.value) then s.value else s.description;
      var i: nat :| SeparatorAt(t, i);
      AmbiguousDoubleColon(s, i);
    } else if EndsWithColon(s.action) || EndsWithColon(s.locator) || EndsWithColon(s.value) {
      var other := AmbiguousEnd(s);
      assert other != s;
    } else {
      var other := AmbiguousStart(s);
      assert other != s;
    }
  }

  // ---------------------------------------------------------------------
  // Claims
  // ---------------------------------------------------------------------

  datatype Split = Split(kept: seq<Scenario>, deduped: seq<Result>, seen: map<string, string>)

  /** The first scenario with a signature claims it for the page; every other one becomes a reporting row. */
  function Dedupe(seen: map<string, string>, scenarios: seq<Scenario>, url: string): Split {
    if scenarios == [] then Split([], [], seen)
    else
      var d, s := Dedupe(seen, scenarios[..|scenarios| - 1], url), scenarios[|scenarios| - 1];
      var signature := SignatureOf(s);
      if signature in d.seen then
        d.(deduped := d.deduped + [Result(s.description, Deduplicated, Some(d.seen[signature]))])
      else d.(kept := d.kept + [s], seen := d.seen[signature := url])
  }

  function ApplyDedupe(on: bool, seen: map<string, string>, scenarios: seq<Scenario>, url: string): Split {
    if on then Dedupe(seen, scenarios, url) else Split(scenarios, [], seen)
  }

  function Names(results: seq<Result>): seq<string> {
    if results == [] then [] else Names(results[..|results| - 1]) + [results[|results| - 1].name]
  }

  /** Drops the claims of kept scenarios that were not reached. */
  function Release(seen: map<string, string>, kept: seq<Scenario>, reached: seq<string>): map<string, string> {
    if kept == [] then seen
    else
      var rest, s := Release(seen, kept[..|kept| - 1], reached), kept[|kept| - 1];
      if s.description in reached then rest else rest - {SignatureOf(s)}
  }

  // ---------------------------------------------------------------------
  // Running a plan
  // ---------------------------------------------------------------------

  function Rounds(repeat: int): nat {
    if repeat >= 1 then repeat else 1
  }

  /** The scenarios of all rounds in the order in which they run. */
  function Tape(kept: seq<Scenario>, rounds: nat): seq<Scenario> {
    if rounds == 0 then [] else Tape(kept, rounds - 1) + kept
  }

  /** The part of the tape that ran. */
  function Executed(kept: seq<Scenario>, repeat: int, execution: Execution): seq<Scenario> {
    var tape := Tape(kept, Rounds(repeat));
    if execution.Crashed? && execution.rows <= |tape| then tape[..execution.rows] else tape
  }

  /** One row per scenario that ran, under the scenario's description; `start` rows came before. */
  function RowsOf(start: nat, tape: seq<Scenario>, verdict: nat -> Status): seq<Result> {
    if tape == [] then []
    else
      var n := |tape| - 1;
      RowsOf(start, tape[..n], verdict) + [Result(tape[n].description, verdict(start + n), None)]
  }

  function RowsAfter(kept: seq<Scenario>, repeat: int, execution: Execution): seq<Result> {
    RowsOf(0, Executed(kept, repeat, execution), execution.verdict)
  }

  lemma {:induction false} RowsStep(start: nat, tape: seq<Scenario>, s: Scenario, verdict: nat -> Status)
    ensures |RowsOf(start, tape, verdict)| == |tape|
    ensures RowsOf(start, tape + [s], verdict)
      == RowsOf(start, tape, verdict) + [Result(s.description, verdict(start + |tape|), None)]
  {
    if tape != [] { RowsStep(start, tape[..|tape| - 1], s, verdict); }
    assert (tape + [s])[..|tape|] == tape;
  }

  lemma {:induction false} RowsConcat(a: seq<Scenario>, b: seq<Scenario>, verdict: nat -> Status)
    ensures |RowsOf(0, a, verdict)| == |a|
    ensures RowsOf(0, a + b, verdict) == RowsOf(0, a, verdict) + RowsOf(|a|, b, verdict)
  {
    if b == [] {
      assert a + b == a;
      if a != [] {
        RowsConcat(a[..|a| - 1], [], verdict);
        assert a[..|a| - 1] + [] == a[..|a| - 1];
      }
    } else {
      RowsConcat(a, b[..|b| - 1], verdict);
      assert (a + b)[..|a + b| - 1] == a + b[..|b| - 1];
    }
  }

  lemma {:induction false} TapeGrows(kept: seq<Scenario>, m: nat, n: nat)
    requires m <= n
    ensures Tape(kept, m) <= Tape(kept, n)
  {
    if m < n { TapeGrows(kept, m, n - 1); }
  }

  /** How many scenarios of a round run when `before` rows precede it. */
  function Reaches(kept: seq<Scenario>, execution: Execution, before: nat): (n: nat)
    requires execution.Crashed? ==> before <= execution.rows
    ensures n <= |kept|
  {
    if execution.Crashed? && execution.rows - before < |kept| then execution.rows - before else |kept|
  }

  /** One round: a row per scenario, until an error ends it. */
  method ExecutePlan(kept: seq<Scenario>, execution: Execution, before: seq<Result>)
    returns (results: seq<Result>, broke: bool)
    requires execution.Crashed? ==> |before| <= execution.rows
    ensures broke <==> Reaches(kept, execution, |before|) < |kept|
    ensures results == before + RowsOf(|before|, kept[..Reaches(kept, execution, |before|)], execution.verdict)
  {
    hide RowsOf;
    results, broke := before, false;
    assert RowsOf(|before|, kept[..0], execution.verdict) == [] by { NoRows(|before|, kept, execution.verdict); }
    for k := 0 to |kept|
      invariant results == before + RowsOf(|before|, kept[..k], execution.verdict)
      invariant execution.Crashed? ==> |before| + k <= execution.rows
    {
      RowsStep(|before|, kept[..k], kept[k], execution.verdict);
      assert kept[..k] + [kept[k]] == kept[..k + 1];
      if execution.Crashed? && |results| == execution.rows {
        return results, true;
      }
      results := results + [Result(kept[k].description, execution.verdict(|results|), None)];
    }
    assert kept[..|kept|] == kept;
  }

  lemma NoRows(start: nat, kept: seq<Scenario>, verdict: nat -> Status)
    ensures RowsOf(start, kept[..0], verdict) == []
  {
  }

  /** Runs the plan round after round until it is done or an error ends it. */
  method RunRepeatedPlan(kept: seq<Scenario>, repeat: int, execution: Execution)
    returns (results: seq<Result>, error: Option<string>)
    ensures results == RowsAfter(kept, repeat, execution)
    ensures error == if execution.Crashed? then Some(execution.message) else None
  {
    results, error := [], None;
    ghost var tape: seq<Scenario> := [];
    for round := 0 to Rounds(repeat)
      invariant tape == Tape(kept, round)
      invariant results == RowsOf(0, tape, execution.verdict)
      invariant execution.Crashed? ==> |tape| <= execution.rows
    {
      hide RowsOf, Reaches, Tape, Executed, Rounds;
      RoundRows(kept, execution, tape);
      var broke;
      results, broke := ExecutePlan(kept, execution, results);
      if broke {
        CutShort(kept, repeat, execution, round);
        return results, Some(execution.message);
      }
      tape := tape + kept;
      NextRound(kept, round);
    }
    hide RowsOf, Tape;
    if execution.Crashed? {
      assert execution.rows <= |tape| ==> tape[..execution.rows] == tape;
      error := Some(execution.message);
    }
  }

  lemma NextRound(kept: seq<Scenario>, round: nat)
    ensures Tape(kept, round + 1) == Tape(kept, round) + kept
  {
  }

  /** A round that is cut short ends where the whole tape is cut. */
  lemma {:induction false} CutShort(kept: seq<Scenario>, repeat: int, execution: Execution, round: nat)
    requires round < Rounds(repeat) && execution.Crashed? && execution.rows < |Tape(kept, round) + kept|
    ensures (Tape(kept, round) + kept)[..execution.rows] == Executed(kept, repeat, execution)
  {
    TapeGrows(kept, round + 1, Rounds(repeat));
    NextRound(kept, round);
    hide Tape;
  }

  /** The rows of one more round, whole or cut short. */
  lemma {:induction false} RoundRows(kept: seq<Scenario>, execution: Execution, tape: seq<Scenario>)
    requires execution.Crashed? ==> |tape| <= execution.rows
    ensures |RowsOf(0, tape, execution.verdict)| == |tape|
    ensures var n, cut := Reaches(kept, execution, |tape|), tape + kept;
      && (n < |kept| ==> execution.Crashed? && execution.rows < |cut|)
      && (n == |kept| && execution.Crashed? ==> |cut| <= execution.rows)
      && RowsOf(0, tape, execution.verdict) + RowsOf(|tape|, kept[..n], execution.verdict)
        == RowsOf(0, if n < |kept| then cut[..execution.rows] else cut, execution.verdict)
  {
    hide RowsOf;
    var n := Reaches(kept, execution, |tape|);
    RowsConcat(tape, kept[..n], execution.verdict);
    assert tape + kept[..n] == if n < |kept| then (tape + kept)[..execution.rows] else tape + kept;
  }

  // ---------------------------------------------------------------------
  // One visit
  // ---------------------------------------------------------------------

  /** What one visit does to the claims. */
  function SeenAfterVisit(cfg: Settings, seen: map<string, string>, url: string, visit: Visit): map<string, string> {
    if !visit.Ran? then seen
    else
      var split := ApplyDedupe(cfg.dedupe, seen, visit.scenarios, url);
      match visit.execution
      case Completed(_) => split.seen
      case Crashed(_, _, _) => Release(split.seen, split.kept,
                                       Names(RowsAfter(split.kept, cfg.repeat, visit.execution)))
  }

  /** What one visit writes into the page's record. */
  function RecordAfterVisit(cfg: Settings, seen: map<string, string>, record: Record, visit: Visit): Record {
    match visit
    case NoLoad(message) =>
      record.(status := Unreachable, reason := Some(message), results := [Result("Load " + record.url, Failed, None)])
    case NoPlan(message) =>
      record.(status := Tested, reason := Some(message), results := [Result("Sweep of " + record.url, Failed, None)])
    case Ran(scenarios, execution) =>
      var split := ApplyDedupe(cfg.dedupe, seen, scenarios, record.url);
      var rows := RowsAfter(split.kept, cfg.repeat, execution);
      var counted := record.(status := Tested, generated := |scenarios|, deduplicated := |split.deduped|);
      match execution
      case Completed(_) => counted.(reason := None, results := rows + split.deduped)
      case Crashed(_, _, message) =>
        counted.(reason := Some(message),
                 results := rows + split.deduped + [Result("Sweep of " + record.url, Failed, None)])
  }

  // ---------------------------------------------------------------------
  // One page
  // ---------------------------------------------------------------------

  /** Kept and deduped together are the page's scenarios, and afterwards every one of them is claimed. */
  lemma {:induction false} DedupeCovers(seen: map<string, string>, scenarios: seq<Scenario>, url: string)
    ensures var d := Dedupe(seen, scenarios, url);
      |d.kept| + |d.deduped| == |scenarios| && forall s :: s in scenarios ==> SignatureOf(s) in d.seen
  {
    if scenarios != [] {
      assert scenarios == scenarios[..|scenarios| - 1] + [scenarios[|scenarios| - 1]];
      hide SignatureOf;
      DedupeCovers(seen, scenarios[..|scenarios| - 1], url);
    }
  }

  /** The kept scenarios are new and pairwise different. */
  lemma {:induction false} KeptAreNew(seen: map<string, string>, scenarios: seq<Scenario>, url: string)
    ensures var d := Dedupe(seen, scenarios, url);
      |d.kept| <= |scenarios| &&
      (forall i :: 0 <= i < |d.kept| ==> SignatureOf(d.kept[i]) !in seen && d.kept[i] in scenarios) &&
      (forall i, j :: 0 <= i < j < |d.kept| ==> SignatureOf(d.kept[i]) != SignatureOf(d.kept[j]))
  {
    if scenarios != [] {
      hide SignatureOf;
      var init, last := scenarios[..|scenarios| - 1], scenarios[|scenarios| - 1];
      assert scenarios == init + [last];
      KeptAreNew(seen, init, url);
      var before, d := Dedupe(seen, init, url), Dedupe(seen, scenarios, url);
      assert d.kept == before.kept || (d.kept == before.kept + [last] && SignatureOf(last) !in before.seen);
      DedupeClaims(seen, init, url);
      hide Dedupe;
      if d.kept != before.kept {
        forall i | 0 <= i < |before.kept| ensures SignatureOf(before.kept[i]) != SignatureOf(last) {
          assert before.kept[i] in before.kept;
        }
      }
    }
  }

  /** Earlier claims stand; the new claims are exactly those of the kept scenarios and name this page. */
  lemma {:induction false} DedupeClaims(seen: map<string, string>, scenarios: seq<Scenario>, url: string)
    ensures var d := Dedupe(seen, scenarios, url);
      (forall g :: g in seen ==> g in d.seen && d.seen[g] == seen[g]) &&
      (forall g :: g in d.seen && g !in seen ==> d.seen[g] == url && exists s :: s in d.kept && SignatureOf(s) == g) &&
      (forall s :: s in d.kept ==> SignatureOf(s) in d.seen)
  {
    if scenarios != [] {
      hide SignatureOf;
      var init, last := scenarios[..|scenarios| - 1], scenarios[|scenarios| - 1];
      DedupeClaims(seen, init, url);
      var before, d := Dedupe(seen, init, url), Dedupe(seen, scenarios, url);
      forall g | g in d.seen && g !in seen ensures d.seen[g] == url && exists s :: s in d.kept && SignatureOf(s) == g {
        if g in before.seen {
          var s :| s in before.kept && SignatureOf(s) == g;
          assert s in d.kept;
        } else {
          assert last in d.kept && SignatureOf(last) == g;
        }
      }
    }
  }

  /** Each deduped row stands for a scenario of this page and names the holder of that scenario's claim. */
  lemma {:induction false} DedupedRowsName(seen: map<string, string>, scenarios: seq<Scenario>, url: string,
                                           row: Result)
    requires row in Dedupe(seen, scenarios, url).deduped
    ensures exists s :: (s in scenarios && s.description == row.name && row.status == Deduplicated &&
                         SignatureOf(s) in Dedupe(seen, scenarios, url).seen &&
                         row.firstRunOn == Some(Dedupe(seen, scenarios, url).seen[SignatureOf(s)]))
  {
    hide SignatureOf;
    var init, last := scenarios[..|scenarios| - 1], scenarios[|scenarios| - 1];
    var before, d := Dedupe(seen, init, url), Dedupe(seen, scenarios, url);
    if row in before.deduped {
      DedupedRowsName(seen, init, url, row);
      var s :| s in init && s.description == row.name && row.status == Deduplicated &&
        SignatureOf(s) in before.seen && row.firstRunOn == Some(before.seen[SignatureOf(s)]);
      assert s in scenarios;
      assert SignatureOf(s) in d.seen && d.seen[SignatureOf(s)] == before.seen[SignatureOf(s)];
    } else {
      assert last in scenarios;
    }
  }

  lemma ReleaseStep(seen: map<string, string>, kept: seq<Scenario>, reached: seq<string>, k: nat)
    requires k < |kept|
    ensures Release(seen, kept[..k + 1], reached) ==
      var rest := Release(seen, kept[..k], reached);
      if kept[k].description in reached then rest else rest - {SignatureOf(kept[k])}
  {
    hide SignatureOf;
    assert kept[..k + 1][..k] == kept[..k];
  }

  /** A claim survives a release exactly if no unreached kept scenario carries its signature. */
  lemma {:induction false} ReleaseIs(seen: map<string, string>, kept: seq<Scenario>, reached: seq<string>)
    ensures var r := Release(seen, kept, reached);
      forall g :: (g in r <==> g in seen && forall s :: s in kept && SignatureOf(s) == g ==> s.description in reached)
               && (g in r ==> r[g] == seen[g])
  {
    if kept != [] {
      assert kept == kept[..|kept| - 1] + [kept[|kept| - 1]];
      hide SignatureOf;
      ReleaseIs(seen, kept[..|kept| - 1], reached);
    }
  }

  // ---------------------------------------------------------------------
  // Which kept scenarios ran, and which the claims say ran
  // ---------------------------------------------------------------------

  /**
   Kept scenario `i` was run: it has a row of its own, of whatever status. The runner writes a skipped row only for an
   action it does not know, which generated plans do not contain.
   */
  predicate Reached(kept: seq<Scenario>, execution: Execution, i: nat) {
    i < |kept| && (execution.Crashed? ==> i < execution.rows)
  }

  /** A kept scenario with this signature was run. */
  ghost predicate RanSignature(kept: seq<Scenario>, execution: Execution, signature: string) {
    exists i: nat :: Reached(kept, execution, i) && SignatureOf(kept[i]) == signature
  }

  /** A scenario with this description was run. */
  ghost predicate RanDescription(kept: seq<Scenario>, execution: Execution, description: string) {
    exists i: nat :: Reached(kept, execution, i) && kept[i].description == description
  }

  /** What the code asks before it keeps the claim of `s`: the plan finished, or some row has its description. */
  ghost predicate Credited(kept: seq<Scenario>, execution: Execution, s: Scenario) {
    execution.Completed? || RanDescription(kept, execution, s.description)
  }

  /** No scenario that was not reached shares its description with one that was. */
  ghost predicate Truthful(kept: seq<Scenario>, execution: Execution) {
    forall i: nat, k: nat :: Reached(kept, execution, i) && k < |kept| && !Reached(kept, execution, k) ==>
      kept[i].description != kept[k].description
  }

  /** A crash can fall anywhere without crediting a scenario wrongly if and only if no description occurs twice. */
  lemma {:induction false} AlwaysTruthfulIff(kept: seq<Scenario>, verdict: nat -> Status, message: string)
    ensures (forall rows: nat :: Truthful(kept, Crashed(rows, verdict, message)))
      <==> forall i, k :: 0 <= i < k < |kept| ==> kept[i].description != kept[k].description
  {
    forall i, k | 0 <= i < k < |kept| && kept[i].description == kept[k].description
      ensures !Truthful(kept, Crashed(k, verdict, message))
    {
      var e := Crashed(k, verdict, message);
      assert Reached(kept, e, i) && !Reached(kept, e, k);
    }
  }

  lemma {:induction false} NamesOfRows(tape: seq<Scenario>, verdict: nat -> Status)
    ensures |Names(RowsOf(0, tape, verdict))| == |tape|
    ensures forall t :: 0 <= t < |tape| ==> Names(RowsOf(0, tape, verdict))[t] == tape[t].description
  {
    if tape != [] {
      var init, last := tape[..|tape| - 1], tape[|tape| - 1];
      NamesOfRows(init, verdict);
      NamesStep(RowsOf(0, init, verdict), Result(last.description, verdict(|init|), None));
      hide Names;
    }
  }

  lemma NamesStep(results: seq<Result>, r: Result)
    ensures Names(results + [r]) == Names(results) + [r.name]
  {
    assert (results + [r])[..|results|] == results;
  }

  lemma {:induction false} TapeFacts(kept: seq<Scenario>, rounds: nat)
    ensures forall s :: s in Tape(kept, rounds) ==> s in kept
    ensures rounds >= 1 ==> kept <= Tape(kept, rounds)
  {
    if rounds > 0 {
      TapeFacts(kept, rounds - 1);
      TapeGrows(kept, 1, rounds);
      assert Tape(kept, 1) == Tape(kept, 0) + kept == kept;
    }
  }

  lemma {:induction false} RanInTape(kept: seq<Scenario>, tape: seq<Scenario>, execution: Execution, t: nat)
    requires kept <= tape && t < |tape| && (forall s :: s in tape ==> s in kept)
    requires execution.Crashed? ==> t < execution.rows
    ensures RanDescription(kept, execution, tape[t].description)
  {
    if t < |kept| {
      assert tape[t] == kept[t] && Reached(kept, execution, t);
    } else {
      assert tape[t] in tape;
      var i :| 0 <= i < |kept| && kept[i] == tape[t];
      assert Reached(kept, execution, i);
    }
  }

  lemma {:induction false} NamesSay(kept: seq<Scenario>, tape: seq<Scenario>, ran: seq<Scenario>, names: seq<string>,
                                    execution: Execution, description: string)
    requires kept <= tape && ran <= tape && (forall s :: s in tape ==> s in kept)
    requires |ran| < |tape| ==> execution.Crashed? && |ran| == execution.rows
    requires execution.Crashed? ==> |ran| <= execution.rows
    requires |names| == |ran| && forall t :: 0 <= t < |ran| ==> names[t] == ran[t].description
    ensures description in names <==> RanDescription(kept, execution, description)
  {
    if description in names {
      var t :| 0 <= t < |names| && names[t] == description;
      assert ran[t] == tape[t];
      hide RanDescription;
      RanInTape(kept, tape, execution, t);
    }
    if RanDescription(kept, execution, description) {
      var i: nat :| Reached(kept, execution, i) && kept[i].description == description;
      assert i < |ran|;
      assert ran[i] == tape[i] == kept[i];
      assert names[i] == description;
    }
  }

  /** The names of the rows are the descriptions of the reached scenarios, however often the plan repeats. */
  lemma {:induction false} RowNamesAre(kept: seq<Scenario>, repeat: int, execution: Execution, description: string)
    ensures description in Names(RowsAfter(kept, repeat, execution)) <==> RanDescription(kept, execution, description)
  {
    var tape, ran := Tape(kept, Rounds(repeat)), Executed(kept, repeat, execution);
    TapeFacts(kept, Rounds(repeat));
    NamesOfRows(ran, execution.verdict);
    var names := Names(RowsAfter(kept, repeat, execution));
    assert kept <= tape && ran <= tape && |names| == |ran|;
    assert |ran| < |tape| ==> execution.Crashed? && |ran| == execution.rows;
    assert execution.Crashed? ==> |ran| <= execution.rows;
    assert forall t :: 0 <= t < |ran| ==> names[t] == ran[t].description;
    hide Tape, Rounds, RowsOf, RowsAfter, Names, Executed, RanDescription;
    NamesSay(kept, tape, ran, names, execution, description);
  }

  /** A visit keeps every earlier claim, and those it adds are credited to this page. */
  lemma {:induction false} VisitKeepsClaims(cfg: Settings, seen: map<string, string>, url: string, visit: Visit)
    requires cfg.dedupe || seen == map[]
    ensures var after := SeenAfterVisit(cfg, seen, url, visit);
      (forall g :: g in seen ==> g in after && after[g] == seen[g]) &&
      (forall g :: g in after && g !in seen ==>
        (after[g] == url && visit.Ran? &&
         var kept := ApplyDedupe(cfg.dedupe, seen, visit.scenarios, url).kept;
         exists s :: s in kept && SignatureOf(s) == g && Credited(kept, visit.execution, s)))
  {
    hide SignatureOf, Names, RowsAfter, RanDescription;
    if visit.Ran? {
      var d := ApplyDedupe(cfg.dedupe, seen, visit.scenarios, url);
      DedupeClaims(seen, visit.scenarios, url);
      KeptAreNew(seen, visit.scenarios, url);
      hide Dedupe;
      assert cfg.dedupe ==> forall s :: s in d.kept ==> SignatureOf(s) !in seen;
      if visit.execution.Crashed? {
        var reached := Names(RowsAfter(d.kept, cfg.repeat, visit.execution));
        ReleaseIs(d.seen, d.kept, reached);
        forall s | s in d.kept && s.description in reached ensures Credited(d.kept, visit.execution, s) {
          RowNamesAre(d.kept, cfg.repeat, visit.execution, s.description);
        }
        hide Release;
      }
    }
  }

  /** The claim of a kept scenario survives its page exactly if the plan finished or a row has its description. */
  lemma {:induction false} ClaimSurvivesIff(cfg: Settings, seen: map<string, string>, url: string, visit: Visit, i: nat)
    requires cfg.dedupe && visit.Ran? && i < |Dedupe(seen, visit.scenarios, url).kept|
    ensures var kept := Dedupe(seen, visit.scenarios, url).kept;
      SignatureOf(kept[i]) in SeenAfterVisit(cfg, seen, url, visit) <==> Credited(kept, visit.execution, kept[i])
  {
    hide SignatureOf, Names, RowsAfter, RanDescription;
    var d := Dedupe(seen, visit.scenarios, url);
    DedupeClaims(seen, visit.scenarios, url);
    KeptAreNew(seen, visit.scenarios, url);
    hide Dedupe;
    assert d.kept[i] in d.kept;
    if visit.execution.Crashed? {
      var reached := Names(RowsAfter(d.kept, cfg.repeat, visit.execution));
      RowNamesAre(d.kept, cfg.repeat, visit.execution, d.kept[i].description);
      ReleaseIs(d.seen, d.kept, reached);
      hide Release;
      forall s | s in d.kept && SignatureOf(s) == SignatureOf(d.kept[i]) ensures s == d.kept[i] {
        var k :| 0 <= k < |d.kept| && d.kept[k] == s;
        assert k == i;
      }
    }
  }

  /** A claim survives although its scenario did not run exactly if a scenario that did run has its description. */
  lemma {:induction false} SurvivesUnrunIff(cfg: Settings, seen: map<string, string>, url: string, visit: Visit, i: nat)
    requires cfg.dedupe && visit.Ran? && i < |Dedupe(seen, visit.scenarios, url).kept|
    ensures var kept, e := Dedupe(seen, visit.scenarios, url).kept, visit.execution;
      var signature := SignatureOf(kept[i]);
      (signature in SeenAfterVisit(cfg, seen, url, visit) && !RanSignature(kept, e, signature))
      <==> (!Reached(kept, e, i) && RanDescription(kept, e, kept[i].description))
  {
    hide SignatureOf, SeenAfterVisit;
    ClaimSurvivesIff(cfg, seen, url, visit, i);
    KeptAreNew(seen, visit.scenarios, url);
    hide Dedupe;
  }

  // ---------------------------------------------------------------------
  // The whole sweep
  // ---------------------------------------------------------------------

  /** The claims after the first n queued pages, from those the instance holds at the start. */
  function SeenFrom(start: map<string, string>, cfg: Settings, urls: seq<string>, visit: nat -> Visit, n: nat)
    : map<string, string>
    requires n <= |urls|
  {
    if n == 0 then start else SeenAfterVisit(cfg, SeenFrom(start, cfg, urls, visit, n - 1), urls[n - 1], visit(n - 1))
  }

  /** A new instance holds no claims. */
  function SeenAfter(cfg: Settings, urls: seq<string>, visit: nat -> Visit, n: nat): map<string, string>
    requires n <= |urls|
  {
    SeenFrom(map[], cfg, urls, visit, n)
  }

  function KeptOn(cfg: Settings, urls: seq<string>, visit: nat -> Visit, i: nat): seq<Scenario>
    requires i < |urls|
  {
    if visit(i).Ran? then ApplyDedupe(cfg.dedupe, SeenAfter(cfg, urls, visit, i), visit(i).scenarios, urls[i]).kept
    else []
  }

  /** Page j ran a scenario with this signature. */
  ghost predicate RanOn(cfg: Settings, urls: seq<string>, visit: nat -> Visit, signature: string, j: nat)
    requires j < |urls|
  {
    visit(j).Ran? && RanSignature(KeptOn(cfg, urls, visit, j), visit(j).execution, signature)
  }

  /** Page j kept a scenario with this signature, and finished or has a row with that scenario's description. */
  ghost predicate CreditedOn(cfg: Settings, urls: seq<string>, visit: nat -> Visit, signature: string, j: nat)
    requires j < |urls|
  {
    visit(j).Ran? && exists s :: s in KeptOn(cfg, urls, visit, j) && SignatureOf(s) == signature &&
                                 Credited(KeptOn(cfg, urls, visit, j), visit(j).execution, s)
  }

  ghost predicate TruthfulPage(cfg: Settings, urls: seq<string>, visit: nat -> Visit, j: nat)
    requires j < |urls|
  {
    visit(j).Ran? ==> Truthful(KeptOn(cfg, urls, visit, j), visit(j).execution)
  }

  lemma {:induction false} RanIsCredited(cfg: Settings, urls: seq<string>, visit: nat -> Visit, signature: string,
                                         j: nat)
    requires j < |urls| && RanOn(cfg, urls, visit, signature, j)
    ensures CreditedOn(cfg, urls, visit, signature, j)
  {
    hide SignatureOf, KeptOn;
    var kept := KeptOn(cfg, urls, visit, j);
    var i: nat :| Reached(kept, visit(j).execution, i) && SignatureOf(kept[i]) == signature;
    assert kept[i] in kept;
  }

  lemma {:induction false} CreditedRan(cfg: Settings, urls: seq<string>, visit: nat -> Visit, signature: string, j: nat)
    requires j < |urls| && CreditedOn(cfg, urls, visit, signature, j) && TruthfulPage(cfg, urls, visit, j)
    ensures RanOn(cfg, urls, visit, signature, j)
  {
    hide SignatureOf, KeptOn;
    var kept := KeptOn(cfg, urls, visit, j);
    var s :| s in kept && SignatureOf(s) == signature && Credited(kept, visit(j).execution, s);
    var k: nat :| k < |kept| && kept[k] == s;
    assert Reached(kept, visit(j).execution, k);
  }

  lemma {:induction false} OffClaimsNothing(cfg: Settings, urls: seq<string>, visit: nat -> Visit, n: nat)
    requires n <= |urls| && !cfg.dedupe
    ensures SeenAfter(cfg, urls, visit, n) == map[]
  {
    if n > 0 {
      OffClaimsNothing(cfg, urls, visit, n - 1);
      var v := visit(n - 1);
      if v.Ran? && v.execution.Crashed? {
        ReleaseIs(map[], v.scenarios, Names(RowsAfter(v.scenarios, cfg.repeat, v.execution)));
      }
    }
  }

  /** Between pages every claim names a page that finished or has a row with the scenario's description. */
  lemma {:induction false} EveryClaimIsCredited(cfg: Settings, urls: seq<string>, visit: nat -> Visit, n: nat,
                                                signature: string)
    requires n <= |urls| && signature in SeenAfter(cfg, urls, visit, n)
    ensures exists j :: 0 <= j < n && urls[j] == SeenAfter(cfg, urls, visit, n)[signature] &&
                        CreditedOn(cfg, urls, visit, signature, j)
  {
    var before := SeenAfter(cfg, urls, visit, n - 1);
    if !cfg.dedupe { OffClaimsNothing(cfg, urls, visit, n - 1); }
    VisitKeepsClaims(cfg, before, urls[n - 1], visit(n - 1));
    hide SeenAfterVisit, SignatureOf, ApplyDedupe, Credited;
    if signature in before {
      EveryClaimIsCredited(cfg, urls, visit, n - 1, signature);
      var j :| 0 <= j < n - 1 && urls[j] == before[signature] && CreditedOn(cfg, urls, visit, signature, j);
      assert 0 <= j < n && urls[j] == SeenAfter(cfg, urls, visit, n)[signature] &&
        CreditedOn(cfg, urls, visit, signature, j);
    } else {
      assert CreditedOn(cfg, urls, visit, signature, n - 1);
    }
  }

  /** Claims held between pages are never lost again. */
  lemma {:induction false} ClaimsLast(cfg: Settings, urls: seq<string>, visit: nat -> Visit, n: nat, m: nat,
                                      signature: string)
    requires n <= m <= |urls| && signature in SeenAfter(cfg, urls, visit, n)
    ensures signature in SeenAfter(cfg, urls, visit, m)
    ensures SeenAfter(cfg, urls, visit, m)[signature] == SeenAfter(cfg, urls, visit, n)[signature]
  {
    if n < m {
      hide SeenAfterVisit;
      ClaimsLast(cfg, urls, visit, n, m - 1, signature);
      if !cfg.dedupe { OffClaimsNothing(cfg, urls, visit, m - 1); }
      VisitKeepsClaims(cfg, SeenAfter(cfg, urls, visit, m - 1), urls[m - 1], visit(m - 1));
    }
  }

  /** A signature credited on one page, in particular one that ran there, is never kept by a later one. */
  lemma {:induction false} NothingRunsTwice(cfg: Settings, urls: seq<string>, visit: nat -> Visit, i: nat, k: nat,
                                            signature: string)
    requires cfg.dedupe && i < k < |urls|
    requires RanOn(cfg, urls, visit, signature, i) || CreditedOn(cfg, urls, visit, signature, i)
    ensures forall x :: x in KeptOn(cfg, urls, visit, k) ==> SignatureOf(x) != signature
  {
    if RanOn(cfg, urls, visit, signature, i) { RanIsCredited(cfg, urls, visit, signature, i); }
    CreditedClaimStays(cfg, urls, visit, i, signature);
    hide SignatureOf, RanOn, CreditedOn, SeenAfterVisit;
    ClaimsLast(cfg, urls, visit, i + 1, k, signature);
    if visit(k).Ran? {
      var before := SeenAfter(cfg, urls, visit, k);
      hide SeenAfter;
      KeptAreNew(before, visit(k).scenarios, urls[k]);
      var kept := Dedupe(before, visit(k).scenarios, urls[k]).kept;
      assert KeptOn(cfg, urls, visit, k) == kept;
      forall x | x in kept ensures SignatureOf(x) != signature {
        var n :| 0 <= n < |kept| && kept[n] == x;
      }
    }
  }

  lemma {:induction false} CreditedClaimStays(cfg: Settings, urls: seq<string>, visit: nat -> Visit, i: nat,
                                              signature: string)
    requires cfg.dedupe && i < |urls| && CreditedOn(cfg, urls, visit, signature, i)
    ensures signature in SeenAfter(cfg, urls, visit, i + 1)
  {
    hide SignatureOf, SeenAfterVisit, Credited;
    var kept := KeptOn(cfg, urls, visit, i);
    var s :| s in kept && SignatureOf(s) == signature && Credited(kept, visit(i).execution, s);
    var k: nat :| k < |kept| && kept[k] == s;
    ClaimSurvivesIff(cfg, SeenAfter(cfg, urls, visit, i), urls[i], visit(i), k);
  }

  /** The claim names a page that ran the signature. */
  ghost predicate ClaimIsTrue(cfg: Settings, urls: seq<string>, visit: nat -> Visit, n: nat, signature: string)
    requires n <= |urls| && signature in SeenAfter(cfg, urls, visit, n)
  {
    exists j :: 0 <= j < n && urls[j] == SeenAfter(cfg, urls, visit, n)[signature] &&
      RanOn(cfg, urls, visit, signature, j)
  }

  /**
   Every claim names a page that ran its signature if and only if on no page a scenario that was not reached
   shares its description with one that was.
   */
  lemma {:induction false} ClaimsAreTrueIff(cfg: Settings, urls: seq<string>, visit: nat -> Visit, n: nat)
    requires cfg.dedupe && n <= |urls|
    ensures (forall g :: g in SeenAfter(cfg, urls, visit, n) ==> ClaimIsTrue(cfg, urls, visit, n, g))
      <==> forall j :: 0 <= j < n ==> TruthfulPage(cfg, urls, visit, j)
  {
    hide SeenAfter, RanOn, CreditedOn, TruthfulPage;
    if forall j :: 0 <= j < n ==> TruthfulPage(cfg, urls, visit, j) {
      forall g | g in SeenAfter(cfg, urls, visit, n) ensures ClaimIsTrue(cfg, urls, visit, n, g) {
        EveryClaimIsCredited(cfg, urls, visit, n, g);
        var j :| 0 <= j < n && urls[j] == SeenAfter(cfg, urls, visit, n)[g] && CreditedOn(cfg, urls, visit, g, j);
        CreditedRan(cfg, urls, visit, g, j);
      }
    } else {
      var j :| 0 <= j < n && !TruthfulPage(cfg, urls, visit, j);
      var g := FalseClaim(cfg, urls, visit, j);
      ClaimsLast(cfg, urls, visit, j + 1, n, g);
      forall k | 0 <= k < n ensures !RanOn(cfg, urls, visit, g, k) {
        RanNowhere(cfg, urls, visit, j, g, k);
      }
    }
  }

  /** A page that is not truthful leaves a claim for a signature it kept but never ran. */
  lemma {:induction false} FalseClaim(cfg: Settings, urls: seq<string>, visit: nat -> Visit, j: nat) returns (g: string)
    requires cfg.dedupe && j < |urls| && !TruthfulPage(cfg, urls, visit, j)
    ensures g in SeenAfter(cfg, urls, visit, j + 1) && !RanOn(cfg, urls, visit, g, j) &&
      CreditedOn(cfg, urls, visit, g, j)
    ensures exists x :: x in KeptOn(cfg, urls, visit, j) && SignatureOf(x) == g
  {
    hide SignatureOf, SeenAfter;
    var kept, e := KeptOn(cfg, urls, visit, j), visit(j).execution;
    KeptAreNew(SeenAfter(cfg, urls, visit, j), visit(j).scenarios, urls[j]);
    hide Dedupe, KeptOn;
    var i: nat, k: nat :| Reached(kept, e, i) && k < |kept| && !Reached(kept, e, k) &&
      kept[i].description == kept[k].description;
    g := SignatureOf(kept[k]);
    assert kept[k] in kept && Credited(kept, e, kept[k]);
    CreditedClaimStays(cfg, urls, visit, j, g);
  }

  lemma {:induction false} RanNowhere(cfg: Settings, urls: seq<string>, visit: nat -> Visit, j: nat, g: string, k: nat)
    requires cfg.dedupe && j < |urls| && k < |urls|
    requires !RanOn(cfg, urls, visit, g, j) && CreditedOn(cfg, urls, visit, g, j)
    requires exists x :: x in KeptOn(cfg, urls, visit, j) && SignatureOf(x) == g
    ensures !RanOn(cfg, urls, visit, g, k)
  {
    hide SignatureOf, KeptOn;
    if k < j && RanOn(cfg, urls, visit, g, k) {
      NothingRunsTwice(cfg, urls, visit, k, j, g);
    } else if j < k {
      NothingRunsTwice(cfg, urls, visit, j, k, g);
    }
  }

  /**
   Two buttons with one description, a crash after the first, and a second page with the second button: that page
   reports the button as first run on the first page, but no page ran it. No field is ambiguous here.
   */
  lemma {:induction false} CrashCreditsAnother()
    returns (cfg: Settings, urls: seq<string>, visit: nat -> Visit, s: Scenario, row: Result)
    ensures cfg.dedupe && |urls| == 2 && s == Scenario("click", "#row2", "", "Delete") && Unambiguous(s)
    ensures visit(0).Ran? && visit(0).scenarios == [Scenario("click", "#row1", "", "Delete"), s]
    ensures visit(0).execution.Crashed? && visit(0).execution.rows == 1
    ensures visit(1).Ran? && visit(1).scenarios == [s] && visit(1).execution.Completed?
    ensures row.name == s.description && row.firstRunOn == Some(urls[0])
    ensures row in RecordOf(map[], cfg, urls, visit, 1).results
    ensures forall j :: 0 <= j < 2 ==> !RanOn(cfg, urls, visit, SignatureOf(s), j)
  {
    cfg, urls := Settings(true, 1), ["u", "v"];
    var first, second := Scenario("click", "#row1", "", "Delete"), Scenario("click", "#row2", "", "Delete");
    visit := i => if i == 0 then Ran([first, second], Crashed(1, t => Passed, "boom"))
                  else Ran([second], Completed(t => Passed));
    s, row := second, Result("Delete", Deduplicated, Some("u"));
    DistinctRows(first, second);
    hide SignatureOf, Unambiguous, KeptOn, SeenFrom, RecordOf;
    TwoPages(cfg, urls, visit, first, second);
  }

  lemma {:induction false} TwoPages(cfg: Settings, urls: seq<string>, visit: nat -> Visit, first: Scenario,
                                    second: Scenario)
    requires cfg.dedupe && |urls| == 2 && first.description == second.description
    requires SignatureOf(first) != SignatureOf(second)
    requires visit(0).Ran? && visit(0).scenarios == [first, second]
    requires visit(0).execution.Crashed? && visit(0).execution.rows == 1
    requires visit(1).Ran? && visit(1).scenarios == [second]
    ensures KeptOn(cfg, urls, visit, 0) == [first, second] && KeptOn(cfg, urls, visit, 1) == []
    ensures Result(second.description, Deduplicated, Some(urls[0])) in RecordOf(map[], cfg, urls, visit, 1).results
  {
    hide SignatureOf;
    TwoKept(first, second, urls[0]);
    hide SeenAfterVisit, Dedupe, RowsAfter;
    assert SeenAfter(cfg, urls, visit, 0) == map[];
    var seen := SeenAfter(cfg, urls, visit, 1);
    assert seen == SeenAfterVisit(cfg, map[], urls[0], visit(0));
    SecondClaimStands(cfg, first, second, urls[0], visit(0));
    OneDeduped(seen, second, urls[1]);
  }

  lemma {:induction false} SecondClaimStands(cfg: Settings, first: Scenario, second: Scenario, url: string,
                                             visit: Visit)
    requires cfg.dedupe && first.description == second.description
    requires visit.Ran? && visit.scenarios == [first, second] && visit.execution.Crashed? && visit.execution.rows == 1
    requires Dedupe(map[], [first, second], url).kept == [first, second]
    ensures var seen := SeenAfterVisit(cfg, map[], url, visit);
      SignatureOf(second) in seen && seen[SignatureOf(second)] == url
  {
    hide SignatureOf, Dedupe, SeenAfterVisit;
    assert Reached([first, second], visit.execution, 0);
    ClaimSurvivesIff(cfg, map[], url, visit, 1);
    VisitKeepsClaims(cfg, map[], url, visit);
  }

  lemma {:induction false} DistinctRows(first: Scenario, second: Scenario)
    requires first == Scenario("click", "#row1", "", "Delete") && second == Scenario("click", "#row2", "", "Delete")
    ensures SignatureOf(first) != SignatureOf(second) && Unambiguous(first) && Unambiguous(second)
  {
    assert Unambiguous(first) && Unambiguous(second);
    if SignatureOf(first) == SignatureOf(second) { UnambiguousIsUnique(first, second); }
  }

  lemma {:induction false} TwoKept(first: Scenario, second: Scenario, url: string)
    requires SignatureOf(first) != SignatureOf(second)
    ensures Dedupe(map[], [first, second], url).kept == [first, second]
  {
    hide SignatureOf;
    assert [first, second][..1] == [first] && [first][..0] == [];
    assert Dedupe(map[], [first], url) == Split([first], [], map[SignatureOf(first) := url]);
  }

  lemma {:induction false} OneDeduped(seen: map<string, string>, s: Scenario, url: string)
    requires SignatureOf(s) in seen
    ensures Dedupe(seen, [s], url) == Split([], [Result(s.description, Deduplicated, Some(seen[SignatureOf(s)]))], seen)
  {
    assert [s][..0] == [];
  }

  /** A page before page i, at this URL, ran the signature. */
  ghost predicate RanEarlierOn(cfg: Settings, urls: seq<string>, visit: nat -> Visit, signature: string, i: nat,
                               url: string)
    requires i <= |urls|
  {
    exists j :: 0 <= j < i && urls[j] == url && RanOn(cfg, urls, visit, signature, j)
  }

  /** Page i itself keeps a scenario with this signature. */
  ghost predicate KeepsSignature(cfg: Settings, urls: seq<string>, visit: nat -> Visit, signature: string, i: nat)
    requires i < |urls|
  {
    exists k :: k in KeptOn(cfg, urls, visit, i) && SignatureOf(k) == signature
  }

  /**
   If the pages before page i were truthful, every deduped row of page i stands for a scenario of page i and names
   either an earlier page that ran the same signature, or page i itself, which keeps a scenario with
   that signature.
   */
  lemma {:induction false} DedupedRowsAreHonest(cfg: Settings, urls: seq<string>, visit: nat -> Visit, i: nat,
                                                row: Result)
    requires cfg.dedupe && i < |urls| && visit(i).Ran?
    requires forall j :: 0 <= j < i ==> TruthfulPage(cfg, urls, visit, j)
    requires row in Dedupe(SeenAfter(cfg, urls, visit, i), visit(i).scenarios, urls[i]).deduped
    ensures exists s :: (s in visit(i).scenarios && s.description == row.name && row.firstRunOn.Some? &&
                         (RanEarlierOn(cfg, urls, visit, SignatureOf(s), i, row.firstRunOn.value) ||
                          (row.firstRunOn.value == urls[i] && KeepsSignature(cfg, urls, visit, SignatureOf(s), i))))
  {
    var seen := SeenAfter(cfg, urls, visit, i);
    var d := Dedupe(seen, visit(i).scenarios, urls[i]);
    DedupedRowsName(seen, visit(i).scenarios, urls[i], row);
    DedupeClaims(seen, visit(i).scenarios, urls[i]);
    assert KeptOn(cfg, urls, visit, i) == d.kept;
    hide Dedupe, SignatureOf, SeenAfter, RanOn;
    var s :| s in visit(i).scenarios && s.description == row.name && row.status == Deduplicated &&
      SignatureOf(s) in d.seen && row.firstRunOn == Some(d.seen[SignatureOf(s)]);
    if SignatureOf(s) in seen {
      ClaimsAreTrueIff(cfg, urls, visit, i);
      assert ClaimIsTrue(cfg, urls, visit, i, SignatureOf(s));
    }
  }

  /** On an unambiguous signature the page ran that very scenario. */
  lemma {:induction false} RanTheSameScenario(cfg: Settings, urls: seq<string>, visit: nat -> Visit, s: Scenario,
                                              j: nat)
    requires j < |urls| && Unambiguous(s) && RanOn(cfg, urls, visit, SignatureOf(s), j)
    ensures var kept := KeptOn(cfg, urls, visit, j);
      exists i: nat :: Reached(kept, visit(j).execution, i) && kept[i] == s
  {
    var kept := KeptOn(cfg, urls, visit, j);
    var i: nat :| Reached(kept, visit(j).execution, i) && SignatureOf(kept[i]) == SignatureOf(s);
    UnambiguousIsUnique(s, kept[i]);
  }

  lemma {:induction false} FinishedPageClaims(cfg: Settings, urls: seq<string>, visit: nat -> Visit, i: nat,
                                              s: Scenario)
    requires cfg.dedupe && i < |urls| && visit(i).Ran? && visit(i).execution.Completed? && s in visit(i).scenarios
    ensures SignatureOf(s) in SeenAfter(cfg, urls, visit, i + 1)
  {
    hide SignatureOf, Dedupe;
    DedupeCovers(SeenAfter(cfg, urls, visit, i), visit(i).scenarios, urls[i]);
  }

  /** Nothing generated on a finished page is left untested if the pages before it were truthful. */
  lemma {:induction false} FinishedPagesAreCovered(cfg: Settings, urls: seq<string>, visit: nat -> Visit, i: nat,
                                                   s: Scenario)
    requires cfg.dedupe && i < |urls| && visit(i).Ran? && visit(i).execution.Completed? && s in visit(i).scenarios
    requires forall j :: 0 <= j < i ==> TruthfulPage(cfg, urls, visit, j)
    ensures exists j :: 0 <= j <= i && RanOn(cfg, urls, visit, SignatureOf(s), j)
  {
    hide SignatureOf, RanOn, KeptOn;
    FinishedPageClaims(cfg, urls, visit, i, s);
    assert TruthfulPage(cfg, urls, visit, i);
    hide SeenAfter, TruthfulPage;
    ClaimsAreTrueIff(cfg, urls, visit, i + 1);
    assert ClaimIsTrue(cfg, urls, visit, i + 1, SignatureOf(s));
  }

  /** A page keeps a scenario exactly if its signature is unclaimed when the page starts. */
  lemma {:induction false} ReleasedScenariosRunLater(cfg: Settings, urls: seq<string>, visit: nat -> Visit, k: nat,
                                                     s: Scenario)
    requires cfg.dedupe && k < |urls| && visit(k).Ran? && s in visit(k).scenarios
    ensures KeepsSignature(cfg, urls, visit, SignatureOf(s), k) <==> SignatureOf(s) !in SeenAfter(cfg, urls, visit, k)
  {
    hide SignatureOf;
    var seen := SeenAfter(cfg, urls, visit, k);
    KeptAreNew(seen, visit(k).scenarios, urls[k]);
    DedupeCovers(seen, visit(k).scenarios, urls[k]);
    DedupeClaims(seen, visit(k).scenarios, urls[k]);
  }

  // ---------------------------------------------------------------------
  // Rows that name their own page
  // ---------------------------------------------------------------------

  /** Scenario p repeats an earlier one of its own page whose signature no other page holds. */
  ghost predicate RepeatsOnPage(seen: map<string, string>, scenarios: seq<Scenario>, p: nat) {
    p < |scenarios| && SignatureOf(scenarios[p]) !in seen &&
    exists q :: 0 <= q < p && SignatureOf(scenarios[q]) == SignatureOf(scenarios[p])
  }

  ghost predicate OccursTwice(scenarios: seq<Scenario>, signature: string) {
    exists q, p :: 0 <= q < p < |scenarios| && SignatureOf(scenarios[q]) == signature == SignatureOf(scenarios[p])
  }

  /** Every repeat becomes a row that says the scenario first ran on this page. */
  lemma {:induction false} RepeatIsARow(seen: map<string, string>, scenarios: seq<Scenario>, url: string, p: nat)
    requires RepeatsOnPage(seen, scenarios, p)
    ensures Result(scenarios[p].description, Deduplicated, Some(url)) in Dedupe(seen, scenarios, url).deduped
  {
    hide SignatureOf;
    var init := scenarios[..|scenarios| - 1];
    if p < |init| {
      assert RepeatsOnPage(seen, init, p);
      RepeatIsARow(seen, init, url, p);
    } else {
      var q :| 0 <= q < p && SignatureOf(scenarios[q]) == SignatureOf(scenarios[p]);
      assert init[q] in init;
      DedupeCovers(seen, init, url);
      DedupeClaims(seen, init, url);
    }
  }

  /**
   The rows of a page that name the page itself are all true if and only if no kept scenario that was not reached
   occurs twice on the page.
   */
  lemma {:induction false} OwnPageRowsAreTrueIff(seen: map<string, string>, scenarios: seq<Scenario>, url: string,
                                                 execution: Execution)
    ensures var kept := Dedupe(seen, scenarios, url).kept;
      (forall p: nat :: RepeatsOnPage(seen, scenarios, p) ==> RanSignature(kept, execution, SignatureOf(scenarios[p])))
      <==> (forall k: nat :: k < |kept| && !Reached(kept, execution, k) ==>
            !OccursTwice(scenarios, SignatureOf(kept[k])))
  {
    hide SignatureOf;
    var kept := Dedupe(seen, scenarios, url).kept;
    KeptAreNew(seen, scenarios, url);
    DedupeCovers(seen, scenarios, url);
    DedupeClaims(seen, scenarios, url);
    hide Dedupe;
    forall k: nat | k < |kept| && !Reached(kept, execution, k) && OccursTwice(scenarios, SignatureOf(kept[k]))
      ensures exists p: nat ::
        (RepeatsOnPage(seen, scenarios, p) && !RanSignature(kept, execution, SignatureOf(scenarios[p])))
    {
      var q: nat, p: nat :| q < p < |scenarios| &&
        SignatureOf(scenarios[q]) == SignatureOf(kept[k]) == SignatureOf(scenarios[p]);
      assert RepeatsOnPage(seen, scenarios, p);
      assert !RanSignature(kept, execution, SignatureOf(kept[k]));
    }
    forall p: nat | RepeatsOnPage(seen, scenarios, p) && !RanSignature(kept, execution, SignatureOf(scenarios[p]))
      ensures exists k: nat ::
        (k < |kept| && !Reached(kept, execution, k) && OccursTwice(scenarios, SignatureOf(kept[k])))
    {
      assert scenarios[p] in scenarios;
      var s :| s in kept && SignatureOf(s) == SignatureOf(scenarios[p]);
      var k: nat :| k < |kept| && kept[k] == s;
      assert !Reached(kept, execution, k) && OccursTwice(scenarios, SignatureOf(kept[k]));
    }
  }

  /** A page that did not load or broke has a failed row, and no row written before a crash is lost. */
  lemma {:induction false} BrokenPagesFail(cfg: Settings, seen: map<string, string>, record: Record, visit: Visit)
    requires visit.Ran? ==> visit.execution.Crashed?
    ensures var after := RecordAfterVisit(cfg, seen, record, visit);
      (exists r :: r in after.results && r.status == Failed) && after.reason.Some? &&
      (after.status == Unreachable <==> visit.NoLoad?) &&
      (visit.Ran? ==>
        (var kept := ApplyDedupe(cfg.dedupe, seen, visit.scenarios, record.url).kept;
         forall i: nat :: Reached(kept, visit.execution, i) ==>
           Result(kept[i].description, visit.execution.verdict(i), None) in after.results))
  {
    var after := RecordAfterVisit(cfg, seen, record, visit);
    var n := |after.results| - 1;
    assert after.results[n].status == Failed && after.results[n] in after.results;
    if visit.Ran? {
      var kept := ApplyDedupe(cfg.dedupe, seen, visit.scenarios, record.url).kept;
      forall i: nat | Reached(kept, visit.execution, i)
        ensures Result(kept[i].description, visit.execution.verdict(i), None) in after.results
      {
        ReachedHasRow(kept, cfg.repeat, visit.execution, i);
        assert after.results[i] == RowsAfter(kept, cfg.repeat, visit.execution)[i];
      }
    }
  }

  lemma {:induction false} RowAt(tape: seq<Scenario>, verdict: nat -> Status, t: nat)
    requires t < |tape|
    ensures |RowsOf(0, tape, verdict)| == |tape|
    ensures RowsOf(0, tape, verdict)[t] == Result(tape[t].description, verdict(t), None)
  {
    var init := tape[..|tape| - 1];
    assert tape == init + [tape[|tape| - 1]];
    RowsStep(0, init, tape[|tape| - 1], verdict);
    if t < |init| { RowAt(init, verdict, t); }
  }

  lemma {:induction false} TapeAt(kept: seq<Scenario>, rounds: nat, t: nat)
    requires kept != []
    ensures |Tape(kept, rounds)| == rounds * |kept|
    ensures t < rounds * |kept| ==> Tape(kept, rounds)[t] == kept[t % |kept|]
  {
    if rounds > 0 {
      TapeAt(kept, rounds - 1, t);
      assert rounds * |kept| == (rounds - 1) * |kept| + |kept|;
      if (rounds - 1) * |kept| <= t < rounds * |kept| { Wraps(t, rounds - 1, |kept|); }
    }
  }

  lemma Wraps(t: nat, q: nat, n: nat)
    requires n > 0 && q * n <= t < q * n + n
    ensures t % n == t - q * n
  {
    Quotient(t, q, n);
  }

  lemma Quotient(t: nat, q: nat, n: nat)
    requires n > 0 && q * n <= t < q * n + n
    ensures t / n == q
  {
    Ordered(t / n, q, n);
    Ordered(q, t / n, n);
  }

  lemma {:induction false} Ordered(a: nat, b: nat, n: nat)
    ensures a < b ==> a * n + n <= b * n
  {
    if a < b {
      assert b * n == (b - 1) * n + n;
      Ordered(a, b - 1, n);
    }
  }

  /**
   The rows of a repeated plan: round after round, at least one, each scenario once per round under its description,
   and after a crash just those written before it.
   */
  lemma {:induction false} RepeatedRowsAre(kept: seq<Scenario>, repeat: int, execution: Execution, t: nat)
    requires kept != []
    ensures var rows, all := RowsAfter(kept, repeat, execution), (if repeat > 1 then repeat else 1) * |kept|;
      && |rows| == (if execution.Crashed? && execution.rows < all then execution.rows else all)
      && (t < |rows| ==> rows[t] == Result(kept[t % |kept|].description, execution.verdict(t), None))
  {
    var all := (if repeat > 1 then repeat else 1) * |kept|;
    TapeAt(kept, Rounds(repeat), t);
    var ran := Executed(kept, repeat, execution);
    assert |ran| == if execution.Crashed? && execution.rows < all then execution.rows else all;
    assert t < |ran| ==> ran[t] == Tape(kept, Rounds(repeat))[t];
    RowsLength(ran, execution.verdict);
    if t < |ran| { RowAt(ran, execution.verdict, t); }
    hide Tape, RowsOf;
  }

  lemma {:induction false} RowsLength(tape: seq<Scenario>, verdict: nat -> Status)
    ensures |RowsOf(0, tape, verdict)| == |tape|
  {
    if tape != [] { RowsLength(tape[..|tape| - 1], verdict); }
  }

  lemma {:induction false} ReachedHasRow(kept: seq<Scenario>, repeat: int, execution: Execution, i: nat)
    requires Reached(kept, execution, i)
    ensures i < |RowsAfter(kept, repeat, execution)|
    ensures RowsAfter(kept, repeat, execution)[i] == Result(kept[i].description, execution.verdict(i), None)
  {
    TapeFacts(kept, Rounds(repeat));
    assert Rounds(repeat) >= 1;
    hide Tape, Rounds, RowsOf;
    RowAt(Executed(kept, repeat, execution), execution.verdict, i);
  }

  /** The record of a visited page: its address, how far the visit got and why no further, and every row. */
  lemma {:induction false} VisitRecordIs(cfg: Settings, seen: map<string, string>, url: string, visit: Visit)
    ensures var after := RecordAfterVisit(cfg, seen, Blank(url), visit);
      && after.url == url
      && (visit.NoLoad? ==>
           after == Record(url, Unreachable, Some(visit.message), 0, 0, [Result("Load " + url, Failed, None)]))
      && (visit.NoPlan? ==>
           after == Record(url, Tested, Some(visit.message), 0, 0, [Result("Sweep of " + url, Failed, None)]))
      && (visit.Ran? ==>
           var split := ApplyDedupe(cfg.dedupe, seen, visit.scenarios, url);
           var rows := RowsAfter(split.kept, cfg.repeat, visit.execution) + split.deduped;
           && after.status == Tested && after.generated == |visit.scenarios|
           && |split.kept| + after.deduplicated == |visit.scenarios|
           && (visit.execution.Completed? ==> after.reason == None && after.results == rows)
           && (visit.execution.Crashed? ==>
                after.reason == Some(visit.execution.message) &&
                after.results == rows + [Result("Sweep of " + url, Failed, None)]))
  {
    if visit.Ran? { DedupeCovers(seen, visit.scenarios, url); }
    hide Dedupe, RowsAfter;
  }

  lemma {:induction false} GeneratedIsKeptPlusDeduped(cfg: Settings, seen: map<string, string>, record: Record,
                                                      visit: Visit)
    requires visit.Ran?
    ensures var after := RecordAfterVisit(cfg, seen, record, visit);
      after.generated == |ApplyDedupe(cfg.dedupe, seen, visit.scenarios, record.url).kept| + after.deduplicated
  {
    DedupeCovers(seen, visit.scenarios, record.url);
  }

  // ---------------------------------------------------------------------
  // The plan
  // ---------------------------------------------------------------------

  /** URL handling: normalizeUrl, the origin of a URL, and String.trim. */
  datatype Web = Web(normalize: string -> Option<string>, origin: string -> string, trim: string -> string)

  datatype Rejected = Rejected(url: string, crossOrigin: bool)

  datatype Plan = Plan(seen: set<string>, eligible: seq<string>, rejected: seq<Rejected>)

  function KeyOf(web: Web, raw: string): string {
    match web.normalize(raw)
    case Some(url) => url
    case None => web.trim(raw)
  }

  function PlanOf(web: Web, sameOriginOnly: bool, entry: string, raws: seq<string>): Plan {
    if raws == [] then Plan({}, [], [])
    else
      var p, raw := PlanOf(web, sameOriginOnly, entry, raws[..|raws| - 1]), raws[|raws| - 1];
      var key := KeyOf(web, raw);
      if key in p.seen then p
      else if web.normalize(raw).None? then Plan(p.seen + {key}, p.eligible, p.rejected + [Rejected(key, false)])
      else if sameOriginOnly && web.origin(key) != web.origin(entry) then
        Plan(p.seen + {key}, p.eligible, p.rejected + [Rejected(key, true)])
      else Plan(p.seen + {key}, p.eligible + [key], p.rejected)
  }

  ghost predicate Accounted(p: Plan, key: string) {
    key in p.eligible || exists r :: r in p.rejected && r.url == key
  }

  /** q is p, or p with one new key that is eligible or rejected. */
  ghost predicate TakesIn(p: Plan, q: Plan, key: string) {
    if key in p.seen then q == p
    else
      && q.seen == p.seen + {key}
      && ((q.eligible == p.eligible + [key] && q.rejected == p.rejected) ||
          (q.eligible == p.eligible && exists cross :: q.rejected == p.rejected + [Rejected(key, cross)]))
  }

  lemma {:induction false} PlanStep(web: Web, sameOriginOnly: bool, entry: string, raws: seq<string>)
    requires raws != []
    ensures TakesIn(PlanOf(web, sameOriginOnly, entry, raws[..|raws| - 1]), PlanOf(web, sameOriginOnly, entry, raws),
                    KeyOf(web, raws[|raws| - 1]))
  {
    hide KeyOf;
    var key := KeyOf(web, raws[|raws| - 1]);
    var p, q := PlanOf(web, sameOriginOnly, entry, raws[..|raws| - 1]), PlanOf(web, sameOriginOnly, entry, raws);
    assert key !in p.seen && q.eligible == p.eligible ==>
      (q.rejected == p.rejected + [Rejected(key, false)] || q.rejected == p.rejected + [Rejected(key, true)]);
  }

  lemma {:induction false} TakesInAccounted(p: Plan, q: Plan, key: string, k: string)
    requires TakesIn(p, q, key) && k in q.seen && (k in p.seen ==> Accounted(p, k))
    ensures Accounted(q, k)
  {
    if k in p.seen {
      if k !in p.eligible {
        var r :| r in p.rejected && r.url == k;
        assert r in q.rejected;
      }
    } else if q.eligible == p.eligible {
      assert q.rejected[|q.rejected| - 1] in q.rejected;
    }
  }

  /** Every link is accounted for once: its key is eligible or rejected, and no key is counted twice. */
  lemma {:induction false} PlanAccountsForEveryLink(web: Web, sameOriginOnly: bool, entry: string, raws: seq<string>)
    ensures var p := PlanOf(web, sameOriginOnly, entry, raws);
      (forall raw :: raw in raws ==> KeyOf(web, raw) in p.seen) &&
      (forall key :: key in p.seen ==> Accounted(p, key)) &&
      |p.eligible| + |p.rejected| == |p.seen|
  {
    if raws != [] {
      var init, raw := raws[..|raws| - 1], raws[|raws| - 1];
      assert raws == init + [raw];
      var p, q := PlanOf(web, sameOriginOnly, entry, init), PlanOf(web, sameOriginOnly, entry, raws);
      PlanAccountsForEveryLink(web, sameOriginOnly, entry, init);
      PlanStep(web, sameOriginOnly, entry, raws);
      hide KeyOf, PlanOf, Accounted;
      forall k | k in q.seen ensures Accounted(q, k) { TakesInAccounted(p, q, KeyOf(web, raw), k); }
    }
  }

  /** Eligible pages are distinct, come from links that normalize, and are in scope. */
  lemma {:induction false} EligiblePagesAreDistinct(web: Web, sameOriginOnly: bool, entry: string, raws: seq<string>)
    ensures var p := PlanOf(web, sameOriginOnly, entry, raws);
      (forall url :: url in p.eligible ==> url in p.seen) &&
      (forall i, j :: 0 <= i < j < |p.eligible| ==> p.eligible[i] != p.eligible[j]) &&
      (forall url :: url in p.eligible ==> (exists raw :: raw in raws && web.normalize(raw) == Some(url)) &&
                                           (sameOriginOnly ==> web.origin(url) == web.origin(entry)))
  {
    if raws != [] {
      var init, raw := raws[..|raws| - 1], raws[|raws| - 1];
      assert raws == init + [raw];
      EligiblePagesAreDistinct(web, sameOriginOnly, entry, init);
      assert raw in raws;
    }
  }

  predicate InScope(web: Web, sameOriginOnly: bool, entry: string, url: string) {
    sameOriginOnly ==> web.origin(url) == web.origin(entry)
  }

  /** No link before link i has its key. */
  ghost predicate IsFirst(web: Web, raws: seq<string>, i: nat) {
    i < |raws| && forall j :: 0 <= j < i ==> KeyOf(web, raws[j]) != KeyOf(web, raws[i])
  }

  /** Link i is the first with its key, normalizes and is in scope. */
  ghost predicate LeadsToPage(web: Web, sameOriginOnly: bool, entry: string, raws: seq<string>, i: nat) {
    IsFirst(web, raws, i) && web.normalize(raws[i]).Some? &&
    InScope(web, sameOriginOnly, entry, web.normalize(raws[i]).value)
  }

  /** The eligible pages are those of the links at `pages`, the rejected links those at `others`, in order. */
  ghost predicate PlanAt(web: Web, sameOriginOnly: bool, entry: string, raws: seq<string>, p: Plan, pages: seq<nat>,
                         others: seq<nat>) {
    && Rising(pages, |raws|) && Rising(others, |raws|)
    && (forall i :: 0 <= i < |raws| ==> (i in pages <==> LeadsToPage(web, sameOriginOnly, entry, raws, i)))
    && (forall i :: 0 <= i < |raws| ==>
         (i in others <==> IsFirst(web, raws, i) && !LeadsToPage(web, sameOriginOnly, entry, raws, i)))
    && |p.eligible| == |pages| && |p.rejected| == |others|
    && (forall k :: 0 <= k < |pages| ==> web.normalize(raws[pages[k]]) == Some(p.eligible[k]))
    && (forall k :: 0 <= k < |others| ==>
         var raw := raws[others[k]];
         p.rejected[k] == match web.normalize(raw)
           case None => Rejected(web.trim(raw), false)
           case Some(url) => Rejected(url, true))
  }

  lemma {:induction false} FirstStays(web: Web, sameOriginOnly: bool, entry: string, init: seq<string>, raw: string,
                                      i: nat)
    requires i < |init|
    ensures IsFirst(web, init + [raw], i) <==> IsFirst(web, init, i)
    ensures LeadsToPage(web, sameOriginOnly, entry, init + [raw], i)
      <==> LeadsToPage(web, sameOriginOnly, entry, init, i)
  {
    hide KeyOf;
    var all := init + [raw];
    assert forall j :: 0 <= j <= i ==> all[j] == init[j];
  }

  lemma {:induction false} LastIsFirst(web: Web, sameOriginOnly: bool, entry: string, init: seq<string>, raw: string)
    ensures IsFirst(web, init + [raw], |init|)
      <==> KeyOf(web, raw) !in PlanOf(web, sameOriginOnly, entry, init).seen
  {
    SeenAre(web, sameOriginOnly, entry, init, KeyOf(web, raw));
    hide KeyOf, PlanOf;
    var all := init + [raw];
    assert all[|init|] == raw && forall j :: 0 <= j < |init| ==> all[j] == init[j];
  }

  lemma {:induction false} SeenAre(web: Web, sameOriginOnly: bool, entry: string, raws: seq<string>, key: string)
    ensures key in PlanOf(web, sameOriginOnly, entry, raws).seen <==>
      exists j :: 0 <= j < |raws| && KeyOf(web, raws[j]) == key
  {
    if raws != [] {
      var init, raw := raws[..|raws| - 1], raws[|raws| - 1];
      SeenAre(web, sameOriginOnly, entry, init, key);
      PlanStep(web, sameOriginOnly, entry, raws);
      hide PlanOf, KeyOf;
      if j :| 0 <= j < |init| && KeyOf(web, init[j]) == key { assert KeyOf(web, raws[j]) == key; }
    }
  }

  lemma {:induction false} MorePages(web: Web, sameOriginOnly: bool, entry: string, init: seq<string>, raw: string,
                                     p: Plan, pages: seq<nat>, others: seq<nat>, url: string)
    requires PlanAt(web, sameOriginOnly, entry, init, p, pages, others)
    requires LeadsToPage(web, sameOriginOnly, entry, init + [raw], |init|) && web.normalize(raw) == Some(url)
    ensures PlanAt(web, sameOriginOnly, entry, init + [raw], p.(eligible := p.eligible + [url]), pages + [|init|],
                   others)
  {
    var all, more := init + [raw], pages + [|init|];
    forall i: nat | i < |init| ensures i in more <==> i in pages { }
    assert more[|pages|] == |init|;
    forall i: nat | i < |init|
      ensures IsFirst(web, all, i) <==> IsFirst(web, init, i)
      ensures LeadsToPage(web, sameOriginOnly, entry, all, i) <==> LeadsToPage(web, sameOriginOnly, entry, init, i)
    {
      FirstStays(web, sameOriginOnly, entry, init, raw, i);
    }
    assert |init| !in others;
    hide IsFirst, LeadsToPage;
  }

  lemma {:induction false} MoreOthers(web: Web, sameOriginOnly: bool, entry: string, init: seq<string>, raw: string,
                                      p: Plan, pages: seq<nat>, others: seq<nat>, r: Rejected)
    requires PlanAt(web, sameOriginOnly, entry, init, p, pages, others)
    requires IsFirst(web, init + [raw], |init|) && !LeadsToPage(web, sameOriginOnly, entry, init + [raw], |init|)
    requires r == match web.normalize(raw) case None => Rejected(web.trim(raw), false) case Some(u) => Rejected(u, true)
    ensures PlanAt(web, sameOriginOnly, entry, init + [raw], p.(rejected := p.rejected + [r]), pages, others + [|init|])
  {
    var all, more := init + [raw], others + [|init|];
    forall i: nat | i < |init| ensures i in more <==> i in others { }
    assert more[|others|] == |init|;
    forall i: nat | i < |init|
      ensures IsFirst(web, all, i) <==> IsFirst(web, init, i)
      ensures LeadsToPage(web, sameOriginOnly, entry, all, i) <==> LeadsToPage(web, sameOriginOnly, entry, init, i)
    {
      FirstStays(web, sameOriginOnly, entry, init, raw, i);
    }
    assert |init| !in pages;
    hide IsFirst, LeadsToPage;
  }

  lemma {:induction false} NothingNew(web: Web, sameOriginOnly: bool, entry: string, init: seq<string>, raw: string,
                                      p: Plan, pages: seq<nat>, others: seq<nat>)
    requires PlanAt(web, sameOriginOnly, entry, init, p, pages, others)
    requires !IsFirst(web, init + [raw], |init|)
    ensures PlanAt(web, sameOriginOnly, entry, init + [raw], p, pages, others)
  {
    var all := init + [raw];
    forall i: nat | i < |init|
      ensures IsFirst(web, all, i) <==> IsFirst(web, init, i)
      ensures LeadsToPage(web, sameOriginOnly, entry, all, i) <==> LeadsToPage(web, sameOriginOnly, entry, init, i)
    {
      FirstStays(web, sameOriginOnly, entry, init, raw, i);
    }
    assert !LeadsToPage(web, sameOriginOnly, entry, all, |init|);
    hide IsFirst, LeadsToPage;
  }

  /**
   The plan, link by link: a link counts if no earlier one has its key; then it leads to a page if it normalizes and is
   in scope, and is rejected otherwise, as cross-origin exactly if it normalizes. Both lists keep the links' order.
   */
  lemma {:induction false} PlanSortsLinks(web: Web, sameOriginOnly: bool, entry: string, raws: seq<string>)
    returns (pages: seq<nat>, others: seq<nat>)
    ensures PlanAt(web, sameOriginOnly, entry, raws, PlanOf(web, sameOriginOnly, entry, raws), pages, others)
  {
    if raws == [] {
      pages, others := [], [];
    } else {
      var init, raw := raws[..|raws| - 1], raws[|raws| - 1];
      assert raws == init + [raw];
      var p, q := PlanOf(web, sameOriginOnly, entry, init), PlanOf(web, sameOriginOnly, entry, raws);
      pages, others := PlanSortsLinks(web, sameOriginOnly, entry, init);
      LastIsFirst(web, sameOriginOnly, entry, init, raw);
      hide PlanAt, IsFirst;
      if KeyOf(web, raw) in p.seen {
        NothingNew(web, sameOriginOnly, entry, init, raw, p, pages, others);
      } else if LeadsToPage(web, sameOriginOnly, entry, raws, |init|) {
        var url := web.normalize(raw).value;
        MorePages(web, sameOriginOnly, entry, init, raw, p, pages, others, url);
        SameLists(web, sameOriginOnly, entry, raws, p.(eligible := p.eligible + [url]), q, pages + [|init|], others);
        pages := pages + [|init|];
      } else {
        var r := q.rejected[|q.rejected| - 1];
        MoreOthers(web, sameOriginOnly, entry, init, raw, p, pages, others, r);
        SameLists(web, sameOriginOnly, entry, raws, p.(rejected := p.rejected + [r]), q, pages, others + [|init|]);
        others := others + [|init|];
      }
    }
  }

  lemma SameLists(web: Web, sameOriginOnly: bool, entry: string, raws: seq<string>, p: Plan, q: Plan,
                  pages: seq<nat>, others: seq<nat>)
    requires PlanAt(web, sameOriginOnly, entry, raws, p, pages, others)
    requires p.eligible == q.eligible && p.rejected == q.rejected
    ensures PlanAt(web, sameOriginOnly, entry, raws, q, pages, others)
  {
    hide IsFirst, LeadsToPage;
  }

  /** Link i is the first with the key `key` and is rejected, as cross-origin or as not a page at all. */
  ghost predicate LeadsNowhere(web: Web, sameOriginOnly: bool, entry: string, raws: seq<string>, key: string,
                               cross: bool, i: nat) {
    IsFirst(web, raws, i) && KeyOf(web, raws[i]) == key && cross == web.normalize(raws[i]).Some? &&
    (cross ==> !InScope(web, sameOriginOnly, entry, key))
  }

  /** A page is in the plan if and only if the first link with its key normalizes and is in scope. */
  lemma {:induction false} EligibleIff(web: Web, sameOriginOnly: bool, entry: string, raws: seq<string>, key: string)
    ensures key in PlanOf(web, sameOriginOnly, entry, raws).eligible <==>
      exists i: nat :: LeadsToPage(web, sameOriginOnly, entry, raws, i) && KeyOf(web, raws[i]) == key
  {
    var pages, others := PlanSortsLinks(web, sameOriginOnly, entry, raws);
    var p := PlanOf(web, sameOriginOnly, entry, raws);
    hide PlanOf;
    if key in p.eligible {
      var k :| 0 <= k < |pages| && p.eligible[k] == key;
      assert pages[k] in pages && LeadsToPage(web, sameOriginOnly, entry, raws, pages[k]);
    }
    if i: nat :| LeadsToPage(web, sameOriginOnly, entry, raws, i) && KeyOf(web, raws[i]) == key {
      var k :| 0 <= k < |pages| && pages[k] == i;
      assert p.eligible[k] == key;
    }
  }

  /** A link's key is rejected as cross-origin, or as no page, if and only if the first link with it is that. */
  lemma {:induction false} RejectedIff(web: Web, sameOriginOnly: bool, entry: string, raws: seq<string>, key: string,
                                       cross: bool)
    ensures Rejected(key, cross) in PlanOf(web, sameOriginOnly, entry, raws).rejected <==>
      exists i: nat :: LeadsNowhere(web, sameOriginOnly, entry, raws, key, cross, i)
  {
    var pages, others := PlanSortsLinks(web, sameOriginOnly, entry, raws);
    var p := PlanOf(web, sameOriginOnly, entry, raws);
    hide PlanOf, IsFirst;
    if Rejected(key, cross) in p.rejected {
      var k :| 0 <= k < |others| && p.rejected[k] == Rejected(key, cross);
      assert others[k] in others;
      assert LeadsNowhere(web, sameOriginOnly, entry, raws, key, cross, others[k]);
    }
    if i: nat :| LeadsNowhere(web, sameOriginOnly, entry, raws, key, cross, i) {
      assert IsFirst(web, raws, i) ==> i < |raws| by { FirstIsLink(web, raws, i); }
      var k :| 0 <= k < |others| && others[k] == i;
      assert p.rejected[k] == Rejected(key, cross);
    }
  }

  lemma FirstIsLink(web: Web, raws: seq<string>, i: nat)
    requires IsFirst(web, raws, i)
    ensures i < |raws|
  {
  }

  /**
   The first eligible URL is the entry URL normalized once more, so the entry page leads if it normalizes to itself.
   */
  lemma {:induction false} PlanStartsAtEntry(web: Web, sameOriginOnly: bool, entry: string, discovered: seq<string>,
                                             first: string)
    requires web.normalize(entry) == Some(first) && (sameOriginOnly ==> web.origin(first) == web.origin(entry))
    ensures var p := PlanOf(web, sameOriginOnly, entry, [entry] + discovered);
      p.eligible != [] && p.eligible[0] == first
  {
    var raws := [entry] + discovered;
    if discovered == [] {
      assert raws[..0] == [];
    } else {
      PlanStartsAtEntry(web, sameOriginOnly, entry, discovered[..|discovered| - 1], first);
      assert raws[..|raws| - 1] == [entry] + discovered[..|discovered| - 1];
    }
  }

  function Blank(url: string): Record {
    Record(url, NotVisited, None, 0, 0, [])
  }

  function SkippedFor(url: string, reason: string): Record {
    Blank(url).(reason := Some(reason))
  }

  function QueueLength(maxPages: int, eligible: seq<string>): nat {
    if maxPages <= 0 then 0 else if maxPages < |eligible| then maxPages else |eligible|
  }

  // ---------------------------------------------------------------------
  // Coverage
  // ---------------------------------------------------------------------

  datatype Coverage = Coverage(discovered: nat, tested: nat, skipped: nat, unreachable: nat, generated: nat,
                               deduplicated: nat)

  function Summary(pages: seq<Record>): Coverage {
    if pages == [] then Coverage(0, 0, 0, 0, 0, 0)
    else
      var c, r := Summary(pages[..|pages| - 1]), pages[|pages| - 1];
      Coverage(c.discovered + 1,
               c.tested + (if r.status == Tested then 1 else 0),
               c.skipped + (if r.status == NotVisited then 1 else 0),
               c.unreachable + (if r.status == Unreachable then 1 else 0),
               c.generated + r.generated, c.deduplicated + r.deduplicated)
  }

  /** Adding up a figure of every page. */
  function SumOver(pages: seq<Record>, f: Record -> nat): nat {
    if pages == [] then 0 else f(pages[0]) + SumOver(pages[1..], f)
  }

  lemma {:induction false} SumOverStep(pages: seq<Record>, r: Record, f: Record -> nat)
    ensures SumOver(pages + [r], f) == SumOver(pages, f) + f(r)
  {
    if pages == [] {
      assert [] + [r] == [r];
    } else {
      assert (pages + [r])[1..] == pages[1..] + [r];
      SumOverStep(pages[1..], r, f);
    }
  }

  function PagesWith(pages: seq<Record>, status: PageStatus): set<nat> {
    set i: nat | i < |pages| && pages[i].status == status
  }

  lemma {:induction false} PagesWithStep(pages: seq<Record>, r: Record, status: PageStatus)
    ensures |PagesWith(pages + [r], status)| == |PagesWith(pages, status)| + if r.status == status then 1 else 0
  {
    assert PagesWith(pages + [r], status) == PagesWith(pages, status) + if r.status == status then {|pages|} else {};
  }

  function GeneratedOn(r: Record): nat { r.generated }
  function DeduplicatedOn(r: Record): nat { r.deduplicated }

  /** What each figure of the coverage counts. */
  lemma {:induction false} CoverageIs(pages: seq<Record>)
    ensures Summary(pages) ==
      Coverage(|pages|, |PagesWith(pages, Tested)|, |PagesWith(pages, NotVisited)|, |PagesWith(pages, Unreachable)|,
               SumOver(pages, GeneratedOn), SumOver(pages, DeduplicatedOn))
  {
    if pages != [] {
      var init, r := pages[..|pages| - 1], pages[|pages| - 1];
      assert pages == init + [r];
      CoverageIs(init);
      PagesWithStep(init, r, Tested);
      PagesWithStep(init, r, NotVisited);
      PagesWithStep(init, r, Unreachable);
      SumOverStep(init, r, GeneratedOn);
      SumOverStep(init, r, DeduplicatedOn);
      hide PagesWith, SumOver;
    }
  }

  /**
   Every discovered page is tested, skipped or unreachable, and if exactly the first n were visited, the rest are
   skipped.
   */
  lemma {:induction false} CoverageAddsUp(pages: seq<Record>, n: nat)
    requires n <= |pages| && forall i :: 0 <= i < |pages| ==> (pages[i].status == NotVisited <==> i >= n)
    ensures var c := Summary(pages);
      c.discovered == |pages| && c.tested + c.skipped + c.unreachable == c.discovered && c.skipped == |pages| - n
  {
    if pages != [] {
      CoverageAddsUp(pages[..|pages| - 1], if n == |pages| then n - 1 else n);
    }
  }

  method Summarize(pages: seq<Record>) returns (c: Coverage)
    ensures c == Summary(pages)
  {
    c := Coverage(0, 0, 0, 0, 0, 0);
    for i := 0 to |pages|
      invariant c == Summary(pages[..i])
    {
      var page := pages[i];
      assert pages[..i + 1][..i] == pages[..i];
      match page.status {
        case Tested => c := c.(tested := c.tested + 1);
        case Unreachable => c := c.(unreachable := c.unreachable + 1);
        case NotVisited => c := c.(skipped := c.skipped + 1);
      }
      c := c.(discovered := c.discovered + 1, generated := c.generated + page.generated,
              deduplicated := c.deduplicated + page.deduplicated);
    }
    assert pages[..|pages|] == pages;
  }

  // ---------------------------------------------------------------------
  // The sweep
  // ---------------------------------------------------------------------

  datatype Report = Report(entry: string, pages: seq<Record>, coverage: Coverage, budgetExhausted: bool,
                           linksOutOfScope: nat)

  /** The record of queued page i once it has been visited. */
  function RecordOf(start: map<string, string>, cfg: Settings, urls: seq<string>, visit: nat -> Visit,
                    i: nat): (r: Record)
    requires i < |urls|
    ensures r.url == urls[i] && r.status != NotVisited
  {
    RecordAfterVisit(cfg, SeenFrom(start, cfg, urls, visit, i), Blank(urls[i]), visit(i))
  }

  /** The first n queued pages are as their visits left them, the rest as before. */
  ghost predicate QueueVisited(start: map<string, string>, cfg: Settings, urls: seq<string>, visit: nat -> Visit,
                               queue: nat, before: seq<Record>, seen: map<string, string>, pages: seq<Record>, n: nat) {
    && n <= queue <= |urls| == |pages| == |before| && seen == SeenFrom(start, cfg, urls, visit, n)
    && (forall i :: 0 <= i < n ==> pages[i] == RecordOf(start, cfg, urls, visit, i))
    && (forall i :: n <= i < queue ==> pages[i] == Blank(urls[i]))
    && (forall i :: queue <= i < |urls| ==> pages[i] == before[i])
  }

  lemma VisitNext(start: map<string, string>, cfg: Settings, urls: seq<string>, visit: nat -> Visit,
                  queue: nat, before: seq<Record>, seen: map<string, string>, pages: seq<Record>, n: nat)
    requires n < queue && QueueVisited(start, cfg, urls, visit, queue, before, seen, pages, n)
    ensures QueueVisited(start, cfg, urls, visit, queue, before, SeenAfterVisit(cfg, seen, pages[n].url, visit(n)),
                         pages[n := RecordAfterVisit(cfg, seen, pages[n], visit(n))], n + 1)
  {
    hide SeenAfterVisit, RecordAfterVisit, SeenFrom, RecordOf;
    VisitStep(start, cfg, urls, visit, n);
  }

  lemma VisitStep(start: map<string, string>, cfg: Settings, urls: seq<string>, visit: nat -> Visit, n: nat)
    requires n < |urls|
    ensures var before := SeenFrom(start, cfg, urls, visit, n);
      && SeenFrom(start, cfg, urls, visit, n + 1) == SeenAfterVisit(cfg, before, urls[n], visit(n))
      && RecordOf(start, cfg, urls, visit, n) == RecordAfterVisit(cfg, before, Blank(urls[n]), visit(n))
  {
    hide SeenAfterVisit, RecordAfterVisit;
  }

  /** The first n queued pages as their visits left them, the rest of the queue out of budget, the rest beyond it. */
  ghost predicate Swept(start: map<string, string>, cfg: Settings, urls: seq<string>, visit: nat -> Visit,
                        expired: nat -> bool, maxPages: int, n: nat, seen: map<string, string>, report: Report) {
    var pages, queue := report.pages, if maxPages <= 0 then 0 else if maxPages < |urls| then maxPages else |urls|;
    && report.budgetExhausted == (n < queue) && n <= queue <= |urls| == |pages|
    && (forall i :: 0 <= i < n ==> !expired(i)) && (n < queue ==> expired(n))
    && seen == SeenFrom(start, cfg, urls, visit, n)
    && (forall i :: 0 <= i < n ==> pages[i] == RecordOf(start, cfg, urls, visit, i))
    && (forall i :: n <= i < queue ==> pages[i] == Record(urls[i], NotVisited, Some("budget-exhausted"), 0, 0, []))
    && (forall i :: queue <= i < |urls| ==> pages[i] == Record(urls[i], NotVisited, Some("max-pages"), 0, 0, []))
  }

  class Sweep {
    const settings: Settings
    const sameOriginOnly: bool
    const maxPages: int
    var seen: map<string, string>
    var pages: seq<Record>

    constructor (settings: Settings, sameOriginOnly: bool, maxPages: int)
      ensures this.settings == settings && this.sameOriginOnly == sameOriginOnly && this.maxPages == maxPages
      ensures seen == map[]
    {
      this.settings, this.sameOriginOnly, this.maxPages := settings, sameOriginOnly, maxPages;
      seen, pages := map[], [];
    }

    method Claim(scenarios: seq<Scenario>, url: string) returns (kept: seq<Scenario>, deduped: seq<Result>)
      modifies this`seen
      ensures Split(kept, deduped, seen) == ApplyDedupe(settings.dedupe, old(seen), scenarios, url)
    {
      if !settings.dedupe { return scenarios, []; }
      kept, deduped := [], [];
      for i := 0 to |scenarios|
        invariant Split(kept, deduped, seen) == Dedupe(old(seen), scenarios[..i], url)
      {
        var s := scenarios[i];
        assert scenarios[..i + 1][..i] == scenarios[..i];
        var signature := SignatureOf(s);
        if signature !in seen {
          seen := seen[signature := url];
          kept := kept + [s];
        } else {
          deduped := deduped + [Result(s.description, Deduplicated, Some(seen[signature]))];
        }
      }
      assert scenarios[..|scenarios|] == scenarios;
    }

    /** Tests one page, writing its record in place. */
    method SweepPage(i: nat, visit: Visit)
      requires i < |pages|
      modifies this
      ensures seen == SeenAfterVisit(settings, old(seen), old(pages)[i].url, visit)
      ensures pages == old(pages)[i := RecordAfterVisit(settings, old(seen), old(pages)[i], visit)]
    {
      var record := pages[i];
      match visit {
        case NoLoad(message) =>
          record := record.(status := Unreachable, reason := Some(message),
                            results := [Result("Load " + record.url, Failed, None)]);
        case NoPlan(message) =>
          record := record.(status := Tested, reason := Some(message),
                            results := [Result("Sweep of " + record.url, Failed, None)]);
        case Ran(scenarios, execution) =>
          record := record.(generated := |scenarios|);
          var kept, deduped := Claim(scenarios, record.url);
          record := record.(deduplicated := |deduped|);
          var results, error := RunRepeatedPlan(kept, settings.repeat, execution);
          match error {
            case None =>
              record := record.(results := results + deduped, status := Tested, reason := None);
            case Some(message) =>
              ghost var claimed := seen;
              var reached := Names(results);
              for k := 0 to |kept|
                invariant seen == Release(claimed, kept[..k], reached)
                invariant pages == old(pages)
              {
                ReleaseStep(claimed, kept, reached, k);
                if kept[k].description !in reached { seen := seen - {SignatureOf(kept[k])}; }
              }
              assert kept[..|kept|] == kept;
              record := record.(results := results + deduped + [Result("Sweep of " + record.url, Failed, None)],
                                status := Tested, reason := Some(message));
          }
      }
      pages := pages[i := record];
    }

    method MakePlan(web: Web, entry: string, discovered: seq<string>) returns (plan: Plan)
      ensures plan == PlanOf(web, sameOriginOnly, entry, [entry] + discovered)
    {
      var raws := [entry] + discovered;
      plan := Plan({}, [], []);
      for i := 0 to |raws|
        invariant plan == PlanOf(web, sameOriginOnly, entry, raws[..i])
      {
        var raw := raws[i];
        assert raws[..i + 1][..i] == raws[..i];
        var normalized := web.normalize(raw);
        var key := if normalized.Some? then normalized.value else web.trim(raw);
        if key !in plan.seen {
          plan := plan.(seen := plan.seen + {key});
          if normalized.None? {
            plan := plan.(rejected := plan.rejected + [Rejected(key, false)]);
          } else if sameOriginOnly && web.origin(normalized.value) != web.origin(entry) {
            plan := plan.(rejected := plan.rejected + [Rejected(key, true)]);
          } else {
            plan := plan.(eligible := plan.eligible + [normalized.value]);
          }
        }
      }
      assert raws[..|raws|] == raws;
    }

    /**
     The whole sweep; `expired(i)` says whether the budget is spent before page i.
     Every eligible page has a record: the first n queued ones as their visits
     left them, in order; the rest of the queue skipped for the budget; what is
     beyond the page limit skipped for that.
     */
    method Run(web: Web, entryUrl: string, discovered: seq<string>, visit: nat -> Visit, expired: nat -> bool)
      returns (report: Option<Report>, urls: seq<string>, n: nat)
      modifies this
      ensures report.None? <==> web.normalize(entryUrl).None?
      ensures report.None? ==> seen == old(seen) && pages == old(pages)
      ensures report.Some? ==>
        (report.value.entry == web.normalize(entryUrl).value && report.value.pages == pages &&
         (var plan := PlanOf(web, sameOriginOnly, report.value.entry, [report.value.entry] + discovered);
          urls == plan.eligible && report.value.linksOutOfScope == |plan.rejected|) &&
         Swept(old(seen), settings, urls, visit, expired, maxPages, n, seen, report.value) &&
         report.value.coverage == Summary(pages) &&
         report.value.coverage.tested + report.value.coverage.unreachable == n)
    {
      hide PlanOf, RecordOf, SeenFrom, Summary;
      var entry := web.normalize(entryUrl);
      if entry.None? { return None, [], 0; }
      var plan := MakePlan(web, entry.value, discovered);
      urls := plan.eligible;
      LayOut(plan.eligible);
      n := SweepQueue(QueueLength(maxPages, plan.eligible), plan.eligible, visit, expired);
      assert forall i :: 0 <= i < n ==> pages[i].status != NotVisited;
      CoverageAddsUp(pages, n);
      var coverage := Summarize(pages);
      report := Some(Report(entry.value, pages, coverage, n < QueueLength(maxPages, plan.eligible), |plan.rejected|));
      assert Swept(old(seen), settings, urls, visit, expired, maxPages, n, seen, report.value);
      hide Swept;
    }

    /** Visits queued pages until the budget is spent, then marks the rest of the queue. */
    method SweepQueue(queue: nat, urls: seq<string>, visit: nat -> Visit, expired: nat -> bool) returns (n: nat)
      requires queue <= |pages| == |urls|
      requires forall i :: 0 <= i < queue ==> pages[i] == Blank(urls[i])
      modifies this
      ensures n <= queue && |pages| == |urls|
      ensures (forall i :: 0 <= i < n ==> !expired(i)) && (n < queue ==> expired(n))
      ensures seen == SeenFrom(old(seen), settings, urls, visit, n)
      ensures forall i :: 0 <= i < n ==> pages[i] == RecordOf(old(seen), settings, urls, visit, i)
      ensures forall i :: n <= i < queue ==> pages[i] == SkippedFor(urls[i], "budget-exhausted")
      ensures forall i :: queue <= i < |urls| ==> pages[i] == old(pages)[i]
    {
      n := 0;
      hide SeenAfterVisit, RecordAfterVisit, RecordOf;
      assert QueueVisited(seen, settings, urls, visit, queue, pages, seen, pages, 0);
      hide SeenFrom;
      while n < queue && !expired(n)
        invariant n <= queue && |pages| == |urls|
        invariant forall i :: 0 <= i < n ==> !expired(i)
        invariant QueueVisited(old(seen), settings, urls, visit, queue, old(pages), seen, pages, n)
      {
        hide QueueVisited;
        VisitNext(old(seen), settings, urls, visit, queue, old(pages), seen, pages, n);
        SweepPage(n, visit(n));
        n := n + 1;
      }
      if n < queue { SkipFrom(n, queue); }
    }

    /** One blank record per eligible page; those beyond the limit are skipped at once. */
    method LayOut(eligible: seq<string>)
      modifies this`pages
      ensures |pages| == |eligible|
      ensures forall i :: 0 <= i < QueueLength(maxPages, eligible) ==> pages[i] == Blank(eligible[i])
      ensures forall i :: QueueLength(maxPages, eligible) <= i < |eligible| ==>
        pages[i] == SkippedFor(eligible[i], "max-pages")
    {
      pages := [];
      for i := 0 to |eligible|
        invariant |pages| == i
        invariant forall k :: 0 <= k < i && k < maxPages ==> pages[k] == Blank(eligible[k])
        invariant forall k :: 0 <= k < i && k >= maxPages ==> pages[k] == SkippedFor(eligible[k], "max-pages")
      {
        var record := Blank(eligible[i]);
        if i >= maxPages { record := record.(reason := Some("max-pages")); }
        pages := pages + [record];
      }
    }

    method SkipFrom(n: nat, queue: nat)
      requires n <= queue <= |pages|
      modifies this`pages
      ensures |pages| == |old(pages)|
      ensures forall i :: n <= i < queue ==>
        pages[i] == old(pages)[i].(status := NotVisited, reason := Some("budget-exhausted"))
      ensures forall i :: 0 <= i < n || queue <= i < |pages| ==> pages[i] == old(pages)[i]
    {
      for k := n to queue
        invariant |pages| == |old(pages)|
        invariant forall i :: n <= i < k ==>
          pages[i] == old(pages)[i].(status := NotVisited, reason := Some("budget-exhausted"))
        invariant forall i :: 0 <= i < n || k <= i < |pages| ==> pages[i] == old(pages)[i]
      {
        pages := pages[k := pages[k].(status := NotVisited, reason := Some("budget-exhausted"))];
      }
    }
  }
}
