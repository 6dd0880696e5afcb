/**
 The bounded CI wait: what one look at the checks concludes, and the polling
 loop with its count ceiling and its deadline.
 */
module CiWait {
  import opened Options

  const GH_CALL_TIMEOUT_MS := 20000

  const EXIT_SUCCESS := 0
  const EXIT_FAILURE := 1
  const EXIT_CANCELLED := 2
  const EXIT_SKIPPED := 3
  const EXIT_TIMEOUT := 4
  const EXIT_NOT_FOUND := 5
  const EXIT_GH_ERROR := 6

  /** One look: interrupted, a final exit code, or still waiting (with the missing names, in PR mode). */
  datatype Answer = Aborted | Final(exitCode: nat) | Waiting(missing: Option<seq<string>>)

  // ---------------------------------------------------------------------
  // One look at a pull request
  // ---------------------------------------------------------------------

  /** String.prototype.toUpperCase and toLowerCase. */
  datatype Casing = Casing(upper: string -> string, lower: string -> string)

  datatype Check = Check(name: Option<string>, context: Option<string>, conclusion: string, state: string)

  /** What the gh call gave: data holds the head commit, if it is a string, and the rollup. */
  datatype GhResult = Interrupted | CallFailed(notFound: bool) | Data(head: Option<string>, rollup: seq<Check>)

  datatype Status = Success | Pending | Ended(ending: string)

  predicate Concerns(c: Check, name: string) {
    c.name == Some(name) || c.context == Some(name)
  }

  const PENDING_LABELS := {"", "IN_PROGRESS", "QUEUED", "PENDING", "WAITING", "REQUESTED", "EXPECTED"}

  function CheckStatus(k: Casing, c: Check): Status {
    var raw := k.upper(if c.conclusion != "" then c.conclusion else c.state);
    if raw == "SUCCESS" then Success else if raw in PENDING_LABELS then Pending else Ended(k.lower(raw))
  }

  function FindChecks(rollup: seq<Check>, name: string): seq<Check> {
    if rollup == [] then []
    else
      var last := rollup[|rollup| - 1];
      FindChecks(rollup[..|rollup| - 1], name) + if Concerns(last, name) then [last] else []
  }

  /** The first entry that ended without success. */
  function FirstEnded(k: Casing, checks: seq<Check>): Option<string> {
    if checks == [] then None
    else
      match FirstEnded(k, checks[..|checks| - 1])
      case Some(ending) => Some(ending)
      case None => match CheckStatus(k, checks[|checks| - 1]) case Ended(ending) => Some(ending) case _ => None
  }

  predicate AllSucceed(k: Casing, checks: seq<Check>) {
    forall i :: 0 <= i < |checks| ==> CheckStatus(k, checks[i]) == Success
  }

  function ExitCodeFor(ending: string): nat {
    if ending == "cancelled" then EXIT_CANCELLED
    else if ending == "skipped" || ending == "neutral" then EXIT_SKIPPED
    else EXIT_FAILURE
  }

  datatype Tally = Tally(missing: seq<string>, failing: Option<string>, allSuccess: bool)

  function TallyOf(k: Casing, required: seq<string>, rollup: seq<Check>): Tally {
    if required == [] then Tally([], None, true)
    else
      var t, name := TallyOf(k, required[..|required| - 1], rollup), required[|required| - 1];
      var matches := FindChecks(rollup, name);
      if matches == [] then t.(missing := t.missing + [name], allSuccess := false)
      else if AllSucceed(k, matches) then t
      else t.(allSuccess := false, failing := if t.failing.Some? then t.failing else FirstEnded(k, matches))
  }

  function PrAnswer(k: Casing, sha: string, required: seq<string>, gh: GhResult): Answer {
    match gh
    case Interrupted => Aborted
    case CallFailed(notFound) => Final(if notFound then EXIT_NOT_FOUND else EXIT_GH_ERROR)
    case Data(head, rollup) =>
      if head == None then Final(EXIT_GH_ERROR)
      else if k.lower(head.value) != sha then Final(EXIT_NOT_FOUND)
      else
        var t := TallyOf(k, required, rollup);
        if t.failing.Some? then Final(ExitCodeFor(t.failing.value))
        else if t.allSuccess then Final(EXIT_SUCCESS)
        else Waiting(Some(t.missing))
  }

  method FetchPrOnce(k: Casing, sha: string, required: seq<string>, gh: GhResult) returns (answer: Answer)
    ensures answer == PrAnswer(k, sha, required, gh)
  {
    match gh {
      case Interrupted => return Aborted;
      case CallFailed(notFound) => return Final(if notFound then EXIT_NOT_FOUND else EXIT_GH_ERROR);
      case Data(head, rollup) =>
        if head == None { return Final(EXIT_GH_ERROR); }
        if k.lower(head.value) != sha { return Final(EXIT_NOT_FOUND); }
        var missing: seq<string> := [];
        var failing: Option<string> := None;
        var allSuccess := true;
        for i := 0 to |required|
          invariant TallyOf(k, required[..i], rollup) == Tally(missing, failing, allSuccess)
        {
          assert required[..i + 1][..i] == required[..i];
          var matches := FindChecks(rollup, required[i]);
          if matches == [] {
            missing, allSuccess := missing + [required[i]], false;
            continue;
          }
          if AllSucceed(k, matches) { continue; }
          allSuccess := false;
          var ended := FirstEnded(k, matches);
          if ended.Some? && failing.None? { failing := ended; }
        }
        assert required[..|required|] == required;
        if failing.Some? { return Final(ExitCodeFor(failing.value)); }
        if allSuccess { return Final(EXIT_SUCCESS); }
        answer := Waiting(Some(missing));
    }
  }

  /** Some entry of the rollup concerns the name, and every such entry succeeded. */
  ghost predicate Green(k: Casing, rollup: seq<Check>, name: string) {
    (exists i :: 0 <= i < |rollup| && Concerns(rollup[i], name)) &&
    (forall i :: 0 <= i < |rollup| && Concerns(rollup[i], name) ==> CheckStatus(k, rollup[i]) == Success)
  }

  lemma {:induction false} FoundChecksAre(rollup: seq<Check>, name: string)
    ensures forall c :: c in FindChecks(rollup, name) <==> c in rollup && Concerns(c, name)
  {
    if rollup != [] {
      assert rollup == rollup[..|rollup| - 1] + [rollup[|rollup| - 1]];
      hide Concerns;
      FoundChecksAre(rollup[..|rollup| - 1], name);
    }
  }

  lemma {:induction false} GreenIs(k: Casing, rollup: seq<Check>, name: string)
    ensures Green(k, rollup, name) <==> FindChecks(rollup, name) != [] && AllSucceed(k, FindChecks(rollup, name))
  {
    hide Concerns, CheckStatus, FindChecks;
    FoundChecksAre(rollup, name);
    var found := FindChecks(rollup, name);
    if found != [] { assert found[0] in rollup && Concerns(found[0], name); }
    forall i | 0 <= i < |rollup| && Concerns(rollup[i], name) ensures rollup[i] in found {
    }
    forall i | 0 <= i < |found| ensures found[i] in rollup && Concerns(found[i], name) {
      assert found[i] in found;
    }
  }

  lemma {:induction false} FirstEndedIs(k: Casing, checks: seq<Check>)
    ensures FirstEnded(k, checks).Some? <==> exists i :: 0 <= i < |checks| && CheckStatus(k, checks[i]).Ended?
  {
    if checks != [] {
      hide CheckStatus;
      var n := |checks| - 1;
      FirstEndedIs(k, checks[..n]);
      if FirstEnded(k, checks[..n]).Some? {
        var i :| 0 <= i < n && CheckStatus(k, checks[..n][i]).Ended?;
        assert CheckStatus(k, checks[i]).Ended?;
      }
      if i :| 0 <= i < n && CheckStatus(k, checks[i]).Ended? {
        assert CheckStatus(k, checks[..n][i]).Ended?;
      }
    }
  }

  lemma {:induction false} AllSuccessIs(k: Casing, required: seq<string>, rollup: seq<Check>)
    ensures TallyOf(k, required, rollup).allSuccess <==> forall n :: n in required ==> Green(k, rollup, n)
    ensures TallyOf(k, required, rollup).allSuccess ==> TallyOf(k, required, rollup).failing == None
  {
    if required != [] {
      var init, last := required[..|required| - 1], required[|required| - 1];
      assert required == init + [last];
      AllSuccessIs(k, init, rollup);
      AllSuccessStep(k, required, rollup);
      hide TallyOf, Green;
      AllOrLast(k, init, last, rollup);
    }
  }

  lemma AllOrLast(k: Casing, init: seq<string>, last: string, rollup: seq<Check>)
    ensures (forall n :: n in init + [last] ==> Green(k, rollup, n)) <==>
      (forall n :: n in init ==> Green(k, rollup, n)) && Green(k, rollup, last)
  {
    hide Green;
    assert last in init + [last];
  }

  lemma {:induction false} AllSuccessStep(k: Casing, required: seq<string>, rollup: seq<Check>)
    requires required != []
    ensures var t, s := TallyOf(k, required, rollup), TallyOf(k, required[..|required| - 1], rollup);
      && (t.allSuccess <==> s.allSuccess && Green(k, rollup, required[|required| - 1]))
      && (t.allSuccess ==> t.failing == s.failing)
  {
    hide Green, FindChecks, AllSucceed, FirstEnded;
    GreenIs(k, rollup, required[|required| - 1]);
  }

  /** The names reported missing are the required names no entry concerns. */
  lemma {:induction false} MissingIs(k: Casing, required: seq<string>, rollup: seq<Check>, n: string)
    ensures n in TallyOf(k, required, rollup).missing <==> n in required && !exists c :: c in rollup && Concerns(c, n)
  {
    if required != [] {
      var init, last := required[..|required| - 1], required[|required| - 1];
      assert required == init + [last];
      MissingIs(k, init, rollup, n);
      MissingStep(k, required, rollup);
      hide TallyOf, FindChecks, Concerns;
      NoneConcerns(rollup, last);
      assert n in required <==> n in init || n == last;
    }
  }

  lemma MissingStep(k: Casing, required: seq<string>, rollup: seq<Check>)
    requires required != []
    ensures var last := required[|required| - 1];
      TallyOf(k, required, rollup).missing == TallyOf(k, required[..|required| - 1], rollup).missing +
        if FindChecks(rollup, last) == [] then [last] else []
  {
    hide FindChecks, AllSucceed, FirstEnded;
  }

  lemma {:induction false} NoneConcerns(rollup: seq<Check>, name: string)
    ensures FindChecks(rollup, name) == [] <==> !exists c :: c in rollup && Concerns(c, name)
  {
    hide FindChecks, Concerns;
    FoundChecksAre(rollup, name);
    var found := FindChecks(rollup, name);
    assert found != [] ==> found[0] in found;
  }

  /** Some entry that concerns the name ended without success. */
  ghost predicate EndedBadly(k: Casing, rollup: seq<Check>, name: string) {
    exists c :: c in rollup && Concerns(c, name) && CheckStatus(k, c).Ended?
  }

  lemma {:induction false} EndedBadlyIs(k: Casing, rollup: seq<Check>, name: string)
    ensures EndedBadly(k, rollup, name) <==> FirstEnded(k, FindChecks(rollup, name)).Some?
    ensures EndedBadly(k, rollup, name) ==> !AllSucceed(k, FindChecks(rollup, name))
  {
    hide CheckStatus, FindChecks, FirstEnded, Concerns;
    var found := FindChecks(rollup, name);
    FoundChecksAre(rollup, name);
    FirstEndedIs(k, found);
    if i :| 0 <= i < |found| && CheckStatus(k, found[i]).Ended? {
      assert found[i] in found;
    }
    if c :| c in rollup && Concerns(c, name) && CheckStatus(k, c).Ended? {
      assert c in found;
      var i :| 0 <= i < |found| && found[i] == c;
      assert CheckStatus(k, found[i]).Ended?;
    }
  }

  lemma {:induction false} FailingIs(k: Casing, required: seq<string>, rollup: seq<Check>)
    ensures TallyOf(k, required, rollup).failing.Some? <==> exists n :: n in required && EndedBadly(k, rollup, n)
  {
    hide EndedBadly, FindChecks, FirstEnded, AllSucceed;
    if required != [] {
      var init, last := required[..|required| - 1], required[|required| - 1];
      assert required == init + [last];
      FailingIs(k, init, rollup);
      FailingStep(k, required, rollup);
      hide TallyOf;
      LastOrEarlier(k, init, last, rollup);
    }
  }

  lemma LastOrEarlier(k: Casing, init: seq<string>, last: string, rollup: seq<Check>)
    ensures (exists n :: n in init + [last] && EndedBadly(k, rollup, n)) <==>
      (exists n :: n in init && EndedBadly(k, rollup, n)) || EndedBadly(k, rollup, last)
  {
    hide EndedBadly;
    assert last in init + [last];
  }

  lemma {:induction false} FailingStep(k: Casing, required: seq<string>, rollup: seq<Check>)
    requires required != []
    ensures TallyOf(k, required, rollup).failing.Some? <==>
      TallyOf(k, required[..|required| - 1], rollup).failing.Some? || EndedBadly(k, rollup, required[|required| - 1])
  {
    hide FindChecks, FirstEnded, AllSucceed, EndedBadly;
    EndedBadlyIs(k, rollup, required[|required| - 1]);
    NoneFound(k);
  }

  lemma NoneFound(k: Casing)
    ensures FirstEnded(k, []) == None
  {
  }

  /** Exit 0 exactly when the commit matches and every required name is green: present, and every entry a success. */
  lemma {:induction false} GreenExitIff(k: Casing, sha: string, required: seq<string>, gh: GhResult)
    ensures PrAnswer(k, sha, required, gh) == Final(EXIT_SUCCESS) <==>
      (gh.Data? && gh.head.Some? && k.lower(gh.head.value) == sha &&
       forall n :: n in required ==> Green(k, gh.rollup, n))
  {
    if gh.Data? {
      AllSuccessIs(k, required, gh.rollup);
      hide TallyOf, Green;
    }
  }

  /**
   The wait goes on exactly when the commit matches, nothing required has ended badly, and something is not yet green.
   */
  lemma {:induction false} WaitingIff(k: Casing, sha: string, required: seq<string>, gh: GhResult)
    ensures PrAnswer(k, sha, required, gh).Waiting? <==>
      (gh.Data? && gh.head.Some? && k.lower(gh.head.value) == sha &&
       !(exists n :: n in required && EndedBadly(k, gh.rollup, n)) &&
       exists n :: n in required && !Green(k, gh.rollup, n))
  {
    if gh.Data? {
      AllSuccessIs(k, required, gh.rollup);
      FailingIs(k, required, gh.rollup);
      hide TallyOf, Green, EndedBadly;
    }
  }

  // ---------------------------------------------------------------------
  // One look at a run
  // ---------------------------------------------------------------------

  /** A run's data: head commit and status, if they are strings, and the conclusion. */
  datatype RunResult =
    | RunInterrupted
    | RunCallFailed(notFound: bool)
    | RunData(head: Option<string>, status: Option<string>, conclusion: string)

  function ClassifyConclusion(k: Casing, conclusion: string): nat {
    var c := k.lower(conclusion);
    if c == "success" then EXIT_SUCCESS else ExitCodeFor(c)
  }

  function RunAnswer(k: Casing, sha: string, gh: RunResult): Answer {
    match gh
    case RunInterrupted => Aborted
    case RunCallFailed(notFound) => Final(if notFound then EXIT_NOT_FOUND else EXIT_GH_ERROR)
    case RunData(head, status, conclusion) =>
      if head == None || status == None then Final(EXIT_GH_ERROR)
      else if k.lower(head.value) != sha then Final(EXIT_NOT_FOUND)
      else if status.value != "completed" then Waiting(None)
      else Final(ClassifyConclusion(k, conclusion))
  }

  // ---------------------------------------------------------------------
  // The polling loop
  // ---------------------------------------------------------------------

  datatype Config = Config(prMode: bool, timeoutSeconds: nat, intervalSeconds: nat)

  /** What happens at poll i: the answer, how long fetch and sleep take, and interruptions. Times are milliseconds. */
  datatype World = World(
    answer: nat -> Answer, fetchMs: nat -> nat, sleepMs: nat -> nat, aborted: nat -> bool, sleepAborted: nat -> bool)

  function MaxPolls(c: Config): (n: nat)
    requires c.intervalSeconds > 0
    ensures n >= 1 && (n - 1) * c.intervalSeconds <= c.timeoutSeconds
  {
    c.timeoutSeconds / c.intervalSeconds + 1
  }

  function Deadline(c: Config, start: int): int {
    start + c.timeoutSeconds * 1000 + GH_CALL_TIMEOUT_MS
  }

  function CeilingResult(c: Config, missing: seq<string>): Answer {
    if c.prMode && missing != [] then Final(EXIT_NOT_FOUND) else Final(EXIT_TIMEOUT)
  }

  /** The result, the start times of the fetches made, and the time at the end. */
  datatype Trace = Trace(result: Answer, starts: seq<int>, end: int)

  /** The loop from poll i on, at time t. */
  function Poll(w: World, c: Config, deadline: int, i: nat, t: int, missing: seq<string>): Trace
    requires c.intervalSeconds > 0
    decreases MaxPolls(c) + 1 - i
  {
    if i > MaxPolls(c) then Trace(CeilingResult(c, missing), [], t)
    else if w.aborted(i) then Trace(Aborted, [], t)
    else if t >= deadline then Trace(CeilingResult(c, missing), [], t)
    else
      var done := t + w.fetchMs(i);
      if !w.answer(i).Waiting? then Trace(w.answer(i), [t], done)
      else
        var m := if w.answer(i).missing.Some? then w.answer(i).missing.value else missing;
        if i == MaxPolls(c) || done >= deadline then Trace(CeilingResult(c, m), [t], done)
        else if w.sleepAborted(i) then Trace(Aborted, [t], done)
        else
          var rest := Poll(w, c, deadline, i + 1, done + w.sleepMs(i), m);
          Trace(rest.result, [t] + rest.starts, rest.end)
  }

  /** At most floor(timeout/interval) + 1 fetches, none of them started at or after the deadline. */
  lemma {:induction false} PollsAreBounded(w: World, c: Config, deadline: int, i: nat, t: int, missing: seq<string>)
    requires c.intervalSeconds > 0 && i <= MaxPolls(c) + 1
    ensures var r := Poll(w, c, deadline, i, t, missing);
      |r.starts| <= MaxPolls(c) + 1 - i && forall k :: 0 <= k < |r.starts| ==> r.starts[k] < deadline
    decreases MaxPolls(c) + 1 - i
  {
    if i <= MaxPolls(c) && w.answer(i).Waiting? {
      hide MaxPolls;
      var m := if w.answer(i).missing.Some? then w.answer(i).missing.value else missing;
      PollsAreBounded(w, c, deadline, i + 1, t + w.fetchMs(i) + w.sleepMs(i), m);
    }
  }

  /**
   If fetches take at most the call timeout and sleeps the interval, the loop ends before deadline + max of the two.
   */
  lemma {:induction false} WaitIsBounded(w: World, c: Config, deadline: int, i: nat, t: int, missing: seq<string>)
    requires c.intervalSeconds > 0 && i <= MaxPolls(c) + 1
    requires forall k :: w.fetchMs(k) <= GH_CALL_TIMEOUT_MS && w.sleepMs(k) == c.intervalSeconds * 1000
    requires t < deadline +
      (if c.intervalSeconds * 1000 > GH_CALL_TIMEOUT_MS then c.intervalSeconds * 1000 else GH_CALL_TIMEOUT_MS)
    ensures Poll(w, c, deadline, i, t, missing).end <
      deadline + (if c.intervalSeconds * 1000 > GH_CALL_TIMEOUT_MS then c.intervalSeconds * 1000
                  else GH_CALL_TIMEOUT_MS)
    decreases MaxPolls(c) + 1 - i
  {
    if i <= MaxPolls(c) && w.answer(i).Waiting? && t + w.fetchMs(i) < deadline {
      hide MaxPolls;
      var m := if w.answer(i).missing.Some? then w.answer(i).missing.value else missing;
      WaitIsBounded(w, c, deadline, i + 1, t + w.fetchMs(i) + w.sleepMs(i), m);
    }
  }

  /** Exit 0 is always the answer of a poll that was made, the last one; running out of polls or time is never green. */
  lemma {:induction false} GreenIsAnAnswer(w: World, c: Config, deadline: int, i: nat, t: int, missing: seq<string>)
    requires c.intervalSeconds > 0 && i <= MaxPolls(c) + 1
    requires Poll(w, c, deadline, i, t, missing).result == Final(EXIT_SUCCESS)
    ensures var n := |Poll(w, c, deadline, i, t, missing).starts|;
      n > 0 && w.answer(i + n - 1) == Final(EXIT_SUCCESS) && forall k :: i <= k < i + n - 1 ==> w.answer(k).Waiting?
    decreases MaxPolls(c) + 1 - i
  {
    hide MaxPolls;
    if w.answer(i).Waiting? {
      var m := if w.answer(i).missing.Some? then w.answer(i).missing.value else missing;
      GreenIsAnAnswer(w, c, deadline, i + 1, t + w.fetchMs(i) + w.sleepMs(i), m);
    }
  }

  /** In PR mode the wait is green only if at its last poll the commit matched and every required name was green. */
  lemma {:induction false} GreenWaitMeansGreenChecks(
    w: World, c: Config, start: int, k: Casing, sha: string, required: seq<string>, gh: nat -> GhResult)
    requires c.intervalSeconds > 0 && forall i :: w.answer(i) == PrAnswer(k, sha, required, gh(i))
    requires Poll(w, c, Deadline(c, start), 1, start, []).result == Final(EXIT_SUCCESS)
    ensures exists i: nat ::
      (1 <= i <= MaxPolls(c) && gh(i).Data? && gh(i).head.Some? && k.lower(gh(i).head.value) == sha &&
                              forall n :: n in required ==> Green(k, gh(i).rollup, n))
  {
    var r := Poll(w, c, Deadline(c, start), 1, start, []);
    GreenIsAnAnswer(w, c, Deadline(c, start), 1, start, []);
    PollsAreBounded(w, c, Deadline(c, start), 1, start, []);
    hide Poll, PrAnswer, Green, MaxPolls;
    var i: nat := |r.starts|;
    assert w.answer(i) == PrAnswer(k, sha, required, gh(i));
    GreenExitIff(k, sha, required, gh(i));
  }

  /** In run mode it is green only if the run of that commit completed and its conclusion is success. */
  lemma {:induction false} GreenWaitMeansGreenRun(w: World, c: Config, start: int, k: Casing, sha: string,
                                                  gh: nat -> RunResult)
    requires c.intervalSeconds > 0 && forall i :: w.answer(i) == RunAnswer(k, sha, gh(i))
    requires Poll(w, c, Deadline(c, start), 1, start, []).result == Final(EXIT_SUCCESS)
    ensures exists i: nat ::
      (1 <= i <= MaxPolls(c) && gh(i).RunData? && gh(i).head.Some? && k.lower(gh(i).head.value) == sha &&
                              gh(i).status == Some("completed") && k.lower(gh(i).conclusion) == "success")
  {
    var r := Poll(w, c, Deadline(c, start), 1, start, []);
    GreenIsAnAnswer(w, c, Deadline(c, start), 1, start, []);
    PollsAreBounded(w, c, Deadline(c, start), 1, start, []);
    hide Poll, MaxPolls;
    var i: nat := |r.starts|;
    assert w.answer(i) == RunAnswer(k, sha, gh(i));
    assert gh(i).RunData?;
  }

  /**
   The count is reached: instant fetches and no answer use every poll, since the deadline lies beyond the last of
   them.
   */
  lemma {:induction false} FastFetchesUseEveryPoll(w: World, c: Config, start: int, i: nat, t: int,
                                                   missing: seq<string>)
    requires c.intervalSeconds > 0 && 1 <= i <= MaxPolls(c)
    requires forall k :: w.answer(k).Waiting? && w.fetchMs(k) == 0 && w.sleepMs(k) == c.intervalSeconds * 1000
    requires forall k :: !w.aborted(k) && !w.sleepAborted(k)
    requires t == start + (i - 1) * (c.intervalSeconds * 1000)
    ensures |Poll(w, c, Deadline(c, start), i, t, missing).starts| == MaxPolls(c) + 1 - i
    decreases MaxPolls(c) + 1 - i
  {
    var n, s := MaxPolls(c), c.intervalSeconds;
    Scale(i - 1, n - 1, s);
    assert t < Deadline(c, start);
    if i < n {
      hide MaxPolls;
      var m := if w.answer(i).missing.Some? then w.answer(i).missing.value else missing;
      assert w.fetchMs(i) == 0 && w.sleepMs(i) == s * 1000 && !w.aborted(i) && !w.sleepAborted(i);
      assert (i - 1) * (s * 1000) + s * 1000 == i * (s * 1000);
      FastFetchesUseEveryPoll(w, c, start, i + 1, t + s * 1000, m);
    }
  }

  lemma Scale(a: nat, b: nat, s: nat)
    requires a <= b
    ensures a * (s * 1000) <= b * s * 1000
  {
    assert (b - a) * s >= 0;
  }

  /** Returns the result, the number of fetches made and the time at the end. */
  method PollLoop(w: World, c: Config, start: int) returns (result: Answer, polls: nat, end: int)
    requires c.intervalSeconds > 0
    ensures var run := Poll(w, c, Deadline(c, start), 1, start, []);
      result == run.result && polls == |run.starts| && end == run.end
  {
    var deadline := Deadline(c, start);
    var missing: seq<string> := [];
    polls, end := 0, start;
    ghost var run := Poll(w, c, deadline, 1, start, []);
    for i := 1 to MaxPolls(c) + 1
      invariant var rest := Poll(w, c, deadline, i, end, missing);
        run.result == rest.result && |run.starts| == polls + |rest.starts| && run.end == rest.end
    {
      if w.aborted(i) { return Aborted, polls, end; }
      if end >= deadline { return CeilingResult(c, missing), polls, end; }
      var answer := w.answer(i);
      polls, end := polls + 1, end + w.fetchMs(i);
      if !answer.Waiting? { return answer, polls, end; }
      if answer.missing.Some? { missing := answer.missing.value; }
      if i == MaxPolls(c) || end >= deadline { return CeilingResult(c, missing), polls, end; }
      if w.sleepAborted(i) { return Aborted, polls, end; }
      end := end + w.sleepMs(i);
    }
    return CeilingResult(c, missing), polls, end;
  }
}
