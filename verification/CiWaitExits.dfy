/**
 Every way the CI wait can end: the exit code of one look at a pull request or
 a run, in terms of the entries it saw, and how the polling loop stops.
 */
module CiWaitExits {
  import opened Options
  import opened Positions
  import opened CiWait

  // ---------------------------------------------------------------------
  // One entry
  // ---------------------------------------------------------------------

  /** What an entry says: its conclusion, or its state while it has none. */
  function Label(k: Casing, c: Check): string {
    k.upper(if c.conclusion == "" then c.state else c.conclusion)
  }

  predicate StillRuns(said: string) {
    said == "" || said == "IN_PROGRESS" || said == "QUEUED" || said == "PENDING" || said == "WAITING" ||
    said == "REQUESTED" || said == "EXPECTED"
  }

  /** The entry is about the name and ended without success. */
  predicate Fails(k: Casing, c: Check, name: string) {
    (c.name == Some(name) || c.context == Some(name)) && Label(k, c) != "SUCCESS" && !StillRuns(Label(k, c))
  }

  /** Exit code 2 for a cancelled check, 3 for one that did not run, 1 for any other ending. */
  function CodeFor(said: string): nat {
    if said == "cancelled" then 2 else if said == "skipped" || said == "neutral" then 3 else 1
  }

  lemma StatusIs(k: Casing, c: Check, name: string)
    ensures Concerns(c, name) && CheckStatus(k, c).Ended? <==> Fails(k, c, name)
    ensures CheckStatus(k, c).Ended? ==> CheckStatus(k, c).ending == k.lower(Label(k, c))
    ensures CheckStatus(k, c) == Success <==> Label(k, c) == "SUCCESS"
  {
  }

  lemma CodeIs(ending: string)
    ensures ExitCodeFor(ending) == CodeFor(ending)
  {
  }

  // ---------------------------------------------------------------------
  // One look at a pull request
  // ---------------------------------------------------------------------

  /** Entry q is the first one about the name that ended without success. */
  ghost predicate FirstFailure(k: Casing, rollup: seq<Check>, name: string, q: nat) {
    q < |rollup| && Fails(k, rollup[q], name) && forall j :: 0 <= j < q ==> !Fails(k, rollup[j], name)
  }

  ghost predicate AnyFailure(k: Casing, rollup: seq<Check>, name: string) {
    exists q: nat :: FirstFailure(k, rollup, name, q)
  }

  /** The first ended status among the entries of a name is that of its first failure. */
  lemma {:induction false} FirstEndedIsFirst(k: Casing, rollup: seq<Check>, name: string)
    ensures match FirstEnded(k, FindChecks(rollup, name))
      case None => forall q :: 0 <= q < |rollup| ==> !Fails(k, rollup[q], name)
      case Some(ending) =>
        exists q: nat :: FirstFailure(k, rollup, name, q) && ending == k.lower(Label(k, rollup[q]))
  {
    if rollup != [] {
      var init, c := rollup[..|rollup| - 1], rollup[|rollup| - 1];
      assert rollup == init + [c];
      hide FirstEnded, FindChecks, CheckStatus, Fails, Label, Concerns, FirstFailure;
      FirstEndedIsFirst(k, init, name);
      StatusIs(k, c, name);
      OneMoreEntry(k, init, c, name);
      var before := FirstEnded(k, FindChecks(init, name));
      if before.Some? {
        var q: nat :| FirstFailure(k, init, name, q) && before.value == k.lower(Label(k, init[q]));
        FailureStays(k, init, c, name, q);
      } else {
        NoFailureYet(k, init, c, name);
      }
    } else {
      NoneFound(k);
      assert FindChecks(rollup, name) == [];
    }
  }

  lemma FailureStays(k: Casing, init: seq<Check>, c: Check, name: string, q: nat)
    requires FirstFailure(k, init, name, q)
    ensures q < |init| && (init + [c])[q] == init[q] && FirstFailure(k, init + [c], name, q)
  {
    hide Fails;
  }

  lemma NoFailureYet(k: Casing, init: seq<Check>, c: Check, name: string)
    requires forall q :: 0 <= q < |init| ==> !Fails(k, init[q], name)
    ensures if Fails(k, c, name) then FirstFailure(k, init + [c], name, |init|) && (init + [c])[|init|] == c
            else forall q :: 0 <= q < |init| + 1 ==> !Fails(k, (init + [c])[q], name)
  {
    hide Fails;
  }

  lemma {:induction false} OneMoreEntry(k: Casing, init: seq<Check>, c: Check, name: string)
    ensures var before := FirstEnded(k, FindChecks(init, name));
      FirstEnded(k, FindChecks(init + [c], name)) ==
        if before.Some? then before
        else if Concerns(c, name) && CheckStatus(k, c).Ended? then Some(CheckStatus(k, c).ending) else None
  {
    hide CheckStatus, Concerns;
    assert (init + [c])[..|init|] == init;
    var found := FindChecks(init, name);
    assert (found + [c])[..|found|] == found && found + [] == found;
    hide FindChecks;
  }

  /** The required name p is the first with a failure. */
  ghost predicate FirstFailing(k: Casing, required: seq<string>, rollup: seq<Check>, p: nat) {
    p < |required| && AnyFailure(k, rollup, required[p]) &&
    forall j :: 0 <= j < p ==> !AnyFailure(k, rollup, required[j])
  }

  /** The code of the first failure of the first failing name, if there is one. */
  ghost predicate FailsWith(k: Casing, required: seq<string>, rollup: seq<Check>, ending: string) {
    exists p: nat, q: nat :: FirstFailing(k, required, rollup, p) && FirstFailure(k, rollup, required[p], q) &&
      ending == k.lower(Label(k, rollup[q]))
  }

  lemma {:induction false} TallyFails(k: Casing, required: seq<string>, rollup: seq<Check>)
    ensures match TallyOf(k, required, rollup).failing
      case None => forall p :: 0 <= p < |required| ==> !AnyFailure(k, rollup, required[p])
      case Some(ending) => FailsWith(k, required, rollup, ending)
  {
    if required != [] {
      var init, name := required[..|required| - 1], required[|required| - 1];
      assert required == init + [name];
      TallyFails(k, init, rollup);
      var before := TallyOf(k, init, rollup).failing;
      var ended := FirstEnded(k, FindChecks(rollup, name));
      NameFails(k, rollup, name);
      TallyFailsStep(k, init, name, rollup);
      hide TallyOf, FirstFailure, FirstEnded, FindChecks, Label, AnyFailure;
      if before.Some? {
        var p: nat, q: nat :| FirstFailing(k, init, rollup, p) && FirstFailure(k, rollup, init[p], q) &&
          before.value == k.lower(Label(k, rollup[q]));
        assert FirstFailing(k, required, rollup, p) && required[p] == init[p];
      } else if ended.Some? {
        var q: nat :| FirstFailure(k, rollup, name, q) && ended.value == k.lower(Label(k, rollup[q]));
        assert FirstFailing(k, required, rollup, |init|) && required[|init|] == name;
      }
    }
  }

  lemma {:induction false} NameFails(k: Casing, rollup: seq<Check>, name: string)
    ensures match FirstEnded(k, FindChecks(rollup, name))
      case None => !AnyFailure(k, rollup, name)
      case Some(ending) =>
        (AnyFailure(k, rollup, name) &&
         exists q: nat :: FirstFailure(k, rollup, name, q) && ending == k.lower(Label(k, rollup[q])))
  {
    FirstEndedIsFirst(k, rollup, name);
    hide FirstEnded, FindChecks, Fails, Label;
  }

  lemma {:induction false} TallyFailsStep(k: Casing, init: seq<string>, name: string, rollup: seq<Check>)
    ensures TallyOf(k, init + [name], rollup).failing ==
      if TallyOf(k, init, rollup).failing.Some? then TallyOf(k, init, rollup).failing
      else FirstEnded(k, FindChecks(rollup, name))
  {
    assert (init + [name])[..|init|] == init;
    EndedBadlyIs(k, rollup, name);
    NoneFound(k);
    hide FindChecks, FirstEnded, AllSucceed, EndedBadly;
  }

  /** No entry is about the name. */
  ghost predicate Absent(rollup: seq<Check>, name: string) {
    forall i :: 0 <= i < |rollup| ==> rollup[i].name != Some(name) && rollup[i].context != Some(name)
  }

  /** The names of `required` without an entry, in order. */
  ghost predicate MissingAre(required: seq<string>, rollup: seq<Check>, missing: seq<string>, at: seq<nat>) {
    && Rising(at, |required|) && (forall i :: 0 <= i < |required| ==> (i in at <==> Absent(rollup, required[i])))
    && |missing| == |at| && (forall n :: 0 <= n < |at| ==> missing[n] == required[at[n]])
  }

  lemma {:induction false} OneMoreName(init: seq<string>, name: string, rollup: seq<Check>, missing: seq<string>,
                                       at: seq<nat>)
    requires MissingAre(init, rollup, missing, at)
    ensures if Absent(rollup, name) then MissingAre(init + [name], rollup, missing + [name], at + [|init|])
            else MissingAre(init + [name], rollup, missing, at)
  {
    hide Absent;
    var more := at + [|init|];
    forall i: nat | i < |init| ensures i in more <==> i in at { }
    assert more[|at|] == |init|;
    assert |init| !in at;
  }

  lemma {:induction false} AbsentIff(rollup: seq<Check>, name: string)
    ensures FindChecks(rollup, name) == [] <==> Absent(rollup, name)
  {
    FoundChecksAre(rollup, name);
    var found := FindChecks(rollup, name);
    if found != [] {
      assert found[0] in found;
      var i :| 0 <= i < |rollup| && rollup[i] == found[0];
    }
    hide FindChecks;
    forall i | 0 <= i < |rollup| && Concerns(rollup[i], name) ensures found != [] { assert rollup[i] in found; }
  }

  lemma {:induction false} TallyMisses(k: Casing, required: seq<string>, rollup: seq<Check>) returns (at: seq<nat>)
    ensures MissingAre(required, rollup, TallyOf(k, required, rollup).missing, at)
  {
    at := [];
    if required != [] {
      var init, name := required[..|required| - 1], required[|required| - 1];
      assert required == init + [name];
      at := TallyMisses(k, init, rollup);
      MissingStep(k, required, rollup);
      AbsentIff(rollup, name);
      OneMoreName(init, name, rollup, TallyOf(k, init, rollup).missing, at);
      var before := TallyOf(k, init, rollup).missing;
      assert before + [] == before;
      hide *;
      if Absent(rollup, name) { at := at + [|init|]; }
    }
  }

  /**
   What a look at a pull request answers: 5 if it is not found or at another commit, 6 if gh failed or its answer is
   unusable, the code of the first failure of the first failing required name, 0 if every required name is green, and
   otherwise to wait on, with the required names that have no entry yet.
   */
  lemma {:induction false} PrExitIs(k: Casing, sha: string, required: seq<string>, gh: GhResult)
    returns (at: seq<nat>)
    ensures var answer := PrAnswer(k, sha, required, gh);
      && (gh.Interrupted? ==> answer == Aborted)
      && (gh.CallFailed? ==> answer == Final(if gh.notFound then 5 else 6))
      && (gh.Data? && gh.head == None ==> answer == Final(6))
      && (gh.Data? && gh.head.Some? && k.lower(gh.head.value) != sha ==> answer == Final(5))
      && (gh.Data? && gh.head.Some? && k.lower(gh.head.value) == sha ==>
           if exists p :: 0 <= p < |required| && AnyFailure(k, gh.rollup, required[p]) then
             exists ending :: FailsWith(k, required, gh.rollup, ending) && answer == Final(CodeFor(ending))
           else if forall n :: n in required ==> Green(k, gh.rollup, n) then answer == Final(0)
           else answer.Waiting? && answer.missing.Some? && MissingAre(required, gh.rollup, answer.missing.value, at))
  {
    at := [];
    if gh.Data? && gh.head.Some? && k.lower(gh.head.value) == sha {
      at := TallyMisses(k, required, gh.rollup);
      TallyFails(k, required, gh.rollup);
      AllSuccessIs(k, required, gh.rollup);
      var t := TallyOf(k, required, gh.rollup);
      if t.failing.Some? {
        CodeIs(t.failing.value);
        SomeNameFails(k, required, gh.rollup, t.failing.value);
      }
      hide TallyOf, Green, AnyFailure, FailsWith, MissingAre, ExitCodeFor, CodeFor;
    }
  }

  lemma SomeNameFails(k: Casing, required: seq<string>, rollup: seq<Check>, ending: string)
    requires FailsWith(k, required, rollup, ending)
    ensures exists p :: 0 <= p < |required| && AnyFailure(k, rollup, required[p])
  {
  }

  /** What a look at a run answers; a run that ended in anything but success is never green. */
  lemma {:induction false} RunExitIs(k: Casing, sha: string, gh: RunResult)
    ensures var answer := RunAnswer(k, sha, gh);
      && (gh.RunInterrupted? ==> answer == Aborted)
      && (gh.RunCallFailed? ==> answer == Final(if gh.notFound then 5 else 6))
      && (gh.RunData? && (gh.head == None || gh.status == None) ==> answer == Final(6))
      && (gh.RunData? && gh.head.Some? && gh.status.Some? ==>
           var c := k.lower(gh.conclusion);
           if k.lower(gh.head.value) != sha then answer == Final(5)
           else if gh.status.value != "completed" then answer == Waiting(None)
           else answer == Final(if c == "success" then 0 else CodeFor(c)))
  {
  }

  // ---------------------------------------------------------------------
  // The loop
  // ---------------------------------------------------------------------

  /** The missing names last reported by the polls from i up to n of them, or those known before. */
  function LastMissing(w: World, i: nat, n: nat, missing: seq<string>): seq<string> {
    if n == 0 then missing
    else if w.answer(i + n - 1).Waiting? && w.answer(i + n - 1).missing.Some? then w.answer(i + n - 1).missing.value
    else LastMissing(w, i, n - 1, missing)
  }

  lemma {:induction false} LastMissingFrom(w: World, i: nat, n: nat, missing: seq<string>)
    requires n > 0 && w.answer(i).Waiting?
    ensures LastMissing(w, i, n, missing)
      == LastMissing(w, i + 1, n - 1, if w.answer(i).missing.Some? then w.answer(i).missing.value else missing)
  {
    if n > 1 { LastMissingFrom(w, i, n - 1, missing); }
  }

  /** Every fetch but the last answered to wait. */
  ghost predicate AllWaited(w: World, i: nat, n: nat) {
    forall j: nat :: i <= j < i + n ==> w.answer(j).Waiting?
  }

  /** Poll j starts when the fetch and the sleep before it are over. */
  ghost predicate StartsFollow(w: World, i: nat, t: int, starts: seq<int>) {
    && (starts != [] ==> starts[0] == t)
    && forall j :: 0 < j < |starts| ==> starts[j] == starts[j - 1] + w.fetchMs(i + j - 1) + w.sleepMs(i + j - 1)
  }

  /**
   How the loop stops after n fetches, all but the last answered by waiting on: with the last answer; interrupted; or,
   with every answer to wait, out of polls or out of time, and then with 5 in PR mode if names were still missing, 4 if
   not.
   */
  ghost predicate Stops(w: World, c: Config, deadline: int, i: nat, missing: seq<string>, r: Trace)
    requires c.intervalSeconds > 0
  {
    var n := |r.starts|;
    || (n > 0 && AllWaited(w, i, n - 1) && !w.answer(i + n - 1).Waiting? && r.result == w.answer(i + n - 1))
    || (r.result == Aborted && AllWaited(w, i, n) && (w.aborted(i + n) || (n > 0 && w.sleepAborted(i + n - 1))))
    || (AllWaited(w, i, n) && (i + n > MaxPolls(c) || r.end >= deadline) &&
        r.result == Final(if c.prMode && LastMissing(w, i, n, missing) != [] then 5 else 4))
  }

  lemma {:induction false} LoopStops(w: World, c: Config, deadline: int, i: nat, t: int, missing: seq<string>)
    requires c.intervalSeconds > 0 && i <= MaxPolls(c) + 1
    ensures var r := Poll(w, c, deadline, i, t, missing);
      Stops(w, c, deadline, i, missing, r) && StartsFollow(w, i, t, r.starts)
    decreases MaxPolls(c) + 1 - i
  {
    hide MaxPolls;
    var r := Poll(w, c, deadline, i, t, missing);
    var done := t + w.fetchMs(i);
    if i <= MaxPolls(c) && !w.aborted(i) && t < deadline && w.answer(i).Waiting? {
      var m := if w.answer(i).missing.Some? then w.answer(i).missing.value else missing;
      if i == MaxPolls(c) || done >= deadline || w.sleepAborted(i) {
        LastMissingFrom(w, i, 1, missing);
        assert AllWaited(w, i, 1);
      } else {
        LoopStops(w, c, deadline, i + 1, done + w.sleepMs(i), m);
        LoopContinues(w, c, deadline, i, t, missing, m, Poll(w, c, deadline, i + 1, done + w.sleepMs(i), m), r);
      }
    }
  }

  lemma {:induction false} LoopContinues(w: World, c: Config, deadline: int, i: nat, t: int, missing: seq<string>,
                                         m: seq<string>, rest: Trace, r: Trace)
    requires c.intervalSeconds > 0 && w.answer(i).Waiting?
    requires m == if w.answer(i).missing.Some? then w.answer(i).missing.value else missing
    requires r == Trace(rest.result, [t] + rest.starts, rest.end)
    requires Stops(w, c, deadline, i + 1, m, rest)
    requires StartsFollow(w, i + 1, t + w.fetchMs(i) + w.sleepMs(i), rest.starts)
    ensures Stops(w, c, deadline, i, missing, r) && StartsFollow(w, i, t, r.starts)
  {
    hide MaxPolls;
    var n := |rest.starts|;
    LastMissingFrom(w, i, n + 1, missing);
    hide LastMissing;
    assert AllWaited(w, i + 1, n) ==> AllWaited(w, i, n + 1);
    assert n > 0 && AllWaited(w, i + 1, n - 1) ==> AllWaited(w, i, n);
    StartsOn(w, i, t, rest.starts);
    hide AllWaited, StartsFollow;
  }

  lemma {:induction false} StartsOn(w: World, i: nat, t: int, later: seq<int>)
    requires StartsFollow(w, i + 1, t + w.fetchMs(i) + w.sleepMs(i), later)
    ensures StartsFollow(w, i, t, [t] + later)
  {
    var starts := [t] + later;
    forall j | 0 < j < |starts|
      ensures starts[j] == starts[j - 1] + w.fetchMs(i + j - 1) + w.sleepMs(i + j - 1)
    {
      if j > 1 {
        var b := i + 1 + (j - 1) - 1;
        assert b == i + j - 1 && later[j - 1] == later[j - 2] + w.fetchMs(b) + w.sleepMs(b);
      }
    }
  }

  /** The ceiling is floor(timeout / interval) + 1 polls; the deadline is timeout and one gh call after the start. */
  lemma {:induction false} BoundsAre(c: Config, start: int)
    requires c.intervalSeconds > 0
    ensures var n := MaxPolls(c);
      n >= 1 && (n - 1) * c.intervalSeconds <= c.timeoutSeconds < n * c.intervalSeconds
    ensures Deadline(c, start) == start + 1000 * c.timeoutSeconds + 20000
  {
    var q, s := c.timeoutSeconds / c.intervalSeconds, c.intervalSeconds;
    assert (q + 1) * s == q * s + s;
  }
}
