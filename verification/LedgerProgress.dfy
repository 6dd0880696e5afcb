/**
 What the append protocol gets done: a writer that is not disturbed completes
 its append, also behind a lock whose owner died, and its event is read back.
 */
module LedgerProgress {
  import opened Options
  import opened Ledger
  import opened EventReader
  import opened EventLog
  import opened LedgerProtocol

  function Steps(c: Codec, w: World, actions: seq<Action>): Option<World>
    decreases |actions|
  {
    if actions == [] then Some(w)
    else match Step(c, w, actions[0])
      case None => None
      case Some(next) => Steps(c, next, actions[1..])
  }

  /** Steps after a run are a longer run. */
  lemma {:induction false} RunThenSteps(c: Codec, actions: seq<Action>, more: seq<Action>)
    requires Run(c, actions).Some?
    ensures Run(c, actions + more) == Steps(c, Run(c, actions).value, more)
    decreases |more|
  {
    hide Run, Step;
    if more == [] {
      assert actions + more == actions;
    } else {
      RunStep(c, actions, more[0]);
      assert actions + more == actions + [more[0]] + more[1..];
      if Step(c, Run(c, actions).value, more[0]) == None {
        RunStays(c, actions + [more[0]], more[1..]);
      } else {
        RunThenSteps(c, actions + [more[0]], more[1..]);
      }
    }
  }

  lemma {:induction false} RunStays(c: Codec, actions: seq<Action>, more: seq<Action>)
    requires Run(c, actions) == None
    ensures Run(c, actions + more) == None
    decreases |more|
  {
    hide Run, Step;
    if more == [] {
      assert actions + more == actions;
    } else {
      RunStep(c, actions, more[0]);
      assert actions + more == actions + [more[0]] + more[1..];
      RunStays(c, actions + [more[0]], more[1..]);
    }
  }

  lemma OneStep(c: Codec, w: World, a: Action, rest: seq<Action>, next: World)
    requires Step(c, w, a) == Some(next)
    ensures Steps(c, w, [a] + rest) == Steps(c, next, rest)
  {
    assert ([a] + rest)[1..] == rest;
  }

  /** The write, if the ledger, the schema and the line length allow it. */
  function Ending(c: Codec, file: Bytes, p: Pid, draft: Fields, stamp: Stamp): Action {
    if Answer(c, file, draft, stamp).Appended? then Put(p, stamp) else Decline(p, stamp)
  }

  /** What one append by p leaves of the world w. */
  function AfterAppend(c: Codec, w: World, p: Pid, draft: Fields, stamp: Stamp): World {
    World(None, w.phases[p := Idle], Append(c, w.file, draft, stamp), w.nextNonce + 1,
          w.ops + if Answer(c, w.file, draft, stamp).Appended? then [Commit(draft, stamp)] else [])
  }

  lemma {:induction false} FromSurveyOn(c: Codec, w: World, p: Pid, draft: Fields, stamp: Stamp)
    requires PhaseOf(w, p) == Holding(draft) && c.redactOk(draft)
    ensures Steps(c, w, [Survey(p), Ending(c, w.file, p, draft, stamp), Release(p)])
      == Some(AfterAppend(c, w, p, draft, stamp).(nextNonce := w.nextNonce))
  {
    hide Prepare, TailOf;
    var e, after := Ending(c, w.file, p, draft, stamp), AfterAppend(c, w, p, draft, stamp);
    var w1 := At(w, p, Surveyed(draft, TailOf(w.file)));
    var w2 := At(w1, p, Finished).(file := after.file, ops := after.ops);
    assert w1.ops + [] == w1.ops;
    assert w2.phases[p := Idle] == w.phases[p := Idle];
    assert [Release(p)] + [] == [Release(p)] && [e] + [Release(p)] == [e, Release(p)];
    assert [Survey(p)] + [e, Release(p)] == [Survey(p), e, Release(p)];
    OneStep(c, w, Survey(p), [e, Release(p)], w1);
    OneStep(c, w1, e, [Release(p)], w2);
    OneStep(c, w2, Release(p), [], after.(nextNonce := w.nextNonce));
  }

  /** From taking the free lock to releasing it. */
  lemma {:induction false} FromCreateOn(c: Codec, w: World, p: Pid, draft: Fields, stamp: Stamp)
    requires w.lock == None && PhaseOf(w, p) == Contending(draft) && c.redactOk(draft)
    ensures Steps(c, w, [Create(p), WritePayload(p), Survey(p), Ending(c, w.file, p, draft, stamp), Release(p)])
      == Some(AfterAppend(c, w, p, draft, stamp))
  {
    var w1 := At(w, p, Created(draft)).(lock := Some(Lock(p, w.nextNonce, false)), nextNonce := w.nextNonce + 1);
    var w2 := At(w1, p, Holding(draft)).(lock := Some(Lock(p, w.nextNonce, true)));
    var rest := [Survey(p), Ending(c, w.file, p, draft, stamp), Release(p)];
    assert w2.phases[p := Idle] == w.phases[p := Idle];
    hide Prepare, TailOf, Ending, Append, Answer;
    assert [Create(p)] + ([WritePayload(p)] + rest)
      == [Create(p), WritePayload(p), Survey(p), Ending(c, w.file, p, draft, stamp), Release(p)];
    OneStep(c, w, Create(p), [WritePayload(p)] + rest, w1);
    OneStep(c, w1, WritePayload(p), rest, w2);
    FromSurveyOn(c, w2, p, draft, stamp);
  }

  lemma TwoParts(c: Codec, w: World, first: seq<Action>, rest: seq<Action>, next: World)
    requires Steps(c, w, first) == Some(next)
    ensures Steps(c, w, first + rest) == Steps(c, next, rest)
    decreases |first|
  {
    hide Step;
    if first == [] {
      assert first + rest == rest;
    } else {
      assert (first + rest)[1..] == first[1..] + rest;
      TwoParts(c, Step(c, w, first[0]).value, first[1..], rest, next);
    }
  }

  /** A free lock, or the lock of a dead process whose content was written. */
  predicate CanTake(w: World) {
    w.lock == None || (w.lock.value.payload && PhaseOf(w, w.lock.value.owner).Dead?)
  }

  /** Calling, and breaking the stale lock if there is one. */
  function Opening(w: World, p: Pid, draft: Fields): seq<Action> {
    [Call(p, draft)] + if w.lock == None then [] else [Confirm(p), Rename(p)]
  }

  lemma {:induction false} OpeningWorks(c: Codec, w: World, p: Pid, draft: Fields)
    requires CanTake(w) && PhaseOf(w, p) == Idle && c.redactOk(draft)
    ensures Steps(c, w, Opening(w, p, draft)) == Some(At(w, p, Contending(draft)).(lock := None))
  {
    var w1 := At(w, p, Contending(draft));
    OneStep(c, w, Call(p, draft), if w.lock == None then [] else [Confirm(p), Rename(p)], w1);
    if w.lock.Some? {
      var w2 := At(w1, p, Confirmed(draft, w.lock.value.nonce));
      var w3 := At(w2, p, Contending(draft)).(lock := None);
      assert PhaseOf(w1, w.lock.value.owner) == PhaseOf(w, w.lock.value.owner);
      OneStep(c, w1, Confirm(p), [Rename(p)], w2);
      assert [Rename(p)] + [] == [Rename(p)] && [Confirm(p)] + [Rename(p)] == [Confirm(p), Rename(p)];
      OneStep(c, w2, Rename(p), [], w3);
      assert w3.phases == w1.phases;
    }
  }

  /**
   An idle process that is not disturbed completes its append whenever the lock is free or its owner is dead: the
   world is as before, with the lock free and the draft appended as the ledger's tail decides.
   */
  lemma {:induction false} UndisturbedAppend(c: Codec, actions: seq<Action>, p: Pid, draft: Fields, stamp: Stamp)
    returns (more: seq<Action>)
    requires Run(c, actions).Some?
    requires var w := Run(c, actions).value; CanTake(w) && PhaseOf(w, p) == Idle && c.redactOk(draft)
    ensures Run(c, actions + more) == Some(AfterAppend(c, Run(c, actions).value, p, draft, stamp))
  {
    var w := Run(c, actions).value;
    var first := Opening(w, p, draft);
    var rest := [Create(p), WritePayload(p), Survey(p), Ending(c, w.file, p, draft, stamp), Release(p)];
    var mid := At(w, p, Contending(draft)).(lock := None);
    more := first + rest;
    assert mid.phases[p := Idle] == w.phases[p := Idle];
    assert PhaseOf(mid, p) == Contending(draft);
    assert AfterAppend(c, mid, p, draft, stamp) == AfterAppend(c, w, p, draft, stamp);
    hide *;
    OpeningWorks(c, w, p, draft);
    FromCreateOn(c, mid, p, draft, stamp);
    TwoParts(c, w, first, rest, mid);
    RunThenSteps(c, actions, more);
  }

  /**
   A valid draft lands: after any run with safe renames and clean writes that leaves the lock free or stale, an
   undisturbed append of a valid event within the limits is read back as the next event of an untampered chain.
   */
  lemma {:induction false} ValidDraftLands(c: Codec, actions: seq<Action>, p: Pid, draft: Fields, stamp: Stamp)
    returns (more: seq<Action>)
    requires c.Sound() && SafeRun(c, actions) && CleanOps(c, Run(c, actions).value.ops)
    requires var w := Run(c, actions).value;
      CanTake(w) && PhaseOf(w, p) == Idle && c.redactOk(draft) && stamp.eventId !in StampIds(w.ops) &&
      |w.file| <= 8388608 && |ReadFile(c, w.file).events| < 20000 && Valid(c, NextEvent(c, w.file, draft, stamp))
    ensures Run(c, actions + more).Some?
    ensures var w, w' := Run(c, actions).value, Run(c, actions + more).value;
      && w'.lock == None && PhaseOf(w', p) == Idle && (forall q :: q != p ==> PhaseOf(w', q) == PhaseOf(w, q))
      && ReadFile(c, w'.file).events == ReadFile(c, w.file).events + [NextEvent(c, w.file, draft, stamp)]
      && !ReadFile(c, w'.file).tampered
  {
    var w := Run(c, actions).value;
    more := UndisturbedAppend(c, actions, p, draft, stamp);
    assert AfterAppend(c, w, p, draft, stamp).file == Append(c, w.file, draft, stamp);
    RunKeepsInv(c, actions);
    assert w.file == Sequential(c, w.ops);
    var ps, torn := SequentialHealthy(c, w.ops);
    assert Healthy(c, w.file, ps, torn) && Ids(Committed(ps)) <= StampIds(w.ops);
    hide Run, SafeRun, CleanOps, Inv, Sequential, Reflects, StampIds, Ids, Healthy, Committed, ReadFile, Codec.Sound;
    LandsOn(c, w.file, ps, torn, draft, stamp);
  }

  /** The event that continues what a reader finds in the file. */
  function NextEvent(c: Codec, file: Bytes, draft: Fields, stamp: Stamp): Event {
    var es := ReadFile(c, file).events;
    Event(stamp.eventId, |es| + 1, if es == [] then GENESIS else c.hash(c.stringify(es[|es| - 1])), stamp.ts, draft)
  }

  predicate Valid(c: Codec, e: Event) {
    c.validates(e) && |c.stringify(e)| <= 4096
  }

  lemma {:induction false} LandsOn(c: Codec, file: Bytes, ps: seq<Piece>, torn: Bytes, draft: Fields, stamp: Stamp)
    requires c.Sound() && Healthy(c, file, ps, torn) && stamp.eventId !in Ids(Committed(ps)) && c.redactOk(draft)
    requires |file| <= 8388608 && |ReadFile(c, file).events| < 20000 && Valid(c, NextEvent(c, file, draft, stamp))
    ensures var st := ReadFile(c, Append(c, file, draft, stamp));
      !st.tampered && st.events == ReadFile(c, file).events + [NextEvent(c, file, draft, stamp)]
  {
    HealthyReadsClean(c, file, ps, torn);
    AppendLandsIff(c, file, ps, torn, draft, stamp);
    var e := NextEvent(c, file, draft, stamp);
    hide ReadFile, Healthy, Codec.Sound, Committed, Ids, Append;
    assert Answer(c, file, draft, stamp).Appended?;
    PreparedLinks(c, file, ps, torn, draft, stamp);
    RecoverThenRead(c, file, ps, torn, draft, stamp, e);
  }

  // ---------------------------------------------------------------------
  // Runs without torn writes
  // ---------------------------------------------------------------------

  predicate HasDraft(phase: Phase) {
    phase.Contending? || phase.Confirmed? || phase.Created? || phase.Holding? || phase.Surveyed?
  }

  /** Every draft on its way passed the redaction scan. */
  ghost predicate DraftsOk(c: Codec, w: World) {
    forall p :: HasDraft(PhaseOf(w, p)) ==> c.redactOk(PhaseOf(w, p).draft)
  }

  lemma {:induction false} StepKeepsDrafts(c: Codec, w: World, a: Action, w': World)
    requires DraftsOk(c, w) && Step(c, w, a) == Some(w')
    ensures DraftsOk(c, w')
  {
    hide Prepare, TailOf;
    assert HasDraft(PhaseOf(w, a.p)) ==> c.redactOk(PhaseOf(w, a.p).draft);
    forall p | p != a.p ensures PhaseOf(w', p) == PhaseOf(w, p) { }
  }

  /** No write is cut, and no two writes carry one event id. */
  ghost predicate FreshAndWhole(actions: seq<Action>) {
    && (forall i :: 0 <= i < |actions| ==> !actions[i].PutPart?)
    && (forall i, j :: 0 <= i < j < |actions| && actions[i].Put? && actions[j].Put? ==>
         actions[i].stamp.eventId != actions[j].stamp.eventId)
  }

  ghost predicate IdsFrom(ops: seq<Op>, actions: seq<Action>) {
    forall id :: id in StampIds(ops) ==>
      exists i :: 0 <= i < |actions| && actions[i].Put? && actions[i].stamp.eventId == id
  }

  /** What a step adds to the writes. */
  lemma {:induction false} WritesAdded(c: Codec, w: World, a: Action, w': World)
    requires SurveysCurrent(w) && Step(c, w, a) == Some(w') && !a.PutPart?
    ensures if a.Put? then
        var phase := PhaseOf(w, a.p);
        && phase.Surveyed? && Prepare(c, TailOf(w.file), phase.draft, a.stamp).Write?
        && w'.ops == w.ops + [Commit(phase.draft, a.stamp)]
      else w'.ops == w.ops
  {
    hide Prepare, TailOf;
  }

  lemma {:induction false} IdIsNew(ops: seq<Op>, init: seq<Action>, a: Action)
    requires IdsFrom(ops, init) && FreshAndWhole(init + [a]) && a.Put?
    ensures a.stamp.eventId !in StampIds(ops)
  {
    var all := init + [a];
    hide StampIds;
    assert all[|init|] == a && forall i :: 0 <= i < |init| ==> all[i] == init[i];
  }

  lemma {:induction false} IdsStayFrom(ops: seq<Op>, ops': seq<Op>, init: seq<Action>, a: Action)
    requires IdsFrom(ops, init)
    requires ops' == ops || (a.Put? && ops' != [] && ops'[..|ops'| - 1] == ops && ops'[|ops'| - 1].stamp == a.stamp)
    ensures IdsFrom(ops', init + [a])
  {
    var all := init + [a];
    if ops' != ops {
      assert ops' == ops + [ops'[|ops'| - 1]];
      StampIdsStep(ops, ops'[|ops'| - 1]);
    }
    hide StampIds;
    forall id | id in StampIds(ops') ensures exists i :: 0 <= i < |all| && all[i].Put? && all[i].stamp.eventId == id {
      if id in StampIds(ops) {
        var i :| 0 <= i < |init| && init[i].Put? && init[i].stamp.eventId == id;
        assert all[i] == init[i];
      } else {
        assert all[|init|] == a;
      }
    }
  }

  lemma CleanCommit(c: Codec, ops: seq<Op>, op: Op)
    requires CleanOps(c, ops) && op.Commit? && c.redactOk(op.draft) && op.stamp.eventId !in StampIds(ops)
    requires Prepare(c, TailOf(Sequential(c, ops)), op.draft, op.stamp).Write?
    ensures CleanOps(c, ops + [op])
  {
    hide Sequential, Prepare, TailOf, StampIds;
    assert (ops + [op])[..|ops|] == ops;
  }

  lemma {:induction false} OneMoreWrite(c: Codec, w: World, init: seq<Action>, a: Action, w': World)
    requires Inv(c, w) && DraftsOk(c, w) && CleanOps(c, w.ops) && IdsFrom(w.ops, init)
    requires Step(c, w, a) == Some(w') && FreshAndWhole(init + [a])
    ensures CleanOps(c, w'.ops) && IdsFrom(w'.ops, init + [a])
    ensures (forall op :: op in w.ops ==> op.Commit?) ==> forall op :: op in w'.ops ==> op.Commit?
  {
    assert !a.PutPart? by { assert (init + [a])[|init|] == a; }
    var draft := if a.Put? && PhaseOf(w, a.p).Surveyed? then PhaseOf(w, a.p).draft else EmptyDraft();
    assert a.Put? && PhaseOf(w, a.p).Surveyed? ==> HasDraft(PhaseOf(w, a.p)) && c.redactOk(draft);
    assert SurveysCurrent(w) && w.file == Sequential(c, w.ops);
    hide Inv, DraftsOk, CleanOps, IdsFrom, FreshAndWhole, Step, SurveysCurrent, Prepare, TailOf, Sequential, StampIds;
    WritesAdded(c, w, a, w');
    if a.Put? {
      IdIsNew(w.ops, init, a);
      CleanCommit(c, w.ops, Commit(draft, a.stamp));
    }
    IdsStayFrom(w.ops, w'.ops, init, a);
  }

  function EmptyDraft(): Fields {
    Fields(RunStarted, "", "", "", [], "")
  }

  /** Whole writes with fresh ids are clean, so the reader finds all of them and nothing else in an unbroken chain. */
  lemma {:induction false} FreshWholeWritesAreRead(c: Codec, actions: seq<Action>)
    requires c.Sound() && SafeRun(c, actions) && FreshAndWhole(actions)
    ensures var w := Run(c, actions).value;
      var st := ReadFile(c, w.file);
      CleanOps(c, w.ops) && FieldsOf(st.events) == DraftsOf(w.ops) && st.malformed == [] && st.partialBytes == 0 &&
      !st.tampered
  {
    FreshWholeIsClean(c, actions);
    hide ReadFile, SafeRun, Codec.Sound, CleanOps, FreshAndWhole;
    UntornRunReadsEveryWrite(c, actions);
  }

  lemma {:induction false} FreshWholeIsClean(c: Codec, actions: seq<Action>)
    requires SafeRun(c, actions) && FreshAndWhole(actions)
    ensures var w := Run(c, actions).value;
      DraftsOk(c, w) && CleanOps(c, w.ops) && IdsFrom(w.ops, actions) && forall op :: op in w.ops ==> op.Commit?
  {
    if actions != [] {
      var init, a := actions[..|actions| - 1], actions[|actions| - 1];
      assert actions == init + [a];
      RunStep(c, init, a);
      assert FreshAndWhole(init);
      assert SafeRun(c, init);
      FreshWholeIsClean(c, init);
      RunKeepsInv(c, init);
      hide SafeRun, FreshAndWhole, Step, CleanOps, DraftsOk, Inv, IdsFrom, Run;
      var w, w' := Run(c, init).value, Run(c, actions).value;
      StepKeepsDrafts(c, w, a, w');
      OneMoreWrite(c, w, init, a, w');
    }
  }
}
