/**
 What the resume packet reports, on the events themselves: which verdicts are
 stale or current, which tasks are in flight, and what is written when.
 */
module CheckpointFacts {
  import opened Options
  import opened Positions
  import opened Ledger
  import opened EventReader
  import opened CheckpointText
  import opened Checkpoint
  import opened CheckpointSafety

  // ---------------------------------------------------------------------
  // Verdicts
  // ---------------------------------------------------------------------

  predicate HoldsVerdict(e: Event) {
    e.fields.etype in {ReviewVerdict, ReleaseVerdict}
  }

  /** Some event revokes this id. */
  ghost predicate Revoked(es: seq<Event>, id: string) {
    exists j :: 0 <= j < |es| && es[j].fields.etype in {VerdictInvalidated, RevisionChanged} &&
      id in es[j].fields.invalidates
  }

  lemma {:induction false} RevokedIff(es: seq<Event>, id: string)
    ensures id in InvalidatedIds(es) <==> Revoked(es, id)
  {
    if id in InvalidatedIds(es) {
      var e :| e in es && Invalidates(e) && id in e.fields.invalidates;
      var j :| 0 <= j < |es| && es[j] == e;
    }
    if Revoked(es, id) {
      var j :| 0 <= j < |es| && es[j].fields.etype in {VerdictInvalidated, RevisionChanged} &&
        id in es[j].fields.invalidates;
      assert es[j] in es;
    }
  }

  /** Event i is a verdict of another revision, or a revoked one. */
  ghost predicate StaleAt(es: seq<Event>, revision: string, all: seq<Event>, i: nat) {
    i < |es| && HoldsVerdict(es[i]) &&
    (!RevisionMatches(es[i].fields.targetRevision, revision) || Revoked(all, es[i].eventId))
  }

  /** The stale verdicts are those of the events at `at`, in order. */
  ghost predicate StaleAre(es: seq<Event>, revision: string, all: seq<Event>, stale: seq<StaleVerdict>, at: seq<nat>) {
    && Rising(at, |es|) && (forall i :: 0 <= i < |es| ==> (i in at <==> StaleAt(es, revision, all, i)))
    && |stale| == |at| && forall n :: 0 <= n < |at| ==>
      (var e := es[at[n]];
       stale[n] == StaleVerdict(e.fields.taskId, e.fields.etype, e.fields.verdict, e.fields.targetRevision, e.seqNo,
                                if Revoked(all, e.eventId) then InvalidatedVerdict else StaleRevision))
  }

  lemma {:induction false} OneMoreVerdict(init: seq<Event>, e: Event, revision: string, all: seq<Event>,
                                          stale: seq<StaleVerdict>, at: seq<nat>)
    requires StaleAre(init, revision, all, stale, at)
    ensures if StaleAt([e], revision, all, 0)
      then StaleAre(init + [e], revision, all, stale + [StaleEntry(e, InvalidatedIds(all))], at + [|init|])
      else StaleAre(init + [e], revision, all, stale, at)
  {
    RevokedIff(all, e.eventId);
    hide RevisionMatches, Revoked, InvalidatedIds;
    var more := at + [|init|];
    forall i: nat | i < |init| ensures i in more <==> i in at { }
    assert more[|at|] == |init|;
    assert |init| !in at;
    forall i: nat | i < |init|
      ensures StaleAt(init + [e], revision, all, i) <==> StaleAt(init, revision, all, i) { }
    assert StaleAt(init + [e], revision, all, |init|) <==> StaleAt([e], revision, all, 0);
  }

  /** The stale list: every verdict about another revision or revoked by any event, in order, with its reason. */
  lemma {:induction false} StaleVerdictsAre(es: seq<Event>, revision: string, all: seq<Event>) returns (at: seq<nat>)
    ensures StaleAre(es, revision, all, StaleOf(es, revision, InvalidatedIds(all)), at)
  {
    at := [];
    if es != [] {
      var init, e := es[..|es| - 1], es[|es| - 1];
      assert es == init + [e];
      at := StaleVerdictsAre(init, revision, all);
      RevokedIff(all, e.eventId);
      var before := StaleOf(init, revision, InvalidatedIds(all));
      OneMoreVerdict(init, e, revision, all, before, at);
      assert before + [] == before;
      assert IsStale(e, revision, InvalidatedIds(all)) <==> StaleAt([e], revision, all, 0);
      hide StaleAre, IsStale, StaleAt, InvalidatedIds, StaleEntry;
      if StaleAt([e], revision, all, 0) { at := at + [|init|]; }
    }
  }

  /** Event i is the last verdict about its task. */
  ghost predicate LastVerdictAt(es: seq<Event>, taskId: string, i: nat) {
    i < |es| && HoldsVerdict(es[i]) && es[i].fields.taskId == taskId &&
    forall j :: i < j < |es| && HoldsVerdict(es[j]) ==> es[j].fields.taskId != taskId
  }

  lemma {:induction false} LatestVerdictIs(es: seq<Event>, taskId: string)
    ensures match LatestVerdict(es, taskId)
      case None => forall i :: 0 <= i < |es| && HoldsVerdict(es[i]) ==> es[i].fields.taskId != taskId
      case Some(e) => exists i: nat :: LastVerdictAt(es, taskId, i) && es[i] == e
  {
    if es != [] {
      var n := |es| - 1;
      LatestVerdictIs(es[..n], taskId);
      if IsVerdict(es[n]) && es[n].fields.taskId == taskId {
        assert LastVerdictAt(es, taskId, n);
      } else if LatestVerdict(es[..n], taskId).Some? {
        var i: nat :| LastVerdictAt(es[..n], taskId, i) && es[..n][i] == LatestVerdict(es[..n], taskId).value;
        assert LastVerdictAt(es, taskId, i);
      }
    }
  }

  /** A task's current verdict is its last one, as long as that one is for this revision and not revoked. */
  lemma {:induction false} CurrentVerdictIff(es: seq<Event>, revision: string, v: CurrentVerdict)
    ensures (var l := LatestVerdict(es, v.taskId);
             l.Some? && !IsStale(l.value, revision, InvalidatedIds(es)) &&
             v == CurrentVerdict(v.taskId, l.value.fields.etype, l.value.fields.verdict))
      <==> exists i: nat ::
        (LastVerdictAt(es, v.taskId, i) && RevisionMatches(es[i].fields.targetRevision, revision) &&
         !Revoked(es, es[i].eventId) && es[i].fields.etype == v.etype && es[i].fields.verdict == v.verdict)
  {
    LatestVerdictIs(es, v.taskId);
    var l := LatestVerdict(es, v.taskId);
    if l.Some? { RevokedIff(es, l.value.eventId); }
    hide LatestVerdict, RevisionMatches, Revoked, InvalidatedIds;
  }

  /** Revisions match if both are known and nonempty, equally dirty, and one commit id abbreviates the other. */
  lemma {:induction false} RevisionMatchesIff(a: string, b: string)
    requires !EndsWith(a, DIRTY) && !EndsWith(b, DIRTY)
    ensures RevisionMatches(a, b) <==>
      a != "" && b != "" && (a <= b || b <= a) && a != "UNKNOWN" && b != "UNKNOWN"
    ensures RevisionMatches(a + "+dirty", b + "+dirty") <==> a != "" && b != "" && (a <= b || b <= a)
    ensures !RevisionMatches(a + "+dirty", b) && !RevisionMatches(a, b + "+dirty")
  {
    MarkedBase(a);
    MarkedBase(b);
    CleanBase(a);
    CleanBase(b);
    hide EndsWith, BaseOf;
  }

  lemma CleanBase(a: string)
    requires !EndsWith(a, DIRTY)
    ensures BaseOf(a) == a
  {
  }

  lemma MarkedBase(a: string)
    ensures EndsWith(a + "+dirty", DIRTY) && BaseOf(a + "+dirty") == a
    ensures a + "+dirty" != "UNKNOWN" && a + "+dirty" != ""
  {
    assert (a + "+dirty")[|a|..] == "+dirty";
    assert (a + "+dirty")[|a + "+dirty"| - 1] == 'y';
    assert "UNKNOWN"[6] == 'N';
  }

  // ---------------------------------------------------------------------
  // Tasks in flight
  // ---------------------------------------------------------------------

  /** The event concerns the task's progress. */
  predicate MovesTask(e: Event, taskId: string) {
    e.fields.taskId == taskId &&
    e.fields.etype in {DispatchCreated, AgentStarted, AgentCompleted, PacketReturned, TaskBlocked, RetryScheduled}
  }

  /** Event i started the task and no later event moved it. */
  ghost predicate StartedAt(es: seq<Event>, taskId: string, i: nat) {
    i < |es| && es[i].fields.taskId == taskId && es[i].fields.etype in {DispatchCreated, AgentStarted} &&
    forall j :: i < j < |es| ==> !MovesTask(es[j], taskId)
  }

  /** Event i is the last that moved the task. */
  ghost predicate LastMoveAt(es: seq<Event>, taskId: string, i: nat) {
    i < |es| && MovesTask(es[i], taskId) && forall j :: i < j < |es| ==> !MovesTask(es[j], taskId)
  }

  lemma {:induction false} LastMoveIs(es: seq<Event>, taskId: string)
    ensures match LastMove(es, taskId)
      case None => forall i :: 0 <= i < |es| ==> !MovesTask(es[i], taskId)
      case Some(e) => exists i: nat :: LastMoveAt(es, taskId, i) && es[i] == e
  {
    if es != [] {
      var n := |es| - 1;
      var init := es[..n];
      assert MovesTask(es[n], taskId) <==> (IsOpener(es[n]) || IsCloser(es[n])) && es[n].fields.taskId == taskId;
      assert LastMove(es, taskId) == if MovesTask(es[n], taskId) then Some(es[n]) else LastMove(init, taskId);
      hide IsOpener, IsCloser, MovesTask, LastMove;
      LastMoveIs(init, taskId);
      assert forall i :: 0 <= i < n ==> init[i] == es[i];
      if MovesTask(es[n], taskId) {
        assert LastMoveAt(es, taskId, n);
      } else if LastMove(es[..n], taskId).Some? {
        var i: nat :| LastMoveAt(es[..n], taskId, i) && es[..n][i] == LastMove(es[..n], taskId).value;
        assert LastMoveAt(es, taskId, i);
      }
    }
  }

  /** A task is in flight if its last move, among six kinds of events, was a dispatch or a start. */
  lemma {:induction false} InFlightIff(es: seq<Event>, f: InFlight)
    ensures IsInFlight(es, f) <==>
      f.taskId != "" && f.taskId != "UNKNOWN" &&
      exists i: nat :: StartedAt(es, f.taskId, i) && f.etype == es[i].fields.etype && f.seqNo == es[i].seqNo
  {
    LastMoveIs(es, f.taskId);
    hide LastMove;
    if i: nat :| StartedAt(es, f.taskId, i) && f.etype == es[i].fields.etype && f.seqNo == es[i].seqNo {
      assert MovesTask(es[i], f.taskId) && LastMoveAt(es, f.taskId, i);
      assert LastMove(es, f.taskId) == Some(es[i]);
    }
    if IsInFlight(es, f) {
      var i: nat :| LastMoveAt(es, f.taskId, i) && es[i] == LastMove(es, f.taskId).value;
      assert StartedAt(es, f.taskId, i);
    }
  }

  // ---------------------------------------------------------------------
  // What is written
  // ---------------------------------------------------------------------

  /** 7 to 40 lower-case hexadecimal digits. */
  predicate CommitId(id: string) {
    7 <= |id| <= 40 && forall i :: 0 <= i < |id| ==> '0' <= id[i] <= '9' || 'a' <= id[i] <= 'f'
  }

  lemma CommitIdIsClean(id: string)
    requires CommitId(id)
    ensures !EndsWith(id, DIRTY)
  {
    assert id[|id| - 6..][0] == id[|id| - 6] && DIRTY[0] == '+' && |DIRTY| == 6;
  }

  lemma BaseAndMark(s: string)
    ensures s == BaseOf(s) || s == BaseOf(s) + "+dirty"
  {
  }

  /** An explicit revision is a commit id, marked dirty or not. */
  lemma {:induction false} TargetRevisionIff(s: string)
    ensures TargetRevision(s) <==> CommitId(s) || exists id: string :: CommitId(id) && s == id + "+dirty"
  {
    BaseAndMark(s);
    assert TargetRevision(s) <==> CommitId(BaseOf(s));
    if CommitId(s) {
      CommitIdIsClean(s);
      CleanBase(s);
    }
    if id: string :| CommitId(id) && s == id + "+dirty" { MarkedBase(id); }
    hide BaseOf, CommitId, TargetRevision;
  }

  /** Nothing is written without a valid ledger (3) or for a revision that is none (2). */
  lemma {:induction false} GenerateExits(t: Tools, ledger: Option<Bytes>, runId: string, requested: Option<string>,
                                         git: Git, generatedAt: string, body: Levels -> string)
    ensures var valid := ledger.Some? && var st := ReadFile(t.codec, ledger.value);
        !st.tampered && st.malformed == [] && st.partialBytes == 0;
      var written := Generate(t, ledger, runId, requested, git, generatedAt, body);
      && (written == Exit(3) <==> !valid)
      && (written == Exit(2) <==> valid && requested.Some? && !TargetRevision(requested.value))
      && (written.Written? <==> valid && (requested == None || TargetRevision(requested.value)))
  {
    hide ReadFile, Packet, TargetRevision;
  }

  /** The written header reads back as the run, the last event's number and hash, the revision and the worktree. */
  lemma {:induction false} WrittenHeaderIs(t: Tools, ledger: Bytes, runId: string, requested: Option<string>,
                                           git: Git, generatedAt: string, body: Levels -> string)
    requires t.Sound() && WritableContext(runId, requested, git) && Plain(generatedAt)
    requires !LedgerInvalid(Summary(ReadFile(t.codec, ledger)))
    ensures var written := Generate(t, Some(ledger), runId, requested, git, generatedAt, body);
      var es := ReadFile(t.codec, ledger).events;
      && written.Written? && ParseCheckpoint(written.text).Some?
      && var p := ParseCheckpoint(written.text).value;
      && p.runId == runId && p.lastSeq == |es|
      && p.lastHash == (if es == [] then GENESIS else t.codec.hash(t.codec.stringify(es[|es| - 1])))
      && p.revision == (if requested.Some? then requested.value else git.revision)
      && p.worktreeId == (if requested.Some? then "NOT_COMPUTED" else git.worktreeId)
      && t.sha(Digested(p.linesBeforeDigest, p.body)) == p.digest
  {
    hide ReadFile, ParseCheckpoint, Packet, Codec.Sound, Plain, Hex, TargetRevision, Digested, LedgerInvalid;
    var r := Summary(ReadFile(t.codec, ledger));
    ValidLedger(t.codec, ledger);
    var rev := CurrentRevision(requested, git).value;
    HeaderIsWellFormed(t, r, runId, rev, CurrentWorktree(requested, git), generatedAt);
    var p := PacketParses(t, HeaderFor(t, r, runId, rev, CurrentWorktree(requested, git), generatedAt), body);
  }

  /** The packet with the sections rendered at a level fits the target of 1500 tokens, four characters each. */
  predicate Fits(t: Tools, h: Header, body: Levels -> string, level: Levels) {
    |Probe(t, h, body, level)| <= 6000
  }

  function Probe(t: Tools, h: Header, body: Levels -> string, level: Levels): string {
    RenderPacket(t.sha, h.(size := "OVER_TARGET est=99999 target=1500"), body(level))
  }

  /** The least compressed of four levels that fits; the most compressed if none does. */
  function Level(t: Tools, h: Header, body: Levels -> string): Levels {
    if Fits(t, h, body, Levels(true, true, true)) then Levels(true, true, true)
    else if Fits(t, h, body, Levels(false, true, true)) then Levels(false, true, true)
    else if Fits(t, h, body, Levels(false, false, true)) then Levels(false, false, true)
    else Levels(false, false, false)
  }

  lemma LevelIs(t: Tools, h: Header, body: Levels -> string)
    ensures ATTEMPTS[ChosenLevel(t, h, body, 0)] == Level(t, h, body)
  {
    hide RenderPacket;
    assert ATTEMPTS[0] == Levels(true, true, true) && ATTEMPTS[1] == Levels(false, true, true);
    assert ATTEMPTS[2] == Levels(false, false, true) && ATTEMPTS[3] == Levels(false, false, false);
    forall i | 0 <= i < 4 ensures ProbeEstimate(t, h, body, i) <= 1500 <==> Fits(t, h, body, ATTEMPTS[i]) { }
  }

  /** The written packet, and what its SIZE line says. */
  lemma {:induction false} PacketSizeIs(t: Tools, h: Header, body: Levels -> string)
    ensures var level := Level(t, h, body);
      var est := (|Probe(t, h, body, level)| + 3) / 4;
      Packet(t, h, body) ==
        RenderPacket(t.sha, h.(size := (if Fits(t, h, body, level) then "OK est=" else "OVER_TARGET est=") +
                                       Decimal(est) + " target=1500"), body(level))
  {
    LevelIs(t, h, body);
    hide RenderPacket, Decimal, ChosenLevel;
  }
}
