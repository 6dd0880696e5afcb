/**
 The resume packet: what generateMode writes about a verified ledger, and what
 verifyMode concludes from it about a ledger that may have grown since.
 */
module Checkpoint {
  import opened Options
  import opened Ledger
  import opened EventReader
  import opened CheckpointText

  // ---------------------------------------------------------------------
  // Revisions and verdicts
  // ---------------------------------------------------------------------

  predicate EndsWith(s: string, suffix: string) {
    |suffix| <= |s| && s[|s| - |suffix|..] == suffix
  }

  const DIRTY := "+dirty"
  const UNKNOWN := "UNKNOWN"

  function BaseOf(revision: string): string {
    if EndsWith(revision, DIRTY) then revision[..|revision| - |DIRTY|] else revision
  }

  predicate RevisionMatches(a: string, b: string) {
    && a != UNKNOWN && b != UNKNOWN && a != "" && b != ""
    && EndsWith(a, DIRTY) == EndsWith(b, DIRTY)
    && BaseOf(a) != "" && BaseOf(b) != ""
    && (BaseOf(b) <= BaseOf(a) || BaseOf(a) <= BaseOf(b))
  }

  predicate IsVerdict(e: Event) {
    e.fields.etype == ReviewVerdict || e.fields.etype == ReleaseVerdict
  }

  predicate Invalidates(e: Event) {
    e.fields.etype == VerdictInvalidated || e.fields.etype == RevisionChanged
  }

  /** Event `i` names `id` as invalidated. */
  predicate Names(e: Event, id: string) {
    Invalidates(e) && id in e.fields.invalidates
  }

  function InvalidatedIds(es: seq<Event>): set<string> {
    set e, id | e in es && Invalidates(e) && id in e.fields.invalidates :: id
  }

  method CollectInvalidatedIds(events: seq<Event>) returns (ids: set<string>)
    ensures ids == InvalidatedIds(events)
    ensures forall id :: id in ids <==> exists i :: 0 <= i < |events| && Names(events[i], id)
  {
    ids := {};
    for i := 0 to |events|
      invariant forall id :: id in ids <==> exists j :: 0 <= j < i && Names(events[j], id)
    {
      var e := events[i];
      if e.fields.etype == VerdictInvalidated || e.fields.etype == RevisionChanged {
        ghost var before := ids;
        for k := 0 to |e.fields.invalidates|
          invariant ids == before + set id | id in e.fields.invalidates[..k]
        {
          ids := ids + {e.fields.invalidates[k]};
        }
        assert e.fields.invalidates[..|e.fields.invalidates|] == e.fields.invalidates;
      }
      forall id
        ensures id in ids <==> exists j :: 0 <= j < i + 1 && Names(events[j], id)
      {
        if id in ids && Names(e, id) { assert Names(events[i], id); }
      }
    }
    forall id ensures id in ids <==> id in InvalidatedIds(events) {
      if id in ids {
        var j :| 0 <= j < |events| && Names(events[j], id);
        assert events[j] in events;
      }
    }
  }

  predicate IsStale(e: Event, revision: string, invalidated: set<string>) {
    IsVerdict(e) && (!RevisionMatches(e.fields.targetRevision, revision) || e.eventId in invalidated)
  }

  datatype Reason = InvalidatedVerdict | StaleRevision

  datatype StaleVerdict = StaleVerdict(
    taskId: string, etype: EventType, verdict: string, reviewedRevision: string, seqNo: int, reason: Reason)

  datatype CurrentVerdict = CurrentVerdict(taskId: string, etype: EventType, verdict: string)

  function StaleEntry(e: Event, invalidated: set<string>): StaleVerdict {
    StaleVerdict(e.fields.taskId, e.fields.etype, e.fields.verdict, e.fields.targetRevision, e.seqNo,
                 if e.eventId in invalidated then InvalidatedVerdict else StaleRevision)
  }

  function StaleOf(es: seq<Event>, revision: string, invalidated: set<string>): seq<StaleVerdict> {
    if es == [] then []
    else
      var e := es[|es| - 1];
      StaleOf(es[..|es| - 1], revision, invalidated)
      + if IsStale(e, revision, invalidated) then [StaleEntry(e, invalidated)] else []
  }

  /** The last verdict about a task, the one that counts. */
  function LatestVerdict(es: seq<Event>, taskId: string): Option<Event> {
    if es == [] then None
    else
      var e := es[|es| - 1];
      if IsVerdict(e) && e.fields.taskId == taskId then Some(e) else LatestVerdict(es[..|es| - 1], taskId)
  }

  method ComputeVerdicts(events: seq<Event>, revision: string, invalidated: set<string>)
    returns (stale: seq<StaleVerdict>, current: set<CurrentVerdict>)
    ensures stale == StaleOf(events, revision, invalidated)
    ensures forall v :: v in current <==>
      (var l := LatestVerdict(events, v.taskId);
       l.Some? && !IsStale(l.value, revision, invalidated) &&
       v == CurrentVerdict(v.taskId, l.value.fields.etype, l.value.fields.verdict))
  {
    stale := [];
    var latestByTask: map<string, Event> := map[];
    for i := 0 to |events|
      invariant stale == StaleOf(events[..i], revision, invalidated)
      invariant forall t :: t in latestByTask <==> LatestVerdict(events[..i], t).Some?
      invariant forall t :: t in latestByTask ==> LatestVerdict(events[..i], t) == Some(latestByTask[t])
    {
      var e := events[i];
      assert events[..i + 1][..i] == events[..i];
      if IsVerdict(e) {
        if !RevisionMatches(e.fields.targetRevision, revision) || e.eventId in invalidated {
          stale := stale + [StaleEntry(e, invalidated)];
        }
        latestByTask := latestByTask[e.fields.taskId := e];
      }
    }
    assert events[..|events|] == events;
    current := set t | t in latestByTask && !IsStale(latestByTask[t], revision, invalidated)
      :: CurrentVerdict(t, latestByTask[t].fields.etype, latestByTask[t].fields.verdict);
  }

  predicate IsOpener(e: Event) {
    e.fields.etype == DispatchCreated || e.fields.etype == AgentStarted
  }

  predicate IsCloser(e: Event) {
    e.fields.etype == AgentCompleted || e.fields.etype == PacketReturned
    || e.fields.etype == TaskBlocked || e.fields.etype == RetryScheduled
  }

  /** The last event that opened or closed a task. */
  function LastMove(es: seq<Event>, taskId: string): Option<Event> {
    if es == [] then None
    else
      var e := es[|es| - 1];
      if (IsOpener(e) || IsCloser(e)) && e.fields.taskId == taskId then Some(e) else LastMove(es[..|es| - 1], taskId)
  }

  datatype InFlight = InFlight(taskId: string, etype: EventType, seqNo: int)

  /** A named task whose last move opened it. */
  predicate IsInFlight(es: seq<Event>, f: InFlight) {
    var m := LastMove(es, f.taskId);
    && f.taskId != "" && f.taskId != UNKNOWN
    && m.Some? && IsOpener(m.value) && f == InFlight(f.taskId, m.value.fields.etype, m.value.seqNo)
  }

  predicate SortedBySeq(fs: seq<InFlight>) {
    forall i :: 0 < i < |fs| ==> fs[i - 1].seqNo <= fs[i].seqNo
  }

  /** No task is listed twice. */
  predicate DistinctTasks(fs: seq<InFlight>) {
    forall i, j :: 0 <= i < j < |fs| ==> fs[i].taskId != fs[j].taskId
  }

  function InsertBySeq(fs: seq<InFlight>, f: InFlight): seq<InFlight> {
    if fs == [] || fs[|fs| - 1].seqNo <= f.seqNo then fs + [f]
    else InsertBySeq(fs[..|fs| - 1], f) + [fs[|fs| - 1]]
  }

  lemma {:induction false} InsertMembers(fs: seq<InFlight>, f: InFlight)
    ensures multiset(InsertBySeq(fs, f)) == multiset(fs) + multiset{f}
  {
    if fs != [] {
      assert fs == fs[..|fs| - 1] + [fs[|fs| - 1]];
      InsertMembers(fs[..|fs| - 1], f);
    }
  }

  lemma {:induction false} Inserted(fs: seq<InFlight>, f: InFlight, x: InFlight)
    ensures x in InsertBySeq(fs, f) <==> x in fs || x == f
  {
    hide InsertBySeq;
    InsertMembers(fs, f);
    assert x in InsertBySeq(fs, f) <==> x in multiset(InsertBySeq(fs, f));
    assert x in fs <==> x in multiset(fs);
  }

  /** The last entry after an insertion is the new one or the old last one. */
  lemma InsertLast(fs: seq<InFlight>, f: InFlight)
    ensures var r := InsertBySeq(fs, f); r != [] && (r[|r| - 1] == f || (fs != [] && r[|r| - 1] == fs[|fs| - 1]))
  {
  }

  lemma {:induction false} InsertSorts(fs: seq<InFlight>, f: InFlight)
    requires SortedBySeq(fs)
    ensures SortedBySeq(InsertBySeq(fs, f))
  {
    if fs != [] && fs[|fs| - 1].seqNo > f.seqNo {
      var init := fs[..|fs| - 1];
      InsertSorts(init, f);
      InsertLast(init, f);
      hide InsertBySeq;
      assert init != [] ==> init[|init| - 1].seqNo <= fs[|fs| - 1].seqNo;
    }
  }

  lemma {:induction false} InsertKeepsDistinct(fs: seq<InFlight>, f: InFlight)
    requires DistinctTasks(fs) && forall x :: x in fs ==> x.taskId != f.taskId
    ensures DistinctTasks(InsertBySeq(fs, f))
  {
    if fs != [] && fs[|fs| - 1].seqNo > f.seqNo {
      var init, last := fs[..|fs| - 1], fs[|fs| - 1];
      InsertKeepsDistinct(init, f);
      var t := InsertBySeq(init, f);
      hide InsertBySeq;
      assert last in fs;
      forall i | 0 <= i < |t| ensures t[i].taskId != last.taskId {
        Inserted(init, f, t[i]);
      }
    }
  }

  lemma MoveStep(events: seq<Event>, i: nat, taskId: string)
    requires i < |events|
    ensures LastMove(events[..i + 1], taskId) ==
      if (IsOpener(events[i]) || IsCloser(events[i])) && events[i].fields.taskId == taskId then Some(events[i])
      else LastMove(events[..i], taskId)
  {
    hide IsOpener, IsCloser;
    assert events[..i + 1][..i] == events[..i];
  }

  /** The last move of every named task, and the tasks in the order in which they first moved. */
  method LastMoves(events: seq<Event>) returns (state: map<string, Event>, order: seq<string>)
    ensures forall t :: t in state <==> t in order
    ensures forall t :: t in state <==> t != "" && t != UNKNOWN && LastMove(events, t).Some?
    ensures forall t :: t in state ==> LastMove(events, t) == Some(state[t])
    ensures forall j, k :: 0 <= j < k < |order| ==> order[j] != order[k]
  {
    state, order := map[], [];
    for i := 0 to |events|
      invariant forall t :: t in state <==> t in order
      invariant forall t :: t in state <==> t != "" && t != UNKNOWN && LastMove(events[..i], t).Some?
      invariant forall t :: t in state ==> LastMove(events[..i], t) == Some(state[t])
      invariant forall j, k :: 0 <= j < k < |order| ==> order[j] != order[k]
    {
      var e := events[i];
      var task := e.fields.taskId;
      forall t { MoveStep(events, i, t); }
      hide LastMove, IsOpener, IsCloser;
      if task != "" && task != UNKNOWN && (IsOpener(e) || IsCloser(e)) {
        if task !in state { order := order + [task]; }
        state := state[task := e];
      }
    }
    assert events[..|events|] == events;
  }

  method ComputeInFlight(events: seq<Event>) returns (inFlight: seq<InFlight>)
    ensures forall f :: f in inFlight <==> IsInFlight(events, f)
    ensures SortedBySeq(inFlight) && DistinctTasks(inFlight)
  {
    hide LastMove, InsertBySeq;
    var state, order := LastMoves(events);
    inFlight := [];
    for i := 0 to |order|
      invariant SortedBySeq(inFlight) && DistinctTasks(inFlight)
      invariant forall f :: f in inFlight <==> f.taskId in order[..i] && IsInFlight(events, f)
    {
      var e := state[order[i]];
      assert order[..i + 1] == order[..i] + [order[i]] && order[i] !in order[..i];
      if IsOpener(e) {
        var f := InFlight(order[i], e.fields.etype, e.seqNo);
        hide SortedBySeq, DistinctTasks;
        InsertKeepsDistinct(inFlight, f);
        InsertSorts(inFlight, f);
        forall x ensures x in InsertBySeq(inFlight, f) <==> x in inFlight || x == f { Inserted(inFlight, f, x); }
        inFlight := InsertBySeq(inFlight, f);
      }
    }
    assert order[..|order|] == order;
  }

  // ---------------------------------------------------------------------
  // Generating
  // ---------------------------------------------------------------------

  /** Everything the checkpoint takes from outside: the codec, SHA-256 of a text, and sanitizeLine. */
  datatype Tools = Tools(codec: Codec, sha: string -> string, sanitize: string -> string)
  {
    ghost predicate Sound() {
      && codec.Sound()
      && (forall s :: Hex(sha(s), 64))
      && (forall l :: Hex(codec.hash(l), 64))
      && (forall s :: Plain(s) && |s| <= 64 ==> sanitize(s) == s)
    }
  }

  /** What git answers, and the optional --revision flag. */
  datatype Git = Git(revision: string, worktreeId: string)

  predicate TargetRevision(s: string) {
    var base := BaseOf(s);
    7 <= |base| <= 40 && Hex(base, |base|)
  }

  function CurrentRevision(requested: Option<string>, git: Git): Option<string> {
    match requested
    case Some(r) => if TargetRevision(r) then Some(r) else None
    case None => Some(git.revision)
  }

  function CurrentWorktree(requested: Option<string>, git: Git): string {
    if requested.Some? then "NOT_COMPUTED" else git.worktreeId
  }

  predicate LedgerInvalid(r: ReadResult) {
    r.tampered || r.malformed != [] || r.partialBytes > 0
  }

  function LastVerifiedHash(c: Codec, es: seq<Event>): string {
    if es == [] then GENESIS else c.hash(c.stringify(es[|es| - 1]))
  }

  const TARGET_TOKENS := 1500
  const PROBE_SIZE := "OVER_TARGET est=99999 target=1500"

  datatype Levels = Levels(doneFull: bool, currentFull: bool, summaryFull: bool)

  const ATTEMPTS := [Levels(true, true, true), Levels(false, true, true), Levels(false, false, true),
                     Levels(false, false, false)]

  function EstimateTokens(text: string): nat {
    (|text| + 3) / 4
  }

  function SizeOf(est: nat): string {
    (if est > TARGET_TOKENS then "OVER_TARGET est=" else "OK est=") + Decimal(est) + " target=1500"
  }

  function ProbeEstimate(t: Tools, h: Header, body: Levels -> string, i: nat): nat
    requires i < |ATTEMPTS|
  {
    EstimateTokens(RenderPacket(t.sha, h.(size := PROBE_SIZE), body(ATTEMPTS[i])))
  }

  /** The first compression level whose packet fits the target; the last one when none does. */
  function ChosenLevel(t: Tools, h: Header, body: Levels -> string, from: nat): (i: nat)
    requires from < |ATTEMPTS|
    ensures from <= i < |ATTEMPTS|
    ensures forall j :: from <= j < i ==> ProbeEstimate(t, h, body, j) > TARGET_TOKENS
    ensures i < |ATTEMPTS| - 1 ==> ProbeEstimate(t, h, body, i) <= TARGET_TOKENS
    decreases |ATTEMPTS| - from
  {
    if ProbeEstimate(t, h, body, from) <= TARGET_TOKENS || from == |ATTEMPTS| - 1 then from
    else ChosenLevel(t, h, body, from + 1)
  }

  function Packet(t: Tools, h: Header, body: Levels -> string): string {
    var i := ChosenLevel(t, h, body, 0);
    RenderPacket(t.sha, h.(size := SizeOf(ProbeEstimate(t, h, body, i))), body(ATTEMPTS[i]))
  }

  lemma {:induction false} PacketLength(sha: string -> string, h: Header, body: string)
    requires forall s :: |sha(s)| == 64
    ensures |RenderPacket(sha, h, body)| == |RenderPacket(sha, h.(size := ""), body)| + |h.size|
  {
    var empty := h.(size := "");
    var a := LinesBeforeDigest(h)[..6];
    assert LinesBeforeDigest(empty)[..6] == a;
    var d, d0 := sha(Digested(LinesBeforeDigest(h), body)), sha(Digested(LinesBeforeDigest(empty), body));
    JoinTwoMore(a, HeaderLine("SIZE", h.size), HeaderLine("PACKET_SHA256", d));
    JoinTwoMore(a, HeaderLine("SIZE", ""), HeaderLine("PACKET_SHA256", d0));
    assert LinesBeforeDigest(h) + [HeaderLine("PACKET_SHA256", d)]
      == a + [HeaderLine("SIZE", h.size), HeaderLine("PACKET_SHA256", d)];
    assert LinesBeforeDigest(empty) + [HeaderLine("PACKET_SHA256", d0)]
      == a + [HeaderLine("SIZE", ""), HeaderLine("PACKET_SHA256", d0)];
  }

  lemma {:induction false} JoinTwoMore(ls: seq<string>, x: string, y: string)
    requires ls != []
    ensures Join(ls + [x, y]) == Join(ls) + "\n" + x + "\n" + y
  {
    assert (ls + [x, y])[..|ls| + 1] == ls + [x];
    assert (ls + [x])[..|ls|] == ls;
  }

  /** The placeholder is at least as long as the SIZE line of a packet within the target. */
  lemma {:induction false} RealSizeFits(t: Tools, h: Header, body: string, est: nat)
    requires (forall s :: |t.sha(s)| == 64) && est <= TARGET_TOKENS
    ensures |RenderPacket(t.sha, h.(size := SizeOf(est)), body)| <= |RenderPacket(t.sha, h.(size := PROBE_SIZE), body)|
  {
    assert Pow10(4) == 10000 by { assert Pow10(0) == 1 && Pow10(1) == 10 && Pow10(2) == 100 && Pow10(3) == 1000; }
    DecimalLength(est, 4);
    hide RenderPacket;
    PacketLength(t.sha, h.(size := SizeOf(est)), body);
    PacketLength(t.sha, h.(size := PROBE_SIZE), body);
  }

  /**
   buildPacket: the text is rendered at the chosen level, and a packet judged to fit still fits once the real SIZE
   line has replaced the placeholder.
   */
  method BuildPacket(t: Tools, h: Header, body: Levels -> string) returns (text: string, est: nat, over: bool)
    requires forall s :: |t.sha(s)| == 64
    ensures text == Packet(t, h, body)
    ensures est == EstimateTokens(text)
    ensures over <==> forall i :: 0 <= i < |ATTEMPTS| ==> ProbeEstimate(t, h, body, i) > TARGET_TOKENS
    ensures !over ==> est <= TARGET_TOKENS
  {
    hide RenderPacket, SizeOf;
    var finalLevels, finalEst := ATTEMPTS[0], 0;
    ghost var chosen := ChosenLevel(t, h, body, 0);
    var i := 0;
    while i < |ATTEMPTS|
      invariant 0 <= i <= |ATTEMPTS|
      invariant i < |ATTEMPTS| ==> ChosenLevel(t, h, body, i) == chosen
      invariant i == |ATTEMPTS| ==> chosen == |ATTEMPTS| - 1
      invariant i > 0 ==> finalLevels == ATTEMPTS[i - 1] && finalEst == ProbeEstimate(t, h, body, i - 1)
      invariant forall j :: 0 <= j < i ==> ProbeEstimate(t, h, body, j) > TARGET_TOKENS
    {
      finalLevels := ATTEMPTS[i];
      finalEst := EstimateTokens(RenderPacket(t.sha, h.(size := PROBE_SIZE), body(finalLevels)));
      assert finalEst == ProbeEstimate(t, h, body, i);
      if finalEst <= TARGET_TOKENS {
        break;
      }
      i := i + 1;
    }
    over := finalEst > TARGET_TOKENS;
    var size := SizeOf(finalEst);
    text := RenderPacket(t.sha, h.(size := size), body(finalLevels));
    est := EstimateTokens(text);
    if !over {
      RealSizeFits(t, h, body(finalLevels), finalEst);
    }
  }

  datatype Generated = Exit(code: nat) | Written(text: string)

  function HeaderFor(t: Tools, r: ReadResult, runId: string, revision: string, worktreeId: string,
                     generatedAt: string): Header {
    Header(t.sanitize(runId), if r.lastSeq < 0 then 0 else r.lastSeq, LastVerifiedHash(t.codec, r.events),
           t.sanitize(revision), worktreeId, generatedAt, "")
  }

  /** generateMode; `body` renders the sections below the header at a compression level. */
  function Generate(t: Tools, ledger: Option<Bytes>, runId: string, requested: Option<string>, git: Git,
                    generatedAt: string, body: Levels -> string): Generated {
    if ledger == None then Exit(3)
    else
      var r := Summary(ReadFile(t.codec, ledger.value));
      if LedgerInvalid(r) then Exit(3)
      else match CurrentRevision(requested, git)
        case None => Exit(2)
        case Some(revision) =>
          Written(Packet(t, HeaderFor(t, r, runId, revision, CurrentWorktree(requested, git), generatedAt), body))
  }

  // ---------------------------------------------------------------------
  // Verifying
  // ---------------------------------------------------------------------

  datatype CheckpointFile = Missing | Unsafe | Unreadable | Text(text: string)

  function FindSeq(es: seq<Event>, n: int): Option<Event> {
    if es == [] then None
    else if es[0].seqNo == n then Some(es[0])
    else FindSeq(es[1..], n)
  }

  function UpToSeq(es: seq<Event>, n: int): seq<Event> {
    if es == [] then []
    else UpToSeq(es[..|es| - 1], n) + if es[|es| - 1].seqNo <= n then [es[|es| - 1]] else []
  }

  function NewlyStale(now: seq<StaleVerdict>, before: seq<StaleVerdict>): seq<StaleVerdict> {
    if now == [] then []
    else
      var v := now[|now| - 1];
      NewlyStale(now[..|now| - 1], before) + if exists o :: o in before && o.seqNo == v.seqNo then [] else [v]
  }

  predicate WorktreeDrift(before: string, now: string) {
    && before != "NOT_COMPUTED" && now != "NOT_COMPUTED"
    && (now != before || now == UNKNOWN || before == UNKNOWN)
  }

  predicate Drift(oldRevision: string, oldWorktree: string, revision: string, worktree: string) {
    revision != oldRevision || revision == UNKNOWN || oldRevision == UNKNOWN || WorktreeDrift(oldWorktree, worktree)
  }

  /** The recorded prefix hash, recomputed from the events read now. */
  function PrefixHash(c: Codec, es: seq<Event>, n: nat): Option<string> {
    if n == 0 then Some(GENESIS)
    else match FindSeq(es, n)
      case None => None
      case Some(e) => Some(c.hash(c.stringify(e)))
  }

  function VerdictsNewlyStale(es: seq<Event>, oldSeq: nat, oldRevision: string, revision: string): seq<StaleVerdict> {
    var atOld := UpToSeq(es, oldSeq);
    NewlyStale(StaleOf(es, revision, InvalidatedIds(es)), StaleOf(atOld, oldRevision, InvalidatedIds(atOld)))
  }

  /** verifyMode's exit code. */
  function Verify(t: Tools, file: CheckpointFile, ledger: Option<Bytes>, runId: string, requested: Option<string>,
                  git: Git): nat {
    match file
    case Missing => 5
    case Unsafe => 4
    case Unreadable => 5
    case Text(text) =>
      match ParseCheckpoint(text)
      case None => 5
      case Some(p) =>
        if p.runId != runId then 5
        else if t.sha(Digested(p.linesBeforeDigest, p.body)) != p.digest then 5
        else if ledger == None then 3
        else
          var r := Summary(ReadFile(t.codec, ledger.value));
          if LedgerInvalid(r) then 3
          else if p.lastSeq > r.lastSeq then 5
          else if PrefixHash(t.codec, r.events, p.lastSeq) != Some(p.lastHash) then 5
          else match CurrentRevision(requested, git)
            case None => 2
            case Some(revision) =>
              if Drift(p.revision, p.worktreeId, revision, CurrentWorktree(requested, git))
                 || VerdictsNewlyStale(r.events, p.lastSeq, p.revision, revision) != []
              then 6 else 0
  }
}
