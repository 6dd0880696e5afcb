/**
 Any number of writers appending to one ledger under the lock file, as a state
 machine whose actions are the file-system operations of acquireLock,
 appendEvent and releaseLock. Processes may crash anywhere, also in the middle
 of a write; a crashed process stays dead.

 Breaking a stale lock is two actions, as in the source: the re-check of the
 lock's nonce (`Confirm`) and the rename (`Rename`).
 */
module LedgerProtocol {
  import opened Options
  import opened Ledger
  import opened EventReader
  import opened EventLog

  type Pid = nat

  /** The lock file; `payload` is false between its exclusive creation and the write of its content. */
  datatype Lock = Lock(owner: Pid, nonce: nat, payload: bool)

  datatype Phase =
    | Idle
    | Contending(draft: Fields)
    | Confirmed(draft: Fields, nonce: nat)
    | Created(draft: Fields)
    | Holding(draft: Fields)
    | Surveyed(draft: Fields, tail: Tail)
    | Finished
    | Dead

  /** The writes that reached the file, in the order in which they did. */
  datatype Op = Commit(draft: Fields, stamp: Stamp) | Tear(draft: Fields, stamp: Stamp, k: nat)

  datatype World = World(lock: Option<Lock>, phases: map<Pid, Phase>, file: Bytes, nextNonce: nat, ops: seq<Op>)

  const START := World(None, map[], [], 0, [])

  datatype Action =
    | Call(p: Pid, draft: Fields)
    | Create(p: Pid)                           // exclusive creation of the lock file
    | WritePayload(p: Pid)
    | Confirm(p: Pid)                          // stale, owner dead, re-read with the same nonce
    | Rename(p: Pid)                           // whatever lock file is there now moves to a broken name
    | GiveUp(p: Pid)                           // LOCK_TIMEOUT
    | Survey(p: Pid)                           // the tail of the ledger is read
    | Decline(p: Pid, stamp: Stamp)            // LEDGER_FULL, SCHEMA_INVALID, SCHEMA_LINE_TOO_LARGE
    | Put(p: Pid, stamp: Stamp)                // the whole record is written
    | PutPart(p: Pid, stamp: Stamp, k: nat, survives: bool)  // k bytes are: it dies, or the write falls short
    | Release(p: Pid)                          // whatever lock file is there is removed
    | Crash(p: Pid)

  function PhaseOf(w: World, p: Pid): Phase {
    if p in w.phases then w.phases[p] else Idle
  }

  function At(w: World, p: Pid, phase: Phase): World {
    w.(phases := w.phases[p := phase])
  }

  /** Between taking the lock and releasing it. */
  predicate Critical(phase: Phase) {
    phase.Created? || phase.Holding? || phase.Surveyed? || phase.Finished?
  }

  function Step(c: Codec, w: World, a: Action): Option<World> {
    var phase := PhaseOf(w, a.p);
    match a
    case Call(p, draft) =>
      if phase.Idle? && c.redactOk(draft) then Some(At(w, p, Contending(draft))) else None
    case Create(p) =>
      if phase.Contending? && w.lock == None
      then Some(At(w, p, Created(phase.draft)).(lock := Some(Lock(p, w.nextNonce, false)),
                                                nextNonce := w.nextNonce + 1))
      else None
    case WritePayload(p) =>
      if phase.Created? then
        Some(At(w, p, Holding(phase.draft)).(
               lock := if w.lock == None then None else Some(w.lock.value.(payload := true))))
      else None
    case Confirm(p) =>
      if phase.Contending? && w.lock.Some? && w.lock.value.payload && PhaseOf(w, w.lock.value.owner).Dead?
      then Some(At(w, p, Confirmed(phase.draft, w.lock.value.nonce)))
      else None
    case Rename(p) =>
      if phase.Confirmed? then Some(At(w, p, Contending(phase.draft)).(lock := None)) else None
    case GiveUp(p) =>
      if phase.Contending? then Some(At(w, p, Idle)) else None
    case Survey(p) =>
      if phase.Holding? then Some(At(w, p, Surveyed(phase.draft, TailOf(w.file)))) else None
    case Decline(p, stamp) =>
      if phase.Surveyed? && Prepare(c, phase.tail, phase.draft, stamp).Refuse? then Some(At(w, p, Finished)) else None
    case Put(p, stamp) =>
      if phase.Surveyed? && Prepare(c, phase.tail, phase.draft, stamp).Write?
      then Some(At(w, p, Finished).(file := w.file + Prepare(c, phase.tail, phase.draft, stamp).bytes,
                                    ops := w.ops + [Commit(phase.draft, stamp)]))
      else None
    case PutPart(p, stamp, k, survives) =>
      if phase.Surveyed? && Prepare(c, phase.tail, phase.draft, stamp).Write?
         && k <= |Prepare(c, phase.tail, phase.draft, stamp).bytes|
      then Some(At(w, p, if survives then Finished else Dead).(
                  file := w.file + Prepare(c, phase.tail, phase.draft, stamp).bytes[..k],
                  ops := w.ops + [Tear(phase.draft, stamp, k)]))
      else None
    case Release(p) =>
      if phase.Finished? then Some(At(w, p, Idle).(lock := None)) else None
    case Crash(p) =>
      if phase.Dead? then None else Some(At(w, p, Dead))
  }

  function Run(c: Codec, actions: seq<Action>): Option<World> {
    if actions == [] then Some(START)
    else match Run(c, actions[..|actions| - 1])
      case None => None
      case Some(w) => Step(c, w, actions[|actions| - 1])
  }

  // ---------------------------------------------------------------------
  // Mutual exclusion
  // ---------------------------------------------------------------------

  ghost predicate Exclusion(w: World) {
    forall p, q :: Critical(PhaseOf(w, p)) && Critical(PhaseOf(w, q)) ==> p == q
  }

  /** Whoever is critical owns the lock; the owner is critical or dead; a confirmed nonce names a dead owner. */
  ghost predicate LockInv(w: World) {
    && (forall p :: Critical(PhaseOf(w, p)) ==> w.lock.Some? && w.lock.value.owner == p)
    && (w.lock.Some? ==> var l := w.lock.value;
          l.nonce < w.nextNonce && (Critical(PhaseOf(w, l.owner)) || PhaseOf(w, l.owner).Dead?))
    && (forall p :: PhaseOf(w, p).Confirmed? ==>
          && PhaseOf(w, p).nonce < w.nextNonce
          && (w.lock.Some? && w.lock.value.nonce == PhaseOf(w, p).nonce ==> PhaseOf(w, w.lock.value.owner).Dead?))
  }

  /** A rename that finds no lock, or the lock of a dead process. */
  predicate SafeRename(w: World, a: Action) {
    a.Rename? && PhaseOf(w, a.p).Confirmed? ==> w.lock == None || PhaseOf(w, w.lock.value.owner).Dead?
  }

  lemma {:induction false} LockInvGivesExclusion(w: World)
    requires LockInv(w)
    ensures Exclusion(w)
  {
    forall p, q | Critical(PhaseOf(w, p)) && Critical(PhaseOf(w, q)) ensures p == q {
      assert w.lock.value.owner == p;
    }
  }

  lemma {:induction false} StepKeepsLockInv(c: Codec, w: World, a: Action, w': World)
    requires LockInv(w) && Step(c, w, a) == Some(w') && SafeRename(w, a)
    ensures LockInv(w')
  {
    hide Prepare, TailOf;
    forall p | p != a.p ensures PhaseOf(w', p) == PhaseOf(w, p) {}
  }

  /** A rename whose lock still carries the nonce that was confirmed is safe. */
  lemma ConfirmedNonceIsSafe(w: World, p: Pid)
    requires LockInv(w) && PhaseOf(w, p).Confirmed?
    requires w.lock.Some? && w.lock.value.nonce == PhaseOf(w, p).nonce
    ensures SafeRename(w, Rename(p))
  {
  }

  /** After a rename the lock can be taken at once, and then exclusion holds exactly if no live process held it. */
  lemma {:induction false} RenameThenCreateIff(c: Codec, w: World, p: Pid, w1: World, w2: World)
    requires LockInv(w) && Step(c, w, Rename(p)) == Some(w1) && Step(c, w1, Create(p)) == Some(w2)
    ensures Exclusion(w2) <==> w.lock == None || PhaseOf(w, w.lock.value.owner).Dead?
  {
    forall q | q != p ensures PhaseOf(w2, q) == PhaseOf(w, q) {}
    assert Critical(PhaseOf(w2, p));
    if w.lock.Some? && Critical(PhaseOf(w, w.lock.value.owner)) {
      assert Critical(PhaseOf(w2, w.lock.value.owner));
    }
  }

  /** A run whose renames are all safe; nothing is asked of any other action. */
  predicate SafeRun(c: Codec, actions: seq<Action>) {
    && Run(c, actions).Some?
    && (actions == [] ||
        (SafeRun(c, actions[..|actions| - 1])
         && SafeRename(Run(c, actions[..|actions| - 1]).value, actions[|actions| - 1])))
  }

  lemma {:induction false} SafeRunKeepsLockInv(c: Codec, actions: seq<Action>)
    requires SafeRun(c, actions)
    ensures LockInv(Run(c, actions).value)
  {
    if actions != [] {
      var init := actions[..|actions| - 1];
      SafeRunKeepsLockInv(c, init);
      StepKeepsLockInv(c, Run(c, init).value, actions[|actions| - 1], Run(c, actions).value);
    }
  }

  /** At every moment of every run with safe renames at most one process is between acquire and release. */
  lemma {:induction false} AlwaysExclusive(c: Codec, actions: seq<Action>)
    requires SafeRun(c, actions)
    ensures Exclusion(Run(c, actions).value)
  {
    SafeRunKeepsLockInv(c, actions);
    LockInvGivesExclusion(Run(c, actions).value);
  }

  /** If `p` takes the lock next, at most one process is critical. */
  ghost predicate TakesAlone(c: Codec, actions: seq<Action>, p: Pid) {
    Run(c, actions + [Create(p)]).Some? ==> Exclusion(Run(c, actions + [Create(p)]).value)
  }

  /**
   The renames of a run are safe if and only if, at each of its moments, whoever takes the lock next is alone in
   holding it.
   */
  lemma {:induction false} ExclusionIff(c: Codec, actions: seq<Action>)
    requires Run(c, actions).Some?
    ensures SafeRun(c, actions) <==> forall k, p :: 0 <= k <= |actions| ==> TakesAlone(c, actions[..k], p)
    decreases |actions|
  {
    assert actions[..|actions|] == actions;
    if actions != [] {
      var init, a := actions[..|actions| - 1], actions[|actions| - 1];
      assert actions == init + [a];
      RunStep(c, init, a);
      ExclusionIff(c, init);
      assert forall k :: 0 <= k < |actions| ==> actions[..k] == init[..k];
      if SafeRun(c, init) {
        SafeRunKeepsLockInv(c, init);
        if !SafeRename(Run(c, init).value, a) {
          UnsafeRenameShows(c, init, a);
        }
      }
    }
    if SafeRun(c, actions) {
      forall p ensures TakesAlone(c, actions, p) {
        SafeTakesAlone(c, actions, p);
      }
    }
  }

  lemma {:induction false} SafeTakesAlone(c: Codec, actions: seq<Action>, p: Pid)
    requires SafeRun(c, actions)
    ensures TakesAlone(c, actions, p)
  {
    var next := actions + [Create(p)];
    assert next[..|actions|] == actions;
    if Run(c, next).Some? {
      assert SafeRun(c, next);
      AlwaysExclusive(c, next);
    }
  }

  lemma {:induction false} UnsafeRenameShows(c: Codec, actions: seq<Action>, a: Action)
    requires Run(c, actions).Some? && LockInv(Run(c, actions).value) && Run(c, actions + [a]).Some?
    requires !SafeRename(Run(c, actions).value, a)
    ensures !TakesAlone(c, actions + [a], a.p)
  {
    hide Run;
    RunStep(c, actions, a);
    RunStep(c, actions + [a], Create(a.p));
    var w, w1 := Run(c, actions).value, Run(c, actions + [a]).value;
    RenameThenCreateIff(c, w, a.p, w1, Step(c, w1, Create(a.p)).value);
  }

  lemma {:induction false} RunStep(c: Codec, actions: seq<Action>, a: Action)
    ensures Run(c, actions + [a]) == if Run(c, actions) == None then None else Step(c, Run(c, actions).value, a)
  {
    assert (actions + [a])[..|actions|] == actions;
  }

  /**
   The re-check and the rename are separate operations, and two breakers can interleave: both confirm the same
   stale lock, the first renames it and takes a new one, and the second renames that one away.
   */
  lemma {:induction false} TwoBreakersBreakExclusion(c: Codec, d: Fields) returns (actions: seq<Action>)
    requires c.redactOk(d)
    ensures Run(c, actions).Some? && !Exclusion(Run(c, actions).value)
  {
    var toStale := [Call(0, d), Create(0), WritePayload(0), Crash(0)];
    var w1 := StaleLock(c, d);
    var more := [Call(1, d), Call(2, d), Confirm(1), Confirm(2), Rename(1), Create(1), Rename(2), Create(2)];
    actions := toStale;
    var w := w1;
    var i := 0;
    while i < |more|
      invariant 0 <= i <= |more| && Run(c, actions) == Some(w)
      invariant PhaseOf(w, 0) == Dead
      invariant PhaseOf(w, 1) == if i < 1 then Idle else if i < 3 then Contending(d) else if i < 5 then Confirmed(d, 0)
                                 else if i < 6 then Contending(d) else Created(d)
      invariant PhaseOf(w, 2) == if i < 2 then Idle else if i < 4 then Contending(d) else if i < 7 then Confirmed(d, 0)
                                 else if i < 8 then Contending(d) else Created(d)
      invariant w.lock == if i < 5 then Some(Lock(0, 0, true)) else if i == 6 then Some(Lock(1, 1, false))
                          else if i == 8 then Some(Lock(2, 2, false)) else None
      invariant w.nextNonce == if i < 6 then 1 else if i < 8 then 2 else 3
    {
      RunStep(c, actions, more[i]);
      actions := actions + [more[i]];
      w := Step(c, w, more[i]).value;
      i := i + 1;
    }
    assert Critical(PhaseOf(w, 1)) && Critical(PhaseOf(w, 2));
  }

  lemma {:induction false} StaleLock(c: Codec, d: Fields) returns (w: World)
    requires c.redactOk(d)
    ensures Run(c, [Call(0, d), Create(0), WritePayload(0), Crash(0)]) == Some(w)
    ensures PhaseOf(w, 0) == Dead && PhaseOf(w, 1) == Idle && PhaseOf(w, 2) == Idle
    ensures w.lock == Some(Lock(0, 0, true)) && w.nextNonce == 1
  {
    var a1, a2, a3 := [Call(0, d)], [Call(0, d), Create(0)], [Call(0, d), Create(0), WritePayload(0)];
    RunStep(c, [], Call(0, d));
    assert [] + [Call(0, d)] == a1;
    RunStep(c, a1, Create(0));
    assert a1 + [Create(0)] == a2;
    RunStep(c, a2, WritePayload(0));
    assert a2 + [WritePayload(0)] == a3;
    RunStep(c, a3, Crash(0));
    assert a3 + [Crash(0)] == [Call(0, d), Create(0), WritePayload(0), Crash(0)];
    w := Run(c, [Call(0, d), Create(0), WritePayload(0), Crash(0)]).value;
  }

  // ---------------------------------------------------------------------
  // The ledger is the sequential result of the writes in lock order
  // ---------------------------------------------------------------------

  function ApplyOp(c: Codec, file: Bytes, op: Op): Bytes {
    match Prepare(c, TailOf(file), op.draft, op.stamp)
    case Refuse(_) => file
    case Write(bytes, _) => file + if op.Tear? && op.k <= |bytes| then bytes[..op.k] else bytes
  }

  /** One writer performing `ops` one after another on an empty ledger. */
  function Sequential(c: Codec, ops: seq<Op>): Bytes {
    if ops == [] then [] else ApplyOp(c, Sequential(c, ops[..|ops| - 1]), ops[|ops| - 1])
  }

  function StampIds(ops: seq<Op>): set<string> {
    set op | op in ops :: op.stamp.eventId
  }

  /** The whole record arrived. */
  predicate Whole(c: Codec, file: Bytes, op: Op) {
    var w := Prepare(c, TailOf(file), op.draft, op.stamp);
    op.Commit? || (w.Write? && op.k == |w.bytes|)
  }

  /** Part of a line arrived, but not all of the record; a repairing newline alone is no part of the line. */
  predicate Partial(c: Codec, file: Bytes, op: Op) {
    op.Tear? && op.k > (if TailOf(file).endsWithNewline then 0 else 1) && !Whole(c, file, op)
  }

  /**
   What is asked of a write: a fresh event id, and if it is torn, that nothing or everything arrived, or that the
   line was cut before its end and either no fragment awaited repair or this is the first event of the ledger.
   `CleanTearIff` says that these are exactly the torn writes the next append recovers from.
   */
  predicate CleanOp(c: Codec, file: Bytes, ids: set<string>, op: Op) {
    var w := Prepare(c, TailOf(file), op.draft, op.stamp);
    && c.redactOk(op.draft) && op.stamp.eventId !in ids && w.Write?
    && (op.Tear? ==>
          || op.k == 0 || op.k == |w.bytes|
          || (TailOf(file).endsWithNewline && op.k < |c.stringify(w.event)|)
          || (!TailOf(file).endsWithNewline && w.event.seqNo == 1 && op.k <= |c.stringify(w.event)|))
  }

  predicate CleanOps(c: Codec, ops: seq<Op>) {
    ops == [] ||
    (CleanOps(c, ops[..|ops| - 1]) &&
     CleanOp(c, Sequential(c, ops[..|ops| - 1]), StampIds(ops[..|ops| - 1]), ops[|ops| - 1]))
  }

  /** The drafts whose records arrived whole, in order. */
  function Landed(c: Codec, ops: seq<Op>): seq<Fields> {
    if ops == [] then []
    else
      var init, op := ops[..|ops| - 1], ops[|ops| - 1];
      Landed(c, init) + if Whole(c, Sequential(c, init), op) then [op.draft] else []
  }

  function CountPartial(c: Codec, ops: seq<Op>): nat {
    if ops == [] then 0
    else
      var init, op := ops[..|ops| - 1], ops[|ops| - 1];
      CountPartial(c, init) + if Partial(c, Sequential(c, init), op) then 1 else 0
  }

  function FieldsOf(es: seq<Event>): seq<Fields> {
    if es == [] then [] else FieldsOf(es[..|es| - 1]) + [es[|es| - 1].fields]
  }

  lemma {:induction false} FieldsOfStep(es: seq<Event>, e: Event)
    ensures FieldsOf(es + [e]) == FieldsOf(es) + [e.fields]
    ensures Ids(es + [e]) == Ids(es) + {e.eventId}
  {
    assert (es + [e])[..|es|] == es;
  }

  /** A clean write keeps the ledger healthy and adds its draft exactly when its whole record arrived. */
  lemma {:induction false} ApplyCleanOp(c: Codec, file: Bytes, ps: seq<Piece>, torn: Bytes, op: Op)
    returns (ps': seq<Piece>, torn': Bytes)
    requires c.Sound() && Healthy(c, file, ps, torn) && CleanOp(c, file, Ids(Committed(ps)), op)
    ensures Healthy(c, ApplyOp(c, file, op), ps', torn')
    ensures Ids(Committed(ps')) <= Ids(Committed(ps)) + {op.stamp.eventId}
    ensures |Committed(ps)| <= SEQ_MAX ==> |Committed(ps')| <= SEQ_MAX
    ensures FieldsOf(Committed(ps')) == FieldsOf(Committed(ps)) + if Whole(c, file, op) then [op.draft] else []
    ensures CountTorn(ps') + (if torn' == [] then 0 else 1)
      == CountTorn(ps) + (if torn == [] then 0 else 1) + if Partial(c, file, op) then 1 else 0
  {
    hide Healthy, TailOf, Codec.Sound, Committed, CountTorn, Ids, FieldsOf, Links;
    var w := Prepare(c, TailOf(file), op.draft, op.stamp);
    PreparedLinks(c, file, ps, torn, op.draft, op.stamp);
    assert |Committed(ps)| + 1 <= SEQ_MAX by { LinkedSeq(c, Committed(ps), w.event); }
    hide Prepare;
    if Whole(c, file, op) {
      assert op.Tear? ==> w.bytes[..op.k] == w.bytes;
      ExtendHealthy(c, file, ps, torn, w.event);
      ps', torn' := Repaired(ps, torn) + [Good(w.event)], [];
      FieldsOfStep(Committed(ps), w.event);
    } else {
      TailOfHealthy(c, file, ps, torn);
      if op.k == 0 {
        assert file + w.bytes[..0] == file;
        ps', torn' := ps, torn;
      } else if torn == [] {
        TearHealthy(c, file, ps, w.event, op.k);
        ps', torn' := ps, c.stringify(w.event)[..op.k];
      } else {
        LinkedSeq(c, Committed(ps), w.event);
        TearFirstRepair(c, file, ps, torn, w.event, op.k);
        ps', torn' := ps + [Torn(torn)], c.stringify(w.event)[..op.k - 1];
      }
    }
  }

  /** A torn write is clean if and only if the next append leaves a ledger that reads as untampered. */
  lemma {:induction false} CleanTearIff(c: Codec, file: Bytes, ps: seq<Piece>, torn: Bytes, op: Op,
                                        draft: Fields, stamp: Stamp, next: Event)
    requires c.Sound() && Healthy(c, file, ps, torn) && op.Tear? && c.redactOk(op.draft)
    requires Prepare(c, TailOf(file), op.draft, op.stamp).Write?
    requires op.k <= |Prepare(c, TailOf(file), op.draft, op.stamp).bytes|
    requires op.stamp.eventId !in Ids(Committed(ps)) && stamp.eventId !in Ids(Committed(ps)) + {op.stamp.eventId}
    requires Appends(c, ApplyOp(c, file, op), draft, stamp, next)
    ensures CleanOp(c, file, Ids(Committed(ps)), op)
      <==> !ReadFile(c, Append(c, ApplyOp(c, file, op), draft, stamp)).tampered
  {
    hide Healthy, TailOf, Codec.Sound, Committed, CountTorn, Ids, Links, ReadFile, Append;
    var e := Prepare(c, TailOf(file), op.draft, op.stamp).event;
    PreparedLinks(c, file, ps, torn, op.draft, op.stamp);
    TailOfHealthy(c, file, ps, torn);
    LinkedSeq(c, Committed(ps), e);
    LinkFacts(c, Committed(ps), e);
    assert ApplyOp(c, file, op) == file + RecordBytes(c, torn, e)[..op.k];
    assert |RecordBytes(c, torn, e)| == |c.stringify(e)| + if torn == [] then 1 else 2;
    if torn == [] {
      TornWriteRecovery(c, file, ps, op.draft, op.stamp, e, op.k, draft, stamp, next);
    } else {
      TornRepairRecovery(c, file, ps, torn, op.draft, op.stamp, e, op.k, draft, stamp, next);
      assert Committed(ps) == [] <==> e.seqNo == 1;
    }
  }

  lemma LinkedSeq(c: Codec, es: seq<Event>, e: Event)
    requires Links(c, es, e)
    ensures e.seqNo == |es| + 1
  {
  }

  lemma {:induction false} StampIdsStep(ops: seq<Op>, op: Op)
    ensures StampIds(ops + [op]) == StampIds(ops) + {op.stamp.eventId}
  {
  }

  /** The pieces of the file account for the writes one by one. */
  ghost predicate Reflects(c: Codec, ops: seq<Op>, ps: seq<Piece>, torn: Bytes) {
    && Healthy(c, Sequential(c, ops), ps, torn)
    && Ids(Committed(ps)) <= StampIds(ops)
    && |Committed(ps)| <= SEQ_MAX
    && FieldsOf(Committed(ps)) == Landed(c, ops)
    && CountTorn(ps) + (if torn == [] then 0 else 1) == CountPartial(c, ops)
  }

  lemma {:induction false} ReflectsStep(c: Codec, ops: seq<Op>, op: Op, ps: seq<Piece>, torn: Bytes)
    returns (ps': seq<Piece>, torn': Bytes)
    requires c.Sound() && Reflects(c, ops, ps, torn) && CleanOp(c, Sequential(c, ops), StampIds(ops), op)
    ensures Reflects(c, ops + [op], ps', torn')
  {
    hide CleanOp, ApplyOp, Whole, Partial, Healthy, Codec.Sound, Committed, CountTorn, Ids, FieldsOf, StampIds;
    FewerIdsStayClean(c, Sequential(c, ops), StampIds(ops), Ids(Committed(ps)), op);
    ps', torn' := ApplyCleanOp(c, Sequential(c, ops), ps, torn, op);
    assert (ops + [op])[..|ops|] == ops;
    StampIdsStep(ops, op);
  }

  lemma {:induction false} EmptyReflects(c: Codec)
    ensures Reflects(c, [], [], [])
  {
    assert Render(LinesOf(c, [])) + [] == [];
  }

  lemma {:induction false} SequentialHealthy(c: Codec, ops: seq<Op>) returns (ps: seq<Piece>, torn: Bytes)
    requires c.Sound() && CleanOps(c, ops)
    ensures Reflects(c, ops, ps, torn)
  {
    hide Reflects, CleanOp, Codec.Sound;
    if ops == [] {
      EmptyReflects(c);
      ps, torn := [], [];
    } else {
      var init, op := ops[..|ops| - 1], ops[|ops| - 1];
      assert ops == init + [op];
      var ps0, torn0 := SequentialHealthy(c, init);
      ps, torn := ReflectsStep(c, init, op, ps0, torn0);
    }
  }

  lemma {:induction false} FewerIdsStayClean(c: Codec, file: Bytes, ids: set<string>, fewer: set<string>, op: Op)
    requires CleanOp(c, file, ids, op) && fewer <= ids
    ensures CleanOp(c, file, fewer, op)
  {
  }

  // ---------------------------------------------------------------------
  // Whole runs
  // ---------------------------------------------------------------------

  /** A survey under the lock is still current when it is used. */
  ghost predicate SurveysCurrent(w: World) {
    forall p :: PhaseOf(w, p).Surveyed? ==> PhaseOf(w, p).tail == TailOf(w.file)
  }

  ghost predicate Inv(c: Codec, w: World) {
    LockInv(w) && SurveysCurrent(w) && w.file == Sequential(c, w.ops)
  }

  lemma {:induction false} StepKeepsSurveys(c: Codec, w: World, a: Action, w': World)
    requires LockInv(w) && SurveysCurrent(w) && Step(c, w, a) == Some(w')
    ensures SurveysCurrent(w')
  {
    hide Prepare, TailOf;
    LockInvGivesExclusion(w);
    forall p | PhaseOf(w', p).Surveyed? ensures PhaseOf(w', p).tail == TailOf(w'.file) {
      if p != a.p {
        assert PhaseOf(w', p) == PhaseOf(w, p) && Critical(PhaseOf(w, p));
        assert !Critical(PhaseOf(w, a.p));
        assert w'.file == w.file;
      }
    }
  }

  lemma {:induction false} StepKeepsInv(c: Codec, w: World, a: Action, w': World)
    requires Inv(c, w) && Step(c, w, a) == Some(w') && SafeRename(w, a)
    ensures Inv(c, w')
  {
    StepKeepsLockInv(c, w, a, w');
    StepKeepsSurveys(c, w, a, w');
    StepIsSequential(c, w, a, w');
  }

  /** No write starts on a ledger over the size limit, so none ever makes it much larger. */
  lemma {:induction false} SequentialIsBounded(c: Codec, ops: seq<Op>)
    ensures |Sequential(c, ops)| <= FILE_MAX_BYTES + LINE_MAX_BYTES + 2
  {
    if ops != [] {
      hide TailOf, Candidate, Sequential;
      var init, op := ops[..|ops| - 1], ops[|ops| - 1];
      assert ops == init + [op];
      SequentialIsBounded(c, init);
      SequentialStep(c, init, op);
      TailSize(Sequential(c, init));
    }
  }

  lemma TailSize(file: Bytes)
    ensures TailOf(file).size == |file|
  {
  }

  /** At every moment of every run with safe renames the file stays within the size limit plus one record. */
  lemma {:induction false} FileIsBounded(c: Codec, actions: seq<Action>)
    requires SafeRun(c, actions)
    ensures |Run(c, actions).value.file| <= FILE_MAX_BYTES + LINE_MAX_BYTES + 2
  {
    hide Sequential;
    RunKeepsInv(c, actions);
    SequentialIsBounded(c, Run(c, actions).value.ops);
  }

  lemma {:induction false} SequentialStep(c: Codec, ops: seq<Op>, op: Op)
    ensures Sequential(c, ops + [op]) == ApplyOp(c, Sequential(c, ops), op)
  {
    assert (ops + [op])[..|ops|] == ops;
  }

  lemma {:induction false} StepIsSequential(c: Codec, w: World, a: Action, w': World)
    requires SurveysCurrent(w) && w.file == Sequential(c, w.ops) && Step(c, w, a) == Some(w')
    ensures w'.file == Sequential(c, w'.ops)
  {
    hide Prepare, TailOf, Sequential;
    if a.Put? {
      var op := Commit(PhaseOf(w, a.p).draft, a.stamp);
      SequentialStep(c, w.ops, op);
      assert w'.file == ApplyOp(c, w.file, op);
    } else if a.PutPart? {
      var op := Tear(PhaseOf(w, a.p).draft, a.stamp, a.k);
      SequentialStep(c, w.ops, op);
      assert w'.file == ApplyOp(c, w.file, op);
    }
  }

  /** Event `i` has sequence number `i + 1` and carries the hash of the line before it. */
  predicate LinkedAt(c: Codec, es: seq<Event>, i: nat)
    requires i < |es|
  {
    es[i].seqNo == i + 1 && es[i].prevHash == if i == 0 then GENESIS else c.hash(c.stringify(es[i - 1]))
  }

  lemma {:induction false} ChainIsLinked(c: Codec, es: seq<Event>)
    requires Chain(c, es)
    ensures forall i :: 0 <= i < |es| ==> LinkedAt(c, es, i)
  {
    forall i | 0 <= i < |es| ensures LinkedAt(c, es, i) {
      ChainAt(c, es, i);
    }
  }

  /** Every run with safe renames keeps the invariant, whatever it writes. */
  lemma {:induction false} RunKeepsInv(c: Codec, actions: seq<Action>)
    requires SafeRun(c, actions)
    ensures Inv(c, Run(c, actions).value)
  {
    if actions != [] {
      var init := actions[..|actions| - 1];
      RunKeepsInv(c, init);
      StepKeepsInv(c, Run(c, init).value, actions[|actions| - 1], Run(c, actions).value);
    }
  }

  /**
   At every moment of every run with safe renames and clean writes the file is the sequential result of the writes in
   lock order, and the reader finds an untampered chain 1..n of exactly the drafts whose records arrived, plus one
   malformed line or pending fragment for each record whose line was cut.
   */
  lemma {:induction false} LedgerReadsAsSequential(c: Codec, actions: seq<Action>)
    requires c.Sound() && SafeRun(c, actions) && CleanOps(c, Run(c, actions).value.ops)
    ensures var w := Run(c, actions).value;
      var st := ReadFile(c, w.file);
      && w.file == Sequential(c, w.ops)
      && !st.tampered && st.lastSeq == |st.events| <= SEQ_MAX
      && FieldsOf(st.events) == Landed(c, w.ops)
      && (forall i :: 0 <= i < |st.events| ==> LinkedAt(c, st.events, i))
      && |st.malformed| + (if st.partialBytes > 0 then 1 else 0) == CountPartial(c, w.ops)
  {
    hide CleanOps, Landed, CountPartial, Sequential, Codec.Sound, ReadFile, Chain;
    RunKeepsInv(c, actions);
    var w := Run(c, actions).value;
    var ps, torn := SequentialHealthy(c, w.ops);
    HealthyReadsClean(c, w.file, ps, torn);
    ChainIsLinked(c, Committed(ps));
  }

  function DraftsOf(ops: seq<Op>): seq<Fields> {
    if ops == [] then [] else DraftsOf(ops[..|ops| - 1]) + [ops[|ops| - 1].draft]
  }

  lemma {:induction false} WithoutTears(c: Codec, ops: seq<Op>)
    requires forall op :: op in ops ==> op.Commit?
    ensures Landed(c, ops) == DraftsOf(ops) && CountPartial(c, ops) == 0
  {
    if ops != [] {
      WithoutTears(c, ops[..|ops| - 1]);
    }
  }

  lemma StepGrowsFile(c: Codec, w: World, a: Action)
    requires Step(c, w, a).Some?
    ensures w.file <= Step(c, w, a).value.file
  {
    hide TailOf, Candidate;
  }

  /** As long as no write is cut, the reader finds every write, nothing else, and no malformed or partial line. */
  lemma {:induction false} UntornRunReadsEveryWrite(c: Codec, actions: seq<Action>)
    requires c.Sound() && SafeRun(c, actions) && CleanOps(c, Run(c, actions).value.ops)
    requires forall op :: op in Run(c, actions).value.ops ==> op.Commit?
    ensures var w := Run(c, actions).value;
      var st := ReadFile(c, w.file);
      FieldsOf(st.events) == DraftsOf(w.ops) && st.malformed == [] && st.partialBytes == 0 && !st.tampered
  {
    LedgerReadsAsSequential(c, actions);
    WithoutTears(c, Run(c, actions).value.ops);
  }

  lemma {:induction false} FileOnlyGrows(c: Codec, actions: seq<Action>, more: seq<Action>)
    requires Run(c, actions + more).Some?
    ensures Run(c, actions).Some? && Run(c, actions).value.file <= Run(c, actions + more).value.file
  {
    if more == [] {
      assert actions + more == actions;
    } else {
      hide Run, Step;
      var init, a := more[..|more| - 1], more[|more| - 1];
      assert actions + more == actions + init + [a];
      RunStep(c, actions + init, a);
      FileOnlyGrows(c, actions, init);
      StepGrowsFile(c, Run(c, actions + init).value, a);
    }
  }

  /** What a reader has seen at some moment of a run is the beginning of what any later reader sees. */
  lemma {:induction false} NothingReadIsLost(c: Codec, actions: seq<Action>, more: seq<Action>)
    requires c.Sound() && Run(c, actions + more).Some?
    ensures Run(c, actions).Some?
    ensures ReadFile(c, Run(c, actions).value.file).events <= ReadFile(c, Run(c, actions + more).value.file).events
  {
    hide Run, Codec.Sound;
    FileOnlyGrows(c, actions, more);
    var before, after := Run(c, actions).value.file, Run(c, actions + more).value.file;
    ChunksCompose(c, INITIAL, before, after[|before|..]);
    assert before + after[|before|..] == after;
    ReadingOnlyGrows(c, FeedAll(c, INITIAL, before), after[|before|..]);
    assert c.RefusesLongLines() by { SoundRefuses(c); }
    ReadIsFold(c, before);
    ReadIsFold(c, after);
  }

  lemma {:induction false} SoundRefuses(c: Codec)
    requires c.Sound()
    ensures c.RefusesLongLines()
  {
  }
}
