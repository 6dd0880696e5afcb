/**
 What a checkpoint is for: one that was just written verifies on every valid
 extension of its ledger until a verdict goes stale, and one that verifies
 pins the exact events it was made from.
 */
module CheckpointSafety {
  import opened Options
  import opened Ledger
  import opened EventReader
  import opened CheckpointText
  import opened Checkpoint

  // ---------------------------------------------------------------------
  // What an untampered reading says about the raw lines
  // ---------------------------------------------------------------------

  function HashAfter(c: Codec, lines: seq<Bytes>): string {
    if lines == [] then GENESIS else c.hash(lines[|lines| - 1])
  }

  /** Each event is what its raw line says, numbered 1..n, and carries the hash of the raw line before it. */
  ghost predicate Backed(c: Codec, es: seq<Event>, lines: seq<Bytes>) {
    && |es| == |lines|
    && (es != [] ==>
          var n := |es| - 1;
          && Backed(c, es[..n], lines[..n])
          && c.Accept(lines[n]) == Some(es[n]) && es[n].seqNo == n + 1 && es[n].prevHash == HashAfter(c, lines[..n]))
  }

  lemma {:induction false} BackedAt(c: Codec, es: seq<Event>, lines: seq<Bytes>, k: nat)
    requires Backed(c, es, lines) && k < |es|
    ensures |es| == |lines|
    ensures Backed(c, es[..k], lines[..k]) && c.Accept(lines[k]) == Some(es[k])
    ensures es[k].seqNo == k + 1 && es[k].prevHash == HashAfter(c, lines[..k])
  {
    var n := |es| - 1;
    if k < n {
      BackedAt(c, es[..n], lines[..n], k);
      assert es[..n][..k] == es[..k] && lines[..n][..k] == lines[..k];
    }
  }

  lemma {:induction false} CleanReadIsBacked(c: Codec, lines: seq<Bytes>)
    ensures var st := ReadLines(c, INITIAL, lines);
      !st.tampered && st.malformed == [] ==>
        Backed(c, st.events, lines) && st.lastSeq == |lines| && st.prevHash == HashAfter(c, lines)
  {
    if lines != [] {
      var init, l := lines[..|lines| - 1], lines[|lines| - 1];
      CleanReadIsBacked(c, init);
      var st0 := ReadLines(c, INITIAL, init);
      var st := ReadLine(c, st0, l);
      if !st.tampered && st.malformed == [] {
        assert st.events == st0.events + [c.Accept(l).value];
        assert st.events[..|st0.events|] == st0.events;
      }
    }
  }

  /** The events of a ledger that verifyMode and generateMode accept. */
  lemma {:induction false} ValidLedger(c: Codec, file: Bytes)
    requires !LedgerInvalid(Summary(ReadFile(c, file)))
    ensures var r := Summary(ReadFile(c, file));
      Backed(c, r.events, Split(file).lines) && r.lastSeq == |r.events|
  {
    CleanReadIsBacked(c, Split(file).lines);
  }

  // ---------------------------------------------------------------------
  // Soundness: a passed verification pins the recorded prefix
  // ---------------------------------------------------------------------

  /** Everything that is hashed when a ledger is read and verified: its raw lines and its events' canonical texts. */
  function Hashed(c: Codec, file: Bytes): set<Bytes> {
    (set l | l in Split(file).lines) + (set e | e in ReadFile(c, file).events :: c.stringify(e))
  }

  /** No two different byte strings of the set share a SHA-256 hash. */
  ghost predicate NoCollision(c: Codec, texts: set<Bytes>) {
    forall a, b :: a in texts && b in texts && c.hash(a) == c.hash(b) ==> a == b
  }

  /** JSON.parse recovers an event from its JSON text. */
  ghost predicate TextDeterminesEvent(c: Codec) {
    forall a, b :: c.stringify(a) == c.stringify(b) ==> a == b
  }

  /** Backwards along the chain: two ledgers that agree on one event agree on everything before it. */
  lemma {:induction false} AgreeingEventFixesPrefix(c: Codec, es: seq<Event>, ls: seq<Bytes>, es': seq<Event>,
                                                    ls': seq<Bytes>, n: nat)
    requires Backed(c, es, ls) && Backed(c, es', ls') && NoCollision(c, set l | l in ls + ls')
    requires 0 < n <= |es| && n <= |es'| && es[n - 1] == es'[n - 1]
    ensures es[..n] == es'[..n]
  {
    hide Backed;
    BackedAt(c, es, ls, n - 1);
    BackedAt(c, es', ls', n - 1);
    if n > 1 {
      assert ls[..n - 1][n - 2] == ls[n - 2] && ls'[..n - 1][n - 2] == ls'[n - 2];
      assert ls[n - 2] in ls + ls' && ls'[n - 2] in ls + ls';
      assert ls[n - 2] == ls'[n - 2];
      BackedAt(c, es, ls, n - 2);
      BackedAt(c, es', ls', n - 2);
      AgreeingEventFixesPrefix(c, es, ls, es', ls', n - 1);
      assert es[..n] == es[..n - 1] + [es[n - 1]] && es'[..n] == es'[..n - 1] + [es'[n - 1]];
    }
  }

  lemma {:induction false} FindsBySeq(c: Codec, es: seq<Event>, ls: seq<Bytes>, n: nat)
    requires Backed(c, es, ls) && 0 < n <= |es|
    ensures FindSeq(es, n) == Some(es[n - 1])
  {
    forall i | 0 <= i < |es| ensures es[i].seqNo == i + 1 { BackedAt(c, es, ls, i); }
    FindsFrom(es, n, 0);
    assert es[0..] == es;
  }

  lemma {:induction false} FindsFrom(es: seq<Event>, n: nat, from: nat)
    requires forall i :: 0 <= i < |es| ==> es[i].seqNo == i + 1
    requires from < n <= |es|
    ensures FindSeq(es[from..], n) == Some(es[n - 1])
    decreases n - from
  {
    if from + 1 < n {
      FindsFrom(es, n, from + 1);
      assert es[from..][1..] == es[from + 1..];
    }
  }

  lemma {:induction false} FewerTexts(c: Codec, recorded: Bytes, now: Bytes)
    requires NoCollision(c, Hashed(c, recorded) + Hashed(c, now))
    ensures NoCollision(c, set l | l in Split(recorded).lines + Split(now).lines)
  {
    forall l | l in Split(recorded).lines + Split(now).lines ensures l in Hashed(c, recorded) + Hashed(c, now) {
    }
  }

  /** The recorded hash at the recorded sequence number fixes every event up to there. */
  lemma {:induction false} HashPinsPrefix(c: Codec, recorded: Bytes, now: Bytes)
    requires NoCollision(c, Hashed(c, recorded) + Hashed(c, now)) && TextDeterminesEvent(c)
    requires !LedgerInvalid(Summary(ReadFile(c, recorded))) && !LedgerInvalid(Summary(ReadFile(c, now)))
    requires var es, es' := ReadFile(c, recorded).events, ReadFile(c, now).events;
      |es| <= |es'| && PrefixHash(c, es', |es|) == Some(LastVerifiedHash(c, es))
    ensures ReadFile(c, recorded).events <= ReadFile(c, now).events
  {
    hide ReadFile, Backed;
    var es, es' := ReadFile(c, recorded).events, ReadFile(c, now).events;
    var n := |es|;
    ValidLedger(c, recorded);
    ValidLedger(c, now);
    if n > 0 {
      FindsBySeq(c, es', Split(now).lines, n);
      assert c.hash(c.stringify(es'[n - 1])) == c.hash(c.stringify(es[n - 1]));
      assert es[n - 1] in es && es'[n - 1] in es';
      assert c.stringify(es[n - 1]) in Hashed(c, recorded) && c.stringify(es'[n - 1]) in Hashed(c, now);
      FewerTexts(c, recorded, now);
      AgreeingEventFixesPrefix(c, es, Split(recorded).lines, es', Split(now).lines, n);
      assert es[..n] == es;
    }
  }

  /**
   If verification of a checkpoint recorded at the end of `recorded` passes, or only reports it outdated, then the
   ledger read now begins with exactly the recorded events.
   */
  lemma {:induction false} VerifiedMeansSamePrefix(t: Tools, text: string, p: Parsed, recorded: Bytes, now: Bytes,
                                                   runId: string, requested: Option<string>, git: Git)
    requires NoCollision(t.codec, Hashed(t.codec, recorded) + Hashed(t.codec, now)) && TextDeterminesEvent(t.codec)
    requires !LedgerInvalid(Summary(ReadFile(t.codec, recorded)))
    requires ParseCheckpoint(text) == Some(p)
    requires var es := ReadFile(t.codec, recorded).events;
      p.lastSeq == |es| && p.lastHash == LastVerifiedHash(t.codec, es)
    requires Verify(t, Text(text), Some(now), runId, requested, git) in {0, 6}
    ensures ReadFile(t.codec, recorded).events <= ReadFile(t.codec, now).events
  {
    hide ReadFile, ParseCheckpoint, Backed, PrefixHash, LastVerifiedHash, Hashed;
    ValidLedger(t.codec, recorded);
    ValidLedger(t.codec, now);
    HashPinsPrefix(t.codec, recorded, now);
  }

  // ---------------------------------------------------------------------
  // Completeness: when exactly a fresh checkpoint stops verifying
  // ---------------------------------------------------------------------

  ghost predicate Numbered(es: seq<Event>) {
    forall i :: 0 <= i < |es| ==> es[i].seqNo == i + 1
  }

  /** Some entry of the stale list carries this sequence number. */
  ghost predicate ListsSeq(stale: seq<StaleVerdict>, n: int) {
    exists v :: v in stale && v.seqNo == n
  }

  /** The stale list names exactly the sequence numbers of stale verdicts. */
  lemma {:induction false} StaleListIs(es: seq<Event>, revision: string, inv: set<string>, n: int)
    requires Numbered(es)
    ensures ListsSeq(StaleOf(es, revision, inv), n) <==> 1 <= n <= |es| && IsStale(es[n - 1], revision, inv)
  {
    if es != [] {
      var k := |es| - 1;
      StaleListIs(es[..k], revision, inv, n);
      var before, all := StaleOf(es[..k], revision, inv), StaleOf(es, revision, inv);
      if IsStale(es[k], revision, inv) {
        var last := StaleEntry(es[k], inv);
        assert all == before + [last] && last in all && last.seqNo == k + 1;
      } else {
        assert all == before;
      }
    }
  }

  lemma {:induction false} NewlyStaleEmpty(now: seq<StaleVerdict>, before: seq<StaleVerdict>)
    ensures NewlyStale(now, before) == [] <==> forall v :: v in now ==> ListsSeq(before, v.seqNo)
  {
    if now != [] {
      var init, v := now[..|now| - 1], now[|now| - 1];
      assert now == init + [v];
      NewlyStaleEmpty(init, before);
      assert NewlyStale(now, before) == NewlyStale(init, before) + if ListsSeq(before, v.seqNo) then [] else [v];
      hide NewlyStale, ListsSeq;
    }
  }

  /**
   The ledger grew by a verdict that is stale at birth, or by an event that invalidates a verdict that was current.
   */
  ghost predicate AddsStale(es: seq<Event>, es': seq<Event>, revision: string)
    requires es <= es'
  {
    || (exists i :: |es| <= i < |es'| && IsStale(es'[i], revision, InvalidatedIds(es')))
    || (exists i, j :: 0 <= i < |es| <= j < |es'| && IsVerdict(es[i]) && !IsStale(es[i], revision, InvalidatedIds(es))
          && Names(es'[j], es[i].eventId))
  }

  ghost predicate StaysStale(es: seq<Event>, es': seq<Event>, revision: string)
    requires es <= es'
  {
    forall i :: 0 <= i < |es'| && IsStale(es'[i], revision, InvalidatedIds(es')) ==>
      i < |es| && IsStale(es[i], revision, InvalidatedIds(es))
  }

  lemma {:induction false} InvalidatedSplit(es: seq<Event>, es': seq<Event>, id: string)
    requires es <= es'
    ensures id in InvalidatedIds(es')
      <==> id in InvalidatedIds(es) || exists j :: |es| <= j < |es'| && Names(es'[j], id)
  {
    if id in InvalidatedIds(es') {
      var e :| e in es' && Invalidates(e) && id in e.fields.invalidates;
      var j :| 0 <= j < |es'| && es'[j] == e;
      assert Names(es'[j], id);
      if j < |es| {
        assert es[j] == e && e in es;
      }
    }
    if id in InvalidatedIds(es) {
      var e :| e in es && Invalidates(e) && id in e.fields.invalidates;
      var j :| 0 <= j < |es| && es[j] == e;
      assert es'[j] == e;
    }
    if j :| |es| <= j < |es'| && Names(es'[j], id) {
      assert es'[j] in es';
    }
  }

  lemma {:induction false} StaysStaleIff(es: seq<Event>, es': seq<Event>, revision: string)
    requires es <= es'
    ensures StaysStale(es, es', revision) <==> !AddsStale(es, es', revision)
  {
    var inv, inv' := InvalidatedIds(es), InvalidatedIds(es');
    forall i | 0 <= i < |es|
      ensures es'[i] == es[i]
      ensures IsStale(es[i], revision, inv') <==>
        (IsStale(es[i], revision, inv) ||
         (IsVerdict(es[i]) && exists j :: |es| <= j < |es'| && Names(es'[j], es[i].eventId)))
    {
      InvalidatedSplit(es, es', es[i].eventId);
    }
    if i, j :|
      (0 <= i < |es| <= j < |es'| && IsVerdict(es[i]) && !IsStale(es[i], revision, inv) && Names(es'[j], es[i].eventId))
    {
      assert IsStale(es'[i], revision, inv');
    }
  }

  lemma {:induction false} AllOld(es: seq<Event>, n: nat)
    requires Numbered(es) && |es| <= n
    ensures UpToSeq(es, n) == es
  {
    if es != [] {
      AllOld(es[..|es| - 1], n);
    }
  }

  /** Numbered 1..n, the events up to a sequence number are a prefix. */
  lemma {:induction false} OldEvents(es: seq<Event>, n: nat)
    requires Numbered(es) && n <= |es|
    ensures UpToSeq(es, n) == es[..n]
  {
    if n == |es| {
      AllOld(es, n);
    } else {
      OldEvents(es[..|es| - 1], n);
      assert es[..|es| - 1][..n] == es[..n];
    }
  }

  lemma {:induction false} NewlyStaleIff(c: Codec, es: seq<Event>, es': seq<Event>, ls': seq<Bytes>, revision: string)
    requires es <= es' && Backed(c, es', ls')
    ensures VerdictsNewlyStale(es', |es|, revision, revision) == [] <==> !AddsStale(es, es', revision)
  {
    var inv, inv' := InvalidatedIds(es), InvalidatedIds(es');
    forall i | 0 <= i < |es'| ensures es'[i].seqNo == i + 1 { BackedAt(c, es', ls', i); }
    OldEvents(es', |es|);
    assert es'[..|es|] == es;
    var now, before := StaleOf(es', revision, inv'), StaleOf(es, revision, inv);
    NewlyStaleEmpty(now, before);
    forall n: int
      ensures ListsSeq(now, n) <==> 1 <= n <= |es'| && IsStale(es'[n - 1], revision, inv')
      ensures ListsSeq(before, n) <==> 1 <= n <= |es| && IsStale(es[n - 1], revision, inv)
    {
      StaleListIs(es', revision, inv', n);
      StaleListIs(es, revision, inv, n);
    }
    StaysStaleIff(es, es', revision);
    if NewlyStale(now, before) == [] {
      forall i | 0 <= i < |es'| && IsStale(es'[i], revision, inv')
        ensures i < |es| && IsStale(es[i], revision, inv)
      {
        assert ListsSeq(now, i + 1) && ListsSeq(before, i + 1);
      }
    }
    if StaysStale(es, es', revision) {
      forall v | v in now ensures ListsSeq(before, v.seqNo) {
        assert ListsSeq(now, v.seqNo);
      }
    }
  }

  /** What --run-id, the revision and the worktree identity look like, also when git could not tell the last two. */
  predicate WritableContext(runId: string, requested: Option<string>, git: Git) {
    && Plain(runId) && 0 < |runId| <= 64
    && CurrentRevision(requested, git).Some?
    && (var rev := CurrentRevision(requested, git).value; Plain(rev) && 0 < |rev| <= 64)
    && WorktreeId(git.worktreeId)
  }

  /** Revision and worktree are known as well. */
  predicate KnownContext(runId: string, requested: Option<string>, git: Git) {
    && WritableContext(runId, requested, git)
    && CurrentRevision(requested, git).value != UNKNOWN && (requested == None ==> git.worktreeId != UNKNOWN)
  }

  lemma {:induction false} PacketParses(t: Tools, h: Header, body: Levels -> string) returns (p: Parsed)
    requires t.Sound() && WellFormed(h)
    ensures ParseCheckpoint(Packet(t, h, body)) == Some(p)
    ensures p.runId == h.runId && p.lastSeq == h.lastSeq && p.lastHash == h.lastHash
    ensures p.revision == h.revision && p.worktreeId == h.worktreeId
    ensures t.sha(Digested(p.linesBeforeDigest, p.body)) == p.digest
  {
    hide ParseCheckpoint, RenderPacket, Digested;
    var i := ChosenLevel(t, h, body, 0);
    var size := SizeOf(ProbeEstimate(t, h, body, i));
    SizeIsPlain(ProbeEstimate(t, h, body, i));
    var h' := h.(size := size);
    PacketRoundTrip(t.sha, h', body(ATTEMPTS[i]));
    p := ParseCheckpoint(Packet(t, h, body)).value;
  }

  lemma {:induction false} SizeIsPlain(est: nat)
    ensures Plain(SizeOf(est))
  {
    DecimalRoundTrip(est);
  }

  /**
   A checkpoint written on a ledger verifies on every valid extension of it, at the same known revision and worktree,
   exactly until a verdict goes stale: then it is reported outdated.
   */
  lemma {:induction false} FreshCheckpointVerifiesIff(t: Tools, ledger: Bytes, more: Bytes, runId: string,
                                                      requested: Option<string>,
                                                      git: Git, generatedAt: string, body: Levels -> string)
    requires t.Sound() && KnownContext(runId, requested, git) && Plain(generatedAt)
    requires !LedgerInvalid(Summary(ReadFile(t.codec, ledger))) &&
      !LedgerInvalid(Summary(ReadFile(t.codec, ledger + more)))
    ensures var es, es' := ReadFile(t.codec, ledger).events, ReadFile(t.codec, ledger + more).events;
      var written := Generate(t, Some(ledger), runId, requested, git, generatedAt, body);
      && es <= es' && written.Written?
      && Verify(t, Text(written.text), Some(ledger + more), runId, requested, git)
        == if AddsStale(es, es', CurrentRevision(requested, git).value) then 6 else 0
  {
    hide ReadFile, ParseCheckpoint, Packet, Backed, AddsStale, VerdictsNewlyStale, Codec.Sound, CurrentRevision,
      LedgerInvalid, Plain, Hex;
    var c := t.codec;
    var r, r' := Summary(ReadFile(c, ledger)), Summary(ReadFile(c, ledger + more));
    EventsExtend(c, ledger, more);
    ValidLedger(c, ledger);
    ValidLedger(c, ledger + more);
    var rev := CurrentRevision(requested, git).value;
    var h := HeaderFor(t, r, runId, rev, CurrentWorktree(requested, git), generatedAt);
    HeaderIsWellFormed(t, r, runId, rev, CurrentWorktree(requested, git), generatedAt);
    var p := PacketParses(t, h, body);
    RecordedHashFound(c, r.events, r'.events, Split(ledger + more).lines);
    NewlyStaleIff(c, r.events, r'.events, Split(ledger + more).lines, rev);
  }

  /** Both worktree identities were computed from git, so they are compared. */
  predicate Compared(explicit0: Option<string>, git0: Git, explicit1: Option<string>, git1: Git) {
    && explicit0 == None && explicit1 == None
    && git0.worktreeId != "NOT_COMPUTED" && git1.worktreeId != "NOT_COMPUTED"
  }

  /** HEAD moved, the worktree changed, or git could not tell one of them, then or now. */
  predicate Moved(explicit0: Option<string>, git0: Git, explicit1: Option<string>, git1: Git, before: string,
                  after: string) {
    || before != after || before == UNKNOWN
    || (Compared(explicit0, git0, explicit1, git1) &&
        (git0.worktreeId != git1.worktreeId || git0.worktreeId == UNKNOWN))
  }

  lemma MovedIsDrift(explicit0: Option<string>, git0: Git, explicit1: Option<string>, git1: Git, before: string,
                     after: string)
    ensures Drift(before, CurrentWorktree(explicit0, git0), after, CurrentWorktree(explicit1, git1))
      <==> Moved(explicit0, git0, explicit1, git1, before, after)
    ensures !Moved(explicit0, git0, explicit1, git1, before, after) ==> before == after
  {
  }

  /** What verification of a packet answers once its header is known to parse and its digest to match. */
  lemma {:induction false} IntactExit(t: Tools, text: string, p: Parsed, now: Option<Bytes>, requested: Option<string>,
                                      git: Git)
    requires ParseCheckpoint(text) == Some(p) && t.sha(Digested(p.linesBeforeDigest, p.body)) == p.digest
    ensures var exit := Verify(t, Text(text), now, p.runId, requested, git);
      && (now == None ==> exit == 3)
      && (now.Some? ==>
           var r := Summary(ReadFile(t.codec, now.value));
           && (LedgerInvalid(r) ==> exit == 3)
           && (!LedgerInvalid(r) ==>
                var found := p.lastSeq <= r.lastSeq && PrefixHash(t.codec, r.events, p.lastSeq) == Some(p.lastHash);
                && (!found ==> exit == 5)
                && (found && CurrentRevision(requested, git) == None ==> exit == 2)
                && (found && CurrentRevision(requested, git).Some? ==>
                     exit ==
                       (var rev := CurrentRevision(requested, git).value;
                        if Drift(p.revision, p.worktreeId, rev, CurrentWorktree(requested, git)) ||
                           VerdictsNewlyStale(r.events, p.lastSeq, p.revision, rev) != []
                        then 6 else 0))))
  {
    hide ReadFile, ParseCheckpoint, Digested, PrefixHash, CurrentRevision, CurrentWorktree, Drift, VerdictsNewlyStale,
      LedgerInvalid;
  }

  /**
   What verification of a written checkpoint answers, whatever happened since: 3 without a valid ledger; 5 if the
   ledger does not begin with the recorded events; 2 for a revision that is none; and otherwise 6 exactly if the
   revision or the worktree moved, one of them is unknown, or a verdict went stale, and 0 if not.
   */
  lemma {:induction false} WrittenCheckpointExit(t: Tools, recorded: Bytes, now: Option<Bytes>, runId: string,
                                                 explicit0: Option<string>, git0: Git, explicit1: Option<string>,
                                                 git1: Git, generatedAt: string, body: Levels -> string)
    requires t.Sound() && WritableContext(runId, explicit0, git0) && Plain(generatedAt)
    requires !LedgerInvalid(Summary(ReadFile(t.codec, recorded)))
    requires now.Some? && !(ReadFile(t.codec, recorded).events <= ReadFile(t.codec, now.value).events) ==>
      NoCollision(t.codec, Hashed(t.codec, recorded) + Hashed(t.codec, now.value)) && TextDeterminesEvent(t.codec)
    ensures var written := Generate(t, Some(recorded), runId, explicit0, git0, generatedAt, body);
      && written.Written?
      && var exit := Verify(t, Text(written.text), now, runId, explicit1, git1);
      && (now == None || LedgerInvalid(Summary(ReadFile(t.codec, now.value))) ==> exit == 3)
      && (now.Some? && !LedgerInvalid(Summary(ReadFile(t.codec, now.value))) ==>
           var es, es' := ReadFile(t.codec, recorded).events, ReadFile(t.codec, now.value).events;
           if !(es <= es') then exit == 5
           else if explicit1.Some? && !TargetRevision(explicit1.value) then exit == 2
           else
             var rev0, rev1 := CurrentRevision(explicit0, git0).value, CurrentRevision(explicit1, git1).value;
             exit == if Moved(explicit0, git0, explicit1, git1, rev0, rev1) || AddsStale(es, es', rev0) then 6 else 0)
  {
    hide ReadFile, ParseCheckpoint, Packet, Backed, AddsStale, VerdictsNewlyStale, Codec.Sound, LedgerInvalid, Plain,
      Hex, Verify, PrefixHash, NoCollision, Hashed, Drift, Moved, TargetRevision, LastVerifiedHash;
    var c := t.codec;
    var r := Summary(ReadFile(c, recorded));
    ValidLedger(c, recorded);
    var rev := CurrentRevision(explicit0, git0).value;
    var wt := CurrentWorktree(explicit0, git0);
    HeaderIsWellFormed(t, r, runId, rev, wt, generatedAt);
    var p := PacketParses(t, HeaderFor(t, r, runId, rev, wt, generatedAt), body);
    var text := Generate(t, Some(recorded), runId, explicit0, git0, generatedAt, body).text;
    IntactExit(t, text, p, now, explicit1, git1);
    if now.Some? && !LedgerInvalid(Summary(ReadFile(c, now.value))) {
      var r' := Summary(ReadFile(c, now.value));
      ValidLedger(c, now.value);
      if r.events <= r'.events {
        RecordedHashFound(c, r.events, r'.events, Split(now.value).lines);
        NewlyStaleIff(c, r.events, r'.events, Split(now.value).lines, rev);
        if CurrentRevision(explicit1, git1).Some? {
          MovedIsDrift(explicit0, git0, explicit1, git1, rev, CurrentRevision(explicit1, git1).value);
        }
      } else if p.lastSeq <= r'.lastSeq && PrefixHash(c, r'.events, p.lastSeq) == Some(p.lastHash) {
        HashPinsPrefix(c, recorded, now.value);
      }
    }
  }

  /** No other answer than 4 or 5 without a readable, unedited checkpoint of this run; 4 is for an unsafe file. */
  lemma {:induction false} DamagedCheckpointFails(t: Tools, file: CheckpointFile, ledger: Option<Bytes>, runId: string,
                                                  requested: Option<string>, git: Git)
    ensures var exit := Verify(t, file, ledger, runId, requested, git);
      && (exit == 4 <==> file.Unsafe?)
      && (exit !in {4, 5} ==>
           file.Text? && ParseCheckpoint(file.text).Some? &&
           var p := ParseCheckpoint(file.text).value;
           p.runId == runId && t.sha(Digested(p.linesBeforeDigest, p.body)) == p.digest)
  {
    hide ReadFile, ParseCheckpoint, Digested, PrefixHash, CurrentRevision, CurrentWorktree, Drift, VerdictsNewlyStale,
      LedgerInvalid;
  }

  lemma {:induction false} HeaderIsWellFormed(t: Tools, r: ReadResult, runId: string, revision: string,
                                              worktreeId: string, generatedAt: string)
    requires t.Sound() && Plain(runId) && 0 < |runId| <= 64 && Plain(revision) && 0 < |revision| <= 64
    requires WorktreeId(worktreeId) && Plain(generatedAt) && r.lastSeq == |r.events|
    ensures var h := HeaderFor(t, r, runId, revision, worktreeId, generatedAt);
      WellFormed(h) && h.runId == runId && h.revision == revision && h.lastSeq == |r.events|
  {
    RecordedHashIsHex(t, r.events);
    hide Plain, Hex, LastVerifiedHash, Codec.Sound;
    assert t.sanitize(runId) == runId && t.sanitize(revision) == revision;
    assert Plain("") by { EmptyIsPlain(); }
  }

  lemma {:induction false} EmptyIsPlain()
    ensures Plain("")
  {
  }

  lemma {:induction false} RecordedHashIsHex(t: Tools, es: seq<Event>)
    requires t.Sound()
    ensures Hex(LastVerifiedHash(t.codec, es), 64)
  {
    if es != [] {
      assert Hex(t.codec.hash(t.codec.stringify(es[|es| - 1])), 64);
    }
  }

  lemma {:induction false} RecordedHashFound(c: Codec, es: seq<Event>, es': seq<Event>, ls': seq<Bytes>)
    requires es <= es' && Backed(c, es', ls')
    ensures PrefixHash(c, es', |es|) == Some(LastVerifiedHash(c, es))
  {
    if es != [] { FindsBySeq(c, es', ls', |es|); }
  }

  lemma {:induction false} EventsExtend(c: Codec, file: Bytes, more: Bytes)
    requires c.Sound()
    ensures ReadFile(c, file).events <= ReadFile(c, file + more).events
  {
    ReadIsFold(c, file);
    ReadIsFold(c, file + more);
    ChunksCompose(c, INITIAL, file, more);
    ReadingOnlyGrows(c, FeedAll(c, INITIAL, file), more);
  }

  /**
   The same for the very text generateMode wrote: whatever happened since, passing means the recorded prefix is there.
   */
  lemma {:induction false} WrittenCheckpointPinsPrefix(t: Tools, recorded: Bytes, now: Bytes, runId: string,
                                                       explicit0: Option<string>, git0: Git, explicit1: Option<string>,
                                                       git1: Git,
                                                       generatedAt: string, body: Levels -> string)
    requires t.Sound() && WritableContext(runId, explicit0, git0) && Plain(generatedAt)
    requires NoCollision(t.codec, Hashed(t.codec, recorded) + Hashed(t.codec, now)) && TextDeterminesEvent(t.codec)
    requires Generate(t, Some(recorded), runId, explicit0, git0, generatedAt, body).Written?
    requires Verify(t, Text(Generate(t, Some(recorded), runId, explicit0, git0, generatedAt, body).text),
                    Some(now), runId, explicit1, git1) in {0, 6}
    ensures ReadFile(t.codec, recorded).events <= ReadFile(t.codec, now).events
  {
    hide ReadFile, ParseCheckpoint, Packet, Verify, Codec.Sound, CurrentRevision, Plain, Hex;
    var r := Summary(ReadFile(t.codec, recorded));
    ValidLedger(t.codec, recorded);
    var rev := CurrentRevision(explicit0, git0).value;
    HeaderIsWellFormed(t, r, runId, rev, CurrentWorktree(explicit0, git0), generatedAt);
    var p := PacketParses(t, HeaderFor(t, r, runId, rev, CurrentWorktree(explicit0, git0), generatedAt), body);
    VerifiedMeansSamePrefix(t, Generate(t, Some(recorded), runId, explicit0, git0, generatedAt, body).text, p,
                            recorded, now, runId, explicit1, git1);
  }

  // ---------------------------------------------------------------------
  // Revisions and drift
  // ---------------------------------------------------------------------

  /**
   Two revisions match as one abbreviates the other: symmetrically, never across the dirty mark, never an unknown one.
   */
  lemma {:induction false} RevisionLaws(a: string, b: string)
    ensures RevisionMatches(a, b) == RevisionMatches(b, a)
    ensures RevisionMatches(a, b) ==> EndsWith(a, DIRTY) == EndsWith(b, DIRTY) && a != UNKNOWN && b != UNKNOWN
    ensures !EndsWith(a, DIRTY) && !EndsWith(b, DIRTY) && a != "" && a <= b && a != UNKNOWN && b != UNKNOWN ==>
      RevisionMatches(a, b) && RevisionMatches(a, a)
    ensures |a| == |b| && RevisionMatches(a, b) ==> a == b
  {
    if |a| == |b| && RevisionMatches(a, b) {
      if EndsWith(a, DIRTY) {
        assert a == BaseOf(a) + DIRTY && b == BaseOf(b) + DIRTY;
      }
    }
  }

  /**
   Exit 0 means: same run, intact text, valid ledger, the recorded revision still current and known, and no worktree
   drift.
   */
  lemma {:induction false} VerifiedMeansNoDrift(t: Tools, text: string, now: Option<Bytes>, runId: string,
                                                requested: Option<string>, git: Git)
    requires Verify(t, Text(text), now, runId, requested, git) == 0
    ensures now.Some? && !LedgerInvalid(Summary(ReadFile(t.codec, now.value))) && ParseCheckpoint(text).Some?
    ensures var p := ParseCheckpoint(text).value;
      p.runId == runId && t.sha(Digested(p.linesBeforeDigest, p.body)) == p.digest &&
      CurrentRevision(requested, git) == Some(p.revision) && p.revision != UNKNOWN &&
      (requested == None && p.worktreeId != "NOT_COMPUTED" && git.worktreeId != "NOT_COMPUTED" ==>
        p.worktreeId == git.worktreeId != UNKNOWN)
  {
    hide ReadFile, ParseCheckpoint, VerdictsNewlyStale, PrefixHash, LedgerInvalid;
  }
}
