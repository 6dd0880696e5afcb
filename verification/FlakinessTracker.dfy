/**
 Pass/fail history per scenario, its classification, and the quarantine
 decisions people make about it. The specification works on a `Book`; the
 class keeps the same three fields in place.
 */
module FlakinessTracker {
  import opened Options

  const MIN_SAMPLES_FOR_VERDICT := 3
  const WINDOW_SIZE := 10
  const MAX_HISTORY_PER_SCENARIO := 20
  const MAX_TRACKED_SCENARIOS := 500
  const QUARANTINE_DECISIONS_MAX_ROWS := 500

  datatype Status = Passed | Failed

  /** What a caller reports; anything but the first three carries no signal. */
  datatype Reported = ReportedPassed | ReportedFailed | ReportedUnavailable | ReportedOther

  /** A stored date: absent, not a date, or a point in time. */
  datatype Stamp = Missing | Unreadable | At(ms: int)

  datatype Sample = Sample(status: Status, stamp: Stamp, unavailable: bool)

  datatype Class = New | Stable | Broken | Flaky

  datatype Verdict = Verdict(kind: Class, flakeRate: real, sampleSize: nat)

  datatype Entry = Entry(
    history: seq<Sample>, verdict: Verdict, lastUsed: int,
    quarantined: bool, quarantinedAt: Stamp, flakySince: Stamp)

  datatype Action = Quarantine | Unquarantine

  datatype Row = Decision(key: string, action: Action) | MalformedRow

  /** `keys` is the order in which the object `scenarios` enumerates its properties. */
  datatype Book = Book(scenarios: map<string, Entry>, keys: seq<string>, decisions: seq<Row>)

  // ---------------------------------------------------------------------
  // Classification
  // ---------------------------------------------------------------------

  /** slice(-n) for n > 0 */
  function LastN<T>(s: seq<T>, n: nat): seq<T> {
    if |s| <= n then s else s[|s| - n..]
  }

  function Count(status: Status, s: seq<Sample>): nat {
    if s == [] then 0 else Count(status, s[..|s| - 1]) + if s[|s| - 1].status == status then 1 else 0
  }

  function Classify(history: seq<Sample>): Verdict {
    var recent := LastN(history, WINDOW_SIZE);
    var passes, fails := Count(Passed, recent), Count(Failed, recent);
    var size := passes + fails;
    if size < MIN_SAMPLES_FOR_VERDICT then Verdict(New, 0.0, size)
    else if fails == 0 then Verdict(Stable, 0.0, size)
    else if passes == 0 then Verdict(Broken, 1.0, size)
    else Verdict(Flaky, fails as real / size as real, size)
  }

  lemma {:induction false} CountIs(s: seq<Sample>)
    ensures Count(Passed, s) + Count(Failed, s) == |s|
    ensures forall status :: Count(status, s) > 0 <==> exists i :: 0 <= i < |s| && s[i].status == status
  {
    if s != [] {
      var init := s[..|s| - 1];
      CountIs(init);
      forall status ensures Count(status, s) > 0 <==> exists i :: 0 <= i < |s| && s[i].status == status {
        if Count(status, init) > 0 {
          var i :| 0 <= i < |init| && init[i].status == status;
          assert s[i].status == status;
        }
        if j :| 0 <= j < |s| && s[j].status == status {
          assert j < |init| ==> init[j].status == status;
        }
      }
    }
  }

  /** Counting by positions: how many of the results failed. */
  lemma {:induction false} FailuresAre(s: seq<Sample>)
    ensures Count(Failed, s) == |set i | 0 <= i < |s| && s[i].status == Failed|
  {
    if s != [] {
      FailuresAre(s[..|s| - 1]);
      FailedStep(s);
    }
  }

  lemma {:induction false} FailedStep(s: seq<Sample>)
    requires s != []
    ensures var n := |s| - 1;
      |set i | 0 <= i < |s| && s[i].status == Failed| ==
      |set i | 0 <= i < n && s[..n][i].status == Failed| + if s[n].status == Failed then 1 else 0
  {
    var n := |s| - 1;
    var before := set i | 0 <= i < n && s[..n][i].status == Failed;
    var all := set i | 0 <= i < |s| && s[i].status == Failed;
    forall i | 0 <= i < n ensures s[..n][i] == s[i] { }
    assert n !in before;
    if s[n].status == Failed {
      assert all == before + {n};
    } else {
      assert all == before;
    }
  }

  /**
   What each classification says about the last ten results: too few to tell, all passed, all failed, or both; and the
   flake rate of a flaky scenario is the share of the ten that failed.
   */
  lemma {:induction false} ClassificationMeans(history: seq<Sample>)
    ensures var recent, v := (if |history| <= 10 then history else history[|history| - 10..]), Classify(history);
      (v.kind == New <==> |history| < 3) &&
      (v.kind == Stable <==> |history| >= 3 && forall i :: 0 <= i < |recent| ==> recent[i].status == Passed) &&
      (v.kind == Broken <==> |history| >= 3 && forall i :: 0 <= i < |recent| ==> recent[i].status == Failed) &&
      v.sampleSize == |recent| &&
      v.flakeRate == if v.kind == New then 0.0
        else |set i | 0 <= i < |recent| && recent[i].status == Failed| as real / |recent| as real
  {
    var recent := LastN(history, WINDOW_SIZE);
    CountIs(recent);
    FailuresAre(recent);
    assert Count(Failed, recent) == 0 <==> forall i :: 0 <= i < |recent| ==> recent[i].status == Passed;
    assert Count(Passed, recent) == 0 <==> forall i :: 0 <= i < |recent| ==> recent[i].status == Failed;
    if |recent| > 0 { WholeShare(|recent|); }
  }

  lemma WholeShare(n: nat)
    requires n > 0
    ensures n as real / n as real == 1.0 && 0 as real / n as real == 0.0
  {
  }

  /** Dropping results beyond the retained twenty never changes a classification. */
  lemma {:induction false} CapKeepsVerdict(history: seq<Sample>)
    ensures Classify(LastN(history, MAX_HISTORY_PER_SCENARIO)) == Classify(history)
  {
    assert LastN(LastN(history, MAX_HISTORY_PER_SCENARIO), WINDOW_SIZE) == LastN(history, WINDOW_SIZE);
  }

  // ---------------------------------------------------------------------
  // The decision ledger
  // ---------------------------------------------------------------------

  /** The latest decision about a key: last write wins. */
  function LastVerdict(decisions: seq<Row>, key: string): Option<Action> {
    if decisions == [] then None
    else
      var row := decisions[|decisions| - 1];
      if row.Decision? && row.key == key then Some(row.action) else LastVerdict(decisions[..|decisions| - 1], key)
  }

  lemma {:induction false} VerdictStep(decisions: seq<Row>, row: Row, key: string)
    ensures LastVerdict(decisions + [row], key) ==
      if row.Decision? && row.key == key then Some(row.action) else LastVerdict(decisions, key)
  {
    assert (decisions + [row])[..|decisions|] == decisions;
  }

  /** Dropping the oldest rows can lose a verdict, never change one. */
  lemma {:induction false} DropVerdict(decisions: seq<Row>, n: nat, key: string)
    requires n <= |decisions|
    ensures LastVerdict(decisions[n..], key) in {None, LastVerdict(decisions, key)}
  {
    if n < |decisions| {
      var init := decisions[..|decisions| - 1];
      DropVerdict(init, n, key);
      assert decisions[n..][..|decisions| - n - 1] == init[n..];
    }
  }

  lemma {:induction false} CapVerdict(decisions: seq<Row>, n: nat, key: string)
    ensures LastVerdict(LastN(decisions, n), key) in {None, LastVerdict(decisions, key)}
  {
    if |decisions| > n { DropVerdict(decisions, |decisions| - n, key); }
  }

  // ---------------------------------------------------------------------
  // Specification of the operations
  // ---------------------------------------------------------------------

  predicate Verdicts(b: Book, key: string, action: Action) {
    LastVerdict(b.decisions, key) == Some(action)
  }

  predicate Held(b: Book, key: string) {
    key in b.scenarios && b.scenarios[key].quarantined
  }

  predicate IsProtected(b: Book, key: string) {
    Held(b, key) || Verdicts(b, key, Quarantine)
  }

  function Unprotected(b: Book, keys: seq<string>): seq<string> {
    if keys == [] then []
    else Unprotected(b, keys[..|keys| - 1]) + if IsProtected(b, keys[|keys| - 1]) then [] else [keys[|keys| - 1]]
  }

  function Age(b: Book, key: string): int {
    if key in b.scenarios then b.scenarios[key].lastUsed else 0
  }

  function InsertByAge(b: Book, s: seq<string>, key: string): seq<string> {
    if s == [] || Age(b, s[|s| - 1]) <= Age(b, key) then s + [key]
    else InsertByAge(b, s[..|s| - 1], key) + [s[|s| - 1]]
  }

  /** A stable sort by the time of last use. */
  function ByAge(b: Book, s: seq<string>): seq<string> {
    if s == [] then [] else InsertByAge(b, ByAge(b, s[..|s| - 1]), s[|s| - 1])
  }

  function Without(keys: seq<string>, gone: seq<string>): seq<string> {
    if keys == [] then []
    else Without(keys[..|keys| - 1], gone) + if keys[|keys| - 1] in gone then [] else [keys[|keys| - 1]]
  }

  function Elements(s: seq<string>): set<string> {
    set k | k in s
  }

  /** The keys an eviction removes. */
  function Victims(b: Book): seq<string> {
    var pool := ByAge(b, Unprotected(b, b.keys));
    var overflow := |b.scenarios| - MAX_TRACKED_SCENARIOS;
    if overflow <= 0 then [] else if overflow < |pool| then pool[..overflow] else pool
  }

  function Evicted(b: Book): Book {
    Book(b.scenarios - Elements(Victims(b)), Without(b.keys, Victims(b)), b.decisions)
  }

  function StatusOf(reported: Reported): Status {
    if reported == ReportedPassed then Passed else Failed
  }

  function NewEntry(existing: Option<Entry>, reported: Reported, now: int): Entry {
    var sample := Sample(StatusOf(reported), At(now), reported == ReportedUnavailable);
    var history := LastN((if existing.Some? then existing.value.history else []) + [sample], MAX_HISTORY_PER_SCENARIO);
    var verdict := Classify(history);
    var since := if existing.Some? then existing.value.flakySince else Missing;
    var wasFlaky := existing.Some? && existing.value.verdict.kind == Flaky;
    Entry(history, verdict, now,
          existing.Some? && existing.value.quarantined,
          if existing.Some? then existing.value.quarantinedAt else Missing,
          if verdict.kind == Flaky then (if since.At? then since else At(now))
          else if wasFlaky then Missing else since)
  }

  function Find(b: Book, key: string): Option<Entry> {
    if key in b.scenarios then Some(b.scenarios[key]) else None
  }

  function Put(b: Book, key: string, e: Entry): Book {
    Book(b.scenarios[key := e], if key in b.scenarios then b.keys else b.keys + [key], b.decisions)
  }

  function Recorded(b: Book, key: string, reported: Reported, now: int): Book {
    if reported == ReportedOther then b else Evicted(Put(b, key, NewEntry(Find(b, key), reported, now)))
  }

  predicate EverPassed(e: Entry) {
    exists i :: 0 <= i < |e.history| && e.history[i].status == Passed
  }

  /** A human decision: change the entry, append the row, keep the last 500 rows. */
  function Decided(b: Book, key: string, action: Action, e: Entry): Book {
    Put(b, key, e).(decisions := LastN(b.decisions + [Decision(key, action)], QUARANTINE_DECISIONS_MAX_ROWS))
  }

  function Quarantining(b: Book, key: string, now: int): Book {
    if key !in b.scenarios || b.scenarios[key].quarantined || !EverPassed(b.scenarios[key]) then b
    else Decided(b, key, Quarantine, b.scenarios[key].(quarantined := true, quarantinedAt := At(now)))
  }

  function Unquarantining(b: Book, key: string, now: int): Book {
    if key !in b.scenarios || !b.scenarios[key].quarantined then b
    else
      var e := b.scenarios[key];
      Decided(b, key, Unquarantine, e.(quarantined := false, quarantinedAt := Missing,
                                       flakySince := if e.verdict.kind == Flaky then At(now) else e.flakySince))
  }

  /** The ledger's verdict wins over the stored flag. */
  function Reconciled(scenarios: map<string, Entry>, decisions: seq<Row>): map<string, Entry> {
    map k | k in scenarios ::
      match LastVerdict(decisions, k)
      case None => scenarios[k]
      case Some(action) => scenarios[k].(quarantined := action == Quarantine)
  }

  /** What a load makes of the two files: reconcile against the whole ledger, then cap it. */
  function Loaded(files: Book): Book {
    Book(Reconciled(files.scenarios, files.decisions), files.keys,
         LastN(files.decisions, QUARANTINE_DECISIONS_MAX_ROWS))
  }

  // ---------------------------------------------------------------------
  // Eviction
  // ---------------------------------------------------------------------

  ghost predicate NoRepeats(s: seq<string>) {
    forall k :: multiset(s)[k] <= 1
  }

  ghost predicate Enumerates(b: Book) {
    NoRepeats(b.keys) && forall k :: k in b.keys <==> k in b.scenarios
  }

  lemma {:induction false} UnprotectedCount(b: Book, keys: seq<string>)
    ensures multiset(Unprotected(b, keys)) <= multiset(keys)
  {
    if keys != [] {
      hide IsProtected;
      var init, last := keys[..|keys| - 1], keys[|keys| - 1];
      assert keys == init + [last];
      UnprotectedCount(b, init);
      OneMoreKey(Unprotected(b, init), init, last);
    }
  }

  lemma OneMoreKey(some: seq<string>, init: seq<string>, last: string)
    requires multiset(some) <= multiset(init)
    ensures multiset(some + [last]) <= multiset(init + [last]) && multiset(some + []) <= multiset(init + [last])
  {
    assert some + [] == some;
  }

  lemma {:induction false} UnprotectedMember(b: Book, keys: seq<string>, k: string)
    ensures k in Unprotected(b, keys) <==> k in keys && !IsProtected(b, k)
  {
    if keys != [] {
      assert keys == keys[..|keys| - 1] + [keys[|keys| - 1]];
      hide IsProtected;
      UnprotectedMember(b, keys[..|keys| - 1], k);
    }
  }

  lemma {:induction false} UnprotectedIs(b: Book, keys: seq<string>)
    ensures multiset(Unprotected(b, keys)) <= multiset(keys)
    ensures forall k :: k in Unprotected(b, keys) <==> k in keys && !IsProtected(b, k)
  {
    hide IsProtected, Unprotected;
    UnprotectedCount(b, keys);
    forall k ensures k in Unprotected(b, keys) <==> k in keys && !IsProtected(b, k) { UnprotectedMember(b, keys, k); }
  }

  ghost predicate AgeOrdered(b: Book, s: seq<string>) {
    forall i, j :: 0 <= i < j < |s| ==> Age(b, s[i]) <= Age(b, s[j])
  }

  lemma {:induction false} InsertOrdered(b: Book, s: seq<string>, key: string)
    requires AgeOrdered(b, s)
    ensures AgeOrdered(b, InsertByAge(b, s, key))
    ensures multiset(InsertByAge(b, s, key)) == multiset(s) + multiset{key}
  {
    hide Age;
    if s != [] && Age(b, s[|s| - 1]) > Age(b, key) {
      var init, last := s[..|s| - 1], s[|s| - 1];
      assert s == init + [last];
      InsertOrdered(b, init, key);
      var t := InsertByAge(b, init, key);
      assert InsertByAge(b, s, key) == t + [last];
      hide InsertByAge;
      forall i | 0 <= i < |t| ensures Age(b, t[i]) <= Age(b, last) {
        assert t[i] in multiset(t);
        assert t[i] in init || t[i] == key;
      }
    }
  }

  lemma {:induction false} ByAgeSorts(b: Book, s: seq<string>)
    ensures AgeOrdered(b, ByAge(b, s)) && multiset(ByAge(b, s)) == multiset(s)
  {
    if s != [] {
      assert s == s[..|s| - 1] + [s[|s| - 1]];
      hide AgeOrdered, InsertByAge;
      ByAgeSorts(b, s[..|s| - 1]);
      InsertOrdered(b, ByAge(b, s[..|s| - 1]), s[|s| - 1]);
    } else {
      assert ByAge(b, s) == [];
    }
  }

  lemma {:induction false} CountElements(s: seq<string>)
    requires NoRepeats(s)
    ensures |Elements(s)| == |s|
  {
    if s != [] {
      var init, last := s[..|s| - 1], s[|s| - 1];
      assert s == init + [last];
      assert multiset(s) == multiset(init) + multiset{last};
      assert multiset(s)[last] == multiset(init)[last] + 1;
      assert last !in init by { assert last !in multiset(init); }
      assert NoRepeats(init) by {
        forall k ensures multiset(init)[k] <= 1 { assert multiset(init)[k] <= multiset(s)[k]; }
      }
      CountElements(init);
      assert Elements(s) == Elements(init) + {last};
    }
  }

  /** The eviction pool: the unprotected keys, each once, oldest first. */
  lemma {:induction false} PoolIs(b: Book, pool: seq<string>)
    requires Enumerates(b) && pool == ByAge(b, Unprotected(b, b.keys))
    ensures NoRepeats(pool) && AgeOrdered(b, pool)
    ensures forall k :: k in pool <==> k in b.scenarios && !IsProtected(b, k)
  {
    hide AgeOrdered, IsProtected, ByAge, Unprotected;
    var left := Unprotected(b, b.keys);
    UnprotectedIs(b, b.keys);
    ByAgeSorts(b, left);
    forall k ensures k in pool <==> k in left {
      assert k in pool <==> k in multiset(pool);
      assert k in left <==> k in multiset(left);
    }
    forall k ensures multiset(pool)[k] <= 1 {
      assert multiset(left)[k] <= multiset(b.keys)[k];
    }
  }

  lemma {:induction false} PrefixHasNoRepeats(s: seq<string>, n: nat)
    requires n <= |s| && NoRepeats(s)
    ensures NoRepeats(s[..n])
    ensures forall i :: n <= i < |s| ==> s[i] !in s[..n]
  {
    var a, z := s[..n], s[n..];
    assert s == a + z;
    assert multiset(s) == multiset(a) + multiset(z);
    forall k ensures multiset(a)[k] <= 1 {
      assert multiset(s)[k] == multiset(a)[k] + multiset(z)[k];
    }
    forall i | n <= i < |s| ensures s[i] !in a {
      assert s[i] == z[i - n];
      assert s[i] in multiset(z);
      assert multiset(s)[s[i]] == multiset(a)[s[i]] + multiset(z)[s[i]];
      assert s[i] !in multiset(a);
    }
  }

  /** No more than the pool and no more than the overflow: the oldest unprotected keys. */
  lemma {:induction false} VictimsAre(b: Book)
    requires Enumerates(b)
    ensures NoRepeats(Victims(b))
    ensures forall k :: k in Victims(b) ==> k in b.scenarios && !IsProtected(b, k)
    ensures forall k, v :: v in Victims(b) && k in b.scenarios && k !in Victims(b) && !IsProtected(b, k) ==>
      Age(b, v) <= Age(b, k)
    ensures |b.scenarios| > MAX_TRACKED_SCENARIOS ==>
      |Victims(b)| == |b.scenarios| - MAX_TRACKED_SCENARIOS ||
      (forall k :: k in b.scenarios && !IsProtected(b, k) ==> k in Victims(b))
  {
    hide IsProtected, Age, ByAge, Unprotected, Enumerates;
    var pool := ByAge(b, Unprotected(b, b.keys));
    PoolIs(b, pool);
    var n := |Victims(b)|;
    assert Victims(b) == pool[..n];
    PrefixHasNoRepeats(pool, n);
    forall i | 0 <= i < n ensures pool[i] in pool[..n] {
      assert pool[..n][i] == pool[i];
    }
    forall k, v | v in pool[..n] && k in b.scenarios && k !in pool[..n] && !IsProtected(b, k)
      ensures Age(b, v) <= Age(b, k)
    {
      var i :| 0 <= i < n && pool[i] == v;
      var j :| 0 <= j < |pool| && pool[j] == k;
    }
  }

  lemma {:induction false} WithoutIs(keys: seq<string>, gone: seq<string>)
    ensures multiset(Without(keys, gone)) <= multiset(keys)
    ensures forall k :: k in Without(keys, gone) <==> k in keys && k !in gone
  {
    if keys != [] {
      assert keys == keys[..|keys| - 1] + [keys[|keys| - 1]];
      WithoutIs(keys[..|keys| - 1], gone);
    }
  }

  /** At most 500 tracked, or every tracked scenario is held by a human decision. */
  ghost predicate Capped(b: Book) {
    |b.scenarios| <= MAX_TRACKED_SCENARIOS || forall k :: k in b.scenarios ==> IsProtected(b, k)
  }

  lemma {:induction false} EvictionEnumerates(b: Book)
    requires Enumerates(b)
    ensures Enumerates(Evicted(b))
  {
    hide Victims;
    var victims := Victims(b);
    WithoutIs(b.keys, victims);
    forall k ensures multiset(Without(b.keys, victims))[k] <= 1 {
      assert multiset(Without(b.keys, victims))[k] <= multiset(b.keys)[k];
    }
  }

  /** Eviction drops only unprotected scenarios, the least recently used first. */
  lemma {:induction false} EvictionIsLru(b: Book)
    requires Enumerates(b)
    ensures forall k :: k in Evicted(b).scenarios ==> k in b.scenarios && Evicted(b).scenarios[k] == b.scenarios[k]
    ensures forall k :: k in b.scenarios && IsProtected(b, k) ==> k in Evicted(b).scenarios
    ensures forall v, k ::
      (v in b.scenarios && v !in Evicted(b).scenarios && k in Evicted(b).scenarios && !IsProtected(b, k)) ==>
      b.scenarios[v].lastUsed <= b.scenarios[k].lastUsed
  {
    VictimsAre(b);
    hide Victims, IsProtected, Enumerates, Without;
    forall v, k |
      v in b.scenarios && v !in Evicted(b).scenarios && k in Evicted(b).scenarios && !IsProtected(b, k)
      ensures b.scenarios[v].lastUsed <= b.scenarios[k].lastUsed
    {
      assert v in Victims(b) && k !in Victims(b);
      assert Age(b, v) <= Age(b, k);
    }
  }

  /** It restores the cap whenever it can, drops everything unprotected when it cannot, and never drops too much. */
  lemma {:induction false} EvictionRestoresCap(b: Book)
    requires Enumerates(b)
    ensures Enumerates(Evicted(b)) && Capped(Evicted(b))
    ensures |b.scenarios| <= 500 ==> Evicted(b).scenarios == b.scenarios
    ensures |b.scenarios| > 500 ==> |Evicted(b).scenarios| >= 500
  {
    var victims := Victims(b);
    var after := Evicted(b);
    VictimsAre(b);
    assert |victims| <= |b.scenarios| - MAX_TRACKED_SCENARIOS || victims == [];
    hide Victims, LastVerdict;
    EvictionEnumerates(b);
    hide Enumerates;
    CountElements(victims);
    assert after.scenarios.Keys == b.scenarios.Keys - Elements(victims) && Elements(victims) <= b.scenarios.Keys;
    assert |after.scenarios| == |b.scenarios| - |victims|;
    assert victims == [] ==> after.scenarios == b.scenarios;
    forall k | k in after.scenarios ensures IsProtected(b, k) == IsProtected(after, k) {
    }
  }

  // ---------------------------------------------------------------------
  // What every operation keeps
  // ---------------------------------------------------------------------

  predicate Consistent(e: Entry) {
    e.verdict == Classify(e.history) && |e.history| <= MAX_HISTORY_PER_SCENARIO
  }

  ghost predicate Classified(b: Book) {
    forall k :: k in b.scenarios ==> Consistent(b.scenarios[k])
  }

  /** A tracked scenario with a retained decision is in the state that decision left it in. */
  ghost predicate LedgerAgrees(b: Book) {
    forall k :: k in b.scenarios && LastVerdict(b.decisions, k).Some? ==>
      b.scenarios[k].quarantined == (LastVerdict(b.decisions, k).value == Quarantine)
  }

  /** No untracked scenario is quarantined according to the ledger. */
  ghost predicate NoOrphans(b: Book) {
    forall k :: Verdicts(b, k, Quarantine) ==> k in b.scenarios
  }

  ghost predicate Inv(b: Book) {
    Enumerates(b) && LedgerAgrees(b) && NoOrphans(b) && |b.decisions| <= QUARANTINE_DECISIONS_MAX_ROWS
  }

  datatype Op =
    | Record(key: string, reported: Reported, now: int)
    | QuarantineOp(key: string, now: int)
    | UnquarantineOp(key: string, now: int)
    | Reload

  function Step(b: Book, op: Op): Book {
    match op
    case Record(key, reported, now) => Recorded(b, key, reported, now)
    case QuarantineOp(key, now) => Quarantining(b, key, now)
    case UnquarantineOp(key, now) => Unquarantining(b, key, now)
    case Reload => Loaded(b)
  }

  function Run(b: Book, ops: seq<Op>): Book {
    if ops == [] then b else Step(Run(b, ops[..|ops| - 1]), ops[|ops| - 1])
  }

  /** Whatever the two files hold, the ledger wins: every decision still in the ledger is in force after a load. */
  lemma {:induction false} LedgerWins(files: Book)
    ensures LedgerAgrees(Loaded(files))
  {
    hide LastVerdict, LastN;
    forall k | k in files.scenarios && LastVerdict(Loaded(files).decisions, k).Some?
      ensures Loaded(files).scenarios[k].quarantined == (LastVerdict(Loaded(files).decisions, k).value == Quarantine)
    {
      CapVerdict(files.decisions, QUARANTINE_DECISIONS_MAX_ROWS, k);
    }
  }

  lemma {:induction false} LoadEstablishesInv(files: Book)
    requires Enumerates(files) && NoOrphans(Loaded(files))
    ensures Inv(Loaded(files))
  {
    hide LastVerdict, Classify, NoOrphans;
    LedgerWins(files);
    assert |Loaded(files).decisions| <= QUARANTINE_DECISIONS_MAX_ROWS;
  }

  /** A reload of a book in good order changes nothing. */
  lemma {:induction false} ReloadIsIdentity(b: Book)
    requires Inv(b)
    ensures Loaded(b) == b
  {
    hide LastVerdict, Classify, Enumerates;
    assert Reconciled(b.scenarios, b.decisions) == b.scenarios;
  }

  /** The order the source avoids: cap the ledger, then reconcile against what is left. */
  function LoadedCapFirst(files: Book): Book {
    var kept := LastN(files.decisions, QUARANTINE_DECISIONS_MAX_ROWS);
    Book(Reconciled(files.scenarios, kept), files.keys, kept)
  }

  /** The order matters exactly when a dropped row held the only decision on a scenario whose stored flag disagrees. */
  lemma {:induction false} CapFirstDiffersIff(files: Book)
    ensures LoadedCapFirst(files) != Loaded(files) <==>
      exists k :: k in files.scenarios && LastVerdict(files.decisions, k).Some? &&
        LastVerdict(LastN(files.decisions, QUARANTINE_DECISIONS_MAX_ROWS), k) == None &&
        files.scenarios[k].quarantined != (LastVerdict(files.decisions, k).value == Quarantine)
  {
    hide LastVerdict, LastN;
    var kept := LastN(files.decisions, QUARANTINE_DECISIONS_MAX_ROWS);
    forall k ensures LastVerdict(kept, k) in {None, LastVerdict(files.decisions, k)} {
      CapVerdict(files.decisions, QUARANTINE_DECISIONS_MAX_ROWS, k);
    }
    var a, z := Reconciled(files.scenarios, kept), Reconciled(files.scenarios, files.decisions);
    assert a.Keys == z.Keys == files.scenarios.Keys;
    assert a != z ==> exists k :: k in files.scenarios && a[k] != z[k];
  }

  lemma {:induction false} PutEnumerates(b: Book, key: string, e: Entry)
    requires Enumerates(b)
    ensures Enumerates(Put(b, key, e))
  {
    if key !in b.scenarios {
      var keys := b.keys + [key];
      assert key !in multiset(b.keys);
      forall k ensures multiset(keys)[k] <= 1 {
        assert multiset(keys)[k] == multiset(b.keys)[k] + multiset{key}[k];
      }
    }
  }

  lemma {:induction false} EvictKeepsInv(b: Book)
    requires Inv(b)
    ensures Inv(Evicted(b)) && Capped(Evicted(b))
  {
    hide LastVerdict, Enumerates, Capped, Victims;
    var after := Evicted(b);
    assert after.decisions == b.decisions;
    hide Evicted;
    EvictionIsLru(b);
    EvictionRestoresCap(b);
    forall k | Verdicts(after, k, Quarantine) ensures k in after.scenarios {
      assert Verdicts(b, k, Quarantine);
    }
  }

  lemma {:induction false} PutKeepsLedger(b: Book, after: Book, key: string, e: Entry)
    requires LedgerAgrees(b) && NoOrphans(b) && after == Put(b, key, e)
    requires e.quarantined == Held(b, key) || LastVerdict(b.decisions, key) == None
    ensures LedgerAgrees(after) && NoOrphans(after)
  {
    hide LastVerdict;
    assert after.decisions == b.decisions;
    assert Verdicts(b, key, Quarantine) ==> key in b.scenarios;
    forall k | Verdicts(after, k, Quarantine) ensures k in after.scenarios {
      assert Verdicts(b, k, Quarantine);
    }
  }

  lemma {:induction false} PutKeepsInv(b: Book, key: string, e: Entry)
    requires Inv(b)
    requires e.quarantined == Held(b, key) || LastVerdict(b.decisions, key) == None
    ensures Inv(Put(b, key, e))
  {
    hide LastVerdict, Enumerates, LedgerAgrees, NoOrphans;
    PutEnumerates(b, key, e);
    PutKeepsLedger(b, Put(b, key, e), key, e);
  }

  lemma {:induction false} DecidedKeepsLedger(b: Book, after: Book, key: string, action: Action, e: Entry)
    requires LedgerAgrees(b) && NoOrphans(b) && key in b.scenarios && after == Decided(b, key, action, e)
    requires e.quarantined == (action == Quarantine)
    ensures LedgerAgrees(after) && NoOrphans(after)
  {
    hide LastVerdict, LastN;
    var rows := b.decisions + [Decision(key, action)];
    forall k
      ensures LastVerdict(after.decisions, k) in {None, if k == key then Some(action) else LastVerdict(b.decisions, k)}
    {
      VerdictStep(b.decisions, Decision(key, action), k);
      CapVerdict(rows, QUARANTINE_DECISIONS_MAX_ROWS, k);
    }
    forall k | Verdicts(after, k, Quarantine) ensures k in after.scenarios {
      if k != key { assert Verdicts(b, k, Quarantine); }
    }
  }

  lemma {:induction false} DecidedKeepsInv(b: Book, key: string, action: Action, e: Entry)
    requires Inv(b) && key in b.scenarios
    requires e.quarantined == (action == Quarantine)
    ensures Inv(Decided(b, key, action, e))
  {
    hide LastVerdict, LedgerAgrees, NoOrphans;
    PutEnumerates(b, key, e);
    assert |Decided(b, key, action, e).decisions| <= QUARANTINE_DECISIONS_MAX_ROWS;
    DecidedKeepsLedger(b, Decided(b, key, action, e), key, action, e);
  }

  lemma {:induction false} StepKeepsInv(b: Book, op: Op)
    requires Inv(b)
    ensures Inv(Step(b, op))
  {
    hide Inv, Evicted, Put, Decided, Loaded, Classify;
    match op
    case Record(key, reported, now) =>
      if reported != ReportedOther {
        var e := NewEntry(Find(b, key), reported, now);
        PutKeepsInv(b, key, e);
        EvictKeepsInv(Put(b, key, e));
      }
    case QuarantineOp(key, now) =>
      if Quarantining(b, key, now) != b {
        var e := b.scenarios[key].(quarantined := true, quarantinedAt := At(now));
        DecidedKeepsInv(b, key, Quarantine, e);
      }
    case UnquarantineOp(key, now) =>
      if Unquarantining(b, key, now) != b {
        var e := b.scenarios[key];
        DecidedKeepsInv(b, key, Unquarantine, e.(quarantined := false, quarantinedAt := Missing,
          flakySince := if e.verdict.kind == Flaky then At(now) else e.flakySince));
      }
    case Reload =>
      ReloadIsIdentity(b);
  }

  /** Over every run: each retained decision is in force, and no quarantined scenario has been lost. */
  lemma {:induction false} RunKeepsInv(b: Book, ops: seq<Op>)
    requires Inv(b)
    ensures Inv(Run(b, ops))
  {
    if ops != [] {
      hide Inv, Step;
      RunKeepsInv(b, ops[..|ops| - 1]);
      StepKeepsInv(Run(b, ops[..|ops| - 1]), ops[|ops| - 1]);
    }
  }

  lemma {:induction false} StepKeepsClassified(b: Book, op: Op)
    requires Classified(b)
    ensures Classified(Step(b, op))
  {
    hide Classify, LastN, LastVerdict, Victims;
    match op
    case Record(key, reported, now) =>
      NewEntryIs(b, key, reported, now);
      hide NewEntry;
    case QuarantineOp(key, now) =>
    case UnquarantineOp(key, now) =>
    case Reload =>
  }

  /** Over every run, whatever the decisions: each classification stays that of its history. */
  lemma {:induction false} RunKeepsClassified(b: Book, ops: seq<Op>)
    requires Classified(b)
    ensures Classified(Run(b, ops))
  {
    if ops != [] {
      hide Classified, Step;
      RunKeepsClassified(b, ops[..|ops| - 1]);
      StepKeepsClassified(Run(b, ops[..|ops| - 1]), ops[|ops| - 1]);
    }
  }

  /** A scenario the ledger quarantines but the history lacks is tracked as not quarantined by its next record. */
  lemma {:induction false} OrphanIsForgotten(b: Book, key: string, reported: Reported, now: int)
    requires Enumerates(b) && Verdicts(b, key, Quarantine) && key !in b.scenarios && reported != ReportedOther
    ensures var after := Recorded(b, key, reported, now);
      key in after.scenarios && !after.scenarios[key].quarantined && Verdicts(after, key, Quarantine)
  {
    var e := NewEntry(Find(b, key), reported, now);
    var p := Put(b, key, e);
    PutEnumerates(b, key, e);
    hide Enumerates, NewEntry, Victims, LastVerdict;
    EvictionIsLru(p);
    assert IsProtected(p, key);
  }

  /**
   The ledger's decisions stay in force in every run after a load if and only if the load left no quarantined scenario
   without a history entry, as a missing or unreadable history file does.
   */
  lemma {:induction false} LedgerStaysInForceIff(files: Book)
    requires Enumerates(files)
    ensures (forall ops :: LedgerAgrees(Run(Loaded(files), ops))) <==> NoOrphans(Loaded(files))
  {
    var b := Loaded(files);
    hide Loaded, LastVerdict;
    if NoOrphans(b) {
      LoadEstablishesInv(files);
      forall ops ensures LedgerAgrees(Run(Loaded(files), ops)) {
        RunAgrees(b, ops);
      }
    } else {
      var k :| Verdicts(b, k, Quarantine) && k !in b.scenarios;
      LoadEnumerates(files);
      hide Enumerates, LedgerAgrees, Run;
      var ops := OrphanBreaks(b, k);
      assert !LedgerAgrees(Run(Loaded(files), ops));
    }
  }

  lemma {:induction false} OrphanBreaks(b: Book, key: string) returns (ops: seq<Op>)
    requires Enumerates(b) && Verdicts(b, key, Quarantine) && key !in b.scenarios
    ensures !LedgerAgrees(Run(b, ops))
  {
    hide Enumerates, Recorded, LastVerdict;
    OrphanIsForgotten(b, key, ReportedPassed, 0);
    ops := [Record(key, ReportedPassed, 0)];
    assert ops[..0] == [];
    assert Run(b, []) == b;
    assert Run(b, ops) == Recorded(b, key, ReportedPassed, 0);
  }

  lemma RunAgrees(b: Book, ops: seq<Op>)
    requires Inv(b)
    ensures LedgerAgrees(Run(b, ops))
  {
    hide Run, LedgerAgrees;
    RunKeepsInv(b, ops);
  }

  lemma LoadEnumerates(files: Book)
    requires Enumerates(files)
    ensures Enumerates(Loaded(files))
  {
  }

  /** A quarantine whose history file is lost: the first result recorded is held against the build again. */
  lemma {:induction false} LostHistoryForgetsQuarantine(key: string, now: int)
    ensures var files := Book(map[], [], [Decision(key, Quarantine)]);
      var b := Run(Loaded(files), [Record(key, ReportedFailed, now)]);
      key in b.scenarios && !b.scenarios[key].quarantined && Verdicts(b, key, Quarantine)
  {
    var files := Book(map[], [], [Decision(key, Quarantine)]);
    var b := Loaded(files);
    assert b.decisions == files.decisions;
    assert Enumerates(files);
    LoadEnumerates(files);
    hide Enumerates, Recorded;
    assert Verdicts(b, key, Quarantine);
    OrphanIsForgotten(b, key, ReportedFailed, now);
    var ops := [Record(key, ReportedFailed, now)];
    assert ops[..0] == [] && Run(b, []) == b;
  }

  /** In a book in good order the protected scenarios are exactly the quarantined ones. */
  lemma {:induction false} ProtectedIsHeld(b: Book, key: string)
    requires Inv(b)
    ensures IsProtected(b, key) <==> Held(b, key)
  {
    hide LastVerdict, Enumerates;
  }

  /** An operation that is not this scenario's own release leaves a quarantined scenario tracked and quarantined. */
  lemma {:induction false} StepKeepsHeld(b: Book, op: Op, key: string)
    requires Inv(b) && Held(b, key) && !(op.UnquarantineOp? && op.key == key)
    ensures Held(Step(b, op), key)
  {
    match op
    case Record(k, reported, now) =>
      if reported != ReportedOther {
        var p := Put(b, k, NewEntry(Find(b, k), reported, now));
        assert Enumerates(p) by { PutEnumerates(b, k, NewEntry(Find(b, k), reported, now)); }
        assert Held(p, key);
        hide NewEntry, Enumerates, LastVerdict, Evicted, Inv;
        EvictionIsLru(p);
      }
    case QuarantineOp(k, now) =>
    case UnquarantineOp(k, now) =>
    case Reload =>
      ReloadIsIdentity(b);
  }

  /**
   A quarantine takes hold, in the book and in the ledger, exactly of a tracked scenario that has a retained pass or is
   quarantined already.
   */
  lemma {:induction false} QuarantineTakesIff(b: Book, key: string, now: int)
    requires Inv(b)
    ensures var after := Quarantining(b, key, now);
      Held(after, key) <==>
        (key in b.scenarios &&
         (b.scenarios[key].quarantined ||
          exists i :: 0 <= i < |b.scenarios[key].history| && b.scenarios[key].history[i].status == Passed))
    ensures var after := Quarantining(b, key, now);
      !Held(b, key) && Held(after, key) ==> Verdicts(after, key, Quarantine)
  {
    var row, after := Decision(key, Quarantine), Quarantining(b, key, now);
    if after != b {
      var rows := b.decisions + [row];
      assert after.decisions == LastN(rows, QUARANTINE_DECISIONS_MAX_ROWS);
      assert after.decisions[|after.decisions| - 1] == row;
    }
  }

  /** The row is the latest, and at most the oldest rows beyond 500 are gone. */
  predicate DecisionAdded(before: seq<Row>, after: seq<Row>, row: Row) {
    after == if |before| < 500 then before + [row] else before[|before| - 499..] + [row]
  }

  /** Over every run: a quarantined scenario is never evicted; only its own release ends the quarantine. */
  lemma {:induction false} QuarantinedAreNeverEvicted(b: Book, ops: seq<Op>, key: string)
    requires Inv(b) && Held(b, key)
    requires forall i :: 0 <= i < |ops| ==> !(ops[i].UnquarantineOp? && ops[i].key == key)
    ensures Held(Run(b, ops), key)
  {
    if ops != [] {
      hide Inv, Step, Held;
      QuarantinedAreNeverEvicted(b, ops[..|ops| - 1], key);
      RunKeepsInv(b, ops[..|ops| - 1]);
      StepKeepsHeld(Run(b, ops[..|ops| - 1]), ops[|ops| - 1], key);
    }
  }

  lemma {:induction false} StepHolds(b: Book, op: Op, key: string)
    requires Inv(b) && !Held(b, key) && Held(Step(b, op), key)
    ensures op.QuarantineOp? && op.key == key && key in b.scenarios && EverPassed(b.scenarios[key])
  {
    match op
    case Record(k, reported, now) =>
    case QuarantineOp(k, now) =>
    case UnquarantineOp(k, now) =>
    case Reload =>
      ReloadIsIdentity(b);
  }

  /** Over every run: a scenario becomes quarantined only by a decision taken while its history held a pass. */
  lemma {:induction false} RegressionsAreNeverQuarantined(b: Book, ops: seq<Op>, key: string)
    requires Inv(b) && !Held(b, key) && Held(Run(b, ops), key)
    ensures exists i :: (0 <= i < |ops| && ops[i].QuarantineOp? && ops[i].key == key &&
                         key in Run(b, ops[..i]).scenarios && EverPassed(Run(b, ops[..i]).scenarios[key]))
  {
    if ops != [] {
      hide Inv, Step, Held, EverPassed;
      var init := ops[..|ops| - 1];
      RunKeepsInv(b, init);
      if Held(Run(b, init), key) {
        RegressionsAreNeverQuarantined(b, init, key);
        var i :| 0 <= i < |init| && init[i].QuarantineOp? && init[i].key == key &&
          key in Run(b, init[..i]).scenarios && EverPassed(Run(b, init[..i]).scenarios[key]);
        assert init[..i] == ops[..i] && ops[i] == init[i];
      } else {
        StepHolds(Run(b, init), ops[|ops| - 1], key);
      }
    }
  }

  // ---------------------------------------------------------------------
  // The cap on tracked scenarios
  // ---------------------------------------------------------------------

  /** Every recorded outcome leaves at most max(500, number protected) scenarios tracked. */
  lemma {:induction false} RecordRestoresCap(b: Book, key: string, reported: Reported, now: int)
    requires Inv(b) && reported != ReportedOther
    ensures Capped(Recorded(b, key, reported, now))
  {
    PutEnumerates(b, key, NewEntry(Find(b, key), reported, now));
    hide Inv, NewEntry, Put, Capped, Evicted, Enumerates;
    EvictionRestoresCap(Put(b, key, NewEntry(Find(b, key), reported, now)));
  }

  lemma {:induction false} QuarantineKeepsCap(b: Book, key: string, now: int)
    requires Inv(b) && Capped(b)
    ensures Capped(Quarantining(b, key, now))
  {
    var after := Quarantining(b, key, now);
    if after != b {
      assert after.scenarios.Keys == b.scenarios.Keys;
      assert |after.scenarios| == |after.scenarios.Keys| && |b.scenarios| == |b.scenarios.Keys|;
      ProtectedIsHeld(b, key);
    }
  }

  /**
   A release keeps the cap exactly when no more than 500 scenarios are tracked; otherwise the next record restores it.
   */
  lemma {:induction false} ReleaseKeepsCapIff(b: Book, key: string, now: int)
    requires Inv(b) && Capped(b) && Held(b, key)
    ensures Capped(Unquarantining(b, key, now)) <==> |b.scenarios| <= MAX_TRACKED_SCENARIOS
  {
    var after := Unquarantining(b, key, now);
    ReleasedIs(b, key, now);
    hide Unquarantining, IsProtected, Inv, Held;
    assert |after.scenarios| == |after.scenarios.Keys| && |b.scenarios| == |b.scenarios.Keys|;
  }

  lemma {:induction false} ReleasedIs(b: Book, key: string, now: int)
    requires Inv(b) && Held(b, key)
    ensures var after := Unquarantining(b, key, now);
      after.scenarios.Keys == b.scenarios.Keys && key in after.scenarios && !IsProtected(after, key)
  {
    var after := Unquarantining(b, key, now);
    assert after.scenarios.Keys == b.scenarios.Keys && !Held(after, key);
    StepKeepsInv(b, UnquarantineOp(key, now));
    assert Step(b, UnquarantineOp(key, now)) == after;
    hide Inv, Unquarantining, IsProtected, Held;
    ProtectedIsHeld(after, key);
  }

  function Name(n: nat): string {
    if n == 0 then "" else Name(n - 1) + "a"
  }

  /** n scenarios, all quarantined, their decisions rotated out of the ledger. */
  function Crowd(n: nat): Book {
    if n == 0 then Book(map[], [], [])
    else Put(Crowd(n - 1), Name(n), Entry([], Classify([]), 0, true, At(0), Missing))
  }

  lemma {:induction false} NameLength(n: nat)
    ensures |Name(n)| == n
  {
    if n > 0 { NameLength(n - 1); }
  }

  lemma {:induction false} CrowdIs(n: nat)
    ensures |Crowd(n).scenarios| == n && Crowd(n).decisions == []
    ensures forall k :: k in Crowd(n).scenarios ==> Held(Crowd(n), k) && |k| <= n
  {
    if n > 0 {
      CrowdIs(n - 1);
      CrowdStep(n);
      NameLength(n);
      hide Classify, Name, Crowd, Held;
      OneMoreHeld(Crowd(n - 1), Crowd(n), Name(n), Entry([], Classify([]), 0, true, At(0), Missing));
    }
  }

  lemma CrowdStep(n: nat)
    requires n > 0
    ensures Crowd(n).decisions == Crowd(n - 1).decisions
    ensures Crowd(n).scenarios ==
      Crowd(n - 1).scenarios[Name(n) := Entry([], Classify([]), 0, true, At(0), Missing)]
  {
    hide Classify, Name;
  }

  lemma {:induction false} OneMoreHeld(less: Book, all: Book, key: string, e: Entry)
    requires all.scenarios == less.scenarios[key := e] && e.quarantined
    requires forall k :: k in less.scenarios ==> Held(less, k) && |k| < |key|
    ensures |all.scenarios| == |less.scenarios| + 1
    ensures forall k :: k in all.scenarios ==> Held(all, k) && |k| <= |key|
  {
    assert key !in less.scenarios;
    assert all.scenarios.Keys == less.scenarios.Keys + {key};
    assert |all.scenarios| == |all.scenarios.Keys| && |less.scenarios| == |less.scenarios.Keys|;
  }

  lemma HeldKeepsInv(b: Book, key: string)
    requires Inv(b) && b.decisions == []
    ensures Inv(Put(b, key, Entry([], Classify([]), 0, true, At(0), Missing)))
  {
    hide Inv, Put, Classify, Held;
    PutKeepsInv(b, key, Entry([], Classify([]), 0, true, At(0), Missing));
  }

  lemma {:induction false} CrowdKeepsInv(n: nat)
    ensures Inv(Crowd(n))
  {
    hide Inv, Put, Classify, Name, Held;
    if n == 0 {
      EmptyBookIsInOrder();
    } else {
      CrowdKeepsInv(n - 1);
      CrowdIs(n - 1);
      HeldKeepsInv(Crowd(n - 1), Name(n));
    }
  }

  lemma EmptyBookIsInOrder()
    ensures Inv(Book(map[], [], []))
  {
  }

  /** The bound does fail between records: 501 quarantined scenarios, one of them released. */
  lemma {:induction false} ReleaseCanExceedCap()
    ensures exists b: Book, key :: Inv(b) && Capped(b) && Held(b, key) && !Capped(Unquarantining(b, key, 0))
  {
    var n := MAX_TRACKED_SCENARIOS + 1;
    var b := Crowd(n);
    CrowdIs(n);
    CrowdKeepsInv(n);
    assert |b.scenarios| == |b.scenarios.Keys|;
    var key :| key in b.scenarios;
    assert Capped(b) by {
      forall k | k in b.scenarios ensures IsProtected(b, k) { assert Held(b, k); }
    }
    hide Inv, Crowd, Capped, Unquarantining;
    ReleaseKeepsCapIff(b, key, 0);
  }

  // ---------------------------------------------------------------------
  // One recorded outcome
  // ---------------------------------------------------------------------

  /** Keeping twenty results after each outcome keeps the last twenty of all of them, and classifies alike. */
  lemma {:induction false} WindowOfWholeHistory(all: seq<Sample>, sample: Sample)
    ensures LastN(LastN(all, MAX_HISTORY_PER_SCENARIO) + [sample], MAX_HISTORY_PER_SCENARIO)
      == LastN(all + [sample], MAX_HISTORY_PER_SCENARIO)
    ensures Classify(LastN(LastN(all, MAX_HISTORY_PER_SCENARIO) + [sample], MAX_HISTORY_PER_SCENARIO))
      == Classify(all + [sample])
  {
    CapKeepsVerdict(all + [sample]);
  }

  /** Recording touches no decision, no quarantine and no other scenario, except by evicting. */
  lemma {:induction false} RecordTouchesOnlyItsKey(b: Book, key: string, reported: Reported, now: int)
    requires Inv(b) && reported != ReportedOther
    ensures var after := Recorded(b, key, reported, now);
      after.decisions == b.decisions &&
      (forall k :: k in after.scenarios && k != key ==> k in b.scenarios && after.scenarios[k] == b.scenarios[k]) &&
      (forall k :: Held(after, k) <==> Held(b, k)) &&
      (key in after.scenarios ==> after.scenarios[key] == NewEntry(Find(b, key), reported, now))
  {
    hide LastVerdict, Victims, Classify, LastN;
    var e := NewEntry(Find(b, key), reported, now);
    assert e.quarantined == Held(b, key);
    PutEnumerates(b, key, e);
    var p := Put(b, key, e);
    assert Evicted(p).decisions == b.decisions;
    hide NewEntry, Evicted, Enumerates, Inv;
    EvictionIsLru(p);
  }

  lemma {:induction false} SameMembers(a: seq<string>, b: seq<string>)
    requires multiset(a) == multiset(b)
    ensures |a| == |b| && forall k :: k in a <==> k in b
  {
    assert |multiset(a)| == |a| && |multiset(b)| == |b|;
    forall k ensures k in a <==> k in b {
      assert k in a <==> k in multiset(a);
      assert k in b <==> k in multiset(b);
    }
  }

  lemma {:induction false} LastIsNew(init: seq<string>, key: string)
    requires NoRepeats(init + [key])
    ensures key !in init
  {
    assert multiset(init + [key])[key] == multiset(init)[key] + 1;
    assert key !in multiset(init);
  }

  lemma {:induction false} YoungestIsLast(p: Book, left: seq<string>, key: string)
    requires forall k :: k in left ==> Age(p, k) <= Age(p, key)
    ensures ByAge(p, left + [key]) == ByAge(p, left) + [key]
  {
    hide Age;
    var sorted := ByAge(p, left);
    ByAgeSorts(p, left);
    SameMembers(sorted, left);
    assert (left + [key])[..|left|] == left;
    assert sorted != [] ==> sorted[|sorted| - 1] in sorted;
  }

  /** The last key, if none is younger, is evicted only after every other unprotected one. */
  lemma {:induction false} YoungestStays(p: Book, init: seq<string>, key: string, other: string)
    requires Enumerates(p) && |p.scenarios| <= MAX_TRACKED_SCENARIOS + 1 && p.keys == init + [key]
    requires other in p.scenarios && other != key && !IsProtected(p, other) && !IsProtected(p, key)
    requires forall k :: k in p.scenarios ==> Age(p, k) <= Age(p, key)
    ensures key in Evicted(p).scenarios
  {
    hide IsProtected, Age, ByAge, AgeOrdered, Unprotected;
    var left := Unprotected(p, init);
    var sorted := ByAge(p, left);
    UnprotectedIs(p, init);
    LastIsNew(init, key);
    assert p.keys[|init|] == key && key in p.scenarios && other in left && key !in left;
    assert forall k :: k in left ==> k in p.scenarios;
    hide Enumerates, NoRepeats;
    UnprotectedLast(p, init, key);
    YoungestIsLast(p, left, key);
    ByAgeSorts(p, left);
    SameMembers(sorted, left);
    assert sorted[0] in sorted;
    assert Victims(p) == [] || Victims(p) == [sorted[0]];
    hide Victims;
  }

  lemma UnprotectedLast(p: Book, init: seq<string>, key: string)
    requires !IsProtected(p, key)
    ensures Unprotected(p, init + [key]) == Unprotected(p, init) + [key]
  {
    assert (init + [key])[..|init|] == init;
  }

  /** It goes if it is the only one that can. */
  lemma {:induction false} OnlyCandidateGoes(p: Book, after: Book, key: string)
    requires after == Evicted(p) && Enumerates(p) && |p.scenarios| > MAX_TRACKED_SCENARIOS
    requires key in p.scenarios && !IsProtected(p, key) && forall k :: k in p.scenarios && k != key ==>
      IsProtected(p, k)
    ensures key !in after.scenarios
  {
    hide Victims, Enumerates, LastVerdict;
    assert after.decisions == p.decisions;
    hide Evicted;
    EvictionIsLru(p);
    EvictionRestoresCap(p);
    assert |after.scenarios| == |after.scenarios.Keys| && |p.scenarios| == |p.scenarios.Keys|;
    assert p.scenarios.Keys - {key} <= after.scenarios.Keys <= p.scenarios.Keys;
    if key in after.scenarios {
      SameProtection(p, after, key);
      assert false;
    }
  }

  lemma SameProtection(b: Book, after: Book, key: string)
    requires after.decisions == b.decisions && key in b.scenarios && key in after.scenarios
    requires after.scenarios[key] == b.scenarios[key]
    ensures IsProtected(after, key) == IsProtected(b, key)
  {
  }

  /** The result a report is stored as; none if it carries no signal. */
  function SampleFor(reported: Reported, now: int): Option<Sample> {
    match reported
    case ReportedPassed => Some(Sample(Passed, At(now), false))
    case ReportedFailed => Some(Sample(Failed, At(now), false))
    case ReportedUnavailable => Some(Sample(Failed, At(now), true))
    case ReportedOther => None
  }

  /** A recorded outcome follows the earlier results, of which the last twenty stay; nothing is decided by it. */
  lemma {:induction false} RecordAppends(existing: Option<Entry>, reported: Reported, now: int)
    requires reported != ReportedOther
    ensures var e := NewEntry(existing, reported, now);
      var all := (if existing.Some? then existing.value.history else []) + [SampleFor(reported, now).value];
      && e.history == (if |all| <= 20 then all else all[|all| - 20..])
      && e.verdict == Classify(all) && e.lastUsed == now
      && e.quarantined == (existing.Some? && existing.value.quarantined)
      && e.quarantinedAt == if existing.Some? then existing.value.quarantinedAt else Missing
  {
    hide Classify;
    CapKeepsVerdict((if existing.Some? then existing.value.history else []) + [SampleFor(reported, now).value]);
  }

  /** A first result starts no review clock and no quarantine. */
  lemma {:induction false} FirstRecord(reported: Reported, now: int)
    requires reported != ReportedOther
    ensures NewEntry(None, reported, now) ==
      Entry([SampleFor(reported, now).value], Verdict(New, 0.0, 1), now, false, Missing, Missing)
  {
    var x := SampleFor(reported, now).value;
    assert [] + [x] == [x];
    ClassificationMeans([x]);
    hide Classify;
  }

  const EMPTY := Book(map[], [], [])

  /** The results reported for one scenario in a run of operations, in order. */
  function Reports(ops: seq<Op>, key: string): seq<Sample> {
    if ops == [] then []
    else
      var init, op := ops[..|ops| - 1], ops[|ops| - 1];
      if op.Record? && op.key == key && op.reported != ReportedOther then
        Reports(init, key) + [SampleFor(op.reported, op.now).value]
      else Reports(init, key)
  }

  /** The scenarios a run reports on. */
  function ScenariosIn(ops: seq<Op>): set<string> {
    if ops == [] then {}
    else
      var op := ops[|ops| - 1];
      ScenariosIn(ops[..|ops| - 1]) + if op.Record? && op.reported != ReportedOther then {op.key} else {}
  }

  /** Exactly the reported scenarios are tracked, each with the last twenty of its results. */
  ghost predicate Tracks(b: Book, ops: seq<Op>) {
    b.scenarios.Keys == ScenariosIn(ops) && forall k :: k in b.scenarios ==> TracksKey(b.scenarios[k], Reports(ops, k))
  }

  predicate TracksKey(e: Entry, all: seq<Sample>) {
    && all != [] && e.history == LastN(all, 20) && e.verdict == Classify(all)
    && all[|all| - 1].stamp == At(e.lastUsed)
  }

  lemma {:induction false} OneMoreReport(existing: Option<Entry>, all: seq<Sample>, reported: Reported, now: int)
    requires reported != ReportedOther
    requires if existing.Some? then TracksKey(existing.value, all) else all == []
    ensures TracksKey(NewEntry(existing, reported, now), all + [SampleFor(reported, now).value])
  {
    var x := SampleFor(reported, now).value;
    var before := if existing.Some? then existing.value.history else [];
    assert x.stamp == At(now);
    RecordAppends(existing, reported, now);
    assert NewEntry(existing, reported, now).history == LastN(before + [x], 20);
    hide NewEntry, Classify, SampleFor;
    if existing.Some? {
      WindowOfWholeHistory(all, x);
      CapKeepsVerdict(LastN(all, 20) + [x]);
      hide LastN;
    } else {
      assert LastN([x], 20) == [x] && [] + [x] == [x];
    }
  }

  lemma {:induction false} ReportsStep(init: seq<Op>, op: Op, key: string)
    ensures Reports(init + [op], key) ==
      if op.Record? && op.key == key && op.reported != ReportedOther
      then Reports(init, key) + [SampleFor(op.reported, op.now).value] else Reports(init, key)
  {
    assert (init + [op])[..|init|] == init;
  }

  lemma ScenariosStep(init: seq<Op>, op: Op)
    ensures ScenariosIn(init + [op])
      == ScenariosIn(init) + if op.Record? && op.reported != ReportedOther then {op.key} else {}
  {
    assert (init + [op])[..|init|] == init;
  }

  lemma {:induction false} NoReports(ops: seq<Op>, key: string)
    ensures Reports(ops, key) == [] <==> key !in ScenariosIn(ops)
  {
    if ops != [] { NoReports(ops[..|ops| - 1], key); }
  }

  /** With at most 500 scenarios nothing is evicted. */
  lemma {:induction false} RoomForAll(b: Book, key: string, e: Entry)
    requires Inv(b) && |b.scenarios.Keys + {key}| <= 500
    ensures Evicted(Put(b, key, e)).scenarios == b.scenarios[key := e]
  {
    PutEnumerates(b, key, e);
    var p := Put(b, key, e);
    assert p.scenarios == b.scenarios[key := e];
    hide Inv, Enumerates, Evicted, Put;
    assert p.scenarios.Keys == b.scenarios.Keys + {key} && |p.scenarios| == |p.scenarios.Keys|;
    EvictionRestoresCap(p);
  }

  lemma {:induction false} RecordTracks(b: Book, ops: seq<Op>, key: string, reported: Reported, now: int)
    requires Inv(b) && Tracks(b, ops) && reported != ReportedOther
    requires |ScenariosIn(ops + [Op.Record(key, reported, now)])| <= 500
    ensures Tracks(Recorded(b, key, reported, now), ops + [Op.Record(key, reported, now)])
  {
    var op, e := Op.Record(key, reported, now), NewEntry(Find(b, key), reported, now);
    assert Recorded(b, key, reported, now) == Evicted(Put(b, key, e));
    hide Inv, NewEntry, ScenariosIn, Evicted, Put, Reports, TracksKey, Recorded;
    ScenariosStep(ops, op);
    NoReports(ops, key);
    OneMoreReport(Find(b, key), Reports(ops, key), reported, now);
    ReportsStep(ops, op, key);
    RoomForAll(b, key, e);
    OneMoreTracked(b, Recorded(b, key, reported, now), ops, op, e);
  }

  lemma {:induction false} OneMoreTracked(b: Book, after: Book, ops: seq<Op>, op: Op, e: Entry)
    requires Tracks(b, ops) && op.Record? && op.reported != ReportedOther
    requires after.scenarios == b.scenarios[op.key := e] && TracksKey(e, Reports(ops + [op], op.key))
    ensures Tracks(after, ops + [op])
  {
    hide TracksKey, Reports;
    ScenariosStep(ops, op);
    hide ScenariosIn;
    forall k | k in after.scenarios ensures TracksKey(after.scenarios[k], Reports(ops + [op], k)) {
      ReportsStep(ops, op, k);
    }
  }

  lemma {:induction false} DecisionKeepsResults(b: Book, op: Op)
    requires Inv(b) && (op.Record? ==> op.reported == ReportedOther)
    ensures var after := Step(b, op);
      after.scenarios.Keys == b.scenarios.Keys && forall k :: k in b.scenarios ==>
        var e, f := b.scenarios[k], after.scenarios[k];
        e.history == f.history && e.verdict == f.verdict && e.lastUsed == f.lastUsed
  {
    hide Inv, Loaded, EverPassed, LastN;
    if op.Reload? { ReloadIsIdentity(b); }
  }

  lemma {:induction false} DecisionTracks(b: Book, ops: seq<Op>, op: Op)
    requires Inv(b) && Tracks(b, ops) && (op.Record? ==> op.reported == ReportedOther)
    ensures Tracks(Step(b, op), ops + [op])
  {
    hide *;
    DecisionKeepsResults(b, op);
    StillTracks(b, Step(b, op), ops, op);
  }

  lemma {:induction false} StillTracks(b: Book, after: Book, ops: seq<Op>, op: Op)
    requires Tracks(b, ops) && (op.Record? ==> op.reported == ReportedOther)
    requires after.scenarios.Keys == b.scenarios.Keys && forall k :: k in b.scenarios ==>
      var e, f := b.scenarios[k], after.scenarios[k];
      e.history == f.history && e.verdict == f.verdict && e.lastUsed == f.lastUsed
    ensures Tracks(after, ops + [op])
  {
    ScenariosStep(ops, op);
    hide Reports, ScenariosIn, Classify, LastN;
    forall k | k in b.scenarios ensures TracksKey(after.scenarios[k], Reports(ops + [op], k)) {
      ReportsStep(ops, op, k);
    }
  }

  /**
   Over every run from an empty book on at most 500 scenarios, decisions and reloads included: exactly the reported
   scenarios are tracked, each with the last twenty of its reported results and classified by them.
   */
  lemma {:induction false} HistoryIsWhatWasReported(ops: seq<Op>)
    requires |ScenariosIn(ops)| <= 500
    ensures Inv(Run(EMPTY, ops)) && Tracks(Run(EMPTY, ops), ops)
  {
    if ops == [] {
      EmptyBookIsInOrder();
    } else {
      var init, op := ops[..|ops| - 1], ops[|ops| - 1];
      assert ops == init + [op];
      assert ScenariosIn(init) <= ScenariosIn(ops);
      hide Inv, Tracks, Step, ScenariosIn;
      Fewer(ScenariosIn(init), ScenariosIn(ops));
      HistoryIsWhatWasReported(init);
      OneMoreOp(Run(EMPTY, init), init, op);
    }
  }

  lemma {:induction false} OneMoreOp(b: Book, init: seq<Op>, op: Op)
    requires Inv(b) && Tracks(b, init) && |ScenariosIn(init + [op])| <= 500
    ensures Inv(Step(b, op)) && Tracks(Step(b, op), init + [op])
  {
    hide Inv, Tracks, ScenariosIn, Recorded, Quarantining, Unquarantining, Loaded;
    StepKeepsInv(b, op);
    if op.Record? && op.reported != ReportedOther {
      RecordTracks(b, init, op.key, op.reported, op.now);
    } else {
      DecisionTracks(b, init, op);
    }
  }

  lemma {:induction false} Fewer<T>(a: set<T>, b: set<T>)
    requires a <= b
    ensures |a| <= |b|
  {
    assert b == a + (b - a);
  }

  /** Three or more reported passes and nothing else: the scenario is stable and can be quarantined. */
  lemma {:induction false} PassesAreStable(ops: seq<Op>, key: string)
    requires |ScenariosIn(ops)| <= 500 && |Reports(ops, key)| >= 3
    requires forall i :: 0 <= i < |ops| && ops[i].Record? && ops[i].key == key ==> ops[i].reported == ReportedPassed
    ensures var b := Run(EMPTY, ops);
      key in b.scenarios && b.scenarios[key].verdict.kind == Stable && EverPassed(b.scenarios[key])
  {
    hide Inv, Run, ScenariosIn, Reports, TracksKey, EverPassed;
    HistoryIsWhatWasReported(ops);
    NoReports(ops, key);
    AllReportsPassed(ops, key);
    StableAfterPasses(Run(EMPTY, ops).scenarios[key], Reports(ops, key));
  }

  lemma {:induction false} StableAfterPasses(e: Entry, all: seq<Sample>)
    requires TracksKey(e, all) && |all| >= 3 && forall i :: 0 <= i < |all| ==> all[i].status == Passed
    ensures e.verdict.kind == Stable && EverPassed(e)
  {
    ClassificationMeans(all);
    hide Classify;
    assert e.history[0].status == Passed;
  }

  lemma {:induction false} AllReportsPassed(ops: seq<Op>, key: string)
    requires forall i :: 0 <= i < |ops| && ops[i].Record? && ops[i].key == key ==> ops[i].reported == ReportedPassed
    ensures forall i :: 0 <= i < |Reports(ops, key)| ==> Reports(ops, key)[i].status == Passed
  {
    if ops != [] { AllReportsPassed(ops[..|ops| - 1], key); }
  }

  /** An unreachable target counts exactly like a failure. */
  lemma {:induction false} UnavailableCountsAsFailure(existing: Option<Entry>, now: int)
    ensures NewEntry(existing, ReportedUnavailable, now).verdict == NewEntry(existing, ReportedFailed, now).verdict
  {
    var before := if existing.Some? then existing.value.history else [];
    var a, b := before + [Sample(Failed, At(now), true)], before + [Sample(Failed, At(now), false)];
    CapKeepsVerdict(a);
    CapKeepsVerdict(b);
    hide Classify, LastN;
    SameVerdict(a, b);
  }

  lemma {:induction false} SameVerdict(a: seq<Sample>, b: seq<Sample>)
    requires |a| == |b| && forall i :: 0 <= i < |a| ==> a[i].status == b[i].status
    ensures Classify(a) == Classify(b)
  {
    SameStatuses(LastN(a, WINDOW_SIZE), LastN(b, WINDOW_SIZE));
  }

  lemma {:induction false} SameStatuses(a: seq<Sample>, b: seq<Sample>)
    requires |a| == |b| && forall i :: 0 <= i < |a| ==> a[i].status == b[i].status
    ensures Count(Passed, a) == Count(Passed, b) && Count(Failed, a) == Count(Failed, b)
  {
    if a != [] { SameStatuses(a[..|a| - 1], b[..|b| - 1]); }
  }

  /**
   The review clock runs while a scenario is flaky: started on entry, or on the next outcome of a flaky scenario whose
   date is missing or unreadable, kept while it stays flaky, cleared on leaving.
   */
  lemma {:induction false} ReviewClock(e: Entry, reported: Reported, now: int)
    ensures var after := NewEntry(Some(e), reported, now);
      (after.verdict.kind == Flaky ==> after.flakySince == if e.flakySince.At? then e.flakySince else At(now)) &&
      (after.verdict.kind != Flaky && e.verdict.kind == Flaky ==> after.flakySince == Missing) &&
      (after.verdict.kind != Flaky && e.verdict.kind != Flaky ==> after.flakySince == e.flakySince) &&
      ((e.flakySince.At? <==> e.verdict.kind == Flaky) ==> (after.flakySince.At? <==> after.verdict.kind == Flaky))
  {
    hide Classify, LastN;
  }

  /**
   A new scenario survives its own first record exactly when there is room or some other scenario is not quarantined.
   */
  lemma {:induction false} NewcomerSurvivesIff(b: Book, key: string, reported: Reported, now: int)
    requires Inv(b) && Capped(b) && reported != ReportedOther && key !in b.scenarios
    requires forall k :: k in b.scenarios ==> b.scenarios[k].lastUsed <= now
    ensures key in Recorded(b, key, reported, now).scenarios <==>
      |b.scenarios| < MAX_TRACKED_SCENARIOS || exists k :: k in b.scenarios && !Held(b, k)
  {
    var e := NewEntry(Find(b, key), reported, now);
    var p := Put(b, key, e);
    assert Recorded(b, key, reported, now) == Evicted(p) && !Held(b, key);
    hide LastVerdict, Evicted, Inv, IsProtected, Enumerates, NewEntry, Recorded, Held, Capped, Put, Age, AddedTo;
    NewEntryIs(b, key, reported, now);
    NewcomerPut(b, key, e);
    if |b.scenarios| < MAX_TRACKED_SCENARIOS || exists k :: k in b.scenarios && !Held(b, k) {
      CappedMeansHeld(b);
      NewcomerStays(b, p, key);
    } else {
      NewcomerGoes(b, p, key);
    }
  }

  /** p is b with a youngest, unprotected scenario added. */
  ghost predicate AddedTo(b: Book, p: Book, key: string) {
    && Enumerates(p) && |p.scenarios| == |b.scenarios| + 1 && !IsProtected(p, key)
    && p.keys == b.keys + [key] && p.scenarios.Keys == b.scenarios.Keys + {key} && key !in b.scenarios
    && (forall k :: k in b.scenarios ==> IsProtected(p, k) == Held(b, k))
    && (forall k :: k in p.scenarios ==> Age(p, k) <= Age(p, key))
  }

  lemma NewcomerStays(b: Book, p: Book, key: string)
    requires AddedTo(b, p, key)
    requires |b.scenarios| < MAX_TRACKED_SCENARIOS ||
      (|b.scenarios| == MAX_TRACKED_SCENARIOS && exists k :: k in b.scenarios && !Held(b, k))
    ensures key in Evicted(p).scenarios
  {
    hide Evicted, IsProtected, Enumerates, Held, Age, Capped;
    if |b.scenarios| < MAX_TRACKED_SCENARIOS {
      EvictionRestoresCap(p);
    } else {
      var k :| k in b.scenarios && !Held(b, k);
      YoungestStays(p, b.keys, key, k);
    }
  }

  lemma NewcomerGoes(b: Book, p: Book, key: string)
    requires AddedTo(b, p, key) && |b.scenarios| >= MAX_TRACKED_SCENARIOS
    requires forall k :: k in b.scenarios ==> Held(b, k)
    ensures key !in Evicted(p).scenarios
  {
    hide Evicted, IsProtected, Enumerates, Held, Age;
    OnlyCandidateGoes(p, Evicted(p), key);
  }

  lemma CappedMeansHeld(b: Book)
    requires Inv(b) && Capped(b)
    ensures |b.scenarios| <= MAX_TRACKED_SCENARIOS || forall k :: k in b.scenarios ==> Held(b, k)
  {
    forall k ensures IsProtected(b, k) == Held(b, k) { ProtectedIsHeld(b, k); }
  }

  lemma NewcomerPut(b: Book, key: string, e: Entry)
    requires Inv(b) && key !in b.scenarios && !e.quarantined
    requires forall k :: k in b.scenarios ==> b.scenarios[k].lastUsed <= e.lastUsed
    ensures AddedTo(b, Put(b, key, e), key)
  {
    var p := Put(b, key, e);
    PutKeepsInv(b, key, e);
    hide LastVerdict, LedgerAgrees, NoOrphans;
    forall k ensures IsProtected(p, k) == Held(p, k) { ProtectedIsHeld(p, k); }
    hide IsProtected;
    assert p.scenarios.Keys == b.scenarios.Keys + {key};
    assert |p.scenarios| == |p.scenarios.Keys| && |b.scenarios| == |b.scenarios.Keys|;
  }

  lemma NewEntryIs(b: Book, key: string, reported: Reported, now: int)
    ensures var e := NewEntry(Find(b, key), reported, now);
      e.lastUsed == now && e.quarantined == Held(b, key) && Consistent(e)
  {
    hide Classify;
  }

  // ---------------------------------------------------------------------
  // Rehabilitation
  // ---------------------------------------------------------------------

  /** The results provably recorded at or after `at`. */
  function Since(s: seq<Sample>, at: int): seq<Sample> {
    if s == [] then []
    else
      var last := s[|s| - 1];
      Since(s[..|s| - 1], at) + if last.stamp.At? && last.stamp.ms >= at then [last] else []
  }

  predicate AllPassed(s: seq<Sample>) {
    forall i :: 0 <= i < |s| ==> s[i].status == Passed
  }

  /** slice(-0) is the whole list. */
  predicate IsCandidate(e: Entry, windowSize: nat) {
    e.quarantined && e.quarantinedAt.At? &&
    var since := Since(e.history, e.quarantinedAt.ms);
    |since| >= windowSize && AllPassed(if windowSize == 0 then since else LastN(since, windowSize))
  }

  lemma {:induction false} SinceStep(s: seq<Sample>, x: Sample, at: int)
    ensures Since(s + [x], at) == Since(s, at) + if x.stamp.At? && x.stamp.ms >= at then [x] else []
  {
    assert (s + [x])[..|s|] == s;
  }

  lemma {:induction false} NothingSince(s: seq<Sample>, at: int)
    requires forall i :: 0 <= i < |s| && s[i].stamp.At? ==> s[i].stamp.ms < at
    ensures Since(s, at) == []
  {
    if s != [] { NothingSince(s[..|s| - 1], at); }
  }

  /** Only results since the quarantine count: none are there when it is imposed. */
  lemma {:induction false} FreshQuarantineIsNoCandidate(b: Book, key: string, now: int, windowSize: nat)
    requires key in b.scenarios && !b.scenarios[key].quarantined && windowSize > 0
    requires forall i :: (0 <= i < |b.scenarios[key].history| && b.scenarios[key].history[i].stamp.At? ==>
                          b.scenarios[key].history[i].stamp.ms < now)
    ensures Held(Quarantining(b, key, now), key) ==> !IsCandidate(Quarantining(b, key, now).scenarios[key], windowSize)
  {
    NothingSince(b.scenarios[key].history, now);
  }

  /** One failure, or one unreachable target, after the quarantine and the scenario is no candidate. */
  lemma {:induction false} FailureEndsCandidacy(e: Entry, reported: Reported, now: int, windowSize: nat)
    requires reported == ReportedFailed || reported == ReportedUnavailable
    requires e.quarantined && e.quarantinedAt.At? && e.quarantinedAt.ms <= now
    ensures !IsCandidate(NewEntry(Some(e), reported, now), windowSize)
  {
    hide Classify;
    var after := NewEntry(Some(e), reported, now);
    var n := |after.history|;
    var last := after.history[n - 1];
    assert last == Sample(Failed, At(now), reported == ReportedUnavailable);
    assert after.quarantinedAt == e.quarantinedAt;
    hide NewEntry;
    assert after.history == after.history[..n - 1] + [last];
    hide Since;
    SinceStep(after.history[..n - 1], last, e.quarantinedAt.ms);
    var since := Since(after.history, e.quarantinedAt.ms);
    assert since[|since| - 1] == last;
    assert windowSize > 0 ==> LastN(since, windowSize)[|LastN(since, windowSize)| - 1] == last;
  }

  /** The entry after some more reports. */
  function ReportAll(e: Entry, reports: seq<(Reported, int)>): Entry {
    if reports == [] then e
    else
      var last := reports[|reports| - 1];
      NewEntry(Some(ReportAll(e, reports[..|reports| - 1])), last.0, last.1)
  }

  function Samples(reports: seq<(Reported, int)>): (s: seq<Sample>)
    requires forall i :: 0 <= i < |reports| ==> reports[i].0 != ReportedOther
    ensures |s| == |reports|
    ensures forall i :: 0 <= i < |s| ==> Some(s[i]) == SampleFor(reports[i].0, reports[i].1)
  {
    if reports == [] then []
    else
      var last := reports[|reports| - 1];
      Samples(reports[..|reports| - 1]) + [SampleFor(last.0, last.1).value]
  }

  lemma {:induction false} WindowGrows(all: seq<Sample>, kept: seq<Sample>, x: Sample)
    requires kept == all || kept == LastN(all, 20)
    ensures LastN(kept + [x], 20) == LastN(all + [x], 20)
  {
  }

  lemma {:induction false} ReportsKeep(e: Entry, reports: seq<(Reported, int)>)
    requires forall i :: 0 <= i < |reports| ==> reports[i].0 != ReportedOther
    ensures var after := ReportAll(e, reports);
      && after.quarantined == e.quarantined && after.quarantinedAt == e.quarantinedAt
      && after.history == if reports == [] then e.history else LastN(e.history + Samples(reports), 20)
  {
    if reports != [] {
      var init, last := reports[..|reports| - 1], reports[|reports| - 1];
      ReportsKeep(e, init);
      assert e.history + [] == e.history;
      KeepOne(e, ReportAll(e, init), Samples(init), last.0, last.1);
      hide NewEntry, LastN, SampleFor;
    }
  }

  lemma {:induction false} KeepOne(e: Entry, mid: Entry, s: seq<Sample>, reported: Reported, now: int)
    requires reported != ReportedOther && mid.quarantined == e.quarantined && mid.quarantinedAt == e.quarantinedAt
    requires mid.history == e.history + s || mid.history == LastN(e.history + s, 20)
    ensures var after := NewEntry(Some(mid), reported, now);
      && after.quarantined == e.quarantined && after.quarantinedAt == e.quarantinedAt
      && after.history == LastN(e.history + (s + [SampleFor(reported, now).value]), 20)
  {
    var x := SampleFor(reported, now).value;
    assert e.history + s + [x] == e.history + (s + [x]);
    RecordAppends(Some(mid), reported, now);
    assert NewEntry(Some(mid), reported, now).history == LastN(mid.history + [x], 20);
    hide NewEntry, Classify, LastN, SampleFor;
    WindowGrows(e.history + s, mid.history, x);
  }

  lemma {:induction false} SinceIsSuffix(older: seq<Sample>, recent: seq<Sample>, at: int)
    requires forall i :: 0 <= i < |older| && older[i].stamp.At? ==> older[i].stamp.ms < at
    requires forall i :: 0 <= i < |recent| ==> recent[i].stamp.At? && recent[i].stamp.ms >= at
    ensures Since(older + recent, at) == recent
  {
    if recent == [] {
      assert older + recent == older;
      NothingSince(older, at);
    } else {
      var init, last := recent[..|recent| - 1], recent[|recent| - 1];
      assert older + recent == older + init + [last];
      SinceIsSuffix(older, init, at);
      SinceStep(older + init, last, at);
    }
  }

  /** Of a history that ends in these results, those since the quarantine are the last twenty of them. */
  lemma {:induction false} SinceInWindow(older: seq<Sample>, recent: seq<Sample>, at: int)
    requires forall i :: 0 <= i < |older| && older[i].stamp.At? ==> older[i].stamp.ms < at
    requires forall i :: 0 <= i < |recent| ==> recent[i].stamp.At? && recent[i].stamp.ms >= at
    ensures Since(LastN(older + recent, 20), at) == LastN(recent, 20)
  {
    var keep := if |older + recent| <= 20 then |older| else if |recent| >= 20 then 0 else 20 - |recent|;
    var head := older[|older| - keep..];
    assert LastN(older + recent, 20) == head + LastN(recent, 20);
    SinceIsSuffix(head, LastN(recent, 20), at);
  }

  /**
   When a quarantined scenario may be released: at least `windowSize` results are retained from the time since, and the
   last `windowSize` of them (all of them for 0) passed.
   */
  lemma {:induction false} CandidateIff(e: Entry, reports: seq<(Reported, int)>, windowSize: nat)
    requires e.quarantined && e.quarantinedAt.At?
    requires forall i :: 0 <= i < |e.history| && e.history[i].stamp.At? ==> e.history[i].stamp.ms < e.quarantinedAt.ms
    requires forall i :: 0 <= i < |reports| ==>
      reports[i].0 != ReportedOther && reports[i].1 >= e.quarantinedAt.ms
    ensures var n := if |reports| < 20 then |reports| else 20;
      IsCandidate(ReportAll(e, reports), windowSize) <==>
      windowSize <= n && forall i :: |reports| - (if windowSize == 0 then n else windowSize) <= i < |reports| ==>
        reports[i].0 == ReportedPassed
  {
    assert forall i :: 0 <= i < |reports| ==>
      (Samples(reports)[i].status == Passed <==> reports[i].0 == ReportedPassed);
    hide *;
    ReportsKeep(e, reports);
    ResultsSince(e, reports);
    CandidateBy(ReportAll(e, reports), Samples(reports), windowSize);
  }

  lemma {:induction false} ResultsSince(e: Entry, reports: seq<(Reported, int)>)
    requires e.quarantinedAt.At?
    requires forall i :: 0 <= i < |e.history| && e.history[i].stamp.At? ==> e.history[i].stamp.ms < e.quarantinedAt.ms
    requires forall i :: 0 <= i < |reports| ==>
      reports[i].0 != ReportedOther && reports[i].1 >= e.quarantinedAt.ms
    ensures Since(ReportAll(e, reports).history, e.quarantinedAt.ms) == LastN(Samples(reports), 20)
  {
    var s := Samples(reports);
    assert forall i :: 0 <= i < |s| ==> s[i].stamp == At(reports[i].1);
    if reports == [] {
      NothingSince(e.history, e.quarantinedAt.ms);
    } else {
      hide *;
      ReportsKeep(e, reports);
      SinceInWindow(e.history, s, e.quarantinedAt.ms);
    }
  }

  lemma {:induction false} CandidateBy(after: Entry, recent: seq<Sample>, windowSize: nat)
    requires after.quarantined && after.quarantinedAt.At?
    requires Since(after.history, after.quarantinedAt.ms) == LastN(recent, 20)
    ensures var n := if |recent| < 20 then |recent| else 20;
      IsCandidate(after, windowSize) <==>
      windowSize <= n && forall i :: |recent| - (if windowSize == 0 then n else windowSize) <= i < |recent| ==>
        recent[i].status == Passed
  {
    var n := if |recent| < 20 then |recent| else 20;
    assert |LastN(recent, 20)| == n;
    if windowSize <= n {
      LastPassed(recent, n, if windowSize == 0 then n else windowSize);
    }
    hide LastN, AllPassed, Since;
  }

  lemma {:induction false} LastPassed(s: seq<Sample>, n: nat, k: nat)
    requires n == |LastN(s, 20)| && k <= n
    ensures AllPassed(LastN(LastN(s, 20), k)) <==> forall i :: |s| - k <= i < |s| ==> s[i].status == Passed
    ensures k == n ==> LastN(LastN(s, 20), k) == LastN(s, 20)
  {
    var t := LastN(LastN(s, 20), k);
    assert t == s[|s| - k..];
    assert forall i :: |s| - k <= i < |s| ==> s[i] == t[i - (|s| - k)];
  }

  lemma {:induction false} WithoutNothing(keys: seq<string>)
    ensures Without(keys, []) == keys
  {
    if keys != [] { WithoutNothing(keys[..|keys| - 1]); }
  }

  lemma {:induction false} WithoutStep(keys: seq<string>, gone: seq<string>, k: string)
    ensures Without(Without(keys, gone), [k]) == Without(keys, gone + [k])
  {
    if keys != [] {
      var init, last := keys[..|keys| - 1], keys[|keys| - 1];
      WithoutStep(init, gone, k);
      var w := Without(init, gone);
      assert (w + [last])[..|w|] == w;
      assert w + [] == w && Without(w, [k]) + [] == Without(w, [k]);
    }
  }

  // ---------------------------------------------------------------------
  // The tracker
  // ---------------------------------------------------------------------

  datatype Outcome = Untracked | Refused(entry: Entry) | Applied(entry: Entry)

  class Tracker {
    var scenarios: map<string, Entry>
    var keys: seq<string>
    var decisions: seq<Row>

    function State(): Book
      reads this
    {
      Book(scenarios, keys, decisions)
    }

    constructor (files: Book)
      ensures State() == Loaded(files)
    {
      scenarios, keys, decisions := files.scenarios, files.keys, files.decisions;
      new;
      Reload(files);
    }

    method EffectiveDecisionMap() returns (latest: map<string, Action>)
      ensures forall k :: LastVerdict(decisions, k) == if k in latest then Some(latest[k]) else None
    {
      latest := map[];
      for i := 0 to |decisions|
        invariant forall k :: LastVerdict(decisions[..i], k) == if k in latest then Some(latest[k]) else None
      {
        var row := decisions[i];
        assert decisions[..i + 1] == decisions[..i] + [row];
        forall k ensures LastVerdict(decisions[..i + 1], k) ==
          if row.Decision? && row.key == k then Some(row.action) else LastVerdict(decisions[..i], k)
        {
          VerdictStep(decisions[..i], row, k);
        }
        if row.Decision? { latest := latest[row.key := row.action]; }
      }
      assert decisions[..|decisions|] == decisions;
    }

    method CapDecisionsLedger()
      modifies this`decisions
      ensures decisions == LastN(old(decisions), QUARANTINE_DECISIONS_MAX_ROWS)
    {
      if |decisions| > QUARANTINE_DECISIONS_MAX_ROWS {
        decisions := decisions[|decisions| - QUARANTINE_DECISIONS_MAX_ROWS..];
      }
    }

    /** Forces every tracked scenario's flag to the ledger's latest decision about it. */
    method Reconcile(latest: map<string, Action>)
      requires forall k :: LastVerdict(decisions, k) == if k in latest then Some(latest[k]) else None
      modifies this`scenarios
      ensures scenarios == Reconciled(old(scenarios), decisions)
    {
      hide LastVerdict;
      ghost var before := scenarios;
      var left := latest.Keys;
      while left != {}
        invariant left <= latest.Keys && scenarios.Keys == before.Keys
        invariant forall k :: k in left && k in scenarios ==> scenarios[k] == before[k]
        invariant forall k :: k in scenarios && k !in left ==> scenarios[k] == Reconciled(before, decisions)[k]
        decreases |left|
      {
        var key :| key in left;
        if key in scenarios {
          var entry, verdict := scenarios[key], latest[key] == Action.Quarantine;
          if entry.quarantined != verdict {
            scenarios := scenarios[key := entry.(quarantined := verdict)];
          }
        }
        left := left - {key};
      }
      assert scenarios == Reconciled(before, decisions);
    }

    /** Reads both files, lets the ledger win, then caps it. */
    method Reload(files: Book)
      modifies this
      ensures State() == Loaded(files)
    {
      scenarios, keys, decisions := files.scenarios, files.keys, files.decisions;
      var latest := EffectiveDecisionMap();
      Reconcile(latest);
      CapDecisionsLedger();
    }

    method EvictLeastRecentlyUsed()
      requires Enumerates(State())
      modifies this`scenarios, this`keys
      ensures State() == Evicted(old(State()))
    {
      ghost var before := State();
      var overflow := |scenarios| - MAX_TRACKED_SCENARIOS;
      if overflow <= 0 {
        WithoutNothing(keys);
        assert scenarios - Elements([]) == scenarios;
        return;
      }
      var latest := EffectiveDecisionMap();
      var unprotected: seq<string> := [];
      for i := 0 to |keys|
        invariant unprotected == Unprotected(before, keys[..i])
      {
        var key := keys[i];
        assert keys[..i + 1][..i] == keys[..i];
        var isProtected := (key in scenarios && scenarios[key].quarantined) ||
          (key in latest && latest[key] == Action.Quarantine);
        if !isProtected { unprotected := unprotected + [key]; }
      }
      assert keys[..|keys|] == keys;
      var victims := ByAge(State(), unprotected);
      if overflow < |victims| { victims := victims[..overflow]; }
      assert victims == Victims(before);
      DeleteAll(victims);
    }

    method DeleteAll(victims: seq<string>)
      modifies this`scenarios, this`keys
      ensures scenarios == old(scenarios) - Elements(victims)
      ensures keys == Without(old(keys), victims)
    {
      WithoutNothing(keys);
      assert scenarios - Elements([]) == scenarios;
      for i := 0 to |victims|
        invariant scenarios == old(scenarios) - Elements(victims[..i])
        invariant keys == Without(old(keys), victims[..i])
      {
        assert victims[..i + 1] == victims[..i] + [victims[i]];
        assert Elements(victims[..i + 1]) == Elements(victims[..i]) + {victims[i]};
        WithoutStep(old(keys), victims[..i], victims[i]);
        scenarios := scenarios - {victims[i]};
        keys := Without(keys, [victims[i]]);
      }
      assert victims[..|victims|] == victims;
    }

    method SetScenario(key: string, e: Entry)
      modifies this`scenarios, this`keys
      ensures State() == Put(old(State()), key, e)
    {
      if key !in scenarios { keys := keys + [key]; }
      scenarios := scenarios[key := e];
    }

    /** Returns the new entry and whether the scenario has just turned flaky. */
    method Record(key: string, reported: Reported, now: int) returns (entry: Option<Entry>, enteringFlaky: bool)
      requires Enumerates(State())
      modifies this
      ensures State() == Recorded(old(State()), key, reported, now)
      ensures entry ==
        if reported == ReportedOther then None else Some(NewEntry(Find(old(State()), key), reported, now))
      ensures enteringFlaky <==>
        (entry.Some? && entry.value.verdict.kind == Flaky &&
         !(old(Find(State(), key)).Some? && old(Find(State(), key)).value.verdict.kind == Flaky))
    {
      hide Evicted, Enumerates, Classify, LastN;
      if reported == ReportedOther { return None, false; }
      var existing := Find(State(), key);
      var e := NewEntry(existing, reported, now);
      PutEnumerates(State(), key, e);
      SetScenario(key, e);
      EvictLeastRecentlyUsed();
      return Some(e), e.verdict.kind == Flaky && !(existing.Some? && existing.value.verdict.kind == Flaky);
    }

    /**
     Refused exactly for a tracked, not yet quarantined scenario without a retained pass. Otherwise a tracked scenario
     is quarantined from now on, unless it was before, and the decision becomes the ledger's latest row.
     */
    method Quarantine(key: string, now: int) returns (outcome: Outcome)
      modifies this
      ensures State() == Quarantining(old(State()), key, now)
      ensures keys == old(keys)
      ensures outcome.Untracked? <==> key !in old(scenarios)
      ensures outcome.Refused? <==>
        (key in old(scenarios) && !old(scenarios)[key].quarantined &&
         forall i :: 0 <= i < |old(scenarios)[key].history| ==> old(scenarios)[key].history[i].status != Passed)
      ensures !outcome.Applied? || old(scenarios)[key].quarantined ==>
        scenarios == old(scenarios) && decisions == old(decisions)
      ensures outcome.Applied? && !old(scenarios)[key].quarantined ==>
        (scenarios ==
           old(scenarios)[key := old(scenarios)[key].(quarantined := true, quarantinedAt := At(now))] &&
         DecisionAdded(old(decisions), decisions, Decision(key, Action.Quarantine)))
      ensures outcome.Applied? ==> Held(State(), key) && scenarios[key] == outcome.entry
    {
      if key !in scenarios { return Untracked; }
      var e := scenarios[key];
      if e.quarantined { return Applied(e); }
      var passed := false;
      for i := 0 to |e.history|
        invariant passed <==> exists j :: 0 <= j < i && e.history[j].status == Passed
      {
        if e.history[i].status == Passed { passed := true; }
      }
      if !passed { return Refused(e); }
      e := e.(quarantined := true, quarantinedAt := At(now));
      SetScenario(key, e);
      decisions := decisions + [Decision(key, Action.Quarantine)];
      CapDecisionsLedger();
      outcome := Applied(e);
    }

    /** Nothing happens unless the scenario is quarantined; releasing a flaky one starts a new review period. */
    method Unquarantine(key: string, now: int) returns (entry: Option<Entry>)
      modifies this
      ensures State() == Unquarantining(old(State()), key, now)
      ensures keys == old(keys)
      ensures entry.Some? <==> key in old(scenarios) && old(scenarios)[key].quarantined
      ensures entry == None ==> scenarios == old(scenarios) && decisions == old(decisions)
      ensures entry.Some? ==>
        var e := old(scenarios)[key];
        entry.value == e.(quarantined := false, quarantinedAt := Missing,
                          flakySince := if e.verdict.kind == Flaky then At(now) else e.flakySince) &&
        scenarios == old(scenarios)[key := entry.value] &&
        DecisionAdded(old(decisions), decisions, Decision(key, Action.Unquarantine))
    {
      if key !in scenarios || !scenarios[key].quarantined { return None; }
      var e := scenarios[key].(quarantined := false, quarantinedAt := Missing);
      if e.verdict.kind == Flaky { e := e.(flakySince := At(now)); }
      SetScenario(key, e);
      decisions := decisions + [Decision(key, Action.Unquarantine)];
      CapDecisionsLedger();
      entry := Some(e);
    }

    method RehabilitationCandidates(windowSize: nat) returns (candidates: seq<string>)
      requires Enumerates(State())
      ensures forall k :: k in candidates <==> k in scenarios && IsCandidate(scenarios[k], windowSize)
    {
      candidates := [];
      for i := 0 to |keys|
        invariant forall k :: k in candidates <==> k in keys[..i] && IsCandidate(scenarios[k], windowSize)
      {
        assert keys[..i + 1] == keys[..i] + [keys[i]];
        if IsCandidate(scenarios[keys[i]], windowSize) { candidates := candidates + [keys[i]]; }
      }
      assert keys[..|keys|] == keys;
    }
  }
}
