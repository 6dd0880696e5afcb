/**
 What is assumed of the abstract codec can be met: a toy codec that satisfies
 every assumption, and ledgers that meet the hypotheses of the main theorems
 under it.
 */
module LedgerWitness {
  import opened Options
  import opened Ledger
  import opened EventReader
  import opened EventLog
  import opened CheckpointText
  import opened Checkpoint
  import opened CheckpointSafety

  // ---------------------------------------------------------------------
  // An injective text for every event
  // ---------------------------------------------------------------------

  function Ones(n: nat): (bs: Bytes)
    ensures |bs| == n && forall i :: 0 <= i < n ==> bs[i] == 1
  {
    if n == 0 then [] else Ones(n - 1) + [1]
  }

  /** A list of numbers, each in unary with an end mark. */
  function Numbers(ns: seq<nat>): Bytes {
    if ns == [] then [] else Numbers(ns[..|ns| - 1]) + Ones(ns[|ns| - 1]) + [2]
  }

  lemma {:induction false} NumbersAreMarked(ns: seq<nat>)
    ensures forall b :: b in Numbers(ns) ==> b == 1 || b == 2
    ensures Numbers(ns) == [] <==> ns == []
    ensures ns != [] ==> Numbers(ns)[|Numbers(ns)| - 1] == 2
  {
    if ns != [] { NumbersAreMarked(ns[..|ns| - 1]); }
  }

  lemma {:induction false} NotShorter(x: Bytes, m: nat, y: Bytes, n: nat)
    requires x + Ones(m) + [2] == y + Ones(n) + [2] && (x == [] || x[|x| - 1] == 2)
    ensures n <= m
  {
    var l, r := x + Ones(m) + [2], y + Ones(n) + [2];
    assert x != [] ==> l[|x| - 1] == 2;
    assert forall i :: |y| <= i < |r| - 1 ==> r[i] == 1;
  }

  lemma {:induction false} LastNumber(x: Bytes, m: nat, y: Bytes, n: nat)
    requires x + Ones(m) + [2] == y + Ones(n) + [2]
    requires (x == [] || x[|x| - 1] == 2) && (y == [] || y[|y| - 1] == 2)
    ensures x == y && m == n
  {
    NotShorter(x, m, y, n);
    NotShorter(y, n, x, m);
    assert x == (x + Ones(m) + [2])[..|x|] && y == (y + Ones(n) + [2])[..|y|];
  }

  lemma {:induction false} NumbersInjective(a: seq<nat>, b: seq<nat>)
    requires Numbers(a) == Numbers(b)
    ensures a == b
  {
    NumbersAreMarked(a);
    NumbersAreMarked(b);
    if a != [] {
      var a', b' := a[..|a| - 1], b[..|b| - 1];
      NumbersAreMarked(a');
      NumbersAreMarked(b');
      LastNumber(Numbers(a'), a[|a| - 1], Numbers(b'), b[|b| - 1]);
      NumbersInjective(a', b');
      assert a == a' + [a[|a| - 1]] && b == b' + [b[|b| - 1]];
    }
  }

  function Str(s: string): (ns: seq<nat>)
    ensures |ns| == |s| + 1 && ns[0] == |s| && forall i :: 0 <= i < |s| ==> ns[i + 1] == s[i] as int
  {
    [|s|] + seq(|s|, i requires 0 <= i < |s| => s[i] as int)
  }

  function Strs(texts: seq<string>): seq<nat> {
    if texts == [] then [] else Str(texts[0]) + Strs(texts[1..])
  }

  lemma {:induction false} StrSplits(s: string, x: seq<nat>, t: string, y: seq<nat>)
    requires Str(s) + x == Str(t) + y
    ensures s == t && x == y
  {
    var l, r := Str(s) + x, Str(t) + y;
    assert l[0] == |s| && r[0] == |t|;
    forall i | 0 <= i < |s| ensures s[i] == t[i] {
      assert l[i + 1] == s[i] as int && r[i + 1] == t[i] as int;
    }
    assert x == l[|s| + 1..] && y == r[|t| + 1..];
  }

  lemma {:induction false} StrsInjective(a: seq<string>, b: seq<string>)
    requires |a| == |b| && Strs(a) == Strs(b)
    ensures a == b
  {
    if a != [] {
      StrSplits(a[0], Strs(a[1..]), b[0], Strs(b[1..]));
      StrsInjective(a[1..], b[1..]);
      assert a == [a[0]] + a[1..] && b == [b[0]] + b[1..];
    }
  }

  function Rank(t: EventType): nat {
    match t
    case RunStarted => 0
    case RunCompleted => 1
    case DispatchCreated => 2
    case AgentStarted => 3
    case AgentCompleted => 4
    case PacketReturned => 5
    case PacketRouted => 6
    case TaskBlocked => 7
    case RetryScheduled => 8
    case EvidenceAdded => 9
    case RevisionChanged => 10
    case VerdictInvalidated => 11
    case ReviewVerdict => 12
    case ReleaseVerdict => 13
  }

  function Head(e: Event): seq<nat> {
    [if e.seqNo < 0 then 1 else 0,
     if e.seqNo < 0 then -e.seqNo else e.seqNo,
     Rank(e.fields.etype),
     |e.fields.invalidates|]
  }

  function Texts(e: Event): seq<string> {
    var f := e.fields;
    [e.eventId, e.prevHash, e.ts, f.taskId, f.targetRevision, f.verdict, f.rest] + f.invalidates
  }

  /** Everything in the event as numbers in unary, and an end mark that occurs nowhere else. */
  function Encode(e: Event): Bytes {
    Numbers(Head(e) + Strs(Texts(e))) + [3]
  }

  lemma SplitAtFour(h: seq<nat>, x: seq<nat>, h': seq<nat>, x': seq<nat>)
    requires |h| == |h'| == 4 && h + x == h' + x'
    ensures h == h' && x == x'
  {
    assert h == (h + x)[..4] == (h' + x')[..4] == h';
    assert x == (h + x)[4..] == (h' + x')[4..] == x';
  }

  lemma SameHead(a: Event, b: Event)
    requires Head(a) == Head(b)
    ensures a.seqNo == b.seqNo && a.fields.etype == b.fields.etype && |a.fields.invalidates| == |b.fields.invalidates|
  {
    assert Head(a)[0] == Head(b)[0] && Head(a)[1] == Head(b)[1] && Head(a)[2] == Head(b)[2] && Head(a)[3] == Head(b)[3];
  }

  lemma SameNumbers(a: Event, b: Event)
    requires Encode(a) == Encode(b)
    ensures Numbers(Head(a) + Strs(Texts(a))) == Numbers(Head(b) + Strs(Texts(b)))
  {
    hide Numbers, Head, Strs, Texts;
    assert Encode(a)[..|Encode(a)| - 1] == Encode(b)[..|Encode(b)| - 1];
  }

  lemma {:induction false} EncodeInjective(a: Event, b: Event)
    requires Encode(a) == Encode(b)
    ensures a == b
  {
    SameNumbers(a, b);
    hide Encode, Numbers, Strs;
    NumbersInjective(Head(a) + Strs(Texts(a)), Head(b) + Strs(Texts(b)));
    SplitAtFour(Head(a), Strs(Texts(a)), Head(b), Strs(Texts(b)));
    SameHead(a, b);
    StrsInjective(Texts(a), Texts(b));
    SameTexts(a, b);
  }

  lemma SameTexts(a: Event, b: Event)
    requires Texts(a) == Texts(b) && a.seqNo == b.seqNo && a.fields.etype == b.fields.etype
    ensures a == b
  {
    var s, t := Texts(a), Texts(b);
    assert s[0] == t[0] && s[1] == t[1] && s[2] == t[2] && s[3] == t[3] && s[4] == t[4] && s[5] == t[5] && s[6] == t[6];
    assert a.fields.invalidates == s[7..] == t[7..] == b.fields.invalidates;
  }

  lemma {:induction false} EncodeEnds(e: Event)
    ensures |Encode(e)| > 1 && Encode(e)[|Encode(e)| - 1] == 3 && NEWLINE !in Encode(e)
    ensures forall i :: 0 <= i < |Encode(e)| - 1 ==> Encode(e)[i] != 3
  {
    var x := Numbers(Head(e) + Strs(Texts(e)));
    NumbersAreMarked(Head(e) + Strs(Texts(e)));
    assert Encode(e) == x + [3];
    forall i | 0 <= i < |x| ensures x[i] != 3 && x[i] != NEWLINE { assert x[i] in x; }
  }

  // ---------------------------------------------------------------------
  // The toy codec
  // ---------------------------------------------------------------------

  ghost function DecodeLine(l: Bytes): Option<Event> {
    if exists e :: Encode(e) == l then
      var e :| Encode(e) == l;
      Some(e)
    else None
  }

  ghost function SeqOf(l: Bytes): Option<int> {
    match DecodeLine(l)
    case None => None
    case Some(e) => Some(e.seqNo)
  }

  /** 64 digits, n of them "1" if n is not too large. */
  function Bars(n: int): (s: string)
    ensures |s| == 64 && forall i :: 0 <= i < 64 ==> s[i] == if i < n then '1' else '0'
  {
    seq(64, i => if i < n then '1' else '0')
  }

  ghost function ToyHash(l: Bytes): string {
    match SeqOf(l)
    case None => GENESIS
    case Some(n) => Bars(n)
  }

  ghost function Toy(): Codec {
    Codec(
      (l: Bytes) => ToyHash(l),
      (e: Event) => true,
      (f: Fields) => true,
      (e: Event) => Encode(e),
      (l: Bytes) => if |l| > LINE_MAX_BYTES then None else DecodeLine(l),
      (l: Bytes) => SeqOf(l))
  }

  lemma {:induction false} Decodes(e: Event)
    ensures DecodeLine(Encode(e)) == Some(e)
  {
    forall other | Encode(other) == Encode(e) ensures other == e { EncodeInjective(other, e); }
  }

  lemma {:induction false} PrefixDecodesNot(e: Event, f: Bytes)
    requires IsStrictPrefix(f, Encode(e))
    ensures DecodeLine(f) == None
  {
    hide Encode;
    EncodeEnds(e);
    assert f != [] ==> f[|f| - 1] == Encode(e)[|f| - 1];
    forall other ensures Encode(other) != f { EncodeEnds(other); }
  }

  lemma {:induction false} ToyIsSound()
    ensures Toy().Sound() && TextDeterminesEvent(Toy())
  {
    var c := Toy();
    hide Encode, DecodeLine, Ones, Bars;
    forall e ensures DecodeLine(Encode(e)) == Some(e) && NEWLINE !in Encode(e) && |Encode(e)| > 0 {
      Decodes(e);
      EncodeEnds(e);
    }
    forall e, f {:trigger IsStrictPrefix(f, c.stringify(e))} | IsStrictPrefix(f, c.stringify(e))
      ensures DecodeLine(f) == None
    {
      PrefixDecodesNot(e, f);
    }
    forall a, b | c.stringify(a) == c.stringify(b) ensures a == b { EncodeInjective(a, b); }
  }

  ghost function ToyTools(): Tools {
    Tools(Toy(), (s: string) => GENESIS, (s: string) => s)
  }

  lemma {:induction false} ToyToolsAreSound()
    ensures ToyTools().Sound()
  {
    ToyIsSound();
    hide Codec.Sound, SeqOf;
    forall l ensures Hex(ToyHash(l), 64) {}
    assert Hex(GENESIS, 64);
  }

  // ---------------------------------------------------------------------
  // Records short enough to be written
  // ---------------------------------------------------------------------

  lemma Assoc(a: Bytes, b: Bytes, c: Bytes, d: Bytes)
    ensures a + b + c + d == a + (b + c + d)
  {
  }

  lemma {:induction false} NumbersConcat(a: seq<nat>, b: seq<nat>)
    ensures Numbers(a + b) == Numbers(a) + Numbers(b)
  {
    hide Ones;
    if b == [] {
      assert a + b == a;
    } else {
      var init, last := b[..|b| - 1], b[|b| - 1];
      NumbersConcat(a, init);
      assert (a + b)[..|a + b| - 1] == a + init;
      assert Numbers(a + b) == Numbers(a + init) + Ones(last) + [2] && Numbers(b) == Numbers(init) + Ones(last) + [2];
      hide Numbers;
      Assoc(Numbers(a), Numbers(init), Ones(last), [2]);
    }
  }

  lemma {:induction false} NumbersLength(ns: seq<nat>, most: nat)
    requires forall i :: 0 <= i < |ns| ==> ns[i] <= most
    ensures |Numbers(ns)| <= |ns| * (most + 1)
  {
    if ns != [] {
      NumbersLength(ns[..|ns| - 1], most);
      assert |ns| * (most + 1) == (|ns| - 1) * (most + 1) + (most + 1);
    }
  }

  lemma {:induction false} StrsLength(texts: seq<string>)
    requires texts != []
    ensures |Numbers(Strs(texts))| == |Numbers(Str(texts[0]))| + |Numbers(Strs(texts[1..]))|
  {
    NumbersConcat(Str(texts[0]), Strs(texts[1..]));
  }

  function Draft(): Fields {
    Fields(RunStarted, "", "", "", [], "")
  }

  lemma {:induction false} HashLength(s: string)
    requires |s| == 64 && forall i :: 0 <= i < 64 ==> s[i] <= '1'
    ensures |Numbers(Str(s))| <= 3400
  {
    var cs := Str(s)[1..];
    assert Str(s) == [64] + cs;
    NumbersConcat([64], cs);
    NumbersLength([64], 64);
    assert forall i :: 0 <= i < 64 ==> cs[i] == s[i] as int;
    NumbersLength(cs, 50);
  }

  lemma {:induction false} EmptyLength(texts: seq<string>)
    requires forall i :: 0 <= i < |texts| ==> texts[i] == ""
    ensures |Numbers(Strs(texts))| <= |texts|
  {
    if texts != [] {
      EmptyLength(texts[1..]);
      StrsLength(texts);
      NumbersLength(Str(""), 0);
    }
  }

  lemma {:induction false} TwoTexts(id: string, hash: string, rest: seq<string>)
    ensures |Numbers(Strs([id, hash] + rest))| == |Numbers(Str(id))| + |Numbers(Str(hash))| + |Numbers(Strs(rest))|
  {
    hide Numbers, Str, Strs;
    var t := [id, hash] + rest;
    StrsLength(t);
    StrsLength(t[1..]);
    assert t[1..][1..] == rest;
  }

  /** An event with an id of one small letter and a hash of 64 binary digits fits a line. */
  lemma {:induction false} ShortLine(e: Event)
    requires e.fields == Draft() && e.ts == "" && |e.eventId| == 1 && e.eventId[0] <= 'z' && 0 <= e.seqNo <= 2
    requires |e.prevHash| == 64 && forall i :: 0 <= i < 64 ==> e.prevHash[i] <= '1'
    ensures |Encode(e)| <= 3900
  {
    hide Strs, Numbers;
    var empty := ["", "", "", "", ""];
    assert Texts(e) == [e.eventId, e.prevHash] + empty;
    assert Head(e) == [0, e.seqNo, 0, 0];
    NumbersConcat(Head(e), Strs(Texts(e)));
    NumbersLength(Head(e), 2);
    NumbersLength(Str(e.eventId), 128);
    hide Str, Texts, Head;
    TwoTexts(e.eventId, e.prevHash, empty);
    HashLength(e.prevHash);
    EmptyLength(empty);
  }

  // ---------------------------------------------------------------------
  // Ledgers
  // ---------------------------------------------------------------------

  function Id(name: string): Stamp {
    Stamp(name, "")
  }

  lemma HashIsBinary(l: Bytes)
    ensures |ToyHash(l)| == 64 && forall i :: 0 <= i < 64 ==> ToyHash(l)[i] <= '1'
  {
    hide SeqOf;
  }

  lemma {:induction false} LinkIsBinary(es: seq<Event>)
    ensures |LinkAfter(Toy(), es)| == 64 && forall i :: 0 <= i < 64 ==> LinkAfter(Toy(), es)[i] <= '1'
  {
    if es != [] {
      HashIsBinary(Toy().stringify(es[|es| - 1]));
      hide ToyHash;
    }
  }

  lemma {:induction false} ToyCandidate(file: Bytes, ps: seq<Piece>, torn: Bytes, id: string)
    requires Healthy(Toy(), file, ps, torn)
    ensures Candidate(Toy(), TailOf(file), Draft(), Id(id))
      == Event(id, |Committed(ps)| + 1, LinkAfter(Toy(), Committed(ps)), "", Draft())
    ensures TailOf(file).size == |file|
  {
    ToyIsSound();
    hide Healthy, Committed, LinkAfter, ParseLastLine, Toy, Codec.Sound;
    TailOfHealthy(Toy(), file, ps, torn);
    hide TailOf;
  }

  /** The first two records can be written. */
  lemma {:induction false} ToyWrites(file: Bytes, ps: seq<Piece>, torn: Bytes, id: string)
    requires Healthy(Toy(), file, ps, torn) && |Committed(ps)| <= 1 && |file| <= 8000 && |id| == 1 && id[0] <= 'z'
    ensures Prepare(Toy(), TailOf(file), Draft(), Id(id)).Write?
    ensures |Prepare(Toy(), TailOf(file), Draft(), Id(id)).bytes| <= 3902
  {
    hide Healthy, Committed, TailOf, LinkAfter, Encode, Candidate;
    ToyCandidate(file, ps, torn, id);
    LinkIsBinary(Committed(ps));
    ShortLine(Candidate(Toy(), TailOf(file), Draft(), Id(id)));
  }

  lemma EmptyIsHealthy(c: Codec)
    ensures Healthy(c, [], [], [])
  {
    assert Render(LinesOf(c, [])) + [] == [];
  }

  /** The hypotheses of `TornWriteRecovery` can be met, with a cut inside the line. */
  lemma {:induction false} TornWriteCanHappen()
    returns (c: Codec, file: Bytes, d: Fields, s1: Stamp, e1: Event, k: nat, s2: Stamp, e2: Event)
    ensures c.Sound() && Healthy(c, file, [], []) && s1.eventId != s2.eventId
    ensures Appends(c, file, d, s1, e1) && 0 < k < |c.stringify(e1)|
    ensures Appends(c, file + RecordBytes(c, [], e1)[..k], d, s2, e2)
  {
    c, file, d, s1, k, s2 := Toy(), [], Draft(), Id("a"), 1, Id("b");
    ToyIsSound();
    EmptyIsHealthy(c);
    hide Healthy, TailOf, Codec.Sound, Links, Ids, Encode;
    assert Committed([]) == [];
    ToyWrites(file, [], [], "a");
    e1 := Prepare(c, TailOf(file), d, s1).event;
    EncodeEnds(e1);
    assert Ids([]) == {} by { NoIds(); }
    PreparedLinks(c, file, [], [], d, s1);
    TearHealthy(c, file, [], e1, k);
    var torn := file + RecordBytes(c, [], e1)[..k];
    ToyWrites(torn, [], c.stringify(e1)[..k], "b");
    e2 := Prepare(c, TailOf(torn), d, s2).event;
  }

  lemma NoIds()
    ensures Ids([]) == {} && Committed([]) == [] && Ids(Committed([])) == {}
  {
  }

  lemma {:induction false} OneMore(file: Bytes, ps: seq<Piece>, id: string) returns (bytes: Bytes, e: Event)
    requires Healthy(Toy(), file, ps, []) && |Committed(ps)| <= 1 && |file| <= 8000 && |id| == 1 && id[0] <= 'z'
    requires id !in Ids(Committed(ps))
    ensures Healthy(Toy(), file + bytes, ps + [Good(e)], []) && |bytes| <= 3902
    ensures e.seqNo == |Committed(ps)| + 1 && e.eventId == id
  {
    ToyIsSound();
    ToyWrites(file, ps, [], id);
    assert Toy().redactOk(Draft());
    hide Healthy, TailOf, Codec.Sound, Committed, Ids, Prepare, Toy, LinkAfter, Links;
    var w := Prepare(Toy(), TailOf(file), Draft(), Id(id));
    bytes, e := w.bytes, w.event;
    PreparedLinks(Toy(), file, ps, [], Draft(), Id(id));
    AppendKeepsHealth(Toy(), file, ps, [], Draft(), Id(id));
  }

  /** A ledger of two records, and the one record it began with. */
  lemma {:induction false} TwoRecords() returns (ledger: Bytes, more: Bytes, e1: Event, e2: Event)
    ensures Healthy(Toy(), ledger, [Good(e1)], []) && Healthy(Toy(), ledger + more, [Good(e1), Good(e2)], [])
    ensures e1.seqNo == 1 && e2.seqNo == 2
  {
    EmptyIsHealthy(Toy());
    NoIds();
    hide Healthy, Toy, Committed, Ids;
    ledger, e1 := OneMore([], [], "a");
    assert [] + ledger == ledger && [] + [Good(e1)] == [Good(e1)];
    OneCommitted(e1);
    more, e2 := OneMore(ledger, [Good(e1)], "b");
    assert [Good(e1)] + [Good(e2)] == [Good(e1), Good(e2)];
  }

  lemma OneCommitted(e: Event)
    ensures Committed([Good(e)]) == [e] && Ids([e]) == {e.eventId}
  {
  }

  lemma {:induction false} GoodPieces(e1: Event, e2: Event)
    ensures Committed([Good(e1)]) == [e1] && Committed([Good(e1), Good(e2)]) == [e1, e2]
    ensures CountTorn([Good(e1)]) == 0 && CountTorn([Good(e1), Good(e2)]) == 0
    ensures LinesOf(Toy(), [Good(e1)]) == [Encode(e1)] &&
      LinesOf(Toy(), [Good(e1), Good(e2)]) == [Encode(e1), Encode(e2)]
  {
    hide Encode;
    assert [Good(e1), Good(e2)][..1] == [Good(e1)] && [Good(e1)][..0] == [];
    assert Committed([Good(e1)]) == Committed([]) + [e1] &&
      LinesOf(Toy(), [Good(e1)]) == LinesOf(Toy(), []) + [Encode(e1)];
  }

  lemma {:induction false} HashesDiffer(e1: Event, e2: Event)
    requires e1.seqNo == 1 && e2.seqNo == 2
    ensures Toy().hash(Encode(e1)) != Toy().hash(Encode(e2))
  {
    Decodes(e1);
    Decodes(e2);
    hide Encode, DecodeLine;
    assert Bars(1)[1] == '0' && Bars(2)[1] == '1';
  }

  lemma {:induction false} TextsOfLedger(file: Bytes, ps: seq<Piece>, texts: set<Bytes>)
    requires Healthy(Toy(), file, ps, []) && forall l :: l in LinesOf(Toy(), ps) ==> l in texts
    requires forall e :: e in Committed(ps) ==> Encode(e) in texts
    ensures Hashed(Toy(), file) <= texts
  {
    ToyIsSound();
    hide Healthy, ReadFile, Codec.Sound, Encode, Committed, LinesOf, Split;
    HealthyReadsClean(Toy(), file, ps, []);
    SplitHealthy(Toy(), file, ps, []);
  }

  lemma {:induction false} NothingCollides(recorded: Bytes, now: Bytes, e1: Event, e2: Event)
    requires e1.seqNo == 1 && e2.seqNo == 2
    requires Healthy(Toy(), recorded, [Good(e1)], []) && Healthy(Toy(), now, [Good(e1), Good(e2)], [])
    ensures NoCollision(Toy(), Hashed(Toy(), recorded) + Hashed(Toy(), now))
  {
    hide Healthy, Encode, Hashed, Toy;
    var texts := {Encode(e1), Encode(e2)};
    GoodPieces(e1, e2);
    HashesDiffer(e1, e2);
    TextsOfLedger(recorded, [Good(e1)], texts);
    TextsOfLedger(now, [Good(e1), Good(e2)], texts);
  }

  /** The hypotheses of `WrittenCheckpointPinsPrefix` can be met, on a ledger that has grown since. */
  lemma {:induction false} CheckpointCanPass()
    returns (t: Tools, recorded: Bytes, now: Bytes, runId: string, requested: Option<string>, git: Git,
             generatedAt: string, body: Levels -> string)
    ensures t.Sound() && KnownContext(runId, requested, git) && Plain(generatedAt)
    ensures NoCollision(t.codec, Hashed(t.codec, recorded) + Hashed(t.codec, now)) && TextDeterminesEvent(t.codec)
    ensures Generate(t, Some(recorded), runId, requested, git, generatedAt, body).Written?
    ensures Verify(t, Text(Generate(t, Some(recorded), runId, requested, git, generatedAt, body).text), Some(now),
                   runId, requested, git) in {0, 6}
    ensures |ReadFile(t.codec, recorded).events| == 1 && |ReadFile(t.codec, now).events| == 2
  {
    t, runId, requested, git := ToyTools(), "r", Some("aaaaaaa"), Git("", "NOT_COMPUTED");
    generatedAt, body := "", _ => "";
    ToyIsSound();
    ToyToolsAreSound();
    ContextIsKnown();
    var ledger, more, e1, e2 := TwoRecords();
    recorded, now := ledger, ledger + more;
    GoodPieces(e1, e2);
    hide Healthy, ReadFile, Generate, Verify, Codec.Sound, Tools.Sound, KnownContext, Plain, Committed, CountTorn, Toy,
         NoCollision, Hashed, TextDeterminesEvent;
    HealthyReadsClean(Toy(), recorded, [Good(e1)], []);
    HealthyReadsClean(Toy(), now, [Good(e1), Good(e2)], []);
    NothingCollides(recorded, now, e1, e2);
    FreshCheckpointVerifiesIff(t, ledger, more, runId, requested, git, generatedAt, body);
  }

  lemma ContextIsKnown()
    ensures KnownContext("r", Some("aaaaaaa"), Git("", "NOT_COMPUTED")) && Plain("")
  {
    RevisionIsPlain();
    hide CurrentRevision;
  }

  lemma RevisionIsPlain()
    ensures CurrentRevision(Some("aaaaaaa"), Git("", "NOT_COMPUTED")) == Some("aaaaaaa")
  {
    assert BaseOf("aaaaaaa") == "aaaaaaa" by { assert "aaaaaaa"[1..] != DIRTY; }
  }
}
