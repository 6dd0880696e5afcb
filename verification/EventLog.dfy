/**
 The write side of the ledger: what one append does inside the lock, and what
 a write that was cut short leaves for the next append to repair.
 */
module EventLog {
  import opened Options
  import opened Ledger
  import opened EventReader

  /** What readTailState learns from the last 64 KiB; a missing file is an empty one. */
  datatype Tail = Tail(size: nat, endsWithNewline: bool, lastLine: Option<Bytes>)

  function TailOf(file: Bytes): Tail {
    var readLen := if READ_TAIL_BYTES <= |file| then READ_TAIL_BYTES else |file|;
    var p := Split(file[|file| - readLen..]);
    Tail(|file|, p.rest == [], if p.lines == [] then None else Some(p.lines[|p.lines| - 1]))
  }

  /** parseLastLine: the sequence number and hash the next event links to. */
  function ParseLastLine(c: Codec, lastLine: Option<Bytes>): (int, string) {
    match lastLine
    case None => (0, GENESIS)
    case Some(line) =>
      if line == [] then (0, GENESIS)
      else match c.parseSeq(line)
        case None => (0, GENESIS)
        case Some(n) => (n, c.hash(line))
  }

  datatype Stamp = Stamp(eventId: string, ts: string)

  datatype ErrorCode = RedactRefused | LedgerFull | SchemaInvalid | LineTooLarge

  datatype Prepared = Write(bytes: Bytes, event: Event) | Refuse(code: ErrorCode)

  function Candidate(c: Codec, tail: Tail, draft: Fields, stamp: Stamp): Event {
    var (lastSeq, prevHash) := ParseLastLine(c, tail.lastLine);
    Event(stamp.eventId, lastSeq + 1, prevHash, stamp.ts, draft)
  }

  /** Everything appendEvent decides between reading the tail and writing. */
  function Prepare(c: Codec, tail: Tail, draft: Fields, stamp: Stamp): Prepared {
    var e := Candidate(c, tail, draft, stamp);
    if e.seqNo > SEQ_MAX || tail.size > FILE_MAX_BYTES then Refuse(LedgerFull)
    else if !c.validates(e) then Refuse(SchemaInvalid)
    else if |c.stringify(e)| > LINE_MAX_BYTES then Refuse(LineTooLarge)
    else Write((if tail.endsWithNewline then [] else [NEWLINE]) + c.stringify(e) + [NEWLINE], e)
  }

  /** The file after one undisturbed append. */
  function Append(c: Codec, file: Bytes, draft: Fields, stamp: Stamp): Bytes {
    match Prepare(c, TailOf(file), draft, stamp)
    case Write(bytes, _) => file + bytes
    case Refuse(_) => file
  }

  datatype AppendResult = Appended(seqNo: int, eventId: string) | Failed(code: ErrorCode)

  /** What appendEvent answers. */
  function Answer(c: Codec, file: Bytes, draft: Fields, stamp: Stamp): AppendResult {
    if !c.redactOk(draft) then Failed(RedactRefused)
    else match Prepare(c, TailOf(file), draft, stamp)
      case Write(_, e) => Appended(e.seqNo, e.eventId)
      case Refuse(code) => Failed(code)
  }

  /** The complete lines of a text and what follows the last newline, as one list. */
  function SplitText(text: Bytes): (parts: seq<Bytes>)
    ensures |parts| > 0
  {
    Split(text).lines + [Split(text).rest]
  }

  /** The ledger file, as appendEvent works on it between taking and releasing the lock. */
  class LedgerFile {
    var bytes: Bytes

    constructor (content: Bytes)
      ensures bytes == content
    {
      bytes := content;
    }

    method ReadTailState() returns (tail: Tail)
      ensures tail == TailOf(bytes)
    {
      var size := |bytes|;
      if size == 0 {
        return Tail(0, true, None);
      }
      var readLen := if READ_TAIL_BYTES <= size then READ_TAIL_BYTES else size;
      var text := bytes[size - readLen..];
      var endsWithNewline := text[|text| - 1] == NEWLINE;
      var trimmed := if endsWithNewline then text[..|text| - 1] else text;
      SplitStep(text[..|text| - 1], text[|text| - 1]);
      assert text[..|text| - 1] + [text[|text| - 1]] == text;
      var lines := SplitText(trimmed);
      var lastLine := Some(lines[|lines| - 1]);
      if !endsWithNewline {
        // The last line is partial; the one before it exists only if there is a newline in the window.
        lastLine := if |lines| > 1 then Some(lines[|lines| - 2]) else None;
      }
      tail := Tail(size, endsWithNewline, lastLine);
    }

    method AppendEvent(c: Codec, draft: Fields, stamp: Stamp) returns (r: AppendResult)
      modifies this
      ensures bytes == if c.redactOk(draft) then Append(c, old(bytes), draft, stamp) else old(bytes)
      ensures r == Answer(c, old(bytes), draft, stamp)
      ensures r.Failed? ==> bytes == old(bytes)
    {
      if !c.redactOk(draft) {
        return Failed(RedactRefused);
      }
      var tail := ReadTailState();
      var repaired := !tail.endsWithNewline;
      var (lastSeq, prevHash) := ParseLastLine(c, tail.lastLine);
      var nextSeq := lastSeq + 1;
      if nextSeq > SEQ_MAX {
        return Failed(LedgerFull);
      }
      if tail.size > FILE_MAX_BYTES {
        return Failed(LedgerFull);
      }
      var candidate := Event(stamp.eventId, nextSeq, prevHash, stamp.ts, draft);
      if !c.validates(candidate) {
        return Failed(SchemaInvalid);
      }
      var line := c.stringify(candidate);
      if |line| > LINE_MAX_BYTES {
        return Failed(LineTooLarge);
      }
      var toWrite := line + [NEWLINE];
      if repaired {
        toWrite := [NEWLINE] + toWrite;
      }
      assert toWrite == (if repaired then [NEWLINE] else []) + line + [NEWLINE];
      bytes := bytes + toWrite;
      r := Appended(nextSeq, stamp.eventId);
    }
  }

  // ---------------------------------------------------------------------
  // Healthy ledgers
  // ---------------------------------------------------------------------

  /** A complete line of a healthy file: an event, or the remains of a torn write. */
  datatype Piece = Good(event: Event) | Torn(fragment: Bytes)

  function LineOf(c: Codec, p: Piece): Bytes {
    match p
    case Good(e) => c.stringify(e)
    case Torn(f) => f
  }

  function LinesOf(c: Codec, ps: seq<Piece>): seq<Bytes> {
    if ps == [] then [] else LinesOf(c, ps[..|ps| - 1]) + [LineOf(c, ps[|ps| - 1])]
  }

  function Committed(ps: seq<Piece>): seq<Event> {
    if ps == [] then []
    else Committed(ps[..|ps| - 1]) + (match ps[|ps| - 1] case Good(e) => [e] case Torn(_) => [])
  }

  function CountTorn(ps: seq<Piece>): nat {
    if ps == [] then 0 else CountTorn(ps[..|ps| - 1]) + if ps[|ps| - 1].Torn? then 1 else 0
  }

  function Ids(es: seq<Event>): set<string> {
    set e | e in es :: e.eventId
  }

  /** The hash the event after `es` must carry. */
  function LinkAfter(c: Codec, es: seq<Event>): string {
    if es == [] then GENESIS else c.hash(c.stringify(es[|es| - 1]))
  }

  /** `e` is a canonical event that extends the chain `es`. */
  ghost predicate Links(c: Codec, es: seq<Event>, e: Event) {
    && e.seqNo == |es| + 1
    && e.prevHash == LinkAfter(c, es)
    && e.eventId !in Ids(es)
    && c.Accept(c.stringify(e)) == Some(e)
  }

  /** An unbroken chain: seq is 1..n, each prevHash is the hash of the previous line, ids are fresh. */
  ghost predicate Chain(c: Codec, es: seq<Event>) {
    es == [] || (Chain(c, es[..|es| - 1]) && Links(c, es[..|es| - 1], es[|es| - 1]))
  }

  /** A nonempty strict prefix of a line the writer could have been writing. */
  ghost predicate IsFragment(c: Codec, f: Bytes) {
    f != [] && exists e :: |c.stringify(e)| <= LINE_MAX_BYTES && IsStrictPrefix(f, c.stringify(e))
  }

  ghost predicate OnlyFragmentsTorn(c: Codec, ps: seq<Piece>) {
    ps == [] || (OnlyFragmentsTorn(c, ps[..|ps| - 1]) && (ps[|ps| - 1].Torn? ==> IsFragment(c, ps[|ps| - 1].fragment)))
  }

  /** The last complete line is an event, or there is no event yet: either way the next append finds its link. */
  predicate EndsWell(ps: seq<Piece>) {
    Committed(ps) == [] || (ps != [] && ps[|ps| - 1].Good?)
  }

  /** `file` holds exactly the lines of `ps` and then `torn`, an unrepaired fragment or nothing. */
  ghost predicate Healthy(c: Codec, file: Bytes, ps: seq<Piece>, torn: Bytes) {
    && file == Render(LinesOf(c, ps)) + torn
    && EndsWell(ps)
    && Chain(c, Committed(ps))
    && OnlyFragmentsTorn(c, ps)
    && (torn == [] || IsFragment(c, torn))
  }

  /** The chain condition, link by link. */
  lemma {:induction false} ChainAt(c: Codec, es: seq<Event>, i: nat)
    requires Chain(c, es) && i < |es|
    ensures Chain(c, es[..i]) && Links(c, es[..i], es[i])
  {
    if i < |es| - 1 {
      ChainAt(c, es[..|es| - 1], i);
      assert es[..|es| - 1][..i] == es[..i];
    }
  }

  lemma {:induction false} FragmentFacts(c: Codec, f: Bytes)
    requires c.Sound() && IsFragment(c, f)
    ensures NEWLINE !in f && |f| < LINE_MAX_BYTES && c.Accept(f) == None && c.parseSeq(f) == None
  {
    var e :| |c.stringify(e)| <= LINE_MAX_BYTES && IsStrictPrefix(f, c.stringify(e));
    assert NEWLINE !in c.stringify(e);
  }

  lemma {:induction false} LinesArePlain(c: Codec, ps: seq<Piece>)
    requires c.Sound() && OnlyFragmentsTorn(c, ps)
    ensures NoNewlines(LinesOf(c, ps)) && |LinesOf(c, ps)| == |ps|
  {
    if ps != [] {
      var init, p := ps[..|ps| - 1], ps[|ps| - 1];
      LinesArePlain(c, init);
      if p.Torn? { FragmentFacts(c, p.fragment); }
    }
  }

  lemma {:induction false} SplitHealthy(c: Codec, file: Bytes, ps: seq<Piece>, torn: Bytes)
    requires c.Sound() && Healthy(c, file, ps, torn)
    ensures Split(file) == Pieces(LinesOf(c, ps), torn)
  {
    LinesArePlain(c, ps);
    if torn != [] { FragmentFacts(c, torn); }
    RenderSplit(LinesOf(c, ps), torn);
  }

  // ---------------------------------------------------------------------
  // The tail window
  // ---------------------------------------------------------------------

  /** Lines this short end inside the tail window, wherever the window starts. */
  lemma {:induction false} TailSeesLastLine(file: Bytes)
    requires var p := Split(file);
      (if p.lines == [] then 0 else |p.lines[|p.lines| - 1]| + 1) + |p.rest| < READ_TAIL_BYTES
    ensures var p := Split(file);
      TailOf(file) == Tail(|file|, p.rest == [], if p.lines == [] then None else Some(p.lines[|p.lines| - 1]))
  {
    if READ_TAIL_BYTES < |file| {
      var a, b := file[..|file| - READ_TAIL_BYTES], file[|file| - READ_TAIL_BYTES..];
      assert a + b == file;
      SplitConcat(a, b);
      SplitRender(b);
    } else {
      assert file[0..] == file;
    }
  }

  lemma {:induction false} LastLineLinks(c: Codec, ps: seq<Piece>)
    requires c.Sound() && Chain(c, Committed(ps)) && OnlyFragmentsTorn(c, ps) && EndsWell(ps)
    ensures var ls := LinesOf(c, ps);
      && (ls != [] ==> 0 < |ls[|ls| - 1]| <= LINE_MAX_BYTES)
      && ParseLastLine(c, if ls == [] then None else Some(ls[|ls| - 1]))
        == (|Committed(ps)|, LinkAfter(c, Committed(ps)))
  {
    if ps != [] {
      var es := Committed(ps);
      if ps[|ps| - 1].Good? {
        var e := ps[|ps| - 1].event;
        assert Links(c, es[..|es| - 1], e);
        assert c.Accept(c.stringify(e)) == Some(e);
      } else {
        FragmentFacts(c, ps[|ps| - 1].fragment);
      }
    }
  }

  /** On a healthy file the next append finds the true last event and links to it. */
  lemma {:induction false} TailOfHealthy(c: Codec, file: Bytes, ps: seq<Piece>, torn: Bytes)
    requires c.Sound() && Healthy(c, file, ps, torn)
    ensures TailOf(file).endsWithNewline == (torn == []) && TailOf(file).size == |file|
    ensures ParseLastLine(c, TailOf(file).lastLine) == (|Committed(ps)|, LinkAfter(c, Committed(ps)))
  {
    SplitHealthy(c, file, ps, torn);
    LastLineLinks(c, ps);
    if torn != [] { FragmentFacts(c, torn); }
    TailSeesLastLine(file);
  }

  /** The event an append to any file would write continues its last complete line, or starts over without one. */
  lemma {:induction false} CandidateIs(c: Codec, file: Bytes, draft: Fields, stamp: Stamp)
    requires var p := Split(file);
      (if p.lines == [] then 0 else |p.lines[|p.lines| - 1]| + 1) + |p.rest| < READ_TAIL_BYTES
    ensures var ls, e := Split(file).lines, Candidate(c, TailOf(file), draft, stamp);
      var usable := ls != [] && ls[|ls| - 1] != [] && c.parseSeq(ls[|ls| - 1]).Some?;
      e == if usable then
             Event(stamp.eventId, c.parseSeq(ls[|ls| - 1]).value + 1, c.hash(ls[|ls| - 1]), stamp.ts, draft)
           else Event(stamp.eventId, 1, Zeros(64), stamp.ts, draft)
  {
    TailSeesLastLine(file);
    hide TailOf, Split;
  }

  // ---------------------------------------------------------------------
  // Reading a healthy file
  // ---------------------------------------------------------------------

  /** The reader's state after the lines of an unbroken chain. */
  ghost predicate ReadsAs(c: Codec, st: ParseState, es: seq<Event>, torn: nat) {
    && st.events == es && st.seen == Ids(es) && st.lastSeq == |es| && st.prevHash == LinkAfter(c, es)
    && !st.tampered && st.firstBadSeq == None && |st.malformed| == torn
  }

  lemma {:induction false} ReadGood(c: Codec, st: ParseState, es: seq<Event>, torn: nat, e: Event)
    requires ReadsAs(c, st, es, torn) && Links(c, es, e)
    ensures ReadsAs(c, ReadLine(c, st, c.stringify(e)), es + [e], torn)
  {
    assert Ids(es + [e]) == Ids(es) + {e.eventId};
  }

  lemma {:induction false} ReadTorn(c: Codec, st: ParseState, es: seq<Event>, torn: nat, f: Bytes)
    requires ReadsAs(c, st, es, torn) && c.Accept(f) == None
    ensures ReadsAs(c, ReadLine(c, st, f), es, torn + 1)
  {
  }

  lemma {:induction false} ReadPieces(c: Codec, ps: seq<Piece>)
    requires c.Sound() && Chain(c, Committed(ps)) && OnlyFragmentsTorn(c, ps)
    ensures ReadsAs(c, ReadLines(c, INITIAL, LinesOf(c, ps)), Committed(ps), CountTorn(ps))
  {
    if ps != [] {
      var init, p := ps[..|ps| - 1], ps[|ps| - 1];
      assert LinesOf(c, ps)[..|LinesOf(c, ps)| - 1] == LinesOf(c, init);
      if p.Good? {
        var es := Committed(ps);
        assert es == Committed(init) + [p.event];
        assert es[..|es| - 1] == Committed(init) && es[|es| - 1] == p.event;
        ReadPieces(c, init);
        ReadGood(c, ReadLines(c, INITIAL, LinesOf(c, init)), Committed(init), CountTorn(init), p.event);
      } else {
        FragmentFacts(c, p.fragment);
        assert Committed(ps) == Committed(init);
        ReadPieces(c, init);
      }
    }
  }

  /** A healthy ledger reads back exactly: every event, no tampering, one malformed line per repaired fragment. */
  lemma {:induction false} HealthyReadsClean(c: Codec, file: Bytes, ps: seq<Piece>, torn: Bytes)
    requires c.Sound() && Healthy(c, file, ps, torn)
    ensures var st := ReadFile(c, file);
      && st.events == Committed(ps) && st.lastSeq == |Committed(ps)| && !st.tampered
      && |st.malformed| == CountTorn(ps) && st.partialBytes == |torn|
  {
    SplitHealthy(c, file, ps, torn);
    ReadPieces(c, ps);
  }

  // ---------------------------------------------------------------------
  // Appending, and writes cut short
  // ---------------------------------------------------------------------

  function Repaired(ps: seq<Piece>, torn: Bytes): seq<Piece> {
    if torn == [] then ps else ps + [Torn(torn)]
  }

  lemma {:induction false} LinesOfStep(c: Codec, ps: seq<Piece>, p: Piece)
    ensures LinesOf(c, ps + [p]) == LinesOf(c, ps) + [LineOf(c, p)]
    ensures Committed(ps + [p]) == Committed(ps) + (if p.Good? then [p.event] else [])
    ensures CountTorn(ps + [p]) == CountTorn(ps) + if p.Torn? then 1 else 0
  {
    assert (ps + [p])[..|ps|] == ps;
  }

  lemma {:induction false} PieceEndsLine(c: Codec, ps: seq<Piece>, p: Piece)
    ensures Render(LinesOf(c, ps + [p])) == Render(LinesOf(c, ps)) + LineOf(c, p) + [NEWLINE]
    ensures Committed(ps + [p]) == Committed(ps) + (if p.Good? then [p.event] else [])
    ensures CountTorn(ps + [p]) == CountTorn(ps) + if p.Torn? then 1 else 0
  {
    LinesOfStep(c, ps, p);
    RenderStep(LinesOf(c, ps), LineOf(c, p));
  }

  lemma {:induction false} ChainStep(c: Codec, es: seq<Event>, e: Event)
    requires Chain(c, es) && Links(c, es, e)
    ensures Chain(c, es + [e])
  {
    assert (es + [e])[..|es|] == es;
  }

  lemma {:induction false} FragmentsStep(c: Codec, ps: seq<Piece>, p: Piece)
    requires OnlyFragmentsTorn(c, ps) && (p.Torn? ==> IsFragment(c, p.fragment))
    ensures OnlyFragmentsTorn(c, ps + [p])
  {
    assert (ps + [p])[..|ps|] == ps;
  }

  /** The event an append builds on a healthy file is the next link of the chain. */
  lemma {:induction false} PreparedLinks(c: Codec, file: Bytes, ps: seq<Piece>, torn: Bytes, draft: Fields,
                                         stamp: Stamp)
    requires c.Sound() && Healthy(c, file, ps, torn) && c.redactOk(draft)
    requires stamp.eventId !in Ids(Committed(ps))
    requires Prepare(c, TailOf(file), draft, stamp).Write?
    ensures var w := Prepare(c, TailOf(file), draft, stamp);
      && w.event == Event(stamp.eventId, |Committed(ps)| + 1, LinkAfter(c, Committed(ps)), stamp.ts, draft)
      && w.bytes == RecordBytes(c, torn, w.event)
      && c.Accept(c.stringify(w.event)) == Some(w.event)
      && Links(c, Committed(ps), w.event)
      && |c.stringify(w.event)| <= LINE_MAX_BYTES
  {
    TailOfHealthy(c, file, ps, torn);
  }

  /**
   When an append to a healthy ledger lands, and why it does not: a draft the redaction scan refuses, 20000 events or
   more than 8 MiB already there, an event the schema refuses, a line over 4096 bytes, in this order.
   */
  lemma {:induction false} AppendLandsIff(c: Codec, file: Bytes, ps: seq<Piece>, torn: Bytes, draft: Fields,
                                          stamp: Stamp)
    requires c.Sound() && Healthy(c, file, ps, torn)
    ensures var n, r := |Committed(ps)|, Answer(c, file, draft, stamp);
      var e := Event(stamp.eventId, n + 1, LinkAfter(c, Committed(ps)), stamp.ts, draft);
      var full, valid, long := n >= 20000 || |file| > 8388608, c.validates(e), |c.stringify(e)| > 4096;
      && (r == Failed(RedactRefused) <==> !c.redactOk(draft))
      && (r == Failed(LedgerFull) <==> c.redactOk(draft) && full)
      && (r == Failed(SchemaInvalid) <==> c.redactOk(draft) && !full && !valid)
      && (r == Failed(LineTooLarge) <==> c.redactOk(draft) && !full && valid && long)
      && (r.Appended? <==> c.redactOk(draft) && !full && valid && !long)
      && (r.Appended? ==>
            (r == Appended(n + 1, stamp.eventId) && Append(c, file, draft, stamp) == file + RecordBytes(c, torn, e)))
  {
    hide Healthy, TailOf, ParseLastLine, LinkAfter, Codec.Sound;
    TailOfHealthy(c, file, ps, torn);
  }

  /** The bytes an append writes after a file that ends in `torn`. */
  function RecordBytes(c: Codec, torn: Bytes, e: Event): Bytes {
    (if torn == [] then [] else [NEWLINE]) + c.stringify(e) + [NEWLINE]
  }

  /** The repairing newline turns a fragment into one more complete, malformed line. */
  lemma {:induction false} SealFragment(c: Codec, file: Bytes, ps: seq<Piece>, torn: Bytes)
    requires Healthy(c, file, ps, torn)
    ensures file + (if torn == [] then [] else [NEWLINE]) == Render(LinesOf(c, Repaired(ps, torn)))
    ensures OnlyFragmentsTorn(c, Repaired(ps, torn))
    ensures Committed(Repaired(ps, torn)) == Committed(ps)
    ensures CountTorn(Repaired(ps, torn)) == CountTorn(ps) + if torn == [] then 0 else 1
  {
    if torn != [] {
      PieceEndsLine(c, ps, Torn(torn));
      FragmentsStep(c, ps, Torn(torn));
    }
  }

  lemma {:induction false} ExtendHealthy(c: Codec, file: Bytes, ps: seq<Piece>, torn: Bytes, e: Event)
    requires Healthy(c, file, ps, torn) && Links(c, Committed(ps), e)
    ensures Healthy(c, file + RecordBytes(c, torn, e), Repaired(ps, torn) + [Good(e)], [])
    ensures Committed(Repaired(ps, torn) + [Good(e)]) == Committed(ps) + [e]
    ensures CountTorn(Repaired(ps, torn) + [Good(e)]) == CountTorn(ps) + if torn == [] then 0 else 1
  {
    SealFragment(c, file, ps, torn);
    hide IsFragment, Chain, OnlyFragmentsTorn, LinesOf, Render, Committed, CountTorn, Links, Repaired;
    var mid := Repaired(ps, torn);
    PieceEndsLine(c, mid, Good(e));
    FragmentsStep(c, mid, Good(e));
    ChainStep(c, Committed(ps), e);
    RecordConcat(file, if torn == [] then [] else [NEWLINE], c.stringify(e));
    assert file + RecordBytes(c, torn, e) == Render(LinesOf(c, mid + [Good(e)])) + [];
  }

  /** An undisturbed append keeps the ledger healthy, repairs a fragment, and adds exactly its event. */
  lemma {:induction false} AppendKeepsHealth(c: Codec, file: Bytes, ps: seq<Piece>, torn: Bytes, draft: Fields,
                                             stamp: Stamp)
    requires c.Sound() && Healthy(c, file, ps, torn) && c.redactOk(draft)
    requires stamp.eventId !in Ids(Committed(ps))
    requires Prepare(c, TailOf(file), draft, stamp).Write?
    ensures var e := Prepare(c, TailOf(file), draft, stamp).event;
      && Healthy(c, Append(c, file, draft, stamp), Repaired(ps, torn) + [Good(e)], [])
      && Committed(Repaired(ps, torn) + [Good(e)]) == Committed(ps) + [e]
      && CountTorn(Repaired(ps, torn) + [Good(e)]) == CountTorn(ps) + if torn == [] then 0 else 1
  {
    PreparedLinks(c, file, ps, torn, draft, stamp);
    ExtendHealthy(c, file, ps, torn, Prepare(c, TailOf(file), draft, stamp).event);
  }

  lemma {:induction false} TearHealthy(c: Codec, file: Bytes, ps: seq<Piece>, e: Event, k: nat)
    requires Healthy(c, file, ps, []) && |c.stringify(e)| <= LINE_MAX_BYTES && k < |c.stringify(e)|
    ensures RecordBytes(c, [], e)[..k] == c.stringify(e)[..k]
    ensures Healthy(c, file + c.stringify(e)[..k], ps, c.stringify(e)[..k])
  {
    var f := c.stringify(e)[..k];
    assert IsStrictPrefix(f, c.stringify(e));
    assert file + f == Render(LinesOf(c, ps)) + f;
  }

  lemma {:induction false} CutRepair(file: Bytes, line: Bytes, k: nat)
    requires 0 < k <= |line|
    ensures file + ([NEWLINE] + line + [NEWLINE])[..k] == file + [NEWLINE] + line[..k - 1]
    ensures line[..k - 1] != [] ==> IsStrictPrefix(line[..k - 1], line)
  {
    assert ([NEWLINE] + line + [NEWLINE])[..k] == [NEWLINE] + line[..k - 1];
  }

  /** A repairing write cut before the end of its line, with no event committed yet, leaves one more sealed fragment. */
  lemma {:induction false} TearFirstRepair(c: Codec, file: Bytes, ps: seq<Piece>, torn: Bytes, e: Event, k: nat)
    requires Healthy(c, file, ps, torn) && torn != [] && Committed(ps) == []
    requires |c.stringify(e)| <= LINE_MAX_BYTES && 0 < k <= |c.stringify(e)|
    ensures Healthy(c, file + RecordBytes(c, torn, e)[..k], ps + [Torn(torn)], c.stringify(e)[..k - 1])
    ensures Committed(ps + [Torn(torn)]) == []
    ensures CountTorn(ps + [Torn(torn)]) == CountTorn(ps) + 1
  {
    hide LinesOf, OnlyFragmentsTorn, CountTorn, Render, Chain, IsStrictPrefix;
    SealFragment(c, file, ps, torn);
    CutRepair(file, c.stringify(e), k);
  }

  /** A first write cut short anywhere inside its line leaves a healthy file with a fragment. */
  lemma {:induction false} TearKeepsHealth(c: Codec, file: Bytes, ps: seq<Piece>, draft: Fields, stamp: Stamp, k: nat)
    requires c.Sound() && Healthy(c, file, ps, []) && c.redactOk(draft)
    requires stamp.eventId !in Ids(Committed(ps))
    requires Prepare(c, TailOf(file), draft, stamp).Write?
    requires k < |c.stringify(Prepare(c, TailOf(file), draft, stamp).event)|
    ensures var w := Prepare(c, TailOf(file), draft, stamp);
      && k < |w.bytes| && w.bytes[..k] == c.stringify(w.event)[..k]
      && Healthy(c, file + w.bytes[..k], ps, w.bytes[..k])
  {
    PreparedLinks(c, file, ps, [], draft, stamp);
    TearHealthy(c, file, ps, Prepare(c, TailOf(file), draft, stamp).event, k);
  }

  // ---------------------------------------------------------------------
  // Exactly which torn writes the next append recovers from
  // ---------------------------------------------------------------------

  lemma {:induction false} TailOfLines(ls: seq<Bytes>, rest: Bytes)
    requires NoNewlines(ls) && NEWLINE !in rest
    requires (if ls == [] then 0 else |ls[|ls| - 1]| + 1) + |rest| < READ_TAIL_BYTES
    ensures TailOf(Render(ls) + rest) ==
      Tail(|Render(ls) + rest|, rest == [], if ls == [] then None else Some(ls[|ls| - 1]))
  {
    RenderSplit(ls, rest);
    TailSeesLastLine(Render(ls) + rest);
  }

  lemma {:induction false} ReadLinesStep(c: Codec, st: ParseState, ls: seq<Bytes>, l: Bytes)
    ensures ReadLines(c, st, ls + [l]) == ReadLine(c, ReadLines(c, st, ls), l)
  {
    assert (ls + [l])[..|ls|] == ls;
  }

  /** The next append after a torn one: its record comes after one more repairing newline. */
  lemma {:induction false} RecordAfter(c: Codec, ls: seq<Bytes>, part: Bytes, e: Event)
    ensures Render(ls) + part + RecordBytes(c, part, e)
      == Render((if part == [] then ls else ls + [part]) + [c.stringify(e)])
  {
    var mid := if part == [] then ls else ls + [part];
    if part != [] { RenderStep(ls, part); }
    RenderStep(mid, c.stringify(e));
    RecordConcat(Render(ls) + part, if part == [] then [] else [NEWLINE], c.stringify(e));
    assert Render(ls) + part + (if part == [] then [] else [NEWLINE]) == Render(mid);
  }

  /** A canonical event with the wrong sequence number is flagged. */
  lemma {:induction false} ReadMisplaced(c: Codec, st: ParseState, es: seq<Event>, torn: nat, e: Event)
    requires ReadsAs(c, st, es, torn) && c.Accept(c.stringify(e)) == Some(e) && e.seqNo != |es| + 1
    ensures ReadLine(c, st, c.stringify(e)).tampered
  {
  }

  lemma {:induction false} ReadRendered(c: Codec, ls: seq<Bytes>)
    requires NoNewlines(ls)
    ensures ReadFile(c, Render(ls)) == ReadLines(c, INITIAL, ls)
  {
    RenderSplit(ls, []);
    assert Render(ls) + [] == Render(ls);
    LinesKeepStart(c, INITIAL, ls);
  }

  /** What a write may put on the line after `part`, given what the tail said. */
  lemma {:induction false} WrittenEvent(c: Codec, ls: seq<Bytes>, part: Bytes, draft: Fields, stamp: Stamp)
    requires c.Sound() && c.redactOk(draft) && NoNewlines(ls) && NEWLINE !in part
    requires (if ls == [] then 0 else |ls[|ls| - 1]| + 1) + |part| < READ_TAIL_BYTES
    requires Prepare(c, TailOf(Render(ls) + part), draft, stamp).Write?
    ensures var w := Prepare(c, TailOf(Render(ls) + part), draft, stamp);
      && w.bytes == RecordBytes(c, part, w.event)
      && (w.event.seqNo - 1, w.event.prevHash) == ParseLastLine(c, if ls == [] then None else Some(ls[|ls| - 1]))
      && w.event.eventId == stamp.eventId
      && c.Accept(c.stringify(w.event)) == Some(w.event) && NEWLINE !in c.stringify(w.event)
  {
    TailOfLines(ls, part);
  }

  lemma {:induction false} LinkedLines(c: Codec, ps: seq<Piece>)
    requires c.Sound() && Chain(c, Committed(ps)) && OnlyFragmentsTorn(c, ps) && EndsWell(ps)
    ensures var ls := LinesOf(c, ps);
      && NoNewlines(ls) && (ls == [] || |ls[|ls| - 1]| <= LINE_MAX_BYTES)
      && ParseLastLine(c, if ls == [] then None else Some(ls[|ls| - 1]))
        == (|Committed(ps)|, LinkAfter(c, Committed(ps)))
  {
    LinesArePlain(c, ps);
    LastLineLinks(c, ps);
  }

  /** `e` is what an append writes to `file` under this draft and stamp. */
  predicate Appends(c: Codec, file: Bytes, draft: Fields, stamp: Stamp, e: Event) {
    c.redactOk(draft) && Prepare(c, TailOf(file), draft, stamp).Write? &&
    Prepare(c, TailOf(file), draft, stamp).event == e
  }

  lemma {:induction false} AppendsToLines(c: Codec, ls: seq<Bytes>, part: Bytes, draft: Fields, stamp: Stamp, e: Event)
    requires c.Sound() && NoNewlines(ls) && NEWLINE !in part
    requires (if ls == [] then 0 else |ls[|ls| - 1]| + 1) + |part| < READ_TAIL_BYTES
    requires Appends(c, Render(ls) + part, draft, stamp, e)
    ensures (e.seqNo - 1, e.prevHash) == ParseLastLine(c, if ls == [] then None else Some(ls[|ls| - 1]))
    ensures e.eventId == stamp.eventId && c.Accept(c.stringify(e)) == Some(e) && NEWLINE !in c.stringify(e)
    ensures Append(c, Render(ls) + part, draft, stamp)
      == Render((if part == [] then ls else ls + [part]) + [c.stringify(e)])
  {
    hide Codec.Sound, TailOf, Render, ParseLastLine;
    WrittenEvent(c, ls, part, draft, stamp);
    RecordAfter(c, ls, part, e);
    hide Prepare, RecordBytes;
  }

  lemma {:induction false} LinkFacts(c: Codec, es: seq<Event>, e: Event)
    requires c.Sound() && Links(c, es, e)
    ensures var line := c.stringify(e); 0 < |line| <= LINE_MAX_BYTES && NEWLINE !in line && c.Accept(line) == Some(e)
  {
  }

  /** Only the newline was lost: the next append reuses the sequence number of the line it cannot see. */
  lemma {:induction false} LostNewlineReusesSeq(c: Codec, ps: seq<Piece>, e: Event, draft: Fields, stamp: Stamp,
                                                e2: Event)
    requires c.Sound() && Chain(c, Committed(ps)) && OnlyFragmentsTorn(c, ps)
    requires EndsWell(ps)
    requires Links(c, Committed(ps), e)
    requires Appends(c, Render(LinesOf(c, ps)) + c.stringify(e), draft, stamp, e2)
    ensures e2.seqNo == e.seqNo
    ensures ReadFile(c, Append(c, Render(LinesOf(c, ps)) + c.stringify(e), draft, stamp)).tampered
  {
    hide ReadFile, Append, Prepare, TailOf, Appends, ReadLine, ReadLines, Render, LinesOf, Committed, Chain,
      Codec.Sound;
    var ls, line, line2 := LinesOf(c, ps), c.stringify(e), c.stringify(e2);
    LinkedLines(c, ps);
    LinkFacts(c, Committed(ps), e);
    AppendsToLines(c, ls, line, draft, stamp, e2);
    ReadPieces(c, ps);
    ReadLinesStep(c, INITIAL, ls, line);
    ReadGood(c, ReadLines(c, INITIAL, ls), Committed(ps), CountTorn(ps), e);
    ReadLinesStep(c, INITIAL, ls + [line], line2);
    ReadMisplaced(c, ReadLines(c, INITIAL, ls + [line]), Committed(ps) + [e], CountTorn(ps), e2);
    ReadRendered(c, ls + [line] + [line2]);
  }

  lemma {:induction false} RecoverThenRead(c: Codec, file: Bytes, ps: seq<Piece>, torn: Bytes, draft: Fields,
                                           stamp: Stamp, e: Event)
    requires c.Sound() && Healthy(c, file, ps, torn)
    requires stamp.eventId !in Ids(Committed(ps))
    requires Appends(c, file, draft, stamp, e)
    ensures var st := ReadFile(c, Append(c, file, draft, stamp));
      && !st.tampered && st.events == Committed(ps) + [e]
      && |st.malformed| == CountTorn(ps) + if torn == [] then 0 else 1
  {
    AppendKeepsHealth(c, file, ps, torn, draft, stamp);
    HealthyReadsClean(c, Append(c, file, draft, stamp), Repaired(ps, torn) + [Good(e)], []);
  }

  lemma RecordCut(c: Codec, e: Event, k: nat)
    requires k <= |RecordBytes(c, [], e)|
    ensures var line, record := c.stringify(e), RecordBytes(c, [], e);
      && |record| == |line| + 1
      && (k <= |line| ==> record[..k] == line[..k])
      && (k == |line| ==> record[..k] == line)
      && (k == |record| ==> record[..k] == record)
  {
    assert RecordBytes(c, [], e) == c.stringify(e) + [NEWLINE];
  }

  /** Cut inside its line, the record is lost, and the next append seals what is left of it. */
  lemma {:induction false} CutLineRecovers(c: Codec, file: Bytes, ps: seq<Piece>, e1: Event, k: nat,
                                           d2: Fields, s2: Stamp, e2: Event)
    requires c.Sound() && Healthy(c, file, ps, []) && s2.eventId !in Ids(Committed(ps))
    requires |c.stringify(e1)| <= LINE_MAX_BYTES && k < |c.stringify(e1)|
    requires Appends(c, file + c.stringify(e1)[..k], d2, s2, e2)
    ensures var st := ReadFile(c, Append(c, file + c.stringify(e1)[..k], d2, s2));
      !st.tampered && st.events == Committed(ps) + [e2] && |st.malformed| == CountTorn(ps) + if k > 0 then 1 else 0
  {
    hide Healthy, ReadFile, Append, Appends, Codec.Sound, Committed, CountTorn, Ids;
    TearHealthy(c, file, ps, e1, k);
    RecoverThenRead(c, file + c.stringify(e1)[..k], ps, c.stringify(e1)[..k], d2, s2, e2);
  }

  /** Whole, the record is read before the next one. */
  lemma {:induction false} WholeRecordReads(c: Codec, file: Bytes, ps: seq<Piece>, e1: Event,
                                            d2: Fields, s2: Stamp, e2: Event)
    requires c.Sound() && Healthy(c, file, ps, []) && Links(c, Committed(ps), e1)
    requires s2.eventId !in Ids(Committed(ps)) && s2.eventId != e1.eventId
    requires Appends(c, file + RecordBytes(c, [], e1), d2, s2, e2)
    ensures var st := ReadFile(c, Append(c, file + RecordBytes(c, [], e1), d2, s2));
      !st.tampered && st.events == Committed(ps) + [e1] + [e2] && |st.malformed| == CountTorn(ps)
  {
    ExtendHealthy(c, file, ps, [], e1);
    hide Healthy, ReadFile, Append, Appends, Codec.Sound, Committed, CountTorn, Links;
    RecoverThenRead(c, file + RecordBytes(c, [], e1), ps + [Good(e1)], [], d2, s2, e2);
  }

  /**
   A write on a clean ledger that stops after `k` bytes of its record, followed by one more append: the reader
   keeps every earlier event and the new one in an unbroken chain if and only if `k` is not exactly the length
   of the line, and then reports one malformed line for a fragment.
   */
  lemma {:induction false} TornWriteRecovery(c: Codec, file: Bytes, ps: seq<Piece>,
                                             d1: Fields, s1: Stamp, e1: Event, k: nat, d2: Fields, s2: Stamp, e2: Event)
    requires c.Sound() && Healthy(c, file, ps, [])
    requires s1.eventId !in Ids(Committed(ps)) && s2.eventId !in Ids(Committed(ps)) && s1.eventId != s2.eventId
    requires Appends(c, file, d1, s1, e1) && k <= |RecordBytes(c, [], e1)|
    requires Appends(c, file + RecordBytes(c, [], e1)[..k], d2, s2, e2)
    ensures var st, n := ReadFile(c, Append(c, file + RecordBytes(c, [], e1)[..k], d2, s2)), |c.stringify(e1)|;
      && (st.tampered <==> k == n)
      && (k != n ==> st.events == Committed(ps) + (if k == n + 1 then [e1] else []) + [e2])
      && (k != n ==> |st.malformed| == CountTorn(ps) + if 0 < k < n then 1 else 0)
  {
    FirstWriteLinks(c, file, ps, d1, s1, e1);
    hide Healthy, Appends, ReadFile, Append, Codec.Sound, Links, Ids, Committed, CountTorn, RecordBytes;
    RecordCut(c, e1, k);
    var line, record := c.stringify(e1), RecordBytes(c, [], e1);
    if k == |line| {
      assert file + record[..k] == file + line;
      LostNewline(c, file, ps, e1, d2, s2, e2);
    } else if k < |line| {
      assert file + record[..k] == file + line[..k];
      CutLineRecovers(c, file, ps, e1, k, d2, s2, e2);
      assert Committed(ps) + [] == Committed(ps);
    } else {
      assert file + record[..k] == file + record;
      WholeRecordReads(c, file, ps, e1, d2, s2, e2);
    }
  }

  lemma {:induction false} FirstWriteLinks(c: Codec, file: Bytes, ps: seq<Piece>, d: Fields, s: Stamp, e: Event)
    requires c.Sound() && Healthy(c, file, ps, []) && s.eventId !in Ids(Committed(ps)) && Appends(c, file, d, s, e)
    ensures Links(c, Committed(ps), e) && |c.stringify(e)| <= LINE_MAX_BYTES && e.eventId == s.eventId
  {
    hide Healthy, Codec.Sound, TailOf, Links, Ids, Committed;
    PreparedLinks(c, file, ps, [], d, s);
  }

  lemma {:induction false} LostNewline(c: Codec, file: Bytes, ps: seq<Piece>, e: Event,
                                       draft: Fields, stamp: Stamp, e2: Event)
    requires c.Sound() && Healthy(c, file, ps, []) && Links(c, Committed(ps), e)
    requires Appends(c, file + c.stringify(e), draft, stamp, e2)
    ensures ReadFile(c, Append(c, file + c.stringify(e), draft, stamp)).tampered
  {
    hide Appends, ReadFile, Append, Codec.Sound, Links, Committed, Chain, OnlyFragmentsTorn, Render, LinesOf, EndsWell;
    assert file + c.stringify(e) == Render(LinesOf(c, ps)) + c.stringify(e);
    LostNewlineReusesSeq(c, ps, e, draft, stamp, e2);
  }

  /** After a repair that itself was torn, the next append takes the sealed fragment for the last line. */
  lemma {:induction false} TornRepairRestarts(c: Codec, ps: seq<Piece>, torn: Bytes, e1: Event, part: Bytes,
                                              draft: Fields, stamp: Stamp, e2: Event)
    requires c.Sound() && Chain(c, Committed(ps)) && OnlyFragmentsTorn(c, ps) && IsFragment(c, torn)
    requires Links(c, Committed(ps), e1) && |part| <= |c.stringify(e1)| && part == c.stringify(e1)[..|part|]
    requires Appends(c, Render(LinesOf(c, ps) + [torn]) + part, draft, stamp, e2)
    requires stamp.eventId !in Ids(Committed(ps)) && stamp.eventId != e1.eventId
    ensures e2.seqNo == 1 && e2.prevHash == GENESIS
    ensures ReadFile(c, Append(c, Render(LinesOf(c, ps) + [torn]) + part, draft, stamp)).tampered
      <==> Committed(ps) != [] || part == c.stringify(e1)
  {
    hide ReadFile, Prepare, TailOf, Append, Appends, ReadsAs, LinkAfter, ReadLine, ReadLines, Render, Split, Chain,
      OnlyFragmentsTorn;
    var ls, es, line, line2 := LinesOf(c, ps) + [torn], Committed(ps), c.stringify(e1), c.stringify(e2);
    LinesArePlain(c, ps);
    FragmentFacts(c, torn);
    assert c.Accept(line) == Some(e1);
    AppendsToLines(c, ls, part, draft, stamp, e2);
    ReadPieces(c, ps);
    ReadLinesStep(c, INITIAL, LinesOf(c, ps), torn);
    var st := ReadLines(c, INITIAL, ls);
    ReadTorn(c, ReadLines(c, INITIAL, LinesOf(c, ps)), es, CountTorn(ps), torn);
    ReadRendered(c, (if part == [] then ls else ls + [part]) + [line2]);
    ReadLinesStep(c, INITIAL, if part == [] then ls else ls + [part], line2);
    if part != [] {
      ReadLinesStep(c, INITIAL, ls, part);
      PartReads(c, st, es, CountTorn(ps) + 1, e1, part);
    }
    AfterRestart(c, if part == [] then st else ReadLine(c, st, part), if part == line then es + [e1] else es,
                 CountTorn(ps) + (if part == [] || part == line then 1 else 2), e2);
  }

  lemma {:induction false} PartReads(c: Codec, st: ParseState, es: seq<Event>, torn: nat, e: Event, part: Bytes)
    requires c.Sound() && ReadsAs(c, st, es, torn) && Links(c, es, e)
    requires 0 < |part| <= |c.stringify(e)| && part == c.stringify(e)[..|part|]
    ensures var st' := ReadLine(c, st, part);
      if part == c.stringify(e) then ReadsAs(c, st', es + [e], torn) else ReadsAs(c, st', es, torn + 1)
  {
    if part == c.stringify(e) {
      ReadGood(c, st, es, torn, e);
    } else {
      assert IsStrictPrefix(part, c.stringify(e));
      assert c.Accept(part) == None;
    }
  }

  /** An event restarted from genesis fits only an empty ledger. */
  lemma {:induction false} AfterRestart(c: Codec, st: ParseState, es: seq<Event>, torn: nat, e: Event)
    requires ReadsAs(c, st, es, torn)
    requires e.seqNo == 1 && e.prevHash == GENESIS && c.Accept(c.stringify(e)) == Some(e) && e.eventId !in Ids(es)
    ensures ReadLine(c, st, c.stringify(e)).tampered <==> es != []
  {
  }

  /**
   A repairing write (the ledger ends in a fragment) that stops after `k` bytes, followed by one more append: the
   reader sees an unbroken chain if and only if nothing or everything was written, or no event had been committed
   before and the line did not arrive whole.
   */
  lemma {:induction false} TornRepairRecovery(c: Codec, file: Bytes, ps: seq<Piece>, torn: Bytes,
                                              d1: Fields, s1: Stamp, e1: Event, k: nat, d2: Fields, s2: Stamp,
                                              e2: Event)
    requires c.Sound() && Healthy(c, file, ps, torn) && torn != []
    requires s1.eventId !in Ids(Committed(ps)) && s2.eventId !in Ids(Committed(ps)) && s1.eventId != s2.eventId
    requires Appends(c, file, d1, s1, e1) && k <= |RecordBytes(c, torn, e1)|
    requires Appends(c, file + RecordBytes(c, torn, e1)[..k], d2, s2, e2)
    ensures var n := |c.stringify(e1)|;
      !ReadFile(c, Append(c, file + RecordBytes(c, torn, e1)[..k], d2, s2)).tampered
      <==> k == 0 || k == n + 2 || (Committed(ps) == [] && k <= n)
  {
    hide ReadFile, Prepare, TailOf, Append, Codec.Sound, Links, Chain, OnlyFragmentsTorn, IsFragment, Committed,
      CountTorn, LinesOf, Render;
    PreparedLinks(c, file, ps, torn, d1, s1);
    var line, record := c.stringify(e1), RecordBytes(c, torn, e1);
    assert record == [NEWLINE] + line + [NEWLINE];
    if k == 0 {
      assert file + record[..k] == file;
      RecoverThenRead(c, file, ps, torn, d2, s2, e2);
    } else if k == |record| {
      assert record[..k] == record;
      ExtendHealthy(c, file, ps, torn, e1);
      RecoverThenRead(c, file + record, Repaired(ps, torn) + [Good(e1)], [], d2, s2, e2);
    } else {
      var part := line[..k - 1];
      assert record[..k] == [NEWLINE] + part;
      RenderStep(LinesOf(c, ps), torn);
      assert file + record[..k] == Render(LinesOf(c, ps) + [torn]) + part;
      TornRepairRestarts(c, ps, torn, e1, part, d2, s2, e2);
      assert part == line <==> k == |line| + 1;
    }
  }
}
