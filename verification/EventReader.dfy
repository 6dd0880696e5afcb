/**
 The read side of the ledger: an incremental parser that takes the file in
 arbitrary chunks, keeps at most one line of carry, and drops a line it already
 knows to be too long.

 The parser is proved against a specification that knows nothing of chunks:
 split the file at newlines, then fold `ReadLine` over the complete lines.
 */
module EventReader {
  import opened Options
  import opened Positions
  import opened Ledger

  const CHUNK_SIZE := 64 * 1024

  datatype Malformed = Malformed(lineNumber: nat, byteLength: nat)

  datatype ParseState = ParseState(
    carry: Bytes,
    lineNumber: nat,
    lastSeq: int,
    prevHash: string,
    seen: set<string>,
    events: seq<Event>,
    malformed: seq<Malformed>,
    partialBytes: nat,
    tampered: bool,
    firstBadSeq: Option<int>,
    dropping: bool,
    droppedBytes: nat)

  const INITIAL := ParseState([], 0, 0, GENESIS, {}, [], [], 0, false, None, false, 0)

  /** Bounded memory: the carry is one admissible, newline-free, unfinished line. */
  ghost predicate Bounded(st: ParseState) {
    && |st.carry| <= LINE_MAX_BYTES
    && NEWLINE !in st.carry
    && (if st.dropping then st.carry == [] && st.droppedBytes > LINE_MAX_BYTES else st.droppedBytes == 0)
    && st.partialBytes == if st.dropping then st.droppedBytes else |st.carry|
  }

  predicate AtLineStart(st: ParseState) {
    st.carry == [] && !st.dropping && st.droppedBytes == 0 && st.partialBytes == 0
  }

  function FlagTampered(st: ParseState, seqNo: int): ParseState {
    st.(tampered := true, firstBadSeq := if st.firstBadSeq == None then Some(seqNo) else st.firstBadSeq)
  }

  /** The effect of one complete line of any length. */
  function ReadLine(c: Codec, st: ParseState, line: Bytes): ParseState {
    var n := st.lineNumber + 1;
    match c.Accept(line)
    case None => st.(lineNumber := n, malformed := st.malformed + [Malformed(n, |line|)])
    case Some(e) =>
      if e.eventId in st.seen then FlagTampered(st.(lineNumber := n), e.seqNo)
      else
        var linked := e.seqNo == st.lastSeq + 1 && e.prevHash == st.prevHash;
        var st1 := if linked then st else FlagTampered(st, e.seqNo);
        st1.(lineNumber := n, seen := st.seen + {e.eventId}, events := st.events + [e],
             lastSeq := e.seqNo, prevHash := c.hash(line))
  }

  function ReadLines(c: Codec, st: ParseState, lines: seq<Bytes>): ParseState {
    if lines == [] then st else ReadLine(c, ReadLines(c, st, lines[..|lines| - 1]), lines[|lines| - 1])
  }

  /** What an unfinished last line leaves behind. */
  function Suspend(st: ParseState, rest: Bytes): ParseState {
    if |rest| > LINE_MAX_BYTES then
      st.(carry := [], dropping := true, droppedBytes := |rest|, partialBytes := |rest|)
    else
      st.(carry := rest, dropping := false, droppedBytes := 0, partialBytes := |rest|)
  }

  /** The reading of a whole file, stated on its lines. */
  function ReadFile(c: Codec, file: Bytes): ParseState {
    Suspend(ReadLines(c, INITIAL, Split(file).lines), Split(file).rest)
  }

  /** One byte at a time: the chunk-free meaning of the incremental parser. */
  function Feed(c: Codec, st: ParseState, b: byte): ParseState {
    if st.dropping then
      if b == NEWLINE then
        st.(lineNumber := st.lineNumber + 1,
            malformed := st.malformed + [Malformed(st.lineNumber + 1, st.droppedBytes)],
            dropping := false, droppedBytes := 0, partialBytes := 0)
      else st.(droppedBytes := st.droppedBytes + 1, partialBytes := st.droppedBytes + 1)
    else if b == NEWLINE then ReadLine(c, st, st.carry).(carry := [], partialBytes := 0)
    else Suspend(st, st.carry + [b])
  }

  function FeedAll(c: Codec, st: ParseState, bs: Bytes): ParseState {
    if bs == [] then st else Feed(c, FeedAll(c, st, bs[..|bs| - 1]), bs[|bs| - 1])
  }

  lemma {:induction false} FeedAllStep(c: Codec, st: ParseState, bs: Bytes, b: byte)
    ensures FeedAll(c, st, bs + [b]) == Feed(c, FeedAll(c, st, bs), b)
  {
    assert (bs + [b])[..|bs|] == bs;
  }

  /** Splitting the input does not matter: equality of whole parser states. */
  lemma {:induction false} ChunksCompose(c: Codec, st: ParseState, a: Bytes, b: Bytes)
    ensures FeedAll(c, FeedAll(c, st, a), b) == FeedAll(c, st, a + b)
  {
    if b == [] {
      assert a + b == a;
    } else {
      var init, x := b[..|b| - 1], b[|b| - 1];
      ChunksCompose(c, st, a, init);
      FeedAllStep(c, st, a + init, x);
      assert a + b == a + init + [x];
    }
  }

  lemma {:induction false} StaysBounded(c: Codec, st: ParseState, bs: Bytes)
    requires Bounded(st)
    ensures Bounded(FeedAll(c, st, bs))
  {
    if bs != [] {
      StaysBounded(c, st, bs[..|bs| - 1]);
    }
  }

  lemma {:induction false} FeedOnlyGrows(c: Codec, st: ParseState, b: byte)
    ensures var st' := Feed(c, st, b);
      st.events <= st'.events && st.malformed <= st'.malformed && (st.tampered ==> st'.tampered)
  {
  }

  /** Reading more bytes never takes back an event, a sequence flag or a malformed line. */
  lemma {:induction false} ReadingOnlyGrows(c: Codec, st: ParseState, bs: Bytes)
    ensures var st' := FeedAll(c, st, bs);
      st.events <= st'.events && st.malformed <= st'.malformed && (st.tampered ==> st'.tampered)
  {
    if bs != [] {
      hide Feed;
      ReadingOnlyGrows(c, st, bs[..|bs| - 1]);
      FeedOnlyGrows(c, FeedAll(c, st, bs[..|bs| - 1]), bs[|bs| - 1]);
    }
  }

  lemma {:induction false} LinesKeepStart(c: Codec, st: ParseState, lines: seq<Bytes>)
    requires AtLineStart(st)
    ensures AtLineStart(ReadLines(c, st, lines))
  {
    if lines != [] {
      LinesKeepStart(c, st, lines[..|lines| - 1]);
    }
  }

  /** One more byte after an unfinished line: the two ways an over-long line is refused agree. */
  lemma {:induction false} FeedSuspended(c: Codec, st: ParseState, rest: Bytes, b: byte)
    requires c.RefusesLongLines() && AtLineStart(st)
    ensures Feed(c, Suspend(st, rest), b) ==
      if b == NEWLINE then ReadLine(c, st, rest) else Suspend(st, rest + [b])
  {
    if |rest| > LINE_MAX_BYTES {
      assert c.Accept(rest) == None;
    }
  }

  /** Feeding bytes is splitting at newlines and folding line by line, including lines dropped on the way. */
  lemma {:induction false} FeedIsFold(c: Codec, st: ParseState, bs: Bytes)
    requires c.RefusesLongLines() && AtLineStart(st)
    ensures FeedAll(c, st, bs) == Suspend(ReadLines(c, st, Split(bs).lines), Split(bs).rest)
  {
    if bs == [] {
      assert FeedAll(c, st, bs) == st;
    } else {
      var init, b := bs[..|bs| - 1], bs[|bs| - 1];
      FeedIsFold(c, st, init);
      var p := Split(init);
      LinesKeepStart(c, st, p.lines);
      FeedSuspended(c, ReadLines(c, st, p.lines), p.rest, b);
      if b == NEWLINE {
        assert (p.lines + [p.rest])[..|p.lines|] == p.lines;
        LinesKeepStart(c, st, p.lines + [p.rest]);
      }
    }
  }

  /** Reading a file byte by byte, or in any chunks, is `ReadFile`. */
  lemma {:induction false} ReadIsFold(c: Codec, file: Bytes)
    requires c.RefusesLongLines()
    ensures FeedAll(c, INITIAL, file) == ReadFile(c, file)
  {
    FeedIsFold(c, INITIAL, file);
  }

  /** A newline-free run of bytes inside an over-long line is only counted. */
  lemma {:induction false} FeedDropped(c: Codec, st: ParseState, bs: Bytes)
    requires st.dropping && NEWLINE !in bs && st.partialBytes == st.droppedBytes
    ensures FeedAll(c, st, bs) == st.(droppedBytes := st.droppedBytes + |bs|, partialBytes := st.droppedBytes + |bs|)
  {
    if bs != [] {
      FeedDropped(c, st, bs[..|bs| - 1]);
    }
  }

  /** Carrying an unfinished line over is the same as seeing its bytes again. */
  lemma {:induction false} CarryIsReplayed(c: Codec, st: ParseState, chunk: Bytes)
    requires c.RefusesLongLines() && Bounded(st) && !st.dropping
    ensures FeedAll(c, st, chunk) == FeedAll(c, st.(carry := [], partialBytes := 0), st.carry + chunk)
  {
    var emptied := st.(carry := [], partialBytes := 0);
    SplitPlain(st.carry);
    FeedIsFold(c, emptied, st.carry);
    assert FeedAll(c, emptied, st.carry) == st;
    ChunksCompose(c, emptied, st.carry, chunk);
  }

  function IndexOf(bs: Bytes, b: byte, from: nat): (idx: int)
    requires from <= |bs|
    ensures -1 <= idx < |bs|
    ensures idx == -1 ==> b !in bs[from..]
    ensures idx != -1 ==> from <= idx && bs[idx] == b && b !in bs[from..idx]
    decreases |bs| - from
  {
    if from == |bs| then -1
    else if bs[from] == b then from
    else
      var idx := IndexOf(bs, b, from + 1);
      assert bs[from..] == [bs[from]] + bs[from + 1..];
      assert idx != -1 ==> bs[from..idx] == [bs[from]] + bs[from + 1..idx];
      idx
  }

  /** The state in the middle of a chunk, when what is left of the input still has to be looked at. */
  function Resume(st: ParseState): ParseState {
    st.(carry := [], partialBytes := st.droppedBytes)
  }

  /** The end of a dropped line, `extra` bytes after the ones already counted. */
  function EndDropped(st: ParseState, extra: nat): ParseState {
    st.(lineNumber := st.lineNumber + 1,
        malformed := st.malformed + [Malformed(st.lineNumber + 1, st.droppedBytes + extra)],
        dropping := false, droppedBytes := 0)
  }

  lemma {:induction false} AdvancePast(c: Codec, st: ParseState, bs: Bytes, start: nat, idx: nat)
    requires start <= idx < |bs| && bs[idx] == NEWLINE
    ensures FeedAll(c, st, bs[start..]) == FeedAll(c, Feed(c, FeedAll(c, st, bs[start..idx]), NEWLINE), bs[idx + 1..])
  {
    var line := bs[start..idx];
    assert bs[start..] == line + [NEWLINE] + bs[idx + 1..];
    ChunksCompose(c, st, line + [NEWLINE], bs[idx + 1..]);
    FeedAllStep(c, st, line, NEWLINE);
  }

  lemma {:induction false} FeedPlain(c: Codec, st: ParseState, bs: Bytes)
    requires c.RefusesLongLines() && AtLineStart(st) && NEWLINE !in bs
    ensures FeedAll(c, st, bs) == Suspend(st, bs)
  {
    SplitPlain(bs);
    FeedIsFold(c, st, bs);
    assert ReadLines(c, st, []) == st;
  }

  function Unfinished(st: ParseState, rest: Bytes): ParseState {
    if st.dropping then
      st.(carry := [], droppedBytes := st.droppedBytes + |rest|, partialBytes := st.droppedBytes + |rest|)
    else Suspend(st, rest)
  }

  lemma {:induction false} ReadLineStays(c: Codec, st: ParseState, line: Bytes)
    ensures var r := ReadLine(c, st, line); r.dropping == st.dropping && r.droppedBytes == st.droppedBytes
  {
  }

  lemma {:induction false} ReadLineResumes(c: Codec, st: ParseState, line: Bytes)
    ensures ReadLine(c, Resume(st), line) == Resume(ReadLine(c, st, line))
  {
  }

  /** A complete line found between `start` and `idx` is read, and the rest of the chunk remains. */
  lemma {:induction false} TakesOneLine(c: Codec, st: ParseState, bs: Bytes, start: nat, idx: nat)
    requires c.RefusesLongLines() && !st.dropping && st.droppedBytes == 0
    requires start <= idx < |bs| && bs[idx] == NEWLINE && NEWLINE !in bs[start..idx]
    ensures FeedAll(c, Resume(st), bs[start..]) == FeedAll(c, Resume(ReadLine(c, st, bs[start..idx])), bs[idx + 1..])
  {
    var line, from := bs[start..idx], Resume(st);
    AdvancePast(c, from, bs, start, idx);
    FeedPlain(c, from, line);
    FeedSuspended(c, from, line, NEWLINE);
    ReadLineResumes(c, st, line);
  }

  /** The end of an over-long line found at `idx`. */
  lemma {:induction false} EndsDroppedLine(c: Codec, st: ParseState, bs: Bytes, start: nat, idx: nat)
    requires st.dropping
    requires start <= idx < |bs| && bs[idx] == NEWLINE && NEWLINE !in bs[start..idx]
    ensures FeedAll(c, Resume(st), bs[start..]) == FeedAll(c, Resume(EndDropped(st, idx - start)), bs[idx + 1..])
  {
    hide FeedAll, Feed, EndDropped;
    var line, from := bs[start..idx], Resume(st);
    AdvancePast(c, from, bs, start, idx);
    FeedDropped(c, from, line);
    NewlineEndsDropped(c, st, idx - start);
  }

  lemma NewlineEndsDropped(c: Codec, st: ParseState, n: nat)
    requires st.dropping
    ensures Feed(c, Resume(st).(droppedBytes := st.droppedBytes + n, partialBytes := st.droppedBytes + n), NEWLINE)
      == Resume(EndDropped(st, n))
  {
  }

  function EndLine(c: Codec, st: ParseState, line: Bytes): ParseState {
    if st.dropping then EndDropped(st, |line|) else ReadLine(c, st, line)
  }

  /** Either way, the state after the line before `idx` stands for the rest of the chunk. */
  lemma {:induction false} NextLine(c: Codec, st: ParseState, bs: Bytes, start: nat, idx: nat)
    requires c.RefusesLongLines() && (!st.dropping ==> st.droppedBytes == 0)
    requires start <= idx < |bs| && bs[idx] == NEWLINE && NEWLINE !in bs[start..idx]
    ensures var next := EndLine(c, st, bs[start..idx]);
      && !next.dropping && next.droppedBytes == 0
      && FeedAll(c, Resume(next), bs[idx + 1..]) == FeedAll(c, Resume(st), bs[start..])
  {
    hide FeedAll, Resume, ReadLine, Codec.RefusesLongLines;
    if st.dropping {
      EndsDroppedLine(c, st, bs, start, idx);
    } else {
      TakesOneLine(c, st, bs, start, idx);
      ReadLineStays(c, st, bs[start..idx]);
    }
  }

  /** No newline is left: the rest of the chunk is carried, or the line is dropped from here on. */
  lemma {:induction false} SuspendsAtEnd(c: Codec, st: ParseState, rest: Bytes)
    requires c.RefusesLongLines() && NEWLINE !in rest
    requires !st.dropping ==> st.droppedBytes == 0
    ensures FeedAll(c, Resume(st), rest) == Unfinished(st, rest)
  {
    if st.dropping {
      FeedDropped(c, Resume(st), rest);
    } else {
      FeedPlain(c, Resume(st), rest);
    }
  }

  lemma {:induction false} StartsAtCarry(c: Codec, st: ParseState, chunk: Bytes)
    requires c.RefusesLongLines() && Bounded(st)
    ensures FeedAll(c, Resume(st), st.carry + chunk) == FeedAll(c, st, chunk)
  {
    if st.dropping {
      assert st.carry + chunk == chunk && Resume(st) == st;
    } else {
      CarryIsReplayed(c, st, chunk);
    }
  }

  /** The parser object: the fields that parseChunk updates in place. */
  class LedgerParser {
    ghost const codec: Codec
    var carry: Bytes
    var lineNumber: nat
    var lastSeq: int
    var prevHash: string
    var seenEventIds: set<string>
    var events: seq<Event>
    var malformed: seq<Malformed>
    var partialBytes: nat
    var tampered: bool
    var firstBadSeq: Option<int>
    var dropping: bool
    var droppedBytes: nat
    const accept: Bytes -> Option<Event>
    const hash: Bytes -> string

    ghost predicate Valid()
      reads this
    {
      && codec.RefusesLongLines() && hash == codec.hash && (forall l :: accept(l) == codec.Accept(l))
      && Bounded(State())
    }

    ghost function State(): ParseState
      reads this
    {
      ParseState(carry, lineNumber, lastSeq, prevHash, seenEventIds, events, malformed,
                 partialBytes, tampered, firstBadSeq, dropping, droppedBytes)
    }

    constructor (c: Codec)
      requires c.RefusesLongLines()
      ensures Valid() && codec == c && State() == INITIAL
    {
      codec := c;
      accept := l => c.Accept(l);
      hash := c.hash;
      carry, lineNumber, lastSeq, prevHash := [], 0, 0, GENESIS;
      seenEventIds, events, malformed, partialBytes := {}, [], [], 0;
      tampered, firstBadSeq, dropping, droppedBytes := false, None, false, 0;
    }

    method MarkTampered(seqNo: int)
      modifies this`tampered, this`firstBadSeq
      ensures State() == FlagTampered(old(State()), seqNo)
    {
      tampered := true;
      if firstBadSeq == None { firstBadSeq := Some(seqNo); }
    }

    /** One complete, newline-free line, as the loop body of parseChunk handles it. */
    method TakeLine(line: Bytes)
      requires hash == codec.hash && accept(line) == codec.Accept(line)
      modifies this
      ensures State() == ReadLine(codec, old(State()), line)
    {
      lineNumber := lineNumber + 1;
      var validated := accept(line);
      if validated == None {
        malformed := malformed + [Malformed(lineNumber, |line|)];
        return;
      }
      var event := validated.value;
      if event.eventId in seenEventIds {
        MarkTampered(event.seqNo);
        return;
      }
      if event.seqNo != lastSeq + 1 || event.prevHash != prevHash {
        MarkTampered(event.seqNo);
      }
      Emit(event, line);
    }

    method Emit(event: Event, line: Bytes)
      modifies this
      ensures State() == old(State()).(seen := old(seenEventIds) + {event.eventId}, events := old(events) + [event],
                                       lastSeq := event.seqNo, prevHash := hash(line))
    {
      seenEventIds := seenEventIds + {event.eventId};
      events := events + [event];
      lastSeq := event.seqNo;
      prevHash := hash(line);
    }

    /** The newline that ends `line`. In a line already known to exceed the limit: it was counted, nothing was kept. */
    method FinishLine(line: Bytes)
      requires hash == codec.hash && (forall l :: accept(l) == codec.Accept(l))
      modifies this
      ensures State() == EndLine(codec, old(State()), line)
    {
      if dropping {
        lineNumber := lineNumber + 1;
        malformed := malformed + [Malformed(lineNumber, droppedBytes + |line|)];
        dropping := false;
        droppedBytes := 0;
      } else {
        TakeLine(line);
      }
    }

    /** The chunk ends inside a line: count it, stop buffering it, or carry it over. */
    method KeepTail(rest: Bytes)
      requires !dropping ==> droppedBytes == 0
      modifies this
      ensures State() == Unfinished(old(State()), rest)
    {
      if dropping {
        droppedBytes := droppedBytes + |rest|;
        partialBytes := droppedBytes;
        carry := [];
      } else if |rest| > LINE_MAX_BYTES {
        dropping := true;
        droppedBytes := |rest|;
        partialBytes := |rest|;
        carry := [];
      } else {
        carry := rest;
        partialBytes := |carry|;
      }
    }

    method Result() returns (r: ReadResult)
      ensures r == Summary(State())
    {
      r := ReadResult(events, malformed, partialBytes, lastSeq, tampered, firstBadSeq);
    }

    method ParseChunk(chunk: Bytes)
      requires Valid()
      modifies this
      ensures Valid()
      ensures State() == FeedAll(codec, old(State()), chunk)
    {
      hide FeedAll, Feed, Resume, EndLine, Unfinished;
      ghost var target := FeedAll(codec, State(), chunk);
      StaysBounded(codec, State(), chunk);
      StartsAtCarry(codec, State(), chunk);
      var combined := carry + chunk;
      var start := 0;
      assert combined[start..] == combined;
      while true
        invariant start <= |combined|
        invariant !dropping ==> droppedBytes == 0
        invariant FeedAll(codec, Resume(State()), combined[start..]) == target
        decreases |combined| - start
      {
        var idx := IndexOf(combined, NEWLINE, start);
        if idx == -1 {
          SuspendsAtEnd(codec, State(), combined[start..]);
          KeepTail(combined[start..]);
          break;
        }
        NextLine(codec, State(), combined, start, idx);
        FinishLine(combined[start..idx]);
        start := idx + 1;
      }
    }
  }

  datatype ReadResult = ReadResult(
    events: seq<Event>,
    malformed: seq<Malformed>,
    partialBytes: nat,
    lastSeq: int,
    tampered: bool,
    firstBadSeq: Option<int>)

  function Summary(st: ParseState): ReadResult {
    ReadResult(st.events, st.malformed, st.partialBytes, st.lastSeq, st.tampered, st.firstBadSeq)
  }

  lemma {:induction false} ReadOn(c: Codec, file: Bytes, pos: nat, n: nat)
    requires pos + n <= |file|
    ensures FeedAll(c, FeedAll(c, INITIAL, file[..pos]), file[pos..pos + n]) == FeedAll(c, INITIAL, file[..pos + n])
  {
    ChunksCompose(c, INITIAL, file[..pos], file[pos..pos + n]);
    assert file[..pos] + file[pos..pos + n] == file[..pos + n];
  }

  /** Read the file in chunks of at most 64 KiB; `shortReads(i)` is how much the i-th read call returns. */
  method ReadAll(c: Codec, file: Bytes, shortReads: nat -> nat) returns (r: ReadResult)
    requires c.RefusesLongLines()
    ensures r == Summary(ReadFile(c, file))
  {
    hide Codec.RefusesLongLines, Feed, ReadFile, Bounded;
    var parser := new LedgerParser(c);
    var pos, calls := 0, 0;
    assert file[..0] == [];
    while pos < |file|
      invariant fresh(parser) && parser.Valid() && parser.codec == c
      invariant pos <= |file|
      invariant parser.State() == FeedAll(c, INITIAL, file[..pos])
    {
      var room := if |file| - pos < CHUNK_SIZE then |file| - pos else CHUNK_SIZE;
      var bytesRead := if 1 <= shortReads(calls) <= room then shortReads(calls) else room;
      parser.ParseChunk(file[pos..pos + bytesRead]);
      ReadOn(c, file, pos, bytesRead);
      pos, calls := pos + bytesRead, calls + 1;
    }
    assert file[..pos] == file;
    ReadIsFold(c, file);
    r := parser.Result();
  }

  // ---------------------------------------------------------------------
  // What tampering means
  // ---------------------------------------------------------------------

  /** The lines that validate, in order. */
  function Accepted(c: Codec, lines: seq<Bytes>): seq<Bytes> {
    if lines == [] then []
    else Accepted(c, lines[..|lines| - 1]) + if c.Accept(lines[|lines| - 1]).Some? then [lines[|lines| - 1]] else []
  }

  function EventsOf(c: Codec, lines: seq<Bytes>): seq<Event> {
    if lines == [] then []
    else
      EventsOf(c, lines[..|lines| - 1]) +
      match c.Accept(lines[|lines| - 1]) case None => [] case Some(e) => [e]
  }

  /** What it takes to extend a chain of accepted lines by one more. */
  ghost predicate Extends(c: Codec, before: seq<Bytes>, e: Event) {
    e.seqNo == |before| + 1 && e.prevHash == (if before == [] then GENESIS else c.hash(before[|before| - 1])) &&
    forall d :: d in EventsOf(c, before) ==> d.eventId != e.eventId
  }

  /** Accepted lines numbered 1..n, each with the hash of the raw line before it and an id not used before. */
  ghost predicate Unbroken(c: Codec, lines: seq<Bytes>) {
    lines == [] ||
    (var init, l := lines[..|lines| - 1], lines[|lines| - 1];
     Unbroken(c, init) && c.Accept(l).Some? && Extends(c, init, c.Accept(l).value))
  }

  /** The parser's memory of an unbroken chain of accepted lines. */
  ghost predicate Remembers(c: Codec, st: ParseState, ok: seq<Bytes>) {
    st.events == EventsOf(c, ok) && st.lastSeq == |ok| &&
    st.prevHash == (if ok == [] then GENESIS else c.hash(ok[|ok| - 1])) &&
    forall id :: id in st.seen <==> exists d :: d in st.events && d.eventId == id
  }

  lemma {:induction false} UnbrokenStep(c: Codec, before: seq<Bytes>, l: Bytes)
    requires Unbroken(c, before) && c.Accept(l).Some?
    ensures Unbroken(c, before + [l]) <==> Extends(c, before, c.Accept(l).value)
    ensures EventsOf(c, before + [l]) == EventsOf(c, before) + [c.Accept(l).value]
  {
    hide Extends;
    assert (before + [l])[..|before|] == before;
  }

  lemma {:induction false} UntamperedStep(c: Codec, st: ParseState, before: seq<Bytes>, l: Bytes)
    requires Remembers(c, st, before) && !st.tampered && Unbroken(c, before) && c.Accept(l).Some?
    ensures var st', ok := ReadLine(c, st, l), before + [l];
      (!st'.tampered <==> Unbroken(c, ok)) && (!st'.tampered ==> Remembers(c, st', ok))
  {
    var e, st' := c.Accept(l).value, ReadLine(c, st, l);
    hide Unbroken;
    UnbrokenStep(c, before, l);
    hide EventsOf;
    if !st'.tampered {
      assert st'.seen == st.seen + {e.eventId} && st'.events == st.events + [e];
    }
  }

  lemma {:induction false} UntamperedState(c: Codec, lines: seq<Bytes>)
    ensures var st, ok := ReadLines(c, INITIAL, lines), Accepted(c, lines);
      (!st.tampered <==> Unbroken(c, ok)) && (!st.tampered ==> Remembers(c, st, ok))
  {
    if lines != [] {
      var init, l := lines[..|lines| - 1], lines[|lines| - 1];
      UntamperedState(c, init);
      var st, before := ReadLines(c, INITIAL, init), Accepted(c, init);
      hide Remembers;
      if c.Accept(l) == None {
        assert before + [] == before;
        assert Accepted(c, lines) == before;
        SameMemory(c, st, ReadLine(c, st, l), before);
      } else if !st.tampered {
        UntamperedStep(c, st, before, l);
      } else {
        assert (before + [l])[..|before|] == before;
      }
    }
  }

  lemma SameMemory(c: Codec, st: ParseState, st': ParseState, ok: seq<Bytes>)
    requires Remembers(c, st, ok) || st.tampered
    requires st'.events == st.events && st'.lastSeq == st.lastSeq && st'.prevHash == st.prevHash && st'.seen == st.seen
    ensures Remembers(c, st', ok) || st.tampered
  {
  }

  /** A file is reported tampered exactly when its accepted lines do not form one unbroken chain. */
  lemma {:induction false} UntamperedIff(c: Codec, file: Bytes)
    ensures !ReadFile(c, file).tampered <==> Unbroken(c, Accepted(c, Split(file).lines))
  {
    UntamperedState(c, Split(file).lines);
  }

  /** Sequence number n is that of the first line that breaks the chain. */
  ghost predicate BreaksAt(c: Codec, ok: seq<Bytes>, n: int) {
    exists i :: 0 <= i < |ok| && Unbroken(c, ok[..i]) && !Unbroken(c, ok[..i + 1]) &&
                c.Accept(ok[i]).Some? && c.Accept(ok[i]).value.seqNo == n
  }

  lemma {:induction false} BreaksStay(c: Codec, ok: seq<Bytes>, l: Bytes, n: int)
    requires BreaksAt(c, ok, n)
    ensures BreaksAt(c, ok + [l], n)
  {
    hide Unbroken;
    var i :| 0 <= i < |ok| && Unbroken(c, ok[..i]) && !Unbroken(c, ok[..i + 1]) &&
             c.Accept(ok[i]).Some? && c.Accept(ok[i]).value.seqNo == n;
    assert (ok + [l])[..i] == ok[..i] && (ok + [l])[..i + 1] == ok[..i + 1];
  }

  lemma {:induction false} FirstBadOfLines(c: Codec, lines: seq<Bytes>)
    ensures var st := ReadLines(c, INITIAL, lines);
      (st.firstBadSeq.Some? <==> st.tampered) && (st.tampered ==> BreaksAt(c, Accepted(c, lines), st.firstBadSeq.value))
  {
    if lines != [] {
      var init, l := lines[..|lines| - 1], lines[|lines| - 1];
      var st, before := ReadLines(c, INITIAL, init), Accepted(c, init);
      FirstBadOfLines(c, init);
      UntamperedState(c, init);
      UntamperedState(c, lines);
      hide Unbroken, Remembers, BreaksAt, ReadLine;
      assert before + [] == before;
      FirstBadStep(c, st, before, l);
    }
  }

  lemma {:induction false} FirstBadStep(c: Codec, st: ParseState, before: seq<Bytes>, l: Bytes)
    requires st.firstBadSeq.Some? <==> st.tampered
    requires st.tampered ==> BreaksAt(c, before, st.firstBadSeq.value)
    requires !st.tampered <==> Unbroken(c, before)
    requires c.Accept(l).Some? ==> (!ReadLine(c, st, l).tampered <==> Unbroken(c, before + [l]))
    ensures var st', ok := ReadLine(c, st, l), if c.Accept(l) == None then before else before + [l];
      (st'.firstBadSeq.Some? <==> st'.tampered) && (st'.tampered ==> BreaksAt(c, ok, st'.firstBadSeq.value))
  {
    hide Unbroken, BreaksAt;
    if c.Accept(l).Some? {
      if st.tampered {
        BreaksStay(c, before, l, st.firstBadSeq.value);
      } else if ReadLine(c, st, l).tampered {
        BreaksHere(c, before, l);
      }
    }
  }

  lemma BreaksHere(c: Codec, before: seq<Bytes>, l: Bytes)
    requires Unbroken(c, before) && !Unbroken(c, before + [l]) && c.Accept(l).Some?
    ensures BreaksAt(c, before + [l], c.Accept(l).value.seqNo)
  {
    hide Unbroken;
    assert (before + [l])[..|before|] == before && (before + [l])[..|before| + 1] == before + [l];
  }

  /** A reported first bad sequence number is that of the first accepted line that breaks the chain. */
  lemma {:induction false} FirstBadSeqIs(c: Codec, file: Bytes)
    ensures var st, ok := ReadFile(c, file), Accepted(c, Split(file).lines);
      if Unbroken(c, ok) then st.firstBadSeq == None
      else st.firstBadSeq.Some? && BreaksAt(c, ok, st.firstBadSeq.value)
  {
    hide Unbroken, BreaksAt;
    FirstBadOfLines(c, Split(file).lines);
    UntamperedState(c, Split(file).lines);
  }

  // ---------------------------------------------------------------------
  // Every line is accounted for
  // ---------------------------------------------------------------------

  /** Line i is accepted and carries this id. */
  predicate Carries(c: Codec, lines: seq<Bytes>, i: int, id: string) {
    0 <= i < |lines| && c.Accept(lines[i]).Some? && c.Accept(lines[i]).value.eventId == id
  }

  /** Line i is accepted and no accepted line before it has its id. */
  ghost predicate IsFresh(c: Codec, lines: seq<Bytes>, i: nat) {
    && i < |lines| && c.Accept(lines[i]).Some?
    && forall j :: 0 <= j < i ==> !Carries(c, lines, j, c.Accept(lines[i]).value.eventId)
  }

  /** The refused lines stand in `bad`, in order, each with its number and length. */
  ghost predicate RefusedAre(c: Codec, lines: seq<Bytes>, malformed: seq<Malformed>, bad: seq<nat>) {
    && Rising(bad, |lines|) && (forall i :: 0 <= i < |lines| ==> (i in bad <==> c.Accept(lines[i]) == None))
    && |malformed| == |bad|
    && (forall k :: 0 <= k < |bad| ==> malformed[k] == Malformed(bad[k] + 1, |lines[bad[k]]|))
  }

  /** The accepted lines with an id not seen before stand in `good`, in order, each read as its event. */
  ghost predicate EventsAre(c: Codec, lines: seq<Bytes>, events: seq<Event>, good: seq<nat>) {
    && Rising(good, |lines|) && (forall i :: 0 <= i < |lines| ==> (i in good <==> IsFresh(c, lines, i)))
    && |events| == |good| && (forall k :: 0 <= k < |good| ==> c.Accept(lines[good[k]]) == Some(events[k]))
  }

  lemma {:induction false} OneMoreRefused(c: Codec, lines: seq<Bytes>, l: Bytes, malformed: seq<Malformed>,
                                          bad: seq<nat>)
    requires RefusedAre(c, lines, malformed, bad)
    ensures c.Accept(l) != None ==> RefusedAre(c, lines + [l], malformed, bad)
    ensures c.Accept(l) == None ==>
      RefusedAre(c, lines + [l], malformed + [Malformed(|lines| + 1, |l|)], bad + [|lines|])
  {
    var all, more := lines + [l], bad + [|lines|];
    if c.Accept(l) == None {
      forall i | 0 <= i < |all| ensures i in more <==> c.Accept(all[i]) == None {
        if i < |lines| { assert i in more <==> i in bad; } else { assert more[|bad|] == i; }
      }
    }
  }

  lemma {:induction false} FreshStays(c: Codec, lines: seq<Bytes>, l: Bytes, i: nat)
    requires i < |lines|
    ensures IsFresh(c, lines + [l], i) <==> IsFresh(c, lines, i)
  {
    var all := lines + [l];
    hide Codec.Accept;
    if c.Accept(lines[i]).Some? {
      var id := c.Accept(lines[i]).value.eventId;
      forall j | 0 <= j < i ensures Carries(c, all, j, id) <==> Carries(c, lines, j, id) { }
    }
  }

  lemma {:induction false} OneMoreEvent(c: Codec, lines: seq<Bytes>, l: Bytes, events: seq<Event>, good: seq<nat>)
    requires EventsAre(c, lines, events, good)
    ensures !IsFresh(c, lines + [l], |lines|) ==> EventsAre(c, lines + [l], events, good)
    ensures IsFresh(c, lines + [l], |lines|) ==>
      EventsAre(c, lines + [l], events + [c.Accept(l).value], good + [|lines|])
  {
    var all, more := lines + [l], good + [|lines|];
    forall i: nat | i < |lines| ensures IsFresh(c, all, i) <==> IsFresh(c, lines, i) { FreshStays(c, lines, l, i); }
    var isNew := IsFresh(c, all, |lines|);
    assert isNew ==> c.Accept(l).Some? && all[|lines|] == l;
    hide IsFresh, Codec.Accept;
    if isNew {
      forall i: nat | i < |all| ensures i in more <==> IsFresh(c, all, i) {
        if i < |lines| { assert i in more <==> i in good; } else { assert more[|good|] == i; }
      }
    }
  }

  ghost predicate SeenAre(c: Codec, lines: seq<Bytes>, seen: set<string>) {
    forall id :: id in seen <==> exists i :: Carries(c, lines, i, id)
  }

  lemma {:induction false} OneMoreId(c: Codec, lines: seq<Bytes>, l: Bytes, seen: set<string>)
    requires SeenAre(c, lines, seen)
    ensures c.Accept(l) == None ==> SeenAre(c, lines + [l], seen)
    ensures c.Accept(l).Some? ==> SeenAre(c, lines + [l], seen + {c.Accept(l).value.eventId})
    ensures IsFresh(c, lines + [l], |lines|) <==> c.Accept(l).Some? && c.Accept(l).value.eventId !in seen
  {
    var all := lines + [l];
    hide Codec.Accept;
    assert all[|lines|] == l;
    var more := if c.Accept(l).Some? then seen + {c.Accept(l).value.eventId} else seen;
    forall i: nat, id | i < |lines| ensures Carries(c, all, i, id) <==> Carries(c, lines, i, id) { }
    forall id ensures id in more <==> exists i :: Carries(c, all, i, id) {
      if id in seen {
        var i :| Carries(c, lines, i, id);
        assert Carries(c, all, i, id);
      } else if id in more {
        assert Carries(c, all, |lines|, id);
      }
    }
  }

  ghost predicate Accounted(c: Codec, lines: seq<Bytes>, st: ParseState, good: seq<nat>, bad: seq<nat>) {
    && EventsAre(c, lines, st.events, good) && RefusedAre(c, lines, st.malformed, bad) && SeenAre(c, lines, st.seen)
    && st.lineNumber == |lines| && st.lastSeq == if st.events == [] then 0 else st.events[|st.events| - 1].seqNo
  }

  lemma {:induction false} LineAccounted(c: Codec, init: seq<Bytes>, l: Bytes, st: ParseState, good: seq<nat>,
                                         bad: seq<nat>)
    requires Accounted(c, init, st, good, bad)
    ensures var st' := ReadLine(c, st, l);
      if c.Accept(l) == None then Accounted(c, init + [l], st', good, bad + [|init|])
      else if c.Accept(l).value.eventId in st.seen then Accounted(c, init + [l], st', good, bad)
      else Accounted(c, init + [l], st', good + [|init|], bad)
  {
    hide EventsAre, RefusedAre, SeenAre, IsFresh, Codec.Accept;
    OneMoreRefused(c, init, l, st.malformed, bad);
    OneMoreEvent(c, init, l, st.events, good);
    OneMoreId(c, init, l, st.seen);
    if c.Accept(l).Some? && c.Accept(l).value.eventId in st.seen {
      assert st.seen + {c.Accept(l).value.eventId} == st.seen;
    }
  }

  lemma LastLineRead(c: Codec, st: ParseState, lines: seq<Bytes>)
    requires lines != []
    ensures var n := |lines| - 1;
      ReadLines(c, st, lines) == ReadLine(c, ReadLines(c, st, lines[..n]), lines[n])
  {
    hide ReadLine;
  }

  lemma {:induction false} LinesAccounted(c: Codec, lines: seq<Bytes>) returns (good: seq<nat>, bad: seq<nat>)
    ensures Accounted(c, lines, ReadLines(c, INITIAL, lines), good, bad)
  {
    if lines == [] {
      good, bad := [], [];
    } else {
      hide *;
      var init, l := lines[..|lines| - 1], lines[|lines| - 1];
      assert lines == init + [l];
      var st := ReadLines(c, INITIAL, init);
      LastLineRead(c, INITIAL, lines);
      good, bad := LinesAccounted(c, init);
      LineAccounted(c, init, l, st, good, bad);
      if c.Accept(l) == None {
        bad := bad + [|init|];
      } else if c.Accept(l).value.eventId !in st.seen {
        good := good + [|init|];
      }
    }
  }

  /**
   Every complete line of a file is an event, a refused line reported by number and length, or a repetition of an
   earlier id: the positions of the events and of the refused lines, in order.
   */
  lemma {:induction false} EveryLineIsAccountedFor(c: Codec, file: Bytes) returns (good: seq<nat>, bad: seq<nat>)
    ensures var st, lines := ReadFile(c, file), Split(file).lines;
      && EventsAre(c, lines, st.events, good) && RefusedAre(c, lines, st.malformed, bad)
      && st.lineNumber == |lines| && st.partialBytes == |Split(file).rest|
      && st.lastSeq == if st.events == [] then 0 else st.events[|st.events| - 1].seqNo
  {
    hide EventsAre, RefusedAre;
    good, bad := LinesAccounted(c, Split(file).lines);
  }
}
