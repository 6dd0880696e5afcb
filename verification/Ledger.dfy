/**
 The pc-event/1 ledger as bytes: events, the functions that turn them into
 lines and back, and how a byte string splits into lines.

 SHA-256, the JSON text and the field-by-field schema are abstract: they are
 the function-valued fields of a `Codec`, and `Codec.Sound` states everything
 that is assumed of them.
 */
module Ledger {
  import opened Options

  type byte = b: int | 0 <= b < 256
  type Bytes = seq<byte>

  const NEWLINE: byte := 0x0a
  const LINE_MAX_BYTES := 4096
  const FILE_MAX_BYTES := 8 * 1024 * 1024
  const SEQ_MAX := 20000
  const READ_TAIL_BYTES := 64 * 1024
  const GENESIS: string := Zeros(64)

  function Zeros(n: nat): (s: string)
    ensures |s| == n && forall i :: 0 <= i < n ==> s[i] == '0'
  {
    if n == 0 then "" else "0" + Zeros(n - 1)
  }

  datatype EventType =
    | RunStarted | RunCompleted | DispatchCreated | AgentStarted | AgentCompleted
    | PacketReturned | PacketRouted | TaskBlocked | RetryScheduled | EvidenceAdded
    | RevisionChanged | VerdictInvalidated | ReviewVerdict | ReleaseVerdict

  /** The fields a caller drafts; `rest` stands for every field the model does not read. */
  datatype Fields = Fields(
    etype: EventType,
    taskId: string,
    targetRevision: string,
    verdict: string,
    invalidates: seq<string>,
    rest: string)

  /** A draft completed with the four fields that only the append primitive assigns. */
  datatype Event = Event(eventId: string, seqNo: int, prevHash: string, ts: string, fields: Fields)

  datatype Codec = Codec(
    hash: Bytes -> string,                   // sha256HexOfLine
    validates: Event -> bool,                // EventValidator.validate
    redactOk: Fields -> bool,                // Redact.scan, which reads free-text fields only
    stringify: Event -> Bytes,               // the JSON text of a validated event
    validateLine: Bytes -> Option<Event>,    // EventValidator.validateLine
    parseSeq: Bytes -> Option<int>)          // the parsed line's sequence number, None if it does not parse
  {
    /** What a line means to the reader: it must validate and pass the redaction scan. */
    function Accept(line: Bytes): Option<Event> {
      match validateLine(line)
      case None => None
      case Some(e) => if redactOk(e.fields) then Some(e) else None
    }

    /** The validator refuses oversized lines before parsing them. */
    ghost predicate RefusesLongLines() {
      forall l :: |l| > LINE_MAX_BYTES ==> validateLine(l) == None
    }

    ghost predicate Sound() {
      // JSON text of an object: never empty, no raw newline.
      && (forall e :: |stringify(e)| > 0 && NEWLINE !in stringify(e))
      // A canonical line within the size limit reads back as the event it was made from.
      && (forall e :: validates(e) && |stringify(e)| <= LINE_MAX_BYTES ==> validateLine(stringify(e)) == Some(e))
      && (forall e :: parseSeq(stringify(e)) == Some(e.seqNo))
      && RefusesLongLines()
      // A strict prefix of an object's JSON text is not JSON.
      && (forall e, f {:trigger IsStrictPrefix(f, stringify(e))} :: IsStrictPrefix(f, stringify(e)) ==>
          validateLine(f) == None && parseSeq(f) == None)
    }
  }

  predicate IsStrictPrefix(f: Bytes, line: Bytes) {
    |f| < |line| && f == line[..|f|]
  }

  /** Complete lines without their newline, and the bytes after the last newline. */
  datatype Pieces = Pieces(lines: seq<Bytes>, rest: Bytes)

  function Split(bs: Bytes): Pieces {
    if bs == [] then Pieces([], [])
    else
      var p := Split(bs[..|bs| - 1]);
      var b := bs[|bs| - 1];
      if b == NEWLINE then Pieces(p.lines + [p.rest], []) else Pieces(p.lines, p.rest + [b])
  }

  /** One rendered line after a file, and the repairing newline before it. */
  lemma {:induction false} RecordConcat(file: Bytes, pre: Bytes, line: Bytes)
    ensures file + (pre + line + [NEWLINE]) == file + pre + line + [NEWLINE]
  {
  }

  /** The bytes of a file holding exactly these complete lines. */
  function Render(lines: seq<Bytes>): Bytes {
    if lines == [] then [] else Render(lines[..|lines| - 1]) + lines[|lines| - 1] + [NEWLINE]
  }

  ghost predicate NoNewlines(lines: seq<Bytes>) {
    forall l :: l in lines ==> NEWLINE !in l
  }

  lemma {:induction false} SplitStep(bs: Bytes, b: byte)
    ensures Split(bs + [b]) ==
      if b == NEWLINE then Pieces(Split(bs).lines + [Split(bs).rest], [])
      else Pieces(Split(bs).lines, Split(bs).rest + [b])
  {
    assert (bs + [b])[..|bs + [b]| - 1] == bs;
  }

  /** Splitting loses nothing. */
  lemma {:induction false} SplitRender(bs: Bytes)
    ensures Render(Split(bs).lines) + Split(bs).rest == bs
  {
    if bs != [] {
      var init, b := bs[..|bs| - 1], bs[|bs| - 1];
      assert bs == init + [b];
      SplitRender(init);
      var p := Split(init);
      if b == NEWLINE { RenderStep(p.lines, p.rest); }
    }
  }

  lemma {:induction false} RenderStep(lines: seq<Bytes>, l: Bytes)
    ensures Render(lines + [l]) == Render(lines) + l + [NEWLINE]
  {
    assert (lines + [l])[..|lines|] == lines;
  }

  /** The lines of a concatenation: the pieces meet in one joined line. */
  lemma {:induction false} SplitConcat(a: Bytes, b: Bytes)
    ensures var p, q, r := Split(a), Split(b), Split(a + b);
      if q.lines == [] then r == Pieces(p.lines, p.rest + q.rest)
      else r == Pieces(p.lines + [p.rest + q.lines[0]] + q.lines[1..], q.rest)
  {
    if b == [] {
      assert a + b == a;
      assert Split(a).rest + [] == Split(a).rest;
    } else {
      var init, x := b[..|b| - 1], b[|b| - 1];
      SplitConcat(a, init);
      SplitStep(a + init, x);
      SplitStep(init, x);
      assert init + [x] == b;
      assert a + b == a + init + [x];
      var p, q := Split(a), Split(init);
      if q.lines == [] {
        if x != NEWLINE { assert p.rest + q.rest + [x] == p.rest + (q.rest + [x]); }
      } else if x == NEWLINE {
        assert (q.lines + [q.rest])[1..] == q.lines[1..] + [q.rest];
      }
    }
  }

  lemma {:induction false} SplitPlain(bs: Bytes)
    requires NEWLINE !in bs
    ensures Split(bs) == Pieces([], bs)
  {
    if bs != [] {
      SplitPlain(bs[..|bs| - 1]);
    }
  }

  lemma {:induction false} SplitAddLine(bs: Bytes, l: Bytes)
    requires Split(bs).rest == [] && NEWLINE !in l
    ensures Split(bs + l + [NEWLINE]) == Pieces(Split(bs).lines + [l], [])
  {
    hide Split;
    SplitPlain(l);
    SplitConcat(bs, l);
    SplitStep(bs + l, NEWLINE);
    assert [] + l == l;
  }

  lemma {:induction false} SplitRendered(lines: seq<Bytes>)
    requires NoNewlines(lines)
    ensures Split(Render(lines)) == Pieces(lines, [])
  {
    if lines != [] {
      hide Split;
      var ls, l := lines[..|lines| - 1], lines[|lines| - 1];
      SplitRendered(ls);
      SplitAddLine(Render(ls), l);
      assert ls + [l] == lines;
    }
  }

  /** Splitting inverts rendering. */
  lemma {:induction false} RenderSplit(lines: seq<Bytes>, rest: Bytes)
    requires NoNewlines(lines) && NEWLINE !in rest
    ensures Split(Render(lines) + rest) == Pieces(lines, rest)
  {
    SplitRendered(lines);
    SplitPlain(rest);
    SplitConcat(Render(lines), rest);
  }
}
