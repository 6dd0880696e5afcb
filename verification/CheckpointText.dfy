/**
 checkpoint.md as text: a block of `KEY: value` lines that ends in the digest
 of everything else, a blank line, and the body.
 */
module CheckpointText {
  import opened Options

  // ---------------------------------------------------------------------
  // Lines and numbers
  // ---------------------------------------------------------------------

  function Join(lines: seq<string>): string {
    if lines == [] then ""
    else if |lines| == 1 then lines[0]
    else Join(lines[..|lines| - 1]) + "\n" + lines[|lines| - 1]
  }

  /** The lines of a text, the last one without a newline. */
  function SplitLines(s: string): (lines: seq<string>)
    ensures |lines| > 0
  {
    if s == "" then [""]
    else
      var ls, ch := SplitLines(s[..|s| - 1]), s[|s| - 1];
      if ch == '\n' then ls + [""] else ls[..|ls| - 1] + [ls[|ls| - 1] + [ch]]
  }

  lemma {:induction false} SplitTail(s: string, t: string)
    requires '\n' !in t
    ensures var ls := SplitLines(s); SplitLines(s + t) == ls[..|ls| - 1] + [ls[|ls| - 1] + t]
  {
    hide SplitLines;
    var ls := SplitLines(s);
    if t == "" {
      assert s + t == s && ls[|ls| - 1] + t == ls[|ls| - 1];
    } else {
      var u, ch := t[..|t| - 1], t[|t| - 1];
      assert t == u + [ch] && s + t == s + u + [ch];
      SplitOneMore(s + u, ch);
      SplitTail(s, u);
      LastExtended(ls, u, ch);
    }
  }

  lemma LastExtended(ls: seq<string>, u: string, ch: char)
    requires ls != []
    ensures var front, last := ls[..|ls| - 1], ls[|ls| - 1];
      var m := front + [last + u];
      m[..|m| - 1] + [m[|m| - 1] + [ch]] == front + [last + (u + [ch])]
  {
    assert ls[|ls| - 1] + u + [ch] == ls[|ls| - 1] + (u + [ch]);
  }

  lemma {:induction false} SplitOneMore(s: string, ch: char)
    requires ch != '\n'
    ensures var ls := SplitLines(s); SplitLines(s + [ch]) == ls[..|ls| - 1] + [ls[|ls| - 1] + [ch]]
  {
    assert (s + [ch])[..|s|] == s;
  }

  lemma {:induction false} SplitNextLine(s: string, l: string)
    requires '\n' !in l
    ensures SplitLines(s + "\n" + l) == SplitLines(s) + [l]
  {
    var t := s + "\n";
    assert t[..|t| - 1] == s && t[|t| - 1] == '\n';
    SplitTail(t, l);
    assert "" + l == l;
  }

  lemma {:induction false} SplitJoin(lines: seq<string>)
    requires lines != [] && forall i :: 0 <= i < |lines| ==> '\n' !in lines[i]
    ensures SplitLines(Join(lines)) == lines
  {
    hide SplitLines;
    var init, l := lines[..|lines| - 1], lines[|lines| - 1];
    if init == [] {
      SplitOneLine(l);
    } else {
      SplitJoin(init);
      SplitNextLine(Join(init), l);
      assert init + [l] == lines;
    }
  }

  lemma {:induction false} SplitOneLine(l: string)
    requires '\n' !in l
    ensures SplitLines(l) == [l]
  {
    SplitTail("", l);
    assert "" + l == l;
  }

  /** Where the first blank line at or after a position begins. */
  function BlankLine(s: string, from: nat): (at: int)
    requires from <= |s|
    ensures at == -1 || (from <= at && at + 2 <= |s|)
    decreases |s| - from
  {
    if from + 2 > |s| then -1
    else if s[from] == '\n' && s[from + 1] == '\n' then from
    else BlankLine(s, from + 1)
  }

  predicate BlankAt(s: string, i: int) {
    0 <= i && i + 1 < |s| && s[i] == '\n' && s[i + 1] == '\n'
  }

  lemma {:induction false} BlankLineIs(s: string, from: nat, at: nat)
    requires from <= at && BlankAt(s, at) && forall i :: from <= i < at ==> !BlankAt(s, i)
    ensures BlankLine(s, from) == at
    decreases at - from
  {
    if from < at {
      assert !BlankAt(s, from);
      BlankLineIs(s, from + 1, at);
    }
  }

  predicate NonBlank(line: string) {
    line != "" && '\n' !in line
  }

  lemma {:induction false} NonBlankChars(line: string)
    requires NonBlank(line)
    ensures forall i :: 0 <= i < |line| ==> line[i] != '\n'
  {
  }

  lemma {:induction false} JoinHasNoBlankLine(lines: seq<string>)
    requires forall i :: 0 <= i < |lines| ==> NonBlank(lines[i])
    ensures forall i :: !BlankAt(Join(lines), i)
    ensures lines != [] ==> Join(lines) != "" && Join(lines)[|Join(lines)| - 1] != '\n'
  {
    if lines != [] {
      var init, l := lines[..|lines| - 1], lines[|lines| - 1];
      NonBlankChars(l);
      if init != [] {
        JoinHasNoBlankLine(init);
        var j := Join(init);
        var t := j + "\n" + l;
        forall i ensures !BlankAt(t, i) {
          assert !BlankAt(j, i);
          if 0 <= i < |j| - 1 {
            assert t[i] == j[i] && t[i + 1] == j[i + 1];
          } else if i == |j| - 1 {
            assert t[i] == j[i];
          } else if i == |j| && i + 1 < |t| {
            assert t[i + 1] == l[0];
          } else if |j| < i < |t| {
            assert t[i] == l[i - |j| - 1];
          }
        }
        assert t[|t| - 1] == l[|l| - 1];
      }
    }
  }

  predicate IsDigit(ch: char) {
    '0' <= ch <= '9'
  }

  predicate Digits(s: string) {
    s != "" && AllDigits(s)
  }

  predicate AllDigits(s: string) {
    forall i :: 0 <= i < |s| ==> IsDigit(s[i])
  }

  function Decimal(n: nat): string {
    if n < 10 then [('0' as int + n) as char] else Decimal(n / 10) + [('0' as int + n % 10) as char]
  }

  function ParseDecimal(s: string): nat
    requires AllDigits(s)
  {
    if s == "" then 0 else ParseDecimal(s[..|s| - 1]) * 10 + (s[|s| - 1] as int - '0' as int)
  }

  lemma {:induction false} DecimalRoundTrip(n: nat)
    ensures Digits(Decimal(n)) && ParseDecimal(Decimal(n)) == n
  {
    if n < 10 {
      assert Decimal(n)[..0] == "";
    } else {
      DecimalRoundTrip(n / 10);
      assert Decimal(n)[..|Decimal(n)| - 1] == Decimal(n / 10);
    }
  }

  lemma {:induction false} DecimalLength(n: nat, k: nat)
    requires k > 0 && n < Pow10(k)
    ensures |Decimal(n)| <= k
  {
    if n >= 10 {
      DecimalLength(n / 10, k - 1);
    }
  }

  function Pow10(k: nat): nat {
    if k == 0 then 1 else 10 * Pow10(k - 1)
  }

  // ---------------------------------------------------------------------
  // The packet
  // ---------------------------------------------------------------------

  const HEADER_KEYS := ["RUN_ID", "LAST_SEQ", "LAST_HASH", "REVISION", "WORKTREE_ID", "GENERATED_AT", "SIZE",
                        "PACKET_SHA256"]

  datatype Header = Header(
    runId: string, lastSeq: nat, lastHash: string, revision: string,
    worktreeId: string, generatedAt: string, size: string)

  function HeaderLine(key: string, value: string): string {
    key + ": " + value
  }

  function LinesBeforeDigest(h: Header): (lines: seq<string>)
    ensures |lines| == 7
  {
    [HeaderLine("RUN_ID", h.runId), HeaderLine("LAST_SEQ", Decimal(h.lastSeq)), HeaderLine("LAST_HASH", h.lastHash),
     HeaderLine("REVISION", h.revision), HeaderLine("WORKTREE_ID", h.worktreeId),
     HeaderLine("GENERATED_AT", h.generatedAt), HeaderLine("SIZE", h.size)]
  }

  /** The text the digest is taken of: every header line before it, as written, and the body. */
  function Digested(lines: seq<string>, body: string): string {
    Join(lines) + "\n\n" + body
  }

  function RenderPacket(sha: string -> string, h: Header, body: string): string {
    var lines := LinesBeforeDigest(h);
    Join(lines + [HeaderLine("PACKET_SHA256", sha(Digested(lines, body)))]) + "\n\n" + body
  }

  predicate LineTerminator(ch: char) {
    ch == '\n' || ch == '\r' || ch == '\U{2028}' || ch == '\U{2029}'
  }

  /** Printable ASCII: what every header value consists of. */
  predicate Plain(s: string) {
    forall i :: 0 <= i < |s| ==> ' ' <= s[i] <= '~'
  }

  predicate Hex(s: string, n: nat) {
    |s| == n && forall i :: 0 <= i < |s| ==> IsDigit(s[i]) || 'a' <= s[i] <= 'f'
  }

  predicate WorktreeId(s: string) {
    s == "CLEAN" || s == "NOT_COMPUTED" || s == "UNKNOWN" || Hex(s, 12)
  }

  predicate StartsWith(s: string, prefix: string) {
    prefix <= s
  }

  /** The value of a header line; None where the header pattern does not match the line. */
  function ValueOf(line: string, key: string): Option<string> {
    if |line| < |key| + 2 then None
    else
    var v := line[|key| + 2..];
    if exists i :: 0 <= i < |v| && LineTerminator(v[i]) then None else Some(v)
  }

  datatype Parsed = Parsed(
    runId: string, lastSeq: nat, lastHash: string, revision: string, worktreeId: string,
    digest: string, linesBeforeDigest: seq<string>, body: string)

  predicate HeaderShape(lines: seq<string>) {
    |lines| == |HEADER_KEYS| && forall i :: 0 <= i < |lines| ==> StartsWith(lines[i], HEADER_KEYS[i] + ": ")
  }

  /** The parsing half of verifyMode: None is CHECKPOINT_UNPARSEABLE. */
  function ParseCheckpoint(text: string): Option<Parsed> {
    var bodyStart := BlankLine(text, 0);
    var lines := if bodyStart == -1 then [] else SplitLines(text[..bodyStart]);
    if !HeaderShape(lines) then None
    else
      var runId, seqNo, hash, revision, worktree, digest :=
        ValueOf(lines[0], "RUN_ID"), ValueOf(lines[1], "LAST_SEQ"), ValueOf(lines[2], "LAST_HASH"),
        ValueOf(lines[3], "REVISION"), ValueOf(lines[4], "WORKTREE_ID"), ValueOf(lines[7], "PACKET_SHA256");
      if seqNo == None || hash == None || digest == None || worktree == None then None
      else if !Digits(seqNo.value) || !Hex(hash.value, 64) || !Hex(digest.value, 64) ||
        !WorktreeId(worktree.value) then None
      else if runId == None || runId.value == "" || revision == None || revision.value == "" then None
      else Some(Parsed(runId.value, ParseDecimal(seqNo.value), hash.value, revision.value, worktree.value,
                       digest.value, lines[..7], text[bodyStart + 2..]))
  }

  /** A header as generateMode fills it in. */
  predicate WellFormed(h: Header) {
    && Plain(h.runId) && h.runId != "" && Plain(h.revision) && h.revision != ""
    && Hex(h.lastHash, 64) && WorktreeId(h.worktreeId) && Plain(h.generatedAt)
    && Plain(h.size)
  }

  predicate PlainLine(line: string, key: string) {
    Plain(line) && line != "" && StartsWith(line, key + ": ")
  }

  lemma {:induction false} PlainLineHasNoNewline(line: string)
    requires Plain(line) && line != ""
    ensures NonBlank(line)
  {
  }

  lemma {:induction false} KeyedLine(key: string, value: string)
    requires Plain(key) && Plain(value)
    ensures PlainLine(HeaderLine(key, value), key)
  {
    assert (key + ": " + value)[..|key| + 2] == key + ": ";
  }

  lemma WellFormedIsPlain(h: Header)
    requires WellFormed(h)
    ensures Plain(h.runId) && Plain(h.lastHash) && Plain(h.revision) && Plain(h.worktreeId) && Plain(h.generatedAt)
    ensures Plain(h.size)
  {
  }

  lemma KeysArePlain()
    ensures |HEADER_KEYS| == 8 && forall i :: 0 <= i < 8 ==> Plain(HEADER_KEYS[i])
  {
  }

  lemma HexIsPlain(s: string, n: nat)
    requires Hex(s, n)
    ensures Plain(s)
  {
  }

  lemma {:induction false} HeaderLinesArePlain(h: Header, digest: string)
    requires WellFormed(h) && Hex(digest, 64)
    ensures var lines := LinesBeforeDigest(h) + [HeaderLine("PACKET_SHA256", digest)];
      && |lines| == 8
      && (forall i :: 0 <= i < 8 ==> PlainLine(lines[i], HEADER_KEYS[i]))
  {
    hide HeaderLine, PlainLine, Decimal;
    DecimalRoundTrip(h.lastSeq);
    WellFormedIsPlain(h);
    KeysArePlain();
    HexIsPlain(digest, 64);
    hide WellFormed, Hex, Plain;
    var keys := HEADER_KEYS;
    assert Plain(keys[0]) && Plain(keys[1]) && Plain(keys[2]) && Plain(keys[3]) && Plain(keys[4]) && Plain(keys[5]);
    assert Plain(keys[6]) && Plain(keys[7]);
    KeyedLine("RUN_ID", h.runId);
    KeyedLine("LAST_SEQ", Decimal(h.lastSeq));
    KeyedLine("LAST_HASH", h.lastHash);
    KeyedLine("REVISION", h.revision);
    KeyedLine("WORKTREE_ID", h.worktreeId);
    KeyedLine("GENERATED_AT", h.generatedAt);
    KeyedLine("SIZE", h.size);
    KeyedLine("PACKET_SHA256", digest);
  }

  /** A rendered packet parses back to its header and body, and its digest covers exactly what was digested. */
  lemma {:induction false} PacketRoundTrip(sha: string -> string, h: Header, body: string)
    requires WellFormed(h) && Hex(sha(Digested(LinesBeforeDigest(h), body)), 64)
    ensures ParseCheckpoint(RenderPacket(sha, h, body)) ==
      Some(Parsed(h.runId, h.lastSeq, h.lastHash, h.revision, h.worktreeId,
                  sha(Digested(LinesBeforeDigest(h), body)), LinesBeforeDigest(h), body))
  {
    hide BlankLine, SplitLines, Join, Decimal, ValueOf, Plain, Digested;
    var digest := sha(Digested(LinesBeforeDigest(h), body));
    var lines := LinesBeforeDigest(h) + [HeaderLine("PACKET_SHA256", digest)];
    var text := RenderPacket(sha, h, body);
    HeaderLinesArePlain(h, digest);
    forall i | 0 <= i < |lines| ensures NonBlank(lines[i]) {
      PlainLineHasNoNewline(lines[i]);
    }
    HeaderEndsAtBlankLine(lines, body);
    assert text[..|Join(lines)|] == Join(lines);
    SplitJoin(lines);
    assert text[|Join(lines)| + 2..] == body;
    assert lines[..7] == LinesBeforeDigest(h);
    assert HeaderShape(lines);
    ValuesReadBack(h, digest, lines);
  }

  lemma {:induction false} HeaderEndsAtBlankLine(lines: seq<string>, body: string)
    requires lines != [] && forall i :: 0 <= i < |lines| ==> NonBlank(lines[i])
    ensures BlankLine(Join(lines) + "\n\n" + body, 0) == |Join(lines)|
  {
    JoinHasNoBlankLine(lines);
    var j := Join(lines);
    var text := j + "\n\n" + body;
    forall i | 0 <= i < |j| ensures !BlankAt(text, i) {
      assert !BlankAt(j, i);
    }
    BlankLineIs(text, 0, |j|);
  }

  lemma {:induction false} ValuesReadBack(h: Header, digest: string, lines: seq<string>)
    requires WellFormed(h) && Hex(digest, 64)
    requires lines == LinesBeforeDigest(h) + [HeaderLine("PACKET_SHA256", digest)] && HeaderShape(lines)
    ensures ValueOf(lines[0], "RUN_ID") == Some(h.runId)
    ensures ValueOf(lines[1], "LAST_SEQ") == Some(Decimal(h.lastSeq))
    ensures Digits(Decimal(h.lastSeq)) && ParseDecimal(Decimal(h.lastSeq)) == h.lastSeq
    ensures ValueOf(lines[2], "LAST_HASH") == Some(h.lastHash)
    ensures ValueOf(lines[3], "REVISION") == Some(h.revision)
    ensures ValueOf(lines[4], "WORKTREE_ID") == Some(h.worktreeId)
    ensures ValueOf(lines[7], "PACKET_SHA256") == Some(digest)
  {
    DecimalRoundTrip(h.lastSeq);
    PlainValue("RUN_ID", h.runId);
    PlainValue("LAST_SEQ", Decimal(h.lastSeq));
    PlainValue("LAST_HASH", h.lastHash);
    PlainValue("REVISION", h.revision);
    PlainValue("WORKTREE_ID", h.worktreeId);
    PlainValue("PACKET_SHA256", digest);
  }

  lemma {:induction false} PlainValue(key: string, value: string)
    requires Plain(value)
    ensures StartsWith(HeaderLine(key, value), key + ": ")
    ensures ValueOf(HeaderLine(key, value), key) == Some(value)
  {
    assert (key + ": " + value)[..|key| + 2] == key + ": ";
    assert (key + ": " + value)[|key| + 2..] == value;
  }
}
