/**
 What a packet text that parses looks like, and why an edited one is noticed:
 two different texts with one digest would be a collision of SHA-256.
 */
module PacketText {
  import opened Options
  import opened CheckpointText

  // ---------------------------------------------------------------------
  // Lines
  // ---------------------------------------------------------------------

  /** Joining inverts splitting. */
  lemma {:induction false} JoinSplit(s: string)
    ensures Join(SplitLines(s)) == s
    ensures forall i :: 0 <= i < |SplitLines(s)| ==> '\n' !in SplitLines(s)[i]
  {
    if s == "" {
      assert Join([""]) == "";
    } else {
      var init, ch := s[..|s| - 1], s[|s| - 1];
      assert s == init + [ch];
      var ls := SplitLines(init);
      var front, last := ls[..|ls| - 1], ls[|ls| - 1];
      assert SplitLines(s) == if ch == '\n' then ls + [""] else front + [last + [ch]];
      hide SplitLines, Join;
      JoinSplit(init);
      if ch == '\n' {
        JoinMore(ls, "");
        assert init + "\n" + "" == s;
      } else {
        assert ls == front + [last];
        JoinLonger(front, last, ch);
        PlainLines(front, last, ch);
      }
    }
  }

  lemma PlainLines(front: seq<string>, last: string, ch: char)
    requires ch != '\n' && forall i :: 0 <= i < |front + [last]| ==> '\n' !in (front + [last])[i]
    ensures forall i :: 0 <= i < |front + [last + [ch]]| ==> '\n' !in (front + [last + [ch]])[i]
  {
    assert (front + [last])[|front|] == last;
    assert forall i :: 0 <= i < |front| ==> (front + [last])[i] == front[i];
  }

  lemma JoinMore(ls: seq<string>, l: string)
    requires ls != []
    ensures Join(ls + [l]) == Join(ls) + "\n" + l
  {
    assert (ls + [l])[..|ls|] == ls;
  }

  lemma JoinLonger(front: seq<string>, last: string, ch: char)
    ensures Join(front + [last + [ch]]) == Join(front + [last]) + [ch]
  {
    if front != [] {
      JoinMore(front, last + [ch]);
      JoinMore(front, last);
    }
  }

  lemma {:induction false} BlankLineFound(s: string, from: nat)
    requires from <= |s| && BlankLine(s, from) != -1
    ensures s[BlankLine(s, from)] == s[BlankLine(s, from) + 1] == '\n'
    decreases |s| - from
  {
    if !(s[from] == '\n' && s[from + 1] == '\n') { BlankLineFound(s, from + 1); }
  }

  // ---------------------------------------------------------------------
  // Texts that parse
  // ---------------------------------------------------------------------

  lemma {:induction false} ValueIs(line: string, key: string)
    requires StartsWith(line, key + ": ") && ValueOf(line, key).Some?
    ensures line == key + ": " + ValueOf(line, key).value
    ensures forall i :: 0 <= i < |ValueOf(line, key).value| ==> !LineTerminator(ValueOf(line, key).value[i])
  {
    assert line[..|key| + 2] == key + ": ";
    assert line == line[..|key| + 2] + line[|key| + 2..];
  }

  predicate OneLine(s: string) {
    forall i :: 0 <= i < |s| ==> s[i] !in {'\n', '\r', '\U{2028}', '\U{2029}'}
  }

  /** The eight header lines as their keys and values say, in this order. */
  predicate HeaderIs(lines: seq<string>, p: Parsed) {
    && |lines| == 8
    && lines[0] == "RUN_ID: " + p.runId && p.runId != "" && OneLine(p.runId)
    && "LAST_SEQ: " <= lines[1] && Digits(lines[1][10..]) && ParseDecimal(lines[1][10..]) == p.lastSeq
    && lines[2] == "LAST_HASH: " + p.lastHash && Hex(p.lastHash, 64)
    && lines[3] == "REVISION: " + p.revision && p.revision != "" && OneLine(p.revision)
    && lines[4] == "WORKTREE_ID: " + p.worktreeId && WorktreeId(p.worktreeId)
    && "GENERATED_AT: " <= lines[5] && "SIZE: " <= lines[6]
    && lines[7] == "PACKET_SHA256: " + p.digest && Hex(p.digest, 64)
  }

  lemma KeyAt(lines: seq<string>, i: nat, key: string)
    requires HeaderShape(lines) && i < 8 && HEADER_KEYS[i] == key
    ensures |lines| == 8 && StartsWith(lines[i], key + ": ")
  {
  }

  lemma Colons()
    ensures "RUN_ID" + ": " == "RUN_ID: " && "LAST_SEQ" + ": " == "LAST_SEQ: " && "LAST_HASH" + ": " == "LAST_HASH: "
    ensures "REVISION" + ": " == "REVISION: " && "WORKTREE_ID" + ": " == "WORKTREE_ID: "
    ensures "GENERATED_AT" + ": " == "GENERATED_AT: " && "SIZE" + ": " == "SIZE: "
    ensures "PACKET_SHA256" + ": " == "PACKET_SHA256: "
  {
  }

  /** A text that parses is its eight header lines, a blank line and the body; nothing else is in it. */
  lemma {:induction false} ParsedTextIs(text: string)
    requires ParseCheckpoint(text).Some?
    ensures var p := ParseCheckpoint(text).value;
      var lines := p.linesBeforeDigest + ["PACKET_SHA256: " + p.digest];
      HeaderIs(lines, p) && text == Join(lines) + "\n\n" + p.body && forall i :: 0 <= i < 8 ==> NonBlank(lines[i])
  {
    var at := BlankLine(text, 0);
    assert at != -1 by { assert !HeaderShape([]); }
    var lines := SplitLines(text[..at]);
    var p := ParseCheckpoint(text).value;
    assert HeaderShape(lines);
    BlankLineFound(text, 0);
    assert p.linesBeforeDigest == lines[..7] && p.body == text[at + 2..];
    HeaderReads(text);
    hide ParseCheckpoint, SplitLines, BlankLine, Join;
    JoinSplit(text[..at]);
    AroundBlankLine(text, at);
    ValuesAre(lines, p);
    assert lines == lines[..7] + [lines[7]];
  }

  lemma AroundBlankLine(text: string, at: nat)
    requires at + 2 <= |text| && text[at] == text[at + 1] == '\n'
    ensures text == text[..at] + "\n\n" + text[at + 2..]
  {
    assert text[at..at + 2] == "\n\n";
  }

  /** What the parser read from each line. */
  predicate Reads(lines: seq<string>, p: Parsed) {
    |lines| == 8 ==>
      && ValueOf(lines[0], "RUN_ID") == Some(p.runId) && p.runId != ""
      && ValueOf(lines[1], "LAST_SEQ").Some? && Digits(ValueOf(lines[1], "LAST_SEQ").value)
      && ParseDecimal(ValueOf(lines[1], "LAST_SEQ").value) == p.lastSeq
      && ValueOf(lines[2], "LAST_HASH") == Some(p.lastHash) && Hex(p.lastHash, 64)
      && ValueOf(lines[3], "REVISION") == Some(p.revision) && p.revision != ""
      && ValueOf(lines[4], "WORKTREE_ID") == Some(p.worktreeId) && WorktreeId(p.worktreeId)
      && ValueOf(lines[7], "PACKET_SHA256") == Some(p.digest) && Hex(p.digest, 64)
  }

  lemma HeaderReads(text: string)
    requires ParseCheckpoint(text).Some? && BlankLine(text, 0) != -1
    ensures Reads(SplitLines(text[..BlankLine(text, 0)]), ParseCheckpoint(text).value)
  {
    hide SplitLines, BlankLine, ValueOf, Hex, WorktreeId, ParseDecimal;
  }

  lemma {:induction false} ValuesAre(lines: seq<string>, p: Parsed)
    requires HeaderShape(lines) && forall i :: 0 <= i < |lines| ==> '\n' !in lines[i]
    requires Reads(lines, p)
    ensures HeaderIs(lines, p) && forall i :: 0 <= i < 8 ==> NonBlank(lines[i])
  {
    KeyAt(lines, 0, "RUN_ID");
    KeyAt(lines, 1, "LAST_SEQ");
    KeyAt(lines, 2, "LAST_HASH");
    KeyAt(lines, 3, "REVISION");
    KeyAt(lines, 4, "WORKTREE_ID");
    KeyAt(lines, 5, "GENERATED_AT");
    KeyAt(lines, 6, "SIZE");
    KeyAt(lines, 7, "PACKET_SHA256");
    Colons();
    hide HeaderShape, StartsWith;
    ValueIs(lines[0], "RUN_ID");
    ValueIs(lines[1], "LAST_SEQ");
    ValueIs(lines[2], "LAST_HASH");
    ValueIs(lines[3], "REVISION");
    ValueIs(lines[4], "WORKTREE_ID");
    ValueIs(lines[7], "PACKET_SHA256");
  }

  // ---------------------------------------------------------------------
  // Edits
  // ---------------------------------------------------------------------

  /** The digested text determines the lines and the body it was made of. */
  lemma {:induction false} DigestedDetermines(a: seq<string>, x: string, b: seq<string>, y: string)
    requires a != [] && b != [] && Digested(a, x) == Digested(b, y)
    requires (forall i :: 0 <= i < |a| ==> NonBlank(a[i])) && forall i :: 0 <= i < |b| ==> NonBlank(b[i])
    ensures a == b && x == y
  {
    hide Join;
    HeaderEndsAtBlankLine(a, x);
    HeaderEndsAtBlankLine(b, y);
    var d, j, k := Digested(a, x), Join(a), Join(b);
    assert |j| == |k|;
    assert j == d[..|j|] == k;
    assert x == d[|j| + 2..] == y;
    SplitJoin(a);
    SplitJoin(b);
  }

  /**
   Editing a packet without being noticed takes a collision: two different texts that parse, carry the same digest and
   pass the check of it digest different texts to that one value.
   */
  lemma {:induction false} EditNeedsCollision(sha: string -> string, text: string, edited: string)
    requires ParseCheckpoint(text).Some? && ParseCheckpoint(edited).Some? && text != edited
    requires var p, q := ParseCheckpoint(text).value, ParseCheckpoint(edited).value;
      sha(Digested(p.linesBeforeDigest, p.body)) == p.digest == q.digest == sha(Digested(q.linesBeforeDigest, q.body))
    ensures var p, q := ParseCheckpoint(text).value, ParseCheckpoint(edited).value;
      var a, b := Digested(p.linesBeforeDigest, p.body), Digested(q.linesBeforeDigest, q.body);
      a != b && sha(a) == sha(b)
  {
    ParsedTextIs(text);
    ParsedTextIs(edited);
    var p, q := ParseCheckpoint(text).value, ParseCheckpoint(edited).value;
    hide ParseCheckpoint, Join, Digested;
    if Digested(p.linesBeforeDigest, p.body) == Digested(q.linesBeforeDigest, q.body) {
      LinesBefore(p);
      LinesBefore(q);
      DigestedDetermines(p.linesBeforeDigest, p.body, q.linesBeforeDigest, q.body);
    }
  }

  lemma LinesBefore(p: Parsed)
    requires var lines := p.linesBeforeDigest + ["PACKET_SHA256: " + p.digest];
      HeaderIs(lines, p) && forall i :: 0 <= i < 8 ==> NonBlank(lines[i])
    ensures |p.linesBeforeDigest| == 7 && forall i :: 0 <= i < 7 ==> NonBlank(p.linesBeforeDigest[i])
  {
    var lines := p.linesBeforeDigest + ["PACKET_SHA256: " + p.digest];
    forall i | 0 <= i < 7 ensures NonBlank(p.linesBeforeDigest[i]) { assert lines[i] == p.linesBeforeDigest[i]; }
  }

  /** The text of a packet, spelled out. */
  lemma {:induction false} PacketIs(sha: string -> string, h: Header, body: string)
    ensures var lines := ["RUN_ID: " + h.runId, "LAST_SEQ: " + Decimal(h.lastSeq), "LAST_HASH: " + h.lastHash,
                          "REVISION: " + h.revision, "WORKTREE_ID: " + h.worktreeId,
                          "GENERATED_AT: " + h.generatedAt, "SIZE: " + h.size];
      RenderPacket(sha, h, body) ==
        Join(lines + ["PACKET_SHA256: " + sha(Join(lines) + "\n\n" + body)]) + "\n\n" + body
  {
    Colons();
  }
}
