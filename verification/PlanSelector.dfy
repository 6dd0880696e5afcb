/**
 The bracket and quote check on selectors in a plan: a one-pass loop with a
 stack and a quote mark, against a grammar of nested groups and quoted strings.
 */
module PlanSelector {
  import opened Options

  const MAX_SELECTOR := 1000

  datatype Problem = NotText | TooLong | ControlCharacter | UnbalancedBrackets | UnterminatedQuote

  // ---------------------------------------------------------------------
  // Grammar
  // ---------------------------------------------------------------------

  /** The inside of a quoted string. */
  datatype Body = End | Char(c: char, next: Body) | Escape(c: char, next: Body)

  datatype Text =
    | Empty
    | Plain(c: char, rest: Text)
    | Quoted(mark: char, body: Body, rest: Text)
    | Group(close: char, inner: Text, rest: Text)

  predicate IsQuote(c: char) {
    c == '"' || c == '\''
  }

  predicate IsOpen(c: char) {
    c == '(' || c == '['
  }

  predicate IsClose(c: char) {
    c == ')' || c == ']'
  }

  function Opener(close: char): char {
    if close == ')' then '(' else '['
  }

  function Closer(open: char): char {
    if open == '(' then ')' else ']'
  }

  predicate BodyOk(b: Body, mark: char) {
    match b
    case End => true
    case Char(c, next) => c != '\\' && c != mark && BodyOk(next, mark)
    case Escape(_, next) => BodyOk(next, mark)
  }

  predicate Ok(t: Text) {
    match t
    case Empty => true
    case Plain(c, rest) => !IsQuote(c) && !IsOpen(c) && !IsClose(c) && Ok(rest)
    case Quoted(mark, body, rest) => IsQuote(mark) && BodyOk(body, mark) && Ok(rest)
    case Group(close, inner, rest) => IsClose(close) && Ok(inner) && Ok(rest)
  }

  function BodyYield(b: Body): string {
    match b
    case End => ""
    case Char(c, next) => [c] + BodyYield(next)
    case Escape(c, next) => ['\\', c] + BodyYield(next)
  }

  function Yield(t: Text): string {
    match t
    case Empty => ""
    case Plain(c, rest) => [c] + Yield(rest)
    case Quoted(mark, body, rest) => [mark] + (BodyYield(body) + ([mark] + Yield(rest)))
    case Group(close, inner, rest) => [Opener(close)] + (Yield(inner) + ([close] + Yield(rest)))
  }

  ghost predicate Derivable(s: string) {
    exists t :: Ok(t) && Yield(t) == s
  }

  // ---------------------------------------------------------------------
  // The scan
  // ---------------------------------------------------------------------

  /** The verdict of the loop on what is left, with the closers still owed and the quote it is in. */
  function Scan(s: string, owed: seq<char>, quote: Option<char>): Option<Problem>
    decreases |s|
  {
    if s == "" then
      if quote.Some? then Some(UnterminatedQuote) else if owed != [] then Some(UnbalancedBrackets) else None
    else if quote.Some? then
      if s[0] == '\\' then Scan(if |s| == 1 then "" else s[2..], owed, quote)
      else Scan(s[1..], owed, if s[0] == quote.value then None else quote)
    else if IsQuote(s[0]) then Scan(s[1..], owed, Some(s[0]))
    else if IsOpen(s[0]) then Scan(s[1..], owed + [Closer(s[0])], None)
    else if IsClose(s[0]) then
      if owed == [] || owed[|owed| - 1] != s[0] then Some(UnbalancedBrackets)
      else Scan(s[1..], owed[..|owed| - 1], None)
    else Scan(s[1..], owed, None)
  }

  /** One character inside a quote, and an escape. */
  lemma {:induction false} QuoteStep(c: char, s: string, owed: seq<char>, mark: char)
    ensures c != '\\' ==> Scan([c] + s, owed, Some(mark)) == Scan(s, owed, if c == mark then None else Some(mark))
    ensures Scan(['\\', c] + s, owed, Some(mark)) == Scan(s, owed, Some(mark))
  {
    assert ([c] + s)[1..] == s && (['\\', c] + s)[2..] == s;
  }

  /** One character outside quotes. */
  lemma {:induction false} PlainStep(c: char, s: string, owed: seq<char>)
    ensures IsQuote(c) ==> Scan([c] + s, owed, None) == Scan(s, owed, Some(c))
    ensures IsOpen(c) ==> Scan([c] + s, owed, None) == Scan(s, owed + [Closer(c)], None)
    ensures IsClose(c) ==> Scan([c] + s, owed + [c], None) == Scan(s, owed, None)
    ensures !IsQuote(c) && !IsOpen(c) && !IsClose(c) ==> Scan([c] + s, owed, None) == Scan(s, owed, None)
  {
    assert ([c] + s)[1..] == s && (owed + [c])[..|owed|] == owed;
  }

  lemma {:induction false} ScanPassesBody(b: Body, mark: char, after: string, owed: seq<char>)
    requires IsQuote(mark) && BodyOk(b, mark)
    ensures Scan(BodyYield(b) + ([mark] + after), owed, Some(mark)) == Scan(after, owed, None)
  {
    hide Scan;
    var end := [mark] + after;
    match b
    case End =>
      assert "" + end == end;
      QuoteStep(mark, after, owed, mark);
    case Char(c, next) =>
      assert BodyYield(b) + end == [c] + (BodyYield(next) + end);
      QuoteStep(c, BodyYield(next) + end, owed, mark);
      ScanPassesBody(next, mark, after, owed);
    case Escape(c, next) =>
      assert BodyYield(b) + end == ['\\', c] + (BodyYield(next) + end);
      QuoteStep(c, BodyYield(next) + end, owed, mark);
      ScanPassesBody(next, mark, after, owed);
  }

  lemma Regroup(open: char, a: string, close: char, r: string, after: string)
    ensures [open] + (a + ([close] + r)) + after == [open] + (a + ([close] + (r + after)))
  {
  }

  /** A derived text leaves the scan where it was. */
  lemma {:induction false} ScanPasses(t: Text, after: string, owed: seq<char>)
    requires Ok(t)
    ensures Scan(Yield(t) + after, owed, None) == Scan(after, owed, None)
  {
    hide Scan, BodyYield;
    match t
    case Empty =>
      assert "" + after == after;
    case Plain(c, rest) =>
      assert Yield(t) + after == [c] + (Yield(rest) + after);
      PlainStep(c, Yield(rest) + after, owed);
      ScanPasses(rest, after, owed);
    case Quoted(mark, body, rest) =>
      var z := Yield(rest) + after;
      Regroup(mark, BodyYield(body), mark, Yield(rest), after);
      PlainStep(mark, BodyYield(body) + ([mark] + z), owed);
      ScanPassesBody(body, mark, z, owed);
      ScanPasses(rest, after, owed);
    case Group(close, inner, rest) =>
      var z := Yield(rest) + after;
      Regroup(Opener(close), Yield(inner), close, Yield(rest), after);
      PlainStep(Opener(close), Yield(inner) + ([close] + z), owed);
      ScanPasses(inner, [close] + z, owed + [close]);
      PlainStep(close, z, owed);
      ScanPasses(rest, after, owed);
  }

  /** What an accepting scan still has to read: one text per open group, each but the last ended by its closer. */
  function Remaining(texts: seq<Text>, owed: seq<char>): string
    requires |texts| == |owed| + 1
  {
    if owed == [] then Yield(texts[0])
    else Yield(texts[0]) + ([owed[|owed| - 1]] + Remaining(texts[1..], owed[..|owed| - 1]))
  }

  ghost predicate AllOk(texts: seq<Text>) {
    forall i :: 0 <= i < |texts| ==> Ok(texts[i])
  }

  lemma {:induction false} ReadBody(s: string, owed: seq<char>, mark: char) returns (body: Body, rest: string)
    requires IsQuote(mark) && Scan(s, owed, Some(mark)) == None
    ensures BodyOk(body, mark) && s == BodyYield(body) + ([mark] + rest) && Scan(rest, owed, None) == None
    decreases |s|
  {
    assert s != "" && (s[0] == '\\' ==> |s| >= 2);
    hide Scan;
    assert s == [s[0]] + s[1..];
    if s[0] == '\\' {
      assert s == ['\\', s[1]] + s[2..];
      QuoteStep(s[1], s[2..], owed, mark);
      var next: Body;
      next, rest := ReadBody(s[2..], owed, mark);
      body := Escape(s[1], next);
    } else {
      QuoteStep(s[0], s[1..], owed, mark);
      if s[0] == mark {
        body, rest := End, s[1..];
      } else {
        var next: Body;
        next, rest := ReadBody(s[1..], owed, mark);
        body := Char(s[0], next);
      }
    }
  }

  /** Extending the first text extends the whole. */
  lemma {:induction false} Prepend(first: Text, more: seq<Text>, owed: seq<char>, prefix: string)
    returns (texts: seq<Text>)
    requires |more| == |owed| + 1 && AllOk(more) && Ok(first)
    requires Yield(first) == prefix + Yield(more[0])
    ensures |texts| == |owed| + 1 && AllOk(texts)
    ensures Remaining(texts, owed) == prefix + Remaining(more, owed)
  {
    texts := [first] + more[1..];
    assert texts[1..] == more[1..];
  }

  /** An opened group takes the first text as its inside and continues with the second. */
  lemma {:induction false} CloseGroup(open: char, more: seq<Text>, owed: seq<char>) returns (texts: seq<Text>)
    requires IsOpen(open) && |more| == |owed| + 2 && AllOk(more)
    ensures |texts| == |owed| + 1 && AllOk(texts)
    ensures Remaining(texts, owed) == [open] + Remaining(more, owed + [Closer(open)])
  {
    var close, after := Closer(open), more[1..];
    var group := Group(close, more[0], after[0]);
    var prefix := [open] + (Yield(more[0]) + [close]);
    Bracketed(open, Yield(more[0]), close, Yield(after[0]));
    Bracketed(open, Yield(more[0]), close, Remaining(after, owed));
    assert (owed + [close])[..|owed|] == owed;
    assert Remaining(more, owed + [close]) == Yield(more[0]) + ([close] + Remaining(after, owed));
    assert Yield(group) == prefix + Yield(after[0]);
    hide Yield, Remaining;
    texts := Prepend(group, after, owed, prefix);
  }

  lemma Bracketed(open: char, a: string, close: char, z: string)
    ensures ([open] + (a + [close])) + z == [open] + (a + ([close] + z))
  {
  }

  lemma {:induction false} TakeQuoted(mark: char, body: Body, more: seq<Text>, owed: seq<char>)
    returns (texts: seq<Text>)
    requires IsQuote(mark) && BodyOk(body, mark) && |more| == |owed| + 1 && AllOk(more)
    ensures |texts| == |owed| + 1 && AllOk(texts)
    ensures Remaining(texts, owed) == [mark] + (BodyYield(body) + ([mark] + Remaining(more, owed)))
  {
    var prefix := [mark] + (BodyYield(body) + [mark]);
    Bracketed(mark, BodyYield(body), mark, Yield(more[0]));
    Bracketed(mark, BodyYield(body), mark, Remaining(more, owed));
    assert Yield(Quoted(mark, body, more[0])) == prefix + Yield(more[0]);
    hide Yield, Remaining, BodyYield;
    texts := Prepend(Quoted(mark, body, more[0]), more, owed, prefix);
  }

  lemma {:induction false} EndGroup(close: char, more: seq<Text>, owed: seq<char>) returns (texts: seq<Text>)
    requires owed != [] && owed[|owed| - 1] == close && |more| == |owed| && AllOk(more)
    ensures |texts| == |owed| + 1 && AllOk(texts)
    ensures Remaining(texts, owed) == [close] + Remaining(more, owed[..|owed| - 1])
  {
    texts := [Empty] + more;
    assert texts[1..] == more;
    assert "" + ([close] + Remaining(more, owed[..|owed| - 1])) == [close] + Remaining(more, owed[..|owed| - 1]);
  }

  /** An accepting scan yields a derivation of what it read. */
  lemma {:induction false} ReadTexts(s: string, owed: seq<char>) returns (texts: seq<Text>)
    requires Scan(s, owed, None) == None
    ensures |texts| == |owed| + 1 && AllOk(texts) && s == Remaining(texts, owed)
    decreases |s|
  {
    if s == "" {
      texts := [Empty];
    } else {
      assert s == [s[0]] + s[1..];
      hide Remaining, AllOk;
      if IsQuote(s[0]) {
        var body, rest := ReadBody(s[1..], owed, s[0]);
        assert |rest| < |s|;
        var more := ReadTexts(rest, owed);
        texts := TakeQuoted(s[0], body, more, owed);
      } else if IsOpen(s[0]) {
        var more := ReadTexts(s[1..], owed + [Closer(s[0])]);
        texts := CloseGroup(s[0], more, owed);
      } else if IsClose(s[0]) {
        var more := ReadTexts(s[1..], owed[..|owed| - 1]);
        texts := EndGroup(s[0], more, owed);
      } else {
        var more := ReadTexts(s[1..], owed);
        assert Ok(more[0]) by { AllOkAt(more); }
        texts := Prepend(Plain(s[0], more[0]), more, owed, [s[0]]);
      }
    }
  }

  lemma AllOkAt(texts: seq<Text>)
    requires texts != [] && AllOk(texts)
    ensures Ok(texts[0])
  {
  }

  /** The scan accepts exactly the texts the grammar derives. */
  lemma {:induction false} ScanIsGrammar(s: string)
    ensures Scan(s, [], None) == None <==> Derivable(s)
  {
    if Scan(s, [], None) == None {
      var texts := ReadTexts(s, []);
      assert Ok(texts[0]) && Yield(texts[0]) == s;
    }
    if t :| Ok(t) && Yield(t) == s {
      ScanPasses(t, "", []);
      assert Yield(t) + "" == s;
    }
  }

  // ---------------------------------------------------------------------
  // What is wrong with a text
  // ---------------------------------------------------------------------

  predicate OnlyClosers(z: string) {
    forall i :: 0 <= i < |z| ==> IsClose(z[i])
  }

  /** The text can be completed by closing brackets alone. */
  ghost predicate Closable(s: string) {
    exists z :: OnlyClosers(z) && Derivable(s + z)
  }

  /** The text is the beginning of a well-formed one. */
  ghost predicate Completable(s: string) {
    exists x :: Derivable(s + x)
  }

  /** The closers owed, and the quote, after one more character that is no escape. */
  function OwedAfter(ch: char, owed: seq<char>, quote: Option<char>): seq<char> {
    if quote.Some? then owed
    else if IsOpen(ch) then owed + [Closer(ch)]
    else if IsClose(ch) && owed != [] then owed[..|owed| - 1]
    else owed
  }

  function QuoteAfter(ch: char, quote: Option<char>): Option<char> {
    if quote == Some(ch) then None else if quote == None && IsQuote(ch) then Some(ch) else quote
  }

  /** A closing bracket where another one or none is owed. */
  predicate Clashes(ch: char, owed: seq<char>, quote: Option<char>) {
    quote == None && IsClose(ch) && (owed == [] || owed[|owed| - 1] != ch)
  }

  /** Only closers are owed, and a quote is opened by a quote mark. */
  predicate Proper(owed: seq<char>, quote: Option<char>) {
    OnlyClosers(owed) && (quote.Some? ==> IsQuote(quote.value))
  }

  lemma OneCharacter(ch: char, t: string, owed: seq<char>, quote: Option<char>)
    requires !(quote.Some? && ch == '\\')
    ensures Scan([ch] + t, owed, quote) ==
      if Clashes(ch, owed, quote) then Some(UnbalancedBrackets)
      else Scan(t, OwedAfter(ch, owed, quote), QuoteAfter(ch, quote))
    ensures Proper(owed, quote) ==> Proper(OwedAfter(ch, owed, quote), QuoteAfter(ch, quote))
  {
    assert ([ch] + t)[1..] == t;
  }

  lemma TwoCharacters(c: char, t: string, owed: seq<char>, mark: char)
    ensures Scan(['\\', c] + t, owed, Some(mark)) == Scan(t, owed, Some(mark))
  {
    QuoteStep(c, t, owed, mark);
  }

  lemma HeadOf(s: string, z: string)
    requires s != ""
    ensures s + z == [s[0]] + (s[1..] + z) && [s[0]] + s[1..] == s
    ensures |s| >= 2 ==> s + z == [s[0], s[1]] + (s[2..] + z) && [s[0], s[1]] + s[2..] == s
  {
  }

  lemma {:induction false} InsideStays(z: string, owed: seq<char>, mark: char)
    requires OnlyClosers(z) && IsQuote(mark)
    ensures Scan(z, owed, Some(mark)) == Some(UnterminatedQuote)
  {
    if z != "" {
      assert IsClose(z[0]);
      InsideStays(z[1..], owed, mark);
    }
  }

  /** Closing brackets do not end a quote. */
  lemma {:induction false} StillUnterminated(s: string, owed: seq<char>, quote: Option<char>, z: string)
    requires Scan(s, owed, quote) == Some(UnterminatedQuote) && OnlyClosers(z) && Proper(owed, quote)
    ensures Scan(s + z, owed, quote) == Some(UnterminatedQuote)
    decreases |s|
  {
    if s == "" {
      assert s + z == z;
      InsideStays(z, owed, quote.value);
    } else if quote.Some? && s == "\\" {
      if z == "" {
        assert s + z == s;
      } else {
        assert s + z == ['\\', z[0]] + z[1..];
        TwoCharacters(z[0], z[1..], owed, quote.value);
        InsideStays(z[1..], owed, quote.value);
      }
    } else {
      hide Scan, Clashes, OwedAfter, QuoteAfter, OnlyClosers;
      HeadOf(s, z);
      if quote.Some? && s[0] == '\\' {
        TwoCharacters(s[1], s[2..], owed, quote.value);
        TwoCharacters(s[1], s[2..] + z, owed, quote.value);
        StillUnterminated(s[2..], owed, quote, z);
      } else {
        OneCharacter(s[0], s[1..], owed, quote);
        OneCharacter(s[0], s[1..] + z, owed, quote);
        StillUnterminated(s[1..], OwedAfter(s[0], owed, quote), QuoteAfter(s[0], quote), z);
      }
    }
  }

  /** The owed brackets, innermost first. */
  function Closing(owed: seq<char>): string {
    if owed == [] then "" else [owed[|owed| - 1]] + Closing(owed[..|owed| - 1])
  }

  lemma {:induction false} ClosingWorks(owed: seq<char>)
    requires OnlyClosers(owed)
    ensures OnlyClosers(Closing(owed)) && Scan(Closing(owed), owed, None) == None
  {
    if owed != [] {
      var n := |owed| - 1;
      ClosingWorks(owed[..n]);
      assert Closing(owed)[1..] == Closing(owed[..n]);
    }
  }

  lemma {:induction false} EndsNow(owed: seq<char>, quote: Option<char>) returns (x: string)
    requires Proper(owed, quote)
    ensures Scan(x, owed, quote) == None
  {
    ClosingWorks(owed);
    x := if quote.Some? then [quote.value] + Closing(owed) else Closing(owed);
    if quote.Some? { OneCharacter(quote.value, Closing(owed), owed, quote); }
  }

  /** What is not wrong yet can be completed. */
  lemma {:induction false} CanComplete(s: string, owed: seq<char>, quote: Option<char>) returns (x: string)
    requires Scan(s, owed, quote) in {None, Some(UnterminatedQuote)} && Proper(owed, quote)
    ensures Scan(s + x, owed, quote) == None
    decreases |s|
  {
    hide Scan, Proper, Clashes, OwedAfter, QuoteAfter;
    if s == "" {
      x := EndsNow(owed, quote);
      assert s + x == x;
    } else if quote.Some? && s == "\\" {
      var y := EndsNow(owed, quote);
      TwoCharacters('a', y, owed, quote.value);
      x := ['a'] + y;
      assert s + x == ['\\', 'a'] + y;
    } else if quote.Some? && s[0] == '\\' {
      HeadOf(s, "");
      TwoCharacters(s[1], s[2..], owed, quote.value);
      x := CanComplete(s[2..], owed, quote);
      HeadOf(s, x);
      TwoCharacters(s[1], s[2..] + x, owed, quote.value);
    } else {
      HeadOf(s, "");
      OneCharacter(s[0], s[1..], owed, quote);
      x := CanComplete(s[1..], OwedAfter(s[0], owed, quote), QuoteAfter(s[0], quote));
      HeadOf(s, x);
      OneCharacter(s[0], s[1..] + x, owed, quote);
    }
  }

  /** Unbalanced brackets either only lack closing ones, or cannot be repaired by any continuation. */
  lemma {:induction false} LacksOrBroken(s: string, owed: seq<char>, quote: Option<char>)
    returns (lacks: bool, z: string)
    requires Scan(s, owed, quote) == Some(UnbalancedBrackets) && Proper(owed, quote)
    ensures lacks ==> OnlyClosers(z) && Scan(s + z, owed, quote) == None
    ensures !lacks ==> forall x :: Scan(s + x, owed, quote) == Some(UnbalancedBrackets)
    decreases |s|
  {
    if s == "" {
      ClosingWorks(owed);
      lacks, z := true, Closing(owed);
      assert s + z == z;
    } else {
      assert !(quote.Some? && s == "\\");
      hide Scan, Proper, OwedAfter, QuoteAfter, OnlyClosers;
      HeadOf(s, "");
      if quote.Some? && s[0] == '\\' {
        TwoCharacters(s[1], s[2..], owed, quote.value);
        lacks, z := LacksOrBroken(s[2..], owed, quote);
        forall x ensures Scan(s + x, owed, quote) == Scan(s[2..] + x, owed, quote) {
          HeadOf(s, x);
          TwoCharacters(s[1], s[2..] + x, owed, quote.value);
        }
      } else {
        var owed', quote' := OwedAfter(s[0], owed, quote), QuoteAfter(s[0], quote);
        OneCharacter(s[0], s[1..], owed, quote);
        forall x ensures Scan(s + x, owed, quote) ==
          if Clashes(s[0], owed, quote) then Some(UnbalancedBrackets) else Scan(s[1..] + x, owed', quote')
        {
          HeadOf(s, x);
          OneCharacter(s[0], s[1..] + x, owed, quote);
        }
        if Clashes(s[0], owed, quote) {
          lacks, z := false, "";
        } else {
          lacks, z := LacksOrBroken(s[1..], owed', quote');
        }
      }
    }
  }

  /**
   What is wrong with a text that is not well formed: a quote is open if it can be completed, but not by closing
   brackets alone; brackets are unbalanced if closing brackets are all it lacks or if nothing can complete it.
   */
  lemma {:induction false} ProblemIs(s: string)
    ensures Scan(s, [], None) == None <==> Derivable(s)
    ensures Scan(s, [], None) == Some(UnterminatedQuote) <==> Completable(s) && !Closable(s)
    ensures Scan(s, [], None) == Some(UnbalancedBrackets) <==> !Derivable(s) && (Closable(s) || !Completable(s))
  {
    forall t ensures Scan(t, [], None) == None <==> Derivable(t) { ScanIsGrammar(t); }
    hide Derivable;
    ScanNeverSays(s, [], None);
    assert s + "" == s;
    if Scan(s, [], None) == None {
      assert OnlyClosers("") && Derivable(s + "");
    } else if Scan(s, [], None) == Some(UnterminatedQuote) {
      var x := CanComplete(s, [], None);
      assert Derivable(s + x);
      forall z | OnlyClosers(z) ensures !Derivable(s + z) { StillUnterminated(s, [], None, z); }
    } else {
      var lacks, z := LacksOrBroken(s, [], None);
      if lacks {
        assert Derivable(s + z);
      } else {
        forall x ensures !Derivable(s + x) { assert Scan(s + x, [], None) == Some(UnbalancedBrackets); }
      }
    }
  }

  // ---------------------------------------------------------------------
  // selectorProblem
  // ---------------------------------------------------------------------

  /** White space as String.prototype.trim removes it. */
  predicate IsSpace(c: char) {
    '\t' <= c <= '\r' || c == ' ' || c == '\U{A0}' || c == '\U{1680}' || '\U{2000}' <= c <= '\U{200A}' ||
    c == '\U{2028}' || c == '\U{2029}' || c == '\U{202F}' || c == '\U{205F}' || c == '\U{3000}' || c == '\U{FEFF}'
  }

  predicate Blank(s: string) {
    forall i :: 0 <= i < |s| ==> IsSpace(s[i])
  }

  predicate IsControl(c: char) {
    c < ' ' || c == '\U{7F}'
  }

  predicate HasControl(s: string) {
    exists i :: 0 <= i < |s| && IsControl(s[i])
  }

  /** What counts as a quote, a bracket, a control character and white space, by code point. */
  lemma CharactersAre(c: char)
    ensures IsQuote(c) <==> c as int in {34, 39}
    ensures IsOpen(c) <==> c as int in {40, 91}
    ensures IsClose(c) <==> c as int in {41, 93}
    ensures Opener(')') == '(' && Opener(']') == '[' && Closer('(') == ')' && Closer('[') == ']'
    ensures IsControl(c) <==> c as int <= 31 || c as int == 127
    ensures IsSpace(c) <==>
      9 <= c as int <= 13 || 8192 <= c as int <= 8202 ||
      c as int in {32, 160, 5760, 8232, 8233, 8239, 8287, 12288, 65279}
  {
  }

  /** The loop: an escape skips a character, inside quotes only. */
  method ScanSelector(s: string) returns (problem: Option<Problem>)
    ensures problem == Scan(s, [], None)
  {
    var owed: seq<char> := [];
    var quote: Option<char> := None;
    var i := 0;
    while i < |s|
      invariant 0 <= i <= |s| + 1
      invariant Scan(if i <= |s| then s[i..] else "", owed, quote) == Scan(s, [], None)
      decreases |s| + 1 - i
    {
      var ch := s[i];
      assert s[i..][1..] == s[i + 1..];
      if quote.Some? {
        if ch == '\\' {
          if i + 2 <= |s| { assert s[i..][2..] == s[i + 2..]; }
          i := i + 1;
        } else if ch == quote.value {
          quote := None;
        }
      } else if IsQuote(ch) {
        quote := Some(ch);
      } else if IsOpen(ch) {
        owed := owed + [Closer(ch)];
      } else if IsClose(ch) {
        if owed == [] || owed[|owed| - 1] != ch { return Some(UnbalancedBrackets); }
        owed := owed[..|owed| - 1];
      }
      i := i + 1;
    }
    if quote.Some? { return Some(UnterminatedQuote); }
    if owed != [] { return Some(UnbalancedBrackets); }
    problem := None;
  }

  /** `selector` is None for a value that is not a string. */
  method SelectorProblem(selector: Option<string>) returns (problem: Option<Problem>)
    ensures selector == None ==> problem == Some(NotText)
    ensures selector.Some? ==>
      var s := selector.value;
      var blank, control := (forall i :: 0 <= i < |s| ==> IsSpace(s[i])), exists i :: 0 <= i < |s| && IsControl(s[i]);
      problem ==
        if blank then Some(NotText) else if |s| > 1000 then Some(TooLong) else if control then Some(ControlCharacter)
        else if Derivable(s) then None
        else if Completable(s) && !Closable(s) then Some(UnterminatedQuote) else Some(UnbalancedBrackets)
  {
    if selector == None || Blank(selector.value) { return Some(NotText); }
    if |selector.value| > MAX_SELECTOR { return Some(TooLong); }
    if HasControl(selector.value) { return Some(ControlCharacter); }
    ProblemIs(selector.value);
    hide Derivable, Completable, Closable;
    problem := ScanSelector(selector.value);
    ScanNeverSays(selector.value, [], None);
  }

  lemma {:induction false} ScanNeverSays(s: string, owed: seq<char>, quote: Option<char>)
    ensures Scan(s, owed, quote) in {None, Some(UnbalancedBrackets), Some(UnterminatedQuote)}
    decreases |s|
  {
    if s == "" {
    } else if quote.Some? {
      if s[0] == '\\' { ScanNeverSays(if |s| == 1 then "" else s[2..], owed, quote); }
      else { ScanNeverSays(s[1..], owed, if s[0] == quote.value then None else quote); }
    } else if IsQuote(s[0]) {
      ScanNeverSays(s[1..], owed, Some(s[0]));
    } else if IsOpen(s[0]) {
      ScanNeverSays(s[1..], owed + [Closer(s[0])], None);
    } else if IsClose(s[0]) {
      if owed != [] { ScanNeverSays(s[1..], owed[..|owed| - 1], None); }
    } else {
      ScanNeverSays(s[1..], owed, None);
    }
  }
}
