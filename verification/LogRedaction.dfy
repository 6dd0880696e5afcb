/**
 Masking user:password in URLs inside arbitrary log text.
 */
module LogRedaction {
  /** What replaces credentials, up to and including their '@'. */
  function Mask(): string {
    "[redacted]@"
  }

  predicate EndsAuthority(c: char) {
    c == '/' || c == '?' || c == '#' || c == ' ' || c == '\n' || c == '\r' || c == '\t'
  }

  /** The authority a text begins with: section 3.2 of RFC 3986, also ended by white space. */
  function Authority(t: string): (a: string)
    ensures a <= t
    ensures forall i :: 0 <= i < |a| ==> !EndsAuthority(a[i])
  {
    if t == "" || EndsAuthority(t[0]) then "" else [t[0]] + Authority(t[1..])
  }

  /** The authority is all of the text up to the first '/', '?', '#', space, tab, line feed or carriage return. */
  lemma {:induction false} AuthorityIs(t: string)
    ensures var n := |Authority(t)|;
      && n <= |t| && Authority(t) == t[..n]
      && (forall i :: 0 <= i < n ==> t[i] !in {'/', '?', '#', ' ', '\t', '\n', '\r'})
      && (n < |t| ==> t[n] in {'/', '?', '#', ' ', '\t', '\n', '\r'})
  {
    if t != "" && !EndsAuthority(t[0]) {
      AuthorityIs(t[1..]);
      var n := |Authority(t[1..])|;
      assert Authority(t) == [t[0]] + t[1..][..n] == t[..n + 1];
    }
  }

  /** The position of the last '@', or -1. */
  function LastAt(a: string): (at: int)
    ensures -1 <= at < |a|
    ensures at >= 0 ==> a[at] == '@'
    ensures forall i :: at < i < |a| ==> a[i] != '@'
  {
    if a == "" then -1 else if a[|a| - 1] == '@' then |a| - 1 else LastAt(a[..|a| - 1])
  }

  /** A ':' with no '@' before it. */
  predicate ColonFirst(a: string) {
    a != "" && (ColonFirst(a[..|a| - 1]) || (a[|a| - 1] == ':' && LastAt(a[..|a| - 1]) == -1))
  }

  predicate HasPassword(a: string) {
    LastAt(a) >= 0 && ColonFirst(a)
  }

  predicate Marker(t: string) {
    |t| >= 3 && t[0] == ':' && t[1] == '/' && t[2] == '/'
  }

  /** What follows the credentials of the URL whose "://" the text comes after. */
  function AfterCredentials(t: string): string {
    t[LastAt(Authority(t)) + 1..]
  }

  /** What redactUrlUserinfo makes of a text. */
  function Redact(t: string): string
    decreases |t|
  {
    if t == "" then ""
    else if !Marker(t) then [t[0]] + Redact(t[1..])
    else if HasPassword(Authority(t[3..])) then "://" + (Mask() + Redact(AfterCredentials(t[3..])))
    else "://" + Redact(t[3..])
  }

  /** No URL in the text shows a password. */
  predicate Safe(t: string) {
    t == "" || ((Marker(t) ==> !HasPassword(Authority(t[3..]))) && Safe(t[1..]))
  }

  // ---------------------------------------------------------------------
  // What the definitions say
  // ---------------------------------------------------------------------

  lemma {:induction false} ColonFirstIs(a: string)
    ensures ColonFirst(a) <==> exists j :: 0 <= j < |a| && a[j] == ':' && forall i :: 0 <= i < j ==> a[i] != '@'
  {
    if a != "" {
      var init := a[..|a| - 1];
      ColonFirstIs(init);
      if ColonFirst(init) {
        var j :| 0 <= j < |init| && init[j] == ':' && forall i :: 0 <= i < j ==> init[i] != '@';
        assert a[j] == ':' && forall i :: 0 <= i < j ==> a[i] == init[i];
      }
      if j :| 0 <= j < |a| && a[j] == ':' && forall i :: 0 <= i < j ==> a[i] != '@' {
        if j < |init| {
          assert init[j] == ':' && forall i :: 0 <= i < j ==> init[i] == a[i];
        } else {
          assert LastAt(init) >= 0 ==> a[LastAt(init)] == '@';
        }
      }
    }
  }

  /** An authority shows a password when a ':' comes before its first '@'. */
  lemma {:induction false} HasPasswordIs(a: string)
    ensures HasPassword(a) <==>
      exists j, k :: 0 <= j < k < |a| && a[j] == ':' && a[k] == '@' && forall i :: 0 <= i < k ==> a[i] != '@'
  {
    ColonFirstIs(a);
    if HasPassword(a) {
      var j :| 0 <= j < |a| && a[j] == ':' && forall i :: 0 <= i < j ==> a[i] != '@';
      var k := FirstAt(a, LastAt(a));
      assert j < k;
    }
  }

  lemma {:induction false} FirstAt(a: string, at: nat) returns (k: nat)
    requires at < |a| && a[at] == '@'
    ensures k < |a| && a[k] == '@' && forall i :: 0 <= i < k ==> a[i] != '@'
  {
    if i :| 0 <= i < at && a[i] == '@' {
      k := FirstAt(a, i);
    } else {
      k := at;
    }
  }

  /** A URL whose "://" is at i shows a password. */
  predicate ExposedAt(t: string, i: nat) {
    i + 3 <= |t| && Marker(t[i..]) && HasPassword(Authority(t[i + 3..]))
  }

  lemma {:induction false} ExposedLater(t: string, i: nat)
    requires t != ""
    ensures ExposedAt(t[1..], i) <==> ExposedAt(t, i + 1)
  {
    hide Authority, HasPassword;
    if i + 4 <= |t| {
      assert t[1..][i..] == t[i + 1..] && t[1..][i + 3..] == t[i + 1 + 3..];
    }
  }

  /** Safe speaks of every "://" in the text. */
  lemma {:induction false} SafeIs(t: string)
    ensures Safe(t) <==> forall i: nat :: !ExposedAt(t, i)
  {
    hide HasPassword, Authority;
    if t != "" {
      SafeIs(t[1..]);
      assert t[0..] == t;
      assert ExposedAt(t, 0) <==> Marker(t) && HasPassword(Authority(t[3..]));
      hide ExposedAt;
      forall i: nat ensures ExposedAt(t[1..], i) <==> ExposedAt(t, i + 1) {
        ExposedLater(t, i);
      }
      if !Safe(t[1..]) {
        var i: nat :| ExposedAt(t[1..], i);
        assert ExposedAt(t, i + 1);
      }
      if i: nat :| ExposedAt(t, i) && i > 0 {
        assert ExposedAt(t[1..], i - 1);
      }
    }
  }

  // ---------------------------------------------------------------------
  // Redaction
  // ---------------------------------------------------------------------

  /** Redaction keeps the first character, creates no marker, and leaves the authority a text begins with alone. */
  lemma {:induction false} RedactKeepsHead(t: string)
    ensures t != "" ==> Redact(t) != "" && Redact(t)[0] == t[0]
    ensures Marker(Redact(t)) <==> Marker(t)
    ensures Authority(Redact(t)) == Authority(t)
  {
    if t != "" && !Marker(t) {
      RedactKeepsHead(t[1..]);
      var r := Redact(t[1..]);
      assert Redact(t)[1..] == r;
      if |t| >= 2 && t[0] == ':' && t[1] == '/' {
        assert !Marker(t[1..]);
        assert r[1..] == Redact(t[2..]);
        RedactKeepsHead(t[2..]);
      }
    } else if Marker(t) {
      var r := Redact(t);
      assert r[0] == ':' && r[1] == '/' && r[2] == '/';
      assert Authority(r) == ":" by { assert EndsAuthority(r[1..][0]); }
      assert Authority(t) == ":" by { assert EndsAuthority(t[1..][0]); }
    }
  }

  lemma {:induction false} SafeAfterPlain(p: string, t: string)
    requires Safe(t) && forall i :: 0 <= i < |p| ==> p[i] != ':'
    ensures Safe(p + t)
  {
    if p == "" {
      assert p + t == t;
    } else {
      SafeAfterPlain(p[1..], t);
      assert (p + t)[1..] == p[1..] + t;
    }
  }

  /** The mask and its '@' show no password, whatever follows. */
  lemma {:induction false} MaskIsSafe(t: string)
    ensures !HasPassword(Authority(Mask() + t))
  {
    AuthorityAfter(Mask(), t);
    var a := Mask() + Authority(t);
    assert a[10] == '@';
    assert forall j :: 0 <= j < 10 ==> Mask()[j] != ':' && a[j] == Mask()[j];
    HasPasswordIs(a);
    hide HasPassword, Authority, Mask;
  }

  lemma {:induction false} AuthorityAfter(p: string, t: string)
    requires forall i :: 0 <= i < |p| ==> !EndsAuthority(p[i])
    ensures Authority(p + t) == p + Authority(t)
  {
    if p == "" {
      assert p + t == t;
    } else {
      AuthorityAfter(p[1..], t);
      assert (p + t)[1..] == p[1..] + t;
      assert Authority(p + t) == [p[0]] + Authority(p[1..] + t);
      hide Authority, EndsAuthority;
      assert p == [p[0]] + p[1..];
    }
  }

  lemma {:induction false} SafeMarker(t: string)
    requires Safe(t) && !HasPassword(Authority(t))
    ensures Safe("://" + t)
  {
    hide HasPassword, Authority;
    SafeAfterPlain("//", t);
    assert ("://" + t)[1..] == "//" + t && ("://" + t)[3..] == t;
  }

  /** No password survives. */
  lemma {:induction false} RedactIsSafe(t: string)
    ensures Safe(Redact(t))
    decreases |t|
  {
    hide HasPassword, Authority;
    if t == "" {
    } else if !Marker(t) {
      RedactIsSafe(t[1..]);
      RedactKeepsHead(t);
      assert Redact(t)[1..] == Redact(t[1..]);
    } else if HasPassword(Authority(t[3..])) {
      var rest := Redact(AfterCredentials(t[3..]));
      RedactIsSafe(AfterCredentials(t[3..]));
      SafeAfterPlain(Mask(), rest);
      MaskIsSafe(rest);
      hide Mask, Safe;
      SafeMarker(Mask() + rest);
    } else {
      RedactIsSafe(t[3..]);
      RedactKeepsHead(t[3..]);
      hide Safe;
      SafeMarker(Redact(t[3..]));
    }
  }

  lemma {:induction false} SafeIsFixed(t: string)
    requires Safe(t)
    ensures Redact(t) == t
    decreases |t|
  {
    hide HasPassword, Authority;
    if t != "" {
      SafeIsFixed(t[1..]);
      if Marker(t) {
        var u := t[1..];
        assert Safe(u) && Safe(u[1..]);
        var v := u[1..];
        assert Safe(v[1..]);
        assert v[1..] == t[3..];
        hide Safe;
        SafeIsFixed(t[3..]);
        assert "://" + t[3..] == t;
      }
    }
  }

  /** A text is left alone exactly when no URL in it shows a password; so redacting twice is redacting once. */
  lemma {:induction false} RedactChangesIff(t: string)
    ensures Redact(t) == t <==> Safe(t)
    ensures Redact(Redact(t)) == Redact(t)
  {
    RedactIsSafe(t);
    SafeIsFixed(Redact(t));
    if Safe(t) { SafeIsFixed(t); }
  }

  /** After "://" at i, a ':' at j and then the first '@' at k, with nothing between that would end the authority. */
  predicate PasswordAt(t: string, i: nat, j: nat, k: nat) {
    && i + 3 <= j < k < |t| && t[i] == ':' && t[i + 1] == '/' && t[i + 2] == '/' && t[j] == ':' && t[k] == '@'
    && forall m :: i + 3 <= m < k ==> t[m] !in {'@', '/', '?', '#', ' ', '\t', '\n', '\r'}
  }

  lemma SliceAt(t: string, from: nat, m: nat)
    requires from + m < |t|
    ensures t[from..][m] == t[from + m]
  {
  }

  lemma {:induction false} PasswordHeld(rest: string) returns (j: nat, k: nat)
    requires HasPassword(Authority(rest))
    ensures j < k < |rest| && rest[j] == ':' && rest[k] == '@'
    ensures forall m :: 0 <= m < k ==> rest[m] !in {'@', '/', '?', '#', ' ', '\t', '\n', '\r'}
  {
    hide Authority, HasPassword;
    var a := Authority(rest);
    HasPasswordIs(a);
    j, k :| 0 <= j < k < |a| && a[j] == ':' && a[k] == '@' && forall m :: 0 <= m < k ==> a[m] != '@';
    AuthorityIs(rest);
    forall m | 0 <= m <= k ensures a[m] == rest[m] { }
  }

  lemma {:induction false} ExposedHas(t: string, i: nat) returns (j: nat, k: nat)
    requires ExposedAt(t, i)
    ensures PasswordAt(t, i, j, k)
  {
    hide Authority, HasPassword;
    var rest := t[i + 3..];
    var jj, kk := PasswordHeld(rest);
    j, k := i + 3 + jj, i + 3 + kk;
    forall m | i + 3 <= m <= k ensures t[m] == rest[m - i - 3] { SliceAt(t, i + 3, m - i - 3); }
  }

  lemma {:induction false} PasswordIsExposed(t: string, i: nat, j: nat, k: nat)
    requires PasswordAt(t, i, j, k)
    ensures ExposedAt(t, i)
  {
    var rest := t[i + 3..];
    var a := Authority(rest);
    var jj, kk := j - i - 3, k - i - 3;
    AuthorityIs(rest);
    hide Authority, HasPassword;
    forall m | 0 <= m <= kk ensures rest[m] == t[i + 3 + m] { SliceAt(t, i + 3, m); }
    PasswordShown(a, rest, jj, kk);
    SliceAt(t, i, 0);
    SliceAt(t, i, 1);
    SliceAt(t, i, 2);
  }

  lemma {:induction false} PasswordShown(a: string, rest: string, j: nat, k: nat)
    requires |a| <= |rest| && a == rest[..|a|] && (|a| < |rest| ==> rest[|a|] in {'/', '?', '#', ' ', '\t', '\n', '\r'})
    requires j < k < |rest| && rest[j] == ':' && rest[k] == '@'
    requires forall m :: 0 <= m < k ==> rest[m] !in {'@', '/', '?', '#', ' ', '\t', '\n', '\r'}
    ensures HasPassword(a)
  {
    assert |a| > k;
    assert a[j] == ':' && a[k] == '@' && forall m :: 0 <= m < k ==> a[m] == rest[m];
    HasPasswordIs(a);
    hide HasPassword;
  }

  lemma {:induction false} SafeMeans(t: string)
    ensures Safe(t) <==> forall i: nat, j: nat, k: nat :: !PasswordAt(t, i, j, k)
  {
    SafeIs(t);
    hide Safe, ExposedAt, PasswordAt;
    if i: nat :| ExposedAt(t, i) { var j, k := ExposedHas(t, i); }
    if i: nat, j: nat, k: nat :| PasswordAt(t, i, j, k) { PasswordIsExposed(t, i, j, k); }
  }

  /** No password is left in the output, and a text without one is left alone. */
  lemma {:induction false} NoPasswordIsLeft(t: string)
    ensures forall i: nat, j: nat, k: nat :: !PasswordAt(Redact(t), i, j, k)
    ensures Redact(t) == t <==> forall i: nat, j: nat, k: nat :: !PasswordAt(t, i, j, k)
  {
    hide *;
    RedactIsSafe(t);
    RedactChangesIff(t);
    SafeMeans(t);
    SafeMeans(Redact(t));
  }

  // ---------------------------------------------------------------------
  // What is masked and what is copied
  // ---------------------------------------------------------------------

  /** `secret` is followed by the '@' that ends it. */
  datatype Piece = Copied(text: string) | Masked(secret: string)

  function PiecesOf(t: string): seq<Piece>
    decreases |t|
  {
    if t == "" then []
    else if !Marker(t) then [Copied([t[0]])] + PiecesOf(t[1..])
    else
      var a := Authority(t[3..]);
      if HasPassword(a) then [Copied("://"), Masked(a[..LastAt(a)])] + PiecesOf(AfterCredentials(t[3..]))
      else [Copied("://")] + PiecesOf(t[3..])
  }

  function Original(pieces: seq<Piece>): string {
    if pieces == [] then ""
    else (if pieces[0].Copied? then pieces[0].text else pieces[0].secret + "@") + Original(pieces[1..])
  }

  function Shown(pieces: seq<Piece>): string {
    if pieces == [] then "" else (if pieces[0].Copied? then pieces[0].text else "[redacted]@") + Shown(pieces[1..])
  }

  /** A secret is credentials: it holds a ':' and lies inside one authority. */
  predicate IsSecret(s: string) {
    (exists i :: 0 <= i < |s| && s[i] == ':') && forall i :: 0 <= i < |s| ==> !EndsAuthority(s[i])
  }

  lemma {:induction false} OneCopied(c: string, pieces: seq<Piece>)
    ensures Original([Copied(c)] + pieces) == c + Original(pieces)
    ensures Shown([Copied(c)] + pieces) == c + Shown(pieces)
  {
    assert ([Copied(c)] + pieces)[1..] == pieces;
  }

  lemma {:induction false} OneMasked(s: string, pieces: seq<Piece>)
    ensures Original([Copied("://"), Masked(s)] + pieces) == "://" + (s + "@" + Original(pieces))
    ensures Shown([Copied("://"), Masked(s)] + pieces) == "://" + (Mask() + Shown(pieces))
  {
    var masked := [Masked(s)] + pieces;
    assert masked[1..] == pieces;
    assert [Copied("://"), Masked(s)] + pieces == [Copied("://")] + masked;
    OneCopied("://", masked);
  }

  lemma {:induction false} PasswordIsSecret(a: string)
    requires HasPassword(a) && forall i :: 0 <= i < |a| ==> !EndsAuthority(a[i])
    ensures LastAt(a) >= 0 && IsSecret(a[..LastAt(a)])
  {
    HasPasswordIs(a);
    var j, k :| 0 <= j < k < |a| && a[j] == ':' && a[k] == '@' && forall i :: 0 <= i < k ==> a[i] != '@';
    assert a[..LastAt(a)][j] == ':';
  }

  lemma {:induction false} CredentialsSplit(t: string)
    requires HasPassword(Authority(t))
    ensures t == Authority(t)[..LastAt(Authority(t))] + "@" + AfterCredentials(t)
  {
    var a := Authority(t);
    var at := LastAt(a);
    assert 0 <= at < |a| && a[at] == '@' && a == t[..|a|];
    hide Authority, LastAt, HasPassword;
    AroundPosition(t, at);
    assert a[..at] == t[..at] && t[at] == a[at];
  }

  lemma AroundPosition(t: string, at: nat)
    requires at < |t|
    ensures t == t[..at] + [t[at]] + t[at + 1..]
  {
  }

  /** Text and output agree piece by piece: secrets are replaced by the mask, everything else is copied. */
  lemma {:induction false} OnlySecretsChange(t: string)
    ensures Original(PiecesOf(t)) == t && Shown(PiecesOf(t)) == Redact(t)
    ensures forall p :: p in PiecesOf(t) && p.Masked? ==> IsSecret(p.secret)
    decreases |t|
  {
    hide HasPassword, Authority, LastAt, Original, Shown, IsSecret, Mask;
    if t == "" {
      NoPieces();
    } else if !Marker(t) {
      OnlySecretsChange(t[1..]);
      OneCopied([t[0]], PiecesOf(t[1..]));
    } else {
      assert t == "://" + t[3..];
      var a := Authority(t[3..]);
      if HasPassword(a) {
        var rest := AfterCredentials(t[3..]);
        OnlySecretsChange(rest);
        PasswordIsSecret(a);
        OneMasked(a[..LastAt(a)], PiecesOf(rest));
        CredentialsSplit(t[3..]);
      } else {
        OnlySecretsChange(t[3..]);
        OneCopied("://", PiecesOf(t[3..]));
      }
    }
  }

  lemma NoPieces()
    ensures Original([]) == "" && Shown([]) == ""
  {
  }

  /** Any cut inside the authority leaves the rest of the authority. */
  lemma {:induction false} AuthorityCut(t: string, n: nat)
    requires n <= |Authority(t)|
    ensures Authority(t) == Authority(t)[..n] + Authority(t[n..])
  {
    hide Authority, EndsAuthority;
    var p, rest, a := t[..n], t[n..], Authority(t);
    assert a == t[..|a|];
    assert p == a[..n];
    forall i | 0 <= i < n ensures !EndsAuthority(p[i]) { assert p[i] == a[i]; }
    AuthorityAfter(p, rest);
    assert t == p + rest;
  }

  lemma {:induction false} NoAtAfterLast(p: string, z: string)
    requires LastAt(p + z) == |p| - 1
    ensures LastAt(z) == -1
  {
    hide LastAt;
    forall i | 0 <= i < |z| ensures z[i] != '@' { assert (p + z)[|p| + i] == z[i]; }
  }

  lemma {:induction false} NoAtIsLeft(t: string)
    requires HasPassword(Authority(t))
    ensures LastAt(Authority(AfterCredentials(t))) == -1
  {
    hide Authority, LastAt;
    var n := LastAt(Authority(t)) + 1;
    AuthorityCut(t, n);
    NoAtAfterLast(Authority(t)[..n], Authority(t[n..]));
  }

  /** The mask covers the credentials up to the last '@', so none of a password with '@' in it is left. */
  lemma {:induction false} MaskIsComplete(t: string)
    requires Marker(t) && HasPassword(Authority(t[3..]))
    ensures exists rest :: Redact(t) == "://" + (Mask() + rest) && LastAt(Authority(rest)) == -1
  {
    hide Authority, LastAt, HasPassword, Mask;
    var rest := AfterCredentials(t[3..]);
    NoAtIsLeft(t[3..]);
    RedactKeepsHead(rest);
    assert Redact(t) == "://" + (Mask() + Redact(rest));
  }

  // ---------------------------------------------------------------------
  // The loop
  // ---------------------------------------------------------------------

  lemma RedactsNothing()
    ensures Redact("") == ""
  {
  }

  lemma EndOfText(text: string, from: nat)
    requires from <= |text|
    ensures text[|text|..] == "" && text[from..] == text[from..|text|] + ""
  {
  }

  lemma MarkerFits(t: string)
    requires Marker(t)
    ensures |t| >= 3
  {
  }

  lemma RedactSkips(text: string, i: nat)
    requires i < |text| && !Marker(text[i..])
    ensures Redact(text[i..]) == [text[i]] + Redact(text[i + 1..])
  {
    assert text[i..][1..] == text[i + 1..];
  }

  /** Where the first "://" at or after a position begins. */
  method IndexOfMarker(text: string, from: nat) returns (marker: int)
    requires from <= |text|
    ensures marker == -1 ==> Redact(text[from..]) == text[from..]
    ensures marker != -1 ==>
      (from <= marker && marker + 3 <= |text| && Marker(text[marker..]) &&
       Redact(text[from..]) == text[from..marker] + Redact(text[marker..]))
  {
    hide Redact, Marker;
    marker := from;
    while marker < |text| && !Marker(text[marker..])
      invariant from <= marker <= |text|
      invariant Redact(text[from..]) == text[from..marker] + Redact(text[marker..])
    {
      RedactSkips(text, marker);
      assert text[from..marker + 1] == text[from..marker] + [text[marker]];
      marker := marker + 1;
    }
    if marker == |text| {
      RedactsNothing();
      EndOfText(text, from);
      marker := -1;
    } else {
      MarkerFits(text[marker..]);
    }
  }

  /** One more character: the last '@' and whether a ':' comes before any '@'. */
  lemma {:induction false} ScanStep(text: string, start: nat, end: nat)
    requires start <= end < |text|
    ensures var a, ch := text[start..end], text[end];
      && LastAt(text[start..end + 1]) == (if ch == '@' then end - start else LastAt(a))
      && (ColonFirst(text[start..end + 1]) <==> ColonFirst(a) || (ch == ':' && LastAt(a) == -1))
  {
    assert text[start..end + 1][..end - start] == text[start..end];
  }

  /** Finds the end of the authority, its last '@' and the first ':' before any '@'. */
  method ScanAuthority(text: string, start: nat) returns (at: int, colon: int)
    requires start <= |text|
    ensures var a := Authority(text[start..]);
      at == (if LastAt(a) == -1 then -1 else start + LastAt(a)) && (colon != -1 <==> ColonFirst(a))
  {
    var end := start;
    at, colon := -1, -1;
    while end < |text| && !EndsAuthority(text[end])
      invariant start <= end <= |text|
      invariant forall i :: start <= i < end ==> !EndsAuthority(text[i])
      invariant at == if LastAt(text[start..end]) == -1 then -1 else start + LastAt(text[start..end])
      invariant colon != -1 <==> ColonFirst(text[start..end])
    {
      var ch := text[end];
      ScanStep(text, start, end);
      hide LastAt, ColonFirst;
      if ch == '@' { at := end; }
      else if ch == ':' && colon == -1 && at == -1 { colon := end; }
      end := end + 1;
    }
    AuthorityEndsAt(text, start, end);
  }

  lemma {:induction false} AuthorityEndsAt(text: string, start: nat, end: nat)
    requires start <= end <= |text| && (end == |text| || EndsAuthority(text[end]))
    requires forall i :: start <= i < end ==> !EndsAuthority(text[i])
    ensures Authority(text[start..]) == text[start..end]
  {
    hide EndsAuthority;
    AuthorityAfter(text[start..end], text[end..]);
    assert text[start..] == text[start..end] + text[end..];
    assert Authority(text[end..]) == "";
  }

  /** Strings joined around a separator, regrouped. */
  lemma {:induction false} Regroup(done: string, before: string, sep: string, rest: string)
    ensures done + (before + (sep + rest)) == done + (before + sep) + rest
  {
    Joined(before, sep, rest);
    Joined(done, before + sep, rest);
  }

  lemma Joined(a: string, b: string, c: string)
    ensures (a + b) + c == a + (b + c)
  {
  }

  /** Credentials after a marker: they are masked, and the rest begins behind them. */
  lemma {:induction false} MaskedAt(text: string, marker: nat, next: nat)
    requires marker + 3 <= |text| && Marker(text[marker..])
    requires var a := Authority(text[marker + 3..]); HasPassword(a) && next == marker + 3 + LastAt(a) + 1
    ensures next <= |text| && Redact(text[marker..]) == "://" + (Mask() + Redact(text[next..]))
  {
    hide HasPassword, Authority, Mask, LastAt;
    var rest := text[marker + 3..];
    assert text[marker..][3..] == rest;
    assert AfterCredentials(rest) == text[next..];
  }

  lemma {:induction false} CopiedAt(text: string, marker: nat)
    requires marker + 3 <= |text| && Marker(text[marker..]) && !HasPassword(Authority(text[marker + 3..]))
    ensures Redact(text[marker..]) == "://" + Redact(text[marker + 3..])
  {
    hide HasPassword, Authority, Mask, LastAt;
    assert text[marker..][3..] == text[marker + 3..];
  }

  lemma {:induction false} UpToMarker(text: string, from: nat, marker: nat)
    requires from <= marker && marker + 3 <= |text| && Marker(text[marker..])
    ensures text[from..marker + 3] == text[from..marker] + "://"
  {
  }

  /** One round of the loop with credentials. */
  lemma {:induction false} MaskedRound(text: string, from: nat, marker: nat, done: string, next: nat)
    requires from <= marker && marker + 3 <= |text| && Marker(text[marker..])
    requires Redact(text) == done + (text[from..marker] + Redact(text[marker..]))
    requires var a := Authority(text[marker + 3..]); HasPassword(a) && next == marker + 3 + LastAt(a) + 1
    ensures next <= |text|
    ensures Redact(text) == done + (text[from..marker + 3] + Mask()) + Redact(text[next..])
  {
    hide HasPassword, Authority, Mask, LastAt, Redact;
    MaskedAt(text, marker, next);
    UpToMarker(text, from, marker);
    hide Marker;
    var before, rest := text[from..marker], Redact(text[next..]);
    Regroup(done, before, "://", Mask() + rest);
    Joined(done, before + "://", Mask() + rest);
    Regroup(done, before + "://", Mask(), rest);
  }

  /** One round of the loop without credentials. */
  lemma {:induction false} CopiedRound(text: string, from: nat, marker: nat, done: string)
    requires from <= marker && marker + 3 <= |text| && Marker(text[marker..])
    requires Redact(text) == done + (text[from..marker] + Redact(text[marker..]))
    requires !HasPassword(Authority(text[marker + 3..]))
    ensures Redact(text) == done + text[from..marker + 3] + Redact(text[marker + 3..])
  {
    hide HasPassword, Authority, Mask, LastAt, Redact;
    CopiedAt(text, marker);
    UpToMarker(text, from, marker);
    hide Marker;
    Regroup(done, text[from..marker], "://", Redact(text[marker + 3..]));
  }

  method RedactUrlUserinfo(text: string) returns (redacted: string)
    ensures redacted == Redact(text)
  {
    hide Authority, LastAt, ColonFirst, Mask, Redact, Marker;
    var result := "";
    var from := 0;
    assert text[0..] == text;
    while true
      invariant 0 <= from <= |text|
      invariant Redact(text) == result + Redact(text[from..])
      decreases |text| - from
    {
      var marker := IndexOfMarker(text, from);
      if marker == -1 { break; }
      var start := marker + 3;
      var at, colon := ScanAuthority(text, start);
      if at != -1 && colon != -1 {
        MaskedRound(text, from, marker, result, at + 1);
        result := result + (text[from..start] + Mask());
        from := at + 1;
      } else {
        CopiedRound(text, from, marker, result);
        result := result + text[from..start];
        from := start;
      }
    }
    redacted := result + text[from..];
  }
}
