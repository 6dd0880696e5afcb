/**
 When the benchmark score does not depend on the order of its records.
 */
module ScoreOrder {
  import opened Options
  import opened CompetitiveScore

  // ---------------------------------------------------------------------
  // Counts and sums
  // ---------------------------------------------------------------------

  lemma {:induction false} CountWithout(p: Record -> bool, s: seq<Record>, i: nat)
    requires i < |s|
    ensures Count(p, s) == Count(p, s[..i] + s[i + 1..]) + if p(s[i]) then 1 else 0
  {
    var n := |s| - 1;
    var t := s[..i] + s[i + 1..];
    if i < n {
      CountWithout(p, s[..n], i);
      assert t[..|t| - 1] == s[..n][..i] + s[..n][i + 1..];
    } else {
      assert t == s[..n];
    }
  }

  lemma {:induction false} TotalWithout(f: Record -> real, s: seq<Record>, i: nat)
    requires i < |s|
    ensures Total(f, s) == Total(f, s[..i] + s[i + 1..]) + f(s[i])
  {
    var n := |s| - 1;
    var t := s[..i] + s[i + 1..];
    if i < n {
      TotalWithout(f, s[..n], i);
      assert t[..|t| - 1] == s[..n][..i] + s[..n][i + 1..];
    } else {
      assert t == s[..n];
    }
  }

  lemma {:induction false} MultisetWithout(s: seq<Record>, i: nat)
    requires i < |s|
    ensures multiset(s[..i] + s[i + 1..]) == multiset(s) - multiset{s[i]}
  {
    assert s == s[..i] + ([s[i]] + s[i + 1..]);
    assert multiset(s) == multiset(s[..i]) + (multiset{s[i]} + multiset(s[i + 1..]));
  }

  /** The place of a's last record in a permutation of a. */
  lemma {:induction false} LastIn(a: seq<Record>, b: seq<Record>) returns (i: nat)
    requires a != [] && multiset(a) == multiset(b)
    ensures i < |b| && b[i] == a[|a| - 1]
    ensures multiset(a[..|a| - 1]) == multiset(b[..i] + b[i + 1..])
  {
    var n := |a| - 1;
    assert a[n] in multiset(b);
    i :| 0 <= i < |b| && b[i] == a[n];
    MultisetWithout(a, n);
    MultisetWithout(b, i);
    assert a[..n] + a[n + 1..] == a[..n];
  }

  lemma {:induction false} CountPermutes(p: Record -> bool, a: seq<Record>, b: seq<Record>)
    requires multiset(a) == multiset(b)
    ensures Count(p, a) == Count(p, b)
  {
    assert |multiset(a)| == |a| && |multiset(b)| == |b|;
    if a != [] {
      var i := LastIn(a, b);
      CountWithout(p, b, i);
      CountPermutes(p, a[..|a| - 1], b[..i] + b[i + 1..]);
    }
  }

  lemma {:induction false} TotalPermutes(f: Record -> real, a: seq<Record>, b: seq<Record>)
    requires multiset(a) == multiset(b)
    ensures Total(f, a) == Total(f, b)
  {
    assert |multiset(a)| == |a| && |multiset(b)| == |b|;
    if a != [] {
      var i := LastIn(a, b);
      TotalWithout(f, b, i);
      TotalPermutes(f, a[..|a| - 1], b[..i] + b[i + 1..]);
    }
  }

  lemma {:induction false} SameMembers(a: seq<Record>, b: seq<Record>)
    requires multiset(a) == multiset(b)
    ensures |a| == |b| && forall r :: r in a <==> r in b
  {
    assert |multiset(a)| == |a| && |multiset(b)| == |b|;
    assert forall r :: r in a <==> r in multiset(a);
    assert forall r :: r in b <==> r in multiset(b);
  }

  /** One group's rates, interval and sums do not depend on the order of its records. */
  lemma {:induction false} GroupPermutes(sqrt: real -> real, a: seq<Record>, b: seq<Record>)
    requires multiset(a) == multiset(b)
    ensures ScoreGroup(sqrt, a) == ScoreGroup(sqrt, b)
  {
    SameMembers(a, b);
    assert DistinctRuns(a) == DistinctRuns(b);
    CountPermutes(Tested, a, b);
    CountPermutes(Scored, a, b);
    CountPermutes(Attempt, a, b);
    CountPermutes(CorrectRepair, a, b);
    CountPermutes(WrongRepair, a, b);
    CountPermutes(Failed, a, b);
    CountPermutes(FalseGreen, a, b);
    CountPermutes(MustRefuse, a, b);
    CountPermutes(CorrectRefusal, a, b);
    CountPermutes(MayAct, a, b);
    CountPermutes(NeedlessRefusal, a, b);
    CountPermutes(Passed, a, b);
    TotalPermutes(Minutes, a, b);
    TotalPermutes(Cost, a, b);
    hide Wilson, Count, Total, DistinctRuns;
  }

  // ---------------------------------------------------------------------
  // Groups and admission
  // ---------------------------------------------------------------------

  lemma {:induction false} RowsCount(records: seq<Record>, key: Key, r: Record)
    ensures multiset(RowsOf(records, key))[r] == if KeyOf(r) == key then multiset(records)[r] else 0
  {
    if records != [] {
      var init := records[..|records| - 1];
      assert records == init + [records[|records| - 1]];
      RowsCount(init, key, r);
    }
  }

  lemma {:induction false} EntryPermutes(env: Env, a: seq<Record>, b: seq<Record>, weights: Option<seq<Weight>>,
                                         key: Key)
    requires multiset(a) == multiset(b)
    ensures EntryOf(env, a, weights, key) == EntryOf(env, b, weights, key)
  {
    var x, y := RowsOf(a, key), RowsOf(b, key);
    forall r ensures multiset(x)[r] == multiset(y)[r] {
      RowsCount(a, key, r);
      RowsCount(b, key, r);
    }
    assert multiset(x) == multiset(y);
    GroupPermutes(env.sqrt, x, y);
  }

  ghost predicate DistinctKeys(keys: seq<Key>) {
    forall i, j :: 0 <= i < j < |keys| ==> keys[i] != keys[j]
  }

  lemma {:induction false} KeysAre(records: seq<Record>)
    ensures DistinctKeys(Keys(records))
    ensures forall key :: key in Keys(records) <==> exists r :: r in records && KeyOf(r) == key
  {
    if records != [] {
      hide KeyOf;
      var init, last := records[..|records| - 1], records[|records| - 1];
      assert records == init + [last];
      KeysAre(init);
      forall key ensures key in Keys(records) <==> exists r :: r in records && KeyOf(r) == key {
        if key in Keys(init) {
          var r :| r in init && KeyOf(r) == key;
          assert r in records;
        }
        if key == KeyOf(last) { assert last in records; }
      }
    }
  }

  /** Distinct identities, without positions. */
  ghost predicate Unrepeated(records: seq<Record>) {
    (forall r :: multiset(records)[r] <= 1) &&
    (forall r, s :: r in records && s in records && Identity(r) == Identity(s) ==> r == s)
  }

  lemma {:induction false} DistinctIsUnrepeated(records: seq<Record>)
    ensures (forall i, j :: 0 <= i < j < |records| ==> Identity(records[i]) != Identity(records[j]))
      <==> Unrepeated(records)
  {
    hide Identity;
    if forall i, j :: 0 <= i < j < |records| ==> Identity(records[i]) != Identity(records[j]) {
      forall r ensures multiset(records)[r] <= 1 { OccursOnce(records, r); }
    }
    if Unrepeated(records) {
      forall i, j | 0 <= i < j < |records| ensures Identity(records[i]) != Identity(records[j]) {
        var x, a, z := records[j], records[..j], records[j..];
        assert records == a + z;
        assert multiset(records)[x] == multiset(a)[x] + multiset(z)[x];
        assert z[0] == x && x in multiset(z);
        assert a[i] == records[i] && a[i] in multiset(a);
      }
    }
  }

  lemma {:induction false} OccursOnce(records: seq<Record>, r: Record)
    requires forall i, j :: 0 <= i < j < |records| ==> Identity(records[i]) != Identity(records[j])
    ensures multiset(records)[r] <= 1
  {
    if records != [] {
      hide Identity;
      var n := |records| - 1;
      var init, last := records[..n], records[n];
      assert records == init + [last];
      OccursOnce(init, r);
      if r == last {
        assert forall i :: 0 <= i < n ==> Identity(init[i]) != Identity(last);
        assert last !in init;
        assert last !in multiset(init);
      }
    }
  }

  lemma {:induction false} AdmissiblePermutes(a: seq<Record>, b: seq<Record>)
    requires multiset(a) == multiset(b)
    ensures Admissible(a) <==> Admissible(b)
  {
    hide Identity, Accepted;
    SameMembers(a, b);
    DistinctIsUnrepeated(a);
    DistinctIsUnrepeated(b);
    assert Unrepeated(a) <==> Unrepeated(b);
    assert (forall i :: 0 <= i < |a| ==> Accepted(a[i])) <==> (forall r :: r in a ==> Accepted(r));
    assert (forall i :: 0 <= i < |b| ==> Accepted(b[i])) <==> (forall r :: r in b ==> Accepted(r));
  }

  lemma {:induction false} EntriesAre(env: Env, records: seq<Record>, weights: Option<seq<Weight>>, keys: seq<Key>)
    ensures forall i :: 0 <= i < |keys| ==>
      Entries(env, records, weights, keys)[i] == EntryOf(env, records, weights, keys[i])
  {
    hide EntryOf;
    if keys != [] { EntriesAre(env, records, weights, keys[..|keys| - 1]); }
  }

  // ---------------------------------------------------------------------
  // Sorting
  // ---------------------------------------------------------------------

  ghost predicate Distinct(s: seq<Entry>) {
    forall i, j :: 0 <= i < j < |s| ==> s[i] != s[j]
  }

  ghost predicate InOrder(env: Env, s: seq<Entry>) {
    forall i, j :: 0 <= i < j < |s| ==> AtMost(env, s[i], s[j])
  }

  /** x stands before y. */
  ghost predicate Precedes(s: seq<Entry>, x: Entry, y: Entry) {
    exists i, j :: 0 <= i < j < |s| && s[i] == x && s[j] == y
  }

  lemma OneGreater(env: Env, t: seq<Entry>, last: Entry)
    requires InOrder(env, t) && Distinct(t) && forall i :: 0 <= i < |t| ==> AtMost(env, t[i], last) && t[i] != last
    ensures InOrder(env, t + [last]) && Distinct(t + [last])
    ensures forall x :: x in t + [last] <==> x in t || x == last
  {
    hide AtMost;
  }

  lemma {:induction false} InsertIs(env: Env, s: seq<Entry>, e: Entry)
    requires IsOrder(env.atMost) && InOrder(env, s) && Distinct(s) && e !in s
    ensures InOrder(env, Insert(env, s, e)) && Distinct(Insert(env, s, e))
    ensures forall x :: x in Insert(env, s, e) <==> x in s || x == e
  {
    if s != [] {
      var init, last := s[..|s| - 1], s[|s| - 1];
      assert s == init + [last];
      AtMostOrder(env, e, last, e);
      if AtMost(env, last, e) {
        forall i | 0 <= i < |s| ensures AtMost(env, s[i], e) { AtMostOrder(env, s[i], last, e); }
        assert Insert(env, s, e) == s + [e];
        hide AtMost, IsOrder, Insert;
        OneGreater(env, s, e);
      } else {
        var t := Insert(env, init, e);
        assert Insert(env, s, e) == t + [last];
        hide AtMost, IsOrder, Insert;
        InsertIs(env, init, e);
        forall i | 0 <= i < |t| ensures AtMost(env, t[i], last) && t[i] != last {
          assert t[i] in t;
          if t[i] != e { var j :| 0 <= j < |init| && init[j] == t[i]; }
        }
        OneGreater(env, t, last);
      }
    }
  }

  lemma AtMostOrder(env: Env, x: Entry, y: Entry, z: Entry)
    requires IsOrder(env.atMost)
    ensures AtMost(env, x, y) || AtMost(env, y, x)
    ensures AtMost(env, x, y) && AtMost(env, y, z) ==> AtMost(env, x, z)
    ensures AtMost(env, x, x)
  {
  }

  lemma {:induction false} SortIs(env: Env, s: seq<Entry>)
    requires IsOrder(env.atMost) && Distinct(s)
    ensures InOrder(env, Sort(env, s)) && Distinct(Sort(env, s))
    ensures forall x :: x in Sort(env, s) <==> x in s
  {
    if s != [] {
      var init, last := s[..|s| - 1], s[|s| - 1];
      assert s == init + [last];
      SortIs(env, init);
      assert last !in init;
      hide InOrder, AtMost, IsOrder;
      InsertIs(env, Sort(env, init), last);
    }
  }

  lemma {:induction false} InsertKeepsOrder(env: Env, s: seq<Entry>, e: Entry, x: Entry, y: Entry)
    requires Precedes(s, x, y)
    ensures Precedes(Insert(env, s, e), x, y)
  {
    hide AtMost;
    var i, j :| 0 <= i < j < |s| && s[i] == x && s[j] == y;
    var r := Insert(env, s, e);
    if AtMost(env, s[|s| - 1], e) {
      assert r[i] == x && r[j] == y;
    } else {
      var init := s[..|s| - 1];
      InsertHolds(env, init, e, x, i);
      if j < |init| {
        assert init[i] == x && init[j] == y;
        InsertKeepsOrder(env, init, e, x, y);
        var k, l :| 0 <= k < l < |Insert(env, init, e)| && Insert(env, init, e)[k] == x && Insert(env, init, e)[l] == y;
        assert r[k] == x && r[l] == y;
      } else {
        var k :| 0 <= k < |Insert(env, init, e)| && Insert(env, init, e)[k] == x;
        assert r[k] == x && r[|r| - 1] == y;
      }
    }
  }

  lemma {:induction false} InsertHolds(env: Env, s: seq<Entry>, e: Entry, x: Entry, i: nat)
    requires i < |s| ==> s[i] == x
    ensures i < |s| ==> x in Insert(env, s, e)
  {
    hide AtMost;
    if i < |s| && !AtMost(env, s[|s| - 1], e) {
      var init := s[..|s| - 1];
      InsertHolds(env, init, e, x, i);
      assert Insert(env, s, e)[|Insert(env, init, e)|] == s[|s| - 1];
    } else if i < |s| {
      assert Insert(env, s, e)[i] == x;
    }
  }

  /** An element is inserted after everything that compares at most to it. */
  lemma {:induction false} InsertGoesAfter(env: Env, s: seq<Entry>, e: Entry, x: Entry)
    requires x in s && AtMost(env, x, e)
    ensures Precedes(Insert(env, s, e), x, e)
  {
    hide AtMost;
    var r := Insert(env, s, e);
    if AtMost(env, s[|s| - 1], e) {
      var i :| 0 <= i < |s| && s[i] == x;
      assert r[i] == x && r[|s|] == e;
    } else {
      var init := s[..|s| - 1];
      assert s == init + [s[|s| - 1]];
      InsertGoesAfter(env, init, e, x);
      var k, l :| 0 <= k < l < |Insert(env, init, e)| && Insert(env, init, e)[k] == x && Insert(env, init, e)[l] == e;
      assert r[k] == x && r[l] == e;
    }
  }

  lemma {:induction false} SortHolds(env: Env, s: seq<Entry>, x: Entry, i: nat)
    requires i < |s| && s[i] == x
    ensures x in Sort(env, s)
  {
    hide AtMost;
    var init, last := s[..|s| - 1], s[|s| - 1];
    var t := Sort(env, init);
    if i < |init| {
      SortHolds(env, init, x, i);
      var k :| 0 <= k < |t| && t[k] == x;
      InsertHolds(env, t, last, x, k);
    } else {
      InsertedIsThere(env, t, last);
    }
  }

  lemma {:induction false} InsertedIsThere(env: Env, s: seq<Entry>, e: Entry)
    ensures e in Insert(env, s, e)
  {
    hide AtMost;
    if s != [] && !AtMost(env, s[|s| - 1], e) {
      InsertedIsThere(env, s[..|s| - 1], e);
    } else {
      assert Insert(env, s, e)[|s|] == e;
    }
  }

  /** The sort is stable: what stands before and does not compare greater stays before. */
  lemma {:induction false} SortIsStable(env: Env, s: seq<Entry>, x: Entry, y: Entry)
    requires Precedes(s, x, y) && AtMost(env, x, y)
    ensures Precedes(Sort(env, s), x, y)
  {
    hide AtMost, Insert;
    var i, j :| 0 <= i < j < |s| && s[i] == x && s[j] == y;
    var init, last := s[..|s| - 1], s[|s| - 1];
    if j < |init| {
      assert init[i] == x && init[j] == y;
      SortIsStable(env, init, x, y);
      InsertKeepsOrder(env, Sort(env, init), last, x, y);
    } else {
      SortHolds(env, init, x, i);
      InsertGoesAfter(env, Sort(env, init), y, x);
    }
  }

  lemma {:induction false} NotBothWays(s: seq<Entry>, x: Entry, y: Entry)
    requires Distinct(s) && Precedes(s, x, y)
    ensures !Precedes(s, y, x)
  {
  }

  /** No two entries compare at most to each other both ways. */
  ghost predicate NoTies(env: Env, s: seq<Entry>) {
    forall x, y :: x in s && y in s && AtMost(env, x, y) && AtMost(env, y, x) ==> x == y
  }

  ghost predicate SameEntries(s: seq<Entry>, t: seq<Entry>) {
    forall x :: x in s <==> x in t
  }

  lemma {:induction false} LastIsGreatest(env: Env, s: seq<Entry>, x: Entry)
    requires IsOrder(env.atMost) && InOrder(env, s) && x in s
    ensures AtMost(env, x, s[|s| - 1])
  {
    AtMostOrder(env, x, x, x);
    hide AtMost, IsOrder;
  }

  lemma {:induction false} LastsAgree(env: Env, s: seq<Entry>, t: seq<Entry>)
    requires IsOrder(env.atMost) && InOrder(env, s) && InOrder(env, t) && SameEntries(s, t) && NoTies(env, s)
    requires s != [] && t != []
    ensures s[|s| - 1] == t[|t| - 1]
  {
    hide AtMost, IsOrder, InOrder;
    LastIsGreatest(env, s, t[|t| - 1]);
    LastIsGreatest(env, t, s[|s| - 1]);
  }

  lemma {:induction false} PrefixIsInOrder(env: Env, s: seq<Entry>)
    requires s != [] && InOrder(env, s) && Distinct(s)
    ensures InOrder(env, s[..|s| - 1]) && Distinct(s[..|s| - 1])
    ensures NoTies(env, s) ==> NoTies(env, s[..|s| - 1])
    ensures forall x :: x in s[..|s| - 1] <==> x in s && x != s[|s| - 1]
  {
    hide AtMost;
    assert s == s[..|s| - 1] + [s[|s| - 1]];
  }

  /** Without ties there is only one sorted list. */
  lemma {:induction false} SortedListsAgree(env: Env, s: seq<Entry>, t: seq<Entry>)
    requires IsOrder(env.atMost) && InOrder(env, s) && InOrder(env, t) && Distinct(s) && Distinct(t)
    requires SameEntries(s, t) && NoTies(env, s)
    ensures s == t
  {
    hide AtMost, IsOrder, InOrder, Distinct, NoTies;
    assert t != [] ==> t[0] in t;
    assert s != [] ==> s[0] in t;
    if s != [] {
      var a, b := s[..|s| - 1], t[..|t| - 1];
      LastsAgree(env, s, t);
      PrefixIsInOrder(env, s);
      PrefixIsInOrder(env, t);
      forall x ensures x in a <==> x in b {
        assert x in s <==> x in t;
      }
      SortedListsAgree(env, a, b);
      assert s == a + [s[|s| - 1]] && t == b + [t[|t| - 1]];
    }
  }

  // ---------------------------------------------------------------------
  // Order independence
  // ---------------------------------------------------------------------

  /** No two groups have labels that compare equal. */
  ghost predicate LabelsDistinct(env: Env, keys: seq<Key>) {
    forall k, l :: k in keys && l in keys && env.atMost(Label(k), Label(l)) && env.atMost(Label(l), Label(k)) ==> k == l
  }

  lemma {:induction false} EntriesCover(env: Env, a: seq<Record>, weights: Option<seq<Weight>>, keys: seq<Key>,
                                        x: Entry)
    ensures x in Entries(env, a, weights, keys) <==> x.key in keys && x == EntryOf(env, a, weights, x.key)
  {
    EntriesAre(env, a, weights, keys);
    hide EntryOf, Entries;
    var e := Entries(env, a, weights, keys);
    if x in e {
      var i :| 0 <= i < |e| && e[i] == x;
      assert x == EntryOf(env, a, weights, keys[i]);
      KeyOfEntry(env, a, weights, keys[i]);
    }
    if x.key in keys && x == EntryOf(env, a, weights, x.key) {
      var i :| 0 <= i < |keys| && keys[i] == x.key;
      assert e[i] == x;
    }
  }

  lemma TiedLabels(env: Env, a: seq<Record>, weights: Option<seq<Weight>>, k: Key, l: Key)
    requires env.atMost(Label(k), Label(l))
    ensures AtMost(env, EntryOf(env, a, weights, k), EntryOf(env, a, weights, l))
  {
    hide EntryOf, Label;
    KeyOfEntry(env, a, weights, k);
    KeyOfEntry(env, a, weights, l);
  }

  lemma KeyOfEntry(env: Env, a: seq<Record>, weights: Option<seq<Weight>>, key: Key)
    ensures EntryOf(env, a, weights, key).key == key
  {
  }

  lemma {:induction false} EntriesAreDistinct(env: Env, a: seq<Record>, weights: Option<seq<Weight>>, keys: seq<Key>)
    requires DistinctKeys(keys)
    ensures Distinct(Entries(env, a, weights, keys))
  {
    EntriesAre(env, a, weights, keys);
    forall key ensures EntryOf(env, a, weights, key).key == key { KeyOfEntry(env, a, weights, key); }
    hide EntryOf, Entries;
  }

  /** A permutation has the same groups with the same entries, maybe in another order. */
  lemma {:induction false} EntriesPermute(env: Env, a: seq<Record>, b: seq<Record>, weights: Option<seq<Weight>>)
    requires multiset(a) == multiset(b)
    ensures SameEntries(Entries(env, a, weights, Keys(a)), Entries(env, b, weights, Keys(b)))
    ensures forall key :: key in Keys(a) <==> key in Keys(b)
  {
    hide EntryOf, Entries, KeyOf, Keys;
    SameMembers(a, b);
    KeysAre(a);
    KeysAre(b);
    forall key ensures key in Keys(a) <==> key in Keys(b) {
    }
    forall x ensures x in Entries(env, a, weights, Keys(a)) <==> x in Entries(env, b, weights, Keys(b)) {
      EntriesCover(env, a, weights, Keys(a), x);
      EntriesCover(env, b, weights, Keys(b), x);
      EntryPermutes(env, a, b, weights, x.key);
    }
  }

  /** Whether a list of records is scored at all does not depend on its order. */
  lemma {:induction false} InvalidPermutes(env: Env, a: seq<Record>, b: seq<Record>, weights: Option<seq<Weight>>)
    requires multiset(a) == multiset(b)
    ensures ScoreOf(env, a, weights).Invalid? <==> ScoreOf(env, b, weights).Invalid?
  {
    hide Admissible, Entries, Keys, Sort;
    AdmissiblePermutes(a, b);
    EntriesPermute(env, a, b, weights);
  }

  lemma {:induction false} DistinctLabelsSuffice(env: Env, a: seq<Record>, b: seq<Record>, weights: Option<seq<Weight>>)
    requires multiset(a) == multiset(b) && IsOrder(env.atMost) && LabelsDistinct(env, Keys(a))
    ensures ScoreOf(env, a, weights) == ScoreOf(env, b, weights)
  {
    var x, y := Entries(env, a, weights, Keys(a)), Entries(env, b, weights, Keys(b));
    InvalidPermutes(env, a, b, weights);
    assert forall r :: ScoreOf(env, a, weights) == r ==> r.Invalid? || r == Scores(Sort(env, x));
    assert forall r :: ScoreOf(env, b, weights) == r ==> r.Invalid? || r == Scores(Sort(env, y));
    hide Entries, Keys, Sort, ScoreOf, IsOrder;
    EntriesPermute(env, a, b, weights);
    KeysAre(a);
    KeysAre(b);
    EntriesAreDistinct(env, a, weights, Keys(a));
    EntriesAreDistinct(env, b, weights, Keys(b));
    SortIs(env, x);
    SortIs(env, y);
    assert NoTies(env, Sort(env, x)) by {
      forall e, f | e in x && f in x && AtMost(env, e, f) && AtMost(env, f, e) ensures e == f {
        EntriesCover(env, a, weights, Keys(a), e);
        EntriesCover(env, a, weights, Keys(a), f);
      }
    }
    SortedListsAgree(env, Sort(env, x), Sort(env, y));
  }

  /** The records of other groups. */
  function Rest(records: seq<Record>, key: Key): seq<Record> {
    if records == [] then []
    else
      var last := records[|records| - 1];
      Rest(records[..|records| - 1], key) + if KeyOf(last) == key then [] else [last]
  }

  /** One group's records first. */
  function Front(records: seq<Record>, key: Key): seq<Record> {
    RowsOf(records, key) + Rest(records, key)
  }

  lemma {:induction false} FrontPermutes(records: seq<Record>, key: Key)
    ensures multiset(Front(records, key)) == multiset(records)
  {
    if records != [] {
      var init, last := records[..|records| - 1], records[|records| - 1];
      assert records == init + [last];
      FrontPermutes(init, key);
      RowsOrRest(init, last, key);
      OneMoreRecord(RowsOf(init, key), Rest(init, key), last);
      hide RowsOf, Rest, KeyOf;
      assert multiset(init + [last]) == multiset(init) + multiset{last};
    }
  }

  lemma OneMoreRecord(rows: seq<Record>, rest: seq<Record>, last: Record)
    ensures multiset((rows + [last]) + rest) == multiset(rows + rest) + multiset{last}
    ensures multiset(rows + (rest + [last])) == multiset(rows + rest) + multiset{last}
  {
  }

  lemma RowsOrRest(init: seq<Record>, last: Record, key: Key)
    ensures (RowsOf(init + [last], key) == RowsOf(init, key) + [last] && Rest(init + [last], key) == Rest(init, key)) ||
            (RowsOf(init + [last], key) == RowsOf(init, key) && Rest(init + [last], key) == Rest(init, key) + [last])
  {
    assert (init + [last])[..|init|] == init;
  }

  lemma {:induction false} RowsHaveKey(records: seq<Record>, key: Key)
    ensures forall r :: r in RowsOf(records, key) ==> KeyOf(r) == key
    ensures (exists r :: r in records && KeyOf(r) == key) ==> RowsOf(records, key) != []
  {
    if records != [] {
      assert records == records[..|records| - 1] + [records[|records| - 1]];
      RowsHaveKey(records[..|records| - 1], key);
    }
  }

  lemma {:induction false} FirstKey(records: seq<Record>)
    requires records != []
    ensures Keys(records) != [] && Keys(records)[0] == KeyOf(records[0])
  {
    if |records| > 1 { FirstKey(records[..|records| - 1]); }
    else { assert records[..0] == []; }
  }

  lemma FrontStartsWith(a: seq<Record>, k: Key)
    requires k in Keys(a)
    ensures Keys(Front(a, k)) != [] && Keys(Front(a, k))[0] == k
  {
    hide Keys, KeyOf, Rest, RowsOf;
    KeysAre(a);
    RowsHaveKey(a, k);
    assert Front(a, k)[0] == RowsOf(a, k)[0];
    FirstKey(Front(a, k));
  }

  /** With its group's records first, an entry comes before any other it ties with. */
  lemma {:induction false} FrontComesFirst(env: Env, a: seq<Record>, b: seq<Record>, weights: Option<seq<Weight>>,
                                           k: Key, l: Key)
    requires b == Front(a, k) && k in Keys(a) && l in Keys(a) && k != l && env.atMost(Label(k), Label(l))
    requires ScoreOf(env, b, weights).Scores?
    ensures Precedes(ScoreOf(env, b, weights).entries, EntryOf(env, a, weights, k), EntryOf(env, a, weights, l))
  {
    var x, y := EntryOf(env, a, weights, k), EntryOf(env, a, weights, l);
    var s := Entries(env, b, weights, Keys(b));
    assert ScoreOf(env, b, weights).entries == Sort(env, s);
    hide EntryOf, Entries, Keys, Sort, ScoreOf, Label, Front;
    FrontPermutes(a, k);
    FrontStartsWith(a, k);
    EntriesPermute(env, a, b, weights);
    EntriesAre(env, b, weights, Keys(b));
    EntryPermutes(env, a, b, weights, k);
    EntryPermutes(env, a, b, weights, l);
    var j :| 0 <= j < |Keys(b)| && Keys(b)[j] == l;
    assert s[0] == x && s[j] == y;
    TiedLabels(env, a, weights, k, l);
    SortIsStable(env, s, x, y);
  }

  /** Two groups whose labels tie come out in an order that depends on the records' order. */
  lemma {:induction false} TiesMatter(env: Env, a: seq<Record>, weights: Option<seq<Weight>>, k: Key, l: Key)
    requires IsOrder(env.atMost) && ScoreOf(env, a, weights).Scores? && k in Keys(a) && l in Keys(a) && k != l
    requires env.atMost(Label(k), Label(l)) && env.atMost(Label(l), Label(k))
    ensures ScoreOf(env, Front(a, k), weights) != ScoreOf(env, Front(a, l), weights)
  {
    var b, c := Front(a, k), Front(a, l);
    FrontPermutes(a, k);
    FrontPermutes(a, l);
    InvalidPermutes(env, a, b, weights);
    InvalidPermutes(env, a, c, weights);
    FrontComesFirst(env, a, b, weights, k, l);
    FrontComesFirst(env, a, c, weights, l, k);
    var s := Entries(env, b, weights, Keys(b));
    assert ScoreOf(env, b, weights).entries == Sort(env, s);
    hide EntryOf, Entries, Keys, Sort, ScoreOf;
    KeysAre(b);
    EntriesAreDistinct(env, b, weights, Keys(b));
    SortIs(env, s);
    NotBothWays(Sort(env, s), EntryOf(env, a, weights, k), EntryOf(env, a, weights, l));
  }

  /** The score is the same for every order of the records exactly when no two groups have labels that compare equal. */
  lemma {:induction false} OrderIndependentIff(env: Env, a: seq<Record>, weights: Option<seq<Weight>>)
    requires IsOrder(env.atMost) && ScoreOf(env, a, weights).Scores?
    ensures (forall b: seq<Record> :: multiset(b) == multiset(a) ==>
             ScoreOf(env, b, weights) == ScoreOf(env, a, weights))
      <==> LabelsDistinct(env, Keys(a))
  {
    if LabelsDistinct(env, Keys(a)) {
      forall b: seq<Record> | multiset(b) == multiset(a) ensures ScoreOf(env, b, weights) == ScoreOf(env, a, weights) {
        DistinctLabelsSuffice(env, a, b, weights);
      }
    } else {
      var k, l :| k in Keys(a) && l in Keys(a) && env.atMost(Label(k), Label(l)) && env.atMost(Label(l), Label(k)) &&
        k != l;
      hide ScoreOf, IsOrder, Keys, Label, Front;
      FrontPermutes(a, k);
      FrontPermutes(a, l);
      TiesMatter(env, a, weights, k, l);
    }
  }

  /** Different groups can share a label: a tool name may hold the separator. */
  lemma {:induction false} LabelsCanCoincide()
    ensures Label(Key("a@1", "2", Some(Automated))) == Label(Key("a", "1@2", Some(Automated)))
  {
    assert "a@1" + "@" + "2" == "a" + "@" + "1@2";
  }
}
