/**
 The two rate limiters: the token bucket of the production-cycle server and
 the sliding window over socket connection attempts of the dashboard.
 */
module RateLimits {
  import opened Options

  // ---------------------------------------------------------------------
  // Token bucket
  // ---------------------------------------------------------------------

  datatype Rate = Rate(capacity: real, refillPerMs: real)

  datatype Level = Level(tokens: real, last: real)

  function Least(a: real, b: real): real {
    if a < b then a else b
  }

  /** The time from a to b, or none if the clock went back. */
  function Elapsed(a: real, b: real): real {
    if b > a then b - a else 0.0
  }

  function Refill(r: Rate, ms: real): real {
    ms * r.refillPerMs
  }

  /** The level after the refill due at time t. A clock that went back refills nothing but moves `last` back. */
  function Refilled(r: Rate, b: Level, t: real): Level {
    Level(Least(r.capacity, b.tokens + Refill(r, Elapsed(b.last, t))), t)
  }

  predicate Grants(r: Rate, b: Level, t: real) {
    Refilled(r, b, t).tokens >= 1.0
  }

  function Taken(r: Rate, b: Level, t: real): Level {
    var full := Refilled(r, b, t);
    if Grants(r, b, t) then full.(tokens := full.tokens - 1.0) else full
  }

  function After(r: Rate, b: Level, times: seq<real>): Level {
    if times == [] then b else Taken(r, After(r, b, times[..|times| - 1]), times[|times| - 1])
  }

  /** How many of the calls at these times are granted. */
  function Granted(r: Rate, b: Level, times: seq<real>): nat {
    if times == [] then 0
    else
      var init := times[..|times| - 1];
      Granted(r, b, init) + if Grants(r, After(r, b, init), times[|times| - 1]) then 1 else 0
  }

  predicate Sane(r: Rate, b: Level) {
    r.refillPerMs >= 0.0 && 0.0 <= b.tokens <= r.capacity
  }

  /** Whatever the clock does, the level stays between zero and the capacity. */
  lemma {:induction false} LevelStaysInBounds(r: Rate, b: Level, times: seq<real>)
    requires Sane(r, b)
    ensures Sane(r, After(r, b, times))
  {
    if times != [] {
      var before, t := After(r, b, times[..|times| - 1]), times[|times| - 1];
      LevelStaysInBounds(r, b, times[..|times| - 1]);
      assert Refill(r, Elapsed(before.last, t)) >= 0.0;
    }
  }

  /** How far the clock moved forward over the calls, counting every forward step and no backward one. */
  function Forward(start: real, times: seq<real>): real {
    if times == [] then 0.0
    else
      var init := times[..|times| - 1];
      Forward(start, init) + Elapsed(if init == [] then start else init[|init| - 1], times[|times| - 1])
  }

  lemma RefillAdds(r: Rate, a: real, b: real)
    ensures Refill(r, a + b) == Refill(r, a) + Refill(r, b)
  {
  }

  lemma {:induction false} TakenBudget(r: Rate, b: Level, t: real)
    requires Sane(r, b)
    ensures var left := Taken(r, b, t).tokens + (if Grants(r, b, t) then 1.0 else 0.0);
      left <= r.capacity && left <= b.tokens + Refill(r, Elapsed(b.last, t))
    ensures Taken(r, b, t).last == t
  {
  }

  /**
   Whatever the clock does: grants plus what is left never exceed the tokens at the start plus the refill for every
   forward step of the clock, nor the capacity plus that refill from the first call on.
   */
  lemma {:induction false} GrantsFollowClock(r: Rate, b: Level, times: seq<real>)
    requires Sane(r, b)
    ensures var used := Granted(r, b, times) as real + After(r, b, times).tokens;
      && used <= b.tokens + Refill(r, Forward(b.last, times))
      && (times != [] ==> used <= r.capacity + Refill(r, Forward(times[0], times)))
    ensures After(r, b, times).last == if times == [] then b.last else times[|times| - 1]
  {
    if times != [] {
      hide Taken, Grants, Sane, Elapsed;
      var n := |times| - 1;
      var init := times[..n];
      var before, g := After(r, b, init), if Grants(r, After(r, b, init), times[n]) then 1.0 else 0.0;
      GrantsFollowClock(r, b, init);
      LevelStaysInBounds(r, b, init);
      TakenBudget(r, before, times[n]);
      var step, left := Elapsed(before.last, times[n]), Taken(r, before, times[n]).tokens;
      var granted := Granted(r, b, init) as real;
      assert Granted(r, b, times) as real == granted + g && After(r, b, times).tokens == left;
      assert Forward(b.last, times) == Forward(b.last, init) + step;
      assert n > 0 ==> init[0] == times[0] && Forward(times[0], times) == Forward(times[0], init) + step;
      assert n == 0 ==> times == [times[0]];
      StepIsNone(r, times[0]);
      hide Granted, After, Forward, Refill;
      RefillAdds(r, Forward(b.last, init), step);
      if n > 0 { RefillAdds(r, Forward(times[0], init), step); }
    }
  }

  lemma StepIsNone(r: Rate, t: real)
    ensures Refill(r, Forward(t, [t])) == 0.0
  {
    assert [t][..0] == [];
  }

  ghost predicate NonDecreasing(times: seq<real>) {
    forall i, j :: 0 <= i < j < |times| ==> times[i] <= times[j]
  }

  ghost predicate NonIncreasing(times: seq<real>) {
    forall i, j :: 0 <= i < j < |times| ==> times[i] >= times[j]
  }

  lemma {:induction false} MonotoneForward(times: seq<real>)
    requires times != []
    ensures NonDecreasing(times) ==> Forward(times[0], times) == times[|times| - 1] - times[0]
    ensures NonIncreasing(times) ==> Forward(times[0], times) == 0.0
  {
    var init := times[..|times| - 1];
    if init != [] {
      assert NonDecreasing(times) ==> NonDecreasing(init);
      assert NonIncreasing(times) ==> NonIncreasing(init);
      MonotoneForward(init);
    }
  }

  /** What the rate earns between two times. */
  function Earned(r: Rate, start: real, end: real): real {
    Refill(r, end - start)
  }

  /** With a clock that never steps back, grants plus what is left never exceed the capacity plus the refill. */
  lemma {:induction false} GrantsAreBounded(r: Rate, b: Level, times: seq<real>)
    requires Sane(r, b) && NonDecreasing(times) && times != []
    ensures var n := |times| - 1;
      Granted(r, b, times) as real + After(r, b, times).tokens <= r.capacity + Earned(r, times[0], times[n])
  {
    GrantsFollowClock(r, b, times);
    MonotoneForward(times);
    hide Granted, After, Forward, Sane, NonDecreasing, Refill;
  }

  /** The calls granted between calls i and j are at most the capacity plus the rate times the elapsed time. */
  ghost predicate BurstWithin(r: Rate, b: Level, times: seq<real>, i: nat, j: nat)
    requires i < j <= |times|
  {
    Granted(r, After(r, b, times[..i]), times[i..j]) as real <= r.capacity + Earned(r, times[i], times[j - 1])
  }

  lemma WindowFacts(times: seq<real>, i: nat, j: nat)
    requires i < j <= |times|
    ensures var window := times[i..j];
      && window != [] && window[0] == times[i] && window[|window| - 1] == times[j - 1]
      && (NonDecreasing(times) ==> NonDecreasing(window))
      && (NonIncreasing(times) ==> NonIncreasing(window))
  {
    assert forall k :: 0 <= k < j - i ==> times[i..j][k] == times[i + k];
  }

  lemma {:induction false} BurstIsBounded(r: Rate, b: Level, times: seq<real>, i: nat, j: nat)
    requires Sane(r, b) && NonDecreasing(times) && i < j <= |times|
    ensures BurstWithin(r, b, times, i, j)
  {
    var start, window := After(r, b, times[..i]), times[i..j];
    LevelStaysInBounds(r, b, times[..i]);
    LevelStaysInBounds(r, start, window);
    hide After, Granted, Earned, NonDecreasing;
    WindowFacts(times, i, j);
    GrantsAreBounded(r, start, window);
  }

  /** That bound holds for every bucket and between any two calls if and only if the clock never steps back. */
  lemma {:induction false} BurstIsBoundedIff(times: seq<real>)
    ensures (forall r: Rate, b: Level, i: nat, j: nat :: Sane(r, b) && i < j <= |times| ==>
             BurstWithin(r, b, times, i, j))
      <==> NonDecreasing(times)
  {
    if NonDecreasing(times) {
      forall r: Rate, b: Level, i: nat, j: nat | Sane(r, b) && i < j <= |times| ensures BurstWithin(r, b, times, i, j) {
        BurstIsBounded(r, b, times, i, j);
      }
    } else {
      var i, j :| 0 <= i < j < |times| && times[i] > times[j];
      var gap := times[i] - times[j];
      var r, b := Rate(1.0, 2.0 / gap), Level(0.0, 0.0);
      assert 2.0 / gap * gap == 2.0;
      assert Earned(r, times[i], times[j]) == -2.0;
      assert Sane(r, b) && !BurstWithin(r, b, times, i, j + 1);
    }
  }

  // ---------------------------------------------------------------------
  // Clocks that change direction
  // ---------------------------------------------------------------------

  /** The same bound on any window and any level at its start, counting a step back as no time at all. */
  ghost predicate WindowWithin(r: Rate, b: Level, window: seq<real>)
    requires window != []
  {
    Granted(r, b, window) as real <= r.capacity + Refill(r, Elapsed(window[0], window[|window| - 1]))
  }

  /** A window that goes one way, stays, and turns back. */
  predicate Turns(times: seq<real>, i: nat, j: nat) {
    && i + 1 < j < |times|
    && (forall k :: i < k < j ==> times[k] == times[i + 1])
    && ((times[i] < times[i + 1] && times[j] < times[i + 1]) || (times[i] > times[i + 1] && times[j] > times[i + 1]))
  }

  /** Where a run of equal times at the end begins. */
  lemma {:induction false} PlateauStart(times: seq<real>) returns (i: nat)
    requires times != [] && exists k :: 0 <= k < |times| && times[k] != times[|times| - 1]
    ensures i + 1 < |times| && times[i] != times[|times| - 1]
    ensures forall k :: i < k < |times| ==> times[k] == times[|times| - 1]
  {
    i := |times| - 1;
    while times[i] == times[|times| - 1]
      invariant i < |times| && forall k :: i < k < |times| ==> times[k] == times[|times| - 1]
      decreases i
    {
      i := i - 1;
    }
  }

  lemma StaysMonotone(times: seq<real>)
    requires |times| >= 2
    ensures NonDecreasing(times[..|times| - 1]) && times[|times| - 2] <= times[|times| - 1] ==> NonDecreasing(times)
    ensures NonIncreasing(times[..|times| - 1]) && times[|times| - 2] >= times[|times| - 1] ==> NonIncreasing(times)
  {
    var init := times[..|times| - 1];
    assert forall i :: 0 <= i < |init| ==> init[i] == times[i];
  }

  lemma ConstantThenStep(times: seq<real>)
    requires forall k :: 0 <= k < |times| - 1 ==> times[k] == times[|times| - 2]
    ensures NonDecreasing(times) || NonIncreasing(times)
  {
    if |times| >= 2 && times[|times| - 2] <= times[|times| - 1] { assert NonDecreasing(times); }
  }

  lemma {:induction false} FindTurn(times: seq<real>) returns (i: nat, j: nat)
    requires !NonDecreasing(times) && !NonIncreasing(times)
    ensures Turns(times, i, j)
  {
    var n := |times| - 1;
    var init := times[..n];
    if !NonDecreasing(init) && !NonIncreasing(init) {
      i, j := FindTurn(init);
    } else {
      if forall k :: 0 <= k < n ==> init[k] == init[n - 1] {
        ConstantThenStep(times);
        assert false;
      }
      i := PlateauStart(init);
      j := n;
      assert init[i] == times[i] && init[i + 1] == times[i + 1] == times[n - 1];
      if NonDecreasing(init) {
        assert times[i] < times[n - 1];
        if times[n] >= times[n - 1] {
          StaysMonotone(times);
          assert false;
        }
      } else {
        assert times[i] > times[n - 1];
        if times[n] <= times[n - 1] {
          StaysMonotone(times);
          assert false;
        }
      }
    }
  }

  lemma {:induction false} GrantedGrows(r: Rate, b: Level, times: seq<real>, n: nat)
    requires n <= |times|
    ensures Granted(r, b, times[..n]) <= Granted(r, b, times)
  {
    if n == |times| {
      assert times[..n] == times;
    } else {
      GrantedGrows(r, b, times[..|times| - 1], n);
      assert times[..|times| - 1][..n] == times[..n];
    }
  }

  /** An empty bucket gains nothing while the clock stands still. */
  lemma {:induction false} StandsStill(r: Rate, y: real, ys: seq<real>)
    requires Sane(r, Level(0.0, y)) && forall k :: 0 <= k < |ys| ==> ys[k] == y
    ensures After(r, Level(0.0, y), ys) == Level(0.0, y) && Granted(r, Level(0.0, y), ys) == 0
  {
    if ys != [] { StandsStill(r, y, ys[..|ys| - 1]); }
  }

  /** A bucket of one token earns a second one across a turn that leaves less than its time behind. */
  lemma {:induction false} TurnEarns(window: seq<real>) returns (r: Rate, b: Level)
    requires |window| >= 2 && Turns(window, 0, |window| - 1)
    ensures Sane(r, b) && !WindowWithin(r, b, window)
  {
    var x, y, z := window[0], window[1], window[|window| - 1];
    var gap := if x < y then y - x else z - y;
    r, b := Rate(1.0, 1.0 / gap), Level(1.0, x);
    assert 1.0 / gap * gap == 1.0 && 1.0 / gap > 0.0;
    var elapsed := Elapsed(x, z);
    assert elapsed < gap;
    assert Refill(r, elapsed) < 1.0 by { Smaller(1.0 / gap, elapsed, gap); }
    assert Refill(r, gap) == 1.0;
    hide Refill, Elapsed, Granted;
    if x < y { TurnsDown(r, window); } else { TurnsUp(r, window); }
  }

  lemma Smaller(rate: real, a: real, b: real)
    requires rate > 0.0 && a < b
    ensures a * rate < b * rate
  {
    assert (b - a) * rate > 0.0;
    assert (b - a) * rate == b * rate - a * rate;
  }

  lemma FirstCallGrants(r: Rate, x: real)
    requires r.capacity == 1.0
    ensures After(r, Level(1.0, x), [x]) == Level(0.0, x) && Granted(r, Level(1.0, x), [x]) == 1
  {
    assert [x][..0] == [];
    assert Taken(r, Level(1.0, x), x) == Level(0.0, x);
  }

  lemma CallAgain(r: Rate, b: Level, x: real, y: real)
    ensures After(r, b, [x, y]) == Taken(r, After(r, b, [x]), y)
    ensures Granted(r, b, [x, y]) == Granted(r, b, [x]) + if Grants(r, After(r, b, [x]), y) then 1 else 0
  {
    assert [x, y][..1] == [x];
  }

  lemma {:induction false} TurnsDown(r: Rate, window: seq<real>)
    requires |window| >= 2 && r.capacity == 1.0
    requires window[0] < window[1] && Refill(r, window[1] - window[0]) == 1.0
    ensures Granted(r, Level(1.0, window[0]), window) >= 2
  {
    var x, y := window[0], window[1];
    FirstCallGrants(r, x);
    CallAgain(r, Level(1.0, x), x, y);
    hide After, Granted, Refill;
    GrantedGrows(r, Level(1.0, x), window, 2);
    assert window[..2] == [x, y];
  }

  lemma {:induction false} TurnsUp(r: Rate, window: seq<real>)
    requires |window| >= 2 && Turns(window, 0, |window| - 1) && r.capacity == 1.0 && r.refillPerMs >= 0.0
    requires window[0] > window[1] && Refill(r, window[|window| - 1] - window[1]) == 1.0
    ensures Granted(r, Level(1.0, window[0]), window) >= 2
  {
    var n, x, y := |window| - 1, window[0], window[1];
    var b, init := Level(1.0, x), window[..n];
    FirstCallGrants(r, x);
    CallAgain(r, b, x, y);
    assert After(r, b, [x, y]) == Level(0.0, y);
    assert Granted(r, b, window) == Granted(r, b, init) + if Grants(r, After(r, b, init), window[n]) then 1 else 0;
    hide After, Granted, Refill;
    assert init[..2] == [x, y] && init[..1] == [x];
    WindowsCompose(r, b, init, 2);
    StandsStill(r, y, init[2..]);
    GrantedGrows(r, b, init, 1);
  }

  /**
   With steps back counted as no time, the bound holds on every window and for every bucket if and only if the clock
   never changes direction: a clock that turns earns the same refill twice.
   */
  lemma {:induction false} WindowIsBoundedIff(times: seq<real>)
    ensures (forall r: Rate, b: Level, i: nat, j: nat :: Sane(r, b) && i < j <= |times| ==>
             WindowWithin(r, b, times[i..j]))
      <==> NonDecreasing(times) || NonIncreasing(times)
  {
    if NonDecreasing(times) || NonIncreasing(times) {
      forall r: Rate, b: Level, i: nat, j: nat | Sane(r, b) && i < j <= |times|
        ensures WindowWithin(r, b, times[i..j])
      {
        MonotoneWindow(r, b, times, i, j);
      }
    } else {
      var i, j := FindTurn(times);
      var window := times[i..j + 1];
      assert Turns(window, 0, |window| - 1);
      var r, b := TurnEarns(window);
    }
  }

  lemma {:induction false} MonotoneWindow(r: Rate, b: Level, times: seq<real>, i: nat, j: nat)
    requires Sane(r, b) && i < j <= |times| && (NonDecreasing(times) || NonIncreasing(times))
    ensures WindowWithin(r, b, times[i..j])
  {
    var window := times[i..j];
    WindowFacts(times, i, j);
    LevelStaysInBounds(r, b, window);
    GrantsFollowClock(r, b, window);
    MonotoneForward(window);
    assert NonDecreasing(window) ==> window[0] <= window[|window| - 1];
    assert NonIncreasing(window) ==> window[0] >= window[|window| - 1];
    hide After, Granted, Forward, NonDecreasing, NonIncreasing, Refill;
    assert Forward(window[0], window) == Elapsed(window[0], window[|window| - 1]);
  }

  lemma OneMoreCall(r: Rate, b: Level, times: seq<real>, t: real)
    ensures After(r, b, times + [t]) == Taken(r, After(r, b, times), t)
    ensures Granted(r, b, times + [t]) == Granted(r, b, times) + if Grants(r, After(r, b, times), t) then 1 else 0
  {
    assert (times + [t])[..|times|] == times;
  }

  /** The run over a window is the run over the whole, seen from the window's start. */
  lemma {:induction false} WindowsCompose(r: Rate, b: Level, times: seq<real>, i: nat)
    requires i <= |times|
    ensures After(r, After(r, b, times[..i]), times[i..]) == After(r, b, times)
    ensures Granted(r, b, times) == Granted(r, b, times[..i]) + Granted(r, After(r, b, times[..i]), times[i..])
  {
    if i == |times| {
      assert times[..i] == times;
    } else {
      hide After, Granted, Taken, Grants;
      var n := |times| - 1;
      WindowsCompose(r, b, times[..n], i);
      assert times[..n][..i] == times[..i] && times[..n][i..] == times[i..n];
      assert times == times[..n] + [times[n]] && times[i..] == times[i..n] + [times[n]];
      OneMoreCall(r, b, times[..n], times[n]);
      OneMoreCall(r, After(r, b, times[..i]), times[i..n], times[n]);
    }
  }

  /** The tokens there are at time t, refill included. */
  function TokensAt(r: Rate, b: Level, t: real): real {
    var full := b.tokens + if t > b.last then (t - b.last) * r.refillPerMs else 0.0;
    if full > r.capacity then r.capacity else full
  }

  lemma RefillsOnce(r: Rate, b: Level, t: real)
    requires Sane(r, b)
    ensures Refilled(r, b, t) == Level(TokensAt(r, b, t), t) && 0.0 <= TokensAt(r, b, t) <= r.capacity
    ensures b.last == t ==> TokensAt(r, b, t) == b.tokens
  {
    assert t > b.last ==> (t - b.last) * r.refillPerMs >= 0.0;
  }

  function Fewer(a: int, b: int): int {
    if a < b then a else b
  }

  lemma TakeOne(r: Rate, b: Level, t: real)
    requires Sane(r, b)
    ensures Grants(r, b, t) <==> TokensAt(r, b, t) >= 1.0
    ensures Taken(r, b, t) == Level(TokensAt(r, b, t) - (if Grants(r, b, t) then 1.0 else 0.0), t)
    ensures Sane(r, Taken(r, b, t))
  {
    RefillsOnce(r, b, t);
    hide TokensAt, Refilled;
  }

  /** Of the calls made at one instant, as many are granted as there are whole tokens, and each takes one. */
  lemma {:induction false} CallsAtOnce(r: Rate, b: Level, t: real, times: seq<real>)
    requires Sane(r, b) && times != [] && forall i :: 0 <= i < |times| ==> times[i] == t
    ensures Granted(r, b, times) == Fewer(|times|, TokensAt(r, b, t).Floor)
    ensures After(r, b, times) == Level(TokensAt(r, b, t) - Granted(r, b, times) as real, t)
    ensures Sane(r, After(r, b, times))
  {
    var init := times[..|times| - 1];
    assert times == init + [t];
    OneMoreCall(r, b, init, t);
    RefillsOnce(r, b, t);
    if init == [] {
      TakeOne(r, b, t);
    } else {
      CallsAtOnce(r, b, t, init);
      TakeOne(r, After(r, b, init), t);
      RefillsOnce(r, After(r, b, init), t);
      hide TokensAt, Taken, Grants, After, Granted, Refilled;
    }
  }

  /** After a refusal, one token's worth of waiting is enough. */
  lemma {:induction false} WaitingHelps(r: Rate, b: Level, t: real, later: real)
    requires Sane(r, b) && r.capacity >= 1.0 && !Grants(r, b, t)
    requires later >= t && Earned(r, t, later) >= 1.0
    ensures Grants(r, Taken(r, b, t), later)
  {
    assert Refill(r, Elapsed(b.last, t)) >= 0.0;
  }

  class TokenBucket {
    const rate: Rate
    var tokens: real
    var last: real

    constructor (rate: Rate, now: real)
      ensures this.rate == rate && State() == Level(rate.capacity, now)
    {
      this.rate := rate;
      tokens, last := rate.capacity, now;
    }

    function State(): Level
      reads this
    {
      Level(tokens, last)
    }

    method Take(t: real) returns (granted: bool)
      modifies this
      ensures granted == Grants(rate, old(State()), t) && State() == Taken(rate, old(State()), t)
    {
      var elapsed := if t > last then t - last else 0.0;
      tokens := Least(rate.capacity, tokens + elapsed * rate.refillPerMs);
      last := t;
      if tokens >= 1.0 {
        tokens := tokens - 1.0;
        return true;
      }
      granted := false;
    }
  }

  // ---------------------------------------------------------------------
  // Sliding window
  // ---------------------------------------------------------------------

  const WINDOW_MS := 60000
  const MAX_ATTEMPTS := 120

  /** The attempts less than a window old. */
  function Recent(attempts: seq<int>, now: int): seq<int> {
    if attempts == [] then []
    else
      var last := attempts[|attempts| - 1];
      Recent(attempts[..|attempts| - 1], now) + if now - last < WINDOW_MS then [last] else []
  }

  /** The list kept for an address after its attempts at these times, refused ones included. */
  function Kept(history: seq<int>): seq<int> {
    if history == [] then []
    else
      var now := history[|history| - 1];
      Recent(Kept(history[..|history| - 1]), now) + [now]
  }

  /** Attempt i is let through. */
  predicate Admitted(history: seq<int>, i: nat)
    requires i < |history|
  {
    |Kept(history[..i + 1])| <= MAX_ATTEMPTS
  }

  ghost predicate Ordered(history: seq<int>) {
    forall i, j :: 0 <= i < j < |history| ==> history[i] <= history[j]
  }

  lemma {:induction false} RecentTwice(attempts: seq<int>, earlier: int, now: int)
    requires earlier <= now
    ensures Recent(Recent(attempts, earlier), now) == Recent(attempts, now)
  {
    if attempts != [] {
      var init, last := attempts[..|attempts| - 1], attempts[|attempts| - 1];
      RecentTwice(init, earlier, now);
      var kept := Recent(init, earlier);
      assert (kept + [last])[..|kept|] == kept;
      assert kept + [] == kept;
    }
  }

  lemma KeptStep(init: seq<int>, now: int)
    ensures Kept(init + [now]) == Recent(Kept(init), now) + [now]
    ensures Recent(init + [now], now) == Recent(init, now) + [now]
  {
    assert (init + [now])[..|init|] == init;
  }

  /** With a clock that does not go back, the list holds every attempt of the last minute and nothing else. */
  lemma {:induction false} KeptIsLastMinute(history: seq<int>)
    requires Ordered(history) && history != []
    ensures Kept(history) == Recent(history, history[|history| - 1])
  {
    var n := |history| - 1;
    var init := history[..n];
    assert history == init + [history[n]];
    KeptStep(init, history[n]);
    if init != [] {
      hide Kept, Recent;
      KeptIsLastMinute(init);
      RecentTwice(init, init[n - 1], history[n]);
    }
  }

  /** The attempts less than a minute before `now`. */
  ghost function LastMinute(history: seq<int>, now: int): set<nat> {
    set k: nat | k < |history| && now - history[k] < 60000
  }

  lemma {:induction false} RecentCount(history: seq<int>, now: int)
    ensures |Recent(history, now)| == |LastMinute(history, now)|
  {
    if history != [] {
      var n := |history| - 1;
      RecentCount(history[..n], now);
      assert LastMinute(history, now)
        == LastMinute(history[..n], now) + if now - history[n] < 60000 then {n} else {};
    }
  }

  /**
   Refused attempts count too: an attempt is let through exactly if fewer than 120 were made in the minute before it.
   */
  lemma {:induction false} AdmittedIff(history: seq<int>, i: nat)
    requires Ordered(history) && i < |history|
    ensures Admitted(history, i) <==> |set k: nat | k < i && history[i] - history[k] < 60000| < 120
  {
    hide Kept, Recent;
    KeptIsLastMinute(history[..i + 1]);
    KeptStep(history[..i], history[i]);
    assert history[..i] + [history[i]] == history[..i + 1];
    RecentCount(history[..i], history[i]);
    assert LastMinute(history[..i], history[i]) == set k: nat | k < i && history[i] - history[k] < 60000;
  }

  /** At most 120 attempts are let through in any window shorter than a minute. */
  lemma {:induction false} WindowIsBounded(history: seq<int>, i: nat, j: nat)
    requires Ordered(history) && i <= j < |history| && history[j] - history[i] < 60000
    ensures |set k: nat | i <= k <= j && Admitted(history, k)| <= 120
    decreases j
  {
    hide Admitted;
    var admitted := set k: nat | i <= k <= j && Admitted(history, k);
    if Admitted(history, j) {
      AdmittedIff(history, j);
      FewInWindow(history, i, j);
      FewerElements(admitted, Positions(i, j) + {j});
    } else if i < j {
      WindowIsBounded(history, i, j - 1);
      assert admitted == set k: nat | i <= k <= j - 1 && Admitted(history, k);
    } else {
      assert admitted == {};
    }
  }

  lemma {:induction false} FewInWindow(history: seq<int>, i: nat, j: nat)
    requires Ordered(history) && i <= j < |history| && history[j] - history[i] < 60000
    ensures |Positions(i, j)| <= |set k: nat | k < j && history[j] - history[k] < 60000|
  {
    var recent := set k: nat | k < j && history[j] - history[k] < 60000;
    assert forall k :: i < k < j ==> history[i] <= history[k];
    FewerElements(Positions(i, j), recent);
  }

  /** The positions from i up to, not including, j. */
  function Positions(i: nat, j: nat): (s: set<nat>)
    requires i <= j
    ensures |s| == j - i && forall k: nat :: k in s <==> i <= k < j
  {
    if i == j then {} else Positions(i, j - 1) + {j - 1}
  }

  lemma FewerElements(a: set<nat>, b: set<nat>)
    requires a <= b
    ensures |a| <= |b|
  {
    assert b == a + (b - a);
  }

  lemma AdmittedByLength(history: seq<int>, now: int)
    ensures Admitted(history + [now], |history|) <==> |Kept(history + [now])| <= MAX_ATTEMPTS
  {
    hide Kept;
    assert (history + [now])[..|history| + 1] == history + [now];
  }

  class SocketLimiter {
    var attempts: map<string, seq<int>>

    constructor ()
      ensures attempts == map[]
    {
      attempts := map[];
    }

    method IsLimited(ip: string, now: int) returns (limited: bool)
      modifies this
      ensures var before := if ip in old(attempts) then old(attempts)[ip] else [];
        attempts == old(attempts)[ip := Recent(before, now) + [now]] &&
        limited == (|Recent(before, now)| >= 120)
      ensures forall history :: (if ip in old(attempts) then old(attempts)[ip] else []) == Kept(history) ==>
        (attempts[ip] == Kept(history + [now]) && limited == !Admitted(history + [now], |history|))
    {
      var before := if ip in attempts then attempts[ip] else [];
      var kept: seq<int> := [];
      for i := 0 to |before|
        invariant kept == Recent(before[..i], now)
      {
        assert before[..i + 1][..i] == before[..i];
        if now - before[i] < WINDOW_MS { kept := kept + [before[i]]; }
      }
      assert before[..|before|] == before;
      kept := kept + [now];
      attempts := attempts[ip := kept];
      limited := |kept| > MAX_ATTEMPTS;
      hide Recent, Kept, Admitted;
      forall history: seq<int> | before == Kept(history)
        ensures kept == Kept(history + [now]) && limited == !Admitted(history + [now], |history|)
      {
        KeptStep(history, now);
        AdmittedByLength(history, now);
      }
    }
  }
}
