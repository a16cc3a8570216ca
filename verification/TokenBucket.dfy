/**
 The token-bucket rate limiter, over real numbers. Time is an input: each call reads
 the clock once per attempt.
 */
module TokenBucket {
  datatype Bucket = Bucket(rate: real, burst: real, tokens: real, last: real)

  ghost predicate Valid(b: Bucket) {
    b.burst >= 1.0 && 0.0 <= b.tokens <= b.burst
  }

  function New(perSec: int, now: real): (b: Bucket)
    ensures Valid(b) && b.tokens == b.burst && b.last == now && b.rate == perSec as real
    ensures b.burst == if perSec >= 1 then perSec as real else 1.0
  {
    var rate := perSec as real;
    var burst := if rate < 1.0 then 1.0 else rate;
    Bucket(rate, burst, burst, now)
  }

  function Min(a: real, b: real): (r: real) {
    if a < b then a else b
  }

  /** Tokens earned over an interval, before the cap. */
  function Earned(rate: real, elapsed: real): (r: real) {
    elapsed * rate
  }

  lemma EarnedIs(rate: real, elapsed: real)
    ensures Earned(rate, elapsed) == rate * elapsed
  {}

  lemma EarnedZero(rate: real)
    ensures Earned(rate, 0.0) == 0.0
  {}

  lemma EarnedGrows(rate: real, x: real, y: real)
    requires rate > 0.0 && x <= y
    ensures Earned(rate, x) <= Earned(rate, y)
  {
    assert (y - x) * rate >= 0.0;
  }

  lemma EarnedStrict(rate: real, x: real, y: real)
    requires rate > 0.0 && x < y
    ensures Earned(rate, x) < Earned(rate, y)
  {
    assert (y - x) * rate > 0.0;
  }

  lemma EarnedAdds(rate: real, x: real, y: real)
    ensures Earned(rate, x + y) == Earned(rate, x) + Earned(rate, y)
  {}

  function Refill(b: Bucket, now: real): (r: Bucket) {
    if now - b.last <= 0.0 then b
    else b.(last := now, tokens := Min(b.burst, b.tokens + Earned(b.rate, now - b.last)))
  }

  datatype Attempt = Attempt(b: Bucket, granted: bool)

  /** One attempt: refill, then take a whole token if there is one. */
  function Take(b: Bucket, now: real): (r: Attempt) {
    if b.rate <= 0.0 then Attempt(b, true)
    else
      var full := Refill(b, now);
      if full.tokens >= 1.0 then Attempt(full.(tokens := full.tokens - 1.0), true) else Attempt(full, false)
  }

  /** Tokens stay within the burst; a grant costs exactly one, a denial nothing. */
  lemma TakeKeeps(b: Bucket, now: real)
    requires Valid(b)
    ensures Valid(Take(b, now).b) && Take(b, now).b.rate == b.rate && Take(b, now).b.burst == b.burst
    ensures b.rate > 0.0 ==> Take(b, now).b.tokens == Refill(b, now).tokens - if Take(b, now).granted then 1.0 else 0.0
  {
    hide Earned;
    if b.rate > 0.0 && now > b.last {
      EarnedZero(b.rate);
      EarnedGrows(b.rate, 0.0, now - b.last);
    }
  }

  // ----- runs of attempts

  /** The bucket before attempt `n` of a run whose attempts read the clock as `times`. */
  function After(b: Bucket, times: seq<real>, n: nat): (r: Bucket)
    requires n <= |times|
  {
    if n == 0 then b else Take(After(b, times, n - 1), times[n - 1]).b
  }

  predicate Granted(b: Bucket, times: seq<real>, n: nat)
    requires n < |times|
  {
    Take(After(b, times, n), times[n]).granted
  }

  /** How many of the attempts `i`, ..., `j - 1` were granted. */
  function Grants(b: Bucket, times: seq<real>, i: nat, j: nat): (r: nat)
    requires i <= j <= |times|
  {
    if i == j then 0 else Grants(b, times, i, j - 1) + if Granted(b, times, j - 1) then 1 else 0
  }

  ghost predicate NonDecreasing(times: seq<real>) {
    forall i, j :: 0 <= i <= j < |times| ==> times[i] <= times[j]
  }

  /** A new bucket and a clock that never runs backwards. */
  ghost predicate Timed(b: Bucket, times: seq<real>) {
    && Valid(b) && b.rate > 0.0 && b.tokens == b.burst
    && NonDecreasing(times) && (times != [] ==> b.last <= times[0])
  }

  lemma {:induction false} AfterKeeps(b: Bucket, times: seq<real>, n: nat)
    requires Timed(b, times) && n <= |times|
    ensures var s := After(b, times, n); Valid(s) && s.rate == b.rate && s.burst == b.burst
    ensures After(b, times, n).last == if n == 0 then b.last else times[n - 1]
  {
    if n > 0 {
      AfterKeeps(b, times, n - 1);
      TakeKeeps(After(b, times, n - 1), times[n - 1]);
      assert n > 1 ==> times[n - 2] <= times[n - 1];
    }
  }

  /** The tokens an attempt finds after refilling. */
  function Level(b: Bucket, times: seq<real>, n: nat): (r: real)
    requires n < |times|
  {
    Refill(After(b, times, n), times[n]).tokens
  }

  /** What the burst and the refill since attempt `k` leave after the grants since then. */
  function Allowance(b: Bucket, times: seq<real>, k: nat, n: nat): (r: real)
    requires k <= n < |times|
  {
    b.burst + Earned(b.rate, times[n] - times[k]) - Grants(b, times, k, n) as real
  }

  lemma LevelStep(b: Bucket, times: seq<real>, n: nat)
    requires Timed(b, times) && n + 1 < |times|
    ensures Level(b, times, 0) == b.burst
    ensures Level(b, times, n + 1)
         == Min(b.burst, Level(b, times, n) - (if Granted(b, times, n) then 1.0 else 0.0) + Earned(b.rate, times[n + 1] - times[n]))
  {
    hide Earned;
    AfterKeeps(b, times, n);
    AfterKeeps(b, times, n + 1);
    TakeKeeps(After(b, times, n), times[n]);
    EarnedZero(b.rate);
    FirstLevel(b, times);
  }

  lemma FirstLevel(b: Bucket, times: seq<real>)
    requires Timed(b, times) && times != []
    ensures Level(b, times, 0) == b.burst
  {
    hide Earned;
    if times[0] > b.last {
      EarnedZero(b.rate);
      EarnedGrows(b.rate, 0.0, times[0] - b.last);
    }
  }

  lemma AllowanceStep(b: Bucket, times: seq<real>, k: nat, n: nat)
    requires k <= n && n + 1 < |times|
    ensures Allowance(b, times, k, n + 1)
         == Allowance(b, times, k, n) - (if Granted(b, times, n) then 1.0 else 0.0) + Earned(b.rate, times[n + 1] - times[n])
  {
    hide Earned, Granted;
    EarnedAdds(b.rate, times[n] - times[k], times[n + 1] - times[n]);
    assert times[n + 1] - times[k] == (times[n] - times[k]) + (times[n + 1] - times[n]);
  }

  /** No window may be overrun: the level is at most the allowance of every window. */
  lemma {:induction false} LevelBelow(b: Bucket, times: seq<real>, k: nat, n: nat)
    requires Timed(b, times) && k <= n < |times|
    ensures Level(b, times, n) <= Allowance(b, times, k, n)
  {
    hide Earned, Level, Granted, Refill;
    if k == n {
      AfterKeeps(b, times, n);
      EarnedZero(b.rate);
      LevelCapped(b, times, n);
    } else {
      LevelBelow(b, times, k, n - 1);
      LevelStep(b, times, n - 1);
      AllowanceStep(b, times, k, n - 1);
      hide Allowance;
    }
  }

  lemma LevelCapped(b: Bucket, times: seq<real>, n: nat)
    requires Timed(b, times) && n < |times|
    ensures Level(b, times, n) <= b.burst
  {
    hide Earned;
    AfterKeeps(b, times, n);
  }

  /** And it is no smaller than it must be: some window is used up to the level. */
  lemma {:induction false} LevelReached(b: Bucket, times: seq<real>, n: nat) returns (k: nat)
    requires Timed(b, times) && n < |times|
    ensures k <= n && Level(b, times, n) == Allowance(b, times, k, n)
  {
    hide Earned, Level, Granted;
    k := n;
    EarnedZero(b.rate);
    if n == 0 {
      FirstLevel(b, times);
    } else {
      LevelStep(b, times, n - 1);
      if Level(b, times, n) != b.burst {
        k := LevelReached(b, times, n - 1);
        AllowanceStep(b, times, k, n - 1);
        hide Allowance;
      }
    }
  }

  lemma GrantedByLevel(b: Bucket, times: seq<real>, n: nat)
    requires Timed(b, times) && n < |times|
    ensures Granted(b, times, n) <==> Level(b, times, n) >= 1.0
  {
    AfterKeeps(b, times, n);
  }

  /** One more grant at attempt `n` keeps the window that begins at attempt `k` within burst + rate * elapsed. */
  ghost predicate RoomInWindow(b: Bucket, times: seq<real>, k: nat, n: nat)
    requires k <= n < |times|
  {
    (Grants(b, times, k, n) + 1) as real <= b.burst + b.rate * (times[n] - times[k])
  }

  lemma RoomIsAllowance(b: Bucket, times: seq<real>, k: nat, n: nat)
    requires k <= n < |times|
    ensures RoomInWindow(b, times, k, n) <==> Allowance(b, times, k, n) >= 1.0
  {
    hide Earned, Grants;
    EarnedIs(b.rate, times[n] - times[k]);
    OneMore(Grants(b, times, k, n), b.burst, b.rate * (times[n] - times[k]));
  }

  lemma OneMore(grants: nat, burst: real, room: real)
    ensures (grants + 1) as real <= burst + room <==> burst + room - grants as real >= 1.0
  {}

  /** The limiter is exact: an attempt is granted if and only if every window that ends with it has room. */
  lemma GrantedIff(b: Bucket, times: seq<real>, n: nat)
    requires Timed(b, times) && n < |times|
    ensures Granted(b, times, n) <==> forall k: nat :: k <= n ==> RoomInWindow(b, times, k, n)
  {
    GrantedByLevel(b, times, n);
    hide Granted, Level, Allowance, RoomInWindow;
    var tight := LevelReached(b, times, n);
    forall k: nat | k <= n ensures RoomInWindow(b, times, k, n) <==> Allowance(b, times, k, n) >= 1.0 {
      RoomIsAllowance(b, times, k, n);
    }
    forall k: nat | k <= n ensures Level(b, times, n) <= Allowance(b, times, k, n) {
      LevelBelow(b, times, k, n);
    }
  }

  /** At most burst + rate * (t2 - t1) grants in any window of any run. */
  lemma {:induction false} WindowBound(b: Bucket, times: seq<real>, i: nat, j: nat)
    requires Timed(b, times) && i < j <= |times|
    ensures Grants(b, times, i, j) as real <= b.burst + b.rate * (times[j - 1] - times[i])
  {
    hide Earned, Granted;
    EarnedZero(b.rate);
    EarnedIs(b.rate, times[j - 1] - times[i]);
    if Granted(b, times, j - 1) {
      GrantedIff(b, times, j - 1);
      assert RoomInWindow(b, times, i, j - 1);
    } else if i < j - 1 {
      WindowBound(b, times, i, j - 1);
      EarnedIs(b.rate, times[j - 2] - times[i]);
      EarnedGrows(b.rate, times[j - 2] - times[i], times[j - 1] - times[i]);
    }
  }

  // ----- waiting

  /** `wait`: attempts at the clock readings it wakes at, until one is granted or `done` fires. */
  function Wait(b: Bucket, wakes: seq<real>): (r: Attempt)
    decreases |wakes|
  {
    if b.rate <= 0.0 then Attempt(b, true)
    else if wakes == [] then Attempt(b, false)
    else
      var first := Take(b, wakes[0]);
      if first.granted then first else Wait(first.b, wakes[1..])
  }

  /**
   A wait is a run of attempts of which exactly the last is granted when it returns
   true, and none when it returns false: it consumes one token or none.
   */
  lemma {:induction false} WaitConsumesOne(b: Bucket, wakes: seq<real>) returns (n: nat)
    requires b.rate > 0.0
    ensures n <= |wakes| && Wait(b, wakes).b == After(b, wakes, n)
    ensures Grants(b, wakes, 0, n) == if Wait(b, wakes).granted then 1 else 0
    ensures Wait(b, wakes).granted ==> n > 0 && Granted(b, wakes, n - 1)
    ensures !Wait(b, wakes).granted ==> n == |wakes|
    decreases |wakes|
  {
    n := 0;
    if wakes != [] {
      n := 1;
      assert After(b, wakes, 1) == Take(After(b, wakes, 0), wakes[0]).b;
      assert Grants(b, wakes, 0, 1) == Grants(b, wakes, 0, 0) + if Granted(b, wakes, 0) then 1 else 0;
      var first := Take(b, wakes[0]);
      if !first.granted {
        var m := WaitConsumesOne(first.b, wakes[1..]);
        n := m + 1;
        Shift(b, wakes, m);
        if m > 0 {
          Shift(b, wakes, m - 1);
        }
      }
    }
  }

  lemma {:induction false} Shift(b: Bucket, wakes: seq<real>, n: nat)
    requires n < |wakes|
    ensures After(b, wakes, n + 1) == After(Take(b, wakes[0]).b, wakes[1..], n)
    ensures Grants(b, wakes, 0, n + 1)
         == Grants(Take(b, wakes[0]).b, wakes[1..], 0, n) + if Take(b, wakes[0]).granted then 1 else 0
  {
    if n == 0 {
      assert After(b, wakes, 0) == b;
      assert After(b, wakes, 1) == Take(b, wakes[0]).b;
      assert Grants(b, wakes, 0, 1) == Grants(b, wakes, 0, 0) + if Granted(b, wakes, 0) then 1 else 0;
    } else {
      Shift(b, wakes, n - 1);
      assert wakes[1..][n - 1] == wakes[n];
    }
  }

  /** The sleep `wait` asks for, before it is cut to whole nanoseconds. */
  function Delay(b: Bucket): (d: real)
    requires b.rate > 0.0
  {
    (1.0 - b.tokens) / b.rate
  }

  /** A limiter made for no positive rate never limits: every attempt and every wait goes through, and nothing changes. */
  lemma Unlimited(b: Bucket, now: real, wakes: seq<real>)
    requires b.rate <= 0.0
    ensures Take(b, now) == Attempt(b, true) && Wait(b, wakes) == Attempt(b, true)
  {}

  /** A lone waiter finds its token if and only if it slept that long: it never sleeps twice, nor longer than it must. */
  lemma OneSleepSuffices(b: Bucket, now: real, woken: real)
    requires Valid(b) && b.rate > 0.0 && b.last <= now && !Take(b, now).granted
    ensures Take(Take(b, now).b, woken).granted <==> woken >= now + Delay(Take(b, now).b)
  {
    var s := Take(b, now).b;
    TakeKeeps(b, now);
    assert s.last == now && s.tokens < 1.0;
    var d := Delay(s);
    assert Earned(s.rate, d) == 1.0 - s.tokens;
    hide Earned, Delay;
    EarnedZero(s.rate);
    if woken <= now {
      if woken >= now + d {
        EarnedGrows(s.rate, d, 0.0);
      }
    } else if woken >= now + d {
      EarnedGrows(s.rate, d, woken - now);
    } else {
      EarnedStrict(s.rate, woken - now, d);
    }
  }

  // ----- the limiter object

  class Limiter {
    const rate: real
    const burst: real
    var tokens: real
    var last: real

    ghost function View(): (b: Bucket)
      reads this
    {
      Bucket(rate, burst, tokens, last)
    }

    constructor (perSec: int, now: real)
      ensures View() == New(perSec, now)
    {
      var full := if perSec as real < 1.0 then 1.0 else perSec as real;
      rate, burst, tokens, last := perSec as real, full, full, now;
    }

    method RefillLocked(now: real)
      modifies this`tokens, this`last
      ensures View() == Refill(old(View()), now)
    {
      var elapsed := now - last;
      if elapsed <= 0.0 {
        return;
      }
      last := now;
      tokens := tokens + elapsed * rate;
      if tokens > burst {
        tokens := burst;
      }
    }

    method Allow(now: real) returns (ok: bool)
      modifies this`tokens, this`last
      ensures Attempt(View(), ok) == Take(old(View()), now)
    {
      hide Earned;
      if rate <= 0.0 {
        return true;
      }
      RefillLocked(now);
      ok := tokens >= 1.0;
      if ok {
        tokens := tokens - 1.0;
      }
    }

    /** `wakes` are the clock readings of its loop until `done` fires. */
    method WaitFor(wakes: seq<real>) returns (ok: bool)
      modifies this`tokens, this`last
      ensures Attempt(View(), ok) == Wait(old(View()), wakes)
    {
      hide Earned;
      if rate <= 0.0 {
        return true;
      }
      var k := 0;
      while k < |wakes|
        invariant 0 <= k <= |wakes|
        invariant Wait(View(), wakes[k..]) == Wait(old(View()), wakes)
      {
        ghost var before := View();
        assert wakes[k..][0] == wakes[k] && wakes[k..][1..] == wakes[k + 1..];
        RefillLocked(wakes[k]);
        if tokens >= 1.0 {
          tokens := tokens - 1.0;
          assert Wait(before, wakes[k..]) == Attempt(View(), true);
          return true;
        }
        k := k + 1;
      }
      ok := false;
    }
  }
}
