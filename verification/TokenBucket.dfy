/** The token bucket of services/execution-engine/src/main.py, whose refill truncates to whole tokens
    and restarts its clock at every refill. Time is real and the clock does not run backwards. */
module TokenBucket {

  datatype Config = Config(maxTokens: int, refillRate: real)

  datatype Bucket = Bucket(tokens: int, lastRefill: real)

  datatype Result = Result(bucket: Bucket, grants: nat)

  /** `int(x)`: truncation toward zero. */
  function Truncate(x: real): int {
    if x >= 0.0 then x.Floor else -((-x).Floor)
  }

  /** Tokens that accrue between two times. */
  function Accrued(cfg: Config, from: real, to: real): real {
    cfg.refillRate * (to - from)
  }

  function Refill(cfg: Config, b: Bucket, now: real): Bucket {
    var refill := Truncate(Accrued(cfg, b.lastRefill, now));
    if refill > 0 then
      Bucket(if b.tokens + refill <= cfg.maxTokens then b.tokens + refill else cfg.maxTokens, now)
    else b
  }

  function Acquire(cfg: Config, b: Bucket, now: real): Result {
    var r := Refill(cfg, b, now);
    if r.tokens <= 0 then Result(r, 0) else Result(r.(tokens := r.tokens - 1), 1)
  }

  /** A sequence of calls, one per time stamp. */
  function Calls(cfg: Config, b: Bucket, times: seq<real>): Result
    decreases times
  {
    if times == [] then Result(b, 0)
    else
      var first := Acquire(cfg, b, times[0]);
      var rest := Calls(cfg, first.bucket, times[1..]);
      Result(rest.bucket, first.grants + rest.grants)
  }

  ghost predicate Monotone(start: real, times: seq<real>) {
    && (forall i :: 0 <= i < |times| ==> start <= times[i])
    && (forall i, j :: 0 <= i < j < |times| ==> times[i] <= times[j])
  }

  predicate Sane(cfg: Config, b: Bucket) {
    cfg.refillRate >= 0.0 && 0 <= b.tokens <= cfg.maxTokens
  }

  lemma AccruedAdds(cfg: Config, a: real, b: real, c: real)
    ensures Accrued(cfg, a, c) == Accrued(cfg, a, b) + Accrued(cfg, b, c)
  {
    assert c - a == (b - a) + (c - b);
  }

  lemma RateTimesDelta(cfg: Config, from: real, to: real)
    ensures (to - from) * cfg.refillRate == Accrued(cfg, from, to)
  {
  }

  lemma AccruedGrows(cfg: Config, a: real, b: real)
    requires cfg.refillRate >= 0.0 && a <= b
    ensures Accrued(cfg, a, b) >= 0.0
  {
  }

  /** What one refill adds is at most what has accrued and, below the maximum, at least half of it. */
  lemma RefillBounds(cfg: Config, b: Bucket, now: real)
    requires Sane(cfg, b) && b.lastRefill <= now
    ensures var r := Refill(cfg, b, now);
            && Sane(cfg, r) && r.lastRefill <= now
            && (r.tokens - b.tokens) as real <= Accrued(cfg, b.lastRefill, r.lastRefill)
            && (r == b ==> Accrued(cfg, b.lastRefill, now) < 1.0 || r.lastRefill == now)
            && (r.lastRefill == now || r == b)
            && (r.tokens < cfg.maxTokens ==>
                  (r.tokens - b.tokens) as real >= Accrued(cfg, b.lastRefill, r.lastRefill) / 2.0)
  {
    var x := Accrued(cfg, b.lastRefill, now);
    AccruedGrows(cfg, b.lastRefill, now);
    assert Accrued(cfg, b.lastRefill, b.lastRefill) == 0.0 by { assert b.lastRefill - b.lastRefill == 0.0; }
    hide Accrued;
    var k := x.Floor;
    assert k as real <= x < k as real + 1.0;
    assert Truncate(x) == k;
  }

  /** Grants never exceed the initial tokens plus what has accrued up to the last refill. */
  lemma {:induction false} GrantsBounded(cfg: Config, b: Bucket, times: seq<real>)
    requires Sane(cfg, b) && Monotone(b.lastRefill, times)
    ensures var r := Calls(cfg, b, times);
            && Sane(cfg, r.bucket) && b.lastRefill <= r.bucket.lastRefill
            && (times != [] ==> r.bucket.lastRefill <= times[|times| - 1])
            && (times == [] ==> r.bucket == b)
            && (r.grants + r.bucket.tokens) as real
                 <= b.tokens as real + Accrued(cfg, b.lastRefill, r.bucket.lastRefill)
    decreases times
  {
    if times != [] {
      hide Refill, Accrued;
      RefillBounds(cfg, b, times[0]);
      var first := Acquire(cfg, b, times[0]).bucket;
      var rest := times[1..];
      assert Monotone(first.lastRefill, rest);
      GrantsBounded(cfg, first, rest);
      assert rest != [] ==> rest[|rest| - 1] == times[|times| - 1];
      AccruedAdds(cfg, b.lastRefill, first.lastRefill, Calls(cfg, b, times).bucket.lastRefill);
    }
  }

  /** Since the start: never more than the initial tokens plus rate times elapsed time. */
  lemma GrantsSinceStart(cfg: Config, b: Bucket, times: seq<real>)
    requires Sane(cfg, b) && Monotone(b.lastRefill, times) && times != []
    ensures Calls(cfg, b, times).grants as real
            <= b.tokens as real + Accrued(cfg, b.lastRefill, times[|times| - 1])
  {
    hide Calls, Accrued;
    var now, last := times[|times| - 1], Calls(cfg, b, times).bucket.lastRefill;
    GrantsBounded(cfg, b, times);
    AccruedAdds(cfg, b.lastRefill, last, now);
    AccruedGrows(cfg, last, now);
  }

  /** Calls within a window, from any bucket: fewer than the maximum plus what accrues in the window plus one. */
  lemma GrantsFrom(cfg: Config, b: Bucket, window: seq<real>)
    requires Sane(cfg, b) && Monotone(b.lastRefill, window) && window != []
    ensures Calls(cfg, b, window).grants as real
            < cfg.maxTokens as real + Accrued(cfg, window[0], window[|window| - 1]) + 1.0
  {
    hide Refill, Accrued;
    var from, to := window[0], window[|window| - 1];
    RefillBounds(cfg, b, from);
    var first := Acquire(cfg, b, from);
    if Refill(cfg, b, from) == b && b.lastRefill != from {
      GrantsSinceStart(cfg, b, window);
      AccruedAdds(cfg, b.lastRefill, from, to);
    } else {
      var rest := window[1..];
      assert first.bucket.lastRefill == from && Monotone(from, rest);
      GrantsBounded(cfg, first.bucket, rest);
      AccruedGrows(cfg, from, to);
      if rest != [] {
        assert rest[|rest| - 1] == to;
        GrantsSinceStart(cfg, first.bucket, rest);
      }
    }
  }

  lemma {:induction false} CallsConcat(cfg: Config, b: Bucket, before: seq<real>, window: seq<real>)
    ensures Calls(cfg, b, before + window).grants ==
            Calls(cfg, b, before).grants + Calls(cfg, Calls(cfg, b, before).bucket, window).grants
    decreases before
  {
    if before == [] {
      assert before + window == window;
    } else {
      assert (before + window)[1..] == before[1..] + window;
      CallsConcat(cfg, Acquire(cfg, b, before[0]).bucket, before[1..], window);
    }
  }

  /** Any window of consecutive calls inside any run. */
  lemma GrantsInWindow(cfg: Config, b: Bucket, before: seq<real>, window: seq<real>)
    requires Sane(cfg, b) && Monotone(b.lastRefill, before + window) && window != []
    ensures (Calls(cfg, b, before + window).grants - Calls(cfg, b, before).grants) as real
            < cfg.maxTokens as real + Accrued(cfg, window[0], window[|window| - 1]) + 1.0
  {
    hide Calls, Accrued;
    assert forall i :: 0 <= i < |before| ==> (before + window)[i] == before[i];
    assert forall i :: 0 <= i < |window| ==> (before + window)[|before| + i] == window[i];
    GrantsBounded(cfg, b, before);
    CallsConcat(cfg, b, before, window);
    GrantsFrom(cfg, Calls(cfg, b, before).bucket, window);
  }

  // ---------- what restarting the clock loses ----------

  /** What has accrued up to the last refill and was neither granted nor is in hand. */
  function Lost(cfg: Config, b: Bucket, times: seq<real>): real {
    var r := Calls(cfg, b, times);
    b.tokens as real + Accrued(cfg, b.lastRefill, r.bucket.lastRefill) - (r.grants + r.bucket.tokens) as real
  }

  /** What one refill drops: the fraction of a token, and what exceeds the maximum. */
  function Dropped(cfg: Config, b: Bucket, now: real): real {
    var r := Refill(cfg, b, now);
    Accrued(cfg, b.lastRefill, r.lastRefill) - (r.tokens - b.tokens) as real
  }

  /** A refill that comes when a whole number of tokens has accrued. */
  predicate OnTheDot(cfg: Config, b: Bucket, now: real) {
    var accrued := Accrued(cfg, b.lastRefill, now);
    Truncate(accrued) > 0 ==> accrued == accrued.Floor as real
  }

  /** A refill that fits under the maximum. */
  predicate Fits(cfg: Config, b: Bucket, now: real) {
    b.tokens + Truncate(Accrued(cfg, b.lastRefill, now)) <= cfg.maxTokens
  }

  ghost predicate AlwaysOnTheDot(cfg: Config, b: Bucket, times: seq<real>)
    decreases times
  {
    times == [] ||
    (OnTheDot(cfg, b, times[0]) && AlwaysOnTheDot(cfg, Acquire(cfg, b, times[0]).bucket, times[1..]))
  }

  ghost predicate AlwaysFits(cfg: Config, b: Bucket, times: seq<real>)
    decreases times
  {
    times == [] ||
    (Fits(cfg, b, times[0]) && AlwaysFits(cfg, Acquire(cfg, b, times[0]).bucket, times[1..]))
  }

  /** One refill drops nothing exactly when it fits and is on the dot; one that fits drops less than half. */
  lemma DroppedExactly(cfg: Config, b: Bucket, now: real)
    requires Sane(cfg, b) && b.lastRefill <= now
    ensures Dropped(cfg, b, now) >= 0.0
    ensures Dropped(cfg, b, now) == 0.0 <==> OnTheDot(cfg, b, now) && Fits(cfg, b, now)
    ensures Fits(cfg, b, now) ==>
              if Refill(cfg, b, now) == b then Dropped(cfg, b, now) == 0.0
              else 2.0 * Dropped(cfg, b, now) < Accrued(cfg, b.lastRefill, Refill(cfg, b, now).lastRefill)
  {
    var x := Accrued(cfg, b.lastRefill, now);
    AccruedGrows(cfg, b.lastRefill, now);
    assert Accrued(cfg, b.lastRefill, b.lastRefill) == 0.0 by { assert b.lastRefill - b.lastRefill == 0.0; }
    hide Accrued;
    assert Truncate(x) == x.Floor && x.Floor as real <= x < x.Floor as real + 1.0;
  }

  /** The losses of a run are those of its refills. */
  lemma LostStep(cfg: Config, b: Bucket, times: seq<real>)
    requires times != []
    ensures Lost(cfg, b, times) == Dropped(cfg, b, times[0]) + Lost(cfg, Acquire(cfg, b, times[0]).bucket, times[1..])
  {
    hide Refill, Accrued;
    var first := Acquire(cfg, b, times[0]).bucket;
    AccruedAdds(cfg, b.lastRefill, first.lastRefill, Calls(cfg, b, times).bucket.lastRefill);
  }

  lemma NothingLost(cfg: Config, b: Bucket)
    ensures Lost(cfg, b, []) == 0.0
  {
    assert b.lastRefill - b.lastRefill == 0.0;
  }

  lemma NextCall(cfg: Config, b: Bucket, times: seq<real>)
    requires Sane(cfg, b) && Monotone(b.lastRefill, times) && times != []
    ensures Sane(cfg, Acquire(cfg, b, times[0]).bucket)
    ensures Monotone(Acquire(cfg, b, times[0]).bucket.lastRefill, times[1..])
  {
    hide Refill, Accrued;
    RefillBounds(cfg, b, times[0]);
  }

  /** Over a run nothing is lost if and only if every refill fits and comes on the dot. */
  lemma {:induction false} LostExactly(cfg: Config, b: Bucket, times: seq<real>)
    requires Sane(cfg, b) && Monotone(b.lastRefill, times)
    ensures Lost(cfg, b, times) >= 0.0
    ensures Lost(cfg, b, times) == 0.0 <==> AlwaysOnTheDot(cfg, b, times) && AlwaysFits(cfg, b, times)
    decreases times
  {
    hide Sane, Monotone, Lost, Dropped, Acquire, OnTheDot, Fits;
    if times == [] {
      NothingLost(cfg, b);
    } else {
      NextCall(cfg, b, times);
      LostStep(cfg, b, times);
      assert b.lastRefill <= times[0] by { First(b.lastRefill, times); }
      DroppedExactly(cfg, b, times[0]);
      LostExactly(cfg, Acquire(cfg, b, times[0]).bucket, times[1..]);
    }
  }

  lemma First(start: real, times: seq<real>)
    requires Monotone(start, times) && times != []
    ensures start <= times[0]
  {
  }

  /** While every refill fits, restarting the clock loses nothing before the first refill and less than
      half of what has accrued after it. */
  lemma {:induction false} HalfIsServed(cfg: Config, b: Bucket, times: seq<real>)
    requires Sane(cfg, b) && Monotone(b.lastRefill, times) && AlwaysFits(cfg, b, times)
    ensures var r := Calls(cfg, b, times);
            var served := (r.grants + r.bucket.tokens - b.tokens) as real;
            if r.bucket.lastRefill == b.lastRefill then served == 0.0
            else served > Accrued(cfg, b.lastRefill, r.bucket.lastRefill) / 2.0
    decreases times
  {
    assert Accrued(cfg, b.lastRefill, b.lastRefill) == 0.0 by { assert b.lastRefill - b.lastRefill == 0.0; }
    if times != [] {
      hide Refill, Accrued, Fits;
      var first, rest := Acquire(cfg, b, times[0]).bucket, Calls(cfg, b, times).bucket.lastRefill;
      RefillBounds(cfg, b, times[0]);
      DroppedExactly(cfg, b, times[0]);
      NextCall(cfg, b, times);
      HalfIsServed(cfg, first, times[1..]);
      GrantsBounded(cfg, first, times[1..]);
      AccruedAdds(cfg, b.lastRefill, first.lastRefill, rest);
      RefillMoves(cfg, b, times[0]);
    }
  }

  /** A refill at the very moment of the last one adds nothing. */
  lemma RefillMoves(cfg: Config, b: Bucket, now: real)
    requires b.lastRefill <= now
    ensures Refill(cfg, b, now) == b || b.lastRefill < Refill(cfg, b, now).lastRefill
  {
    if b.lastRefill == now { assert Accrued(cfg, b.lastRefill, now) == 0.0 by { assert now - now == 0.0; } }
  }

  /** One token a second from an empty bucket, and a call that lets it gain exactly one. */
  lemma OneToken(last: real, now: real, rest: seq<real>, times: seq<real>)
    requires 1.0 <= now - last < 2.0 && times == [now] + rest
    ensures var later := Calls(Config(10, 1.0), Bucket(0, now), rest);
            Calls(Config(10, 1.0), Bucket(0, last), times) == Result(later.bucket, 1 + later.grants)
  {
    assert Accrued(Config(10, 1.0), last, now) == now - last;
    assert Acquire(Config(10, 1.0), Bucket(0, last), now) == Result(Bucket(0, now), 1);
    hide Acquire;
    assert times[1..] == rest;
  }

  lemma NoCalls(cfg: Config, b: Bucket)
    ensures Calls(cfg, b, []) == Result(b, 0)
  {
  }

  /** Asked for every one and a half seconds, three seconds accrue three tokens of which only two are
      granted, none being left. Asked for every second, all three are granted. */
  lemma LossyCalls()
    ensures var cfg, empty := Config(10, 1.0), Bucket(0, 0.0);
            && Calls(cfg, empty, [1.5, 3.0]) == Result(Bucket(0, 3.0), 2)
            && Calls(cfg, empty, [1.0, 2.0, 3.0]) == Result(Bucket(0, 3.0), 3)
            && Accrued(cfg, 0.0, 3.0) == 3.0 && Lost(cfg, empty, [1.5, 3.0]) == 1.0
  {
    assert Accrued(Config(10, 1.0), 0.0, 3.0) == 3.0;
    hide Calls, Accrued;
    NoCalls(Config(10, 1.0), Bucket(0, 3.0));
    OneToken(1.5, 3.0, [], [3.0]);
    OneToken(0.0, 1.5, [3.0], [1.5, 3.0]);
    OneToken(2.0, 3.0, [], [3.0]);
    OneToken(1.0, 2.0, [3.0], [2.0, 3.0]);
    OneToken(0.0, 1.0, [2.0, 3.0], [1.0, 2.0, 3.0]);
  }

  class Limiter {
    const cfg: Config
    var tokens: int
    var lastRefill: real

    constructor (cfg: Config, tokens: int, now: real)
      ensures this.cfg == cfg && View() == Bucket(tokens, now)
    {
      this.cfg, this.tokens, this.lastRefill := cfg, tokens, now;
    }

    ghost function View(): Bucket
      reads this
    {
      Bucket(tokens, lastRefill)
    }

    /** `acquire_token` under its lock; false stands for the 429 response. */
    method AcquireToken(now: real) returns (granted: bool)
      modifies this
      ensures View() == Acquire(cfg, old(View()), now).bucket
      ensures granted <==> Acquire(cfg, old(View()), now).grants == 1
    {
      hide Accrued, Truncate;
      RateTimesDelta(cfg, lastRefill, now);
      var delta := now - lastRefill;
      var refill := Truncate(delta * cfg.refillRate);
      assert delta * cfg.refillRate == Accrued(cfg, lastRefill, now);
      assert refill == Truncate(Accrued(cfg, lastRefill, now));
      if refill > 0 {
        tokens := if tokens + refill <= cfg.maxTokens then tokens + refill else cfg.maxTokens;
        lastRefill := now;
      }
      assert View() == Refill(cfg, old(View()), now);
      if tokens <= 0 {
        return false;
      }
      tokens := tokens - 1;
      return true;
    }
  }

  /** A call is refused exactly when the bucket is empty and less than one whole token has accrued. */
  lemma RefusedExactly(cfg: Config, b: Bucket, now: real)
    requires Sane(cfg, b) && cfg.maxTokens > 0 && b.lastRefill <= now
    ensures Acquire(cfg, b, now).grants == 0 <==> b.tokens == 0 && Accrued(cfg, b.lastRefill, now) < 1.0
  {
    AccruedGrows(cfg, b.lastRefill, now);
    hide Accrued;
  }
}
