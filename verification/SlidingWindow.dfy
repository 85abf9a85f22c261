/** The per-address request limit of services/exchange/src/security.py: a list of accepted stamps,
    pruned to the last second at every call, against a specification that keeps the whole history. */
module SlidingWindow {

  const REQUESTS_PER_SECOND := 10

  /** Stamps less than a second old at `now`. */
  function Recent(stamps: seq<real>, now: real): (r: seq<real>)
    ensures |r| <= |stamps|
  {
    if stamps == [] then []
    else (if now - stamps[0] < 1.0 then [stamps[0]] else []) + Recent(stamps[1..], now)
  }

  /** The stored list and the decision of one call. */
  function Pruned(stamps: seq<real>, now: real): seq<real> {
    var recent := Recent(stamps, now);
    if |recent| >= REQUESTS_PER_SECOND then recent else recent + [now]
  }

  /** The list after a sequence of calls. */
  function PrunedRun(times: seq<real>): seq<real> {
    if times == [] then [] else Pruned(PrunedRun(times[..|times| - 1]), times[|times| - 1])
  }

  /** The specification: accept when fewer than ten accepted stamps lie within the last second. */
  function Accepted(times: seq<real>): seq<real> {
    if times == [] then []
    else
      var h, now := Accepted(times[..|times| - 1]), times[|times| - 1];
      if |Recent(h, now)| < REQUESTS_PER_SECOND then h + [now] else h
  }

  ghost predicate Ordered(times: seq<real>) {
    forall i, j :: 0 <= i < j < |times| ==> times[i] <= times[j]
  }

  ghost predicate UpTo(stamps: seq<real>, now: real) {
    forall i :: 0 <= i < |stamps| ==> stamps[i] <= now
  }

  lemma {:induction false} RecentConcat(a: seq<real>, b: seq<real>, now: real)
    ensures Recent(a + b, now) == Recent(a, now) + Recent(b, now)
  {
    if a == [] {
      assert a + b == b;
    } else {
      assert (a + b)[1..] == a[1..] + b;
      RecentConcat(a[1..], b, now);
    }
  }

  /** Pruning earlier loses nothing that a later prune would keep. */
  lemma {:induction false} RecentTwice(stamps: seq<real>, before: real, now: real)
    requires before <= now
    ensures Recent(Recent(stamps, before), now) == Recent(stamps, now)
  {
    if stamps != [] {
      RecentTwice(stamps[1..], before, now);
      if now - stamps[0] < 1.0 {
        RecentConcat([stamps[0]], Recent(stamps[1..], before), now);
      } else if before - stamps[0] < 1.0 {
        RecentConcat([stamps[0]], Recent(stamps[1..], before), now);
      } else {
        assert [] + Recent(stamps[1..], before) == Recent(stamps[1..], before);
      }
    }
  }

  lemma {:induction false} AcceptedOrdered(times: seq<real>)
    requires Ordered(times)
    ensures Ordered(Accepted(times))
    ensures times != [] ==> UpTo(Accepted(times), times[|times| - 1])
    ensures times == [] ==> Accepted(times) == []
  {
    if times != [] {
      var prefix, now := times[..|times| - 1], times[|times| - 1];
      AcceptedOrdered(prefix);
      assert prefix != [] ==> prefix[|prefix| - 1] <= now;
    }
  }

  /** The stored list is always the whole accepted history restricted to the last second, and the
      call before that counts exactly the stamps the specification counts. */
  lemma {:induction false} PrunedIsRecent(times: seq<real>)
    requires Ordered(times) && times != []
    ensures PrunedRun(times) == Recent(Accepted(times), times[|times| - 1])
    ensures Recent(PrunedRun(times[..|times| - 1]), times[|times| - 1]) ==
            Recent(Accepted(times[..|times| - 1]), times[|times| - 1])
  {
    var prefix, now := times[..|times| - 1], times[|times| - 1];
    if prefix != [] {
      PrunedIsRecent(prefix);
      RecentTwice(Accepted(prefix), prefix[|prefix| - 1], now);
    }
    RecentConcat(Accepted(prefix), [now], now);
    assert [now][1..] == [];
    RecentTwice(Accepted(prefix), now, now);
  }

  /** The last ten of an ordered history are recent as soon as the tenth from the end is. */
  lemma {:induction false} RecentSuffix(stamps: seq<real>, i: nat, now: real)
    requires Ordered(stamps) && i <= |stamps| && (i < |stamps| ==> now - stamps[i] < 1.0)
    ensures |Recent(stamps, now)| >= |stamps| - i
    decreases stamps
  {
    if stamps != [] {
      var rest := stamps[1..];
      if i == 0 {
        if rest != [] { assert stamps[0] <= rest[0]; }
        RecentSuffix(rest, 0, now);
      } else {
        RecentSuffix(rest, i - 1, now);
      }
    }
  }

  /** Any accepted stamp and the tenth one after it are at least one second apart. */
  lemma {:induction false} TenPerSecond(times: seq<real>, i: nat)
    requires Ordered(times) && i + REQUESTS_PER_SECOND < |Accepted(times)|
    ensures Accepted(times)[i + REQUESTS_PER_SECOND] - Accepted(times)[i] >= 1.0
    decreases times
  {
    var prefix, now := times[..|times| - 1], times[|times| - 1];
    var h := Accepted(prefix);
    AcceptedOrdered(prefix);
    if i + REQUESTS_PER_SECOND < |h| {
      TenPerSecond(prefix, i);
    } else if now - h[i] < 1.0 {
      RecentSuffix(h, i, now);
      assert false;
    }
  }

  lemma OrderedRest(stamps: seq<real>)
    requires Ordered(stamps) && stamps != []
    ensures Ordered(stamps[1..]) && forall x :: x in stamps[1..] ==> stamps[0] <= x
  {
    var rest := stamps[1..];
    assert forall k :: 0 <= k < |rest| ==> rest[k] == stamps[k + 1];
  }

  lemma {:induction false} AllRecent(stamps: seq<real>, now: real)
    requires forall x :: x in stamps ==> now - x < 1.0
    ensures Recent(stamps, now) == stamps
  {
    if stamps != [] {
      assert stamps[0] in stamps && forall x :: x in stamps[1..] ==> x in stamps;
      AllRecent(stamps[1..], now);
      assert [stamps[0]] + stamps[1..] == stamps;
    }
  }

  /** A second ago splits an ordered list: the recent stamps are its last ones. */
  lemma {:induction false} RecentIsTail(stamps: seq<real>, now: real)
    requires Ordered(stamps)
    ensures Recent(stamps, now) == stamps[|stamps| - |Recent(stamps, now)|..]
    ensures forall i :: 0 <= i < |stamps| ==> (now - stamps[i] < 1.0 <==> i >= |stamps| - |Recent(stamps, now)|)
  {
    if stamps != [] {
      hide Ordered;
      OrderedRest(stamps);
      var rest := stamps[1..];
      if now - stamps[0] < 1.0 {
        forall x | x in stamps ensures now - x < 1.0 { assert x == stamps[0] || x in rest; }
        AllRecent(stamps, now);
      } else {
        RecentIsTail(rest, now);
        assert Recent(stamps, now) == Recent(rest, now) by { assert [] + Recent(rest, now) == Recent(rest, now); }
        assert forall i :: 0 < i < |stamps| ==> stamps[i] == rest[i - 1];
      }
    }
  }

  lemma OrderedFront(times: seq<real>, now: real)
    requires Ordered(times + [now])
    ensures Ordered(times)
  {
    assert forall k :: 0 <= k < |times| ==> times[k] == (times + [now])[k];
  }

  lemma AcceptedNext(times: seq<real>, now: real)
    ensures var h := Accepted(times);
            Accepted(times + [now]) == if |Recent(h, now)| >= REQUESTS_PER_SECOND then h else h + [now]
  {
    hide Recent;
    assert (times + [now])[..|times|] == times;
  }

  /** A call is rejected exactly when ten requests were accepted within the last second. */
  lemma RejectedExactly(times: seq<real>, now: real)
    requires Ordered(times + [now])
    ensures var h := Accepted(times);
            Accepted(times + [now]) ==
            if |h| >= 10 && now - h[|h| - 10] < 1.0 then h else h + [now]
  {
    hide Recent, Ordered, Accepted;
    OrderedFront(times, now);
    AcceptedNext(times, now);
    AcceptedOrdered(times);
    RecentIsTail(Accepted(times), now);
  }

  class RateLimiter {
    var rate: map<string, seq<real>>

    constructor ()
      ensures rate == map[]
    {
      rate := map[];
    }

    function Stamps(ip: string): seq<real>
      reads this
    {
      if ip in rate then rate[ip] else []
    }

    method RateLimit(ip: string, now: real) returns (ok: bool)
      modifies this
      ensures Stamps(ip) == Pruned(old(Stamps(ip)), now)
      ensures ok <==> |Recent(old(Stamps(ip)), now)| < REQUESTS_PER_SECOND
      ensures forall other :: other != ip ==> Stamps(other) == old(Stamps(other))
    {
      var stamps := Stamps(ip);
      var recent := [];
      for i := 0 to |stamps|
        invariant recent == Recent(stamps[..i], now) && rate == old(rate)
      {
        assert stamps[..i+1] == stamps[..i] + [stamps[i]];
        RecentConcat(stamps[..i], [stamps[i]], now);
        if now - stamps[i] < 1.0 {
          recent := recent + [stamps[i]];
        }
      }
      assert stamps[..|stamps|] == stamps;
      rate := rate[ip := recent];
      if |recent| >= REQUESTS_PER_SECOND {
        return false;
      }
      rate := rate[ip := recent + [now]];
      return true;
    }
  }
}
