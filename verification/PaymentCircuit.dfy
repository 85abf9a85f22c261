/** The payment circuit breaker of services/payment/circuit.py against the full history of its calls, and
    the retry loop of services/payment/adapter.py that drives it. */
module PaymentCircuit {

  const MAX_FAILURES := 3
  const RESET_AFTER_SECONDS := 30.0

  datatype Breaker = Breaker(fails: nat, open: bool, lastFail: real)

  /** A call on the breaker; success carries no time. */
  datatype Event = Ask(now: real) | Success | Failure(now: real)

  predicate Granted(b: Breaker, now: real) {
    !(b.open && now - b.lastFail < RESET_AFTER_SECONDS)
  }

  function Apply(b: Breaker, e: Event): Breaker {
    match e
    case Ask(now) => if Granted(b, now) then b.(open := false) else b
    case Success => b.(fails := 0, open := false)
    case Failure(now) => Breaker(b.fails + 1, b.open || b.fails + 1 >= MAX_FAILURES, now)
  }

  function From(b: Breaker, events: seq<Event>): Breaker {
    if events == [] then b else Apply(From(b, events[..|events| - 1]), events[|events| - 1])
  }

  const START := Breaker(0, false, 0.0)

  // ---------- the specification: what the history says ----------

  /** Failures since the last success. */
  function FailedRun(events: seq<Event>): nat {
    if events == [] then 0
    else
      match events[|events| - 1]
      case Ask(_) => FailedRun(events[..|events| - 1])
      case Success => 0
      case Failure(_) => FailedRun(events[..|events| - 1]) + 1
  }

  /** When the last failure was; the epoch before any. */
  function LastFailure(events: seq<Event>): real {
    if events == [] then 0.0
    else if events[|events| - 1].Failure? then events[|events| - 1].now
    else LastFailure(events[..|events| - 1])
  }

  ghost predicate Clocked(events: seq<Event>) {
    forall i, j :: 0 <= i < j < |events| && !events[i].Success? && !events[j].Success? ==>
        events[i].now <= events[j].now
  }

  /** The counter and the stamp are what the history says, and the circuit is only open on a full run. */
  lemma {:induction false} FieldsFromHistory(events: seq<Event>)
    ensures var b := From(START, events);
            && b.fails == FailedRun(events) && b.lastFail == LastFailure(events)
            && (b.open ==> b.fails >= MAX_FAILURES)
  {
    if events != [] { FieldsFromHistory(events[..|events| - 1]); }
  }

  /** Under a monotone clock a request is refused exactly when at least three calls have failed since
      the last success and the last failure is less than thirty seconds old. */
  lemma {:induction false} RefusedExactly(events: seq<Event>, now: real)
    requires Clocked(events + [Ask(now)])
    ensures !Granted(From(START, events), now) <==>
            FailedRun(events) >= MAX_FAILURES && now - LastFailure(events) < RESET_AFTER_SECONDS
  {
    FieldsFromHistory(events);
    if events != [] {
      var n := |events| - 1;
      var before, last := events[..n], events[n];
      FieldsFromHistory(before);
      if last.Ask? {
        assert (events + [Ask(now)])[n] == last && (events + [Ask(now)])[n + 1] == Ask(now);
        assert before + [Ask(last.now)] == events;
        assert Clocked(events) by { PrefixClocked(events, Ask(now)); }
        RefusedExactly(before, last.now);
      }
    }
  }

  lemma PrefixClocked(events: seq<Event>, e: Event)
    requires Clocked(events + [e])
    ensures Clocked(events)
  {
    forall i, j | 0 <= i < j < |events| && !events[i].Success? && !events[j].Success?
      ensures events[i].now <= events[j].now
    {
      assert (events + [e])[i] == events[i] && (events + [e])[j] == events[j];
    }
  }

  // ---------- the globals ----------

  class Circuit {
    var fails: nat
    var open: bool
    var lastFail: real

    constructor ()
      ensures View() == START
    {
      fails, open, lastFail := 0, false, 0.0;
    }

    function View(): Breaker
      reads this
    {
      Breaker(fails, open, lastFail)
    }

    method Allow(now: real) returns (ok: bool)
      modifies this
      ensures ok == Granted(old(View()), now)
      ensures View() == Apply(old(View()), Ask(now))
    {
      if open && now - lastFail < RESET_AFTER_SECONDS {
        return false;
      }
      if open {
        open := false;
      }
      return true;
    }

    method Succeed()
      modifies this
      ensures View() == Apply(old(View()), Success)
    {
      fails, open := 0, false;
    }

    method Fail(now: real)
      modifies this
      ensures View() == Apply(old(View()), Failure(now))
    {
      fails, lastFail := fails + 1, now;
      if fails >= MAX_FAILURES {
        open := true;
      }
    }
  }

  // ---------- the adapter ----------

  /** What one POST yields: 200 with a JSON body, 200 with a body that does not decode (which raises
      inside the same `try`), another status, or a request error. */
  datatype Reply = Body | BadBody | Refused | Raised

  datatype Result = ValueError | CircuitOpen | Answered | Failed

  /** The calls on the breaker that one reply causes. */
  function Contact(reply: Reply, now: real): seq<Event> {
    match reply
    case Body => [Success]
    case BadBody => [Success, Failure(now)]
    case Refused => [Failure(now)]
    case Raised => [Failure(now)]
  }

  function Contacts(reply: nat -> Reply, at: nat -> real, n: nat): seq<Event> {
    if n == 0 then [] else Contacts(reply, at, n - 1) + Contact(reply(n - 1), at(n - 1))
  }

  lemma {:induction false} FromConcat(b: Breaker, s: seq<Event>, t: seq<Event>)
    ensures From(b, s + t) == From(From(b, s), t)
  {
    if t == [] {
      assert s + t == s;
    } else {
      assert (s + t)[..|s + t| - 1] == s + t[..|t| - 1];
      FromConcat(b, s, t[..|t| - 1]);
    }
  }

  lemma FromOne(b: Breaker, e: Event)
    ensures From(b, [e]) == Apply(b, e)
  {
    assert From(b, [e][..0]) == b;
  }

  lemma FromTwo(b: Breaker, d: Event, e: Event)
    ensures From(b, [d, e]) == Apply(Apply(b, d), e)
  {
    FromOne(b, d);
    assert [d, e][..1] == [d];
  }

  lemma ContactStep(b: Breaker, log: seq<Event>, reply: nat -> Reply, at: nat -> real, n: nat)
    ensures From(b, log + Contacts(reply, at, n + 1)) ==
            From(From(b, log + Contacts(reply, at, n)), Contact(reply(n), at(n)))
  {
    hide From, Contact;
    assert log + Contacts(reply, at, n + 1) == (log + Contacts(reply, at, n)) + Contact(reply(n), at(n));
    FromConcat(b, log + Contacts(reply, at, n), Contact(reply(n), at(n)));
  }

  lemma NoContact(b: Breaker, now: real, reply: nat -> Reply, at: nat -> real)
    ensures From(b, [Ask(now)] + Contacts(reply, at, 0)) == Apply(b, Ask(now))
  {
    hide Apply;
    FromOne(b, Ask(now));
    assert [Ask(now)] + Contacts(reply, at, 0) == [Ask(now)];
  }

  /** Performs one POST and what follows it on the breaker. */
  method Post(c: Circuit, reply: Reply, now: real) returns (answered: bool)
    modifies c
    ensures answered == reply.Body?
    ensures c.View() == From(old(c.View()), Contact(reply, now))
  {
    FromOne(c.View(), Success);
    FromOne(c.View(), Failure(now));
    FromTwo(c.View(), Success, Failure(now));
    if reply.Body? || reply.BadBody? {
      c.Succeed();
      if reply.Body? {
        return true;
      }
    }
    c.Fail(now);
    return false;
  }

  /** Failures on the counter after `n` replies none of which is a decodable 200: an undecodable one
      resets the counter before it fails. */
  function Counted(fails: nat, reply: nat -> Reply, n: nat): nat {
    if n == 0 then fails
    else if reply(n - 1).BadBody? then 1
    else Counted(fails, reply, n - 1) + 1
  }

  /** What failing attempts leave: the count, the last time, and an open circuit from three on. */
  lemma {:induction false} FailuresAddUp(b: Breaker, reply: nat -> Reply, at: nat -> real, n: nat)
    requires n > 0 && forall i: nat :: i < n ==> !reply(i).Body?
    ensures var t := From(b, Contacts(reply, at, n));
            && t.fails == Counted(b.fails, reply, n) && t.lastFail == at(n - 1)
            && (t.open <==> t.fails >= MAX_FAILURES || (b.open && forall i: nat :: i < n ==> !reply(i).BadBody?))
  {
    hide From, Contacts;
    var before := From(b, Contacts(reply, at, n - 1));
    OneMore(b, reply, at, n - 1);
    if n == 1 {
      Nothing(b, reply, at);
    } else {
      FailuresAddUp(b, reply, at, n - 1);
    }
  }

  lemma Nothing(b: Breaker, reply: nat -> Reply, at: nat -> real)
    ensures From(b, Contacts(reply, at, 0)) == b
  {
  }

  /** One more failing reply, spelled out. */
  lemma OneMore(b: Breaker, reply: nat -> Reply, at: nat -> real, n: nat)
    requires !reply(n).Body?
    ensures var before := From(b, Contacts(reply, at, n));
            From(b, Contacts(reply, at, n + 1)) ==
            if reply(n).BadBody? then Breaker(1, false, at(n))
            else Breaker(before.fails + 1, before.open || before.fails + 1 >= MAX_FAILURES, at(n))
  {
    hide From;
    var before := From(b, Contacts(reply, at, n));
    FromConcat(b, Contacts(reply, at, n), Contact(reply(n), at(n)));
    FromOne(before, Failure(at(n)));
    FromTwo(before, Success, Failure(at(n)));
  }

  /** After a send that got no decodable 200, from whatever replies, the next one is refused exactly when
      three failures have accumulated and the last is under thirty seconds old. */
  lemma FailedSendBlocks(b: Breaker, start: real, reply: nat -> Reply, at: nat -> real, n: nat, now: real)
    requires n > 0 && Granted(b, start) && forall i: nat :: i < n ==> !reply(i).Body?
    ensures Granted(From(b, [Ask(start)] + Contacts(reply, at, n)), now) <==>
            Counted(b.fails, reply, n) < MAX_FAILURES || now - at(n - 1) >= RESET_AFTER_SECONDS
  {
    hide From, Contacts, Counted;
    FromConcat(b, [Ask(start)], Contacts(reply, at, n));
    FromOne(b, Ask(start));
    FailuresAddUp(b.(open := false), reply, at, n);
  }

  /** A failing send of at least three attempts, the adapter's default, accumulates three failures exactly
      when neither of its last two replies was a 200 with an undecodable body. */
  lemma ThreeAccumulate(fails: nat, reply: nat -> Reply, n: nat)
    requires n >= 3
    ensures Counted(fails, reply, n) >= MAX_FAILURES <==> !reply(n - 1).BadBody? && !reply(n - 2).BadBody?
  {
    assert Counted(fails, reply, n - 2) >= 1;
  }

  /** Bodies that do not decode fail every attempt and yet never open the circuit, however many. */
  lemma BadBodiesNeverTrip(b: Breaker, reply: nat -> Reply, at: nat -> real, n: nat)
    requires n > 0 && reply(n - 1).BadBody?
    ensures From(b, Contacts(reply, at, n)) == Breaker(1, false, at(n - 1))
  {
    hide From, Contacts;
    OneMore(b, reply, at, n - 1);
  }

  /** A decodable 200 clears the circuit, whatever came before it. */
  lemma AnswerClears(b: Breaker, start: real, reply: nat -> Reply, at: nat -> real, n: nat)
    requires n > 0 && reply(n - 1).Body?
    ensures var t := From(b, [Ask(start)] + Contacts(reply, at, n));
            t.fails == 0 && !t.open && forall later :: Granted(t, later)
  {
    hide From;
    var log := [Ask(start)] + Contacts(reply, at, n - 1);
    ContactStep(b, [Ask(start)], reply, at, n - 1);
    FromOne(From(b, log), Success);
  }

  /** `retries` attempts at most, ending with the first decodable 200; the circuit is asked only once,
      before them. `reply(i)` and `at(i)` are what attempt i yields and when. */
  method Send(c: Circuit, retries: int, now: real, reply: nat -> Reply, at: nat -> real)
    returns (r: Result, attempts: nat)
    modifies c
    ensures r.ValueError? <==> retries < 1
    ensures r.CircuitOpen? <==> retries >= 1 && !Granted(old(c.View()), now)
    ensures r.ValueError? || r.CircuitOpen? ==> attempts == 0 && c.View() == old(c.View())
    ensures r.Answered? || r.Failed? ==>
              && c.View() == From(old(c.View()), [Ask(now)] + Contacts(reply, at, attempts))
              && 1 <= attempts <= retries
              && (forall i: nat :: i < attempts - 1 ==> !reply(i).Body?)
              && (r.Answered? <==> reply(attempts - 1).Body?)
              && (r.Failed? ==> attempts == retries)
    ensures r.Answered? ==> c.fails == 0 && !c.open && forall later :: Granted(c.View(), later)
    ensures r.Failed? ==> forall later :: Granted(c.View(), later) <==>
              || Counted(old(c.View()).fails, reply, retries) < MAX_FAILURES
              || later - at(retries - 1) >= RESET_AFTER_SECONDS
  {
    hide From, Contacts, Contact, Counted, Apply, Granted;
    attempts := 0;
    if retries < 1 {
      return ValueError, 0;
    }
    ghost var b := c.View();
    var ok := c.Allow(now);
    if !ok {
      assert c.View() == b by { RefusedAsk(b, now); }
      return CircuitOpen, 0;
    }
    NoContact(b, now, reply, at);
    while attempts < retries
      invariant 0 <= attempts <= retries
      invariant c.View() == From(b, [Ask(now)] + Contacts(reply, at, attempts))
      invariant forall i: nat :: i < attempts ==> !reply(i).Body?
    {
      ContactStep(b, [Ask(now)], reply, at, attempts);
      var answered := Post(c, reply(attempts), at(attempts));
      attempts := attempts + 1;
      if answered {
        AnswerClears(b, now, reply, at, attempts);
        return Answered, attempts;
      }
    }
    forall later
      ensures Granted(c.View(), later) <==>
              || Counted(b.fails, reply, retries) < MAX_FAILURES
              || later - at(retries - 1) >= RESET_AFTER_SECONDS
    {
      FailedSendBlocks(b, now, reply, at, retries, later);
    }
    return Failed, attempts;
  }

  lemma RefusedAsk(b: Breaker, now: real)
    requires !Granted(b, now)
    ensures Apply(b, Ask(now)) == b
  {
  }
}
