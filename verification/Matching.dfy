/** Price-time matching over two sorted lists: the specification that the heap-based order book of
    services/exchange/src/orderbook.py refines, and what that specification guarantees. */
module Matching {

  datatype Side = Buy | Sell

  datatype Resting = Resting(id: string, price: real, ts: real, qty: real)

  datatype Book = Book(bids: seq<Resting>, asks: seq<Resting>)

  datatype Trade = Trade(buyId: string, sellId: string, price: real, qty: real)

  datatype Outcome = Outcome(book: Book, trades: seq<Trade>)

  datatype Request = Add(side: Side, order: Resting) | Match

  predicate Before(side: Side, a: Resting, b: Resting) {
    (if side == Buy then a.price > b.price else a.price < b.price) || (a.price == b.price && a.ts < b.ts)
  }

  function Min(a: real, b: real): real { if a <= b then a else b }

  function Enqueue(side: Side, o: Resting, q: seq<Resting>): (r: seq<Resting>)
    ensures multiset(r) == multiset(q) + multiset{o}
  {
    if q == [] || Before(side, o, q[0]) then [o] + q
    else assert q == [q[0]] + q[1..]; [q[0]] + Enqueue(side, o, q[1..])
  }

  function AddOrder(b: Book, side: Side, o: Resting): Book {
    match side
    case Buy => b.(bids := Enqueue(Buy, o, b.bids))
    case Sell => b.(asks := Enqueue(Sell, o, b.asks))
  }

  predicate Crossed(b: Book) {
    b.bids != [] && b.asks != [] && b.bids[0].price >= b.asks[0].price
  }

  function Fill(q: seq<Resting>, amount: real): (r: seq<Resting>)
    requires q != []
  {
    if q[0].qty - amount == 0.0 then q[1..] else [q[0].(qty := q[0].qty - amount)] + q[1..]
  }

  function HeadTrade(b: Book): Trade
    requires Crossed(b)
  {
    Trade(b.bids[0].id, b.asks[0].id, b.asks[0].price, Min(b.bids[0].qty, b.asks[0].qty))
  }

  function Cross(b: Book): (r: Book)
    requires Crossed(b)
    ensures |r.bids| + |r.asks| < |b.bids| + |b.asks|
  {
    var amount := Min(b.bids[0].qty, b.asks[0].qty);
    Book(Fill(b.bids, amount), Fill(b.asks, amount))
  }

  /** Pairs the best-priced, earliest buy with the best-priced, earliest sell until they do not cross. */
  function MatchAll(b: Book): Outcome
    decreases |b.bids| + |b.asks|
  {
    if !Crossed(b) then Outcome(b, [])
    else
      var rest := MatchAll(Cross(b));
      Outcome(rest.book, [HeadTrade(b)] + rest.trades)
  }

  /** Matching trades the heads of a crossed book and goes on; an uncrossed book stays. */
  lemma MatchAllStep(b: Book)
    ensures if Crossed(b)
            then MatchAll(b) == Outcome(MatchAll(Cross(b)).book, [HeadTrade(b)] + MatchAll(Cross(b)).trades)
            else MatchAll(b) == Outcome(b, [])
  {
    hide HeadTrade;
  }

  function Run(b: Book, requests: seq<Request>): Outcome
    decreases requests
  {
    if requests == [] then Outcome(b, [])
    else
      var step := Serve(b, requests[0]);
      var rest := Run(step.book, requests[1..]);
      Outcome(rest.book, step.trades + rest.trades)
  }

  function Serve(b: Book, request: Request): Outcome {
    match request
    case Add(side, order) => Outcome(AddOrder(b, side, order), [])
    case Match => MatchAll(b)
  }

  // ---------- invariants of the book ----------

  ghost predicate Sorted(side: Side, q: seq<Resting>) {
    forall i, j :: 0 <= i < j < |q| ==> !Before(side, q[j], q[i])
  }

  ghost predicate Positive(q: seq<Resting>) {
    forall i :: 0 <= i < |q| ==> q[i].qty > 0.0
  }

  ghost predicate Sound(b: Book) {
    Sorted(Buy, b.bids) && Sorted(Sell, b.asks) && Positive(b.bids) && Positive(b.asks)
  }

  ghost predicate WellFormed(requests: seq<Request>) {
    forall i :: 0 <= i < |requests| && requests[i].Add? ==> requests[i].order.qty > 0.0
  }

  lemma {:induction false} EnqueueSound(side: Side, o: Resting, q: seq<Resting>)
    requires Sorted(side, q) && Positive(q) && o.qty > 0.0
    ensures Sorted(side, Enqueue(side, o, q)) && Positive(Enqueue(side, o, q))
  {
    if q != [] && !Before(side, o, q[0]) {
      var rest := Enqueue(side, o, q[1..]);
      EnqueueSound(side, o, q[1..]);
      forall j | 0 <= j < |rest| ensures !Before(side, rest[j], q[0]) {
        assert rest[j] in multiset(rest);
        assert rest[j] == o || rest[j] in multiset(q[1..]);
        if rest[j] != o { assert rest[j] in q[1..]; }
      }
    }
  }

  lemma FillSound(side: Side, q: seq<Resting>, amount: real)
    requires q != [] && Sorted(side, q) && Positive(q) && amount <= q[0].qty
    ensures Sorted(side, Fill(q, amount)) && Positive(Fill(q, amount))
  {
    var r := Fill(q, amount);
    if q[0].qty - amount != 0.0 {
      forall i, j | 0 <= i < j < |r| ensures !Before(side, r[j], r[i]) {
        assert !Before(side, q[j], q[i]);
      }
    }
  }

  /** Matching keeps priority order and positive quantities, ends uncrossed, and trades at most
      once per order it retires. */
  lemma {:induction false} MatchAllSound(b: Book)
    requires Sound(b)
    ensures Sound(MatchAll(b).book) && !Crossed(MatchAll(b).book)
    ensures forall i :: 0 <= i < |MatchAll(b).trades| ==> MatchAll(b).trades[i].qty > 0.0
    ensures |MatchAll(b).trades| <=
            |b.bids| + |b.asks| - |MatchAll(b).book.bids| - |MatchAll(b).book.asks|
    decreases |b.bids| + |b.asks|
  {
    if Crossed(b) {
      FillSound(Buy, b.bids, HeadTrade(b).qty);
      FillSound(Sell, b.asks, HeadTrade(b).qty);
      MatchAllSound(Cross(b));
    }
  }

  /** Price-time priority: a side loses a prefix of its list, and at most the new first order is
      left part-filled, so no order trades while a better one on its side still rests. */
  ghost predicate ConsumedInOrder(q: seq<Resting>, r: seq<Resting>) {
    exists k :: 0 <= k <= |q| && ConsumedTo(q, r, k)
  }

  ghost predicate ConsumedTo(q: seq<Resting>, r: seq<Resting>, k: nat)
    requires k <= |q|
  {
    || r == q[k..]
    || (k < |q| && r != [] && 0.0 < r[0].qty < q[k].qty && r == [q[k].(qty := r[0].qty)] + q[k+1..])
  }

  /** What matching leaves, in plain prices: every resting buy bids less than every resting sell asks. */
  ghost predicate Apart(b: Book) {
    forall i, j :: 0 <= i < |b.bids| && 0 <= j < |b.asks| ==> b.bids[i].price < b.asks[j].price
  }

  /** Filling the head keeps the order of a queue, whatever the quantities. */
  lemma FillSorted(side: Side, q: seq<Resting>, amount: real)
    requires q != [] && Sorted(side, q)
    ensures Sorted(side, Fill(q, amount))
  {
  }

  lemma {:induction false} MatchAllApart(b: Book)
    requires Sorted(Buy, b.bids) && Sorted(Sell, b.asks)
    ensures Apart(MatchAll(b).book)
    decreases |b.bids| + |b.asks|
  {
    if b.bids != [] && b.asks != [] && b.bids[0].price >= b.asks[0].price {
      var amount := Min(b.bids[0].qty, b.asks[0].qty);
      FillSorted(Buy, b.bids, amount);
      FillSorted(Sell, b.asks, amount);
      MatchAllApart(Cross(b));
    } else {
      forall i, j | 0 <= i < |b.bids| && 0 <= j < |b.asks| ensures b.bids[i].price < b.asks[j].price {
        assert i > 0 ==> !Before(Buy, b.bids[i], b.bids[0]);
        assert j > 0 ==> !Before(Sell, b.asks[j], b.asks[0]);
      }
    }
  }

  /** A book whose prices are apart is left alone. */
  lemma ApartStays(b: Book)
    requires Apart(b)
    ensures MatchAll(b) == Outcome(b, [])
  {
  }

  lemma FillConsumes(q: seq<Resting>, amount: real)
    requires q != [] && 0.0 < amount <= q[0].qty
    ensures ConsumedInOrder(q, Fill(q, amount))
  {
    assert ConsumedTo(q, Fill(q, amount), if q[0].qty == amount then 1 else 0);
  }

  lemma ConsumeTwice(q: seq<Resting>, r: seq<Resting>, s: seq<Resting>)
    requires ConsumedInOrder(q, r) && ConsumedInOrder(r, s)
    ensures ConsumedInOrder(q, s)
  {
    var k :| 0 <= k <= |q| && ConsumedTo(q, r, k);
    var m :| 0 <= m <= |r| && ConsumedTo(r, s, m);
    if m == 0 {
      ConsumeHead(q, r, s, k);
    } else {
      ConsumeTail(q, r, s, k, m);
    }
  }

  lemma ConsumeTail(q: seq<Resting>, r: seq<Resting>, s: seq<Resting>, k: nat, m: nat)
    requires k <= |q| && ConsumedTo(q, r, k) && 0 < m <= |r| && ConsumedTo(r, s, m)
    ensures ConsumedInOrder(q, s)
  {
    assert |r| == |q| - k;
    assert r[m..] == q[k+m..];
    if m < |r| {
      assert r[m] == q[k+m] && r[m+1..] == q[k+m+1..];
    }
    assert ConsumedTo(q, s, k + m);
  }

  lemma ConsumeHead(q: seq<Resting>, r: seq<Resting>, s: seq<Resting>, k: nat)
    requires k <= |q| && ConsumedTo(q, r, k) && ConsumedTo(r, s, 0)
    ensures ConsumedInOrder(q, s)
  {
    assert r[0..] == r;
    if s != r {
      assert r[1..] == q[k+1..];
    }
    assert ConsumedTo(q, s, k);
  }

  lemma {:induction false} MatchAllPriority(b: Book)
    requires Sound(b)
    ensures ConsumedInOrder(b.bids, MatchAll(b).book.bids)
    ensures ConsumedInOrder(b.asks, MatchAll(b).book.asks)
    decreases |b.bids| + |b.asks|
  {
    if Crossed(b) {
      var amount := HeadTrade(b).qty;
      FillSound(Buy, b.bids, amount);
      FillSound(Sell, b.asks, amount);
      FillConsumes(b.bids, amount);
      FillConsumes(b.asks, amount);
      MatchAllPriority(Cross(b));
      ConsumeTwice(b.bids, Cross(b).bids, MatchAll(b).book.bids);
      ConsumeTwice(b.asks, Cross(b).asks, MatchAll(b).book.asks);
    } else {
      assert ConsumedTo(b.bids, b.bids, 0) && ConsumedTo(b.asks, b.asks, 0);
    }
  }

  // ---------- conservation ----------

  /** Quantity resting under the ids picked out by `who`. */
  ghost function Held(who: string -> bool, q: seq<Resting>): real {
    if q == [] then 0.0 else (if who(q[0].id) then q[0].qty else 0.0) + Held(who, q[1..])
  }

  function Queue(b: Book, side: Side): seq<Resting> { if side == Buy then b.bids else b.asks }

  function Party(t: Trade, side: Side): string { if side == Buy then t.buyId else t.sellId }

  /** Quantity traded under those ids on one side. */
  ghost function Traded(side: Side, who: string -> bool, trades: seq<Trade>): real {
    if trades == [] then 0.0
    else (if who(Party(trades[0], side)) then trades[0].qty else 0.0) + Traded(side, who, trades[1..])
  }

  /** Quantity submitted under those ids on one side. */
  ghost function Submitted(side: Side, who: string -> bool, requests: seq<Request>): real {
    if requests == [] then 0.0
    else (if requests[0].Add? && requests[0].side == side && who(requests[0].order.id)
          then requests[0].order.qty else 0.0) + Submitted(side, who, requests[1..])
  }

  lemma {:induction false} HeldEnqueue(who: string -> bool, side: Side, o: Resting, q: seq<Resting>)
    ensures Held(who, Enqueue(side, o, q)) == Held(who, q) + (if who(o.id) then o.qty else 0.0)
  {
    if q == [] || Before(side, o, q[0]) {
      assert ([o] + q)[1..] == q;
    } else {
      var rest := Enqueue(side, o, q[1..]);
      HeldEnqueue(who, side, o, q[1..]);
      assert ([q[0]] + rest)[1..] == rest;
    }
  }

  lemma HeldFill(who: string -> bool, q: seq<Resting>, amount: real)
    requires q != []
    ensures Held(who, q) == Held(who, Fill(q, amount)) + (if who(q[0].id) then amount else 0.0)
  {
    var r := Fill(q, amount);
    if q[0].qty - amount != 0.0 {
      assert r[1..] == q[1..];
    }
  }

  lemma {:induction false} TradedConcat(side: Side, who: string -> bool, a: seq<Trade>, b: seq<Trade>)
    ensures Traded(side, who, a + b) == Traded(side, who, a) + Traded(side, who, b)
  {
    if a == [] {
      assert a + b == b;
    } else {
      assert (a + b)[1..] == a[1..] + b;
      TradedConcat(side, who, a[1..], b);
    }
  }

  lemma {:induction false} MatchAllConserves(b: Book, side: Side, who: string -> bool)
    ensures Held(who, Queue(b, side)) ==
            Held(who, Queue(MatchAll(b).book, side)) + Traded(side, who, MatchAll(b).trades)
    decreases |b.bids| + |b.asks|
  {
    if Crossed(b) {
      HeldFill(who, Queue(b, side), HeadTrade(b).qty);
      MatchAllConserves(Cross(b), side, who);
      assert MatchAll(b).trades[1..] == MatchAll(Cross(b)).trades;
    }
  }

  /** Over any run, what was submitted under any choice of ids is what still rests plus what their
      trades took. One id gives the account of one order, all ids the account of a whole side. */
  lemma {:induction false} RunConserves(b: Book, requests: seq<Request>, side: Side, who: string -> bool)
    ensures Held(who, Queue(b, side)) + Submitted(side, who, requests) ==
            Held(who, Queue(Run(b, requests).book, side)) + Traded(side, who, Run(b, requests).trades)
    decreases requests
  {
    if requests != [] {
      var step := Serve(b, requests[0]);
      match requests[0] {
        case Add(s, o) => HeldEnqueue(who, s, o, Queue(b, s));
        case Match => MatchAllConserves(b, side, who);
      }
      RunConserves(step.book, requests[1..], side, who);
      TradedConcat(side, who, step.trades, Run(step.book, requests[1..]).trades);
    }
  }

  /** Every unit sold is a unit bought: trades take the same total from both sides. */
  lemma {:induction false} BoughtEqualsSold(trades: seq<Trade>)
    ensures Traded(Buy, _ => true, trades) == Traded(Sell, _ => true, trades)
  {
    if trades != [] { BoughtEqualsSold(trades[1..]); }
  }

  // ---------- whole runs ----------

  /** Every reachable book is sound, from any sound start, in particular the empty one. */
  lemma {:induction false} RunSound(b: Book, requests: seq<Request>)
    requires Sound(b) && WellFormed(requests)
    ensures Sound(Run(b, requests).book)
    ensures requests != [] && requests[|requests| - 1] == Match ==> !Crossed(Run(b, requests).book)
    decreases requests
  {
    if requests != [] {
      match requests[0] {
        case Add(s, o) => EnqueueSound(s, o, Queue(b, s));
        case Match => MatchAllSound(b);
      }
      RunSound(Serve(b, requests[0]).book, requests[1..]);
      assert |requests| > 1 ==> requests[1..][|requests[1..]| - 1] == requests[|requests| - 1];
    }
  }

  ghost predicate Known(side: Side, id: string, price: real, b: Book, requests: seq<Request>) {
    || (exists o :: o in Queue(b, side) && o.id == id && o.price == price)
    || (exists o :: Add(side, o) in requests && o.id == id && o.price == price)
  }

  /** A trade is at the price of a submitted sell and within the limit of a submitted buy. */
  ghost predicate Fair(t: Trade, b: Book, requests: seq<Request>) {
    && Known(Sell, t.sellId, t.price, b, requests)
    && (exists limit :: t.price <= limit && Known(Buy, t.buyId, limit, b, requests))
  }

  /** After any run that ends in matching, every resting buy is priced strictly below every resting sell. */
  lemma {:induction false} RunApart(b: Book, requests: seq<Request>)
    requires Sound(b) && WellFormed(requests)
    requires requests != [] && requests[|requests| - 1] == Match
    ensures Apart(Run(b, requests).book)
    decreases requests
  {
    hide MatchAll, Apart;
    var next := Serve(b, requests[0]).book;
    RunSound(b, requests[..1]);
    assert requests[..1][1..] == [] && Run(next, []) == Outcome(next, []);
    assert Run(b, requests[..1]).book == next by { OneRequest(b, requests[..1]); }
    if |requests| == 1 {
      MatchAllApart(b);
    } else {
      assert requests[1..][|requests| - 2] == Match;
      RunApart(next, requests[1..]);
    }
  }

  lemma OneRequest(b: Book, requests: seq<Request>)
    requires |requests| == 1
    ensures Run(b, requests).book == Serve(b, requests[0]).book
  {
  }

  lemma FillKnown(q: seq<Resting>, amount: real, o: Resting)
    requires q != [] && o in Fill(q, amount)
    ensures exists p :: p in q && p.id == o.id && p.price == o.price
  {
    if o in q[1..] { assert o in q; } else { assert q[0] in q; }
  }

  lemma KnownLater(side: Side, id: string, price: real, b: Book, b': Book, requests: seq<Request>, rest: seq<Request>)
    requires Known(side, id, price, b', rest)
    requires forall o :: o in Queue(b', side) ==> Known(side, o.id, o.price, b, requests)
    requires forall r :: r in rest ==> r in requests
    ensures Known(side, id, price, b, requests)
  {
  }

  lemma FairLater(t: Trade, b: Book, b': Book, requests: seq<Request>, rest: seq<Request>)
    requires Fair(t, b', rest)
    requires forall side, o :: o in Queue(b', side) ==> Known(side, o.id, o.price, b, requests)
    requires forall r :: r in rest ==> r in requests
    ensures Fair(t, b, requests)
  {
    KnownLater(Sell, t.sellId, t.price, b, b', requests, rest);
    var limit :| t.price <= limit && Known(Buy, t.buyId, limit, b', rest);
    KnownLater(Buy, t.buyId, limit, b, b', requests, rest);
  }

  lemma CrossKnown(b: Book, side: Side, o: Resting, requests: seq<Request>)
    requires Crossed(b) && o in Queue(Cross(b), side)
    ensures Known(side, o.id, o.price, b, requests)
  {
    FillKnown(Queue(b, side), HeadTrade(b).qty, o);
  }

  lemma {:induction false} MatchAllFair(b: Book, requests: seq<Request>)
    ensures forall t :: t in MatchAll(b).trades ==> Fair(t, b, requests)
    ensures forall side, o :: o in Queue(MatchAll(b).book, side) ==> Known(side, o.id, o.price, b, requests)
    decreases |b.bids| + |b.asks|
  {
    if Crossed(b) {
      MatchAllFair(Cross(b), requests);
      forall side, o | o in Queue(Cross(b), side) ensures Known(side, o.id, o.price, b, requests) {
        CrossKnown(b, side, o, requests);
      }
      forall t | t in MatchAll(b).trades ensures Fair(t, b, requests) {
        if t == HeadTrade(b) {
          assert b.bids[0] in Queue(b, Buy) && b.asks[0] in Queue(b, Sell);
          assert Known(Buy, t.buyId, b.bids[0].price, b, requests);
        } else {
          assert t in MatchAll(Cross(b)).trades;
          FairLater(t, b, Cross(b), requests, requests);
        }
      }
      forall side, o | o in Queue(MatchAll(b).book, side) ensures Known(side, o.id, o.price, b, requests) {
        KnownLater(side, o.id, o.price, b, Cross(b), requests, requests);
      }
    }
  }

  lemma ServeKnown(b: Book, requests: seq<Request>, side: Side, o: Resting)
    requires requests != [] && o in Queue(Serve(b, requests[0]).book, side)
    ensures Known(side, o.id, o.price, b, requests)
  {
    match requests[0]
    case Add(s, p) =>
      if s == side {
        assert o in multiset(Enqueue(s, p, Queue(b, s)));
        assert o == p || o in Queue(b, s);
        assert Add(s, p) in requests;
      }
    case Match => MatchAllFair(b, requests);
  }

  lemma {:induction false} RunFair(b: Book, requests: seq<Request>, t: Trade)
    requires t in Run(b, requests).trades
    ensures Fair(t, b, requests)
    decreases requests
  {
    var step := Serve(b, requests[0]);
    if t in step.trades {
      MatchAllFair(b, requests);
    } else {
      var rest := requests[1..];
      RunFair(step.book, rest, t);
      forall side, o | o in Queue(step.book, side) ensures Known(side, o.id, o.price, b, requests) {
        ServeKnown(b, requests, side, o);
      }
      FairLater(t, b, step.book, requests, rest);
    }
  }

  // ---------- one placement ----------

  /** When every placement is followed by matching, only the order just placed can trade. */
  lemma PlacementTrades(b: Book, side: Side, o: Resting, t: Trade)
    requires Sound(b) && !Crossed(b) && o.qty > 0.0
    requires t in MatchAll(AddOrder(b, side, o)).trades
    ensures Party(t, side) == o.id
  {
    var q := Queue(b, side);
    var placed := AddOrder(b, side, o);
    assert Crossed(placed);
    assert Queue(placed, side) == [o] + q;
    EnqueueSound(side, o, q);
    TakerTrades(placed, side, t);
  }

  /** One placement keeps the book sound and uncrossed, and every trade names the order placed. */
  lemma PlacementSound(b: Book, side: Side, o: Resting)
    requires Sound(b) && !Crossed(b) && o.qty > 0.0
    ensures Sound(MatchAll(AddOrder(b, side, o)).book) && !Crossed(MatchAll(AddOrder(b, side, o)).book)
    ensures forall t :: t in MatchAll(AddOrder(b, side, o)).trades ==> Party(t, side) == o.id
  {
    EnqueueSound(side, o, Queue(b, side));
    MatchAllSound(AddOrder(b, side, o));
    forall t | t in MatchAll(AddOrder(b, side, o)).trades ensures Party(t, side) == o.id {
      PlacementTrades(b, side, o, t);
    }
  }

  /** Matching with only the first order of one side able to cross. */
  lemma {:induction false} TakerTrades(b: Book, side: Side, t: Trade)
    requires Sound(b) && Queue(b, side) != []
    requires !Crossed(if side == Buy then Book(b.bids[1..], b.asks) else Book(b.bids, b.asks[1..]))
    requires t in MatchAll(b).trades
    ensures Party(t, side) == Queue(b, side)[0].id
    decreases |b.bids| + |b.asks|
  {
    if Crossed(b) && t != HeadTrade(b) {
      var c := Cross(b);
      assert t in MatchAll(c).trades;
      FillSound(Buy, b.bids, HeadTrade(b).qty);
      FillSound(Sell, b.asks, HeadTrade(b).qty);
      assert Crossed(c);
      if side == Buy {
        assert c.bids[1..] == b.bids[1..];
        assert |c.bids| == |b.bids|;
      } else {
        assert c.asks[1..] == b.asks[1..];
        assert |c.asks| == |b.asks|;
      }
      TakerTrades(c, side, t);
    }
  }

  // ---------- priority in plain terms ----------

  /** Queues in plain prices and times: better prices first, and the earlier first at equal prices. */
  lemma QueuesInPriority(b: Book, i: nat, j: nat)
    requires Sound(b) && i < j
    ensures j < |b.bids| ==>
              b.bids[i].price > b.bids[j].price
              || (b.bids[i].price == b.bids[j].price && b.bids[i].ts <= b.bids[j].ts)
    ensures j < |b.asks| ==>
              b.asks[i].price < b.asks[j].price
              || (b.asks[i].price == b.asks[j].price && b.asks[i].ts <= b.asks[j].ts)
  {
    assert j < |b.bids| ==> !Before(Buy, b.bids[j], b.bids[i]);
    assert j < |b.asks| ==> !Before(Sell, b.asks[j], b.asks[i]);
  }

  /** The order at position `i` of a queue lost quantity by matching, which left `r` of the queue. */
  ghost predicate LostSome(q: seq<Resting>, r: seq<Resting>, i: nat) {
    i < |q| && (i < |q| - |r| || (i == |q| - |r| && q[i] != r[0]))
  }

  /** A buy loses quantity only once every buy at a higher price, and every earlier one at its own price, is
      used up; likewise for sells with lower prices. */
  lemma BetterFirst(b: Book, i: nat, j: nat)
    requires Sound(b)
    ensures var r := MatchAll(b).book.bids;
            |r| <= |b.bids| &&
            (i < |b.bids| && LostSome(b.bids, r, j)
             && (b.bids[i].price > b.bids[j].price
                 || (b.bids[i].price == b.bids[j].price && b.bids[i].ts < b.bids[j].ts)) ==>
               i < |b.bids| - |r|)
    ensures var r := MatchAll(b).book.asks;
            |r| <= |b.asks| &&
            (i < |b.asks| && LostSome(b.asks, r, j)
             && (b.asks[i].price < b.asks[j].price
                 || (b.asks[i].price == b.asks[j].price && b.asks[i].ts < b.asks[j].ts)) ==>
               i < |b.asks| - |r|)
  {
    hide MatchAll, Sound;
    MatchAllPriority(b);
    if j < i { QueuesInPriority(b, j, i); }
  }
}
