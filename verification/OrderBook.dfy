/** The order book of services/exchange/src/orderbook.py: two heaps whose entries point at mutable
    orders, proved to refine the sorted-list engine of `Matching`. */
module OrderBooks {
  import opened Wrappers
  import opened HeapQueue
  import M = Matching

  datatype Result<T> = Ok(value: T) | ValueError(message: string)

  class Order {
    const side: M.Side
    const price: real
    const ts: real
    const oid: Option<string>  // the id as given
    const id: string
    var qty: real

    constructor (side: M.Side, price: real, qty: real, oid: Option<string>, id: string, ts: real)
      ensures this.side == side && this.price == price && this.qty == qty
      ensures this.oid == oid && this.id == id && this.ts == ts
    {
      this.side, this.price, this.qty, this.oid, this.id, this.ts := side, price, qty, oid, id, ts;
    }

    /** The equality that the dataclass generates: on its fields, of which the derived id is none. */
    predicate Equals(other: Order)
      reads this, other
    {
      side == other.side && price == other.price && qty == other.qty && oid == other.oid && ts == other.ts
    }

    ghost function Snapshot(): M.Resting
      reads this
    {
      M.Resting(id, price, ts, qty)
    }
  }

  /** The dataclass constructor with its checks; `render` formats side and time stamp as the default id. */
  method NewOrder(side: string, price: real, qty: real, oid: Option<string>, ts: real,
                  render: (string, real) -> string)
    returns (r: Result<Order>)
    ensures r.Ok? <==> side in {"buy", "sell"} && price > 0.0 && qty > 0.0
    ensures r.Ok? ==>
              && fresh(r.value)
              && r.value.side == (if side == "buy" then M.Buy else M.Sell)
              && r.value.price == price && r.value.qty == qty && r.value.ts == ts && r.value.oid == oid
              && r.value.id == (if oid.None? || oid.value == "" then render(side, ts) else oid.value)
  {
    if side !in {"buy", "sell"} {
      return ValueError("side must be 'buy' or 'sell'");
    }
    if price <= 0.0 || qty <= 0.0 {
      return ValueError("price and qty must be positive");
    }
    var id := if oid.None? || oid.value == "" then render(side, ts) else oid.value;
    var o := new Order(if side == "buy" then M.Buy else M.Sell, price, qty, oid, id, ts);
    r := Ok(o);
  }

  type Slot = Entry<Order>

  function Items(s: seq<Slot>): set<Order> {
    set e | e in s :: e.item
  }

  ghost function ViewOf(s: seq<Slot>): seq<M.Resting>
    reads Items(s)
  {
    if s == [] then []
    else
      assert s[0] in s && forall e :: e in s[1..] ==> e in s;
      [s[0].item.Snapshot()] + ViewOf(s[1..])
  }

  /** A list of orders reads the same as long as none of its quantities changed. */
  twostate lemma ViewUnchanged(s: seq<Slot>)
    requires forall o: Order :: o in Items(s) ==> o.qty == old(o.qty)
    ensures ViewOf(s) == old(ViewOf(s))
  {
    if s != [] {
      assert forall e :: e in s[1..] ==> e in s;
      ViewUnchanged(s[1..]);
    }
  }

  /** Heap keys are the order's own price and time, with buys negated. */
  ghost predicate Keyed(side: M.Side, h: seq<Slot>) {
    forall e :: e in h ==>
      && e.item.side == side
      && e.ts == e.item.ts
      && e.key == (if side == M.Buy then -e.item.price else e.item.price)
  }

  ghost predicate ValidSide(side: M.Side, h: seq<Slot>) {
    ValidHeap(h) && Keyed(side, h)
  }

  ghost function SideView(h: seq<Slot>): seq<M.Resting>
    reads Items(Sort(h))
  {
    ViewOf(Sort(h))
  }

  lemma SameItems(h: seq<Slot>)
    ensures Items(Sort(h)) == Items(h)
    ensures Keyed(M.Buy, Sort(h)) == Keyed(M.Buy, h) && Keyed(M.Sell, Sort(h)) == Keyed(M.Sell, h)
  {
    assert forall e :: e in Sort(h) <==> e in h by {
      forall e ensures e in Sort(h) <==> e in h { InMultiset(Sort(h), h, e); }
    }
    assert Items(Sort(h)) <= Items(h) && Items(h) <= Items(Sort(h));
  }

  lemma SidesDisjoint(buys: seq<Slot>, sells: seq<Slot>)
    requires Keyed(M.Buy, buys) && Keyed(M.Sell, sells)
    ensures Items(buys) !! Items(sells)
  {
  }

  lemma KeyedSubset(side: M.Side, h: seq<Slot>, r: seq<Slot>)
    requires Keyed(side, h) && multiset(r) <= multiset(h)
    ensures Keyed(side, r) && Items(r) <= Items(h)
  {
    forall e | e in r ensures e in h { assert e in multiset(r); assert e in multiset(h); }
  }

  lemma ViewCons(x: Slot, t: seq<Slot>)
    ensures ViewOf([x] + t) == [x.item.Snapshot()] + ViewOf(t)
  {
    assert ([x] + t)[1..] == t;
  }

  /** On keyed entries the heap order is price-time priority. */
  lemma LessIsBefore(side: M.Side, e: Slot, x: Slot)
    requires Keyed(side, [e]) && Keyed(side, [x])
    ensures Less(e, x) <==> M.Before(side, e.item.Snapshot(), x.item.Snapshot())
  {
    assert e in [e] && x in [x];
  }

  /** Inserting a keyed entry into a sorted heap list is queueing its order by price and time. */
  lemma {:induction false} InsertView(side: M.Side, e: Slot, s: seq<Slot>)
    requires Keyed(side, [e]) && Keyed(side, s)
    ensures ViewOf(Insert(e, s)) == M.Enqueue(side, e.item.Snapshot(), ViewOf(s))
  {
    if s == [] {
    } else {
      var x, t := s[0], s[1..];
      assert s == [x] + t;
      assert Keyed(side, [x]) && Keyed(side, t);
      ViewCons(x, t);
      LessIsBefore(side, e, x);
      if Less(e, x) {
        ViewCons(e, s);
      } else {
        InsertView(side, e, t);
        ViewCons(x, Insert(e, t));
      }
    }
  }

  predicate Ties(a: Order, b: Order) {
    a.price == b.price && a.ts == b.ts
  }

  ghost predicate NoTie(h: seq<Slot>, order: Order) {
    forall e :: e in h ==> !Ties(e.item, order)
  }

  function SlotOf(order: Order): Slot {
    Entry(if order.side == M.Buy then -order.price else order.price, order.ts, order)
  }

  lemma NoTieIsFresh(h: seq<Slot>, order: Order)
    requires ValidSide(order.side, h) && NoTie(h, order)
    ensures ValidHeap(h) && Fresh(SlotOf(order), h) && Keyed(order.side, [SlotOf(order)])
  {
    hide ValidHeap;
  }

  /** On keyed entries heap ties are ties of price and time. */
  lemma TiesAreTies(side: M.Side, h: seq<Slot>, order: Order)
    requires Keyed(side, h) && order.side == side
    ensures forall k :: 0 <= k < |h| ==> (Tie(h[k], SlotOf(order)) <==> Ties(h[k].item, order))
  {
    forall k | 0 <= k < |h| ensures Tie(h[k], SlotOf(order)) <==> Ties(h[k].item, order) { assert h[k] in h; }
  }

  lemma ItemsPush(h: seq<Slot>, e: Slot, r: seq<Slot>)
    requires multiset(r) == multiset(h) + multiset{e}
    ensures Items(r) == Items(h) + {e.item}
  {
    forall x ensures x in r <==> x in h || x == e {
      assert x in r <==> x in multiset(r);
      assert x in h <==> x in multiset(h);
    }
    assert forall o :: o in Items(r) <==> o in Items(h) || o == e.item;
  }

  lemma KeyedPush(side: M.Side, h: seq<Slot>, e: Slot, r: seq<Slot>)
    requires Keyed(side, h) && Keyed(side, [e]) && multiset(r) == multiset(h) + multiset{e}
    ensures Keyed(side, r) && Items(r) == Items(h) + {e.item}
  {
    assert e in [e];
    assert forall x :: x in r <==> x in h || x == e by {
      forall x ensures x in r <==> x in h || x == e {
        assert x in r <==> x in multiset(r);
        assert x in h <==> x in multiset(h);
      }
    }
    assert forall o :: o in Items(r) <==> o in Items(h) || o == e.item;
  }

  lemma PushView(side: M.Side, h: seq<Slot>, e: Slot, r: seq<Slot>)
    requires ValidSide(side, h) && ValidHeap(r) && Keyed(side, [e])
    requires Sort(r) == Insert(e, Sort(h)) && multiset(r) == multiset(h) + multiset{e}
    ensures ValidSide(side, r) && Items(r) == Items(h) + {e.item}
    ensures SideView(r) == M.Enqueue(side, e.item.Snapshot(), SideView(h))
  {
    hide ValidHeap, Sort, Insert, Keyed, ViewOf, Items;
    SameItems(h);
    InsertView(side, e, Sort(h));
    KeyedPush(side, h, e, r);
  }

  /** Entry `k` of the heap is the first on the way from the new leaf to the root whose order ties. */
  ghost predicate FirstTied(h: seq<Slot>, order: Order, k: nat) {
    && k < |h| && OnPath(k, |h|) && Ties(h[k].item, order)
    && forall j: nat :: k < j < |h| && OnPath(j, |h|) ==> !Ties(h[j].item, order)
  }

  /** The first order met that ties differs from the new one in quantity or given id. */
  ghost predicate Incomparable(h: seq<Slot>, order: Order)
    reads Items(h), order
  {
    exists k: nat :: FirstTied(h, order, k) && h[k] in h && !h[k].item.Equals(order)
  }

  lemma FirstTies(h: seq<Slot>, order: Order, k: nat)
    requires Keyed(order.side, h)
    ensures FirstTie(h, SlotOf(order), |h|, k) <==> FirstTied(h, order, k)
  {
    TiesAreTies(order.side, h, order);
  }

  /** `heappush` of an order on the heap of its side. */
  method Push(h: seq<Slot>, order: Order) returns (ok: bool, r: seq<Slot>)
    requires ValidSide(order.side, h)
    ensures !ok <==> old(Incomparable(h, order))
    ensures ok ==> Items(r) == Items(h) + {order}
    ensures NoTie(h, order) ==>
              ok && ValidSide(order.side, r) && SideView(r) == M.Enqueue(order.side, order.Snapshot(), SideView(h))
  {
    hide Sort, Insert, Fresh, Keyed, NoTie, ViewOf, FirstTie, FirstTied;
    forall k: nat ensures FirstTie(h, SlotOf(order), |h|, k) <==> FirstTied(h, order, k) { FirstTies(h, order, k); }
    var alike := set o | o in Items(h) && o.Equals(order);
    ok, r := HeapPush(h, Entry(if order.side == M.Buy then -order.price else order.price, order.ts, order), alike);
    assert !ok <==> old(Incomparable(h, order)) by { AlikeAreEqual(h, order, alike); }
    hide ValidHeap, Items;
    if ok { ItemsPush(h, SlotOf(order), r); }
    if NoTie(h, order) {
      NoTieIsFresh(h, order);
      PushView(order.side, h, SlotOf(order), r);
    }
  }

  lemma AlikeAreEqual(h: seq<Slot>, order: Order, alike: set<Order>)
    requires alike == set o | o in Items(h) && o.Equals(order)
    ensures (exists k: nat :: FirstTied(h, order, k) && h[k].item !in alike) <==> Incomparable(h, order)
  {
    forall k: nat | FirstTied(h, order, k) ensures h[k] in h && (h[k].item in alike <==> h[k].item.Equals(order)) {
      assert h[k].item in Items(h);
    }
  }

  lemma PopView(side: M.Side, h: seq<Slot>, least: Slot, r: seq<Slot>)
    requires ValidSide(side, h) && ValidHeap(r)
    requires Sort(h) == [least] + Sort(r) && multiset(h) == multiset(r) + multiset{least}
    ensures ValidSide(side, r) && Items(r) <= Items(h) && |r| < |h|
    ensures SideView(r) == ViewOf(Sort(h)[1..])
  {
    hide ValidHeap, Sort, Keyed, ViewOf, Items;
    assert |multiset(h)| == |multiset(r)| + 1;
    KeyedSubset(side, h, r);
  }

  /** The heap root is the first order of the view, and its object occurs nowhere else. */
  lemma RootView(side: M.Side, h: seq<Slot>)
    requires ValidSide(side, h) && h != []
    ensures Sort(h) != [] && Sort(h)[0] == h[0] && h[0] == SlotOf(h[0].item) && h[0].item.side == side
    ensures SideView(h) == [h[0].item.Snapshot()] + ViewOf(Sort(h)[1..])
    ensures h[0].item !in Items(Sort(h)[1..])
  {
    RootIsHead(h);
    var s := Sort(h);
    forall i | 1 <= i < |s| ensures s[i].item != s[0].item {
      assert Less(s[0], s[i]);
      InMultiset(s, h, s[i]);
      InMultiset(s, h, s[0]);
      assert s[i] in h && s[0] in h;
    }
  }

  lemma EmptyView(h: seq<Slot>)
    ensures SideView(h) == [] <==> h == []
  {
    assert |Sort(h)| == |multiset(Sort(h))| == |multiset(h)| == |h|;
  }

  lemma {:induction false} ViewLength(s: seq<Slot>)
    ensures |ViewOf(s)| == |s|
  {
    if s != [] { ViewLength(s[1..]); }
  }

  lemma {:induction false} ViewAt(s: seq<Slot>, i: nat)
    requires i < |s|
    ensures |ViewOf(s)| == |s| && ViewOf(s)[i] == s[i].item.Snapshot()
  {
    ViewLength(s);
    if i > 0 { ViewAt(s[1..], i - 1); }
  }

  /** The heap of a side reads in price-time order. */
  lemma SortedView(side: M.Side, h: seq<Slot>)
    requires ValidSide(side, h)
    ensures M.Sorted(side, SideView(h))
  {
    SameItems(h);
    var s := Sort(h);
    ViewLength(s);
    assert Keyed(side, s);
    forall i, j | 0 <= i < j < |s| ensures !M.Before(side, SideView(h)[j], SideView(h)[i]) {
      ViewAt(s, i);
      ViewAt(s, j);
      assert Less(s[i], s[j]);
      LessIsBefore(side, s[j], s[i]);
    }
  }

  /** Every buy among the orders is priced strictly below every sell. */
  ghost predicate PricesApart(orders: set<Order>) {
    forall buy, sell :: buy in orders && sell in orders && buy.side == M.Buy && sell.side == M.Sell ==>
      buy.price < sell.price
  }

  lemma ApartPrices(buys: seq<Slot>, sells: seq<Slot>)
    requires ValidSide(M.Buy, buys) && ValidSide(M.Sell, sells)
    requires M.Apart(M.Book(SideView(buys), SideView(sells)))
    ensures PricesApart(Items(buys) + Items(sells))
  {
    hide ViewOf, Sort, ValidHeap;
    SameItems(buys);
    SameItems(sells);
    forall buy, sell | buy in Items(buys) && sell in Items(sells) ensures buy.price < sell.price {
      var i :| 0 <= i < |Sort(buys)| && Sort(buys)[i].item == buy;
      var j :| 0 <= j < |Sort(sells)| && Sort(sells)[j].item == sell;
      ViewAt(Sort(buys), i);
      ViewAt(Sort(sells), j);
    }
  }

  /** Takes `amount` off the best order and pops it when nothing is left. */
  method Reduce(side: M.Side, h: seq<Slot>, amount: real) returns (r: seq<Slot>)
    requires ValidSide(side, h) && h != []
    modifies h[0].item
    ensures ValidSide(side, r) && Items(r) <= Items(h)
    ensures old(SideView(h)) != [] && SideView(r) == M.Fill(old(SideView(h)), amount)
    ensures h[0].item.qty == old(h[0].item.qty) - amount
    ensures if h[0].item.qty == 0.0 then |r| < |h| else r == h
  {
    hide ValidHeap, Sort, Keyed, ViewOf;
    var best := h[0].item;
    RootView(side, h);
    ghost var tail := Sort(h)[1..];
    ghost var tailView := ViewOf(tail);
    best.qty := best.qty - amount;
    assert ViewOf(tail) == tailView;
    r := h;
    if best.qty == 0.0 {
      var slot;
      r, slot := HeapPop(h);
      PopView(side, h, slot, r);
    } else {
      RootView(side, h);
    }
  }

  lemma Regroup(a: seq<M.Trade>, b: seq<M.Trade>, c: seq<M.Trade>)
    ensures a + (b + c) == (a + b) + c
  {
  }

  /** A call on the book. */
  datatype Call = AddOrder(order: Order) | MatchNow

  function OrdersOf(calls: seq<Call>): set<Order> {
    set c | c in calls && c.AddOrder? :: c.order
  }

  /** The call with the order as it stands. */
  ghost function RequestOf(c: Call): M.Request
    reads if c.AddOrder? then {c.order} else {}
  {
    match c
    case AddOrder(order) => M.Add(order.side, order.Snapshot())
    case MatchNow => M.Match
  }

  ghost function Requests(calls: seq<Call>): seq<M.Request>
    reads OrdersOf(calls)
  {
    if calls == [] then []
    else
      assert calls[0] in calls && forall c :: c in calls[1..] ==> c in calls;
      [RequestOf(calls[0])] + Requests(calls[1..])
  }

  /** Requests read the same as long as no order still to be added changed. */
  twostate lemma RequestsUnchanged(calls: seq<Call>)
    requires forall o: Order :: o in OrdersOf(calls) ==> o.qty == old(o.qty)
    ensures Requests(calls) == old(Requests(calls))
  {
    if calls != [] {
      assert calls[0] in calls && forall c :: c in calls[1..] ==> c in calls;
      RequestsUnchanged(calls[1..]);
    }
  }

  ghost predicate Untied(orders: set<Order>, order: Order) {
    forall o :: o in orders && o.side == order.side ==> !Ties(o, order)
  }

  /** No two orders to be added tie with each other or with a resting one. */
  ghost predicate NeverTie(orders: set<Order>, calls: seq<Call>) {
    && (forall i :: 0 <= i < |calls| && calls[i].AddOrder? ==> Untied(orders, calls[i].order))
    && (forall i, j :: 0 <= i < j < |calls| && calls[i].AddOrder? && calls[j].AddOrder? ==>
          Untied({calls[i].order}, calls[j].order))
  }

  /** What is left to serve does not tie with what the book holds once the first call is served. */
  lemma NeverTieNext(orders: set<Order>, calls: seq<Call>, later: set<Order>)
    requires NeverTie(orders, calls) && calls != []
    requires later <= orders + if calls[0].AddOrder? then {calls[0].order} else {}
    ensures NeverTie(later, calls[1..])
    ensures OrdersOf(calls[1..]) !! later
  {
    forall i | 0 <= i < |calls[1..]| && calls[1..][i].AddOrder?
      ensures Untied(later, calls[1..][i].order) && calls[1..][i].order !in later
    {
      assert calls[1..][i] == calls[i+1];
      if calls[0].AddOrder? { assert Untied({calls[0].order}, calls[i+1].order); }
    }
    forall i, j | 0 <= i < j < |calls[1..]| && calls[1..][i].AddOrder? && calls[1..][j].AddOrder?
      ensures Untied({calls[1..][i].order}, calls[1..][j].order)
    {
      assert calls[1..][i] == calls[i+1] && calls[1..][j] == calls[j+1];
    }
  }

  lemma UntiedSide(h: seq<Slot>, orders: set<Order>, order: Order)
    requires Keyed(order.side, h) && Items(h) <= orders && Untied(orders, order)
    ensures NoTie(h, order)
  {
    forall e | e in h ensures e.item in orders { assert e.item in Items(h); }
  }

  class OrderBook {
    var buys: seq<Slot>
    var sells: seq<Slot>

    constructor ()
      ensures Valid() && View() == M.Book([], [])
    {
      buys, sells := [], [];
    }

    ghost predicate Valid()
      reads this
    {
      ValidSide(M.Buy, buys) && ValidSide(M.Sell, sells)
    }

    function Orders(): set<Order>
      reads this
    {
      Items(buys) + Items(sells)
    }

    /** The two heaps read as price-time lists. */
    ghost function View(): M.Book
      reads this, Items(Sort(buys)), Items(Sort(sells))
    {
      M.Book(SideView(buys), SideView(sells))
    }

    ghost function Side(side: M.Side): seq<Slot>
      reads this
    {
      if side == M.Buy then buys else sells
    }

    /** Adds an order. `raised` is the TypeError of the heap comparing two unequal orders, which have no order:
        it occurs exactly when, of the orders met on the way from the new leaf to the root, the first with
        the same price and time differs in quantity left or in the id it was given. */
    method Add(order: Order) returns (raised: bool)
      requires Valid()
      modifies this
      ensures raised <==> old(Incomparable(Side(order.side), order))
      ensures !raised ==> Orders() == old(Orders()) + {order}
      ensures NoTie(old(Side(order.side)), order) ==>
                !raised && Valid() && View() == M.AddOrder(old(View()), order.side, order.Snapshot())
    {
      hide ValidHeap, Sort, Keyed, NoTie, ViewOf, Incomparable;
      var b, s, ok := buys, sells, true;
      if order.side == M.Buy {
        ok, b := Push(buys, order);
      } else {
        ok, s := Push(sells, order);
      }
      if !ok {
        return true;
      }
      ViewUnchanged(Sort(buys));
      ViewUnchanged(Sort(sells));
      label L:
      ghost var view := M.Book(SideView(b), SideView(s));
      buys, sells := b, s;
      ViewUnchanged@L(Sort(b));
      ViewUnchanged@L(Sort(s));
      assert View() == view;
      return false;
    }

    /** Takes the traded quantity off both best orders and pops the ones that are used up. */
    method FillHeads(qty: real)
      requires Valid() && buys != [] && sells != []
      requires M.Crossed(View()) && qty == M.HeadTrade(View()).qty
      modifies this, Orders()
      ensures Valid() && Orders() <= old(Orders())
      ensures View() == M.Cross(old(View()))
      ensures |buys| + |sells| < old(|buys| + |sells|)
    {
      hide ValidHeap, Sort, Keyed, ViewOf, M.Fill;
      SameItems(buys);
      SameItems(sells);
      SidesDisjoint(buys, sells);
      RootView(M.Buy, buys);
      RootView(M.Sell, sells);
      var b := Reduce(M.Buy, buys, qty);
      assert SideView(sells) == old(SideView(sells));
      ghost var bids := SideView(b);
      SameItems(b);
      var s := Reduce(M.Sell, sells, qty);
      assert SideView(b) == bids;
      ghost var asks := SideView(s);
      label L:
      buys, sells := b, s;
      ViewUnchanged@L(Sort(b));
      ViewUnchanged@L(Sort(s));
    }

    method Match() returns (trades: seq<M.Trade>)
      requires Valid()
      modifies this, Orders()
      ensures Valid() && Orders() <= old(Orders())
      ensures M.Outcome(View(), trades) == M.MatchAll(old(View()))
      ensures PricesApart(Orders())
    {
      hide ValidHeap, Sort, Keyed, ViewOf, M.MatchAll, M.Cross, M.Apart, M.Sorted, PricesApart;
      trades := [];
      ghost var start := View();
      SortedView(M.Buy, buys);
      SortedView(M.Sell, sells);
      M.MatchAllApart(start);
      assert [] + M.MatchAll(start).trades == M.MatchAll(start).trades;
      while buys != [] && sells != []
        invariant Valid() && Orders() <= old(Orders())
        invariant M.MatchAll(start).book == M.MatchAll(View()).book
        invariant M.MatchAll(start).trades == trades + M.MatchAll(View()).trades
        decreases |buys| + |sells|
      {
        var buy, sell := buys[0].item, sells[0].item;
        var bestBuyPrice, bestSellPrice := buys[0].key, sells[0].key;
        RootView(M.Buy, buys);
        RootView(M.Sell, sells);
        if -bestBuyPrice < bestSellPrice {
          break;
        }
        var qty := M.Min(buy.qty, sell.qty);
        var trade := M.Trade(buy.id, sell.id, bestSellPrice, qty);
        M.MatchAllStep(View());
        assert trade == M.HeadTrade(View());
        Regroup(trades, [trade], M.MatchAll(M.Cross(View())).trades);
        trades := trades + [trade];
        FillHeads(qty);
      }
      EmptyView(buys);
      EmptyView(sells);
      M.MatchAllStep(View());
      assert trades + [] == trades;
      ApartPrices(buys, sells);
    }

    /** One accepted request of the exchange service: add, then match at once. */
    method Place(order: Order) returns (trades: seq<M.Trade>)
      requires Valid()
      requires NoTie(Side(order.side), order)
      modifies this, Orders() + {order}
      ensures Valid() && PricesApart(Orders())
      ensures M.Outcome(View(), trades) ==
              M.MatchAll(M.AddOrder(old(View()), order.side, old(order.Snapshot())))
      ensures M.Sound(old(View())) && !M.Crossed(old(View())) && old(order.qty) > 0.0 ==>
                && M.Sound(View()) && !M.Crossed(View())
                && forall t :: t in trades ==> M.Party(t, order.side) == order.id
    {
      hide ValidHeap, Sort, Keyed, ViewOf, NoTie, M.MatchAll, M.AddOrder, M.Sound, M.Crossed;
      ghost var before, placed := View(), order.Snapshot();
      var raised := Add(order);
      trades := Match();
      if M.Sound(before) && !M.Crossed(before) && placed.qty > 0.0 {
        M.PlacementSound(before, order.side, placed);
      }
    }

    /** One call of a run. */
    method Serve(c: Call) returns (trades: seq<M.Trade>)
      requires Valid() && (c.AddOrder? ==> Untied(Orders(), c.order))
      modifies this, Orders()
      ensures Valid() && Orders() <= old(Orders()) + if c.AddOrder? then {c.order} else {}
      ensures M.Outcome(View(), trades) == M.Serve(old(View()), old(RequestOf(c)))
      ensures c.MatchNow? ==> PricesApart(Orders())
    {
      hide ValidHeap, Sort, Keyed, ViewOf, Items, Untied, NoTie, PricesApart, M.MatchAll, M.AddOrder;
      match c {
        case AddOrder(order) =>
          UntiedSide(Side(order.side), Orders(), order);
          var raised := Add(order);
          trades := [];
        case MatchNow =>
          trades := Match();
      }
    }

    /** Any sequence of adds and matches: the trades and the book are those of the sorted-queue engine. */
    method ServeAll(calls: seq<Call>) returns (trades: seq<M.Trade>)
      requires Valid() && NeverTie(Orders(), calls)
      modifies this, Orders(), OrdersOf(calls)
      ensures Valid()
      ensures M.Outcome(View(), trades) == M.Run(old(View()), old(Requests(calls)))
      ensures calls == [] ==> Orders() == old(Orders())
      ensures calls != [] && calls[|calls| - 1].MatchNow? ==> PricesApart(Orders())
      decreases |calls|
    {
      hide ValidHeap, Sort, Keyed, ViewOf, Items, SideView, NeverTie, Untied, RequestOf, Requests, PricesApart,
           M.Serve, M.Run;
      if calls == [] {
        RunOfNone(View(), calls);
        return [];
      }
      ghost var start, before, rest := View(), Orders(), Requests(calls[1..]);
      ghost var first := RequestOf(calls[0]);
      RestOfCalls(calls);
      FirstUntied(before, calls);
      trades := Serve(calls[0]);
      NeverTieNext(before, calls, Orders());
      NeverTieNext(before, calls, before);
      RequestsUnchanged(calls[1..]);
      RunCons(start, first, rest, View(), trades);
      assert |calls| > 1 ==> calls[1..][|calls| - 2] == calls[|calls| - 1];
      var later := ServeAll(calls[1..]);
      trades := trades + later;
    }
  }

  lemma RunOfNone(b: M.Book, calls: seq<Call>)
    requires calls == []
    ensures M.Run(b, Requests(calls)) == M.Outcome(b, [])
  {
  }

  /** A run is its first request and then the rest. */
  lemma RunCons(b: M.Book, first: M.Request, rest: seq<M.Request>, next: M.Book, trades: seq<M.Trade>)
    requires M.Outcome(next, trades) == M.Serve(b, first)
    ensures M.Run(b, [first] + rest) ==
            M.Outcome(M.Run(next, rest).book, trades + M.Run(next, rest).trades)
  {
    hide M.Serve;
    assert ([first] + rest)[1..] == rest;
  }

  lemma RestOfCalls(calls: seq<Call>)
    requires calls != []
    ensures OrdersOf(calls[1..]) <= OrdersOf(calls)
    ensures calls[0].AddOrder? ==> calls[0].order in OrdersOf(calls)
    ensures Requests(calls) == [RequestOf(calls[0])] + Requests(calls[1..])
  {
    hide RequestOf;
    assert calls[0] in calls && forall c :: c in calls[1..] ==> c in calls;
  }

  lemma FirstUntied(orders: set<Order>, calls: seq<Call>)
    requires NeverTie(orders, calls) && calls != []
    ensures calls[0].AddOrder? ==> Untied(orders, calls[0].order)
  {
  }

  /** On a heap of one order, an order of the same price and time is met at once. */
  lemma OneResting(first: Order, second: Order)
    requires Ties(first, second)
    ensures Incomparable([SlotOf(first)], second) <==> !first.Equals(second)
  {
    var h := [SlotOf(first)];
    assert OnPath(0, 1) && FirstTied(h, second, 0) && h[0] in h;
    assert forall k: nat :: FirstTied(h, second, k) ==> k == 0;
  }

  lemma SingleHeap(h: seq<Slot>, order: Order)
    requires ValidSide(order.side, h) && Items(h) == {order} && |SideView(h)| == 1
    ensures h == [SlotOf(order)]
  {
    hide ViewOf, ValidHeap, Sort;
    ViewLength(Sort(h));
    assert |h| == |multiset(h)| == |multiset(Sort(h))| == 1;
    assert h[0] in h && h[0].item in Items(h);
  }

  lemma EmptyBook(book: OrderBook, order: Order)
    requires book.View() == M.Book([], [])
    ensures book.Orders() == {} && NoTie(book.Side(order.side), order)
  {
    hide ViewOf, Sort;
    EmptyView(book.buys);
    EmptyView(book.sells);
  }

  /** A book that an order was added to when it was empty. */
  lemma OneBuy(book: OrderBook, order: Order)
    requires book.Valid() && book.Orders() == {order} && order.side == M.Buy
    requires book.View() == M.AddOrder(M.Book([], []), M.Buy, order.Snapshot())
    ensures book.Side(M.Buy) == [SlotOf(order)]
  {
    hide ViewOf, ValidHeap, Sort;
    EmptyView(book.sells);
    assert Items(book.buys) == {order};
    SingleHeap(book.buys, order);
  }

  /** Two orders of one price and time, which the service makes without giving an id: if they are alike the
      second is added, if they differ in quantity adding it raises. */
  method AddTwice(price: real, ts: real, qty: real, other: real) returns (raised: bool)
    ensures raised <==> qty != other
  {
    hide ValidSide, Keyed, Sort, SideView, ViewOf, NoTie, Incomparable, M.AddOrder, SlotOf, Items;
    var first := new Order(M.Buy, price, qty, None, "first", ts);
    var second := new Order(M.Buy, price, other, None, "second", ts);
    var book := new OrderBook();
    EmptyBook(book, first);
    raised := book.Add(first);
    OneBuy(book, first);
    OneResting(first, second);
    raised := book.Add(second);
  }
}
