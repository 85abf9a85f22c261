/** Opportunity detection of services/arbitrage-engine/src/engine/arbitrage.py: products are grouped by
    normalised name and only pairs within a group are looked at, yet nothing is lost against looking at
    all ordered pairs of the whole list. */
module Arbitrage {
  import opened Wrappers

  /** A product dictionary may lack its id or carry None. */
  datatype ProductId = Absent | Null | Id(text: string)

  datatype Product = Product(id: ProductId, name: string, price: real, source: string)

  datatype Opportunity = Opportunity(
    product: string, buy: string, sell: string, buyPrice: real, sellPrice: real, profit: real, rate: real)

  /** `normalise` is strip-and-lower; `payout` answers a rate, or nothing usable as a number. */
  datatype Env = Env(normalise: string -> string, payout: (string, string) -> Option<real>, minProfit: real)

  function Key(env: Env, p: Product): string { env.normalise(p.name) }

  /** `str(sell.get("id", ""))`. */
  function IdText(id: ProductId): string {
    match id
    case Absent => ""
    case Null => "None"
    case Id(text) => text
  }

  /** The opportunity of buying one product and selling the other, if it is one. */
  function Pair(env: Env, key: string, buy: Product, sell: Product): seq<Opportunity> {
    if buy.source == sell.source then []
    else if buy.id == sell.id && buy.id.Id? then []
    else
      match env.payout(sell.source, IdText(sell.id))
      case None => []
      case Some(rate) =>
        var profit := sell.price * rate - buy.price;
        if profit > env.minProfit then
          [Opportunity(key, buy.source, sell.source, buy.price, sell.price, profit, rate)]
        else []
  }

  // ---------- the specification: all ordered pairs ----------

  /** Opportunities of one buy against the sells of a list that share its name. */
  function FullRow(env: Env, buy: Product, sells: seq<Product>): seq<Opportunity> {
    if sells == [] then []
    else
      FullRow(env, buy, sells[..|sells| - 1])
      + if Key(env, sells[|sells| - 1]) == Key(env, buy) then Pair(env, Key(env, buy), buy, sells[|sells| - 1]) else []
  }

  function Rows(env: Env, buys: seq<Product>, sells: seq<Product>): seq<Opportunity> {
    if buys == [] then []
    else Rows(env, buys[..|buys| - 1], sells) + FullRow(env, buys[|buys| - 1], sells)
  }

  function AllPairs(env: Env, products: seq<Product>): seq<Opportunity> {
    Rows(env, products, products)
  }

  // ---------- the implementation's grouping ----------

  function Named(env: Env, products: seq<Product>, key: string): (r: seq<Product>)
    ensures forall p :: p in r ==> p in products && Key(env, p) == key
    ensures forall p :: p in products && Key(env, p) == key ==> p in r
  {
    if products == [] then []
    else
      assert products == products[..|products| - 1] + [products[|products| - 1]];
      Named(env, products[..|products| - 1], key)
      + if Key(env, products[|products| - 1]) == key then [products[|products| - 1]] else []
  }

  /** Opportunities of one buy against the first `n` items of its group. */
  function Row(env: Env, key: string, buy: Product, items: seq<Product>, n: nat): seq<Opportunity>
    requires n <= |items|
  {
    if n == 0 then [] else Row(env, key, buy, items, n - 1) + Pair(env, key, buy, items[n-1])
  }

  /** Opportunities of the first `n` buys of a group. */
  function Block(env: Env, key: string, items: seq<Product>, n: nat): seq<Opportunity>
    requires n <= |items|
  {
    if n == 0 then [] else Block(env, key, items, n - 1) + Row(env, key, items[n-1], items, |items|)
  }

  function Blocks(env: Env, products: seq<Product>, keys: seq<string>): seq<Opportunity> {
    if keys == [] then []
    else
      var items := Named(env, products, keys[|keys| - 1]);
      Blocks(env, products, keys[..|keys| - 1]) + Block(env, keys[|keys| - 1], items, |items|)
  }

  // ---------- grouping loses nothing ----------

  lemma RowSnoc(env: Env, key: string, buy: Product, items: seq<Product>, p: Product)
    ensures Row(env, key, buy, items + [p], |items| + 1) == Row(env, key, buy, items, |items|) + Pair(env, key, buy, p)
  {
    RowPrefix(env, key, buy, items, items + [p], |items|);
  }

  lemma {:induction false} RowPrefix(env: Env, key: string, buy: Product, a: seq<Product>, b: seq<Product>, n: nat)
    requires n <= |a| <= |b| && a == b[..|a|]
    ensures Row(env, key, buy, a, n) == Row(env, key, buy, b, n)
  {
    if n > 0 { RowPrefix(env, key, buy, a, b, n - 1); }
  }

  /** Within its group a buy meets exactly the sells it would meet in the whole list, in the same order. */
  lemma {:induction false} RowIsFull(env: Env, buy: Product, products: seq<Product>)
    ensures var items := Named(env, products, Key(env, buy));
            Row(env, Key(env, buy), buy, items, |items|) == FullRow(env, buy, products)
  {
    hide Pair;
    if products != [] {
      var before, p := products[..|products| - 1], products[|products| - 1];
      RowIsFull(env, buy, before);
      if Key(env, p) == Key(env, buy) {
        RowSnoc(env, Key(env, buy), buy, Named(env, before, Key(env, buy)), p);
      } else {
        assert Named(env, products, Key(env, buy)) == Named(env, before, Key(env, buy));
      }
    }
  }

  lemma {:induction false} BlockIsRows(env: Env, key: string, products: seq<Product>, n: nat)
    requires n <= |Named(env, products, key)|
    ensures Block(env, key, Named(env, products, key), n) == Rows(env, Named(env, products, key)[..n], products)
  {
    hide Pair, FullRow, Row, Named;
    var items := Named(env, products, key);
    if n > 0 {
      BlockIsRows(env, key, products, n - 1);
      assert items[n-1] in items;
      RowIsFull(env, items[n-1], products);
      assert items[..n][..n-1] == items[..n-1];
    }
  }

  /** The groups' rows over a list of buys, added up as a multiset. */
  ghost function Total(env: Env, keys: seq<string>, buys: seq<Product>, products: seq<Product>): multiset<Opportunity> {
    if keys == [] then multiset{}
    else
      Total(env, keys[..|keys| - 1], buys, products)
      + multiset(Rows(env, Named(env, buys, keys[|keys| - 1]), products))
  }

  lemma {:induction false} BlocksTotal(env: Env, products: seq<Product>, keys: seq<string>)
    ensures multiset(Blocks(env, products, keys)) == Total(env, keys, products, products)
  {
    hide Pair, Rows, Block, Named;
    if keys != [] {
      var items := Named(env, products, keys[|keys| - 1]);
      BlocksTotal(env, products, keys[..|keys| - 1]);
      BlockIsRows(env, keys[|keys| - 1], products, |items|);
      assert items[..|items|] == items;
    }
  }

  ghost predicate Distinct(keys: seq<string>) {
    forall i, j :: 0 <= i < j < |keys| ==> keys[i] != keys[j]
  }

  /** One more buy adds its row to exactly one group. */
  lemma {:induction false} TotalSnoc(env: Env, keys: seq<string>, buys: seq<Product>, p: Product,
      products: seq<Product>)
    requires Distinct(keys)
    ensures Total(env, keys, buys + [p], products) ==
            Total(env, keys, buys, products)
            + if Key(env, p) in keys then multiset(FullRow(env, p, products)) else multiset{}
  {
    hide Pair, FullRow, Rows, Named, Key;
    if keys != [] {
      var last := keys[|keys| - 1];
      TotalSnoc(env, keys[..|keys| - 1], buys, p, products);
      GroupSnoc(env, last, buys, p, products);
      assert keys == keys[..|keys| - 1] + [last];
    }
  }

  lemma GroupSnoc(env: Env, key: string, buys: seq<Product>, p: Product, products: seq<Product>)
    ensures multiset(Rows(env, Named(env, buys + [p], key), products)) ==
            multiset(Rows(env, Named(env, buys, key), products))
            + if Key(env, p) == key then multiset(FullRow(env, p, products)) else multiset{}
  {
    hide Pair, FullRow, Key;
    assert (buys + [p])[..|buys|] == buys;
    var items := Named(env, buys, key);
    assert Named(env, buys + [p], key) == items + if Key(env, p) == key then [p] else [];
    if Key(env, p) == key {
      assert (items + [p])[..|items|] == items;
    } else {
      assert items + [] == items;
    }
  }

  lemma {:induction false} TotalIsRows(env: Env, keys: seq<string>, buys: seq<Product>, products: seq<Product>)
    requires Distinct(keys) && forall p :: p in buys ==> Key(env, p) in keys
    ensures Total(env, keys, buys, products) == multiset(Rows(env, buys, products))
  {
    hide Pair, FullRow, Named, Total;
    if buys == [] {
      TotalNone(env, keys, products);
    } else {
      var before, p := buys[..|buys| - 1], buys[|buys| - 1];
      assert buys == before + [p] && p in buys;
      assert forall q :: q in before ==> q in buys;
      TotalIsRows(env, keys, before, products);
      TotalSnoc(env, keys, before, p, products);
    }
  }

  lemma {:induction false} TotalNone(env: Env, keys: seq<string>, products: seq<Product>)
    ensures Total(env, keys, [], products) == multiset{}
  {
    if keys != [] { TotalNone(env, keys[..|keys| - 1], products); }
  }

  /** Over all groups, the opportunities are those of all ordered pairs, with the same multiplicity. */
  lemma GroupingIsComplete(env: Env, products: seq<Product>, keys: seq<string>)
    requires Distinct(keys) && forall p :: p in products ==> Key(env, p) in keys
    ensures multiset(Blocks(env, products, keys)) == multiset(AllPairs(env, products))
  {
    BlocksTotal(env, products, keys);
    TotalIsRows(env, keys, products, products);
  }

  /** A product on its own has nobody to trade with: its source equals its own. */
  lemma SmallGroup(env: Env, key: string, items: seq<Product>)
    requires |items| < 2
    ensures Block(env, key, items, |items|) == []
  {
    if |items| == 1 {
      assert Row(env, key, items[0], items, 1) ==
             Row(env, key, items[0], items, 0) + Pair(env, key, items[0], items[0]);
      assert Block(env, key, items, 1) == Block(env, key, items, 0) + Row(env, key, items[0], items, 1);
    }
  }

  // ---------- detect ----------

  /** The two nested loops over the items of one group. */
  method DetectGroup(env: Env, name: string, items: seq<Product>) returns (block: seq<Opportunity>)
    ensures block == Block(env, name, items, |items|)
  {
    hide Pair;
    block := [];
    for b := 0 to |items|
      invariant block == Block(env, name, items, b)
    {
      ghost var before := block;
      for s := 0 to |items|
        invariant block == before + Row(env, name, items[b], items, s)
      {
        block := block + Pair(env, name, items[b], items[s]);
      }
    }
  }

  method Detect(env: Env, products: seq<Product>) returns (opportunities: seq<Opportunity>)
    ensures multiset(opportunities) == multiset(AllPairs(env, products))
  {
    hide Pair, AllPairs, Named, Block;
    var grouped, keys := Group(env, products);
    opportunities := [];
    for g := 0 to |keys|
      invariant opportunities == Blocks(env, products, keys[..g])
    {
      var name := keys[g];
      var items := grouped[name];
      assert keys[..g+1][..g] == keys[..g];
      if |items| < 2 {
        SmallGroup(env, name, items);
        continue;
      }
      var block := DetectGroup(env, name, items);
      opportunities := opportunities + block;
    }
    assert keys[..|keys|] == keys;
    GroupingIsComplete(env, products, keys);
  }

  /** The dictionary of groups and its keys in order of first appearance. */
  method Group(env: Env, products: seq<Product>) returns (grouped: map<string, seq<Product>>, keys: seq<string>)
    ensures Distinct(keys) && (forall key :: key in keys <==> key in grouped)
    ensures forall p :: p in products ==> Key(env, p) in keys
    ensures forall key :: key in grouped ==> grouped[key] == Named(env, products, key)
  {
    grouped, keys := map[], [];
    for i := 0 to |products|
      invariant Distinct(keys) && (forall key :: key in keys <==> key in grouped)
      invariant forall key :: key in grouped ==> grouped[key] == Named(env, products[..i], key)
      invariant forall key :: key !in grouped ==> Named(env, products[..i], key) == []
    {
      var p := products[i];
      var key := Key(env, p);
      assert products[..i+1][..i] == products[..i];
      assert forall k :: Named(env, products[..i+1], k) ==
               Named(env, products[..i], k) + if Key(env, p) == k then [p] else [];
      if key !in grouped {
        grouped, keys := grouped[key := []], keys + [key];
      }
      grouped := grouped[key := grouped[key] + [p]];
    }
    assert products[..|products|] == products;
    forall p | p in products ensures Key(env, p) in keys {
      assert p in Named(env, products, Key(env, p));
    }
  }

  // ---------- what the specification contains ----------

  /** An opportunity is listed exactly when some ordered pair of listed products makes it. */
  lemma AllPairsExactly(env: Env, products: seq<Product>, o: Opportunity)
    ensures o in AllPairs(env, products) <==>
            exists buy, sell :: buy in products && sell in products && Makes(env, buy, sell, o)
  {
    RowsExactly(env, products, products, o);
  }

  /** Same name, different source, not the same product, a known payout and profit above the threshold. */
  predicate Makes(env: Env, buy: Product, sell: Product, o: Opportunity) {
    && Key(env, buy) == Key(env, sell)
    && buy.source != sell.source
    && !(buy.id.Id? && buy.id == sell.id)
    && var rate := env.payout(sell.source, IdText(sell.id));
       && rate.Some?
       && sell.price * rate.value - buy.price > env.minProfit
       && o == Opportunity(Key(env, buy), buy.source, sell.source, buy.price, sell.price,
                           sell.price * rate.value - buy.price, rate.value)
  }

  lemma PairExactly(env: Env, buy: Product, sell: Product, o: Opportunity)
    ensures Makes(env, buy, sell, o) <==> Key(env, buy) == Key(env, sell) && o in Pair(env, Key(env, buy), buy, sell)
  {
  }

  lemma {:induction false} FullRowExactly(env: Env, buy: Product, sells: seq<Product>, o: Opportunity)
    ensures o in FullRow(env, buy, sells) <==> exists sell :: sell in sells && Makes(env, buy, sell, o)
  {
    if sells != [] {
      var before, last := sells[..|sells| - 1], sells[|sells| - 1];
      assert sells == before + [last];
      FullRowExactly(env, buy, before, o);
      PairExactly(env, buy, last, o);
      hide Pair, Makes, Key;
    }
  }

  lemma {:induction false} RowsExactly(env: Env, buys: seq<Product>, sells: seq<Product>, o: Opportunity)
    ensures o in Rows(env, buys, sells) <==>
            exists buy, sell :: buy in buys && sell in sells && Makes(env, buy, sell, o)
  {
    hide Makes, FullRow;
    if buys != [] {
      var before, last := buys[..|buys| - 1], buys[|buys| - 1];
      assert buys == before + [last];
      RowsExactly(env, before, sells, o);
      FullRowExactly(env, last, sells, o);
    }
  }

  // ---------- how often ----------

  /** How many sells of a list make an opportunity with a buy. */
  function SellsMaking(env: Env, buy: Product, sells: seq<Product>, o: Opportunity): nat {
    if sells == [] then 0
    else
      SellsMaking(env, buy, sells[..|sells| - 1], o) + if Makes(env, buy, sells[|sells| - 1], o) then 1 else 0
  }

  /** How many pairs of positions, one in each list, make an opportunity. */
  function PairsMaking(env: Env, buys: seq<Product>, sells: seq<Product>, o: Opportunity): nat {
    if buys == [] then 0
    else PairsMaking(env, buys[..|buys| - 1], sells, o) + SellsMaking(env, buys[|buys| - 1], sells, o)
  }

  lemma PairOnce(env: Env, buy: Product, sell: Product, o: Opportunity)
    requires Key(env, buy) == Key(env, sell)
    ensures multiset(Pair(env, Key(env, buy), buy, sell))[o] == if Makes(env, buy, sell, o) then 1 else 0
  {
  }

  lemma {:induction false} FullRowCount(env: Env, buy: Product, sells: seq<Product>, o: Opportunity)
    ensures multiset(FullRow(env, buy, sells))[o] == SellsMaking(env, buy, sells, o)
  {
    hide Pair, Makes;
    if sells != [] {
      var sell := sells[|sells| - 1];
      FullRowCount(env, buy, sells[..|sells| - 1], o);
      if Key(env, sell) == Key(env, buy) {
        PairOnce(env, buy, sell, o);
      } else {
        OtherName(env, buy, sell, o);
      }
    }
  }

  lemma OtherName(env: Env, buy: Product, sell: Product, o: Opportunity)
    requires Key(env, buy) != Key(env, sell)
    ensures !Makes(env, buy, sell, o)
  {
  }

  lemma {:induction false} RowsCount(env: Env, buys: seq<Product>, sells: seq<Product>, o: Opportunity)
    ensures multiset(Rows(env, buys, sells))[o] == PairsMaking(env, buys, sells, o)
  {
    hide FullRow, SellsMaking;
    if buys != [] {
      RowsCount(env, buys[..|buys| - 1], sells, o);
      FullRowCount(env, buys[|buys| - 1], sells, o);
    }
  }

  /** An opportunity is reported as often as there are pairs of positions in the list that make it. */
  lemma ReportedExactly(env: Env, products: seq<Product>, o: Opportunity)
    ensures multiset(AllPairs(env, products))[o] == PairsMaking(env, products, products, o)
  {
    RowsCount(env, products, products, o);
  }
}
