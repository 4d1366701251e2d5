/** Read-only statistics over the displayed levels; doubles are modelled as reals. */
module Analytics {
  import opened Machine
  import opened Windows
  import opened Ladders
  import opened BookSides
  import opened Markets
  import opened Depths
  import opened Books
  import opened BookFacts
  import opened OrderBooks

  /** The side an analytics query addresses: anything but 'B' means the asks. */
  function SideOf(side: char): char {
    if side == 'B' then 'B' else 'S'
  }

  /** How many levels a query covers. */
  function Ticks(levels: int): nat {
    if levels > K_LEVELS then K_LEVELS else if levels < 0 then 0 else levels
  }

  /** What a query covers: of the side asked for (the asks, unless it is 'B') the orders priced less than
      `levels` and less than 8192 ticks from the reference, downwards for bids, upwards for asks. */
  lemma QueryCovers(mk: Market, side: char, levels: int, r: u64)
    ensures r in WithinTicks(mk, SideOf(side), Ticks(levels)) <==>
      && r in mk.orders
      && var e := mk.orders[r];
        if side == 'B'
        then e.side == 'B' && mk.bidRef - levels < e.price <= mk.bidRef && mk.bidRef - 8192 < e.price
        else e.side == 'S' && mk.askRef <= e.price < mk.askRef + levels && e.price < mk.askRef + 8192
  {
  }

  /** The quantities on the levels of a side never overflow 64 bits. */
  lemma SideFits(b: Book, side: char, n: nat)
    requires BookOK(b) && (side == 'B' || side == 'S') && n <= K_LEVELS
    ensures SumQty(OnSide(b, side).levels, n) < TWO_64
  {
    var orders, s := Abs(b).orders, WithinTicks(Abs(b), side, n);
    TicksTotal(b, side, n);
    Vacancy(b);
    SubsetSize(s, orders.Keys);
    TotalBound(orders, s);
    assert |s| <= TWO_32 - 1;
    assert |s| * (TWO_32 - 1) <= (TWO_32 - 1) * (TWO_32 - 1);
  }

  lemma {:induction false} SubsetSize(s: set<u64>, t: set<u64>)
    requires s <= t
    ensures |s| <= |t|
    decreases |s|
  {
    if s != {} {
      var x :| x in s;
      SubsetSize(s - {x}, t - {x});
    }
  }

  /** `visible_qty`: the shares of the live orders within the first ticks of the side. */
  method VisibleQty(book: OrderBook, side: char, levels: int) returns (total: u64)
    requires book.Valid()
    ensures total == Total(book.Market().orders, WithinTicks(book.Market(), SideOf(side), Ticks(levels)))
  {
    total := 0;
    var n := Ticks(levels);
    ghost var b, sd := book.Snapshot(), SideOf(side);
    var lvls := if side == 'B' then book.bids.levels else book.asks.levels;
    for i := 0 to n
      invariant total == SumQty(OnSide(b, sd).levels, i)
    {
      SideFits(b, sd, i + 1);
      total := Add64(total, lvls[i].totalQty);
    }
    TicksTotal(b, sd, n);
  }

  /** More levels show at least as much. */
  lemma VisibleMono(mk: Market, side: char, m: int, n: int)
    requires m <= n
    ensures Total(mk.orders, WithinTicks(mk, side, m)) <= Total(mk.orders, WithinTicks(mk, side, n))
  {
    var s, t := WithinTicks(mk, side, m), WithinTicks(mk, side, n);
    TotalUnion(mk.orders, s, t - s);
    assert s + (t - s) == t;
  }

  // ----- vwap

  function Amount(price: int, qty: int): int { price * qty }

  lemma AmountZero(price: int)
    ensures Amount(price, 0) == 0
  {
  }

  /** Sum of price times shares. */
  ghost function Weighted(orders: map<u64, Entry>, s: set<u64>): int
    requires s <= orders.Keys
  {
    if s == {} then 0 else
    var r :| r in s;
    Amount(orders[r].price, orders[r].shares) + Weighted(orders, s - {r})
  }

  lemma {:induction false} WeightedPick(orders: map<u64, Entry>, s: set<u64>, r: u64)
    requires s <= orders.Keys && r in s
    ensures Weighted(orders, s) == Amount(orders[r].price, orders[r].shares) + Weighted(orders, s - {r})
    decreases |s|
  {
    var x :| x in s &&
      Weighted(orders, s) == Amount(orders[x].price, orders[x].shares) + Weighted(orders, s - {x});
    if x != r {
      WeightedPick(orders, s - {x}, r);
      WeightedPick(orders, s - {r}, x);
      assert s - {x} - {r} == s - {r} - {x};
    }
  }

  lemma {:induction false} WeightedUnion(orders: map<u64, Entry>, s: set<u64>, t: set<u64>)
    requires s <= orders.Keys && t <= orders.Keys && s !! t
    ensures Weighted(orders, s + t) == Weighted(orders, s) + Weighted(orders, t)
    decreases |s|
  {
    if s == {} {
      assert s + t == t;
    } else {
      var r :| r in s;
      WeightedPick(orders, s, r);
      WeightedPick(orders, s + t, r);
      assert (s + t) - {r} == (s - {r}) + t;
      WeightedUnion(orders, s - {r}, t);
    }
  }

  /** At one price the weighted sum is the price times the shares. */
  lemma {:induction false} WeightedAt(orders: map<u64, Entry>, s: set<u64>, price: int)
    requires s <= orders.Keys && forall r :: r in s ==> orders[r].price == price
    ensures Weighted(orders, s) == Amount(price, Total(orders, s))
    decreases |s|
  {
    if s != {} {
      var r :| r in s;
      WeightedPick(orders, s, r);
      TotalPick(orders, s, r);
      WeightedAt(orders, s - {r}, price);
      Distribute(price, orders[r].shares, Total(orders, s - {r}));
    }
  }

  lemma Distribute(p: int, a: int, b: int)
    ensures Amount(p, a + b) == Amount(p, a) + Amount(p, b)
  {
  }

  /** One more tick of the side. */
  lemma WeightedSnoc(b: Book, side: char, i: nat)
    requires BookOK(b) && (side == 'B' || side == 'S') && i < K_LEVELS
    ensures var l, mk := OnSide(b, side), Abs(b);
      Weighted(mk.orders, WithinTicks(mk, side, i + 1)) ==
      Weighted(mk.orders, WithinTicks(mk, side, i)) +
      Amount(PriceAt(side, l.refPrice, i), l.levels[i].totalQty)
  {
    var l, mk := OnSide(b, side), Abs(b);
    LevelAggregates(l, b.slots, b.live, b.log.arrival, i);
    WeightedTick(mk, side, i);
  }

  lemma WeightedTick(mk: Market, side: char, i: nat)
    ensures var at := At(mk.orders, side, PriceAt(side, mk.Ref(side), i));
      Weighted(mk.orders, WithinTicks(mk, side, i + 1)) ==
      Weighted(mk.orders, WithinTicks(mk, side, i)) +
      Amount(PriceAt(side, mk.Ref(side), i), Total(mk.orders, at))
  {
    var at := At(mk.orders, side, PriceAt(side, mk.Ref(side), i));
    assert WithinTicks(mk, side, i + 1) == WithinTicks(mk, side, i) + at;
    WeightedUnion(mk.orders, WithinTicks(mk, side, i), at);
    WeightedAt(mk.orders, at, PriceAt(side, mk.Ref(side), i));
  }

  /** The price of a level that is not empty is computed without wrapping. */
  lemma OccupiedPrice(b: Book, side: char, i: nat)
    requires BookOK(b) && (side == 'B' || side == 'S') && i < K_LEVELS && !OnSide(b, side).levels[i].Empty()
    ensures MachinePrice(side, OnSide(b, side).refPrice, i) == PriceAt(side, OnSide(b, side).refPrice, i)
  {
    LevelShown(b, side, i);
    PriceExact(side, OnSide(b, side).refPrice, i);
  }

  lemma EmptyQty(b: Book, side: char, i: nat)
    requires BookOK(b) && (side == 'B' || side == 'S') && i < K_LEVELS && OnSide(b, side).levels[i].Empty()
    ensures OnSide(b, side).levels[i].totalQty == 0
  {
    assert LevelOK(OnSide(b, side), b.slots, b.live, i);
  }

  /** The two accumulators of `vwap`; both are whole numbers. */
  ghost predicate Sums(b: Book, side: char, n: nat, priceQtySum: int, qtySum: int)
    requires BookOK(b)
  {
    && qtySum == Total(Abs(b).orders, WithinTicks(Abs(b), side, n))
    && priceQtySum == Weighted(Abs(b).orders, WithinTicks(Abs(b), side, n))
  }

  lemma SumsStep(b: Book, side: char, i: nat, priceQtySum: int, qtySum: int)
    requires BookOK(b) && (side == 'B' || side == 'S') && i < K_LEVELS
    requires Sums(b, side, i, priceQtySum, qtySum)
    ensures var l := OnSide(b, side);
      Sums(b, side, i + 1, priceQtySum + Amount(PriceAt(side, l.refPrice, i), l.levels[i].totalQty),
           qtySum + l.levels[i].totalQty)
  {
    NextTick(b, side, i);
  }

  lemma SumsStart(b: Book, side: char)
    requires BookOK(b)
    ensures Sums(b, side, 0, 0, 0)
  {
    assert WithinTicks(Abs(b), side, 0) == {};
  }

  /** What one level adds to the sums; an empty level is skipped. */
  method AddLevel(side: BookSide, i: nat, before: int, qtyBefore: int, ghost b: Book)
    returns (priceQtySum: int, qtySum: int)
    requires BookOK(b) && (side.side == 'B' || side.side == 'S') && side.View() == OnSide(b, side.side)
    requires i < K_LEVELS && Sums(b, side.side, i, before, qtyBefore)
    ensures Sums(b, side.side, i + 1, priceQtySum, qtySum)
  {
    priceQtySum, qtySum := before, qtyBefore;
    SumsStep(b, side.side, i, before, qtyBefore);
    var level := side.levels[i];
    assert level == OnSide(b, side.side).levels[i];
    if level.Empty() {
      EmptyQty(b, side.side, i);
      AmountZero(PriceAt(side.side, side.refPrice, i));
    } else {
      OccupiedPrice(b, side.side, i);
      priceQtySum := priceQtySum + Amount(MachinePrice(side.side, side.refPrice, i), level.totalQty);
      qtySum := qtySum + level.totalQty;
    }
  }

  method VwapSums(side: BookSide, n: nat, ghost b: Book) returns (priceQtySum: int, qtySum: int)
    requires BookOK(b) && (side.side == 'B' || side.side == 'S') && side.View() == OnSide(b, side.side)
    requires n <= K_LEVELS
    ensures Sums(b, side.side, n, priceQtySum, qtySum)
  {
    priceQtySum, qtySum := 0, 0;
    SumsStart(b, side.side);
    for i := 0 to n
      invariant Sums(b, side.side, i, priceQtySum, qtySum)
    {
      priceQtySum, qtySum := AddLevel(side, i, priceQtySum, qtySum, b);
    }
  }

  /** `vwap`: the share-weighted average price of the live orders within the first ticks. */
  method Vwap(book: OrderBook, side: char, levels: int) returns (v: real)
    requires book.Valid()
    ensures var mk := book.Market();
      var s := WithinTicks(mk, SideOf(side), Ticks(levels));
      if Total(mk.orders, s) == 0 then v == 0.0
      else v == Weighted(mk.orders, s) as real / Total(mk.orders, s) as real
  {
    var bookSide := if side == 'B' then book.bids else book.asks;
    var priceQtySum, qtySum := VwapSums(bookSide, Ticks(levels), book.Snapshot());
    v := if qtySum > 0 then priceQtySum as real / qtySum as real else 0.0;
  }

  lemma NextTick(b: Book, side: char, i: nat)
    requires BookOK(b) && (side == 'B' || side == 'S') && i < K_LEVELS
    ensures var l, mk := OnSide(b, side), Abs(b);
      && Total(mk.orders, WithinTicks(mk, side, i + 1)) == Total(mk.orders, WithinTicks(mk, side, i)) + l.levels[i].totalQty
      && Weighted(mk.orders, WithinTicks(mk, side, i + 1)) ==
         Weighted(mk.orders, WithinTicks(mk, side, i)) + Amount(PriceAt(side, l.refPrice, i), l.levels[i].totalQty)
  {
    TicksTotal(b, side, i);
    TicksTotal(b, side, i + 1);
    WeightedSnoc(b, side, i);
  }

  /** A weighted sum lies between the lowest and the highest price times the shares. */
  lemma {:induction false} WeightedBetween(orders: map<u64, Entry>, s: set<u64>, lo: int, hi: int)
    requires s <= orders.Keys && forall r :: r in s ==> lo <= orders[r].price <= hi
    ensures Amount(lo, Total(orders, s)) <= Weighted(orders, s) <= Amount(hi, Total(orders, s))
    decreases |s|
  {
    if s != {} {
      var r :| r in s;
      WeightedPick(orders, s, r);
      TotalPick(orders, s, r);
      WeightedBetween(orders, s - {r}, lo, hi);
      var q, rest := orders[r].shares, Total(orders, s - {r});
      Distribute(lo, q, rest);
      Distribute(hi, q, rest);
      ScaleLeq(lo, orders[r].price, q);
      ScaleLeq(orders[r].price, hi, q);
    }
  }

  lemma ScaleLeq(a: int, b: int, q: nat)
    requires a <= b
    ensures Amount(a, q) <= Amount(b, q)
  {
  }

  /** `vwap` lies between the lowest and highest price of the orders it averages. */
  lemma VwapBetween(orders: map<u64, Entry>, s: set<u64>, lo: int, hi: int)
    requires s <= orders.Keys && forall r :: r in s ==> lo <= orders[r].price <= hi
    requires Total(orders, s) > 0
    ensures lo as real <= Weighted(orders, s) as real / Total(orders, s) as real <= hi as real
  {
    WeightedBetween(orders, s, lo, hi);
    QuotientBetween(Weighted(orders, s), Total(orders, s), lo, hi);
  }

  lemma QuotientBetween(w: int, q: nat, lo: int, hi: int)
    requires q > 0 && lo * q <= w <= hi * q
    ensures lo as real <= w as real / q as real <= hi as real
  {
    assert (lo * q) as real / q as real == lo as real;
    assert (hi * q) as real / q as real == hi as real;
  }

  /** `order_flow_imbalance`, from the quantities at the top of the book. */
  function Imbalance(bidQty: u32, askQty: u32): (r: real)
    ensures -1.0 <= r <= 1.0
    ensures (r > 0.0 <==> bidQty > askQty) && (r < 0.0 <==> bidQty < askQty)
    ensures r * (bidQty + askQty) as real == (bidQty - askQty) as real
    ensures bidQty + askQty == 0 ==> r == 0.0
  {
    var bid, ask := bidQty as real, askQty as real;
    if bid + ask == 0.0 then 0.0 else
    ImbalanceBounds(bid, ask, (bid - ask) / (bid + ask));
    (bid - ask) / (bid + ask)
  }

  method OrderFlowImbalance(book: OrderBook) returns (r: real)
    requires book.Valid()
    ensures forall bbo :: IsBbo(book.Market(), bbo) ==> r == Imbalance(bbo.bidQty, bbo.askQty)
    ensures exists bbo :: IsBbo(book.Market(), bbo)
  {
    var top := book.BestBidOffer();
    r := Imbalance(top.bidQty, top.askQty);
    ghost var mk := book.Market();
    forall bbo | IsBbo(mk, bbo)
      ensures bbo == top
    {
      TopUnique(mk, 'B', bbo.bidPrice, bbo.bidQty, top.bidPrice, top.bidQty);
      TopUnique(mk, 'S', bbo.askPrice, bbo.askQty, top.askPrice, top.askQty);
    }
  }

  lemma StrictScale(a: real, b: real, q: real)
    requires a < b && q > 0.0
    ensures a * q < b * q
  {
  }

  lemma ImbalanceBounds(bid: real, ask: real, r: real)
    requires bid >= 0.0 && ask >= 0.0 && bid + ask > 0.0 && r == (bid - ask) / (bid + ask)
    ensures -1.0 <= r
    ensures r <= 1.0
    ensures (r > 0.0 <==> bid > ask) && (r < 0.0 <==> bid < ask)
  {
    ImbalanceLow(bid, ask, r);
    ImbalanceHigh(bid, ask, r);
    ImbalanceSign(bid, ask, r);
  }

  lemma ImbalanceLow(bid: real, ask: real, r: real)
    requires bid >= 0.0 && ask >= 0.0 && bid + ask > 0.0 && r == (bid - ask) / (bid + ask)
    ensures -1.0 <= r
  {
    var total := bid + ask;
    assert r * total == bid - ask;
    if -1.0 > r { StrictScale(r, -1.0, total); }
  }

  lemma ImbalanceHigh(bid: real, ask: real, r: real)
    requires bid >= 0.0 && ask >= 0.0 && bid + ask > 0.0 && r == (bid - ask) / (bid + ask)
    ensures r <= 1.0
  {
    var total := bid + ask;
    assert r * total == bid - ask;
    if r > 1.0 { StrictScale(1.0, r, total); }
  }

  lemma ImbalanceSign(bid: real, ask: real, r: real)
    requires bid >= 0.0 && ask >= 0.0 && bid + ask > 0.0 && r == (bid - ask) / (bid + ask)
    ensures (r > 0.0 <==> bid > ask) && (r < 0.0 <==> bid < ask)
  {
    var total := bid + ask;
    assert r * total == bid - ask;
    if r > 0.0 { StrictScale(0.0, r, total); }
    if r < 0.0 { StrictScale(r, 0.0, total); }
  }
}
