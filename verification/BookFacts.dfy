/** What a consistent book says about the market it represents. */
module BookFacts {
  import opened Machine
  import opened Slab
  import opened PriceLevels
  import opened Windows
  import opened Ladders
  import opened Markets
  import opened Books
  import opened Depths

  /** The order references of a list. */
  ghost function Refs(slots: seq<Order>, q: seq<int>): set<u64>
    requires WithinSlab(|slots|, q)
  {
    if q == [] then {} else Refs(slots, q[..|q| - 1]) + {slots[q[|q| - 1]].orderRef}
  }

  lemma {:induction false} RefsMembers(slots: seq<Order>, q: seq<int>, x: u64)
    requires WithinSlab(|slots|, q)
    ensures x in Refs(slots, q) <==> exists k :: 0 <= k < |q| && slots[q[k]].orderRef == x
  {
    if q != [] {
      var init := q[..|q| - 1];
      RefsMembers(slots, init, x);
      if x in Refs(slots, init) {
        var k :| 0 <= k < |init| && slots[init[k]].orderRef == x;
        assert slots[q[k]].orderRef == x;
      }
      if k :| 0 <= k < |q| && slots[q[k]].orderRef == x {
        assert k < |init| ==> slots[init[k]].orderRef == x;
      }
    }
  }

  /** Node `p` is live and has the shares its entry says. */
  ghost predicate Entered(slots: seq<Order>, m: map<u64, int>, orders: map<u64, Entry>, p: int)
    requires 0 <= p < |slots|
  {
    && IsLive(slots, m, p)
    && slots[p].orderRef in orders
    && orders[slots[p].orderRef].shares == slots[p].shares
  }

  /** Sum over a list of distinct live nodes, seen through their references. */
  lemma {:induction false} QueueTotal(slots: seq<Order>, m: map<u64, int>, orders: map<u64, Entry>, q: seq<int>)
    requires Distinct(q) && WithinSlab(|slots|, q)
    requires forall k :: 0 <= k < |q| ==> Entered(slots, m, orders, q[k])
    ensures Refs(slots, q) <= orders.Keys
    ensures SumShares(slots, q) == Total(orders, Refs(slots, q))
    ensures |Refs(slots, q)| == |q|
  {
    if q != [] {
      var n := |q| - 1;
      var init, r := q[..n], slots[q[n]].orderRef;
      QueueTotal(slots, m, orders, init);
      assert Entered(slots, m, orders, q[n]);
      forall k | 0 <= k < n
        ensures slots[init[k]].orderRef != r
      {
        assert Entered(slots, m, orders, q[k]);
      }
      RefsMembers(slots, init, r);
      TotalPick(orders, Refs(slots, q), r);
      assert Refs(slots, q) - {r} == Refs(slots, init);
    }
  }

  // ----- a level and the orders at its price

  lemma LevelEntered(l: Ladder, slots: seq<Order>, m: map<u64, int>, arrival: map<u64, nat>, i: int)
    requires LadderOK(l, slots, m) && 0 <= i < K_LEVELS
    ensures Distinct(l.queues[i]) && WithinSlab(|slots|, l.queues[i])
    ensures forall k :: 0 <= k < |l.queues[i]| ==> Entered(slots, m, Resting(slots, m, arrival), l.queues[i][k])
  {
    assert LevelOK(l, slots, m, i);
    forall k | 0 <= k < |l.queues[i]|
      ensures Entered(slots, m, Resting(slots, m, arrival), l.queues[i][k])
    {
      assert Resident(l, slots, m, i, l.queues[i][k]);
    }
  }

  /** The list of level `i` holds exactly the live orders at the level's price. */
  lemma LevelMembers(l: Ladder, slots: seq<Order>, m: map<u64, int>, arrival: map<u64, nat>, i: int)
    requires LadderOK(l, slots, m) && 0 <= i < K_LEVELS
    ensures WithinSlab(|slots|, l.queues[i])
    ensures Refs(slots, l.queues[i]) == At(Resting(slots, m, arrival), l.side, PriceAt(l.side, l.refPrice, i))
  {
    var orders, q := Resting(slots, m, arrival), l.queues[i];
    LevelEntered(l, slots, m, arrival, i);
    forall r | r in Refs(slots, q)
      ensures r in At(orders, l.side, PriceAt(l.side, l.refPrice, i))
    {
      RefsMembers(slots, q, r);
      var k :| 0 <= k < |q| && slots[q[k]].orderRef == r;
      ResidentAt(l, slots, m, arrival, i, k);
    }
    forall r | r in At(orders, l.side, PriceAt(l.side, l.refPrice, i))
      ensures r in Refs(slots, q)
    {
      assert Registered(slots, m, r);
      MemberListed(l, slots, m, i, r);
    }
  }

  lemma ResidentAt(l: Ladder, slots: seq<Order>, m: map<u64, int>, arrival: map<u64, nat>, i: int, k: int)
    requires LadderOK(l, slots, m) && 0 <= i < K_LEVELS && 0 <= k < |l.queues[i]|
    ensures 0 <= l.queues[i][k] < |slots|
    ensures slots[l.queues[i][k]].orderRef in At(Resting(slots, m, arrival), l.side, PriceAt(l.side, l.refPrice, i))
  {
    assert LevelOK(l, slots, m, i) && Resident(l, slots, m, i, l.queues[i][k]);
  }

  lemma MemberListed(l: Ladder, slots: seq<Order>, m: map<u64, int>, i: int, r: u64)
    requires LadderOK(l, slots, m) && 0 <= i < K_LEVELS && r in m
    requires Registered(slots, m, r)
    requires slots[m[r]].side == l.side && slots[m[r]].price == PriceAt(l.side, l.refPrice, i)
    ensures m[r] in l.queues[i] && slots[m[r]].levelIdx == i
    ensures WithinSlab(|slots|, l.queues[i]) && r in Refs(slots, l.queues[i])
  {
    var q := l.queues[i];
    assert LevelOK(l, slots, m, i) && InPlace(l, slots, m, r);
    var k :| 0 <= k < |q| && q[k] == m[r];
    RefsMembers(slots, q, r);
  }

  /** The aggregates of level `i` are the count and the sum over the orders at its price. */
  lemma LevelAggregates(l: Ladder, slots: seq<Order>, m: map<u64, int>, arrival: map<u64, nat>, i: int)
    requires LadderOK(l, slots, m) && 0 <= i < K_LEVELS
    ensures var orders, at := Resting(slots, m, arrival), At(Resting(slots, m, arrival), l.side, PriceAt(l.side, l.refPrice, i));
      && l.levels[i].totalQty == Total(orders, at)
      && l.levels[i].orderCount == |at|
  {
    assert LevelOK(l, slots, m, i);
    LevelEntered(l, slots, m, arrival, i);
    LevelMembers(l, slots, m, arrival, i);
    QueueTotal(slots, m, Resting(slots, m, arrival), l.queues[i]);
  }

  // ----- best levels and the top of the book

  /** A displayed order sits on a level that is not empty. */
  lemma ShownLevel(b: Book, side: char, r: u64)
    requires BookOK(b) && (side == 'B' || side == 'S') && r in Shown(Abs(b), side)
    ensures var l := OnSide(b, side);
      var i := Offset(side, l.refPrice, Abs(b).orders[r].price);
      && 0 <= i < K_LEVELS && !l.levels[i].Empty()
      && Abs(b).orders[r].price == PriceAt(side, l.refPrice, i)
  {
    var l := OnSide(b, side);
    assert Registered(b.slots, b.live, r);
    var i := Offset(side, l.refPrice, Abs(b).orders[r].price);
    MemberListed(l, b.slots, b.live, i, r);
    assert LevelOK(l, b.slots, b.live, i);
  }

  /** A level that is not empty displays an order. */
  lemma LevelShown(b: Book, side: char, i: int)
    requires BookOK(b) && (side == 'B' || side == 'S') && 0 <= i < K_LEVELS
    requires !OnSide(b, side).levels[i].Empty()
    ensures exists r ::
      r in Shown(Abs(b), side) && Abs(b).orders[r].price == PriceAt(side, OnSide(b, side).refPrice, i)
  {
    var l := OnSide(b, side);
    assert LevelOK(l, b.slots, b.live, i);
    var p := l.queues[i][0];
    assert Resident(l, b.slots, b.live, i, p);
    assert b.slots[p].orderRef in Shown(Abs(b), side);
  }

  lemma BestLevel(b: Book, side: char)
    requires BookOK(b) && (side == 'B' || side == 'S')
    ensures var l := OnSide(b, side);
      if l.best < 0 then IsTop(Abs(b), side, 0, 0) else
      && 0 <= PriceAt(side, l.refPrice, l.best) < TWO_32
      && IsTop(Abs(b), side, PriceAt(side, l.refPrice, l.best), l.levels[l.best].totalQty % TWO_32)
  {
    var l, mk := OnSide(b, side), Abs(b);
    forall r | r in Shown(mk, side)
      ensures l.best >= 0 && AtLeastAsGood(side, PriceAt(side, l.refPrice, l.best), mk.orders[r].price)
    {
      ShownLevel(b, side, r);
    }
    if l.best >= 0 {
      LevelShown(b, side, l.best);
      LevelAggregates(l, b.slots, b.live, b.log.arrival, l.best);
    }
  }

  /** The cached best level of a side gives the top of what the market displays. */
  lemma BestIsTop(b: Book, side: char)
    requires BookOK(b) && (side == 'B' || side == 'S')
    ensures OnSide(b, side).best < K_LEVELS
    ensures IsTop(Abs(b), side, TopPrice(OnSide(b, side)), TopQty(OnSide(b, side)))
  {
    var l := OnSide(b, side);
    BestLevel(b, side);
    if l.best >= 0 {
      PriceExact(side, l.refPrice, l.best);
    }
  }

  /** What is published for a side is the best price over all its live orders exactly when the side has
      no orders, or some level is in use and no order beats the reference price; it is also the number of
      shares resting there exactly when, besides, the quantity of the best level fits 32 bits. */
  lemma PublishedIsTrue(b: Book, side: char)
    requires BookOK(b) && (side == 'B' || side == 'S')
    ensures OnSide(b, side).best < K_LEVELS
    ensures var l, mk := OnSide(b, side), Abs(b);
      IsTrueBest(mk.orders, side, TopPrice(l)) <==>
      OfSide(mk.orders, side) == {} || (l.best >= 0 && NothingBeyond(mk, side))
    ensures var l, mk := OnSide(b, side), Abs(b);
      IsTrueTop(mk.orders, side, TopPrice(l), TopQty(l)) <==>
      OfSide(mk.orders, side) == {} ||
      (l.best >= 0 && NothingBeyond(mk, side) && l.levels[l.best].totalQty < TWO_32)
  {
    var l, mk := OnSide(b, side), Abs(b);
    BestIsTop(b, side);
    forall r | r in OfSide(mk.orders, side)
      ensures PriceOK(mk.orders[r].price)
    {
      assert Registered(b.slots, b.live, r);
    }
    TopExact(mk, side, TopPrice(l), TopQty(l));
    BestInUse(b, side);
  }

  /** Something is displayed exactly when some level is in use, and the best level then holds what rests
      at the published price. */
  lemma BestInUse(b: Book, side: char)
    requires BookOK(b) && (side == 'B' || side == 'S')
    ensures var l, mk := OnSide(b, side), Abs(b);
      && l.best < K_LEVELS && (l.best >= 0 <==> Shown(mk, side) != {})
      && (l.best >= 0 ==> l.levels[l.best].totalQty == Total(mk.orders, At(mk.orders, side, TopPrice(l))))
  {
    var l, mk := OnSide(b, side), Abs(b);
    if r :| r in Shown(mk, side) {
      ShownLevel(b, side, r);
    }
    if l.best >= 0 {
      LevelShown(b, side, l.best);
      BestLevel(b, side);
      PriceExact(side, l.refPrice, l.best);
      LevelAggregates(l, b.slots, b.live, b.log.arrival, l.best);
    }
  }

  // ----- the shape of the heap

  ghost predicate Listed(b: Book, p: int, side: char, i: int) {
    && (side == 'B' || side == 'S')
    && 0 <= i < |OnSide(b, side).queues|
    && p in OnSide(b, side).queues[i]
  }

  ghost predicate StrandedNode(b: Book, p: int) {
    && 0 <= p < |b.slots|
    && IsLive(b.slots, b.live, p)
    && b.slots[p].levelIdx == STRANDED
  }

  lemma ListedNode(b: Book, p: int, side: char, i: int)
    requires BookOK(b) && Listed(b, p, side, i)
    ensures 0 <= p < |b.slots| && IsLive(b.slots, b.live, p)
    ensures b.slots[p].side == side && b.slots[p].levelIdx == i && i < K_LEVELS
  {
    var l := OnSide(b, side);
    assert LevelOK(l, b.slots, b.live, i);
    var k :| 0 <= k < |l.queues[i]| && l.queues[i][k] == p;
    assert Resident(l, b.slots, b.live, i, l.queues[i][k]);
  }

  /** Every slot is in exactly one place: the free list, one list of one level, or stranded. */
  lemma SlotHome(b: Book, p: int)
    requires BookOK(b) && 0 <= p < |b.slots|
    ensures p in b.free || StrandedNode(b, p) || exists side, i :: Listed(b, p, side, i)
    ensures !(p in b.free && StrandedNode(b, p))
    ensures forall side, i :: Listed(b, p, side, i) ==>
      && p !in b.free && !StrandedNode(b, p)
      && forall side', i' :: Listed(b, p, side', i') ==> side' == side && i' == i
  {
    assert p in b.free <==> !IsLive(b.slots, b.live, p);
    if p !in b.free && !StrandedNode(b, p) {
      var r := b.slots[p].orderRef;
      assert Registered(b.slots, b.live, r);
      assert InPlace(b.bids, b.slots, b.live, r) && InPlace(b.asks, b.slots, b.live, r);
      assert Listed(b, p, b.slots[p].side, b.slots[p].levelIdx);
    }
    forall side, i | Listed(b, p, side, i)
      ensures p !in b.free && b.slots[p].levelIdx == i && b.slots[p].side == side && i >= 0
    {
      ListedNode(b, p, side, i);
    }
  }

  // ----- recentring is independent of the iteration order

  /** Two sides that index the same orders under the same reference agree in everything but the
      order inside each list. */
  lemma RebuildUnique(l: Ladder, slots: seq<Order>, l': Ladder, slots': seq<Order>, m: map<u64, int>)
    requires LadderOK(l, slots, m) && LadderOK(l', slots', m)
    requires l'.side == l.side && l'.refPrice == l.refPrice
    requires forall r :: r in m ==> SameOrder(slots[m[r]], slots'[m[r]])
    ensures l'.best == l.best
    ensures forall i :: 0 <= i < K_LEVELS ==>
      && l'.levels[i].totalQty == l.levels[i].totalQty
      && l'.levels[i].orderCount == l.levels[i].orderCount
      && WithinSlab(|slots|, l.queues[i]) && WithinSlab(|slots'|, l'.queues[i])
      && Refs(slots', l'.queues[i]) == Refs(slots, l.queues[i])
  {
    SameResting(slots, slots', m);
    forall i | 0 <= i < K_LEVELS
      ensures l'.levels[i].totalQty == l.levels[i].totalQty
      ensures l'.levels[i].orderCount == l.levels[i].orderCount
      ensures WithinSlab(|slots|, l.queues[i]) && WithinSlab(|slots'|, l'.queues[i])
      ensures Refs(slots', l'.queues[i]) == Refs(slots, l.queues[i])
    {
      LevelMembers(l, slots, m, map[], i);
      LevelMembers(l', slots', m, map[], i);
      LevelAggregates(l, slots, m, map[], i);
      LevelAggregates(l', slots', m, map[], i);
    }
    SameBest(l.levels, l.best, l'.levels, l'.best);
  }

  lemma SameResting(slots: seq<Order>, slots': seq<Order>, m: map<u64, int>)
    requires Registry(slots, m) && Registry(slots', m)
    requires forall r :: r in m ==>
      (assert Registered(slots, m, r) && Registered(slots', m, r); SameOrder(slots[m[r]], slots'[m[r]]))
    ensures Resting(slots', m, map[]) == Resting(slots, m, map[])
  {
    forall r | r in m
      ensures Resting(slots', m, map[])[r] == Resting(slots, m, map[])[r]
    {
      assert Registered(slots, m, r) && Registered(slots', m, r);
    }
  }

  lemma SameBest(levels: seq<PriceLevel>, best: int, levels': seq<PriceLevel>, best': int)
    requires BestOK(levels, best) && BestOK(levels', best') && |levels'| == |levels|
    requires forall i :: 0 <= i < |levels| ==> levels'[i].orderCount == levels[i].orderCount
    ensures best' == best
  {
    assert best >= 0 ==> !levels'[best].Empty();
    assert best' >= 0 ==> !levels[best'].Empty();
  }

  // ----- totals over the window

  ghost function SumQty(levels: seq<PriceLevel>, n: nat): nat
    requires n <= |levels|
  {
    if n == 0 then 0 else SumQty(levels, n - 1) + levels[n - 1].totalQty
  }

  /** The live orders of a side priced within its first `n` ticks. */
  ghost function WithinTicks(mk: Market, side: char, n: int): set<u64> {
    set r | r in mk.orders && mk.orders[r].side == side && 0 <= Offset(side, mk.Ref(side), mk.orders[r].price) < n
  }

  /** Level `i` of the window holds what rests at its price. */
  ghost predicate LevelHolds(mk: Market, side: char, levels: seq<PriceLevel>, i: nat)
    requires i < |levels|
  {
    levels[i].totalQty == Total(mk.orders, At(mk.orders, side, PriceAt(side, mk.Ref(side), i)))
  }

  lemma {:induction false} TicksSum(mk: Market, side: char, levels: seq<PriceLevel>, n: nat)
    requires n <= |levels| && forall i :: 0 <= i < n ==> LevelHolds(mk, side, levels, i)
    ensures SumQty(levels, n) == Total(mk.orders, WithinTicks(mk, side, n))
  {
    if n == 0 {
      assert WithinTicks(mk, side, 0) == {};
    } else {
      TicksSum(mk, side, levels, n - 1);
      assert LevelHolds(mk, side, levels, n - 1);
      TicksSnoc(mk, side, n);
    }
  }

  /** The first `n` levels hold the orders of the first `n` ticks. */
  lemma TicksTotal(b: Book, side: char, n: nat)
    requires BookOK(b) && (side == 'B' || side == 'S') && n <= K_LEVELS
    ensures SumQty(OnSide(b, side).levels, n) == Total(Abs(b).orders, WithinTicks(Abs(b), side, n))
  {
    var l, mk := OnSide(b, side), Abs(b);
    forall i | 0 <= i < n
      ensures LevelHolds(mk, side, l.levels, i)
    {
      LevelAggregates(l, b.slots, b.live, b.log.arrival, i);
    }
    TicksSum(mk, side, l.levels, n);
  }

  lemma TicksSnoc(mk: Market, side: char, n: nat)
    requires n > 0
    ensures Total(mk.orders, WithinTicks(mk, side, n)) ==
      Total(mk.orders, WithinTicks(mk, side, n - 1)) +
      Total(mk.orders, At(mk.orders, side, PriceAt(side, mk.Ref(side), n - 1)))
  {
    var at := At(mk.orders, side, PriceAt(side, mk.Ref(side), n - 1));
    assert WithinTicks(mk, side, n) == WithinTicks(mk, side, n - 1) + at;
    TotalUnion(mk.orders, WithinTicks(mk, side, n - 1), at);
  }

  /** All resting shares: those on the levels of both sides, and the stranded ones. */
  lemma RestingShares(b: Book)
    requires BookOK(b)
    ensures Total(Abs(b).orders, Abs(b).orders.Keys) ==
      SumQty(b.bids.levels, K_LEVELS) + SumQty(b.asks.levels, K_LEVELS) +
      Total(Abs(b).orders, StrandedOrders(Abs(b)))
  {
    var mk := Abs(b);
    var bids, asks, off := WithinTicks(mk, 'B', K_LEVELS), WithinTicks(mk, 'S', K_LEVELS), StrandedOrders(mk);
    TicksTotal(b, 'B', K_LEVELS);
    TicksTotal(b, 'S', K_LEVELS);
    EveryOrderSomewhere(b);
    TotalUnion(mk.orders, bids, asks);
    TotalUnion(mk.orders, bids + asks, off);
  }

  lemma EveryOrderSomewhere(b: Book)
    requires BookOK(b)
    ensures var mk := Abs(b);
      mk.orders.Keys == WithinTicks(mk, 'B', K_LEVELS) + WithinTicks(mk, 'S', K_LEVELS) + StrandedOrders(mk)
  {
    var mk := Abs(b);
    forall r | r in mk.orders
      ensures mk.orders[r].side == 'B' || mk.orders[r].side == 'S'
    {
      assert Registered(b.slots, b.live, r);
    }
  }

  // ----- time priority

  /** In every consistent book the list of a level is exactly the live orders of its price, each behind
      all orders that arrived before it, except that the last recentring may have relisted the orders
      older than itself among each other. */
  lemma FifoList(b: Book, side: char, i: int)
    requires BookOK(b) && (side == 'B' || side == 'S') && 0 <= i < K_LEVELS
    ensures var l, mk, q := OnSide(b, side), Abs(b), OnSide(b, side).queues[i];
      && WithinSlab(|b.slots|, q)
      && Refs(b.slots, q) == At(mk.orders, side, PriceAt(side, l.refPrice, i))
      && |q| == |At(mk.orders, side, PriceAt(side, l.refPrice, i))|
      && (forall j :: 0 <= j < |q| ==> b.slots[q[j]].orderRef in mk.orders)
      && (forall j, k :: 0 <= j < k < |q| ==>
        MayPrecede(mk.Since(side), mk.orders[b.slots[q[j]].orderRef].arrival,
                   mk.orders[b.slots[q[k]].orderRef].arrival))
  {
    var l := OnSide(b, side);
    var q := l.queues[i];
    LevelMembers(l, b.slots, b.live, b.log.arrival, i);
    LevelEntered(l, b.slots, b.live, b.log.arrival, i);
    QueueTotal(b.slots, b.live, Abs(b).orders, q);
    assert InTime(b.slots, b.log.arrival, LastRecentring(b.log, side), q);
    forall j | 0 <= j < |q|
      ensures b.slots[q[j]].orderRef in Abs(b).orders
    {
      assert Entered(b.slots, b.live, Abs(b).orders, q[j]);
    }
  }
}
