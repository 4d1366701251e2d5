/** The order book: handlers over the pool, the order map and the two sides. */
module OrderBooks {
  import opened Machine
  import opened Slab
  import opened Ladders
  import opened BookSides
  import opened Markets
  import opened Books
  import opened BookFacts
  import opened Depths

  class OrderBook {
    const bids: BookSide
    const asks: BookSide
    var pool: OrderPool
    var orderMap: map<u64, int>
    var isOpen: bool
    ghost var log: Journal

    ghost function Repr(): set<object>
      reads this
    {
      {this, bids, bids.levels, asks, asks.levels, pool, pool.slots}
    }

    ghost function Snapshot(): Book
      reads Repr()
    {
      Book(pool.slots[..], pool.freeHead, pool.free, orderMap, bids.View(), asks.View(),
           isOpen, log)
    }

    ghost function SideView(side: char): Ladder
      reads this, bids, bids.levels, asks, asks.levels
    {
      if side == 'B' then bids.View() else asks.View()
    }

    ghost predicate Valid()
      reads Repr()
    {
      bids != asks && bids.levels != asks.levels && BookOK(Snapshot())
    }

    /** The market this book represents. */
    ghost function Market(): Market
      requires Valid()
      reads Repr()
    {
      Abs(Snapshot())
    }

    function Capacity(): nat
      reads this
    {
      pool.Capacity()
    }

    constructor (poolSize: nat)
      requires 1 <= poolSize < TWO_32
      ensures Valid() && fresh(Repr())
      ensures Market() == FRESH && Capacity() == poolSize
    {
      bids := new BookSide('B');
      asks := new BookSide('S');
      pool := new OrderPool(poolSize);
      orderMap := map[];
      isOpen := false;
      log := NEW_JOURNAL;
      new;
      ghost var b := Snapshot();
      assert LadderOK(b.bids, b.slots, map[]) && LadderOK(b.asks, b.slots, map[]);
      NewBook(b);
    }

    /** `make_order` */
    method MakeOrder(ref: u64, shares: u32, price: u32, side: char) returns (o: int)
      requires pool.Valid() && pool.free != []
      modifies pool, pool.slots
      ensures o == old(pool.free)[0] && pool.free == old(pool.free)[1..]
      ensures pool.freeHead == After(old(pool.free), 0)
      ensures 0 <= o < pool.slots.Length
      ensures pool.slots[..] == old(pool.slots[..])[o := Order(ref, shares, price, side, STRANDED, NULL, NULL)]
    {
      o := pool.Alloc();
      pool.slots[o] := pool.slots[o].(orderRef := ref, shares := shares, price := price, side := side);
    }

    /** `insert_order`: anything but 'B' goes to the ask side. */
    method InsertOrder(o: int, ghost side: char)
      requires bids != asks && bids.levels != asks.levels
      requires bids.side == 'B' && asks.side == 'S' && (side == 'B' || side == 'S')
      requires LadderOK(bids.View(), pool.slots[..], orderMap) && LadderOK(asks.View(), pool.slots[..], orderMap)
      requires 0 <= o < pool.slots.Length < TWO_32 && pool.slots[o].side == side
      requires pool.slots[o].orderRef !in orderMap && PriceOK(pool.slots[o].price)
      modifies bids, bids.levels, asks, asks.levels, pool.slots
      ensures InsertedOn(old(SideView(side)), SideView(side), old(pool.slots[..]), pool.slots[..], orderMap, o)
      ensures SideView(Opposite(side)) == old(SideView(Opposite(side)))
    {
      if pool.slots[o].side == 'B' {
        bids.Insert(pool.slots, o, orderMap);
      } else {
        asks.Insert(pool.slots, o, orderMap);
      }
    }

    /** Makes an order, inserts it on its side, then enters it in the map, in that order, so that a
        recentring does not see it. */
    method Enter(ref: u64, shares: u32, price: u32, side: char, ghost made: seq<Order>)
      requires bids != asks && bids.levels != asks.levels
      requires bids.side == 'B' && asks.side == 'S' && (side == 'B' || side == 'S')
      requires pool.Valid() && pool.free != [] && Made(Snapshot(), made, pool.free[0], ref, side, shares, price)
      requires LadderOK(bids.View(), made, orderMap) && LadderOK(asks.View(), made, orderMap)
      requires pool.slots.Length < TWO_32 && PriceOK(price) && ref !in orderMap
      modifies Repr()
      ensures pool == old(pool)
      ensures InsertedOn(old(SideView(side)), SideView(side), made, pool.slots[..], old(orderMap), old(pool.free)[0])
      ensures Snapshot() ==
        PlacedBook(old(Snapshot()), SideView(side), pool.slots[..], old(pool.free)[0], ref, side, price)
    {
      ghost var refPrice := SideView(side).refPrice;
      var o := MakeOrder(ref, shares, price, side);
      InsertOrder(o, side);
      orderMap := orderMap[ref := o];
      log := Noted(log, ref, side, refPrice, price);
    }

    method Place(ref: u64, shares: u32, price: u32, side: char)
      requires Valid() && pool.free != []
      requires (side == 'B' || side == 'S') && ref !in orderMap && PriceOK(price)
      modifies Repr()
      ensures Valid() && pool == old(pool)
      ensures Market() == Placed(old(Market()), ref, side, shares, price)
    {
      ghost var b := Snapshot();
      ghost var o := pool.free[0];
      ghost var made := b.slots[o := Order(ref, shares, price, side, STRANDED, NULL, NULL)];
      MakeKeeps(b, made, o, ref, side, shares, price);
      Enter(ref, shares, price, side, made);
      PlaceKeeps(b, SideView(side), pool.slots[..], made, o, ref, side, shares, price);
    }

    /** `remove_order` */
    method RemoveOrder(o: int, ghost side: char) returns (ghost k: int)
      requires bids != asks && bids.levels != asks.levels
      requires bids.side == 'B' && asks.side == 'S' && (side == 'B' || side == 'S')
      requires LadderOK(bids.View(), pool.slots[..], orderMap) && LadderOK(asks.View(), pool.slots[..], orderMap)
      requires 0 <= o < pool.slots.Length && pool.slots[o].side == side
      requires IsLive(pool.slots[..], orderMap, o) && pool.slots[o].levelIdx >= 0
      modifies bids, bids.levels, asks, asks.levels, pool.slots
      ensures RemovedFrom(old(SideView(side)), SideView(side), old(pool.slots[..]), pool.slots[..], orderMap, o, k)
      ensures SideView(Opposite(side)) == old(SideView(Opposite(side)))
    {
      if pool.slots[o].side == 'B' {
        k := bids.Remove(pool.slots, o, orderMap);
      } else {
        k := asks.Remove(pool.slots, o, orderMap);
      }
    }

    /** Unlinks an order, erases it from the map and frees its slot. */
    method Leave(ref: u64, ghost side: char) returns (ghost unlinked: seq<Order>, ghost k: int)
      requires bids != asks && bids.levels != asks.levels
      requires bids.side == 'B' && asks.side == 'S' && (side == 'B' || side == 'S')
      requires LadderOK(bids.View(), pool.slots[..], orderMap) && LadderOK(asks.View(), pool.slots[..], orderMap)
      requires pool.Valid() && ref in orderMap
      requires var o := orderMap[ref];
        && 0 <= o < pool.slots.Length && pool.slots[o].orderRef == ref && o !in pool.free
        && pool.slots[o].side == side && pool.slots[o].levelIdx >= 0
      modifies Repr()
      ensures pool == old(pool) && |unlinked| == pool.slots.Length
      ensures RemovedFrom(old(SideView(side)), SideView(side), old(pool.slots[..]), unlinked,
                          old(orderMap), old(orderMap)[ref], k)
      ensures Snapshot() == WithdrawnBook(old(Snapshot()), SideView(side), unlinked, ref, side)
    {
      var o := orderMap[ref];
      ghost var before := pool.slots[..];
      k := RemoveOrder(o, side);
      unlinked := pool.slots[..];
      orderMap := orderMap - {ref};
      FreeListFrame(before, unlinked, pool.freeHead, pool.free);
      pool.Free(o);
      log := log.(arrival := log.arrival - {ref});
    }

    method Withdraw(ref: u64)
      requires Valid() && ref in orderMap && !Stranded(Market(), ref)
      modifies Repr()
      ensures Valid() && pool == old(pool)
      ensures Market() == Withdrawn(old(Market()), ref)
      ensures pool.free != [] && orderMap == old(orderMap) - {ref}
    {
      ghost var b := Snapshot();
      LiveInWindow(b, ref);
      ghost var side := b.slots[b.live[ref]].side;
      ghost var unlinked, k := Leave(ref, side);
      WithdrawKeeps(b, SideView(side), unlinked, ref, side, k);
    }

    /** `reduce_shares` on the order's side. */
    method ReduceShares(o: int, qty: u32, ghost side: char)
      requires bids != asks && bids.levels != asks.levels
      requires bids.side == 'B' && asks.side == 'S' && (side == 'B' || side == 'S')
      requires LadderOK(bids.View(), pool.slots[..], orderMap) && LadderOK(asks.View(), pool.slots[..], orderMap)
      requires 0 <= o < pool.slots.Length && pool.slots[o].side == side && qty <= pool.slots[o].shares
      requires IsLive(pool.slots[..], orderMap, o) && pool.slots[o].levelIdx >= 0
      modifies bids, bids.levels, asks, asks.levels, pool.slots
      ensures LadderOK(SideView(side), pool.slots[..], orderMap)
      ensures SideView(side).side == side && SideView(side).refPrice == old(SideView(side)).refPrice
      ensures SideView(side).queues == old(SideView(side)).queues
      ensures Snapshot() == ReducedBook(old(Snapshot()), SideView(side), pool.slots[o].orderRef, side, qty)
    {
      if pool.slots[o].side == 'B' {
        bids.Reduce(pool.slots, o, qty, orderMap);
      } else {
        asks.Reduce(pool.slots, o, qty, orderMap);
      }
    }

    /** Reduces a live in-window order, to zero if need be. */
    method Shrink(ref: u64, qty: u32)
      requires Valid() && ref in Market().orders && ref in orderMap
      requires !Stranded(Market(), ref) && qty <= Market().orders[ref].shares
      modifies Repr()
      ensures Valid() && pool == old(pool) && orderMap == old(orderMap)
      ensures Market() == Shrunk(old(Market()), ref, qty)
    {
      ghost var b := Snapshot();
      LiveInWindow(b, ref);
      var o := orderMap[ref];
      ghost var side := b.slots[o].side;
      ReduceShares(o, qty, side);
      ReduceKeeps(b, SideView(side), ref, side, qty);
    }

    /** The common body of the execute and cancel handlers. */
    method Diminish(ref: u64, qty: u32)
      requires Valid()
      requires ref in Market().orders ==> !Stranded(Market(), ref) && qty <= Market().orders[ref].shares
      modifies Repr()
      ensures Valid() && pool == old(pool)
      ensures Market() == Reduced(old(Market()), ref, qty)
    {
      if ref !in orderMap { return; }
      LiveInWindow(Snapshot(), ref);
      ShrunkReduced(Market(), ref, qty);
      Shrink(ref, qty);
      LiveInWindow(Snapshot(), ref);
      if pool.slots[orderMap[ref]].shares == 0 {
        Withdraw(ref);
      }
    }

    /** Detaches every live node, in an unspecified order. */
    method DetachNodes()
      requires Registry(pool.slots[..], orderMap)
      modifies pool.slots
    {
      ghost var start := pool.slots[..];
      var todo := orderMap.Keys;
      while todo != {}
        invariant todo <= orderMap.Keys
        decreases |todo|
      {
        var r :| r in todo;
        assert Registered(start, orderMap, r);
        var o := orderMap[r];
        pool.slots[o] := pool.slots[o].(next := NULL, prev := NULL, levelIdx := STRANDED);
        todo := todo - {r};
      }
    }

    /** The 'H' branch of `on_system_event`: drains the book into a new pool of the same capacity. */
    method Halt()
      requires Valid()
      modifies Repr()
      ensures Valid() && fresh(pool) && fresh(pool.slots) && Capacity() == old(Capacity())
      ensures Market() == Step(old(Market()), Session('H'))
    {
      ghost var b := Snapshot();
      isOpen := false;
      DetachNodes();
      bids.ClearLevels();
      asks.ClearLevels();
      orderMap := map[];
      pool := new OrderPool(pool.Capacity());
      log := NEW_JOURNAL;
      HaltKeeps(b, Snapshot());
    }

    method OnSystemEvent(code: char)
      requires Valid()
      modifies Repr()
      ensures Valid() && Capacity() == old(Capacity())
      ensures pool == old(pool) || (fresh(pool) && fresh(pool.slots))
      ensures code != 'H' ==> pool == old(pool)
      ensures Market() == Step(old(Market()), Session(code))
    {
      match code
      case 'O' => isOpen := true;
      case 'C' => isOpen := false;
      case 'H' => Halt();
      case _ =>
    }

    method OnAdd(ref: u64, shares: u32, price: u32, side: char)
      requires Valid() && WellFormed(Market(), Capacity(), Add(ref, side, shares, price))
      modifies Repr()
      ensures Valid() && pool == old(pool)
      ensures Market() == Step(old(Market()), Add(ref, side, shares, price))
    {
      if !isOpen { return; }
      Vacancy(Snapshot());
      Place(ref, shares, price, side);
    }

    method OnExecute(ref: u64, qty: u32)
      requires Valid() && WellFormed(Market(), Capacity(), Execute(ref, qty))
      modifies Repr()
      ensures Valid() && pool == old(pool)
      ensures Market() == Step(old(Market()), Execute(ref, qty))
    {
      Diminish(ref, qty);
    }

    method OnCancel(ref: u64, qty: u32)
      requires Valid() && WellFormed(Market(), Capacity(), Cancel(ref, qty))
      modifies Repr()
      ensures Valid() && pool == old(pool)
      ensures Market() == Step(old(Market()), Cancel(ref, qty))
    {
      Diminish(ref, qty);
    }

    method OnDelete(ref: u64)
      requires Valid() && WellFormed(Market(), Capacity(), Delete(ref))
      modifies Repr()
      ensures Valid() && pool == old(pool)
      ensures Market() == Step(old(Market()), Delete(ref))
    {
      if ref !in orderMap {
        WithdrawAbsent(Market(), ref);
        return;
      }
      Withdraw(ref);
    }

    method OnReplace(oldRef: u64, newRef: u64, shares: u32, price: u32)
      requires Valid() && WellFormed(Market(), Capacity(), Replace(oldRef, newRef, shares, price))
      modifies Repr()
      ensures Valid() && pool == old(pool)
      ensures Market() == Step(old(Market()), Replace(oldRef, newRef, shares, price))
    {
      if oldRef !in orderMap { return; }
      LiveInWindow(Snapshot(), oldRef);
      var side := pool.slots[orderMap[oldRef]].side;
      Withdraw(oldRef);
      Place(newRef, shares, price, side);
    }

    /** `best_bid_offer` */
    method BestBidOffer() returns (bbo: Bbo)
      requires Valid()
      ensures IsBbo(Market(), bbo)
    {
      BestIsTop(Snapshot(), 'B');
      BestIsTop(Snapshot(), 'S');
      var bidPrice, bidQty := bids.Top();
      var askPrice, askQty := asks.Top();
      bbo := Bbo(bidPrice, bidQty, askPrice, askQty);
    }

    /** `order_count` and `has_order` */
    method OrderCount() returns (n: nat)
      requires Valid()
      ensures n == |Market().orders|
    {
      assert Market().orders.Keys == orderMap.Keys;
      n := |orderMap|;
    }

    /** `main`'s dispatcher. */
    method Dispatch(msg: Msg)
      requires Valid() && WellFormed(Market(), Capacity(), msg)
      modifies Repr()
      ensures Valid() && Capacity() == old(Capacity())
      ensures pool == old(pool) || (fresh(pool) && fresh(pool.slots))
      ensures msg != Session('H') ==> pool == old(pool)
      ensures Market() == Step(old(Market()), msg)
    {
      match msg
      case Session(code) => OnSystemEvent(code);
      case Add(ref, side, shares, price) => OnAdd(ref, shares, price, side);
      case Execute(ref, qty) => OnExecute(ref, qty);
      case Cancel(ref, qty) => OnCancel(ref, qty);
      case Delete(ref) => OnDelete(ref);
      case Replace(oldRef, newRef, shares, price) => OnReplace(oldRef, newRef, shares, price);
      case Ignored =>
    }

    /** Whole-run refinement: replaying a well-formed feed yields the market folded over it. */
    method Replay(msgs: seq<Msg>)
      requires Valid() && WellFormedRun(Market(), Capacity(), msgs)
      modifies Repr()
      ensures Valid() && Capacity() == old(Capacity())
      ensures Market() == Run(old(Market()), msgs)
    {
      ghost var start, capacity := Market(), Capacity();
      for n := 0 to |msgs|
        invariant Valid() && Capacity() == capacity
        invariant pool == old(pool) || (fresh(pool) && fresh(pool.slots))
        invariant Market() == Run(start, msgs[..n])
      {
        WellFormedAt(start, capacity, msgs, n);
        Dispatch(msgs[n]);
        assert msgs[..n + 1][..n] == msgs[..n];
      }
      assert msgs[..|msgs|] == msgs;
    }
  }

  /** A slot is free exactly when there are fewer live orders than slots. */
  lemma Vacancy(b: Book)
    requires BookOK(b)
    ensures b.free != [] <==> |Abs(b).orders| < |b.slots|
    ensures |Abs(b).orders| + |b.free| == |b.slots|
  {
    assert Abs(b).orders.Keys == b.live.Keys;
  }

  /** An order that is not stranded sits on a level of its side; its slot is not free. */
  lemma LiveInWindow(b: Book, ref: u64)
    requires BookOK(b) && ref in b.live && !Stranded(Abs(b), ref)
    ensures 0 <= b.live[ref] < |b.slots| && IsLive(b.slots, b.live, b.live[ref])
    ensures b.slots[b.live[ref]].side == 'B' || b.slots[b.live[ref]].side == 'S'
    ensures b.slots[b.live[ref]].levelIdx >= 0 && b.live[ref] !in b.free
    ensures b.slots[b.live[ref]].orderRef == ref
    ensures ref in Abs(b).orders && Abs(b).orders[ref].shares == b.slots[b.live[ref]].shares
    ensures Abs(b).orders[ref].side == b.slots[b.live[ref]].side
  {
    assert Registered(b.slots, b.live, ref);
    assert InPlace(b.bids, b.slots, b.live, ref) && InPlace(b.asks, b.slots, b.live, ref);
  }
}
