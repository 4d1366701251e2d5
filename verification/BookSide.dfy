/** The mutable side of the book: insertion, removal, best-level scan and recentring.
    The engine writes each of these twice, once for bids and once for asks; `side` selects. */
module BookSides {
  import opened Machine
  import opened Slab
  import opened PriceLevels
  import opened Windows
  import opened Ladders

  /** No order changes identity, and only nodes on side `sd` change at all. */
  ghost predicate SideMoves(slots: seq<Order>, slots': seq<Order>, sd: char) {
    && |slots'| == |slots|
    && (forall p :: 0 <= p < |slots| ==> SameOrder(slots[p], slots'[p]))
    && (forall p :: 0 <= p < |slots| && slots[p].side != sd ==> slots'[p] == slots[p])
  }

  /** Order `o`, just made, was inserted on its side: the side indexes it too, the reference is the
      next one, and the order stands last in its list; unless the side was recentred nothing else moved. */
  ghost predicate InsertedOn(l: Ladder, l': Ladder, slots: seq<Order>, slots': seq<Order>,
                             m: map<u64, int>, o: int)
    requires 0 <= o < |slots|
  {
    var price := slots[o].price;
    && l'.side == l.side
    && LadderOK(l', slots', m[slots[o].orderRef := o])
    && SideMoves(slots, slots', l.side)
    && l'.refPrice == NextRef(l.side, l.refPrice, price)
    && var i := Offset(l.side, l'.refPrice, price);
      && 0 <= i < |l.queues| && i < |l'.queues|
      && AtBack(l'.queues[i], o)
      && (!Recentres(l.side, l.refPrice, price) ==> l'.queues == l.queues[i := l.queues[i] + [o]])
  }

  predicate AtBack(q: seq<int>, o: int) {
    q != [] && q[|q| - 1] == o
  }

  /** Order `r` was removed from its side: position `k` of its level is gone, nothing else. */
  ghost predicate RemovedFrom(l: Ladder, l': Ladder, slots: seq<Order>, slots': seq<Order>,
                              m: map<u64, int>, o: int, k: int)
    requires 0 <= o < |slots|
  {
    var i := slots[o].levelIdx;
    && l'.side == l.side && l'.refPrice == l.refPrice
    && LadderOK(l', slots', m - {slots[o].orderRef})
    && SideMoves(slots, slots', l.side)
    && 0 <= i < |l.queues| && 0 <= k < |l.queues[i]| && l.queues[i][k] == o
    && l'.queues == l.queues[i := Without(l.queues[i], k)]
  }

  class BookSide {
    const side: char
    const levels: array<PriceLevel>
    var refPrice: u32
    var best: int
    ghost var queues: seq<seq<int>>

    ghost function View(): Ladder
      reads this, levels
    {
      Ladder(side, refPrice, best, levels[..], queues)
    }

    constructor (side: char)
      requires side == 'B' || side == 'S'
      ensures fresh(levels) && this.side == side
      ensures levels.Length == K_LEVELS
      ensures View().refPrice == 0 && View().queues == seq(K_LEVELS, _ => [])
      ensures forall slots: seq<Order> :: LadderOK(View(), slots, map[])
    {
      this.side := side;
      levels := new PriceLevel[K_LEVELS](_ => NO_ORDERS);
      refPrice := 0;
      best := -1;
      queues := seq(K_LEVELS, _ => []);
      new;
      assert forall i :: 0 <= i < K_LEVELS ==> levels[..][i] == NO_ORDERS;
      forall slots: seq<Order>
        ensures LadderOK(View(), slots, map[])
      {
        EmptyLadder(View(), slots);
      }
    }

    /** `insert_at` */
    method InsertAt(slots: array<Order>, o: int, idx: int, ghost m: map<u64, int>)
      requires LadderOK(View(), slots[..], m) && 0 <= o < slots.Length < TWO_32
      requires slots[o].orderRef !in m && slots[o].side == side
      requires 1 <= slots[o].price <= MAX_PRICE && refPrice != 0
      requires 0 <= idx < K_LEVELS && Offset(side, refPrice, slots[o].price) == idx
      modifies this, levels, slots
      ensures LadderOK(View(), slots[..], m[old(slots[o].orderRef) := o])
      ensures SideMoves(old(slots[..]), slots[..], side)
      ensures queues == old(queues)[idx := old(queues)[idx] + [o]] && refPrice == old(refPrice)
    {
      ghost var before := slots[..];
      slots[o] := slots[o].(levelIdx := idx);
      ghost var mid := slots[..];
      ghost var was := View();
      LadderFrame(was, before, mid, m);
      NotLinked(was, mid, m, o, idx);
      assert LevelOK(was, mid, m, idx);
      AddOrder(levels, idx, slots, o, queues[idx]);
      if best < 0 || idx < best {
        best := idx;
      }
      LadderInsert(was, mid, slots[..], m, o, idx, levels[idx]);
      InsertMoves(was, before, mid, slots[..], m, o, idx);
      queues := queues[idx := queues[idx] + [o]];
      assert View() == Inserted(was, idx, levels[idx], o);
    }

    /** `advance_best_bid` / `advance_best_ask`: scans for the next non-empty level. */
    method AdvanceBest()
      requires 0 <= best < K_LEVELS == levels.Length
      requires forall i :: 0 <= i <= best ==> levels[i].Empty()
      modifies this`best
      ensures BestOK(levels[..], best)
    {
      var i := best + 1;
      while i < K_LEVELS
        invariant 0 <= i <= K_LEVELS
        invariant forall j :: 0 <= j < i ==> levels[j].Empty()
      {
        if !levels[i].Empty() {
          best := i;
          return;
        }
        i := i + 1;
      }
      best := -1;
    }

    /** This side's half of `best_bid_offer`. */
    method Top() returns (price: u32, qty: u32)
      requires best < levels.Length == K_LEVELS
      ensures price == TopPrice(View()) && qty == TopQty(View())
    {
      price, qty := 0, 0;
      if best >= 0 {
        price := MachinePrice(side, refPrice, best);
        qty := levels[best].totalQty % TWO_32;
      }
    }

    /** The level part of `remove_order`: when the best level runs empty, the scan finds the next. */
    method Unlink(slots: array<Order>, o: int, idx: int, ghost q: seq<int>, ghost k: int)
      requires levels.Length == K_LEVELS && 0 <= idx < K_LEVELS && BestOK(levels[..], best)
      requires Linked(slots[..], levels[idx], q) && 0 <= k < |q| && q[k] == o
      modifies this`best, levels, slots
      ensures Linked(slots[..], levels[idx], Without(q, k))
      ensures levels[..] == old(levels[..])[idx := levels[idx]] && BestOK(levels[..], best)
      ensures Relinked(old(slots[..]), slots[..], q)
    {
      ghost var was := levels[..];
      RemoveOrder(levels, idx, slots, o, q, k);
      assert forall i :: 0 <= i < K_LEVELS && i != idx ==> levels[i] == was[i];
      if idx == best && levels[idx].Empty() {
        AdvanceBest();
      }
    }

    /** `remove_order`: unlinks a live in-window order; the caller then erases it from the map. */
    method Remove(slots: array<Order>, o: int, ghost m: map<u64, int>) returns (ghost k: int)
      requires LadderOK(View(), slots[..], m) && 0 <= o < slots.Length
      requires IsLive(slots[..], m, o) && slots[o].side == side && slots[o].levelIdx >= 0
      modifies this, levels, slots
      ensures RemovedFrom(old(View()), View(), old(slots[..]), slots[..], m, o, k)
    {
      ghost var before := slots[..];
      ghost var was := View();
      ghost var r := slots[o].orderRef;
      assert Registered(before, m, r) && InPlace(was, before, m, r);
      var idx := slots[o].levelIdx;
      assert LevelOK(was, before, m, idx);
      k :| 0 <= k < |queues[idx]| && queues[idx][k] == o;
      Unlink(slots, o, idx, queues[idx], k);
      ghost var mid := slots[..];
      LadderRemove(was, before, mid, m, r, idx, k, levels[idx], best);
      queues := queues[idx := Without(queues[idx], k)];
      assert View() == Relevelled(was, idx, levels[idx], queues[idx], best);
      slots[o] := slots[o].(levelIdx := STRANDED);
      RemoveMoves(was, before, mid, slots[..], m, r, idx);
      LadderFrame(View(), mid, slots[..], m - {r});
    }

    /** `reduce_shares` */
    method Reduce(slots: array<Order>, o: int, qty: u32, ghost m: map<u64, int>)
      requires LadderOK(View(), slots[..], m) && 0 <= o < slots.Length
      requires IsLive(slots[..], m, o) && slots[o].side == side && slots[o].levelIdx >= 0
      requires qty <= slots[o].shares
      modifies this, levels, slots
      ensures LadderOK(View(), slots[..], m)
      ensures slots[..] == old(slots[..])[o := old(slots[o]).(shares := old(slots[o].shares) - qty)]
      ensures queues == old(queues) && refPrice == old(refPrice)
    {
      ghost var before := slots[..];
      ghost var was := View();
      ghost var r := slots[o].orderRef;
      assert Registered(before, m, r) && InPlace(was, before, m, r);
      var idx := slots[o].levelIdx;
      assert LevelOK(was, before, m, idx);
      ghost var k :| 0 <= k < |queues[idx]| && queues[idx][k] == o;
      ReduceShares(levels, idx, slots, o, qty, queues[idx], k);
      LadderReduce(was, before, slots[..], m, r, levels[idx]);
    }

    /** `lvl = PriceLevel{}` for every level of the side. */
    method ClearLevels()
      requires levels.Length == K_LEVELS
      modifies this`best, this`queues, levels
      ensures best == -1 && queues == seq(K_LEVELS, _ => [])
      ensures forall i :: 0 <= i < K_LEVELS ==> levels[i] == NO_ORDERS
    {
      for i := 0 to K_LEVELS
        invariant forall j :: 0 <= j < i ==> levels[j] == NO_ORDERS
      {
        levels[i] := NO_ORDERS;
      }
      best := -1;
      queues := seq(K_LEVELS, _ => []);
    }

    /** The body of the recentring loop for one entry of the order map. */
    method Reindex(slots: array<Order>, o: int, ghost m: map<u64, int>)
      requires LadderOK(View(), slots[..], m) && 0 <= o < slots.Length < TWO_32 && refPrice != 0
      requires slots[o].orderRef !in m
      requires Registered(slots[..], m[slots[o].orderRef := o], slots[o].orderRef)
      modifies this, levels, slots
      ensures LadderOK(View(), slots[..], m[old(slots[o].orderRef) := o])
      ensures SideMoves(old(slots[..]), slots[..], side) && refPrice == old(refPrice)
    {
      ghost var before := slots[..];
      if slots[o].side != side {
        LadderExtend(View(), before, m, o);
      } else {
        slots[o] := slots[o].(next := NULL, prev := NULL, levelIdx := STRANDED);
        LadderFrame(View(), before, slots[..], m);
        var idx := MachineOffset(side, refPrice, slots[o].price);
        if 0 <= idx < K_LEVELS {
          InsertAt(slots, o, idx, m);
        } else {
          LadderExtend(View(), slots[..], m, o);
        }
      }
    }

    /** `recentre_bids` / `recentre_asks`: rebuilds the side around `newRef` from the order map,
        visiting its entries in an unspecified order. */
    method Recentre(slots: array<Order>, newRef: u32, orderMap: map<u64, int>)
      requires levels.Length == K_LEVELS && (side == 'B' || side == 'S')
      requires slots.Length < TWO_32 && Registry(slots[..], orderMap) && 1 <= newRef <= MAX_PRICE
      modifies this, levels, slots
      ensures LadderOK(View(), slots[..], orderMap)
      ensures SideMoves(old(slots[..]), slots[..], side) && refPrice == newRef
    {
      ClearLevels();
      refPrice := newRef;
      EmptyLadder(View(), slots[..]);
      var todo := orderMap.Keys;
      assert orderMap - todo == map[];
      ghost var start := slots[..];
      while todo != {}
        invariant todo <= orderMap.Keys
        invariant LadderOK(View(), slots[..], orderMap - todo)
        invariant SideMoves(start, slots[..], side) && refPrice == newRef
        decreases |todo|
      {
        var r :| r in todo;
        ghost var before := slots[..];
        RegistryMoves(start, before, orderMap, side);
        NextEntry(before, orderMap, todo, r);
        Reindex(slots, orderMap[r], orderMap - todo);
        todo := todo - {r};
        SideMovesTrans(start, before, slots[..], side);
      }
      assert orderMap - todo == orderMap;
    }

    /** `insert_order`: first use fixes the reference; a price off the window recentres the side. */
    method Insert(slots: array<Order>, o: int, orderMap: map<u64, int>)
      requires LadderOK(View(), slots[..], orderMap) && 0 <= o < slots.Length < TWO_32
      requires slots[o].orderRef !in orderMap && slots[o].side == side
      requires 1 <= slots[o].price <= MAX_PRICE
      modifies this, levels, slots
      ensures InsertedOn(old(View()), View(), old(slots[..]), slots[..], orderMap, o)
    {
      var price := slots[o].price;
      if refPrice == 0 {
        FirstRef(View(), slots[..], orderMap, price);
        refPrice := price;
      }
      var idx := MachineOffset(side, refPrice, price);
      if idx < 0 || idx >= K_LEVELS {
        Recentre(slots, price, orderMap);
        idx := MachineOffset(side, refPrice, price);
      }
      InsertAt(slots, o, idx, orderMap);
    }
  }

  /** A side that was never used holds nothing, so its reference may be set freely. */
  lemma FirstRef(l: Ladder, slots: seq<Order>, m: map<u64, int>, price: u32)
    requires LadderOK(l, slots, m) && l.refPrice == 0 && price <= MAX_PRICE
    ensures LadderOK(l.(refPrice := price), slots, m)
  {
    forall i | 0 <= i < K_LEVELS
      ensures LevelOK(l.(refPrice := price), slots, m, i)
    {
      assert LevelOK(l, slots, m, i);
      assert l.queues[i] != [] ==> Resident(l, slots, m, i, l.queues[i][0]);
      assert l.queues[i] != [] ==> InPlace(l, slots, m, slots[l.queues[i][0]].orderRef);
    }
    forall r | r in m
      ensures InPlace(l.(refPrice := price), slots, m, r)
    {
      assert InPlace(l, slots, m, r);
    }
  }

  lemma NextEntry(slots: seq<Order>, orderMap: map<u64, int>, todo: set<u64>, r: u64)
    requires Registry(slots, orderMap) && todo <= orderMap.Keys && r in todo
    ensures orderMap - (todo - {r}) == (orderMap - todo)[r := orderMap[r]]
    ensures 0 <= orderMap[r] < |slots| && slots[orderMap[r]].orderRef == r
    ensures Registered(slots, (orderMap - todo)[r := orderMap[r]], r)
  {
    assert Registered(slots, orderMap, r);
  }

  lemma SideMovesTrans(a: seq<Order>, b: seq<Order>, c: seq<Order>, sd: char)
    requires SideMoves(a, b, sd) && SideMoves(b, c, sd)
    ensures SideMoves(a, c, sd)
  {
    forall p | 0 <= p < |a|
      ensures SameOrder(a[p], c[p])
      ensures a[p].side != sd ==> c[p] == a[p]
    {
      assert SameOrder(a[p], b[p]) && SameOrder(b[p], c[p]);
    }
  }

  lemma RegistryMoves(slots: seq<Order>, slots': seq<Order>, m: map<u64, int>, sd: char)
    requires Registry(slots, m) && SideMoves(slots, slots', sd)
    ensures Registry(slots', m)
  {
    forall r | r in m
      ensures Registered(slots', m, r)
    {
      assert Registered(slots, m, r);
    }
  }

  lemma RemoveMoves(l: Ladder, before: seq<Order>, mid: seq<Order>, after: seq<Order>, m: map<u64, int>,
                    r: u64, i: int)
    requires LadderOK(l, before, m) && r in m && 0 <= i < K_LEVELS && before[m[r]].side == l.side
    requires Relinked(before, mid, l.queues[i])
    requires after == mid[m[r] := mid[m[r]].(levelIdx := STRANDED)]
    ensures SideMoves(before, after, l.side)
    ensures Registry(after, m - {r})
    ensures forall x :: x in m - {r} ==> m[x] != m[r]
  {
    QueueSide(l, before, m, i);
    assert Registered(before, m, r);
    forall x | x in m
      ensures Registered(after, m, x)
      ensures m[x] == m[r] ==> x == r
    {
      assert Registered(before, m, x);
    }
    forall x | x in m - {r}
      ensures Registered(after, m - {r}, x)
    {
      assert Registered(after, m, x);
    }
  }

  lemma EmptyLadder(l: Ladder, slots: seq<Order>)
    requires Shape(l) && l.best == -1
    requires forall i :: 0 <= i < K_LEVELS ==> l.levels[i] == NO_ORDERS && l.queues[i] == []
    ensures LadderOK(l, slots, map[])
  {
    forall i | 0 <= i < K_LEVELS
      ensures LevelOK(l, slots, map[], i)
    {
    }
  }

  lemma InsertMoves(l: Ladder, before: seq<Order>, mid: seq<Order>, after: seq<Order>, m: map<u64, int>,
                    o: int, i: int)
    requires LadderOK(l, mid, m) && 0 <= o < |before| && 0 <= i < K_LEVELS && before[o].side == l.side
    requires mid == before[o := before[o].(levelIdx := i)]
    requires Relinked(mid, after, l.queues[i] + [o])
    ensures SideMoves(before, after, l.side)
  {
    QueueSide(l, mid, m, i);
  }

  /** Every node listed at a level is on the side. */
  lemma QueueSide(l: Ladder, slots: seq<Order>, m: map<u64, int>, i: int)
    requires LadderOK(l, slots, m) && 0 <= i < K_LEVELS
    ensures forall p :: p in l.queues[i] ==> 0 <= p < |slots| && slots[p].side == l.side
  {
    assert LevelOK(l, slots, m, i);
    forall p | p in l.queues[i]
      ensures 0 <= p < |slots| && slots[p].side == l.side
    {
      var k :| 0 <= k < |l.queues[i]| && l.queues[i][k] == p;
      assert Resident(l, slots, m, i, l.queues[i][k]);
    }
  }
}
