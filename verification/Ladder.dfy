/** One side of the book: a fixed window of price levels below (bids) or above (asks) a movable
    reference price, and what it means for the window to index a map of orders exactly. */
module Ladders {
  import opened Machine
  import opened Slab
  import opened PriceLevels
  import opened Windows

  /** Snapshot of a side; `queues[i]` is the list of nodes linked at level `i`. */
  datatype Ladder = Ladder(
    side: char, refPrice: u32, best: int, levels: seq<PriceLevel>, queues: seq<seq<int>>)

  /** Entry `r` of the order map points at the live node of that reference. */
  ghost predicate Registered(slots: seq<Order>, m: map<u64, int>, r: u64)
    requires r in m
  {
    && 0 <= m[r] < |slots|
    && slots[m[r]].orderRef == r
    && (slots[m[r]].side == 'B' || slots[m[r]].side == 'S')
    && 1 <= slots[m[r]].price <= MAX_PRICE
  }

  ghost predicate Registry(slots: seq<Order>, m: map<u64, int>) {
    forall r :: r in m ==> Registered(slots, m, r)
  }

  predicate IsLive(slots: seq<Order>, m: map<u64, int>, p: int)
    requires 0 <= p < |slots|
  {
    slots[p].orderRef in m && m[slots[p].orderRef] == p
  }

  /** Node `p` belongs at level `i`. */
  ghost predicate Resident(l: Ladder, slots: seq<Order>, m: map<u64, int>, i: int, p: int) {
    && 0 <= p < |slots|
    && IsLive(slots, m, p)
    && slots[p].side == l.side
    && slots[p].levelIdx == i
    && Offset(l.side, l.refPrice, slots[p].price) == i
  }

  ghost predicate LevelOK(l: Ladder, slots: seq<Order>, m: map<u64, int>, i: int)
    requires 0 <= i < |l.levels| && i < |l.queues|
  {
    && Linked(slots, l.levels[i], l.queues[i])
    && (forall k :: 0 <= k < |l.queues[i]| ==> Resident(l, slots, m, i, l.queues[i][k]))
  }

  /** A live order of this side is linked at the level of its price, or stranded off the window. */
  ghost predicate InPlace(l: Ladder, slots: seq<Order>, m: map<u64, int>, r: u64)
    requires r in m && 0 <= m[r] < |slots| && |l.queues| == K_LEVELS
  {
    var node := slots[m[r]];
    node.side == l.side ==>
      && l.refPrice != 0
      && if InWindow(l.side, l.refPrice, node.price)
         then node.levelIdx == Offset(l.side, l.refPrice, node.price) && m[r] in l.queues[node.levelIdx]
         else node.levelIdx == STRANDED
  }

  /** `best` is the least non-empty level, or -1 when every level is empty. */
  ghost predicate BestOK(levels: seq<PriceLevel>, best: int) {
    && -1 <= best < |levels|
    && (best >= 0 ==> !levels[best].Empty())
    && (forall i :: 0 <= i < |levels| && (best < 0 || i < best) ==> levels[i].Empty())
  }

  ghost predicate Shape(l: Ladder) {
    && |l.levels| == K_LEVELS && |l.queues| == K_LEVELS
    && (l.side == 'B' || l.side == 'S')
    && l.refPrice <= MAX_PRICE
  }

  /** The side indexes exactly the orders of `m` that are on it. */
  ghost predicate LadderOK(l: Ladder, slots: seq<Order>, m: map<u64, int>) {
    && Shape(l)
    && Registry(slots, m)
    && (forall i :: 0 <= i < K_LEVELS ==> LevelOK(l, slots, m, i))
    && (forall r :: r in m ==> InPlace(l, slots, m, r))
    && BestOK(l.levels, l.best)
  }

  /** The price and quantity that `best_bid_offer` publishes for the side. */
  function TopPrice(l: Ladder): u32
    requires l.best < TWO_32
  {
    if l.best < 0 then 0 else MachinePrice(l.side, l.refPrice, l.best)
  }

  function TopQty(l: Ladder): u32
    requires l.best < |l.levels|
  {
    if l.best < 0 then 0 else l.levels[l.best].totalQty % TWO_32
  }

  // ----- operations on a side, seen on values

  /** Slots may change as long as no live order of this side does. */
  lemma LadderFrame(l: Ladder, slots: seq<Order>, slots': seq<Order>, m: map<u64, int>)
    requires LadderOK(l, slots, m) && |slots'| == |slots| && Registry(slots', m)
    requires forall r :: r in m && (slots[m[r]].side == l.side || slots'[m[r]].side == l.side) ==>
      slots'[m[r]] == slots[m[r]]
    ensures LadderOK(l, slots', m)
  {
    forall i | 0 <= i < K_LEVELS
      ensures LevelOK(l, slots', m, i)
    {
      LevelFrame(l, l, slots, slots', m, m, i);
    }
    forall r | r in m
      ensures InPlace(l, slots', m, r)
    {
      assert InPlace(l, slots, m, r);
    }
  }

  /** A level none of whose nodes change. */
  lemma LevelFrame(l: Ladder, l': Ladder, slots: seq<Order>, slots': seq<Order>,
                   m: map<u64, int>, m': map<u64, int>, i: int)
    requires Shape(l) && Shape(l') && 0 <= i < K_LEVELS && LevelOK(l, slots, m, i)
    requires l'.levels[i] == l.levels[i] && l'.queues[i] == l.queues[i]
    requires l'.side == l.side && l'.refPrice == l.refPrice && |slots'| == |slots|
    requires forall k :: 0 <= k < |l.queues[i]| ==>
      var p := l.queues[i][k]; slots'[p] == slots[p] && IsLive(slots', m', p)
    ensures LevelOK(l', slots', m', i)
  {
    LinkedFrame(slots, slots', l.levels[i], l.queues[i]);
    forall k | 0 <= k < |l.queues[i]|
      ensures Resident(l', slots', m', i, l'.queues[i][k])
    {
      assert Resident(l, slots, m, i, l.queues[i][k]);
    }
  }

  /** A live order that is not linked on this side joins the map. */
  lemma LadderExtend(l: Ladder, slots: seq<Order>, m: map<u64, int>, o: int)
    requires LadderOK(l, slots, m) && 0 <= o < |slots| && slots[o].orderRef !in m
    requires Registered(slots, m[slots[o].orderRef := o], slots[o].orderRef)
    requires slots[o].side == l.side ==>
      l.refPrice != 0 && !InWindow(l.side, l.refPrice, slots[o].price) && slots[o].levelIdx == STRANDED
    ensures LadderOK(l, slots, m[slots[o].orderRef := o])
  {
    var m' := m[slots[o].orderRef := o];
    forall i | 0 <= i < K_LEVELS
      ensures LevelOK(l, slots, m', i)
    {
      assert LevelOK(l, slots, m, i);
      forall k | 0 <= k < |l.queues[i]|
        ensures Resident(l, slots, m', i, l.queues[i][k])
      {
        assert Resident(l, slots, m, i, l.queues[i][k]);
      }
    }
    forall r | r in m'
      ensures Registered(slots, m', r) && InPlace(l, slots, m', r)
    {
      if r in m { assert Registered(slots, m, r) && InPlace(l, slots, m, r); }
    }
  }

  /** A node outside the map is on no list. */
  lemma NotLinked(l: Ladder, slots: seq<Order>, m: map<u64, int>, o: int, i: int)
    requires LadderOK(l, slots, m) && 0 <= o < |slots| && !IsLive(slots, m, o) && 0 <= i < K_LEVELS
    ensures o !in l.queues[i]
  {
    assert LevelOK(l, slots, m, i);
    forall k | 0 <= k < |l.queues[i]|
      ensures l.queues[i][k] != o
    {
      assert Resident(l, slots, m, i, l.queues[i][k]);
    }
  }

  /** The ladder after level `i` got the list `q`. */
  ghost function Relevelled(l: Ladder, i: int, lvl: PriceLevel, q: seq<int>, best: int): Ladder
    requires Shape(l) && 0 <= i < K_LEVELS
  {
    l.(levels := l.levels[i := lvl], queues := l.queues[i := q], best := best)
  }

  /** The nodes of a level that an operation on level `i` does not touch. */
  lemma OtherLevel(l: Ladder, l': Ladder, slots: seq<Order>, slots': seq<Order>,
                   m: map<u64, int>, m': map<u64, int>, i: int, j: int, r: u64)
    requires LadderOK(l, slots, m) && Shape(l') && 0 <= i < K_LEVELS && 0 <= j < K_LEVELS && i != j
    requires l'.side == l.side && l'.refPrice == l.refPrice
    requires l'.levels[j] == l.levels[j] && l'.queues[j] == l.queues[j]
    requires |slots'| == |slots|
    requires forall p :: 0 <= p < |slots| && slots[p].levelIdx != i ==> slots'[p] == slots[p]
    requires r in m ==> slots[m[r]].levelIdx == i
    requires forall x :: x in m && x != r ==> x in m' && m'[x] == m[x]
    ensures LevelOK(l', slots', m', j)
  {
    assert LevelOK(l, slots, m, j);
    forall k | 0 <= k < |l.queues[j]|
      ensures var p := l.queues[j][k]; slots'[p] == slots[p] && IsLive(slots', m', p)
    {
      assert Resident(l, slots, m, j, l.queues[j][k]);
    }
    LevelFrame(l, l', slots, slots', m, m', j);
  }

  /** Relinking the list of level `i` leaves every node of another level alone. */
  lemma TouchesOnly(l: Ladder, slots: seq<Order>, slots': seq<Order>, m: map<u64, int>, i: int, q: seq<int>)
    requires LadderOK(l, slots, m) && 0 <= i < K_LEVELS
    requires Relinked(slots, slots', q)
    requires forall p :: p in q ==> p in l.queues[i] || (0 <= p < |slots| && slots[p].levelIdx == i)
    ensures forall p :: 0 <= p < |slots| && slots[p].levelIdx != i ==> slots'[p] == slots[p]
  {
    assert LevelOK(l, slots, m, i);
    forall p | 0 <= p < |slots| && p in l.queues[i]
      ensures slots[p].levelIdx == i
    {
      var k :| 0 <= k < |l.queues[i]| && l.queues[i][k] == p;
      assert Resident(l, slots, m, i, l.queues[i][k]);
    }
  }

  /** `insert_at`: order `o` joins the back of level `i`, the level of its price. */
  ghost function Inserted(l: Ladder, i: int, lvl: PriceLevel, o: int): Ladder
    requires Shape(l) && 0 <= i < K_LEVELS
  {
    Relevelled(l, i, lvl, l.queues[i] + [o], if l.best < 0 || i < l.best then i else l.best)
  }

  lemma InsertedLevel(l: Ladder, slots: seq<Order>, slots': seq<Order>, m: map<u64, int>, o: int, i: int,
                      lvl: PriceLevel)
    requires LadderOK(l, slots, m) && 0 <= o < |slots| && 0 <= i < K_LEVELS
    requires slots[o].orderRef !in m && slots[o].side == l.side && slots[o].levelIdx == i
    requires Offset(l.side, l.refPrice, slots[o].price) == i
    requires Relinked(slots, slots', l.queues[i] + [o])
    requires Linked(slots', lvl, l.queues[i] + [o])
    ensures LevelOK(Inserted(l, i, lvl, o), slots', m[slots[o].orderRef := o], i)
  {
    var m', l' := m[slots[o].orderRef := o], Inserted(l, i, lvl, o);
    assert LevelOK(l, slots, m, i);
    forall k | 0 <= k < |l'.queues[i]|
      ensures Resident(l', slots', m', i, l'.queues[i][k])
    {
      if k < |l.queues[i]| { assert Resident(l, slots, m, i, l.queues[i][k]); }
    }
  }

  lemma LadderInsert(l: Ladder, slots: seq<Order>, slots': seq<Order>, m: map<u64, int>, o: int, i: int,
                     lvl: PriceLevel)
    requires LadderOK(l, slots, m) && 0 <= o < |slots| && 0 <= i < K_LEVELS
    requires slots[o].orderRef !in m && slots[o].side == l.side && slots[o].levelIdx == i
    requires 1 <= slots[o].price <= MAX_PRICE && l.refPrice != 0
    requires Offset(l.side, l.refPrice, slots[o].price) == i
    requires Relinked(slots, slots', l.queues[i] + [o])
    requires Linked(slots', lvl, l.queues[i] + [o])
    ensures LadderOK(Inserted(l, i, lvl, o), slots', m[slots[o].orderRef := o])
  {
    var m', l' := m[slots[o].orderRef := o], Inserted(l, i, lvl, o);
    TouchesOnly(l, slots, slots', m, i, l.queues[i] + [o]);
    InsertedLevel(l, slots, slots', m, o, i, lvl);
    forall j | 0 <= j < K_LEVELS
      ensures LevelOK(l', slots', m', j)
    {
      if j != i { OtherLevel(l, l', slots, slots', m, m', i, j, slots[o].orderRef); }
    }
    forall r | r in m'
      ensures Registered(slots', m', r) && InPlace(l', slots', m', r)
    {
      if r in m { assert Registered(slots, m, r) && InPlace(l, slots, m, r); }
    }
  }

  /** `remove_order` and the erasure from the map: order `r` leaves position `k` of level `i`. */
  ghost predicate Leaves(l: Ladder, slots: seq<Order>, slots': seq<Order>, m: map<u64, int>, r: u64,
                         i: int, k: int, lvl: PriceLevel)
    requires Shape(l) && Registry(slots, m) && r in m
  {
    && slots[m[r]].side == l.side && slots[m[r]].levelIdx == i && 0 <= i < K_LEVELS
    && 0 <= k < |l.queues[i]| && l.queues[i][k] == m[r]
    && Relinked(slots, slots', l.queues[i])
    && Linked(slots', lvl, Without(l.queues[i], k))
  }

  lemma RemovedLevel(l: Ladder, slots: seq<Order>, slots': seq<Order>, m: map<u64, int>, r: u64,
                     i: int, k: int, lvl: PriceLevel, best: int)
    requires LadderOK(l, slots, m) && r in m && Leaves(l, slots, slots', m, r, i, k, lvl)
    ensures LevelOK(Relevelled(l, i, lvl, Without(l.queues[i], k), best), slots', m - {r}, i)
  {
    var l' := Relevelled(l, i, lvl, Without(l.queues[i], k), best);
    assert LevelOK(l, slots, m, i);
    assert Registered(slots, m, r);
    forall h | 0 <= h < |l'.queues[i]|
      ensures Resident(l', slots', m - {r}, i, l'.queues[i][h])
    {
      var h' := if h < k then h else h + 1;
      assert l'.queues[i][h] == l.queues[i][h'];
      assert Resident(l, slots, m, i, l.queues[i][h']);
    }
  }

  lemma LadderRemove(l: Ladder, slots: seq<Order>, slots': seq<Order>, m: map<u64, int>, r: u64,
                     i: int, k: int, lvl: PriceLevel, best: int)
    requires LadderOK(l, slots, m) && r in m && Leaves(l, slots, slots', m, r, i, k, lvl)
    requires BestOK(l.levels[i := lvl], best)
    ensures LadderOK(Relevelled(l, i, lvl, Without(l.queues[i], k), best), slots', m - {r})
  {
    var m' := m - {r};
    var l' := Relevelled(l, i, lvl, Without(l.queues[i], k), best);
    TouchesOnly(l, slots, slots', m, i, l.queues[i]);
    RemovedLevel(l, slots, slots', m, r, i, k, lvl, best);
    forall j | 0 <= j < K_LEVELS
      ensures LevelOK(l', slots', m', j)
    {
      if j != i { OtherLevel(l, l', slots, slots', m, m', i, j, r); }
    }
    forall x | x in m'
      ensures Registered(slots', m', x) && InPlace(l', slots', m', x)
    {
      assert Registered(slots, m, x) && InPlace(l, slots, m, x) && Registered(slots, m, r);
      if slots[m[x]].side == l.side && slots[m[x]].levelIdx == i {
        StaysIn(l.queues[i], k, m[x]);
      }
    }
  }

  lemma StaysIn(q: seq<int>, k: int, p: int)
    requires 0 <= k < |q| && p in q && q[k] != p
    ensures p in Without(q, k)
  {
    var j :| 0 <= j < |q| && q[j] == p;
    assert Without(q, k)[if j < k then j else j - 1] == p;
  }

  /** `reduce_shares`: only the order's shares and its level's quantity change. */
  lemma LadderReduce(l: Ladder, slots: seq<Order>, slots': seq<Order>, m: map<u64, int>, r: u64, lvl: PriceLevel)
    requires LadderOK(l, slots, m) && r in m && slots[m[r]].side == l.side
    requires 0 <= slots[m[r]].levelIdx < K_LEVELS && |slots'| == |slots|
    requires slots' == slots[m[r] := slots[m[r]].(shares := slots'[m[r]].shares)]
    requires Linked(slots', lvl, l.queues[slots[m[r]].levelIdx])
    ensures LadderOK(l.(levels := l.levels[slots[m[r]].levelIdx := lvl]), slots', m)
  {
    var i := slots[m[r]].levelIdx;
    var l' := l.(levels := l.levels[i := lvl]);
    assert LevelOK(l, slots, m, i);
    assert Registered(slots, m, r) && InPlace(l, slots, m, r);
    forall j | 0 <= j < K_LEVELS
      ensures LevelOK(l', slots', m, j)
    {
      assert LevelOK(l, slots, m, j);
      if j == i {
        forall k | 0 <= k < |l.queues[i]|
          ensures Resident(l', slots', m, i, l'.queues[i][k])
        {
          assert Resident(l, slots, m, i, l.queues[i][k]);
        }
      } else {
        forall k | 0 <= k < |l.queues[j]|
          ensures var p := l.queues[j][k]; slots'[p] == slots[p] && IsLive(slots', m, p)
        {
          assert Resident(l, slots, m, j, l.queues[j][k]);
        }
        LevelFrame(l, l', slots, slots', m, m, j);
      }
    }
    forall x | x in m
      ensures Registered(slots', m, x) && InPlace(l', slots', m, x)
    {
      assert Registered(slots, m, x) && InPlace(l, slots, m, x);
    }
  }
}
