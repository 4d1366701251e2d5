/** One price level: an intrusive FIFO list of slab nodes with its aggregates.
    `q` is always the list from `head` (oldest) to `tail` (newest). */
module PriceLevels {
  import opened Machine
  import opened Slab

  datatype PriceLevel = PriceLevel(totalQty: u64, orderCount: u32, head: int, tail: int) {
    predicate Empty() { orderCount == 0 }
  }

  const NO_ORDERS: PriceLevel := PriceLevel(0, 0, NULL, NULL)

  ghost function SumShares(slots: seq<Order>, q: seq<int>): nat
    requires WithinSlab(|slots|, q)
  {
    if q == [] then 0 else SumShares(slots, q[..|q| - 1]) + slots[q[|q| - 1]].shares
  }

  /** The node at position `k` points at its neighbours in `q`. */
  ghost predicate Joined(slots: seq<Order>, q: seq<int>, k: int)
    requires WithinSlab(|slots|, q) && 0 <= k < |q|
  {
    slots[q[k]].next == After(q, k) && slots[q[k]].prev == Before(q, k)
  }

  /** Acyclic, and `next`/`prev` of every node point at its neighbours. */
  ghost predicate Chain(slots: seq<Order>, q: seq<int>) {
    && Distinct(q)
    && WithinSlab(|slots|, q)
    && (forall k :: 0 <= k < |q| ==> Joined(slots, q, k))
  }

  /** The level record describes exactly the list `q`; the sums are the mathematical ones. */
  ghost predicate Linked(slots: seq<Order>, lvl: PriceLevel, q: seq<int>) {
    && Chain(slots, q)
    && lvl.head == First(q)
    && lvl.tail == Last(q)
    && lvl.orderCount == |q|
    && lvl.totalQty == SumShares(slots, q)
  }

  /** What identifies a resting order, as opposed to where it is linked. */
  predicate SameOrder(a: Order, b: Order) {
    a.orderRef == b.orderRef && a.shares == b.shares && a.price == b.price && a.side == b.side
  }

  /** Only `next` and `prev` may differ, and only in nodes of `q`. */
  ghost predicate Relinked(slots: seq<Order>, slots': seq<Order>, q: seq<int>) {
    && |slots'| == |slots|
    && (forall p :: 0 <= p < |slots| ==>
      slots'[p] == slots[p].(next := slots'[p].next, prev := slots'[p].prev))
    && (forall p :: 0 <= p < |slots| && p !in q ==> slots'[p] == slots[p])
  }

  lemma {:induction false} SumSharesFrame(slots: seq<Order>, slots': seq<Order>, q: seq<int>)
    requires WithinSlab(|slots|, q) && |slots'| == |slots|
    requires forall k :: 0 <= k < |q| ==> slots'[q[k]].shares == slots[q[k]].shares
    ensures SumShares(slots', q) == SumShares(slots, q)
  {
    if q != [] {
      SumSharesFrame(slots, slots', q[..|q| - 1]);
    }
  }

  lemma SumSharesAppend(slots: seq<Order>, q: seq<int>, o: int)
    requires WithinSlab(|slots|, q) && 0 <= o < |slots|
    ensures SumShares(slots, q + [o]) == SumShares(slots, q) + slots[o].shares
  {
    assert (q + [o])[..|q|] == q;
  }

  function Without(q: seq<int>, k: int): seq<int>
    requires 0 <= k < |q|
  {
    q[..k] + q[k + 1..]
  }

  lemma {:induction false} SumSharesWithout(slots: seq<Order>, q: seq<int>, k: int)
    requires WithinSlab(|slots|, q) && 0 <= k < |q|
    ensures SumShares(slots, Without(q, k)) == SumShares(slots, q) - slots[q[k]].shares
  {
    var n := |q| - 1;
    if k == n {
      assert Without(q, k) == q[..n];
    } else {
      SumSharesWithout(slots, q[..n], k);
      assert Without(q, k) == Without(q[..n], k) + [q[n]];
      SumSharesAppend(slots, Without(q[..n], k), q[n]);
    }
  }

  lemma {:induction false} SumSharesBound(slots: seq<Order>, q: seq<int>)
    requires WithinSlab(|slots|, q)
    ensures SumShares(slots, q) <= |q| * (TWO_32 - 1)
    ensures forall k :: 0 <= k < |q| ==> slots[q[k]].shares <= SumShares(slots, q)
  {
    if q != [] {
      SumSharesBound(slots, q[..|q| - 1]);
      assert forall k :: 0 <= k < |q| - 1 ==> q[..|q| - 1][k] == q[k];
    }
  }

  /** Neither aggregate of a level can overflow its machine width. */
  lemma AggregatesFit(slots: seq<Order>, q: seq<int>)
    requires Distinct(q) && WithinSlab(|slots|, q) && |slots| < TWO_32
    ensures |q| <= |slots|
    ensures SumShares(slots, q) < TWO_64
  {
    DistinctFits(|slots|, q);
    SumSharesBound(slots, q);
  }

  lemma LinkedFrame(slots: seq<Order>, slots': seq<Order>, lvl: PriceLevel, q: seq<int>)
    requires Linked(slots, lvl, q) && |slots'| == |slots|
    requires forall k :: 0 <= k < |q| ==> slots'[q[k]] == slots[q[k]]
    ensures Linked(slots', lvl, q)
  {
    SumSharesFrame(slots, slots', q);
    forall k | 0 <= k < |q|
      ensures Joined(slots', q, k)
    {
      assert Joined(slots, q, k);
    }
  }

  /** Appending a node behind the tail. */
  lemma ChainAppend(slots: seq<Order>, slots': seq<Order>, q: seq<int>, o: int)
    requires Chain(slots, q) && 0 <= o < |slots| && o !in q
    requires |slots'| == |slots|
    requires slots'[o].next == NULL && slots'[o].prev == Last(q)
    requires forall k :: 0 <= k < |q| - 1 ==> slots'[q[k]] == slots[q[k]]
    requires q != [] ==> slots'[q[|q| - 1]] == slots[q[|q| - 1]].(next := o)
    ensures Chain(slots', q + [o])
  {
    var q' := q + [o];
    forall k | 0 <= k < |q'|
      ensures Joined(slots', q', k)
    {
      if k < |q| {
        assert Joined(slots, q, k);
      }
    }
  }

  /** Unlinking the node at position `k`: its neighbours are joined. */
  lemma ChainWithout(slots: seq<Order>, slots': seq<Order>, q: seq<int>, k: int)
    requires Chain(slots, q) && 0 <= k < |q|
    requires |slots'| == |slots|
    requires k > 0 ==> slots'[q[k - 1]] == slots[q[k - 1]].(next := After(q, k))
    requires k + 1 < |q| ==> slots'[q[k + 1]] == slots[q[k + 1]].(prev := Before(q, k))
    requires forall j :: 0 <= j < |q| && j != k - 1 && j != k && j != k + 1 ==> slots'[q[j]] == slots[q[j]]
    ensures Chain(slots', Without(q, k))
  {
    var q' := Without(q, k);
    forall j | 0 <= j < |q'|
      ensures Joined(slots', q', j)
    {
      var i := if j < k then j else j + 1;
      assert q'[j] == q[i];
      assert Joined(slots, q, i);
    }
  }

  lemma AppendLinked(slots: seq<Order>, slots': seq<Order>, lvl: PriceLevel, lvl': PriceLevel,
                     q: seq<int>, o: int)
    requires Linked(slots, lvl, q) && 0 <= o < |slots| && o !in q
    requires |slots'| == |slots|
    requires slots' == if q == [] then slots[o := slots'[o]]
                       else slots[o := slots'[o]][lvl.tail := slots[lvl.tail].(next := o)]
    requires slots'[o] == slots[o].(prev := lvl.tail, next := NULL)
    requires lvl'.head == (if q == [] then o else lvl.head) && lvl'.tail == o
    requires lvl'.orderCount == lvl.orderCount + 1
    requires lvl'.totalQty == lvl.totalQty + slots[o].shares
    ensures Linked(slots', lvl', q + [o])
    ensures Relinked(slots, slots', q + [o])
  {
    ChainAppend(slots, slots', q, o);
    SumSharesAppend(slots, q, o);
    SumSharesFrame(slots, slots', q + [o]);
  }

  lemma RemoveLinked(slots: seq<Order>, slots': seq<Order>, lvl: PriceLevel, lvl': PriceLevel,
                     q: seq<int>, k: int)
    requires Linked(slots, lvl, q) && 0 <= k < |q| && |slots'| == |slots|
    requires k > 0 ==> slots'[q[k - 1]] == slots[q[k - 1]].(next := After(q, k))
    requires k + 1 < |q| ==> slots'[q[k + 1]] == slots[q[k + 1]].(prev := Before(q, k))
    requires slots'[q[k]] == slots[q[k]].(next := NULL, prev := NULL)
    requires forall p :: 0 <= p < |slots| && p != q[k] && p != Before(q, k) && p != After(q, k) ==>
      slots'[p] == slots[p]
    requires lvl'.head == (if k == 0 then After(q, k) else lvl.head)
    requires lvl'.tail == (if k + 1 == |q| then Before(q, k) else lvl.tail)
    requires lvl'.orderCount == lvl.orderCount - 1
    requires lvl'.totalQty == lvl.totalQty - slots[q[k]].shares
    ensures Linked(slots', lvl', Without(q, k))
    ensures Relinked(slots, slots', q)
  {
    assert Before(q, k) != NULL ==> Before(q, k) in q;
    assert After(q, k) != NULL ==> After(q, k) in q;
    ChainWithout(slots, slots', q, k);
    SumSharesWithout(slots, q, k);
    SumSharesFrame(slots, slots', Without(q, k));
  }

  lemma ReduceLinked(slots: seq<Order>, lvl: PriceLevel, lvl': PriceLevel, q: seq<int>, k: int, qty: u32)
    requires Linked(slots, lvl, q) && 0 <= k < |q| && qty <= slots[q[k]].shares
    requires qty <= lvl.totalQty && lvl' == lvl.(totalQty := lvl.totalQty - qty)
    ensures Linked(slots[q[k] := slots[q[k]].(shares := slots[q[k]].shares - qty)], lvl', q)
  {
    var slots' := slots[q[k] := slots[q[k]].(shares := slots[q[k]].shares - qty)];
    SumSharesWithout(slots, q, k);
    SumSharesWithout(slots', q, k);
    SumSharesFrame(slots, slots', Without(q, k));
    forall j | 0 <= j < |q|
      ensures Joined(slots', q, j)
    {
      assert Joined(slots, q, j);
    }
  }

  /** The code's own bounds on the aggregates, so that none of its arithmetic wraps. */
  lemma LevelBounds(slots: seq<Order>, lvl: PriceLevel, q: seq<int>, k: int)
    requires Linked(slots, lvl, q) && 0 <= k < |q|
    ensures lvl.orderCount > 0 && slots[q[k]].shares <= lvl.totalQty
    ensures slots[q[k]].next == After(q, k) && slots[q[k]].prev == Before(q, k)
  {
    SumSharesBound(slots, q);
    assert Joined(slots, q, k);
  }

  /** `PriceLevel::add_order` on `levels[idx]`. */
  method AddOrder(levels: array<PriceLevel>, idx: int, slots: array<Order>, o: int, ghost q: seq<int>)
    requires 0 <= idx < levels.Length && 0 <= o < slots.Length < TWO_32
    requires Linked(slots[..], levels[idx], q) && o !in q
    modifies levels, slots
    ensures Linked(slots[..], levels[idx], q + [o])
    ensures levels[..] == old(levels[..])[idx := levels[idx]]
    ensures Relinked(old(slots[..]), slots[..], q + [o])
  {
    ghost var before := slots[..];
    AggregatesFit(before, q + [o]);
    SumSharesAppend(before, q, o);
    var lvl := levels[idx];
    slots[o] := slots[o].(prev := lvl.tail, next := NULL);
    if lvl.tail != NULL {
      slots[lvl.tail] := slots[lvl.tail].(next := o);
    } else {
      lvl := lvl.(head := o);
    }
    levels[idx] := lvl.(tail := o,
                        totalQty := Add64(lvl.totalQty, slots[o].shares),
                        orderCount := Add32(lvl.orderCount, 1));
    AppendLinked(before, slots[..], old(levels[idx]), levels[idx], q, o);
  }

  /** `PriceLevel::remove_order` on `levels[idx]`; the node is the one at position `k`. */
  method RemoveOrder(levels: array<PriceLevel>, idx: int, slots: array<Order>, o: int,
                     ghost q: seq<int>, ghost k: int)
    requires 0 <= idx < levels.Length
    requires Linked(slots[..], levels[idx], q) && 0 <= k < |q| && q[k] == o
    modifies levels, slots
    ensures Linked(slots[..], levels[idx], Without(q, k))
    ensures levels[..] == old(levels[..])[idx := levels[idx]]
    ensures Relinked(old(slots[..]), slots[..], q)
    ensures slots[o].next == NULL && slots[o].prev == NULL
  {
    ghost var before := slots[..];
    LevelBounds(before, levels[idx], q, k);
    var lvl := levels[idx];
    var prev, next := slots[o].prev, slots[o].next;
    if prev != NULL {
      slots[prev] := slots[prev].(next := next);
    } else {
      lvl := lvl.(head := next);
    }
    if next != NULL {
      slots[next] := slots[next].(prev := prev);
    } else {
      lvl := lvl.(tail := prev);
    }
    levels[idx] := lvl.(totalQty := Sub64(lvl.totalQty, slots[o].shares),
                        orderCount := Sub32(lvl.orderCount, 1));
    slots[o] := slots[o].(next := NULL, prev := NULL);
    RemoveLinked(before, slots[..], old(levels[idx]), levels[idx], q, k);
  }

  /** `PriceLevel::reduce_shares` on `levels[idx]`. */
  method ReduceShares(levels: array<PriceLevel>, idx: int, slots: array<Order>, o: int, qty: u32,
                      ghost q: seq<int>, ghost k: int)
    requires 0 <= idx < levels.Length
    requires Linked(slots[..], levels[idx], q) && 0 <= k < |q| && q[k] == o
    requires qty <= slots[o].shares
    modifies levels, slots
    ensures Linked(slots[..], levels[idx], q)
    ensures levels[..] == old(levels[..])[idx := levels[idx]]
    ensures slots[..] == old(slots[..])[o := old(slots[o]).(shares := old(slots[o].shares) - qty)]
  {
    LevelBounds(slots[..], levels[idx], q, k);
    ReduceLinked(slots[..], levels[idx], levels[idx].(totalQty := levels[idx].totalQty - qty), q, k, qty);
    slots[o] := slots[o].(shares := Sub32(slots[o].shares, qty));
    levels[idx] := levels[idx].(totalQty := Sub64(levels[idx].totalQty, qty));
  }
}
