/** The whole book as a value: what it means for the redundant structures to agree, the market
    they represent, and that each step of a handler keeps both. */
module Books {
  import opened Machine
  import opened Slab
  import opened PriceLevels
  import opened Windows
  import opened Ladders
  import opened BookSides
  import opened Markets

  /** Specification state: when each live order arrived, and the clock at the last recentring of each
      side since the last halt. */
  datatype Journal = Journal(arrival: map<u64, nat>, clock: nat, bidSince: nat, askSince: nat)

  const NEW_JOURNAL: Journal := Journal(map[], 0, 0, 0)

  /** Snapshot of an order book; `free` is the free list. */
  datatype Book = Book(
    slots: seq<Order>, freeHead: int, free: seq<int>, live: map<u64, int>, bids: Ladder, asks: Ladder,
    open: bool, log: Journal)

  ghost function Stamp(arrival: map<u64, nat>, ref: u64): nat {
    if ref in arrival then arrival[ref] else 0
  }

  /** An order that arrived at `a` may stand in front of one that arrived at `b`: it is older, unless a
      recentring at `since` has relisted both. */
  predicate MayPrecede(since: nat, a: nat, b: nat) {
    a < b || (a < since && b < since)
  }

  /** The list is in order of arrival, up to what the recentring at `since` relisted. */
  ghost predicate InTime(slots: seq<Order>, arrival: map<u64, nat>, since: nat, q: seq<int>) {
    && WithinSlab(|slots|, q)
    && (forall j, k :: 0 <= j < k < |q| ==>
      MayPrecede(since, Stamp(arrival, slots[q[j]].orderRef), Stamp(arrival, slots[q[k]].orderRef)))
  }

  ghost predicate TimePriority(l: Ladder, slots: seq<Order>, arrival: map<u64, nat>, since: nat) {
    forall i :: 0 <= i < |l.queues| ==> InTime(slots, arrival, since, l.queues[i])
  }

  /** Every slot is either on the free list or holds a live order, never both. */
  ghost predicate Partitioned(slots: seq<Order>, free: seq<int>, live: map<u64, int>) {
    && (forall p :: 0 <= p < |slots| ==> (p in free <==> !IsLive(slots, live, p)))
    && |free| + |live| == |slots|
  }

  ghost predicate Stamped(live: map<u64, int>, arrival: map<u64, nat>, clock: nat) {
    && arrival.Keys == live.Keys
    && (forall r :: r in arrival ==> arrival[r] < clock)
  }

  /** All redundant structures of the book agree. */
  ghost predicate BookOK(b: Book) {
    && 1 <= |b.slots| < TWO_32
    && b.bids.side == 'B' && b.asks.side == 'S'
    && LadderOK(b.bids, b.slots, b.live)
    && LadderOK(b.asks, b.slots, b.live)
    && FreeList(b.slots, b.freeHead, b.free)
    && Partitioned(b.slots, b.free, b.live)
    && Stamped(b.live, b.log.arrival, b.log.clock)
    && TimePriority(b.bids, b.slots, b.log.arrival, b.log.bidSince)
    && TimePriority(b.asks, b.slots, b.log.arrival, b.log.askSince)
  }

  ghost function Resting(slots: seq<Order>, live: map<u64, int>, arrival: map<u64, nat>): map<u64, Entry>
    requires Registry(slots, live)
  {
    map r | r in live :: (
      assert Registered(slots, live, r);
      Entry(slots[live[r]].side, slots[live[r]].price, slots[live[r]].shares, Stamp(arrival, r)))
  }

  /** The market a book represents. */
  ghost function Abs(b: Book): Market
    requires Registry(b.slots, b.live)
  {
    Market(Resting(b.slots, b.live, b.log.arrival), b.bids.refPrice, b.asks.refPrice,
           b.log.bidSince, b.log.askSince, b.open, b.log.clock)
  }

  ghost function OnSide(b: Book, side: char): Ladder {
    if side == 'B' then b.bids else b.asks
  }

  function LastRecentring(log: Journal, side: char): nat {
    if side == 'B' then log.bidSince else log.askSince
  }

  /** An order of reference `ref` joins side `side`. */
  function Noted(log: Journal, ref: u64, side: char, refPrice: u32, price: u32): Journal {
    Journal(log.arrival[ref := log.clock], log.clock + 1,
            if side == 'B' && Recentres(side, refPrice, price) then log.clock else log.bidSince,
            if side == 'S' && Recentres(side, refPrice, price) then log.clock else log.askSince)
  }

  function Opposite(side: char): char {
    if side == 'B' then 'S' else 'B'
  }

  // ----- make_order

  /** The slab after an order was made in the free slot `o`. */
  ghost predicate Made(b: Book, slots: seq<Order>, o: int, ref: u64, side: char, shares: u32, price: u32) {
    && 0 <= o < |b.slots|
    && slots == b.slots[o := Order(ref, shares, price, side, STRANDED, NULL, NULL)]
  }

  lemma MakeKeeps(b: Book, slots: seq<Order>, o: int, ref: u64, side: char, shares: u32, price: u32)
    requires BookOK(b) && o in b.free && Made(b, slots, o, ref, side, shares, price)
    ensures LadderOK(b.bids, slots, b.live) && LadderOK(b.asks, slots, b.live)
    ensures forall r :: r in b.live ==> b.live[r] != o
  {
    forall r | r in b.live
      ensures b.live[r] != o
      ensures Registered(slots, b.live, r)
    {
      assert Registered(b.slots, b.live, r);
      assert IsLive(b.slots, b.live, b.live[r]);
    }
    LadderFrame(b.bids, b.slots, slots, b.live);
    LadderFrame(b.asks, b.slots, slots, b.live);
  }

  // ----- time priority

  /** Lists that are not relinked stay in time order while references and stamps stay. */
  lemma TimeFrame(l: Ladder, slots: seq<Order>, slots': seq<Order>, m: map<u64, int>,
                  arrival: map<u64, nat>, arrival': map<u64, nat>, since: nat)
    requires LadderOK(l, slots, m) && TimePriority(l, slots, arrival, since) && |slots'| == |slots|
    requires forall r :: r in m ==>
      0 <= m[r] < |slots| && slots'[m[r]].orderRef == r && Stamp(arrival', r) == Stamp(arrival, r)
    ensures TimePriority(l, slots', arrival', since)
  {
    forall i | 0 <= i < |l.queues|
      ensures InTime(slots', arrival', since, l.queues[i])
    {
      assert LevelOK(l, slots, m, i) && InTime(slots, arrival, since, l.queues[i]);
      forall k | 0 <= k < |l.queues[i]|
        ensures slots'[l.queues[i][k]].orderRef == slots[l.queues[i][k]].orderRef
        ensures slots[l.queues[i][k]].orderRef in m
      {
        assert Resident(l, slots, m, i, l.queues[i][k]);
      }
    }
  }

  /** The newest order at the back of a list. */
  lemma TimeAppend(l: Ladder, slots: seq<Order>, slots': seq<Order>, m: map<u64, int>,
                   arrival: map<u64, nat>, clock: nat, since: nat, i: int, o: int)
    requires LadderOK(l, slots, m) && TimePriority(l, slots, arrival, since) && Stamped(m, arrival, clock)
    requires 0 <= o < |slots| == |slots'| && 0 <= i < K_LEVELS && slots'[o].orderRef !in m
    requires forall r :: r in m ==> 0 <= m[r] < |slots| && slots'[m[r]].orderRef == r
    ensures TimePriority(l.(queues := l.queues[i := l.queues[i] + [o]]), slots',
                         arrival[slots'[o].orderRef := clock], since)
  {
    var arrival' := arrival[slots'[o].orderRef := clock];
    TimeFrame(l, slots, slots', m, arrival, arrival', since);
    var q := l.queues[i];
    assert LevelOK(l, slots, m, i) && InTime(slots', arrival', since, q);
    forall k | 0 <= k < |q|
      ensures Stamp(arrival', slots'[q[k]].orderRef) < clock
    {
      assert Resident(l, slots, m, i, q[k]);
    }
    assert InTime(slots', arrival', since, q + [o]);
    var queues' := l.queues[i := q + [o]];
    forall j | 0 <= j < |queues'|
      ensures InTime(slots', arrival', since, queues'[j])
    {
      assert j != i ==> InTime(slots', arrival', since, l.queues[j]);
    }
  }

  /** After a recentring, with the newest order last in its list: nothing is promised among the older
      orders, and all of them stand in front of it. */
  lemma TimeRelisted(l: Ladder, slots: seq<Order>, m: map<u64, int>, arrival: map<u64, nat>, clock: nat,
                     i: int, o: int)
    requires 0 <= o < |slots| && slots[o].orderRef !in m && Stamped(m, arrival, clock)
    requires LadderOK(l, slots, m[slots[o].orderRef := o])
    requires 0 <= i < K_LEVELS && AtBack(l.queues[i], o)
    ensures TimePriority(l, slots, arrival[slots[o].orderRef := clock], clock)
  {
    var m', arrival' := m[slots[o].orderRef := o], arrival[slots[o].orderRef := clock];
    forall j | 0 <= j < |l.queues|
      ensures InTime(slots, arrival', clock, l.queues[j])
    {
      var q := l.queues[j];
      assert LevelOK(l, slots, m', j) && LevelOK(l, slots, m', i);
      forall k | 0 <= k < |q| && !(j == i && k == |q| - 1)
        ensures Stamp(arrival', slots[q[k]].orderRef) < clock
      {
        assert Resident(l, slots, m', j, q[k]);
        assert Resident(l, slots, m', i, l.queues[i][|l.queues[i]| - 1]);
      }
    }
  }

  /** Removal keeps the relative order of the rest. */
  lemma TimeWithout(l: Ladder, slots: seq<Order>, arrival: map<u64, nat>, since: nat, i: int, k: int)
    requires TimePriority(l, slots, arrival, since) && 0 <= i < |l.queues| && 0 <= k < |l.queues[i]|
    ensures TimePriority(l.(queues := l.queues[i := Without(l.queues[i], k)]), slots, arrival, since)
  {
    var q, q' := l.queues[i], Without(l.queues[i], k);
    assert InTime(slots, arrival, since, q);
    assert forall h :: 0 <= h < |q'| ==> q'[h] == q[if h < k then h else h + 1];
    assert InTime(slots, arrival, since, q');
    var queues' := l.queues[i := q'];
    forall j | 0 <= j < |queues'|
      ensures InTime(slots, arrival, since, queues'[j])
    {
      assert InTime(slots, arrival, since, l.queues[j]);
    }
  }

  // ----- make_order, insert_order and the entry in the map

  lemma PlacedPartition(slots: seq<Order>, free: seq<int>, live: map<u64, int>, slots': seq<Order>, o: int, ref: u64)
    requires Partitioned(slots, free, live) && free != [] && o == free[0]
    requires WithinSlab(|slots|, free) && Distinct(free) && ref !in live
    requires |slots'| == |slots| && slots'[o].orderRef == ref
    requires forall p :: 0 <= p < |slots| && p != o ==> slots'[p].orderRef == slots[p].orderRef
    ensures Partitioned(slots', free[1..], live[ref := o])
  {
    forall p | 0 <= p < |slots|
      ensures p in free[1..] <==> !IsLive(slots', live[ref := o], p)
    {
      assert free == [o] + free[1..];
      assert p in free <==> !IsLive(slots, live, p);
      assert p == o ==> forall k :: 0 <= k < |free[1..]| ==> free[1..][k] == free[k + 1] != o;
    }
  }

  /** The other side does not notice an order placed on this one. */
  lemma PlacedOther(b: Book, l: Ladder, made: seq<Order>, slots': seq<Order>, o: int, side: char)
    requires LadderOK(l, made, b.live) && 0 <= o < |made| && made[o].side == side && l.side != side
    requires made[o].orderRef !in b.live && 1 <= made[o].price <= MAX_PRICE
    requires side == 'B' || side == 'S'
    requires SideMoves(made, slots', side)
    ensures LadderOK(l, slots', b.live[made[o].orderRef := o])
  {
    RegistryMoves(made, slots', b.live, side);
    forall r | r in b.live
      ensures SameOrder(made[b.live[r]], slots'[b.live[r]])
    {
      assert Registered(made, b.live, r);
    }
    LadderFrame(l, made, slots', b.live);
    LadderExtend(l, slots', b.live, o);
  }

  lemma PlacedResting(slots: seq<Order>, slots': seq<Order>, live: map<u64, int>, arrival: map<u64, nat>,
                      o: int, ref: u64, stamp: nat)
    requires Registry(slots, live) && Registry(slots', live[ref := o]) && |slots'| == |slots|
    requires ref !in live
    requires forall r :: r in live ==> 0 <= live[r] < |slots| && SameOrder(slots[live[r]], slots'[live[r]])
    ensures Resting(slots', live[ref := o], arrival[ref := stamp]) ==
      (assert Registered(slots', live[ref := o], ref);
       Resting(slots, live, arrival)[ref := Entry(slots'[o].side, slots'[o].price, slots'[o].shares, stamp)])
  {
    assert Registered(slots', live[ref := o], ref);
    forall r | r in live
      ensures Registered(slots, live, r) && Registered(slots', live[ref := o], r)
    {
    }
  }

  /** What `make_order`, `insert_order` and the map entry did to the book on side `side`. */
  ghost predicate Places(b: Book, b': Book, made: seq<Order>, o: int, ref: u64, side: char, shares: u32, price: u32) {
    && b.free != [] && o == b.free[0]
    && Made(b, made, o, ref, side, shares, price)
    && InsertedOn(OnSide(b, side), OnSide(b', side), made, b'.slots, b.live, o)
    && OnSide(b', Opposite(side)) == OnSide(b, Opposite(side))
    && b'.freeHead == After(b.free, 0) && b'.free == b.free[1..]
    && b'.live == b.live[ref := o] && b'.open == b.open
    && b'.log == Noted(b.log, ref, side, OnSide(b, side).refPrice, price)
  }

  /** Time priority of the side an order was placed on. */
  lemma PlacedTime(b: Book, b': Book, made: seq<Order>, o: int, ref: u64, side: char, shares: u32, price: u32)
    requires BookOK(b) && (side == 'B' || side == 'S') && ref !in b.live
    requires Places(b, b', made, o, ref, side, shares, price)
    requires forall r :: r in b.live ==> 0 <= b.live[r] < |b.slots| && b'.slots[b.live[r]].orderRef == r
    requires b'.slots[o].orderRef == ref
    ensures TimePriority(OnSide(b', side), b'.slots, b'.log.arrival, LastRecentring(b'.log, side))
  {
    var l, l' := OnSide(b, side), OnSide(b', side);
    var i := Offset(side, l'.refPrice, price);
    if Recentres(side, l.refPrice, price) {
      TimeRelisted(l', b'.slots, b.live, b.log.arrival, b.log.clock, i, o);
    } else {
      TimeAppend(l, b.slots, b'.slots, b.live, b.log.arrival, b.log.clock, LastRecentring(b.log, side), i, o);
      SameQueues(l.(queues := l.queues[i := l.queues[i] + [o]]), l', b'.slots, b'.log.arrival, LastRecentring(b.log, side));
    }
  }

  lemma SameQueues(l: Ladder, l': Ladder, slots: seq<Order>, arrival: map<u64, nat>, since: nat)
    requires TimePriority(l, slots, arrival, since) && l'.queues == l.queues
    ensures TimePriority(l', slots, arrival, since)
  {
  }

  lemma PlacedNodes(b: Book, b': Book, made: seq<Order>, o: int, ref: u64, side: char, shares: u32, price: u32)
    requires BookOK(b) && (side == 'B' || side == 'S') && ref !in b.live
    requires Places(b, b', made, o, ref, side, shares, price)
    ensures forall r :: r in b.live ==>
      0 <= b.live[r] < |b.slots| && b.live[r] != o && SameOrder(b.slots[b.live[r]], b'.slots[b.live[r]])
    ensures forall r :: r in b.live ==> b'.slots[b.live[r]].orderRef == r
    ensures SameOrder(made[o], b'.slots[o])
  {
    MakeKeeps(b, made, o, ref, side, shares, price);
    assert SameOrder(made[o], b'.slots[o]);
    forall r | r in b.live
      ensures 0 <= b.live[r] < |b.slots| && b.live[r] != o && SameOrder(b.slots[b.live[r]], b'.slots[b.live[r]])
      ensures b'.slots[b.live[r]].orderRef == r
    {
      assert Registered(b.slots, b.live, r);
      assert SameOrder(made[b.live[r]], b'.slots[b.live[r]]);
    }
  }

  lemma PlacedSlots(b: Book, b': Book, made: seq<Order>, o: int, ref: u64, side: char, shares: u32, price: u32)
    requires BookOK(b) && (side == 'B' || side == 'S') && ref !in b.live
    requires Places(b, b', made, o, ref, side, shares, price)
    ensures FreeList(b'.slots, b'.freeHead, b'.free)
    ensures Partitioned(b'.slots, b'.free, b'.live)
  {
    FreeListPop(b.slots, made, b.freeHead, b.free);
    FreeListFrame(made, b'.slots, b'.freeHead, b'.free);
    forall p | 0 <= p < |b.slots|
      ensures b'.slots[p].orderRef == if p == o then ref else b.slots[p].orderRef
    {
      assert SameOrder(made[p], b'.slots[p]);
    }
    PlacedPartition(b.slots, b.free, b.live, b'.slots, o, ref);
  }

  lemma PlacedOtherSide(b: Book, b': Book, made: seq<Order>, o: int, ref: u64, side: char, shares: u32, price: u32)
    requires BookOK(b) && (side == 'B' || side == 'S') && ref !in b.live && PriceOK(price)
    requires Places(b, b', made, o, ref, side, shares, price)
    ensures var l := OnSide(b, Opposite(side)); LadderOK(l, b'.slots, b'.live)
  {
    MakeKeeps(b, made, o, ref, side, shares, price);
    PlacedOther(b, OnSide(b, Opposite(side)), made, b'.slots, o, side);
  }

  lemma PlacedTimes(b: Book, b': Book, made: seq<Order>, o: int, ref: u64, side: char, shares: u32, price: u32)
    requires BookOK(b) && (side == 'B' || side == 'S') && ref !in b.live
    requires Places(b, b', made, o, ref, side, shares, price)
    ensures TimePriority(b'.bids, b'.slots, b'.log.arrival, b'.log.bidSince)
    ensures TimePriority(b'.asks, b'.slots, b'.log.arrival, b'.log.askSince)
  {
    PlacedNodes(b, b', made, o, ref, side, shares, price);
    PlacedTime(b, b', made, o, ref, side, shares, price);
    TimeFrame(OnSide(b, Opposite(side)), b.slots, b'.slots, b.live, b.log.arrival, b'.log.arrival,
              LastRecentring(b.log, Opposite(side)));
  }

  lemma PlacedAbs(b: Book, b': Book, made: seq<Order>, o: int, ref: u64, side: char, shares: u32, price: u32)
    requires BookOK(b) && (side == 'B' || side == 'S') && ref !in b.live
    requires Places(b, b', made, o, ref, side, shares, price)
    ensures Abs(b') == Placed(Abs(b), ref, side, shares, price)
  {
    PlacedNodes(b, b', made, o, ref, side, shares, price);
    PlacedResting(b.slots, b'.slots, b.live, b.log.arrival, o, ref, b.log.clock);
  }

  /** The book after order `o` of reference `ref` was placed; `l` and `slots` are its side and slab now. */
  ghost function PlacedBook(b: Book, l: Ladder, slots: seq<Order>, o: int, ref: u64, side: char, price: u32): Book
    requires b.free != []
  {
    Book(slots, After(b.free, 0), b.free[1..], b.live[ref := o],
         if side == 'B' then l else b.bids, if side == 'B' then b.asks else l,
         b.open, Noted(b.log, ref, side, OnSide(b, side).refPrice, price))
  }

  /** Placing an order on the book places it on the market. */
  lemma PlaceKeeps(b: Book, l: Ladder, slots: seq<Order>, made: seq<Order>,
                   o: int, ref: u64, side: char, shares: u32, price: u32)
    requires BookOK(b) && (side == 'B' || side == 'S') && ref !in b.live && PriceOK(price)
    requires b.free != [] && o == b.free[0] && Made(b, made, o, ref, side, shares, price)
    requires InsertedOn(OnSide(b, side), l, made, slots, b.live, o)
    ensures BookOK(PlacedBook(b, l, slots, o, ref, side, price))
    ensures Abs(PlacedBook(b, l, slots, o, ref, side, price)) == Placed(Abs(b), ref, side, shares, price)
  {
    var b' := PlacedBook(b, l, slots, o, ref, side, price);
    PlacedSlots(b, b', made, o, ref, side, shares, price);
    PlacedOtherSide(b, b', made, o, ref, side, shares, price);
    PlacedTimes(b, b', made, o, ref, side, shares, price);
    PlacedAbs(b, b', made, o, ref, side, shares, price);
  }

  // ----- remove_order, the erasure from the map and the return of the slot to the pool

  lemma LadderShrink(l: Ladder, slots: seq<Order>, m: map<u64, int>, r: u64)
    requires LadderOK(l, slots, m) && r in m && slots[m[r]].side != l.side
    ensures LadderOK(l, slots, m - {r})
  {
    forall i | 0 <= i < K_LEVELS
      ensures LevelOK(l, slots, m - {r}, i)
    {
      assert LevelOK(l, slots, m, i);
      forall k | 0 <= k < |l.queues[i]|
        ensures Resident(l, slots, m - {r}, i, l.queues[i][k])
      {
        assert Resident(l, slots, m, i, l.queues[i][k]);
      }
    }
    forall x | x in m - {r}
      ensures Registered(slots, m - {r}, x) && InPlace(l, slots, m - {r}, x)
    {
      assert Registered(slots, m, x) && InPlace(l, slots, m, x);
    }
  }

  /** What removing order `r` from its side and freeing its slot did to the book. */
  ghost predicate Withdraws(b: Book, b': Book, unlinked: seq<Order>, r: u64, side: char, k: int)
    requires BookOK(b)
  {
    && r in b.live
    && (var o := b.live[r];
      && 0 <= o < |b.slots| && b.slots[o].orderRef == r && b.slots[o].side == side
      && RemovedFrom(OnSide(b, side), OnSide(b', side), b.slots, unlinked, b.live, o, k)
      && b'.slots == unlinked[o := BLANK.(next := b.freeHead)]
      && b'.freeHead == o && b'.free == [o] + b.free)
    && OnSide(b', Opposite(side)) == OnSide(b, Opposite(side))
    && b'.live == b.live - {r} && b'.open == b.open && b'.log == b.log.(arrival := b.log.arrival - {r})
  }

  /** The nodes of the remaining orders are the same orders; the withdrawn one's slot is not among them. */
  lemma WithdrawnNodes(b: Book, b': Book, unlinked: seq<Order>, r: u64, side: char, k: int)
    requires BookOK(b) && Withdraws(b, b', unlinked, r, side, k)
    ensures Registry(b.slots, b.live) && Registry(unlinked, b.live)
    ensures forall x :: x in b'.live ==> b.live[x] != b.live[r]
    ensures forall x :: x in b'.live ==> SameOrder(b.slots[b.live[x]], b'.slots[b.live[x]])
    ensures Registry(b'.slots, b'.live)
  {
    RegistryMoves(b.slots, unlinked, b.live, side);
    assert Registered(unlinked, b.live, r);
    forall x | x in b'.live
      ensures b.live[x] != b.live[r]
      ensures SameOrder(b.slots[b.live[x]], b'.slots[b.live[x]])
      ensures Registered(b'.slots, b'.live, x)
    {
      assert Registered(b.slots, b.live, x) && Registered(unlinked, b.live, x);
    }
  }

  /** The other side does not notice. */
  lemma WithdrawnOther(l: Ladder, slots: seq<Order>, unlinked: seq<Order>, m: map<u64, int>, r: u64, side: char)
    requires LadderOK(l, slots, m) && r in m && l.side != side && SideMoves(slots, unlinked, side)
    requires forall x :: x in m ==> 0 <= m[x] < |slots|
    requires slots[m[r]].side == side
    ensures LadderOK(l, unlinked, m - {r})
  {
    RegistryMoves(slots, unlinked, m, side);
    forall x | x in m
      ensures SameOrder(slots[m[x]], unlinked[m[x]])
    {
      assert Registered(slots, m, x);
    }
    LadderFrame(l, slots, unlinked, m);
    LadderShrink(l, unlinked, m, r);
  }

  lemma WithdrawnLadders(b: Book, b': Book, unlinked: seq<Order>, r: u64, side: char, k: int)
    requires BookOK(b) && Withdraws(b, b', unlinked, r, side, k)
    ensures LadderOK(b'.bids, b'.slots, b'.live) && LadderOK(b'.asks, b'.slots, b'.live)
  {
    WithdrawnNodes(b, b', unlinked, r, side, k);
    forall x | x in b.live
      ensures 0 <= b.live[x] < |b.slots|
    {
      assert Registered(b.slots, b.live, x);
    }
    var own, other := OnSide(b', side), OnSide(b, Opposite(side));
    WithdrawnOther(other, b.slots, unlinked, b.live, r, side);
    LadderFrame(other, unlinked, b'.slots, b'.live);
    LadderFrame(own, unlinked, b'.slots, b'.live);
  }

  lemma WithdrawnPartition(slots: seq<Order>, unlinked: seq<Order>, slots': seq<Order>, free: seq<int>,
                           live: map<u64, int>, o: int, r: u64)
    requires Partitioned(slots, free, live) && |unlinked| == |slots| && 0 <= o < |slots|
    requires forall p :: 0 <= p < |slots| ==> SameOrder(slots[p], unlinked[p])
    requires |slots'| == |slots| && slots' == unlinked[o := slots'[o]]
    requires r in live && live[r] == o && slots[o].orderRef == r
    requires forall x :: x in live && x != r ==> live[x] != o
    ensures Partitioned(slots', [o] + free, live - {r})
  {
    forall p | 0 <= p < |slots|
      ensures p in [o] + free <==> !IsLive(slots', live - {r}, p)
    {
      assert p in free <==> !IsLive(slots, live, p);
      assert SameOrder(slots[p], unlinked[p]);
    }
  }

  lemma WithdrawnSlots(b: Book, b': Book, unlinked: seq<Order>, r: u64, side: char, k: int)
    requires BookOK(b) && Withdraws(b, b', unlinked, r, side, k)
    ensures FreeList(b'.slots, b'.freeHead, b'.free)
    ensures Partitioned(b'.slots, b'.free, b'.live)
  {
    WithdrawnNodes(b, b', unlinked, r, side, k);
    var o := b.live[r];
    assert Registered(b.slots, b.live, r) && IsLive(b.slots, b.live, o);
    FreeListFrame(b.slots, unlinked, b.freeHead, b.free);
    FreeListPush(unlinked, b.freeHead, b.free, o);
    WithdrawnPartition(b.slots, unlinked, b'.slots, b.free, b.live, o, r);
  }

  lemma WithdrawnTimes(b: Book, b': Book, unlinked: seq<Order>, r: u64, side: char, k: int)
    requires BookOK(b) && Withdraws(b, b', unlinked, r, side, k)
    ensures TimePriority(b'.bids, b'.slots, b'.log.arrival, b'.log.bidSince)
    ensures TimePriority(b'.asks, b'.slots, b'.log.arrival, b'.log.askSince)
  {
    var l, l', other := OnSide(b, side), OnSide(b', side), OnSide(b, Opposite(side));
    WithdrawnNodes(b, b', unlinked, r, side, k);
    WithdrawnLadders(b, b', unlinked, r, side, k);
    var since := LastRecentring(b.log, side);
    TimeWithout(l, b.slots, b.log.arrival, since, b.slots[b.live[r]].levelIdx, k);
    SameQueues(l.(queues := l'.queues), l', b.slots, b.log.arrival, since);
    TimeMove(l', b.slots, b'.slots, b'.live, b.log.arrival, b'.log.arrival, since);
    TimeMove(other, b.slots, b'.slots, b'.live, b.log.arrival, b'.log.arrival, LastRecentring(b.log, Opposite(side)));
  }

  /** Time order carried over to the slab in which the lists are linked. */
  lemma TimeMove(l: Ladder, slots: seq<Order>, slots': seq<Order>, m: map<u64, int>,
                 arrival: map<u64, nat>, arrival': map<u64, nat>, since: nat)
    requires LadderOK(l, slots', m) && TimePriority(l, slots, arrival, since) && |slots'| == |slots|
    requires forall r :: r in m ==>
      0 <= m[r] < |slots| && slots[m[r]].orderRef == slots'[m[r]].orderRef && Stamp(arrival', r) == Stamp(arrival, r)
    ensures TimePriority(l, slots', arrival', since)
  {
    forall i | 0 <= i < |l.queues|
      ensures InTime(slots', arrival', since, l.queues[i])
    {
      assert LevelOK(l, slots', m, i) && InTime(slots, arrival, since, l.queues[i]);
      forall k | 0 <= k < |l.queues[i]|
        ensures slots'[l.queues[i][k]].orderRef == slots[l.queues[i][k]].orderRef
        ensures slots'[l.queues[i][k]].orderRef in m
      {
        assert Resident(l, slots', m, i, l.queues[i][k]);
      }
    }
  }

  lemma WithdrawnResting(slots: seq<Order>, slots': seq<Order>, live: map<u64, int>, arrival: map<u64, nat>, r: u64)
    requires Registry(slots, live) && Registry(slots', live - {r}) && |slots'| == |slots|
    requires forall x :: x in live && x != r ==>
      0 <= live[x] < |slots| && SameOrder(slots[live[x]], slots'[live[x]])
    ensures Resting(slots', live - {r}, arrival - {r}) == Resting(slots, live, arrival) - {r}
  {
    forall x | x in live && x != r
      ensures Registered(slots, live, x) && Registered(slots', live - {r}, x)
    {
    }
  }

  lemma WithdrawnAbs(b: Book, b': Book, unlinked: seq<Order>, r: u64, side: char, k: int)
    requires BookOK(b) && Withdraws(b, b', unlinked, r, side, k)
    requires Registry(b'.slots, b'.live)
    ensures Abs(b') == Withdrawn(Abs(b), r)
  {
    WithdrawnNodes(b, b', unlinked, r, side, k);
    forall x | x in b.live
      ensures 0 <= b.live[x] < |b.slots|
    {
      assert Registered(b.slots, b.live, x);
    }
    WithdrawnResting(b.slots, b'.slots, b.live, b.log.arrival, r);
  }

  /** The book after order `r` was taken out; `l` and `unlinked` are its side and slab before the
      slot is freed. */
  ghost function WithdrawnBook(b: Book, l: Ladder, unlinked: seq<Order>, r: u64, side: char): Book
    requires r in b.live && 0 <= b.live[r] < |unlinked|
  {
    Book(unlinked[b.live[r] := BLANK.(next := b.freeHead)], b.live[r], [b.live[r]] + b.free, b.live - {r},
         if side == 'B' then l else b.bids, if side == 'B' then b.asks else l,
         b.open, b.log.(arrival := b.log.arrival - {r}))
  }

  /** Taking an order out of the book takes it out of the market. */
  lemma WithdrawKeeps(b: Book, l: Ladder, unlinked: seq<Order>, r: u64, side: char, k: int)
    requires BookOK(b) && r in b.live && 0 <= b.live[r] < |b.slots|
    requires b.slots[b.live[r]].orderRef == r && b.slots[b.live[r]].side == side
    requires RemovedFrom(OnSide(b, side), l, b.slots, unlinked, b.live, b.live[r], k)
    ensures BookOK(WithdrawnBook(b, l, unlinked, r, side))
    ensures Abs(WithdrawnBook(b, l, unlinked, r, side)) == Withdrawn(Abs(b), r)
  {
    var b' := WithdrawnBook(b, l, unlinked, r, side);
    WithdrawnLadders(b, b', unlinked, r, side, k);
    WithdrawnSlots(b, b', unlinked, r, side, k);
    WithdrawnTimes(b, b', unlinked, r, side, k);
    WithdrawnAbs(b, b', unlinked, r, side, k);
  }

  // ----- reduce_shares

  ghost predicate Reduces(b: Book, b': Book, r: u64, side: char, qty: u32)
    requires BookOK(b)
  {
    && r in b.live && b.slots[b.live[r]].side == side && qty <= b.slots[b.live[r]].shares
    && (var o, l, l' := b.live[r], OnSide(b, side), OnSide(b', side);
      && b'.slots == b.slots[o := b.slots[o].(shares := b.slots[o].shares - qty)]
      && l'.side == l.side && l'.refPrice == l.refPrice && l'.queues == l.queues
      && LadderOK(l', b'.slots, b.live))
    && OnSide(b', Opposite(side)) == OnSide(b, Opposite(side))
    && b'.freeHead == b.freeHead && b'.free == b.free && b'.live == b.live
    && b'.open == b.open && b'.log == b.log
  }

  lemma ReducedSlots(b: Book, b': Book, r: u64, side: char, qty: u32)
    requires BookOK(b) && Reduces(b, b', r, side, qty)
    ensures FreeList(b'.slots, b'.freeHead, b'.free)
    ensures Partitioned(b'.slots, b'.free, b'.live)
    ensures LadderOK(OnSide(b, Opposite(side)), b'.slots, b'.live)
  {
    assert Registered(b.slots, b.live, r);
    FreeListFrame(b.slots, b'.slots, b.freeHead, b.free);
    forall p | 0 <= p < |b.slots|
      ensures p in b'.free <==> !IsLive(b'.slots, b'.live, p)
    {
      assert p in b.free <==> !IsLive(b.slots, b.live, p);
    }
    LadderFrame(OnSide(b, Opposite(side)), b.slots, b'.slots, b.live);
  }

  lemma ReducedAbs(b: Book, b': Book, r: u64, side: char, qty: u32)
    requires BookOK(b) && Reduces(b, b', r, side, qty)
    ensures Registry(b.slots, b.live) && Registry(b'.slots, b'.live)
    ensures var mk := Abs(b);
      && r in mk.orders && qty <= mk.orders[r].shares
      && Abs(b') == Shrunk(mk, r, qty)
  {
    assert Registered(b.slots, b.live, r);
    forall x | x in b.live
      ensures x != r ==> b.live[x] != b.live[r]
    {
      assert Registered(b.slots, b.live, x);
    }
    var orders, orders' := Abs(b).orders, Abs(b').orders;
    assert orders'[r] == orders[r].(shares := orders[r].shares - qty);
    assert orders' == orders[r := orders'[r]];
  }

  ghost function ReducedBook(b: Book, l: Ladder, r: u64, side: char, qty: u32): Book
    requires r in b.live && 0 <= b.live[r] < |b.slots| && qty <= b.slots[b.live[r]].shares
  {
    Book(b.slots[b.live[r] := b.slots[b.live[r]].(shares := b.slots[b.live[r]].shares - qty)],
         b.freeHead, b.free, b.live,
         if side == 'B' then l else b.bids, if side == 'B' then b.asks else l,
         b.open, b.log)
  }

  /** Reducing an order of the book reduces it on the market; its list is not touched. */
  lemma ReduceKeeps(b: Book, l: Ladder, r: u64, side: char, qty: u32)
    requires BookOK(b) && r in b.live && 0 <= b.live[r] < |b.slots| && qty <= b.slots[b.live[r]].shares
    requires b.slots[b.live[r]].side == side
    requires l.side == side && l.refPrice == OnSide(b, side).refPrice && l.queues == OnSide(b, side).queues
    requires LadderOK(l, ReducedBook(b, l, r, side, qty).slots, b.live)
    ensures BookOK(ReducedBook(b, l, r, side, qty))
    ensures var mk := Abs(b);
      && r in mk.orders && qty <= mk.orders[r].shares
      && Abs(ReducedBook(b, l, r, side, qty)) == Shrunk(mk, r, qty)
  {
    var b' := ReducedBook(b, l, r, side, qty);
    assert Registered(b.slots, b.live, r);
    ReducedSlots(b, b', r, side, qty);
    ReducedTimes(b, b', r, side, qty);
    ReducedAbs(b, b', r, side, qty);
  }

  lemma ReducedTimes(b: Book, b': Book, r: u64, side: char, qty: u32)
    requires BookOK(b) && Reduces(b, b', r, side, qty)
    requires LadderOK(OnSide(b, Opposite(side)), b'.slots, b'.live)
    ensures TimePriority(b'.bids, b'.slots, b'.log.arrival, b'.log.bidSince)
    ensures TimePriority(b'.asks, b'.slots, b'.log.arrival, b'.log.askSince)
  {
    forall x | x in b.live
      ensures 0 <= b.live[x] < |b.slots|
    {
      assert Registered(b.slots, b.live, x);
    }
    SameQueues(b.bids, b'.bids, b.slots, b.log.arrival, b.log.bidSince);
    SameQueues(b.asks, b'.asks, b.slots, b.log.arrival, b.log.askSince);
    TimeMove(b'.bids, b.slots, b'.slots, b.live, b.log.arrival, b.log.arrival, b.log.bidSince);
    TimeMove(b'.asks, b.slots, b'.slots, b.live, b.log.arrival, b.log.arrival, b.log.askSince);
  }

  // ----- construction and halt

  /** A book without orders over a pool whose slots are all free. */
  lemma EmptyBook(b: Book)
    requires 1 <= |b.slots| < TWO_32
    requires b.bids.side == 'B' && b.asks.side == 'S' && b.live == map[] && b.log.arrival == map[]
    requires LadderOK(b.bids, b.slots, map[]) && LadderOK(b.asks, b.slots, map[])
    requires FreeList(b.slots, b.freeHead, b.free) && b.free == seq(|b.slots|, i => i)
    requires forall i :: 0 <= i < K_LEVELS ==> b.bids.queues[i] == [] && b.asks.queues[i] == []
    ensures BookOK(b)
    ensures Abs(b).orders == map[]
  {
    forall p | 0 <= p < |b.slots|
      ensures p in b.free && !IsLive(b.slots, b.live, p)
    {
      assert b.free[p] == p;
    }
    forall i | 0 <= i < K_LEVELS
      ensures InTime(b.slots, b.log.arrival, b.log.bidSince, b.bids.queues[i])
      ensures InTime(b.slots, b.log.arrival, b.log.askSince, b.asks.queues[i])
    {
    }
  }

  lemma NewBook(b: Book)
    requires 1 <= |b.slots| < TWO_32
    requires b.bids.side == 'B' && b.asks.side == 'S' && b.bids.refPrice == 0 && b.asks.refPrice == 0
    requires b.live == map[] && b.log == NEW_JOURNAL && !b.open
    requires LadderOK(b.bids, b.slots, map[]) && LadderOK(b.asks, b.slots, map[])
    requires FreeList(b.slots, b.freeHead, b.free) && b.free == seq(|b.slots|, i => i)
    requires forall q :: q in b.bids.queues || q in b.asks.queues ==> q == []
    ensures BookOK(b) && Abs(b) == FRESH
  {
    assert forall i :: 0 <= i < K_LEVELS ==> b.bids.queues[i] in b.bids.queues && b.asks.queues[i] in b.asks.queues;
    EmptyBook(b);
  }

  /** A halt: no orders, a pool as new, both references kept. */
  ghost predicate Halted(b: Book, b': Book) {
    && |b'.slots| == |b.slots| && b'.live == map[] && b'.log == NEW_JOURNAL && !b'.open
    && FreeList(b'.slots, b'.freeHead, b'.free) && b'.free == seq(|b'.slots|, i => i)
    && Emptied(b.bids, b'.bids) && Emptied(b.asks, b'.asks)
  }

  ghost predicate Emptied(l: Ladder, l': Ladder) {
    && l'.side == l.side && l'.refPrice == l.refPrice && l'.best == -1
    && |l'.levels| == K_LEVELS && |l'.queues| == K_LEVELS
    && (forall i :: 0 <= i < K_LEVELS ==> l'.levels[i] == NO_ORDERS && l'.queues[i] == [])
  }

  lemma HaltKeeps(b: Book, b': Book)
    requires BookOK(b) && Halted(b, b')
    ensures BookOK(b')
    ensures Abs(b') == Step(Abs(b), Session('H'))
  {
    EmptyLadder(b'.bids, b'.slots);
    EmptyLadder(b'.asks, b'.slots);
    EmptyBook(b');
  }
}
