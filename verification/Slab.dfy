/** The slab of order nodes and its free list.
    A pointer into the slab is the index of its slot; NULL is the null pointer. */
module Slab {
  import opened Machine

  const NULL: int := -1
  const STRANDED: int := -1

  datatype Order = Order(
    orderRef: u64, shares: u32, price: u32, side: char, levelIdx: int, next: int, prev: int)

  /** The value of a slot on the free list, apart from `next`. */
  const BLANK: Order := Order(0, 0, 0, '\0', STRANDED, NULL, NULL)

  ghost predicate Distinct(q: seq<int>) {
    forall j, k :: 0 <= j < k < |q| ==> q[j] != q[k]
  }

  ghost predicate WithinSlab(n: nat, q: seq<int>) {
    forall k :: 0 <= k < |q| ==> 0 <= q[k] < n
  }

  ghost function Before(q: seq<int>, k: int): int
    requires 0 <= k < |q|
  {
    if k == 0 then NULL else q[k - 1]
  }

  ghost function After(q: seq<int>, k: int): int
    requires 0 <= k < |q|
  {
    if k + 1 == |q| then NULL else q[k + 1]
  }

  ghost function First(q: seq<int>): int {
    if q == [] then NULL else q[0]
  }

  ghost function Last(q: seq<int>): int {
    if q == [] then NULL else q[|q| - 1]
  }

  ghost predicate FreeSlot(slots: seq<Order>, free: seq<int>, k: int)
    requires WithinSlab(|slots|, free) && 0 <= k < |free|
  {
    slots[free[k]] == BLANK.(next := After(free, k))
  }

  /** `free` is the free list: acyclic, threaded through `next`, every slot blank. */
  ghost predicate FreeList(slots: seq<Order>, freeHead: int, free: seq<int>) {
    && Distinct(free)
    && WithinSlab(|slots|, free)
    && freeHead == First(free)
    && (forall k :: 0 <= k < |free| ==> FreeSlot(slots, free, k))
  }

  lemma FreeListFrame(slots: seq<Order>, slots': seq<Order>, freeHead: int, free: seq<int>)
    requires FreeList(slots, freeHead, free)
    requires |slots'| == |slots|
    requires forall p :: 0 <= p < |slots| && slots[p].side == BLANK.side ==> slots'[p] == slots[p]
    ensures FreeList(slots', freeHead, free)
  {
    forall k | 0 <= k < |free|
      ensures FreeSlot(slots', free, k)
    {
      assert FreeSlot(slots, free, k);
    }
  }

  /** The head slot leaves the list, whatever it holds afterwards. */
  lemma FreeListPop(slots: seq<Order>, slots': seq<Order>, freeHead: int, free: seq<int>)
    requires FreeList(slots, freeHead, free) && free != []
    requires |slots'| == |slots| && slots' == slots[free[0] := slots'[free[0]]]
    ensures FreeList(slots', After(free, 0), free[1..])
    ensures slots[freeHead] == BLANK.(next := After(free, 0))
  {
    assert FreeSlot(slots, free, 0);
    var free' := free[1..];
    forall k | 0 <= k < |free'|
      ensures FreeSlot(slots', free', k)
    {
      assert FreeSlot(slots, free, k + 1);
    }
  }

  /** A cleared slot becomes the head of the list. */
  lemma FreeListPush(slots: seq<Order>, freeHead: int, free: seq<int>, o: int)
    requires FreeList(slots, freeHead, free) && 0 <= o < |slots| && o !in free
    ensures FreeList(slots[o := BLANK.(next := freeHead)], o, [o] + free)
  {
    var slots', free' := slots[o := BLANK.(next := freeHead)], [o] + free;
    forall k | 0 <= k < |free'|
      ensures FreeSlot(slots', free', k)
    {
      if k > 0 { assert FreeSlot(slots, free, k - 1); }
    }
  }

  /** A list of distinct slots cannot be longer than the slab. */
  lemma {:induction false} DistinctFits(n: nat, q: seq<int>)
    requires Distinct(q) && WithinSlab(n, q)
    ensures |q| <= n
  {
    assert q != [] ==> 0 <= q[0] < n;
    if n == 0 {
    } else if k :| 0 <= k < |q| && q[k] == n - 1 {
      var rest := q[..k] + q[k + 1..];
      assert forall j :: 0 <= j < |rest| ==> rest[j] == if j < k then q[j] else q[j + 1];
      DistinctFits(n - 1, rest);
    } else {
      DistinctFits(n - 1, q);
    }
  }

  class OrderPool {
    const slots: array<Order>
    var freeHead: int
    ghost var free: seq<int>

    ghost predicate Valid()
      reads this, slots
    {
      FreeList(slots[..], freeHead, free)
    }

    constructor (capacity: nat)
      requires capacity >= 1
      ensures Valid() && fresh(slots)
      ensures slots.Length == capacity
      ensures free == seq(capacity, i => i)
    {
      slots := new Order[capacity](_ => BLANK);
      freeHead := 0;
      free := seq(capacity, i => i);
      new;
      var i := 0;
      while i + 1 < capacity
        invariant 0 <= i < capacity
        invariant freeHead == 0 && free == seq(capacity, i => i)
        invariant forall p :: 0 <= p < capacity ==>
          slots[p] == BLANK.(next := if p < i then p + 1 else NULL)
      {
        slots[i] := slots[i].(next := i + 1);
        i := i + 1;
      }
    }

    /** Pops the head of the free list; the engine asserts that there is one. */
    method Alloc() returns (o: int)
      requires Valid() && free != []
      modifies this, slots
      ensures Valid()
      ensures o == old(free)[0] && free == old(free)[1..]
      ensures slots[..] == old(slots[..])[o := BLANK]
    {
      FreeListPop(slots[..], slots[..][free[0] := BLANK], freeHead, free);
      o := freeHead;
      freeHead := slots[o].next;
      slots[o] := slots[o].(next := NULL, prev := NULL);
      free := free[1..];
    }

    /** Clears the slot and pushes it on the free list. */
    method Free(o: int)
      requires Valid()
      requires 0 <= o < slots.Length && o !in free
      modifies this, slots
      ensures Valid()
      ensures free == [o] + old(free)
      ensures slots[..] == old(slots[..])[o := BLANK.(next := old(freeHead))]
    {
      FreeListPush(slots[..], freeHead, free, o);
      slots[o] := BLANK.(next := freeHead);
      freeHead := o;
      free := [o] + free;
    }

    function Capacity(): nat { slots.Length }
  }
}
