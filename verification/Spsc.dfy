/** The single-producer single-consumer ring as a protocol of atomic steps.
    Each load, slot access and store of `try_push` and `try_pop` is a step of its own. An acquire
    load of the other thread's index may return any value of that index not older than the last one
    seen; such a value is identified by the number of pops or pushes that had happened by then. */
module Spsc {
  import opened Machine
  import opened Rings

  /** Where the producer is inside `try_push`. */
  datatype PushState<M> =
    | PushIdle
    | PushHaveTail(item: M, t: nat)
    | PushAtSlot(item: M, t: nat)
    | PushAtStore(item: M, t: nat)

  /** Where the consumer is inside `try_pop` (or `empty`, which starts the same way). */
  datatype PopState<M> =
    | PopIdle
    | PopHaveHead(h: nat)
    | PopAtSlot(h: nat)
    | PopAtStore(h: nat, out: M)

  /** `pushed` and `popped` are the histories of the two threads; `seenPops` and `seenPushes` how far
      the producer and the consumer know the other's progress. */
  datatype Queue<M> = Queue(
    logCapacity: nat, slots: seq<M>, head: nat, tail: nat,
    producer: PushState<M>, consumer: PopState<M>,
    pushed: seq<M>, popped: seq<M>, seenPops: nat, seenPushes: nat)
  {
    function Capacity(): nat { Pow2(logCapacity) }
    function Mask(i: nat): nat { And(i, MaskBits()) }
    function MaskBits(): nat { if Capacity() == 0 then 0 else Capacity() - 1 }
  }

  predicate Initial<M(==)>(q: Queue<M>) {
    && |q.slots| == q.Capacity()
    && q.head == 0 && q.tail == 0 && q.producer.PushIdle? && q.consumer.PopIdle?
    && q.pushed == [] && q.popped == [] && q.seenPops == 0 && q.seenPushes == 0
  }

  // ----- the steps of try_push

  datatype PushAction<M> = BeginPush(item: M) | LoadHead(pops: nat) | WriteSlot | StoreTail

  predicate CanPush<M>(q: Queue<M>, a: PushAction<M>) {
    match a
    case BeginPush(_) => q.producer.PushIdle?
    case LoadHead(pops) => q.producer.PushHaveTail? && q.seenPops <= pops <= |q.popped|
    case WriteSlot => q.producer.PushAtSlot? && q.producer.t < |q.slots|
    case StoreTail => q.producer.PushAtStore?
  }

  /** The index store of a push or pop count. */
  function IndexOf<M>(q: Queue<M>, count: nat): nat
    requires q.Capacity() >= 1
  {
    count % q.Capacity()
  }

  /** The index read is the one the consumer had stored after `pops` pops; equal to the successor of
      the tail it means full, and `try_push` returns false. */
  predicate ReadsFull<M>(q: Queue<M>, pops: nat)
    requires q.Capacity() >= 1 && q.producer.PushHaveTail?
  {
    q.Mask(q.producer.t + 1) == IndexOf(q, pops)
  }

  function Push<M>(q: Queue<M>, a: PushAction<M>): Queue<M>
    requires q.Capacity() >= 1 && CanPush(q, a)
  {
    match a
    case BeginPush(item) => q.(producer := PushHaveTail(item, q.tail))
    case LoadHead(pops) =>
      q.(seenPops := pops,
         producer := if ReadsFull(q, pops) then PushIdle else PushAtSlot(q.producer.item, q.producer.t))
    case WriteSlot =>
      q.(slots := q.slots[q.producer.t := q.producer.item],
         producer := PushAtStore(q.producer.item, q.producer.t))
    case StoreTail =>
      q.(tail := q.Mask(q.producer.t + 1), pushed := q.pushed + [q.producer.item], producer := PushIdle)
  }

  // ----- the steps of try_pop

  datatype PopAction = BeginPop | LoadTail(pushes: nat) | ReadSlot | StoreHead

  predicate CanPop<M>(q: Queue<M>, a: PopAction) {
    match a
    case BeginPop => q.consumer.PopIdle?
    case LoadTail(pushes) => q.consumer.PopHaveHead? && q.seenPushes <= pushes <= |q.pushed|
    case ReadSlot => q.consumer.PopAtSlot? && q.consumer.h < |q.slots|
    case StoreHead => q.consumer.PopAtStore?
  }

  /** The index read equals the head: `try_pop` returns false. */
  predicate ReadsEmpty<M>(q: Queue<M>, pushes: nat)
    requires q.Capacity() >= 1 && q.consumer.PopHaveHead?
  {
    q.consumer.h == IndexOf(q, pushes)
  }

  function Pop<M>(q: Queue<M>, a: PopAction): Queue<M>
    requires q.Capacity() >= 1 && CanPop(q, a)
  {
    match a
    case BeginPop => q.(consumer := PopHaveHead(q.head))
    case LoadTail(pushes) =>
      q.(seenPushes := pushes,
         consumer := if ReadsEmpty(q, pushes) then PopIdle else PopAtSlot(q.consumer.h))
    case ReadSlot => q.(consumer := PopAtStore(q.consumer.h, q.slots[q.consumer.h]))
    case StoreHead =>
      q.(head := q.Mask(q.consumer.h + 1), popped := q.popped + [q.consumer.out], consumer := PopIdle)
  }

  // ----- the invariant

  ghost predicate Stored<M>(q: Queue<M>, k: nat)
    requires |q.slots| == q.Capacity() >= 1 && k < |q.pushed|
  {
    q.slots[k % q.Capacity()] == q.pushed[k]
  }

  /** The slots hold the elements pushed and not yet popped. */
  ghost predicate AllStored<M>(q: Queue<M>)
    requires |q.slots| == q.Capacity() >= 1
  {
    forall k :: |q.popped| <= k < |q.pushed| ==> Stored(q, k)
  }

  ghost predicate ProducerOK<M>(q: Queue<M>)
    requires |q.slots| == q.Capacity() >= 1
  {
    match q.producer
    case PushIdle => true
    case PushHaveTail(_, t) => t == q.tail
    case PushAtSlot(_, t) => t == q.tail && |q.pushed| + 1 < q.seenPops + q.Capacity()
    case PushAtStore(item, t) =>
      t == q.tail && |q.pushed| + 1 < q.seenPops + q.Capacity() && t < |q.slots| && q.slots[t] == item
  }

  ghost predicate ConsumerOK<M>(q: Queue<M>) {
    match q.consumer
    case PopIdle => true
    case PopHaveHead(h) => h == q.head
    case PopAtSlot(h) => h == q.head && |q.popped| < q.seenPushes
    case PopAtStore(h, out) => h == q.head && |q.popped| < q.seenPushes <= |q.pushed| && out == q.pushed[|q.popped|]
  }

  ghost predicate QueueOK<M>(q: Queue<M>) {
    && |q.slots| == q.Capacity() >= 1
    && q.tail == |q.pushed| % q.Capacity()
    && q.head == |q.popped| % q.Capacity()
    && q.popped <= q.pushed
    && q.seenPops <= |q.popped| <= q.seenPushes <= |q.pushed|
    && |q.pushed| < q.seenPops + q.Capacity()
    && AllStored(q)
    && ProducerOK(q)
    && ConsumerOK(q)
  }

  lemma InitialOK<M>(q: Queue<M>)
    requires Initial(q)
    ensures QueueOK(q)
  {
    AndMask(0, q.logCapacity);
  }

  /** The masked successor of an index is the index of the next count. */
  lemma MaskedNext<M>(q: Queue<M>, count: nat)
    requires q.Capacity() >= 1
    ensures q.Mask(count % q.Capacity() + 1) == (count + 1) % q.Capacity()
  {
    AndMask(count % q.Capacity() + 1, q.logCapacity);
    NextSlot(count, q.Capacity());
  }

  /** The full test, on whatever index was read, is about the counts: it succeeds exactly when the
      ring, as far as the producer can tell, holds all but one of its slots. */
  lemma FullExact<M>(q: Queue<M>, pops: nat)
    requires QueueOK(q) && CanPush(q, LoadHead(pops))
    ensures ReadsFull(q, pops) <==> |q.pushed| + 1 == pops + q.Capacity()
  {
    var c := q.Capacity();
    MaskedNext(q, |q.pushed|);
    if |q.pushed| + 1 < pops + c {
      SlotsDistinct(|q.pushed| + 1, pops, c);
    } else {
      ModUnique(pops + c, c, pops / c + 1, pops % c) by { assert c * (pops / c + 1) == c * (pops / c) + c; }
    }
  }

  lemma EmptyExact<M>(q: Queue<M>, pushes: nat)
    requires QueueOK(q) && CanPop(q, LoadTail(pushes))
    ensures |q.popped| <= pushes
    ensures ReadsEmpty(q, pushes) <==> |q.popped| == pushes
  {
    SlotsDistinct(pushes, |q.popped|, q.Capacity());
  }

  /** Writing the producer's slot disturbs no element of the ring. */
  lemma WriteElsewhere<M>(q: Queue<M>, k: nat)
    requires QueueOK(q) && q.producer.PushAtSlot? && |q.popped| <= k < |q.pushed|
    ensures k % q.Capacity() != q.producer.t
  {
    SlotsDistinct(|q.pushed|, k, q.Capacity());
  }

  /** Steps that leave slots and pushes alone leave the ring alone. */
  lemma SameRing<M>(q: Queue<M>, q': Queue<M>)
    requires |q.slots| == q.Capacity() >= 1 && q'.slots == q.slots && q'.logCapacity == q.logCapacity
    requires AllStored(q) && q'.pushed == q.pushed && |q.popped| <= |q'.popped|
    ensures AllStored(q')
  {
    forall k | |q'.popped| <= k < |q'.pushed|
      ensures Stored(q', k)
    {
      assert Stored(q, k);
    }
  }

  lemma WriteKeeps<M>(q: Queue<M>)
    requires QueueOK(q) && CanPush(q, WriteSlot)
    ensures QueueOK(Push(q, WriteSlot))
  {
    var q' := Push(q, WriteSlot);
    forall k | |q.popped| <= k < |q.pushed|
      ensures Stored(q', k)
    {
      WriteElsewhere(q, k);
      assert Stored(q, k);
    }
    if q.consumer.PopAtStore? { assert Stored(q, |q.popped|); }
  }

  lemma StoreTailKeeps<M>(q: Queue<M>)
    requires QueueOK(q) && CanPush(q, StoreTail)
    ensures QueueOK(Push(q, StoreTail))
  {
    var q' := Push(q, StoreTail);
    MaskedNext(q, |q.pushed|);
    forall k | |q.popped| <= k < |q'.pushed|
      ensures Stored(q', k)
    {
      if k < |q.pushed| { assert Stored(q, k); }
    }
  }

  lemma PushKeeps<M>(q: Queue<M>, a: PushAction<M>)
    requires QueueOK(q) && CanPush(q, a)
    ensures QueueOK(Push(q, a))
    ensures Push(q, a).pushed == if a.StoreTail? then q.pushed + [q.producer.item] else q.pushed
    ensures Push(q, a).popped == q.popped
  {
    match a
    case BeginPush(_) => SameRing(q, Push(q, a));
    case LoadHead(pops) =>
      FullExact(q, pops);
      SameRing(q, Push(q, a));
    case WriteSlot => WriteKeeps(q);
    case StoreTail => StoreTailKeeps(q);
  }

  lemma StoreHeadKeeps<M>(q: Queue<M>)
    requires QueueOK(q) && CanPop(q, StoreHead)
    ensures QueueOK(Pop(q, StoreHead))
  {
    MaskedNext(q, |q.popped|);
    SameRing(q, Pop(q, StoreHead));
  }

  lemma PopKeeps<M>(q: Queue<M>, a: PopAction)
    requires QueueOK(q) && CanPop(q, a)
    ensures QueueOK(Pop(q, a))
    ensures Pop(q, a).pushed == q.pushed
    ensures Pop(q, a).popped == if a.StoreHead? then q.popped + [q.consumer.out] else q.popped
    ensures a.StoreHead? ==> |q.popped| < |q.pushed| && q.consumer.out == q.pushed[|q.popped|]
  {
    match a
    case BeginPop => SameRing(q, Pop(q, a));
    case LoadTail(pushes) =>
      EmptyExact(q, pushes);
      SameRing(q, Pop(q, a));
    case ReadSlot =>
      assert Stored(q, |q.popped|);
      SameRing(q, Pop(q, a));
    case StoreHead => StoreHeadKeeps(q);
  }

  // ----- runs of the two threads

  datatype Action<M> = Producer(push: PushAction<M>) | Consumer(pop: PopAction)

  predicate Can<M>(q: Queue<M>, a: Action<M>) {
    match a
    case Producer(p) => CanPush(q, p)
    case Consumer(p) => CanPop(q, p)
  }

  function Do<M>(q: Queue<M>, a: Action<M>): Queue<M>
    requires q.Capacity() >= 1 && Can(q, a)
  {
    match a
    case Producer(p) => Push(q, p)
    case Consumer(p) => Pop(q, p)
  }

  /** Some interleaving of steps leads from `q` to `q'`. */
  ghost predicate Interleaving<M>(q: Queue<M>, actions: seq<Action<M>>, q': Queue<M>)
    decreases |actions|
  {
    if actions == [] then q' == q else
      q.Capacity() >= 1 && Can(q, actions[0]) && Interleaving(Do(q, actions[0]), actions[1..], q')
  }

  lemma {:induction false} InterleavingOK<M>(q: Queue<M>, actions: seq<Action<M>>, q': Queue<M>)
    requires QueueOK(q) && Interleaving(q, actions, q')
    ensures QueueOK(q')
    decreases |actions|
  {
    if actions != [] {
      match actions[0] {
        case Producer(p) => PushKeeps(q, p);
        case Consumer(p) => PopKeeps(q, p);
      }
      InterleavingOK(Do(q, actions[0]), actions[1..], q');
    }
  }

  /** The elements in the ring, oldest first. */
  function Contents<M>(q: Queue<M>): seq<M>
    requires |q.slots| == q.Capacity() >= 1 && |q.popped| <= |q.pushed|
  {
    seq(|q.pushed| - |q.popped|, j requires 0 <= j < |q.pushed| - |q.popped| =>
      q.slots[(|q.popped| + j) % q.Capacity()])
  }

  /** Linearizability: in every reachable state of every interleaving the pushes are the pops followed
      by what the ring holds, of which there are at most capacity - 1. */
  lemma Linearizable<M>(q0: Queue<M>, actions: seq<Action<M>>, q: Queue<M>)
    requires Initial(q0) && Interleaving(q0, actions, q)
    ensures QueueOK(q)
    ensures q.pushed == q.popped + Contents(q)
    ensures |Contents(q)| <= q.Capacity() - 1
  {
    InitialOK(q0);
    InterleavingOK(q0, actions, q);
    RingIsRest(q);
  }

  lemma RingIsRest<M>(q: Queue<M>)
    requires QueueOK(q)
    ensures q.pushed == q.popped + Contents(q)
  {
    var rest := q.pushed[|q.popped|..];
    forall j | 0 <= j < |rest|
      ensures Contents(q)[j] == rest[j]
    {
      assert Stored(q, |q.popped| + j);
    }
    assert Contents(q) == rest;
  }

  /** No data race on a slot. The producer about to write has seen the pop that emptied the slot; the
      consumer about to read has seen the push that filled it; and they are never at the same slot. */
  lemma RaceFree<M>(q: Queue<M>)
    requires QueueOK(q)
    ensures q.producer.PushAtSlot? ==> |q.pushed| < q.seenPops + q.Capacity() && q.producer.t == |q.pushed| % q.Capacity()
    ensures q.consumer.PopAtSlot? ==> |q.popped| < q.seenPushes && q.consumer.h == |q.popped| % q.Capacity()
    ensures q.producer.PushAtSlot? && q.consumer.PopAtSlot? ==> q.producer.t != q.consumer.h
    ensures q.producer.PushAtSlot? ==> forall k :: |q.popped| <= k < |q.pushed| ==> k % q.Capacity() != q.producer.t
  {
    if q.producer.PushAtSlot? {
      forall k | |q.popped| <= k < |q.pushed|
        ensures k % q.Capacity() != q.producer.t
      {
        WriteElsewhere(q, k);
      }
    }
  }

  // ----- one call at a time

  /** Neither thread is inside a call, and each knows the other's progress. */
  predicate Quiet<M>(q: Queue<M>) {
    q.producer.PushIdle? && q.consumer.PopIdle? && q.seenPops == |q.popped| && q.seenPushes == |q.pushed|
  }

  /** Between calls either thread may learn the other's progress. */
  lemma Acknowledged<M>(q: Queue<M>)
    requires QueueOK(q) && q.producer.PushIdle? && q.consumer.PopIdle?
    ensures QueueOK(q.(seenPops := |q.popped|, seenPushes := |q.pushed|))
  {
    SameRing(q, q.(seenPops := |q.popped|, seenPushes := |q.pushed|));
  }

  lemma PushedContents<M>(q: Queue<M>, q': Queue<M>, item: M)
    requires QueueOK(q) && QueueOK(q') && q'.pushed == q.pushed + [item] && q'.popped == q.popped
    ensures Contents(q') == Contents(q) + [item]
  {
    RingIsRest(q);
    RingIsRest(q');
    Suffixes(q.popped, Contents(q), item, Contents(q'));
  }

  lemma PoppedContents<M>(q: Queue<M>, q': Queue<M>, out: M)
    requires QueueOK(q) && QueueOK(q') && q'.pushed == q.pushed && q'.popped == q.popped + [out]
    ensures Contents(q) == [out] + Contents(q')
  {
    RingIsRest(q);
    RingIsRest(q');
    Prefixes(q.popped, out, Contents(q'), Contents(q));
  }

  /** The state after a `try_push` that ran alone and found room. */
  function PushedAlone<M>(q: Queue<M>, item: M): Queue<M>
    requires q.tail < |q.slots|
  {
    q.(slots := q.slots[q.tail := item], tail := q.Mask(q.tail + 1), pushed := q.pushed + [item])
  }

  lemma PushAlone<M>(q: Queue<M>, item: M)
    requires QueueOK(q) && Quiet(q) && q.tail < |q.slots| && q.Mask(q.tail + 1) != q.head
    ensures QueueOK(PushedAlone(q, item))
  {
    var q1 := Push(q, BeginPush(item));
    PushKeeps(q, BeginPush(item));
    PushKeeps(q1, LoadHead(|q.popped|));
    var q2 := Push(q1, LoadHead(|q.popped|));
    PushKeeps(q2, WriteSlot);
    PushKeeps(Push(q2, WriteSlot), StoreTail);
  }

  /** A `try_push` that runs alone. */
  lemma QuietPush<M>(q: Queue<M>, item: M)
    requires QueueOK(q) && Quiet(q)
    ensures q.tail < |q.slots|
    ensures q.Mask(q.tail + 1) == q.head <==> |Contents(q)| == q.Capacity() - 1
    ensures q.Mask(q.tail + 1) != q.head ==>
      var q' := PushedAlone(q, item).(seenPushes := |q.pushed| + 1);
      QueueOK(q') && Quiet(q') && Contents(q') == Contents(q) + [item]
  {
    PushKeeps(q, BeginPush(item));
    FullExact(Push(q, BeginPush(item)), |q.popped|);
    if q.Mask(q.tail + 1) != q.head {
      PushAlone(q, item);
      Acknowledged(PushedAlone(q, item));
      PushedContents(q, PushedAlone(q, item).(seenPushes := |q.pushed| + 1), item);
    }
  }

  lemma Suffixes<M>(a: seq<M>, b: seq<M>, x: M, c: seq<M>)
    requires a + b + [x] == a + c
    ensures c == b + [x]
  {
    assert c == (a + c)[|a|..];
    assert b + [x] == (a + b + [x])[|a|..];
  }

  /** The state after a `try_pop` that ran alone and found an element. */
  function PoppedAlone<M>(q: Queue<M>): Queue<M>
    requires q.head < |q.slots|
  {
    q.(head := q.Mask(q.head + 1), popped := q.popped + [q.slots[q.head]])
  }

  lemma PopAlone<M>(q: Queue<M>)
    requires QueueOK(q) && Quiet(q) && q.head < |q.slots| && q.head != q.tail
    ensures QueueOK(PoppedAlone(q))
  {
    var q1 := Pop(q, BeginPop);
    PopKeeps(q, BeginPop);
    PopKeeps(q1, LoadTail(|q.pushed|));
    var q2 := Pop(q1, LoadTail(|q.pushed|));
    PopKeeps(q2, ReadSlot);
    PopKeeps(Pop(q2, ReadSlot), StoreHead);
  }

  /** A `try_pop` that runs alone. */
  lemma QuietPop<M>(q: Queue<M>)
    requires QueueOK(q) && Quiet(q)
    ensures q.head < |q.slots|
    ensures q.head == q.tail <==> Contents(q) == []
    ensures q.head != q.tail ==>
      var q' := PoppedAlone(q).(seenPops := |q.popped| + 1);
      QueueOK(q') && Quiet(q') && Contents(q) == [q.slots[q.head]] + Contents(q')
  {
    PopKeeps(q, BeginPop);
    EmptyExact(Pop(q, BeginPop), |q.pushed|);
    if q.head != q.tail {
      PopAlone(q);
      Acknowledged(PoppedAlone(q));
      PoppedContents(q, PoppedAlone(q).(seenPops := |q.popped| + 1), q.slots[q.head]);
    }
  }

  lemma Prefixes<M>(a: seq<M>, x: M, b: seq<M>, c: seq<M>)
    requires a + [x] + b == a + c
    ensures c == [x] + b
  {
    assert c == (a + c)[|a|..];
    assert [x] + b == (a + [x] + b)[|a|..];
  }

  /** `size_approx` is exact in quiet states, however often the indices have wrapped. */
  lemma QuietSize<M>(q: Queue<M>)
    requires QueueOK(q) && q.logCapacity <= 64
    ensures Pow2(64) == TWO_64
    ensures q.Mask((q.tail - q.head) % TWO_64) == |Contents(q)|
  {
    Pow2At64();
    MaskedDistance(|q.pushed|, |q.popped|, q.logCapacity, 64);
  }

  /** `SPSCQueue` used by one thread at a time. */
  class SpscQueue<M(0)> {
    const logCapacity: nat
    const slots: array<M>
    var head: nat
    var tail: nat
    ghost var pushed: seq<M>
    ghost var popped: seq<M>

    ghost function View(): Queue<M>
      reads this, slots
    {
      Queue(logCapacity, slots[..], head, tail, PushIdle, PopIdle, pushed, popped, |popped|, |pushed|)
    }

    ghost predicate Valid()
      reads this, slots
    {
      logCapacity <= 64 && QueueOK(View())
    }

    /** What the queue holds, oldest first. */
    ghost function Elements(): seq<M>
      requires Valid()
      reads this, slots
    {
      Contents(View())
    }

    constructor (logCapacity: nat)
      requires logCapacity <= 64
      ensures Valid() && Elements() == [] && fresh(slots) && slots.Length == Pow2(logCapacity)
    {
      this.logCapacity := logCapacity;
      slots := new M[Pow2(logCapacity)];
      head, tail, pushed, popped := 0, 0, [], [];
      new;
      InitialOK(View());
    }

    function Mask(i: nat): nat
      reads slots
    {
      And(i, if slots.Length == 0 then 0 else slots.Length - 1)
    }

    method TryPush(item: M) returns (ok: bool)
      requires Valid()
      modifies this, slots
      ensures Valid()
      ensures ok <==> old(|Elements()|) < slots.Length - 1
      ensures Elements() == if ok then old(Elements()) + [item] else old(Elements())
    {
      QuietPush(View(), item);
      var next := Mask(tail + 1);
      if next == head { return false; }
      slots[tail] := item;
      tail := next;
      pushed := pushed + [item];
      return true;
    }

    method TryPop() returns (ok: bool, out: M)
      requires Valid()
      modifies this
      ensures Valid()
      ensures ok <==> old(Elements()) != []
      ensures ok ==> old(Elements()) == [out] + Elements()
      ensures !ok ==> Elements() == old(Elements())
    {
      QuietPop(View());
      out := slots[head];
      if head == tail { return false, out; }
      popped := popped + [out];
      head := Mask(head + 1);
      return true, out;
    }

    method Empty() returns (empty: bool)
      requires Valid()
      ensures empty <==> Elements() == []
    {
      QuietPop(View());
      empty := head == tail;
    }

    method SizeApprox() returns (n: nat)
      requires Valid()
      ensures n == |Elements()|
    {
      QuietSize(View());
      n := Mask((tail - head) % TWO_64);
    }
  }
}
