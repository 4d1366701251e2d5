/** Time priority over runs: the order of a list against the order in which the messages of the feed
    arrived. */
module Priorities {
  import opened Machine
  import opened Slab
  import opened Windows
  import opened Markets
  import opened Books
  import opened BookFacts
  import opened Laws

  /** The message puts an order of reference `ref` on the book. */
  predicate Lists(mk: Market, msg: Msg, ref: u64) {
    match msg
    case Add(r, _, _, _) => mk.open && r == ref
    case Replace(oldRef, newRef, _, _) => oldRef in mk.orders && newRef == ref
    case _ => false
  }

  /** The position in the feed of the last message that put `ref` on the book. */
  function ArrivedAt(mk: Market, msgs: seq<Msg>, ref: u64): nat {
    if msgs == [] then 0 else
    var n := |msgs| - 1;
    if Lists(Run(mk, msgs[..n]), msgs[n], ref) then n else ArrivedAt(mk, msgs[..n], ref)
  }

  // ----- stamps and the clock

  lemma StepArrival(mk: Market, msg: Msg, r: u64)
    requires r in Step(mk, msg).orders
    ensures if Lists(mk, msg, r) then Step(mk, msg).orders[r].arrival == mk.clock
            else r in mk.orders && Step(mk, msg).orders[r].arrival == mk.orders[r].arrival && msg != Session('H')
  {
  }

  /** Stamps and recentrings lie in the past. */
  ghost predicate Clocked(mk: Market) {
    && mk.bidSince <= mk.clock && mk.askSince <= mk.clock
    && forall r :: r in mk.orders ==> mk.orders[r].arrival < mk.clock
  }

  lemma {:induction false} RunClocked(msgs: seq<Msg>)
    ensures Clocked(Run(FRESH, msgs))
  {
    if msgs != [] {
      var n := |msgs| - 1;
      RunClocked(msgs[..n]);
      var mk, mk' := Run(FRESH, msgs[..n]), Run(FRESH, msgs);
      forall r | r in mk'.orders
        ensures mk'.orders[r].arrival < mk'.clock
      {
        StepArrival(mk, msgs[n], r);
      }
    }
  }

  /** A recentring of the side, and nothing else, sets its mark to the present; a halt takes it back. */
  lemma StepSince(mk: Market, msg: Msg, side: char)
    ensures Step(mk, msg).Since(side) ==
      if msg == Session('H') then 0 else if Disturbs(mk, msg, side) then mk.clock else mk.Since(side)
  {
  }

  /** A live order was listed by the message at its position, and by none after it. */
  lemma {:induction false} ArrivalListed(msgs: seq<Msg>, r: u64)
    requires r in Run(FRESH, msgs).orders
    ensures var a := ArrivedAt(FRESH, msgs, r);
      && a < |msgs| && Lists(Run(FRESH, msgs[..a]), msgs[a], r)
      && (forall k :: a < k < |msgs| ==> !Lists(Run(FRESH, msgs[..k]), msgs[k], r))
  {
    if msgs != [] {
      var n := |msgs| - 1;
      assert forall k :: 0 <= k <= n ==> msgs[..n][..k] == msgs[..k];
      StepArrival(Run(FRESH, msgs[..n]), msgs[n], r);
      if !Lists(Run(FRESH, msgs[..n]), msgs[n], r) {
        ArrivalListed(msgs[..n], r);
      }
    }
  }

  /** Stamps of live orders compare as their positions in the feed. */
  lemma {:induction false} ArrivalOrder(msgs: seq<Msg>, r: u64, s: u64)
    requires r in Run(FRESH, msgs).orders && s in Run(FRESH, msgs).orders
    ensures ArrivedAt(FRESH, msgs, r) < ArrivedAt(FRESH, msgs, s) <==>
      Run(FRESH, msgs).orders[r].arrival < Run(FRESH, msgs).orders[s].arrival
  {
    if msgs != [] {
      var n := |msgs| - 1;
      var mk := Run(FRESH, msgs[..n]);
      StepArrival(mk, msgs[n], r);
      StepArrival(mk, msgs[n], s);
      RunClocked(msgs[..n]);
      if !Lists(mk, msgs[n], r) { ArrivalListed(msgs[..n], r); }
      if !Lists(mk, msgs[n], s) { ArrivalListed(msgs[..n], s); }
      if !Lists(mk, msgs[n], r) && !Lists(mk, msgs[n], s) { ArrivalOrder(msgs[..n], r, s); }
    }
  }

  /** An order is stamped before the mark of a side exactly when the side was recentred after it. */
  lemma {:induction false} ArrivalSince(msgs: seq<Msg>, r: u64, side: char)
    requires r in Run(FRESH, msgs).orders
    ensures Run(FRESH, msgs).orders[r].arrival < Run(FRESH, msgs).Since(side) <==>
      !Undisturbed(FRESH, msgs, ArrivedAt(FRESH, msgs, r) + 1, side)
  {
    if msgs != [] {
      var n := |msgs| - 1;
      var mk := Run(FRESH, msgs[..n]);
      StepArrival(mk, msgs[n], r);
      StepSince(mk, msgs[n], side);
      RunClocked(msgs[..n]);
      if !Lists(mk, msgs[n], r) {
        ArrivalListed(msgs[..n], r);
        ArrivalSince(msgs[..n], r, side);
        UndisturbedSnoc(FRESH, msgs, ArrivedAt(FRESH, msgs, r) + 1, side);
      }
    }
  }

  // ----- the lists

  /** `first` was listed by an earlier message than `second`, or the side was recentred after both. */
  ghost predicate ListedBefore(msgs: seq<Msg>, side: char, first: u64, second: u64) {
    var a, b := ArrivedAt(FRESH, msgs, first), ArrivedAt(FRESH, msgs, second);
    a < b || (!Undisturbed(FRESH, msgs, a + 1, side) && !Undisturbed(FRESH, msgs, b + 1, side))
  }

  lemma StampedBefore(msgs: seq<Msg>, side: char, r: u64, s: u64)
    requires var mk := Run(FRESH, msgs);
      && r in mk.orders && s in mk.orders
      && MayPrecede(mk.Since(side), mk.orders[r].arrival, mk.orders[s].arrival)
    ensures ListedBefore(msgs, side, r, s)
  {
    ArrivalOrder(msgs, r, s);
    ArrivalSince(msgs, r, side);
    ArrivalSince(msgs, s, side);
  }

  /** Whole-run time priority: of two orders in one list the one in front was listed by the earlier
      message, unless the side was recentred after both of them. */
  lemma RunPriority(b: Book, msgs: seq<Msg>, side: char, i: int, j: int, k: int)
    requires BookOK(b) && Abs(b) == Run(FRESH, msgs)
    requires (side == 'B' || side == 'S') && 0 <= i < K_LEVELS && 0 <= j < k < |OnSide(b, side).queues[i]|
    ensures var q := OnSide(b, side).queues[i];
      WithinSlab(|b.slots|, q) && ListedBefore(msgs, side, b.slots[q[j]].orderRef, b.slots[q[k]].orderRef)
  {
    var q := OnSide(b, side).queues[i];
    FifoList(b, side, i);
    StampedBefore(msgs, side, b.slots[q[j]].orderRef, b.slots[q[k]].orderRef);
  }
}
