/** Laws of the market: algebra of the messages, recentring, halts, what is displayed over runs. */
module Laws {
  import opened Machine
  import opened Windows
  import opened Markets
  import opened Depths

  // ----- algebra of the handlers

  /** A replace is a delete and an add on the old side, exactly when the book is open:
      a closed book still accepts the order of a replace. */
  lemma ReplaceIsDeleteThenAdd(mk: Market, oldRef: u64, newRef: u64, shares: u32, price: u32)
    requires oldRef in mk.orders && (newRef in mk.orders ==> newRef == oldRef)
    ensures mk.open <==>
      Step(mk, Replace(oldRef, newRef, shares, price)) ==
      Step(Step(mk, Delete(oldRef)), Add(newRef, mk.orders[oldRef].side, shares, price))
  {
    var replaced := Step(mk, Replace(oldRef, newRef, shares, price));
    assert newRef in replaced.orders;
    assert newRef !in Step(mk, Delete(oldRef)).orders;
  }

  /** On a closed book only a replace of a live order can bring in a new one. */
  lemma ClosedEntry(mk: Market, msg: Msg, r: u64)
    requires !mk.open && r !in mk.orders
    ensures r in Step(mk, msg).orders <==> msg.Replace? && msg.oldRef in mk.orders && msg.newRef == r
  {
  }

  const CLOSED_REPLACE: seq<Msg> := [Session('O'), Add(1, 'B', 100, 1000), Session('C'), Replace(1, 2, 50, 1000)]

  /** A well-formed feed that puts a new order on a closed book. */
  lemma ClosedReplaceEnters()
    ensures WellFormedRun(FRESH, 1, CLOSED_REPLACE)
    ensures var mk, mk' := Run(FRESH, CLOSED_REPLACE[..3]), Run(FRESH, CLOSED_REPLACE);
      !mk.open && 2 !in mk.orders && !mk'.open && 2 in mk'.orders
  {
    var m1, m2, m3 := CLOSED_REPLACE[..1], CLOSED_REPLACE[..2], CLOSED_REPLACE[..3];
    assert m1[..0] == [] && m2[..1] == m1 && m3[..2] == m2;
    assert Run(FRESH, m1) == Step(FRESH, Session('O'));
    assert Run(FRESH, m2) == Step(Run(FRESH, m1), Add(1, 'B', 100, 1000));
    assert Run(FRESH, m3) == Step(Run(FRESH, m2), Session('C'));
    assert WellFormedRun(FRESH, 1, m1) && WellFormedRun(FRESH, 1, m2) && WellFormedRun(FRESH, 1, m3);
  }

  /** Two reductions amount to one. */
  lemma ReduceTwice(mk: Market, ref: u64, q1: u32, q2: u32)
    requires ref in mk.orders ==> q1 + q2 <= mk.orders[ref].shares
    requires q1 + q2 < TWO_32
    ensures Reduced(Reduced(mk, ref, q1), ref, q2) == Reduced(mk, ref, q1 + q2)
  {
    if ref in mk.orders && q1 < mk.orders[ref].shares {
      ShrunkReduced(mk, ref, q1);
      ShrunkReduced(mk, ref, q1 + q2);
      ShrunkReduced(Shrunk(mk, ref, q1), ref, q2);
      assert Shrunk(Shrunk(mk, ref, q1), ref, q2) == Shrunk(mk, ref, q1 + q2);
      assert Withdrawn(Shrunk(mk, ref, q1 + q2), ref) == Withdrawn(mk, ref);
    }
  }

  /** A full execution or cancellation is a delete. */
  lemma FullReduceIsDelete(mk: Market, ref: u64, qty: u32)
    requires ref in mk.orders && qty == mk.orders[ref].shares
    ensures Step(mk, Execute(ref, qty)) == Step(mk, Cancel(ref, qty)) == Step(mk, Delete(ref))
  {
  }

  predicate Retires(msg: Msg, ref: u64) {
    match msg
    case Execute(r, _) => r == ref
    case Cancel(r, _) => r == ref
    case Delete(r) => r == ref
    case _ => false
  }

  /** What a reduction or delete of `ref` leaves of its order. */
  function LeftOf(e: Entry, msg: Msg): (left: u32) {
    match msg
    case Execute(_, qty) => Sub32(e.shares, qty)
    case Cancel(_, qty) => Sub32(e.shares, qty)
    case _ => 0
  }

  function Retired(orders: map<u64, Entry>, ref: u64, msg: Msg): map<u64, Entry> {
    if ref !in orders then orders
    else if LeftOf(orders[ref], msg) == 0 then orders - {ref}
    else orders[ref := orders[ref].(shares := LeftOf(orders[ref], msg))]
  }

  lemma RetireEffect(mk: Market, ref: u64, msg: Msg)
    requires Retires(msg, ref)
    ensures Step(mk, msg) == mk.(orders := Retired(mk.orders, ref, msg))
  {
    if ref !in mk.orders {
      assert mk.orders - {ref} == mk.orders;
    }
  }

  lemma RetiredCommute(orders: map<u64, Entry>, a: u64, m: Msg, b: u64, n: Msg)
    requires a != b
    ensures Retired(Retired(orders, a, m), b, n) == Retired(Retired(orders, b, n), a, m)
  {
  }

  /** Reductions and deletes of distinct orders commute. */
  lemma RetiresCommute(mk: Market, a: u64, m: Msg, b: u64, n: Msg)
    requires Retires(m, a) && Retires(n, b) && a != b
    ensures Step(Step(mk, m), n) == Step(Step(mk, n), m)
  {
    RetireEffect(mk, a, m);
    RetireEffect(mk, b, n);
    RetireEffect(Step(mk, m), b, n);
    RetireEffect(Step(mk, n), a, m);
    RetiredCommute(mk.orders, a, m, b, n);
  }

  // ----- recentring

  /** After a recentring an order of the side is displayed exactly when it lies in the window of
      the new price. */
  lemma RecentreShows(mk: Market, ref: u64, side: char, shares: u32, price: u32, r: u64)
    requires (side == 'B' || side == 'S') && Recentres(side, mk.Ref(side), price)
    requires r in mk.orders && r != ref && mk.orders[r].side == side
    ensures !Stranded(Placed(mk, ref, side, shares, price), r) <==>
      if side == 'B' then price - K_LEVELS < mk.orders[r].price <= price
      else price <= mk.orders[r].price < price + K_LEVELS
  {
  }

  /** A recentring, in either direction and from any state, leaves the whole side displayed exactly when
      every order of the side lies in the window of the new price. */
  lemma RecentreKeepsAll(mk: Market, ref: u64, side: char, shares: u32, price: u32)
    requires (side == 'B' || side == 'S') && ref !in mk.orders && PriceOK(price)
    requires Recentres(side, mk.Ref(side), price)
    ensures ShowsAll(Placed(mk, ref, side, shares, price), side) <==> AllWithin(mk.orders, side, price)
  {
    PlacedShows(mk, ref, side, shares, price, side);
  }

  /** A bid below the floor, or an ask above the ceiling, hides every order displayed so far. */
  lemma FarRecentreHides(mk: Market, ref: u64, side: char, shares: u32, price: u32, r: u64)
    requires (side == 'B' || side == 'S') && ref !in mk.orders
    requires mk.Ref(side) != 0 && Offset(side, mk.Ref(side), price) >= K_LEVELS
    requires r in Shown(mk, side)
    ensures r in Placed(mk, ref, side, shares, price).orders && Stranded(Placed(mk, ref, side, shares, price), r)
  {
  }

  /** From a side that strands nothing, a bid below the floor (an ask above the ceiling) can be
      absorbed without loss only by a side without orders. */
  lemma FarRecentreLoses(mk: Market, ref: u64, side: char, shares: u32, price: u32)
    requires (side == 'B' || side == 'S') && ref !in mk.orders
    requires mk.Ref(side) != 0 && Offset(side, mk.Ref(side), price) >= K_LEVELS
    requires forall r :: r in mk.orders && mk.orders[r].side == side ==> !Stranded(mk, r)
    ensures var mk' := Placed(mk, ref, side, shares, price);
      (forall r :: r in mk'.orders && mk'.orders[r].side == side ==> !Stranded(mk', r)) <==>
      (forall r :: r in mk.orders ==> mk.orders[r].side != side)
  {
    var mk' := Placed(mk, ref, side, shares, price);
    if r :| r in mk.orders && mk.orders[r].side == side {
      FarRecentreHides(mk, ref, side, shares, price, r);
    }
  }

  const FAR_BID: seq<Msg> := [Session('O'), Add(1, 'B', 100, 20000), Add(2, 'B', 50, 1000)]

  /** A well-formed feed whose third message hides the better bid: the book then shows 1000 as the
      best bid although an order rests at 20000. */
  lemma RecentreHidesBetterBid()
    ensures WellFormedRun(FRESH, 2, FAR_BID)
    ensures var mk := Run(FRESH, FAR_BID);
      && Stranded(mk, 1) && mk.orders[1].price == 20000
      && IsTop(mk, 'B', 1000, 50)
  {
    var m1, m2 := FAR_BID[..1], FAR_BID[..2];
    assert m1[..0] == [] && m2[..1] == m1 && FAR_BID[..2] == m2;
    assert Run(FRESH, m1) == Step(FRESH, Session('O'));
    assert Run(FRESH, m2) == Step(Run(FRESH, m1), Add(1, 'B', 100, 20000));
    assert WellFormedRun(FRESH, 2, m1) && WellFormedRun(FRESH, 2, m2);
    var mk := Run(FRESH, FAR_BID);
    assert mk.orders.Keys == {1, 2};
    assert 2 in Shown(mk, 'B') && 1 !in Shown(mk, 'B');
    assert At(mk.orders, 'B', 1000) == {2};
    TotalPick(mk.orders, {2}, 2);
  }

  const UPWARD_BID: seq<Msg> := [Session('O'), Add(1, 'B', 100, 1000), Add(2, 'B', 50, 20000), Delete(2)]

  /** The other direction, where the window moves up: a well-formed feed after which the book publishes
      no bid at all although an order rests at 1000. */
  lemma UpwardRecentreHidesOnlyBid()
    ensures WellFormedRun(FRESH, 2, UPWARD_BID)
    ensures var mk := Run(FRESH, UPWARD_BID);
      && Stranded(mk, 1) && mk.orders[1].price == 1000
      && IsTop(mk, 'B', 0, 0) && !IsTrueTop(mk.orders, 'B', 0, 0)
  {
    var m1, m2, m3 := UPWARD_BID[..1], UPWARD_BID[..2], UPWARD_BID[..3];
    assert m1[..0] == [] && m2[..1] == m1 && m3[..2] == m2;
    assert Run(FRESH, m1) == Step(FRESH, Session('O'));
    assert Run(FRESH, m2) == Step(Run(FRESH, m1), Add(1, 'B', 100, 1000));
    assert Run(FRESH, m3) == Step(Run(FRESH, m2), Add(2, 'B', 50, 20000));
    assert WellFormedRun(FRESH, 2, m1) && WellFormedRun(FRESH, 2, m2) && WellFormedRun(FRESH, 2, m3);
    var mk := Run(FRESH, UPWARD_BID);
    assert mk.orders.Keys == {1};
    assert Shown(mk, 'B') == {};
    assert 1 in OfSide(mk.orders, 'B');
  }

  // ----- halts

  /** The same orders, session state and clock, under possibly different references. */
  predicate SameOrders(mk: Market, mk': Market) {
    mk'.orders == mk.orders && mk'.open == mk.open && mk'.clock == mk.clock
  }

  lemma PlacedSame(mk: Market, mk': Market, ref: u64, side: char, shares: u32, price: u32)
    requires SameOrders(mk, mk')
    ensures SameOrders(Placed(mk, ref, side, shares, price), Placed(mk', ref, side, shares, price))
  {
  }

  lemma ReducedSame(mk: Market, mk': Market, ref: u64, qty: u32)
    requires SameOrders(mk, mk')
    ensures SameOrders(Reduced(mk, ref, qty), Reduced(mk', ref, qty))
  {
  }

  lemma StepIgnoresRefs(mk: Market, mk': Market, msg: Msg)
    requires SameOrders(mk, mk')
    ensures SameOrders(Step(mk, msg), Step(mk', msg))
  {
    match msg
    case Session(code) =>
    case Add(ref, side, shares, price) => PlacedSame(mk, mk', ref, side, shares, price);
    case Execute(ref, qty) => ReducedSame(mk, mk', ref, qty);
    case Cancel(ref, qty) => ReducedSame(mk, mk', ref, qty);
    case Delete(ref) =>
    case Replace(oldRef, newRef, shares, price) =>
      if oldRef in mk.orders {
        PlacedSame(Withdrawn(mk, oldRef), Withdrawn(mk', oldRef), newRef, mk.orders[oldRef].side, shares, price);
      }
    case Ignored =>
  }

  /** Orders, session state and clock do not depend on the reference prices. */
  lemma {:induction false} RunIgnoresRefs(mk: Market, mk': Market, msgs: seq<Msg>)
    requires SameOrders(mk, mk')
    ensures SameOrders(Run(mk, msgs), Run(mk', msgs))
  {
    if msgs != [] {
      var init := msgs[..|msgs| - 1];
      RunIgnoresRefs(mk, mk', init);
      StepIgnoresRefs(Run(mk, init), Run(mk', init), msgs[|msgs| - 1]);
    }
  }

  /** After a halt the book keeps its references, yet any continuation gives the same orders as on a
      fresh book, and the same top of a side whenever both books display its best order. */
  lemma HaltedLikeFresh(mk: Market, msgs: seq<Msg>)
    ensures var h, f := Run(Step(mk, Session('H')), msgs), Run(FRESH, msgs);
      && h.orders == f.orders && |h.orders| == |f.orders| && h.open == f.open
      && (forall side, price, qty :: BestShown(h, side) && BestShown(f, side) ==>
        (IsTop(h, side, price, qty) <==> IsTop(f, side, price, qty)))
  {
    var h, f := Run(Step(mk, Session('H')), msgs), Run(FRESH, msgs);
    RunIgnoresRefs(Step(mk, Session('H')), FRESH, msgs);
    forall side, price, qty | BestShown(h, side) && BestShown(f, side)
      ensures IsTop(h, side, price, qty) <==> IsTop(f, side, price, qty)
    {
      TopOfAll(h, side, price, qty);
      TopOfAll(f, side, price, qty);
    }
  }

  // ----- recentrings over runs

  /** The message moves the window of `side`. */
  predicate Disturbs(mk: Market, msg: Msg, side: char) {
    match msg
    case Add(_, s, _, price) => mk.open && (s == 'B') == (side == 'B') && Recentres(s, mk.Ref(s), price)
    case Replace(oldRef, _, _, price) =>
      && oldRef in mk.orders
      && var s := mk.orders[oldRef].side; (s == 'B') == (side == 'B') && Recentres(s, mk.Ref(s), price)
    case _ => false
  }

  /** No message from position `from` on recentres the side. */
  ghost predicate Undisturbed(mk: Market, msgs: seq<Msg>, from: nat, side: char) {
    forall k :: from <= k < |msgs| ==> !Disturbs(Run(mk, msgs[..k]), msgs[k], side)
  }

  lemma UndisturbedSnoc(mk: Market, msgs: seq<Msg>, from: nat, side: char)
    requires msgs != [] && from < |msgs|
    ensures var n := |msgs| - 1;
      Undisturbed(mk, msgs, from, side) <==>
      Undisturbed(mk, msgs[..n], from, side) && !Disturbs(Run(mk, msgs[..n]), msgs[n], side)
  {
    var n := |msgs| - 1;
    assert forall k :: 0 <= k <= n ==> msgs[..n][..k] == msgs[..k];
    if Undisturbed(mk, msgs, from, side) {
      forall k | from <= k < n
        ensures !Disturbs(Run(mk, msgs[..n][..k]), msgs[..n][k], side)
      {
        assert !Disturbs(Run(mk, msgs[..k]), msgs[k], side);
      }
    }
    if Undisturbed(mk, msgs[..n], from, side) && !Disturbs(Run(mk, msgs[..n]), msgs[n], side) {
      forall k | from <= k < |msgs|
        ensures !Disturbs(Run(mk, msgs[..k]), msgs[k], side)
      {
        assert k < n ==> !Disturbs(Run(mk, msgs[..n][..k]), msgs[..n][k], side);
      }
    }
  }

  // ----- what is displayed over runs

  /** Every order of the side lies in the window of `refPrice`. */
  ghost predicate AllWithin(orders: map<u64, Entry>, side: char, refPrice: int) {
    forall r :: r in OfSide(orders, side) ==> InWindow(side, refPrice, orders[r].price)
  }

  /** A side never used has no orders. */
  ghost predicate Anchored(mk: Market, side: char) {
    mk.Ref(side) == 0 ==> OfSide(mk.orders, side) == {}
  }

  /** Every order of the side is displayed. */
  ghost predicate ShowsAll(mk: Market, side: char) {
    forall r :: r in OfSide(mk.orders, side) ==> !Stranded(mk, r)
  }

  /** An insertion strands no order it does not relist, and never its own. */
  lemma PlacedStrands(mk: Market, ref: u64, s: char, shares: u32, price: u32, side: char, r: u64)
    requires (side == 'B' || side == 'S') && ref !in mk.orders && PriceOK(price)
    requires Anchored(mk, side) || ((s == 'B') == (side == 'B') && Recentres(s, mk.Ref(s), price))
    requires r in OfSide(Placed(mk, ref, s, shares, price).orders, side)
    ensures Stranded(Placed(mk, ref, s, shares, price), r) <==>
      && r != ref
      && if (s == 'B') == (side == 'B') && Recentres(s, mk.Ref(s), price)
         then !InWindow(side, price, mk.orders[r].price) else Stranded(mk, r)
  {
    assert r != ref ==> r in OfSide(mk.orders, side);
  }

  lemma PlacedShows(mk: Market, ref: u64, s: char, shares: u32, price: u32, side: char)
    requires (side == 'B' || side == 'S') && ref !in mk.orders && PriceOK(price)
    requires Anchored(mk, side) || ((s == 'B') == (side == 'B') && Recentres(s, mk.Ref(s), price))
    ensures Anchored(Placed(mk, ref, s, shares, price), side)
    ensures ShowsAll(Placed(mk, ref, s, shares, price), side) <==>
      if (s == 'B') == (side == 'B') && Recentres(s, mk.Ref(s), price)
      then AllWithin(mk.orders, side, price) else ShowsAll(mk, side)
  {
    var mk' := Placed(mk, ref, s, shares, price);
    assert OfSide(mk'.orders, side) == OfSide(mk.orders, side) + (if s == side then {ref} else {});
    forall r | r in OfSide(mk'.orders, side)
      ensures Stranded(mk', r) <==>
        && r != ref
        && if (s == 'B') == (side == 'B') && Recentres(s, mk.Ref(s), price)
           then !InWindow(side, price, mk.orders[r].price) else Stranded(mk, r)
    {
      PlacedStrands(mk, ref, s, shares, price, side, r);
    }
  }

  lemma ReducedShows(mk: Market, ref: u64, qty: u32, side: char)
    requires !Stranded(mk, ref) && Anchored(mk, side)
    ensures Anchored(Reduced(mk, ref, qty), side)
    ensures ShowsAll(Reduced(mk, ref, qty), side) <==> ShowsAll(mk, side)
  {
    var mk' := Reduced(mk, ref, qty);
    assert OfSide(mk'.orders, side) <= OfSide(mk.orders, side) <= OfSide(mk'.orders, side) + {ref};
    assert forall r :: r in mk'.orders ==> (Stranded(mk', r) <==> Stranded(mk, r));
  }

  lemma WithdrawnShows(mk: Market, ref: u64, side: char)
    requires !Stranded(mk, ref) && Anchored(mk, side)
    ensures Anchored(Withdrawn(mk, ref), side)
    ensures ShowsAll(Withdrawn(mk, ref), side) <==> ShowsAll(mk, side)
  {
    var mk' := Withdrawn(mk, ref);
    assert OfSide(mk'.orders, side) == OfSide(mk.orders, side) - {ref};
    assert forall r :: r in mk'.orders ==> (Stranded(mk', r) <==> Stranded(mk, r));
  }

  /** Where the message puts the window covers every order of the side that remains. */
  ghost predicate Covers(mk: Market, msg: Msg, side: char) {
    match msg
    case Add(_, _, _, price) => AllWithin(mk.orders, side, price)
    case Replace(oldRef, _, _, price) => AllWithin(mk.orders - {oldRef}, side, price)
    case _ => true
  }

  /** The side is fully displayed after a well-formed message exactly when the message is a halt, or a
      recentring onto a window that covers the side, or neither and the side was fully displayed before. */
  lemma StepShows(mk: Market, capacity: nat, msg: Msg, side: char)
    requires (side == 'B' || side == 'S') && Anchored(mk, side) && WellFormed(mk, capacity, msg)
    ensures Anchored(Step(mk, msg), side)
    ensures ShowsAll(Step(mk, msg), side) <==>
      if msg == Session('H') then true
      else if Disturbs(mk, msg, side) then Covers(mk, msg, side)
      else ShowsAll(mk, side)
  {
    match msg
    case Session(code) => SessionShows(mk, code, side);
    case Add(ref, s, shares, price) => if mk.open { PlacedShows(mk, ref, s, shares, price, side); }
    case Execute(ref, qty) => ReducedShows(mk, ref, qty, side);
    case Cancel(ref, qty) => ReducedShows(mk, ref, qty, side);
    case Delete(ref) => WithdrawnShows(mk, ref, side);
    case Replace(oldRef, newRef, shares, price) =>
      if oldRef in mk.orders {
        WithdrawnShows(mk, oldRef, side);
        PlacedShows(Withdrawn(mk, oldRef), newRef, mk.orders[oldRef].side, shares, price, side);
      }
    case Ignored =>
  }

  lemma SessionShows(mk: Market, code: char, side: char)
    requires Anchored(mk, side)
    ensures Anchored(Step(mk, Session(code)), side)
    ensures ShowsAll(Step(mk, Session(code)), side) <==> code == 'H' || ShowsAll(mk, side)
  {
    var mk' := Step(mk, Session(code));
    assert forall r :: r in mk'.orders ==> (Stranded(mk', r) <==> Stranded(mk, r));
  }

  /** The message displays the whole side: it halts the book, or recentres onto a covering window. */
  ghost predicate Clears(mk: Market, msg: Msg, side: char) {
    msg == Session('H') || (Disturbs(mk, msg, side) && Covers(mk, msg, side))
  }

  /** Message `h` displayed the whole side, and no later one recentred it. */
  ghost predicate ClearedAt(mk: Market, msgs: seq<Msg>, h: nat, side: char) {
    h < |msgs| && Clears(Run(mk, msgs[..h]), msgs[h], side) && Undisturbed(mk, msgs, h + 1, side)
  }

  /** The last recentring of the run, if any since the last halt, covered the whole side. */
  ghost predicate LastCovers(mk: Market, msgs: seq<Msg>, side: char) {
    (ShowsAll(mk, side) && Undisturbed(mk, msgs, 0, side)) || exists h: nat :: ClearedAt(mk, msgs, h, side)
  }

  lemma ClearedSnoc(mk: Market, msgs: seq<Msg>, h: nat, side: char)
    requires msgs != []
    ensures var n := |msgs| - 1;
      ClearedAt(mk, msgs, h, side) <==>
      (h == n && Clears(Run(mk, msgs[..n]), msgs[n], side)) ||
      (ClearedAt(mk, msgs[..n], h, side) && !Disturbs(Run(mk, msgs[..n]), msgs[n], side))
  {
    var n := |msgs| - 1;
    if h < n {
      assert msgs[..n][..h] == msgs[..h];
      UndisturbedSnoc(mk, msgs, h + 1, side);
    }
  }

  lemma LastCoversSnoc(mk: Market, msgs: seq<Msg>, side: char)
    requires msgs != []
    ensures var n := |msgs| - 1;
      LastCovers(mk, msgs, side) <==>
      Clears(Run(mk, msgs[..n]), msgs[n], side) ||
      (LastCovers(mk, msgs[..n], side) && !Disturbs(Run(mk, msgs[..n]), msgs[n], side))
  {
    var n := |msgs| - 1;
    UndisturbedSnoc(mk, msgs, 0, side);
    forall h: nat
      ensures ClearedAt(mk, msgs, h, side) <==>
        (h == n && Clears(Run(mk, msgs[..n]), msgs[n], side)) ||
        (ClearedAt(mk, msgs[..n], h, side) && !Disturbs(Run(mk, msgs[..n]), msgs[n], side))
    {
      ClearedSnoc(mk, msgs, h, side);
    }
    assert Clears(Run(mk, msgs[..n]), msgs[n], side) ==> ClearedAt(mk, msgs, n, side);
  }

  /** Over any well-formed run a side is fully displayed at the end exactly when its last recentring
      since the last halt, if there was one, found all its orders inside the new window. */
  lemma {:induction false} RunShows(mk: Market, capacity: nat, msgs: seq<Msg>, side: char)
    requires (side == 'B' || side == 'S') && Anchored(mk, side) && WellFormedRun(mk, capacity, msgs)
    ensures Anchored(Run(mk, msgs), side)
    ensures ShowsAll(Run(mk, msgs), side) <==> LastCovers(mk, msgs, side)
  {
    if msgs != [] {
      var n := |msgs| - 1;
      RunShows(mk, capacity, msgs[..n], side);
      StepShows(Run(mk, msgs[..n]), capacity, msgs[n], side);
      LastCoversSnoc(mk, msgs, side);
    }
  }

  /** Whole-run top of book: from a fresh book, unless the last recentring of the side left orders
      outside its window, the published price is the best price over all live orders of the side, and the
      published quantity is the shares resting there exactly when they fit 32 bits. */
  lemma RunTop(capacity: nat, msgs: seq<Msg>, side: char, price: u32, qty: u32)
    requires (side == 'B' || side == 'S') && WellFormedRun(FRESH, capacity, msgs)
    requires LastCovers(FRESH, msgs, side) && IsTop(Run(FRESH, msgs), side, price, qty)
    ensures var orders := Run(FRESH, msgs).orders;
      && IsTrueBest(orders, side, price)
      && (IsTrueTop(orders, side, price, qty) <==>
        OfSide(orders, side) == {} || Total(orders, At(orders, side, price)) < TWO_32)
  {
    RunShows(FRESH, capacity, msgs, side);
    AllShownTop(Run(FRESH, msgs), side, price, qty);
  }

  lemma AllShownTop(mk: Market, side: char, price: u32, qty: u32)
    requires ShowsAll(mk, side) && IsTop(mk, side, price, qty)
    ensures IsTrueBest(mk.orders, side, price)
    ensures IsTrueTop(mk.orders, side, price, qty) <==>
      OfSide(mk.orders, side) == {} || Total(mk.orders, At(mk.orders, side, price)) < TWO_32
  {
    assert Shown(mk, side) == OfSide(mk.orders, side);
    TopOfAll(mk, side, price, qty);
  }

  const WIDE_BID: seq<Msg> := [Session('O'), Add(1, 'B', 0xFFFF_FFFF, 1000), Add(2, 'B', 1, 1000)]

  /** A well-formed feed that never recentres, after which the book publishes quantity 0 at its best bid,
      the true one, although 2^32 shares rest there. */
  lemma WideBidPublishesZero()
    ensures WellFormedRun(FRESH, 2, WIDE_BID) && LastCovers(FRESH, WIDE_BID, 'B')
    ensures var mk := Run(FRESH, WIDE_BID);
      && IsTop(mk, 'B', 1000, 0) && IsTrueBest(mk.orders, 'B', 1000)
      && Total(mk.orders, At(mk.orders, 'B', 1000)) == TWO_32
      && !IsTrueTop(mk.orders, 'B', 1000, 0)
  {
    var m1, m2 := WIDE_BID[..1], WIDE_BID[..2];
    assert m1[..0] == [] && m2[..1] == m1;
    assert Run(FRESH, m1) == Step(FRESH, Session('O'));
    assert Run(FRESH, m2) == Step(Run(FRESH, m1), Add(1, 'B', 0xFFFF_FFFF, 1000));
    assert WellFormedRun(FRESH, 2, m1) && WellFormedRun(FRESH, 2, m2);
    var mk := Run(FRESH, WIDE_BID);
    assert mk.orders.Keys == {1, 2};
    assert At(mk.orders, 'B', 1000) == {1, 2};
    TotalPick(mk.orders, {1, 2}, 1);
    TotalPick(mk.orders, {2}, 2);
    assert {1, 2} - {1} == {2};
    assert 1 in Shown(mk, 'B');
    RunShows(FRESH, 2, WIDE_BID, 'B');
    RunTop(2, WIDE_BID, 'B', 1000, 0);
  }

  /** A feed that never moves the window of a side hides none of its orders. */
  lemma UndisturbedShows(mk: Market, capacity: nat, msgs: seq<Msg>, side: char)
    requires (side == 'B' || side == 'S') && Anchored(mk, side) && ShowsAll(mk, side)
    requires WellFormedRun(mk, capacity, msgs) && Undisturbed(mk, msgs, 0, side)
    ensures ShowsAll(Run(mk, msgs), side)
  {
    RunShows(mk, capacity, msgs, side);
  }
}
