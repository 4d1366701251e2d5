/** What the market holds at the end of a run, read off the feed: when the book is open, where the
    windows stand, and the life of every order from its listing to its end. */
module Histories {
  import opened Machine
  import opened Markets
  import opened Priorities

  // ----- the session

  /** Message `h` opens the book and nothing after it closes or halts it. */
  predicate OpenedAt(msgs: seq<Msg>, h: nat) {
    && h < |msgs| && msgs[h] == Session('O')
    && forall k :: h < k < |msgs| ==> msgs[k] != Session('C') && msgs[k] != Session('H')
  }

  lemma OpenedSnoc(msgs: seq<Msg>, h: nat)
    requires msgs != []
    ensures OpenedAt(msgs, h) <==>
      (h == |msgs| - 1 && msgs[h] == Session('O')) ||
      (OpenedAt(msgs[..|msgs| - 1], h) && msgs[|msgs| - 1] != Session('C') && msgs[|msgs| - 1] != Session('H'))
  {
  }

  /** A book that starts closed is open at the end of a run exactly when some message opened it and no
      later one closed or halted it. */
  lemma {:induction false} RunOpen(mk: Market, msgs: seq<Msg>)
    requires !mk.open
    ensures Run(mk, msgs).open <==> exists h: nat :: OpenedAt(msgs, h)
  {
    if msgs != [] {
      var n := |msgs| - 1;
      RunOpen(mk, msgs[..n]);
      forall h: nat
        ensures OpenedAt(msgs, h) <==>
          (h == n && msgs[n] == Session('O')) ||
          (OpenedAt(msgs[..n], h) && msgs[n] != Session('C') && msgs[n] != Session('H'))
      {
        OpenedSnoc(msgs, h);
      }
      assert msgs[n] == Session('O') ==> OpenedAt(msgs, n);
    }
  }

  /** A session message other than a halt changes nothing but whether the book is open. */
  lemma SessionKeeps(mk: Market, code: char)
    ensures code != 'H' ==> Step(mk, Session(code)) == mk.(open := code == 'O' || (code != 'C' && mk.open))
    ensures code == 'H' ==> var mk' := Step(mk, Session(code));
      mk'.orders == map[] && !mk'.open && mk'.bidRef == mk.bidRef && mk'.askRef == mk.askRef
  {
  }

  // ----- the windows

  /** The side on which a listing message lists. */
  function ListedSide(mk: Market, msg: Msg): char
    requires msg.Add? || (msg.Replace? && msg.oldRef in mk.orders)
  {
    if msg.Add? then msg.side else mk.orders[msg.oldRef].side
  }

  /** The message lists an order on `side` and finds its window unused, or not covering the price. */
  predicate Moves(mk: Market, msg: Msg, side: char) {
    && (match msg
        case Add(_, _, _, _) => mk.open
        case Replace(oldRef, _, _, _) => oldRef in mk.orders
        case _ => false)
    && (ListedSide(mk, msg) == 'B') == (side == 'B')
    && (mk.Ref(side) == 0 ||
        !(if side == 'B' then mk.bidRef - 8192 < msg.price <= mk.bidRef
          else mk.askRef <= msg.price < mk.askRef + 8192))
  }

  lemma StepRef(mk: Market, msg: Msg, side: char)
    ensures Moves(mk, msg, side) ==> Step(mk, msg).Ref(side) == msg.price
    ensures !Moves(mk, msg, side) ==> Step(mk, msg).Ref(side) == mk.Ref(side)
  {
  }

  /** The first order listed on an unused side sets its reference to its own price. */
  lemma FirstUse(mk: Market, r: u64, s: char, q: u32, p: u32, oldRef: u64)
    requires mk.Ref(s) == 0
    ensures mk.open ==> Step(mk, Add(r, s, q, p)).Ref(s) == p
    ensures oldRef in mk.orders && mk.orders[oldRef].side == s ==> Step(mk, Replace(oldRef, r, q, p)).Ref(s) == p
  {
  }

  /** Message `k` moved the window of `side`, and none after it did. */
  ghost predicate MovedAt(msgs: seq<Msg>, k: nat, side: char) {
    && k < |msgs| && Moves(Run(FRESH, msgs[..k]), msgs[k], side)
    && forall j :: k < j < |msgs| ==> !Moves(Run(FRESH, msgs[..j]), msgs[j], side)
  }

  ghost predicate NeverMoved(msgs: seq<Msg>, side: char) {
    forall k :: 0 <= k < |msgs| ==> !Moves(Run(FRESH, msgs[..k]), msgs[k], side)
  }

  lemma MovedSnoc(msgs: seq<Msg>, k: nat, side: char)
    requires msgs != []
    ensures var n := |msgs| - 1;
      MovedAt(msgs, k, side) <==>
      if k == n then Moves(Run(FRESH, msgs[..n]), msgs[n], side)
      else MovedAt(msgs[..n], k, side) && !Moves(Run(FRESH, msgs[..n]), msgs[n], side)
  {
    var n := |msgs| - 1;
    assert forall j :: 0 <= j <= n ==> msgs[..n][..j] == msgs[..j];
  }

  lemma NeverSnoc(msgs: seq<Msg>, side: char)
    requires msgs != []
    ensures var n := |msgs| - 1;
      NeverMoved(msgs, side) <==> NeverMoved(msgs[..n], side) && !Moves(Run(FRESH, msgs[..n]), msgs[n], side)
  {
    var n := |msgs| - 1;
    assert forall j :: 0 <= j <= n ==> msgs[..n][..j] == msgs[..j];
    if NeverMoved(msgs, side) {
      assert forall k :: 0 <= k < n ==> !Moves(Run(FRESH, msgs[..k]), msgs[k], side);
    }
  }

  /** The reference is the price of the last message that moved the window, 0 if none did. */
  ghost predicate RefFromFeed(refPrice: u32, msgs: seq<Msg>, side: char) {
    (refPrice == 0 && NeverMoved(msgs, side)) || exists k: nat :: MovedAt(msgs, k, side) && msgs[k].price == refPrice
  }

  lemma RefSnoc(refPrice: u32, msgs: seq<Msg>, side: char)
    requires msgs != []
    ensures var n := |msgs| - 1;
      if Moves(Run(FRESH, msgs[..n]), msgs[n], side) then RefFromFeed(msgs[n].price, msgs, side)
      else RefFromFeed(refPrice, msgs[..n], side) ==> RefFromFeed(refPrice, msgs, side)
  {
    var n := |msgs| - 1;
    NeverSnoc(msgs, side);
    MovedSnoc(msgs, n, side);
    if !Moves(Run(FRESH, msgs[..n]), msgs[n], side) {
      if k: nat :| MovedAt(msgs[..n], k, side) && msgs[..n][k].price == refPrice {
        MovedSnoc(msgs, k, side);
        assert MovedAt(msgs, k, side) && msgs[k].price == refPrice;
      }
    }
  }

  /** Over any run the reference of a side is the price of the last message that listed on the side
      while it was unused or while its window did not cover the price; 0 if there was none. Halts do not
      touch it. */
  lemma {:induction false} RunRef(msgs: seq<Msg>, side: char)
    ensures RefFromFeed(Run(FRESH, msgs).Ref(side), msgs, side)
  {
    if msgs != [] {
      var n := |msgs| - 1;
      RunRef(msgs[..n], side);
      StepRef(Run(FRESH, msgs[..n]), msgs[n], side);
      RefSnoc(Run(FRESH, msgs[..n]).Ref(side), msgs, side);
    }
  }

  // ----- the life of an order

  predicate TakesFrom(msg: Msg, r: u64) {
    (msg.Execute? || msg.Cancel?) && msg.ref == r
  }

  /** The shares that the messages from position `from` on execute or cancel of reference `r`. */
  function Taken(msgs: seq<Msg>, from: nat, r: u64): nat {
    if |msgs| <= from then 0 else
    var n := |msgs| - 1;
    Taken(msgs[..n], from, r) + (if TakesFrom(msgs[n], r) then msgs[n].qty else 0)
  }

  /** Message `k` ends the order of reference `r` that message `a` listed: a halt, a delete or replace of
      it, or the reduction that takes the last of its shares. */
  predicate Ends(msgs: seq<Msg>, a: nat, k: nat, r: u64)
    requires a < k < |msgs| && (msgs[a].Add? || msgs[a].Replace?)
  {
    match msgs[k]
    case Session(code) => code == 'H'
    case Delete(ref) => ref == r
    case Replace(oldRef, _, _, _) => oldRef == r
    case _ => TakesFrom(msgs[k], r) && Taken(msgs[..k + 1], a + 1, r) == msgs[a].shares
  }

  /** Message `a` listed reference `r`, and nothing after it listed it again or ended it. */
  ghost predicate LivesFrom(msgs: seq<Msg>, a: nat, r: u64) {
    && a < |msgs| && Lists(Run(FRESH, msgs[..a]), msgs[a], r)
    && forall k :: a < k < |msgs| ==> !Lists(Run(FRESH, msgs[..k]), msgs[k], r) && !Ends(msgs, a, k, r)
  }

  lemma LivesSnoc(msgs: seq<Msg>, a: nat, r: u64)
    requires msgs != []
    ensures var n := |msgs| - 1;
      LivesFrom(msgs, a, r) <==>
      if a == n then Lists(Run(FRESH, msgs[..n]), msgs[n], r)
      else LivesFrom(msgs[..n], a, r) && !Lists(Run(FRESH, msgs[..n]), msgs[n], r) && !Ends(msgs, a, n, r)
  {
    var n := |msgs| - 1;
    assert forall k :: 0 <= k <= n ==> msgs[..n][..k] == msgs[..k];
  }

  /** The message ends an order of reference `r` that has `shares` shares left. */
  predicate Finishes(shares: int, msg: Msg, r: u64) {
    || msg == Session('H') || msg == Delete(r) || (msg.Replace? && msg.oldRef == r)
    || (TakesFrom(msg, r) && msg.qty == shares)
  }

  /** An order of reference `r` with these fields is live. */
  predicate Holds(orders: map<u64, Entry>, r: u64, side: char, price: u32, shares: int) {
    r in orders && orders[r].side == side && orders[r].price == price && orders[r].shares == shares
  }

  /** One message that lists the reference. */
  lemma StepLists(mk: Market, msg: Msg, r: u64)
    requires Lists(mk, msg, r)
    ensures Holds(Step(mk, msg).orders, r, ListedSide(mk, msg), msg.price, msg.shares)
  {
  }

  /** One message that does not, on an order of the reference. */
  lemma StepHolds(mk: Market, capacity: nat, msg: Msg, r: u64, side: char, price: u32, shares: int)
    requires WellFormed(mk, capacity, msg) && !Lists(mk, msg, r) && Holds(mk.orders, r, side, price, shares)
    ensures
      if Finishes(shares, msg, r) then r !in Step(mk, msg).orders
      else Holds(Step(mk, msg).orders, r, side, price, shares - (if TakesFrom(msg, r) then msg.qty else 0))
  {
  }

  /** Nothing else brings a reference in. */
  lemma StepBrings(mk: Market, msg: Msg, r: u64)
    requires !Lists(mk, msg, r) && r in Step(mk, msg).orders
    ensures r in mk.orders
  {
  }

  /** The order of reference `r` is what message `a` listed, less what was taken since. */
  predicate AsListed(orders: map<u64, Entry>, side: char, msgs: seq<Msg>, a: nat, r: u64)
    requires a < |msgs| && (msgs[a].Add? || msgs[a].Replace?)
  {
    Holds(orders, r, side, msgs[a].price, msgs[a].shares - Taken(msgs, a + 1, r))
  }

  /** The side of the order that message `a` listed. */
  function SideAt(msgs: seq<Msg>, a: nat, r: u64): char
    requires a < |msgs| && Lists(Run(FRESH, msgs[..a]), msgs[a], r)
  {
    ListedSide(Run(FRESH, msgs[..a]), msgs[a])
  }

  lemma EndsLast(msgs: seq<Msg>, a: nat, r: u64)
    requires a < |msgs| - 1 && (msgs[a].Add? || msgs[a].Replace?)
    ensures var n := |msgs| - 1;
      Ends(msgs, a, n, r) <==> Finishes(msgs[a].shares - Taken(msgs[..n], a + 1, r), msgs[n], r)
  {
    assert msgs[..|msgs|] == msgs;
  }

  /** One more message after a listing that is still as the feed says. */
  lemma LifeStep(capacity: nat, mk: Market, msgs: seq<Msg>, a: nat, r: u64, side: char)
    requires a < |msgs| - 1 && (msgs[a].Add? || msgs[a].Replace?)
    requires WellFormed(mk, capacity, msgs[|msgs| - 1]) && !Lists(mk, msgs[|msgs| - 1], r)
    requires AsListed(mk.orders, side, msgs[..|msgs| - 1], a, r)
    ensures var orders' := Step(mk, msgs[|msgs| - 1]).orders;
      if Ends(msgs, a, |msgs| - 1, r) then r !in orders' else AsListed(orders', side, msgs, a, r)
  {
    var n := |msgs| - 1;
    EndsLast(msgs, a, r);
    StepHolds(mk, capacity, msgs[n], r, side, msgs[a].price, msgs[a].shares - Taken(msgs[..n], a + 1, r));
  }

  lemma SideAtPrefix(msgs: seq<Msg>, n: nat, a: nat, r: u64)
    requires a < n <= |msgs| && Lists(Run(FRESH, msgs[..n][..a]), msgs[a], r)
    ensures Lists(Run(FRESH, msgs[..a]), msgs[a], r) && SideAt(msgs, a, r) == SideAt(msgs[..n], a, r)
  {
    assert msgs[..n][..a] == msgs[..a];
  }

  lemma {:induction false} LifeHolds(capacity: nat, msgs: seq<Msg>, a: nat, r: u64)
    requires WellFormedRun(FRESH, capacity, msgs) && LivesFrom(msgs, a, r)
    ensures AsListed(Run(FRESH, msgs).orders, SideAt(msgs, a, r), msgs, a, r)
  {
    var n := |msgs| - 1;
    LivesSnoc(msgs, a, r);
    if a < n {
      LifeHolds(capacity, msgs[..n], a, r);
      SideAtPrefix(msgs, n, a, r);
      LifeStep(capacity, Run(FRESH, msgs[..n]), msgs, a, r, SideAt(msgs, a, r));
    } else {
      StepLists(Run(FRESH, msgs[..n]), msgs[n], r);
    }
  }

  lemma {:induction false} LifeExists(capacity: nat, msgs: seq<Msg>, r: u64) returns (a: nat)
    requires WellFormedRun(FRESH, capacity, msgs) && r in Run(FRESH, msgs).orders
    ensures LivesFrom(msgs, a, r)
  {
    var n := |msgs| - 1;
    if Lists(Run(FRESH, msgs[..n]), msgs[n], r) {
      a := n;
    } else {
      StepBrings(Run(FRESH, msgs[..n]), msgs[n], r);
      a := LifeExists(capacity, msgs[..n], r);
      LifeHolds(capacity, msgs[..n], a, r);
      SideAtPrefix(msgs, n, a, r);
      LifeStep(capacity, Run(FRESH, msgs[..n]), msgs, a, r, SideAt(msgs, a, r));
    }
    LivesSnoc(msgs, a, r);
  }

  /** What the book holds is what the feed says: over any well-formed run a reference is live at the end
      exactly when some message listed it and nothing since listed it again or ended it; and its order
      then has the side and price of that message, and its shares less all that was taken since. */
  lemma OrderLife(capacity: nat, msgs: seq<Msg>, r: u64)
    requires WellFormedRun(FRESH, capacity, msgs)
    ensures r in Run(FRESH, msgs).orders <==> exists a: nat :: LivesFrom(msgs, a, r)
    ensures forall a: nat :: LivesFrom(msgs, a, r) ==>
      AsListed(Run(FRESH, msgs).orders, SideAt(msgs, a, r), msgs, a, r)
  {
    if r in Run(FRESH, msgs).orders {
      var a := LifeExists(capacity, msgs, r);
    }
    forall a: nat | LivesFrom(msgs, a, r)
      ensures AsListed(Run(FRESH, msgs).orders, SideAt(msgs, a, r), msgs, a, r)
    {
      LifeHolds(capacity, msgs, a, r);
    }
  }
}
