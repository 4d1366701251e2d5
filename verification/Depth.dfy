/** Share sums over sets of orders, independent of the order of summation. */
module Depths {
  import opened Machine
  import opened Windows
  import opened Markets

  ghost function Total(orders: map<u64, Entry>, s: set<u64>): nat
    requires s <= orders.Keys
  {
    if s == {} then 0 else
    var r :| r in s;
    orders[r].shares + Total(orders, s - {r})
  }

  /** Any element may be taken out first. */
  lemma {:induction false} TotalPick(orders: map<u64, Entry>, s: set<u64>, r: u64)
    requires s <= orders.Keys && r in s
    ensures Total(orders, s) == orders[r].shares + Total(orders, s - {r})
    decreases |s|
  {
    var x :| x in s && Total(orders, s) == orders[x].shares + Total(orders, s - {x});
    if x != r {
      TotalPick(orders, s - {x}, r);
      TotalPick(orders, s - {r}, x);
      assert s - {x} - {r} == s - {r} - {x};
    }
  }

  lemma {:induction false} TotalUnion(orders: map<u64, Entry>, s: set<u64>, t: set<u64>)
    requires s <= orders.Keys && t <= orders.Keys && s !! t
    ensures Total(orders, s + t) == Total(orders, s) + Total(orders, t)
    decreases |s|
  {
    if s == {} {
      assert s + t == t;
    } else {
      var r :| r in s;
      TotalPick(orders, s, r);
      TotalPick(orders, s + t, r);
      assert (s + t) - {r} == (s - {r}) + t;
      TotalUnion(orders, s - {r}, t);
    }
  }

  lemma {:induction false} TotalFrame(orders: map<u64, Entry>, orders': map<u64, Entry>, s: set<u64>)
    requires s <= orders.Keys && s <= orders'.Keys
    requires forall r :: r in s ==> orders'[r].shares == orders[r].shares
    ensures Total(orders', s) == Total(orders, s)
    decreases |s|
  {
    if s != {} {
      var r :| r in s;
      TotalPick(orders, s, r);
      TotalPick(orders', s, r);
      TotalFrame(orders, orders', s - {r});
    }
  }

  lemma {:induction false} TotalBound(orders: map<u64, Entry>, s: set<u64>)
    requires s <= orders.Keys
    ensures Total(orders, s) <= |s| * (TWO_32 - 1)
    decreases |s|
  {
    if s != {} {
      var r :| r in s;
      TotalPick(orders, s, r);
      TotalBound(orders, s - {r});
    }
  }

  /** The live orders of one side at one price. */
  ghost function At(orders: map<u64, Entry>, side: char, price: int): set<u64> {
    set r | r in orders && orders[r].side == side && orders[r].price == price
  }

  /** The live orders of one side that the window shows. */
  ghost function Shown(mk: Market, side: char): set<u64> {
    set r | r in mk.orders && mk.orders[r].side == side && !Stranded(mk, r)
  }

  ghost function StrandedOrders(mk: Market): set<u64> {
    set r | r in mk.orders && Stranded(mk, r)
  }

  /** Quantity displayed at a price: what rests there if the price is in the window, else nothing. */
  ghost function Displayed(mk: Market, side: char, price: int): nat {
    if InWindow(side, mk.Ref(side), price) then Total(mk.orders, At(mk.orders, side, price)) else 0
  }

  /** `price` is at least as good as `other` on `side`. */
  predicate AtLeastAsGood(side: char, price: int, other: int) {
    if side == 'B' then price >= other else price <= other
  }

  /** `price` and `qty` are the best displayed price of the side and the shares resting there, modulo
      2^32; both are 0 when the side displays nothing. */
  ghost predicate IsTop(mk: Market, side: char, price: u32, qty: u32) {
    if Shown(mk, side) == {} then price == 0 && qty == 0 else
      && (exists r :: r in Shown(mk, side) && mk.orders[r].price == price)
      && (forall r :: r in Shown(mk, side) ==> AtLeastAsGood(side, price, mk.orders[r].price))
      && qty == Total(mk.orders, At(mk.orders, side, price)) % TWO_32
  }

  datatype Bbo = Bbo(bidPrice: u32, bidQty: u32, askPrice: u32, askQty: u32)

  ghost predicate IsBbo(mk: Market, bbo: Bbo) {
    IsTop(mk, 'B', bbo.bidPrice, bbo.bidQty) && IsTop(mk, 'S', bbo.askPrice, bbo.askQty)
  }

  /** The top of a side is unique. */
  lemma TopUnique(mk: Market, side: char, p: u32, q: u32, p': u32, q': u32)
    requires IsTop(mk, side, p, q) && IsTop(mk, side, p', q')
    ensures p == p' && q == q'
  {
    if Shown(mk, side) != {} {
      var r :| r in Shown(mk, side) && mk.orders[r].price == p;
      var r' :| r' in Shown(mk, side) && mk.orders[r'].price == p';
      assert AtLeastAsGood(side, p, mk.orders[r'].price) && AtLeastAsGood(side, p', mk.orders[r].price);
    }
  }

  ghost function OfSide(orders: map<u64, Entry>, side: char): set<u64> {
    set r | r in orders && orders[r].side == side
  }

  /** `price` is the best price over all live orders of the side, displayed or not; 0 if it has none. */
  ghost predicate IsTrueBest(orders: map<u64, Entry>, side: char, price: u32) {
    if OfSide(orders, side) == {} then price == 0 else
      && (exists r :: r in OfSide(orders, side) && orders[r].price == price)
      && (forall r :: r in OfSide(orders, side) ==> AtLeastAsGood(side, price, orders[r].price))
  }

  /** `price` and `qty` are the best price over all live orders of the side and the very number of shares
      resting there, not cut to 32 bits; both are 0 if the side has no orders. */
  ghost predicate IsTrueTop(orders: map<u64, Entry>, side: char, price: u32, qty: nat) {
    IsTrueBest(orders, side, price) &&
    qty == if OfSide(orders, side) == {} then 0 else Total(orders, At(orders, side, price))
  }

  /** No live order of the side, displayed or not, is better than the reference price. */
  ghost predicate NothingBeyond(mk: Market, side: char) {
    forall r :: r in OfSide(mk.orders, side) ==> Offset(side, mk.Ref(side), mk.orders[r].price) >= 0
  }

  /** The side is empty, or it displays something and no order lies beyond the reference. Orders stranded
      on the far side do no harm. */
  ghost predicate BestShown(mk: Market, side: char) {
    OfSide(mk.orders, side) == {} || (Shown(mk, side) != {} && NothingBeyond(mk, side))
  }

  lemma ShownBeatsStranded(mk: Market, side: char, price: u32)
    requires NothingBeyond(mk, side) && InWindow(side, mk.Ref(side), price)
    requires forall r :: r in Shown(mk, side) ==> AtLeastAsGood(side, price, mk.orders[r].price)
    ensures forall r :: r in OfSide(mk.orders, side) ==> AtLeastAsGood(side, price, mk.orders[r].price)
  {
    forall r | r in OfSide(mk.orders, side)
      ensures AtLeastAsGood(side, price, mk.orders[r].price)
    {
      assert r !in Shown(mk, side) ==> Stranded(mk, r);
    }
  }

  /** On such a side the displayed top depends on the orders alone, not on the window: it is the best
      price over all of them, with the shares resting there modulo 2^32. */
  lemma TopOfAll(mk: Market, side: char, price: u32, qty: u32)
    requires BestShown(mk, side)
    ensures IsTop(mk, side, price, qty) <==>
      && IsTrueBest(mk.orders, side, price)
      && qty == if OfSide(mk.orders, side) == {} then 0 else Total(mk.orders, At(mk.orders, side, price)) % TWO_32
  {
    if OfSide(mk.orders, side) == {} {
      assert Shown(mk, side) == {};
    } else {
      if IsTop(mk, side, price, qty) {
        ShownBeatsStranded(mk, side, price);
      }
      if IsTrueBest(mk.orders, side, price) {
        var best :| best in OfSide(mk.orders, side) && mk.orders[best].price == price;
        var x :| x in Shown(mk, side);
        assert AtLeastAsGood(side, price, mk.orders[x].price);
        assert best in Shown(mk, side);
      }
    }
  }

  /** The displayed price is the best over all live orders exactly when the side is empty, or something
      is displayed and no order lies beyond the reference; the displayed quantity is then the shares
      resting there exactly when they fit 32 bits. */
  lemma TopExact(mk: Market, side: char, price: u32, qty: u32)
    requires IsTop(mk, side, price, qty)
    requires forall r :: r in OfSide(mk.orders, side) ==> PriceOK(mk.orders[r].price)
    ensures IsTrueBest(mk.orders, side, price) <==> BestShown(mk, side)
    ensures IsTrueTop(mk.orders, side, price, qty) <==>
      OfSide(mk.orders, side) == {} ||
      (Shown(mk, side) != {} && NothingBeyond(mk, side) && Total(mk.orders, At(mk.orders, side, price)) < TWO_32)
  {
    if BestShown(mk, side) {
      TopOfAll(mk, side, price, qty);
    } else if x :| x in Shown(mk, side) && mk.orders[x].price == price {
      var r :| r in OfSide(mk.orders, side) && Offset(side, mk.Ref(side), mk.orders[r].price) < 0;
      assert !AtLeastAsGood(side, price, mk.orders[r].price);
    }
  }
}
