/** The simple thing the book speeds up: a map from order reference to resting order,
    with the reference price of each side. */
module Markets {
  import opened Machine
  import opened Windows

  /** `arrival` counts the insertions since the last halt. */
  datatype Entry = Entry(side: char, price: u32, shares: u32, arrival: nat)

  /** `bidSince` and `askSince` are the clock at the last recentring of a side since the last halt, else 0:
      only orders that arrived before it may be out of time order. */
  datatype Market = Market(
    orders: map<u64, Entry>, bidRef: u32, askRef: u32, bidSince: nat, askSince: nat, open: bool, clock: nat)
  {
    function Ref(side: char): u32 { if side == 'B' then bidRef else askRef }

    function Since(side: char): nat { if side == 'B' then bidSince else askSince }
  }

  const FRESH: Market := Market(map[], 0, 0, 0, 0, false, 0)

  /** The messages as the book sees them, fields in host order. */
  datatype Msg =
    | Session(code: char)
    | Add(ref: u64, side: char, shares: u32, price: u32)
    | Execute(ref: u64, qty: u32)
    | Cancel(ref: u64, qty: u32)
    | Delete(ref: u64)
    | Replace(oldRef: u64, newRef: u64, shares: u32, price: u32)
    | Ignored

  function Placed(mk: Market, ref: u64, side: char, shares: u32, price: u32): Market {
    var mk' := mk.(orders := mk.orders[ref := Entry(side, price, shares, mk.clock)], clock := mk.clock + 1);
    if side == 'B'
    then mk'.(bidRef := NextRef(side, mk.bidRef, price),
              bidSince := if Recentres(side, mk.bidRef, price) then mk.clock else mk.bidSince)
    else mk'.(askRef := NextRef(side, mk.askRef, price),
              askSince := if Recentres(side, mk.askRef, price) then mk.clock else mk.askSince)
  }

  function Withdrawn(mk: Market, ref: u64): Market {
    mk.(orders := mk.orders - {ref})
  }

  function Reduced(mk: Market, ref: u64, qty: u32): Market {
    if ref !in mk.orders then mk else
    var left := Sub32(mk.orders[ref].shares, qty);
    if left == 0 then Withdrawn(mk, ref)
    else mk.(orders := mk.orders[ref := mk.orders[ref].(shares := left)])
  }

  /** The order keeps its place, with `qty` shares fewer. */
  function Shrunk(mk: Market, ref: u64, qty: u32): Market
    requires ref in mk.orders && qty <= mk.orders[ref].shares
  {
    mk.(orders := mk.orders[ref := mk.orders[ref].(shares := mk.orders[ref].shares - qty)])
  }

  /** Reducing is shrinking, and withdrawing what was shrunk to nothing. */
  lemma ShrunkReduced(mk: Market, ref: u64, qty: u32)
    requires ref in mk.orders && qty <= mk.orders[ref].shares
    ensures Reduced(mk, ref, qty) ==
      if qty == mk.orders[ref].shares then Withdrawn(Shrunk(mk, ref, qty), ref) else Shrunk(mk, ref, qty)
  {
    if qty == mk.orders[ref].shares {
      assert Shrunk(mk, ref, qty).orders - {ref} == mk.orders - {ref};
    }
  }

  lemma WithdrawAbsent(mk: Market, ref: u64)
    requires ref !in mk.orders
    ensures Withdrawn(mk, ref) == mk
  {
    assert mk.orders - {ref} == mk.orders;
  }

  function Step(mk: Market, msg: Msg): Market {
    match msg
    case Session(code) =>
      if code == 'O' then mk.(open := true)
      else if code == 'C' then mk.(open := false)
      else if code == 'H' then FRESH.(bidRef := mk.bidRef, askRef := mk.askRef)
      else mk
    case Add(ref, side, shares, price) => if mk.open then Placed(mk, ref, side, shares, price) else mk
    case Execute(ref, qty) => Reduced(mk, ref, qty)
    case Cancel(ref, qty) => Reduced(mk, ref, qty)
    case Delete(ref) => Withdrawn(mk, ref)
    case Replace(oldRef, newRef, shares, price) =>
      if oldRef !in mk.orders then mk
      else Placed(Withdrawn(mk, oldRef), newRef, mk.orders[oldRef].side, shares, price)
    case Ignored => mk
  }

  function Run(mk: Market, msgs: seq<Msg>): Market {
    if msgs == [] then mk else Step(Run(mk, msgs[..|msgs| - 1]), msgs[|msgs| - 1])
  }

  predicate Stranded(mk: Market, ref: u64) {
    && ref in mk.orders
    && var e := mk.orders[ref]; !InWindow(e.side, mk.Ref(e.side), e.price)
  }

  predicate PriceOK(price: u32) { 1 <= price <= MAX_PRICE }

  /** What the book assumes of the feed: valid sides and prices, fresh references, a free slot,
      reductions within the order, and no operation on a stranded order. */
  predicate WellFormed(mk: Market, capacity: nat, msg: Msg) {
    match msg
    case Add(ref, side, shares, price) =>
      mk.open ==>
        (side == 'B' || side == 'S') && ref !in mk.orders && PriceOK(price) && |mk.orders| < capacity
    case Execute(ref, qty) => ref in mk.orders ==> !Stranded(mk, ref) && qty <= mk.orders[ref].shares
    case Cancel(ref, qty) => ref in mk.orders ==> !Stranded(mk, ref) && qty <= mk.orders[ref].shares
    case Delete(ref) => !Stranded(mk, ref)
    case Replace(oldRef, newRef, shares, price) =>
      oldRef in mk.orders ==>
        !Stranded(mk, oldRef) && (newRef in mk.orders ==> newRef == oldRef) && PriceOK(price)
    case _ => true
  }

  predicate WellFormedRun(mk: Market, capacity: nat, msgs: seq<Msg>) {
    msgs == [] ||
    (WellFormedRun(mk, capacity, msgs[..|msgs| - 1]) &&
     WellFormed(Run(mk, msgs[..|msgs| - 1]), capacity, msgs[|msgs| - 1]))
  }

  /** In a well-formed run every message is well-formed where it arrives. */
  lemma {:induction false} WellFormedAt(mk: Market, capacity: nat, msgs: seq<Msg>, n: nat)
    requires WellFormedRun(mk, capacity, msgs) && n < |msgs|
    ensures WellFormed(Run(mk, msgs[..n]), capacity, msgs[n])
  {
    var last := |msgs| - 1;
    if n < last {
      WellFormedAt(mk, capacity, msgs[..last], n);
      assert msgs[..last][..n] == msgs[..n];
    }
  }
}
