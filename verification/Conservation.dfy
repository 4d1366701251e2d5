/** Share conservation: everything that came in was executed, cancelled, withdrawn, or rests. */
module Conservation {
  import opened Machine
  import opened Markets
  import opened Depths

  /** Shares by the way they entered or left the book. */
  datatype Ledger = Ledger(
    added: nat, replacedIn: nat,
    executed: nat, cancelled: nat, deleted: nat, replacedAway: nat, drained: nat)
  {
    function In(): nat { added + replacedIn }
    function Out(): nat { executed + cancelled + deleted + replacedAway + drained }
  }

  const BLANK_LEDGER: Ledger := Ledger(0, 0, 0, 0, 0, 0, 0)

  ghost function SharesHeld(mk: Market): nat {
    Total(mk.orders, mk.orders.Keys)
  }

  function SharesOf(mk: Market, ref: u64): u32 {
    if ref in mk.orders then mk.orders[ref].shares else 0
  }

  /** Books one message, given the market it arrives at. */
  ghost function Posted(t: Ledger, mk: Market, msg: Msg): Ledger {
    match msg
    case Session(code) => if code == 'H' then t.(drained := t.drained + SharesHeld(mk)) else t
    case Add(_, _, shares, _) => if mk.open then t.(added := t.added + shares) else t
    case Execute(ref, qty) => if ref in mk.orders then t.(executed := t.executed + qty) else t
    case Cancel(ref, qty) => if ref in mk.orders then t.(cancelled := t.cancelled + qty) else t
    case Delete(ref) => t.(deleted := t.deleted + SharesOf(mk, ref))
    case Replace(oldRef, _, shares, _) =>
      if oldRef !in mk.orders then t
      else t.(replacedAway := t.replacedAway + SharesOf(mk, oldRef), replacedIn := t.replacedIn + shares)
    case Ignored => t
  }

  ghost function Postings(t: Ledger, mk: Market, msgs: seq<Msg>): Ledger {
    if msgs == [] then t else
    var n := |msgs| - 1;
    Posted(Postings(t, mk, msgs[..n]), Run(mk, msgs[..n]), msgs[n])
  }

  lemma PlacedTotal(mk: Market, ref: u64, side: char, shares: u32, price: u32)
    requires ref !in mk.orders
    ensures SharesHeld(Placed(mk, ref, side, shares, price)) == SharesHeld(mk) + shares
  {
    var orders' := Placed(mk, ref, side, shares, price).orders;
    TotalPick(orders', orders'.Keys, ref);
    assert orders'.Keys - {ref} == mk.orders.Keys;
    TotalFrame(mk.orders, orders', mk.orders.Keys);
  }

  lemma WithdrawnTotal(mk: Market, ref: u64)
    ensures SharesHeld(mk) == SharesHeld(Withdrawn(mk, ref)) + SharesOf(mk, ref)
  {
    if ref in mk.orders {
      TotalPick(mk.orders, mk.orders.Keys, ref);
      assert Withdrawn(mk, ref).orders.Keys == mk.orders.Keys - {ref};
      TotalFrame(mk.orders, Withdrawn(mk, ref).orders, mk.orders.Keys - {ref});
    } else {
      WithdrawAbsent(mk, ref);
    }
  }

  lemma ShrunkTotal(mk: Market, ref: u64, qty: u32)
    requires ref in mk.orders && qty <= mk.orders[ref].shares
    ensures SharesHeld(mk) == SharesHeld(Shrunk(mk, ref, qty)) + qty
  {
    var orders' := Shrunk(mk, ref, qty).orders;
    TotalPick(mk.orders, mk.orders.Keys, ref);
    TotalPick(orders', orders'.Keys, ref);
    assert orders'.Keys == mk.orders.Keys;
    TotalFrame(mk.orders, orders', mk.orders.Keys - {ref});
  }

  lemma ReducedTotal(mk: Market, ref: u64, qty: u32)
    requires ref in mk.orders && qty <= mk.orders[ref].shares
    ensures SharesHeld(mk) == SharesHeld(Reduced(mk, ref, qty)) + qty
  {
    ShrunkReduced(mk, ref, qty);
    ShrunkTotal(mk, ref, qty);
    WithdrawnTotal(Shrunk(mk, ref, qty), ref);
  }

  /** One well-formed message conserves shares. */
  lemma StepConserves(t: Ledger, mk: Market, capacity: nat, msg: Msg)
    requires WellFormed(mk, capacity, msg)
    ensures var t' := Posted(t, mk, msg);
      SharesHeld(mk) + t'.In() - t.In() == SharesHeld(Step(mk, msg)) + t'.Out() - t.Out()
  {
    match msg
    case Session(code) =>
    case Add(ref, side, shares, price) => if mk.open { PlacedTotal(mk, ref, side, shares, price); }
    case Execute(ref, qty) => if ref in mk.orders { ReducedTotal(mk, ref, qty); }
    case Cancel(ref, qty) => if ref in mk.orders { ReducedTotal(mk, ref, qty); }
    case Delete(ref) => WithdrawnTotal(mk, ref);
    case Replace(oldRef, newRef, shares, price) =>
      if oldRef in mk.orders {
        WithdrawnTotal(mk, oldRef);
        PlacedTotal(Withdrawn(mk, oldRef), newRef, mk.orders[oldRef].side, shares, price);
      }
    case Ignored =>
  }

  /** Share conservation over any well-formed run. */
  lemma {:induction false} RunConserves(mk: Market, capacity: nat, msgs: seq<Msg>)
    requires WellFormedRun(mk, capacity, msgs)
    ensures var t := Postings(BLANK_LEDGER, mk, msgs);
      SharesHeld(mk) + t.In() == SharesHeld(Run(mk, msgs)) + t.Out()
  {
    if msgs != [] {
      var n := |msgs| - 1;
      RunConserves(mk, capacity, msgs[..n]);
      StepConserves(Postings(BLANK_LEDGER, mk, msgs[..n]), Run(mk, msgs[..n]), capacity, msgs[n]);
    }
  }

  // ----- the columns of the ledger

  /** Sum over a run of what each message contributes where it arrives. */
  ghost function SumOver(mk: Market, msgs: seq<Msg>, amount: (Market, Msg) -> nat): nat {
    if msgs == [] then 0 else
    var n := |msgs| - 1;
    SumOver(mk, msgs[..n], amount) + amount(Run(mk, msgs[..n]), msgs[n])
  }

  ghost function Drained(mk: Market, msg: Msg): nat {
    if msg == Session('H') then SharesHeld(mk) else 0
  }

  /** Every column is the sum over the messages of its kind: adds on an open book, executions and
      cancellations of live orders, deleted and replaced orders with their shares, replacements, halts. */
  lemma {:induction false} Columns(mk: Market, msgs: seq<Msg>)
    ensures var t := Postings(BLANK_LEDGER, mk, msgs);
      && t.added == SumOver(mk, msgs, (m: Market, msg: Msg) => if msg.Add? && m.open then msg.shares else 0)
      && t.executed == SumOver(mk, msgs, (m: Market, msg: Msg) => if msg.Execute? && msg.ref in m.orders then msg.qty else 0)
      && t.cancelled == SumOver(mk, msgs, (m: Market, msg: Msg) => if msg.Cancel? && msg.ref in m.orders then msg.qty else 0)
      && t.deleted == SumOver(mk, msgs, (m: Market, msg: Msg) => if msg.Delete? then SharesOf(m, msg.ref) else 0)
      && t.replacedAway == SumOver(mk, msgs, (m: Market, msg: Msg) => if msg.Replace? then SharesOf(m, msg.oldRef) else 0)
      && t.replacedIn ==
         SumOver(mk, msgs, (m: Market, msg: Msg) => if msg.Replace? && msg.oldRef in m.orders then msg.shares else 0)
      && t.drained == SumOver(mk, msgs, Drained)
  {
    if msgs != [] {
      Columns(mk, msgs[..|msgs| - 1]);
    }
  }
}
