/** Replay of a stream against reference snapshots of the book. */
module Validators {
  import opened Machine
  import opened Bytes
  import opened Windows
  import opened Markets
  import opened Framing
  import opened Messages
  import opened Depths
  import opened BookSides
  import opened Books
  import opened BookFacts
  import opened OrderBooks

  const K_DEPTH: int := 10

  datatype Row = Row(price: u32, qty: u32)

  /** One reference snapshot, ten rows a side. */
  datatype Snapshot = Snapshot(timestamp: u64, bidRows: seq<Row>, askRows: seq<Row>) {
    predicate Full() { |bidRows| == K_DEPTH && |askRows| == K_DEPTH }
  }

  datatype Mismatch = Mismatch(
    timestamp: u64, side: char, level: nat, ourPrice: u32, ourQty: u32, refPrice: u32, refQty: u32)

  // ----- what a comparison reports

  /** The quantity the book is compared by: what it displays at the price, modulo 2^32. */
  ghost function OurQty(mk: Market, side: char, price: u32): u32 {
    if price == 0 then 0 else Displayed(mk, side, price) % TWO_32
  }

  ghost function RowReport(mk: Market, timestamp: u64, side: char, level: nat, row: Row): seq<Mismatch> {
    var our := OurQty(mk, side, row.price);
    if our == row.qty then [] else [Mismatch(timestamp, side, level, row.price, our, row.price, row.qty)]
  }

  /** The mismatches in the first `n` rows, bid before ask. */
  ghost function Report(mk: Market, snap: Snapshot, n: nat): seq<Mismatch>
    requires snap.Full() && n <= K_DEPTH
  {
    if n == 0 then [] else
    Report(mk, snap, n - 1)
    + RowReport(mk, snap.timestamp, 'B', n - 1, snap.bidRows[n - 1])
    + RowReport(mk, snap.timestamp, 'S', n - 1, snap.askRows[n - 1])
  }

  /** A row agrees with the market: at a non-zero price the displayed shares match, and a zero price
      claims no quantity. */
  ghost predicate Agrees(mk: Market, side: char, row: Row) {
    row.qty == if row.price == 0 then 0 else Displayed(mk, side, row.price) % TWO_32
  }

  /** A comparison reports nothing exactly when every row agrees. */
  lemma {:induction false} CleanReport(mk: Market, snap: Snapshot, n: nat)
    requires snap.Full() && n <= K_DEPTH
    ensures Report(mk, snap, n) == [] <==>
      forall k :: 0 <= k < n ==> Agrees(mk, 'B', snap.bidRows[k]) && Agrees(mk, 'S', snap.askRows[k])
  {
    if n > 0 {
      CleanReport(mk, snap, n - 1);
    }
  }

  // ----- what a report lists

  function RowOf(snap: Snapshot, side: char, level: nat): Row
    requires snap.Full() && level < K_DEPTH
  {
    if side == 'B' then snap.bidRows[level] else snap.askRows[level]
  }

  /** The displayed orders of the side at a price, and their shares. */
  ghost function ShownAt(mk: Market, side: char, price: int): set<u64> {
    set r | r in Shown(mk, side) && mk.orders[r].price == price
  }

  ghost function ShownShares(mk: Market, side: char, price: int): nat {
    Total(mk.orders, ShownAt(mk, side, price))
  }

  lemma DisplayedShown(mk: Market, side: char, price: int)
    ensures Displayed(mk, side, price) == ShownShares(mk, side, price)
  {
    if InWindow(side, mk.Ref(side), price) {
      assert ShownAt(mk, side, price) == At(mk.orders, side, price);
    } else {
      assert ShownAt(mk, side, price) == {};
    }
  }

  /** The entry is that of a row among the first `n` levels, with what the market displays and what the
      snapshot claims, and the two differ. */
  ghost predicate Differs(mk: Market, snap: Snapshot, n: nat, e: Mismatch)
    requires snap.Full() && n <= K_DEPTH
  {
    && e.level < n && (e.side == 'B' || e.side == 'S') && e.timestamp == snap.timestamp
    && var row := RowOf(snap, e.side, e.level);
      && e.ourPrice == e.refPrice == row.price && e.refQty == row.qty
      && e.ourQty == (if row.price == 0 then 0 else ShownShares(mk, e.side, row.price) % TWO_32)
      && e.ourQty != e.refQty
  }

  predicate Before(e: Mismatch, f: Mismatch) {
    e.level < f.level || (e.level == f.level && e.side == 'B' && f.side == 'S')
  }

  lemma RowListed(mk: Market, snap: Snapshot, side: char, level: nat, e: Mismatch)
    requires snap.Full() && level < K_DEPTH && (side == 'B' || side == 'S')
    ensures e in RowReport(mk, snap.timestamp, side, level, RowOf(snap, side, level)) <==>
      e.level == level && e.side == side && Differs(mk, snap, level + 1, e)
  {
    DisplayedShown(mk, side, RowOf(snap, side, level).price);
  }

  /** A report lists exactly the rows that differ. */
  lemma {:induction false} ReportLists(mk: Market, snap: Snapshot, n: nat, e: Mismatch)
    requires snap.Full() && n <= K_DEPTH
    ensures e in Report(mk, snap, n) <==> Differs(mk, snap, n, e)
  {
    if n > 0 {
      ReportLists(mk, snap, n - 1, e);
      RowListed(mk, snap, 'B', n - 1, e);
      RowListed(mk, snap, 'S', n - 1, e);
    }
  }

  /** In the order of the levels, bid before ask, and each once. */
  lemma {:induction false} ReportOrdered(mk: Market, snap: Snapshot, n: nat)
    requires snap.Full() && n <= K_DEPTH
    ensures forall i :: 0 <= i < |Report(mk, snap, n)| ==> Report(mk, snap, n)[i].level < n
    ensures forall i, j :: 0 <= i < j < |Report(mk, snap, n)| ==> Before(Report(mk, snap, n)[i], Report(mk, snap, n)[j])
  {
    if n > 0 {
      ReportOrdered(mk, snap, n - 1);
    }
  }

  /** The rows, by level and side, among the first `n` levels that do not agree with the market. */
  ghost function Disagreeing(mk: Market, snap: Snapshot, n: nat): set<(nat, char)>
    requires snap.Full() && n <= K_DEPTH
  {
    set k: nat, side: char | k < n && side in {'B', 'S'} && !Agrees(mk, side, RowOf(snap, side, k)) :: (k, side)
  }

  /** A report has one entry for each of them. */
  lemma {:induction false} ReportCount(mk: Market, snap: Snapshot, n: nat)
    requires snap.Full() && n <= K_DEPTH
    ensures |Report(mk, snap, n)| == |Disagreeing(mk, snap, n)|
  {
    if n > 0 {
      ReportCount(mk, snap, n - 1);
      DisagreeingSnoc(mk, snap, n);
    } else {
      assert Disagreeing(mk, snap, 0) == {};
    }
  }

  ghost function One(mk: Market, snap: Snapshot, side: char, level: nat): set<(nat, char)>
    requires snap.Full() && level < K_DEPTH
  {
    if Agrees(mk, side, RowOf(snap, side, level)) then {} else {(level, side)}
  }

  lemma DisagreeingSnoc(mk: Market, snap: Snapshot, n: nat)
    requires snap.Full() && 0 < n <= K_DEPTH
    ensures |Disagreeing(mk, snap, n)| ==
      |Disagreeing(mk, snap, n - 1)| + |One(mk, snap, 'B', n - 1)| + |One(mk, snap, 'S', n - 1)|
  {
    var before, bid, ask := Disagreeing(mk, snap, n - 1), One(mk, snap, 'B', n - 1), One(mk, snap, 'S', n - 1);
    assert Disagreeing(mk, snap, n) == before + bid + ask;
    assert before !! bid && (before + bid) !! ask;
  }

  // ----- compare_snapshot

  /** The side's level at the index of a reference price, if the window has one. */
  method SideQty(side: BookSide, price: u32) returns (qty: u32)
    requires side.levels.Length == K_LEVELS && side.refPrice <= MAX_PRICE
    ensures qty == if price != 0 && InWindow(side.side, side.refPrice, price)
                   then side.levels[Offset(side.side, side.refPrice, price)].totalQty % TWO_32 else 0
  {
    qty := 0;
    if price > 0 && (if side.side == 'B' then side.refPrice >= price else price >= side.refPrice) {
      var idx := AsInt32(if side.side == 'B' then side.refPrice - price else price - side.refPrice);
      if 0 <= idx < K_LEVELS {
        qty := side.levels[idx].totalQty % TWO_32;
      }
    }
  }

  lemma SideQtyMeaning(b: Book, side: char, price: u32)
    requires BookOK(b) && (side == 'B' || side == 'S')
    ensures var l := OnSide(b, side);
      OurQty(Abs(b), side, price) ==
      if price != 0 && InWindow(side, l.refPrice, price)
      then l.levels[Offset(side, l.refPrice, price)].totalQty % TWO_32 else 0
  {
    var l := OnSide(b, side);
    if InWindow(side, l.refPrice, price) {
      var i := Offset(side, l.refPrice, price);
      assert PriceAt(side, l.refPrice, i) == price;
      LevelAggregates(l, b.slots, b.live, b.log.arrival, i);
      assert Displayed(Abs(b), side, price) == l.levels[i].totalQty;
    }
  }

  /** Our quantity on one side of the book. */
  method BookQty(book: OrderBook, side: char, price: u32) returns (qty: u32)
    requires book.Valid() && (side == 'B' || side == 'S')
    ensures qty == OurQty(book.Market(), side, price)
  {
    SideQtyMeaning(book.Snapshot(), side, price);
    if side == 'B' {
      qty := SideQty(book.bids, price);
    } else {
      qty := SideQty(book.asks, price);
    }
  }

  /** `compare_snapshot`; the report is what the code appends to `out` when it is given one. */
  method CompareSnapshot(book: OrderBook, snap: Snapshot) returns (mismatches: nat, report: seq<Mismatch>)
    requires book.Valid() && snap.Full()
    ensures report == Report(book.Market(), snap, K_DEPTH) && mismatches == |report|
  {
    mismatches, report := 0, [];
    for level := 0 to K_DEPTH
      invariant report == Report(book.Market(), snap, level) && mismatches == |report|
    {
      var bid, ask := snap.bidRows[level], snap.askRows[level];
      var ourBid := BookQty(book, 'B', bid.price);
      if ourBid != bid.qty {
        mismatches := mismatches + 1;
        report := report + [Mismatch(snap.timestamp, 'B', level, bid.price, ourBid, bid.price, bid.qty)];
      }
      var ourAsk := BookQty(book, 'S', ask.price);
      if ourAsk != ask.qty {
        mismatches := mismatches + 1;
        report := report + [Mismatch(snap.timestamp, 'S', level, ask.price, ourAsk, ask.price, ask.qty)];
      }
    }
  }

  // ----- when each snapshot is compared

  function TimeOf(m: ParsedMessage): nat {
    if m.Monostate? then 0 else BigEndian(m.hdr.timestamp)
  }

  lemma SwapKeepsTime(m: ParsedMessage)
    ensures InHostOrder(m).Monostate? <==> m.Monostate?
    ensures !m.Monostate? ==> InHostOrder(m).hdr.timestamp == m.hdr.timestamp
  {
  }

  /** The time of a message on the wire is the value of its six timestamp bytes, whatever bytes follow. */
  lemma TimeWire(w: ParsedMessage, rest: seq<u8>)
    requires Fits(w)
    ensures TimeOf(ParseMessage(Wire(w) + rest)) == BigEndian(w.hdr.timestamp)
    ensures forall ns: nat :: ns < 0x1_0000_0000_0000 && w.hdr.timestamp == WireBytes(ns, 6) ==>
      TimeOf(ParseMessage(Wire(w) + rest)) == ns
  {
    ParseRoundTrip(w, rest);
    SwapKeepsTime(ParseMessage(Wire(w) + rest));
    forall ns: nat | ns < 0x1_0000_0000_0000 && w.hdr.timestamp == WireBytes(ns, 6)
      ensures BigEndian(w.hdr.timestamp) == ns
    {
      TimestampRoundTrip(ns);
    }
  }

  /** A buffer with no message on it has time 0. */
  lemma TimeNothing(data: seq<u8>)
    requires !exists w :: OnWire(w, data)
    ensures TimeOf(ParseMessage(data)) == 0
  {
    ParseDecides(data, Monostate);
  }

  /** How many messages are dispatched before a snapshot of time `t` is compared, if `n` already are:
      the first count whose last message is at or past `t`, or all of them. */
  function DueAfter(msgs: seq<ParsedMessage>, n: nat, t: nat): (due: nat)
    requires n <= |msgs|
    ensures n <= due <= |msgs|
    decreases |msgs| - n
  {
    if n == |msgs| || (n > 0 && TimeOf(msgs[n - 1]) >= t) then n else DueAfter(msgs, n + 1, t)
  }

  /** The same for snapshot `j`, after those before it. */
  function Checkpoint(msgs: seq<ParsedMessage>, snaps: seq<Snapshot>, j: nat): (due: nat)
    requires j < |snaps|
    ensures due <= |msgs|
  {
    DueAfter(msgs, if j == 0 then 0 else Checkpoint(msgs, snaps, j - 1), snaps[j].timestamp)
  }

  /** `due` is the first message at or past `t`, or the end of the stream. */
  predicate FirstPast(msgs: seq<ParsedMessage>, t: nat, due: nat) {
    && due <= |msgs|
    && (forall i :: 0 <= i < due - 1 ==> TimeOf(msgs[i]) < t)
    && (due < |msgs| ==> due > 0 && TimeOf(msgs[due - 1]) >= t)
  }

  lemma {:induction false} DueFirst(msgs: seq<ParsedMessage>, n: nat, t: nat)
    requires n <= |msgs| && forall i :: 0 <= i < n - 1 ==> TimeOf(msgs[i]) < t
    ensures FirstPast(msgs, t, DueAfter(msgs, n, t))
    decreases |msgs| - n
  {
    if !(n == |msgs| || (n > 0 && TimeOf(msgs[n - 1]) >= t)) {
      DueFirst(msgs, n + 1, t);
    }
  }

  /** Whatever the order of the snapshot times: `due` is the least count from `n` on whose last message is
      at or past `t`, or the end of the stream. */
  predicate LeastFrom(msgs: seq<ParsedMessage>, n: nat, t: nat, due: nat) {
    && n <= due <= |msgs|
    && (forall i :: 0 <= i && n - 1 <= i < due - 1 ==> TimeOf(msgs[i]) < t)
    && (due < |msgs| ==> due > 0 && TimeOf(msgs[due - 1]) >= t)
  }

  lemma {:induction false} DueLeast(msgs: seq<ParsedMessage>, n: nat, t: nat)
    requires n <= |msgs|
    ensures LeastFrom(msgs, n, t, DueAfter(msgs, n, t))
    decreases |msgs| - n
  {
    if !(n == |msgs| || (n > 0 && TimeOf(msgs[n - 1]) >= t)) {
      DueLeast(msgs, n + 1, t);
    }
  }

  /** Each checkpoint is the least one from the checkpoint before it on. */
  lemma CheckpointLeast(msgs: seq<ParsedMessage>, snaps: seq<Snapshot>, j: nat)
    requires j < |snaps|
    ensures LeastFrom(msgs, if j == 0 then 0 else Checkpoint(msgs, snaps, j - 1), snaps[j].timestamp,
                      Checkpoint(msgs, snaps, j))
  {
    DueLeast(msgs, if j == 0 then 0 else Checkpoint(msgs, snaps, j - 1), snaps[j].timestamp);
  }

  predicate Ordered(snaps: seq<Snapshot>) {
    forall i, j :: 0 <= i < j < |snaps| ==> snaps[i].timestamp <= snaps[j].timestamp
  }

  /** With non-decreasing snapshot times, each is compared after the first message at or past its
      time, or at the end of the stream. */
  lemma {:induction false} CheckpointFirst(msgs: seq<ParsedMessage>, snaps: seq<Snapshot>, j: nat)
    requires j < |snaps| && Ordered(snaps)
    ensures FirstPast(msgs, snaps[j].timestamp, Checkpoint(msgs, snaps, j))
  {
    if j == 0 {
      DueFirst(msgs, 0, snaps[0].timestamp);
    } else {
      CheckpointFirst(msgs, snaps, j - 1);
      DueFirst(msgs, Checkpoint(msgs, snaps, j - 1), snaps[j].timestamp);
    }
  }

  /** The market after the first `n` messages. */
  function Replayed(start: Market, msgs: seq<ParsedMessage>, n: nat): Market
    requires n <= |msgs|
  {
    Run(start, RouteAll(msgs)[..n])
  }

  /** The feed is well-formed as far as it is dispatched: up to the checkpoint of the last snapshot. */
  ghost predicate FeedOK(start: Market, capacity: nat, msgs: seq<ParsedMessage>, snaps: seq<Snapshot>) {
    snaps == [] || WellFormedRun(start, capacity, RouteAll(msgs)[..Checkpoint(msgs, snaps, |snaps| - 1)])
  }

  /** Checkpoints do not go back. */
  lemma {:induction false} CheckpointMono(msgs: seq<ParsedMessage>, snaps: seq<Snapshot>, k: nat, j: nat)
    requires k <= j < |snaps|
    ensures Checkpoint(msgs, snaps, k) <= Checkpoint(msgs, snaps, j)
  {
    if k < j { CheckpointMono(msgs, snaps, k, j - 1); }
  }

  /** Message `n` is within the part of the feed that must be well-formed. */
  ghost predicate Ready(start: Market, capacity: nat, msgs: seq<ParsedMessage>, snaps: seq<Snapshot>, n: nat) {
    snaps != [] && n < Checkpoint(msgs, snaps, |snaps| - 1) && FeedOK(start, capacity, msgs, snaps)
  }

  lemma ReplayedNext(start: Market, capacity: nat, msgs: seq<ParsedMessage>, snaps: seq<Snapshot>, n: nat)
    requires Ready(start, capacity, msgs, snaps, n)
    ensures WellFormed(Replayed(start, msgs, n), capacity, Route(msgs[n]))
    ensures Replayed(start, msgs, n + 1) == Step(Replayed(start, msgs, n), Route(msgs[n]))
  {
    var m := Checkpoint(msgs, snaps, |snaps| - 1);
    WellFormedAt(start, capacity, RouteAll(msgs)[..m], n);
    assert RouteAll(msgs)[..m][..n] == RouteAll(msgs)[..n];
    assert RouteAll(msgs)[..n + 1][..n] == RouteAll(msgs)[..n];
  }

  /** The market snapshot `j` is compared with. */
  function MarketAt(start: Market, msgs: seq<ParsedMessage>, snaps: seq<Snapshot>, j: nat): Market
    requires j < |snaps|
  {
    Replayed(start, msgs, Checkpoint(msgs, snaps, j))
  }

  /** What the first `k` comparisons report, in order. */
  ghost function FullReport(start: Market, msgs: seq<ParsedMessage>, snaps: seq<Snapshot>, k: nat): seq<Mismatch>
    requires k <= |snaps| && forall s :: s in snaps ==> s.Full()
  {
    if k == 0 then [] else
    FullReport(start, msgs, snaps, k - 1) + Report(MarketAt(start, msgs, snaps, k - 1), snaps[k - 1], K_DEPTH)
  }

  /** What comparison `j` reports. */
  ghost function ReportAt(start: Market, msgs: seq<ParsedMessage>, snaps: seq<Snapshot>, j: nat): seq<Mismatch>
    requires j < |snaps| && snaps[j].Full()
  {
    Report(MarketAt(start, msgs, snaps, j), snaps[j], K_DEPTH)
  }

  lemma FullReportGrows(start: Market, msgs: seq<ParsedMessage>, snaps: seq<Snapshot>, k: nat)
    requires k < |snaps| && forall s :: s in snaps ==> s.Full()
    ensures FullReport(start, msgs, snaps, k + 1) == FullReport(start, msgs, snaps, k) + ReportAt(start, msgs, snaps, k)
  {
  }

  /** The report of each comparison follows those of the comparisons before it. */
  lemma {:induction false} FullReportHolds(start: Market, msgs: seq<ParsedMessage>, snaps: seq<Snapshot>, j: nat, k: nat)
    requires j <= k < |snaps| && forall s :: s in snaps ==> s.Full()
    ensures FullReport(start, msgs, snaps, j) + ReportAt(start, msgs, snaps, j) <= FullReport(start, msgs, snaps, k + 1)
  {
    FullReportGrows(start, msgs, snaps, k);
    if j < k {
      FullReportHolds(start, msgs, snaps, j, k - 1);
      StillPrefix(FullReport(start, msgs, snaps, j) + ReportAt(start, msgs, snaps, j), FullReport(start, msgs, snaps, k),
                  ReportAt(start, msgs, snaps, k));
    }
  }

  lemma StillPrefix(a: seq<Mismatch>, b: seq<Mismatch>, c: seq<Mismatch>)
    requires a <= b
    ensures a <= b + c
  {
  }

  /** The number of disagreeing rows over the first `k` comparisons. */
  ghost function DisagreeingTotal(start: Market, msgs: seq<ParsedMessage>, snaps: seq<Snapshot>, k: nat): nat
    requires k <= |snaps| && forall s :: s in snaps ==> s.Full()
  {
    if k == 0 then 0 else
    DisagreeingTotal(start, msgs, snaps, k - 1)
    + |Disagreeing(MarketAt(start, msgs, snaps, k - 1), snaps[k - 1], K_DEPTH)|
  }

  /** The mismatches reported by a validation are as many as the disagreeing rows, over all snapshots. */
  lemma {:induction false} FullReportCount(start: Market, msgs: seq<ParsedMessage>, snaps: seq<Snapshot>, k: nat)
    requires k <= |snaps| && forall s :: s in snaps ==> s.Full()
    ensures |FullReport(start, msgs, snaps, k)| == DisagreeingTotal(start, msgs, snaps, k)
  {
    if k > 0 {
      FullReportCount(start, msgs, snaps, k - 1);
      ReportCount(MarketAt(start, msgs, snaps, k - 1), snaps[k - 1], K_DEPTH);
    }
  }

  // ----- validate

  /** `k` snapshots are compared and `n` messages dispatched; the next snapshot is due when its
      checkpoint says. */
  ghost predicate Progress(start: Market, msgs: seq<ParsedMessage>, snaps: seq<Snapshot>,
                           n: nat, k: nat, report: seq<Mismatch>)
  {
    && n <= |msgs| && k <= |snaps| && (forall s :: s in snaps ==> s.Full())
    && report == FullReport(start, msgs, snaps, k)
    && (if k < |snaps| then Checkpoint(msgs, snaps, k) == DueAfter(msgs, n, snaps[k].timestamp)
        else k > 0 && Checkpoint(msgs, snaps, k - 1) == n)
  }

  /** Compares the snapshots that have become due: those not later than `time`, or all of them at the
      end of the stream. */
  method CompareDue(book: OrderBook, snaps: seq<Snapshot>, first: nat, sofar: nat, before: seq<Mismatch>,
                    atEnd: bool, time: nat, ghost start: Market, ghost msgs: seq<ParsedMessage>, ghost n: nat)
    returns (k: nat, total: nat, out: seq<Mismatch>)
    requires book.Valid() && Progress(start, msgs, snaps, n, first, before) && sofar == |before|
    requires book.Market() == Replayed(start, msgs, n)
    requires if atEnd then n == |msgs| else n > 0 && TimeOf(msgs[n - 1]) == time
    ensures Progress(start, msgs, snaps, n, k, out) && total == |out|
    ensures k < |snaps| ==> !atEnd && time < snaps[k].timestamp
  {
    k, total, out := first, sofar, before;
    while k < |snaps| && (atEnd || time >= snaps[k].timestamp)
      invariant k <= |snaps| && Progress(start, msgs, snaps, n, k, out) && total == |out|
      decreases |snaps| - k
    {
      var mismatches, report := CompareNext(book, snaps, k, start, msgs, n, out);
      total, out := total + mismatches, out + report;
      k := k + 1;
    }
  }

  method CompareNext(book: OrderBook, snaps: seq<Snapshot>, k: nat, ghost start: Market,
                     ghost msgs: seq<ParsedMessage>, ghost n: nat, ghost before: seq<Mismatch>)
    returns (mismatches: nat, report: seq<Mismatch>)
    requires book.Valid() && Progress(start, msgs, snaps, n, k, before) && k < |snaps|
    requires book.Market() == Replayed(start, msgs, n)
    requires n == |msgs| || (n > 0 && TimeOf(msgs[n - 1]) >= snaps[k].timestamp)
    ensures Progress(start, msgs, snaps, n, k + 1, before + report) && mismatches == |report|
  {
    mismatches, report := CompareSnapshot(book, snaps[k]);
    CompareStep(start, msgs, snaps, n, k, before, report);
  }

  /** A message later than the last one: the next snapshot is still not due before it. */
  lemma Advance(start: Market, msgs: seq<ParsedMessage>, snaps: seq<Snapshot>, n: nat, k: nat, before: seq<Mismatch>)
    requires Progress(start, msgs, snaps, n, k, before) && n < |msgs| && k < |snaps|
    requires n == 0 || TimeOf(msgs[n - 1]) < snaps[k].timestamp
    ensures Progress(start, msgs, snaps, n + 1, k, before)
  {
  }

  /** While a snapshot is not yet due, the last checkpoint lies ahead. */
  lemma StillDue(start: Market, capacity: nat, msgs: seq<ParsedMessage>, snaps: seq<Snapshot>,
                 n: nat, k: nat, before: seq<Mismatch>)
    requires Progress(start, msgs, snaps, n, k, before) && n < |msgs| && k < |snaps|
    requires n == 0 || TimeOf(msgs[n - 1]) < snaps[k].timestamp
    requires FeedOK(start, capacity, msgs, snaps)
    ensures Ready(start, capacity, msgs, snaps, n)
  {
    assert n < DueAfter(msgs, n, snaps[k].timestamp);
    CheckpointMono(msgs, snaps, k, |snaps| - 1);
  }

  lemma CompareStep(start: Market, msgs: seq<ParsedMessage>, snaps: seq<Snapshot>,
                    n: nat, k: nat, before: seq<Mismatch>, r: seq<Mismatch>)
    requires Progress(start, msgs, snaps, n, k, before) && k < |snaps|
    requires n == |msgs| || (n > 0 && TimeOf(msgs[n - 1]) >= snaps[k].timestamp)
    requires r == Report(Replayed(start, msgs, n), snaps[k], K_DEPTH)
    ensures Progress(start, msgs, snaps, n, k + 1, before + r)
  {
    assert Checkpoint(msgs, snaps, k) == n;
    assert MarketAt(start, msgs, snaps, k) == Replayed(start, msgs, n);
  }

  /** What is left of the stream once a frame was looked for. */
  ghost predicate Ahead(all: seq<seq<u8>>, n: nat, frame: Option<seq<u8>>, buf: seq<u8>, pos: nat) {
    && n <= |all|
    && all[n..] == if frame.None? then [] else [frame.value] + Frames(buf, pos)
  }

  lemma AheadNext(all: seq<seq<u8>>, n: nat, frame: Option<seq<u8>>, buf: seq<u8>, pos: nat,
                  frame': Option<seq<u8>>, pos': nat)
    requires Ahead(all, n, frame, buf, pos) && frame.Some? && (frame', pos') == Next(buf, pos)
    ensures Ahead(all, n + 1, frame', buf, pos')
  {
    assert all[n] == all[n..][0];
    assert all[n + 1..] == all[n..][1..];
  }

  lemma AheadNow(all: seq<seq<u8>>, n: nat, frame: Option<seq<u8>>, buf: seq<u8>, pos: nat)
    requires Ahead(all, n, frame, buf, pos) && frame.Some?
    ensures n < |all| && all[n] == frame.value
  {
    assert all[n] == all[n..][0];
  }

  lemma TimestampWidth(data: seq<u8>)
    ensures !ParseMessage(data).Monostate? ==> |ParseMessage(data).hdr.timestamp| == 6
  {
  }

  /** The time of a message; an unknown one counts as time 0. */
  method MessageTime(frame: seq<u8>) returns (time: nat)
    ensures time == TimeOf(ParseMessage(frame))
  {
    var msg := ParseMessage(frame);
    TimestampWidth(frame);
    time := 0;
    if !msg.Monostate? {
      time := ReadTs(msg.hdr.timestamp);
    }
  }

  /** Parses and dispatches a message. */
  method Apply(book: OrderBook, frame: seq<u8>, snaps: seq<Snapshot>,
               ghost start: Market, ghost msgs: seq<ParsedMessage>, ghost n: nat)
    requires book.Valid() && n < |msgs| && msgs[n] == ParseMessage(frame)
    requires book.Market() == Replayed(start, msgs, n)
    requires Ready(start, book.Capacity(), msgs, snaps, n)
    modifies book.Repr()
    ensures book.Valid() && book.Capacity() == old(book.Capacity())
    ensures book.pool == old(book.pool) || (fresh(book.pool) && fresh(book.pool.slots))
    ensures book.Market() == Replayed(start, msgs, n + 1)
  {
    ReplayedNext(start, book.Capacity(), msgs, snaps, n);
    book.Dispatch(Route(ParseMessage(frame)));
  }

  /** After `n` messages and all comparisons due by then, `k` of them; `mk` is the market. */
  ghost predicate Compared(start: Market, msgs: seq<ParsedMessage>, snaps: seq<Snapshot>, n: nat, k: nat,
                           total: nat, out: seq<Mismatch>, mk: Market)
  {
    && Progress(start, msgs, snaps, n, k, out) && total == |out|
    && mk == Replayed(start, msgs, n)
    && (k < |snaps| && n > 0 ==> TimeOf(msgs[n - 1]) < snaps[k].timestamp)
  }

  /** A snapshot that is not yet due waits for the next message, which must be well-formed. */
  lemma TurnStart(start: Market, capacity: nat, msgs: seq<ParsedMessage>, snaps: seq<Snapshot>, n: nat, k: nat,
                  total: nat, out: seq<Mismatch>, mk: Market)
    requires Compared(start, msgs, snaps, n, k, total, out, mk) && k < |snaps| && n < |msgs|
    requires FeedOK(start, capacity, msgs, snaps)
    ensures Ready(start, capacity, msgs, snaps, n) && mk == Replayed(start, msgs, n)
    ensures Progress(start, msgs, snaps, n + 1, k, out) && total == |out|
  {
    StillDue(start, capacity, msgs, snaps, n, k, out);
    Advance(start, msgs, snaps, n, k, out);
  }

  /** Dispatches a message and compares what has become due. */
  method Turn(book: OrderBook, frame: seq<u8>, snaps: seq<Snapshot>, first: nat, sofar: nat, before: seq<Mismatch>,
              ghost start: Market, ghost msgs: seq<ParsedMessage>, ghost n: nat)
    returns (k: nat, total: nat, out: seq<Mismatch>)
    requires book.Valid() && first < |snaps|
    requires Compared(start, msgs, snaps, n, first, sofar, before, book.Market())
    requires n < |msgs| && msgs[n] == ParseMessage(frame)
    requires FeedOK(start, book.Capacity(), msgs, snaps)
    modifies book.Repr()
    ensures book.Valid() && book.Capacity() == old(book.Capacity())
    ensures book.pool == old(book.pool) || (fresh(book.pool) && fresh(book.pool.slots))
    ensures Compared(start, msgs, snaps, n + 1, k, total, out, book.Market())
  {
    TurnStart(start, book.Capacity(), msgs, snaps, n, first, sofar, before, book.Market());
    Apply(book, frame, snaps, start, msgs, n);
    var time := MessageTime(frame);
    k, total, out := CompareDue(book, snaps, first, sofar, before, false, time, start, msgs, n + 1);
  }

  /** Reading the next frame leaves the book alone. */
  method ReadNext(book: OrderBook, reader: ItchReader) returns (frame: Option<seq<u8>>)
    requires book.Valid()
    modifies reader
    ensures book.Valid() && book.Market() == old(book.Market())
    ensures book.pool == old(book.pool) && book.Capacity() == old(book.Capacity())
    ensures (frame, reader.pos) == Next(reader.buf, old(reader.pos))
  {
    frame := reader.NextMessage();
  }

  /** Where the replay loop stands before it looks at `frame`. */
  ghost predicate LoopState(start: Market, all: seq<seq<u8>>, snaps: seq<Snapshot>, n: nat, k: nat,
                            total: nat, out: seq<Mismatch>, frame: Option<seq<u8>>, buf: seq<u8>, pos: nat,
                            mk: Market)
  {
    Compared(start, ParseAll(all), snaps, n, k, total, out, mk) && Ahead(all, n, frame, buf, pos)
  }

  lemma LoopEnd(start: Market, all: seq<seq<u8>>, snaps: seq<Snapshot>, n: nat, k: nat,
                total: nat, out: seq<Mismatch>, frame: Option<seq<u8>>, buf: seq<u8>, pos: nat, mk: Market)
    requires LoopState(start, all, snaps, n, k, total, out, frame, buf, pos, mk)
    requires frame.None? || k >= |snaps|
    ensures total == |out| && Progress(start, ParseAll(all), snaps, n, k, out)
    ensures mk == Replayed(start, ParseAll(all), n)
    ensures k < |snaps| ==> n == |all|
  {
  }

  lemma BodyStart(start: Market, all: seq<seq<u8>>, msgs: seq<ParsedMessage>, snaps: seq<Snapshot>, n: nat, k: nat,
                  total: nat, out: seq<Mismatch>, frame: Option<seq<u8>>, buf: seq<u8>, pos: nat, mk: Market)
    requires LoopState(start, all, snaps, n, k, total, out, frame, buf, pos, mk)
    requires msgs == ParseAll(all) && frame.Some?
    ensures Compared(start, msgs, snaps, n, k, total, out, mk) && Ahead(all, n, frame, buf, pos)
    ensures n < |all| == |msgs| && msgs[n] == ParseMessage(frame.value)
  {
    AheadNow(all, n, frame, buf, pos);
  }

  lemma BodyEnd(start: Market, all: seq<seq<u8>>, msgs: seq<ParsedMessage>, snaps: seq<Snapshot>, n: nat, k: nat,
                total: nat, out: seq<Mismatch>, frame: Option<seq<u8>>, buf: seq<u8>, pos: nat, mk: Market,
                frame': Option<seq<u8>>, pos': nat)
    requires msgs == ParseAll(all) && Compared(start, msgs, snaps, n + 1, k, total, out, mk)
    requires Ahead(all, n, frame, buf, pos) && frame.Some? && (frame', pos') == Next(buf, pos)
    ensures LoopState(start, all, snaps, n + 1, k, total, out, frame', buf, pos', mk)
  {
    AheadNext(all, n, frame, buf, pos, frame', pos');
  }

  /** The body of the replay loop. */
  method LoopBody(book: OrderBook, reader: ItchReader, frame: Option<seq<u8>>, snaps: seq<Snapshot>,
                  first: nat, sofar: nat, before: seq<Mismatch>,
                  ghost start: Market, ghost all: seq<seq<u8>>, ghost n: nat)
    returns (next: Option<seq<u8>>, k: nat, total: nat, out: seq<Mismatch>)
    requires book.Valid() && first < |snaps| && frame.Some?
    requires LoopState(start, all, snaps, n, first, sofar, before, frame, reader.buf, reader.pos, book.Market())
    requires FeedOK(start, book.Capacity(), ParseAll(all), snaps)
    modifies book.Repr(), reader
    ensures n < |all|
    ensures book.Valid() && book.Capacity() == old(book.Capacity())
    ensures book.pool == old(book.pool) || (fresh(book.pool) && fresh(book.pool.slots))
    ensures LoopState(start, all, snaps, n + 1, k, total, out, next, reader.buf, reader.pos, book.Market())
  {
    assert (reader as object) !in book.Repr();
    ghost var msgs, pos := ParseAll(all), reader.pos;
    BodyStart(start, all, msgs, snaps, n, first, sofar, before, frame, reader.buf, pos, book.Market());
    k, total, out := Turn(book, frame.value, snaps, first, sofar, before, start, msgs, n);
    next := ReadNext(book, reader);
    BodyEnd(start, all, msgs, snaps, n, k, total, out, frame, reader.buf, pos, book.Market(), next, reader.pos);
  }

  lemma LoopStart(start: Market, buf: seq<u8>, snaps: seq<Snapshot>, frame: Option<seq<u8>>, pos: nat)
    requires snaps != [] && (forall s :: s in snaps ==> s.Full()) && (frame, pos) == Next(buf, 0)
    ensures LoopState(start, Frames(buf, 0), snaps, 0, 0, 0, [], frame, buf, pos, start)
  {
    assert Frames(buf, 0)[0..] == Frames(buf, 0);
  }

  /** The replay loop: ends when the stream or the snapshots run out. */
  method ReplayLoop(book: OrderBook, reader: ItchReader, first: Option<seq<u8>>, snaps: seq<Snapshot>,
                    ghost start: Market, ghost all: seq<seq<u8>>)
    returns (k: nat, ghost n: nat, total: nat, out: seq<Mismatch>, frame: Option<seq<u8>>)
    requires book.Valid() && LoopState(start, all, snaps, 0, 0, 0, [], first, reader.buf, reader.pos, book.Market())
    requires FeedOK(start, book.Capacity(), ParseAll(all), snaps)
    modifies book.Repr(), reader
    ensures book.Valid() && LoopState(start, all, snaps, n, k, total, out, frame, reader.buf, reader.pos, book.Market())
    ensures frame.None? || k >= |snaps|
  {
    k, n, total, out, frame := 0, 0, 0, [], first;
    ghost var capacity := book.Capacity();
    while frame.Some? && k < |snaps|
      invariant book.Valid() && book.Capacity() == capacity
      invariant book.pool == old(book.pool) || (fresh(book.pool) && fresh(book.pool.slots))
      invariant n <= |all|
      invariant LoopState(start, all, snaps, n, k, total, out, frame, reader.buf, reader.pos, book.Market())
      decreases |all| - n
    {
      frame, k, total, out := LoopBody(book, reader, frame, snaps, k, total, out, start, all, n);
      n := n + 1;
    }
  }

  lemma AllCompared(start: Market, msgs: seq<ParsedMessage>, snaps: seq<Snapshot>,
                    n: nat, k: nat, out: seq<Mismatch>)
    requires Progress(start, msgs, snaps, n, k, out) && k >= |snaps|
    ensures out == FullReport(start, msgs, snaps, |snaps|)
    ensures |snaps| > 0 && MarketAt(start, msgs, snaps, |snaps| - 1) == Replayed(start, msgs, n)
  {
  }

  /** `validate`: replays the stream through the book and compares it at every snapshot. Each snapshot
      is compared once, in order, at its checkpoint; the total counts what is reported; and the book is
      left where the last comparison found it. */
  method Validate(book: OrderBook, buf: seq<u8>, snaps: seq<Snapshot>) returns (total: nat, out: seq<Mismatch>)
    requires book.Valid() && forall s :: s in snaps ==> s.Full()
    requires FeedOK(book.Market(), book.Capacity(), ParseAll(Frames(buf, 0)), snaps)
    modifies book.Repr()
    ensures book.Valid() && total == |out|
    ensures out == FullReport(old(book.Market()), ParseAll(Frames(buf, 0)), snaps, |snaps|)
    ensures book.Market() == if snaps == [] then old(book.Market())
                             else MarketAt(old(book.Market()), ParseAll(Frames(buf, 0)), snaps, |snaps| - 1)
  {
    if |snaps| == 0 { return 0, []; }
    ghost var start, all := book.Market(), Frames(buf, 0);
    var reader := new ItchReader(buf);
    var k;
    ghost var n;
    var frame := ReadNext(book, reader);
    LoopStart(start, buf, snaps, frame, reader.pos);
    k, n, total, out, frame := ReplayLoop(book, reader, frame, snaps, start, all);
    LoopEnd(start, all, snaps, n, k, total, out, frame, reader.buf, reader.pos, book.Market());
    if k < |snaps| {
      k, total, out := CompareDue(book, snaps, k, total, out, true, 0, start, ParseAll(all), n);
    }
    AllCompared(start, ParseAll(all), snaps, n, k, out);
  }
}
