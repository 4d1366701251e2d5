/** The nine ITCH messages: packed layouts, the parser, and the conversion to host order. */
module Messages {
  import opened Machine
  import opened Bytes
  import opened Markets

  // ----- timestamps

  /** `read_ts`: the accumulating loop over the six timestamp bytes. */
  method ReadTs(ts: seq<u8>) returns (v: u64)
    requires |ts| == 6
    ensures v == BigEndian(ts)
  {
    v := 0;
    for i := 0 to 6
      invariant v == BigEndian(ts[..i]) && v < Pow256(i)
    {
      assert ts[..i + 1][..i] == ts[..i];
      assert Pow256(i + 1) == 0x100 * Pow256(i) && Pow256(i) <= Pow256(5) by { PowMono(i, 5); }
      assert Pow256(5) == 0x100_0000_0000 by { Pow5(); }
      v := v * 0x100 + ts[i];
    }
    assert ts[..6] == ts;
  }

  /** `read_ts` inverts the 48-bit timestamp writer. */
  lemma TimestampRoundTrip(ns: nat)
    requires ns < 0x1_0000_0000_0000
    ensures BigEndian(WireBytes(ns, 6)) == ns
  {
    Pow5();
    BigEndianInverse(ns, 6);
  }

  // ----- the packed structs

  /** Fields common to every message; numeric fields as loaded by the host. */
  datatype Header = Header(stockLocate: nat, trackingNumber: nat, timestamp: seq<u8>)

  /** `ParsedMessage`: the tagged union, numeric fields as loaded by the host. */
  datatype ParsedMessage =
    | Monostate
    | SystemEventMsg(hdr: Header, eventCode: char)
    | AddOrderMsg(hdr: Header, orderRefNum: nat, buySell: char, shares: nat, stock: seq<u8>, price: nat)
    | AddOrderMPIDMsg(hdr: Header, orderRefNum: nat, buySell: char, shares: nat, stock: seq<u8>, price: nat,
                      attribution: seq<u8>)
    | ExecuteOrderMsg(hdr: Header, orderRefNum: nat, executedShares: nat, matchNumber: nat)
    | ExecuteOrderWithPriceMsg(hdr: Header, orderRefNum: nat, executedShares: nat, matchNumber: nat,
                               printable: char, executionPrice: nat)
    | CancelOrderMsg(hdr: Header, orderRefNum: nat, cancelledShares: nat)
    | DeleteOrderMsg(hdr: Header, orderRefNum: nat)
    | ReplaceOrderMsg(hdr: Header, originalOrderRefNum: nat, newOrderRefNum: nat, shares: nat, price: nat)
    | TradeMsg(hdr: Header, orderRefNum: nat, buySell: char, shares: nat, stock: seq<u8>, price: nat,
               matchNumber: nat)

  /** `memcpy` of an `n`-byte integer field at offset `off`. */
  function Load(data: seq<u8>, off: nat, n: nat): nat
    requires off + n <= |data|
  {
    LittleEndian(data[off..off + n])
  }

  function LoadChar(data: seq<u8>, off: nat): char
    requires off < |data|
  {
    data[off] as char
  }

  function LoadHeader(data: seq<u8>): Header
    requires 11 <= |data|
  {
    Header(Load(data, 1, 2), Load(data, 3, 2), data[5..11])
  }

  /** `sizeof` of the struct behind each type byte; 0 for an unknown type. */
  function SizeOf(msgType: char): nat {
    match msgType
    case 'S' => 12
    case 'A' => 36
    case 'F' => 40
    case 'E' => 31
    case 'C' => 36
    case 'X' => 23
    case 'D' => 19
    case 'U' => 35
    case 'P' => 44
    case _ => 0
  }

  /** `parse_message` */
  function ParseMessage(data: seq<u8>): ParsedMessage {
    if data == [] then Monostate else
    var msgType := LoadChar(data, 0);
    if SizeOf(msgType) == 0 || |data| < SizeOf(msgType) then Monostate else
    var hdr := LoadHeader(data);
    match msgType
    case 'S' => SystemEventMsg(hdr, LoadChar(data, 11))
    case 'A' => AddOrderMsg(hdr, Load(data, 11, 8), LoadChar(data, 19), Load(data, 20, 4), data[24..32], Load(data, 32, 4))
    case 'F' => AddOrderMPIDMsg(hdr, Load(data, 11, 8), LoadChar(data, 19), Load(data, 20, 4), data[24..32],
                                Load(data, 32, 4), data[36..40])
    case 'E' => ExecuteOrderMsg(hdr, Load(data, 11, 8), Load(data, 19, 4), Load(data, 23, 8))
    case 'C' => ExecuteOrderWithPriceMsg(hdr, Load(data, 11, 8), Load(data, 19, 4), Load(data, 23, 8),
                                         LoadChar(data, 31), Load(data, 32, 4))
    case 'X' => CancelOrderMsg(hdr, Load(data, 11, 8), Load(data, 19, 4))
    case 'D' => DeleteOrderMsg(hdr, Load(data, 11, 8))
    case 'U' => ReplaceOrderMsg(hdr, Load(data, 11, 8), Load(data, 19, 8), Load(data, 27, 4), Load(data, 31, 4))
    case 'P' => TradeMsg(hdr, Load(data, 11, 8), LoadChar(data, 19), Load(data, 20, 4), data[24..32],
                         Load(data, 32, 4), Load(data, 36, 8))
  }

  // ----- host order

  function SwapHeader(h: Header): Header {
    Header(ByteSwap(h.stockLocate, 2), ByteSwap(h.trackingNumber, 2), h.timestamp)
  }

  /** Every integer field passed through its byte swap, as the users of the struct do. */
  function InHostOrder(m: ParsedMessage): ParsedMessage {
    match m
    case Monostate => Monostate
    case SystemEventMsg(h, c) => SystemEventMsg(SwapHeader(h), c)
    case AddOrderMsg(h, r, s, q, st, p) => AddOrderMsg(SwapHeader(h), ByteSwap(r, 8), s, ByteSwap(q, 4), st, ByteSwap(p, 4))
    case AddOrderMPIDMsg(h, r, s, q, st, p, a) =>
      AddOrderMPIDMsg(SwapHeader(h), ByteSwap(r, 8), s, ByteSwap(q, 4), st, ByteSwap(p, 4), a)
    case ExecuteOrderMsg(h, r, q, n) => ExecuteOrderMsg(SwapHeader(h), ByteSwap(r, 8), ByteSwap(q, 4), ByteSwap(n, 8))
    case ExecuteOrderWithPriceMsg(h, r, q, n, c, p) =>
      ExecuteOrderWithPriceMsg(SwapHeader(h), ByteSwap(r, 8), ByteSwap(q, 4), ByteSwap(n, 8), c, ByteSwap(p, 4))
    case CancelOrderMsg(h, r, q) => CancelOrderMsg(SwapHeader(h), ByteSwap(r, 8), ByteSwap(q, 4))
    case DeleteOrderMsg(h, r) => DeleteOrderMsg(SwapHeader(h), ByteSwap(r, 8))
    case ReplaceOrderMsg(h, o, n, q, p) =>
      ReplaceOrderMsg(SwapHeader(h), ByteSwap(o, 8), ByteSwap(n, 8), ByteSwap(q, 4), ByteSwap(p, 4))
    case TradeMsg(h, r, s, q, st, p, n) =>
      TradeMsg(SwapHeader(h), ByteSwap(r, 8), s, ByteSwap(q, 4), st, ByteSwap(p, 4), ByteSwap(n, 8))
  }

  // ----- the wire format

  predicate ByteChar(c: char) { c as int < 0x100 }

  predicate HeaderFits(h: Header) {
    h.stockLocate < Pow256(2) && h.trackingNumber < Pow256(2) && |h.timestamp| == 6
  }

  /** The fields fit their widths on the wire. */
  predicate Fits(w: ParsedMessage) {
    match w
    case Monostate => false
    case SystemEventMsg(h, c) => HeaderFits(h) && ByteChar(c)
    case AddOrderMsg(h, r, s, q, st, p) =>
      HeaderFits(h) && r < Pow256(8) && ByteChar(s) && q < Pow256(4) && |st| == 8 && p < Pow256(4)
    case AddOrderMPIDMsg(h, r, s, q, st, p, a) =>
      HeaderFits(h) && r < Pow256(8) && ByteChar(s) && q < Pow256(4) && |st| == 8 && p < Pow256(4) && |a| == 4
    case ExecuteOrderMsg(h, r, q, n) => HeaderFits(h) && r < Pow256(8) && q < Pow256(4) && n < Pow256(8)
    case ExecuteOrderWithPriceMsg(h, r, q, n, c, p) =>
      HeaderFits(h) && r < Pow256(8) && q < Pow256(4) && n < Pow256(8) && ByteChar(c) && p < Pow256(4)
    case CancelOrderMsg(h, r, q) => HeaderFits(h) && r < Pow256(8) && q < Pow256(4)
    case DeleteOrderMsg(h, r) => HeaderFits(h) && r < Pow256(8)
    case ReplaceOrderMsg(h, o, n, q, p) =>
      HeaderFits(h) && o < Pow256(8) && n < Pow256(8) && q < Pow256(4) && p < Pow256(4)
    case TradeMsg(h, r, s, q, st, p, n) =>
      HeaderFits(h) && r < Pow256(8) && ByteChar(s) && q < Pow256(4) && |st| == 8 && p < Pow256(4) && n < Pow256(8)
  }

  function Byte(c: char): seq<u8>
    requires ByteChar(c)
  {
    [c as int]
  }

  function WireHeader(msgType: char, h: Header): (b: seq<u8>)
    requires ByteChar(msgType) && HeaderFits(h)
    ensures |b| == 11
  {
    Byte(msgType) + WireBytes(h.stockLocate, 2) + WireBytes(h.trackingNumber, 2) + h.timestamp
  }

  /** The message as it appears on the wire, integers big-endian. */
  function Wire(w: ParsedMessage): seq<u8>
    requires Fits(w)
  {
    match w
    case SystemEventMsg(h, c) => WireHeader('S', h) + Byte(c)
    case AddOrderMsg(h, r, s, q, st, p) =>
      WireHeader('A', h) + WireBytes(r, 8) + Byte(s) + WireBytes(q, 4) + st + WireBytes(p, 4)
    case AddOrderMPIDMsg(h, r, s, q, st, p, a) =>
      WireHeader('F', h) + WireBytes(r, 8) + Byte(s) + WireBytes(q, 4) + st + WireBytes(p, 4) + a
    case ExecuteOrderMsg(h, r, q, n) => WireHeader('E', h) + WireBytes(r, 8) + WireBytes(q, 4) + WireBytes(n, 8)
    case ExecuteOrderWithPriceMsg(h, r, q, n, c, p) =>
      WireHeader('C', h) + WireBytes(r, 8) + WireBytes(q, 4) + WireBytes(n, 8) + Byte(c) + WireBytes(p, 4)
    case CancelOrderMsg(h, r, q) => WireHeader('X', h) + WireBytes(r, 8) + WireBytes(q, 4)
    case DeleteOrderMsg(h, r) => WireHeader('D', h) + WireBytes(r, 8)
    case ReplaceOrderMsg(h, o, n, q, p) =>
      WireHeader('U', h) + WireBytes(o, 8) + WireBytes(n, 8) + WireBytes(q, 4) + WireBytes(p, 4)
    case TradeMsg(h, r, s, q, st, p, n) =>
      WireHeader('P', h) + WireBytes(r, 8) + Byte(s) + WireBytes(q, 4) + st + WireBytes(p, 4) + WireBytes(n, 8)
  }

  // ----- round trip

  /** A field of width `n` written at offset `off` is recovered. */
  lemma FieldRoundTrip(data: seq<u8>, off: nat, v: nat, n: nat)
    requires v < Pow256(n) && off + n <= |data| && data[off..off + n] == WireBytes(v, n)
    ensures ByteSwap(Load(data, off, n), n) == v
  {
    SwapOfLoad(data[off..off + n]);
    BigEndianInverse(v, n);
  }

  lemma HeaderRoundTrip(data: seq<u8>, msgType: char, h: Header)
    requires ByteChar(msgType) && HeaderFits(h) && 11 <= |data| && data[..11] == WireHeader(msgType, h)
    ensures LoadChar(data, 0) == msgType
    ensures SwapHeader(LoadHeader(data)) == h
  {
    assert data[1..3] == data[..11][1..3] == WireBytes(h.stockLocate, 2);
    assert data[3..5] == data[..11][3..5] == WireBytes(h.trackingNumber, 2);
    assert data[5..11] == data[..11][5..11] == h.timestamp;
    assert data[0] == data[..11][0];
    FieldRoundTrip(data, 1, h.stockLocate, 2);
    FieldRoundTrip(data, 3, h.trackingNumber, 2);
  }

  /** Offsets of the layouts: what a buffer that starts with these parts holds where. */
  lemma AddOrderFields(h: seq<u8>, ref: seq<u8>, side: seq<u8>, q: seq<u8>, stock: seq<u8>, p: seq<u8>,
                       tail: seq<u8>, data: seq<u8>)
    requires |h| == 11 && |ref| == 8 && |side| == 1 && |q| == 4 && |stock| == 8 && |p| == 4
    requires data == h + ref + side + q + stock + p + tail
    ensures data[..11] == h && data[11..19] == ref && data[19..20] == side
    ensures data[20..24] == q && data[24..32] == stock && data[32..36] == p && data[36..] == tail
  {
  }

  lemma ExecuteFields(h: seq<u8>, ref: seq<u8>, q: seq<u8>, n: seq<u8>, tail: seq<u8>, data: seq<u8>)
    requires |h| == 11 && |ref| == 8 && |q| == 4 && |n| == 8
    requires data == h + ref + q + n + tail
    ensures data[..11] == h && data[11..19] == ref && data[19..23] == q && data[23..31] == n && data[31..] == tail
  {
  }

  lemma ReplaceFields(h: seq<u8>, o: seq<u8>, n: seq<u8>, q: seq<u8>, p: seq<u8>, tail: seq<u8>, data: seq<u8>)
    requires |h| == 11 && |o| == 8 && |n| == 8 && |q| == 4 && |p| == 4
    requires data == h + o + n + q + p + tail
    ensures data[..11] == h && data[11..19] == o && data[19..27] == n
    ensures data[27..31] == q && data[31..35] == p && data[35..] == tail
  {
  }

  lemma RoundTripS(w: ParsedMessage, data: seq<u8>, rest: seq<u8>)
    requires w.SystemEventMsg? && Fits(w) && data == Wire(w) + rest
    ensures InHostOrder(ParseMessage(data)) == w
  {
    HeaderRoundTrip(data, 'S', w.hdr);
  }

  lemma RoundTripA(w: ParsedMessage, data: seq<u8>, rest: seq<u8>)
    requires w.AddOrderMsg? && Fits(w) && data == Wire(w) + rest
    ensures InHostOrder(ParseMessage(data)) == w
  {
    AddOrderFields(WireHeader('A', w.hdr), WireBytes(w.orderRefNum, 8), Byte(w.buySell), WireBytes(w.shares, 4),
                   w.stock, WireBytes(w.price, 4), rest, data);
    assert data[19] == data[19..20][0];
    HeaderRoundTrip(data, 'A', w.hdr);
    FieldRoundTrip(data, 11, w.orderRefNum, 8);
    FieldRoundTrip(data, 20, w.shares, 4);
    FieldRoundTrip(data, 32, w.price, 4);
  }

  lemma RoundTripF(w: ParsedMessage, data: seq<u8>, rest: seq<u8>)
    requires w.AddOrderMPIDMsg? && Fits(w) && data == Wire(w) + rest
    ensures InHostOrder(ParseMessage(data)) == w
  {
    var tail := w.attribution + rest;
    Regroup(WireHeader('F', w.hdr) + WireBytes(w.orderRefNum, 8) + Byte(w.buySell) + WireBytes(w.shares, 4)
                + w.stock + WireBytes(w.price, 4), w.attribution, rest);
    AddOrderFields(WireHeader('F', w.hdr), WireBytes(w.orderRefNum, 8), Byte(w.buySell), WireBytes(w.shares, 4),
                   w.stock, WireBytes(w.price, 4), tail, data);
    assert data[19] == data[19..20][0];
    assert data[36..40] == data[36..][..4] == w.attribution;
    HeaderRoundTrip(data, 'F', w.hdr);
    FieldRoundTrip(data, 11, w.orderRefNum, 8);
    FieldRoundTrip(data, 20, w.shares, 4);
    FieldRoundTrip(data, 32, w.price, 4);
  }

  lemma RoundTripE(w: ParsedMessage, data: seq<u8>, rest: seq<u8>)
    requires w.ExecuteOrderMsg? && Fits(w) && data == Wire(w) + rest
    ensures InHostOrder(ParseMessage(data)) == w
  {
    ExecuteFields(WireHeader('E', w.hdr), WireBytes(w.orderRefNum, 8), WireBytes(w.executedShares, 4),
                  WireBytes(w.matchNumber, 8), rest, data);
    HeaderRoundTrip(data, 'E', w.hdr);
    FieldRoundTrip(data, 11, w.orderRefNum, 8);
    FieldRoundTrip(data, 19, w.executedShares, 4);
    FieldRoundTrip(data, 23, w.matchNumber, 8);
  }

  lemma RoundTripC(w: ParsedMessage, data: seq<u8>, rest: seq<u8>)
    requires w.ExecuteOrderWithPriceMsg? && Fits(w) && data == Wire(w) + rest
    ensures InHostOrder(ParseMessage(data)) == w
  {
    var front := WireHeader('C', w.hdr) + WireBytes(w.orderRefNum, 8) + WireBytes(w.executedShares, 4)
      + WireBytes(w.matchNumber, 8);
    var own := Byte(w.printable) + WireBytes(w.executionPrice, 4);
    var tail := own + rest;
    Regroup(front, Byte(w.printable), WireBytes(w.executionPrice, 4));
    Regroup(front, own, rest);
    ExecuteFields(WireHeader('C', w.hdr), WireBytes(w.orderRefNum, 8), WireBytes(w.executedShares, 4),
                  WireBytes(w.matchNumber, 8), tail, data);
    assert data[31] == data[31..][0];
    assert data[32..36] == data[31..][1..5] == WireBytes(w.executionPrice, 4);
    HeaderRoundTrip(data, 'C', w.hdr);
    FieldRoundTrip(data, 11, w.orderRefNum, 8);
    FieldRoundTrip(data, 19, w.executedShares, 4);
    FieldRoundTrip(data, 23, w.matchNumber, 8);
    FieldRoundTrip(data, 32, w.executionPrice, 4);
  }

  lemma RoundTripX(w: ParsedMessage, data: seq<u8>, rest: seq<u8>)
    requires w.CancelOrderMsg? && Fits(w) && data == Wire(w) + rest
    ensures InHostOrder(ParseMessage(data)) == w
  {
    HeaderRoundTrip(data, 'X', w.hdr);
    FieldRoundTrip(data, 11, w.orderRefNum, 8);
    FieldRoundTrip(data, 19, w.cancelledShares, 4);
  }

  lemma RoundTripD(w: ParsedMessage, data: seq<u8>, rest: seq<u8>)
    requires w.DeleteOrderMsg? && Fits(w) && data == Wire(w) + rest
    ensures InHostOrder(ParseMessage(data)) == w
  {
    HeaderRoundTrip(data, 'D', w.hdr);
    FieldRoundTrip(data, 11, w.orderRefNum, 8);
  }

  lemma RoundTripU(w: ParsedMessage, data: seq<u8>, rest: seq<u8>)
    requires w.ReplaceOrderMsg? && Fits(w) && data == Wire(w) + rest
    ensures InHostOrder(ParseMessage(data)) == w
  {
    ReplaceFields(WireHeader('U', w.hdr), WireBytes(w.originalOrderRefNum, 8), WireBytes(w.newOrderRefNum, 8),
                  WireBytes(w.shares, 4), WireBytes(w.price, 4), rest, data);
    HeaderRoundTrip(data, 'U', w.hdr);
    FieldRoundTrip(data, 11, w.originalOrderRefNum, 8);
    FieldRoundTrip(data, 19, w.newOrderRefNum, 8);
    FieldRoundTrip(data, 27, w.shares, 4);
    FieldRoundTrip(data, 31, w.price, 4);
  }

  lemma RoundTripP(w: ParsedMessage, data: seq<u8>, rest: seq<u8>)
    requires w.TradeMsg? && Fits(w) && data == Wire(w) + rest
    ensures InHostOrder(ParseMessage(data)) == w
  {
    var tail := WireBytes(w.matchNumber, 8) + rest;
    Regroup(WireHeader('P', w.hdr) + WireBytes(w.orderRefNum, 8) + Byte(w.buySell) + WireBytes(w.shares, 4)
                + w.stock + WireBytes(w.price, 4), WireBytes(w.matchNumber, 8), rest);
    AddOrderFields(WireHeader('P', w.hdr), WireBytes(w.orderRefNum, 8), Byte(w.buySell), WireBytes(w.shares, 4),
                   w.stock, WireBytes(w.price, 4), tail, data);
    assert data[19] == data[19..20][0];
    assert data[36..44] == data[36..][..8] == WireBytes(w.matchNumber, 8);
    HeaderRoundTrip(data, 'P', w.hdr);
    FieldRoundTrip(data, 11, w.orderRefNum, 8);
    FieldRoundTrip(data, 20, w.shares, 4);
    FieldRoundTrip(data, 32, w.price, 4);
    FieldRoundTrip(data, 36, w.matchNumber, 8);
  }

  /** The parser recovers every field of every message, whatever bytes follow it. */
  lemma ParseRoundTrip(w: ParsedMessage, rest: seq<u8>)
    requires Fits(w)
    ensures InHostOrder(ParseMessage(Wire(w) + rest)) == w
  {
    var data := Wire(w) + rest;
    match w
    case SystemEventMsg(_, _) => RoundTripS(w, data, rest);
    case AddOrderMsg(_, _, _, _, _, _) => RoundTripA(w, data, rest);
    case AddOrderMPIDMsg(_, _, _, _, _, _, _) => RoundTripF(w, data, rest);
    case ExecuteOrderMsg(_, _, _, _) => RoundTripE(w, data, rest);
    case ExecuteOrderWithPriceMsg(_, _, _, _, _, _) => RoundTripC(w, data, rest);
    case CancelOrderMsg(_, _, _) => RoundTripX(w, data, rest);
    case DeleteOrderMsg(_, _) => RoundTripD(w, data, rest);
    case ReplaceOrderMsg(_, _, _, _, _) => RoundTripU(w, data, rest);
    case TradeMsg(_, _, _, _, _, _, _) => RoundTripP(w, data, rest);
  }

  // ----- the converse: what the parser accepts

  lemma FieldConverse(data: seq<u8>, off: nat, n: nat)
    requires off + n <= |data|
    ensures ByteSwap(Load(data, off, n), n) < Pow256(n)
    ensures WireBytes(ByteSwap(Load(data, off, n), n), n) == data[off..off + n]
  {
    var b := data[off..off + n];
    SwapOfLoad(b);
    BigEndianBound(b);
    WireBytesInverse(b);
  }

  lemma HeaderConverse(data: seq<u8>)
    requires 11 <= |data|
    ensures ByteChar(LoadChar(data, 0)) && HeaderFits(SwapHeader(LoadHeader(data)))
    ensures WireHeader(LoadChar(data, 0), SwapHeader(LoadHeader(data))) == data[..11]
  {
    FieldConverse(data, 1, 2);
    FieldConverse(data, 3, 2);
    assert Byte(LoadChar(data, 0)) + data[1..3] + data[3..5] + data[5..11] == data[..11];
  }

  /** The message is on the wire at the front of the buffer, and is what the parser says. */
  ghost predicate OnWire(w: ParsedMessage, data: seq<u8>) {
    Fits(w) && Wire(w) <= data
  }

  lemma Slice(data: seq<u8>, i: nat, j: nat)
    requires i <= j <= |data|
    ensures data[..i] + data[i..j] == data[..j]
  {
  }

  /** An integer field of an accepted buffer, rewritten to the wire, follows what precedes it. */
  lemma IntegerConverse(data: seq<u8>, off: nat, n: nat)
    requires off + n <= |data|
    ensures ByteSwap(Load(data, off, n), n) < Pow256(n)
    ensures data[..off] + WireBytes(ByteSwap(Load(data, off, n), n), n) == data[..off + n]
  {
    FieldConverse(data, off, n);
    Slice(data, off, off + n);
  }

  lemma CharConverse(data: seq<u8>, off: nat)
    requires off < |data|
    ensures ByteChar(LoadChar(data, off))
    ensures data[..off] + Byte(LoadChar(data, off)) == data[..off + 1]
  {
  }

  lemma ParsedS(data: seq<u8>)
    requires ParseMessage(data).SystemEventMsg?
    ensures 12 <= |data| && LoadChar(data, 0) == 'S'
    ensures ParseMessage(data) == SystemEventMsg(LoadHeader(data), LoadChar(data, 11))
  {
  }

  lemma WireS(data: seq<u8>, w: ParsedMessage)
    requires 12 <= |data| && LoadChar(data, 0) == 'S'
    requires w == SystemEventMsg(SwapHeader(LoadHeader(data)), LoadChar(data, 11))
    ensures Fits(w) && Wire(w) == data[..12]
  {
    HeaderConverse(data);
    CharConverse(data, 11);
  }

  lemma ConverseS(data: seq<u8>)
    requires ParseMessage(data).SystemEventMsg?
    ensures OnWire(InHostOrder(ParseMessage(data)), data)
  {
    ParsedS(data);
    WireS(data, InHostOrder(ParseMessage(data)));
  }

  lemma ParsedA(data: seq<u8>)
    requires ParseMessage(data).AddOrderMsg?
    ensures 36 <= |data| && LoadChar(data, 0) == 'A'
    ensures ParseMessage(data) == AddOrderMsg(LoadHeader(data), Load(data, 11, 8), LoadChar(data, 19),
      Load(data, 20, 4), data[24..32], Load(data, 32, 4))
  {
  }

  lemma WireA(data: seq<u8>, w: ParsedMessage)
    requires 36 <= |data| && LoadChar(data, 0) == 'A'
    requires w == AddOrderMsg(SwapHeader(LoadHeader(data)), ByteSwap(Load(data, 11, 8), 8), LoadChar(data, 19),
      ByteSwap(Load(data, 20, 4), 4), data[24..32], ByteSwap(Load(data, 32, 4), 4))
    ensures Fits(w) && Wire(w) == data[..36]
  {
    HeaderConverse(data);
    IntegerConverse(data, 11, 8);
    CharConverse(data, 19);
    IntegerConverse(data, 20, 4);
    Slice(data, 24, 32);
    assert WireHeader('A', w.hdr) + WireBytes(w.orderRefNum, 8) + Byte(w.buySell) + WireBytes(w.shares, 4) == data[..24];
    IntegerConverse(data, 32, 4);
  }

  lemma ConverseA(data: seq<u8>)
    requires ParseMessage(data).AddOrderMsg?
    ensures OnWire(InHostOrder(ParseMessage(data)), data)
  {
    ParsedA(data);
    WireA(data, InHostOrder(ParseMessage(data)));
  }

  lemma ParsedF(data: seq<u8>)
    requires ParseMessage(data).AddOrderMPIDMsg?
    ensures 40 <= |data| && LoadChar(data, 0) == 'F'
    ensures ParseMessage(data) == AddOrderMPIDMsg(LoadHeader(data), Load(data, 11, 8), LoadChar(data, 19),
      Load(data, 20, 4), data[24..32], Load(data, 32, 4), data[36..40])
  {
  }

  lemma WireF(data: seq<u8>, w: ParsedMessage)
    requires 40 <= |data| && LoadChar(data, 0) == 'F'
    requires w == AddOrderMPIDMsg(SwapHeader(LoadHeader(data)), ByteSwap(Load(data, 11, 8), 8), LoadChar(data, 19),
      ByteSwap(Load(data, 20, 4), 4), data[24..32], ByteSwap(Load(data, 32, 4), 4), data[36..40])
    ensures Fits(w) && Wire(w) == data[..40]
  {
    HeaderConverse(data);
    IntegerConverse(data, 11, 8);
    CharConverse(data, 19);
    IntegerConverse(data, 20, 4);
    Slice(data, 24, 32);
    assert WireHeader('F', w.hdr) + WireBytes(w.orderRefNum, 8) + Byte(w.buySell) + WireBytes(w.shares, 4) == data[..24];
    IntegerConverse(data, 32, 4);
    Slice(data, 36, 40);
  }

  lemma ConverseF(data: seq<u8>)
    requires ParseMessage(data).AddOrderMPIDMsg?
    ensures OnWire(InHostOrder(ParseMessage(data)), data)
  {
    ParsedF(data);
    WireF(data, InHostOrder(ParseMessage(data)));
  }

  lemma ParsedE(data: seq<u8>)
    requires ParseMessage(data).ExecuteOrderMsg?
    ensures 31 <= |data| && LoadChar(data, 0) == 'E'
    ensures ParseMessage(data) == ExecuteOrderMsg(LoadHeader(data), Load(data, 11, 8), Load(data, 19, 4),
      Load(data, 23, 8))
  {
  }

  lemma WireE(data: seq<u8>, w: ParsedMessage)
    requires 31 <= |data| && LoadChar(data, 0) == 'E'
    requires w == ExecuteOrderMsg(SwapHeader(LoadHeader(data)), ByteSwap(Load(data, 11, 8), 8),
      ByteSwap(Load(data, 19, 4), 4), ByteSwap(Load(data, 23, 8), 8))
    ensures Fits(w) && Wire(w) == data[..31]
  {
    HeaderConverse(data);
    IntegerConverse(data, 11, 8);
    IntegerConverse(data, 19, 4);
    IntegerConverse(data, 23, 8);
  }

  lemma ConverseE(data: seq<u8>)
    requires ParseMessage(data).ExecuteOrderMsg?
    ensures OnWire(InHostOrder(ParseMessage(data)), data)
  {
    ParsedE(data);
    WireE(data, InHostOrder(ParseMessage(data)));
  }

  lemma ParsedC(data: seq<u8>)
    requires ParseMessage(data).ExecuteOrderWithPriceMsg?
    ensures 36 <= |data| && LoadChar(data, 0) == 'C'
    ensures ParseMessage(data) == ExecuteOrderWithPriceMsg(LoadHeader(data), Load(data, 11, 8), Load(data, 19, 4),
      Load(data, 23, 8), LoadChar(data, 31), Load(data, 32, 4))
  {
  }

  lemma WireC(data: seq<u8>, w: ParsedMessage)
    requires 36 <= |data| && LoadChar(data, 0) == 'C'
    requires w == ExecuteOrderWithPriceMsg(SwapHeader(LoadHeader(data)), ByteSwap(Load(data, 11, 8), 8),
      ByteSwap(Load(data, 19, 4), 4), ByteSwap(Load(data, 23, 8), 8), LoadChar(data, 31),
      ByteSwap(Load(data, 32, 4), 4))
    ensures Fits(w) && Wire(w) == data[..36]
  {
    HeaderConverse(data);
    IntegerConverse(data, 11, 8);
    IntegerConverse(data, 19, 4);
    IntegerConverse(data, 23, 8);
    CharConverse(data, 31);
    IntegerConverse(data, 32, 4);
  }

  lemma ConverseC(data: seq<u8>)
    requires ParseMessage(data).ExecuteOrderWithPriceMsg?
    ensures OnWire(InHostOrder(ParseMessage(data)), data)
  {
    ParsedC(data);
    WireC(data, InHostOrder(ParseMessage(data)));
  }

  lemma ParsedX(data: seq<u8>)
    requires ParseMessage(data).CancelOrderMsg?
    ensures 23 <= |data| && LoadChar(data, 0) == 'X'
    ensures ParseMessage(data) == CancelOrderMsg(LoadHeader(data), Load(data, 11, 8), Load(data, 19, 4))
  {
  }

  lemma WireX(data: seq<u8>, w: ParsedMessage)
    requires 23 <= |data| && LoadChar(data, 0) == 'X'
    requires w == CancelOrderMsg(SwapHeader(LoadHeader(data)), ByteSwap(Load(data, 11, 8), 8),
      ByteSwap(Load(data, 19, 4), 4))
    ensures Fits(w) && Wire(w) == data[..23]
  {
    HeaderConverse(data);
    IntegerConverse(data, 11, 8);
    IntegerConverse(data, 19, 4);
  }

  lemma ConverseX(data: seq<u8>)
    requires ParseMessage(data).CancelOrderMsg?
    ensures OnWire(InHostOrder(ParseMessage(data)), data)
  {
    ParsedX(data);
    WireX(data, InHostOrder(ParseMessage(data)));
  }

  lemma ParsedD(data: seq<u8>)
    requires ParseMessage(data).DeleteOrderMsg?
    ensures 19 <= |data| && LoadChar(data, 0) == 'D'
    ensures ParseMessage(data) == DeleteOrderMsg(LoadHeader(data), Load(data, 11, 8))
  {
  }

  lemma WireD(data: seq<u8>, w: ParsedMessage)
    requires 19 <= |data| && LoadChar(data, 0) == 'D'
    requires w == DeleteOrderMsg(SwapHeader(LoadHeader(data)), ByteSwap(Load(data, 11, 8), 8))
    ensures Fits(w) && Wire(w) == data[..19]
  {
    HeaderConverse(data);
    IntegerConverse(data, 11, 8);
  }

  lemma ConverseD(data: seq<u8>)
    requires ParseMessage(data).DeleteOrderMsg?
    ensures OnWire(InHostOrder(ParseMessage(data)), data)
  {
    ParsedD(data);
    WireD(data, InHostOrder(ParseMessage(data)));
  }

  lemma ParsedU(data: seq<u8>)
    requires ParseMessage(data).ReplaceOrderMsg?
    ensures 35 <= |data| && LoadChar(data, 0) == 'U'
    ensures ParseMessage(data) == ReplaceOrderMsg(LoadHeader(data), Load(data, 11, 8), Load(data, 19, 8),
      Load(data, 27, 4), Load(data, 31, 4))
  {
  }

  lemma WireU(data: seq<u8>, w: ParsedMessage)
    requires 35 <= |data| && LoadChar(data, 0) == 'U'
    requires w == ReplaceOrderMsg(SwapHeader(LoadHeader(data)), ByteSwap(Load(data, 11, 8), 8),
      ByteSwap(Load(data, 19, 8), 8), ByteSwap(Load(data, 27, 4), 4), ByteSwap(Load(data, 31, 4), 4))
    ensures Fits(w) && Wire(w) == data[..35]
  {
    HeaderConverse(data);
    IntegerConverse(data, 11, 8);
    IntegerConverse(data, 19, 8);
    IntegerConverse(data, 27, 4);
    IntegerConverse(data, 31, 4);
  }

  lemma ConverseU(data: seq<u8>)
    requires ParseMessage(data).ReplaceOrderMsg?
    ensures OnWire(InHostOrder(ParseMessage(data)), data)
  {
    ParsedU(data);
    WireU(data, InHostOrder(ParseMessage(data)));
  }

  lemma ParsedP(data: seq<u8>)
    requires ParseMessage(data).TradeMsg?
    ensures 44 <= |data| && LoadChar(data, 0) == 'P'
    ensures ParseMessage(data) == TradeMsg(LoadHeader(data), Load(data, 11, 8), LoadChar(data, 19),
      Load(data, 20, 4), data[24..32], Load(data, 32, 4), Load(data, 36, 8))
  {
  }

  lemma WireP(data: seq<u8>, w: ParsedMessage)
    requires 44 <= |data| && LoadChar(data, 0) == 'P'
    requires w == TradeMsg(SwapHeader(LoadHeader(data)), ByteSwap(Load(data, 11, 8), 8), LoadChar(data, 19),
      ByteSwap(Load(data, 20, 4), 4), data[24..32], ByteSwap(Load(data, 32, 4), 4), ByteSwap(Load(data, 36, 8), 8))
    ensures Fits(w) && Wire(w) == data[..44]
  {
    HeaderConverse(data);
    IntegerConverse(data, 11, 8);
    CharConverse(data, 19);
    IntegerConverse(data, 20, 4);
    Slice(data, 24, 32);
    assert WireHeader('P', w.hdr) + WireBytes(w.orderRefNum, 8) + Byte(w.buySell) + WireBytes(w.shares, 4) == data[..24];
    IntegerConverse(data, 32, 4);
    IntegerConverse(data, 36, 8);
  }

  lemma ConverseP(data: seq<u8>)
    requires ParseMessage(data).TradeMsg?
    ensures OnWire(InHostOrder(ParseMessage(data)), data)
  {
    ParsedP(data);
    WireP(data, InHostOrder(ParseMessage(data)));
  }

  /** Every buffer the parser accepts starts with the wire form of the message it returns. */
  lemma ParseConverse(data: seq<u8>)
    requires !ParseMessage(data).Monostate?
    ensures OnWire(InHostOrder(ParseMessage(data)), data)
  {
    match ParseMessage(data)
    case SystemEventMsg(_, _) => ConverseS(data);
    case AddOrderMsg(_, _, _, _, _, _) => ConverseA(data);
    case AddOrderMPIDMsg(_, _, _, _, _, _, _) => ConverseF(data);
    case ExecuteOrderMsg(_, _, _, _) => ConverseE(data);
    case ExecuteOrderWithPriceMsg(_, _, _, _, _, _) => ConverseC(data);
    case CancelOrderMsg(_, _, _) => ConverseX(data);
    case DeleteOrderMsg(_, _) => ConverseD(data);
    case ReplaceOrderMsg(_, _, _, _, _) => ConverseU(data);
    case TradeMsg(_, _, _, _, _, _, _) => ConverseP(data);
  }

  /** Parsing decides the wire format: a message is at the front of the buffer exactly when the parser
      returns it, and the parser gives up exactly when no message is there. */
  lemma ParseDecides(data: seq<u8>, w: ParsedMessage)
    ensures OnWire(w, data) <==> !w.Monostate? && InHostOrder(ParseMessage(data)) == w
    ensures ParseMessage(data).Monostate? <==> !exists m :: OnWire(m, data)
  {
    forall m | OnWire(m, data)
      ensures InHostOrder(ParseMessage(data)) == m && !m.Monostate?
    {
      var rest := data[|Wire(m)|..];
      assert data == Wire(m) + rest;
      ParseRoundTrip(m, rest);
    }
    if !ParseMessage(data).Monostate? {
      ParseConverse(data);
    }
  }

  // ----- what the book and the validator take from a message

  function Be32(v: nat): u32 {
    BigEndianBound(HostBytes(v, 4));
    Pow5();
    ByteSwap(v, 4)
  }

  function Be64(v: nat): u64 {
    BigEndianBound(HostBytes(v, 8));
    Pow5();
    ByteSwap(v, 8)
  }

  /** The handler a message is dispatched to, with its operands in host order; an unknown message
      and a trade reach no handler. */
  function Route(m: ParsedMessage): Msg {
    match m
    case SystemEventMsg(_, c) => Session(c)
    case AddOrderMsg(_, r, s, q, _, p) => Add(Be64(r), s, Be32(q), Be32(p))
    case AddOrderMPIDMsg(_, r, s, q, _, p, _) => Add(Be64(r), s, Be32(q), Be32(p))
    case ExecuteOrderMsg(_, r, q, _) => Execute(Be64(r), Be32(q))
    case ExecuteOrderWithPriceMsg(_, r, q, _, _, _) => Execute(Be64(r), Be32(q))
    case CancelOrderMsg(_, r, q) => Cancel(Be64(r), Be32(q))
    case DeleteOrderMsg(_, r) => Delete(Be64(r))
    case ReplaceOrderMsg(_, o, n, q, p) => Replace(Be64(o), Be64(n), Be32(q), Be32(p))
    case TradeMsg(_, _, _, _, _, _, _) => Ignored
    case Monostate => Ignored
  }

  /** The operation that a message on the wire asks for, with the fields as they are written there. */
  function Operation(w: ParsedMessage): Msg
    requires Fits(w)
  {
    Pow5();
    match w
    case SystemEventMsg(_, code) => Session(code)
    case AddOrderMsg(_, ref, side, shares, _, price) => Add(ref, side, shares, price)
    case AddOrderMPIDMsg(_, ref, side, shares, _, price, _) => Add(ref, side, shares, price)
    case ExecuteOrderMsg(_, ref, shares, _) => Execute(ref, shares)
    case ExecuteOrderWithPriceMsg(_, ref, shares, _, _, _) => Execute(ref, shares)
    case CancelOrderMsg(_, ref, shares) => Cancel(ref, shares)
    case DeleteOrderMsg(_, ref) => Delete(ref)
    case ReplaceOrderMsg(_, oldRef, newRef, shares, price) => Replace(oldRef, newRef, shares, price)
    case TradeMsg(_, _, _, _, _, _, _) => Ignored
  }

  /** A parsed message is dispatched as its host-order form says. */
  lemma RouteHost(m: ParsedMessage)
    requires Fits(InHostOrder(m))
    ensures Route(m) == Operation(InHostOrder(m))
  {
  }

  /** What is on the wire is what the book is asked to do, field by field, whatever bytes follow. */
  lemma RouteWire(w: ParsedMessage, rest: seq<u8>)
    requires Fits(w)
    ensures Route(ParseMessage(Wire(w) + rest)) == Operation(w)
    ensures var op := Route(ParseMessage(Wire(w) + rest));
      match w
      case SystemEventMsg(_, code) => op == Session(code)
      case AddOrderMsg(_, ref, side, shares, _, price) =>
        op.Add? && op.ref == ref && op.side == side && op.shares == shares && op.price == price
      case AddOrderMPIDMsg(_, ref, side, shares, _, price, _) =>
        op.Add? && op.ref == ref && op.side == side && op.shares == shares && op.price == price
      case ExecuteOrderMsg(_, ref, shares, _) => op.Execute? && op.ref == ref && op.qty == shares
      case ExecuteOrderWithPriceMsg(_, ref, shares, _, _, _) => op.Execute? && op.ref == ref && op.qty == shares
      case CancelOrderMsg(_, ref, shares) => op.Cancel? && op.ref == ref && op.qty == shares
      case DeleteOrderMsg(_, ref) => op.Delete? && op.ref == ref
      case ReplaceOrderMsg(_, oldRef, newRef, shares, price) =>
        op.Replace? && op.oldRef == oldRef && op.newRef == newRef && op.shares == shares && op.price == price
      case TradeMsg(_, _, _, _, _, _, _) => op.Ignored?
  {
    ParseRoundTrip(w, rest);
    RouteHost(ParseMessage(Wire(w) + rest));
  }

  /** A buffer with no message on it reaches no handler. */
  lemma RouteNothing(data: seq<u8>)
    requires !exists w :: OnWire(w, data)
    ensures Route(ParseMessage(data)) == Ignored
  {
    ParseDecides(data, Monostate);
  }

  /** Frame by frame: the frame starts with the wire form of the message, or no message is on it. */
  ghost predicate Carries(frames: seq<seq<u8>>, ws: seq<ParsedMessage>) {
    |frames| == |ws| && forall i :: 0 <= i < |ws| ==> CarriesOne(frames[i], ws[i])
  }

  ghost predicate CarriesOne(frame: seq<u8>, w: ParsedMessage) {
    if w.Monostate? then !exists m :: OnWire(m, frame) else OnWire(w, frame)
  }

  /** What the messages ask for, frame by frame. */
  function Operations(ws: seq<ParsedMessage>): seq<Msg>
    requires forall i :: 0 <= i < |ws| ==> ws[i].Monostate? || Fits(ws[i])
  {
    seq(|ws|, i requires 0 <= i < |ws| => if ws[i].Monostate? then Ignored else Operation(ws[i]))
  }

  lemma RouteOne(frame: seq<u8>, w: ParsedMessage)
    requires CarriesOne(frame, w)
    ensures w.Monostate? || Fits(w)
    ensures Route(ParseMessage(frame)) == if w.Monostate? then Ignored else Operation(w)
  {
    if w.Monostate? {
      RouteNothing(frame);
    } else {
      var rest := frame[|Wire(w)|..];
      assert frame == Wire(w) + rest;
      RouteWire(w, rest);
    }
  }

  /** Frames that carry messages are dispatched as the operations of these messages. */
  lemma RouteCarried(frames: seq<seq<u8>>, ws: seq<ParsedMessage>)
    requires Carries(frames, ws)
    ensures forall i :: 0 <= i < |ws| ==> ws[i].Monostate? || Fits(ws[i])
    ensures RouteAll(ParseAll(frames)) == Operations(ws)
  {
    forall i | 0 <= i < |ws|
      ensures ws[i].Monostate? || Fits(ws[i])
      ensures Route(ParseMessage(frames[i])) == if ws[i].Monostate? then Ignored else Operation(ws[i])
    {
      RouteOne(frames[i], ws[i]);
    }
  }

  /** The parsed messages of a stream, and the operations they are dispatched to. */
  function ParseAll(frames: seq<seq<u8>>): seq<ParsedMessage> {
    seq(|frames|, i requires 0 <= i < |frames| => ParseMessage(frames[i]))
  }

  function RouteAll(msgs: seq<ParsedMessage>): seq<Msg> {
    seq(|msgs|, i requires 0 <= i < |msgs| => Route(msgs[i]))
  }

  lemma ParseAllCons(frames: seq<seq<u8>>)
    requires frames != []
    ensures ParseAll(frames) == [ParseMessage(frames[0])] + ParseAll(frames[1..])
  {
  }

  lemma RouteAllSnoc(msgs: seq<ParsedMessage>, m: ParsedMessage)
    ensures RouteAll(msgs + [m]) == RouteAll(msgs) + [Route(m)]
  {
  }
}
