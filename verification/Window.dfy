/** Index arithmetic of the price windows: bids count down from a ceiling, asks up from a floor. */
module Windows {
  import opened Machine

  const K_LEVELS: int := 8192

  /** Largest price of the feed ('Data Types' section of the Nasdaq TotalView-ITCH 5.0 specification). */
  const MAX_PRICE: int := 2_000_000_000

  /** Position of `price` in the window of a side whose reference is `refPrice`. */
  function Offset(side: char, refPrice: int, price: int): int {
    if side == 'B' then refPrice - price else price - refPrice
  }

  predicate InWindow(side: char, refPrice: int, price: int) {
    0 <= Offset(side, refPrice, price) < K_LEVELS
  }

  /** `bid_idx` / `ask_idx` with their signed casts, exact under the feed's price bound. */
  function MachineOffset(side: char, refPrice: u32, price: u32): (i: int)
    ensures refPrice <= MAX_PRICE && price <= MAX_PRICE ==> i == Offset(side, refPrice, price)
  {
    if side == 'B' then AsInt32(refPrice) - AsInt32(price) else AsInt32(price) - AsInt32(refPrice)
  }

  /** `price_from_bid_idx` / `price_from_ask_idx`, in 32-bit unsigned arithmetic. */
  function MachinePrice(side: char, refPrice: u32, i: u32): u32 {
    if side == 'B' then Sub32(refPrice, i) else Add32(refPrice, i)
  }

  /** Price of position `i` of the window. */
  function PriceAt(side: char, refPrice: int, i: int): int {
    if side == 'B' then refPrice - i else refPrice + i
  }

  lemma PriceExact(side: char, refPrice: u32, i: int)
    requires 0 <= i < K_LEVELS && 0 <= PriceAt(side, refPrice, i) < TWO_32
    ensures MachinePrice(side, refPrice, i) == PriceAt(side, refPrice, i)
  {
  }

  /** The reference of a side after an order at `price` was inserted on it. */
  function NextRef(side: char, refPrice: int, price: int): int {
    if refPrice == 0 || !InWindow(side, refPrice, price) then price else refPrice
  }

  /** The insertion moves the window. */
  predicate Recentres(side: char, refPrice: int, price: int) {
    refPrice != 0 && !InWindow(side, refPrice, price)
  }

  /** Index and price conversions are mutual inverses on the window, without wrapping. */
  lemma IndexRoundTrip(side: char, refPrice: u32, price: u32, i: int)
    requires refPrice <= MAX_PRICE && price <= MAX_PRICE && 0 <= i < K_LEVELS
    ensures MachineOffset(side, refPrice, price) == i <==> MachinePrice(side, refPrice, i) == price
  {
    if side == 'B' && refPrice < i {
      assert Sub32(refPrice, i) == refPrice - i + TWO_32;
    }
  }
}
