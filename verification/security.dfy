/**
 * Static information about one security on one trade date: the minimum
 * order size and lot, tick size, price band, suspension and index
 * membership.
 */
module Security {
  import Text
  import opened Status
  import opened Symbols
  import Arith

  datatype SecurityInfo = SecurityInfo(
    tradeDate: int,
    symbol: string,
    securityType: int,
    orderInitQtySize: int,
    lotSize: int,
    tickSize: real,
    preClosePrice: real,
    lowLimitPrice: real,
    highLimitPrice: real,
    isSuspended: bool,
    belongIndex: int)

  /**
   * The record the constructor builds for a symbol: the STAR market ("68…")
   * trades from 200 shares in steps of 1, everything else from 100 in lots
   * of 100; the tick is 0.01 for main-board codes of either exchange and
   * 0.001 otherwise, and stays 0 without an exchange suffix.
   */
  function NewSecurityInfo(symbol: string): (s: SecurityInfo)
    ensures s.symbol == symbol
    ensures Text.StartsWith(symbol, "68") ==> s.orderInitQtySize == 200 && s.lotSize == 1
    ensures !Text.StartsWith(symbol, "68") ==> s.orderInitQtySize == 100 && s.lotSize == 100
    ensures EndsWith(symbol, "SZ") && !EndsWith(symbol, "SH") ==>
              s.tickSize == (if symbol[0] in {'0', '2', '3'} then 0.01 else 0.001)
    ensures EndsWith(symbol, "SH") ==> s.tickSize == (if symbol[0] == '6' then 0.01 else 0.001)
    ensures !EndsWith(symbol, "SZ") && !EndsWith(symbol, "SH") ==> s.tickSize == 0.0
  {
    var (init, lot) := if Text.StartsWith(symbol, "68") then (200, 1) else (100, 100);
    assert |symbol| >= 1 ==> Prefix(symbol, 1) == [symbol[0]];
    var tickSz := if EndsWith(symbol, "SZ") then (if Prefix(symbol, 1) in {"0", "2", "3"} then 0.01 else 0.001) else 0.0;
    var tickSh := if EndsWith(symbol, "SH") then (if Prefix(symbol, 1) == "6" then 0.01 else 0.001) else tickSz;
    SecurityInfo(0, symbol, 0, init, lot, tickSh, 0.0, 0.0, 0.0, false, 0)
  }

  /** The minimum order size and the lot; falls back on the symbol when a stored size is not positive. */
  function MinOrderQty(s: SecurityInfo): (r: (int, int))
    ensures r.0 > 0 && r.1 > 0
    ensures s.orderInitQtySize > 0 && s.lotSize > 0 ==> r == (s.orderInitQtySize, s.lotSize)
    ensures !(s.orderInitQtySize > 0 && s.lotSize > 0) ==>
              r == (if Text.StartsWith(s.symbol, "68") && EndsWith(s.symbol, "SH") then (200, 1) else (100, 100))
  {
    if s.orderInitQtySize > 0 && s.lotSize > 0 then (s.orderInitQtySize, s.lotSize)
    else if Text.StartsWith(s.symbol, "68") && EndsWith(s.symbol, "SH") then (200, 1)
    else (100, 100)
  }

  /** After construction both sizes are positive, so the fallback is never taken. */
  lemma ConstructedSizesPositive(symbol: string)
    ensures MinOrderQty(NewSecurityInfo(symbol)) ==
            (NewSecurityInfo(symbol).orderInitQtySize, NewSecurityInfo(symbol).lotSize)
  {
  }

  /**
   * Rounds a quantity down to a tradable size: 0 below the minimum size,
   * otherwise the minimum plus a whole number of lots, not above qty.
   */
  function Floor2FitLotSize(s: SecurityInfo, qty: int): (r: int)
    ensures qty < MinOrderQty(s).0 ==> r == 0
    ensures qty >= MinOrderQty(s).0 ==>
              MinOrderQty(s).0 <= r <= qty
              && (r - MinOrderQty(s).0) % MinOrderQty(s).1 == 0
              && qty - r < MinOrderQty(s).1
  {
    var (init, lot) := MinOrderQty(s);
    if qty < init then 0
    else
      Arith.FloorMultiple(qty - init, lot);
      init + (qty - init) / lot * lot
  }

  /** A fitted quantity is a fixed point. */
  lemma Floor2FitIdempotent(s: SecurityInfo, qty: int)
    ensures Floor2FitLotSize(s, Floor2FitLotSize(s, qty)) == Floor2FitLotSize(s, qty)
  {
    var (init, lot) := MinOrderQty(s);
    var r := Floor2FitLotSize(s, qty);
    if qty >= init {
      Arith.FloorMultiple(qty - init, lot);
      assert r - init == (qty - init) / lot * lot;
      assert (r - init) / lot == (qty - init) / lot;
    }
  }

  /** Fitting is monotone in the quantity. */
  lemma Floor2FitMonotone(s: SecurityInfo, q1: int, q2: int)
    requires q1 <= q2
    ensures Floor2FitLotSize(s, q1) <= Floor2FitLotSize(s, q2)
  {
    var (init, lot) := MinOrderQty(s);
    if q1 >= init {
      Arith.DivMonotone(q1 - init, q2 - init, lot);
      Arith.MulMonotone((q2 - init) / lot, (q1 - init) / lot, lot);
    }
  }

  /** The index (or class) name of the security. */
  function IndexBelongName(s: SecurityInfo): (r: string)
    ensures s.belongIndex == 1 ==> r == "hs300"
    ensures s.belongIndex == 2 ==> r == "zz500"
    ensures s.belongIndex == 4 ==> r == "zz1000"
    ensures s.belongIndex !in {1, 2, 4} ==> r == (if s.securityType == 8 then "Cbond" else "oth")
  {
    if s.belongIndex == 1 then "hs300"
    else if s.belongIndex == 2 then "zz500"
    else if s.belongIndex == 4 then "zz1000"
    else if s.securityType == 8 then "Cbond"
    else "oth"
  }
}
