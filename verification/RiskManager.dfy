/** Pre-trade risk checks (src/trading/strategy/risk_manager.h). */
module RiskManager {
  import opened Common
  import opened PositionKeeper

  datatype RiskCheckResult =
    INVALID_REQUEST | ORDER_TOO_LARGE | POSITION_TOO_LARGE | CLOSE_QUANTITY_TOO_LARGE | LOSS_TOO_LARGE | ALLOWED

  /** `QTY_INVALID` means no limit; a loss limit of zero or less means none. */
  datatype RiskLimits = RiskLimits(maxOrderSize: Qty, maxPosition: Qty, maxLoss: real)

  /** The position the check believes an open would lead to: the quantity is converted to a signed integer. */
  function NextPosition(p: Position, side: Side, qty: Qty): int {
    p.position + SideToValue(side) * Int32(qty)
  }

  /** `checkPreTradeRisk`. */
  function CheckPreTradeRisk(p: Position, limits: RiskLimits, side: Side, offset: Offset, qty: Qty): RiskCheckResult {
    if qty == 0 || qty == QTY_INVALID then INVALID_REQUEST
    else if limits.maxOrderSize != QTY_INVALID && qty > limits.maxOrderSize then ORDER_TOO_LARGE
    else if offset == OPEN && limits.maxPosition != QTY_INVALID
        && Abs(NextPosition(p, side, qty)) > Int32(limits.maxPosition) then
      POSITION_TOO_LARGE
    else if offset != OPEN && qty > CloseableQty(p, offset) then CLOSE_QUANTITY_TOO_LARGE
    else if limits.maxLoss > 0.0 && p.total < -limits.maxLoss then LOSS_TOO_LARGE
    else ALLOWED
  }

  /** A position limit that 32-bit positions can meet. */
  predicate Limited(limits: RiskLimits) { limits.maxPosition <= INT32_MAX }

  /** An allowed open, filled completely, stays within the limit. */
  predicate OpenBoundHolds(p: Position, limits: RiskLimits, side: Side, qty: Qty) {
    CheckPreTradeRisk(p, limits, side, OPEN, qty) == ALLOWED ==>
      Abs(p.position + SideToValue(side) * qty) <= limits.maxPosition
  }

  /** Quantities whose open bound can be trusted: positive as an int32, refused for their size, or so far from
      2^32 that the wrapped quantity cannot bring a position back within the limit. */
  predicate Trustworthy(limits: RiskLimits, qty: Qty) {
    || qty <= INT32_MAX
    || (limits.maxOrderSize != QTY_INVALID && qty > limits.maxOrderSize)
    || U32_RANGE - qty > 2 * limits.maxPosition
  }

  lemma TrustworthyBound(p: Position, limits: RiskLimits, side: Side, qty: Qty)
    requires Limited(limits) && Trustworthy(limits, qty) && Abs(p.position) <= limits.maxPosition
    ensures OpenBoundHolds(p, limits, side, qty)
  {
  }

  /** A position within the limit, with the lots it should have. */
  predicate Within(p: Position, limits: RiskLimits) { LotsMatch(p) && Abs(p.position) <= limits.maxPosition }

  /** The signed conversion makes the position limit unsound for quantities near 2^32: it is sound from every
      position within the limit exactly for the trustworthy quantities. */
  lemma OpenBoundExact(limits: RiskLimits, qty: Qty)
    requires Limited(limits) && 0 < qty < QTY_INVALID
    ensures (forall p: Position, side :: Within(p, limits) ==> OpenBoundHolds(p, limits, side, qty))
            <==> Trustworthy(limits, qty)
  {
    if Trustworthy(limits, qty) {
      forall p: Position, side | Within(p, limits) ensures OpenBoundHolds(p, limits, side, qty) {
        TrustworthyBound(p, limits, side, qty);
      }
    } else {
      var position := U32_RANGE - qty - limits.maxPosition;
      var start := FLAT.(position := position, today := Lot(Abs(position), 0.0));
      assert Within(start, limits);
      assert NextPosition(start, BUY, qty) + limits.maxPosition == 0;
      assert CheckPreTradeRisk(start, limits, BUY, OPEN, qty) == ALLOWED;
      assert !OpenBoundHolds(start, limits, BUY, qty);
    }
  }

  /** A close is within what the lots hold whenever it is allowed: exactly the lot for a dated close, and the
      32-bit sum, which never exceeds both lots, for a plain one. */
  lemma AllowedCloseIsCovered(p: Position, limits: RiskLimits, side: Side, offset: Offset, qty: Qty)
    requires offset != OPEN && CheckPreTradeRisk(p, limits, side, offset, qty) == ALLOWED
    ensures offset != INVALID && 0 < qty <= Available(p, offset)
  {
  }

  /** The offset chosen for a close names a lot that holds something, yesterday's first; it is INVALID exactly
      when nothing is asked or nothing is held. */
  lemma ResolvedOffset(p: Position, requested: Qty)
    ensures var offset := CloseOffsetFor(p, requested);
      && (offset == INVALID <==> requested == 0 || Empty(p))
      && (offset != INVALID ==> offset == CLOSE_YESTERDAY || offset == CLOSE_TODAY)
      && (offset != INVALID ==> 0 < CloseableQty(p, offset) == Available(p, offset))
      && (offset == CLOSE_TODAY ==> p.yesterday.qty == 0)
  {
  }

  /** No lot holds anything. */
  predicate Empty(p: Position) { p.today.qty == 0 && p.yesterday.qty == 0 }
}
