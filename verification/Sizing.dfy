/** Sizing of an entry: the most whole shares that the allowed cash pays for, commission included. */
module Sizing {
  import opened Decimals

  datatype SkipReason =
    | MaxOpenPositions
    | DuplicateSymbol
    | InsufficientCash
    | MinimumCashBuffer
    | QuantityZero
    | NoEntryBar
    | InvalidPrice

  datatype Sizing = Buy(quantity: int) | Refuse(reason: SkipReason)

  /** What `quantity` shares cost, commission included. */
  function Outlay(price: real, quantity: int, commission: real): real {
    price * (quantity as real) * (1.0 + commission)
  }

  lemma OutlayMonotone(price: real, q: int, r: int, commission: real)
    requires 0.0 <= price && 0.0 <= commission && q <= r
    ensures Outlay(price, q, commission) <= Outlay(price, r, commission)
  {
    MulMonotone(q as real, r as real, price);
    MulMonotone(price * (q as real), price * (r as real), 1.0 + commission);
  }

  /** A further share costs at least its price, so outlay grows strictly. */
  lemma OutlayStep(price: real, q: int, commission: real)
    requires 0.0 < price && 0.0 <= commission
    ensures Outlay(price, q + 1, commission) == Outlay(price, q, commission) + price * (1.0 + commission)
    ensures 0.0 < price * (1.0 + commission)
  {
    assert price * ((q + 1) as real) == price * (q as real) + price;
  }

  /** The largest whole number of shares whose outlay `allowed` covers. */
  function LargestAffordable(allowed: real, price: real, commission: real): (q: int)
    requires 0.0 < price && 0.0 <= commission && 0.0 <= allowed
    ensures 0 <= q
    ensures Outlay(price, q, commission) <= allowed < Outlay(price, q + 1, commission)
  {
    var unit := price * (1.0 + commission);
    OutlayStep(price, 0, commission);
    var q := (allowed / unit).Floor;
    FloorBounds(allowed, unit);
    OutlayIsMultiple(price, q, commission);
    OutlayIsMultiple(price, q + 1, commission);
    q
  }

  lemma OutlayIsMultiple(price: real, q: int, commission: real)
    ensures Outlay(price, q, commission) == (q as real) * (price * (1.0 + commission))
  {}

  /** The sizing rule without its loop. */
  function Affordable(target: real, cash: real, buffer: real, price: real, commission: real): Sizing
    requires 0.0 <= commission
  {
    var spendable := cash - buffer;
    var allowed := Min(target, spendable);
    if price <= 0.0 then Refuse(InvalidPrice)
    else if spendable <= 0.0 then Refuse(MinimumCashBuffer)
    else if allowed < price then Refuse(QuantityZero)
    else
      var q := LargestAffordable(allowed, price, commission);
      if q == 0 then Refuse(InsufficientCash) else Buy(q)
  }

  /** The two zero-quantity reasons: less than one share, or one share but not its commission. */
  lemma AffordableReasons(target: real, cash: real, buffer: real, price: real, commission: real)
    requires 0.0 <= commission && 0.0 < price && buffer < cash
    ensures var allowed := Min(target, cash - buffer); var r := Affordable(target, cash, buffer, price, commission);
      && (r == Refuse(QuantityZero) <==> allowed < price)
      && (r == Refuse(InsufficientCash) <==> price <= allowed < Outlay(price, 1, commission))
      && (r.Buy? <==> Outlay(price, 1, commission) <= allowed)
      && (r.Buy? ==> r.quantity >= 1 && forall q: int ::
            q > 0 ==> (q <= r.quantity <==> Outlay(price, q, commission) <= allowed))
  {
    var allowed := Min(target, cash - buffer);
    OutlayStep(price, 0, commission);
    if allowed >= price {
      var q := LargestAffordable(allowed, price, commission);
      forall r: int ensures r <= q <==> Outlay(price, r, commission) <= allowed {
        if r <= q { OutlayMonotone(price, r, q, commission); } else { OutlayMonotone(price, q + 1, r, commission); }
      }
      assert 1 <= q <==> Outlay(price, 1, commission) <= allowed;
    } else {
      assert price * commission >= 0.0;
      assert Outlay(price, 1, commission) == price + price * commission;
    }
  }

  /** More cash or a larger target never buys fewer shares. */
  lemma AffordableMonotone(target: real, target': real, cash: real, cash': real, buffer: real, price: real,
                           commission: real)
    requires 0.0 <= commission && target <= target' && cash <= cash'
    requires Affordable(target, cash, buffer, price, commission).Buy?
    ensures var r := Affordable(target', cash', buffer, price, commission);
      r.Buy? && Affordable(target, cash, buffer, price, commission).quantity <= r.quantity
  {
    AffordableReasons(target, cash, buffer, price, commission);
    AffordableReasons(target', cash', buffer, price, commission);
  }

  /** A bought quantity leaves the buffer untouched. */
  lemma AffordableKeepsBuffer(target: real, cash: real, buffer: real, price: real, commission: real)
    requires 0.0 <= commission
    requires Affordable(target, cash, buffer, price, commission).Buy?
    ensures var q := Affordable(target, cash, buffer, price, commission).quantity;
      1 <= q && 0.0 < price && Outlay(price, q, commission) <= target && Outlay(price, q, commission) <= cash - buffer
  {
    AffordableReasons(target, cash, buffer, price, commission);
  }

  /** The sizing loop: start from the shares the allowed cash pays for without commission, then
      give one back until the commission fits as well. */
  method AffordableQuantity(target: real, cash: real, buffer: real, price: real, commission: real) returns (r: Sizing)
    requires 0.0 <= commission
    ensures r == Affordable(target, cash, buffer, price, commission)
  {
    if price <= 0.0 {
      return Refuse(InvalidPrice);
    }
    var spendable := cash - buffer;
    if spendable <= 0.0 {
      return Refuse(MinimumCashBuffer);
    }
    var allowed := Min(target, spendable);
    var quantity := Truncate(allowed / price);
    StartBound(allowed, price, commission);
    hide LargestAffordable;
    while quantity > 0 && Outlay(price, quantity, commission) > allowed
      invariant allowed < price ==> quantity <= 0
      invariant allowed >= price ==> LargestAffordable(allowed, price, commission) <= quantity
    {
      assert allowed >= price ==> LargestAffordable(allowed, price, commission) != quantity;
      quantity := quantity - 1;
    }
    if quantity <= 0 {
      return Refuse(if allowed < price then QuantityZero else InsufficientCash);
    }
    LargestReached(allowed, price, commission, quantity);
    return Buy(quantity);
  }

  lemma OutlayAtLeastPrice(price: real, q: int, commission: real)
    requires 0.0 <= price && 0 <= q && 0.0 <= commission
    ensures (q as real) * price <= Outlay(price, q, commission)
  {
    var x := price * (q as real);
    MulMonotone(0.0, price, q as real);
    MulMonotone(0.0, x, commission);
    assert x * (1.0 + commission) == x + x * commission;
  }

  /** Without commission the loop starts at or above the answer. */
  lemma StartBound(allowed: real, price: real, commission: real)
    requires 0.0 < price && 0.0 <= commission
    ensures allowed < price ==> Truncate(allowed / price) <= 0
    ensures allowed >= price ==> LargestAffordable(allowed, price, commission) <= Truncate(allowed / price)
  {
    hide Outlay, LargestAffordable;
    if allowed < price {
      BelowOne(allowed, price);
    } else {
      var q := LargestAffordable(allowed, price, commission);
      OutlayAtLeastPrice(price, q, commission);
      AtMostQuotient(q, allowed, price);
    }
  }

  lemma BelowOne(x: real, unit: real)
    requires 0.0 < unit && x < unit
    ensures Truncate(x / unit) <= 0
  {
    var r := x / unit;
    QuotientTimes(x, unit);
    if r >= 1.0 { MulMonotone(1.0, r, unit); }
  }

  lemma AtMostQuotient(q: int, x: real, unit: real)
    requires 0.0 < unit && 0 <= q && (q as real) * unit <= x
    ensures q <= Truncate(x / unit)
  {
    MulMonotone(0.0, q as real, unit);
    QuotientTimes(x, unit);
    DivNonNegative(x, unit);
    FactorMonotone(q as real, x / unit, unit);
  }

  /** A quantity that is paid for and not below the largest one is the largest one. */
  lemma LargestReached(allowed: real, price: real, commission: real, quantity: int)
    requires 0.0 < price && 0.0 <= commission && 0.0 <= allowed
    requires Outlay(price, quantity, commission) <= allowed && LargestAffordable(allowed, price, commission) <= quantity
    ensures quantity == LargestAffordable(allowed, price, commission)
  {
    hide Outlay, LargestAffordable;
    var q := LargestAffordable(allowed, price, commission);
    if q < quantity { OutlayMonotone(price, q + 1, quantity, commission); }
  }
}
