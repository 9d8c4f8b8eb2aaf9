/** Typed prices and the CHECK constraint that ties a price to its type. */
module Pricing {
  import opened Support

  datatype PriceType = FIXED | FREE | VARIABLE

  /** What `chk_hybrid_pricing_logic` is for: VARIABLE has no price, FREE costs 0, FIXED is priced. */
  predicate CheckHolds(priceType: PriceType, price: Option<real>) {
    || (priceType == FREE && price == Some(0.0))
    || (priceType == FIXED && price.Some? && price.value >= 0.0)
    || (priceType == VARIABLE && price == None)
  }

  /** The truth values of SQL. */
  datatype Truth = Yes | No | Unknown {
    function And(other: Truth): Truth {
      if No in {this, other} then No else if Unknown in {this, other} then Unknown else Yes
    }

    function Or(other: Truth): Truth {
      if Yes in {this, other} then Yes else if Unknown in {this, other} then Unknown else No
    }
  }

  function TruthOf(b: bool): Truth {
    if b then Yes else No
  }

  /** The constraint as SQL evaluates it: comparing NULL with a number is unknown. */
  function Constraint(priceType: PriceType, price: Option<real>): Truth {
    var isZero := if price.None? then Unknown else TruthOf(price.value == 0.0);
    var isAmount := if price.None? then Unknown else TruthOf(price.value >= 0.0);
    TruthOf(priceType == FREE).And(isZero)
    .Or(TruthOf(priceType == FIXED).And(TruthOf(price.Some?)).And(isAmount))
    .Or(TruthOf(priceType == VARIABLE).And(TruthOf(price.None?)))
  }

  /** A CHECK refuses only what is false: besides the intended pairs it lets FREE without a price pass. */
  function Admitted(priceType: PriceType, price: Option<real>): (admitted: bool)
    ensures admitted <==> CheckHolds(priceType, price) || (priceType == FREE && price.None?)
  {
    Constraint(priceType, price) != No
  }
}
