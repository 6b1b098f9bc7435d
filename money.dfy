/** Sums of money columns. Amounts are exact integer cents (`decimal(18,2)`). */
module Money {
  import opened Wrappers

  /** Sum of plain amounts. */
  function Sum(xs: seq<int>): int
  {
    if xs == [] then 0 else Sum(xs[..|xs| - 1]) + xs[|xs| - 1]
  }

  /**
   * Left-to-right accumulation of nullable prices, as the loops
   * `total += (cast)price` do: the cast of a null price throws, so the
   * total is None as soon as one price is null.
   */
  function Total(prices: seq<Option<int>>): Option<int>
  {
    if prices == [] then Some(0)
    else
      match Total(prices[..|prices| - 1])
      case None => None
      case Some(s) =>
        match prices[|prices| - 1]
        case None => None
        case Some(p) => Some(s + p)
  }

  /** True when every price is set. */
  predicate AllSet(prices: seq<Option<int>>)
  {
    forall i | 0 <= i < |prices| :: prices[i].Some?
  }

  /** The values of a sequence of set prices. */
  function Values(prices: seq<Option<int>>): (r: seq<int>)
    requires AllSet(prices)
    ensures |r| == |prices|
    ensures forall i | 0 <= i < |prices| :: prices[i] == Some(r[i])
  {
    seq(|prices|, i requires 0 <= i < |prices| => prices[i].value)
  }

  /** The accumulation throws exactly when some price is null, and otherwise is the plain sum. */
  lemma {:induction false} TotalDefinedIff(prices: seq<Option<int>>)
    ensures Total(prices).Some? <==> AllSet(prices)
    ensures AllSet(prices) ==> Total(prices) == Some(Sum(Values(prices)))
  {
    if prices != [] {
      var init := prices[..|prices| - 1];
      TotalDefinedIff(init);
      if AllSet(prices) {
        assert AllSet(init);
        assert Values(prices)[..|prices| - 1] == Values(init);
      } else if AllSet(init) {
        assert prices[|prices| - 1].None?;
      }
    }
  }
}
