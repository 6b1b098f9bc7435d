/**
 * `CheckoutController` (Controllers/CheckoutController.cs): the amount to
 * charge for the menu items the client posts, handed to the payment
 * provider. Prices are in cents, so the controller's `* 100` from dollars
 * to cents is the identity here.
 */
module Checkout {
  import opened Wrappers
  import opened Money

  /** The fields of `MenuItemDto` the checkout reads. */
  datatype MenuItemDto = MenuItemDto(id: Option<int>, name: Option<string>, price: Option<int>, categoryId: Option<int>)

  const MinLong: int := -0x8000_0000_0000_0000
  const MaxLong: int := 0x7FFF_FFFF_FFFF_FFFF

  function ProductPrices(products: seq<MenuItemDto>): (r: seq<Option<int>>)
    ensures |r| == |products|
  {
    seq(|products|, i requires 0 <= i < |products| => products[i].price)
  }

  /**
   * `CalculateOrderAmount`: add the prices one by one; adding a null price
   * gives null, and casting that null back to decimal throws.
   */
  method CalculateOrderAmount(products: seq<MenuItemDto>) returns (r: Result<int>)
    ensures r.Err? <==> !AllSet(ProductPrices(products))
    ensures r.Err? ==> r.error == InvalidOperation
    ensures r.Ok? ==> r.value == Sum(Values(ProductPrices(products)))
  {
    TotalDefinedIff(ProductPrices(products));
    var total := 0;
    for i := 0 to |products|
      invariant Total(ProductPrices(products)[..i]) == Some(total)
    {
      assert ProductPrices(products)[..i + 1][..i] == ProductPrices(products)[..i];
      if products[i].price.None? {
        assert ProductPrices(products)[i].None?;
        return Err(InvalidOperation);
      }
      total := total + products[i].price.value;
    }
    assert ProductPrices(products)[..|products|] == ProductPrices(products);
    return Ok(total);
  }

  /** The answer of `CheckoutOrder`: the payment intent's client secret, or a bad request carrying the exception. */
  datatype Response = ClientSecret(secret: string) | BadRequest(error: Exception)

  /**
   * `CheckoutOrder`. `createIntent` stands for the payment provider's
   * `PaymentIntentService.Create`, called with the amount in cents; tax and
   * shipping are set to 0 and never added. Converting an amount outside the
   * 64-bit range to `long` throws.
   */
  method CheckoutOrder(products: seq<MenuItemDto>, createIntent: int -> Result<string>) returns (r: Response)
    ensures r.ClientSecret? <==>
      && AllSet(ProductPrices(products))
      && MinLong <= Sum(Values(ProductPrices(products))) <= MaxLong
      && createIntent(Sum(Values(ProductPrices(products)))).Ok?
    ensures r.ClientSecret? ==> r.secret == createIntent(Sum(Values(ProductPrices(products)))).value
    ensures !AllSet(ProductPrices(products)) ==> r == BadRequest(InvalidOperation)
    ensures AllSet(ProductPrices(products)) && !(MinLong <= Sum(Values(ProductPrices(products))) <= MaxLong) ==>
      r == BadRequest(Overflow)
  {
    var total := CalculateOrderAmount(products);
    if total.Err? {
      return BadRequest(total.error);
    }
    if !(MinLong <= total.value <= MaxLong) {
      return BadRequest(Overflow);
    }
    var intent := createIntent(total.value);
    if intent.Err? {
      return BadRequest(intent.error);
    }
    return ClientSecret(intent.value);
  }
}
