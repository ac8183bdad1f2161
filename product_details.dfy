/**
 * The order-line state of the product detail screen: the chosen variation
 * label, the price and variation id resolved from it, the quantity stepper,
 * the add-to-cart gate and the request handed to the cart.
 */
module ProductDetails {
  import opened Wrappers
  import HtmlText

  /** The label the variation picker starts on, meaning "nothing chosen yet". */
  const UNSELECTED: string := "Selecteaza"

  /** One purchasable variation of a product. */
  datatype Variation = Variation(id: int, option: string, price: int)

  /** The product shown on the screen, as far as this screen uses it. */
  datatype Product = Product(id: string, name: string, description: string)

  /** The arguments passed to the cart's add action, in their order. */
  datatype CartLine = CartLine(
    product: Product,
    price: Option<int>,
    quantity: int,
    variationOption: string,
    productId: string,
    variationId: Option<int>)

  /** The index of the last variation whose label is `option`, if there is one. */
  function LastMatch(variations: seq<Variation>, option: string): (r: Option<nat>)
    ensures r.Some? ==>
      && r.value < |variations|
      && variations[r.value].option == option
      && forall j :: r.value < j < |variations| ==> variations[j].option != option
    ensures r.None? <==> forall j :: 0 <= j < |variations| ==> variations[j].option != option
    decreases |variations|
  {
    if |variations| == 0 then None
    else if variations[|variations| - 1].option == option then Some(|variations| - 1)
    else LastMatch(variations[..|variations| - 1], option)
  }

  /** No two variations share a label. */
  predicate UniqueOptions(variations: seq<Variation>) {
    forall i, j :: 0 <= i < j < |variations| ==> variations[i].option != variations[j].option
  }

  /** With unique labels, the label picks out its one entry. */
  lemma UniqueOptionsResolve(variations: seq<Variation>, k: nat)
    requires UniqueOptions(variations)
    requires k < |variations|
    ensures LastMatch(variations, variations[k].option) == Some(k)
  {
  }

  /** With a repeated label the later entry wins. */
  lemma DuplicateOptionLastWins()
    ensures LastMatch([Variation(1, "M", 10), Variation(2, "M", 12)], "M") == Some(1)
  {
  }

  class ProductDetailScreen {
    const productId: string
    const selectedProduct: Product
    const variations: seq<Variation>
    var quantity: int
    var variationOption: string
    var variationId: Option<int>
    var price: Option<int>

    /** The price and the id both come from the last entry labelled `variationOption`. */
    ghost predicate Resolved()
      reads this
    {
      match LastMatch(variations, variationOption)
      case Some(i) => price == Some(variations[i].price) && variationId == Some(variations[i].id)
      case None => false
    }

    /**
     * The quantity never drops below one, and once a label other than the
     * placeholder is chosen, the price and the id agree with its entry.
     */
    ghost predicate Valid()
      reads this
    {
      && quantity >= 1
      && (variationOption != UNSELECTED ==> Resolved())
    }

    /** The screen's initial state: quantity one, the placeholder label, no price and no id. */
    constructor (productId: string, selectedProduct: Product, variations: seq<Variation>)
      ensures Valid()
      ensures this.productId == productId && this.selectedProduct == selectedProduct
      ensures this.variations == variations
      ensures quantity == 1 && variationOption == UNSELECTED
      ensures price == None && variationId == None
    {
      this.productId := productId;
      this.selectedProduct := selectedProduct;
      this.variations := variations;
      quantity := 1;
      variationOption := UNSELECTED;
      variationId := None;
      price := None;
    }

    /**
     * Scans the variations in index order and, for each one labelled
     * `option`, sets the price and the id from it, so the last such entry
     * wins; with no such entry both are left as they were. Used by the
     * picker's handler; re-resolving the current label keeps the screen valid.
     */
    method UpdatePrice(option: string)
      modifies this`price, this`variationId
      ensures old(Valid()) && option == variationOption ==> Valid()
      ensures match LastMatch(variations, option)
        case Some(i) => price == Some(variations[i].price) && variationId == Some(variations[i].id)
        case None => price == old(price) && variationId == old(variationId)
    {
      for i := 0 to |variations|
        invariant match LastMatch(variations[..i], option)
          case Some(k) => price == Some(variations[k].price) && variationId == Some(variations[k].id)
          case None => price == old(price) && variationId == old(variationId)
      {
        assert variations[..i + 1][..i] == variations[..i];
        if variations[i].option == option {
          price := Some(variations[i].price);
          variationId := Some(variations[i].id);
        }
      }
      assert variations[..|variations|] == variations;
    }

    /**
     * The picker's change handler: records the chosen label and resolves its
     * price and id. The picker offers exactly the labels of the variations.
     */
    method SelectOption(option: string)
      requires Valid()
      requires exists i :: 0 <= i < |variations| && variations[i].option == option
      modifies this`variationOption, this`price, this`variationId
      ensures Valid() && Resolved()
      ensures variationOption == option && quantity == old(quantity)
    {
      variationOption := option;
      UpdatePrice(option);
    }

    /** The minus button: one less, but never below one. */
    method Decrement()
      requires Valid()
      modifies this`quantity
      ensures Valid()
      ensures quantity == if old(quantity) > 1 then old(quantity) - 1 else old(quantity)
    {
      if quantity > 1 {
        quantity := quantity - 1;
      }
    }

    /** The plus button: one more, without an upper bound. */
    method Increment()
      requires Valid()
      modifies this`quantity
      ensures Valid()
      ensures quantity == old(quantity) + 1
    {
      quantity := quantity + 1;
    }

    /**
     * Whether the add-to-cart button is disabled: it is while the placeholder
     * label is shown. When it is enabled, a price and an id are resolved.
     */
    predicate AddToCartDisabled()
      reads this
      ensures Valid() && !AddToCartDisabled() ==> price.Some? && variationId.Some?
    {
      variationOption == UNSELECTED
    }

    /**
     * The add-to-cart handler: the request built from the current state.
     * When the button is enabled, the request carries the price and the id of
     * the one entry the chosen label resolves to, and a positive quantity.
     */
    method AddToCartHandler() returns (line: CartLine)
      ensures line == CartLine(selectedProduct, price, quantity, variationOption, productId, variationId)
      ensures Valid() && !AddToCartDisabled() ==>
        && line.quantity >= 1
        && exists i :: 0 <= i < |variations| && variations[i].option == line.variationOption
                        && line.price == Some(variations[i].price)
                        && line.variationId == Some(variations[i].id)
    {
      line := CartLine(selectedProduct, price, quantity, variationOption, productId, variationId);
      if Valid() && !AddToCartDisabled() {
        var i := LastMatch(variations, variationOption).value;
        assert variations[i].option == line.variationOption;
      }
    }

    /** The description text as shown: every tag removed. */
    function DescriptionText(): (text: string)
      reads this
      ensures text == HtmlText.RemoveTags(selectedProduct.description)
      ensures HtmlText.TagFree(text) && |text| <= |selectedProduct.description|
      ensures '<' !in selectedProduct.description ==> text == selectedProduct.description
    {
      HtmlText.NoOpenUnchanged(selectedProduct.description);
      HtmlText.RemoveTags(selectedProduct.description)
    }
  }

  /**
   * One size "L" at 20 with id 7: choose it, tap plus twice, add to cart.
   * The request carries price 20, quantity 3, label "L" and id 7.
   */
  method LargeSizeScenario(product: Product, productId: string) returns (line: CartLine)
    ensures line == CartLine(product, Some(20), 3, "L", productId, Some(7))
  {
    var screen := new ProductDetailScreen(productId, product, [Variation(7, "L", 20)]);
    assert screen.variations[0].option == "L";
    screen.SelectOption("L");
    screen.Increment();
    screen.Increment();
    line := screen.AddToCartHandler();
  }

  /**
   * When the fetched list itself holds an entry labelled with the placeholder,
   * choosing it resolves a price and an id, yet the button stays disabled.
   */
  method PlaceholderEntryScenario(product: Product, productId: string) returns (disabled: bool, resolved: bool)
    ensures disabled && resolved
  {
    var screen := new ProductDetailScreen(productId, product, [Variation(3, UNSELECTED, 0), Variation(4, "M", 12)]);
    assert screen.variations[0].option == UNSELECTED;
    screen.SelectOption(UNSELECTED);
    disabled := screen.AddToCartDisabled();
    resolved := screen.variationId.Some? && screen.price.Some?;
  }
}
