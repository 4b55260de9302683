/** The cart schema (models/Cart.js): one line per product reference with a
    quantity, and the checks Mongoose runs when a cart is saved. */
module CartModel {

  import opened Wrappers

  /** Object ids, abstracted to numbers. */
  type UserId = nat
  type ProductId = nat

  /** A line of `cartItemSchema`. The product reference is a field of the line, so a
      line without one cannot be built. */
  datatype CartItem = CartItem(product: ProductId, quantity: int)

  const DefaultQuantity := 1
  const MinQuantity := 1

  /** The line Mongoose builds from `{ product, quantity }`: an absent quantity
      takes the schema default. */
  function NewItem(product: ProductId, quantity: Option<int>): (item: CartItem)
    ensures item.product == product
    ensures item.quantity == quantity.GetOr(DefaultQuantity)
  {
    CartItem(product, quantity.GetOr(DefaultQuantity))
  }

  /** The paths a failed save reports: `items.<i>.quantity` for a line below the
      minimum, and `items` for the item-count validator. */
  datatype CartPath = ItemQuantity(index: nat) | Items

  /** Every line's quantity satisfies `min: 1`. */
  predicate QuantitiesValid(items: seq<CartItem>) {
    forall i :: 0 <= i < |items| ==> items[i].quantity >= MinQuantity
  }

  /** The items validator: `this.isNew ? value.length > 0 : true`. */
  predicate ItemCountValid(items: seq<CartItem>, isNew: bool) {
    if isNew then |items| > 0 else true
  }

  /** The validation errors of saving a cart with these lines (`isNew` for a cart
      not yet stored). */
  function SaveErrors(items: seq<CartItem>, isNew: bool): (r: set<CartPath>)
    ensures Items in r <==> isNew && |items| == 0
    ensures forall i :: 0 <= i < |items| ==> (ItemQuantity(i) in r <==> items[i].quantity < MinQuantity)
    ensures forall i: nat :: ItemQuantity(i) in r ==> i < |items|
  {
    (set i | 0 <= i < |items| && items[i].quantity < MinQuantity :: ItemQuantity(i))
    + (if ItemCountValid(items, isNew) then {} else {Items})
  }

  /** A save succeeds exactly when every line has quantity at least 1 and a new
      cart has at least one line. */
  lemma SaveAcceptedIff(items: seq<CartItem>, isNew: bool)
    ensures SaveErrors(items, isNew) == {} <==> QuantitiesValid(items) && (isNew ==> |items| > 0)
  {
    if !QuantitiesValid(items) {
      var i :| 0 <= i < |items| && items[i].quantity < MinQuantity;
      assert ItemQuantity(i) in SaveErrors(items, isNew);
    }
  }

  /** A line whose quantity is below 1 makes the save fail, and names that line. */
  lemma LowQuantityRejected(items: seq<CartItem>, isNew: bool, i: nat)
    requires i < |items| && items[i].quantity < MinQuantity
    ensures ItemQuantity(i) in SaveErrors(items, isNew)
  {
  }

  /** A new cart with no lines is rejected. */
  lemma NewEmptyCartRejected()
    ensures SaveErrors([], true) == {Items}
  {
  }

  /** The item-count check always passes for a stored cart: it may hold no lines. */
  lemma StoredCartMayBeEmpty(items: seq<CartItem>)
    ensures Items !in SaveErrors(items, false)
    ensures SaveErrors([], false) == {}
  {
  }
}
