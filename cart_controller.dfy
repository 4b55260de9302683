/** The cart handlers (controllers/cartController.js) over a store holding each
    user's cart, keyed by the user's id. `req.user._id` becomes the `user`
    parameter and the product lookup becomes membership in `catalogue`. */
module CartController {

  import opened Wrappers
  import opened CartModel
  import opened CartReconcile
  import opened Http

  /** The JSON bodies the handlers send. */
  datatype CartBody =
    | StoredCart(owner: UserId, items: seq<CartItem>)
    | EmptyItems
    | Message(text: string)
    | Removed(message: string, owner: UserId, items: seq<CartItem>)

  /** What a handler does: answer with a status and body, or pass an error to `next`. */
  datatype CartReply = Sent(status: int, body: CartBody) | Forwarded(message: string)

  const NoProductIdMessage := "ProductId not provided"
  const ProductNotFoundMessage := "Product not found"
  const CartNotFoundMessage := "Cart not found"
  const ItemNotFoundMessage := "Item not found in cart"
  const RemovedMessage := "Item removed from cart successfully"
  const CartValidationFailed := "Cart validation failed"

  /** `cart.items.find(...)`, as a scan for the first line of `product`. */
  method FindLine(items: seq<CartItem>, product: ProductId) returns (index: Option<nat>)
    ensures index == LineIndex(items, product)
  {
    var i := 0;
    while i < |items|
      invariant 0 <= i <= |items|
      invariant forall j :: 0 <= j < i ==> items[j].product != product
    {
      if items[i].product == product {
        return Some(i);
      }
      i := i + 1;
    }
    return None;
  }

  /** `cart.items.filter(...)`, as a loop that keeps every line of another product. */
  method FilterOut(items: seq<CartItem>, product: ProductId) returns (kept: seq<CartItem>)
    ensures kept == Without(items, product)
  {
    kept := [];
    var i := 0;
    while i < |items|
      invariant 0 <= i <= |items|
      invariant kept == Without(items[..i], product)
    {
      assert items[..i + 1] == items[..i] + [items[i]];
      WithoutConcat(items[..i], [items[i]], product);
      if items[i].product != product {
        kept := kept + [items[i]];
      }
      i := i + 1;
    }
    assert items[..i] == items;
  }

  class CartStore {

    /** The stored carts (the `carts` collection, one per user). */
    var carts: map<UserId, seq<CartItem>>

    /** Every stored cart passed validation and holds at most one line per
        product: the handlers merge an add for a product already in the cart. */
    ghost predicate Valid()
      reads this
    {
      forall u :: u in carts ==> UniqueProducts(carts[u]) && QuantitiesValid(carts[u])
    }

    constructor ()
      ensures carts == map[] && Valid()
    {
      carts := map[];
    }

    /** `getCart`: the user's cart, or `{ items: [] }` when there is none. */
    method GetCart(user: UserId) returns (reply: CartReply)
      ensures user in carts ==> reply == Sent(Ok, StoredCart(user, carts[user]))
      ensures user !in carts ==> reply == Sent(Ok, EmptyItems)
    {
      if user in carts {
        reply := Sent(Ok, StoredCart(user, carts[user]));
      } else {
        reply := Sent(Ok, EmptyItems);
      }
    }

    /** `addToCart`: merge the product into the user's cart, creating the cart on
        first use, and save it. */
    method AddToCart(user: UserId, productId: Option<ProductId>, quantity: Option<int>, catalogue: set<ProductId>)
      returns (reply: CartReply)
      requires Valid()
      modifies this
      ensures Valid()
      ensures productId.None? ==> carts == old(carts) && reply == Sent(BadRequest, Message(NoProductIdMessage))
      ensures productId.Some? && productId.value !in catalogue ==>
                carts == old(carts) && reply == Sent(NotFoundStatus, Message(ProductNotFoundMessage))
      ensures productId.Some? && productId.value in catalogue ==>
                var before := if user in old(carts) then old(carts)[user] else [];
                var after := AddLines(before, productId.value, quantity);
                if after.Some? && SaveErrors(after.value, user !in old(carts)) == {} then
                  carts == old(carts)[user := after.value] && reply == Sent(Ok, StoredCart(user, after.value))
                else
                  carts == old(carts) && reply == Forwarded(CartValidationFailed)
    {
      if productId.None? {
        return Sent(BadRequest, Message(NoProductIdMessage));
      }
      var product := productId.value;
      if product !in catalogue {
        return Sent(NotFoundStatus, Message(ProductNotFoundMessage));
      }
      var isNew := user !in carts;
      var items := if isNew then [] else carts[user];
      ghost var before := items;
      var existing := FindLine(items, product);
      if existing.Some? {
        if quantity.None? {
          // `quantity += undefined` stores NaN, which the number cast refuses.
          return Forwarded(CartValidationFailed);
        }
        var i := existing.value;
        items := items[i := CartItem(product, items[i].quantity + quantity.value)];
      } else {
        items := items + [NewItem(product, quantity)];
      }
      assert AddLines(before, product, quantity) == Some(items);
      if SaveErrors(items, isNew) != {} {
        return Forwarded(CartValidationFailed);
      }
      AddKeepsUnique(before, product, quantity);
      SaveAcceptedIff(items, isNew);
      carts := carts[user := items];
      reply := Sent(Ok, StoredCart(user, items));
    }

    /** `updateCartItem`: overwrite the quantity of the product's line and save. */
    method UpdateCartItem(user: UserId, product: ProductId, quantity: int) returns (reply: CartReply)
      requires Valid()
      modifies this
      ensures Valid()
      ensures user !in old(carts) ==> carts == old(carts) && reply == Sent(NotFoundStatus, Message(CartNotFoundMessage))
      ensures user in old(carts) && LineIndex(old(carts)[user], product).None? ==>
                carts == old(carts) && reply == Sent(NotFoundStatus, Message(ItemNotFoundMessage))
      ensures user in old(carts) && LineIndex(old(carts)[user], product).Some? ==>
                var after := Updated(old(carts)[user], product, quantity);
                if quantity >= MinQuantity then
                  carts == old(carts)[user := after] && reply == Sent(Ok, StoredCart(user, after))
                else
                  carts == old(carts) && reply == Forwarded(CartValidationFailed)
    {
      if user !in carts {
        return Sent(NotFoundStatus, Message(CartNotFoundMessage));
      }
      var items := carts[user];
      var found := FindLine(items, product);
      if found.None? {
        return Sent(NotFoundStatus, Message(ItemNotFoundMessage));
      }
      var i := found.value;
      items := items[i := CartItem(items[i].product, quantity)];
      SaveAcceptedIff(items, false);
      if SaveErrors(items, false) != {} {
        assert items[i].quantity < MinQuantity;
        return Forwarded(CartValidationFailed);
      }
      UpdateKeepsUnique(carts[user], product, quantity);
      carts := carts[user := items];
      reply := Sent(Ok, StoredCart(user, items));
    }

    /** `removeCartItem`: drop every line of the product and save; a cart without
        such a line answers 404. */
    method RemoveCartItem(user: UserId, product: ProductId) returns (reply: CartReply)
      requires Valid()
      modifies this
      ensures Valid()
      ensures user !in old(carts) ==> carts == old(carts) && reply == Sent(NotFoundStatus, Message(CartNotFoundMessage))
      ensures user in old(carts) && LineIndex(old(carts)[user], product).None? ==>
                carts == old(carts) && reply == Sent(NotFoundStatus, Message(ItemNotFoundMessage))
      ensures user in old(carts) && LineIndex(old(carts)[user], product).Some? ==>
                var after := Without(old(carts)[user], product);
                carts == old(carts)[user := after] && reply == Sent(Ok, Removed(RemovedMessage, user, after))
    {
      if user !in carts {
        return Sent(NotFoundStatus, Message(CartNotFoundMessage));
      }
      var items := carts[user];
      var initialLength := |items|;
      var kept := FilterOut(items, product);
      WithoutShrinksIff(items, product);
      if |kept| == initialLength {
        return Sent(NotFoundStatus, Message(ItemNotFoundMessage));
      }
      // The filtered cart always passes validation, so this save cannot fail.
      WithoutKeepsInvariants(items, product);
      carts := carts[user := kept];
      reply := Sent(Ok, Removed(RemovedMessage, user, kept));
    }
  }
}
