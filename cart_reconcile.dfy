/** What the cart handlers do to a cart's lines (controllers/cartController.js),
    as functions on the line list, and the properties they keep. */
module CartReconcile {

  import opened Wrappers
  import opened CartModel

  /** `items.find(item => item.product.toString() === productId)`: the position of
      the first line for `product`, if there is one. */
  function LineIndex(items: seq<CartItem>, product: ProductId): (r: Option<nat>)
    ensures r.Some? ==> r.value < |items| && items[r.value].product == product
    ensures r.Some? ==> forall j :: 0 <= j < r.value ==> items[j].product != product
    ensures r.None? ==> forall j :: 0 <= j < |items| ==> items[j].product != product
  {
    if items == [] then None
    else if items[0].product == product then Some(0)
    else match LineIndex(items[1..], product)
      case None => None
      case Some(k) => Some(k + 1)
  }

  /** At most one line per product. */
  predicate UniqueProducts(items: seq<CartItem>) {
    forall i, j :: 0 <= i < j < |items| ==> items[i].product != items[j].product
  }

  /** With one line per product, the line found for a product is its only line. */
  lemma LineIndexOfMember(items: seq<CartItem>, i: nat)
    requires UniqueProducts(items) && i < |items|
    ensures LineIndex(items, items[i].product) == Some(i)
  {
  }

  /** The add step: raise the quantity of the product's line by `q`, or append a
      new line `{ product, q }` when there is none. */
  function Added(items: seq<CartItem>, product: ProductId, q: int): (r: seq<CartItem>)
    ensures |r| == if LineIndex(items, product).Some? then |items| else |items| + 1
    ensures LineIndex(r, product).Some?
    ensures forall j :: 0 <= j < |items| && items[j].product != product ==> r[j] == items[j]
  {
    match LineIndex(items, product)
    case Some(i) =>
      var r := items[i := CartItem(product, items[i].quantity + q)];
      assert r[i].product == product;
      r
    case None =>
      var r := items + [CartItem(product, q)];
      assert r[|items|].product == product;
      r
  }

  /** The lines after `addToCart`'s in-memory step, with the request's optional
      quantity: a new line takes the schema default, while raising an existing line
      by an absent quantity yields NaN, which no save accepts (`None`). */
  function AddLines(items: seq<CartItem>, product: ProductId, quantity: Option<int>): (r: Option<seq<CartItem>>)
    ensures r.None? <==> LineIndex(items, product).Some? && quantity.None?
    ensures r.Some? ==> r.value == Added(items, product, quantity.GetOr(DefaultQuantity))
  {
    if LineIndex(items, product).Some? then
      (if quantity.None? then None else Some(Added(items, product, quantity.value)))
    else
      Some(items + [NewItem(product, quantity)])
  }

  /** The update step (`item.quantity = quantity`): overwrite the quantity of the
      product's line; a cart without that line is left as it is. */
  function Updated(items: seq<CartItem>, product: ProductId, q: int): (r: seq<CartItem>)
    ensures |r| == |items|
    ensures forall j :: 0 <= j < |items| ==> r[j].product == items[j].product
    ensures LineIndex(items, product).None? ==> r == items
    ensures forall j :: 0 <= j < |items| && items[j].product != product ==> r[j] == items[j]
  {
    match LineIndex(items, product)
    case Some(i) => items[i := CartItem(product, q)]
    case None => items
  }

  /** The remove step: `items.filter(item => item.product.toString() !== productId)`. */
  function Without(items: seq<CartItem>, product: ProductId): (r: seq<CartItem>)
    ensures |r| <= |items|
    ensures forall i :: 0 <= i < |r| ==> r[i].product != product
    ensures forall line :: line in r ==> line in items
  {
    if items == [] then []
    else if items[0].product == product then Without(items[1..], product)
    else [items[0]] + Without(items[1..], product)
  }

  /** The total quantity of `product` over all lines: the cart read as a bag of products. */
  function TotalQuantity(items: seq<CartItem>, product: ProductId): int {
    if items == [] then 0
    else (if items[0].product == product then items[0].quantity else 0) + TotalQuantity(items[1..], product)
  }

  // ---- Adding ----

  /** Adding a product the cart already holds keeps the number of lines, raises that
      line's quantity by exactly `q` and leaves every other line as it was. */
  lemma AddToExistingLine(items: seq<CartItem>, product: ProductId, q: int, i: nat)
    requires UniqueProducts(items) && i < |items| && items[i].product == product
    ensures |Added(items, product, q)| == |items|
    ensures Added(items, product, q)[i] == CartItem(product, items[i].quantity + q)
    ensures forall j :: 0 <= j < |items| && j != i ==> Added(items, product, q)[j] == items[j]
  {
    LineIndexOfMember(items, i);
  }

  /** Adding a product the cart does not hold appends exactly one line at the end. */
  lemma AddNewLine(items: seq<CartItem>, product: ProductId, quantity: Option<int>)
    requires forall j :: 0 <= j < |items| ==> items[j].product != product
    ensures AddLines(items, product, quantity) == Some(items + [CartItem(product, quantity.GetOr(DefaultQuantity))])
  {
  }

  /** The first add to a missing cart gives a cart whose only line is the added item. */
  lemma FirstAddSingleLine(product: ProductId, quantity: Option<int>)
    ensures AddLines([], product, quantity) == Some([NewItem(product, quantity)])
  {
    assert [] + [NewItem(product, quantity)] == [NewItem(product, quantity)];
  }

  /** Adding keeps at most one line per product. */
  lemma AddKeepsUnique(items: seq<CartItem>, product: ProductId, quantity: Option<int>)
    requires UniqueProducts(items)
    ensures AddLines(items, product, quantity).Some? ==> UniqueProducts(AddLines(items, product, quantity).value)
  {
  }

  lemma {:induction false} TotalAppend(items: seq<CartItem>, line: CartItem, product: ProductId)
    ensures TotalQuantity(items + [line], product)
         == TotalQuantity(items, product) + (if line.product == product then line.quantity else 0)
  {
    if items != [] {
      assert (items + [line])[1..] == items[1..] + [line];
      TotalAppend(items[1..], line, product);
    }
  }

  lemma {:induction false} TotalReplace(items: seq<CartItem>, i: nat, line: CartItem, product: ProductId)
    requires i < |items|
    ensures TotalQuantity(items[i := line], product)
         == TotalQuantity(items, product)
            - (if items[i].product == product then items[i].quantity else 0)
            + (if line.product == product then line.quantity else 0)
  {
    if i > 0 {
      assert items[i := line][1..] == items[1..][i - 1 := line];
      TotalReplace(items[1..], i - 1, line, product);
    }
  }

  /** Read as a bag, adding raises the added product's total by `q` and no other. */
  lemma AddTotals(items: seq<CartItem>, product: ProductId, q: int, other: ProductId)
    ensures TotalQuantity(Added(items, product, q), other)
         == TotalQuantity(items, other) + (if other == product then q else 0)
  {
    match LineIndex(items, product)
    case Some(i) => TotalReplace(items, i, CartItem(product, items[i].quantity + q), other);
    case None => TotalAppend(items, CartItem(product, q), other);
  }

  // ---- Updating ----

  /** Updating overwrites the quantity of the product's line (it does not add to it)
      and leaves the line count and every other line as they were. */
  lemma UpdateExistingLine(items: seq<CartItem>, product: ProductId, q: int, i: nat)
    requires UniqueProducts(items) && i < |items| && items[i].product == product
    ensures |Updated(items, product, q)| == |items|
    ensures Updated(items, product, q)[i] == CartItem(product, q)
    ensures forall j :: 0 <= j < |items| && j != i ==> Updated(items, product, q)[j] == items[j]
  {
    LineIndexOfMember(items, i);
  }

  /** Updating keeps at most one line per product. */
  lemma UpdateKeepsUnique(items: seq<CartItem>, product: ProductId, q: int)
    requires UniqueProducts(items)
    ensures UniqueProducts(Updated(items, product, q))
  {
  }

  /** Read as a bag, updating sets the product's total to `q` when it had a line. */
  lemma UpdateTotals(items: seq<CartItem>, product: ProductId, q: int, other: ProductId)
    requires UniqueProducts(items) && LineIndex(items, product).Some?
    ensures TotalQuantity(Updated(items, product, q), other)
         == if other == product then q else TotalQuantity(items, other)
  {
    var i := LineIndex(items, product).value;
    TotalReplace(items, i, CartItem(product, q), other);
    if other == product {
      TotalOfUniqueLine(items, i);
    }
  }

  /** With one line per product, a product's total is the quantity on its line. */
  lemma {:induction false} TotalOfUniqueLine(items: seq<CartItem>, i: nat)
    requires UniqueProducts(items) && i < |items|
    ensures TotalQuantity(items, items[i].product) == items[i].quantity
  {
    var p := items[i].product;
    if i == 0 {
      TotalAbsent(items[1..], p);
    } else {
      TotalOfUniqueLine(items[1..], i - 1);
    }
  }

  /** A product without a line totals zero. */
  lemma {:induction false} TotalAbsent(items: seq<CartItem>, product: ProductId)
    requires forall j :: 0 <= j < |items| ==> items[j].product != product
    ensures TotalQuantity(items, product) == 0
  {
    if items != [] {
      TotalAbsent(items[1..], product);
    }
  }

  // ---- Removing ----

  /** The filter works line by line: removing from a concatenation removes from each
      part, so the kept lines stay in their order. */
  lemma {:induction false} WithoutConcat(a: seq<CartItem>, b: seq<CartItem>, product: ProductId)
    ensures Without(a + b, product) == Without(a, product) + Without(b, product)
  {
    if a == [] {
      assert a + b == b;
    } else {
      assert (a + b)[1..] == a[1..] + b;
      WithoutConcat(a[1..], b, product);
      if a[0].product != product {
        assert [a[0]] + Without(a[1..], product) + Without(b, product)
            == [a[0]] + (Without(a[1..], product) + Without(b, product));
      }
    }
  }

  /** Every line for another product survives the filter. */
  lemma {:induction false} WithoutKeepsOthers(items: seq<CartItem>, product: ProductId)
    ensures forall line :: line in items && line.product != product ==> line in Without(items, product)
  {
    if items != [] {
      WithoutKeepsOthers(items[1..], product);
    }
  }

  /** The filter shrinks the list exactly when some line holds the product. */
  lemma {:induction false} WithoutShrinksIff(items: seq<CartItem>, product: ProductId)
    ensures |Without(items, product)| < |items| <==> exists j :: 0 <= j < |items| && items[j].product == product
  {
    if items != [] {
      WithoutShrinksIff(items[1..], product);
      if items[0].product != product {
        assert forall j :: 1 <= j < |items| ==> items[j] == items[1..][j - 1];
      }
    }
  }

  /** Read as a bag, removing drops the product's total to zero and keeps the others. */
  lemma {:induction false} WithoutTotals(items: seq<CartItem>, product: ProductId, other: ProductId)
    ensures TotalQuantity(Without(items, product), other)
         == if other == product then 0 else TotalQuantity(items, other)
  {
    if items != [] {
      WithoutTotals(items[1..], product, other);
      if items[0].product != product {
        assert ([items[0]] + Without(items[1..], product))[1..] == Without(items[1..], product);
      }
    }
  }

  /** Removing keeps at most one line per product and keeps every quantity valid,
      so saving the filtered cart cannot fail, even when no line is left. */
  lemma WithoutKeepsInvariants(items: seq<CartItem>, product: ProductId)
    requires UniqueProducts(items) && QuantitiesValid(items)
    ensures UniqueProducts(Without(items, product)) && QuantitiesValid(Without(items, product))
    ensures SaveErrors(Without(items, product), false) == {}
  {
    WithoutUnique(items, product);
    SaveAcceptedIff(Without(items, product), false);
  }

  lemma {:induction false} WithoutUnique(items: seq<CartItem>, product: ProductId)
    requires UniqueProducts(items)
    ensures UniqueProducts(Without(items, product))
  {
    if items != [] {
      WithoutUnique(items[1..], product);
      if items[0].product != product {
        var r := Without(items, product);
        forall j | 1 <= j < |r|
          ensures r[j].product != items[0].product
        {
          assert r[j] in Without(items[1..], product);
          assert r[j] in items[1..];
        }
      }
    }
  }
}
