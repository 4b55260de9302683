/** The product schema (models/Product.js): field defaults, setters and validators. */
module ProductModel {

  import opened Wrappers
  import opened Text

  /** The fields of a product as given to `new Product(...)`; `None` is an absent
      field. Prices are whole numbers in this model. */
  datatype ProductInput = ProductInput(
    name: Option<string>,
    price: Option<int>,
    description: Option<string>,
    stock: Option<int>,
    images: Option<seq<string>>)

  /** A product as stored. */
  datatype Product = Product(name: string, price: int, description: string, stock: int, images: seq<string>)

  /** The paths a failed validation reports. */
  datatype ProductPath = NamePath | PricePath | StockPath | ImagesPath

  const DefaultDescription := ""
  const DefaultStock := 0

  /** `/^https?:\/\/.+/.test(url)`: `http://` or `https://`, then at least one
      character that `.` matches, that is, one that is not a line terminator. */
  predicate IsImageUrl(url: string) {
    || (StartsWith(url, "http://") && |url| > 7 && !IsLineTerminator(url[7]))
    || (StartsWith(url, "https://") && |url| > 8 && !IsLineTerminator(url[8]))
  }

  /** `arr.every(url => ...)`, walking the list as `every` does: it holds exactly
      when each entry is an image URL, so the empty list passes. */
  function AllImageUrls(images: seq<string>): (b: bool)
    ensures b <==> forall i :: 0 <= i < |images| ==> IsImageUrl(images[i])
  {
    if images == [] then true
    else
      assert forall i :: 1 <= i < |images| ==> images[i] == images[1..][i - 1];
      IsImageUrl(images[0]) && AllImageUrls(images[1..])
  }

  /** Some URLs the validator accepts and rejects: the scheme is matched
      case-sensitively and a bare scheme is not enough. */
  lemma ImageUrlExamples()
    ensures IsImageUrl("https://x") && IsImageUrl("http://a")
    ensures !IsImageUrl("https://") && !IsImageUrl("http://") && !IsImageUrl("ftp://x")
    ensures !IsImageUrl("HTTP://x") && !IsImageUrl("http://\n")
  {
    assert "https://x"[..8] == "https://";
    assert "http://a"[..7] == "http://";
    assert "https://"[..7][4] == 's';
    assert "HTTP://x"[..7][0] == 'H' && "HTTP://x"[..8][0] == 'H';
    assert "ftp://x"[..7][0] == 'f';
  }

  /** The validation errors of a product after defaults and setters are applied. */
  function Violations(input: ProductInput): set<ProductPath> {
    (if input.name.None? || Trim(input.name.value) == [] then {NamePath} else {})
    + (if input.price.None? || input.price.value < 0 then {PricePath} else {})
    + (if input.stock.GetOr(DefaultStock) < 0 then {StockPath} else {})
    + (if AllImageUrls(input.images.GetOr([])) then {} else {ImagesPath})
  }

  /** Building and validating a product: accepted exactly when the trimmed name is
      not empty, a price is given and is not negative, the stock (0 when absent) is
      not negative and every image is a URL; the stored fields are trimmed and
      absent ones take their defaults. */
  function CreateProduct(input: ProductInput): (r: Result<Product, set<ProductPath>>)
    ensures r.Success? <==>
      && input.name.Some? && Trim(input.name.value) != []
      && input.price.Some? && input.price.value >= 0
      && input.stock.GetOr(DefaultStock) >= 0
      && forall i :: 0 <= i < |input.images.GetOr([])| ==> IsImageUrl(input.images.GetOr([])[i])
    ensures r.Success? ==>
      && r.value.name == Trim(input.name.value)
      && r.value.price == input.price.value
      && r.value.description == Trim(input.description.GetOr(DefaultDescription))
      && r.value.stock == input.stock.GetOr(DefaultStock)
      && r.value.images == input.images.GetOr([])
    ensures r.Failure? ==> r.error != {}
  {
    var errors := Violations(input);
    if errors == {} then
      Success(Product(
        Trim(input.name.value),
        input.price.value,
        Trim(input.description.GetOr(DefaultDescription)),
        input.stock.GetOr(DefaultStock),
        input.images.GetOr([])))
    else
      Failure(errors)
  }

  /** A product given only a name and a price gets the empty description, stock 0
      and no images, and is accepted when the name is not blank and the price is not negative. */
  lemma DefaultsApply(name: string, price: int)
    requires Trim(name) != [] && price >= 0
    ensures CreateProduct(ProductInput(Some(name), Some(price), None, None, None))
         == Success(Product(Trim(name), price, "", 0, []))
  {
    assert Trim("") == "";
  }

  /** A name of blanks only is rejected, because it is trimmed before `required` is checked. */
  lemma BlankNameRejected(input: ProductInput)
    requires input.name.Some?
    requires forall i :: 0 <= i < |input.name.value| ==> IsTrimmable(input.name.value[i])
    ensures CreateProduct(input).Failure? && NamePath in CreateProduct(input).error
  {
    TrimBlank(input.name.value);
  }
}
