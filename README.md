# ShopyGlobe backend core, in Dafny

This project models the request-handling core of the ShopyGlobe e-commerce backend
(an Express and Mongoose server) and proves properties of the model:

- **Cart reconciliation** (`controllers/cartController.js`, `models/Cart.js`). The
  store holds one cart per user. Adding a product raises the quantity of its line or
  appends a new line, and the cart is created on first use. Updating overwrites a
  line's quantity. Removing filters the product's lines out. Every cart is validated
  when it is saved. `CartReconcile` states what each handler does to the line list as
  functions. `CartController.CartStore` is the stateful store, with the handlers as
  methods over a `map` from user to lines, and the searches and the filter as loops.
- **Credentials** (`controllers/authController.js`, `models/User.js`). Registration
  refuses a taken address, stores the bcrypt hash and issues a 15-minute JWT. Login
  compares the password with the stored hash. The user schema's setters (`trim`,
  `lowercase`) and validators are modelled, including the e-mail regular expression.
  That expression is given once as a grammar and once as a character check, and the
  two are proved equal.
- **The auth gate** (`middleware/authMiddleware.js`). It reads `Authorization`,
  extracts the bearer token, verifies it and binds `req.user`.
- **The product schema** (`models/Product.js`). It covers defaults, the trim setters
  and the validators.
- **The error pipeline** (`middleware/notFound.js`, `middleware/errorHandler.js`).
  Both act on a shared `Response` object.

The modules and their files:

| file | module |
|---|---|
| wrappers.dfy | `Option` and `Result` |
| text.dfy | JavaScript `trim`, ASCII `toLowerCase`, `startsWith`, `split(" ")` |
| http.dfy | Express's `res` as a class |
| cart_model.dfy | the cart schema and its save-time checks |
| cart_reconcile.dfy | what each cart handler does to the lines |
| cart_controller.dfy | the cart store and the four handlers |
| product_model.dfy | the product schema |
| email_pattern.dfy | the e-mail expression |
| user_model.dfy | the user schema, lookups by address and id |
| crypto.dfy | bcrypt and jsonwebtoken as configuration values |
| auth_controller.dfy | token issue, registration and login |
| auth_gate.dfy | `protect` |
| error_handler.dfy, not_found.dfy | the error middleware |

**Modelling choices:**
- Environment and library values are parameters:
  - `JWT_SECRET` and `NODE_ENV`.
  - The clock (`now`, in seconds).
  - The bcrypt salt.
  - An error's stack trace.
- bcrypt and jsonwebtoken are values of a configuration datatype whose fields are
  functions. What the code relies on about them is written as the predicates
  `Crypto.HasherSound`, `Crypto.SignerSound` and `Crypto.BcryptShaped`. Lemmas take
  these predicates as hypotheses.
- Database reads and writes happen on in-memory state: the `carts` map, and the
  `users` sequence with their ids. The product lookup `Product.findById` is membership
  in a `catalogue` set.
- A Mongoose or library exception is a reply that forwards a message to `next`,
  together with the status the response holds at that moment. The error middleware
  answers with that status, or with 500 when it is still 200. A cart reply's
  forward carries only the message, because every forward from the cart handlers
  happens at 200. An auth reply's forward carries the status as well, since
  registration forwards at 201.

**Where the code does not do what its comments say, the model follows the code:**
- `models/Cart.js:48-54` says that validation is skipped on updates, but only the
  item-count validator is skipped. The `min: 1` check on each line still runs when
  the cart is saved. So `updateCartItem` with a quantity below 1, or an add that
  leaves a line below 1, fails at `save()` and is forwarded (500). This is
  `CartController.CartStore.UpdateCartItem`.
- `protect` documents a 401 for a missing or invalid token and says nothing about a
  valid token whose user no longer exists. The code lets that request through:
  `req.user` becomes `null` and `next()` is called. This is
  `AuthGate.DeletedUserAdmittedAsNull`.
- The password `minlength: 6` is checked against the bcrypt hash and not the
  plaintext, so it never rejects anything. This is
  `AuthController.PasswordLengthCheckSeesHash`.
- `registerUser` creates the user before it signs the token, and it calls
  `res.status(201)` before the body holding the token is built. With `JWT_SECRET`
  unset or empty, the user stays stored, signing throws with 201 already set, and the
  error middleware keeps that status. The client gets 201 with an error body. This is
  `AuthController.UserStore.Register` with `AuthController.UnsignedReplyStatus`.

## Model

| member | source | states |
|---|---|---|
| CartReconcile.LineIndex | controllers/cartController.js:53-55 | `find` returns the position of the first line whose product matches. When there is none, no line matches. |
| CartReconcile.LineIndexOfMember | controllers/cartController.js:90-92 | When each product has at most one line, the line `find` returns for a product is that product's only line. |
| CartReconcile.Added | controllers/cartController.js:53-61 | After an add, the cart has a line for the product. It has one more line exactly when the product had none before, and every line of another product is unchanged. |
| CartReconcile.AddLines | controllers/cartController.js:53-61 | The in-memory step of `addToCart` fails (NaN) exactly when the product already has a line and no quantity is given. Otherwise it is the add with the given quantity, or with the default 1. |
| CartReconcile.Updated | controllers/cartController.js:90-96 | Updating keeps the number of lines and every line's product, and leaves lines of other products unchanged. A cart without the product is left as it is. |
| CartReconcile.Without | controllers/cartController.js:125-127 | The filtered list is no longer than the input. It holds no line of the removed product, and every line it keeps came from the input. |
| CartReconcile.AddToExistingLine | controllers/cartController.js:57-58 | Adding a product that is already in the cart keeps the number of lines. That line's quantity rises by exactly the added amount, and every other line is unchanged. |
| CartReconcile.AddNewLine | controllers/cartController.js:59-61 | Adding a product that is not in the cart appends one line at the end. Its quantity is the given one, or the schema default 1 when none is given. |
| CartReconcile.FirstAddSingleLine | controllers/cartController.js:48-51 | The first add to a cart that does not exist yet gives a cart whose only line is the added item. |
| CartReconcile.AddKeepsUnique | controllers/cartController.js:53-61 | Adding never creates a second line for a product. |
| CartReconcile.AddTotals | controllers/cartController.js:53-61 | Read as a bag of products, adding raises the added product's total by the added quantity and leaves every other product's total unchanged. |
| CartReconcile.TotalAppend | controllers/cartController.js:60 | Appending a line adds its quantity to its product's total. |
| CartReconcile.TotalReplace | controllers/cartController.js:58 | Replacing a line swaps that line's contribution to the totals for the new line's. |
| CartReconcile.UpdateExistingLine | controllers/cartController.js:96 | Updating sets the line's quantity to the given value and does not add to it. The number of lines and every other line are unchanged. |
| CartReconcile.UpdateKeepsUnique | controllers/cartController.js:90-96 | Updating never creates a second line for a product. |
| CartReconcile.UpdateTotals | controllers/cartController.js:96 | Read as a bag, updating sets the product's total to the new quantity and leaves the other products' totals unchanged. |
| CartReconcile.TotalOfUniqueLine | controllers/cartController.js:96 | When each product has at most one line, a product's total is the quantity on its line. |
| CartReconcile.TotalAbsent | controllers/cartController.js:125-127 | A product with no line totals zero. |
| CartReconcile.WithoutConcat | controllers/cartController.js:125-127 | The filter works line by line, so the kept lines stay in their original order. |
| CartReconcile.WithoutKeepsOthers | controllers/cartController.js:125-127 | Every line of another product survives the filter. |
| CartReconcile.WithoutShrinksIff | controllers/cartController.js:123-131 | The filtered list is shorter than the original exactly when some line held the product, so the length comparison detects a missing item. |
| CartReconcile.WithoutTotals | controllers/cartController.js:125-127 | Read as a bag, removing drops the product's total to zero and keeps every other total. |
| CartReconcile.WithoutUnique | controllers/cartController.js:125-127 | Filtering keeps at most one line per product. |
| CartReconcile.WithoutKeepsInvariants | controllers/cartController.js:125-133 | Filtering a valid cart gives a valid cart, so the save after a removal cannot fail, even when no line is left. |
| CartModel.NewItem | models/Cart.js:19-22 | A new line keeps its product. Its quantity defaults to 1 when none is given. |
| CartModel.SaveErrors | models/Cart.js:19-58 | The save reports a line's quantity path exactly when that line is below 1, and reports `items` exactly when a new cart has no lines. It reports no path for a line that does not exist. |
| CartModel.SaveAcceptedIff | models/Cart.js:19-58 | A save succeeds exactly when every line's quantity is at least 1 and, for a new cart, there is at least one line. |
| CartModel.LowQuantityRejected | models/Cart.js:22 | A line with a quantity below 1 makes the save fail, and the error names that line. |
| CartModel.NewEmptyCartRejected | models/Cart.js:54 | Saving a new cart with no lines fails, with exactly the `items` error. |
| CartModel.StoredCartMayBeEmpty | models/Cart.js:54 | The item-count check never fails for a cart that is already stored, so a stored cart may hold no lines. |
| CartController.FindLine | controllers/cartController.js:53-55 | The loop finds the same line as the `find` specification `LineIndex`. |
| CartController.FilterOut | controllers/cartController.js:125-127 | The loop keeps exactly the lines the `filter` specification `Without` keeps, in order. |
| CartController.CartStore.constructor | models/Cart.js:37-63 | The store starts with no carts and satisfies its invariant. |
| CartController.CartStore.GetCart | controllers/cartController.js:15-24 | Returns 200 with the user's stored cart, or `{ items: [] }` when the user has none. The store is only read. |
| CartController.CartStore.AddToCart | controllers/cartController.js:39-68 | A missing product id gives 400 and an unknown product gives 404, and in both cases the store is unchanged. Otherwise the merged lines `AddLines` (the cart is created lazily) are stored and returned with 200 if they pass the save checks. If they do not, nothing is stored and the error is forwarded. The invariant (one line per product, every quantity at least 1) is kept. |
| CartController.CartStore.UpdateCartItem | controllers/cartController.js:82-102 | No cart gives 404 "Cart not found" and no line gives 404 "Item not found in cart", with the store unchanged. Otherwise the overwritten lines are stored and returned with 200 when the quantity is at least 1. A lower quantity fails the save and is forwarded, with nothing stored. The invariant is kept. |
| CartController.CartStore.RemoveCartItem | controllers/cartController.js:116-142 | No cart gives 404 "Cart not found". A cart without the product gives 404 "Item not found in cart" and is unchanged. Otherwise the filtered lines are stored and returned with 200 and the success message. The invariant is kept. |
| ProductModel.AllImageUrls | models/Product.js:42-44 | `every` holds exactly when each image is a URL. An empty list passes. |
| ProductModel.ImageUrlExamples | models/Product.js:43 | `https://x` and `http://a` are accepted. A bare scheme, an `ftp` URL, an upper-case scheme and a line terminator after the scheme are all rejected. |
| ProductModel.CreateProduct | models/Product.js:15-52 | A product is accepted exactly when its trimmed name is non-empty, a price is given and is not negative, the stock (default 0) is not negative, and every image is a URL. The stored fields are trimmed or defaulted, and a rejection reports at least one path. |
| ProductModel.DefaultsApply | models/Product.js:27-41 | A product given only a name and a price gets description "", stock 0 and no images. |
| ProductModel.BlankNameRejected | models/Product.js:17-21 | A name made only of blanks is rejected, because it is trimmed before `required` is checked. |
| Text.Trim | models/User.js:18 | The result is no longer than the input, has no whitespace or line terminator at either end, and uses only characters of the input. It is empty only when the input is entirely blank. |
| Text.TrimCutsEnds | models/User.js:18 | The trimmed string is the slice of the input that starts after its leading blanks and is followed only by blanks. With the clauses of `Trim`, this fixes the result. |
| Text.TrimIdempotent | models/Product.js:20 | Trimming twice is the same as trimming once. |
| Text.TrimBlank | models/Product.js:19-20 | A string of whitespace only trims to the empty string. |
| Text.ToLower | models/User.js:25 | Lower-casing keeps the length and maps each character through the ASCII case mapping. |
| Text.IndexOf | middleware/authMiddleware.js:27 | Returns the first position holding the character, or the length when the character does not occur. |
| Text.Split | middleware/authMiddleware.js:27 | `split(" ")` gives at least one field, and no field contains a space. |
| Text.JoinSplit | middleware/authMiddleware.js:27 | Joining the fields of `split(" ")` with spaces gives back the header. |
| Text.SplitJoin | middleware/authMiddleware.js:27 | Splitting space-free fields joined by spaces gives back those fields. |
| EmailPattern.PiecesIff | models/User.js:28 | `([\.-]?\w+)*` matches exactly the well-joined strings: word characters and single separators, with no two separators side by side and a word character last. |
| EmailPattern.NamePartIff | models/User.js:28 | `\w+([\.-]?\w+)*` matches exactly the names: they start with a word character and are well joined. |
| EmailPattern.DomainPartIff | models/User.js:28 | The part after `@` matches exactly when it is a name, a dot, and a last label of two or three word characters. |
| EmailPattern.EmailCheckMatchesRegex | models/User.js:27-29 | The character check accepts exactly the strings that the anchored regular expression matches. |
| EmailPattern.ValidEmailShape | models/User.js:27-29 | A valid address has exactly one `@` and at least six characters, and it ends in a dot followed by two or three characters. |
| UserModel.NormalizeEmail | models/User.js:21-26 | The stored or queried address is no longer than the input, has no blank at either end, and has no upper-case ASCII letter. |
| UserModel.NormalizeEmailCutsEnds | models/User.js:25-26 | The normalised address is the lower-cased address cut at its first and last non-blank characters. |
| UserModel.NormalizeEmailIdempotent | models/User.js:25-26 | Normalising an address that is already normalised changes nothing. |
| UserModel.NewUserIsNormal | models/User.js:15-38 | The document `User.create` builds keeps the id and the password as given. Its name and address are already in normal form, so the setters would not change them. |
| UserModel.NewUserValidIff | models/User.js:13-43 | A new user document is valid exactly when its trimmed name is non-empty, its normalised address matches the e-mail expression, and its stored password has at least 6 characters. |
| UserModel.FindByEmail | controllers/authController.js:37 | `findOne({ email })` returns a stored user with that address, or none when no stored user has it. |
| UserModel.FindById | middleware/authMiddleware.js:29 | `findById` returns a stored user with that id, or none when no stored user has it. |
| UserModel.FindByEmailFindsMember | models/User.js:24 | Because addresses are unique, looking up a stored user's address finds that user. |
| UserModel.FindByIdFindsMember | middleware/authMiddleware.js:29 | Because ids are unique, looking up a stored user's id finds that user. |
| UserModel.AppendKeepsEmailsUnique | models/User.js:24 | Storing a user whose address is not taken keeps the addresses unique. |
| UserModel.FindByEmailAppend | controllers/authController.js:44-48 | After a user is stored under a new address, looking up that address finds the new user. |
| UserModel.FindByEmailAppendOther | controllers/authController.js:44-48 | Storing a user leaves the lookup of every other address unchanged. |
| Crypto.Verify | middleware/authMiddleware.js:28 | Verification succeeds exactly when a non-empty token is given, the secret is set and not empty, the signature decodes under the secret, and the clock is before the expiry. It then yields the decoded claims. |
| AuthController.GenerateToken | controllers/authController.js:15-19 | A token is signed exactly when the secret is set and not empty. Otherwise signing fails with jsonwebtoken's message. |
| AuthController.IdentityReply | controllers/authController.js:50-55 | The reply keeps the status set before the body. It is sent exactly when a token can be signed, and its body is then the user's id, name, address and token. Otherwise the signing error is forwarded with that status. |
| AuthController.UnsignedReplyStatus | controllers/authController.js:50-55 | Without a usable secret, registration forwards the signing error with 201 set, and the error middleware keeps 201. Login forwards it at 200, which becomes 500. |
| AuthController.LoginResult | controllers/authController.js:71-91 | Login sends either "Invalid credentials" or 200 with an identity whose address is the normalised one. Its only forward is the signing error, at status 200. |
| AuthController.IssuedTokenVerifies | controllers/authController.js:15-19 | A token issued at time t verifies to `{ id }` with expiry t+900 before t+900, and is rejected as expired from t+900 on. |
| AuthController.LoginSucceedsIff | controllers/authController.js:71-91 | Login answers 200 exactly when a stored user has the normalised address, the password matches that user's hash, and the secret is set. The body is then that user's id, name, address and a fresh token. An unknown address and a wrong password give the same 400 "Invalid credentials". |
| AuthController.RegisterThenLogin | controllers/authController.js:33-91 | After a user registers, logging in with the same address and password returns 200 with that user and a fresh token. |
| AuthController.PasswordLengthCheckSeesHash | models/User.js:36 | The `minlength` check on the password never fails for a registered user, because it sees the 60-character hash. |
| AuthController.UserStore.constructor | models/User.js:13-43 | The user table starts empty, with unique addresses and ids. |
| AuthController.AppendKeepsIdsUnique | controllers/authController.js:44-48 | Creating a user under a fresh id keeps the ids unique. |
| AuthController.UserStore.Register | controllers/authController.js:33-59 | A taken (normalised) address gives 400 "User already exists" and changes nothing. A document that fails validation is forwarded at 200 and changes nothing. Otherwise the user with the hashed password is appended under a fresh id, and the reply carries 201. It is either the user with a token or, when no secret is usable, the forwarded signing error. Addresses and ids stay unique. |
| AuthController.UserStore.Login | controllers/authController.js:71-91 | The reply is the login specification `LoginResult`, and the table is only read. |
| AuthGate.ReadAuthorization | middleware/authMiddleware.js:25-27 | The header is refused exactly when it is missing or does not start with `Bearer` (case-sensitive, no space needed). Otherwise the token is the second space-separated field, if there is one. |
| AuthGate.Gate | middleware/authMiddleware.js:25-36 | The gate rejects with "no token" exactly when the header has no `Bearer` prefix, and with "token failed" exactly when the token does not verify; there is no other rejection. An admitted request always has `req.user` assigned. It is `null` exactly when no stored user has the id the token decodes to, and otherwise it is the stored user with that id, without the password. |
| AuthGate.Request.constructor | middleware/authMiddleware.js:22 | A request starts with `req.user` unset. |
| AuthGate.Protect | middleware/authMiddleware.js:22-37 | When the gate admits the request, `next` is called, `req.user` is set and the response is untouched. When it rejects, `next` is not called, `req.user` is unchanged, and the response is 401 with the reason ("no token" or "token failed"). |
| AuthGate.NoBearerRejected | middleware/authMiddleware.js:34-35 | A missing header, or one without the `Bearer` prefix, is rejected as "no token". |
| AuthGate.BearerWithoutSpaceFails | middleware/authMiddleware.js:25-32 | `Bearer` followed directly by text without spaces passes the prefix check but has no token, so it is rejected as "token failed". |
| AuthGate.IssuedTokenAdmits | middleware/authMiddleware.js:25-30 | A token issued for a stored user and sent as `Bearer <token>` before it expires admits the request, with that user bound without the password. |
| AuthGate.ExpiredTokenFails | middleware/authMiddleware.js:28-32 | The same token is rejected as "token failed" once fifteen minutes have passed. |
| AuthGate.DeletedUserAdmittedAsNull | middleware/authMiddleware.js:29-30 | A valid token whose user no longer exists is admitted with `req.user` set to null, not rejected. |
| Http.Response.constructor | middleware/errorHandler.js:24 | A response starts at status 200 with nothing sent. |
| Http.Response.Status | middleware/notFound.js:22 | Sets the status and nothing else. |
| Http.Response.Json | middleware/errorHandler.js:26-29 | Sets the body and keeps the status. |
| ErrorHandler.ResponseStatus | middleware/errorHandler.js:24 | A status still at 200 becomes 500, and any other status is kept, so the handler never answers 200. |
| ErrorHandler.StackShown | middleware/errorHandler.js:28 | The stack is hidden exactly in production, and otherwise it is the error's stack. |
| ErrorHandler.HandleError | middleware/errorHandler.js:23-30 | The new status is `ResponseStatus` of the old one, and the body is the error's message with the stack as `StackShown` gives it. |
| NotFound.RouteMessage | middleware/notFound.js:21 | The message names the requested URL. |
| NotFound.Handle | middleware/notFound.js:20-24 | Sets 404, sends nothing, and forwards an error carrying the route message. |
| NotFound.UnmatchedRoute | middleware/notFound.js:20-24 | An unmatched request ends with status 404 (never 500), a message naming the URL, and the stack as the error handler shows it. |

## Left out

- AuthController.UserStore.Register: `name`, `email` and `password` are strings. A missing request field is not modelled. Without a password, `bcrypt.hash` rejects and the request ends in a 500, but the model has no absent password.
- AuthController.UserStore.Login: `email` and `password` are strings. A missing field is not modelled. Without a password, `bcrypt.compare` rejects a non-string and the request ends in a 500 rather than "Invalid credentials".
- bcrypt and jsonwebtoken internals (hashing, signatures, base64url, the `iat` claim's rounding) are not modelled. Only the properties the code relies on are stated, as hypotheses.
- Database I/O, `async`/`await` and concurrency are not modelled. Two requests on the same cart do not interleave here, and the last-write-wins behaviour of concurrent saves is not captured.
- `populate("items.product")` in `getCart` is not modelled. The reply carries product ids, not product documents.
- `timestamps: true` is not modelled: there is no clock in the stored records.
- ObjectIds are natural numbers. A malformed id string gives a cast error, and the model does not include that error. The comparison `item.product.toString() === productId` is modelled as equality of ids, so a productId written in a different hex case, which fails the string comparison, is not captured.
- JavaScript type coercion is not modelled. Quantities are integers or absent, so a string quantity (`"2"`, which makes `+=` concatenate) is outside the model. An absent quantity on an existing line (`+= undefined`, giving NaN) is modelled as a failed save.
- CartController.CartStore.UpdateCartItem: the request's quantity is an integer. An absent quantity, which Mongoose would store as `undefined` and then drop, is not modelled.
- The cart handlers on a request admitted with a `null` user (see `AuthGate.DeletedUserAdmittedAsNull`) throw on `req.user._id`, and the model does not include this. The handlers take the user id as a parameter.
- Prices are integers. The schema's `Number` is a floating-point value, which is not modelled.
- `toLowerCase` is modelled for ASCII letters only. Unicode case mapping is not modelled.
- The exact text of Mongoose validation errors (`"Cart validation failed: ..."`) is abbreviated to a fixed message per schema. No reply carries the failing paths: they are computed by `CartModel.SaveErrors`, `ProductModel.Violations` and `UserModel.Violations`, and the replies only record that the save failed.
- The uniqueness of `email` (a database index) and of the cart's `user` are invariants of the in-memory stores. A duplicate-key error from a race is not modelled.
- `productController.js`, the routes, `server.js`, the database connection and the seed scripts are not part of this model.
