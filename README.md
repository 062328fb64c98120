# Storefront cart and shop filters, modelled in Dafny

This project models the logic core of a small Flask storefront (`app.py`). The
rest of the application is HTTP, template and file glue. The model covers:

- **The session cart.** This is a dict from product-id string to integer
  quantity, kept in the session. `Carts.Cart` keeps the dict's iteration order
  (`order`) beside its quantities (`qty`).
- **The cart changes.** Add increments an entry or inserts it (`int(data.get("qty") or 1)`).
  Remove pops the key. Clear resets the dict. These are pure transformers in
  `Carts`. The class `CartApi.Session` applies them in place to its fields,
  the way the endpoints mutate `session["cart"]`.
- **`cart_state`.** It builds the catalog index `{str(p["id"]): p}`, joins the
  cart against it and skips stale ids. Then it emits line items in cart order
  and sums the count and the total. `CartApi.Session.CartState` is the loop,
  proved against the specification `CartView.View`. The lemmas in `CartView`
  say how each cart change moves the items, the count and the total.
- **The filter pipeline of `shop`.** The fuzzy stage runs only for a non-empty
  query. A category match beats a branch match, and substring search on the
  title or description is the fallback. Then come the exact `cat` and `sub`
  filters. The result is characterised exactly: it is the subsequence of the
  catalog holding every product that passes each active stage, and nothing else.
- **`product_page`.** It finds the first product with the requested id, or
  answers 404.

Conventions of the model:

- Prices and totals are integer cents.
- Python's `str(int)` is written out as a decimal numeral (`Catalog.IdKey`),
  and it is proved injective.
- `difflib.get_close_matches(..., n=1, cutoff=0.7)` is a function parameter
  `close: (string, seq<string>) -> Option<string>`. The Unicode decomposition
  inside `normalize_text` is a function parameter `fold`. Two properties of the
  matcher are used as lemma hypotheses:
  - `FromCandidates`: it answers with one of its candidates.
  - `ExactFirst`: a word shorter than 200 characters that is itself a candidate is its own answer.

Three behaviours of the code are worth stating plainly:

- **Add then remove.** Removing an id right after adding it restores the
  prior aggregate only when the id was not in the cart before, or when the
  catalog lacks the id (`CartView.AddThenRemoveView`). At the cart level it
  restores the cart only when the id was absent (`Carts.AddThenRemove`); an
  id already in the cart loses its whole entry.
- **Negative quantities.** An add takes any non-zero integer quantity as it
  is, negative ones included, so quantities can become negative.
  `Carts.NonNegativeKept` states exactly when an add keeps the cart
  non-negative.
- **Exact category query.** A query that normalises to some product's
  category, in fewer than 200 characters, lists exactly the products of that
  category, provided the matcher answers a word of that length that is one of
  its candidates with that word (`ExactFirst`, `Shop.ExactCategoryQuery`).
  Without that property of the matcher the code promises nothing more than
  `Shop.FuzzyCriterion` states.

## Model

| member | source | states |
|---|---|---|
| `Text.Strip` | app.py:78-80 | `str.strip()`: the result is a slice of the input with only whitespace (Python's `isspace` set) cut at both ends, it has no whitespace at either end, and it is empty exactly when the input is all whitespace |
| `Text.Lower` | app.py:74 | `str.lower` on ASCII: same length, each character lower-cased, no capital 'A'..'Z' left |
| `Text.Normalize` | app.py:69-74 | `normalize_text`: a missing or empty text gives ""; any other text gives `Strip(Lower(fold(text)))`, so the result has no ASCII capital and no whitespace at either end |
| `Text.EmptyContained` | app.py:104-107 | the substring test of an empty normalised query succeeds on every text |
| `Text.Contains` | app.py:106 | Python's `needle in hay`: some position of `hay` starts an occurrence of `needle` (a definition; `EmptyContained` is its property used by the shop) |
| `Catalog.IdKeyShape` | app.py:29 | `str(id)` is a non-empty run of digits, led by '-' exactly for negative ids |
| `Catalog.IdKey` | app.py:29 | `str(int)`: the decimal numeral, with '-' before a negative number (a definition; its shape and injectivity are the next rows) |
| `Catalog.IdKeyInjective` | app.py:29 | distinct ids give distinct keys, so filing products by `str(id)` loses nothing |
| `Catalog.Index` | app.py:29 | the dict comprehension `{str(p["id"]): p for p in products}`, each product filed under its key in list order so a later one overwrites an earlier one (a definition; `IndexKeys` and `IndexLastWins` state what it holds) |
| `Catalog.IndexKeys` | app.py:29 | a key is in the index exactly when some product of the catalog has it |
| `Catalog.IndexLastWins` | app.py:29 | when several products share an id, the one listed last is the one filed |
| `Catalog.IndexKeysMatchIds` | app.py:29-31 | every indexed product is in the catalog, under the key of its own id |
| `Catalog.IndexHasEveryProduct` | app.py:29 | the key of every listed product is in the index |
| `Catalog.FindProduct` | app.py:129 | the answer is None exactly when no product has the id; otherwise it is a product with that id, and no earlier product has it |
| `Catalog.ShowProduct` | app.py:125-135 | status 404 with the fixed fragment exactly when no product has the id; otherwise the page shows the first product of the catalog with that id |
| `Carts.Empty` | app.py:186 | the cleared cart is valid and holds no entry |
| `Carts.Quantity` | app.py:168 | `cart.get(pid, 0)`: the stored quantity, or 0 for a key not in the cart (a definition used by `Add`) |
| `Carts.Add` | app.py:167-168 | the entry for `pid` becomes the old quantity (0 if absent) plus `n`; every other key keeps its presence and quantity; an existing key keeps its place and a new key goes last; the dict stays well formed |
| `Carts.Without` | app.py:179 | the key list loses exactly `pid`, keeps the others in order and stays duplicate-free |
| `Carts.Remove` | app.py:177-179 | `pid` is absent afterwards; a cart without it is unchanged; every other entry keeps its quantity, and the key order is a subsequence of the old one |
| `Carts.RequestedQty` | app.py:166 | a missing, null or zero qty means 1; any other integer, negative ones included, is used as given; the amount is never 0 |
| `Carts.MissingIdMatchesNoProduct` | app.py:165 | a body without `id` files under "None", which is never the key of a product |
| `Carts.AddThenRemove` | app.py:162-182 | removing right after adding gives back the cart exactly when `pid` was not in it |
| `Carts.AddTwice` | app.py:168 | two adds of one key equal one add of the sum |
| `Carts.RemoveTwice` | app.py:177-179 | removing is idempotent |
| `Carts.KeyOf` | app.py:165 | `str(data.get("id"))`: an integer id gives its decimal key, a string id itself, a boolean "True" or "False", a missing or null id "None" (a definition; `MissingIdMatchesNoProduct` states its use) |
| `Carts.NonNegativeKept` | app.py:166-168 | starting from non-negative quantities, an add keeps them non-negative exactly when the new entry is not negative; remove and clear always keep them |
| `CartView.Kept` | app.py:30-33 | the cart keys the catalog has, in cart order: exactly those keys, as a subsequence of the cart's order |
| `CartView.MakeItem` | app.py:34-40 | the line item of a product at a quantity: its id, title, price and image ("" when absent) with that quantity (a definition) |
| `CartView.Items` | app.py:30-40 | the loop over the cart in iteration order, skipping keys the index lacks (a definition; `ItemsFollowCart` and `ItemsFromCatalog` state what it yields) |
| `CartView.Total` | app.py:41 | the sum of price times quantity over the items (a definition) |
| `CartView.Count` | app.py:42 | the sum of the quantities over the items (a definition) |
| `CartView.SumsAppend` | app.py:41-42 | the count and the total of a concatenation are the sums of those of its parts |
| `CartView.View` | app.py:26-43 | the aggregate `{items, total, count}` of a cart against the index of a catalog (a definition; `CartApi.Session.CartState` is proved to compute it) |
| `CartView.ItemsFollowCart` | app.py:30-40 | the j-th line item is built from the j-th cart key the catalog has, with that key's quantity |
| `CartView.ItemsFromCatalog` | app.py:29-40 | every line item is a catalog product at the quantity its `str(id)` key has in the cart, and every cart key the catalog has yields its item |
| `CartView.StaleCartIsEmpty` | app.py:30-33 | a cart none of whose keys the catalog has yields no items |
| `CartView.ClearedView` | app.py:41-43 | a cart with no key the catalog has, the empty one among them, shows no items, total 0 and count 0 |
| `CartView.AppendKey` | app.py:168 | a newly inserted key adds its item (if the catalog has it) after all the others |
| `CartView.UpdateKey` | app.py:168 | changing a listed key's quantity changes only its own item: that item takes the new quantity in its old position, every other item is unchanged, and count and total move by that item's difference |
| `CartView.DropUnknownKey` | app.py:179 | dropping a key the catalog lacks leaves the items unchanged |
| `CartView.KeptWithout` | app.py:178-179 | popping a key from the cart removes it from the known keys and keeps the others in order |
| `CartView.DropKnownKey` | app.py:179 | dropping a listed key the catalog has deletes exactly its item, at its position among the known keys; the other items stay as they were, and the count and the total lose its quantity and price times quantity |
| `CartView.ViewAfterUnknownAdd` | app.py:162-171 | an add of an id the catalog lacks leaves the aggregate unchanged |
| `CartView.ViewAfterAdd` | app.py:162-171 | an add of an id the catalog has grows the count by `n` and the total by price × `n`; a line appears exactly when the key is new |
| `CartView.ViewAfterRemove` | app.py:173-182 | a remove changes the aggregate only when the id was in the cart and in the catalog; then exactly its line is deleted, the other lines stay in order, and count and total lose its quantity and its share |
| `CartView.AddThenRemoveView` | app.py:162-182 | add then remove restores the aggregate exactly when the id was not in the cart or the catalog lacks it |
| `CartView.SumsNonNegative` | app.py:41-42 | with non-negative quantities the count is non-negative, and with non-negative prices as well the total is too |
| `CartView.CountNonNegative` | app.py:41-43 | a cart without negative quantities shows a non-negative count, and a non-negative total when no price is negative |
| `Shop.Select` | app.py:99-115 | a list comprehension over the products: the result is a subsequence holding every occurrence of each product that passes the test and nothing else |
| `Shop.Keeps` | app.py:97-115 | the test of each list comprehension of `shop`: normalised category (branch) equal to the match, the normalised query in the normalised title or description, raw category (branch) equal to `cat` (`sub`) (a definition) |
| `Shop.Categories` | app.py:91 | the normalised category of every product, in catalog order (a definition) |
| `Shop.Branches` | app.py:92 | the normalised branch of every product, in catalog order (a definition) |
| `Shop.FuzzyCriterion` | app.py:91-107 | the category filter uses the matcher's answer on the categories whenever it has one; the branch filter uses its answer on the branches only when no category matched; the substring test only when neither matched; with a sound matcher the match is a value some product has |
| `Shop.ParseArgs` | app.py:78-80 | `q` is the lower-cased, stripped argument and `cat`, `sub` the stripped ones; each is empty exactly when its raw argument is all whitespace |
| `Shop.Stage` | app.py:88-115 | an `if x: products = [...]` step keeps a subsequence with exactly the products that pass, or everything when switched off |
| `Shop.Wanted` | app.py:88-115 | a product passes every stage that is switched on: the fuzzy stage when `q` is set, the `cat` filter when `cat` is set, the `sub` filter when `sub` is set (a definition; `ShopFilter` is characterised by it) |
| `Shop.ShopFilter` | app.py:88-115 | the listing is the subsequence of the catalog holding every product that passes each active stage and nothing else; with empty `q`, `cat` and `sub` it is the catalog itself |
| `Shop.ExactFiltersPin` | app.py:109-115 | with a non-empty `cat` (`sub`) every listed product's category (branch) equals it exactly |
| `Shop.ExactCategoryQuery` | app.py:94-99 | a query that normalises, in fewer than 200 characters, to some product's category lists exactly the products whose normalised category equals it, given a matcher that answers such a word with itself when it is a candidate |
| `Shop.CategoryMatchNonEmpty` | app.py:94-99 | with a matcher that answers from its candidates and no `cat` or `sub` filter set, a category match never yields an empty listing |
| `CartApi.Session.constructor` | app.py:27 | a session with no cart reads as the empty cart |
| `CartApi.Session.CartState` | app.py:26-43 | the loop computes exactly the aggregate `View` of the session's cart |
| `CartApi.Session.AddItem` | app.py:162-171 | the session's cart becomes `Add` of the old cart with key `str(id)` and the requested amount; the answer is the aggregate of the new cart |
| `CartApi.Session.RemoveItem` | app.py:173-182 | the session's cart becomes `Remove` of the old cart with key `str(id)`; the answer is the aggregate of the new cart |
| `CartApi.Session.ClearCart` | app.py:184-188 | the session's cart becomes empty and the answer is items [], total 0, count 0 |

## Left out

- Flask routing, `render_template`, `redirect`, `jsonify` and the `print` calls of `shop`: presentation and I/O. `shop` is modelled up to the filtered list it renders.
- `load_products`, `load_categories` and the navigation context processor: file reads and JSON parsing. The catalog is a parameter (`seq<Product>`).
- `login` and `logout`: a fixed credential check that toggles a session flag.
- Session signing and persistence: the session is an object in memory. Flask's JSON session serializer writes keys sorted, so across requests the cart's iteration order may become key order. The model keeps insertion order throughout.
- `difflib.get_close_matches`: a library similarity ratio with a float cutoff. It is a function parameter. `ExactFirst` is stated only for query words shorter than 200 characters: difflib applies its automatic junk heuristic to the word itself (its second sequence) from 200 characters on, and then even an exact candidate can fall below the cutoff.
- Text.Normalize: the NFKD decomposition and combining-mark removal are an abstract function parameter; `str.lower` is modelled on ASCII letters only, not on the rest of Unicode.
- Float prices and `round(total, 2)`: prices are integer cents, so the total is exact and the rounding is the identity.
- Malformed request bodies: a body that is not JSON, or not an object, raises in the source; the model takes `id` and `qty` as already parsed.
- Carts.RequestedQty: a `qty` that is a string, float or boolean (converted by `int(...)` or rejected) is not modelled; only integers, null and absence are.
- Carts.KeyOf: `str()` of a float id is not modelled; integer, string, boolean and null ids are.
- CartView.MakeItem: an `image` set to an explicit JSON null is not told apart from a missing one (both give "").
- Catalog.FindProduct: product ids are integers, so the `int(p["id"])` conversion is the identity.
- The `home`, `cart`, `checkout`, `about`, `contact` and `become-seller` pages: static template renders.
