# Storefront order, cart and account logic in Dafny

This project models the request handlers of a small Flask shop (`app.py`). The shop has four JSON collections: products, categories, users and purchases. It also keeps a per-visitor session holding the cart of product ids and the `logged_in` and `username` keys.

Each route is a pure function from the current `State` (the four collections as sequences, plus the `Session`) and its inputs to a `Response`. A `Response` holds the next state and an `Outcome`. The outcome replaces the HTML page or redirect with a tag and the data the template would show: `Redirect`, `NotFound`, `Rejected(reason)`, `InvalidCredentials`, `Confirmed(items, total)`, and so on. `App.Step` sends each request to its handler, and `App.Run` applies a sequence of requests.

Modules, leaves first:

- `Types`: the records, the session, the state, the outcomes, the delivery fee (50) and the administrator pair (`admin` / `admin123`).
- `Seqs`: an order-preserving filter (the list comprehension), subsequences and duplicate freedom.
- `Text`: ASCII models of `str.lower()`, `str.strip()` and substring `in`.
- `Store`: whole-file load and save. A missing or unparseable file reads as empty, except for products.
- `Catalog`: home-page search, lookup by id, the product and category forms.
- `Cart`: add-if-absent and resolution of cart ids against the catalog.
- `Orders`: pricing, the three ways of writing a purchase, cancellation by position.
- `Auth`: login, logout and registration.
- `App`: the request dispatcher, the invariant every reachable state keeps, and which route may write what.

Behaviour of the code that the model follows:

- `add_to_cart` does not check the id against the catalog. The cart can hold ids that name no product. Resolution drops them later (`Cart.ResolveIgnoresStale`).
- The cart resolves in catalog order, not in cart order (the catalog is scanned and each product whose id is in the cart is kept).
- `load_products` does not catch a JSON decode error, unlike the other three loaders. A malformed product file fails the request instead of reading as empty (`Store.LoadStrict`).
- `place_order` and `checkout` test only that the cart id list is non-empty. A cart whose ids all went stale still writes a purchase with no items and a total of 50, and still empties the cart.
- A registered user called `admin` can log in with their own password. The administrator pair is checked first, but a failed match falls through to the user file.

## Model

| member | source | states |
|---|---|---|
| Store.LoadStrict | app.py:17-57 | the product loader fails exactly on a malformed file, and otherwise reads what the tolerant loader of categories, purchases and users reads: nothing for a missing file, the records for a parsed one |
| Store.SaveLoadRoundTrip | app.py:45-47 | a whole-file overwrite reads back as the same collection, for both loaders |
| Store.CreateIfMissing | app.py:232-234 | writing `[]` into a missing category file does not change what is read |
| Text.Lower | app.py:66 | `lower()` keeps the length, leaves no upper-case ASCII letter, changes only upper-case letters, and maps each of those to its lower-case partner |
| Text.Strip | app.py:348 | `strip()` returns a contiguous piece of the input; everything cut on either side is white space, and neither end of the result is white space |
| Text.StripEmptyIffBlank | app.py:352 | a stripped field is empty exactly when the raw field is all white space |
| Text.Contains | app.py:71 | `q in s` holds exactly when `q` occurs at some position of `s` |
| Seqs.Filter | app.py:96 | a list comprehension keeps exactly the elements that satisfy the condition, in their original order (a subsequence), and keeps each kept value as often as it occurs in the input |
| Catalog.Search | app.py:66-73 | an empty stripped, lower-cased query lists every product; otherwise the result is the subsequence of products whose lower-cased name contains the query, each as often as it occurs in the catalog |
| Catalog.SearchIsFilter | app.py:70-73 | the empty-query shortcut gives the same list as filtering, because the empty query occurs in every name |
| Catalog.Index | app.py:64-75 | the home page lists all categories and, in catalog order and with catalog multiplicity, exactly the products whose lower-cased name contains the stripped, lower-cased query (all of them for an empty query); it writes nothing |
| Catalog.FindProduct | app.py:85 | lookup gives `None` exactly when no product has the id; otherwise it gives the first product with that id |
| Catalog.ViewProduct | app.py:82-88 | the product page shows the first catalog product with the requested id, or not-found exactly when there is none, and writes nothing |
| Catalog.DenseLookup | app.py:154 | in a catalog built by appends with count+1 ids, id k names the k-th product and every other id is not found |
| Catalog.NewProduct | app.py:153-158 | a new product gets id count+1, so a catalog with ids 1..n gets ids 1..n+1 |
| Catalog.AddProduct | app.py:135-164 | an anonymous visitor is sent to login; a post lacking name, price or image is refused with nothing written; a post with all three always succeeds, and success appends exactly one product with id count+1 and changes nothing else |
| Catalog.AddedProductIsFound | app.py:152-160 | a product added through the form is what the product page shows for its new id |
| Catalog.AddCategory | app.py:227-264 | same gate; a post lacking name or image is refused with nothing written; a post with both always succeeds, and success appends exactly one category with path `categories/<file>` |
| Cart.AddItem | app.py:103-105 | an id already in the cart leaves it unchanged; otherwise the cart holds the old ids plus the new one, keeps the old ids as a prefix, grows by at most one, and stays duplicate-free |
| Cart.AddItemIdempotent | app.py:103-105 | adding the same id twice is the same as adding it once |
| Cart.AddAll | app.py:99-106 | a sequence of adds yields a cart holding exactly the added ids, with no duplicates when starting from none |
| Cart.Resolve | app.py:96 | the cart's products are a subsequence of the catalog: exactly the catalog products whose id is in the cart, each as often as it occurs in the catalog |
| Cart.ResolveSameIds | app.py:205 | resolution depends only on which ids are in the cart, not on their order or repeats |
| Cart.ResolveIgnoresStale | app.py:276 | an id no product carries is silently dropped |
| Cart.ResolvedLengthIsCartLength | app.py:96 | with unique catalog ids, a duplicate-free cart of known ids resolves to exactly one product per id |
| Cart.RepeatedAddsResolveToDistinct | app.py:99-106 | however often ids are added, the resolved cart has as many products as there are distinct ids |
| Cart.AddToCart | app.py:99-106 | creates the cart if absent and adds the id if absent; nothing else changes; redirects to the cart |
| Cart.ViewCart | app.py:90-97 | creates the cart key if absent and shows exactly the catalog products whose id is in the cart, in catalog order and with catalog multiplicity |
| Orders.SumAppend | app.py:206 | the price sum of two item lists joined is the sum of their sums |
| Orders.PriceOrder | app.py:206 | the running-sum total is all item prices plus 50; it is at least 50 when no price is negative, and one item costs its price plus 50 |
| Orders.Commit | app.py:211-219 | a purchase write appends exactly one record at the end, keeps earlier records, fixes its total at sum plus 50, and changes nothing else |
| Orders.PlaceOrder | app.py:194-221 | an absent or empty cart writes nothing and redirects to the cart; otherwise the resolved cart is appended as one priced purchase and the cart becomes empty |
| Orders.PlaceOrderOnce | app.py:208-209 | after an order the cart is empty, so submitting again writes nothing |
| Orders.Checkout | app.py:266-299 | anonymous visitors go to login and an empty cart goes back to the cart; a form request shows the resolved cart; a submission is exactly the cart order |
| Orders.BuyNow | app.py:108-133 | an unknown id is not-found; a form request shows the first catalog product with the id; a submission appends one purchase of that product at its price plus 50 and leaves the cart alone |
| Orders.CheckoutSingle | app.py:301-329 | anonymous visitors go to login; for a logged-in visitor an unknown id is not-found and a submission appends one purchase of the first product with the id at its price plus 50; in every logged-in case it answers exactly as the direct purchase does |
| Orders.CancelPurchase | app.py:337-343 | an in-range index removes exactly that entry and shifts later entries down by one; any other index leaves the state unchanged |
| Orders.CancelUndoesOrder | app.py:339-342 | cancelling the entry an order just appended restores the ledger |
| Auth.Registered | app.py:179 | the user scan succeeds exactly when the exact (username, password) pair is on file |
| Auth.Taken | app.py:360 | the duplicate check holds exactly when some record has the username |
| Auth.Login | app.py:166-186 | a post succeeds exactly for the admin pair or a registered pair; success sets `logged_in` and `username`, and failure reports invalid credentials with nothing changed |
| Auth.Logout | app.py:188-192 | both session keys are cleared and the cart and collections are kept |
| Auth.LogoutUndoesLogin | app.py:188-192 | logging in and then out ends in the same state as logging out alone |
| Auth.Register | app.py:345-372 | on the stripped fields, a blank field, differing passwords or an existing username each give their own rejection with nothing written; success happens exactly otherwise and appends one user record |
| Auth.RegisterTwiceRejected | app.py:358-361 | registering the same username again writes nothing and is rejected as taken |
| Auth.RegisterThenLogin | app.py:363-370 | a freshly registered account logs in with its stripped credentials |
| Auth.RegisterKeepsUsernamesUnique | app.py:359-367 | registration never creates a second account with the same username |
| App.CartShowsOnePerId | app.py:90-97 | in any state that keeps the invariant, so in every reachable state, a cart whose ids all name catalog products shows exactly one product per cart id |
| App.StepPreservesInv | app.py:99-372 | every route keeps these true: catalog ids are 1..n in order, usernames are unique, the cart has no duplicates, and every ledger total is its items' prices plus 50 |
| App.StepKeepsDenseIds | app.py:152-160 | no route breaks the 1..n numbering of catalog ids, because only the product form writes products and it appends id count+1 |
| App.StepKeepsUniqueUsernames | app.py:358-368 | no route creates a second account with an existing username |
| App.StepKeepsCartDistinct | app.py:103-105 | no route puts an id into the cart twice |
| App.StepKeepsLedgerPriced | app.py:206-219 | every ledger entry written or kept by any route has a total equal to its items' prices plus 50 |
| App.RunPreservesInv | app.py:99-372 | the invariant holds after any sequence of requests |
| App.ReachableStatesSatisfyInv | app.py:99-372 | every state reachable from empty collections and an empty session satisfies the invariant |
| App.GatedRoutesNeedLogin | app.py:137-138 | the product, category, checkout and single-checkout routes send an anonymous visitor to login and change nothing |
| App.WriteFootprint | app.py:99-372 | only the product form writes products, only the category form writes categories, only registration writes users, only the order and cancel routes write the ledger, and only login and logout write the login keys |
| App.BrowsingIsReadOnly | app.py:64-88 | the browsing pages, the ledger page, settings and thank-you write nothing |
| App.CartScenario | app.py:194-221 | with catalog Pen (10) and Mug (25), adding ids 1, 2, 1 gives cart [1, 2], which resolves to both products, and the order total is 85 |
| App.CancelOutOfRangeScenario | app.py:340 | cancelling index 5 of a two-entry ledger changes nothing |
| App.SearchScenario | app.py:70-73 | searching "mu" over Pen and Mug returns only Mug |

## Left out

- JSON file I/O: `os.path.exists`, `open`, `json.load` and `json.dump` are reduced to `Store`'s loaders on a `FileContent` value. The handlers work on the collections already loaded. Pretty-printing and partial writes are not modelled.
- Flask routing, `render_template`, `redirect` and `url_for`: presentation only. Each becomes an `Outcome` tag carrying the data the template receives.
- Image upload and `secure_filename`: saving the file is a side effect, and the sanitiser is library code not part of this model. The handlers take the already-sanitised file name as an opaque string, and an empty name counts as a missing image. A raw name that only sanitises to the empty string passes the presence check in `app.py` and then fails when the file is saved (HTTP 500); the model refuses it as a missing field instead (HTTP 400).
- Catalog.AddProduct: `int(price)` on the form string is not modelled. The price is an `Option<int>` where `None` means the field was missing or empty. A non-numeric price raises an error (HTTP 500) after the image is saved, and that path is left out.
- Auth.Register: the fields are plain strings. A field missing from the form makes `.strip()` raise on `None` (HTTP 500), and that path is left out.
- Missing login fields: the fields are plain strings. In `app.py` a missing field is `None`, which never equals a stored string, so such a login can only fail. This case is not modelled separately.
- Text.Lower and Text.Strip: ASCII only. Python's Unicode case mapping and its non-ASCII white space are not modelled.
- Session signing and cookies: the model has one visitor's session per state, and sessions of different visitors are not related.
- Concurrency: concurrent requests and last-writer-wins races on the files are not modelled. Each request is one atomic step.
- User records with extra JSON keys: a user is exactly a username and password pair. `app.py` compares only these two keys.
- Prices stored as strings in the product file (`app.py` converts them with `int()` when pricing): prices are integers throughout.
