/** The catalog: the home page's product search, lookup by id, and the two
    administrator forms that append a product or a category. */
module Catalog {
  import opened Types
  import opened Seqs
  import Text

  /** Ids 1, 2, 3, ... in catalog order: what "id = count + 1" produces when
      products are only ever appended. */
  predicate DenseIds(products: seq<Product>) {
    forall i :: 0 <= i < |products| ==> products[i].id == i + 1
  }

  predicate UniqueIds(products: seq<Product>) {
    forall i, j :: 0 <= i < j < |products| ==> products[i].id != products[j].id
  }

  lemma DenseIdsAreUnique(products: seq<Product>)
    requires DenseIds(products)
    ensures UniqueIds(products)
  {
  }

  /** The query the home page applies: the `q` argument stripped and lower-cased. */
  function NormalizeQuery(raw: string): string {
    Text.Lower(Text.Strip(raw))
  }

  /** Case-insensitive containment of an already lower-cased query in the name. */
  predicate NameMatches(p: Product, q: string) {
    Text.Contains(q, Text.Lower(p.name))
  }

  /** The home page's product list for the query `raw`: every product when the
      normalised query is empty, otherwise the products whose lower-cased name
      contains it, in catalog order. */
  function Search(products: seq<Product>, raw: string): (r: seq<Product>)
    ensures NormalizeQuery(raw) == [] ==> r == products
    ensures IsSubsequence(r, products)
    ensures forall i :: 0 <= i < |r| ==> r[i] in products && NameMatches(r[i], NormalizeQuery(raw))
    ensures forall i :: 0 <= i < |products| && NameMatches(products[i], NormalizeQuery(raw)) ==> products[i] in r
    ensures forall p :: p in products ==>
              multiset(r)[p] == if NameMatches(p, NormalizeQuery(raw)) then multiset(products)[p] else 0
  {
    var q := NormalizeQuery(raw);
    if q == [] then
      SubsequenceOfSelf(products);
      forall p: Product ensures NameMatches(p, q) {
        Text.ContainsEmpty(Text.Lower(p.name));
      }
      products
    else Filter(products, p => NameMatches(p, q))
  }

  /** The empty-query shortcut changes nothing: search is always the filter. */
  lemma SearchIsFilter(products: seq<Product>, raw: string)
    ensures Search(products, raw) == Filter(products, p => NameMatches(p, NormalizeQuery(raw)))
  {
    var q := NormalizeQuery(raw);
    if q == [] {
      forall i | 0 <= i < |products| ensures NameMatches(products[i], q) {
        Text.ContainsEmpty(Text.Lower(products[i].name));
      }
      FilterAll(products, p => NameMatches(p, q));
    }
  }

  lemma {:induction false} SubsequenceOfSelf<T>(s: seq<T>)
    ensures IsSubsequence(s, s)
  {
    if s != [] {
      SubsequenceOfSelf(s[1..]);
    }
  }

  /** `products[i]` is the first product with this id. */
  predicate FirstWithId(products: seq<Product>, id: int, i: int) {
    && 0 <= i < |products|
    && products[i].id == id
    && forall j :: 0 <= j < i ==> products[j].id != id
  }

  /** The position of the first product with this id, if any. */
  function IndexOfId(products: seq<Product>, id: int): (r: Option<nat>)
    ensures r.None? <==> forall i :: 0 <= i < |products| ==> products[i].id != id
    ensures r.Some? ==> FirstWithId(products, id, r.value)
  {
    if products == [] then None
    else if products[0].id == id then Some(0)
    else
      match IndexOfId(products[1..], id)
      case None => None
      case Some(k) => Some(k + 1)
  }

  /** Lookup by id: the first product carrying it, or nothing. */
  function FindProduct(products: seq<Product>, id: int): (r: Option<Product>)
    ensures r.None? <==> forall i :: 0 <= i < |products| ==> products[i].id != id
    ensures r.Some? ==> exists i :: FirstWithId(products, id, i) && products[i] == r.value
  {
    match IndexOfId(products, id)
    case None => None
    case Some(i) => Some(products[i])
  }

  /** In a catalog built by appends, id `k` names the `k`-th product and
      nothing else names anything. */
  lemma DenseLookup(products: seq<Product>, id: int)
    requires DenseIds(products)
    ensures 1 <= id <= |products| ==> FindProduct(products, id) == Some(products[id - 1])
    ensures !(1 <= id <= |products|) ==> FindProduct(products, id) == None
  {
    if 1 <= id <= |products| {
      assert products[id - 1].id == id;
    }
  }

  /** The record `add_product` creates: the next id, the price as parsed, and
      the uploaded file's path under `uploads/`. */
  function NewProduct(products: seq<Product>, name: string, price: int, filename: string): (p: Product)
    ensures p.id == |products| + 1
    ensures DenseIds(products) ==> DenseIds(products + [p])
  {
    Product(|products| + 1, name, price, "uploads/" + filename)
  }

  /** The `/` page: the search result and every category; nothing is written. */
  function Index(s: State, raw: string): (r: Response)
    ensures r.next == s
    ensures r.outcome.Home? && r.outcome.categories == s.categories
    ensures NormalizeQuery(raw) == [] ==> r.outcome.products == s.products
    ensures IsSubsequence(r.outcome.products, s.products)
    ensures forall p :: p in r.outcome.products <==> p in s.products && NameMatches(p, NormalizeQuery(raw))
    ensures forall p :: p in s.products ==>
              multiset(r.outcome.products)[p] == if NameMatches(p, NormalizeQuery(raw)) then multiset(s.products)[p] else 0
  {
    Response(s, Home(Search(s.products, raw), s.categories))
  }

  /** The `/products` page: the whole catalog. */
  function ProductList(s: State): (r: Response)
    ensures r.next == s && r.outcome == Listing(s.products)
  {
    Response(s, Listing(s.products))
  }

  /** The product page: the first product with this id, or "not found". */
  function ViewProduct(s: State, id: int): (r: Response)
    ensures r.next == s
    ensures r.outcome == NotFound <==> forall i :: 0 <= i < |s.products| ==> s.products[i].id != id
    ensures r.outcome.Detail? ==> exists i :: FirstWithId(s.products, id, i) && s.products[i] == r.outcome.product
    ensures r.outcome.NotFound? || r.outcome.Detail?
  {
    match FindProduct(s.products, id)
    case None => Response(s, NotFound)
    case Some(p) => Response(s, Detail(p))
  }

  /** The administrator's product form. Anonymous visitors are sent to log in;
      a post lacking the name, the price or the image is refused with nothing
      written; otherwise one product with the next id is appended. */
  function AddProduct(s: State, verb: Verb, name: string, price: Option<int>, filename: string): (r: Response)
    ensures !s.session.loggedIn ==> r == Response(s, Redirect(LoginPage))
    ensures s.session.loggedIn && verb.Get? ==> r == Response(s, Form)
    ensures s.session.loggedIn && verb.Post? && (name == [] || price.None? || filename == []) ==>
              r == Response(s, Rejected(MissingFields))
    ensures s.session.loggedIn && verb.Post? && name != [] && price.Some? && filename != [] ==>
              r.outcome == Redirect(IndexPage)
    ensures r.outcome != Redirect(IndexPage) ==> r.next == s
    ensures r.outcome == Redirect(IndexPage) ==>
              && s.session.loggedIn && verb.Post?
              && r.next == s.(products := r.next.products)
              && |r.next.products| == |s.products| + 1
              && r.next.products[..|s.products|] == s.products
              && r.next.products[|s.products|] == Product(|s.products| + 1, name, price.value, "uploads/" + filename)
  {
    if !s.session.loggedIn then Response(s, Redirect(LoginPage))
    else if verb.Get? then Response(s, Form)
    else if name == [] || price.None? || filename == [] then Response(s, Rejected(MissingFields))
    else
      var p := NewProduct(s.products, name, price.value, filename);
      Response(s.(products := s.products + [p]), Redirect(IndexPage))
  }

  /** A product added through the form can be looked up by the id it was given. */
  lemma AddedProductIsFound(s: State, name: string, price: Option<int>, filename: string)
    requires DenseIds(s.products)
    requires AddProduct(s, Post, name, price, filename).outcome == Redirect(IndexPage)
    ensures var t := AddProduct(s, Post, name, price, filename).next;
            DenseIds(t.products)
            && ViewProduct(t, |s.products| + 1).outcome
               == Detail(Product(|s.products| + 1, name, price.value, "uploads/" + filename))
  {
    var t := AddProduct(s, Post, name, price, filename).next;
    DenseLookup(t.products, |s.products| + 1);
  }

  /** The administrator's category form: same gate, appends one category with
      the uploaded file's path under `categories/`. */
  function AddCategory(s: State, verb: Verb, name: string, filename: string): (r: Response)
    ensures !s.session.loggedIn ==> r == Response(s, Redirect(LoginPage))
    ensures s.session.loggedIn && verb.Get? ==> r == Response(s, Form)
    ensures s.session.loggedIn && verb.Post? && (name == [] || filename == []) ==>
              r == Response(s, Rejected(MissingNameOrImage))
    ensures s.session.loggedIn && verb.Post? && name != [] && filename != [] ==>
              r.outcome == Redirect(IndexPage)
    ensures r.outcome != Redirect(IndexPage) ==> r.next == s
    ensures r.outcome == Redirect(IndexPage) ==>
              && r.next == s.(categories := s.categories + [Category(name, "categories/" + filename)])
              && name != [] && filename != []
  {
    if !s.session.loggedIn then Response(s, Redirect(LoginPage))
    else if verb.Get? then Response(s, Form)
    else if name == [] || filename == [] then Response(s, Rejected(MissingNameOrImage))
    else Response(s.(categories := s.categories + [Category(name, "categories/" + filename)]), Redirect(IndexPage))
  }
}
