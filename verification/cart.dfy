/** The session cart: a list of product ids kept in the visitor's session,
    extended with add-if-absent and resolved against the catalog on display. */
module Cart {
  import opened Types
  import opened Seqs
  import Catalog

  /** Add-if-absent: an id already in the cart changes nothing, a new one goes
      at the end. The id is not checked against the catalog here; unknown ids
      are dropped later, by `Resolve`. */
  function AddItem(ids: seq<int>, id: int): (r: seq<int>)
    ensures forall x :: x in r <==> x in ids || x == id
    ensures |ids| <= |r| <= |ids| + 1 && r[..|ids|] == ids
    ensures id in ids ==> r == ids
    ensures NoDuplicates(ids) ==> NoDuplicates(r)
  {
    if id in ids then ids else ids + [id]
  }

  /** Adding the same id again leaves the cart as it is. */
  lemma AddItemIdempotent(ids: seq<int>, id: int)
    ensures AddItem(AddItem(ids, id), id) == AddItem(ids, id)
  {
  }

  /** The cart's products: the catalog filtered to the products whose id is
      in the cart, so in catalog order, with ids no product carries dropped. */
  function Resolve(products: seq<Product>, ids: seq<int>): (r: seq<Product>)
    ensures IsSubsequence(r, products)
    ensures forall p :: p in r <==> p in products && p.id in ids
    ensures forall p :: p in products ==> multiset(r)[p] == if p.id in ids then multiset(products)[p] else 0
  {
    Filter(products, (p: Product) => p.id in ids)
  }

  /** Resolution sees only which ids are in the cart, not their order or repeats. */
  lemma ResolveSameIds(products: seq<Product>, a: seq<int>, b: seq<int>)
    requires forall x :: x in a <==> x in b
    ensures Resolve(products, a) == Resolve(products, b)
  {
    FilterCongruent(products, (p: Product) => p.id in a, (p: Product) => p.id in b);
  }

  /** An id no product carries is silently ignored. */
  lemma ResolveIgnoresStale(products: seq<Product>, ids: seq<int>, stale: int)
    requires forall i :: 0 <= i < |products| ==> products[i].id != stale
    ensures Resolve(products, ids + [stale]) == Resolve(products, ids)
  {
    forall p | p in products ensures (p.id in ids + [stale]) == (p.id in ids) {
    }
    FilterCongruent(products, (p: Product) => p.id in ids + [stale], (p: Product) => p.id in ids);
  }

  /** The ids carried by the catalog. */
  function IdSet(products: seq<Product>): (r: set<int>)
    ensures forall i :: 0 <= i < |products| ==> products[i].id in r
    ensures forall x :: x in r ==> exists i :: 0 <= i < |products| && products[i].id == x
  {
    if products == [] then {}
    else
      var rest := IdSet(products[1..]);
      assert forall x :: x in rest ==> exists i :: 0 <= i < |products| && products[i].id == x by {
        forall x | x in rest ensures exists i :: 0 <= i < |products| && products[i].id == x {
          var k :| 0 <= k < |products[1..]| && products[1..][k].id == x;
          assert products[k + 1].id == x;
        }
      }
      {products[0].id} + rest
  }

  /** With unique catalog ids, the cart resolves to one product per cart id the
      catalog knows. */
  lemma {:induction false} ResolveCountsKnownIds(products: seq<Product>, ids: seq<int>)
    requires Catalog.UniqueIds(products)
    ensures |Resolve(products, ids)| == |IdSet(products) * (set x | x in ids)|
  {
    var known := set x | x in ids;
    if products == [] {
      assert IdSet(products) * known == {};
    } else {
      var rest := products[1..];
      var head := products[0];
      TailFacts(products);
      ResolveCountsKnownIds(rest, ids);
      ResolveUnfold(products, ids);
      CountStep(head.id, IdSet(rest), known);
    }
  }

  /** The tail of a catalog with unique ids has unique ids and lacks the head's id. */
  lemma TailFacts(products: seq<Product>)
    requires products != [] && Catalog.UniqueIds(products)
    ensures Catalog.UniqueIds(products[1..])
    ensures products[0].id !in IdSet(products[1..])
    ensures IdSet(products) == {products[0].id} + IdSet(products[1..])
  {
    var rest := products[1..];
    forall i, j | 0 <= i < j < |rest| ensures rest[i].id != rest[j].id {
      assert rest[i] == products[i + 1] && rest[j] == products[j + 1];
    }
  }

  lemma ResolveUnfold(products: seq<Product>, ids: seq<int>)
    requires products != []
    ensures Resolve(products, ids)
            == (if products[0].id in ids then [products[0]] else []) + Resolve(products[1..], ids)
  {
  }

  /** Adding a fresh element `h` to a set adds one to its meet with `k` exactly when `h` is in `k`. */
  lemma CountStep(h: int, b: set<int>, k: set<int>)
    requires h !in b
    ensures |({h} + b) * k| == (if h in k then 1 else 0) + |b * k|
  {
    if h in k {
      assert ({h} + b) * k == {h} + b * k;
    } else {
      assert ({h} + b) * k == b * k;
    }
  }

  /** The distinct-count property: a duplicate-free cart whose ids all name
      catalog products resolves to exactly as many products as it has ids. */
  lemma ResolvedLengthIsCartLength(products: seq<Product>, ids: seq<int>)
    requires Catalog.UniqueIds(products)
    requires NoDuplicates(ids)
    requires forall k :: 0 <= k < |ids| ==> ids[k] in IdSet(products)
    ensures |Resolve(products, ids)| == |ids|
  {
    ResolveCountsKnownIds(products, ids);
    var known := set x | x in ids;
    assert IdSet(products) * known == known;
    DistinctCount(ids);
  }

  /** The cart after adding each of `adds` in turn. */
  function AddAll(ids: seq<int>, adds: seq<int>): (r: seq<int>)
    ensures forall x :: x in r <==> x in ids || x in adds
    ensures NoDuplicates(ids) ==> NoDuplicates(r)
    decreases |adds|
  {
    if adds == [] then ids
    else
      var r := AddAll(AddItem(ids, adds[0]), adds[1..]);
      assert forall x :: x in adds <==> x == adds[0] || x in adds[1..] by {
        assert adds == [adds[0]] + adds[1..];
      }
      r
  }

  /** However often each id is added, a cart built from nothing holds each
      distinct id once, and if all of them name catalog products (with unique
      ids) it resolves to one product per distinct id. */
  lemma RepeatedAddsResolveToDistinct(products: seq<Product>, adds: seq<int>)
    requires Catalog.UniqueIds(products)
    requires forall k :: 0 <= k < |adds| ==> adds[k] in IdSet(products)
    ensures |Resolve(products, AddAll([], adds))| == |set x | x in adds|
  {
    var c := AddAll([], adds);
    assert NoDuplicates<int>([]);
    assert NoDuplicates(c);
    assert forall k :: 0 <= k < |c| ==> c[k] in IdSet(products) by {
      forall k | 0 <= k < |c| ensures c[k] in IdSet(products) {
        assert c[k] in adds;
      }
    }
    ResolvedLengthIsCartLength(products, c);
    DistinctCount(c);
    SameElementsSameSet(c, adds);
  }

  lemma SameElementsSameSet(a: seq<int>, b: seq<int>)
    requires forall x :: x in a <==> x in b
    ensures (set x | x in a) == (set x | x in b)
  {
    var sa := set y | y in a;
    var sb := set y | y in b;
    assert forall x :: x in sa <==> x in sb;
  }

  /** `/add_to_cart/<id>`: creates the cart if absent, adds the id if absent,
      and touches nothing else. */
  function AddToCart(s: State, id: int): (r: Response)
    ensures r.outcome == Redirect(CartPage)
    ensures r.next == s.(session := s.session.(cart := r.next.session.cart))
    ensures r.next.session.cart.Some? && r.next.session.CartIds() == AddItem(s.session.CartIds(), id)
  {
    Response(s.(session := s.session.(cart := Some(AddItem(s.session.CartIds(), id)))), Redirect(CartPage))
  }

  /** `/cart`: creates the cart key if absent and shows the catalog products
      whose id is in the cart. */
  function ViewCart(s: State): (r: Response)
    ensures r.next == s.(session := s.session.(cart := Some(s.session.CartIds())))
    ensures r.outcome.Listing? && IsSubsequence(r.outcome.products, s.products)
    ensures forall p :: p in r.outcome.products <==> p in s.products && p.id in s.session.CartIds()
    ensures forall p :: p in s.products ==>
              multiset(r.outcome.products)[p] == if p.id in s.session.CartIds() then multiset(s.products)[p] else 0
  {
    Response(s.(session := s.session.(cart := Some(s.session.CartIds()))),
             Listing(Resolve(s.products, s.session.CartIds())))
  }
}
