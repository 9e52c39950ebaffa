/** Orders: pricing, the three ways of writing a purchase to the ledger (the
    cart order, the logged-in cart checkout, the one-product purchase) and
    cancellation by position. */
module Orders {
  import opened Types
  import Catalog
  import Cart

  /** The sum of the item prices. */
  function Sum(items: seq<Product>): int {
    if items == [] then 0 else items[0].price + Sum(items[1..])
  }

  lemma {:induction false} SumAppend(a: seq<Product>, b: seq<Product>)
    ensures Sum(a + b) == Sum(a) + Sum(b)
  {
    if a != [] {
      assert (a + b)[1..] == a[1..] + b;
      SumAppend(a[1..], b);
    } else {
      assert a + b == b;
    }
  }

  lemma SumSingle(p: Product)
    ensures Sum([p]) == p.price
  {
    assert [p][1..] == [];
  }

  lemma {:induction false} SumNonNegative(items: seq<Product>)
    requires forall i :: 0 <= i < |items| ==> items[i].price >= 0
    ensures Sum(items) >= 0
  {
    if items != [] {
      SumNonNegative(items[1..]);
    }
  }

  /** Prices the order the way the handlers do: a running sum over the items,
      then the delivery fee on top. */
  method PriceOrder(items: seq<Product>) returns (total: int)
    ensures total == Sum(items) + DeliveryFee
    ensures (forall i :: 0 <= i < |items| ==> items[i].price >= 0) ==> total >= DeliveryFee
    ensures |items| == 1 ==> total == items[0].price + DeliveryFee
  {
    var acc := 0;
    for i := 0 to |items|
      invariant acc == Sum(items[..i])
    {
      assert items[..i + 1] == items[..i] + [items[i]];
      SumAppend(items[..i], [items[i]]);
      acc := acc + items[i].price;
    }
    assert items[..|items|] == items;
    if forall i :: 0 <= i < |items| ==> items[i].price >= 0 {
      SumNonNegative(items);
    }
    total := acc + DeliveryFee;
  }

  /** The record written for `items`, with its total fixed once, here. */
  function MakePurchase(items: seq<Product>, form: OrderForm): Purchase {
    Purchase(items, form.name, form.address, form.contact, Sum(items) + DeliveryFee)
  }

  /** A ledger entry whose stored total is its items' prices plus the fee. */
  predicate Priced(rec: Purchase) {
    rec.total == Sum(rec.items) + DeliveryFee
  }

  /** `after` is `before` with exactly `rec` appended at the end. */
  predicate AppendedOne(before: seq<Purchase>, after: seq<Purchase>, rec: Purchase) {
    && |after| == |before| + 1
    && after[..|before|] == before
    && after[|before|] == rec
  }

  /** Writes one purchase of `items` and confirms it. */
  function Commit(s: State, items: seq<Product>, form: OrderForm): (r: Response)
    ensures r.next == s.(purchases := r.next.purchases)
    ensures AppendedOne(s.purchases, r.next.purchases, MakePurchase(items, form))
    ensures Priced(MakePurchase(items, form))
    ensures r.outcome == Confirmed(items, Sum(items) + DeliveryFee)
  {
    var rec := MakePurchase(items, form);
    Response(s.(purchases := s.purchases + [rec]), Confirmed(items, rec.total))
  }

  /** `/place_order`: with no cart or an empty one, nothing happens; otherwise
      the resolved cart is written as one purchase and the cart is emptied. */
  function PlaceOrder(s: State, form: OrderForm): (r: Response)
    ensures s.session.CartIds() == [] ==> r == Response(s, Redirect(CartPage))
    ensures s.session.CartIds() != [] ==>
              var items := Cart.Resolve(s.products, s.session.CartIds());
              && r.outcome == Confirmed(items, Sum(items) + DeliveryFee)
              && AppendedOne(s.purchases, r.next.purchases, MakePurchase(items, form))
              && r.next == s.(purchases := r.next.purchases, session := s.session.(cart := Some([])))
  {
    if s.session.CartIds() == [] then Response(s, Redirect(CartPage))
    else
      var items := Cart.Resolve(s.products, s.session.CartIds());
      Commit(s.(session := s.session.(cart := Some([]))), items, form)
  }

  /** An order empties the cart, so submitting the form again writes nothing. */
  lemma PlaceOrderOnce(s: State, first: OrderForm, second: OrderForm)
    requires s.session.CartIds() != []
    ensures var t := PlaceOrder(s, first).next;
            PlaceOrder(t, second) == Response(t, Redirect(CartPage))
  {
  }

  /** `/checkout`: the logged-in variant of the cart order. Anonymous visitors
      are sent to log in and an empty cart back to the cart page; a form
      request shows the resolved cart; a submission behaves as `PlaceOrder`. */
  function Checkout(s: State, verb: Verb, form: OrderForm): (r: Response)
    ensures !s.session.loggedIn ==> r == Response(s, Redirect(LoginPage))
    ensures s.session.loggedIn && s.session.CartIds() == [] ==> r == Response(s, Redirect(CartPage))
    ensures s.session.loggedIn && s.session.CartIds() != [] && verb.Get? ==>
              r == Response(s, CheckoutForm(Cart.Resolve(s.products, s.session.CartIds())))
    ensures s.session.loggedIn && verb.Post? ==> r == PlaceOrder(s, form)
  {
    if !s.session.loggedIn then Response(s, Redirect(LoginPage))
    else if s.session.CartIds() == [] then Response(s, Redirect(CartPage))
    else
      var items := Cart.Resolve(s.products, s.session.CartIds());
      if verb.Get? then Response(s, CheckoutForm(items))
      else Commit(s.(session := s.session.(cart := Some([]))), items, form)
  }

  /** `/buy_now/<id>`: buys one catalog product directly, leaving the cart alone.
      An unknown id is "not found"; a form request shows the product; a
      submission writes one purchase of that product priced at its price plus the fee. */
  function BuyNow(s: State, id: int, verb: Verb, form: OrderForm): (r: Response)
    ensures r.outcome == NotFound <==> forall i :: 0 <= i < |s.products| ==> s.products[i].id != id
    ensures r.outcome.NotFound? || verb.Get? ==> r.next == s
    ensures r.outcome.CheckoutForm? ==>
              && verb.Get? && |r.outcome.items| == 1
              && exists i :: Catalog.FirstWithId(s.products, id, i) && s.products[i] == r.outcome.items[0]
    ensures r.outcome.Confirmed? ==>
              && verb.Post? && |r.outcome.items| == 1
              && var p := r.outcome.items[0];
              && (exists i :: Catalog.FirstWithId(s.products, id, i) && s.products[i] == p)
              && r.outcome.total == p.price + DeliveryFee
              && AppendedOne(s.purchases, r.next.purchases, Purchase([p], form.name, form.address, form.contact, p.price + DeliveryFee))
              && r.next == s.(purchases := r.next.purchases)
    ensures r.outcome.NotFound? || r.outcome.CheckoutForm? || r.outcome.Confirmed?
  {
    match Catalog.FindProduct(s.products, id)
    case None => Response(s, NotFound)
    case Some(p) =>
      if verb.Get? then Response(s, CheckoutForm([p]))
      else
        SumSingle(p);
        Commit(s, [p], form)
  }

  /** `/checkout_single/<id>`: the logged-in variant of the direct purchase.
      It repeats the lookup and the write of `/buy_now` behind the login gate,
      and so answers exactly as `BuyNow` does for a logged-in visitor. */
  function CheckoutSingle(s: State, id: int, verb: Verb, form: OrderForm): (r: Response)
    ensures !s.session.loggedIn ==> r == Response(s, Redirect(LoginPage))
    ensures s.session.loggedIn ==>
              (r.outcome == NotFound <==> forall i :: 0 <= i < |s.products| ==> s.products[i].id != id)
    ensures r.outcome.Confirmed? ==>
              && s.session.loggedIn && verb.Post? && |r.outcome.items| == 1
              && var p := r.outcome.items[0];
              && (exists i :: Catalog.FirstWithId(s.products, id, i) && s.products[i] == p)
              && r.outcome.total == p.price + DeliveryFee
              && AppendedOne(s.purchases, r.next.purchases, Purchase([p], form.name, form.address, form.contact, p.price + DeliveryFee))
              && r.next == s.(purchases := r.next.purchases)
    ensures s.session.loggedIn ==> r == BuyNow(s, id, verb, form)
  {
    if !s.session.loggedIn then Response(s, Redirect(LoginPage))
    else
      match Catalog.FindProduct(s.products, id)
      case None => Response(s, NotFound)
      case Some(p) =>
        if verb.Get? then Response(s, CheckoutForm([p]))
        else
          SumSingle(p);
          Commit(s, [p], form)
  }

  /** `/my_purchases`: the whole ledger. */
  function MyPurchases(s: State): (r: Response)
    ensures r.next == s && r.outcome == Ledger(s.purchases)
  {
    Response(s, Ledger(s.purchases))
  }

  /** `/cancel_purchase/<index>`: drops the entry at `index` when the index is
      in range, shifting the later entries down by one; any other index leaves
      the ledger untouched. */
  function CancelPurchase(s: State, index: int): (r: Response)
    ensures r.outcome == Redirect(PurchasesPage)
    ensures r.next == s.(purchases := r.next.purchases)
    ensures !(0 <= index < |s.purchases|) ==> r.next == s
    ensures 0 <= index < |s.purchases| ==>
              && |r.next.purchases| == |s.purchases| - 1
              && (forall j :: 0 <= j < index ==> r.next.purchases[j] == s.purchases[j])
              && (forall j :: index <= j < |r.next.purchases| ==> r.next.purchases[j] == s.purchases[j + 1])
    ensures forall rec :: rec in r.next.purchases ==> rec in s.purchases
  {
    if 0 <= index < |s.purchases| then
      Response(s.(purchases := s.purchases[..index] + s.purchases[index + 1..]), Redirect(PurchasesPage))
    else Response(s, Redirect(PurchasesPage))
  }

  /** Cancelling the entry an order has just appended restores the ledger. */
  lemma CancelUndoesOrder(s: State, form: OrderForm)
    requires s.session.CartIds() != []
    ensures var t := PlaceOrder(s, form).next;
            CancelPurchase(t, |s.purchases|).next.purchases == s.purchases
  {
    var t := PlaceOrder(s, form).next;
    assert t.purchases[..|s.purchases|] == s.purchases;
  }
}
