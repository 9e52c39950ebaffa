/** The storefront as one state machine: every route becomes a request, and
    `Step` hands it to the handler that models the route. */
module App {
  import opened Types
  import opened Seqs
  import Catalog
  import Cart
  import Orders
  import Auth
  import Text

  /** One HTTP request, with its route parameters and the form fields it reads. */
  datatype Request =
    | Index(query: string)
    | ProductList
    | ViewProduct(id: int)
    | ViewCart
    | AddToCart(id: int)
    | BuyNow(id: int, verb: Verb, form: OrderForm)
    | AddProduct(verb: Verb, name: string, price: Option<int>, filename: string)
    | Login(verb: Verb, username: string, password: string)
    | Logout
    | PlaceOrder(form: OrderForm)
    | ThankYou
    | AddCategory(verb: Verb, name: string, filename: string)
    | Checkout(verb: Verb, form: OrderForm)
    | CheckoutSingle(id: int, verb: Verb, form: OrderForm)
    | MyPurchases
    | CancelPurchase(index: int)
    | Register(verb: Verb, username: string, password: string, confirm: string)
    | Settings

  function Step(s: State, req: Request): Response {
    match req
    case Index(q) => Catalog.Index(s, q)
    case ProductList => Catalog.ProductList(s)
    case ViewProduct(id) => Catalog.ViewProduct(s, id)
    case ViewCart => Cart.ViewCart(s)
    case AddToCart(id) => Cart.AddToCart(s, id)
    case BuyNow(id, verb, form) => Orders.BuyNow(s, id, verb, form)
    case AddProduct(verb, name, price, filename) => Catalog.AddProduct(s, verb, name, price, filename)
    case Login(verb, username, password) => Auth.Login(s, verb, username, password)
    case Logout => Auth.Logout(s)
    case PlaceOrder(form) => Orders.PlaceOrder(s, form)
    case ThankYou => Response(s, Static)
    case AddCategory(verb, name, filename) => Catalog.AddCategory(s, verb, name, filename)
    case Checkout(verb, form) => Orders.Checkout(s, verb, form)
    case CheckoutSingle(id, verb, form) => Orders.CheckoutSingle(s, id, verb, form)
    case MyPurchases => Orders.MyPurchases(s)
    case CancelPurchase(index) => Orders.CancelPurchase(s, index)
    case Register(verb, username, password, confirm) => Auth.Register(s, verb, username, password, confirm)
    case Settings => Response(s, Static)
  }

  /** The state after a sequence of requests, in order. */
  function Run(s: State, reqs: seq<Request>): State
    decreases |reqs|
  {
    if reqs == [] then s else Run(Step(s, reqs[0]).next, reqs[1..])
  }

  /** What every reachable state satisfies: catalog ids are 1..n in order, no
      two accounts share a username, the cart holds no id twice, and every
      ledger entry's total is its items' prices plus the fee. */
  predicate Inv(s: State) {
    && Catalog.DenseIds(s.products)
    && Auth.UniqueUsernames(s.users)
    && NoDuplicates(s.session.CartIds())
    && forall i :: 0 <= i < |s.purchases| ==> Orders.Priced(s.purchases[i])
  }

  /** In a state that keeps the invariant, a cart whose ids all name catalog
      products shows exactly one product per id: the 1..n numbering makes
      catalog ids unique, and the cart holds each id once. */
  lemma CartShowsOnePerId(s: State)
    requires Inv(s)
    requires forall k :: 0 <= k < |s.session.CartIds()| ==> 1 <= s.session.CartIds()[k] <= |s.products|
    ensures Step(s, ViewCart).outcome.Listing?
    ensures |Step(s, ViewCart).outcome.products| == |s.session.CartIds()|
  {
    var ids := s.session.CartIds();
    Catalog.DenseIdsAreUnique(s.products);
    forall k | 0 <= k < |ids| ensures ids[k] in Cart.IdSet(s.products) {
      assert s.products[ids[k] - 1].id == ids[k];
    }
    Cart.ResolvedLengthIsCartLength(s.products, ids);
  }

  lemma StepPreservesInv(s: State, req: Request)
    requires Inv(s)
    ensures Inv(Step(s, req).next)
  {
    StepKeepsDenseIds(s, req);
    StepKeepsUniqueUsernames(s, req);
    StepKeepsCartDistinct(s, req);
    StepKeepsLedgerPriced(s, req);
  }

  lemma StepKeepsDenseIds(s: State, req: Request)
    requires Catalog.DenseIds(s.products)
    ensures Catalog.DenseIds(Step(s, req).next.products)
  {
    WriteFootprint(s, req);
  }

  lemma StepKeepsUniqueUsernames(s: State, req: Request)
    requires Auth.UniqueUsernames(s.users)
    ensures Auth.UniqueUsernames(Step(s, req).next.users)
  {
    WriteFootprint(s, req);
    if req.Register? {
      Auth.RegisterKeepsUsernamesUnique(s, req.verb, req.username, req.password, req.confirm);
    }
  }

  lemma StepKeepsCartDistinct(s: State, req: Request)
    requires NoDuplicates(s.session.CartIds())
    ensures NoDuplicates(Step(s, req).next.session.CartIds())
  {
  }

  lemma StepKeepsLedgerPriced(s: State, req: Request)
    requires forall i :: 0 <= i < |s.purchases| ==> Orders.Priced(s.purchases[i])
    ensures var t := Step(s, req).next;
            forall i :: 0 <= i < |t.purchases| ==> Orders.Priced(t.purchases[i])
  {
    var t := Step(s, req).next;
    WriteFootprint(s, req);
    if req.CancelPurchase? {
      forall i | 0 <= i < |t.purchases| ensures Orders.Priced(t.purchases[i]) {
        assert t.purchases[i] in s.purchases;
      }
    } else if t.purchases != s.purchases {
      forall i | 0 <= i < |t.purchases| ensures Orders.Priced(t.purchases[i]) {
        if i < |s.purchases| {
          assert t.purchases[i] == t.purchases[..|s.purchases|][i];
        }
      }
    }
  }

  /** Every state reached from the initial one satisfies `Inv`. */
  lemma {:induction false} RunPreservesInv(s: State, reqs: seq<Request>)
    requires Inv(s)
    ensures Inv(Run(s, reqs))
    decreases |reqs|
  {
    if reqs != [] {
      StepPreservesInv(s, reqs[0]);
      RunPreservesInv(Step(s, reqs[0]).next, reqs[1..]);
    }
  }

  lemma ReachableStatesSatisfyInv(reqs: seq<Request>)
    ensures Inv(Run(Initial, reqs))
  {
    RunPreservesInv(Initial, reqs);
  }

  /** The routes that check `logged_in` before anything else. */
  predicate Gated(req: Request) {
    req.AddProduct? || req.AddCategory? || req.Checkout? || req.CheckoutSingle?
  }

  /** A gated route sends an anonymous visitor to the login page and changes nothing. */
  lemma GatedRoutesNeedLogin(s: State, req: Request)
    requires Gated(req) && !s.session.loggedIn
    ensures Step(s, req) == Response(s, Redirect(LoginPage))
  {
  }

  /** Which routes can write which part of the state: products only through
      the product form, categories only through the category form, accounts
      only through registration, the ledger only through the order and cancel
      routes, and the login keys only through login and logout. */
  lemma WriteFootprint(s: State, req: Request)
    ensures var t := Step(s, req).next;
            && (t.products != s.products ==> req.AddProduct?)
            && (t.categories != s.categories ==> req.AddCategory?)
            && (t.users != s.users ==> req.Register?)
            && (t.purchases != s.purchases ==>
                  req.BuyNow? || req.PlaceOrder? || req.Checkout? || req.CheckoutSingle? || req.CancelPurchase?)
            && (t.session.loggedIn != s.session.loggedIn || t.session.username != s.session.username ==>
                  req.Login? || req.Logout?)
  {
  }

  /** Browsing pages never write anything. */
  lemma BrowsingIsReadOnly(s: State, req: Request)
    requires req.Index? || req.ProductList? || req.ViewProduct? || req.MyPurchases? || req.ThankYou? || req.Settings?
    ensures Step(s, req).next == s
  {
  }

  const Pen: Product := Product(1, "Pen", 10, "uploads/pen.png")
  const Mug: Product := Product(2, "Mug", 25, "uploads/mug.png")
  const Catalog2: State := Initial.(products := [Pen, Mug])
  const Adds: seq<Request> := [AddToCart(1), AddToCart(2), AddToCart(1)]

  lemma AddsLeaveTwoIds()
    ensures Run(Catalog2, Adds).session.CartIds() == [1, 2]
    ensures Run(Catalog2, Adds).products == [Pen, Mug]
  {
    RunThree(Catalog2, AddToCart(1), AddToCart(2), AddToCart(1));
    var s1 := Step(Catalog2, AddToCart(1)).next;
    var s2 := Step(s1, AddToCart(2)).next;
    AddStep(Catalog2, 1);
    AddStep(s1, 2);
    AddStep(s2, 1);
    assert s1.session.CartIds() == [1] && s1.products == [Pen, Mug];
    assert s2.session.CartIds() == [1, 2] && s2.products == [Pen, Mug];
  }

  lemma RunThree(s: State, a: Request, b: Request, c: Request)
    ensures Run(s, [a, b, c]) == Run(Step(s, a).next, [b, c])
    ensures Run(s, [a, b, c]) == Step(Step(Step(s, a).next, b).next, c).next
  {
    RunCons(s, a, [b, c]);
    assert [a] + [b, c] == [a, b, c];
    RunTwo(Step(s, a).next, b, c);
  }

  lemma RunTwo(s: State, b: Request, c: Request)
    ensures Run(s, [b, c]) == Step(Step(s, b).next, c).next
  {
    RunCons(s, b, [c]);
    assert [b] + [c] == [b, c];
    RunOne(Step(s, b).next, c);
  }

  lemma AddStep(s: State, id: int)
    ensures Step(s, AddToCart(id)) == Cart.AddToCart(s, id)
  {
  }

  lemma RunOne(s: State, req: Request)
    ensures Run(s, [req]) == Step(s, req).next
  {
    assert [req][1..] == [];
  }

  lemma RunCons(s: State, req: Request, rest: seq<Request>)
    ensures Run(s, [req] + rest) == Run(Step(s, req).next, rest)
  {
    assert ([req] + rest)[1..] == rest;
  }

  lemma PenAndMugResolve()
    ensures Cart.Resolve([Pen, Mug], [1, 2]) == [Pen, Mug]
  {
    Cart.ResolveUnfold([Pen, Mug], [1, 2]);
    Cart.ResolveUnfold([Mug], [1, 2]);
    assert [Pen, Mug][1..] == [Mug];
  }

  lemma PenAndMugCost()
    ensures Orders.Sum([Pen, Mug]) + DeliveryFee == 85
  {
    Orders.SumAppend([Pen], [Mug]);
    Orders.SumSingle(Pen);
    Orders.SumSingle(Mug);
    assert [Pen] + [Mug] == [Pen, Mug];
  }

  lemma OrderPenAndMug(s: State, form: OrderForm)
    requires s.session.CartIds() == [1, 2] && s.products == [Pen, Mug]
    ensures Step(s, PlaceOrder(form)).outcome == Confirmed([Pen, Mug], 85)
  {
    PenAndMugResolve();
    PenAndMugCost();
  }

  /** Adding ids 1, 2, 1 to an empty cart over the catalog Pen (10), Mug (25)
      leaves two products in the cart, and ordering them costs 85. */
  lemma CartScenario(form: OrderForm)
    ensures var s3 := Run(Catalog2, Adds);
            && s3.session.CartIds() == [1, 2]
            && Cart.Resolve(s3.products, s3.session.CartIds()) == [Pen, Mug]
            && Step(s3, PlaceOrder(form)).outcome == Confirmed([Pen, Mug], 85)
  {
    var s3 := Run(Catalog2, Adds);
    AddsLeaveTwoIds();
    PenAndMugResolve();
    OrderPenAndMug(s3, form);
  }

  /** Cancelling position 5 of a two-entry ledger changes nothing. */
  lemma CancelOutOfRangeScenario(s: State)
    requires |s.purchases| == 2
    ensures Step(s, CancelPurchase(5)).next == s
  {
  }

  lemma MuNormalizes()
    ensures Catalog.NormalizeQuery("mu") == "mu"
  {
    assert Text.StripLeft("mu") == "mu";
    assert Text.StripRight("mu") == "mu";
    assert Text.Lower("mu") == "mu";
  }

  lemma PenDoesNotMatchMu()
    ensures !Catalog.NameMatches(Pen, "mu")
  {
    assert Text.Lower("Pen") == "pen";
    assert "pen"[..2][0] != "mu"[0];
    assert "pen"[1..] == "en";
    assert "en"[..2][0] != "mu"[0];
    assert "en"[1..] == "n";
  }

  lemma MugMatchesMu()
    ensures Catalog.NameMatches(Mug, "mu")
  {
    assert Text.Lower("Mug") == "mug";
    assert "mug"[..2] == "mu";
  }

  /** Searching "mu" over Pen and Mug finds only Mug. */
  lemma SearchScenario()
    ensures Catalog.Search([Pen, Mug], "mu") == [Mug]
  {
    MuNormalizes();
    PenDoesNotMatchMu();
    MugMatchesMu();
    var keep := (p: Product) => Catalog.NameMatches(p, "mu");
    assert [Pen, Mug][1..] == [Mug];
    assert Filter([Mug], keep) == [Mug];
    assert Filter([Pen, Mug], keep) == Filter([Mug], keep);
  }
}
