/** The storefront's records, its per-request session and the state a request
    handler reads and writes. Each persisted collection (products, categories,
    users, purchases) is held as the sequence its JSON file would load to. */
module Types {

  datatype Option<+T> = None | Some(value: T)

  /** A catalog entry; `id` is assigned as "count + 1" when it is created. */
  datatype Product = Product(id: int, name: string, price: int, image: string)

  datatype Category = Category(name: string, image: string)

  /** A registered account; the password is kept and compared verbatim. */
  datatype User = User(username: string, password: string)

  /** The customer's details as submitted; an absent form field is `None`. */
  datatype OrderForm = OrderForm(name: Option<string>, address: Option<string>, contact: Option<string>)

  /** One ledger entry: a snapshot of the products bought and the total charged. */
  datatype Purchase = Purchase(items: seq<Product>, name: Option<string>, address: Option<string>,
                               contact: Option<string>, total: int)

  /** The signed-cookie session of one visitor. `cart` is `None` until the
      first cart interaction creates the key. */
  datatype Session = Session(cart: Option<seq<int>>, loggedIn: bool, username: Option<string>)
  {
    /** The stored product ids; an absent cart reads as an empty one. */
    function CartIds(): seq<int> {
      if cart.Some? then cart.value else []
    }
  }

  datatype State = State(products: seq<Product>, categories: seq<Category>, users: seq<User>,
                         purchases: seq<Purchase>, session: Session)

  datatype Verb = Get | Post

  /** Where a redirect sends the browser. */
  datatype Page = IndexPage | CartPage | LoginPage | PurchasesPage

  /** Why a submitted form was turned away. */
  datatype Reason =
    | MissingFields        // add_product without name, price or image (HTTP 400)
    | MissingNameOrImage   // add_category without name or image (HTTP 400)
    | EmptyField           // registration with a blank field
    | PasswordMismatch     // registration whose confirmation differs
    | UsernameTaken        // registration of an existing username

  /** What a handler answers, with the rendered template reduced to its data. */
  datatype Outcome =
    | Redirect(to: Page)
    | NotFound
    | Rejected(reason: Reason)
    | InvalidCredentials
    | Confirmed(items: seq<Product>, total: int)
    | Home(products: seq<Product>, categories: seq<Category>)
    | Listing(products: seq<Product>)
    | Detail(product: Product)
    | CheckoutForm(items: seq<Product>)
    | Ledger(purchases: seq<Purchase>)
    | Form
    | Static               // a template rendered without data (settings, thank-you)

  datatype Response = Response(next: State, outcome: Outcome)

  /** The flat delivery charge added to every order. */
  const DeliveryFee: int := 50

  /** The hard-coded administrator identity, checked before the user file. */
  const AdminUsername: string := "admin"
  const AdminPassword: string := "admin123"

  /** A visitor with no session keys and empty collections. */
  const Initial: State := State([], [], [], [], Session(None, false, None))
}
