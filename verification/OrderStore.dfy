/** The demo order store: three tables, seeding, cascading deletion and idempotent orders. */
module OrderStore {
  import opened Redis
  import opened Text

  type Key = (string, string)

  datatype Product = Product(name: string, price: int)

  datatype OrderRequest = OrderRequest(id: string, product: string, quantity: int)

  datatype Receipt = Receipt(id: string, product: string, quantity: int, total: int)

  /** The serialized request and response determine these values and are determined by them. */
  datatype Order = Order(request: OrderRequest, response: Receipt)

  datatype Tables = Tables(namespaces: map<string, int>, products: map<Key, Product>, orders: map<Key, Order>)

  const EMPTY := Tables(map[], map[], map[])

  /** The draws of a generator, by seed and position. */
  type Prices = (int, nat) -> int

  datatype Call = Seed(seed: int) | Delete | Place(order: OrderRequest)

  datatype Reply = Seeded(seed: int) | Deleted | Confirmed(receipt: Receipt) | Conflict | NotFound | Invalid
    | ServerError

  const NAMES := ["Phone", "Tablet", "Watch"]

  /** Products are numbered from 1. */
  function ProductId(i: nat): string { "product-" + Decimal(i + 1) }

  predicate IsProduct(id: string) { exists i | 0 <= i < |NAMES| :: id == ProductId(i) }

  function SeededProduct(prices: Prices, seed: int, i: nat): Product
    requires i < |NAMES|
  {
    Product(NAMES[i], prices(seed, i))
  }

  /** Integers a column can hold. */
  predicate Fits(n: int) { -0x8000_0000_0000_0000 <= n < 0x8000_0000_0000_0000 }

  /** The request model: an id of 1 to 50 lower-case letters, digits and hyphens, and 1 to 10 pieces. */
  predicate IsRequest(order: OrderRequest) {
    && 1 <= |order.id| <= 50
    && (forall i :: 0 <= i < |order.id| ==> IsDigit(order.id[i]) || 'a' <= order.id[i] <= 'z' || order.id[i] == '-')
    && 1 <= order.quantity <= 10
  }

  // Specification

  /** INSERT OR IGNORE of the first n products. */
  function WithProducts(prices: Prices, products: map<Key, Product>, ns: string, seed: int, n: nat): map<Key, Product>
    requires n <= |NAMES|
  {
    if n == 0 then products
    else
      var before := WithProducts(prices, products, ns, seed, n - 1);
      if (ns, ProductId(n - 1)) in before then before
      else before[(ns, ProductId(n - 1)) := SeededProduct(prices, seed, n - 1)]
  }

  function SeedNamespace(prices: Prices, t: Tables, ns: string, seed: int): (Tables, Reply) {
    if !Fits(seed) then (t, ServerError)
    else if ns in t.namespaces && t.namespaces[ns] != seed then (t, Conflict)
    else (Tables(t.namespaces[ns := seed], WithProducts(prices, t.products, ns, seed, |NAMES|), t.orders), Seeded(seed))
  }

  function Outside<V>(m: map<Key, V>, ns: string): map<Key, V> {
    map k | k in m && k.0 != ns :: m[k]
  }

  /** The deletion of a namespace reaches its products and orders. */
  function DeleteNamespace(t: Tables, ns: string): (Tables, Reply) {
    (Tables(t.namespaces - {ns}, Outside(t.products, ns), Outside(t.orders, ns)), Deleted)
  }

  function PlaceOrder(t: Tables, ns: string, order: OrderRequest): (Tables, Reply) {
    if !IsRequest(order) then (t, Invalid)
    else if (ns, order.id) in t.orders then
      var previous := t.orders[(ns, order.id)];
      (t, if previous.request == order then Confirmed(previous.response) else Conflict)
    else if (ns, order.product) !in t.products then (t, NotFound)
    else
      var receipt := Receipt(order.id, order.product, order.quantity,
                             t.products[(ns, order.product)].price * order.quantity);
      (t.(orders := t.orders[(ns, order.id) := Order(order, receipt)]), Confirmed(receipt))
  }

  function Perform(prices: Prices, t: Tables, ns: string, call: Call): (Tables, Reply) {
    match call
    case Seed(seed) => SeedNamespace(prices, t, ns, seed)
    case Delete => DeleteNamespace(t, ns)
    case Place(order) => PlaceOrder(t, ns, order)
  }

  type History = seq<(string, Call)>

  /** The tables after all calls of a history. */
  function Run(prices: Prices, t: Tables, history: History): Tables
    decreases |history|
  {
    if history == [] then t
    else
      var last := history[|history| - 1];
      Perform(prices, Run(prices, t, history[..|history| - 1]), last.0, last.1).0
  }

  // The tables in place

  class Store {
    var namespaces: map<string, int>
    var products: map<Key, Product>
    var orders: map<Key, Order>
    const prices: Prices

    ghost function Contents(): Tables
      reads this
    {
      Tables(namespaces, products, orders)
    }

    constructor (prices: Prices)
      ensures Contents() == EMPTY && this.prices == prices
    {
      namespaces, products, orders := map[], map[], map[];
      this.prices := prices;
    }

    method Seed(ns: string, seed: int) returns (r: Reply)
      modifies this
      ensures (Contents(), r) == SeedNamespace(prices, old(Contents()), ns, seed)
    {
      if !Fits(seed) { return ServerError; }
      if ns !in namespaces { namespaces := namespaces[ns := seed]; }
      if namespaces[ns] != seed { return Conflict; }
      for i := 0 to |NAMES|
        invariant namespaces == old(namespaces)[ns := seed] && orders == old(orders)
        invariant products == WithProducts(prices, old(products), ns, seed, i)
      {
        var price := prices(seed, i);
        if (ns, ProductId(i)) !in products {
          products := products[(ns, ProductId(i)) := Product(NAMES[i], price)];
        }
      }
      assert old(ns in namespaces && namespaces[ns] == seed) ==> namespaces == old(namespaces);
      r := Reply.Seeded(seed);
    }

    method Delete(ns: string) returns (r: Reply)
      modifies this
      ensures (Contents(), r) == DeleteNamespace(old(Contents()), ns)
    {
      namespaces := namespaces - {ns};
      products := Outside(products, ns);
      orders := Outside(orders, ns);
      r := Deleted;
    }

    method Place(ns: string, order: OrderRequest) returns (r: Reply)
      modifies this`orders
      ensures (Contents(), r) == PlaceOrder(old(Contents()), ns, order)
    {
      if !IsRequest(order) { return Invalid; }
      if (ns, order.id) in orders {
        var previous := orders[(ns, order.id)];
        if previous.request != order { return Conflict; }
        return Confirmed(previous.response);
      }
      if (ns, order.product) !in products { return NotFound; }
      var receipt := Receipt(order.id, order.product, order.quantity,
                             products[(ns, order.product)].price * order.quantity);
      orders := orders[(ns, order.id) := Order(order, receipt)];
      r := Confirmed(receipt);
    }
  }

  // The invariant

  /** One of the products a seed determines. */
  ghost predicate IsSeeded(prices: Prices, seed: int, id: string, product: Product) {
    exists i :: 0 <= i < |NAMES| && id == ProductId(i) && product == SeededProduct(prices, seed, i)
  }

  ghost predicate HasAll(products: map<Key, Product>, ns: string) {
    forall i :: 0 <= i < |NAMES| ==> (ns, ProductId(i)) in products
  }

  /** Every namespace has exactly the products of its seed. */
  ghost predicate ProductsOfSeeds(prices: Prices, t: Tables) {
    && (forall k :: k in t.products ==> k.0 in t.namespaces && IsSeeded(prices, t.namespaces[k.0], k.1, t.products[k]))
    && (forall ns :: ns in t.namespaces ==> HasAll(t.products, ns))
  }

  /** Every order belongs to a live namespace, is what was asked for, and costs the current price of its
      product times its quantity. */
  ghost predicate OrdersAddUp(t: Tables) {
    forall k :: k in t.orders ==>
      var o := t.orders[k];
      && k.0 in t.namespaces && k.1 == o.request.id && IsRequest(o.request)
      && (k.0, o.request.product) in t.products
      && o.response == Receipt(k.1, o.request.product, o.request.quantity,
                               t.products[(k.0, o.request.product)].price * o.request.quantity)
  }

  ghost predicate Inv(prices: Prices, t: Tables) { ProductsOfSeeds(prices, t) && OrdersAddUp(t) }

  lemma ProductIdInjective(i: nat, j: nat)
    ensures ProductId(i) == ProductId(j) ==> i == j
  {
    DecimalValue(i + 1);
    DecimalValue(j + 1);
    assert ProductId(i)[|"product-"|..] == Decimal(i + 1) && ProductId(j)[|"product-"|..] == Decimal(j + 1);
  }

  lemma {:induction false} InsertedSome(prices: Prices, products: map<Key, Product>, ns: string, seed: int, n: nat)
    requires n <= |NAMES|
    ensures var out := WithProducts(prices, products, ns, seed, n);
      && (forall k :: k in products ==> k in out && out[k] == products[k])
      && (forall i :: 0 <= i < n ==> (ns, ProductId(i)) in out)
      && (forall k :: k in out && k !in products ==> k.0 == ns && IsSeeded(prices, seed, k.1, out[k]))
  {
    hide ProductId, SeededProduct;
    if n > 0 {
      InsertedSome(prices, products, ns, seed, n - 1);
      assert IsSeeded(prices, seed, ProductId(n - 1), SeededProduct(prices, seed, n - 1));
    }
  }

  /** Inserting the products: what is there stays, all of the namespace are there afterwards, and what is
      new is a product of the seed. */
  lemma Inserted(prices: Prices, products: map<Key, Product>, ns: string, seed: int, n: nat)
    requires n == |NAMES|
    ensures var out := WithProducts(prices, products, ns, seed, n);
      && (forall k :: k in products ==> k in out && out[k] == products[k])
      && HasAll(out, ns)
      && (forall k :: k in out && k !in products ==> k.0 == ns && IsSeeded(prices, seed, k.1, out[k]))
  {
    hide WithProducts;
    InsertedSome(prices, products, ns, seed, n);
  }

  lemma AllStay(products: map<Key, Product>, out: map<Key, Product>, ns: string)
    requires HasAll(products, ns) && forall k :: k in products && k.0 == ns ==> k in out
    ensures HasAll(out, ns)
  {
  }

  lemma SeedKeeps(prices: Prices, t: Tables, ns: string, seed: int)
    requires Inv(prices, t) && Fits(seed) && (ns in t.namespaces ==> t.namespaces[ns] == seed)
    ensures Inv(prices, SeedNamespace(prices, t, ns, seed).0)
  {
    hide WithProducts, IsSeeded, HasAll, IsRequest;
    Inserted(prices, t.products, ns, seed, |NAMES|);
    var out := SeedNamespace(prices, t, ns, seed).0;
    forall n | n in out.namespaces ensures HasAll(out.products, n) {
      if n != ns { AllStay(t.products, out.products, n); }
    }
  }

  lemma DeleteKeeps(prices: Prices, t: Tables, ns: string)
    requires Inv(prices, t)
    ensures Inv(prices, DeleteNamespace(t, ns).0)
  {
    hide IsSeeded, HasAll, IsRequest;
    var out := DeleteNamespace(t, ns).0;
    forall n | n in out.namespaces ensures HasAll(out.products, n) { AllStay(t.products, out.products, n); }
  }

  lemma PlaceKeeps(prices: Prices, t: Tables, ns: string, order: OrderRequest)
    requires Inv(prices, t)
    ensures Inv(prices, PlaceOrder(t, ns, order).0)
  {
    hide IsSeeded, HasAll, IsRequest;
  }

  lemma PerformKeeps(prices: Prices, t: Tables, ns: string, call: Call)
    requires Inv(prices, t)
    ensures Inv(prices, Perform(prices, t, ns, call).0)
  {
    hide Inv;
    match call
    case Seed(seed) =>
      if Fits(seed) && (ns in t.namespaces ==> t.namespaces[ns] == seed) { SeedKeeps(prices, t, ns, seed); }
    case Delete => DeleteKeeps(prices, t, ns);
    case Place(order) => PlaceKeeps(prices, t, ns, order);
  }

  /** Over every history of calls on an empty store. */
  lemma {:induction false} InvAlways(prices: Prices, history: History)
    ensures Inv(prices, Run(prices, EMPTY, history))
    decreases |history|
  {
    if history != [] {
      InvAlways(prices, history[..|history| - 1]);
      var last := history[|history| - 1];
      PerformKeeps(prices, Run(prices, EMPTY, history[..|history| - 1]), last.0, last.1);
    }
  }

  // Prices: after any history a live namespace has exactly three products, priced by its seed

  lemma SeededAt(prices: Prices, seed: int, i: nat, product: Product)
    requires i < |NAMES| && IsSeeded(prices, seed, ProductId(i), product)
    ensures product == SeededProduct(prices, seed, i)
  {
    hide ProductId;
    var j :| 0 <= j < |NAMES| && ProductId(i) == ProductId(j) && product == SeededProduct(prices, seed, j);
    ProductIdInjective(i, j);
  }

  lemma CatalogIsSeeded(prices: Prices, history: History, ns: string, i: nat)
    requires i < |NAMES|
    ensures var t := Run(prices, EMPTY, history);
      && (ns in t.namespaces <==> (ns, ProductId(i)) in t.products)
      && (ns in t.namespaces ==> t.products[(ns, ProductId(i))] == SeededProduct(prices, t.namespaces[ns], i))
  {
    hide Run, ProductId, SeededProduct, OrdersAddUp;
    InvAlways(prices, history);
    var t := Run(prices, EMPTY, history);
    if (ns, ProductId(i)) in t.products {
      SeededAt(prices, t.namespaces[ns], i, t.products[(ns, ProductId(i))]);
    } else {
      assert HasAll(t.products, ns) ==> (ns, ProductId(i)) in t.products;
    }
  }

  /** And no others. */
  lemma NoOtherProducts(prices: Prices, history: History, ns: string, id: string)
    ensures (ns, id) in Run(prices, EMPTY, history).products ==> IsProduct(id)
  {
    hide Run, ProductId, OrdersAddUp, HasAll;
    InvAlways(prices, history);
  }

  // Idempotence

  /** The calls of a history do not delete the namespace. */
  ghost predicate Undeleted(history: History, ns: string) {
    forall i :: 0 <= i < |history| ==> history[i] != (ns, Delete)
  }

  lemma {:induction false} OrderStays(prices: Prices, t: Tables, later: History, ns: string, id: string)
    requires (ns, id) in t.orders && Undeleted(later, ns)
    ensures (ns, id) in Run(prices, t, later).orders && Run(prices, t, later).orders[(ns, id)] == t.orders[(ns, id)]
    decreases |later|
  {
    if later != [] {
      OrderStays(prices, t, later[..|later| - 1], ns, id);
      assert later[|later| - 1] != (ns, Delete);
    }
  }

  /** An accepted order, repeated after any later calls that do not delete the namespace, gets the
      identical response and changes nothing; another body under its id is refused and changes nothing. */
  lemma {:induction false} RepeatIsIdentical(prices: Prices, t: Tables, ns: string, order: OrderRequest,
                                             later: History, other: OrderRequest)
    requires PlaceOrder(t, ns, order).1.Confirmed? && Undeleted(later, ns)
    requires other.id == order.id && IsRequest(other)
    ensures var now := Run(prices, PlaceOrder(t, ns, order).0, later);
      && PlaceOrder(now, ns, order) == (now, PlaceOrder(t, ns, order).1)
      && (other != order ==> PlaceOrder(now, ns, other) == (now, Conflict))
  {
    OrderStays(prices, PlaceOrder(t, ns, order).0, later, ns, order.id);
  }

  lemma OneDigit()
    ensures Decimal(1) == "1" && Decimal(2) == "2" && Decimal(3) == "3"
  {
  }

  lemma ProductIds()
    ensures ProductId(0) == "product-1" && ProductId(1) == "product-2" && ProductId(2) == "product-3"
    ensures forall id :: IsProduct(id) <==> id == "product-1" || id == "product-2" || id == "product-3"
  {
    hide Decimal;
    assert Decimal(1) == "1" && Decimal(2) == "2" && Decimal(3) == "3" by { OneDigit(); }
    forall id ensures IsProduct(id) <==> id == ProductId(0) || id == ProductId(1) || id == ProductId(2) { }
  }

  /** The catalog of a namespace: nothing before it is seeded and after it is deleted, else exactly these three
      products, with the draws of its seed as prices. */
  lemma Catalog(prices: Prices, history: History, ns: string)
    ensures var t := Run(prices, EMPTY, history);
      && (ns !in t.namespaces ==> forall id :: (ns, id) !in t.products)
      && (ns in t.namespaces ==>
            var seed := t.namespaces[ns];
            && (forall id :: (ns, id) in t.products <==> id == "product-1" || id == "product-2" || id == "product-3")
            && t.products[(ns, "product-1")] == Product("Phone", prices(seed, 0))
            && t.products[(ns, "product-2")] == Product("Tablet", prices(seed, 1))
            && t.products[(ns, "product-3")] == Product("Watch", prices(seed, 2)))
  {
    hide Run, ProductId, IsProduct, OrdersAddUp, HasAll, IsSeeded;
    ProductIds();
    InvAlways(prices, history);
    forall id ensures (ns, id) in Run(prices, EMPTY, history).products ==> IsProduct(id) {
      NoOtherProducts(prices, history, ns, id);
    }
    CatalogIsSeeded(prices, history, ns, 0);
    CatalogIsSeeded(prices, history, ns, 1);
    CatalogIsSeeded(prices, history, ns, 2);
  }

  /** The seeds a column can hold are accepted, unless the namespace lives with another one. */
  lemma SeedReplies(prices: Prices, t: Tables, ns: string, seed: int)
    ensures var (after, r) := SeedNamespace(prices, t, ns, seed);
      var fits := -0x8000_0000_0000_0000 <= seed < 0x8000_0000_0000_0000;
      var other := ns in t.namespaces && t.namespaces[ns] != seed;
      && (r == ServerError <==> !fits) && (r == Conflict <==> fits && other) && (r == Seeded(seed) <==> fits && !other)
      && (r != Seeded(seed) ==> after == t)
      && (r == Seeded(seed) ==> after.namespaces == t.namespaces[ns := seed] && after.orders == t.orders)
  {
  }

  /** Every reply to an order: invalid exactly for a malformed id or another quantity than 1 to 10; a conflict
      exactly for a stored id with another body; not found exactly for a new id in a namespace that does not live or
      with another product than its three; and otherwise confirmed, with the price of its seed times the quantity. */
  lemma OrderReplies(prices: Prices, history: History, ns: string, order: OrderRequest)
    ensures var t, r := Run(prices, EMPTY, history), PlaceOrder(Run(prices, EMPTY, history), ns, order).1;
      var wellFormed := 1 <= |order.id| <= 50 && 1 <= order.quantity <= 10
        && forall i :: 0 <= i < |order.id| ==>
             'a' <= order.id[i] <= 'z' || '0' <= order.id[i] <= '9' || order.id[i] == '-';
      var stored, first := (ns, order.id) in t.orders, order.product == "product-1";
      var second, third := order.product == "product-2", order.product == "product-3";
      var sold := ns in t.namespaces && (first || second || third);
      && (r == Invalid <==> !wellFormed)
      && (r == Conflict <==> wellFormed && stored && t.orders[(ns, order.id)].request != order)
      && (r == NotFound <==> wellFormed && !stored && !sold)
      && (r.Confirmed? <==> wellFormed && if stored then t.orders[(ns, order.id)].request == order else sold)
      && (r.Confirmed? ==>
            && sold
            && var i := if first then 0 else if second then 1 else 2;
               r.receipt == Receipt(order.id, order.product, order.quantity,
                                    prices(t.namespaces[ns], i) * order.quantity))
  {
    hide Run, ProductsOfSeeds;
    Catalog(prices, history, ns);
    InvAlways(prices, history);
    var t := Run(prices, EMPTY, history);
    if (ns, order.id) in t.orders { assert (ns, t.orders[(ns, order.id)].request.product) in t.products; }
  }

  lemma {:induction false} AllIgnored(prices: Prices, products: map<Key, Product>, ns: string, seed: int, n: nat)
    requires HasAll(products, ns) && n <= |NAMES|
    ensures WithProducts(prices, products, ns, seed, n) == products
  {
    hide ProductId;
    if n > 0 {
      AllIgnored(prices, products, ns, seed, n - 1);
      assert (ns, ProductId(n - 1)) in products;
    }
  }

  /** Seeding a live namespace again with its seed changes nothing. */
  lemma ReseedChangesNothing(prices: Prices, history: History, ns: string, seed: int)
    requires ns in Run(prices, EMPTY, history).namespaces && Fits(seed)
    ensures var t := Run(prices, EMPTY, history);
            SeedNamespace(prices, t, ns, seed) == (t, if t.namespaces[ns] == seed then Seeded(seed) else Conflict)
  {
    InvAlways(prices, history);
    var t := Run(prices, EMPTY, history);
    if t.namespaces[ns] == seed {
      AllIgnored(prices, t.products, ns, seed, |NAMES|);
      assert t.namespaces[ns := seed] == t.namespaces;
    }
  }

  // Isolation

  /** The rows of one namespace. */
  function Only(t: Tables, ns: string): Tables {
    Tables(map n | n in t.namespaces && n == ns :: t.namespaces[n],
           map k | k in t.products && k.0 == ns :: t.products[k],
           map k | k in t.orders && k.0 == ns :: t.orders[k])
  }

  /** The calls on one namespace. */
  function CallsOn(history: History, ns: string): History
    decreases |history|
  {
    if history == [] then []
    else
      var last := history[|history| - 1];
      CallsOn(history[..|history| - 1], ns) + if last.0 == ns then [last] else []
  }

  function OnlyProducts(products: map<Key, Product>, ns: string): map<Key, Product> {
    map k | k in products && k.0 == ns :: products[k]
  }

  lemma {:induction false} InsertOnly(prices: Prices, products: map<Key, Product>, to: string, seed: int, n: nat,
                                      ns: string)
    requires n <= |NAMES|
    ensures OnlyProducts(WithProducts(prices, products, to, seed, n), ns)
         == if to == ns then WithProducts(prices, OnlyProducts(products, ns), to, seed, n)
           else OnlyProducts(products, ns)
  {
    hide ProductId;
    if n > 0 { InsertOnly(prices, products, to, seed, n - 1, ns); }
  }

  lemma OnlyParts(t: Tables, ns: string)
    ensures Only(t, ns).products == OnlyProducts(t.products, ns)
    ensures Only(t, ns).namespaces == if ns in t.namespaces then map[ns := t.namespaces[ns]] else map[]
  {
  }

  lemma OnlySeed(namespaces: map<string, int>, ns: string, seed: int)
    ensures (if ns in namespaces then map[ns := namespaces[ns]] else map[])[ns := seed] == map[ns := seed]
  {
  }

  lemma SeedOnly(prices: Prices, t: Tables, to: string, seed: int, ns: string)
    ensures to == ns ==> SeedNamespace(prices, t, to, seed).1 == SeedNamespace(prices, Only(t, ns), to, seed).1
    ensures Only(SeedNamespace(prices, t, to, seed).0, ns)
         == if to == ns then SeedNamespace(prices, Only(t, ns), to, seed).0 else Only(t, ns)
  {
    hide WithProducts;
    InsertOnly(prices, t.products, to, seed, |NAMES|, ns);
    OnlyParts(t, ns);
    OnlyParts(SeedNamespace(prices, t, to, seed).0, ns);
    if to == ns { OnlySeed(t.namespaces, ns, seed); }
  }

  lemma DeleteOnly(t: Tables, to: string, ns: string)
    ensures Only(DeleteNamespace(t, to).0, ns) == if to == ns then DeleteNamespace(Only(t, ns), to).0 else Only(t, ns)
  {
  }

  lemma PlaceOnly(t: Tables, to: string, order: OrderRequest, ns: string)
    ensures to == ns ==> PlaceOrder(t, to, order).1 == PlaceOrder(Only(t, ns), to, order).1
    ensures Only(PlaceOrder(t, to, order).0, ns)
              == if to == ns then PlaceOrder(Only(t, ns), to, order).0 else Only(t, ns)
  {
    hide IsRequest;
  }

  lemma PerformOnly(prices: Prices, t: Tables, to: string, call: Call, ns: string)
    ensures to == ns ==> Perform(prices, t, to, call).1 == Perform(prices, Only(t, ns), to, call).1
    ensures Only(Perform(prices, t, to, call).0, ns)
         == if to == ns then Perform(prices, Only(t, ns), to, call).0 else Only(t, ns)
  {
    hide Only, SeedNamespace, PlaceOrder;
    match call
    case Seed(seed) => SeedOnly(prices, t, to, seed, ns);
    case Delete => DeleteOnly(t, to, ns);
    case Place(order) => PlaceOnly(t, to, order, ns);
  }

  lemma RunOneMore(prices: Prices, t: Tables, history: History, last: (string, Call))
    ensures Run(prices, t, history + [last]) == Perform(prices, Run(prices, t, history), last.0, last.1).0
  {
    assert (history + [last])[..|history|] == history;
  }

  lemma OnlyEmpty(ns: string)
    ensures Only(EMPTY, ns) == EMPTY
  {
  }

  /** A namespace's rows and the replies it gets depend only on the calls made on it. */
  lemma {:induction false} Isolation(prices: Prices, history: History, ns: string, call: Call)
    ensures Only(Run(prices, EMPTY, history), ns) == Run(prices, EMPTY, CallsOn(history, ns))
    ensures Perform(prices, Run(prices, EMPTY, history), ns, call).1
         == Perform(prices, Run(prices, EMPTY, CallsOn(history, ns)), ns, call).1
    decreases |history|
  {
    hide Perform, Only;
    if history == [] {
      OnlyEmpty(ns);
    } else {
      var before, last := history[..|history| - 1], history[|history| - 1];
      Isolation(prices, before, ns, call);
      PerformOnly(prices, Run(prices, EMPTY, before), last.0, last.1, ns);
      if last.0 == ns {
        assert CallsOn(history, ns) == CallsOn(before, ns) + [last];
        RunOneMore(prices, EMPTY, CallsOn(before, ns), last);
      } else {
        assert CallsOn(history, ns) == CallsOn(before, ns);
      }
    }
    PerformOnly(prices, Run(prices, EMPTY, history), ns, call, ns);
  }

  lemma DeletedIsEmpty(t: Tables, ns: string)
    ensures Only(DeleteNamespace(t, ns).0, ns) == EMPTY
  {
  }

  /** A deleted namespace is as if it had never been used. */
  lemma DeleteStartsAfresh(prices: Prices, history: History, ns: string)
    requires history != [] && history[|history| - 1] == (ns, Delete)
    ensures Only(Run(prices, EMPTY, history), ns) == EMPTY
  {
    hide Only;
    DeletedIsEmpty(Run(prices, EMPTY, history[..|history| - 1]), ns);
  }
}
