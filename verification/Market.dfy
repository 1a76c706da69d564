/** `build_subscriptions`: one batched load per table, joined with hash maps, instead of queries per row. */
module Market {
  import opened Wrappers

  const I32_MIN := -0x8000_0000
  type I32 = x: int | I32_MIN <= x < 0x8000_0000

  // ----- The rows, each table in the order its query delivers it -----

  datatype Product = Product(id: int, price: I32)
  datatype Author = Author(id: int, name: string)
  datatype Payment = Payment(id: int, purchaseId: int, amount: I32, currency: I32, createdAt: int)
  datatype Purchase =
    Purchase(id: int, buyerId: int, productId: int, subscriptionId: Option<int>, createdAt: int)
  datatype Subscription = Subscription(id: int, buyerId: int, productId: int, createdAt: int)

  datatype Query = SubscriptionsQuery | ProductsQuery | PurchasesQuery | PaymentsQuery | AuthorsQuery

  datatype Database = Database(
    subscriptions: seq<Subscription>,
    products: seq<Product>,
    purchases: seq<Purchase>,
    payments: seq<Payment>,
    authors: seq<Author>,
    failing: set<Query>)

  // ----- The messages built from them -----

  datatype Money = Money(amount: nat, currency: nat, createdAt: int)
  datatype PurchaseView =
    PurchaseView(purchase: Purchase, buyer: Author, product: Product, payments: seq<Money>, refunds: seq<Money>)
  datatype SubscriptionView =
    SubscriptionView(subscription: Subscription, buyer: Author, product: Product, history: seq<PurchaseView>)

  /** Rust's `as u32`. */
  function AsU32(x: I32): nat {
    if x < 0 then x + 0x1_0000_0000 else x
  }

  /** Rust's unary minus where overflow wraps. */
  function Negated(x: I32): I32 {
    if x == I32_MIN then x else -x
  }

  function MarketPayments(rows: seq<Payment>): seq<Money> {
    if rows == [] then []
    else
      var p := rows[0];
      (if p.amount >= 0 then [Money(AsU32(p.amount), AsU32(p.currency), p.createdAt)] else [])
      + MarketPayments(rows[1..])
  }

  function MarketRefunds(rows: seq<Payment>): seq<Money> {
    if rows == [] then []
    else
      var p := rows[0];
      (if p.amount < 0 then [Money(AsU32(Negated(p.amount)), AsU32(p.currency), p.createdAt)] else [])
      + MarketRefunds(rows[1..])
  }

  function PurchaseToProto(purchase: Purchase, buyer: Author, product: Product, rows: seq<Payment>): PurchaseView {
    PurchaseView(purchase, buyer, product, MarketPayments(rows), MarketRefunds(rows))
  }

  // ----- Payments and refunds keep the books -----

  function MoneyTotal(items: seq<Money>, currency: nat): nat {
    if items == [] then 0
    else (if items[0].currency == currency then items[0].amount else 0) + MoneyTotal(items[1..], currency)
  }

  function SignedTotal(rows: seq<Payment>, currency: I32): int {
    if rows == [] then 0
    else (if rows[0].currency == currency then rows[0].amount else 0) + SignedTotal(rows[1..], currency)
  }

  /** Every row is a payment or a refund, and in each currency they balance to the signed amounts:
      no amount is lost to the casts, not even the least one, whose negation wraps. */
  lemma {:induction false} PaymentsMinusRefunds(rows: seq<Payment>, currency: I32)
    ensures |MarketPayments(rows)| + |MarketRefunds(rows)| == |rows|
    ensures MoneyTotal(MarketPayments(rows), AsU32(currency)) - MoneyTotal(MarketRefunds(rows), AsU32(currency))
         == SignedTotal(rows, currency)
  {
    if rows != [] {
      PaymentsMinusRefunds(rows[1..], currency);
      var p := rows[0];
      var payments, refunds := MarketPayments(rows[1..]), MarketRefunds(rows[1..]);
      if p.amount >= 0 {
        var first := Money(AsU32(p.amount), AsU32(p.currency), p.createdAt);
        assert MarketPayments(rows) == [first] + payments;
        assert MarketRefunds(rows) == refunds;
      } else {
        var first := Money(AsU32(Negated(p.amount)), AsU32(p.currency), p.createdAt);
        assert MarketPayments(rows) == payments;
        assert MarketRefunds(rows) == [first] + refunds;
      }
    }
  }

  // ----- The queries: an SQL filter keeps rows in the order of the table -----

  function Keep<T>(rows: seq<T>, wanted: T -> bool): (kept: seq<T>)
    ensures forall r <- kept :: r in rows && wanted(r)
    ensures forall r <- rows :: wanted(r) ==> r in kept
  {
    if rows == [] then []
    else
      var last := rows[|rows| - 1];
      assert rows == rows[..|rows| - 1] + [last];
      Keep(rows[..|rows| - 1], wanted) + (if wanted(last) then [last] else [])
  }

  function LastOf<T>(rows: seq<T>, wanted: T -> bool): Option<T> {
    if rows == [] then None
    else if wanted(rows[|rows| - 1]) then Some(rows[|rows| - 1])
    else LastOf(rows[..|rows| - 1], wanted)
  }

  function ProductNamed(id: int): Product -> bool { (p: Product) => p.id == id }
  function AuthorNamed(id: int): Author -> bool { (a: Author) => a.id == id }
  function PaymentFor(purchaseId: int): Payment -> bool { (p: Payment) => p.purchaseId == purchaseId }
  function BilledTo(subscriptionId: int): Purchase -> bool { (p: Purchase) => p.subscriptionId == Some(subscriptionId) }

  function ProductAmong(ids: set<int>): Product -> bool { (p: Product) => p.id in ids }
  function AuthorAmong(ids: set<int>): Author -> bool { (a: Author) => a.id in ids }
  function PaymentAmong(ids: set<int>): Payment -> bool { (p: Payment) => p.purchaseId in ids }
  function BilledAmong(ids: set<int>): Purchase -> bool {
    (p: Purchase) => p.subscriptionId.Some? && p.subscriptionId.value in ids
  }
  function BoughtAmong(ids: set<int>): Subscription -> bool { (s: Subscription) => s.buyerId in ids }

  // ----- The join, row by row, straight from the tables -----

  /** What a batch may show: the products and buyers its own subscriptions name. */
  datatype Scope = Scope(productIds: set<int>, buyerIds: set<int>)

  function ScopeOf(subscriptions: seq<Subscription>): Scope {
    Scope(set s <- subscriptions :: s.productId, set s <- subscriptions :: s.buyerId)
  }

  function ProductIn(db: Database, scope: Scope, id: int): Option<Product> {
    if id in scope.productIds then LastOf(db.products, ProductNamed(id)) else None
  }

  /** An authors query that fails is answered with no authors. */
  function BuyerIn(db: Database, scope: Scope, id: int): Option<Author> {
    if id in scope.buyerIds && AuthorsQuery !in db.failing then LastOf(db.authors, AuthorNamed(id)) else None
  }

  function PurchaseEntry(db: Database, scope: Scope, purchase: Purchase): seq<PurchaseView> {
    match (ProductIn(db, scope, purchase.productId), BuyerIn(db, scope, purchase.buyerId))
    case (Some(product), Some(buyer)) =>
      [PurchaseToProto(purchase, buyer, product, Keep(db.payments, PaymentFor(purchase.id)))]
    case _ => []
  }

  function PurchaseEntries(db: Database, scope: Scope, purchases: seq<Purchase>): seq<PurchaseView> {
    if purchases == [] then []
    else
      PurchaseEntries(db, scope, purchases[..|purchases| - 1])
      + PurchaseEntry(db, scope, purchases[|purchases| - 1])
  }

  function History(db: Database, scope: Scope, subscriptionId: int): seq<PurchaseView> {
    PurchaseEntries(db, scope, Keep(db.purchases, BilledTo(subscriptionId)))
  }

  function SubscriptionEntry(db: Database, scope: Scope, s: Subscription): seq<(int, SubscriptionView)> {
    match (ProductIn(db, scope, s.productId), BuyerIn(db, scope, s.buyerId))
    case (Some(product), Some(buyer)) =>
      [(s.buyerId, SubscriptionView(s, buyer, product, History(db, scope, s.id)))]
    case _ => []
  }

  function Joined(db: Database, scope: Scope, subscriptions: seq<Subscription>): seq<(int, SubscriptionView)> {
    if subscriptions == [] then []
    else
      Joined(db, scope, subscriptions[..|subscriptions| - 1])
      + SubscriptionEntry(db, scope, subscriptions[|subscriptions| - 1])
  }

  // ----- The loaded rows hold everything the join needs -----

  lemma {:induction false} KeepLoaded<T>(rows: seq<T>, loaded: T -> bool, wanted: T -> bool)
    requires forall r <- rows :: wanted(r) ==> loaded(r)
    ensures Keep(Keep(rows, loaded), wanted) == Keep(rows, wanted)
  {
    if rows != [] {
      var front, last := rows[..|rows| - 1], rows[|rows| - 1];
      KeepLoaded(front, loaded, wanted);
      if loaded(last) {
        KeepSnoc(Keep(front, loaded), last, wanted);
      } else {
        assert Keep(rows, loaded) == Keep(front, loaded);
      }
    }
  }

  lemma KeepSnoc<T>(rows: seq<T>, last: T, wanted: T -> bool)
    ensures Keep(rows + [last], wanted) == Keep(rows, wanted) + if wanted(last) then [last] else []
  {
    assert (rows + [last])[..|rows|] == rows;
  }

  lemma {:induction false} LastLoaded<T>(rows: seq<T>, loaded: T -> bool, wanted: T -> bool, present: bool)
    requires forall r <- rows :: wanted(r) ==> loaded(r) == present
    ensures LastOf(Keep(rows, loaded), wanted) == if present then LastOf(rows, wanted) else None
  {
    if rows != [] {
      var front, last := rows[..|rows| - 1], rows[|rows| - 1];
      assert rows == front + [last];
      LastLoaded(front, loaded, wanted, present);
      if loaded(last) {
        assert (Keep(front, loaded) + [last])[..|Keep(front, loaded)|] == Keep(front, loaded);
      } else {
        assert Keep(rows, loaded) == Keep(front, loaded);
      }
    }
  }

  // ----- Primary keys -----

  predicate UniquePurchases(rows: seq<Purchase>) {
    forall i, j :: 0 <= i < j < |rows| ==> rows[i].id != rows[j].id
  }

  predicate UniqueSubscriptions(rows: seq<Subscription>) {
    forall i, j :: 0 <= i < j < |rows| ==> rows[i].id != rows[j].id
  }

  lemma {:induction false} UniqueKept(rows: seq<Purchase>, wanted: Purchase -> bool)
    requires UniquePurchases(rows)
    ensures UniquePurchases(Keep(rows, wanted))
  {
    if rows != [] {
      var front := rows[..|rows| - 1];
      UniqueKept(front, wanted);
      assert forall p <- front :: p.id != rows[|rows| - 1].id;
    }
  }

  // ----- The batched join -----

  function Get<T>(m: map<int, T>, key: int): Option<T> {
    if key in m then Some(m[key]) else None
  }

  function GetOrEmpty<T>(m: map<int, seq<T>>, key: int): seq<T> {
    if key in m then m[key] else []
  }

  method ProductsById(rows: seq<Product>) returns (byId: map<int, Product>)
    ensures forall id :: Get(byId, id) == LastOf(rows, ProductNamed(id))
  {
    byId := map[];
    for i := 0 to |rows|
      invariant forall id :: Get(byId, id) == LastOf(rows[..i], ProductNamed(id))
    {
      assert rows[..i + 1][..i] == rows[..i];
      byId := byId[rows[i].id := rows[i]];
    }
    assert rows[..|rows|] == rows;
  }

  method AuthorsById(rows: seq<Author>) returns (byId: map<int, Author>)
    ensures forall id :: Get(byId, id) == LastOf(rows, AuthorNamed(id))
  {
    byId := map[];
    for i := 0 to |rows|
      invariant forall id :: Get(byId, id) == LastOf(rows[..i], AuthorNamed(id))
    {
      assert rows[..i + 1][..i] == rows[..i];
      byId := byId[rows[i].id := rows[i]];
    }
    assert rows[..|rows|] == rows;
  }

  method GroupPayments(rows: seq<Payment>) returns (byPurchase: map<int, seq<Payment>>)
    ensures forall id :: GetOrEmpty(byPurchase, id) == Keep(rows, PaymentFor(id))
  {
    byPurchase := map[];
    for i := 0 to |rows|
      invariant forall id :: GetOrEmpty(byPurchase, id) == Keep(rows[..i], PaymentFor(id))
    {
      assert rows[..i + 1][..i] == rows[..i];
      var key := rows[i].purchaseId;
      byPurchase := byPurchase[key := GetOrEmpty(byPurchase, key) + [rows[i]]];
    }
    assert rows[..|rows|] == rows;
  }

  /** The histories collected from `rows`, by subscription. */
  ghost predicate Grouped(db: Database, scope: Scope, histories: map<int, seq<PurchaseView>>, rows: seq<Purchase>) {
    forall id :: GetOrEmpty(histories, id) == PurchaseEntries(db, scope, Keep(rows, BilledTo(id)))
  }

  /** What one more row adds to a history. */
  lemma EntriesSnoc(db: Database, scope: Scope, rows: seq<Purchase>, last: Purchase, id: int)
    ensures PurchaseEntries(db, scope, Keep(rows + [last], BilledTo(id)))
         == PurchaseEntries(db, scope, Keep(rows, BilledTo(id)))
          + if last.subscriptionId == Some(id) then PurchaseEntry(db, scope, last) else []
  {
    hide PurchaseEntry, Keep;
    KeepSnoc(rows, last, BilledTo(id));
    var kept := Keep(rows, BilledTo(id));
    if last.subscriptionId == Some(id) {
      assert (kept + [last])[..|kept|] == kept;
    } else {
      assert kept + [] == kept;
    }
  }

  lemma GroupedSkip(
      db: Database, scope: Scope, histories: map<int, seq<PurchaseView>>, rows: seq<Purchase>, last: Purchase)
    requires Grouped(db, scope, histories, rows)
    requires last.subscriptionId.None? || PurchaseEntry(db, scope, last) == []
    ensures Grouped(db, scope, histories, rows + [last])
  {
    hide Keep, PurchaseEntries, PurchaseEntry;
    forall id ensures GetOrEmpty(histories, id) == PurchaseEntries(db, scope, Keep(rows + [last], BilledTo(id))) {
      EntriesSnoc(db, scope, rows, last, id);
    }
  }

  lemma GroupedAdd(
      db: Database, scope: Scope, histories: map<int, seq<PurchaseView>>, rows: seq<Purchase>, last: Purchase,
      proto: PurchaseView)
    requires Grouped(db, scope, histories, rows)
    requires last.subscriptionId.Some? && PurchaseEntry(db, scope, last) == [proto]
    ensures var key := last.subscriptionId.value;
      Grouped(db, scope, histories[key := GetOrEmpty(histories, key) + [proto]], rows + [last])
  {
    hide Keep, PurchaseEntries, PurchaseEntry;
    var key := last.subscriptionId.value;
    var after := histories[key := GetOrEmpty(histories, key) + [proto]];
    forall id ensures GetOrEmpty(after, id) == PurchaseEntries(db, scope, Keep(rows + [last], BilledTo(id))) {
      EntriesSnoc(db, scope, rows, last, id);
      assert GetOrEmpty(histories, id) == PurchaseEntries(db, scope, Keep(rows, BilledTo(id)));
    }
  }

  lemma GroupedNone(db: Database, scope: Scope)
    ensures Grouped(db, scope, map[], [])
  {
  }

  lemma EntryLookup(
      db: Database, scope: Scope, purchase: Purchase, productsById: map<int, Product>, authorsById: map<int, Author>)
    requires Get(productsById, purchase.productId) == ProductIn(db, scope, purchase.productId)
    requires Get(authorsById, purchase.buyerId) == BuyerIn(db, scope, purchase.buyerId)
    ensures PurchaseEntry(db, scope, purchase)
         == if purchase.productId in productsById && purchase.buyerId in authorsById then
              [PurchaseToProto(purchase, authorsById[purchase.buyerId], productsById[purchase.productId],
                               Keep(db.payments, PaymentFor(purchase.id)))]
            else
              []
  {
    hide ProductIn, BuyerIn, PurchaseToProto, Keep;
  }

  method GroupPurchases(
      ghost db: Database, ghost scope: Scope, purchases: seq<Purchase>,
      productsById: map<int, Product>, authorsById: map<int, Author>, paymentsByPurchase: map<int, seq<Payment>>)
    returns (histories: map<int, seq<PurchaseView>>)
    requires UniquePurchases(purchases)
    requires forall id :: Get(productsById, id) == ProductIn(db, scope, id)
    requires forall id :: Get(authorsById, id) == BuyerIn(db, scope, id)
    requires forall p <- purchases :: GetOrEmpty(paymentsByPurchase, p.id) == Keep(db.payments, PaymentFor(p.id))
    ensures Grouped(db, scope, histories, purchases)
  {
    hide Keep, ProductIn, BuyerIn, PurchaseToProto, Grouped, PurchaseEntry;
    GroupedNone(db, scope);
    histories := map[];
    var remaining := paymentsByPurchase;
    assert purchases[..0] == [];
    for i := 0 to |purchases|
      invariant forall j :: i <= j < |purchases| ==>
        GetOrEmpty(remaining, purchases[j].id) == Keep(db.payments, PaymentFor(purchases[j].id))
      invariant Grouped(db, scope, histories, purchases[..i])
    {
      var purchase := purchases[i];
      assert purchases[..i + 1] == purchases[..i] + [purchase];
      EntryLookup(db, scope, purchase, productsById, authorsById);
      if purchase.subscriptionId.None?
         || purchase.productId !in productsById
         || purchase.buyerId !in authorsById {
        GroupedSkip(db, scope, histories, purchases[..i], purchase);
        continue;
      }
      var paymentRows := GetOrEmpty(remaining, purchase.id);
      remaining := remaining - {purchase.id};
      var proto :=
        PurchaseToProto(purchase, authorsById[purchase.buyerId], productsById[purchase.productId], paymentRows);
      var key := purchase.subscriptionId.value;
      GroupedAdd(db, scope, histories, purchases[..i], purchase, proto);
      histories := histories[key := GetOrEmpty(histories, key) + [proto]];
    }
    assert purchases[..|purchases|] == purchases;
  }

  /** What one batched load answers. */
  function Answer(db: Database, subscriptions: seq<Subscription>): Result<seq<(int, SubscriptionView)>, string> {
    if subscriptions == [] then
      Ok([])
    else if ProductsQuery in db.failing then
      Err("failed_to_load_products")
    else if PurchasesQuery in db.failing then
      Err("failed_to_load_purchases")
    else if PaymentsQuery in db.failing && (exists p <- db.purchases :: BilledAmong(IdsOf(subscriptions))(p)) then
      Err("failed_to_load_payments")
    else
      Ok(Joined(db, ScopeOf(subscriptions), subscriptions))
  }

  function IdsOf(subscriptions: seq<Subscription>): set<int> {
    set s <- subscriptions :: s.id
  }

  method BuildSubscriptions(subscriptions: seq<Subscription>, db: Database)
    returns (answer: Result<seq<(int, SubscriptionView)>, string>)
    requires UniqueSubscriptions(subscriptions) && UniquePurchases(db.purchases)
    ensures answer == Answer(db, subscriptions)
  {
    hide Keep, Joined, PurchaseEntries, LastOf, UniquePurchases;
    if subscriptions == [] {
      return Ok([]);
    }
    var ids := IdsOf(subscriptions);
    var scope := ScopeOf(subscriptions);
    if ProductsQuery in db.failing {
      return Err("failed_to_load_products");
    }
    var productsById := ProductsById(Keep(db.products, ProductAmong(scope.productIds)));
    if PurchasesQuery in db.failing {
      return Err("failed_to_load_purchases");
    }
    var purchases := Keep(db.purchases, BilledAmong(ids));
    UniqueKept(db.purchases, BilledAmong(ids));
    var purchaseIds := set p <- purchases :: p.id;
    NeedsPayments(db, subscriptions);
    if purchaseIds != {} && PaymentsQuery in db.failing {
      return Err("failed_to_load_payments");
    }
    var payments := Keep(db.payments, PaymentAmong(purchaseIds));
    var paymentsByPurchase := GroupPayments(payments);
    var authors := if AuthorsQuery in db.failing then [] else Keep(db.authors, AuthorAmong(scope.buyerIds));
    var authorsById := AuthorsById(authors);
    LoadedRows(db, subscriptions, scope, purchases, purchaseIds);
    var histories := GroupPurchases(db, scope, purchases, productsById, authorsById, paymentsByPurchase);
    var result := Assemble(db, scope, subscriptions, productsById, authorsById, histories);
    answer := Ok(result);
  }

  lemma NeedsPayments(db: Database, subscriptions: seq<Subscription>)
    ensures var purchases := Keep(db.purchases, BilledAmong(IdsOf(subscriptions)));
      (set p <- purchases :: p.id) != {} <==> exists p <- db.purchases :: BilledAmong(IdsOf(subscriptions))(p)
  {
    hide Keep, IdsOf;
    var purchases := Keep(db.purchases, BilledAmong(IdsOf(subscriptions)));
    var ids := set p <- purchases :: p.id;
    if p :| p in db.purchases && BilledAmong(IdsOf(subscriptions))(p) {
      assert p in purchases;
      assert p.id in ids;
    }
    if ids != {} {
      var id :| id in ids;
      var p :| p in purchases && p.id == id;
    }
  }

  lemma LoadedRows(
      db: Database, subscriptions: seq<Subscription>, scope: Scope, purchases: seq<Purchase>, purchaseIds: set<int>)
    requires purchases == Keep(db.purchases, BilledAmong(IdsOf(subscriptions)))
    requires purchaseIds == set p <- purchases :: p.id
    ensures forall id :: LastOf(Keep(db.products, ProductAmong(scope.productIds)), ProductNamed(id))
                      == ProductIn(db, scope, id)
    ensures forall id ::
      LastOf(if AuthorsQuery in db.failing then [] else Keep(db.authors, AuthorAmong(scope.buyerIds)), AuthorNamed(id))
      == BuyerIn(db, scope, id)
    ensures forall p <- purchases ::
      Keep(Keep(db.payments, PaymentAmong(purchaseIds)), PaymentFor(p.id)) == Keep(db.payments, PaymentFor(p.id))
    ensures forall s <- subscriptions :: PurchaseEntries(db, scope, Keep(purchases, BilledTo(s.id)))
                                      == History(db, scope, s.id)
  {
    hide Keep, PurchaseEntries;
    forall id
      ensures LastOf(Keep(db.products, ProductAmong(scope.productIds)), ProductNamed(id)) == ProductIn(db, scope, id)
    {
      LastLoaded(db.products, ProductAmong(scope.productIds), ProductNamed(id), id in scope.productIds);
    }
    forall id
      ensures LastOf(if AuthorsQuery in db.failing then [] else Keep(db.authors, AuthorAmong(scope.buyerIds)),
                     AuthorNamed(id))
           == BuyerIn(db, scope, id)
    {
      LastLoaded(db.authors, AuthorAmong(scope.buyerIds), AuthorNamed(id), id in scope.buyerIds);
    }
    forall p <- purchases
      ensures Keep(Keep(db.payments, PaymentAmong(purchaseIds)), PaymentFor(p.id))
           == Keep(db.payments, PaymentFor(p.id))
    {
      KeepLoaded(db.payments, PaymentAmong(purchaseIds), PaymentFor(p.id));
    }
    forall s <- subscriptions
      ensures PurchaseEntries(db, scope, Keep(purchases, BilledTo(s.id))) == History(db, scope, s.id)
    {
      KeepLoaded(db.purchases, BilledAmong(IdsOf(subscriptions)), BilledTo(s.id));
    }
  }

  method Assemble(
      ghost db: Database, ghost scope: Scope, subscriptions: seq<Subscription>,
      productsById: map<int, Product>, authorsById: map<int, Author>, histories: map<int, seq<PurchaseView>>)
    returns (result: seq<(int, SubscriptionView)>)
    requires UniqueSubscriptions(subscriptions)
    requires forall id :: Get(productsById, id) == ProductIn(db, scope, id)
    requires forall id :: Get(authorsById, id) == BuyerIn(db, scope, id)
    requires forall s <- subscriptions :: GetOrEmpty(histories, s.id) == History(db, scope, s.id)
    ensures result == Joined(db, scope, subscriptions)
  {
    hide ProductIn, BuyerIn, History;
    result := [];
    var remaining := histories;
    for i := 0 to |subscriptions|
      invariant forall j :: i <= j < |subscriptions| ==>
        GetOrEmpty(remaining, subscriptions[j].id) == History(db, scope, subscriptions[j].id)
      invariant result == Joined(db, scope, subscriptions[..i])
    {
      var s := subscriptions[i];
      assert subscriptions[..i + 1][..i] == subscriptions[..i];
      assert Get(productsById, s.productId) == ProductIn(db, scope, s.productId);
      assert Get(authorsById, s.buyerId) == BuyerIn(db, scope, s.buyerId);
      if s.productId !in productsById {
        continue;
      }
      if s.buyerId !in authorsById {
        continue;
      }
      var history := GetOrEmpty(remaining, s.id);
      remaining := remaining - {s.id};
      result := result + [(s.buyerId,
                           SubscriptionView(s, authorsById[s.buyerId], productsById[s.productId], history))];
    }
    assert subscriptions[..|subscriptions|] == subscriptions;
  }

  // ----- The same answer, one subscription at a time -----

  function PerRow(db: Database, subscriptions: seq<Subscription>): seq<(int, SubscriptionView)> {
    if subscriptions == [] then []
    else
      var last := subscriptions[|subscriptions| - 1];
      PerRow(db, subscriptions[..|subscriptions| - 1]) + SubscriptionEntry(db, ScopeOf([last]), last)
  }

  predicate IsShown(db: Database, scope: Scope, s: Subscription) {
    ProductIn(db, scope, s.productId).Some? && BuyerIn(db, scope, s.buyerId).Some?
  }

  /** What is billed to `s` and visible in the batch is for `s`'s own product and buyer. */
  ghost predicate OwnBills(db: Database, scope: Scope, s: Subscription) {
    forall p <- db.purchases ::
      p.subscriptionId == Some(s.id) && PurchaseEntry(db, scope, p) != [] ==>
        p.productId == s.productId && p.buyerId == s.buyerId
  }

  /** A narrower scope shows the same entry or none. */
  lemma Narrower(db: Database, scope: Scope, narrow: Scope, p: Purchase)
    requires narrow.productIds <= scope.productIds && narrow.buyerIds <= scope.buyerIds
    ensures PurchaseEntry(db, narrow, p) == []
         || PurchaseEntry(db, narrow, p) == PurchaseEntry(db, scope, p)
    ensures PurchaseEntry(db, scope, p) != [] ==>
      (PurchaseEntry(db, narrow, p) != [] <==> p.productId in narrow.productIds && p.buyerId in narrow.buyerIds)
  {
    hide PurchaseToProto, Keep, LastOf;
  }

  lemma {:induction false} NarrowerEntries(db: Database, scope: Scope, narrow: Scope, rows: seq<Purchase>)
    requires narrow.productIds <= scope.productIds && narrow.buyerIds <= scope.buyerIds
    ensures |PurchaseEntries(db, narrow, rows)| <= |PurchaseEntries(db, scope, rows)|
    ensures PurchaseEntries(db, narrow, rows) == PurchaseEntries(db, scope, rows)
       <==> forall p <- rows :: PurchaseEntry(db, narrow, p) == PurchaseEntry(db, scope, p)
  {
    hide PurchaseEntry;
    if rows != [] {
      var front, last := rows[..|rows| - 1], rows[|rows| - 1];
      assert rows == front + [last];
      NarrowerEntries(db, scope, narrow, front);
      Narrower(db, scope, narrow, last);
      SumsEqual(PurchaseEntries(db, narrow, front), PurchaseEntry(db, narrow, last),
                PurchaseEntries(db, scope, front), PurchaseEntry(db, scope, last));
    }
  }

  lemma SumsEqual<T>(a: seq<T>, b: seq<T>, c: seq<T>, d: seq<T>)
    requires |a| <= |c| && |b| <= |d|
    ensures a + b == c + d <==> a == c && b == d
  {
    if a + b == c + d {
      assert |a| == |c|;
      assert a == (a + b)[..|a|] && c == (c + d)[..|a|];
      assert b == (a + b)[|a|..] && d == (c + d)[|a|..];
    }
  }

  lemma EntryIsOwnIff(db: Database, scope: Scope, s: Subscription)
    requires s.productId in scope.productIds && s.buyerId in scope.buyerIds
    ensures SubscriptionEntry(db, ScopeOf([s]), s) == SubscriptionEntry(db, scope, s)
       <==> (IsShown(db, scope, s) ==> OwnBills(db, scope, s))
    ensures |SubscriptionEntry(db, ScopeOf([s]), s)| == |SubscriptionEntry(db, scope, s)|
  {
    hide Keep, LastOf, PurchaseEntry, PurchaseEntries;
    var own := ScopeOf([s]);
    var rows := Keep(db.purchases, BilledTo(s.id));
    assert own == Scope({s.productId}, {s.buyerId});
    NarrowerEntries(db, scope, own, rows);
    forall p <- rows
      ensures PurchaseEntry(db, own, p) == PurchaseEntry(db, scope, p)
         <==> (PurchaseEntry(db, scope, p) != [] ==> p.productId == s.productId && p.buyerId == s.buyerId)
    {
      Narrower(db, scope, own, p);
    }
  }

  /** The batch answers like one request per subscription exactly when no subscription shown is billed, visibly,
      for a product or to a buyer that only other subscriptions of the batch name. */
  lemma BatchIsPerRowIff(db: Database, subscriptions: seq<Subscription>)
    ensures Joined(db, ScopeOf(subscriptions), subscriptions) == PerRow(db, subscriptions)
       <==> forall s <- subscriptions | IsShown(db, ScopeOf(subscriptions), s) ::
              OwnBills(db, ScopeOf(subscriptions), s)
  {
    hide IsShown, OwnBills, Joined, PerRow;
    JoinedIsPerRowIff(db, ScopeOf(subscriptions), subscriptions);
  }

  lemma {:induction false} JoinedIsPerRowIff(db: Database, scope: Scope, rows: seq<Subscription>)
    requires forall s <- rows :: s.productId in scope.productIds && s.buyerId in scope.buyerIds
    ensures |Joined(db, scope, rows)| == |PerRow(db, rows)|
    ensures Joined(db, scope, rows) == PerRow(db, rows)
       <==> forall s <- rows | IsShown(db, scope, s) :: OwnBills(db, scope, s)
  {
    hide IsShown, OwnBills, SubscriptionEntry;
    if rows != [] {
      var front, last := rows[..|rows| - 1], rows[|rows| - 1];
      assert rows == front + [last];
      JoinedIsPerRowIff(db, scope, front);
      EntryIsOwnIff(db, scope, last);
      SumsEqual(Joined(db, scope, front), SubscriptionEntry(db, scope, last),
                PerRow(db, front), SubscriptionEntry(db, ScopeOf([last]), last));
    }
  }

  /** Two subscriptions, and a purchase of what the second is for, billed to the first. */
  function Misbilled(): Database {
    Database([Subscription(1, 7, 11, 0), Subscription(2, 7, 12, 0)], [Product(11, 5), Product(12, 6)],
             [Purchase(1, 7, 12, Some(1), 0)], [], [Author(7, "buyer")], {})
  }

  lemma MisbilledProducts()
    ensures LastOf(Misbilled().products, ProductNamed(11)) == Some(Product(11, 5))
    ensures LastOf(Misbilled().products, ProductNamed(12)) == Some(Product(12, 6))
    ensures LastOf(Misbilled().authors, AuthorNamed(7)) == Some(Author(7, "buyer"))
  {
    var products := Misbilled().products;
    assert products[..1] == [Product(11, 5)];
    assert LastOf(products[..1], ProductNamed(11)) == Some(Product(11, 5));
  }

  /** It shows up when the second is in the batch too, and only then. */
  lemma OthersShowUp()
    ensures var db := Misbilled();
      && UniqueSubscriptions(db.subscriptions) && UniquePurchases(db.purchases)
      && Joined(db, ScopeOf(db.subscriptions), db.subscriptions) != PerRow(db, db.subscriptions)
  {
    MisbilledProducts();
    hide LastOf, Keep, Joined, PerRow, PurchaseToProto;
    var db := Misbilled();
    var one, two, scope := db.subscriptions[0], db.subscriptions[1], ScopeOf(db.subscriptions);
    assert one in db.subscriptions && two in db.subscriptions;
    assert 11 in scope.productIds && 12 in scope.productIds && 7 in scope.buyerIds;
    assert IsShown(db, scope, one);
    var bill := db.purchases[0];
    assert bill in db.purchases && PurchaseEntry(db, scope, bill) != [];
    assert !OwnBills(db, scope, one);
    BatchIsPerRowIff(db, db.subscriptions);
  }

  // ----- What the server's own writers put into the tables -----

  /** Every purchase billed to a subscription is for that subscription's product and buyer. */
  ghost predicate OwnPurchases(db: Database) {
    forall s <- db.subscriptions, p <- db.purchases ::
      p.subscriptionId == Some(s.id) ==> p.productId == s.productId && p.buyerId == s.buyerId
  }

  /** Then a batch never differs from single requests. */
  lemma OwnPurchasesAnswerPerRow(db: Database, subscriptions: seq<Subscription>)
    requires OwnPurchases(db) && forall s <- subscriptions :: s in db.subscriptions
    ensures Joined(db, ScopeOf(subscriptions), subscriptions) == PerRow(db, subscriptions)
  {
    hide IsShown, PurchaseEntry, Joined, PerRow;
    BatchIsPerRowIff(db, subscriptions);
  }

  /** The two places that insert purchases: a checkout, which makes the subscription first, and the renewal of a
      subscription that exists. Nothing updates these columns. */
  datatype Sale = Checkout(buyerId: int, productId: int, at: int) | Renewal(subscriptionId: int, at: int)

  function SubscriptionNamed(id: int): Subscription -> bool { (s: Subscription) => s.id == id }

  /** One sale; new rows get the next number of the run for an id, and come first, as the newest. */
  function Sold(db: Database, sale: Sale, id: int): Database {
    match sale
    case Checkout(buyerId, productId, at) =>
      db.(subscriptions := [Subscription(id, buyerId, productId, at)] + db.subscriptions,
          purchases := [Purchase(id, buyerId, productId, Some(id), at)] + db.purchases)
    case Renewal(subscriptionId, at) =>
      match LastOf(db.subscriptions, SubscriptionNamed(subscriptionId))
      case Some(s) => db.(purchases := [Purchase(id, s.buyerId, s.productId, Some(s.id), at)] + db.purchases)
      case None => db
  }

  function AfterSales(db: Database, sales: seq<Sale>): Database {
    if sales == [] then db
    else Sold(AfterSales(db, sales[..|sales| - 1]), sales[|sales| - 1], |sales|)
  }

  ghost predicate IdsUpTo(db: Database, n: nat) {
    && (forall s <- db.subscriptions :: s.id <= n)
    && (forall p <- db.purchases :: p.subscriptionId.Some? ==> p.subscriptionId.value <= n)
  }

  lemma {:induction false} LastIsAmong<T>(rows: seq<T>, wanted: T -> bool)
    ensures LastOf(rows, wanted).Some? ==> LastOf(rows, wanted).value in rows && wanted(LastOf(rows, wanted).value)
  {
    if rows != [] {
      LastIsAmong(rows[..|rows| - 1], wanted);
    }
  }

  ghost predicate UniqueIds(db: Database) {
    forall s <- db.subscriptions, other <- db.subscriptions :: s.id == other.id ==> s == other
  }

  lemma {:induction false} SalesKeepOwn(db: Database, sales: seq<Sale>)
    requires db.subscriptions == [] && db.purchases == []
    ensures var db' := AfterSales(db, sales); OwnPurchases(db') && UniqueIds(db') && IdsUpTo(db', |sales|)
  {
    if sales != [] {
      var before, sale := AfterSales(db, sales[..|sales| - 1]), sales[|sales| - 1];
      SalesKeepOwn(db, sales[..|sales| - 1]);
      if sale.Renewal? {
        LastIsAmong(before.subscriptions, SubscriptionNamed(sale.subscriptionId));
      }
    }
  }

  /** So in a database that these writers have filled, a subscription's history does not depend on the batch. */
  lemma SalesAnswerPerRow(db: Database, sales: seq<Sale>, subscriptions: seq<Subscription>)
    requires db.subscriptions == [] && db.purchases == []
    requires forall s <- subscriptions :: s in AfterSales(db, sales).subscriptions
    ensures var db' := AfterSales(db, sales);
      Joined(db', ScopeOf(subscriptions), subscriptions) == PerRow(db', subscriptions)
  {
    SalesKeepOwn(db, sales);
    hide AfterSales, Joined, PerRow;
    OwnPurchasesAnswerPerRow(AfterSales(db, sales), subscriptions);
  }

  // ----- By buyer -----

  function ViewsOf(pairs: seq<(int, SubscriptionView)>, buyerId: int): seq<SubscriptionView> {
    if pairs == [] then []
    else
      var last := pairs[|pairs| - 1];
      ViewsOf(pairs[..|pairs| - 1], buyerId) + if last.0 == buyerId then [last.1] else []
  }

  function BoughtBy(buyerId: int): Subscription -> bool { (s: Subscription) => s.buyerId == buyerId }

  /** A buyer's share of the batch is the batch's answer for the buyer's own rows. */
  lemma {:induction false} ViewsAreOwn(db: Database, scope: Scope, rows: seq<Subscription>, buyerId: int)
    ensures ViewsOf(Joined(db, scope, rows), buyerId)
         == ViewsOf(Joined(db, scope, Keep(rows, BoughtBy(buyerId))), buyerId)
    ensures forall v <- ViewsOf(Joined(db, scope, rows), buyerId) :: v.subscription.buyerId == buyerId
  {
    hide SubscriptionEntry;
    if rows != [] {
      var front, last := rows[..|rows| - 1], rows[|rows| - 1];
      EntryShape(db, scope, last);
      ViewsAreOwn(db, scope, front, buyerId);
      var entry := SubscriptionEntry(db, scope, last);
      ViewsSnoc(Joined(db, scope, front), entry, buyerId);
      var own := Keep(front, BoughtBy(buyerId));
      assert (own + [last])[..|own|] == own;
      ViewsSnoc(Joined(db, scope, own), entry, buyerId);
      if last.buyerId != buyerId {
        assert Keep(rows, BoughtBy(buyerId)) == own;
      }
    }
  }

  lemma EntryShape(db: Database, scope: Scope, s: Subscription)
    ensures |SubscriptionEntry(db, scope, s)| <= 1
    ensures forall pair <- SubscriptionEntry(db, scope, s) :: pair.0 == s.buyerId && pair.1.subscription == s
  {
    hide ProductIn, BuyerIn, History;
  }

  lemma ViewsSnoc(pairs: seq<(int, SubscriptionView)>, entry: seq<(int, SubscriptionView)>, buyerId: int)
    requires |entry| <= 1
    ensures ViewsOf(pairs + entry, buyerId)
         == ViewsOf(pairs, buyerId) + if entry != [] && entry[0].0 == buyerId then [entry[0].1] else []
  {
    if entry == [] {
      assert pairs + entry == pairs;
    } else {
      assert (pairs + entry)[..|pairs|] == pairs;
    }
  }

  /** Every buyer gets a list, of what is the buyer's among the pairs. */
  method GroupByBuyer(pairs: seq<(int, SubscriptionView)>, empty: map<int, seq<SubscriptionView>>)
    returns (result: map<int, seq<SubscriptionView>>)
    requires (forall b <- empty :: empty[b] == []) && forall pair <- pairs :: pair.0 in empty
    ensures result.Keys == empty.Keys && forall b <- result :: result[b] == ViewsOf(pairs, b)
  {
    result := empty;
    for i := 0 to |pairs|
      invariant result.Keys == empty.Keys
      invariant forall b <- result :: result[b] == ViewsOf(pairs[..i], b)
    {
      assert pairs[..i + 1][..i] == pairs[..i];
      var (buyerId, subscription) := pairs[i];
      result := result[buyerId := GetOrEmpty(result, buyerId) + [subscription]];
    }
    assert pairs[..|pairs|] == pairs;
  }

  method BuildSubscriptionsForBuyers(buyerIds: seq<int>, db: Database)
    returns (answer: Result<map<int, seq<SubscriptionView>>, string>)
    requires UniqueSubscriptions(db.subscriptions) && UniquePurchases(db.purchases)
    ensures buyerIds == [] ==> answer == Ok(map[])
    ensures buyerIds != [] && SubscriptionsQuery in db.failing ==> answer == Err("failed_to_load_subscriptions")
    ensures buyerIds != [] && SubscriptionsQuery !in db.failing ==>
      var buyers := set b <- buyerIds;
      var batch := Answer(db, Keep(db.subscriptions, BoughtAmong(buyers)));
      match batch
      case Err(message) => answer == Err(message)
      case Ok(pairs) =>
        answer.Ok? && answer.value.Keys == buyers && forall b <- buyers :: answer.value[b] == ViewsOf(pairs, b)
  {
    var buyers := set b <- buyerIds;
    var result: map<int, seq<SubscriptionView>> := map b <- buyers :: [];
    if buyerIds == [] {
      return Ok(result);
    }
    if SubscriptionsQuery in db.failing {
      return Err("failed_to_load_subscriptions");
    }
    var subscriptions := Keep(db.subscriptions, BoughtAmong(buyers));
    UniqueSubscriptionsKept(db.subscriptions, BoughtAmong(buyers));
    hide Keep, Answer, UniqueSubscriptions, UniquePurchases, ViewsOf;
    var batch := BuildSubscriptions(subscriptions, db);
    if batch.Err? {
      return Err(batch.error);
    }
    AnswerIsForBuyers(db, subscriptions, buyers);
    result := GroupByBuyer(batch.value, result);
    answer := Ok(result);
  }

  lemma {:induction false} UniqueSubscriptionsKept(rows: seq<Subscription>, wanted: Subscription -> bool)
    requires UniqueSubscriptions(rows)
    ensures UniqueSubscriptions(Keep(rows, wanted))
  {
    if rows != [] {
      var front := rows[..|rows| - 1];
      UniqueSubscriptionsKept(front, wanted);
      assert forall s <- front :: s.id != rows[|rows| - 1].id;
    }
  }

  lemma AnswerIsForBuyers(db: Database, subscriptions: seq<Subscription>, buyers: set<int>)
    requires forall s <- subscriptions :: s.buyerId in buyers
    ensures var batch := Answer(db, subscriptions);
      batch.Ok? ==> forall pair <- batch.value :: pair.0 in buyers
  {
    hide Joined;
    JoinedIsForBuyers(db, ScopeOf(subscriptions), subscriptions, buyers);
  }

  lemma {:induction false} JoinedIsForBuyers(db: Database, scope: Scope, rows: seq<Subscription>, buyers: set<int>)
    requires forall s <- rows :: s.buyerId in buyers
    ensures forall pair <- Joined(db, scope, rows) :: pair.0 in buyers
  {
    hide ProductIn, BuyerIn, History;
    if rows != [] {
      var front, last := rows[..|rows| - 1], rows[|rows| - 1];
      assert rows == front + [last];
      JoinedIsForBuyers(db, scope, front, buyers);
    }
  }
}
