/** What a market answer holds, row by row of the tables, and that its payments and refunds balance. */
module MarketAnswers {
  import opened Market
  import opened Wrappers

  // ----- A list made of some of the rows, in their order -----

  function Before<T>(rows: seq<T>, wanted: T -> bool, n: nat): (before: nat)
    requires n <= |rows|
    ensures before <= n
  {
    if n == 0 then 0 else Before(rows, wanted, n - 1) + if wanted(rows[n - 1]) then 1 else 0
  }

  /** `list` shows the wanted rows and nothing else: each one behind the wanted rows before it. */
  ghost predicate Lists<T, U>(rows: seq<T>, wanted: T -> bool, list: seq<U>, shows: (T, U) -> bool) {
    && |list| == Before(rows, wanted, |rows|)
    && forall j | 0 <= j < |rows| && wanted(rows[j]) ::
         Before(rows, wanted, j) < |list| && shows(rows[j], list[Before(rows, wanted, j)])
  }

  lemma {:induction false} BeforeLast<T>(rows: seq<T>, last: T, wanted: T -> bool, n: nat)
    requires n <= |rows|
    ensures Before(rows + [last], wanted, n) == Before(rows, wanted, n)
  {
    if n != 0 {
      BeforeLast(rows, last, wanted, n - 1);
    }
  }

  /** One more row. */
  lemma ListsSnoc<T, U>(
      rows: seq<T>, last: T, wanted: T -> bool, list: seq<U>, more: seq<U>, shows: (T, U) -> bool)
    requires Lists(rows, wanted, list, shows)
    requires if wanted(last) then |more| == 1 && shows(last, more[0]) else more == []
    ensures Lists(rows + [last], wanted, list + more, shows)
  {
    var all := rows + [last];
    forall n: nat | n <= |rows| ensures Before(all, wanted, n) == Before(rows, wanted, n) {
      BeforeLast(rows, last, wanted, n);
    }
    forall j | 0 <= j < |all| && wanted(all[j])
      ensures Before(all, wanted, j) < |list + more| && shows(all[j], (list + more)[Before(all, wanted, j)])
    {
      if j < |rows| {
        assert wanted(rows[j]) && all[j] == rows[j];
      }
    }
  }

  lemma ListsNone<T, U>(wanted: T -> bool, shows: (T, U) -> bool)
    ensures Lists([], wanted, [], shows)
  {
  }

  // ----- Payments and refunds -----

  function PaidFor(purchaseId: int): Payment -> bool {
    (p: Payment) => p.purchaseId == purchaseId && p.amount >= 0
  }

  function RefundedFor(purchaseId: int): Payment -> bool {
    (p: Payment) => p.purchaseId == purchaseId && p.amount < 0
  }

  function ShowsPaid(): (Payment, Money) -> bool {
    (p: Payment, m: Money) =>
      m.amount == p.amount && m.currency == p.currency as int % 0x1_0000_0000 && m.createdAt == p.createdAt
  }

  function ShowsRefunded(): (Payment, Money) -> bool {
    (p: Payment, m: Money) =>
      m.amount + p.amount == 0 && m.currency == p.currency as int % 0x1_0000_0000 && m.createdAt == p.createdAt
  }

  lemma {:induction false} PaymentsSnoc(rows: seq<Payment>, last: Payment)
    ensures MarketPayments(rows + [last]) == MarketPayments(rows) + MarketPayments([last])
    ensures MarketRefunds(rows + [last]) == MarketRefunds(rows) + MarketRefunds([last])
  {
    hide *;
    if rows == [] {
      assert rows + [last] == [last];
      NoneShown();
    } else {
      var all := rows + [last];
      assert all[1..] == rows[1..] + [last] && all[0] == rows[0];
      PaymentsSnoc(rows[1..], last);
      PaymentsCons(rows);
      PaymentsCons(all);
    }
  }

  lemma NoneShown()
    ensures MarketPayments([]) == [] && MarketRefunds([]) == []
  {
  }

  lemma PaymentsCons(rows: seq<Payment>)
    requires rows != []
    ensures MarketPayments(rows) == MarketPayments([rows[0]]) + MarketPayments(rows[1..])
    ensures MarketRefunds(rows) == MarketRefunds([rows[0]]) + MarketRefunds(rows[1..])
  {
    hide AsU32, Negated;
    assert [rows[0]][1..] == [] && [rows[0]][0] == rows[0];
    assert MarketPayments([]) == [] && MarketRefunds([]) == [];
  }

  lemma OnePayment(p: Payment)
    ensures if p.amount >= 0 then |MarketPayments([p])| == 1 && ShowsPaid()(p, MarketPayments([p])[0])
            else MarketPayments([p]) == []
    ensures if p.amount < 0 then |MarketRefunds([p])| == 1 && ShowsRefunded()(p, MarketRefunds([p])[0])
            else MarketRefunds([p]) == []
  {
  }

  /** The payments of a purchase are its rows with an amount of at least 0, as they were loaded. */
  lemma {:induction false} PaymentsListed(rows: seq<Payment>, purchaseId: int)
    ensures Lists(rows, PaidFor(purchaseId), MarketPayments(Keep(rows, PaymentFor(purchaseId))), ShowsPaid())
    ensures Lists(rows, RefundedFor(purchaseId), MarketRefunds(Keep(rows, PaymentFor(purchaseId))), ShowsRefunded())
  {
    hide Lists, MarketPayments, MarketRefunds, ShowsPaid, ShowsRefunded, Keep;
    if rows == [] {
      NoPayments(purchaseId);
    } else {
      var front, last := rows[..|rows| - 1], rows[|rows| - 1];
      var kept := Keep(front, PaymentFor(purchaseId));
      assert rows == front + [last];
      PaymentsListed(front, purchaseId);
      KeepSnoc(front, last, PaymentFor(purchaseId));
      OnePayment(last);
      if last.purchaseId == purchaseId {
        PaymentsSnoc(kept, last);
        ListsSnoc(front, last, PaidFor(purchaseId), MarketPayments(kept), MarketPayments([last]), ShowsPaid());
        ListsSnoc(front, last, RefundedFor(purchaseId), MarketRefunds(kept), MarketRefunds([last]), ShowsRefunded());
      } else {
        assert kept + [] == kept;
        ListsSnoc(front, last, PaidFor(purchaseId), MarketPayments(kept), [], ShowsPaid());
        ListsSnoc(front, last, RefundedFor(purchaseId), MarketRefunds(kept), [], ShowsRefunded());
        assert MarketPayments(kept) + [] == MarketPayments(kept) && MarketRefunds(kept) + [] == MarketRefunds(kept);
      }
    }
  }

  lemma NoPayments(purchaseId: int)
    ensures Lists([], PaidFor(purchaseId), MarketPayments(Keep([], PaymentFor(purchaseId))), ShowsPaid())
    ensures Lists([], RefundedFor(purchaseId), MarketRefunds(Keep([], PaymentFor(purchaseId))), ShowsRefunded())
  {
    ListsNone<Payment, Money>(PaidFor(purchaseId), ShowsPaid());
    ListsNone<Payment, Money>(RefundedFor(purchaseId), ShowsRefunded());
  }

  /** What the rows of the table come to for one purchase and one currency. */
  function Booked(rows: seq<Payment>, purchaseId: int, currency: I32): int {
    if rows == [] then 0
    else
      var last := rows[|rows| - 1];
      Booked(rows[..|rows| - 1], purchaseId, currency)
      + if last.purchaseId == purchaseId && last.currency == currency then last.amount else 0
  }

  lemma {:induction false} SignedSnoc(rows: seq<Payment>, last: Payment, currency: I32)
    ensures SignedTotal(rows + [last], currency)
         == SignedTotal(rows, currency) + if last.currency == currency then last.amount else 0
  {
    if rows == [] {
      assert rows + [last] == [last];
    } else {
      assert (rows + [last])[1..] == rows[1..] + [last];
      SignedSnoc(rows[1..], last, currency);
    }
  }

  lemma {:induction false} BookedIsSigned(rows: seq<Payment>, purchaseId: int, currency: I32)
    ensures SignedTotal(Keep(rows, PaymentFor(purchaseId)), currency) == Booked(rows, purchaseId, currency)
  {
    hide SignedTotal, Keep;
    if rows == [] {
      NothingSigned(purchaseId, currency);
    } else {
      var front, last := rows[..|rows| - 1], rows[|rows| - 1];
      assert rows == front + [last];
      BookedIsSigned(front, purchaseId, currency);
      KeepSnoc(front, last, PaymentFor(purchaseId));
      SignedSnoc(Keep(front, PaymentFor(purchaseId)), last, currency);
      assert Keep(front, PaymentFor(purchaseId)) + [] == Keep(front, PaymentFor(purchaseId));
    }
  }

  lemma NothingSigned(purchaseId: int, currency: I32)
    ensures SignedTotal(Keep([], PaymentFor(purchaseId)), currency) == 0
  {
  }

  // ----- Histories -----

  ghost predicate HasProduct(db: Database, id: int) {
    exists p <- db.products :: p.id == id
  }

  ghost predicate HasAuthor(db: Database, id: int) {
    AuthorsQuery !in db.failing && exists a <- db.authors :: a.id == id
  }

  ghost predicate ShowsPurchase(db: Database, p: Purchase, v: PurchaseView) {
    && v.purchase == p
    && v.product in db.products && v.product.id == p.productId
    && v.buyer in db.authors && v.buyer.id == p.buyerId
    && Lists(db.payments, PaidFor(p.id), v.payments, ShowsPaid())
    && Lists(db.payments, RefundedFor(p.id), v.refunds, ShowsRefunded())
  }

  ghost function ShowsPurchases(db: Database): (Purchase, PurchaseView) -> bool {
    (p: Purchase, v: PurchaseView) => ShowsPurchase(db, p, v)
  }

  /** Billed to the subscription, for a product and to a buyer that the batch names and the tables hold. */
  ghost predicate IsVisibleBill(db: Database, subscriptions: seq<Subscription>, subscriptionId: int, p: Purchase) {
    && p.subscriptionId == Some(subscriptionId)
    && (exists s <- subscriptions :: s.productId == p.productId) && HasProduct(db, p.productId)
    && (exists s <- subscriptions :: s.buyerId == p.buyerId) && HasAuthor(db, p.buyerId)
  }

  ghost function VisibleBills(db: Database, subscriptions: seq<Subscription>, subscriptionId: int): Purchase -> bool {
    (p: Purchase) => IsVisibleBill(db, subscriptions, subscriptionId, p)
  }

  lemma {:induction false} LastOfIff<T>(rows: seq<T>, wanted: T -> bool)
    ensures LastOf(rows, wanted).Some? <==> exists r <- rows :: wanted(r)
  {
    if rows != [] {
      var front, last := rows[..|rows| - 1], rows[|rows| - 1];
      assert rows == front + [last];
      LastOfIff(front, wanted);
      assert last in rows && forall r <- front :: r in rows;
    }
  }

  lemma ProductFound(db: Database, scope: Scope, id: int)
    ensures ProductIn(db, scope, id).Some? <==> id in scope.productIds && HasProduct(db, id)
    ensures var found := ProductIn(db, scope, id);
      found.Some? ==> found.value in db.products && found.value.id == id
  {
    hide LastOf;
    LastOfIff(db.products, ProductNamed(id));
    LastIsAmong(db.products, ProductNamed(id));
    assert forall p: Product :: ProductNamed(id)(p) <==> p.id == id;
  }

  lemma BuyerFound(db: Database, scope: Scope, id: int)
    ensures BuyerIn(db, scope, id).Some? <==> id in scope.buyerIds && HasAuthor(db, id)
    ensures var found := BuyerIn(db, scope, id);
      found.Some? ==> found.value in db.authors && found.value.id == id
  {
    hide LastOf;
    LastOfIff(db.authors, AuthorNamed(id));
    LastIsAmong(db.authors, AuthorNamed(id));
    assert forall a: Author :: AuthorNamed(id)(a) <==> a.id == id;
  }

  lemma EntryListed(db: Database, subscriptions: seq<Subscription>, subscriptionId: int, p: Purchase)
    requires p.subscriptionId == Some(subscriptionId)
    ensures var entry := PurchaseEntry(db, ScopeOf(subscriptions), p);
      if VisibleBills(db, subscriptions, subscriptionId)(p) then |entry| == 1 && ShowsPurchases(db)(p, entry[0])
      else entry == []
  {
    hide Lists, Keep, ProductIn, BuyerIn, HasProduct, HasAuthor, MarketPayments, MarketRefunds;
    ProductFound(db, ScopeOf(subscriptions), p.productId);
    BuyerFound(db, ScopeOf(subscriptions), p.buyerId);
    PaymentsListed(db.payments, p.id);
  }

  /** A history holds the purchases billed to the subscription, each with the rows it names. */
  lemma {:induction false} HistoryListed(
      db: Database, subscriptions: seq<Subscription>, subscriptionId: int, rows: seq<Purchase>)
    ensures Lists(rows, VisibleBills(db, subscriptions, subscriptionId),
                  PurchaseEntries(db, ScopeOf(subscriptions), Keep(rows, BilledTo(subscriptionId))),
                  ShowsPurchases(db))
  {
    var wanted, shows := VisibleBills(db, subscriptions, subscriptionId), ShowsPurchases(db);
    if rows == [] {
      ListsNone<Purchase, PurchaseView>(wanted, shows);
    } else {
      var front, last := rows[..|rows| - 1], rows[|rows| - 1];
      assert rows == front + [last];
      hide Lists, Keep, PurchaseEntry, PurchaseEntries, ShowsPurchases;
      HistoryListed(db, subscriptions, subscriptionId, front);
      EntriesSnoc(db, ScopeOf(subscriptions), front, last, subscriptionId);
      if last.subscriptionId == Some(subscriptionId) {
        EntryListed(db, subscriptions, subscriptionId, last);
      }
      ListsSnoc(front, last, wanted,
                PurchaseEntries(db, ScopeOf(subscriptions), Keep(front, BilledTo(subscriptionId))),
                if last.subscriptionId == Some(subscriptionId) then PurchaseEntry(db, ScopeOf(subscriptions), last)
                else [],
                shows);
    }
  }

  // ----- Answers -----

  ghost predicate ShowsSubscription(
      db: Database, subscriptions: seq<Subscription>, s: Subscription, pair: (int, SubscriptionView))
  {
    && pair.0 == s.buyerId && pair.1.subscription == s
    && pair.1.product in db.products && pair.1.product.id == s.productId
    && pair.1.buyer in db.authors && pair.1.buyer.id == s.buyerId
    && Lists(db.purchases, VisibleBills(db, subscriptions, s.id), pair.1.history, ShowsPurchases(db))
  }

  ghost function ShowsSubscriptions(db: Database, subscriptions: seq<Subscription>)
    : (Subscription, (int, SubscriptionView)) -> bool
  {
    (s: Subscription, pair: (int, SubscriptionView)) => ShowsSubscription(db, subscriptions, s, pair)
  }

  ghost function Complete(db: Database): Subscription -> bool {
    (s: Subscription) => HasProduct(db, s.productId) && HasAuthor(db, s.buyerId)
  }

  lemma SubscriptionListed(db: Database, subscriptions: seq<Subscription>, s: Subscription)
    requires s in subscriptions
    ensures var entry := SubscriptionEntry(db, ScopeOf(subscriptions), s);
      if Complete(db)(s) then |entry| == 1 && ShowsSubscriptions(db, subscriptions)(s, entry[0]) else entry == []
  {
    hide Lists, Keep, ProductIn, BuyerIn, HasProduct, HasAuthor, PurchaseEntries;
    ProductFound(db, ScopeOf(subscriptions), s.productId);
    BuyerFound(db, ScopeOf(subscriptions), s.buyerId);
    HistoryListed(db, subscriptions, s.id, db.purchases);
  }

  lemma {:induction false} JoinedListed(db: Database, subscriptions: seq<Subscription>, rows: seq<Subscription>)
    requires forall s <- rows :: s in subscriptions
    ensures Lists(rows, Complete(db), Joined(db, ScopeOf(subscriptions), rows), ShowsSubscriptions(db, subscriptions))
  {
    if rows == [] {
      ListsNone<Subscription, (int, SubscriptionView)>(Complete(db), ShowsSubscriptions(db, subscriptions));
    } else {
      var front, last := rows[..|rows| - 1], rows[|rows| - 1];
      assert rows == front + [last];
      hide Lists, SubscriptionEntry, ShowsSubscriptions, Complete, ScopeOf;
      JoinedListed(db, subscriptions, front);
      SubscriptionListed(db, subscriptions, last);
      ListsSnoc(front, last, Complete(db), Joined(db, ScopeOf(subscriptions), front),
                SubscriptionEntry(db, ScopeOf(subscriptions), last), ShowsSubscriptions(db, subscriptions));
    }
  }

  /** The answer shows the subscriptions whose product and buyer are there, in the order of the batch, each under its
      buyer, with its product and buyer and the purchases billed to it, and these with their payments and refunds. */
  lemma AnswerListed(db: Database, subscriptions: seq<Subscription>)
    requires Answer(db, subscriptions).Ok?
    ensures Lists(subscriptions, Complete(db), Answer(db, subscriptions).value, ShowsSubscriptions(db, subscriptions))
  {
    hide Lists, Joined, ShowsSubscriptions, Complete, ScopeOf;
    JoinedListed(db, subscriptions, subscriptions);
    ListsNone<Subscription, (int, SubscriptionView)>(Complete(db), ShowsSubscriptions(db, subscriptions));
  }

  // ----- The books -----

  ghost predicate Balances(db: Database, v: PurchaseView) {
    forall currency: I32 ::
      MoneyTotal(v.payments, currency as int % 0x1_0000_0000) - MoneyTotal(v.refunds, currency as int % 0x1_0000_0000)
      == Booked(db.payments, v.purchase.id, currency)
  }

  lemma EntryBalances(db: Database, scope: Scope, p: Purchase)
    ensures forall v <- PurchaseEntry(db, scope, p) :: Balances(db, v)
  {
    hide ProductIn, BuyerIn, Keep, MarketPayments, MarketRefunds, MoneyTotal, SignedTotal, Booked;
    var rows := Keep(db.payments, PaymentFor(p.id));
    forall currency: I32
      ensures MoneyTotal(MarketPayments(rows), currency as int % 0x1_0000_0000)
            - MoneyTotal(MarketRefunds(rows), currency as int % 0x1_0000_0000)
           == Booked(db.payments, p.id, currency)
    {
      PaymentsMinusRefunds(rows, currency);
      BookedIsSigned(db.payments, p.id, currency);
    }
  }

  lemma {:induction false} EntriesBalance(db: Database, scope: Scope, rows: seq<Purchase>)
    ensures forall v <- PurchaseEntries(db, scope, rows) :: Balances(db, v)
  {
    hide Balances, PurchaseEntry;
    if rows != [] {
      EntriesBalance(db, scope, rows[..|rows| - 1]);
      EntryBalances(db, scope, rows[|rows| - 1]);
    }
  }

  lemma {:induction false} JoinedBalances(db: Database, scope: Scope, rows: seq<Subscription>)
    ensures forall pair <- Joined(db, scope, rows), v <- pair.1.history :: Balances(db, v)
  {
    hide Balances, Keep, PurchaseEntries, ProductIn, BuyerIn;
    if rows != [] {
      var last := rows[|rows| - 1];
      JoinedBalances(db, scope, rows[..|rows| - 1]);
      EntriesBalance(db, scope, Keep(db.purchases, BilledTo(last.id)));
    }
  }

  /** For every purchase answered and every currency, the payments shown less the refunds shown are what the table's
      rows for that purchase come to. */
  lemma AnswerBalances(db: Database, subscriptions: seq<Subscription>)
    requires Answer(db, subscriptions).Ok?
    ensures forall pair <- Answer(db, subscriptions).value, v <- pair.1.history :: Balances(db, v)
  {
    hide Balances, Joined, ScopeOf;
    JoinedBalances(db, ScopeOf(subscriptions), subscriptions);
  }

  /** One payment of 500 is shown as that. */
  lemma OnePaymentShown(db: Database, view: PurchaseView)
    requires db.payments == [Payment(1, 1, 500, 840, 0)] && ShowsPurchase(db, view.purchase, view)
    ensures view.purchase.id == 1 ==> view.payments == [Money(500, 840, 0)] && view.refunds == []
  {
    if view.purchase.id == 1 {
      assert PaidFor(1)(db.payments[0]) && !RefundedFor(1)(db.payments[0]);
      assert Before(db.payments, PaidFor(1), 0) == 0 && Before(db.payments, PaidFor(1), 1) == 1;
      assert Before(db.payments, RefundedFor(1), 1) == 0;
      assert view.payments[0] == Money(500, 840, 0);
    }
  }

  // ----- Errors, buyers and sales -----

  lemma AnswerFailsIff(db: Database, subscriptions: seq<Subscription>)
    ensures Answer(db, subscriptions).Err? <==>
      subscriptions != [] &&
      (ProductsQuery in db.failing || PurchasesQuery in db.failing
       || (PaymentsQuery in db.failing
           && exists s <- subscriptions, p <- db.purchases :: p.subscriptionId == Some(s.id)))
    ensures subscriptions != [] && db.failing == {ProductsQuery} ==>
      Answer(db, subscriptions) == Err("failed_to_load_products")
    ensures subscriptions != [] && db.failing == {PurchasesQuery} ==>
      Answer(db, subscriptions) == Err("failed_to_load_purchases")
    ensures db.failing == {PaymentsQuery} && Answer(db, subscriptions).Err? ==>
      Answer(db, subscriptions) == Err("failed_to_load_payments")
  {
  }

  ghost function BoughtByBuyer(buyerId: int): ((int, SubscriptionView)) -> bool {
    (pair: (int, SubscriptionView)) => pair.0 == buyerId
  }

  ghost function ShowsView(): ((int, SubscriptionView), SubscriptionView) -> bool {
    (pair: (int, SubscriptionView), v: SubscriptionView) => pair.1 == v
  }

  /** A buyer's list is the buyer's share of the pairs, in their order. */
  lemma {:induction false} ViewsListed(pairs: seq<(int, SubscriptionView)>, buyerId: int)
    ensures Lists(pairs, BoughtByBuyer(buyerId), ViewsOf(pairs, buyerId), ShowsView())
  {
    if pairs == [] {
      ListsNone<(int, SubscriptionView), SubscriptionView>(BoughtByBuyer(buyerId), ShowsView());
    } else {
      var front, last := pairs[..|pairs| - 1], pairs[|pairs| - 1];
      assert pairs == front + [last];
      hide Lists;
      ViewsListed(front, buyerId);
      ListsSnoc(front, last, BoughtByBuyer(buyerId), ViewsOf(front, buyerId),
                if last.0 == buyerId then [last.1] else [], ShowsView());
    }
  }

  /** A checkout leaves a subscription and the purchase that goes with it, a renewal a purchase like its
      subscription. */
  ghost predicate IsRecorded(before: Database, sale: Sale, id: int, after: Database) {
    match sale
    case Checkout(buyerId, productId, at) =>
      && Subscription(id, buyerId, productId, at) in after.subscriptions
      && Purchase(id, buyerId, productId, Some(id), at) in after.purchases
    case Renewal(subscriptionId, at) =>
      forall s <- before.subscriptions | s.id == subscriptionId ::
        Purchase(id, s.buyerId, s.productId, Some(subscriptionId), at) in after.purchases
  }

  lemma SaleIsRecorded(db: Database, sale: Sale, id: int)
    requires UniqueIds(db)
    ensures IsRecorded(db, sale, id, Sold(db, sale, id))
  {
    hide LastOf;
    if sale.Renewal? {
      LastIsAmong(db.subscriptions, SubscriptionNamed(sale.subscriptionId));
      LastOfIff(db.subscriptions, SubscriptionNamed(sale.subscriptionId));
      assert forall s: Subscription :: SubscriptionNamed(sale.subscriptionId)(s) <==> s.id == sale.subscriptionId;
    }
  }

  lemma RecordsStay(before: Database, sale: Sale, id: int, db: Database, later: Sale, laterId: int)
    requires IsRecorded(before, sale, id, db)
    ensures IsRecorded(before, sale, id, Sold(db, later, laterId))
  {
    hide LastOf;
  }

  /** And in every run no later sale takes it away again. */
  lemma {:induction false} SalesAreRecorded(db: Database, sales: seq<Sale>, i: nat)
    requires db.subscriptions == [] && db.purchases == [] && i < |sales|
    ensures IsRecorded(AfterSales(db, sales[..i]), sales[i], i + 1, AfterSales(db, sales))
  {
    hide Sold, IsRecorded, UniqueIds, OwnPurchases, IdsUpTo;
    var front, last := sales[..|sales| - 1], sales[|sales| - 1];
    if i == |sales| - 1 {
      SalesKeepOwn(db, front);
      SaleIsRecorded(AfterSales(db, front), last, |sales|);
    } else {
      SalesAreRecorded(db, front, i);
      assert front[..i] == sales[..i] && front[i] == sales[i];
      RecordsStay(AfterSales(db, sales[..i]), sales[i], i + 1, AfterSales(db, front), last, |sales|);
    }
  }
}
