/** The administrator's reports of SushiBE/Controllers/AdminController.cs:
    the dashboard counters, the revenue over an interval of days, the most
    recent orders, the best-selling products and best customers, the
    low-stock list, and the CSV file of orders. Every report only reads
    the store. */
module AdminController {
  import opened Common
  import opened Models
  import opened Seqs
  import opened Text
  import opened Data
  import InvoicePdf

  /** `if (limit <= 0) limit = 10;` */
  const DefaultLimit: int := 10

  /** The default of the `threshold` parameter and the dashboard's constant. */
  const DefaultLowStock: int := 5

  function EffectiveLimit(limit: int): (n: int)
    ensures n >= 1
    ensures limit > 0 ==> n == limit
    ensures limit <= 0 ==> n == DefaultLimit
  {
    if limit <= 0 then DefaultLimit else limit
  }

  function AmountOf(o: Order): Money { o.totalAmount }

  // ---------------------------------------------------------------------
  // GetSummary

  predicate IsUnpaid(o: Order) { o.status != "Completed" && o.status != "Paid" }

  predicate IsLowStock(p: Product, threshold: int) { p.stock <= threshold }

  function LowStockBelow(threshold: int): Product -> bool
  {
    (p: Product) => IsLowStock(p, threshold)
  }

  predicate IsCustomer(u: User) { u.kind.CustomerUser? }

  datatype Summary = Summary(
    totalRevenue: Money,
    totalOrders: nat,
    totalCustomers: nat,
    totalProducts: nat,
    lowStockCount: nat,
    totalInvoices: nat,
    unpaidOrders: nat)

  /** The dashboard counters. */
  function GetSummary(orders: seq<Order>, users: seq<User>, products: seq<Product>, invoices: seq<Invoice>): Summary
  {
    Summary(
      SumOf(orders, AmountOf),
      |orders|,
      |Filter(users, IsCustomer)|,
      |products|,
      |Filter(products, LowStockBelow(DefaultLowStock))|,
      |invoices|,
      |Filter(orders, IsUnpaid)|)
  }

  /** A filter and its complement split a sequence. */
  lemma {:induction false} FilterComplement<T(!new)>(s: seq<T>, p: T -> bool, q: T -> bool)
    requires forall x :: q(x) == !p(x)
    ensures |Filter(s, p)| + |Filter(s, q)| == |s|
  {
    if s != [] {
      FilterComplement(s[1..], p, q);
    }
  }

  function IsSettled(o: Order): bool { !IsUnpaid(o) }

  /** The unpaid counter counts exactly the orders that are neither
      "Completed" nor "Paid": with those it makes up all orders. The low-stock
      counter agrees with the low-stock list at the default threshold. */
  lemma SummaryCounters(orders: seq<Order>, users: seq<User>, products: seq<Product>, invoices: seq<Invoice>)
    ensures var s := GetSummary(orders, users, products, invoices);
      && s.unpaidOrders + |Filter(orders, IsSettled)| == s.totalOrders
      && (forall o :: o in orders && o.status == "Paid" ==> o in Filter(orders, IsSettled))
      && (forall o :: o in orders && o.status != "Paid" && o.status != "Completed" ==> o in Filter(orders, IsUnpaid))
      && s.lowStockCount == |GetLowStock(products, DefaultLowStock)|
      && s.totalCustomers <= |users| && s.lowStockCount <= s.totalProducts && s.unpaidOrders <= s.totalOrders
  {
    FilterComplement(orders, IsUnpaid, IsSettled);
  }

  // ---------------------------------------------------------------------
  // GetLowStock

  datatype StockLine = StockLine(productId: Id, name: string, stock: int, imageUrl: Option<string>)

  function StockLineOf(p: Product): StockLine { StockLine(p.productId, p.name, p.stock, p.imageUrl) }

  /** `GET low-stock?threshold=..`: the products whose stock is at most the
      threshold, in store order. */
  function GetLowStock(products: seq<Product>, threshold: int): (r: seq<StockLine>)
    ensures |r| == |Filter(products, LowStockBelow(threshold))|
    ensures forall i :: 0 <= i < |r| ==> r[i].stock <= threshold
    ensures forall p :: p in products && p.stock <= threshold ==> StockLineOf(p) in r
    ensures forall i :: 0 <= i < |r| ==> exists p :: p in products && StockLineOf(p) == r[i]
  {
    var kept := Filter(products, LowStockBelow(threshold));
    var r := seq(|kept|, i requires 0 <= i < |kept| => StockLineOf(kept[i]));
    assert forall p :: p in products && p.stock <= threshold ==> p in kept;
    assert forall i :: 0 <= i < |kept| ==> kept[i] in products && StockLineOf(kept[i]) == r[i];
    forall p | p in products && p.stock <= threshold ensures StockLineOf(p) in r {
      var i :| 0 <= i < |kept| && kept[i] == p;
      assert r[i] == StockLineOf(p);
    }
    r
  }

  // ---------------------------------------------------------------------
  // GetRevenue

  /** The reporting interval: from the start of `from`'s day to the last
      tick of `to`'s day. */
  datatype Interval = Interval(start: Ticks, end: Ticks)

  /** `start = (from ?? now - 30 days).Date`, `end = (to ?? now).Date + 1 day - 1 tick`. */
  function RevenueInterval(from: Option<Ticks>, to: Option<Ticks>, now: Ticks): (iv: Interval)
    ensures var f := if from.Some? then from.value else now - 30 * TicksPerDay;
      iv.start % TicksPerDay == 0 && iv.start <= f < iv.start + TicksPerDay
    ensures var t := if to.Some? then to.value else now;
      StartOfDay(t) <= t <= iv.end && iv.end + 1 == StartOfDay(t) + TicksPerDay
  {
    var f := if from.Some? then from.value else now - 30 * TicksPerDay;
    var t := if to.Some? then to.value else now;
    Interval(StartOfDay(f), EndOfDay(t))
  }

  function InInterval(iv: Interval): Order -> bool
  {
    (o: Order) => iv.start <= o.orderDate <= iv.end
  }

  function OnDay(d: Ticks): Order -> bool
  {
    (o: Order) => StartOfDay(o.orderDate) == d
  }

  /** One entry of the daily series. */
  datatype Day = Day(date: Ticks, revenue: Money, orders: nat)

  function DayRevenue(qs: seq<Order>, d: Ticks): Money { SumOf(Filter(qs, OnDay(d)), AmountOf) }

  function DayOrders(qs: seq<Order>, d: Ticks): nat { |Filter(qs, OnDay(d))| }

  function RevenueOf(day: Day): Money { day.revenue }

  /** The entry of one date: the revenue and count of the orders of that date. */
  function DayOf(qs: seq<Order>, d: Ticks): Day { Day(d, DayRevenue(qs, d), DayOrders(qs, d)) }

  /** The filled series: `n` consecutive days from `d`, each with the revenue
      and count of the orders of that date, zero for a date without orders
      (the `?? 0` of a day missing from the grouping). */
  function Filled(qs: seq<Order>, d: Ticks, n: nat): (r: seq<Day>)
    ensures |r| == n
    ensures n > 0 ==> r[0].date == d
    ensures forall i :: 0 < i < n ==> r[i].date == r[i - 1].date + TicksPerDay
    ensures forall i :: 0 <= i < n ==> r[i] == DayOf(qs, r[i].date)
    decreases n
  {
    if n == 0 then [] else [DayOf(qs, d)] + Filled(qs, d + TicksPerDay, n - 1)
  }

  /** The `i`-th entry of the series is the `i`-th day after `d`, with that
      date's revenue and order count. */
  lemma {:induction false} FilledAt(qs: seq<Order>, d: Ticks, n: nat, i: nat)
    requires i < n
    ensures Filled(qs, d, n)[i].date == d + i * TicksPerDay
    ensures var day := Filled(qs, d, n)[i];
      day.revenue == DayRevenue(qs, day.date) && day.orders == DayOrders(qs, day.date)
    decreases n
  {
    FilledIs(qs, d, n, i);
    DayAfterIs(d, i);
  }

  /** The date `i` days after `d`, one day at a time. */
  function DayAfter(d: Ticks, i: nat): Ticks
    decreases i
  {
    if i == 0 then d else DayAfter(d + TicksPerDay, i - 1)
  }

  lemma {:induction false} DayAfterIs(d: Ticks, i: nat)
    ensures DayAfter(d, i) == d + i * TicksPerDay
    decreases i
  {
    if i > 0 {
      DayAfterIs(d + TicksPerDay, i - 1);
      assert d + TicksPerDay + (i - 1) * TicksPerDay == d + i * TicksPerDay;
    }
  }

  lemma {:induction false} FilledIs(qs: seq<Order>, d: Ticks, n: nat, i: nat)
    requires i < n
    ensures Filled(qs, d, n)[i] == DayOf(qs, DayAfter(d, i))
    decreases n
  {
    var rest := Filled(qs, d + TicksPerDay, n - 1);
    assert Filled(qs, d, n) == [DayOf(qs, d)] + rest;
    if i == 0 {
      assert DayAfter(d, 0) == d;
    } else {
      assert Filled(qs, d, n)[i] == rest[i - 1];
      FilledIs(qs, d + TicksPerDay, n - 1, i - 1);
      assert DayAfter(d, i) == DayAfter(d + TicksPerDay, i - 1);
    }
  }

  /** `(end.Date - start.Date).Days + 1`. The difference of two day starts is
      a whole number of days, so truncating `Days` cuts nothing. */
  function DayCount(iv: Interval): int
  {
    (StartOfDay(iv.end) - iv.start) / TicksPerDay + 1
  }

  datatype RevenueReport = RevenueReport(from: Ticks, to: Ticks, total: Money, daily: seq<Day>)

  /** `Enumerable.Range(0, days)` throws for a negative count, which happens
      when `from` lies two or more days after `to`: the request fails. */
  datatype RevenueResult = Report(report: RevenueReport) | NegativeRange

  /** `GET revenue?from=..&to=..`. */
  function GetRevenue(orders: seq<Order>, from: Option<Ticks>, to: Option<Ticks>, now: Ticks): RevenueResult
  {
    var iv := RevenueInterval(from, to, now);
    var query := Filter(orders, InInterval(iv));
    var days := DayCount(iv);
    if days < 0 then NegativeRange
    else Report(RevenueReport(iv.start, iv.end, SumOf(query, AmountOf), Filled(query, iv.start, days)))
  }

  // The proof that the daily revenues add up to the total.

  lemma DayRevenueConcat(a: seq<Order>, b: seq<Order>, d: Ticks)
    ensures DayRevenue(a + b, d) == DayRevenue(a, d) + DayRevenue(b, d)
  {
    FilterConcat(a, b, OnDay(d));
    SumOfConcat(Filter(a, OnDay(d)), Filter(b, OnDay(d)), AmountOf);
  }

  lemma DayRevenueSingle(o: Order, d: Ticks)
    ensures DayRevenue([o], d) == if StartOfDay(o.orderDate) == d then o.totalAmount else 0
  {
    assert [o][1..] == [];
    var f := Filter([o], OnDay(d));
    assert Filter([o][1..], OnDay(d)) == [];
    if StartOfDay(o.orderDate) == d {
      assert OnDay(d)(o);
      assert f == [o];
      SumOfCons(o, [], AmountOf);
      assert [o] + [] == [o];
    } else {
      assert !OnDay(d)(o);
      assert f == [];
    }
  }

  lemma SumOfCons<T>(x: T, s: seq<T>, f: T -> int)
    ensures SumOf([x] + s, f) == f(x) + SumOf(s, f)
  {
    assert ([x] + s)[1..] == s;
  }

  /** The series of a concatenation is the sum of the two series. */
  lemma {:induction false} FilledConcat(a: seq<Order>, b: seq<Order>, d: Ticks, n: nat)
    ensures SumOf(Filled(a + b, d, n), RevenueOf) == SumOf(Filled(a, d, n), RevenueOf) + SumOf(Filled(b, d, n), RevenueOf)
    decreases n
  {
    if n > 0 {
      FilledConcat(a, b, d + TicksPerDay, n - 1);
      DayRevenueConcat(a, b, d);
      SumOfCons(DayOf(a + b, d), Filled(a + b, d + TicksPerDay, n - 1), RevenueOf);
      SumOfCons(DayOf(a, d), Filled(a, d + TicksPerDay, n - 1), RevenueOf);
      SumOfCons(DayOf(b, d), Filled(b, d + TicksPerDay, n - 1), RevenueOf);
    }
  }

  /** An order dated before the series contributes nothing to it. */
  lemma {:induction false} FilledBefore(o: Order, d: Ticks, n: nat)
    requires StartOfDay(o.orderDate) < d
    ensures SumOf(Filled([o], d, n), RevenueOf) == 0
    decreases n
  {
    if n > 0 {
      FilledBefore(o, d + TicksPerDay, n - 1);
      DayRevenueSingle(o, d);
      SumOfCons(DayOf([o], d), Filled([o], d + TicksPerDay, n - 1), RevenueOf);
    }
  }

  /** An order dated on one of the series' days is counted there once. */
  lemma {:induction false} FilledSingle(o: Order, d: Ticks, n: nat)
    requires d % TicksPerDay == 0
    requires d <= StartOfDay(o.orderDate) < DayAfter(d, n)
    ensures SumOf(Filled([o], d, n), RevenueOf) == o.totalAmount
    decreases n
  {
    var s := StartOfDay(o.orderDate);
    DayRevenueSingle(o, d);
    SumOfCons(DayOf([o], d), Filled([o], d + TicksPerDay, n - 1), RevenueOf);
    if s == d {
      FilledBefore(o, d + TicksPerDay, n - 1);
    } else {
      assert s >= d + TicksPerDay by { MultiplesApart(d, s); }
      FilledSingle(o, d + TicksPerDay, n - 1);
    }
  }

  lemma MultiplesApart(d: Ticks, s: Ticks)
    requires d % TicksPerDay == 0 && s % TicksPerDay == 0 && d < s
    ensures s >= d + TicksPerDay
  {
    var a, b := d / TicksPerDay, s / TicksPerDay;
    assert d == a * TicksPerDay && s == b * TicksPerDay;
    assert a < b;
  }

  /** Orders that all fall on the series' days: the series adds up to their total. */
  lemma {:induction false} FilledTotal(qs: seq<Order>, d: Ticks, n: nat)
    requires d % TicksPerDay == 0
    requires forall i :: 0 <= i < |qs| ==> d <= StartOfDay(qs[i].orderDate) < d + n * TicksPerDay
    ensures SumOf(Filled(qs, d, n), RevenueOf) == SumOf(qs, AmountOf)
    decreases |qs|
  {
    if qs == [] {
      FilledZero(d, n);
    } else {
      assert qs == [qs[0]] + qs[1..];
      FilledConcat([qs[0]], qs[1..], d, n);
      DayAfterIs(d, n);
      FilledSingle(qs[0], d, n);
      FilledTotal(qs[1..], d, n);
    }
  }

  lemma {:induction false} FilledZero(d: Ticks, n: nat)
    ensures SumOf(Filled([], d, n), RevenueOf) == 0
    decreases n
  {
    if n > 0 {
      FilledZero(d + TicksPerDay, n - 1);
      SumOfCons(DayOf([], d), Filled([], d + TicksPerDay, n - 1), RevenueOf);
    }
  }

  /** A day start at or before an instant is at or before that instant's day start. */
  lemma DayStartBelow(m: Ticks, t: Ticks)
    requires m % TicksPerDay == 0 && m <= t
    ensures m <= StartOfDay(t)
  {
    if m > StartOfDay(t) {
      MultiplesApart(StartOfDay(t), m);
    }
  }

  /** Every order in the interval falls on one of the series' days. */
  lemma IntervalDays(iv: Interval, t: Ticks, o: Order)
    requires iv.start % TicksPerDay == 0
    requires iv.end + 1 == StartOfDay(t) + TicksPerDay
    requires DayCount(iv) >= 0
    requires iv.start <= o.orderDate <= iv.end
    ensures iv.start <= StartOfDay(o.orderDate) < iv.start + DayCount(iv) * TicksPerDay
  {
    var s := StartOfDay(t);
    DayStartBelow(iv.start, o.orderDate);
    SameDay(s, iv.end);
    DaysBetween(iv.start, s);
    assert DayCount(iv) == (s - iv.start) / TicksPerDay + 1;
    assert iv.start + DayCount(iv) * TicksPerDay == s + TicksPerDay;
  }

  /** The series has one entry per day of the interval, consecutive from its
      first day, and its revenues add up to the reported total, which is the
      sum over exactly the orders dated within the interval. */
  lemma RevenueSpec(orders: seq<Order>, from: Option<Ticks>, to: Option<Ticks>, now: Ticks)
    ensures var iv := RevenueInterval(from, to, now);
      GetRevenue(orders, from, to, now).NegativeRange? <==> DayCount(iv) < 0
    ensures var iv := RevenueInterval(from, to, now);
      var r := GetRevenue(orders, from, to, now);
      r.Report? ==>
        && r.report.from == iv.start && r.report.to == iv.end
        && (forall o :: o in orders && iv.start <= o.orderDate <= iv.end <==> o in Filter(orders, InInterval(iv)))
        && r.report.total == SumOf(Filter(orders, InInterval(iv)), AmountOf)
        && |r.report.daily| == DayCount(iv)
        && (forall i :: 0 <= i < |r.report.daily| ==> r.report.daily[i].date == iv.start + i * TicksPerDay)
        && (forall i :: 0 <= i < |r.report.daily| ==>
              && r.report.daily[i].revenue == DayRevenue(Filter(orders, InInterval(iv)), r.report.daily[i].date)
              && r.report.daily[i].orders == DayOrders(Filter(orders, InInterval(iv)), r.report.daily[i].date))
        && SumOf(r.report.daily, RevenueOf) == r.report.total
  {
    var iv := RevenueInterval(from, to, now);
    var t := if to.Some? then to.value else now;
    var query := Filter(orders, InInterval(iv));
    if DayCount(iv) >= 0 {
      forall i | 0 <= i < |query|
        ensures iv.start <= StartOfDay(query[i].orderDate) < iv.start + DayCount(iv) * TicksPerDay
      {
        assert InInterval(iv)(query[i]);
        IntervalDays(iv, t, query[i]);
      }
      FilledTotal(query, iv.start, DayCount(iv));
      forall i | 0 <= i < DayCount(iv)
        ensures var day := Filled(query, iv.start, DayCount(iv))[i];
          && day.date == iv.start + i * TicksPerDay
          && day.revenue == DayRevenue(query, day.date) && day.orders == DayOrders(query, day.date)
      {
        FilledAt(query, iv.start, DayCount(iv), i);
      }
    }
  }

  // ---------------------------------------------------------------------
  // GetRecentOrders

  function ByDateDesc(o: Order): Rank { Rank(o.orderDate, 0) }

  /** `OrderByDescending(o => o.OrderDate).Take(limit)`. */
  function RecentOrders(orders: seq<Order>, limit: int): seq<Order>
  {
    Take(SortDesc(orders, ByDateDesc), EffectiveLimit(limit))
  }

  /** The `min(limit, count)` latest orders, latest first (10 of them when
      the limit is not positive): taken from the store, and no order left
      out is later than one returned. */
  lemma RecentOrdersSpec(orders: seq<Order>, limit: int)
    ensures var r := RecentOrders(orders, limit);
      && |r| == Min(if limit <= 0 then DefaultLimit else limit, |orders|)
      && multiset(r) <= multiset(orders)
      && (forall i, j :: 0 <= i < j < |r| ==> r[i].orderDate >= r[j].orderDate)
      && (forall x, y :: x in r && y in multiset(orders) - multiset(r) ==> y.orderDate <= x.orderDate)
  {
    var r := RecentOrders(orders, limit);
    TopOfSorted(orders, ByDateDesc, EffectiveLimit(limit));
    forall i, j | 0 <= i < j < |r| ensures r[i].orderDate >= r[j].orderDate {
      assert RankGe(ByDateDesc(r[i]), ByDateDesc(r[j]));
    }
    forall x, y | x in r && y in multiset(orders) - multiset(r) ensures y.orderDate <= x.orderDate {
      assert RankGe(ByDateDesc(x), ByDateDesc(y));
    }
  }

  // ---------------------------------------------------------------------
  // GetTopProducts

  /** One row of the best-selling products. */
  datatype ProductSales = ProductSales(productId: Id, productName: Option<string>, quantitySold: int, revenue: Money)

  function QuantityOf(item: OrderItem): int { item.quantity }

  function OfProduct(productId: Id): OrderItem -> bool
  {
    (x: OrderItem) => x.productId == productId
  }

  function ProductIds(items: seq<OrderItem>): (r: seq<Id>)
    ensures |r| == |items|
    ensures forall i :: 0 <= i < |r| ==> r[i] == items[i].productId
  {
    seq(|items|, i requires 0 <= i < |items| => items[i].productId)
  }

  /** `Product?.Name`: the name of the product of that id, if it exists. */
  function ProductName(products: seq<Product>, productId: Id): (r: Option<string>)
    ensures r.Some? <==> FindProduct(products, productId).Some?
    ensures r.Some? ==> r.value == products[FindProduct(products, productId).value].name
  {
    match FindProduct(products, productId)
    case Some(k) => Some(products[k].name)
    case None => None
  }

  /** The group of one product: all of its order lines, however many orders
      they come from. */
  function SalesOf(items: seq<OrderItem>, products: seq<Product>, productId: Id): ProductSales
  {
    var lines := Filter(items, OfProduct(productId));
    ProductSales(productId, ProductName(products, productId), SumOf(lines, QuantityOf), SumOf(lines, InvoicePdf.ItemTotal))
  }

  /** One group per product that appears in an order line. */
  function AllSales(items: seq<OrderItem>, products: seq<Product>): (r: seq<ProductSales>)
    ensures forall i, j :: 0 <= i < j < |r| ==> r[i].productId != r[j].productId
    ensures forall x :: x in r ==> x == SalesOf(items, products, x.productId)
    ensures forall id :: id in ProductIds(items) <==> exists x :: x in r && x.productId == id
  {
    var keys := Distinct(ProductIds(items));
    var r := seq(|keys|, i requires 0 <= i < |keys| => SalesOf(items, products, keys[i]));
    GroupsByKey(keys, r, k => SalesOf(items, products, k), (x: ProductSales) => x.productId);
    r
  }

  function BySales(s: ProductSales): Rank { Rank(s.quantitySold, s.revenue) }

  /** `GET top-products?limit=..`. */
  function TopProducts(items: seq<OrderItem>, products: seq<Product>, limit: int): seq<ProductSales>
  {
    Take(SortDesc(AllSales(items, products), BySales), EffectiveLimit(limit))
  }

  /** A sub-multiset of a sequence without repeats has no repeats either. */
  lemma DistinctSub<T>(all: seq<T>, r: seq<T>)
    requires forall i, j :: 0 <= i < j < |all| ==> all[i] != all[j]
    requires multiset(r) <= multiset(all)
    ensures forall i, j :: 0 <= i < j < |r| ==> r[i] != r[j]
  {
    forall i, j | 0 <= i < j < |r| ensures r[i] != r[j] {
      if r[i] == r[j] {
        assert r == r[..i] + [r[i]] + r[i + 1..j] + [r[j]] + r[j + 1..];
        assert multiset(r)[r[i]] >= 2;
        DistinctOnce(all, r[i]);
        assert false;
      }
    }
  }

  /** A sequence without repeats holds each element once. */
  lemma {:induction false} DistinctOnce<T>(s: seq<T>, x: T)
    requires forall i, j :: 0 <= i < j < |s| ==> s[i] != s[j]
    ensures multiset(s)[x] <= 1
  {
    if s != [] {
      assert s == [s[0]] + s[1..];
      DistinctOnce(s[1..], x);
      if s[0] == x {
        assert x !in s[1..];
      }
    }
  }

  /** The top products are at most `limit` of them (10 when not positive),
      ordered by quantity and then revenue, descending, and no product left
      out sold more than one kept. */
  lemma TopProductsOrder(items: seq<OrderItem>, products: seq<Product>, limit: int)
    ensures var all := AllSales(items, products);
      var r := TopProducts(items, products, limit);
      && |r| == Min(EffectiveLimit(limit), |all|)
      && multiset(r) <= multiset(all)
      && (forall i, j :: 0 <= i < j < |r| ==> RankGe(BySales(r[i]), BySales(r[j])))
      && (forall x, y :: x in r && y in multiset(all) - multiset(r) ==> RankGe(BySales(x), BySales(y)))
  {
    TopOfSorted(AllSales(items, products), BySales, EffectiveLimit(limit));
  }

  /** Each top product appears once and its row holds that product's
      quantity sold and revenue over all its order lines. */
  lemma TopProductsRows(items: seq<OrderItem>, products: seq<Product>, limit: int)
    ensures var r := TopProducts(items, products, limit);
      && (forall x :: x in r ==> x.productId in ProductIds(items) && x == SalesOf(items, products, x.productId))
      && (forall i, j :: 0 <= i < j < |r| ==> r[i].productId != r[j].productId)
  {
    var all := AllSales(items, products);
    var r := TopProducts(items, products, limit);
    TopProductsOrder(items, products, limit);
    forall x | x in r ensures x in all {
      assert x in multiset(r);
    }
    assert forall i, j :: 0 <= i < j < |all| ==> all[i] != all[j] by {
      forall i, j | 0 <= i < j < |all| ensures all[i] != all[j] {
        assert all[i].productId != all[j].productId;
      }
    }
    DistinctSub(all, r);
    forall i, j | 0 <= i < j < |r| ensures r[i].productId != r[j].productId {
      assert r[i] in all && r[j] in all;
    }
  }

  // ---------------------------------------------------------------------
  // GetTopCustomers

  datatype CustomerSales = CustomerSales(customerId: Id, customerName: Option<string>, orders: nat, revenue: Money)

  function OfCustomer(customerId: Id): Order -> bool
  {
    (o: Order) => o.customerId == customerId
  }

  function CustomerIds(orders: seq<Order>): (r: seq<Id>)
    ensures |r| == |orders|
    ensures forall i :: 0 <= i < |r| ==> r[i] == orders[i].customerId
  {
    seq(|orders|, i requires 0 <= i < |orders| => orders[i].customerId)
  }

  /** `Customer?.Name`: the name of the customer of that id; an
      administrator is not a customer. */
  function CustomerName(users: seq<User>, customerId: Id): (r: Option<string>)
    ensures r.Some? <==> exists k :: 0 <= k < |users| && users[k].userId == customerId && users[k].kind.CustomerUser?
                                     && FindUserById(users, customerId) == Some(k)
    ensures r.Some? ==> r.value == users[FindUserById(users, customerId).value].name
  {
    match FindUserById(users, customerId)
    case Some(k) => if users[k].kind.CustomerUser? then Some(users[k].name) else None
    case None => None
  }

  /** One customer's group, with the name of the customer of that id (none
      when no customer has it). */
  function SalesTo(orders: seq<Order>, users: seq<User>, customerId: Id): CustomerSales
  {
    var mine := Filter(orders, OfCustomer(customerId));
    CustomerSales(customerId, CustomerName(users, customerId), |mine|, SumOf(mine, AmountOf))
  }

  function AllCustomers(orders: seq<Order>, users: seq<User>): (r: seq<CustomerSales>)
    ensures forall i, j :: 0 <= i < j < |r| ==> r[i].customerId != r[j].customerId
    ensures forall x :: x in r ==> x == SalesTo(orders, users, x.customerId)
    ensures forall id :: id in CustomerIds(orders) <==> exists x :: x in r && x.customerId == id
  {
    var keys := Distinct(CustomerIds(orders));
    var r := seq(|keys|, i requires 0 <= i < |keys| => SalesTo(orders, users, keys[i]));
    GroupsByKey(keys, r, k => SalesTo(orders, users, k), (x: CustomerSales) => x.customerId);
    r
  }

  function ByRevenue(c: CustomerSales): Rank { Rank(c.revenue, 0) }

  /** `GET customers/top?limit=..`. */
  function TopCustomers(orders: seq<Order>, users: seq<User>, limit: int): seq<CustomerSales>
  {
    Take(SortDesc(AllCustomers(orders, users), ByRevenue), EffectiveLimit(limit))
  }

  /** The top customers are at most `limit` (10 when not positive), by
      revenue descending, and no customer left out spent more than one kept. */
  lemma TopCustomersOrder(orders: seq<Order>, users: seq<User>, limit: int)
    ensures var all := AllCustomers(orders, users);
      var r := TopCustomers(orders, users, limit);
      && |r| == Min(EffectiveLimit(limit), |all|)
      && multiset(r) <= multiset(all)
      && (forall i, j :: 0 <= i < j < |r| ==> r[i].revenue >= r[j].revenue)
      && (forall x, y :: x in r && y in multiset(all) - multiset(r) ==> y.revenue <= x.revenue)
  {
    var all := AllCustomers(orders, users);
    var r := TopCustomers(orders, users, limit);
    TopOfSorted(all, ByRevenue, EffectiveLimit(limit));
    forall i, j | 0 <= i < j < |r| ensures r[i].revenue >= r[j].revenue {
      assert RankGe(ByRevenue(r[i]), ByRevenue(r[j]));
    }
    forall x, y | x in r && y in multiset(all) - multiset(r) ensures y.revenue <= x.revenue {
      assert RankGe(ByRevenue(x), ByRevenue(y));
    }
  }

  /** Each top customer appears once and its row holds that customer's
      order count, revenue and name. */
  lemma TopCustomersRows(orders: seq<Order>, users: seq<User>, limit: int)
    ensures var r := TopCustomers(orders, users, limit);
      && (forall x :: x in r ==> x.customerId in CustomerIds(orders) && x == SalesTo(orders, users, x.customerId))
      && (forall i, j :: 0 <= i < j < |r| ==> r[i].customerId != r[j].customerId)
  {
    var all := AllCustomers(orders, users);
    var r := TopCustomers(orders, users, limit);
    TopCustomersOrder(orders, users, limit);
    forall x | x in r ensures x in all {
      assert x in multiset(r);
    }
    assert forall i, j :: 0 <= i < j < |all| ==> all[i] != all[j] by {
      forall i, j | 0 <= i < j < |all| ensures all[i] != all[j] {
        assert all[i].customerId != all[j].customerId;
      }
    }
    DistinctSub(all, r);
    forall i, j | 0 <= i < j < |r| ensures r[i].customerId != r[j].customerId {
      assert r[i] in all && r[j] in all;
    }
  }

  // ---------------------------------------------------------------------
  // ExportOrdersCsv

  /** What the CSV file depends on from outside: the text of an id
      (`Guid.ToString`), the round-trip text of an instant (`ToString("o")`),
      its `yyyyMMdd` text, and the server's current culture's decimal
      separator, which the item prices are printed with. */
  datatype CsvEnv = CsvEnv(idText: Id -> string, dateText: Ticks -> string, dayText: Ticks -> string,
                           decimalSeparator: string)

  /** The column names of the header line. */
  const CsvColumns := ["OrderId", "OrderDate", "CustomerId", "CustomerName", "Status", "TotalAmount", "ItemCount", "Items"]

  /** `OrderId,OrderDate,CustomerId,CustomerName,Status,TotalAmount,ItemCount,Items`. */
  const CsvHeader := Join(",", CsvColumns)

  /** `start = (from ?? now.AddMonths(-1)).Date`, `end = (to ?? now).Date + 1
      day - 1 tick`; the calendar month before `now` is given as `monthBefore`. */
  function ExportInterval(from: Option<Ticks>, to: Option<Ticks>, now: Ticks, monthBefore: Ticks): (iv: Interval)
    ensures var f := if from.Some? then from.value else monthBefore;
      iv.start % TicksPerDay == 0 && iv.start <= f < iv.start + TicksPerDay
    ensures var t := if to.Some? then to.value else now;
      StartOfDay(t) <= t <= iv.end && iv.end + 1 == StartOfDay(t) + TicksPerDay
  {
    var f := if from.Some? then from.value else monthBefore;
    var t := if to.Some? then to.value else now;
    Interval(StartOfDay(f), EndOfDay(t))
  }

  /** `OrderBy(o => o.OrderDate)` as a descending sort on the negated date. */
  function ByDateAsc(o: Order): Rank { Rank(-o.orderDate, 0) }

  /** The orders of the file: those dated within the interval, oldest first. */
  function ExportedOrders(orders: seq<Order>, iv: Interval): seq<Order>
  {
    SortDesc(Filter(orders, InInterval(iv)), ByDateAsc)
  }

  /** `{name ?? id} x{quantity}@{price:F2}`. The interpolation formats the
      price in the current culture, unlike the invariant-culture fields of
      the line. */
  function ItemText(item: OrderItem, products: seq<Product>, env: CsvEnv): string
  {
    var name := ProductName(products, item.productId);
    (if name.Some? then name.value else env.idText(item.productId))
      + " x" + DecimalPadded(item.quantity, 0) + "@" + MoneyTextWith(item.price, env.decimalSeparator)
  }

  function ItemTexts(items: seq<OrderItem>, products: seq<Product>, env: CsvEnv): (r: seq<string>)
    ensures |r| == |items|
    ensures forall i :: 0 <= i < |r| ==> r[i] == ItemText(items[i], products, env)
  {
    seq(|items|, i requires 0 <= i < |items| => ItemText(items[i], products, env))
  }

  /** The eight fields of an order's line, in header order. */
  function RowFields(o: Order, orderItems: seq<OrderItem>, users: seq<User>, products: seq<Product>, env: CsvEnv): seq<string>
  {
    var items := InvoicePdf.ItemsOf(orderItems, o.orderId);
    var name := CustomerName(users, o.customerId);
    [ env.idText(o.orderId),
      env.dateText(o.orderDate),
      env.idText(o.customerId),
      ReplaceChar(if name.Some? then name.value else "", ',', ' '),
      o.status,
      MoneyText(o.totalAmount),
      NatText(|items|),
      "\"" + Join("|", ItemTexts(items, products, env)) + "\"" ]
  }

  function Row(o: Order, orderItems: seq<OrderItem>, users: seq<User>, products: seq<Product>, env: CsvEnv): string
  {
    Join(",", RowFields(o, orderItems, users, products, env))
  }

  function Rows(os: seq<Order>, orderItems: seq<OrderItem>, users: seq<User>, products: seq<Product>, env: CsvEnv): (r: seq<string>)
    ensures |r| == |os|
    ensures forall i :: 0 <= i < |r| ==> r[i] == Row(os[i], orderItems, users, products, env)
  {
    seq(|os|, i requires 0 <= i < |os| => Row(os[i], orderItems, users, products, env))
  }

  /** `AppendLine` for each line in turn: every line followed by a newline. */
  function Lines(ls: seq<string>): string
  {
    if ls == [] then "" else ls[0] + "\n" + Lines(ls[1..])
  }

  /** The text of the file: the header line, then one line per exported order. */
  function CsvText(orders: seq<Order>, orderItems: seq<OrderItem>, users: seq<User>, products: seq<Product>,
                   iv: Interval, env: CsvEnv): string
  {
    Lines([CsvHeader] + Rows(ExportedOrders(orders, iv), orderItems, users, products, env))
  }

  /** `orders_{start:yyyyMMdd}_{end:yyyyMMdd}.csv`. */
  function CsvFileName(iv: Interval, env: CsvEnv): string
  {
    "orders_" + env.dayText(iv.start) + "_" + env.dayText(iv.end) + ".csv"
  }

  lemma {:induction false} LinesAppend(ls: seq<string>, x: string)
    ensures Lines(ls + [x]) == Lines(ls) + x + "\n"
  {
    if ls != [] {
      assert (ls + [x])[1..] == ls[1..] + [x];
      LinesAppend(ls[1..], x);
    }
  }

  /** The lines joined with a newline, and a last, empty, line after them. */
  lemma {:induction false} LinesJoin(ls: seq<string>)
    ensures Lines(ls) == Join("\n", ls + [""])
  {
    if ls != [] {
      assert ls + [""] == [ls[0]] + (ls[1..] + [""]);
      JoinCons("\n", ls[0], ls[1..] + [""]);
      LinesJoin(ls[1..]);
    }
  }

  /** The line helper as a function value, so that the loop below can be
      read without unfolding how one line is formatted. */
  function RowOf(orderItems: seq<OrderItem>, users: seq<User>, products: seq<Product>, env: CsvEnv): Order -> string
  {
    (o: Order) => Row(o, orderItems, users, products, env)
  }

  /** The lines of a sequence of orders under a line format. */
  function RowsBy(os: seq<Order>, rowOf: Order -> string): (r: seq<string>)
    ensures |r| == |os|
    ensures forall i :: 0 <= i < |r| ==> r[i] == rowOf(os[i])
  {
    seq(|os|, i requires 0 <= i < |os| => rowOf(os[i]))
  }

  /** Under the CSV file's own format they are the rows of the file. */
  lemma RowsByRow(os: seq<Order>, orderItems: seq<OrderItem>, users: seq<User>, products: seq<Product>, env: CsvEnv)
    ensures RowsBy(os, RowOf(orderItems, users, products, env)) == Rows(os, orderItems, users, products, env)
  {
  }

  lemma RowsAppend(os: seq<Order>, i: nat, rowOf: Order -> string)
    requires i < |os|
    ensures RowsBy(os[..i + 1], rowOf) == RowsBy(os[..i], rowOf) + [rowOf(os[i])]
  {
    assert os[..i + 1] == os[..i] + [os[i]];
  }

  /** Before the loop the text holds the header line. */
  lemma CsvFirstLine(header: string, os: seq<Order>, rowOf: Order -> string)
    ensures Lines([header] + RowsBy(os[..0], rowOf)) == header + "\n"
  {
    assert [header] + RowsBy(os[..0], rowOf) == [header];
    LinesAppend([], header);
  }

  /** One turn of the loop appends the next order's line and a newline. */
  lemma CsvStep(header: string, os: seq<Order>, i: nat, rowOf: Order -> string)
    requires i < |os|
    ensures Lines([header] + RowsBy(os[..i + 1], rowOf)) == Lines([header] + RowsBy(os[..i], rowOf)) + rowOf(os[i]) + "\n"
  {
    var before := [header] + RowsBy(os[..i], rowOf);
    RowsAppend(os, i, rowOf);
    assert [header] + RowsBy(os[..i + 1], rowOf) == before + [rowOf(os[i])];
    LinesAppend(before, rowOf(os[i]));
  }

  /** The `StringBuilder` loop of `ExportOrdersCsv`: the header line, then
      one line per order, each followed by a newline. */
  method WriteLines(header: string, orders: seq<Order>, rowOf: Order -> string) returns (sb: string)
    ensures sb == Lines([header] + RowsBy(orders, rowOf))
  {
    sb := header + "\n";
    CsvFirstLine(header, orders, rowOf);
    var i := 0;
    while i < |orders|
      invariant 0 <= i <= |orders|
      invariant sb == Lines([header] + RowsBy(orders[..i], rowOf))
    {
      var line := rowOf(orders[i]);
      CsvStep(header, orders, i, rowOf);
      sb := sb + line + "\n";
      i := i + 1;
    }
    assert orders[..i] == orders;
  }

  /** `ExportOrdersCsv`: the orders dated within the interval, oldest first,
      written line by line. It changes nothing in the store. */
  method ExportOrdersCsv(db: Db, from: Option<Ticks>, to: Option<Ticks>, now: Ticks, monthBefore: Ticks, env: CsvEnv)
    returns (csv: string, fileName: string)
    ensures var iv := ExportInterval(from, to, now, monthBefore);
      && csv == CsvText(db.orders, db.orderItems, db.users, db.products, iv, env)
      && fileName == CsvFileName(iv, env)
  {
    var iv := ExportInterval(from, to, now, monthBefore);
    var orders := ExportedOrders(db.orders, iv);
    csv := WriteLines(CsvHeader, orders, RowOf(db.orderItems, db.users, db.products, env));
    RowsByRow(orders, db.orderItems, db.users, db.products, env);
    fileName := CsvFileName(iv, env);
  }

  /** The file has one line per order dated within the interval and no
      other, oldest first. */
  lemma CsvOrders(orders: seq<Order>, iv: Interval)
    ensures var e := ExportedOrders(orders, iv);
      && multiset(e) == multiset(Filter(orders, InInterval(iv)))
      && (forall o :: o in e <==> o in orders && iv.start <= o.orderDate <= iv.end)
      && (forall i, j :: 0 <= i < j < |e| ==> e[i].orderDate <= e[j].orderDate)
  {
    var e := ExportedOrders(orders, iv);
    var f := Filter(orders, InInterval(iv));
    forall o ensures o in e <==> o in orders && iv.start <= o.orderDate <= iv.end {
      assert o in e <==> o in multiset(e);
      assert o in f <==> o in multiset(f);
      assert o in f <==> o in orders && InInterval(iv)(o);
    }
    forall i, j | 0 <= i < j < |e| ensures e[i].orderDate <= e[j].orderDate {
      assert RankGe(ByDateAsc(e[i]), ByDateAsc(e[j]));
    }
  }

  /** Lines without newlines come back from splitting their text at
      newlines, followed by the empty remainder after the last one. */
  lemma LinesSplit(ls: seq<string>)
    requires forall i :: 0 <= i < |ls| ==> NoneIn(ls[i], {'\n'})
    ensures Split(Lines(ls), {'\n'}) == ls + [""]
  {
    var all := ls + [""];
    LinesJoin(ls);
    forall i | 0 <= i < |all| ensures NoneIn(all[i], {'\n'}) {
      if i < |ls| { assert all[i] == ls[i]; }
    }
    SplitJoin(all, '\n');
  }

  /** With no newline in any field, splitting the text at newlines gives
      back the header, the order lines, and the empty remainder after the
      last newline. */
  lemma CsvLines(orders: seq<Order>, orderItems: seq<OrderItem>, users: seq<User>, products: seq<Product>,
                 iv: Interval, env: CsvEnv)
    requires forall o :: o in orders ==> NoneIn(Row(o, orderItems, users, products, env), {'\n'})
    ensures var rs := Rows(ExportedOrders(orders, iv), orderItems, users, products, env);
      Split(CsvText(orders, orderItems, users, products, iv, env), {'\n'}) == [CsvHeader] + rs + [""]
  {
    var header := CsvHeader;
    HeaderFields();
    var e := ExportedOrders(orders, iv);
    var rs := Rows(e, orderItems, users, products, env);
    CsvOrders(orders, iv);
    var ls := [header] + rs;
    forall i | 0 <= i < |ls| ensures NoneIn(ls[i], {'\n'}) {
      if 0 < i {
        assert ls[i] == rs[i - 1];
        assert e[i - 1] in e;
      }
    }
    LinesSplit(ls);
  }

  /** The header line splits at commas into its eight column names. */
  lemma HeaderFields()
    ensures Split(CsvHeader, {','}) == CsvColumns
    ensures |CsvColumns| == 8
    ensures NoneIn(CsvHeader, {'\n'})
  {
    ColumnsPlain(',');
    ColumnsPlain('\n');
    SplitJoin(CsvColumns, ',');
    JoinNoneIn(",", CsvColumns, {'\n'});
  }

  /** No column name holds a comma or a line break. */
  lemma ColumnsPlain(c: char)
    requires c == ',' || c == '\n'
    ensures forall i :: 0 <= i < |CsvColumns| ==> NoneIn(CsvColumns[i], {c})
  {
    assert NoneIn("OrderId", {c});
    assert NoneIn("OrderDate", {c});
    assert NoneIn("CustomerId", {c});
    assert NoneIn("CustomerName", {c});
    assert NoneIn("Status", {c});
    assert NoneIn("TotalAmount", {c});
    assert NoneIn("ItemCount", {c});
    assert NoneIn("Items", {c});
  }

  /** Every line has the header's eight fields. In the name field each
      comma of the customer's name has become a space and every other
      character is kept; the total field is the amount printed with a '.'
      (see `MoneyTextParts`); the count field is the number of the order's
      lines; the items field is quoted. When no field holds a comma,
      splitting the line at commas gives the fields back. */
  lemma RowSpec(o: Order, orderItems: seq<OrderItem>, users: seq<User>, products: seq<Product>, env: CsvEnv)
    ensures var fs := RowFields(o, orderItems, users, products, env);
      var nm := CustomerName(users, o.customerId);
      var raw := if nm.Some? then nm.value else "";
      && |fs| == 8
      && |fs[3]| == |raw|
      && (forall i :: 0 <= i < |raw| ==> fs[3][i] == (if raw[i] == ',' then ' ' else raw[i]))
      && NoneIn(fs[3], {','})
      && fs[5] == MoneyText(o.totalAmount)
      && fs[6] == NatText(|InvoicePdf.ItemsOf(orderItems, o.orderId)|)
      && |fs[7]| >= 2 && fs[7][0] == '"' && fs[7][|fs[7]| - 1] == '"'
      && ((forall i :: 0 <= i < |fs| ==> NoneIn(fs[i], {','})) ==>
            Split(Row(o, orderItems, users, products, env), {','}) == fs)
  {
    var fs := RowFields(o, orderItems, users, products, env);
    if forall i :: 0 <= i < |fs| ==> NoneIn(fs[i], {','}) {
      SplitJoin(fs, ',');
    }
  }

  /** The items field of an order's line: `""` for an order without lines;
      otherwise, when no item text holds a '|', the text between the quotes
      splits at '|' into the order's item texts, one per line, in the order
      `ItemsOf` lists them. */
  lemma RowItems(o: Order, orderItems: seq<OrderItem>, users: seq<User>, products: seq<Product>, env: CsvEnv)
    ensures var f := RowFields(o, orderItems, users, products, env)[7];
      var items := InvoicePdf.ItemsOf(orderItems, o.orderId);
      var its := ItemTexts(items, products, env);
      && (items == [] ==> f == "\"\"")
      && (items != [] && (forall i :: 0 <= i < |its| ==> NoneIn(its[i], {'|'})) ==>
            |f| >= 2 && Split(f[1..|f| - 1], {'|'}) == its)
  {
    var items := InvoicePdf.ItemsOf(orderItems, o.orderId);
    var its := ItemTexts(items, products, env);
    var inner := Join("|", its);
    assert RowFields(o, orderItems, users, products, env)[7] == "\"" + inner + "\"";
    assert ("\"" + inner + "\"")[1..|inner| + 1] == inner;
    if items != [] && forall i :: 0 <= i < |its| ==> NoneIn(its[i], {'|'}) {
      SplitJoin(its, '|');
    }
  }
}
