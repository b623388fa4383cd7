/**
 * The six report queries. Each reads the store and filters, orders, takes
 * and projects it into the rows the XML export writes; the export itself is
 * not part of this model.
 */
module Reports {
  import opened Linq
  import opened Entities
  import Strings

  // ================================================================ A. cars with distance

  /** `ExportCars`, also the car part of a discounted-sale row. */
  datatype CarRow = CarRow(make: string, model: string, traveledDistance: int)

  function ToCarRow(c: Car): CarRow {
    CarRow(c.make, c.model, c.traveledDistance)
  }

  predicate IsFar(c: Car) {
    c.traveledDistance > 2000000
  }

  /** `OrderBy(Make).ThenBy(Model)` on the two keys. */
  predicate MakeModelOrder(make1: string, model1: string, make2: string, model2: string) {
    Strings.Lt(make1, make2) || (make1 == make2 && Strings.Le(model1, model2))
  }

  predicate MakeThenModel(a: Car, b: Car) {
    MakeModelOrder(a.make, a.model, b.make, b.model)
  }

  predicate RowMakeThenModel(a: CarRow, b: CarRow) {
    MakeModelOrder(a.make, a.model, b.make, b.model)
  }

  lemma MakeThenModelIsTotalPreorder()
    ensures TotalPreorder(MakeThenModel)
  {
    forall a: Car, b: Car ensures MakeThenModel(a, b) || MakeThenModel(b, a) {
      Strings.OrderFacts(a.make, b.make, a.make);
      Strings.OrderFacts(a.model, b.model, a.model);
    }
    forall a: Car, b: Car, c: Car | MakeThenModel(a, b) && MakeThenModel(b, c)
      ensures MakeThenModel(a, c)
    {
      Strings.OrderFacts(a.make, b.make, c.make);
      Strings.OrderFacts(b.make, a.make, c.make);
      Strings.OrderFacts(a.model, b.model, c.model);
    }
  }

  /** The cars that have driven more than 2,000,000, by make and model. */
  function FarCarsByMakeAndModel(db: Store): (s: seq<Car>)
    ensures forall i | 0 <= i < |s| :: IsFar(s[i])
    ensures SortedBy(s, MakeThenModel)
    ensures multiset(s) == multiset(Where(db.cars, IsFar))
  {
    MakeThenModelIsTotalPreorder();
    var s := SortBy(Where(db.cars, IsFar), MakeThenModel);
    PermutationKeepsAll(Where(db.cars, IsFar), s, IsFar);
    s
  }

  /** Query A: at most ten cars over 2,000,000, ordered by make, then model. */
  function CarsWithDistance(db: Store): (r: seq<CarRow>)
    ensures |r| <= 10
    ensures forall i | 0 <= i < |r| :: r[i].traveledDistance > 2000000
    ensures SortedBy(r, RowMakeThenModel)
  {
    var far := FarCarsByMakeAndModel(db);
    RowsFollowCarOrder();
    SelectTakeKeepsSorted(far, 10, MakeThenModel, ToCarRow, RowMakeThenModel);
    FarRowsAreFar(far, 10);
    Select(Take(far, 10), ToCarRow)
  }

  /** A car row sorts where its car does. */
  lemma RowsFollowCarOrder()
    ensures Monotone(MakeThenModel, ToCarRow, RowMakeThenModel)
  {
  }

  lemma {:induction false} FarRowsAreFar(s: seq<Car>, n: nat)
    requires forall i | 0 <= i < |s| :: IsFar(s[i])
    ensures forall i | 0 <= i < |Select(Take(s, n), ToCarRow)| :: Select(Take(s, n), ToCarRow)[i].traveledDistance > 2000000
  {
    var t := Take(s, n);
    forall i | 0 <= i < |Select(t, ToCarRow)|
      ensures Select(t, ToCarRow)[i].traveledDistance > 2000000
    {
      assert Select(t, ToCarRow)[i] == ToCarRow(t[i]);
      assert t[i] == s[i];
      assert IsFar(s[i]);
    }
  }

  /**
   * Query A returns the first ten of all the qualifying cars in order: all of
   * them when there are at most ten, otherwise ten, and every qualifying car
   * it leaves out sorts at or after each one it returns.
   */
  lemma {:induction false} CarsWithDistanceAreTheFirstTen(db: Store)
    ensures var far := Select(Where(db.cars, IsFar), ToCarRow);
            var r := CarsWithDistance(db);
            && |r| == (if |far| <= 10 then |far| else 10)
            && multiset(r) <= multiset(far)
            && forall x | x in multiset(far) - multiset(r) ::
                 forall i | 0 <= i < |r| :: RowMakeThenModel(r[i], x)
  {
    RowsFollowCarOrder();
    SelectTakeOfSortedIsLeast(FarCarsByMakeAndModel(db), Where(db.cars, IsFar), 10,
                              MakeThenModel, ToCarRow, RowMakeThenModel);
  }

  // ================================================================ B. BMW cars

  /** `ExportCarsBMWsDTO`. */
  datatype BmwCarRow = BmwCarRow(id: int, model: string, traveledDistance: int)

  function ToBmwCarRow(c: Car): BmwCarRow {
    BmwCarRow(c.id, c.model, c.traveledDistance)
  }

  predicate IsBmw(c: Car) {
    c.make == "BMW"
  }

  /** `OrderBy(Model).ThenByDescending(TraveledDistance)`. */
  predicate ModelThenDistanceDescending(a: BmwCarRow, b: BmwCarRow) {
    Strings.Lt(a.model, b.model) || (a.model == b.model && a.traveledDistance >= b.traveledDistance)
  }

  lemma ModelThenDistanceDescendingIsTotalPreorder()
    ensures TotalPreorder(ModelThenDistanceDescending)
  {
    forall a: BmwCarRow, b: BmwCarRow
      ensures ModelThenDistanceDescending(a, b) || ModelThenDistanceDescending(b, a)
    {
      Strings.OrderFacts(a.model, b.model, a.model);
    }
    forall a: BmwCarRow, b: BmwCarRow, c: BmwCarRow
      | ModelThenDistanceDescending(a, b) && ModelThenDistanceDescending(b, c)
      ensures ModelThenDistanceDescending(a, c)
    {
      Strings.OrderFacts(a.model, b.model, c.model);
      Strings.OrderFacts(b.model, a.model, c.model);
    }
  }

  /** Query B: every BMW, ordered by model, then by distance, longest first. */
  function CarsFromMakeBmw(db: Store): (r: seq<BmwCarRow>)
    ensures SortedBy(r, ModelThenDistanceDescending)
    ensures multiset(r) == multiset(Select(Where(db.cars, IsBmw), ToBmwCarRow))
  {
    ModelThenDistanceDescendingIsTotalPreorder();
    SortBy(Select(Where(db.cars, IsBmw), ToBmwCarRow), ModelThenDistanceDescending)
  }

  /** Query B lists exactly the BMWs: one row per stored BMW and no other row. */
  lemma {:induction false} CarsFromMakeBmwAreExactlyTheBmws(db: Store)
    ensures |CarsFromMakeBmw(db)| == |Where(db.cars, IsBmw)|
    ensures forall c | c in db.cars && c.make == "BMW" :: ToBmwCarRow(c) in CarsFromMakeBmw(db)
    ensures forall x | x in CarsFromMakeBmw(db) ::
              exists c | c in db.cars :: c.make == "BMW" && x == ToBmwCarRow(c)
  {
    var bmws := Where(db.cars, IsBmw);
    var r := CarsFromMakeBmw(db);
    PermutedSelectMembers(bmws, ToBmwCarRow, r);
    WhereMembers(db.cars, IsBmw);
  }

  // ================================================================ C. local suppliers

  /** `ExportLocalSuppliersDTO`. */
  datatype LocalSupplierRow = LocalSupplierRow(id: int, name: string, partsCount: nat)

  function PartSupplierId(p: Part): int { p.supplierId }

  /** `s.Parts.Count()`: how many stored parts name `supplierId` as their supplier. */
  function PartsCount(parts: seq<Part>, supplierId: int): (n: nat)
    ensures n == multiset(Select(parts, PartSupplierId))[supplierId]
  {
    WhereKeyCount(parts, PartSupplierId, supplierId);
    |WhereKey(parts, PartSupplierId, supplierId)|
  }

  function ToLocalSupplierRow(parts: seq<Part>, s: Supplier): LocalSupplierRow {
    LocalSupplierRow(s.id, s.name, PartsCount(parts, s.id))
  }

  predicate IsLocal(s: Supplier) {
    !s.isImporter
  }

  /** Query C: the suppliers that are not importers, in storage order, with their part counts. */
  function LocalSuppliers(db: Store): (r: seq<LocalSupplierRow>)
    ensures |r| == |Where(db.suppliers, IsLocal)|
    ensures forall i | 0 <= i < |r| :: r[i].partsCount == multiset(Select(db.parts, PartSupplierId))[r[i].id]
  {
    Select(Where(db.suppliers, IsLocal), (s: Supplier) => ToLocalSupplierRow(db.parts, s))
  }

  /** Query C lists exactly the local suppliers: each of them appears, and every row is one. */
  lemma {:induction false} LocalSuppliersAreExactlyTheLocalOnes(db: Store)
    ensures forall s | s in db.suppliers && !s.isImporter :: ToLocalSupplierRow(db.parts, s) in LocalSuppliers(db)
    ensures forall x | x in LocalSuppliers(db) ::
              exists s | s in db.suppliers :: !s.isImporter && x == ToLocalSupplierRow(db.parts, s)
  {
    var locals := Where(db.suppliers, IsLocal);
    var r := LocalSuppliers(db);
    WhereKeepsExactly(db.suppliers, IsLocal);
    forall s | s in db.suppliers && !s.isImporter ensures ToLocalSupplierRow(db.parts, s) in r {
      assert s in multiset(locals);
      var k :| 0 <= k < |locals| && locals[k] == s;
      assert r[k] == ToLocalSupplierRow(db.parts, s);
    }
    forall x | x in r ensures exists s | s in db.suppliers :: !s.isImporter && x == ToLocalSupplierRow(db.parts, s) {
      var k :| 0 <= k < |r| && r[k] == x;
      assert locals[k] in multiset(locals);
      assert locals[k] in db.suppliers;
    }
  }

  /** Query C keeps storage order: ids ascend, since the identity column numbers rows as stored. */
  lemma {:induction false} LocalSuppliersInStorageOrder(db: Store)
    requires IdsArePositions(db.suppliers, SupplierKey)
    ensures forall i, j | 0 <= i < j < |LocalSuppliers(db)| :: LocalSuppliers(db)[i].id < LocalSuppliers(db)[j].id
  {
    WhereKeepsIncreasing(db.suppliers, IsLocal, SupplierKey);
  }

  // ================================================================ D. cars with their parts

  /** `PartsFromCarsDTO`. */
  datatype PartRow = PartRow(name: string, price: int)

  /** `ExportCarsWithPartsDTO`. */
  datatype CarWithPartsRow = CarWithPartsRow(make: string, model: string, traveledDistance: int, parts: seq<PartRow>)

  /**
   * `PartsCars.Select(pc => pc.Part)`: the parts the join rows name, in link
   * order. A row naming no stored part joins nothing.
   */
  function JoinedParts(parts: seq<Part>, links: seq<PartCar>): (r: seq<Part>)
    ensures |r| <= |links|
    ensures forall i | 0 <= i < |r| :: r[i] in parts
  {
    if links == [] then []
    else match FindById(parts, links[0].partId, PartKey)
      case None => JoinedParts(parts, links[1..])
      case Some(p) => [p] + JoinedParts(parts, links[1..])
  }

  /** When every join row names a stored part, each joins exactly that part. */
  lemma {:induction false} JoinedPartsOfKnownLinks(parts: seq<Part>, links: seq<PartCar>)
    requires forall l | l in links :: l.partId in Ids(parts, PartKey)
    ensures |JoinedParts(parts, links)| == |links|
    ensures forall k | 0 <= k < |links| :: JoinedParts(parts, links)[k].id == links[k].partId
  {
    if links != [] {
      assert links[0] in links;
      JoinedPartsOfKnownLinks(parts, links[1..]);
    }
  }

  function ToPartRow(p: Part): PartRow {
    PartRow(p.name, p.price)
  }

  /** `OrderByDescending(Price)`. */
  predicate PriceDescending(a: PartRow, b: PartRow) {
    a.price >= b.price
  }

  lemma PriceDescendingIsTotalPreorder()
    ensures TotalPreorder(PriceDescending)
  {
  }

  /** One car of query D: its parts, most expensive first. */
  function ToCarWithPartsRow(parts: seq<Part>, c: Car): (row: CarWithPartsRow)
    ensures row.traveledDistance == c.traveledDistance && row.model == c.model && row.make == c.make
    ensures SortedBy(row.parts, PriceDescending)
    ensures multiset(row.parts) == multiset(Select(JoinedParts(parts, c.partsCars), ToPartRow))
  {
    PriceDescendingIsTotalPreorder();
    var ps := SortBy(Select(JoinedParts(parts, c.partsCars), ToPartRow), PriceDescending);
    CarWithPartsRow(c.make, c.model, c.traveledDistance, ps)
  }

  /** In a consistent store every linked part of a car appears in its row. */
  lemma {:induction false} CarWithPartsRowListsEveryLinkedPart(db: Store, c: Car)
    requires db.Valid() && c in db.cars
    ensures |ToCarWithPartsRow(db.parts, c).parts| == |c.partsCars|
    ensures forall k | 0 <= k < |c.partsCars| ::
              ToPartRow(db.parts[c.partsCars[k].partId - 1]) in ToCarWithPartsRow(db.parts, c).parts
  {
    var joined := JoinedParts(db.parts, c.partsCars);
    var row := ToCarWithPartsRow(db.parts, c);
    JoinedPartsOfKnownLinks(db.parts, c.partsCars);
    assert |row.parts| == |multiset(row.parts)| == |Select(joined, ToPartRow)|;
    forall k | 0 <= k < |c.partsCars|
      ensures ToPartRow(db.parts[c.partsCars[k].partId - 1]) in row.parts
    {
      var p := joined[k];
      assert p in db.parts;
      var m :| 0 <= m < |db.parts| && db.parts[m] == p;
      assert p.id == m + 1;
      assert Select(joined, ToPartRow)[k] == ToPartRow(p);
      assert ToPartRow(p) in multiset(row.parts);
    }
  }

  /** `OrderByDescending(TraveledDistance).ThenBy(Model)`. */
  predicate DistanceDescendingThenModel(a: CarWithPartsRow, b: CarWithPartsRow) {
    a.traveledDistance > b.traveledDistance ||
    (a.traveledDistance == b.traveledDistance && Strings.Le(a.model, b.model))
  }

  lemma DistanceDescendingThenModelIsTotalPreorder()
    ensures TotalPreorder(DistanceDescendingThenModel)
  {
    forall a: CarWithPartsRow, b: CarWithPartsRow
      ensures DistanceDescendingThenModel(a, b) || DistanceDescendingThenModel(b, a)
    {
      Strings.OrderFacts(a.model, b.model, a.model);
    }
    forall a: CarWithPartsRow, b: CarWithPartsRow, c: CarWithPartsRow
      | DistanceDescendingThenModel(a, b) && DistanceDescendingThenModel(b, c)
      ensures DistanceDescendingThenModel(a, c)
    {
      Strings.OrderFacts(a.model, b.model, c.model);
    }
  }

  /** Every car of the store as a query D row, in storage order. */
  function CarWithPartsRows(db: Store): seq<CarWithPartsRow> {
    Select(db.cars, (c: Car) => ToCarWithPartsRow(db.parts, c))
  }

  /** All query D rows, by distance (longest first), then model. */
  function CarsByDistanceThenModel(db: Store): (s: seq<CarWithPartsRow>)
    ensures SortedBy(s, DistanceDescendingThenModel)
    ensures multiset(s) == multiset(CarWithPartsRows(db))
    ensures forall i | 0 <= i < |s| :: SortedBy(s[i].parts, PriceDescending)
  {
    DistanceDescendingThenModelIsTotalPreorder();
    var s := SortBy(CarWithPartsRows(db), DistanceDescendingThenModel);
    CarWithPartsRowsHaveSortedParts(db);
    PermutationKeepsAll(CarWithPartsRows(db), s, (row: CarWithPartsRow) => SortedBy(row.parts, PriceDescending));
    s
  }

  lemma {:induction false} CarWithPartsRowsHaveSortedParts(db: Store)
    ensures forall i | 0 <= i < |CarWithPartsRows(db)| :: SortedBy(CarWithPartsRows(db)[i].parts, PriceDescending)
  {
    forall i | 0 <= i < |CarWithPartsRows(db)| ensures SortedBy(CarWithPartsRows(db)[i].parts, PriceDescending) {
      assert CarWithPartsRows(db)[i] == ToCarWithPartsRow(db.parts, db.cars[i]);
    }
  }

  /**
   * Query D: the five cars that have driven furthest (ties by model), each
   * with its parts, most expensive first.
   */
  function CarsWithTheirListOfParts(db: Store): (r: seq<CarWithPartsRow>)
    ensures |r| <= 5
    ensures SortedBy(r, DistanceDescendingThenModel)
    ensures forall i | 0 <= i < |r| :: SortedBy(r[i].parts, PriceDescending)
  {
    Take(CarsByDistanceThenModel(db), 5)
  }

  /**
   * Query D returns the first five of all cars in its order: every car left
   * out sorts at or after each one returned.
   */
  lemma {:induction false} CarsWithTheirListOfPartsAreTheFirstFive(db: Store)
    ensures |CarsWithTheirListOfParts(db)| == if |db.cars| <= 5 then |db.cars| else 5
    ensures multiset(CarsWithTheirListOfParts(db)) <= multiset(CarWithPartsRows(db))
    ensures forall x | x in multiset(CarWithPartsRows(db)) - multiset(CarsWithTheirListOfParts(db)) ::
              forall i | 0 <= i < |CarsWithTheirListOfParts(db)| ::
                DistanceDescendingThenModel(CarsWithTheirListOfParts(db)[i], x)
  {
    var s := CarsByDistanceThenModel(db);
    assert |s| == |multiset(s)| == |db.cars|;
    TakeOfSortedIsLeast(s, 5, DistanceDescendingThenModel);
  }

  // ================================================================ prices

  function PartPrice(p: Part): int { p.price }

  /** The prices of the parts of the car with id `carId` (none if no such car is stored). */
  function CarPartPrices(db: Store, carId: int): seq<int> {
    match FindById(db.cars, carId, CarKey)
    case None => []
    case Some(car) => Select(JoinedParts(db.parts, car.partsCars), PartPrice)
  }

  /** `s.Car.PartsCars.Sum(pc => pc.Part.Price)`: what the parts of the car with id `carId` cost together. */
  function CarPrice(db: Store, carId: int): int {
    Sum(CarPartPrices(db, carId))
  }

  /**
   * `Math.Round(x, 2)` on an amount in cents scaled by `d`: the nearest whole
   * number to `n / d`, a tie going to the even one (the default midpoint rule).
   */
  function RoundHalfEven(n: int, d: int): (r: int)
    requires d > 0
    ensures 2 * (n - d * r) <= d && 2 * (d * r - n) <= d
    ensures 2 * (n - d * r) == d || 2 * (d * r - n) == d ==> r % 2 == 0
  {
    var q, m := n / d, n % d;
    assert n == d * q + m;
    if 2 * m < d then q
    else if 2 * m > d then q + 1
    else if q % 2 == 0 then q
    else q + 1
  }

  /** A young driver pays 95% of each part's price, rounded to the cent. */
  function YoungDriverPrice(price: int): int {
    RoundHalfEven(price * 95, 100)
  }

  lemma {:induction false} YoungDriverPriceIsAtMostPrice(price: int)
    requires price >= 0
    ensures 0 <= YoungDriverPrice(price) <= price
  {
    var r := YoungDriverPrice(price);
    assert 2 * (100 * r - price * 95) <= 100;
    assert 2 * (price * 95 - 100 * r) <= 100;
  }

  // ================================================================ E. total sales by customer

  /** `ExportSalesByCustomerDTO`. */
  datatype CustomerRow = CustomerRow(fullName: string, boughtCars: nat, spentMoney: int)

  function SaleCustomerId(s: Sale): int { s.customerId }

  /** `c.Sales`: the sales naming the customer `customerId`. */
  function SalesOf(sales: seq<Sale>, customerId: int): seq<Sale> {
    WhereKey(sales, SaleCustomerId, customerId)
  }

  /** What one sale cost the customer: its car's part prices, reduced for a young driver. */
  function SalePrice(db: Store, s: Sale, youngDriver: bool): int {
    if youngDriver then Sum(Select(CarPartPrices(db, s.carId), YoungDriverPrice))
    else CarPrice(db, s.carId)
  }

  function ToCustomerRow(db: Store, c: Customer): CustomerRow {
    var sales := SalesOf(db.sales, c.id);
    CustomerRow(c.name, |sales|, Sum(Select(sales, (s: Sale) => SalePrice(db, s, c.isYoungDriver))))
  }

  /** `c.Sales.Any()`. */
  predicate HasSales(db: Store, c: Customer) {
    SalesOf(db.sales, c.id) != []
  }

  /** The customers with at least one sale, in storage order. */
  function Buyers(db: Store): seq<Customer> {
    Where(db.customers, (c: Customer) => HasSales(db, c))
  }

  function CustomerRows(db: Store): seq<CustomerRow> {
    Select(Buyers(db), (c: Customer) => ToCustomerRow(db, c))
  }

  /** `OrderByDescending(total spent)`. */
  predicate SpentDescending(a: CustomerRow, b: CustomerRow) {
    a.spentMoney >= b.spentMoney
  }

  lemma SpentDescendingIsTotalPreorder()
    ensures TotalPreorder(SpentDescending)
  {
  }

  /** Query E: every customer with a sale, with the number of sales and the total spent, biggest spender first. */
  function TotalSalesByCustomer(db: Store): (r: seq<CustomerRow>)
    ensures SortedBy(r, SpentDescending)
    ensures multiset(r) == multiset(CustomerRows(db))
    ensures forall i | 0 <= i < |r| :: r[i].boughtCars >= 1
  {
    SpentDescendingIsTotalPreorder();
    var r := SortBy(CustomerRows(db), SpentDescending);
    CustomerRowsBoughtSomething(db);
    PermutationKeepsAll(CustomerRows(db), r, (row: CustomerRow) => row.boughtCars >= 1);
    r
  }

  lemma {:induction false} CustomerRowsBoughtSomething(db: Store)
    ensures forall i | 0 <= i < |CustomerRows(db)| :: CustomerRows(db)[i].boughtCars >= 1
  {
    forall i | 0 <= i < |CustomerRows(db)| ensures CustomerRows(db)[i].boughtCars >= 1 {
      var c := Buyers(db)[i];
      assert HasSales(db, c);
      assert CustomerRows(db)[i] == ToCustomerRow(db, c);
    }
  }

  /** Query E lists exactly the customers with a sale, one row each. */
  lemma {:induction false} TotalSalesByCustomerListsExactlyTheBuyers(db: Store)
    ensures |TotalSalesByCustomer(db)| == |Buyers(db)|
    ensures forall c | c in db.customers && HasSales(db, c) :: ToCustomerRow(db, c) in TotalSalesByCustomer(db)
    ensures forall x | x in TotalSalesByCustomer(db) ::
              exists c | c in db.customers :: HasSales(db, c) && x == ToCustomerRow(db, c)
  {
    var buyers := Buyers(db);
    var r := TotalSalesByCustomer(db);
    WhereKeepsExactly(db.customers, (c: Customer) => HasSales(db, c));
    assert forall c :: c in buyers <==> c in db.customers && HasSales(db, c) by {
      forall c ensures c in buyers <==> c in multiset(buyers) { }
    }
    PermutedSelectMembers(buyers, (c: Customer) => ToCustomerRow(db, c), r);
  }

  /**
   * A customer's row counts the sales naming them, and a young driver never
   * pays more than the plain sum of the part prices.
   */
  lemma {:induction false} CustomerRowCountsSalesAndDiscounts(db: Store, c: Customer)
    requires forall p | p in db.parts :: p.price >= 0
    ensures ToCustomerRow(db, c).boughtCars == multiset(Select(db.sales, SaleCustomerId))[c.id]
    ensures ToCustomerRow(db, c).spentMoney <= ToCustomerRow(db, c.(isYoungDriver := false)).spentMoney
    ensures ToCustomerRow(db, c).spentMoney >= 0
  {
    WhereKeyCount(db.sales, SaleCustomerId, c.id);
    var sales := SalesOf(db.sales, c.id);
    var paid := Select(sales, (s: Sale) => SalePrice(db, s, c.isYoungDriver));
    var plain := Select(sales, (s: Sale) => SalePrice(db, s, false));
    forall i | 0 <= i < |sales| ensures 0 <= paid[i] <= plain[i] {
      SalePriceBounds(db, sales[i]);
    }
    SumMonotone(paid, plain);
    SumNonNegative(paid);
  }

  lemma {:induction false} SalePriceBounds(db: Store, s: Sale)
    requires forall p | p in db.parts :: p.price >= 0
    ensures 0 <= SalePrice(db, s, true) <= SalePrice(db, s, false)
  {
    var prices := CarPartPrices(db, s.carId);
    var reduced := Select(prices, YoungDriverPrice);
    forall i | 0 <= i < |prices| ensures 0 <= reduced[i] <= prices[i] {
      var car := FindById(db.cars, s.carId, CarKey).value;
      var joined := JoinedParts(db.parts, car.partsCars);
      assert prices == Select(joined, PartPrice);
      assert joined[i] in db.parts;
      YoungDriverPriceIsAtMostPrice(prices[i]);
    }
    SumMonotone(reduced, prices);
    SumNonNegative(reduced);
  }

  // ================================================================ F. sales with applied discount

  /**
   * `ExportSalesWithDiscountDTO`. The price is in cents, the discounted price in
   * ten-thousandths of a currency unit (the four decimals it is rounded to).
   */
  datatype SaleRow = SaleRow(car: CarRow, discount: int, customerName: string, price: int, priceWithDiscount: int)

  /**
   * `(int)s.Discount`: the discount (in hundredths of a percent) as a whole
   * percent, truncated toward zero.
   */
  function WholePercent(hundredths: int): (p: int)
    ensures hundredths >= 0 ==> 0 <= 100 * p <= hundredths < 100 * p + 100
    ensures hundredths < 0 ==> 100 * p - 100 < hundredths <= 100 * p <= 0
  {
    if hundredths >= 0 then hundredths / 100 else -((-hundredths) / 100)
  }

  /**
   * `Math.Round(price * (1 - discount / 100), 4)`: the price in cents less a
   * discount in hundredths of a percent, in ten-thousandths of a currency unit.
   */
  function PriceWithDiscount(price: int, discount: int): int {
    RoundHalfEven(price * (10000 - discount), 100)
  }

  /** No discount leaves the price as it is; a discount of 0% to 100% never raises it or makes it negative. */
  lemma {:induction false} PriceWithDiscountBounds(price: int, discount: int)
    requires price >= 0 && 0 <= discount <= 10000
    ensures 0 <= PriceWithDiscount(price, discount) <= 100 * price
    ensures discount == 0 ==> PriceWithDiscount(price, discount) == 100 * price
  {
    var r := PriceWithDiscount(price, discount);
    var n := price * (10000 - discount);
    assert 0 <= n <= price * 10000;
    assert 2 * (n - 100 * r) <= 100 && 2 * (100 * r - n) <= 100;
    if discount == 0 {
      assert n == 100 * (100 * price);
    }
  }

  function ToSaleRow(car: Car, customer: Customer, s: Sale, price: int): SaleRow {
    SaleRow(ToCarRow(car), WholePercent(s.discount), customer.name, price, PriceWithDiscount(price, s.discount))
  }

  /**
   * One row per sale whose car and customer are stored (the navigations
   * `s.Car` and `s.Customer` join; a sale naming neither joins nothing).
   */
  function DiscountRows(db: Store, sales: seq<Sale>): (r: seq<SaleRow>)
    ensures |r| <= |sales|
  {
    if sales == [] then []
    else
      var s := sales[0];
      var rest := DiscountRows(db, sales[1..]);
      var car := FindById(db.cars, s.carId, CarKey);
      var customer := FindById(db.customers, s.customerId, CustomerKey);
      if car.Some? && customer.Some? then [ToSaleRow(car.value, customer.value, s, CarPrice(db, s.carId))] + rest
      else rest
  }

  /** Query F: every sale with its car, whole-percent discount, customer, price and discounted price. */
  function SalesWithAppliedDiscount(db: Store): (r: seq<SaleRow>)
    ensures |r| <= |db.sales|
  {
    DiscountRows(db, db.sales)
  }

  /** The row query F gives a sale whose car and customer are the stored ones at their ids. */
  function KnownSaleRow(db: Store, s: Sale): SaleRow
    requires 1 <= s.carId <= |db.cars| && 1 <= s.customerId <= |db.customers|
  {
    var car := db.cars[s.carId - 1];
    ToSaleRow(car, db.customers[s.customerId - 1], s, Sum(Select(JoinedParts(db.parts, car.partsCars), PartPrice)))
  }

  /**
   * In a consistent store query F has one row per sale, in storage order,
   * describing that sale's car and customer; its price is the sum of the
   * prices of the car's parts.
   */
  lemma {:induction false} SalesWithAppliedDiscountHasOneRowPerSale(db: Store)
    requires db.Valid()
    ensures |SalesWithAppliedDiscount(db)| == |db.sales|
    ensures forall i | 0 <= i < |db.sales| ::
              && 1 <= db.sales[i].carId <= |db.cars| && 1 <= db.sales[i].customerId <= |db.customers|
              && SalesWithAppliedDiscount(db)[i] == KnownSaleRow(db, db.sales[i])
  {
    KnownIdsAreRange(db.cars, CarKey);
    KnownIdsAreRange(db.customers, CustomerKey);
    DiscountRowsOfKnownSales(db, db.sales);
  }

  lemma {:induction false} DiscountRowsOfKnownSales(db: Store, sales: seq<Sale>)
    requires IdsArePositions(db.cars, CarKey) && IdsArePositions(db.customers, CustomerKey)
    requires forall i | 0 <= i < |sales| :: 1 <= sales[i].carId <= |db.cars| && 1 <= sales[i].customerId <= |db.customers|
    ensures |DiscountRows(db, sales)| == |sales|
    ensures forall i | 0 <= i < |sales| :: DiscountRows(db, sales)[i] == KnownSaleRow(db, sales[i])
  {
    if sales != [] {
      var tail := sales[1..];
      assert forall i | 0 <= i < |tail| :: tail[i] == sales[i + 1];
      DiscountRowsOfKnownSales(db, tail);
      DiscountRowsOfKnownHead(db, sales);
      var rest := DiscountRows(db, tail);
      var r := [KnownSaleRow(db, sales[0])] + rest;
      assert DiscountRows(db, sales) == r;
      forall i | 0 <= i < |sales| ensures r[i] == KnownSaleRow(db, sales[i]) {
        if i > 0 {
          assert r[i] == rest[i - 1] && sales[i] == tail[i - 1];
        }
      }
    }
  }

  /** A sale naming a stored car and customer gives its row ahead of the others. */
  lemma {:induction false} DiscountRowsOfKnownHead(db: Store, sales: seq<Sale>)
    requires IdsArePositions(db.cars, CarKey) && IdsArePositions(db.customers, CustomerKey)
    requires sales != []
    requires 1 <= sales[0].carId <= |db.cars| && 1 <= sales[0].customerId <= |db.customers|
    ensures DiscountRows(db, sales) == [KnownSaleRow(db, sales[0])] + DiscountRows(db, sales[1..])
  {
    FindByIdAtPosition(db.cars, sales[0].carId, CarKey);
    FindByIdAtPosition(db.customers, sales[0].customerId, CustomerKey);
  }

  // ================================================================ E and F together

  function RowSpent(row: CustomerRow): int { row.spentMoney }

  function RowPrice(row: SaleRow): int { row.price }

  /** The price of each sale's car, as a projection for `Select` and `Sum`. */
  function SaleCarPrice(db: Store): Sale -> int {
    (s: Sale) => CarPrice(db, s.carId)
  }

  /**
   * In a consistent store without young drivers, queries E and F account for
   * the same revenue: the customers' totals add up to the sales' prices.
   */
  lemma {:induction false} TotalSpentIsTotalSalePrice(db: Store)
    requires db.Valid()
    requires forall c | c in db.customers :: !c.isYoungDriver
    ensures Sum(Select(TotalSalesByCustomer(db), RowSpent)) == Sum(Select(SalesWithAppliedDiscount(db), RowPrice))
  {
    SalesWithAppliedDiscountHasOneRowPerSale(db);
    KnownRowPricesAreCarPrices(db, SalesWithAppliedDiscount(db));
    CustomersSpentIsSumOfCarPrices(db);
  }

  lemma {:induction false} KnownRowPricesAreCarPrices(db: Store, f: seq<SaleRow>)
    requires IdsArePositions(db.cars, CarKey)
    requires |f| == |db.sales|
    requires forall i | 0 <= i < |db.sales| ::
               && 1 <= db.sales[i].carId <= |db.cars| && 1 <= db.sales[i].customerId <= |db.customers|
               && f[i] == KnownSaleRow(db, db.sales[i])
    ensures Select(f, RowPrice) == Select(db.sales, SaleCarPrice(db))
  {
    forall i | 0 <= i < |db.sales| ensures Select(f, RowPrice)[i] == Select(db.sales, SaleCarPrice(db))[i] {
      var s := db.sales[i];
      var car := db.cars[s.carId - 1];
      FindByIdAtPosition(db.cars, s.carId, CarKey);
      assert CarPartPrices(db, s.carId) == Select(JoinedParts(db.parts, car.partsCars), PartPrice);
      assert f[i].price == CarPrice(db, s.carId);
      assert SaleCarPrice(db)(s) == CarPrice(db, s.carId);
      assert Select(db.sales, SaleCarPrice(db))[i] == SaleCarPrice(db)(s);
      assert Select(f, RowPrice)[i] == f[i].price;
    }
    assert |Select(f, RowPrice)| == |Select(db.sales, SaleCarPrice(db))|;
  }

  /** What each customer spent, as a projection for `Select` and `Sum`. */
  function CustomerSpent(db: Store): Customer -> int {
    (c: Customer) => ToCustomerRow(db, c).spentMoney
  }

  /** Without young drivers, the customers' totals add up to what the sold cars cost. */
  lemma {:induction false} CustomersSpentIsSumOfCarPrices(db: Store)
    requires db.Valid()
    requires forall c | c in db.customers :: !c.isYoungDriver
    ensures Sum(Select(TotalSalesByCustomer(db), RowSpent)) == Sum(Select(db.sales, SaleCarPrice(db)))
  {
    ReportedSpentIsAllCustomersSpent(db);
    CustomersSpentPerCustomer(db);
    SalesGroupedByCustomer(db);
  }

  /** Query E's totals add up to what all customers spent (those without a sale spent nothing). */
  lemma {:induction false} ReportedSpentIsAllCustomersSpent(db: Store)
    ensures Sum(Select(TotalSalesByCustomer(db), RowSpent)) == Sum(Select(db.customers, CustomerSpent(db)))
  {
    ReportedSpentIsBuyersSpent(db);
    BuyersSpentIsAllCustomersSpent(db);
  }

  /** Sorting query E's rows does not change their total. */
  lemma {:induction false} ReportedSpentIsBuyersSpent(db: Store)
    ensures Sum(Select(TotalSalesByCustomer(db), RowSpent)) == Sum(Select(Buyers(db), CustomerSpent(db)))
  {
    var e := TotalSalesByCustomer(db);
    var rows := CustomerRows(db);
    SelectKeepsPermutation(e, rows, RowSpent);
    SumOfPermutation(Select(e, RowSpent), Select(rows, RowSpent));
    BuyerRowsSpent(db);
  }

  /** Before sorting, the rows' totals are the buyers' totals, one by one. */
  lemma {:induction false} BuyerRowsSpent(db: Store)
    ensures Select(CustomerRows(db), RowSpent) == Select(Buyers(db), CustomerSpent(db))
  {
    var rows, buyers := CustomerRows(db), Buyers(db);
    var spent, total := Select(rows, RowSpent), Select(buyers, CustomerSpent(db));
    assert |spent| == |rows| == |buyers| == |total|;
    forall i | 0 <= i < |rows| ensures spent[i] == total[i] {
      var row := ToCustomerRow(db, buyers[i]);
      assert rows[i] == row;
      assert total[i] == CustomerSpent(db)(buyers[i]) == row.spentMoney;
    }
    assert spent == total;
  }

  /** A customer without a sale spent nothing, so leaving them out does not change the total. */
  lemma {:induction false} BuyersSpentIsAllCustomersSpent(db: Store)
    ensures Sum(Select(Buyers(db), CustomerSpent(db))) == Sum(Select(db.customers, CustomerSpent(db)))
  {
    forall c | c in db.customers && !HasSales(db, c) ensures CustomerSpent(db)(c) == 0 {
      assert Select(SalesOf(db.sales, c.id), (s: Sale) => SalePrice(db, s, c.isYoungDriver)) == [];
    }
    SumOverWhere(db.customers, (c: Customer) => HasSales(db, c), CustomerSpent(db));
  }

  /** Without young drivers, the customers' totals add up to the car prices of the sales, grouped by customer id. */
  lemma {:induction false} CustomersSpentPerCustomer(db: Store)
    requires forall c | c in db.customers :: !c.isYoungDriver
    ensures Sum(Select(db.customers, CustomerSpent(db))) ==
            SumPerKey(Select(db.customers, CustomerKey), db.sales, SaleCustomerId, SaleCarPrice(db))
  {
    var g := SaleCarPrice(db);
    forall c | c in db.customers
      ensures CustomerSpent(db)(c) == Sum(Select(WhereKey(db.sales, SaleCustomerId, CustomerKey(c)), g))
    {
      CustomerSpentIsCarPricesOfTheirSales(db, c);
    }
    SumOverGroups(db.customers, CustomerKey, CustomerSpent(db), db.sales, SaleCustomerId, g);
  }

  /** A customer who is not a young driver spent the plain part-price sums of the cars of their sales. */
  lemma {:induction false} CustomerSpentIsCarPricesOfTheirSales(db: Store, c: Customer)
    requires !c.isYoungDriver
    ensures ToCustomerRow(db, c).spentMoney == Sum(Select(SalesOf(db.sales, c.id), SaleCarPrice(db)))
  {
    var g := SaleCarPrice(db);
    var sales := SalesOf(db.sales, c.id);
    forall i | 0 <= i < |sales|
      ensures Select(sales, (s: Sale) => SalePrice(db, s, c.isYoungDriver))[i] == Select(sales, g)[i]
    {
      assert g(sales[i]) == CarPrice(db, sales[i].carId);
    }
    assert Select(sales, (s: Sale) => SalePrice(db, s, c.isYoungDriver)) == Select(sales, g);
  }

  /** Every sale names exactly one stored customer. */
  lemma {:induction false} SalesGroupedByCustomer(db: Store)
    requires db.Valid()
    ensures SumPerKey(Select(db.customers, CustomerKey), db.sales, SaleCustomerId, SaleCarPrice(db)) == Sum(Select(db.sales, SaleCarPrice(db)))
  {
    var ks := Select(db.customers, CustomerKey);
    assert ks == Ids(db.customers, CustomerKey);
    SumPerKeyCoversAll(ks, db.sales, SaleCustomerId, SaleCarPrice(db));
  }
}
