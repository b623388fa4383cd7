/**
 * The five import operations. Each appends a decoded batch to the store and
 * reports how many rows it stored; `ImportParts` and `ImportSales` first drop
 * the rows whose foreign key names nothing stored, and `ImportCars` turns each
 * car's part ids into one join row per distinct part.
 *
 * `SaveChanges` commits a batch all or nothing. The two foreign keys the code
 * does not filter on (a sale's customer, a join row's part) are checked by the
 * database at that point: a batch that breaks one is rejected and nothing of
 * it is stored.
 */
module Importer {
  import opened Linq
  import opened Entities

  /** `SaveChanges` refused the batch: a row names a key that is not stored. */
  datatype StorageError = ForeignKeyViolation

  // ---------------------------------------------------------------- what each import keeps

  /** The parts `ImportParts` stores: those whose supplier id is among `supplierIds`. */
  function KnownSupplierParts(input: seq<PartDto>, supplierIds: seq<int>): seq<PartDto> {
    Where(input, (p: PartDto) => p.supplierId in supplierIds)
  }

  /** `ImportParts` keeps exactly the parts of a known supplier, each as often as given, in input order. */
  lemma {:induction false} ImportPartsKeepsExactlyKnown(input: seq<PartDto>, supplierIds: seq<int>)
    ensures forall p :: multiset(KnownSupplierParts(input, supplierIds))[p] ==
                          if p.supplierId in supplierIds then multiset(input)[p] else 0
    ensures IsSubsequence(KnownSupplierParts(input, supplierIds), input)
  {
    WhereKeepsExactly(input, (p: PartDto) => p.supplierId in supplierIds);
    WhereKeepsOrder(input, (p: PartDto) => p.supplierId in supplierIds);
  }

  /** The sales `ImportSales` stores: those whose car id is among `carIds`. */
  function KnownCarSales(input: seq<SaleDto>, carIds: seq<int>): seq<SaleDto> {
    Where(input, (s: SaleDto) => s.carId in carIds)
  }

  /** `ImportSales` keeps exactly the sales of a known car, each as often as given, in input order. */
  lemma {:induction false} ImportSalesKeepsExactlyKnown(input: seq<SaleDto>, carIds: seq<int>)
    ensures forall s :: multiset(KnownCarSales(input, carIds))[s] ==
                          if s.carId in carIds then multiset(input)[s] else 0
    ensures IsSubsequence(KnownCarSales(input, carIds), input)
  {
    WhereKeepsExactly(input, (s: SaleDto) => s.carId in carIds);
    WhereKeepsOrder(input, (s: SaleDto) => s.carId in carIds);
  }

  /** Every sale names a stored customer: what the database checks on commit. */
  predicate CustomersKnown(batch: seq<SaleDto>, customerIds: seq<int>) {
    forall s | s in batch :: s.customerId in customerIds
  }

  /** Every sale `ImportSales` stores names a stored car and, once the commit passes, a stored customer. */
  lemma {:induction false} KnownSalesNameKnownKeys(firstId: int, input: seq<SaleDto>, carIds: seq<int>, customerIds: seq<int>)
    requires CustomersKnown(KnownCarSales(input, carIds), customerIds)
    ensures forall s | s in Numbered(firstId, KnownCarSales(input, carIds), ToSale) ::
              s.carId in carIds && s.customerId in customerIds
  {
    var kept := KnownCarSales(input, carIds);
    var added := Numbered(firstId, kept, ToSale);
    forall s | s in added ensures s.carId in carIds && s.customerId in customerIds {
      var i :| 0 <= i < |added| && added[i] == s;
      assert s.carId == kept[i].carId && kept[i] in kept;
    }
  }

  /** Appending sales that continue the numbering and name stored keys keeps a store valid. */
  lemma {:induction false} AppendSalesKeepsValid(db: Store, added: seq<Sale>)
    requires db.Valid()
    requires IdsArePositions(db.sales + added, SaleKey)
    requires forall s | s in added :: s.carId in Ids(db.cars, CarKey) && s.customerId in Ids(db.customers, CustomerKey)
    ensures db.(sales := db.sales + added).Valid()
  {
  }

  /** The join rows of car `carId`, one per id, in order. */
  function Links(carId: int, partIds: seq<int>): seq<PartCar> {
    seq(|partIds|, k requires 0 <= k < |partIds| => PartCar(carId, partIds[k]))
  }

  /** The car `ImportCars` builds from one record: its part ids de-duplicated, then linked. */
  function CarFrom(id: int, d: CarDto): Car {
    ToCar(id, d, Links(id, Distinct(d.partIds)))
  }

  /**
   * Each imported car links every part id of its record exactly once: no
   * duplicates, none lost, in the order of first occurrence.
   */
  lemma {:induction false} CarFromLinksEachPartOnce(id: int, d: CarDto)
    ensures CarFrom(id, d).id == id
    ensures forall l | l in CarFrom(id, d).partsCars :: l.carId == id
    ensures NoDuplicates(LinkedPartIds(CarFrom(id, d)))
    ensures forall x :: x in LinkedPartIds(CarFrom(id, d)) <==> x in d.partIds
    ensures forall i, j | 0 <= i < j < |LinkedPartIds(CarFrom(id, d))| ::
              FirstIndex(d.partIds, LinkedPartIds(CarFrom(id, d))[i]) <
              FirstIndex(d.partIds, LinkedPartIds(CarFrom(id, d))[j])
  {
    assert LinkedPartIds(CarFrom(id, d)) == Distinct(d.partIds);
    DistinctKeepsFirstOccurrenceOrder(d.partIds);
  }

  /** Every part id of every record is a stored part: what the database checks on commit. */
  predicate PartsKnown(input: seq<CarDto>, partIds: seq<int>) {
    forall d | d in input :: forall x | x in d.partIds :: x in partIds
  }

  /** Every join row of every car names a stored part. */
  predicate LinksKnown(cars: seq<Car>, partIds: seq<int>) {
    forall c | c in cars :: forall l | l in c.partsCars :: l.partId in partIds
  }

  /**
   * The join rows `ImportCars` builds name only stored parts exactly when the
   * records do, and then every car built is sound.
   */
  lemma {:induction false} NumberedCarsLinkKnownParts(firstId: int, input: seq<CarDto>, partIds: seq<int>)
    ensures LinksKnown(Numbered(firstId, input, CarFrom), partIds) <==> PartsKnown(input, partIds)
    ensures PartsKnown(input, partIds) ==>
              forall c | c in Numbered(firstId, input, CarFrom) :: LinksAreSound(c, partIds)
  {
    var built := Numbered(firstId, input, CarFrom);
    forall k | 0 <= k < |input|
      ensures LinksAreSound(built[k], partIds) <==> forall x | x in input[k].partIds :: x in partIds
      ensures (forall l | l in built[k].partsCars :: l.partId in partIds) <==>
              (forall x | x in input[k].partIds :: x in partIds)
    {
      CarFromLinksKnownParts(firstId + k, input[k], partIds);
    }
  }

  /** One built car's join rows name only stored parts exactly when its record does, and then it is sound. */
  lemma {:induction false} CarFromLinksKnownParts(id: int, d: CarDto, partIds: seq<int>)
    ensures LinksAreSound(CarFrom(id, d), partIds) <==> forall x | x in d.partIds :: x in partIds
    ensures (forall l | l in CarFrom(id, d).partsCars :: l.partId in partIds) <==>
            (forall x | x in d.partIds :: x in partIds)
  {
    CarFromLinksEachPartOnce(id, d);
    var c := CarFrom(id, d);
    if forall l | l in c.partsCars :: l.partId in partIds {
      forall x | x in d.partIds ensures x in partIds {
        var m :| 0 <= m < |LinkedPartIds(c)| && LinkedPartIds(c)[m] == x;
        assert c.partsCars[m] in c.partsCars;
      }
    }
    if forall x | x in d.partIds :: x in partIds {
      forall l | l in c.partsCars ensures l.partId in partIds {
        var m :| 0 <= m < |c.partsCars| && c.partsCars[m] == l;
        assert LinkedPartIds(c)[m] == l.partId;
      }
    }
  }

  // ---------------------------------------------------------------- the store

  class Dealership {
    var suppliers: seq<Supplier>
    var parts: seq<Part>
    var cars: seq<Car>
    var customers: seq<Customer>
    var sales: seq<Sale>

    function Snapshot(): Store
      reads this
    {
      Store(suppliers, parts, cars, customers, sales)
    }

    predicate Valid()
      reads this
    {
      Snapshot().Valid()
    }

    constructor ()
      ensures Valid()
      ensures Snapshot() == Store([], [], [], [], [])
    {
      suppliers, parts, cars, customers, sales := [], [], [], [], [];
    }

    /** Stores every supplier of the batch. */
    method ImportSuppliers(input: seq<SupplierDto>) returns (count: nat)
      requires Valid()
      modifies this
      ensures Valid()
      ensures suppliers == old(suppliers) + Numbered(|old(suppliers)| + 1, input, ToSupplier)
      ensures parts == old(parts) && cars == old(cars) && customers == old(customers) && sales == old(sales)
      ensures count == |input|
    {
      var added := Numbered(|suppliers| + 1, input, ToSupplier);
      AppendNumberedKeepsPositions(suppliers, input, ToSupplier, SupplierKey);
      IdsOfAppend(suppliers, added, SupplierKey);
      suppliers := suppliers + added;
      count := |added|;
    }

    /** Stores the parts whose supplier is already stored and drops the others. */
    method ImportParts(input: seq<PartDto>) returns (count: nat)
      requires Valid()
      modifies this
      ensures Valid()
      ensures parts == old(parts) + Numbered(|old(parts)| + 1, KnownSupplierParts(input, Ids(old(suppliers), SupplierKey)), ToPart)
      ensures count == |KnownSupplierParts(input, Ids(old(suppliers), SupplierKey))|
      ensures suppliers == old(suppliers) && cars == old(cars) && customers == old(customers) && sales == old(sales)
    {
      var supplierIds := Ids(suppliers, SupplierKey);
      var kept := KnownSupplierParts(input, supplierIds);
      var added := Numbered(|parts| + 1, kept, ToPart);
      AppendNumberedKeepsPositions(parts, kept, ToPart, PartKey);
      IdsOfAppend(parts, added, PartKey);
      parts := parts + added;
      count := |added|;
    }

    /**
     * Builds one car per record, each linked once to every distinct part id of
     * its record, and stores them all, or none if some part id is not stored.
     */
    method ImportCars(input: seq<CarDto>) returns (result: Result<nat, StorageError>)
      requires Valid()
      modifies this
      ensures Valid()
      ensures result.Success? <==> PartsKnown(input, Ids(old(parts), PartKey))
      ensures result.Success? ==>
                cars == old(cars) + Numbered(|old(cars)| + 1, input, CarFrom) && result.value == |input|
      ensures result.Failure? ==> cars == old(cars)
      ensures suppliers == old(suppliers) && parts == old(parts) && customers == old(customers) && sales == old(sales)
    {
      var firstId := |cars| + 1;
      var built: seq<Car> := [];
      var i := 0;
      while i < |input|
        invariant 0 <= i <= |input|
        invariant built == Numbered(firstId, input[..i], CarFrom)
      {
        var carDto := input[i];
        var id := firstId + i;
        var carPartsIds := Distinct(carDto.partIds);
        var carParts: seq<PartCar> := [];
        var j := 0;
        while j < |carPartsIds|
          invariant 0 <= j <= |carPartsIds|
          invariant carParts == Links(id, carPartsIds[..j])
        {
          carParts := carParts + [PartCar(id, carPartsIds[j])];
          j := j + 1;
        }
        assert carPartsIds[..j] == carPartsIds;
        built := built + [ToCar(id, carDto, carParts)];
        assert input[..i + 1] == input[..i] + [carDto];
        i := i + 1;
      }
      assert input[..i] == input;
      var partIds := Ids(parts, PartKey);
      NumberedCarsLinkKnownParts(firstId, input, partIds);
      if LinksKnown(built, partIds) {
        AppendNumberedKeepsPositions(cars, input, CarFrom, CarKey);
        IdsOfAppend(cars, built, CarKey);
        cars := cars + built;
        result := Success(|built|);
      } else {
        result := Failure(ForeignKeyViolation);
      }
    }

    /** Stores every customer of the batch. */
    method ImportCustomers(input: seq<CustomerDto>) returns (count: nat)
      requires Valid()
      modifies this
      ensures Valid()
      ensures customers == old(customers) + Numbered(|old(customers)| + 1, input, ToCustomer)
      ensures suppliers == old(suppliers) && parts == old(parts) && cars == old(cars) && sales == old(sales)
      ensures count == |input|
    {
      var added := Numbered(|customers| + 1, input, ToCustomer);
      AppendNumberedKeepsPositions(customers, input, ToCustomer, CustomerKey);
      IdsOfAppend(customers, added, CustomerKey);
      customers := customers + added;
      count := |added|;
    }

    /**
     * Stores the sales whose car is already stored and drops the others; the
     * batch is refused if a kept sale names a customer that is not stored.
     */
    method ImportSales(input: seq<SaleDto>) returns (result: Result<nat, StorageError>)
      requires Valid()
      modifies this
      ensures Valid()
      ensures result.Success? <==>
                CustomersKnown(KnownCarSales(input, Ids(old(cars), CarKey)), Ids(old(customers), CustomerKey))
      ensures result.Success? ==>
                && sales == old(sales) + Numbered(|old(sales)| + 1, KnownCarSales(input, Ids(old(cars), CarKey)), ToSale)
                && result.value == |KnownCarSales(input, Ids(old(cars), CarKey))|
      ensures result.Failure? ==> sales == old(sales)
      ensures suppliers == old(suppliers) && parts == old(parts) && cars == old(cars) && customers == old(customers)
    {
      // The code maps every record to a Sale before filtering on CarId; the
      // mapping copies CarId, so filtering the records first keeps the same rows.
      var carIds := Ids(cars, CarKey);
      var kept := KnownCarSales(input, carIds);
      if CustomersKnown(kept, Ids(customers, CustomerKey)) {
        var added := Numbered(|sales| + 1, kept, ToSale);
        AppendNumberedKeepsPositions(sales, kept, ToSale, SaleKey);
        KnownSalesNameKnownKeys(|sales| + 1, input, carIds, Ids(customers, CustomerKey));
        AppendSalesKeepsValid(Snapshot(), added);
        sales := sales + added;
        result := Success(|added|);
      } else {
        result := Failure(ForeignKeyViolation);
      }
    }
  }
}
