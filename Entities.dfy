/**
 * The dealership's schema: the five stored entities and the `PartCar` join
 * rows, the import records (what the XML documents decode to), the field-copy
 * mappings between them, and the referential integrity the database keeps.
 *
 * Money is in cents, so decimal sums stay exact. A sale's discount is in
 * hundredths of a percent, so its conversion to a whole percent is explicit.
 * Dates are carried as day numbers and never inspected.
 */
module Entities {
  import opened Linq

  datatype Option<T> = None | Some(value: T)

  datatype Result<T, E> = Success(value: T) | Failure(error: E)

  // ---------------------------------------------------------------- stored entities

  datatype Supplier = Supplier(id: int, name: string, isImporter: bool)

  datatype Part = Part(id: int, name: string, price: int, quantity: int, supplierId: int)

  /** One row of the many-to-many join between a car and a part. */
  datatype PartCar = PartCar(carId: int, partId: int)

  datatype Car = Car(id: int, make: string, model: string, traveledDistance: int, partsCars: seq<PartCar>)

  datatype Customer = Customer(id: int, name: string, birthDate: int, isYoungDriver: bool)

  datatype Sale = Sale(id: int, carId: int, customerId: int, discount: int)

  // ---------------------------------------------------------------- import records

  datatype SupplierDto = SupplierDto(name: string, isImporter: bool)

  datatype PartDto = PartDto(name: string, price: int, quantity: int, supplierId: int)

  /** A car as imported: the ids of the parts it is built from, possibly repeated. */
  datatype CarDto = CarDto(make: string, model: string, traveledDistance: int, partIds: seq<int>)

  datatype CustomerDto = CustomerDto(name: string, birthDate: int, isYoungDriver: bool)

  datatype SaleDto = SaleDto(carId: int, customerId: int, discount: int)

  // ---------------------------------------------------------------- mapping (field copy plus the id the database assigns)

  function ToSupplier(id: int, d: SupplierDto): Supplier {
    Supplier(id, d.name, d.isImporter)
  }

  function ToPart(id: int, d: PartDto): Part {
    Part(id, d.name, d.price, d.quantity, d.supplierId)
  }

  function ToCar(id: int, d: CarDto, links: seq<PartCar>): Car {
    Car(id, d.make, d.model, d.traveledDistance, links)
  }

  function ToCustomer(id: int, d: CustomerDto): Customer {
    Customer(id, d.name, d.birthDate, d.isYoungDriver)
  }

  function ToSale(id: int, d: SaleDto): Sale {
    Sale(id, d.carId, d.customerId, d.discount)
  }

  /** A batch as the database stores it: the identity column numbers it on from `firstId`. */
  function Numbered<D, E>(firstId: int, batch: seq<D>, make: (int, D) -> E): seq<E> {
    seq(|batch|, i requires 0 <= i < |batch| => make(firstId + i, batch[i]))
  }

  // ---------------------------------------------------------------- keys

  function SupplierKey(s: Supplier): int { s.id }
  function PartKey(p: Part): int { p.id }
  function CarKey(c: Car): int { c.id }
  function CustomerKey(c: Customer): int { c.id }
  function SaleKey(s: Sale): int { s.id }

  /** `Select(x => x.Id)` over a table. */
  function Ids<T>(xs: seq<T>, key: T -> int): (ids: seq<int>)
    ensures |ids| == |xs|
    ensures forall i | 0 <= i < |xs| :: ids[i] == key(xs[i])
    ensures forall x :: x in ids <==> exists r | r in xs :: key(r) == x
  {
    var ids := seq(|xs|, i requires 0 <= i < |xs| => key(xs[i]));
    forall x | x in ids ensures exists r | r in xs :: key(r) == x {
      var i :| 0 <= i < |ids| && ids[i] == x;
      assert xs[i] in xs;
    }
    forall x | exists r | r in xs :: key(r) == x ensures x in ids {
      var r :| r in xs && key(r) == x;
      var i :| 0 <= i < |xs| && xs[i] == r;
      assert ids[i] == x;
    }
    ids
  }

  lemma {:induction false} IdsOfAppend<T>(a: seq<T>, b: seq<T>, key: T -> int)
    ensures Ids(a + b, key) == Ids(a, key) + Ids(b, key)
  {
  }

  /**
   * The identity column: rows are numbered 1, 2, 3, ... in insertion order
   * (the store starts empty and nothing is ever deleted).
   */
  predicate IdsArePositions<T>(xs: seq<T>, key: T -> int) {
    forall i | 0 <= i < |xs| :: key(xs[i]) == i + 1
  }

  /** Under the identity numbering, the known ids are exactly 1 .. |xs|. */
  lemma {:induction false} KnownIdsAreRange<T>(xs: seq<T>, key: T -> int)
    requires IdsArePositions(xs, key)
    ensures forall x :: x in Ids(xs, key) <==> 1 <= x <= |xs|
  {
    forall x | 1 <= x <= |xs| ensures x in Ids(xs, key) {
      assert Ids(xs, key)[x - 1] == x;
    }
  }

  /** Appending a batch numbered on from the next id keeps the identity numbering. */
  lemma {:induction false} AppendNumberedKeepsPositions<D, E>(xs: seq<E>, batch: seq<D>, make: (int, D) -> E, key: E -> int)
    requires IdsArePositions(xs, key)
    requires forall id, d :: key(make(id, d)) == id
    ensures IdsArePositions(xs + Numbered(|xs| + 1, batch, make), key)
  {
  }

  /** Navigation through a foreign key: a stored row whose key is `id`, if there is one. */
  function FindById<T>(xs: seq<T>, id: int, key: T -> int): (r: Option<T>)
    ensures r.Some? ==> r.value in xs && key(r.value) == id
    ensures r.None? ==> id !in Ids(xs, key)
  {
    if xs == [] then None
    else if key(xs[0]) == id then Some(xs[0])
    else
      var r := FindById(xs[1..], id, key);
      assert r.None? ==> forall i | 1 <= i < |xs| :: key(xs[i]) == Ids(xs[1..], key)[i - 1];
      r
  }

  /** Under the identity numbering, the row with id `id` is the `id`-th one. */
  lemma {:induction false} FindByIdAtPosition<T>(xs: seq<T>, id: int, key: T -> int)
    requires IdsArePositions(xs, key) && 1 <= id <= |xs|
    ensures FindById(xs, id, key) == Some(xs[id - 1])
  {
    FindByIdNumberedFrom(xs, id, key, 1);
  }

  lemma {:induction false} FindByIdNumberedFrom<T>(xs: seq<T>, id: int, key: T -> int, first: int)
    requires forall i | 0 <= i < |xs| :: key(xs[i]) == i + first
    requires first <= id < first + |xs|
    ensures FindById(xs, id, key) == Some(xs[id - first])
    decreases |xs|
  {
    if key(xs[0]) != id {
      FindByIdNumberedFrom(xs[1..], id, key, first + 1);
    }
  }

  // ---------------------------------------------------------------- the store

  /** The ids of the parts a car is linked to, in link order. */
  function LinkedPartIds(c: Car): (ids: seq<int>)
    ensures |ids| == |c.partsCars|
  {
    seq(|c.partsCars|, i requires 0 <= i < |c.partsCars| => c.partsCars[i].partId)
  }

  /** A car's join rows belong to it, name known parts, and name no part twice. */
  predicate LinksAreSound(c: Car, partIds: seq<int>) {
    && (forall l | l in c.partsCars :: l.carId == c.id && l.partId in partIds)
    && NoDuplicates(LinkedPartIds(c))
  }

  /** The five tables. */
  datatype Store = Store(
    suppliers: seq<Supplier>,
    parts: seq<Part>,
    cars: seq<Car>,
    customers: seq<Customer>,
    sales: seq<Sale>)
  {
    /** Identity numbering and every foreign key the database enforces. */
    predicate Valid() {
      && IdsArePositions(suppliers, SupplierKey)
      && IdsArePositions(parts, PartKey)
      && IdsArePositions(cars, CarKey)
      && IdsArePositions(customers, CustomerKey)
      && IdsArePositions(sales, SaleKey)
      && (forall p | p in parts :: p.supplierId in Ids(suppliers, SupplierKey))
      && (forall c | c in cars :: LinksAreSound(c, Ids(parts, PartKey)))
      && (forall s | s in sales :: s.carId in Ids(cars, CarKey) && s.customerId in Ids(customers, CustomerKey))
    }
  }
}
