# CarDealer: imports and reports, modelled in Dafny

CarDealer loads a car dealership's data into a relational store and answers six
fixed reports over it. The store has five tables: suppliers, parts (each sold
by a supplier), cars (each built from parts through `PartCar` join rows),
customers, and sales (a car sold to a customer at a discount).

This project models the two halves of `CarDealer/StartUp.cs`.

- **The imports** (`Importer.dfy`). `Importer.Dealership` is a class holding
  the five tables as sequence fields. Each import method appends a decoded
  batch to them:
  - `ImportParts` drops parts whose supplier is not stored.
  - `ImportSales` drops sales whose car is not stored.
  - `ImportCars` builds each car's join rows from its de-duplicated part ids.
    It does this with two loops, kept as loops here.
  - `ImportSuppliers` and `ImportCustomers` store everything they are given.
- **The reports** (`Reports.dfy`). Each of the six queries is a function over a
  `Store` value:
  - A: cars with distance over 2,000,000.
  - B: BMW cars.
  - C: local suppliers.
  - D: cars with their parts.
  - E: total sales by customer.
  - F: sales with applied discount.

  The LINQ operators the queries use are in `Linq.dfy`: `Where`, `Select`,
  `OrderBy`/`ThenBy` (a stable sort under a total preorder), `Take`,
  `Distinct` and `Sum`. The facts the queries need are proved about them once
  there. `Strings.dfy` fixes the string order, and `Entities.dfy` holds the
  schema and its referential integrity (`Store.Valid`).

Modelling choices:

- **Identity columns.** The database numbers rows in insertion order. The model
  takes the store to start empty and never delete, so a row's id is its
  position plus one.
- **Money and discounts.** Money is in cents, so decimal sums are exact. A
  sale's discount is in hundredths of a percent.
- **Commit failures.** `SaveChanges` commits a batch all or nothing. Two foreign
  keys are not filtered by the code: a sale's customer and a join row's part.
  These are enforced by the database on commit. A batch that breaks one is
  refused (`StorageError.ForeignKeyViolation`) and nothing of it is stored. So
  every successful import keeps the whole store consistent.

Three details of the code that the model follows:

- **Young-driver discount.** The code rounds `price * 0.95` for each part
  separately and then adds the rounded amounts (`CarDealer/StartUp.cs:288`).
  The model does the same, with round-half-to-even to the cent.
- **Sale customers.** The import filters only on the car
  (`CarDealer/StartUp.cs:177-179`), so a sale naming an unknown customer reaches
  the database, which refuses the batch. The model treats this as the commit
  failure described above.
- **Discounted price.** Query F also reports the discounted price. In the code,
  `s.Discount / 100` and the multiplication are decimal, so they are modelled
  exactly; only the final conversion to `double` is not.

## Model

| member | source | states |
|---|---|---|
| Importer.Dealership.constructor | CarDealer/StartUp.cs:19 | a new context holds five empty tables, which are consistent |
| Importer.Dealership.ImportSuppliers | CarDealer/StartUp.cs:59-65 | every supplier of the batch is appended, numbered on from the last id; the count returned is the batch size; other tables unchanged; consistency kept |
| Importer.Dealership.ImportParts | CarDealer/StartUp.cs:79-91 | appends exactly the parts whose supplier id is stored, numbered on; the count is the number kept; other tables unchanged; every stored part names a stored supplier |
| Importer.ImportPartsKeepsExactlyKnown | CarDealer/StartUp.cs:79-86 | a part is kept, as often as it was given, if and only if its supplier id is stored; the kept parts are a subsequence of the input (input order) |
| Importer.Dealership.ImportCars | CarDealer/StartUp.cs:107-136 | the loops build one car per record, in order, each linked to the de-duplicated part ids of its record; the batch is stored if and only if every part id is stored; the count is the number of records |
| Importer.CarFromLinksEachPartOnce | CarDealer/StartUp.cs:111-129 | each built car's join rows carry its id, name no part twice, name exactly the part ids of its record, and follow the order of first occurrence |
| Importer.NumberedCarsLinkKnownParts | CarDealer/StartUp.cs:109-134 | the built join rows name only stored parts if and only if the records do, and then every built car is sound |
| Importer.CarFromLinksKnownParts | CarDealer/StartUp.cs:113-129 | a built car is sound for the stored part ids if and only if every part id of its record is stored, and the same holds for its join rows naming stored parts |
| Importer.Dealership.ImportCustomers | CarDealer/StartUp.cs:152-157 | every customer of the batch is appended, numbered on; the count is the batch size; other tables unchanged |
| Importer.Dealership.ImportSales | CarDealer/StartUp.cs:173-184 | keeps exactly the sales whose car id is stored; the batch is stored if and only if every kept sale names a stored customer; the count is the number kept; no stored sale names an unknown car or customer |
| Importer.ImportSalesKeepsExactlyKnown | CarDealer/StartUp.cs:173-179 | a sale is kept, as often as given, if and only if its car id is stored; the kept sales keep input order |
| Importer.KnownSalesNameKnownKeys | CarDealer/StartUp.cs:177-182 | when the commit passes, every stored sale of the batch names a stored car and a stored customer |
| Importer.AppendSalesKeepsValid | CarDealer/StartUp.cs:181-182 | appending sales that continue the numbering and name stored cars and customers keeps the store consistent |
| Entities.Ids | CarDealer/StartUp.cs:79-86 | an id is in the list, as `Contains` asks, if and only if some stored row has that id; the list has one entry per row, in row order |
| Entities.KnownIdsAreRange | CarDealer/StartUp.cs:173-175 | under identity numbering the stored ids are exactly 1 to the row count |
| Entities.AppendNumberedKeepsPositions | CarDealer/StartUp.cs:62-63 | appending a batch numbered on from the next id keeps the identity numbering |
| Entities.FindById | CarDealer/StartUp.cs:262-263 | a navigation returns a stored row with the wanted id, or nothing when no row has it |
| Entities.FindByIdAtPosition | CarDealer/StartUp.cs:315-321 | under identity numbering the row with id `k` is the `k`-th row |
| Linq.Where | CarDealer/StartUp.cs:86 | the result is no longer than the input, satisfies the predicate throughout, and is a sub-multiset of the input |
| Linq.WhereMembers | CarDealer/StartUp.cs:221-222 | an element is in the filtered list if and only if it is in the input and satisfies the predicate |
| Linq.WhereKeepsExactly | CarDealer/StartUp.cs:86 | each element is kept as often as it occurs when it satisfies the predicate, and not at all otherwise |
| Linq.WhereKeepsOrder | CarDealer/StartUp.cs:178 | the result is a subsequence of the input |
| Linq.WhereKeepsIncreasing | CarDealer/StartUp.cs:238 | filtering keeps a strictly increasing key strictly increasing |
| Linq.WhereKeyCount | CarDealer/StartUp.cs:243 | counting the rows with key `v` gives the number of occurrences of `v` among the keys |
| Linq.SelectKeepsPermutation | CarDealer/StartUp.cs:221-227 | projecting two permutations of each other gives permutations of each other |
| Linq.PermutedSelectMembers | CarDealer/StartUp.cs:281-295 | a reordering of a projection holds the image of every element and nothing else, one per element |
| Linq.SortBy | CarDealer/StartUp.cs:194-195 | the result is sorted under the order and is a permutation of the input |
| Linq.Insert | CarDealer/StartUp.cs:194-195 | inserting into a sorted list keeps it sorted and adds exactly the one element |
| Linq.TakeOfSortedIsLeast | CarDealer/StartUp.cs:196 | `Take(n)` of a sorted list has min(n, length) elements, is a prefix, and every element left out sorts at or after each one taken |
| Linq.SelectTakeOfSortedIsLeast | CarDealer/StartUp.cs:194-197 | projecting the first `n` of a sorted list returns min(n, length) rows, a sub-multiset of all projected rows, with every left-out row sorting at or after each returned one |
| Linq.SelectTakeKeepsSorted | CarDealer/StartUp.cs:194-197 | projecting the first `n` of a sorted list with an order-preserving projection gives a sorted list |
| Linq.Distinct | CarDealer/StartUp.cs:115 | no duplicates, the same elements as the input, and no longer than it |
| Linq.DistinctKeepsFirstOccurrenceOrder | CarDealer/StartUp.cs:113-116 | `Distinct` keeps elements in the order of their first occurrence |
| Linq.SumOfPermutation | CarDealer/StartUp.cs:295-300 | reordering does not change a sum |
| Linq.SumOverWhere | CarDealer/StartUp.cs:280 | dropping rows worth nothing does not change a sum |
| Linq.SumPerKeyCoversAll | CarDealer/StartUp.cs:284-285 | summing per key, over keys listing every row's key once, gives the sum over all rows |
| Linq.SumOverGroups | CarDealer/StartUp.cs:284-285 | adding up per-customer totals is summing per key over the customers' ids |
| Linq.SumMonotone | CarDealer/StartUp.cs:288-289 | pointwise smaller values give a smaller sum |
| Strings.OrderFacts | CarDealer/StartUp.cs:194-195 | the string order is total, transitive and antisymmetric |
| Reports.MakeThenModelIsTotalPreorder | CarDealer/StartUp.cs:194-195 | make-then-model is a total preorder, so the sort is defined |
| Reports.FarCarsByMakeAndModel | CarDealer/StartUp.cs:192-195 | all and only the cars over 2,000,000, by make then model |
| Reports.CarsWithDistance | CarDealer/StartUp.cs:192-198 | at most 10 rows, all over 2,000,000, sorted by make then model |
| Reports.RowsFollowCarOrder | CarDealer/StartUp.cs:194-197 | a car row sorts by make then model exactly where its car does |
| Reports.CarsWithDistanceAreTheFirstTen | CarDealer/StartUp.cs:192-198 | the rows are the first min(10, n) of the far cars in that order: every far car left out sorts at or after each row returned |
| Reports.ModelThenDistanceDescendingIsTotalPreorder | CarDealer/StartUp.cs:227-228 | model, then distance descending, is a total preorder |
| Reports.CarsFromMakeBmw | CarDealer/StartUp.cs:219-229 | sorted by model then distance descending; a permutation of the projected BMW cars |
| Reports.CarsFromMakeBmwAreExactlyTheBmws | CarDealer/StartUp.cs:219-226 | one row per BMW; every BMW appears; every row comes from a BMW |
| Reports.PartsCount | CarDealer/StartUp.cs:243 | the count is the number of stored parts naming the supplier |
| Reports.LocalSuppliers | CarDealer/StartUp.cs:237-245 | one row per non-importer, each with its part count |
| Reports.LocalSuppliersAreExactlyTheLocalOnes | CarDealer/StartUp.cs:237-245 | every non-importer appears with its id, name and part count, and every row is one |
| Reports.LocalSuppliersInStorageOrder | CarDealer/StartUp.cs:237-245 | the rows keep storage order: ids strictly increase |
| Reports.JoinedParts | CarDealer/StartUp.cs:259-264 | the joined parts are stored parts, at most one per join row |
| Reports.JoinedPartsOfKnownLinks | CarDealer/StartUp.cs:259-264 | when every join row names a stored part, each joins exactly that part, in link order |
| Reports.PriceDescendingIsTotalPreorder | CarDealer/StartUp.cs:265 | price descending is a total preorder |
| Reports.ToCarWithPartsRow | CarDealer/StartUp.cs:254-266 | a car's row carries its make, model and distance, and its parts' names and prices, most expensive first |
| Reports.CarWithPartsRowListsEveryLinkedPart | CarDealer/StartUp.cs:259-266 | in a consistent store a car's row lists one part per join row, each linked part among them |
| Reports.DistanceDescendingThenModelIsTotalPreorder | CarDealer/StartUp.cs:268-269 | distance descending, then model, is a total preorder |
| Reports.CarsByDistanceThenModel | CarDealer/StartUp.cs:253-269 | all cars' rows, sorted by distance descending then model, each with sorted parts |
| Reports.CarWithPartsRowsHaveSortedParts | CarDealer/StartUp.cs:265 | every car row lists its parts by price, most expensive first |
| Reports.CarsWithTheirListOfParts | CarDealer/StartUp.cs:253-271 | at most 5 rows, sorted by distance descending then model, each row's parts by price descending |
| Reports.CarsWithTheirListOfPartsAreTheFirstFive | CarDealer/StartUp.cs:268-270 | min(5, n) rows, drawn from all cars, with every car left out sorting at or after each row returned |
| Reports.RoundHalfEven | CarDealer/StartUp.cs:288 | the nearest whole number to `n / d`, ties to the even one |
| Reports.YoungDriverPriceIsAtMostPrice | CarDealer/StartUp.cs:288 | 95% of a part's price, rounded to the cent, is between 0 and the price |
| Reports.SalePriceBounds | CarDealer/StartUp.cs:287-289 | a young driver's sale price is between 0 and the plain sum of part prices |
| Reports.SpentDescendingIsTotalPreorder | CarDealer/StartUp.cs:295 | spent descending is a total preorder |
| Reports.TotalSalesByCustomer | CarDealer/StartUp.cs:279-302 | sorted by money spent descending; a permutation of the rows of the customers with a sale; every row has at least one car bought |
| Reports.CustomerRowsBoughtSomething | CarDealer/StartUp.cs:281-284 | every customer row reports at least one car bought |
| Reports.TotalSalesByCustomerListsExactlyTheBuyers | CarDealer/StartUp.cs:279-293 | one row per customer with a sale; each such customer appears; every row is one |
| Reports.CustomerRowCountsSalesAndDiscounts | CarDealer/StartUp.cs:284-300 | bought cars is the number of sales naming the customer; the total is non-negative and never more than without the young-driver reduction |
| Reports.WholePercent | CarDealer/StartUp.cs:319 | the discount as a whole percent, truncated toward zero |
| Reports.PriceWithDiscountBounds | CarDealer/StartUp.cs:322-324 | a discount from 0% to 100% gives a discounted price between 0 and the price, and no discount gives the price itself |
| Reports.DiscountRows | CarDealer/StartUp.cs:310-326 | at most one row per sale |
| Reports.SalesWithAppliedDiscount | CarDealer/StartUp.cs:310-326 | at most one row per sale |
| Reports.SalesWithAppliedDiscountHasOneRowPerSale | CarDealer/StartUp.cs:310-326 | in a consistent store, one row per sale in storage order, carrying that sale's car, whole-percent discount, customer name and summed part prices |
| Reports.DiscountRowsOfKnownSales | CarDealer/StartUp.cs:310-326 | sales naming stored cars and customers each give exactly their row, in order |
| Reports.DiscountRowsOfKnownHead | CarDealer/StartUp.cs:310-321 | a sale naming a stored car and a stored customer gives its row ahead of the rows of the later sales |
| Reports.TotalSpentIsTotalSalePrice | CarDealer/StartUp.cs:279-326 | without young drivers, the customers' totals in report E add up to the sale prices in report F |
| Reports.KnownRowPricesAreCarPrices | CarDealer/StartUp.cs:321 | each row's price is what its sale's car costs |
| Reports.CustomersSpentIsSumOfCarPrices | CarDealer/StartUp.cs:284-300 | without young drivers, report E's totals add up to what the sold cars cost |
| Reports.ReportedSpentIsAllCustomersSpent | CarDealer/StartUp.cs:280-300 | report E's totals add up to what all customers spent; a customer without a sale spent nothing |
| Reports.ReportedSpentIsBuyersSpent | CarDealer/StartUp.cs:295-300 | sorting does not change what the customers with a sale spent in total |
| Reports.BuyerRowsSpent | CarDealer/StartUp.cs:281-300 | before sorting, each customer row's total is what that buyer spent, row by row |
| Reports.BuyersSpentIsAllCustomersSpent | CarDealer/StartUp.cs:280-289 | leaving out the customers without a sale does not change the total, since each of them spent nothing |
| Reports.CustomersSpentPerCustomer | CarDealer/StartUp.cs:284-289 | without young drivers, the customers' totals add up to the car prices of the sales, summed per customer id |
| Reports.CustomerSpentIsCarPricesOfTheirSales | CarDealer/StartUp.cs:285-289 | a customer who is not a young driver spent exactly the summed part prices of the cars of the sales naming them |
| Reports.SalesGroupedByCustomer | CarDealer/StartUp.cs:284-285 | every sale names exactly one stored customer, so grouping sales by customer loses and repeats none |

## Left out

- XML decoding and encoding (`XmlSerializer`, `SerializeToXml`, `DeserializeFromXml`): an external codec. The imports take the decoded records as sequences, and the reports return rows rather than text.
- `Main`: it only reads files and prints.
- AutoMapper (`GetMapper`, `CarDealerProfile.cs`): reflection-driven field copies. These are the plain constructors `Entities.ToSupplier` through `Entities.ToSale` and the row functions in `Reports.dfy`.
- Entity Framework persistence: loading navigations, SQL translation and the change tracker. The store is in-memory sequences; a navigation is a lookup by id (`Entities.FindById`).
- The import messages: each import returns the count that `"Successfully imported {n}"` would print, not the string.
- The identity column is taken to number rows 1, 2, 3, … from an empty store. Ids given by a seeded or previously emptied database are not modelled.
- Floating point: `Math.Round((double)price * 0.95, 2)` and its conversion back to `decimal` are modelled as exact round-half-to-even to the cent. The binary representation error of `double` is not captured. The same holds for the final `(double)` conversion in `PriceWithDiscount`.
- String order: makes and models are ordered by character code, lexicographically. The database collation is not modelled, nor is `c.Make == "BMW"` under a case-insensitive collation (the model compares characters exactly).
- Ties in the ordered queries: the order among rows with equal sort keys is not stated. In query E the in-memory sort is stable, and that stability is not stated either.
- Reports.SalesWithAppliedDiscount: its own contract states only the length bound. The row-per-sale content is stated for consistent stores, by `Reports.SalesWithAppliedDiscountHasOneRowPerSale`.
- Reports.CarsWithTheirListOfParts: its own contract states the cap and the orders. That the rows are the first five cars is stated by `Reports.CarsWithTheirListOfPartsAreTheFirstFive`.
- A refused commit: in the code `SaveChanges` throws out of `ImportCars` and `ImportSales` (`CarDealer/StartUp.cs:134`, `:182`) and nothing catches it. The model returns `Failure` and leaves the store as it was, and it assumes the refused batch uses up no identity values. A database that does consume ids on a rolled-back insert would number later rows differently, and the car-id filter of `ImportSales` would then keep different sales.
- Decode failures (`FormatError`): they happen inside the codec, before any storage step, and are not modelled.
