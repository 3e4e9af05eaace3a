# Car sales service: a verified model

This project models the business core of CarManufactureAPI, an ASP.NET service. The service records car sales at four distribution centers and reports on them. The model covers:

- **The car models and their prices.** There are four car models: Sedan, SUV, Offroad and Sport. Their declaration order fixes the indices 0..3. Each model has a whole-number price, and only Sport carries a 7% surcharge (18200 + 1274 = 19474).
- **The sale object.** A `Sale` overwrites its unit price and total from its model and quantity.
- **The in-memory repository.**
  - It holds a fixed catalog of four centers.
  - It keeps an append-only list of sales and a counter that hands out ids 1, 2, 3, …
  - It answers lookups, filters and groupings by center and by (center, model).
- **The service.** It does four things:
  - It parses the model a client sends, as a name or as an index.
  - It creates a sale: the model is validated first, then the center, then the sale is stored.
  - It computes three reports: the total volume, the volume by center, and each model's share of its center's units and of all units.

### How the source maps to Dafny

- **Mutable objects are classes.** `Sale`, `InMemorySalesRepository` and `SalesService` become classes with the source's fields. Each report loop is a `method` with its invariants, proved equal to a specification function. Every property is then proved about those functions.
- **Money and quantities are `int`.**
  - Every price is a whole number, so the decimal arithmetic of the source is exact in integers.
  - A percentage is an integer number of hundredths. `Math.Round(x, 2)` rounds half to even, which the model writes out: `RoundHalfEven(units * 10000, total)`, and 0 when the total is not positive.
  - The source divides in 28-digit `decimal`. That never changes the rounded result: a tie is a quotient with three decimals, so it is represented exactly. A non-tie lies at least 1/(2·total) hundredths away from a tie, which is far more than the division's rounding error.
- **The clock is a parameter.** The reading of `DateTime.UtcNow` is passed in as `now`.
- **Null is `None`.** A null model text is `Option.None`.
- **Errors are tags.** Each `ArgumentException` becomes a `SalesError` tag that carries the payload the message quotes (the input text, the index or the center id).
- **Name order is fixed explicitly.** `OrderBy(m => m.CarModel)` sorts with .NET's culture-sensitive comparer. The model's `NameOrder.NameLess` stands in for it: case-insensitive alphabetical order, with ties broken ordinally. It is proved to be a strict total order, and it yields Offroad, Sedan, Sport, SUV.
- **Dictionary order does not matter.** The enumeration order of the inner dictionary is left unspecified: the loop picks any remaining key. The proof shows the sorted rows are the same whatever order the groups come in.

Modules:

- `CarModels` (car_model_type.dfy)
- `CarModelPricing` (car_model_pricing.dfy)
- `Sales` (sale.dfy)
- `SalesRepository` (sales_repository.dfy)
- `SalesService` (sales_service.dfy)
- Helper modules:
  - `DotNetText` (text.dfy): the .NET string and number primitives the service calls.
  - `Rounding` (rounding.dfy).
  - `NameOrder` (name_order.dfy).
  - `Dtos` (dtos.dfy): the response records.
  - `Wrappers` (wrappers.dfy).
- `SalesScenarios` (scenarios.dfy): the figures of the service's test suite, worked out on the model.

## Model

| member | source | states |
|---|---|---|
| CarModels.Index | CarManufactureAPI/Models/CarModelType.cs:9-12 | A model's underlying value is its position in the declaration (0..3). |
| CarModels.FromIndex | CarManufactureAPI/Services/SalesService.cs:73-75 | An integer denotes a model exactly when it is in 0..3, and then it is that model's index. |
| CarModels.IndexRoundTrip | CarManufactureAPI/Models/CarModelType.cs:9-12 | Casting a model's index back gives the same model. |
| CarModels.Name | CarManufactureAPI/Services/SalesService.cs:47 | A model's `ToString()` is its non-empty canonical name. |
| CarModels.NameInjective | CarManufactureAPI/Services/SalesService.cs:180 | Two models have the same name exactly when they are the same model. |
| CarModels.ModelNames | CarManufactureAPI/Services/SalesService.cs:87 | `Enum.GetNames` lists one name per model, in declaration order. |
| CarModels.ValidModelNamesText | CarManufactureAPI/Services/SalesService.cs:87 | The error lists the valid names as "Sedan, SUV, Offroad, Sport". |
| CarModels.FourVariants | CarManufactureAPI/Models/CarModelType.cs:7-13 | There are exactly four models; every model is declared, and each only once. |
| CarModelPricing.BasePrice | CarManufactureAPI/Models/CarModelPricing.cs:25-32 | Every base price is positive. |
| CarModelPricing.GetPrice | CarManufactureAPI/Models/CarModelPricing.cs:23-41 | A non-Sport price is its base price; the Sport price is its base plus 7% (p·100 = base·107). |
| CarModelPricing.PriceTable | CarManufactureAPI/Models/CarModelPricing.cs:9-15 | The prices are 8000, 9500, 12500, and 18200 + 1274 = 19474 for Sport. |
| CarModelPricing.OnlySportSurcharged | CarManufactureAPI/Models/CarModelPricing.cs:35-40 | A price differs from its base exactly for Sport, and it is never below the base. |
| Sales.WithDerivedPrices | CarManufactureAPI/Models/Sale.cs:24-28 | After deriving, the unit price comes from the table and the total is price × quantity. Id, model, center, quantity and date are kept. Prices already derived are left as they are. |
| Sales.CalculateTotalAmountIdempotent | CarManufactureAPI/Models/Sale.cs:24-28 | Deriving the prices twice gives the same fields as deriving them once. |
| Sales.Sale.constructor | CarManufactureAPI/Models/Sale.cs:16-19 | A new sale has the given model, center and quantity, id and prices 0, and the clock reading as its date. |
| Sales.Sale.CalculateTotalAmount | CarManufactureAPI/Models/Sale.cs:24-28 | The object's new fields are those of `WithDerivedPrices` applied to its old fields. |
| SalesRepository.CatalogShape | CarManufactureAPI/Repositories/InMemorySalesRepository.cs:19-25 | The catalog has four centers with ids 1..4 in order, each with a non-empty name and location. |
| SalesRepository.FindCenter | CarManufactureAPI/Repositories/InMemorySalesRepository.cs:71 | The result is nothing exactly when no center has the id; otherwise it is the first center that has it. |
| SalesRepository.FindCenterInCatalog | CarManufactureAPI/Repositories/InMemorySalesRepository.cs:69-72 | On the catalog, exactly the ids 1..4 resolve, each to its own center; any other id, such as 999, gives nothing. |
| SalesRepository.SalesOfCenter | CarManufactureAPI/Repositories/InMemorySalesRepository.cs:81 | The filter holds exactly the sales with that center id. |
| SalesRepository.SalesOfCenterAppend | CarManufactureAPI/Repositories/InMemorySalesRepository.cs:81 | Filtering distributes over concatenation, so insertion order is kept. |
| SalesRepository.SalesOfModel | CarManufactureAPI/Repositories/InMemorySalesRepository.cs:103-104 | The inner filter holds exactly the sales of that model. |
| SalesRepository.SalesOfModelAppend | CarManufactureAPI/Repositories/InMemorySalesRepository.cs:103-104 | The inner filter distributes over concatenation. |
| SalesRepository.GroupByCenter | CarManufactureAPI/Repositories/InMemorySalesRepository.cs:89-94 | The keys are exactly the center ids that occur in the sales; each value is that center's non-empty filter. |
| SalesRepository.GroupByCenterAndModel | CarManufactureAPI/Repositories/InMemorySalesRepository.cs:96-106 | The outer keys are the center ids that occur. The inner keys are the models sold at that center. Each inner list is exactly the non-empty list of that center's sales of that model. |
| SalesRepository.GroupLookup | CarManufactureAPI/Services/SalesService.cs:120 | Looking an id up in the grouping, with an empty list for a missing key, equals filtering by that id. |
| SalesRepository.InMemorySalesRepository.constructor | CarManufactureAPI/Repositories/InMemorySalesRepository.cs:14-30 | A new repository holds the catalog, no sales, and the counter 1, and it satisfies its invariant. |
| SalesRepository.InMemorySalesRepository.AddSale | CarManufactureAPI/Repositories/InMemorySalesRepository.cs:61-67 | The sale gets the counter as its id and the counter goes up by one. Its prices are derived and it is appended at the end; earlier sales are unchanged. Every earlier id is smaller, and the returned sale is the stored one. The catalog is untouched. |
| SalesRepository.InMemorySalesRepository.GetDistributionCenter | CarManufactureAPI/Repositories/InMemorySalesRepository.cs:69-72 | A result is a catalog center with that id; nothing is returned exactly when no center has it; on the fixed catalog, exactly ids 1..4 resolve. |
| SalesRepository.InMemorySalesRepository.GetSalesByCenter | CarManufactureAPI/Repositories/InMemorySalesRepository.cs:79-82 | The result is exactly the sales of that center. It is the grouping's list for that id, and empty for a center without sales. |
| DotNetText.Trim | CarManufactureAPI/Services/SalesService.cs:71 | The result is the input with white space removed from both ends and nothing else. It is empty exactly when the input is blank. |
| DotNetText.TrimIdempotent | CarManufactureAPI/Services/SalesService.cs:71 | Trimming twice is trimming once. |
| DotNetText.TrimPadded | CarManufactureAPI/Services/SalesService.cs:81 | Trimming removes exactly the white space that surrounds non-blank text. |
| DotNetText.TryParseInt32 | CarManufactureAPI/Services/SalesService.cs:71 | Parsing succeeds exactly on an optional sign followed by one or more ASCII digits whose signed value fits in 32 bits, and the result is that value. |
| DotNetText.LeadingZeroValue | CarManufactureAPI/Services/SalesService.cs:71 | A leading zero digit does not change the value of a digit string. |
| DotNetText.TryParseLeadingZero | CarManufactureAPI/Services/SalesService.cs:71 | "03" parses like "3": a leading zero never changes the parse. |
| DotNetText.TryParsePlusSign | CarManufactureAPI/Services/SalesService.cs:71 | "+3" parses like "3": a plus sign never changes the parse. |
| DotNetText.TryParseFormat | CarManufactureAPI/Services/SalesService.cs:71 | Parsing a formatted 32-bit integer gives that integer back. |
| DotNetText.TryParseExamples | CarManufactureAPI/Services/SalesService.cs:71 | "+1" is 1, "-0" is 0, "99" and "3" are numbers; a name and the empty text are not. |
| Rounding.RoundHalfEven | CarManufactureAPI/Services/SalesService.cs:182-183 | The result is within half a unit of n/d, and on a tie it is even. |
| Rounding.RoundHalfEvenUnique | CarManufactureAPI/Services/SalesService.cs:182-183 | Those two properties determine the rounded value. |
| Rounding.PercentHundredths | CarManufactureAPI/Services/SalesService.cs:182-183 | The percentage is 0 when the total is not positive. Otherwise it is within half a hundredth of part/whole·100, and on an exact tie it is the even neighbour; with `RoundHalfEvenUnique` this fixes the value. It lies in 0..100.00 when the part is between 0 and the whole. |
| Rounding.PercentExamples | CarManufactureAPI.Tests/Services/SalesServiceTests.cs:340-348 | 6/10 and 4/10 are 60.00 and 40.00; 1/3 is 33.33 and 2/3 is 66.67; 1/32 rounds to the even 3.12; a zero total gives 0. |
| NameOrder.NameLessIrreflexive | CarManufactureAPI/Services/SalesService.cs:188 | No name sorts before itself. |
| NameOrder.NameLessTransitive | CarManufactureAPI/Services/SalesService.cs:188 | The name order is transitive. |
| NameOrder.NameLessTotal | CarManufactureAPI/Services/SalesService.cs:188 | Of two different names, one sorts before the other. |
| SalesService.LookupName | CarManufactureAPI/Services/SalesService.cs:81 | A found model's name matches the text ignoring case. Nothing is found exactly when no name matches. |
| SalesService.NameMatchUnique | CarManufactureAPI/Services/SalesService.cs:81 | At most one model's name matches a text ignoring case. |
| SalesService.ModelAtIndex | CarManufactureAPI/Services/SalesService.cs:73-77 | An index succeeds exactly in 0..3, giving the model declared there. Any other index fails with the invalid-index error naming it. |
| SalesService.ModelNamed | CarManufactureAPI/Services/SalesService.cs:81-88 | A name succeeds exactly when some model's name matches it ignoring case. Otherwise it fails with the invalid-name error, which quotes the untrimmed input and the list of valid names. |
| SalesService.ParseCarModel | CarManufactureAPI/Services/SalesService.cs:63-89 | Blank or null input is exactly the empty-model error. Trimmed text that parses as an integer is treated only as an index. Any other text is matched only as a name. |
| SalesService.ParseByName | CarManufactureAPI/Services/SalesService.cs:81-84 | Any spelling of a canonical name that differs only in case, with or without surrounding white space, parses to that model. |
| SalesService.ParseByIndex | CarManufactureAPI.Tests/Services/SalesServiceTests.cs:62-92 | Each model's decimal index parses to that model ("0" is Sedan, "3" is Sport). |
| SalesService.ParseByIndexSpelling | CarManufactureAPI/Services/SalesService.cs:71-75 | Any digit string whose value is a model's index, with leading zeros and with or without a plus sign, parses to that model ("03" and "+3" are Sport). |
| SalesService.ParseIndexOutOfRange | CarManufactureAPI.Tests/Services/SalesServiceTests.cs:113-130 | Every other 32-bit integer, such as 99, fails as an invalid index. |
| SalesService.ParseBlankExamples | CarManufactureAPI.Tests/Services/SalesServiceTests.cs:132-149 | Empty, blank and null text all give the empty-model error. |
| SalesService.ParseUnknownName | CarManufactureAPI.Tests/Services/SalesServiceTests.cs:94-111 | Text that is neither a number nor a name fails, quoting the input and "Sedan, SUV, Offroad, Sport". |
| SalesService.CreateSaleResult | CarManufactureAPI/Services/SalesService.cs:22-56 | Creation succeeds exactly when the model parses and the center exists. A parse error comes first; an unknown center gives the error that names its id. A success carries the next id, the model's name, the center's name, the quantity, the table price, price × quantity, the date and the success message. |
| SalesService.ValidationOrder | CarManufactureAPI/Services/SalesService.cs:25-32 | On the catalog, an invalid model fails for the model whatever the center. A valid model fails for the center exactly when the id is outside 1..4. |
| SalesService.CreateSedanExample | CarManufactureAPI.Tests/Services/SalesServiceTests.cs:27-60 | Five Sedans at center 1 give sale 1, "Sedan", at "Centro Norte", quantity 5, priced 8000 each and 40000 in all. |
| SalesService.CreateSportExample | CarManufactureAPI/Services/SalesService.cs:35-55 | One Sport at center 1 gives sale 1 at "Centro Norte": the 7% surcharge reaches the response as 19474. |
| SalesService.TotalVolume | CarManufactureAPI/Services/SalesService.cs:94-104 | The sale count is the number of sales, and all three figures are 0 with no sales. |
| SalesService.TotalVolumeAfterSale | CarManufactureAPI/Services/SalesService.cs:94-104 | One more sale adds its quantity, its amount and one to the totals. |
| SalesService.TotalAmountIsCatalogValue | CarManufactureAPI/Services/SalesService.cs:101 | With derived prices, the total amount is the sum of table price × quantity. |
| SalesService.CountIsLength | CarManufactureAPI/Services/SalesService.cs:128 | Counting the sales of a list gives its length. |
| SalesService.CenterVolume | CarManufactureAPI/Services/SalesService.cs:120-129 | An entry carries its center's id and name. A center missing from the grouping gets zero units, amount and sales. |
| SalesService.VolumeByCenter | CarManufactureAPI/Services/SalesService.cs:110-138 | There is one entry per catalog center, in catalog order; the grand totals are the sums over the entries. |
| SalesService.VolumeOfCenter | CarManufactureAPI/Services/SalesService.cs:120-128 | Each entry's figures are those of the center's filtered sales. |
| SalesService.CatalogIdsDistinct | CarManufactureAPI/Repositories/InMemorySalesRepository.cs:19-25 | The catalog's ids are distinct. |
| SalesService.VolumeByCenterMatchesTotal | CarManufactureAPI/Services/SalesService.cs:132-137 | With distinct ids and every sale's center in the catalog, the grand units, amount and sales count equal the total report's. |
| SalesService.ModelsByNameSorted | CarManufactureAPI/Services/SalesService.cs:188 | Offroad, Sedan, Sport, SUV is strictly ascending in the name order, and it lists every model. |
| SalesService.ModelDetail | CarManufactureAPI/Services/SalesService.cs:176-184 | A row carries the model's name and units. Each share is the percentage of its total rounded half to even: within half a hundredth of units/total·100, even on a tie, and 0 when its total is not positive. |
| SalesService.CenterPercentage | CarManufactureAPI/Services/SalesService.cs:159-189 | A center without sales has 0 units and no rows. Otherwise its units are those of its model groups, and its rows are strictly sorted by name: exactly one row per model sold there. |
| SalesService.PercentageByModelAndCenter | CarManufactureAPI/Services/SalesService.cs:146-199 | The global total is the sum of all quantities, and there is one row per catalog center, in catalog order. |
| SalesService.InsertByName | CarManufactureAPI/Services/SalesService.cs:188 | Inserting adds exactly that row. |
| SalesService.SortByName | CarManufactureAPI/Services/SalesService.cs:188 | Sorting permutes the rows. |
| SalesService.InsertByNameSorted | CarManufactureAPI/Services/SalesService.cs:188 | Inserting a new name into a sorted list keeps it sorted. |
| SalesService.SortByNameSorted | CarManufactureAPI/Services/SalesService.cs:188 | Rows with distinct names come out strictly sorted by name. |
| SalesService.SortedRowsUnique | CarManufactureAPI/Services/SalesService.cs:188 | Two strictly sorted lists with the same rows are equal, so the sorted result does not depend on the input order. |
| SalesService.SortedRowsOfCenter | CarManufactureAPI/Services/SalesService.cs:174-188 | Sorting a center's visited rows, in any order, gives that center's row list. |
| SalesService.CenterSharesAddUp | CarManufactureAPI/Services/SalesService.cs:182 | A center's shares add up to 100.00 within half a hundredth per row, and a center has at most four rows. |
| SalesService.CenterUnitsOfGrouping | CarManufactureAPI/Services/SalesService.cs:170 | A center's units in the percentage report are the units of its filtered sales. |
| SalesService.PercentageTotalsAgree | CarManufactureAPI/Services/SalesService.cs:153-171 | With distinct ids and every sale's center in the catalog, the centers' units add up to the global total. |
| SalesService.SalesService.constructor | CarManufactureAPI/Services/SalesService.cs:14-17 | The service wraps the given repository. |
| SalesService.SalesService.CreateSale | CarManufactureAPI/Services/SalesService.cs:22-56 | The answer is `CreateSaleResult` at the repository's counter. A failure leaves the repository unchanged. A success appends exactly one sale, whose response is the answer. The repository invariant and "every sale names a catalog center" are preserved. |
| SalesService.SalesService.GetTotalVolume | CarManufactureAPI/Services/SalesService.cs:94-104 | The answer is the total report of the repository's sales. |
| SalesService.SalesService.GetVolumeByCenter | CarManufactureAPI/Services/SalesService.cs:110-138 | The answer is the volume-by-center report of the repository's grouping and catalog. |
| SalesService.SalesService.GetPercentageByModelAndCenter | CarManufactureAPI/Services/SalesService.cs:146-199 | The answer is the percentage report of the repository's grouping, catalog and sales. |
| SalesService.VolumesOfCenters | CarManufactureAPI/Services/SalesService.cs:115-130 | The loop builds exactly the report's entries, one per center, in order. |
| SalesService.PercentagesOfCenters | CarManufactureAPI/Services/SalesService.cs:155-192 | The loop builds exactly one specified center row per catalog center, in order. |
| SalesService.VisitModels | CarManufactureAPI/Services/SalesService.cs:174-185 | Enumerating the model groups in any order gives rows with distinct names: exactly one specified row per model group. |
| SalesScenarios.ScenarioPricesDerived | CarManufactureAPI.Tests/Services/SalesServiceTests.cs:176-181 | The test sales' prices agree with the table. |
| SalesScenarios.FiveSedansScenario | CarManufactureAPI.Tests/Repositories/InMemorySalesRepositoryTests.cs:15-37 | Five Sedans are priced at 8000 each, 40000 in all. |
| SalesScenarios.TotalVolumeScenario | CarManufactureAPI.Tests/Services/SalesServiceTests.cs:173-193 | The three test sales total 10 units, 107448 and 3 sales. |
| SalesScenarios.SalesByCenterScenario | CarManufactureAPI.Tests/Repositories/InMemorySalesRepositoryTests.cs:90-121 | Center 1 holds the Sedan and the Sport sale, in order; center 2 holds the SUV sale; center 3 holds nothing. |
| SalesScenarios.CenterTotalsScenario | CarManufactureAPI.Tests/Services/SalesServiceTests.cs:250-258 | Center 1 totals 7 units and 78948; center 2 totals 3 units and 28500. |
| SalesScenarios.VolumeByCenterScenario | CarManufactureAPI.Tests/Services/SalesServiceTests.cs:212-296 | Center 1 has (7, 78948, 2), center 2 has (3, 28500, 1), and center 3 has zeros; the grand totals are 10 and 107448. |
| SalesScenarios.RowsScenario | CarManufactureAPI.Tests/Services/SalesServiceTests.cs:299-349 | Six Sedans and four Sports give the rows Sedan 60.00/60.00 and Sport 40.00/40.00, in that order. |
| SalesScenarios.PercentageScenario | CarManufactureAPI.Tests/Services/SalesServiceTests.cs:299-349 | The whole report for that test: one center with 10 units and those two rows, and a global total of 10. |
| SalesScenarios.EmptyPercentageScenario | CarManufactureAPI.Tests/Services/SalesServiceTests.cs:351-373 | With no sales, every center has no rows and 0 units, and the global total is 0. |

## Left out

- Aliasing is not modelled. The repository stores a value snapshot of each `Sale` at the moment it is added. The source stores the object reference, so a caller who mutated the object later would see the change through `GetAllSales`.
- `Sale.SaleDate` and `DateTime.UtcNow`: the clock reading is a parameter `now`.
- `GenerateMockSales` (InMemorySalesRepository.cs:36-59) is not modelled. Its call is commented out, and it depends on `Random` and the clock.
- Overflow is not modelled. Integers are unbounded: the checked overflow of LINQ `Sum` and the wrap-around of `_nextSaleId++` are not represented.
- `Enum.TryParse` also accepts comma-separated flag combinations, such as "SUV, Offroad", which would be 1|2 = 3, Sport. The model matches single names only.
- Case folding is ASCII. Non-ASCII characters that .NET's ordinal ignore-case folds to Latin letters are not matched.
- `int.TryParse`: the model accepts an optional sign followed by ASCII digits. It is applied after `Trim`. Trailing NUL characters, which .NET also accepts, are not. The sign symbols are fixed as '+' and '-'; .NET takes them from the current culture's number format.
- Culture-sensitive collation is replaced by the explicit order `NameOrder.NameLess`. It agrees with the culture comparer on the four model names.
- The Spanish error texts are not modelled. Errors are tags with the payload the message quotes.
- The `ArgumentException` in `GetPrice`'s default arm (CarModelPricing.cs:31) cannot be reached. `CarModel` is a closed datatype.
- The request's `DataAnnotations` (CreateSaleRequest.cs:18-27) are not part of this model: they run in the framework before the service, so they are not preconditions. The model accepts any quantity and center id, as the service itself does.
- Three parts of the application are not modelled:
  - The controller and its status-code mapping (SalesController.cs).
  - The timing filter (PerformanceFilter.cs).
  - The dependency-injection setup (Program.cs).
- The singleton repository is unsynchronised; concurrent requests are not modelled, and every operation is sequential.
- SalesRepository.InMemorySalesRepository.GetAllSales, GetAllDistributionCenters, GetSalesGroupByCenter, GetSalesGroupByCenterAndModel: these accessors return a field or a grouping function unchanged. Their properties are stated on `GroupByCenter` and `GroupByCenterAndModel` rather than repeated on them.
