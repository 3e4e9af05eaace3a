/** The business logic (Services/SalesService.cs): parsing a model,
    creating a sale, and the three reports. */
module SalesService {
  import opened Wrappers
  import opened CarModels
  import opened CarModelPricing
  import opened Sales
  import opened SalesRepository
  import opened DotNetText
  import opened NameOrder
  import opened Rounding
  import opened Dtos

  /** The four argument errors the service raises, with their payloads. */
  datatype SalesError =
    | EmptyModel
    | InvalidIndex(index: int)
    | InvalidName(input: string, validModels: string)
    | CenterNotFound(centerId: int)

  // ---------------------------------------------------------------- parsing

  /** `Enum.TryParse(text, ignoreCase: true)` on a single name: the first of
      `models` whose canonical name matches ignoring case. */
  function LookupName(text: string, models: seq<CarModel>): (r: Option<CarModel>)
    ensures r.Some? ==> r.value in models && EqualsIgnoreCase(text, Name(r.value))
    ensures r.None? <==> forall m | m in models :: !EqualsIgnoreCase(text, Name(m))
  {
    if models == [] then None
    else if EqualsIgnoreCase(text, Name(models[0])) then Some(models[0])
    else LookupName(text, models[1..])
  }

  /** At most one canonical name matches a given text ignoring case. */
  lemma NameMatchUnique(text: string, a: CarModel, b: CarModel)
    requires EqualsIgnoreCase(text, Name(a)) && EqualsIgnoreCase(text, Name(b))
    ensures a == b
  {
    assert ToLowerAscii(Name(a)[1]) == ToLowerAscii(text[1]) == ToLowerAscii(Name(b)[1]);
  }

  /** The integer branch: an index names the model declared at that position. */
  function ModelAtIndex(modelIndex: int): (r: Result<CarModel, SalesError>)
    ensures r.Success? <==> 0 <= modelIndex < |AllModels|
    ensures r.Success? ==> r.value == AllModels[modelIndex]
    ensures r.Failure? ==> r.error == InvalidIndex(modelIndex)
  {
    match FromIndex(modelIndex)
    case Some(m) => Success(m)
    case None => Failure(InvalidIndex(modelIndex))
  }

  /** The name branch: `text` is the trimmed form of `input`, which the
      error reports untrimmed together with the list of valid names. */
  function ModelNamed(text: string, input: string): (r: Result<CarModel, SalesError>)
    ensures r.Success? <==> exists m :: EqualsIgnoreCase(text, Name(m))
    ensures r.Success? ==> EqualsIgnoreCase(text, Name(r.value))
    ensures r.Failure? ==> r.error == InvalidName(input, ValidModelNames())
  {
    match LookupName(text, AllModels)
    case Some(m) => Success(m)
    case None =>
      assert forall m :: m == AllModels[Index(m)];
      Failure(InvalidName(input, ValidModelNames()))
  }

  /** `ParseCarModel`: blank text is an error; trimmed text that parses as an
      integer is only ever an index; anything else is matched as a name. */
  function ParseCarModel(input: Option<string>): (r: Result<CarModel, SalesError>)
    ensures IsNullOrWhiteSpace(input) <==> r == Failure(EmptyModel)
    ensures !IsNullOrWhiteSpace(input) && TryParseInt32(Trim(input.value)).Some? ==>
      r == ModelAtIndex(TryParseInt32(Trim(input.value)).value)
    ensures !IsNullOrWhiteSpace(input) && TryParseInt32(Trim(input.value)).None? ==>
      r == ModelNamed(Trim(input.value), input.value)
  {
    if IsNullOrWhiteSpace(input) then Failure(EmptyModel)
    else
      var text := Trim(input.value);
      match TryParseInt32(text)
      case Some(modelIndex) => ModelAtIndex(modelIndex)
      case None => ModelNamed(text, input.value)
  }

  /** Every spelling of a canonical name that differs only in letter case,
      with or without surrounding white space, parses to that model. */
  lemma ParseByName(m: CarModel, s: string)
    requires EqualsIgnoreCase(Trim(s), Name(m))
    ensures ParseCarModel(Some(s)) == Success(m)
  {
    var t := Trim(s);
    var n := Name(m);
    assert ToLowerAscii(t[0]) == ToLowerAscii(n[0]);
    assert !IsNullOrWhiteSpace(Some(s));
    assert TryParseInt32(t).None?;
    var r := ModelNamed(t, s);
    assert r.Success?;
    NameMatchUnique(t, m, r.value);
  }

  /** The decimal index of each model parses to that model. */
  lemma ParseByIndex(m: CarModel)
    ensures ParseCarModel(Some(FormatInt(Index(m)))) == Success(m)
  {
    TrimFormatInt(Index(m));
    TryParseFormat(Index(m));
  }

  /** Any digit string whose value is a model's index, with leading zeros
      and an optional plus sign, parses to that model: "03" and "+3" are Sport. */
  lemma ParseByIndexSpelling(m: CarModel, ds: string)
    requires ds != [] && AllDigits(ds) && DigitsValue(ds) == Index(m)
    ensures ParseCarModel(Some(ds)) == Success(m)
    ensures ParseCarModel(Some("+" + ds)) == Success(m)
  {
    var signed := "+" + ds;
    assert IsDigit(ds[0]) && IsDigit(ds[|ds| - 1]);
    assert SignLength(ds) == 0;
    assert ds[0..] == ds;
    assert IsSignedDigits(ds);
    assert SignedValue(ds) == Index(m);
    assert TryParseInt32(ds) == Some(Index(m));
    TryParsePlusSign(ds);
    assert signed[0] == '+' && signed[|signed| - 1] == ds[|ds| - 1];
    ParseParsedIndex(m, ds);
    ParseParsedIndex(m, signed);
  }

  /** Unpadded text that `int.TryParse` reads as a model's index parses to that model. */
  lemma ParseParsedIndex(m: CarModel, t: string)
    requires t != [] && !IsWhiteSpace(t[0]) && !IsWhiteSpace(t[|t| - 1])
    requires TryParseInt32(t) == Some(Index(m))
    ensures ParseCarModel(Some(t)) == Success(m)
  {
    TrimUnpadded(t);
    assert !AllWhiteSpace(t);
  }

  /** Any other 32-bit integer is rejected as an index, never tried as a name. */
  lemma ParseIndexOutOfRange(n: int)
    requires Int32Min <= n <= Int32Max
    requires !(0 <= n < |AllModels|)
    ensures ParseCarModel(Some(FormatInt(n))) == Failure(InvalidIndex(n))
  {
    TrimFormatInt(n);
    TryParseFormat(n);
  }

  /** Null, empty and blank input are all the same error. */
  lemma ParseBlankExamples()
    ensures ParseCarModel(Some("")) == Failure(EmptyModel)
    ensures ParseCarModel(Some("   ")) == Failure(EmptyModel)
    ensures ParseCarModel(None) == Failure(EmptyModel)
  {
    assert AllWhiteSpace("   ");
  }

  /** Text that is neither an integer nor a name is reported untrimmed,
      with the valid names in declaration order. */
  lemma ParseUnknownName(s: string)
    requires !AllWhiteSpace(s) && TryParseInt32(Trim(s)).None?
    requires forall m: CarModel :: !EqualsIgnoreCase(Trim(s), Name(m))
    ensures ParseCarModel(Some(s)) == Failure(InvalidName(s, "Sedan, SUV, Offroad, Sport"))
  {
    ValidModelNamesText();
  }

  // ------------------------------------------------------------ creating a sale

  const SuccessMessage: string := "Venta creada exitosamente"

  /** The response built from a stored sale and the name of its center. */
  function ResponseOf(sale: SaleRecord, centerName: string): SaleResponse {
    SaleResponse(sale.id, Name(sale.carModel), sale.distributionCenterId, centerName,
      sale.quantity, sale.unitPrice, sale.totalAmount, sale.saleDate, SuccessMessage)
  }

  /** What `CreateSale` answers when the repository would hand out
      `nextSaleId` and the clock reads `now`: the model is validated before
      the center, and a success carries the catalog price. */
  function CreateSaleResult(request: CreateSaleRequest, centers: seq<DistributionCenter>, nextSaleId: int, now: int)
    : (r: Result<SaleResponse, SalesError>)
    ensures r.Success? <==>
      ParseCarModel(request.carModel).Success? && FindCenter(centers, request.distributionCenterId).Some?
    ensures ParseCarModel(request.carModel).Failure? ==> r == Failure(ParseCarModel(request.carModel).error)
    ensures ParseCarModel(request.carModel).Success? && FindCenter(centers, request.distributionCenterId).None? ==>
      r == Failure(CenterNotFound(request.distributionCenterId))
    ensures r.Success? ==>
      var m := ParseCarModel(request.carModel).value;
      && r.value.id == nextSaleId
      && r.value.carModel == Name(m)
      && r.value.distributionCenterId == request.distributionCenterId
      && r.value.distributionCenterName == FindCenter(centers, request.distributionCenterId).value.name
      && r.value.quantity == request.quantity
      && r.value.unitPrice == GetPrice(m)
      && r.value.totalAmount == GetPrice(m) * request.quantity
      && r.value.saleDate == now
      && r.value.message == SuccessMessage
  {
    match ParseCarModel(request.carModel)
    case Failure(e) => Failure(e)
    case Success(carModel) =>
      match FindCenter(centers, request.distributionCenterId)
      case None => Failure(CenterNotFound(request.distributionCenterId))
      case Some(center) =>
        var sale := SaleRecord(nextSaleId, carModel, request.distributionCenterId, request.quantity, 0, 0, now);
        Success(ResponseOf(WithDerivedPrices(sale), center.name))
  }

  /** A request whose model is valid but whose center is unknown is
      rejected for the center, and one with an invalid model is rejected for
      the model whatever its center. */
  lemma ValidationOrder(request: CreateSaleRequest, nextSaleId: int, now: int)
    ensures ParseCarModel(request.carModel).Failure? ==>
      CreateSaleResult(request, Catalog, nextSaleId, now) == Failure(ParseCarModel(request.carModel).error)
    ensures ParseCarModel(request.carModel).Success? && !(1 <= request.distributionCenterId <= 4) ==>
      CreateSaleResult(request, Catalog, nextSaleId, now) == Failure(CenterNotFound(request.distributionCenterId))
    ensures ParseCarModel(request.carModel).Success? && 1 <= request.distributionCenterId <= 4 ==>
      CreateSaleResult(request, Catalog, nextSaleId, now).Success?
  {
    FindCenterInCatalog(request.distributionCenterId);
  }

  /** A request for five Sedans at center 1: sale 1, priced 8000 each, 40000 in all. */
  lemma CreateSedanExample(now: int)
    ensures CreateSaleResult(CreateSaleRequest(Some("Sedan"), 1, 5), Catalog, 1, now)
      == Success(SaleResponse(1, "Sedan", 1, "Centro Norte", 5, 8000, 40000, now, SuccessMessage))
  {
    TrimUnpadded("Sedan");
    ParseByName(Sedan, "Sedan");
    FindCenterInCatalog(1);
    PriceTable();
  }

  /** One Sport sale: the 7% surcharge reaches the response. */
  lemma CreateSportExample(now: int)
    ensures CreateSaleResult(CreateSaleRequest(Some("Sport"), 1, 1), Catalog, 1, now)
      == Success(SaleResponse(1, "Sport", 1, "Centro Norte", 1, 19474, 19474, now, SuccessMessage))
  {
    TrimUnpadded("Sport");
    ParseByName(Sport, "Sport");
    FindCenterInCatalog(1);
    PriceTable();
  }

  /** Every stored sale names a center of the catalog. */
  predicate CentersResolved(sales: seq<SaleRecord>, centers: seq<DistributionCenter>) {
    forall s | s in sales :: FindCenter(centers, s.distributionCenterId).Some?
  }

  // ----------------------------------------------------------------- totals

  /** The quantities the reports add up: units, money, and number of sales. */
  datatype Measure = Units | Amount | Count

  function MeasureOf(sale: SaleRecord, k: Measure): int {
    match k
    case Units => sale.quantity
    case Amount => sale.totalAmount
    case Count => 1
  }

  /** `Sum(s => s.Quantity)`, `Sum(s => s.TotalAmount)` or `Count()` over `sales`. */
  function Total(sales: seq<SaleRecord>, k: Measure): int {
    if sales == [] then 0 else MeasureOf(sales[0], k) + Total(sales[1..], k)
  }

  lemma {:induction false} TotalAppend(a: seq<SaleRecord>, b: seq<SaleRecord>, k: Measure)
    ensures Total(a + b, k) == Total(a, k) + Total(b, k)
    decreases |a|
  {
    if a == [] {
      assert a + b == b;
    } else {
      assert (a + b)[1..] == a[1..] + b;
      TotalAppend(a[1..], b, k);
    }
  }

  lemma TotalSingleton(sale: SaleRecord, k: Measure)
    ensures Total([sale], k) == MeasureOf(sale, k)
  {
    assert [sale][1..] == [];
  }

  lemma {:induction false} CountIsLength(sales: seq<SaleRecord>)
    ensures Total(sales, Count) == |sales|
    decreases |sales|
  {
    if sales != [] {
      CountIsLength(sales[1..]);
    }
  }

  /** `GetTotalVolume` over the sales in `allSales`. */
  function TotalVolume(allSales: seq<SaleRecord>): (r: TotalVolumeResponse)
    ensures allSales == [] ==> r == TotalVolumeResponse(0, 0, 0)
    ensures r.totalSales == |allSales|
  {
    TotalVolumeResponse(Total(allSales, Units), Total(allSales, Amount), |allSales|)
  }

  /** Recording one more sale adds its quantity, its amount and one sale. */
  lemma TotalVolumeAfterSale(allSales: seq<SaleRecord>, sale: SaleRecord)
    ensures TotalVolume(allSales + [sale]) == TotalVolumeResponse(
      TotalVolume(allSales).totalUnits + sale.quantity,
      TotalVolume(allSales).totalAmount + sale.totalAmount,
      TotalVolume(allSales).totalSales + 1)
  {
    TotalAppend(allSales, [sale], Units);
    TotalAppend(allSales, [sale], Amount);
  }

  /** Price times quantity per sale, from each sale's model alone. */
  function CatalogValue(sales: seq<SaleRecord>): int {
    if sales == [] then 0 else GetPrice(sales[0].carModel) * sales[0].quantity + CatalogValue(sales[1..])
  }

  /** With prices derived from the catalog, the total amount is the catalog value of the sales. */
  lemma {:induction false} TotalAmountIsCatalogValue(sales: seq<SaleRecord>)
    requires forall s | s in sales :: PricesDerived(s)
    ensures TotalVolume(sales).totalAmount == CatalogValue(sales)
    decreases |sales|
  {
    if sales != [] {
      assert sales[0] in sales;
      assert forall s | s in sales[1..] :: s in sales;
      TotalAmountIsCatalogValue(sales[1..]);
    }
  }

  // --------------------------------------------------------- volume by center

  /** The figures of one center: its sales, or none when it has no group. */
  function CenterVolume(center: DistributionCenter, salesByCenter: map<int, seq<SaleRecord>>): (d: CenterVolumeDetail)
    ensures d.distributionCenterId == center.id && d.distributionCenterName == center.name
    ensures center.id !in salesByCenter ==> d.totalUnits == 0 && d.totalAmount == 0 && d.totalSales == 0
  {
    var centerSales := if center.id in salesByCenter then salesByCenter[center.id] else [];
    CenterVolumeDetail(center.id, center.name, Total(centerSales, Units), Total(centerSales, Amount), |centerSales|)
  }

  function DetailMeasure(d: CenterVolumeDetail, k: Measure): int {
    match k
    case Units => d.totalUnits
    case Amount => d.totalAmount
    case Count => d.totalSales
  }

  /** `centerVolumes.Sum(...)` of one figure over the entries. */
  function Grand(details: seq<CenterVolumeDetail>, k: Measure): int {
    if details == [] then 0 else DetailMeasure(details[0], k) + Grand(details[1..], k)
  }

  /** `GetVolumeByCenter`: one entry per catalog center, in catalog order,
      including centers without sales, and the grand totals of the entries. */
  function VolumeByCenter(salesByCenter: map<int, seq<SaleRecord>>, centers: seq<DistributionCenter>)
    : (r: VolumeByCenterResponse)
    ensures |r.centers| == |centers|
    ensures forall i | 0 <= i < |centers| :: r.centers[i] == CenterVolume(centers[i], salesByCenter)
    ensures r.grandTotalUnits == Grand(r.centers, Units) && r.grandTotalAmount == Grand(r.centers, Amount)
  {
    var details := seq(|centers|, i requires 0 <= i < |centers| => CenterVolume(centers[i], salesByCenter));
    VolumeByCenterResponse(details, Grand(details, Units), Grand(details, Amount))
  }

  /** On the repository's grouping, each entry holds the figures of the
      sales `GetSalesByCenter` returns for that center. */
  lemma VolumeOfCenter(sales: seq<SaleRecord>, centers: seq<DistributionCenter>, i: int, k: Measure)
    requires 0 <= i < |centers|
    ensures DetailMeasure(VolumeByCenter(GroupByCenter(sales), centers).centers[i], k)
      == Total(SalesOfCenter(sales, centers[i].id), k)
  {
    GroupLookup(sales, centers[i].id);
    CountIsLength(SalesOfCenter(sales, centers[i].id));
  }

  predicate DistinctIds(centers: seq<DistributionCenter>) {
    forall i, j | 0 <= i < j < |centers| :: centers[i].id != centers[j].id
  }

  lemma CatalogIdsDistinct()
    ensures DistinctIds(Catalog)
  {
  }

  /** The figure summed center by center over the sales of each center. */
  function SumOverCenters(sales: seq<SaleRecord>, centers: seq<DistributionCenter>, k: Measure): int {
    if centers == [] then 0
    else Total(SalesOfCenter(sales, centers[0].id), k) + SumOverCenters(sales, centers[1..], k)
  }

  /** What one sale contributes to `SumOverCenters`: its figure once for every center carrying its id. */
  function Hits(sale: SaleRecord, centers: seq<DistributionCenter>, k: Measure): int {
    if centers == [] then 0
    else (if centers[0].id == sale.distributionCenterId then MeasureOf(sale, k) else 0) + Hits(sale, centers[1..], k)
  }

  lemma {:induction false} HitsOnce(sale: SaleRecord, centers: seq<DistributionCenter>, k: Measure)
    requires DistinctIds(centers)
    ensures Hits(sale, centers, k) == if FindCenter(centers, sale.distributionCenterId).Some? then MeasureOf(sale, k) else 0
    decreases |centers|
  {
    if centers != [] {
      var rest := centers[1..];
      assert DistinctIds(rest) by {
        forall i, j | 0 <= i < j < |rest| ensures rest[i].id != rest[j].id {
          assert rest[i] == centers[i + 1] && rest[j] == centers[j + 1];
        }
      }
      HitsOnce(sale, rest, k);
      if centers[0].id == sale.distributionCenterId {
        forall d | d in rest ensures d.id != sale.distributionCenterId {
          var j :| 0 <= j < |rest| && rest[j] == d;
          assert centers[j + 1] == d;
        }
      } else {
        assert forall d | d in centers :: d == centers[0] || d in rest;
      }
    }
  }

  lemma {:induction false} SumOverCentersCons(x: SaleRecord, rest: seq<SaleRecord>, centers: seq<DistributionCenter>, k: Measure)
    ensures SumOverCenters([x] + rest, centers, k) == Hits(x, centers, k) + SumOverCenters(rest, centers, k)
    decreases |centers|
  {
    if centers != [] {
      var id := centers[0].id;
      SalesOfCenterAppend([x], rest, id);
      assert SalesOfCenter([x], id) == if x.distributionCenterId == id then [x] else [] by {
        assert [x][1..] == [];
      }
      TotalAppend(SalesOfCenter([x], id), SalesOfCenter(rest, id), k);
      SumOverCentersCons(x, rest, centers[1..], k);
    }
  }

  lemma {:induction false} SumOverNoSales(centers: seq<DistributionCenter>, k: Measure)
    ensures SumOverCenters([], centers, k) == 0
    decreases |centers|
  {
    if centers != [] {
      SumOverNoSales(centers[1..], k);
    }
  }

  /** When every sale names exactly one of the centers, adding up the
      centers adds up every sale once. */
  lemma {:induction false} SumOverCentersResolved(sales: seq<SaleRecord>, centers: seq<DistributionCenter>, k: Measure)
    requires DistinctIds(centers) && CentersResolved(sales, centers)
    ensures SumOverCenters(sales, centers, k) == Total(sales, k)
    decreases |sales|
  {
    if sales == [] {
      SumOverNoSales(centers, k);
    } else {
      assert sales == [sales[0]] + sales[1..];
      assert sales[0] in sales;
      assert CentersResolved(sales[1..], centers) by {
        assert forall s | s in sales[1..] :: s in sales;
      }
      SumOverCentersCons(sales[0], sales[1..], centers, k);
      HitsOnce(sales[0], centers, k);
      SumOverCentersResolved(sales[1..], centers, k);
    }
  }

  /** The grand totals of the report add up the centers' own sales. */
  lemma {:induction false} GrandIsSumOverCenters(sales: seq<SaleRecord>, centers: seq<DistributionCenter>, k: Measure)
    ensures Grand(VolumeByCenter(GroupByCenter(sales), centers).centers, k) == SumOverCenters(sales, centers, k)
    decreases |centers|
  {
    if centers != [] {
      var g := GroupByCenter(sales);
      var details := VolumeByCenter(g, centers).centers;
      assert details[1..] == VolumeByCenter(g, centers[1..]).centers;
      VolumeOfCenter(sales, centers, 0, k);
      GrandIsSumOverCenters(sales, centers[1..], k);
    }
  }

  /** When every sale names a center of the catalog, the report by center
      accounts for exactly the units, money and sales of the total report. */
  lemma VolumeByCenterMatchesTotal(sales: seq<SaleRecord>, centers: seq<DistributionCenter>)
    requires DistinctIds(centers) && CentersResolved(sales, centers)
    ensures VolumeByCenter(GroupByCenter(sales), centers).grandTotalUnits == TotalVolume(sales).totalUnits
    ensures VolumeByCenter(GroupByCenter(sales), centers).grandTotalAmount == TotalVolume(sales).totalAmount
    ensures Grand(VolumeByCenter(GroupByCenter(sales), centers).centers, Count) == TotalVolume(sales).totalSales
  {
    GrandIsSumOverCenters(sales, centers, Units);
    SumOverCentersResolved(sales, centers, Units);
    GrandIsSumOverCenters(sales, centers, Amount);
    SumOverCentersResolved(sales, centers, Amount);
    GrandIsSumOverCenters(sales, centers, Count);
    SumOverCentersResolved(sales, centers, Count);
    CountIsLength(sales);
  }

  // ------------------------------------------ percentage by model and center

  /** The models in the order their names sort in a report. */
  const ModelsByName: seq<CarModel> := [Offroad, Sedan, Sport, SUV]

  lemma OffroadBeforeSedan()
    ensures NameLess("Offroad", "Sedan")
  {
    assert Fold("Offroad")[0] == 'o' && Fold("Sedan")[0] == 's';
  }

  lemma SedanBeforeSport()
    ensures NameLess("Sedan", "Sport")
  {
    var a, b := Fold("Sedan"), Fold("Sport");
    assert a[0] == b[0] == 's' && a[1] == 'e' && b[1] == 'p';
    assert LexLess(a[1..], b[1..]);
  }

  lemma SportBeforeSUV()
    ensures NameLess("Sport", "SUV")
  {
    var a, b := Fold("Sport"), Fold("SUV");
    assert a[0] == b[0] == 's' && a[1] == 'p' && b[1] == 'u';
    assert LexLess(a[1..], b[1..]);
  }

  lemma ModelsByNameSorted()
    ensures forall i, j | 0 <= i < j < |ModelsByName| :: NameLess(Name(ModelsByName[i]), Name(ModelsByName[j]))
    ensures forall m :: m in ModelsByName
  {
    OffroadBeforeSedan();
    SedanBeforeSport();
    SportBeforeSUV();
    NameLessTransitive("Offroad", "Sedan", "Sport");
    NameLessTransitive("Offroad", "Sport", "SUV");
    NameLessTransitive("Sedan", "Sport", "SUV");
    forall m: CarModel ensures m in ModelsByName {
      assert m == Offroad || m == Sedan || m == Sport || m == SUV;
    }
  }

  /** The units of those of `models` that have a group in `modelSales`. */
  function ModelUnits(modelSales: map<CarModel, seq<SaleRecord>>, models: seq<CarModel>): int {
    if models == [] then 0
    else
      (if models[0] in modelSales then Total(modelSales[models[0]], Units) else 0)
      + ModelUnits(modelSales, models[1..])
  }

  /** The units of all of a center's model groups together. */
  function CenterUnits(modelSales: map<CarModel, seq<SaleRecord>>): int {
    ModelUnits(modelSales, ModelsByName)
  }

  /** One row of a center: the model's units and its two shares, each
      rounded half to even to hundredths and 0 against an empty total. */
  function ModelDetail(m: CarModel, modelSales: map<CarModel, seq<SaleRecord>>, centerTotal: int, globalTotal: int)
    : (d: ModelPercentageDetail)
    requires m in modelSales
    ensures d.carModel == Name(m) && d.unitsSold == Total(modelSales[m], Units)
    ensures centerTotal > 0 ==> 2 * Abs(d.percentageOfCenter * centerTotal - d.unitsSold * 10000) <= centerTotal
    ensures globalTotal > 0 ==> 2 * Abs(d.percentageOfTotal * globalTotal - d.unitsSold * 10000) <= globalTotal
    ensures centerTotal > 0 && 2 * Abs(d.percentageOfCenter * centerTotal - d.unitsSold * 10000) == centerTotal ==>
      d.percentageOfCenter % 2 == 0
    ensures globalTotal > 0 && 2 * Abs(d.percentageOfTotal * globalTotal - d.unitsSold * 10000) == globalTotal ==>
      d.percentageOfTotal % 2 == 0
    ensures centerTotal <= 0 ==> d.percentageOfCenter == 0
    ensures globalTotal <= 0 ==> d.percentageOfTotal == 0
    ensures d.percentageOfCenter == PercentHundredths(d.unitsSold, centerTotal)
    ensures d.percentageOfTotal == PercentHundredths(d.unitsSold, globalTotal)
  {
    var unitsOfModel := Total(modelSales[m], Units);
    ModelPercentageDetail(Name(m), unitsOfModel,
      PercentHundredths(unitsOfModel, centerTotal), PercentHundredths(unitsOfModel, globalTotal))
  }

  /** The rows of those of `models` that have a group, in the order of `models`. */
  function DetailsFor(models: seq<CarModel>, modelSales: map<CarModel, seq<SaleRecord>>, centerTotal: int, globalTotal: int)
    : seq<ModelPercentageDetail>
  {
    if models == [] then []
    else
      (if models[0] in modelSales then [ModelDetail(models[0], modelSales, centerTotal, globalTotal)] else [])
      + DetailsFor(models[1..], modelSales, centerTotal, globalTotal)
  }

  predicate StrictlySortedByName(ds: seq<ModelPercentageDetail>) {
    forall i, j | 0 <= i < j < |ds| :: NameLess(ds[i].carModel, ds[j].carModel)
  }

  lemma {:induction false} DetailsForMembers(models: seq<CarModel>, modelSales: map<CarModel, seq<SaleRecord>>, centerTotal: int, globalTotal: int)
    ensures forall x :: x in DetailsFor(models, modelSales, centerTotal, globalTotal) <==>
      exists m | m in models && m in modelSales :: x == ModelDetail(m, modelSales, centerTotal, globalTotal)
    decreases |models|
  {
    if models != [] {
      DetailsForMembers(models[1..], modelSales, centerTotal, globalTotal);
      assert forall m | m in models :: m == models[0] || m in models[1..];
    }
  }

  lemma ConsSorted(head: ModelPercentageDetail, tail: seq<ModelPercentageDetail>)
    requires StrictlySortedByName(tail)
    requires forall x | x in tail :: NameLess(head.carModel, x.carModel)
    ensures StrictlySortedByName([head] + tail)
  {
    var all := [head] + tail;
    forall i, j | 0 <= i < j < |all| ensures NameLess(all[i].carModel, all[j].carModel) {
      assert all[j] == tail[j - 1];
      if i > 0 {
        assert all[i] == tail[i - 1];
      }
    }
  }

  lemma {:induction false} DetailsForSorted(models: seq<CarModel>, modelSales: map<CarModel, seq<SaleRecord>>, centerTotal: int, globalTotal: int)
    requires forall i, j | 0 <= i < j < |models| :: NameLess(Name(models[i]), Name(models[j]))
    ensures StrictlySortedByName(DetailsFor(models, modelSales, centerTotal, globalTotal))
    decreases |models|
  {
    if models != [] {
      var rest := models[1..];
      var tail := DetailsFor(rest, modelSales, centerTotal, globalTotal);
      DetailsForSorted(rest, modelSales, centerTotal, globalTotal);
      if models[0] in modelSales {
        var head := ModelDetail(models[0], modelSales, centerTotal, globalTotal);
        DetailsForMembers(rest, modelSales, centerTotal, globalTotal);
        forall x | x in tail ensures NameLess(head.carModel, x.carModel) {
          var m :| m in rest && m in modelSales && x == ModelDetail(m, modelSales, centerTotal, globalTotal);
          var j :| 0 <= j < |rest| && rest[j] == m;
          assert models[j + 1] == m;
        }
        ConsSorted(head, tail);
      }
    }
  }

  /** The row of one center: empty with no sales, otherwise one row per
      model sold there, sorted by name, with the center's total units. */
  function CenterPercentage(center: DistributionCenter, groups: map<int, map<CarModel, seq<SaleRecord>>>, globalTotal: int)
    : (d: CenterPercentageDetail)
    ensures d.distributionCenterId == center.id && d.distributionCenterName == center.name
    ensures center.id !in groups ==> d.totalUnitsInCenter == 0 && d.models == []
    ensures center.id in groups ==> d.totalUnitsInCenter == CenterUnits(groups[center.id])
    ensures center.id in groups ==> StrictlySortedByName(d.models)
    ensures center.id in groups ==> forall x :: x in d.models <==>
      exists m | m in groups[center.id] :: x == ModelDetail(m, groups[center.id], d.totalUnitsInCenter, globalTotal)
  {
    if center.id !in groups then CenterPercentageDetail(center.id, center.name, 0, [])
    else
      var modelSales := groups[center.id];
      var totalUnitsInCenter := CenterUnits(modelSales);
      ModelsByNameSorted();
      DetailsForMembers(ModelsByName, modelSales, totalUnitsInCenter, globalTotal);
      DetailsForSorted(ModelsByName, modelSales, totalUnitsInCenter, globalTotal);
      CenterPercentageDetail(center.id, center.name, totalUnitsInCenter,
        DetailsFor(ModelsByName, modelSales, totalUnitsInCenter, globalTotal))
  }

  /** `GetPercentageByModelAndCenter`: one row per catalog center in catalog
      order, with shares of the center's and of the global units. */
  function PercentageByModelAndCenter(
    groups: map<int, map<CarModel, seq<SaleRecord>>>, centers: seq<DistributionCenter>, allSales: seq<SaleRecord>)
    : (r: PercentageByModelAndCenterResponse)
    ensures r.totalUnitsGlobal == TotalVolume(allSales).totalUnits
    ensures |r.centers| == |centers|
    ensures forall i | 0 <= i < |centers| :: r.centers[i] == CenterPercentage(centers[i], groups, r.totalUnitsGlobal)
  {
    var totalUnitsGlobal := Total(allSales, Units);
    PercentageByModelAndCenterResponse(
      seq(|centers|, i requires 0 <= i < |centers| => CenterPercentage(centers[i], groups, totalUnitsGlobal)),
      totalUnitsGlobal)
  }

  // ------------------------------------------------------------- ordering rows

  /** Inserts `d` before the first row whose name does not sort before it. */
  function InsertByName(d: ModelPercentageDetail, sorted: seq<ModelPercentageDetail>): (r: seq<ModelPercentageDetail>)
    ensures multiset(r) == multiset(sorted) + multiset{d}
  {
    if sorted == [] || !NameLess(sorted[0].carModel, d.carModel) then [d] + sorted
    else
      assert sorted == [sorted[0]] + sorted[1..];
      [sorted[0]] + InsertByName(d, sorted[1..])
  }

  /** `OrderBy(m => m.CarModel)`: a stable insertion sort by name. */
  function SortByName(ds: seq<ModelPercentageDetail>): (r: seq<ModelPercentageDetail>)
    ensures multiset(r) == multiset(ds)
  {
    if ds == [] then []
    else
      assert ds == [ds[0]] + ds[1..];
      InsertByName(ds[0], SortByName(ds[1..]))
  }

  predicate DistinctNames(ds: seq<ModelPercentageDetail>) {
    forall i, j | 0 <= i < j < |ds| :: ds[i].carModel != ds[j].carModel
  }

  lemma {:induction false} InsertByNameSorted(d: ModelPercentageDetail, sorted: seq<ModelPercentageDetail>)
    requires StrictlySortedByName(sorted)
    requires forall x | x in sorted :: x.carModel != d.carModel
    ensures StrictlySortedByName(InsertByName(d, sorted))
    decreases |sorted|
  {
    if sorted == [] || !NameLess(sorted[0].carModel, d.carModel) {
      forall x | x in sorted ensures NameLess(d.carModel, x.carModel) {
        var j :| 0 <= j < |sorted| && sorted[j] == x;
        NameLessTotal(d.carModel, sorted[0].carModel);
        if j > 0 {
          NameLessTransitive(d.carModel, sorted[0].carModel, x.carModel);
        }
      }
      ConsSorted(d, sorted);
    } else {
      var rest := sorted[1..];
      assert StrictlySortedByName(rest) by {
        forall i, j | 0 <= i < j < |rest| ensures NameLess(rest[i].carModel, rest[j].carModel) {
          assert rest[i] == sorted[i + 1] && rest[j] == sorted[j + 1];
        }
      }
      assert forall x | x in rest :: x in sorted;
      InsertByNameSorted(d, rest);
      var tail := InsertByName(d, rest);
      forall x | x in tail ensures NameLess(sorted[0].carModel, x.carModel) {
        assert x in multiset(tail);
        if x != d {
          assert x in rest;
          var j :| 0 <= j < |rest| && rest[j] == x;
          assert sorted[j + 1] == x;
        }
      }
      ConsSorted(sorted[0], tail);
    }
  }

  /** Rows with distinct names come out strictly sorted by name. */
  lemma {:induction false} SortByNameSorted(ds: seq<ModelPercentageDetail>)
    requires DistinctNames(ds)
    ensures StrictlySortedByName(SortByName(ds))
    decreases |ds|
  {
    if ds != [] {
      var rest := ds[1..];
      assert DistinctNames(rest) by {
        forall i, j | 0 <= i < j < |rest| ensures rest[i].carModel != rest[j].carModel {
          assert rest[i] == ds[i + 1] && rest[j] == ds[j + 1];
        }
      }
      SortByNameSorted(rest);
      var sorted := SortByName(rest);
      forall x | x in sorted ensures x.carModel != ds[0].carModel {
        assert x in multiset(rest);
        var j :| 0 <= j < |rest| && rest[j] == x;
        assert ds[j + 1] == x;
      }
      InsertByNameSorted(ds[0], sorted);
    }
  }

  /** Two strictly sorted lists with the same rows are the same list. */
  lemma {:induction false} SortedRowsUnique(xs: seq<ModelPercentageDetail>, ys: seq<ModelPercentageDetail>)
    requires StrictlySortedByName(xs) && StrictlySortedByName(ys)
    requires forall x :: x in xs <==> x in ys
    ensures xs == ys
    decreases |xs|
  {
    assert xs != [] ==> xs[0] in ys;
    assert ys != [] ==> ys[0] in xs;
    if xs != [] && ys != [] {
      var a, b := xs[0], ys[0];
      if a != b {
        assert b in ys && a in xs;
        var i :| 0 <= i < |xs| && xs[i] == b;
        var j :| 0 <= j < |ys| && ys[j] == a;
        assert i > 0 && j > 0;
        NameLessTransitive(a.carModel, b.carModel, a.carModel);
        NameLessIrreflexive(a.carModel);
        assert false;
      }
      var xr, yr := xs[1..], ys[1..];
      assert StrictlySortedByName(xr) by {
        forall i, j | 0 <= i < j < |xr| ensures NameLess(xr[i].carModel, xr[j].carModel) {
          assert xr[i] == xs[i + 1] && xr[j] == xs[j + 1];
        }
      }
      assert StrictlySortedByName(yr) by {
        forall i, j | 0 <= i < j < |yr| ensures NameLess(yr[i].carModel, yr[j].carModel) {
          assert yr[i] == ys[i + 1] && yr[j] == ys[j + 1];
        }
      }
      forall x ensures x in xr <==> x in yr {
        NameLessIrreflexive(a.carModel);
        if x in xr {
          var i :| 0 <= i < |xr| && xr[i] == x;
          assert xs[i + 1] == x && NameLess(a.carModel, x.carModel);
          assert x in ys && x != b;
          var j :| 0 <= j < |ys| && ys[j] == x;
          assert j > 0 && yr[j - 1] == x;
        }
        if x in yr {
          var j :| 0 <= j < |yr| && yr[j] == x;
          assert ys[j + 1] == x && NameLess(b.carModel, x.carModel);
          assert x in xs && x != a;
          var i :| 0 <= i < |xs| && xs[i] == x;
          assert i > 0 && xr[i - 1] == x;
        }
      }
      SortedRowsUnique(xr, yr);
    }
  }

  /** Sorting rows of distinct names that are exactly those of a center
      gives the center's sorted row list, whatever order they came in. */
  lemma SortedRowsOfCenter(rows: seq<ModelPercentageDetail>, center: DistributionCenter,
                           groups: map<int, map<CarModel, seq<SaleRecord>>>, globalTotal: int)
    requires center.id in groups && DistinctNames(rows)
    requires forall x :: x in rows <==> exists m | m in groups[center.id] ::
      x == ModelDetail(m, groups[center.id], CenterUnits(groups[center.id]), globalTotal)
    ensures SortByName(rows) == CenterPercentage(center, groups, globalTotal).models
  {
    SortByNameSorted(rows);
    var sorted := SortByName(rows);
    forall x ensures x in sorted <==> x in rows {
      assert x in sorted <==> x in multiset(sorted);
      assert x in rows <==> x in multiset(rows);
    }
    SortedRowsUnique(sorted, CenterPercentage(center, groups, globalTotal).models);
  }

  // ---------------------------------------------------- shares of a center

  function SumUnitsSold(ds: seq<ModelPercentageDetail>): int {
    if ds == [] then 0 else ds[0].unitsSold + SumUnitsSold(ds[1..])
  }

  function SumShareOfCenter(ds: seq<ModelPercentageDetail>): int {
    if ds == [] then 0 else ds[0].percentageOfCenter + SumShareOfCenter(ds[1..])
  }

  lemma {:induction false} DetailsForUnits(models: seq<CarModel>, modelSales: map<CarModel, seq<SaleRecord>>, centerTotal: int, globalTotal: int)
    ensures SumUnitsSold(DetailsFor(models, modelSales, centerTotal, globalTotal)) == ModelUnits(modelSales, models)
    decreases |models|
  {
    if models != [] {
      var tail := DetailsFor(models[1..], modelSales, centerTotal, globalTotal);
      DetailsForUnits(models[1..], modelSales, centerTotal, globalTotal);
      if models[0] in modelSales {
        var row := ModelDetail(models[0], modelSales, centerTotal, globalTotal);
        assert DetailsFor(models, modelSales, centerTotal, globalTotal) == [row] + tail;
        assert ([row] + tail)[1..] == tail;
      } else {
        assert DetailsFor(models, modelSales, centerTotal, globalTotal) == tail;
      }
    }
  }

  /** A row whose share of `total` is rounded to the nearest hundredth. */
  predicate RowWithin(d: ModelPercentageDetail, total: int) {
    2 * Abs(d.percentageOfCenter * total - d.unitsSold * 10000) <= total
  }

  lemma SplitError(p: int, u: int, ps: int, us: int, c: int)
    ensures (p + ps) * c - (u + us) * 10000 == (p * c - u * 10000) + (ps * c - us * 10000)
  {
    assert (p + ps) * c == p * c + ps * c;
  }

  lemma TriangleStep(e: int, es: int, c: int, n: int)
    requires 2 * Abs(e) <= c && 2 * Abs(es) <= n * c
    ensures 2 * Abs(e + es) <= (n + 1) * c
  {
    assert (n + 1) * c == n * c + c;
  }

  /** Rounding each row's share to hundredths moves the sum of the shares
      by at most half a hundredth per row. */
  lemma {:induction false} ShareSumBound(ds: seq<ModelPercentageDetail>, total: int)
    requires total > 0
    requires forall d | d in ds :: RowWithin(d, total)
    ensures 2 * Abs(SumShareOfCenter(ds) * total - SumUnitsSold(ds) * 10000) <= |ds| * total
    decreases |ds|
  {
    if ds != [] {
      var rest := ds[1..];
      assert forall d | d in rest :: d in ds;
      assert RowWithin(ds[0], total) by { assert ds[0] in ds; }
      ShareSumBound(rest, total);
      var p, u := ds[0].percentageOfCenter, ds[0].unitsSold;
      var ps, us := SumShareOfCenter(rest), SumUnitsSold(rest);
      SplitError(p, u, ps, us, total);
      TriangleStep(p * total - u * 10000, ps * total - us * 10000, total, |rest|);
    }
  }

  lemma ScaleDown(x: int, c: int, n: int)
    requires c > 0 && 2 * Abs(x * c) <= n * c
    ensures 2 * Abs(x) <= n
  {
    assert 2 * Abs(x * c) == (2 * Abs(x)) * c;
    assert (2 * Abs(x) - n) * c == (2 * Abs(x)) * c - n * c;
  }

  /** The shares of a center with units add up to 100.00 up to half a
      hundredth per model sold there, so within 0.02 for the four models. */
  lemma CenterSharesAddUp(center: DistributionCenter, groups: map<int, map<CarModel, seq<SaleRecord>>>, globalTotal: int)
    requires center.id in groups && CenterUnits(groups[center.id]) > 0
    ensures 2 * Abs(SumShareOfCenter(CenterPercentage(center, groups, globalTotal).models) - 10000)
      <= |CenterPercentage(center, groups, globalTotal).models|
    ensures |CenterPercentage(center, groups, globalTotal).models| <= |AllModels|
  {
    var modelSales := groups[center.id];
    var total := CenterUnits(modelSales);
    var rows := CenterPercentage(center, groups, globalTotal).models;
    assert rows == DetailsFor(ModelsByName, modelSales, total, globalTotal);
    DetailsForUnits(ModelsByName, modelSales, total, globalTotal);
    DetailsForLength(ModelsByName, modelSales, total, globalTotal);
    forall d | d in rows ensures RowWithin(d, total) {
      var m :| m in modelSales && d == ModelDetail(m, modelSales, total, globalTotal);
    }
    ShareSumBound(rows, total);
    SharesToPercent(SumShareOfCenter(rows), total, |rows|);
  }

  lemma SharesToPercent(sum: int, total: int, n: int)
    requires total > 0 && 2 * Abs(sum * total - total * 10000) <= n * total
    ensures 2 * Abs(sum - 10000) <= n
  {
    assert sum * total - total * 10000 == (sum - 10000) * total;
    ScaleDown(sum - 10000, total, n);
  }

  lemma {:induction false} DetailsForLength(models: seq<CarModel>, modelSales: map<CarModel, seq<SaleRecord>>, centerTotal: int, globalTotal: int)
    ensures |DetailsFor(models, modelSales, centerTotal, globalTotal)| <= |models|
    decreases |models|
  {
    if models != [] {
      DetailsForLength(models[1..], modelSales, centerTotal, globalTotal);
    }
  }

  // ------------------------------------------ units of a center, model by model

  /** The figure summed model by model over the sales of each model. */
  function SumOverModels(sales: seq<SaleRecord>, models: seq<CarModel>, k: Measure): int {
    if models == [] then 0
    else Total(SalesOfModel(sales, models[0]), k) + SumOverModels(sales, models[1..], k)
  }

  function ModelHits(sale: SaleRecord, models: seq<CarModel>, k: Measure): int {
    if models == [] then 0
    else (if models[0] == sale.carModel then MeasureOf(sale, k) else 0) + ModelHits(sale, models[1..], k)
  }

  lemma {:induction false} ModelHitsOnce(sale: SaleRecord, models: seq<CarModel>, k: Measure)
    requires forall i, j | 0 <= i < j < |models| :: models[i] != models[j]
    ensures ModelHits(sale, models, k) == if sale.carModel in models then MeasureOf(sale, k) else 0
    decreases |models|
  {
    if models != [] {
      var rest := models[1..];
      assert forall i, j | 0 <= i < j < |rest| :: rest[i] == models[i + 1] && rest[j] == models[j + 1];
      ModelHitsOnce(sale, rest, k);
      assert forall j | 0 <= j < |rest| :: rest[j] != models[0];
      assert sale.carModel in models ==> sale.carModel == models[0] || sale.carModel in rest;
    }
  }

  lemma {:induction false} SumOverModelsCons(x: SaleRecord, rest: seq<SaleRecord>, models: seq<CarModel>, k: Measure)
    ensures SumOverModels([x] + rest, models, k) == ModelHits(x, models, k) + SumOverModels(rest, models, k)
    decreases |models|
  {
    if models != [] {
      var m := models[0];
      SalesOfModelAppend([x], rest, m);
      assert SalesOfModel([x], m) == if x.carModel == m then [x] else [] by {
        assert [x][1..] == [];
      }
      TotalAppend(SalesOfModel([x], m), SalesOfModel(rest, m), k);
      SumOverModelsCons(x, rest, models[1..], k);
    }
  }

  lemma {:induction false} SumOverModelsEmpty(models: seq<CarModel>, k: Measure)
    ensures SumOverModels([], models, k) == 0
    decreases |models|
  {
    if models != [] {
      SumOverModelsEmpty(models[1..], k);
    }
  }

  /** Adding up the models of a list that names every model once adds up every sale once. */
  lemma {:induction false} SumOverAllModels(sales: seq<SaleRecord>, k: Measure)
    ensures SumOverModels(sales, ModelsByName, k) == Total(sales, k)
    decreases |sales|
  {
    if sales == [] {
      SumOverModelsEmpty(ModelsByName, k);
    } else {
      assert sales == [sales[0]] + sales[1..];
      SumOverModelsCons(sales[0], sales[1..], ModelsByName, k);
      ModelsByNameSorted();
      ModelHitsOnce(sales[0], ModelsByName, k);
      SumOverAllModels(sales[1..], k);
    }
  }

  lemma {:induction false} ModelUnitsOfGrouping(sales: seq<SaleRecord>, centerId: int, models: seq<CarModel>)
    requires centerId in GroupByCenterAndModel(sales)
    ensures ModelUnits(GroupByCenterAndModel(sales)[centerId], models)
      == SumOverModels(SalesOfCenter(sales, centerId), models, Units)
    decreases |models|
  {
    if models != [] {
      var g := GroupByCenterAndModel(sales);
      var m := models[0];
      var modelSales := SalesOfModel(SalesOfCenter(sales, centerId), m);
      assert modelSales != [] ==> modelSales[0] in modelSales;
      ModelUnitsOfGrouping(sales, centerId, models[1..]);
    }
  }

  /** A center's total units in the percentage report are the units of the
      sales `GetSalesByCenter` returns for it. */
  lemma CenterUnitsOfGrouping(sales: seq<SaleRecord>, centerId: int)
    requires centerId in GroupByCenterAndModel(sales)
    ensures CenterUnits(GroupByCenterAndModel(sales)[centerId]) == Total(SalesOfCenter(sales, centerId), Units)
  {
    ModelUnitsOfGrouping(sales, centerId, ModelsByName);
    SumOverAllModels(SalesOfCenter(sales, centerId), Units);
  }

  // ------------------------------------------------- the reports agree

  function SumCenterUnits(rows: seq<CenterPercentageDetail>): int {
    if rows == [] then 0 else rows[0].totalUnitsInCenter + SumCenterUnits(rows[1..])
  }

  lemma {:induction false} CenterUnitsAreSumOverCenters(sales: seq<SaleRecord>, centers: seq<DistributionCenter>, globalTotal: int)
    ensures SumCenterUnits(seq(|centers|, i requires 0 <= i < |centers| =>
      CenterPercentage(centers[i], GroupByCenterAndModel(sales), globalTotal)))
      == SumOverCenters(sales, centers, Units)
    decreases |centers|
  {
    var g := GroupByCenterAndModel(sales);
    var rows := seq(|centers|, i requires 0 <= i < |centers| => CenterPercentage(centers[i], g, globalTotal));
    if centers != [] {
      var id := centers[0].id;
      assert rows[1..] == seq(|centers[1..]|, i requires 0 <= i < |centers[1..]| =>
        CenterPercentage(centers[1..][i], g, globalTotal));
      CenterUnitsAreSumOverCenters(sales, centers[1..], globalTotal);
      var xs := SalesOfCenter(sales, id);
      assert xs != [] ==> xs[0] in xs;
      if id in g {
        CenterUnitsOfGrouping(sales, id);
      }
    }
  }

  /** When every sale names a center of the catalog, the centers' units in
      the percentage report add up to its global total. */
  lemma PercentageTotalsAgree(sales: seq<SaleRecord>, centers: seq<DistributionCenter>)
    requires DistinctIds(centers) && CentersResolved(sales, centers)
    ensures SumCenterUnits(PercentageByModelAndCenter(GroupByCenterAndModel(sales), centers, sales).centers)
      == PercentageByModelAndCenter(GroupByCenterAndModel(sales), centers, sales).totalUnitsGlobal
  {
    var r := PercentageByModelAndCenter(GroupByCenterAndModel(sales), centers, sales);
    assert r.centers == seq(|centers|, i requires 0 <= i < |centers| =>
      CenterPercentage(centers[i], GroupByCenterAndModel(sales), r.totalUnitsGlobal));
    CenterUnitsAreSumOverCenters(sales, centers, r.totalUnitsGlobal);
    SumOverCentersResolved(sales, centers, Units);
  }

  // ------------------------------------------------------------- the service

  class SalesService {
    const repository: InMemorySalesRepository

    constructor (repository: InMemorySalesRepository)
      ensures this.repository == repository
    {
      this.repository := repository;
    }

    /** Validates the model, then the center; only a valid request reaches
        the repository, which then holds one more sale, the one answered. */
    method CreateSale(request: CreateSaleRequest, now: int) returns (r: Result<SaleResponse, SalesError>)
      requires repository.Valid()
      modifies repository
      ensures repository.Valid()
      ensures r == CreateSaleResult(request, repository.distributionCenters, old(repository.nextSaleId), now)
      ensures r.Failure? ==> repository.sales == old(repository.sales) && repository.nextSaleId == old(repository.nextSaleId)
      ensures r.Success? ==>
        && |repository.sales| == |old(repository.sales)| + 1
        && repository.sales[..|old(repository.sales)|] == old(repository.sales)
        && ResponseOf(repository.sales[|old(repository.sales)|], r.value.distributionCenterName) == r.value
      ensures CentersResolved(old(repository.sales), repository.distributionCenters) ==>
        CentersResolved(repository.sales, repository.distributionCenters)
    {
      var parsed := ParseCarModel(request.carModel);
      if parsed.Failure? {
        return Failure(parsed.error);
      }
      var center := repository.GetDistributionCenter(request.distributionCenterId);
      if center.None? {
        return Failure(CenterNotFound(request.distributionCenterId));
      }
      var sale := new Sale(parsed.value, request.distributionCenterId, request.quantity, now);
      var createdSale := repository.AddSale(sale);
      r := Success(SaleResponse(createdSale.id, Name(createdSale.carModel), createdSale.distributionCenterId,
        center.value.name, createdSale.quantity, createdSale.unitPrice, createdSale.totalAmount,
        createdSale.saleDate, SuccessMessage));
      assert repository.sales[..|old(repository.sales)|] == old(repository.sales);
    }

    /** `GetTotalVolume` over what the repository holds now. */
    function GetTotalVolume(): (r: TotalVolumeResponse)
      reads repository
      ensures r == TotalVolume(repository.sales)
    {
      var allSales := repository.GetAllSales();
      TotalVolumeResponse(Total(allSales, Units), Total(allSales, Amount), |allSales|)
    }

    /** Walks the catalog, one entry per center, then adds up the entries. */
    method GetVolumeByCenter() returns (r: VolumeByCenterResponse)
      ensures r == VolumeByCenter(GroupByCenter(repository.sales), repository.distributionCenters)
    {
      var salesByCenter := repository.GetSalesGroupByCenter();
      var allCenters := repository.GetAllDistributionCenters();
      var centerVolumes := VolumesOfCenters(salesByCenter, allCenters);
      r := VolumeByCenterResponse(centerVolumes, Grand(centerVolumes, Units), Grand(centerVolumes, Amount));
    }

    /** Totals the units of all sales, then walks the catalog. */
    method GetPercentageByModelAndCenter() returns (r: PercentageByModelAndCenterResponse)
      ensures r == PercentageByModelAndCenter(
        GroupByCenterAndModel(repository.sales), repository.distributionCenters, repository.sales)
    {
      var salesByCenterAndModel := repository.GetSalesGroupByCenterAndModel();
      var allCenters := repository.GetAllDistributionCenters();
      var allSales := repository.GetAllSales();
      var totalUnitsGlobal := Total(allSales, Units);
      var centerPercentages := PercentagesOfCenters(salesByCenterAndModel, allCenters, totalUnitsGlobal);
      r := PercentageByModelAndCenterResponse(centerPercentages, totalUnitsGlobal);
    }
  }

  /** The loop of `GetVolumeByCenter`: one entry per center, in order, with
      an empty list for a center that has no group. */
  method VolumesOfCenters(salesByCenter: map<int, seq<SaleRecord>>, allCenters: seq<DistributionCenter>)
    returns (centerVolumes: seq<CenterVolumeDetail>)
    ensures centerVolumes == VolumeByCenter(salesByCenter, allCenters).centers
  {
    centerVolumes := [];
    for i := 0 to |allCenters|
      invariant |centerVolumes| == i
      invariant forall j | 0 <= j < i :: centerVolumes[j] == CenterVolume(allCenters[j], salesByCenter)
    {
      var center := allCenters[i];
      var centerSales := if center.id in salesByCenter then salesByCenter[center.id] else [];
      centerVolumes := centerVolumes + [CenterVolumeDetail(center.id, center.name,
        Total(centerSales, Units), Total(centerSales, Amount), |centerSales|)];
    }
  }

  /** The outer loop of `GetPercentageByModelAndCenter`: one row per center,
      in order; a center with sales gets its visited rows sorted by name. */
  method PercentagesOfCenters(
    salesByCenterAndModel: map<int, map<CarModel, seq<SaleRecord>>>, allCenters: seq<DistributionCenter>,
    totalUnitsGlobal: int)
    returns (centerPercentages: seq<CenterPercentageDetail>)
    ensures |centerPercentages| == |allCenters|
    ensures forall j | 0 <= j < |allCenters| ::
      centerPercentages[j] == CenterPercentage(allCenters[j], salesByCenterAndModel, totalUnitsGlobal)
  {
    centerPercentages := [];
    for i := 0 to |allCenters|
      invariant |centerPercentages| == i
      invariant forall j | 0 <= j < i ::
        centerPercentages[j] == CenterPercentage(allCenters[j], salesByCenterAndModel, totalUnitsGlobal)
    {
      var center := allCenters[i];
      var centerDetail := CenterPercentageDetail(center.id, center.name, 0, []);
      if center.id in salesByCenterAndModel {
        var modelSales := salesByCenterAndModel[center.id];
        var totalUnitsInCenter := CenterUnits(modelSales);
        var models := VisitModels(modelSales, totalUnitsInCenter, totalUnitsGlobal);
        SortedRowsOfCenter(models, center, salesByCenterAndModel, totalUnitsGlobal);
        centerDetail := CenterPercentageDetail(center.id, center.name, totalUnitsInCenter, SortByName(models));
      }
      centerPercentages := centerPercentages + [centerDetail];
    }
  }

  /** The inner loop of `GetPercentageByModelAndCenter`: one row per model
      group, in whatever order the groups are enumerated. */
  method VisitModels(modelSales: map<CarModel, seq<SaleRecord>>, totalUnitsInCenter: int, totalUnitsGlobal: int)
    returns (models: seq<ModelPercentageDetail>)
    ensures DistinctNames(models)
    ensures forall x :: x in models <==>
      exists m | m in modelSales :: x == ModelDetail(m, modelSales, totalUnitsInCenter, totalUnitsGlobal)
  {
    models := [];
    var remaining := modelSales.Keys;
    ghost var visited: seq<CarModel> := [];
    while remaining != {}
      invariant remaining <= modelSales.Keys
      invariant forall m :: m in visited <==> m in modelSales && m !in remaining
      invariant forall i, j | 0 <= i < j < |visited| :: visited[i] != visited[j]
      invariant |models| == |visited|
      invariant forall k | 0 <= k < |visited| ::
        visited[k] in modelSales && models[k] == ModelDetail(visited[k], modelSales, totalUnitsInCenter, totalUnitsGlobal)
      decreases remaining
    {
      var m :| m in remaining;
      var unitsOfModel := Total(modelSales[m], Units);
      models := models + [ModelPercentageDetail(Name(m), unitsOfModel,
        PercentHundredths(unitsOfModel, totalUnitsInCenter), PercentHundredths(unitsOfModel, totalUnitsGlobal))];
      visited := visited + [m];
      remaining := remaining - {m};
    }
    forall i, j | 0 <= i < j < |models| ensures models[i].carModel != models[j].carModel {
      NameInjective(visited[i], visited[j]);
    }
    forall x ensures x in models <==>
      exists m | m in modelSales :: x == ModelDetail(m, modelSales, totalUnitsInCenter, totalUnitsGlobal)
    {
      if x in models {
        var k :| 0 <= k < |models| && models[k] == x;
        assert visited[k] in modelSales;
      }
      if exists m | m in modelSales :: x == ModelDetail(m, modelSales, totalUnitsInCenter, totalUnitsGlobal) {
        var m :| m in modelSales && x == ModelDetail(m, modelSales, totalUnitsInCenter, totalUnitsGlobal);
        assert m in visited;
        var k :| 0 <= k < |visited| && visited[k] == m;
        assert models[k] == x;
      }
    }
  }
}
