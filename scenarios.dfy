/** The scenarios of the service's test suite, worked out on the model. */
module SalesScenarios {
  import opened Wrappers
  import opened CarModels
  import opened Sales
  import opened SalesRepository
  import opened Rounding
  import opened Dtos
  import opened SalesService

  const SedanSale: SaleRecord := SaleRecord(1, Sedan, 1, 5, 8000, 40000, 0)
  const SuvSale: SaleRecord := SaleRecord(2, SUV, 2, 3, 9500, 28500, 0)
  const SportSale: SaleRecord := SaleRecord(3, Sport, 1, 2, 19474, 38948, 0)

  /** The stored prices of the three sales are the catalog's. */
  lemma ScenarioPricesDerived()
    ensures PricesDerived(SedanSale) && PricesDerived(SuvSale) && PricesDerived(SportSale)
  {
    CarModelPricing.PriceTable();
  }

  /** Five Sedans are priced at 8000 each, 40000 in all. */
  lemma FiveSedansScenario(now: int)
    ensures WithDerivedPrices(SaleRecord(1, Sedan, 1, 5, 0, 0, now)) == SaleRecord(1, Sedan, 1, 5, 8000, 40000, now)
  {
    CarModelPricing.PriceTable();
  }

  const ScenarioSales: seq<SaleRecord> := [SedanSale, SuvSale, SportSale]

  lemma TotalVolumeScenario()
    ensures TotalVolume(ScenarioSales) == TotalVolumeResponse(10, 107448, 3)
  {
    assert ScenarioSales == [SedanSale] + [SuvSale] + [SportSale];
    forall k: Measure ensures Total(ScenarioSales, k) == MeasureOf(SedanSale, k) + MeasureOf(SuvSale, k) + MeasureOf(SportSale, k) {
      TotalAppend([SedanSale] + [SuvSale], [SportSale], k);
      TotalAppend([SedanSale], [SuvSale], k);
      TotalSingleton(SedanSale, k);
      TotalSingleton(SuvSale, k);
      TotalSingleton(SportSale, k);
    }
    assert Total(ScenarioSales, Units) == 10;
    assert Total(ScenarioSales, Amount) == 107448;
  }

  /** What `GetSalesByCenter` returns for the first three centers. */
  lemma SalesByCenterScenario()
    ensures SalesOfCenter(ScenarioSales, 1) == [SedanSale, SportSale]
    ensures SalesOfCenter(ScenarioSales, 2) == [SuvSale]
    ensures SalesOfCenter(ScenarioSales, 3) == []
  {
    var sales := ScenarioSales;
    assert sales[1..] == [SuvSale, SportSale] && sales[1..][1..] == [SportSale];
    assert [SportSale][1..] == [];
    assert SalesOfCenter([SportSale], 1) == [SportSale];
    assert SalesOfCenter([SportSale], 2) == [] && SalesOfCenter([SportSale], 3) == [];
  }

  lemma CenterTotalsScenario()
    ensures Total([SedanSale, SportSale], Units) == 7 && Total([SedanSale, SportSale], Amount) == 78948
    ensures Total([SuvSale], Units) == 3 && Total([SuvSale], Amount) == 28500
  {
    assert [SedanSale, SportSale] == [SedanSale] + [SportSale];
    forall k: Measure ensures Total([SedanSale, SportSale], k) == MeasureOf(SedanSale, k) + MeasureOf(SportSale, k) {
      TotalAppend([SedanSale], [SportSale], k);
      TotalSingleton(SedanSale, k);
      TotalSingleton(SportSale, k);
    }
    TotalSingleton(SuvSale, Units);
    TotalSingleton(SuvSale, Amount);
  }

  /** The report by center from the three center lists alone. */
  lemma VolumeEntries(sales: seq<SaleRecord>)
    requires SalesOfCenter(sales, 1) == [SedanSale, SportSale]
    requires SalesOfCenter(sales, 2) == [SuvSale]
    requires SalesOfCenter(sales, 3) == []
    ensures var r := VolumeByCenter(GroupByCenter(sales), Catalog);
      && r.centers[0] == CenterVolumeDetail(1, "Centro Norte", 7, 78948, 2)
      && r.centers[1] == CenterVolumeDetail(2, "Centro Sur", 3, 28500, 1)
      && r.centers[2] == CenterVolumeDetail(3, "Centro Este", 0, 0, 0)
  {
    CenterTotalsScenario();
    CatalogShape();
    CountIsLength([SedanSale, SportSale]);
    CountIsLength([SuvSale]);
    var r := VolumeByCenter(GroupByCenter(sales), Catalog);
    forall i, k | 0 <= i < 3 ensures DetailMeasure(r.centers[i], k) == Total(SalesOfCenter(sales, Catalog[i].id), k) {
      VolumeOfCenter(sales, Catalog, i, k);
    }
  }

  lemma ScenarioCentersResolved()
    ensures CentersResolved(ScenarioSales, Catalog)
  {
    FindCenterInCatalog(1);
    FindCenterInCatalog(2);
  }

  /** Center 1 holds the Sedan and the Sport sale, center 2 the SUV sale,
      center 3 none; the grand totals are those of the total report. */
  lemma VolumeByCenterScenario()
    ensures var r := VolumeByCenter(GroupByCenter(ScenarioSales), Catalog);
      && r.centers[0] == CenterVolumeDetail(1, "Centro Norte", 7, 78948, 2)
      && r.centers[1] == CenterVolumeDetail(2, "Centro Sur", 3, 28500, 1)
      && r.centers[2] == CenterVolumeDetail(3, "Centro Este", 0, 0, 0)
      && r.grandTotalUnits == 10 && r.grandTotalAmount == 107448
  {
    SalesByCenterScenario();
    VolumeEntries(ScenarioSales);
    TotalVolumeScenario();
    CatalogIdsDistinct();
    ScenarioCentersResolved();
    VolumeByCenterMatchesTotal(ScenarioSales, Catalog);
  }

  const SedanSix: SaleRecord := SaleRecord(1, Sedan, 1, 6, 8000, 48000, 0)
  const SportFour: SaleRecord := SaleRecord(2, Sport, 1, 4, 19474, 77896, 0)

  /** Rows of a center that sold six Sedans and four Sports. */
  lemma RowsScenario(modelSales: map<CarModel, seq<SaleRecord>>, globalTotal: int)
    requires modelSales == map[Sedan := [SedanSix], Sport := [SportFour]]
    requires globalTotal == 10
    ensures CenterUnits(modelSales) == 10
    ensures DetailsFor(ModelsByName, modelSales, 10, globalTotal) == [
      ModelPercentageDetail("Sedan", 6, 6000, 6000),
      ModelPercentageDetail("Sport", 4, 4000, 4000)]
  {
    TotalSingleton(SedanSix, Units);
    TotalSingleton(SportFour, Units);
    PercentExamples();
    var tail3 := ModelsByName[1..];
    var tail2 := tail3[1..];
    var tail1 := tail2[1..];
    assert tail3 == [Sedan, Sport, SUV] && tail2 == [Sport, SUV] && tail1 == [SUV] && tail1[1..] == [];
    assert ModelUnits(modelSales, tail1) == 0;
    assert ModelUnits(modelSales, tail2) == 4;
    assert ModelUnits(modelSales, tail3) == 10;
    assert DetailsFor(tail1, modelSales, 10, globalTotal) == [];
    assert DetailsFor(tail2, modelSales, 10, globalTotal) == [ModelPercentageDetail("Sport", 4, 4000, 4000)];
    assert DetailsFor(tail3, modelSales, 10, globalTotal) == [
      ModelPercentageDetail("Sedan", 6, 6000, 6000), ModelPercentageDetail("Sport", 4, 4000, 4000)];
  }

  /** One center with six Sedans and four Sports: 60.00 and 40.00 of both totals. */
  lemma PercentageScenario()
    ensures var center := DistributionCenter(1, "Centro Norte", "Norte");
      var groups := map[1 := map[Sedan := [SedanSix], Sport := [SportFour]]];
      PercentageByModelAndCenter(groups, [center], [SedanSix, SportFour])
      == PercentageByModelAndCenterResponse([CenterPercentageDetail(1, "Centro Norte", 10, [
           ModelPercentageDetail("Sedan", 6, 6000, 6000),
           ModelPercentageDetail("Sport", 4, 4000, 4000)])], 10)
  {
    var center := DistributionCenter(1, "Centro Norte", "Norte");
    var groups := map[1 := map[Sedan := [SedanSix], Sport := [SportFour]]];
    assert [SedanSix, SportFour] == [SedanSix] + [SportFour];
    TotalAppend([SedanSix], [SportFour], Units);
    TotalSingleton(SedanSix, Units);
    TotalSingleton(SportFour, Units);
    RowsScenario(groups[1], 10);
    var r := PercentageByModelAndCenter(groups, [center], [SedanSix, SportFour]);
    assert r.centers[0] == CenterPercentage(center, groups, 10);
  }

  /** With no sales every center is listed with no rows and the global total is 0. */
  lemma EmptyPercentageScenario(centers: seq<DistributionCenter>)
    ensures var r := PercentageByModelAndCenter(GroupByCenterAndModel([]), centers, []);
      && r.totalUnitsGlobal == 0 && |r.centers| == |centers|
      && forall i | 0 <= i < |centers| :: r.centers[i].models == [] && r.centers[i].totalUnitsInCenter == 0
  {
  }
}
