/** The in-memory store of sales and the fixed catalog of distribution
    centers (Repositories/InMemorySalesRepository.cs, Models/DistributionCenter.cs). */
module SalesRepository {
  import opened Wrappers
  import opened CarModels
  import opened Sales

  datatype DistributionCenter = DistributionCenter(id: int, name: string, location: string)

  /** The four centers the constructor creates, in catalog order. */
  const Catalog: seq<DistributionCenter> := [
    DistributionCenter(1, "Centro Norte", "Buenos Aires Norte"),
    DistributionCenter(2, "Centro Sur", "Buenos Aires Sur"),
    DistributionCenter(3, "Centro Este", "Región Este"),
    DistributionCenter(4, "Centro Oeste", "Región Oeste")
  ]

  lemma CatalogShape()
    ensures |Catalog| == 4
    ensures forall i | 0 <= i < |Catalog| ::
      Catalog[i].id == i + 1 && |Catalog[i].name| > 0 && |Catalog[i].location| > 0
  {
  }

  /** `FirstOrDefault(dc => dc.Id == centerId)`: the first center with that id, if any. */
  function FindCenter(centers: seq<DistributionCenter>, centerId: int): (c: Option<DistributionCenter>)
    ensures c.None? <==> forall d | d in centers :: d.id != centerId
    ensures c.Some? ==> (c.value.id == centerId &&
      exists k | 0 <= k < |centers| :: centers[k] == c.value && forall j | 0 <= j < k :: centers[j].id != centerId)
  {
    if centers == [] then None
    else if centers[0].id == centerId then Some(centers[0])
    else
      var c := FindCenter(centers[1..], centerId);
      assert c.Some? ==> exists k | 1 <= k < |centers| ::
        centers[k] == c.value && forall j | 0 <= j < k :: centers[j].id != centerId by {
        if c.Some? {
          var k :| 0 <= k < |centers[1..]| && centers[1..][k] == c.value &&
            forall j | 0 <= j < k :: centers[1..][j].id != centerId;
          assert forall j | 0 <= j < k + 1 :: centers[j].id != centerId by {
            forall j | 0 <= j < k + 1 ensures centers[j].id != centerId {
              if j > 0 { assert centers[j] == centers[1..][j - 1]; }
            }
          }
        }
      }
      c
  }

  /** Looking up the catalog: ids 1..4 resolve to their center, every other id to nothing. */
  lemma FindCenterInCatalog(centerId: int)
    ensures FindCenter(Catalog, centerId).Some? <==> 1 <= centerId <= 4
    ensures 1 <= centerId <= 4 ==> FindCenter(Catalog, centerId) == Some(Catalog[centerId - 1])
  {
    if 1 <= centerId <= 4 {
      var c := FindCenter(Catalog, centerId);
      var k :| 0 <= k < |Catalog| && Catalog[k] == c.value && forall j | 0 <= j < k :: Catalog[j].id != centerId;
      assert k == centerId - 1;
    }
  }

  /** `Where(s => s.DistributionCenterId == centerId)`. */
  function SalesOfCenter(sales: seq<SaleRecord>, centerId: int): (r: seq<SaleRecord>)
    ensures forall s :: s in r <==> s in sales && s.distributionCenterId == centerId
    ensures |r| <= |sales|
  {
    if sales == [] then []
    else (if sales[0].distributionCenterId == centerId then [sales[0]] else []) + SalesOfCenter(sales[1..], centerId)
  }

  /** The filter keeps insertion order: it distributes over concatenation. */
  lemma {:induction false} SalesOfCenterAppend(a: seq<SaleRecord>, b: seq<SaleRecord>, centerId: int)
    ensures SalesOfCenter(a + b, centerId) == SalesOfCenter(a, centerId) + SalesOfCenter(b, centerId)
  {
    if a == [] {
      assert a + b == b;
    } else {
      assert (a + b)[1..] == a[1..] + b;
      SalesOfCenterAppend(a[1..], b, centerId);
    }
  }

  /** `Where(s => s.CarModel == model)`, the inner grouping key. */
  function SalesOfModel(sales: seq<SaleRecord>, model: CarModel): (r: seq<SaleRecord>)
    ensures forall s :: s in r <==> s in sales && s.carModel == model
    ensures |r| <= |sales|
  {
    if sales == [] then []
    else (if sales[0].carModel == model then [sales[0]] else []) + SalesOfModel(sales[1..], model)
  }

  lemma {:induction false} SalesOfModelAppend(a: seq<SaleRecord>, b: seq<SaleRecord>, model: CarModel)
    ensures SalesOfModel(a + b, model) == SalesOfModel(a, model) + SalesOfModel(b, model)
  {
    if a == [] {
      assert a + b == b;
    } else {
      assert (a + b)[1..] == a[1..] + b;
      SalesOfModelAppend(a[1..], b, model);
    }
  }

  /** The grouping keys: the center ids that occur in the sales. */
  function CenterIds(sales: seq<SaleRecord>): set<int> {
    set s | s in sales :: s.distributionCenterId
  }

  /** The models that occur in the sales. */
  function ModelsOf(sales: seq<SaleRecord>): set<CarModel> {
    set s | s in sales :: s.carModel
  }

  /** `GroupBy(s => s.DistributionCenterId).ToDictionary(g => g.Key, g => g.ToList())`. */
  function GroupByCenter(sales: seq<SaleRecord>): (g: map<int, seq<SaleRecord>>)
    ensures forall id :: id in g <==> exists s | s in sales :: s.distributionCenterId == id
    ensures forall id | id in g :: g[id] == SalesOfCenter(sales, id) && g[id] != []
  {
    map id | id in CenterIds(sales) :: SalesOfCenter(sales, id)
  }

  /** The grouping by center, then within each center by model. */
  function GroupByCenterAndModel(sales: seq<SaleRecord>): (g: map<int, map<CarModel, seq<SaleRecord>>>)
    ensures forall id :: id in g <==> exists s | s in sales :: s.distributionCenterId == id
    ensures forall id, m | id in g ::
      m in g[id] <==> exists s | s in sales :: s.distributionCenterId == id && s.carModel == m
    ensures forall id, m | id in g && m in g[id] ::
      g[id][m] == SalesOfModel(SalesOfCenter(sales, id), m) && g[id][m] != []
  {
    map id | id in CenterIds(sales) ::
      var centerSales := SalesOfCenter(sales, id);
      map m | m in ModelsOf(centerSales) :: SalesOfModel(centerSales, m)
  }

  /** Looking a center up in a grouping agrees with filtering, whether or not the id is a key. */
  lemma GroupLookup(sales: seq<SaleRecord>, centerId: int)
    ensures (if centerId in GroupByCenter(sales) then GroupByCenter(sales)[centerId] else [])
      == SalesOfCenter(sales, centerId)
  {
  }

  class InMemorySalesRepository {
    var sales: seq<SaleRecord>
    const distributionCenters: seq<DistributionCenter>
    var nextSaleId: int

    /** Ids are 1, 2, 3, ... in insertion order, the counter is the next id,
        every stored sale has its prices derived, and the catalog is fixed. */
    ghost predicate Valid()
      reads this
    {
      && nextSaleId == |sales| + 1
      && distributionCenters == Catalog
      && forall i | 0 <= i < |sales| :: sales[i].id == i + 1 && PricesDerived(sales[i])
    }

    constructor ()
      ensures Valid()
      ensures sales == [] && nextSaleId == 1 && distributionCenters == Catalog
    {
      distributionCenters := Catalog;
      sales := [];
      nextSaleId := 1;
    }

    /** Assigns the next id, derives the prices, and appends the sale. The
        catalog is untouched and the center id is not checked against it. */
    method AddSale(sale: Sale) returns (stored: Sale)
      requires Valid()
      modifies this, sale
      ensures Valid()
      ensures stored == sale
      ensures sale.Snapshot() == WithDerivedPrices(old(sale.Snapshot()).(id := old(nextSaleId)))
      ensures sales == old(sales) + [sale.Snapshot()]
      ensures nextSaleId == old(nextSaleId) + 1
      ensures forall s | s in old(sales) :: s.id < sale.id
    {
      sale.id := nextSaleId;
      nextSaleId := nextSaleId + 1;
      sale.CalculateTotalAmount();
      sales := sales + [sale.Snapshot()];
      stored := sale;
      assert forall s | s in old(sales) :: s.id < sale.id by {
        forall s | s in old(sales) ensures s.id < sale.id {
          var i :| 0 <= i < |old(sales)| && old(sales)[i] == s;
        }
      }
    }

    /** The center with that id, or nothing; on the fixed catalog exactly ids 1..4 resolve. */
    function GetDistributionCenter(centerId: int): (r: Option<DistributionCenter>)
      ensures r.Some? ==> r.value in distributionCenters && r.value.id == centerId
      ensures r.None? <==> forall d | d in distributionCenters :: d.id != centerId
      ensures distributionCenters == Catalog ==> (r.Some? <==> 1 <= centerId <= 4)
    {
      FindCenterInCatalog(centerId);
      FindCenter(distributionCenters, centerId)
    }

    function GetAllSales(): seq<SaleRecord>
      reads this
    {
      sales
    }

    /** The sales of one center, in insertion order; the same list the grouping
        holds under that id, and empty for an id the grouping lacks. */
    function GetSalesByCenter(centerId: int): (r: seq<SaleRecord>)
      reads this
      ensures forall s :: s in r <==> s in sales && s.distributionCenterId == centerId
      ensures r == (if centerId in GroupByCenter(sales) then GroupByCenter(sales)[centerId] else [])
    {
      GroupLookup(sales, centerId);
      SalesOfCenter(sales, centerId)
    }

    function GetAllDistributionCenters(): seq<DistributionCenter> {
      distributionCenters
    }

    function GetSalesGroupByCenter(): map<int, seq<SaleRecord>>
      reads this
    {
      GroupByCenter(sales)
    }

    function GetSalesGroupByCenterAndModel(): map<int, map<CarModel, seq<SaleRecord>>>
      reads this
    {
      GroupByCenterAndModel(sales)
    }
  }
}
