/** A sale and its derived prices (Models/Sale.cs). */
module Sales {
  import opened CarModels
  import opened CarModelPricing

  /** The field values of a sale at one moment. Money is in whole currency
      units; `saleDate` is an opaque clock reading. */
  datatype SaleRecord = SaleRecord(
    id: int,
    carModel: CarModel,
    distributionCenterId: int,
    quantity: int,
    unitPrice: int,
    totalAmount: int,
    saleDate: int)

  /** The prices of a sale agree with the price table and its quantity. */
  predicate PricesDerived(r: SaleRecord) {
    r.unitPrice == GetPrice(r.carModel) && r.totalAmount == r.unitPrice * r.quantity
  }

  /** What `CalculateTotalAmount` does to a sale's field values. */
  function WithDerivedPrices(r: SaleRecord): (p: SaleRecord)
    ensures PricesDerived(p)
    ensures p.id == r.id && p.carModel == r.carModel && p.distributionCenterId == r.distributionCenterId
    ensures p.quantity == r.quantity && p.saleDate == r.saleDate
    ensures PricesDerived(r) ==> p == r
  {
    var unitPrice := GetPrice(r.carModel);
    r.(unitPrice := unitPrice, totalAmount := unitPrice * r.quantity)
  }

  /** Calculating the prices twice leaves the same values as once. */
  lemma CalculateTotalAmountIdempotent(r: SaleRecord)
    ensures WithDerivedPrices(WithDerivedPrices(r)) == WithDerivedPrices(r)
  {
  }

  class Sale {
    var id: int
    var carModel: CarModel
    var distributionCenterId: int
    var quantity: int
    var unitPrice: int
    var totalAmount: int
    var saleDate: int

    /** The object initializer `new Sale { CarModel, DistributionCenterId, Quantity }`;
        the constructor stamps the clock reading `now`. */
    constructor (carModel: CarModel, distributionCenterId: int, quantity: int, now: int)
      ensures Snapshot() == SaleRecord(0, carModel, distributionCenterId, quantity, 0, 0, now)
    {
      this.id := 0;
      this.carModel := carModel;
      this.distributionCenterId := distributionCenterId;
      this.quantity := quantity;
      this.unitPrice := 0;
      this.totalAmount := 0;
      this.saleDate := now;
    }

    function Snapshot(): SaleRecord
      reads this
    {
      SaleRecord(id, carModel, distributionCenterId, quantity, unitPrice, totalAmount, saleDate)
    }

    /** Overwrites the unit price and the total from the model and the quantity. */
    method CalculateTotalAmount()
      modifies this
      ensures Snapshot() == WithDerivedPrices(old(Snapshot()))
      ensures unitPrice == GetPrice(carModel) && totalAmount == unitPrice * quantity
    {
      unitPrice := GetPrice(carModel);
      totalAmount := unitPrice * quantity;
    }
  }
}
