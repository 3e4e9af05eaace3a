/** The price table (Models/CarModelPricing.cs). Every price is a whole
    number of currency units, so money is an int with no loss. */
module CarModelPricing {
  import opened CarModels

  const SedanPrice: int := 8000
  const SUVPrice: int := 9500
  const OffroadPrice: int := 12500
  const SportPrice: int := 18200

  /** The Sport surcharge 0.07, written as a whole percentage. */
  const SportTaxPercent: int := 7

  /** The switch expression: the base price of each variant. The source's
      default arm (an unmapped value) cannot be reached with a closed datatype. */
  function BasePrice(m: CarModel): (p: int)
    ensures p > 0
  {
    match m
    case Sedan => SedanPrice
    case SUV => SUVPrice
    case Offroad => OffroadPrice
    case Sport => SportPrice
  }

  /** `GetPrice`: the base price, plus `basePrice * 0.07` for Sport. */
  function GetPrice(m: CarModel): (p: int)
    ensures m != Sport ==> p == BasePrice(m)
    ensures m == Sport ==> p * 100 == BasePrice(m) * (100 + SportTaxPercent)
    ensures p > 0
  {
    var basePrice := BasePrice(m);
    if m == Sport then basePrice + basePrice * SportTaxPercent / 100 else basePrice
  }

  lemma PriceTable()
    ensures GetPrice(Sedan) == 8000
    ensures GetPrice(SUV) == 9500
    ensures GetPrice(Offroad) == 12500
    ensures GetPrice(Sport) == 18200 + 1274 == 19474
  {
  }

  /** Only Sport is surcharged. */
  lemma OnlySportSurcharged(m: CarModel)
    ensures GetPrice(m) != BasePrice(m) <==> m == Sport
    ensures GetPrice(m) >= BasePrice(m)
  {
  }
}
