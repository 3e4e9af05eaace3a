/** The request and response records of the service (CarManufactureAPI/DTOs).
    Money is in whole currency units; percentages are in hundredths
    (6000 stands for 60.00). */
module Dtos {
  import opened Wrappers

  /** `None` in `carModel` stands for a null string. */
  datatype CreateSaleRequest = CreateSaleRequest(carModel: Option<string>, distributionCenterId: int, quantity: int)

  datatype SaleResponse = SaleResponse(
    id: int,
    carModel: string,
    distributionCenterId: int,
    distributionCenterName: string,
    quantity: int,
    unitPrice: int,
    totalAmount: int,
    saleDate: int,
    message: string)

  datatype TotalVolumeResponse = TotalVolumeResponse(totalUnits: int, totalAmount: int, totalSales: int)

  datatype CenterVolumeDetail = CenterVolumeDetail(
    distributionCenterId: int,
    distributionCenterName: string,
    totalUnits: int,
    totalAmount: int,
    totalSales: int)

  datatype VolumeByCenterResponse = VolumeByCenterResponse(
    centers: seq<CenterVolumeDetail>,
    grandTotalUnits: int,
    grandTotalAmount: int)

  datatype ModelPercentageDetail = ModelPercentageDetail(
    carModel: string,
    unitsSold: int,
    percentageOfCenter: int,
    percentageOfTotal: int)

  datatype CenterPercentageDetail = CenterPercentageDetail(
    distributionCenterId: int,
    distributionCenterName: string,
    totalUnitsInCenter: int,
    models: seq<ModelPercentageDetail>)

  datatype PercentageByModelAndCenterResponse = PercentageByModelAndCenterResponse(
    centers: seq<CenterPercentageDetail>,
    totalUnitsGlobal: int)
}
