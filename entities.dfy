/**
 * The stored records: cities, tariffs, users and orders, with the payment
 * status enumeration. Ids stand for the generated UUID primary keys.
 */
module Entities {
  import opened Calendar

  type Id = nat

  datatype PaymentStatus = Unpaid | Paid | Manual

  datatype City = City(id: Id, name: string)

  /** Per-km rates of one month of the year (1..12). */
  datatype Tariff = Tariff(id: Id, month: int, pricePerKmUnder1000: real, pricePerKmOver1000: real)

  datatype User = User(id: Id, fullName: string, phone: string)

  /** An order with the calculated quote it was created with; createdAt is the creation timestamp. */
  datatype Order = Order(
    id: Id,
    userId: Id,
    carBrand: string,
    cityFromId: Id,
    cityToId: Id,
    startDate: Date,
    distance: nat,
    appliedTariff: real,
    isFixedRoute: bool,
    transportPrice: real,
    insurancePrice: real,
    totalPrice: real,
    durationHours: nat,
    durationDays: nat,
    estimatedArrivalDate: Date,
    paymentStatus: PaymentStatus,
    createdAt: nat)
}
