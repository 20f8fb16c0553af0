/** models.Car: a row of the Cars table as the screens and services read it.
    Prices are whole currency units; a missing brand, year, mileage,
    description or picture is SQL NULL. */
module Cars {
  import opened Wrappers

  datatype Car = Car(
    id: int,
    name: string,
    model: string,
    price: int,
    brand: Option<string>,
    year: Option<int>,
    mileage: Option<int>,
    description: Option<string>,
    imageUrl: Option<string>)

  function CarId(c: Car): int {
    c.id
  }
}
