/**
 The restaurant record and the static catalog of `restaurantData.js`,
 transcribed as a fixture for concrete lemmas.
 */
module Catalog {

  /** A map position as the source writes it, the two-element array `[lat, lng]`:
      component 0 is the latitude, component 1 the longitude. Coordinates are
      carried, compared and reordered, never computed with. */
  type Position = (real, real)

  /** A position as an object `{lat, lng}`, the shape of the user's location. */
  datatype LatLng = LatLng(lat: real, lng: real)

  /** One catalog entry. `kind` is the source's `type` field (a keyword in Dafny). */
  datatype Restaurant = Restaurant(
    id: int,
    name: string,
    position: Position,
    address: string,
    phone: string,
    rating: real,
    description: string,
    openTime: string,
    priceRange: string,
    kind: string)

  /** The map's starting view: central Hanoi at zoom 13. */
  const DefaultCenter: Position := (21.0285, 105.8542)
  const DefaultZoom: int := 13

  /** The three sample restaurants, in catalog order. */
  const Restaurants: seq<Restaurant> := [
    Restaurant(
      id := 1, name := "Phở Thìn Bờ Hồ", position := (21.0243, 105.8522),
      address := "13 Lò Đúc, Hai Bà Trưng, Hà Nội", phone := "024 3821 2709",
      rating := 4.5, description := "Phở bò truyền thống nổi tiếng Hà Nội",
      openTime := "6:00 - 22:00", priceRange := "35,000đ - 70,000đ", kind := "Phở"),
    Restaurant(
      id := 2, name := "Bún Chả Hương Liên", position := (21.0197, 105.8502),
      address := "24 Lê Văn Hưu, Hai Bà Trưng, Hà Nội", phone := "024 3943 4106",
      rating := 4.7, description := "Nổi tiếng với bún chả và nem rán",
      openTime := "7:00 - 21:00", priceRange := "40,000đ - 80,000đ", kind := "Bún chả"),
    Restaurant(
      id := 3, name := "Bánh Cuốn Bà Hoành", position := (21.0183, 105.8476),
      address := "66 Tô Hiến Thành, Hai Bà Trưng, Hà Nội", phone := "024 3945 4677",
      rating := 4.6, description := "Bánh cuốn nóng truyền thống",
      openTime := "6:30 - 21:30", priceRange := "30,000đ - 50,000đ", kind := "Bánh cuốn")
  ]
}
