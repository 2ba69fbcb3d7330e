/** The storage-side order (the `model` package): identifiers are parsed UUIDs. */
module Model {
  import opened UuidCodec
  import opened Strconv

  /** time.Time, kept opaque: the core only stores and returns it. */
  datatype Time = Time(ticks: int)

  /** Go's zero time.Time, which a freshly built order carries. */
  const ZeroTime: Time := Time(0)

  datatype MenuItem = MenuItem(id: Uuid, quantity: Int)

  datatype Order = Order(id: Uuid, menuItems: seq<MenuItem>, time: Time, cost: Int)
}
