/** The rows of the four tables: products, movements, alerts and categories. */
module Entities {
  import opened Common

  /** The movement types; the request carries them as the strings "ENTRADA" and "SALIDA". */
  datatype MovementType = Entrada | Salida

  /** Reads a movement type from its request spelling. */
  function ParseMovementType(s: string): (r: Option<MovementType>)
    ensures r == Some(Entrada) <==> s == "ENTRADA"
    ensures r == Some(Salida) <==> s == "SALIDA"
    ensures r.None? <==> s != "ENTRADA" && s != "SALIDA"
  {
    if s == "ENTRADA" then Some(Entrada)
    else if s == "SALIDA" then Some(Salida)
    else None
  }

  /** A product; `sku` is unique over the whole table, `price` is in cents. */
  datatype Product = Product(
    id: Id,
    sku: string,
    name: string,
    description: Option<string>,
    price: int,
    minStock: int,
    currentStock: int,
    barcode: Option<string>,
    categoryId: Id,
    userId: UserId)

  /** A ledger entry; `userId` is the actor who recorded it. */
  datatype Movement = Movement(
    id: Id,
    productId: Id,
    kind: MovementType,
    quantity: int,
    reason: string,
    notes: Option<string>,
    userId: UserId,
    createdAt: Time)

  /** A low-stock alert; `isResolved` defaults to false and `resolvedAt` is null until resolved. */
  datatype Alert = Alert(
    id: Id,
    productId: Id,
    userId: UserId,
    isResolved: bool,
    createdAt: Time,
    resolvedAt: Option<Time>)

  datatype Category = Category(id: Id, name: string, userId: UserId)
}
