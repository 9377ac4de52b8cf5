/** The stock ledger rules of the movement handlers: request validation, the forward delta with
    its insufficient-stock guard, the inverse delta applied on deletion, and the list filter. */
module StockLedger {
  import opened Common
  import opened Entities

  /** A movement request that passed validation. */
  datatype MovementOrder = MovementOrder(productId: Id, kind: MovementType, quantity: int, reason: string)

  /** `!quantity` for a numeric field: absent or zero. */
  predicate QuantityFalsy(quantity: Option<int>)
  {
    quantity.None? || quantity.value == 0
  }

  /** The checks that run before any lookup: required fields, the type spelling, a positive
      quantity, in that order. */
  function ValidateMovementRequest(
    productId: Option<Id>, kind: Option<string>, quantity: Option<int>, reason: Option<string>)
    : (r: Result<MovementOrder>)
    ensures r.Ok? <==>
      && productId.Some? && Truthy(kind) && reason.Some? && reason.value != ""
      && ParseMovementType(kind.value).Some?
      && quantity.Some? && quantity.value > 0
    ensures r.Ok? ==>
      && r.value.productId == productId.value
      && (r.value.kind == Entrada <==> kind.value == "ENTRADA")
      && r.value.quantity == quantity.value
      && r.value.reason == reason.value
    ensures (productId.None? || !Truthy(kind) || QuantityFalsy(quantity) || !Truthy(reason))
      ==> r == Err(Invalid(MissingFields))
    ensures productId.Some? && Truthy(kind) && !QuantityFalsy(quantity) && Truthy(reason)
      && kind.value != "ENTRADA" && kind.value != "SALIDA"
      ==> r == Err(Invalid(InvalidMovementType))
    ensures productId.Some? && Truthy(kind) && !QuantityFalsy(quantity) && Truthy(reason)
      && ParseMovementType(kind.value).Some? && quantity.value < 0
      ==> r == Err(Invalid(NonPositiveQuantity))
  {
    if productId.None? || !Truthy(kind) || QuantityFalsy(quantity) || !Truthy(reason) then
      Err(Invalid(MissingFields))
    else
      match ParseMovementType(kind.value)
      case None => Err(Invalid(InvalidMovementType))
      case Some(k) =>
        if quantity.value <= 0 then Err(Invalid(NonPositiveQuantity))
        else Ok(MovementOrder(productId.value, k, quantity.value, reason.value))
  }

  /** The stock a product holds after a movement of `quantity` units, applied as recorded. */
  function Applied(kind: MovementType, stock: int, quantity: int): (r: int)
    ensures Reverted(kind, r, quantity) == stock
    ensures quantity > 0 ==> (r > stock <==> kind == Entrada)
  {
    match kind
    case Entrada => stock + quantity
    case Salida => stock - quantity
  }

  /** The stock after a recorded movement is deleted: the inverse delta, with no floor. */
  function Reverted(kind: MovementType, stock: int, quantity: int): (r: int)
    ensures quantity > 0 ==> (r < stock <==> kind == Entrada)
  {
    match kind
    case Entrada => stock - quantity
    case Salida => stock + quantity
  }

  /** The forward step with its guard: a SALIDA that would leave zero or less is refused with
      the current stock and the requested quantity; otherwise the new stock. */
  function ApplyMovement(kind: MovementType, stock: int, quantity: int): (r: Result<int>)
    ensures kind == Entrada ==> r == Ok(stock + quantity)
    ensures kind == Salida ==> (r.Ok? <==> quantity < stock)
    ensures r.Ok? ==> Reverted(kind, r.value, quantity) == stock
    ensures r.Ok? && kind == Salida ==> r.value > 0
    ensures r.Err? ==> r.error == InsufficientStock(stock, quantity)
  {
    var next := Applied(kind, stock, quantity);
    if kind == Salida && next <= 0 then Err(InsufficientStock(stock, quantity)) else Ok(next)
  }

  /** The reverse delta has no floor: deleting an ENTRADA after later SALIDAs can leave the
      product with negative stock, although every forward step kept it positive. */
  lemma RevertCanGoNegative()
    ensures var afterIn := ApplyMovement(Entrada, 0, 10);
      && afterIn == Ok(10)
      && ApplyMovement(Salida, afterIn.value, 5) == Ok(5)
      && Reverted(Entrada, 5, 10) < 0
  {
  }

  /** The optional query parameters of the movement list. */
  datatype MovementQuery = MovementQuery(
    productId: Option<Id>, kind: Option<string>, startDate: Option<Time>, endDate: Option<Time>)

  /** The type condition is only added for the two known spellings; any other value is ignored. */
  predicate KindMatches(m: Movement, kind: Option<string>)
  {
    kind.Some? && ParseMovementType(kind.value).Some? ==> Some(m.kind) == ParseMovementType(kind.value)
  }

  /** Both date bounds are inclusive and each is optional. */
  predicate InDateRange(m: Movement, startDate: Option<Time>, endDate: Option<Time>)
  {
    && (startDate.Some? ==> startDate.value <= m.createdAt)
    && (endDate.Some? ==> m.createdAt <= endDate.value)
  }

  /** What the `where` object and the date filter let through. No owner condition is applied. */
  predicate MatchesQuery(m: Movement, q: MovementQuery)
  {
    && (q.productId.Some? ==> m.productId == q.productId.value)
    && KindMatches(m, q.kind)
    && InDateRange(m, q.startDate, q.endDate)
  }

  /** `a` is `b` with some elements dropped, the rest kept in order. */
  predicate IsSubsequence<T(==)>(a: seq<T>, b: seq<T>)
    decreases |b|
  {
    if a == [] then true
    else if b == [] then false
    else if a[0] == b[0] then IsSubsequence(a[1..], b[1..])
    else IsSubsequence(a, b[1..])
  }

  /** The movement list. `rows` stands for the movement table's rows in the order the query
      returns them (newest first); the result keeps every matching row as often as it occurs, in
      that order, and drops the others. */
  function FilterMovements(rows: seq<Movement>, q: MovementQuery): (r: seq<Movement>)
    ensures forall m :: m in r <==> m in rows && MatchesQuery(m, q)
    ensures forall m :: multiset(r)[m] == if MatchesQuery(m, q) then multiset(rows)[m] else 0
    ensures IsSubsequence(r, rows)
    decreases |rows|
  {
    if rows == [] then []
    else
      var rest := FilterMovements(rows[1..], q);
      assert forall m :: m in rows <==> m == rows[0] || m in rows[1..];
      assert rows == [rows[0]] + rows[1..];
      assert multiset(rows) == multiset{rows[0]} + multiset(rows[1..]);
      if MatchesQuery(rows[0], q) then
        assert multiset([rows[0]] + rest) == multiset{rows[0]} + multiset(rest);
        [rows[0]] + rest
      else rest
  }

  /** A query with no parameters returns every row, whoever recorded it. */
  lemma {:induction false} EmptyQueryKeepsAll(rows: seq<Movement>)
    ensures FilterMovements(rows, MovementQuery(None, None, None, None)) == rows
  {
    if rows != [] {
      EmptyQueryKeepsAll(rows[1..]);
    }
  }
}
