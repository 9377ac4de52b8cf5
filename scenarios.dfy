/** Runs of the handlers against one store, proved from their contracts alone. */
module Scenarios {
  import opened Common
  import opened Entities
  import opened SkuGen
  import opened AlertRules
  import opened ProductRules
  import opened Inventory

  /** A movement that is recorded and then deleted leaves the product's stock where it was. */
  method CreateThenDeleteRestoresStock(
    s: Store, caller: UserId, productId: Id, kind: string, quantity: int, reason: string, now: Time, later: Time)
    requires s.Valid() && Owns(s.products, caller, productId)
    modifies s
    ensures s.Valid()
    ensures productId in s.products
    ensures s.products[productId].currentStock == old(s.products[productId].currentStock)
  {
    var created := s.CreateMovement(caller, Some(productId), Some(kind), Some(quantity), Some(reason), None, now);
    if created.Ok? {
      var deleted := s.DeleteMovement(caller, created.value.movement.id, later);
      assert deleted.Ok?;
    }
  }

  /** A SALIDA of the whole stock would leave zero, so it is refused and nothing changes. */
  method SalidaOfWholeStockRefused(s: Store, caller: UserId, productId: Id, reason: string, now: Time)
    returns (r: Result<MovementReceipt>)
    requires s.Valid() && Owns(s.products, caller, productId)
    requires s.products[productId].currentStock > 0 && reason != ""
    modifies s
    ensures r == Err(InsufficientStock(old(s.products[productId].currentStock), old(s.products[productId].currentStock)))
    ensures unchanged(s)
  {
    var stock := s.products[productId].currentStock;
    r := s.CreateMovement(caller, Some(productId), Some("SALIDA"), Some(stock), Some(reason), None, now);
  }

  /** Resolving an alert twice: the first call succeeds and stamps `resolvedAt`, the second is
      refused as already resolved. */
  method ResolveTwice(s: Store, caller: UserId, id: Id, now: Time, later: Time)
    returns (first: Result<Alert>, second: Result<Alert>)
    requires s.Valid()
    requires id in s.alerts && s.alerts[id].userId == caller && !s.alerts[id].isResolved
    modifies s
    ensures first.Ok? && first.value.isResolved && first.value.resolvedAt == Some(now)
    ensures second == Err(AlreadyResolved)
  {
    first := s.ResolveAlert(caller, id, now);
    second := s.ResolveAlert(caller, id, later);
  }

  /** Creating a product with stock 3 and minimum 5 raises its initial alert, while stock 10 with
      minimum 5 does not; either way the stored SKU has the generator's `SKU-` and digits shape. */
  method InitialAlertOnCreation(
    s: Store, caller: UserId, categoryId: Id, draws: seq<(nat, Draw)>, now: Time, low: bool)
    returns (r: Result<Product>)
    requires s.Valid()
    requires categoryId in s.categories && s.categories[categoryId].userId == caller
    requires !AllTaken(s.products, draws, |draws|)
    modifies s
    ensures r.Ok?
    ensures low ==> |ActiveIdsFor(s.alerts, r.value.id)| == 1
    ensures !low ==> !HasActive(s.alerts, r.value.id)
    ensures |r.value.sku| >= 7 && r.value.sku[..4] == "SKU-" && AllDigits(r.value.sku[4..])
  {
    var draft := ProductDraft(Some("Tornillos"), None, Some(150), Some(5), Some(if low then 3 else 10),
                              Some(categoryId), None);
    r := s.CreateProduct(caller, draft, draws, now);
    AtMostOneActiveCount(s.alerts, r.value.id);
    var n :| 0 <= n < |draws| && r.value.sku == Candidate(draws[n].0, draws[n].1);
    CandidateLayout(draws[n].0, draws[n].1);
  }

  /** Deleting a movement never resolves an alert. A SALIDA of one unit from a product at its
      minimum raises an alert; deleting that movement lifts the stock back to the minimum, and the
      alert is still unresolved. */
  method AlertOutlivesRestoredStock(s: Store, caller: UserId, productId: Id, reason: string, now: Time, later: Time)
    requires s.Valid() && Owns(s.products, caller, productId)
    requires s.products[productId].currentStock == s.products[productId].minStock >= 2
    requires reason != ""
    modifies s
    ensures productId in s.products
    ensures s.products[productId].currentStock == old(s.products[productId].currentStock)
    ensures s.products[productId].currentStock >= s.products[productId].minStock
    ensures HasActive(s.alerts, productId)
  {
    var created := s.CreateMovement(caller, Some(productId), Some("SALIDA"), Some(1), Some(reason), None, now);
    assert created.Ok?;
    AtMostOneActiveCount(s.alerts, productId);
    var deleted := s.DeleteMovement(caller, created.value.movement.id, later);
  }
}
