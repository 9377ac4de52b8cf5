/** The in-memory store behind the handlers: one map per table, keyed by id, and the handlers of
    the movement, alert, product and category controllers as methods that update it in place.
    Every handler is one sequential step; its error paths write nothing. */
module Inventory {
  import opened Common
  import opened Entities
  import opened SkuGen
  import opened StockLedger
  import opened AlertRules
  import opened ProductRules
  import opened CategoryRules

  /** What a successful movement reports besides the movement itself. */
  datatype MovementReceipt = MovementReceipt(movement: Movement, previousStock: int, currentStock: int, minStock: int)

  /** A product exists and belongs to the caller (`where: { id, userId: req.userId }`). */
  predicate Owns(products: map<Id, Product>, caller: UserId, id: Id)
  {
    id in products && products[id].userId == caller
  }

  /** The `unique` constraint on `sku`. */
  ghost predicate UniqueSkus(products: map<Id, Product>)
  {
    forall a, b :: a in products && b in products && products[a].sku == products[b].sku ==> a == b
  }

  ghost predicate CategoriesValid(categories: map<Id, Category>, nextId: Id)
  {
    forall id :: id in categories ==> id < nextId && categories[id].id == id
  }

  /** Each product's category exists and has the product's owner. */
  ghost predicate ProductsValid(products: map<Id, Product>, categories: map<Id, Category>, nextId: Id)
  {
    forall id :: id in products ==>
      && id < nextId && products[id].id == id
      && products[id].categoryId in categories
      && categories[products[id].categoryId].userId == products[id].userId
  }

  /** Each movement's product exists and the actor is the product's owner. */
  ghost predicate MovementsValid(movements: map<Id, Movement>, products: map<Id, Product>, nextId: Id)
  {
    forall id :: id in movements ==>
      && id < nextId && movements[id].id == id
      && movements[id].productId in products
      && movements[id].userId == products[movements[id].productId].userId
  }

  /** Each alert's product exists and the alert belongs to the product's owner. */
  ghost predicate AlertsValid(alerts: map<Id, Alert>, products: map<Id, Product>, nextId: Id)
  {
    forall id :: id in alerts ==>
      && id < nextId && alerts[id].id == id
      && alerts[id].productId in products
      && alerts[id].userId == products[alerts[id].productId].userId
  }

  /** The store invariant: keys match row ids and lie below the id counter, foreign keys resolve,
      rows share the owner of their product or category, SKUs are unique, and no product has two
      unresolved alerts. */
  ghost predicate TablesValid(
    categories: map<Id, Category>, products: map<Id, Product>, movements: map<Id, Movement>,
    alerts: map<Id, Alert>, nextId: Id)
  {
    && CategoriesValid(categories, nextId)
    && ProductsValid(products, categories, nextId)
    && MovementsValid(movements, products, nextId)
    && AlertsValid(alerts, products, nextId)
    && UniqueSkus(products)
    && AtMostOneActive(alerts)
  }

  /** Replacing one product row by another with the same id, SKU and owner, in a category of that
      owner, keeps the invariant: this covers stock changes and field updates. */
  lemma ReplaceProductKeepsTables(
    categories: map<Id, Category>, products: map<Id, Product>, movements: map<Id, Movement>,
    alerts: map<Id, Alert>, nextId: Id, p: Product)
    requires TablesValid(categories, products, movements, alerts, nextId)
    requires p.id in products && p.sku == products[p.id].sku && p.userId == products[p.id].userId
    requires p.categoryId in categories && categories[p.categoryId].userId == p.userId
    ensures TablesValid(categories, products[p.id := p], movements, alerts, nextId)
  {
    var products' := products[p.id := p];
    assert UniqueSkus(products') by {
      forall a, b | a in products' && b in products' && products'[a].sku == products'[b].sku
        ensures a == b
      {
        assert products[a].sku == products[b].sku;
      }
    }
  }

  /** Storing a new product under a fresh id, in a category of its owner, with a SKU no product
      holds, keeps the invariant; the new product has no alert yet. */
  lemma AddProductKeepsTables(
    categories: map<Id, Category>, products: map<Id, Product>, movements: map<Id, Movement>,
    alerts: map<Id, Alert>, nextId: Id, p: Product)
    requires TablesValid(categories, products, movements, alerts, nextId)
    requires p.id == nextId && !SkuTaken(products, p.sku)
    requires p.categoryId in categories && categories[p.categoryId].userId == p.userId
    ensures TablesValid(categories, products[p.id := p], movements, alerts, nextId + 1)
    ensures !HasActive(alerts, p.id)
  {
    var products' := products[p.id := p];
    assert UniqueSkus(products') by {
      forall a, b | a in products' && b in products' && products'[a].sku == products'[b].sku
        ensures a == b
      {
        if a != b && (a == p.id || b == p.id) {
          assert SkuTaken(products, p.sku);
        }
      }
    }
  }

  /** Resolving the alerts of one product keeps the invariant. */
  lemma ResolveAllKeepsTables(
    categories: map<Id, Category>, products: map<Id, Product>, movements: map<Id, Movement>,
    alerts: map<Id, Alert>, nextId: Id, productId: Id, now: Time)
    requires TablesValid(categories, products, movements, alerts, nextId)
    ensures TablesValid(categories, products, movements, ResolveAllFor(alerts, productId, now), nextId)
  {
    ResolveAllKeepsInvariant(alerts, productId, now);
  }

  /** Recording a movement of the product's owner under a fresh id keeps the invariant. */
  lemma AddMovementKeepsTables(
    categories: map<Id, Category>, products: map<Id, Product>, movements: map<Id, Movement>,
    alerts: map<Id, Alert>, nextId: Id, m: Movement)
    requires TablesValid(categories, products, movements, alerts, nextId)
    requires m.id == nextId && m.productId in products && m.userId == products[m.productId].userId
    ensures TablesValid(categories, products, movements[m.id := m], alerts, nextId + 1)
  {
  }

  /** Raising an alert under a fresh id for a product without one keeps the invariant. */
  lemma AddAlertKeepsTables(
    categories: map<Id, Category>, products: map<Id, Product>, movements: map<Id, Movement>,
    alerts: map<Id, Alert>, nextId: Id, productId: Id, now: Time)
    requires TablesValid(categories, products, movements, alerts, nextId)
    requires productId in products && !HasActive(alerts, productId)
    ensures TablesValid(categories, products, movements,
      alerts[nextId := NewAlert(nextId, productId, products[productId].userId, now)], nextId + 1)
  {
    RaiseKeepsInvariant(alerts, nextId, productId, products[productId].userId, now);
  }

  /** Deleting a product together with its movements and alerts keeps the invariant. */
  lemma CascadeDeleteKeepsTables(
    categories: map<Id, Category>, products: map<Id, Product>, movements: map<Id, Movement>,
    alerts: map<Id, Alert>, nextId: Id, productId: Id)
    requires TablesValid(categories, products, movements, alerts, nextId)
    ensures TablesValid(categories, products - {productId},
      MovementsWithout(movements, productId), AlertsWithout(alerts, productId), nextId)
  {
    var alerts' := AlertsWithout(alerts, productId);
    assert alerts' == alerts - (alerts.Keys - alerts'.Keys);
    RemoveKeepsInvariant(alerts, alerts.Keys - alerts'.Keys);
  }

  /** The movement rows that survive the deletion of a product. */
  function MovementsWithout(movements: map<Id, Movement>, productId: Id): (r: map<Id, Movement>)
    ensures forall id :: id in r <==> id in movements && movements[id].productId != productId
    ensures forall id :: id in r ==> r[id] == movements[id]
  {
    map id | id in movements && movements[id].productId != productId :: movements[id]
  }

  /** The alert rows that survive the deletion of a product. */
  function AlertsWithout(alerts: map<Id, Alert>, productId: Id): (r: map<Id, Alert>)
    ensures forall id :: id in r <==> id in alerts && alerts[id].productId != productId
    ensures forall id :: id in r ==> r[id] == alerts[id]
  {
    map id | id in alerts && alerts[id].productId != productId :: alerts[id]
  }

  class Store {
    var categories: map<Id, Category>
    var products: map<Id, Product>
    var movements: map<Id, Movement>
    var alerts: map<Id, Alert>
    /** The next identifier handed out; every stored id is below it. */
    var nextId: Id

    ghost predicate Valid()
      reads this
    {
      TablesValid(categories, products, movements, alerts, nextId)
    }

    constructor ()
      ensures Valid()
      ensures categories == map[] && products == map[] && movements == map[] && alerts == map[]
    {
      categories, products, movements, alerts := map[], map[], map[], map[];
      nextId := 0;
    }

    /** Creates an unresolved alert for the product unless it already has one. */
    method RaiseAlertIfNone(productId: Id, now: Time)
      requires Valid() && productId in products
      modifies this
      ensures Valid()
      ensures categories == old(categories) && products == old(products) && movements == old(movements)
      ensures old(HasActive(alerts, productId)) ==> alerts == old(alerts) && nextId == old(nextId)
      ensures !old(HasActive(alerts, productId)) ==>
        && nextId == old(nextId) + 1
        && alerts == old(alerts)[old(nextId) := NewAlert(old(nextId), productId, products[productId].userId, now)]
      ensures |ActiveIdsFor(alerts, productId)| == 1
    {
      if !HasActive(alerts, productId) {
        AddAlertKeepsTables(categories, products, movements, alerts, nextId, productId, now);
        RaiseKeepsInvariant(alerts, nextId, productId, products[productId].userId, now);
        alerts := alerts[nextId := NewAlert(nextId, productId, products[productId].userId, now)];
        nextId := nextId + 1;
      }
      AtMostOneActiveCount(alerts, productId);
    }

    /** The loop over `activeAlerts`: every unresolved alert of the product is marked resolved. */
    method ResolveActiveAlerts(productId: Id, now: Time)
      requires Valid()
      modifies this
      ensures Valid()
      ensures alerts == ResolveAllFor(old(alerts), productId, now)
      ensures categories == old(categories) && products == old(products) && movements == old(movements)
      ensures nextId == old(nextId)
    {
      var updated := ResolveActive(alerts, productId, now);
      ResolveAllKeepsTables(categories, products, movements, alerts, nextId, productId, now);
      alerts := updated;
    }

    /** `createMovement`: validate, find the caller's product, apply the delta under the
        insufficient-stock guard, record the movement and the new stock, then raise an alert when
        below the minimum or resolve the product's alerts otherwise. */
    method CreateMovement(
      caller: UserId, productId: Option<Id>, kind: Option<string>, quantity: Option<int>,
      reason: Option<string>, notes: Option<string>, now: Time)
      returns (r: Result<MovementReceipt>)
      requires Valid()
      modifies this
      ensures Valid()
      ensures r.Err? ==> unchanged(this)
      ensures var v := ValidateMovementRequest(productId, kind, quantity, reason);
        && (v.Err? ==> r == Err(v.error))
        && (v.Ok? && !Owns(old(products), caller, v.value.productId) ==> r == Err(NotFound))
        && (v.Ok? && Owns(old(products), caller, v.value.productId) ==>
              var step := ApplyMovement(v.value.kind, old(products)[v.value.productId].currentStock, v.value.quantity);
              && (step.Err? ==> r == Err(step.error))
              && (step.Ok? ==> r.Ok? && r.value.currentStock == step.value))
      ensures r.Ok? ==>
        && Owns(old(products), caller, r.value.movement.productId)
        && ValidateMovementRequest(productId, kind, quantity, reason).Ok?
      ensures r.Ok? ==>
        var m := r.value.movement;
        var before := old(products)[m.productId];
        && ValidateMovementRequest(productId, kind, quantity, reason).value
           == MovementOrder(m.productId, m.kind, m.quantity, m.reason)
        && m == Movement(old(nextId), m.productId, m.kind, m.quantity, m.reason, notes, caller, now)
        && r.value.previousStock == before.currentStock
        && Reverted(m.kind, r.value.currentStock, m.quantity) == r.value.previousStock
        && r.value.minStock == before.minStock
        && movements == old(movements)[m.id := m]
        && products == old(products)[m.productId := before.(currentStock := r.value.currentStock)]
        && categories == old(categories)
      ensures r.Ok? && r.value.currentStock < r.value.minStock ==>
        var pid := r.value.movement.productId;
        && nextId == old(nextId) + (if old(HasActive(alerts, pid)) then 1 else 2)
        && |ActiveIdsFor(alerts, pid)| == 1
        && (old(HasActive(alerts, pid)) ==> alerts == old(alerts))
        && (!old(HasActive(alerts, pid)) ==>
              alerts == old(alerts)[old(nextId) + 1 := NewAlert(old(nextId) + 1, pid, caller, now)])
      ensures r.Ok? && r.value.currentStock >= r.value.minStock ==>
        && nextId == old(nextId) + 1
        && alerts == ResolveAllFor(old(alerts), r.value.movement.productId, now)
        && !HasActive(alerts, r.value.movement.productId)
    {
      var v := ValidateMovementRequest(productId, kind, quantity, reason);
      if v.Err? {
        return Err(v.error);
      }
      var order := v.value;
      if !Owns(products, caller, order.productId) {
        return Err(NotFound);
      }
      var product := products[order.productId];
      var step := ApplyMovement(order.kind, product.currentStock, order.quantity);
      if step.Err? {
        return Err(step.error);
      }
      var newStock := step.value;
      var m := Movement(nextId, order.productId, order.kind, order.quantity, order.reason, notes, caller, now);
      AddMovementKeepsTables(categories, products, movements, alerts, nextId, m);
      movements := movements[m.id := m];
      nextId := nextId + 1;
      ReplaceProductKeepsTables(categories, products, movements, alerts, nextId, product.(currentStock := newStock));
      products := products[order.productId := product.(currentStock := newStock)];
      if newStock < product.minStock {
        RaiseAlertIfNone(order.productId, now);
      } else {
        ResolveActiveAlerts(order.productId, now);
      }
      r := Ok(MovementReceipt(m, product.currentStock, newStock, product.minStock));
    }

    /** `deleteMovement`: a missing movement is not found, one on another user's product is
        refused; otherwise the inverse delta is applied with no floor, the movement removed, and an
        alert raised if the product is now below its minimum and has none. Nothing is resolved. */
    method DeleteMovement(caller: UserId, id: Id, now: Time) returns (r: Result<int>)
      requires Valid()
      modifies this
      ensures Valid()
      ensures r.Err? ==> unchanged(this)
      ensures id !in old(movements) ==> r == Err(NotFound)
      ensures id in old(movements) && old(products)[old(movements)[id].productId].userId != caller ==>
        r == Err(AccessDenied)
      ensures id in old(movements) && old(products)[old(movements)[id].productId].userId == caller ==>
        var m := old(movements)[id];
        var before := old(products)[m.productId];
        var restored := Reverted(m.kind, before.currentStock, m.quantity);
        && r == Ok(restored)
        && movements == old(movements) - {id}
        && products == old(products)[m.productId := before.(currentStock := restored)]
        && categories == old(categories)
        && (restored < before.minStock && !old(HasActive(alerts, m.productId)) ==>
              alerts == old(alerts)[old(nextId) := NewAlert(old(nextId), m.productId, caller, now)])
        && (restored >= before.minStock || old(HasActive(alerts, m.productId)) ==> alerts == old(alerts))
        && (restored < before.minStock ==> |ActiveIdsFor(alerts, m.productId)| == 1)
        && nextId == old(nextId) + (if restored < before.minStock && !old(HasActive(alerts, m.productId)) then 1 else 0)
    {
      if id !in movements {
        return Err(NotFound);
      }
      var m := movements[id];
      var product := products[m.productId];
      if product.userId != caller {
        return Err(AccessDenied);
      }
      var restored := Reverted(m.kind, product.currentStock, m.quantity);
      ReplaceProductKeepsTables(categories, products, movements, alerts, nextId, product.(currentStock := restored));
      products := products[m.productId := product.(currentStock := restored)];
      movements := movements - {id};
      if restored < product.minStock {
        RaiseAlertIfNone(m.productId, now);
      }
      r := Ok(restored);
    }

    /** `getMovementById`: not found, or refused when the movement's product is another user's. */
    function GetMovement(caller: UserId, id: Id): (r: Result<Movement>)
      requires Valid()
      reads this
      ensures r.Err? <==> id !in movements || products[movements[id].productId].userId != caller
      ensures id !in movements ==> r == Err(NotFound)
      ensures id in movements && products[movements[id].productId].userId != caller ==> r == Err(AccessDenied)
      ensures r.Ok? ==> r.value == movements[id] && r.value.userId == caller
    {
      if id !in movements then Err(NotFound)
      else if products[movements[id].productId].userId != caller then Err(AccessDenied)
      else Ok(movements[id])
    }

    /** `getAlertById`: only the caller's alerts are visible. */
    function GetAlert(caller: UserId, id: Id): (r: Result<Alert>)
      reads this
      ensures r.Ok? <==> id in alerts && alerts[id].userId == caller
      ensures r.Err? ==> r.error == NotFound
      ensures r.Ok? ==> r.value == alerts[id]
    {
      if id in alerts && alerts[id].userId == caller then Ok(alerts[id]) else Err(NotFound)
    }

    /** `resolveAlert`: not found for a missing or foreign alert, refused for a resolved one,
        otherwise that alert alone is resolved at `now`. */
    method ResolveAlert(caller: UserId, id: Id, now: Time) returns (r: Result<Alert>)
      requires Valid()
      modifies this
      ensures Valid()
      ensures r.Err? ==> unchanged(this)
      ensures id !in old(alerts) || old(alerts)[id].userId != caller ==> r == Err(NotFound)
      ensures id in old(alerts) && old(alerts)[id].userId == caller && old(alerts)[id].isResolved ==>
        r == Err(AlreadyResolved)
      ensures id in old(alerts) && old(alerts)[id].userId == caller && !old(alerts)[id].isResolved ==> r.Ok?
      ensures r.Ok? ==>
        && id in old(alerts) && !old(alerts)[id].isResolved
        && r.value == Resolved(old(alerts)[id], now)
        && alerts == old(alerts)[id := r.value]
      ensures categories == old(categories) && products == old(products) && movements == old(movements)
      ensures nextId == old(nextId)
    {
      var step := ResolveOne(alerts, caller, id, now);
      if step.Err? {
        return Err(step.error);
      }
      ResolveOneKeepsInvariant(alerts, caller, id, now);
      alerts := step.value;
      r := Ok(alerts[id]);
    }

    /** `deleteAlert`: removes the caller's alert and no other row. */
    method DeleteAlert(caller: UserId, id: Id) returns (r: Result<Alert>)
      requires Valid()
      modifies this
      ensures Valid()
      ensures r.Err? ==> unchanged(this)
      ensures r.Err? <==> id !in old(alerts) || old(alerts)[id].userId != caller
      ensures r.Err? ==> r.error == NotFound
      ensures r.Ok? ==> r.value == old(alerts)[id] && alerts == old(alerts) - {id}
      ensures categories == old(categories) && products == old(products) && movements == old(movements)
      ensures nextId == old(nextId)
    {
      if id !in alerts || alerts[id].userId != caller {
        return Err(NotFound);
      }
      r := Ok(alerts[id]);
      RemoveKeepsInvariant(alerts, {id});
      alerts := alerts - {id};
    }

    /** `getProductById`: only the caller's products are visible. */
    function GetProduct(caller: UserId, id: Id): (r: Result<Product>)
      reads this
      ensures r.Ok? <==> Owns(products, caller, id)
      ensures r.Err? ==> r.error == NotFound
      ensures r.Ok? ==> r.value == products[id]
    {
      if Owns(products, caller, id) then Ok(products[id]) else Err(NotFound)
    }

    /** `await generateSKU()` on this store, for a run in which the loop finishes: the SKU is the
        candidate of draw `n`, the first draw whose candidate no product holds. */
    method DrawSku(draws: seq<(nat, Draw)>) returns (sku: string, n: nat)
      requires !AllTaken(products, draws, |draws|)
      ensures n < |draws| && AllTaken(products, draws, n)
      ensures sku == Candidate(draws[n].0, draws[n].1)
      ensures !SkuTaken(products, sku)
    {
      var found, attempts := GenerateSku(products, draws);
      sku := found.value;
      n := attempts - 1;
    }

    /** Saves a new product and, when it is created below its minimum, its initial alert. */
    method InsertProduct(p: Product, now: Time)
      requires Valid()
      requires p.id == nextId && !SkuTaken(products, p.sku)
      requires p.categoryId in categories && categories[p.categoryId].userId == p.userId
      modifies this
      ensures Valid()
      ensures products == old(products)[p.id := p]
      ensures categories == old(categories) && movements == old(movements)
      ensures BelowMinimum(p.currentStock, p.minStock) ==>
        alerts == old(alerts)[p.id + 1 := NewAlert(p.id + 1, p.id, p.userId, now)]
      ensures !BelowMinimum(p.currentStock, p.minStock) ==> alerts == old(alerts)
      ensures nextId == old(nextId) + (if BelowMinimum(p.currentStock, p.minStock) then 2 else 1)
      ensures BelowMinimum(p.currentStock, p.minStock) <==> HasActive(alerts, p.id)
      ensures |ActiveIdsFor(alerts, p.id)| <= 1
    {
      AddProductKeepsTables(categories, products, movements, alerts, nextId, p);
      products := products[p.id := p];
      nextId := nextId + 1;
      if BelowMinimum(p.currentStock, p.minStock) {
        RaiseAlertIfNone(p.id, now);
      } else {
        AtMostOneActiveCount(alerts, p.id);
      }
    }

    /** `createProduct`: validate the body, require an owned category, draw a SKU no product
        holds, store the product, and raise the initial alert when it starts below its minimum. */
    method CreateProduct(caller: UserId, d: ProductDraft, draws: seq<(nat, Draw)>, now: Time) returns (r: Result<Product>)
      requires Valid()
      requires !AllTaken(products, draws, |draws|)
      modifies this
      ensures Valid()
      ensures r.Err? ==> unchanged(this)
      ensures ValidateDraft(d).Err? ==> r == Err(ValidateDraft(d).error)
      ensures ValidateDraft(d).Ok? && !(d.categoryId.value in old(categories) && old(categories)[d.categoryId.value].userId == caller)
        ==> r == Err(NotFound)
      ensures r.Ok? ==>
        var p := r.value;
        && ValidateDraft(d).Ok?
        && p == NewProduct(old(nextId), p.sku, d, caller)
        && (exists n :: 0 <= n < |draws| && AllTaken(old(products), draws, n)
              && p.sku == Candidate(draws[n].0, draws[n].1))
        && !SkuTaken(old(products), p.sku)
        && products == old(products)[p.id := p]
        && categories == old(categories) && movements == old(movements)
        && (BelowMinimum(p.currentStock, p.minStock) ==>
              alerts == old(alerts)[p.id + 1 := NewAlert(p.id + 1, p.id, caller, now)])
        && (!BelowMinimum(p.currentStock, p.minStock) ==> alerts == old(alerts))
        && (BelowMinimum(p.currentStock, p.minStock) <==> HasActive(alerts, p.id))
        && nextId == old(nextId) + (if BelowMinimum(p.currentStock, p.minStock) then 2 else 1)
      ensures r.Ok? <==>
        && ValidateDraft(d).Ok? && d.categoryId.value in old(categories)
        && old(categories)[d.categoryId.value].userId == caller
    {
      var v := ValidateDraft(d);
      if v.Err? {
        return Err(v.error);
      }
      var categoryId := d.categoryId.value;
      if !(categoryId in categories && categories[categoryId].userId == caller) {
        return Err(NotFound);
      }
      var sku, n := DrawSku(draws);
      var p := NewProduct(nextId, sku, d, caller);
      InsertProduct(p, now);
      r := Ok(p);
    }

    /** `updateProduct`: not found for a missing or foreign product, or for a new category the
        caller does not own; otherwise the supplied fields are assigned. Stock, SKU and owner are
        kept and alerts are not re-evaluated. */
    method UpdateProduct(caller: UserId, id: Id, patch: ProductPatch) returns (r: Result<Product>)
      requires Valid()
      modifies this
      ensures Valid()
      ensures r.Err? ==> unchanged(this)
      ensures !Owns(old(products), caller, id) ==> r == Err(NotFound)
      ensures Owns(old(products), caller, id) && ChangesCategory(old(products)[id], patch)
        && !(patch.categoryId.value in categories && categories[patch.categoryId.value].userId == caller)
        ==> r == Err(NotFound)
      ensures r.Ok? ==>
        && Owns(old(products), caller, id)
        && r.value == ApplyPatch(old(products)[id], patch)
        && products == old(products)[id := r.value]
      ensures Owns(old(products), caller, id)
        && (!ChangesCategory(old(products)[id], patch)
            || (patch.categoryId.value in old(categories) && old(categories)[patch.categoryId.value].userId == caller))
        ==> r.Ok?
      ensures categories == old(categories) && movements == old(movements) && alerts == old(alerts)
      ensures nextId == old(nextId)
    {
      if !Owns(products, caller, id) {
        return Err(NotFound);
      }
      var p := products[id];
      if ChangesCategory(p, patch) {
        var c := patch.categoryId.value;
        if !(c in categories && categories[c].userId == caller) {
          return Err(NotFound);
        }
      }
      var updated := ApplyPatch(p, patch);
      ReplaceProductKeepsTables(categories, products, movements, alerts, nextId, updated);
      products := products[id := updated];
      r := Ok(updated);
    }

    /** `deleteProduct`: removes the caller's product, and with it (by the cascading foreign keys)
        its movements and alerts. */
    method DeleteProduct(caller: UserId, id: Id) returns (r: Result<Product>)
      requires Valid()
      modifies this
      ensures Valid()
      ensures r.Err? ==> unchanged(this)
      ensures r.Err? <==> !Owns(old(products), caller, id)
      ensures r.Err? ==> r.error == NotFound
      ensures r.Ok? ==>
        && r.value == old(products)[id]
        && products == old(products) - {id}
        && movements == MovementsWithout(old(movements), id)
        && alerts == AlertsWithout(old(alerts), id)
      ensures categories == old(categories)
      ensures nextId == old(nextId)
    {
      if !Owns(products, caller, id) {
        return Err(NotFound);
      }
      r := Ok(products[id]);
      CascadeDeleteKeepsTables(categories, products, movements, alerts, nextId, id);
      movements := MovementsWithout(movements, id);
      alerts := AlertsWithout(alerts, id);
      products := products - {id};
    }

    /** `createCategory`: a blank name is refused; the stored name is the trimmed one. */
    method CreateCategory(caller: UserId, name: Option<string>) returns (r: Result<Category>)
      requires Valid()
      modifies this
      ensures Valid()
      ensures r.Err? ==> unchanged(this)
      ensures r.Err? <==> ValidateName(name).Err?
      ensures r.Err? ==> r.error == Invalid(NameRequired)
      ensures r.Ok? ==>
        && r.value == Category(old(nextId), Trim(name.value), caller)
        && categories == old(categories)[r.value.id := r.value]
        && nextId == old(nextId) + 1
      ensures products == old(products) && movements == old(movements) && alerts == old(alerts)
    {
      var v := ValidateName(name);
      if v.Err? {
        return Err(v.error);
      }
      var c := Category(nextId, v.value, caller);
      categories := categories[c.id := c];
      nextId := nextId + 1;
      r := Ok(c);
    }

    /** `updateCategory`: the name is checked first, then the category must be the caller's; only
        the name changes, to the trimmed input. */
    method UpdateCategory(caller: UserId, id: Id, name: Option<string>) returns (r: Result<Category>)
      requires Valid()
      modifies this
      ensures Valid()
      ensures r.Err? ==> unchanged(this)
      ensures ValidateName(name).Err? ==> r == Err(Invalid(NameRequired))
      ensures ValidateName(name).Ok? && !(id in old(categories) && old(categories)[id].userId == caller) ==>
        r == Err(NotFound)
      ensures r.Ok? ==>
        && id in old(categories) && old(categories)[id].userId == caller
        && r.value == old(categories)[id].(name := Trim(name.value))
        && categories == old(categories)[id := r.value]
      ensures ValidateName(name).Ok? && id in old(categories) && old(categories)[id].userId == caller ==> r.Ok?
      ensures products == old(products) && movements == old(movements) && alerts == old(alerts)
      ensures nextId == old(nextId)
    {
      var v := ValidateName(name);
      if v.Err? {
        return Err(v.error);
      }
      if !(id in categories && categories[id].userId == caller) {
        return Err(NotFound);
      }
      var c := categories[id].(name := v.value);
      categories := categories[id := c];
      r := Ok(c);
    }

    /** `deleteCategory`: not found for a missing or foreign category, refused with the product
        count while any product belongs to it, otherwise removed. */
    method DeleteCategory(caller: UserId, id: Id) returns (r: Result<Category>)
      requires Valid()
      modifies this
      ensures Valid()
      ensures r.Err? ==> unchanged(this)
      ensures !(id in old(categories) && old(categories)[id].userId == caller) ==> r == Err(NotFound)
      ensures id in old(categories) && old(categories)[id].userId == caller && ProductCount(products, id) > 0 ==>
        r == Err(HasProducts(ProductCount(products, id)))
      ensures r.Ok? ==>
        && id in old(categories) && ProductCount(products, id) == 0
        && r.value == old(categories)[id]
        && categories == old(categories) - {id}
      ensures id in old(categories) && old(categories)[id].userId == caller && ProductCount(old(products), id) == 0
        ==> r.Ok?
      ensures products == old(products) && movements == old(movements) && alerts == old(alerts)
      ensures nextId == old(nextId)
    {
      if !(id in categories && categories[id].userId == caller) {
        return Err(NotFound);
      }
      var count := ProductCount(products, id);
      if count > 0 {
        return Err(HasProducts(count));
      }
      r := Ok(categories[id]);
      categories := categories - {id};
    }
  }
}
