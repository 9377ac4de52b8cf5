/** The product handlers' rules: creation checks, the initial-alert rule, the three stock-status
    classes of the list filter, and the field update. */
module ProductRules {
  import opened Common
  import opened Entities

  /** The body of a create request; absent fields are None. */
  datatype ProductDraft = ProductDraft(
    name: Option<string>,
    description: Option<string>,
    price: Option<int>,
    minStock: Option<int>,
    currentStock: Option<int>,
    categoryId: Option<Id>,
    barcode: Option<string>)

  /** The required-field and sign checks that run before any lookup: `!name`, `=== undefined` for
      the three numbers (so zero is accepted), `!categoryId`, then no negative number. */
  function ValidateDraft(d: ProductDraft): (r: Result<ProductDraft>)
    ensures r.Ok? <==>
      && Truthy(d.name) && d.categoryId.Some?
      && d.price.Some? && d.minStock.Some? && d.currentStock.Some?
      && d.price.value >= 0 && d.minStock.value >= 0 && d.currentStock.value >= 0
    ensures r.Ok? ==> r.value == d
    ensures !Truthy(d.name) || d.price.None? || d.minStock.None? || d.currentStock.None? || d.categoryId.None?
      ==> r == Err(Invalid(MissingFields))
    ensures r.Err? && r != Err(Invalid(MissingFields)) ==> r == Err(Invalid(NegativeValues))
    ensures Truthy(d.name) && d.categoryId.Some? && d.price.Some? && d.minStock.Some? && d.currentStock.Some?
      && (d.price.value < 0 || d.minStock.value < 0 || d.currentStock.value < 0)
      ==> r == Err(Invalid(NegativeValues))
  {
    if !Truthy(d.name) || d.price.None? || d.minStock.None? || d.currentStock.None? || d.categoryId.None? then
      Err(Invalid(MissingFields))
    else if d.price.value < 0 || d.minStock.value < 0 || d.currentStock.value < 0 then
      Err(Invalid(NegativeValues))
    else Ok(d)
  }

  /** The product row built from a validated draft. */
  function NewProduct(id: Id, sku: string, d: ProductDraft, caller: UserId): (p: Product)
    requires ValidateDraft(d).Ok?
    ensures p.id == id && p.sku == sku && p.userId == caller && p.categoryId == d.categoryId.value
    ensures p.currentStock == d.currentStock.value >= 0 && p.minStock == d.minStock.value >= 0
    ensures p.price == d.price.value >= 0
  {
    Product(id, sku, d.name.value, d.description, d.price.value, d.minStock.value,
            d.currentStock.value, d.barcode, d.categoryId.value, caller)
  }

  /** The lifecycle rule the movement handlers apply: a product needs an alert while its stock is
      below its minimum. */
  predicate BelowMinimum(currentStock: int, minStock: int)
  {
    currentStock < minStock
  }

  /** The initial-alert condition as the creation handler writes it, under a comment that speaks of
      stock that is already low. */
  predicate InitialAlertAsWritten(currentStock: int, minStock: int)
  {
    currentStock > minStock
  }

  /** As written the condition is the opposite of the lifecycle rule: a product created below its
      minimum gets no alert and one created above it gets one. */
  lemma InitialAlertInverted()
    ensures !InitialAlertAsWritten(3, 5) && BelowMinimum(3, 5)
    ensures InitialAlertAsWritten(10, 5) && !BelowMinimum(10, 5)
  {
  }

  /** On every pair the written condition and the lifecycle rule never agree that an
      alert is due, and they only both decline when stock equals the minimum. */
  lemma InitialAlertNeverMatchesRule(currentStock: int, minStock: int)
    ensures !(InitialAlertAsWritten(currentStock, minStock) && BelowMinimum(currentStock, minStock))
    ensures !InitialAlertAsWritten(currentStock, minStock) && !BelowMinimum(currentStock, minStock)
      <==> currentStock == minStock
  {
  }

  /** The three classes of the `status` list filter. */
  datatype StockStatus = Critico | Bajo | Suficiente

  /** Membership in a class as the filter writes it; `minStock * 1.5` is compared exactly as
      `2 * currentStock` against `3 * minStock`. */
  predicate InStatus(currentStock: int, minStock: int, s: StockStatus)
  {
    match s
    case Critico => currentStock < minStock
    case Bajo => currentStock >= minStock && 2 * currentStock < 3 * minStock
    case Suficiente => 2 * currentStock >= 3 * minStock
  }

  /** The class of a product with a non-negative minimum. */
  function Classify(currentStock: int, minStock: int): (s: StockStatus)
    requires minStock >= 0
    ensures InStatus(currentStock, minStock, s)
    ensures forall t :: InStatus(currentStock, minStock, t) ==> t == s
  {
    if currentStock < minStock then Critico
    else if 2 * currentStock < 3 * minStock then Bajo
    else Suficiente
  }

  /** The update handler accepts a negative minimum, and then the classes overlap: the same product
      is both "critico" and "suficiente". */
  lemma NegativeMinimumOverlaps()
    ensures InStatus(-3, -2, Critico) && InStatus(-3, -2, Suficiente)
  {
  }

  /** The status names the filter recognises; any other value applies no status filter. */
  function ParseStatus(status: Option<string>): (r: Option<StockStatus>)
    ensures r == Some(Critico) <==> status == Some("critico")
    ensures r == Some(Bajo) <==> status == Some("bajo")
    ensures r == Some(Suficiente) <==> status == Some("suficiente")
  {
    if status == Some("critico") then Some(Critico)
    else if status == Some("bajo") then Some(Bajo)
    else if status == Some("suficiente") then Some(Suficiente)
    else None
  }

  /** The product list: the caller's products, optionally of one category, optionally of one class. */
  function FilterProducts(products: map<Id, Product>, caller: UserId, category: Option<Id>, status: Option<string>)
    : (r: map<Id, Product>)
    ensures forall id :: id in r ==>
      && id in products && r[id] == products[id] && products[id].userId == caller
      && (category.Some? ==> products[id].categoryId == category.value)
    ensures status == Some("critico") ==> forall id :: id in r <==>
      && id in products && products[id].userId == caller
      && (category.Some? ==> products[id].categoryId == category.value)
      && products[id].currentStock < products[id].minStock
    ensures status == Some("bajo") ==> forall id :: id in r <==>
      && id in products && products[id].userId == caller
      && (category.Some? ==> products[id].categoryId == category.value)
      && products[id].minStock <= products[id].currentStock
      && 2 * products[id].currentStock < 3 * products[id].minStock
    ensures status == Some("suficiente") ==> forall id :: id in r <==>
      && id in products && products[id].userId == caller
      && (category.Some? ==> products[id].categoryId == category.value)
      && 2 * products[id].currentStock >= 3 * products[id].minStock
    ensures status != Some("critico") && status != Some("bajo") && status != Some("suficiente") ==>
      forall id :: id in r <==>
        && id in products && products[id].userId == caller
        && (category.Some? ==> products[id].categoryId == category.value)
  {
    map id |
      && id in products && products[id].userId == caller
      && (category.Some? ==> products[id].categoryId == category.value)
      && (ParseStatus(status).Some? ==>
            InStatus(products[id].currentStock, products[id].minStock, ParseStatus(status).value))
      :: products[id]
  }

  /** When every minimum is non-negative the three class lists split the unfiltered list. */
  lemma {:induction false} StatusListsPartition(products: map<Id, Product>, caller: UserId, category: Option<Id>)
    requires forall id :: id in products ==> products[id].minStock >= 0
    ensures var all := FilterProducts(products, caller, category, None);
      var c := FilterProducts(products, caller, category, Some("critico"));
      var b := FilterProducts(products, caller, category, Some("bajo"));
      var s := FilterProducts(products, caller, category, Some("suficiente"));
      && c.Keys !! b.Keys && c.Keys !! s.Keys && b.Keys !! s.Keys
      && c.Keys + b.Keys + s.Keys == all.Keys
  {
    var all := FilterProducts(products, caller, category, None);
    var c := FilterProducts(products, caller, category, Some("critico"));
    var b := FilterProducts(products, caller, category, Some("bajo"));
    var s := FilterProducts(products, caller, category, Some("suficiente"));
    forall id | id in all ensures id in c.Keys + b.Keys + s.Keys {
      var st := Classify(products[id].currentStock, products[id].minStock);
    }
    forall id | id in c.Keys + b.Keys + s.Keys ensures id in all {
    }
  }

  /** The body of an update request. `currentStock` is not among its fields. */
  datatype ProductPatch = ProductPatch(
    name: Option<string>,
    description: Option<string>,
    price: Option<int>,
    minStock: Option<int>,
    categoryId: Option<Id>,
    barcode: Option<string>)

  /** The category change is attempted when `categoryId` is truthy and differs from the current one. */
  predicate ChangesCategory(p: Product, patch: ProductPatch)
  {
    patch.categoryId.Some? && patch.categoryId.value != p.categoryId
  }

  /** The fields an update assigns: the category when it changes, the name when truthy, the other
      four whenever present. Stock, SKU, id and owner are never assigned. */
  function ApplyPatch(p: Product, patch: ProductPatch): (r: Product)
    ensures r.id == p.id && r.sku == p.sku && r.currentStock == p.currentStock && r.userId == p.userId
    ensures r.categoryId == (if ChangesCategory(p, patch) then patch.categoryId.value else p.categoryId)
    ensures r.name == (if Truthy(patch.name) then patch.name.value else p.name)
    ensures r.description == (if patch.description.Some? then patch.description else p.description)
    ensures r.price == (if patch.price.Some? then patch.price.value else p.price)
    ensures r.minStock == (if patch.minStock.Some? then patch.minStock.value else p.minStock)
    ensures r.barcode == (if patch.barcode.Some? then patch.barcode else p.barcode)
  {
    var withCategory := if ChangesCategory(p, patch) then p.(categoryId := patch.categoryId.value) else p;
    withCategory.(
      name := if Truthy(patch.name) then patch.name.value else p.name,
      description := if patch.description.Some? then patch.description else p.description,
      price := if patch.price.Some? then patch.price.value else p.price,
      minStock := if patch.minStock.Some? then patch.minStock.value else p.minStock,
      barcode := if patch.barcode.Some? then patch.barcode else p.barcode)
  }

  /** An empty patch leaves the product as it was. */
  lemma EmptyPatchIsIdentity(p: Product)
    ensures ApplyPatch(p, ProductPatch(None, None, None, None, None, None)) == p
  {
  }
}
