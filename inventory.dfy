/**
 * The inventory ledger: products with a current stock, and the list of stock movements
 * (`entrada` adds, `salida` takes out, `ajuste` sets the stock) that is kept newest first.
 */
module Inventory {
  import opened Common
  import opened Text
  import opened Records

  datatype Product = Product(
    id: int,
    name: string,
    category: string,
    currentStock: int,
    minStock: int,
    unitPrice: real,
    unit: string)

  datatype Movement = Movement(
    id: int,
    productId: int,
    productName: string,
    movementType: string,
    quantity: int,
    reason: string,
    date: string,
    user: string)

  /** The whole ledger: what the page keeps in its fields. */
  datatype Ledger = Ledger(products: seq<Product>, movements: seq<Movement>, nextProductId: int, nextMovementId: int)

  function ProductIds(s: seq<Product>): seq<int> {
    MapSeq(s, (p: Product) => p.id)
  }

  function MovementIds(s: seq<Movement>): seq<int> {
    MapSeq(s, (m: Movement) => m.id)
  }

  /** Every id handed out so far is below the next one to hand out. */
  predicate LedgerValid(l: Ledger) {
    (forall i :: 0 <= i < |l.products| ==> l.products[i].id < l.nextProductId)
    && (forall i :: 0 <= i < |l.movements| ==> l.movements[i].id < l.nextMovementId)
  }

  function SeedProducts(): (r: seq<Product>)
    ensures |r| == 5 && forall i :: 0 <= i < 5 ==> r[i].id == i + 1
  {
    [ Product(1, "Semillas de Tomate", "semillas", 25, 10, 15.5, "paquete"),
      Product(2, "Fertilizante Orgánico", "fertilizantes", 8, 5, 25.0, "kg"),
      Product(3, "Herramientas de Jardín", "herramientas", 15, 3, 45.0, "unidad"),
      Product(4, "Macetas de Barro", "macetas", 2, 5, 8.5, "unidad"),
      Product(5, "Sustrato para Plantas", "sustratos", 12, 8, 12.0, "kg") ]
  }

  function SeedMovements(): (r: seq<Movement>)
    ensures |r| == 2 && r[0].id == 1 && r[1].id == 2
  {
    [ Movement(1, 1, "Semillas de Tomate", "entrada", 10, "Compra inicial", "2024-01-15", "Admin Usuario"),
      Movement(2, 2, "Fertilizante Orgánico", "salida", 2, "Venta", "2024-01-14", "Admin Usuario") ]
  }

  /**
   * `loadInventoryData`: saved products and movements, or the seeded ones; the next ids follow
   * the largest saved id (or are 6 and 3 for the seeds).
   */
  function LoadLedger(savedProducts: Option<seq<Product>>, savedMovements: Option<seq<Movement>>): (l: Ledger)
    ensures LedgerValid(l)
    ensures savedProducts.Some? ==> l.products == savedProducts.value && l.nextProductId == NextId(ProductIds(l.products))
    ensures savedProducts.None? ==> l.products == SeedProducts() && l.nextProductId == 6
    ensures savedMovements.Some? ==> l.movements == savedMovements.value && l.nextMovementId == NextId(MovementIds(l.movements))
    ensures savedMovements.None? ==> l.movements == SeedMovements() && l.nextMovementId == 3
  {
    var products := if savedProducts.Some? then savedProducts.value else SeedProducts();
    var movements := if savedMovements.Some? then savedMovements.value else SeedMovements();
    Ledger(products, movements,
           if savedProducts.Some? then NextId(ProductIds(products)) else 6,
           if savedMovements.Some? then NextId(MovementIds(movements)) else 3)
  }

  /** The name recorded on a movement: the logged-in account's user name, or `Usuario`. */
  function CurrentUserName(current: Option<User>): (r: string)
    ensures r != ""
    ensures current.Some? && current.value.username != "" ==> r == current.value.username
  {
    if current.Some? && current.value.username != "" then current.value.username else "Usuario"
  }

  /** `products.find(p => p.id === id)`. */
  function FindProduct(products: seq<Product>, id: int): (r: Option<nat>)
    ensures r.Some? ==> r.value < |products| && products[r.value].id == id
    ensures r.Some? ==> forall j :: 0 <= j < r.value ==> products[j].id != id
    ensures r.None? ==> forall j :: 0 <= j < |products| ==> products[j].id != id
  {
    FindIndex(products, (p: Product) => p.id == id)
  }

  // ----- stock movements -----

  /** A number read from the form is falsy when it did not parse (`NaN`) or is 0. */
  predicate Falsy(n: Option<int>) {
    n.None? || n.value == 0
  }

  /** The stock after a movement of `quantity` units of the given type; an unknown type changes nothing. */
  function NewStock(movementType: string, stock: int, quantity: int): (r: int)
    ensures movementType == "entrada" ==> r == stock + quantity
    ensures movementType == "salida" ==> r == stock - quantity
    ensures movementType == "ajuste" ==> r == quantity
    ensures movementType !in {"entrada", "salida", "ajuste"} ==> r == stock
  {
    match movementType
    case "entrada" => stock + quantity
    case "salida" => stock - quantity
    case "ajuste" => quantity
    case _ => stock
  }

  datatype MovementOutcome = MissingMovementFields | ProductNotFound | NotEnoughStock | Recorded(movement: Movement)

  /** The form of the stock-movement panel, with the numbers as `parseInt` read them. */
  datatype MovementForm = MovementForm(movementType: string, productId: Option<int>, quantity: Option<int>, reason: string)

  /** `handleStockMovement` on a ledger. */
  function StockMovement(l: Ledger, f: MovementForm, today: string, user: string): (res: (Ledger, MovementOutcome))
    ensures !res.1.Recorded? ==> res.0 == l
    ensures |res.0.products| == |l.products| && res.0.nextProductId == l.nextProductId
    ensures res.1.Recorded? ==>
              res.0.movements == [res.1.movement] + l.movements && res.1.movement.id == l.nextMovementId
              && f.productId.Some? && f.quantity.Some?
              && res.1.movement.productId == f.productId.value && res.1.movement.quantity == f.quantity.value
  {
    if f.movementType == "" || Falsy(f.productId) || Falsy(f.quantity) || f.reason == "" then (l, MissingMovementFields)
    else
      match FindProduct(l.products, f.productId.value)
      case None => (l, ProductNotFound)
      case Some(k) =>
        var p := l.products[k];
        var q := f.quantity.value;
        if f.movementType == "salida" && q > p.currentStock then (l, NotEnoughStock)
        else
          var m := Movement(l.nextMovementId, p.id, p.name, f.movementType, q, f.reason, today, user);
          (Ledger(l.products[k := p.(currentStock := NewStock(f.movementType, p.currentStock, q))],
                  [m] + l.movements, l.nextProductId, l.nextMovementId + 1),
           Recorded(m))
  }

  /** A movement is refused, with the ledger unchanged, exactly in the cases the panel checks. */
  lemma StockMovementRefusals(l: Ledger, f: MovementForm, today: string, user: string)
    ensures var (l', out) := StockMovement(l, f, today, user);
      (!out.Recorded? ==> l' == l)
      && (out == MissingMovementFields <==> f.movementType == "" || Falsy(f.productId) || Falsy(f.quantity) || f.reason == "")
      && (out == ProductNotFound <==>
            !(f.movementType == "" || Falsy(f.productId) || Falsy(f.quantity) || f.reason == "")
            && forall i :: 0 <= i < |l.products| ==> l.products[i].id != f.productId.value)
  {
  }

  /**
   * A recorded movement changes the stock of the one product it names and nothing else, and
   * prepends exactly one record carrying the next movement id, after which that id moves on by one.
   */
  lemma StockMovementEffect(l: Ledger, f: MovementForm, today: string, user: string)
    requires StockMovement(l, f, today, user).1.Recorded?
    ensures var (l', out) := StockMovement(l, f, today, user);
      exists k :: 0 <= k < |l.products| && l.products[k].id == f.productId.value
        && |l'.products| == |l.products|
        && l'.products[k] == l.products[k].(currentStock := NewStock(f.movementType, l.products[k].currentStock, f.quantity.value))
        && (forall j :: 0 <= j < |l.products| && j != k ==> l'.products[j] == l.products[j])
        && out.movement.id == l.nextMovementId
        && out.movement.productId == l.products[k].id && out.movement.productName == l.products[k].name
        && l'.movements == [out.movement] + l.movements
        && l'.nextMovementId == l.nextMovementId + 1 && l'.nextProductId == l.nextProductId
  {
    var k := FindProduct(l.products, f.productId.value).value;
    assert l.products[k].id == f.productId.value;
  }

  /** A `salida` is never allowed to take the stock below zero. */
  lemma SalidaKeepsStockNonNegative(l: Ledger, f: MovementForm, today: string, user: string, k: nat)
    requires f.movementType == "salida" && k < |l.products|
    requires StockMovement(l, f, today, user).1.Recorded?
    requires l.products[k].id == f.productId.value
    requires forall j :: 0 <= j < k ==> l.products[j].id != f.productId.value
    ensures StockMovement(l, f, today, user).0.products[k].currentStock >= 0
  {
  }

  /** The falsy test does not reject negative numbers: an `entrada` of -5 units lowers the stock. */
  lemma NegativeEntradaLowersStock()
    ensures var l := Ledger(SeedProducts(), SeedMovements(), 6, 3);
      var (l', out) := StockMovement(l, MovementForm("entrada", Some(1), Some(-5), "x"), "2024-02-01", "admin");
      out.Recorded? && l'.products[0].currentStock == 20
  {
  }

  /** Recording a movement keeps every id below the next one. */
  lemma StockMovementKeepsValid(l: Ledger, f: MovementForm, today: string, user: string)
    requires LedgerValid(l)
    ensures LedgerValid(StockMovement(l, f, today, user).0)
  {
  }

  // ----- adding products -----

  datatype AddOutcome = MissingProductFields | DuplicateName | Added(product: Product)

  /** The add-product form, with the numbers as the page parsed them. */
  datatype ProductForm = ProductForm(name: string, category: string, initialStock: int, minStock: int, unitPrice: real, unit: string)

  /** Some product already has this name, ignoring case. */
  predicate NameTaken(products: seq<Product>, name: string) {
    exists i :: 0 <= i < |products| && EqualsIgnoreCase(products[i].name, name)
  }

  function NameTakenAt(products: seq<Product>, name: string): (r: bool)
    ensures r <==> NameTaken(products, name)
  {
    FindIndex(products, (p: Product) => EqualsIgnoreCase(p.name, name)).Some?
  }

  /** `handleAddProduct` on a ledger. */
  function AddProduct(l: Ledger, f: ProductForm, today: string, user: string): (res: (Ledger, AddOutcome))
    ensures !res.1.Added? ==> res.0 == l
    ensures res.1.Added? ==>
              !NameTaken(l.products, f.name) && res.1.product.id == l.nextProductId
              && res.0.products == l.products + [res.1.product]
  {
    if f.name == "" || f.category == "" || f.unit == "" || f.unitPrice < 0.0 then (l, MissingProductFields)
    else if NameTakenAt(l.products, f.name) then (l, DuplicateName)
    else
      var p := Product(l.nextProductId, f.name, f.category, f.initialStock, f.minStock, f.unitPrice, f.unit);
      if f.initialStock > 0 then
        var m := Movement(l.nextMovementId, p.id, p.name, "entrada", f.initialStock, "Stock inicial", today, user);
        (Ledger(l.products + [p], [m] + l.movements, l.nextProductId + 1, l.nextMovementId + 1), Added(p))
      else
        (Ledger(l.products + [p], l.movements, l.nextProductId + 1, l.nextMovementId), Added(p))
  }

  /**
   * A product is refused, with the ledger unchanged, when a text field is empty, the price is
   * negative, or the name is taken ignoring case. Otherwise it is appended with the next product
   * id, and an `entrada`/`Stock inicial` movement is prepended exactly when its initial stock is positive.
   */
  lemma AddProductEffect(l: Ledger, f: ProductForm, today: string, user: string)
    ensures var (l', out) := AddProduct(l, f, today, user);
      (!out.Added? ==> l' == l)
      && (out == MissingProductFields <==> f.name == "" || f.category == "" || f.unit == "" || f.unitPrice < 0.0)
      && (out == DuplicateName <==> !(out == MissingProductFields) && NameTaken(l.products, f.name))
      && (out.Added? ==>
            out.product.id == l.nextProductId && out.product.name == f.name
            && out.product.currentStock == f.initialStock
            && l'.products == l.products + [out.product] && l'.nextProductId == l.nextProductId + 1
            && (f.initialStock > 0 ==>
                  l'.movements == [Movement(l.nextMovementId, out.product.id, f.name, "entrada", f.initialStock,
                                            "Stock inicial", today, user)] + l.movements
                  && l'.nextMovementId == l.nextMovementId + 1)
            && (f.initialStock <= 0 ==> l'.movements == l.movements && l'.nextMovementId == l.nextMovementId))
  {
  }

  /** No two products share a name, ignoring case. */
  predicate NamesDistinct(products: seq<Product>) {
    forall i, j :: 0 <= i < j < |products| ==> !EqualsIgnoreCase(products[i].name, products[j].name)
  }

  /** Adding products never introduces two products with the same name, and ids stay below the next id. */
  lemma AddProductKeepsInvariants(l: Ledger, f: ProductForm, today: string, user: string)
    requires LedgerValid(l) && NamesDistinct(l.products)
    ensures LedgerValid(AddProduct(l, f, today, user).0)
    ensures NamesDistinct(AddProduct(l, f, today, user).0.products)
  {
    var (l', out) := AddProduct(l, f, today, user);
    if out.Added? {
      var ps := l'.products;
      forall i, j | 0 <= i < j < |ps|
        ensures !EqualsIgnoreCase(ps[i].name, ps[j].name)
      {
        if j == |ps| - 1 {
          assert ps[j].name == f.name;
          assert ps[i] == l.products[i];
        }
      }
    }
  }

  // ----- editing and deleting -----

  /**
   * `editProduct`: a positive new price (the prompt's number; `None` when cancelled or not a number)
   * replaces the price of the first product with that id (`find`); nothing else changes.
   */
  function EditPrice(products: seq<Product>, productId: int, newPrice: Option<real>): (r: seq<Product>)
    ensures |r| == |products|
    ensures newPrice.None? || newPrice.value <= 0.0 ==> r == products
    ensures (forall i :: 0 <= i < |products| ==> products[i].id != productId) ==> r == products
    ensures newPrice.Some? && newPrice.value > 0.0 ==>
              forall k :: 0 <= k < |products| && products[k].id == productId && (forall j :: 0 <= j < k ==> products[j].id != productId)
                ==> r == products[k := products[k].(unitPrice := newPrice.value)]
  {
    match FindProduct(products, productId)
    case None => products
    case Some(k) =>
      if newPrice.Some? && newPrice.value > 0.0 then products[k := products[k].(unitPrice := newPrice.value)] else products
  }

  /** Editing a price changes no product's other fields, so ids stay below the next id and names stay distinct. */
  lemma EditPriceKeepsInvariants(l: Ledger, productId: int, newPrice: Option<real>)
    requires LedgerValid(l) && NamesDistinct(l.products)
    ensures var ps := EditPrice(l.products, productId, newPrice);
      (forall i :: 0 <= i < |ps| ==> ps[i] == l.products[i].(unitPrice := ps[i].unitPrice))
      && LedgerValid(l.(products := ps)) && NamesDistinct(ps)
  {
    var ps := EditPrice(l.products, productId, newPrice);
    assert forall i :: 0 <= i < |ps| ==> ps[i].id == l.products[i].id && ps[i].name == l.products[i].name;
  }

  /** Editing the same price twice is editing it once. */
  lemma EditPriceIdempotent(products: seq<Product>, productId: int, newPrice: Option<real>)
    ensures EditPrice(EditPrice(products, productId, newPrice), productId, newPrice) == EditPrice(products, productId, newPrice)
  {
    var r := EditPrice(products, productId, newPrice);
    assert forall i :: 0 <= i < |r| ==> r[i].id == products[i].id;
  }

  /** `deleteProduct`: with the user's confirmation, every product with that id is removed. */
  function DeleteProduct(products: seq<Product>, productId: int, confirmed: bool): (r: seq<Product>)
    ensures !confirmed ==> r == products
    ensures confirmed ==> forall i :: 0 <= i < |r| ==> r[i].id != productId
    ensures forall p :: p in products && p.id != productId ==> p in r
    ensures forall p :: p in r ==> p in products
  {
    if confirmed && FindProduct(products, productId).Some? then Filter(products, (p: Product) => p.id != productId) else products
  }

  // ----- classifiers -----

  datatype StockStatus = SinStock | StockBajo | StockOk

  /** `getStockStatus`: `Sin Stock` at 0, `Stock Bajo` up to the minimum, `Stock OK` above it. */
  function GetStockStatus(p: Product): (r: StockStatus)
  {
    if p.currentStock == 0 then SinStock else if p.currentStock <= p.minStock then StockBajo else StockOk
  }

  function StatusRank(s: StockStatus): (r: nat)
    ensures r <= 2
  {
    match s
    case SinStock => 0
    case StockBajo => 1
    case StockOk => 2
  }

  /** The status text shown in the table. */
  function StatusText(s: StockStatus): (r: string)
  {
    match s
    case SinStock => "Sin Stock"
    case StockBajo => "Stock Bajo"
    case StockOk => "Stock OK"
  }

  /** For non-negative stock, more stock never gives a worse status. */
  lemma StockStatusMonotone(p: Product, stock: int)
    requires 0 <= p.currentStock <= stock
    ensures StatusRank(GetStockStatus(p)) <= StatusRank(GetStockStatus(p.(currentStock := stock)))
    ensures GetStockStatus(p) == StockOk ==> GetStockStatus(p.(currentStock := stock)) == StockOk
  {
  }

  /** `getCategoryName`: the label of a known category, otherwise the category itself. */
  function CategoryName(category: string): (r: string)
    ensures category !in {"semillas", "fertilizantes", "herramientas", "macetas", "sustratos", "otros"} ==> r == category
    ensures category == "macetas" ==> r == "Macetas y Contenedores"
  {
    match category
    case "semillas" => "Semillas"
    case "fertilizantes" => "Fertilizantes"
    case "herramientas" => "Herramientas"
    case "macetas" => "Macetas y Contenedores"
    case "sustratos" => "Sustratos"
    case "otros" => "Otros"
    case _ => category
  }

  /** The inventory page: the ledger held in its fields. */
  class InventoryModule {
    var products: seq<Product>
    var movements: seq<Movement>
    var nextProductId: int
    var nextMovementId: int

    function State(): Ledger
      reads this
    {
      Ledger(products, movements, nextProductId, nextMovementId)
    }

    predicate Valid()
      reads this
    {
      LedgerValid(State())
    }

    constructor (savedProducts: Option<seq<Product>>, savedMovements: Option<seq<Movement>>)
      ensures State() == LoadLedger(savedProducts, savedMovements) && Valid()
    {
      var l := LoadLedger(savedProducts, savedMovements);
      products, movements, nextProductId, nextMovementId := l.products, l.movements, l.nextProductId, l.nextMovementId;
    }

    /** `handleStockMovement`: updates the product in place, prepends the movement, advances the id. */
    method HandleStockMovement(f: MovementForm, today: string, current: Option<User>) returns (out: MovementOutcome)
      requires Valid()
      modifies this
      ensures Valid()
      ensures (State(), out) == StockMovement(old(State()), f, today, CurrentUserName(current))
    {
      StockMovementKeepsValid(State(), f, today, CurrentUserName(current));
      if f.movementType == "" || Falsy(f.productId) || Falsy(f.quantity) || f.reason == "" {
        return MissingMovementFields;
      }
      var found := FindProduct(products, f.productId.value);
      if found.None? {
        return ProductNotFound;
      }
      var k := found.value;
      var q := f.quantity.value;
      if f.movementType == "salida" && q > products[k].currentStock {
        return NotEnoughStock;
      }
      products := products[k := products[k].(currentStock := NewStock(f.movementType, products[k].currentStock, q))];
      var m := Movement(nextMovementId, products[k].id, products[k].name, f.movementType, q, f.reason, today, CurrentUserName(current));
      nextMovementId := nextMovementId + 1;
      movements := [m] + movements;
      out := Recorded(m);
    }

    /** `handleAddProduct`: appends the product and, for a positive initial stock, prepends its movement. */
    method HandleAddProduct(f: ProductForm, today: string, current: Option<User>) returns (out: AddOutcome)
      requires Valid()
      modifies this
      ensures Valid()
      ensures (State(), out) == AddProduct(old(State()), f, today, CurrentUserName(current))
    {
      if f.name == "" || f.category == "" || f.unit == "" || f.unitPrice < 0.0 {
        return MissingProductFields;
      }
      if NameTakenAt(products, f.name) {
        return DuplicateName;
      }
      var p := Product(nextProductId, f.name, f.category, f.initialStock, f.minStock, f.unitPrice, f.unit);
      nextProductId := nextProductId + 1;
      products := products + [p];
      if f.initialStock > 0 {
        var m := Movement(nextMovementId, p.id, p.name, "entrada", f.initialStock, "Stock inicial", today, CurrentUserName(current));
        nextMovementId := nextMovementId + 1;
        movements := [m] + movements;
      }
      out := Added(p);
    }

    /** `editProduct`. */
    method EditProduct(productId: int, newPrice: Option<real>)
      modifies this
      ensures products == EditPrice(old(products), productId, newPrice)
      ensures movements == old(movements) && nextProductId == old(nextProductId) && nextMovementId == old(nextMovementId)
    {
      products := EditPrice(products, productId, newPrice);
    }

    /** `deleteProduct`. */
    method RemoveProduct(productId: int, confirmed: bool)
      modifies this
      ensures products == DeleteProduct(old(products), productId, confirmed)
      ensures movements == old(movements) && nextProductId == old(nextProductId) && nextMovementId == old(nextMovementId)
    {
      products := DeleteProduct(products, productId, confirmed);
    }
  }
}
