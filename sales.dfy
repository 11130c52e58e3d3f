/**
 * The sales page: a cart holding at most one line per product, bounded by the stock the
 * inventory reports, totals with 21% tax, and the checkout that records the sale and takes
 * the sold units out of the inventory with one `salida` movement per line.
 */
module Sales {
  import opened Common
  import opened Text
  import opened Records
  import Inventory

  /** A product as the sales page sees it; `currentStock` is `None` when the source gives no stock. */
  datatype SaleProduct = SaleProduct(id: int, name: string, unit: string, defaultPrice: real, currentStock: Option<int>, category: string)

  /** An inventory product mapped to the sales page's shape. */
  function FromInventory(p: Inventory.Product): (r: SaleProduct)
    ensures r.id == p.id && r.name == p.name && r.currentStock == Some(p.currentStock) && r.defaultPrice == p.unitPrice
  {
    SaleProduct(p.id, p.name, p.unit, p.unitPrice, Some(p.currentStock), p.category)
  }

  function FromInventoryAll(ps: seq<Inventory.Product>): (r: seq<SaleProduct>)
    ensures |r| == |ps| && forall i :: 0 <= i < |ps| ==> r[i] == FromInventory(ps[i])
  {
    MapSeq(ps, FromInventory)
  }

  /**
   * `loadData`'s product list: the inventory's products when they are stored (none if they do
   * not parse), else the legacy list, else nothing.
   */
  function LoadSaleProducts(inventory: Stored<seq<Inventory.Product>>, legacy: Option<seq<SaleProduct>>): (r: seq<SaleProduct>)
    ensures inventory.Present? ==> r == FromInventoryAll(inventory.value)
    ensures inventory.Unreadable? ==> r == []
    ensures inventory.Absent? ==> r == (if legacy.Some? then legacy.value else [])
  {
    match inventory
    case Present(ps) => FromInventoryAll(ps)
    case Unreadable => []
    case Absent => if legacy.Some? then legacy.value else []
  }

  function FindSaleProduct(products: seq<SaleProduct>, id: int): (r: Option<nat>)
    ensures r.Some? ==> r.value < |products| && products[r.value].id == id
    ensures r.Some? ==> forall j :: 0 <= j < r.value ==> products[j].id != id
    ensures r.None? ==> forall j :: 0 <= j < |products| ==> products[j].id != id
  {
    FindIndex(products, (p: SaleProduct) => p.id == id)
  }

  // ----- the cart -----

  datatype CartItem = CartItem(productId: int, productName: string, unit: string, quantity: int, unitPrice: real, subtotal: real)

  /** The units of a product already in the cart, over all its lines. */
  function InCart(items: seq<CartItem>, id: int): int
  {
    if items == [] then 0 else (if items[0].productId == id then items[0].quantity else 0) + InCart(items[1..], id)
  }

  /** The index of the cart line for a product, if any (`findIndex`). */
  function FindLine(items: seq<CartItem>, id: int): (r: Option<nat>)
    ensures r.Some? ==> r.value < |items| && items[r.value].productId == id
    ensures r.Some? ==> forall j :: 0 <= j < r.value ==> items[j].productId != id
    ensures r.None? ==> forall j :: 0 <= j < |items| ==> items[j].productId != id
  {
    FindIndex(items, (it: CartItem) => it.productId == id)
  }

  /** The cart has at most one line per product. */
  predicate OneLinePerProduct(items: seq<CartItem>) {
    forall i, j :: 0 <= i < j < |items| ==> items[i].productId != items[j].productId
  }

  /** Every line's subtotal is its quantity times its unit price. */
  predicate LinesConsistent(items: seq<CartItem>) {
    forall i :: 0 <= i < |items| ==> items[i].subtotal == items[i].quantity as real * items[i].unitPrice
  }

  /** No product with a known stock has more units in the cart than that stock (each id is read from its first product). */
  predicate WithinStock(products: seq<SaleProduct>, items: seq<CartItem>) {
    forall i :: 0 <= i < |products| && FindSaleProduct(products, products[i].id) == Some(i) && products[i].currentStock.Some?
      ==> InCart(items, products[i].id) <= products[i].currentStock.value
  }

  /** One line's share of `InCart`. */
  function LineUnits(x: CartItem, id: int): int {
    if x.productId == id then x.quantity else 0
  }

  lemma {:induction false} InCartConcat(a: seq<CartItem>, b: seq<CartItem>, id: int)
    ensures InCart(a + b, id) == InCart(a, id) + InCart(b, id)
  {
    if a == [] {
      assert a + b == b;
    } else {
      assert (a + b)[1..] == a[1..] + b;
      InCartConcat(a[1..], b, id);
    }
  }

  lemma InCartSingle(x: CartItem, id: int)
    ensures InCart([x], id) == LineUnits(x, id)
  {
    assert [x][1..] == [];
  }

  lemma InCartUpdate(items: seq<CartItem>, j: nat, x: CartItem, id: int)
    requires j < |items|
    ensures InCart(items[j := x], id) == InCart(items, id) - LineUnits(items[j], id) + LineUnits(x, id)
  {
    assert items == items[..j] + [items[j]] + items[j + 1..];
    assert items[j := x] == items[..j] + [x] + items[j + 1..];
    InCartConcat(items[..j] + [items[j]], items[j + 1..], id);
    InCartConcat(items[..j], [items[j]], id);
    InCartConcat(items[..j] + [x], items[j + 1..], id);
    InCartConcat(items[..j], [x], id);
    InCartSingle(items[j], id);
    InCartSingle(x, id);
  }

  /** What the add button reads: the selected product id, the quantity and the price, `None` where they do not parse. */
  datatype AddRequest = AddRequest(productId: Option<int>, quantity: Option<int>, price: Option<real>)

  datatype CartOutcome = NoProductSelected | InvalidQuantity | InvalidPrice | UnknownProduct | InsufficientStock(available: int) | AddedToCart

  /** The units of `p` that may still go into the cart (`currentStock - inCart`). */
  function Available(p: SaleProduct, items: seq<CartItem>): (r: int)
    requires p.currentStock.Some?
    ensures r + InCart(items, p.id) == p.currentStock.value
  {
    p.currentStock.value - InCart(items, p.id)
  }

  /** A line with `q` more units, now priced at `price`. */
  function Bump(line: CartItem, q: int, price: real): (r: CartItem)
    ensures r.productId == line.productId && r.quantity == line.quantity + q && r.unitPrice == price
    ensures r.subtotal == r.quantity as real * price
  {
    line.(quantity := line.quantity + q, unitPrice := price, subtotal := (line.quantity + q) as real * price)
  }

  /** `q` units of `p` at `price` into the cart: onto the product's line, whose price becomes `price`, or as a new last line. */
  function MergeLine(items: seq<CartItem>, p: SaleProduct, q: int, price: real): (r: seq<CartItem>)
    ensures |items| <= |r| <= |items| + 1
    ensures forall j :: 0 <= j < |items| ==> r[j].productId == items[j].productId
    ensures |r| == |items| + 1 ==> r[|items|].productId == p.id && r[|items|].quantity == q
  {
    match FindLine(items, p.id)
    case Some(j) => items[j := Bump(items[j], q, price)]
    case None => items + [CartItem(p.id, p.name, p.unit, q, price, q as real * price)]
  }

  /** `addProductToSale` on the cart. */
  function AddToCart(products: seq<SaleProduct>, items: seq<CartItem>, req: AddRequest): (res: (seq<CartItem>, CartOutcome))
    ensures res.1 != AddedToCart ==> res.0 == items
    ensures res.1 == AddedToCart ==> req.quantity.Some? && req.quantity.value > 0 && |items| <= |res.0| <= |items| + 1
  {
    if Inventory.Falsy(req.productId) then (items, NoProductSelected)
    else if req.quantity.None? || req.quantity.value <= 0 then (items, InvalidQuantity)
    else if req.price.None? || req.price.value <= 0.0 then (items, InvalidPrice)
    else
      match FindSaleProduct(products, req.productId.value)
      case None => (items, UnknownProduct)
      case Some(k) =>
        if products[k].currentStock.Some? && req.quantity.value > Available(products[k], items) then
          (items, InsufficientStock(Available(products[k], items)))
        else
          (MergeLine(items, products[k], req.quantity.value, req.price.value), AddedToCart)
  }

  /** A refused request leaves the cart as it was; the first three checks are refused exactly as the page checks them. */
  lemma AddToCartRefusals(products: seq<SaleProduct>, items: seq<CartItem>, req: AddRequest)
    ensures var (items', out) := AddToCart(products, items, req);
      (out != AddedToCart ==> items' == items)
      && (out == NoProductSelected <==> Inventory.Falsy(req.productId))
      && (out == InvalidQuantity <==> !Inventory.Falsy(req.productId) && (req.quantity.None? || req.quantity.value <= 0))
      && (out == InvalidPrice <==>
            !Inventory.Falsy(req.productId) && req.quantity.Some? && req.quantity.value > 0
            && (req.price.None? || req.price.value <= 0.0))
  {
  }

  /**
   * A request passing the three checks is accepted exactly when the product is known and, if its
   * stock is known, the units fit in what the cart leaves of it; accepted requests go in by `MergeLine`.
   */
  lemma AddToCartAccepts(products: seq<SaleProduct>, items: seq<CartItem>, req: AddRequest)
    requires !Inventory.Falsy(req.productId) && req.quantity.Some? && req.quantity.value > 0
    requires req.price.Some? && req.price.value > 0.0
    ensures var (items', out) := AddToCart(products, items, req);
      var k := FindSaleProduct(products, req.productId.value);
      (out == UnknownProduct <==> k.None?)
      && (out == AddedToCart <==>
            k.Some? && (products[k.value].currentStock.Some? ==> req.quantity.value <= Available(products[k.value], items)))
      && (out == AddedToCart ==> items' == MergeLine(items, products[k.value], req.quantity.value, req.price.value))
  {
  }

  /** A product already in the cart gets its units added to its line; otherwise a line is appended. Nothing else changes. */
  lemma MergeLineShape(items: seq<CartItem>, p: SaleProduct, q: int, price: real)
    ensures var r := MergeLine(items, p, q, price);
      (forall j :: 0 <= j < |items| ==> items[j].productId != p.id) ==>
        r == items + [CartItem(p.id, p.name, p.unit, q, price, q as real * price)]
    ensures var r := MergeLine(items, p, q, price);
      forall j :: 0 <= j < |items| && items[j].productId == p.id && OneLinePerProduct(items) ==>
        r == items[j := Bump(items[j], q, price)]
  {
    forall j | 0 <= j < |items| && items[j].productId == p.id && OneLinePerProduct(items)
      ensures FindLine(items, p.id) == Some(j)
    {
      var f := FindLine(items, p.id).value;
      assert !(f < j) && !(j < f);
    }
  }

  /** The units in the cart grow by exactly `q` for the merged product, and not at all for others. */
  lemma MergeLineCounts(items: seq<CartItem>, p: SaleProduct, q: int, price: real, id: int)
    ensures InCart(MergeLine(items, p, q, price), id) == InCart(items, id) + (if id == p.id then q else 0)
  {
    match FindLine(items, p.id)
    case Some(j) =>
      InCartUpdate(items, j, Bump(items[j], q, price), id);
    case None =>
      InCartConcat(items, [CartItem(p.id, p.name, p.unit, q, price, q as real * price)], id);
      InCartSingle(CartItem(p.id, p.name, p.unit, q, price, q as real * price), id);
  }

  lemma MergeLineKeepsLines(items: seq<CartItem>, p: SaleProduct, q: int, price: real)
    requires OneLinePerProduct(items) && LinesConsistent(items)
    ensures OneLinePerProduct(MergeLine(items, p, q, price)) && LinesConsistent(MergeLine(items, p, q, price))
  {
    var r := MergeLine(items, p, q, price);
    if FindLine(items, p.id).None? {
      forall a, b | 0 <= a < b < |r|
        ensures r[a].productId != r[b].productId
      {
        if b == |items| { assert r[a] == items[a]; }
      }
    }
  }

  /** Adding to the cart keeps one line per product, consistent subtotals, and every product within its stock. */
  lemma AddToCartKeepsInvariants(products: seq<SaleProduct>, items: seq<CartItem>, req: AddRequest)
    requires OneLinePerProduct(items) && LinesConsistent(items) && WithinStock(products, items)
    ensures var items' := AddToCart(products, items, req).0;
      OneLinePerProduct(items') && LinesConsistent(items') && WithinStock(products, items')
  {
    var (items', out) := AddToCart(products, items, req);
    if out == AddedToCart {
      var k := FindSaleProduct(products, req.productId.value).value;
      var q := req.quantity.value;
      assert items' == MergeLine(items, products[k], q, req.price.value);
      MergeLineKeepsLines(items, products[k], q, req.price.value);
      forall i | 0 <= i < |products| && FindSaleProduct(products, products[i].id) == Some(i) && products[i].currentStock.Some?
        ensures InCart(items', products[i].id) <= products[i].currentStock.value
      {
        MergeLineCounts(items, products[k], q, req.price.value, products[i].id);
        if products[i].id == products[k].id {
          assert i == k;
        }
      }
    }
  }

  /** Every line holds a positive quantity. */
  predicate QuantitiesPositive(items: seq<CartItem>) {
    forall i :: 0 <= i < |items| ==> items[i].quantity > 0
  }

  /** Adding to the cart keeps every line's quantity positive: a new line holds an accepted positive quantity, a merged one grows. */
  lemma AddToCartKeepsQuantitiesPositive(products: seq<SaleProduct>, items: seq<CartItem>, req: AddRequest)
    requires QuantitiesPositive(items)
    ensures QuantitiesPositive(AddToCart(products, items, req).0)
  {
    var (items', out) := AddToCart(products, items, req);
    if out == AddedToCart {
      var k := FindSaleProduct(products, req.productId.value).value;
      assert items' == MergeLine(items, products[k], req.quantity.value, req.price.value);
      if FindLine(items, products[k].id).None? {
        assert forall i :: 0 <= i < |items| ==> items'[i] == items[i];
      }
    }
  }

  /** Removing a line keeps every remaining line's quantity positive. */
  lemma RemoveLineKeepsQuantitiesPositive(items: seq<CartItem>, index: int)
    requires QuantitiesPositive(items)
    ensures QuantitiesPositive(RemoveLine(items, index))
  {
    var i := SpliceStart(|items|, index);
    if i < |items| {
      var r := items[..i] + items[i + 1..];
      assert RemoveLine(items, index) == r;
      assert forall a :: 0 <= a < |r| ==> r[a] == items[if a < i then a else a + 1];
    }
  }

  /** Where `splice` starts: a negative index counts from the end, and one before the start is clamped to 0. */
  function SpliceStart(n: nat, index: int): (i: int)
    ensures 0 <= i
    ensures index >= 0 ==> i == index
    ensures index < 0 && n + index >= 0 ==> i == n + index
    ensures n + index < 0 ==> i == 0
  {
    if index >= 0 then index else if n + index < 0 then 0 else n + index
  }

  /**
   * `splice(index, 1)`: a negative index counts from the end, an index before the start removes
   * the first line, and an index past the end removes nothing.
   */
  function RemoveLine(items: seq<CartItem>, index: int): (r: seq<CartItem>)
    ensures 0 <= index < |items| ==> r == items[..index] + items[index + 1..]
    ensures -|items| <= index < 0 ==> r == items[..|items| + index] + items[|items| + index + 1..]
    ensures index < -|items| && items != [] ==> r == items[1..]
    ensures index >= |items| || items == [] ==> r == items
  {
    var i := SpliceStart(|items|, index);
    if i < |items| then items[..i] + items[i + 1..] else items
  }

  /** Removing the line at `i` takes exactly that line's units out of the cart. */
  lemma RemoveAtCounts(items: seq<CartItem>, i: nat, id: int)
    requires i < |items|
    ensures InCart(items[..i] + items[i + 1..], id) == InCart(items, id) - LineUnits(items[i], id)
  {
    assert items == items[..i] + [items[i]] + items[i + 1..];
    InCartConcat(items[..i] + [items[i]], items[i + 1..], id);
    InCartConcat(items[..i], [items[i]], id);
    InCartConcat(items[..i], items[i + 1..], id);
    InCartSingle(items[i], id);
  }

  lemma RemoveAtKeepsLines(items: seq<CartItem>, i: nat)
    requires i < |items| && OneLinePerProduct(items) && LinesConsistent(items)
    ensures OneLinePerProduct(items[..i] + items[i + 1..]) && LinesConsistent(items[..i] + items[i + 1..])
  {
    var r := items[..i] + items[i + 1..];
    assert forall a :: 0 <= a < |r| ==> r[a] == items[if a < i then a else a + 1];
  }

  /** Removing a line (with non-negative quantities) keeps one line per product, consistent subtotals and every product within stock. */
  lemma RemoveLineKeepsInvariants(products: seq<SaleProduct>, items: seq<CartItem>, index: int)
    requires OneLinePerProduct(items) && LinesConsistent(items) && WithinStock(products, items)
    requires forall i :: 0 <= i < |items| ==> items[i].quantity >= 0
    ensures var items' := RemoveLine(items, index);
      OneLinePerProduct(items') && LinesConsistent(items') && WithinStock(products, items')
  {
    var i := SpliceStart(|items|, index);
    var r := RemoveLine(items, index);
    if i < |items| {
      assert r == items[..i] + items[i + 1..];
      RemoveAtKeepsInvariants(products, items, i);
    } else {
      assert r == items;
    }
  }

  lemma RemoveAtKeepsInvariants(products: seq<SaleProduct>, items: seq<CartItem>, i: nat)
    requires i < |items|
    requires OneLinePerProduct(items) && LinesConsistent(items) && WithinStock(products, items)
    requires forall i :: 0 <= i < |items| ==> items[i].quantity >= 0
    ensures var items' := items[..i] + items[i + 1..];
      OneLinePerProduct(items') && LinesConsistent(items') && WithinStock(products, items')
  {
    RemoveAtKeepsLines(items, i);
    forall id: int
      ensures InCart(items[..i] + items[i + 1..], id) <= InCart(items, id)
    {
      RemoveAtCounts(items, i, id);
    }
  }

  /** `Math.max(0, x)`. */
  function Max0(x: int): (r: int)
    ensures r >= 0 && r >= x && (r == 0 || r == x)
  {
    if x > 0 then x else 0
  }

  /** The stock shown next to a product in the selector: its stock less what the cart holds, never below 0. */
  function EffectiveStock(p: SaleProduct, items: seq<CartItem>): (r: Option<int>)
    ensures r.Some? <==> p.currentStock.Some?
    ensures r.Some? ==> var x := p.currentStock.value - InCart(items, p.id);
              r.value >= 0 && r.value >= x && (r.value == 0 || r.value == x)
  {
    if p.currentStock.Some? then Some(Max0(p.currentStock.value - InCart(items, p.id))) else None
  }

  /** While the cart is within stock, a request is refused for lack of stock exactly when it exceeds the stock shown. */
  lemma StockRefusalMatchesShownStock(products: seq<SaleProduct>, items: seq<CartItem>, req: AddRequest)
    requires WithinStock(products, items)
    requires !Inventory.Falsy(req.productId) && req.quantity.Some? && req.quantity.value > 0
    requires req.price.Some? && req.price.value > 0.0
    requires FindSaleProduct(products, req.productId.value).Some?
    ensures var p := products[FindSaleProduct(products, req.productId.value).value];
      p.currentStock.Some? ==>
        (AddToCart(products, items, req).1.InsufficientStock? <==> req.quantity.value > EffectiveStock(p, items).value)
  {
    var k := FindSaleProduct(products, req.productId.value).value;
    var p := products[k];
    if p.currentStock.Some? {
      assert FindSaleProduct(products, p.id) == Some(k);
      assert InCart(items, p.id) <= p.currentStock.value;
      assert EffectiveStock(p, items).value == Available(p, items);
    }
  }

  // ----- totals -----

  /** The sum of the line subtotals (`reduce`). */
  function Subtotal(items: seq<CartItem>): real {
    if items == [] then 0.0 else items[0].subtotal + Subtotal(items[1..])
  }

  /** A cart whose line subtotals are all non-negative has a non-negative subtotal. */
  lemma {:induction false} SubtotalNonNegative(items: seq<CartItem>)
    requires forall i :: 0 <= i < |items| ==> items[i].subtotal >= 0.0
    ensures Subtotal(items) >= 0.0
  {
    if items != [] {
      SubtotalNonNegative(items[1..]);
    }
  }

  /** 21% IVA: never negative and never more than the subtotal it is charged on. */
  function Tax(subtotal: real): (t: real)
    ensures subtotal >= 0.0 ==> 0.0 <= t <= subtotal
    ensures subtotal > 0.0 ==> 0.0 < t < subtotal
  {
    subtotal * 0.21
  }

  /** The subtotal with its tax: 121% of the subtotal. */
  function Total(subtotal: real): (t: real)
    ensures t == subtotal * 121.0 / 100.0
    ensures subtotal >= 0.0 ==> subtotal <= t
  {
    subtotal + Tax(subtotal)
  }

  lemma {:induction false} SubtotalConcat(a: seq<CartItem>, b: seq<CartItem>)
    ensures Subtotal(a + b) == Subtotal(a) + Subtotal(b)
  {
    if a == [] {
      assert a + b == b;
    } else {
      assert (a + b)[1..] == a[1..] + b;
      SubtotalConcat(a[1..], b);
    }
  }

  /** Removing a line lowers the subtotal by exactly that line's subtotal. */
  lemma RemoveLineSubtotal(items: seq<CartItem>, i: nat)
    requires i < |items|
    ensures Subtotal(RemoveLine(items, i)) == Subtotal(items) - items[i].subtotal
  {
    RemoveAtSubtotal(items, i);
  }

  lemma RemoveAtSubtotal(items: seq<CartItem>, i: nat)
    requires i < |items|
    ensures Subtotal(items[..i] + items[i + 1..]) == Subtotal(items) - items[i].subtotal
  {
    var front, back := items[..i + 1], items[i + 1..];
    assert items == front + back;
    assert front == items[..i] + [items[i]];
    SubtotalConcat(front, back);
    SubtotalConcat(items[..i], [items[i]]);
    SubtotalConcat(items[..i], back);
    assert Subtotal([items[i]]) == items[i].subtotal by {
      assert [items[i]][1..] == [];
    }
  }

  /** A new line raises the subtotal by its quantity times its price. */
  lemma AppendLineSubtotal(items: seq<CartItem>, x: CartItem)
    requires x.subtotal == x.quantity as real * x.unitPrice
    ensures Subtotal(items + [x]) == Subtotal(items) + x.quantity as real * x.unitPrice
  {
    SubtotalConcat(items, [x]);
    assert Subtotal([x]) == x.subtotal by {
      assert [x][1..] == [];
    }
  }

  // ----- checkout -----

  const SaleRequired: seq<string> := ["saleDate", "customerName", "paymentMethod"]

  /** A date (`yyyy-mm-dd`) later than today, compared as the strings are. */
  predicate AfterToday(date: string, today: string) {
    LexLess(today, date)
  }

  /** `validateSaleForm`: the three required fields are present and the sale date is not in the future. */
  predicate SaleFormValid(form: Form, today: string) {
    (forall i :: 0 <= i < |SaleRequired| ==> !Missing(form, SaleRequired[i]))
    && !(Field(form, "saleDate") != "" && AfterToday(Field(form, "saleDate"), today))
  }

  datatype Sale = Sale(
    id: int,
    fields: Form,
    items: seq<CartItem>,
    subtotal: real,
    tax: real,
    total: real,
    createdAt: string,
    createdBy: Option<string>)

  function SaleIds(s: seq<Sale>): seq<int> {
    MapSeq(s, (x: Sale) => x.id)
  }

  /** `generateSaleId`: one more than the largest id (or 1). */
  function GenerateSaleId(sales: seq<Sale>): (id: int)
    ensures id >= 1 && forall i :: 0 <= i < |sales| ==> sales[i].id < id
  {
    NextId(SaleIds(sales))
  }

  /** The inventory as checkout reads it from storage, with the next movement id it computes. */
  datatype InvState = InvState(products: seq<Inventory.Product>, movements: seq<Inventory.Movement>, nextId: int)

  /** The first id checkout hands out: one more than the largest stored movement id, or 1 when there is none. */
  function FirstMovementId(movements: seq<Inventory.Movement>): (id: int)
    ensures forall i :: 0 <= i < |movements| ==> movements[i].id < id
  {
    if |movements| == 0 then 1 else SeqMax(Inventory.MovementIds(movements)) + 1
  }

  /** One cart line taken out of the inventory: the product's stock drops (not below 0) and a `salida`/`Venta` movement is prepended. */
  function ApplyLine(s: InvState, item: CartItem, today: string, user: string): (r: InvState)
    ensures |r.products| == |s.products|
  {
    match Inventory.FindProduct(s.products, item.productId)
    case None => s
    case Some(k) =>
      var p := s.products[k];
      InvState(s.products[k := p.(currentStock := Max0(p.currentStock - item.quantity))],
               [Inventory.Movement(s.nextId, p.id, p.name, "salida", item.quantity, "Venta", today, user)] + s.movements,
               s.nextId + 1)
  }

  /** The lines taken out one after the other, in cart order. */
  function ApplyLines(s: InvState, items: seq<CartItem>, today: string, user: string): (r: InvState)
    ensures |r.products| == |s.products|
    decreases |items|
  {
    if items == [] then s else ApplyLines(ApplyLine(s, items[0], today, user), items[1..], today, user)
  }

  /** Stocks are non-negative. */
  predicate StocksNonNegative(ps: seq<Inventory.Product>) {
    forall i :: 0 <= i < |ps| ==> ps[i].currentStock >= 0
  }

  /**
   * Checkout never makes a stock negative, never raises one (for non-negative quantities), and
   * changes neither the products' ids and names nor their number.
   */
  lemma {:induction false} ApplyLinesStocks(s: InvState, items: seq<CartItem>, today: string, user: string)
    requires StocksNonNegative(s.products)
    requires forall i :: 0 <= i < |items| ==> items[i].quantity >= 0
    ensures var r := ApplyLines(s, items, today, user);
      StocksNonNegative(r.products)
      && forall i :: 0 <= i < |s.products| ==>
           r.products[i].currentStock <= s.products[i].currentStock
           && r.products[i].id == s.products[i].id && r.products[i].name == s.products[i].name
    decreases |items|
  {
    if items != [] {
      var s1 := ApplyLine(s, items[0], today, user);
      assert forall i :: 0 <= i < |s.products| ==>
               s1.products[i].currentStock <= s.products[i].currentStock
               && s1.products[i].id == s.products[i].id && s1.products[i].name == s.products[i].name;
      ApplyLinesStocks(s1, items[1..], today, user);
    }
  }

  /** A `salida`/`Venta` movement. */
  predicate SaleMovement(m: Inventory.Movement) {
    m.movementType == "salida" && m.reason == "Venta"
  }

  /** One line either finds no product and changes nothing, or prepends one `salida`/`Venta` movement carrying the next id. */
  lemma ApplyLineMovement(s: InvState, item: CartItem, today: string, user: string)
    ensures var r := ApplyLine(s, item, today, user);
      (r.nextId == s.nextId && r.movements == s.movements)
      || (r.nextId == s.nextId + 1 && |r.movements| == |s.movements| + 1 && r.movements[1..] == s.movements
          && SaleMovement(r.movements[0]) && r.movements[0].id == s.nextId && r.movements[0].quantity == item.quantity)
  {
  }

  /** Checkout keeps the stored movements and puts at most one new movement per line in front of them. */
  lemma {:induction false} ApplyLinesKeepsMovements(s: InvState, items: seq<CartItem>, today: string, user: string)
    ensures var r := ApplyLines(s, items, today, user);
      0 <= r.nextId - s.nextId <= |items| && |r.movements| == |s.movements| + (r.nextId - s.nextId)
      && r.movements[r.nextId - s.nextId..] == s.movements
    decreases |items|
  {
    if items != [] {
      var s1 := ApplyLine(s, items[0], today, user);
      ApplyLineMovement(s, items[0], today, user);
      ApplyLinesKeepsMovements(s1, items[1..], today, user);
      var r := ApplyLines(s1, items[1..], today, user);
      if s1.nextId == s.nextId + 1 {
        var n1 := r.nextId - s1.nextId;
        assert r.movements[n1 + 1..] == r.movements[n1..][1..];
      }
    }
  }

  /**
   * The movements checkout puts in front are all `salida`/`Venta`, with consecutive ids from the
   * first free one: the newest carries the largest id.
   */
  lemma {:induction false} ApplyLinesMovements(s: InvState, items: seq<CartItem>, today: string, user: string)
    ensures var r := ApplyLines(s, items, today, user);
      forall i :: 0 <= i < r.nextId - s.nextId && i < |r.movements| ==> SaleMovement(r.movements[i]) && r.movements[i].id == r.nextId - 1 - i
    decreases |items|
  {
    ApplyLinesKeepsMovements(s, items, today, user);
    if items != [] {
      var s1 := ApplyLine(s, items[0], today, user);
      ApplyLineMovement(s, items[0], today, user);
      ApplyLinesMovements(s1, items[1..], today, user);
      ApplyLinesKeepsMovements(s1, items[1..], today, user);
      var r := ApplyLines(s1, items[1..], today, user);
      var n1 := r.nextId - s1.nextId;
      forall i | 0 <= i < r.nextId - s.nextId && i < |r.movements|
        ensures SaleMovement(r.movements[i]) && r.movements[i].id == r.nextId - 1 - i
      {
        if i >= n1 {
          assert s1.nextId == s.nextId + 1 && i == n1;
          assert r.movements[n1] == r.movements[n1..][0] == s1.movements[0];
        }
      }
    }
  }

  /** Product `k` is the first with its id: the one `find` returns for that id. */
  predicate FirstWithId(ps: seq<Inventory.Product>, k: nat)
    requires k < |ps|
  {
    forall j :: 0 <= j < k ==> ps[j].id != ps[k].id
  }

  /** The units in the cart are not negative when every line's quantity is positive. */
  lemma {:induction false} InCartNonNegative(items: seq<CartItem>, id: int)
    requires forall i :: 0 <= i < |items| ==> items[i].quantity > 0
    ensures InCart(items, id) >= 0
  {
    if items != [] {
      InCartNonNegative(items[1..], id);
    }
  }

  /** One line lowers (not below 0) the stock of the first product with its id, and changes no other product and no id. */
  lemma ApplyLineExact(s: InvState, item: CartItem, today: string, user: string, k: nat)
    requires k < |s.products|
    ensures var r := ApplyLine(s, item, today, user);
      var p := s.products[k];
      r.products[k] == p.(currentStock := if FirstWithId(s.products, k) && p.id == item.productId
                                          then Max0(p.currentStock - item.quantity) else p.currentStock)
      && forall i :: 0 <= i < |s.products| ==> r.products[i].id == s.products[i].id
  {
    var found := Inventory.FindProduct(s.products, item.productId);
    if found.Some? && found.value != k && FirstWithId(s.products, k) && s.products[k].id == item.productId {
      assert false;
    }
  }

  /**
   * For any cart whose quantities are positive (as `AddToCart` makes them), checkout lowers the
   * stock of each product that is the first with its id and has units in the cart by all of those
   * units, never below 0; every other product, and every other field, stays as it was.
   */
  lemma {:induction false} ApplyLinesExact(s: InvState, items: seq<CartItem>, today: string, user: string)
    requires QuantitiesPositive(items)
    ensures var r := ApplyLines(s, items, today, user);
      forall k :: 0 <= k < |s.products| ==>
        r.products[k] == s.products[k].(currentStock := NewStock(s.products, k, InCart(items, s.products[k].id)))
    decreases |items|
  {
    if items != [] {
      var s1 := ApplyLine(s, items[0], today, user);
      var rest := items[1..];
      ApplyLinesExact(s1, rest, today, user);
      forall k | 0 <= k < |s.products|
        ensures ApplyLines(s, items, today, user).products[k]
                == s.products[k].(currentStock := NewStock(s.products, k, InCart(items, s.products[k].id)))
      {
        ApplyLineStep(s, items, today, user, k);
      }
    }
  }

  /** The stock checkout leaves to product `k` when `units` of its id are in the cart. */
  function NewStock(ps: seq<Inventory.Product>, k: nat, units: int): int
    requires k < |ps|
  {
    if FirstWithId(ps, k) && units > 0 then Max0(ps[k].currentStock - units) else ps[k].currentStock
  }

  /** The first line's effect on product `k` composes with the stock left by the remaining lines. */
  lemma ApplyLineStep(s: InvState, items: seq<CartItem>, today: string, user: string, k: nat)
    requires items != [] && k < |s.products|
    requires forall i :: 0 <= i < |items| ==> items[i].quantity > 0
    requires var s1 := ApplyLine(s, items[0], today, user);
      var r := ApplyLines(s1, items[1..], today, user);
      forall k :: 0 <= k < |s1.products| ==>
        r.products[k] == s1.products[k].(currentStock := NewStock(s1.products, k, InCart(items[1..], s1.products[k].id)))
    ensures ApplyLines(s, items, today, user).products[k]
            == s.products[k].(currentStock := NewStock(s.products, k, InCart(items, s.products[k].id)))
  {
    var s1 := ApplyLine(s, items[0], today, user);
    var rest := items[1..];
    ApplyLineExact(s, items[0], today, user, k);
    var p := s.products[k];
    assert s1.products[k].id == p.id;
    assert FirstWithId(s1.products, k) == FirstWithId(s.products, k);
    InCartNonNegative(rest, p.id);
    assert InCart(items, p.id) == LineUnits(items[0], p.id) + InCart(rest, p.id);
  }

  /** A single line for a product with enough stock takes exactly its quantity out. */
  lemma SingleLineExact(s: InvState, item: CartItem, today: string, user: string, k: nat)
    requires k < |s.products| && s.products[k].id == item.productId
    requires forall j :: 0 <= j < k ==> s.products[j].id != item.productId
    requires 0 <= item.quantity <= s.products[k].currentStock
    ensures ApplyLines(s, [item], today, user).products[k].currentStock == s.products[k].currentStock - item.quantity
  {
    var found := Inventory.FindProduct(s.products, item.productId);
    assert found == Some(k);
    assert [item][1..] == [];
  }

  /** All of the sales page's state. */
  datatype SalesState = SalesState(
    sales: seq<Sale>,
    products: seq<SaleProduct>,
    items: seq<CartItem>,
    invProducts: seq<Inventory.Product>,
    invMovements: seq<Inventory.Movement>)

  datatype CheckoutOutcome = InvalidSaleForm | EmptyCart | SaleRegistered(sale: Sale)

  /** The account named on the sale (`getCurrentUser()?.username`). */
  function CreatedBy(current: Option<User>): (r: Option<string>)
    ensures r.Some? <==> current.Some?
  {
    if current.Some? then Some(current.value.username) else None
  }

  /** `handleSaleSubmit` on the page's state. */
  function Checkout(st: SalesState, form: Form, today: string, now: string, current: Option<User>): (res: (SalesState, CheckoutOutcome))
    ensures !res.1.SaleRegistered? ==> res.0 == st
    ensures res.1.SaleRegistered? ==>
              st.items != [] && res.1.sale.items == st.items && res.0.items == [] && res.0.sales == [res.1.sale] + st.sales
  {
    if !SaleFormValid(form, today) then (st, InvalidSaleForm)
    else if st.items == [] then (st, EmptyCart)
    else
      var sub := Subtotal(st.items);
      var sale := Sale(GenerateSaleId(st.sales), form, st.items, sub, Tax(sub), Total(sub), now, CreatedBy(current));
      var inv := ApplyLines(InvState(st.invProducts, st.invMovements, FirstMovementId(st.invMovements)),
                            st.items, today, Inventory.CurrentUserName(current));
      (SalesState([sale] + st.sales, FromInventoryAll(inv.products), [], inv.products, inv.movements), SaleRegistered(sale))
  }

  /**
   * Checkout is refused, with nothing changed, for an invalid form or an empty cart. Otherwise
   * the sale, carrying the next sale id, the cart's lines and its totals, is put first, the cart
   * is emptied, and the page's products are re-read from the updated inventory.
   */
  lemma CheckoutEffect(st: SalesState, form: Form, today: string, now: string, current: Option<User>)
    ensures var (st', out) := Checkout(st, form, today, now, current);
      (!out.SaleRegistered? ==> st' == st)
      && (out == InvalidSaleForm <==> !SaleFormValid(form, today))
      && (out == EmptyCart <==> SaleFormValid(form, today) && st.items == [])
      && (out.SaleRegistered? ==>
            st'.sales == [out.sale] + st.sales
            && (forall i :: 0 <= i < |st.sales| ==> st.sales[i].id < out.sale.id)
            && out.sale.items == st.items && out.sale.subtotal == Subtotal(st.items)
            && out.sale.total == out.sale.subtotal * 121.0 / 100.0
            && st'.items == [] && st'.products == FromInventoryAll(st'.invProducts)
            && |st'.invProducts| == |st.invProducts|)
  {
  }

  /**
   * After a registered sale, each inventory product that is the first with its id and is in the
   * cart has lost all its cart units (never below 0); every other inventory product is as it was.
   */
  lemma CheckoutStocks(st: SalesState, form: Form, today: string, now: string, current: Option<User>)
    requires QuantitiesPositive(st.items)
    ensures var (st', out) := Checkout(st, form, today, now, current);
      out.SaleRegistered? ==>
        |st'.invProducts| == |st.invProducts|
        && forall k :: 0 <= k < |st.invProducts| ==>
             st'.invProducts[k] == st.invProducts[k].(currentStock := NewStock(st.invProducts, k, InCart(st.items, st.invProducts[k].id)))
  {
    ApplyLinesExact(InvState(st.invProducts, st.invMovements, FirstMovementId(st.invMovements)),
                    st.items, today, Inventory.CurrentUserName(current));
  }

  /** The sales page. */
  class SalesModule {
    var sales: seq<Sale>
    var products: seq<SaleProduct>
    var items: seq<CartItem>
    var invProducts: seq<Inventory.Product>
    var invMovements: seq<Inventory.Movement>

    function State(): SalesState
      reads this
    {
      SalesState(sales, products, items, invProducts, invMovements)
    }

    /** `loadData`. */
    constructor (savedSales: Option<seq<Sale>>, inventory: Stored<seq<Inventory.Product>>, legacy: Option<seq<SaleProduct>>,
                 storedMovements: seq<Inventory.Movement>)
      ensures sales == (if savedSales.Some? then savedSales.value else [])
      ensures products == LoadSaleProducts(inventory, legacy) && items == []
      ensures invProducts == (if inventory.Present? then inventory.value else []) && invMovements == storedMovements
    {
      sales := if savedSales.Some? then savedSales.value else [];
      products := LoadSaleProducts(inventory, legacy);
      items := [];
      invProducts := if inventory.Present? then inventory.value else [];
      invMovements := storedMovements;
    }

    /** `addProductToSale`: updates the product's line in place or pushes a new one. */
    method AddProductToSale(req: AddRequest) returns (out: CartOutcome)
      modifies this
      ensures (items, out) == AddToCart(old(products), old(items), req)
      ensures sales == old(sales) && products == old(products)
      ensures invProducts == old(invProducts) && invMovements == old(invMovements)
    {
      if Inventory.Falsy(req.productId) {
        return NoProductSelected;
      }
      if req.quantity.None? || req.quantity.value <= 0 {
        return InvalidQuantity;
      }
      if req.price.None? || req.price.value <= 0.0 {
        return InvalidPrice;
      }
      var q, price := req.quantity.value, req.price.value;
      var found := FindSaleProduct(products, req.productId.value);
      if found.None? {
        return UnknownProduct;
      }
      var p := products[found.value];
      if p.currentStock.Some? && q > Available(p, items) {
        return InsufficientStock(Available(p, items));
      }
      var cart := items;
      var line := FindLine(cart, p.id);
      if line.Some? {
        var j := line.value;
        items := cart[j := Bump(cart[j], q, price)];
      } else {
        items := cart + [CartItem(p.id, p.name, p.unit, q, price, q as real * price)];
        MergeLineShape(cart, p, q, price);
      }
      assert items == MergeLine(cart, p, q, price);
      out := AddedToCart;
    }

    /** `removeProductFromSale`. */
    method RemoveProductFromSale(index: int)
      modifies this
      ensures items == RemoveLine(old(items), index)
      ensures sales == old(sales) && products == old(products)
      ensures invProducts == old(invProducts) && invMovements == old(invMovements)
    {
      items := RemoveLine(items, index);
    }

    /** The required-field loop and the date rule of `validateSaleForm`. */
    static method ValidateSaleForm(form: Form, today: string) returns (valid: bool)
      ensures valid <==> SaleFormValid(form, today)
    {
      var flagged;
      valid, flagged := CheckRequired(form, SaleRequired);
      var date := Field(form, "saleDate");
      if date != "" && AfterToday(date, today) {
        valid := false;
      }
    }

    /** The checkout's inventory loop: one pass over the sold lines, in order. */
    method DecrementInventory(lines: seq<CartItem>, today: string, user: string)
      modifies this
      ensures var r := ApplyLines(InvState(old(invProducts), old(invMovements), FirstMovementId(old(invMovements))), lines, today, user);
        invProducts == r.products && invMovements == r.movements
      ensures sales == old(sales) && products == old(products) && items == old(items)
    {
      var ps, ms, next := invProducts, invMovements, FirstMovementId(invMovements);
      ghost var goal := ApplyLines(InvState(ps, ms, next), lines, today, user);
      var i := 0;
      while i < |lines|
        invariant 0 <= i <= |lines|
        invariant ApplyLines(InvState(ps, ms, next), lines[i..], today, user) == goal
      {
        assert lines[i..][1..] == lines[i + 1..];
        var found := Inventory.FindProduct(ps, lines[i].productId);
        if found.Some? {
          var k := found.value;
          var p := ps[k];
          ps := ps[k := p.(currentStock := Max0(p.currentStock - lines[i].quantity))];
          ms := [Inventory.Movement(next, p.id, p.name, "salida", lines[i].quantity, "Venta", today, user)] + ms;
          next := next + 1;
        }
        i := i + 1;
      }
      invProducts, invMovements := ps, ms;
    }

    /** `handleSaleSubmit`. */
    method HandleSaleSubmit(form: Form, today: string, now: string, current: Option<User>) returns (out: CheckoutOutcome)
      modifies this
      ensures (State(), out) == Checkout(old(State()), form, today, now, current)
    {
      var valid := ValidateSaleForm(form, today);
      if !valid {
        return InvalidSaleForm;
      }
      if items == [] {
        return EmptyCart;
      }
      var sub := Subtotal(items);
      var sale := Sale(GenerateSaleId(sales), form, items, sub, Tax(sub), Total(sub), now, CreatedBy(current));
      sales := [sale] + sales;
      DecrementInventory(sale.items, today, Inventory.CurrentUserName(current));
      products := FromInventoryAll(invProducts);
      items := [];
      out := SaleRegistered(sale);
    }
  }
}
