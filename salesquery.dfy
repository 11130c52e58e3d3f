/**
 * The sales search page: conjunctive filters over the recorded sales, a stable sort on a chosen
 * column with direction toggling, CSV export and HTML escaping. Amounts are integer cents.
 */
module SalesQuery {
  import opened Common
  import opened Text
  import opened Sorting

  /** One product line of a listed sale. */
  datatype SoldProduct = SoldProduct(name: string, quantity: int, price: int, subtotal: int)

  /** A sale as the search page lists it; amounts are in cents. */
  datatype Sale = Sale(
    id: int,
    date: string,
    customer: string,
    seller: string,
    products: seq<SoldProduct>,
    subtotal: int,
    tax: int,
    total: int)

  /** The sample sales the page stores when it finds none. */
  function SeedSales(): (r: seq<Sale>)
    ensures |r| == 5 && forall i :: 0 <= i < 5 ==> r[i].id == i + 1
  {
    [ Sale(1, "2024-01-15", "Juan Pérez", "Admin Usuario",
           [SoldProduct("Semillas de Tomate", 2, 1550, 3100), SoldProduct("Fertilizante Orgánico", 1, 2500, 2500)],
           5600, 1176, 6776),
      Sale(2, "2024-01-14", "María García", "Admin Usuario",
           [SoldProduct("Herramientas de Jardín", 1, 4500, 4500)],
           4500, 945, 5445),
      Sale(3, "2024-01-13", "Carlos López", "Admin Usuario",
           [SoldProduct("Semillas de Lechuga", 3, 800, 2400), SoldProduct("Sustrato para Plantas", 2, 1200, 2400)],
           4800, 1008, 5808),
      Sale(4, "2024-01-12", "Ana Martínez", "Admin Usuario",
           [SoldProduct("Macetas de Barro", 5, 850, 4250)],
           4250, 893, 5143),
      Sale(5, "2024-01-11", "Roberto Silva", "Admin Usuario",
           [SoldProduct("Semillas de Tomate", 1, 1550, 1550), SoldProduct("Regadera Metálica", 1, 1800, 1800)],
           3350, 704, 4054) ]
  }

  function ProductsSubtotal(ps: seq<SoldProduct>): int {
    if ps == [] then 0 else ps[0].subtotal + ProductsSubtotal(ps[1..])
  }

  /**
   * A sale whose figures agree: line subtotals are quantity times price and add up to the
   * subtotal, the tax is 21% of it rounded to the nearest cent, and the total is their sum.
   */
  predicate Consistent(s: Sale) {
    (forall j :: 0 <= j < |s.products| ==> s.products[j].subtotal == s.products[j].quantity * s.products[j].price)
    && ProductsSubtotal(s.products) == s.subtotal
    && -50 <= s.tax * 100 - s.subtotal * 21 <= 50
    && s.total == s.subtotal + s.tax
  }

  lemma SeedSalesConsistent()
    ensures forall i :: 0 <= i < |SeedSales()| ==> Consistent(SeedSales()[i])
  {
    var s := SeedSales();
    SubtotalOfTwo(s[0].products[0], s[0].products[1]);
    SubtotalOfOne(s[1].products[0]);
    SubtotalOfTwo(s[2].products[0], s[2].products[1]);
    SubtotalOfOne(s[3].products[0]);
    SubtotalOfTwo(s[4].products[0], s[4].products[1]);
    assert Consistent(s[0]);
    assert Consistent(s[1]);
    assert Consistent(s[2]);
    assert Consistent(s[3]);
    assert Consistent(s[4]);
  }

  lemma SubtotalOfOne(a: SoldProduct)
    ensures ProductsSubtotal([a]) == a.subtotal
  {
    assert [a][1..] == [];
  }

  lemma SubtotalOfTwo(a: SoldProduct, b: SoldProduct)
    ensures ProductsSubtotal([a, b]) == a.subtotal + b.subtotal
  {
    assert [a, b][1..] == [b];
    SubtotalOfOne(b);
  }

  // ----- filters -----

  /** The search form's criteria; `customer` is already lowercased and `maxAmount` `None` means no upper bound. */
  datatype Filters = Filters(dateFrom: string, dateTo: string, customer: string, product: string, minAmount: int, maxAmount: Option<int>)

  /**
   * `getFilters`: the texts as entered (the customer lowercased); a minimum that is missing, does
   * not parse or is 0 becomes 0, and a maximum that is missing, does not parse or is 0 becomes no bound.
   */
  function GetFilters(dateFrom: string, dateTo: string, customer: string, product: string,
                      minAmount: Option<int>, maxAmount: Option<int>): (f: Filters)
    ensures f.customer == ToLower(customer) && f.dateFrom == dateFrom && f.dateTo == dateTo && f.product == product
    ensures f.minAmount == (if minAmount.Some? then minAmount.value else 0)
    ensures f.maxAmount.None? <==> maxAmount.None? || maxAmount.value == 0
    ensures f.maxAmount.Some? ==> f.maxAmount == maxAmount
  {
    Filters(dateFrom, dateTo, ToLower(customer), product,
            if minAmount.Some? then minAmount.value else 0,
            if maxAmount.None? || maxAmount.value == 0 then None else maxAmount)
  }

  /** Some product line of the sale carries exactly this name. */
  predicate HasProduct(s: Sale, name: string) {
    exists j :: 0 <= j < |s.products| && s.products[j].name == name
  }

  /** `matchesFilters`: each check rejects the sale on its own. */
  predicate Matches(s: Sale, f: Filters) {
    !(f.dateFrom != "" && LexLess(s.date, f.dateFrom))
    && !(f.dateTo != "" && LexLess(f.dateTo, s.date))
    && !(f.customer != "" && !Contains(ToLower(s.customer), f.customer))
    && !(f.product != "" && !HasProduct(s, f.product))
    && !(s.total < f.minAmount || (f.maxAmount.Some? && s.total > f.maxAmount.value))
  }

  /**
   * A sale matches exactly when its date lies in the inclusive range (each bound only when set),
   * its lowercased customer contains the customer filter, it sold the chosen product (when one is
   * chosen), and its total lies between the minimum and the maximum.
   */
  lemma MatchesIff(s: Sale, f: Filters)
    ensures Matches(s, f) <==>
      (f.dateFrom == "" || LexLeq(f.dateFrom, s.date))
      && (f.dateTo == "" || LexLeq(s.date, f.dateTo))
      && Contains(ToLower(s.customer), f.customer)
      && (f.product == "" || HasProduct(s, f.product))
      && f.minAmount <= s.total
      && (f.maxAmount.None? || s.total <= f.maxAmount.value)
  {
    NotLexLessIff(s.date, f.dateFrom);
    NotLexLessIff(f.dateTo, s.date);
    ContainsEmpty(ToLower(s.customer));
  }

  /** An empty search form lets through every sale with a non-negative total. */
  lemma EmptyFormMatchesAll(s: Sale)
    requires s.total >= 0
    ensures Matches(s, GetFilters("", "", "", "", None, None))
  {
  }

  /** The sales that match, in their stored order (`sales.filter`). */
  function FilterSales(sales: seq<Sale>, f: Filters): (r: seq<Sale>)
    ensures forall i :: 0 <= i < |r| ==> Matches(r[i], f) && r[i] in sales
    ensures forall i :: 0 <= i < |sales| && Matches(sales[i], f) ==> sales[i] in r
  {
    Filter(sales, (s: Sale) => Matches(s, f))
  }

  /**
   * The matching sales keep their stored order: those of `a + b` are those of `a` followed by
   * those of `b`, and one sale is kept exactly when it matches.
   */
  lemma FilterSalesInOrder(a: seq<Sale>, b: seq<Sale>, x: Sale, f: Filters)
    ensures FilterSales(a + b, f) == FilterSales(a, f) + FilterSales(b, f)
    ensures FilterSales([x], f) == (if Matches(x, f) then [x] else [])
  {
    FilterConcat(a, b, (s: Sale) => Matches(s, f));
    FilterOne(x, (s: Sale) => Matches(s, f));
  }

  // ----- sorting -----

  /** The value a column's comparator reads; an unknown column reads the same value from every sale. */
  function KeyOf(field: string, s: Sale): (k: Key)
    ensures !KnownField(field) ==> k == Num(0)
    ensures field == "customer" ==> k.Str? && |k.s| == |s.customer|
    ensures field in ["products", "subtotal", "tax", "total"] ==> k.Num?
  {
    if field == "date" then Str(s.date)
    else if field == "customer" then Str(ToLower(s.customer))
    else if field == "products" then Num(|s.products|)
    else if field == "subtotal" then Num(s.subtotal)
    else if field == "tax" then Num(s.tax)
    else if field == "total" then Num(s.total)
    else Num(0)
  }

  predicate KnownField(field: string) {
    field in ["date", "customer", "products", "subtotal", "tax", "total"]
  }

  function SortKey(field: string): Sale -> Key {
    (s: Sale) => KeyOf(field, s)
  }

  /** The sort's direction: the given one, else the opposite of the current one on the same column, else ascending. */
  function ChooseDirection(currentField: string, currentDir: Direction, field: string, direction: Option<Direction>): (d: Direction)
    ensures direction.Some? ==> d == direction.value
    ensures direction.None? && field == currentField ==> d != currentDir
    ensures direction.None? && field != currentField ==> d == Asc
  {
    if direction.Some? then direction.value
    else if field == currentField then (if currentDir == Asc then Desc else Asc)
    else Asc
  }

  /** Clicking the same column twice restores the direction. */
  lemma ToggleTwice(field: string, dir: Direction)
    ensures ChooseDirection(field, ChooseDirection(field, dir, field, None), field, None) == dir
  {
  }

  /** Sorting on a column the comparator does not know leaves the results as they were. */
  lemma UnknownFieldKeepsOrder(field: string, s: seq<Sale>, dir: Direction)
    requires !KnownField(field)
    ensures SortBy(s, SortKey(field), dir) == s
  {
    SortByEqualKeys(s, SortKey(field), dir);
  }

  /** The result of a search: the matching sales, each once, ordered on the column in the direction. */
  lemma SearchResults(sales: seq<Sale>, f: Filters, field: string, dir: Direction)
    ensures var r := SortBy(FilterSales(sales, f), SortKey(field), dir);
      multiset(r) == multiset(Filter(sales, (s: Sale) => Matches(s, f)))
      && Sorted(r, SortKey(field), dir)
      && (forall i :: 0 <= i < |r| ==> Matches(r[i], f))
      && (forall i :: 0 <= i < |sales| && Matches(sales[i], f) ==> sales[i] in r)
  {
    var kept := FilterSales(sales, f);
    SortBySorted(kept, SortKey(field), dir);
    var r := SortBy(kept, SortKey(field), dir);
    forall i | 0 <= i < |r|
      ensures Matches(r[i], f)
    {
      assert r[i] in multiset(kept);
    }
    forall i | 0 <= i < |sales| && Matches(sales[i], f)
      ensures sales[i] in r
    {
      assert sales[i] in multiset(kept);
    }
  }

  // ----- product options -----

  function SaleNames(ps: seq<SoldProduct>): (r: seq<string>)
    ensures |r| == |ps| && forall j :: 0 <= j < |ps| ==> r[j] == ps[j].name
  {
    if ps == [] then [] else [ps[0].name] + SaleNames(ps[1..])
  }

  /** Every product name of every sale, in order. */
  function AllProductNames(sales: seq<Sale>): seq<string>
  {
    if sales == [] then [] else SaleNames(sales[0].products) + AllProductNames(sales[1..])
  }

  lemma {:induction false} AllProductNamesIn(sales: seq<Sale>, name: string)
    ensures name in AllProductNames(sales) <==> exists i :: 0 <= i < |sales| && HasProduct(sales[i], name)
  {
    if sales != [] {
      AllProductNamesIn(sales[1..], name);
      assert name in SaleNames(sales[0].products) <==> HasProduct(sales[0], name);
      if exists i :: 1 <= i < |sales| && HasProduct(sales[i], name) {
        var i :| 1 <= i < |sales| && HasProduct(sales[i], name);
        assert HasProduct(sales[1..][i - 1], name);
      }
      if exists i :: 0 <= i < |sales[1..]| && HasProduct(sales[1..][i], name) {
        var i :| 0 <= i < |sales[1..]| && HasProduct(sales[1..][i], name);
        assert HasProduct(sales[i + 1], name);
      }
    }
  }

  /** `loadProductsForFilter`: the sold products' names, once each, in sorted order. */
  function ProductOptions(sales: seq<Sale>): seq<string>
  {
    SortBy(Distinct(AllProductNames(sales)), (n: string) => Str(n), Asc)
  }

  /** The options are exactly the names some sale sold, strictly increasing (so without repeats). */
  lemma ProductOptionsSpec(sales: seq<Sale>)
    ensures var r := ProductOptions(sales);
      (forall name :: name in r <==> exists i :: 0 <= i < |sales| && HasProduct(sales[i], name))
      && forall i, j :: 0 <= i < j < |r| ==> LexLess(r[i], r[j])
  {
    var names := Distinct(AllProductNames(sales));
    var key := (n: string) => Str(n);
    var r := SortBy(names, key, Asc);
    forall name
      ensures name in r <==> exists i :: 0 <= i < |sales| && HasProduct(sales[i], name)
    {
      AllProductNamesIn(sales, name);
      assert name in r <==> name in multiset(names);
      if name in AllProductNames(sales) {
        var k :| 0 <= k < |AllProductNames(sales)| && AllProductNames(sales)[k] == name;
      }
    }
    SortBySorted(names, key, Asc);
    NoDupPermutation(names, r);
    forall i, j | 0 <= i < j < |r|
      ensures LexLess(r[i], r[j])
    {
      assert !KeyLess(key(r[j]), key(r[i]));
      LexLessTotal(r[i], r[j]);
    }
  }

  // ----- export -----

  /** `n.toFixed(2)` for an amount of `cents` hundredths. */
  function Fixed2(cents: int): (r: string)
  {
    var a: nat := if cents < 0 then -cents else cents;
    (if cents < 0 then "-" else "") + NatToString(a / 100) + "." + PadStart2(NatToString(a % 100))
  }

  lemma {:induction false} DigitPrefixOfDigits(d: string, t: string)
    requires forall i :: 0 <= i < |d| ==> IsDigit(d[i])
    requires t != [] && !IsDigit(t[0])
    ensures DigitPrefixLength(d + t) == |d|
  {
    if d != [] {
      assert (d + t)[1..] == d[1..] + t;
      DigitPrefixOfDigits(d[1..], t);
    } else {
      assert d + t == t;
    }
  }

  lemma NatToStringShort(n: nat)
    requires n < 100
    ensures |NatToString(n)| <= 2
  {
    if n >= 10 { assert NatToString(n) == NatToString(n / 10) + [DigitChar(n % 10)]; }
  }

  /** `parseInt` of digits followed by a point reads the digits. */
  lemma ParseIntBeforePoint(units: string, rest: string)
    requires units != [] && forall i :: 0 <= i < |units| ==> IsDigit(units[i])
    requires rest != [] && rest[0] == '.'
    ensures ParseInt(units + rest) == Some(DigitsValue(units))
  {
    var r := units + rest;
    DigitPrefixOfDigits(units, rest);
    assert r[0] == units[0] && IsDigit(r[0]);
    NoLeadingSpace(r);
    assert r[..|units|] == units;
    assert ParseDigits(r) == Some(DigitsValue(units));
    assert r[0] != '-' && r[0] != '+';
  }

  /** `parseInt` of the formatted amount gives back the whole units, and the last two characters are the cents. */
  lemma Fixed2Reads(cents: nat)
    ensures ParseInt(Fixed2(cents)) == Some(cents / 100)
    ensures var r := Fixed2(cents); |r| >= 4 && r[|r| - 3] == '.' && r[|r| - 2..] == PadStart2(NatToString(cents % 100))
  {
    var units := NatToString(cents / 100);
    var cs := PadStart2(NatToString(cents % 100));
    var rest := "." + cs;
    NatToStringShort(cents % 100);
    assert |cs| == 2;
    assert Fixed2(cents) == units + rest;
    ParseIntBeforePoint(units, rest);
    DigitsOfNat(cents / 100);
  }

  function ProductList(ps: seq<SoldProduct>): seq<string>
  {
    if ps == [] then [] else [ps[0].name + " (" + IntToString(ps[0].quantity) + ")"] + ProductList(ps[1..])
  }

  const SalesColumns: seq<string> := ["Fecha", "Cliente", "Vendedor", "Productos", "Subtotal", "IVA", "Total"]

  /** `headers.join(',')`. */
  function SalesHeader(): string {
    Join(SalesColumns, ",")
  }

  /** One CSV line of a sale: the seven columns joined by `,`. */
  function SaleRow(s: Sale): string
  {
    Join([s.date, Quote(s.customer), Quote(s.seller), Quote(Join(ProductList(s.products), "; ")),
          Fixed2(s.subtotal), Fixed2(s.tax), Fixed2(s.total)], ",")
  }

  function SaleRows(sales: seq<Sale>): (r: seq<string>)
    ensures |r| == |sales| && forall i :: 0 <= i < |sales| ==> r[i] == SaleRow(sales[i])
  {
    MapSeq(sales, SaleRow)
  }

  /** `exportToCSV`: nothing for no results, else the header and one line per listed sale, joined by new lines. */
  function SalesCsv(filtered: seq<Sale>): (r: Option<string>)
    ensures r.None? <==> filtered == []
  {
    if filtered == [] then None else Some(Join([SalesHeader()] + SaleRows(filtered), "\n"))
  }

  lemma {:induction false} NoNewlineInJoin(parts: seq<string>, sep: string)
    requires '\n' !in sep && forall i :: 0 <= i < |parts| ==> '\n' !in parts[i]
    ensures '\n' !in Join(parts, sep)
  {
    if |parts| > 1 { NoNewlineInJoin(parts[1..], sep); }
  }

  lemma NoNewlineInFixed2(c: int)
    ensures '\n' !in Fixed2(c)
  {
    var a: nat := if c < 0 then -c else c;
    assert '\n' !in NatToString(a / 100) && '\n' !in NatToString(a % 100);
  }

  lemma {:induction false} NoNewlineInProductList(ps: seq<SoldProduct>)
    requires forall j :: 0 <= j < |ps| ==> '\n' !in ps[j].name
    ensures forall i :: 0 <= i < |ProductList(ps)| ==> '\n' !in ProductList(ps)[i]
  {
    if ps != [] {
      NoNewlineInProductList(ps[1..]);
      var q := ps[0].quantity;
      assert '\n' !in IntToString(q) by {
        var a: nat := if q < 0 then -q else q;
        assert '\n' !in NatToString(a);
      }
    }
  }

  /** A sale's texts without line breaks. */
  predicate SingleLine(s: Sale) {
    '\n' !in s.customer && '\n' !in s.seller && '\n' !in s.date
    && forall j :: 0 <= j < |s.products| ==> '\n' !in s.products[j].name
  }

  lemma NoNewlineInRow(s: Sale)
    requires SingleLine(s)
    ensures '\n' !in SaleRow(s)
  {
    NoNewlineInProductList(s.products);
    NoNewlineInJoin(ProductList(s.products), "; ");
    NoNewlineInFixed2(s.subtotal);
    NoNewlineInFixed2(s.tax);
    NoNewlineInFixed2(s.total);
    var products := Join(ProductList(s.products), "; ");
    NoNewlineInQuote(s.customer);
    NoNewlineInQuote(s.seller);
    NoNewlineInQuote(products);
    var c1, c2, c3 := Quote(s.customer), Quote(s.seller), Quote(products);
    var c4, c5, c6 := Fixed2(s.subtotal), Fixed2(s.tax), Fixed2(s.total);
    var cols := [s.date, c1, c2, c3, c4, c5, c6];
    assert '\n' !in s.date && '\n' !in c1 && '\n' !in c2 && '\n' !in c3 && '\n' !in c4 && '\n' !in c5 && '\n' !in c6;
    NoNewlineInJoin(cols, ",");
  }

  lemma NoNewlineInQuote(x: string)
    requires '\n' !in x
    ensures '\n' !in Quote(x)
  {
    var q := Quote(x);
    forall i | 0 <= i < |q|
      ensures q[i] != '\n'
    {
      if 0 < i < |q| - 1 {
        assert q[i] == x[i - 1];
      }
    }
  }

  lemma RowsSingleLine(filtered: seq<Sale>)
    requires forall i :: 0 <= i < |filtered| ==> SingleLine(filtered[i])
    ensures forall i :: 0 <= i < |SaleRows(filtered)| ==> CountChar(SaleRows(filtered)[i], '\n') == 0
  {
    forall i | 0 <= i < |filtered|
      ensures CountChar(SaleRows(filtered)[i], '\n') == 0
    {
      NoNewlineInRow(filtered[i]);
      CountCharAbsent(SaleRow(filtered[i]), '\n');
    }
  }

  lemma HeaderSingleLine()
    ensures CountChar(SalesHeader(), '\n') == 0
  {
    assert forall i :: 0 <= i < |SalesColumns| ==> '\n' !in SalesColumns[i];
    NoNewlineInJoin(SalesColumns, ",");
    CountCharAbsent(SalesHeader(), '\n');
  }

  /** Sales without line breaks in their texts export as the header line and exactly one line per sale. */
  lemma SalesCsvLines(filtered: seq<Sale>)
    requires filtered != []
    requires forall i :: 0 <= i < |filtered| ==> SingleLine(filtered[i])
    ensures CountChar(SalesCsv(filtered).value, '\n') == |filtered|
  {
    var rows := SaleRows(filtered);
    var parts := [SalesHeader()] + rows;
    RowsSingleLine(filtered);
    HeaderSingleLine();
    forall i | 0 <= i < |parts|
      ensures CountChar(parts[i], '\n') == 0
    {
      if i > 0 { assert parts[i] == rows[i - 1]; }
    }
    JoinCountsSeparators(parts, '\n');
    assert SalesCsv(filtered).value == Join(parts, ['\n']);
  }

  /** The export starts with the seven-column header line. */
  lemma SalesCsvHeader(filtered: seq<Sale>)
    requires filtered != []
    ensures SalesCsv(filtered).value[..|SalesHeader()| + 1] == SalesHeader() + "\n"
  {
    var parts := [SalesHeader()] + SaleRows(filtered);
    assert Join(parts, "\n") == SalesHeader() + "\n" + Join(parts[1..], "\n");
  }

  // ----- escaping -----

  /** The entity `escapeHtml` writes for one character. */
  function EscapeChar(c: char): string {
    if c == '&' then "&amp;"
    else if c == '<' then "&lt;"
    else if c == '>' then "&gt;"
    else if c == '"' then "&quot;"
    else if c == '\'' then "&#039;"
    else [c]
  }

  /** `escapeHtml`: each of `& < > " '` replaced by its entity, every other character kept. */
  function EscapeHtml(s: string): (r: string)
    ensures forall i :: 0 <= i < |r| ==> r[i] !in "<>\"'"
  {
    if s == [] then [] else EscapeChar(s[0]) + EscapeHtml(s[1..])
  }

  /** A text without any of the five characters is left as it is. */
  lemma {:induction false} EscapePlainText(s: string)
    requires forall i :: 0 <= i < |s| ==> s[i] !in "&<>\"'"
    ensures EscapeHtml(s) == s
  {
    if s != [] {
      EscapePlainText(s[1..]);
      assert [s[0]] + s[1..] == s;
    }
  }

  predicate StartsWith(s: string, p: string) {
    |p| <= |s| && s[..|p|] == p
  }

  /** The browser's reading of the five entities back into characters. */
  function UnescapeHtml(s: string): string
    decreases |s|
  {
    if s == [] then []
    else if StartsWith(s, "&amp;") then "&" + UnescapeHtml(s[5..])
    else if StartsWith(s, "&lt;") then "<" + UnescapeHtml(s[4..])
    else if StartsWith(s, "&gt;") then ">" + UnescapeHtml(s[4..])
    else if StartsWith(s, "&quot;") then "\"" + UnescapeHtml(s[6..])
    else if StartsWith(s, "&#039;") then "'" + UnescapeHtml(s[6..])
    else [s[0]] + UnescapeHtml(s[1..])
  }

  lemma StartsWithAt(s: string, p: string, k: nat)
    requires k < |p|
    ensures StartsWith(s, p) ==> s[k] == p[k]
  {
    if StartsWith(s, p) { assert s[..|p|][k] == s[k]; }
  }

  lemma UnescapeStep(c: char, t: string)
    ensures UnescapeHtml(EscapeChar(c) + t) == [c] + UnescapeHtml(t)
  {
    var e := EscapeChar(c);
    var s := e + t;
    assert s[..|e|] == e;
    assert s[|e|..] == t;
    StartsWithAt(s, "&amp;", 0);
    StartsWithAt(s, "&lt;", 0);
    StartsWithAt(s, "&gt;", 0);
    StartsWithAt(s, "&quot;", 0);
    StartsWithAt(s, "&#039;", 0);
    if |e| > 1 {
      StartsWithAt(s, "&amp;", 1);
      StartsWithAt(s, "&lt;", 1);
      StartsWithAt(s, "&gt;", 1);
      StartsWithAt(s, "&quot;", 1);
      StartsWithAt(s, "&#039;", 1);
    }
  }

  /** Escaping loses nothing: reading the entities back gives the original text. */
  lemma {:induction false} EscapeRoundTrip(s: string)
    ensures UnescapeHtml(EscapeHtml(s)) == s
  {
    if s != [] {
      EscapeRoundTrip(s[1..]);
      UnescapeStep(s[0], EscapeHtml(s[1..]));
      assert [s[0]] + s[1..] == s;
    }
  }

  // ----- the page -----

  /** The search page: stored sales, the current results and the current sort. */
  class SalesQueryModule {
    var sales: seq<Sale>
    var filteredSales: seq<Sale>
    var sortField: string
    var sortDirection: Direction

    /** `loadSalesData`: the stored sales, or the samples when none are stored; the sort starts on the date, newest first. */
    constructor (stored: Option<seq<Sale>>)
      ensures sales == (if stored.Some? then stored.value else SeedSales())
      ensures filteredSales == [] && sortField == "date" && sortDirection == Desc
    {
      sales := if stored.Some? then stored.value else SeedSales();
      filteredSales := [];
      sortField := "date";
      sortDirection := Desc;
    }

    /** `sortResults`: records the column and direction and sorts the results in place. */
    method SortResults(field: string, direction: Option<Direction>)
      modifies this
      ensures sortField == field
      ensures sortDirection == ChooseDirection(old(sortField), old(sortDirection), field, direction)
      ensures filteredSales == SortBy(old(filteredSales), SortKey(field), sortDirection)
      ensures sales == old(sales)
    {
      var dir := ChooseDirection(sortField, sortDirection, field, direction);
      sortField, sortDirection := field, dir;
      filteredSales := SortBy(filteredSales, SortKey(field), dir);
    }

    /** `performSearch`: the matching sales, sorted again on the current column and direction. */
    method PerformSearch(f: Filters)
      modifies this
      ensures filteredSales == SortBy(FilterSales(sales, f), SortKey(sortField), sortDirection)
      ensures sales == old(sales) && sortField == old(sortField) && sortDirection == old(sortDirection)
    {
      filteredSales := FilterSales(sales, f);
      SortResults(sortField, Some(sortDirection));
    }
  }
}
