/**
 * The shared interface components: the pagination bar and its window of at most five page
 * numbers, the data table's filtered, sorted and paginated state, the single-field
 * validator and the fixed date formats.
 */
module Components {
  import opened Common
  import opened Text
  import opened Sorting

  // ----- pagination -----

  /** `Math.ceil(totalItems / itemsPerPage)`. */
  function TotalPages(items: nat, perPage: nat): (r: nat)
    requires perPage >= 1
    ensures r * perPage >= items
    ensures r == 0 || (r - 1) * perPage < items
    ensures r == 0 <==> items == 0
  {
    var r := (items + perPage - 1) / perPage;
    assert r * perPage <= items + perPage - 1 < (r + 1) * perPage;
    r
  }

  /** The first page number shown: the current page minus two, shifted back when fewer than five would show. */
  function WindowStart(total: int, current: int): (start: int)
    ensures 1 <= start
    ensures current >= 1 ==> start <= current
  {
    var start := if current - 2 > 1 then current - 2 else 1;
    var end := if total < start + 4 then total else start + 4;
    if end - start + 1 < 5 then (if end - 4 > 1 then end - 4 else 1) else start
  }

  /** The last page number shown. */
  function WindowEnd(total: int, current: int): (end: int)
    ensures end <= total && end - WindowStart(total, current) <= 4
    ensures current <= total ==> current <= end
  {
    var start := if current - 2 > 1 then current - 2 else 1;
    if total < start + 4 then total else start + 4
  }

  /** The consecutive integers from `a` to `b`. */
  function Range(a: int, b: int): (r: seq<int>)
    ensures |r| == (if a <= b then b - a + 1 else 0)
    ensures forall i :: 0 <= i < |r| ==> r[i] == a + i
    decreases b - a
  {
    if a > b then [] else [a] + Range(a + 1, b)
  }

  /** The page numbers `generatePageNumbers` emits, in order. */
  function PageNumbers(total: int, current: int): seq<int>
  {
    Range(WindowStart(total, current), WindowEnd(total, current))
  }

  /** Every page number shown exists, and they are consecutive. */
  lemma PagesInRange(total: int, current: int)
    ensures var ps := PageNumbers(total, current);
      (forall i :: 0 <= i < |ps| ==> 1 <= ps[i] <= total)
      && (forall i :: 0 < i < |ps| ==> ps[i] == ps[i - 1] + 1)
  {
  }

  /** At most five page numbers are shown. */
  lemma AtMostFive(total: int, current: int)
    ensures |PageNumbers(total, current)| <= 5
  {
  }

  /** For a current page that exists, exactly `min(5, total)` numbers are shown and the current page is one of them. */
  lemma WindowHoldsCurrent(total: int, current: int)
    requires 1 <= current <= total
    ensures |PageNumbers(total, current)| == (if total < 5 then total else 5)
    ensures current in PageNumbers(total, current)
  {
    var ps := PageNumbers(total, current);
    var s := WindowStart(total, current);
    assert s <= current <= WindowEnd(total, current);
    assert ps[current - s] == current;
  }

  /** One page link: its number and whether it is the current page. */
  datatype PageItem = PageItem(page: int, active: bool)

  /** `generatePageNumbers`: the window of page links, the current one marked active. */
  method GeneratePageNumbers(total: int, current: int) returns (items: seq<PageItem>)
    ensures |items| == |PageNumbers(total, current)|
    ensures forall i :: 0 <= i < |items| ==>
              items[i].page == PageNumbers(total, current)[i] && (items[i].active <==> items[i].page == current)
  {
    var maxVisible := 5;
    var start := if current - maxVisible / 2 > 1 then current - maxVisible / 2 else 1;
    var end := if total < start + maxVisible - 1 then total else start + maxVisible - 1;
    if end - start + 1 < maxVisible {
      start := if end - maxVisible + 1 > 1 then end - maxVisible + 1 else 1;
    }
    assert start == WindowStart(total, current) && end == WindowEnd(total, current);
    items := [];
    var i := start;
    while i <= end
      invariant start <= i <= (if end < start then start else end + 1)
      invariant |items| == i - start
      invariant forall j :: 0 <= j < |items| ==> items[j] == PageItem(start + j, start + j == current)
      decreases end - i
    {
      items := items + [PageItem(i, i == current)];
      i := i + 1;
    }
  }

  /** The links of the pagination bar. */
  datatype Link = Previous | Number(n: int) | Following

  /** The page a link asks for (`data-page`). */
  function Target(link: Link, current: int): int {
    match link
    case Previous => current - 1
    case Number(n) => n
    case Following => current + 1
  }

  /** "Previous" is disabled on the first page and "next" on the last; page numbers never are. */
  predicate Disabled(link: Link, current: int, total: int) {
    match link
    case Previous => current == 1
    case Number(_) => false
    case Following => current == total
  }

  /** The page handed to `onPageChange` by a click: only from an enabled link, a non-zero page and one other than the current. */
  function Click(link: Link, current: int, total: int): (r: Option<int>)
    ensures r.Some? <==> !Disabled(link, current, total) && Target(link, current) != 0 && Target(link, current) != current
    ensures r.Some? ==> r.value == Target(link, current)
  {
    var page := Target(link, current);
    if !Disabled(link, current, total) && page != 0 && page != current then Some(page) else None
  }

  /** Clicking any link of the bar for an existing page moves to another existing page, or nowhere. */
  lemma ClickStaysInRange(link: Link, current: int, total: int)
    requires 1 <= current <= total
    requires link.Number? ==> link.n in PageNumbers(total, current)
    ensures var r := Click(link, current, total);
      r.Some? ==> 1 <= r.value <= total && r.value != current
    ensures link == Number(current) ==> Click(link, current, total).None?
  {
    PagesInRange(total, current);
  }

  // ----- data table -----

  /** A table row: column key to cell value; a key absent from the map is `undefined`. */
  type Row = map<string, Key>

  /** `String(row[key])`. */
  function CellText(row: Row, key: string): (r: string)
    ensures key !in row ==> r == "undefined"
  {
    if key !in row then "undefined"
    else match row[key]
      case Num(n) => IntToString(n)
      case Str(s) => s
  }

  /** The value the sort compares; an absent cell compares as the empty text. */
  function CellKey(row: Row, key: string): Key {
    if key in row then row[key] else Str("")
  }

  /** Some column's text contains the lower-cased query, ignoring case. */
  predicate RowMatches(row: Row, columns: seq<string>, query: string) {
    exists i :: 0 <= i < |columns| && Contains(ToLower(CellText(row, columns[i])), ToLower(query))
  }

  /** The rows a search keeps, in the order of the unsorted data. */
  function SearchRows(data: seq<Row>, columns: seq<string>, query: string): (r: seq<Row>)
    ensures forall i :: 0 <= i < |r| ==> r[i] in data && RowMatches(r[i], columns, query)
    ensures forall i :: 0 <= i < |data| && RowMatches(data[i], columns, query) ==> data[i] in r
  {
    Filter(data, (row: Row) => RowMatches(row, columns, query))
  }

  /** An empty query keeps every row of a table that has a column. */
  lemma EmptySearchKeepsAll(data: seq<Row>, columns: seq<string>)
    requires columns != []
    ensures SearchRows(data, columns, "") == data
  {
    forall i | 0 <= i < |data|
      ensures RowMatches(data[i], columns, "")
    {
      ContainsEmpty(ToLower(CellText(data[i], columns[0])));
      assert ToLower("") == "";
    }
    FilterAll(data, (row: Row) => RowMatches(row, columns, ""));
  }

  /** The rows shown on page `page`: `slice((page-1)*n, page*n)` when paginating, else all. */
  function PageOf(rows: seq<Row>, page: int, n: nat, paginate: bool): (r: seq<Row>)
    requires page >= 1
    ensures paginate ==> |r| <= n
    ensures paginate ==> forall i :: 0 <= i < |r| ==> (page - 1) * n + i < |rows| && r[i] == rows[(page - 1) * n + i]
    ensures !paginate ==> r == rows
  {
    if !paginate then rows
    else
      var lo := if (page - 1) * n < |rows| then (page - 1) * n else |rows|;
      var hi := if page * n < |rows| then page * n else |rows|;
      assert (page - 1) * n <= page * n;
      rows[lo..hi]
  }

  lemma MulMonotone(a: int, b: int, n: nat)
    requires a <= b
    ensures a * n <= b * n
  {
  }

  lemma PageArithmetic(k: nat, n: nat)
    requires n >= 1
    ensures (k / n) * n + k % n == k && 0 <= k % n < n
    ensures ((k / n + 1) - 1) * n == (k / n) * n && (k / n + 1) * n == (k / n) * n + n
  {
  }

  /** The page of row `k` exists. */
  lemma PageExists(len: nat, n: nat, k: nat)
    requires n >= 1 && k < len
    ensures k / n + 1 <= TotalPages(len, n)
  {
    var q := k / n;
    PageArithmetic(k, n);
    var t := TotalPages(len, n);
    if t <= q {
      MulMonotone(t, q, n);
      assert false;
    }
  }

  /** Every row is shown on exactly one page: row `k` is entry `k % n` of page `k / n + 1`, an existing page. */
  lemma RowOnItsPage(rows: seq<Row>, n: nat, k: nat)
    requires n >= 1 && k < |rows|
    ensures k / n + 1 <= TotalPages(|rows|, n)
    ensures k % n < |PageOf(rows, k / n + 1, n, true)|
    ensures PageOf(rows, k / n + 1, n, true)[k % n] == rows[k]
  {
    PageExists(|rows|, n, k);
    PageArithmetic(k, n);
    var q, m := k / n, k % n;
    assert q * n + m == k && m < n;
    assert q * n <= k < |rows|;
    PageLength(rows, q + 1, n);
    var hi := if (q + 1) * n < |rows| then (q + 1) * n else |rows|;
    assert k < hi;
    assert |PageOf(rows, q + 1, n, true)| == hi - q * n > m;
    assert ((q + 1) - 1) * n + m == k;
  }

  /** A page holds the rows from `(page-1)*n` up to `page*n`, both cut at the number of rows. */
  lemma PageLength(rows: seq<Row>, page: int, n: nat)
    requires page >= 1
    ensures var lo := if (page - 1) * n < |rows| then (page - 1) * n else |rows|;
      var hi := if page * n < |rows| then page * n else |rows|;
      lo <= hi && |PageOf(rows, page, n, true)| == hi - lo
  {
    MulMonotone(page - 1, page, n);
  }

  /** The direction after clicking a column header: the same column flips it, another starts ascending. */
  function NextDirection(sortColumn: Option<string>, dir: Direction, column: string): (r: Direction)
  {
    if sortColumn == Some(column) then (if dir == Asc then Desc else Asc) else Asc
  }

  /** Clicking the same header twice restores the direction; a new header always sorts ascending. */
  lemma DirectionToggles(dir: Direction, column: string, other: string)
    requires other != column
    ensures NextDirection(Some(column), NextDirection(Some(column), dir, column), column) == dir
    ensures NextDirection(Some(column), dir, column) != dir
    ensures NextDirection(Some(other), dir, column) == Asc && NextDirection(None, dir, column) == Asc
  {
  }

  /**
   * `createDataTable`'s state: the rows after the last search, sorted by the last clicked
   * column, and the current page.
   */
  class DataTable {
    const data: seq<Row>
    const columns: seq<string>
    const itemsPerPage: nat
    const paginate: bool
    var currentPage: int
    var filteredData: seq<Row>
    var sortColumn: Option<string>
    var sortDirection: Direction

    predicate Valid()
      reads this
    {
      itemsPerPage >= 1 && currentPage >= 1
    }

    constructor (data: seq<Row>, columns: seq<string>, itemsPerPage: nat, paginate: bool)
      requires itemsPerPage >= 1
      ensures Valid()
      ensures this.data == data && this.columns == columns && this.itemsPerPage == itemsPerPage && this.paginate == paginate
      ensures currentPage == 1 && filteredData == data && sortColumn == None && sortDirection == Asc
    {
      this.data := data;
      this.columns := columns;
      this.itemsPerPage := itemsPerPage;
      this.paginate := paginate;
      currentPage := 1;
      filteredData := data;
      sortColumn := None;
      sortDirection := Asc;
    }

    /** The rows `render` shows. */
    function PageData(): (r: seq<Row>)
      requires Valid()
      reads this
      ensures r == PageOf(filteredData, currentPage, itemsPerPage, paginate)
    {
      PageOf(filteredData, currentPage, itemsPerPage, paginate)
    }

    /** The search box: the original data is filtered afresh and the first page shown. */
    method Search(query: string)
      requires Valid()
      modifies this
      ensures Valid()
      ensures filteredData == SearchRows(data, columns, query) && currentPage == 1
      ensures sortColumn == old(sortColumn) && sortDirection == old(sortDirection)
    {
      filteredData := SearchRows(data, columns, query);
      currentPage := 1;
    }

    /** A header click: the direction is toggled or reset, and the rows are sorted in place, stably. */
    method SortClick(column: string)
      requires Valid()
      modifies this
      ensures Valid()
      ensures sortColumn == Some(column)
      ensures sortDirection == NextDirection(old(sortColumn), old(sortDirection), column)
      ensures filteredData == SortBy(old(filteredData), (row: Row) => CellKey(row, column), sortDirection)
      ensures multiset(filteredData) == multiset(old(filteredData))
      ensures Sorted(filteredData, (row: Row) => CellKey(row, column), sortDirection)
      ensures currentPage == old(currentPage)
    {
      if sortColumn == Some(column) {
        sortDirection := if sortDirection == Asc then Desc else Asc;
      } else {
        sortColumn := Some(column);
        sortDirection := Asc;
      }
      SortBySorted(filteredData, (row: Row) => CellKey(row, column), sortDirection);
      filteredData := SortBy(filteredData, (row: Row) => CellKey(row, column), sortDirection);
    }

    /** A click on the pagination bar, which is drawn only when the rows do not fit on one page. */
    method PageClick(link: Link)
      requires Valid()
      requires link.Number? ==> link.n in PageNumbers(TotalPages(|filteredData|, itemsPerPage), currentPage)
      modifies this
      ensures Valid()
      ensures var total := TotalPages(|filteredData|, itemsPerPage);
        var r := Click(link, old(currentPage), total);
        currentPage == (if paginate && |filteredData| > itemsPerPage && r.Some? then r.value else old(currentPage))
      ensures filteredData == old(filteredData) && sortColumn == old(sortColumn) && sortDirection == old(sortDirection)
    {
      var total := TotalPages(|filteredData|, itemsPerPage);
      if paginate && |filteredData| > itemsPerPage {
        var r := Click(link, currentPage, total);
        if r.Some? {
          PagesInRange(total, currentPage);
          currentPage := r.value;
        }
      }
    }
  }

  // ----- field validation -----

  /**
   * The field `validateField` looks at: its value, whether it is required, its input type, and
   * the value of the field it must repeat when it names one that exists.
   */
  datatype FieldInput = FieldInput(value: string, required: bool, kind: string, confirmOf: Option<string>)

  /** The outcome: valid, or the message of the last rule that failed. */
  datatype FieldCheck = FieldCheck(valid: bool, message: string)

  const RequiredMessage := "Este campo es requerido"
  const EmailMessage := "Ingrese un email válido"
  const PasswordMessage := "La contraseña debe tener al menos 6 caracteres"
  const ConfirmMessage := "Las contraseñas no coinciden"

  /** The four rules, checked in order on the trimmed value; a later failure overwrites the message. */
  function ValidateField(f: FieldInput): (r: FieldCheck)
    ensures r.valid <==> r.message == ""
  {
    var v := Trim(f.value);
    var r := if f.required && v == "" then FieldCheck(false, RequiredMessage) else FieldCheck(true, "");
    var r := if f.kind == "email" && v != "" && !IsValidEmail(v) then FieldCheck(false, EmailMessage) else r;
    var r := if f.kind == "password" && v != "" && |v| < 6 then FieldCheck(false, PasswordMessage) else r;
    if f.confirmOf.Some? && v != f.confirmOf.value then FieldCheck(false, ConfirmMessage) else r
  }

  /** A field fails exactly when one of the four rules does. */
  lemma ValidateFieldIff(f: FieldInput)
    ensures var v := Trim(f.value);
      ValidateField(f).valid <==>
        !(f.required && IsBlank(f.value))
        && !(f.kind == "email" && v != "" && !EmailShape(v))
        && !(f.kind == "password" && v != "" && |v| < 6)
        && !(f.confirmOf.Some? && v != f.confirmOf.value)
  {
    BlankIffTrimEmpty(f.value);
    EmailIff(Trim(f.value));
  }

  /** A mismatched confirmation is the message shown, whatever else failed. */
  lemma ConfirmMessageWins(f: FieldInput)
    requires f.confirmOf.Some? && Trim(f.value) != f.confirmOf.value
    ensures ValidateField(f) == FieldCheck(false, ConfirmMessage)
  {
  }

  // ----- dates -----

  lemma PaddedDigits(n: nat)
    requires n < 100
    ensures var r := PadStart2(NatToString(n));
      |r| == 2 && IsDigit(r[0]) && IsDigit(r[1]) && DigitsValue(r) == n
  {
    var r := PadStart2(NatToString(n));
    DigitsOfNat(n);
    if n < 10 {
      assert r == "0" + NatToString(n);
      assert r[..1] == "0";
    } else {
      assert NatToString(n) == NatToString(n / 10) + [DigitChar(n % 10)];
      assert r == NatToString(n);
    }
  }

  /** A day or month number with two digits (`String(n).padStart(2, '0')`). */
  function TwoDigits(n: nat): (r: string)
    requires n < 100
    ensures |r| == 2 && IsDigit(r[0]) && IsDigit(r[1])
    ensures DigitsValue(r) == n
  {
    PaddedDigits(n);
    PadStart2(NatToString(n))
  }

  /**
   * `formatDate` for the day, month (1 to 12) and full year of a date: the three fixed layouts, or
   * `None` for the browser's locale format.
   */
  function FormatDate(day: nat, month: nat, year: int, format: string): (r: Option<string>)
    requires 1 <= day <= 31 && 1 <= month <= 12
    ensures r.Some? <==> format in {"dd/mm/yyyy", "yyyy-mm-dd", "mm/dd/yyyy"}
  {
    var d := TwoDigits(day);
    var m := TwoDigits(month);
    var y := IntToString(year);
    if format == "dd/mm/yyyy" then Some(d + "/" + m + "/" + y)
    else if format == "yyyy-mm-dd" then Some(y + "-" + m + "-" + d)
    else if format == "mm/dd/yyyy" then Some(m + "/" + d + "/" + y)
    else None
  }

  /** `t` is a run of decimal digits whose value is `v`. */
  predicate ReadsAs(t: string, v: nat) {
    (forall i :: 0 <= i < |t| ==> IsDigit(t[i])) && DigitsValue(t) == v
  }

  /** The pieces of `x`, a separator, `y`, a separator and `z` sit at their places. */
  lemma ThreePieces(x: string, c1: char, y: string, c2: char, z: string)
    ensures var s := x + [c1] + y + [c2] + z;
      |s| == |x| + |y| + |z| + 2
      && s[..|x|] == x && s[|x|] == c1 && s[|x| + 1..|x| + 1 + |y|] == y
      && s[|x| + 1 + |y|] == c2 && s[|x| + 2 + |y|..] == z
  {
  }

  /** Two padded digits read back as the number. */
  lemma TwoDigitsReads(n: nat)
    requires n < 100
    ensures ReadsAs(TwoDigits(n), n)
  {
    var r := TwoDigits(n);
    assert forall i :: 0 <= i < |r| ==> IsDigit(r[i]) by {
      assert IsDigit(r[0]) && IsDigit(r[1]);
    }
  }

  /** In `a/b/y` with two-character `a` and `b`, the pieces sit at their fixed places. */
  lemma SlashPieces(s: string, a: string, b: string, y: string)
    requires |a| == 2 && |b| == 2 && s == a + ['/'] + b + ['/'] + y
    ensures |s| == |y| + 6 && s[2] == '/' && s[5] == '/'
    ensures s[..2] == a && s[3..5] == b && s[6..] == y
  {
    ThreePieces(a, '/', b, '/', y);
  }

  /** `dd/mm/yyyy` reads back: two day digits, a slash, two month digits, a slash, the year. */
  lemma DayFirstReadsBack(day: nat, month: nat, year: int, s: string)
    requires 1 <= day <= 31 && 1 <= month <= 12
    requires FormatDate(day, month, year, "dd/mm/yyyy") == Some(s)
    ensures |s| >= 7 && s[2] == '/' && s[5] == '/'
    ensures ReadsAs(s[..2], day) && ReadsAs(s[3..5], month) && ParseInt(s[6..]) == Some(year)
  {
    var d, m, y := TwoDigits(day), TwoDigits(month), IntToString(year);
    TwoDigitsReads(day);
    TwoDigitsReads(month);
    assert s == d + ['/'] + m + ['/'] + y;
    SlashPieces(s, d, m, y);
    ParseIntOfIntToString(year);
  }

  /** `yyyy-mm-dd` reads back: the year, a dash, two month digits, a dash, two day digits. */
  lemma YearFirstReadsBack(day: nat, month: nat, year: int, s: string)
    requires 1 <= day <= 31 && 1 <= month <= 12
    requires FormatDate(day, month, year, "yyyy-mm-dd") == Some(s)
    ensures var n := |s|;
      n >= 7 && s[n - 3] == '-' && s[n - 6] == '-'
      && ReadsAs(s[n - 2..], day) && ReadsAs(s[n - 5..n - 3], month) && ParseInt(s[..n - 6]) == Some(year)
  {
    var d, m, y := TwoDigits(day), TwoDigits(month), IntToString(year);
    TwoDigitsReads(day);
    TwoDigitsReads(month);
    assert s == y + ['-'] + m + ['-'] + d;
    YearFirstPieces(s, y, m, d);
    ParseIntOfIntToString(year);
  }

  /** Counted from the end, `y-mm-dd` has the day, a dash, the month and a dash before the year. */
  lemma YearFirstPieces(s: string, y: string, m: string, d: string)
    requires |m| == 2 && |d| == 2 && s == y + ['-'] + m + ['-'] + d
    ensures |s| == |y| + 6 && s[|s| - 3] == '-' && s[|s| - 6] == '-'
    ensures s[|s| - 2..] == d && s[|s| - 5..|s| - 3] == m && s[..|s| - 6] == y
  {
    ThreePieces(y, '-', m, '-', d);
  }

  /** `mm/dd/yyyy` reads back: two month digits, a slash, two day digits, a slash, the year. */
  lemma MonthFirstReadsBack(day: nat, month: nat, year: int, s: string)
    requires 1 <= day <= 31 && 1 <= month <= 12
    requires FormatDate(day, month, year, "mm/dd/yyyy") == Some(s)
    ensures |s| >= 7 && s[2] == '/' && s[5] == '/'
    ensures ReadsAs(s[..2], month) && ReadsAs(s[3..5], day) && ParseInt(s[6..]) == Some(year)
  {
    var d, m, y := TwoDigits(day), TwoDigits(month), IntToString(year);
    TwoDigitsReads(day);
    TwoDigitsReads(month);
    assert s == m + ['/'] + d + ['/'] + y;
    SlashPieces(s, m, d, y);
    ParseIntOfIntToString(year);
  }
}
