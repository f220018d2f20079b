/** The running application: the two CSV files it keeps on disk, the cart of
    the POS tab (main.py:79) and the product dict of the Products tab
    (main.py:334), together with the event handlers that change them. The
    clock, the text fields and the dropdowns are parameters of the handlers;
    what the handlers draw on the page is left out, except the values they
    compute for it. */
module Till {
  import opened Wrappers
  import opened Text
  import opened Tally
  import opened Cart
  import opened Catalog
  import opened Ledger
  import opened History
  import opened Reports

  /** What load_products returns for the products file: the built-in
      catalog when the file is missing, otherwise what the file reads as. */
  function Loaded(f: CsvFile): (r: Result<Products, LoadError>)
    ensures r.Success? ==> DistinctNames(r.value)
  {
    if f.Missing? then Success(Defaults()) else ReadFile(f.rows)
  }

  /** The products file after load_products: a missing file is created
      holding the built-in catalog. */
  function Seeded(f: CsvFile): CsvFile {
    if f.Missing? then Present(FileRows(Defaults())) else f
  }

  /** Loading again after a load reads the same catalog: the file that the
      first load creates reads back as the built-in catalog. */
  lemma LoadTwice(f: CsvFile)
    ensures Loaded(Seeded(f)) == Loaded(f)
    ensures Seeded(Seeded(f)) == Seeded(f)
  {
    if f.Missing? {
      LoadAfterSave(Defaults());
    }
  }

  /** The customer's name on a sale: the text field stripped, or "Unknown"
      when that leaves nothing (main.py:126-128). */
  function CustomerName(field: string): (r: string)
    ensures r != []
    ensures AllSpace(field) ==> r == "Unknown"
    ensures !AllSpace(field) ==> r == Strip(field)
  {
    var s := Strip(field);
    if s == [] then "Unknown" else s
  }

  /** What add_to_cart does with the product chosen in the dropdown. */
  datatype CartOutcome = Added | NotFound | LoadFailed(error: LoadError)

  /** The receipt checkout shows: the customer, one line per product, the
      total charged and the time it was drawn. */
  datatype Receipt = Receipt(customer: string, lines: seq<Group>, total: int, timestamp: string)

  /** What add_product does with the two text fields. */
  datatype AddOutcome = ProductSaved | InvalidPrice | Ignored

  /** Why the history list cannot be drawn: the file is empty (StopIteration),
      a row has fewer than 7 fields (an IndexError that the ValueError handler
      does not catch), or a kept row does not unpack into 7 fields or its
      index, price or total does not read as a number (a ValueError outside
      the try block). */
  datatype HistoryError = EmptyLedger | ShortRow | BadRow

  /** A kept row that the drawing loop of the history list can show
      (main.py:295-306). */
  predicate Drawable(row: Row) {
    |row| == 7 && ParseInt(row[0]).Some? && ParseCents(row[3]).Some? && ParseCents(row[5]).Some?
  }

  /** What the history list shows for the ledger and the filter. */
  function HistoryOf(f: CsvFile, filter: Filter): Result<seq<(int, Row)>, HistoryError> {
    match DataRows(f)
    case Failure(_) => Failure(EmptyLedger)
    case Success(rows) =>
      if !Wide(rows) then Failure(ShortRow)
      else
        Drawn(Kept(rows, filter))
  }

  /** The drawing loop of the history list over the kept rows. */
  function Drawn(kept: seq<Row>): Result<seq<(int, Row)>, HistoryError> {
    if forall i :: 0 <= i < |kept| ==> Drawable(kept[i]) then Success(View(kept)) else Failure(BadRow)
  }

  /** A loop over the kept entries from the last to the first that emits
      each entry with its position and stops at the first entry ok rejects. */
  method Reversed<T>(kept: seq<T>, ok: T -> bool) returns (r: Option<seq<(int, T)>>)
    ensures r == if forall i :: 0 <= i < |kept| ==> ok(kept[i]) then Some(View(kept)) else None
  {
    var view := [];
    for j := 0 to |kept|
      invariant |view| == j
      invariant forall i :: 0 <= i < j ==> view[i] == (|kept| - 1 - i, kept[|kept| - 1 - i])
      invariant forall i :: |kept| - j <= i < |kept| ==> ok(kept[i])
    {
      var entry := kept[|kept| - 1 - j];
      if !ok(entry) {
        return None;
      }
      view := view + [(|kept| - 1 - j, entry)];
    }
    assert view == View(kept);
    return Some(view);
  }

  /** The drawing loop (main.py:294-315): the kept rows newest first, each
      with its position in the filtered list; the first row that cannot be
      drawn raises. */
  method DrawHistory(kept: seq<Row>) returns (r: Result<seq<(int, Row)>, HistoryError>)
    ensures r == Drawn(kept)
  {
    var view := Reversed(kept, Drawable);
    r := if view.Some? then Success(view.value) else Failure(BadRow);
  }

  /** The loop that adds up the receipt's total (main.py:145-147). */
  method ReceiptTotal(groups: seq<Group>) returns (total: int)
    ensures total == GroupsTotal(groups)
  {
    total := 0;
    for k := 0 to |groups|
      invariant total == GroupsTotal(groups[..k])
    {
      assert groups[..k + 1][..k] == groups[..k];
      total := total + groups[k].total;
    }
    assert groups[..|groups|] == groups;
  }

  /** The daily sales of the ledger: nothing when the file is missing, the
      StopIteration of an empty file, or the totals per date. */
  function DailyReport(f: CsvFile): (r: Result<seq<(string, int)>, ReadError>)
    ensures r.Failure? <==> f == Present([])
  {
    match DataRows(f)
    case Failure(e) => Failure(e)
    case Success(rows) => Success(Accumulated(DatedTotals(rows)))
  }

  /** The top ten products of the ledger, read the same way. */
  function TopTenReport(f: CsvFile): (r: Result<seq<(string, int)>, ReadError>)
    ensures r.Failure? <==> f == Present([])
  {
    match DataRows(f)
    case Failure(e) => Failure(e)
    case Success(rows) => Success(TopTen(Accumulated(Quantities(rows))))
  }

  /** The data rows after a sale is recorded: the rows before it, then one
      row per group of the cart. */
  lemma RecordedDataRows(f: CsvFile, cart: seq<Unit>, customer: string, timestamp: string)
    requires DataRows(f).Success?
    ensures DataRows(Present(Recorded(f, cart, customer, timestamp))).value
            == DataRows(f).value + SaleRows(|Created(f)|, customer, Summary(cart), timestamp)
  {
    var existing := Created(f);
    var sale := SaleRows(|existing|, customer, Summary(cart), timestamp);
    assert (existing + sale)[1..] == existing[1..] + sale;
  }

  /** A checkout shows up in the daily sales: the date of its timestamp gains
      the sum of the cart's prices and every other date is unchanged. */
  lemma CheckoutInDailySales(f: CsvFile, cart: seq<Unit>, customer: string, timestamp: string, day: string)
    requires DataRows(f).Success? && FirstWord(timestamp).Some?
    ensures var after := DailyReport(Present(Recorded(f, cart, customer, timestamp)));
      && after.Success?
      && Total(after.value, day)
         == Total(DailyReport(f).value, day) + (if day == FirstWord(timestamp).value then Sum(Prices(cart)) else 0)
  {
    var rows := DataRows(f).value;
    var sale := SaleRows(|Created(f)|, customer, Summary(cart), timestamp);
    RecordedDataRows(f, cart, customer, timestamp);
    CheckoutAddsToItsDay(rows, cart, |Created(f)|, customer, timestamp, FirstWord(timestamp).value, day);
    TallyTotal(DatedTotals(rows + sale), day);
    TallyTotal(DatedTotals(rows), day);
  }

  /** With the timestamp checkout writes, the sale is counted under the
      "%Y-%m-%d" date of the clock it was stamped with. */
  lemma StampedCheckoutInDailySales(f: CsvFile, cart: seq<Unit>, customer: string, c: Clock, day: string)
    requires DataRows(f).Success? && ValidClock(c)
    ensures var after := DailyReport(Present(Recorded(f, cart, customer, IsoStamp(c))));
      && after.Success?
      && Total(after.value, day)
         == Total(DailyReport(f).value, day) + (if day == IsoDate(c) then Sum(Prices(cart)) else 0)
  {
    IsoStampDate(c);
    CheckoutInDailySales(f, cart, customer, IsoStamp(c), day);
  }

  /** A checkout shows up in the quantities sold: every product gains the
      number of its units in the cart. */
  lemma CheckoutInQuantities(f: CsvFile, cart: seq<Unit>, customer: string, timestamp: string, product: string)
    requires DataRows(f).Success?
    ensures var before := DataRows(f).value;
      var after := DataRows(Present(Recorded(f, cart, customer, timestamp))).value;
      Total(Accumulated(Quantities(after)), product) == Total(Accumulated(Quantities(before)), product) + Count(cart, product)
  {
    var rows := DataRows(f).value;
    var sale := SaleRows(|Created(f)|, customer, Summary(cart), timestamp);
    RecordedDataRows(f, cart, customer, timestamp);
    CheckoutAddsQuantities(rows, cart, |Created(f)|, customer, timestamp, product);
    TallyTotal(Quantities(rows + sale), product);
    TallyTotal(Quantities(rows), product);
  }

  class Till {
    var productsFile: CsvFile
    var transactionsFile: CsvFile
    /** The POS cart: one (name, price) unit per selection, in order. */
    var cart: seq<Unit>
    /** The Products tab's own dict, loaded once when the tab is built. */
    var catalog: Products

    predicate Valid()
      reads this
    {
      DistinctNames(catalog)
    }

    /** The application before its tabs are built: the files as found on
        disk and an empty cart. */
    constructor(productsFile: CsvFile, transactionsFile: CsvFile)
      ensures this.productsFile == productsFile && this.transactionsFile == transactionsFile
      ensures cart == [] && catalog == [] && Valid()
    {
      this.productsFile := productsFile;
      this.transactionsFile := transactionsFile;
      cart := [];
      catalog := [];
    }

    /** load_products (main.py:9-21). */
    method LoadProducts() returns (r: Result<Products, LoadError>)
      modifies this
      ensures r == Loaded(old(productsFile))
      ensures productsFile == Seeded(old(productsFile))
      ensures transactionsFile == old(transactionsFile) && cart == old(cart) && catalog == old(catalog)
    {
      if productsFile.Missing? {
        r := Success(Defaults());
        SaveProducts(Defaults());
      } else {
        r := ReadProducts(productsFile.rows);
      }
    }

    /** save_products (main.py:23-51). Opening the file for writing empties
        it before the header check reads it, so the header is always written. */
    method SaveProducts(ps: Products)
      modifies this
      ensures productsFile == Present(FileRows(ps))
      ensures transactionsFile == old(transactionsFile) && cart == old(cart) && catalog == old(catalog)
    {
      var rows := WriteProducts(ps);
      productsFile := Present(rows);
    }

    /** Building the Products tab loads its dict (main.py:334); a load that
        raises leaves the tab unbuilt. */
    method OpenProductsTab() returns (r: Result<Products, LoadError>)
      modifies this
      ensures r == Loaded(old(productsFile))
      ensures productsFile == Seeded(old(productsFile))
      ensures catalog == if r.Success? then r.value else old(catalog)
      ensures transactionsFile == old(transactionsFile) && cart == old(cart)
      ensures old(Valid()) ==> Valid()
    {
      r := LoadProducts();
      if r.Success? {
        catalog := r.value;
      }
    }

    /** add_to_cart (main.py:105-118): the catalog is reloaded from the file
        and the product is appended with its current price when it is there. */
    method AddToCart(name: string) returns (outcome: CartOutcome)
      modifies this
      ensures productsFile == Seeded(old(productsFile))
      ensures Loaded(old(productsFile)).Failure? ==> outcome == LoadFailed(Loaded(old(productsFile)).error) && cart == old(cart)
      ensures Loaded(old(productsFile)).Success? ==>
        var price := Lookup(Loaded(old(productsFile)).value, name);
        && (price.Some? ==> outcome == Added && cart == old(cart) + [Unit(name, price.value)])
        && (price.None? ==> outcome == NotFound && cart == old(cart))
      ensures transactionsFile == old(transactionsFile) && catalog == old(catalog)
    {
      var loaded := LoadProducts();
      if loaded.Failure? {
        return LoadFailed(loaded.error);
      }
      var price := Lookup(loaded.value, name);
      if price.Some? {
        cart := cart + [Unit(name, price.value)];
        return Added;
      }
      return NotFound;
    }

    /** remove_from_cart (main.py:120-121): deletes the unit at the given
        position of the cart. */
    method RemoveFromCart(index: nat)
      requires index < |cart|
      modifies this
      ensures cart == old(cart)[..index] + old(cart)[index + 1..]
      ensures productsFile == old(productsFile) && transactionsFile == old(transactionsFile) && catalog == old(catalog)
    {
      cart := cart[..index] + cart[index + 1..];
    }

    /** The delete button of display row g as evidently intended: one unit of
        that row's product leaves the cart. */
    method RemoveCartRow(g: nat)
      requires g < |Summary(cart)|
      modifies this
      ensures cart == RemoveFromGroup(old(cart), g)
      ensures productsFile == old(productsFile) && transactionsFile == old(transactionsFile) && catalog == old(catalog)
    {
      cart := RemoveFromGroup(cart, g);
    }

    /** update_cart (main.py:88-103): the cart's display rows and the total
        shown under them. */
    method ShowCart() returns (lines: seq<Group>, total: int)
      ensures lines == Summary(cart)
      ensures total == DisplayTotal(lines)
    {
      lines := GroupCart(cart);
      total := 0;
      for k := 0 to |lines|
        invariant total == DisplayTotal(lines[..k])
      {
        assert lines[..k + 1][..k] == lines[..k];
        total := total + lines[k].price * lines[k].amount;
      }
      assert lines[..|lines|] == lines;
    }

    /** record_transaction (main.py:55-75), writing the given units. */
    method RecordTransaction(items: seq<Unit>, customer: string, timestamp: string)
      modifies this
      ensures transactionsFile == Present(Recorded(old(transactionsFile), items, customer, timestamp))
      ensures productsFile == old(productsFile) && cart == old(cart) && catalog == old(catalog)
    {
      var existing := Created(transactionsFile);
      var groups := GroupCart(items);
      var rows := WriteSale(|existing|, customer, groups, timestamp);
      transactionsFile := Present(existing + rows);
    }

    /** checkout (main.py:124-163): an empty cart only warns; otherwise the
        sale is recorded at recordedAt, the receipt drawn at shownAt charges
        the sum of the prices of all units, and the cart is emptied. */
    method Checkout(nameField: string, recordedAt: string, shownAt: string) returns (receipt: Option<Receipt>)
      modifies this
      ensures old(cart) == [] ==> receipt == None && transactionsFile == old(transactionsFile) && cart == old(cart)
      ensures old(cart) != [] ==>
        && receipt == Some(Receipt(CustomerName(nameField), Summary(old(cart)), Sum(Prices(old(cart))), shownAt))
        && transactionsFile == Present(Recorded(old(transactionsFile), old(cart), CustomerName(nameField), recordedAt))
        && cart == []
      ensures productsFile == old(productsFile) && catalog == old(catalog)
    {
      if cart == [] {
        return None;
      }
      var customer := CustomerName(nameField);
      RecordTransaction(cart, customer, recordedAt);
      var groups := GroupCart(cart);
      var total := ReceiptTotal(groups);
      CartTotalIsSum(cart);
      receipt := Some(Receipt(customer, groups, total, shownAt));
      cart := [];
    }

    /** add_product (main.py:388-403): both fields are stripped; with both
        non-empty, a price that reads as a number sets the product in the
        tab's dict and the whole dict is saved. */
    method AddProduct(nameField: string, priceField: string) returns (outcome: AddOutcome)
      requires Valid()
      modifies this
      ensures Valid()
      ensures var name, text := Strip(nameField), Strip(priceField);
        && (name == [] || text == [] ==> outcome == Ignored)
        && (name != [] && text != [] && ParseCents(text).None? ==> outcome == InvalidPrice)
        && (name != [] && text != [] && ParseCents(text).Some? ==>
              outcome == ProductSaved && catalog == Put(old(catalog), name, ParseCents(text).value))
      ensures outcome == ProductSaved ==> productsFile == Present(FileRows(catalog)) && Loaded(productsFile) == Success(catalog)
      ensures outcome != ProductSaved ==> productsFile == old(productsFile) && catalog == old(catalog)
      ensures transactionsFile == old(transactionsFile) && cart == old(cart)
    {
      var name := Strip(nameField);
      var text := Strip(priceField);
      if name == [] || text == [] {
        return Ignored;
      }
      var price := ParseCents(text);
      if price.None? {
        return InvalidPrice;
      }
      catalog := Put(catalog, name, price.value);
      SaveProducts(catalog);
      LoadAfterSave(catalog);
      return ProductSaved;
    }

    /** delete_product (main.py:405-412): a product of the tab's dict is
        removed and the dict saved; any other name changes nothing. */
    method DeleteProduct(name: string) returns (found: bool)
      requires Valid()
      modifies this
      ensures Valid()
      ensures found <==> name in ProductNames(old(catalog))
      ensures found ==> catalog == Remove(old(catalog), name) && productsFile == Present(FileRows(catalog))
      ensures !found ==> catalog == old(catalog) && productsFile == old(productsFile)
      ensures Lookup(catalog, name) == None
      ensures transactionsFile == old(transactionsFile) && cart == old(cart)
    {
      found := Lookup(catalog, name).Some?;
      if found {
        catalog := Remove(catalog, name);
        SaveProducts(catalog);
      }
    }

    /** load_transactions (main.py:233-247): the file is created with its
        header when missing, and every row after the header is returned. */
    method LoadTransactions() returns (r: Result<seq<Row>, ReadError>)
      modifies this
      ensures r == DataRows(old(transactionsFile))
      ensures transactionsFile == Present(Created(old(transactionsFile)))
      ensures productsFile == old(productsFile) && cart == old(cart) && catalog == old(catalog)
    {
      transactionsFile := Present(Created(transactionsFile));
      var rows := transactionsFile.rows;
      if rows == [] {
        return Failure(EmptyFile);
      }
      return Success(rows[1..]);
    }

    /** delete_transaction (main.py:249-261): the row at position pos of the
        freshly loaded rows is removed and the file rewritten, renumbered. */
    method DeleteTransaction(pos: int) returns (deleted: bool)
      modifies this
      ensures var loaded := DataRows(old(transactionsFile));
        && (deleted <==> loaded.Success? && AfterDelete(loaded.value, pos).Some?)
        && (deleted ==> transactionsFile == Present(AfterDelete(loaded.value, pos).value))
        && (!deleted ==> transactionsFile == Present(Created(old(transactionsFile))))
      ensures productsFile == old(productsFile) && cart == old(cart) && catalog == old(catalog)
    {
      var loaded := LoadTransactions();
      if loaded.Failure? || !(0 <= pos < |loaded.value|) {
        return false;
      }
      var rows := RenumberRows(Without(loaded.value, pos));
      transactionsFile := Present([Header()] + rows);
      return true;
    }

    /** update_transactions_list (main.py:263-317): the ledger's rows are
        filtered and shown newest first, each with the position its delete
        button passes on. */
    method ShowHistory(filter: Filter) returns (r: Result<seq<(int, Row)>, HistoryError>)
      modifies this
      ensures r == HistoryOf(old(transactionsFile), filter)
      ensures transactionsFile == Present(Created(old(transactionsFile)))
      ensures productsFile == old(productsFile) && cart == old(cart) && catalog == old(catalog)
    {
      var loaded := LoadTransactions();
      if loaded.Failure? {
        return Failure(EmptyLedger);
      }
      var rows := loaded.value;
      if !Wide(rows) {
        return Failure(ShortRow);
      }
      var kept := FilterRows(rows, filter);
      r := DrawHistory(kept);
    }

    /** calculate_daily_sales (main.py:431-446); the file is only read. */
    method DailySalesReport() returns (r: Result<seq<(string, int)>, ReadError>)
      ensures r == DailyReport(transactionsFile)
    {
      if transactionsFile == Present([]) {
        return Failure(EmptyFile);
      }
      var rows := if transactionsFile.Missing? then [] else transactionsFile.rows[1..];
      var sales := DailySales(rows);
      return Success(sales);
    }

    /** get_top_10_sales (main.py:475-490); the file is only read. */
    method TopTenSales() returns (r: Result<seq<(string, int)>, ReadError>)
      ensures r == TopTenReport(transactionsFile)
    {
      if transactionsFile == Present([]) {
        return Failure(EmptyFile);
      }
      var rows := if transactionsFile.Missing? then [] else transactionsFile.rows[1..];
      var counts := ProductQuantities(rows);
      return Success(TopTen(counts));
    }
  }
}
