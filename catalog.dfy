/** The product catalog: an insertion-ordered dict from product name to unit
    price, and its CSV file products.csv (main.py:9-51). Prices are integer
    cents. */
module Catalog {
  import opened Wrappers
  import opened Text
  import opened Tally

  datatype Product = Product(name: string, price: int)

  /** The dict, as its entries in insertion order. */
  type Products = seq<Product>

  /** Why reading products.csv raises instead of returning a dict. */
  datatype LoadError =
    | NoHeader                 // the file is empty: next(reader) raises StopIteration
    | MissingPrice(row: Row)   // a non-empty row with one field: row[1] raises IndexError
    | BadPrice(text: string)   // float(row[1]) raises ValueError

  function ProductNames(ps: Products): (ns: seq<string>)
    ensures |ns| == |ps| && forall i :: 0 <= i < |ps| ==> ns[i] == ps[i].name
  {
    seq(|ps|, i requires 0 <= i < |ps| => ps[i].name)
  }

  predicate DistinctNames(ps: Products) {
    forall i, j :: 0 <= i < j < |ps| ==> ps[i].name != ps[j].name
  }

  /** The position of product n, or -1. */
  function IndexOf(ps: Products, n: string): (i: int)
    ensures -1 <= i < |ps|
    ensures i >= 0 ==> ps[i].name == n
    ensures i < 0 ==> forall j :: 0 <= j < |ps| ==> ps[j].name != n
  {
    if ps == [] then -1
    else if ps[0].name == n then 0
    else var j := IndexOf(ps[1..], n); if j < 0 then -1 else j + 1
  }

  /** products.get(n) */
  function Lookup(ps: Products, n: string): (r: Option<int>)
    requires DistinctNames(ps)
    ensures r.Some? <==> n in ProductNames(ps)
    ensures forall i :: 0 <= i < |ps| && ps[i].name == n ==> r == Some(ps[i].price)
  {
    var i := IndexOf(ps, n);
    if i < 0 then None else Some(ps[i].price)
  }

  /** products[n] = price: overwrite in place, or append a new entry. */
  function Put(ps: Products, n: string, price: int): (r: Products)
    requires DistinctNames(ps)
    ensures DistinctNames(r)
    ensures Lookup(r, n) == Some(price)
    ensures forall m :: m != n ==> Lookup(r, m) == Lookup(ps, m)
    ensures n in ProductNames(ps) ==> ProductNames(r) == ProductNames(ps)
    ensures n !in ProductNames(ps) ==> r == ps + [Product(n, price)]
  {
    var i := IndexOf(ps, n);
    var r := if i < 0 then ps + [Product(n, price)] else ps[i := Product(n, price)];
    PutLookups(ps, n, price, r);
    r
  }

  lemma PutLookups(ps: Products, n: string, price: int, r: Products)
    requires DistinctNames(ps)
    requires r == if IndexOf(ps, n) < 0 then ps + [Product(n, price)] else ps[IndexOf(ps, n) := Product(n, price)]
    ensures DistinctNames(r)
    ensures Lookup(r, n) == Some(price)
    ensures forall m :: m != n ==> Lookup(r, m) == Lookup(ps, m)
  {
    var i := IndexOf(ps, n);
    var k := if i < 0 then |ps| else i;
    assert r[k] == Product(n, price);
    forall m | m != n ensures Lookup(r, m) == Lookup(ps, m) {
      if m in ProductNames(ps) {
        var j :| 0 <= j < |ps| && ProductNames(ps)[j] == m;
        assert r[j] == ps[j];
      } else {
        forall j | 0 <= j < |r| ensures ProductNames(r)[j] != m {
          assert ProductNames(r)[j] == r[j].name;
          if j < |ps| && j != k { assert r[j] == ps[j] && ProductNames(ps)[j] == ps[j].name; }
        }
      }
    }
  }

  /** del products[n] for a name that is present; the dict is unchanged otherwise. */
  function Remove(ps: Products, n: string): (r: Products)
    requires DistinctNames(ps)
    ensures DistinctNames(r)
    ensures Lookup(r, n) == None
    ensures forall m :: m != n ==> Lookup(r, m) == Lookup(ps, m)
    ensures n !in ProductNames(ps) ==> r == ps
    ensures n in ProductNames(ps) ==> |r| == |ps| - 1
    ensures n in ProductNames(ps) ==>
      0 <= IndexOf(ps, n) && r == ps[..IndexOf(ps, n)] + ps[IndexOf(ps, n) + 1..]
  {
    var i := IndexOf(ps, n);
    if i < 0 then ps
    else
      var r := ps[..i] + ps[i + 1..];
      RemoveLookups(ps, n, i, r);
      r
  }

  lemma RemoveLookups(ps: Products, n: string, i: nat, r: Products)
    requires DistinctNames(ps) && i < |ps| && ps[i].name == n && r == ps[..i] + ps[i + 1..]
    ensures DistinctNames(r)
    ensures Lookup(r, n) == None
    ensures forall m :: m != n ==> Lookup(r, m) == Lookup(ps, m)
  {
    assert forall j :: 0 <= j < |r| ==> r[j] == if j < i then ps[j] else ps[j + 1];
    forall m ensures m != n ==> Lookup(r, m) == Lookup(ps, m) {
      if m != n && m in ProductNames(ps) {
        var j :| 0 <= j < |ps| && ProductNames(ps)[j] == m;
        var k := if j < i then j else j - 1;
        assert r[k] == ps[j];
      }
    }
  }

  /** The five products a missing file is seeded with (main.py:19). */
  function Defaults(): (ps: Products)
    ensures DistinctNames(ps) && |ps| == 5
  {
    [Product("Apple", 100), Product("Banana", 50), Product("Orange", 75),
     Product("Milk", 250), Product("Bread", 180)]
  }

  function FileHeader(): Row {
    ["Name", "Price"]
  }

  /** One line of products.csv per product. */
  function ProductRow(p: Product): Row {
    [p.name, FormatCents(p.price)]
  }

  /** What save_products leaves in products.csv: one header and one row per
      product. The file is opened for writing before the existing header is
      read, so the read sees an empty file and the header is always written. */
  function FileRows(ps: Products): (rows: seq<Row>)
    ensures |rows| == |ps| + 1 && rows[0] == FileHeader()
    ensures forall i :: 0 <= i < |ps| ==> rows[i + 1] == ProductRow(ps[i])
  {
    [FileHeader()] + seq(|ps|, i requires 0 <= i < |ps| => ProductRow(ps[i]))
  }

  /** The reading loop of load_products over the data rows: empty rows are
      skipped and each other row stores its price under its name, so a later
      row for the same name wins. The first bad row raises. */
  function LoadRows(rows: seq<Row>): (r: Result<Products, LoadError>)
    ensures r.Success? ==> DistinctNames(r.value)
  {
    if rows == [] then Success([])
    else
      match LoadRows(rows[..|rows| - 1])
      case Failure(e) => Failure(e)
      case Success(ps) => LoadRow(ps, rows[|rows| - 1])
  }

  /** One pass of the reading loop. */
  function LoadRow(ps: Products, row: Row): (r: Result<Products, LoadError>)
    requires DistinctNames(ps)
    ensures r.Success? ==> DistinctNames(r.value)
  {
    if row == [] then Success(ps)
    else if |row| < 2 then Failure(MissingPrice(row))
    else
      match ParseCents(row[1])
      case None => Failure(BadPrice(row[1]))
      case Some(c) => Success(Put(ps, row[0], c))
  }

  /** load_products on a file that exists: the header row is skipped, and an
      empty file raises. */
  function ReadFile(rows: seq<Row>): Result<Products, LoadError> {
    if rows == [] then Failure(NoHeader) else LoadRows(rows[1..])
  }

  /** A failure in a prefix of the rows is the failure of the whole file. */
  lemma {:induction false} FailureSticks(rows: seq<Row>, k: nat)
    requires k <= |rows| && LoadRows(rows[..k]).Failure?
    ensures LoadRows(rows) == LoadRows(rows[..k])
  {
    if k < |rows| {
      assert rows[..|rows| - 1][..k] == rows[..k];
      FailureSticks(rows[..|rows| - 1], k);
    } else {
      assert rows[..k] == rows;
    }
  }

  /** The reading loop of load_products (main.py:14-17). */
  method ReadProducts(rows: seq<Row>) returns (r: Result<Products, LoadError>)
    ensures r == ReadFile(rows)
  {
    if rows == [] {
      return Failure(NoHeader);
    }
    var data := rows[1..];
    var ps: Products := [];
    for k := 0 to |data|
      invariant LoadRows(data[..k]) == Success(ps)
    {
      var row := data[k];
      assert data[..k + 1][..k] == data[..k];
      if row != [] {
        if |row| < 2 {
          FailureSticks(data, k + 1);
          return Failure(MissingPrice(row));
        }
        match ParseCents(row[1]) {
          case None =>
            FailureSticks(data, k + 1);
            return Failure(BadPrice(row[1]));
          case Some(c) =>
            ps := Put(ps, row[0], c);
        }
      }
    }
    assert data[..|data|] == data;
    return Success(ps);
  }

  /** The writing loop of save_products (main.py:30-51). */
  method WriteProducts(ps: Products) returns (rows: seq<Row>)
    ensures rows == FileRows(ps)
  {
    rows := [FileHeader()];
    for k := 0 to |ps|
      invariant rows == FileRows(ps[..k])
    {
      assert ps[..k + 1] == ps[..k] + [ps[k]];
      FileRowsAppend(ps[..k], ps[k]);
      rows := rows + [ProductRow(ps[k])];
    }
    assert ps[..|ps|] == ps;
  }

  lemma FileRowsAppend(ps: Products, p: Product)
    ensures FileRows(ps + [p]) == FileRows(ps) + [ProductRow(p)]
  {
    var a, b := FileRows(ps + [p]), FileRows(ps) + [ProductRow(p)];
    assert |a| == |b|;
    forall i | 0 <= i < |a| ensures a[i] == b[i] {
      if 0 < i <= |ps| {
        assert (ps + [p])[i - 1] == ps[i - 1];
      }
    }
  }

  // ---- reference definitions of what loading means ----

  /** The names of the non-empty rows, in file order. */
  function RowNames(rows: seq<Row>): seq<string> {
    if rows == [] then []
    else
      var last := rows[|rows| - 1];
      RowNames(rows[..|rows| - 1]) + (if last == [] then [] else [last[0]])
  }

  /** The price of the last non-empty row named n. */
  function LastPrice(rows: seq<Row>, n: string): Option<int> {
    if rows == [] then None
    else
      var last := rows[|rows| - 1];
      if last != [] && last[0] == n && |last| >= 2 then ParseCents(last[1])
      else LastPrice(rows[..|rows| - 1], n)
  }

  lemma LoadRowsLast(rows: seq<Row>)
    requires rows != []
    ensures var init := rows[..|rows| - 1]; var last := rows[|rows| - 1];
      && RowNames(rows) == RowNames(init) + (if last == [] then [] else [last[0]])
      && LoadRows(rows) == match LoadRows(init) case Failure(e) => Failure(e) case Success(ps) => LoadRow(ps, last)
  {
  }

  /** One row of the reading loop keeps the meaning of what was loaded. */
  lemma LoadRowMeaning(rows: seq<Row>, ps: Products, last: Row, r: Products)
    requires DistinctNames(ps) && LoadRow(ps, last) == Success(r)
    requires forall n :: Lookup(ps, n) == LastPrice(rows, n)
    requires ProductNames(ps) == FirstSeen(RowNames(rows))
    ensures forall n :: Lookup(r, n) == LastPrice(rows + [last], n)
    ensures ProductNames(r) == FirstSeen(RowNames(rows + [last]))
  {
    var all := rows + [last];
    assert all[..|rows|] == rows && all[|rows|] == last;
    if last != [] {
      var c := ParseCents(last[1]).value;
      assert r == Put(ps, last[0], c);
      PutKeepsPrices(rows, ps, last, c);
      PutKeepsNames(rows, ps, last, c);
    } else {
      assert all[|all| - 1] == last && all[..|all| - 1] == rows;
      assert RowNames(all) == RowNames(rows) + [];
      assert RowNames(rows) + [] == RowNames(rows);
      assert r == ps;
    }
  }

  lemma PutKeepsPrices(rows: seq<Row>, ps: Products, last: Row, c: int)
    requires DistinctNames(ps) && |last| >= 2 && ParseCents(last[1]) == Some(c)
    requires forall n :: Lookup(ps, n) == LastPrice(rows, n)
    ensures forall n :: Lookup(Put(ps, last[0], c), n) == LastPrice(rows + [last], n)
  {
    var all := rows + [last];
    assert all[..|rows|] == rows && all[|rows|] == last;
  }

  lemma PutKeepsNames(rows: seq<Row>, ps: Products, last: Row, c: int)
    requires DistinctNames(ps) && last != []
    requires ProductNames(ps) == FirstSeen(RowNames(rows))
    ensures ProductNames(Put(ps, last[0], c)) == FirstSeen(RowNames(rows + [last]))
  {
    var all := rows + [last];
    assert all[..|rows|] == rows && all[|rows|] == last;
    var ks := RowNames(rows);
    assert RowNames(all) == ks + [last[0]];
    assert (ks + [last[0]])[..|ks|] == ks;
    if last[0] !in ProductNames(ps) {
      assert ProductNames(Put(ps, last[0], c)) == ProductNames(ps) + [last[0]];
    }
  }

  /** A successful load holds, for every name, the price of the last row with
      that name, and the names in the order in which they first appear. */
  lemma {:induction false} LoadRowsMeaning(rows: seq<Row>)
    requires LoadRows(rows).Success?
    ensures forall n :: Lookup(LoadRows(rows).value, n) == LastPrice(rows, n)
    ensures ProductNames(LoadRows(rows).value) == FirstSeen(RowNames(rows))
  {
    if rows != [] {
      var init, last := rows[..|rows| - 1], rows[|rows| - 1];
      assert init + [last] == rows;
      var ps, r := LoadRows(init).value, LoadRows(rows).value;
      assert LoadRow(ps, last) == Success(r);
      LoadRowsMeaning(init);
      LoadRowMeaning(init, ps, last, r);
    }
  }

  /** The row save_products writes for a new product adds it at the end. */
  lemma LoadProductRow(ps: Products, p: Product)
    requires DistinctNames(ps) && p.name !in ProductNames(ps)
    ensures LoadRow(ps, ProductRow(p)) == Success(ps + [p])
  {
    ParseFormatCents(p.price);
  }

  /** The data rows of a longer dict extend those of its prefix by one row. */
  lemma FileRowsLast(ps: Products)
    requires ps != []
    ensures var rows := FileRows(ps)[1..];
      rows != [] && rows[..|rows| - 1] == FileRows(ps[..|ps| - 1])[1..]
      && rows[|rows| - 1] == ProductRow(ps[|ps| - 1])
  {
  }

  /** With distinct names, the last product's name is not among the others,
      and the others have distinct names too. */
  lemma LastNameNew(ps: Products)
    requires ps != [] && DistinctNames(ps)
    ensures DistinctNames(ps[..|ps| - 1])
    ensures ps[|ps| - 1].name !in ProductNames(ps[..|ps| - 1])
  {
    var init := ps[..|ps| - 1];
    assert forall i :: 0 <= i < |init| ==> init[i] == ps[i];
    forall j | 0 <= j < |init| ensures ProductNames(init)[j] != ps[|ps| - 1].name {
      assert init[j] == ps[j];
    }
  }

  /** Loading what save_products wrote gives back the same dict. */
  lemma {:induction false} LoadProductRows(ps: Products)
    requires DistinctNames(ps)
    ensures LoadRows(FileRows(ps)[1..]) == Success(ps)
  {
    if ps != [] {
      var init, p := ps[..|ps| - 1], ps[|ps| - 1];
      var rows := FileRows(ps)[1..];
      FileRowsLast(ps);
      LoadRowsLast(rows);
      LastNameNew(ps);
      LoadProductRows(init);
      LoadProductRow(init, p);
      assert ps == init + [p];
    }
  }

  /** Save then load is the identity on the dict. */
  lemma LoadAfterSave(ps: Products)
    requires DistinctNames(ps)
    ensures ReadFile(FileRows(ps)) == Success(ps)
  {
    LoadProductRows(ps);
  }
}
