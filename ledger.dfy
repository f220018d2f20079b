/** The transactions file transactions.csv: a header row followed by one
    7-field row per product sold, written by record_transaction
    (main.py:55-75), read by load_transactions (main.py:233-247) and rewritten
    by delete_transaction (main.py:249-261). */
module Ledger {
  import opened Wrappers
  import opened Text
  import opened Tally
  import opened Cart

  function Header(): Row {
    ["Index", "Customer", "Product", "Price", "Amount", "Total", "Timestamp"]
  }

  /** The rows of the file after the existence check that creates a missing
      file with just the header (main.py:56-59, 235-239). */
  function Created(f: CsvFile): (rows: seq<Row>)
    ensures f.Missing? ==> rows == [Header()]
    ensures f.Present? ==> rows == f.rows
  {
    if f.Missing? then [Header()] else f.rows
  }

  /** The row written for one group of a sale. */
  function SaleRow(index: int, customer: string, g: Group, timestamp: string): Row {
    [FormatInt(index), customer, g.name, FormatCents(g.price), FormatInt(g.amount), FormatCents(g.total), timestamp]
  }

  function SaleRows(index: int, customer: string, groups: seq<Group>, timestamp: string): (rows: seq<Row>)
    ensures |rows| == |groups|
    ensures forall i :: 0 <= i < |groups| ==> rows[i] == SaleRow(index, customer, groups[i], timestamp)
  {
    seq(|groups|, i requires 0 <= i < |groups| => SaleRow(index, customer, groups[i], timestamp))
  }

  /** The writing loop of record_transaction (main.py:74-75). */
  method WriteSale(index: int, customer: string, groups: seq<Group>, timestamp: string) returns (rows: seq<Row>)
    ensures rows == SaleRows(index, customer, groups, timestamp)
  {
    rows := [];
    for k := 0 to |groups|
      invariant rows == SaleRows(index, customer, groups[..k], timestamp)
    {
      rows := rows + [SaleRow(index, customer, groups[k], timestamp)];
    }
    assert groups[..|groups|] == groups;
  }

  /** What record_transaction leaves in the file: the existing lines, then one
      row per group of the cart, all carrying the number of lines that were
      already in the file as their index. */
  function Recorded(f: CsvFile, cart: seq<Unit>, customer: string, timestamp: string): seq<Row> {
    var existing := Created(f);
    existing + SaleRows(|existing|, customer, Summary(cart), timestamp)
  }

  /** One product line of a sale, as a data row reads back: the index and
      the amount with int(), the price and the total with float(). */
  datatype SaleLine = SaleLine(index: int, customer: string, product: string, price: int,
                               amount: int, total: int, timestamp: string)

  /** The sale line a data row reads back as, or None when it has not seven
      fields or a numeric field does not parse. */
  function ReadSale(row: Row): (r: Option<SaleLine>)
    ensures r.Some? ==>
      |row| == 7 && r.value.customer == row[1] && r.value.product == row[2] && r.value.timestamp == row[6]
    ensures r.Some? ==>
      && ParseInt(row[0]) == Some(r.value.index) && ParseCents(row[3]) == Some(r.value.price)
      && ParseInt(row[4]) == Some(r.value.amount) && ParseCents(row[5]) == Some(r.value.total)
  {
    if |row| != 7 then None
    else
      match (ParseInt(row[0]), ParseCents(row[3]), ParseInt(row[4]), ParseCents(row[5]))
      case (Some(index), Some(price), Some(amount), Some(total)) =>
        Some(SaleLine(index, row[1], row[2], price, amount, total, row[6]))
      case _ => None
  }

  /** A data row that reads back as one product line of a sale. */
  predicate RowOfSale(row: Row, index: int, customer: string, product: string, price: int, amount: int, total: int, timestamp: string) {
    ReadSale(row) == Some(SaleLine(index, customer, product, price, amount, total, timestamp))
  }

  lemma SaleRowReads(index: int, customer: string, g: Group, timestamp: string)
    ensures RowOfSale(SaleRow(index, customer, g, timestamp), index, customer, g.name, g.price, g.amount, g.total, timestamp)
  {
    var row := SaleRow(index, customer, g, timestamp);
    assert |row| == 7 && row[1] == customer && row[2] == g.name && row[6] == timestamp;
    assert row[0] == FormatInt(index) && row[3] == FormatCents(g.price);
    assert row[4] == FormatInt(g.amount) && row[5] == FormatCents(g.total);
    ParseFormatInt(index);
    ParseFormatCents(g.price);
    ParseFormatInt(g.amount);
    ParseFormatCents(g.total);
  }

  /** record_transaction keeps the existing rows and appends one row per
      distinct product, in the order the products were first added; every
      appended row carries the same index and timestamp, and reads back as the
      product's price (that of its first unit), amount and total. */
  lemma RecordedRows(f: CsvFile, cart: seq<Unit>, customer: string, timestamp: string)
    ensures var existing := Created(f); var r := Recorded(f, cart, customer, timestamp);
      var names := FirstSeen(Names(cart));
      && |r| == |existing| + |names|
      && r[..|existing|] == existing
      && forall j :: 0 <= j < |names| ==>
           RowOfSale(r[|existing| + j], |existing|, customer, names[j], FirstPrice(cart, names[j]), Count(cart, names[j]), Total(Prices(cart), names[j]), timestamp)
  {
    var existing := Created(f);
    var r := Recorded(f, cart, customer, timestamp);
    var names := FirstSeen(Names(cart));
    assert |r| == |existing| + |names| && r[..|existing|] == existing;
    FirstSeenMembers(Names(cart));
    forall j | 0 <= j < |names|
      ensures RowOfSale(r[|existing| + j], |existing|, customer, names[j], FirstPrice(cart, names[j]), Count(cart, names[j]), Total(Prices(cart), names[j]), timestamp)
    {
      RecordedRow(f, cart, customer, timestamp, j);
    }
  }

  lemma RecordedRow(f: CsvFile, cart: seq<Unit>, customer: string, timestamp: string, j: nat)
    requires j < |Summary(cart)|
    ensures var existing := Created(f); var n := FirstSeen(Names(cart))[j];
      RowOfSale(Recorded(f, cart, customer, timestamp)[|existing| + j], |existing|, customer, n, FirstPrice(cart, n), Count(cart, n), Total(Prices(cart), n), timestamp)
  {
    var existing := Created(f);
    var n := FirstSeen(Names(cart))[j];
    FirstSeenMembers(Names(cart));
    assert Summary(cart)[j] == GroupOf(cart, n);
    SaleRowAt(existing, |existing|, customer, Summary(cart), timestamp, j);
  }

  /** The j-th row of a sale appended to some rows reads back as the j-th group. */
  lemma SaleRowAt(existing: seq<Row>, index: int, customer: string, groups: seq<Group>, timestamp: string, j: nat)
    requires j < |groups|
    ensures var g := groups[j];
      ReadSale((existing + SaleRows(index, customer, groups, timestamp))[|existing| + j])
        == Some(SaleLine(index, customer, g.name, g.price, g.amount, g.total, timestamp))
  {
    var sale := SaleRows(index, customer, groups, timestamp);
    assert (existing + sale)[|existing| + j] == sale[j];
    SaleRowReads(index, customer, groups[j], timestamp);
  }

  lemma GroupRowReads(cart: seq<Unit>, index: int, customer: string, timestamp: string, j: nat)
    requires j < |Summary(cart)|
    ensures var n := FirstSeen(Names(cart))[j];
      RowOfSale(SaleRows(index, customer, Summary(cart), timestamp)[j], index, customer, n, FirstPrice(cart, n), Count(cart, n), Total(Prices(cart), n), timestamp)
  {
    var g := Summary(cart)[j];
    var n := FirstSeen(Names(cart))[j];
    FirstSeenMembers(Names(cart));
    assert g == GroupOf(cart, n);
    SaleRowReads(index, customer, g, timestamp);
  }

  /** With the header in place, the index shared by a new batch is one more
      than the number of data rows already recorded. */
  lemma BatchIndex(f: CsvFile, cart: seq<Unit>, customer: string, timestamp: string)
    requires DataRows(f).Success? && |Summary(cart)| > 0
    ensures ParseInt(Recorded(f, cart, customer, timestamp)[|Created(f)|][0]) == Some(|DataRows(f).value| + 1)
  {
    var existing := Created(f);
    assert Recorded(f, cart, customer, timestamp)[|existing|] == SaleRow(|existing|, customer, Summary(cart)[0], timestamp);
    SaleRowReads(|existing|, customer, Summary(cart)[0], timestamp);
  }

  /** Why reading transactions.csv raises: the file exists but is empty, so
      next(reader) raises StopIteration. */
  datatype ReadError = EmptyFile

  /** The rows load_transactions returns: every row after the header, empty
      rows included. */
  function DataRows(f: CsvFile): (r: Result<seq<Row>, ReadError>)
    ensures r.Failure? <==> f == Present([])
    ensures r.Success? ==> Created(f) == [Created(f)[0]] + r.value
  {
    var rows := Created(f);
    if rows == [] then Failure(EmptyFile) else Success(rows[1..])
  }

  /** row[1:] */
  function Tail(row: Row): Row {
    if row == [] then [] else row[1..]
  }

  /** The rows as delete_transaction writes them back: the index column of the
      i-th row becomes i + 1 and the rest of the row is kept. */
  function Renumbered(rows: seq<Row>): (r: seq<Row>)
    ensures |r| == |rows|
  {
    seq(|rows|, i requires 0 <= i < |rows| => [FormatInt(i + 1)] + Tail(rows[i]))
  }

  /** The rewriting loop of delete_transaction (main.py:254-258). */
  method RenumberRows(rows: seq<Row>) returns (out: seq<Row>)
    ensures out == Renumbered(rows)
  {
    out := [];
    for i := 0 to |rows|
      invariant out == Renumbered(rows[..i])
    {
      out := out + [[FormatInt(i + 1)] + Tail(rows[i])];
    }
    assert rows[..|rows|] == rows;
  }

  /** del transactions[pos] */
  function Without(rows: seq<Row>, pos: nat): (r: seq<Row>)
    requires pos < |rows|
    ensures |r| == |rows| - 1
    ensures forall j :: 0 <= j < |r| ==> r[j] == if j < pos then rows[j] else rows[j + 1]
  {
    rows[..pos] + rows[pos + 1..]
  }

  /** The file delete_transaction writes for an in-range position, or None
      when the position is out of range and nothing is written. */
  function AfterDelete(rows: seq<Row>, pos: int): Option<seq<Row>> {
    if 0 <= pos < |rows| then Some([Header()] + Renumbered(Without(rows, pos))) else None
  }

  /** The rewritten rows are numbered 1..N and keep every other field. */
  lemma RenumberedMeaning(rows: seq<Row>)
    ensures forall j :: 0 <= j < |rows| ==>
      ParseInt(Renumbered(rows)[j][0]) == Some(j + 1) && Tail(Renumbered(rows)[j]) == Tail(rows[j])
  {
    forall j | 0 <= j < |rows|
      ensures ParseInt(Renumbered(rows)[j][0]) == Some(j + 1) && Tail(Renumbered(rows)[j]) == Tail(rows[j])
    {
      RenumberedRow(j + 1, rows[j]);
    }
  }

  /** One rewritten row reads back as its new index and its old fields. */
  lemma RenumberedRow(index: int, row: Row)
    ensures var r := [FormatInt(index)] + Tail(row);
      ParseInt(r[0]) == Some(index) && Tail(r) == Tail(row)
  {
    var r := [FormatInt(index)] + Tail(row);
    assert r[0] == FormatInt(index) && r[1..] == Tail(row);
    ParseFormatInt(index);
  }

  /** Deleting an in-range position removes exactly that row: the other rows
      keep their order and every field but the index, and the index column
      reads 1..N. An out-of-range position writes nothing. */
  lemma DeleteMeaning(rows: seq<Row>, pos: int)
    ensures AfterDelete(rows, pos).Some? <==> 0 <= pos < |rows|
    ensures 0 <= pos < |rows| ==>
      var kept := Without(rows, pos);
      && AfterDelete(rows, pos).value[0] == Header()
      && AfterDelete(rows, pos).value[1..] == Renumbered(kept)
      && forall j :: 0 <= j < |kept| ==>
           ParseInt(Renumbered(kept)[j][0]) == Some(j + 1) && Tail(Renumbered(kept)[j]) == Tail(kept[j])
  {
    if 0 <= pos < |rows| {
      RenumberedMeaning(Without(rows, pos));
    }
  }
}
