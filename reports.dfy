/** The two reports computed from transactions.csv: the sales total per
    date (calculate_daily_sales, main.py:431-446) and the ten products sold in
    the largest quantities (get_top_10_sales, main.py:475-490). Both skip a
    row whose fields raise ValueError or IndexError and go on with the rest. */
module Reports {
  import opened Wrappers
  import opened Text
  import opened Tally
  import opened Cart
  import opened Ledger

  // ---- calculate_daily_sales ----

  /** What one data row adds to the daily sales: its date (the timestamp up
      to the first whitespace) and its total, or None when the row is skipped. */
  function DatedTotal(row: Row): (r: Option<(string, int)>)
    ensures r.Some? <==> |row| >= 7 && !AllSpace(row[6]) && ParseCents(row[5]).Some?
    ensures r.Some? ==> r.value.0 != [] && forall i :: 0 <= i < |r.value.0| ==> !IsSpace(r.value.0[i])
    ensures r.Some? ==> FirstWord(row[6]) == Some(r.value.0)
    ensures r.Some? ==> ParseCents(row[5]) == Some(r.value.1)
  {
    if |row| < 7 then None
    else
      match FirstWord(row[6])
      case None => None
      case Some(date) =>
        match ParseCents(row[5])
        case None => None
        case Some(total) => Some((date, total))
  }

  /** The (date, total) pairs of the rows that are not skipped, in file order. */
  function DatedTotals(rows: seq<Row>): seq<(string, int)> {
    Picked(rows, DatedTotal)
  }

  /** The accumulation loop of calculate_daily_sales (main.py:437-445); the
      result is the defaultdict as its entries in insertion order. */
  method DailySales(rows: seq<Row>) returns (sales: seq<(string, int)>)
    ensures sales == Accumulated(DatedTotals(rows))
  {
    sales := AccumulateRows(rows, DatedTotal);
  }

  /** A skipped row changes nothing, wherever it stands: the rows around it
      are still counted. */
  lemma SkippedRowIgnored(a: seq<Row>, row: Row, b: seq<Row>)
    requires DatedTotal(row).None?
    ensures DatedTotals(a + [row] + b) == DatedTotals(a + b)
  {
    PickedConcat(a + [row], b, DatedTotal);
    PickedConcat(a, [row], DatedTotal);
    PickedConcat(a, b, DatedTotal);
    assert [row][..0] == [];
  }

  /** Daily sales hold one entry per date, in the order the dates first
      appear, and each entry is the sum of the totals of that date's rows; the
      entries add up to the sum of all totals counted. */
  lemma DailySalesMeaning(rows: seq<Row>)
    ensures var sales := Accumulated(DatedTotals(rows));
      && Keys(sales) == FirstSeen(Keys(DatedTotals(rows)))
      && Distinct(Keys(sales))
      && (forall i :: 0 <= i < |sales| ==> sales[i].1 == Total(DatedTotals(rows), sales[i].0))
      && Sum(sales) == Sum(DatedTotals(rows))
  {
    FirstSeenDistinct(Keys(DatedTotals(rows)));
    TallyConserves(DatedTotals(rows));
  }

  /** The totals of a sale's groups, all under the sale's date. */
  function Tagged(groups: seq<Group>, date: string): (s: seq<(string, int)>)
    ensures |s| == |groups| && forall i :: 0 <= i < |groups| ==> s[i] == (date, groups[i].total)
  {
    seq(|groups|, i requires 0 <= i < |groups| => (date, groups[i].total))
  }

  lemma SaleRowDated(index: int, customer: string, g: Group, timestamp: string, date: string)
    requires FirstWord(timestamp) == Some(date)
    ensures DatedTotal(SaleRow(index, customer, g, timestamp)) == Some((date, g.total))
  {
    SaleRowReads(index, customer, g, timestamp);
  }

  /** The rows of one sale, as they read back into the daily sales: every
      row is counted under the sale's date with its group's total. */
  lemma SaleDatedTotals(index: int, customer: string, groups: seq<Group>, timestamp: string, date: string)
    requires FirstWord(timestamp) == Some(date)
    ensures DatedTotals(SaleRows(index, customer, groups, timestamp)) == Tagged(groups, date)
  {
    var rows := SaleRows(index, customer, groups, timestamp);
    forall i | 0 <= i < |rows| ensures DatedTotal(rows[i]) == Some(Tagged(groups, date)[i]) {
      SaleRowDated(index, customer, groups[i], timestamp, date);
    }
    PickedAll(rows, DatedTotal, Tagged(groups, date));
  }

  lemma {:induction false} SameKeyTotal(groups: seq<Group>, date: string)
    ensures Total(Tagged(groups, date), date) == GroupsTotal(groups)
  {
    if groups != [] {
      var init := groups[..|groups| - 1];
      var s := Tagged(groups, date);
      SameKeyTotal(init, date);
      assert s[..|s| - 1] == Tagged(init, date);
    }
  }

  lemma {:induction false} OtherKeyTotal(groups: seq<Group>, date: string, other: string)
    requires other != date
    ensures Total(Tagged(groups, date), other) == 0
  {
    if groups != [] {
      var init := groups[..|groups| - 1];
      var s := Tagged(groups, date);
      OtherKeyTotal(init, date, other);
      assert s[..|s| - 1] == Tagged(init, date);
    }
  }

  /** A checkout adds the sum of its cart's prices to the daily sales of the
      date of its timestamp, and nothing to any other date. */
  lemma CheckoutAddsToItsDay(rows: seq<Row>, cart: seq<Unit>, index: int, customer: string, timestamp: string, date: string, day: string)
    requires FirstWord(timestamp) == Some(date)
    ensures Total(DatedTotals(rows + SaleRows(index, customer, Summary(cart), timestamp)), day)
            == Total(DatedTotals(rows), day) + (if day == date then Sum(Prices(cart)) else 0)
  {
    var groups := Summary(cart);
    PickedConcat(rows, SaleRows(index, customer, groups, timestamp), DatedTotal);
    SaleDatedTotals(index, customer, groups, timestamp, date);
    TotalConcat(DatedTotals(rows), Tagged(groups, date), day);
    if day == date {
      SameKeyTotal(groups, date);
      CartTotalIsSum(cart);
    } else {
      OtherKeyTotal(groups, date, day);
    }
  }

  // ---- get_top_10_sales ----

  /** What one data row adds to the quantities sold: its product and its
      amount, or None when the row is skipped. */
  function Quantity(row: Row): (r: Option<(string, int)>)
    ensures r.Some? <==> |row| >= 5 && ParseInt(row[4]).Some?
    ensures r.Some? ==> r.value == (row[2], ParseInt(row[4]).value)
  {
    if |row| < 5 then None
    else
      match ParseInt(row[4])
      case None => None
      case Some(amount) => Some((row[2], amount))
  }

  /** The (product, amount) pairs of the rows that are not skipped, in file order. */
  function Quantities(rows: seq<Row>): seq<(string, int)> {
    Picked(rows, Quantity)
  }

  /** The accumulation loop of get_top_10_sales (main.py:476-486); the result
      is the Counter as its entries in insertion order. */
  method ProductQuantities(rows: seq<Row>) returns (counts: seq<(string, int)>)
    ensures counts == Accumulated(Quantities(rows))
  {
    counts := AccumulateRows(rows, Quantity);
  }

  /** product_quantities.most_common(10) */
  function TopTen(counts: seq<(string, int)>): seq<(string, int)> {
    MostCommon(counts, 10)
  }

  /** The top ten holds min(10, number of products) distinct products, each
      with the sum of its rows' amounts, by quantity with no increases; every
      product left out sold no more than any product shown, and products with
      equal quantities keep the order in which they first appear. */
  lemma TopTenMeaning(rows: seq<Row>)
    ensures var counts := Accumulated(Quantities(rows)); var top := TopTen(counts);
      && |top| == (if |counts| <= 10 then |counts| else 10)
      && NonIncreasing(top)
      && (forall e :: e in top ==> e in counts && e.1 == Total(Quantities(rows), e.0))
      && (forall x, y :: x in counts && x !in top && y in top ==> x.1 <= y.1)
      && (forall c :: var w := WithCount(top, c); |w| <= |WithCount(counts, c)| && w == WithCount(counts, c)[..|w|])
  {
    var counts := Accumulated(Quantities(rows));
    var top := TopTen(counts);
    MostCommonSorted(counts, 10);
    MostCommonIsTop(counts, 10);
    forall c ensures var w := WithCount(top, c); |w| <= |WithCount(counts, c)| && w == WithCount(counts, c)[..|w|] {
      MostCommonKeepsTies(counts, 10, c);
    }
    forall e | e in top ensures e in counts && e.1 == Total(Quantities(rows), e.0) {
      assert e in multiset(top);
    }
  }

  /** The product and amount of each of a sale's groups. */
  function Amounts(groups: seq<Group>): (s: seq<(string, int)>)
    ensures |s| == |groups| && forall i :: 0 <= i < |groups| ==> s[i] == (groups[i].name, groups[i].amount)
  {
    seq(|groups|, i requires 0 <= i < |groups| => (groups[i].name, groups[i].amount))
  }

  lemma SaleRowQuantity(index: int, customer: string, g: Group, timestamp: string)
    ensures Quantity(SaleRow(index, customer, g, timestamp)) == Some((g.name, g.amount))
  {
    SaleRowReads(index, customer, g, timestamp);
  }

  /** The rows of one sale, as they read back into the quantities: each
      group's product with its amount. */
  lemma SaleQuantities(index: int, customer: string, groups: seq<Group>, timestamp: string)
    ensures Quantities(SaleRows(index, customer, groups, timestamp)) == Amounts(groups)
  {
    var rows := SaleRows(index, customer, groups, timestamp);
    forall i | 0 <= i < |rows| ensures Quantity(rows[i]) == Some(Amounts(groups)[i]) {
      SaleRowQuantity(index, customer, groups[i], timestamp);
    }
    PickedAll(rows, Quantity, Amounts(groups));
  }

  /** The amounts of a cart's groups count each product as many times as it
      is in the cart. */
  lemma GroupAmountsCount(cart: seq<Unit>, product: string)
    ensures var groups := Summary(cart);
      Total(Amounts(groups), product) == Count(cart, product)
  {
    var groups := Summary(cart);
    var s := Amounts(groups);
    NamesAreKeys(cart);
    assert s == Accumulated(Units(cart));
    TallyTotal(Units(cart), product);
  }

  /** A checkout adds to each product's quantity sold the number of its units
      in the cart. */
  lemma CheckoutAddsQuantities(rows: seq<Row>, cart: seq<Unit>, index: int, customer: string, timestamp: string, product: string)
    ensures Total(Quantities(rows + SaleRows(index, customer, Summary(cart), timestamp)), product)
            == Total(Quantities(rows), product) + Count(cart, product)
  {
    var groups := Summary(cart);
    PickedConcat(rows, SaleRows(index, customer, groups, timestamp), Quantity);
    SaleQuantities(index, customer, groups, timestamp);
    TotalConcat(Quantities(rows), Amounts(groups), product);
    GroupAmountsCount(cart, product);
  }
}
