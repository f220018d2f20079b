/** The cart of the point-of-sale screen: the units added one at a time, and
    the grouping by product that the cart display, the receipt and the ledger
    all compute from it (main.py:65-72, 91-101, 137-147). */
module Cart {
  import opened Tally

  /** One unit in the cart: the product and the unit price the catalog held
      for it when it was added. */
  datatype Unit = Unit(name: string, price: int)

  /** One line of the grouped cart: the product, the price of its first unit,
      the number of its units and the sum of their prices. */
  datatype Group = Group(name: string, price: int, amount: int, total: int)

  function Names(cart: seq<Unit>): (ns: seq<string>)
    ensures |ns| == |cart| && forall i :: 0 <= i < |cart| ==> ns[i] == cart[i].name
  {
    seq(|cart|, i requires 0 <= i < |cart| => cart[i].name)
  }

  /** The cart as (product, price) pairs. */
  function Prices(cart: seq<Unit>): (s: seq<(string, int)>)
    ensures |s| == |cart| && forall i :: 0 <= i < |cart| ==> s[i] == (cart[i].name, cart[i].price)
  {
    seq(|cart|, i requires 0 <= i < |cart| => (cart[i].name, cart[i].price))
  }

  /** The cart as (product, 1) pairs, one per unit. */
  function Units(cart: seq<Unit>): (s: seq<(string, int)>)
    ensures |s| == |cart| && forall i :: 0 <= i < |cart| ==> s[i] == (cart[i].name, 1)
  {
    seq(|cart|, i requires 0 <= i < |cart| => (cart[i].name, 1))
  }

  /** The number of units of product n in the cart. */
  function Count(cart: seq<Unit>, n: string): int {
    Total(Units(cart), n)
  }

  /** The price of the first unit of product n in the cart. */
  function FirstPrice(cart: seq<Unit>, n: string): int
    requires n in Names(cart)
  {
    cart[FirstIndex(Names(cart), n)].price
  }

  /** The group of product n: the first unit's price, the number of units
      and the sum of their prices. */
  function GroupOf(cart: seq<Unit>, n: string): Group
    requires n in Names(cart)
  {
    Group(n, FirstPrice(cart, n), Count(cart, n), Total(Prices(cart), n))
  }

  /** The grouped cart: one group per product, in the order in which the
      products were first added. */
  function Summary(cart: seq<Unit>): seq<Group> {
    var names := FirstSeen(Names(cart));
    FirstSeenMembers(Names(cart));
    seq(|names|, i requires 0 <= i < |names| => GroupOf(cart, names[i]))
  }

  /** The position of the group of product n, or -1 (the dict lookup). */
  function FindGroup(groups: seq<Group>, n: string): (i: int)
    ensures -1 <= i < |groups|
    ensures i >= 0 ==> groups[i].name == n
    ensures i < 0 ==> forall j :: 0 <= j < |groups| ==> groups[j].name != n
  {
    if groups == [] then -1
    else if groups[0].name == n then 0
    else var j := FindGroup(groups[1..], n); if j < 0 then -1 else j + 1
  }

  /** The sum of the group totals: the amount charged at checkout. */
  function GroupsTotal(groups: seq<Group>): int {
    if groups == [] then 0 else GroupsTotal(groups[..|groups| - 1]) + groups[|groups| - 1].total
  }

  lemma NamesAreKeys(cart: seq<Unit>)
    ensures Keys(Prices(cart)) == Names(cart) && Keys(Units(cart)) == Names(cart)
  {
  }

  lemma NamesAppend(cart: seq<Unit>, u: Unit)
    ensures Names(cart + [u]) == Names(cart) + [u.name]
    ensures Prices(cart + [u]) == Prices(cart) + [(u.name, u.price)]
    ensures Units(cart + [u]) == Units(cart) + [(u.name, 1)]
  {
  }

  lemma FirstPriceAppend(cart: seq<Unit>, u: Unit, n: string)
    requires n in Names(cart + [u])
    ensures FirstPrice(cart + [u], n) == if n in Names(cart) then FirstPrice(cart, n) else u.price
  {
    NamesAppend(cart, u);
    if n in Names(cart) {
      FirstIndexAppend(Names(cart), u.name, n);
    } else {
      assert n == u.name;
      FirstIndexNew(Names(cart), n);
    }
  }

  /** Adding a unit changes only the group of its own product. */
  lemma GroupOfAppend(cart: seq<Unit>, u: Unit, n: string)
    requires n in Names(cart + [u])
    ensures GroupOf(cart + [u], n) ==
      if n !in Names(cart) then Group(n, u.price, 1, u.price)
      else if n == u.name then GroupOf(cart, n).(amount := Count(cart, n) + 1, total := Total(Prices(cart), n) + u.price)
      else GroupOf(cart, n)
  {
    NamesAppend(cart, u);
    FirstPriceAppend(cart, u, n);
    TotalAppend(Units(cart), (u.name, 1), n);
    TotalAppend(Prices(cart), (u.name, u.price), n);
    if n !in Names(cart) {
      NamesAreKeys(cart);
      TotalAbsent(Units(cart), n);
      TotalAbsent(Prices(cart), n);
    }
  }

  lemma FirstSeenNamesAppend(cart: seq<Unit>, u: Unit)
    ensures FirstSeen(Names(cart + [u])) ==
      if u.name in FirstSeen(Names(cart)) then FirstSeen(Names(cart)) else FirstSeen(Names(cart)) + [u.name]
  {
    NamesAppend(cart, u);
    assert (Names(cart) + [u.name])[..|cart|] == Names(cart);
  }

  /** A unit of a product not yet in the cart opens a group at the end. */
  lemma SummaryAppendNew(cart: seq<Unit>, u: Unit)
    requires u.name !in Names(cart)
    ensures Summary(cart + [u]) == Summary(cart) + [Group(u.name, u.price, 1, u.price)]
  {
    var g, g' := Summary(cart), Summary(cart + [u]);
    var names := FirstSeen(Names(cart));
    FirstSeenNamesAppend(cart, u);
    FirstSeenMembers(Names(cart));
    NamesAppend(cart, u);
    forall j | 0 <= j < |names| ensures g'[j] == g[j] {
      GroupOfAppend(cart, u, names[j]);
    }
    GroupOfAppend(cart, u, u.name);
  }

  /** A unit of the product of group i adds to that group only. */
  lemma SummaryAppendOld(cart: seq<Unit>, u: Unit, i: nat)
    requires i < |Summary(cart)| && Summary(cart)[i].name == u.name
    ensures var g := Summary(cart);
      Summary(cart + [u]) == g[i := g[i].(amount := g[i].amount + 1, total := g[i].total + u.price)]
  {
    var g, g' := Summary(cart), Summary(cart + [u]);
    var h := g[i := g[i].(amount := g[i].amount + 1, total := g[i].total + u.price)];
    forall j | 0 <= j < |g| ensures j < |g'| && g'[j] == h[j] {
      SummaryAppendOldAt(cart, u, i, j);
    }
    SummaryAppendOldAt(cart, u, i, 0);
  }

  lemma SummaryAppendOldAt(cart: seq<Unit>, u: Unit, i: nat, j: nat)
    requires i < |Summary(cart)| && Summary(cart)[i].name == u.name && j < |Summary(cart)|
    ensures var g, g' := Summary(cart), Summary(cart + [u]);
      && |g'| == |g|
      && g'[j] == if j == i then g[i].(amount := g[i].amount + 1, total := g[i].total + u.price) else g[j]
  {
    var names := FirstSeen(Names(cart));
    OldNameAt(cart, u, i, j);
    FirstSeenNamesAppend(cart, u);
    assert Summary(cart)[j] == GroupOf(cart, names[j]);
    assert Summary(cart + [u])[j] == GroupOf(cart + [u], names[j]);
    GroupOfAppend(cart, u, names[j]);
  }

  /** The product of group i is in the cart, and group j is of it exactly when j is i. */
  lemma OldNameAt(cart: seq<Unit>, u: Unit, i: nat, j: nat)
    requires i < |Summary(cart)| && Summary(cart)[i].name == u.name && j < |Summary(cart)|
    ensures var names := FirstSeen(Names(cart));
      && u.name in names && names[i] == u.name && names[j] in Names(cart)
      && (names[j] == u.name <==> j == i)
  {
    var names := FirstSeen(Names(cart));
    FirstSeenDistinct(Names(cart));
    assert Summary(cart)[i] == GroupOf(cart, names[i]);
  }

  /** One pass of the grouping loop: a unit of a product already grouped
      adds one to that group's amount and its price to the group's total; a
      unit of a new product opens a group at the end. */
  function AddUnit(groups: seq<Group>, u: Unit): seq<Group> {
    var i := FindGroup(groups, u.name);
    if i < 0 then groups + [Group(u.name, u.price, 1, u.price)]
    else groups[i := groups[i].(amount := groups[i].amount + 1, total := groups[i].total + u.price)]
  }

  /** The groups as the loop builds them, one unit at a time. */
  function Grouped(cart: seq<Unit>): seq<Group> {
    if cart == [] then [] else AddUnit(Grouped(cart[..|cart| - 1]), cart[|cart| - 1])
  }

  /** One pass of the grouping loop keeps the groups equal to the summary of
      the units seen so far. */
  lemma SummaryStep(cart: seq<Unit>, u: Unit)
    ensures Summary(cart + [u]) == AddUnit(Summary(cart), u)
  {
    var g := Summary(cart);
    var i := FindGroup(g, u.name);
    if i < 0 {
      var names := FirstSeen(Names(cart));
      FirstSeenMembers(Names(cart));
      forall j | 0 <= j < |names| ensures names[j] != u.name {
        assert g[j].name == names[j];
      }
      SummaryAppendNew(cart, u);
    } else {
      SummaryAppendOld(cart, u, i);
    }
  }

  /** Grouping unit by unit gives one group per product, as Summary states. */
  lemma {:induction false} GroupedIsSummary(cart: seq<Unit>)
    ensures Grouped(cart) == Summary(cart)
  {
    if cart != [] {
      var init, u := cart[..|cart| - 1], cart[|cart| - 1];
      assert init + [u] == cart;
      GroupedIsSummary(init);
      SummaryStep(init, u);
    }
  }

  /** The grouping loop (main.py:65-72, repeated at 91-96 and 137-143). */
  method GroupCart(cart: seq<Unit>) returns (groups: seq<Group>)
    ensures groups == Summary(cart)
  {
    groups := [];
    for k := 0 to |cart|
      invariant groups == Grouped(cart[..k])
    {
      var u := cart[k];
      assert cart[..k + 1][..k] == cart[..k];
      var i := FindGroup(groups, u.name);
      if i < 0 {
        groups := groups + [Group(u.name, u.price, 1, u.price)];
      } else {
        groups := groups[i := groups[i].(amount := groups[i].amount + 1, total := groups[i].total + u.price)];
      }
    }
    assert cart[..|cart|] == cart;
    GroupedIsSummary(cart);
  }

  /** There is exactly one group per product in the cart, and the groups stand
      in the order in which their products were first added. */
  lemma SummaryOrder(cart: seq<Unit>)
    ensures forall n :: (exists i :: 0 <= i < |Summary(cart)| && Summary(cart)[i].name == n) <==> n in Names(cart)
    ensures forall i, j :: 0 <= i < j < |Summary(cart)| ==> Summary(cart)[i].name != Summary(cart)[j].name
    ensures forall i, j :: 0 <= i < j < |Summary(cart)| ==>
      SeenBefore(Names(cart), Summary(cart)[i].name, Summary(cart)[j].name)
  {
    var names := FirstSeen(Names(cart));
    FirstSeenMembers(Names(cart));
    FirstSeenDistinct(Names(cart));
    FirstSeenOrder(Names(cart));
    forall n | n in Names(cart) ensures exists i :: 0 <= i < |Summary(cart)| && Summary(cart)[i].name == n {
      var i :| 0 <= i < |names| && names[i] == n;
      assert Summary(cart)[i].name == n;
    }
  }

  lemma {:induction false} GroupsTotalIsSum(groups: seq<Group>, t: seq<(string, int)>)
    requires |groups| == |t| && forall i :: 0 <= i < |t| ==> groups[i].total == t[i].1
    ensures GroupsTotal(groups) == Sum(t)
  {
    if t != [] {
      GroupsTotalIsSum(groups[..|groups| - 1], t[..|t| - 1]);
    }
  }

  /** The amount charged for the cart: the sum of the group totals. */
  function CartTotal(cart: seq<Unit>): int {
    GroupsTotal(Summary(cart))
  }

  /** Grouping loses no money: the group totals add up to the sum of the
      prices of all units in the cart, in whatever order they were added. */
  lemma CartTotalIsSum(cart: seq<Unit>)
    ensures CartTotal(cart) == Sum(Prices(cart))
  {
    NamesAreKeys(cart);
    GroupsTotalIsSum(Summary(cart), Accumulated(Prices(cart)));
    TallyConserves(Prices(cart));
  }

  function GroupsAmount(groups: seq<Group>): int {
    if groups == [] then 0 else GroupsAmount(groups[..|groups| - 1]) + groups[|groups| - 1].amount
  }

  lemma {:induction false} GroupsAmountIsSum(groups: seq<Group>, t: seq<(string, int)>)
    requires |groups| == |t| && forall i :: 0 <= i < |t| ==> groups[i].amount == t[i].1
    ensures GroupsAmount(groups) == Sum(t)
  {
    if t != [] {
      GroupsAmountIsSum(groups[..|groups| - 1], t[..|t| - 1]);
    }
  }

  lemma {:induction false} SumOfOnes(s: seq<(string, int)>)
    requires forall i :: 0 <= i < |s| ==> s[i].1 == 1
    ensures Sum(s) == |s|
  {
    if s != [] {
      SumOfOnes(s[..|s| - 1]);
    }
  }

  /** Every unit is counted in exactly one group: the amounts add up to the
      number of units in the cart. */
  lemma AmountsCoverCart(cart: seq<Unit>)
    ensures GroupsAmount(Summary(cart)) == |cart|
  {
    NamesAreKeys(cart);
    GroupsAmountIsSum(Summary(cart), Accumulated(Units(cart)));
    TallyConserves(Units(cart));
    SumOfOnes(Units(cart));
  }

  // ---- update_cart's displayed total (main.py:98-102) ----

  /** The total the cart display shows: each group's first price times its amount. */
  function DisplayTotal(groups: seq<Group>): int {
    if groups == [] then 0
    else DisplayTotal(groups[..|groups| - 1]) + groups[|groups| - 1].price * groups[|groups| - 1].amount
  }

  /** As written, the displayed total can differ from what checkout charges:
      add_to_cart reloads the catalog on every add, so two units of one
      product can carry different prices, and the display multiplies the first
      price by the amount. */
  lemma DisplayTotalDiffers()
    ensures var cart := [Unit("Apple", 100), Unit("Apple", 120)];
      DisplayTotal(Summary(cart)) == 200 && CartTotal(cart) == 220 && Sum(Prices(cart)) == 220
  {
    var a, b := Unit("Apple", 100), Unit("Apple", 120);
    assert [a, b] == [a] + [b] && [a] == [] + [a];
    SummaryStep([], a);
    SummaryStep([a], b);
    CartTotalIsSum([a, b]);
    var g := Summary([a, b]);
    assert g == [Group("Apple", 100, 2, 220)];
    assert g[..0] == [];
  }

  /** Where every group's total is its price times its amount, the displayed
      total is the amount charged. */
  lemma {:induction false} DisplayTotalOfExactGroups(groups: seq<Group>)
    requires forall i :: 0 <= i < |groups| ==> groups[i].total == groups[i].price * groups[i].amount
    ensures DisplayTotal(groups) == GroupsTotal(groups)
  {
    if groups != [] {
      DisplayTotalOfExactGroups(groups[..|groups| - 1]);
    }
  }

  /** When every unit of product n costs p, the units of n cost p times their count. */
  lemma {:induction false} TotalOfOnePrice(cart: seq<Unit>, n: string, p: int)
    requires forall i :: 0 <= i < |cart| && cart[i].name == n ==> cart[i].price == p
    ensures Total(Prices(cart), n) == p * Count(cart, n)
  {
    if cart != [] {
      var init := cart[..|cart| - 1];
      TotalOfOnePrice(init, n, p);
      assert Prices(cart)[..|cart| - 1] == Prices(init);
      assert Units(cart)[..|cart| - 1] == Units(init);
    }
  }

  /** The display is right whenever every unit of a product was added at the
      same price, as happens when the catalog does not change while the cart
      is filled. */
  lemma DisplayTotalOfOnePrice(cart: seq<Unit>)
    requires forall i, j :: 0 <= i < |cart| && 0 <= j < |cart| && cart[i].name == cart[j].name ==> cart[i].price == cart[j].price
    ensures DisplayTotal(Summary(cart)) == CartTotal(cart)
  {
    var groups := Summary(cart);
    FirstSeenMembers(Names(cart));
    forall i | 0 <= i < |groups| ensures groups[i].total == groups[i].price * groups[i].amount {
      var n := FirstSeen(Names(cart))[i];
      var k := FirstIndex(Names(cart), n);
      TotalOfOnePrice(cart, n, cart[k].price);
    }
    DisplayTotalOfExactGroups(groups);
  }

  // ---- remove_from_cart (main.py:98-99, 120-121) ----

  /** As written, the delete button of display row i deletes the unit at
      position i of the raw cart: with two apples and then a banana, the
      banana's button (row 1) removes an apple and the banana stays. */
  lemma RemoveRawPositionMisses()
    ensures var cart := [Unit("Apple", 100), Unit("Apple", 100), Unit("Banana", 50)];
      && Summary(cart) == [Group("Apple", 100, 2, 200), Group("Banana", 50, 1, 50)]
      && Summary(cart[..1] + cart[2..]) == [Group("Apple", 100, 1, 100), Group("Banana", 50, 1, 50)]
  {
    var a, b := Unit("Apple", 100), Unit("Banana", 50);
    assert [a, a, b][..1] + [a, a, b][2..] == [a, b];
    TwoApplesAndBanana(a, b);
    AppleAndBanana(a, b);
  }

  lemma TwoApplesAndBanana(a: Unit, b: Unit)
    requires a == Unit("Apple", 100) && b == Unit("Banana", 50)
    ensures Summary([a, a, b]) == [Group("Apple", 100, 2, 200), Group("Banana", 50, 1, 50)]
  {
    assert [a, a, b] == [a, a] + [b] && [a, a] == [a] + [a] && [a] == [] + [a];
    SummaryStep([], a);
    SummaryStep([a], a);
    SummaryStep([a, a], b);
  }

  lemma AppleAndBanana(a: Unit, b: Unit)
    requires a == Unit("Apple", 100) && b == Unit("Banana", 50)
    ensures Summary([a, b]) == [Group("Apple", 100, 1, 100), Group("Banana", 50, 1, 50)]
  {
    assert [a, b] == [a] + [b] && [a] == [] + [a];
    SummaryStep([], a);
    SummaryStep([a], b);
  }

  /** What the delete button of display row g evidently means: take one unit
      of that row's product out of the cart (its first unit). */
  function RemoveFromGroup(cart: seq<Unit>, g: nat): seq<Unit>
    requires g < |Summary(cart)|
  {
    SummaryOrder(cart);
    var k := FirstIndex(Names(cart), Summary(cart)[g].name);
    cart[..k] + cart[k + 1..]
  }

  /** Removing from row g takes exactly one unit of that row's product and
      leaves the count of every other product unchanged. */
  lemma RemoveFromGroupCounts(cart: seq<Unit>, g: nat)
    requires g < |Summary(cart)|
    ensures |RemoveFromGroup(cart, g)| == |cart| - 1
    ensures forall n :: Count(RemoveFromGroup(cart, g), n)
                        == Count(cart, n) - (if n == Summary(cart)[g].name then 1 else 0)
  {
    SummaryOrder(cart);
    var name := Summary(cart)[g].name;
    var k := FirstIndex(Names(cart), name);
    var r := cart[..k] + cart[k + 1..];
    assert Units(r) == Units(cart)[..k] + Units(cart)[k + 1..];
    forall n ensures Count(r, n) == Count(cart, n) - (if n == name then 1 else 0) {
      TotalRemove(Units(cart), k, n);
    }
  }
}
