/**
 * `Restaurant#cost(*orders)`: the bill for any number of orders, each a Ruby
 * Hash from menu item to quantity, priced from the restaurant's menu.
 */
module Orders {

  import opened Wrappers

  type Item = string

  /** One order: item to quantity. */
  type Order = map<Item, int>

  /** Price of one order: the sum of price times quantity over its items. */
  ghost function OrderCost(menu: map<Item, int>, ord: Order): int
    requires ord.Keys <= menu.Keys
    decreases |ord|
  {
    if ord == map[] then 0
    else
      var k :| k in ord;
      menu[k] * ord[k] + OrderCost(menu, ord - {k})
  }

  /** Every item of every order is on the menu. */
  predicate OnMenu(menu: map<Item, int>, orders: seq<Order>) {
    forall j :: 0 <= j < |orders| ==> orders[j].Keys <= menu.Keys
  }

  /** Price of all orders, summed in the order they are given. */
  ghost function TotalCost(menu: map<Item, int>, orders: seq<Order>): int
    requires OnMenu(menu, orders)
  {
    if orders == [] then 0
    else TotalCost(menu, orders[..|orders| - 1]) + OrderCost(menu, orders[|orders| - 1])
  }

  /** The items of `ord` that are in `ks`. */
  function Restrict(ord: Order, ks: set<Item>): (r: Order)
    ensures r.Keys == ord.Keys * ks
    ensures forall k :: k in r ==> r[k] == ord[k]
  {
    map k | k in ord && k in ks :: ord[k]
  }

  /** Any item may be priced first: the cost does not depend on the order of the items. */
  lemma {:induction false} OrderCostRemove(menu: map<Item, int>, ord: Order, k: Item)
    requires ord.Keys <= menu.Keys && k in ord
    ensures OrderCost(menu, ord) == menu[k] * ord[k] + OrderCost(menu, ord - {k})
    decreases |ord|
  {
    var k' :| k' in ord && OrderCost(menu, ord) == menu[k'] * ord[k'] + OrderCost(menu, ord - {k'});
    if k' != k {
      OrderCostRemove(menu, ord - {k'}, k);
      OrderCostRemove(menu, ord - {k}, k');
      assert ord - {k'} - {k} == ord - {k} - {k'};
    }
  }

  /** Two orders with no item in common cost, together, the sum of their costs. */
  lemma {:induction false} OrderCostUnion(menu: map<Item, int>, a: Order, b: Order)
    requires a.Keys <= menu.Keys && b.Keys <= menu.Keys && a.Keys !! b.Keys
    ensures OrderCost(menu, a + b) == OrderCost(menu, a) + OrderCost(menu, b)
    decreases |a|
  {
    if a == map[] {
      assert a + b == b;
    } else {
      var k :| k in a;
      UnionWithout(a, b, k);
      OrderCostRemove(menu, a, k);
      OrderCostRemove(menu, a + b, k);
      OrderCostUnion(menu, a - {k}, b);
    }
  }

  lemma UnionWithout(a: Order, b: Order, k: Item)
    requires a.Keys !! b.Keys && k in a
    ensures k in a + b && (a + b)[k] == a[k]
    ensures (a + b) - {k} == (a - {k}) + b
    ensures (a - {k}).Keys !! b.Keys && |a - {k}| < |a|
  {
  }

  /** An order of `q` times one item costs `q` times its price. */
  lemma SingleItemCost(menu: map<Item, int>, item: Item, q: int)
    requires item in menu
    ensures OrderCost(menu, map[item := q]) == menu[item] * q
  {
    OrderCostRemove(menu, map[item := q], item);
    assert map[item := q] - {item} == map[];
  }

  class Restaurant {
    const menu: map<Item, int>

    constructor (menu: map<Item, int>)
      ensures this.menu == menu
    {
      this.menu := menu;
    }

    /**
     * `None` when an ordered item is not on the menu: Ruby then multiplies
     * `nil` by the quantity and raises `NoMethodError`.
     */
    method Cost(orders: seq<Order>) returns (total: Option<int>)
      ensures total.None? <==> !OnMenu(menu, orders)
      ensures total.Some? ==> OnMenu(menu, orders) && total.value == TotalCost(menu, orders)
    {
      var sum := 0;
      for j := 0 to |orders|
        invariant OnMenu(menu, orders[..j])
        invariant sum == TotalCost(menu, orders[..j])
      {
        var ord := orders[j];
        var done: set<Item> := {};
        var rest := ord.Keys;
        while rest != {}
          invariant rest <= ord.Keys && done == ord.Keys - rest
          invariant done <= menu.Keys
          invariant sum == TotalCost(menu, orders[..j]) + OrderCost(menu, Restrict(ord, done))
          decreases rest
        {
          var i :| i in rest;
          if i !in menu {
            return None;
          }
          var c := menu[i] * ord[i];
          OrderCostRemove(menu, Restrict(ord, done + {i}), i);
          assert Restrict(ord, done + {i}) - {i} == Restrict(ord, done);
          sum := sum + c;
          done, rest := done + {i}, rest - {i};
        }
        assert Restrict(ord, done) == ord;
        assert orders[..j + 1][..j] == orders[..j];
      }
      assert orders[..|orders|] == orders;
      return Some(sum);
    }
  }
}
