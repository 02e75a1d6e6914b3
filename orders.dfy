/**
 * The current order: a sequence of order lines, at most one per menu item,
 * kept in the order the items were first added. Each line copies the menu
 * item's fields and adds a quantity and a subtotal.
 */
module Orders {
  import opened Menu

  datatype OrderLine = OrderLine(
    id: string, name: string, price: int, imageUrl: string,
    quantity: int, subtotal: int)

  /** The menu item a line was made from: the fields it copied. */
  function ItemOf(l: OrderLine): MenuItem {
    MenuItem(l.id, l.name, l.price, l.imageUrl)
  }

  /** A new line for `q` of `item`: the item's fields, the quantity, and
      the quantity times the item's price. */
  function NewLine(item: MenuItem, q: int): (l: OrderLine)
    ensures ItemOf(l) == item && l.quantity == q && l.subtotal == q * item.price
  {
    OrderLine(item.id, item.name, item.price, item.imageUrl, q, q * item.price)
  }

  // ---------------------------------------------------------------------
  // Invariants of the order

  predicate DistinctIds(order: seq<OrderLine>) {
    forall i, j :: 0 <= i < j < |order| ==> order[i].id != order[j].id
  }

  /** A line copies a menu item, holds a positive quantity, and its
      subtotal is its price times its quantity. */
  predicate LineOk(l: OrderLine) {
    ItemOf(l) in Catalog && l.quantity > 0 && l.subtotal == l.price * l.quantity
  }

  predicate WellFormed(order: seq<OrderLine>) {
    DistinctIds(order) && forall i :: 0 <= i < |order| ==> LineOk(order[i])
  }

  // ---------------------------------------------------------------------
  // totalAmount

  /** The sum of the subtotals, added up from the first line to the last as
      `reduce((sum, item) => sum + item.subtotal, 0)` does. */
  function Total(order: seq<OrderLine>): (t: int)
    ensures (forall i :: 0 <= i < |order| ==> order[i].subtotal >= 0) ==> t >= 0
    ensures (forall i :: 0 <= i < |order| ==> order[i].subtotal > 0) ==> (t > 0 <==> order != [])
  {
    if order == [] then 0
    else
      var init := order[..|order| - 1];
      assert forall i :: 0 <= i < |init| ==> init[i] == order[i];
      Total(init) + order[|order| - 1].subtotal
  }

  /** The total of two orders put together is the sum of their totals. */
  lemma {:induction false} TotalConcat(a: seq<OrderLine>, b: seq<OrderLine>)
    ensures Total(a + b) == Total(a) + Total(b)
    decreases |b|
  {
    if b == [] {
      assert a + b == a;
    } else {
      assert (a + b)[..|a + b| - 1] == a + b[..|b| - 1];
      TotalConcat(a, b[..|b| - 1]);
    }
  }

  /** Replacing one line changes the total by the change in its subtotal. */
  lemma {:induction false} TotalUpdate(order: seq<OrderLine>, i: nat, l: OrderLine)
    requires i < |order|
    ensures Total(order[i := l]) == Total(order) - order[i].subtotal + l.subtotal
  {
    var before, after := order[..i], order[i + 1..];
    assert order == before + [order[i]] + after;
    assert order[i := l] == before + [l] + after;
    TotalConcat(before + [order[i]], after);
    TotalConcat(before, [order[i]]);
    TotalConcat(before + [l], after);
    TotalConcat(before, [l]);
    TotalSingle(l);
    TotalSingle(order[i]);
  }

  /** Every line of a well-formed order adds a positive amount. */
  lemma {:induction false} TotalPositive(order: seq<OrderLine>)
    requires WellFormed(order)
    ensures order == [] <==> Total(order) == 0
    ensures Total(order) >= 0
  {
    forall i | 0 <= i < |order|
      ensures order[i].subtotal > 0
    {
      var l := order[i];
      assert LineOk(l);
      CatalogPrice(ItemOf(l));
      PositiveProduct(l.price, l.quantity);
    }
  }

  /** A price times a quantity, both positive, is positive. */
  lemma {:induction false} PositiveProduct(a: int, b: int)
    requires a > 0 && b > 0
    ensures a * b > 0
  {
  }

  /** Two Dosas and one Chappathi come to 95 rupees. */
  lemma TotalExample()
    ensures Total([NewLine(Catalog[0], 2), NewLine(Catalog[1], 1)]) == 95
  {
    var order := [NewLine(Catalog[0], 2), NewLine(Catalog[1], 1)];
    assert order[1].subtotal == 15 && order[0].subtotal == 80;
    assert order[..1] == [NewLine(Catalog[0], 2)];
    assert order[..1][..0] == [];
    assert Total(order[..1]) == 80;
  }

  // ---------------------------------------------------------------------
  // findIndex and filter

  /** `findIndex(item => item.id === id)`: the first line with that id, or
      -1 when there is none. */
  function FindIndex(order: seq<OrderLine>, id: string): (r: int)
    ensures -1 <= r < |order|
    ensures r >= 0 ==> order[r].id == id && forall j :: 0 <= j < r ==> order[j].id != id
    ensures r == -1 ==> forall j :: 0 <= j < |order| ==> order[j].id != id
  {
    if order == [] then -1
    else if order[0].id == id then 0
    else
      var k := FindIndex(order[1..], id);
      if k == -1 then -1 else k + 1
  }

  /** `filter(item => item.id !== id)`: the lines with another id, in their
      original order. */
  function RemoveById(order: seq<OrderLine>, id: string): (r: seq<OrderLine>)
    ensures |r| <= |order|
    ensures forall l :: l in r <==> l in order && l.id != id
  {
    if order == [] then []
    else if order[0].id == id then RemoveById(order[1..], id)
    else
      var rest := RemoveById(order[1..], id);
      assert forall l :: l in order <==> l == order[0] || l in order[1..];
      [order[0]] + rest
  }

  /** Filtering distributes over concatenation: the kept lines stay in
      their relative order. */
  lemma {:induction false} RemoveByIdConcat(a: seq<OrderLine>, b: seq<OrderLine>, id: string)
    ensures RemoveById(a + b, id) == RemoveById(a, id) + RemoveById(b, id)
  {
    if a == [] {
      assert a + b == b;
    } else {
      assert (a + b)[0] == a[0];
      assert (a + b)[1..] == a[1..] + b;
      RemoveByIdConcat(a[1..], b, id);
    }
  }

  /** When no line has the id, removing it changes nothing. */
  lemma {:induction false} RemoveAbsent(order: seq<OrderLine>, id: string)
    requires forall j :: 0 <= j < |order| ==> order[j].id != id
    ensures RemoveById(order, id) == order
  {
    if order != [] {
      RemoveAbsent(order[1..], id);
      assert order == [order[0]] + order[1..];
    }
  }

  /** Removing the same id twice is the same as removing it once. */
  lemma {:induction false} RemoveIdempotent(order: seq<OrderLine>, id: string)
    ensures RemoveById(RemoveById(order, id), id) == RemoveById(order, id)
  {
    var r := RemoveById(order, id);
    forall j | 0 <= j < |r| ensures r[j].id != id {
      assert r[j] in r;
    }
    RemoveAbsent(r, id);
  }

  /** A line with the id, put in front, is dropped. */
  lemma {:induction false} RemoveHead(l: OrderLine, rest: seq<OrderLine>, id: string)
    requires l.id == id
    ensures RemoveById([l] + rest, id) == RemoveById(rest, id)
  {
    assert ([l] + rest)[1..] == rest;
  }

  /** The lines before the first one with the id are all kept. */
  lemma {:induction false} RemoveBeforeFound(order: seq<OrderLine>, id: string)
    requires FindIndex(order, id) >= 0
    ensures var i := FindIndex(order, id); RemoveById(order[..i], id) == order[..i]
  {
    var before := order[..FindIndex(order, id)];
    forall j | 0 <= j < |before|
      ensures before[j].id != id
    {
      assert before[j] == order[j];
    }
    RemoveAbsent(before, id);
  }

  /** In an order with distinct ids, the lines after line `i` are all kept
      when line `i`'s id is removed. */
  lemma {:induction false} RemoveAfterFound(order: seq<OrderLine>, i: nat)
    requires DistinctIds(order) && i < |order|
    ensures RemoveById(order[i + 1..], order[i].id) == order[i + 1..]
  {
    var after := order[i + 1..];
    forall j | 0 <= j < |after|
      ensures after[j].id != order[i].id
    {
      assert after[j] == order[i + 1 + j];
    }
    RemoveAbsent(after, order[i].id);
  }

  /** In an order with distinct ids, removing an id that is present drops
      exactly the line `findIndex` finds and keeps the others in order. */
  lemma {:induction false} RemovePresent(order: seq<OrderLine>, id: string)
    requires DistinctIds(order)
    requires FindIndex(order, id) >= 0
    ensures var i := FindIndex(order, id);
      RemoveById(order, id) == order[..i] + order[i + 1..]
  {
    var i := FindIndex(order, id);
    var before, after := order[..i], order[i + 1..];
    var tail := [order[i]] + after;
    assert order == before + tail;
    RemoveByIdConcat(before, tail, id);
    RemoveHead(order[i], after, id);
    RemoveBeforeFound(order, id);
    RemoveAfterFound(order, i);
  }

  /** Dropping one line keeps an order well formed. */
  lemma {:induction false} DropOneWellFormed(order: seq<OrderLine>, i: nat)
    requires WellFormed(order) && i < |order|
    ensures WellFormed(order[..i] + order[i + 1..])
  {
    var r := order[..i] + order[i + 1..];
    forall a | 0 <= a < |r|
      ensures r[a] == order[if a < i then a else a + 1]
    {
    }
    forall a, b | 0 <= a < b < |r|
      ensures r[a].id != r[b].id
    {
      assert r[a] == order[if a < i then a else a + 1];
      assert r[b] == order[if b < i then b else b + 1];
    }
  }

  /** Removal keeps the order well formed. */
  lemma {:induction false} RemoveWellFormed(order: seq<OrderLine>, id: string)
    requires WellFormed(order)
    ensures WellFormed(RemoveById(order, id))
  {
    if FindIndex(order, id) >= 0 {
      RemovePresent(order, id);
      DropOneWellFormed(order, FindIndex(order, id));
    } else {
      RemoveAbsent(order, id);
    }
  }

  lemma {:induction false} TotalSingle(l: OrderLine)
    ensures Total([l]) == l.subtotal
  {
    assert [l][..0] == [];
  }

  /** Dropping line `i` takes its subtotal off the total. */
  lemma {:induction false} TotalDropOne(order: seq<OrderLine>, i: nat)
    requires i < |order|
    ensures Total(order[..i] + order[i + 1..]) == Total(order) - order[i].subtotal
  {
    var before, after := order[..i], order[i + 1..];
    var tail := [order[i]] + after;
    assert order == before + tail;
    TotalConcat(before, tail);
    TotalConcat([order[i]], after);
    TotalSingle(order[i]);
    TotalConcat(before, after);
  }

  /** Removing an id takes exactly its line's subtotal off the total. */
  lemma {:induction false} RemoveTotal(order: seq<OrderLine>, id: string)
    requires DistinctIds(order)
    ensures var i := FindIndex(order, id);
      Total(RemoveById(order, id)) == Total(order) - (if i >= 0 then order[i].subtotal else 0)
  {
    var i := FindIndex(order, id);
    var kept := RemoveById(order, id);
    if i >= 0 {
      RemovePresent(order, id);
      assert kept == order[..i] + order[i + 1..];
      TotalDropOne(order, i);
    } else {
      RemoveAbsent(order, id);
      assert kept == order;
    }
  }

  // ---------------------------------------------------------------------
  // Adding to the order

  /** The order after adding `q` of `item`: when a line with the item's id
      exists, its quantity grows by `q` and its subtotal becomes the new
      quantity times the price of `item` (not the line's own price);
      otherwise a new line is appended. */
  function Added(order: seq<OrderLine>, item: MenuItem, q: int): (r: seq<OrderLine>)
    ensures var i := FindIndex(order, item.id);
      if i > -1 then
        |r| == |order| &&
        r[i].id == order[i].id && r[i].name == order[i].name &&
        r[i].price == order[i].price && r[i].imageUrl == order[i].imageUrl &&
        r[i].quantity == order[i].quantity + q &&
        r[i].subtotal == r[i].quantity * item.price &&
        forall j :: 0 <= j < |order| && j != i ==> r[j] == order[j]
      else
        |r| == |order| + 1 && r[..|order|] == order && r[|order|] == NewLine(item, q)
  {
    var i := FindIndex(order, item.id);
    if i > -1 then
      var qty := order[i].quantity + q;
      order[i := order[i].(quantity := qty, subtotal := qty * item.price)]
    else
      order + [NewLine(item, q)]
  }

  /** The total quantity ordered of the item with id `id`. */
  function QuantityOf(order: seq<OrderLine>, id: string): int {
    if order == [] then 0
    else (if order[0].id == id then order[0].quantity else 0) + QuantityOf(order[1..], id)
  }

  lemma {:induction false} QuantityOfConcat(a: seq<OrderLine>, b: seq<OrderLine>, id: string)
    ensures QuantityOf(a + b, id) == QuantityOf(a, id) + QuantityOf(b, id)
  {
    if a == [] {
      assert a + b == b;
    } else {
      assert (a + b)[0] == a[0];
      assert (a + b)[1..] == a[1..] + b;
      QuantityOfConcat(a[1..], b, id);
    }
  }

  lemma {:induction false} QuantityOfSingle(l: OrderLine, id: string)
    ensures QuantityOf([l], id) == if l.id == id then l.quantity else 0
  {
    assert [l][1..] == [];
  }

  /** Adding `q` of `item` raises the quantity ordered of that item by
      exactly `q` and leaves every other item's quantity as it was. */
  lemma {:induction false} AddedQuantity(order: seq<OrderLine>, item: MenuItem, q: int, id: string)
    ensures QuantityOf(Added(order, item, q), id)
      == QuantityOf(order, id) + (if id == item.id then q else 0)
  {
    var i := FindIndex(order, item.id);
    if i > -1 {
      var l := order[i].(quantity := order[i].quantity + q, subtotal := (order[i].quantity + q) * item.price);
      assert order == order[..i] + [order[i]] + order[i + 1..];
      assert Added(order, item, q) == order[..i] + [l] + order[i + 1..];
      QuantityOfConcat(order[..i] + [order[i]], order[i + 1..], id);
      QuantityOfConcat(order[..i], [order[i]], id);
      QuantityOfConcat(order[..i] + [l], order[i + 1..], id);
      QuantityOfConcat(order[..i], [l], id);
      QuantityOfSingle(order[i], id);
      QuantityOfSingle(l, id);
    } else {
      QuantityOfConcat(order, [NewLine(item, q)], id);
      QuantityOfSingle(NewLine(item, q), id);
    }
  }

  /** Adding a positive quantity of a menu item keeps the order well
      formed: ids stay distinct, and the subtotal is still price times
      quantity because the line and the item share an id and so a price. */
  lemma {:induction false} AddedWellFormed(order: seq<OrderLine>, item: MenuItem, q: int)
    requires WellFormed(order) && item in Catalog && q > 0
    ensures WellFormed(Added(order, item, q))
  {
    var i := FindIndex(order, item.id);
    var r := Added(order, item, q);
    if i > -1 {
      SameIdSameItem(ItemOf(order[i]), item);
      assert LineOk(r[i]);
      assert forall j :: 0 <= j < |r| ==> r[j].id == order[j].id;
    } else {
      assert forall j :: 0 <= j < |order| ==> r[j] == order[j];
      assert LineOk(r[|order|]);
    }
  }

  /** Raising line `i`'s quantity by `q` at price `p`, when its subtotal was
      its quantity times `p`, adds `q` times `p` to the total. */
  lemma {:induction false} MergeTotal(order: seq<OrderLine>, i: nat, p: int, q: int)
    requires i < |order| && order[i].subtotal == order[i].quantity * p
    ensures var q0 := order[i].quantity;
      Total(order[i := order[i].(quantity := q0 + q, subtotal := (q0 + q) * p)]) == Total(order) + q * p
  {
    var q0 := order[i].quantity;
    assert (q0 + q) * p == q0 * p + q * p;
    TotalUpdate(order, i, order[i].(quantity := q0 + q, subtotal := (q0 + q) * p));
  }

  /** A line for a menu item is priced as that item. */
  lemma {:induction false} LinePrice(l: OrderLine, item: MenuItem)
    requires LineOk(l) && item in Catalog && l.id == item.id
    ensures l.subtotal == l.quantity * item.price
  {
    SameIdSameItem(ItemOf(l), item);
  }

  /** Adding `q` of a menu item to a well-formed order adds `q` times its
      price to the total. */
  lemma {:induction false} AddedTotal(order: seq<OrderLine>, item: MenuItem, q: int)
    requires WellFormed(order) && item in Catalog
    ensures Total(Added(order, item, q)) == Total(order) + q * item.price
  {
    var i := FindIndex(order, item.id);
    if i > -1 {
      assert LineOk(order[i]);
      LinePrice(order[i], item);
      MergedTotal(order, item, q);
    } else {
      AppendedTotal(order, item, q);
    }
  }

  /** The merge branch of `Added`, in terms of the line's old subtotal. */
  lemma {:induction false} MergedTotal(order: seq<OrderLine>, item: MenuItem, q: int)
    requires FindIndex(order, item.id) > -1
    requires var l := order[FindIndex(order, item.id)]; l.subtotal == l.quantity * item.price
    ensures Total(Added(order, item, q)) == Total(order) + q * item.price
  {
    var i := FindIndex(order, item.id);
    var l := order[i];
    var merged := l.(quantity := l.quantity + q, subtotal := (l.quantity + q) * item.price);
    assert Added(order, item, q) == order[i := merged];
    MergeTotal(order, i, item.price, q);
  }

  /** The append branch of `Added`. */
  lemma {:induction false} AppendedTotal(order: seq<OrderLine>, item: MenuItem, q: int)
    requires FindIndex(order, item.id) == -1
    ensures Total(Added(order, item, q)) == Total(order) + q * item.price
  {
    var r := order + [NewLine(item, q)];
    assert Added(order, item, q) == r;
    assert r[..|r| - 1] == order;
  }

  /** Adding the same item twice to an empty order gives one line holding
      both quantities, not two lines. */
  lemma {:induction false} AddedTwice(item: MenuItem, q1: int, q2: int)
    ensures Added(Added([], item, q1), item, q2) == [NewLine(item, q1 + q2)]
  {
    var once := Added([], item, q1);
    assert once == [NewLine(item, q1)];
    assert FindIndex(once, item.id) == 0;
  }
}
