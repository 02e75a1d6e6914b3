/**
 * The order-taking screen: the six pieces of state the screen keeps and
 * the handlers the buttons and the text field call. Each handler is a
 * method that assigns the fields its setters assign; a re-render between
 * two handlers sees the fields as the previous handler left them.
 */
module Screen {
  import opened Wrappers
  import opened JsText
  import opened Menu
  import opened Orders
  import opened Messages

  /** The message after adding `q` of `item` to `order`: "Added q more"
      when the item already had a line, "(xq) added" when it is new.
      Either way it names the dish and shows the quantity. */
  function AddedMessage(order: seq<OrderLine>, item: MenuItem, q: nat): (m: string)
    ensures Includes(m, item.name) && Includes(m, NatToString(q))
  {
    if FindIndex(order, item.id) > -1 then MoreAdded(q, item.name) else NewAdded(item.name, q)
  }

  /** Adding a menu item is reported in the success style exactly when the
      item is new to the order. */
  lemma {:induction false} AddedMessageStyle(order: seq<OrderLine>, item: MenuItem, q: nat)
    requires item in Catalog
    ensures StyleOf(AddedMessage(order, item, q)) == SuccessBox <==> FindIndex(order, item.id) == -1
    ensures StyleOf(AddedMessage(order, item, q)) != NoBox
  {
    if FindIndex(order, item.id) > -1 {
      MoreAddedIsError(q, item);
    } else {
      NewAddedIsSuccess(item.name, q);
    }
  }

  class OrderScreen {
    /** The menu shown; no handler replaces it. */
    const menuItems: seq<MenuItem>
    /** The item whose quantity field is open, if any. */
    var selectedMenuItem: Option<MenuItem>
    /** The text typed into the quantity field. */
    var quantity: string
    /** The lines of the order being taken. */
    var currentOrder: seq<OrderLine>
    /** The status message over the menu; empty when there is none. */
    var message: string
    /** Whether the lines of the order are listed under the summary bar. */
    var showOrderSummary: bool

    /** The menu is the restaurant's catalog, only a catalog item can be
        selected, and the order is well formed. */
    ghost predicate Valid()
      reads this
    {
      menuItems == Catalog &&
      (selectedMenuItem.Some? ==> selectedMenuItem.value in Catalog) &&
      WellFormed(currentOrder)
    }

    /** The screen as it first appears: the full menu, nothing selected,
        an empty quantity field and order, no message, summary folded. */
    constructor ()
      ensures Valid()
      ensures menuItems == Catalog && selectedMenuItem == None && quantity == ""
      ensures currentOrder == [] && message == "" && !showOrderSummary
    {
      menuItems := Catalog;
      selectedMenuItem := None;
      quantity := "";
      currentOrder := [];
      message := "";
      showOrderSummary := false;
    }

    /** Pressing a menu item selects it, puts "1" in the quantity field and
        clears the message. */
    method SelectItem(item: MenuItem)
      requires Valid() && item in menuItems
      modifies this
      ensures Valid()
      ensures selectedMenuItem == Some(item) && quantity == "1" && message == ""
      ensures currentOrder == old(currentOrder) && showOrderSummary == old(showOrderSummary)
      ensures StyleOf(message) == NoBox
    {
      selectedMenuItem := Some(item);
      quantity := "1";
      message := "";
    }

    /** Typing in the quantity field replaces its text and nothing else. */
    method EditQuantity(text: string)
      requires Valid()
      modifies this
      ensures Valid()
      ensures quantity == text
      ensures selectedMenuItem == old(selectedMenuItem) && currentOrder == old(currentOrder)
      ensures message == old(message) && showOrderSummary == old(showOrderSummary)
    {
      quantity := text;
    }

    /** "Cancel Selection" clears the selection only: the quantity text and
        the message stay as they were. */
    method CancelSelection()
      requires Valid()
      modifies this
      ensures Valid()
      ensures selectedMenuItem == None
      ensures quantity == old(quantity) && currentOrder == old(currentOrder)
      ensures message == old(message) && showOrderSummary == old(showOrderSummary)
    {
      selectedMenuItem := None;
    }

    /** Pressing the summary bar folds or unfolds the list of lines. */
    method ToggleSummary()
      requires Valid()
      modifies this
      ensures Valid()
      ensures showOrderSummary == !old(showOrderSummary)
      ensures selectedMenuItem == old(selectedMenuItem) && quantity == old(quantity)
      ensures currentOrder == old(currentOrder) && message == old(message)
    {
      showOrderSummary := !showOrderSummary;
    }

    /** "Add to Order". Without a selection or with an empty quantity field,
        or when the field does not parse to a positive integer, only the
        message changes, to an error. Otherwise `AddSelected` adds the
        parsed quantity of the selected item. */
    method AddToOrder()
      requires Valid()
      modifies this
      ensures Valid()
      ensures showOrderSummary == old(showOrderSummary)
      ensures (old(selectedMenuItem).None? || old(quantity) == "") ==>
        message == MissingSelectionOrQuantity &&
        selectedMenuItem == old(selectedMenuItem) && quantity == old(quantity) &&
        currentOrder == old(currentOrder)
      ensures (old(selectedMenuItem).Some? && old(quantity) != "" &&
               (ParseInt(old(quantity)).None? || ParseInt(old(quantity)).value <= 0)) ==>
        message == InvalidQuantity &&
        selectedMenuItem == old(selectedMenuItem) && quantity == old(quantity) &&
        currentOrder == old(currentOrder)
      ensures (old(selectedMenuItem).Some? && old(quantity) != "" &&
               ParseInt(old(quantity)).Some? && ParseInt(old(quantity)).value > 0) ==>
        var item, q := old(selectedMenuItem).value, ParseInt(old(quantity)).value;
        currentOrder == Added(old(currentOrder), item, q) &&
        selectedMenuItem == None && quantity == "" &&
        message == AddedMessage(old(currentOrder), item, q)
    {
      if selectedMenuItem.None? || quantity == "" {
        message := MissingSelectionOrQuantity;
        return;
      }
      var parsed := ParseInt(quantity);
      if parsed.None? || parsed.value <= 0 {
        message := InvalidQuantity;
        return;
      }
      AddSelected(parsed.value);
    }

    /** The successful part of "Add to Order": the selected item's line
        grows by `q`, or a new line is appended; the selection and the
        quantity field are cleared; and the message says what was added. */
    method AddSelected(q: nat)
      requires Valid() && selectedMenuItem.Some? && q > 0
      modifies this
      ensures Valid()
      ensures var item := old(selectedMenuItem).value;
        currentOrder == Added(old(currentOrder), item, q) &&
        message == AddedMessage(old(currentOrder), item, q)
      ensures selectedMenuItem == None && quantity == "" && showOrderSummary == old(showOrderSummary)
    {
      var item := selectedMenuItem.value;
      ghost var added := Added(currentOrder, item, q);
      AddedWellFormed(currentOrder, item, q);
      var i := FindIndex(currentOrder, item.id);
      if i > -1 {
        var qty := currentOrder[i].quantity + q;
        currentOrder := currentOrder[i := currentOrder[i].(quantity := qty, subtotal := qty * item.price)];
        message := MoreAdded(q, item.name);
      } else {
        currentOrder := currentOrder + [NewLine(item, q)];
        message := NewAdded(item.name, q);
      }
      assert currentOrder == added;
      selectedMenuItem := None;
      quantity := "";
    }

    /** The "X" on a line drops every line with that id and reports the
        removal, whatever the order held. */
    method RemoveItem(itemId: string)
      requires Valid()
      modifies this
      ensures Valid()
      ensures currentOrder == RemoveById(old(currentOrder), itemId)
      ensures message == ItemRemoved
      ensures selectedMenuItem == old(selectedMenuItem) && quantity == old(quantity)
      ensures showOrderSummary == old(showOrderSummary)
    {
      RemoveWellFormed(currentOrder, itemId);
      currentOrder := RemoveById(currentOrder, itemId);
      message := ItemRemoved;
    }

    /** "Confirm Order". An empty order only sets an error message.
        Otherwise the message reports the total the order had, which is
        positive, and the order, the selection and the quantity field are
        cleared and the summary folded. */
    method ConfirmOrder()
      requires Valid()
      modifies this
      ensures Valid()
      ensures old(currentOrder) == [] ==>
        message == EmptyOrder &&
        currentOrder == [] && selectedMenuItem == old(selectedMenuItem) &&
        quantity == old(quantity) && showOrderSummary == old(showOrderSummary)
      ensures old(currentOrder) != [] ==>
        Total(old(currentOrder)) > 0 &&
        message == Confirmed(Total(old(currentOrder))) && StyleOf(message) == SuccessBox &&
        currentOrder == [] && selectedMenuItem == None && quantity == "" && !showOrderSummary
    {
      if |currentOrder| == 0 {
        message := EmptyOrder;
        return;
      }
      var totalAmount := Total(currentOrder);
      TotalPositive(currentOrder);
      message := Confirmed(totalAmount);
      ConfirmedIsSuccess(totalAmount);
      currentOrder := [];
      selectedMenuItem := None;
      quantity := "";
      showOrderSummary := false;
    }
  }

  /** Typing `n` in decimal digits puts `n` in the quantity. */
  lemma {:induction false} TypedQuantity(n: nat)
    ensures ParseInt(NatToString(n)) == Some(n)
  {
    ParseIntNumeral(n, []);
    assert NatToString(n) + [] == NatToString(n);
  }

  /** Pressing a menu item not yet in the order, typing `n` and pressing
      "Add to Order" appends one line for `n` of it. */
  method OrderNew(screen: OrderScreen, item: MenuItem, n: nat)
    requires screen.Valid() && item in Catalog && n > 0
    requires forall j :: 0 <= j < |screen.currentOrder| ==> screen.currentOrder[j].id != item.id
    modifies screen
    ensures screen.Valid()
    ensures screen.currentOrder == old(screen.currentOrder) + [NewLine(item, n)]
    ensures screen.message == NewAdded(item.name, n)
  {
    ghost var before := screen.currentOrder;
    assert FindIndex(before, item.id) == -1;
    screen.SelectItem(item);
    TypedQuantity(n);
    screen.EditQuantity(NatToString(n));
    screen.AddToOrder();
    assert screen.currentOrder == Added(before, item, n);
    assert screen.message == AddedMessage(before, item, n);
  }

  /** Two Dosa, then one Chappathi, then the confirm handler called twice
      in a row. The first call reports a total of 95 rupees; the second
      finds the order empty. */
  method ExampleSession() returns (first: string, second: string)
    ensures first == Confirmed(95)
    ensures second == EmptyOrder
  {
    var screen := new OrderScreen();
    OrderNew(screen, Dosa, 2);
    assert Dosa.id != Chappathi.id;
    OrderNew(screen, Chappathi, 1);
    assert screen.currentOrder == [NewLine(Catalog[0], 2), NewLine(Catalog[1], 1)];
    TotalExample();
    screen.ConfirmOrder();
    first := screen.message;
    screen.ConfirmOrder();
    second := screen.message;
  }
}
