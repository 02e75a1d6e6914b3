/**
 * The status messages the handlers write, and how the message box styles
 * them: a message counts as a success when it contains "confirmed" or
 * "added" (case-sensitive), any other non-empty message as an error, and an
 * empty message shows no box at all.
 */
module Messages {
  import opened JsText
  import opened Menu

  const MissingSelectionOrQuantity := "Please select a menu item and enter a quantity."
  const InvalidQuantity := "Please enter a valid positive number for quantity."
  const ItemRemoved := "Item removed from order."
  const EmptyOrder := "Your order is empty!"

  /** The message after adding `q` more of an item already in the order:
      the decimal form of `q` after "Added ", then " more " and the name. */
  function MoreAdded(q: nat, name: string): (m: string)
    ensures MatchesAt(m, NatToString(q), 6)
    ensures MatchesAt(m, name, 6 + |NatToString(q)| + 6)
  {
    var digits := NatToString(q);
    var m := "Added " + digits + " more " + name + "(s) to order.";
    assert m[6..6 + |digits|] == digits;
    assert m[6 + |digits| + 6..6 + |digits| + 6 + |name|] == name;
    m
  }

  /** The message after adding `q` of an item new to the order: the name,
      then " (x" and the decimal form of `q`. */
  function NewAdded(name: string, q: nat): (m: string)
    ensures MatchesAt(m, name, 0)
    ensures MatchesAt(m, NatToString(q), |name| + 3)
  {
    var digits := NatToString(q);
    var m := name + " (x" + digits + ") added to order.";
    assert m[..|name|] == name;
    assert m[|name| + 3..|name| + 3 + |digits|] == digits;
    m
  }

  /** The message after confirming an order worth `total` rupees: the
      decimal form of the total follows the rupee sign. */
  function Confirmed(total: nat): (m: string)
    ensures MatchesAt(m, NatToString(total), 25)
  {
    var digits := NatToString(total);
    var m := "Order confirmed! Total: \U{20B9}" + digits + ". Thank you for your order!";
    assert m[25..25 + |digits|] == digits;
    m
  }

  datatype Style = NoBox | SuccessBox | ErrorBox

  /** The box the header draws for `message`. */
  function StyleOf(message: string): (st: Style)
    ensures st == NoBox <==> message == []
    ensures st == SuccessBox <==>
      (exists i: nat :: MatchesAt(message, "confirmed", i)) || (exists i: nat :: MatchesAt(message, "added", i))
  {
    if message == "" then NoBox
    else if Includes(message, "confirmed") || Includes(message, "added") then SuccessBox
    else ErrorBox
  }

  // ---------------------------------------------------------------------
  // Helpers about where "added", "confirmed" and "dd" can occur

  lemma {:induction false} IncludesInSuffix(a: string, b: string, p: string)
    requires Includes(b, p)
    ensures Includes(a + b, p)
  {
    var i: nat :| MatchesAt(b, p, i);
    assert (a + b)[|a| + i..|a| + i + |p|] == b[i..i + |p|];
    IncludesWindow(a + b, p, |a| + i);
  }

  /** Text with no `d` at all, or with one `d` between two pieces that
      have none, has no "dd". */
  lemma {:induction false} NoD(a: string)
    requires 'd' !in a
    ensures !Includes(a, "dd")
  {
    MissingCharExcludes(a, "dd", 0);
  }

  lemma {:induction false} LoneD(a: string, c: string)
    requires 'd' !in a && 'd' !in c
    ensures !Includes(a + "d" + c, "dd")
  {
    NoD(a);
    NoD(c);
    assert !Includes("d", "dd");
    PairAcrossConcat(a, "d", "dd");
    PairAcrossConcat(a + "d", c, "dd");
  }

  /** Text without "dd" has no "added"; text without `f` has no
      "confirmed". */
  lemma {:induction false} NotSuccessWords(s: string)
    requires !Includes(s, "dd") && 'f' !in s
    ensures !Includes(s, "added") && !Includes(s, "confirmed")
  {
    assert "added"[1..3] == "dd";
    if Includes(s, "added") {
      IncludesPiece(s, "added", 1, 2);
    }
    MissingCharExcludes(s, "confirmed", 3);
  }

  /** The same, for text that has an `f` but no `c`. */
  lemma {:induction false} NotSuccessWordsWithoutC(s: string)
    requires !Includes(s, "dd") && 'c' !in s
    ensures !Includes(s, "added") && !Includes(s, "confirmed")
  {
    assert "added"[1..3] == "dd";
    if Includes(s, "added") {
      IncludesPiece(s, "added", 1, 2);
    }
    MissingCharExcludes(s, "confirmed", 0);
  }

  /** The dish names without a `d`, one at a time. */
  lemma DosaLetters()
    ensures 'd' !in Dosa.name && 'f' !in Dosa.name
  {
  }

  lemma ChappathiLetters()
    ensures 'd' !in Chappathi.name && 'f' !in Chappathi.name
  {
  }

  lemma MasalaDosaLetters()
    ensures 'd' !in MasalaDosa.name && 'f' !in MasalaDosa.name
  {
  }

  lemma MealsVegLetters()
    ensures 'd' !in MealsVeg.name && 'f' !in MealsVeg.name
  {
  }

  lemma AppamStewLetters()
    ensures 'd' !in AppamStew.name && 'f' !in AppamStew.name
  {
  }

  lemma BiryaniChickenLetters()
    ensures 'd' !in BiryaniChicken.name && 'f' !in BiryaniChicken.name
  {
    assert BiryaniChicken.name == "Biryani " + "(Chicken)";
    assert 'd' !in "Biryani " && 'f' !in "Biryani ";
    assert 'd' !in "(Chicken)" && 'f' !in "(Chicken)";
  }

  lemma {:induction false} DishLetters(item: MenuItem)
    requires item in Catalog && item != PuttuKadala
    ensures 'd' !in item.name && 'f' !in item.name
  {
    CatalogMembers(item);
    DosaLetters();
    ChappathiLetters();
    MasalaDosaLetters();
    MealsVegLetters();
    AppamStewLetters();
    BiryaniChickenLetters();
  }

  /** The one dish name with a `d`, cut around it. */
  lemma PuttuKadalaLetters()
    ensures PuttuKadala.name == "Puttu & Ka" + "d" + "ala"
    ensures 'd' !in "Puttu & Ka" && 'f' !in "Puttu & Ka" && 'd' !in "ala" && 'f' !in "ala"
  {
  }

  /** The names on the menu have neither `f` nor "dd". */
  lemma {:induction false} CatalogNames(item: MenuItem)
    requires item in Catalog
    ensures 'f' !in item.name && !Includes(item.name, "dd")
  {
    if item == PuttuKadala {
      PuttuKadalaLetters();
      LoneD("Puttu & Ka", "ala");
    } else {
      DishLetters(item);
      NoD(item.name);
    }
  }

  /** The fixed parts of the message for more of an item. */
  lemma MoreAddedPieces()
    ensures 'a' !in "Added " && 'f' !in "Added "
    ensures 'd' !in " more " && 'f' !in " more "
    ensures "(s) to order." == "(s) to or" + "d" + "er."
    ensures 'd' !in "(s) to or" && 'd' !in "er." && 'f' !in "(s) to order."
  {
  }

  /** The removal and empty-order messages have no `a` and no `c`. */
  lemma ShortMessageChars()
    ensures 'a' !in ItemRemoved && 'c' !in ItemRemoved
    ensures 'a' !in EmptyOrder && 'c' !in EmptyOrder
  {
  }

  /** The validation messages, cut around their only `d`, and the letters
      their pieces lack. */
  lemma MissingSelectionSplit()
    ensures MissingSelectionOrQuantity == "Please select a " + "menu item an" + "d" + " enter a quantity."
  {
  }

  lemma MissingSelectionLetters()
    ensures 'd' !in "Please select a " && 'f' !in "Please select a "
    ensures 'd' !in "menu item an" && 'f' !in "menu item an"
  {
  }

  lemma MissingSelectionTail()
    ensures 'd' !in " enter a quantity." && 'f' !in " enter a quantity."
  {
  }

  lemma InvalidQuantitySplit()
    ensures InvalidQuantity == "Please enter a " + "vali" + "d" + " positive " + "number for quantity."
  {
  }

  lemma InvalidQuantityLetters()
    ensures 'd' !in "Please enter a " && 'c' !in "Please enter a "
    ensures 'd' !in "vali" && 'c' !in "vali"
    ensures 'd' !in " positive " && 'c' !in " positive "
  {
  }

  lemma InvalidQuantityTail()
    ensures 'd' !in "number for quantity." && 'c' !in "number for quantity."
  {
  }

  // ---------------------------------------------------------------------
  // How each message is styled

  /** The confirmation message is shown as a success. */
  lemma {:induction false} ConfirmedIsSuccess(total: nat)
    ensures StyleOf(Confirmed(total)) == SuccessBox
  {
    var m := Confirmed(total);
    assert m[6..15] == "confirmed";
    IncludesWindow(m, "confirmed", 6);
  }

  /** The message for an item new to the order is shown as a success. */
  lemma {:induction false} NewAddedIsSuccess(name: string, q: nat)
    ensures StyleOf(NewAdded(name, q)) == SuccessBox
  {
    var tail := ") added to order.";
    assert tail[2..7] == "added";
    IncludesWindow(tail, "added", 2);
    IncludesInSuffix(name + " (x" + NatToString(q), tail, "added");
  }

  /** A piece without `d` between two pieces without "dd" leaves no "dd". */
  lemma {:induction false} NoDoubleDAround(a: string, b: string, c: string)
    requires !Includes(a, "dd") && !Includes(c, "dd")
    requires b != [] && 'd' !in b
    ensures !Includes(a + b + c, "dd")
  {
    NoD(b);
    assert b[0] in b && b[|b| - 1] in b;
    PairAcrossConcat(a, b, "dd");
    assert (a + b)[|a + b| - 1] == b[|b| - 1];
    PairAcrossConcat(a + b, c, "dd");
  }

  /** A message whose prefix has neither `a` nor `f` is an error when the
      rest has neither "dd" nor `f`. */
  lemma {:induction false} PrefixedError(m: string, prefix: string, rest: string)
    requires m == prefix + rest && m != []
    requires 'a' !in prefix && 'f' !in prefix
    requires 'f' !in rest && !Includes(rest, "dd")
    ensures StyleOf(m) == ErrorBox
  {
    NotSuccessWords(rest);
    if Includes(m, "added") {
      MatchAfterPrefix(prefix, rest, "added");
    }
    MissingCharExcludes(m, "confirmed", 3);
  }

  lemma {:induction false} DigitLetters(q: nat)
    ensures 'd' !in NatToString(q) && 'f' !in NatToString(q)
  {
    var digits := NatToString(q);
    forall i | 0 <= i < |digits| ensures digits[i] != 'd' && digits[i] != 'f' {
      assert IsDecimalDigit(digits[i]);
    }
  }

  /** Everything after "Added " in the message for more of an item. */
  lemma {:induction false} MoreAddedRest(q: nat, name: string)
    requires 'f' !in name && !Includes(name, "dd")
    ensures var rest := NatToString(q) + " more " + name + "(s) to order.";
      'f' !in rest && !Includes(rest, "dd")
  {
    var digits := NatToString(q);
    MoreAddedPieces();
    DigitLetters(q);
    NoD(digits);
    LoneD([], "er.");
    assert [] + "d" + "er." == "d" + "er.";
    NoDoubleDAround(name, "(s) to or", "d" + "er.");
    assert name + "(s) to order." == name + "(s) to or" + ("d" + "er.");
    NoDoubleDAround(digits, " more ", name + "(s) to order.");
    assert digits + " more " + name + "(s) to order." == digits + " more " + (name + "(s) to order.");
  }

  /** The message for more of an item already in the order is shown as an
      error: it says "Added" with a capital letter, and the classifier
      matches "added" case-sensitively. */
  lemma {:induction false} MoreAddedIsError(q: nat, item: MenuItem)
    requires item in Catalog
    ensures StyleOf(MoreAdded(q, item.name)) == ErrorBox
  {
    CatalogNames(item);
    MoreAddedNameError(q, item.name);
  }

  lemma {:induction false} MoreAddedSplit(q: nat, name: string)
    ensures MoreAdded(q, name) == "Added " + (NatToString(q) + " more " + name + "(s) to order.")
  {
  }

  lemma {:induction false} MoreAddedNameError(q: nat, name: string)
    requires 'f' !in name && !Includes(name, "dd")
    ensures StyleOf(MoreAdded(q, name)) == ErrorBox
  {
    var rest := NatToString(q) + " more " + name + "(s) to order.";
    MoreAddedRest(q, name);
    MoreAddedPieces();
    MoreAddedSplit(q, name);
    PrefixedError(MoreAdded(q, name), "Added ", rest);
  }

  /** The removal message is shown as an error although nothing failed. */
  lemma ItemRemovedIsError()
    ensures StyleOf(ItemRemoved) == ErrorBox
  {
    ShortMessageChars();
    MissingCharExcludes(ItemRemoved, "added", 0);
    MissingCharExcludes(ItemRemoved, "confirmed", 0);
  }

  /** A message with a single `d` and no `f`, or no `c`, is an error. */
  lemma {:induction false} ErrorAroundLoneD(m: string, a: string, c: string)
    requires m == a + "d" + c && 'd' !in a && 'd' !in c
    requires ('f' !in a && 'f' !in c) || ('c' !in a && 'c' !in c)
    ensures StyleOf(m) == ErrorBox
  {
    LoneD(a, c);
    assert m[|a|] == 'd';
    if 'f' !in a && 'f' !in c {
      NotSuccessWords(m);
    } else {
      NotSuccessWordsWithoutC(m);
    }
  }

  /** The message for a missing selection or quantity is shown as an error. */
  lemma MissingSelectionIsError()
    ensures StyleOf(MissingSelectionOrQuantity) == ErrorBox
  {
    MissingSelectionSplit();
    MissingSelectionLetters();
    MissingSelectionTail();
    ErrorAroundLoneD(MissingSelectionOrQuantity, "Please select a " + "menu item an", " enter a quantity.");
  }

  /** The message for a quantity that is not a positive number is shown as
      an error. */
  lemma InvalidQuantityIsError()
    ensures StyleOf(InvalidQuantity) == ErrorBox
  {
    InvalidQuantitySplit();
    InvalidQuantityLetters();
    InvalidQuantityTail();
    ErrorAroundLoneD(InvalidQuantity, "Please enter a " + "vali", " positive " + "number for quantity.");
  }

  /** The message for confirming an empty order is shown as an error. */
  lemma EmptyOrderIsError()
    ensures StyleOf(EmptyOrder) == ErrorBox
  {
    ShortMessageChars();
    MissingCharExcludes(EmptyOrder, "added", 0);
    MissingCharExcludes(EmptyOrder, "confirmed", 0);
  }
}
