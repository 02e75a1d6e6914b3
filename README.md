# Kerala restaurant order screen: verified model

This project models the order-taking logic of the single-screen React Native
app in `App.js`: a waiter picks a dish from a fixed menu, types a quantity,
adds it to the current order, removes lines, and confirms the order. The
screen keeps six pieces of state, which are the fields of the class
`Screen.OrderScreen`:

- the menu;
- the selected item;
- the quantity text;
- the current order, a sequence of lines;
- the status message;
- whether the order summary is unfolded.

Each handler of the screen is a method of that class. It assigns the fields
the handler's setters assign and states the complete new state in its
`ensures`.

The pure parts are functions, each with lemmas:

- the total, which is a `reduce` over the lines;
- the search for a line by id, which is `findIndex`;
- the removal of lines by id, which is `filter`;
- the message texts and the rule that styles a message as a success or an
  error.

Modules:

- `Wrappers`: `Option`, with `None` standing for JavaScript's NaN.
- `JsText`: the three built-in JavaScript behaviours the screen relies on.
  - `parseInt` without a radix, following section 19.2.5 of ECMA-262. It
    skips leading white space, takes an optional sign, reads radix 16 after
    `0x`/`0X` and otherwise reads the longest run of decimal digits. No
    digits gives NaN.
  - The decimal form of an integer, as `${n}` produces it.
  - `String.prototype.includes`.
- `Menu`: the seven dishes, with unique ids and positive prices.
- `Orders`: order lines, the total, the search, the removal, and the order
  after an add (`Added`). Also the invariant every handler keeps
  (`WellFormed`):
  - each id appears on at most one line;
  - every line copies a menu item;
  - every quantity is positive;
  - every subtotal is the price times the quantity.
- `Messages`: the status messages, and `StyleOf`, the header's
  success/error classifier.
- `Screen`: the class `OrderScreen`, plus a scripted session.

Behaviour the model keeps as the code has it:

- "Cancel Selection" clears only the selection. The quantity text stays.
- When the selected dish already has a line, its subtotal is recomputed
  from the *selected item's* price. That price equals the line's own price
  only because menu ids are unique (`Orders.LinePrice`).
- The success style is chosen by the case-sensitive substrings "confirmed"
  and "added". So "Added 3 more Dosa(s) to order." is styled as an error,
  and so is "Item removed from order." (`Messages.MoreAddedIsError`,
  `Messages.ItemRemovedIsError`).
- Removing an id that is not in the order leaves the order as it was, but
  it still sets the removal message.

## Model

| member | source | states |
|---|---|---|
| JsText.TrimStart | App.js:34 | the text `parseInt` reads is a suffix of the input; every skipped character is StrWhiteSpaceChar; what remains is empty or starts with a non-white-space character |
| JsText.DigitPrefixLength | App.js:34 | the digit run `parseInt` reads is the longest prefix made only of digits of the radix |
| JsText.NumeralValue | App.js:34 | a numeral reads as zero exactly when every digit in it is zero, so "00" is a number that the `<= 0` test rejects |
| JsText.ParseUnsigned | App.js:34-35 | the unsigned part is NaN exactly when its first character is no digit of the radix: a hexadecimal digit after `0x`/`0X`, a decimal digit otherwise |
| JsText.ParseSigned | App.js:34-35 | after the white space, a number is read only when the text holds a decimal digit, and a negative number only when the text starts with a minus sign |
| JsText.ParseInt | App.js:34-35 | `parseInt(quantity)` gives a number only when the text holds a decimal digit, and a negative number only when the text holds a minus sign |
| JsText.NatToString | App.js:51 | the decimal form of a non-negative integer is non-empty, all digits, has no leading zero, and reads back in base 10 as the number |
| JsText.Includes | App.js:124 | `s.includes(p)` is true exactly when some window of `s` reads `p` |
| JsText.ParseIntNumeral | App.js:34 | `parseInt` of the decimal form of `n`, followed by any text that does not start with a digit, is `n` (and after a lone `0`, the text also does not start with `x` or `X`) |
| JsText.ParseIntNegatedNumeral | App.js:34 | a minus sign before a numeral gives the negated number |
| JsText.ParseIntPlusNumeral | App.js:34 | a plus sign before a numeral is dropped, so "+5" parses to 5 and passes the quantity checks |
| JsText.TrimStartSkipsWhiteSpace | App.js:34 | a run of leading white space is skipped in full |
| JsText.ParseIntSkipsWhiteSpace | App.js:34 | leading white space never changes what `parseInt` returns |
| JsText.ParseIntNaN | App.js:34-35 | when no digit follows the white space and the sign, `parseInt` is NaN |
| JsText.ParseIntLettersNaN | App.js:34-35 | "abc" parses to NaN |
| JsText.ParseIntEmptyNaN | App.js:34-35 | "" parses to NaN (the handler rejects it before parsing) |
| JsText.ParseIntBlankNaN | App.js:34-35 | "   " parses to NaN, so a blank quantity passes the empty-text test but fails the number test |
| JsText.ParseIntSignOnlyNaN | App.js:34-35 | "-" parses to NaN |
| JsText.ParseIntNonPositiveExamples | App.js:34-35 | "0" parses to 0 and "-1" to -1, so it is the `<= 0` test that rejects them |
| JsText.ParseIntFractionExample | App.js:34 | "2.5" parses to 2 |
| JsText.ParseIntHexExample | App.js:34 | "0x1A" parses to 26 |
| Menu.CatalogWellFormed | App.js:5-14 | menu ids are pairwise distinct and every price is positive |
| Menu.CatalogMembers | App.js:5-14 | the menu `Menu.Catalog` holds exactly the seven dishes listed at App.js:7-13 |
| Menu.SameIdSameItem | App.js:5-14 | two menu items with the same id are the same item |
| Orders.WellFormed | App.js:40-59 | the order invariant the add code relies on: each id on at most one line, every line copies a menu item, every quantity is positive, and every subtotal is price times quantity |
| Orders.NewLine | App.js:54-58 | a new line copies the item's fields, carries the given quantity, and its subtotal is that quantity times the item's price |
| Orders.Total | App.js:26 | the subtotals summed from the first line to the last, as the `reduce` adds them; the sum is non-negative when every subtotal is, and when every subtotal is positive it is positive exactly for a non-empty order |
| Orders.TotalConcat | App.js:26 | the total of two orders put together is the sum of their totals |
| Orders.TotalUpdate | App.js:26 | replacing a line changes the total by the change in that line's subtotal |
| Orders.TotalPositive | App.js:26 | a well-formed order has a non-negative total, which is zero exactly when the order is empty |
| Orders.TotalExample | App.js:26 | two Dosa and one Chappathi come to 95 |
| Orders.FindIndex | App.js:40-42 | the result is the first index whose line has the id, or -1 when no line has it |
| Orders.RemoveById | App.js:69 | the result holds exactly the lines of the order whose id differs, and is no longer than the order |
| Orders.RemoveByIdConcat | App.js:69 | removal works piece by piece, so the kept lines keep their relative order |
| Orders.RemoveAbsent | App.js:69 | removing an id no line has leaves the order unchanged |
| Orders.RemoveIdempotent | App.js:69 | removing the same id twice is the same as removing it once |
| Orders.RemovePresent | App.js:69 | in an order with distinct ids, removing a present id drops exactly the line found for it and keeps the others in order |
| Orders.RemoveWellFormed | App.js:69 | removal keeps an order well formed |
| Orders.TotalDropOne | App.js:26 | dropping one line takes exactly its subtotal off the total |
| Orders.RemoveTotal | App.js:69 | in an order with distinct ids, removal takes exactly the removed line's subtotal off the total, and nothing when no line has the id |
| Orders.Added | App.js:40-59 | merge: the length is kept, the line with the item's id gains exactly `q`, its subtotal becomes the new quantity times the selected item's price, and every other line is unchanged; append: the earlier lines are untouched and one new line for `q` of the item comes last |
| Orders.AddedQuantity | App.js:44-59 | an add raises the quantity ordered of that item by exactly `q` and leaves every other item's quantity unchanged |
| Orders.AddedWellFormed | App.js:44-59 | adding a positive quantity of a menu item keeps ids distinct and every subtotal equal to price times quantity |
| Orders.MergeTotal | App.js:46-49 | raising one line's quantity by `q` at its price adds `q` times that price to the total |
| Orders.LinePrice | App.js:48-49 | a line for a menu item has that item's price, so using the selected item's price gives the line's own subtotal |
| Orders.MergedTotal | App.js:46-49 | in the merge branch, when the line's subtotal is its quantity times the item's price, the total rises by `q` times that price |
| Orders.AppendedTotal | App.js:54-59 | in the append branch, the total rises by `q` times the item's price |
| Orders.AddedTotal | App.js:44-59 | adding `q` of a menu item raises the total by `q` times its price |
| Orders.AddedTwice | App.js:44-59 | adding the same item twice to an empty order gives one line with both quantities, not two lines |
| Messages.StyleOf | App.js:123-125 | the empty message shows no box; a message is styled as a success exactly when some window of it reads "confirmed" or "added"; any other message is styled as an error |
| Messages.MoreAdded | App.js:51 | the text for more of a dish already ordered shows the decimal form of the quantity right after "Added ", and the dish's name after " more " |
| Messages.NewAdded | App.js:60 | the text for a dish new to the order starts with the dish's name, and shows the decimal form of the quantity right after " (x" |
| Messages.Confirmed | App.js:80 | the confirmation text shows the decimal form of the total right after the rupee sign |
| Messages.ConfirmedIsSuccess | App.js:124 | the confirmation message (App.js:80) is styled as a success |
| Messages.NewAddedIsSuccess | App.js:124 | the message for a dish new to the order (App.js:60) is styled as a success |
| Messages.MoreAddedIsError | App.js:124 | the message for more of a dish already in the order ("Added … more …", App.js:51) is styled as an error |
| Messages.ItemRemovedIsError | App.js:124 | the removal message `Messages.ItemRemoved` (the text at App.js:70) is styled as an error |
| Messages.MissingSelectionIsError | App.js:124 | the missing-selection message `Messages.MissingSelectionOrQuantity` (the text at App.js:31) is styled as an error |
| Messages.InvalidQuantityIsError | App.js:124 | the invalid-quantity message `Messages.InvalidQuantity` (the text at App.js:36) is styled as an error |
| Messages.EmptyOrderIsError | App.js:124 | the empty-order message `Messages.EmptyOrder` (the text at App.js:76) is styled as an error |
| Screen.AddedMessage | App.js:44-60 | the message after an add, in the "more" form when the dish already had a line and in the new-line form otherwise, always names the dish and shows the quantity |
| Screen.AddedMessageStyle | App.js:44-60 | a successful add is styled as a success exactly when the dish is new to the order, and is never unstyled |
| Screen.TypedQuantity | App.js:34 | typing the decimal digits of `n` gives the quantity `n` |
| Screen.OrderScreen.Valid | App.js:17-23 | the screen's invariant, which every handler keeps: the menu is the catalog, only a catalog item can be selected, and the order is well formed |
| Screen.OrderScreen.constructor | App.js:18-23 | the screen starts with the menu, nothing selected, an empty quantity text, an empty order, no message and the summary folded |
| Screen.OrderScreen.SelectItem | App.js:91-95 | pressing a dish selects it, sets the quantity text to "1" and clears the message; the order and the summary are unchanged |
| Screen.OrderScreen.EditQuantity | App.js:150 | typing replaces the quantity text and nothing else |
| Screen.OrderScreen.CancelSelection | App.js:160 | cancelling clears the selection only; the quantity text, order, message and summary are unchanged |
| Screen.OrderScreen.ToggleSummary | App.js:172 | the summary flag flips and nothing else changes |
| Screen.OrderScreen.AddToOrder | App.js:29-65 | with no selection or an empty quantity text, or when the text does not parse to a positive number, only the message changes, to the matching error; otherwise the order becomes `Added` of the old order, the selection and quantity text are cleared, and the message reports the add; the order stays well formed |
| Screen.OrderScreen.AddSelected | App.js:40-64 | the successful part of an add: merge or append, clear the selection and the quantity text, report the add |
| Screen.OrderScreen.RemoveItem | App.js:68-71 | the order becomes the lines with another id, the message is always the removal message, and nothing else changes |
| Screen.OrderScreen.ConfirmOrder | App.js:74-85 | an empty order only sets the empty-order message; otherwise the message embeds the positive pre-clear total, and the order, selection and quantity text are cleared and the summary folded |
| Screen.OrderNew | App.js:29-65 | selecting a dish not in the order, typing `n` and adding appends one line for `n` of it |
| Screen.ExampleSession | App.js:74-85 | after two Dosa and one Chappathi, a confirm reports 95 and an immediate second confirm reports an empty order |

## Left out

- Rendering is not modelled: the JSX, the list layout, the images and the
  style sheet (App.js:88-474). These are presentation only. The image
  address is copied into each line but never read.
- React's update scheduling is not modelled: the functional setters
  (App.js:59, 69) and the direct ones are all treated the same. Each
  handler is one atomic transition.
- Orders.Added: the merge branch changes the existing line object in place
  through the copied array (App.js:46-49). The model replaces that line in
  the sequence by a new value, so the sharing of the line object between
  the old and the new array is not captured.
- The UI shows some controls only in certain states, and the handler
  methods do not require those states, because the handlers themselves do
  not check them:
  - the quantity field, "Add to Order" and "Cancel Selection" only with a
    selection (App.js:142-166);
  - the summary toggle only for a non-empty order (App.js:169-177);
  - "Confirm Order" and the remove buttons only when the summary is open on
    a non-empty order (App.js:179-192).

  So no rendered control reaches the no-selection branch of
  `Screen.OrderScreen.AddToOrder` or the empty-order branch of
  `Screen.OrderScreen.ConfirmOrder`. Those branches are modelled as the
  handlers write them. `Screen.ExampleSession` calls the confirm handler
  directly, twice in a row, without opening the summary first.
- Screen.OrderScreen.SelectItem: requires that the dish comes from the
  menu, because the screen only offers menu items.
- Numbers are unbounded integers. JavaScript's floating-point quantities
  and products are not modelled: precision is lost above 2^53, and the
  text for numbers of 10^21 or more uses exponent notation.
- JsText.ParseInt: the radix argument is not modelled, because the screen
  never passes one. A negative zero is read as the integer 0; the
  quantity check rejects both the same way.
- Screen.OrderScreen.AddToOrder: the style of each message is stated by the
  lemmas in `Messages` and by `Screen.AddedMessageStyle`, not inside the
  handler contracts.
- The menu setter is never called, so the menu is a constant field.
