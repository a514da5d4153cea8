# delivery_tracker in Dafny

A model of the order-taking core of the `delivery_tracker` Django app. Users
of the app place purchase orders for products bought from third-party shops
and follow them through a fixed set of statuses. The model covers:

- `models.dfy` (module `Models`): the constants and records of the schema.
  These are the service fee `CURRENT_FEE`, the status table
  `PURCHASE_ORDER_STATUS`, purchase orders, products, and the display helper
  `shop_link_trimmed`.
- `utils.dfy` (module `Utils`): `generate_password` and
  `generate_table_for_popup`. Both are written imperatively, as in the app:
  the password's character set is built by successive `replace` calls, and
  the table by appending to a string in two nested loops.
- `views.dfy` (module `Views`): the `new_order` view and the `my_orders` view.
  - `new_order` is the method `Store.NewOrder` on a class `Store` that holds
    the stored orders and products. A POST creates the order, then reads
    product rows `1, 2, …` in a `while true` loop. It is proved against the
    function `ReadRows`, which says which rows become products and why
    reading stops.
  - `my_orders` is the pure function `MyOrders` over the stored orders.

The submitted form (`request.POST`) is a map from keys to text. The key
`Row(f, i)` stands for the form field `f_i`, and `Plain(n)` for the field `n`.
A product row's field `f_i` is always encoded as `Row(f, i)`, never as
`Plain("f_i")`, so each form key has exactly one encoding.
Order ids are given out in sequence: the k-th stored order has id k + 1.

Behaviour of the code that the model keeps:

- The status table has eight statuses, with ids 1 to 8.
- `new_order` undoes nothing when a row is refused: the order and the
  earlier rows' products stay (`RejectionKeepsEarlierRows`).
- `new_order` checks only that `discount_in_shop` was sent; an empty value
  passes the check (`EmptyShopDiscountAccepted`).

## Model

| member | source | states |
|---|---|---|
| Models.StatusTableNames | delivery_tracker/models.py:16-25 | the status table names exactly the eight statuses draft … received_to_stock, and the k-th of them has id k + 1 |
| Models.StatusTableIds | delivery_tracker/models.py:16-25 | the status ids are exactly 1 to 8, and no two statuses share an id |
| Models.OrZero | delivery_tracker/views.py:248-250 | `value or 0` on submitted text: the default 0 exactly when the text is empty, otherwise the text itself |
| Models.ShopLinkTrimmed | delivery_tracker/models.py:86-89 | a link shorter than 77 characters is returned unchanged; one of 77 characters or more becomes 80 characters ending in "..."; the first min(length, 77) characters are always kept |
| Models.ShopLinkTrimmedIdempotent | delivery_tracker/models.py:86-89 | trimming an already trimmed link changes nothing |
| Models.ShopLinkTrimmedAtBoundary | delivery_tracker/models.py:87-88 | a link of exactly 77 characters keeps all of them and still gets "...", so it grows by 3 |
| Utils.PasswordAlphabetChars | delivery_tracker/utils.py:6-12 | the password alphabet has 56 characters, none repeated, and holds exactly the ASCII letters and digits other than o, O, 0, l, I, 1 |
| Utils.RemoveAllConcat | delivery_tracker/utils.py:7-12 | removing a character from a concatenation removes it from each part |
| Utils.RemoveAllAbsent | delivery_tracker/utils.py:7-12 | removing a character that does not occur leaves the string unchanged |
| Utils.RemoveAllOnce | delivery_tracker/utils.py:7-12 | removing a character that occurs once cuts out exactly that occurrence |
| Utils.RemoveConfusableConcat | delivery_tracker/utils.py:7-12 | the six removals distribute over concatenation |
| Utils.LowercaseWithoutConfusable | delivery_tracker/utils.py:6-12 | the six removals take only o and l out of the lowercase letters |
| Utils.UppercaseWithoutConfusable | delivery_tracker/utils.py:6-12 | the six removals take only O and I out of the uppercase letters |
| Utils.DigitsWithoutConfusable | delivery_tracker/utils.py:6-12 | the six removals take only 0 and 1 out of the digits |
| Utils.RemoveConfusableFromClasses | delivery_tracker/utils.py:6-12 | the removals applied to lowercase + uppercase + digits leave exactly the password alphabet |
| Utils.PasswordChoices | delivery_tracker/utils.py:6-12 | the character set built by the six `replace` calls is the 56-character alphabet, without repeats, holding exactly the non-confusable letters and digits |
| Utils.GeneratePassword | delivery_tracker/utils.py:5-13 | the password has `length` characters (none for a non-positive length); each is the alphabet character at its draw, so none is confusable |
| Utils.AppendRow | delivery_tracker/utils.py:19-22 | appends one row: the row's opening tag, one cell per text in order, the closing tag |
| Utils.GenerateTableForPopup | delivery_tracker/utils.py:16-30 | the appended string is the table element holding the header row (only when there are header names) and then each data row in order |
| Utils.CellsConcat | delivery_tracker/utils.py:20-21 | the cells of two lists of texts are the cells of the first followed by those of the second |
| Utils.DataRowsConcat | delivery_tracker/utils.py:23-27 | the rows of two batches of data are the first batch's rows followed by the second's |
| Utils.HeaderRowShape | delivery_tracker/utils.py:18-22 | a header row is written exactly when there are header names, and its first cell holds the first name |
| Utils.PopupTableShape | delivery_tracker/utils.py:16-30 | the table always opens with the table tag and ends with its closing tag; with no header and no data it is `<table class="popup_table"></table>`; the first data row follows the header row |
| Utils.RemoveAll | delivery_tracker/utils.py:7-12 | `s.replace(c, '')`: the result is no longer than `s`, no longer contains `c`, and holds every other character of `s` and nothing else |
| Views.RowPassesValidation | delivery_tracker/views.py:261-266 | a row passes the check exactly when product link, colour, size, quantity and price are all sent non-empty and a shop discount was sent |
| Views.RowComplete | delivery_tracker/views.py:278-288 | a row is complete exactly when shop link, vendor code, name, discount code and note were all sent |
| Views.MakeProduct | delivery_tracker/views.py:275-289 | the product belongs to the order and the user; each of its eleven text columns holds the text of its own field of the row (the nullable ones set to it), and link, colour, size, quantity and price are non-empty |
| Views.CreatedOrder | delivery_tracker/views.py:243-252 | the new order belongs to the user and has the status "ordered" and the current fee; shipping cost and discount are 0 when sent empty and the sent text otherwise; coupon and comment are kept as sent; there is no admin comment |
| Views.ReadRows | delivery_tracker/views.py:253-291 | each product read comes from the next row, which has a product link, passes the required-field check and has every field read on creation; reading stops at the first row that lacks a product link, fails the check or lacks such a field |
| Views.ReadRowsUnique | delivery_tracker/views.py:253-291 | any list of products and stop reason meeting that description is exactly what is read |
| Views.RejectionKeepsEarlierRows | delivery_tracker/views.py:261-273 | when rows 1 to n are good and row n + 1 fails the check, the read ends rejected with the n products of the good rows |
| Views.EmptyShopDiscountAccepted | delivery_tracker/views.py:261-266 | a row whose discount_in_shop was sent empty is not refused; its product keeps the empty discount |
| Views.ReadProductsWellFormed | delivery_tracker/views.py:261-288 | every product read belongs to the new order and its user, has a shop discount, and has non-empty link, colour, size, quantity and price |
| Views.TabStatuses | delivery_tracker/views.py:298-316 | tab active shows statuses 3 to 7, draft shows 1, archive shows 2 and 8; any other tab has no statuses |
| Views.TabsPartitionStatuses | delivery_tracker/views.py:298-316 | the three tabs are pairwise disjoint and together cover the whole status table |
| Views.FilterOrders | delivery_tracker/views.py:319-322 | an order is listed exactly when it is stored, belongs to the user and has one of the statuses, and the list is no longer than the stored orders |
| Views.FilterOrdersCounts | delivery_tracker/views.py:319-322 | each matching order is listed exactly as often as it is stored (once per stored row), and no other order is listed |
| Views.FilterOrdersConcat | delivery_tracker/views.py:319-322 | filtering two batches of orders gives the filtered first batch followed by the filtered second |
| Views.MyOrders | delivery_tracker/views.py:296-325 | an unknown tab is "not found"; otherwise the page names the tab and lists exactly the user's orders whose status belongs to that tab, each as often as it is stored |
| Views.CreatedOrderListedAsActive | delivery_tracker/views.py:243-252 | an order just created appears last under the user's active tab, and leaves the draft and archive tabs unchanged |
| Views.Store.constructor | delivery_tracker/models.py:41-79 | an empty store with no orders and no products |
| Views.Store.NewOrder | delivery_tracker/views.py:238-292 | a GET changes nothing and shows the form with the current fee. A POST appends the created order and then the products `ReadRows` reads. It redirects with a message exactly when reading stopped at a refused row; otherwise it shows the form. Ids keep following storage order |

## Left out

- Registration, login, logout, password change and reset, the personal-data
  page and the e-mail sending are not modelled. They are framework glue
  around authentication and mail.
- `sum_price`, `complex_price` and `product_qty` are not modelled.
  `sum_price` and `complex_price` are float arithmetic over float columns
  (`complex_price` sums over a query of the order's products); `product_qty`
  is a count query.
- Quantity, price and the shop discount are kept as the submitted text. The
  database's conversion of them to numbers is not modelled, including the
  error an empty or non-numeric shop discount would raise there.
- A status history log and status-change notifications are not modelled. The
  code's models define neither.
- The status-table row lookup in `new_order` is not modelled: the model
  assumes the "ordered" row exists, so it never fails.
- The random source of `generate_password` is not modelled. Each draw is an
  input index into the alphabet.
- `Utils.GenerateTableForPopup`: the cells hold the given text; the `%s`
  formatting of values that are not strings is not modelled.
- `Store.NewOrder` requires the shipping_cost, coupon, discount and
  user_comment fields. When one is missing, the code fails with an unhandled
  key error, which is not modelled.
- `Views.CreatedOrder` and `Store.NewOrder`: shipping_cost and discount are
  kept as text. A non-empty value that is not a number (say "abc" or "5,00")
  makes the database refuse the order, so no order is created and no rows
  are read; the model creates the order anyway.
- `Views.EmptyShopDiscountAccepted`: the row passes the view's check, but the
  database refuses to store an empty shop discount, so the product its second
  ensures describes is never stored.
- `Store.Valid`: order ids are numbered by position (the k-th stored order
  has id k + 1). The database gives out ids itself, and orders deleted
  through the admin site leave gaps, which the model does not capture.
- `Store.NewOrder` does not model the debugging print of the form.
- `Store.NewOrder`: each form key carries a single value. Repeated values
  for one key are not modelled.
- `Store.NewOrder` and `Models.ShopLinkTrimmed`: field length limits of the
  database columns are not modelled. A shop link that is null in the database
  is not modelled either; trimming takes a string.
- `MyOrders`: the listing keeps the order in which orders were stored. The
  database gives no ordering guarantee.
- The forms are not modelled. They validate the registration form through
  the framework (an existence check against the user table and edits to the
  form's error dictionary), outside the order core.
- URL routing and admin registrations are not modelled. They are declarative
  configuration.
