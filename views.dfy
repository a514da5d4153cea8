/**
 * The two order views of the delivery tracker: the "new order" form, which
 * creates a purchase order and one product per submitted row, and the
 * "my orders" listing, which shows the user's orders of one tab.
 */
module Views {
  import opened Models

  /**
   * A key of the submitted form. `Plain(n)` is the field `n`; `Row(f, i)`
   * is the field `f_i` of the i-th product row of the form.
   */
  datatype Key = Plain(name: string) | Row(field: string, index: nat)

  /** The submitted form: one text value per key that was sent. */
  type Form = map<Key, string>

  datatype Request = Get | Post(form: Form)

  /** The message shown after a product row was refused. */
  datatype Message = RequiredProductFieldsMissing

  datatype NewOrderResponse =
    | NewOrderPage(currentFee: int)
    | RedirectedToNewOrder(message: Message)

  /** `not request.POST.get(key)` is false: the key was sent with a non-empty value. */
  predicate Filled(form: Form, key: Key) {
    key in form && form[key] != ""
  }

  /** The order fields that are read unconditionally when a form is posted. */
  predicate HasOrderFields(form: Form) {
    && Plain("shipping_cost") in form
    && Plain("coupon") in form
    && Plain("discount") in form
    && Plain("user_comment") in form
  }

  /** The product fields that must be sent non-empty. */
  const RequiredFields: seq<string> := ["product_link", "color", "size", "quantity", "price"]

  /** The product fields read only when the product is created; each may be empty. */
  const CreationFields: seq<string> := ["shop_link", "vendor_code", "name", "discount_code", "note"]

  /**
   * Row i passes the view's check: product link, colour, size, quantity and
   * price are filled in, and a shop discount was sent (possibly empty).
   */
  predicate RowPassesValidation(form: Form, i: nat): (ok: bool)
    ensures ok <==> (forall f :: f in RequiredFields ==> Filled(form, Row(f, i)))
                    && Row("discount_in_shop", i) in form
  {
    && Filled(form, Row("product_link", i))
    && Filled(form, Row("color", i))
    && Filled(form, Row("size", i))
    && Filled(form, Row("quantity", i))
    && Filled(form, Row("price", i))
    && Row("discount_in_shop", i) in form
  }

  /** Row i also carries the fields that are read only when the product is created. */
  predicate RowComplete(form: Form, i: nat): (ok: bool)
    ensures ok <==> forall f :: f in CreationFields ==> Row(f, i) in form
  {
    && Row("shop_link", i) in form
    && Row("vendor_code", i) in form
    && Row("name", i) in form
    && Row("discount_code", i) in form
    && Row("note", i) in form
  }

  /** The purchase order a posted form creates, with the given row id. */
  function CreatedOrder(form: Form, user: UserId, id: nat): (order: PurchaseOrder)
    requires HasOrderFields(form)
    ensures order.id == id && order.user == user
    ensures order.status == PurchaseOrderStatusIds["ordered"] && order.fee == CurrentFee
    ensures order.shippingCost == OrZero(form[Plain("shipping_cost")])
    ensures order.discount == OrZero(form[Plain("discount")])
    ensures order.coupon == Some(form[Plain("coupon")])
    ensures order.userComment == Some(form[Plain("user_comment")])
    ensures order.adminComment == None
  {
    PurchaseOrder(
      id, user, PurchaseOrderStatusIds["ordered"],
      OrZero(form[Plain("shipping_cost")]),
      CurrentFee,
      Some(form[Plain("coupon")]),
      OrZero(form[Plain("discount")]),
      Some(form[Plain("user_comment")]),
      None)
  }

  /** The product row i of the form describes, attached to the order `orderId`. */
  function MakeProduct(form: Form, i: nat, orderId: nat, user: UserId): (p: Product)
    requires RowPassesValidation(form, i) && RowComplete(form, i)
    ensures p.purchaseOrder == Some(orderId) && p.user == user
    ensures p.productLink != "" && p.color != "" && p.size != "" && p.quantity != "" && p.price != ""
    ensures p.productLink == form[Row("product_link", i)] && p.color == form[Row("color", i)]
    ensures p.size == form[Row("size", i)] && p.quantity == form[Row("quantity", i)]
    ensures p.price == form[Row("price", i)]
    ensures p.discountInShop == Some(form[Row("discount_in_shop", i)])
    ensures p.shopLink == Some(form[Row("shop_link", i)]) && p.vendorCode == Some(form[Row("vendor_code", i)])
    ensures p.name == Some(form[Row("name", i)]) && p.discountCode == Some(form[Row("discount_code", i)])
    ensures p.note == Some(form[Row("note", i)])
  {
    Product(
      Some(orderId), user,
      Some(form[Row("shop_link", i)]),
      form[Row("product_link", i)],
      Some(form[Row("vendor_code", i)]),
      Some(form[Row("name", i)]),
      form[Row("color", i)],
      form[Row("size", i)],
      form[Row("quantity", i)],
      form[Row("price", i)],
      Some(form[Row("discount_code", i)]),
      Some(form[Row("discount_in_shop", i)]),
      Some(form[Row("note", i)]))
  }

  /** Why reading the product rows stopped. */
  datatype Stop =
    | NoMoreRows   // the next row has no product link at all
    | Rejected     // the next row misses a required field
    | Incomplete   // the next row misses a field read only on creation

  datatype RowsRead = RowsRead(products: seq<Product>, stop: Stop)

  /** The keys not yet used up once rows 1 .. i-1 have been read. */
  function Remaining(form: Form, i: nat): set<Key> {
    set k | k in form.Keys && !(k.Row? && k.field == "product_link" && k.index < i)
  }

  /** The stop reason holds at row `at`. */
  predicate StopsAt(form: Form, at: nat, stop: Stop) {
    match stop
    case NoMoreRows => Row("product_link", at) !in form
    case Rejected => Row("product_link", at) in form && !RowPassesValidation(form, at)
    case Incomplete =>
      Row("product_link", at) in form && RowPassesValidation(form, at) && !RowComplete(form, at)
  }

  /** `products` are the products of rows i, i + 1, ..., each of which passes the check and is complete. */
  predicate ProductsOfRows(form: Form, i: nat, orderId: nat, user: UserId, products: seq<Product>) {
    forall j :: i <= j < i + |products| ==>
      && RowPassesValidation(form, j)
      && RowComplete(form, j)
      && products[j - i] == MakeProduct(form, j, orderId, user)
  }

  /**
   * The rows from i on, as the view reads them: each row with a product link
   * that passes the check and is complete becomes a product, and reading
   * stops at the first row that has no product link, fails the check or is
   * incomplete.
   */
  function ReadRows(form: Form, i: nat, orderId: nat, user: UserId): (r: RowsRead)
    decreases Remaining(form, i)
    ensures ProductsOfRows(form, i, orderId, user, r.products)
    ensures StopsAt(form, i + |r.products|, r.stop)
  {
    if Row("product_link", i) !in form then RowsRead([], NoMoreRows)
    else if !RowPassesValidation(form, i) then RowsRead([], Rejected)
    else if !RowComplete(form, i) then RowsRead([], Incomplete)
    else
      assert Row("product_link", i) in Remaining(form, i) - Remaining(form, i + 1);
      var rest := ReadRows(form, i + 1, orderId, user);
      var products := [MakeProduct(form, i, orderId, user)] + rest.products;
      RowsRead(products, rest.stop)
  }

  /**
   * The read is determined by the rows: whatever list of products and stop
   * reason meets the description of ReadRows's contract is its result.
   */
  lemma {:induction false} ReadRowsUnique(form: Form, i: nat, orderId: nat, user: UserId, r: RowsRead)
    requires ProductsOfRows(form, i, orderId, user, r.products)
    requires StopsAt(form, i + |r.products|, r.stop)
    ensures ReadRows(form, i, orderId, user) == r
    decreases |r.products|
  {
    if r.products == [] {
      assert StopsAt(form, i, r.stop);
    } else {
      var tail := RowsRead(r.products[1..], r.stop);
      assert ProductsOfRows(form, i + 1, orderId, user, tail.products) by {
        forall j | i + 1 <= j < i + 1 + |tail.products|
          ensures && RowPassesValidation(form, j) && RowComplete(form, j)
                  && tail.products[j - (i + 1)] == MakeProduct(form, j, orderId, user)
        {
          assert tail.products[j - (i + 1)] == r.products[j - i];
        }
      }
      ReadRowsUnique(form, i + 1, orderId, user, tail);
      assert RowPassesValidation(form, i) && RowComplete(form, i);
      assert r.products == [MakeProduct(form, i, orderId, user)] + tail.products;
    }
  }

  /**
   * No rollback: when rows 1 .. n are good and row n + 1 is refused, the
   * products of the n good rows are still created.
   */
  lemma RejectionKeepsEarlierRows(form: Form, n: nat, orderId: nat, user: UserId)
    requires forall k :: 1 <= k <= n ==> RowPassesValidation(form, k) && RowComplete(form, k)
    requires Row("product_link", n + 1) in form && !RowPassesValidation(form, n + 1)
    ensures ReadRows(form, 1, orderId, user).stop == Rejected
    ensures ReadRows(form, 1, orderId, user).products ==
              seq(n, k requires 0 <= k < n => MakeProduct(form, 1 + k, orderId, user))
  {
    var ps := seq(n, k requires 0 <= k < n => MakeProduct(form, 1 + k, orderId, user));
    assert ProductsOfRows(form, 1, orderId, user, ps);
    ReadRowsUnique(form, 1, orderId, user, RowsRead(ps, Rejected));
  }

  /**
   * A row whose discount_in_shop was sent empty is not refused: with its
   * other fields present, it becomes a product whose shop discount is the
   * empty text.
   */
  lemma EmptyShopDiscountAccepted(form: Form, i: nat, orderId: nat, user: UserId)
    requires Filled(form, Row("product_link", i)) && Filled(form, Row("color", i))
    requires Filled(form, Row("size", i)) && Filled(form, Row("quantity", i))
    requires Filled(form, Row("price", i)) && RowComplete(form, i)
    requires Row("discount_in_shop", i) in form && form[Row("discount_in_shop", i)] == ""
    ensures |ReadRows(form, i, orderId, user).products| >= 1
    ensures ReadRows(form, i, orderId, user).products[0].discountInShop == Some("")
  {
    var r := ReadRows(form, i, orderId, user);
    assert !StopsAt(form, i, r.stop);
  }

  /**
   * Every product the view creates belongs to the new order and its user and
   * has its product link, colour, size, quantity and price filled in.
   */
  lemma ReadProductsWellFormed(form: Form, orderId: nat, user: UserId)
    ensures forall p :: p in ReadRows(form, 1, orderId, user).products ==>
              && p.purchaseOrder == Some(orderId) && p.user == user
              && p.productLink != "" && p.color != "" && p.size != ""
              && p.quantity != "" && p.price != "" && p.discountInShop.Some?
  {
    var r := ReadRows(form, 1, orderId, user);
    forall p | p in r.products
      ensures && p.purchaseOrder == Some(orderId) && p.user == user
              && p.productLink != "" && p.color != "" && p.size != ""
              && p.quantity != "" && p.price != "" && p.discountInShop.Some?
    {
      var k :| 0 <= k < |r.products| && r.products[k] == p;
      assert RowPassesValidation(form, 1 + k);
    }
  }

  /** The status ids each tab of "my orders" shows; any other tab does not exist. */
  function TabStatuses(tab: string): (r: Option<set<nat>>)
    ensures tab == "active" ==> r == Some({3, 4, 5, 6, 7})
    ensures tab == "draft" ==> r == Some({1})
    ensures tab == "archive" ==> r == Some({2, 8})
    ensures r.None? <==> tab != "active" && tab != "draft" && tab != "archive"
  {
    if tab == "active" then
      Some({
        PurchaseOrderStatusIds["ordered"],
        PurchaseOrderStatusIds["waits_for_payment"],
        PurchaseOrderStatusIds["in_progress"],
        PurchaseOrderStatusIds["coming_to_storage"],
        PurchaseOrderStatusIds["received_partially"]
      })
    else if tab == "draft" then
      Some({PurchaseOrderStatusIds["draft"]})
    else if tab == "archive" then
      Some({PurchaseOrderStatusIds["canceled"], PurchaseOrderStatusIds["received_to_stock"]})
    else
      None
  }

  /** The three tabs split the status table: every status is shown under exactly one tab. */
  lemma TabsPartitionStatuses()
    ensures TabStatuses("active").value !! TabStatuses("draft").value
    ensures TabStatuses("active").value !! TabStatuses("archive").value
    ensures TabStatuses("draft").value !! TabStatuses("archive").value
    ensures TabStatuses("active").value + TabStatuses("draft").value + TabStatuses("archive").value
              == PurchaseOrderStatusIds.Values
  {
    StatusTableIds();
  }

  /** The orders of `user` whose status is one of `statuses`, in their stored order. */
  function FilterOrders(orders: seq<PurchaseOrder>, user: UserId, statuses: set<nat>): (r: seq<PurchaseOrder>)
    ensures |r| <= |orders|
    ensures forall o :: o in r <==> o in orders && o.user == user && o.status in statuses
  {
    if orders == [] then []
    else
      var rest := FilterOrders(orders[1..], user, statuses);
      var o := orders[0];
      assert forall x :: x in orders <==> x == o || x in orders[1..];
      if o.user == user && o.status in statuses then [o] + rest else rest
  }

  /** Each matching order is listed as often as it is stored, and no other order is listed. */
  lemma {:induction false} FilterOrdersCounts(orders: seq<PurchaseOrder>, user: UserId, statuses: set<nat>)
    ensures forall o :: multiset(FilterOrders(orders, user, statuses))[o] ==
              (if o.user == user && o.status in statuses then multiset(orders)[o] else 0)
  {
    if orders != [] {
      FilterOrdersCounts(orders[1..], user, statuses);
      assert orders == [orders[0]] + orders[1..];
      assert multiset(orders) == multiset{orders[0]} + multiset(orders[1..]);
    }
  }

  /** Filtering a concatenation filters each part, keeping the order. */
  lemma {:induction false} FilterOrdersConcat(a: seq<PurchaseOrder>, b: seq<PurchaseOrder>, user: UserId, statuses: set<nat>)
    ensures FilterOrders(a + b, user, statuses) == FilterOrders(a, user, statuses) + FilterOrders(b, user, statuses)
  {
    if a != [] {
      assert (a + b)[1..] == a[1..] + b;
      FilterOrdersConcat(a[1..], b, user, statuses);
    } else {
      assert a + b == b;
    }
  }

  datatype MyOrdersResponse =
    | NotFound
    | MyOrdersPage(activeTab: string, orders: seq<PurchaseOrder>)

  /**
   * my_orders: the page of one tab, listing exactly the user's orders whose
   * status belongs to that tab; an unknown tab is "not found".
   */
  function MyOrders(orders: seq<PurchaseOrder>, user: UserId, tab: string): (r: MyOrdersResponse)
    ensures r.NotFound? <==> tab != "active" && tab != "draft" && tab != "archive"
    ensures r.MyOrdersPage? ==> r.activeTab == tab
    ensures r.MyOrdersPage? ==> forall o :: o in r.orders <==>
              o in orders && o.user == user && o.status in TabStatuses(tab).value
    ensures r.MyOrdersPage? ==>
              (forall o :: multiset(r.orders)[o] ==
                 (if o.user == user && o.status in TabStatuses(tab).value then multiset(orders)[o] else 0))
  {
    match TabStatuses(tab)
    case None => NotFound
    case Some(statuses) =>
      FilterOrdersCounts(orders, user, statuses);
      MyOrdersPage(tab, FilterOrders(orders, user, statuses))
  }

  /**
   * An order just created by the form is listed last under the user's
   * "active" tab, and the "draft" and "archive" tabs are unchanged.
   */
  lemma {:induction false} CreatedOrderListedAsActive(orders: seq<PurchaseOrder>, form: Form, user: UserId)
    requires HasOrderFields(form)
    ensures var order := CreatedOrder(form, user, |orders| + 1);
            && MyOrders(orders + [order], user, "active").orders == MyOrders(orders, user, "active").orders + [order]
            && MyOrders(orders + [order], user, "draft") == MyOrders(orders, user, "draft")
            && MyOrders(orders + [order], user, "archive") == MyOrders(orders, user, "archive")
  {
    var order := CreatedOrder(form, user, |orders| + 1);
    var tabs := ["active", "draft", "archive"];
    forall t | t in tabs
      ensures FilterOrders(orders + [order], user, TabStatuses(t).value)
              == FilterOrders(orders, user, TabStatuses(t).value) + FilterOrders([order], user, TabStatuses(t).value)
    {
      FilterOrdersConcat(orders, [order], user, TabStatuses(t).value);
    }
    assert FilterOrders([order], user, TabStatuses("active").value) == [order];
    assert FilterOrders([order], user, TabStatuses("draft").value) == [];
    assert FilterOrders([order], user, TabStatuses("archive").value) == [];
  }

  /** The stored purchase orders and products, as the views change them. */
  class Store {
    var orders: seq<PurchaseOrder>
    var products: seq<Product>

    /** Row ids are given out in sequence: the k-th stored order has id k + 1. */
    ghost predicate Valid()
      reads this
    {
      forall k :: 0 <= k < |orders| ==> orders[k].id == k + 1
    }

    constructor()
      ensures Valid() && orders == [] && products == []
    {
      orders := [];
      products := [];
    }

    /**
     * new_order. A GET only shows the form with the current fee. A POST
     * creates the order with status "ordered" and then one product per
     * row 1, 2, ... until a row has no product link or misses a field read
     * on creation (the form is shown again), or misses a required field
     * (the user is sent back to the form with a message). Neither stop
     * undoes what was created before it.
     */
    method NewOrder(user: UserId, request: Request) returns (response: NewOrderResponse)
      requires Valid()
      requires request.Post? ==> HasOrderFields(request.form)
      modifies this
      ensures Valid()
      ensures request.Get? ==>
                orders == old(orders) && products == old(products) && response == NewOrderPage(CurrentFee)
      ensures request.Post? ==>
                var read := ReadRows(request.form, 1, |old(orders)| + 1, user);
                && orders == old(orders) + [CreatedOrder(request.form, user, |old(orders)| + 1)]
                && products == old(products) + read.products
                && response == if read.stop == Rejected
                               then RedirectedToNewOrder(RequiredProductFieldsMissing)
                               else NewOrderPage(CurrentFee)
    {
      if request.Get? {
        return NewOrderPage(CurrentFee);
      }
      var form := request.form;
      var order := CreatedOrder(form, user, |orders| + 1);
      orders := orders + [order];
      ghost var all := ReadRows(form, 1, order.id, user);
      ghost var rest := all;
      var i := 0;
      while true
        invariant orders == old(orders) + [order]
        invariant rest == ReadRows(form, i + 1, order.id, user)
        invariant products + rest.products == old(products) + all.products
        invariant rest.stop == all.stop
        decreases Remaining(form, i + 1)
      {
        i := i + 1;
        if Row("product_link", i) !in form {
          break;
        }
        if !RowPassesValidation(form, i) {
          return RedirectedToNewOrder(RequiredProductFieldsMissing);
        }
        if !RowComplete(form, i) {
          break;
        }
        var product := MakeProduct(form, i, order.id, user);
        assert Row("product_link", i) in Remaining(form, i) - Remaining(form, i + 1);
        ghost var next := ReadRows(form, i + 1, order.id, user);
        assert rest.products == [product] + next.products;
        assert products + [product] + next.products == products + ([product] + next.products);
        products := products + [product];
        rest := next;
      }
      response := NewOrderPage(CurrentFee);
    }
  }
}
