/**
 * The records and constants of the delivery tracker's schema: the fee an
 * order is created with, the fixed status table, purchase orders, products,
 * and the product's display helper that shortens a shop link.
 */
module Models {

  datatype Option<+T> = None | Some(value: T)

  /** A user of the site, identified by the row id of its account. */
  type UserId = nat

  /** The service fee a new purchase order is charged (CURRENT_FEE). */
  const CurrentFee: int := 5

  /** The status names in the order of their ids. */
  const StatusNames: seq<string> := [
    "draft", "canceled", "ordered", "waits_for_payment",
    "in_progress", "coming_to_storage", "received_partially", "received_to_stock"
  ]

  /** PURCHASE_ORDER_STATUS: each status name with the id of its row in the status table. */
  const PurchaseOrderStatusIds: map<string, nat> := map[
    "draft" := 1,
    "canceled" := 2,
    "ordered" := 3,
    "waits_for_payment" := 4,
    "in_progress" := 5,
    "coming_to_storage" := 6,
    "received_partially" := 7,
    "received_to_stock" := 8
  ]

  /** The status table names exactly the eight statuses, the ids following their listed order. */
  lemma StatusTableNames()
    ensures PurchaseOrderStatusIds.Keys == set n | n in StatusNames
    ensures forall k :: 0 <= k < |StatusNames| ==> PurchaseOrderStatusIds[StatusNames[k]] == k + 1
  {
  }

  /** The ids of the status table are exactly 1 through 8, one per status. */
  lemma StatusTableIds()
    ensures PurchaseOrderStatusIds.Values == {1, 2, 3, 4, 5, 6, 7, 8}
    ensures forall a, b :: a in PurchaseOrderStatusIds && b in PurchaseOrderStatusIds && a != b ==>
              PurchaseOrderStatusIds[a] != PurchaseOrderStatusIds[b]
  {
    forall id | id in PurchaseOrderStatusIds.Values ensures 1 <= id <= 8 {
      var n :| n in PurchaseOrderStatusIds && PurchaseOrderStatusIds[n] == id;
    }
    forall id | 1 <= id <= 8 ensures id in PurchaseOrderStatusIds.Values {
      StatusTableNames();
      assert PurchaseOrderStatusIds[StatusNames[id - 1]] == id;
    }
  }

  /**
   * A numeric form value written as `request.POST[...] or 0`: an empty
   * submission becomes the number 0, anything else is kept as typed.
   */
  datatype Amount = DefaultZero | Entered(text: string)

  /** `s or 0` on a submitted string. */
  function OrZero(s: string): (a: Amount)
    ensures a.DefaultZero? <==> s == ""
    ensures a.Entered? ==> a.text == s && a.text != ""
  {
    if s == "" then DefaultZero else Entered(s)
  }

  /** A row of the purchase_order table; `status` is the id of a status-table row. */
  datatype PurchaseOrder = PurchaseOrder(
    id: nat,
    user: UserId,
    status: nat,
    shippingCost: Amount,
    fee: int,
    coupon: Option<string>,
    discount: Amount,
    userComment: Option<string>,
    adminComment: Option<string>
  )

  /**
   * A row of the product table. Quantity, price and the shop discount are
   * kept as the text that was submitted.
   */
  datatype Product = Product(
    purchaseOrder: Option<nat>,
    user: UserId,
    shopLink: Option<string>,
    productLink: string,
    vendorCode: Option<string>,
    name: Option<string>,
    color: string,
    size: string,
    quantity: string,
    price: string,
    discountCode: Option<string>,
    discountInShop: Option<string>,
    note: Option<string>
  )

  /** A shop link of this many characters or more is cut to this length and an ellipsis added. */
  const TrimLength: nat := 77
  const Ellipsis: string := "..."

  /**
   * Product.shop_link_trimmed: the shop link as displayed. A link shorter
   * than 77 characters is shown as is; a longer one (and one of exactly 77)
   * is cut to its first 77 characters and followed by "...".
   */
  function ShopLinkTrimmed(shopLink: string): (r: string)
    ensures |shopLink| < TrimLength ==> r == shopLink
    ensures |shopLink| >= TrimLength ==> |r| == TrimLength + |Ellipsis| && r[TrimLength..] == Ellipsis
    ensures |r| <= TrimLength + |Ellipsis|
    ensures var n := if |shopLink| < TrimLength then |shopLink| else TrimLength;
            n <= |r| && r[..n] == shopLink[..n]
  {
    if |shopLink| >= TrimLength then shopLink[..TrimLength] + Ellipsis else shopLink
  }

  /** Trimming a trimmed link changes nothing. */
  lemma ShopLinkTrimmedIdempotent(shopLink: string)
    ensures ShopLinkTrimmed(ShopLinkTrimmed(shopLink)) == ShopLinkTrimmed(shopLink)
  {
    var r := ShopLinkTrimmed(shopLink);
    if |shopLink| >= TrimLength {
      assert r[..TrimLength] == shopLink[..TrimLength];
      assert ShopLinkTrimmed(r) == r[..TrimLength] + Ellipsis;
    }
  }

  /**
   * The boundary is inclusive: a link of exactly 77 characters loses nothing
   * but still gets the ellipsis, so its display is 3 characters longer.
   */
  lemma ShopLinkTrimmedAtBoundary(shopLink: string)
    requires |shopLink| == TrimLength
    ensures ShopLinkTrimmed(shopLink) == shopLink + Ellipsis
    ensures |ShopLinkTrimmed(shopLink)| == |shopLink| + 3
  {
    assert shopLink[..TrimLength] == shopLink;
  }
}
