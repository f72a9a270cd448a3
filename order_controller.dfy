/** Order placement, lookup, status update and listing
    (controllers/orderController.js).  Mail, the PDF invoice and its
    removal are side effects whose outcome the controller catches and logs;
    they are returned as a list of `Effect`s instead of being performed. */
module OrderController {
  import opened Wrappers
  import opened Text
  import opened Listing
  import opened Counter
  import opened OrderModel
  import AccountController

  /** The body of `POST /api/orders`; an absent or non-array `cart` is
      `None`, an absent or non-number `totalPrice` is `None`. */
  datatype OrderRequest = OrderRequest(
    name: string,
    email: string,
    phone: string,
    address: string,
    cart: Option<seq<CartItem>>,
    totalPrice: Option<int>)

  // ---------------------------------------------------------------------
  // Request validation

  /** The first check: every contact field is non-empty and the cart is a
      non-empty array. */
  predicate FieldsPresent(req: OrderRequest)
  {
    && req.name != "" && req.email != "" && req.phone != "" && req.address != ""
    && req.cart.Some? && |req.cart.value| > 0
  }

  /** The per-item check: a name, a non-zero price and a positive quantity.
      A negative price passes. */
  predicate ValidItem(item: CartItem)
  {
    item.name != "" && item.price != 0 && item.quantity > 0
  }

  /** The position of the first cart item the `for...of` loop rejects. */
  function FirstInvalidItem(cart: seq<CartItem>): (r: Option<nat>)
    ensures r.None? <==> forall i :: 0 <= i < |cart| ==> ValidItem(cart[i])
    ensures r.Some? ==> r.value < |cart| && !ValidItem(cart[r.value])
    ensures r.Some? ==> forall i :: 0 <= i < r.value ==> ValidItem(cart[i])
  {
    if cart == [] then None
    else if !ValidItem(cart[0]) then Some(0)
    else
      match FirstInvalidItem(cart[1..])
      case None => None
      case Some(k) => Some(k + 1)
  }

  function LineTotal(item: CartItem): int
  {
    item.price * item.quantity
  }

  /** `cart.reduce((sum, item) => sum + item.price * item.quantity, acc)`. */
  function Reduce(acc: int, cart: seq<CartItem>): int
    decreases cart
  {
    if cart == [] then acc else Reduce(acc + LineTotal(cart[0]), cart[1..])
  }

  /** The total the server computes. */
  function CartTotal(cart: seq<CartItem>): int
  {
    Reduce(0, cart)
  }

  /** Reference definition: the sum of the line totals. */
  function LineSum(cart: seq<CartItem>): int
  {
    if cart == [] then 0 else LineTotal(cart[0]) + LineSum(cart[1..])
  }

  lemma {:induction false} ReduceIsLineSum(acc: int, cart: seq<CartItem>)
    ensures Reduce(acc, cart) == acc + LineSum(cart)
    decreases cart
  {
    if cart != [] {
      ReduceIsLineSum(acc + LineTotal(cart[0]), cart[1..]);
    }
  }

  /** The computed total is the sum of the line totals, and adds up over
      a split of the cart. */
  lemma {:induction false} CartTotalIsLineSum(a: seq<CartItem>, b: seq<CartItem>)
    ensures CartTotal(a) == LineSum(a)
    ensures CartTotal(a + b) == CartTotal(a) + CartTotal(b)
  {
    ReduceIsLineSum(0, a);
    ReduceIsLineSum(0, b);
    ReduceIsLineSum(0, a + b);
    LineSumAppend(a, b);
  }

  lemma {:induction false} LineSumAppend(a: seq<CartItem>, b: seq<CartItem>)
    ensures LineSum(a + b) == LineSum(a) + LineSum(b)
  {
    if a == [] {
      assert a + b == b;
    } else {
      assert (a + b)[1..] == a[1..] + b;
      LineSumAppend(a[1..], b);
    }
  }

  /** A cart of valid items with positive prices has a positive total. */
  lemma {:induction false} PositivePricesPositiveTotal(cart: seq<CartItem>)
    requires |cart| > 0
    requires forall i :: 0 <= i < |cart| ==> ValidItem(cart[i]) && cart[i].price > 0
    ensures CartTotal(cart) > 0
  {
    CartTotalIsLineSum(cart, []);
    PositiveLineSum(cart);
  }

  lemma {:induction false} PositiveLineSum(cart: seq<CartItem>)
    requires |cart| > 0
    requires forall i :: 0 <= i < |cart| ==> ValidItem(cart[i]) && cart[i].price > 0
    ensures LineSum(cart) > 0
  {
    assert LineTotal(cart[0]) > 0 by {
      MulPositive(cart[0].price, cart[0].quantity);
    }
    if |cart| > 1 {
      PositiveLineSum(cart[1..]);
    }
  }

  lemma MulPositive(x: int, y: int)
    requires x > 0 && y > 0
    ensures x * y > 0
  {
  }

  const FIELDS_REQUIRED := "All fields are required"
  const INVALID_ITEM := "Invalid cart item"
  const TOTAL_MISMATCH := "Total price mismatch"

  /** The three checks `placeOrder` makes before touching the store, in
      their order; `None` means the request is accepted. */
  function CheckOrderRequest(req: OrderRequest): (r: Option<string>)
    ensures r == Some(FIELDS_REQUIRED) <==> !FieldsPresent(req)
    ensures r == Some(INVALID_ITEM) <==>
              FieldsPresent(req) && FirstInvalidItem(req.cart.value).Some?
    ensures r == Some(TOTAL_MISMATCH) <==>
              && FieldsPresent(req)
              && (forall i :: 0 <= i < |req.cart.value| ==> ValidItem(req.cart.value[i]))
              && req.totalPrice != Some(LineSum(req.cart.value))
    ensures r.None? <==>
              && FieldsPresent(req)
              && (forall i :: 0 <= i < |req.cart.value| ==> ValidItem(req.cart.value[i]))
              && req.totalPrice == Some(LineSum(req.cart.value))
  {
    CartTotalIsLineSum(if req.cart.Some? then req.cart.value else [], []);
    if !FieldsPresent(req) then Some(FIELDS_REQUIRED)
    else if FirstInvalidItem(req.cart.value).Some? then Some(INVALID_ITEM)
    else if req.totalPrice != Some(CartTotal(req.cart.value)) then Some(TOTAL_MISMATCH)
    else None
  }

  /** Two panels at 1000 each: 2000 is accepted, 1999 is a mismatch, and a
      negative price is not an invalid item. */
  lemma CheckOrderRequestExamples()
    ensures var cart := [CartItem("Panel", 1000, 2)];
            && CheckOrderRequest(OrderRequest("Ada", "a@x.ng", "080", "Lagos", Some(cart), Some(2000))).None?
            && CheckOrderRequest(OrderRequest("Ada", "a@x.ng", "080", "Lagos", Some(cart), Some(1999))) == Some(TOTAL_MISMATCH)
            && CheckOrderRequest(OrderRequest("Ada", "a@x.ng", "080", "Lagos", Some([]), Some(0))) == Some(FIELDS_REQUIRED)
            && CheckOrderRequest(OrderRequest("Ada", "a@x.ng", "080", "Lagos", Some([CartItem("Panel", 0, 2)]), Some(0))) == Some(INVALID_ITEM)
            && CheckOrderRequest(OrderRequest("Ada", "a@x.ng", "080", "Lagos", Some([CartItem("Refund", -5, 1)]), Some(-5))).None?
  {
    var c := [CartItem("Panel", 1000, 2)];
    assert LineSum(c) == 2000 by { assert c[1..] == []; }
    var n := [CartItem("Refund", -5, 1)];
    assert LineSum(n) == -5 by { assert n[1..] == []; }
  }

  // ---------------------------------------------------------------------
  // Side effects

  /** The payment details an invoice shows. */
  datatype PaymentDetails = PaymentDetails(accountNumber: string, bankName: string, accountName: string)

  const NOT_AVAILABLE := "Not available"

  /** The account-details fallback: the stored account when `findOne`
      yields one, and "Not available" in every field when it yields none or
      fails (both are `None` here). */
  function PaymentDetailsOf(found: Option<AccountController.Account>): (d: PaymentDetails)
    ensures found.None? ==> d == PaymentDetails(NOT_AVAILABLE, NOT_AVAILABLE, NOT_AVAILABLE)
    ensures found.Some? ==>
              d.accountNumber == found.value.accountNumber && d.bankName == found.value.bankName &&
              d.accountName == found.value.accountName
  {
    if found.None? then PaymentDetails(NOT_AVAILABLE, NOT_AVAILABLE, NOT_AVAILABLE)
    else PaymentDetails(found.value.accountNumber, found.value.bankName, found.value.accountName)
  }

  datatype MailBody =
    | Invoice(order: Order, payment: PaymentDetails)
    | NewOrderAlert(order: Order, payment: PaymentDetails)
    | StatusNotice(orderNumber: Option<string>, status: OrderStatus)

  datatype Mail = Mail(to: string, subject: string, body: MailBody, attachments: seq<string>)

  datatype Effect =
    | WriteInvoicePdf(path: string, order: Order)
    | SendMail(mail: Mail)
    | RemoveFile(path: string)

  function InvoiceFileName(num: string): string { "invoice-" + num + ".pdf" }

  function InvoicePath(num: string): string { "/tmp/" + InvoiceFileName(num) }

  function InvoiceSubject(num: string): string { "\U{1F9FE} Invoice - Order #" + num }

  const NEW_ORDER_SUBJECT := "\U{1F680} New Order Placed"
  const STATUS_SUBJECT := "Order Status Update"

  /** What happens after a successful save, in order: the PDF is written,
      mailed to the customer, removed, and the admin is alerted. */
  function PlacementEffects(o: Order, num: string, adminEmail: string, pay: PaymentDetails): (e: seq<Effect>)
    ensures |e| == 4
    ensures e[1] == SendMail(Mail(o.email, InvoiceSubject(num), Invoice(o, pay), [InvoiceFileName(num)]))
    ensures e[3] == SendMail(Mail(adminEmail, NEW_ORDER_SUBJECT, NewOrderAlert(o, pay), []))
    ensures e[0] == WriteInvoicePdf(InvoicePath(num), o) && e[2] == RemoveFile(InvoicePath(num))
  {
    [ WriteInvoicePdf(InvoicePath(num), o),
      SendMail(Mail(o.email, InvoiceSubject(num), Invoice(o, pay), [InvoiceFileName(num)])),
      RemoveFile(InvoicePath(num)),
      SendMail(Mail(adminEmail, NEW_ORDER_SUBJECT, NewOrderAlert(o, pay), [])) ]
  }

  const ORDER_SERIES := "orderNumber"

  /** The draft `placeOrder` saves: the formatted number, the contact
      fields, the cart, the computed total and status `pending`. */
  function PlacementDraft(req: OrderRequest, num: string): OrderDraft
    requires FieldsPresent(req)
  {
    OrderDraft(Some(num), req.name, req.email, req.phone, req.address,
               req.cart, Some(CartTotal(req.cart.value)), Some("pending"))
  }

  /** The order a placement stores under `_id` `id` at time `now`. */
  function PlacedOrder(req: OrderRequest, id: nat, num: string, now: int): Order
    requires FieldsPresent(req)
  {
    Order(id, Some(num), req.name, req.email, req.phone, req.address,
          req.cart.value, LineSum(req.cart.value), Pending, now, now)
  }

  /** The draft passes the schema and becomes the placed order. */
  lemma PlacementDraftValid(req: OrderRequest, num: string, id: nat, now: int)
    requires FieldsPresent(req) && num != ""
    ensures SchemaCheck(PlacementDraft(req, num)).None?
    ensures Materialize(PlacementDraft(req, num), id, now) == PlacedOrder(req, id, num, now)
  {
    CartTotalIsLineSum(req.cart.value, []);
  }

  // ---------------------------------------------------------------------
  // placeOrder

  /** `placeOrder`.  A rejected request touches neither the counter nor the
      orders.  An accepted one always bumps the counter; the save then
      fails only on a number already taken (a server error, the counter
      staying bumped).  Once saved the reply is 201 with the stored order,
      whatever the outcome of the mail and file effects. */
  method PlaceOrder(req: OrderRequest, counters: CounterStore, store: OrderStore,
                    account: Option<AccountController.Account>, adminEmail: string, now: int)
    returns (reply: Reply<Order>, effects: seq<Effect>)
    requires store.Valid()
    modifies counters, store
    ensures store.Valid()
    ensures CheckOrderRequest(req).Some? ==>
              && reply == Failure(BAD_REQUEST, CheckOrderRequest(req).value)
              && effects == []
              && counters.sequences == old(counters.sequences)
              && store.orders == old(store.orders) && store.nextId == old(store.nextId)
    ensures CheckOrderRequest(req).None? ==>
              var num := FormatOrderNumber(Current(old(counters.sequences), ORDER_SERIES) + 1);
              && counters.sequences == Bumped(old(counters.sequences), ORDER_SERIES)
              && (NumberIn(old(store.orders), num) ==>
                    && reply == Failure(SERVER_ERROR, "Server error")
                    && effects == []
                    && store.orders == old(store.orders) && store.nextId == old(store.nextId))
              && (!NumberIn(old(store.orders), num) ==>
                    var o := PlacedOrder(req, old(store.nextId), num, now);
                    && reply == Success(CREATED, o)
                    && store.orders == old(store.orders) + [o]
                    && store.nextId == old(store.nextId) + 1
                    && effects == PlacementEffects(o, num, adminEmail, PaymentDetailsOf(account)))
  {
    var check := CheckOrderRequest(req);
    if check.Some? {
      return Failure(BAD_REQUEST, check.value), [];
    }
    var sequence := counters.GetNextSequence(ORDER_SERIES);
    var num := FormatOrderNumber(sequence);
    PlacementDraftValid(req, num, store.nextId, now);
    var saved := store.Save(PlacementDraft(req, num), now);
    if saved.Rejected? {
      return Failure(SERVER_ERROR, "Server error"), [];
    }
    var o := saved.order;
    effects := PlacementEffects(o, num, adminEmail, PaymentDetailsOf(account));
    reply := Success(CREATED, o);
  }

  /** An accepted request is stored with the total the client sent, which
      is the sum of its line totals. */
  lemma AcceptedTotalIsLineSum(req: OrderRequest)
    requires CheckOrderRequest(req).None?
    ensures req.totalPrice == Some(CartTotal(req.cart.value))
    ensures forall i :: 0 <= i < |req.cart.value| ==> req.cart.value[i].quantity > 0
  {
    CartTotalIsLineSum(req.cart.value, []);
  }

  // ---------------------------------------------------------------------
  // getOrderById and updateOrderStatus

  /** `getOrderById`. */
  function GetOrderById(store: OrderStore, id: nat): (r: Reply<Order>)
    reads store
    ensures r.Success? <==> exists i :: 0 <= i < |store.orders| && store.orders[i].id == id
    ensures r.Failure? ==> r == Failure(NOT_FOUND, "Order not found")
    ensures r.Success? ==> r.status == OK && r.value in store.orders && r.value.id == id
  {
    match store.FindById(id)
    case None => Failure(NOT_FOUND, "Order not found")
    case Some(o) => Success(OK, o)
  }

  function StatusMail(o: Order): Mail
  {
    Mail(o.email, STATUS_SUBJECT, StatusNotice(o.orderNumber, o.orderStatus), [])
  }

  /** `updateOrderStatus`: the status must name one of the enum's values;
      any status may replace any other.  The notice mail is awaited, so a
      failed send (`mailSent` false) answers 500 although the new status
      is already stored. */
  method UpdateOrderStatus(store: OrderStore, id: nat, orderStatus: string, now: int, mailSent: bool)
    returns (reply: Reply<Order>, effects: seq<Effect>)
    requires store.Valid()
    modifies store
    ensures store.Valid() && store.nextId == old(store.nextId)
    ensures ParseStatus(orderStatus).None? ==>
              reply == Failure(BAD_REQUEST, "Invalid order status") && effects == [] &&
              store.orders == old(store.orders)
    ensures ParseStatus(orderStatus).Some? && IndexOfId(old(store.orders), id).None? ==>
              reply == Failure(NOT_FOUND, "Order not found") && effects == [] &&
              store.orders == old(store.orders)
    ensures ParseStatus(orderStatus).Some? && IndexOfId(old(store.orders), id).Some? ==>
              var i := IndexOfId(old(store.orders), id).value;
              var o := old(store.orders)[i].(orderStatus := ParseStatus(orderStatus).value, updatedAt := now);
              && store.orders == old(store.orders)[i := o]
              && effects == [SendMail(StatusMail(o))]
              && reply == (if mailSent then Success(OK, o) else Failure(SERVER_ERROR, "Server error"))
  {
    var status := ParseStatus(orderStatus);
    if status.None? {
      return Failure(BAD_REQUEST, "Invalid order status"), [];
    }
    var updated := store.UpdateStatus(id, status.value, now);
    if updated.None? {
      return Failure(NOT_FOUND, "Order not found"), [];
    }
    var o := updated.value;
    effects := [SendMail(StatusMail(o))];
    if !mailSent {
      return Failure(SERVER_ERROR, "Server error"), effects;
    }
    reply := Success(OK, o);
  }

  // ---------------------------------------------------------------------
  // getOrders

  /** The `$regex` filter on `orderNumber` (case-insensitive); an empty
      search filters nothing, and an order without a number never matches
      a non-empty search. */
  predicate MatchesSearch(o: Order, search: string)
  {
    search == "" || (o.orderNumber.Some? && ContainsIgnoreCase(o.orderNumber.value, search))
  }

  /** `Order.find(query)` in storage order. */
  function Matching(orders: seq<Order>, search: string): (r: seq<Order>)
    ensures |r| <= |orders|
    ensures search == "" ==> r == orders
    ensures forall o :: o in r <==> o in orders && MatchesSearch(o, search)
    ensures forall o :: multiset(r)[o] == if MatchesSearch(o, search) then multiset(orders)[o] else 0
  {
    if orders == [] then []
    else
      assert orders == [orders[0]] + orders[1..];
      assert multiset(orders) == multiset{orders[0]} + multiset(orders[1..]);
      (if MatchesSearch(orders[0], search) then [orders[0]] else []) + Matching(orders[1..], search)
  }

  function CreatedAt(o: Order): int { o.createdAt }

  /** `getOrders`: `page` and `limit` are the `parseInt` results of the
      query parameters (`None` for NaN), `search` is `""` when absent. */
  function GetOrders(orders: seq<Order>, page: Option<int>, limit: Option<int>, search: string)
    : (r: Reply<Page<Order>>)
    ensures var p, l := ParamOr(page, DEFAULT_PAGE), ParamOr(limit, DEFAULT_LIMIT);
            && (r.Success? <==> Skip(p, l) >= 0)
            && (r.Failure? ==> r == Failure(SERVER_ERROR, "Server error"))
            && (r.Success? ==>
                  && r.value.currentPage == p
                  && r.value.totalPages == CeilDiv(|Matching(orders, search)|, l)
                  && |r.value.items| <= Abs(l)
                  && NewestFirstBy(r.value.items, CreatedAt)
                  && (forall k :: 0 <= k < |r.value.items| ==>
                       r.value.items[k] in orders && MatchesSearch(r.value.items[k], search))
                  && WindowOf(r.value.items, NewestFirst(Matching(orders, search), CreatedAt), Skip(p, l), l))
  {
    var p, l := ParamOr(page, DEFAULT_PAGE), ParamOr(limit, DEFAULT_LIMIT);
    var matching := Matching(orders, search);
    var sorted := NewestFirst(matching, CreatedAt);
    var r := PageOf(sorted, p, l);
    if r.Success? then
      PageKeepsOrder(sorted, p, l, CreatedAt);
      assert forall k :: 0 <= k < |r.value.items| ==> r.value.items[k] in multiset(matching);
      r
    else r
  }

  /** With the defaults, the first page holds the ten newest matching
      orders, or all of them when fewer. */
  lemma DefaultListing(orders: seq<Order>, search: string)
    ensures var r := GetOrders(orders, None, None, search);
            var n := |Matching(orders, search)|;
            && r.Success? && r.value.currentPage == 1
            && |r.value.items| == (if n < 10 then n else 10)
            && (n == 0 <==> r.value.totalPages == 0)
  {
  }

  /** With a positive limit, the `k`-th newest matching order is listed on
      page `k / limit + 1`, at position `k % limit`, within `totalPages`. */
  lemma EveryMatchListed(orders: seq<Order>, search: string, limit: int, k: nat)
    requires limit > 0 && k < |Matching(orders, search)|
    ensures var p := k / limit + 1;
            var r := GetOrders(orders, Some(p), Some(limit), search);
            && r.Success? && 1 <= p <= r.value.totalPages
            && k % limit < |r.value.items|
            && r.value.items[k % limit] == NewestFirst(Matching(orders, search), CreatedAt)[k]
  {
    var sorted, p := NewestFirst(Matching(orders, search), CreatedAt), k / limit + 1;
    ItemOnItsPage(sorted, limit, k);
    assert ParamOr(Some(p), DEFAULT_PAGE) == p && ParamOr(Some(limit), DEFAULT_LIMIT) == limit;
    assert GetOrders(orders, Some(p), Some(limit), search) == PageOf(sorted, p, limit);
  }
}
