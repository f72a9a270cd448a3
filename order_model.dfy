/** The Order schema (models/orderModel.js) and the orders collection that
    enforces it: required fields, the closed status enum with its default,
    and the unique index on `orderNumber`. */
module OrderModel {
  import opened Wrappers
  import opened Text

  datatype OrderStatus = Pending | Shipped | Canceled

  function StatusName(s: OrderStatus): string
  {
    match s
    case Pending => "pending"
    case Shipped => "shipped"
    case Canceled => "canceled"
  }

  /** The schema's enum: the status a string names, if it names one. */
  function ParseStatus(name: string): (r: Option<OrderStatus>)
    ensures r.Some? <==> name == "pending" || name == "shipped" || name == "canceled"
    ensures r.Some? ==> StatusName(r.value) == name
  {
    if name == "pending" then Some(Pending)
    else if name == "shipped" then Some(Shipped)
    else if name == "canceled" then Some(Canceled)
    else None
  }

  lemma StatusNameRoundTrip(s: OrderStatus)
    ensures ParseStatus(StatusName(s)) == Some(s)
  {
  }

  /** One cart line; an absent `price` or `quantity` reads as 0, which the
      controllers' `!x` test treats exactly like a missing value. */
  datatype CartItem = CartItem(name: string, price: int, quantity: int)

  /** A stored order.  `orderNumber` is `None` only on records written
      before the field existed (the ones the migration back-fills). */
  datatype Order = Order(
    id: nat,
    orderNumber: Option<string>,
    name: string,
    email: string,
    phone: string,
    address: string,
    cart: seq<CartItem>,
    totalPrice: int,
    orderStatus: OrderStatus,
    createdAt: int,
    updatedAt: int)

  /** The fields given to `new Order({...})`, before validation. */
  datatype OrderDraft = OrderDraft(
    orderNumber: Option<string>,
    name: string,
    email: string,
    phone: string,
    address: string,
    cart: Option<seq<CartItem>>,
    totalPrice: Option<int>,
    orderStatus: Option<string>)

  datatype SaveError =
    | ValidationError(path: string)
    | DuplicateKey(orderNumber: string)
    | DocumentNotFound

  datatype SaveResult = Saved(order: Order) | Rejected(error: SaveError)

  // ---------------------------------------------------------------------
  // Order numbers

  const ORDER_NUMBER_WIDTH: nat := 6

  /** `sequence.toString().padStart(6, "0")`. */
  function FormatOrderNumber(sequence: nat): string
  {
    PadStart(NatToDecimal(sequence), ORDER_NUMBER_WIDTH, '0')
  }

  lemma Pow10Six()
    ensures Pow10(6) == 1000000
  {
    assert Pow10(1) == 10;
    assert Pow10(2) == 100;
    assert Pow10(3) == 1000;
    assert Pow10(4) == 10000;
    assert Pow10(5) == 100000;
  }

  /** An order number is a string of at least six decimal digits that reads
      back as the sequence; it is exactly six digits long precisely for
      sequences below 1,000,000. */
  lemma FormatOrderNumberShape(sequence: nat)
    ensures AllDigits(FormatOrderNumber(sequence))
    ensures DecimalValue(FormatOrderNumber(sequence)) == sequence
    ensures ParseInt(FormatOrderNumber(sequence)) == Some(sequence)
    ensures |FormatOrderNumber(sequence)| >= ORDER_NUMBER_WIDTH
    ensures |FormatOrderNumber(sequence)| == ORDER_NUMBER_WIDTH <==> sequence < 1000000
  {
    var d := NatToDecimal(sequence);
    var r := FormatOrderNumber(sequence);
    DecimalRoundTrip(sequence);
    if |d| < ORDER_NUMBER_WIDTH {
      assert r == Repeat('0', ORDER_NUMBER_WIDTH - |d|) + d;
      LeadingZeros(ORDER_NUMBER_WIDTH - |d|, d);
    }
    Pow10Six();
    DecimalFitsIn(sequence, 6);
    ParseIntOfDigits(r);
  }

  /** Distinct sequences give distinct order numbers. */
  lemma FormatOrderNumberInjective(a: nat, b: nat)
    ensures FormatOrderNumber(a) == FormatOrderNumber(b) <==> a == b
  {
    FormatOrderNumberShape(a);
    FormatOrderNumberShape(b);
  }

  /** For six-digit order numbers, string order is numeric order. */
  lemma FormatOrderNumberOrder(a: nat, b: nat)
    requires a < 1000000 && b < 1000000
    ensures StrLess(FormatOrderNumber(a), FormatOrderNumber(b)) <==> a < b
  {
    FormatOrderNumberShape(a);
    FormatOrderNumberShape(b);
    DigitOrderIsNumeric(FormatOrderNumber(a), FormatOrderNumber(b));
  }

  // ---------------------------------------------------------------------
  // Schema validation

  /** Mongoose validation on save: the first schema path that fails, in
      schema order (a required String fails when empty). */
  function SchemaCheck(d: OrderDraft): (r: Option<SaveError>)
    ensures r.None? <==>
              && d.orderNumber.Some? && d.orderNumber.value != ""
              && d.name != "" && d.email != "" && d.phone != "" && d.address != ""
              && d.cart.Some? && d.totalPrice.Some?
              && (d.orderStatus.None? || ParseStatus(d.orderStatus.value).Some?)
    ensures r.Some? ==> r.value.ValidationError?
  {
    if d.orderNumber.None? || d.orderNumber.value == "" then Some(ValidationError("orderNumber"))
    else if d.name == "" then Some(ValidationError("name"))
    else if d.email == "" then Some(ValidationError("email"))
    else if d.phone == "" then Some(ValidationError("phone"))
    else if d.address == "" then Some(ValidationError("address"))
    else if d.cart.None? then Some(ValidationError("cart"))
    else if d.totalPrice.None? then Some(ValidationError("totalPrice"))
    else if d.orderStatus.Some? && ParseStatus(d.orderStatus.value).None? then Some(ValidationError("orderStatus"))
    else None
  }

  /** The record a valid draft becomes: status defaults to `pending`, both
      timestamps are the save time. */
  function Materialize(d: OrderDraft, id: nat, now: int): (o: Order)
    requires SchemaCheck(d).None?
    ensures o.orderStatus == (if d.orderStatus.None? then Pending else ParseStatus(d.orderStatus.value).value)
    ensures o.orderNumber == d.orderNumber && o.cart == d.cart.value && o.totalPrice == d.totalPrice.value
    ensures o.name == d.name && o.email == d.email && o.phone == d.phone && o.address == d.address
    ensures o.id == id && o.createdAt == now && o.updatedAt == now
  {
    Order(id, d.orderNumber, d.name, d.email, d.phone, d.address, d.cart.value, d.totalPrice.value,
          if d.orderStatus.None? then Pending else ParseStatus(d.orderStatus.value).value,
          now, now)
  }

  /** The default status applies exactly when none is supplied. */
  lemma DefaultStatusIsPending(d: OrderDraft, id: nat, now: int)
    requires SchemaCheck(d).None? && d.orderStatus.None?
    ensures Materialize(d, id, now).orderStatus == Pending
  {
  }

  /** A stored order seen as a draft again (what `save()` re-validates). */
  function DraftOf(o: Order): OrderDraft
  {
    OrderDraft(o.orderNumber, o.name, o.email, o.phone, o.address, Some(o.cart),
               Some(o.totalPrice), Some(StatusName(o.orderStatus)))
  }

  // ---------------------------------------------------------------------
  // Collection-wide constraints

  /** Some stored order already carries `num`. */
  predicate NumberIn(orders: seq<Order>, num: string)
  {
    exists i :: 0 <= i < |orders| && orders[i].orderNumber == Some(num)
  }

  /** The unique index: no two stored orders share an order number. */
  predicate NumbersUnique(orders: seq<Order>)
  {
    forall i, j :: 0 <= i < j < |orders| && orders[i].orderNumber.Some? ==>
      orders[i].orderNumber != orders[j].orderNumber
  }

  predicate IdsUnique(orders: seq<Order>)
  {
    forall i, j :: 0 <= i < j < |orders| ==> orders[i].id != orders[j].id
  }

  /** The position of the order whose `_id` is `id`. */
  function IndexOfId(orders: seq<Order>, id: nat): (r: Option<nat>)
    ensures r.Some? ==> r.value < |orders| && orders[r.value].id == id
    ensures r.None? <==> forall i :: 0 <= i < |orders| ==> orders[i].id != id
  {
    if orders == [] then None
    else if orders[|orders| - 1].id == id then Some(|orders| - 1)
    else IndexOfId(orders[..|orders| - 1], id)
  }

  /** Appending an order with a fresh number keeps the index unique. */
  lemma AppendKeepsNumbersUnique(orders: seq<Order>, o: Order)
    requires NumbersUnique(orders)
    requires o.orderNumber.Some? ==> !NumberIn(orders, o.orderNumber.value)
    ensures NumbersUnique(orders + [o])
  {
  }

  /** Giving order `k` a number no other order holds keeps the index unique. */
  lemma RenumberKeepsNumbersUnique(orders: seq<Order>, k: nat, o: Order)
    requires NumbersUnique(orders) && k < |orders|
    requires o.orderNumber.Some? ==>
               forall j :: 0 <= j < |orders| && j != k ==> orders[j].orderNumber != o.orderNumber
    ensures NumbersUnique(orders[k := o])
  {
  }

  /** The orders collection. */
  class OrderStore {
    var orders: seq<Order>
    var nextId: nat

    ghost predicate Valid()
      reads this
    {
      && NumbersUnique(orders)
      && IdsUnique(orders)
      && forall i :: 0 <= i < |orders| ==> orders[i].id < nextId
    }

    constructor ()
      ensures Valid() && orders == []
    {
      orders := [];
      nextId := 0;
    }

    /** `Order.findById(id)`. */
    function FindById(id: nat): (r: Option<Order>)
      reads this
      ensures r.Some? <==> exists i :: 0 <= i < |orders| && orders[i].id == id
      ensures r.Some? ==> r.value in orders && r.value.id == id
    {
      match IndexOfId(orders, id)
      case None => None
      case Some(i) => Some(orders[i])
    }

    /** `new Order(d).save()`: validation, then the unique index, then the
        insert with a fresh `_id` and both timestamps set. */
    method Save(d: OrderDraft, now: int) returns (r: SaveResult)
      requires Valid()
      modifies this
      ensures Valid()
      ensures SchemaCheck(d).Some? ==>
                r == Rejected(SchemaCheck(d).value) && orders == old(orders) && nextId == old(nextId)
      ensures SchemaCheck(d).None? && NumberIn(old(orders), d.orderNumber.value) ==>
                r == Rejected(DuplicateKey(d.orderNumber.value)) && orders == old(orders) && nextId == old(nextId)
      ensures SchemaCheck(d).None? && !NumberIn(old(orders), d.orderNumber.value) ==>
                && r == Saved(Materialize(d, old(nextId), now))
                && orders == old(orders) + [r.order]
                && nextId == old(nextId) + 1
    {
      var check := SchemaCheck(d);
      if check.Some? {
        return Rejected(check.value);
      }
      var num := d.orderNumber.value;
      if NumberIn(orders, num) {
        return Rejected(DuplicateKey(num));
      }
      var o := Materialize(d, nextId, now);
      AppendKeepsNumbersUnique(orders, o);
      orders := orders + [o];
      nextId := nextId + 1;
      r := Saved(o);
    }

    /** `Order.findByIdAndUpdate(id, { orderStatus }, { new: true })`: only
        the status of the addressed order changes (and its `updatedAt`). */
    method UpdateStatus(id: nat, status: OrderStatus, now: int) returns (r: Option<Order>)
      requires Valid()
      modifies this
      ensures Valid() && nextId == old(nextId)
      ensures IndexOfId(old(orders), id).None? ==> r.None? && orders == old(orders)
      ensures IndexOfId(old(orders), id).Some? ==>
                var i := IndexOfId(old(orders), id).value;
                && orders == old(orders)[i := old(orders)[i].(orderStatus := status, updatedAt := now)]
                && r == Some(orders[i])
    {
      var idx := IndexOfId(orders, id);
      if idx.None? {
        return None;
      }
      var i := idx.value;
      var o := orders[i].(orderStatus := status, updatedAt := now);
      orders := orders[i := o];
      r := Some(o);
    }

    /** `order.orderNumber = num; await order.save()` on a stored order:
        the whole document is re-validated, then checked against the
        unique index, then written with a new `updatedAt`. */
    method SaveOrderNumber(id: nat, num: string, now: int) returns (r: SaveResult)
      requires Valid()
      modifies this
      ensures Valid() && nextId == old(nextId)
      ensures IndexOfId(old(orders), id).None? ==> r == Rejected(DocumentNotFound) && orders == old(orders)
      ensures IndexOfId(old(orders), id).Some? ==>
                var i := IndexOfId(old(orders), id).value;
                var o := old(orders)[i].(orderNumber := Some(num), updatedAt := now);
                if SchemaCheck(DraftOf(o)).Some? then
                  r == Rejected(SchemaCheck(DraftOf(o)).value) && orders == old(orders)
                else if exists j :: 0 <= j < |old(orders)| && j != i && old(orders)[j].orderNumber == Some(num) then
                  r == Rejected(DuplicateKey(num)) && orders == old(orders)
                else
                  r == Saved(o) && orders == old(orders)[i := o]
    {
      var idx := IndexOfId(orders, id);
      if idx.None? {
        return Rejected(DocumentNotFound);
      }
      var i := idx.value;
      var o := orders[i].(orderNumber := Some(num), updatedAt := now);
      var check := SchemaCheck(DraftOf(o));
      if check.Some? {
        return Rejected(check.value);
      }
      if exists j :: 0 <= j < |orders| && j != i && orders[j].orderNumber == Some(num) {
        return Rejected(DuplicateKey(num));
      }
      RenumberKeepsNumbersUnique(orders, i, o);
      orders := orders[i := o];
      r := Saved(o);
    }
  }
}
