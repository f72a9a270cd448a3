/** The one-off re-seeding of the order-number counter (setCounter.js): the
    counter is set to the value of the highest stored order number, so that
    the next `getNextSequence` continues after it.  "Highest" is the
    database's descending sort on the `orderNumber` string. */
module SetCounter {
  import opened Wrappers
  import opened Text
  import opened Counter
  import opened OrderModel
  import OrderController

  /** Order `o` has no number, or one not above `top` in string order. */
  predicate NotAbove(o: Order, top: string)
  {
    o.orderNumber.Some? ==> !StrLess(top, o.orderNumber.value)
  }

  /** The `orderNumber` of `findOne().sort({ orderNumber: -1 })`: the
      greatest number in string order, `None` when no order has one (orders
      without the field sort after every string). */
  function TopNumber(orders: seq<Order>): (r: Option<string>)
    ensures r.None? <==> forall i :: 0 <= i < |orders| ==> orders[i].orderNumber.None?
    ensures r.Some? ==> NumberIn(orders, r.value)
    ensures r.Some? ==> forall i :: 0 <= i < |orders| ==> NotAbove(orders[i], r.value)
  {
    if orders == [] then None
    else
      var tail := orders[1..];
      var rest := TopNumber(tail);
      assert forall i :: 1 <= i < |orders| ==> orders[i] == tail[i - 1];
      match orders[0].orderNumber
      case None => rest
      case Some(n) =>
        if rest.None? || StrLess(rest.value, n) then
          StrLessIrreflexive(n);
          NewTopNotBelow(tail, rest, n);
          Some(n)
        else
          rest
  }

  lemma NewTopNotBelow(tail: seq<Order>, rest: Option<string>, n: string)
    requires rest.None? ==> forall i :: 0 <= i < |tail| ==> tail[i].orderNumber.None?
    requires rest.Some? ==> StrLess(rest.value, n) && forall i :: 0 <= i < |tail| ==> NotAbove(tail[i], rest.value)
    ensures forall i :: 0 <= i < |tail| ==> NotAbove(tail[i], n)
  {
    forall i | 0 <= i < |tail| && tail[i].orderNumber.Some?
      ensures !StrLess(n, tail[i].orderNumber.value)
    {
      assert NotAbove(tail[i], rest.value);
      StrLessNotBelow(rest.value, n, tail[i].orderNumber.value);
    }
  }

  /** The sequence the script writes, `None` when `parseInt` gives NaN (the
      database refuses to cast it and the script logs the error). */
  function ReseedValue(orders: seq<Order>): Option<nat>
  {
    match TopNumber(orders)
    case None => Some(0)
    case Some(n) => if n == "" then Some(0) else ParseInt(n)
  }

  /** `setCounter`: both paths upsert, so the counter record exists
      afterwards unless the cast failed. */
  method SetCounter(store: OrderStore, counters: CounterStore) returns (r: Option<nat>)
    modifies counters
    ensures r == ReseedValue(store.orders)
    ensures r.Some? ==> counters.sequences == old(counters.sequences)[OrderController.ORDER_SERIES := r.value]
    ensures r.None? ==> counters.sequences == old(counters.sequences)
  {
    var last := TopNumber(store.orders);
    if last.None? || last.value == "" {
      counters.Upsert(OrderController.ORDER_SERIES, 0);
      return Some(0);
    }
    r := ParseInt(last.value);
    if r.Some? {
      counters.Upsert(OrderController.ORDER_SERIES, r.value);
    }
  }

  /** The counter is set to 0 when no stored order has a number. */
  lemma ReseedWithoutNumbers(orders: seq<Order>)
    requires forall i :: 0 <= i < |orders| ==> orders[i].orderNumber.None?
    ensures ReseedValue(orders) == Some(0)
  {
  }

  // ---------------------------------------------------------------------
  // Six-digit numbers

  predicate SixDigits(s: string)
  {
    |s| == ORDER_NUMBER_WIDTH && AllDigits(s)
  }

  predicate SixDigitOrNone(o: Order)
  {
    o.orderNumber.Some? ==> SixDigits(o.orderNumber.value)
  }

  /** On six-digit strings, not being above in string order means not
      being above in value. */
  lemma SixDigitNotAbove(top: string, x: string)
    requires SixDigits(top) && SixDigits(x) && !StrLess(top, x)
    ensures DecimalValue(x) <= DecimalValue(top)
  {
    StrLessTotal(top, x);
    DigitOrderIsNumeric(x, top);
  }

  /** While every stored number has six digits, the re-seeded counter is
      the largest number's value, so the next allocation is above every
      stored number and collides with none. */
  lemma SixDigitReseedIsFresh(orders: seq<Order>)
    requires forall i :: 0 <= i < |orders| ==> SixDigitOrNone(orders[i])
    ensures ReseedValue(orders).Some?
    ensures forall i :: 0 <= i < |orders| ==> NumberValue(orders[i]) < ReseedValue(orders).value + 1
    ensures !NumberIn(orders, FormatOrderNumber(ReseedValue(orders).value + 1))
  {
    var top := TopNumber(orders);
    if top.Some? {
      var t := top.value;
      var k :| 0 <= k < |orders| && orders[k].orderNumber == Some(t);
      assert SixDigitOrNone(orders[k]);
      ParseIntOfDigits(t);
      forall i | 0 <= i < |orders| && orders[i].orderNumber.Some?
        ensures NumberValue(orders[i]) <= DecimalValue(t)
      {
        var x := orders[i].orderNumber.value;
        assert NotAbove(orders[i], t) && SixDigitOrNone(orders[i]);
        SixDigitNotAbove(t, x);
        ParseIntOfDigits(x);
      }
    }
    var v := ReseedValue(orders).value;
    NextNumberIsFresh(orders, v);
  }

  /** A number reading as `v + 1` is not held by orders whose numbers all
      read as at most `v`. */
  lemma NextNumberIsFresh(orders: seq<Order>, v: nat)
    requires forall i :: 0 <= i < |orders| ==> NumberValue(orders[i]) <= v
    ensures !NumberIn(orders, FormatOrderNumber(v + 1))
  {
    var next := FormatOrderNumber(v + 1);
    assert ParseInt(next) == Some(v + 1) by {
      FormatOrderNumberShape(v + 1);
    }
    forall i | 0 <= i < |orders|
      ensures orders[i].orderNumber != Some(next)
    {
      assert NumberValue(orders[i]) <= v;
    }
  }

  /** Once the millionth order is numbered "1000000", string order ranks
      it below "999999": the counter is re-seeded to 999999 and the next
      allocation repeats the stored "1000000". */
  lemma StringOrderCollides(a: Order, b: Order)
    requires a.orderNumber == Some("999999") && b.orderNumber == Some("1000000")
    ensures ReseedValue([a, b]) == Some(999999)
    ensures NumberIn([a, b], FormatOrderNumber(999999 + 1))
  {
    assert StrLess("1000000", "999999");
    var nine := "999999";
    assert AllDigits(nine);
    assert DecimalValue(nine) == 999999 by {
      assert "9"[..0] == "" && DecimalValue("9") == 9;
      assert "99"[..1] == "9" && DecimalValue("99") == 99;
      assert "999"[..2] == "99" && DecimalValue("999") == 999;
      assert "9999"[..3] == "999" && DecimalValue("9999") == 9999;
      assert "99999"[..4] == "9999" && DecimalValue("99999") == 99999;
      assert nine[..5] == "99999";
    }
    ParseIntOfDigits(nine);
    assert TopNumber([a, b]) == Some(nine) by {
      assert [a, b][1..] == [b];
      assert [b][1..] == [];
    }
    assert FormatOrderNumber(1000000) == "1000000" by {
      OneMillionDecimal();
    }
    assert [a, b][1].orderNumber == Some("1000000");
  }

  lemma OneMillionDecimal()
    ensures NatToDecimal(1000000) == "1000000"
  {
    assert NatToDecimal(1) == "1";
    assert NatToDecimal(10) == NatToDecimal(1) + "0";
    assert NatToDecimal(100) == NatToDecimal(10) + "0";
    assert NatToDecimal(1000) == NatToDecimal(100) + "0";
    assert NatToDecimal(10000) == NatToDecimal(1000) + "0";
    assert NatToDecimal(100000) == NatToDecimal(10000) + "0";
    assert NatToDecimal(1000000) == NatToDecimal(100000) + "0";
  }

  // ---------------------------------------------------------------------
  // Re-seeding from the numeric maximum

  /** The value `parseInt` reads from order `i`'s number, 0 when it has
      none or it does not start with a digit. */
  function NumberValue(o: Order): nat
  {
    if o.orderNumber.None? then 0
    else match ParseInt(o.orderNumber.value)
         case None => 0
         case Some(v) => v
  }

  /** The largest value of any stored number, 0 when there is none. */
  function NumericTop(orders: seq<Order>): (v: nat)
    ensures forall i :: 0 <= i < |orders| ==> NumberValue(orders[i]) <= v
  {
    if orders == [] then 0
    else
      var rest := NumericTop(orders[1..]);
      assert forall i :: 1 <= i < |orders| ==> orders[i] == orders[1..][i - 1];
      if NumberValue(orders[0]) > rest then NumberValue(orders[0]) else rest
  }

  /** Re-seeding from the numeric maximum instead of the string maximum. */
  method SetCounterNumeric(store: OrderStore, counters: CounterStore) returns (v: nat)
    modifies counters
    ensures v == NumericTop(store.orders)
    ensures counters.sequences == old(counters.sequences)[OrderController.ORDER_SERIES := v]
  {
    v := NumericTop(store.orders);
    counters.Upsert(OrderController.ORDER_SERIES, v);
  }

  /** After the numeric re-seed the next allocation never repeats a stored
      number, whatever their lengths. */
  lemma NumericReseedIsFresh(orders: seq<Order>)
    ensures !NumberIn(orders, FormatOrderNumber(NumericTop(orders) + 1))
  {
    NextNumberIsFresh(orders, NumericTop(orders));
  }

  /** While every stored number has six digits the two re-seeds agree. */
  lemma NumericAgreesOnSixDigits(orders: seq<Order>)
    requires forall i :: 0 <= i < |orders| ==> SixDigitOrNone(orders[i])
    ensures ReseedValue(orders) == Some(NumericTop(orders))
  {
    SixDigitReseedIsFresh(orders);
    var v := ReseedValue(orders).value;
    var top := TopNumber(orders);
    if top.Some? {
      var k :| 0 <= k < |orders| && orders[k].orderNumber == Some(top.value);
      assert SixDigitOrNone(orders[k]);
      ParseIntOfDigits(top.value);
      assert NumberValue(orders[k]) == v;
    }
    NumericTopIsMax(orders, v);
  }

  lemma {:induction false} NumericTopIsMax(orders: seq<Order>, v: nat)
    requires forall i :: 0 <= i < |orders| ==> NumberValue(orders[i]) <= v
    requires v == 0 || exists k :: 0 <= k < |orders| && NumberValue(orders[k]) == v
    ensures NumericTop(orders) == v
  {
    if orders != [] {
      var tail := orders[1..];
      assert forall i :: 1 <= i < |orders| ==> orders[i] == tail[i - 1];
      if v == 0 || NumberValue(orders[0]) == v {
        NumericTopAtMost(tail, v);
      } else {
        var k :| 0 <= k < |orders| && NumberValue(orders[k]) == v;
        assert tail[k - 1] == orders[k];
        NumericTopIsMax(tail, v);
      }
    }
  }

  lemma {:induction false} NumericTopAtMost(orders: seq<Order>, v: nat)
    requires forall i :: 0 <= i < |orders| ==> NumberValue(orders[i]) <= v
    ensures NumericTop(orders) <= v
  {
    if orders != [] {
      var tail := orders[1..];
      assert forall i :: 1 <= i < |orders| ==> orders[i] == tail[i - 1];
      NumericTopAtMost(tail, v);
    }
  }
}
