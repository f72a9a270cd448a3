/** The one-off back-fill of order numbers (migrateOrders.js): every order
    stored without an `orderNumber` receives, oldest first, the numbers
    000001, 000002, ... in turn.  A failed save ends the run, leaving the
    orders numbered so far as they are. */
module MigrateOrders {
  import opened Wrappers
  import opened Text
  import opened Listing
  import opened OrderModel

  function CreatedAt(o: Order): int { o.createdAt }

  function IdOf(o: Order): int { o.id }

  /** `Order.find({ orderNumber: { $exists: false } })` in storage order. */
  function Unnumbered(orders: seq<Order>): (r: seq<Order>)
    ensures forall o :: o in r <==> o in orders && o.orderNumber.None?
  {
    if orders == [] then []
    else
      assert orders == [orders[0]] + orders[1..];
      (if orders[0].orderNumber.None? then [orders[0]] else []) + Unnumbered(orders[1..])
  }

  lemma {:induction false} UnnumberedIdsUnique(orders: seq<Order>)
    requires IdsUnique(orders)
    ensures DistinctBy(Unnumbered(orders), IdOf)
  {
    if orders != [] {
      var tail := orders[1..];
      UnnumberedIdsUnique(tail);
      var u := Unnumbered(tail);
      forall k | 0 <= k < |u|
        ensures u[k].id != orders[0].id
      {
        assert u[k] in tail;
        var m :| 0 <= m < |tail| && tail[m] == u[k];
        assert tail[m] == orders[m + 1];
      }
    }
  }

  /** The orders the migration numbers, sorted by `createdAt` ascending. */
  function Selection(orders: seq<Order>): (r: seq<Order>)
    ensures SortedBy(r, CreatedAt)
    ensures forall o :: o in r <==> o in orders && o.orderNumber.None?
  {
    var u := Unnumbered(orders);
    var r := SortBy(u, CreatedAt);
    assert forall o :: o in r <==> o in multiset(u);
    r
  }

  lemma SelectionIdsUnique(orders: seq<Order>)
    requires IdsUnique(orders)
    ensures IdsUnique(Selection(orders))
  {
    UnnumberedIdsUnique(orders);
    SortByDistinct(Unnumbered(orders), CreatedAt, IdOf);
    var sel := Selection(orders);
    assert forall i, j :: 0 <= i < j < |sel| ==> IdOf(sel[i]) != IdOf(sel[j]);
  }

  /** The number each of the first `|sel|` selected orders receives, keyed
      by `_id`: the `k`-th (0-based) gets `(k + 1)` padded to six digits. */
  function Assignment(sel: seq<Order>): (a: map<nat, string>)
    ensures forall k :: 0 <= k < |sel| ==> sel[k].id in a
    ensures forall id :: id in a ==> exists k :: 0 <= k < |sel| && sel[k].id == id
  {
    if sel == [] then map[]
    else
      var init := sel[..|sel| - 1];
      assert forall k :: 0 <= k < |init| ==> init[k] == sel[k];
      Assignment(init)[sel[|sel| - 1].id := FormatOrderNumber(|sel|)]
  }

  lemma {:induction false} AssignmentAt(sel: seq<Order>, k: nat)
    requires IdsUnique(sel) && k < |sel|
    ensures Assignment(sel)[sel[k].id] == FormatOrderNumber(k + 1)
  {
    var init := sel[..|sel| - 1];
    if k < |sel| - 1 {
      assert init[k] == sel[k];
      AssignmentAt(init, k);
    }
  }

  /** The stored orders after the numbers in `a` are written, each written
      order also taking the save time as `updatedAt`. */
  function Renumber(orders: seq<Order>, a: map<nat, string>, now: int): (r: seq<Order>)
    ensures |r| == |orders|
    ensures forall i :: 0 <= i < |orders| ==>
              r[i] == if orders[i].id in a
                      then orders[i].(orderNumber := Some(a[orders[i].id]), updatedAt := now)
                      else orders[i]
  {
    seq(|orders|, i requires 0 <= i < |orders| =>
      if orders[i].id in a then orders[i].(orderNumber := Some(a[orders[i].id]), updatedAt := now)
      else orders[i])
  }

  /** In a collection with unique ids, the index of an id is where it is. */
  lemma IndexOfUniqueId(orders: seq<Order>, j: nat)
    requires IdsUnique(orders) && j < |orders|
    ensures IndexOfId(orders, orders[j].id) == Some(j)
  {
  }

  /** Writing one more number to a not yet renumbered order. */
  lemma RenumberStep(orders: seq<Order>, a: map<nat, string>, j: nat, num: string, now: int)
    requires IdsUnique(orders) && j < |orders| && orders[j].id !in a
    ensures Renumber(orders, a, now)[j := orders[j].(orderNumber := Some(num), updatedAt := now)]
            == Renumber(orders, a[orders[j].id := num], now)
  {
  }

  /** Where the `i`-th selected order sits, and that the run has not yet
      written it. */
  lemma SelectedPosition(orig: seq<Order>, sel: seq<Order>, i: nat, now: int) returns (j: nat)
    requires IdsUnique(orig) && sel == Selection(orig) && i < |sel|
    ensures j < |orig| && orig[j] == sel[i]
    ensures orig[j].id !in Assignment(sel[..i])
    ensures Renumber(orig, Assignment(sel[..i]), now)[j] == orig[j]
    ensures IndexOfId(Renumber(orig, Assignment(sel[..i]), now), sel[i].id) == Some(j)
  {
    SelectionIdsUnique(orig);
    assert sel[i] in orig;
    j :| 0 <= j < |orig| && orig[j] == sel[i];
    var a := Assignment(sel[..i]);
    NotYetAssigned(sel, i);
    var cur := Renumber(orig, a, now);
    assert forall p :: 0 <= p < |cur| ==> cur[p].id == orig[p].id;
    IndexOfUniqueId(cur, j);
  }

  /** The `i`-th selected order is not among the first `i`. */
  lemma NotYetAssigned(sel: seq<Order>, i: nat)
    requires IdsUnique(sel) && i < |sel|
    ensures sel[i].id !in Assignment(sel[..i])
  {
    var a := Assignment(sel[..i]);
    forall x | x in a
      ensures x != sel[i].id
    {
      var k :| 0 <= k < |sel[..i]| && sel[..i][k].id == x;
      assert sel[..i][k] == sel[k];
    }
  }

  lemma NextAssignment(sel: seq<Order>, i: nat)
    requires i < |sel|
    ensures Assignment(sel[..i + 1]) == Assignment(sel[..i])[sel[i].id := FormatOrderNumber(i + 1)]
  {
    assert sel[..i + 1][..i] == sel[..i];
  }

  /** What `SaveOrderNumber` refuses: an unknown id, a document the schema
      rejects, or a number another order already holds. */
  predicate RenumberRejected(orders: seq<Order>, id: nat, num: string, now: int)
  {
    match IndexOfId(orders, id)
    case None => true
    case Some(j) =>
      var o := orders[j].(orderNumber := Some(num), updatedAt := now);
      || SchemaCheck(DraftOf(o)).Some?
      || exists k :: 0 <= k < |orders| && k != j && orders[k].orderNumber == Some(num)
  }

  /** One iteration of the loop: number the `i`-th selected order, or
      report that the store refused it and nothing changed. */
  method NumberSelected(store: OrderStore, ghost orig: seq<Order>, sel: seq<Order>, i: nat, now: int)
    returns (ok: bool)
    requires store.Valid() && IdsUnique(orig) && sel == Selection(orig) && i < |sel|
    requires store.orders == Renumber(orig, Assignment(sel[..i]), now)
    modifies store
    ensures store.Valid() && store.nextId == old(store.nextId)
    ensures ok ==> store.orders == Renumber(orig, Assignment(sel[..i + 1]), now)
    ensures !ok ==> store.orders == old(store.orders) &&
                    RenumberRejected(store.orders, sel[i].id, FormatOrderNumber(i + 1), now)
  {
    var num := FormatOrderNumber(i + 1);
    ghost var a := Assignment(sel[..i]);
    ghost var j := SelectedPosition(orig, sel, i, now);
    var r := store.SaveOrderNumber(sel[i].id, num, now);
    if r.Rejected? {
      return false;
    }
    RenumberStep(orig, a, j, num, now);
    NextAssignment(sel, i);
    ok := true;
  }

  /** `migrateOrders`.  `migrated` orders were numbered; `failed` says
      the run stopped at the save of the next one, which the store
      refused. */
  method MigrateOrders(store: OrderStore, now: int) returns (migrated: nat, failed: bool)
    requires store.Valid()
    modifies store
    ensures store.Valid() && store.nextId == old(store.nextId)
    ensures var sel := Selection(old(store.orders));
            && migrated <= |sel|
            && (failed <==> migrated < |sel|)
            && store.orders == Renumber(old(store.orders), Assignment(sel[..migrated]), now)
            && (failed ==> RenumberRejected(store.orders, sel[migrated].id, FormatOrderNumber(migrated + 1), now))
  {
    ghost var orig := store.orders;
    var sel := Selection(store.orders);
    assert store.orders == Renumber(orig, Assignment(sel[..0]), now);
    var i := 0;
    while i < |sel|
      invariant 0 <= i <= |sel|
      invariant store.Valid() && store.nextId == old(store.nextId)
      invariant store.orders == Renumber(orig, Assignment(sel[..i]), now)
    {
      var ok := NumberSelected(store, orig, sel, i, now);
      if !ok {
        return i, true;
      }
      i := i + 1;
    }
    assert sel[..i] == sel;
    return i, false;
  }

  // ---------------------------------------------------------------------
  // What one run assigns

  /** The numbers handed out to the first `m` selected orders are pairwise
      distinct and are exactly `000001` .. the `m`-th, in selection order. */
  lemma AssignedNumbers(orders: seq<Order>, m: nat)
    requires IdsUnique(orders) && m <= |Selection(orders)|
    ensures var sel := Selection(orders)[..m];
            var a := Assignment(sel);
            && (forall k :: 0 <= k < m ==> a[sel[k].id] == FormatOrderNumber(k + 1))
            && (forall x, y :: x in a && y in a && x != y ==> a[x] != a[y])
            && a.Values == set k | 1 <= k <= m :: FormatOrderNumber(k)
  {
    SelectionIdsUnique(orders);
    var sel := Selection(orders)[..m];
    assert IdsUnique(sel);
    AssignmentInOrder(sel);
    AssignmentDistinct(sel);
    AssignmentValues(sel);
  }

  lemma AssignmentInOrder(sel: seq<Order>)
    requires IdsUnique(sel)
    ensures forall k :: 0 <= k < |sel| ==> Assignment(sel)[sel[k].id] == FormatOrderNumber(k + 1)
  {
    forall k | 0 <= k < |sel|
      ensures Assignment(sel)[sel[k].id] == FormatOrderNumber(k + 1)
    {
      AssignmentAt(sel, k);
    }
  }

  lemma AssignmentDistinct(sel: seq<Order>)
    requires IdsUnique(sel)
    ensures var a := Assignment(sel);
            forall x, y :: x in a && y in a && x != y ==> a[x] != a[y]
  {
    var a := Assignment(sel);
    forall x, y | x in a && y in a && x != y
      ensures a[x] != a[y]
    {
      var kx :| 0 <= kx < |sel| && sel[kx].id == x;
      var ky :| 0 <= ky < |sel| && sel[ky].id == y;
      AssignmentAt(sel, kx);
      AssignmentAt(sel, ky);
      FormatOrderNumberInjective(kx + 1, ky + 1);
    }
  }

  lemma AssignmentValues(sel: seq<Order>)
    requires IdsUnique(sel)
    ensures Assignment(sel).Values == set k | 1 <= k <= |sel| :: FormatOrderNumber(k)
  {
    AssignmentValuesFrom(sel);
    AssignmentValuesCover(sel);
  }

  lemma AssignmentValuesFrom(sel: seq<Order>)
    requires IdsUnique(sel)
    ensures forall v :: v in Assignment(sel).Values ==> exists k :: 1 <= k <= |sel| && v == FormatOrderNumber(k)
  {
    var a := Assignment(sel);
    forall v | v in a.Values
      ensures exists k :: 1 <= k <= |sel| && v == FormatOrderNumber(k)
    {
      var x :| x in a && a[x] == v;
      var kx :| 0 <= kx < |sel| && sel[kx].id == x;
      AssignmentAt(sel, kx);
    }
  }

  lemma AssignmentValuesCover(sel: seq<Order>)
    requires IdsUnique(sel)
    ensures forall k :: 1 <= k <= |sel| ==> FormatOrderNumber(k) in Assignment(sel).Values
  {
    var a := Assignment(sel);
    forall k | 1 <= k <= |sel|
      ensures FormatOrderNumber(k) in a.Values
    {
      AssignmentAt(sel, k - 1);
      assert sel[k - 1].id in a;
    }
  }

  /** Orders that already had a number are left exactly as they were, and
      only orders without one are written. */
  lemma NumberedOrdersUntouched(orders: seq<Order>, m: nat, now: int)
    requires IdsUnique(orders) && m <= |Selection(orders)|
    ensures var r := Renumber(orders, Assignment(Selection(orders)[..m]), now);
            forall i :: 0 <= i < |orders| && orders[i].orderNumber.Some? ==> r[i] == orders[i]
  {
    var sel := Selection(orders)[..m];
    var a := Assignment(sel);
    forall x | x in a
      ensures exists j :: 0 <= j < |orders| && orders[j].id == x && orders[j].orderNumber.None?
    {
      var k :| 0 <= k < |sel| && sel[k].id == x;
      assert sel[k] in Selection(orders);
      var j :| 0 <= j < |orders| && orders[j] == sel[k];
    }
  }

  /** A complete run numbers every order that had none. */
  lemma CompleteRunNumbersAll(orders: seq<Order>, now: int)
    ensures var sel := Selection(orders);
            var r := Renumber(orders, Assignment(sel), now);
            forall i :: 0 <= i < |orders| ==> r[i].orderNumber.Some?
  {
    var sel := Selection(orders);
    forall i | 0 <= i < |orders| && orders[i].orderNumber.None?
      ensures orders[i].id in Assignment(sel)
    {
      assert orders[i] in sel;
      var k :| 0 <= k < |sel| && sel[k] == orders[i];
    }
  }
}
