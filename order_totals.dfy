/**
 * testOrderTotalMatchesItems: for every order object whose `items` is a
 * list, the running sum of price × quantity over the item objects must equal
 * the declared `total` within 0.01. A missing price counts as 0, a missing
 * quantity as 1, a missing total as 0; the quantity is truncated to an
 * integer. A `null` price, quantity or total cannot be unboxed and ends the
 * test.
 */
module OrderTotals {

  import opened Wrappers
  import opened OrderDocument
  import opened OrderRules

  /** The `delta` passed to `assertEquals`. */
  const TOLERANCE: real := 0.01

  function Abs(x: real): (r: real)
    ensures r >= 0.0 && (r == x || r == -x)
  {
    if x < 0.0 then -x else x
  }

  /** `Number.intValue()` of a decimal: truncation toward zero. */
  function TruncToInt(x: real): (n: int)
    ensures x >= 0.0 ==> 0 <= n && n as real <= x < n as real + 1.0
    ensures x < 0.0 ==> n <= 0 && n as real - 1.0 < x <= n as real
  {
    if x >= 0.0 then x.Floor else -((-x).Floor)
  }

  /** The unit price read from an item: 0 when missing, None when `null`. */
  function UnitPrice(p: Field<real>): Option<real> {
    match p
    case Absent => Some(0.0)
    case Null => None
    case Present(x) => Some(x)
  }

  /** The quantity read from an item: 1 when missing, None when `null`. */
  function Quantity(q: Field<real>): Option<int> {
    match q
    case Absent => Some(1)
    case Null => None
    case Present(x) => Some(TruncToInt(x))
  }

  /**
   * One pass of the loop body on the running total: an entry that is not an
   * object is skipped; an item object adds price × quantity, or ends the
   * test (None) when either is `null`. A failed total stays failed.
   */
  function Step(acc: Option<real>, it: Item): Option<real> {
    if acc.None? then None
    else if it.NonObjectItem? then acc
    else
      var price, quantity := UnitPrice(it.price), Quantity(it.quantity);
      if price.None? || quantity.None? then None
      else Some(acc.value + price.value * quantity.value as real)
  }

  /** The loop's running total after the given items, in order (a left fold of Step from 0). */
  function ItemsTotal(items: seq<Item>): Option<real>
    decreases |items|
  {
    if items == [] then Some(0.0)
    else Step(ItemsTotal(items[..|items| - 1]), items[|items| - 1])
  }

  /** An item object whose price or quantity key holds `null`. */
  predicate HasNullNumber(it: Item) {
    it.Item? && (it.price.Null? || it.quantity.Null?)
  }

  /** What one item adds to the sum, with the defaults applied; non-objects add nothing. */
  function LineAmount(it: Item): real {
    match it
    case NonObjectItem => 0.0
    case Item(p, q) =>
      var price := if p.Present? then p.value else 0.0;
      var quantity := if q.Present? then TruncToInt(q.value) else 1;
      price * quantity as real
  }

  /** Σ price × quantity over the items, summed from the front: the reference the fold is measured against. */
  function LineSum(items: seq<Item>): real {
    if items == [] then 0.0 else LineAmount(items[0]) + LineSum(items[1..])
  }

  lemma {:induction false} LineSumAppend(items: seq<Item>, it: Item)
    ensures LineSum(items + [it]) == LineSum(items) + LineAmount(it)
  {
    if items != [] {
      assert (items + [it])[1..] == items[1..] + [it];
      LineSumAppend(items[1..], it);
    }
  }

  /** One step adds the item's line amount, unless the item holds a `null` number. */
  lemma StepMeaning(x: real, it: Item)
    ensures Step(Some(x), it) == if HasNullNumber(it) then None else Some(x + LineAmount(it))
  {
    if !HasNullNumber(it) {
      var r := Step(Some(x), it);
      assert r.Some? && r.value == x + LineAmount(it);
    }
  }

  /**
   * The fold fails exactly when some item object holds a `null` number, and
   * otherwise equals the reference sum.
   */
  lemma {:induction false} ItemsTotalMeaning(items: seq<Item>)
    ensures ItemsTotal(items).None? <==> exists k | 0 <= k < |items| :: HasNullNumber(items[k])
    ensures ItemsTotal(items).Some? ==> ItemsTotal(items).value == LineSum(items)
    decreases |items|
  {
    if items != [] {
      var init, last := items[..|items| - 1], items[|items| - 1];
      assert items == init + [last];
      ItemsTotalMeaning(init);
      assert ItemsTotal(items) == Step(ItemsTotal(init), last);
      if ItemsTotal(init).Some? {
        StepMeaning(ItemsTotal(init).value, last);
        LineSumAppend(init, last);
      }
      assert (exists k | 0 <= k < |items| :: HasNullNumber(items[k]))
         <==> (exists k | 0 <= k < |init| :: HasNullNumber(init[k])) || HasNullNumber(last);
    }
  }

  /** Once the running total has failed on a prefix, it fails on the whole list. */
  lemma {:induction false} ItemsTotalNoneExtends(items: seq<Item>, i: nat)
    requires i <= |items| && ItemsTotal(items[..i]).None?
    ensures ItemsTotal(items).None?
    decreases |items| - i
  {
    if i < |items| {
      assert items[..i + 1][..i] == items[..i];
      ItemsTotalNoneExtends(items, i + 1);
    } else {
      assert items[..i] == items;
    }
  }

  /** Lines 77-86: the accumulator `calcTotal` over the items, or None where unboxing a `null` throws. */
  method SumItems(items: seq<Item>) returns (calcTotal: Option<real>)
    ensures calcTotal == ItemsTotal(items)
  {
    var acc := 0.0;
    var i := 0;
    while i < |items|
      invariant 0 <= i <= |items|
      invariant ItemsTotal(items[..i]) == Some(acc)
    {
      assert items[..i + 1][..i] == items[..i];
      assert ItemsTotal(items[..i + 1]) == Step(Some(acc), items[i]);
      var item := items[i];
      if item.Item? {
        var price := UnitPrice(item.price);
        var quantity := Quantity(item.quantity);
        if price.None? || quantity.None? {
          ItemsTotalNoneExtends(items, i + 1);
          return None;
        }
        acc := acc + price.value * quantity.value as real;
        assert ItemsTotal(items[..i + 1]).value == acc;
      }
      i := i + 1;
    }
    assert items[..i] == items;
    return Some(acc);
  }

  /** The declared total: 0 when missing, None when `null`. */
  function DeclaredTotal(t: Field<real>): Option<real> {
    match t
    case Absent => Some(0.0)
    case Null => None
    case Present(x) => Some(x)
  }

  /** The assertion the test makes about one value of the order list, if it makes one. */
  function OrderTotalCheck(o: Order): Option<Failure> {
    if !o.Order? || !o.items.Present? then None
    else match (ItemsTotal(o.items.value), DeclaredTotal(o.total))
      case (Some(computed), Some(declared)) =>
        if Abs(computed - declared) <= TOLERANCE then None
        else Some(TotalMismatch(o.id, computed, declared))
      case _ => Some(NullNumber)
  }

  /** An order whose items, if it has an items list, add up to its declared total within the tolerance. */
  predicate OrderTotalAcceptable(o: Order) {
    o.Order? && o.items.Present? ==>
      && (forall it | it in o.items.value :: !HasNullNumber(it))
      && !o.total.Null?
      && Abs(LineSum(o.items.value) - (if o.total.Present? then o.total.value else 0.0)) <= TOLERANCE
  }

  /**
   * One order passes exactly when it is skipped (not an object, or no items
   * list) or its items' reference sum matches its declared total (0 when
   * missing) within 0.01, with no `null` number on the way.
   */
  lemma OrderTotalCheckMeaning(o: Order)
    ensures OrderTotalCheck(o).None? <==> OrderTotalAcceptable(o)
    ensures OrderTotalCheck(o).Some? && OrderTotalCheck(o).value.TotalMismatch? ==>
      OrderTotalCheck(o).value.orderId == o.id
  {
    if o.Order? && o.items.Present? {
      var items := o.items.value;
      ItemsTotalMeaning(items);
      assert (exists k | 0 <= k < |items| :: HasNullNumber(items[k]))
         <==> !(forall it | it in items :: !HasNullNumber(it));
    }
  }

  /**
   * The test as intended: a document whose top level is not an array fails
   * with "not an array"; otherwise the orders are checked in turn.
   */
  function TotalRule(doc: Document): (v: Verdict)
    ensures !doc.ArrayRoot? ==> v == Fail(NotAnArray)
    ensures v.Pass? <==> doc.ArrayRoot? && forall o | o in doc.orders :: OrderTotalCheck(o).None?
  {
    if doc.ArrayRoot? then RunChecks(doc.orders, OrderTotalCheck) else Fail(NotAnArray)
  }

  /** The intended test passes exactly when the document is an array whose every order passes its total check. */
  lemma TotalRuleOverOrders(doc: Document)
    ensures TotalRule(doc).Pass? <==> doc.ArrayRoot? && forall o | o in doc.orders :: OrderTotalAcceptable(o)
  {
    if doc.ArrayRoot? {
      forall o | o in doc.orders {
        OrderTotalCheckMeaning(o);
      }
    }
  }

  /**
   * The test as written: the wildcard query `$[*]` always returns a list,
   * so the `instanceof List` guard always holds and the values it selects
   * (an object's member values, or nothing for a scalar) are checked as if
   * they were orders.
   */
  function TotalRuleAsWritten(doc: Document): (v: Verdict)
    ensures v != Fail(NotAnArray)
  {
    RunChecks(Selected(doc), OrderTotalCheck)
  }

  /**
   * The two agree on array documents; on any other document whose selected
   * values pass, the written test passes where the intended one fails, e.g.
   * a scalar document, or an object whose members carry no items list.
   */
  lemma TotalRuleAsWrittenMissesNonArrays(doc: Document)
    ensures doc.ArrayRoot? ==> TotalRuleAsWritten(doc) == TotalRule(doc)
    ensures !doc.ArrayRoot? && (forall o | o in Selected(doc) :: OrderTotalAcceptable(o)) ==>
      TotalRuleAsWritten(doc) == Pass && TotalRule(doc) == Fail(NotAnArray)
  {
    forall o | o in Selected(doc) {
      OrderTotalCheckMeaning(o);
    }
  }

  /** Lines 66-95 with the top-level guard as intended: stops at the first order whose check fails. */
  method CheckTotals(doc: Document) returns (v: Verdict)
    ensures v == TotalRule(doc)
  {
    if !doc.ArrayRoot? {
      return Fail(NotAnArray);
    }
    var orders := doc.orders;
    var k := 0;
    while k < |orders|
      invariant 0 <= k <= |orders|
      invariant forall j | 0 <= j < k :: OrderTotalCheck(orders[j]).None?
    {
      var o := orders[k];
      if o.Order? && o.items.Present? {
        var calcTotal := SumItems(o.items.value);
        var actualTotal := DeclaredTotal(o.total);
        if calcTotal.None? || actualTotal.None? {
          FirstFailingIs(orders, OrderTotalCheck, k);
          return Fail(NullNumber);
        }
        if Abs(calcTotal.value - actualTotal.value) > TOLERANCE {
          FirstFailingIs(orders, OrderTotalCheck, k);
          return Fail(TotalMismatch(o.id, calcTotal.value, actualTotal.value));
        }
      }
      k := k + 1;
    }
    return Pass;
  }
}
