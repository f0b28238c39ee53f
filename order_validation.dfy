/**
 * The suite as a whole: five independent tests over one immutable document.
 * The suite passes exactly when the document is an array of orders each of
 * which satisfies every rule.
 */
module OrderValidation {

  import opened Wrappers
  import opened EmailPattern
  import opened OrderDocument
  import opened OrderRules
  import opened OrderTotals

  /** Every rule, stated over one order. */
  ghost predicate OrderValid(o: Order) {
    && IdAcceptable(o)
    && StatusAcceptable(o)
    && EmailAcceptable(o)
    && PricesAcceptable(o)
    && OrderTotalAcceptable(o)
  }

  /** The document the suite accepts. */
  ghost predicate DocumentValid(doc: Document) {
    doc.ArrayRoot? && forall o | o in doc.orders :: OrderValid(o)
  }

  /** The verdicts of the five tests, in the order the class declares them. */
  function RunSuite(doc: Document): (vs: seq<Verdict>)
    ensures |vs| == 5
    ensures vs[4].Pass? ==> doc.ArrayRoot?
  {
    [IdRule(doc), StatusRule(doc), EmailRule(doc), PriceRule(doc), TotalRule(doc)]
  }

  /** The four per-value tests pass exactly when every selected value satisfies their rules. */
  lemma ValueRulesPassIff(doc: Document)
    ensures (IdRule(doc).Pass? && StatusRule(doc).Pass? && EmailRule(doc).Pass? && PriceRule(doc).Pass?)
        <==> forall o | o in Selected(doc) ::
               IdAcceptable(o) && StatusAcceptable(o) && EmailAcceptable(o) && PricesAcceptable(o)
  {
    IdRuleOverOrders(doc);
    StatusRuleOverOrders(doc);
    EmailRuleOverOrders(doc);
    PriceRuleOverItems(doc);
  }

  /** All five tests pass exactly when the document is an array of valid orders. */
  lemma SuitePassesIff(doc: Document)
    ensures (forall v | v in RunSuite(doc) :: v.Pass?) <==> DocumentValid(doc)
  {
    ValueRulesPassIff(doc);
    TotalRuleOverOrders(doc);
    var vs := RunSuite(doc);
    assert (forall v | v in vs :: v.Pass?)
      <==> vs[0].Pass? && vs[1].Pass? && vs[2].Pass? && vs[3].Pass? && vs[4].Pass?;
  }

  /** The five verdicts with the totals test as written (lines 66-68): its top-level guard never fails. */
  function RunSuiteAsWritten(doc: Document): (vs: seq<Verdict>)
    ensures |vs| == 5 && vs[..4] == RunSuite(doc)[..4]
    ensures doc.ArrayRoot? ==> vs == RunSuite(doc)
  {
    [IdRule(doc), StatusRule(doc), EmailRule(doc), PriceRule(doc), TotalRuleAsWritten(doc)]
  }

  /** As written, all five tests pass exactly when every value `$[*]` selects is a valid order, whatever the top level is. */
  lemma SuiteAsWrittenPassesIff(doc: Document)
    ensures (forall v | v in RunSuiteAsWritten(doc) :: v.Pass?) <==> forall o | o in Selected(doc) :: OrderValid(o)
  {
    ValueRulesPassIff(doc);
    forall o | o in Selected(doc) {
      OrderTotalCheckMeaning(o);
    }
    var vs := RunSuiteAsWritten(doc);
    assert (forall v | v in vs :: v.Pass?)
      <==> vs[0].Pass? && vs[1].Pass? && vs[2].Pass? && vs[3].Pass? && vs[4].Pass?;
  }

  /** One paid order for two items at 10.0 with total 20.0. */
  function SampleOrder(status: string, email: string, price: real, total: real): Order {
    Order(Present("A1"), Present(status), Present(Customer(Present(email))),
          Present([Item(Present(price), Present(2.0))]), Present(total))
  }

  lemma SampleOrderValid()
    ensures OrderValid(SampleOrder("PAID", "a@b.com", 10.0, 20.0))
  {
    var o := SampleOrder("PAID", "a@b.com", 10.0, 20.0);
    assert IdAcceptable(o) by {
      assert o.id == Present("A1");
      assert !JavaString.IsTrimmed("A1"[0]);
    }
    assert StatusAcceptable(o) by {
      assert o.status == Present("PAID");
    }
    assert EmailAcceptable(o) by {
      assert o.customer.value.email == Present("a@b.com");
      assert EmailShape("a@b.com", 1, 3);
    }
    var items := o.items.value;
    assert items == [Item(Present(10.0), Present(2.0))];
    assert PricesAcceptable(o);
    assert OrderTotalAcceptable(o) by {
      assert o.total == Present(20.0);
      assert LineSum(items) == 20.0 by {
        assert LineSum(items[1..]) == 0.0;
      }
    }
  }

  /** A well-formed single-order document passes every test. */
  lemma WellFormedOrderPasses()
    ensures forall v | v in RunSuite(ArrayRoot([SampleOrder("PAID", "a@b.com", 10.0, 20.0)])) :: v.Pass?
  {
    var o := SampleOrder("PAID", "a@b.com", 10.0, 20.0);
    SampleOrderValid();
    assert DocumentValid(ArrayRoot([o]));
    SuitePassesIff(ArrayRoot([o]));
  }

  /** An unknown status fails the status test and names the status. */
  lemma ShippedStatusFails()
    ensures StatusRule(ArrayRoot([SampleOrder("SHIPPED", "a@b.com", 10.0, 20.0)])) == Fail(InvalidStatus("SHIPPED"))
  {
    var doc := ArrayRoot([SampleOrder("SHIPPED", "a@b.com", 10.0, 20.0)]);
    assert Statuses(doc) == [Some("SHIPPED")];
  }

  /** A negative price fails the price test and names the price. */
  lemma NegativePriceFails()
    ensures PriceRule(ArrayRoot([SampleOrder("PAID", "a@b.com", -5.0, -10.0)])) == Fail(InvalidPrice(-5.0))
  {
    var doc := ArrayRoot([SampleOrder("PAID", "a@b.com", -5.0, -10.0)]);
    assert Prices(doc) == [Some(-5.0)];
  }

  /** Items that add up to 20.0 against a declared 25.0 fail the total test for order A1. */
  lemma TotalMismatchNamesOrder()
    ensures TotalRule(ArrayRoot([SampleOrder("PAID", "a@b.com", 10.0, 25.0)])).Fail?
    ensures TotalRule(ArrayRoot([SampleOrder("PAID", "a@b.com", 10.0, 25.0)])).failure.TotalMismatch?
    ensures TotalRule(ArrayRoot([SampleOrder("PAID", "a@b.com", 10.0, 25.0)])).failure.orderId == Present("A1")
  {
    var o := SampleOrder("PAID", "a@b.com", 10.0, 25.0);
    OrderTotalCheckMeaning(o);
    assert LineSum(o.items.value) == 20.0 by {
      assert LineSum(o.items.value[1..]) == 0.0;
    }
  }

  /** A malformed e-mail fails the e-mail test and names the address. */
  lemma MalformedEmailFails()
    ensures EmailRule(ArrayRoot([SampleOrder("PAID", "not-an-email", 10.0, 20.0)])) == Fail(InvalidEmail("not-an-email"))
  {
    var doc := ArrayRoot([SampleOrder("PAID", "not-an-email", 10.0, 20.0)]);
    assert Emails(doc) == [Some("not-an-email")];
    PatternRejectsMissingAt();
  }

  /**
   * A top-level object, here `{"order": {"id": "A1"}}`: the written test
   * iterates its member values, finds no items list and passes; the intended
   * test rejects it as not an array.
   */
  lemma TopLevelObjectSlipsThrough()
    ensures TotalRuleAsWritten(ObjectRoot([Order(Present("A1"), Absent, Absent, Absent, Absent)])) == Pass
    ensures TotalRule(ObjectRoot([Order(Present("A1"), Absent, Absent, Absent, Absent)])) == Fail(NotAnArray)
  {
    TotalRuleAsWrittenMissesNonArrays(ObjectRoot([Order(Present("A1"), Absent, Absent, Absent, Absent)]));
  }
}
