/**
 * The four per-value rules of the suite: order ids, order statuses, customer
 * e-mails and item prices. Each test walks the list its query returns and
 * asserts on every element; the first failing assertion ends the test, so a
 * test passes exactly when no element fails and otherwise reports the first
 * element that does.
 */
module OrderRules {

  import opened Wrappers
  import opened JavaString
  import opened EmailPattern
  import opened OrderDocument

  /** The assertion that ended a test, with the value its message shows. */
  datatype Failure =
    | IdNull
    | IdEmpty
    | StatusNull
    | InvalidStatus(status: string)
    | InvalidEmail(email: string)
    | PriceNull
    | InvalidPrice(price: real)
    | NotAnArray
    | NullNumber
    | TotalMismatch(orderId: Field<string>, computed: real, declared: real)

  datatype Verdict = Pass | Fail(failure: Failure)

  /** The position of the first element whose check fails, if any. */
  function FirstFailing<T>(xs: seq<T>, check: T -> Option<Failure>): (r: Option<nat>)
    ensures r.None? <==> forall i | 0 <= i < |xs| :: check(xs[i]).None?
    ensures r.Some? ==> r.value < |xs| && check(xs[r.value]).Some?
    ensures r.Some? ==> forall j | 0 <= j < r.value :: check(xs[j]).None?
  {
    if xs == [] then None
    else if check(xs[0]).Some? then Some(0)
    else match FirstFailing(xs[1..], check)
      case None => None
      case Some(k) => Some(k + 1)
  }

  /** The scan reports position `k` when every check before `k` passes and the one at `k` fails. */
  lemma FirstFailingIs<T>(xs: seq<T>, check: T -> Option<Failure>, k: nat)
    requires k < |xs| && check(xs[k]).Some?
    requires forall j | 0 <= j < k :: check(xs[j]).None?
    ensures FirstFailing(xs, check) == Some(k)
    ensures RunChecks(xs, check) == Fail(check(xs[k]).value)
  {
    var r := FirstFailing(xs, check);
    assert r.Some?;
  }

  /**
   * A loop of assertions over `xs`: passes when every check passes, and
   * otherwise fails with the failure of the first element that fails.
   */
  function RunChecks<T>(xs: seq<T>, check: T -> Option<Failure>): (v: Verdict)
    ensures v.Pass? <==> forall x | x in xs :: check(x).None?
    ensures v.Fail? ==> exists i | 0 <= i < |xs| ::
      && check(xs[i]) == Some(v.failure)
      && forall j | 0 <= j < i :: check(xs[j]).None?
  {
    match FirstFailing(xs, check)
    case None => Pass
    case Some(i) => Fail(check(xs[i]).value)
  }

  /** `assertNotNull(id)` then `assertFalse(id.trim().isEmpty())`. */
  function IdCheck(id: Option<string>): (r: Option<Failure>)
    ensures r.None? <==> id.Some? && !IsBlank(id.value)
    ensures r == Some(IdNull) <==> id.None?
    ensures id.Some? && IsBlank(id.value) ==> r == Some(IdEmpty)
  {
    match id
    case None => Some(IdNull)
    case Some(s) =>
      TrimEmptyIffBlank(s);
      if Trim(s) == [] then Some(IdEmpty) else None
  }

  /** testOrderIdNotEmpty */
  function IdRule(doc: Document): (v: Verdict)
    ensures v.Pass? <==> forall id | id in Ids(doc) :: id.Some? && !IsBlank(id.value)
    ensures v.Fail? ==> v.failure == IdNull || v.failure == IdEmpty
  {
    RunChecks(Ids(doc), IdCheck)
  }

  /** An order's id as the id rule sees it: a missing id is never selected, `null` or a blank string fails. */
  predicate IdAcceptable(o: Order) {
    o.Order? ==> match o.id
      case Absent => true
      case Null => false
      case Present(s) => !IsBlank(s)
  }

  /** The id rule passes exactly when every selected order object has an acceptable id. */
  lemma IdRuleOverOrders(doc: Document)
    ensures IdRule(doc).Pass? <==> forall o | o in Selected(doc) :: IdAcceptable(o)
  {
    var ok := (id: Option<string>) => id.Some? && !IsBlank(id.value);
    GatherAll(Selected(doc), IdOf, ok);
    forall o | o in Selected(doc) && o.Order? {
      FieldValuesAll(o.id, ok);
    }
  }

  /** The statuses the suite accepts, compared case-sensitively. */
  predicate IsAllowedStatus(s: string) {
    s == "PAID" || s == "PENDING" || s == "CANCELLED"
  }

  /** `status.equals("PAID") || …`; a `null` status throws, which fails the test as well. */
  function StatusCheck(status: Option<string>): (r: Option<Failure>)
    ensures r.None? <==> status.Some? && IsAllowedStatus(status.value)
    ensures r == Some(StatusNull) <==> status.None?
    ensures r.Some? && r.value.InvalidStatus? ==> status == Some(r.value.status)
    ensures status.Some? && !IsAllowedStatus(status.value) ==> r == Some(InvalidStatus(status.value))
  {
    match status
    case None => Some(StatusNull)
    case Some(s) => if IsAllowedStatus(s) then None else Some(InvalidStatus(s))
  }

  /** testOrderStatusValid */
  function StatusRule(doc: Document): (v: Verdict)
    ensures v.Pass? <==> forall s | s in Statuses(doc) :: s.Some? && IsAllowedStatus(s.value)
    ensures v.Fail? ==> v.failure == StatusNull || (v.failure.InvalidStatus? && !IsAllowedStatus(v.failure.status))
  {
    RunChecks(Statuses(doc), StatusCheck)
  }

  /** Statuses are compared exactly: a lower-case or unknown status fails. */
  lemma StatusIsCaseSensitive()
    ensures StatusCheck(Some("SHIPPED")) == Some(InvalidStatus("SHIPPED"))
    ensures StatusCheck(Some("paid")) == Some(InvalidStatus("paid"))
    ensures StatusCheck(Some("PAID")) == None
  {
  }

  predicate StatusAcceptable(o: Order) {
    o.Order? ==> match o.status
      case Absent => true
      case Null => false
      case Present(s) => IsAllowedStatus(s)
  }

  /** The status rule passes exactly when every selected order object has a missing or allowed status. */
  lemma StatusRuleOverOrders(doc: Document)
    ensures StatusRule(doc).Pass? <==> forall o | o in Selected(doc) :: StatusAcceptable(o)
  {
    var ok := (s: Option<string>) => s.Some? && IsAllowedStatus(s.value);
    GatherAll(Selected(doc), StatusOf, ok);
    forall o | o in Selected(doc) && o.Order? {
      FieldValuesAll(o.status, ok);
    }
  }

  /** A `null` e-mail is skipped; any other must match the pattern. */
  function EmailCheck(email: Option<string>): (r: Option<Failure>)
    ensures r.None? <==> (email.Some? ==> MatchesEmailPattern(email.value))
    ensures r.Some? ==> r.value == InvalidEmail(email.value)
  {
    match email
    case None => None
    case Some(s) =>
      IsValidEmailCorrect(s);
      if IsValidEmail(s) then None else Some(InvalidEmail(s))
  }

  /** testCustomerEmailFormat */
  function EmailRule(doc: Document): (v: Verdict)
    ensures v.Pass? <==> forall e | e in Emails(doc) && e.Some? :: MatchesEmailPattern(e.value)
    ensures v.Fail? ==> v.failure.InvalidEmail? && !MatchesEmailPattern(v.failure.email)
  {
    RunChecks(Emails(doc), EmailCheck)
  }

  ghost predicate EmailAcceptable(o: Order) {
    (o.Order? && o.customer.Present? && o.customer.value.email.Present?)
      ==> MatchesEmailPattern(o.customer.value.email.value)
  }

  /**
   * The e-mail rule passes exactly when every e-mail present in a customer
   * object matches; a missing customer, a `null` customer or a `null` e-mail
   * never fails it.
   */
  lemma EmailRuleOverOrders(doc: Document)
    ensures EmailRule(doc).Pass? <==> forall o | o in Selected(doc) :: EmailAcceptable(o)
  {
    var ok := (e: Option<string>) => e.Some? ==> MatchesEmailPattern(e.value);
    GatherAll(Selected(doc), EmailOf, ok);
    forall o | o in Selected(doc) && o.Order? && o.customer.Present? {
      FieldValuesAll(o.customer.value.email, ok);
    }
  }

  /** `assertNotNull(price)` then `assertTrue(price > 0)`. */
  function PriceCheck(price: Option<real>): (r: Option<Failure>)
    ensures r.None? <==> price.Some? && price.value > 0.0
    ensures r == Some(PriceNull) <==> price.None?
    ensures price.Some? && price.value <= 0.0 ==> r == Some(InvalidPrice(price.value))
  {
    match price
    case None => Some(PriceNull)
    case Some(p) => if p > 0.0 then None else Some(InvalidPrice(p))
  }

  /** testItemPriceIsPositive */
  function PriceRule(doc: Document): (v: Verdict)
    ensures v.Pass? <==> forall p | p in Prices(doc) :: p.Some? && p.value > 0.0
    ensures v.Fail? ==> v.failure == PriceNull || (v.failure.InvalidPrice? && v.failure.price <= 0.0)
  {
    RunChecks(Prices(doc), PriceCheck)
  }

  predicate ItemPriceAcceptable(it: Item) {
    it.Item? ==> match it.price
      case Absent => true
      case Null => false
      case Present(p) => p > 0.0
  }

  predicate PricesAcceptable(o: Order) {
    o.Order? && o.items.Present? ==> forall it | it in o.items.value :: ItemPriceAcceptable(it)
  }

  /**
   * The price rule passes exactly when every item object, in every order
   * whose `items` is a list, has a missing or strictly positive price.
   */
  lemma PriceRuleOverItems(doc: Document)
    ensures PriceRule(doc).Pass? <==> forall o | o in Selected(doc) :: PricesAcceptable(o)
  {
    var ok := (p: Option<real>) => p.Some? && p.value > 0.0;
    GatherAll(Selected(doc), PricesOf, ok);
    forall o | o in Selected(doc)
      ensures (forall y | y in PricesOf(o) :: ok(y)) <==> PricesAcceptable(o)
    {
      if o.Order? && o.items.Present? {
        GatherAll(o.items.value, PriceOfItem, ok);
        forall it | it in o.items.value && it.Item? {
          FieldValuesAll(it.price, ok);
        }
      }
    }
  }
}
