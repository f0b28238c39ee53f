/**
 * The orders document after decoding, and the lists that the suite's path
 * queries return from it.
 *
 * A member of a JSON object is Absent (no such key), Null (the key holds
 * `null`) or Present. For a path that starts with the wildcard `$[*]`, the
 * query skips a value that lacks the next key or is not an object, and keeps
 * an explicit `null` in the list it returns.
 */
module OrderDocument {

  import opened Wrappers

  datatype Field<+T> = Absent | Null | Present(value: T)

  datatype Customer = Customer(email: Field<string>)

  /** One entry of an order's `items` list; an entry that is not a JSON object is NonObjectItem. */
  datatype Item =
    | Item(price: Field<real>, quantity: Field<real>)
    | NonObjectItem

  /** One value selected by `$[*]`; a value that is not a JSON object is NonObjectOrder. */
  datatype Order =
    | Order(id: Field<string>, status: Field<string>, customer: Field<Customer>,
            items: Field<seq<Item>>, total: Field<real>)
    | NonObjectOrder

  /**
   * The top level of the document: an array of orders, an object whose member
   * values stand where the orders would, or a scalar.
   */
  datatype Document =
    | ArrayRoot(orders: seq<Order>)
    | ObjectRoot(members: seq<Order>)
    | ScalarRoot

  /** What `$[*]` selects: the elements of an array, the member values of an object, nothing from a scalar. */
  function Selected(doc: Document): seq<Order>
  {
    match doc
    case ArrayRoot(orders) => orders
    case ObjectRoot(members) => members
    case ScalarRoot => []
  }

  /** A property step applied to one value: a missing key gives nothing, `null` gives None. */
  function FieldValues<T>(f: Field<T>): seq<Option<T>>
  {
    match f
    case Absent => []
    case Null => [None]
    case Present(v) => [Some(v)]
  }

  /** A wildcard step followed by more steps: the results for each value, concatenated in order. */
  function Gather<T, U>(xs: seq<T>, f: T -> seq<U>): seq<U>
  {
    if xs == [] then [] else f(xs[0]) + Gather(xs[1..], f)
  }

  /** A value is gathered exactly when `f` gives it for some value of `xs`. */
  lemma {:induction false} GatherMember<T, U>(xs: seq<T>, f: T -> seq<U>, y: U)
    ensures y in Gather(xs, f) <==> exists x | x in xs :: y in f(x)
  {
    if xs != [] {
      GatherMember(xs[1..], f, y);
      assert Gather(xs, f) == f(xs[0]) + Gather(xs[1..], f);
      assert forall x | x in xs :: x == xs[0] || x in xs[1..];
      assert forall x | x in xs[1..] :: x in xs;
    }
  }

  /** Every gathered value satisfies `ok` exactly when, for every value, every result of `f` on it does. */
  lemma {:induction false} GatherAll<T, U>(xs: seq<T>, f: T -> seq<U>, ok: U -> bool)
    ensures (forall y | y in Gather(xs, f) :: ok(y))
        <==> (forall x | x in xs :: forall y | y in f(x) :: ok(y))
  {
    if xs != [] {
      GatherAll(xs[1..], f, ok);
      assert Gather(xs, f) == f(xs[0]) + Gather(xs[1..], f);
      assert forall x | x in xs :: x == xs[0] || x in xs[1..];
    }
  }

  /** A property step yields nothing for a missing key, `null` for a null member, and the value otherwise. */
  lemma FieldValuesAll<T>(f: Field<T>, ok: Option<T> -> bool)
    ensures (forall y | y in FieldValues(f) :: ok(y)) <==> match f
      case Absent => true
      case Null => ok(None)
      case Present(v) => ok(Some(v))
  {
    if f.Present? {
      assert FieldValues(f) == [Some(f.value)];
    }
  }

  function IdOf(o: Order): seq<Option<string>> {
    if o.Order? then FieldValues(o.id) else []
  }

  function StatusOf(o: Order): seq<Option<string>> {
    if o.Order? then FieldValues(o.status) else []
  }

  function EmailOf(o: Order): seq<Option<string>> {
    if o.Order? && o.customer.Present? then FieldValues(o.customer.value.email) else []
  }

  function PriceOfItem(it: Item): seq<Option<real>> {
    if it.Item? then FieldValues(it.price) else []
  }

  function PricesOf(o: Order): seq<Option<real>> {
    if o.Order? && o.items.Present? then Gather(o.items.value, PriceOfItem) else []
  }

  /** `$[*].id` */
  function Ids(doc: Document): seq<Option<string>> {
    Gather(Selected(doc), IdOf)
  }

  /** `$[*].status` */
  function Statuses(doc: Document): seq<Option<string>> {
    Gather(Selected(doc), StatusOf)
  }

  /** `$[*].customer.email` */
  function Emails(doc: Document): seq<Option<string>> {
    Gather(Selected(doc), EmailOf)
  }

  /** `$[*].items[*].price` */
  function Prices(doc: Document): seq<Option<real>> {
    Gather(Selected(doc), PricesOf)
  }

  /** What a property step yields for one member, stated on the member itself. */
  ghost predicate Yields<T>(f: Field<T>, y: Option<T>) {
    (f.Null? && y == None) || (f.Present? && y == Some(f.value))
  }

  lemma FieldValuesMember<T>(f: Field<T>, y: Option<T>)
    ensures y in FieldValues(f) <==> Yields(f, y)
  {
  }

  /** `$[*].id` holds `y` exactly when some selected order has an id member yielding `y`. */
  lemma IdsMembers(doc: Document, y: Option<string>)
    ensures y in Ids(doc) <==> exists o | o in Selected(doc) :: o.Order? && Yields(o.id, y)
  {
    GatherMember(Selected(doc), IdOf, y);
    forall o | o in Selected(doc) && o.Order? {
      FieldValuesMember(o.id, y);
    }
  }

  /** `$[*].status` holds `y` exactly when some selected order has a status member yielding `y`. */
  lemma StatusesMembers(doc: Document, y: Option<string>)
    ensures y in Statuses(doc) <==> exists o | o in Selected(doc) :: o.Order? && Yields(o.status, y)
  {
    GatherMember(Selected(doc), StatusOf, y);
    forall o | o in Selected(doc) && o.Order? {
      FieldValuesMember(o.status, y);
    }
  }

  /** `$[*].customer.email` holds `y` exactly when some selected order has a customer whose email yields `y`. */
  lemma EmailsMembers(doc: Document, y: Option<string>)
    ensures y in Emails(doc) <==> exists o | o in Selected(doc) ::
      o.Order? && o.customer.Present? && Yields(o.customer.value.email, y)
  {
    GatherMember(Selected(doc), EmailOf, y);
    forall o | o in Selected(doc) && o.Order? && o.customer.Present? {
      FieldValuesMember(o.customer.value.email, y);
    }
  }

  /** `$[*].items[*].price` holds `y` exactly when some item object of some selected order has a price yielding `y`. */
  lemma PricesMembers(doc: Document, y: Option<real>)
    ensures y in Prices(doc) <==> exists o | o in Selected(doc) ::
      o.Order? && o.items.Present? && exists it | it in o.items.value :: it.Item? && Yields(it.price, y)
  {
    GatherMember(Selected(doc), PricesOf, y);
    forall o | o in Selected(doc) && o.Order? && o.items.Present?
      ensures y in PricesOf(o) <==> exists it | it in o.items.value :: it.Item? && Yields(it.price, y)
    {
      GatherMember(o.items.value, PriceOfItem, y);
      forall it | it in o.items.value && it.Item? {
        FieldValuesMember(it.price, y);
      }
    }
  }
}
