# Order document validation, modelled in Dafny

The repository is one JUnit suite, `OrderValidationTest`. It loads `orders.json` once and runs five
independent tests over it:

- **ids**: every order id is non-null and not blank after `String.trim()`;
- **statuses**: every status is exactly `PAID`, `PENDING` or `CANCELLED`;
- **e-mails**: every non-null customer e-mail matches `^[A-Za-z0-9._%+-]+@[A-Za-z0-9.-]+\.[A-Za-z]{2,}$`;
- **prices**: every item price is non-null and strictly positive;
- **totals**: for every order whose `items` is a list, Σ price × quantity equals the declared total
  within 0.01. A missing price counts as 0, a missing quantity as 1 and a missing total as 0.
  The quantity is truncated to an `int`, and entries that are not objects are skipped.

The model takes the document as already decoded (`OrderDocument`). A JSON member is a
`Field<T>`: `Absent` (no such key), `Null` or `Present(v)`. An order or item that is not a JSON
object has a constructor of its own. The four path queries become accessor functions
(`Ids`, `Statuses`, `Emails`, `Prices`) with the wildcard-path behaviour the tests rely on:

- a value lacking the key is skipped;
- a value that is not an object is skipped;
- an explicit `null` is kept.

Each test is a loop of assertions that stops at the first failing one. It is modelled by
`OrderRules.RunChecks`: the verdict is `Pass`, or `Fail` with the failure of the first element that
fails. Each rule has two statements: a contract over the list its query returns, and a lemma over
the orders themselves. The totals test keeps its loops. `OrderTotals.SumItems` and
`OrderTotals.CheckTotals` are methods with invariants. They are proved against the left fold
`ItemsTotal`, which in turn is proved equal to an independent front-to-back sum `LineSum`.
`OrderValidation.SuitePassesIff` ties the five tests together, with the totals test as intended
(see "## Findings"): the suite passes exactly when the document is an array whose every order
satisfies every rule. `OrderValidation.SuiteAsWrittenPassesIff` states the same for the totals test
as written: the suite then passes exactly when every value `$[*]` selects satisfies every rule,
whatever the top level is. The member values of a top-level object are visited in document order,
which the sequence `ObjectRoot(members)` keeps.

Files: `wrappers.dfy` (Option), `java_string.dfy` (Java `trim`), `email_pattern.dfy` (the e-mail
recogniser), `order_document.dfy` (data and queries), `order_rules.dfy` (ids, statuses, e-mails,
prices), `order_totals.dfy` (totals), `order_validation.dfy` (the suite and worked examples).

In three places the code is more lenient than the test names suggest; the model follows the code:

- An item without a `price` key is skipped by the price query, so it does not fail the price
  test. Only an explicit `null` price fails it.
- An order without an `id` or `status` key is likewise skipped by those tests.
- Each test stops at its first failing element rather than reporting every violation.

## Model

| member | source | states |
|---|---|---|
| `JavaString.LeadingBlanks` | src/test/java/com/example/tests/OrderValidationTest.java:31 | the index where `trim` starts: every character before it is at most U+0020, and the character there (if any) is not |
| `JavaString.TrailingBlanks` | src/test/java/com/example/tests/OrderValidationTest.java:31 | the length of the blank suffix: every character in it is at most U+0020, and the one before it (if any) is not |
| `JavaString.Trim` | src/test/java/com/example/tests/OrderValidationTest.java:31 | `trim()` returns the slice of the input left after removing a blank prefix and a blank suffix; the slice neither starts nor ends with a blank character |
| `JavaString.TrimEmptyIffBlank` | src/test/java/com/example/tests/OrderValidationTest.java:31 | `id.trim().isEmpty()` holds exactly when every character of the id is at most U+0020 |
| `JavaString.TrimIdempotent` | src/test/java/com/example/tests/OrderValidationTest.java:31 | trimming a trimmed string changes nothing |
| `EmailPattern.FirstIndexOf` | src/test/java/com/example/tests/OrderValidationTest.java:47 | returns the first position holding the character, or None exactly when it does not occur |
| `EmailPattern.LastIndexOf` | src/test/java/com/example/tests/OrderValidationTest.java:47 | returns the last position holding the character, or None exactly when it does not occur |
| `EmailPattern.IsValidEmail` | src/test/java/com/example/tests/OrderValidationTest.java:47-50 | an accepted string contains an `@` and a `.` |
| `EmailPattern.IsValidEmailCorrect` | src/test/java/com/example/tests/OrderValidationTest.java:47-50 | the recogniser accepts exactly the strings matching the pattern as a whole: a non-empty local part, `@`, a non-empty domain, `.`, then at least two ASCII letters to the end |
| `EmailPattern.MatchHasExactlyOneAt` | src/test/java/com/example/tests/OrderValidationTest.java:47 | a matching string contains exactly one `@` |
| `EmailPattern.MatchTopLevelDomainFollowsLastDot` | src/test/java/com/example/tests/OrderValidationTest.java:47 | in a matching string, the text after the last `.` is at least two ASCII letters, and that dot lies after the `@` with at least one character between them |
| `EmailPattern.PatternAcceptsDoubledDot` | src/test/java/com/example/tests/OrderValidationTest.java:47 | the pattern accepts `a@b..com`, which an address grammar would reject |
| `EmailPattern.PatternAcceptsHyphenDomain` | src/test/java/com/example/tests/OrderValidationTest.java:47 | the pattern accepts `a@-.io`, whose domain is a lone hyphen |
| `EmailPattern.PatternRejectsMissingAt` | src/test/java/com/example/tests/OrderValidationTest.java:47-50 | `not-an-email` is rejected |
| `EmailPattern.PatternRejectsShortTopLevelDomain` | src/test/java/com/example/tests/OrderValidationTest.java:47-50 | `a@b.c` is rejected: the top-level domain needs two letters |
| `OrderDocument.GatherMember` | src/test/java/com/example/tests/OrderValidationTest.java:57 | a wildcard path followed by more steps returns a value exactly when the remaining steps return it for some selected value |
| `OrderDocument.GatherAll` | src/test/java/com/example/tests/OrderValidationTest.java:57 | every value a wildcard path gathers satisfies a predicate exactly when, for every selected value, every result of the remaining steps does |
| `OrderDocument.FieldValuesAll` | src/test/java/com/example/tests/OrderValidationTest.java:28 | a predicate holds of all of a member's results exactly when the member is missing or the predicate holds of its null or its value |
| `OrderDocument.FieldValuesMember` | src/test/java/com/example/tests/OrderValidationTest.java:28 | a property step returns `null` exactly for a null member and the value exactly for a present one; a missing key returns nothing |
| `OrderDocument.IdsMembers` | src/test/java/com/example/tests/OrderValidationTest.java:28 | `$[*].id` (the query `Ids`) returns a value exactly when some selected order object has an `id` member that is null or holds that string |
| `OrderDocument.StatusesMembers` | src/test/java/com/example/tests/OrderValidationTest.java:37 | `$[*].status` (the query `Statuses`) returns a value exactly when some selected order object has a `status` member that is null or holds that string |
| `OrderDocument.EmailsMembers` | src/test/java/com/example/tests/OrderValidationTest.java:46 | `$[*].customer.email` (the query `Emails`) returns a value exactly when some selected order object has a customer object whose `email` member is null or holds it |
| `OrderDocument.PricesMembers` | src/test/java/com/example/tests/OrderValidationTest.java:57 | `$[*].items[*].price` (the query `Prices`) returns a value exactly when some item object in the `items` list of some selected order has a `price` member that is null or holds it |
| `OrderRules.FirstFailing` | src/test/java/com/example/tests/OrderValidationTest.java:29-32 | returns None exactly when every check passes; otherwise returns the position of a failing element before which every check passes |
| `OrderRules.FirstFailingIs` | src/test/java/com/example/tests/OrderValidationTest.java:29-32 | when all checks before position k pass and the one at k fails, the scan stops at k and reports k's failure |
| `OrderRules.RunChecks` | src/test/java/com/example/tests/OrderValidationTest.java:38-41 | a loop of assertions passes exactly when every element passes; otherwise it fails with the failure of the first failing element |
| `OrderRules.IdCheck` | src/test/java/com/example/tests/OrderValidationTest.java:30-31 | an id passes exactly when it is non-null and not blank; a null id fails with the "is null" failure and a blank one with the "is empty" failure |
| `OrderRules.IdRule` | src/test/java/com/example/tests/OrderValidationTest.java:27-33 | the test passes exactly when every id the query returns is non-null and not blank; a failure is "null" or "empty" |
| `OrderRules.IdRuleOverOrders` | src/test/java/com/example/tests/OrderValidationTest.java:28-32 | the id test passes exactly when every selected order object has no id, or an id that is neither null nor blank |
| `OrderRules.StatusCheck` | src/test/java/com/example/tests/OrderValidationTest.java:39-40 | a status passes exactly when it is one of PAID, PENDING or CANCELLED; a null status fails with the null failure; any other status outside the three fails naming that status |
| `OrderRules.StatusRule` | src/test/java/com/example/tests/OrderValidationTest.java:36-42 | the test passes exactly when every status returned is one of the three; a failure is a null status or names a status outside the three |
| `OrderRules.StatusIsCaseSensitive` | src/test/java/com/example/tests/OrderValidationTest.java:40 | `SHIPPED` and `paid` fail, naming the status; `PAID` passes |
| `OrderRules.StatusRuleOverOrders` | src/test/java/com/example/tests/OrderValidationTest.java:37-41 | the status test passes exactly when every selected order object has no status or an allowed one |
| `OrderRules.EmailCheck` | src/test/java/com/example/tests/OrderValidationTest.java:49-51 | a null e-mail passes; any other passes exactly when it matches the pattern, and otherwise fails naming the address |
| `OrderRules.EmailRule` | src/test/java/com/example/tests/OrderValidationTest.java:45-53 | the test passes exactly when every non-null e-mail returned matches; a failure names an address that does not match |
| `OrderRules.EmailRuleOverOrders` | src/test/java/com/example/tests/OrderValidationTest.java:46-51 | the e-mail test passes exactly when every e-mail present in a customer object matches; a missing or null customer or e-mail never fails it |
| `OrderRules.PriceCheck` | src/test/java/com/example/tests/OrderValidationTest.java:59-60 | a price passes exactly when it is non-null and greater than 0; a null price fails with the "is null" failure, and any other price at most 0 fails naming that price |
| `OrderRules.PriceRule` | src/test/java/com/example/tests/OrderValidationTest.java:56-62 | the test passes exactly when every price returned is non-null and positive; a failure is the null-price failure or names a price that is at most 0 |
| `OrderRules.PriceRuleOverItems` | src/test/java/com/example/tests/OrderValidationTest.java:57-61 | the price test passes exactly when, for every order whose items is a list, every item object has no price or a positive one |
| `OrderTotals.TruncToInt` | src/test/java/com/example/tests/OrderValidationTest.java:83 | `intValue()` of a decimal truncates toward zero: the result lies within 1 of the input, on the zero side |
| `OrderTotals.StepMeaning` | src/test/java/com/example/tests/OrderValidationTest.java:80-85 | one pass of the loop body (`Step`, with `UnitPrice` and `Quantity` for lines 82-83) adds the item's price × quantity with the defaults applied; a non-object adds nothing; a null price or quantity ends the sum |
| `OrderTotals.LineSumAppend` | src/test/java/com/example/tests/OrderValidationTest.java:84 | adding an item at the end adds its line amount to the reference sum |
| `OrderTotals.ItemsTotalMeaning` | src/test/java/com/example/tests/OrderValidationTest.java:77-86 | the running total (the left fold `ItemsTotal` of `Step`) fails exactly when some item object holds a null price or quantity, and otherwise equals Σ price × quantity (missing price 0, missing quantity 1, non-objects skipped) |
| `OrderTotals.ItemsTotalNoneExtends` | src/test/java/com/example/tests/OrderValidationTest.java:82-83 | once unboxing a null has ended the sum on a prefix, it ends the sum over the whole list |
| `OrderTotals.SumItems` | src/test/java/com/example/tests/OrderValidationTest.java:77-86 | the loop's accumulator equals the left fold over all items, or is None where a null number throws |
| `OrderTotals.OrderTotalCheckMeaning` | src/test/java/com/example/tests/OrderValidationTest.java:71-90 | one order's check (`OrderTotalCheck`, with `DeclaredTotal` for line 88) passes exactly when it is skipped, or it has no null number and its reference sum is within 0.01 of its declared total (0 when missing); a mismatch names the order's id |
| `OrderTotals.TotalRule` | src/test/java/com/example/tests/OrderValidationTest.java:66-95 | a non-array document fails as "not an array"; otherwise the test passes exactly when every order passes its total check |
| `OrderTotals.TotalRuleOverOrders` | src/test/java/com/example/tests/OrderValidationTest.java:66-95 | the intended test passes exactly when the document is an array and every order is skipped or balances within 0.01 with no null number |
| `OrderTotals.TotalRuleAsWritten` | src/test/java/com/example/tests/OrderValidationTest.java:66-68 | as written, the test never fails with "not an array" |
| `OrderTotals.TotalRuleAsWrittenMissesNonArrays` | src/test/java/com/example/tests/OrderValidationTest.java:66-95 | the written and intended tests agree on arrays; on a non-array whose selected values all pass, the written test passes where the intended one fails |
| `OrderTotals.CheckTotals` | src/test/java/com/example/tests/OrderValidationTest.java:65-96 | the loop over orders computes the intended verdict: stop at the first null number or mismatch, fail a non-array |
| `OrderValidation.RunSuite` | src/test/java/com/example/tests/OrderValidationTest.java:26-96 | five verdicts, one per test, with the totals test as intended (see "## Findings"); the totals test passes only on an array document |
| `OrderValidation.RunSuiteAsWritten` | src/test/java/com/example/tests/OrderValidationTest.java:26-96 | the five verdicts with the totals test as written: the first four are those of `RunSuite`, and on an array document all five agree |
| `OrderValidation.ValueRulesPassIff` | src/test/java/com/example/tests/OrderValidationTest.java:26-62 | the id, status, e-mail and price tests all pass exactly when every selected value satisfies the four rules |
| `OrderValidation.SuitePassesIff` | src/test/java/com/example/tests/OrderValidationTest.java:26-96 | with the totals test as intended, all five tests pass exactly when the document is an array whose every order satisfies the id, status, e-mail, price and total rules |
| `OrderValidation.SuiteAsWrittenPassesIff` | src/test/java/com/example/tests/OrderValidationTest.java:26-96 | with the totals test as written, all five tests pass exactly when every value `$[*]` selects satisfies the five rules, whatever the top level of the document is |
| `OrderValidation.SampleOrderValid` | src/test/java/com/example/tests/OrderValidationTest.java:26-96 | order A1 (PAID, a@b.com, two items at 10.0, total 20.0) satisfies every rule |
| `OrderValidation.WellFormedOrderPasses` | src/test/java/com/example/tests/OrderValidationTest.java:26-96 | a document holding only that order passes all five tests |
| `OrderValidation.ShippedStatusFails` | src/test/java/com/example/tests/OrderValidationTest.java:38-40 | status SHIPPED fails the status test, naming SHIPPED |
| `OrderValidation.MalformedEmailFails` | src/test/java/com/example/tests/OrderValidationTest.java:48-50 | e-mail `not-an-email` fails the e-mail test, naming it |
| `OrderValidation.NegativePriceFails` | src/test/java/com/example/tests/OrderValidationTest.java:58-60 | price -5.0 fails the price test, naming -5.0 |
| `OrderValidation.TotalMismatchNamesOrder` | src/test/java/com/example/tests/OrderValidationTest.java:88-89 | items summing to 20.0 against a declared 25.0 fail the totals test with a mismatch naming order A1 |
| `OrderValidation.TopLevelObjectSlipsThrough` | src/test/java/com/example/tests/OrderValidationTest.java:66-68 | a top-level object passes the written totals test and fails the intended one |

## Left out

- Loading `orders.json` in `setup` (lines 20-24) and parsing the JSON text: the document is given already decoded. A load or parse failure is not modelled.
- The JsonPath engine: the accessors model only what the four queries rely on. These are: a missing key after a wildcard is skipped, `null` is kept, and a non-object is skipped.
- Member values of the wrong JSON type are not representable. Examples: an `items` or `customer` that is a string or number, or an `items` that is an object, whose member values a wildcard would iterate.
- The `ClassCastException` paths are not modelled:
  - an id, status or e-mail that is not a string;
  - a price, quantity or total that is not a number;
  - an integer-literal price, which the JSON provider returns as an `Integer` and which the `Double` loop variable at line 58 cannot hold.
- Java's regular-expression engine: replaced by a recogniser for this one pattern only.
- IEEE-754 doubles: prices, quantities and totals are exact reals, so rounding in `calcTotal` is not modelled, nor are NaN and infinities.
- OrderTotals.TruncToInt: does not model the saturation of a decimal beyond the 32-bit range, nor the wrap-around of a large integer literal in `intValue()`.
- JUnit's reporting: a failure is a `Failure` value carrying what the message prints, not the message text.

## Findings

| source | as written | input that shows it | evidently intended | confidence | as-written member | corrected member |
|---|---|---|---|---|---|---|
| src/test/java/com/example/tests/OrderValidationTest.java:66-68 | `JsonPath.read(json, "$[*]")` is a wildcard (indefinite) path, and such a query always returns a list. So `rawOrders instanceof List` always holds and the `fail("Orders JSON is not an array …")` branch at lines 93-94 cannot run. A top-level object has its member values checked as orders, and a scalar yields an empty list. | `{"order": {"id": "A1"}}`: one member value with no items list, so the totals test passes | a document whose top level is not an array fails the totals test | medium: not executed; it rests on the JSON path library returning a list for every wildcard query | `OrderTotals.TotalRuleAsWritten` (shown by `OrderValidation.TopLevelObjectSlipsThrough`) | `OrderTotals.TotalRule` (implemented by `OrderTotals.CheckTotals`) |
