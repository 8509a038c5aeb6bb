# Order admission: a Dafny model

This project models the order admission path of a multi-tenant delivery order service.
A customer submits an order. The service validates and prices it, assembles an order
with status `Placed`, stores it under the tenant's partition, and sends an
"order submitted" event to the manager review queue. The service also answers point
lookups and per-customer history queries.

The model is purely functional. The order store is a map keyed by (tenant id, order id).
The queue is the sequence of envelopes sent to it. Each HTTP handler is one atomic step
over this pair. Some inputs are not under the service's control: the minted order id,
the clock reading, and whether the database or the broker fails a call. These are
parameters of the handlers.

Modules, one per source component:

- `Wrappers`: `Option` stands for a C# reference that may be null. `Result` is a typed failure.
- `Text`: `string.IsNullOrWhiteSpace`, `char.IsWhiteSpace`, and case-insensitive comparison.
- `EnumNames`: the case-insensitive enum parse and the validating `OrderStatus` setter.
  It is written once over a list of member names and used by both order classes.
- `OrderModels`: the service's `OrderStatus` enum, `OrderItem`, the `Order` document with
  its status setter, and the request and response records.
- `DomainEntities`: the domain `OrderStatus` enum and the domain `Order` entity with its setter.
- `StatusAgreement`: the two enums agree name by name and value by value.
- `OrderValidator`: `Validate`, its rules in checking order, and `CalculateTotal`.
- `ManagerQueuePublisher`: the event body, the broker envelope, and the single send.
- `OrderRepository`: `EnsureCreatedAsync`, `CreateAsync`, `GetAsync` and `GetByCustomerAsync`.
- `OrderApi`: the POST admission handler, the GET lookup, and the by-customer page.

Key invariants that are proved:

- A queued event always names an order that is in the store. Admission persists
  before it publishes (`OrderApi.AdmissionKeepsEventsBacked`).
- Order ids are unique per tenant, never globally.
- The total does not depend on the order of the items.
- For letters-only values, the status setter stores only canonical member names. Re-assigning
  the stored value is a no-op. Numeric and comma-list values are outside the model; see "## Left out".

## Model

| member | source | states |
|---|---|---|
| `OrderModels.MembersAreClosed` | src/Services/OrderService/Models/OrderModels.cs:5-18 | every status is one of exactly eleven members, with underlying values 0 to 10 in declaration order (`Placed` is 0, `Cancelled` is 10) |
| `OrderModels.NamesAreWellFormed` | src/Services/OrderService/Models/OrderModels.cs:7-17 | the member names are letters only and pairwise distinct even ignoring case, so a case-insensitive parse is unambiguous |
| `OrderModels.SetStatus` | src/Services/OrderService/Models/OrderModels.cs:50-69 | only the status field can change; a throwing assignment changes nothing; it throws `BlankStatus` exactly for null or white-space values; a successful assignment stores the canonical name of a member that equals the value ignoring case |
| `OrderModels.SetStatusAcceptsAnyCasing` | src/Services/OrderService/Models/OrderModels.cs:60-67 | any casing of a member name is accepted and stored as that member's canonical name |
| `OrderModels.SetStatusRejectsUnknownNames` | src/Services/OrderService/Models/OrderModels.cs:60-64 | a letters-only value that matches no member in any casing throws `UnknownStatus` and leaves the order unchanged |
| `OrderModels.SetStatusAcceptsExactlyMembers` | src/Services/OrderService/Models/OrderModels.cs:55-67 | for letters-only values, an assignment succeeds if and only if the value is some member's name in some casing |
| `OrderModels.SetStatusIsIdempotent` | src/Services/OrderService/Models/OrderModels.cs:52-67 | assigning the getter's current value back leaves the order unchanged |
| `OrderModels.SetStatusNormalisesPlaced` | src/Services/OrderService/Models/OrderModels.cs:60-67 | "placed" and "PLACED" are both stored as "Placed" |
| `OrderModels.SetStatusRejectsShipped` | src/Services/OrderService/Models/OrderModels.cs:60-64 | "Shipped" throws `UnknownStatus` and the stored status is kept |
| `EnumNames.FindFrom` | src/Services/OrderService/Models/OrderModels.cs:60 | the index found is the first name at or after the start that equals the value ignoring case; no index means no such name |
| `EnumNames.Find` | src/Services/OrderService/Models/OrderModels.cs:60 | the index found names a member equal to the value ignoring case; no index means no member matches |
| `EnumNames.FindIsUnambiguous` | src/Services/OrderService/Models/OrderModels.cs:60 | with names distinct ignoring case, any casing of the i-th name is found at index i |
| `EnumNames.TryParse` | src/Services/OrderService/Models/OrderModels.cs:60 | a letters-only value parses to the member it equals ignoring case, or to no member exactly when none matches; other values are outside the model |
| `EnumNames.Assign` | src/Services/OrderService/Models/OrderModels.cs:53-68 | a throwing assignment keeps the stored value; blank values throw `BlankStatus`; unknown letters-only values throw `UnknownStatus`; for letters-only values, success stores a member name equal to the value ignoring case (numeric and comma-list values are outside the model) |
| `EnumNames.AssignAcceptsAnyCasing` | src/Services/OrderService/Models/OrderModels.cs:60-67 | any casing of the i-th name stores the i-th name and throws nothing |
| `EnumNames.AssignIsIdempotent` | src/Services/OrderService/Models/OrderModels.cs:52-67 | assigning the stored value (null or a member name) back keeps it |
| `DomainEntities.MembersAreClosed` | Domain/Entities/OrderStatus.cs:3-16 | the domain enum has exactly eleven members, with underlying values 0 to 10 in declaration order, starting with `Placed` = 0 |
| `DomainEntities.NamesAreWellFormed` | Domain/Entities/OrderStatus.cs:5-15 | the domain member names are letters only and pairwise distinct even ignoring case |
| `DomainEntities.SetStatus` | src/Domain/Entities/Order.cs:21-40 | only the status field can change; a throwing assignment changes nothing; it throws `BlankStatus` exactly for null or white-space values; success stores the canonical name of a domain member equal to the value ignoring case |
| `DomainEntities.SetStatusAcceptsAnyCasing` | src/Domain/Entities/Order.cs:31-38 | any casing of a domain member name is stored as the canonical name |
| `DomainEntities.SetStatusRejectsUnknownNames` | src/Domain/Entities/Order.cs:31-35 | a letters-only value matching no domain member in any casing throws and leaves the entity unchanged |
| `DomainEntities.SetStatusAcceptsExactlyMembers` | src/Domain/Entities/Order.cs:26-38 | for letters-only values, the accepted set is exactly the casings of the eleven domain member names |
| `DomainEntities.SetStatusIsIdempotent` | src/Domain/Entities/Order.cs:23-38 | re-assigning the stored value leaves the entity unchanged |
| `StatusAgreement.EnumsAgree` | Domain/Entities/OrderStatus.cs:5-15 | the domain enum lists the same names in the same order as the service enum, so members with equal underlying values have equal names |
| `OrderValidator.FirstBrokenFrom` | src/Services/OrderService/OrderValidator.cs:15-26 | reference definition: the position of the first rule, in checking order, that the request breaks; none exactly when all rules hold |
| `OrderValidator.AnyItem` | src/Services/OrderService/OrderValidator.cs:22-24 | the LINQ `Any` scan is true exactly when some item satisfies the predicate |
| `OrderValidator.Validate` | src/Services/OrderService/OrderValidator.cs:13-27 | the verdict is `ok` exactly when it carries no error message |
| `OrderValidator.ValidateReportsFirstBrokenRule` | src/Services/OrderService/OrderValidator.cs:15-26 | `Validate` returns `(true, null)` when no rule is broken, and otherwise `(false, message)` for the first broken rule in the order tenant, customer, address, cart, SKU, quantity, price |
| `OrderValidator.ValidateAcceptsExactlyCompliantRequests` | src/Services/OrderService/OrderValidator.cs:15-26 | a request is accepted if and only if it satisfies every rule |
| `OrderValidator.BlankIdentifiersRejected` | src/Services/OrderService/OrderValidator.cs:15-17 | a null or blank tenant id gives "TenantId is required."; with a tenant id present, a null or blank customer id gives "CustomerId is required." |
| `OrderValidator.OnlyNullAddressRejected` | src/Services/OrderService/OrderValidator.cs:19 | once the ids pass, "DeliveryAddress is required." is reported exactly for a null address; an empty or blank address passes |
| `OrderValidator.EmptyCartRejected` | src/Services/OrderService/OrderValidator.cs:21 | a null or empty item list gives "Cart is empty." once the earlier rules pass |
| `OrderValidator.SkuCheckedBeforeQuantityAndPrice` | src/Services/OrderService/OrderValidator.cs:22-24 | a blank SKU on any item is reported, whatever the quantities and prices of any items |
| `OrderValidator.QuantityCheckedBeforePrice` | src/Services/OrderService/OrderValidator.cs:23-24 | with all SKUs present, a quantity below 1 on any item is reported, whatever the prices |
| `OrderValidator.CalculateTotal` | src/Services/OrderService/OrderValidator.cs:29-30 | the total of items with quantity at least 1 and price at least 0 is at least 0; with `TotalIsOrderIndependent` it does not depend on item order, and with `ValidTotalIsNonNegative` every validated request has a non-negative total |
| `OrderValidator.SumAppend` | src/Services/OrderService/OrderValidator.cs:30 | the sum of two concatenated carts is the sum of their sums |
| `OrderValidator.SumWithout` | src/Services/OrderService/OrderValidator.cs:30 | removing one item lowers the sum by exactly that item's line amount |
| `OrderValidator.SumIsOrderIndependent` | src/Services/OrderService/OrderValidator.cs:30 | two carts with the same items, in any order, have the same sum |
| `OrderValidator.TotalIsOrderIndependent` | src/Services/OrderService/OrderValidator.cs:29-30 | permuting a request's items does not change `CalculateTotal` |
| `OrderValidator.SumOfValidItemsIsNonNegative` | src/Services/OrderService/OrderValidator.cs:23-30 | items with quantity at least 1 and price at least 0 sum to at least 0 |
| `OrderValidator.ValidTotalIsNonNegative` | src/Services/OrderService/OrderValidator.cs:23-30 | a request that passes `Validate` has a present item list and a total of at least 0 |
| `ManagerQueuePublisher.SplitDedupId` | src/Services/OrderService/ManagerQueuePublisher.cs:34 | the order part recovered from a deduplication key never contains a colon |
| `ManagerQueuePublisher.SplitInvertsDedupId` | src/Services/OrderService/ManagerQueuePublisher.cs:34 | for a colon-free order id, the key `tenantId:orderId` splits back into that tenant id and order id |
| `ManagerQueuePublisher.DedupIdInvertsSplit` | src/Services/OrderService/ManagerQueuePublisher.cs:34 | every key that splits is rebuilt exactly from its parts |
| `ManagerQueuePublisher.DedupIdIdentifiesOrder` | src/Services/OrderService/ManagerQueuePublisher.cs:34 | for colon-free order ids, two keys are equal if and only if both the tenant ids and the order ids are equal |
| `ManagerQueuePublisher.DedupIdAmbiguousForColonIds` | src/Services/OrderService/ManagerQueuePublisher.cs:34 | if order ids may contain colons, two different orders can share a key |
| `ManagerQueuePublisher.BuildEnvelope` | src/Services/OrderService/ManagerQueuePublisher.cs:30-40 | the envelope carries the message as its body, has JSON content type, subject "OrderSubmitted", correlation id equal to the order id and no session id; its message id is `tenantId:orderId` for every message, and for a colon-free order id it splits back into the message's tenant and order |
| `ManagerQueuePublisher.RepublishReusesDedupId` | src/Services/OrderService/ManagerQueuePublisher.cs:30-37 | publishing the same tenant and order again yields the same deduplication key |
| `ManagerQueuePublisher.PublishOrderSubmitted` | src/Services/OrderService/ManagerQueuePublisher.cs:28-43 | a call throws exactly when the send fails, and then the queue is unchanged; otherwise exactly one envelope is appended and the earlier queue is kept; the appended envelope is the one `BuildEnvelope` makes, so it carries the message, its dedup id, subject and content type |
| `OrderRepository.EnsureCreated` | src/Services/OrderService/CosmosOrderRepository.cs:31-44 | afterwards the store is initialised and holds exactly the documents it held before |
| `OrderRepository.EnsureCreatedIsIdempotent` | src/Services/OrderService/CosmosOrderRepository.cs:31-44 | calling it twice is the same as calling it once |
| `OrderRepository.Create` | src/Services/OrderService/CosmosOrderRepository.cs:48-65 | create succeeds exactly when the store is initialised, not failing, and the (tenant, order id) key is free; it then returns the order and adds exactly that entry; it fails with `DuplicateOrder` exactly when the key is taken and with `StoreUnavailable` exactly when an initialised store fails; every failure leaves the store unchanged; well-keyedness is kept |
| `OrderRepository.CreateAsWritten` | src/Services/OrderService/CosmosOrderRepository.cs:48-65 | as written: returns null exactly when the store is uninitialised or failing, throws the conflict message on a taken key, and otherwise inserts and returns the order, leaving the rest of the store (its handle included) as it was |
| `OrderRepository.CreateAsWrittenDiffersOnlyInNull` | src/Services/OrderService/CosmosOrderRepository.cs:53-64 | as written and corrected create change the store identically and agree on success and conflict; the null return corresponds to `NotInitialised` or `StoreUnavailable` |
| `OrderRepository.TenantsMayReuseOrderIds` | src/Services/OrderService/CosmosOrderRepository.cs:50-53 | the same order id under two tenants is created twice without conflict |
| `OrderRepository.SecondCreateConflicts` | src/Services/OrderService/CosmosOrderRepository.cs:53-58 | a second create under a taken key fails with `DuplicateOrder` and keeps the first order |
| `OrderRepository.Get` | src/Services/OrderService/CosmosOrderRepository.cs:67-82 | it fails with `NotInitialised` exactly before initialisation; a found order is a stored document; in a well-keyed store it has the requested tenant and id, never another tenant's, and absence is returned exactly when no stored order matches |
| `OrderRepository.CreatedOrderIsFound` | src/Services/OrderService/CosmosOrderRepository.cs:53-54 | after a successful create, a lookup by the order's tenant and id returns it |
| `OrderRepository.Insert` | src/Services/OrderService/CosmosOrderRepository.cs:90 | inserting into a newest-first list gives a newest-first list whose multiset is the old one plus the new order; duplicate-freedom is kept |
| `OrderRepository.SortNewestFirst` | src/Services/OrderService/CosmosOrderRepository.cs:90 | the result is newest first and is a permutation of the input (equal multisets), so nothing is dropped or doubled; duplicate-freedom is kept |
| `OrderRepository.PrefixHoldsNewest` | src/Services/OrderService/CosmosOrderRepository.cs:90-91 | what a prefix of a newest-first list cuts off is no newer than anything it keeps |
| `OrderRepository.NewestPage` | src/Services/OrderService/CosmosOrderRepository.cs:90-91 | `OrderByDescending(CreatedAt).Take(take)` keeps `min(take, found)` of the found orders, newest first; every order it drops is no newer than every order it keeps; duplicate-freedom is kept |
| `OrderRepository.GetByCustomer` | src/Services/OrderService/CosmosOrderRepository.cs:84-101 | it fails exactly before initialisation; otherwise it returns only stored orders of the requested tenant and customer, newest first, exactly `min(take, matches)` of them, and always the newest ones; in a well-keyed store there are no duplicates |
| `OrderApi.Draft` | src/Services/OrderService/Program.cs:55-72 | the assembled order has status "Placed", creation and update times equal to now, total equal to `CalculateTotal` and non-negative, the minted id, no rider, and the request's tenant, customer, address and items |
| `OrderApi.Admit` | src/Services/OrderService/Program.cs:45-92 | a failed validation is answered BadRequest with its reason, with no calls and no change; otherwise the first call creates the draft and a send only ever follows it; a second call happens exactly when create succeeds, and it is the send of the envelope built from the stored draft, whether or not the send then fails; a failed create answers `StoreFailed` with the create's error and changes nothing; stored orders are never changed; a successful create stores exactly the assembled draft under its (tenant, order id) key and nothing else; after a successful create the answer is `CreatedAt` exactly when the send succeeds and `PublishFailed` otherwise; on success exactly one envelope, built from the stored order, is queued, and the Location and response body come from the stored order; a failed send leaves the order stored and the queue unchanged |
| `OrderApi.Publish` | src/Services/OrderService/Program.cs:76-91 | after `CreateAsync` returns, the handler sends exactly the envelope built from the returned order and answers `CreatedAt` with its Location and body exactly when the send succeeds, else `PublishFailed` with the queue unchanged; the store is not touched |
| `OrderApi.AdmissionKeepsEventsBacked` | src/Services/OrderService/Program.cs:74-80 | if every queued event names a stored order before an admission, that still holds after it, and the store stays well keyed |
| `OrderApi.SameIdInTenantAdmittedOnce` | src/Services/OrderService/Program.cs:74-80 | two valid admissions with the same minted id in one tenant: the first succeeds, the second fails with `DuplicateOrder`, changes nothing and makes no send |
| `OrderApi.AdmitExample` | src/Services/OrderService/Program.cs:52-91 | tenant t1, customer c1, one item of quantity 2 at 5.00 is created with total 10.00, status "Placed", and exactly one queued event for the returned order id |
| `OrderApi.AdmitAsWritten` | src/Services/OrderService/Program.cs:74-80 | as written: the handler fails with a null dereference exactly when validation passes and the store is uninitialised or failing, and then it has changed nothing |
| `OrderApi.AdmitAsWrittenDiffersOnlyInNull` | src/Services/OrderService/Program.cs:75-79 | as written and corrected admission leave the same world and make the same calls; their responses differ only where the code as written dereferences null |
| `OrderApi.StoreFailureCrashesAsWritten` | src/Services/OrderService/Program.cs:75-79 | for a valid request and a failing database, the handler as written crashes with a null dereference, while the corrected one reports `StoreUnavailable` |
| `OrderApi.PageSize` | src/Services/OrderService/Program.cs:110 | the page size is always between 1 and 200; it is 25 when absent, the request when in range, and the nearest bound otherwise |
| `OrderApi.PageSizeIsIdempotent` | src/Services/OrderService/Program.cs:110 | clamping a clamped page size changes nothing |
| `OrderApi.GetOrder` | src/Services/OrderService/Program.cs:94-102 | it faults exactly before initialisation; a found order is a stored order; in a well-keyed store it has the requested tenant and id, and NotFound is returned exactly when no stored order matches |
| `OrderApi.OrdersByCustomer` | src/Services/OrderService/Program.cs:104-113 | the page holds at most 200 orders, and at most 25 when no size is given; it holds exactly `min(page size, matches)` stored orders, newest first, all of the requested tenant and customer; every matching order left out is no newer than every order on the page; in a well-keyed store the page holds no order twice |

## Source discrepancies

The model follows the code in each of these places. Each one is noted here.

- `CreateAsync` formats `order.Id`, and `GetAsync` filters on `o.Id`
  (src/Services/OrderService/CosmosOrderRepository.cs:58 and :71). The service's `Order`
  has only `OrderId` (src/Services/OrderService/Models/OrderModels.cs:36-37). The model
  keys documents on (tenant id, order id) and reads `Id` as the order id.
- The by-customer handler calls `GetByCustomerAsync(customerId, pageSize, ct)` without a
  tenant (src/Services/OrderService/Program.cs:111). Its route has no tenant segment
  either, but the interface requires one (src/Services/OrderService/CosmosOrderRepository.cs:12).
  `OrderApi.OrdersByCustomer` takes the tenant as a parameter.
- `EnsureCreatedAsync` creates no database or container. It only obtains a container
  handle, and the creation code is commented out
  (src/Services/OrderService/CosmosOrderRepository.cs:33-43).
- Calls before `EnsureCreatedAsync` do not behave alike. `GetAsync` and
  `GetByCustomerAsync` throw `InvalidOperationException`. `CreateAsync` reads the
  container handle inside its `try`, so the catch-all swallows that same exception and
  the method returns null.
- A duplicate create and a failed send both escape the POST handler as exceptions, which
  the host answers with HTTP 500. No handler code turns them into a 409 or a
  partial-success response. The model reports them as `Faulted(StoreFailed(DuplicateOrder(..)))`
  and `Faulted(PublishFailed)`.
- The `SessionId` line is commented out
  (src/Services/OrderService/ManagerQueuePublisher.cs:39-40), so the envelope never has a
  session id.

## Findings

| source | as written | input that shows it | evidently intended | confidence | as-written member | corrected member |
|---|---|---|---|---|---|---|
| src/Services/OrderService/CosmosOrderRepository.cs:60-64 | a create failure other than a conflict is only printed to the console, and `CreateAsync` returns null despite its non-nullable return type; the POST handler then reads `created.OrderId` (src/Services/OrderService/Program.cs:79) and throws `NullReferenceException` | a valid request while the database fails the write, or any create before `EnsureCreatedAsync` | the create fails with a typed store error that the handler surfaces, so nothing is silently lost | high; not executed | `OrderApi.AdmitAsWritten` | `OrderApi.Admit` |

`OrderRepository.CreateAsWritten` and `OrderApi.AdmitAsWritten` model the code as written.
`OrderApi.StoreFailureCrashesAsWritten` exhibits the failing input. The corrected
`OrderRepository.Create` reports `NotInitialised` or `StoreUnavailable` instead. The
corrected `OrderApi.Admit` surfaces that error with the store and queue unchanged. The rest
of the model uses the corrected pair. Both versions leave the same world and make the same
calls (`OrderApi.AdmitAsWrittenDiffersOnlyInNull`). No event is published in either case.

## Left out

- `EnumNames.TryParse`: .NET's `Enum.TryParse` accepts more than member names.
  - A numeric string such as "3" or "42" parses to that underlying value, even when no
    member is declared with it.
  - A comma-separated list such as "Rejected, Accepted" parses to the bitwise OR of the
    members it names.
  - White space around names and numbers is ignored.

  The model describes only non-blank letters-only values. Every other non-blank value
  yields `Unparsed`.
- `EnumNames.Assign`: it is weaker than the source for those forms. In .NET the setter
  stores the parsed value's `ToString()`. That is the member name when the value is
  declared ("3" is stored as "Accepted"), and otherwise its decimal string ("42" is stored
  as "42"). The model instead yields the model-only error `UnmodelledForm` and keeps the
  stored status. The claim that a successful assignment stores a member name holds only
  within the letters-only domain.
- `OrderModels.SetStatus`: the same restriction as `EnumNames.Assign`, which it calls.
- `DomainEntities.SetStatus`: the same restriction as `EnumNames.Assign`, which it calls.
- `Text.EqualsIgnoreCase`: case folding covers ASCII letters only. Ordinal case-insensitive
  comparison in .NET also folds some non-ASCII letters. The names are ASCII, and non-ASCII
  input is outside the letters-only domain anyway.
- Money: `decimal` is modelled as `real`, which is exact. The 28-digit range and overflow of
  `decimal` are not modelled, and neither is the 32-bit range of `int` quantities.
- `OrderValidator.CalculateTotal`: it requires a non-null item list. The source throws on a
  null list, and the handler only calls it after validation has rejected that case.
- A null element inside the item list is not modelled. The source would throw reading its SKU.
- `Order` fields (tenant id, order id, customer id, address, items) are modelled as
  non-null. The only orders the core writes come from validated requests.
- Host bootstrap, dependency injection, Swagger, routing, `async`/`await` and cancellation
  (src/Services/OrderService/Program.cs:6-43, 115) are not modelled. Each call is one atomic step.
- `Ulid.NewUlid()` and `DateTimeOffset.UtcNow` are parameters of the handlers. Id
  freshness is not assumed: a reused id shows up as a `DuplicateOrder` conflict.
  ULIDs never contain a colon. This matters only for the dedup-key lemmas.
- JSON serialisation of the order document and the event body is not modelled. The body is
  the record itself, and a created document is read back equal to what was written.
- Cosmos query paging is collapsed into one result. Query failures other than the missing
  container handle are not modelled, and neither is a container that does not exist.
- `OrderRepository.GetByCustomer`: the order among orders with equal creation times is
  unspecified in the source. The model picks one, and the contract does not constrain it.
  A `take` of 0 or less is modelled as LINQ's empty result; the handler never passes one.
- A send that throws although the broker accepted the message is not modelled. A failed
  send appends nothing. At-least-once redelivery by the broker is outside the model.
- `OrderStatusHistory` and `Rider` (src/Domain/Entities/OrderStatusHistory.cs,
  src/Domain/Entities/Rider.cs) are plain records with no behaviour, and no code path writes them.
- Status transition rules are not modelled. The source allows any member to be assigned from
  any state, and the admission path only assigns `Placed`.
