/**
 * The HTTP handlers of the order service: order admission (validate, price, assemble,
 * persist, publish, respond), the point lookup, and the by-customer history page.
 * Each handler is one atomic step over the world: the order store and the manager queue.
 * The minted order id, the clock reading and the failures of the store and the broker
 * are parameters.
 */
module OrderApi {
  import opened Wrappers
  import opened Text
  import opened OrderModels
  import OrderValidator
  import opened OrderRepository
  import MQ = ManagerQueuePublisher

  /** The state the handlers act on: the stored orders and the messages sent to the queue. */
  datatype World = World(store: Store, queue: seq<MQ.Envelope>)

  /** The calls the admission handler makes to its collaborators, in order. */
  datatype Call = CreateCall(order: Order) | SendCall(envelope: MQ.Envelope)

  /** Exceptions that escape a handler and become a server error. */
  datatype Fault =
    | StoreFailed(error: StoreError)
    | PublishFailed
    | NullReference

  datatype Response =
    | BadRequest(error: string)
    | CreatedAt(location: string, body: CreateOrderResponse)
    | Faulted(fault: Fault)

  /** The world after one admission, the calls made, and the HTTP response. */
  datatype Admission = Admission(world: World, calls: seq<Call>, response: Response)

  /** The `Location` header of a created order. */
  function Location(o: Order): string {
    "/api/orders/" + o.tenantId + "/" + o.orderId
  }

  function ResponseOf(o: Order): CreateOrderResponse {
    CreateOrderResponse(o.orderId, o.tenantId, o.customerId, o.status, o.totalAmount, o.createdAt)
  }

  function MessageOf(o: Order): MQ.OrderSubmittedMessage {
    MQ.OrderSubmittedMessage(o.orderId, o.tenantId, o.createdAt)
  }

  /**
   * The order the handler assembles from a validated request; its status goes through
   * the validating setter.
   */
  function Draft(req: CreateOrderRequest, orderId: string, now: int): (o: Order)
    requires OrderValidator.Validate(req).ok
    ensures o.status == Some("Placed")
    ensures o.createdAt == now && o.updatedAt == now
    ensures req.items.Some? && o.totalAmount == OrderValidator.CalculateTotal(req)
    ensures o.totalAmount >= 0.0
    ensures o.orderId == orderId && o.assignedRiderId.None?
    ensures req.tenantId == Some(o.tenantId) && req.customerId == Some(o.customerId)
    ensures req.deliveryAddress == Some(o.deliveryAddress) && req.items == Some(o.items)
  {
    OrderValidator.ValidTotalIsNonNegative(req);
    var unset := Order(
      tenantId := req.tenantId.value,
      orderId := orderId,
      customerId := req.customerId.value,
      createdAt := now,
      updatedAt := now,
      status := None,
      totalAmount := OrderValidator.CalculateTotal(req),
      assignedRiderId := None,
      deliveryAddress := req.deliveryAddress.value,
      items := req.items.value
    );
    SetStatusAcceptsAnyCasing(unset, Placed, "Placed");
    SetStatus(unset, Some("Placed")).order
  }

  /** The key the admission of `req` with id `orderId` writes. */
  function DraftKey(req: CreateOrderRequest, orderId: string): Key
    requires req.tenantId.Some?
  {
    (req.tenantId.value, orderId)
  }

  /** Whether the store accepts the draft: initialised, not failing, key free. */
  predicate CreateSucceeds(w: World, req: CreateOrderRequest, orderId: string, storeFails: bool)
    requires req.tenantId.Some?
  {
    w.store.initialised && !storeFails && DraftKey(req, orderId) !in w.store.docs
  }

  /** The POST `/api/orders` handler. */
  function Admit(w: World, req: CreateOrderRequest, orderId: string, now: int, storeFails: bool, sendFails: bool)
    : (a: Admission)
    // A rejected request is answered with its reason and touches nothing.
    ensures !OrderValidator.Validate(req).ok ==>
      a == Admission(w, [], BadRequest(OrderValidator.Validate(req).error.value))
    // Otherwise the first call creates the draft, and a send can only follow it.
    ensures OrderValidator.Validate(req).ok ==>
      1 <= |a.calls| <= 2 && a.calls[0] == CreateCall(Draft(req, orderId, now))
    ensures forall i | 0 <= i < |a.calls| :: a.calls[i].SendCall? ==> i == 1 && a.calls[0].CreateCall?
    ensures OrderValidator.Validate(req).ok ==>
      (|a.calls| == 2 <==> CreateSucceeds(w, req, orderId, storeFails))
    // A failed create leaves everything as it was and publishes nothing.
    ensures a.response.Faulted? && a.response.fault.StoreFailed? ==> a.world == w && |a.calls| == 1
    ensures OrderValidator.Validate(req).ok && !CreateSucceeds(w, req, orderId, storeFails) ==>
      && a.world == w
      && a.response == Faulted(StoreFailed(Create(w.store, Draft(req, orderId, now), storeFails).outcome.error))
    // A successful create stores exactly the assembled draft and nothing else.
    ensures OrderValidator.Validate(req).ok && CreateSucceeds(w, req, orderId, storeFails) ==>
      a.world.store == w.store.(docs := w.store.docs[DraftKey(req, orderId) := Draft(req, orderId, now)])
    // After a successful create, the response depends only on whether the send fails.
    ensures OrderValidator.Validate(req).ok && CreateSucceeds(w, req, orderId, storeFails) ==>
      && a.calls[1] == SendCall(MQ.BuildEnvelope(MessageOf(Draft(req, orderId, now))))
      && (a.response.CreatedAt? <==> !sendFails)
      && (!a.response.CreatedAt? ==> a.response == Faulted(PublishFailed))
    // Stored orders are never changed or removed.
    ensures forall k | k in w.store.docs :: k in a.world.store.docs && a.world.store.docs[k] == w.store.docs[k]
    ensures a.world.store.initialised == w.store.initialised
    // Success: the order is stored, exactly one envelope is queued, built from the stored order.
    ensures a.response.CreatedAt? ==>
      && OrderValidator.Validate(req).ok
      && DraftKey(req, orderId) in a.world.store.docs
      && var stored := a.world.store.docs[DraftKey(req, orderId)];
      && |a.calls| == 2
      && a.calls[1] == SendCall(MQ.BuildEnvelope(MessageOf(stored)))
      && a.world.queue == w.queue + [MQ.BuildEnvelope(MessageOf(stored))]
      && a.response.location == "/api/orders/" + stored.tenantId + "/" + stored.orderId
      && a.response.body == ResponseOf(stored)
    // A failed send leaves the order stored but the queue unchanged.
    ensures a.response == Faulted(PublishFailed) ==>
      && OrderValidator.Validate(req).ok
      && DraftKey(req, orderId) in a.world.store.docs
      && a.world.queue == w.queue
    ensures !a.response.CreatedAt? ==> a.world.queue == w.queue
  {
    var verdict := OrderValidator.Validate(req);
    if !verdict.ok then Admission(w, [], BadRequest(verdict.error.value))
    else
      var draft := Draft(req, orderId, now);
      var c := Create(w.store, draft, storeFails);
      match c.outcome
      case Err(e) => Admission(w.(store := c.store), [CreateCall(draft)], Faulted(StoreFailed(e)))
      case Ok(created) => Publish(w.queue, c.store, draft, created, sendFails)
  }

  /** The handler's steps after `CreateAsync` returned `created`: publish the event, then answer. */
  function Publish(queue: seq<MQ.Envelope>, store: Store, draft: Order, created: Order, sendFails: bool)
    : (a: Admission)
    ensures a.world.store == store
    ensures a.calls == [CreateCall(draft), SendCall(MQ.BuildEnvelope(MessageOf(created)))]
    ensures a.response.CreatedAt? <==> !sendFails
    ensures a.response.CreatedAt? ==>
      && a.world.queue == queue + [MQ.BuildEnvelope(MessageOf(created))]
      && a.response == CreatedAt(Location(created), ResponseOf(created))
    ensures !a.response.CreatedAt? ==> a.response == Faulted(PublishFailed) && a.world.queue == queue
  {
    var envelope := MQ.BuildEnvelope(MessageOf(created));
    var p := MQ.PublishOrderSubmitted(queue, MessageOf(created), sendFails);
    var calls := [CreateCall(draft), SendCall(envelope)];
    if p.thrown then Admission(World(store, p.queue), calls, Faulted(PublishFailed))
    else Admission(World(store, p.queue), calls, CreatedAt(Location(created), ResponseOf(created)))
  }

  /** Every queued event names an order that is in the store. */
  predicate EventsBacked(w: World) {
    forall i | 0 <= i < |w.queue| :: (w.queue[i].body.tenantId, w.queue[i].body.orderId) in w.store.docs
  }

  /**
   * Persist-then-publish: a consumer reacting to any queued event finds its order,
   * before and after every admission.
   */
  lemma AdmissionKeepsEventsBacked(
    w: World, req: CreateOrderRequest, orderId: string, now: int, storeFails: bool, sendFails: bool)
    requires EventsBacked(w) && WellKeyed(w.store)
    ensures EventsBacked(Admit(w, req, orderId, now, storeFails, sendFails).world)
    ensures WellKeyed(Admit(w, req, orderId, now, storeFails, sendFails).world.store)
  {
    var a := Admit(w, req, orderId, now, storeFails, sendFails);
    if a.response.CreatedAt? {
      var stored := a.world.store.docs[DraftKey(req, orderId)];
      var last := |w.queue|;
      assert a.world.queue[last].body == MessageOf(stored);
      assert KeyOf(stored) == DraftKey(req, orderId);
    }
  }

  /**
   * Two admissions that mint the same id in one tenant: the first creates and publishes,
   * the second fails with a conflict, stores nothing and publishes nothing.
   */
  lemma SameIdInTenantAdmittedOnce(
    w: World, r1: CreateOrderRequest, r2: CreateOrderRequest, orderId: string, t1: int, t2: int)
    requires OrderValidator.Validate(r1).ok && OrderValidator.Validate(r2).ok
    requires r1.tenantId == r2.tenantId
    requires w.store.initialised && DraftKey(r1, orderId) !in w.store.docs
    ensures Admit(w, r1, orderId, t1, false, false).response.CreatedAt?
    ensures
      var w1 := Admit(w, r1, orderId, t1, false, false).world;
      var second := Admit(w1, r2, orderId, t2, false, false);
      && second.response == Faulted(StoreFailed(DuplicateOrder(r2.tenantId.value, orderId)))
      && second.world == w1
      && second.calls == [CreateCall(Draft(r2, orderId, t2))]
  {
  }

  /** The worked example: one line of two items at 5.00 is admitted with total 10.00 and one event. */
  lemma AdmitExample(w: World, orderId: string, now: int)
    requires w.store.initialised && ("t1", orderId) !in w.store.docs
    ensures
      var req := CreateOrderRequest(Some("t1"), Some("c1"), Some("123 Main"),
        Some([OrderItem(Some("A1"), None, 2, 5.0)]));
      var a := Admit(w, req, orderId, now, false, false);
      && a.response.CreatedAt?
      && a.response.body.totalAmount == 10.0
      && a.response.body.status == Some("Placed")
      && |a.world.queue| == |w.queue| + 1
      && a.world.queue[|w.queue|].body.orderId == a.response.body.orderId == orderId
  {
    var req := CreateOrderRequest(Some("t1"), Some("c1"), Some("123 Main"),
      Some([OrderItem(Some("A1"), None, 2, 5.0)]));
    assert !IsNullOrWhiteSpace(req.tenantId) by { assert !IsWhiteSpace("t1"[0]); }
    assert !IsNullOrWhiteSpace(req.customerId) by { assert !IsWhiteSpace("c1"[0]); }
    assert !IsNullOrWhiteSpace(req.items.value[0].sku) by { assert !IsWhiteSpace("A1"[0]); }
    assert OrderValidator.Validate(req).ok;
    assert OrderValidator.CalculateTotal(req) == 10.0;
  }

  /**
   * The POST handler as written, over `CreateAsync` as written: when the create call
   * returns null, reading the created order's id throws before anything is published.
   */
  function AdmitAsWritten(
    w: World, req: CreateOrderRequest, orderId: string, now: int, storeFails: bool, sendFails: bool)
    : (a: Admission)
    ensures a.response == Faulted(NullReference) <==>
      OrderValidator.Validate(req).ok && (!w.store.initialised || storeFails)
    ensures a.response == Faulted(NullReference) ==> a.world == w && |a.calls| == 1
  {
    var verdict := OrderValidator.Validate(req);
    if !verdict.ok then Admission(w, [], BadRequest(verdict.error.value))
    else
      var draft := Draft(req, orderId, now);
      var c := CreateAsWritten(w.store, draft, storeFails);
      match c.outcome
      case ReturnedNull => Admission(w.(store := c.store), [CreateCall(draft)], Faulted(NullReference))
      case ConflictThrown(_) =>
        Admission(w.(store := c.store), [CreateCall(draft)], Faulted(StoreFailed(DuplicateOrder(draft.tenantId, draft.orderId))))
      case Returned(created) =>
        var envelope := MQ.BuildEnvelope(MessageOf(created));
        var p := MQ.PublishOrderSubmitted(w.queue, MessageOf(created), sendFails);
        var calls := [CreateCall(draft), SendCall(envelope)];
        if p.thrown then Admission(World(c.store, p.queue), calls, Faulted(PublishFailed))
        else Admission(World(c.store, p.queue), calls, CreatedAt(Location(created), ResponseOf(created)))
  }

  /**
   * The handler as written and the corrected one leave the same world and make the same
   * calls; they answer differently only where the code as written dereferences null.
   */
  lemma AdmitAsWrittenDiffersOnlyInNull(
    w: World, req: CreateOrderRequest, orderId: string, now: int, storeFails: bool, sendFails: bool)
    ensures AdmitAsWritten(w, req, orderId, now, storeFails, sendFails).world ==
      Admit(w, req, orderId, now, storeFails, sendFails).world
    ensures AdmitAsWritten(w, req, orderId, now, storeFails, sendFails).calls ==
      Admit(w, req, orderId, now, storeFails, sendFails).calls
    ensures AdmitAsWritten(w, req, orderId, now, storeFails, sendFails).response != Faulted(NullReference) ==>
      AdmitAsWritten(w, req, orderId, now, storeFails, sendFails).response ==
      Admit(w, req, orderId, now, storeFails, sendFails).response
  {
    if OrderValidator.Validate(req).ok {
      CreateAsWrittenDiffersOnlyInNull(w.store, Draft(req, orderId, now), storeFails);
    }
  }

  /**
   * A database failure on a valid request: as written the handler crashes with a null
   * dereference, the corrected handler reports the store as unavailable.
   */
  lemma StoreFailureCrashesAsWritten(w: World, req: CreateOrderRequest, orderId: string, now: int)
    requires OrderValidator.Validate(req).ok && w.store.initialised
    ensures AdmitAsWritten(w, req, orderId, now, true, false).response == Faulted(NullReference)
    ensures Admit(w, req, orderId, now, true, false).response == Faulted(StoreFailed(StoreUnavailable))
  {
  }

  /** The page size of the by-customer endpoint: `Math.Clamp(take ?? 25, 1, 200)`. */
  function PageSize(take: Option<int>): (n: int)
    ensures 1 <= n <= 200
    ensures take.None? ==> n == 25
    ensures take.Some? && 1 <= take.value <= 200 ==> n == take.value
    ensures take.Some? && take.value < 1 ==> n == 1
    ensures take.Some? && take.value > 200 ==> n == 200
  {
    var t := if take.Some? then take.value else 25;
    if t < 1 then 1 else if t > 200 then 200 else t
  }

  /** Clamping an already clamped page size changes nothing. */
  lemma PageSizeIsIdempotent(take: Option<int>)
    ensures PageSize(Some(PageSize(take))) == PageSize(take)
  {
  }

  datatype LookupResponse = Found(order: Order) | NotFound | LookupFaulted(error: StoreError)

  /** The GET `/api/orders/{tenantId}/{orderId}` handler: 200 with the order, or 404. */
  function GetOrder(s: Store, tenantId: string, orderId: string): (r: LookupResponse)
    ensures r.LookupFaulted? <==> !s.initialised
    ensures r.Found? ==> r.order in s.docs.Values
    ensures WellKeyed(s) && r.Found? ==> r.order.tenantId == tenantId && r.order.orderId == orderId
    ensures WellKeyed(s) ==> (r.NotFound? <==>
      s.initialised && forall k | k in s.docs :: s.docs[k].tenantId != tenantId || s.docs[k].orderId != orderId)
  {
    match Get(s, tenantId, orderId)
    case Err(e) => LookupFaulted(e)
    case Ok(None) => NotFound
    case Ok(Some(o)) => Found(o)
  }

  /**
   * The GET by-customer handler: at most 200 orders (25 when no page size is given), all of
   * the tenant and customer asked for, newest first.
   */
  method OrdersByCustomer(s: Store, tenantId: string, customerId: string, take: Option<int>)
    returns (r: Result<seq<Order>, StoreError>)
    ensures r.Err? <==> !s.initialised
    ensures r.Ok? ==> |r.value| <= PageSize(take) <= 200
    ensures r.Ok? && take.None? ==> |r.value| <= 25
    ensures r.Ok? ==> |r.value| == TakeCount(PageSize(take), |MatchingKeys(s, tenantId, customerId)|)
    ensures r.Ok? ==> NewestFirst(r.value)
    ensures r.Ok? ==> forall i | 0 <= i < |r.value| ::
      r.value[i] in s.docs.Values && r.value[i].tenantId == tenantId && r.value[i].customerId == customerId
    ensures r.Ok? ==> forall k | k in MatchingKeys(s, tenantId, customerId) && s.docs[k] !in r.value ::
      forall i | 0 <= i < |r.value| :: s.docs[k].createdAt <= r.value[i].createdAt
    ensures r.Ok? && WellKeyed(s) ==> Distinct(r.value)
  {
    var pageSize := PageSize(take);
    r := GetByCustomer(s, tenantId, customerId, pageSize);
  }
}
