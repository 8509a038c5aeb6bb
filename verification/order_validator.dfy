/**
 * Validation and pricing of an order submission. `Validate` checks seven rules in a
 * fixed order and reports the first that fails; `CalculateTotal` prices the cart.
 */
module OrderValidator {
  import opened Wrappers
  import opened Text
  import opened OrderModels

  /** The validation rules, one constructor per check. */
  datatype Rule =
    | TenantRule     // tenant id present and not blank
    | CustomerRule   // customer id present and not blank
    | AddressRule    // delivery address present; a blank address is accepted
    | CartRule       // item list present and non-empty
    | SkuRule        // every item has a SKU that is not blank
    | QuantityRule   // every item has quantity >= 1
    | PriceRule      // every item has unit price >= 0

  /** The order in which the rules are checked. */
  const RuleOrder: seq<Rule> := [TenantRule, CustomerRule, AddressRule, CartRule, SkuRule, QuantityRule, PriceRule]

  /** Where a rule stands in the checking order. */
  function Position(rule: Rule): (k: nat)
    ensures k < |RuleOrder| && RuleOrder[k] == rule
  {
    match rule
    case TenantRule => 0
    case CustomerRule => 1
    case AddressRule => 2
    case CartRule => 3
    case SkuRule => 4
    case QuantityRule => 5
    case PriceRule => 6
  }

  /** The rejection reason reported for a failed rule. */
  function Message(rule: Rule): string {
    match rule
    case TenantRule => "TenantId is required."
    case CustomerRule => "CustomerId is required."
    case AddressRule => "DeliveryAddress is required."
    case CartRule => "Cart is empty."
    case SkuRule => "Item SKU is required."
    case QuantityRule => "Item quantity must be >= 1."
    case PriceRule => "Item price must be >= 0."
  }

  /** Each rule stated on its own; item rules speak about every item of a present list. */
  predicate Satisfies(req: CreateOrderRequest, rule: Rule) {
    match rule
    case TenantRule => !IsNullOrWhiteSpace(req.tenantId)
    case CustomerRule => !IsNullOrWhiteSpace(req.customerId)
    case AddressRule => req.deliveryAddress.Some?
    case CartRule => req.items.Some? && |req.items.value| > 0
    case SkuRule =>
      req.items.Some? ==> forall i | 0 <= i < |req.items.value| :: !IsNullOrWhiteSpace(req.items.value[i].sku)
    case QuantityRule =>
      req.items.Some? ==> forall i | 0 <= i < |req.items.value| :: req.items.value[i].quantity >= 1
    case PriceRule =>
      req.items.Some? ==> forall i | 0 <= i < |req.items.value| :: req.items.value[i].unitPrice >= 0.0
  }

  /** Position of the first rule at or after `k` that the request breaks. */
  function FirstBrokenFrom(rules: seq<Rule>, req: CreateOrderRequest, k: nat): (r: Option<nat>)
    requires k <= |rules|
    ensures r.Some? ==> k <= r.value < |rules| && !Satisfies(req, rules[r.value])
    ensures r.Some? ==> forall j | k <= j < r.value :: Satisfies(req, rules[j])
    ensures r.None? <==> forall j | k <= j < |rules| :: Satisfies(req, rules[j])
    decreases |rules| - k
  {
    if k == |rules| then None
    else if !Satisfies(req, rules[k]) then Some(k)
    else FirstBrokenFrom(rules, req, k + 1)
  }

  /** LINQ `Any`: whether some item satisfies `p`, scanning from the front. */
  function AnyItem(items: seq<OrderItem>, p: OrderItem -> bool): (r: bool)
    ensures r <==> exists i | 0 <= i < |items| :: p(items[i])
  {
    if |items| == 0 then false
    else p(items[0]) || AnyItem(items[1..], p)
  }

  /** The `(ok, error)` pair returned by `Validate`. */
  datatype Verdict = Verdict(ok: bool, error: Option<string>)

  /** `Validate`: the first failing rule's message, or success when every rule holds. */
  function Validate(req: CreateOrderRequest): (v: Verdict)
    ensures v.ok <==> v.error.None?
  {
    if IsNullOrWhiteSpace(req.tenantId) then Verdict(false, Some(Message(TenantRule)))
    else if IsNullOrWhiteSpace(req.customerId) then Verdict(false, Some(Message(CustomerRule)))
    else if req.deliveryAddress.None? then Verdict(false, Some(Message(AddressRule)))
    else if req.items.None? || |req.items.value| == 0 then Verdict(false, Some(Message(CartRule)))
    else if AnyItem(req.items.value, (i: OrderItem) => IsNullOrWhiteSpace(i.sku)) then Verdict(false, Some(Message(SkuRule)))
    else if AnyItem(req.items.value, (i: OrderItem) => i.quantity <= 0) then Verdict(false, Some(Message(QuantityRule)))
    else if AnyItem(req.items.value, (i: OrderItem) => i.unitPrice < 0.0) then Verdict(false, Some(Message(PriceRule)))
    else Verdict(true, None)
  }

  /** `Validate` reports exactly the first rule, in rule order, that the request breaks. */
  lemma ValidateReportsFirstBrokenRule(req: CreateOrderRequest)
    ensures Validate(req) ==
      match FirstBrokenFrom(RuleOrder, req, 0)
      case None => Verdict(true, None)
      case Some(k) => Verdict(false, Some(Message(RuleOrder[k])))
  {
  }

  /** A request is accepted exactly when it satisfies every rule. */
  lemma ValidateAcceptsExactlyCompliantRequests(req: CreateOrderRequest)
    ensures Validate(req).ok <==> forall rule: Rule :: Satisfies(req, rule)
  {
    ValidateReportsFirstBrokenRule(req);
    if Validate(req).ok {
      forall rule: Rule ensures Satisfies(req, rule) {
        assert RuleOrder[Position(rule)] == rule;
      }
    } else {
      var k := FirstBrokenFrom(RuleOrder, req, 0).value;
      assert !Satisfies(req, RuleOrder[k]);
    }
  }

  /** Blank identifiers: the tenant is checked before the customer. */
  lemma BlankIdentifiersRejected(req: CreateOrderRequest)
    ensures IsNullOrWhiteSpace(req.tenantId) ==> Validate(req) == Verdict(false, Some("TenantId is required."))
    ensures !IsNullOrWhiteSpace(req.tenantId) && IsNullOrWhiteSpace(req.customerId) ==>
      Validate(req) == Verdict(false, Some("CustomerId is required."))
  {
  }

  /** Only a null address is rejected; an empty or blank address passes its rule. */
  lemma OnlyNullAddressRejected(req: CreateOrderRequest)
    requires !IsNullOrWhiteSpace(req.tenantId) && !IsNullOrWhiteSpace(req.customerId)
    ensures Validate(req).error == Some("DeliveryAddress is required.") <==> req.deliveryAddress.None?
  {
  }

  /** A null or empty item list is reported as an empty cart once the earlier rules pass. */
  lemma EmptyCartRejected(req: CreateOrderRequest)
    requires !IsNullOrWhiteSpace(req.tenantId) && !IsNullOrWhiteSpace(req.customerId)
    requires req.deliveryAddress.Some?
    requires req.items.None? || req.items.value == []
    ensures Validate(req) == Verdict(false, Some("Cart is empty."))
  {
  }

  /** Item rules run across the whole cart: a blank SKU anywhere wins over a bad quantity or price anywhere. */
  lemma SkuCheckedBeforeQuantityAndPrice(req: CreateOrderRequest, i: nat)
    requires !IsNullOrWhiteSpace(req.tenantId) && !IsNullOrWhiteSpace(req.customerId)
    requires req.deliveryAddress.Some? && req.items.Some?
    requires i < |req.items.value| && IsNullOrWhiteSpace(req.items.value[i].sku)
    ensures Validate(req) == Verdict(false, Some("Item SKU is required."))
  {
  }

  /** With every SKU present, a bad quantity anywhere wins over a negative price anywhere. */
  lemma QuantityCheckedBeforePrice(req: CreateOrderRequest, i: nat)
    requires !IsNullOrWhiteSpace(req.tenantId) && !IsNullOrWhiteSpace(req.customerId)
    requires req.deliveryAddress.Some? && req.items.Some?
    requires forall j | 0 <= j < |req.items.value| :: !IsNullOrWhiteSpace(req.items.value[j].sku)
    requires i < |req.items.value| && req.items.value[i].quantity <= 0
    ensures Validate(req) == Verdict(false, Some("Item quantity must be >= 1."))
  {
  }

  /** The price of one line: unit price times quantity, in exact arithmetic. */
  function LineAmount(item: OrderItem): real {
    item.unitPrice * item.quantity as real
  }

  /** LINQ `Sum` of the line amounts. */
  function Sum(items: seq<OrderItem>): real {
    if |items| == 0 then 0.0 else LineAmount(items[0]) + Sum(items[1..])
  }

  /** `CalculateTotal`: the sum of the line amounts of the cart. */
  function CalculateTotal(req: CreateOrderRequest): (total: real)
    requires req.items.Some?
    ensures (forall i | 0 <= i < |req.items.value| ::
      req.items.value[i].quantity >= 1 && req.items.value[i].unitPrice >= 0.0) ==> total >= 0.0
  {
    SumOfValidItemsIsNonNegative(req.items.value);
    Sum(req.items.value)
  }

  lemma {:induction false} SumAppend(a: seq<OrderItem>, b: seq<OrderItem>)
    ensures Sum(a + b) == Sum(a) + Sum(b)
  {
    if |a| == 0 {
      assert a + b == b;
    } else {
      assert (a + b)[1..] == a[1..] + b;
      SumAppend(a[1..], b);
    }
  }

  /** Taking one item out of a cart lowers the sum by exactly that item's line amount. */
  lemma SumWithout(b: seq<OrderItem>, k: nat)
    requires k < |b|
    ensures Sum(b) == LineAmount(b[k]) + Sum(b[..k] + b[k + 1..])
  {
    var left, tail, right := b[..k], b[k..], b[k + 1..];
    assert b == left + tail;
    assert tail[1..] == right;
    SumAppend(left, tail);
    SumAppend(left, right);
  }

  /** Taking the k-th element out of a sequence takes one copy of it out of its multiset. */
  lemma MultisetWithout<T>(b: seq<T>, k: nat)
    requires k < |b|
    ensures multiset(b[..k] + b[k + 1..]) == multiset(b) - multiset{b[k]}
  {
    assert b == b[..k] + [b[k]] + b[k + 1..];
  }

  /** Reordering the items never changes the sum. */
  lemma {:induction false} SumIsOrderIndependent(a: seq<OrderItem>, b: seq<OrderItem>)
    requires multiset(a) == multiset(b)
    ensures Sum(a) == Sum(b)
  {
    if |a| == 0 {
      assert |b| == |multiset(b)|;
    } else {
      var x := a[0];
      assert x in b by {
        assert x in multiset(a);
      }
      var k :| 0 <= k < |b| && b[k] == x;
      var rest := b[..k] + b[k + 1..];
      SumWithout(b, k);
      MultisetWithout(b, k);
      assert a == [x] + a[1..];
      assert multiset(a[1..]) == multiset(rest);
      SumIsOrderIndependent(a[1..], rest);
    }
  }

  /** Permuting the cart does not change the total. */
  lemma TotalIsOrderIndependent(r1: CreateOrderRequest, r2: CreateOrderRequest)
    requires r1.items.Some? && r2.items.Some?
    requires multiset(r1.items.value) == multiset(r2.items.value)
    ensures CalculateTotal(r1) == CalculateTotal(r2)
  {
    SumIsOrderIndependent(r1.items.value, r2.items.value);
  }

  lemma {:induction false} SumOfValidItemsIsNonNegative(items: seq<OrderItem>)
    ensures (forall i | 0 <= i < |items| :: items[i].quantity >= 1 && items[i].unitPrice >= 0.0) ==>
      Sum(items) >= 0.0
  {
    if |items| > 0 && forall i | 0 <= i < |items| :: items[i].quantity >= 1 && items[i].unitPrice >= 0.0 {
      var q := items[0].quantity as real;
      var p := items[0].unitPrice;
      assert p * q >= 0.0 by {
        assert q >= 1.0 && p >= 0.0;
      }
      assert forall i | 0 <= i < |items| - 1 :: items[1..][i] == items[i + 1];
      SumOfValidItemsIsNonNegative(items[1..]);
    }
  }

  /** A request that passes validation has a non-negative total. */
  lemma ValidTotalIsNonNegative(req: CreateOrderRequest)
    requires Validate(req).ok
    ensures req.items.Some? && CalculateTotal(req) >= 0.0
  {
    assert Satisfies(req, RuleOrder[3]) && Satisfies(req, RuleOrder[5]) && Satisfies(req, RuleOrder[6]);
    SumOfValidItemsIsNonNegative(req.items.value);
  }
}
