/**
 * The order store: documents partitioned by tenant and keyed by (tenant id, order id),
 * with create-if-absent, a point lookup, and a newest-first query by customer.
 * The document database is an abstract map; `initialised` records whether
 * `EnsureCreatedAsync` has obtained the container handle.
 */
module OrderRepository {
  import opened Wrappers
  import opened OrderModels

  /** (tenant id, order id): the partition key and the id within the partition. */
  type Key = (string, string)

  function KeyOf(o: Order): Key {
    (o.tenantId, o.orderId)
  }

  datatype Store = Store(initialised: bool, docs: map<Key, Order>)

  /** Every document is stored under its own tenant and order id. */
  predicate WellKeyed(s: Store) {
    forall k | k in s.docs :: KeyOf(s.docs[k]) == k
  }

  datatype StoreError =
    | NotInitialised                                   // no container handle yet
    | DuplicateOrder(tenantId: string, orderId: string) // the key is already taken in the tenant
    | StoreUnavailable                                 // the database failed the request

  /** `EnsureCreatedAsync`: obtains the container handle; it creates nothing and deletes nothing. */
  function EnsureCreated(s: Store): (r: Store)
    ensures r.initialised
    ensures r.docs == s.docs
  {
    s.(initialised := true)
  }

  /** Calling `EnsureCreatedAsync` again is harmless. */
  lemma EnsureCreatedIsIdempotent(s: Store)
    ensures EnsureCreated(EnsureCreated(s)) == EnsureCreated(s)
  {
  }

  /** The store after a create call, and what the call produced. */
  datatype Creation = Creation(store: Store, outcome: Result<Order, StoreError>)

  /**
   * Create-if-absent, with every failure reported as a typed error. `storeFails` stands
   * for any failure of the database other than a conflict.
   */
  function Create(s: Store, o: Order, storeFails: bool): (r: Creation)
    ensures r.outcome.Ok? <==> s.initialised && !storeFails && KeyOf(o) !in s.docs
    ensures r.outcome.Ok? ==> r.outcome.value == o && r.store == s.(docs := s.docs[KeyOf(o) := o])
    ensures r.outcome.Err? ==> r.store == s
    ensures r.outcome == Err(NotInitialised) <==> !s.initialised
    ensures r.outcome == Err(StoreUnavailable) <==> s.initialised && storeFails
    ensures r.outcome == Err(DuplicateOrder(o.tenantId, o.orderId)) <==>
      s.initialised && !storeFails && KeyOf(o) in s.docs
    ensures WellKeyed(s) ==> WellKeyed(r.store)
  {
    if !s.initialised then Creation(s, Err(NotInitialised))
    else if storeFails then Creation(s, Err(StoreUnavailable))
    else if KeyOf(o) in s.docs then Creation(s, Err(DuplicateOrder(o.tenantId, o.orderId)))
    else Creation(s.(docs := s.docs[KeyOf(o) := o]), Ok(o))
  }

  /** What `CreateAsync` as written hands back to its caller. */
  datatype CreateReturn =
    | Returned(order: Order)
    | ReturnedNull                      // a non-conflict failure, logged to the console
    | ConflictThrown(message: string)   // InvalidOperationException

  datatype CreationAsWritten = CreationAsWritten(store: Store, outcome: CreateReturn)

  /** The conflict message; the source formats an `Id` property the order does not have, read here as the order id. */
  function ConflictMessage(o: Order): string {
    "Order with ID " + o.orderId + " already exists in tenant " + o.tenantId + "."
  }

  /**
   * `CreateAsync` as written. The container handle is read inside the `try`, so a call
   * before `EnsureCreatedAsync` lands in the catch-all like any other non-conflict failure,
   * and the method returns null.
   */
  function CreateAsWritten(s: Store, o: Order, storeFails: bool): (r: CreationAsWritten)
    ensures r.outcome.Returned? <==> s.initialised && !storeFails && KeyOf(o) !in s.docs
    ensures r.outcome.Returned? ==> r.outcome.order == o && r.store == s.(docs := s.docs[KeyOf(o) := o])
    ensures !r.outcome.Returned? ==> r.store == s
    ensures r.outcome.ReturnedNull? <==> !s.initialised || storeFails
    ensures r.outcome.ConflictThrown? ==> r.outcome.message == ConflictMessage(o)
  {
    if !s.initialised || storeFails then CreationAsWritten(s, ReturnedNull)
    else if KeyOf(o) in s.docs then CreationAsWritten(s, ConflictThrown(ConflictMessage(o)))
    else CreationAsWritten(s.(docs := s.docs[KeyOf(o) := o]), Returned(o))
  }

  /**
   * The two versions change the store identically and agree on success and conflict;
   * they differ only where the code as written returns null instead of failing.
   */
  lemma CreateAsWrittenDiffersOnlyInNull(s: Store, o: Order, storeFails: bool)
    ensures CreateAsWritten(s, o, storeFails).store == Create(s, o, storeFails).store
    ensures CreateAsWritten(s, o, storeFails).outcome.Returned? <==> Create(s, o, storeFails).outcome.Ok?
    ensures CreateAsWritten(s, o, storeFails).outcome.ConflictThrown? <==>
      Create(s, o, storeFails).outcome == Err(DuplicateOrder(o.tenantId, o.orderId))
    ensures CreateAsWritten(s, o, storeFails).outcome.ReturnedNull? <==>
      Create(s, o, storeFails).outcome in {Err(NotInitialised), Err(StoreUnavailable)}
  {
  }

  /** The same order id in two tenants never conflicts: uniqueness is per partition. */
  lemma TenantsMayReuseOrderIds(s: Store, a: Order, b: Order)
    requires s.initialised
    requires a.orderId == b.orderId && a.tenantId != b.tenantId
    requires KeyOf(a) !in s.docs && KeyOf(b) !in s.docs
    ensures Create(s, a, false).outcome == Ok(a)
    ensures Create(Create(s, a, false).store, b, false).outcome == Ok(b)
  {
  }

  /** A second create under a taken key fails with a conflict and leaves the first order in place. */
  lemma SecondCreateConflicts(s: Store, a: Order, b: Order)
    requires s.initialised && KeyOf(a) !in s.docs
    requires KeyOf(b) == KeyOf(a)
    ensures Create(Create(s, a, false).store, b, false) ==
      Creation(Create(s, a, false).store, Err(DuplicateOrder(b.tenantId, b.orderId)))
    ensures Create(s, a, false).store.docs[KeyOf(a)] == a
  {
  }

  /** `GetAsync`: the order with the given tenant and order id, or absence. */
  function Get(s: Store, tenantId: string, orderId: string): (r: Result<Option<Order>, StoreError>)
    ensures r.Err? <==> !s.initialised
    ensures r.Err? ==> r.error == NotInitialised
    ensures r.Ok? && r.value.Some? ==> r.value.value in s.docs.Values
    ensures WellKeyed(s) && r.Ok? && r.value.Some? ==>
      r.value.value.tenantId == tenantId && r.value.value.orderId == orderId
    ensures WellKeyed(s) && r.Ok? ==>
      (r.value.None? <==> forall k | k in s.docs :: s.docs[k].tenantId != tenantId || s.docs[k].orderId != orderId)
  {
    if !s.initialised then Err(NotInitialised)
    else if (tenantId, orderId) in s.docs then Ok(Some(s.docs[(tenantId, orderId)]))
    else Ok(None)
  }

  /** An order that was created is found again under its tenant and id. */
  lemma CreatedOrderIsFound(s: Store, o: Order, storeFails: bool)
    requires Create(s, o, storeFails).outcome.Ok?
    ensures Get(Create(s, o, storeFails).store, o.tenantId, o.orderId) == Ok(Some(o))
  {
  }

  /** Keys of the documents the by-customer query selects. */
  function MatchingKeys(s: Store, tenantId: string, customerId: string): set<Key> {
    set k | k in s.docs && s.docs[k].tenantId == tenantId && s.docs[k].customerId == customerId
  }

  predicate Distinct<T(==)>(xs: seq<T>) {
    forall i, j | 0 <= i < j < |xs| :: xs[i] != xs[j]
  }

  /** Sorted by creation time, newest first. */
  predicate NewestFirst(os: seq<Order>) {
    forall i, j | 0 <= i < j < |os| :: os[i].createdAt >= os[j].createdAt
  }

  /** An order no older than every element of a newest-first list may head it. */
  lemma ConsNewestFirst(h: Order, tail: seq<Order>)
    requires NewestFirst(tail)
    requires forall x | x in tail :: x.createdAt <= h.createdAt
    ensures NewestFirst([h] + tail)
  {
    var r := [h] + tail;
    forall i, j | 0 <= i < j < |r| ensures r[i].createdAt >= r[j].createdAt {
      assert r[j] == tail[j - 1];
      if i > 0 {
        assert r[i] == tail[i - 1];
      }
    }
  }

  /** The head of a newest-first list is no older than any of its elements. */
  lemma HeadIsNewest(sorted: seq<Order>)
    requires NewestFirst(sorted) && |sorted| > 0
    ensures forall x | x in sorted :: x.createdAt <= sorted[0].createdAt
  {
  }

  /** Prepending an element not in a duplicate-free list keeps it duplicate-free. */
  lemma ConsDistinct<T>(h: T, tail: seq<T>)
    ensures Distinct(tail) && h !in tail ==> Distinct([h] + tail)
  {
    if Distinct(tail) && h !in tail {
      var r := [h] + tail;
      forall i, j | 0 <= i < j < |r| ensures r[i] != r[j] {
        assert r[j] == tail[j - 1];
        if i > 0 {
          assert r[i] == tail[i - 1];
        }
      }
    }
  }

  /** The tail of a duplicate-free list is duplicate-free and does not hold its head. */
  lemma DistinctTail<T>(xs: seq<T>)
    requires |xs| > 0
    ensures Distinct(xs) ==> xs[0] !in xs[1..] && Distinct(xs[1..])
  {
    if Distinct(xs) {
      forall j | 0 <= j < |xs| - 1 ensures xs[1..][j] != xs[0] {
        assert xs[1..][j] == xs[j + 1];
      }
    }
  }

  /** Inserts an order into a newest-first list. */
  function Insert(o: Order, sorted: seq<Order>): (r: seq<Order>)
    requires NewestFirst(sorted)
    ensures |r| == |sorted| + 1
    ensures forall x :: x in r <==> x == o || x in sorted
    ensures multiset(r) == multiset{o} + multiset(sorted)
    ensures NewestFirst(r)
    ensures Distinct(sorted) && o !in sorted ==> Distinct(r)
  {
    if |sorted| == 0 then [o]
    else
      var head, tail := sorted[0], sorted[1..];
      assert sorted == [head] + tail;
      if o.createdAt >= head.createdAt then
        HeadIsNewest(sorted);
        ConsNewestFirst(o, sorted);
        ConsDistinct(o, sorted);
        [o] + sorted
      else
        var rest := Insert(o, tail);
        HeadIsNewest(sorted);
        ConsNewestFirst(head, rest);
        DistinctTail(sorted);
        ConsDistinct(head, rest);
        [head] + rest
  }

  /** `OrderByDescending(o => o.CreatedAt)`; the order among equal timestamps is not specified by the source. */
  function SortNewestFirst(os: seq<Order>): (r: seq<Order>)
    ensures |r| == |os|
    ensures forall x :: x in r <==> x in os
    ensures multiset(r) == multiset(os)
    ensures NewestFirst(r)
    ensures Distinct(os) ==> Distinct(r)
  {
    if |os| == 0 then []
    else
      assert os == [os[0]] + os[1..];
      Insert(os[0], SortNewestFirst(os[1..]))
  }

  /** The elements of a finite set, each once, in some order. */
  method SeqOfSet<T(==)>(xs: set<T>) returns (s: seq<T>)
    ensures |s| == |xs|
    ensures Distinct(s)
    ensures forall x :: x in s <==> x in xs
  {
    s := [];
    var rest := xs;
    while rest != {}
      invariant |s| + |rest| == |xs|
      invariant Distinct(s)
      invariant forall x :: x in xs <==> x in s || x in rest
      invariant forall x :: x in s ==> x !in rest
      decreases |rest|
    {
      var x :| x in rest;
      s := s + [x];
      rest := rest - {x};
    }
  }

  /** LINQ `Take(n)`: how many of `available` results a query keeps. */
  function TakeCount(take: int, available: nat): (n: nat)
    ensures n <= available
    ensures take <= 0 ==> n == 0
  {
    if take <= 0 then 0 else if take < available then take else available
  }

  /** The documents stored under the given keys, in the keys' order. */
  function Lookup(docs: map<Key, Order>, ks: seq<Key>): (os: seq<Order>)
    requires forall i | 0 <= i < |ks| :: ks[i] in docs
    ensures |os| == |ks|
    ensures forall i | 0 <= i < |ks| :: os[i] == docs[ks[i]]
  {
    seq(|ks|, i requires 0 <= i < |ks| => docs[ks[i]])
  }

  /** Cutting a newest-first list keeps the newest: whatever is cut off is no newer than what stays. */
  lemma PrefixHoldsNewest(sorted: seq<Order>, n: nat)
    requires NewestFirst(sorted) && n <= |sorted|
    ensures forall x | x in sorted && x !in sorted[..n] ::
      forall i | 0 <= i < n :: x.createdAt <= sorted[i].createdAt
  {
    forall x | x in sorted && x !in sorted[..n]
      ensures forall i | 0 <= i < n :: x.createdAt <= sorted[i].createdAt
    {
      var m :| 0 <= m < |sorted| && sorted[m] == x;
    }
  }

  /** `OrderByDescending(o => o.CreatedAt).Take(take)`: the newest `take` of the found orders, newest first. */
  function NewestPage(found: seq<Order>, take: int): (page: seq<Order>)
    ensures |page| == TakeCount(take, |found|)
    ensures NewestFirst(page)
    ensures forall x | x in page :: x in found
    ensures forall x | x in found && x !in page ::
      forall i | 0 <= i < |page| :: x.createdAt <= page[i].createdAt
    ensures Distinct(found) ==> Distinct(page)
  {
    var sorted := SortNewestFirst(found);
    var n := TakeCount(take, |sorted|);
    PrefixHoldsNewest(sorted, n);
    sorted[..n]
  }

  /** In a well-keyed store, distinct keys hold distinct documents. */
  lemma DistinctKeysHoldDistinctOrders(s: Store, ks: seq<Key>)
    requires WellKeyed(s) && Distinct(ks)
    requires forall i | 0 <= i < |ks| :: ks[i] in s.docs
    ensures Distinct(Lookup(s.docs, ks))
  {
    var os := Lookup(s.docs, ks);
    forall i, j | 0 <= i < j < |os| ensures os[i] != os[j] {
      assert KeyOf(os[i]) == ks[i] && KeyOf(os[j]) == ks[j];
    }
  }

  /** Every document looked up under matching keys is a stored order of that tenant and customer. */
  lemma LookedUpMatch(s: Store, tenantId: string, customerId: string, ks: seq<Key>)
    requires forall i | 0 <= i < |ks| :: ks[i] in s.docs && ks[i] in MatchingKeys(s, tenantId, customerId)
    ensures forall x | x in Lookup(s.docs, ks) ::
      x in s.docs.Values && x.tenantId == tenantId && x.customerId == customerId
  {
    var found := Lookup(s.docs, ks);
    forall x | x in found
      ensures x in s.docs.Values && x.tenantId == tenantId && x.customerId == customerId
    {
      var j :| 0 <= j < |found| && found[j] == x;
      assert ks[j] in MatchingKeys(s, tenantId, customerId);
    }
  }

  /** Looking up every matching key finds every matching document. */
  lemma MatchesAreLookedUp(s: Store, tenantId: string, customerId: string, ks: seq<Key>)
    requires forall i | 0 <= i < |ks| :: ks[i] in s.docs
    requires forall k | k in MatchingKeys(s, tenantId, customerId) :: k in ks
    ensures forall k | k in MatchingKeys(s, tenantId, customerId) :: s.docs[k] in Lookup(s.docs, ks)
  {
    var found := Lookup(s.docs, ks);
    forall k | k in MatchingKeys(s, tenantId, customerId) ensures s.docs[k] in found {
      var j :| 0 <= j < |ks| && ks[j] == k;
      assert found[j] == s.docs[k];
    }
  }

  /**
   * `GetByCustomerAsync`: the tenant's orders for the customer, newest first, at most
   * `take` of them, and always the newest ones.
   */
  method GetByCustomer(s: Store, tenantId: string, customerId: string, take: int)
    returns (r: Result<seq<Order>, StoreError>)
    ensures r.Err? <==> !s.initialised
    ensures r.Err? ==> r.error == NotInitialised
    ensures r.Ok? ==> forall i | 0 <= i < |r.value| ::
      r.value[i] in s.docs.Values && r.value[i].tenantId == tenantId && r.value[i].customerId == customerId
    ensures r.Ok? ==> NewestFirst(r.value)
    ensures r.Ok? ==> |r.value| == TakeCount(take, |MatchingKeys(s, tenantId, customerId)|)
    ensures r.Ok? ==> forall k | k in MatchingKeys(s, tenantId, customerId) && s.docs[k] !in r.value ::
      forall i | 0 <= i < |r.value| :: s.docs[k].createdAt <= r.value[i].createdAt
    ensures r.Ok? && WellKeyed(s) ==> Distinct(r.value)
  {
    if !s.initialised {
      return Err(NotInitialised);
    }
    var keys := MatchingKeys(s, tenantId, customerId);
    var ks := SeqOfSet(keys);
    assert forall i | 0 <= i < |ks| :: ks[i] in keys;
    var found := Lookup(s.docs, ks);
    var page := NewestPage(found, take);
    LookedUpMatch(s, tenantId, customerId, ks);
    MatchesAreLookedUp(s, tenantId, customerId, ks);
    if WellKeyed(s) {
      DistinctKeysHoldDistinctOrders(s, ks);
    }
    r := Ok(page);
  }
}
